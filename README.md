# xml2ddl schema inference in Dafny

This project models the core of `xml2ddl.py`, a tool that reads an XML document and infers a relational schema from it. It then writes that schema as SQL `CREATE TABLE` statements, or as an XML description of the relations between the tables. The model covers six parts:

- **The type lattice.** This is `get_data_type` and `data_type_usable`, over BIT < INT < FLOAT < NVARCHAR < NTEXT. `get_data_type` classifies a literal and merges it into a column's previous type. `data_type_usable` decides whether one type can be stored in another. Both are functions, written exactly as Python evaluates them. One quirk follows from Python's `and`/`or` precedence: an INT column stays INT on a FLOAT literal. The model keeps that quirk and proves what it causes.
- **Table accumulation.** Class `Table` is a Dafny class with the table's fields. Its methods are proved against functions on the table's value `TableState`. A Python dict keeps insertion order, so it is modelled as a map together with its key order.
- **Relation finalisation.** `Database.flush` has three policies:
  - duplicity (`-b`);
  - the `--etc` threshold;
  - numbered keys by default.

  It is specified by functions in `Schema` and performed by loops in `Databases`. Lemmas give the exact keys each policy adds and the collisions it refuses, for one child tag and for the whole flush, and the relation graph flush leaves.
- **The cardinality report.** `print_tablerel` and `print_xmlrel` walk the relation graph depth first over a shared route. The model threads the route, the `printed` flag and the output lines through recursive methods. They are proved to terminate, to name each table at most once, and to write the only 1:1 line back to the described table.
- **Validation.** `is_subset` and the column order of `print_ddl`.
- **The tree walk and the command line.** The tree walk is `xtd_database` over an element tree given as a value. The command line is the option loop of `check_opt`, after getopt has done its work.

`Database` is a class whose fields are the entries, their insertion order, the options and the relation graph. Python tables are objects, but here each table is held as a value (`TableState`) inside the database's map. `Database`'s methods replace that value with what the corresponding `Table` method computes.

Under `-b` (duplicity) the code calls `set_key` on the parent (`xml2ddl.py:126-133`), so the parent receives `<child>_id`.

## Model

| member | source | states |
|---|---|---|
| DataTypes.Join | xml2ddl.py:486-512 | the wider of two types: above both, and one of them |
| DataTypes.Classify | xml2ddl.py:487-498 | the class of a literal is never NTEXT for an attribute and never NVARCHAR for a value; ClassifyExactly states which strings get FLOAT and which get the text types |
| DataTypes.GetDataType | xml2ddl.py:486-512 | the merged type never ranks below the previous type; it is either the previous type or the literal's class; an attribute column only becomes NTEXT if it already was |
| DataTypes.GetDataTypeIsJoin | xml2ddl.py:500-512 | the merge is the lattice join of the previous type and the literal's class, except that INT merged with a FLOAT literal stays INT |
| DataTypes.GetDataTypeOrderMatters | xml2ddl.py:500-506 | because of that exception the result depends on sample order: "1.5" then "2" gives FLOAT, "2" then "1.5" gives INT |
| DataTypes.GetDataTypeIdempotent | xml2ddl.py:486-512 | merging the same literal a second time changes nothing |
| DataTypes.IntColumnIgnoresFloat | xml2ddl.py:502-503 | an INT column that sees a FLOAT literal stays INT, and so cannot hold that literal's type |
| DataTypes.DataTypeUsable | xml2ddl.py:518-554 | usable exactly when the target is unset (None) or NTEXT, or the candidate is set and ranks no higher than the target |
| DataTypes.DataTypeUsableTransitive | xml2ddl.py:518-554 | usability is transitive |
| DataTypes.MergedColumnHoldsPrevious | xml2ddl.py:486-554 | a merged column can still hold its previous type |
| DataTypes.IntLiteralIsFloatLiteral | xml2ddl.py:491-494 | every all-digit string also matches the float pattern, so the INT test has to come first |
| DataTypes.FloatGrammarAccepted | xml2ddl.py:493 | the float recogniser accepts every optional sign, then digits, or digits, a point and digits, then an optional exponent |
| DataTypes.ClassifyNumeral | xml2ddl.py:487-498 | a decimal numeral, or a signed or exponent integer, is classified FLOAT |
| DataTypes.FloatLiteralIsNumeral | xml2ddl.py:493 | the float recogniser accepts nothing but such numerals: no "1.", no ".", no bare sign or exponent |
| DataTypes.FloatLiteralIffNumeral | xml2ddl.py:493 | a string matches the float pattern exactly when it is a numeral of that grammar |
| DataTypes.ClassifyExactly | xml2ddl.py:487-498 | FLOAT exactly for the numerals that are neither BIT nor INT literals; NVARCHAR (attribute) or NTEXT (value) exactly for the non-empty strings that are none of BIT, INT or a numeral |
| DataTypes.FloatRunEndsInDigit | xml2ddl.py:493 | every string the float pattern accepts ends in a digit |
| Text.ParseIntOfNatToString | xml2ddl.py:680 | int() inverts str() on naturals |
| Text.ParseIntOfNegative | xml2ddl.py:680 | int() reads a minus sign followed by a numeral as the negated number |
| Text.ParseIntIgnoresSpace | xml2ddl.py:680 | int() ignores whitespace around the number |
| Tables.EmptyTable | xml2ddl.py:396-402 | a new table keeps the table invariants |
| Tables.ValueSlotIsLatestClass | xml2ddl.py:477-479 | update_value stores the class of the latest text alone (the "value" column it reads never exists), so the slot is never widened |
| Tables.WithAttribute | xml2ddl.py:456-464 | update_attribute fails, with a name collision, exactly when the column is not "value" but is the primary key's name prk_<table>_id |
| Tables.WithAttributeProperties | xml2ddl.py:456-464 | a successful update_attribute keeps the invariants; the columns grow by the attribute, never by "value"; no column narrows; a new column is never NTEXT; the counts and keys do not change |
| Tables.WithCounts | xml2ddl.py:444-446 | update_relations changes only the child counts, and it keeps the invariants |
| Tables.WithCountsTags | xml2ddl.py:444-446 | afterwards the counted tags are the old ones plus those seen |
| Tables.WithCountsGrows | xml2ddl.py:444-446 | a stored count never decreases |
| Tables.WithCountsBound | xml2ddl.py:444-446 | every stored count is at least every count observed for its tag |
| Tables.WithCountsAttained | xml2ddl.py:444-446 | every stored count is the old count or one observed, so it is the maximum |
| Tables.CountsKeepMaximumExample | xml2ddl.py:444-446 | counts 2, 5 and 1 for one tag leave 5 |
| Tables.WithKey | xml2ddl.py:466-471 | set_key fails exactly when <ref>_id is an attribute column; otherwise only the keys change, and they become the old keys plus <ref>_id |
| Tables.Table.constructor | xml2ddl.py:396-402 | a new table is empty and valid |
| Tables.Table.UpdateRelations | xml2ddl.py:444-446 | the loop leaves the table equal to WithCounts of the old table |
| Tables.Table.UpdateValue | xml2ddl.py:477-479 | the table becomes WithValue of the old table |
| Tables.Table.UpdateAttribute | xml2ddl.py:456-464 | the result and new state are those of WithAttribute; on error nothing changes |
| Tables.Table.SetKey | xml2ddl.py:466-471 | the result and new state are those of WithKey; on error nothing changes |
| Schema.AddNumberedKeys | xml2ddl.py:154-159 | the numbered-key loop changes only the keys, keeps the invariants and fails only with a name collision |
| Schema.DefaultKeys | xml2ddl.py:147-159 | the default policy changes only the keys and fails only with a name collision |
| Schema.FlushPair | xml2ddl.py:125-161 | one child tag: success changes only foreign keys, keeps one graph node per table and keeps the invariants |
| Schema.EmptyGraph | xml2ddl.py:119-122 | flush starts with one empty relation set per table |
| FlushProperties.AddNumberedKeysFails | xml2ddl.py:154-159 | the numbered loop fails exactly when some name<k>, or its key name<k>_id, is an attribute column |
| FlushProperties.AddNumberedKeysAdds | xml2ddl.py:154-159 | on success it adds exactly name1_id .. name<count>_id |
| FlushProperties.FlushPairDuplicity | xml2ddl.py:126-133 | with -b, the pair fails exactly when <child> or <child>_id is a column of the parent; otherwise the parent gains exactly <child>_id and the edge parent -> child |
| FlushProperties.FlushPairInverted | xml2ddl.py:135-145 | past the etc limit, a child that is not an entry raises KeyError; it fails exactly when <child> or <parent>_id is a column of the child; otherwise the child gains exactly <parent>_id and the edge child -> parent |
| FlushProperties.FlushPairSingle | xml2ddl.py:147-153 | by default, with one child, the pair fails exactly on <child> or <child>_id as a column; otherwise the parent gains exactly <child>_id and the edge parent -> child |
| FlushProperties.FlushPairNumbered | xml2ddl.py:147-161 | by default, with a count other than 1, the pair fails exactly when a numbered name or its key is a column; otherwise the parent gains exactly <child>1_id .. <child><count>_id and the edge parent -> child |
| FlushProperties.FlushPairShape | xml2ddl.py:125-161 | a successful step rekeys only the holder, and adds only the edge holder -> target |
| FlushProperties.FlushFromKeeps | xml2ddl.py:118-161 | a successful flush changes only foreign keys, keeps one graph node per table and keeps the invariants |
| FlushProperties.FlushFromSound | xml2ddl.py:118-161 | every edge flush adds is explained by a child count |
| FlushProperties.FlushFromComplete | xml2ddl.py:118-161 | every child count of every table leaves its edge, and no edge is lost |
| FlushProperties.FlushedGraph | xml2ddl.py:118-161 | after flush, x -> y is an edge exactly when y is a child of x not past the etc limit, or x is a child of y past it |
| FlushProperties.FlushedGraphClosed | xml2ddl.py:118-161 | when every child tag is an entry (as the tree walk ensures), every edge joins two entries |
| FlushProperties.FlushedGraphIsChildren | xml2ddl.py:118-161 | without the etc policy, each table references exactly its counted child tags |
| FlushOutcome.FlushPairAdds | xml2ddl.py:125-161 | a successful pair step adds to its holder exactly <parent>_id past the etc limit, and otherwise exactly the child's keys |
| FlushOutcome.FlushPairFails | xml2ddl.py:125-161 | a pair step raises exactly when the pair clashes on the columns of the original tables, or past the etc limit the child is not an entry |
| FlushOutcome.FlushPairKeys | xml2ddl.py:125-161 | a successful pair step keeps every key justified by a child count, loses no key and puts the pair's own keys in place |
| FlushOutcome.FlushFromKeysSound | xml2ddl.py:118-161 | every key flush adds is justified by a child count |
| FlushOutcome.FlushFromKeysComplete | xml2ddl.py:118-161 | every child count of every table leaves its keys on their holder, and no key is lost |
| FlushOutcome.FlushFromFails | xml2ddl.py:118-161 | flush from a table on raises exactly when some child tag of a remaining table clashes |
| FlushOutcome.FlushedKeys | xml2ddl.py:118-161 | after flush, table x holds key k exactly when x had it, or a child c kept on x gives it (<c>_id, or <c>1_id .. <c>n_id by default for n children other than one), or x is a child of y past the etc limit and k is <y>_id |
| FlushOutcome.FlushedFails | xml2ddl.py:118-161 | flush raises exactly when some (table, child tag) pair clashes: a child name or its key is a column of the table that would hold the key, or past the etc limit the child is not an entry |
| Ddl.KeyColumns | xml2ddl.py:172-174 | one INT column per foreign key, in key order |
| Ddl.AttributeColumns | xml2ddl.py:175-177 | one column per attribute, with its type, in insertion order |
| Ddl.DdlColumnsContents | xml2ddl.py:166-183 | the column list starts with prk_<t>_id INT PRIMARY KEY, then holds every key as INT and every attribute with its type, plus the value column when a text was seen |
| Ddl.DdlValueColumn | xml2ddl.py:178-181 | a value column appears, last and with the value type, exactly when a text was seen |
| Ddl.DdlColumnsDistinct | xml2ddl.py:166-183 | when the keys stay apart from the columns, the column names are distinct exactly when no foreign key is named like the primary key |
| Ddl.FlushedKeysApart | xml2ddl.py:118-161 | flush keeps every foreign key apart from the attribute columns and from "value" |
| Ddl.PrimaryKeyClash | xml2ddl.py:147-153 | nothing stops a child tagged prk_<t> from giving table t the key prk_<t>_id, so CREATE TABLE names that column twice |
| Validation.SubsetTransitive | xml2ddl.py:370-388 | is_subset is transitive |
| Validation.SubsetIgnoresExtraTables | xml2ddl.py:370-388 | the receiver's extra tables do not matter |
| Validation.SubsetIgnoresKeys | xml2ddl.py:370-388 | foreign keys and child counts do not matter |
| Validation.AttributeKeepsSubset | xml2ddl.py:370-388 | more attribute samples in the receiver never make it reject a database it accepted |
| Validation.ValueCanBreakSubset | xml2ddl.py:477-479 | one more text in the receiver can make it reject a database it accepted, because the value slot is not widened |
| Report.Kind | xml2ddl.py:218-295 | the relation written is never 1:1; a reference both ways is N:M; otherwise N:1 when following a key, 1:N when following a referrer |
| Report.PrintTablerel | xml2ddl.py:204-321 | a call either changes nothing or writes the `to` table's line with the right cardinality and puts it on the route; the route only grows with new tables, so the recursion ends; each table on the route is named once, and a line is 1:1 exactly when it names the described table; every table it puts on the route has its neighbours on it |
| Report.Visit | xml2ddl.py:228-321 | a firing call writes its line, puts the table on the route and then walks all of that table's neighbours |
| Report.Explore | xml2ddl.py:230-251 | the two loops after a table is put on the route leave all of its neighbours on the route |
| Report.Step | xml2ddl.py:232-239 | the body both loops share: a table linked to the current one ends up on the route, with the 1:1 line only for the described table and only once |
| Report.FollowKeys | xml2ddl.py:231-239 | every table the current one references ends up on the route |
| Report.FollowReferrers | xml2ddl.py:241-251 | every entry that references the current one ends up on the route |
| Report.TableReport | xml2ddl.py:342-365 | one block of print_xmlrel names no table twice; every line names an entry; a line is 1:1 exactly when it names the described table, so there is at most one; every neighbour is named; the named tables are closed under neighbours |
| Report.ReachableListed | xml2ddl.py:342-365 | so every table connected to the described table is named in its block |
| Databases.Registered | xml2ddl.py:54-71 | a dict's key order after a lookup-or-create: the name is added at the end if new |
| Databases.FlushPairStep | xml2ddl.py:125-161 | the imperative loop body, with an early return on each raise and the numbered keys by a loop, computes FlushPair |
| Databases.NumberedKeys | xml2ddl.py:154-159 | the numbered-key loop computes AddNumberedKeys |
| Databases.FlushTable | xml2ddl.py:125-161 | the inner loop over one table's child tags computes what the specification of flush computes from that table on |
| Databases.FlushTables | xml2ddl.py:118-161 | the whole of flush's loops computes Flushed |
| Databases.FlushedKeeps | xml2ddl.py:118-161 | a successful flush keeps the table names and the invariants |
| Databases.Relations | xml2ddl.py:342-365 | print_xmlrel writes one block per entry in entry order, and each block describes its table as TableReport states |
| Databases.Fits | xml2ddl.py:377-385 | the column loop of is_subset, then the value test, answers TableFits |
| Databases.Subset | xml2ddl.py:370-388 | the table loop of is_subset answers 1 exactly when every table of db exists in the receiver and fits |
| Databases.Database.constructor | xml2ddl.py:43-48 | a new database is empty, with the given options |
| Databases.Database.UpdateRelations | xml2ddl.py:54-58 | the named table (created if missing) gets WithCounts; nothing else changes |
| Databases.Database.UpdateValue | xml2ddl.py:64-68 | the named table (created if missing) gets WithValue; nothing else changes |
| Databases.Database.UpdateAttribute | xml2ddl.py:108-113 | with -a nothing changes; otherwise the table is created if missing and gets WithAttribute, and on a collision the created table stays |
| Databases.Database.Flush | xml2ddl.py:118-161 | the result is Flushed on the old tables; on success the tables and graph are its result |
| Databases.Database.PrintDdl | xml2ddl.py:166-183 | flush, then one table per entry in entry order, with its columns in the order pk, keys, attributes, value |
| Databases.Database.PrintXmlrel | xml2ddl.py:342-365 | flush, then one block per entry in entry order, each describing its table |
| Databases.Database.IsSubset | xml2ddl.py:370-388 | answers exactly SubsetOf of the two databases' tables |
| Walker.Tags | xml2ddl.py:573-574 | the children's tags, lower-cased, in document order |
| Walker.TallyMeaning | xml2ddl.py:562-574 | info.items() lists every child tag exactly once, with the number of children that carry it |
| Walker.XtdDatabase | xml2ddl.py:561-579 | the walk of one element does exactly what Fed states: attributes, then non-blank text, then each child in order, then the child counts; a collision ends it with that error |
| Walker.FeedAttributes | xml2ddl.py:565-566 | the attribute loop does what FedAttrs states |
| Walker.FeedChildren | xml2ddl.py:573-577 | the child loop does what FedChildren states and returns info.items() |
| Walker.Load | xml2ddl.py:593-594 | the walk over the root's children, the root itself not being a table |
| Walker.FedAttrsFacts | xml2ddl.py:565-566 | the attribute loop fails only with a collision, and never with -a; otherwise it only adds entries |
| Walker.FedFacts | xml2ddl.py:561-579 | the walk fails only with a collision, and never with -a; on success entries and order only grow, the tag is an entry, and every child count still names an entry |
| Walker.FedChildrenFacts | xml2ddl.py:573-577 | the same for a sequence of elements, and every one of their tags is an entry |
| Walker.RelatedFacts | xml2ddl.py:579 | update_relations with entry tags keeps every child count naming an entry |
| Walker.FedCountsChildren | xml2ddl.py:561-579 | afterwards the element's table counts each child tag at least as often as the element has such children |
| Options.Key | xml2ddl.py:657-709 | the options check_opt knows have a key; an unknown option has none |
| Options.CheckOpt | xml2ddl.py:653-714 | the result is Ok exactly when the command line is accepted: no stray arguments, only known options, none twice, a non-negative integer --etc, not both -b and --etc, and --help alone. On success the dict holds each option under its key. Every error is explained by the command line |
| Options.Store | xml2ddl.py:657-709 | one turn of the loop stores the pair under its key, or raises an error the pairs explain |
| Options.StoreEtc | xml2ddl.py:678-691 | --etc is refused when int() fails, when it is negative, or after -b |
| Options.Rejects | xml2ddl.py:653-714 | every error check_opt raises means the command line is not accepted |

## Left out

- XML parsing (ElementTree and expat) is not modelled. The element tree is a value (`Walker.Node`), and an element without text has text "".
- getopt tokenising, file opening and the exit code mapping in `main` are not modelled. They are I/O and command line plumbing. `print_help` and the header comment are left out for the same reason.
- Options.CheckOpt: options arrive already named by the datatype `Opt`, since getopt itself rejects unknown options. The unknown-option branch is kept as `Other`.
- The output text is not modelled. `fout.write` is modelled as sequences of column lists and relation lines, without formatting, indentation or the `\>` in `print_relation`.
- Regex corner cases are left out. The recognisers work over ASCII: `\d` is 0-9, and `$` does not match before a trailing newline. `str.lower()` and `str.isspace()` are also ASCII only.
- Text.ParseInt: Python's int() also accepts underscores between digits and non-ASCII digits. The model refuses both.
- Databases.Database: tables are held as values, not as shared `Table` objects. Aliasing of a table through several references, as `db.entries()` would allow, is not modelled.
- Databases.Database.Flush: after a name collision or a missing entry, the tables are not stated. The program exits (code 90). The same holds for Walker.XtdDatabase when a collision stops the walk.
- Python set and dict iteration order is not fixed by the model. Dict order is kept as a sequence. The order of a `__relations` set is abstracted (`:|`), so Report.PrintTablerel states at-most-once and coverage properties, not the exact order of the lines.
- Report.PrintTablerel: it requires the calling protocol of `print_xmlrel`. The 1:1 target is reached only after `printed` is set, or via a recursive call. A 1:N call from the described table reaches a table already on the route when the described table also references that table (an edge both ways). This rules out the silent branch where nothing is written but the route grows.
- `del_relation`, `set_relation`, `__refs` and the getters are not modelled. Nothing in the core calls them.
- The "create if missing" lines in flush's etc branch are dead code: the lookup just before them raises KeyError first.
- The `--isvalid` path is covered only by `Database.IsSubset` and `Walker.Load`. The second parse and the XTDNotValid exit are I/O.
- Integers are unbounded, as in Python.
