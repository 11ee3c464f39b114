/**
 * The Database class: tables by name in insertion order, the options it
 * was built with, and the relation graph flush computes. Each table is
 * held as the value of its fields (TableState); the methods replace a
 * table's value by what the corresponding Table method computes.
 */
module Databases {
  import opened Wrappers
  import opened Text
  import opened DataTypes
  import opened Tables
  import opened Schema
  import opened FlushProperties
  import opened Report
  import opened Ddl
  import opened Validation

  /** The entry order after `name` is looked up: a new name is appended, as a dict does. */
  function Registered(order: seq<string>, name: string): (r: seq<string>)
    ensures name in r && order <= r
    ensures forall n :: n in r <==> n in order || n == name
    ensures Distinct(order) ==> Distinct(r)
  {
    if name in order then order else order + [name]
  }

  /** The table update_* works on: the stored one, or a new empty one. */
  lemma Fetched(tables: map<string, TableState>, name: string)
    requires TablesWellFormed(tables)
    ensures WellFormed(Get(tables, name, EmptyTable(name))) && Get(tables, name, EmptyTable(name)).name == name
  {
  }

  /**
   * Storing a well-formed table under its own name, found or created from
   * the empty table, keeps every table well formed and the order in step.
   */
  lemma Stored(tables: map<string, TableState>, order: seq<string>, name: string, u: TableState)
    requires TablesWellFormed(tables) && Distinct(order) && (forall n :: n in tables <==> n in order)
    requires WellFormed(u) && u.name == name
    ensures TablesWellFormed(tables[name := u])
    ensures Distinct(Registered(order, name))
    ensures forall n :: n in tables[name := u] <==> n in Registered(order, name)
  {
  }

  /**
   * One iteration of flush's inner loop, child tag `name` of table `tn`
   * counted `count` times, in the imperative form of the loop body: early
   * returns on each raise, and the numbered keys by a loop. Schema.FlushPair
   * is its specification; the FlushPair lemmas say what that computes.
   */
  method FlushPairStep(s: DbState, cfg: Config, tn: string, name: string, count: nat) returns (r: Result<DbState, Fault>)
    requires tn in s.tables && Shaped(s) && WellFormed(s.tables[tn])
    ensures r == FlushPair(s, cfg, tn, name, count)
  {
    var table := s.tables[tn];
    var holder, target := tn, name;
    var u := table;
    if cfg.duplicity {
      // the child's key goes on this table
      if name in table.columns {
        return Err(NameError);
      }
      var keyed := WithKey(table, name);
      if keyed.Err? {
        return Err(keyed.error);
      }
      u := keyed.value;
    } else if cfg.etc != -1 && count > cfg.etc {
      // too many children: the child's table gets this table's key
      if name !in s.tables {
        return Err(KeyError(name));
      }
      if name in s.tables[name].columns {
        return Err(NameError);
      }
      var keyed := WithKey(s.tables[name], tn);
      if keyed.Err? {
        return Err(keyed.error);
      }
      holder, target, u := name, tn, keyed.value;
    } else if count == 1 {
      if name in table.columns {
        return Err(NameError);
      }
      var keyed := WithKey(table, name);
      if keyed.Err? {
        return Err(keyed.error);
      }
      u := keyed.value;
    } else {
      var keyed := NumberedKeys(table, name, count);
      if keyed.Err? {
        return Err(keyed.error);
      }
      u := keyed.value;
    }
    r := Ok(Keyed(s, holder, u, target));
  }

  /** One numbered key per child: name1_id, name2_id, ... */
  method NumberedKeys(table: TableState, name: string, count: nat) returns (r: Result<TableState, Fault>)
    requires WellFormed(table)
    ensures r == AddNumberedKeys(table, name, 0, count)
  {
    var u := table;
    for num := 0 to count
      invariant WellFormed(u) && u == table.(keys := u.keys)
      invariant AddNumberedKeys(table, name, 0, count) == AddNumberedKeys(u, name, num, count)
    {
      if Numbered(name, num + 1) in u.columns {
        return Err(NameError);
      }
      var keyed := WithKey(u, Numbered(name, num + 1));
      if keyed.Err? {
        return Err(keyed.error);
      }
      u := keyed.value;
    }
    r := Ok(u);
  }

  /**
   * flush's inner loop for the table `tn`: every child tag in insertion
   * order goes through FlushPairStep. The result is where flush goes on
   * with the tables `rest`, or the error that ends it.
   */
  method FlushTable(s0: DbState, cfg: Config, tn: string, rest: seq<string>) returns (r: Result<DbState, Fault>)
    requires Shaped(s0) && TablesWellFormed(s0.tables) && tn in s0.tables && AllTables(s0, rest)
    ensures var spec := FlushChildren(s0, cfg, tn, s0.tables[tn].countOrder, rest);
            && (r.Err? ==> spec == Err(r.error))
            && (r.Ok? ==> Shaped(r.value) && TablesWellFormed(r.value.tables) && SameTables(s0.tables, r.value.tables)
                          && AllTables(r.value, rest) && spec == FlushFrom(r.value, cfg, rest))
  {
    var s := s0;
    var names := s.tables[tn].countOrder;
    var counts := s.tables[tn].counts;
    Counted(s, tn, names, 0);
    for j := 0 to |names|
      invariant Shaped(s) && TablesWellFormed(s.tables) && SameTables(s0.tables, s.tables)
      invariant s.tables[tn].countOrder == names && s.tables[tn].counts == counts
      invariant AllTables(s, rest) && AllCounted(s, tn, names[j..])
      invariant FlushChildren(s0, cfg, tn, names, rest) == FlushChildren(s, cfg, tn, names[j..], rest)
    {
      FlushChildrenStep(s, cfg, tn, names[j..], rest);
      var next := FlushPairStep(s, cfg, tn, names[j], counts[names[j]]);
      if next.Err? {
        return Err(next.error);
      }
      SameTablesTransitive(s0.tables, s.tables, next.value.tables);
      s := next.value;
      Counted(s, tn, names, j + 1);
    }
    return Ok(s);
  }

  /**
   * flush's outer loop: the relation graph starts with one empty set per
   * table; then every table in entry order goes through FlushTable.
   */
  method FlushTables(tables: map<string, TableState>, order: seq<string>, cfg: Config) returns (r: Result<DbState, Fault>)
    requires TablesWellFormed(tables) && forall i :: 0 <= i < |order| ==> order[i] in tables
    ensures r == Flushed(tables, order, cfg)
  {
    var s := DbState(tables, map n | n in tables :: {});
    assert s.graph == EmptyGraph(tables);
    Suffixes(s, order, 0);
    for i := 0 to |order|
      invariant Shaped(s) && TablesWellFormed(s.tables) && SameTables(tables, s.tables)
      invariant AllTables(s, order[i..])
      invariant Flushed(tables, order, cfg) == FlushFrom(s, cfg, order[i..])
    {
      assert order[i..][1..] == order[i + 1..];
      Suffixes(s, order, i + 1);
      var next := FlushTable(s, cfg, order[i], order[i + 1..]);
      if next.Err? {
        return Err(next.error);
      }
      SameTablesTransitive(tables, s.tables, next.value.tables);
      s := next.value;
    }
    return Ok(s);
  }

  /** Every suffix of the entry order names tables. */
  lemma Suffixes(s: DbState, order: seq<string>, i: nat)
    requires i <= |order|
    requires forall k :: 0 <= k < |order| ==> order[k] in s.tables
    ensures AllTables(s, order[i..])
  {
    assert forall k :: 0 <= k < |order[i..]| ==> order[i..][k] == order[i + k];
  }

  /** Every suffix of a table's child tags names counted children. */
  lemma Counted(s: DbState, t: string, names: seq<string>, j: nat)
    requires t in s.tables && j <= |names| && names == s.tables[t].countOrder
    requires WellFormed(s.tables[t])
    ensures AllCounted(s, t, names[j..])
  {
    assert forall k :: 0 <= k < |names[j..]| ==> names[j..][k] == names[j + k];
  }

  /** print_xmlrel's loop over the tables: one block per table, in entry order. */
  method Relations(g: Graph, names: seq<string>) returns (blocks: seq<(string, seq<Line>)>)
    requires GraphOk(g) && Listed(names, g)
    ensures |blocks| == |names|
    ensures forall k :: 0 <= k < |names| ==> blocks[k].0 == names[k] && Describes(g, names[k], blocks[k].1)
  {
    blocks := [];
    for i := 0 to |names|
      invariant |blocks| == i
      invariant forall k :: 0 <= k < i ==> blocks[k].0 == names[k] && Describes(g, names[k], blocks[k].1)
    {
      var out := TableReport(g, names, names[i]);
      blocks := blocks + [(names[i], out)];
    }
  }

  /** is_subset's loop over the columns of one table of db, in insertion order, then its value. */
  method Fits(mine: TableState, theirs: TableState) returns (r: bool)
    requires WellFormed(theirs)
    ensures r <==> TableFits(mine, theirs)
  {
    for j := 0 to |theirs.columnOrder|
      invariant forall k :: 0 <= k < j ==>
                  theirs.columnOrder[k] in mine.columns &&
                  DataTypeUsable(Some(mine.columns[theirs.columnOrder[k]]), Some(theirs.columns[theirs.columnOrder[k]]))
    {
      var column := theirs.columnOrder[j];
      if column !in mine.columns {
        return false;
      }
      if !DataTypeUsable(Some(mine.columns[column]), Some(theirs.columns[column])) {
        return false;
      }
    }
    return DataTypeUsable(mine.value, theirs.value);
  }

  /** is_subset's loop over the tables of db, in entry order `theirOrder`. */
  method Subset(mine: map<string, TableState>, theirs: map<string, TableState>, theirOrder: seq<string>) returns (r: bool)
    requires TablesWellFormed(theirs) && forall n :: n in theirs <==> n in theirOrder
    ensures r <==> SubsetOf(mine, theirs)
  {
    for i := 0 to |theirOrder|
      invariant forall k :: 0 <= k < i ==> theirOrder[k] in mine && TableFits(mine[theirOrder[k]], theirs[theirOrder[k]])
    {
      var tn := theirOrder[i];
      if tn !in mine {
        return false;
      }
      var fits := Fits(mine[tn], theirs[tn]);
      if !fits {
        return false;
      }
    }
    return true;
  }

  /** A successful flush keeps the tables' names and well-formedness. */
  lemma FlushedKeeps(tables: map<string, TableState>, order: seq<string>, cfg: Config)
    requires TablesWellFormed(tables) && forall i :: 0 <= i < |order| ==> order[i] in tables
    ensures var r := Flushed(tables, order, cfg);
            r.Ok? ==> r.value.tables.Keys == tables.Keys && TablesWellFormed(r.value.tables)
  {
    FlushFromKeeps(DbState(tables, EmptyGraph(tables)), cfg, order);
  }

  class Database {
    const cfg: Config
    var tables: map<string, TableState>   // __entries, table name -> the table's fields
    var order: seq<string>                // the insertion order of __entries
    var relations: Graph                  // __relations

    /** Every table is well formed and stored under its own name; `order` lists the names once each. */
    ghost predicate Valid()
      reads this
    {
      && TablesWellFormed(tables)
      && Distinct(order) && (forall n :: n in tables <==> n in order)
    }

    constructor (etc: int, duplicity: bool, noColumns: bool)
      ensures Valid() && cfg == Config(etc, duplicity, noColumns)
      ensures tables == map[] && order == [] && relations == map[]
    {
      cfg := Config(etc, duplicity, noColumns);
      tables, order, relations := map[], [], map[];
    }

    /** update_relations: create the table if missing, then merge the child counts. */
    method UpdateRelations(name: string, items: seq<(string, nat)>)
      requires Valid()
      modifies this
      ensures Valid() && relations == old(relations) && order == Registered(old(order), name)
      ensures tables == old(tables)[name := WithCounts(Get(old(tables), name, EmptyTable(name)), items)]
    {
      var t := Get(tables, name, EmptyTable(name));
      Fetched(tables, name);
      Stored(tables, order, name, WithCounts(t, items));
      order := Registered(order, name);
      tables := tables[name := WithCounts(t, items)];
    }

    /** update_value: create the table if missing, then merge the element's text. */
    method UpdateValue(name: string, data: string)
      requires Valid()
      modifies this
      ensures Valid() && relations == old(relations) && order == Registered(old(order), name)
      ensures tables == old(tables)[name := WithValue(Get(old(tables), name, EmptyTable(name)), data)]
    {
      var t := Get(tables, name, EmptyTable(name));
      Fetched(tables, name);
      ValueSlotIsLatestClass(t, data);
      Stored(tables, order, name, WithValue(t, data));
      order := Registered(order, name);
      tables := tables[name := WithValue(t, data)];
    }

    /**
     * update_attribute: nothing at all with no_columns (-a); otherwise the
     * table is created if missing and then the attribute merged, which may
     * raise a name collision after the table was created.
     */
    method UpdateAttribute(name: string, attribute: string, data: string) returns (r: Result<(), Fault>)
      requires Valid()
      modifies this
      ensures Valid() && relations == old(relations)
      ensures cfg.noColumns ==> r == Ok(()) && tables == old(tables) && order == old(order)
      ensures !cfg.noColumns ==>
                var base := Get(old(tables), name, EmptyTable(name));
                var spec := WithAttribute(base, attribute, data);
                && order == Registered(old(order), name)
                && (r.Ok? <==> spec.Ok?)
                && (spec.Ok? ==> tables == old(tables)[name := spec.value])
                && (spec.Err? ==> r.error == spec.error && tables == old(tables)[name := base])
    {
      if cfg.noColumns {
        return Ok(());
      }
      var t := Get(tables, name, EmptyTable(name));
      Fetched(tables, name);
      var merged := WithAttribute(t, attribute, data);
      var u := t;
      if merged.Ok? {
        WithAttributeProperties(t, attribute, data);
        u := merged.value;
        r := Ok(());
      } else {
        r := Err(merged.error);
      }
      Stored(tables, order, name, u);
      order := Registered(order, name);
      tables := tables[name := u];
    }

    /**
     * flush: clear the relation graph, then apply the policy to every table
     * and child tag. The first name collision or missing entry ends it, and
     * the program then exits, so the tables it leaves behind are not modelled.
     */
    method Flush() returns (r: Result<(), Fault>)
      requires Valid()
      modifies this
      ensures Valid() && order == old(order) && tables.Keys == old(tables).Keys
      ensures var spec := Flushed(old(tables), old(order), cfg);
              && (r.Ok? <==> spec.Ok?)
              && (spec.Ok? ==> tables == spec.value.tables && relations == spec.value.graph)
              && (spec.Err? ==> r.error == spec.error)
    {
      var flushed := FlushTables(tables, order, cfg);
      if flushed.Err? {
        return Err(flushed.error);
      }
      FlushedKeeps(tables, order, cfg);
      tables, relations := flushed.value.tables, flushed.value.graph;
      r := Ok(());
    }

    /**
     * print_ddl: flush, then one CREATE TABLE per table in entry order,
     * with the columns DdlColumns lists.
     */
    method PrintDdl() returns (r: Result<seq<(string, seq<Column>)>, Fault>)
      requires Valid()
      modifies this
      ensures Valid() && order == old(order)
      ensures var spec := Flushed(old(tables), old(order), cfg);
              && (r.Ok? <==> spec.Ok?)
              && (spec.Err? ==> r.error == spec.error)
              && (spec.Ok? ==> tables == spec.value.tables && relations == spec.value.graph)
              && (r.Ok? ==> |r.value| == |order| &&
                            forall i :: 0 <= i < |order| ==> r.value[i] == (order[i], DdlColumns(tables[order[i]])))
    {
      var flushed := Flush();
      if flushed.Err? {
        return Err(flushed.error);
      }
      var created: seq<(string, seq<Column>)> := [];
      for i := 0 to |order|
        invariant |created| == i
        invariant forall k :: 0 <= k < i ==> created[k] == (order[k], DdlColumns(tables[order[k]]))
      {
        var tn := order[i];
        created := created + [(tn, DdlColumns(tables[tn]))];
      }
      return Ok(created);
    }

    /**
     * print_xmlrel: flush, then for every table in entry order the block
     * TableReport computes over the relation graph. The tree walk makes
     * every child tag an entry, which keeps every lookup of the graph
     * inside it.
     */
    method PrintXmlrel() returns (r: Result<seq<(string, seq<Line>)>, Fault>)
      requires Valid() && ChildrenAreTables(tables)
      modifies this
      ensures Valid() && order == old(order)
      ensures var spec := Flushed(old(tables), old(order), cfg);
              && (r.Ok? <==> spec.Ok?)
              && (spec.Err? ==> r.error == spec.error)
              && (spec.Ok? ==> tables == spec.value.tables && relations == spec.value.graph)
              && (r.Ok? ==> |r.value| == |order| &&
                            forall i :: 0 <= i < |order| ==>
                              r.value[i].0 == order[i] && Describes(relations, order[i], r.value[i].1))
    {
      FlushedGraphClosed(tables, order, cfg);
      FlushedGraph(tables, order, cfg);
      var flushed := Flush();
      if flushed.Err? {
        return Err(flushed.error);
      }
      assert GraphOk(relations) && Listed(order, relations);
      var blocks := Relations(relations, order);
      return Ok(blocks);
    }

    /** is_subset(db): does every document db accepts fit this schema? */
    method IsSubset(db: Database) returns (r: bool)
      requires Valid() && db.Valid()
      ensures r <==> SubsetOf(tables, db.tables)
    {
      r := Subset(tables, db.tables, db.order);
    }
  }
}
