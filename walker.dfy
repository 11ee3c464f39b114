/**
 * xtd_database: the recursive walk of an XML element that feeds a
 * Database. The element tree is given as a value (the XML parser is not
 * part of this model); what the walk does to the database's tables and
 * entry order is stated by the functions Fed and FedChildren, and the
 * method XtdDatabase is proved against them.
 */
module Walker {
  import opened Wrappers
  import opened Text
  import opened DataTypes
  import opened Tables
  import opened Schema
  import opened FlushProperties
  import opened Databases

  /** An element: its tag, its attributes in document order, its text ("" when it has none), its children. */
  datatype Node = Node(tag: string, attrs: seq<(string, string)>, text: string, children: seq<Node>)

  /** The part of a Database the walk changes: the tables and their entry order. */
  datatype Entries = Entries(tables: map<string, TableState>, order: seq<string>)

  // ---------------------------------------------------------------------
  // The child tags and their count dict `info`.

  /** The lower-cased tags of the children, in document order. */
  function Tags(children: seq<Node>): (r: seq<string>)
    ensures |r| == |children| && forall i :: 0 <= i < |r| ==> r[i] == Lower(children[i].tag)
  {
    if children == [] then [] else [Lower(children[0].tag)] + Tags(children[1..])
  }

  /** The dict `info` after counting `tags`: each tag's entry goes up by one, from 0 for a new tag. */
  function TallyMap(tags: seq<string>): map<string, nat> {
    if tags == [] then map[]
    else
      var m := TallyMap(tags[..|tags| - 1]);
      var x := tags[|tags| - 1];
      m[x := Get(m, x, 0) + 1]
  }

  /** The key order of that dict: each tag once, in the order of its first occurrence. */
  function FirstSeen(tags: seq<string>): seq<string> {
    if tags == [] then []
    else
      var s := FirstSeen(tags[..|tags| - 1]);
      var x := tags[|tags| - 1];
      if x in s then s else s + [x]
  }

  /** info.items() after counting `tags`. */
  function Tally(tags: seq<string>): seq<(string, nat)> {
    TallyKeys(tags);
    Items(TallyMap(tags), FirstSeen(tags))
  }

  /** The dict's keys, its key order and the tags counted are the same set, the key order without repeats. */
  lemma {:induction false} TallyKeys(tags: seq<string>)
    ensures Distinct(FirstSeen(tags))
    ensures forall k :: k in FirstSeen(tags) <==> k in TallyMap(tags)
    ensures forall k :: k in TallyMap(tags) <==> k in tags
  {
    if tags != [] {
      var init := tags[..|tags| - 1];
      TallyKeys(init);
      assert tags == init + [tags[|tags| - 1]];
    }
  }

  /** The dict counts, for every tag, how many of `tags` are that tag. */
  lemma {:induction false} TallyMapCounts(tags: seq<string>)
    ensures forall k :: k in TallyMap(tags) ==> TallyMap(tags)[k] == multiset(tags)[k]
  {
    if tags != [] {
      var init := tags[..|tags| - 1];
      TallyMapCounts(init);
      TallyKeys(init);
      assert tags == init + [tags[|tags| - 1]];
    }
  }

  /**
   * info.items() lists every child tag exactly once, with the number of
   * children that carry it.
   */
  lemma TallyMeaning(tags: seq<string>)
    ensures forall j :: 0 <= j < |Tally(tags)| ==>
              Tally(tags)[j].0 in tags && Tally(tags)[j].1 == multiset(tags)[Tally(tags)[j].0]
    ensures forall x :: x in tags ==> exists j :: 0 <= j < |Tally(tags)| && Tally(tags)[j].0 == x
    ensures forall i, j :: 0 <= i < j < |Tally(tags)| ==> Tally(tags)[i].0 != Tally(tags)[j].0
  {
    TallyKeys(tags);
    TallyMapCounts(tags);
    var s := FirstSeen(tags);
    forall x | x in tags ensures exists j :: 0 <= j < |Tally(tags)| && Tally(tags)[j].0 == x {
      var j :| 0 <= j < |s| && s[j] == x;
      assert Tally(tags)[j].0 == x;
    }
  }

  /** One more child: how the dict and its key order change. */
  lemma TallyStep(tags: seq<string>, i: nat)
    requires i < |tags|
    ensures TallyMap(tags[..i + 1]) == TallyMap(tags[..i])[tags[i] := Get(TallyMap(tags[..i]), tags[i], 0) + 1]
    ensures FirstSeen(tags[..i + 1]) ==
              if tags[i] in TallyMap(tags[..i]) then FirstSeen(tags[..i]) else FirstSeen(tags[..i]) + [tags[i]]
  {
    assert tags[..i + 1][..i] == tags[..i];
    TallyKeys(tags[..i]);
  }

  /** The items of a dict kept as a map and its key order. */
  function Items(info: map<string, nat>, keys: seq<string>): (r: seq<(string, nat)>)
    requires forall k :: k in keys ==> k in info
    ensures |r| == |keys| && forall j :: 0 <= j < |r| ==> r[j] == (keys[j], info[keys[j]])
  {
    if keys == [] then [] else [(keys[0], info[keys[0]])] + Items(info, keys[1..])
  }

  // ---------------------------------------------------------------------
  // What one call of the Database's update methods does to the entries.

  /** update_attribute (nothing with no_columns; may raise a name collision). */
  function Attribute(e: Entries, cfg: Config, name: string, attribute: string, data: string): Result<Entries, Fault> {
    if cfg.noColumns then Ok(e)
    else match WithAttribute(Get(e.tables, name, EmptyTable(name)), attribute, data)
      case Err(f) => Err(f)
      case Ok(u) => Ok(Entries(e.tables[name := u], Registered(e.order, name)))
  }

  /** update_value. */
  function Valued(e: Entries, name: string, data: string): Entries {
    Entries(e.tables[name := WithValue(Get(e.tables, name, EmptyTable(name)), data)], Registered(e.order, name))
  }

  /** update_value, for text that is neither empty nor only white space. */
  function Texted(e: Entries, name: string, text: string): Entries {
    if text != "" && !IsSpace(text) then Valued(e, name, text) else e
  }

  /** update_relations. */
  function Related(e: Entries, name: string, items: seq<(string, nat)>): Entries {
    Entries(e.tables[name := WithCounts(Get(e.tables, name, EmptyTable(name)), items)], Registered(e.order, name))
  }

  // ---------------------------------------------------------------------
  // The walk.

  /** The loop over the attributes of an element with tag `tag`, from `attrs[0]` on. */
  function FedAttrs(e: Entries, cfg: Config, tag: string, attrs: seq<(string, string)>): Result<Entries, Fault>
    decreases |attrs|
  {
    if attrs == [] then Ok(e)
    else match Attribute(e, cfg, tag, Lower(attrs[0].0), attrs[0].1)
      case Err(f) => Err(f)
      case Ok(e1) => FedAttrs(e1, cfg, tag, attrs[1..])
  }

  /**
   * xtd_database(n, db): the attributes become columns, text that is not
   * blank goes to the value slot, every child is walked in document order,
   * and finally the table records how many children of each tag it had.
   */
  function Fed(e: Entries, cfg: Config, n: Node): Result<Entries, Fault>
    decreases n
  {
    var tag := Lower(n.tag);
    match FedAttrs(e, cfg, tag, n.attrs)
    case Err(f) => Err(f)
    case Ok(e1) =>
      match FedChildren(Texted(e1, tag, n.text), cfg, n.children)
      case Err(f) => Err(f)
      case Ok(e3) => Ok(Related(e3, tag, Tally(Tags(n.children))))
  }

  /** The walk of the elements `cs` one after another. */
  function FedChildren(e: Entries, cfg: Config, cs: seq<Node>): Result<Entries, Fault>
    decreases cs
  {
    if cs == [] then Ok(e)
    else match Fed(e, cfg, cs[0])
      case Err(f) => Err(f)
      case Ok(e1) => FedChildren(e1, cfg, cs[1..])
  }

  /**
   * xtd_database. A name collision ends the walk with the error; the
   * program then exits, so the entries it leaves behind are not stated.
   */
  method XtdDatabase(item: Node, db: Database) returns (r: Result<(), Fault>)
    requires db.Valid()
    modifies db
    ensures db.Valid() && db.relations == old(db.relations)
    ensures var spec := Fed(Entries(old(db.tables), old(db.order)), db.cfg, item);
            && (r.Ok? <==> spec.Ok?)
            && (spec.Ok? ==> spec.value == Entries(db.tables, db.order))
            && (spec.Err? ==> r.error == spec.error)
    decreases item, 1
  {
    var tag := Lower(item.tag);
    r := FeedAttributes(tag, item.attrs, db);
    if r.Err? {
      return;
    }
    if item.text != "" && !IsSpace(item.text) {
      db.UpdateValue(tag, item.text);
    }
    var info := FeedChildren(item, db);
    if info.Err? {
      return Err(info.error);
    }
    db.UpdateRelations(tag, info.value);
  }

  /** xtd_database's loop over the attributes of `item`, whose tag is `tag`. */
  method FeedAttributes(tag: string, attrs: seq<(string, string)>, db: Database) returns (r: Result<(), Fault>)
    requires db.Valid()
    modifies db
    ensures db.Valid() && db.relations == old(db.relations)
    ensures var spec := FedAttrs(Entries(old(db.tables), old(db.order)), db.cfg, tag, attrs);
            && (r.Ok? <==> spec.Ok?)
            && (spec.Ok? ==> spec.value == Entries(db.tables, db.order))
            && (spec.Err? ==> r.error == spec.error)
  {
    ghost var e0 := Entries(db.tables, db.order);
    for i := 0 to |attrs|
      invariant db.Valid() && db.relations == old(db.relations)
      invariant FedAttrs(e0, db.cfg, tag, attrs) == FedAttrs(Entries(db.tables, db.order), db.cfg, tag, attrs[i..])
    {
      assert attrs[i..][1..] == attrs[i + 1..];
      var res := db.UpdateAttribute(tag, Lower(attrs[i].0), attrs[i].1);
      if res.Err? {
        return Err(res.error);
      }
    }
    r := Ok(());
  }

  /**
   * xtd_database's loop over the children of `item`: count each child's
   * tag in `info`, then walk the child. The result is info.items().
   */
  method FeedChildren(item: Node, db: Database) returns (r: Result<seq<(string, nat)>, Fault>)
    requires db.Valid()
    modifies db
    ensures db.Valid() && db.relations == old(db.relations)
    ensures var spec := FedChildren(Entries(old(db.tables), old(db.order)), db.cfg, item.children);
            && (r.Ok? <==> spec.Ok?)
            && (spec.Ok? ==> spec.value == Entries(db.tables, db.order) && r.value == Tally(Tags(item.children)))
            && (spec.Err? ==> r.error == spec.error)
    decreases item, 0
  {
    ghost var e0 := Entries(db.tables, db.order);
    ghost var tags := Tags(item.children);
    var info: map<string, nat> := map[];
    var seen: seq<string> := [];
    for i := 0 to |item.children|
      invariant db.Valid() && db.relations == old(db.relations)
      invariant FedChildren(e0, db.cfg, item.children) == FedChildren(Entries(db.tables, db.order), db.cfg, item.children[i..])
      invariant info == TallyMap(tags[..i]) && seen == FirstSeen(tags[..i])
    {
      info, seen := CountChild(tags, i, info, seen, Lower(item.children[i].tag));
      ChildStep(e0, db.cfg, item.children, i, Entries(db.tables, db.order));
      var res := XtdDatabase(item.children[i], db);
      if res.Err? {
        return Err(res.error);
      }
    }
    assert tags[..|item.children|] == tags;
    TallyKeys(tags);
    r := Ok(Items(info, seen));
  }

  /** Count the i-th child, whose tag is `ct`, in `info`; a new tag goes last in the key order. */
  method CountChild(ghost tags: seq<string>, i: nat, info: map<string, nat>, seen: seq<string>, ct: string)
    returns (info': map<string, nat>, seen': seq<string>)
    requires i < |tags| && ct == tags[i] && info == TallyMap(tags[..i]) && seen == FirstSeen(tags[..i])
    ensures info' == TallyMap(tags[..i + 1]) && seen' == FirstSeen(tags[..i + 1])
  {
    TallyStep(tags, i);
    seen' := if ct in info then seen else seen + [ct];
    info' := info[ct := Get(info, ct, 0) + 1];
  }

  /** The walk of the children goes on from child i, or ends with its error. */
  lemma ChildStep(e0: Entries, cfg: Config, cs: seq<Node>, i: nat, e: Entries)
    requires i < |cs| && FedChildren(e0, cfg, cs) == FedChildren(e, cfg, cs[i..])
    ensures var f := Fed(e, cfg, cs[i]);
            && (f.Err? ==> FedChildren(e0, cfg, cs) == Err(f.error))
            && (f.Ok? ==> FedChildren(e0, cfg, cs) == FedChildren(f.value, cfg, cs[i + 1..]))
  {
    assert cs[i..][1..] == cs[i + 1..];
  }

  /** xtd's loop over the document root's children: the root element itself is not a table. */
  method Load(root: Node, db: Database) returns (r: Result<(), Fault>)
    requires db.Valid()
    modifies db
    ensures db.Valid() && db.relations == old(db.relations)
    ensures var spec := FedChildren(Entries(old(db.tables), old(db.order)), db.cfg, root.children);
            && (r.Ok? <==> spec.Ok?)
            && (spec.Ok? ==> spec.value == Entries(db.tables, db.order))
            && (spec.Err? ==> r.error == spec.error)
  {
    ghost var e0 := Entries(db.tables, db.order);
    for i := 0 to |root.children|
      invariant db.Valid() && db.relations == old(db.relations)
      invariant FedChildren(e0, db.cfg, root.children) == FedChildren(Entries(db.tables, db.order), db.cfg, root.children[i..])
    {
      assert root.children[i..][1..] == root.children[i + 1..];
      var res := XtdDatabase(root.children[i], db);
      if res.Err? {
        return Err(res.error);
      }
    }
    r := Ok(());
  }

  // ---------------------------------------------------------------------
  // What the walk guarantees.

  /**
   * The attribute loop fails only with a name collision, and only when
   * columns are generated; otherwise entries are only added, and every
   * child count still names a table.
   */
  lemma {:induction false} FedAttrsFacts(e: Entries, cfg: Config, tag: string, attrs: seq<(string, string)>)
    ensures var r := FedAttrs(e, cfg, tag, attrs);
            && (r.Err? ==> r.error == NameError && !cfg.noColumns)
            && (r.Ok? ==> e.order <= r.value.order && e.tables.Keys <= r.value.tables.Keys)
            && (r.Ok? && ChildrenAreTables(e.tables) ==> ChildrenAreTables(r.value.tables))
    decreases |attrs|
  {
    if attrs != [] {
      var a := Attribute(e, cfg, tag, Lower(attrs[0].0), attrs[0].1);
      if a.Ok? {
        FedAttrsFacts(a.value, cfg, tag, attrs[1..]);
      }
    }
  }

  /**
   * xtd_database fails only with a name collision, and never with
   * no_columns (-a). On success the entry order only grows, the element's
   * tag is an entry, and every child count still names a table.
   */
  lemma {:induction false} FedFacts(e: Entries, cfg: Config, n: Node)
    ensures var r := Fed(e, cfg, n);
            && (r.Err? ==> r.error == NameError && !cfg.noColumns)
            && (r.Ok? ==> e.order <= r.value.order && e.tables.Keys <= r.value.tables.Keys
                          && Lower(n.tag) in r.value.tables)
            && (r.Ok? && ChildrenAreTables(e.tables) ==> ChildrenAreTables(r.value.tables))
    decreases n
  {
    var tag := Lower(n.tag);
    FedAttrsFacts(e, cfg, tag, n.attrs);
    var a := FedAttrs(e, cfg, tag, n.attrs);
    if a.Ok? {
      var e2 := Texted(a.value, tag, n.text);
      TextedFacts(a.value, tag, n.text);
      FedChildrenFacts(e2, cfg, n.children);
      var c := FedChildren(e2, cfg, n.children);
      if c.Ok? {
        RelatedFacts(c.value, tag, Tags(n.children));
      }
    }
  }

  /** update_value only adds an entry and does not touch the child counts. */
  lemma TextedFacts(e: Entries, tag: string, text: string)
    ensures var r := Texted(e, tag, text);
            && e.order <= r.order && e.tables.Keys <= r.tables.Keys
            && (ChildrenAreTables(e.tables) ==> ChildrenAreTables(r.tables))
  {
  }

  /**
   * update_relations with the tally of child tags that are all entries
   * keeps every child count naming a table.
   */
  lemma RelatedFacts(e: Entries, tag: string, tags: seq<string>)
    requires forall i :: 0 <= i < |tags| ==> tags[i] in e.tables
    ensures var r := Related(e, tag, Tally(tags));
            && e.order <= r.order && e.tables.Keys <= r.tables.Keys && tag in r.tables
            && (ChildrenAreTables(e.tables) ==> ChildrenAreTables(r.tables))
  {
    var base := Get(e.tables, tag, EmptyTable(tag));
    WithCountsTags(base, Tally(tags));
    TallyMeaning(tags);
    var r := Related(e, tag, Tally(tags));
    if ChildrenAreTables(e.tables) {
      forall x, k | x in r.tables && k in r.tables[x].counts ensures k in r.tables {
        if x == tag && k !in base.counts {
          var j :| 0 <= j < |Tally(tags)| && Tally(tags)[j].0 == k;
        }
      }
    }
  }

  /** The walk of the elements `cs`: as FedFacts, and every one of their tags is an entry. */
  lemma {:induction false} FedChildrenFacts(e: Entries, cfg: Config, cs: seq<Node>)
    ensures var r := FedChildren(e, cfg, cs);
            && (r.Err? ==> r.error == NameError && !cfg.noColumns)
            && (r.Ok? ==> e.order <= r.value.order && e.tables.Keys <= r.value.tables.Keys
                          && forall i :: 0 <= i < |cs| ==> Lower(cs[i].tag) in r.value.tables)
            && (r.Ok? && ChildrenAreTables(e.tables) ==> ChildrenAreTables(r.value.tables))
    decreases cs
  {
    if cs != [] {
      FedFacts(e, cfg, cs[0]);
      var f := Fed(e, cfg, cs[0]);
      if f.Ok? {
        FedChildrenFacts(f.value, cfg, cs[1..]);
        var r := FedChildren(f.value, cfg, cs[1..]);
        if r.Ok? {
          forall i | 0 <= i < |cs| ensures Lower(cs[i].tag) in r.value.tables {
            if i > 0 {
              assert cs[i] == cs[1..][i - 1];
            }
          }
        }
      }
    }
  }

  /**
   * After xtd_database, the element's table has counted every child tag at
   * least as often as the element has children with that tag.
   */
  lemma FedCountsChildren(e: Entries, cfg: Config, n: Node)
    ensures var r := Fed(e, cfg, n);
            var tags := Tags(n.children);
            r.Ok? ==> (Lower(n.tag) in r.value.tables &&
                       forall k :: k in tags ==> k in r.value.tables[Lower(n.tag)].counts &&
                                                 r.value.tables[Lower(n.tag)].counts[k] >= multiset(tags)[k])
  {
    var tag := Lower(n.tag);
    var tags := Tags(n.children);
    var r := Fed(e, cfg, n);
    if r.Ok? {
      var a := FedAttrs(e, cfg, tag, n.attrs);
      var c := FedChildren(Texted(a.value, tag, n.text), cfg, n.children);
      var base := Get(c.value.tables, tag, EmptyTable(tag));
      WithCountsBound(base, Tally(tags));
      TallyMeaning(tags);
      forall k | k in tags
        ensures k in r.value.tables[tag].counts && r.value.tables[tag].counts[k] >= multiset(tags)[k]
      {
        var j :| 0 <= j < |Tally(tags)| && Tally(tags)[j].0 == k;
      }
    }
  }
}
