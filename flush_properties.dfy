/**
 * Properties of Database.flush, proved on its specification in Schema:
 * where each policy puts foreign keys, when a name collision is raised,
 * and which edges the relation graph ends up with.
 */
module FlushProperties {
  import opened Wrappers
  import opened Text
  import opened DataTypes
  import opened Tables
  import opened Schema

  /** The k-th numbered name, or its key, is already an attribute column. */
  predicate NumberedClash(t: TableState, name: string, k: nat) {
    Numbered(name, k) in t.columns || ForeignKey(Numbered(name, k)) in t.columns
  }

  /** The numbered-key loop fails exactly when one of the names name<k>, or its key, is a column. */
  lemma {:induction false} AddNumberedKeysFails(t: TableState, name: string, num: nat, count: nat)
    ensures AddNumberedKeys(t, name, num, count).Err? <==> exists k :: num < k <= count && NumberedClash(t, name, k)
    decreases count - num
  {
    if num < count && !NumberedClash(t, name, num + 1) {
      var u := WithKey(t, Numbered(name, num + 1)).value;
      AddNumberedKeysFails(u, name, num + 1, count);
      assert forall k :: NumberedClash(u, name, k) == NumberedClash(t, name, k);
    }
  }

  /** When it succeeds, the loop adds exactly the keys name1_id .. name<count>_id (from num + 1 on). */
  lemma {:induction false} AddNumberedKeysAdds(t: TableState, name: string, num: nat, count: nat)
    requires AddNumberedKeys(t, name, num, count).Ok?
    ensures forall key :: key in AddNumberedKeys(t, name, num, count).value.keys <==>
                          key in t.keys || exists k :: num < k <= count && key == ForeignKey(Numbered(name, k))
    decreases count - num
  {
    if num < count {
      var first := ForeignKey(Numbered(name, num + 1));
      var u := WithKey(t, Numbered(name, num + 1)).value;
      assert forall key :: key in u.keys <==> key in t.keys || key == first;
      AddNumberedKeysAdds(u, name, num + 1, count);
      var r := AddNumberedKeys(u, name, num + 1, count).value;
      assert AddNumberedKeys(t, name, num, count).value == r;
      forall key
        ensures key in r.keys <==> key in t.keys || exists k :: num < k <= count && key == ForeignKey(Numbered(name, k))
      {
        if key in r.keys && key !in t.keys && key != first {
          var k :| num + 1 < k <= count && key == ForeignKey(Numbered(name, k));
        }
        if exists k :: num < k <= count && key == ForeignKey(Numbered(name, k)) {
          var k :| num < k <= count && key == ForeignKey(Numbered(name, k));
          if k == num + 1 {
            assert key in u.keys;
          } else {
            assert num + 1 < k <= count;
          }
        }
      }
    }
  }

  /** Duplicity (-b): the parent gets exactly the key <child>_id and the edge parent -> child. */
  lemma FlushPairDuplicity(s: DbState, cfg: Config, t: string, name: string, count: nat)
    requires t in s.tables && Shaped(s) && cfg.duplicity
    ensures var r := FlushPair(s, cfg, t, name, count);
            var parent := s.tables[t];
            && (r.Err? <==> name in parent.columns || ForeignKey(name) in parent.columns)
            && (r.Err? ==> r.error == NameError)
            && (r.Ok? ==>
                  && r.value.graph == s.graph[t := s.graph[t] + {name}]
                  && r.value.tables == s.tables[t := parent.(keys := r.value.tables[t].keys)]
                  && forall k :: k in r.value.tables[t].keys <==> k in parent.keys || k == ForeignKey(name))
  {
  }

  /**
   * The etc policy, count > etc: the child gets exactly the key <parent>_id and
   * the edge child -> parent; a child that is not an entry is a KeyError.
   */
  lemma FlushPairInverted(s: DbState, cfg: Config, t: string, name: string, count: nat)
    requires t in s.tables && Shaped(s) && Inverted(cfg, count)
    ensures var r := FlushPair(s, cfg, t, name, count);
            && (name !in s.tables ==> r == Err(KeyError(name)))
            && (name in s.tables ==>
                  var child := s.tables[name];
                  && (r.Err? <==> name in child.columns || ForeignKey(t) in child.columns)
                  && (r.Err? ==> r.error == NameError)
                  && (r.Ok? ==>
                        && r.value.graph == s.graph[name := s.graph[name] + {t}]
                        && r.value.tables == s.tables[name := child.(keys := r.value.tables[name].keys)]
                        && forall k :: k in r.value.tables[name].keys <==> k in child.keys || k == ForeignKey(t)))
  {
  }

  /** The default policy, one child: the parent gets exactly <child>_id and the edge parent -> child. */
  lemma FlushPairSingle(s: DbState, cfg: Config, t: string, name: string)
    requires t in s.tables && Shaped(s) && !cfg.duplicity && !Inverted(cfg, 1)
    ensures var r := FlushPair(s, cfg, t, name, 1);
            var parent := s.tables[t];
            && (r.Err? <==> name in parent.columns || ForeignKey(name) in parent.columns)
            && (r.Err? ==> r.error == NameError)
            && (r.Ok? ==>
                  && r.value.graph == s.graph[t := s.graph[t] + {name}]
                  && r.value.tables == s.tables[t := parent.(keys := r.value.tables[t].keys)]
                  && forall k :: k in r.value.tables[t].keys <==> k in parent.keys || k == ForeignKey(name))
  {
  }

  /**
   * The default policy, `count` other than one: the parent gets exactly
   * <child>1_id .. <child><count>_id and the edge parent -> child; any of
   * the numbered names or keys that is a column raises a name collision.
   */
  lemma FlushPairNumbered(s: DbState, cfg: Config, t: string, name: string, count: nat)
    requires t in s.tables && Shaped(s) && !cfg.duplicity && !Inverted(cfg, count) && count != 1
    ensures var r := FlushPair(s, cfg, t, name, count);
            var parent := s.tables[t];
            && (r.Err? <==> exists k :: 0 < k <= count && NumberedClash(parent, name, k))
            && (r.Err? ==> r.error == NameError)
            && (r.Ok? ==>
                  && r.value.graph == s.graph[t := s.graph[t] + {name}]
                  && r.value.tables == s.tables[t := parent.(keys := r.value.tables[t].keys)]
                  && forall k :: k in r.value.tables[t].keys <==>
                                 k in parent.keys || exists i :: 0 < i <= count && k == ForeignKey(Numbered(name, i)))
  {
    AddNumberedKeysFails(s.tables[t], name, 0, count);
    if FlushPair(s, cfg, t, name, count).Ok? {
      AddNumberedKeysAdds(s.tables[t], name, 0, count);
    }
  }

  // ---------------------------------------------------------------------
  // The relation graph after the whole of flush.

  /** Every child tag of a table is itself an entry, as the tree walk guarantees. */
  ghost predicate ChildrenAreTables(tables: map<string, TableState>) {
    forall x, c :: x in tables && c in tables[x].counts ==> c in tables
  }

  /**
   * The edge x -> y is explained by a child count: y is a child of x under
   * duplicity or the default policy, or x is a child of y past the etc limit.
   */
  ghost predicate Justified(tables: map<string, TableState>, cfg: Config, x: string, y: string) {
    || (x in tables && y in tables[x].counts && !Inverted(cfg, tables[x].counts[y]))
    || (y in tables && x in tables[y].counts && Inverted(cfg, tables[y].counts[x]))
  }

  ghost predicate GraphSound(g: Graph, tables: map<string, TableState>, cfg: Config) {
    forall x, y :: x in g && y in g[x] ==> Justified(tables, cfg, x, y)
  }

  /** The edge flush adds for child tag c of table p is in the graph. */
  ghost predicate EdgePresent(g: Graph, tables: map<string, TableState>, cfg: Config, p: string, c: string) {
    p in tables && c in tables[p].counts &&
    if Inverted(cfg, tables[p].counts[c]) then c in g && p in g[c] else p in g && c in g[p]
  }

  ghost predicate GraphGrows(a: Graph, b: Graph) {
    forall x :: x in a ==> x in b && a[x] <= b[x]
  }

  lemma EdgeKept(a: Graph, b: Graph, tables: map<string, TableState>, cfg: Config, p: string, c: string)
    requires EdgePresent(a, tables, cfg, p, c) && GraphGrows(a, b)
    ensures EdgePresent(b, tables, cfg, p, c)
  {
  }

  lemma GrowsTransitive(a: Graph, b: Graph, c: Graph)
    requires GraphGrows(a, b) && GraphGrows(b, c)
    ensures GraphGrows(a, c)
  {
  }

  lemma SameTablesTransitive(a: map<string, TableState>, b: map<string, TableState>, c: map<string, TableState>)
    requires SameTables(a, b) && SameTables(b, c)
    ensures SameTables(a, c)
  {
  }

  /** One step of flush's inner loop: the pair's result, and the loop goes on from it. */
  lemma FlushChildrenStep(s: DbState, cfg: Config, t: string, names: seq<string>, rest: seq<string>)
    requires Shaped(s) && TablesWellFormed(s.tables) && t in s.tables
    requires AllTables(s, rest) && AllCounted(s, t, names) && names != []
    ensures var step := FlushPair(s, cfg, t, names[0], s.tables[t].counts[names[0]]);
            && (step.Err? ==> FlushChildren(s, cfg, t, names, rest) == Err(step.error))
            && (step.Ok? ==>
                  && AllTables(step.value, rest) && AllCounted(step.value, t, names[1..])
                  && FlushChildren(s, cfg, t, names, rest) == FlushChildren(step.value, cfg, t, names[1..], rest))
  {
    var step := FlushPair(s, cfg, t, names[0], s.tables[t].counts[names[0]]);
    if step.Ok? {
      StepKeeps(s, step.value, t, names, rest);
    }
  }

  /** A successful pair step rekeys one table, the holder, and adds the one edge holder -> target. */
  lemma FlushPairShape(s: DbState, cfg: Config, t: string, name: string, count: nat)
    requires t in s.tables && Shaped(s)
    ensures var r := FlushPair(s, cfg, t, name, count);
            var holder := if Inverted(cfg, count) then name else t;
            var target := if Inverted(cfg, count) then t else name;
            r.Ok? ==>
              && holder in s.tables && holder in r.value.tables
              && r.value.tables == s.tables[holder := r.value.tables[holder]]
              && r.value.tables[holder] == s.tables[holder].(keys := r.value.tables[holder].keys)
              && r.value.graph == s.graph[holder := s.graph[holder] + {target}]
  {
  }

  lemma FlushPairGraph(s: DbState, cfg: Config, t: string, name: string, tables: map<string, TableState>)
    requires t in s.tables && Shaped(s) && name in s.tables[t].counts
    requires SameTables(tables, s.tables)
    ensures var r := FlushPair(s, cfg, t, name, s.tables[t].counts[name]);
            r.Ok? ==>
              && SameTables(tables, r.value.tables)
              && (GraphSound(s.graph, tables, cfg) ==> GraphSound(r.value.graph, tables, cfg))
              && GraphGrows(s.graph, r.value.graph)
              && EdgePresent(r.value.graph, tables, cfg, t, name)
  {
    var count := s.tables[t].counts[name];
    var r := FlushPair(s, cfg, t, name, count);
    FlushPairShape(s, cfg, t, name, count);
    if r.Ok? {
      var holder := if Inverted(cfg, count) then name else t;
      var target := if Inverted(cfg, count) then t else name;
      var g := r.value.graph;
      assert tables[t].counts == s.tables[t].counts;
      assert Justified(tables, cfg, holder, target);
      forall x | x in s.graph
        ensures x in g && s.graph[x] <= g[x]
      {
      }
      if GraphSound(s.graph, tables, cfg) {
        forall x, y | x in g && y in g[x]
          ensures Justified(tables, cfg, x, y)
        {
          if x != holder || y != target {
            assert y in s.graph[x];
          }
        }
      }
    }
  }

  /** Flush changes only foreign keys and keeps one graph node per table. */
  lemma {:induction false} FlushFromKeeps(s: DbState, cfg: Config, order: seq<string>)
    requires Shaped(s) && TablesWellFormed(s.tables) && AllTables(s, order)
    ensures var r := FlushFrom(s, cfg, order);
            r.Ok? ==> SameTables(s.tables, r.value.tables) && Shaped(r.value) && TablesWellFormed(r.value.tables)
    decreases |order|, 0
  {
    if order != [] {
      FlushChildrenKeeps(s, cfg, order[0], s.tables[order[0]].countOrder, order[1..]);
    }
  }

  lemma {:induction false} FlushChildrenKeeps(s: DbState, cfg: Config, t: string, names: seq<string>, rest: seq<string>)
    requires Shaped(s) && TablesWellFormed(s.tables) && t in s.tables
    requires AllTables(s, rest) && AllCounted(s, t, names)
    ensures var r := FlushChildren(s, cfg, t, names, rest);
            r.Ok? ==> SameTables(s.tables, r.value.tables) && Shaped(r.value) && TablesWellFormed(r.value.tables)
    decreases |rest|, |names| + 1
  {
    if names == [] {
      FlushFromKeeps(s, cfg, rest);
    } else {
      var step := FlushPair(s, cfg, t, names[0], s.tables[t].counts[names[0]]);
      FlushChildrenStep(s, cfg, t, names, rest);
      if step.Ok? {
        FlushChildrenKeeps(step.value, cfg, t, names[1..], rest);
        var r := FlushChildren(step.value, cfg, t, names[1..], rest);
        if r.Ok? {
          SameTablesTransitive(s.tables, step.value.tables, r.value.tables);
        }
      }
    }
  }

  /** Every edge flush adds is justified by a child count. */
  lemma {:induction false} FlushFromSound(s: DbState, cfg: Config, order: seq<string>, tables: map<string, TableState>)
    requires Shaped(s) && TablesWellFormed(s.tables) && AllTables(s, order)
    requires SameTables(tables, s.tables) && GraphSound(s.graph, tables, cfg)
    ensures var r := FlushFrom(s, cfg, order);
            r.Ok? ==> GraphSound(r.value.graph, tables, cfg)
    decreases |order|, 0
  {
    if order != [] {
      FlushChildrenSound(s, cfg, order[0], s.tables[order[0]].countOrder, order[1..], tables);
    }
  }

  lemma {:induction false} FlushChildrenSound(s: DbState, cfg: Config, t: string, names: seq<string>, rest: seq<string>,
                                              tables: map<string, TableState>)
    requires Shaped(s) && TablesWellFormed(s.tables) && t in s.tables
    requires AllTables(s, rest) && AllCounted(s, t, names)
    requires SameTables(tables, s.tables) && GraphSound(s.graph, tables, cfg)
    ensures var r := FlushChildren(s, cfg, t, names, rest);
            r.Ok? ==> GraphSound(r.value.graph, tables, cfg)
    decreases |rest|, |names| + 1
  {
    if names == [] {
      FlushFromSound(s, cfg, rest, tables);
    } else {
      var step := FlushPair(s, cfg, t, names[0], s.tables[t].counts[names[0]]);
      FlushChildrenStep(s, cfg, t, names, rest);
      FlushPairGraph(s, cfg, t, names[0], tables);
      if step.Ok? {
        SameTablesTransitive(tables, s.tables, step.value.tables);
        FlushChildrenSound(step.value, cfg, t, names[1..], rest, tables);
      }
    }
  }

  /** Every child count of every listed table leaves its edge, and no edge is lost. */
  lemma {:induction false} FlushFromComplete(s: DbState, cfg: Config, order: seq<string>, tables: map<string, TableState>)
    requires Shaped(s) && TablesWellFormed(s.tables) && AllTables(s, order)
    requires SameTables(tables, s.tables)
    ensures var r := FlushFrom(s, cfg, order);
            r.Ok? ==>
              && GraphGrows(s.graph, r.value.graph)
              && forall j, c :: 0 <= j < |order| && c in tables[order[j]].counts ==>
                                EdgePresent(r.value.graph, tables, cfg, order[j], c)
    decreases |order|, 0
  {
    if order != [] {
      var names := s.tables[order[0]].countOrder;
      FlushChildrenComplete(s, cfg, order[0], names, order[1..], tables);
      var r := FlushChildren(s, cfg, order[0], names, order[1..]);
      assert FlushFrom(s, cfg, order) == r;
      if r.Ok? {
        assert tables[order[0]].counts == s.tables[order[0]].counts;
        EdgesOfOrder(r.value.graph, tables, cfg, order, names);
      }
    }
  }

  /** The edges of the first table's children and those of the remaining tables are those of all tables. */
  lemma EdgesOfOrder(g: Graph, tables: map<string, TableState>, cfg: Config, order: seq<string>, names: seq<string>)
    requires order != [] && forall j :: 0 <= j < |order| ==> order[j] in tables
    requires forall c :: c in tables[order[0]].counts ==> c in names
    requires forall i :: 0 <= i < |names| ==> EdgePresent(g, tables, cfg, order[0], names[i])
    requires forall j, c :: 0 <= j < |order[1..]| && c in tables[order[1..][j]].counts ==>
                            EdgePresent(g, tables, cfg, order[1..][j], c)
    ensures forall j, c :: 0 <= j < |order| && c in tables[order[j]].counts ==> EdgePresent(g, tables, cfg, order[j], c)
  {
    forall j, c | 0 <= j < |order| && c in tables[order[j]].counts
      ensures EdgePresent(g, tables, cfg, order[j], c)
    {
      if j == 0 {
        var i :| 0 <= i < |names| && names[i] == c;
      } else {
        assert order[j] == order[1..][j - 1];
      }
    }
  }

  lemma {:induction false} FlushChildrenComplete(s: DbState, cfg: Config, t: string, names: seq<string>, rest: seq<string>,
                                                 tables: map<string, TableState>)
    requires Shaped(s) && TablesWellFormed(s.tables) && t in s.tables
    requires AllTables(s, rest) && AllCounted(s, t, names)
    requires SameTables(tables, s.tables)
    ensures var r := FlushChildren(s, cfg, t, names, rest);
            r.Ok? ==>
              && GraphGrows(s.graph, r.value.graph)
              && (forall i :: 0 <= i < |names| ==> EdgePresent(r.value.graph, tables, cfg, t, names[i]))
              && forall j, c :: 0 <= j < |rest| && c in tables[rest[j]].counts ==>
                                EdgePresent(r.value.graph, tables, cfg, rest[j], c)
    decreases |rest|, |names| + 1
  {
    if names == [] {
      FlushFromComplete(s, cfg, rest, tables);
    } else {
      var step := FlushPair(s, cfg, t, names[0], s.tables[t].counts[names[0]]);
      FlushChildrenStep(s, cfg, t, names, rest);
      FlushPairGraph(s, cfg, t, names[0], tables);
      if step.Ok? {
        var next := step.value;
        SameTablesTransitive(tables, s.tables, next.tables);
        FlushChildrenComplete(next, cfg, t, names[1..], rest, tables);
        var r := FlushChildren(next, cfg, t, names[1..], rest);
        if r.Ok? {
          GrowsTransitive(s.graph, next.graph, r.value.graph);
          forall i | 0 <= i < |names|
            ensures EdgePresent(r.value.graph, tables, cfg, t, names[i])
          {
            if i == 0 {
              EdgeKept(next.graph, r.value.graph, tables, cfg, t, names[0]);
            } else {
              assert names[i] == names[1..][i - 1];
            }
          }
        }
      }
    }
  }

  /**
   * After flush, the relation graph has one node per table, and x -> y is an
   * edge exactly when a child count explains it: y is a child of x kept on x,
   * or x is a child of y counted more than etc times.
   */
  lemma FlushedGraph(tables: map<string, TableState>, order: seq<string>, cfg: Config)
    requires TablesWellFormed(tables)
    requires forall i :: 0 <= i < |order| ==> order[i] in tables
    requires forall n :: n in tables ==> n in order
    ensures var r := Flushed(tables, order, cfg);
            r.Ok? ==>
              && r.value.graph.Keys == tables.Keys
              && forall x, y :: x in tables ==> (y in r.value.graph[x] <==> Justified(tables, cfg, x, y))
  {
    var init := DbState(tables, EmptyGraph(tables));
    FlushFromKeeps(init, cfg, order);
    FlushFromSound(init, cfg, order, tables);
    FlushFromComplete(init, cfg, order, tables);
    var r := Flushed(tables, order, cfg);
    if r.Ok? {
      var g := r.value.graph;
      forall x, y | x in tables && Justified(tables, cfg, x, y)
        ensures y in g[x]
      {
        if x in tables && y in tables[x].counts && !Inverted(cfg, tables[x].counts[y]) {
          var j :| 0 <= j < |order| && order[j] == x;
          assert EdgePresent(g, tables, cfg, order[j], y);
        } else {
          var j :| 0 <= j < |order| && order[j] == y;
          assert EdgePresent(g, tables, cfg, order[j], x);
        }
      }
    }
  }

  /** With every child an entry, every edge of the graph joins two entries. */
  lemma FlushedGraphClosed(tables: map<string, TableState>, order: seq<string>, cfg: Config)
    requires TablesWellFormed(tables) && ChildrenAreTables(tables)
    requires forall i :: 0 <= i < |order| ==> order[i] in tables
    requires forall n :: n in tables ==> n in order
    ensures var r := Flushed(tables, order, cfg);
            r.Ok? ==> forall x :: x in r.value.graph ==> r.value.graph[x] <= r.value.graph.Keys
  {
    FlushedGraph(tables, order, cfg);
  }

  /**
   * Without the etc policy (it is unset, or duplicity overrides it),
   * every table references exactly the child tags it counted.
   */
  lemma FlushedGraphIsChildren(tables: map<string, TableState>, order: seq<string>, cfg: Config)
    requires TablesWellFormed(tables)
    requires forall i :: 0 <= i < |order| ==> order[i] in tables
    requires forall n :: n in tables ==> n in order
    requires cfg.duplicity || cfg.etc == -1
    ensures var r := Flushed(tables, order, cfg);
            r.Ok? ==> r.value.graph.Keys == tables.Keys &&
                      forall x :: x in tables ==> r.value.graph[x] == tables[x].counts.Keys
  {
    FlushedGraph(tables, order, cfg);
  }
}
