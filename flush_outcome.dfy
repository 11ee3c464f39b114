/**
 * The outcome of the whole of Database.flush: the foreign keys every table
 * ends up with, and exactly when flush raises instead.
 */
module FlushOutcome {
  import opened Wrappers
  import opened Text
  import opened DataTypes
  import opened Tables
  import opened Schema
  import opened FlushProperties

  // ---------------------------------------------------------------------
  // Which keys a child count puts where.

  /** `k` is one of the keys kept on the parent for child tag c counted `count` times. */
  ghost predicate ChildKey(cfg: Config, c: string, count: nat, k: string) {
    if cfg.duplicity || count == 1 then k == ForeignKey(c)
    else exists i :: 0 < i <= count && k == ForeignKey(Numbered(c, i))
  }

  /**
   * Table x holds key k after flush because it had it, or because a child
   * of x kept on x gives it, or because x is a child past the etc limit of
   * some table y, whose key it then gets.
   */
  ghost predicate KeyJustified(tables: map<string, TableState>, cfg: Config, x: string, k: string) {
    x in tables &&
    (|| k in tables[x].keys
     || (exists c :: c in tables[x].counts && !Inverted(cfg, tables[x].counts[c]) &&
                     ChildKey(cfg, c, tables[x].counts[c], k))
     || (exists y :: y in tables && x in tables[y].counts && Inverted(cfg, tables[y].counts[x]) &&
                     k == ForeignKey(y)))
  }

  ghost predicate KeysSound(now: map<string, TableState>, tables: map<string, TableState>, cfg: Config) {
    forall x, k :: x in now && k in now[x].keys ==> KeyJustified(tables, cfg, x, k)
  }

  ghost predicate KeysGrow(a: map<string, TableState>, b: map<string, TableState>) {
    a.Keys <= b.Keys && forall x, k :: x in a && k in a[x].keys ==> k in b[x].keys
  }

  /** The keys added for child tag c of table p are on their holder. */
  ghost predicate KeysPresent(now: map<string, TableState>, tables: map<string, TableState>, cfg: Config,
                              p: string, c: string) {
    p in tables && c in tables[p].counts &&
    var count := tables[p].counts[c];
    if Inverted(cfg, count) then c in now && ForeignKey(p) in now[c].keys
    else p in now && forall k :: ChildKey(cfg, c, count, k) ==> k in now[p].keys
  }

  /**
   * The pair (table p, child tag c) makes flush raise: a name collision
   * with an attribute column of the holder, or, past the etc limit, a child
   * that is not an entry (KeyError).
   */
  ghost predicate Clash(tables: map<string, TableState>, cfg: Config, p: string, c: string) {
    p in tables && c in tables[p].counts &&
    var count := tables[p].counts[c];
    if Inverted(cfg, count) then
      c !in tables || c in tables[c].columns || ForeignKey(p) in tables[c].columns
    else if cfg.duplicity || count == 1 then
      c in tables[p].columns || ForeignKey(c) in tables[p].columns
    else exists k :: 0 < k <= count && NumberedClash(tables[p], c, k)
  }

  // ---------------------------------------------------------------------
  // One pair.

  /** A successful pair step adds exactly the pair's keys to its holder. */
  lemma FlushPairAdds(s: DbState, cfg: Config, t: string, name: string, count: nat)
    requires t in s.tables && Shaped(s)
    ensures var r := FlushPair(s, cfg, t, name, count);
            r.Ok? && Inverted(cfg, count) ==>
              name in s.tables && name in r.value.tables &&
              forall k :: k in r.value.tables[name].keys <==> k in s.tables[name].keys || k == ForeignKey(t)
    ensures var r := FlushPair(s, cfg, t, name, count);
            r.Ok? && !Inverted(cfg, count) ==>
              t in r.value.tables &&
              forall k :: k in r.value.tables[t].keys <==> k in s.tables[t].keys || ChildKey(cfg, name, count, k)
  {
    if cfg.duplicity {
      FlushPairDuplicity(s, cfg, t, name, count);
    } else if Inverted(cfg, count) {
      FlushPairInverted(s, cfg, t, name, count);
    } else if count == 1 {
      FlushPairSingle(s, cfg, t, name);
    } else {
      FlushPairNumbered(s, cfg, t, name, count);
    }
  }

  /** A pair step fails exactly when the pair clashes; only columns and entries decide it. */
  lemma FlushPairFails(s: DbState, cfg: Config, t: string, name: string, tables: map<string, TableState>)
    requires t in s.tables && Shaped(s) && name in s.tables[t].counts
    requires SameTables(tables, s.tables)
    ensures FlushPair(s, cfg, t, name, s.tables[t].counts[name]).Err? <==> Clash(tables, cfg, t, name)
  {
    var count := s.tables[t].counts[name];
    assert tables[t].columns == s.tables[t].columns && tables[t].counts == s.tables[t].counts;
    if cfg.duplicity {
      FlushPairDuplicity(s, cfg, t, name, count);
    } else if Inverted(cfg, count) {
      FlushPairInverted(s, cfg, t, name, count);
      if name in tables {
        assert tables[name].columns == s.tables[name].columns;
      }
    } else if count == 1 {
      FlushPairSingle(s, cfg, t, name);
    } else {
      FlushPairNumbered(s, cfg, t, name, count);
      assert forall k :: NumberedClash(tables[t], name, k) == NumberedClash(s.tables[t], name, k);
    }
  }

  /** A successful pair step keeps the keys justified, loses none, and puts its own keys in place. */
  lemma FlushPairKeys(s: DbState, cfg: Config, t: string, name: string, tables: map<string, TableState>)
    requires t in s.tables && Shaped(s) && name in s.tables[t].counts
    requires SameTables(tables, s.tables)
    ensures var r := FlushPair(s, cfg, t, name, s.tables[t].counts[name]);
            r.Ok? ==>
              && SameTables(tables, r.value.tables)
              && (KeysSound(s.tables, tables, cfg) ==> KeysSound(r.value.tables, tables, cfg))
              && KeysGrow(s.tables, r.value.tables)
              && KeysPresent(r.value.tables, tables, cfg, t, name)
  {
    var count := s.tables[t].counts[name];
    var r := FlushPair(s, cfg, t, name, count);
    FlushPairShape(s, cfg, t, name, count);
    FlushPairAdds(s, cfg, t, name, count);
    if r.Ok? {
      var holder := if Inverted(cfg, count) then name else t;
      var now := r.value.tables;
      assert tables[t].counts == s.tables[t].counts;
      assert SameTables(tables, now) by {
        SameTablesTransitive(tables, s.tables, now);
      }
      if KeysSound(s.tables, tables, cfg) {
        forall x, k | x in now && k in now[x].keys
          ensures KeyJustified(tables, cfg, x, k)
        {
          if x != holder || k in s.tables[holder].keys {
            assert k in s.tables[x].keys;
          } else if Inverted(cfg, count) {
            assert t in tables && name in tables[t].counts && k == ForeignKey(t);
          } else {
            assert name in tables[t].counts && ChildKey(cfg, name, tables[t].counts[name], k);
          }
        }
      }
      forall x, k | x in s.tables && k in s.tables[x].keys
        ensures k in now[x].keys
      {
        if x != holder {
          assert now[x] == s.tables[x];
        }
      }
    }
  }

  // ---------------------------------------------------------------------
  // The whole of flush: keys.

  lemma {:induction false} FlushFromKeysSound(s: DbState, cfg: Config, order: seq<string>,
                                              tables: map<string, TableState>)
    requires Shaped(s) && TablesWellFormed(s.tables) && AllTables(s, order)
    requires SameTables(tables, s.tables) && KeysSound(s.tables, tables, cfg)
    ensures var r := FlushFrom(s, cfg, order);
            r.Ok? ==> KeysSound(r.value.tables, tables, cfg)
    decreases |order|, 0
  {
    if order != [] {
      FlushChildrenKeysSound(s, cfg, order[0], s.tables[order[0]].countOrder, order[1..], tables);
    }
  }

  lemma {:induction false} FlushChildrenKeysSound(s: DbState, cfg: Config, t: string, names: seq<string>,
                                                  rest: seq<string>, tables: map<string, TableState>)
    requires Shaped(s) && TablesWellFormed(s.tables) && t in s.tables
    requires AllTables(s, rest) && AllCounted(s, t, names)
    requires SameTables(tables, s.tables) && KeysSound(s.tables, tables, cfg)
    ensures var r := FlushChildren(s, cfg, t, names, rest);
            r.Ok? ==> KeysSound(r.value.tables, tables, cfg)
    decreases |rest|, |names| + 1
  {
    if names == [] {
      FlushFromKeysSound(s, cfg, rest, tables);
    } else {
      var step := FlushPair(s, cfg, t, names[0], s.tables[t].counts[names[0]]);
      FlushChildrenStep(s, cfg, t, names, rest);
      FlushPairKeys(s, cfg, t, names[0], tables);
      if step.Ok? {
        FlushChildrenKeysSound(step.value, cfg, t, names[1..], rest, tables);
      }
    }
  }

  lemma KeysGrowTransitive(a: map<string, TableState>, b: map<string, TableState>, c: map<string, TableState>)
    requires KeysGrow(a, b) && KeysGrow(b, c)
    ensures KeysGrow(a, c)
  {
  }

  lemma KeysKept(a: map<string, TableState>, b: map<string, TableState>, tables: map<string, TableState>,
                 cfg: Config, p: string, c: string)
    requires KeysPresent(a, tables, cfg, p, c) && KeysGrow(a, b)
    ensures KeysPresent(b, tables, cfg, p, c)
  {
    if !Inverted(cfg, tables[p].counts[c]) {
      forall k | ChildKey(cfg, c, tables[p].counts[c], k)
        ensures k in b[p].keys
      {
        assert k in a[p].keys;
      }
    }
  }

  /** The keys of the first table's children and those of the remaining tables are those of all tables. */
  lemma KeysOfOrder(now: map<string, TableState>, tables: map<string, TableState>, cfg: Config,
                    order: seq<string>, names: seq<string>)
    requires order != [] && forall j :: 0 <= j < |order| ==> order[j] in tables
    requires forall c :: c in tables[order[0]].counts ==> c in names
    requires forall i :: 0 <= i < |names| ==> KeysPresent(now, tables, cfg, order[0], names[i])
    requires forall j, c :: 0 <= j < |order[1..]| && c in tables[order[1..][j]].counts ==>
                            KeysPresent(now, tables, cfg, order[1..][j], c)
    ensures forall j, c :: 0 <= j < |order| && c in tables[order[j]].counts ==>
                           KeysPresent(now, tables, cfg, order[j], c)
  {
    forall j, c | 0 <= j < |order| && c in tables[order[j]].counts
      ensures KeysPresent(now, tables, cfg, order[j], c)
    {
      if j == 0 {
        var i :| 0 <= i < |names| && names[i] == c;
      } else {
        assert order[j] == order[1..][j - 1];
      }
    }
  }

  lemma {:induction false} FlushFromKeysComplete(s: DbState, cfg: Config, order: seq<string>,
                                                 tables: map<string, TableState>)
    requires Shaped(s) && TablesWellFormed(s.tables) && AllTables(s, order)
    requires SameTables(tables, s.tables)
    ensures var r := FlushFrom(s, cfg, order);
            r.Ok? ==>
              && KeysGrow(s.tables, r.value.tables)
              && forall j, c :: 0 <= j < |order| && c in tables[order[j]].counts ==>
                                KeysPresent(r.value.tables, tables, cfg, order[j], c)
    decreases |order|, 0
  {
    if order != [] {
      var names := s.tables[order[0]].countOrder;
      FlushChildrenKeysComplete(s, cfg, order[0], names, order[1..], tables);
      var r := FlushChildren(s, cfg, order[0], names, order[1..]);
      assert FlushFrom(s, cfg, order) == r;
      if r.Ok? {
        assert tables[order[0]].counts == s.tables[order[0]].counts;
        KeysOfOrder(r.value.tables, tables, cfg, order, names);
      }
    }
  }

  lemma {:induction false} FlushChildrenKeysComplete(s: DbState, cfg: Config, t: string, names: seq<string>,
                                                     rest: seq<string>, tables: map<string, TableState>)
    requires Shaped(s) && TablesWellFormed(s.tables) && t in s.tables
    requires AllTables(s, rest) && AllCounted(s, t, names)
    requires SameTables(tables, s.tables)
    ensures var r := FlushChildren(s, cfg, t, names, rest);
            r.Ok? ==>
              && KeysGrow(s.tables, r.value.tables)
              && (forall i :: 0 <= i < |names| ==> KeysPresent(r.value.tables, tables, cfg, t, names[i]))
              && forall j, c :: 0 <= j < |rest| && c in tables[rest[j]].counts ==>
                                KeysPresent(r.value.tables, tables, cfg, rest[j], c)
    decreases |rest|, |names| + 1
  {
    if names == [] {
      FlushFromKeysComplete(s, cfg, rest, tables);
    } else {
      var step := FlushPair(s, cfg, t, names[0], s.tables[t].counts[names[0]]);
      FlushChildrenStep(s, cfg, t, names, rest);
      FlushPairKeys(s, cfg, t, names[0], tables);
      if step.Ok? {
        var next := step.value;
        FlushChildrenKeysComplete(next, cfg, t, names[1..], rest, tables);
        var r := FlushChildren(next, cfg, t, names[1..], rest);
        if r.Ok? {
          KeysGrowTransitive(s.tables, next.tables, r.value.tables);
          forall i | 0 <= i < |names|
            ensures KeysPresent(r.value.tables, tables, cfg, t, names[i])
          {
            if i == 0 {
              KeysKept(next.tables, r.value.tables, tables, cfg, t, names[0]);
            } else {
              assert names[i] == names[1..][i - 1];
            }
          }
        }
      }
    }
  }

  /** Every child count of every table has its keys in place. */
  ghost predicate AllKeysPresent(now: map<string, TableState>, tables: map<string, TableState>, cfg: Config) {
    forall p, c :: p in tables && c in tables[p].counts ==> KeysPresent(now, tables, cfg, p, c)
  }

  lemma OrderKeysPresent(now: map<string, TableState>, tables: map<string, TableState>, cfg: Config,
                         order: seq<string>)
    requires forall i :: 0 <= i < |order| ==> order[i] in tables
    requires forall n :: n in tables ==> n in order
    requires forall j, c :: 0 <= j < |order| && c in tables[order[j]].counts ==>
                            KeysPresent(now, tables, cfg, order[j], c)
    ensures AllKeysPresent(now, tables, cfg)
  {
    forall p, c | p in tables && c in tables[p].counts
      ensures KeysPresent(now, tables, cfg, p, c)
    {
      var j :| 0 <= j < |order| && order[j] == p;
    }
  }

  /** With every pair's keys in place and no key lost, every justified key is held. */
  lemma JustifiedPresent(now: map<string, TableState>, tables: map<string, TableState>, cfg: Config,
                         x: string, k: string)
    requires AllKeysPresent(now, tables, cfg) && KeysGrow(tables, now)
    requires KeyJustified(tables, cfg, x, k)
    ensures x in now && k in now[x].keys
  {
    if k !in tables[x].keys {
      if exists c :: c in tables[x].counts && !Inverted(cfg, tables[x].counts[c]) &&
                     ChildKey(cfg, c, tables[x].counts[c], k) {
        var c :| c in tables[x].counts && !Inverted(cfg, tables[x].counts[c]) &&
                 ChildKey(cfg, c, tables[x].counts[c], k);
        assert KeysPresent(now, tables, cfg, x, c);
      } else {
        var y :| y in tables && x in tables[y].counts && Inverted(cfg, tables[y].counts[x]) &&
                 k == ForeignKey(y);
        assert KeysPresent(now, tables, cfg, y, x);
      }
    }
  }

  /**
   * After a successful flush, table x holds key k exactly when k was
   * already a key of x, or a child c of x kept on x gives it (<c>_id, or
   * <c>1_id .. <c>n_id for a child counted n times by default), or x is a
   * child of y counted more than etc times and k is <y>_id.
   */
  lemma FlushedKeys(tables: map<string, TableState>, order: seq<string>, cfg: Config)
    requires TablesWellFormed(tables)
    requires forall i :: 0 <= i < |order| ==> order[i] in tables
    requires forall n :: n in tables ==> n in order
    ensures var r := Flushed(tables, order, cfg);
            r.Ok? ==>
              && r.value.tables.Keys == tables.Keys
              && forall x, k :: x in tables ==> (k in r.value.tables[x].keys <==> KeyJustified(tables, cfg, x, k))
  {
    var init := DbState(tables, EmptyGraph(tables));
    FlushFromKeeps(init, cfg, order);
    FlushFromKeysSound(init, cfg, order, tables);
    FlushFromKeysComplete(init, cfg, order, tables);
    var r := Flushed(tables, order, cfg);
    if r.Ok? {
      var now := r.value.tables;
      OrderKeysPresent(now, tables, cfg, order);
      forall x, k | x in tables && KeyJustified(tables, cfg, x, k)
        ensures k in now[x].keys
      {
        JustifiedPresent(now, tables, cfg, x, k);
      }
    }
  }

  // ---------------------------------------------------------------------
  // The whole of flush: failure.

  /** One of the child tags `names` of table t clashes. */
  ghost predicate ClashAmong(tables: map<string, TableState>, cfg: Config, t: string, names: seq<string>) {
    exists i :: 0 <= i < |names| && Clash(tables, cfg, t, names[i])
  }

  lemma ClashAmongFirst(tables: map<string, TableState>, cfg: Config, t: string, names: seq<string>)
    requires names != []
    ensures ClashAmong(tables, cfg, t, names) <==>
              Clash(tables, cfg, t, names[0]) || ClashAmong(tables, cfg, t, names[1..])
  {
    if ClashAmong(tables, cfg, t, names) && !Clash(tables, cfg, t, names[0]) {
      var i :| 0 <= i < |names| && Clash(tables, cfg, t, names[i]);
      assert names[1..][i - 1] == names[i];
    }
    if ClashAmong(tables, cfg, t, names[1..]) {
      var i :| 0 <= i < |names[1..]| && Clash(tables, cfg, t, names[1..][i]);
      assert names[1..][i] == names[i + 1];
    }
  }

  /** Some child tag of a table from `order` clashes. */
  ghost predicate SomeClash(tables: map<string, TableState>, cfg: Config, order: seq<string>) {
    exists j, c :: 0 <= j < |order| && Clash(tables, cfg, order[j], c)
  }

  lemma ClashesOfOrder(tables: map<string, TableState>, cfg: Config, order: seq<string>, names: seq<string>)
    requires order != [] && order[0] in tables
    requires forall c :: c in tables[order[0]].counts <==> c in names
    ensures SomeClash(tables, cfg, order) <==>
              ClashAmong(tables, cfg, order[0], names) || SomeClash(tables, cfg, order[1..])
  {
    if SomeClash(tables, cfg, order) {
      var j, c :| 0 <= j < |order| && Clash(tables, cfg, order[j], c);
      if j == 0 {
        var i :| 0 <= i < |names| && names[i] == c;
      } else {
        assert order[j] == order[1..][j - 1];
      }
    }
    if SomeClash(tables, cfg, order[1..]) {
      var j, c :| 0 <= j < |order[1..]| && Clash(tables, cfg, order[1..][j], c);
      assert order[1..][j] == order[j + 1];
    }
  }

  lemma {:induction false} FlushFromFails(s: DbState, cfg: Config, order: seq<string>, tables: map<string, TableState>)
    requires Shaped(s) && TablesWellFormed(s.tables) && AllTables(s, order)
    requires SameTables(tables, s.tables)
    ensures FlushFrom(s, cfg, order).Err? <==> SomeClash(tables, cfg, order)
    decreases |order|, 0
  {
    if order != [] {
      var names := s.tables[order[0]].countOrder;
      FlushChildrenFails(s, cfg, order[0], names, order[1..], tables);
      assert tables[order[0]].counts == s.tables[order[0]].counts;
      ClashesOfOrder(tables, cfg, order, names);
    }
  }

  lemma {:induction false} FlushChildrenFails(s: DbState, cfg: Config, t: string, names: seq<string>,
                                              rest: seq<string>, tables: map<string, TableState>)
    requires Shaped(s) && TablesWellFormed(s.tables) && t in s.tables
    requires AllTables(s, rest) && AllCounted(s, t, names)
    requires SameTables(tables, s.tables)
    ensures FlushChildren(s, cfg, t, names, rest).Err? <==>
              ClashAmong(tables, cfg, t, names) || SomeClash(tables, cfg, rest)
    decreases |rest|, |names| + 1
  {
    if names == [] {
      FlushFromFails(s, cfg, rest, tables);
    } else {
      var step := FlushPair(s, cfg, t, names[0], s.tables[t].counts[names[0]]);
      FlushChildrenStep(s, cfg, t, names, rest);
      FlushPairFails(s, cfg, t, names[0], tables);
      ClashAmongFirst(tables, cfg, t, names);
      if step.Ok? {
        SameTablesTransitive(tables, s.tables, step.value.tables);
        FlushChildrenFails(step.value, cfg, t, names[1..], rest, tables);
      }
    }
  }

  /**
   * Flush raises exactly when some (table, child tag) pair clashes on the
   * original tables: a numbered or plain child name, or its key, is an
   * attribute column of the table that would hold the key, or a child past
   * the etc limit is not an entry.
   */
  lemma FlushedFails(tables: map<string, TableState>, order: seq<string>, cfg: Config)
    requires TablesWellFormed(tables)
    requires forall i :: 0 <= i < |order| ==> order[i] in tables
    requires forall n :: n in tables ==> n in order
    ensures Flushed(tables, order, cfg).Err? <==> exists x, c :: x in tables && Clash(tables, cfg, x, c)
  {
    FlushFromFails(DbState(tables, EmptyGraph(tables)), cfg, order, tables);
    if exists x, c :: x in tables && Clash(tables, cfg, x, c) {
      var x, c :| x in tables && Clash(tables, cfg, x, c);
      var j :| 0 <= j < |order| && order[j] == x;
      assert Clash(tables, cfg, order[j], c);
    }
  }
}
