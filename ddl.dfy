/**
 * The column list print_ddl writes for one table (primary key, foreign keys
 * in insertion order, attribute columns in insertion order, then the value
 * column when a text was seen), and when its names are all different.
 */
module Ddl {
  import opened Wrappers
  import opened Text
  import opened DataTypes
  import opened Tables
  import opened Schema
  import opened FlushProperties

  /** The SQL type written after a column name. */
  datatype SqlType = PrimaryKeyInt | Int | Typed(t: DataType)

  type Column = (string, SqlType)

  function KeyColumns(keys: seq<string>): (cols: seq<Column>)
    ensures |cols| == |keys|
    ensures forall i :: 0 <= i < |keys| ==> cols[i] == (keys[i], Int)
  {
    if keys == [] then [] else [(keys[0], Int)] + KeyColumns(keys[1..])
  }

  function AttributeColumns(order: seq<string>, columns: map<string, DataType>): (cols: seq<Column>)
    requires forall i :: 0 <= i < |order| ==> order[i] in columns
    ensures |cols| == |order|
    ensures forall i :: 0 <= i < |order| ==> cols[i] == (order[i], Typed(columns[order[i]]))
  {
    if order == [] then [] else [(order[0], Typed(columns[order[0]]))] + AttributeColumns(order[1..], columns)
  }

  /** The columns of CREATE TABLE for `t`, in the order print_ddl writes them. */
  function DdlColumns(t: TableState): (cols: seq<Column>)
    requires WellFormed(t)
  {
    [(PrimaryKey(t.name), PrimaryKeyInt)]
    + KeyColumns(t.keys)
    + AttributeColumns(t.columnOrder, t.columns)
    + (if t.value.Some? then [("value", Typed(t.value.value))] else [])
  }

  function Names(cols: seq<Column>): (names: seq<string>)
    ensures |names| == |cols| && forall i :: 0 <= i < |cols| ==> names[i] == cols[i].0
  {
    if cols == [] then [] else [cols[0].0] + Names(cols[1..])
  }

  /**
   * The column list holds the primary key INT PRIMARY KEY, one INT column per
   * foreign key, and each attribute column with its type.
   */
  lemma DdlColumnsContents(t: TableState)
    requires WellFormed(t)
    ensures var cols := DdlColumns(t);
            && cols[0] == (PrimaryKey(t.name), PrimaryKeyInt)
            && (forall k :: k in t.keys ==> (k, Int) in cols)
            && (forall c :: c in t.columns ==> (c, Typed(t.columns[c])) in cols)
            && |cols| == 1 + |t.keys| + |t.columns| + (if t.value.Some? then 1 else 0)
  {
    var pk: seq<Column> := [(PrimaryKey(t.name), PrimaryKeyInt)];
    var kc := KeyColumns(t.keys);
    var ac := AttributeColumns(t.columnOrder, t.columns);
    var vc: seq<Column> := if t.value.Some? then [("value", Typed(t.value.value))] else [];
    var cols := DdlColumns(t);
    assert cols == pk + kc + ac + vc;
    forall k | k in t.keys ensures (k, Int) in cols {
      var i :| 0 <= i < |t.keys| && t.keys[i] == k;
      assert kc[i] in kc;
    }
    forall c | c in t.columns ensures (c, Typed(t.columns[c])) in cols {
      var i :| 0 <= i < |t.columnOrder| && t.columnOrder[i] == c;
      assert ac[i] in ac;
    }
    DistinctCardinality(t.columnOrder, t.columns.Keys);
  }

  /** The value column is there, with the value type, exactly when a text was seen. */
  lemma DdlValueColumn(t: TableState)
    requires WellFormed(t) && KeysApart(t)
    ensures var cols := DdlColumns(t);
            && ((exists i :: 0 <= i < |cols| && cols[i].0 == "value") <==> t.value.Some?)
            && (t.value.Some? ==> cols[|cols| - 1] == ("value", Typed(t.value.value)))
  {
    var pk: seq<Column> := [(PrimaryKey(t.name), PrimaryKeyInt)];
    var kc := KeyColumns(t.keys);
    var ac := AttributeColumns(t.columnOrder, t.columns);
    var cols := DdlColumns(t);
    if t.value.None? {
      assert cols == pk + kc + ac;
      PrimaryKeyNotValue(t.name);
      forall i | 0 <= i < |cols| ensures cols[i].0 != "value" {
        if i == 0 {
        } else if i < 1 + |kc| {
          assert cols[i] == kc[i - 1];
          assert t.keys[i - 1] in t.keys;
        } else {
          assert cols[i] == ac[i - 1 - |kc|];
          assert t.columnOrder[i - 1 - |kc|] in t.columns;
        }
      }
    } else {
      assert cols[|cols| - 1].0 == "value";
    }
  }

  lemma DistinctCardinality(s: seq<string>, k: set<string>)
    requires Distinct(s) && forall x :: x in k <==> x in s
    ensures |k| == |s|
    decreases |s|
  {
    if s != [] {
      var last := s[|s| - 1];
      var init := s[..|s| - 1];
      assert forall x :: x in k - {last} <==> x in init by {
        forall x ensures x in k - {last} <==> x in init {
          if x in init {
            var i :| 0 <= i < |init| && init[i] == x;
            assert s[i] == x;
          }
          if x in s && x != last {
            var i :| 0 <= i < |s| && s[i] == x;
            assert init[i] == x;
          }
        }
      }
      DistinctCardinality(init, k - {last});
    }
  }

  lemma PrimaryKeyNotValue(name: string)
    ensures PrimaryKey(name) != "value"
  {
    assert PrimaryKey(name)[0] == 'p';
  }

  lemma ForeignKeyNotValue(ref: string)
    ensures ForeignKey(ref) != "value"
  {
    var k := ForeignKey(ref);
    if |k| == 5 {
      assert k[4] == 'd';
    }
  }

  /** The foreign keys share no name with the attribute columns or the value column. */
  ghost predicate KeysApart(t: TableState) {
    forall k :: k in t.keys ==> k !in t.columns && k != "value"
  }

  ghost predicate AllKeysApart(tables: map<string, TableState>) {
    forall n :: n in tables ==> KeysApart(tables[n])
  }

  lemma DistinctConcat(a: seq<string>, b: seq<string>)
    ensures Distinct(a + b) <==> Distinct(a) && Distinct(b) && forall x :: x in a ==> x !in b
  {
    if Distinct(a + b) {
      forall i, j | 0 <= i < j < |a| ensures a[i] != a[j] {
        assert (a + b)[i] == a[i] && (a + b)[j] == a[j];
      }
      forall i, j | 0 <= i < j < |b| ensures b[i] != b[j] {
        assert (a + b)[|a| + i] == b[i] && (a + b)[|a| + j] == b[j];
      }
      forall i, j | 0 <= i < |a| && 0 <= j < |b| ensures a[i] != b[j] {
        assert (a + b)[i] == a[i] && (a + b)[|a| + j] == b[j];
      }
    }
    if Distinct(a) && Distinct(b) && forall x :: x in a ==> x !in b {
      forall i, j | 0 <= i < j < |a + b| ensures (a + b)[i] != (a + b)[j] {
        if j < |a| {
          assert (a + b)[i] == a[i] && (a + b)[j] == a[j];
        } else if i >= |a| {
          assert (a + b)[i] == b[i - |a|] && (a + b)[j] == b[j - |a|];
        } else {
          assert (a + b)[i] == a[i] && a[i] in a;
          assert (a + b)[j] == b[j - |a|] && b[j - |a|] in b;
        }
      }
    }
  }

  lemma NamesConcat(a: seq<Column>, b: seq<Column>)
    ensures Names(a + b) == Names(a) + Names(b)
  {
    assert forall i :: 0 <= i < |a + b| ==> Names(a + b)[i] == (Names(a) + Names(b))[i];
  }

  /**
   * On a table whose foreign keys stay apart from its columns (flush keeps
   * that), the column names of CREATE TABLE are all different exactly when
   * no foreign key is named like the primary key.
   */
  lemma DdlColumnsDistinct(t: TableState)
    requires WellFormed(t) && KeysApart(t)
    ensures Distinct(Names(DdlColumns(t))) <==> PrimaryKey(t.name) !in t.keys
  {
    var pk: seq<Column> := [(PrimaryKey(t.name), PrimaryKeyInt)];
    var kc := KeyColumns(t.keys);
    var ac := AttributeColumns(t.columnOrder, t.columns);
    var vc: seq<Column> := if t.value.Some? then [("value", Typed(t.value.value))] else [];
    NamesConcat(pk + kc + ac, vc);
    NamesConcat(pk + kc, ac);
    NamesConcat(pk, kc);
    var np, nk, na, nv := Names(pk), Names(kc), Names(ac), Names(vc);
    assert nk == t.keys;
    assert na == t.columnOrder;
    assert Names(DdlColumns(t)) == np + nk + na + nv;
    PrimaryKeyNotValue(t.name);
    DistinctConcat(np, nk);
    DistinctConcat(np + nk, na);
    DistinctConcat(np + nk + na, nv);
    assert forall x :: x in np + nk + na ==> x !in nv by {
      forall x | x in np + nk + na ensures x !in nv {
        if x in na {
          assert x in t.columns;
        }
      }
    }
    assert forall x :: x in np + nk ==> x !in na by {
      forall x | x in np + nk ensures x !in na {
        if x in nk {
          assert x in t.keys;
        }
      }
    }
  }

  // ---------------------------------------------------------------------
  // Flush keeps the foreign keys apart from the columns.

  lemma AddNumberedKeysApart(t: TableState, name: string, num: nat, count: nat)
    requires KeysApart(t)
    ensures var r := AddNumberedKeys(t, name, num, count); r.Ok? ==> KeysApart(r.value)
    decreases count - num
  {
    if num < count && Numbered(name, num + 1) !in t.columns {
      ForeignKeyNotValue(Numbered(name, num + 1));
      var w := WithKey(t, Numbered(name, num + 1));
      if w.Ok? {
        AddNumberedKeysApart(w.value, name, num + 1, count);
      }
    }
  }

  /** Adding one key that is not a column keeps a table's keys apart. */
  lemma OneKeyApart(t: TableState, u: TableState, ref: string)
    requires KeysApart(t) && u == t.(keys := u.keys) && ForeignKey(ref) !in t.columns
    requires forall k :: k in u.keys <==> k in t.keys || k == ForeignKey(ref)
    ensures KeysApart(u)
  {
    ForeignKeyNotValue(ref);
  }

  lemma FlushPairApart(s: DbState, cfg: Config, t: string, name: string, count: nat)
    requires t in s.tables && Shaped(s) && AllKeysApart(s.tables)
    ensures var r := FlushPair(s, cfg, t, name, count); r.Ok? ==> AllKeysApart(r.value.tables)
  {
    var r := FlushPair(s, cfg, t, name, count);
    if r.Ok? {
      if cfg.duplicity {
        FlushPairDuplicity(s, cfg, t, name, count);
        OneKeyApart(s.tables[t], r.value.tables[t], name);
      } else if Inverted(cfg, count) {
        FlushPairInverted(s, cfg, t, name, count);
        OneKeyApart(s.tables[name], r.value.tables[name], t);
      } else if count == 1 {
        FlushPairSingle(s, cfg, t, name);
        OneKeyApart(s.tables[t], r.value.tables[t], name);
      } else {
        AddNumberedKeysApart(s.tables[t], name, 0, count);
      }
    }
  }

  lemma {:induction false} FlushFromApart(s: DbState, cfg: Config, order: seq<string>)
    requires Shaped(s) && TablesWellFormed(s.tables) && AllTables(s, order) && AllKeysApart(s.tables)
    ensures var r := FlushFrom(s, cfg, order); r.Ok? ==> AllKeysApart(r.value.tables)
    decreases |order|, 0
  {
    if order != [] {
      FlushChildrenApart(s, cfg, order[0], s.tables[order[0]].countOrder, order[1..]);
    }
  }

  lemma {:induction false} FlushChildrenApart(s: DbState, cfg: Config, t: string, names: seq<string>, rest: seq<string>)
    requires Shaped(s) && TablesWellFormed(s.tables) && t in s.tables
    requires AllTables(s, rest) && AllCounted(s, t, names) && AllKeysApart(s.tables)
    ensures var r := FlushChildren(s, cfg, t, names, rest); r.Ok? ==> AllKeysApart(r.value.tables)
    decreases |rest|, |names| + 1
  {
    if names == [] {
      FlushFromApart(s, cfg, rest);
    } else {
      var step := FlushPair(s, cfg, t, names[0], s.tables[t].counts[names[0]]);
      FlushChildrenStep(s, cfg, t, names, rest);
      FlushPairApart(s, cfg, t, names[0], s.tables[t].counts[names[0]]);
      if step.Ok? {
        FlushChildrenApart(step.value, cfg, t, names[1..], rest);
      }
    }
  }

  /** Tables that had no foreign keys before flush keep them apart from their columns after it. */
  lemma FlushedKeysApart(tables: map<string, TableState>, order: seq<string>, cfg: Config)
    requires TablesWellFormed(tables) && forall i :: 0 <= i < |order| ==> order[i] in tables
    requires AllKeysApart(tables)
    ensures var r := Flushed(tables, order, cfg); r.Ok? ==> AllKeysApart(r.value.tables)
  {
    FlushFromApart(DbState(tables, EmptyGraph(tables)), cfg, order);
  }

  /**
   * Nothing stops flush from adding a foreign key named like the primary
   * key: a table `t` with one child tagged "prk_" + t gets the key
   * prk_<t>_id, and its CREATE TABLE then names that column twice.
   */
  lemma PrimaryKeyClash(s: DbState, cfg: Config, t: string)
    requires t in s.tables && Shaped(s) && !cfg.duplicity && !Inverted(cfg, 1)
    requires TablesWellFormed(s.tables) && AllKeysApart(s.tables)
    requires "prk_" + t !in s.tables[t].columns
    ensures var r := FlushPair(s, cfg, t, "prk_" + t, 1);
            && r.Ok?
            && PrimaryKey(t) in r.value.tables[t].keys
            && !Distinct(Names(DdlColumns(r.value.tables[t])))
  {
    var child := "prk_" + t;
    assert ForeignKey(child) == PrimaryKey(t);
    assert ForeignKey(child) !in s.tables[t].columns;
    FlushPairSingle(s, cfg, t, child);
    FlushPairApart(s, cfg, t, child, 1);
    var r := FlushPair(s, cfg, t, child, 1);
    DdlColumnsDistinct(r.value.tables[t]);
  }
}
