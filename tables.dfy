/**
 * One inferred table (class Table of xml2ddl.py): the types of its attribute
 * columns, the largest number of times each child tag occurred under one
 * element, the foreign keys generated by Database.flush, and the type of the
 * element's text ("value").
 *
 * TableState is the value of a table's fields; the functions on it say what
 * each method of Table does, and the class Table below performs it in place.
 */
module Tables {
  import opened Wrappers
  import opened Text
  import opened DataTypes

  /** The exceptions raised while inferring a schema. */
  datatype Fault =
    | NameError         // XTDNameError: a generated or attribute name collides
    | KeyError(key: string)  // Python's KeyError on a table name that is not an entry

  /** Python dicts are insertion ordered: each dict is a map plus its key order. */
  datatype TableState = TableState(
    name: string,
    columns: map<string, DataType>,   // __columns
    columnOrder: seq<string>,
    counts: map<string, nat>,         // __relations: child tag -> largest count
    countOrder: seq<string>,
    keys: seq<string>,                // __keys, in insertion order (all of type INT)
    value: Option<DataType>)          // __value

  function PrimaryKey(table: string): string {
    "prk_" + table + "_id"
  }

  function ForeignKey(ref: string): string {
    ref + "_id"
  }

  /** dict.get(key, default) */
  function Get<V>(m: map<string, V>, key: string, default: V): V {
    if key in m then m[key] else default
  }

  function Max(a: nat, b: nat): nat {
    if a >= b then a else b
  }

  /** The invariants every table keeps between method calls. */
  ghost predicate WellFormed(t: TableState) {
    && Distinct(t.columnOrder) && (forall c :: c in t.columns <==> c in t.columnOrder)
    && Distinct(t.countOrder) && (forall c :: c in t.counts <==> c in t.countOrder)
    && Distinct(t.keys)
    && "value" !in t.columns
    && PrimaryKey(t.name) !in t.columns
  }

  function EmptyTable(name: string): (t: TableState)
    ensures WellFormed(t)
  {
    TableState(name, map[], [], map[], [], [], None)
  }

  /**
   * update_value: the value slot gets the merge of the text into
   * columns.get("value", "BIT"), a column that update_attribute never creates.
   */
  function WithValue(t: TableState, data: string): TableState {
    t.(value := Some(GetDataType(data, Get(t.columns, "value", BIT), true)))
  }

  /** So the value slot holds the class of the latest text only: it is never widened. */
  lemma ValueSlotIsLatestClass(t: TableState, data: string)
    requires WellFormed(t)
    ensures WithValue(t, data).value == Some(Classify(data, true))
    ensures WellFormed(WithValue(t, data))
  {
  }

  /**
   * update_attribute: the attribute "value" goes to the value slot, the
   * primary key's name is refused, anything else is merged into its column.
   */
  function WithAttribute(t: TableState, column: string, data: string): (r: Result<TableState, Fault>)
    ensures r.Err? <==> column != "value" && column == PrimaryKey(t.name)
    ensures r.Err? ==> r.error == NameError
  {
    if column == "value" then Ok(WithValue(t, data))
    else if column == PrimaryKey(t.name) then Err(NameError)
    else
      var order := if column in t.columns then t.columnOrder else t.columnOrder + [column];
      Ok(t.(columns := t.columns[column := GetDataType(data, Get(t.columns, column, BIT), false)], columnOrder := order))
  }

  /**
   * What update_attribute keeps: the invariants, the column set grows by the
   * attribute (never by "value"), a column never narrows and never becomes
   * NTEXT, and nothing but the columns and the value slot changes.
   */
  lemma WithAttributeProperties(t: TableState, column: string, data: string)
    requires WellFormed(t)
    requires WithAttribute(t, column, data).Ok?
    ensures var u := WithAttribute(t, column, data).value;
            && WellFormed(u)
            && u.name == t.name && u.counts == t.counts && u.countOrder == t.countOrder && u.keys == t.keys
            && u.columns.Keys == (if column == "value" then t.columns.Keys else t.columns.Keys + {column})
            && (forall c :: c in t.columns ==> Below(t.columns[c], u.columns[c]))
            && (forall c :: c in u.columns && c !in t.columns ==> u.columns[c] != NTEXT)
            && (forall c :: c in t.columns && t.columns[c] != NTEXT ==> u.columns[c] != NTEXT)
  {
  }

  /** One step of update_relations: keep the larger of the stored and the new count. */
  function WithCount(t: TableState, rel: string, count: nat): TableState {
    var order := if rel in t.counts then t.countOrder else t.countOrder + [rel];
    t.(counts := t.counts[rel := Max(Get(t.counts, rel, 0), count)], countOrder := order)
  }

  /** update_relations(relations): WithCount for each item of the dict, in order. */
  function WithCounts(t: TableState, items: seq<(string, nat)>): (r: TableState)
    ensures r.name == t.name && r.columns == t.columns && r.columnOrder == t.columnOrder
    ensures r.keys == t.keys && r.value == t.value
    ensures WellFormed(t) ==> WellFormed(r)
  {
    if items == [] then t
    else
      var last := items[|items| - 1];
      WithCount(WithCounts(t, items[..|items| - 1]), last.0, last.1)
  }

  /** The child tags of a table after update_relations: those it had and those seen. */
  lemma {:induction false} WithCountsTags(t: TableState, items: seq<(string, nat)>)
    ensures forall c :: c in WithCounts(t, items).counts <==>
                          c in t.counts || exists i :: 0 <= i < |items| && items[i].0 == c
  {
    if items != [] {
      var init := items[..|items| - 1];
      WithCountsTags(t, init);
      forall c | c in WithCounts(t, items).counts
        ensures c in t.counts || exists i :: 0 <= i < |items| && items[i].0 == c
      {
        if c != items[|items| - 1].0 && c !in t.counts {
          var i :| 0 <= i < |init| && init[i].0 == c;
          assert items[i] == init[i];
        }
      }
      forall c | exists i :: 0 <= i < |items| && items[i].0 == c
        ensures c in WithCounts(t, items).counts
      {
        var i :| 0 <= i < |items| && items[i].0 == c;
        if i < |init| {
          assert init[i] == items[i];
        }
      }
    }
  }

  /** A stored count never decreases. */
  lemma {:induction false} WithCountsGrows(t: TableState, items: seq<(string, nat)>)
    ensures forall c :: c in t.counts ==> c in WithCounts(t, items).counts &&
                                          WithCounts(t, items).counts[c] >= t.counts[c]
  {
    if items != [] {
      WithCountsGrows(t, items[..|items| - 1]);
    }
  }

  /** A stored count is at least every count observed for its tag. */
  lemma {:induction false} WithCountsBound(t: TableState, items: seq<(string, nat)>)
    ensures forall i :: 0 <= i < |items| ==> items[i].0 in WithCounts(t, items).counts &&
                                             WithCounts(t, items).counts[items[i].0] >= items[i].1
  {
    if items != [] {
      var init := items[..|items| - 1];
      WithCountsBound(t, init);
      forall i | 0 <= i < |init|
        ensures items[i] == init[i]
      {
      }
    }
  }

  /** A stored count is the one it had or one that was observed: it is the maximum. */
  lemma {:induction false} WithCountsAttained(t: TableState, items: seq<(string, nat)>)
    ensures forall c :: c in WithCounts(t, items).counts ==>
              (c in t.counts && WithCounts(t, items).counts[c] == t.counts[c]) ||
              (exists i :: 0 <= i < |items| && items[i] == (c, WithCounts(t, items).counts[c]))
  {
    if items != [] {
      var init := items[..|items| - 1];
      var last := items[|items| - 1];
      WithCountsAttained(t, init);
      var m := WithCounts(t, init);
      var r := WithCounts(t, items);
      forall c | c in r.counts
        ensures (c in t.counts && r.counts[c] == t.counts[c]) ||
                (exists i :: 0 <= i < |items| && items[i] == (c, r.counts[c]))
      {
        if c == last.0 && r.counts[c] == last.1 {
          assert items[|items| - 1] == (c, r.counts[c]);
        } else if !(c in t.counts && r.counts[c] == t.counts[c]) {
          assert c in m.counts && r.counts[c] == m.counts[c];
          var i :| 0 <= i < |init| && init[i] == (c, m.counts[c]);
          assert items[i] == init[i];
        }
      }
    }
  }

  /** Three elements with 2, 5 and 1 children of one tag leave the count at 5. */
  lemma CountsKeepMaximumExample(t: TableState)
    requires "pet" !in t.counts
    ensures WithCounts(WithCounts(WithCounts(t, [("pet", 2)]), [("pet", 5)]), [("pet", 1)]).counts["pet"] == 5
  {
    var one: seq<(string, nat)> := [("pet", 2)];
    assert one[..0] == [];
  }

  /** set_key(ref): add the foreign key ref_id unless an attribute column has that name. */
  function WithKey(t: TableState, ref: string): (r: Result<TableState, Fault>)
    ensures r.Err? <==> ForeignKey(ref) in t.columns
    ensures r.Err? ==> r.error == NameError
    ensures r.Ok? ==> r.value == t.(keys := r.value.keys)
    ensures r.Ok? ==> ForeignKey(ref) in r.value.keys
    ensures r.Ok? ==> forall k :: k in r.value.keys <==> k in t.keys || k == ForeignKey(ref)
    ensures r.Ok? && WellFormed(t) ==> WellFormed(r.value)
  {
    var fk := ForeignKey(ref);
    if fk in t.columns then Err(NameError)
    else Ok(t.(keys := if fk in t.keys then t.keys else t.keys + [fk]))
  }

  /** A table's fields, updated in place by its methods. */
  class Table {
    const name: string
    var columns: map<string, DataType>
    var columnOrder: seq<string>
    var counts: map<string, nat>
    var countOrder: seq<string>
    var keys: seq<string>
    var value: Option<DataType>

    function State(): TableState
      reads this
    {
      TableState(name, columns, columnOrder, counts, countOrder, keys, value)
    }

    ghost predicate Valid()
      reads this
    {
      WellFormed(State())
    }

    constructor (name: string)
      ensures Valid() && State() == EmptyTable(name)
    {
      this.name := name;
      columns, columnOrder := map[], [];
      counts, countOrder := map[], [];
      keys, value := [], None;
    }

    method UpdateRelations(items: seq<(string, nat)>)
      requires Valid()
      modifies this
      ensures Valid() && State() == WithCounts(old(State()), items)
    {
      var i := 0;
      while i < |items|
        invariant 0 <= i <= |items|
        invariant Valid()
        invariant State() == WithCounts(old(State()), items[..i])
      {
        assert items[..i + 1][..i] == items[..i];
        var rel, count := items[i].0, items[i].1;
        var prev := Get(counts, rel, 0);
        if rel !in counts {
          countOrder := countOrder + [rel];
        }
        counts := counts[rel := Max(prev, count)];
        i := i + 1;
      }
      assert items[..|items|] == items;
    }

    method UpdateValue(data: string)
      requires Valid()
      modifies this
      ensures Valid() && State() == WithValue(old(State()), data)
    {
      value := Some(GetDataType(data, Get(columns, "value", BIT), true));
    }

    method UpdateAttribute(column: string, data: string) returns (r: Result<(), Fault>)
      requires Valid()
      modifies this
      ensures Valid()
      ensures var spec := WithAttribute(old(State()), column, data);
              && (r.Ok? <==> spec.Ok?)
              && (spec.Ok? ==> State() == spec.value)
              && (spec.Err? ==> r.error == spec.error && State() == old(State()))
    {
      if column == "value" {
        UpdateValue(data);
        return Ok(());
      }
      if column == PrimaryKey(name) {
        return Err(NameError);
      }
      var prev := Get(columns, column, BIT);
      if column !in columns {
        columnOrder := columnOrder + [column];
      }
      columns := columns[column := GetDataType(data, prev, false)];
      return Ok(());
    }

    method SetKey(ref: string) returns (r: Result<(), Fault>)
      requires Valid()
      modifies this
      ensures Valid()
      ensures var spec := WithKey(old(State()), ref);
              && (r.Ok? <==> spec.Ok?)
              && (spec.Ok? ==> State() == spec.value)
              && (spec.Err? ==> r.error == spec.error && State() == old(State()))
    {
      var fk := ForeignKey(ref);
      if fk in columns {
        return Err(NameError);
      }
      if fk !in keys {
        keys := keys + [fk];
      }
      return Ok(());
    }
  }
}
