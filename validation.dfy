/**
 * Database.is_subset: a database passes when every table of the other one
 * exists here, each of its columns exists here with a type that can hold
 * the other's, and the value types fit the same way.
 */
module Validation {
  import opened Wrappers
  import opened DataTypes
  import opened Tables

  /** Every column of `theirs` is a column of `mine` whose type can hold it. */
  predicate ColumnsFit(mine: TableState, theirs: TableState) {
    forall c :: c in theirs.columns ==>
      c in mine.columns && DataTypeUsable(Some(mine.columns[c]), Some(theirs.columns[c]))
  }

  predicate TableFits(mine: TableState, theirs: TableState) {
    ColumnsFit(mine, theirs) && DataTypeUsable(mine.value, theirs.value)
  }

  /** What is_subset(db) answers, with `mine` the receiver's tables and `theirs` those of db. */
  predicate SubsetOf(mine: map<string, TableState>, theirs: map<string, TableState>) {
    forall n :: n in theirs ==> n in mine && TableFits(mine[n], theirs[n])
  }

  /** A schema accepts every document that a schema accepting it accepts. */
  lemma SubsetTransitive(a: map<string, TableState>, b: map<string, TableState>, c: map<string, TableState>)
    requires SubsetOf(a, b) && SubsetOf(b, c)
    ensures SubsetOf(a, c)
  {
    forall n | n in c ensures n in a && TableFits(a[n], c[n]) {
      DataTypeUsableTransitive(a[n].value, b[n].value, c[n].value);
      forall col | col in c[n].columns
        ensures col in a[n].columns && DataTypeUsable(Some(a[n].columns[col]), Some(c[n].columns[col]))
      {
        DataTypeUsableTransitive(Some(a[n].columns[col]), Some(b[n].columns[col]), Some(c[n].columns[col]));
      }
    }
  }

  /** Tables of the receiver that the other database lacks do not matter. */
  lemma SubsetIgnoresExtraTables(a: map<string, TableState>, b: map<string, TableState>, n: string, t: TableState)
    requires n !in b
    ensures SubsetOf(a[n := t], b) <==> SubsetOf(a, b)
  {
  }

  /** Foreign keys and child counts do not matter, so flushing either database leaves the answer alone. */
  lemma SubsetIgnoresKeys(a: map<string, TableState>, a': map<string, TableState>, b: map<string, TableState>)
    requires a.Keys == a'.Keys
    requires forall n :: n in a ==> a'[n].columns == a[n].columns && a'[n].value == a[n].value
    ensures SubsetOf(a', b) <==> SubsetOf(a, b)
  {
  }

  /**
   * More attributes merged into the receiver never make it reject a
   * database it accepted: columns only widen.
   */
  lemma AttributeKeepsSubset(a: map<string, TableState>, b: map<string, TableState>, n: string, column: string, data: string)
    requires SubsetOf(a, b) && n in a && WellFormed(a[n]) && column != "value"
    requires WithAttribute(a[n], column, data).Ok?
    ensures SubsetOf(a[n := WithAttribute(a[n], column, data).value], b)
  {
    var u := WithAttribute(a[n], column, data).value;
    WithAttributeProperties(a[n], column, data);
    if n in b {
      forall c | c in b[n].columns
        ensures c in u.columns && DataTypeUsable(Some(u.columns[c]), Some(b[n].columns[c]))
      {
        DataTypeUsableTransitive(Some(u.columns[c]), Some(a[n].columns[c]), Some(b[n].columns[c]));
      }
    }
  }

  /**
   * Because the value slot keeps only the latest text's class, one more text
   * in the receiver can make it reject a database it accepted: value INT,
   * then the text "1", gives BIT, which cannot hold INT.
   */
  lemma ValueCanBreakSubset()
    ensures var mine := TableState("t", map[], [], map[], [], [], Some(INT));
            var theirs := mine;
            && SubsetOf(map["t" := mine], map["t" := theirs])
            && !SubsetOf(map["t" := WithValue(mine, "1")], map["t" := theirs])
  {
    var mine := TableState("t", map[], [], map[], [], [], Some(INT));
    assert IsBitLiteral("1");
    assert WithValue(mine, "1").value == Some(BIT);
    assert !TableFits(WithValue(mine, "1"), mine);
    var after := map["t" := WithValue(mine, "1")];
    assert "t" in map["t" := mine] && after["t"] == WithValue(mine, "1");
    assert TableFits(mine, mine);
  }
}
