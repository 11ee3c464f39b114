/**
 * The column type lattice of xml2ddl.py: classifying a literal, merging it
 * into the type a column already has (get_data_type), and deciding whether a
 * value of one type can be stored in a column of another (data_type_usable).
 */
module DataTypes {
  import opened Wrappers
  import opened Text

  /** BIT < INT < FLOAT < NVARCHAR < NTEXT. */
  datatype DataType = BIT | INT | FLOAT | NVARCHAR | NTEXT

  function Rank(t: DataType): nat {
    match t
    case BIT => 0
    case INT => 1
    case FLOAT => 2
    case NVARCHAR => 3
    case NTEXT => 4
  }

  /** Lattice order: `a` is at most as wide as `b`. */
  predicate Below(a: DataType, b: DataType) {
    Rank(a) <= Rank(b)
  }

  /** The wider of two types: the least upper bound in the lattice. */
  function Join(a: DataType, b: DataType): (j: DataType)
    ensures Below(a, j) && Below(b, j)
    ensures j == a || j == b
  {
    if Rank(a) >= Rank(b) then a else b
  }

  // ---------------------------------------------------------------------
  // Recognisers for the four patterns tried by get_data_type, over ASCII.

  /** (^1$)|(^0$)|(^True$)|(^False$) */
  predicate IsBitLiteral(s: string) {
    s == "1" || s == "0" || s == "True" || s == "False"
  }

  /** ^[0-9]+$ */
  predicate IsIntLiteral(s: string) {
    |s| > 0 && AllDigits(s)
  }

  /**
   * States of a deterministic automaton for ^[-+]?\d*\.?\d+((e|E)[-+]?\d+)?$ :
   * an optional sign, then digits, or digits, a point and digits, then an
   * optional exponent.
   */
  datatype FloatState =
    | Start       // nothing read
    | Signed      // read the sign
    | Whole       // read digits before any point (accepting)
    | Point       // read the decimal point, a digit must follow
    | Fraction    // read digits after the point (accepting)
    | Exp         // read e or E
    | ExpSigned   // read the exponent's sign
    | ExpDigits   // read exponent digits (accepting)
    | Reject

  predicate IsSign(c: char) {
    c == '+' || c == '-'
  }

  predicate IsExpMark(c: char) {
    c == 'e' || c == 'E'
  }

  function FloatStep(q: FloatState, c: char): FloatState {
    match q
    case Start =>
      if IsSign(c) then Signed else if IsDigit(c) then Whole else if c == '.' then Point else Reject
    case Signed =>
      if IsDigit(c) then Whole else if c == '.' then Point else Reject
    case Whole =>
      if IsDigit(c) then Whole else if c == '.' then Point else if IsExpMark(c) then Exp else Reject
    case Point =>
      if IsDigit(c) then Fraction else Reject
    case Fraction =>
      if IsDigit(c) then Fraction else if IsExpMark(c) then Exp else Reject
    case Exp =>
      if IsSign(c) then ExpSigned else if IsDigit(c) then ExpDigits else Reject
    case ExpSigned =>
      if IsDigit(c) then ExpDigits else Reject
    case ExpDigits =>
      if IsDigit(c) then ExpDigits else Reject
    case Reject => Reject
  }

  function FloatRun(q: FloatState, s: string): FloatState
    decreases |s|
  {
    if s == [] then q else FloatRun(FloatStep(q, s[0]), s[1..])
  }

  predicate Accepting(q: FloatState) {
    q == Whole || q == Fraction || q == ExpDigits
  }

  /** ^[-+]?\d*\.?\d+((e|E)[-+]?\d+)?$ */
  predicate IsFloatLiteral(s: string) {
    Accepting(FloatRun(Start, s))
  }

  // ---------------------------------------------------------------------
  // get_data_type

  /** The class of one literal: the first half of get_data_type. */
  function Classify(data: string, value: bool): (t: DataType)
    ensures !value ==> t != NTEXT
    ensures value ==> t != NVARCHAR
  {
    if data == "" then BIT
    else if IsBitLiteral(data) then BIT
    else if IsIntLiteral(data) then INT
    else if IsFloatLiteral(data) then FLOAT
    else if !value then NVARCHAR
    else NTEXT
  }

  /**
   * get_data_type(data, data_type, value): the type of a column that had
   * type `prev` once it has also seen `data`. The chain of tests is the one
   * Python evaluates, `and` binding tighter than `or`.
   */
  function GetDataType(data: string, prev: DataType, value: bool): (r: DataType)
    ensures Below(prev, r)
    ensures r == prev || r == Classify(data, value)
    ensures !value && prev != NTEXT ==> r != NTEXT
  {
    var lit := Classify(data, value);
    if prev == BIT then lit
    else if (prev == INT && lit == BIT) || lit == INT then prev
    else if (prev == FLOAT && lit == BIT) || lit == INT || lit == FLOAT then prev
    else if prev == NVARCHAR && lit != NTEXT then prev
    else if prev == NTEXT then prev
    else lit
  }

  /**
   * The merge is the lattice join of the previous type and the literal's
   * class, except that an INT column stays INT on a FLOAT literal.
   */
  lemma GetDataTypeIsJoin(data: string, prev: DataType, value: bool)
    ensures var lit := Classify(data, value);
            GetDataType(data, prev, value) == if prev == INT && lit == FLOAT then INT else Join(prev, lit)
  {
  }

  /**
   * Because of that exception the merge depends on the order of the
   * samples: "1.5" then "2" gives FLOAT, "2" then "1.5" gives INT.
   */
  lemma GetDataTypeOrderMatters()
    ensures GetDataType("2", GetDataType("1.5", BIT, false), false) == FLOAT
    ensures GetDataType("1.5", GetDataType("2", BIT, false), false) == INT
  {
    ClassifyNumeral("", "1", "5", "", false);
    assert "" + "1" + "." + "5" + "" == "1.5";
    assert Classify("2", false) == INT;
  }

  /** Merging the same literal twice changes nothing more. */
  lemma GetDataTypeIdempotent(data: string, prev: DataType, value: bool)
    ensures var once := GetDataType(data, prev, value);
            GetDataType(data, once, value) == once
  {
  }

  // ---------------------------------------------------------------------
  // data_type_usable

  /**
   * data_type_usable(data1, data2): can a value of type `candidate` be kept
   * in a slot of type `target`? None stands for Python's None, which only
   * appears for a table's value slot.
   */
  function DataTypeUsable(target: Option<DataType>, candidate: Option<DataType>): (r: bool)
    ensures r <==> target.None? || target == Some(NTEXT)
                   || (candidate.Some? && Below(candidate.value, target.value))
  {
    match target
    case None => true
    case Some(BIT) => candidate == Some(BIT)
    case Some(INT) => candidate == Some(BIT) || candidate == Some(INT)
    case Some(FLOAT) => candidate == Some(BIT) || candidate == Some(INT) || candidate == Some(FLOAT)
    case Some(NVARCHAR) =>
      candidate == Some(BIT) || candidate == Some(INT) || candidate == Some(FLOAT) || candidate == Some(NVARCHAR)
    case Some(NTEXT) => true
  }

  lemma DataTypeUsableTransitive(a: Option<DataType>, b: Option<DataType>, c: Option<DataType>)
    requires DataTypeUsable(a, b) && DataTypeUsable(b, c)
    ensures DataTypeUsable(a, c)
  {
  }

  /** A merged column can still hold everything it held before. */
  lemma MergedColumnHoldsPrevious(data: string, prev: DataType, value: bool)
    ensures DataTypeUsable(Some(GetDataType(data, prev, value)), Some(prev))
  {
  }

  // ---------------------------------------------------------------------
  // The float automaton against the grammar it recognises.

  lemma {:induction false} FloatRunAppend(q: FloatState, s: string, t: string)
    ensures FloatRun(q, s + t) == FloatRun(FloatRun(q, s), t)
    decreases |s|
  {
    if s != [] {
      assert (s + t)[0] == s[0];
      assert (s + t)[1..] == s[1..] + t;
      FloatRunAppend(FloatStep(q, s[0]), s[1..], t);
    } else {
      assert s + t == t;
    }
  }

  /** A run of one or more digits moves each digit-reading part to its accepting state. */
  lemma {:induction false} FloatRunDigits(q: FloatState, d: string)
    requires IsIntLiteral(d)
    ensures q in {Start, Signed, Whole} ==> FloatRun(q, d) == Whole
    ensures q in {Point, Fraction} ==> FloatRun(q, d) == Fraction
    ensures q in {Exp, ExpSigned, ExpDigits} ==> FloatRun(q, d) == ExpDigits
    decreases |d|
  {
    var next := FloatStep(q, d[0]);
    if |d| > 1 {
      FloatRunDigits(next, d[1..]);
    } else {
      assert d[1..] == [];
    }
  }

  /** An optional sign: "", "+" or "-". */
  predicate IsSignPart(s: string) {
    s == "" || s == "+" || s == "-"
  }

  /** An optional exponent: "" or (e|E)[-+]?\d+. */
  predicate IsExponent(e: string) {
    e == [] ||
    (|e| >= 2 && IsExpMark(e[0]) &&
     (IsIntLiteral(e[1..]) || (IsSign(e[1]) && IsIntLiteral(e[2..]))))
  }

  lemma FloatRunExponent(q: FloatState, e: string)
    requires q == Whole || q == Fraction
    requires IsExponent(e)
    ensures Accepting(FloatRun(q, e))
  {
    if e != [] {
      if IsIntLiteral(e[1..]) {
        FloatRunDigits(Exp, e[1..]);
      } else {
        assert e[1..][1..] == e[2..];
        FloatRunDigits(ExpSigned, e[2..]);
      }
    }
  }

  lemma FloatRunSign(sign: string)
    requires IsSignPart(sign)
    ensures FloatRun(Start, sign) in {Start, Signed}
  {
    if sign != "" {
      assert sign[1..] == [];
    }
  }

  /** Every numeral of the grammar [-+]? (\d+ | \d* . \d+) ((e|E)[-+]?\d+)? is accepted. */
  lemma FloatGrammarAccepted(sign: string, whole: string, frac: string, exp: string)
    requires IsSignPart(sign) && AllDigits(whole) && IsIntLiteral(frac) && IsExponent(exp)
    ensures IsFloatLiteral(sign + frac + exp)
    ensures IsFloatLiteral(sign + whole + "." + frac + exp)
  {
    FloatRunSign(sign);
    var q := FloatRun(Start, sign);
    FloatRunDigits(q, frac);
    FloatRunAppend(Start, sign, frac);
    FloatRunAppend(Start, sign + frac, exp);
    FloatRunExponent(Whole, exp);

    var afterWhole := FloatRun(q, whole);
    if whole == [] {
      assert afterWhole == q;
    } else {
      FloatRunDigits(q, whole);
    }
    FloatRunAppend(Start, sign, whole);
    FloatRunAppend(Start, sign + whole, ".");
    assert FloatRun(afterWhole, ".") == Point;
    FloatRunDigits(Point, frac);
    FloatRunAppend(Start, sign + whole + ".", frac);
    FloatRunAppend(Start, sign + whole + "." + frac, exp);
    FloatRunExponent(Fraction, exp);
  }

  /** Every accepted numeral ends with a digit. */
  lemma {:induction false} FloatRunEndsInDigit(q: FloatState, s: string)
    requires s != []
    requires Accepting(FloatRun(q, s))
    ensures IsDigit(s[|s| - 1])
    decreases |s|
  {
    if |s| == 1 {
      assert FloatRun(q, s) == FloatStep(q, s[0]);
    } else {
      FloatRunEndsInDigit(FloatStep(q, s[0]), s[1..]);
    }
  }

  // ---------------------------------------------------------------------
  // The converse: the automaton accepts numerals of that grammar and nothing else.

  lemma {:induction false} RejectStays(s: string)
    ensures FloatRun(Reject, s) == Reject
    decreases |s|
  {
    if s != [] {
      RejectStays(s[1..]);
    }
  }

  /** A character the automaton refuses in state `q` makes the whole run fail. */
  lemma StepRejects(q: FloatState, s: string)
    ensures s != [] && FloatStep(q, s[0]) == Reject ==> FloatRun(q, s) == Reject
  {
    if s != [] && FloatStep(q, s[0]) == Reject {
      RejectStays(s[1..]);
    }
  }

  /** Only digits lead from exponent digits to acceptance. */
  lemma {:induction false} AcceptedFromExpDigits(s: string)
    requires Accepting(FloatRun(ExpDigits, s))
    ensures AllDigits(s)
    decreases |s|
  {
    StepRejects(ExpDigits, s);
    if s != [] {
      AcceptedFromExpDigits(s[1..]);
      assert forall i :: 1 <= i < |s| ==> s[i] == s[1..][i - 1];
    }
  }

  /** After the exponent's sign, one or more digits. */
  lemma AcceptedFromExpSigned(s: string)
    requires Accepting(FloatRun(ExpSigned, s))
    ensures IsIntLiteral(s)
  {
    StepRejects(ExpSigned, s);
    AcceptedFromExpDigits(s[1..]);
    assert forall i :: 1 <= i < |s| ==> s[i] == s[1..][i - 1];
  }

  /** After e or E, what is accepted completes an exponent. */
  lemma AcceptedFromExp(c: char, s: string)
    requires IsExpMark(c)
    requires Accepting(FloatRun(Exp, s))
    ensures IsExponent([c] + s)
  {
    StepRejects(Exp, s);
    var e := [c] + s;
    assert e[1..] == s;
    if IsDigit(s[0]) {
      AcceptedFromExpDigits(s[1..]);
      assert forall i :: 1 <= i < |s| ==> s[i] == s[1..][i - 1];
    } else {
      AcceptedFromExpSigned(s[1..]);
      assert e[2..] == s[1..];
    }
  }

  /** After digits that follow the point: more digits, then an optional exponent. */
  lemma {:induction false} AcceptedFromFraction(s: string) returns (d: string, e: string)
    requires Accepting(FloatRun(Fraction, s))
    ensures AllDigits(d) && IsExponent(e) && s == d + e
    decreases |s|
  {
    StepRejects(Fraction, s);
    if s == [] {
      d, e := [], [];
    } else if IsDigit(s[0]) {
      var rest;
      rest, e := AcceptedFromFraction(s[1..]);
      d := [s[0]] + rest;
      assert forall i :: 1 <= i < |d| ==> d[i] == rest[i - 1];
      assert s == [s[0]] + s[1..];
    } else {
      AcceptedFromExp(s[0], s[1..]);
      assert [s[0]] + s[1..] == s;
      d, e := [], s;
    }
  }

  /** After the point: one or more digits, then an optional exponent. */
  lemma AcceptedFromPoint(s: string) returns (f: string, e: string)
    requires Accepting(FloatRun(Point, s))
    ensures IsIntLiteral(f) && IsExponent(e) && s == f + e
  {
    StepRejects(Point, s);
    var rest;
    rest, e := AcceptedFromFraction(s[1..]);
    f := [s[0]] + rest;
    assert forall i :: 1 <= i < |f| ==> f[i] == rest[i - 1];
    assert s == [s[0]] + s[1..];
  }

  /**
   * After digits before any point: more digits, then either an optional
   * exponent, or a point, one or more digits and an optional exponent.
   */
  lemma {:induction false} AcceptedFromWhole(s: string) returns (d: string, f: string, e: string, dotted: bool)
    requires Accepting(FloatRun(Whole, s))
    ensures AllDigits(d) && IsExponent(e)
    ensures dotted ==> IsIntLiteral(f) && s == d + "." + f + e
    ensures !dotted ==> s == d + e
    decreases |s|
  {
    StepRejects(Whole, s);
    if s == [] {
      d, f, e, dotted := [], [], [], false;
    } else if IsDigit(s[0]) {
      var rest;
      rest, f, e, dotted := AcceptedFromWhole(s[1..]);
      d := [s[0]] + rest;
      assert forall i :: 1 <= i < |d| ==> d[i] == rest[i - 1];
      assert s == [s[0]] + s[1..];
      if dotted {
        assert s == [s[0]] + (rest + "." + f + e);
      } else {
        assert s == [s[0]] + (rest + e);
      }
    } else if s[0] == '.' {
      f, e := AcceptedFromPoint(s[1..]);
      d, dotted := [], true;
      assert s == "." + s[1..];
    } else {
      AcceptedFromExp(s[0], s[1..]);
      assert [s[0]] + s[1..] == s;
      d, f, e, dotted := [], [], s, false;
    }
  }

  /** After the optional sign: a numeral without its sign. */
  lemma AcceptedFromSigned(s: string) returns (whole: string, frac: string, exp: string, dotted: bool)
    requires Accepting(FloatRun(Signed, s))
    ensures AllDigits(whole) && IsIntLiteral(frac) && IsExponent(exp)
    ensures dotted ==> s == whole + "." + frac + exp
    ensures !dotted ==> s == frac + exp
  {
    StepRejects(Signed, s);
    if IsDigit(s[0]) {
      var d, f, e, dot := AcceptedFromWhole(s[1..]);
      var lead := [s[0]] + d;
      assert forall i :: 1 <= i < |lead| ==> lead[i] == d[i - 1];
      assert s == [s[0]] + s[1..];
      if dot {
        assert s == lead + "." + f + e;
        whole, frac, exp, dotted := lead, f, e, true;
      } else {
        assert s == lead + e;
        whole, frac, exp, dotted := [], lead, e, false;
      }
    } else {
      frac, exp := AcceptedFromPoint(s[1..]);
      whole, dotted := [], true;
      assert s == "." + s[1..];
    }
  }

  /** `s` is the numeral made of these parts: with a point when `whole` is followed by one. */
  predicate NumeralParts(s: string, sign: string, whole: string, frac: string, exp: string) {
    IsSignPart(sign) && AllDigits(whole) && IsIntLiteral(frac) && IsExponent(exp) &&
    (s == sign + frac + exp || s == sign + whole + "." + frac + exp)
  }

  /** Numerals of the grammar [-+]? (\d+ | \d* . \d+) ((e|E)[-+]?\d+)?. */
  ghost predicate IsNumeral(s: string) {
    exists sign, whole, frac, exp :: NumeralParts(s, sign, whole, frac, exp)
  }

  /** A sign part followed by an unsigned numeral's parts is a numeral. */
  lemma SignedNumeral(sign: string, rest: string, whole: string, frac: string, exp: string, dotted: bool)
    requires IsSignPart(sign) && AllDigits(whole) && IsIntLiteral(frac) && IsExponent(exp)
    requires dotted ==> rest == whole + "." + frac + exp
    requires !dotted ==> rest == frac + exp
    ensures NumeralParts(sign + rest, sign, whole, frac, exp)
  {
    if dotted {
      assert sign + rest == sign + whole + "." + frac + exp;
    } else {
      assert sign + rest == sign + frac + exp;
    }
  }

  /** The automaton accepts only numerals. */
  lemma FloatLiteralIsNumeral(s: string)
    requires IsFloatLiteral(s)
    ensures IsNumeral(s)
  {
    StepRejects(Start, s);
    var sign := if IsSign(s[0]) then s[..1] else [];
    var rest := s[|sign|..];
    assert s == sign + rest;
    assert FloatRun(Start, s) == FloatRun(Signed, rest);
    var whole, frac, exp, dotted := AcceptedFromSigned(rest);
    SignedNumeral(sign, rest, whole, frac, exp, dotted);
  }

  /** Every numeral is accepted: FloatGrammarAccepted for some choice of parts. */
  lemma NumeralIsFloatLiteral(s: string)
    requires IsNumeral(s)
    ensures IsFloatLiteral(s)
  {
    var sign, whole, frac, exp :| NumeralParts(s, sign, whole, frac, exp);
    FloatGrammarAccepted(sign, whole, frac, exp);
  }

  /** The float recogniser is exactly the grammar. */
  lemma FloatLiteralIffNumeral(s: string)
    ensures IsFloatLiteral(s) <==> IsNumeral(s)
  {
    if IsFloatLiteral(s) {
      FloatLiteralIsNumeral(s);
    }
    if IsNumeral(s) {
      NumeralIsFloatLiteral(s);
    }
  }

  /**
   * Classification in full: FLOAT exactly for the numerals that are not BIT
   * or INT literals, and NVARCHAR (attribute) or NTEXT (value) exactly for
   * the non-empty strings that are none of BIT, INT or a numeral.
   */
  lemma ClassifyExactly(s: string, value: bool)
    ensures Classify(s, value) == FLOAT <==> !IsBitLiteral(s) && !IsIntLiteral(s) && IsNumeral(s)
    ensures Classify(s, value) == (if value then NTEXT else NVARCHAR) <==>
              s != "" && !IsBitLiteral(s) && !IsIntLiteral(s) && !IsNumeral(s)
  {
    FloatLiteralIffNumeral(s);
    if s == "" {
      assert FloatRun(Start, s) == Start;
    }
  }

  /** Precedence: an all-digit string also matches the float pattern, so INT must be tried first. */
  lemma IntLiteralIsFloatLiteral(s: string)
    requires IsIntLiteral(s)
    ensures IsFloatLiteral(s)
  {
    FloatRunDigits(Start, s);
  }

  /** A decimal numeral, or an integer with a sign or an exponent, is classified FLOAT. */
  lemma ClassifyNumeral(sign: string, whole: string, frac: string, exp: string, value: bool)
    requires IsSignPart(sign) && AllDigits(whole) && IsIntLiteral(frac) && IsExponent(exp)
    ensures Classify(sign + whole + "." + frac + exp, value) == FLOAT
    ensures sign != "" || exp != "" ==> Classify(sign + frac + exp, value) == FLOAT
  {
    FloatGrammarAccepted(sign, whole, frac, exp);
    var decimal := sign + whole + "." + frac + exp;
    assert decimal[|sign| + |whole|] == '.';
    assert !IsBitLiteral(decimal) by {
      if sign == "" && whole == "" {
        assert decimal[0] == '.';
      } else if sign != "" {
        assert decimal[0] == sign[0];
      } else {
        assert decimal[0] == whole[0];
      }
    }
    if sign != "" || exp != "" {
      var numeral := sign + frac + exp;
      if sign != "" {
        assert numeral[0] == sign[0] && !IsDigit(numeral[0]);
      } else {
        assert numeral[|frac|] == exp[0] && !IsDigit(numeral[|frac|]);
        assert !IsBitLiteral(numeral) by {
          assert numeral[0] == frac[0];
        }
      }
    }
  }

  /** The Python precedence quirk: an INT column stays INT when a FLOAT literal arrives. */
  lemma IntColumnIgnoresFloat(data: string, value: bool)
    requires Classify(data, value) == FLOAT
    ensures GetDataType(data, INT, value) == INT
    ensures !DataTypeUsable(Some(GetDataType(data, INT, value)), Some(Classify(data, value)))
  {
  }
}
