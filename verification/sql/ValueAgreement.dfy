/**
 When an index and the scan's comparison (compareValues in internal/query/sql/executor.go) agree on
 a value and a literal: for every pair of values, of one type or of two, the exact condition.
 */
module ValueAgreement {
  import opened Bytes
  import opened Floats
  import opened Encoding
  import opened IndexKeys
  import opened IndexLookup
  import opened Ast
  import opened Eval
  import opened Planner
  import opened PlanMeaning

  /** The scan's test of a value against the literal. */
  predicate TestHolds(sem: Semantics, test: ColumnTest, v: Value) {
    ToBool(if test.swapped then BinaryOp(sem, test.op, test.literal, v) else BinaryOp(sem, test.op, v, test.literal))
  }

  /** The scan's test and the span that an index reads for it say the same of the value. */
  predicate SameVerdict(sem: Semantics, test: ColumnTest, v: Value) {
    TestHolds(sem, test, v) <==> InSpan(TestSpan(test), v, sem.env.ofInt)
  }

  predicate IsServed(op: Operator) { op == Eq || IsRangeOp(op) }

  /** Comparison puts the two values as the index does. */
  predicate OrderedAlike(sem: Semantics, v: Value, w: Value) {
    && (Compare(sem, v, w) < 0 <==> ValueLess(v, w, sem.env.ofInt))
    && (Compare(sem, v, w) == 0 <==> SameInIndex(v, w, sem.env.ofInt))
  }

  lemma CompareFlips(sem: Semantics, v: Value, w: Value)
    ensures Compare(sem, w, v) == -Compare(sem, v, w)
  {
    if !IsNumeric(v) && !IsNumeric(w) {
      Trichotomy(Text(v), Text(w));
      Irreflexive(Text(v));
      if Less(Text(v), Text(w)) && Less(Text(w), Text(v)) {
        Asymmetric(Text(v), Text(w));
      }
    }
  }

  /** Comparison and index put the two values differently in the direction of the operator. */
  lemma VerdictIs(sem: Semantics, test: ColumnTest, v: Value)
    requires IsServed(test.op) && test.literal != Null
    ensures var op := if test.swapped then FlipCompare(test.op) else test.op;
            var c, w, ofInt := Compare(sem, v, test.literal), test.literal, sem.env.ofInt;
            SameVerdict(sem, test, v) <==>
              match op
              case Eq => c == 0 <==> SameInIndex(v, w, ofInt)
              case Lt => c < 0 <==> ValueLess(v, w, ofInt)
              case Gte => c < 0 <==> ValueLess(v, w, ofInt)
              case _ => c > 0 <==> ValueLess(w, v, ofInt)
  {
    var w := test.literal;
    CompareFlips(sem, v, w);
    ValueTrichotomy(v, w, sem.env.ofInt);
    ValueTrichotomy(w, v, sem.env.ofInt);
  }

  /** All five operators, either way round, agree exactly when comparison orders the values as the index does. */
  lemma EveryVerdictIff(sem: Semantics, column: Name, v: Value, w: Value)
    requires w != Null
    ensures (forall op, swapped | IsServed(op) :: SameVerdict(sem, ColumnTest(column, w, op, swapped), v))
            <==> OrderedAlike(sem, v, w)
  {
    forall op, swapped | IsServed(op)
      ensures OrderedAlike(sem, v, w) ==> SameVerdict(sem, ColumnTest(column, w, op, swapped), v)
    {
      VerdictIs(sem, ColumnTest(column, w, op, swapped), v);
      ValueTrichotomy(v, w, sem.env.ofInt);
      ValueTrichotomy(w, v, sem.env.ofInt);
    }
    VerdictIs(sem, ColumnTest(column, w, Eq, false), v);
    VerdictIs(sem, ColumnTest(column, w, Lt, false), v);
    assert IsServed(Eq) && IsServed(Lt);
  }

  // ---- strings ----

  predicate IsUpper(b: Byte) { 0x41 <= b <= 0x5A }

  /** The first position where one string ends or the bytes differ. */
  function Diverge(s: Key, t: Key): (d: nat)
    ensures d <= |s| && d <= |t| && s[..d] == t[..d] && (d < |s| && d < |t| ==> s[d] != t[d])
  {
    if s == [] || t == [] || s[0] != t[0] then 0
    else
      var d := Diverge(s[1..], t[1..]) + 1;
      assert s[..d] == [s[0]] + s[1..][..d - 1] && t[..d] == [t[0]] + t[1..][..d - 1];
      d
  }

  /** An upper case letter, and a byte between it and its lower case letter that is no upper case letter. */
  predicate Between(x: Byte, y: Byte) { IsUpper(x) && x < y < x + 0x20 && !IsUpper(y) }

  /** Folding case keeps the answer to s < t: read off the first difference, and beyond it off the folded rests. */
  predicate CaseKeepsLess(s: Key, t: Key) {
    var d := Diverge(s, t);
    d == |s| || d == |t| ||
    if FoldByte(s[d]) != FoldByte(t[d]) then !Between(s[d], t[d]) && !Between(t[d], s[d])
    else (s[d] < t[d] <==> Less(Fold(s[d + 1..]), Fold(t[d + 1..])))
  }

  predicate CaseKeepsOrder(s: Key, t: Key) { CaseKeepsLess(s, t) && CaseKeepsLess(t, s) }

  lemma FoldJoins(a: Key, b: Key)
    ensures Fold(a + b) == Fold(a) + Fold(b)
  {
  }

  lemma LessFrom(s: Key, t: Key, d: nat)
    requires d <= |s| && d <= |t| && s[..d] == t[..d]
    ensures Less(s, t) <==> Less(s[d..], t[d..])
  {
    CommonPrefix(s[..d], s[d..], t[d..]);
    assert s == s[..d] + s[d..] && t == t[..d] + t[d..];
  }

  lemma FoldedFrom(s: Key, t: Key, d: nat)
    requires d <= |s| && d <= |t| && s[..d] == t[..d]
    ensures Less(Fold(s), Fold(t)) <==> Less(Fold(s[d..]), Fold(t[d..]))
  {
    var p, x, y := s[..d], s[d..], t[d..];
    assert s == p + x && t == p + y;
    FoldedBehind(p, x, y);
  }

  lemma FoldedBehind(p: Key, x: Key, y: Key)
    ensures Less(Fold(p + x), Fold(p + y)) <==> Less(Fold(x), Fold(y))
  {
    FoldJoins(p, x);
    FoldJoins(p, y);
    CommonPrefix(Fold(p), Fold(x), Fold(y));
  }

  lemma HeadDecides(s: Key, t: Key)
    requires s != [] && t != []
    ensures Less(s, t) <==> s[0] < t[0] || (s[0] == t[0] && Less(s[1..], t[1..]))
  {
  }

  lemma FoldedLessIff(s: Key, t: Key)
    ensures (Less(Fold(s), Fold(t)) <==> Less(s, t)) <==> CaseKeepsLess(s, t)
  {
    var d := Diverge(s, t);
    var x, y := s[d..], t[d..];
    LessFrom(s, t, d);
    FoldedFrom(s, t, d);
    if x != [] && y != [] {
      HeadDecides(x, y);
      HeadDecides(Fold(x), Fold(y));
      assert Fold(x)[1..] == Fold(s[d + 1..]) && Fold(y)[1..] == Fold(t[d + 1..]);
      assert x[0] == s[d] && y[0] == t[d];
    } else {
      EndsDecide(x, y);
    }
  }

  lemma EndsDecide(x: Key, y: Key)
    requires x == [] || y == []
    ensures Less(Fold(x), Fold(y)) <==> Less(x, y)
  {
    assert (Fold(x) == [] <==> x == []) && (Fold(y) == [] <==> y == []);
  }

  /** Equal folds of different strings are never in order. */
  lemma KeptApart(s: Key, t: Key)
    requires CaseKeepsOrder(s, t)
    ensures Fold(s) == Fold(t) <==> s == t
  {
    FoldedLessIff(s, t);
    FoldedLessIff(t, s);
    Trichotomy(s, t);
    Irreflexive(Fold(s));
  }

  /** On two strings comparison and index agree exactly when folding case keeps both orders. */
  lemma StringsAlikeIff(sem: Semantics, s: Key, t: Key)
    ensures OrderedAlike(sem, Str(s), Str(t)) <==> CaseKeepsOrder(s, t)
  {
    FoldedLessIff(s, t);
    FoldedLessIff(t, s);
    Trichotomy(s, t);
    Trichotomy(Fold(s), Fold(t));
    Irreflexive(s);
    Irreflexive(Fold(s));
    if Less(s, t) && Less(t, s) {
      Asymmetric(s, t);
    }
    if Less(Fold(s), Fold(t)) && Less(Fold(t), Fold(s)) {
      Asymmetric(Fold(s), Fold(t));
    }
    if CaseKeepsOrder(s, t) {
      KeptApart(s, t);
    }
  }

  // ---- numbers ----

  lemma NumbersInIndex(a: Bits, b: Bits, ofInt: OfInt)
    ensures ValueLess(Num(a), Num(b), ofInt) <==> OrderBits(a) < OrderBits(b)
    ensures SameInIndex(Num(a), Num(b), ofInt) <==> OrderBits(a) == OrderBits(b)
  {
    EightBytes();
    BigEndianOrder(OrderBits(a), OrderBits(b), 8);
  }

  /** Negative zero stands only against itself or positive numbers; a NaN, which equals everything, only against its own bits. */
  predicate NumberKeepsOrder(a: Bits, b: Bits) {
    if IsNaN(a) || IsNaN(b) then OrderBits(a) == OrderBits(b)
    else !ZeroInTheWay(a, b) && !ZeroInTheWay(b, a)
  }

  lemma NumbersAlikeIff(sem: Semantics, v: Value, w: Value)
    requires IsNumeric(v) && IsNumeric(w)
    ensures OrderedAlike(sem, v, w) <==> NumberKeepsOrder(ToFloat(sem, v), ToFloat(sem, w))
  {
    var a, b := ToFloat(sem, v), ToFloat(sem, w);
    NumericInIndex(sem, v, w);
    NumberKeepsIff(a, b);
  }

  lemma NumericInIndex(sem: Semantics, v: Value, w: Value)
    requires IsNumeric(v) && IsNumeric(w)
    ensures ValueLess(v, w, sem.env.ofInt) <==> OrderBits(ToFloat(sem, v)) < OrderBits(ToFloat(sem, w))
    ensures SameInIndex(v, w, sem.env.ofInt) <==> OrderBits(ToFloat(sem, v)) == OrderBits(ToFloat(sem, w))
  {
    NumbersInIndex(ToFloat(sem, v), ToFloat(sem, w), sem.env.ofInt);
  }

  lemma NumberKeepsIff(a: Bits, b: Bits)
    ensures NumberKeepsOrder(a, b) <==>
            && (CompareFloat(a, b) < 0 <==> OrderBits(a) < OrderBits(b))
            && (CompareFloat(a, b) == 0 <==> OrderBits(a) == OrderBits(b))
  {
    if !IsNaN(a) && !IsNaN(b) {
      OrderBitsOrderIff(a, b);
      OrderBitsOrderIff(b, a);
      OnlyZerosAreZero(a);
      OnlyZerosAreZero(b);
    }
  }

  // ---- any two values ----

  /**
   What comparison and index need to agree.  NULL comes first for both.  The index puts booleans before
   numbers before strings; comparison puts booleans behind numbers, compares a boolean's text with a
   string, and a number with what a string reads as, if it reads as a number.
   */
  predicate KeepsOrder(sem: Semantics, v: Value, w: Value) {
    if v == Null || w == Null || (v.Bool? && w.Bool?) then true
    else if IsNumeric(v) && IsNumeric(w) then NumberKeepsOrder(ToFloat(sem, v), ToFloat(sem, w))
    else if v.Str? && w.Str? then CaseKeepsOrder(v.s, w.s)
    else if v.Str? then OtherBeforeString(sem, w, v.s)
    else if w.Str? then OtherBeforeString(sem, v, w.s)
    else false
  }

  predicate OtherBeforeString(sem: Semantics, v: Value, s: Key) {
    if v.Bool? then Less(Text(v), s)
    else sem.parse(s).None? || FloatLess(ToFloat(sem, v), sem.parse(s).value)
  }

  lemma OtherAlikeIff(sem: Semantics, v: Value, s: Key)
    requires v.Bool? || IsNumeric(v)
    ensures OrderedAlike(sem, v, Str(s)) <==> OtherBeforeString(sem, v, s)
  {
  }

  lemma AlikeFlips(sem: Semantics, v: Value, w: Value)
    ensures OrderedAlike(sem, v, w) <==> OrderedAlike(sem, w, v)
  {
    CompareFlips(sem, v, w);
    ValueTrichotomy(v, w, sem.env.ofInt);
    ValueTrichotomy(w, v, sem.env.ofInt);
  }

  /** For any two values, comparison puts them as the index does exactly under KeepsOrder. */
  lemma AlikeIff(sem: Semantics, v: Value, w: Value)
    ensures OrderedAlike(sem, v, w) <==> KeepsOrder(sem, v, w)
  {
    Irreflexive([]);
    if IsNumeric(v) && IsNumeric(w) {
      NumbersAlikeIff(sem, v, w);
    } else if v.Str? && w.Str? {
      StringsAlikeIff(sem, v.s, w.s);
    } else if v.Str? && w != Null {
      AlikeFlips(sem, v, w);
      OtherAlikeIff(sem, w, v.s);
    } else if w.Str? && v != Null {
      OtherAlikeIff(sem, v, w.s);
    }
  }

  // ---- ranges against NULL ----

  /** A range test with NULL reads the whole index; comparison with NULL looks at whether the value is NULL. */
  predicate NullKeeps(op: Operator, v: Value) {
    match op
    case Lt => false
    case Lte => v == Null
    case Gt => v != Null
    case _ => true
  }

  lemma NullVerdictIff(sem: Semantics, test: ColumnTest, v: Value)
    requires IsRangeOp(test.op) && test.literal == Null
    ensures SameVerdict(sem, test, v) <==> NullKeeps(if test.swapped then FlipCompare(test.op) else test.op, v)
    ensures InSpan(TestSpan(test), v, sem.env.ofInt)
  {
  }

  // ---- rows without a value ----

  /** NULL, which a row without the column shows, is below everything else. */
  predicate NullPasses(op: Operator, literal: Value) {
    match op
    case Lt => literal != Null
    case Lte => true
    case Gt => false
    case _ => literal == Null
  }

  lemma NullPassesIff(sem: Semantics, test: ColumnTest)
    requires IsServed(test.op)
    ensures TestHolds(sem, test, Null) <==> NullPasses(if test.swapped then FlipCompare(test.op) else test.op, test.literal)
  {
  }
}
