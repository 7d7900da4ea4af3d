/** The laws that fix what folding computes: each operation is characterised without the functions that define it. */
module FoldingLaws {
  import opened Graphs
  import opened IR
  import opened SccpLattice

  /** Equal in the low 32 bits. */
  ghost predicate SameWord(x: int, y: int) {
    exists k: int :: x == y + ShiftedWord(k)
  }

  function ShiftedWord(k: int): int {
    k * 0x1_0000_0000
  }

  /** The unsigned reading: the one value of 32 bits that agrees with `v` in its low 32 bits. */
  lemma UnsignedLaw(v: int)
    ensures 0 <= Unsigned(v) < 0x1_0000_0000 && SameWord(Unsigned(v), v)
    ensures -0x8000_0000 <= v < 0x8000_0000 ==> Unsigned(v) == if v < 0 then v + 0x1_0000_0000 else v
  {
    assert v == Unsigned(v) + WORD * (v / WORD);
    assert Unsigned(v) == v + ShiftedWord(-(v / WORD));
  }

  /** Bringing a number back into 32 bits: the one signed value that agrees with it there. */
  lemma WrapLaw(v: int)
    ensures SameWord(Wrap(v), v)
    ensures -0x8000_0000 <= v < 0x8000_0000 ==> Wrap(v) == v
  {
    UnsignedLaw(v);
    var k: int :| Unsigned(v) == v + ShiftedWord(k);
    assert Wrap(v) == v + ShiftedWord(k) || Wrap(v) == v + ShiftedWord(k - 1);
  }

  /** Sum, difference and product agree with the integers in the low 32 bits. */
  lemma RingLaws(a: Int32, b: Int32, isUnsigned: bool)
    ensures SameWord(FoldArithmetic(a, b, Add, isUnsigned), a + b)
    ensures SameWord(FoldArithmetic(a, b, Sub, isUnsigned), a - b)
    ensures SameWord(FoldArithmetic(a, b, Mul, isUnsigned), a * b)
  {
    hide FoldArithmetic, Wrap;
    FoldIsValue(a, b, Add, isUnsigned);
    FoldIsValue(a, b, Sub, isUnsigned);
    FoldIsValue(a, b, Mul, isUnsigned);
    WrapLaw(a + b);
    WrapLaw(a - b);
    WrapLaw(a * b);
  }

  /** Quotient and remainder of a division that rounds toward zero. */
  ghost predicate Truncates(a: int, b: int, q: int, r: int) {
    a == b * q + r && Abs(r) < Abs(b) && (r == 0 || (r < 0 <==> a < 0))
  }

  lemma TruncDivides(a: int, b: int)
    requires b != 0
    ensures Truncates(a, b, TruncDiv(a, b), TruncRem(a, b))
  {
    var x: int, y: int := Abs(a), Abs(b);
    var q: int := x / y;
    Euclid(x, y);
    var m: int := y * q;
    if b < 0 {
      NegatedFactor(y, q);
    }
    NegatedFactor(q, b);
    assert b * TruncDiv(a, b) == if a < 0 then -m else m;
  }

  lemma Euclid(x: int, y: int)
    requires y != 0
    ensures x == y * (x / y) + x % y
  {
  }

  lemma NegatedFactor(x: int, y: int)
    ensures (-x) * y == -(x * y) == y * (-x) && x * y == y * x
  {
  }

  /** A quotient is no larger than what is divided. */
  lemma QuotientBound(x: int, y: int)
    requires x >= 0 && y > 0
    ensures 0 <= x / y <= x
    ensures y > 1 && x > 0 ==> x / y < x
  {
    var q: int := x / y;
    Euclid(x, y);
    var m: int := y * q;
    if q < 0 {
      ProductOrder(y, q, -1);
    } else if q > 0 && y > 1 {
      ProductOrder(q, y, 2);
    } else if q > 0 {
      ProductOrder(q, y, 1);
    }
  }

  lemma ProductOrder(x: int, y: int, z: int)
    requires x > 0
    ensures y <= z ==> x * y <= x * z && y * x <= z * x
    ensures z <= y ==> x * z <= x * y && z * x <= y * x
  {
  }

  /** No quotient but that of the most negative value by -1 leaves the 32 bits. */
  lemma QuotientFits(a: Int32, b: Int32)
    requires b != 0 && !(a == INT_MIN && b == -1)
    ensures -0x8000_0000 <= TruncDiv(a, b) < 0x8000_0000
  {
    QuotientBound(Abs(a), Abs(b));
  }

  lemma RemainderFits(a: Int32, b: Int32)
    requires b != 0
    ensures -0x8000_0000 <= TruncRem(a, b) < 0x8000_0000
  {
    TruncDivides(a, b);
    hide TruncRem;
  }

  lemma FoldSigned(a: Int32, b: Int32)
    requires b != 0 && !(a == INT_MIN && b == -1)
    ensures FoldArithmetic(a, b, Div, false) == TruncDiv(a, b)
    ensures FoldArithmetic(a, b, Rem, false) == TruncRem(a, b)
  {
    hide TruncDiv, TruncRem, Wrap;
    QuotientFits(a, b);
    RemainderFits(a, b);
    WrapLaw(TruncDiv(a, b));
    WrapLaw(TruncRem(a, b));
  }

  /** Folding a signed division rounds toward zero. */
  lemma SignedDivisionLaw(a: Int32, b: Int32)
    requires b != 0 && !(a == INT_MIN && b == -1)
    ensures Truncates(a, b, FoldArithmetic(a, b, Div, false), FoldArithmetic(a, b, Rem, false))
  {
    hide FoldArithmetic, TruncDiv, TruncRem, Truncates;
    FoldSigned(a, b);
    TruncDivides(a, b);
  }

  /** There is only one such pair, so the law fixes both results. */
  lemma TruncationUnique(a: int, b: int, q: int, r: int, q2: int, r2: int)
    requires b != 0 && Truncates(a, b, q, r) && Truncates(a, b, q2, r2)
    ensures q == q2 && r == r2
  {
    var d: int := q - q2;
    FactorOut(b, q, q2);
    var p: int := b * d;
    assert p == r2 - r;
    LargeProduct(b, d);
  }

  lemma FactorOut(b: int, q: int, q2: int)
    ensures b * (q - q2) == b * q - b * q2
  {
  }

  lemma LargeProduct(b: int, d: int)
    ensures d != 0 ==> b * d >= Abs(b) || b * d + Abs(b) <= 0
    ensures d == 0 ==> b * d == 0
  {
    if b > 0 && d != 0 {
      ProductOrder(b, d, 1);
      ProductOrder(b, d, -1);
    } else if b < 0 && d != 0 {
      NegatedFactor(b, d);
      ProductOrder(-b, d, 1);
      ProductOrder(-b, d, -1);
    }
  }

  /** Dividing by zero is folded too: to the dividend, with remainder 0. */
  lemma ZeroDivisorLaw(a: Int32, isUnsigned: bool)
    ensures FoldArithmetic(a, 0, Div, isUnsigned) == a && FoldArithmetic(a, 0, Rem, isUnsigned) == 0
  {
    hide Pow2, Bits;
  }

  lemma FoldUnsigned(a: Int32, b: Int32)
    requires b != 0
    ensures FoldArithmetic(a, b, Div, true) == Signed(Unsigned(a) / Unsigned(b) % WORD)
    ensures FoldArithmetic(a, b, Rem, true) == Signed(Unsigned(a) % Unsigned(b) % WORD)
  {
    hide Signed;
  }

  lemma UnsignedOfSigned(u: int)
    requires 0 <= u < WORD
    ensures Unsigned(Signed(u % WORD)) == u
  {
  }

  lemma UnsignedWrapped(a: Int32)
    ensures Wrap(Unsigned(a)) == a
  {
  }

  lemma UnsignedDivisionLaw(a: Int32, b: Int32)
    requires b != 0
    ensures var q, r := Unsigned(FoldArithmetic(a, b, Div, true)), Unsigned(FoldArithmetic(a, b, Rem, true));
      Unsigned(a) == Unsigned(b) * q + r && 0 <= r < Unsigned(b)
  {
    UnsignedLaw(b);
    FoldUnsigned(a, b);
    hide FoldArithmetic, Unsigned, Signed;
    var x: int, y: int := Unsigned(a), Unsigned(b);
    Euclid(x, y);
    QuotientBound(x, y);
    UnsignedOfSigned(x / y);
    UnsignedOfSigned(x % y);
  }

  lemma FoldShifted(a: Int32, b: Int32, isUnsigned: bool)
    ensures FoldArithmetic(a, b, Shl, isUnsigned) == Wrap(a * Pow2(b % 32))
    ensures FoldArithmetic(a, b, Shr, isUnsigned) == Wrap((if isUnsigned then Unsigned(a) else a) / Pow2(b % 32))
  {
    hide Wrap, Pow2;
    FoldIsValue(a, b, Shl, isUnsigned);
    FoldIsValue(a, b, Shr, isUnsigned);
    hide FoldArithmetic;
  }

  /** Only the low five bits of a shift amount count. */
  lemma ShiftAmount(a: Int32, b: Int32, isUnsigned: bool)
    ensures FoldArithmetic(a, b, Shl, isUnsigned) == FoldArithmetic(a, b % 32, Shl, isUnsigned)
    ensures FoldArithmetic(a, b, Shr, isUnsigned) == FoldArithmetic(a, b % 32, Shr, isUnsigned)
  {
    hide FoldArithmetic, Wrap, Pow2;
    FoldShifted(a, b, isUnsigned);
    FoldShifted(a, b % 32, isUnsigned);
  }

  /** Halving in two steps or in one. */
  lemma HalfOfQuotient(x: int, p: int)
    requires p > 0
    ensures x / p / 2 == x / (2 * p)
  {
    var s: int := x / p;
    var t: int := s / 2;
    Euclid(x, p);
    assert s == 2 * t || s == 2 * t + 1;
    assert p * s == 2 * p * t || p * s == 2 * p * t + p;
    QuotientIs(x, 2 * p, t);
  }

  lemma QuotientIs(x: int, y: int, t: int)
    requires y > 0 && 0 <= x - y * t < y
    ensures x / y == t
  {
    Euclid(x, y);
    FactorOut(y, x / y, t);
    LargeProduct(y, x / y - t);
  }

  lemma Doubled(x: int, y: int)
    ensures x * (2 * y) == 2 * (x * y)
  {
  }

  lemma LeftShift(a: Int32, n: nat)
    ensures SameWord(Wrap(a * (2 * Pow2(n))), 2 * Wrap(a * Pow2(n)))
  {
    hide Wrap, Pow2;
    var m: int := a * Pow2(n);
    Doubled(a, Pow2(n));
    WrapLaw(m);
    WrapLaw(2 * m);
    var j: int, k: int :| Wrap(m) == m + ShiftedWord(j) && Wrap(2 * m) == 2 * m + ShiftedWord(k);
    assert Wrap(2 * m) == 2 * Wrap(m) + ShiftedWord(k - 2 * j);
  }

  /** A shift to the right leaves a value that fits. */
  lemma QuotientSmall(x: int, p: int)
    requires p > 0
    ensures x >= 0 ==> 0 <= x / p <= x
    ensures x < 0 ==> x <= x / p < 0
  {
    if x >= 0 {
      QuotientBound(x, p);
    } else {
      Euclid(x, p);
      var q: int := x / p;
      if q >= 0 {
        ProductOrder(p, q, 0);
      } else if q < x {
        ProductOrder(p, q, x - 1);
        FactorOut(p, x, 1);
        ProductOrder(-x, p, 1);
        NegatedFactor(x, p);
      }
    }
  }

  lemma Halved(s: int)
    ensures s == 2 * (s / 2) || s == 2 * (s / 2) + 1
  {
  }

  lemma SignedRightShift(a: Int32, n: nat)
    ensures
      var s: int, t: int := Wrap(a / Pow2(n)), Wrap(a / Pow2(n + 1));
      s == 2 * t || s == 2 * t + 1
  {
    var p: int := Pow2(n);
    assert Pow2(n + 1) == 2 * p;
    HalfOfQuotient(a, p);
    QuotientSmall(a, p);
    QuotientSmall(a, 2 * p);
    WrapLaw(a / p);
    WrapLaw(a / (2 * p));
    Halved(a / p);
  }

  lemma UnsignedRightShift(a: Int32, n: nat)
    ensures
      var x := Unsigned(a);
      var s, t := Unsigned(Wrap(x / Pow2(n))), Unsigned(Wrap(x / Pow2(n + 1)));
      s == 2 * t || s == 2 * t + 1
  {
    var p: int := Pow2(n);
    assert Pow2(n + 1) == 2 * p;
    var x: int := Unsigned(a);
    HalfOfQuotient(x, p);
    QuotientSmall(x, p);
    QuotientSmall(x, 2 * p);
    UnsignedLaw(a);
    UnsignedOfSigned(x / p);
    UnsignedOfSigned(x / (2 * p));
    Halved(x / p);
  }

  lemma UnshiftedLaw(a: Int32, isUnsigned: bool)
    ensures FoldArithmetic(a, 0, Shl, isUnsigned) == a == FoldArithmetic(a, 0, Shr, isUnsigned)
  {
    hide FoldArithmetic, Wrap, Unsigned;
    FoldShifted(a, 0, isUnsigned);
    WrapLaw(a);
    UnsignedWrapped(a);
  }

  /** One more position to the left doubles in the low 32 bits. */
  lemma LeftShiftLaw(a: Int32, n: Int32, isUnsigned: bool)
    requires 0 <= n < 31
    ensures SameWord(FoldArithmetic(a, n + 1, Shl, isUnsigned), 2 * FoldArithmetic(a, n, Shl, isUnsigned))
  {
    hide FoldArithmetic, Wrap, Unsigned, SameWord;
    FoldShifted(a, n, isUnsigned);
    FoldShifted(a, n + 1, isUnsigned);
    LeftShift(a, n);
  }

  /** One more position to the right halves, rounding down. */
  lemma RightShiftLaw(a: Int32, n: Int32)
    requires 0 <= n < 31
    ensures
      var s: int, t: int := FoldArithmetic(a, n, Shr, false), FoldArithmetic(a, n + 1, Shr, false);
      s == 2 * t || s == 2 * t + 1
    ensures
      var s, t := Unsigned(FoldArithmetic(a, n, Shr, true)), Unsigned(FoldArithmetic(a, n + 1, Shr, true));
      s == 2 * t || s == 2 * t + 1
  {
    hide FoldArithmetic, Wrap, Unsigned, Pow2;
    FoldedRight(a, n);
    SignedRightShift(a, n);
    UnsignedRightShift(a, n);
  }

  /** What the two shifts to the right are, for `n` positions and for one more. */
  lemma FoldedRight(a: Int32, n: Int32)
    requires 0 <= n < 31
    ensures FoldArithmetic(a, n, Shr, false) == Wrap(a / Pow2(n))
    ensures FoldArithmetic(a, n + 1, Shr, false) == Wrap(a / Pow2(n + 1))
    ensures FoldArithmetic(a, n, Shr, true) == Wrap(Unsigned(a) / Pow2(n))
    ensures FoldArithmetic(a, n + 1, Shr, true) == Wrap(Unsigned(a) / Pow2(n + 1))
  {
    hide FoldArithmetic, Wrap, Unsigned, Pow2;
    FoldShifted(a, n, false);
    FoldShifted(a, n, true);
    FoldShifted(a, n + 1, false);
    FoldShifted(a, n + 1, true);
    assert n % 32 == n && (n + 1) % 32 == n + 1;
  }

  /** The bit vector of a value is the one whose number is its unsigned reading. */
  lemma BitsValue(v: int, p: bv32)
    requires p as int == Unsigned(v)
    ensures Bits(v) == p
  {
  }

  /** The bitwise operations combine the bit vectors. */
  lemma BitLaws(a: Int32, b: Int32, isUnsigned: bool)
    ensures Bits(FoldArithmetic(a, b, And, isUnsigned)) == Bits(a) & Bits(b)
    ensures Bits(FoldArithmetic(a, b, Or, isUnsigned)) == Bits(a) | Bits(b)
    ensures Bits(FoldArithmetic(a, b, Xor, isUnsigned)) == Bits(a) ^ Bits(b)
  {
    hide FoldArithmetic, Wrap, Unsigned, Bits;
    FoldBitwise(a, b, isUnsigned);
    BitsOfWrap(FoldArithmetic(a, b, And, isUnsigned), Bits(a) & Bits(b));
    BitsOfWrap(FoldArithmetic(a, b, Or, isUnsigned), Bits(a) | Bits(b));
    BitsOfWrap(FoldArithmetic(a, b, Xor, isUnsigned), Bits(a) ^ Bits(b));
  }

  lemma FoldBitwise(a: Int32, b: Int32, isUnsigned: bool)
    ensures FoldArithmetic(a, b, And, isUnsigned) == Wrap((Bits(a) & Bits(b)) as int)
    ensures FoldArithmetic(a, b, Or, isUnsigned) == Wrap((Bits(a) | Bits(b)) as int)
    ensures FoldArithmetic(a, b, Xor, isUnsigned) == Wrap((Bits(a) ^ Bits(b)) as int)
  {
    hide Bits, Wrap;
  }

  lemma BitsOfWrap(r: Int32, v: bv32)
    requires r == Wrap(v as int)
    ensures Bits(r) == v
  {
    var u: int := v as int;
    assert 0 <= u < WORD;
    UnsignedOfSigned(u);
  }

  // ---- Comparisons and negations ----

  /** Signed and unsigned order agree on values of one sign; read as unsigned, a negative value is the larger one. */
  lemma OrderLaws(a: Int32, b: Int32)
    ensures CmpHolds(Eq, a, b) <==> a == b
    ensures CmpHolds(Slt, a, b) <==> a < b
    ensures CmpHolds(Ult, a, b) <==> if (a < 0) == (b < 0) then a < b else b < 0
    ensures CmpHolds(Ne, a, b) <==> !CmpHolds(Eq, a, b)
    ensures CmpHolds(Sgt, a, b) <==> CmpHolds(Slt, b, a)
    ensures CmpHolds(Sge, a, b) <==> !CmpHolds(Slt, a, b)
    ensures CmpHolds(Sle, a, b) <==> !CmpHolds(Slt, b, a)
    ensures CmpHolds(Ugt, a, b) <==> CmpHolds(Ult, b, a)
    ensures CmpHolds(Uge, a, b) <==> !CmpHolds(Ult, a, b)
    ensures CmpHolds(Ule, a, b) <==> !CmpHolds(Ult, b, a)
  {
    UnsignedLaw(a);
    UnsignedLaw(b);
  }

  /** A folded minus gives 0 when added back, a folded complement gives -1, whatever the width the complement had. */
  lemma NegationLaws(x: Name, v: Int32, i1: bool, lat: Lattice)
    ensures
      var minus, not := Transfer(Neg(x, true, i1, Const(v)), lat), Transfer(Neg(x, false, i1, Const(v)), lat);
      minus.Constant? && SameWord(minus.value + v, 0) && not.Constant? && not.value + v == -1
  {
    hide Wrap, Signed;
    var n: int := v;
    Complement(n);
    WrapLaw(-n);
    WrapLaw(-1 - n);
    var k: int :| Wrap(-n) == -n + ShiftedWord(k);
    assert Wrap(-n) + n == 0 + ShiftedWord(k);
  }

  /** The `not` of a truth value changes the lowest bit and no other. */
  lemma FlipLaw(v: Int32)
    ensures FlipLow(v) != v && FlipLow(v) / 2 == v / 2
  {
  }

  // ---- Cells ----

  /** The meet is the greatest cell at or below both. */
  lemma MeetIsGreatest(a: Cell, b: Cell, c: Cell)
    ensures AtOrBelow(MeetCells(a, b), a) && AtOrBelow(MeetCells(a, b), b)
    ensures AtOrBelow(c, a) && AtOrBelow(c, b) ==> AtOrBelow(c, MeetCells(a, b))
  {
  }

  ghost predicate SomeBottom(lat: Lattice, os: seq<Operand>) {
    exists j :: 0 <= j < |os| && GetLattice(lat, os[j]).Bottom?
  }

  ghost predicate AllKnown(lat: Lattice, os: seq<Operand>) {
    forall j :: 0 <= j < |os| ==> GetLattice(lat, os[j]).Constant?
  }

  /** The result of an operation is unknown exactly when an operand is, and known exactly when all operands are. */
  lemma TransferExactly(i: Instr, lat: Lattice)
    requires !i.Effect?
    ensures Transfer(i, lat).Bottom? <==> SomeBottom(lat, Uses(i))
    ensures Transfer(i, lat).Constant? <==> AllKnown(lat, Uses(i))
  {
    hide FoldArithmetic, CmpHolds, GetLattice, Signed;
    match i
    case Arith(_, _, _, l, r) => assert Uses(i)[0] == l && Uses(i)[1] == r;
    case Compare(_, _, l, r) => assert Uses(i)[0] == l && Uses(i)[1] == r;
    case Neg(_, _, _, o) => assert Uses(i)[0] == o;
    case Select(_, o) => assert Uses(i)[0] == o;
    case Move(_, o) => assert Uses(i)[0] == o;
  }

  function KnownValues(lat: Lattice, os: seq<Operand>): (vs: seq<Int32>)
    ensures |vs| == |os|
  {
    seq(|os|, j requires 0 <= j < |os| => match GetLattice(lat, os[j]) case Constant(v) => v case _ => 0)
  }

  /** What is known is what the operation computes, where that is defined, but for a `not` on i1. */
  lemma TransferComputes(i: Instr, lat: Lattice)
    requires !i.Effect? && !i.Move? && AllKnown(lat, Uses(i)) && !FoldedNot(i, lat)
    requires Compute(i, KnownValues(lat, Uses(i))).Some?
    ensures Transfer(i, lat) == Constant(Compute(i, KnownValues(lat, Uses(i))).value)
  {
    hide Transfer, Compute, GetLattice;
    TransferExactly(i, lat);
    TransferAdmits(i, lat, KnownValues(lat, Uses(i)));
  }
}
