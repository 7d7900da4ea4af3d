/** The bit set under liveness: words of 64 bits that stand for a set of numbers. */
module BitSets {
  // ---- One word ----

  type Word = bv64

  /** The number `k` as a shift distance. */
  function Shift(k: nat): bv64 {
    if k == 0 then 0 else (Shift(k / 2) << 1) | (if k % 2 == 1 then 1 else 0)
  }

  lemma {:induction false} ShiftBelow(k: nat, n: nat, b: bv64)
    requires k < n && ((n == 1 && b == 1) || (n == 2 && b == 2) || (n == 4 && b == 4) || (n == 8 && b == 8) ||
        (n == 16 && b == 16) || (n == 32 && b == 32) || (n == 64 && b == 64))
    ensures Shift(k) < b
  {
    if k > 0 {
      ShiftBelow(k / 2, n / 2, b >> 1);
    }
  }

  lemma {:induction false} ShiftNext(k: nat)
    ensures Shift(k + 1) == Shift(k) + 1
  {
    if k % 2 == 1 {
      ShiftNext(k / 2);
      NextDouble(Shift(k / 2));
    } else {
      EvenNext(Shift(k / 2));
    }
  }

  lemma NextDouble(h: bv64)
    ensures (h + 1) << 1 == ((h << 1) | 1) + 1
  {
  }

  lemma EvenNext(h: bv64)
    ensures (h << 1) | 1 == (h << 1) + 1
  {
  }

  lemma {:induction false} ShiftInjective(j: nat, k: nat)
    requires j < 64 && k < 64 && Shift(j) == Shift(k)
    ensures j == k
    decreases j
  {
    if j > 0 && k > 0 {
      ShiftBelow(j / 2, 32, 32);
      ShiftBelow(k / 2, 32, 32);
      HalvesEqual(Shift(j / 2), Shift(k / 2), if j % 2 == 1 then 1 else 0, if k % 2 == 1 then 1 else 0);
      ShiftInjective(j / 2, k / 2);
    } else if k > 0 {
      ShiftPositive(k);
    } else if j > 0 {
      ShiftPositive(j);
    }
  }

  lemma HalvesEqual(a: bv64, b: bv64, r: bv64, s: bv64)
    requires a < 32 && b < 32 && r <= 1 && s <= 1 && (a << 1) | r == (b << 1) | s
    ensures a == b && r == s
  {
  }

  lemma {:induction false} ShiftPositive(k: nat)
    requires 0 < k < 64
    ensures Shift(k) != 0
  {
    ShiftBelow(k / 2, 32, 32);
    if k % 2 == 0 {
      ShiftPositive(k / 2);
      DoubledPositive(Shift(k / 2));
    } else {
      EvenNext(Shift(k / 2));
      DoubledPositive(Shift(k / 2));
    }
  }

  lemma DoubledPositive(a: bv64)
    requires a < 32
    ensures (a << 1) | 1 != 0 && (a != 0 ==> a << 1 != 0)
  {
  }

  predicate BitAt(w: Word, k: bv64)
    requires k < 64
  {
    (w >> k) & 1 == 1
  }

  /** The mask of a bit tests it. */
  lemma MaskTests(w: Word, k: bv64)
    requires k < 64
    ensures MaskedAt(w, k) == BitAt(w, k)
  {
  }

  /** Bit `k` of the word. */
  predicate HasBit(w: Word, k: nat)
    requires k < 64
  {
    ShiftBelow(k, 64, 64);
    BitAt(w, Shift(k))
  }

  predicate PowerOfTwo(m: Word) {
    m != 0 && m & (m - 1) == 0
  }

  predicate Meets(w: Word, m: Word) {
    w & m != 0
  }

  predicate NoneUnder(w: Word, m: Word) {
    w & (m - 1) == 0
  }

  /** The word with bit `k` only. */
  function Single(k: bv64): Word
    requires k < 64
  {
    1 << k
  }

  function With(w: Word, k: nat): Word
    requires k < 64
  {
    ShiftBelow(k, 64, 64);
    WithAt(w, Shift(k))
  }

  function WithAt(w: Word, k: bv64): Word
    requires k < 64
  {
    w | Single(k)
  }

  function Without(w: Word, k: nat): Word
    requires k < 64
  {
    ShiftBelow(k, 64, 64);
    WithoutAt(w, Shift(k))
  }

  function WithoutAt(w: Word, k: bv64): Word
    requires k < 64
  {
    AndNot(w, Single(k))
  }

  function Or(v: Word, w: Word): Word {
    v | w
  }

  function AndNot(v: Word, w: Word): Word {
    v & !w
  }

  /** Subtracting 1 and masking. */
  function DropLowest(w: Word): Word {
    w & (w - 1)
  }

  lemma SetAt(w: Word, k: bv64, j: bv64)
    requires k < 64 && j < 64
    ensures BitAt(WithAt(w, k), j) == (BitAt(w, j) || j == k)
  {
  }

  lemma ClearAt(w: Word, k: bv64, j: bv64)
    requires k < 64 && j < 64
    ensures BitAt(WithoutAt(w, k), j) == (BitAt(w, j) && j != k)
  {
  }

  lemma OrAt(v: Word, w: Word, j: bv64)
    requires j < 64
    ensures BitAt(v | w, j) == (BitAt(v, j) || BitAt(w, j))
  {
  }

  lemma AndNotAt(v: Word, w: Word, j: bv64)
    requires j < 64
    ensures BitAt(v & !w, j) == (BitAt(v, j) && !BitAt(w, j))
  {
  }

  lemma ZeroAt(j: bv64)
    requires j < 64
    ensures !BitAt(0, j)
  {
  }

  /** The lowest bit goes, the others stay. */
  lemma DropAt(w: Word, k: bv64, j: bv64)
    requires k < 64 && j < 64 && BitAt(w, k) && ClearBelowAt(w, k)
    ensures BitAt(DropLowest(w), j) == (BitAt(w, j) && j != k)
  {
    DropIsWithout(w, k);
    ClearAt(w, k, j);
  }

  lemma DropIsWithout(w: Word, k: bv64)
    requires k < 64 && BitAt(w, k) && ClearBelowAt(w, k)
    ensures DropLowest(w) == WithoutAt(w, k)
  {
    hide Single, BitAt, DropLowest, AndNot, NoneUnder, Meets, PowerOfTwo;
    OneBit(k);
    BitIsMasked(w, k);
    DropMask(w, Single(k));
  }

  lemma OneBit(k: bv64)
    requires k < 64
    ensures PowerOfTwo(Single(k))
  {
  }

  lemma BitIsMasked(w: Word, k: bv64)
    requires k < 64 && BitAt(w, k)
    ensures Meets(w, Single(k))
  {
  }

  lemma DropMask(w: Word, m: Word)
    requires PowerOfTwo(m) && Meets(w, m) && NoneUnder(w, m)
    ensures DropLowest(w) == AndNot(w, m)
  {
  }

  /** No bit of `w` is below `k`. */
  predicate ClearBelowAt(w: Word, k: bv64)
    requires k < 64
  {
    NoneUnder(w, Single(k))
  }

  lemma NoneBelow(w: Word, k: bv64)
    requires k < 63 && ClearBelowAt(w, k) && !BitAt(w, k)
    ensures ClearBelowAt(w, k + 1)
  {
  }

  lemma NoneAtAll(w: Word, k: bv64)
    requires k == 63 && ClearBelowAt(w, k) && !BitAt(w, k)
    ensures w == 0
  {
  }

  predicate Masked(w: Word, k: nat)
    requires k < 64
  {
    ShiftBelow(k, 64, 64);
    MaskedAt(w, Shift(k))
  }

  predicate MaskedAt(w: Word, k: bv64)
    requires k < 64
  {
    Meets(w, Single(k))
  }

  lemma MaskedIs(w: Word, k: nat)
    requires k < 64
    ensures Masked(w, k) == HasBit(w, k)
  {
    hide BitAt, Shift, MaskedAt;
    ShiftBelow(k, 64, 64);
    MaskTests(w, Shift(k));
  }

  lemma SameShift(j: nat, k: nat)
    requires j < 64 && k < 64
    ensures Shift(j) < 64 && Shift(k) < 64 && (Shift(j) == Shift(k) <==> j == k)
  {
    ShiftBelow(j, 64, 64);
    ShiftBelow(k, 64, 64);
    if Shift(j) == Shift(k) {
      ShiftInjective(j, k);
    }
  }

  lemma SetOne(w: Word, k: nat, j: nat)
    requires k < 64 && j < 64
    ensures HasBit(With(w, k), j) == (HasBit(w, j) || j == k)
  {
    hide BitAt, Shift, WithAt;
    SameShift(j, k);
    SetAt(w, Shift(k), Shift(j));
  }

  lemma ClearOne(w: Word, k: nat, j: nat)
    requires k < 64 && j < 64
    ensures HasBit(Without(w, k), j) == (HasBit(w, j) && j != k)
  {
    hide BitAt, Shift, WithoutAt;
    SameShift(j, k);
    ClearAt(w, Shift(k), Shift(j));
  }

  lemma CombineWords(v: Word, w: Word, j: nat)
    requires j < 64
    ensures HasBit(Or(v, w), j) == (HasBit(v, j) || HasBit(w, j))
    ensures HasBit(AndNot(v, w), j) == (HasBit(v, j) && !HasBit(w, j))
  {
    hide BitAt, Shift;
    SameShift(j, j);
    OrAt(v, w, Shift(j));
    AndNotAt(v, w, Shift(j));
  }

  predicate ClearBelow(w: Word, k: nat)
    requires k < 64
  {
    ShiftBelow(k, 64, 64);
    ClearBelowAt(w, Shift(k))
  }

  lemma ClearNext(w: Word, k: nat)
    requires k < 63 && ClearBelow(w, k) && !HasBit(w, k)
    ensures ClearBelow(w, k + 1)
  {
    hide Shift, BitAt, ClearBelowAt;
    SameShift(k, k + 1);
    ShiftNext(k);
    SmallerThanLast(k);
    NoneBelow(w, Shift(k));
  }

  lemma ClearLast(w: Word)
    requires ClearBelow(w, 63) && !HasBit(w, 63)
    ensures w == 0
  {
    hide BitAt, ClearBelowAt;
    LastShift();
    NoneAtAll(w, Shift(63));
  }

  lemma ClearFirst(w: Word)
    ensures ClearBelow(w, 0)
  {
  }

  lemma DropOne(w: Word, t: nat, j: nat)
    requires t < 64 && j < 64 && HasBit(w, t) && ClearBelow(w, t)
    ensures HasBit(DropLowest(w), j) == (HasBit(w, j) && j != t)
  {
    hide Shift, BitAt, ClearBelowAt, DropLowest;
    SameShift(j, t);
    DropAt(w, Shift(t), Shift(j));
  }

  /** The position of the lowest bit. */
  method TrailingZeros(w: Word) returns (t: nat)
    requires w != 0
    ensures t < 64 && HasBit(w, t) && forall j :: 0 <= j < t ==> !HasBit(w, j)
    ensures forall j :: 0 <= j < 64 ==> HasBit(DropLowest(w), j) == (HasBit(w, j) && j != t)
  {
    hide HasBit, ClearBelow, DropLowest;
    t := 0;
    ClearFirst(w);
    while t < 63 && !HasBit(w, t)
      invariant t < 64 && ClearBelow(w, t) && forall j :: 0 <= j < t ==> !HasBit(w, j)
    {
      ClearNext(w, t);
      t := t + 1;
    }
    if !HasBit(w, t) {
      ClearLast(w);
    }
    forall j | 0 <= j < 64
      ensures HasBit(DropLowest(w), j) == (HasBit(w, j) && j != t)
    {
      DropOne(w, t, j);
    }
  }

  lemma LastShift()
    ensures Shift(63) == 63
  {
  }

  lemma SmallerThanLast(k: nat)
    requires k < 63
    ensures Shift(k) < 63
  {
    ShiftBelow(k, 64, 64);
    LastShift();
    if Shift(k) == 63 {
      ShiftInjective(k, 63);
    }
  }

  /** A word with the same bits is the same word. */
  lemma SameWord(v: Word, w: Word)
    requires forall j :: 0 <= j < 64 ==> HasBit(v, j) == HasBit(w, j)
    ensures v == w
  {
    hide ClearBelow, HasBit;
    ClearFirst(v ^ w);
    DropAll(v, w, 0);
  }

  lemma {:induction false} DropAll(v: Word, w: Word, k: nat)
    requires k < 64 && (forall j :: 0 <= j < 64 ==> HasBit(v, j) == HasBit(w, j)) && ClearBelow(v ^ w, k)
    ensures v == w
    decreases 63 - k
  {
    hide ClearBelow, HasBit;
    assert HasBit(v, k) == HasBit(w, k);
    XorOne(v, w, k);
    if k == 63 {
      ClearLast(v ^ w);
      XorZero(v, w);
    } else {
      ClearNext(v ^ w, k);
      DropAll(v, w, k + 1);
    }
  }

  lemma XorOne(v: Word, w: Word, k: nat)
    requires k < 64 && HasBit(v, k) == HasBit(w, k)
    ensures !HasBit(v ^ w, k)
  {
    hide BitAt, Shift;
    SameShift(k, k);
    XorAt(v, w, Shift(k));
  }

  lemma XorAt(v: Word, w: Word, k: bv64)
    requires k < 64 && BitAt(v, k) == BitAt(w, k)
    ensures !BitAt(v ^ w, k)
  {
  }

  lemma XorZero(v: Word, w: Word)
    requires v ^ w == 0
    ensures v == w
  {
  }

  // ---- The set ----

  predicate Holds(words: seq<Word>, idx: nat) {
    idx / 64 < |words| && HasBit(words[idx / 64], idx % 64)
  }

  ghost function Numbers(words: seq<Word>): (s: set<nat>)
    ensures forall k :: k in s <==> 0 <= k < 64 * |words| && Holds(words, k)
  {
    set k | 0 <= k < 64 * |words| && Holds(words, k)
  }

  lemma OneWord(words: seq<Word>, i: nat, w: Word)
    requires i < |words|
    ensures forall k: nat :: Holds(words[i := w], k) == if k / 64 == i then HasBit(w, k % 64) else Holds(words, k)
  {
  }

  class BitSet {
    var bits: seq<Word>

    constructor ()
      ensures bits == [] && Contents() == {}
    {
      bits := [];
    }

    ghost function Contents(): set<nat>
      reads this
    {
      Numbers(bits)
    }

    /** Room for `n` bits; what does not fit any more is lost. */
    method Resize(n: nat)
      modifies this
      ensures |bits| == (n + 63) / 64
      ensures Contents() == set k | k in old(Contents()) && k < 64 * |bits|
    {
      hide HasBit;
      NoBits();
      var need := (n + 63) / 64;
      var words := bits;
      bits := seq(need, i requires 0 <= i < need => if i < |words| then words[i] else 0);
    }

    method Grow(n: nat)
      modifies this
      ensures |bits| >= |old(bits)| && n <= 64 * |bits| && Contents() == old(Contents())
    {
      hide HasBit;
      NoBits();
      var need := (n + 63) / 64;
      if need > |bits| {
        var words := bits;
        bits := seq(need, i requires 0 <= i < need => if i < |words| then words[i] else 0);
      }
    }

    method Set(idx: nat)
      requires idx / 64 < |bits|
      modifies this
      ensures |bits| == |old(bits)| && Contents() == old(Contents()) + {idx}
    {
      hide HasBit, With;
      forall j: nat | j < 64
        ensures HasBit(With(bits[idx / 64], idx % 64), j) == (HasBit(bits[idx / 64], j) || j == idx % 64)
      {
        SetOne(bits[idx / 64], idx % 64, j);
      }
      OneWord(bits, idx / 64, With(bits[idx / 64], idx % 64));
      bits := bits[idx / 64 := With(bits[idx / 64], idx % 64)];
    }

    method ClearBit(idx: nat)
      requires idx / 64 < |bits|
      modifies this
      ensures |bits| == |old(bits)| && Contents() == old(Contents()) - {idx}
    {
      hide HasBit, Without;
      forall j: nat | j < 64
        ensures HasBit(Without(bits[idx / 64], idx % 64), j) == (HasBit(bits[idx / 64], j) && j != idx % 64)
      {
        ClearOne(bits[idx / 64], idx % 64, j);
      }
      OneWord(bits, idx / 64, Without(bits[idx / 64], idx % 64));
      bits := bits[idx / 64 := Without(bits[idx / 64], idx % 64)];
    }

    method Test(idx: nat) returns (r: bool)
      ensures r == (idx in Contents())
    {
      var word := idx / 64;
      if word >= |bits| {
        return false;
      }
      hide HasBit, Masked;
      MaskedIs(bits[word], idx % 64);
      r := Masked(bits[word], idx % 64);
    }

    method Clear()
      modifies this
      ensures |bits| == |old(bits)| && Contents() == {}
    {
      hide HasBit;
      NoBits();
      bits := seq(|bits|, i => 0);
    }

    /** Whether the words are equal: for sets of the same size, whether the contents are. */
    method Equals(o: BitSet) returns (r: bool)
      ensures |bits| == |o.bits| ==> r == (Contents() == o.Contents())
    {
      r := bits == o.bits;
      if |bits| == |o.bits| && Contents() == o.Contents() {
        SameContents(bits, o.bits);
      }
    }

    /** Everything in `o` that fits is added. */
    method Union(o: BitSet)
      requires |bits| <= |o.bits|
      modifies this
      ensures |bits| == |old(bits)|
      ensures Contents() == old(Contents()) + set k | k in old(o.Contents()) && k < 64 * |bits|
    {
      hide HasBit, Or;
      ghost var before, other := bits, o.bits;
      for i := 0 to |bits|
        invariant |bits| == |before| && (o == this ==> bits == before) && (o != this ==> o.bits == other)
        invariant forall k :: 0 <= k < |bits| ==> bits[k] == if k < i then Or(before[k], other[k]) else before[k]
      {
        SelfOr(before[i]);
        bits := bits[i := Or(bits[i], o.bits[i])];
      }
      forall k: nat
        ensures Holds(bits, k) == (Holds(before, k) || (Holds(other, k) && k < 64 * |bits|))
      {
        if k / 64 < |bits| {
          CombineWords(before[k / 64], other[k / 64], k % 64);
        }
      }
    }

    /** Becomes `o` without `except`. */
    method CopyAndNot(o: BitSet, except: BitSet)
      requires o != this && except != this && |bits| <= |o.bits| && |bits| <= |except.bits|
      modifies this
      ensures |bits| == |old(bits)|
      ensures Contents() == set k | k in o.Contents() && k !in except.Contents() && k < 64 * |bits|
    {
      hide HasBit, AndNot;
      for i := 0 to |bits|
        invariant |bits| == |old(bits)|
        invariant forall k :: 0 <= k < i ==> bits[k] == AndNot(o.bits[k], except.bits[k])
      {
        bits := bits[i := AndNot(o.bits[i], except.bits[i])];
      }
      forall k: nat | k / 64 < |bits|
        ensures Holds(bits, k) == (Holds(o.bits, k) && !Holds(except.bits, k))
      {
        CombineWords(o.bits[k / 64], except.bits[k / 64], k % 64);
      }
    }

    method Copy(o: BitSet)
      modifies this
      ensures bits == old(o.bits) && Contents() == old(o.Contents())
    {
      bits := o.bits;
    }

    /** The numbers handed to the callback: all of the contents, in increasing order. */
    method ForEach() returns (visited: seq<nat>)
      ensures forall k :: k in visited <==> k in Contents()
      ensures forall a, b :: 0 <= a < b < |visited| ==> visited[a] < visited[b]
    {
      hide HasBit, DropLowest;
      visited := [];
      for i := 0 to |bits|
        invariant Listed(bits, visited, i, 0)
      {
        var word := bits[i];
        ghost var from := 0;
        while word != 0
          invariant from <= 64 && Listed(bits, visited, i, from)
          invariant forall j :: 0 <= j < 64 ==> HasBit(word, j) == (HasBit(bits[i], j) && from <= j)
          decreases 64 - from
        {
          var tz := TrailingZeros(word);
          ListOne(bits, visited, i, from, tz);
          visited := visited + [64 * i + tz];
          word := DropLowest(word);
          from := tz + 1;
        }
        NoBits();
        ListWord(bits, visited, i, from);
      }
    }
  }

  lemma ContentsFit(b: BitSet)
    ensures forall k :: k in b.Contents() ==> k < 64 * |b.bits|
  {
  }

  lemma SelfOr(w: Word)
    ensures Or(w, w) == w
  {
  }

  lemma NoBits()
    ensures forall j: nat :: j < 64 ==> !HasBit(0, j)
  {
    forall j: nat | j < 64
      ensures !HasBit(0, j)
    {
      ShiftBelow(j, 64, 64);
      ZeroAt(Shift(j));
    }
  }

  lemma SameContents(v: seq<Word>, w: seq<Word>)
    requires |v| == |w| && Numbers(v) == Numbers(w)
    ensures v == w
  {
    hide HasBit;
    forall i | 0 <= i < |v|
      ensures v[i] == w[i]
    {
      forall j | 0 <= j < 64
        ensures HasBit(v[i], j) == HasBit(w[i], j)
      {
        assert (64 * i + j) / 64 == i && (64 * i + j) % 64 == j;
        assert Holds(v, 64 * i + j) == (64 * i + j in Numbers(v));
        assert Holds(w, 64 * i + j) == (64 * i + j in Numbers(w));
      }
      SameWord(v[i], w[i]);
    }
  }

  /** The numbers of the words before `i`, and of word `i` before bit `from`, in order. */
  ghost predicate Listed(words: seq<Word>, visited: seq<nat>, i: nat, from: nat) {
    && (forall k :: k in visited <==> 0 <= k < 64 * i + from && Holds(words, k))
    && (forall a, b :: 0 <= a < b < |visited| ==> visited[a] < visited[b])
  }

  lemma ListOne(words: seq<Word>, visited: seq<nat>, i: nat, from: nat, t: nat)
    requires Listed(words, visited, i, from) && i < |words| && from <= t < 64 && HasBit(words[i], t)
    requires forall j :: from <= j < t ==> !HasBit(words[i], j)
    ensures Listed(words, visited + [64 * i + t], i, t + 1)
  {
    hide HasBit;
    var n := 64 * i + t;
    forall k: nat | 64 * i + from <= k <= n
      ensures Holds(words, k) == (k == n)
    {
      var j := k - 64 * i;
      assert k / 64 == i && k % 64 == j;
    }
    forall a | 0 <= a < |visited|
      ensures visited[a] < n
    {
      assert visited[a] in visited;
    }
  }

  lemma ListWord(words: seq<Word>, visited: seq<nat>, i: nat, from: nat)
    requires Listed(words, visited, i, from) && i < |words| && from <= 64 && forall j :: from <= j < 64 ==>
        !HasBit(words[i], j)
    ensures Listed(words, visited, i + 1, 0)
  {
    hide HasBit;
    forall k: nat | 64 * i + from <= k < 64 * (i + 1)
      ensures !Holds(words, k)
    {
      var j := k - 64 * i;
      assert k / 64 == i && k % 64 == j;
    }
  }
}
