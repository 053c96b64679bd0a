// Which ids the spans of a well-formed segment can get: any whose last four bytes are the segment's own,
// each for one number. So an id can be the empty one, and two segments can share their ids.
module SpanIdValues {
  import opened SpanIds

  // ---------------------------------------------------------------- more on exclusive or

  lemma XorHalf(a: nat, b: nat)
    ensures XorBits(a, b) / 2 == XorBits(a / 2, b / 2)
    ensures XorBits(a, b) % 2 == if a % 2 != b % 2 then 1 else 0
  {
    assert a == 0 && b == 0 ==> XorBits(a / 2, b / 2) == 0;
  }

  // The byte that makes a XOR x XOR c a given one.
  lemma {:induction false} XorSolves(a: nat, c: nat, t: nat)
    ensures XorBits(XorBits(a, XorBits(XorBits(a, c), t)), c) == t
    decreases a + c + t
  {
    var b := XorBits(a, c);
    var x := XorBits(b, t);
    var y := XorBits(a, x);
    XorHalf(a, c);
    XorHalf(b, t);
    XorHalf(a, x);
    XorHalf(y, c);
    if a + c + t > 0 {
      XorSolves(a / 2, c / 2, t / 2);
    }
  }

  lemma {:induction false} XorZero(a: nat)
    ensures XorBits(a, 0) == a
  {
    if a > 0 {
      XorZero(a / 2);
    }
  }

  // ---------------------------------------------------------------- a number from its bytes

  function NumberOf(b: Bytes): (n: nat)
    requires |b| == 4
    ensures n < UINT32
  {
    var b0: int, b1: int, b2: int, b3: int := b[0], b[1], b[2], b[3];
    b0 + 256 * (b1 + 256 * (b2 + 256 * b3))
  }

  lemma BytesOfNumber(b: Bytes)
    requires |b| == 4
    ensures BytesOf(NumberOf(b), 4) == b
  {
    var n := NumberOf(b);
    ShiftedIs(n);
    var b1: int, b2: int, b3: int := b[1], b[2], b[3];
    assert Shifted(n, 1) == b1 + 256 * (b2 + 256 * b3);
    assert Shifted(n, 2) == b2 + 256 * b3;
    assert Shifted(n, 3) == b3;
    forall k | 0 <= k < 4 ensures BytesOf(n, 4)[k] == b[k] {
      BytesOfAt(n, 4, k);
    }
  }

  // ---------------------------------------------------------------- the ids of a segment

  // What folding leaves of a segment id, but for the number of a span.
  function Own(s: Bytes): (r: Bytes)
    requires WellFormed(s)
    ensures |r| == 8
  {
    Folded(Rest(s))
  }

  lemma FoldedMixed(r: Bytes, b: Bytes)
    requires |r| == 16 && |b| == 4
    ensures var id := Folded(Mixed(r, 0, b));
            && (forall k :: 0 <= k < 4 ==> id[k] == Xor(Xor(r[k], b[k]), r[k + 8]))
            && (forall k :: 4 <= k < 8 ==> id[k] == Folded(r)[k])
  {
  }

  lemma IdBytes(s: Bytes, n: nat)
    requires WellFormed(s)
    ensures SpanIdOf(s, n).Ok?
    ensures var id, r := SpanIdOf(s, n).bytes, Rest(s);
            && (forall k :: 0 <= k < 4 ==> id[k] == Xor(Xor(r[k], BytesOf(n, 4)[k]), r[k + 8]))
            && (forall k :: 4 <= k < 8 ==> id[k] == Own(s)[k])
  {
    NumberIsInFront(s, n);
    FoldedMixed(Rest(s), BytesOf(n, 4));
  }

  // The first four bytes that make an id of what is the segment's own, and the number that has them.
  function Wanted(s: Bytes, id: Bytes): (b: Bytes)
    requires WellFormed(s) && |id| == 8
    ensures |b| == 4
  {
    seq(4, k requires 0 <= k < 4 => Xor(Own(s)[k], id[k]))
  }

  function NumberFor(s: Bytes, id: Bytes): (n: nat)
    requires WellFormed(s) && |id| == 8
    ensures n < UINT32
  {
    NumberOf(Wanted(s, id))
  }

  ghost predicate SameTail(s: Bytes, id: Bytes)
    requires WellFormed(s) && |id| == 8
  {
    forall k :: 4 <= k < 8 ==> Own(s)[k] == id[k]
  }

  // A segment gives an id if and only if the last four bytes are its own; then one number alone has it.
  lemma GivesExactly(s: Bytes, id: Bytes, n: nat)
    requires WellFormed(s) && |id| == 8 && n < UINT32
    ensures SpanIdOf(s, n) == Ok(id) <==> SameTail(s, id) && n == NumberFor(s, id)
  {
    IdBytes(s, n);
    if SameTail(s, id) {
      NumberGives(s, id);
      if SpanIdOf(s, n) == Ok(id) {
        IdsAreInjective(s, n, NumberFor(s, id));
      }
    }
  }

  lemma NumberGives(s: Bytes, id: Bytes)
    requires WellFormed(s) && |id| == 8 && SameTail(s, id)
    ensures SpanIdOf(s, NumberFor(s, id)) == Ok(id)
  {
    var n, r := NumberFor(s, id), Rest(s);
    IdBytes(s, n);
    var given := SpanIdOf(s, n).bytes;
    forall k | 0 <= k < 8 ensures given[k] == id[k] {
      if k < 4 {
        FrontByte(s, id, k);
      }
    }
    assert given == id;
  }

  lemma NumberBytes(s: Bytes, id: Bytes, k: nat)
    requires WellFormed(s) && |id| == 8 && k < 4
    ensures BytesOf(NumberFor(s, id), 4)[k] == Xor(Own(s)[k], id[k])
  {
    BytesOfNumber(Wanted(s, id));
  }

  lemma FrontByte(s: Bytes, id: Bytes, k: nat)
    requires WellFormed(s) && |id| == 8 && k < 4
    ensures Xor(Xor(Rest(s)[k], BytesOf(NumberFor(s, id), 4)[k]), Rest(s)[k + 8]) == id[k]
  {
    NumberBytes(s, id, k);
    ByteSolves(Rest(s)[k], Rest(s)[k + 8], id[k]);
    assert Own(s)[k] == Xor(Rest(s)[k], Rest(s)[k + 8]);
  }

  lemma ByteSolves(a: Byte, c: Byte, t: Byte)
    ensures Xor(Xor(a, Xor(Xor(a, c), t)), c) == t
  {
    XorSolves(a, c, t);
  }

  // ---------------------------------------------------------------- the empty id

  // Every span that names a parent gets a parent id that is not empty.
  ghost predicate RootsAreTold(s: Bytes) {
    forall x :: Is32Bit(x) && x != -1 ==> SpanIdOf(s, Unsigned(x)) != Ok(Zeros(8))
  }

  // A well-formed segment tells its roots from the spans below some span, if and only if its last four
  // folded bytes are not all zero; or the one number with the empty id is that of no parent, -1.
  lemma RootsAreToldExactly(s: Bytes)
    requires WellFormed(s)
    ensures RootsAreTold(s) <==> !SameTail(s, Zeros(8)) || NumberFor(s, Zeros(8)) == UINT32 - 1
  {
    var n := NumberFor(s, Zeros(8));
    if SameTail(s, Zeros(8)) && n != UINT32 - 1 {
      EmptyExactlyAt(s, Signed(n));
    } else {
      forall x | Is32Bit(x) && x != -1 ensures SpanIdOf(s, Unsigned(x)) != Ok(Zeros(8)) {
        EmptyExactlyAt(s, x);
      }
    }
  }

  // The 32-bit number with these bits.
  function Signed(n: nat): (x: int)
    requires n < UINT32
    ensures Is32Bit(x) && Unsigned(x) == n && (x == -1 <==> n == UINT32 - 1)
  {
    if n < 0x8000_0000 then n else n - UINT32
  }

  lemma EmptyExactlyAt(s: Bytes, x: int)
    requires WellFormed(s) && Is32Bit(x)
    ensures SpanIdOf(s, Unsigned(x)) == Ok(Zeros(8))
       <==> SameTail(s, Zeros(8)) && x == Signed(NumberFor(s, Zeros(8)))
  {
    GivesExactly(s, Zeros(8), Unsigned(x));
    if Unsigned(x) == NumberFor(s, Zeros(8)) {
      UnsignedTells(x, Signed(NumberFor(s, Zeros(8))));
    }
  }

  // Where it does, exactly the spans without a parent have an empty parent id.
  lemma RootsAreKept(s: Bytes, span: SwSpan)
    requires WellFormed(s) && RootsAreTold(s) && Is32Bit(span.parentSpanId) && IdsOf(s, span).Ids?
    requires span.parentSpanId == -1 ==> |span.refs| != 1
    ensures IdsOf(s, span).parentSpanId == Zeros(8) <==> span.parentSpanId == -1
  {
  }

  // Where it does not, the children of one span look like roots.
  lemma LooksLikeRoot(s: Bytes, child: SwSpan)
    requires WellFormed(s) && SameTail(s, Zeros(8)) && Is32Bit(child.spanId)
    requires child.parentSpanId != -1 && Unsigned(child.parentSpanId) == NumberFor(s, Zeros(8))
    ensures IdsOf(s, child).Ids? && IdsOf(s, child).parentSpanId == Zeros(8)
  {
    GivesExactly(s, Zeros(8), Unsigned(child.parentSpanId));
    IdBytes(s, Unsigned(child.spanId));
  }

  // So with thirty-two zeros: it is span 0.
  lemma ZerosHideRoots(s: Bytes)
    requires |s| == 32 && (forall k :: 0 <= k < 32 ==> s[k] == 48)
    ensures WellFormed(s) && SameTail(s, Zeros(8)) && NumberFor(s, Zeros(8)) == 0 && !RootsAreTold(s)
  {
    ZeroDigits(s);
    ZeroNumber(s);
    RootsAreToldExactly(s);
  }

  lemma ZeroDigits(s: Bytes)
    requires |s| == 32 && forall k :: 0 <= k < 32 ==> s[k] == 48
    ensures WellFormed(s) && Own(s) == Zeros(8)
  {
    DigitsOnly(s);
    forall k | 0 <= k < 16 ensures Rest(s)[k] == 0 {
      assert Pair(s, k).value == 0;
    }
    XorZero(0);
  }

  lemma ZeroNumber(s: Bytes)
    requires WellFormed(s) && Own(s) == Zeros(8)
    ensures SameTail(s, Zeros(8)) && NumberFor(s, Zeros(8)) == 0
  {
    XorZero(0);
    assert forall k :: 0 <= k < 4 ==> Wanted(s, Zeros(8))[k] == 0;
  }

  lemma DigitsOnly(s: Bytes)
    requires |s| == 32 && forall k :: 0 <= k < 32 ==> Nibble(s[k]).Some?
    ensures WellFormed(s) && Rest(s) == Decoded(s)
    ensures forall k :: 0 <= k < 16 ==> Pair(s, k).Some? && Decoded(s)[k] == Pair(s, k).value
  {
    AllPairsAreGood(s, 0);
    forall k | 0 <= k < 16 ensures Pair(s, k).Some? && Decoded(s)[k] == Pair(s, k).value {
      assert Nibble(s[2 * k]).Some? && Nibble(s[2 * k + 1]).Some?;
    }
  }

  // ---------------------------------------------------------------- two segments

  // Two segments share an id if and only if their last four folded bytes agree; then every span number
  // of the one has the id of exactly one number of the other.
  lemma SegmentsShareExactly(s: Bytes, t: Bytes, x: nat)
    requires WellFormed(s) && WellFormed(t) && x < UINT32
    ensures SpanIdOf(s, x).Ok?
    ensures (exists y: nat :: y < UINT32 && SpanIdOf(t, y) == SpanIdOf(s, x)) <==> SameTail(t, Own(s))
    ensures forall y: nat :: y < UINT32 ==>
              (SpanIdOf(t, y) == SpanIdOf(s, x) <==> SameTail(t, Own(s)) && y == NumberFor(t, SpanIdOf(s, x).bytes))
  {
    IdBytes(s, x);
    var id := SpanIdOf(s, x).bytes;
    assert SameTail(t, id) <==> SameTail(t, Own(s));
    forall y: nat | y < UINT32 ensures SpanIdOf(t, y) == Ok(id) <==> SameTail(t, id) && y == NumberFor(t, id) {
      GivesExactly(t, id, y);
    }
    if SameTail(t, id) {
      assert SpanIdOf(t, NumberFor(t, id)) == SpanIdOf(s, x);
    }
  }

  // There are such segments: any two of 32 digits that differ in the first eight digits alone.
  lemma FirstDigitsDoNotTell(s: Bytes, t: Bytes)
    requires |s| == |t| == 32 && s[8..] == t[8..]
    requires forall k :: 0 <= k < 32 ==> Nibble(s[k]).Some? && Nibble(t[k]).Some?
    ensures WellFormed(s) && WellFormed(t) && SameTail(t, Own(s))
  {
    DigitsOnly(s);
    DigitsOnly(t);
    forall k | 8 <= k < 32 ensures s[k] == t[k] {
      assert s[8..][k - 8] == t[8..][k - 8];
    }
    assert forall k :: 4 <= k < 16 ==> Decoded(s)[k] == Decoded(t)[k];
  }
}
