// Span ids for SkyWalking spans: the segment id and the span's number in it, folded into eight bytes.
module SpanIds {
  import opened Wrappers

  type Byte = b: int | 0 <= b < 256
  type Bytes = seq<Byte>

  const DOT: Byte := 46
  const UINT32 := 0x1_0000_0000
  const MAX_INT64 := 0x7fff_ffff_ffff_ffff

  // ---------------------------------------------------------------- exclusive or

  // Bit by bit, the lowest first.
  function XorBits(a: nat, b: nat): nat
    decreases a + b
  {
    if a == 0 && b == 0 then 0 else 2 * XorBits(a / 2, b / 2) + if a % 2 != b % 2 then 1 else 0
  }

  function Pow2(w: nat): nat {
    if w == 0 then 1 else 2 * Pow2(w - 1)
  }

  lemma {:induction false} XorIsBounded(a: nat, b: nat, w: nat)
    requires a < Pow2(w) && b < Pow2(w)
    ensures XorBits(a, b) < Pow2(w)
  {
    if w > 0 {
      XorIsBounded(a / 2, b / 2, w - 1);
    }
  }

  function Xor(a: Byte, b: Byte): Byte {
    assert Pow2(8) == 256 by {
      assert Pow2(3) == 8;
      assert Pow2(6) == 64;
    }
    XorIsBounded(a, b, 8);
    XorBits(a, b)
  }

  lemma {:induction false} XorTells(a: nat, x: nat, y: nat)
    requires XorBits(a, x) == XorBits(a, y)
    ensures x == y
    decreases a + x + y
  {
    if a + x + y > 0 {
      XorTells(a / 2, x / 2, y / 2);
    }
  }

  lemma {:induction false} XorCommutes(a: nat, b: nat)
    ensures XorBits(a, b) == XorBits(b, a)
    decreases a + b
  {
    if a + b > 0 {
      XorCommutes(a / 2, b / 2);
    }
  }

  function Bit(a: nat, w: nat): bool {
    if w == 0 then a % 2 == 1 else Bit(a / 2, w - 1)
  }

  // A bit of the result is set exactly if it is set in one of the two.
  lemma {:induction false} XorIsBitwise(a: nat, b: nat, w: nat)
    ensures Bit(XorBits(a, b), w) <==> Bit(a, w) != Bit(b, w)
  {
    if w > 0 {
      XorIsBitwise(a / 2, b / 2, w - 1);
      assert XorBits(a, b) / 2 == XorBits(a / 2, b / 2);
    }
  }

  // ---------------------------------------------------------------- the library calls

  // One hexadecimal digit.
  function Nibble(c: Byte): (r: Option<Byte>)
    ensures r.Some? ==> r.value < 16
  {
    if 48 <= c <= 57 then Some(c - 48)
    else if 97 <= c <= 102 then Some(c - 87)
    else if 65 <= c <= 70 then Some(c - 55)
    else None
  }

  function Pair(s: Bytes, i: nat): Option<Byte>
    requires 2 * i + 1 < |s|
  {
    match (Nibble(s[2 * i]), Nibble(s[2 * i + 1]))
    case (Some(a), Some(b)) => Some(16 * a + b)
    case _ => None
  }

  // How many bytes hex.Decode gets out of 32 digits before it meets one that is none.
  function GoodPairs(s: Bytes, i: nat): (n: nat)
    requires |s| >= 32 && i <= 16
    ensures i <= n <= 16
    ensures forall k :: i <= k < n ==> Pair(s, k).Some?
    ensures n < 16 ==> Pair(s, n).None?
    decreases 16 - i
  {
    if i == 16 || Pair(s, i).None? then i else GoodPairs(s, i + 1)
  }

  function DecodedAt(s: Bytes, k: nat): Byte
    requires |s| >= 32 && k < 16
  {
    if k < GoodPairs(s, 0) then Pair(s, k).value else 0
  }

  // What hex.Decode leaves in sixteen zero bytes.
  function Decoded(s: Bytes): (uid: Bytes)
    requires |s| >= 32
    ensures |uid| == 16
  {
    seq(16, k requires 0 <= k < 16 => DecodedAt(s, k))
  }

  function Digits(s: Bytes): Option<nat> {
    if s == [] then Some(0)
    else
      var c := s[|s| - 1];
      var before := Digits(s[..|s| - 1]);
      if 48 <= c <= 57 && before.Some? then Some(10 * before.value + (c - 48)) else None
  }

  // strconv.Atoi: an optional sign, then at least one digit, in the range of 64 bits.
  function Atoi(s: Bytes): Option<int> {
    var digits := if s != [] && (s[0] == 43 || s[0] == 45) then s[1..] else s;
    var d := Digits(digits);
    if digits == [] || d.None? then None
    else
      var v: int := if s[0] == 45 then 0 - d.value else d.value;
      if -MAX_INT64 - 1 <= v <= MAX_INT64 then Some(v) else None
  }

  function IndexByte(s: Bytes, c: Byte, i: nat): (r: int)
    requires i <= |s|
    ensures r == -1 || (i <= r < |s| && s[r] == c)
    ensures forall k :: i <= k < (if r == -1 then |s| else r) ==> s[k] != c
    decreases |s| - i
  {
    if i == |s| then -1 else if s[i] == c then i else IndexByte(s, c, i + 1)
  }

  function LastIndexByte(s: Bytes, c: Byte): (r: int)
    ensures r == -1 || (0 <= r < |s| && s[r] == c)
    ensures forall k :: r < k < |s| ==> s[k] != c
  {
    if s == [] then -1 else if s[|s| - 1] == c then |s| - 1 else LastIndexByte(s[..|s| - 1], c)
  }

  // ---------------------------------------------------------------- the bytes of a number

  // n >> 8k, for negative numbers too.
  function Shifted(n: int, k: nat): int {
    if k == 0 then n else Shifted(n, k - 1) / 256
  }

  function ByteAt(n: int, k: nat): Byte {
    Shifted(n, k) % 256
  }

  lemma DigitsTell(x: nat, y: nat, x': nat, y': nat)
    requires x' == x / 256 && y' == y / 256 && x % 256 == y % 256 && x' == y'
    ensures x == y
  {
  }

  // Four bytes tell a 32-bit number.
  lemma FourBytesTell(x: nat, y: nat)
    requires x < UINT32 && y < UINT32 && forall k :: 0 <= k < 4 ==> ByteAt(x, k) == ByteAt(y, k)
    ensures x == y
  {
    ShiftedIs(x);
    ShiftedIs(y);
    assert ByteAt(x, 3) == ByteAt(y, 3);
    assert ByteAt(x, 2) == ByteAt(y, 2);
    assert ByteAt(x, 1) == ByteAt(y, 1);
    assert ByteAt(x, 0) == ByteAt(y, 0);
    DigitsTell(Shifted(x, 2), Shifted(y, 2), Shifted(x, 3), Shifted(y, 3));
    DigitsTell(Shifted(x, 1), Shifted(y, 1), Shifted(x, 2), Shifted(y, 2));
    DigitsTell(Shifted(x, 0), Shifted(y, 0), Shifted(x, 1), Shifted(y, 1));
  }

  lemma ShiftedIs(x: nat)
    requires x < UINT32
    ensures Shifted(x, 0) == x && Shifted(x, 1) == x / 256
    ensures Shifted(x, 2) == Shifted(x, 1) / 256 && Shifted(x, 3) == Shifted(x, 2) / 256
    ensures 0 <= Shifted(x, 3) < 256
  {
    assert Shifted(x, 1) == Shifted(x, 0) / 256;
    assert Shifted(x, 2) == Shifted(x, 1) / 256;
    assert Shifted(x, 3) == Shifted(x, 2) / 256;
  }

  // The lowest bytes of a number, the lowest first.
  function BytesOf(n: int, count: nat): (bytes: Bytes)
    ensures |bytes| == count
  {
    if count == 0 then [] else BytesOf(n, count - 1) + [ByteAt(n, count - 1)]
  }

  lemma {:induction false} BytesOfAt(n: int, count: nat, k: nat)
    requires k < count
    ensures BytesOf(n, count)[k] == ByteAt(n, k)
  {
    if k < count - 1 {
      BytesOfAt(n, count - 1, k);
    }
  }

  // A UUID with some bytes XORed into it, from a place on.
  function Mixed(uid: Bytes, from: nat, bytes: Bytes): (mixed: Bytes)
    ensures |mixed| == |uid|
  {
    seq(|uid|, i requires 0 <= i < |uid| => MixedAt(uid, from, bytes, i))
  }

  function MixedAt(uid: Bytes, from: nat, bytes: Bytes, i: nat): Byte
    requires i < |uid|
  {
    if from <= i < from + |bytes| then Xor(uid[i], bytes[i - from]) else uid[i]
  }

  // ---------------------------------------------------------------- the conversions

  function Zeros(n: nat): (r: Bytes)
    ensures |r| == n && forall i :: 0 <= i < n ==> r[i] == 0
  {
    if n == 0 then [] else Zeros(n - 1) + [0]
  }

  datatype Outcome = Ok(bytes: Bytes) | Panics

  // swStringToUUID. A single dot, right behind the 32 digits, makes the slice between the dots panic.
  function ToUuid(s: Bytes, extra: nat): (r: Outcome)
    ensures r.Ok? ==> |r.bytes| == 16
  {
    if |s| < 32 then Ok(Zeros(16))
    else if GoodPairs(s, 0) < 16 then Ok(Decoded(s))
    else
      var uid := Mixed(Decoded(s), 0, BytesOf(extra, 4));
      var first, last := IndexByte(s, DOT, 0), LastIndexByte(s, DOT);
      if |s| == 32 then Ok(uid)
      else if first != 32 then Ok(Zeros(16))
      else if last == 32 then Panics
      else
        match (Atoi(s[33..last]), Atoi(s[last + 1..]))
        case (Some(a), Some(b)) => Ok(Mixed(Mixed(uid, 4, BytesOf(a, 4)), 8, BytesOf(b, 8)))
        case _ => Ok(Zeros(16))
  }

  // uuidTo8Bytes
  function Folded(uuid: Bytes): (r: Bytes)
    requires |uuid| == 16
    ensures |r| == 8
  {
    seq(8, i requires 0 <= i < 8 => Xor(uuid[i], uuid[i + 8]))
  }

  // segmentIDToSpanID
  function SpanIdOf(segmentId: Bytes, spanId: nat): (r: Outcome)
    ensures r.Ok? ==> |r.bytes| == 8
  {
    if |segmentId| < 32 then Ok(Zeros(8))
    else
      match ToUuid(segmentId, spanId)
      case Ok(uuid) => Ok(Folded(uuid))
      case Panics => Panics
  }

  // ---------------------------------------------------------------- which segment ids are good

  // A segment id that is 32 hexadecimal digits, alone or followed by two dotted 64-bit numbers.
  predicate WellFormed(s: Bytes) {
    && |s| >= 32 && GoodPairs(s, 0) == 16
    && (|s| == 32
        || (IndexByte(s, DOT, 0) == 32 && LastIndexByte(s, DOT) > 32
            && Atoi(s[33..LastIndexByte(s, DOT)]).Some? && Atoi(s[LastIndexByte(s, DOT) + 1..]).Some?))
  }

  predicate Panicking(s: Bytes) {
    |s| > 32 && GoodPairs(s, 0) == 16 && IndexByte(s, DOT, 0) == 32 && LastIndexByte(s, DOT) == 32
  }

  lemma PanicsExactly(s: Bytes, n: nat)
    ensures SpanIdOf(s, n).Panics? <==> Panicking(s)
  {
  }

  lemma {:induction false} AllPairsAreGood(s: Bytes, i: nat)
    requires |s| >= 32 && i <= 16
    requires forall k :: 0 <= k < 32 ==> Nibble(s[k]).Some?
    ensures GoodPairs(s, i) == 16
    decreases 16 - i
  {
    if i < 16 {
      assert Nibble(s[2 * i]).Some? && Nibble(s[2 * i + 1]).Some?;
      AllPairsAreGood(s, i + 1);
    }
  }

  // The segment ids that panic: any 32 digits, a dot, and anything without another dot.
  lemma OneDotPanics(digits: Bytes, tail: Bytes, n: nat)
    requires |digits| == 32 && (forall k :: 0 <= k < 32 ==> Nibble(digits[k]).Some?) && DOT !in tail
    ensures SpanIdOf(digits + [DOT] + tail, n).Panics?
  {
    var s := digits + [DOT] + tail;
    AllPairsAreGood(s, 0);
    assert s[32] == DOT;
    forall k | 32 < k < |s| ensures s[k] != DOT {
      assert s[k] == tail[k - 33];
    }
    forall k | 0 <= k < 32 ensures s[k] != DOT {
      assert s[k] == digits[k] && Nibble(digits[k]).Some?;
    }
  }

  // What the folded id is but for the span's number.
  function Rest(s: Bytes): (r: Bytes)
    requires WellFormed(s)
    ensures |r| == 16
  {
    if |s| == 32 then Decoded(s)
    else
      Mixed(Mixed(Decoded(s), 4, BytesOf(Atoi(s[33..LastIndexByte(s, DOT)]).value, 4)),
            8, BytesOf(Atoi(s[LastIndexByte(s, DOT) + 1..]).value, 8))
  }

  lemma MixedCommute(uid: Bytes, n: Bytes, a: Bytes, b: Bytes)
    requires |uid| == 16 && |n| == 4
    ensures Mixed(Mixed(Mixed(uid, 0, n), 4, a), 8, b) == Mixed(Mixed(Mixed(uid, 4, a), 8, b), 0, n)
  {
  }

  // The number changes the first four bytes, and those alone.
  lemma NumberIsInFront(s: Bytes, n: nat)
    requires WellFormed(s)
    ensures ToUuid(s, n) == Ok(Mixed(Rest(s), 0, BytesOf(n, 4)))
  {
    if |s| > 32 {
      var last := LastIndexByte(s, DOT);
      MixedCommute(Decoded(s), BytesOf(n, 4), BytesOf(Atoi(s[33..last]).value, 4),
                   BytesOf(Atoi(s[last + 1..]).value, 8));
    }
  }

  // Folding keeps what was XORed into the first half.
  lemma FoldedTells(rest: Bytes, x: Bytes, y: Bytes)
    requires |rest| == 16 && |x| == |y| == 4 && Folded(Mixed(rest, 0, x)) == Folded(Mixed(rest, 0, y))
    ensures x == y
  {
    forall k | 0 <= k < 4 ensures x[k] == y[k] {
      var a, b := rest[k], rest[k + 8];
      assert Folded(Mixed(rest, 0, x))[k] == Xor(Xor(a, x[k]), b);
      assert Folded(Mixed(rest, 0, y))[k] == Xor(Xor(a, y[k]), b);
      XorCommutes(Xor(a, x[k]), b);
      XorCommutes(Xor(a, y[k]), b);
      XorTells(b, Xor(a, x[k]), Xor(a, y[k]));
      XorTells(a, x[k], y[k]);
    }
  }

  // The id tells the number of the span in its segment.
  lemma IdsAreInjective(s: Bytes, x: nat, y: nat)
    requires WellFormed(s) && x < UINT32 && y < UINT32 && SpanIdOf(s, x) == SpanIdOf(s, y)
    ensures x == y
  {
    NumberIsInFront(s, x);
    NumberIsInFront(s, y);
    FoldedTells(Rest(s), BytesOf(x, 4), BytesOf(y, 4));
    SameNumber(x, y);
  }

  lemma SameNumber(x: nat, y: nat)
    requires x < UINT32 && y < UINT32 && BytesOf(x, 4) == BytesOf(y, 4)
    ensures x == y
  {
    forall k | 0 <= k < 4 ensures ByteAt(x, k) == ByteAt(y, k) {
      BytesOfAt(x, 4, k);
      BytesOfAt(y, 4, k);
    }
    FourBytesTell(x, y);
  }

  // Any other segment id gives all its spans one and the same id, or none.
  lemma OtherIdsAreConstant(s: Bytes, x: nat, y: nat)
    requires !WellFormed(s)
    ensures SpanIdOf(s, x) == SpanIdOf(s, y)
  {
  }

  // The spans of a segment get different ids exactly when its segment id is well formed.
  lemma InjectiveExactly(s: Bytes)
    ensures WellFormed(s)
       <==> forall x: nat, y: nat :: x < UINT32 && y < UINT32 && SpanIdOf(s, x) == SpanIdOf(s, y) ==> x == y
  {
    if WellFormed(s) {
      forall x: nat, y: nat | x < UINT32 && y < UINT32 && SpanIdOf(s, x) == SpanIdOf(s, y) ensures x == y {
        IdsAreInjective(s, x, y);
      }
    } else {
      OtherIdsAreConstant(s, 0, 1);
    }
  }

  // ---------------------------------------------------------------- the byte arrays

  // hex.Decode of the 32 digits into sixteen zero bytes; stops at the first that is none.
  method HexDecode(uid: array<Byte>, s: Bytes) returns (ok: bool)
    requires uid.Length == 16 && uid[..] == Zeros(16) && |s| >= 32
    modifies uid
    ensures uid[..] == Decoded(s) && (ok <==> GoodPairs(s, 0) == 16)
  {
    for i := 0 to 16
      invariant GoodPairs(s, 0) == GoodPairs(s, i)
      invariant forall k :: 0 <= k < 16 ==> uid[k] == if k < i then DecodedAt(s, k) else 0
    {
      var pair := Pair(s, i);
      if pair.None? {
        return false;
      }
      uid[i] := pair.value;
    }
    ok := true;
  }

  // The loop that XORs the lowest bytes of a number into an array.
  method XorNumber(uid: array<Byte>, from: nat, count: nat, n: int)
    requires from + count <= uid.Length
    modifies uid
    ensures uid[..] == Mixed(old(uid[..]), from, BytesOf(n, count))
  {
    var left := n;
    ghost var was, bytes := uid[..], BytesOf(n, count);
    for i := 0 to count
      invariant left == Shifted(n, i)
      invariant forall k :: 0 <= k < uid.Length ==>
                  uid[k] == if from <= k < from + i then MixedAt(was, from, bytes, k) else was[k]
    {
      BytesOfAt(n, count, i);
      uid[from + i] := Xor(uid[from + i], left % 256);
      left := left / 256;
    }
  }

  method SwStringToUUID(s: Bytes, extra: nat) returns (r: Outcome)
    ensures r == ToUuid(s, extra)
  {
    if |s| < 32 {
      return Ok(Zeros(16));
    }
    var uid := new Byte[16](i => 0);
    assert uid[..] == Zeros(16);
    var ok := HexDecode(uid, s);
    if !ok {
      return Ok(uid[..]);
    }
    XorNumber(uid, 0, 4, extra);
    if |s| == 32 {
      return Ok(uid[..]);
    }
    var index1, index2 := IndexByte(s, DOT, 0), LastIndexByte(s, DOT);
    if index1 != 32 || index2 < 0 {
      return Ok(Zeros(16));
    }
    if index2 < index1 + 1 {
      return Panics;
    }
    var mid := Atoi(s[index1 + 1..index2]);
    if mid.None? {
      return Ok(Zeros(16));
    }
    var last := Atoi(s[index2 + 1..]);
    if last.None? {
      return Ok(Zeros(16));
    }
    XorNumber(uid, 4, 4, mid.value);
    XorNumber(uid, 8, 8, last.value);
    return Ok(uid[..]);
  }

  method UuidTo8Bytes(uuid: Bytes) returns (dst: Bytes)
    requires |uuid| == 16
    ensures dst == Folded(uuid)
  {
    var bytes := new Byte[8](i => 0);
    for i := 0 to 8
      invariant forall k :: 0 <= k < i ==> bytes[k] == Folded(uuid)[k]
    {
      bytes[i] := Xor(uuid[i], uuid[i + 8]);
    }
    dst := bytes[..];
  }

  method SegmentIDToSpanID(segmentId: Bytes, spanId: nat) returns (r: Outcome)
    ensures r == SpanIdOf(segmentId, spanId)
  {
    if |segmentId| < 32 {
      return Ok(Zeros(8));
    }
    r := SwStringToUUID(segmentId, spanId);
    if r.Ok? {
      var dst := UuidTo8Bytes(r.bytes);
      r := Ok(dst);
    }
  }

  // ---------------------------------------------------------------- the tree of a segment

  datatype Ref = Ref(segmentId: Bytes, spanId: int)
  datatype SwSpan = SwSpan(spanId: int, parentSpanId: int, refs: seq<Ref>)

  // The ids a translated span gets; the parent id stays empty where none is named.
  datatype Ids = Ids(spanId: Bytes, parentSpanId: Bytes) | Panicked

  // The conversion from a signed to an unsigned 32-bit number.
  function Unsigned(n: int): (u: nat)
    ensures u < UINT32
  {
    n % UINT32
  }

  function ParentIdOf(segmentId: Bytes, span: SwSpan): Outcome {
    if span.parentSpanId != -1 then SpanIdOf(segmentId, Unsigned(span.parentSpanId))
    else if |span.refs| == 1 then SpanIdOf(span.refs[0].segmentId, Unsigned(span.refs[0].spanId))
    else Ok(Zeros(8))
  }

  function IdsOf(segmentId: Bytes, span: SwSpan): Ids {
    match (SpanIdOf(segmentId, Unsigned(span.spanId)), ParentIdOf(segmentId, span))
    case (Ok(id), Ok(parent)) => Ids(id, parent)
    case _ => Panicked
  }

  // The ids part of swSpanToSpan.
  method SwSpanToSpan(segmentId: Bytes, span: SwSpan) returns (ids: Ids)
    ensures ids == IdsOf(segmentId, span)
  {
    var id := SegmentIDToSpanID(segmentId, Unsigned(span.spanId));
    if id.Panics? {
      return Panicked;
    }
    var parent := Ok(Zeros(8));
    if span.parentSpanId != -1 {
      parent := SegmentIDToSpanID(segmentId, Unsigned(span.parentSpanId));
    } else if |span.refs| == 1 {
      parent := SegmentIDToSpanID(span.refs[0].segmentId, Unsigned(span.refs[0].spanId));
    }
    if parent.Panics? {
      return Panicked;
    }
    return Ids(id.bytes, parent.bytes);
  }

  ghost predicate Is32Bit(n: int) {
    -0x8000_0000 <= n < 0x8000_0000
  }

  ghost predicate Segment(spans: seq<SwSpan>) {
    && (forall i :: 0 <= i < |spans| ==> Is32Bit(spans[i].spanId) && Is32Bit(spans[i].parentSpanId))
    && (forall i, j :: 0 <= i < j < |spans| ==> spans[i].spanId != spans[j].spanId)
  }

  lemma UnsignedTells(x: int, y: int)
    requires Is32Bit(x) && Is32Bit(y) && Unsigned(x) == Unsigned(y)
    ensures x == y
  {
  }

  lemma SameSpan(s: Bytes, x: int, y: int)
    requires WellFormed(s) && Is32Bit(x) && Is32Bit(y)
    ensures SpanIdOf(s, Unsigned(x)) == SpanIdOf(s, Unsigned(y)) <==> x == y
    ensures SpanIdOf(s, Unsigned(x)).Ok?
  {
    PanicsExactly(s, Unsigned(x));
    if SpanIdOf(s, Unsigned(x)) == SpanIdOf(s, Unsigned(y)) {
      IdsAreInjective(s, Unsigned(x), Unsigned(y));
      UnsignedTells(x, y);
    }
  }

  // No two translated spans of a segment share an id.
  lemma SpansStayDistinct(s: Bytes, spans: seq<SwSpan>, i: nat, j: nat)
    requires WellFormed(s) && Segment(spans) && i < |spans| && j < |spans|
    requires IdsOf(s, spans[i]).Ids? && IdsOf(s, spans[j]).Ids?
    ensures IdsOf(s, spans[i]).spanId == IdsOf(s, spans[j]).spanId <==> i == j
  {
    SameSpan(s, spans[i].spanId, spans[j].spanId);
  }

  // Translation keeps the tree of a segment: a span that names a parent in its segment has another
  // span's id for its parent id exactly if it names that span; a span with neither a parent nor a single
  // reference has it exactly if that id is the empty one.
  lemma TreeIsKept(s: Bytes, spans: seq<SwSpan>, i: nat, j: nat)
    requires WellFormed(s) && Segment(spans) && i < |spans| && j < |spans| && IdsOf(s, spans[j]).Ids?
    ensures spans[i].parentSpanId != -1 ==>
              && IdsOf(s, spans[i]).Ids?
              && (IdsOf(s, spans[i]).parentSpanId == IdsOf(s, spans[j]).spanId
                  <==> spans[i].parentSpanId == spans[j].spanId)
    ensures spans[i].parentSpanId == -1 && |spans[i].refs| != 1 ==>
              && IdsOf(s, spans[i]).Ids?
              && (IdsOf(s, spans[i]).parentSpanId == IdsOf(s, spans[j]).spanId
                  <==> IdsOf(s, spans[j]).spanId == Zeros(8))
  {
    SameSpan(s, spans[i].spanId, spans[i].spanId);
    if spans[i].parentSpanId != -1 {
      SameSpan(s, spans[i].parentSpanId, spans[j].spanId);
    }
  }

  // A reference to a span of another segment finds that span, whatever the segment ids look like.
  lemma ReferenceIsKept(s: Bytes, span: SwSpan, parent: SwSpan)
    requires span.parentSpanId == -1 && |span.refs| == 1 && span.refs[0].spanId == parent.spanId
    requires IdsOf(s, span).Ids? && IdsOf(span.refs[0].segmentId, parent).Ids?
    ensures IdsOf(s, span).parentSpanId == IdsOf(span.refs[0].segmentId, parent).spanId
  {
  }
}
