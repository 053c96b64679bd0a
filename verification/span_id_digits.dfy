// What the text of a segment id says: the digits behind its bytes, the numbers behind its dots, and the
// bytes of a span id that these and the number of the span make.
module SpanIdDigits {
  import opened Wrappers
  import opened SpanIds

  // ---------------------------------------------------------------- hexadecimal digits

  // A value below sixteen as a digit, in small or in capital letters.
  function HexDigit(v: nat, capital: bool): (c: int)
    requires v < 16
  {
    if v < 10 then 48 + v else if capital then 55 + v else 87 + v
  }

  // A character is read as the value it is the digit of.
  lemma NibbleReads(c: Byte)
    ensures forall v: nat :: v < 16 ==> (Nibble(c) == Some(v) <==> c == HexDigit(v, false) || c == HexDigit(v, true))
    ensures Nibble(c).None? <==> forall v: nat :: v < 16 ==> c != HexDigit(v, false) && c != HexDigit(v, true)
  {
    if Nibble(c).Some? {
      var v: nat := Nibble(c).value;
      assert c == HexDigit(v, false) || c == HexDigit(v, true);
    }
  }

  // Each decoded byte, written as two digits, gives back the two characters it was read from, up to case.
  lemma DecodedIsWrittenBack(s: Bytes, k: nat)
    requires |s| >= 32 && k < GoodPairs(s, 0)
    ensures var b := Decoded(s)[k] as int;
            && (s[2 * k] == HexDigit(b / 16, false) || s[2 * k] == HexDigit(b / 16, true))
            && (s[2 * k + 1] == HexDigit(b % 16, false) || s[2 * k + 1] == HexDigit(b % 16, true))
  {
    assert Decoded(s)[k] == DecodedAt(s, k);
    assert Pair(s, k).Some?;
    PairIsWrittenBack(s[2 * k], s[2 * k + 1], Pair(s, k).value);
  }

  lemma PairIsWrittenBack(first: Byte, second: Byte, b: Byte)
    requires Nibble(first).Some? && Nibble(second).Some? && b == 16 * Nibble(first).value + Nibble(second).value
    ensures first == HexDigit(b / 16, false) || first == HexDigit(b / 16, true)
    ensures second == HexDigit(b % 16, false) || second == HexDigit(b % 16, true)
  {
    var hi: nat, lo: nat := Nibble(first).value, Nibble(second).value;
    NibbleReads(first);
    NibbleReads(second);
    assert b / 16 == hi && b % 16 == lo;
  }

  // Decoding stops at the first pair that is not two digits and leaves zeros.
  lemma DecodingStops(s: Bytes, k: nat)
    requires |s| >= 32 && GoodPairs(s, 0) <= k < 16
    ensures Decoded(s)[k] == 0
    ensures k == GoodPairs(s, 0) ==> Nibble(s[2 * k]).None? || Nibble(s[2 * k + 1]).None?
  {
  }

  // ---------------------------------------------------------------- decimal numbers

  function Decimal(n: nat): (s: Bytes)
    ensures s != []
  {
    (if n < 10 then [] else Decimal(n / 10)) + [48 + n % 10]
  }

  lemma DigitsOneMore(before: Bytes, v: nat, d: nat)
    requires Digits(before) == Some(v) && d < 10
    ensures Digits(before + [48 + d]) == Some(10 * v + d)
  {
    var s := before + [48 + d];
    assert s[..|s| - 1] == before;
  }

  lemma {:induction false} DigitsOfDecimal(n: nat)
    ensures Digits(Decimal(n)) == Some(n) && 48 <= Decimal(n)[0] <= 57
  {
    if n < 10 {
      var before: Bytes := [];
      DigitsOneMore(before, 0, n);
      assert Decimal(n) == before + [48 + n];
    } else {
      DigitsOfDecimal(n / 10);
      DigitsOneMore(Decimal(n / 10), n / 10, n % 10);
    }
  }

  // A number written in decimals, with or without a sign, is read as that number as long as 64 bits hold it.
  lemma AtoiReads(n: nat)
    ensures Atoi(Decimal(n)) == if n <= MAX_INT64 then Some(n) else None
    ensures Atoi([43] + Decimal(n)) == if n <= MAX_INT64 then Some(n) else None
    ensures Atoi([45] + Decimal(n)) == if n <= MAX_INT64 + 1 then Some(0 - n) else None
  {
    DigitsOfDecimal(n);
    AtoiIs(Decimal(n), n);
    SignedIs(43, Decimal(n), n);
    SignedIs(45, Decimal(n), n);
  }

  lemma AtoiIs(digits: Bytes, n: nat)
    requires digits != [] && 48 <= digits[0] <= 57 && Digits(digits) == Some(n)
    ensures Atoi(digits) == if n <= MAX_INT64 then Some(n) else None
  {
  }

  lemma SignedIs(sign: Byte, digits: Bytes, n: nat)
    requires (sign == 43 || sign == 45) && digits != [] && Digits(digits) == Some(n)
    ensures var v := if sign == 45 then 0 - n else n;
            Atoi([sign] + digits) == if -MAX_INT64 - 1 <= v <= MAX_INT64 then Some(v) else None
  {
    assert ([sign] + digits)[1..] == digits;
  }

  lemma {:induction false} DigitsAreDigits(s: Bytes)
    ensures Digits(s).Some? <==> forall i :: 0 <= i < |s| ==> 48 <= s[i] <= 57
  {
    if s != [] {
      var n := |s| - 1;
      DigitsAreDigits(s[..n]);
      assert forall i :: 0 <= i < n ==> s[..n][i] == s[i];
    }
  }

  // Nothing else is a number: without the sign there must be digits, and only digits.
  lemma AtoiReadsDigitsOnly(s: Bytes)
    requires Atoi(s).Some?
    ensures var digits := if s[0] == 43 || s[0] == 45 then s[1..] else s;
            digits != [] && forall i :: 0 <= i < |digits| ==> 48 <= digits[i] <= 57
  {
    DigitsAreDigits(if s[0] == 43 || s[0] == 45 then s[1..] else s);
  }

  // ---------------------------------------------------------------- the bytes of a number

  function Power(count: nat): (p: nat)
    ensures p > 0
  {
    if count == 0 then 1 else 256 * Power(count - 1)
  }

  // The number whose bytes these are, the lowest first.
  function Value(bytes: Bytes): nat {
    if bytes == [] then 0
    else
      var high: int := bytes[|bytes| - 1];
      Value(bytes[..|bytes| - 1]) + high * Power(|bytes| - 1)
  }

  // The bytes are those of the number modulo a power of 256: what they leave out is a multiple of it.
  lemma {:induction false} BytesAreTheNumber(n: int, count: nat)
    ensures Value(BytesOf(n, count)) + Shifted(n, count) * Power(count) == n
    ensures Value(BytesOf(n, count)) < Power(count)
  {
    if count > 0 {
      var m, p := count - 1, Power(count - 1);
      BytesAreTheNumber(n, m);
      var bytes := BytesOf(n, count);
      assert bytes[..|bytes| - 1] == BytesOf(n, m) && bytes[|bytes| - 1] == ByteAt(n, m);
      SplitsOff(Shifted(n, m), p, ByteAt(n, m), Shifted(n, count));
      InRange(Value(BytesOf(n, m)), ByteAt(n, m), p);
    }
  }

  lemma SplitsOff(s: int, p: nat, b: int, q: int)
    requires s == 256 * q + b
    ensures s * p == b * p + q * (256 * p)
  {
    assert (256 * q + b) * p == 256 * q * p + b * p;
  }

  lemma InRange(v: nat, b: int, p: nat)
    requires v < p && 0 <= b < 256
    ensures v + b * p < 256 * p
  {
    assert b * p <= 255 * p;
  }

  // ---------------------------------------------------------------- the bytes of a span id

  // A segment id: 32 digits, or those and two numbers behind dots.
  function Dotted(digits: Bytes, first: Bytes, second: Bytes): Bytes {
    digits + [DOT] + first + [DOT] + second
  }

  lemma DottedParts(digits: Bytes, first: Bytes, second: Bytes)
    requires |digits| == 32 && DOT !in digits && DOT !in second
    ensures var s := Dotted(digits, first, second);
            && IndexByte(s, DOT, 0) == 32 && LastIndexByte(s, DOT) == 33 + |first|
            && s[33..33 + |first|] == first && s[34 + |first|..] == second
  {
    var s, p := Dotted(digits, first, second), 33 + |first|;
    assert s[32] == DOT && s[p] == DOT;
    forall k | 0 <= k < 32 ensures s[k] != DOT {
      assert s[k] == digits[k];
    }
    forall k | p < k < |s| ensures s[k] != DOT {
      assert s[k] == second[k - p - 1];
    }
  }

  // Digits and numbers make a well-formed segment id.
  lemma DottedIsWellFormed(digits: Bytes, first: Bytes, second: Bytes)
    requires |digits| == 32 && forall k :: 0 <= k < 32 ==> Nibble(digits[k]).Some?
    requires Atoi(first).Some? && Atoi(second).Some?
    ensures WellFormed(Dotted(digits, first, second)) && WellFormed(digits)
  {
    var s := Dotted(digits, first, second);
    AllPairsAreGood(digits, 0);
    forall k | 0 <= k < 32 ensures s[k] == digits[k] && s[k] != DOT {
      assert Nibble(digits[k]).Some?;
    }
    AllPairsAreGood(s, 0);
    AtoiReadsDigitsOnly(second);
    assert DOT !in second;
    DottedParts(digits, first, second);
  }

  // The UUID of a span: its bytes are those of the digits, the first four mixed with the span's number, the
  // next four with the first number behind a dot, the last eight with the second.
  lemma UuidBytes(digits: Bytes, first: Bytes, second: Bytes, n: nat, k: nat)
    requires |digits| == 32 && (forall i :: 0 <= i < 32 ==> Nibble(digits[i]).Some?) && k < 16
    requires Atoi(first).Some? && Atoi(second).Some?
    ensures var plain, dotted := ToUuid(digits, n), ToUuid(Dotted(digits, first, second), n);
            && plain.Ok? && dotted.Ok?
            && plain.bytes[k] == (if k < 4 then Xor(Decoded(digits)[k], ByteAt(n, k)) else Decoded(digits)[k])
            && dotted.bytes[k]
               == (if k < 4 then Xor(Decoded(digits)[k], ByteAt(n, k))
                   else if k < 8 then Xor(Decoded(digits)[k], ByteAt(Atoi(first).value, k - 4))
                   else Xor(Decoded(digits)[k], ByteAt(Atoi(second).value, k - 8)))
  {
    var s := Dotted(digits, first, second);
    DottedIsWellFormed(digits, first, second);
    AtoiReadsDigitsOnly(second);
    assert DOT !in second;
    SameDigits(digits, s, k);
    DottedParts(digits, first, second);
    MixedBytes(digits, n, k);
    MixedDotted(s, Atoi(first).value, Atoi(second).value, n, k);
  }

  lemma SameDigits(a: Bytes, b: Bytes, k: nat)
    requires |a| >= 32 && |b| >= 32 && k < 16 && GoodPairs(a, 0) == GoodPairs(b, 0) == 16
    requires |a| == 32 && b[..32] == a
    ensures Decoded(a)[k] == Decoded(b)[k]
  {
    assert b[..32][2 * k] == b[2 * k] && b[..32][2 * k + 1] == b[2 * k + 1];
  }

  lemma MixedBytes(s: Bytes, n: nat, k: nat)
    requires WellFormed(s) && |s| == 32 && k < 16
    ensures ToUuid(s, n).Ok?
    ensures ToUuid(s, n).bytes[k] == if k < 4 then Xor(Decoded(s)[k], ByteAt(n, k)) else Decoded(s)[k]
  {
    if k < 4 {
      BytesOfAt(n, 4, k);
    }
  }

  lemma MixedThrice(uid: Bytes, x: Bytes, y: Bytes, z: Bytes, k: nat)
    requires |uid| == 16 && |x| == |y| == 4 && |z| == 8 && k < 16
    ensures Mixed(Mixed(Mixed(uid, 0, x), 4, y), 8, z)[k]
         == Xor(uid[k], if k < 4 then x[k] else if k < 8 then y[k - 4] else z[k - 8])
  {
  }

  lemma MixedDotted(s: Bytes, a: int, b: int, n: nat, k: nat)
    requires WellFormed(s) && |s| > 32 && k < 16
    requires Atoi(s[33..LastIndexByte(s, DOT)]) == Some(a) && Atoi(s[LastIndexByte(s, DOT) + 1..]) == Some(b)
    ensures ToUuid(s, n).Ok?
    ensures ToUuid(s, n).bytes[k]
         == if k < 4 then Xor(Decoded(s)[k], ByteAt(n, k))
            else if k < 8 then Xor(Decoded(s)[k], ByteAt(a, k - 4))
            else Xor(Decoded(s)[k], ByteAt(b, k - 8))
  {
    DottedUuid(s, a, b, n);
    MixedThrice(Decoded(s), BytesOf(n, 4), BytesOf(a, 4), BytesOf(b, 8), k);
    ThreeAt(a, b, n, k);
  }

  lemma ThreeAt(a: int, b: int, n: nat, k: nat)
    requires k < 16
    ensures k < 4 ==> BytesOf(n, 4)[k] == ByteAt(n, k)
    ensures 4 <= k < 8 ==> BytesOf(a, 4)[k - 4] == ByteAt(a, k - 4)
    ensures 8 <= k ==> BytesOf(b, 8)[k - 8] == ByteAt(b, k - 8)
  {
    if k < 4 {
      BytesOfAt(n, 4, k);
    } else if k < 8 {
      BytesOfAt(a, 4, k - 4);
    } else {
      BytesOfAt(b, 8, k - 8);
    }
  }

  lemma DottedUuid(s: Bytes, a: int, b: int, n: nat)
    requires WellFormed(s) && |s| > 32
    requires Atoi(s[33..LastIndexByte(s, DOT)]) == Some(a) && Atoi(s[LastIndexByte(s, DOT) + 1..]) == Some(b)
    ensures ToUuid(s, n) == Ok(Mixed(Mixed(Mixed(Decoded(s), 0, BytesOf(n, 4)), 4, BytesOf(a, 4)), 8, BytesOf(b, 8)))
  {
  }

  // Any other long segment id: what was decoded before the first bad digit, or zeros behind the digits.
  lemma MalformedIs(s: Bytes, n: nat)
    requires |s| >= 32 && !WellFormed(s) && !Panicking(s)
    ensures ToUuid(s, n) == Ok(if exists k :: 0 <= k < 32 && Nibble(s[k]).None? then Decoded(s) else Zeros(16))
  {
    if forall k :: 0 <= k < 32 ==> Nibble(s[k]).Some? {
      AllPairsAreGood(s, 0);
    } else {
      var k :| 0 <= k < 32 && Nibble(s[k]).None?;
      BadDigitStops(s, k);
    }
  }

  lemma BadDigitStops(s: Bytes, k: nat)
    requires |s| >= 32 && k < 32 && Nibble(s[k]).None?
    ensures GoodPairs(s, 0) <= k / 2
  {
    assert k == 2 * (k / 2) || k == 2 * (k / 2) + 1;
    assert Pair(s, k / 2).None?;
  }

  // The span id is the first half of the UUID mixed with the second.
  lemma IdIsHalvesMixed(s: Bytes, n: nat, k: nat)
    requires |s| >= 32 && ToUuid(s, n).Ok? && k < 8
    ensures SpanIdOf(s, n).Ok?
    ensures SpanIdOf(s, n).bytes[k] == Xor(ToUuid(s, n).bytes[k], ToUuid(s, n).bytes[k + 8])
  {
  }

  // A short segment id gives the empty id.
  lemma ShortIsEmpty(s: Bytes, n: nat)
    requires |s| < 32
    ensures SpanIdOf(s, n) == Ok([0, 0, 0, 0, 0, 0, 0, 0])
  {
    assert Zeros(8) == [0, 0, 0, 0, 0, 0, 0, 0];
  }
}
