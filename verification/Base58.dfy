/** The base-58 codec of src/Base58.cpp: bytes and text are the same number in two
    bases, leading zero digits kept as they are. */
module Base58 {
  import opened Numbers
  import opened Radix

  // Conversion of a digit sequence, most significant first, between two bases.

  /** Zero digits in front, a lone last digit not counted. */
  function LeadZeros(s: seq<nat>): (z: nat)
    ensures z <= |s| && (s != [] ==> z < |s|)
    ensures forall i :: 0 <= i < z ==> s[i] == 0
    ensures z + 1 < |s| ==> s[z] != 0
  {
    if |s| > 1 && s[0] == 0 then 1 + LeadZeros(s[1..]) else 0
  }

  function ZeroDigits(n: nat): (s: seq<nat>)
    ensures |s| == n
  {
    seq(n, _ => 0)
  }

  /** The digits the buffer holds after reading s, least significant first. */
  function Buffer(s: seq<nat>, from: nat, to: nat): seq<nat>
    requires to > 1
  {
    if s == [] then [0] else Spread(Buffer(s[..|s| - 1], from, to), from, s[|s| - 1], to)
  }

  function Convert(s: seq<nat>, from: nat, to: nat): seq<nat>
    requires to > 1
  {
    ZeroDigits(LeadZeros(s)) + Rev(Buffer(s, from, to))
  }

  /** The buffer spells the number read, with no digit too many. */
  lemma {:induction false} BufferHolds(s: seq<nat>, from: nat, to: nat)
    requires to > 1 && from > 0
    ensures Num(Buffer(s, from, to), to) == Big(s, from) && Minimal(Buffer(s, from, to), to)
  {
    hide Spread, Num;
    if s == [] {
      ZeroBuffer(to);
    } else {
      var front := s[..|s| - 1];
      BufferHolds(front, from, to);
      NumSpread(Buffer(front, from, to), from, s[|s| - 1], to);
      SpreadMinimal(Buffer(front, from, to), from, s[|s| - 1], to);
    }
  }

  lemma {:induction false} ZeroBuffer(to: nat)
    requires to > 1
    ensures Num([0], to) == 0 && Minimal([0], to)
  {
    NumTail([0], to);
  }

  lemma {:induction false} BigOfZerosThen(z: nat, t: seq<nat>, base: nat)
    ensures Big(ZeroDigits(z) + t, base) == Big(t, base)
    decreases |t| + z
  {
    var s := ZeroDigits(z) + t;
    if t != [] {
      BigOfZerosThen(z, t[..|t| - 1], base);
      assert s[..|s| - 1] == ZeroDigits(z) + t[..|t| - 1];
    } else if z > 0 {
      BigOfZerosThen(z - 1, [], base);
      assert s[..|s| - 1] == ZeroDigits(z - 1) + [];
    }
  }

  lemma {:induction false} LeadZerosOf(z: nat, t: seq<nat>)
    requires t != [] && (|t| > 1 ==> t[0] != 0)
    ensures LeadZeros(ZeroDigits(z) + t) == z
  {
    var s := ZeroDigits(z) + t;
    if z > 0 {
      LeadZerosOf(z - 1, t);
      assert s[1..] == ZeroDigits(z - 1) + t;
    } else {
      assert s == t;
    }
  }

  /** A digit sequence is its zeros in front and a minimal rest. */
  lemma {:induction false} Parted(s: seq<nat>, base: nat)
    requires s != [] && InBase(s, base)
    ensures var t := s[LeadZeros(s)..];
            s == ZeroDigits(LeadZeros(s)) + Rev(Rev(t)) && Minimal(Rev(t), base) && Big(s, base) == Num(Rev(t), base)
  {
    var z := LeadZeros(s);
    var t := s[z..];
    assert s == ZeroDigits(z) + t;
    hide Big, Num, Rev, Minimal;
    RevOfRest(t, base);
    BigOfZerosThen(z, t, base);
    BigOfRev(Rev(t), base);
  }

  lemma RevOfRest(t: seq<nat>, base: nat)
    requires t != [] && InBase(t, base) && (|t| > 1 ==> t[0] != 0)
    ensures Minimal(Rev(t), base) && Rev(Rev(t)) == t
  {
  }

  lemma {:induction false} Joined(z: nat, d: seq<nat>, base: nat)
    requires Minimal(d, base)
    ensures var u := ZeroDigits(z) + Rev(d);
            u != [] && InBase(u, base) && LeadZeros(u) == z && Big(u, base) == Num(d, base)
  {
    hide Big, Num;
    BigOfZerosThen(z, Rev(d), base);
    LeadZerosOf(z, Rev(d));
    BigOfRev(d, base);
  }

  /** Converting there and back gives the same digits, zeros in front included. */
  lemma {:induction false} ConvertRoundTrip(s: seq<nat>, from: nat, to: nat)
    requires s != [] && from > 1 && to > 1 && InBase(s, from)
    ensures Convert(s, from, to) != [] && InBase(Convert(s, from, to), to)
    ensures Convert(Convert(s, from, to), to, from) == s
  {
    hide Buffer, Big, Num, Minimal, InBase, Rev, LeadZeros;
    BufferHolds(s, from, to);
    Parted(s, from);
    Joined(LeadZeros(s), Buffer(s, from, to), to);
    BufferHolds(Convert(s, from, to), to, from);
    MinimalUnique(Buffer(Convert(s, from, to), to, from), Rev(s[LeadZeros(s)..]), from);
  }

  // The buffer is large enough: 58^138 > 256^100.

  lemma {:induction false} BufferFactor()
    ensures Pow(58, 138) >= Pow(256, 100)
  {
    SmallPowers();
    Factor(58, 2, 256);
  }

  lemma {:induction false} SmallPowers()
    ensures Pow(58, 5) >= Pow(2, 29) && Pow(58, 3) >= Pow(2, 17) && Pow(2, 8) == 256
  {
    PowAdd(2, 8, 8);
    PowAdd(2, 16, 1);
    PowAdd(2, 16, 8);
    PowAdd(2, 24, 5);
    assert Pow(58, 5) == 656356768 && Pow(2, 29) == 536870912;
    assert Pow(58, 3) == 195112 && Pow(2, 17) == 131072;
  }

  /** From 58^5 > 2^29 and 58^3 > 2^17, as 138 = 5 * 27 + 3 and 29 * 27 + 17 = 800. */
  lemma {:induction false} Factor(b: nat, two: nat, byteBase: nat)
    requires Pow(b, 5) >= Pow(two, 29) && Pow(b, 3) >= Pow(two, 17) && Pow(two, 8) == byteBase
    ensures Pow(b, 138) >= Pow(byteBase, 100)
  {
    hide Pow;
    PowMul(b, 5, 27);
    PowAdd(b, 135, 3);
    PowMul(two, 29, 27);
    PowAdd(two, 783, 17);
    PowMul(two, 8, 100);
    PowOfLarger(Pow(two, 29), Pow(b, 5), 27);
    TimesAtLeast(Pow(b, 135), Pow(two, 17), Pow(b, 3));
    TimesAtLeast(Pow(two, 17), Pow(two, 783), Pow(b, 135));
  }

  /** More base-58 digits than the buffer has room for would be a larger number than
      n bytes can spell. */
  lemma {:induction false} RoomForDigits(n: nat, k: nat)
    requires k > n * 138 / 100
    ensures Pow(58, k) > Pow(256, n)
  {
    BufferFactor();
    hide Pow;
    PowMul(58, k, 100);
    PowMul(58, 138, n);
    PowMul(256, 100, n);
    PowMul(256, n, 100);
    PowGrows(58, 138 * n, k * 100);
    PowOfLarger(Pow(256, 100), Pow(58, 138), n);
    assert 100 * n == n * 100;
    if Pow(58, k) <= Pow(256, n) {
      PowOfLarger(Pow(58, k), Pow(256, n), 100);
    }
  }

  lemma {:induction false} BigBelow(s: seq<nat>, base: nat)
    requires InBase(s, base)
    ensures Big(s, base) < Pow(base, |s|) || (s == [] && Big(s, base) == 0)
  {
    if s != [] {
      var front := s[..|s| - 1];
      BigBelow(front, base);
      assert Big(s, base) == Big(front, base) * base + s[|front|];
      PowStep(base, |front|);
      hide Big, Pow;
      TimesAtLeast(base, Big(front, base) + 1, Pow(base, |front|));
    }
  }

  lemma {:induction false} EncodeCapacity(s: seq<nat>, n: nat)
    requires InBase(s, 256) && |s| <= n
    ensures |Buffer(s, 256, 58)| <= n * 138 / 100 + 1
  {
    hide Buffer, Big, Pow;
    BufferHolds(s, 256, 58);
    BigBelow(s, 256);
    PowGrows(256, |s|, n);
    MinimalAtLeast(Buffer(s, 256, 58), 58);
    if |Buffer(s, 256, 58)| > n * 138 / 100 + 1 {
      RoomForDigits(n, |Buffer(s, 256, 58)| - 1);
    }
  }

  /** Even with the digit 255 an invalid character stands for, text decodes to no
      more bytes than it has characters. */
  lemma {:induction false} DecodeCapacity(s: seq<nat>)
    requires forall i :: 0 <= i < |s| ==> s[i] < 256
    ensures Big(s, 58) < Pow(256, |s|) || s == []
    ensures |Buffer(s, 58, 256)| <= |s| + if s == [] then 1 else 0
  {
    if s != [] {
      var front := s[..|s| - 1];
      DecodeCapacity(front);
      hide Buffer;
      BufferHolds(s, 58, 256);
      MinimalAtLeast(Buffer(s, 58, 256), 256);
      assert Big(front, 58) <= Pow(256, |front|) - 1;
      if |Buffer(s, 58, 256)| > |s| {
        PowGrows(256, |s|, |Buffer(s, 58, 256)| - 1);
      }
    }
  }

  // src/Base58.cpp:19-37

  /** Digit to character. */
  function Letter(d: nat): (c: byte)
    requires d < 58
  {
    if d < 9 then 49 + d // 1-9
    else if d < 17 then 65 + d - 9 // A-H
    else if d < 22 then 74 + d - 17 // J-N
    else if d < 33 then 80 + d - 22 // P-Z
    else if d < 44 then 97 + d - 33 // a-k
    else 109 + d - 44 // m-z
  }

  /** Low seven bits of a character to digit; 255 where there is none. */
  function DigitOf(c: byte): (d: byte) {
    if 49 <= c <= 57 then c - 49
    else if 65 <= c <= 72 then 9 + c - 65
    else if 74 <= c <= 78 then 17 + c - 74
    else if 80 <= c <= 90 then 22 + c - 80
    else if 97 <= c <= 107 then 33 + c - 97
    else if 109 <= c <= 122 then 44 + c - 109
    else 255
  }

  predicate ValidText(text: seq<byte>) {
    forall i :: 0 <= i < |text| ==> DigitOf(text[i]) < 58
  }

  function Letters(d: seq<nat>): (t: seq<byte>)
    requires InBase(d, 58)
    ensures |t| == |d|
  {
    seq(|d|, i requires 0 <= i < |d| => Letter(d[i]))
  }

  function DigitsOf(text: seq<byte>): (d: seq<nat>)
    ensures |d| == |text|
  {
    seq(|text|, i requires 0 <= i < |text| => DigitOf(text[i] % 128))
  }

  // What the two conversions compute.

  ghost function Encoded(data: seq<byte>): seq<byte>
    requires data != []
  {
    ConvertRoundTrip(data, 256, 58);
    Letters(Convert(data, 256, 58))
  }

  function Marks(text: seq<byte>): (m: seq<nat>)
    ensures |m| == |text| && forall i :: 0 <= i < |text| ==> (m[i] == 0 <==> text[i] == 49)
  {
    seq(|text|, i requires 0 <= i < |text| => if text[i] == 49 then 0 else 1)
  }

  /** Characters '1' in front, a lone last character not counted. */
  function LeadOnes(text: seq<byte>): nat {
    LeadZeros(Marks(text))
  }

  /** Zero bytes are restored for characters '1', not for others that merely share
      its low seven bits and so stand for the same digit. */
  ghost function Decoded(text: seq<byte>): seq<nat> {
    ZeroDigits(LeadOnes(text)) + Rev(Buffer(DigitsOf(text), 58, 256))
  }

  lemma {:induction false} DecodedValid(text: seq<byte>)
    requires ValidText(text)
    ensures Decoded(text) == Convert(DigitsOf(text), 58, 256)
  {
    if text != [] {
      hide DigitOf;
      OneIsZero();
      var z := LeadOnes(text);
      assert forall i :: 0 <= i < |text| ==> text[i] % 128 == text[i];
      assert forall i :: 0 <= i < |text| ==> (DigitsOf(text)[i] == 0 <==> Marks(text)[i] == 0);
      LeadZerosFound(DigitsOf(text), z);
    }
  }

  /** The alphabet: the digits and letters without 0, I, O and l, in ascending order.
      These are 58 characters, so nothing else is. */
  lemma {:induction false} Alphabet()
    ensures forall c: byte :: DigitOf(c) < 58 <==> Alphanumeric(c) && c != 48 && c != 73 && c != 79 && c != 108
    ensures forall d: nat, e: nat :: d < e < 58 ==> Letter(d) < Letter(e)
    ensures forall d: nat :: d < 58 ==> DigitOf(Letter(d)) == d
    ensures forall c: byte :: DigitOf(c) < 58 || DigitOf(c) == 255
  {
  }

  predicate Alphanumeric(c: byte) {
    48 <= c <= 57 || 65 <= c <= 90 || 97 <= c <= 122
  }

  /** Decoding makes the number that the characters' values spell, the top bit of a character
      not looked at and 255 standing for one that has no value. */
  lemma {:induction false} DecodeSpells(text: seq<byte>, i: nat)
    requires i < |text|
    ensures Big(Decoded(text), 256) == Big(DigitsOf(text), 58)
    ensures var c: int := if text[i] >= 128 then text[i] - 128 else text[i];
            if exists d: nat :: d < 58 && Letter(d) == c then DigitsOf(text)[i] < 58 && Letter(DigitsOf(text)[i]) == c
            else DigitsOf(text)[i] == 255
  {
    var digits := DigitsOf(text);
    ValueOfChar(text[i]);
    hide DigitOf, Letter, Big, Num, Buffer;
    BufferHolds(digits, 58, 256);
    BigOfZerosThen(LeadOnes(text), Rev(Buffer(digits, 58, 256)), 256);
    BigOfRev(Buffer(digits, 58, 256), 256);
  }

  lemma {:induction false} ValueOfChar(c: byte)
    ensures var b: int := if c >= 128 then c - 128 else c;
            if exists d: nat :: d < 58 && Letter(d) == b then DigitOf(c % 128) < 58 && Letter(DigitOf(c % 128)) == b
            else DigitOf(c % 128) == 255
  {
    var b: int := if c >= 128 then c - 128 else c;
    assert c % 128 == b;
    if DigitOf(c % 128) < 58 {
      assert Letter(DigitOf(c % 128)) == b;
    }
  }

  lemma OneIsZero()
    ensures forall c: byte :: DigitOf(c) < 58 ==> c < 128 && (DigitOf(c) == 0 <==> c == 49)
  {
  }

  lemma LettersRead(d: seq<nat>)
    requires InBase(d, 58)
    ensures ValidText(Letters(d)) && DigitsOf(Letters(d)) == d
  {
  }

  lemma DigitsWrite(text: seq<byte>)
    requires ValidText(text)
    ensures InBase(DigitsOf(text), 58) && Letters(DigitsOf(text)) == text
  {
  }

  /** Decoding an encoding gives the bytes back. */
  lemma {:induction false} DecodeEncode(data: seq<byte>)
    requires data != []
    ensures ValidText(Encoded(data)) && Encoded(data) != []
    ensures Decoded(Encoded(data)) == data
  {
    hide Convert, Letter, DigitOf;
    ConvertRoundTrip(data, 256, 58);
    LettersRead(Convert(data, 256, 58));
    DecodedValid(Encoded(data));
  }

  lemma {:induction false} BigIsZero(s: seq<nat>, base: nat)
    requires base > 0
    ensures Big(s, base) == 0 <==> forall i :: 0 <= i < |s| ==> s[i] == 0
  {
    if s != [] {
      var front := s[..|s| - 1];
      BigIsZero(front, base);
      TimesIsZero(Big(front, base), base);
      assert forall i :: 0 <= i < |front| ==> front[i] == s[i];
    }
  }

  lemma TimesIsZero(a: nat, b: nat)
    requires b > 0
    ensures a * b >= 0 && (a * b == 0 <==> a == 0)
  {
  }

  lemma {:induction false} ZerosInFront(s: seq<nat>, base: nat, k: nat)
    requires s != [] && base > 0
    ensures (k <= |s| && forall i :: 0 <= i < k ==> s[i] == 0)
            <==> k <= LeadZeros(s) + if Big(s, base) == 0 then 1 else 0
  {
    hide Big;
    BigIsZero(s, base);
    var z := LeadZeros(s);
    if Big(s, base) == 0 {
      assert z + 1 == |s|;
    } else {
      assert s[z] != 0;
    }
  }

  /** The text spells the number the bytes spell, and has just as many '1' in front as
      the bytes have zeros. */
  lemma {:induction false} EncodeSpells(data: seq<byte>, k: nat)
    requires data != []
    ensures Big(DigitsOf(Encoded(data)), 58) == Big(data, 256)
    ensures k <= |data| && (forall i :: 0 <= i < k ==> data[i] == 0)
            <==> k <= |Encoded(data)| && forall i :: 0 <= i < k ==> Encoded(data)[i] == 49
  {
    var digits := Convert(data, 256, 58);
    ConvertRoundTrip(data, 256, 58);
    LettersRead(digits);
    BufferHolds(data, 256, 58);
    Joined(LeadZeros(data), Buffer(data, 256, 58), 58);
    ZerosInFront(data, 256, k);
    ZerosInFront(digits, 58, k);
    hide Big, Convert, Letter, DigitOf;
    ZeroIsOne(digits);
  }

  lemma ZeroIsOne(d: seq<nat>)
    requires InBase(d, 58)
    ensures forall i :: 0 <= i < |d| ==> (Letters(d)[i] == 49 <==> d[i] == 0)
  {
  }

  /** Encoding the bytes of a valid text gives the text back. */
  lemma {:induction false} EncodeDecode(text: seq<byte>)
    requires text != [] && ValidText(text)
    ensures Decoded(text) != [] && InBase(Decoded(text), 256)
    ensures forall data: seq<byte> :: data == Decoded(text) ==> Encoded(data) == text
  {
    hide Convert, Letter, DigitOf;
    DigitsWrite(text);
    DecodedValid(text);
    ConvertRoundTrip(DigitsOf(text), 58, 256);
  }

  lemma BufferStart(from: nat, to: nat)
    requires to > 1
    ensures Buffer([], from, to) == [0]
  {
  }

  lemma {:induction false} BufferNext(s: seq<nat>, i: nat, from: nat, to: nat)
    requires i < |s| && to > 1
    ensures Buffer(s[..i + 1], from, to) == Spread(Buffer(s[..i], from, to), from, s[i], to)
  {
    assert s[..i + 1][..i] == s[..i];
  }

  lemma {:induction false} LeadZerosFound(s: seq<nat>, z: nat)
    requires z < |s| && (forall k :: 0 <= k < z ==> s[k] == 0) && (z + 1 < |s| ==> s[z] != 0)
    ensures LeadZeros(s) == z
  {
    LeadZerosOf(z, s[z..]);
    assert ZeroDigits(z) + s[z..] == s;
  }

  /** The two conversions: bytes into base-58 digits and back. */
  predicate Conversion(from: nat, to: nat) {
    (from == 256 && to == 58) || (from == 58 && to == 256)
  }

  lemma CarryStaysByte(carry: byte, x: byte, from: nat, to: nat)
    requires Conversion(from, to) && (to == 58 ==> x < 58)
    ensures Div(carry + x * from, to) < 256 && Mod(carry + x * from, to) < 256
  {
  }

  /** The carry, which never leaves a byte, taken through the digits there are. */
  method CarryThrough(buffer: array<byte>, len: nat, c: byte, from: nat, to: nat) returns (carry: byte)
    requires Conversion(from, to) && len <= buffer.Length && InBase(buffer[..len], to)
    modifies buffer
    ensures buffer[..len] + Carried(carry, to) == Spread(old(buffer[..len]), from, c, to)
  {
    hide Spread, Carried, Div, Mod;
    ghost var before: seq<nat>, done: seq<nat> := buffer[..len], [];
    carry := c;
    for j := 0 to len
      invariant done == buffer[..j] && forall k :: j <= k < len ==> buffer[k] == before[k]
      invariant done + Spread(before[j..], from, carry, to) == Spread(before, from, c, to)
    {
      SpreadStep(done, before, j, from, carry, to);
      assert before[j] == buffer[j] < to;
      CarryStaysByte(carry, buffer[j], from, to);
      var total := carry + buffer[j] * from;
      buffer[j] := Mod(total, to);
      carry := Div(total, to);
      done := done + [buffer[j] as nat];
    }
    SpreadEnds(before, from, carry, to);
  }

  /** What is left of the carry written out as new digits. */
  method WriteCarry(buffer: array<byte>, len: nat, c: byte, to: nat) returns (newLen: nat)
    requires 2 <= to <= 256 && len + |Carried(c, to)| <= buffer.Length
    modifies buffer
    ensures newLen <= buffer.Length && buffer[..newLen] == old(buffer[..len]) + Carried(c, to)
  {
    hide Carried, Div, Mod;
    ghost var done: seq<nat> := buffer[..len];
    newLen := len;
    var carry := c;
    CarryEnds(done, to);
    while carry != 0
      invariant newLen + |Carried(carry, to)| <= buffer.Length && done == buffer[..newLen]
      invariant done + Carried(carry, to) == old(buffer[..len]) + Carried(c, to)
      decreases carry
    {
      CarryStep(done, carry, to);
      DigitIsByte(carry, to);
      buffer[newLen] := Mod(carry, to);
      done := done + [buffer[newLen] as nat];
      newLen := newLen + 1;
      carry := Div(carry, to);
    }
    CarryEnds(done, to);
  }

  lemma {:induction false} DigitIsByte(carry: byte, to: nat)
    requires carry > 0 && 2 <= to <= 256
    ensures Mod(carry, to) < 256 && Div(carry, to) < carry
    ensures |Carried(carry, to)| == 1 + |Carried(Div(carry, to), to)|
  {
  }

  // src/Base58.cpp:53-61
  /** One byte taken into the digits. */
  method PushByte(digits: array<byte>, len: nat, b: byte) returns (digitsLen: nat)
    requires len <= digits.Length && InBase(digits[..len], 58)
    requires |Spread(digits[..len], 256, b, 58)| <= digits.Length
    modifies digits
    ensures digitsLen <= digits.Length
    ensures digits[..digitsLen] == Spread(old(digits[..len]), 256, b, 58)
  {
    hide Spread, Carried, InBase;
    var carry := CarryThrough(digits, len, b, 256, 58);
    digitsLen := WriteCarry(digits, len, carry, 58);
  }

  // src/Base58.cpp:85-94
  /** One digit taken into the bytes; result[j] and the carry are cut to eight bits
      as the source's casts and shifts do. */
  method PushDigit(result: array<byte>, len: nat, c: byte) returns (resultLen: nat)
    requires len <= result.Length
    requires |Spread(result[..len], 58, c, 256)| <= result.Length
    modifies result
    ensures resultLen <= result.Length
    ensures result[..resultLen] == Spread(old(result[..len]), 58, c, 256)
  {
    hide Spread, Carried;
    var carry := CarryThrough(result, len, c, 58, 256);
    resultLen := WriteCarry(result, len, carry, 256);
  }

  // src/Base58.cpp:49-71
  /** The length minus one underflows on no bytes at all, so there must be some. */
  method Encode(data: seq<byte>) returns (text: seq<byte>)
    requires data != []
    ensures text == Encoded(data)
  {
    hide Spread, Buffer, Carried, Letter;
    var digits := new byte[|data| * 138 / 100 + 1](_ => 0);
    var digitsLen := 1;
    BufferStart(256, 58);
    for i := 0 to |data|
      invariant 0 <= digitsLen <= digits.Length
      invariant digits[..digitsLen] == Buffer(data[..i], 256, 58)
    {
      BufferNext(data, i, 256, 58);
      BufferHolds(data[..i], 256, 58);
      EncodeCapacity(data[..i + 1], |data|);
      digitsLen := PushByte(digits, digitsLen, data[i]);
    }
    assert data[..|data|] == data;
    BufferHolds(data, 256, 58);
    text := Spelled(data, digits[..digitsLen]);
  }

  // src/Base58.cpp:63-70
  /** The text of a filled buffer: a '1' for each zero byte in front, then the digits. */
  method Spelled(data: seq<byte>, digits: seq<byte>) returns (text: seq<byte>)
    requires data != [] && InBase(digits, 58)
    ensures text == Letters(ZeroDigits(LeadZeros(data)) + Rev(digits))
  {
    hide Letter;
    text := [];
    var zeros := 0;
    while zeros < |data| - 1 && data[zeros] == 0
      invariant 0 <= zeros < |data| && text == Letters(ZeroDigits(zeros))
      invariant forall k :: 0 <= k < zeros ==> data[k] == 0
    {
      LettersPush(ZeroDigits(zeros), 0);
      assert ZeroDigits(zeros) + [0] == ZeroDigits(zeros + 1);
      text := text + [Letter(0)];
      zeros := zeros + 1;
    }
    LeadZerosFound(data, zeros);
    ghost var all: seq<nat> := ZeroDigits(zeros) + Rev(digits);
    assert all[..zeros] == ZeroDigits(zeros);
    for i := 0 to |digits|
      invariant InBase(all, 58) && text == Letters(all[..zeros + i])
    {
      LettersPush(all[..zeros + i], all[zeros + i]);
      assert all[..zeros + i] + [all[zeros + i]] == all[..zeros + i + 1];
      text := text + [Letter(digits[|digits| - 1 - i])];
    }
    assert all[..zeros + |digits|] == all;
  }

  lemma {:induction false} LettersPush(d: seq<nat>, x: nat)
    requires InBase(d, 58) && x < 58
    ensures Letters(d) + [Letter(x)] == Letters(d + [x])
  {
    hide Letter;
  }

  // src/Base58.cpp:82-101
  method Decode(text: seq<byte>) returns (bytes: seq<byte>)
    requires text != []
    ensures bytes == Decoded(text)
  {
    hide Spread, Buffer, Carried, DigitOf;
    var result := new byte[|text| * 138 / 100 + 1](_ => 0);
    var resultLen := 1;
    ghost var digits := DigitsOf(text);
    BufferStart(58, 256);
    for i := 0 to |text|
      invariant 0 <= resultLen <= result.Length
      invariant result[..resultLen] == Buffer(digits[..i], 58, 256)
    {
      BufferNext(digits, i, 58, 256);
      DecodeCapacity(digits[..i + 1]);
      resultLen := PushDigit(result, resultLen, DigitOf(text[i] % 128));
    }
    assert digits[..|text|] == digits;
    bytes := result[..resultLen];
    var zeros := 0;
    while zeros < |text| - 1 && text[zeros] == 49
      invariant 0 <= zeros < |text| && bytes == result[..resultLen] + ZeroDigits(zeros)
      invariant forall k :: 0 <= k < zeros ==> text[k] == 49
    {
      bytes := bytes + [0];
      zeros := zeros + 1;
    }
    LeadZerosFound(Marks(text), zeros);
    bytes := Rev(bytes);
    assert bytes == ZeroDigits(zeros) + Rev(result[..resultLen]);
  }
}
