/** The string encodings of src/BitIO.cpp:789-1058 over plain bit sequences:
    Alpha (base 45, two characters to 11 bits), 3B40 (base 40, three to 16 bits),
    hex nibbles, and UTF-8 with its continuation markers squeezed out. */
module TextCodecs {
  import opened Fields
  import opened Numbers
  import opened Results
  import opened Words

  type Text = seq<byte>

  const DIGITS := "0123456789"
  const LETTERS := "abcdefghijklmnopqrstuvwxyz"
  const ALPHA := DIGITS + LETTERS + " $%*+-./:"
  const THREE_B40 := DIGITS + LETTERS + "#$&."
  const HEX := "0123456789abcdef"

  /** A result with more text or bits in front of it. */
  function Before<T>(front: seq<T>, r: Result<seq<T>>): Result<seq<T>> {
    match r
    case Ok(rest) => Ok(front + rest)
    case Err => Err
  }

  function TextBefore(front: Text, r: Result<(Text, nat)>): Result<(Text, nat)> {
    match r
    case Ok((rest, q)) => Ok((front + rest, q))
    case Err => Err
  }

  lemma {:induction false} BeforeBefore<T>(a: seq<T>, b: seq<T>, r: Result<seq<T>>)
    ensures Before(a, Before(b, r)) == Before(a + b, r)
  {
    if r.Ok? {
      assert a + (b + r.value) == a + b + r.value;
    }
  }

  lemma {:induction false} TextBeforeBefore(a: Text, b: Text, r: Result<(Text, nat)>)
    ensures TextBefore(a, TextBefore(b, r)) == TextBefore(a + b, r)
  {
    if r.Ok? {
      assert a + (b + r.value.0) == a + b + r.value.0;
    }
  }

  // Characters and their places in a set.

  // src/BitIO.cpp:183-189
  /** The first place of c in the set. */
  function CharPos(c: byte, set_: string): (r: Result<nat>)
    ensures r.Ok? ==> r.value < |set_| && set_[r.value] as int == c
    ensures r.Err? ==> forall i :: 0 <= i < |set_| ==> set_[i] as int != c
  {
    if set_ == "" then Err
    else if set_[0] as int == c then Ok(0)
    else var i :- CharPos(c, set_[1..]); Ok(i + 1)
  }

  /** The character a decoder takes for index i. One past the end of the set the
      source reads the string's terminator; farther on, where only a lone Alpha character's
      6 bits and a 3B40 pair's 11 bits can lead, it reads outside the string, which no model
      can say more of. */
  function CharAt(set_: string, i: nat): byte {
    if i < |set_| && set_[i] as int < 256 then set_[i] as int else 0
  }

  /** The number a group of characters spells in the set's base. */
  function Number(g: Text, set_: string, base: nat): Result<nat> {
    if g == [] then Ok(0)
    else
      var v :- Number(g[..|g| - 1], set_, base);
      var i :- CharPos(g[|g| - 1], set_);
      Ok(v * base + i)
  }

  /** A group as one number in a field of the given width. */
  function Group(g: Text, set_: string, base: nat, width: nat): Result<seq<bool>> {
    var v :- Number(g, set_, base);
    if v < Pow2(width) then Ok(Bits(v, width)) else Err
  }

  lemma {:induction false} GroupReadsBack(g: Text, set_: string, base: nat, width: nat, s: seq<bool>, p: nat)
    requires Group(g, set_, base, width).Ok?
    requires At(s, p, Group(g, set_, base, width).value)
    ensures Read(s, p, width) == Number(g, set_, base)
  {
    hide Bits, Pow2, Number;
    ReadField(s, p, Number(g, set_, base).value, width);
  }

  lemma {:induction false} NumberOfOne(g: Text, set_: string, base: nat)
    requires |g| == 1 && Number(g, set_, base).Ok?
    ensures CharAt(set_, Number(g, set_, base).value) == g[0]
  {
    assert g[..0] == [];
  }

  lemma {:induction false} NumberOfTwo(g: Text, set_: string, base: nat)
    requires |g| == 2 && base == |set_| && Number(g, set_, base).Ok?
    ensures CharAt(set_, Number(g, set_, base).value / base) == g[0]
    ensures CharAt(set_, Number(g, set_, base).value % base) == g[1]
  {
    NumberOfOne(g[..1], set_, base);
    DivModUnique(Number(g[..1], set_, base).value, CharPos(g[1], set_).value, base);
  }

  lemma {:induction false} NumberOfThree(g: Text, set_: string, base: nat)
    requires |g| == 3 && base == |set_| && Number(g, set_, base).Ok?
    ensures CharAt(set_, Number(g, set_, base).value / base / base) == g[0]
    ensures CharAt(set_, Number(g, set_, base).value / base % base) == g[1]
    ensures CharAt(set_, Number(g, set_, base).value % base) == g[2]
  {
    NumberOfTwo(g[..2], set_, base);
    DivModUnique(Number(g[..2], set_, base).value, CharPos(g[2], set_).value, base);
  }

  // Alpha

  function AlphaBits(m: Text): (r: Result<seq<bool>>)
  {
    if m == [] then Ok([])
    else if |m| == 1 then Group(m, ALPHA, 45, 6)
    else var g :- Group(m[..2], ALPHA, 45, 11); Before(g, AlphaBits(m[2..]))
  }

  function AlphaAt(s: seq<bool>, p: nat, n: nat): Result<(Text, nat)>
    decreases n
  {
    if n == 0 then Ok(([], p))
    else if n == 1 then var v :- Read(s, p, 6); Ok(([CharAt(ALPHA, v)], p + 6))
    else var v :- Read(s, p, 11); TextBefore([CharAt(ALPHA, v / 45), CharAt(ALPHA, v % 45)], AlphaAt(s, p + 11, n - 2))
  }

  lemma {:induction false} AlphaRoundTrip(m: Text, s: seq<bool>, p: nat)
    requires AlphaBits(m).Ok? && At(s, p, AlphaBits(m).value)
    ensures AlphaAt(s, p, |m|) == Ok((m, p + |AlphaBits(m).value|))
    decreases |m|
  {
    hide Bits, Pow2, Number, Read;
    if |m| == 1 {
      GroupReadsBack(m, ALPHA, 45, 6, s, p);
      NumberOfOne(m, ALPHA, 45);
      assert m == [m[0]];
    } else if |m| > 1 {
      var g := Group(m[..2], ALPHA, 45, 11).value;
      AtParts(s, p, g, AlphaBits(m[2..]).value);
      GroupReadsBack(m[..2], ALPHA, 45, 11, s, p);
      NumberOfTwo(m[..2], ALPHA, 45);
      AlphaRoundTrip(m[2..], s, p + 11);
      assert m == [m[0], m[1]] + m[2..];
    }
  }

  // 3B40

  function B40Bits(m: Text): (r: Result<seq<bool>>) {
    if m == [] then Ok([])
    else if |m| == 1 then Group(m, THREE_B40, 40, 5)
    else if |m| == 2 then Group(m, THREE_B40, 40, 11)
    else var g :- Group(m[..3], THREE_B40, 40, 16); Before(g, B40Bits(m[3..]))
  }

  function B40At(s: seq<bool>, p: nat, n: nat): Result<(Text, nat)>
    decreases n
  {
    if n == 0 then Ok(([], p))
    else if n == 1 then var v :- Read(s, p, 5); Ok(([CharAt(THREE_B40, v)], p + 5))
    else if n == 2 then
      var v :- Read(s, p, 11); Ok(([CharAt(THREE_B40, v / 40), CharAt(THREE_B40, v % 40)], p + 11))
    else
      var v :- Read(s, p, 16);
      TextBefore(B40Three(v), B40At(s, p + 16, n - 3))
  }

  /** The decoder's way of splitting a 16-bit group. */
  lemma SplitThree(v: nat)
    ensures v / 1600 == v / 40 / 40 && v % 1600 / 40 == v / 40 % 40 && v % 1600 % 40 == v % 40
  {
  }

  function B40Three(v: nat): Text {
    [CharAt(THREE_B40, v / 1600), CharAt(THREE_B40, v % 1600 / 40), CharAt(THREE_B40, v % 1600 % 40)]
  }

  lemma {:induction false} B40ThreeReadsBack(g: Text, s: seq<bool>, p: nat)
    requires |g| == 3 && Group(g, THREE_B40, 40, 16).Ok?
    requires At(s, p, Group(g, THREE_B40, 40, 16).value)
    ensures Read(s, p, 16).Ok? && B40Three(Read(s, p, 16).value) == g
  {
    hide Bits, Pow2, Number, Read, CharAt;
    GroupReadsBack(g, THREE_B40, 40, 16, s, p);
    NumberOfThree(g, THREE_B40, 40);
    SplitThree(Number(g, THREE_B40, 40).value);
    assert g == [g[0], g[1], g[2]];
  }

  lemma {:induction false} B40RoundTrip(m: Text, s: seq<bool>, p: nat)
    requires B40Bits(m).Ok? && At(s, p, B40Bits(m).value)
    ensures B40At(s, p, |m|) == Ok((m, p + |B40Bits(m).value|))
    decreases |m|
  {
    hide Bits, Pow2, Number, Read, B40Three;
    if |m| == 1 {
      GroupReadsBack(m, THREE_B40, 40, 5, s, p);
      NumberOfOne(m, THREE_B40, 40);
      assert m == [m[0]];
    } else if |m| == 2 {
      GroupReadsBack(m, THREE_B40, 40, 11, s, p);
      NumberOfTwo(m, THREE_B40, 40);
      assert m == [m[0], m[1]];
    } else if |m| > 2 {
      var g := Group(m[..3], THREE_B40, 40, 16).value;
      AtParts(s, p, g, B40Bits(m[3..]).value);
      B40ThreeReadsBack(m[..3], s, p);
      B40RoundTrip(m[3..], s, p + 16);
      assert m == m[..3] + m[3..];
    }
  }

  ghost predicate AllIn(m: Text, set_: string) {
    forall i :: 0 <= i < |m| ==> CharPos(m[i], set_).Ok?
  }

  lemma {:induction false} AllInParts(m: Text, k: nat, set_: string)
    requires k <= |m|
    ensures AllIn(m, set_) <==> AllIn(m[..k], set_) && AllIn(m[k..], set_)
  {
    hide CharPos;
    assert forall i :: k <= i < |m| ==> m[i] == m[k..][i - k];
  }

  /** 3B40 refuses exactly the texts with a character outside the set, and those
      that leave a lone last character with an index too large for 5 bits. */
  lemma {:induction false} B40Domain(m: Text)
    ensures B40Bits(m).Ok? <==>
            AllIn(m, THREE_B40) && (|m| % 3 == 1 ==> CharPos(m[|m| - 1], THREE_B40).value < 32)
    decreases |m|
  {
    hide Group, CharPos, AllIn;
    if |m| == 1 {
      GroupDomain(m, 5);
    } else if |m| == 2 {
      GroupDomain(m, 11);
    } else if |m| > 2 {
      GroupDomain(m[..3], 16);
      B40Domain(m[3..]);
      AllInParts(m, 3, THREE_B40);
    } else {
      NoneOutside(THREE_B40);
    }
  }

  lemma NoneOutside(set_: string)
    ensures AllIn([], set_)
  {
  }

  lemma {:induction false} GroupDomain(g: Text, width: nat)
    requires (|g|, width) in {(1, 5), (2, 11), (3, 16)}
    ensures Group(g, THREE_B40, 40, width).Ok? <==>
            AllIn(g, THREE_B40) && (|g| == 1 ==> CharPos(g[0], THREE_B40).value < 32)
  {
    FieldSizes();
    hide Bits, Pow2, Number;
    NumberRange(g, THREE_B40, 40);
  }

  lemma {:induction false} FieldSizes()
    ensures Pow2(4) == 16 && Pow2(5) == 32 && Pow2(6) == 64 && Pow2(11) == 2048 && Pow2(16) == 65536
    ensures Pow2(8) == 256 && Pow2(13) == 8192 && Pow2(19) == 524288 && Pow2(24) == 16777216 && Pow2(7) == 128
  {
    assert Pow2(8) == 256;
    Pow2Add(5, 6);
    Pow2Add(8, 8);
    Pow2Add(8, 5);
    Pow2Add(13, 6);
    Pow2Add(16, 8);
  }

  /** A group spells a number exactly when its characters are all in the set; how
      large that number can be. */
  lemma {:induction false} NumberRange(g: Text, set_: string, base: nat)
    requires 1 <= |g| <= 3 && base == |set_| && base in {40, 45}
    ensures Number(g, set_, base).Ok? <==> forall i :: 0 <= i < |g| ==> CharPos(g[i], set_).Ok?
    ensures Number(g, set_, base).Ok? ==>
              Number(g, set_, base).value
              < if |g| == 1 then base else if |g| == 2 then base * base else base * base * base
    ensures |g| == 1 ==> Number(g, set_, base) == CharPos(g[0], set_)
  {
    assert g[..|g| - 1][..0] == [];
    if |g| > 1 {
      NumberRange(g[..|g| - 1], set_, base);
      assert forall i :: 0 <= i < |g| - 1 ==> g[i] == g[..|g| - 1][i];
    }
  }

  // Hex

  function ToLower(c: byte): byte {
    if 65 <= c <= 90 then c + 32 else c
  }

  function Lowered(m: Text): (t: Text)
    ensures |t| == |m|
  {
    if m == [] then [] else [ToLower(m[0])] + Lowered(m[1..])
  }

  function HexBits(m: Text): Result<seq<bool>> {
    if m == [] then Ok([])
    else var i :- CharPos(ToLower(m[0]), HEX); Before(Bits(i, 4), HexBits(m[1..]))
  }

  function HexAt(s: seq<bool>, p: nat, n: nat): Result<(Text, nat)>
    decreases n
  {
    if n == 0 then Ok(([], p))
    else var v :- Read(s, p, 4); TextBefore([CharAt(HEX, v)], HexAt(s, p + 4, n - 1))
  }

  lemma {:induction false} HexRoundTrip(m: Text, s: seq<bool>, p: nat)
    requires HexBits(m).Ok? && At(s, p, HexBits(m).value)
    ensures HexAt(s, p, |m|) == Ok((Lowered(m), p + 4 * |m|))
    ensures |HexBits(m).value| == 4 * |m|
  {
    FieldSizes();
    hide Bits, Pow2, Read;
    if m != [] {
      var i := CharPos(ToLower(m[0]), HEX).value;
      AtParts(s, p, Bits(i, 4), HexBits(m[1..]).value);
      ReadField(s, p, i, 4);
      HexRoundTrip(m[1..], s, p + 4);
    }
  }

  // UTF-8

  predicate Continuation(b: byte) {
    128 <= b < 192
  }

  // src/BitIO.cpp:244-252
  /** Bytes that start a character. */
  function Count(m: Text): nat {
    if m == [] then 0 else (if Continuation(m[0]) then 0 else 1) + Count(m[1..])
  }

  /** The packed bits of the rest of a text, `remaining`, `width` and `block` being
      what the encoder carries from byte to byte. A sequence cut short at the end
      of the text is dropped without complaint. */
  function Utf8Bits(m: Text, remaining: nat, width: nat, block: nat): Result<seq<bool>>
    decreases m
  {
    if m == [] then Ok([])
    else if m[0] < 0x80 then
      if remaining != 0 then Err else Before(Bits(m[0], 8), Utf8Bits(m[1..], 0, width, block))
    else if remaining == 0 then
      if m[0] < 0xdf then Utf8Bits(m[1..], 2, 13, m[0] % 0x80)
      else if m[0] < 0xef then Utf8Bits(m[1..], 3, 19, m[0] % 0x80)
      else if m[0] < 0xf7 then Utf8Bits(m[1..], 4, 24, m[0] % 8 + 0x38)
      else Err
    else if remaining == 2 then
      Before(Bits(block * 64 + m[0] % 64, width), Utf8Bits(m[1..], 0, width, block * 64 + m[0] % 64))
    else Utf8Bits(m[1..], remaining - 1, width, block * 64 + m[0] % 64)
  }

  /** One packed character at p, as the UTF-8 bytes it stands for. */
  function UnitAt(s: seq<bool>, p: nat): (r: Result<(Text, nat)>) {
    FieldSizes();
    var b0 :- Read(s, p, 1);
    if b0 == 0 then var v :- Read(s, p + 1, 7); Ok(([v], p + 8))
    else
      var b1 :- Read(s, p + 1, 1);
      if b1 == 0 then
        var x :- Read(s, p + 2, 5); var y :- Read(s, p + 7, 6);
        Ok(([0xc0 + x, 0x80 + y], p + 13))
      else
        var b2 :- Read(s, p + 2, 1);
        if b2 == 0 then
          var x :- Read(s, p + 3, 4); var y :- Read(s, p + 7, 6); var z :- Read(s, p + 13, 6);
          Ok(([0xe0 + x, 0x80 + y, 0x80 + z], p + 19))
        else
          var x :- Read(s, p + 3, 3); var y :- Read(s, p + 6, 6);
          var z :- Read(s, p + 12, 6); var w :- Read(s, p + 18, 6);
          Ok(([0xf0 + x, 0x80 + y, 0x80 + z, 0x80 + w], p + 24))
  }

  function Utf8At(s: seq<bool>, p: nat, n: nat): Result<(Text, nat)>
    decreases n
  {
    if n == 0 then Ok(([], p))
    else var (unit, q) :- UnitAt(s, p); TextBefore(unit, Utf8At(s, q, n - 1))
  }

  /** The length of the character a byte leads, 0 for a byte that leads none the
      encoder packs faithfully: continuations, 0xDF and 0xEF, which its tests put
      one class too high, and everything from 0xF7 on. */
  function UnitLength(b: byte): nat {
    if b < 0x80 then 1
    else if 0xc0 <= b < 0xdf then 2
    else if 0xe0 <= b < 0xef then 3
    else if 0xf0 <= b < 0xf7 then 4
    else 0
  }

  /** Whole characters, each led by a byte the encoder packs faithfully. */
  ghost predicate Faithful(m: Text) {
    m == [] ||
    (var k := UnitLength(m[0]);
     1 <= k <= |m| && (forall j :: 1 <= j < k ==> Continuation(m[j])) && Faithful(m[k..]))
  }

  lemma Powers()
    ensures Pow2(0) == 1 && Pow2(1) == 2 && Pow2(2) == 4 && Pow2(3) == 8 && Pow2(4) == 16 && Pow2(5) == 32
    ensures Pow2(6) == 64 && Pow2(7) == 128
  {
  }

  /** Six trailing bits of a field, and the field before them. */
  lemma {:induction false} SixBits(s: seq<bool>, p: nat, x: nat, y: nat, n: nat)
    requires y < 64 && At(s, p, Bits(x * 64 + y, n + 6))
    ensures At(s, p, Bits(x, n)) && Read(s, p + n, 6) == Ok(y)
  {
    Powers();
    hide Bits, Pow2, Read;
    BitsSplit(x * 64 + y, n, 6);
    DivModUnique(x, y, 64);
    AtParts(s, p, Bits(x, n), Bits(x * 64 + y, 6));
    SubField(s, p + n, x * 64 + y, 6, 0, 6);
  }

  // What the encoder has in its block after 2, 3 and 4 bytes.

  function Two(b: nat, c: nat): nat {
    b % 0x80 * 64 + c % 64
  }

  function Three(b: nat, c: nat, d: nat): nat {
    Two(b, c) * 64 + d % 64
  }

  function Four(b: nat, c: nat, d: nat, e: nat): nat {
    (((b % 8 + 0x38) * 64 + c % 64) * 64 + d % 64) * 64 + e % 64
  }

  // What the marker bits the encoder leaves in front tell the reader.

  lemma {:induction false} UnitOne(s: seq<bool>, p: nat, b: byte)
    requires b < 0x80 && At(s, p, Bits(b, 8))
    ensures UnitAt(s, p) == Ok(([b], p + 8))
  {
    Powers();
    hide Bits, Pow2, Read;
    SubField(s, p, b, 8, 0, 1);
    SubField(s, p, b, 8, 1, 7);
  }

  lemma {:induction false} UnitTwo(s: seq<bool>, p: nat, b: byte, c: byte)
    requires 0xc0 <= b < 0xe0 && At(s, p, Bits(Two(b, c), 13))
    ensures UnitAt(s, p) == Ok(([b, 0x80 + c % 64], p + 13))
  {
    Powers();
    hide Bits, Pow2, Read;
    SixBits(s, p, b % 0x80, c % 64, 7);
    SubField(s, p, b % 0x80, 7, 0, 1);
    SubField(s, p, b % 0x80, 7, 1, 1);
    SubField(s, p, b % 0x80, 7, 2, 5);
  }

  lemma {:induction false} UnitThree(s: seq<bool>, p: nat, b: byte, c: byte, d: byte)
    requires 0xe0 <= b < 0xf0 && At(s, p, Bits(Three(b, c, d), 19))
    ensures UnitAt(s, p) == Ok(([b, 0x80 + c % 64, 0x80 + d % 64], p + 19))
  {
    Powers();
    hide Bits, Pow2, Read;
    SixBits(s, p, b % 0x80 * 64 + c % 64, d % 64, 13);
    SixBits(s, p, b % 0x80, c % 64, 7);
    LeadThree(s, p, b - 0xe0);
  }

  lemma {:induction false} LeadThree(s: seq<bool>, p: nat, x: nat)
    requires x < 16 && At(s, p, Bits(x + 0x60, 7))
    ensures Read(s, p, 1) == Ok(1) && Read(s, p + 1, 1) == Ok(1) && Read(s, p + 2, 1) == Ok(0)
    ensures Read(s, p + 3, 4) == Ok(x)
  {
    Powers();
    hide Bits, Pow2, Read;
    SubField(s, p, x + 0x60, 7, 0, 1);
    SubField(s, p, x + 0x60, 7, 1, 1);
    SubField(s, p, x + 0x60, 7, 2, 1);
    SubField(s, p, x + 0x60, 7, 3, 4);
  }

  lemma {:induction false} UnitFour(s: seq<bool>, p: nat, b: byte, c: byte, d: byte, e: byte)
    requires At(s, p, Bits(Four(b, c, d, e), 24))
    ensures UnitAt(s, p) == Ok(([0xf0 + b % 8, 0x80 + c % 64, 0x80 + d % 64, 0x80 + e % 64], p + 24))
  {
    Powers();
    hide Bits, Pow2, Read;
    SixBits(s, p, ((b % 8 + 0x38) * 64 + c % 64) * 64 + d % 64, e % 64, 18);
    SixBits(s, p, (b % 8 + 0x38) * 64 + c % 64, d % 64, 12);
    SixBits(s, p, b % 8 + 0x38, c % 64, 6);
    LeadFour(s, p, b % 8);
  }

  lemma {:induction false} LeadFour(s: seq<bool>, p: nat, x: nat)
    requires x < 8 && At(s, p, Bits(x + 0x38, 6))
    ensures Read(s, p, 1) == Ok(1) && Read(s, p + 1, 1) == Ok(1) && Read(s, p + 2, 1) == Ok(1)
    ensures Read(s, p + 3, 3) == Ok(x)
  {
    Powers();
    hide Bits, Pow2, Read;
    SubField(s, p, x + 0x38, 6, 0, 1);
    SubField(s, p, x + 0x38, 6, 1, 1);
    SubField(s, p, x + 0x38, 6, 2, 1);
    SubField(s, p, x + 0x38, 6, 3, 3);
  }

  // The encoder over one whole character.

  function Pack(m: Text): Result<seq<bool>> {
    Utf8Bits(m, 0, 0, 0)
  }

  /** Between characters nothing the encoder still carries matters. */
  lemma {:induction false} CarriedForgotten(m: Text, width: nat, block: nat)
    ensures Utf8Bits(m, 0, width, block) == Pack(m)
  {
    if m != [] && m[0] < 0x80 {
      CarriedForgotten(m[1..], width, block);
    }
  }

  lemma {:induction false} EncodeTwo(m: Text)
    requires |m| >= 2 && 0x80 <= m[0] < 0xdf && 0x80 <= m[1]
    ensures Pack(m) == Before(Bits(Two(m[0], m[1]), 13), Pack(m[2..]))
  {
    hide Bits;
    assert m[1..][1..] == m[2..];
    CarriedForgotten(m[2..], 13, Two(m[0], m[1]));
    assert Pack(m) == Utf8Bits(m[1..], 2, 13, m[0] as nat % 0x80);
  }

  lemma {:induction false} EncodeThree(m: Text)
    requires |m| >= 3 && 0xdf <= m[0] < 0xef && 0x80 <= m[1] && 0x80 <= m[2]
    ensures var v := Three(m[0], m[1], m[2]);
            Pack(m) == Before(Bits(v, 19), Pack(m[3..]))
  {
    hide Bits;
    assert m[1..][1..] == m[2..] && m[2..][1..] == m[3..];
    CarriedForgotten(m[3..], 19, Three(m[0], m[1], m[2]));
    assert Utf8Bits(m[1..], 3, 19, m[0] % 0x80) == Utf8Bits(m[2..], 2, 19, Two(m[0], m[1]));
  }

  lemma {:induction false} EncodeFour(m: Text)
    requires |m| >= 4 && 0xef <= m[0] < 0xf7 && 0x80 <= m[1] && 0x80 <= m[2] && 0x80 <= m[3]
    ensures var v := Four(m[0], m[1], m[2], m[3]);
            Pack(m) == Before(Bits(v, 24), Pack(m[4..]))
  {
    hide Bits;
    assert m[1..][1..] == m[2..] && m[2..][1..] == m[3..] && m[3..][1..] == m[4..];
    CarriedForgotten(m[4..], 24, Four(m[0], m[1], m[2], m[3]));
    var k1: nat := m[0] as nat % 8 + 0x38;
    var k2 := k1 * 64 + m[1] as nat % 64;
    assert Pack(m) == Utf8Bits(m[1..], 4, 24, k1);
    assert Utf8Bits(m[1..], 4, 24, k1) == Utf8Bits(m[2..], 3, 24, k2);
    assert Utf8Bits(m[2..], 3, 24, k2) == Utf8Bits(m[3..], 2, 24, k2 * 64 + m[2] as nat % 64);
  }

  lemma {:induction false} SkipContinuations(m: Text, j: nat)
    requires j <= |m| && forall i :: 0 <= i < j ==> Continuation(m[i])
    ensures Count(m) == Count(m[j..])
  {
    if j > 0 {
      SkipContinuations(m[1..], j - 1);
      assert m[1..][j - 1..] == m[j..];
    } else {
      assert m[0..] == m;
    }
  }

  lemma {:induction false} CountOverUnit(m: Text, k: nat)
    requires 1 <= k <= |m| && !Continuation(m[0]) && forall j :: 1 <= j < k ==> Continuation(m[j])
    ensures Count(m) == 1 + Count(m[k..])
  {
    SkipContinuations(m[1..], k - 1);
    assert m[1..][k - 1..] == m[k..];
  }

  /** The packed bits of one faithful character. */
  function UnitBits(u: Text): (b: seq<bool>)
    requires u != [] && UnitLength(u[0]) == |u|
  {
    if |u| == 1 then Bits(u[0], 8)
    else if |u| == 2 then Bits(Two(u[0], u[1]), 13)
    else if |u| == 3 then Bits(Three(u[0], u[1], u[2]), 19)
    else Bits(Four(u[0], u[1], u[2], u[3]), 24)
  }

  lemma {:induction false} EncodeUnit(m: Text, k: nat)
    requires m != [] && k == UnitLength(m[0]) && 1 <= k <= |m| && forall j :: 1 <= j < k ==> Continuation(m[j])
    ensures Pack(m) == Before(UnitBits(m[..k]), Pack(m[k..]))
  {
    hide Bits, Two, Three, Four, Pack;
    if k == 1 {
      assert Utf8Bits(m, 0, 0, 0) == Before(Bits(m[0], 8), Utf8Bits(m[1..], 0, 0, 0));
      CarriedForgotten(m, 0, 0);
      CarriedForgotten(m[1..], 0, 0);
    } else if k == 2 {
      EncodeTwo(m);
    } else if k == 3 {
      EncodeThree(m);
    } else {
      EncodeFour(m);
    }
  }

  lemma {:induction false} DecodeUnit(u: Text, s: seq<bool>, p: nat)
    requires u != [] && UnitLength(u[0]) == |u| && forall j :: 1 <= j < |u| ==> Continuation(u[j])
    requires At(s, p, UnitBits(u))
    ensures UnitAt(s, p) == Ok((u, p + |UnitBits(u)|))
  {
    hide Bits, Two, Three, Four, UnitAt;
    if |u| == 1 {
      UnitOne(s, p, u[0]);
      assert u == [u[0]];
    } else if |u| == 2 {
      UnitTwo(s, p, u[0], u[1]);
      assert u == [u[0], u[1]];
    } else if |u| == 3 {
      UnitThree(s, p, u[0], u[1], u[2]);
      assert u == [u[0], u[1], u[2]];
    } else {
      UnitFour(s, p, u[0], u[1], u[2], u[3]);
      assert u == [u[0], u[1], u[2], u[3]];
    }
  }

  /** A faithful text is packed, reads back whole, and the cursor stops where it ends. */
  lemma {:induction false} Utf8RoundTrip(m: Text, s: seq<bool>, p: nat)
    requires Faithful(m) && p <= |s| && (Pack(m).Ok? ==> At(s, p, Pack(m).value))
    ensures Pack(m).Ok? && Utf8At(s, p, Count(m)) == Ok((m, p + |Pack(m).value|))
    decreases |m|
  {
    hide Bits, UnitAt, UnitBits;
    if m != [] {
      hide Pack, Count;
      var k := UnitLength(m[0]);
      EncodeUnit(m, k);
      CountOverUnit(m, k);
      var rest := m[k..];
      PackedFaithful(rest);
      AtParts(s, p, UnitBits(m[..k]), Pack(rest).value);
      DecodeUnit(m[..k], s, p);
      Utf8RoundTrip(rest, s, p + |UnitBits(m[..k])|);
      assert m == m[..k] + rest;
    }
  }

  lemma {:induction false} PackedFaithful(m: Text)
    requires Faithful(m)
    ensures Pack(m).Ok?
    decreases |m|
  {
    if m != [] {
      var k := UnitLength(m[0]);
      EncodeUnit(m, k);
      PackedFaithful(m[k..]);
    }
  }

  // The converse: nothing but a faithful text comes back as itself.

  /** What was packed at p reads back as the text, the cursor where the packing ends or, if
      that is the end of the stream, anywhere. */
  ghost predicate ComesBack(m: Text, s: seq<bool>, p: nat)
    requires Pack(m).Ok?
  {
    var end := p + |Pack(m).value|;
    var r := Utf8At(s, p, Count(m));
    r.Ok? && r.value.0 == m && (r.value.1 == end || |s| == end)
  }

  lemma NothingToRead(s: seq<bool>, p: nat)
    ensures |s| == p ==> UnitAt(s, p).Err?
  {
  }

  /** What the reader makes of the leading byte of a character the encoder put at p. */
  lemma {:induction false} UnitShape(s: seq<bool>, p: nat)
    ensures UnitAt(s, p).Ok? ==>
              var (u, q) := UnitAt(s, p).value;
              1 <= |u| <= 4 && !Continuation(u[0])
              && (forall j :: 1 <= j < |u| ==> Continuation(u[j]))
              && (u[0] < 0x80 <==> |u| == 1) && (0xc0 <= u[0] < 0xe0 <==> |u| == 2)
              && (0xe0 <= u[0] < 0xf0 <==> |u| == 3) && (0xf0 <= u[0] < 0xf8 <==> |u| == 4)
              && q == p + if |u| == 1 then 8 else if |u| == 2 then 13 else if |u| == 3 then 19 else 24
  {
    Powers();
    hide Pow2, Bits;
    hide Value;
  }

  /** A text that came back starts with the first character read. */
  lemma {:induction false} FirstUnit(m: Text, s: seq<bool>, p: nat, n: nat, q: nat)
    requires m != [] && Utf8At(s, p, n) == Ok((m, q))
    ensures n >= 1 && UnitAt(s, p).Ok? && |UnitAt(s, p).value.0| <= |m|
    ensures m[..|UnitAt(s, p).value.0|] == UnitAt(s, p).value.0
    ensures Utf8At(s, UnitAt(s, p).value.1, n - 1) == Ok((m[|UnitAt(s, p).value.0|..], q))
  {
    hide UnitAt;
    var (u, p') := UnitAt(s, p).value;
    var rest := Utf8At(s, p', n - 1).value.0;
    assert m == u + rest;
    assert m[|u|..] == rest && m[..|u|] == u;
  }

  /** Six bits the encoder kept of a leading byte never read as that byte again. */
  lemma {:induction false} LostMarker(s: seq<bool>, p: nat, b: byte)
    requires b >= 0xc0 && Read(s, p, 6) == Ok(b % 64) && UnitAt(s, p).Ok?
    ensures UnitAt(s, p).value.0[0] != b
  {
    Powers();
    hide Bits, Pow2, Value;
    BitsOfValue(s[p..p + 6]);
    SubField(s, p, b % 64, 6, 0, 1);
    SubField(s, p, b % 64, 6, 1, 1);
    SubField(s, p, b % 64, 6, 2, 1);
    hide Read;
  }

  /** No character is read at the end of a stream, and none without the cursor moving on. */
  lemma {:induction false} EmptyPacking(s: seq<bool>, p: nat, n: nat)
    requires n > 0
    ensures Utf8At(s, p, n).Ok? ==> |s| != p && Utf8At(s, p, n).value.1 > p
  {
    NothingToRead(s, p);
    UnitShape(s, p);
    hide UnitAt;
    if UnitAt(s, p).Ok? {
      Onward(s, UnitAt(s, p).value.1, n - 1);
    }
  }

  lemma {:induction false} Onward(s: seq<bool>, p: nat, n: nat)
    ensures Utf8At(s, p, n).Ok? ==> Utf8At(s, p, n).value.1 >= p
    decreases n
  {
    hide UnitAt;
    if n > 0 && UnitAt(s, p).Ok? {
      UnitShape(s, p);
      Onward(s, UnitAt(s, p).value.1, n - 1);
    }
  }

  /** Lead byte 0xDF is packed as if three bytes long. */
  lemma {:induction false} LeadDf(m: Text, s: seq<bool>, p: nat)
    requires m != [] && m[0] == 0xdf && Pack(m).Ok? && At(s, p, Pack(m).value)
    ensures !ComesBack(m, s, p)
  {
    if ComesBack(m, s, p) {
      hide Bits, UnitAt, Two, Three;
      var q := Utf8At(s, p, Count(m)).value.1;
      FirstUnit(m, s, p, Count(m), q);
      UnitShape(s, p);
      assert |UnitAt(s, p).value.0| == 2 && Continuation(m[1]);
      CountOverUnit(m, 2);
      TruncatedLead(m, 2);
      EmptyPacking(s, p, Count(m));
      if |m| > 2 {
        FirstUnit(m[2..], s, p + 13, Count(m) - 1, q);
        UnitShape(s, p + 13);
        EncodeThree(m);
        AtParts(s, p, Bits(Three(m[0], m[1], m[2]), 19), Pack(m[3..]).value);
        SixBitsOfThree(s, p, m);
        LostMarker(s, p + 13, m[2]);
      }
    }
  }

  lemma {:induction false} SixBitsOfThree(s: seq<bool>, p: nat, m: Text)
    requires |m| >= 3 && At(s, p, Bits(Three(m[0], m[1], m[2]), 19))
    ensures Read(s, p + 13, 6) == Ok(m[2] % 64)
  {
    hide Bits;
    SixBits(s, p, Two(m[0], m[1]), m[2] % 64, 13);
  }

  /** A text that is one lead and all but the last of the bytes it asks for packs to
      nothing, and one whose next byte is plain is refused. */
  lemma {:induction false} TruncatedLead(m: Text, k: nat)
    requires (k == 2 && m != [] && m[0] == 0xdf) || (k == 3 && m != [] && m[0] == 0xef)
    requires |m| >= k && forall j :: 1 <= j < k ==> Continuation(m[j])
    ensures |m| == k ==> Pack(m) == Ok([])
    ensures |m| > k && m[k] < 0x80 ==> Pack(m).Err?
  {
    hide Bits;
    assert m[1..][1..] == m[2..];
    if k == 2 {
      assert Pack(m) == Utf8Bits(m[1..], 3, 19, m[0] as nat % 0x80);
      assert Pack(m) == Utf8Bits(m[2..], 2, 19, Two(m[0], m[1]));
    } else {
      assert m[2..][1..] == m[3..];
      var k1 := m[0] as nat % 8 + 0x38;
      var k2 := k1 * 64 + m[1] as nat % 64;
      assert Pack(m) == Utf8Bits(m[1..], 4, 24, k1);
      assert Pack(m) == Utf8Bits(m[2..], 3, 24, k2);
      assert Pack(m) == Utf8Bits(m[3..], 2, 24, k2 * 64 + m[2] as nat % 64);
    }
  }

  /** Lead byte 0xEF is packed as if four bytes long. */
  lemma {:induction false} LeadEf(m: Text, s: seq<bool>, p: nat)
    requires m != [] && m[0] == 0xef && Pack(m).Ok? && At(s, p, Pack(m).value)
    ensures !ComesBack(m, s, p)
  {
    if ComesBack(m, s, p) {
      hide Bits, UnitAt, Four;
      FirstUnit(m, s, p, Count(m), Utf8At(s, p, Count(m)).value.1);
      UnitShape(s, p);
      assert |UnitAt(s, p).value.0| == 3 && Continuation(m[1]) && Continuation(m[2]);
      CountOverUnit(m, 3);
      TruncatedLead(m, 3);
      EmptyPacking(s, p, Count(m));
      if |m| > 3 {
        EncodeFour(m);
        AtParts(s, p, Bits(Four(m[0], m[1], m[2], m[3]), 24), Pack(m[4..]).value);
        UnitFour(s, p, m[0], m[1], m[2], m[3]);
      }
    }
  }

  /** Past a first character that came back, the rest came back too. */
  lemma {:induction false} ConverseStep(m: Text, s: seq<bool>, p: nat)
    requires m != [] && m[0] != 0xdf && m[0] != 0xef && Pack(m).Ok? && At(s, p, Pack(m).value)
    requires ComesBack(m, s, p)
    ensures 1 <= UnitLength(m[0]) <= |m| && forall j :: 1 <= j < UnitLength(m[0]) ==> Continuation(m[j])
    ensures var rest := m[UnitLength(m[0])..];
            exists q: nat :: Pack(rest).Ok? && At(s, q, Pack(rest).value) && ComesBack(rest, s, q)
  {
    hide Bits, UnitAt, UnitBits;
    var end := Utf8At(s, p, Count(m)).value.1;
    FirstUnit(m, s, p, Count(m), end);
    UnitShape(s, p);
    if m[0] >= 0xf7 {
      NoOtherLead(m);
    }
    var k := |UnitAt(s, p).value.0|;
    EncodeUnit(m, k);
    CountOverUnit(m, k);
    UnitBitsLength(m[..k]);
    AtParts(s, p, UnitBits(m[..k]), Pack(m[k..]).value);
    var q := p + |UnitBits(m[..k])|;
    assert Utf8At(s, q, Count(m[k..])) == Ok((m[k..], end));
    assert ComesBack(m[k..], s, q);
  }

  /** UTF-8 packing round-trips exactly on the faithful texts. */
  lemma {:induction false} Utf8Converse(m: Text, s: seq<bool>, p: nat)
    requires Pack(m).Ok? && At(s, p, Pack(m).value) && ComesBack(m, s, p)
    ensures Faithful(m)
    decreases |m|
  {
    hide Bits, UnitAt, UnitBits, Pack, Utf8At, Count, Utf8Bits, ComesBack;
    if m == [] {
    } else if m[0] == 0xdf {
      LeadDf(m, s, p);
    } else if m[0] == 0xef {
      LeadEf(m, s, p);
    } else {
      ConverseStep(m, s, p);
      var rest := m[UnitLength(m[0])..];
      var q: nat :| Pack(rest).Ok? && At(s, q, Pack(rest).value) && ComesBack(rest, s, q);
      Utf8Converse(rest, s, q);
    }
  }

  lemma NoOtherLead(m: Text)
    requires m != [] && m[0] >= 0xf7
    ensures Pack(m).Err?
  {
  }

  lemma UnitBitsLength(u: Text)
    requires u != [] && UnitLength(u[0]) == |u|
    ensures |UnitBits(u)| == if |u| == 1 then 8 else if |u| == 2 then 13 else if |u| == 3 then 19 else 24
  {
  }

  // The layouts, field by field.

  lemma {:induction false} ReadBehind(a: seq<bool>, b: seq<bool>, p: nat, n: nat)
    ensures Read(a + b, |a| + p, n) == Read(b, p, n)
  {
    hide Value;
    if p + n <= |b| {
      assert (a + b)[|a| + p..|a| + p + n] == b[p..p + n];
    }
  }

  lemma {:induction false} GroupSpells(g: Text, set_: string, base: nat, width: nat, rest: seq<bool>)
    requires Group(g, set_, base, width).Ok? && 1 <= |g| <= 3
    ensures |Group(g, set_, base, width).value| == width
    ensures forall i :: 0 <= i < |g| ==> CharPos(g[i], set_).Ok?
    ensures Read(Group(g, set_, base, width).value + rest, 0, width) == Ok(Spelling(g, set_, base))
  {
    var b := Group(g, set_, base, width).value;
    NumberSpells(g, set_, base);
    hide Number, Bits, Pow2, CharPos, Spelling;
    assert (b + rest)[0..width] == b;
    GroupReadsBack(g, set_, base, width, b + rest, 0);
  }

  /** One to three characters of a set as the digits of a number, the first counting most. */
  function Spelling(g: Text, set_: string, base: nat): nat
    requires 1 <= |g| <= 3 && forall i :: 0 <= i < |g| ==> CharPos(g[i], set_).Ok?
  {
    var first := CharPos(g[0], set_).value;
    if |g| == 1 then first
    else if |g| == 2 then Shifted(first, base, CharPos(g[1], set_).value)
    else Shifted(Shifted(first, base, CharPos(g[1], set_).value), base, CharPos(g[2], set_).value)
  }

  /** A number with one more digit behind it. */
  function Shifted(v: nat, base: nat, digit: nat): nat {
    v * base + digit
  }

  lemma {:induction false} NumberSpells(g: Text, set_: string, base: nat)
    requires 1 <= |g| <= 3 && Number(g, set_, base).Ok?
    ensures forall i :: 0 <= i < |g| ==> CharPos(g[i], set_).Ok?
    ensures Number(g, set_, base) == Ok(Spelling(g, set_, base))
  {
    hide CharPos;
    assert g[..|g| - 1][..0] == [];
    if |g| > 1 {
      NumberSpells(g[..|g| - 1], set_, base);
      assert forall i :: 0 <= i < |g| - 1 ==> g[i] == g[..|g| - 1][i];
    }
  }

  /** Alpha: a pair of characters is the first's place in the set times 45 plus the second's,
      in 11 bits, pair after pair. */
  lemma {:induction false} AlphaSpells(m: Text, k: nat)
    requires AlphaBits(m).Ok? && 2 * k + 1 < |m|
    ensures CharPos(m[2 * k], ALPHA).Ok? && CharPos(m[2 * k + 1], ALPHA).Ok?
    ensures Read(AlphaBits(m).value, 11 * k, 11)
            == Ok(CharPos(m[2 * k], ALPHA).value * 45 + CharPos(m[2 * k + 1], ALPHA).value)
  {
    hide CharPos, Read, AlphaBits, ALPHA;
    if k == 0 {
      AlphaStep(m);
    } else {
      AlphaNext(m, k);
      AlphaSpells(m[2..], k - 1);
    }
  }

  lemma {:induction false} AlphaNext(m: Text, k: nat)
    requires AlphaBits(m).Ok? && 0 < k && 2 * k + 1 < |m|
    ensures AlphaBits(m[2..]).Ok?
    ensures Read(AlphaBits(m).value, 11 * k, 11) == Read(AlphaBits(m[2..]).value, 11 * (k - 1), 11)
    ensures m[2..][2 * (k - 1)] == m[2 * k] && m[2..][2 * (k - 1) + 1] == m[2 * k + 1]
  {
    hide Group, CharPos, Read, AlphaBits, ALPHA;
    AlphaStep(m);
    ReadBehind(Group(m[..2], ALPHA, 45, 11).value, AlphaBits(m[2..]).value, 11 * (k - 1), 11);
  }

  /** A lone last one is its place in the last 6 bits; there are no others. */
  lemma {:induction false} AlphaLast(m: Text, pairs: nat, left: nat)
    requires AlphaBits(m).Ok? && |m| == 2 * pairs + left && left < 2
    ensures |AlphaBits(m).value| == 11 * pairs + 6 * left
    ensures left == 1 ==>
              && CharPos(m[2 * pairs], ALPHA).Ok?
              && Read(AlphaBits(m).value, 11 * pairs, 6) == Ok(CharPos(m[2 * pairs], ALPHA).value)
    decreases pairs
  {
    hide Group, CharPos, Read, AlphaBits, ALPHA;
    AlphaStep(m);
    if pairs > 0 {
      AlphaLast(m[2..], pairs - 1, left);
      ReadBehind(Group(m[..2], ALPHA, 45, 11).value, AlphaBits(m[2..]).value, 11 * (pairs - 1), 6);
    }
  }

  lemma {:induction false} AlphaStep(m: Text)
    requires AlphaBits(m).Ok?
    ensures m == [] ==> AlphaBits(m).value == []
    ensures |m| == 1 ==>
              && CharPos(m[0], ALPHA).Ok? && |AlphaBits(m).value| == 6
              && Read(AlphaBits(m).value, 0, 6) == Ok(CharPos(m[0], ALPHA).value)
    ensures |m| > 1 ==>
              && Group(m[..2], ALPHA, 45, 11).Ok? && AlphaBits(m[2..]).Ok?
              && |Group(m[..2], ALPHA, 45, 11).value| == 11
              && AlphaBits(m).value == Group(m[..2], ALPHA, 45, 11).value + AlphaBits(m[2..]).value
              && CharPos(m[0], ALPHA).Ok? && CharPos(m[1], ALPHA).Ok?
              && Read(AlphaBits(m).value, 0, 11) == Ok(CharPos(m[0], ALPHA).value * 45 + CharPos(m[1], ALPHA).value)
  {
    hide Group, CharPos, Read, ALPHA;
    if |m| == 1 {
      GroupSpells(m, ALPHA, 45, 6, []);
      assert AlphaBits(m).value + [] == AlphaBits(m).value;
    } else if |m| > 1 {
      GroupSpells(m[..2], ALPHA, 45, 11, AlphaBits(m[2..]).value);
      assert m[..2][0] == m[0] && m[..2][1] == m[1];
    }
  }

  /** 3B40: three characters in 16 bits, as the digits of a number in base 40. */
  lemma {:induction false} B40Spells(m: Text, k: nat)
    requires B40Bits(m).Ok? && 3 * k + 2 < |m|
    ensures CharPos(m[3 * k], THREE_B40).Ok? && CharPos(m[3 * k + 1], THREE_B40).Ok?
    ensures CharPos(m[3 * k + 2], THREE_B40).Ok?
    ensures Read(B40Bits(m).value, 16 * k, 16)
            == Ok(CharPos(m[3 * k], THREE_B40).value * 1600 + CharPos(m[3 * k + 1], THREE_B40).value * 40
                  + CharPos(m[3 * k + 2], THREE_B40).value)
  {
    hide CharPos, Read, B40Bits, THREE_B40;
    if k == 0 {
      B40Step(m);
    } else {
      B40Next(m, k);
      B40Spells(m[3..], k - 1);
    }
  }

  lemma {:induction false} B40Next(m: Text, k: nat)
    requires B40Bits(m).Ok? && 0 < k && 3 * k + 2 < |m|
    ensures B40Bits(m[3..]).Ok?
    ensures Read(B40Bits(m).value, 16 * k, 16) == Read(B40Bits(m[3..]).value, 16 * (k - 1), 16)
    ensures m[3..][3 * (k - 1)] == m[3 * k] && m[3..][3 * (k - 1) + 1] == m[3 * k + 1]
    ensures m[3..][3 * (k - 1) + 2] == m[3 * k + 2]
  {
    hide Group, CharPos, Read, B40Bits, THREE_B40;
    B40Step(m);
    ReadBehind(Group(m[..3], THREE_B40, 40, 16).value, B40Bits(m[3..]).value, 16 * (k - 1), 16);
  }

  /** Two left over take the last 11 bits and a lone one the last 5; there are no others. */
  lemma {:induction false} B40Last(m: Text, triples: nat, left: nat)
    requires B40Bits(m).Ok? && |m| == 3 * triples + left && left < 3
    ensures |B40Bits(m).value| == 16 * triples + if left == 0 then 0 else if left == 1 then 5 else 11
    ensures left == 1 ==>
              && CharPos(m[3 * triples], THREE_B40).Ok?
              && Read(B40Bits(m).value, 16 * triples, 5) == Ok(CharPos(m[3 * triples], THREE_B40).value)
    ensures left == 2 ==>
              && CharPos(m[3 * triples], THREE_B40).Ok? && CharPos(m[3 * triples + 1], THREE_B40).Ok?
              && Read(B40Bits(m).value, 16 * triples, 11)
                 == Ok(CharPos(m[3 * triples], THREE_B40).value * 40 + CharPos(m[3 * triples + 1], THREE_B40).value)
    decreases triples
  {
    hide Group, CharPos, Read, B40Bits, THREE_B40;
    B40Step(m);
    if triples > 0 {
      B40Last(m[3..], triples - 1, left);
      var g, rest := Group(m[..3], THREE_B40, 40, 16).value, B40Bits(m[3..]).value;
      ReadBehind(g, rest, 16 * (triples - 1), if left == 1 then 5 else 11);
    }
  }

  lemma {:induction false} B40Step(m: Text)
    requires B40Bits(m).Ok?
    ensures m == [] ==> B40Bits(m).value == []
    ensures |m| == 1 ==>
              && CharPos(m[0], THREE_B40).Ok? && |B40Bits(m).value| == 5
              && Read(B40Bits(m).value, 0, 5) == Ok(CharPos(m[0], THREE_B40).value)
    ensures |m| == 2 ==>
              && CharPos(m[0], THREE_B40).Ok? && CharPos(m[1], THREE_B40).Ok? && |B40Bits(m).value| == 11
              && Read(B40Bits(m).value, 0, 11)
                 == Ok(CharPos(m[0], THREE_B40).value * 40 + CharPos(m[1], THREE_B40).value)
    ensures |m| > 2 ==>
              && Group(m[..3], THREE_B40, 40, 16).Ok? && B40Bits(m[3..]).Ok?
              && |Group(m[..3], THREE_B40, 40, 16).value| == 16
              && B40Bits(m).value == Group(m[..3], THREE_B40, 40, 16).value + B40Bits(m[3..]).value
              && (forall i :: 0 <= i < 3 ==> CharPos(m[i], THREE_B40).Ok?)
              && Read(B40Bits(m).value, 0, 16)
                 == Ok(CharPos(m[0], THREE_B40).value * 1600 + CharPos(m[1], THREE_B40).value * 40
                       + CharPos(m[2], THREE_B40).value)
  {
    hide Group, CharPos, Read, THREE_B40;
    if |m| == 1 || |m| == 2 {
      GroupSpells(m, THREE_B40, 40, if |m| == 1 then 5 else 11, []);
      assert B40Bits(m).value + [] == B40Bits(m).value;
    } else if |m| > 2 {
      GroupSpells(m[..3], THREE_B40, 40, 16, B40Bits(m[3..]).value);
      assert m[..3][0] == m[0] && m[..3][1] == m[1] && m[..3][2] == m[2];
    }
  }

  /** Hex: every digit, in either case, is its own number in four bits. */
  lemma {:induction false} HexSpells(m: Text, k: nat)
    requires HexBits(m).Ok? && k < |m|
    ensures Read(HexBits(m).value, 4 * k, 4) == HexDigit(m[k])
  {
    hide Read, HexBits, HexDigit, HEX;
    if k == 0 {
      HexStep(m);
      HexFront(HexDigit(m[0]).value, HexBits(m[1..]).value);
    } else {
      HexNext(m, k);
      HexSpells(m[1..], k - 1);
    }
  }

  lemma {:induction false} HexNext(m: Text, k: nat)
    requires HexBits(m).Ok? && 0 < k < |m|
    ensures HexBits(m[1..]).Ok? && m[1..][k - 1] == m[k]
    ensures Read(HexBits(m).value, 4 * k, 4) == Read(HexBits(m[1..]).value, 4 * (k - 1), 4)
  {
    HexStep(m);
    hide Bits, Read, HexBits, HexDigit, HEX;
    ReadBehind(Bits(HexDigit(m[0]).value, 4), HexBits(m[1..]).value, 4 * (k - 1), 4);
  }

  lemma {:induction false} HexStep(m: Text)
    requires HexBits(m).Ok? && m != []
    ensures HexDigit(m[0]).Ok? && HexDigit(m[0]).value < 16 && HexBits(m[1..]).Ok?
    ensures HexBits(m).value == Bits(HexDigit(m[0]).value, 4) + HexBits(m[1..]).value
  {
    HexPlace(m[0]);
    hide Bits, CharPos, ToLower, HEX;
  }

  lemma {:induction false} HexFront(v: nat, rest: seq<bool>)
    requires v < 16
    ensures Read(Bits(v, 4) + rest, 0, 4) == Ok(v)
  {
    FieldSizes();
    hide Bits, Pow2, Value;
    assert (Bits(v, 4) + rest)[0..4] == Bits(v, 4);
    ReadField(Bits(v, 4) + rest, 0, v, 4);
  }

  function HexDigit(c: byte): Result<nat> {
    if 48 <= c <= 57 then Ok(c - 48)
    else if 65 <= c <= 70 then Ok(c - 55)
    else if 97 <= c <= 102 then Ok(c - 87)
    else Err
  }

  lemma {:induction false} HexPlace(c: byte)
    ensures CharPos(ToLower(c), HEX) == HexDigit(c)
  {
    hide CharPos;
    RunOf(ToLower(c), DIGITS, 48);
    RunOf(ToLower(c), "abcdef", 97);
    JoinedSets(ToLower(c), DIGITS, "abcdef");
    assert HEX == DIGITS + "abcdef";
  }

  /** A run of codes numbers its characters. */
  lemma RunOf(c: byte, run: string, from: byte)
    requires forall i :: 0 <= i < |run| ==> run[i] as int == from + i
    ensures CharPos(c, run) == if from <= c < from + |run| then Ok(c - from) else Err
  {
    hide CharPos;
    if from <= c < from + |run| {
      assert run[c - from] as int == c;
    }
  }

  lemma {:induction false} JoinedSets(c: byte, a: string, b: string)
    ensures CharPos(c, a + b)
            == if CharPos(c, a).Ok? then CharPos(c, a)
               else if CharPos(c, b).Ok? then Ok(|a| + CharPos(c, b).value)
               else Err
  {
    hide CharPos;
    PlaceStep(c, a);
    PlaceStep(c, a + b);
    if a != "" {
      JoinedSets(c, a[1..], b);
      assert (a + b)[1..] == a[1..] + b;
    } else {
      assert a + b == b;
    }
  }

  lemma {:induction false} PlaceStep(c: byte, s: string)
    ensures CharPos(c, s) == if s == "" then Err
                             else if s[0] as int == c then Ok(0)
                             else match CharPos(c, s[1..])
                                  case Ok(i) => Ok(i + 1)
                                  case Err => Err
  {
  }

  lemma {:induction false} InSigns(c: byte, signs: string)
    requires signs == " $%*+-./:" || signs == "#$&."
    ensures signs == " $%*+-./:" ==> (CharPos(c, signs).Ok? <==> c in {32, 36, 37, 42, 43, 45, 46, 47, 58})
    ensures signs == "#$&." ==> (CharPos(c, signs).Ok? <==> c in {35, 36, 38, 46})
  {
    hide CharPos;
    if signs == " $%*+-./:" {
      assert c in {32, 36, 37, 42, 43, 45, 46, 47, 58} <==>
             || c == signs[0] as int || c == signs[1] as int || c == signs[2] as int || c == signs[3] as int
             || c == signs[4] as int || c == signs[5] as int || c == signs[6] as int || c == signs[7] as int
             || c == signs[8] as int;
    } else {
      assert c in {35, 36, 38, 46} <==>
             c == signs[0] as int || c == signs[1] as int || c == signs[2] as int || c == signs[3] as int;
    }
  }

  /** A digit counts itself, a letter 10 and on, the same in both sets; the signs
      come last, in the order of their codes. */
  lemma {:induction false} SetsAre(c: byte)
    ensures 48 <= c <= 57 ==> CharPos(c, ALPHA) == CharPos(c, THREE_B40) == Ok(c - 48)
    ensures 97 <= c <= 122 ==> CharPos(c, ALPHA) == CharPos(c, THREE_B40) == Ok(c - 87)
    ensures c < 48 || 57 < c < 97 || 122 < c ==>
              && (CharPos(c, ALPHA).Ok? <==> c in {32, 36, 37, 42, 43, 45, 46, 47, 58})
              && (CharPos(c, THREE_B40).Ok? <==> c in {35, 36, 38, 46})
  {
    SetIs(c, " $%*+-./:");
    SetIs(c, "#$&.");
    InSigns(c, " $%*+-./:");
    InSigns(c, "#$&.");
    hide CharPos;
  }

  lemma {:induction false} SetIs(c: byte, signs: string)
    ensures CharPos(c, DIGITS + LETTERS + signs)
            == if 48 <= c <= 57 then Ok(c - 48)
               else if 97 <= c <= 122 then Ok(c - 87)
               else if CharPos(c, signs).Ok? then Ok(36 + CharPos(c, signs).value)
               else Err
  {
    hide CharPos;
    RunOf(c, DIGITS, 48);
    RunOf(c, LETTERS, 97);
    JoinedSets(c, DIGITS, LETTERS);
    JoinedSets(c, DIGITS + LETTERS, signs);
  }

  lemma {:induction false} SignsAscend(a: byte, b: byte, set_: string)
    requires a < b && set_ in [ALPHA, THREE_B40] && CharPos(a, set_).Ok? && CharPos(b, set_).Ok?
    requires CharPos(a, set_).value >= 36 && CharPos(b, set_).value >= 36
    ensures CharPos(a, set_).value < CharPos(b, set_).value
  {
    hide CharPos;
    var i, j := CharPos(a, set_).value, CharPos(b, set_).value;
    assert forall k, l :: 36 <= k < l < |set_| ==> set_[k] < set_[l];
  }

  /** The Unicode code point of one UTF-8 character. */
  function CodePoint(u: Text): nat
    requires 1 <= |u| <= 4 && UnitLength(u[0]) == |u| && forall j :: 1 <= j < |u| ==> Continuation(u[j])
  {
    if |u| == 1 then u[0]
    else if |u| == 2 then var x: nat := u[0] - 0xc0; x * 0x40 + Six(u[1])
    else if |u| == 3 then var x: nat := u[0] - 0xe0; x * 0x1000 + Six(u[1]) * 0x40 + Six(u[2])
    else var x: nat := u[0] - 0xf0; x * 0x4_0000 + Six(u[1]) * 0x1000 + Six(u[2]) * 0x40 + Six(u[3])
  }

  function Six(b: byte): nat
    requires Continuation(b)
  {
    b - 0x80
  }

  /** A text's characters, each as a marker (0, 10, 110 or 111 by its bytes) and its code
      point in 7, 11, 16 or 21 bits. */
  ghost function Squeezed(m: Text): seq<bool>
    requires Faithful(m)
  {
    if m == [] then [] else
    var k := UnitLength(m[0]);
    var c := CodePoint(m[..k]);
    (if k == 1 then [false] + Bits(c, 7)
     else if k == 2 then [true, false] + Bits(c, 11)
     else if k == 3 then [true, true, false] + Bits(c, 16)
     else [true, true, true] + Bits(c, 21)) + Squeezed(m[k..])
  }

  /** What the state machine over bytes writes for a faithful text is just that. */
  lemma {:induction false} Utf8Squeezes(m: Text)
    requires Faithful(m)
    ensures Pack(m) == Ok(Squeezed(m))
    decreases |m|
  {
    hide Bits, UnitBits, CodePoint;
    if m != [] {
      var k := UnitLength(m[0]);
      EncodeUnit(m, k);
      Utf8Squeezes(m[k..]);
      UnitSpells(m[..k]);
    }
  }

  lemma {:induction false} UnitSpells(u: Text)
    requires 1 <= |u| <= 4 && UnitLength(u[0]) == |u| && forall j :: 1 <= j < |u| ==> Continuation(u[j])
    ensures UnitBits(u) == if |u| == 1 then [false] + Bits(CodePoint(u), 7)
                           else if |u| == 2 then [true, false] + Bits(CodePoint(u), 11)
                           else if |u| == 3 then [true, true, false] + Bits(CodePoint(u), 16)
                           else [true, true, true] + Bits(CodePoint(u), 21)
  {
    FieldSizes();
    Pow2Add(16, 5);
    Markers();
    hide Bits, Pow2, Value, Two, Three, Four;
    if |u| == 1 {
      Marked([false], CodePoint(u), 7);
    } else if |u| == 2 {
      TwoSpells(u[0], u[1]);
      Marked([true, false], CodePoint(u), 11);
    } else if |u| == 3 {
      ThreeSpells(u[0], u[1], u[2]);
      Marked([true, true, false], CodePoint(u), 16);
    } else {
      FourSpells(u[0], u[1], u[2], u[3]);
      Marked([true, true, true], CodePoint(u), 21);
    }
  }

  lemma TwoSpells(b: byte, c: byte)
    requires 0xc0 <= b < 0xe0 && Continuation(c)
    ensures Two(b, c) == 2 * 2048 + (b - 0xc0) * 0x40 + c - 0x80
  {
  }

  lemma ThreeSpells(b: byte, c: byte, d: byte)
    requires 0xe0 <= b < 0xf0 && Continuation(c) && Continuation(d)
    ensures Three(b, c, d) == 6 * 65536 + (b - 0xe0) * 0x1000 + (c - 0x80) * 0x40 + d - 0x80
  {
  }

  lemma FourSpells(b: byte, c: byte, d: byte, e: byte)
    requires 0xf0 <= b < 0xf8 && Continuation(c) && Continuation(d) && Continuation(e)
    ensures Four(b, c, d, e)
            == 7 * 2097152 + (b - 0xf0) * 0x4_0000 + (c - 0x80) * 0x1000 + (d - 0x80) * 0x40 + e - 0x80
  {
  }

  lemma {:induction false} Markers()
    ensures Value([false]) == 0 && Value([true, false]) == 2
    ensures Value([true, true, false]) == 6 && Value([true, true, true]) == 7
  {
    assert [true, false][..1] == [true];
    assert [true, true, false][..2] == [true, true] && [true, true][..1] == [true];
    assert [true, true, true][..2] == [true, true];
  }

  lemma {:induction false} Marked(marker: seq<bool>, c: nat, width: nat)
    requires c < Pow2(width)
    ensures marker + Bits(c, width) == Bits(Value(marker) * Pow2(width) + c, |marker| + width)
  {
    hide Bits, Pow2, Value;
    var b := marker + Bits(c, width);
    ValueOfBits(c, width);
    ValueOfConcat(marker, Bits(c, width));
    BitsOfValue(b);
  }
}
