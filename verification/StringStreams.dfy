/** The string encoders and decoders of src/BitIO.cpp:789-1058 on the stream
    itself, character by character as the source runs them. */
module StringStreams {
  import opened BitStream
  import opened Fields
  import opened Numbers
  import opened Packing
  import opened Results
  import opened TextCodecs
  import opened Words

  // What one more character does to a half-read group.

  lemma {:induction false} NumberNext(m: Text, b: nat, i: nat, set_: string, base: nat)
    requires b <= i < |m|
    ensures Number(m[b..i + 1], set_, base)
         == match Number(m[b..i], set_, base)
            case Err => Err
            case Ok(v) => match CharPos(m[i], set_) case Err => Err case Ok(c) => Ok(v * base + c)
  {
    assert m[b..i + 1][..i - b] == m[b..i];
  }

  lemma {:induction false} NumberPrefix(g: Text, k: nat, set_: string, base: nat)
    requires k <= |g| && Number(g[..k], set_, base).Err?
    ensures Number(g, set_, base).Err?
    decreases |g|
  {
    if k < |g| {
      assert g[..|g| - 1][..k] == g[..k];
      NumberPrefix(g[..|g| - 1], k, set_, base);
    } else {
      assert g[..k] == g;
    }
  }

  lemma {:induction false} AlphaRefused(m: Text, b: nat, i: nat)
    requires b <= i < |m| && i - b < 2 && Number(m[b..i + 1], ALPHA, 45).Err?
    ensures AlphaBits(m[b..]).Err?
  {
    hide CharPos, Bits, Pow2;
    var rest := m[b..];
    if |rest| == 1 {
      assert rest == m[b..i + 1];
    } else {
      assert rest[..2][..i + 1 - b] == m[b..i + 1];
      NumberPrefix(rest[..2], i + 1 - b, ALPHA, 45);
    }
  }

  lemma {:induction false} AlphaPair(m: Text, b: nat, done: seq<bool>)
    requires b + 2 <= |m| && Number(m[b..b + 2], ALPHA, 45).Ok?
    ensures Number(m[b..b + 2], ALPHA, 45).value < Pow2(11)
    ensures Before(done, AlphaBits(m[b..]))
         == Before(done + Bits(Number(m[b..b + 2], ALPHA, 45).value, 11), AlphaBits(m[b + 2..]))
  {
    FieldSizes();
    hide Bits, Pow2, Number;
    var rest := m[b..];
    assert rest[..2] == m[b..b + 2] && rest[2..] == m[b + 2..];
    NumberRange(m[b..b + 2], ALPHA, 45);
    BeforeBefore(done, Bits(Number(m[b..b + 2], ALPHA, 45).value, 11), AlphaBits(m[b + 2..]));
  }

  /** One turn of the encoder's loop at character i, its group begun at i - i % 2. */
  lemma {:induction false} AlphaStep(m: Text, i: nat, done: seq<bool>)
    requires i < |m| && Number(m[i - i % 2..i], ALPHA, 45).Ok?
    ensures CharPos(m[i], ALPHA).Err? ==> AlphaBits(m[i - i % 2..]).Err?
    ensures CharPos(m[i], ALPHA).Ok? ==>
              var v := Number(m[i - i % 2..i], ALPHA, 45).value * 45 + CharPos(m[i], ALPHA).value;
              if i % 2 == 0 then Number(m[i..i + 1], ALPHA, 45) == Ok(v)
              else v < Pow2(11) && Number(m[i + 1..i + 1], ALPHA, 45) == Ok(0)
                   && Before(done, AlphaBits(m[i - 1..])) == Before(done + Bits(v, 11), AlphaBits(m[i + 1..]))
  {
    hide Bits, Pow2, Number, CharPos, AlphaBits;
    var b := i - i % 2;
    NumberNext(m, b, i, ALPHA, 45);
    NothingYet(m, ALPHA, 45);
    if CharPos(m[i], ALPHA).Err? {
      AlphaRefused(m, b, i);
    } else if i % 2 == 1 {
      AlphaPair(m, b, done);
    }
  }

  lemma {:induction false} AlphaEnd(m: Text, b: nat, done: seq<bool>)
    requires b <= |m| < b + 2 && Number(m[b..], ALPHA, 45).Ok?
    ensures |m| == b ==> Before(done, AlphaBits(m[b..])) == Ok(done)
    ensures |m| > b ==> Number(m[b..], ALPHA, 45).value < Pow2(6)
    ensures |m| > b ==> Before(done, AlphaBits(m[b..])) == Ok(done + Bits(Number(m[b..], ALPHA, 45).value, 6))
  {
    FieldSizes();
    hide Bits, Pow2, Number;
    assert done + [] == done;
    if |m| > b {
      NumberRange(m[b..], ALPHA, 45);
    }
  }

  // src/BitIO.cpp:796-819
  method MakeAlpha(message: Text) returns (r: Result<BitIO>)
    ensures r.Ok? <==> AlphaBits(message).Ok?
    ensures r.Ok? ==> fresh(r.value) && r.value.Valid() && r.value.position == 0
    ensures r.Ok? ==> r.value.contents == AlphaBits(message).value
  {
    FieldSizes();
    hide Bits, Pow2, Packed, Number, CharPos, AlphaBits;
    var result := new BitIO();
    var val := 0;
    var charI := 0;
    NothingYet(message, ALPHA, 45);
    BeforeNothing(AlphaBits(message));
    while charI < |message|
      invariant 0 <= charI <= |message|
      invariant fresh(result) && result.Valid() && result.position == 0
      invariant Number(message[charI - charI % 2..charI], ALPHA, 45) == Ok(val)
      invariant AlphaBits(message) == Before(result.contents, AlphaBits(message[charI - charI % 2..]))
    {
      AlphaStep(message, charI, result.contents);
      var pos :- CharPos(message[charI], ALPHA);
      val := val * 45 + pos;
      if charI % 2 == 1 {
        var ok := result.AppendBits(val, 11);
        val := 0;
      }
      charI := charI + 1;
    }
    assert message[charI - charI % 2..charI] == message[charI - charI % 2..];
    AlphaEnd(message, charI - charI % 2, result.contents);
    if charI % 2 == 1 {
      var ok := result.AppendBits(val, 6);
    }
    return Ok(result);
  }

  // src/BitIO.cpp:827-844
  method GetAlpha(stream: BitIO, length: nat) returns (r: Result<Text>)
    requires stream.Valid()
    modifies stream`position
    ensures stream.Valid()
    ensures r.Ok? <==> AlphaAt(stream.contents, old(stream.position), length).Ok?
    ensures r.Ok? ==> AlphaAt(stream.contents, old(stream.position), length) == Ok((r.value, stream.position))
  {
    hide Packed, Value, Pow2, CharAt;
    var result: Text := [];
    TextBeforeNothing(AlphaAt(stream.contents, stream.position, length));
    for charI := 0 to length / 2
      invariant stream.Valid()
      invariant AlphaAt(stream.contents, old(stream.position), length)
             == TextBefore(result, AlphaAt(stream.contents, stream.position, length - 2 * charI))
    {
      ghost var p := stream.position;
      var chars :- stream.GetBits(11);
      ghost var two := [CharAt(ALPHA, chars / 45), CharAt(ALPHA, chars % 45)];
      TextBeforeBefore(result, two, AlphaAt(stream.contents, p + 11, length - 2 * charI - 2));
      TwoPushes(result, CharAt(ALPHA, chars / 45), CharAt(ALPHA, chars % 45));
      result := result + [CharAt(ALPHA, chars / 45)];
      result := result + [CharAt(ALPHA, chars % 45)];
    }
    NothingAfter(result);
    if length % 2 == 1 {
      var last :- stream.GetBits(6);
      result := result + [CharAt(ALPHA, last)];
    }
    return Ok(result);
  }

  lemma {:induction false} B40Refused(m: Text, b: nat, i: nat)
    requires b <= i < |m| && i - b < 3 && Number(m[b..i + 1], THREE_B40, 40).Err?
    ensures B40Bits(m[b..]).Err?
  {
    hide CharPos, Bits, Pow2, Number;
    var rest := m[b..];
    var g := if |rest| < 3 then rest else rest[..3];
    assert g[..i + 1 - b] == m[b..i + 1];
    NumberPrefix(g, i + 1 - b, THREE_B40, 40);
  }

  lemma {:induction false} B40Triple(m: Text, b: nat, done: seq<bool>)
    requires b + 3 <= |m| && Number(m[b..b + 3], THREE_B40, 40).Ok?
    ensures Number(m[b..b + 3], THREE_B40, 40).value < Pow2(16)
    ensures Before(done, B40Bits(m[b..]))
         == Before(done + Bits(Number(m[b..b + 3], THREE_B40, 40).value, 16), B40Bits(m[b + 3..]))
  {
    FieldSizes();
    hide Bits, Pow2, Number;
    var rest := m[b..];
    assert rest[..3] == m[b..b + 3] && rest[3..] == m[b + 3..];
    NumberRange(m[b..b + 3], THREE_B40, 40);
    BeforeBefore(done, Bits(Number(m[b..b + 3], THREE_B40, 40).value, 16), B40Bits(m[b + 3..]));
  }

  /** One turn of the encoder's loop at character i, its group begun at i - i % 3. */
  lemma {:induction false} B40Step(m: Text, i: nat, done: seq<bool>)
    requires i < |m| && Number(m[i - i % 3..i], THREE_B40, 40).Ok?
    ensures CharPos(m[i], THREE_B40).Err? ==> B40Bits(m[i - i % 3..]).Err?
    ensures CharPos(m[i], THREE_B40).Ok? ==>
              var v := Number(m[i - i % 3..i], THREE_B40, 40).value * 40 + CharPos(m[i], THREE_B40).value;
              if i % 3 < 2 then Number(m[i - i % 3..i + 1], THREE_B40, 40) == Ok(v)
              else v < Pow2(16) && Number(m[i + 1..i + 1], THREE_B40, 40) == Ok(0)
                   && Before(done, B40Bits(m[i - 2..])) == Before(done + Bits(v, 16), B40Bits(m[i + 1..]))
  {
    hide Bits, Pow2, Number, CharPos, B40Bits;
    var b := i - i % 3;
    NumberNext(m, b, i, THREE_B40, 40);
    NothingYet(m, THREE_B40, 40);
    if CharPos(m[i], THREE_B40).Err? {
      B40Refused(m, b, i);
    } else if i % 3 == 2 {
      B40Triple(m, b, done);
    }
  }

  lemma {:induction false} B40End(m: Text, b: nat, done: seq<bool>)
    requires b <= |m| < b + 3 && Number(m[b..], THREE_B40, 40).Ok?
    ensures var v, r := Number(m[b..], THREE_B40, 40).value, Before(done, B40Bits(m[b..]));
            if |m| == b then r == Ok(done)
            else if |m| == b + 1 then v < 64 && r == if v < Pow2(5) then Ok(done + Bits(v, 5)) else Err
            else v < Pow2(11) && r == Ok(done + Bits(v, 11))
  {
    FieldSizes();
    hide Bits, Pow2, Number;
    assert done + [] == done;
    if |m| > b {
      NumberRange(m[b..], THREE_B40, 40);
    }
  }

  // src/BitIO.cpp:1005-1027
  method Make3B40(message: Text) returns (r: Result<BitIO>)
    ensures r.Ok? <==> B40Bits(message).Ok?
    ensures r.Ok? ==> fresh(r.value) && r.value.Valid() && r.value.position == 0
    ensures r.Ok? ==> r.value.contents == B40Bits(message).value
  {
    FieldSizes();
    hide Bits, Pow2, Packed, Number, CharPos, B40Bits;
    var result := new BitIO();
    var val := 0;
    var charI := 0;
    NothingYet(message, THREE_B40, 40);
    BeforeNothing(B40Bits(message));
    while charI < |message|
      invariant 0 <= charI <= |message|
      invariant fresh(result) && result.Valid() && result.position == 0
      invariant Number(message[charI - charI % 3..charI], THREE_B40, 40) == Ok(val)
      invariant B40Bits(message) == Before(result.contents, B40Bits(message[charI - charI % 3..]))
    {
      B40Step(message, charI, result.contents);
      var pos :- CharPos(message[charI], THREE_B40);
      val := val * 40 + pos;
      if charI % 3 == 2 {
        var ok := result.AppendBits(val, 16);
        val := 0;
      }
      charI := charI + 1;
    }
    assert message[charI - charI % 3..charI] == message[charI - charI % 3..];
    B40End(message, charI - charI % 3, result.contents);
    var ok := true;
    if charI % 3 == 1 {
      ok := result.AppendBits(val, 5);
    }
    if charI % 3 == 2 {
      ok := result.AppendBits(val, 11);
    }
    return if ok then Ok(result) else Err;
  }

  // src/BitIO.cpp:1036-1058
  method Get3B40(stream: BitIO, length: nat) returns (r: Result<Text>)
    requires stream.Valid()
    modifies stream`position
    ensures stream.Valid()
    ensures r.Ok? <==> B40At(stream.contents, old(stream.position), length).Ok?
    ensures r.Ok? ==> B40At(stream.contents, old(stream.position), length) == Ok((r.value, stream.position))
  {
    hide Packed, Value, Pow2, CharAt, B40Three;
    var result: Text := [];
    TextBeforeNothing(B40At(stream.contents, stream.position, length));
    for charI := 0 to length / 3
      invariant stream.Valid()
      invariant B40At(stream.contents, old(stream.position), length)
             == TextBefore(result, B40At(stream.contents, stream.position, length - 3 * charI))
    {
      ghost var p := stream.position;
      var chars :- stream.GetBits(16);
      TextBeforeBefore(result, B40Three(chars), B40At(stream.contents, p + 16, length - 3 * charI - 3));
      ThreePushes(result, chars);
      result := result + [CharAt(THREE_B40, chars / 1600)];
      chars := chars % 1600;
      result := result + [CharAt(THREE_B40, chars / 40)];
      result := result + [CharAt(THREE_B40, chars % 40)];
    }
    if length % 3 == 1 {
      var last :- stream.GetBits(5);
      result := result + [CharAt(THREE_B40, last)];
    }
    if length % 3 == 2 {
      var chars :- stream.GetBits(11);
      TwoPushes(result, CharAt(THREE_B40, chars / 40), CharAt(THREE_B40, chars % 40));
      result := result + [CharAt(THREE_B40, chars / 40)];
      result := result + [CharAt(THREE_B40, chars % 40)];
    }
    NothingAfter(result);
    return Ok(result);
  }

  lemma TwoPushes(t: Text, a: byte, b: byte)
    ensures t + [a] + [b] == t + [a, b]
  {
  }

  lemma NothingAfter(t: Text)
    ensures t + [] == t
  {
  }

  lemma {:induction false} ThreePushes(t: Text, v: nat)
    ensures t + [CharAt(THREE_B40, v / 1600)] + [CharAt(THREE_B40, v % 1600 / 40)] + [CharAt(THREE_B40, v % 1600 % 40)]
         == t + B40Three(v)
  {
    hide CharAt;
  }

  // src/BitIO.cpp:966-977
  method MakeHex(message: Text) returns (r: Result<BitIO>)
    ensures r.Ok? <==> HexBits(message).Ok?
    ensures r.Ok? ==> fresh(r.value) && r.value.Valid() && r.value.position == 0
    ensures r.Ok? ==> r.value.contents == HexBits(message).value
  {
    FieldSizes();
    hide Bits, Pow2, Packed, CharPos;
    var result := new BitIO();
    BeforeNothing(HexBits(message));
    assert message[0..] == message;
    for charI := 0 to |message|
      invariant fresh(result) && result.Valid() && result.position == 0
      invariant HexBits(message) == Before(result.contents, HexBits(message[charI..]))
    {
      var pos :- CharPos(ToLower(message[charI]), HEX);
      assert message[charI..][1..] == message[charI + 1..];
      BeforeBefore(result.contents, Bits(pos, 4), HexBits(message[charI + 1..]));
      var ok := result.AppendBits(pos, 4);
    }
    return Ok(result);
  }

  // src/BitIO.cpp:985-995
  method GetHex(stream: BitIO, length: nat) returns (r: Result<Text>)
    requires stream.Valid()
    modifies stream`position
    ensures stream.Valid()
    ensures r.Ok? <==> HexAt(stream.contents, old(stream.position), length).Ok?
    ensures r.Ok? ==> HexAt(stream.contents, old(stream.position), length) == Ok((r.value, stream.position))
  {
    hide Packed, Value, Pow2, CharAt;
    var result: Text := [];
    TextBeforeNothing(HexAt(stream.contents, stream.position, length));
    for charI := 0 to length
      invariant stream.Valid()
      invariant HexAt(stream.contents, old(stream.position), length)
             == TextBefore(result, HexAt(stream.contents, stream.position, length - charI))
    {
      ghost var p := stream.position;
      var v :- stream.GetBits(4);
      TextBeforeBefore(result, [CharAt(HEX, v)], HexAt(stream.contents, p + 4, length - charI - 1));
      result := result + [CharAt(HEX, v)];
    }
    NothingAfter(result);
    return Ok(result);
  }

  // src/BitIO.cpp:855-911
  method MakeUtf8(message: Text) returns (r: Result<BitIO>)
    ensures r.Ok? <==> Pack(message).Ok?
    ensures r.Ok? ==> fresh(r.value) && r.value.Valid() && r.value.position == 0
    ensures r.Ok? ==> r.value.contents == Pack(message).value
  {
    FieldSizes();
    hide Bits, Pow2, Packed;
    var result := new BitIO();
    var remainingBytes, bitLength, block: nat := 0, 0, 0;
    BeforeNothing(Pack(message));
    assert message[0..] == message;
    for i := 0 to |message|
      invariant fresh(result) && result.Valid() && result.position == 0
      invariant Carried(remainingBytes, bitLength, block)
      invariant Pack(message) == Before(result.contents, Utf8Bits(message[i..], remainingBytes, bitLength, block))
    {
      var b := message[i];
      ghost var rest := message[i..];
      assert rest[1..] == message[i + 1..];
      if b < 0x80 {
        if remainingBytes != 0 {
          return Err;
        }
        BeforeBefore(result.contents, Bits(b, 8), Utf8Bits(rest[1..], 0, bitLength, block));
        var ok := result.AppendBits(b, 8);
      } else if remainingBytes == 0 {
        if b < 0xdf {
          remainingBytes, bitLength, block := 2, 13, b % 0x80;
        } else if b < 0xef {
          remainingBytes, bitLength, block := 3, 19, b % 0x80;
        } else if b < 0xf7 {
          remainingBytes, bitLength, block := 4, 24, b % 8 + 0x38;
        } else {
          return Err;
        }
      } else {
        remainingBytes := remainingBytes - 1;
        block := block * 64 + b as nat % 64;
        if remainingBytes == 1 {
          BeforeBefore(result.contents, Bits(block, bitLength), Utf8Bits(rest[1..], 0, bitLength, block));
          var ok := result.AppendBits(block, bitLength);
          remainingBytes := 0;
        }
      }
    }
    return Ok(result);
  }

  /** How much the encoder's block can hold with so many bytes still to come. */
  ghost predicate Carried(remaining: nat, width: nat, block: nat) {
    remaining == 0
    || (remaining == 2 && width == 13 && block < 128)
    || (remaining in {2, 3} && width == 19 && block < if remaining == 3 then 128 else 8192)
    || (remaining in {2, 3, 4} && width == 24
        && block < if remaining == 4 then 64 else if remaining == 3 then 4096 else 262144)
  }

  /** One field of a decoder. */
  method Field(stream: BitIO, n: nat) returns (r: Result<nat>)
    requires stream.Valid() && 1 <= n <= 64
    modifies stream`position
    ensures stream.Valid() && r == Read(stream.contents, old(stream.position), n)
    ensures r.Ok? ==> r.value < Pow2(n) && stream.position == old(stream.position) + n
  {
    hide Packed, Value, Pow2;
    var v :- stream.GetBits(n);
    return Ok(v);
  }

  // src/BitIO.cpp:928-952, one character
  method GetUnit(stream: BitIO) returns (r: Result<Text>)
    requires stream.Valid()
    modifies stream`position
    ensures stream.Valid()
    ensures r.Ok? <==> UnitAt(stream.contents, old(stream.position)).Ok?
    ensures r.Ok? ==> UnitAt(stream.contents, old(stream.position)) == Ok((r.value, stream.position))
  {
    Powers();
    hide Packed, Value, Pow2, Read;
    var marker :- Field(stream, 1);
    if marker == 0 {
      var v :- Field(stream, 7);
      return Ok([v]);
    }
    marker :- Field(stream, 1);
    if marker == 0 {
      var x :- Field(stream, 5);
      var y :- Field(stream, 6);
      return Ok([0xc0 + x, 0x80 + y]);
    }
    marker :- Field(stream, 1);
    if marker == 0 {
      var x :- Field(stream, 4);
      var y :- Field(stream, 6);
      var z :- Field(stream, 6);
      return Ok([0xe0 + x, 0x80 + y, 0x80 + z]);
    }
    var x :- Field(stream, 3);
    var y :- Field(stream, 6);
    var z :- Field(stream, 6);
    var w :- Field(stream, 6);
    return Ok([0xf0 + x, 0x80 + y, 0x80 + z, 0x80 + w]);
  }

  // src/BitIO.cpp:923-955
  method GetUtf8(stream: BitIO, length: nat) returns (r: Result<Text>)
    requires stream.Valid()
    modifies stream`position
    ensures stream.Valid()
    ensures r.Ok? <==> Utf8At(stream.contents, old(stream.position), length).Ok?
    ensures r.Ok? ==> Utf8At(stream.contents, old(stream.position), length) == Ok((r.value, stream.position))
  {
    hide Packed, UnitAt;
    var result: Text := [];
    TextBeforeNothing(Utf8At(stream.contents, stream.position, length));
    for i := 0 to length
      invariant stream.Valid()
      invariant Utf8At(stream.contents, old(stream.position), length)
             == TextBefore(result, Utf8At(stream.contents, stream.position, length - i))
    {
      var unit :- GetUnit(stream);
      TextBeforeBefore(result, unit, Utf8At(stream.contents, stream.position, length - i - 1));
      result := result + unit;
    }
    NothingAfter(result);
    return Ok(result);
  }

  lemma {:induction false} TextBeforeNothing(r: Result<(Text, nat)>)
    ensures TextBefore([], r) == r
  {
    if r.Ok? {
      assert [] + r.value.0 == r.value.0;
    }
  }

  lemma NothingYet(m: Text, set_: string, base: nat)
    ensures forall b :: 0 <= b <= |m| ==> Number(m[b..b], set_, base) == Ok(0)
    ensures m[0..] == m
  {
  }

  lemma {:induction false} BeforeNothing<T>(r: Result<seq<T>>)
    ensures Before([], r) == r
  {
    if r.Ok? {
      assert [] + r.value == r.value;
    }
  }
}
