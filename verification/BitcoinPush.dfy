/** Bitcoin script data pushes: an opcode giving the byte count, directly or in
    a following 1-, 2- or 4-byte field, then the bytes. */
module BitcoinPush {
  import opened BitStream
  import opened Fields
  import opened Numbers
  import opened Packing
  import opened Results
  import opened Words

  const OP_RETURN := 106

  /** Bytes written one after another. */
  function DataBits(data: seq<byte>): (b: seq<bool>)
    ensures |b| == 8 * |data|
  {
    if data == [] then [] else DataBits(data[..|data| - 1]) + Bits(data[|data| - 1], 8)
  }

  /** The opcode and length field of a push of n bytes. */
  function Header(n: nat): seq<bool> {
    if n > 0xffff then Bits(0x4e, 8) + Bits(n, 32)
    else if n > 0xff then Bits(0x4d, 8) + Bits(n, 16)
    else if n > 75 then Bits(0x4c, 8) + Bits(n, 8)
    else Bits(n, 8)
  }

  function Prefix(includeOpReturn: bool): seq<bool> {
    if includeOpReturn then Bits(OP_RETURN, 8) else []
  }

  /** The bytes a push at p carries, and the place after it. */
  function PushAt(s: seq<bool>, p: nat): Result<(seq<byte>, nat)> {
    var opCode :- Read(s, p, 8);
    if opCode == 0 || opCode >= 79 then Err
    else if opCode == 76 then var n :- Read(s, p + 8, 8); BytesAt(s, p + 16, n)
    else if opCode == 77 then var n :- Read(s, p + 8, 16); BytesAt(s, p + 24, n)
    else if opCode == 78 then var n :- Read(s, p + 8, 32); BytesAt(s, p + 40, n)
    else BytesAt(s, p + 8, opCode)
  }

  function BytesAt(s: seq<bool>, p: nat, n: nat): (r: Result<(seq<byte>, nat)>)
    ensures r.Ok? <==> p + 8 * n <= |s|
    ensures r.Ok? ==> |r.value.0| == n && r.value.1 == p + 8 * n
    decreases n
  {
    if n == 0 then
      if p <= |s| then Ok(([], p)) else Err
    else
      var (front, q) :- BytesAt(s, p, n - 1);
      var b :- Read(s, q, 8);
      ByteLimit();
      Ok((front + [b], q + 8))
  }

  lemma BytesStep(s: seq<bool>, p: nat, n: nat)
    ensures BytesAt(s, p, n).Ok? && Read(s, p + 8 * n, 8).Ok? ==>
              && BytesAt(s, p, n + 1).Ok?
              && BytesAt(s, p, n + 1).value.0 == BytesAt(s, p, n).value.0 + [Read(s, p + 8 * n, 8).value]
  {
    hide Read;
  }

  lemma ByteLimit()
    ensures Pow2(8) == 256
  {
  }

  lemma {:induction false} SizeLimits()
    ensures Pow2(8) == 256 && Pow2(16) == 0x1_0000 && Pow2(32) == 0x1_0000_0000
  {
    ByteLimit();
    Pow2Add(8, 8);
    Pow2Add(16, 16);
  }

  lemma {:induction false} DataReadsBack(data: seq<byte>, s: seq<bool>, p: nat)
    requires At(s, p, DataBits(data))
    ensures BytesAt(s, p, |data|) == Ok((data, p + 8 * |data|))
  {
    hide Bits, Value, Pow2;
    if data != [] {
      var front, last := data[..|data| - 1], data[|data| - 1];
      AtParts(s, p, DataBits(front), Bits(last, 8));
      DataReadsBack(front, s, p);
      ByteLimit();
      ReadField(s, p + 8 * |front|, last, 8);
      BytesStep(s, p, |front|);
      hide BytesAt, DataBits;
      assert data == front + [last];
    }
  }

  /** A push reads back as the bytes it was made from exactly when there were some:
      an empty push is opcode 0, which the reader refuses. */
  lemma {:induction false} PushReadsBack(data: seq<byte>, s: seq<bool>, p: nat)
    requires |data| < 0x1_0000_0000 && At(s, p, Header(|data|) + DataBits(data))
    ensures data != [] ==> PushAt(s, p) == Ok((data, p + |Header(|data|)| + 8 * |data|))
    ensures data == [] ==> PushAt(s, p) == Err
  {
    SizeLimits();
    var n := |data|;
    hide Bits, Value, Pow2, BytesAt, DataBits, Read;
    AtParts(s, p, Header(n), DataBits(data));
    DataReadsBack(data, s, p + |Header(n)|);
    if n > 0xffff {
      HeaderFields(s, p, 0x4e, n, 32);
      assert PushAt(s, p) == BytesAt(s, p + 40, n);
    } else if n > 0xff {
      HeaderFields(s, p, 0x4d, n, 16);
      assert PushAt(s, p) == BytesAt(s, p + 24, n);
    } else if n > 75 {
      HeaderFields(s, p, 0x4c, n, 8);
      assert PushAt(s, p) == BytesAt(s, p + 16, n);
    } else {
      ReadField(s, p, n, 8);
    }
  }

  /** Bytes up to 75 are their own opcode; above that opcodes 76, 77 and 78 announce a
      length in one, two and four bytes, the shortest that will hold it. */
  lemma {:induction false} HeaderIs(n: nat)
    ensures Value(Header(n)[..8]) == if n < 76 then n else if n < 256 then 76 else if n < 65536 then 77 else 78
    ensures |Header(n)| == if n < 76 then 8 else if n < 256 then 16 else if n < 65536 then 24 else 40
    ensures n < 0x1_0000_0000 && 76 <= n ==> Value(Header(n)[8..]) == n
  {
    SizeLimits();
    hide Bits, Value, Pow2;
    if n > 0xffff {
      HeaderParts(n, 78, 32);
    } else if n > 0xff {
      HeaderParts(n, 77, 16);
    } else if n > 75 {
      HeaderParts(n, 76, 8);
    } else {
      ValueOfBits(n, 8);
      assert Header(n)[..8] == Header(n);
    }
  }

  /** With OP_RETURN asked for, the one byte 106 stands in front. */
  lemma {:induction false} PrefixIs(includeOpReturn: bool)
    ensures if includeOpReturn then |Prefix(includeOpReturn)| == 8 && Value(Prefix(includeOpReturn)) == 106
            else Prefix(includeOpReturn) == []
  {
    ByteLimit();
    ValueOfBits(106, 8);
  }

  lemma {:induction false} HeaderParts(n: nat, opCode: nat, width: nat)
    requires opCode < 256 && Header(n) == Bits(opCode, 8) + Bits(n, width)
    ensures Value(Header(n)[..8]) == opCode && |Header(n)| == 8 + width
    ensures n < Pow2(width) ==> Value(Header(n)[8..]) == n
  {
    ByteLimit();
    hide Bits, Value, Pow2, Header;
    ValueOfBits(opCode, 8);
    assert Header(n)[..8] == Bits(opCode, 8);
    assert Header(n)[8..] == Bits(n, width);
    if n < Pow2(width) {
      ValueOfBits(n, width);
    }
  }

  /** Nothing the reader takes for the same bytes is shorter than the push. */
  lemma {:induction false} NoneShorter(s: seq<bool>, p: nat)
    requires PushAt(s, p).Ok?
    ensures var (data, end) := PushAt(s, p).value; p + |Header(|data|)| + 8 * |data| <= end
  {
    SizeLimits();
    hide Bits, Value, Pow2, BytesAt;
    var opCode := Read(s, p, 8).value;
    if opCode == 76 {
      ReadBelow(s, p + 8, 8);
    } else if opCode == 77 {
      ReadBelow(s, p + 8, 16);
    }
  }

  lemma {:induction false} ReadBelow(s: seq<bool>, p: nat, n: nat)
    requires Read(s, p, n).Ok?
    ensures Read(s, p, n).value < Pow2(n)
  {
  }

  lemma {:induction false} HeaderFields(s: seq<bool>, p: nat, opCode: nat, n: nat, width: nat)
    requires opCode < 256 && n < Pow2(width) && At(s, p, Bits(opCode, 8) + Bits(n, width))
    ensures Read(s, p, 8) == Ok(opCode) && Read(s, p + 8, width) == Ok(n)
  {
    ByteLimit();
    hide Bits, Pow2;
    AtParts(s, p, Bits(opCode, 8), Bits(n, width));
    ReadField(s, p, opCode, 8);
    ReadField(s, p + 8, n, width);
  }

  /** An opcode put above a length field in one number is the two fields in a row. */
  lemma {:induction false} Combined(opCode: Long, n: Long, width: nat)
    requires opCode < 256 && width <= 32 && 1 <= width && n < Pow2(width)
    ensures Fits(Or(Shl(opCode, width), n), 8 + width)
    ensures Bits(Or(Shl(opCode, width), n), 8 + width) == Bits(opCode, 8) + Bits(n, width)
  {
    ByteLimit();
    hide Pattern, Bits, Value, Pow2, Or, Shl;
    PatternOfSmall(opCode, 8);
    PatternOfSmall(n, width);
    var x, b := Or(Shl(opCode, width), n), Bits(opCode, 8) + Bits(n, width);
    assert Pattern(Shl(opCode, width)) == Zeros(56 - width) + Bits(opCode, 8) + Zeros(width);
    assert Pattern(x) == Zeros(64 - |b|) + b;
    ValueOfLowBits(x, b);
    BitsOfValue(b);
  }

  // src/BitIO.cpp:1336-1357
  method MakeFromBytes(value: seq<byte>, includeOpReturn: bool) returns (r: Result<BitIO>)
    ensures r.Ok? <==> |value| < 0x1_0000_0000
    ensures r.Ok? ==> fresh(r.value) && r.value.Valid() && r.value.position == 0
    ensures r.Ok? ==> r.value.contents == Prefix(includeOpReturn) + Header(|value|) + DataBits(value)
  {
    var result := new BitIO();
    hide Bits, Pow2, Packed, Header;
    if includeOpReturn {
      SizeLimits();
      var ok := result.AppendBits(OP_RETURN, 8);
    }
    var fits := AppendHeader(result, |value|);
    if !fits {
      return Err;
    }
    for i := 0 to |value|
      invariant fresh(result) && result.Valid() && result.position == 0
      invariant result.contents == Prefix(includeOpReturn) + Header(|value|) + DataBits(value[..i])
    {
      SizeLimits();
      var ok := result.AppendBits(value[i], 8);
      assert value[..i + 1][..i] == value[..i];
    }
    assert value[..|value|] == value;
    return Ok(result);
  }

  // src/BitIO.cpp:1341-1352
  method AppendHeader(stream: BitIO, n: nat) returns (ok: bool)
    requires stream.Valid()
    modifies stream`longs, stream`length, stream`contents
    ensures stream.Valid() && (ok <==> n < 0x1_0000_0000)
    ensures ok ==> stream.contents == old(stream.contents) + Header(n)
  {
    SizeLimits();
    hide Bits, Pow2, Packed;
    if n > 0xffff_ffff_ffff_ffff {
      return false; // no vector is this long
    }
    if n > 0xffff {
      ok := stream.AppendBits(0x4e, 8);
      ok := stream.AppendBits(n, 32);
    } else if n > 0xff {
      ok := stream.AppendBits(0x4d, 8);
      ok := stream.AppendBits(n, 16);
    } else if n > 75 {
      ok := stream.AppendBits(0x4c, 8);
      ok := stream.AppendBits(n, 8);
    } else {
      ok := stream.AppendBits(n, 8);
    }
    assert ok ==> stream.contents == old(stream.contents) + Header(n);
  }

  // src/BitIO.cpp:1364-1386
  method MakeInPlace(value: BitIO, includeOpReturn: bool) returns (ok: bool)
    requires value.Valid()
    modifies value
    ensures value.Valid()
    ensures ok <==> old(value.length) % 8 == 0 && old(value.length) / 8 < 0x1_0000_0000
    ensures !ok ==> unchanged(value)
    ensures ok ==> value.position == |Prefix(includeOpReturn)|
    ensures ok ==> value.contents == Prefix(includeOpReturn) + Header(old(value.length) / 8) + old(value.contents)
  {
    if value.length % 8 != 0 || value.length / 8 > 0xffff_ffff {
      return false;
    }
    hide Header, Bits, Packed;
    var length := value.length / 8;
    ok := value.MovePositionTo(0);
    InsertHeader(value, length);
    ok := value.MovePositionTo(0);
    if includeOpReturn {
      InsertFront(value.contents, Bits(OP_RETURN, 8));
      SizeLimits();
      ok := value.InsertBits(OP_RETURN, 8);
    }
    Joined(Prefix(includeOpReturn), Header(length), old(value.contents));
  }

  lemma InsertFront(s: seq<bool>, v: seq<bool>)
    ensures Insert(s, 0, v) == v + s
  {
  }

  lemma Joined(a: seq<bool>, b: seq<bool>, c: seq<bool>)
    ensures a + (b + c) == a + b + c && [] + b == b
  {
  }

  // src/BitIO.cpp:1373-1381
  method InsertHeader(value: BitIO, length: nat)
    requires value.Valid() && value.position == 0 && length < 0x1_0000_0000
    modifies value
    ensures value.Valid() && value.contents == Header(length) + old(value.contents)
  {
    SizeLimits();
    hide Bits, Pow2, Packed, Or, Shl, Insert;
    InsertFront(value.contents, Header(length));
    var ok;
    if length > 0xffff {
      Combined(0x4e, length, 32);
      ok := value.InsertBits(Or(Shl(0x4e, 32), length), 40);
    } else if length > 0xff {
      Combined(0x4d, length, 16);
      ok := value.InsertBits(Or(Shl(0x4d, 16), length), 24);
    } else if length > 75 {
      Combined(0x4c, length, 8);
      ok := value.InsertBits(Or(Shl(0x4c, 8), length), 16);
    } else {
      ok := value.InsertBits(length, 8);
    }
  }

  /** Both ways of making a push agree: the header inserted in front of the bytes
      already in a stream gives the stream the bytes alone would have made. */
  method MakeBothWays(value: seq<byte>, stream: BitIO, includeOpReturn: bool)
    returns (fromBytes: Result<BitIO>, inPlace: bool)
    requires stream.Valid() && stream.contents == DataBits(value)
    modifies stream
    ensures fromBytes.Ok? <==> inPlace
    ensures inPlace ==> stream.Valid() && fromBytes.value.Valid() && stream.contents == fromBytes.value.contents
  {
    hide Packed, Bits, DataBits, Header;
    fromBytes := MakeFromBytes(value, includeOpReturn);
    inPlace := MakeInPlace(stream, includeOpReturn);
  }

  // src/BitIO.cpp:1436-1457
  method GetData(stream: BitIO) returns (r: Result<seq<byte>>)
    requires stream.Valid()
    modifies stream`position
    ensures stream.Valid()
    ensures r.Ok? <==> PushAt(stream.contents, old(stream.position)).Ok?
    ensures r.Ok? ==> PushAt(stream.contents, old(stream.position)) == Ok((r.value, stream.position))
  {
    SizeLimits();
    hide Packed, Value, Pow2, BytesAt;
    var opCode :- stream.GetBits(8);
    if opCode == 0 || opCode >= 79 {
      return Err;
    }
    var length := opCode;
    if opCode == 76 {
      length :- stream.GetBits(8);
    }
    if opCode == 77 {
      length :- stream.GetBits(16);
    }
    if opCode == 78 {
      length :- stream.GetBits(32);
    }
    r := GetBytes(stream, length);
  }

  // src/BitIO.cpp:1453-1456
  method GetBytes(stream: BitIO, length: nat) returns (r: Result<seq<byte>>)
    requires stream.Valid()
    modifies stream`position
    ensures stream.Valid()
    ensures r.Ok? <==> BytesAt(stream.contents, old(stream.position), length).Ok?
    ensures r.Ok? ==> BytesAt(stream.contents, old(stream.position), length) == Ok((r.value, stream.position))
  {
    SizeLimits();
    hide Packed, Value, Pow2;
    ghost var start := stream.position;
    var result: seq<byte> := [];
    for i := 0 to length
      invariant stream.Valid() && start + 8 * i <= stream.length
      invariant BytesAt(stream.contents, start, i) == Ok((result, stream.position))
    {
      var b :- stream.GetBits(8);
      result := result + [b];
    }
    return Ok(result);
  }
}
