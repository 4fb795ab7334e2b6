/** Keys of variable length, and the string format that tries every listed
    encoder and keeps the shortest result (src/BitIO.cpp:689-787, 1491-1518). */
module BestString {
  import opened BitStream
  import opened Fields
  import opened Numbers
  import opened Packing
  import opened Results
  import opened StringStreams
  import opened TextCodecs
  import opened Words

  // Variable length keys

  // src/BitIO.h:61-81
  datatype XBit = XBit(depth: nat, key: Long, width: nat) {
    predicate Verified() {
      key != 0 && width != 0 && key < Pow2(width)
    }

    /** Two keys are the same whatever their widths. */
    predicate Same(other: XBit) {
      depth == other.depth && key == other.key
    }

    /** depth empty segments, then the key. */
    function Encoded(): seq<bool> {
      Zeros(depth * width) + Bits(key, width)
    }
  }

  /** The key at p, and the place after it: segments are read until one is not 0. */
  function XBitAt(s: seq<bool>, p: nat, width: nat): Result<(XBit, nat)>
    decreases |s| - p
  {
    if width == 0 || width > 64 then Err
    else
      Pow2Is64();
      Pow2Monotone(width, 64);
      var key :- Read(s, p, width);
      if key != 0 then Ok((XBit(0, key, width), p + width))
      else var (x, q) :- XBitAt(s, p + width, width); Ok((x.(depth := x.depth + 1), q))
  }

  lemma {:induction false} XBitRoundTrip(x: XBit, s: seq<bool>, p: nat)
    requires x.Verified() && x.width <= 64 && At(s, p, x.Encoded())
    ensures XBitAt(s, p, x.width) == Ok((x, p + |x.Encoded()|))
    decreases x.depth
  {
    hide Bits, Value, Pow2;
    if x.depth == 0 {
      assert x.Encoded() == Bits(x.key, x.width);
      ReadField(s, p, x.key, x.width);
    } else {
      var y := x.(depth := x.depth - 1);
      Segments(x.depth - 1, x.width);
      assert x.Encoded() == Zeros(x.width) + y.Encoded();
      AtParts(s, p, Zeros(x.width), y.Encoded());
      ValueOfZeros(x.width);
      XBitRoundTrip(y, s, p + x.width);
    }
  }

  lemma Segments(depth: nat, width: nat)
    ensures (depth + 1) * width == width + depth * width
  {
  }

  // src/BitIO.cpp:1491-1502
  method MakeXBit(x: XBit) returns (r: Result<BitIO>)
    requires x.width <= 64
    ensures r.Ok? <==> x.Verified()
    ensures r.Ok? ==> fresh(r.value) && r.value.Valid() && r.value.position == 0
    ensures r.Ok? ==> r.value.contents == x.Encoded()
  {
    if !x.Verified() {
      return Err;
    }
    hide Bits, Zeros, Packed, Pow2;
    var result := new BitIO();
    result.AppendZeros(x.depth * x.width);
    var ok := result.AppendBits(x.key, x.width);
    assert [] + Zeros(x.depth * x.width) == Zeros(x.depth * x.width);
    return Ok(result);
  }

  // src/BitIO.cpp:1510-1518
  method GetXBit(stream: BitIO, width: nat) returns (r: Result<XBit>)
    requires stream.Valid()
    modifies stream`position
    ensures stream.Valid()
    ensures r.Ok? <==> XBitAt(stream.contents, old(stream.position), width).Ok?
    ensures r.Ok? ==> XBitAt(stream.contents, old(stream.position), width) == Ok((r.value, stream.position))
  {
    hide Packed, Value;
    var key: Long := 0;
    var depth := 0;
    while key == 0
      invariant stream.Valid()
      invariant XBitAt(stream.contents, old(stream.position), width)
             == if key == 0 then Deeper(XBitAt(stream.contents, stream.position, width), depth)
                else Ok((XBit(if depth > 0 then depth - 1 else 0, key, width), stream.position))
      invariant key != 0 ==> depth > 0
      decreases key == 0, stream.length - stream.position
    {
      key :- stream.GetBits(width);
      depth := depth + 1;
    }
    return Ok(XBit(depth - 1, key, width));
  }

  function Deeper(r: Result<(XBit, nat)>, steps: nat): Result<(XBit, nat)> {
    match r
    case Ok((x, q)) => Ok((x.(depth := x.depth + steps), q))
    case Err => Err
  }

  // Choosing the shortest encoding

  const ENCODE_ALPHA := 0
  const ENCODE_UTF8 := 1
  const ENCODE_HEX := 2
  const ENCODE_3B40 := 3

  // src/BitIO.h:90-100
  datatype HeaderOption = HeaderOption(header: XBit, encoder: nat)

  const DEFAULT_OPTIONS: seq<HeaderOption> := [
    HeaderOption(XBit(0, 1, 2), ENCODE_ALPHA),
    HeaderOption(XBit(0, 2, 2), ENCODE_3B40),
    HeaderOption(XBit(0, 3, 2), ENCODE_UTF8),
    HeaderOption(XBit(1, 1, 2), ENCODE_HEX)
  ]

  /** The bits one encoder makes of the text. */
  function EncodedBy(m: Text, encoder: nat): Result<seq<bool>> {
    if encoder == ENCODE_ALPHA then AlphaBits(m)
    else if encoder == ENCODE_UTF8 then Pack(m)
    else if encoder == ENCODE_HEX then HexBits(m)
    else if encoder == ENCODE_3B40 then B40Bits(m)
    else Err
  }

  /** Everything written when an option is chosen: header, character count, text. */
  function Candidate(m: Text, lengthBits: nat, option: HeaderOption): Result<seq<bool>> {
    if !option.header.Verified() then Err
    else Before(option.header.Encoded() + Bits(Count(m), lengthBits), EncodedBy(m, option.encoder))
  }

  /** No option stops the search: one with an encoder number that does not exist
      does, unless its header is refused first. */
  predicate Searchable(options: seq<HeaderOption>) {
    forall i :: 0 <= i < |options| ==> options[i].encoder <= 3 || !options[i].header.Verified()
  }

  /** Option i's result is shorter than those before it and no longer than those after. */
  ghost predicate Best(m: Text, lengthBits: nat, options: seq<HeaderOption>, upTo: nat, i: nat)
    requires upTo <= |options|
    ensures Best(m, lengthBits, options, upTo, i) ==> i < upTo && Candidate(m, lengthBits, options[i]).Ok?
  {
    i < upTo && Candidate(m, lengthBits, options[i]).Ok?
    && forall j :: 0 <= j < upTo && Candidate(m, lengthBits, options[j]).Ok? ==>
         var mine, other := |Candidate(m, lengthBits, options[i]).value|, |Candidate(m, lengthBits, options[j]).value|;
         if j < i then mine < other else mine <= other
  }

  ghost predicate NoneFits(m: Text, lengthBits: nat, options: seq<HeaderOption>, upTo: nat)
    requires upTo <= |options|
  {
    forall j :: 0 <= j < upTo ==> Candidate(m, lengthBits, options[j]).Err?
  }

  lemma Before0(m: Text, lengthBits: nat, options: seq<HeaderOption>)
    ensures Searchable(options[..0]) && NoneFits(m, lengthBits, options, 0)
  {
  }

  lemma {:induction false} SearchNext(m: Text, lengthBits: nat, options: seq<HeaderOption>, k: nat)
    requires k < |options| && Searchable(options[..k])
    ensures Searchable(options[..k + 1]) <==> options[k].encoder <= 3 || !options[k].header.Verified()
    ensures Searchable(options) ==> Searchable(options[..k + 1])
    ensures NoneFits(m, lengthBits, options, k) && Candidate(m, lengthBits, options[k]).Err?
        ==> NoneFits(m, lengthBits, options, k + 1)
    ensures NoneFits(m, lengthBits, options, k) && Candidate(m, lengthBits, options[k]).Ok?
        ==> Best(m, lengthBits, options, k + 1, k)
  {
    hide Candidate;
    assert forall i :: 0 <= i < k ==> options[..k][i] == options[..k + 1][i];
    assert forall i :: 0 <= i <= k ==> options[..k + 1][i] == options[i];
  }

  lemma {:induction false} BestNext(m: Text, lengthBits: nat, options: seq<HeaderOption>, k: nat, i: nat)
    requires k < |options| && Best(m, lengthBits, options, k, i)
    ensures var r := Candidate(m, lengthBits, options[k]);
            if r.Ok? && |r.value| < |Candidate(m, lengthBits, options[i]).value|
            then Best(m, lengthBits, options, k + 1, k) else Best(m, lengthBits, options, k + 1, i)
  {
    hide Candidate;
  }

  lemma OneOrNone(m: Text, lengthBits: nat, options: seq<HeaderOption>, i: nat)
    requires Best(m, lengthBits, options, |options|, i)
    ensures !NoneFits(m, lengthBits, options, |options|)
  {
  }

  // src/BitIO.cpp:244-252
  method StringLength(m: Text) returns (length: nat)
    ensures length == Count(m)
  {
    length := 0;
    assert m[0..] == m;
    for i := 0 to |m|
      invariant Count(m) == length + Count(m[i..])
    {
      assert m[i..][1..] == m[i + 1..];
      if !Continuation(m[i]) {
        length := length + 1;
      }
    }
  }

  method Encode(m: Text, encoder: nat) returns (r: Result<BitIO>)
    requires encoder <= 3
    ensures r.Ok? <==> EncodedBy(m, encoder).Ok?
    ensures r.Ok? ==> fresh(r.value) && r.value.Valid() && r.value.position == 0
    ensures r.Ok? ==> r.value.contents == EncodedBy(m, encoder).value
  {
    hide AlphaBits, B40Bits, HexBits, Pack;
    match encoder
    case 0 => r := MakeAlpha(m);
    case 1 => r := MakeUtf8(m);
    case 2 => r := MakeHex(m);
    case _ => r := Make3B40(m);
  }

  /** One turn of the search: what an option writes, if it can. */
  method TryOption(m: Text, lengthBits: nat, option: HeaderOption) returns (r: Result<BitIO>)
    requires 1 <= lengthBits <= 64 && Count(m) < Pow2(lengthBits) && option.header.width <= 64
    requires option.encoder <= 3 || !option.header.Verified()
    ensures r.Ok? <==> Candidate(m, lengthBits, option).Ok?
    ensures r.Ok? ==> fresh(r.value) && r.value.Valid() && r.value.position == 0
    ensures r.Ok? ==> r.value.contents == Candidate(m, lengthBits, option).value
  {
    hide EncodedBy, Count, Bits, Packed;
    var result :- MakeXBit(option.header);
    Pow2Is64();
    Pow2Monotone(lengthBits, 64);
    hide Pow2;
    var ok := result.AppendBits(Count(m), lengthBits);
    var temp :- Encode(m, option.encoder);
    result.AppendStream(temp);
    return Ok(result);
  }

  // src/BitIO.cpp:692-748
  method MakeBestString(m: Text, lengthBits: nat, options: seq<HeaderOption>) returns (r: Result<BitIO>)
    requires lengthBits <= 64 && forall i :: 0 <= i < |options| ==> options[i].header.width <= 64
    ensures r.Err? <==> lengthBits == 0 || Count(m) >= Pow2(lengthBits) || !Searchable(options)
                        || NoneFits(m, lengthBits, options, |options|)
    ensures r.Ok? ==> fresh(r.value) && r.value.Valid() && r.value.position == 0
    ensures r.Ok? ==> exists i: nat :: Best(m, lengthBits, options, |options|, i)
                                  && r.value.contents == Candidate(m, lengthBits, options[i]).value
    ensures r.Ok? ==> forall j :: 0 <= j < |options| && Candidate(m, lengthBits, options[j]).Ok? ==>
                                    |r.value.contents| <= |Candidate(m, lengthBits, options[j]).value|
  {
    var characterCount := StringLength(m);
    if lengthBits == 0 || characterCount >= Pow2(lengthBits) {
      return Err;
    }
    hide Candidate, Count, Pow2, Best, NoneFits, Searchable;
    ghost var chosen;
    r, chosen := Search(m, lengthBits, options);
    if r.Ok? {
      OneOrNone(m, lengthBits, options, chosen);
      NoneBetter(m, lengthBits, options, chosen);
    }
  }

  lemma NoneBetter(m: Text, lengthBits: nat, options: seq<HeaderOption>, i: nat)
    requires Best(m, lengthBits, options, |options|, i)
    ensures forall j :: 0 <= j < |options| && Candidate(m, lengthBits, options[j]).Ok? ==>
              |Candidate(m, lengthBits, options[i]).value| <= |Candidate(m, lengthBits, options[j]).value|
  {
    hide Candidate;
  }

  /** The search over the options: the first of the shortest, and an error where an encoder is
      unknown or none accepts. */
  method Search(m: Text, lengthBits: nat, options: seq<HeaderOption>) returns (r: Result<BitIO>, ghost chosen: nat)
    requires 1 <= lengthBits <= 64 && Count(m) < Pow2(lengthBits)
    requires forall i :: 0 <= i < |options| ==> options[i].header.width <= 64
    ensures r.Err? ==> !Searchable(options) || NoneFits(m, lengthBits, options, |options|)
    ensures r.Ok? ==> fresh(r.value) && r.value.Valid() && r.value.position == 0
    ensures r.Ok? ==>
              && Searchable(options) && Best(m, lengthBits, options, |options|, chosen)
              && r.value.contents == Candidate(m, lengthBits, options[chosen]).value
  {
    hide Candidate, Count, Pow2, Packed, Best, NoneFits, Searchable;
    Before0(m, lengthBits, options);
    r, chosen := Err, 0;
    for k := 0 to |options|
      invariant Searchable(options[..k])
      invariant r.Err? ==> NoneFits(m, lengthBits, options, k)
      invariant r.Ok? ==> fresh(r.value) && r.value.Valid() && r.value.position == 0
      invariant r.Ok? ==> Best(m, lengthBits, options, k, chosen)
      invariant r.Ok? ==> r.value.contents == Candidate(m, lengthBits, options[chosen]).value
    {
      SearchNext(m, lengthBits, options, k);
      if options[k].encoder > 3 && options[k].header.Verified() {
        return Err, 0;
      }
      var result := TryOption(m, lengthBits, options[k]);
      if r.Ok? {
        BestNext(m, lengthBits, options, k, chosen);
      }
      if result.Ok? && (r.Err? || result.value.length < r.value.length) {
        r, chosen := result, k;
      }
    }
    assert options[..|options|] == options;
  }

  // Reading the format back

  /** The encoder of the first option with this key. */
  function EncoderFor(header: XBit, options: seq<HeaderOption>): Result<nat> {
    if options == [] then Err
    else if options[0].header.Same(header) then Ok(options[0].encoder)
    else EncoderFor(header, options[1..])
  }

  /** The text at p by one encoder. */
  function DecodedBy(s: seq<bool>, p: nat, encoder: nat, length: nat): Result<(Text, nat)> {
    if encoder == ENCODE_ALPHA then AlphaAt(s, p, length)
    else if encoder == ENCODE_UTF8 then Utf8At(s, p, length)
    else if encoder == ENCODE_HEX then HexAt(s, p, length)
    else if encoder == ENCODE_3B40 then B40At(s, p, length)
    else Err
  }

  function BestAt(s: seq<bool>, p: nat, lengthBits: nat, options: seq<HeaderOption>): Result<(Text, nat)>
    requires options != []
  {
    var (header, q) :- XBitAt(s, p, options[0].header.width);
    if lengthBits == 0 || lengthBits > 64 then Err
    else
      var length :- Read(s, q, lengthBits);
      var encoder :- EncoderFor(header, options);
      DecodedBy(s, q + lengthBits, encoder, length)
  }

  // src/BitIO.cpp:759-787
  method GetBestString(stream: BitIO, lengthBits: nat, options: seq<HeaderOption>) returns (r: Result<Text>)
    requires stream.Valid() && options != []
    modifies stream`position
    ensures stream.Valid()
    ensures r.Ok? <==> BestAt(stream.contents, old(stream.position), lengthBits, options).Ok?
    ensures r.Ok? ==>
              BestAt(stream.contents, old(stream.position), lengthBits, options) == Ok((r.value, stream.position))
    ensures r.Ok? ==> 1 <= lengthBits <= 64
  {
    hide Packed, Value, XBitAt, AlphaAt, Utf8At, HexAt, B40At;
    var header :- GetXBit(stream, options[0].header.width);
    var encoder: Result<nat> := Err;
    assert options[0..] == options;
    for k := 0 to |options|
      invariant encoder == Err
      invariant EncoderFor(header, options) == EncoderFor(header, options[k..])
    {
      assert options[k..][1..] == options[k + 1..];
      if options[k].header.Same(header) {
        encoder := Ok(options[k].encoder);
        break;
      }
    }
    var length :- stream.GetBits(lengthBits);
    match encoder
    case Ok(0) => r := GetAlpha(stream, length);
    case Ok(1) => r := GetUtf8(stream, length);
    case Ok(2) => r := GetHex(stream, length);
    case Ok(3) => r := Get3B40(stream, length);
    case _ => return Err;
  }

  // Which texts come back

  predicate Ascii(set_: string) {
    forall i :: 0 <= i < |set_| ==> set_[i] < 128 as char
  }

  lemma PiecesAreAscii()
    ensures Ascii(DIGITS) && Ascii(LETTERS[..13]) && Ascii(LETTERS[13..])
    ensures Ascii(" $%*+-./:") && Ascii("#$&.") && Ascii(HEX)
  {
  }

  lemma {:induction false} LettersAreAscii()
    ensures Ascii(LETTERS)
  {
    PiecesAreAscii();
    assert LETTERS == LETTERS[..13] + LETTERS[13..];
  }

  lemma {:induction false} SetsAreAscii(c: byte)
    ensures CharPos(c, ALPHA).Ok? || CharPos(c, THREE_B40).Ok? ==> c < 128
    ensures CharPos(c, HEX).Ok? ==> c < 128
  {
    hide CharPos;
    PiecesAreAscii();
    LettersAreAscii();
    assert Ascii(ALPHA) && Ascii(THREE_B40);
  }

  lemma {:induction false} CountAscii(m: Text)
    requires forall i :: 0 <= i < |m| ==> m[i] < 128
    ensures Count(m) == |m| && Faithful(m)
  {
    if m != [] {
      CountAscii(m[1..]);
    }
  }

  lemma {:induction false} AllInIsAscii(m: Text, set_: string)
    requires set_ in {ALPHA, THREE_B40, HEX} && AllIn(m, set_)
    ensures forall i :: 0 <= i < |m| ==> m[i] < 128
  {
    hide CharPos;
    forall i | 0 <= i < |m|
      ensures m[i] < 128
    {
      SetsAreAscii(m[i]);
    }
  }

  lemma {:induction false} AlphaAccepts(m: Text)
    requires AlphaBits(m).Ok?
    ensures AllIn(m, ALPHA)
    decreases |m|
  {
    hide Bits, Pow2, CharPos, Number;
    if |m| == 1 {
      NumberRange(m, ALPHA, 45);
    } else if |m| > 1 {
      NumberRange(m[..2], ALPHA, 45);
      AlphaAccepts(m[2..]);
      AllInParts(m, 2, ALPHA);
    }
  }

  lemma {:induction false} HexAccepts(m: Text)
    requires HexBits(m).Ok?
    ensures forall i :: 0 <= i < |m| ==> m[i] < 128
  {
    hide Bits, CharPos;
    if m != [] {
      SetsAreAscii(ToLower(m[0]));
      HexAccepts(m[1..]);
    }
  }

  /** Only UTF-8 takes a text with bytes above 127. */
  lemma {:induction false} OthersAreAscii(m: Text, encoder: nat)
    requires encoder != ENCODE_UTF8 && EncodedBy(m, encoder).Ok?
    ensures Count(m) == |m| && Faithful(m)
  {
    hide AlphaBits, HexBits, B40Bits, AllIn;
    if encoder == ENCODE_ALPHA {
      AlphaAccepts(m);
      AllInIsAscii(m, ALPHA);
    } else if encoder == ENCODE_HEX {
      HexAccepts(m);
    } else {
      B40Domain(m);
      AllInIsAscii(m, THREE_B40);
    }
    CountAscii(m);
  }

  /** What a reader may expect back: the text, in lower case if written as hex. */
  function Expected(m: Text, encoder: nat): Text {
    if encoder == ENCODE_HEX then Lowered(m) else m
  }

  /** Each encoder's output reads back, and UTF-8's exactly when the text is faithful. */
  lemma {:induction false} EncoderRoundTrip(m: Text, encoder: nat, s: seq<bool>, p: nat)
    requires EncodedBy(m, encoder).Ok? && At(s, p, EncodedBy(m, encoder).value)
    ensures Faithful(m) <==>
            DecodedBy(s, p, encoder, Count(m)) == Ok((Expected(m, encoder), p + |EncodedBy(m, encoder).value|))
  {
    hide AlphaBits, HexBits, B40Bits, AlphaAt, HexAt, B40At, Utf8At, Pack, Count, Faithful;
    if encoder == ENCODE_UTF8 {
      if Faithful(m) {
        Utf8RoundTrip(m, s, p);
      } else if Utf8At(s, p, Count(m)) == Ok((m, p + |Pack(m).value|)) {
        Utf8Converse(m, s, p);
      }
    } else {
      OthersAreAscii(m, encoder);
      if encoder == ENCODE_ALPHA {
        AlphaRoundTrip(m, s, p);
      } else if encoder == ENCODE_HEX {
        HexRoundTrip(m, s, p);
      } else {
        B40RoundTrip(m, s, p);
      }
    }
  }

  lemma {:induction false} EncoderFound(options: seq<HeaderOption>, i: nat)
    requires i < |options| && forall j :: 0 <= j < i ==> !options[j].header.Same(options[i].header)
    ensures EncoderFor(options[i].header, options) == Ok(options[i].encoder)
  {
    if i > 0 {
      EncoderFound(options[1..], i - 1);
    }
  }

  /** What is behind the header and the count of a record is read by the chosen encoder. */
  lemma {:induction false} RecordRead(m: Text, lengthBits: nat, options: seq<HeaderOption>, i: nat, s: seq<bool>,
                                      p: nat)
    returns (q: nat)
    requires 1 <= lengthBits <= 64 && Count(m) < Pow2(lengthBits) && i < |options|
    requires options[i].header.width == options[0].header.width <= 64
    requires forall j :: 0 <= j < i ==> !options[j].header.Same(options[i].header)
    requires Candidate(m, lengthBits, options[i]).Ok? && At(s, p, Candidate(m, lengthBits, options[i]).value)
    ensures EncodedBy(m, options[i].encoder).Ok? && At(s, q, EncodedBy(m, options[i].encoder).value)
    ensures q + |EncodedBy(m, options[i].encoder).value| == p + |Candidate(m, lengthBits, options[i]).value|
    ensures BestAt(s, p, lengthBits, options) == DecodedBy(s, q, options[i].encoder, Count(m))
  {
    hide Bits, Value, Pow2, EncodedBy, DecodedBy, Count, XBitAt, EncoderFor, Read;
    var x, e := options[i].header, options[i].encoder;
    var head := x.Encoded() + Bits(Count(m), lengthBits);
    AtParts(s, p, head, EncodedBy(m, e).value);
    AtParts(s, p, x.Encoded(), Bits(Count(m), lengthBits));
    XBitRoundTrip(x, s, p);
    ReadField(s, p + |x.Encoded()|, Count(m), lengthBits);
    EncoderFound(options, i);
    q := p + |head|;
  }

  /** What MakeBestString wrote with option i, reading it back with the same options
      gives the text exactly when the text is faithful. */
  lemma {:induction false} BestStringRoundTrip(m: Text, lengthBits: nat, options: seq<HeaderOption>, i: nat,
                                               s: seq<bool>, p: nat)
    requires 1 <= lengthBits <= 64 && Count(m) < Pow2(lengthBits) && i < |options|
    requires options[i].header.width == options[0].header.width <= 64
    requires forall j :: 0 <= j < i ==> !options[j].header.Same(options[i].header)
    requires Candidate(m, lengthBits, options[i]).Ok? && At(s, p, Candidate(m, lengthBits, options[i]).value)
    ensures Faithful(m) <==>
            BestAt(s, p, lengthBits, options)
            == Ok((Expected(m, options[i].encoder), p + |Candidate(m, lengthBits, options[i]).value|))
  {
    hide Pow2, EncodedBy, DecodedBy, Count, Faithful, Expected, BestAt, Candidate;
    var q := RecordRead(m, lengthBits, options, i, s, p);
    EncoderRoundTrip(m, options[i].encoder, s, q);
  }

  // UTF-8 as section 4 of RFC 3629 defines it

  predicate Tail(m: Text, from: nat, to: nat) {
    to <= |m| && forall j :: from <= j < to ==> Continuation(m[j])
  }

  /** The length of the well-formed character m starts with, 0 if it starts with none. */
  function Rfc3629Length(m: Text): nat
    requires m != []
  {
    var b := m[0];
    if b < 0x80 then 1
    else if 0xc2 <= b <= 0xdf && Tail(m, 1, 2) then 2
    else if b == 0xe0 && Tail(m, 1, 3) && m[1] >= 0xa0 then 3
    else if 0xe1 <= b <= 0xef && b != 0xed && Tail(m, 1, 3) then 3
    else if b == 0xed && Tail(m, 1, 3) && m[1] <= 0x9f then 3
    else if b == 0xf0 && Tail(m, 1, 4) && m[1] >= 0x90 then 4
    else if 0xf1 <= b <= 0xf3 && Tail(m, 1, 4) then 4
    else if b == 0xf4 && Tail(m, 1, 4) && m[1] <= 0x8f then 4
    else 0
  }

  /** The number in the free bits of a lead byte and k - 1 bytes behind it. */
  function Octets(m: Text, k: nat): int
    requires 1 <= k <= 4 && k <= |m|
  {
    var a := Ints(m[..k]);
    if k == 1 then a[0]
    else if k == 2 then (a[0] - 192) * 64 + (a[1] - 128)
    else if k == 3 then (a[0] - 224) * 4096 + (a[1] - 128) * 64 + (a[2] - 128)
    else (a[0] - 240) * 262144 + (a[1] - 128) * 4096 + (a[2] - 128) * 64 + (a[3] - 128)
  }

  function Ints(m: Text): (a: seq<int>)
    ensures |a| == |m| && forall i :: 0 <= i < |m| ==> a[i] == m[i]
  {
    seq(|m|, i requires 0 <= i < |m| => m[i])
  }

  /** That is: a lead byte 0xxxxxxx, 110xxxxx, 1110xxxx or 11110xxx and its continuations, not
      longer than need be, the number at most 0x10FFFF and no surrogate. */
  lemma {:induction false} Rfc3629Is(m: Text, k: nat)
    requires m != [] && 1 <= k <= 4
    ensures Rfc3629Length(m) == k <==>
            && k <= |m|
            && (if k == 1 then m[0] < 128 else if k == 2 then 192 <= m[0] < 224
                else if k == 3 then 224 <= m[0] < 240 else 240 <= m[0] < 248)
            && (forall j :: 1 <= j < k ==> 128 <= m[j] < 192)
            && (if k == 1 then 0 else if k == 2 then 0x80 else if k == 3 then 0x800 else 0x10000) <= Octets(m, k)
            && Octets(m, k) <= 0x10FFFF && !(0xD800 <= Octets(m, k) <= 0xDFFF)
    ensures 0 <= Rfc3629Length(m) <= 4
  {
  }

  predicate WellFormedUtf8(m: Text) {
    m == [] || (1 <= Rfc3629Length(m) <= |m| && WellFormedUtf8(m[Rfc3629Length(m)..]))
  }

  /** A text is well formed exactly when it is one well-formed character after another. */
  lemma {:induction false} WellFormedMore(c: Text, m: Text)
    requires c != [] && Rfc3629Length(c) == |c|
    ensures WellFormedUtf8(c + m) <==> WellFormedUtf8(m)
    ensures WellFormedUtf8([])
  {
    assert (c + m)[0] == c[0] && (c + m)[|c|..] == m;
    assert forall j :: 0 <= j < |c| ==> (c + m)[j] == c[j];
    assert Rfc3629Length(c + m) == |c|;
  }

  /** Of well-formed UTF-8, the texts that survive are those without the bytes 0xDF
      and 0xEF, the two lead bytes the encoder's strict tests put one class too high. */
  lemma {:induction false} WellFormedSurvives(m: Text)
    requires WellFormedUtf8(m)
    ensures Faithful(m) <==> 0xdf !in m && 0xef !in m
    decreases |m|
  {
    if m != [] {
      hide Rfc3629Length, Faithful;
      var k := Rfc3629Length(m);
      WellFormedSurvives(m[k..]);
      FirstSurvives(m, k);
      assert m == m[..k] + m[k..];
      assert forall b :: b in m <==> b in m[..k] || b in m[k..];
    }
  }

  lemma {:induction false} FirstSurvives(m: Text, k: nat)
    requires m != [] && 1 <= k == Rfc3629Length(m) <= |m|
    ensures Faithful(m) <==> m[0] != 0xdf && m[0] != 0xef && Faithful(m[k..])
    ensures m[0] == 0xdf <==> 0xdf in m[..k]
    ensures m[0] == 0xef <==> 0xef in m[..k]
  {
    assert forall j :: 1 <= j < k ==> Continuation(m[..k][j]);
  }

  lemma DefaultOptions()
    ensures Searchable(DEFAULT_OPTIONS)
    ensures forall i :: 0 <= i < |DEFAULT_OPTIONS| ==> DEFAULT_OPTIONS[i].header.width == 2
    ensures forall i, j :: 0 <= j < i < |DEFAULT_OPTIONS| ==> !DEFAULT_OPTIONS[j].header.Same(DEFAULT_OPTIONS[i].header)
    ensures DEFAULT_OPTIONS[2].header.Verified() && DEFAULT_OPTIONS[2].encoder == ENCODE_UTF8
  {
  }

  /** A text UTF-8 can carry is never without an option. */
  lemma {:induction false} SomeFits(m: Text, lengthBits: nat)
    requires Faithful(m)
    ensures !NoneFits(m, lengthBits, DEFAULT_OPTIONS, |DEFAULT_OPTIONS|)
  {
    hide Pack, Faithful, Bits, Count;
    DefaultOptions();
    assert Pack(m).Ok? by {
      if Pack(m).Err? { Utf8RoundTrip(m, [], 0); }
    }
    assert Candidate(m, lengthBits, DEFAULT_OPTIONS[2]).Ok?;
  }

  /** With the default options a well-formed text of few enough characters is always taken
      and comes back whole, in lower case if hex was the shortest, when it holds neither 0xDF
      nor 0xEF; with one of them it never comes back as it was, wherever the cursor ends. */
  method MakeAndGet(m: Text, lengthBits: nat) returns (r: Result<Text>, atEnd: bool)
    requires WellFormedUtf8(m) && 1 <= lengthBits <= 64 && Count(m) < Pow2(lengthBits)
    ensures 0xdf !in m && 0xef !in m ==> atEnd && (r == Ok(m) || r == Ok(Lowered(m)))
    ensures 0xdf in m || 0xef in m ==> r != Ok(m)
  {
    hide WellFormedUtf8, Count, Pow2, NoneFits, Best, Candidate, BestAt, Lowered, Faithful, Searchable;
    WellFormedSurvives(m);
    DefaultOptions();
    if Faithful(m) {
      SomeFits(m, lengthBits);
    }
    var made := MakeBestString(m, lengthBits, DEFAULT_OPTIONS);
    if made.Err? {
      return Err, false;
    }
    var stream := made.value;
    ghost var i: nat :| Best(m, lengthBits, DEFAULT_OPTIONS, |DEFAULT_OPTIONS|, i)
                        && stream.contents == Candidate(m, lengthBits, DEFAULT_OPTIONS[i]).value;
    Chosen(m, lengthBits, i, stream.contents);
    r := GetBestString(stream, lengthBits, DEFAULT_OPTIONS);
    atEnd := r.Ok? && stream.position == stream.length;
  }

  lemma {:induction false} Chosen(m: Text, lengthBits: nat, i: nat, s: seq<bool>)
    requires 1 <= lengthBits <= 64 && Count(m) < Pow2(lengthBits)
    requires Best(m, lengthBits, DEFAULT_OPTIONS, |DEFAULT_OPTIONS|, i)
    requires s == Candidate(m, lengthBits, DEFAULT_OPTIONS[i]).value
    ensures if Faithful(m) then
              BestAt(s, 0, lengthBits, DEFAULT_OPTIONS) in {Ok((m, |s|)), Ok((Lowered(m), |s|))}
            else
              var r := BestAt(s, 0, lengthBits, DEFAULT_OPTIONS);
              r.Ok? ==> r.value.0 != m
  {
    hide Count, Pow2, BestAt, Lowered, Faithful, Candidate, EncodedBy, DecodedBy;
    DefaultOptions();
    assert s[0..|s|] == s;
    BestStringRoundTrip(m, lengthBits, DEFAULT_OPTIONS, i, s, 0);
    var q := RecordRead(m, lengthBits, DEFAULT_OPTIONS, i, s, 0);
    if !Faithful(m) {
      NeverDecoded(m, DEFAULT_OPTIONS[i].encoder, s, q);
    }
  }

  lemma {:induction false} NeverDecoded(m: Text, encoder: nat, s: seq<bool>, q: nat)
    requires !Faithful(m) && EncodedBy(m, encoder).Ok? && At(s, q, EncodedBy(m, encoder).value)
    requires q + |EncodedBy(m, encoder).value| == |s|
    ensures DecodedBy(s, q, encoder, Count(m)).Ok? ==> DecodedBy(s, q, encoder, Count(m)).value.0 != m
  {
    hide Count, Faithful, Pack, Utf8At, AlphaBits, HexBits, B40Bits;
    if encoder != ENCODE_UTF8 {
      OthersAreAscii(m, encoder);
    } else {
      NeverComesBack(m, s, q);
    }
  }

  lemma {:induction false} NeverComesBack(m: Text, s: seq<bool>, q: nat)
    requires !Faithful(m) && Pack(m).Ok? && At(s, q, Pack(m).value) && q + |Pack(m).value| == |s|
    ensures Utf8At(s, q, Count(m)).Ok? ==> Utf8At(s, q, Count(m)).value.0 != m
  {
    hide Faithful, Pack, Utf8At, Count;
    if ComesBack(m, s, q) {
      Utf8Converse(m, s, q);
    }
  }
}
