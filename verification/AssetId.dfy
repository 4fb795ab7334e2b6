/** An asset's id is the base-58 text of 28 bytes whose leading two say whether it is
    locked and how it aggregates, so that both show in its first two characters;
    the divisibility is one of its bytes. A node rebuilds all three from the text
    (src/DigiAsset.cpp:126-161, 219-263). */
module AssetId {
  import opened Base58
  import opened Numbers
  import opened Radix
  import opened Results

  const AGGREGABLE := 0
  const HYBRID := 1
  const DISPERSED := 2

  // src/DigiAsset.cpp:129-131
  function HeaderFor(flags: byte): (h: nat)
    ensures h < 65536
  {
    [0x2e37, 0x2e6b, 0x2e4e, 0, 0x20ce, 0x2102, 0x20e4, 0][flags / 4 % 8]
  }

  /** Header, hash and footer: what the check bytes are taken over. */
  function Body(flags: byte, hash: seq<byte>): (b: seq<byte>)
    requires |hash| == 20
    ensures |b| == 24
  {
    [HeaderFor(flags) / 256, HeaderFor(flags) % 256] + hash + [0, flags / 32]
  }

  function IdBytes(flags: byte, hash: seq<byte>, check: seq<byte>): (b: seq<byte>)
    requires |hash| == 20 && |check| == 4
    ensures |b| == 28
  {
    Body(flags, hash) + check
  }

  lemma {:induction false} BodyIs(b: seq<byte>, flags: byte, hash: seq<byte>)
    requires |b| == 24 && |hash| == 20
    requires b[0] == HeaderFor(flags) / 256 && b[1] == HeaderFor(flags) % 256 && b[22] == 0 && b[23] == flags / 32
    requires forall k :: 0 <= k < 20 ==> b[2 + k] == hash[k]
    ensures b == Body(flags, hash)
  {
    hide HeaderFor;
    assert b[2..22] == hash;
    assert b == [b[0], b[1]] + b[2..22] + [b[22], b[23]];
  }

  lemma {:induction false} IdBytesAre(b: seq<byte>, flags: byte, hash: seq<byte>, check: seq<byte>)
    requires |b| == 28 && |hash| == 20 && |check| == 4 && b[..24] == Body(flags, hash)
    requires forall k :: 0 <= k < 4 ==> b[24 + k] == check[k]
    ensures b == IdBytes(flags, hash, check)
  {
    hide Body;
    assert b[24..28] == check;
    assert b == b[..24] + b[24..28];
  }

  // The two leading base-58 digits of a number that starts with a given header.

  /** 58^36 and 256^26. */
  const TAIL_DIGITS: nat := 3043741517681573408154032751732621616256793128331902261559033856
  const TAIL_BYTES: nat := 411376139330301510538742295639337626245683966408394965837152256

  /** q is what any 28 bytes starting with the header leave above 58^36. */
  ghost predicate Leads(header: nat, q: nat) {
    q * TAIL_DIGITS <= header * TAIL_BYTES && (header + 1) * TAIL_BYTES <= (q + 1) * TAIL_DIGITS
  }

  lemma {:induction false} HeaderPowers(digits: nat, bytes: nat)
    requires digits == 36 && bytes == 26
    ensures Pow(58, digits) == TAIL_DIGITS && Pow(256, bytes) == TAIL_BYTES
  {
    assert Pow(58, 4) == 11316496 && Pow(58, 5) == 656356768;
    PowAdd(58, 4, 5);
    assert Pow(58, 9) == 7427658739644928;
    PowAdd(58, 9, 9);
    assert Pow(58, 18) == 55170114352623680311867516125184;
    PowAdd(58, 18, 18);
    assert Pow(256, 3) == 16777216 && Pow(256, 2) == 65536;
    PowAdd(256, 3, 3);
    assert Pow(256, 6) == 281474976710656;
    PowAdd(256, 6, 6);
    assert Pow(256, 12) == 79228162514264337593543950336;
    PowAdd(256, 12, 12);
    assert Pow(256, 24) == 6277101735386680763835789423207666416102355444464034512896;
    PowAdd(256, 24, 2);
  }

  lemma HeaderLeads()
    ensures Leads(0x2e37, 1599) && Leads(0x2e6b, 1606) && Leads(0x2e4e, 1602)
    ensures Leads(0x20ce, 1135) && Leads(0x2102, 1142) && Leads(0x20e4, 1138)
  {
  }

  /** The two leading digits of a number from q up to q + 1 times 58^36. */
  lemma {:induction false} LeadingDigits(d: seq<nat>, q: nat)
    requires Minimal(d, 58) && 58 <= q < 58 * 58
    requires q * TAIL_DIGITS <= Num(d, 58) < (q + 1) * TAIL_DIGITS
    ensures |d| == 38 && Rev(d)[0] == q / 58 && Rev(d)[1] == q % 58
  {
    HeaderPowers(36, 26);
    hide Pow, Num;
    if |d| < 36 {
      NumBelow(d, 58);
      PowGrows(58, |d|, 36);
    } else {
      NumSplit(d, 36, 58);
      Squeeze(Num(d[..36], 58), Pow(58, 36), Num(d[36..], 58), q);
      TwoDigits(q);
      if |d| == 36 {
        NumEmpty(58);
      } else {
        assert Minimal(d[36..], 58);
        MinimalUnique(d[36..], [q % 58, q / 58], 58);
        assert d[37] == d[36..][1] && d[36] == d[36..][0];
      }
    }
  }

  lemma {:induction false} NumBelow(d: seq<nat>, base: nat)
    requires InBase(d, base) && base > 1
    ensures Num(d, base) < Pow(base, |d|)
  {
    NumSplit(d, |d|, base);
    assert d[..|d|] == d;
  }

  lemma {:induction false} Squeeze(low: nat, p: nat, x: nat, q: nat)
    requires low < p && q * p <= low + p * x < (q + 1) * p
    ensures x == q
  {
    if x < q {
      TimesAtLeast(p, x + 1, q);
    } else if q < x {
      TimesAtLeast(p, q + 1, x);
    }
  }

  lemma {:induction false} TwoDigits(q: nat)
    requires 58 <= q < 58 * 58
    ensures Num([q % 58, q / 58], 58) == q && Minimal([q % 58, q / 58], 58)
  {
    NumTail([q % 58, q / 58], 58);
    NumTail([q / 58], 58);
  }

  lemma BigTail(d: seq<nat>, base: nat)
    ensures d == [] ==> Big(d, base) == 0
    ensures d != [] ==> Big(d, base) == Big(d[..|d| - 1], base) * base + d[|d| - 1]
  {
  }

  lemma {:induction false} BigOfTwo(x: nat, y: nat, base: nat)
    ensures Big([x, y], base) == x * base + y
  {
    BigTail([x, y], base);
    assert [x, y][..1] == [x] && [x][..0] == [];
    BigTail([x], base);
    BigTail([], base);
  }

  lemma {:induction false} BigSplit(a: seq<nat>, b: seq<nat>, base: nat)
    ensures Big(a + b, base) == Big(a, base) * Pow(base, |b|) + Big(b, base)
    decreases |b|
  {
    hide Pow, Big;
    BigTail(b, base);
    if b == [] {
      assert a + b == a;
      NumEmpty(base);
    } else {
      var c := b[..|b| - 1];
      BigSplit(a, c, base);
      assert (a + b)[..|a + b| - 1] == a + c;
      BigTail(a + b, base);
      PowStep(base, |c|);
      ShiftUp(Big(a, base), Pow(base, |c|), Big(c, base), base, b[|b| - 1]);
    }
  }

  lemma {:induction false} ShiftUp(a: nat, p: nat, c: nat, base: nat, x: nat)
    ensures (a * p + c) * base + x == a * (base * p) + (c * base + x)
  {
    assert (a * p + c) * base == a * p * base + c * base;
    assert a * p * base == a * (base * p);
  }

  /** Twenty-eight bytes under a header are a number between that header's bounds. */
  lemma {:induction false} HeaderRange(header: nat, rest: seq<nat>)
    requires 256 <= header < 65536 && |rest| == 26 && InBase(rest, 256)
    ensures var b := [header / 256, header % 256] + rest;
            header * TAIL_BYTES <= Big(b, 256) < (header + 1) * TAIL_BYTES
  {
    HeaderPowers(36, 26);
    hide Pow, Big;
    var two := [header / 256, header % 256];
    BigSplit(two, rest, 256);
    BigBelow(rest, 256);
    BigOfTwo(header / 256, header % 256, 256);
  }

  /** The first two characters of the text of such bytes are those of q. */
  lemma {:induction false} HeaderShows(header: nat, rest: seq<byte>, q: nat)
    requires 256 <= header < 65536 && |rest| == 26 && Leads(header, q) && 58 <= q < 58 * 58
    ensures var id := Encoded([header / 256, header % 256] + rest);
            |id| == 38 && id[0] == Letter(q / 58) && id[1] == Letter(q % 58)
  {
    hide Pow, Num, Big, Buffer, Letter, Minimal, Rev;
    var b: seq<byte> := [header / 256, header % 256] + rest;
    HeaderRange(header, rest);
    BufferHolds(b, 256, 58);
    ConvertRoundTrip(b, 256, 58);
    LeadingDigits(Buffer(b, 256, 58), q);
    LeadZerosFound(b, 0);
    assert ZeroDigits(0) + Rev(Buffer(b, 256, 58)) == Rev(Buffer(b, 256, 58));
  }

  // Flags

  /** Locked status and aggregation as the two characters an id starts with. */
  function Shown(locked: bool, aggregation: nat): seq<byte>
    requires aggregation <= 2
  {
    [if locked then 76 else 85, if aggregation == AGGREGABLE then 97 else if aggregation == HYBRID then 104 else 100]
  }

  // src/DigiAsset.cpp:219-221
  function IssuanceFlags(divisibility: nat, locked: bool, aggregation: nat): byte
    requires divisibility <= 7 && aggregation <= 2
  {
    divisibility * 32 + (if locked then 16 else 0) + aggregation * 4
  }

  /** What the six headers leave above 58^36. */
  function Above(locked: bool, aggregation: nat): nat
    requires aggregation <= 2
  {
    if locked then [1135, 1142, 1138][aggregation] else [1599, 1606, 1602][aggregation]
  }

  /** The three fields an issuance reads out of its last byte, whoever built it; the two
      lowest bits are nobody's. */
  function LockedIn(flags: byte): bool {
    flags / 16 % 2 == 1
  }

  function AggregationIn(flags: byte): nat {
    flags / 4 % 4
  }

  function DivisibilityIn(flags: byte): nat {
    flags / 32
  }

  /** A byte built from an asset's own fields holds them. */
  lemma {:induction false} FlagFields(divisibility: nat, locked: bool, aggregation: nat)
    requires divisibility <= 7 && aggregation <= 2
    ensures var flags := IssuanceFlags(divisibility, locked, aggregation);
            && DivisibilityIn(flags) == divisibility && LockedIn(flags) == locked
            && AggregationIn(flags) == aggregation && flags % 4 == 0
  {
    var flags := IssuanceFlags(divisibility, locked, aggregation);
    assert flags / 16 == 2 * divisibility + if locked then 1 else 0;
    assert flags / 4 == 4 * (2 * divisibility + if locked then 1 else 0) + aggregation;
  }

  /** From the top: three bits of divisibility, the lock, two bits of aggregation, two unused. */
  lemma FieldsOf(flags: byte)
    ensures flags == 32 * DivisibilityIn(flags) + 16 * (if LockedIn(flags) then 1 else 0) + 4 * AggregationIn(flags)
                     + flags % 4
    ensures DivisibilityIn(flags) < 8 && AggregationIn(flags) < 4
  {
  }

  lemma {:induction false} HeaderLetters(flags: byte)
    requires AggregationIn(flags) <= 2
    ensures var h, q := HeaderFor(flags), Above(LockedIn(flags), AggregationIn(flags));
            256 <= h < 65536 && 58 <= q < 58 * 58 && Leads(h, q)
            && [Letter(q / 58), Letter(q % 58)] == Shown(LockedIn(flags), AggregationIn(flags))
  {
    HeaderIs(flags);
    HeaderLeads();
    hide Leads, HeaderFor, Letter;
    ShownLetters(LockedIn(flags), AggregationIn(flags));
  }

  lemma {:induction false} HeaderIs(flags: byte)
    requires AggregationIn(flags) <= 2
    ensures HeaderFor(flags)
         == if LockedIn(flags) then [0x20ce, 0x2102, 0x20e4][AggregationIn(flags)]
            else [0x2e37, 0x2e6b, 0x2e4e][AggregationIn(flags)]
  {
    assert flags / 4 % 8 == AggregationIn(flags) + if LockedIn(flags) then 4 else 0;
  }

  lemma ShownLetters(locked: bool, aggregation: nat)
    requires aggregation <= 2
    ensures var q := Above(locked, aggregation);
            58 <= q < 58 * 58 && [Letter(q / 58), Letter(q % 58)] == Shown(locked, aggregation)
  {
  }

  /** For every flags byte an issuance accepts, every hash and every checksum, an id starts
      with the characters of its flags, and decoded it is the two bytes of its header, the hash,
      a zero, the divisibility and the checksum. */
  lemma {:induction false} IdTellsFlags(flags: byte, hash: seq<byte>, check: seq<byte>)
    requires AggregationIn(flags) <= 2 && |hash| == 20 && |check| == 4
    ensures var id := Encoded(IdBytes(flags, hash, check));
            |id| == 38 && id[..2] == Shown(LockedIn(flags), AggregationIn(flags))
            && |Decoded(id)| == 28 && Decoded(id)[23] == DivisibilityIn(flags)
            && Decoded(id)[2..] == hash + [0, DivisibilityIn(flags)] + check
            && Decoded(id)[..2] == if LockedIn(flags)
                                   then [[0x20, 0xce], [0x21, 0x02], [0x20, 0xe4]][AggregationIn(flags)]
                                   else [[0x2e, 0x37], [0x2e, 0x6b], [0x2e, 0x4e]][AggregationIn(flags)]
  {
    hide Encoded, Decoded, Leads, HeaderFor, Letter, Shown, Above, LockedIn, AggregationIn;
    var locked, aggregation := LockedIn(flags), AggregationIn(flags);
    HeaderLetters(flags);
    HeaderShows(HeaderFor(flags), hash + [0, flags / 32] + check, Above(locked, aggregation));
    assert IdBytes(flags, hash, check)
        == [HeaderFor(flags) / 256, HeaderFor(flags) % 256] + (hash + [0, flags / 32] + check);
    DecodeEncode(IdBytes(flags, hash, check));
    var rest := hash + [0, DivisibilityIn(flags)] + check;
    assert IdBytes(flags, hash, check)[2..] == rest by { DivisibilityIs(flags); }
    HeaderBytes(flags);
    assert IdBytes(flags, hash, check)[..2] == [HeaderFor(flags) / 256, HeaderFor(flags) % 256];
  }

  lemma DivisibilityIs(flags: byte)
    ensures DivisibilityIn(flags) == flags / 32
  {
  }

  lemma {:induction false} HeaderBytes(flags: byte)
    requires AggregationIn(flags) <= 2
    ensures [HeaderFor(flags) / 256, HeaderFor(flags) % 256]
            == if LockedIn(flags) then [[0x20, 0xce], [0x21, 0x02], [0x20, 0xe4]][AggregationIn(flags)]
               else [[0x2e, 0x37], [0x2e, 0x6b], [0x2e, 0x4e]][AggregationIn(flags)]
  {
    HeaderIs(flags);
    hide HeaderFor, LockedIn, AggregationIn;
  }

  // The asset object

  const DIGIBYTE: seq<byte> := [68, 105, 103, 105, 66, 121, 116, 101]

  /** c_str()[i]: past the end of the string is its terminator. */
  function CharOf(id: seq<byte>, i: nat): byte {
    if i < |id| then id[i] else 0
  }

  function AggregationOf(c: byte): Option<nat> {
    if c == 97 then Some(AGGREGABLE) else if c == 100 then Some(DISPERSED) else if c == 104 then Some(HYBRID) else None
  }

  method CopyInto(binary: array<byte>, at: nat, from: seq<byte>)
    requires at + |from| <= binary.Length
    modifies binary
    ensures forall k :: 0 <= k < |from| ==> binary[at + k] == from[k]
    ensures forall k :: 0 <= k < at || at + |from| <= k < binary.Length ==> binary[k] == old(binary[k])
  {
    for i := 0 to |from|
      invariant forall k :: 0 <= k < i ==> binary[at + k] == from[k]
      invariant forall k :: 0 <= k < at || at + |from| <= k < binary.Length ==> binary[k] == old(binary[k])
    {
      binary[at + i] := from[i];
    }
  }

  class DigiAsset {
    var assetIndex: nat
    var assetId: seq<byte>
    var locked: bool
    var aggregation: nat
    var divisibility: byte
    var count: nat

    constructor (index: nat, id: seq<byte>, locked: bool, aggregation: nat, divisibility: byte, count: nat)
      ensures this.assetIndex == index && this.assetId == id && this.locked == locked && this.count == count
      ensures this.aggregation == aggregation && this.divisibility == divisibility
    {
      this.assetIndex, this.assetId, this.locked, this.count := index, id, locked, count;
      this.aggregation, this.divisibility := aggregation, divisibility;
    }

    // src/DigiAsset.cpp:194-211
    static method Create(count: nat, divisibility: byte, locked: bool, aggregation: nat) returns (r: Result<DigiAsset>)
      ensures r.Ok? <==> divisibility <= 7 && aggregation <= 2 && 1 <= count <= MAX_COUNT
      ensures r.Ok? ==> fresh(r.value) && r.value.locked == locked && r.value.count == count
      ensures r.Ok? ==> r.value.aggregation == aggregation && r.value.divisibility == divisibility
    {
      if divisibility > 7 || aggregation > DISPERSED || count == 0 || count > MAX_COUNT {
        return Err;
      }
      var asset := new DigiAsset(0, [], locked, aggregation, divisibility, count);
      return Ok(asset);
    }

    // src/DigiAsset.cpp:126-161
    /** lockedHash and unlockedHash are the hashes of the issuing input's two descriptions;
        sha is the hash applied twice. */
    method CalculateAssetId(flags: byte, lockedHash: seq<byte>, unlockedHash: seq<byte>, sha: seq<byte> -> seq<byte>)
      returns (id: seq<byte>)
      requires |lockedHash| == 20 && |unlockedHash| == 20 && forall b :: |sha(b)| >= 4
      ensures var hash := if locked then lockedHash else unlockedHash;
              id == Encoded(IdBytes(flags, hash, sha(Body(flags, hash))[..4]))
    {
      hide Encoded, Body, IdBytes, HeaderFor;
      var binary := new byte[28](_ => 0);
      var header := HeaderFor(flags);
      binary[0] := header / 256;
      binary[1] := header % 256;
      var hash := if locked then lockedHash else unlockedHash;
      CopyInto(binary, 2, hash);
      binary[22] := 0;
      binary[23] := flags / 32;
      BodyIs(binary[..24], flags, hash);
      var secondHash := sha(binary[..24]);
      CopyInto(binary, 24, secondHash[..4]);
      assert binary[..24] == Body(flags, hash);
      IdBytesAre(binary[..], flags, hash, secondHash[..4]);
      id := Encode(binary[..]);
    }

    // src/DigiAsset.cpp:229-263
    /** An id whose second character names an aggregation is indexed past the end when
        it decodes to fewer than 24 bytes, so callers must hold a longer one. */
    static method FromDatabase(assetIndex: nat, assetId: seq<byte>, amount: nat) returns (r: Result<DigiAsset>)
      requires AggregationOf(CharOf(assetId, 1)).Some? ==> |Decoded(assetId)| > 23
      ensures r.Err? <==> AggregationOf(CharOf(assetId, 1)).None? && assetId != DIGIBYTE && assetIndex == 1
      ensures r.Ok? ==> fresh(r.value) && r.value.locked == (CharOf(assetId, 0) == 76) && r.value.count == amount
      ensures r.Ok? && AggregationOf(CharOf(assetId, 1)).Some? ==>
                r.value.aggregation == AggregationOf(CharOf(assetId, 1)).value
                && r.value.divisibility == Decoded(assetId)[23]
      ensures r.Ok? && AggregationOf(CharOf(assetId, 1)).None? ==>
                r.value.aggregation == AGGREGABLE && r.value.divisibility == 8
    {
      hide Decoded;
      var locked := CharOf(assetId, 0) == 76;
      match AggregationOf(CharOf(assetId, 1))
      case Some(aggregation) =>
        var bytes := Decode(assetId);
        var asset := new DigiAsset(assetIndex, assetId, locked, aggregation, bytes[23], amount);
        return Ok(asset);
      case None =>
        if assetId != DIGIBYTE && assetIndex == 1 {
          return Err;
        }
        var asset := new DigiAsset(assetIndex, assetId, locked, AGGREGABLE, 8, amount);
        return Ok(asset);
    }

    /** The asset's fields are those of a flags byte off the chain. */
    predicate HasFlags(flags: byte)
      reads this
    {
      divisibility == DivisibilityIn(flags) && locked == LockedIn(flags) && aggregation == AggregationIn(flags)
    }

    // src/DigiAsset.cpp:409-413
    /** Any byte but one of the unknown fourth aggregation. */
    method ReadFlags(flags: byte) returns (ok: bool)
      modifies this`divisibility, this`locked, this`aggregation
      ensures HasFlags(flags) && ok == (aggregation <= 2)
    {
      divisibility, locked, aggregation := flags / 32, flags / 16 % 2 == 1, flags / 4 % 4;
      ok := aggregation != 3;
    }

    /** The id of an asset with whatever flags byte it was issued under, stored and read back
        by any node under any index, gives an asset with the same lock status, aggregation
        and divisibility. */
    method IssueAndRebuild(flags: byte, lockedHash: seq<byte>, unlockedHash: seq<byte>, sha: seq<byte> -> seq<byte>,
                           index: nat)
      returns (id: seq<byte>, r: Result<DigiAsset>)
      requires HasFlags(flags) && aggregation <= 2
      requires |lockedHash| == 20 && |unlockedHash| == 20 && forall b :: |sha(b)| >= 4
      ensures r.Ok? && r.value.locked == locked && r.value.aggregation == aggregation
              && r.value.divisibility == divisibility
    {
      hide Encoded, Decoded, IdBytes, Body, LockedIn, AggregationIn, DivisibilityIn;
      id := CalculateAssetId(flags, lockedHash, unlockedHash, sha);
      var hash := if locked then lockedHash else unlockedHash;
      IdTellsFlags(flags, hash, sha(Body(flags, hash))[..4]);
      assert id[0] == id[..2][0] && id[1] == id[..2][1];
      r := FromDatabase(index, id, count);
    }
  }
}
