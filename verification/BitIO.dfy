/** The bit stream of src/BitIO.cpp: bits packed into 64-bit words, most
    significant first, with a length and a cursor. Every operation is proved to
    act on the plain sequence of bits the words stand for. */
module BitStream {
  import opened Packing
  import opened Results
  import opened Words

  class BitIO {
    var longs: seq<Long>
    var position: nat
    var length: nat

    /** The bits the stream holds. */
    ghost var contents: seq<bool>

    ghost predicate Valid()
      reads this
    {
      position <= length == |contents| && Packed(longs, contents)
    }

    constructor ()
      ensures Valid() && contents == [] && position == 0
    {
      longs, position, length, contents := [], 0, 0, [];
    }

    // src/BitIO.cpp:277-308
    method GetBits(n: nat) returns (r: Result<Long>)
      requires Valid()
      modifies this`position
      ensures Valid()
      ensures r.Ok? <==> 1 <= n <= 64 && old(position) + n <= length
      ensures r.Ok? ==> position == old(position) + n
      ensures r.Ok? ==> r.value == Value(contents[old(position)..position])
      ensures r.Err? ==> position == old(position)
    {
      if n == 0 || n > 64 || position + n > length {
        return Err;
      }
      hide Flat, Value, Zeros;
      assert contents[position..position + n] == Flat(longs)[position..position + n];
      var result := Fetch(longs, position, n);
      position := position + n;
      return Ok(result);
    }

    // src/BitIO.cpp:336-377
    // A whole word written at a word boundary past the last word indexes the
    // vector out of range, so callers must not ask for it.
    method SetBits(value: Long, n: nat) returns (ok: bool)
      requires Valid()
      requires n == 64 && position % 64 == 0 ==> position / 64 < |longs|
      modifies this
      ensures Valid()
      ensures ok <==> 1 <= n <= 64 && Fits(value, n)
      ensures !ok ==> unchanged(this)
      ensures ok ==> position == old(position) + n
      ensures ok ==> contents == Overwrite(old(contents), old(position), Bits(value, n))
    {
      if n == 0 || n > 64 || !Fits(value, n) {
        return false;
      }
      hide Packed, Flat, Bits, Overwrite, Zeros;
      PackedRoom(longs, contents);
      var stored := Store(longs, position, value, n);
      StoredPacked(longs, contents, stored, position, Bits(value, n));
      longs := stored;
      contents := Overwrite(contents, position, Bits(value, n));
      length := if position + n > length then position + n else length;
      position := position + n;
      return true;
    }

    // src/BitIO.cpp:657-660
    method AppendZeros(count: nat)
      requires Valid()
      modifies this`longs, this`length, this`contents
      ensures Valid() && contents == old(contents) + Zeros(count)
    {
      hide Flat, Zeros;
      ResizedFlat(longs, length + count);
      ZerosJoin(contents, 64 * |longs| - length, 64 * (WordsFor(length + count) - |longs|), count);
      length := length + count;
      longs := Resized(longs, length);
      contents := contents + Zeros(count);
    }

    // src/BitIO.cpp:484-523
    method InsertBits(value: Long, n: nat) returns (ok: bool)
      requires Valid() && n <= 64
      modifies this
      ensures Valid()
      ensures ok <==> n != 0 && Fits(value, n)
      ensures !ok ==> unchanged(this)
      ensures ok ==> position == old(position) + n
      ensures ok ==> contents == Insert(old(contents), old(position), Bits(value, n))
      ensures ok ==> contents == old(contents)[..old(position)] + Bits(value, n) + old(contents)[old(position)..]
    {
      if n == 0 || !Fits(value, n) {
        return false;
      }
      hide Flat, Zeros, Bits, Insert, Overwrite;
      AppendZeros(n);
      var gapped := OpenGap(longs, position, n);
      Regap(gapped, old(contents), n, Bits(value, n));
      var stored := SetBits(value, n);
      InsertIs(old(contents), old(position), Bits(value, n));
      return stored;
    }

    /** The shifted words take the place of the stream's own; the bits held are
        the old ones around a gap whose bits no longer matter. */
    method Regap(gapped: seq<Long>, ghost was: seq<bool>, ghost n: nat, ghost v: seq<bool>)
      requires Valid() && contents == was + Zeros(n) && position <= |was| && |v| == n
      requires |gapped| == |longs| && Gap(Flat(longs), Flat(gapped), position, n)
      modifies this`longs, this`contents
      ensures Valid() && |contents| == length
      ensures Overwrite(contents, position, v) == Insert(was, position, v)
    {
      hide Flat, Insert, Overwrite;
      ghost var pad := 64 * |longs| - |was|;
      assert Flat(longs) == was + Zeros(pad);
      GapHeld(was, pad, Flat(gapped), position, n, v);
      longs := gapped;
      contents := Flat(gapped)[..|was| + n];
    }

    // src/BitIO.cpp:414-448
    method AppendBits(value: Long, n: nat) returns (ok: bool)
      requires Valid()
      modifies this`longs, this`length, this`contents
      ensures Valid()
      ensures ok <==> 1 <= n <= 64 && Fits(value, n)
      ensures !ok ==> unchanged(this)
      ensures ok ==> contents == old(contents) + Bits(value, n)
    {
      if n == 0 || n > 64 || !Fits(value, n) {
        return false;
      }
      hide Flat, Bits, Packed;
      longs := Append(longs, contents, length, value, n);
      length := length + n;
      contents := contents + Bits(value, n);
      return true;
    }

    /** The next n bits of a stream, ready to be written to another. */
    method Take(n: nat) returns (bits: Long)
      requires Valid() && 1 <= n <= 64 && position + n <= length
      modifies this`position
      ensures Valid() && position == old(position) + n
      ensures Fits(bits, n) && Bits(bits, n) == contents[old(position)..position]
    {
      hide Packed, Bits, Value, Pow2;
      var r := GetBits(n);
      BitsOfValue(contents[old(position)..position]);
      return r.value;
    }

    // src/BitIO.cpp:472-481
    method AppendStream(value: BitIO)
      requires Valid() && value.Valid() && value != this
      modifies this`longs, this`length, this`contents, value`position
      ensures Valid() && value.Valid()
      ensures contents == old(contents) + value.contents && value.position == old(value.position)
    {
      hide Packed, Bits, Value, Pow2;
      var start := value.position;
      value.position := 0;
      var n := 64 - length % 64;
      while value.position < value.length
        invariant Valid() && value.Valid() && 1 <= n <= 64
        invariant contents == old(contents) + value.contents[..value.position]
        decreases value.length - value.position
      {
        n := Min(value.length - value.position, n);
        var bits := value.Take(n);
        var ok := AppendBits(bits, n);
        n := 64;
      }
      value.position := start;
    }

    // src/BitIO.cpp:382-402
    method SetStream(value: BitIO)
      requires Valid() && value.Valid() && value != this
      modifies this, value`position
      ensures Valid() && value.Valid()
      ensures position == old(position) + value.length && value.position == old(value.position)
      ensures contents == Overwrite(old(contents), old(position), value.contents)
    {
      hide Packed, Bits, Value, Pow2, Overwrite, Zeros;
      var start := value.position;
      if length < position + value.length {
        AppendZeros(position + value.length - length);
      }
      ghost var base := contents;
      value.position := 0;
      var n := 64 - length % 64;
      while value.position < value.length
        invariant Valid() && value.Valid() && 1 <= n <= 64 && |contents| == |base|
        invariant position == old(position) + value.position
        invariant contents == Overwrite(base, old(position), value.contents[..value.position])
        decreases value.length - value.position
      {
        n := Min(value.length - value.position, n);
        var bits := value.Take(n);
        OverwriteNext(base, old(position), value.contents, value.position - n, value.position);
        RoomFor(longs, contents, position, n);
        var ok := SetBits(bits, n);
        n := 64;
      }
      OverwriteGrown(old(contents), old(position), value.contents);
      value.position := start;
    }

    // src/BitIO.cpp:529-577
    method InsertStream(value: BitIO)
      requires Valid() && value.Valid() && value != this
      modifies this, value`position
      ensures Valid() && value.Valid()
      ensures position == old(position) + value.length && value.position == old(value.position)
      ensures contents == Insert(old(contents), old(position), value.contents)
      ensures contents == old(contents)[..old(position)] + value.contents + old(contents)[old(position)..]
    {
      hide Packed, Flat, Zeros, Insert, Overwrite;
      var start := value.position;
      value.position := 0;
      AppendZeros(value.length);
      PackedRoom(longs, contents);
      var gapped := OpenWideGap(longs, position, value.length);
      Regap(gapped, old(contents), value.length, value.contents);
      SetStream(value);
      InsertIs(old(contents), old(position), value.contents);
      value.position := start;
    }

    // src/BitIO.cpp:455-466
    /** Reads run in whole words until the last; a read past the end leaves the
        cursor after the whole words it got. */
    method CopyBits(n: nat) returns (r: Result<BitIO>)
      requires Valid()
      modifies this`position
      ensures Valid()
      ensures r.Ok? <==> old(position) + n <= length
      ensures r.Ok? ==> fresh(r.value) && r.value.Valid() && r.value.position == 0
      ensures r.Ok? ==> position == old(position) + n && r.value.contents == contents[old(position)..position]
      ensures r.Err? ==> position == old(position) + (length - old(position)) / 64 * 64
    {
      hide Packed, Bits, Value, Pow2;
      var result := new BitIO();
      var copyLength := 64;
      var remaining := n;
      while remaining > 0
        invariant Valid() && result.Valid() && fresh(result) && result.position == 0
        invariant old(position) <= position && 0 <= remaining && position + remaining == old(position) + n
        invariant copyLength == 64 && (remaining > 0 ==> (position - old(position)) % 64 == 0)
        invariant result.contents == contents[old(position)..position]
      {
        if remaining < 64 {
          copyLength := remaining;
        }
        var bits :- GetBits(copyLength);
        BitsOfValue(contents[position - copyLength..position]);
        Cut(contents, old(position), position - copyLength, position);
        var ok := result.AppendBits(bits, copyLength);
        remaining := remaining - copyLength;
        copyLength := 64;
      }
      return Ok(result);
    }

    // src/BitIO.cpp:587-631
    /** Pads to the next multiple, with clear bits or from fill words: all ones
        for the ones style, whatever the random source gives for the random one. */
    method PadWidth(multiple: nat, fill: Option<nat -> Long>)
      requires Valid()
      modifies this`longs, this`length, this`contents
      ensures Valid() && old(contents) <= contents
      ensures multiple > 1 ==> length % multiple == 0 && length < old(length) + multiple
      ensures multiple <= 1 ==> contents == old(contents)
      ensures contents[old(length)..] ==
              match fill
              case None => Zeros(length - old(length))
              case Some(fills) => FillBits(fills, old(length), length - old(length))
    {
      if multiple <= 1 || length % multiple == 0 {
        return;
      }
      hide Flat, Pattern, FillBits;
      var was := length;
      var needed := multiple - length % multiple;
      NextMultiple(length, multiple);
      AppendZeros(needed);
      if fill.None? {
        return;
      }
      assert Flat(longs) == old(contents) + Zeros(64 * |longs| - was);
      longs := Fill(longs, old(contents), was, needed, fill.value);
      contents := old(contents) + FillBits(fill.value, was, needed);
    }

    // src/BitIO.cpp:318-329
    method CheckBits(value: Long, n: nat) returns (r: Result<bool>)
      requires Valid()
      modifies this`position
      ensures Valid() && position == old(position)
      ensures r.Err? <==> position + n <= length && (n == 0 || n > 64)
      ensures r.Ok? ==> r.value == (position + n <= length && Value(contents[position..position + n]) == value)
    {
      if length - position < n {
        return Ok(false);
      }
      var next :- GetBits(n);
      position := position - n;
      return Ok(next == value);
    }

    // src/BitIO.cpp:645-655
    method MovePositionTo(bitIndex: int) returns (ok: bool)
      requires Valid()
      modifies this`position
      ensures Valid() && (ok <==> 0 <= bitIndex <= length)
      ensures position == if ok then bitIndex else old(position)
    {
      if !(0 <= bitIndex <= length) {
        return false;
      }
      position := bitIndex;
      return true;
    }
  }

  lemma {:induction false} NextMultiple(n: nat, m: nat)
    requires m > 1
    ensures (n + (m - n % m)) % m == 0
  {
    DivModUnique(n / m + 1, 0, m);
    assert n + (m - n % m) == (n / m + 1) * m;
  }
}
