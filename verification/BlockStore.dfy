/** What the chain analyzer keeps: block headers and the effects of the blocks it has
    applied, in a store with transactions (src/Database.cpp). */
module BlockStore {
  type Hash = string

  /** The effects of one block; whole is false when only some of it is in. */
  datatype Effect = Effect(height: nat, hash: Hash, whole: bool)

  datatype Copy = Copy(headers: map<nat, Hash>, effects: seq<Effect>)

  /** One whole effect for each height from first on, in order, none twice, none missing. */
  ghost predicate Lined(effects: seq<Effect>, first: nat) {
    forall k :: 0 <= k < |effects| ==> effects[k].height == first + k && effects[k].whole
  }

  /** Every block below a stored header is applied exactly once. */
  ghost predicate Good(c: Copy, first: nat) {
    && Lined(c.effects, first) && 1 in c.headers && 0 !in c.headers
    && forall h :: h in c.headers ==> h <= first + |c.effects|
  }

  /** Everything below height is applied, height itself is not. */
  ghost predicate Ready(c: Copy, first: nat, height: nat) {
    |c.effects| == if height > first then height - first else 0
  }

  /** Height itself is applied already. */
  ghost predicate TopApplied(c: Copy, first: nat, height: nat) {
    height >= first && |c.effects| == height + 1 - first
  }

  /** Something of this height or above is applied. */
  ghost predicate Reaches(c: Copy, height: nat) {
    exists k :: 0 <= k < |c.effects| && c.effects[k].height >= height
  }

  function Below(effects: seq<Effect>, height: nat): seq<Effect> {
    if effects == [] then []
    else
      var last := effects[|effects| - 1];
      Below(effects[..|effects| - 1], height) + if last.height < height then [last] else []
  }

  // src/Database.cpp:1701-1745
  /** clearBlocksAboveHeight: the effects of height and above go, and the headers above it. */
  function Cleared(c: Copy, height: nat): Copy {
    Copy(map h | h in c.headers && h <= height :: c.headers[h], Below(c.effects, height))
  }

  /** The statements of clearBlocksAboveHeight; the headers go with the last but one. */
  const STATEMENTS := 14

  /** Some but not all of its deletes: of what the effects of height and above consist of,
      part is gone, the headers are all still there. */
  function Worn(c: Copy, height: nat): Copy {
    c.(effects := seq(|c.effects|, k requires 0 <= k < |c.effects| =>
      if c.effects[k].height >= height then c.effects[k].(whole := false) else c.effects[k]))
  }

  // src/Database.cpp:1136-1178
  /** reset: only the first header is left. */
  function Emptied(c: Copy): Copy {
    Copy(map h | h in c.headers && h <= 1 :: c.headers[h], [])
  }

  /** How many effects lie below a height when they are lined up from first on. */
  function Level(effects: seq<Effect>, first: nat, height: nat): (n: nat)
    ensures n <= |effects|
  {
    if height <= first then 0 else if height - first < |effects| then height - first else |effects|
  }

  lemma LastLined(effects: seq<Effect>, first: nat)
    requires Lined(effects, first) && effects != []
    ensures Lined(effects[..|effects| - 1], first) && effects[|effects| - 1].height == first + |effects| - 1
  {
  }

  lemma {:induction false} BelowIsPrefix(effects: seq<Effect>, first: nat, height: nat)
    requires Lined(effects, first)
    ensures Below(effects, height) == effects[..Level(effects, first, height)]
  {
    if effects != [] {
      hide Lined;
      LastLined(effects, first);
      var front := effects[..|effects| - 1];
      BelowIsPrefix(front, first, height);
      var n := Level(effects, first, height);
      if n < |effects| {
        assert front[..n] == effects[..n];
      } else {
        assert effects == front + [effects[|effects| - 1]];
      }
    }
  }

  /** Clearing from a stored height on leaves exactly what lies below it, ready to replay
      that height, whether or not it had been applied. */
  lemma {:induction false} ClearReady(c: Copy, first: nat, height: nat)
    requires Good(c, first) && height <= first + |c.effects| && height >= 1
    ensures Good(Cleared(c, height), first) && Ready(Cleared(c, height), first, height)
  {
    BelowIsPrefix(c.effects, first, height);
  }

  /** In a good store a height that is not ready is one already reached. */
  lemma {:induction false} ReadyOrReached(c: Copy, first: nat, height: nat)
    requires Good(c, first) && height <= first + |c.effects|
    ensures Ready(c, first, height) <==> !Reaches(c, height)
  {
    if c.effects != [] {
      var last := c.effects[|c.effects| - 1];
      assert last.height == first + |c.effects| - 1;
    }
  }

  lemma {:induction false} BelowReaches(effects: seq<Effect>, height: nat)
    ensures forall k :: 0 <= k < |Below(effects, height)| ==> Below(effects, height)[k].height < height
  {
    if effects != [] {
      BelowReaches(effects[..|effects| - 1], height);
    }
  }

  /** What a discard leaves: nothing from its height on if it succeeds, and if it stops half
      way all the heights there were. */
  lemma {:induction false} ReachesAfter(c: Copy, height: nat)
    ensures !Reaches(Cleared(c, height), height) && !Reaches(Emptied(c), height)
    ensures Reaches(Worn(c, height), height) <==> Reaches(c, height)
    ensures !Reaches(c, height) ==> Worn(c, height) == c
  {
    BelowReaches(c.effects, height);
    var worn := Worn(c, height);
    assert forall k :: 0 <= k < |c.effects| ==> worn.effects[k].height == c.effects[k].height;
    if !Reaches(c, height) {
      assert worn.effects == c.effects;
    }
  }

  lemma Roots(c: Copy, height: nat)
    requires 1 in c.headers && 0 !in c.headers && height >= 1
    ensures 1 in Cleared(c, height).headers && 0 !in Cleared(c, height).headers
    ensures 1 in Emptied(c).headers && 0 !in Emptied(c).headers
  {
  }

  lemma WornRoots(c: Copy, height: nat)
    requires 1 in c.headers && 0 !in c.headers
    ensures 1 in Worn(c, height).headers && 0 !in Worn(c, height).headers
  {
  }

  lemma {:induction false} BelowHas(effects: seq<Effect>, height: nat, e: Effect)
    ensures e in Below(effects, height) <==> e in effects && e.height < height
  {
    if effects != [] {
      BelowHas(effects[..|effects| - 1], height, e);
      assert effects == effects[..|effects| - 1] + [effects[|effects| - 1]];
    }
  }

  /** Clearing brings in nothing. */
  lemma {:induction false} BelowIn(effects: seq<Effect>, height: nat)
    ensures forall e :: e in Below(effects, height) ==> e in effects
  {
    if effects != [] {
      BelowIn(effects[..|effects| - 1], height);
    }
  }

  lemma EmptyReady(c: Copy, first: nat)
    requires Good(c, first) && first >= 1
    ensures Good(Emptied(c), first) && Ready(Emptied(c), first, 1)
  {
  }

  lemma ApplyGood(c: Copy, first: nat, height: nat, hash: Hash)
    requires Good(c, first) && Ready(c, first, height) && height >= first
    ensures var c' := c.(effects := c.effects + [Effect(height, hash, true)]);
            Good(c', first) && TopApplied(c', first, height)
  {
  }

  lemma NextReady(c: Copy, first: nat, height: nat)
    requires if height >= first then TopApplied(c, first, height) else Ready(c, first, height)
    ensures Ready(c, first, height + 1) && height + 1 <= first + |c.effects|
  {
  }

  lemma HeaderGood(c: Copy, first: nat, height: nat, hash: Hash)
    requires Good(c, first) && 1 <= height <= first + |c.effects|
    ensures Good(c.(headers := c.headers[height := hash]), first)
  {
  }

  /** Applying a height that is applied already is never lined up again. */
  lemma {:induction false} TwiceIsNotGood(c: Copy, first: nat, height: nat, hash: Hash)
    requires TopApplied(c, first, height)
    ensures !Lined(c.effects + [Effect(height, hash, true)], first)
  {
    var twice := c.effects + [Effect(height, hash, true)];
    assert twice[|c.effects|].height != first + |c.effects|;
  }

  ghost predicate IsTop(headers: map<nat, Hash>, top: nat) {
    top in headers && forall h :: h in headers ==> h <= top
  }

  /** The highest stored header: where a start or a recovery picks up again. */
  method TopHeight(headers: map<nat, Hash>) returns (top: nat)
    requires 1 in headers
    ensures IsTop(headers, top)
  {
    top := 1;
    var left := headers.Keys;
    while left != {}
      invariant left <= headers.Keys && top in headers
      invariant forall h :: h in headers && h !in left ==> h <= top
      decreases |left|
    {
      var h :| h in left;
      left := left - {h};
      if h > top {
        top := h;
      }
    }
  }
}
