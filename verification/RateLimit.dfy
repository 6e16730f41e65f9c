/**
 The log's token bucket, packed in one atomic word, and the count of messages it refuses.
 */
module RateLimit {

  const TOKEN_LIMIT: nat := 0x1_0000
  const TICK_LIMIT: nat := 0x1_0000_0000_0000

  /** The tick of the last grant, and the tokens left then. */
  datatype Bucket = Bucket(tick: nat, tokens: nat)

  /** The packed word: 48 bits of tick above 16 bits of tokens. */
  function Pack(b: Bucket): nat { b.tick * 0x1_0000 + b.tokens }

  function Unpack(v: nat): Bucket { Bucket(v / 0x1_0000, v % 0x1_0000) }

  predicate Fits(b: Bucket) { b.tick < TICK_LIMIT && b.tokens < TOKEN_LIMIT }

  /** The word holds both fields without loss. */
  lemma PackRound(b: Bucket)
    requires Fits(b)
    ensures Unpack(Pack(b)) == b && Pack(b) < 0x1_0000_0000_0000_0000
  {
  }

  /** The tokens there are at `tick`: one more for each tick since the last grant, up to the burst. */
  function Available(b: Bucket, burst: nat, tick: nat): nat {
    if tick <= b.tick then b.tokens
    else if b.tokens + (tick - b.tick) < burst then b.tokens + (tick - b.tick) else burst
  }

  predicate Grants(b: Bucket, burst: nat, tick: nat) { Available(b, burst, tick) > 0 }

  /** The bucket after a call; a refused call changes nothing. */
  function After(b: Bucket, burst: nat, tick: nat): Bucket {
    if Grants(b, burst, tick) then Bucket(tick, Available(b, burst, tick) - 1) else b
  }

  lemma TokensStayBounded(b: Bucket, burst: nat, tick: nat)
    requires b.tokens <= burst < TOKEN_LIMIT && Fits(b) && tick < TICK_LIMIT
    ensures After(b, burst, tick).tokens <= burst && Fits(After(b, burst, tick))
  {
  }

  /** The bucket before call `n` of those at `ticks`. */
  function At(b: Bucket, burst: nat, ticks: seq<nat>, n: nat): Bucket
    requires n <= |ticks|
  {
    if n == 0 then b else After(At(b, burst, ticks, n - 1), burst, ticks[n - 1])
  }

  predicate Granted(b: Bucket, burst: nat, ticks: seq<nat>, i: nat)
    requires i < |ticks|
  {
    Grants(At(b, burst, ticks, i), burst, ticks[i])
  }

  /** How many of the calls `m` to `n` were granted. */
  function Grantings(b: Bucket, burst: nat, ticks: seq<nat>, m: nat, n: nat): nat
    requires m <= n <= |ticks|
  {
    if n == m then 0 else Grantings(b, burst, ticks, m, n - 1) + if Granted(b, burst, ticks, n - 1) then 1 else 0
  }

  lemma {:induction false} TokensBounded(b: Bucket, burst: nat, ticks: seq<nat>, n: nat)
    requires b.tokens <= burst && n <= |ticks|
    ensures At(b, burst, ticks, n).tokens <= burst
  {
    if n > 0 { TokensBounded(b, burst, ticks, n - 1); }
  }

  /** No granted call reads a clock behind the bucket's. */
  predicate Forward(b: Bucket, burst: nat, ticks: seq<nat>) {
    forall i :: 0 <= i < |ticks| && Granted(b, burst, ticks, i) ==> At(b, burst, ticks, i).tick <= ticks[i]
  }

  lemma {:induction false} NonDecreasingIsForward(b: Bucket, burst: nat, ticks: seq<nat>)
    requires forall i, j :: 0 <= i < j < |ticks| ==> ticks[i] <= ticks[j]
    requires |ticks| > 0 ==> b.tick <= ticks[0]
    ensures Forward(b, burst, ticks)
  {
    forall i | 0 <= i < |ticks| ensures At(b, burst, ticks, i).tick <= ticks[i] { TickBehind(b, burst, ticks, i); }
  }

  lemma {:induction false} TickBehind(b: Bucket, burst: nat, ticks: seq<nat>, n: nat)
    requires n < |ticks| && b.tick <= ticks[0] && forall i, j :: 0 <= i < j < |ticks| ==> ticks[i] <= ticks[j]
    ensures At(b, burst, ticks, n).tick <= ticks[n]
  {
    if n > 0 { TickBehind(b, burst, ticks, n - 1); }
  }

  /** The ticks by which granted calls among `m` to `n` wound the bucket back. */
  function Rewound(b: Bucket, burst: nat, ticks: seq<nat>, m: nat, n: nat): nat
    requires m <= n <= |ticks|
  {
    if n == m then 0
    else
      var s := At(b, burst, ticks, n - 1);
      Rewound(b, burst, ticks, m, n - 1)
      + (if Granted(b, burst, ticks, n - 1) && ticks[n - 1] < s.tick then s.tick - ticks[n - 1] else 0)
  }

  /** The granted calls among `m` to `n` read ticks in `[a, z]`. */
  predicate InWindow(b: Bucket, burst: nat, ticks: seq<nat>, m: nat, n: nat, a: nat, z: nat)
    requires m <= n <= |ticks|
  {
    forall i :: m <= i < n && Granted(b, burst, ticks, i) ==> a <= ticks[i] <= z
  }

  /** Each grant costs a token, a tick, or a tick wound back. */
  lemma {:induction false} WindowStep(b: Bucket, burst: nat, ticks: seq<nat>, m: nat, n: nat, a: nat, z: nat)
    requires m <= n <= |ticks| && b.tokens <= burst && a <= z && InWindow(b, burst, ticks, m, n, a, z)
    ensures var s := At(b, burst, ticks, n);
            Grantings(b, burst, ticks, m, n) > 0 ==>
              && a <= s.tick <= z
              && Grantings(b, burst, ticks, m, n) + s.tokens <= burst + (s.tick - a) + Rewound(b, burst, ticks, m, n)
    decreases n
  {
    if m < n {
      WindowStep(b, burst, ticks, m, n - 1, a, z);
      TokensBounded(b, burst, ticks, n - 1);
    }
  }

  /** Whatever the clock does, grants within a window of ticks never exceed the burst, the window's length and the
      ticks by which late readings wound the bucket back. */
  lemma WindowBoundAlways(b: Bucket, burst: nat, ticks: seq<nat>, m: nat, n: nat, a: nat, z: nat)
    requires m <= n <= |ticks| && b.tokens <= burst && a <= z && InWindow(b, burst, ticks, m, n, a, z)
    ensures Grantings(b, burst, ticks, m, n) <= burst + (z - a) + Rewound(b, burst, ticks, m, n)
  {
    WindowStep(b, burst, ticks, m, n, a, z);
  }

  /** Nothing is wound back exactly when no granted call reads a clock behind the bucket's. */
  lemma {:induction false} NothingRewound(b: Bucket, burst: nat, ticks: seq<nat>, m: nat, n: nat)
    requires m <= n <= |ticks|
    ensures Rewound(b, burst, ticks, m, n) == 0
            <==> forall i :: m <= i < n && Granted(b, burst, ticks, i) ==> At(b, burst, ticks, i).tick <= ticks[i]
    decreases n
  {
    if m < n { NothingRewound(b, burst, ticks, m, n - 1); }
  }

  /** So with a clock that only moves forward they never exceed the burst plus the window's length. */
  lemma WindowBound(b: Bucket, burst: nat, ticks: seq<nat>, m: nat, n: nat, a: nat, z: nat)
    requires m <= n <= |ticks| && b.tokens <= burst && Forward(b, burst, ticks)
    requires a <= z && InWindow(b, burst, ticks, m, n, a, z)
    ensures Grantings(b, burst, ticks, m, n) <= burst + (z - a)
  {
    WindowBoundAlways(b, burst, ticks, m, n, a, z);
    NothingRewound(b, burst, ticks, m, n);
  }

  /** A call is refused exactly when the bucket is empty and its clock has not moved on since the last grant. */
  lemma GrantedIff(b: Bucket, burst: nat, ticks: seq<nat>, i: nat)
    requires i < |ticks| && burst > 0
    ensures Granted(b, burst, ticks, i) <==> At(b, burst, ticks, i).tokens > 0 || ticks[i] > At(b, burst, ticks, i).tick
  {
  }

  /** After as many idle ticks as the burst, that many calls in a row are granted. */
  lemma {:induction false} BurstAfterIdle(b: Bucket, burst: nat, ticks: seq<nat>, m: nat, k: nat)
    requires k <= burst && m + k <= |ticks| && forall i, j :: m <= i < j < |ticks| ==> ticks[i] <= ticks[j]
    requires m < |ticks| && At(b, burst, ticks, m).tick + burst <= ticks[m]
    ensures Grantings(b, burst, ticks, m, m + k) == k
    ensures k > 0 ==> var s := At(b, burst, ticks, m + k); s.tokens >= burst - k && s.tick == ticks[m + k - 1]
    decreases k
  {
    if k > 0 { BurstAfterIdle(b, burst, ticks, m, k - 1); }
  }

  /** The tokens that granted calls found added. */
  function Refilled(b: Bucket, burst: nat, ticks: seq<nat>, n: nat): int
    requires n <= |ticks|
  {
    if n == 0 then 0
    else
      var s := At(b, burst, ticks, n - 1);
      Refilled(b, burst, ticks, n - 1)
      + (if Granted(b, burst, ticks, n - 1) then Available(s, burst, ticks[n - 1]) - s.tokens else 0)
  }

  /** Whatever the clock does: grants are the tokens there were and were added, less those left. */
  lemma {:induction false} TokensConserved(b: Bucket, burst: nat, ticks: seq<nat>, n: nat)
    requires n <= |ticks|
    ensures Grantings(b, burst, ticks, 0, n) == b.tokens + Refilled(b, burst, ticks, n) - At(b, burst, ticks, n).tokens
  {
    if n > 0 { TokensConserved(b, burst, ticks, n - 1); }
  }

  /** Calls `2 * j` and `2 * j + 1` read the ticks 2 and 0. */
  predicate Pair(ticks: seq<nat>, j: nat) { 2 * j + 1 < |ticks| && ticks[2 * j] == 2 && ticks[2 * j + 1] == 0 }

  /** Ticks that alternate between 2 and 0. */
  predicate Alternating(ticks: seq<nat>, n: nat) { |ticks| == 2 * n && forall j :: 0 <= j < n ==> Pair(ticks, j) }

  /** A clock reading that arrives late winds the bucket back, and its tokens can be earned again: with a burst of
      2 every one of these calls is granted, all within ticks 0 to 2, however many there are. */
  lemma {:induction false} LateReadingsBreakTheBound(ticks: seq<nat>, n: nat, k: nat)
    requires Alternating(ticks, n) && k <= n
    ensures At(Bucket(0, 2), 2, ticks, 2 * k) == Bucket(0, if k == 0 then 2 else 0)
    ensures Grantings(Bucket(0, 2), 2, ticks, 0, 2 * k) == 2 * k
    decreases k
  {
    if k > 0 {
      LateReadingsBreakTheBound(ticks, n, k - 1);
      assert Pair(ticks, k - 1);
      PairGranted(ticks, 2 * (k - 1), 2 * k);
    }
  }

  lemma PairGranted(ticks: seq<nat>, i: nat, next: nat)
    requires next == i + 2 <= |ticks| && ticks[i] == 2 && ticks[i + 1] == 0
    requires At(Bucket(0, 2), 2, ticks, i) in {Bucket(0, 2), Bucket(0, 0)}
    ensures At(Bucket(0, 2), 2, ticks, next) == Bucket(0, 0)
    ensures Grantings(Bucket(0, 2), 2, ticks, 0, next) == Grantings(Bucket(0, 2), 2, ticks, 0, i) + 2
  {
    var b := Bucket(0, 2);
    assert Granted(b, 2, ticks, i) && At(b, 2, ticks, i + 1) == Bucket(2, 1);
    assert Granted(b, 2, ticks, i + 1) && At(b, 2, ticks, i + 2) == Bucket(0, 0);
    assert Grantings(b, 2, ticks, 0, i + 1) == Grantings(b, 2, ticks, 0, i) + 1;
  }

  // ----------------------------------------------------------------- the code

  const TWO_32: nat := 0x1_0000_0000

  /** One source of messages: its two packed buckets and its count of refused messages. */
  class Source {
    const burst: nat
    const priorityBurst: nat
    var rate: nat
    var priority: nat
    var dropped: nat
    ghost var refused: nat   // all messages ever refused
    ghost var reported: nat  // those a summary line has reported

    ghost predicate Valid()
      reads this
    {
      && burst < TOKEN_LIMIT && priorityBurst < TOKEN_LIMIT
      && Unpack(rate).tokens <= burst && Unpack(priority).tokens <= priorityBurst
      && rate < 0x1_0000_0000_0000_0000 && priority < 0x1_0000_0000_0000_0000
      && Accounted(refused, reported, dropped)
    }

    /** A message passes by the first bucket, or, as a warning, by the second. */
    predicate Passes(rate: Bucket, priority: Bucket, warning: bool,
                     clock: bool, tick: nat, secondClock: bool, priorityTick: nat)
    {
      || !clock || Grants(rate, burst, tick)
      || (warning && (!secondClock || Grants(priority, priorityBurst, priorityTick)))
    }

    constructor (burst: nat, priorityBurst: nat)
      requires burst < TOKEN_LIMIT && priorityBurst < TOKEN_LIMIT
      ensures Valid() && this.burst == burst && this.priorityBurst == priorityBurst
      ensures Unpack(rate) == Bucket(0, burst) && Unpack(priority) == Bucket(0, priorityBurst)
      ensures dropped == 0 && refused == 0 && reported == 0
    {
      this.burst, this.priorityBurst, rate, priority := burst, priorityBurst, burst, priorityBurst;
      dropped, refused, reported := 0, 0, 0;
    }

    /** Decides on a message: first the source's bucket, then, for warnings and errors, the other one. Each bucket
        reads the clock for itself, and a clock that cannot be read lets the message through. */
    method ShouldWrite(warning: bool, clock: bool, tick: nat, secondClock: bool, priorityTick: nat) returns (ok: bool)
      requires Valid() && tick < TICK_LIMIT && priorityTick < TICK_LIMIT
      modifies this`rate, this`priority
      ensures Valid()
      ensures var first := !clock || Grants(Unpack(old(rate)), burst, tick);
              var second := !first && warning;
              && ok == Passes(Unpack(old(rate)), Unpack(old(priority)), warning, clock, tick, secondClock, priorityTick)
              && Unpack(rate) == (if clock then After(Unpack(old(rate)), burst, tick) else Unpack(old(rate)))
              && Unpack(priority) == if second && secondClock
                                     then After(Unpack(old(priority)), priorityBurst, priorityTick)
                                     else Unpack(old(priority))
    {
      if !clock { return true; }
      var seen, stored;
      ok, seen, stored := TakeRateToken(rate, burst, tick, []);
      if ok { StoredFits(rate, burst, tick); }
      rate := stored;
      if ok || !warning { return; }
      if !secondClock { return true; }
      ok, seen, stored := TakeRateToken(priority, priorityBurst, priorityTick, []);
      if ok { StoredFits(priority, priorityBurst, priorityTick); }
      priority := stored;
    }

    /** A refused message is counted; the next one written first reports the count and clears it. */
    method Write(warning: bool, clock: bool, tick: nat, secondClock: bool, priorityTick: nat)
      returns (written: bool, summary: nat)
      requires Valid() && tick < TICK_LIMIT && priorityTick < TICK_LIMIT
      modifies this
      ensures Valid()
      ensures written
              == Passes(Unpack(old(rate)), Unpack(old(priority)), warning, clock, tick, secondClock, priorityTick)
      ensures written ==> summary == old(dropped) && dropped == 0
                          && refused == old(refused) && reported == old(reported) + summary
      ensures !written ==> dropped == (old(dropped) + 1) % 0x1_0000_0000
                           && refused == old(refused) + 1 && reported == old(reported)
    {
      summary := 0;
      written := ShouldWrite(warning, clock, tick, secondClock, priorityTick);
      if !written {
        CountWraps(refused, reported, dropped);
        dropped := (dropped + 1) % 0x1_0000_0000;
        refused := refused + 1;
        return;
      }
      CountCleared(refused, reported, dropped);
      summary := dropped;
      reported := reported + summary;
      dropped := 0;
    }
  }

  /** Every refused message is either reported or still counted, up to the counter's wrap. */
  predicate Accounted(refused: int, reported: int, dropped: int) {
    0 <= dropped < TWO_32 && refused >= reported + dropped && (refused - reported - dropped) % 0x1_0000_0000 == 0
  }

  lemma CountWraps(refused: int, reported: int, dropped: int)
    requires Accounted(refused, reported, dropped)
    ensures Accounted(refused + 1, reported, (dropped + 1) % 0x1_0000_0000)
  {
  }

  lemma CountCleared(refused: int, reported: int, dropped: int)
    requires Accounted(refused, reported, dropped)
    ensures Accounted(refused, reported + dropped, 0)
  {
  }

  /** Before the counter wraps, refused messages are exactly the reported and the counted ones. */
  lemma AllAccounted(refused: int, reported: int, dropped: int)
    requires Accounted(refused, reported, dropped)
    ensures refused == reported + dropped <==> refused - reported < TWO_32
  {
  }

  lemma StoredFits(value: nat, burst: nat, tick: nat)
    requires burst < TOKEN_LIMIT && tick < TICK_LIMIT
    requires Grants(Unpack(value), burst, tick) && Unpack(value).tokens <= burst
    ensures var b := After(Unpack(value), burst, tick);
            Unpack(Pack(b)) == b && b.tokens <= burst && Pack(b) < 0x1_0000_0000_0000_0000
  {
    PackRound(After(Unpack(value), burst, tick));
  }

  /** The compare-and-swap loop on a packed word. `races` are the values that make the swap fail, in order; the
      decision is made on the last value seen, which is `value` itself if nothing races. */
  method TakeRateToken(value: nat, burst: nat, tick: nat, races: seq<nat>)
    returns (granted: bool, seen: nat, stored: nat)
    requires burst < TOKEN_LIMIT && tick < TICK_LIMIT
    ensures seen == value || seen in races
    ensures races == [] ==> seen == value
    ensures granted <==> Grants(Unpack(seen), burst, tick)
    ensures stored == if granted then Pack(After(Unpack(seen), burst, tick)) else seen
  {
    var current, k := value, 0;
    while true
      invariant 0 <= k <= |races| && (if k == 0 then current == value else current == races[k - 1])
      decreases |races| - k
    {
      var tokens := current % 0x1_0000;
      var oldTick := current / 0x1_0000;
      if tick > oldTick { tokens := if burst < tokens + tick - oldTick then burst else tokens + tick - oldTick; }
      if tokens == 0 { return false, current, current; }
      if k == |races| { return true, current, tick * 0x1_0000 + (tokens - 1); }
      current := races[k];
      k := k + 1;
    }
  }
}
