/** The retry worker's packed word: a tick and a counter in one uint64, updated by
    compare-and-swap. */
module RetryState {
  import opened Options

  const DEAD := 0xFFFF_FFFF

  datatype Word = Word(tick: nat, counter: nat)

  predicate Fits(w: Word) { w.tick < TWO_32 && w.counter < TWO_32 }

  function Pack(w: Word): nat { w.counter * TWO_32 + w.tick }

  function Unpack(cell: nat): Word { Word(cell % TWO_32, cell / TWO_32) }

  /** Packing two 32-bit halves fills 64 bits and loses nothing, either way: two
      packed words are equal exactly when their halves are. */
  lemma PackUnpack(w: Word, cell: nat)
    requires Fits(w) && cell < TWO_32 * TWO_32
    ensures Pack(w) < TWO_32 * TWO_32 && Unpack(Pack(w)) == w
    ensures Fits(Unpack(cell)) && Pack(Unpack(cell)) == cell
    ensures Pack(w) == cell <==> w == Unpack(cell)
  {
  }

  predicate Dead(w: Word) { w.tick == DEAD }

  /** What a stopper swaps in: the dead tick, with the counter left alone. */
  function Killed(w: Word): Word { w.(tick := DEAD) }

  /** What a retry swaps in: one more in this tick, or the first of a new one. */
  function Bumped(w: Word, tick: nat): Word
  {
    Word(tick, if w.tick == tick then (w.counter + 1) % TWO_32 else 1)
  }

  /** The first of a tick counts as one, each other as one more; the tick changes to
      that of the clock. */
  lemma BumpedCounts(w: Word, tick: nat)
    ensures Bumped(w, tick).tick == tick
    ensures w.tick != tick ==> Bumped(w, tick).counter == 1
    ensures w.tick == tick && w.counter < TWO_32 - 1 ==> Bumped(w, tick).counter == w.counter + 1
  {
  }

  /** The word and the channel, as one caller sees them.  `rivals[k]` is what other
      goroutines leave in the word between the caller's `k`-th load and its swap. */
  class RetryState {
    var cell: nat
    var closes: nat

    constructor ()
      ensures Current() == Word(0, 0) && closes == 0
    {
      cell, closes := 0, 0;
    }

    function Current(): Word
      reads this`cell
    {
      Unpack(cell)
    }

    method CompareAndSwap(expected: nat, next: nat) returns (ok: bool)
      modifies this`cell
      ensures ok <==> old(cell) == expected
      ensures cell == if ok then next else old(cell)
    {
      ok := cell == expected;
      if ok {
        cell := next;
      }
    }

    method LetRivalsWrite(rivals: seq<nat>, k: nat)
      modifies this`cell
      ensures cell == if k < |rivals| then rivals[k] else old(cell)
    {
      if k < |rivals| {
        cell := rivals[k];
      }
    }

    /** The word ends up dead; the channel is closed exactly when this caller killed
        the word, which it does unless it finds the word dead. */
    method DisableRetries(rivals: seq<nat>) returns (mine: bool)
      requires cell < TWO_32 * TWO_32 && forall v :: v in rivals ==> v < TWO_32 * TWO_32
      modifies this
      ensures Dead(Current()) && closes == old(closes) + if mine then 1 else 0
      ensures !mine ==> cell in [old(cell)] + rivals
      ensures mine ==> exists v :: v in [old(cell)] + rivals && !Dead(Unpack(v))
                                   && Current().counter == Unpack(v).counter
      ensures Dead(old(Current())) ==> cell == old(cell)
    {
      var k := 0;
      while true
        invariant k <= |rivals| && cell in [old(cell)] + rivals && closes == old(closes)
        invariant Dead(old(Current())) ==> k == 0 && cell == old(cell)
        decreases |rivals| - k
      {
        var expected := cell;
        var word := Unpack(expected);
        if word.tick == DEAD {
          return false;
        }
        LetRivalsWrite(rivals, k);
        PackUnpack(Killed(word), expected);
        var swapped := CompareAndSwap(expected, Pack(Killed(word)));
        if swapped {
          closes := closes + 1;
          return true;
        }
        k := k + 1;
      }
    }

    /** Takes one retry from the tick's allowance, reading the clock anew at every
        turn; a dead word is left alone. */
    method Acquire(limit: TimerRate, rivals: seq<nat>, clock: nat -> nat) returns (ok: bool)
      requires 30 * SECOND <= limit.period && forall k: nat :: clock(k) <= MAX_INT64
      requires cell < TWO_32 * TWO_32 && forall v :: v in rivals ==> v < TWO_32 * TWO_32
      modifies this`cell
      ensures Dead(Current()) ==> !ok && cell in [old(cell)] + rivals
      ensures Dead(old(Current())) ==> cell == old(cell)
      ensures !Dead(Current()) ==> exists v, k: nat ::
                v in [old(cell)] + rivals && Current() == Bumped(Unpack(v), limit.ToTicks(clock(k)))
      ensures !Dead(Current()) ==> exists v ::
                v in [old(cell)] + rivals &&
                (Current().counter == 1 || (Unpack(v).tick == Current().tick
                                            && Current().counter == (Unpack(v).counter + 1) % TWO_32))
      ensures !Dead(Current()) ==> (ok <==> Current().counter <= limit.count)
    {
      var k := 0;
      while true
        invariant k <= |rivals| && cell in [old(cell)] + rivals
        invariant Dead(old(Current())) ==> k == 0 && cell == old(cell)
        decreases |rivals| - k
      {
        var expected := cell;
        var word := Unpack(expected);
        if word.tick == DEAD {
          return false;
        }
        TicksFit(limit, clock(k));
        var next := Bumped(word, limit.ToTicks(clock(k)));
        LetRivalsWrite(rivals, k);
        PackUnpack(next, expected);
        var swapped := CompareAndSwap(expected, Pack(next));
        if swapped {
          return next.counter <= limit.count;
        }
        k := k + 1;
      }
    }
  }
}
