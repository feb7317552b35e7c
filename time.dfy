/** The monotonic timer built on the free-running 32-bit cycle counter (DWT
    CYCCNT). Every value the counter is read at is an input: a single reading
    for the one-shot operations, the sequence of successive readings for the
    busy-wait in `delay`. Durations come in already converted to ticks. */
module Time {
  import opened Machine
  import Nb

  /** Ticks left before the counter reaches its maximum value. */
  function Remaining(lastCount: u32): (r: u32)
    ensures lastCount + r == U32_MAX
  {
    U32_MAX - lastCount
  }

  /** One tick after the remaining ticks have passed, the counter reads zero. */
  lemma RemainingEndsAtWrap(lastCount: u32)
    ensures (lastCount + Remaining(lastCount) + 1) % U32_MODULUS == 0
  {
  }

  /** The example from the counter's last sixteen values. */
  lemma RemainingNearTop()
    ensures Remaining(0xFFFF_FFF0) == 15
  {
  }

  /** `current - last` in wrapping 32-bit arithmetic: the ticks from `last` to
      `current`, correct when less than one full period lies between them. */
  function Elapsed(current: u32, last: u32): (e: u32)
    ensures (last + e) % U32_MODULUS == current
  {
    (current - last) % U32_MODULUS
  }

  /** Counting `e` ticks on from `last` and taking the wrapping difference
      gives `e` back. */
  lemma ElapsedAfter(last: u32, e: u32)
    ensures Elapsed((last + e) % U32_MODULUS, last) == e
  {
  }

  /** The tick budget after waiting through one wrap: reduced by exactly the
      remaining ticks, without underflow and without reaching zero. When no
      ticks remained the budget does not shrink. */
  function AfterWrap(ticks: u64, remaining: u32): (t: u64)
    requires ticks > remaining
    ensures t + remaining == ticks
    ensures t >= 1
    ensures t < ticks <==> remaining > 0
  {
    ticks - remaining
  }

  /** How a busy-wait over a finite sequence of counter readings ends: the
      delay returned, or the readings ran out while it was still waiting. */
  datatype DelayEnd = Returned | StillWaiting

  /** `TimerInstant::now` of the ticklock crate, reduced to the timer it holds. */
  datatype TimerInstant = TimerInstant(timer: MonoTimer)

  /** The timer: the system clock frequency in hertz and the counter value it
      last recorded. */
  class MonoTimer {
    var frequency: u32
    var lastCount: u32

    /** Starts from the system clock and the counter value read at creation. */
    constructor (sysclk: u32, cycleCount: u32)
      ensures frequency == sysclk && lastCount == cycleCount
    {
      frequency := sysclk;
      lastCount := cycleCount;
    }

    /** Records the current counter value; the frequency stays. */
    method UpdateCount(current: u32)
      modifies this`lastCount
      ensures lastCount == current
    {
      lastCount := current;
    }

    /** Whether the counter reading `current` lies below the recorded count. */
    predicate HasWrapped(current: u32)
      reads this
    {
      current < lastCount
    }

    /** The non-blocking delay never completes. */
    function Wait(ticks: u64): (r: Nb.Poll)
      ensures r == Nb.Pending
    {
      Nb.Pending
    }

    /** The counter counts up, so its limit value is zero. */
    function LimitValue(): (r: u32)
      ensures r == 0
    {
      0
    }

    /** Hands a timer with the same frequency, counting from `current`, to a
        new instant. */
    method Start(current: u32) returns (instant: TimerInstant)
      ensures fresh(instant.timer)
      ensures instant.timer.frequency == frequency && instant.timer.lastCount == current
    {
      var t := new MonoTimer(frequency, current);
      instant := TimerInstant(t);
    }

    /** Gives back a timer with the same frequency, counting from `current`. */
    method Stop(current: u32) returns (t: MonoTimer)
      ensures fresh(t)
      ensures t.frequency == frequency && t.lastCount == current
    {
      t := new MonoTimer(frequency, current);
    }

    /** `delay` as written, with the counter returning `counter[0]`,
        `counter[1]`, ... on successive reads. The wait in the else branch
        leaves the budget as it is and a wrap never takes the budget to zero,
        so a non-zero budget never returns, whatever the counter does. */
    method DelayAsWritten(ticks: u64, counter: seq<u32>) returns (outcome: DelayEnd, used: nat)
      modifies this`lastCount
      ensures used <= |counter|
      ensures outcome == StillWaiting ==> used == |counter|
      ensures outcome == Returned ==> ticks == 0
      ensures ticks == 0 ==> (outcome == Returned <==> 0 < |counter|)
      ensures ticks == 0 && outcome == Returned ==> used == 1 && lastCount == counter[0]
    {
      if |counter| == 0 {
        return StillWaiting, 0;
      }
      UpdateCount(counter[0]);
      var pos := 1;
      var t: u64 := ticks;
      while t != 0
        invariant 1 <= pos <= |counter|
        invariant t == 0 <==> ticks == 0
        invariant ticks == 0 ==> pos == 1 && lastCount == counter[0]
        decreases |counter| - pos
      {
        ghost var start := pos;
        var remaining := Remaining(lastCount);
        if t > remaining {
          var wrapped := false;
          while !wrapped
            invariant start <= pos <= |counter|
            invariant wrapped ==> start < pos
            decreases |counter| - pos
          {
            if pos == |counter| {
              return StillWaiting, pos;
            }
            wrapped := HasWrapped(counter[pos]);
            pos := pos + 1;
          }
          if pos == |counter| {
            return StillWaiting, pos;
          }
          UpdateCount(counter[pos]);
          pos := pos + 1;
          t := AfterWrap(t, remaining);
        } else {
          var spinning := true;
          while spinning
            invariant start <= pos <= |counter|
            invariant !spinning ==> start < pos
            decreases |counter| - pos
          {
            if pos == |counter| {
              return StillWaiting, pos;
            }
            spinning := t < Elapsed(counter[pos], lastCount);
            pos := pos + 1;
          }
        }
      }
      outcome, used := Returned, pos;
    }

    /** `delay` with the evident intent of its else branch: wait until at
        least the budget has elapsed since the recorded count, then return.
        With the budget inside the current counter period, it returns at the
        first reading that shows the whole budget elapsed, never earlier, and
        it does return once the readings show that much. */
    method Delay(ticks: u64, counter: seq<u32>) returns (outcome: DelayEnd, used: nat)
      modifies this`lastCount
      ensures used <= |counter|
      ensures outcome == StillWaiting ==> used == |counter|
      ensures outcome == Returned ==> 1 <= used
      ensures ticks == 0 ==> (outcome == Returned <==> 0 < |counter|)
      ensures ticks == 0 && outcome == Returned ==> used == 1 && lastCount == counter[0]
      ensures outcome == Returned && ticks <= Remaining(counter[0]) ==>
        && lastCount == counter[0]
        && Elapsed(counter[used - 1], counter[0]) >= ticks
        && forall i :: 1 <= i < used - 1 ==> Elapsed(counter[i], counter[0]) < ticks
      ensures 0 < |counter| && ticks <= Remaining(counter[0])
        && (exists i :: 1 <= i < |counter| && Elapsed(counter[i], counter[0]) >= ticks)
        ==> outcome == Returned
    {
      if |counter| == 0 {
        return StillWaiting, 0;
      }
      UpdateCount(counter[0]);
      var pos := 1;
      var t: u64 := ticks;
      while t != 0
        invariant 1 <= pos <= |counter|
        invariant t == 0 <==> ticks == 0
        invariant ticks <= Remaining(counter[0]) ==> pos == 1 && t == ticks && lastCount == counter[0]
        decreases |counter| - pos
      {
        ghost var start := pos;
        var remaining := Remaining(lastCount);
        if t > remaining {
          var wrapped := false;
          while !wrapped
            invariant start <= pos <= |counter|
            invariant wrapped ==> start < pos
            decreases |counter| - pos
          {
            if pos == |counter| {
              return StillWaiting, pos;
            }
            wrapped := HasWrapped(counter[pos]);
            pos := pos + 1;
          }
          if pos == |counter| {
            return StillWaiting, pos;
          }
          UpdateCount(counter[pos]);
          pos := pos + 1;
          t := AfterWrap(t, remaining);
        } else {
          var done := false;
          while !done
            invariant start <= pos <= |counter|
            invariant done ==> start < pos
            invariant ticks <= Remaining(counter[0]) ==>
              forall i :: 1 <= i < pos && (!done || i < pos - 1) ==> Elapsed(counter[i], counter[0]) < ticks
            invariant done && ticks <= Remaining(counter[0]) ==> Elapsed(counter[pos - 1], counter[0]) >= ticks
            decreases |counter| - pos
          {
            if pos == |counter| {
              return StillWaiting, pos;
            }
            done := Elapsed(counter[pos], lastCount) >= t;
            pos := pos + 1;
          }
          return Returned, pos;
        }
      }
      outcome, used := Returned, pos;
    }
  }

  /** Reading `current` after `elapsed` ticks of less than one period, the
      wrap check fires exactly when the counter passed its maximum. */
  lemma HasWrappedDetectsOneWrap(timer: MonoTimer, elapsed: nat)
    requires elapsed < U32_MODULUS
    ensures timer.HasWrapped((timer.lastCount + elapsed) % U32_MODULUS)
        <==> timer.lastCount + elapsed >= U32_MODULUS
  {
  }

  /** The check cannot see a full period: `elapsed` and `elapsed` plus one
      more wrap give the same answer, so a second wrap goes unnoticed. */
  lemma HasWrappedBlindToFullPeriod(timer: MonoTimer, elapsed: nat)
    ensures timer.HasWrapped((timer.lastCount + elapsed) % U32_MODULUS)
        == timer.HasWrapped((timer.lastCount + elapsed + U32_MODULUS) % U32_MODULUS)
  {
  }

  /** Recorded count 0xFFFFFFF0: reading 5 is a wrap, 0xFFFFFFF5 is not. */
  lemma HasWrappedNearTop(timer: MonoTimer)
    requires timer.lastCount == 0xFFFF_FFF0
    ensures timer.HasWrapped(5)
    ensures !timer.HasWrapped(0xFFFF_FFF5)
  {
  }

  /** Recorded count 0xFFFFFFF0 and a budget of 32 ticks: the wrap is waited
      for, 15 ticks are credited for it, and 17 remain for after it. */
  lemma DelayAcrossOneWrap()
    ensures 32 > Remaining(0xFFFF_FFF0)
    ensures AfterWrap(32, Remaining(0xFFFF_FFF0)) == 17
  {
  }
}
