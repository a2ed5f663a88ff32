/** sleep: a 32-bit product of milliseconds, counted down by the timer in 64-bit unsigned steps. */
module Timer {
  import opened Scheduler

  const U32: nat := 0x1_0000_0000

  /** seconds * 1000 in uint32_t. */
  function Milliseconds(seconds: nat): nat { seconds * 1000 % U32 }

  /** do_sleep. */
  function Asleep(t: Info, seconds: nat): Info {
    t.(state := Sleeping, sleep := Milliseconds(seconds))
  }

  /** do_sleep changes two fields of the caller: SLEEPING, and the milliseconds as far as 32 bits go. */
  lemma SleepSparesOthers(q: Queue, seconds: nat, i: nat)
    requires i < |q.tasks|
    ensures var t, u := q.tasks[i], Update(q, 0, Asleep(q.tasks[0], seconds)).tasks[i];
            if i == 0 then u == Info(t.pid, t.ppid, Sleeping, seconds * 1000 % 0x1_0000_0000, t.waitPid, t.retVal)
            else u == t
  {
  }

  function Ticked(t: Info, k: nat): Info {
    if k == 0 then t else TimerTick(Ticked(t, k - 1))
  }

  /** Asleep for the first k - 1 interrupts, ready after the k-th. */
  ghost predicate WakesAt(t: Info, k: nat) {
    Ticked(t, k).state == Ready && forall j :: 0 <= j < k ==> Ticked(t, j).state == Sleeping
  }

  lemma MinusIsMod(x: int)
    ensures Minus(x % U64, PERIOD) == (x - PERIOD) % U64
  {
  }

  /** As long as it sleeps, the remaining time is the start minus the elapsed time, modulo 2^64. */
  lemma {:induction false} RemainingTime(t: Info, k: nat)
    requires t.state == Sleeping && t.sleep < U64
    requires forall j :: 0 <= j < k ==> Ticked(t, j).state == Sleeping
    ensures Ticked(t, k).sleep == (t.sleep - PERIOD * k) % U64
    ensures Ticked(t, k).state == if k > 0 && (t.sleep - PERIOD * k) % U64 == 0 then Ready else Sleeping
  {
    if k > 0 {
      RemainingTime(t, k - 1);
      assert Ticked(t, k - 1).state == Sleeping;
      MinusIsMod(t.sleep - PERIOD * (k - 1));
      assert t.sleep - PERIOD * (k - 1) - PERIOD == t.sleep - PERIOD * k;
    }
  }

  /** For 1 to 4294967 seconds the remaining time stays a positive multiple of the period, the
      subtraction never wraps, and the task wakes after exactly 200 interrupts a second. */
  lemma {:induction false} CountsDown(t: Info, seconds: nat, k: nat)
    requires 1 <= seconds <= 4294967 && k < 200 * seconds
    ensures Ticked(Asleep(t, seconds), k).state == Sleeping
    ensures Ticked(Asleep(t, seconds), k).sleep == PERIOD * (200 * seconds - k)
  {
    if k > 0 {
      CountsDown(t, seconds, k - 1);
    }
  }

  lemma NotAMultiple(seconds: nat)
    requires 4294967 < seconds < U32
    ensures (seconds * 1000 % U32 - PERIOD * (200 * seconds)) % U64 != 0
  {
    var wraps := seconds * 1000 / U32;
    assert seconds * 1000 == wraps * U32 + seconds * 1000 % U32;
    assert 1 <= wraps < 1000;
    assert (0 - wraps * U32) % U64 == U64 - wraps * U32;
  }

  /** Sleep is accurate exactly for 1 to 4294967 seconds, over all 32-bit arguments: zero wraps on
      the first interrupt and longer times have already wrapped in the product. */
  lemma SleepIsAccurateIff(t: Info, seconds: nat)
    requires seconds < U32
    ensures WakesAt(Asleep(t, seconds), 200 * seconds) <==> 1 <= seconds <= 4294967
  {
    var a := Asleep(t, seconds);
    if 1 <= seconds <= 4294967 {
      forall j | 0 <= j < 200 * seconds
        ensures Ticked(a, j).state == Sleeping
      {
        CountsDown(t, seconds, j);
      }
      RemainingTime(a, 200 * seconds);
    } else if seconds > 4294967 {
      if WakesAt(a, 200 * seconds) {
        RemainingTime(a, 200 * seconds);
        NotAMultiple(seconds);
      }
    }
  }
}
