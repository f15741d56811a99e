/** What the sleep ring of TaskSlot/simple/task_slot.c means: a queue of delays, each counted from
    the moment its predecessor wakes. due is the tick before which the sleeper must not wake. */
module SleepQueue {
  import opened Words

  datatype Sleeper = Sleeper(delay: word, due: int)

  type Queue = seq<Sleeper>

  /** Ticks until the k-th sleeper has woken, k counted from 1. */
  function Sum(q: Queue, k: nat): nat
    requires k <= |q|
  {
    if k == 0 then 0 else q[0].delay + Sum(q[1..], k - 1)
  }

  function Total(q: Queue): nat {
    Sum(q, |q|)
  }

  /** The first delay can be counted down, and nobody is going to wake early. */
  ghost predicate Good(q: Queue, now: int) {
    && (|q| > 0 ==> q[0].delay > 0)
    && forall k | 0 <= k < |q| :: q[k].due <= now + Sum(q, k + 1)
  }

  /** A value that an int32_t cast leaves non-negative. */
  predicate NonNegative(x: int) {
    0 <= x < 0x8000_0000
  }

  /** A word as a signed integer. */
  function Signed(x: word): int {
    if x < 0x8000_0000 then x else x - WORD_SIZE
  }

  lemma NonNegativeIsSigned(x: word)
    ensures NonNegative(x) <==> Signed(x) >= 0
    ensures -0x8000_0000 <= Signed(x) < 0x8000_0000 && (Signed(x) - x) % WORD_SIZE == 0
  {
  }

  /** The sleeps of n > 0 ticks that get past the assertions of TaskOpSleep: those that end up
      first or last in the ring. */
  predicate Accepted(q: Queue, n: word) {
    || q == []
    || (n <= q[0].delay && NonNegative(q[0].delay - n))
    || (n > Total(q) && NonNegative(n - q[0].delay))
  }

  function AfterSleep(q: Queue, n: word, now: int): Queue
    requires Accepted(q, n)
  {
    if q != [] && n <= q[0].delay then
      [Sleeper(n, now + n), q[0].(delay := q[0].delay - n)] + q[1..]
    else
      q + [Sleeper(n, now + n)]
  }

  function ZeroPrefix(q: Queue): (k: nat)
    ensures k <= |q|
    ensures forall i | 0 <= i < k :: q[i].delay == 0
    ensures k < |q| ==> q[k].delay != 0
  {
    if q == [] || q[0].delay != 0 then 0 else 1 + ZeroPrefix(q[1..])
  }

  /** The first z sleepers have no delay left. */
  ghost predicate AllZero(q: Queue, z: nat) {
    z <= |q| && forall i | 0 <= i < z :: q[i].delay == 0
  }

  lemma FirstZero(q: Queue)
    requires q != [] && q[0].delay == 0
    ensures AllZero(q, 1)
  {
  }

  lemma NextZero(q: Queue, z: nat)
    requires AllZero(q, z) && z < |q| && q[z].delay == 0
    ensures AllZero(q, z + 1)
  {
  }

  lemma {:induction false} ZeroPrefixIs(q: Queue, z: nat)
    requires AllZero(q, z) && (z < |q| ==> q[z].delay != 0)
    ensures z == ZeroPrefix(q)
  {
    if z > 0 {
      ZeroPrefixIs(q[1..], z - 1);
    }
  }

  function Ticked(q: Queue): Queue
    requires q != [] ==> q[0].delay > 0
  {
    if q == [] then q else q[0 := q[0].(delay := q[0].delay - 1)]
  }

  /** Who one tick wakes, and who goes on sleeping. */
  function Woken(q: Queue): Queue
    requires q != [] ==> q[0].delay > 0
  {
    Ticked(q)[..ZeroPrefix(Ticked(q))]
  }

  function AfterTick(q: Queue): Queue
    requires q != [] ==> q[0].delay > 0
  {
    Ticked(q)[ZeroPrefix(Ticked(q))..]
  }

  lemma WokenAreFirst(q: Queue)
    requires q != [] && q[0].delay > 0
    ensures var z := ZeroPrefix(Ticked(q)); Woken(q) == Ticked(q)[..z] && AfterTick(q) == Ticked(q)[z..]
  {
  }

  lemma {:induction false} SumSplit(p: Queue, q: Queue, k: nat)
    requires k <= |q|
    ensures Sum(p + q, |p| + k) == Total(p) + Sum(q, k)
  {
    if p == [] {
      assert p + q == q;
    } else {
      assert (p + q)[1..] == p[1..] + q;
      SumSplit(p[1..], q, k);
    }
  }

  lemma {:induction false} SumPrefix(p: Queue, q: Queue, k: nat)
    requires k <= |p|
    ensures Sum(p + q, k) == Sum(p, k)
  {
    if k > 0 {
      assert (p + q)[1..] == p[1..] + q;
      SumPrefix(p[1..], q, k - 1);
    }
  }

  lemma SumStep(q: Queue, k: nat)
    requires k < |q|
    ensures Sum(q, k + 1) == Sum(q, k) + q[k].delay
  {
    assert q == q[..k] + q[k..];
    SumSplit(q[..k], q[k..], 0);
    SumSplit(q[..k], q[k..], 1);
  }

  lemma {:induction false} SumMonotone(q: Queue, j: nat, k: nat)
    requires j <= k <= |q|
    ensures Sum(q, j) <= Sum(q, k)
    decreases k
  {
    if j < k {
      SumStep(q, k - 1);
      SumMonotone(q, j, k - 1);
    }
  }

  /** Where the k-th sleeper is after another one has been put in. */
  function Moved(q: Queue, n: word, k: nat): nat {
    if q != [] && n <= q[0].delay then k + 1 else k
  }

  /** A sleep moves a sleeper, but not the tick at which it wakes. */
  lemma SleepKeepsSum(q: Queue, n: word, now: int, k: nat)
    requires n > 0 && Accepted(q, n) && k < |q|
    ensures var r, m := AfterSleep(q, n, now), Moved(q, n, k);
            m < |r| && r[m].due == q[k].due && Sum(r, m + 1) == Sum(q, k + 1)
  {
    var s, r := Sleeper(n, now + n), AfterSleep(q, n, now);
    if q != [] && n <= q[0].delay {
      var rest := r[1..];
      assert rest[1..] == q[1..];
      assert Sum(rest, k + 1) == (q[0].delay - n) + Sum(q[1..], k);
      assert Sum(r, k + 2) == n + Sum(rest, k + 1);
    } else {
      SumPrefix(q, [s], k + 1);
    }
  }

  lemma SleepKeepsGood(q: Queue, n: word, now: int)
    requires Good(q, now) && n > 0 && Accepted(q, n)
    ensures Good(AfterSleep(q, n, now), now)
  {
    var s, r := Sleeper(n, now + n), AfterSleep(q, n, now);
    var place := if q != [] && n <= q[0].delay then 0 else |q|;
    forall m | 0 <= m < |r|
      ensures r[m].due <= now + Sum(r, m + 1)
    {
      if m == place {
        NewSum(q, n, now);
      } else {
        var k := if m < place then m else m - 1;
        assert Moved(q, n, k) == m;
        SleepKeepsSum(q, n, now, k);
      }
    }
  }

  /** The delays up to the new sleeper's own add up to no less than its own. */
  lemma NewSum(q: Queue, n: word, now: int)
    requires n > 0 && Accepted(q, n)
    ensures var r, place := AfterSleep(q, n, now), if q != [] && n <= q[0].delay then 0 else |q|;
            r[place] == Sleeper(n, now + n) && Sum(r, place + 1) == (if place == 0 then 0 else Total(q)) + n
  {
    var s := Sleeper(n, now + n);
    if q == [] || n <= q[0].delay {
      assert Sum(AfterSleep(q, n, now), 1) == n;
    } else {
      SumSplit(q, [s], 1);
      assert Sum([s], 1) == n;
    }
  }

  lemma {:induction false} ZeroSum(q: Queue)
    requires forall s | s in q :: s.delay == 0
    ensures Total(q) == 0
  {
    if q != [] {
      ZeroSum(q[1..]);
    }
  }

  lemma TickedSum(q: Queue, k: nat)
    requires q != [] && q[0].delay > 0 && k < |q|
    ensures |Ticked(q)| == |q| && Ticked(q)[k].due == q[k].due
    ensures Sum(Ticked(q), k + 1) == Sum(q, k + 1) - 1
  {
    assert Ticked(q)[1..] == q[1..];
  }

  lemma TickParts(q: Queue)
    requires q != [] && q[0].delay > 0
    ensures Ticked(q) == Woken(q) + AfterTick(q) && Total(Woken(q)) == 0
    ensures AfterTick(q) != [] ==> AfterTick(q)[0].delay > 0
  {
    ZeroSum(Woken(q));
  }

  /** A tick leaves the delays up to each sleeper's own adding up to one less, and wakes those for
      whom that is nothing. */
  lemma TickLowersSum(q: Queue, now: int, k: nat)
    requires Good(q, now) && k < |q|
    ensures q[0].delay > 0
    ensures Sum(q, k + 1) > 0 && |Woken(q)| + |AfterTick(q)| == |q|
    ensures if k < |Woken(q)| then Sum(q, k + 1) == 1 && Woken(q)[k].due == q[k].due
            else
              var m := k - |Woken(q)|;
              AfterTick(q)[m].due == q[k].due && Sum(AfterTick(q), m + 1) == Sum(q, k + 1) - 1 > 0
  {
    assert q[0].delay > 0;
    hide *;
    TickedSum(q, k);
    TickParts(q);
    PartSums(Woken(q), AfterTick(q), k);
  }

  lemma PartSums(woken: Queue, rest: Queue, k: nat)
    requires k < |woken + rest| && Total(woken) == 0 && (rest != [] ==> rest[0].delay > 0)
    ensures if k < |woken| then Sum(woken + rest, k + 1) == 0
            else Sum(rest, k - |woken| + 1) == Sum(woken + rest, k + 1) > 0
  {
    if k < |woken| {
      SumPrefix(woken, rest, k + 1);
      SumMonotone(woken, k + 1, |woken|);
    } else {
      SumSplit(woken, rest, k - |woken| + 1);
      SumMonotone(rest, 1, k - |woken| + 1);
      assert Sum(rest, 1) == rest[0].delay;
    }
  }

  lemma TickKeepsGood(q: Queue, now: int)
    requires Good(q, now)
    ensures Good(AfterTick(q), now + 1)
    ensures forall w | w in Woken(q) :: w.due <= now + 1
  {
    if q != [] {
      var woken, rest := Woken(q), AfterTick(q);
      if rest != [] {
        FirstIsLeft(q);
      }
      assert |woken| + |rest| == |q| by {
        TickLowersSum(q, now, 0);
      }
      hide Woken, AfterTick, Sum;
      forall k | 0 <= k < |woken|
        ensures woken[k].due <= now + 1
      {
        TickLowersSum(q, now, k);
      }
      forall k | 0 <= k < |rest|
        ensures rest[k].due <= now + 1 + Sum(rest, k + 1)
      {
        TickLowersSum(q, now, |woken| + k);
      }
    }
  }

  lemma FirstIsLeft(q: Queue)
    requires q != [] && q[0].delay > 0 && AfterTick(q) != []
    ensures AfterTick(q)[0].delay > 0
  {
  }

  // ---- the search for the place of a new sleeper ----

  /** k delays have been subtracted from n, and left is what remains. */
  ghost predicate Searching(q: Queue, n: word, k: nat, left: word) {
    && k <= |q| && Sum(q, k) + left == n
    && (k > 0 ==> left > 0 && n > q[0].delay && NonNegative(n - q[0].delay))
  }

  lemma SearchStarts(q: Queue, n: word)
    ensures Searching(q, n, 0, n)
  {
  }

  lemma SearchStep(q: Queue, n: word, k: nat, left: word)
    requires Searching(q, n, k, left) && k < |q| && left > q[k].delay
    ensures if NonNegative(left - q[k].delay) then Searching(q, n, k + 1, left - q[k].delay) else !Accepted(q, n)
  {
    SumStep(q, k);
    SumMonotone(q, 1, k + 1);
  }

  /** Where the search ends decides whether the sleep is carried out. */
  lemma SearchDecides(q: Queue, n: word, k: nat, left: word)
    requires Searching(q, n, k, left) && q != [] && (k < |q| ==> left <= q[k].delay)
    ensures k == 0 ==> left == n && (Accepted(q, n) <==> NonNegative(q[0].delay - n))
    ensures 0 < k < |q| ==> !Accepted(q, n)
    ensures k == |q| ==> Accepted(q, n) && n > q[0].delay
  {
    SumMonotone(q, 1, |q|);
    if k < |q| {
      SumStep(q, k);
      SumMonotone(q, k + 1, |q|);
    }
  }

  // ---- whole runs ----

  datatype Event = Tick | Sleep(n: word)

  datatype Wakeup = Wakeup(who: Sleeper, at: int)

  /** Every Sleep of the run is one that TaskOpSleep carries out. */
  ghost predicate Runs(q: Queue, now: int, events: seq<Event>)
    requires Good(q, now)
    decreases |events|
  {
    if events == [] then true
    else match events[0]
      case Tick => TickKeepsGood(q, now); Runs(AfterTick(q), now + 1, events[1..])
      case Sleep(n) =>
        n > 0 && Accepted(q, n) && (SleepKeepsGood(q, n, now); Runs(AfterSleep(q, n, now), now, events[1..]))
  }

  ghost function Wakeups(q: Queue, now: int, events: seq<Event>): seq<Wakeup>
    requires Good(q, now) && Runs(q, now, events)
    decreases |events|
  {
    if events == [] then []
    else match events[0]
      case Tick =>
        TickKeepsGood(q, now);
        Wakes(Woken(q), now + 1) + Wakeups(AfterTick(q), now + 1, events[1..])
      case Sleep(n) =>
        SleepKeepsGood(q, n, now);
        Wakeups(AfterSleep(q, n, now), now, events[1..])
  }

  /** Whatever other sleeps and ticks happen, no task wakes before the ticks it asked for are over. */
  lemma {:induction false} NobodyWakesEarly(q: Queue, now: int, events: seq<Event>)
    requires Good(q, now) && Runs(q, now, events)
    ensures forall w | w in Wakeups(q, now, events) :: w.at >= w.who.due
    decreases |events|
  {
    if events != [] {
      match events[0]
      case Tick =>
        TickKeepsGood(q, now);
        NobodyWakesEarly(AfterTick(q), now + 1, events[1..]);
        var woken := Wakes(Woken(q), now + 1);
        assert Wakeups(q, now, events) == woken + Wakeups(AfterTick(q), now + 1, events[1..]);
        assert forall w | w in woken :: w.who in Woken(q);
      case Sleep(n) =>
        SleepKeepsGood(q, n, now);
        NobodyWakesEarly(AfterSleep(q, n, now), now, events[1..]);
    }
  }

  // ---- when each sleeper wakes ----

  /** When the run wakes the sleeper that is the k-th now, if it does. */
  ghost function WakeTime(q: Queue, now: int, events: seq<Event>, k: nat): Option<int>
    requires Good(q, now) && Runs(q, now, events) && k < |q|
    decreases |events|
  {
    if events == [] then None
    else match events[0]
      case Tick =>
        TickKeepsGood(q, now);
        if k < |Woken(q)| then Some(now + 1)
        else WakeTime(AfterTick(q), now + 1, events[1..], k - |Woken(q)|)
      case Sleep(n) =>
        SleepKeepsGood(q, n, now);
        WakeTime(AfterSleep(q, n, now), now, events[1..], Moved(q, n, k))
  }

  function Ticks(events: seq<Event>): nat {
    if events == [] then 0 else Ticks(events[1..]) + if events[0].Tick? then 1 else 0
  }

  /** The first event of a run, and what is left of it. */
  lemma TickUnfolds(q: Queue, now: int, events: seq<Event>, k: nat)
    requires Good(q, now) && Runs(q, now, events) && k < |q| && events != [] && events[0] == Tick
    ensures q[0].delay > 0
    ensures |Woken(q)| + |AfterTick(q)| == |q| && Good(AfterTick(q), now + 1) && Runs(AfterTick(q), now + 1, events[1..])
    ensures WakeTime(q, now, events, k)
            == if k < |Woken(q)| then Some(now + 1) else WakeTime(AfterTick(q), now + 1, events[1..], k - |Woken(q)|)
    ensures Ticks(events) == Ticks(events[1..]) + 1
  {
    TickKeepsGood(q, now);
    TickLowersSum(q, now, k);
  }

  lemma SleepUnfolds(q: Queue, now: int, events: seq<Event>, k: nat)
    requires Good(q, now) && Runs(q, now, events) && k < |q| && events != [] && events[0].Sleep?
    ensures var n := events[0].n;
            && n > 0 && Accepted(q, n)
            && Good(AfterSleep(q, n, now), now) && Runs(AfterSleep(q, n, now), now, events[1..])
            && Moved(q, n, k) < |AfterSleep(q, n, now)|
            && WakeTime(q, now, events, k) == WakeTime(AfterSleep(q, n, now), now, events[1..], Moved(q, n, k))
    ensures Ticks(events) == Ticks(events[1..])
  {
    SleepKeepsGood(q, events[0].n, now);
  }

  lemma NoEvents(q: Queue, now: int, k: nat)
    requires Good(q, now) && Runs(q, now, []) && k < |q|
    ensures WakeTime(q, now, [], k) == None && Ticks([]) == 0
  {
  }

  /** Whatever other sleeps are put in, a sleeper is woken once as many ticks have passed as the
      delays up to its own add up to now, and at no other time. */
  lemma {:induction false} WakesAtSum(q: Queue, now: int, events: seq<Event>, k: nat)
    requires Good(q, now) && Runs(q, now, events) && k < |q|
    ensures WakeTime(q, now, events, k) == if Ticks(events) >= Sum(q, k + 1) then Some(now + Sum(q, k + 1)) else None
    decreases |events|
  {
    hide *;
    TickLowersSum(q, now, k);
    if events == [] {
      NoEvents(q, now, k);
    } else if events[0].Tick? {
      TickUnfolds(q, now, events, k);
      if k >= |Woken(q)| {
        WakesAtSum(AfterTick(q), now + 1, events[1..], k - |Woken(q)|);
      }
    } else {
      var n := events[0].n;
      SleepUnfolds(q, now, events, k);
      SleepKeepsSum(q, n, now, k);
      WakesAtSum(AfterSleep(q, n, now), now, events[1..], Moved(q, n, k));
    }
  }

  /** Some wake-up of the run is that of a sleeper due at the tick, and happens at the time. */
  ghost predicate Happens(all: seq<Wakeup>, due: int, at: int) {
    exists i | 0 <= i < |all| :: all[i].who.due == due && all[i].at == at
  }

  lemma HappensLater(some: seq<Wakeup>, rest: seq<Wakeup>, due: int, at: int)
    requires Happens(some, due, at) || Happens(rest, due, at)
    ensures Happens(some + rest, due, at)
  {
    var all := some + rest;
    if Happens(some, due, at) {
      var i :| 0 <= i < |some| && some[i].who.due == due && some[i].at == at;
      assert all[i] == some[i];
    } else {
      var i :| 0 <= i < |rest| && rest[i].who.due == due && rest[i].at == at;
      assert all[|some| + i] == rest[i];
    }
  }

  function Wakes(q: Queue, at: int): seq<Wakeup> {
    seq(|q|, i requires 0 <= i < |q| => Wakeup(q[i], at))
  }

  /** That is one of the wake-ups of the run. */
  lemma {:induction false} WakeTimeIsWakeup(q: Queue, now: int, events: seq<Event>, k: nat)
    requires Good(q, now) && Runs(q, now, events) && k < |q| && WakeTime(q, now, events, k).Some?
    ensures Happens(Wakeups(q, now, events), q[k].due, WakeTime(q, now, events, k).value)
    decreases |events|
  {
    if events[0].Tick? {
      TickLowersSum(q, now, k);
      TickUnfolds(q, now, events, k);
      assert Wakeups(q, now, events) == Wakes(Woken(q), now + 1) + Wakeups(AfterTick(q), now + 1, events[1..]);
      assert k < |Woken(q)| ==> Wakes(Woken(q), now + 1)[k] == Wakeup(Woken(q)[k], now + 1);
      hide Good, Runs, AfterTick, Woken, Sum, WakeTime, Wakeups;
      if k >= |Woken(q)| {
        WakeTimeIsWakeup(AfterTick(q), now + 1, events[1..], k - |Woken(q)|);
      }
      HappensLater(Wakes(Woken(q), now + 1), Wakeups(AfterTick(q), now + 1, events[1..]), q[k].due,
                   WakeTime(q, now, events, k).value);
    } else {
      var n := events[0].n;
      SleepUnfolds(q, now, events, k);
      SleepKeepsSum(q, n, now, k);
      assert Wakeups(q, now, events) == Wakeups(AfterSleep(q, n, now), now, events[1..]);
      hide *;
      WakeTimeIsWakeup(AfterSleep(q, n, now), now, events[1..], Moved(q, n, k));
    }
  }

  /** In every run that wakes it, whatever other sleeps are put in meanwhile, a sleeper wakes exactly
      on time if and only if it was put first: the full delay, not the remainder that was worked
      out, is what stays in the saved registers. One that was put last is late by all the delays
      that were there. */
  lemma OnTimeIffFirst(q: Queue, n: word, now: int, events: seq<Event>)
    requires Good(q, now) && n > 0 && Accepted(q, n)
    requires Good(AfterSleep(q, n, now), now) && Runs(AfterSleep(q, n, now), now, events)
    ensures var r := AfterSleep(q, n, now);
            var first := q == [] || n <= q[0].delay;
            var k := if first then 0 else |q|;
            && k < |r| && r[k] == Sleeper(n, now + n)
            && var at := WakeTime(r, now, events, k);
               at.Some? ==>
                 && (at.value == now + n <==> first) && at.value == now + n + (if first then 0 else Total(q))
                 && Happens(Wakeups(r, now, events), now + n, at.value)
  {
    var r := AfterSleep(q, n, now);
    var k := if q == [] || n <= q[0].delay then 0 else |q|;
    NewSum(q, n, now);
    TotalPositive(q, now);
    WakesAtSum(r, now, events, k);
    if WakeTime(r, now, events, k).Some? {
      WakeTimeIsWakeup(r, now, events, k);
    }
  }

  lemma TotalPositive(q: Queue, now: int)
    requires Good(q, now)
    ensures q != [] ==> Total(q) > 0
  {
    if q != [] {
      TickLowersSum(q, now, |q| - 1);
    }
  }
}
