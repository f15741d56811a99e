/** claim_lock and release_lock (processor/ARMv6/processor.c), instruction by instruction, on any
    number of cores: section 7.2 of PRD03-GENC-007826, with the exclusive accesses of section A3.4
    of ARM DDI 0406C and the event registers behind WFE and SEV. */
module SpinLock {

  /** The instruction that a core is about to execute; value is what it has loaded. */
  datatype Place =
    | Outside               // not in claim_lock or release_lock
    | Ldrex
    | Strex
    | Clrex(value: nat)
    | Wfe(value: nat)
    | Asleep(value: nat)    // in the wfe
    | Compare(value: nat)   // is the core the owner already?
    | Clear                 // the store of release_lock
    | Sev

  /** sections holds, for each section that the core has entered and not left, what claim_lock
      returned, innermost last. */
  datatype Core = Core(place: Place, exclusive: bool, event: bool, sections: seq<bool>)

  /** The lock is 0, or the number of its owner plus one. */
  datatype State = State(lock: nat, cores: seq<Core>)

  /** Sections are entered by `reclaimed = claim_lock( &lock )` and left by
      `if (!reclaimed) release_lock( &lock )`. An exclusive store may fail even if the monitor is
      set: lucky says that it does not. Jolt is an event for another reason. */
  datatype Event = Enter(c: nat) | Leave(c: nat) | Act(c: nat, lucky: bool) | Jolt(c: nat)

  predicate Enabled(s: State, e: Event) {
    && e.c < |s.cores|
    && var core := s.cores[e.c];
       match e
       case Enter(_) => core.place == Outside
       case Leave(_) => core.place == Outside && core.sections != []
       case Act(_, _) => core.place != Outside && (core.place.Asleep? ==> core.event)
       case Jolt(_) => true
  }

  function With(s: State, c: nat, core: Core): State
    requires c < |s.cores|
  {
    s.(cores := s.cores[c := core])
  }

  /** A store by one core takes the lock away from the monitors of the others. */
  function Unmark(cores: seq<Core>): seq<Core> {
    seq(|cores|, d requires 0 <= d < |cores| => cores[d].(exclusive := false))
  }

  function Wake(cores: seq<Core>): seq<Core> {
    seq(|cores|, d requires 0 <= d < |cores| => cores[d].(event := true))
  }

  function Next(s: State, e: Event): (n: State)
    requires Enabled(s, e)
    ensures |n.cores| == |s.cores|
  {
    var c, core := e.c, s.cores[e.c];
    match e
    case Enter(_) => With(s, c, core.(place := Ldrex))
    case Leave(_) =>
      var last := |core.sections| - 1;
      With(s, c, core.(place := if core.sections[last] then Outside else Clear, sections := core.sections[..last]))
    case Jolt(_) => With(s, c, core.(event := true))
    case Act(_, lucky) =>
      match core.place
      case Ldrex => With(s, c, core.(place := if s.lock == 0 then Strex else Clrex(s.lock), exclusive := true))
      case Strex =>
        if core.exclusive && lucky
        then State(c + 1, Unmark(s.cores)[c := core.(place := Outside, exclusive := false, sections := core.sections + [false])])
        else With(s, c, core.(place := Ldrex, exclusive := false))
      case Clrex(value) => With(s, c, core.(place := Wfe(value), exclusive := false))
      case Wfe(value) =>
        With(s, c, if core.event then core.(place := Compare(value), event := false) else core.(place := Asleep(value)))
      case Asleep(value) => With(s, c, core.(place := Compare(value), event := false))
      case Compare(value) =>
        With(s, c, if value == c + 1 then core.(place := Outside, sections := core.sections + [true]) else core.(place := Ldrex))
      case Clear => State(0, Unmark(s.cores)[c := core.(place := Sev)])
      case Sev => s.(cores := Wake(s.cores)[c := core.(place := Outside, event := true)])
  }

  // ---- what every step keeps ----

  predicate Owns(s: State, c: nat) {
    s.lock == c + 1
  }

  /** The place has a value loaded from a lock that was taken. */
  predicate Loaded(p: Place) {
    p.Clrex? || p.Wfe? || p.Asleep? || p.Compare?
  }

  /** Only the outermost section has claimed the lock. */
  predicate Nested(sections: seq<bool>) {
    forall i | 0 <= i < |sections| :: sections[i] == (i > 0)
  }

  predicate CoreOk(lock: nat, c: nat, core: Core) {
    && Nested(core.sections)
    && (lock == c + 1 <==> core.sections != [] || core.place == Clear)
    && (core.place == Clear || core.place == Sev ==> core.sections == [])
    && (core.place == Strex ==> core.sections == [] && (core.exclusive ==> lock == 0))
    && (Loaded(core.place) ==> core.place.value > 0 && (core.place.value == c + 1 <==> core.sections != []))
  }

  /** The core has seen the lock taken, and no event has reached it since. */
  predicate MaySleep(core: Core) {
    (core.place.Clrex? || core.place.Wfe? || core.place.Asleep?) && !core.event
  }

  predicate SomeoneAtSev(s: State) {
    exists d | 0 <= d < |s.cores| :: s.cores[d].place == Sev
  }

  predicate Inv(s: State) {
    && s.lock <= |s.cores|
    && (forall c | 0 <= c < |s.cores| :: CoreOk(s.lock, c, s.cores[c]))
    && (forall c | 0 <= c < |s.cores| && MaySleep(s.cores[c]) :: s.lock > 0 || SomeoneAtSev(s))
  }

  lemma ActorStaysOk(s: State, e: Event)
    requires Enabled(s, e) && s.lock <= |s.cores| && CoreOk(s.lock, e.c, s.cores[e.c])
    ensures Next(s, e).lock <= |s.cores| && CoreOk(Next(s, e).lock, e.c, Next(s, e).cores[e.c])
  {
  }

  lemma OthersStayOk(s: State, e: Event, d: nat)
    requires Enabled(s, e) && d < |s.cores| && d != e.c
    requires CoreOk(s.lock, e.c, s.cores[e.c]) && CoreOk(s.lock, d, s.cores[d])
    ensures CoreOk(Next(s, e).lock, d, Next(s, e).cores[d])
  {
  }

  /** No event is lost between the load and the wfe. */
  lemma WaitersStayOk(s: State, e: Event, d: nat)
    requires Inv(s) && Enabled(s, e) && d < |s.cores| && MaySleep(Next(s, e).cores[d])
    ensures Next(s, e).lock > 0 || SomeoneAtSev(Next(s, e))
  {
    var n := Next(s, e);
    assert CoreOk(s.lock, e.c, s.cores[e.c]);
    if n.lock == 0 && s.lock > 0 {
      assert n.cores[e.c].place == Sev;
    } else if n.lock == 0 && MaySleep(s.cores[d]) {
      var b :| 0 <= b < |s.cores| && s.cores[b].place == Sev;
      assert n.cores[b].place == Sev;
    }
  }

  lemma NextKeepsInv(s: State, e: Event)
    requires Inv(s) && Enabled(s, e)
    ensures Inv(Next(s, e))
  {
    hide Next, CoreOk, MaySleep, SomeoneAtSev;
    var n := Next(s, e);
    ActorStaysOk(s, e);
    forall d | 0 <= d < |n.cores|
      ensures CoreOk(n.lock, d, n.cores[d])
    {
      if d != e.c {
        OthersStayOk(s, e, d);
      }
    }
    forall d | 0 <= d < |n.cores| && MaySleep(n.cores[d])
      ensures n.lock > 0 || SomeoneAtSev(n)
    {
      WaitersStayOk(s, e, d);
    }
  }

  /** How the sections follow the claims: one more, innermost, with what claim_lock has returned, when the
      core comes out of it; one less when the core leaves; and no other change. */
  lemma SectionsFollow(s: State, e: Event, d: nat)
    requires Inv(s) && Enabled(s, e) && d < |s.cores|
    ensures var before, after := s.cores[d], Next(s, e).cores[d];
            && (d != e.c ==> after.sections == before.sections && after.place == before.place)
            && (d == e.c && before.place != Outside && after.place == Outside && before.place != Sev ==>
                  after.sections == before.sections + [Owns(s, d)])
            && (e == Leave(d) ==> after.sections == before.sections[..|before.sections| - 1])
            && (d == e.c && !e.Leave? && (after.place != Outside || before.place == Outside || before.place == Sev) ==>
                  after.sections == before.sections)
  {
    assert CoreOk(s.lock, e.c, s.cores[e.c]);
  }

  /** The step is a store to the lock that does not fail. */
  predicate Stores(s: State, e: Event)
    requires Enabled(s, e)
  {
    s.cores[e.c].place == Clear || (s.cores[e.c].place == Strex && Next(s, e).cores[e.c].place == Outside)
  }

  /** The monitor is set by an exclusive load, and cleared by clrex, by an exclusive store, whether or not
      it fails, and by the store of another core. */
  lemma MonitorFollows(s: State, e: Event, d: nat)
    requires Enabled(s, e) && d < |s.cores|
    ensures var before, after := s.cores[d], Next(s, e).cores[d];
            if e.Act? && e.c == d && before.place == Ldrex then after.exclusive
            else if e.Act? && e.c == d && (before.place == Strex || before.place.Clrex?) then !after.exclusive
            else if e.Act? && e.c != d && Stores(s, e) then !after.exclusive
            else after.exclusive == before.exclusive
  {
  }

  /** An event register is set by the sev of any core, and by events from outside; it is cleared when a
      wfe gets past it. */
  lemma EventRegisterFollows(s: State, e: Event, d: nat)
    requires Enabled(s, e) && d < |s.cores|
    ensures var before, after := s.cores[d], Next(s, e).cores[d];
            if e == Jolt(d) || (e.Act? && s.cores[e.c].place == Sev) then after.event
            else if e.Act? && e.c == d && (before.place.Wfe? || before.place.Asleep?) then !after.event
            else after.event == before.event
  {
  }

  /** An event from outside wakes a core that sleeps, and does nothing else. */
  lemma JoltWakes(s: State, c: nat)
    requires c < |s.cores|
    ensures Next(s, Jolt(c)) == With(s, c, s.cores[c].(event := true))
    ensures s.cores[c].place.Asleep? ==>
              Enabled(Next(s, Jolt(c)), Act(c, true)) && !Next(Next(s, Jolt(c)), Act(c, true)).cores[c].place.Asleep?
  {
  }

  // ---- runs ----

  /** The lock is free, or has been given to a core, which may be inside one section: this is how
      the boot lock starts. The event registers are in any state. */
  predicate Initial(s: State) {
    && s.lock <= |s.cores|
    && forall c | 0 <= c < |s.cores| ::
         s.cores[c].place == Outside && s.cores[c].sections == if s.lock == c + 1 then [false] else []
  }

  ghost predicate Reaches(s: State, events: seq<Event>, r: State)
    decreases |events|
  {
    if events == [] then s == r else Enabled(s, events[0]) && Reaches(Next(s, events[0]), events[1..], r)
  }

  lemma {:induction false} RunKeepsInv(s: State, events: seq<Event>, r: State)
    requires Inv(s) && Reaches(s, events, r)
    ensures Inv(r)
    decreases |events|
  {
    if events != [] {
      NextKeepsInv(s, events[0]);
      RunKeepsInv(Next(s, events[0]), events[1..], r);
    }
  }

  /** At most one core is in a section, in every run. */
  lemma MutualExclusion(s: State, events: seq<Event>, r: State, c: nat, d: nat)
    requires Initial(s) && Reaches(s, events, r)
    requires c < |r.cores| && d < |r.cores| && r.cores[c].sections != [] && r.cores[d].sections != []
    ensures c == d
  {
    RunKeepsInv(s, events, r);
    assert CoreOk(r.lock, c, r.cores[c]) && CoreOk(r.lock, d, r.cores[d]);
  }

  /** claim_lock returns, when it does, true if and only if the core owned the lock already; and
      then the core does own it. */
  lemma ReclaimedIffOwner(s: State, events: seq<Event>, r: State, e: Event)
    requires Initial(s) && Reaches(s, events, r) && Enabled(r, e)
    requires |Next(r, e).cores[e.c].sections| > |r.cores[e.c].sections|
    ensures Next(r, e).cores[e.c].sections == r.cores[e.c].sections + [Owns(r, e.c)]
    ensures Owns(Next(r, e), e.c) && (!Owns(r, e.c) ==> r.lock == 0)
  {
    RunKeepsInv(s, events, r);
    ClaimReturns(r, e);
  }

  lemma ClaimReturns(s: State, e: Event)
    requires Enabled(s, e) && CoreOk(s.lock, e.c, s.cores[e.c])
    requires |Next(s, e).cores[e.c].sections| > |s.cores[e.c].sections|
    ensures Next(s, e).cores[e.c].sections == s.cores[e.c].sections + [Owns(s, e.c)]
    ensures Owns(Next(s, e), e.c) && (!Owns(s, e.c) ==> s.lock == 0)
  {
  }

  /** The lock is freed only by its owner, when it is in no section any more. */
  lemma FreedAtOutermost(s: State, events: seq<Event>, r: State, e: Event)
    requires Initial(s) && Reaches(s, events, r) && Enabled(r, e)
    requires Next(r, e).lock != r.lock && r.lock > 0
    ensures Next(r, e).lock == 0 && Owns(r, e.c) && r.cores[e.c].sections == []
  {
    RunKeepsInv(s, events, r);
    assert CoreOk(r.lock, e.c, r.cores[e.c]);
  }

  /** A section that is left hands the lock over if and only if it is the outermost. */
  lemma LeavingReleasesIffOutermost(s: State, events: seq<Event>, r: State, c: nat)
    requires Initial(s) && Reaches(s, events, r) && Enabled(r, Leave(c))
    ensures Next(r, Leave(c)).cores[c].place == Clear <==> |r.cores[c].sections| == 1
  {
    RunKeepsInv(s, events, r);
    assert CoreOk(r.lock, c, r.cores[c]);
  }

  /** A core that sleeps, and that no event is waiting for, does so while another core has the lock
      or is about to send an event; or it has itself the lock that it is claiming. */
  lemma SleepsForAReason(s: State, events: seq<Event>, r: State, c: nat)
    requires Initial(s) && Reaches(s, events, r)
    requires c < |r.cores| && r.cores[c].place.Asleep? && !r.cores[c].event
    ensures Owns(r, c) || (exists d | 0 <= d < |r.cores| && d != c :: Owns(r, d)) || SomeoneAtSev(r)
    ensures Owns(r, c) <==> r.cores[c].sections != []
  {
    RunKeepsInv(s, events, r);
    assert CoreOk(r.lock, c, r.cores[c]) && MaySleep(r.cores[c]);
    if r.lock > 0 && r.lock != c + 1 {
      assert Owns(r, r.lock - 1);
    }
  }

  function SecondClaim(c: nat): seq<Event> {
    [Enter(c), Act(c, true), Act(c, true), Act(c, true)]
  }

  /** Where a core is that claims a lock it owns, past the wfe or in it. */
  function Claiming(core: Core, c: nat): Core {
    core.(place := if core.event then Compare(c + 1) else Asleep(c + 1), exclusive := false, event := false)
  }

  /** The wfe comes before the test for the core's own number: a core that claims the lock a second
      time goes to sleep if its event register is clear, and goes on if it is set. */
  lemma ReclaimSleepsIffNoEvent(s: State, c: nat)
    requires c < |s.cores| && Owns(s, c) && s.cores[c].place == Outside
    ensures Reaches(s, SecondClaim(c), With(s, c, Claiming(s.cores[c], c)))
  {
    var claim, r := SecondClaim(c), With(s, c, Claiming(s.cores[c], c));
    var loads := Next(s, claim[0]);
    var clears := Next(loads, claim[1]);
    var waits := Next(clears, claim[2]);
    assert Next(waits, claim[3]) == r;
    assert Reaches(waits, [claim[3]], r) && claim[2..][1..] == [claim[3]];
    assert Reaches(clears, claim[2..], r) && claim[1..][1..] == claim[2..];
    assert Reaches(loads, claim[1..], r);
  }

  /** The core claims its own lock, is at the wfe or sleeps in it, and no event is on its way. */
  predicate Stuck(s: State, c: nat) {
    && c < |s.cores| && Owns(s, c)
    && (s.cores[c].place == Wfe(c + 1) || s.cores[c].place == Asleep(c + 1)) && !s.cores[c].event
    && !SomeoneAtSev(s)
  }

  /** Nothing but the cores of the protocol sends core c an event. */
  predicate Undisturbed(events: seq<Event>, c: nat) {
    Jolt(c) !in events
  }

  lemma NextStaysStuck(s: State, c: nat, e: Event)
    requires Inv(s) && Stuck(s, c) && Enabled(s, e) && e != Jolt(c)
    ensures Stuck(Next(s, e), c)
  {
    var n := Next(s, e);
    assert CoreOk(s.lock, e.c, s.cores[e.c]) && CoreOk(s.lock, c, s.cores[c]);
    assert s.cores[e.c].place != Sev && s.cores[e.c].place != Clear;
    forall d | 0 <= d < |n.cores|
      ensures n.cores[d].place != Sev
    {
      assert s.cores[d].place != Sev;
    }
  }

  lemma {:induction false} RunStaysStuck(s: State, c: nat, events: seq<Event>, r: State)
    requires Inv(s) && Stuck(s, c) && Reaches(s, events, r) && Undisturbed(events, c)
    ensures Stuck(r, c)
    decreases |events|
  {
    if events != [] {
      NextStaysStuck(s, c, events[0]);
      NextKeepsInv(s, events[0]);
      assert Undisturbed(events[1..], c);
      RunStaysStuck(Next(s, events[0]), c, events[1..], r);
    }
  }

  /** Some run of the protocol's own steps brings the claim back to its caller. */
  ghost predicate CanReturn(s: State, c: nat) {
    exists events, r :: Reaches(s, events, r) && Undisturbed(events, c) && Returned(r, c)
  }

  predicate Returned(r: State, c: nat) {
    c < |r.cores| && r.cores[c].place == Outside
  }

  lemma ReachesOneMore(s: State, events: seq<Event>, m: State, e: Event)
    requires Reaches(s, events, m) && Enabled(m, e)
    ensures Reaches(s, events + [e], Next(m, e))
    decreases |events|
  {
    if events == [] {
      assert Reaches(Next(m, e), [], Next(m, e)) && [e][1..] == [];
    } else {
      assert (events + [e])[1..] == events[1..] + [e];
      ReachesOneMore(Next(s, events[0]), events[1..], m, e);
    }
  }

  lemma EventIsEnough(s: State, c: nat)
    requires Inv(s) && c < |s.cores| && Owns(s, c) && s.cores[c].place == Wfe(c + 1) && s.cores[c].event
    ensures CanReturn(s, c)
  {
    var e := Act(c, true);
    var a := Next(s, e);
    assert Reaches(s, [], s) && [] + [e] == [e];
    ReachesOneMore(s, [], s, e);
    ReachesOneMore(s, [e], a, e);
    assert [e] + [e] == [e, e] && Returned(Next(a, e), c) && Undisturbed([e, e], c);
  }

  lemma SevIsEnough(s: State, c: nat, d: nat)
    requires Inv(s) && c < |s.cores| && Owns(s, c) && s.cores[c].place == Wfe(c + 1)
    requires d < |s.cores| && s.cores[d].place == Sev
    ensures CanReturn(s, c)
  {
    var e := Act(d, true);
    NextKeepsInv(s, e);
    EventIsEnough(Next(s, e), c);
    var events, r :| Reaches(Next(s, e), events, r) && Undisturbed(events, c) && Returned(r, c);
    assert ([e] + events)[1..] == events;
    assert Reaches(s, [e] + events, r) && Undisturbed([e] + events, c);
  }

  /** With any number of cores, and without outside events, a nested claim that has got to the wfe
      returns if and only if the core's event register is set or another core is about to set it. */
  lemma ReclaimReturnsIff(s: State, c: nat)
    requires Inv(s) && c < |s.cores| && Owns(s, c) && s.cores[c].place == Wfe(c + 1)
    ensures CanReturn(s, c) <==> s.cores[c].event || SomeoneAtSev(s)
  {
    if s.cores[c].event {
      EventIsEnough(s, c);
    } else if SomeoneAtSev(s) {
      var d :| 0 <= d < |s.cores| && s.cores[d].place == Sev;
      SevIsEnough(s, c, d);
    } else if CanReturn(s, c) {
      var events, r :| Reaches(s, events, r) && Undisturbed(events, c) && Returned(r, c);
      RunStaysStuck(s, c, events, r);
      assert false;
    }
  }

  /** Whatever the other cores do, such a claim is stuck for good. */
  lemma ReclaimIsStuck(s: State, c: nat, events: seq<Event>, r: State)
    requires Inv(s) && c < |s.cores| && Owns(s, c) && s.cores[c].place == Outside
    requires !s.cores[c].event && !SomeoneAtSev(s)
    requires Undisturbed(events, c) && Reaches(With(s, c, Claiming(s.cores[c], c)), events, r)
    ensures Reaches(s, SecondClaim(c), With(s, c, Claiming(s.cores[c], c)))
    ensures Stuck(r, c)
  {
    var m := With(s, c, Claiming(s.cores[c], c));
    ReclaimSleepsIffNoEvent(s, c);
    RunKeepsInv(s, SecondClaim(c), m);
    assert forall d | 0 <= d < |m.cores| :: m.cores[d].place == Sev ==> s.cores[d].place == Sev;
    RunStaysStuck(m, c, events, r);
  }

  // ---- the lock can be had ----

  lemma ReachesByThree(s: State, e1: Event, e2: Event, e3: Event)
    requires Enabled(s, e1) && Enabled(Next(s, e1), e2) && Enabled(Next(Next(s, e1), e2), e3)
    ensures Reaches(s, [e1, e2, e3], Next(Next(Next(s, e1), e2), e3))
  {
    hide Enabled, Next;
    assert [e1, e2, e3][1..] == [e2, e3] && [e2, e3][1..] == [e3];
    ReachesOneMore(Next(Next(s, e1), e2), [], Next(Next(s, e1), e2), e3);
    assert [] + [e3] == [e3];
  }

  /** A free lock is had at the first try, unless the exclusive store fails. */
  lemma FreeLockIsClaimed(s: State, c: nat)
    requires s.lock == 0 && c < |s.cores| && s.cores[c].place == Outside
    ensures exists r :: Reaches(s, [Enter(c), Act(c, true), Act(c, true)], r) && |r.cores| == |s.cores|
                        && Owns(r, c) && r.cores[c].place == Outside
                        && r.cores[c].sections == s.cores[c].sections + [false]
  {
    var a := Next(s, Enter(c));
    var b := Next(a, Act(c, true));
    var r := Next(b, Act(c, true));
    ReachesByThree(s, Enter(c), Act(c, true), Act(c, true));
  }

  lemma LeaveBegins(s: State, c: nat)
    requires c < |s.cores| && s.cores[c].place == Outside && s.cores[c].sections == [false]
    ensures Enabled(s, Leave(c)) && Next(s, Leave(c)).cores[c].place == Clear && Next(s, Leave(c)).cores[c].sections == []
    ensures forall d | 0 <= d < |s.cores| && d != c :: Next(s, Leave(c)).cores[d].place == s.cores[d].place
  {
  }

  lemma ClearFrees(s: State, c: nat)
    requires c < |s.cores| && s.cores[c].place == Clear
    ensures Enabled(s, Act(c, true)) && Next(s, Act(c, true)).lock == 0 && Next(s, Act(c, true)).cores[c].place == Sev
    ensures Next(s, Act(c, true)).cores[c].sections == s.cores[c].sections
    ensures forall d | 0 <= d < |s.cores| && d != c :: Next(s, Act(c, true)).cores[d].place == s.cores[d].place
  {
  }

  lemma SevWakesAll(s: State, c: nat)
    requires c < |s.cores| && s.cores[c].place == Sev
    ensures Enabled(s, Act(c, true)) && Next(s, Act(c, true)).lock == s.lock
    ensures Next(s, Act(c, true)).cores[c] == s.cores[c].(place := Outside, event := true)
    ensures forall d | 0 <= d < |s.cores| ::
              Next(s, Act(c, true)).cores[d].event && (d != c ==> Next(s, Act(c, true)).cores[d].place == s.cores[d].place)
  {
  }

  /** Leaving the outermost section frees the lock and wakes every core that sleeps, and ends. */
  lemma LeavingWakesAll(s: State, c: nat)
    requires c < |s.cores| && s.cores[c].place == Outside && s.cores[c].sections == [false]
    ensures exists r :: Reaches(s, [Leave(c), Act(c, true), Act(c, true)], r) && |r.cores| == |s.cores| && r.lock == 0
                        && r.cores[c].place == Outside && r.cores[c].sections == []
                        && forall d | 0 <= d < |r.cores| ::
                             r.cores[d].event && (d != c ==> r.cores[d].place == s.cores[d].place)
  {
    hide *;
    LeaveBegins(s, c);
    var a := Next(s, Leave(c));
    ClearFrees(a, c);
    var b := Next(a, Act(c, true));
    SevWakesAll(b, c);
    ReachesByThree(s, Leave(c), Act(c, true), Act(c, true));
    assert Next(b, Act(c, true)).lock == 0 && Next(b, Act(c, true)).cores[c].sections == [];
  }

  /** The core is anywhere in claim_lock. */
  predicate Claims(p: Place) {
    p != Outside && p != Clear && p != Sev
  }

  /** Every step is the core's own, and no exclusive store fails for lack of luck. */
  predicate OwnSteps(events: seq<Event>, c: nat) {
    forall i | 0 <= i < |events| :: events[i] == Act(c, true)
  }

  /** The core has come out of claim_lock as the owner, with one more section to leave. */
  predicate GotIt(s: State, r: State, c: nat) {
    && c < |s.cores| == |r.cores| && Owns(r, c)
    && r.cores[c].place == Outside && r.cores[c].sections == s.cores[c].sections + [false]
  }

  ghost predicate CanGetIt(s: State, c: nat) {
    exists events, r :: OwnSteps(events, c) && Reaches(s, events, r) && GotIt(s, r, c)
  }

  /** How many steps there are at most to go. */
  function ToGo(core: Core): nat {
    match core.place
    case Ldrex => 2
    case Strex => if core.exclusive then 1 else 3
    case Compare(_) => 3
    case Wfe(_) => 4
    case Asleep(_) => 4
    case _ => 5
  }

  /** While the lock is free, a core that is not about to sleep, or asleep, without an event gets on with
      its claim at every step. */
  lemma FreeLockLetsOn(s: State, c: nat)
    requires Inv(s) && s.lock == 0 && c < |s.cores| && Claims(s.cores[c].place) && !MaySleep(s.cores[c])
    ensures Enabled(s, Act(c, true)) && |Next(s, Act(c, true)).cores| == |s.cores|
    ensures var n := Next(s, Act(c, true));
            || GotIt(s, n, c)
            || (n.lock == 0 && Claims(n.cores[c].place) && !MaySleep(n.cores[c])
                && n.cores[c].sections == s.cores[c].sections && ToGo(n.cores[c]) < ToGo(s.cores[c]))
  {
    assert CoreOk(s.lock, c, s.cores[c]);
  }

  lemma {:induction false} FreeLockIsHad(s: State, c: nat)
    requires Inv(s) && s.lock == 0 && c < |s.cores| && Claims(s.cores[c].place) && !MaySleep(s.cores[c])
    ensures CanGetIt(s, c)
    decreases ToGo(s.cores[c])
  {
    hide Next, MaySleep, Claims, Inv, Enabled, ToGo;
    var e := Act(c, true);
    FreeLockLetsOn(s, c);
    NextKeepsInv(s, e);
    var n := Next(s, e);
    assert [e][1..] == [] && Reaches(n, [], n);
    if GotIt(s, n, c) {
      assert OwnSteps([e], c) && Reaches(s, [e], n);
    } else {
      FreeLockIsHad(n, c);
      var events, r :| OwnSteps(events, c) && Reaches(n, events, r) && GotIt(n, r, c);
      assert ([e] + events)[1..] == events && ([e] + events)[0] == e;
      assert OwnSteps([e] + events, c) && Reaches(s, [e] + events, r) && GotIt(s, r, c);
    }
  }

  /** Asleep without an event, or about to be, the core does nothing about it. */
  lemma {:induction false} SleeperStaysOut(s: State, c: nat, events: seq<Event>, r: State)
    requires Inv(s) && c < |s.cores| && MaySleep(s.cores[c]) && OwnSteps(events, c) && Reaches(s, events, r)
    ensures |r.cores| == |s.cores| && MaySleep(r.cores[c]) && r.cores[c].place != Outside
    decreases |events|
  {
    if events != [] {
      assert events[0] == Act(c, true);
      NextKeepsInv(s, events[0]);
      assert MaySleep(Next(s, events[0]).cores[c]);
      assert OwnSteps(events[1..], c);
      SleeperStaysOut(Next(s, events[0]), c, events[1..], r);
    }
  }

  /** When the lock is free, a core anywhere in claim_lock gets it, if nobody interferes and no store
      fails for lack of luck, if and only if it is not about to sleep, or asleep, without an event. */
  lemma FreeLockIsHadIff(s: State, c: nat)
    requires Inv(s) && s.lock == 0 && c < |s.cores| && Claims(s.cores[c].place)
    ensures CanGetIt(s, c) <==> !MaySleep(s.cores[c])
  {
    if !MaySleep(s.cores[c]) {
      FreeLockIsHad(s, c);
    } else if CanGetIt(s, c) {
      var events, r :| OwnSteps(events, c) && Reaches(s, events, r) && GotIt(s, r, c);
      SleeperStaysOut(s, c, events, r);
      assert false;
    }
  }

  /** So when the owner leaves its outermost section, every core that waits in claim_lock, asleep or not,
      can be the next owner. */
  lemma WaiterGetsReleasedLock(s: State, d: nat, c: nat)
    requires Inv(s) && d < |s.cores| && s.cores[d].place == Outside && s.cores[d].sections == [false]
    requires c < |s.cores| && Claims(s.cores[c].place) && c != d
    ensures exists m :: Reaches(s, [Leave(d), Act(d, true), Act(d, true)], m) && |m.cores| == |s.cores| && CanGetIt(m, c)
  {
    LeavingWakesAll(s, d);
    var events := [Leave(d), Act(d, true), Act(d, true)];
    var m :| Reaches(s, events, m) && |m.cores| == |s.cores| && m.lock == 0
             && forall b | 0 <= b < |m.cores| :: m.cores[b].event && (b != d ==> m.cores[b].place == s.cores[b].place);
    hide Reaches, Inv;
    RunKeepsInv(s, events, m);
    FreeLockIsHad(m, c);
  }
}
