/** change_word_if_equal (processor/ARMv6/processor.c), instruction by instruction: exclusive loads
    and stores on one word by any number of cores (section A3.4 of ARM DDI 0406C). */
module ExclusiveAccess {
  import opened Words

  /** What a core is about to do. */
  datatype Place =
    | Outside
    | Ldrex(from: word, to: word)
    | Strex(from: word, to: word)
    | Clrex(from: word, to: word, value: word)

  /** An access of the word by core c: an atomic compare-and-swap and what it returns, or a plain
      store. */
  datatype Access = Swap(c: nat, from: word, to: word, returned: word) | Store(c: nat, value: word)

  /** exclusive says that the monitor still marks the word for the core; done lists its accesses
      that have returned to their callers. */
  datatype Core = Core(place: Place, exclusive: bool, done: seq<Access>)

  /** log lists the accesses in the order in which they took effect. */
  datatype State = State(content: word, cores: seq<Core>, log: seq<Access>)

  /** An exclusive store may fail although the monitor is set: lucky says that it does not. */
  datatype Event =
    | Call(c: nat, from: word, to: word)
    | Act(c: nat, lucky: bool)
    | Write(c: nat, value: word)

  predicate Enabled(s: State, e: Event)
    ensures Enabled(s, e) ==> e.c < |s.cores|
  {
    && e.c < |s.cores|
    && (e.Act? <==> s.cores[e.c].place != Outside)
  }

  /** A store by one core takes the word away from the monitors of the others. */
  function Unmark(cores: seq<Core>): seq<Core> {
    seq(|cores|, d requires 0 <= d < |cores| => cores[d].(exclusive := false))
  }

  function At(s: State, c: nat, place: Place, exclusive: bool): State
    requires c < |s.cores|
  {
    s.(cores := s.cores[c := s.cores[c].(place := place, exclusive := exclusive)])
  }

  function Next(s: State, e: Event): (n: State)
    requires Enabled(s, e)
    ensures |n.cores| == |s.cores|
  {
    match e
    case Call(c, from, to) => At(s, c, Ldrex(from, to), s.cores[c].exclusive)
    case Write(c, value) => Finish(State(value, Unmark(s.cores), s.log + [Store(c, value)]), c, Store(c, value))
    case Act(c, lucky) =>
      match s.cores[c].place
      case Ldrex(from, to) =>
        if s.content == from then At(s, c, Strex(from, to), true)
        else At(s, c, Clrex(from, to, s.content), true).(log := s.log + [Swap(c, from, to, s.content)])
      case Strex(from, to) =>
        if s.cores[c].exclusive && lucky
        then Finish(State(to, Unmark(s.cores), s.log + [Swap(c, from, to, from)]), c, Swap(c, from, to, from))
        else At(s, c, Ldrex(from, to), false)
      case Clrex(from, to, value) => Finish(s, c, Swap(c, from, to, value))
  }

  /** The access returns to its caller. */
  function Finish(s: State, c: nat, a: Access): State
    requires c < |s.cores|
  {
    s.(cores := s.cores[c := Core(Outside, false, s.cores[c].done + [a])])
  }

  /** The monitor of a core is set by its exclusive load, and cleared by the end of its call, by an
      exclusive store of its own, and by whatever any core writes. */
  lemma MonitorFollows(s: State, e: Event, d: nat)
    requires Enabled(s, e) && d < |s.cores|
    ensures var before, n := s.cores[d], Next(s, e);
            var after := n.cores[d];
            if e.c == d && before.place.Ldrex? then after.exclusive == (e.Act? || before.exclusive)
            else if e.Write? || (e.c == d && (before.place.Strex? || before.place.Clrex?)) then !after.exclusive
            else if s.cores[e.c].place.Strex? && e.Act? && n.cores[e.c].place == Outside then !after.exclusive
            else after.exclusive == before.exclusive
  {
  }

  /** What the accesses, taken one at a time, make of the word. */
  function Replay(w: word, log: seq<Access>): word {
    if log == [] then w
    else
      var before := Replay(w, log[..|log| - 1]);
      match log[|log| - 1]
      case Swap(_, from, to, _) => if before == from then to else before
      case Store(_, value) => value
  }

  /** Each compare-and-swap has returned what it found. */
  predicate Truthful(w: word, log: seq<Access>) {
    forall i | 0 <= i < |log| && log[i].Swap? :: log[i].returned == Replay(w, log[..i])
  }

  /** While a monitor is set for a core between its load and its store, the word is as loaded. */
  predicate Marked(content: word, c: Core) {
    c.place.Strex? && c.exclusive ==> content == c.place.from
  }

  /** The accesses of core c. */
  function By(log: seq<Access>, c: nat): seq<Access> {
    if log == [] then []
    else By(log[..|log| - 1], c) + if log[|log| - 1].c == c then [log[|log| - 1]] else []
  }

  lemma ByMore(log: seq<Access>, a: Access, c: nat)
    ensures By(log + [a], c) == By(log, c) + if a.c == c then [a] else []
  {
    assert (log + [a])[..|log|] == log;
  }

  /** The access that has failed to swap but has not returned yet. */
  function Pending(core: Core, c: nat): seq<Access> {
    if core.place.Clrex? then [Swap(c, core.place.from, core.place.to, core.place.value)] else []
  }

  /** Each access has been returned to its caller exactly once, or is about to be. */
  predicate Matches(log: seq<Access>, core: Core, c: nat) {
    By(log, c) == core.done + Pending(core, c)
  }

  predicate Inv(w: word, s: State) {
    && s.content == Replay(w, s.log) && Truthful(w, s.log)
    && forall c | 0 <= c < |s.cores| :: Marked(s.content, s.cores[c]) && Matches(s.log, s.cores[c], c)
  }

  lemma ReplayMore(w: word, log: seq<Access>, a: Access)
    requires Truthful(w, log) && (a.Swap? ==> a.returned == Replay(w, log))
    ensures Truthful(w, log + [a])
    ensures Replay(w, log + [a]) ==
            match a
            case Swap(_, from, to, _) => if Replay(w, log) == from then to else Replay(w, log)
            case Store(_, value) => value
  {
    var more := log + [a];
    assert more[..|log|] == log;
    forall i | 0 <= i < |more| && more[i].Swap?
      ensures more[i].returned == Replay(w, more[..i])
    {
      if i < |log| {
        assert more[..i] == log[..i];
      }
    }
  }

  lemma OthersStayMarked(s: State, e: Event, d: nat)
    requires Enabled(s, e) && d < |s.cores| && d != e.c && Marked(s.content, s.cores[d])
    ensures var n := Next(s, e);
            Marked(n.content, n.cores[d]) && n.cores[d].place == s.cores[d].place && n.cores[d].done == s.cores[d].done
  {
  }

  /** An access is logged when it takes effect, in the name of the core that makes it. */
  lemma OwnAccess(s: State, e: Event) returns (made: seq<Access>)
    requires Enabled(s, e) && Marked(s.content, s.cores[e.c])
    ensures var n := Next(s, e);
            && n.log == s.log + made && |made| <= 1
            && Marked(n.content, n.cores[e.c])
            && n.cores[e.c].done + Pending(n.cores[e.c], e.c) == s.cores[e.c].done + Pending(s.cores[e.c], e.c) + made
            && if made == [] then n.content == s.content
               else
                 && made[0].c == e.c && (made[0].Swap? ==> made[0].returned == s.content)
                 && n.content == match made[0]
                                 case Swap(_, from, to, _) => if s.content == from then to else s.content
                                 case Store(_, value) => value
  {
    var n := Next(s, e);
    made := n.log[|s.log|..];
  }

  lemma NextKeepsInv(w: word, s: State, e: Event)
    requires Inv(w, s) && Enabled(s, e)
    ensures Inv(w, Next(s, e))
  {
    hide Next, Pending, By, Marked, Replay, Truthful, Enabled;
    var n := Next(s, e);
    assert Matches(s.log, s.cores[e.c], e.c);
    var made := OwnAccess(s, e);
    if made == [] {
      assert n.log == s.log;
    } else {
      assert made == [made[0]];
      ReplayMore(w, s.log, made[0]);
    }
    forall c | 0 <= c < |n.cores|
      ensures Marked(n.content, n.cores[c]) && Matches(n.log, n.cores[c], c)
    {
      assert Matches(s.log, s.cores[c], c);
      if made != [] {
        ByMore(s.log, made[0], c);
      }
      if c != e.c {
        OthersStayMarked(s, e, c);
        SamePending(s.cores[c], n.cores[c], c);
      }
    }
  }

  lemma SamePending(x: Core, y: Core, c: nat)
    requires x.place == y.place
    ensures Pending(x, c) == Pending(y, c)
  {
  }

  ghost predicate Reaches(s: State, events: seq<Event>, r: State)
    decreases |events|
  {
    if events == [] then s == r else Enabled(s, events[0]) && Reaches(Next(s, events[0]), events[1..], r)
  }

  function Start(w: word, cores: nat): State {
    State(w, seq(cores, _ => Core(Outside, false, [])), [])
  }

  lemma {:induction false} RunKeepsInv(w: word, s: State, events: seq<Event>, r: State)
    requires Inv(w, s) && Reaches(s, events, r)
    ensures Inv(w, r)
    decreases |events|
  {
    if events != [] {
      NextKeepsInv(w, s, events[0]);
      RunKeepsInv(w, Next(s, events[0]), events[1..], r);
    }
  }

  /** However the instructions of the cores interleave, and whichever exclusive stores fail, the
      calls take effect one at a time, each as an atomic compare-and-swap, and each core gets the
      results of its own calls in order. */
  lemma CallsAreAtomic(w: word, cores: nat, events: seq<Event>, r: State)
    requires Reaches(Start(w, cores), events, r)
    ensures r.content == Replay(w, r.log) && Truthful(w, r.log)
    ensures forall c | 0 <= c < |r.cores| && r.cores[c].place == Outside :: r.cores[c].done == By(r.log, c)
  {
    RunKeepsInv(w, Start(w, cores), events, r);
    forall c | 0 <= c < |r.cores| && r.cores[c].place == Outside
      ensures r.cores[c].done == By(r.log, c)
    {
      assert Matches(r.log, r.cores[c], c);
    }
  }

  /** A call that nobody interferes with returns, and has swapped if and only if it found what it
      expected. */
  lemma UndisturbedCallReturns(s: State, c: nat, from: word, to: word)
    requires c < |s.cores| && s.cores[c].place == Outside
    ensures exists r :: Reaches(s, [Call(c, from, to), Act(c, true), Act(c, true)], r) && |r.cores| == |s.cores|
                        && r.cores[c].place == Outside
                        && r.cores[c].done == s.cores[c].done + [Swap(c, from, to, s.content)]
                        && r.content == if s.content == from then to else s.content
  {
    var a := Next(s, Call(c, from, to));
    var b := Next(a, Act(c, true));
    var r := Next(b, Act(c, true));
    var events := [Call(c, from, to), Act(c, true), Act(c, true)];
    assert Reaches(r, [], r) && events[2..][1..] == [];
    assert Reaches(b, events[2..], r) && events[1..][1..] == events[2..];
    assert Reaches(a, events[1..], r);
  }

  predicate OwnSteps(events: seq<Event>, c: nat) {
    forall i | 0 <= i < |events| :: events[i] == Act(c, true)
  }

  /** What a call at the place still returns, and leaves in the word. */
  function Outcome(content: word, p: Place): (word, word)
    requires p != Outside
  {
    if p.Clrex? then (p.value, content) else (content, if content == p.from then p.to else content)
  }

  /** Call c has returned, with what it found, and has swapped if that was what it expected. */
  predicate Returned(s: State, r: State, c: nat)
    requires c < |s.cores| && s.cores[c].place != Outside
  {
    var (found, left) := Outcome(s.content, s.cores[c].place);
    && |r.cores| == |s.cores| && r.cores[c].place == Outside && r.content == left
    && r.cores[c].done == s.cores[c].done + [Swap(c, s.cores[c].place.from, s.cores[c].place.to, found)]
  }

  function ToGo(core: Core): nat {
    match core.place
    case Outside => 0
    case Clrex(_, _, _) => 1
    case Ldrex(_, _) => 2
    case Strex(_, _) => if core.exclusive then 1 else 3
  }

  lemma GetsOn(s: State, c: nat)
    requires c < |s.cores| && s.cores[c].place != Outside && Marked(s.content, s.cores[c])
    ensures Enabled(s, Act(c, true))
    ensures var n := Next(s, Act(c, true));
            || Returned(s, n, c)
            || (|n.cores| == |s.cores| && n.cores[c].place != Outside && Marked(n.content, n.cores[c])
                && n.content == s.content && n.cores[c].done == s.cores[c].done
                && n.cores[c].place.from == s.cores[c].place.from && n.cores[c].place.to == s.cores[c].place.to
                && Outcome(n.content, n.cores[c].place) == Outcome(s.content, s.cores[c].place)
                && ToGo(n.cores[c]) < ToGo(s.cores[c]))
  {
  }

  /** Wherever a call has got to, after failed stores or not, it returns once nobody interferes. */
  lemma {:induction false} CallReturns(s: State, c: nat)
    requires c < |s.cores| && s.cores[c].place != Outside && Marked(s.content, s.cores[c])
    ensures exists events, r :: OwnSteps(events, c) && Reaches(s, events, r) && Returned(s, r, c)
    decreases ToGo(s.cores[c])
  {
    hide Next, Marked, Enabled, ToGo, Outcome;
    var e := Act(c, true);
    GetsOn(s, c);
    var n := Next(s, e);
    assert [e][1..] == [] && Reaches(n, [], n);
    if Returned(s, n, c) {
      assert OwnSteps([e], c) && Reaches(s, [e], n);
    } else {
      CallReturns(n, c);
      var events, r :| OwnSteps(events, c) && Reaches(n, events, r) && Returned(n, r, c);
      assert ([e] + events)[1..] == events && ([e] + events)[0] == e;
      assert OwnSteps([e] + events, c) && Reaches(s, [e] + events, r) && Returned(s, r, c);
    }
  }

  /** The same in every run. */
  lemma CallsReturn(w: word, cores: nat, events: seq<Event>, s: State, c: nat)
    requires Reaches(Start(w, cores), events, s) && c < |s.cores| && s.cores[c].place != Outside
    ensures exists more, r :: OwnSteps(more, c) && Reaches(s, more, r) && Returned(s, r, c)
  {
    RunKeepsInv(w, Start(w, cores), events, s);
    CallReturns(s, c);
  }
}
