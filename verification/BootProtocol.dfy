/** How any number of cores get from the first instruction to a running kernel (boot/generic/boot.c,
    MMU_enter in MMU/ARMv6/mmu.c, Kernel_start in kernel.c): two checkpoints, a queue for the
    allocation of memory before the MMU runs, and a lock that is given to core 0 in advance. */
module BootProtocol {

  const MAX_WORKING_CORE := 3

  /** Where a core is. The places up to Await are core 0's, those from Spin to Queue are the
      others', and the rest are everyone's. */
  datatype Place =
    | Init(i: nat)                            // states[i] = 0
    | Publish                                 // states_initialised = true
    | Scan(point: nat, i: nat, done: bool)    // wait_for_cores_to_reach, at states[i]
    | Release(point: nat)                     // release_from_checkpoint
    | Workspaces                              // allocates the workspaces and the shared memory
    | GiftLock                                // boot_lock = 1
    | LetIn(i: nat)                           // core_to_enter_mmu = i, or 0 when all have been
    | Await(i: nat)                           // while (i != core_entered_mmu)
    | Spin                                    // while (!states_initialised)
    | Arrive(point: nat)                      // states[core] = point
    | Held(point: nat)                        // while (states[0] != point)
    | Queue                                   // while (core_to_enter_mmu != core)
    | Enter                                   // MMU_enter
    | Allocate                                // its translation tables
    | Finish                                  // BOOT_finished_allocating
    | Claim                                   // claim_lock( &boot_lock )
    | Wfe(own: bool)                          // in it: is the lock the core's own already?
    | Register                                // Kernel_add_free_RAM, for each block
    | Unlock                                  // release_lock( &boot_lock )
    | Sev                                     // in it: wake the others
    | Started
    | Parked

  /** The words that the cores share, and the places of the cores. registered counts how often the
      RAM has been registered, and events has the cores whose event register is set. */
  datatype State = State(
    states: seq<nat>, initialised: bool, toEnter: nat, entered: nat, lock: nat, registered: nat,
    places: seq<Place>, events: set<nat>)

  function AllCores(n: nat): (all: set<nat>)
    ensures forall c: nat :: c in all <==> c < n
  {
    if n == 0 then {} else AllCores(n - 1) + {n - 1}
  }

  function At(s: State, c: nat, p: Place): State
    requires c < |s.places|
  {
    s.(places := s.places[c := p])
  }

  predicate IsFirst(p: Place) {
    p.Init? || p.Publish? || p.Scan? || p.Release? || p.Workspaces? || p.GiftLock? || p.LetIn? || p.Await?
  }

  predicate IsLater(p: Place) {
    p.Spin? || p.Arrive? || p.Held? || p.Queue?
  }

  predicate IsCommon(p: Place) {
    !IsFirst(p) && !IsLater(p)
  }

  function FirstStep(s: State, c: nat): (n: State)
    requires c < |s.places| == |s.states|
    ensures |n.places| == |n.states| == |s.places| && n.places == s.places[c := n.places[c]]
    ensures n.entered == s.entered && n.registered == s.registered && n.events == s.events
    ensures n.lock == s.lock || n.lock == 1
  {
    var cores := |s.places|;
    match s.places[c]
    case Init(i) => if i < cores then At(s, c, Init(i + 1)).(states := s.states[i := 0]) else At(s, c, Publish)
    case Publish => At(s, c, Scan(1, 1, true)).(initialised := true)
    case Scan(point, i, done) =>
      if i < cores then At(s, c, Scan(point, i + 1, done && s.states[i] == point))
      else if done then At(s, c, Release(point))
      else At(s, c, Scan(point, 1, true))
    case Release(point) => At(s, c, if point == 1 then Workspaces else GiftLock).(states := s.states[0 := point])
    case Workspaces => At(s, c, Scan(2, 1, true))
    case GiftLock => At(s, c, LetIn(1)).(lock := 1)
    case LetIn(i) => if i < cores then At(s, c, Await(i)).(toEnter := i) else At(s, c, Enter).(toEnter := 0)
    case Await(i) => if s.entered == i then At(s, c, LetIn(i + 1)) else s
    case _ => s
  }

  function LaterStep(s: State, c: nat): (n: State)
    requires c < |s.places| == |s.states|
    ensures |n.places| == |n.states| == |s.places| && n.places == s.places[c := n.places[c]]
    ensures n.states == s.states[c := n.states[c]]
    ensures n == s.(places := n.places, states := n.states)
  {
    match s.places[c]
    case Spin => if s.initialised then At(s, c, Arrive(1)) else s
    case Arrive(point) => At(s, c, Held(point)).(states := s.states[c := point])
    case Held(point) => if s.states[0] != point then s else At(s, c, if point == 1 then Arrive(2) else Queue)
    case Queue => if s.toEnter == c then At(s, c, Enter) else s
    case _ => s
  }

  function CommonStep(s: State, c: nat): (n: State)
    requires c < |s.places| == |s.states|
    ensures |n.places| == |n.states| == |s.places| && n.places == s.places[c := n.places[c]]
    ensures n == s.(places := n.places, entered := n.entered, lock := n.lock, registered := n.registered, events := n.events)
    ensures IsCommon(s.places[c]) ==> IsCommon(n.places[c])
  {
    match s.places[c]
    case Enter => At(s, c, if c > MAX_WORKING_CORE then Finish else Allocate)
    case Allocate => At(s, c, Finish)
    case Finish => At(s, c, if c > MAX_WORKING_CORE then Parked else Claim).(entered := c)
    case Claim =>
      if s.lock == 0 then At(s, c, Unlock).(lock := c + 1)
      else At(s, c, Wfe(s.lock == c + 1))
    case Wfe(own) =>
      if c in s.events then At(s, c, if own then Register else Claim).(events := s.events - {c}) else s
    case Register => At(s, c, Unlock).(registered := s.registered + 1)
    case Unlock => At(s, c, Sev).(lock := 0)
    case Sev => At(s, c, Started).(events := AllCores(|s.places|))
    case _ => s
  }

  /** One access by core c. A core that waits stays where it is. */
  function Step(s: State, c: nat): (n: State)
    requires c < |s.places| == |s.states|
    ensures |n.places| == |n.states| == |s.places|
  {
    if IsFirst(s.places[c]) then FirstStep(s, c)
    else if IsLater(s.places[c]) then LaterStep(s, c)
    else CommonStep(s, c)
  }

  /** The words that a core other than 0 leaves alone. */
  lemma OtherLeaves(s: State, c: nat)
    requires c < |s.places| == |s.states| && !IsFirst(s.places[c])
    ensures var n := Step(s, c);
            && n.places == s.places[c := n.places[c]] && n.states == s.states[c := n.states[c]]
            && n.initialised == s.initialised && n.toEnter == s.toEnter
            && (n.lock != s.lock ==> s.places[c] == Unlock || (s.places[c] == Claim && s.lock == 0))
  {
  }

  // ---- checkpoints ----

  /** The last checkpoint that a core at the place has reached. */
  function Reached(p: Place): nat {
    match p
    case Init(_) => 0
    case Publish => 0
    case Scan(point, _, _) => point
    case Release(point) => point
    case Workspaces => 1
    case Spin => 0
    case Arrive(point) => if point == 0 then 0 else point - 1
    case Held(point) => point
    case _ => 2
  }

  /** The last checkpoint that a core at the place has left behind. */
  function Passed(p: Place): nat {
    match p
    case Scan(point, _, _) => if point == 0 then 0 else point - 1
    case Release(point) => if point == 0 then 0 else point - 1
    case Held(point) => if point == 0 then 0 else point - 1
    case _ => Reached(p)
  }

  predicate Booting(p: Place) {
    p.Init? || p.Publish?
  }

  predicate PointOk(p: Place) {
    (p.Scan? || p.Release? || p.Arrive? || p.Held?) ==> 1 <= p.point <= 2
  }

  /** What core 0 knows of the states of the others. */
  predicate ZeroOk(s: State)
    requires 0 < |s.places| == |s.states|
  {
    var p := s.places[0];
    && !IsLater(p) && PointOk(p)
    && (s.initialised <==> !Booting(p))
    && (p.Init? ==> p.i <= |s.states| && forall k | 0 <= k < p.i :: s.states[k] == 0)
    && (p.Publish? ==> forall k | 0 <= k < |s.states| :: s.states[k] == 0)
    && (s.initialised ==> s.states[0] == Passed(p))
    && (p.Scan? ==> p.i >= 1)
    && (p.Scan? && p.done ==> forall k | 1 <= k < p.i && k < |s.states| :: s.states[k] == p.point)
    && (p.Release? ==> forall k | 1 <= k < |s.states| :: s.states[k] == p.point)
  }

  /** A core other than 0, and what it has told core 0. */
  predicate OtherOk(s: State, c: nat)
    requires c < |s.places| == |s.states| && c > 0
  {
    var p := s.places[c];
    && !IsFirst(p) && PointOk(p)
    && (!s.initialised ==> p == Spin)
    && (s.initialised ==>
          && s.states[c] == Reached(p)
          && Passed(p) <= Passed(s.places[0]) <= Reached(p))
  }

  predicate CheckpointsOk(s: State) {
    && 0 < |s.places| == |s.states| && ZeroOk(s)
    && forall c | 0 < c < |s.places| :: OtherOk(s, c)
  }

  lemma ZeroStepsZero(s: State)
    requires CheckpointsOk(s)
    ensures ZeroOk(Step(s, 0))
  {
    hide LaterStep;
    if IsFirst(s.places[0]) {
      assert Step(s, 0) == FirstStep(s, 0);
      hide CommonStep;
    } else {
      assert Step(s, 0) == CommonStep(s, 0);
      hide FirstStep;
    }
  }

  lemma ZeroStepsOther(s: State, c: nat)
    requires 0 < c < |s.places| == |s.states| && ZeroOk(s) && OtherOk(s, c)
    ensures OtherOk(Step(s, 0), c)
  {
    hide FirstStep, LaterStep, CommonStep, OtherOk;
    if IsFirst(s.places[0]) {
      FirstStepsOther(s, c);
    } else {
      CommonStepsOther(s, c);
    }
  }

  lemma FirstStepsOther(s: State, c: nat)
    requires 0 < c < |s.places| == |s.states| && ZeroOk(s) && OtherOk(s, c) && IsFirst(s.places[0])
    ensures OtherOk(FirstStep(s, 0), c)
  {
  }

  lemma CommonStepsOther(s: State, c: nat)
    requires 0 < c < |s.places| == |s.states| && ZeroOk(s) && OtherOk(s, c) && IsCommon(s.places[0])
    ensures OtherOk(CommonStep(s, 0), c)
  {
    CommonHasPassed(s.places[0]);
    CommonHasPassed(CommonStep(s, 0).places[0]);
    hide CommonStep, Reached, Passed, PointOk, IsFirst, IsLater, IsCommon;
  }

  lemma OtherStepsZero(s: State, c: nat)
    requires 0 < c < |s.places| == |s.states| && ZeroOk(s) && OtherOk(s, c)
    ensures ZeroOk(Step(s, c))
  {
  }

  lemma OtherStepsItself(s: State, c: nat)
    requires 0 < c < |s.places| == |s.states| && ZeroOk(s) && OtherOk(s, c)
    ensures OtherOk(Step(s, c), c)
  {
    OtherIsNotFirst(s, c);
    hide FirstStep, LaterStep, CommonStep, OtherOk, ZeroOk;
    if IsLater(s.places[c]) {
      LaterStepsItself(s, c);
    } else {
      CommonStepsItself(s, c);
    }
  }

  lemma OtherIsNotFirst(s: State, c: nat)
    requires 0 < c < |s.places| == |s.states| && OtherOk(s, c)
    ensures !IsFirst(s.places[c])
  {
  }

  lemma LaterStepsItself(s: State, c: nat)
    requires 0 < c < |s.places| == |s.states| && ZeroOk(s) && OtherOk(s, c) && IsLater(s.places[c])
    ensures OtherOk(LaterStep(s, c), c)
  {
  }

  lemma CommonHasPassed(p: Place)
    requires IsCommon(p)
    ensures Passed(p) == Reached(p) == 2 && !IsFirst(p) && PointOk(p) && p != Spin
  {
  }

  lemma CommonStepsItself(s: State, c: nat)
    requires 0 < c < |s.places| == |s.states| && OtherOk(s, c) && IsCommon(s.places[c])
    ensures OtherOk(CommonStep(s, c), c)
  {
    CommonHasPassed(s.places[c]);
    CommonHasPassed(CommonStep(s, c).places[c]);
    hide CommonStep, Reached, Passed, PointOk, IsFirst, IsLater, IsCommon;
  }

  lemma OtherStepsOther(s: State, c: nat, d: nat)
    requires 0 < c < |s.places| == |s.states| && OtherOk(s, c)
    requires 0 < d < |s.places| && d != c && OtherOk(s, d)
    ensures OtherOk(Step(s, c), d)
  {
    OtherLeaves(s, c);
    hide Step, Reached, Passed, PointOk;
  }

  lemma StepKeepsCheckpoints(s: State, c: nat)
    requires CheckpointsOk(s) && c < |s.places|
    ensures CheckpointsOk(Step(s, c))
  {
    hide Step, ZeroOk, OtherOk;
    if c == 0 {
      ZeroStepsZero(s);
    } else {
      OtherStepsZero(s, c);
    }
    forall d | 0 < d < |s.places|
      ensures OtherOk(Step(s, c), d)
    {
      if c == 0 {
        ZeroStepsOther(s, d);
      } else if c == d {
        OtherStepsItself(s, c);
      } else {
        OtherStepsOther(s, c, d);
      }
    }
  }

  // ---- the queue and the lock ----

  /** 0 before a core may allocate its tables, 1 while it may, 2 afterwards. */
  function Stage(p: Place): nat {
    if p == Enter || p == Allocate || p == Finish then 1
    else if p == Claim || p.Wfe? || p == Register || p == Unlock || p == Sev || p == Started || p == Parked then 2
    else 0
  }

  /** Whose turn it is, by where core 0 is: cores below have had it, cores above have not. */
  function WhoseTurn(p: Place, cores: nat): nat {
    if p.LetIn? || p.Await? then p.i else if IsFirst(p) then 1 else cores
  }

  predicate QueueOk(s: State)
    requires 0 < |s.places|
  {
    var p, cores := s.places[0], |s.places|;
    && !IsLater(p) && p != Parked
    && (p.LetIn? ==> 1 <= p.i <= cores && s.toEnter == s.entered == p.i - 1)
    && (p.Await? ==> 1 <= p.i < cores && s.toEnter == p.i && s.entered == if Stage(s.places[p.i]) == 2 then p.i else p.i - 1)
    && (IsFirst(p) && !p.LetIn? && !p.Await? ==> s.toEnter == s.entered == 0)
    && (!IsFirst(p) ==> s.toEnter == 0)
  }

  predicate InTurn(s: State, c: nat)
    requires 0 < c < |s.places|
  {
    var p, turn := s.places[0], WhoseTurn(s.places[0], |s.places|);
    && !IsFirst(s.places[c])
    && (c < turn ==> Stage(s.places[c]) == 2)
    && (c > turn || (c == turn && !p.Await?) ==> Stage(s.places[c]) == 0)
    && (c > MAX_WORKING_CORE ==>
          Stage(s.places[c]) == 0 || s.places[c] == Enter || s.places[c] == Finish || s.places[c] == Parked)
    && (c <= MAX_WORKING_CORE ==> s.places[c] != Parked)
  }

  predicate TurnsOk(s: State) {
    && 0 < |s.places| == |s.states| && QueueOk(s)
    && forall c | 0 < c < |s.places| :: InTurn(s, c)
  }

  lemma ZeroKeepsQueue(s: State)
    requires TurnsOk(s)
    ensures QueueOk(Step(s, 0))
  {
    if s.places[0].LetIn? && s.places[0].i < |s.places| {
      assert InTurn(s, s.places[0].i);
    }
  }

  lemma OtherKeepsQueue(s: State, c: nat)
    requires 0 < c < |s.places| == |s.states| && QueueOk(s) && InTurn(s, c)
    ensures QueueOk(Step(s, c))
  {
    InTurnIsNotFirst(s, c);
    hide FirstStep, LaterStep, CommonStep, QueueOk, InTurn;
    if IsLater(s.places[c]) {
      LaterKeepsQueue(s, c);
    } else {
      CommonKeepsQueue(s, c);
    }
  }

  lemma InTurnIsNotFirst(s: State, c: nat)
    requires 0 < c < |s.places| && InTurn(s, c)
    ensures !IsFirst(s.places[c])
  {
  }

  lemma LaterKeepsQueue(s: State, c: nat)
    requires 0 < c < |s.places| == |s.states| && QueueOk(s) && InTurn(s, c) && IsLater(s.places[c])
    ensures QueueOk(LaterStep(s, c))
  {
  }

  lemma CommonKeepsQueue(s: State, c: nat)
    requires 0 < c < |s.places| == |s.states| && QueueOk(s) && InTurn(s, c) && !IsFirst(s.places[c]) && !IsLater(s.places[c])
    ensures QueueOk(CommonStep(s, c))
  {
  }

  lemma ZeroKeepsTurn(s: State, d: nat)
    requires 0 < d < |s.places| == |s.states| && QueueOk(s) && InTurn(s, d)
    ensures InTurn(Step(s, 0), d)
  {
    hide LaterStep;
    if IsFirst(s.places[0]) {
      assert Step(s, 0) == FirstStep(s, 0);
      hide CommonStep;
    } else {
      assert Step(s, 0) == CommonStep(s, 0);
      hide FirstStep;
    }
  }

  lemma OtherKeepsOwnTurn(s: State, c: nat)
    requires 0 < c < |s.places| == |s.states| && QueueOk(s) && InTurn(s, c)
    ensures InTurn(Step(s, c), c)
  {
    hide FirstStep, LaterStep, CommonStep, QueueOk, InTurn;
    if IsLater(s.places[c]) {
      LaterKeepsOwnTurn(s, c);
    } else {
      InTurnIsNotFirst(s, c);
      CommonKeepsOwnTurn(s, c);
    }
  }

  lemma LaterKeepsOwnTurn(s: State, c: nat)
    requires 0 < c < |s.places| == |s.states| && QueueOk(s) && InTurn(s, c) && IsLater(s.places[c])
    ensures InTurn(LaterStep(s, c), c)
  {
  }

  lemma CommonKeepsOwnTurn(s: State, c: nat)
    requires 0 < c < |s.places| == |s.states| && InTurn(s, c) && !IsFirst(s.places[c]) && !IsLater(s.places[c])
    ensures InTurn(CommonStep(s, c), c)
  {
  }

  lemma OtherKeepsTurn(s: State, c: nat, d: nat)
    requires 0 < c < |s.places| == |s.states| && InTurn(s, c)
    requires 0 < d < |s.places| && d != c && InTurn(s, d)
    ensures InTurn(Step(s, c), d)
  {
    OtherLeaves(s, c);
    hide Step, WhoseTurn, Stage;
  }

  lemma StepKeepsTurns(s: State, c: nat)
    requires TurnsOk(s) && c < |s.places|
    ensures TurnsOk(Step(s, c))
  {
    hide Step, QueueOk, InTurn;
    if c == 0 {
      ZeroKeepsQueue(s);
    } else {
      OtherKeepsQueue(s, c);
    }
    forall d | 0 < d < |s.places|
      ensures InTurn(Step(s, c), d)
    {
      if c == 0 {
        ZeroKeepsTurn(s, d);
      } else if c == d {
        OtherKeepsOwnTurn(s, c);
      } else {
        OtherKeepsTurn(s, c, d);
      }
    }
  }

  /** The core has released the boot lock. */
  predicate Released(p: Place) {
    p == Sev || p == Started
  }

  /** The lock is core 0's from the moment it gives it to itself until it has registered the RAM. */
  predicate LockOk(s: State)
    requires 0 < |s.places|
  {
    var p := s.places[0];
    && s.lock <= |s.places|
    && s.registered == (if p == Unlock || Released(p) then 1 else 0)
    && (s.lock == 1 <==> p.LetIn? || p.Await? || (!IsFirst(p) && !Released(p)))
    && (IsFirst(p) && s.lock != 1 ==> s.lock == 0)
    && (p.Wfe? ==> p.own)
  }

  /** No other core gets past the lock before core 0 has released it. */
  predicate LockedOut(s: State, c: nat)
    requires 0 < c < |s.places|
  {
    var p := s.places[c];
    && p != Register
    && (p == Unlock <==> s.lock == c + 1)
    && (p == Unlock || Released(p) ==> Released(s.places[0]))
    && (p.Wfe? ==> !p.own)
  }

  predicate LocksOk(s: State) {
    && TurnsOk(s) && LockOk(s)
    && forall c | 0 < c < |s.places| :: LockedOut(s, c)
  }

  lemma ZeroKeepsLock(s: State)
    requires 0 < |s.places| == |s.states| && QueueOk(s) && LockOk(s)
    ensures LockOk(Step(s, 0))
  {
  }

  lemma OtherKeepsLock(s: State, c: nat)
    requires 0 < c < |s.places| == |s.states| && QueueOk(s) && LockOk(s) && InTurn(s, c) && LockedOut(s, c)
    ensures LockOk(Step(s, c))
  {
    hide FirstStep, LaterStep, CommonStep, InTurn, LockOk, LockedOut;
    if IsLater(s.places[c]) {
      LaterKeepsLock(s, c);
    } else {
      InTurnIsNotFirst(s, c);
      FreeLockIsReleased(s, c);
      CommonKeepsLock(s, c);
    }
  }

  lemma LaterKeepsLock(s: State, c: nat)
    requires 0 < c < |s.places| == |s.states| && LockOk(s) && IsLater(s.places[c])
    ensures LockOk(LaterStep(s, c))
  {
  }

  lemma CommonKeepsLock(s: State, c: nat)
    requires 0 < c < |s.places| == |s.states| && LockOk(s) && LockedOut(s, c)
    requires s.places[c] == Claim && s.lock == 0 ==> Released(s.places[0])
    ensures LockOk(CommonStep(s, c))
  {
  }

  lemma ZeroKeepsLockedOut(s: State, d: nat)
    requires 0 < d < |s.places| == |s.states| && QueueOk(s) && LockOk(s) && InTurn(s, d) && LockedOut(s, d)
    ensures LockedOut(Step(s, 0), d)
  {
  }

  lemma OtherKeepsOwnLockedOut(s: State, c: nat)
    requires 0 < c < |s.places| == |s.states| && LockOk(s) && InTurn(s, c) && LockedOut(s, c)
    ensures LockedOut(Step(s, c), c)
  {
    hide FirstStep, LaterStep, CommonStep, InTurn, LockOk, LockedOut;
    if IsLater(s.places[c]) {
      LaterKeepsOwnLockedOut(s, c);
    } else {
      InTurnIsNotFirst(s, c);
      FreeLockIsReleased(s, c);
      CommonKeepsOwnLockedOut(s, c);
    }
  }

  lemma LaterKeepsOwnLockedOut(s: State, c: nat)
    requires 0 < c < |s.places| == |s.states| && LockOk(s) && LockedOut(s, c) && IsLater(s.places[c])
    ensures LockedOut(LaterStep(s, c), c)
  {
  }

  lemma CommonKeepsOwnLockedOut(s: State, c: nat)
    requires 0 < c < |s.places| == |s.states| && LockedOut(s, c) && s.lock <= |s.places|
    requires s.places[c] == Claim && s.lock == 0 ==> Released(s.places[0])
    requires !IsFirst(s.places[c]) && !IsLater(s.places[c])
    ensures LockedOut(CommonStep(s, c), c)
  {
  }

  /** A core that finds the lock free finds it released, not yet to be given to core 0. */
  lemma FreeLockIsReleased(s: State, c: nat)
    requires 0 < c < |s.places| && LockOk(s) && InTurn(s, c)
    ensures s.places[c] == Claim && s.lock == 0 ==> Released(s.places[0])
    ensures s.lock <= |s.places|
  {
  }

  lemma OtherKeepsLockedOut(s: State, c: nat, d: nat)
    requires 0 < c < |s.places| == |s.states| && InTurn(s, c) && LockedOut(s, c)
    requires 0 < d < |s.places| && d != c && LockedOut(s, d)
    ensures LockedOut(Step(s, c), d)
  {
    OtherLeaves(s, c);
  }

  lemma StepKeepsLocks(s: State, c: nat)
    requires LocksOk(s) && c < |s.places|
    ensures LocksOk(Step(s, c))
  {
    hide Step, QueueOk, InTurn, LockOk, LockedOut;
    StepKeepsTurns(s, c);
    if c == 0 {
      ZeroKeepsLock(s);
    } else {
      OtherKeepsLock(s, c);
    }
    forall d | 0 < d < |s.places|
      ensures LockedOut(Step(s, c), d)
    {
      if c == 0 {
        ZeroKeepsLockedOut(s, d);
      } else if c == d {
        OtherKeepsOwnLockedOut(s, c);
      } else {
        OtherKeepsLockedOut(s, c, d);
      }
    }
  }

  predicate SomeoneAtSev(s: State) {
    Sev in s.places
  }

  /** The core is in the wfe, and no event has reached it. */
  predicate Asleep(s: State, c: nat)
    requires c < |s.places|
  {
    s.places[c].Wfe? && c !in s.events
  }

  /** No release of the lock is missed between the load and the wfe. */
  predicate WaitersOk(s: State) {
    forall c | 0 <= c < |s.places| && Asleep(s, c) :: s.lock > 0 || SomeoneAtSev(s)
  }

  /** What a step does to the lock and the event registers. */
  lemma LockEffects(s: State, c: nat)
    requires c < |s.places| == |s.states|
    ensures var n := Step(s, c);
            && n.places == s.places[c := n.places[c]]
            && (s.lock > 0 && n.lock == 0 ==> n.places[c] == Sev)
            && (s.places[c] != Sev ==> s.events - {c} <= n.events)
            && (s.places[c] == Sev ==> forall d | 0 <= d < |s.places| :: d in n.events)
            && (Asleep(n, c) ==> n.lock > 0 || Asleep(s, c))
  {
    if IsFirst(s.places[c]) {
      FirstNeverSleeps(s, c);
      hide FirstStep;
    } else if IsLater(s.places[c]) {
      LaterNeverSleeps(s, c);
      hide LaterStep;
    } else {
      CommonLockEffects(s, c);
      hide CommonStep;
    }
  }

  lemma FirstNeverSleeps(s: State, c: nat)
    requires c < |s.places| == |s.states| && IsFirst(s.places[c])
    ensures !FirstStep(s, c).places[c].Wfe? && s.places[c] != Sev
  {
  }

  lemma LaterNeverSleeps(s: State, c: nat)
    requires c < |s.places| == |s.states| && IsLater(s.places[c])
    ensures !LaterStep(s, c).places[c].Wfe? && s.places[c] != Sev
  {
  }

  lemma CommonLockEffects(s: State, c: nat)
    requires c < |s.places| == |s.states|
    ensures var n := CommonStep(s, c);
            && (s.lock > 0 && n.lock == 0 ==> n.places[c] == Sev)
            && (s.places[c] != Sev ==> s.events - {c} <= n.events)
            && (s.places[c] == Sev ==> forall d | 0 <= d < |s.places| :: d in n.events)
            && (n.places[c].Wfe? && c !in n.events ==> n.lock > 0 || Asleep(s, c))
  {
  }

  lemma StepKeepsWaiters(s: State, c: nat)
    requires c < |s.places| == |s.states| && WaitersOk(s)
    ensures WaitersOk(Step(s, c))
  {
    LockEffects(s, c);
    hide Step;
    var n := Step(s, c);
    forall d | 0 <= d < |n.places| && Asleep(n, d)
      ensures n.lock > 0 || SomeoneAtSev(n)
    {
      if n.lock == 0 && s.lock > 0 {
        assert n.places[c] == Sev;
      } else if n.lock == 0 {
        assert Asleep(s, d);
        var b :| 0 <= b < |s.places| && s.places[b] == Sev;
        assert n.places[b] == Sev;
      }
    }
  }

  // ---- runs ----

  /** Power-on: the states are whatever the RAM holds, and the event registers are in any state. */
  predicate Initial(s: State) {
    && 0 < |s.places| == |s.states|
    && !s.initialised && s.toEnter == s.entered == s.lock == s.registered == 0
    && s.places[0] == Init(0) && forall c | 0 < c < |s.places| :: s.places[c] == Spin
  }

  predicate Inv(s: State) {
    CheckpointsOk(s) && LocksOk(s) && WaitersOk(s)
  }

  lemma InitialIsInv(s: State)
    requires Initial(s)
    ensures Inv(s)
  {
  }

  /** One access by core c, or an event that reaches it from outside the protocol. */
  datatype Turn = Access(c: nat) | Jolt(c: nat)

  function Take(s: State, turn: Turn): (n: State)
    requires turn.c < |s.places| == |s.states|
    ensures |n.places| == |n.states| == |s.places|
  {
    if turn.Access? then Step(s, turn.c) else s.(events := s.events + {turn.c})
  }

  /** The turns are taken as listed, in any order. */
  ghost predicate Reaches(s: State, turns: seq<Turn>, r: State)
    requires |s.places| == |s.states|
    decreases |turns|
  {
    if turns == [] then s == r
    else turns[0].c < |s.places| && Reaches(Take(s, turns[0]), turns[1..], r)
  }

  lemma {:induction false} RunKeepsInv(s: State, turns: seq<Turn>, r: State)
    requires Inv(s) && Reaches(s, turns, r)
    ensures Inv(r)
    decreases |turns|
  {
    hide LocksOk, WaitersOk, Step;
    if turns != [] {
      TurnKeepsInv(s, turns[0]);
      RunKeepsInv(Take(s, turns[0]), turns[1..], r);
    }
  }

  lemma TurnKeepsInv(s: State, turn: Turn)
    requires Inv(s) && turn.c < |s.places|
    ensures Inv(Take(s, turn))
  {
    if turn.Access? {
      hide LocksOk, WaitersOk, Step;
      StepKeepsCheckpoints(s, turn.c);
      StepKeepsLocks(s, turn.c);
      StepKeepsWaiters(s, turn.c);
    } else {
      JoltKeepsLocks(s, turn.c);
      JoltKeepsCheckpoints(s, turn.c);
      hide LocksOk, CheckpointsOk;
      assert forall d | 0 <= d < |s.places| && Asleep(Take(s, turn), d) :: Asleep(s, d);
    }
  }

  lemma JoltKeepsCheckpoints(s: State, c: nat)
    requires CheckpointsOk(s)
    ensures CheckpointsOk(s.(events := s.events + {c}))
  {
    assert forall d | 0 < d < |s.places| :: OtherOk(s, d) ==> OtherOk(s.(events := s.events + {c}), d);
  }

  lemma JoltKeepsLocks(s: State, c: nat)
    requires LocksOk(s)
    ensures LocksOk(s.(events := s.events + {c}))
  {
    var n := s.(events := s.events + {c});
    assert forall d | 0 < d < |s.places| :: InTurn(s, d) ==> InTurn(n, d);
    assert forall d | 0 < d < |s.places| :: LockedOut(s, d) ==> LockedOut(n, d);
  }

  /** No core leaves a checkpoint behind before every core has reached it. */
  lemma NonePassesEarly(s: State, turns: seq<Turn>, r: State, c: nat, d: nat)
    requires Initial(s) && Reaches(s, turns, r) && c < |r.places| && d < |r.places|
    ensures Passed(r.places[c]) <= Reached(r.places[d])
  {
    InitialIsInv(s);
    RunKeepsInv(s, turns, r);
    if c > 0 {
      assert OtherOk(r, c);
    }
    if d > 0 {
      assert OtherOk(r, d);
    }
  }

  predicate Allocating(p: Place) {
    p == Workspaces || p == Allocate
  }

  /** At most one core at a time allocates memory before the MMU runs. */
  lemma OneAllocates(s: State, turns: seq<Turn>, r: State, c: nat, d: nat)
    requires Initial(s) && Reaches(s, turns, r) && c < |r.places| && d < |r.places|
    requires Allocating(r.places[c]) && Allocating(r.places[d])
    ensures c == d
  {
    InitialIsInv(s);
    RunKeepsInv(s, turns, r);
    assert c > 0 ==> InTurn(r, c);
    assert d > 0 ==> InTurn(r, d);
  }

  /** The cores get their tables in order: 1, 2 and so on, and core 0 at the end. */
  lemma AllocateInOrder(s: State, turns: seq<Turn>, r: State, c: nat, d: nat)
    requires Initial(s) && Reaches(s, turns, r) && c < |r.places| && 0 < d < |r.places|
    requires r.places[c] == Allocate && d != c
    ensures Stage(r.places[d]) == if c == 0 || d < c then 2 else 0
  {
    InitialIsInv(s);
    RunKeepsInv(s, turns, r);
    assert InTurn(r, d) && (c > 0 ==> InTurn(r, c));
  }

  /** The RAM is registered by core 0 and not twice, when all memory that the cores need before
      that has been allocated, and no other core gets past the boot lock until it has been. */
  lemma RegisteredOnceBeforeOthers(s: State, turns: seq<Turn>, r: State, c: nat)
    requires Initial(s) && Reaches(s, turns, r) && c < |r.places|
    ensures r.registered <= 1
    ensures r.places[c] == Register ==> c == 0 && r.registered == 0
    ensures r.places[c] == Register ==> forall d | 0 < d < |r.places| :: Stage(r.places[d]) == 2
    ensures r.places[c] == Unlock || Released(r.places[c]) ==> r.registered == 1
  {
    InitialIsInv(s);
    RunKeepsInv(s, turns, r);
    assert c > 0 ==> LockedOut(r, c);
    forall d | 0 < d < |r.places|
      ensures r.places[c] == Register ==> Stage(r.places[d]) == 2
    {
      assert InTurn(r, d);
    }
  }

  // ---- who allocates, and who starts ----

  /** How often core c has allocated its translation tables in the run. */
  function Allocations(s: State, turns: seq<Turn>, c: nat): nat
    requires |s.places| == |s.states| && c < |s.places|
    decreases |turns|
  {
    if turns == [] || turns[0].c >= |s.places| then 0
    else (if turns[0] == Access(c) && s.places[c] == Allocate then 1 else 0) + Allocations(Take(s, turns[0]), turns[1..], c)
  }

  /** How often core 0 has allocated the workspaces and the shared memory. */
  function SharedAllocations(s: State, turns: seq<Turn>): nat
    requires 0 < |s.places| == |s.states|
    decreases |turns|
  {
    if turns == [] || turns[0].c >= |s.places| then 0
    else (if turns[0] == Access(0) && s.places[0] == Workspaces then 1 else 0) + SharedAllocations(Take(s, turns[0]), turns[1..])
  }

  /** The core has been past the allocation of its tables. */
  predicate HasAllocated(p: Place, c: nat) {
    c <= 3 && (p == Finish || Stage(p) == 2)
  }

  /** The core is past the second checkpoint's work. */
  predicate HasShared(p: Place) {
    IsCommon(p) || p == GiftLock || p.LetIn? || p.Await? || ((p.Scan? || p.Release?) && p.point == 2)
  }

  function Once(b: bool): nat {
    if b then 1 else 0
  }

  lemma StepAllocates(s: State, c: nat)
    requires Inv(s) && c < |s.places|
    ensures var n := Step(s, c);
            Once(HasAllocated(n.places[c], c)) == Once(HasAllocated(s.places[c], c)) + Once(s.places[c] == Allocate)
  {
    assert c > 0 ==> InTurn(s, c);
    assert |s.places| == |s.states|;
    AllocatesIfWorking(s, c);
    hide FirstStep, LaterStep, CommonStep, InTurn, HasAllocated, CheckpointsOk, LocksOk, WaitersOk;
    if IsFirst(s.places[c]) {
      FirstHasNotAllocated(s, c);
    } else if IsLater(s.places[c]) {
      LaterHasNotAllocated(s, c);
    } else {
      CommonAllocates(s, c);
    }
  }

  lemma AllocatesIfWorking(s: State, c: nat)
    requires 0 < |s.places| && c < |s.places| && (c > 0 ==> InTurn(s, c))
    ensures s.places[c] == Allocate ==> c <= 3
  {
  }

  lemma CommonAllocates(s: State, c: nat)
    requires c < |s.places| == |s.states| && IsCommon(s.places[c]) && (s.places[c] == Allocate ==> c <= 3)
    ensures var n := CommonStep(s, c);
            Once(HasAllocated(n.places[c], c)) == Once(HasAllocated(s.places[c], c)) + Once(s.places[c] == Allocate)
  {
  }

  lemma LaterHasNotAllocated(s: State, c: nat)
    requires c < |s.places| == |s.states| && IsLater(s.places[c])
    ensures !HasAllocated(s.places[c], c) && !HasAllocated(LaterStep(s, c).places[c], c) && s.places[c] != Allocate
  {
  }

  lemma FirstHasNotAllocated(s: State, c: nat)
    requires c < |s.places| == |s.states| && IsFirst(s.places[c])
    ensures !HasAllocated(s.places[c], c) && !HasAllocated(FirstStep(s, c).places[c], c) && s.places[c] != Allocate
  {
  }

  lemma StepShares(s: State)
    requires Inv(s) && 0 < |s.places|
    ensures Once(HasShared(Step(s, 0).places[0])) == Once(HasShared(s.places[0])) + Once(s.places[0] == Workspaces)
  {
    hide LaterStep, LockOk, WaitersOk;
    if IsFirst(s.places[0]) {
      hide CommonStep;
    } else {
      hide FirstStep;
    }
  }

  lemma TurnLeavesOthers(s: State, turn: Turn, c: nat)
    requires turn.c < |s.places| == |s.states| && c < |s.places| && turn != Access(c)
    ensures Take(s, turn).places[c] == s.places[c]
  {
  }

  lemma {:induction false} RunCounts(s: State, turns: seq<Turn>, r: State, c: nat)
    requires Inv(s) && Reaches(s, turns, r) && c < |s.places|
    ensures |r.places| == |s.places|
    ensures Allocations(s, turns, c) + Once(HasAllocated(s.places[c], c)) == Once(HasAllocated(r.places[c], c))
    ensures SharedAllocations(s, turns) + Once(HasShared(s.places[0])) == Once(HasShared(r.places[0]))
    decreases |turns|
  {
    assert |s.places| == |s.states|;
    hide LocksOk, WaitersOk, CheckpointsOk, Step, HasAllocated, HasShared;
    if turns != [] {
      var turn := turns[0];
      TurnKeepsInv(s, turn);
      RunCounts(Take(s, turn), turns[1..], r, c);
      if turn == Access(c) {
        StepAllocates(s, c);
      } else {
        TurnLeavesOthers(s, turn, c);
      }
      if turn == Access(0) {
        StepShares(s);
      } else {
        TurnLeavesOthers(s, turn, 0);
      }
    }
  }

  /** In every run, each of the cores 0 to 3 allocates its tables exactly once before it goes on to the
      boot lock, and starts; any other core allocates nothing, and is parked. Before anyone allocates
      tables, core 0 has allocated what they share, once. */
  lemma WhoAllocatesAndStarts(s: State, turns: seq<Turn>, r: State, c: nat)
    requires Initial(s) && Reaches(s, turns, r) && c < |r.places|
    ensures |r.places| == |s.places| == |s.states| && Allocations(s, turns, c) <= (if c <= 3 then 1 else 0)
    ensures Stage(r.places[c]) == 2 && c <= 3 ==> Allocations(s, turns, c) == 1
    ensures r.places[c] == Started ==> c <= 3
    ensures r.places[c] == Parked ==> c > 3
    ensures r.places[c] == Allocate || Stage(r.places[c]) == 2 ==> SharedAllocations(s, turns) == 1
    ensures SharedAllocations(s, turns) <= 1
  {
    InitialIsInv(s);
    SamePlaces(s, turns, r);
    RunKeepsInv(s, turns, r);
    RunCounts(s, turns, r, c);
    if r.places[c] == Allocate || Stage(r.places[c]) == 2 {
      ZeroSharesFirst(r, c);
    }
    hide LockOk, LockedOut, WaitersOk, OtherOk, ZeroOk;
    assert c > 0 ==> InTurn(r, c);
  }

  lemma {:induction false} SamePlaces(s: State, turns: seq<Turn>, r: State)
    requires |s.places| == |s.states| && Reaches(s, turns, r)
    ensures |r.places| == |s.places|
    decreases |turns|
  {
    hide Step;
    if turns != [] {
      SamePlaces(Take(s, turns[0]), turns[1..], r);
    }
  }

  lemma ZeroSharesFirst(s: State, c: nat)
    requires Inv(s) && c < |s.places| && (s.places[c] == Allocate || Stage(s.places[c]) == 2)
    ensures HasShared(s.places[0])
  {
    assert c > 0 ==> InTurn(s, c);
  }

  // ---- what holds the boot up ----

  /** The core only goes round a loop, or sleeps: its step, or for core 0 its next scan, changes
      nothing. */
  predicate Waits(s: State, c: nat)
    requires c < |s.places| == |s.states|
  {
    var p := s.places[c];
    Step(s, c) == s || (p.Scan? && exists k | 0 < k < |s.states| :: s.states[k] != p.point)
  }

  predicate Done(p: Place) {
    p == Started || p == Parked
  }

  /** Core 0 sleeps in the claim of the lock that it owns, and whoever is not parked sleeps too. */
  predicate AllAsleep(s: State) {
    0 < |s.places| && Asleep(s, 0) && forall d | 0 < d < |s.places| :: Done(s.places[d]) || Asleep(s, d)
  }

  /** A core that holds core 0 up before the queue can go on itself. */
  lemma StragglerGoesOn(s: State, k: nat)
    requires CheckpointsOk(s) && s.places[0].Scan? && 0 < k < |s.places| && s.states[k] != s.places[0].point
    ensures !Waits(s, k)
  {
    assert OtherOk(s, k);
    assert s.places[k].Spin? || s.places[k].Arrive? || s.places[k].Held?;
  }

  lemma CoreWhoseTurnItIsGoesOn(s: State)
    requires Inv(s) && s.places[0].Await? && Waits(s, 0)
    ensures !Waits(s, s.places[0].i)
  {
    var i := s.places[0].i;
    assert OtherOk(s, i) && InTurn(s, i);
    assert Stage(s.places[i]) != 2;
  }

  lemma OwnerOrClaimantGoesOn(s: State, c: nat)
    requires Inv(s) && s.places[0] == Started && 0 < c < |s.places| && !Done(s.places[c])
    ensures exists d | 0 <= d < |s.places| :: !Waits(s, d)
  {
    assert InTurn(s, c) && LockedOut(s, c);
    if s.lock > 0 {
      var d := s.lock - 1;
      assert d > 0;
      assert LockedOut(s, d);
      assert !Waits(s, d);
    } else if Asleep(s, c) {
      var d :| 0 <= d < |s.places| && s.places[d] == Sev;
      assert !Waits(s, d);
    } else {
      assert !Waits(s, c);
    }
  }

  lemma ClaimantGoesOn(s: State, d: nat)
    requires Inv(s) && s.places[0].Wfe? && 0 < d < |s.places| && !Done(s.places[d]) && !Asleep(s, d)
    ensures !Waits(s, d)
  {
    assert InTurn(s, d) && LockedOut(s, d);
  }

  lemma ScanWaitsForOne(s: State)
    requires CheckpointsOk(s) && s.places[0].Scan? && Waits(s, 0)
    ensures exists k | 0 < k < |s.states| :: s.states[k] != s.places[0].point
  {
  }

  /** Core 0 waits nowhere else before it has started. */
  lemma ZeroGoesOn(s: State)
    requires Inv(s) && Waits(s, 0) && !s.places[0].Scan? && !s.places[0].Await?
    ensures s.places[0] == Started || Asleep(s, 0)
  {
  }

  lemma AllAsleepWait(s: State, d: nat)
    requires Inv(s) && AllAsleep(s) && d < |s.places|
    ensures Waits(s, d)
  {
    assert d > 0 ==> InTurn(s, d);
  }

  lemma SomeoneGoesOn(s: State, c: nat)
    requires Inv(s) && c < |s.places| && !Done(s.places[c]) && !AllAsleep(s)
    ensures exists d | 0 <= d < |s.places| :: !Waits(s, d)
  {
    if Waits(s, 0) {
      var p := s.places[0];
      if p.Scan? {
        ScanWaitsForOne(s);
        var k :| 0 < k < |s.states| && s.states[k] != p.point;
        StragglerGoesOn(s, k);
      } else if p.Await? {
        CoreWhoseTurnItIsGoesOn(s);
      } else {
        ZeroGoesOn(s);
        if p == Started {
          OwnerOrClaimantGoesOn(s, c);
        } else {
          var d :| 0 < d < |s.places| && !Done(s.places[d]) && !Asleep(s, d);
          ClaimantGoesOn(s, d);
        }
      }
    }
  }

  /** Until every core has started or been parked, some core can go on, unless core 0 sleeps in its
      claim of the lock that it was given, and with it every core that is not parked. */
  lemma SomeoneGoesOnIff(s: State, turns: seq<Turn>, r: State, c: nat)
    requires Initial(s) && Reaches(s, turns, r) && c < |r.places| && !Done(r.places[c])
    ensures |r.places| == |r.states|
    ensures (exists d | 0 <= d < |r.places| :: !Waits(r, d)) <==> !AllAsleep(r)
  {
    InitialIsInv(s);
    RunKeepsInv(s, turns, r);
    if AllAsleep(r) {
      forall d | 0 <= d < |r.places|
        ensures Waits(r, d)
      {
        AllAsleepWait(r, d);
      }
    } else {
      SomeoneGoesOn(r, c);
    }
  }

  /** Core 0 has not got past the wfe, and no event has reached it. */
  predicate Dozing(s: State) {
    0 < |s.places| && 0 !in s.events && s.places[0] != Register && s.places[0] != Unlock && !Released(s.places[0])
  }

  lemma TurnKeepsDozing(s: State, turn: Turn)
    requires Inv(s) && turn.c < |s.places| && Dozing(s) && turn != Jolt(0)
    ensures Dozing(Take(s, turn))
  {
    hide Step, Dozing, InTurn, LockedOut;
    if turn.Jolt? {
      JoltKeepsDozing(s, turn.c);
    } else if turn.c == 0 {
      ZeroKeepsDozing(s);
    } else {
      assert InTurn(s, turn.c) && LockedOut(s, turn.c);
      NotAtSev(s, turn.c);
      OtherKeepsDozing(s, turn.c);
    }
  }

  lemma JoltKeepsDozing(s: State, c: nat)
    requires Dozing(s) && 0 < c < |s.places|
    ensures Dozing(s.(events := s.events + {c}))
  {
  }

  lemma ZeroKeepsDozing(s: State)
    requires 0 < |s.places| == |s.states| && Dozing(s) && QueueOk(s) && LockOk(s)
    ensures Dozing(Step(s, 0))
  {
    hide LaterStep;
    if IsFirst(s.places[0]) {
      assert Step(s, 0) == FirstStep(s, 0);
      hide CommonStep;
    } else {
      assert Step(s, 0) == CommonStep(s, 0);
      hide FirstStep;
    }
  }

  lemma NotAtSev(s: State, c: nat)
    requires 0 < c < |s.places| && LockedOut(s, c) && InTurn(s, c) && Dozing(s)
    ensures s.places[c] != Sev && !IsFirst(s.places[c])
  {
  }

  lemma OtherKeepsDozing(s: State, c: nat)
    requires 0 < c < |s.places| == |s.states| && Dozing(s) && s.places[c] != Sev && !IsFirst(s.places[c])
    ensures Dozing(Step(s, c))
  {
    OtherLeaves(s, c);
    hide FirstStep;
  }

  lemma {:induction false} RunKeepsDozing(s: State, turns: seq<Turn>, r: State)
    requires Inv(s) && Dozing(s) && Reaches(s, turns, r) && Jolt(0) !in turns
    ensures Inv(r) && Dozing(r)
    decreases |turns|
  {
    hide LocksOk, WaitersOk, Step;
    if turns != [] {
      TurnKeepsInv(s, turns[0]);
      TurnKeepsDozing(s, turns[0]);
      assert Jolt(0) !in turns[1..];
      RunKeepsDozing(Take(s, turns[0]), turns[1..], r);
    }
  }

  /** If the event register of core 0 is clear at power-on, and no event reaches it from outside,
      the RAM is never registered, and no core ever starts. */
  lemma NeverRegisteredWithoutEvent(s: State, turns: seq<Turn>, r: State, c: nat)
    requires Initial(s) && Reaches(s, turns, r) && 0 !in s.events && Jolt(0) !in turns && c < |r.places|
    ensures r.registered == 0 && r.places[c] != Started
  {
    InitialIsInv(s);
    RunKeepsDozing(s, turns, r);
    assert c > 0 ==> LockedOut(r, c);
  }

  /** Some run without events from outside registers the RAM. */
  ghost predicate CanRegister(s: State)
    requires |s.places| == |s.states|
  {
    exists turns, r :: Reaches(s, turns, r) && Jolt(0) !in turns && r.registered == 1
  }

  /** Once core 0 has got to the wfe of its claim, the boot can go on without events from outside if
      and only if its event register is set. */
  lemma RegistersIff(s: State, turns: seq<Turn>, r: State)
    requires Initial(s) && Reaches(s, turns, r) && 0 < |r.places| && r.places[0].Wfe?
    ensures |r.places| == |r.states| && (CanRegister(r) <==> 0 in r.events)
  {
    InitialIsInv(s);
    RunKeepsInv(s, turns, r);
    hide LockedOut, InTurn, OtherOk, WaitersOk;
    if 0 in r.events {
      EventRegisters(r);
    } else if CanRegister(r) {
      hide Step;
      var more, q :| Reaches(r, more, q) && Jolt(0) !in more && q.registered == 1;
      RunKeepsDozing(r, more, q);
      NotYetRegistered(q);
      assert false;
    }
  }

  lemma NotYetRegistered(s: State)
    requires Inv(s) && Dozing(s)
    ensures s.registered == 0
  {
  }

  lemma EventRegisters(r: State)
    requires 0 < |r.places| == |r.states| && r.places[0] == Wfe(true) && 0 in r.events && r.registered == 0
    ensures CanRegister(r)
  {
    var a := Take(r, Access(0));
    var b := Take(a, Access(0));
    assert Reaches(b, [], b) && [Access(0)][1..] == [];
    assert Reaches(a, [Access(0)], b) && [Access(0), Access(0)][1..] == [Access(0)];
    assert Reaches(r, [Access(0), Access(0)], b);
  }

  // ---- how the boot ends ----

  /** How many accesses a core at the place is from the end of its boot, if it never has to wait:
      at most so many, and fewer after each access that is not part of waiting. */
  function Rank(p: Place, cores: nat): nat {
    match p
    case Init(i) => 4 * cores + 16 + Short(i, cores)
    case Publish => 4 * cores + 15
    case Scan(point, i, done) =>
      (if point == 1 then 3 * cores + 15 else 2 * cores + 13) + Short(i, cores) + if done then 0 else cores + 1
    case Release(point) => if point == 1 then 3 * cores + 14 else 2 * cores + 12
    case Workspaces => 3 * cores + 13
    case GiftLock => 2 * cores + 11
    case LetIn(i) => 2 * Short(i, cores) + 12
    case Await(i) => 2 * Short(i, cores) + 11
    case Spin => 15
    case Arrive(point) => if point == 1 then 14 else 12
    case Held(point) => if point == 1 then 13 else 11
    case Queue => 10
    case Enter => 9
    case Allocate => 8
    case Finish => 7
    case Wfe(own) => if own then 4 else 6
    case Claim => 5
    case Register => 3
    case Unlock => 2
    case Sev => 1
    case Started => 0
    case Parked => 0
  }

  /** What i lacks of n. */
  function Short(i: nat, n: nat): nat {
    if i < n then n - i else 0
  }

  function Total(places: seq<Place>, cores: nat): nat {
    if places == [] then 0 else Rank(places[0], cores) + Total(places[1..], cores)
  }

  lemma {:induction false} TotalGoesDown(places: seq<Place>, c: nat, p: Place, cores: nat)
    requires c < |places| && Rank(p, cores) < Rank(places[c], cores)
    ensures Total(places[c := p], cores) < Total(places, cores)
  {
    hide Rank;
    if c > 0 {
      TotalGoesDown(places[1..], c - 1, p, cores);
      assert places[c := p][1..] == places[1..][c - 1 := p];
    } else {
      assert places[0 := p][1..] == places[1..];
    }
  }

  predicate GoesDown(s: State, c: nat)
    requires c < |s.places| == |s.states|
  {
    Rank(Step(s, c).places[c], |s.places|) < Rank(s.places[c], |s.places|)
  }

  /** Core 0 goes on on its own, except at a checkpoint that others have not reached, while it waits
      for another one to allocate, and when it dozes. */
  lemma ZeroGoesDown(s: State)
    requires Inv(s) && !Dozing(s) && s.places[0] != Started
    requires s.places[0].Await? ==> s.entered == s.places[0].i
    requires s.places[0].Scan? ==> forall k | 1 <= k < |s.states| :: s.states[k] == s.places[0].point
    ensures GoesDown(s, 0)
  {
    hide LaterStep, WaitersOk;
  }

  /** A core that core 0 waits for goes on. */
  lemma OtherGoesDown(s: State, k: nat)
    requires Inv(s) && 0 < k < |s.places|
    requires || (s.places[0].Scan? && s.states[k] != s.places[0].point)
             || (s.places[0] == Await(k) && s.entered != k)
    ensures GoesDown(s, k)
  {
    assert OtherOk(s, k) && InTurn(s, k);
    OtherIsNotFirst(s, k);
    hide FirstStep, LockOk, LockedOut, WaitersOk;
  }

  /** After core 0 has started, the lock's owner goes on, or a core that is waking the others, or any
      core that has not ended yet. */
  lemma ClaimantGoesDown(s: State, c: nat)
    requires Inv(s) && s.places[0] == Started && 0 < c < |s.places| && !Done(s.places[c])
    requires s.lock == c + 1 || s.places[c] == Sev || (s.lock == 0 && !SomeoneAtSev(s))
    ensures GoesDown(s, c)
  {
    assert InTurn(s, c) && LockedOut(s, c);
    assert Asleep(s, c) ==> s.lock > 0 || SomeoneAtSev(s);
    hide FirstStep, LaterStep;
  }

  lemma SomeoneGoesDown(s: State, c: nat) returns (d: nat)
    requires Inv(s) && !Dozing(s) && c < |s.places| && !Done(s.places[c])
    ensures d < |s.places| && GoesDown(s, d)
  {
    hide Step, GoesDown, WaitersOk;
    var p := s.places[0];
    if p.Scan? && exists k | 1 <= k < |s.states| :: s.states[k] != p.point {
      d :| 1 <= d < |s.states| && s.states[d] != p.point;
      OtherGoesDown(s, d);
    } else if p.Await? && s.entered != p.i {
      d := p.i;
      OtherGoesDown(s, d);
    } else if p != Started {
      d := 0;
      ZeroGoesDown(s);
    } else {
      if s.lock > 0 {
        d := s.lock - 1;
        OwnerIsAtUnlock(s);
      } else if SomeoneAtSev(s) {
        d :| 0 <= d < |s.places| && s.places[d] == Sev;
      } else {
        d := c;
      }
      ClaimantGoesDown(s, d);
    }
  }

  lemma OwnerIsAtUnlock(s: State)
    requires Inv(s) && s.places[0] == Started && s.lock > 0
    ensures 1 < s.lock <= |s.places| && s.places[s.lock - 1] == Unlock
  {
    assert LockedOut(s, s.lock - 1);
  }

  lemma StepKeepsAwake(s: State, c: nat)
    requires Inv(s) && !Dozing(s) && c < |s.places|
    ensures !Dozing(Step(s, c))
  {
    assert c > 0 ==> InTurn(s, c);
    hide WaitersOk, LockedOut, InTurn, ZeroOk, OtherOk;
  }

  /** Every core is at the end of its boot, and the RAM has been registered once. */
  predicate Finished(s: State) {
    s.registered == 1 && forall c | 0 <= c < |s.places| :: Done(s.places[c])
  }

  predicate NoJolts(turns: seq<Turn>) {
    forall t | t in turns :: t.Access?
  }

  /** Some run without events from outside gets there. */
  ghost predicate CanFinish(s: State)
    requires |s.places| == |s.states|
  {
    exists turns, r :: Reaches(s, turns, r) && NoJolts(turns) && Finished(r)
  }

  lemma StepMovesOne(s: State, c: nat)
    requires c < |s.places| == |s.states|
    ensures Step(s, c).places == s.places[c := Step(s, c).places[c]]
  {
  }

  lemma {:induction false} AwakeFinishes(s: State)
    requires Inv(s) && !Dozing(s)
    ensures CanFinish(s)
    decreases Total(s.places, |s.places|)
  {
    assert |s.places| == |s.states|;
    hide Step, Done, Dozing, CheckpointsOk, LocksOk, WaitersOk, Rank;
    if exists c :: 0 <= c < |s.places| && !Done(s.places[c]) {
      var c :| 0 <= c < |s.places| && !Done(s.places[c]);
      var d := SomeoneGoesDown(s, c);
      var n := Take(s, Access(d));
      StepMovesOne(s, d);
      TotalGoesDown(s.places, d, n.places[d], |s.places|);
      TurnKeepsInv(s, Access(d));
      StepKeepsAwake(s, d);
      AwakeFinishes(n);
      var turns, r :| Reaches(n, turns, r) && NoJolts(turns) && Finished(r);
      assert ([Access(d)] + turns)[1..] == turns;
      assert Reaches(s, [Access(d)] + turns, r);
    } else {
      assert Reaches(s, [], s);
      DoneIsRegistered(s);
    }
  }

  lemma DoneIsRegistered(s: State)
    requires Inv(s) && forall c | 0 <= c < |s.places| :: Done(s.places[c])
    ensures s.registered == 1
  {
  }

  /** Wherever a run has got to, every core can still get to the end of its boot, without events from
      outside, if and only if core 0 is past the wfe of its claim or its event register is set. */
  lemma FinishesIff(s: State, turns: seq<Turn>, r: State)
    requires Initial(s) && Reaches(s, turns, r)
    ensures |r.places| == |r.states| && (CanFinish(r) <==> !Dozing(r))
  {
    InitialIsInv(s);
    RunKeepsInv(s, turns, r);
    hide Step, CheckpointsOk, LocksOk, WaitersOk;
    if Dozing(r) && CanFinish(r) {
      var more, q :| Reaches(r, more, q) && NoJolts(more) && Finished(q);
      RunKeepsDozing(r, more, q);
      NotYetRegistered(q);
      assert false;
    } else if !Dozing(r) {
      AwakeFinishes(r);
    }
  }

  /** An access by a core changes only that core's place; the event registers follow the sev, the
      wfe and the outside. */
  lemma EventRegistersFollow(s: State, turn: Turn, d: nat)
    requires turn.c < |s.places| == |s.states| && d < |s.places|
    ensures d in Take(s, turn).events
            <==> || turn == Jolt(d) || (turn.Access? && s.places[turn.c] == Sev)
                 || (d in s.events && !(turn == Access(d) && s.places[d].Wfe?))
  {
    hide LaterStep;
    if turn.Access? && IsFirst(s.places[turn.c]) {
      hide CommonStep;
    } else {
      hide FirstStep;
    }
  }
}
