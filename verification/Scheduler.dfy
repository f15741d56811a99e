/** The scheduler of one core (TaskSlot/simple/task_slot.c), and the pipe calls that block and wake
    tasks (TaskSlot/simple/pipes.c), over a heap of linked tasks. */
module Scheduler {
  import opened Words
  import opened TaskRings
  import SleepQueue
  import PipeModel
  import PipeRuns

  /** Where a task is. */
  datatype Place =
    | Runnable                    // in the running ring
    | Asleep                      // in the sleep ring
    | ForInterrupt(device: nat)   // in one entry of irq_tasks
    | ForResume                   // waiting until woken
    | ForSpace(pipe: OsPipe)      // blocked as the sender of a pipe
    | ForData(pipe: OsPipe)       // blocked as the receiver of a pipe
    | Between                     // in no list, while a call moves it from one to another
  {
    predicate Linked() {
      Runnable? || Asleep?
    }

    predicate Quiet() {
      Linked() || Between?
    }

    predicate AtPipe() {
      ForSpace? || ForData?
    }
  }

  /** The lists of a core as values: its two rings, in order from their heads, and where every live
      task is. */
  datatype Layout = Layout(run: seq<Task>, sleep: seq<Task>, place: map<Task, Place>)
  {
    /** The places say which tasks are in which ring. */
    ghost predicate Consistent() {
      && (forall t | t in run :: t in place && place[t].Runnable?)
      && (forall t | t in sleep :: t in place && place[t].Asleep?)
      && (forall t | t in place && place[t].Runnable? :: t in run)
      && (forall t | t in place && place[t].Asleep? :: t in sleep)
    }

    /** No task is on its way from one list to another. */
    ghost predicate Settled() {
      forall t | t in place :: !place[t].Between?
    }

    ghost predicate Alone(t: Task)
      requires t in place
    {
      !place[t].Linked()
    }

    /** The head of the running ring goes elsewhere. */
    ghost function Left(where: Place): Layout
      requires run != []
    {
      Layout(run[1..], sleep, place[run[0] := where])
    }

    ghost function Joined(t: Task, joined: seq<Task>): Layout {
      Layout(joined, sleep, place[t := Runnable])
    }

    lemma JoinedIsSettled(t: Task, joined: seq<Task>)
      requires Settled()
      ensures Joined(t, joined).Settled() && Joined(t, joined).sleep == sleep
      ensures Joined(t, joined).place == place[t := Runnable] && Joined(t, joined).run == joined
    {
    }

    ghost function Slept(t: Task, slept: seq<Task>): Layout {
      Layout(run, slept, place[t := Asleep])
    }

    /** The first z sleepers go into the running ring, straight after its head. */
    ghost function WokenUp(z: nat): Layout
      requires run != [] && z <= |sleep|
    {
      Layout([run[0]] + sleep[..z] + run[1..], sleep[z..],
             map t | t in place :: if t in sleep[..z] then Runnable else place[t])
    }

    lemma WokenUpIsConsistent(z: nat)
      requires Consistent() && run != [] && z <= |sleep| && Distinct(sleep)
      ensures WokenUp(z).Consistent()
    {
      assert run == [run[0]] + run[1..];
      assert sleep == sleep[..z] + sleep[z..];
      assert forall i, j | 0 <= i < z <= j < |sleep| :: sleep[i] != sleep[j];
    }

    /** The woken tasks are in neither of the rings they are put between. */
    lemma WokenUpParts(z: nat)
      requires Consistent() && run != [] && 0 < z <= |sleep| && Distinct(sleep)
      ensures sleep == sleep[..z] + sleep[z..] && sleep[..z][0] == sleep[0] && sleep[..z][z - 1] == sleep[z - 1]
      ensures forall t | t in sleep[..z] :: t !in run && t !in sleep[z..]
      ensures Members(sleep[..z] + sleep[z..]) !! Members(run)
      ensures Members(sleep[z..]) !! Members(sleep[..z]) && Members(sleep[z..]) !! Members(run)
    {
      assert sleep == sleep[..z] + sleep[z..];
      assert forall i, j | 0 <= i < z <= j < |sleep| :: sleep[i] != sleep[j];
      Separate();
    }

    lemma WokenUpIsSettled(z: nat)
      requires Settled() && run != [] && z <= |sleep|
      ensures WokenUp(z).Settled()
    {
    }

    lemma WokenUpAlone(z: nat)
      requires Consistent() && run != [] && z <= |sleep|
      ensures forall t | t in WokenUp(z).place && WokenUp(z).Alone(t) ::
                t in place && Alone(t) && t !in run && t !in sleep
      ensures forall t | t in run :: t in WokenUp(z).run
    {
      assert run == [run[0]] + run[1..];
    }

    /** The head of the running ring becomes its tail. */
    ghost function Yielded(): Layout
      requires run != []
    {
      Layout(run[1..] + [run[0]], sleep, place)
    }

    lemma SleptIsConsistent(t: Task, slept: seq<Task>)
      requires Consistent() && t !in run
      requires forall x :: x in slept <==> x in sleep || x == t
      ensures Slept(t, slept).Consistent()
    {
    }

    lemma LeftIsConsistent(where: Place)
      requires Consistent() && Distinct(run) && run != [] && !where.Linked()
      ensures Left(where).Consistent()
    {
      assert run == [run[0]] + run[1..];
      assert forall i | 1 <= i < |run| :: run[i] != run[0];
    }

    lemma LeftParts(where: Place)
      requires run != []
      ensures Left(where).run == run[1..] && Left(where).sleep == sleep && Left(where).place == place[run[0] := where]
      ensures Settled() && !where.Between? ==> Left(where).Settled()
    {
    }

    lemma JoinedIsConsistent(t: Task, joined: seq<Task>)
      requires Consistent() && t !in sleep
      requires forall x :: x in joined <==> x in run || x == t
      ensures Joined(t, joined).Consistent()
    {
    }

    lemma Separate()
      requires Consistent()
      ensures Members(run) !! Members(sleep)
      ensures forall t | t in sleep :: t in place
      ensures forall t | t in run :: t in place
      ensures forall t | t in place && Alone(t) :: t !in run && t !in sleep
    {
    }
  }

  datatype SleepOutcome = Slept | Yielded | StackInUse | Halted

  datatype InterruptWait = Waits | OutOfRange | ClaimedByAnother

  class OsPipe {
    var debug: bool // is it workspace.kernel.debug_pipe?
    var sender: Task?
    var senderWaitingFor: word
    var senderVa: word
    var receiver: Task?
    var receiverWaitingFor: word
    var receiverVa: word
    const maxBlockSize: PipeModel.blocksize
    var writeIndex: word
    var readIndex: word
    const physical: array<PipeModel.byte>

    constructor (maxBlockSize: PipeModel.blocksize, allocatedMem: word, creator: Task, physical: array<PipeModel.byte>)
      ensures this.maxBlockSize == maxBlockSize && this.physical == physical
      ensures State() == PipeModel.Pipe(false, Some(creator), 0, 0, Some(creator), 0, 0,
                                        maxBlockSize, allocatedMem % 0x1000, allocatedMem % 0x1000, physical[..])
    {
      debug := false;
      sender, receiver := creator, creator;
      senderVa, receiverVa := 0, 0;
      this.maxBlockSize := maxBlockSize;
      this.physical := physical;
      senderWaitingFor, receiverWaitingFor := 0, 0;
      writeIndex, readIndex := allocatedMem % 0x1000, allocatedMem % 0x1000;
    }

    ghost function State(): PipeModel.Pipe<Task>
      reads this, physical
    {
      PipeModel.Pipe(debug, Known(sender), senderWaitingFor, senderVa, Known(receiver), receiverWaitingFor, receiverVa,
                     maxBlockSize, writeIndex, readIndex, physical[..])
    }

    method BecomeDebugPipe()
      modifies this`debug
      ensures State() == old(State()).(debug := true)
    {
      debug := true;
    }

    /** The part of PipeWaitForSpace that is about the pipe. */
    method WaitForSpace(me: Task, amount: word, va: word) returns (outcome: PipeModel.Outcome)
      modifies this
      ensures var r := PipeModel.WaitForSpace(old(State()), me, amount, va);
              State() == r.pipe && outcome == r.outcome
    {
      if sender != me && sender != null && !debug {
        return PipeModel.NotYourPipe;
      }
      if sender == null {
        sender := me;
      }
      if senderVa == 0 {
        senderVa := va;
      }
      var available := Sub(maxBlockSize, Sub(writeIndex, readIndex));
      if available >= amount {
        RemIsMod(writeIndex, maxBlockSize);
        return PipeModel.Continues(available, Add(senderVa, writeIndex % maxBlockSize));
      }
      senderWaitingFor := amount;
      return PipeModel.Blocks;
    }

    /** The part of PipeSpaceFilled that is about the pipe. */
    method SpaceFilled(me: Task, amount: word) returns (outcome: PipeModel.Outcome, wake: Option<PipeModel.Wake<Task>>)
      modifies this
      ensures var r := PipeModel.SpaceFilled(old(State()), me, amount);
              State() == r.pipe && outcome == r.outcome && wake == r.wake
    {
      wake := None;
      if sender != me && !debug {
        return PipeModel.NotYourPipe, wake;
      }
      var available := Sub(maxBlockSize, Sub(writeIndex, readIndex));
      if available < amount {
        return PipeModel.Overfilled, wake;
      }
      writeIndex := Add(writeIndex, amount);
      RemIsMod(writeIndex, maxBlockSize);
      RemIsMod(readIndex, maxBlockSize);
      outcome := PipeModel.Continues(available - amount, Add(senderVa, writeIndex % maxBlockSize));
      var data := Sub(writeIndex, readIndex);
      if receiver != null && receiverWaitingFor > 0 && receiverWaitingFor <= data {
        receiverWaitingFor := 0;
        wake := Some(PipeModel.Wake(receiver, data, Add(receiverVa, readIndex % maxBlockSize)));
      }
    }

    /** The part of PipeWaitForData that is about the pipe. */
    method WaitForData(me: Task, amount: word, va: word) returns (outcome: PipeModel.Outcome)
      modifies this
      ensures var r := PipeModel.WaitForData(old(State()), me, amount, va);
              State() == r.pipe && outcome == r.outcome
    {
      if receiver != me && receiver != null {
        return PipeModel.NotYourPipe;
      }
      if receiver == null {
        receiver := me;
      }
      assert receiver == me; // asserted by the kernel
      if receiverVa == 0 {
        receiverVa := va;
      }
      var available := Sub(writeIndex, readIndex);
      if available >= amount {
        RemIsMod(readIndex, maxBlockSize);
        return PipeModel.Continues(available, Add(receiverVa, readIndex % maxBlockSize));
      }
      receiverWaitingFor := amount;
      return PipeModel.Blocks;
    }

    /** The part of PipeDataConsumed that is about the pipe. */
    method DataConsumed(me: Task, amount: word) returns (outcome: PipeModel.Outcome, wake: Option<PipeModel.Wake<Task>>)
      modifies this
      ensures var r := PipeModel.DataConsumed(old(State()), me, amount);
              State() == r.pipe && outcome == r.outcome && wake == r.wake
    {
      wake := None;
      if receiver != me && !debug {
        return PipeModel.NotYourPipe, wake;
      }
      var available := Sub(writeIndex, readIndex);
      if available < amount {
        return PipeModel.ConsumedTooMuch, wake;
      }
      readIndex := Add(readIndex, amount);
      RemIsMod(writeIndex, maxBlockSize);
      RemIsMod(readIndex, maxBlockSize);
      outcome := PipeModel.Continues(available - amount, Add(receiverVa, readIndex % maxBlockSize));
      var space := Sub(maxBlockSize, Sub(writeIndex, readIndex));
      if sender != null && senderWaitingFor > 0 && senderWaitingFor <= space {
        senderWaitingFor := 0;
        wake := Some(PipeModel.Wake(sender, space, Add(senderVa, writeIndex % maxBlockSize)));
      }
    }

    static function Known(t: Task?): Option<Task> {
      if t == null then None else Some(t)
    }
  }

  ghost function InterruptWaiters(place: map<Task, Place>): set<Task> {
    set t | t in place && place[t].ForInterrupt?
  }

  /** The interrupt table holds exactly the tasks that wait for an interrupt. */
  ghost predicate InterruptsOk(irqTasks: array?<Task?>, sources: nat, place: map<Task, Place>)
    reads InterruptWaiters(place)`regs, irqTasks
  {
    && (irqTasks != null ==>
          && irqTasks.Length == sources
          && forall d | 0 <= d < irqTasks.Length && irqTasks[d] != null ::
               irqTasks[d] in place && place[irqTasks[d]] == ForInterrupt(d))
    && forall t | t in place && place[t].ForInterrupt? ::
         && irqTasks != null && place[t].device < irqTasks.Length && irqTasks[place[t].device] == t
         && HasFlag(t.regs.spsr, IRQS_DISABLED)
  }

  /** resumes counts resumes less waits, and is negative exactly for a task that has to be woken. */
  ghost predicate SemaphoresOk(place: map<Task, Place>)
    reads place.Keys`resumes, place.Keys`resumeCalls, place.Keys`waitCalls
  {
    forall t | t in place :: SemaphoreOk(t, place[t])
  }

  ghost predicate SemaphoreOk(t: Task, where: Place)
    reads t`resumes, t`resumeCalls, t`waitCalls
  {
    && t.resumes == t.resumeCalls - t.waitCalls
    && t.resumes >= -1
    && (t.resumes == -1 <==> where.ForResume?)
  }

  ghost function Sleepers(sleep: seq<Task>): (q: SleepQueue.Queue)
    reads Members(sleep)`regs, Members(sleep)`due
    ensures |q| == |sleep|
    ensures forall i | 0 <= i < |q| :: q[i] == SleepQueue.Sleeper(sleep[i].regs.r1, sleep[i].due)
  {
    if sleep == [] then []
    else [SleepQueue.Sleeper(sleep[0].regs.r1, sleep[0].due)] + Sleepers(sleep[1..])
  }

  ghost function SpaceWaiters(place: map<Task, Place>, p: OsPipe): set<Task> {
    set t | t in place && place[t] == ForSpace(p)
  }

  ghost function DataWaiters(place: map<Task, Place>, p: OsPipe): set<Task> {
    set t | t in place && place[t] == ForData(p)
  }

  ghost predicate PipeOk(p: OsPipe, place: map<Task, Place>)
    reads p, p.physical
  {
    && PipeModel.InBounds(p.State())
    && PipeRuns.WaitersMatch(p.State(), SpaceWaiters(place, p), DataWaiters(place, p))
  }

  ghost predicate PipesOk(pipes: set<OsPipe>, place: map<Task, Place>)
    reads pipes, set p | p in pipes :: p.physical
  {
    && (forall p | p in pipes :: PipeOk(p, place))
    && (forall t | t in place && place[t].AtPipe() :: place[t].pipe in pipes)
  }

  /** Tasks that move without waiting for an interrupt leave the interrupt table alone. */
  lemma InterruptsStayOk(irqTasks: array?<Task?>, sources: nat, place: map<Task, Place>, moved: map<Task, Place>)
    requires InterruptsOk(irqTasks, sources, place)
    requires forall t | t in place && place[t].ForInterrupt? :: t in moved && moved[t] == place[t]
    requires forall t | t in moved && moved[t].ForInterrupt? :: t in place && moved[t] == place[t]
    ensures InterruptsOk(irqTasks, sources, moved)
  {
  }

  /** Tasks that move without being blocked on a pipe leave the pipes' waiters alone. */
  lemma PipesStayOk(pipes: set<OsPipe>, place: map<Task, Place>, moved: map<Task, Place>)
    requires PipesOk(pipes, place)
    requires forall t | t in place && place[t].AtPipe() :: t in moved && moved[t] == place[t]
    requires forall t | t in moved && moved[t].AtPipe() :: t in place && moved[t] == place[t]
    ensures PipesOk(pipes, moved)
  {
    forall p | p in pipes
      ensures PipeOk(p, moved)
    {
      assert SpaceWaiters(place, p) == SpaceWaiters(moved, p);
      assert DataWaiters(place, p) == DataWaiters(moved, p);
    }
  }

  /** One task moves on to, or off, one pipe, whose own state has been seen to. */
  lemma PipesMoved(pipes: set<OsPipe>, place: map<Task, Place>, t: Task, where: Place, pipe: OsPipe)
    requires t in place && (place[t].AtPipe() ==> place[t].pipe == pipe) && (where.AtPipe() ==> where.pipe == pipe)
    requires pipe in pipes && PipeOk(pipe, place[t := where])
    requires forall p | p in pipes && p != pipe :: PipeOk(p, place)
    requires forall x | x in place && place[x].AtPipe() :: place[x].pipe in pipes
    ensures PipesOk(pipes, place[t := where])
  {
    hide PipeModel.InBounds, PipeRuns.WaitersMatch;
    var moved := place[t := where];
    forall p | p in pipes && p != pipe
      ensures PipeOk(p, moved)
    {
      assert SpaceWaiters(place, p) == SpaceWaiters(moved, p);
      assert DataWaiters(place, p) == DataWaiters(moved, p);
    }
  }

  lemma TickedTail(asleep: seq<Task>, q: SleepQueue.Queue, z: nat, limit: int)
    requires q != [] && q[0].delay > 0 && Sleepers(asleep) == SleepQueue.Ticked(q)
    requires z == SleepQueue.ZeroPrefix(SleepQueue.Ticked(q)) && forall w | w in SleepQueue.Woken(q) :: w.due <= limit
    ensures z == |SleepQueue.Woken(q)| <= |asleep| && Sleepers(asleep[z..]) == SleepQueue.AfterTick(q)
    ensures forall t | t in asleep && t !in asleep[z..] :: t.due <= limit
  {
    hide *;
    SleepQueue.WokenAreFirst(q);
    assert asleep == asleep[..z] + asleep[z..];
    forall t | t in asleep[..z]
      ensures t.due <= limit
    {
      var i :| 0 <= i < z && asleep[i] == t;
      assert SleepQueue.Woken(q)[i] in SleepQueue.Woken(q) && SleepQueue.Woken(q)[i].due == t.due;
    }
  }

  class Core {
    var running: Task
    var sleeping: Task?
    var irqTasks: array?<Task?>
    const interruptSources: nat
    ghost const idle: Task
    ghost var now: int                // ticks so far
    ghost var at: Layout
    ghost var pipes: set<OsPipe>

    /** The pointers agree with the layout: both rings are well formed, every task is in the ring
        its place says and in no other, and any other task is linked only to itself. */
    ghost predicate Rings()
      reads this`running, this`sleeping, this`at, at.place.Keys`next, at.place.Keys`prev
    {
      && at.Consistent()
      && (forall t | t in at.place && at.Alone(t) :: t.next == t && t.prev == t)
      && Ring(at.run) && at.run[0] == running && idle in at.run
      && Heads(sleeping, at.sleep)
    }

    /** Everything that depends on the places but not on the rings. */
    ghost predicate OthersOk(place: map<Task, Place>)
      reads this`irqTasks, this`pipes, InterruptWaiters(place)`regs, irqTasks, pipes, set p | p in pipes :: p.physical
      reads place.Keys`resumes, place.Keys`resumeCalls, place.Keys`waitCalls
    {
      InterruptsOk(irqTasks, interruptSources, place) && SemaphoresOk(place) && PipesOk(pipes, place)
    }

    ghost predicate Valid()
      reads this, at.place.Keys, irqTasks, pipes, set p | p in pipes :: p.physical
    {
      Rings() && OthersOk(at.place) && SleepQueue.Good(Sleepers(at.sleep), now)
    }

    /** What every call finds and leaves: no task is between two places. */
    ghost predicate Steady()
      reads this, at.place.Keys, irqTasks, pipes, set p | p in pipes :: p.physical
    {
      Valid() && at.Settled()
    }

    constructor (idle: Task, interruptSources: nat)
      requires Ring([idle]) && idle.resumes == 0 && idle.resumeCalls == idle.waitCalls
      ensures Steady() && at == Layout([idle], [], map[idle := Runnable]) && pipes == {}
      ensures this.idle == idle && this.interruptSources == interruptSources && now == 0
    {
      running, this.idle := idle, idle;
      sleeping := null;
      irqTasks := null;
      this.interruptSources := interruptSources;
      now := 0;
      at := Layout([idle], [], map[idle := Runnable]);
      pipes := {};
    }

    // ---- the parts of the invariant ----

    lemma Parts()
      requires Valid()
      ensures Rings() && OthersOk(at.place) && SleepQueue.Good(Sleepers(at.sleep), now)
    {
    }

    lemma SteadyParts()
      requires Steady()
      ensures Valid() && Rings() && OthersOk(at.place) && SleepQueue.Good(Sleepers(at.sleep), now) && at.Settled()
    {
    }

    /** Every task in a list or in the interrupt table is live. */
    lemma AllAreLive()
      requires Rings()
      ensures Members(at.run) <= at.place.Keys && Members(at.sleep) <= at.place.Keys
      ensures Members(at.run) !! Members(at.sleep)
    {
      at.Separate();
    }

    lemma WaitersAreLive(place: map<Task, Place>)
      ensures InterruptWaiters(place) <= place.Keys
      ensures forall t | t in InterruptWaiters(place) :: place[t].ForInterrupt?
    {
    }

    lemma IsValid()
      requires Rings() && OthersOk(at.place) && SleepQueue.Good(Sleepers(at.sleep), now)
      ensures Valid()
    {
    }

    lemma IsSteady()
      requires Rings() && OthersOk(at.place) && SleepQueue.Good(Sleepers(at.sleep), now) && at.Settled()
      ensures Steady()
    {
    }

    /** The links have been changed to fit a new layout. */
    ghost method Adopt(layout: Layout)
      requires layout.Consistent() && forall t | t in layout.place && layout.Alone(t) :: t.next == t && t.prev == t
      requires Ring(layout.run) && layout.run[0] == running && idle in layout.run && Heads(sleeping, layout.sleep)
      modifies this`at
      ensures at == layout && Rings()
    {
      hide Ring, Heads, Layout.Consistent, Layout.Alone;
      at := layout;
    }

    /** A task that waits for something is in no ring. */
    lemma WaiterIsAlone(t: Task)
      requires Rings() && t in at.place && !at.place[t].Runnable? && !at.place[t].Asleep?
      ensures at.Alone(t) && t !in at.run && t !in at.sleep
    {
    }

    // ---- moving tasks between lists ----

    /** save_task_context */
    method SaveTaskContext(task: Task, frame: SvcFrame)
      modifies task`regs, task.slot`svcSpWhenUnmapped
      ensures task.regs == frame.regs
      ensures task.slot.svcSpWhenUnmapped
              == if task.slot.svcStackOwner == task then frame.above else old(task.slot.svcSpWhenUnmapped)
    {
      task.regs := frame.regs;
      if task.slot.svcStackOwner == task {
        task.slot.svcSpWhenUnmapped := frame.above;
      }
    }

    /** The running task saves its context, which no list depends on. */
    method SaveRunning(frame: SvcFrame, ghost place: map<Task, Place>)
      requires Rings() && running in place && !place[running].ForInterrupt?
      modifies running`regs, running.slot`svcSpWhenUnmapped
      ensures Rings() && (old(OthersOk(place)) ==> OthersOk(place)) && Sleepers(at.sleep) == old(Sleepers(at.sleep)) && running.regs == frame.regs
      ensures running.slot.svcSpWhenUnmapped
              == if running.slot.svcStackOwner == running then frame.above else old(running.slot.svcSpWhenUnmapped)
    {
      hide *;
      AllAreLive();
      RunningIsRunnable();
      WaitersAreLive(place);
      SaveTaskContext(running, frame);
    }

    /** The running task saves its context and leaves the running ring; the next one runs. */
    method Block(frame: SvcFrame, ghost where: Place)
      requires Rings() && running != idle
      requires !where.Runnable? && !where.Asleep? && !where.ForInterrupt?
      modifies this`running, this`at, Members(at.run)`next, Members(at.run)`prev
      modifies running`regs, running.slot`svcSpWhenUnmapped
      ensures Rings() && Sleepers(at.sleep) == old(Sleepers(at.sleep))
      ensures old(OthersOk(at.place[running := where])) ==> OthersOk(at.place)
      ensures at == old(at).Left(where) && old(running).regs == frame.regs
      ensures old(running).slot.svcSpWhenUnmapped
              == if old(running.slot.svcStackOwner == running) then frame.above else old(running.slot.svcSpWhenUnmapped)
    {
      hide *;
      AllAreLive();
      RunningIsRunnable();
      at.LeftParts(where);
      WaitersAreLive(at.place[running := where]);
      SaveRunning(frame, at.place[running := where]);
      Leave(running, where);
    }

    method Leave(was: Task, ghost where: Place)
      requires Rings() && was == running && running != idle && !where.Runnable? && !where.Asleep?
      modifies this`running, this`at, Members(at.run)`next, Members(at.run)`prev
      ensures Rings() && at == old(at).Left(where)
    {
      hide *;
      AllAreLive();
      RunsOn();
      LeavingFacts(where);
      running := running.next;
      assert running != was; // asserted by the kernel wherever a task blocks
      Detach(was, at.run);
      RingOfOne(was);
      Adopt(at.Left(where));
    }

    lemma LeavingFacts(where: Place)
      requires Rings() && running != idle && !where.Runnable? && !where.Asleep?
      ensures Ring(at.run) && at.run[0] == running && Heads(sleeping, at.sleep)
      ensures at.Left(where).Consistent() && at.Left(where).run == at.run[1..] && at.Left(where).sleep == at.sleep
      ensures at.Left(where).place.Keys == at.place.Keys
      ensures forall t | t in at.Left(where).place && at.Left(where).Alone(t) && t != running ::
                t !in Members(at.run) && t.next == t && t.prev == t
    {
      RunsOn();
      at.LeftIsConsistent(where);
      at.Separate();
    }

    /** A task that does not idle is never alone in the running ring. */
    lemma RunsOn()
      requires Rings() && running != idle
      ensures |at.run| > 1 && running.next == at.run[1] != running
      ensures Distinct(at.run) && idle in at.run[1..]
    {
      assert at.run == [running] + at.run[1..];
      Neighbours(at.run, 0);
    }

    lemma RunningIsRunnable()
      requires Rings()
      ensures at.run != [] && running in at.place && at.place[running] == Runnable && running == at.run[0]
      ensures running !in at.sleep && running !in Members(at.sleep) && running in Members(at.run)
      ensures running !in InterruptWaiters(at.place)
    {
      at.Separate();
    }

    lemma JoinFacts(t: Task, joined: seq<Task>)
      requires Rings() && t !in at.run && t !in at.sleep && forall x :: x in joined <==> x in at.run || x == t
      ensures Ring(at.run) && at.run[0] == running && Heads(sleeping, at.sleep)
      ensures idle in joined && t !in Members(at.sleep) && at.Joined(t, joined).Consistent()
      ensures at.Joined(t, joined).place == at.place[t := Runnable]
      ensures at.Joined(t, joined).run == joined && at.Joined(t, joined).sleep == at.sleep
      ensures forall x | x in at.Joined(t, joined).place && at.Joined(t, joined).Alone(x) ::
                x != t && x !in Members(at.run) && x.next == x && x.prev == x
    {
      at.JoinedIsConsistent(t, joined);
      at.Separate();
    }

    /** Back into the running ring, behind every other task. */
    method JoinAtTail(t: Task)
      requires Rings() && t !in at.run && t !in at.sleep && Ring([t]) && OthersOk(at.place[t := Runnable])
      modifies this`running, this`at, t`next, t`prev, Members(at.run)`next, Members(at.run)`prev
      ensures Rings() && OthersOk(at.place) && Sleepers(at.sleep) == old(Sleepers(at.sleep))
      ensures at == old(at).Joined(t, old(at.run) + [t]) && running == old(running)
    {
      hide *;
      AllAreLive();
      WaitersAreLive(at.place[t := Runnable]);
      JoinFacts(t, at.run + [t]);
      running := AttachAtTail(t, running, at.run);
      Adopt(at.Joined(t, at.run + [t]));
    }

    /** Into the running ring, straight after the running task. */
    method JoinAfterRunning(t: Task)
      requires Rings() && t !in at.run && t !in at.sleep && Ring([t]) && OthersOk(at.place[t := Runnable])
      modifies this`at, t`next, t`prev, Members(at.run)`next, Members(at.run)`prev
      ensures Rings() && OthersOk(at.place) && Sleepers(at.sleep) == old(Sleepers(at.sleep))
      ensures at == old(at).Joined(t, [running, t] + old(at.run)[1..])
    {
      hide *;
      AllAreLive();
      WaitersAreLive(at.place[t := Runnable]);
      RunningIsRunnable();
      assert at.run == [running] + at.run[1..];
      JoinFacts(t, [running, t] + at.run[1..]);
      AttachAfterHead(t, running, at.run);
      Adopt(at.Joined(t, [running, t] + at.run[1..]));
    }

    /** Into the running ring as the task to run now. */
    method JoinAtHead(t: Task)
      requires Rings() && t !in at.run && t !in at.sleep && Ring([t]) && OthersOk(at.place[t := Runnable])
      modifies this`running, this`at, t`next, t`prev, Members(at.run)`next, Members(at.run)`prev
      ensures Rings() && OthersOk(at.place) && Sleepers(at.sleep) == old(Sleepers(at.sleep))
      ensures at == old(at).Joined(t, [t] + old(at.run))
    {
      hide *;
      AllAreLive();
      WaitersAreLive(at.place[t := Runnable]);
      RunningHeads();
      JoinFacts(t, [t] + at.run);
      running := Attach(t, running, at.run);
      Adopt(at.Joined(t, [t] + at.run));
    }

    lemma RunningHeads()
      requires Rings()
      ensures Heads(running, at.run)
    {
    }

    /** A task that moves without waiting for an interrupt, for a pipe or to be woken, before or
        after, affects nothing else. */
    lemma OthersStayOk(t: Task, where: Place)
      requires OthersOk(at.place) && where.Quiet()
      requires if t in at.place then at.place[t].Quiet() else SemaphoreOk(t, where)
      ensures OthersOk(at.place[t := where])
    {
      InterruptsStayOk(irqTasks, interruptSources, at.place, at.place[t := where]);
      PipesStayOk(pipes, at.place, at.place[t := where]);
    }

    lemma LeavingIsOk(t: Task)
      requires OthersOk(at.place) && t in at.place && (at.place[t].Runnable? || at.place[t].Asleep?)
      ensures OthersOk(at.place[t := Between])
    {
      OthersStayOk(t, Between);
    }

    // ---- WaitUntilWoken and Resume ----

    /** The count goes down, and a task that would owe a resume waits for one. */
    method CountWait(t: Task)
      requires OthersOk(at.place) && t in at.place && at.place[t] == Runnable
      modifies t`resumes, t`waitCalls
      ensures t.resumes == old(t.resumes) - 1 && t.waitCalls == old(t.waitCalls) + 1
      ensures OthersOk(at.place[t := if t.resumes < 0 then ForResume else Runnable])
    {
      hide InterruptsOk, PipesOk;
      ghost var moved := at.place[t := if t.resumes < 1 then ForResume else Runnable];
      InterruptsStayOk(irqTasks, interruptSources, at.place, moved);
      PipesStayOk(pipes, at.place, moved);
      t.resumes := t.resumes - 1;
      t.waitCalls := t.waitCalls + 1;
      assert SemaphoresOk(moved);
    }

    /** The count goes up, and a task that owed a resume can run. */
    method CountResume(t: Task)
      requires OthersOk(at.place) && t in at.place && t.resumes < 0x7fff_ffff
      modifies t`resumes, t`resumeCalls
      ensures t.resumes == old(t.resumes) + 1 && t.resumeCalls == old(t.resumeCalls) + 1
      ensures old(t.resumes) == -1 <==> at.place[t] == ForResume
      ensures OthersOk(at.place[t := if t.resumes == 0 && at.place[t].ForResume? then Runnable else at.place[t]])
    {
      hide InterruptsOk, PipesOk;
      ghost var moved := at.place[t := if at.place[t].ForResume? then Runnable else at.place[t]];
      InterruptsStayOk(irqTasks, interruptSources, at.place, moved);
      PipesStayOk(pipes, at.place, moved);
      t.resumes := t.resumes + 1;
      t.resumeCalls := t.resumeCalls + 1;
      assert SemaphoresOk(moved);
    }

    method TaskOpWaitUntilWoken(frame: SvcFrame)
      requires Steady() && (running.resumes <= 0 ==> running != idle)
      modifies this`running, this`at, Members(at.run)`next, Members(at.run)`prev
      modifies running`resumes, running`waitCalls, running`regs, running.slot`svcSpWhenUnmapped
      ensures Steady()
      ensures old(running).resumes == old(running.resumes) - 1
      ensures old(running).waitCalls == old(running.waitCalls) + 1
      ensures if old(running.resumes) > 0 then at == old(at) && running.regs == old(running.regs)
              else at == old(at).Left(ForResume) && old(running).regs == frame.regs
      ensures old(running).slot.svcSpWhenUnmapped
              == if old(running.resumes <= 0 && running.slot.svcStackOwner == running) then frame.above
                 else old(running.slot.svcSpWhenUnmapped)
    {
      hide Ring, Heads, Layout.Consistent, OthersOk, Sleepers, SleepQueue.Good;
      RunningIsRunnable();
      var was := running;
      CountWait(was);
      assert Sleepers(at.sleep) == old(Sleepers(at.sleep));
      if was.resumes < 0 {
        Block(frame, ForResume);
      } else {
        assert at.place[was := Runnable] == at.place;
      }
    }

    method TaskOpResume(waiting: Task)
      requires Steady() && waiting in at.place && waiting.resumes < 0x7fff_ffff
      requires waiting.resumes == -1 ==> running.next != running
      modifies this`at, waiting`next, waiting`prev, Members(at.run)`next, Members(at.run)`prev
      modifies waiting`resumes, waiting`resumeCalls
      ensures Steady()
      ensures waiting.resumes == old(waiting.resumes) + 1
      ensures waiting.resumeCalls == old(waiting.resumeCalls) + 1
      ensures old(waiting.resumes) == -1 <==> old(at).place[waiting] == ForResume
      ensures at == if old(waiting.resumes) == -1 then old(at).Joined(waiting, [running, waiting] + old(at.run)[1..])
                    else old(at)
    {
      hide Ring, Heads, Layout.Consistent, OthersOk, Sleepers, SleepQueue.Good;
      at.Separate();
      CountResume(waiting);
      if waiting.resumes == 0 {
        AloneIsRing(waiting);
        JoinAfterRunning(waiting);
      } else {
        assert at.place[waiting := at.place[waiting]] == at.place;
      }
    }

    // ---- new tasks ----

    /** How TaskOpStart fills in the registers of a task whose handle is given. */
    static function StartRegisters(caller: Registers, handle: word): Registers {
      Registers(handle, caller.r3, caller.r4, caller.r5, caller.r6, caller.r7, caller.r8,
                handle, handle, handle, handle, handle, handle, caller.r1 - caller.r1 % 4, 0x10)
    }

    /** A task starts in user mode at its entry point, with its handle in r0 and the caller's r3 to r8
        in r1 to r6. */
    static predicate StartsAs(regs: Registers, caller: Registers, handle: word) {
      && regs.spsr == 0x10 && regs.lr % 4 == 0 && regs.lr <= caller.r1 < regs.lr + 4
      && regs.r0 == handle && regs.r1 == caller.r3 && regs.r2 == caller.r4 && regs.r3 == caller.r5
      && regs.r4 == caller.r6 && regs.r5 == caller.r7 && regs.r6 == caller.r8
      && regs.r7 == regs.r8 == regs.r9 == regs.r10 == regs.r11 == regs.r12 == handle
    }

    lemma StartRegistersAre(caller: Registers, handle: word)
      ensures StartsAs(StartRegisters(caller, handle), caller, handle)
    {
      var n := caller.r1 / 4;
      assert caller.r1 - caller.r1 % 4 == n * 4;
    }

    method NewTask(slot: TaskSlot, caller: Registers, handle: word, taskExit: word) returns (t: Task)
      ensures fresh(t) && Ring([t]) && t.resumes == 0 == t.resumeCalls == t.waitCalls
      ensures t.slot == slot && t.regs == StartRegisters(caller, handle)
      ensures t.bankedSp == caller.r2 && t.bankedLr == taskExit
    {
      t := new Task(slot, StartRegisters(caller, handle));
      t.bankedLr := taskExit;
      t.bankedSp := caller.r2;
    }

    /** TaskOpStart. The core halts if it finds no free slot, or no free task, for it. */
    method TaskOpStart(frame: SvcFrame, handle: word, taskExit: word, slotSp: word, slotFree: bool, taskFree: bool)
      returns (t: Task?)
      requires Steady()
      modifies this`running, this`at, Members(at.run)`next, Members(at.run)`prev, frame`regs
      ensures t == null <==> !taskFree || (HasFlag(old(frame.regs.r0), 0x100) && !slotFree)
      ensures t == null ==> at == old(at) && frame.regs == old(frame.regs)
      ensures t != null ==>
                && fresh(t) && at == old(at).Joined(t, old(at.run) + [t]) && frame.regs == old(frame.regs).(r0 := handle)
                && t.regs == StartRegisters(old(frame.regs), handle)
                && StartsAs(t.regs, old(frame.regs), handle)
                && t.bankedSp == old(frame.regs.r2) && t.bankedLr == taskExit && t.resumes == 0
                && if HasFlag(old(frame.regs.r0), 0x100) then
                     fresh(t.slot) && t.slot.svcStackOwner == null && t.slot.svcSpWhenUnmapped == slotSp
                   else t.slot == running.slot
      ensures Steady() && running == old(running)
    {
      hide *;
      var caller := frame.regs;
      var slot := running.slot;
      if HasFlag(caller.r0, 0x100) {
        if !slotFree {
          return null;
        }
        slot := new TaskSlot(slotSp);
      }
      if !taskFree {
        return null;
      }
      t := NewTask(slot, caller, handle, taskExit);
      StartRegistersAre(caller, handle);
      Admit(t);
      frame.regs := caller.(r0 := handle);
    }

    /** A new task joins the core, at the end of the running ring. */
    method Admit(t: Task)
      requires Steady() && t !in at.place && Ring([t]) && t.resumes == 0 == t.resumeCalls == t.waitCalls
      modifies this`running, this`at, t`next, t`prev, Members(at.run)`next, Members(at.run)`prev
      ensures Steady() && at == old(at).Joined(t, old(at.run) + [t]) && running == old(running)
    {
      hide *;
      SteadyParts();
      NewIsOk(t);
      at.JoinedIsSettled(t, at.run + [t]);
      JoinAtTail(t);
      IsSteady();
    }

    lemma NewIsOk(t: Task)
      requires Rings() && OthersOk(at.place) && t !in at.place && t.resumes == 0 == t.resumeCalls == t.waitCalls
      ensures t !in at.run && t !in at.sleep && OthersOk(at.place[t := Runnable])
    {
      at.Separate();
      hide Rings, OthersOk;
      OthersStayOk(t, Runnable);
    }

    // ---- interrupts ----

    /** The task that waits for an interrupt of a device, if any does. */
    ghost function WaitingFor(device: int): Task?
      reads this`irqTasks, irqTasks
    {
      if irqTasks != null && 0 <= device < irqTasks.Length then irqTasks[device] else null
    }

    /** next_irq_task: the task that waits for the device that interrupts, if one interrupts. */
    method NextIrqTask(source: int) returns (handler: Task?)
      requires Rings() && OthersOk(at.place)
      requires -1 <= source < interruptSources && (source >= 0 ==> WaitingFor(source) != null)
      modifies irqTasks
      ensures handler == if source < 0 then null else old(WaitingFor(source))
      ensures forall d :: WaitingFor(d) == if d == source then null else old(WaitingFor(d))
      ensures if handler == null then OthersOk(at.place)
              else && handler in at.place && at.place[handler] == ForInterrupt(source) && Ring([handler])
                   && OthersOk(at.place[handler := Runnable])
    {
      hide Ring, Heads, Layout.Consistent, PipesOk;
      handler := null;
      if source >= 0 {
        handler := irqTasks[source];
        assert at.place[handler] == ForInterrupt(source);
        PipesStayOk(pipes, at.place, at.place[handler := Runnable]);
        AloneIsRing(handler);
        irqTasks[source] := null;
        assert HasFlag(handler.regs.spsr, IRQS_DISABLED); // asserted by the kernel
      }
    }

    /** The task that waits for the interrupt, if there is one, becomes the running one. */
    method RunHandler(source: int)
      requires Steady()
      requires -1 <= source < interruptSources && (source >= 0 ==> WaitingFor(source) != null)
      modifies this`running, this`at, irqTasks, at.place.Keys`next, at.place.Keys`prev
      ensures Steady()
      ensures source < 0 ==> at == old(at)
      ensures source >= 0 ==> at == old(at).Joined(running, [running] + old(at.run)) && running == old(WaitingFor(source))
      ensures forall d :: WaitingFor(d) == if d == source then null else old(WaitingFor(d))
    {
      hide Ring, Heads, Layout.Consistent, OthersOk, Sleepers, SleepQueue.Good;
      at.Separate();
      var handler := NextIrqTask(source);
      assert Sleepers(at.sleep) == old(Sleepers(at.sleep));
      if handler != null {
        JoinAtHead(handler);
      }
    }

    /** c_run_irq_tasks: the waiting task pre-empts the running one, which was interrupted in user
        mode, or is to resume at resumeSvc. */
    method RunIrqTasks(source: int, resumeSvc: word)
      requires Steady() && (running.regs.lr == resumeSvc || running.regs.spsr % 32 == 0x10)
      requires -1 <= source < interruptSources && (source >= 0 ==> WaitingFor(source) != null)
      modifies this`running, this`at, irqTasks, at.place.Keys`next, at.place.Keys`prev
      ensures Steady()
      ensures source < 0 ==> at == old(at)
      ensures source >= 0 ==> at == old(at).Joined(running, [running] + old(at.run)) && running == old(WaitingFor(source))
      ensures forall d :: WaitingFor(d) == if d == source then null else old(WaitingFor(d))
    {
      hide *;
      assert running.regs.lr == resumeSvc || running.regs.spsr % 32 == 0x10; // asserted by the kernel
      RunHandler(source);
    }

    /** The table of waiting tasks is allocated, empty, for the first task that wants it. */
    method EnsureTable()
      requires Valid()
      modifies this`irqTasks
      ensures Valid() && irqTasks != null && (irqTasks == old(irqTasks) || fresh(irqTasks))
      ensures irqTasks.Length == interruptSources
      ensures forall d :: WaitingFor(d) == old(WaitingFor(d))
    {
      hide Ring, Heads, Layout.Consistent, PipesOk, Sleepers, SleepQueue.Good, SemaphoresOk;
      if irqTasks == null {
        irqTasks := new Task?[interruptSources](_ => null);
        assert Sleepers(at.sleep) == old(Sleepers(at.sleep));
      }
    }

    /** A task that is in no list goes into its entry of the table. */
    method Park(t: Task, device: nat)
      requires OthersOk(at.place) && irqTasks != null && device < interruptSources && WaitingFor(device) == null
      requires t in at.place && at.place[t] == Between && HasFlag(t.regs.spsr, IRQS_DISABLED)
      modifies irqTasks
      ensures OthersOk(at.place[t := ForInterrupt(device)])
      ensures forall d :: WaitingFor(d) == if d == device then t else old(WaitingFor(d))
    {
      hide PipesOk;
      ghost var moved := at.place[t := ForInterrupt(device)];
      PipesStayOk(pipes, at.place, moved);
      assert forall x | x in at.place && at.place[x].ForInterrupt? :: at.place[x].device != device;
      irqTasks[device] := t;
    }

    /** The part of TaskOpWaitForInterrupt before the next interrupt is looked for. */
    method WaitForInterrupt(frame: SvcFrame, device: nat)
      requires Valid() && running != idle && HasFlag(frame.regs.spsr, IRQS_DISABLED)
      requires irqTasks != null && device < interruptSources && WaitingFor(device) == null
      modifies this`running, this`at, irqTasks, Members(at.run)`next, Members(at.run)`prev
      modifies running`regs, running.slot`svcSpWhenUnmapped
      ensures Valid()
      ensures at == old(at).Left(ForInterrupt(device)) && old(running).regs == frame.regs
      ensures old(running).slot.svcSpWhenUnmapped
              == if old(running.slot.svcStackOwner == running) then frame.above else old(running.slot.svcSpWhenUnmapped)
      ensures forall d :: WaitingFor(d) == if d == device then old(running) else old(WaitingFor(d))
    {
      hide Ring, Heads, OthersOk, Sleepers, SleepQueue.Good, Layout.Consistent;
      RunningIsRunnable();
      var was := running;
      LeavingIsOk(was);
      Block(frame, Between);
      Park(was, device);
      assert Sleepers(at.sleep) == old(Sleepers(at.sleep));
      Relabel(was, ForInterrupt(device));
      assert at == old(at).Left(ForInterrupt(device));
    }

    /** A task that is in no ring gets its new place. */
    ghost method Relabel(t: Task, where: Place)
      requires Rings() && t in at.place && at.place[t] == Between && !where.Linked() && OthersOk(at.place[t := where])
      modifies this`at
      ensures Rings() && OthersOk(at.place) && Sleepers(at.sleep) == old(Sleepers(at.sleep))
      ensures at == Layout(old(at.run), old(at.sleep), old(at.place)[t := where])
    {
      hide Ring, Heads, OthersOk, Sleepers;
      ghost var waiters := InterruptWaiters(at.place[t := where]);
      at := Layout(at.run, at.sleep, at.place[t := where]);
    }

    /** TaskOpWaitForInterrupt; source is the device that interrupts meanwhile, if any does. */
    method TaskOpWaitForInterrupt(frame: SvcFrame, device: word, source: int) returns (r: InterruptWait)
      requires Steady() && HasFlag(frame.regs.spsr, IRQS_DISABLED)
      requires device < interruptSources && WaitingFor(device) == null ==>
                 && running != idle && -1 <= source < interruptSources
                 && (source >= 0 && source != device ==> WaitingFor(source) != null)
      modifies this`running, this`at, this`irqTasks, irqTasks, at.place.Keys`next, at.place.Keys`prev
      modifies running`regs, running.slot`svcSpWhenUnmapped
      ensures Steady()
      ensures r == if device >= interruptSources then OutOfRange
                   else if old(WaitingFor(device)) != null then ClaimedByAnother else Waits
      ensures !r.Waits? ==> at == old(at) && forall d :: WaitingFor(d) == old(WaitingFor(d))
      ensures r.Waits? ==>
                && old(running).regs == frame.regs
                && var left := old(at).Left(ForInterrupt(device));
                && (source < 0 ==> at == left)
                && (source >= 0 ==> at == left.Joined(running, [running] + left.run)
                                    && running == if source == device then old(running) else old(WaitingFor(source)))
                && forall d :: WaitingFor(d)
                     == if d == source then null else if d == device then old(running) else old(WaitingFor(d))
      ensures old(running).slot.svcSpWhenUnmapped
              == if r.Waits? && old(running.slot.svcStackOwner == running) then frame.above
                 else old(running.slot.svcSpWhenUnmapped)
    {
      hide Ring, Heads, Layout.Consistent, OthersOk, Sleepers, SleepQueue.Good;
      if device >= interruptSources {
        return OutOfRange;
      }
      at.Separate();
      EnsureTable();
      if irqTasks[device] != null {
        return ClaimedByAnother;
      }
      WaitForInterrupt(frame, device);
      RunHandler(source);
      r := Waits;
    }

    // ---- sleeping ----

    lemma SleepFacts(t: Task, slept: seq<Task>)
      requires Rings() && t !in at.run && t !in at.sleep && forall x :: x in slept <==> x in at.sleep || x == t
      ensures Ring(at.run) && at.run[0] == running && idle in at.run && Heads(sleeping, at.sleep)
      ensures t !in Members(at.run) && at.Slept(t, slept).Consistent() && at.Slept(t, slept).place == at.place[t := Asleep]
      ensures at.Slept(t, slept).run == at.run && at.Slept(t, slept).sleep == slept
      ensures forall x | x in at.Slept(t, slept).place && at.Slept(t, slept).Alone(x) ::
                x != t && x !in Members(at.sleep) && x.next == x && x.prev == x
    {
      at.SleptIsConsistent(t, slept);
      at.Separate();
    }

    /** Into the sleep ring, as the next to wake. */
    method SleepFirst(t: Task)
      requires Rings() && t !in at.run && t !in at.sleep && Ring([t]) && OthersOk(at.place[t := Asleep])
      modifies this`sleeping, this`at, t`next, t`prev, Members(at.sleep)`next, Members(at.sleep)`prev
      ensures Rings() && OthersOk(at.place) && at == old(at).Slept(t, [t] + old(at.sleep))
    {
      hide *;
      AllAreLive();
      WaitersAreLive(at.place[t := Asleep]);
      SleepFacts(t, [t] + at.sleep);
      sleeping := Attach(t, sleeping, at.sleep);
      RingHeads([t] + at.sleep);
      Adopt(at.Slept(t, [t] + at.sleep));
    }

    /** Into the sleep ring, as the last to wake. */
    method SleepLast(t: Task)
      requires Rings() && t !in at.run && t !in at.sleep && Ring([t]) && OthersOk(at.place[t := Asleep])
      requires sleeping != null
      modifies this`sleeping, this`at, t`next, t`prev, Members(at.sleep)`next, Members(at.sleep)`prev
      ensures Rings() && OthersOk(at.place) && at == old(at).Slept(t, old(at.sleep) + [t])
    {
      hide *;
      AllAreLive();
      WaitersAreLive(at.place[t := Asleep]);
      SleepFacts(t, at.sleep + [t]);
      HeadsRing(sleeping, at.sleep);
      sleeping := AttachAtTail(t, sleeping, at.sleep);
      RingHeads(at.sleep + [t]);
      Adopt(at.Slept(t, at.sleep + [t]));
    }

    /** The search of TaskOpSleep: the delays of the k tasks that wake first are subtracted from n. */
    method FindSleepPlace(n: word) returns (halted: bool, insertBefore: Task?, left: word, ghost k: nat)
      requires Heads(sleeping, at.sleep) && sleeping != null
      ensures halted ==> !SleepQueue.Accepted(Sleepers(at.sleep), n)
      ensures !halted ==> SleepQueue.Searching(Sleepers(at.sleep), n, k, left)
      ensures !halted && insertBefore == null ==> k == |at.sleep|
      ensures !halted && insertBefore != null ==>
                k < |at.sleep| && insertBefore == at.sleep[k] && left <= insertBefore.regs.r1
    {
      hide *;
      HeadsRing(sleeping, at.sleep);
      ghost var q := Sleepers(at.sleep);
      SleepQueue.SearchStarts(q, n);
      var sleeper := sleeping;
      halted, insertBefore, left, k := false, null, n, 0;
      while true
        invariant k < |q| && insertBefore == null && sleeper == at.sleep[k] && !halted
        invariant q == Sleepers(at.sleep) && SleepQueue.Searching(q, n, k, left)
        decreases |q| - k
      {
        var delay := sleeper.regs.r1;
        if left <= delay {
          insertBefore := sleeper;
          return;
        }
        SleepQueue.SearchStep(q, n, k, left);
        Onward(at.sleep, k);
        left, k := left - delay, k + 1;
        if !SleepQueue.NonNegative(left) {
          halted := true;
          return;
        }
        sleeper := sleeper.next;
        if sleeper == sleeping {
          return;
        }
      }
    }

    lemma HeadIsFirst()
      requires Rings()
      ensures sleeping == null <==> at.sleep == []
      ensures sleeping != null ==>
                at.sleep != [] && at.sleep[0] == sleeping && sleeping in Members(at.sleep) && sleeping in at.place && at.place[sleeping] == Asleep
      ensures forall i | 0 < i < |at.sleep| :: at.sleep[i] != at.sleep[0]
    {
      assert sleeping != null ==> sleeping in at.sleep;
    }

    /** A task that is in no list becomes the next to wake; what is left of the old first task's
        delay starts when it does. */
    method InsertFirst(t: Task)
      requires Valid() && t in at.place && at.place[t] == Between
      requires t.regs.r1 > 0 && t.due == now + t.regs.r1
      requires sleeping != null ==> t.regs.r1 <= sleeping.regs.r1 && SleepQueue.NonNegative(sleeping.regs.r1 - t.regs.r1)
      modifies this`sleeping, this`at, t`next, t`prev, Members(at.sleep)`next, Members(at.sleep)`prev, Members(at.sleep)`regs
      ensures Valid() && at == old(at).Slept(t, [t] + old(at.sleep)) && t.regs == old(t.regs)
      ensures SleepQueue.Accepted(old(Sleepers(at.sleep)), t.regs.r1)
      ensures Sleepers(at.sleep) == SleepQueue.AfterSleep(old(Sleepers(at.sleep)), t.regs.r1, now)
      ensures forall x | x in old(at.sleep) :: x.regs == old(x.regs).(r1 := x.regs.r1)
    {
      hide Ring, Heads, OthersOk, Layout.Consistent, Sleepers, SleepQueue.Good;
      ghost var q, n, asleep := Sleepers(at.sleep), t.regs.r1, at.sleep;
      HeadIsFirst();
      at.Separate();
      AloneIsRing(t);
      OthersStayOk(t, Asleep);
      assert sleeping != null ==> sleeping !in InterruptWaiters(at.place[t := Asleep]);
      if sleeping != null {
        sleeping.regs := sleeping.regs.(r1 := sleeping.regs.r1 - t.regs.r1);
      }
      SleepFirst(t);
      SleepQueue.SleepKeepsGood(q, n, now);
      assert Sleepers([t] + asleep) == SleepQueue.AfterSleep(q, n, now);
    }

    /** A task that is in no list becomes the last to wake. */
    method InsertLast(t: Task)
      requires Valid() && t in at.place && at.place[t] == Between
      requires t.regs.r1 > 0 && t.due == now + t.regs.r1
      requires sleeping != null && t.regs.r1 > sleeping.regs.r1
      requires SleepQueue.Accepted(Sleepers(at.sleep), t.regs.r1)
      modifies this`sleeping, this`at, t`next, t`prev, Members(at.sleep)`next, Members(at.sleep)`prev
      ensures Valid() && at == old(at).Slept(t, old(at.sleep) + [t])
      ensures Sleepers(at.sleep) == SleepQueue.AfterSleep(old(Sleepers(at.sleep)), t.regs.r1, now)
    {
      hide Ring, Heads, OthersOk, Layout.Consistent, Sleepers, SleepQueue.Good, SleepQueue.Accepted;
      ghost var q, n, asleep := Sleepers(at.sleep), t.regs.r1, at.sleep;
      HeadIsFirst();
      at.Separate();
      AloneIsRing(t);
      OthersStayOk(t, Asleep);
      SleepLast(t);
      SleepQueue.SleepKeepsGood(q, n, now);
      assert Sleepers(asleep + [t]) == SleepQueue.AfterSleep(q, n, now);
    }

    /** A task that is in no list goes to sleep for the n ticks that its saved r1 holds, unless an
        assertion of the kernel fails. left is what the search made of n. */
    method PutToSleep(t: Task) returns (halted: bool, left: word)
      requires Valid() && t in at.place && at.place[t] == Between
      requires t.regs.r1 > 0 && t.due == now + t.regs.r1
      modifies this`sleeping, this`at, t`next, t`prev, Members(at.sleep)`next, Members(at.sleep)`prev, Members(at.sleep)`regs
      ensures t.regs == old(t.regs) && (halted <==> !SleepQueue.Accepted(old(Sleepers(at.sleep)), t.regs.r1))
      ensures !halted ==> Valid() && at.run == old(at.run) && at.place == old(at).place[t := Asleep]
      ensures !halted ==> at.sleep == [t] + old(at.sleep) || at.sleep == old(at.sleep) + [t]
      ensures !halted ==> Sleepers(at.sleep) == SleepQueue.AfterSleep(old(Sleepers(at.sleep)), t.regs.r1, now)
      ensures !halted ==>
                left == t.regs.r1
                        - (if at.sleep == [t] + old(at.sleep) then 0 else SleepQueue.Total(old(Sleepers(at.sleep))))
      ensures forall x | x in old(at.sleep) :: x.regs == old(x.regs).(r1 := x.regs.r1)
    {
      hide Ring, OthersOk, Layout.Consistent, Sleepers, SleepQueue.Good, SleepQueue.Accepted;
      ghost var q, n := Sleepers(at.sleep), t.regs.r1;
      HeadIsFirst();
      at.Separate();
      halted, left := false, t.regs.r1;
      if sleeping == null {
        InsertFirst(t);
      } else {
        var insertBefore;
        ghost var k;
        halted, insertBefore, left, k := FindSleepPlace(t.regs.r1);
        if !halted {
          SleepQueue.SearchDecides(q, n, k, left);
          if insertBefore == null {
            InsertLast(t);
          } else if insertBefore != sleeping || !SleepQueue.NonNegative(insertBefore.regs.r1 - left) {
            halted := true;
          } else {
            InsertFirst(t);
          }
        }
      }
    }

    /** The running task saves its context and goes to the end of the running ring. */
    method StepOn(frame: SvcFrame)
      requires Valid()
      modifies this`running, this`at, running`regs, running.slot`svcSpWhenUnmapped
      ensures Valid() && at == old(at).Yielded() && old(running).regs == frame.regs
      ensures old(running).slot.svcSpWhenUnmapped
              == if old(running.slot.svcStackOwner == running) then frame.above else old(running.slot.svcSpWhenUnmapped)
      ensures (running != old(running)) <==> |at.run| > 1
    {
      hide *;
      Parts();
      AllAreLive();
      RunningIsRunnable();
      WaitersAreLive(at.place);
      SaveRunning(frame, at.place);
      YieldedIsOk();
      running := running.next;
      Adopt(at.Yielded());
      IsValid();
    }

    lemma YieldedIsOk()
      requires Rings()
      ensures at.run != [] && at.Yielded().Consistent() && Ring(at.Yielded().run)
      ensures at.Yielded().run[0] == running.next && idle in at.Yielded().run
      ensures running.next != running <==> |at.Yielded().run| > 1
      ensures Members(at.Yielded().run) == Members(at.run)
      ensures at.Yielded().place == at.place && at.Yielded().sleep == at.sleep && Heads(sleeping, at.sleep)
      ensures forall t | t in at.place && at.Yielded().Alone(t) :: t.next == t && t.prev == t
    {
      Neighbours(at.run, 0);
      var rest := RestFirst(at.run);
      assert forall t | t in at.Yielded().run :: t in at.run;
    }

    /** TaskOpSleep. Only the copy of r1 on the SVC stack is reduced; the saved one stays at n. */
    method TaskOpSleep(frame: SvcFrame, stackTop: word, noStack: word) returns (r: SleepOutcome)
      requires Steady() && (frame.regs.r1 > 0 ==> running != idle)
      modifies this`running, this`at, this`sleeping, at.place.Keys`next, at.place.Keys`prev
      modifies running`regs, running`due, running.slot, Members(at.sleep)`regs, frame`regs
      ensures var n, owns := old(frame.regs.r1), old(running.slot.svcStackOwner == running);
              r == if n == 0 then Yielded else if owns && frame.above != stackTop then StackInUse
                   else if SleepQueue.Accepted(old(Sleepers(at.sleep)), n) then Slept else Halted
      ensures !r.Halted? ==> Steady() && old(running).regs == old(frame.regs)
      ensures r.Yielded? ==>
                && at == old(at).Yielded() && at.run == old(at.run)[1..] + [old(running)]
                && frame.regs == old(frame.regs).(spsr := if |at.run| > 1 then SetCarry(old(frame.regs.spsr))
                                                          else ClearCarry(old(frame.regs.spsr)))
      ensures r.StackInUse? ==> at == old(at).Yielded() && frame.regs == old(frame.regs)
      ensures r.Slept? ==>
                && at.run == old(at.run)[1..] && at.place == old(at.place)[old(running) := Asleep]
                && (at.sleep == [old(running)] + old(at.sleep) || at.sleep == old(at.sleep) + [old(running)])
                && Sleepers(at.sleep) == SleepQueue.AfterSleep(old(Sleepers(at.sleep)), old(frame.regs.r1), now)
      ensures r.Slept? ==>
                && frame.regs == old(frame.regs).(r1 := frame.regs.r1)
                && frame.regs.r1
                   == old(frame.regs.r1)
                      - (if at.sleep == [old(running)] + old(at.sleep) then 0 else SleepQueue.Total(old(Sleepers(at.sleep))))
                && forall x | x in old(at.sleep) :: x.regs == old(x.regs).(r1 := x.regs.r1)
      ensures r.Slept? ==>
                if old(running.slot.svcStackOwner == running) then
                  old(running).slot.svcStackOwner == null && old(running).slot.svcSpWhenUnmapped == noStack
                else
                  && old(running).slot.svcStackOwner == old(running.slot.svcStackOwner)
                  && old(running).slot.svcSpWhenUnmapped == old(running.slot.svcSpWhenUnmapped)
      ensures r.Yielded? || r.StackInUse? ==>
                && old(running).slot.svcStackOwner == old(running.slot.svcStackOwner)
                && old(running).slot.svcSpWhenUnmapped
                   == if old(running.slot.svcStackOwner == running) then frame.above else old(running.slot.svcSpWhenUnmapped)
    {
      hide Ring, Heads, OthersOk, Layout.Consistent, Sleepers, SleepQueue.Good, SleepQueue.Accepted;
      var was, n := running, frame.regs.r1;
      at.Separate();
      RunningIsRunnable();
      var ownsStack := was.slot.svcStackOwner == was;
      if n == 0 {
        StepOn(frame);
        frame.regs := frame.regs.(spsr := if running != was then SetCarry(frame.regs.spsr) else ClearCarry(frame.regs.spsr));
        return Yielded;
      }
      if ownsStack && frame.above != stackTop {
        StepOn(frame);
        return StackInUse;
      }
      var halted := FallAsleep(frame, noStack);
      r := if halted then Halted else Slept;
    }

    /** The part of TaskOpSleep for a task that really is going to sleep. */
    method FallAsleep(frame: SvcFrame, noStack: word) returns (halted: bool)
      requires Valid() && frame.regs.r1 > 0 && running != idle
      modifies this`running, this`at, this`sleeping, at.place.Keys`next, at.place.Keys`prev
      modifies running`regs, running`due, running.slot, Members(at.sleep)`regs, frame`regs
      ensures halted <==> !SleepQueue.Accepted(old(Sleepers(at.sleep)), old(frame.regs.r1))
      ensures !halted ==>
                && Valid() && old(running).regs == old(frame.regs)
                && at.run == old(at.run)[1..] && at.place == old(at.place)[old(running) := Asleep]
                && (at.sleep == [old(running)] + old(at.sleep) || at.sleep == old(at.sleep) + [old(running)])
                && Sleepers(at.sleep) == SleepQueue.AfterSleep(old(Sleepers(at.sleep)), old(frame.regs.r1), now)
      ensures !halted ==>
                && frame.regs == old(frame.regs).(r1 := frame.regs.r1)
                && frame.regs.r1
                   == old(frame.regs.r1)
                      - (if at.sleep == [old(running)] + old(at.sleep) then 0 else SleepQueue.Total(old(Sleepers(at.sleep))))
                && forall x | x in old(at.sleep) :: x.regs == old(x.regs).(r1 := x.regs.r1)
      ensures !halted ==>
                if old(running.slot.svcStackOwner == running) then
                  old(running).slot.svcStackOwner == null && old(running).slot.svcSpWhenUnmapped == noStack
                else
                  && old(running).slot.svcStackOwner == old(running.slot.svcStackOwner)
                  && old(running).slot.svcSpWhenUnmapped == old(running.slot.svcSpWhenUnmapped)
    {
      hide *;
      Parts();
      AllAreLive();
      RunningIsRunnable();
      at.LeftParts(Between);
      var was := running;
      StopRunning(frame, noStack);
      var left;
      halted, left := PutToSleep(was);
      frame.regs := frame.regs.(r1 := left);
    }

    /** The running task, its context saved, is in no list, and gives up its slot's SVC stack. */
    method StopRunning(frame: SvcFrame, noStack: word)
      requires Valid() && running != idle
      modifies this`running, this`at, Members(at.run)`next, Members(at.run)`prev
      modifies running`regs, running`due, running.slot
      ensures Valid() && at == old(at).Left(Between) && Sleepers(at.sleep) == old(Sleepers(at.sleep))
      ensures old(running) in at.place && old(running).regs == frame.regs && old(running).due == now + frame.regs.r1
      ensures if old(running.slot.svcStackOwner == running) then
                old(running).slot.svcStackOwner == null && old(running).slot.svcSpWhenUnmapped == noStack
              else
                && old(running).slot.svcStackOwner == old(running.slot.svcStackOwner)
                && old(running).slot.svcSpWhenUnmapped == old(running.slot.svcSpWhenUnmapped)
    {
      hide *;
      Parts();
      AllAreLive();
      RunningIsRunnable();
      at.LeftParts(Between);
      var was := running;
      LeavingIsOk(was);
      Block(frame, Between);
      if was.slot.svcStackOwner == was {
        was.slot.svcStackOwner := null;
        was.slot.svcSpWhenUnmapped := noStack;
      }
      was.due := now + was.regs.r1;
      IsValid();
    }

    // ---- the ticker ----

    /** The search of c_default_ticker for the last of the z tasks whose time has come. */
    method FindLastToWake() returns (last: Task, ghost z: nat)
      requires Heads(sleeping, at.sleep) && sleeping != null && sleeping.regs.r1 == 0
      ensures 0 < z <= |at.sleep| && last == at.sleep[z - 1]
      ensures z == SleepQueue.ZeroPrefix(Sleepers(at.sleep))
    {
      hide *;
      HeadsRing(sleeping, at.sleep);
      ghost var q := Sleepers(at.sleep);
      SleepQueue.FirstZero(q);
      last, z := sleeping, 1;
      var stillSleeping := sleeping.next;
      Onward(at.sleep, 0);
      while stillSleeping != sleeping && stillSleeping.regs.r1 == 0
        invariant 0 < z <= |at.sleep| && last == at.sleep[z - 1]
        invariant if z < |at.sleep| then stillSleeping == at.sleep[z] != sleeping else stillSleeping == sleeping
        invariant q == Sleepers(at.sleep) && SleepQueue.AllZero(q, z)
        decreases |at.sleep| - z
      {
        SleepQueue.NextZero(q, z);
        last, z := stillSleeping, z + 1;
        Onward(at.sleep, z - 1);
        stillSleeping := stillSleeping.next;
      }
      SleepQueue.ZeroPrefixIs(q, z);
    }

    lemma WakingIsOk(z: nat)
      requires OthersOk(at.place) && z <= |at.sleep| && at.run != []
      requires at.Consistent()
      ensures OthersOk(at.WokenUp(z).place)
    {
      var moved := at.WokenUp(z).place;
      assert forall t | t in at.sleep[..z] :: t in at.sleep;
      InterruptsStayOk(irqTasks, interruptSources, at.place, moved);
      PipesStayOk(pipes, at.place, moved);
    }

    /** The first z tasks of the sleep ring, up to last, move in one go. */
    method WakeUntil(last: Task, ghost z: nat)
      requires Rings() && OthersOk(at.place) && sleeping != null && 0 < z <= |at.sleep| && last == at.sleep[z - 1]
      modifies this`sleeping, this`at, Members(at.run)`next, Members(at.run)`prev, Members(at.sleep)`next, Members(at.sleep)`prev
      ensures Rings() && OthersOk(at.place) && at == old(at).WokenUp(z)
    {
      hide *;
      AllAreLive();
      WakingFacts(z);
      WaitersAreLive(at.WokenUp(z).place);
      sleeping := MoveFront(sleeping, last, running, at.sleep[..z], at.sleep[z..], at.run);
      Adopt(at.WokenUp(z));
    }

    lemma WakingFacts(z: nat)
      requires Rings() && OthersOk(at.place) && sleeping != null && 0 < z <= |at.sleep|
      ensures at.run != [] && at.run[0] == running && Ring(at.run)
      ensures var front, back, woken := at.sleep[..z], at.sleep[z..], at.WokenUp(z);
              && Ring(front + back) && front[0] == sleeping && front[z - 1] == at.sleep[z - 1]
              && (forall t | t in front :: t !in at.run && t !in back)
              && Members(front + back) == Members(at.sleep)
              && Members(front + back) !! Members(at.run) && Members(back) !! Members(front) && Members(back) !! Members(at.run)
              && woken.run == [running] + front + at.run[1..] && woken.sleep == back && idle in woken.run
              && woken.place.Keys == at.place.Keys
              && woken.Consistent() && OthersOk(woken.place)
              && (forall t | t in woken.place && woken.Alone(t) ::
                    t.next == t && t.prev == t && t !in Members(at.run) && t !in Members(at.sleep))
    {
      SleepRingIsDistinct();
      hide Ring, Heads, OthersOk, Layout.Consistent, Layout.WokenUp, Distinct;
      at.WokenUpIsConsistent(z);
      at.WokenUpParts(z);
      at.WokenUpAlone(z);
      WokenUpIs(z);
      WakingIsOk(z);
    }

    lemma WokenUpIs(z: nat)
      requires at.run != [] && z <= |at.sleep|
      ensures at.WokenUp(z).run == [at.run[0]] + at.sleep[..z] + at.run[1..] && at.WokenUp(z).sleep == at.sleep[z..]
      ensures at.WokenUp(z).place.Keys == at.place.Keys
    {
    }

    lemma TickMoves(z: nat)
      requires Rings() && z <= |at.sleep|
      ensures at.run != [] && at.WokenUp(z).sleep == at.sleep[z..]
      ensures at.WokenUp(z).run == [running] + at.sleep[..z] + at.run[1..] && |at.sleep| - |at.WokenUp(z).sleep| == z
    {
      hide Ring, Heads, Layout.Consistent;
    }

    lemma SleepRingIsDistinct()
      requires Rings() && sleeping != null
      ensures at.run != [] && at.run[0] == running
      ensures at.sleep != [] && at.sleep[0] == sleeping && Distinct(at.sleep) && Ring(at.sleep)
    {
    }

    /** c_default_ticker: one tick has passed. Exactly the tasks whose time has come are woken, and
        none of them before the tick it asked for. */
    method Tick()
      requires Steady()
      modifies this`now, this`sleeping, this`at, Members(at.sleep)`regs
      modifies Members(at.run)`next, Members(at.run)`prev, Members(at.sleep)`next, Members(at.sleep)`prev
      ensures Steady() && now == old(now) + 1 && running == old(running)
      ensures at == old(at).WokenUp(|SleepQueue.Woken(old(Sleepers(at.sleep)))|)
      ensures var z := |old(at.sleep)| - |at.sleep|;
              && z >= 0 && at.sleep == old(at.sleep)[z..]
              && at.run == [running] + old(at.sleep)[..z] + old(at.run)[1..]
      ensures Sleepers(at.sleep) == SleepQueue.AfterTick(old(Sleepers(at.sleep)))
      ensures forall t | t in old(at.sleep) && t !in at.sleep :: t.due <= now
      ensures forall t | t in old(at.sleep) ::
                && t.regs == old(t.regs).(r1 := t.regs.r1)
                && t.regs.r1 == old(t.regs.r1) - if t == old(at.sleep)[0] then 1 else 0
    {
      hide *;
      SteadyParts();
      ghost var q := Sleepers(at.sleep);
      WakingNobody();
      FirstDelays();
      WokenAreSome(q);
      TickMoves(|SleepQueue.Woken(q)|);
      at.WokenUpIsSettled(|SleepQueue.Woken(q)|);
      SleepQueue.TickKeepsGood(q, now);
      now := now + 1;
      if sleeping != null {
        FirstCanCountDown();
        WakeSleepers();
      }
      IsSteady();
    }

    /** The part of c_default_ticker for a core where some task sleeps. */
    method WakeSleepers()
      requires Rings() && OthersOk(at.place) && sleeping != null && sleeping.regs.r1 > 0
      requires var q := Sleepers(at.sleep);
               q != [] && q[0].delay > 0 && forall w | w in SleepQueue.Woken(q) :: w.due <= now
      modifies this`sleeping, this`at, Members(at.sleep)`regs
      modifies Members(at.run)`next, Members(at.run)`prev, Members(at.sleep)`next, Members(at.sleep)`prev
      ensures Rings() && OthersOk(at.place) && running == old(running)
      ensures |SleepQueue.Woken(old(Sleepers(at.sleep)))| <= |old(at.sleep)| && old(at.run) != []
      ensures at == old(at).WokenUp(|SleepQueue.Woken(old(Sleepers(at.sleep)))|)
      ensures Sleepers(at.sleep) == SleepQueue.AfterTick(old(Sleepers(at.sleep)))
      ensures forall t | t in old(at.sleep) && t !in at.sleep :: t.due <= now
      ensures forall t | t in old(at.sleep) ::
                && t.regs == old(t.regs).(r1 := t.regs.r1)
                && t.regs.r1 == old(t.regs.r1) - if t == old(at.sleep)[0] then 1 else 0
    {
      hide *;
      AllAreLive();
      HeadIsFirst();
      WakingNobody();
      ghost var q, asleep := Sleepers(at.sleep), at.sleep;
      CountDown();
      if sleeping.regs.r1 == 0 {
        ghost var z := WakeThoseDue();
        TickedTail(asleep, q, z, now);
      } else {
        NobodyIsDue(q);
      }
    }

    lemma FirstCanCountDown()
      requires Rings() && sleeping != null && SleepQueue.Good(Sleepers(at.sleep), now - 1)
      ensures sleeping.regs.r1 > 0 && Sleepers(at.sleep) != [] && Sleepers(at.sleep)[0].delay > 0
      ensures at.sleep != [] && sleeping == at.sleep[0] && sleeping in Members(at.sleep)
    {
      HeadIsFirst();
    }

    lemma WokenAreSome(q: SleepQueue.Queue)
      requires q != [] ==> q[0].delay > 0
      ensures |SleepQueue.Woken(q)| <= |q|
      ensures q == [] ==> SleepQueue.Woken(q) == [] && SleepQueue.AfterTick(q) == []
    {
    }

    lemma FirstDelays()
      requires Rings() && SleepQueue.Good(Sleepers(at.sleep), now)
      ensures Sleepers(at.sleep) != [] ==> Sleepers(at.sleep)[0].delay > 0
      ensures sleeping == null ==> Sleepers(at.sleep) == []
    {
      HeadIsFirst();
    }

    lemma NobodyIsDue(q: SleepQueue.Queue)
      requires q != [] && q[0].delay > 0 && Sleepers(at.sleep) == SleepQueue.Ticked(q) && at.sleep != []
      requires at.sleep[0].regs.r1 != 0
      ensures SleepQueue.Woken(q) == [] && SleepQueue.AfterTick(q) == Sleepers(at.sleep)
    {
    }

    method WakeThoseDue() returns (ghost z: nat)
      requires Rings() && OthersOk(at.place) && sleeping != null && sleeping.regs.r1 == 0
      modifies this`sleeping, this`at, Members(at.run)`next, Members(at.run)`prev, Members(at.sleep)`next, Members(at.sleep)`prev
      ensures z == SleepQueue.ZeroPrefix(old(Sleepers(at.sleep))) && z <= |old(at.sleep)| && old(at.run) != []
      ensures Rings() && OthersOk(at.place) && at == old(at).WokenUp(z) && at.sleep == old(at.sleep)[z..]
      ensures running == old(running)
    {
      hide Ring, Heads, OthersOk, Layout.Consistent, Layout.WokenUp, Sleepers;
      WakingNobody();
      ghost var waiters := InterruptWaiters(at.place);
      var last;
      last, z := FindLastToWake();
      assert OthersOk(at.place);
      WokenUpIs(z);
      WakeUntil(last, z);
    }

    /** The first sleeper's delay goes down by one. */
    method CountDown()
      requires Rings() && OthersOk(at.place) && sleeping != null && sleeping.regs.r1 > 0
      modifies sleeping`regs
      ensures Rings() && OthersOk(at.place)
      ensures Sleepers(at.sleep) == SleepQueue.Ticked(old(Sleepers(at.sleep)))
      ensures sleeping.regs == old(sleeping.regs).(r1 := old(sleeping.regs.r1) - 1)
    {
      hide Ring, Heads, OthersOk, Layout.Consistent, Sleepers;
      HeadIsFirst();
      assert sleeping !in InterruptWaiters(at.place);
      sleeping.regs := sleeping.regs.(r1 := sleeping.regs.r1 - 1);
    }

    lemma WakingNobody()
      requires Rings()
      ensures at.run != [] && at == at.WokenUp(0)
    {
      assert at.run == [at.run[0]] + [] + at.run[1..];
      assert at.place == at.WokenUp(0).place;
    }

    // ---- pipes ----

    lemma PipeParts(pipe: OsPipe)
      requires OthersOk(at.place) && pipe in pipes
      ensures InterruptsOk(irqTasks, interruptSources, at.place) && SemaphoresOk(at.place)
      ensures forall p | p in pipes :: PipeOk(p, at.place)
      ensures forall t | t in at.place && at.place[t].AtPipe() :: at.place[t].pipe in pipes
      ensures PipeModel.InBounds(pipe.State()) && pipe.State().maxBlockSize == pipe.maxBlockSize
      ensures PipeRuns.WaitersMatch(pipe.State(), SpaceWaiters(at.place, pipe), DataWaiters(at.place, pipe))
    {
      assert PipeOk(pipe, at.place);
    }

    /** One task has moved on to, or off, a pipe that has changed to match. */
    lemma PipeMovedIsOk(t: Task, where: Place, pipe: OsPipe)
      requires InterruptsOk(irqTasks, interruptSources, at.place) && SemaphoresOk(at.place) && pipe in pipes
      requires t in at.place && {at.place[t], where} <= {Runnable, ForSpace(pipe), ForData(pipe)}
      requires forall p | p in pipes && p != pipe :: PipeOk(p, at.place)
      requires forall x | x in at.place && at.place[x].AtPipe() :: at.place[x].pipe in pipes
      requires PipeModel.InBounds(pipe.State())
      requires var moved := at.place[t := where];
               PipeRuns.WaitersMatch(pipe.State(), SpaceWaiters(moved, pipe), DataWaiters(moved, pipe))
      ensures OthersOk(at.place[t := where])
    {
      hide InterruptsOk, PipeModel.InBounds, PipeRuns.WaitersMatch;
      assert {at.place[t], where} <= {Runnable, ForSpace(pipe), ForData(pipe)};
      assert at.place[t] in {at.place[t], where} && where in {at.place[t], where};
      PipesMoved(pipes, at.place, t, where, pipe);
      InterruptsStayOk(irqTasks, interruptSources, at.place, at.place[t := where]);
    }

    lemma PipeChangedIsOk(pipe: OsPipe)
      requires InterruptsOk(irqTasks, interruptSources, at.place) && SemaphoresOk(at.place) && pipe in pipes
      requires forall p | p in pipes && p != pipe :: PipeOk(p, at.place)
      requires forall x | x in at.place && at.place[x].AtPipe() :: at.place[x].pipe in pipes
      requires PipeModel.InBounds(pipe.State())
      requires PipeRuns.WaitersMatch(pipe.State(), SpaceWaiters(at.place, pipe), DataWaiters(at.place, pipe))
      ensures OthersOk(at.place)
    {
      hide InterruptsOk, SemaphoresOk, PipeModel.InBounds, PipeRuns.WaitersMatch, SpaceWaiters, DataWaiters;
    }

    lemma RunnerMoves(t: Task, where: Place, pipe: OsPipe)
      requires t in at.place && at.place[t] == Runnable
      ensures t !in SpaceWaiters(at.place, pipe) && t !in DataWaiters(at.place, pipe)
      ensures SpaceWaiters(at.place[t := where], pipe)
              == if where == ForSpace(pipe) then SpaceWaiters(at.place, pipe) + {t} else SpaceWaiters(at.place, pipe)
      ensures DataWaiters(at.place[t := where], pipe)
              == if where == ForData(pipe) then DataWaiters(at.place, pipe) + {t} else DataWaiters(at.place, pipe)
    {
    }

    lemma DataWaiterMoves(t: Task, pipe: OsPipe)
      requires t in DataWaiters(at.place, pipe)
      ensures t in at.place && at.place[t] == ForData(pipe)
      ensures SpaceWaiters(at.place[t := Runnable], pipe) == SpaceWaiters(at.place, pipe)
      ensures DataWaiters(at.place[t := Runnable], pipe) == DataWaiters(at.place, pipe) - {t}
    {
    }

    lemma SpaceWaiterMoves(t: Task, pipe: OsPipe)
      requires t in SpaceWaiters(at.place, pipe)
      ensures t in at.place && at.place[t] == ForSpace(pipe)
      ensures DataWaiters(at.place[t := Runnable], pipe) == DataWaiters(at.place, pipe)
      ensures SpaceWaiters(at.place[t := Runnable], pipe) == SpaceWaiters(at.place, pipe) - {t}
    {
    }

    lemma WakeEffect(r: PipeModel.Result<Task>)
      ensures PipeRuns.Woken(r) == if r.wake.Some? then {r.wake.value.who} else {}
    {
    }

    lemma SenderIs(pipe: OsPipe)
      ensures forall t: Task :: pipe.State().sender == Some(t) <==> pipe.sender == t
    {
    }

    lemma ForeignIsLost(t: Task, pipe: OsPipe)
      requires pipe in pipes && t in at.place && at.place[t] == ForSpace(pipe) && pipe.sender != t
      ensures !Steady()
    {
      assert t in SpaceWaiters(at.place, pipe);
      assert !PipeOk(pipe, at.place);
    }

    /** PipeWaitForSpace. The core stays steady unless the debug pipe blocks a task other than its
        recorded sender, whom nothing wakes again. */
    method PipeWaitForSpace(frame: SvcFrame, pipe: OsPipe, va: word) returns (outcome: PipeModel.Outcome)
      requires Steady() && pipe in pipes
      requires PipeModel.WaitForSpace(pipe.State(), running, frame.regs.r2, va).outcome.Blocks? ==> running != idle
      modifies this`running, this`at, Members(at.run)`next, Members(at.run)`prev
      modifies running`regs, running.slot`svcSpWhenUnmapped, pipe, frame`regs
      ensures Steady() <==> !PipeRuns.Foreign(old(pipe.State()), old(running), old(frame.regs.r2))
      ensures var r := PipeModel.WaitForSpace(old(pipe.State()), old(running), old(frame.regs.r2), va);
              pipe.State() == r.pipe && outcome == r.outcome
      ensures outcome.Continues? ==>
                at == old(at) && frame.regs == old(frame.regs).(r2 := outcome.available, r3 := outcome.location)
      ensures outcome.Blocks? ==>
                && at == old(at).Left(ForSpace(pipe)) && old(running).regs == old(frame.regs)
                && frame.regs == old(frame.regs).(r2 := 0xb00b00b0)
      ensures !outcome.Continues? && !outcome.Blocks? ==> at == old(at) && frame.regs == old(frame.regs)
      ensures old(running).slot.svcSpWhenUnmapped
              == if outcome.Blocks? && old(running.slot.svcStackOwner == running) then frame.above
                 else old(running.slot.svcSpWhenUnmapped)
    {
      hide *;
      SteadyParts();
      AllAreLive();
      WaitersAreLive(at.place);
      RunningIsRunnable();
      at.LeftParts(ForSpace(pipe));
      ghost var foreign := PipeRuns.Foreign(pipe.State(), running, frame.regs.r2);
      outcome := AskSpace(pipe, running, frame.regs.r2, va);
      match outcome {
      case Continues(available, location) =>
        IsSteady();
        frame.regs := frame.regs.(r2 := available, r3 := location);
      case Blocks =>
        BlockAsSender(frame, pipe, foreign);
        frame.regs := frame.regs.(r2 := 0xb00b00b0);
      case _ =>
        IsSteady();
      }
    }

    /** The running task is blocked as a sender of the pipe, which has taken note of another one if the
        task is a foreign one. */
    method BlockAsSender(frame: SvcFrame, pipe: OsPipe, ghost foreign: bool)
      requires Rings() && running != idle && pipe in pipes && at.Settled() && SleepQueue.Good(Sleepers(at.sleep), now)
      requires if foreign then pipe.sender != running else OthersOk(at.place[running := ForSpace(pipe)])
      modifies this`running, this`at, Members(at.run)`next, Members(at.run)`prev
      modifies running`regs, running.slot`svcSpWhenUnmapped
      ensures Steady() <==> !foreign
      ensures at == old(at).Left(ForSpace(pipe)) && old(running).regs == frame.regs
      ensures old(running).slot.svcSpWhenUnmapped
              == if old(running.slot.svcStackOwner == running) then frame.above else old(running.slot.svcSpWhenUnmapped)
    {
      hide *;
      AllAreLive();
      RunningIsRunnable();
      at.LeftParts(ForSpace(pipe));
      ghost var me := running;
      Block(frame, ForSpace(pipe));
      if foreign {
        ForeignIsLost(me, pipe);
      } else {
        IsSteady();
      }
    }

    method AskSpace(pipe: OsPipe, me: Task, amount: word, va: word) returns (outcome: PipeModel.Outcome)
      requires OthersOk(at.place) && pipe in pipes && me in at.place && at.place[me] == Runnable
      modifies pipe
      ensures var r := PipeModel.WaitForSpace(old(pipe.State()), me, amount, va);
              pipe.State() == r.pipe && outcome == r.outcome
      ensures !PipeRuns.Foreign(old(pipe.State()), me, amount) ==>
                OthersOk(if outcome.Blocks? then at.place[me := ForSpace(pipe)] else at.place)
      ensures PipeRuns.Foreign(old(pipe.State()), me, amount) ==> outcome.Blocks? && pipe.sender != me
    {
      hide *;
      PipeParts(pipe);
      RunnerMoves(me, ForSpace(pipe), pipe);
      WaitersAreLive(at.place);
      ghost var foreign := PipeRuns.Foreign(pipe.State(), me, amount);
      if foreign {
        PipeRuns.ForeignBlocks(pipe.State(), me, amount, va);
      } else {
        PipeRuns.AskSpaceKeepsWaiters(pipe.State(), me, amount, va, SpaceWaiters(at.place, pipe), DataWaiters(at.place, pipe));
      }
      outcome := pipe.WaitForSpace(me, amount, va);
      if foreign {
        SenderIs(pipe);
      } else if outcome.Blocks? {
        PipeMovedIsOk(me, ForSpace(pipe), pipe);
      } else {
        PipeChangedIsOk(pipe);
      }
    }

    /** PipeWaitForData. A caller that goes on must have the overflow flag clear, or the core halts. */
    method PipeWaitForData(frame: SvcFrame, pipe: OsPipe, va: word) returns (outcome: PipeModel.Outcome, halted: bool)
      requires Steady() && pipe in pipes
      requires PipeModel.WaitForData(pipe.State(), running, frame.regs.r2, va).outcome.Blocks? ==> running != idle
      modifies this`running, this`at, Members(at.run)`next, Members(at.run)`prev
      modifies running`regs, running.slot`svcSpWhenUnmapped, pipe, frame`regs
      ensures Steady()
      ensures var r := PipeModel.WaitForData(old(pipe.State()), old(running), old(frame.regs.r2), va);
              pipe.State() == r.pipe && outcome == r.outcome
      ensures halted <==> outcome.Continues? && HasFlag(old(frame.regs.spsr), 0x1000_0000)
      ensures outcome.Continues? ==>
                at == old(at) && frame.regs == old(frame.regs).(r2 := outcome.available, r3 := outcome.location)
      ensures outcome.Blocks? ==>
                && at == old(at).Left(ForData(pipe)) && old(running).regs == old(frame.regs)
                && frame.regs == old(frame.regs).(r2 := 0x22002200, r3 := 0x33003300)
      ensures !outcome.Continues? && !outcome.Blocks? ==> at == old(at) && frame.regs == old(frame.regs)
      ensures old(running).slot.svcSpWhenUnmapped
              == if outcome.Blocks? && old(running.slot.svcStackOwner == running) then frame.above
                 else old(running.slot.svcSpWhenUnmapped)
    {
      hide *;
      var overflow := HasFlag(frame.regs.spsr, 0x1000_0000);
      SteadyParts();
      AllAreLive();
      WaitersAreLive(at.place);
      RunningIsRunnable();
      at.LeftParts(ForData(pipe));
      outcome := AskData(pipe, running, frame.regs.r2, va);
      match outcome {
      case Continues(available, location) =>
        frame.regs := frame.regs.(r2 := available, r3 := location);
      case Blocks =>
        Block(frame, ForData(pipe));
        frame.regs := frame.regs.(r2 := 0x22002200, r3 := 0x33003300);
      case _ =>
      }
      halted := outcome.Continues? && overflow;
      IsSteady();
    }

    method AskData(pipe: OsPipe, me: Task, amount: word, va: word) returns (outcome: PipeModel.Outcome)
      requires OthersOk(at.place) && pipe in pipes && me in at.place && at.place[me] == Runnable
      modifies pipe
      ensures var r := PipeModel.WaitForData(old(pipe.State()), me, amount, va);
              pipe.State() == r.pipe && outcome == r.outcome
      ensures OthersOk(if outcome.Blocks? then at.place[me := ForData(pipe)] else at.place)
    {
      hide *;
      PipeParts(pipe);
      RunnerMoves(me, ForData(pipe), pipe);
      WaitersAreLive(at.place);
      PipeRuns.AskDataKeepsWaiters(pipe.State(), me, amount, va, SpaceWaiters(at.place, pipe), DataWaiters(at.place, pipe));
      outcome := pipe.WaitForData(me, amount, va);
      if outcome.Blocks? {
        PipeMovedIsOk(me, ForData(pipe), pipe);
      } else {
        PipeChangedIsOk(pipe);
      }
    }

    /** PipeSpaceFilled: a receiver with enough to read goes to the end of the running ring. The
        receiver of the debug pipe, if there is one, does not call it. */
    method PipeSpaceFilled(frame: SvcFrame, pipe: OsPipe, debugReceiver: Task?)
      returns (outcome: PipeModel.Outcome, wake: Option<PipeModel.Wake<Task>>)
      requires Steady() && pipe in pipes && running != debugReceiver
      modifies this`running, this`at, at.place.Keys`next, at.place.Keys`prev, at.place.Keys`regs, pipe, frame`regs
      ensures Steady() && running == old(running)
      ensures PipeModel.Result(pipe.State(), outcome, wake)
              == PipeModel.SpaceFilled(old(pipe.State()), running, old(frame.regs.r2))
      ensures wake.None? ==> at == old(at)
      ensures wake.Some? ==>
                && wake.value.who in DataWaiters(old(at).place, pipe)
                && at == old(at).Joined(wake.value.who, old(at).run + [wake.value.who])
      ensures forall t | t in old(at).place ::
                t.regs == if wake.Some? && wake.value.who == t
                          then old(t.regs).(r2 := wake.value.available, r3 := wake.value.location) else old(t.regs)
      ensures frame.regs == if outcome.Continues? then old(frame.regs).(r2 := outcome.available, r3 := outcome.location)
                            else old(frame.regs)
    {
      hide *;
      SteadyParts();
      AllAreLive();
      WaitersAreLive(at.place);
      assert running != debugReceiver; // asserted by the kernel
      outcome, wake := Fill(pipe, running, frame.regs.r2);
      assert Sleepers(at.sleep) == old(Sleepers(at.sleep)) && Rings();
      if outcome.Continues? {
        frame.regs := frame.regs.(r2 := outcome.available, r3 := outcome.location);
      }
      if wake.Some? {
        WakeReceiver(wake.value);
      } else {
        IsSteady();
      }
    }

    /** A blocked receiver gets its answer, and a place at the end of the running ring. */
    method WakeReceiver(wake: PipeModel.Wake<Task>)
      requires Rings() && at.Settled() && SleepQueue.Good(Sleepers(at.sleep), now)
      requires wake.who in at.place && at.place[wake.who].ForData? && OthersOk(at.place[wake.who := Runnable])
      modifies this`running, this`at, wake.who`next, wake.who`prev, wake.who`regs, Members(at.run)`next, Members(at.run)`prev
      ensures Steady() && at == old(at).Joined(wake.who, old(at.run) + [wake.who]) && running == old(running)
      ensures wake.who.regs == old(wake.who.regs).(r2 := wake.available, r3 := wake.location)
    {
      hide *;
      at.JoinedIsSettled(wake.who, at.run + [wake.who]);
      WaiterIsAlone(wake.who);
      Notify(wake.who, wake.available, wake.location);
      JoinAtTail(wake.who);
      IsSteady();
    }

    /** A blocked sender gets its answer, and is the next to run. */
    method WakeSender(wake: PipeModel.Wake<Task>)
      requires Rings() && at.Settled() && SleepQueue.Good(Sleepers(at.sleep), now)
      requires wake.who in at.place && at.place[wake.who].ForSpace? && OthersOk(at.place[wake.who := Runnable])
      modifies this`at, wake.who`next, wake.who`prev, wake.who`regs, Members(at.run)`next, Members(at.run)`prev
      ensures Steady() && at == old(at).Joined(wake.who, [running, wake.who] + old(at.run)[1..])
      ensures wake.who.regs == old(wake.who.regs).(r2 := wake.available, r3 := wake.location)
    {
      hide *;
      RunningIsRunnable();
      at.JoinedIsSettled(wake.who, [running, wake.who] + at.run[1..]);
      WaiterIsAlone(wake.who);
      Notify(wake.who, wake.available, wake.location);
      JoinAfterRunning(wake.who);
      IsSteady();
    }

    /** The registers a blocked task will find when it runs again. */
    method Notify(t: Task, available: word, location: word)
      requires Rings() && t in at.place && at.Alone(t) && OthersOk(at.place[t := Runnable])
      modifies t`regs
      ensures Rings() && OthersOk(at.place[t := Runnable]) && Sleepers(at.sleep) == old(Sleepers(at.sleep))
      ensures t.regs == old(t.regs).(r2 := available, r3 := location) && Ring([t])
    {
      AloneIsRing(t);
      hide Ring, Heads, Layout.Consistent, OthersOk, Sleepers;
      at.Separate();
      assert t !in InterruptWaiters(at.place[t := Runnable]);
      ghost var members := Members(at.run) + Members(at.sleep);
      t.regs := t.regs.(r2 := available, r3 := location);
    }

    method Fill(pipe: OsPipe, me: Task, amount: word)
      returns (outcome: PipeModel.Outcome, wake: Option<PipeModel.Wake<Task>>)
      requires OthersOk(at.place) && pipe in pipes
      modifies pipe
      ensures var r := PipeModel.SpaceFilled(old(pipe.State()), me, amount);
              pipe.State() == r.pipe && outcome == r.outcome && wake == r.wake
      ensures wake.None? ==> OthersOk(at.place)
      ensures wake.Some? ==>
                var t := wake.value.who;
                && t in at.place && at.place[t] == ForData(pipe)
                && t in DataWaiters(at.place, pipe) && OthersOk(at.place[t := Runnable])
    {
      hide *;
      PipeParts(pipe);
      WaitersAreLive(at.place);
      WakeEffect(PipeModel.SpaceFilled(pipe.State(), me, amount));
      PipeRuns.FillKeepsWaiters(pipe.State(), me, amount, SpaceWaiters(at.place, pipe), DataWaiters(at.place, pipe));
      outcome, wake := pipe.SpaceFilled(me, amount);
      if wake.Some? {
        DataWaiterMoves(wake.value.who, pipe);
        PipeMovedIsOk(wake.value.who, Runnable, pipe);
      } else {
        assert DataWaiters(at.place, pipe) - {} == DataWaiters(at.place, pipe);
        PipeChangedIsOk(pipe);
      }
    }

    /** PipeDataConsumed: a sender with enough space runs after the running task. Consuming more than
        there is halts the core, and so does the assertion about r3 at the end. */
    method PipeDataConsumed(frame: SvcFrame, pipe: OsPipe)
      returns (outcome: PipeModel.Outcome, wake: Option<PipeModel.Wake<Task>>, halted: bool)
      requires Steady() && pipe in pipes
      modifies this`at, at.place.Keys`next, at.place.Keys`prev, at.place.Keys`regs, pipe, frame`regs
      ensures Steady()
      ensures PipeModel.Result(pipe.State(), outcome, wake)
              == PipeModel.DataConsumed(old(pipe.State()), running, old(frame.regs.r2))
      ensures halted <==> outcome == PipeModel.ConsumedTooMuch || (outcome.Continues? && outcome.location == 0x2a2a2a2a)
      ensures wake.None? ==> at == old(at)
      ensures wake.Some? ==>
                && wake.value.who in SpaceWaiters(old(at).place, pipe)
                && at == old(at).Joined(wake.value.who, [running, wake.value.who] + old(at).run[1..])
      ensures forall t | t in old(at).place ::
                t.regs == if wake.Some? && wake.value.who == t
                          then old(t.regs).(r2 := wake.value.available, r3 := wake.value.location) else old(t.regs)
      ensures frame.regs == if outcome.Continues? then old(frame.regs).(r2 := outcome.available, r3 := outcome.location)
                            else old(frame.regs)
    {
      hide *;
      SteadyParts();
      AllAreLive();
      WaitersAreLive(at.place);
      outcome, wake := Drain(pipe, running, frame.regs.r2);
      assert Sleepers(at.sleep) == old(Sleepers(at.sleep)) && Rings();
      if outcome.Continues? {
        frame.regs := frame.regs.(r2 := outcome.available, r3 := outcome.location);
      }
      halted := outcome == PipeModel.ConsumedTooMuch || (outcome.Continues? && frame.regs.r3 == 0x2a2a2a2a);
      if wake.Some? {
        WakeSender(wake.value);
      } else {
        IsSteady();
      }
    }

    method Drain(pipe: OsPipe, me: Task, amount: word)
      returns (outcome: PipeModel.Outcome, wake: Option<PipeModel.Wake<Task>>)
      requires OthersOk(at.place) && pipe in pipes
      modifies pipe
      ensures var r := PipeModel.DataConsumed(old(pipe.State()), me, amount);
              pipe.State() == r.pipe && outcome == r.outcome && wake == r.wake
      ensures wake.None? ==> OthersOk(at.place)
      ensures wake.Some? ==>
                var t := wake.value.who;
                && t in at.place && at.place[t] == ForSpace(pipe)
                && t in SpaceWaiters(at.place, pipe) && OthersOk(at.place[t := Runnable])
    {
      hide *;
      PipeParts(pipe);
      WaitersAreLive(at.place);
      WakeEffect(PipeModel.DataConsumed(pipe.State(), me, amount));
      PipeRuns.ConsumeKeepsWaiters(pipe.State(), me, amount, SpaceWaiters(at.place, pipe), DataWaiters(at.place, pipe));
      outcome, wake := pipe.DataConsumed(me, amount);
      if wake.Some? {
        SpaceWaiterMoves(wake.value.who, pipe);
        PipeMovedIsOk(wake.value.who, Runnable, pipe);
      } else {
        assert SpaceWaiters(at.place, pipe) - {} == SpaceWaiters(at.place, pipe);
        PipeChangedIsOk(pipe);
      }
    }

    /** A pipe becomes the debug pipe. */
    method BecomeDebugPipe(pipe: OsPipe)
      requires Steady() && pipe in pipes
      modifies pipe`debug
      ensures Steady() && pipe.State() == old(pipe.State()).(debug := true)
    {
      hide *;
      SteadyParts();
      AllAreLive();
      WaitersAreLive(at.place);
      PipeParts(pipe);
      PipeRuns.DebugKeepsWaiters(pipe.State(), SpaceWaiters(at.place, pipe), DataWaiters(at.place, pipe));
      pipe.BecomeDebugPipe();
      PipeChangedIsOk(pipe);
      IsSteady();
    }

    /** PipeCreate: the running task is both ends of the new pipe. There may be no room for one. */
    method PipeCreate(frame: SvcFrame, room: bool, physical: array<PipeModel.byte>, handle: word) returns (pipe: OsPipe?)
      requires Steady()
      modifies this`pipes, frame`regs
      ensures Steady()
      ensures pipe == null <==> old(frame.regs.r3) != 0 || old(frame.regs.r2) == 0 || !room
      ensures pipe == null ==> pipes == old(pipes) && frame.regs == old(frame.regs)
      ensures pipe != null ==>
                && fresh(pipe) && pipes == old(pipes) + {pipe} && frame.regs == old(frame.regs).(r1 := handle)
                && var (size, start) := (old(frame.regs.r2), old(frame.regs.r4) % 0x1000);
                   pipe.State() == PipeModel.Pipe(false, Some(running), 0, 0, Some(running), 0, 0, size, start, start,
                                                  physical[..])
    {
      hide Ring, Heads, Layout.Consistent, OthersOk, Sleepers, SleepQueue.Good;
      pipe := null;
      if frame.regs.r3 == 0 && frame.regs.r2 > 0 && room {
        ghost var waiters := InterruptWaiters(at.place);
        pipe := new OsPipe(frame.regs.r2, frame.regs.r4, running, physical);
        assert Sleepers(at.sleep) == old(Sleepers(at.sleep));
        frame.regs := frame.regs.(r1 := handle);
        ghost var members := Members(at.run) + Members(at.sleep);
        AddPipe(pipe);
      }
    }

    method AddPipe(pipe: OsPipe)
      requires OthersOk(at.place) && pipe !in pipes
      requires pipe.senderWaitingFor == 0 == pipe.receiverWaitingFor
      requires pipe.readIndex == pipe.writeIndex
      requires forall t | t in at.place :: at.place[t] != ForSpace(pipe) && at.place[t] != ForData(pipe)
      modifies this`pipes
      ensures pipes == old(pipes) + {pipe} && OthersOk(at.place)
    {
      hide InterruptsOk, SemaphoresOk;
      assert SpaceWaiters(at.place, pipe) == {} && DataWaiters(at.place, pipe) == {};
      pipes := pipes + {pipe};
    }
  }

  // ---- what the invariant means, in terms of the kernel's own variables only ----

  ghost predicate HandlesInterrupt(c: Core, t: Task)
    reads c, c.irqTasks
  {
    c.irqTasks != null && exists d | 0 <= d < c.irqTasks.Length :: c.irqTasks[d] == t
  }

  ghost predicate BlockedSender(c: Core, t: Task)
    reads c, c.pipes
  {
    exists p | p in c.pipes :: p.sender == t && p.senderWaitingFor > 0
  }

  ghost predicate BlockedReceiver(c: Core, t: Task)
    reads c, c.pipes
  {
    exists p | p in c.pipes :: p.receiver == t && p.receiverWaitingFor > 0
  }

  function Count(b: bool): nat {
    if b then 1 else 0
  }

  lemma BlockedEndsArePlaces(c: Core, t: Task)
    requires c.Valid() && t in c.at.place
    ensures BlockedSender(c, t) <==> c.at.place[t].ForSpace?
    ensures BlockedReceiver(c, t) <==> c.at.place[t].ForData?
  {
    forall p | p in c.pipes
      ensures p.sender == t && p.senderWaitingFor > 0 <==> t in SpaceWaiters(c.at.place, p)
      ensures p.receiver == t && p.receiverWaitingFor > 0 <==> t in DataWaiters(c.at.place, p)
    {
      assert PipeOk(p, c.at.place);
    }
    if c.at.place[t].AtPipe() {
      assert c.at.place[t].pipe in c.pipes;
    }
  }

  /** Between calls every live task is in exactly one place, and one that is in no ring is linked
      only to itself. */
  lemma ExactlyOnePlace(c: Core, t: Task)
    requires c.Steady() && t in c.at.place
    ensures Count(t in c.at.run) + Count(t in c.at.sleep) + Count(HandlesInterrupt(c, t)) + Count(t.resumes < 0)
            + Count(BlockedSender(c, t)) + Count(BlockedReceiver(c, t)) == 1
    ensures t !in c.at.run && t !in c.at.sleep ==> t.next == t && t.prev == t
    ensures c.idle in c.at.run
  {
    hide Ring, Heads;
    BlockedEndsArePlaces(c, t);
    hide PipesOk;
    assert HandlesInterrupt(c, t) <==> c.at.place[t].ForInterrupt?;
    assert t in c.at.run <==> c.at.place[t].Runnable?;
    assert t in c.at.sleep <==> c.at.place[t].Asleep?;
    assert SemaphoreOk(t, c.at.place[t]);
  }
}
