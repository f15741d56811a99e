/** Whole runs of a pipe: what the receiver reads, who waits, and who is woken. */
module PipeRuns {
  import opened Words
  import opened PipeModel

  /** A pipe, the tasks that are blocked on its ends, and its history. */
  datatype World<Id> = World(pipe: Pipe<Id>, spaceWaiters: set<Id>, dataWaiters: set<Id>,
                             written: seq<byte>, consumed: seq<byte>)

  datatype Event<Id> =
    | AskSpace(me: Id, amount: word, va: word)
    | Write(k: nat, b: byte) // the sender stores a byte in the space it was granted
    | Fill(me: Id, amount: word)
    | AskData(me: Id, amount: word, va: word)
    | Consume(me: Id, amount: word)

  /** The refinement: written is the unbounded queue's input, consumed its output. */
  predicate Refines<Id>(w: World<Id>) {
    Sound(w.pipe) && w.written == w.consumed + Contents(w.pipe)
  }

  /** Each waiting_for field is non-zero exactly while its task is blocked, and then asks for more
      than there is: no wake-up has been missed. */
  predicate NoLostWakeup<Id>(w: World<Id>) {
    WaitersMatch(w.pipe, w.spaceWaiters, w.dataWaiters)
  }

  predicate WaitersMatch<Id>(p: Pipe<Id>, spaceWaiters: set<Id>, dataWaiters: set<Id>) {
    SendersMatch(p, spaceWaiters) && ReceiversMatch(p, dataWaiters)
  }

  predicate SendersMatch<Id>(p: Pipe<Id>, spaceWaiters: set<Id>) {
    if p.senderWaitingFor == 0 then spaceWaiters == {}
    else p.sender.Some? && spaceWaiters == {p.sender.value} && p.senderWaitingFor > Space(p)
  }

  predicate ReceiversMatch<Id>(p: Pipe<Id>, dataWaiters: set<Id>) {
    if p.receiverWaitingFor == 0 then dataWaiters == {}
    else p.receiver.Some? && dataWaiters == {p.receiver.value} && p.receiverWaitingFor > Data(p)
  }

  /** Blocked tasks make no calls, the sender stays in its space, and consuming too much halts. */
  predicate Allowed<Id(==)>(w: World<Id>, e: Event<Id>) {
    && (!e.Write? ==> e.me !in w.spaceWaiters && e.me !in w.dataWaiters)
    && match e
       case AskSpace(_, _, va) => GoodVa(va, w.pipe.maxBlockSize)
       case Write(k, _) => k < Space(w.pipe)
       case Fill(_, _) => true
       case AskData(_, _, va) => GoodVa(va, w.pipe.maxBlockSize)
       case Consume(me, amount) => DataConsumed(w.pipe, me, amount).outcome != ConsumedTooMuch
  }

  predicate Enabled<Id(==)>(w: World<Id>, e: Event<Id>) {
    Refines(w) && Allowed(w, e)
  }

  function Call<Id(==)>(w: World<Id>, e: Event<Id>): Result<Id>
    requires Enabled(w, e) && !e.Write?
  {
    match e
    case AskSpace(me, amount, va) => WaitForSpace(w.pipe, me, amount, va)
    case Fill(me, amount) => SpaceFilled(w.pipe, me, amount)
    case AskData(me, amount, va) => WaitForData(w.pipe, me, amount, va)
    case Consume(me, amount) => DataConsumed(w.pipe, me, amount)
  }

  /** What the sender has put where it was told to write. */
  function SentBlock<Id>(p: Pipe<Id>, amount: word): seq<byte>
    requires Sound(p) && amount <= Space(p)
  {
    LocationInMapping(p.senderVa, p.maxBlockSize, p.writeIndex);
    SeenAt(p, p.senderVa, WriteLocation(p), amount)
  }

  /** What the receiver finds where it was told to read. */
  function ReceivedBlock<Id>(p: Pipe<Id>, amount: word): seq<byte>
    requires Sound(p) && amount <= Data(p)
  {
    LocationInMapping(p.receiverVa, p.maxBlockSize, p.readIndex);
    SeenAt(p, p.receiverVa, ReadLocation(p), amount)
  }

  function Woken<Id>(r: Result<Id>): set<Id> {
    if r.wake.Some? then {r.wake.value.who} else {}
  }

  function Next<Id(==)>(w: World<Id>, e: Event<Id>): World<Id>
    requires Enabled(w, e)
  {
    match e
    case Write(k, b) => w.(pipe := Store(w.pipe, k, b))
    case AskSpace(me, _, _) =>
      var r := Call(w, e);
      w.(pipe := r.pipe, spaceWaiters := if r.outcome.Blocks? then w.spaceWaiters + {me} else w.spaceWaiters)
    case AskData(me, _, _) =>
      var r := Call(w, e);
      w.(pipe := r.pipe, dataWaiters := if r.outcome.Blocks? then w.dataWaiters + {me} else w.dataWaiters)
    case Fill(me, amount) =>
      var r := Call(w, e);
      w.(pipe := r.pipe, dataWaiters := w.dataWaiters - Woken(r),
         written := if r.outcome.Continues? then w.written + SentBlock(w.pipe, amount) else w.written)
    case Consume(me, amount) =>
      var r := Call(w, e);
      w.(pipe := r.pipe, spaceWaiters := w.spaceWaiters - Woken(r),
         consumed := if r.outcome.Continues? then w.consumed + ReceivedBlock(w.pipe, amount) else w.consumed)
  }

  // ---- one step ----

  lemma WriteKeepsRefinement<Id>(w: World<Id>, e: Event<Id>)
    requires Enabled(w, e) && e.Write?
    ensures Refines(Next(w, e)) && Data(Next(w, e).pipe) == Data(w.pipe)
  {
    StoreIsInvisible(w.pipe, e.k, e.b);
  }

  lemma AskKeepsRefinement<Id>(w: World<Id>, e: Event<Id>)
    requires Enabled(w, e) && (e.AskSpace? || e.AskData?)
    ensures Refines(Next(w, e))
  {
    assert Contents(Next(w, e).pipe) == Contents(w.pipe);
  }

  lemma FillKeepsRefinement<Id>(w: World<Id>, e: Event<Id>)
    requires Enabled(w, e) && e.Fill?
    ensures Refines(Next(w, e))
  {
    var r := Call(w, e);
    if r.outcome.Continues? {
      var q := Filled(w.pipe, e.amount);
      FillAppends(w.pipe, e.amount);
      assert r.pipe == q || r.pipe == q.(receiverWaitingFor := 0);
      assert Contents(r.pipe) == Contents(q);
      var block := SentBlock(w.pipe, e.amount);
      assert w.written + block == w.consumed + (Contents(w.pipe) + block);
    }
  }

  lemma ConsumeKeepsRefinement<Id>(w: World<Id>, e: Event<Id>)
    requires Enabled(w, e) && e.Consume?
    ensures Refines(Next(w, e))
  {
    var r := Call(w, e);
    if r.outcome.Continues? {
      var q := Consumed(w.pipe, e.amount);
      ConsumeDrops(w.pipe, e.amount);
      ReadsPrefix(w.pipe, e.amount);
      assert r.pipe == q || r.pipe == q.(senderWaitingFor := 0);
      assert Contents(r.pipe) == Contents(q);
      var c := Contents(w.pipe);
      assert w.consumed + c == (w.consumed + c[..e.amount]) + c[e.amount..];
    }
  }

  lemma ReadsPrefix<Id>(p: Pipe<Id>, amount: word)
    requires Sound(p) && amount <= Data(p)
    ensures InMapping(p.receiverVa, p.maxBlockSize, ReadLocation(p), amount)
    ensures SeenAt(p, p.receiverVa, ReadLocation(p), amount) == Contents(p)[..amount]
  {
    ReceiverSeesContents(p);
    assert SeenAt(p, p.receiverVa, ReadLocation(p), amount)
        == SeenAt(p, p.receiverVa, ReadLocation(p), Data(p))[..amount];
  }

  lemma StepKeepsRefinement<Id>(w: World<Id>, e: Event<Id>)
    requires Enabled(w, e)
    ensures Refines(Next(w, e))
  {
    match e
    case Write(_, _) => WriteKeepsRefinement(w, e);
    case AskSpace(_, _, _) => AskKeepsRefinement(w, e);
    case AskData(_, _, _) => AskKeepsRefinement(w, e);
    case Fill(_, _) => FillKeepsRefinement(w, e);
    case Consume(_, _) => ConsumeKeepsRefinement(w, e);
  }

  /** On the debug pipe, a task other than the recorded sender asks for more space than there is. */
  predicate Foreign<Id(==)>(p: Pipe<Id>, me: Id, amount: word) {
    p.debug && p.sender.Some? && p.sender.value != me && Space(p) < amount
  }

  predicate ForeignBlock<Id(==)>(w: World<Id>, e: Event<Id>) {
    e.AskSpace? && Foreign(w.pipe, e.me, e.amount)
  }

  lemma ForeignBlocks<Id>(p: Pipe<Id>, me: Id, amount: word, va: word)
    requires Foreign(p, me, amount)
    ensures var r := WaitForSpace(p, me, amount, va);
            r.outcome == Blocks && r.pipe.sender == p.sender && r.pipe.sender != Some(me)
  {
  }

  lemma AskSpaceKeepsWaiters<Id>(p: Pipe<Id>, me: Id, amount: word, va: word, spaceWaiters: set<Id>, dataWaiters: set<Id>)
    requires InBounds(p) && WaitersMatch(p, spaceWaiters, dataWaiters)
    requires me !in spaceWaiters && !Foreign(p, me, amount)
    ensures var r := WaitForSpace(p, me, amount, va);
            && InBounds(r.pipe)
            && WaitersMatch(r.pipe, if r.outcome.Blocks? then spaceWaiters + {me} else spaceWaiters, dataWaiters)
  {
    assert Data(WaitForSpace(p, me, amount, va).pipe) == Data(p);
  }

  lemma AskDataKeepsWaiters<Id>(p: Pipe<Id>, me: Id, amount: word, va: word, spaceWaiters: set<Id>, dataWaiters: set<Id>)
    requires InBounds(p) && WaitersMatch(p, spaceWaiters, dataWaiters)
    requires me !in dataWaiters
    ensures var r := WaitForData(p, me, amount, va);
            && InBounds(r.pipe)
            && WaitersMatch(r.pipe, spaceWaiters, if r.outcome.Blocks? then dataWaiters + {me} else dataWaiters)
  {
    assert Data(WaitForData(p, me, amount, va).pipe) == Data(p);
  }

  /** Which pipe is the debug pipe does not matter to those who wait already. */
  lemma DebugKeepsWaiters<Id>(p: Pipe<Id>, spaceWaiters: set<Id>, dataWaiters: set<Id>)
    requires InBounds(p) && WaitersMatch(p, spaceWaiters, dataWaiters)
    ensures var n := p.(debug := true); InBounds(n) && WaitersMatch(n, spaceWaiters, dataWaiters)
  {
  }

  lemma AskSpaceKeepsWakeupsIff<Id>(w: World<Id>, e: Event<Id>)
    requires Enabled(w, e) && NoLostWakeup(w) && e.AskSpace?
    ensures NoLostWakeup(Next(w, e)) <==> !ForeignBlock(w, e)
  {
    var n := Next(w, e);
    assert Data(n.pipe) == Data(w.pipe);
    if ForeignBlock(w, e) {
      assert e.me in n.spaceWaiters && n.pipe.sender.value != e.me;
    }
  }

  lemma AskDataKeepsWakeups<Id>(w: World<Id>, e: Event<Id>)
    requires Enabled(w, e) && NoLostWakeup(w) && e.AskData?
    ensures NoLostWakeup(Next(w, e))
  {
    assert Data(Next(w, e).pipe) == Data(w.pipe);
  }

  /** When filling wakes the receiver, and what it leaves behind. */
  lemma FillCases<Id>(p: Pipe<Id>, me: Id, amount: word)
    requires InBounds(p) && (p.receiverWaitingFor > 0 ==> p.receiver.Some?)
    ensures var r := SpaceFilled(p, me, amount);
            if r.outcome.Continues? then
              && amount <= Space(p) && Data(r.pipe) == Data(p) + amount
              && (r.wake.Some? <==> 0 < p.receiverWaitingFor <= Data(p) + amount)
              && (r.wake.Some? ==> r.wake.value.who == p.receiver.value)
              && r.pipe == Filled(p, amount).(receiverWaitingFor := if r.wake.Some? then 0 else p.receiverWaitingFor)
            else r.pipe == p && r.wake == None
  {
    if amount <= Space(p) {
      FilledData(p, amount);
    }
  }

  lemma FillKeepsWaiters<Id>(p: Pipe<Id>, me: Id, amount: word, spaceWaiters: set<Id>, dataWaiters: set<Id>)
    requires InBounds(p) && WaitersMatch(p, spaceWaiters, dataWaiters)
    ensures var r := SpaceFilled(p, me, amount);
            && InBounds(r.pipe)
            && WaitersMatch(r.pipe, spaceWaiters, dataWaiters - Woken(r))
            && (r.wake.Some? ==> dataWaiters == Woken(r))
  {
    FillCases(p, me, amount);
  }

  lemma ConsumeKeepsWaiters<Id>(p: Pipe<Id>, me: Id, amount: word, spaceWaiters: set<Id>, dataWaiters: set<Id>)
    requires InBounds(p) && WaitersMatch(p, spaceWaiters, dataWaiters)
    ensures var r := DataConsumed(p, me, amount);
            && InBounds(r.pipe)
            && WaitersMatch(r.pipe, spaceWaiters - Woken(r), dataWaiters)
            && (r.wake.Some? ==> spaceWaiters == Woken(r))
  {
    ConsumeCases(p, me, amount);
  }

  /** When consuming wakes the sender, and what it leaves behind. */
  lemma ConsumeCases<Id>(p: Pipe<Id>, me: Id, amount: word)
    requires InBounds(p) && (p.senderWaitingFor > 0 ==> p.sender.Some?)
    ensures var r := DataConsumed(p, me, amount);
            if r.outcome.Continues? then
              && amount <= Data(p) && Data(r.pipe) == Data(p) - amount
              && (r.wake.Some? <==> 0 < p.senderWaitingFor <= p.maxBlockSize - (Data(p) - amount))
              && (r.wake.Some? ==> r.wake.value == Wake(p.sender.value, Space(r.pipe), WriteLocation(r.pipe)))
              && r.pipe == Consumed(p, amount).(senderWaitingFor := if r.wake.Some? then 0 else p.senderWaitingFor)
            else r.pipe == p && r.wake == None
  {
    if amount <= Data(p) {
      ConsumedData(p, amount);
    }
  }

  /** A step keeps the wake-ups safe if and only if it is not such a call: the pipe has room for
      only one waiting sender. */
  lemma StepKeepsWakeupsIff<Id>(w: World<Id>, e: Event<Id>)
    requires Enabled(w, e) && NoLostWakeup(w)
    ensures NoLostWakeup(Next(w, e)) <==> !ForeignBlock(w, e)
  {
    match e
    case Write(_, _) => WriteKeepsRefinement(w, e);
    case AskSpace(_, _, _) => AskSpaceKeepsWakeupsIff(w, e);
    case AskData(_, _, _) => AskDataKeepsWakeups(w, e);
    case Fill(me, amount) => FillKeepsWaiters(w.pipe, me, amount, w.spaceWaiters, w.dataWaiters);
    case Consume(me, amount) => ConsumeKeepsWaiters(w.pipe, me, amount, w.spaceWaiters, w.dataWaiters);
  }

  /** A receiver is woken only if it was blocked; it is told of at least as much data as it asked
      for, and finds all of it at the location it is given. */
  lemma WokenReceiverFindsData<Id>(w: World<Id>, me: Id, amount: word)
    requires Refines(w) && ReceiversMatch(w.pipe, w.dataWaiters) && SpaceFilled(w.pipe, me, amount).wake.Some?
    ensures var r := SpaceFilled(w.pipe, me, amount);
            var wake, p := r.wake.value, r.pipe;
            && w.dataWaiters == {wake.who} && Sound(p)
            && wake.available == |Contents(p)| >= w.pipe.receiverWaitingFor
            && wake.location == ReadLocation(p) && InMapping(p.receiverVa, p.maxBlockSize, wake.location, wake.available)
            && SeenAt(p, p.receiverVa, wake.location, wake.available) == Contents(p)
  {
    FillCases(w.pipe, me, amount);
    FilledData(w.pipe, amount);
    var p := SpaceFilled(w.pipe, me, amount).pipe;
    ReceiverSeesContents(p);
  }

  /** A sender is woken only if it was blocked, and then gets at least the space it asked for. */
  lemma WokenSenderFindsSpace<Id>(w: World<Id>, me: Id, amount: word)
    requires Refines(w) && SendersMatch(w.pipe, w.spaceWaiters) && DataConsumed(w.pipe, me, amount).wake.Some?
    ensures var r := DataConsumed(w.pipe, me, amount);
            var wake, p := r.wake.value, r.pipe;
            && w.spaceWaiters == {wake.who} && Sound(p)
            && wake.available == p.maxBlockSize - |Contents(p)| >= w.pipe.senderWaitingFor
            && InMapping(p.senderVa, p.maxBlockSize, wake.location, wake.available)
            && wake.location == WriteLocation(p)
  {
    ConsumeCases(w.pipe, me, amount);
    ConsumedData(w.pipe, amount);
    var p := DataConsumed(w.pipe, me, amount).pipe;
    LocationInMapping(p.senderVa, p.maxBlockSize, p.writeIndex);
  }

  // ---- what a call does, by the queue and the caller ----

  /** A caller that may send goes on if and only if there is the space that it asks for, and blocks
      otherwise. The first caller becomes the sender; nothing else about the pipe changes. */
  lemma WaitForSpaceDecides<Id>(p: Pipe<Id>, me: Id, amount: word, va: word)
    requires Sound(p)
    ensures var r, free := WaitForSpace(p, me, amount, va), p.maxBlockSize - |Contents(p)|;
            var may := p.debug || p.sender == None || p.sender == Some(me);
            && (r.outcome == NotYourPipe <==> !may)
            && (r.outcome.Continues? <==> may && amount <= free)
            && (r.outcome == Blocks <==> may && amount > free)
            && r.wake == None
            && (!may ==> r.pipe == p)
            && (may ==>
                  && (r.pipe.sender == if p.sender == None then Some(me) else p.sender)
                  && (r.pipe.senderVa == if p.senderVa == 0 then va else p.senderVa)
                  && (r.pipe.senderWaitingFor == if amount > free then amount else p.senderWaitingFor)
                  && r.pipe == p.(sender := r.pipe.sender, senderVa := r.pipe.senderVa, senderWaitingFor := r.pipe.senderWaitingFor))
  {
  }

  /** The sender's bytes are taken if and only if there is space for them. Nothing is taken in part;
      a blocked receiver is woken if and only if it has what it waits for. */
  lemma SpaceFilledDecides<Id>(p: Pipe<Id>, me: Id, amount: word)
    requires Sound(p) && (p.receiverWaitingFor > 0 ==> p.receiver.Some?)
    ensures var r, free := SpaceFilled(p, me, amount), p.maxBlockSize - |Contents(p)|;
            var may := p.debug || p.sender == Some(me);
            && (r.outcome == NotYourPipe <==> !may)
            && (r.outcome.Continues? <==> may && amount <= free)
            && (r.outcome == Overfilled <==> may && amount > free)
            && (!r.outcome.Continues? ==> r.pipe == p && r.wake == None)
            && (r.outcome.Continues? ==>
                  && |Contents(r.pipe)| == |Contents(p)| + amount
                  && (r.wake.Some? <==> 0 < p.receiverWaitingFor <= |Contents(p)| + amount)
                  && (r.wake.Some? ==> p.receiver == Some(r.wake.value.who))
                  && r.pipe == p.(writeIndex := r.pipe.writeIndex,
                                  receiverWaitingFor := if r.wake.Some? then 0 else p.receiverWaitingFor))
  {
    FillCases(p, me, amount);
    if amount <= Space(p) {
      FilledData(p, amount);
    }
  }

  /** Only the receiver may ask for data, on the debug pipe too. */
  lemma WaitForDataDecides<Id>(p: Pipe<Id>, me: Id, amount: word, va: word)
    requires Sound(p)
    ensures var r, may := WaitForData(p, me, amount, va), p.receiver == None || p.receiver == Some(me);
            && (r.outcome == NotYourPipe <==> !may)
            && (r.outcome.Continues? <==> may && amount <= |Contents(p)|)
            && (r.outcome == Blocks <==> may && amount > |Contents(p)|)
            && r.wake == None
            && (!may ==> r.pipe == p)
            && (may ==>
                  && r.pipe.receiver == Some(me)
                  && (r.pipe.receiverVa == if p.receiverVa == 0 then va else p.receiverVa)
                  && (r.pipe.receiverWaitingFor == if amount > |Contents(p)| then amount else p.receiverWaitingFor)
                  && r.pipe == p.(receiver := Some(me), receiverVa := r.pipe.receiverVa,
                                  receiverWaitingFor := r.pipe.receiverWaitingFor))
  {
  }

  /** Data is given up if and only if there is as much, up to all of it. */
  lemma DataConsumedDecides<Id>(p: Pipe<Id>, me: Id, amount: word)
    requires Sound(p) && (p.senderWaitingFor > 0 ==> p.sender.Some?)
    ensures var r, may := DataConsumed(p, me, amount), p.debug || p.receiver == Some(me);
            && (r.outcome == NotYourPipe <==> !may)
            && (r.outcome.Continues? <==> may && amount <= |Contents(p)|)
            && (r.outcome == ConsumedTooMuch <==> may && amount > |Contents(p)|)
            && (!r.outcome.Continues? ==> r.pipe == p && r.wake == None)
            && (r.outcome.Continues? ==>
                  && |Contents(r.pipe)| == |Contents(p)| - amount
                  && (r.wake.Some? <==> 0 < p.senderWaitingFor <= p.maxBlockSize - |Contents(r.pipe)|)
                  && (r.wake.Some? ==> p.sender == Some(r.wake.value.who))
                  && r.pipe == p.(readIndex := r.pipe.readIndex,
                                  senderWaitingFor := if r.wake.Some? then 0 else p.senderWaitingFor))
  {
    ConsumeCases(p, me, amount);
    if amount <= Data(p) {
      ConsumedData(p, amount);
    }
  }

  /** A caller that goes on is told exactly how much there is for it, and where; a receiver finds the
      unread bytes there. */
  lemma AnswersAreTrue<Id>(w: World<Id>, e: Event<Id>)
    requires Enabled(w, e) && !e.Write? && Call(w, e).outcome.Continues?
    ensures var o, p := Call(w, e).outcome, Call(w, e).pipe;
            && Sound(p)
            && if e.AskSpace? || e.Fill? then
                 && o.available == p.maxBlockSize - |Contents(p)| && o.location == WriteLocation(p)
                 && InMapping(p.senderVa, p.maxBlockSize, o.location, o.available)
                 && (e.AskSpace? ==> o.available >= e.amount)
               else
                 && o.available == |Contents(p)| && InMapping(p.receiverVa, p.maxBlockSize, o.location, o.available)
                 && SeenAt(p, p.receiverVa, o.location, o.available) == Contents(p)
                 && (e.AskData? ==> o.available >= e.amount)
  {
    StepKeepsRefinement(w, e);
    var p := Call(w, e).pipe;
    if e.AskSpace? || e.Fill? {
      if e.Fill? {
        FilledData(w.pipe, e.amount);
      }
      LocationInMapping(p.senderVa, p.maxBlockSize, p.writeIndex);
    } else {
      if e.Consume? {
        ConsumedData(w.pipe, e.amount);
      }
      ReceiverSeesContents(p);
    }
  }

  // ---- what a step does to the queue ----

  /** A store of the sender changes one byte of what it will send, and nothing of what it has sent. */
  lemma WriteIsSent<Id>(w: World<Id>, k: nat, b: byte, amount: word)
    requires Enabled(w, Event.Write(k, b)) && k < amount <= Space(w.pipe)
    ensures var n := Next(w, Event.Write(k, b));
            && Refines(n) && n == w.(pipe := n.pipe) && Contents(n.pipe) == Contents(w.pipe)
            && SentBlock(n.pipe, amount) == SentBlock(w.pipe, amount)[k := b]
  {
    hide Contents, Sound;
    StepKeepsRefinement(w, Event.Write(k, b));
    StoreIsInvisible(w.pipe, k, b);
    var n := Next(w, Event.Write(k, b));
    forall j | 0 <= j < amount
      ensures SentBlock(n.pipe, amount)[j] == SentBlock(w.pipe, amount)[k := b][j]
    {
      SentAt(w.pipe, amount, j);
      SentAt(n.pipe, amount, j);
      StoreIsSeen(w.pipe, k, b, j);
    }
  }

  lemma SentAt<Id>(p: Pipe<Id>, amount: word, j: nat)
    requires Sound(p) && j < amount <= Space(p)
    ensures InMapping(p.senderVa, p.maxBlockSize, WriteLocation(p), Space(p))
    ensures SentBlock(p, amount)[j] == SeenAt(p, p.senderVa, WriteLocation(p), Space(p))[j]
  {
    LocationInMapping(p.senderVa, p.maxBlockSize, p.writeIndex);
  }

  /** A caller that may send appends its bytes to the queue if there is space for all of them, and
      nothing otherwise. */
  lemma FillSends<Id>(w: World<Id>, me: Id, amount: word)
    requires Enabled(w, Fill(me, amount))
    ensures var n := Next(w, Fill(me, amount));
            && n.consumed == w.consumed && n.spaceWaiters == w.spaceWaiters
            && if (w.pipe.debug || w.pipe.sender == Some(me)) && amount <= w.pipe.maxBlockSize - |Contents(w.pipe)| then
                 && n.written == w.written + SentBlock(w.pipe, amount)
                 && Contents(n.pipe) == Contents(w.pipe) + SentBlock(w.pipe, amount)
               else n == w
  {
    var p := w.pipe;
    if (p.debug || p.sender == Some(me)) && amount <= Space(p) {
      FillAppends(p, amount);
      assert Contents(Next(w, Fill(me, amount)).pipe) == Contents(Filled(p, amount));
    }
  }

  /** A caller that may receive takes the oldest bytes out of the queue. */
  lemma ConsumeReceives<Id>(w: World<Id>, me: Id, amount: word)
    requires Enabled(w, Consume(me, amount))
    ensures var n := Next(w, Consume(me, amount));
            && n.written == w.written && n.dataWaiters == w.dataWaiters
            && if w.pipe.debug || w.pipe.receiver == Some(me) then
                 && amount <= |Contents(w.pipe)|
                 && n.consumed == w.consumed + Contents(w.pipe)[..amount]
                 && Contents(n.pipe) == Contents(w.pipe)[amount..]
               else n == w
  {
    var p := w.pipe;
    if p.debug || p.receiver == Some(me) {
      ConsumeDrops(p, amount);
      ReadsPrefix(p, amount);
      assert Contents(Next(w, Consume(me, amount)).pipe) == Contents(Consumed(p, amount));
    }
  }

  /** A task that is not blocked can make any call, except that consuming more than there is halts the
      core; and the sender can store any byte in its space. */
  lemma EnabledIff<Id>(w: World<Id>, e: Event<Id>)
    requires Refines(w)
    ensures Enabled(w, e) <==>
            match e
            case Write(k, _) => k < w.pipe.maxBlockSize - |Contents(w.pipe)|
            case AskSpace(me, _, va) => me !in w.spaceWaiters + w.dataWaiters && GoodVa(va, w.pipe.maxBlockSize)
            case AskData(me, _, va) => me !in w.spaceWaiters + w.dataWaiters && GoodVa(va, w.pipe.maxBlockSize)
            case Fill(me, _) => me !in w.spaceWaiters + w.dataWaiters
            case Consume(me, amount) =>
              && me !in w.spaceWaiters + w.dataWaiters
              && (w.pipe.debug || w.pipe.receiver == Some(me) ==> amount <= |Contents(w.pipe)|)
  {
    assert Space(w.pipe) == w.pipe.maxBlockSize - |Contents(w.pipe)|;
  }

  // ---- runs ----

  /** Every call of the run is allowed when it is made. */
  predicate Possible<Id(==)>(w: World<Id>, events: seq<Event<Id>>)
    requires Refines(w)
    decreases |events|
  {
    events == [] || (Allowed(w, events[0]) && Possible(Step(w, events[0]), events[1..]))
  }

  function Step<Id(==)>(w: World<Id>, e: Event<Id>): (n: World<Id>)
    requires Enabled(w, e)
    ensures Refines(n)
  {
    StepKeepsRefinement(w, e);
    Next(w, e)
  }

  function Run<Id(==)>(w: World<Id>, events: seq<Event<Id>>): World<Id>
    requires Refines(w) && Possible(w, events)
    decreases |events|
  {
    if events == [] then w else Run(Step(w, events[0]), events[1..])
  }

  predicate NoForeignBlock<Id(==)>(w: World<Id>, events: seq<Event<Id>>)
    requires Refines(w) && Possible(w, events)
    decreases |events|
  {
    events == [] || (!ForeignBlock(w, events[0]) && NoForeignBlock(Step(w, events[0]), events[1..]))
  }

  lemma StepExtends<Id>(w: World<Id>, e: Event<Id>)
    requires Enabled(w, e)
    ensures w.written <= Step(w, e).written && w.consumed <= Step(w, e).consumed
    ensures Step(w, e).pipe.maxBlockSize == w.pipe.maxBlockSize && Step(w, e).pipe.debug == w.pipe.debug
  {
  }

  /** Over every run, what has been consumed and what is waiting to be read are together exactly
      what was written, in order, and never more than a block is waiting. */
  lemma {:induction false} RunRefinesQueue<Id>(w: World<Id>, events: seq<Event<Id>>)
    requires Refines(w) && Possible(w, events)
    ensures Refines(Run(w, events))
    ensures w.written <= Run(w, events).written && w.consumed <= Run(w, events).consumed <= Run(w, events).written
    ensures |Run(w, events).written| - |Run(w, events).consumed| <= w.pipe.maxBlockSize
    decreases |events|
  {
    hide Next;
    if events != [] {
      StepExtends(w, events[0]);
      RunRefinesQueue(Step(w, events[0]), events[1..]);
    }
  }

  lemma {:induction false} RunLosesNoWakeup<Id>(w: World<Id>, events: seq<Event<Id>>)
    requires Refines(w) && NoLostWakeup(w) && Possible(w, events)
    requires w.pipe.debug ==> NoForeignBlock(w, events)
    ensures NoLostWakeup(Run(w, events))
    decreases |events|
  {
    if events != [] {
      StepKeepsWakeupsIff(w, events[0]);
      StepExtends(w, events[0]);
      hide Next, Refines;
      RunLosesNoWakeup(Step(w, events[0]), events[1..]);
    }
  }

  // ---- a foreign sender is lost ----

  lemma StepKeepsForeignSender<Id>(w: World<Id>, e: Event<Id>, me: Id)
    requires Enabled(w, e) && me in w.spaceWaiters && w.pipe.sender.Some? && w.pipe.sender.value != me
    ensures me in Step(w, e).spaceWaiters && Step(w, e).pipe.sender == w.pipe.sender
  {
  }

  /** Nothing that happens on the pipe wakes a blocked task other than the recorded sender. */
  lemma {:induction false} ForeignSenderStays<Id>(w: World<Id>, events: seq<Event<Id>>, me: Id)
    requires Refines(w) && Possible(w, events)
    requires me in w.spaceWaiters && w.pipe.sender.Some? && w.pipe.sender.value != me
    ensures me in Run(w, events).spaceWaiters
    decreases |events|
  {
    hide Next, Allowed, Refines;
    if events != [] {
      StepKeepsForeignSender(w, events[0], me);
      ForeignSenderStays(Step(w, events[0]), events[1..], me);
    }
  }

  /** So such a call blocks for good. */
  lemma ForeignBlockIsForever<Id>(w: World<Id>, e: Event<Id>, events: seq<Event<Id>>)
    requires Enabled(w, e) && ForeignBlock(w, e) && Possible(Step(w, e), events)
    ensures Call(w, e).outcome.Blocks? && e.me in Run(Step(w, e), events).spaceWaiters
  {
    ForeignSenderStays(Step(w, e), events, e.me);
  }

  /** One is possible: on a full debug pipe, by a task that is not the recorded sender. */
  lemma ForeignBlockExample() returns (w: World<nat>, e: Event<nat>)
    ensures Enabled(w, e) && NoLostWakeup(w) && ForeignBlock(w, e) && w.spaceWaiters == {} == w.dataWaiters
  {
    RemIsMod(WORD_SIZE, 1);
    var p := Pipe(true, Some(0), 0, 0, Some(1), 0, 0, 1, 1, 0, [0]);
    w, e := World(p, {}, {}, Contents(p), []), AskSpace(2, 1, 0);
    assert w.written == w.consumed + Contents(p);
  }

  // ---- a blocked task gets what it asked for ----

  /** The task is blocked as the receiver all the time. */
  predicate StaysForData<Id(==)>(w: World<Id>, events: seq<Event<Id>>, me: Id)
    requires Refines(w) && Possible(w, events)
    decreases |events|
  {
    me in w.dataWaiters && (events == [] || StaysForData(Step(w, events[0]), events[1..], me))
  }

  predicate StaysForSpace<Id(==)>(w: World<Id>, events: seq<Event<Id>>, me: Id)
    requires Refines(w) && Possible(w, events)
    decreases |events|
  {
    me in w.spaceWaiters && (events == [] || StaysForSpace(Step(w, events[0]), events[1..], me))
  }

  lemma StepKeepsReceiver<Id>(w: World<Id>, e: Event<Id>, me: Id)
    requires Enabled(w, e) && ReceiversMatch(w.pipe, w.dataWaiters) && me in w.dataWaiters
    ensures ReceiversMatch(Step(w, e).pipe, Step(w, e).dataWaiters)
    ensures me in Step(w, e).dataWaiters ==> Step(w, e).pipe.receiverWaitingFor == w.pipe.receiverWaitingFor
  {
    match e
    case Write(_, _) => WriteKeepsRefinement(w, e);
    case AskSpace(_, _, _) =>
    case AskData(_, _, _) =>
    case Fill(who, amount) => FillCases(w.pipe, who, amount);
    case Consume(_, amount) => if amount <= Data(w.pipe) { ConsumedData(w.pipe, amount); }
  }

  lemma StepKeepsSender<Id>(w: World<Id>, e: Event<Id>, me: Id)
    requires Enabled(w, e) && SendersMatch(w.pipe, w.spaceWaiters) && me in w.spaceWaiters && !ForeignBlock(w, e)
    ensures SendersMatch(Step(w, e).pipe, Step(w, e).spaceWaiters)
    ensures me in Step(w, e).spaceWaiters ==> Step(w, e).pipe.senderWaitingFor == w.pipe.senderWaitingFor
  {
    match e
    case Write(_, _) => WriteKeepsRefinement(w, e);
    case AskSpace(_, _, _) =>
    case AskData(_, _, _) =>
    case Fill(_, amount) => if amount <= Space(w.pipe) { FilledData(w.pipe, amount); }
    case Consume(who, amount) => if amount <= Data(w.pipe) { ConsumeCases(w.pipe, who, amount); }
  }

  lemma {:induction false} RunKeepsReceiver<Id>(w: World<Id>, events: seq<Event<Id>>, me: Id)
    requires Refines(w) && ReceiversMatch(w.pipe, w.dataWaiters) && Possible(w, events) && StaysForData(w, events, me)
    ensures var n := Run(w, events);
            && Refines(n) && ReceiversMatch(n.pipe, n.dataWaiters) && me in n.dataWaiters
            && n.pipe.receiverWaitingFor == w.pipe.receiverWaitingFor
    decreases |events|
  {
    hide Next, Allowed, Refines, ReceiversMatch;
    if events != [] {
      StepKeepsReceiver(w, events[0], me);
      RunKeepsReceiver(Step(w, events[0]), events[1..], me);
    }
  }

  lemma {:induction false} RunKeepsSender<Id>(w: World<Id>, events: seq<Event<Id>>, me: Id)
    requires Refines(w) && SendersMatch(w.pipe, w.spaceWaiters) && Possible(w, events) && StaysForSpace(w, events, me)
    requires w.pipe.debug ==> NoForeignBlock(w, events)
    ensures var n := Run(w, events);
            && Refines(n) && SendersMatch(n.pipe, n.spaceWaiters) && me in n.spaceWaiters
            && n.pipe.senderWaitingFor == w.pipe.senderWaitingFor
    decreases |events|
  {
    hide Next, Allowed, Refines, SendersMatch;
    if events != [] {
      StepKeepsSender(w, events[0], me);
      StepExtends(w, events[0]);
      RunKeepsSender(Step(w, events[0]), events[1..], me);
    }
  }

  /** A receiver that blocks, and whatever happens next, is woken with at least the bytes that it
      asked for in that call, where it is told. */
  lemma ReceiverGetsWhatItAsked<Id>(w: World<Id>, ask: Event<Id>, events: seq<Event<Id>>, filler: Id, amount: word)
    requires Enabled(w, ask) && ReceiversMatch(w.pipe, w.dataWaiters) && ask.AskData? && Call(w, ask).outcome.Blocks?
    requires Possible(Step(w, ask), events) && StaysForData(Step(w, ask), events, ask.me)
    requires SpaceFilled(Run(Step(w, ask), events).pipe, filler, amount).wake.Some?
    ensures var r := SpaceFilled(Run(Step(w, ask), events).pipe, filler, amount);
            var wake, p := r.wake.value, r.pipe;
            && wake.who == ask.me && Sound(p) && wake.available == |Contents(p)| >= ask.amount
            && InMapping(p.receiverVa, p.maxBlockSize, wake.location, wake.available)
            && SeenAt(p, p.receiverVa, wake.location, wake.available) == Contents(p)
  {
    var n := Step(w, ask);
    assert ReceiversMatch(n.pipe, n.dataWaiters) && n.pipe.receiverWaitingFor == ask.amount;
    hide Next, Step, Run, Possible, StaysForData;
    RunKeepsReceiver(n, events, ask.me);
    WokenReceiverFindsData(Run(n, events), filler, amount);
  }

  /** The same for a sender and the space that it asked for. */
  lemma SenderGetsWhatItAsked<Id>(w: World<Id>, ask: Event<Id>, events: seq<Event<Id>>, taker: Id, amount: word)
    requires Enabled(w, ask) && SendersMatch(w.pipe, w.spaceWaiters) && ask.AskSpace? && Call(w, ask).outcome.Blocks?
    requires Possible(Step(w, ask), events) && StaysForSpace(Step(w, ask), events, ask.me)
    requires w.pipe.debug ==> !ForeignBlock(w, ask) && NoForeignBlock(Step(w, ask), events)
    requires DataConsumed(Run(Step(w, ask), events).pipe, taker, amount).wake.Some?
    ensures var r := DataConsumed(Run(Step(w, ask), events).pipe, taker, amount);
            var wake, p := r.wake.value, r.pipe;
            && wake.who == ask.me && Sound(p) && wake.available == p.maxBlockSize - |Contents(p)| >= ask.amount
            && wake.location == WriteLocation(p) && InMapping(p.senderVa, p.maxBlockSize, wake.location, wake.available)
  {
    var n := Step(w, ask);
    StepExtends(w, ask);
    assert SendersMatch(n.pipe, n.spaceWaiters) && n.pipe.senderWaitingFor == ask.amount;
    hide Next, Step, Run, Possible, StaysForSpace, NoForeignBlock;
    RunKeepsSender(n, events, ask.me);
    WokenSenderFindsSpace(Run(n, events), taker, amount);
  }

  // ---- what a task has been told stays true ----

  /** A call that may take bytes away from the receiver: its own, or anyone's on the debug pipe. */
  predicate TakesData<Id(==)>(p: Pipe<Id>, e: Event<Id>) {
    (e.AskData? || e.Consume?) && (p.debug || p.receiver == Some(e.me))
  }

  predicate TakesSpace<Id(==)>(p: Pipe<Id>, e: Event<Id>) {
    (e.AskSpace? || e.Fill?) && (p.debug || p.sender == Some(e.me))
  }

  /** The same bytes are still at the same place. */
  predicate KeepsData<Id(==)>(p: Pipe<Id>, n: Pipe<Id>)
    requires Sound(p) && Sound(n)
  {
    && n.debug == p.debug && n.receiver == p.receiver && n.receiverVa == p.receiverVa && n.readIndex == p.readIndex
    && n.maxBlockSize == p.maxBlockSize && Contents(p) <= Contents(n)
  }

  predicate KeepsSpace<Id(==)>(p: Pipe<Id>, n: Pipe<Id>)
    requires Sound(p) && Sound(n)
  {
    && n.debug == p.debug && n.sender == p.sender && n.senderVa == p.senderVa && n.writeIndex == p.writeIndex
    && n.maxBlockSize == p.maxBlockSize && |Contents(n)| <= |Contents(p)|
  }

  lemma StepKeepsData<Id>(w: World<Id>, e: Event<Id>)
    requires Enabled(w, e) && w.pipe.receiver.Some? && !TakesData(w.pipe, e)
    ensures KeepsData(w.pipe, Step(w, e).pipe)
  {
    match e
    case Write(k, b) => StoreIsInvisible(w.pipe, k, b);
    case Fill(_, amount) =>
      if Call(w, e).outcome.Continues? {
        var r, q := Call(w, e), Filled(w.pipe, amount);
        FillAppends(w.pipe, amount);
        assert r.pipe == q || r.pipe == q.(receiverWaitingFor := 0);
        assert Contents(r.pipe) == Contents(q);
      }
    case AskSpace(_, _, _) => assert Contents(Step(w, e).pipe) == Contents(w.pipe);
    case _ =>
  }

  lemma StepKeepsSpace<Id>(w: World<Id>, e: Event<Id>)
    requires Enabled(w, e) && w.pipe.sender.Some? && !TakesSpace(w.pipe, e)
    ensures KeepsSpace(w.pipe, Step(w, e).pipe)
  {
    if e.Consume? && Call(w, e).outcome.Continues? {
      ConsumedData(w.pipe, e.amount);
    }
  }

  /** Until the receiver calls again, the bytes it has been told of are all where it was told. */
  lemma {:induction false} ToldDataStays<Id>(w: World<Id>, events: seq<Event<Id>>)
    requires Refines(w) && Possible(w, events) && w.pipe.receiver.Some?
    requires forall e | e in events :: !TakesData(w.pipe, e)
    ensures var n := Run(w, events).pipe;
            && Refines(Run(w, events)) && KeepsData(w.pipe, n) && ReadLocation(n) == ReadLocation(w.pipe)
            && InMapping(n.receiverVa, n.maxBlockSize, ReadLocation(w.pipe), Data(w.pipe))
            && SeenAt(n, n.receiverVa, ReadLocation(w.pipe), Data(w.pipe)) == Contents(w.pipe)
    decreases |events|
  {
    hide Next, Allowed;
    if events == [] {
      ReceiverSeesContents(w.pipe);
    } else {
      var m := Step(w, events[0]);
      assert events[0] in events;
      StepKeepsData(w, events[0]);
      assert forall e | e in events[1..] :: e in events && TakesData(m.pipe, e) == TakesData(w.pipe, e);
      ToldDataStays(m, events[1..]);
      var n := Run(w, events).pipe;
      ReadsPrefix(n, Data(w.pipe));
    }
  }

  /** Until the sender calls again, the space it has been told of is still free, at the place it was
      told. */
  lemma {:induction false} ToldSpaceStays<Id>(w: World<Id>, events: seq<Event<Id>>)
    requires Refines(w) && Possible(w, events) && w.pipe.sender.Some?
    requires forall e | e in events :: !TakesSpace(w.pipe, e)
    ensures var n := Run(w, events).pipe;
            && Refines(Run(w, events)) && KeepsSpace(w.pipe, n) && WriteLocation(n) == WriteLocation(w.pipe)
            && Space(n) >= Space(w.pipe)
            && InMapping(n.senderVa, n.maxBlockSize, WriteLocation(w.pipe), Space(w.pipe))
    decreases |events|
  {
    hide Next, Allowed;
    if events == [] {
      LocationInMapping(w.pipe.senderVa, w.pipe.maxBlockSize, w.pipe.writeIndex);
    } else {
      var m := Step(w, events[0]);
      assert events[0] in events;
      StepKeepsSpace(w, events[0]);
      assert forall e | e in events[1..] :: e in events && TakesSpace(m.pipe, e) == TakesSpace(w.pipe, e);
      ToldSpaceStays(m, events[1..]);
      LocationInMapping(w.pipe.senderVa, w.pipe.maxBlockSize, w.pipe.writeIndex);
    }
  }

  // ---- both ends blocked ----

  predicate Bounded<Id(==)>(events: seq<Event<Id>>, space: word, data: word) {
    forall e | e in events :: (e.AskSpace? ==> e.amount <= space) && (e.AskData? ==> e.amount <= data)
  }

  predicate BothBlocked<Id(==)>(w: World<Id>) {
    w.spaceWaiters != {} && w.dataWaiters != {}
  }

  lemma StepKeepsBounds<Id>(w: World<Id>, e: Event<Id>, space: word, data: word)
    requires Enabled(w, e) && (e.AskSpace? ==> e.amount <= space) && (e.AskData? ==> e.amount <= data)
    requires w.pipe.senderWaitingFor <= space && w.pipe.receiverWaitingFor <= data
    ensures Step(w, e).pipe.senderWaitingFor <= space && Step(w, e).pipe.receiverWaitingFor <= data
  {
  }

  lemma {:induction false} RunKeepsBounds<Id>(w: World<Id>, events: seq<Event<Id>>, space: word, data: word)
    requires Refines(w) && Possible(w, events) && Bounded(events, space, data)
    requires w.pipe.senderWaitingFor <= space && w.pipe.receiverWaitingFor <= data
    ensures var p := Run(w, events).pipe;
            && p.senderWaitingFor <= space && p.receiverWaitingFor <= data
            && p.maxBlockSize == w.pipe.maxBlockSize
    decreases |events|
  {
    hide Next, Refines, Allowed;
    if events != [] {
      assert events[0] in events && forall e | e in events[1..] :: e in events;
      StepKeepsBounds(w, events[0], space, data);
      StepExtends(w, events[0]);
      RunKeepsBounds(Step(w, events[0]), events[1..], space, data);
    }
  }

  ghost predicate CanDeadlock<Id(!new)>(w: World<Id>, space: word, data: word)
    requires Refines(w)
  {
    exists events: seq<Event<Id>> ::
      Possible(w, events) && Bounded(events, space, data) && BothBlocked(Run(w, events))
  }

  /** A new pipe between two different tasks. */
  predicate Fresh<Id(==)>(w: World<Id>) {
    && Refines(w) && NoLostWakeup(w) && !w.pipe.debug
    && Data(w.pipe) == 0 && w.pipe.senderWaitingFor == 0 && w.pipe.receiverWaitingFor == 0
    && w.pipe.sender.Some? && w.pipe.receiver.Some? && w.pipe.sender != w.pipe.receiver
  }

  /** Sender and receiver can end up blocked on each other if and only if their largest requests
      add up to more than one byte beyond the pipe's capacity. */
  lemma DeadlockIff<Id(!new)>(w: World<Id>, space: word, data: word)
    requires Fresh(w) && space > 0 && data > 0
    ensures CanDeadlock(w, space, data) <==> space + data > w.pipe.maxBlockSize + 1
  {
    if space + data > w.pipe.maxBlockSize + 1 {
      DeadlockExample(w, space, data);
    } else {
      forall events: seq<Event<Id>> | Possible(w, events) && Bounded(events, space, data)
        ensures !BothBlocked(Run(w, events))
      {
        RunLosesNoWakeup(w, events);
        RunRefinesQueue(w, events);
        RunKeepsBounds(w, events, space, data);
      }
    }
  }

  lemma DeadlockExample<Id(!new)>(w: World<Id>, space: word, data: word)
    requires Fresh(w) && space > 0 && data > 0 && space + data > w.pipe.maxBlockSize + 1
    ensures CanDeadlock(w, space, data)
  {
    var m := w.pipe.maxBlockSize;
    var amount: word := if data - 1 < m then data - 1 else m;
    var fill := Fill(w.pipe.sender.value, amount);
    var askData := AskData(w.pipe.receiver.value, data, 0);
    var askSpace := AskSpace(w.pipe.sender.value, space, 0);
    var w1 := AfterFirstFill(w, amount);
    var w2 := AfterReceiverBlocks(w1, data);
    var w3 := AfterSenderBlocks(w2, space);
    var events := [fill, askData, askSpace];
    assert events[1..] == [askData, askSpace] && events[1..][1..] == [askSpace] && [askSpace][1..] == [];
    hide Next, Allowed;
    assert Possible(w3, []) && Possible(w2, [askSpace]) && Possible(w1, [askData, askSpace]) && Possible(w, events);
    assert Run(w2, [askSpace]) == Run(w3, []) == w3;
    assert Run(w, events) == Run(w1, [askData, askSpace]) == Run(w2, [askSpace]);
  }

  lemma AfterFirstFill<Id>(w: World<Id>, amount: word) returns (n: World<Id>)
    requires Fresh(w) && amount <= w.pipe.maxBlockSize
    ensures var e := Fill(w.pipe.sender.value, amount);
            Enabled(w, e) && n == Next(w, e)
    ensures Refines(n) && n.pipe == Filled(w.pipe, amount) && Data(n.pipe) == amount
    ensures n.spaceWaiters == {} && n.dataWaiters == {}
  {
    var e := Fill(w.pipe.sender.value, amount);
    FilledData(w.pipe, amount);
    FillKeepsRefinement(w, e);
    n := Next(w, e);
  }

  lemma AfterReceiverBlocks<Id>(w: World<Id>, data: word) returns (n: World<Id>)
    requires Refines(w) && w.dataWaiters == {} == w.spaceWaiters && w.pipe.receiver.Some? && Data(w.pipe) < data
    ensures var e := AskData(w.pipe.receiver.value, data, 0);
            Enabled(w, e) && n == Next(w, e)
    ensures Refines(n) && Data(n.pipe) == Data(w.pipe) && n.pipe.maxBlockSize == w.pipe.maxBlockSize
    ensures n.pipe.sender == w.pipe.sender && n.pipe.debug == w.pipe.debug
    ensures n.spaceWaiters == {} && n.dataWaiters == {w.pipe.receiver.value}
  {
    var e := AskData(w.pipe.receiver.value, data, 0);
    AskKeepsRefinement(w, e);
    n := Next(w, e);
  }

  lemma AfterSenderBlocks<Id>(w: World<Id>, space: word) returns (n: World<Id>)
    requires Refines(w) && w.pipe.sender.Some? && w.pipe.sender.value !in w.dataWaiters + w.spaceWaiters
    requires Space(w.pipe) < space
    ensures var e := AskSpace(w.pipe.sender.value, space, 0);
            Enabled(w, e) && n == Next(w, e)
    ensures n.spaceWaiters == w.spaceWaiters + {w.pipe.sender.value} && n.dataWaiters == w.dataWaiters
  {
    n := Next(w, AskSpace(w.pipe.sender.value, space, 0));
  }
}
