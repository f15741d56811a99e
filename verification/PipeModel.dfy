/** A pipe of TaskSlot/simple/pipes.c as a value: free-running 32-bit indices into one block of
    memory that is mapped twice in a row, and at most one waiting task at each end. */
module PipeModel {
  import opened Words

  type byte = x: int | 0 <= x < 256

  /** A block size; PipeCreate refuses zero. */
  type blocksize = x: word | x > 0 witness 1

  /** struct os_pipe, and the block of memory it refers to. */
  datatype Pipe<Id> = Pipe(
    debug: bool, // the debug pipe: any task may fill it
    sender: Option<Id>, senderWaitingFor: word, senderVa: word,
    receiver: Option<Id>, receiverWaitingFor: word, receiverVa: word,
    maxBlockSize: blocksize, writeIndex: word, readIndex: word,
    memory: seq<byte>)

  datatype Outcome = Continues(available: word, location: word) | Blocks | NotYourPipe | Overfilled | ConsumedTooMuch

  datatype Wake<+Id> = Wake(who: Id, available: word, location: word)

  datatype Result<Id> = Result(pipe: Pipe<Id>, outcome: Outcome, wake: Option<Wake<Id>>)

  function Data<Id>(p: Pipe<Id>): word {
    Sub(p.writeIndex, p.readIndex)
  }

  function Space<Id>(p: Pipe<Id>): word {
    Sub(p.maxBlockSize, Data(p))
  }

  function ReadLocation<Id>(p: Pipe<Id>): word
  {
    Add(p.receiverVa, Rem(p.readIndex, p.maxBlockSize))
  }

  function WriteLocation<Id>(p: Pipe<Id>): word
  {
    Add(p.senderVa, Rem(p.writeIndex, p.maxBlockSize))
  }

  /** PipeWaitForSpace; va is the address range the sender gets if it has none yet. */
  function WaitForSpace<Id(==)>(p: Pipe<Id>, me: Id, amount: word, va: word): Result<Id>
  {
    if p.sender != Some(me) && p.sender != None && !p.debug then Result(p, NotYourPipe, None)
    else
      var q := p.(sender := if p.sender == None then Some(me) else p.sender,
                  senderVa := if p.senderVa == 0 then va else p.senderVa);
      if Space(q) >= amount then Result(q, Continues(Space(q), WriteLocation(q)), None)
      else Result(q.(senderWaitingFor := amount), Blocks, None)
  }

  /** PipeSpaceFilled */
  function SpaceFilled<Id(==)>(p: Pipe<Id>, me: Id, amount: word): Result<Id>
  {
    if p.sender != Some(me) && !p.debug then Result(p, NotYourPipe, None)
    else if Space(p) < amount then Result(p, Overfilled, None)
    else
      var q := Filled(p, amount);
      var outcome := Continues(Space(p) - amount, WriteLocation(q));
      if q.receiver.Some? && q.receiverWaitingFor > 0 && q.receiverWaitingFor <= Data(q) then
        Result(q.(receiverWaitingFor := 0), outcome, Some(Wake(q.receiver.value, Data(q), ReadLocation(q))))
      else Result(q, outcome, None)
  }

  /** PipeWaitForData */
  function WaitForData<Id(==)>(p: Pipe<Id>, me: Id, amount: word, va: word): Result<Id>
  {
    if p.receiver != Some(me) && p.receiver != None then Result(p, NotYourPipe, None)
    else
      var q := p.(receiver := Some(me), receiverVa := if p.receiverVa == 0 then va else p.receiverVa);
      if Data(q) >= amount then Result(q, Continues(Data(q), ReadLocation(q)), None)
      else Result(q.(receiverWaitingFor := amount), Blocks, None)
  }

  /** PipeDataConsumed */
  function DataConsumed<Id(==)>(p: Pipe<Id>, me: Id, amount: word): Result<Id>
  {
    if p.receiver != Some(me) && !p.debug then Result(p, NotYourPipe, None)
    else if Data(p) < amount then Result(p, ConsumedTooMuch, None)
    else
      var q := Consumed(p, amount);
      var outcome := Continues(Data(p) - amount, ReadLocation(q));
      if q.sender.Some? && q.senderWaitingFor > 0 && q.senderWaitingFor <= Space(q) then
        Result(q.(senderWaitingFor := 0), outcome, Some(Wake(q.sender.value, Space(q), WriteLocation(q))))
      else Result(q, outcome, None)
  }

  // ---- what the memory holds ----

  /** The unread bytes, oldest first. */
  function Contents<Id>(p: Pipe<Id>): (c: seq<byte>)
    requires |p.memory| == p.maxBlockSize
  {
    seq(Data(p), (k: nat) => p.memory[Rem(p.readIndex + k, p.maxBlockSize)])
  }

  /** Which byte of the block an address reaches, when the block is mapped at base and again
      straight after that. */
  function MapTwice(base: int, size: word, va: int): (offset: int)
    requires base <= va < base + 2 * size
    ensures 0 <= offset < size
  {
    if va < base + size then va - base else va - base - size
  }

  predicate InMapping(base: int, size: word, va: int, n: nat) {
    base <= va && va + n <= base + 2 * size
  }

  /** The n bytes found from address va on, through the double mapping at base. */
  function SeenAt<Id>(p: Pipe<Id>, base: int, va: int, n: nat): seq<byte>
    requires |p.memory| == p.maxBlockSize && InMapping(base, p.maxBlockSize, va, n)
  {
    seq(n, (k: nat) requires k < n => p.memory[MapTwice(base, p.maxBlockSize, va + k)])
  }

  /** The sender's store of one byte, k bytes after its location. */
  function Store<Id>(p: Pipe<Id>, k: nat, b: byte): Pipe<Id>
    requires Sound(p) && k < Space(p)
  {
    LocationInMapping(p.senderVa, p.maxBlockSize, p.writeIndex);
    p.(memory := p.memory[MapTwice(p.senderVa, p.maxBlockSize, WriteLocation(p) + k) := b])
  }

  /** The whole double mapping lies below the end of the address space. */
  predicate GoodVa(va: int, size: word) {
    0 <= va && va + 2 * size <= WORD_SIZE
  }

  /** There is never more data than fits. */
  predicate InBounds<Id>(p: Pipe<Id>) {
    Data(p) <= p.maxBlockSize
  }

  /** The pipe can be mapped twice, and its locations follow its indices. */
  predicate Sound<Id>(p: Pipe<Id>) {
    && InBounds(p)
    && Rem(WORD_SIZE, p.maxBlockSize) == 0
    && |p.memory| == p.maxBlockSize
    && GoodVa(p.senderVa, p.maxBlockSize) && GoodVa(p.receiverVa, p.maxBlockSize)
  }

  // ---- arithmetic modulo the block size ----

  lemma RemWrap(a: word, b: word, m: nat)
    requires m > 0 && Rem(WORD_SIZE, m) == 0
    ensures Rem(Add(a, b), m) == Rem(a + b, m)
  {
    if a + b >= WORD_SIZE {
      RemAdd(WORD_SIZE, a + b - WORD_SIZE, m);
    }
  }

  lemma {:induction false} RemsDiffer(a: nat, b: nat, m: nat)
    requires m > 0 && a < b < a + m
    ensures Rem(a, m) != Rem(b, m)
    decreases a
  {
    if a >= m {
      RemsDiffer(a - m, b - m, m);
    }
  }

  predicate Follows(w: word, a: word, m: word)
    requires m > 0
  {
    Rem(Add(w, a), m) == Rem(Rem(w, m) + a, m)
  }

  /** Locations move on by exactly the amount, even when the index wraps, if and only if the block
      size divides the range of the indices. */
  lemma LocationsFollowIffDivides(m: word)
    requires m > 0
    ensures (forall w: word, a: word :: Follows(w, a, m)) <==> WORD_SIZE % m == 0
  {
    RemIsMod(WORD_SIZE, m);
    if Rem(WORD_SIZE, m) == 0 {
      forall w: word, a: word
        ensures Follows(w, a, m)
      {
        RemWrap(w, a, m);
        RemAdd(w, a, m);
      }
    } else {
      RemAdd(0xffff_ffff, 1, m);
      assert !Follows(0xffff_ffff, 1, m);
    }
  }

  lemma LocationInMapping(va: word, size: word, index: word)
    requires size > 0 && GoodVa(va, size)
    ensures va <= Add(va, Rem(index, size)) == va + Rem(index, size) < va + size
  {
  }

  lemma TwiceIsSlot(base: int, size: word, index: word, k: nat)
    requires size > 0 && k < size
    ensures MapTwice(base, size, base + Rem(index, size) + k) == Rem(index + k, size)
  {
    RemAdd(index, k, size);
  }

  // ---- the block of memory is a queue ----

  /** The receiver finds the unread bytes at its location, wherever they straddle the end. */
  lemma ReceiverSeesContents<Id>(p: Pipe<Id>)
    requires Sound(p)
    ensures InMapping(p.receiverVa, p.maxBlockSize, ReadLocation(p), Data(p))
    ensures SeenAt(p, p.receiverVa, ReadLocation(p), Data(p)) == Contents(p)
  {
    LocationInMapping(p.receiverVa, p.maxBlockSize, p.readIndex);
    forall k: nat | k < Data(p)
      ensures SeenAt(p, p.receiverVa, ReadLocation(p), Data(p))[k] == Contents(p)[k]
    {
      TwiceIsSlot(p.receiverVa, p.maxBlockSize, p.readIndex, k);
    }
  }

  lemma WriteIsReadPlusData<Id>(p: Pipe<Id>, k: nat)
    requires Rem(WORD_SIZE, p.maxBlockSize) == 0
    ensures Rem(p.writeIndex + k, p.maxBlockSize) == Rem(p.readIndex + Data(p) + k, p.maxBlockSize)
  {
    var m := p.maxBlockSize;
    var x := p.readIndex + Data(p);
    assert p.writeIndex == Add(p.readIndex, Data(p));
    RemWrap(p.readIndex, Data(p), m);
    RemAdd(x, k, m);
    RemAdd(p.writeIndex, k, m);
  }

  /** Two bytes of the queue, or of the free space after it, are never the same byte of memory. */
  lemma FreeSlot<Id>(p: Pipe<Id>, j: nat, k: nat)
    requires Rem(WORD_SIZE, p.maxBlockSize) == 0
    requires j < Data(p) && Data(p) + k < p.maxBlockSize
    ensures Rem(p.readIndex + j, p.maxBlockSize) != Rem(p.writeIndex + k, p.maxBlockSize)
  {
    WriteIsReadPlusData(p, k);
    RemsDiffer(p.readIndex + j, p.readIndex + Data(p) + k, p.maxBlockSize);
  }

  lemma SeenBySender<Id>(p: Pipe<Id>, n: nat, j: nat)
    requires Sound(p) && j < n <= Space(p)
    ensures InMapping(p.senderVa, p.maxBlockSize, WriteLocation(p), n)
    ensures SeenAt(p, p.senderVa, WriteLocation(p), n)[j] == p.memory[Rem(p.writeIndex + j, p.maxBlockSize)]
  {
    LocationInMapping(p.senderVa, p.maxBlockSize, p.writeIndex);
    TwiceIsSlot(p.senderVa, p.maxBlockSize, p.writeIndex, j);
  }

  lemma StoreIsAtSlot<Id>(p: Pipe<Id>, k: nat, b: byte)
    requires Sound(p) && k < Space(p)
    ensures Store(p, k, b) == p.(memory := p.memory[Rem(p.writeIndex + k, p.maxBlockSize) := b])
  {
    LocationInMapping(p.senderVa, p.maxBlockSize, p.writeIndex);
    TwiceIsSlot(p.senderVa, p.maxBlockSize, p.writeIndex, k);
  }

  /** Writing into the space that was granted changes nothing the receiver has yet to read. */
  lemma StoreIsInvisible<Id>(p: Pipe<Id>, k: nat, b: byte)
    requires Sound(p) && k < Space(p)
    ensures Sound(Store(p, k, b)) && Contents(Store(p, k, b)) == Contents(p)
  {
    StoreIsAtSlot(p, k, b);
    forall j: nat | j < Data(p)
      ensures Contents(Store(p, k, b))[j] == Contents(p)[j]
    {
      FreeSlot(p, j, k);
    }
  }

  lemma StoreIsSeenAt<Id>(p: Pipe<Id>, k: nat, b: byte, j: nat)
    requires Sound(p) && k < Space(p) && j < Space(p)
    ensures Store(p, k, b).memory[Rem(p.writeIndex + j, p.maxBlockSize)]
            == if j == k then b else p.memory[Rem(p.writeIndex + j, p.maxBlockSize)]
  {
    StoreIsAtSlot(p, k, b);
    if j < k {
      RemsDiffer(p.writeIndex + j, p.writeIndex + k, p.maxBlockSize);
    } else if k < j {
      RemsDiffer(p.writeIndex + k, p.writeIndex + j, p.maxBlockSize);
    }
  }

  /** The sender sees its own store at the address it wrote to, and nowhere else in its space. */
  lemma StoreIsSeen<Id>(p: Pipe<Id>, k: nat, b: byte, j: nat)
    requires Sound(p) && k < Space(p) && j < Space(p)
    ensures InMapping(p.senderVa, p.maxBlockSize, WriteLocation(p), Space(p))
    ensures SeenAt(Store(p, k, b), p.senderVa, WriteLocation(p), Space(p))[j]
            == if j == k then b else SeenAt(p, p.senderVa, WriteLocation(p), Space(p))[j]
  {
    SeenBySender(p, Space(p), j);
    StoreIsInvisible(p, k, b);
    StoreIsSeenAt(p, k, b, j);
    SeenBySender(Store(p, k, b), Space(p), j);
  }

  function Filled<Id>(p: Pipe<Id>, amount: word): Pipe<Id> {
    p.(writeIndex := Add(p.writeIndex, amount))
  }

  function Consumed<Id>(p: Pipe<Id>, amount: word): Pipe<Id> {
    p.(readIndex := Add(p.readIndex, amount))
  }

  lemma FilledData<Id>(p: Pipe<Id>, amount: word)
    requires InBounds(p) && amount <= Space(p)
    ensures Data(Filled(p, amount)) == Data(p) + amount && InBounds(Filled(p, amount))
    ensures Sound(p) ==> Sound(Filled(p, amount))
  {
    assert Space(p) == p.maxBlockSize - Data(p);
  }

  /** Filling appends the bytes at the sender's location; it never changes the older ones. */
  lemma FillAppends<Id>(p: Pipe<Id>, amount: word)
    requires Sound(p) && amount <= Space(p)
    ensures Sound(Filled(p, amount)) && Data(Filled(p, amount)) == Data(p) + amount
    ensures InMapping(p.senderVa, p.maxBlockSize, WriteLocation(p), amount)
    ensures Contents(Filled(p, amount)) == Contents(p) + SeenAt(p, p.senderVa, WriteLocation(p), amount)
  {
    FilledData(p, amount);
    LocationInMapping(p.senderVa, p.maxBlockSize, p.writeIndex);
    forall k: nat | Data(p) <= k < Data(p) + amount
      ensures Contents(Filled(p, amount))[k] == SeenAt(p, p.senderVa, WriteLocation(p), amount)[k - Data(p)]
    {
      FilledSlot(p, amount, k - Data(p));
    }
  }

  lemma FilledSlot<Id>(p: Pipe<Id>, amount: word, j: nat)
    requires Sound(p) && j < amount <= Space(p)
    ensures InMapping(p.senderVa, p.maxBlockSize, WriteLocation(p), amount)
    ensures SeenAt(p, p.senderVa, WriteLocation(p), amount)[j]
            == p.memory[Rem(p.readIndex + Data(p) + j, p.maxBlockSize)]
  {
    SeenBySender(p, amount, j);
    WriteIsReadPlusData(p, j);
  }

  lemma ConsumedSlot<Id>(p: Pipe<Id>, amount: word, k: nat)
    requires Sound(p)
    ensures Rem(Consumed(p, amount).readIndex + k, p.maxBlockSize) == Rem(p.readIndex + (amount + k), p.maxBlockSize)
  {
    RemWrap(p.readIndex, amount, p.maxBlockSize);
    RemAdd(Add(p.readIndex, amount), k, p.maxBlockSize);
    RemAdd(p.readIndex + amount, k, p.maxBlockSize);
  }

  lemma ConsumedData<Id>(p: Pipe<Id>, amount: word)
    requires InBounds(p) && amount <= Data(p)
    ensures Data(Consumed(p, amount)) == Data(p) - amount && InBounds(Consumed(p, amount))
    ensures Sound(p) ==> Sound(Consumed(p, amount))
  {
  }

  /** Consuming removes exactly the bytes that were first in the queue. */
  lemma ConsumeDrops<Id>(p: Pipe<Id>, amount: word)
    requires Sound(p) && amount <= Data(p)
    ensures Sound(Consumed(p, amount)) && Data(Consumed(p, amount)) == Data(p) - amount
    ensures Contents(Consumed(p, amount)) == Contents(p)[amount..]
  {
    forall k: nat | k < Data(p) - amount
      ensures Contents(Consumed(p, amount))[k] == Contents(p)[amount + k]
    {
      ConsumedSlot(p, amount, k);
    }
  }
}
