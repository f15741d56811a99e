/** Tasks and the circular doubly linked lists they live in (include/doubly_linked_list.h,
    instantiated for Task at TaskSlot/simple/common.h:79). */
module TaskRings {
  import opened Words

  /** svc_registers: a structure that is copied by value. */
  datatype Registers = Registers(r0: word, r1: word, r2: word, r3: word, r4: word, r5: word, r6: word,
                                 r7: word, r8: word, r9: word, r10: word, r11: word, r12: word,
                                 lr: word, spsr: word)

  /** The registers a SWI's caller left on the SVC stack: not the same object as Task.regs. */
  class SvcFrame {
    var regs: Registers
    const above: word // the address regs + 1

    constructor (regs: Registers, above: word)
      ensures this.regs == regs && this.above == above
    {
      this.regs := regs;
      this.above := above;
    }
  }

  class TaskSlot {
    var svcStackOwner: Task?
    var svcSpWhenUnmapped: word

    constructor (sp: word)
      ensures svcStackOwner == null && svcSpWhenUnmapped == sp
    {
      svcStackOwner := null;
      svcSpWhenUnmapped := sp;
    }
  }

  class Task {
    var regs: Registers
    var bankedSp: word
    var bankedLr: word
    var resumes: int
    var slot: TaskSlot
    var next: Task
    var prev: Task
    ghost var resumeCalls: nat // how often it has been resumed
    ghost var waitCalls: nat   // how often it has waited to be woken
    ghost var due: int         // the tick it last asked to sleep until

    constructor (slot: TaskSlot, regs: Registers)
      ensures this.slot == slot && this.regs == regs && resumes == 0 && resumeCalls == 0 && waitCalls == 0
      ensures Ring([this])
    {
      this.slot := slot;
      this.regs := regs;
      bankedSp, bankedLr, resumes := 0, 0, 0;
      next, prev := this, this;
      resumeCalls, waitCalls, due := 0, 0, 0;
    }
  }

  ghost function Members(s: seq<Task>): set<Task> {
    set t | t in s
  }

  /** No task occurs twice. */
  ghost predicate Distinct(s: seq<Task>) {
    forall i, j | 0 <= i < j < |s| :: s[i] != s[j]
  }

  lemma DistinctConcat(s: seq<Task>, t: seq<Task>)
    requires Distinct(s) && Distinct(t) && forall x | x in s :: x !in t
    ensures Distinct(s + t)
    ensures forall x :: x in s + t <==> x in s || x in t
  {
    forall i, j | 0 <= i < j < |s + t|
      ensures (s + t)[i] != (s + t)[j]
    {
      assert i < |s| ==> s[i] in s;
    }
  }

  /** The tasks of s, in order, are linked into one circular list. */
  ghost predicate Ring(s: seq<Task>)
    reads Members(s)`next, Members(s)`prev
  {
    && |s| > 0
    && Distinct(s)
    && (forall i | 0 <= i < |s| - 1 :: s[i].next == s[i + 1])
    && (forall i | 0 < i < |s| :: s[i].prev == s[i - 1])
    && s[|s| - 1].next == s[0]
    && s[0].prev == s[|s| - 1]
  }

  /** A list head variable: null for the empty list, otherwise the first task of a ring. */
  ghost predicate Heads(head: Task?, s: seq<Task>)
    reads Members(s)`next, Members(s)`prev
  {
    if head == null then s == [] else Ring(s) && s[0] == head
  }

  /** The links determine the sequence: two rings with the same head are the same. */
  lemma RingIsDetermined(s: seq<Task>, t: seq<Task>)
    requires Ring(s) && Ring(t) && s[0] == t[0]
    ensures s == t
  {
    if |s| <= |t| {
      SamePrefix(s, t, |s|);
    } else {
      SamePrefix(t, s, |t|);
    }
  }

  lemma {:induction false} SamePrefix(s: seq<Task>, t: seq<Task>, k: nat)
    requires Ring(s) && Ring(t) && s[0] == t[0] && k <= |s| <= |t|
    ensures s[..k] == t[..k]
    ensures k == |s| ==> |s| == |t|
  {
    if k > 1 {
      SamePrefix(s, t, k - 1);
      assert s[k - 1] == s[k - 2].next && s[k - 2] == s[..k - 1][k - 2] == t[..k - 1][k - 2];
    }
    if k == |s| {
      assert s[..k] == s && s[k - 1] == t[..k][k - 1];
    }
  }

  /** Stepping along a ring ends up at its head exactly after the last member. */
  lemma Onward(s: seq<Task>, k: nat)
    requires Ring(s) && k < |s|
    ensures if k + 1 < |s| then s[k].next == s[k + 1] != s[0] else s[k].next == s[0]
  {
  }

  /** The two links of a task are each other's inverses, and lead nowhere else. */
  lemma LinksMatch(s: seq<Task>, t: Task)
    requires Ring(s) && t in s
    ensures t.next in s && t.prev in s && t.next.prev == t && t.prev.next == t
  {
    var k :| 0 <= k < |s| && s[k] == t;
    assert t.next == s[if k + 1 < |s| then k + 1 else 0];
    assert t.prev == s[if k > 0 then k - 1 else |s| - 1];
  }

  lemma HeadsRing(head: Task?, s: seq<Task>)
    requires Heads(head, s) && head != null
    ensures Ring(s) && |s| > 0 && s[0] == head
  {
  }

  lemma RingNotEmpty(s: seq<Task>)
    requires Ring(s)
    ensures |s| > 0
  {
  }

  lemma RingHeads(s: seq<Task>)
    requires Ring(s)
    ensures |s| > 0 && Heads(s[0], s)
  {
  }

  lemma AloneIsRing(t: Task)
    requires t.next == t && t.prev == t
    ensures Ring([t])
  {
  }

  lemma RingOfOne(t: Task)
    requires Ring([t])
    ensures t.next == t && t.prev == t
  {
    Neighbours([t], 0);
  }

  /** The links of one member, whatever its position. */
  lemma Neighbours(s: seq<Task>, k: nat)
    requires Ring(s) && k < |s|
    ensures s[k].next == s[if k + 1 == |s| then 0 else k + 1]
    ensures s[k].prev == s[if k == 0 then |s| - 1 else k - 1]
    ensures s[k].next == s[k] <==> |s| == 1
  {
  }

  /** Moving the head variable along the list keeps the ring. */
  lemma Rotate(s: seq<Task>, k: nat)
    requires Ring(s) && k < |s|
    ensures Ring(s[k..] + s[..k])
  {
    var r := s[k..] + s[..k];
    forall i | 0 <= i < |r| - 1
      ensures r[i].next == r[i + 1] && r[i + 1].prev == r[i]
    {
      if i + k + 1 < |s| {
        assert r[i] == s[i + k] && r[i + 1] == s[i + k + 1];
      } else if i + k + 1 == |s| {
        assert r[i] == s[|s| - 1] && r[i + 1] == s[0];
      } else {
        assert r[i] == s[i + k - |s|] && r[i + 1] == s[i + k - |s| + 1];
      }
    }
  }

  /** dll_attach */
  method Attach(i: Task, head: Task?, ghost ring: seq<Task>) returns (newHead: Task)
    requires Ring([i]) && Heads(head, ring) && i !in ring
    modifies i`next, i`prev, Members(ring)`next, Members(ring)`prev
    ensures newHead == i && Ring([i] + ring)
  {
    if head != null {
      i.next := head;
      i.prev := head.prev;
      i.prev.next := i;
      head.prev := i;
    }
    newHead := i;
  }

  /** The same ring, seen from the task after its head. */
  lemma RestFirst(s: seq<Task>) returns (rest: seq<Task>)
    requires Ring(s)
    ensures rest == s[1..] + [s[0]] && Ring(rest) && rest[0] == s[0].next
    ensures Members(rest) == Members(s) && forall t :: t in rest <==> t in s
  {
    Neighbours(s, 0);
    rest := s[1..] + [s[0]];
    assert s == [s[0]] + s[1..];
    if |s| == 1 {
      assert rest == s;
    } else {
      Rotate(s, 1);
      assert s[1..] + s[..1] == rest;
    }
  }

  /** dll_attach, then stepping the head on: the item ends up last. */
  method AttachAtTail(i: Task, head: Task, ghost ring: seq<Task>) returns (newHead: Task)
    requires Ring([i]) && Ring(ring) && ring[0] == head && i !in ring
    modifies i`next, i`prev, Members(ring)`next, Members(ring)`prev
    ensures newHead == head && Ring(ring + [i])
  {
    ghost var joined := [i] + ring;
    newHead := Attach(i, head, ring);
    Neighbours(joined, 0);
    newHead := newHead.next;
    Rotate(joined, 1);
    assert joined[1..] + joined[..1] == ring + [i];
  }

  /** dll_attach to the list that starts after the head, whose own head variable is left alone. */
  method AttachAfterHead(i: Task, head: Task, ghost ring: seq<Task>)
    requires Ring([i]) && Ring(ring) && ring[0] == head && i !in ring
    modifies i`next, i`prev, Members(ring)`next, Members(ring)`prev
    ensures Ring([head, i] + ring[1..])
  {
    ghost var rest := RestFirst(ring);
    ghost var joined := [i] + rest;
    var tail := head.next;
    tail := Attach(i, tail, rest);
    Rotate(joined, |rest|);
    assert joined[|rest|..] + joined[..|rest|] == [head, i] + ring[1..];
  }

  /** dll_detach */
  method Detach(i: Task, ghost ring: seq<Task>)
    requires Ring(ring) && ring[0] == i
    modifies Members(ring)`next, Members(ring)`prev
    ensures Ring([i])
    ensures |ring| > 1 ==> Ring(ring[1..])
  {
    Neighbours(ring, 0);
    i.prev.next := i.next;
    i.next.prev := i.prev;
    i.next := i;
    i.prev := i;
  }

  /** dll_replace */
  method Replace(i1: Task, i2: Task, head: Task, ghost ring: seq<Task>, ghost k: nat) returns (newHead: Task)
    requires Ring(ring) && ring[0] == head && k < |ring| && ring[k] == i1
    requires Ring([i2]) && i2 !in ring
    modifies i2`next, i2`prev, Members(ring)`next, Members(ring)`prev
    ensures Ring(ring[k := i2]) && newHead == ring[k := i2][0] && Ring([i1])
  {
    newHead := head;
    Neighbours(ring, k);
    if i1.next == i1 {
      newHead := i2;
    } else {
      i2.prev := i1.prev;
      i2.next := i1.next;
      i2.prev.next := i2;
      i2.next.prev := i2;
      i1.prev := i1;
      i1.next := i1;
      if head == i1 {
        newHead := i2;
      }
    }
  }

  /** What one ring says about the two sequences it is made of. */
  lemma Parts(front: seq<Task>, back: seq<Task>)
    requires Ring(front + back) && front != []
    ensures Distinct(front) && Distinct(back) && forall i, j | 0 <= i < |front| && 0 <= j < |back| :: front[i] != back[j]
    ensures forall i | 0 <= i < |front| - 1 :: front[i].next == front[i + 1]
    ensures forall i | 0 < i < |front| :: front[i].prev == front[i - 1]
    ensures forall i | 0 <= i < |back| - 1 :: back[i].next == back[i + 1]
    ensures forall i | 0 < i < |back| :: back[i].prev == back[i - 1]
    ensures if back == [] then Ring(front) && front[|front| - 1].next == front[0]
            else front[|front| - 1].next == back[0] != front[0] && back[0].prev == front[|front| - 1]
                 && back[|back| - 1].next == front[0] && front[0].prev == back[|back| - 1]
  {
    var ring := front + back;
    assert forall i | 0 <= i < |front| :: front[i] == ring[i];
    assert forall i | 0 <= i < |back| :: back[i] == ring[|front| + i];
    if back == [] {
      assert ring == front;
    }
  }

  /** dll_detach_Ts_until: front is everything up to and including last. */
  method DetachUntil(head: Task, last: Task, ghost front: seq<Task>, ghost back: seq<Task>) returns (newHead: Task?)
    requires Ring(front + back) && front != [] && front[0] == head && front[|front| - 1] == last
    modifies Members(front + back)`next, Members(front + back)`prev
    ensures Ring(front) && Heads(newHead, back)
  {
    Parts(front, back);
    if last.next == head {
      newHead := null;
    } else {
      newHead := last.next;
      newHead.prev := head.prev;
      head.prev.next := newHead;
      last.next := head;
      head.prev := last;
    }
  }

  /** dll_insert_T_list_at_head */
  method InsertListAtHead(head: Task, l: Task?, ghost first: seq<Task>, ghost rest: seq<Task>) returns (newHead: Task)
    requires Ring(first) && first[0] == head && Heads(l, rest)
    requires forall t | t in first :: t !in rest
    modifies Members(first + rest)`next, Members(first + rest)`prev
    ensures newHead == head && Ring(first + rest)
  {
    DistinctConcat(first, rest);
    if l != null {
      var oldLast := l.prev;
      var last := head.prev;
      last.next := l;
      l.prev := last;
      head.prev := oldLast;
      oldLast.next := head;
    } else {
      assert first + rest == first;
    }
    newHead := head;
  }

  /** dll_insert_T_list_at_head to the list that starts after the head. */
  method InsertListAfterHead(first: Task, head: Task, ghost front: seq<Task>, ghost ring: seq<Task>)
    requires Ring(front) && front[0] == first && Ring(ring) && ring[0] == head
    requires forall t | t in front :: t !in ring
    modifies Members(front)`next, Members(front)`prev, Members(ring)`next, Members(ring)`prev
    ensures Ring([head] + front + ring[1..])
  {
    hide *;
    RingNotEmpty(front);
    RingNotEmpty(ring);
    ghost var rest := RestFirst(ring);
    var tail := head.next;
    RingHeads(rest);
    MembersConcat(front, rest);
    tail := InsertListAtHead(first, tail, front, rest);
    Rotate(front + rest, |front + rest| - 1);
    LastToFront(head, front, ring[1..]);
  }

  lemma MembersConcat(s: seq<Task>, t: seq<Task>)
    ensures Members(s + t) == Members(s) + Members(t)
  {
  }

  lemma LastToFront(head: Task, front: seq<Task>, back: seq<Task>)
    ensures var joined := front + (back + [head]);
            joined[|joined| - 1..] + joined[..|joined| - 1] == [head] + front + back
  {
    var joined := front + (back + [head]);
    assert joined[..|joined| - 1] == front + back && joined[|joined| - 1..] == [head];
  }

  /** The first tasks of one list, up to last, go into another straight after its head. */
  method MoveFront(from: Task, last: Task, head: Task, ghost front: seq<Task>, ghost back: seq<Task>, ghost ring: seq<Task>)
    returns (newFrom: Task?)
    requires Ring(front + back) && front != [] && front[0] == from && front[|front| - 1] == last
    requires Ring(ring) && ring[0] == head
    requires forall t | t in front :: t !in ring && t !in back
    requires Members(front + back) !! Members(ring) && Members(back) !! Members(front) && Members(back) !! Members(ring)
    modifies Members(front + back)`next, Members(front + back)`prev, Members(ring)`next, Members(ring)`prev
    ensures Heads(newFrom, back) && Ring([head] + front + ring[1..])
  {
    hide Ring, Heads, Distinct;
    newFrom := DetachUntil(from, last, front, back);
    assert Ring(ring);
    assert forall t | t in front :: t in front + back;
    InsertListAfterHead(from, head, front, ring);
    assert Heads(newFrom, back);
  }

  /** Splitting a prefix off and putting it back leaves every link as it was. */
  method DetachThenInsert(head: Task, last: Task, ghost front: seq<Task>, ghost back: seq<Task>) returns (newHead: Task)
    requires Ring(front + back) && front != [] && front[0] == head && front[|front| - 1] == last
    modifies Members(front + back)`next, Members(front + back)`prev
    ensures newHead == head
    ensures forall t | t in front + back :: t.next == old(t.next) && t.prev == old(t.prev)
  {
    ghost var ring := front + back;
    forall k | 0 <= k < |ring|
      ensures ring[k].next == ring[if k + 1 == |ring| then 0 else k + 1]
      ensures ring[k].prev == ring[if k == 0 then |ring| - 1 else k - 1]
    {
      Neighbours(ring, k);
    }
    var l := DetachUntil(head, last, front, back);
    forall t | t in front ensures t !in back {
      var i :| 0 <= i < |front| && front[i] == t;
      assert ring[i] == t;
      assert forall j | 0 <= j < |back| :: back[j] == ring[|front| + j];
    }
    newHead := InsertListAtHead(head, l, front, back);
    forall t | t in ring
      ensures t.next == old(t.next) && t.prev == old(t.prev)
    {
      var k :| 0 <= k < |ring| && ring[k] == t;
      Neighbours(ring, k);
    }
  }
}
