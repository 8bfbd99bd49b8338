/**
 The queue behind the concurrency limit
 (packages/cli/src/concurrency/concurrency-queue.ts) as a transition system.
 */
module ConcurrencyQueue {
  import opened Basics

  type ExecutionId = nat

  /** A queue entry.  `ticket` is its identity: the source compares the resolver it holds. */
  datatype Item = Item(executionId: ExecutionId, ticket: nat)

  /**
   `capacity` and `queue` are the fields of the source.  The rest is history: who was
   let through and who was taken out, in order, and how many gave their slot back.
   */
  datatype State = State(
    capacity: int,
    queue: seq<Item>,
    next: nat,
    admitted: seq<Item>,
    removed: seq<Item>,
    finished: nat)

  datatype Event = Enqueued(id: ExecutionId) | Dequeued | Removed(id: ExecutionId)

  function Fresh(limit: int): State {
    State(limit, [], 0, [], [], 0)
  }

  /** Executions that were let through and have not given their slot back. */
  function Running(s: State): int {
    |s.admitted| - s.finished
  }

  // ---------- the steps ----------

  /** `findIndex`; the length of the queue stands for -1. */
  function FirstIndex(queue: seq<Item>, id: ExecutionId): (i: nat)
    ensures i <= |queue|
    ensures i < |queue| ==> queue[i].executionId == id
    ensures forall j :: 0 <= j < i ==> queue[j].executionId != id
  {
    if queue == [] || queue[0].executionId == id then 0 else 1 + FirstIndex(queue[1..], id)
  }

  predicate Queued(queue: seq<Item>, id: ExecutionId) {
    exists i :: 0 <= i < |queue| && queue[i].executionId == id
  }

  function ResolveNext(s: State): State {
    if s.queue == [] then s
    else s.(queue := s.queue[1..], admitted := s.admitted + [s.queue[0]])
  }

  function Enqueue(s: State, id: ExecutionId): State {
    var item := Item(id, s.next);
    var taken := s.(capacity := s.capacity - 1, next := s.next + 1);
    if taken.capacity < 0 then taken.(queue := s.queue + [item]) else taken.(admitted := s.admitted + [item])
  }

  function Dequeue(s: State): State {
    ResolveNext(s.(capacity := s.capacity + 1, finished := s.finished + 1))
  }

  function Cut(items: seq<Item>, i: nat): seq<Item>
    requires i < |items|
  {
    items[..i] + items[i + 1..]
  }

  function TakeOut(s: State, i: nat): State
    requires i < |s.queue|
  {
    s.(queue := Cut(s.queue, i), capacity := s.capacity + 1, removed := s.removed + [s.queue[i]])
  }

  function Remove(s: State, id: ExecutionId): State {
    var i := FirstIndex(s.queue, id);
    if i < |s.queue| then ResolveNext(TakeOut(s, i)) else s
  }

  /** A slot is given back only by a reservation that holds one. */
  predicate Enabled(s: State, e: Event) {
    e.Dequeued? ==> Running(s) > 0
  }

  function Next(s: State, e: Event): State {
    match e
    case Enqueued(id) => Enqueue(s, id)
    case Dequeued => Dequeue(s)
    case Removed(id) => Remove(s, id)
  }

  predicate Valid(s: State, es: seq<Event>)
    decreases |es|
  {
    es == [] || (Enabled(s, es[0]) && Valid(Next(s, es[0]), es[1..]))
  }

  function Run(s: State, es: seq<Event>): State
    decreases |es|
  {
    if es == [] then s else Run(Next(s, es[0]), es[1..])
  }

  // ---------- what every run keeps ----------

  ghost predicate Increasing(items: seq<Item>) {
    forall i, j :: 0 <= i < j < |items| ==> items[i].ticket < items[j].ticket
  }

  /** First come, first served: nobody who waits arrived before somebody let through. */
  ghost predicate InOrder(s: State) {
    Ordered(s.admitted + s.queue, s.next)
  }

  ghost predicate Ordered(line: seq<Item>, next: nat) {
    Increasing(line) && forall item :: item in line ==> item.ticket < next
  }

  /**
   The capacity counts slots down past zero, one for each waiter; nobody waits while a
   slot is free; and the limit is exceeded at most once for each removal.
   */
  predicate Accounted(s: State, limit: int) {
    s.capacity == limit - Running(s) - |s.queue| &&
    0 <= Running(s) <= limit + |s.removed| &&
    (s.queue != [] ==> Running(s) >= limit)
  }

  lemma EnqueueInOrder(s: State, id: ExecutionId, limit: int)
    requires InOrder(s) && Accounted(s, limit)
    ensures InOrder(Enqueue(s, id)) && Accounted(Enqueue(s, id), limit)
  {
    var item := Item(id, s.next);
    var line := s.admitted + s.queue;
    assert Enqueue(s, id).admitted + Enqueue(s, id).queue == line + [item] by {
      if s.capacity - 1 >= 0 {
        assert s.queue == [];
      } else {
        assert s.admitted + (s.queue + [item]) == line + [item];
      }
    }
  }

  lemma ResolveInOrder(s: State)
    requires InOrder(s)
    ensures InOrder(ResolveNext(s))
  {
    if s.queue != [] {
      assert s.queue == [s.queue[0]] + s.queue[1..];
      assert (s.admitted + [s.queue[0]]) + s.queue[1..] == s.admitted + s.queue;
    }
  }

  lemma CutOrdered(line: seq<Item>, i: nat, next: nat)
    requires Ordered(line, next) && i < |line|
    ensures Ordered(Cut(line, i), next)
  {
  }

  lemma CutBehind(a: seq<Item>, b: seq<Item>, i: nat)
    requires i < |b|
    ensures a + Cut(b, i) == Cut(a + b, |a| + i)
  {
  }

  lemma RemoveInOrder(s: State, id: ExecutionId)
    requires InOrder(s)
    ensures InOrder(Remove(s, id))
  {
    var i := FirstIndex(s.queue, id);
    if i < |s.queue| {
      CutBehind(s.admitted, s.queue, i);
      CutOrdered(s.admitted + s.queue, |s.admitted| + i, s.next);
      ResolveInOrder(TakeOut(s, i));
    }
  }

  lemma StepKeeps(s: State, e: Event, limit: int)
    requires InOrder(s) && Accounted(s, limit) && Enabled(s, e)
    ensures InOrder(Next(s, e)) && Accounted(Next(s, e), limit)
  {
    match e
    case Enqueued(id) => EnqueueInOrder(s, id, limit);
    case Dequeued => ResolveInOrder(s.(capacity := s.capacity + 1, finished := s.finished + 1));
    case Removed(id) => RemoveInOrder(s, id);
  }

  /** In every run from a fresh queue. */
  lemma {:induction false} RunKeeps(s: State, es: seq<Event>, limit: int)
    requires InOrder(s) && Accounted(s, limit) && Valid(s, es)
    ensures InOrder(Run(s, es)) && Accounted(Run(s, es), limit)
    decreases |es|
  {
    if es != [] {
      StepKeeps(s, es[0], limit);
      RunKeeps(Next(s, es[0]), es[1..], limit);
    }
  }

  lemma EveryRun(limit: nat, es: seq<Event>)
    requires Valid(Fresh(limit), es)
    ensures InOrder(Run(Fresh(limit), es)) && Accounted(Run(Fresh(limit), es), limit)
  {
    RunKeeps(Fresh(limit), es, limit);
  }

  // ---------- nobody is lost ----------

  function Everyone(s: State): multiset<Item> {
    multiset(s.admitted) + multiset(s.queue) + multiset(s.removed)
  }

  function Arrivals(es: seq<Event>, next: nat): multiset<Item> {
    if es == [] then multiset{}
    else Arrived(es[0], next) + Arrivals(es[1..], if es[0].Enqueued? then next + 1 else next)
  }

  function Arrived(e: Event, next: nat): multiset<Item> {
    if e.Enqueued? then multiset{Item(e.id, next)} else multiset{}
  }

  lemma ResolveKeepsEveryone(s: State)
    ensures Everyone(ResolveNext(s)) == Everyone(s)
  {
    if s.queue != [] {
      assert s.queue == [s.queue[0]] + s.queue[1..];
    }
  }

  lemma EnqueueAddsOne(s: State, id: ExecutionId)
    ensures Everyone(Enqueue(s, id)) == Everyone(s) + multiset{Item(id, s.next)}
  {
  }

  lemma CutOut(items: seq<Item>, i: nat)
    requires i < |items|
    ensures multiset(Cut(items, i)) + multiset{items[i]} == multiset(items)
  {
    assert items == items[..i] + [items[i]] + items[i + 1..];
  }

  lemma MoveOne(a: multiset<Item>, b: multiset<Item>, c: multiset<Item>, x: multiset<Item>)
    ensures (a + b) + (c + x) == (a + (b + x)) + c
  {
  }

  lemma TakeOutKeepsEveryone(s: State, i: nat)
    requires i < |s.queue|
    ensures Everyone(TakeOut(s, i)) == Everyone(s)
  {
    CutOut(s.queue, i);
    MoveOne(multiset(s.admitted), multiset(Cut(s.queue, i)), multiset(s.removed), multiset{s.queue[i]});
  }

  lemma RemoveKeepsEveryone(s: State, id: ExecutionId)
    ensures Everyone(Remove(s, id)) == Everyone(s)
  {
    var i := FirstIndex(s.queue, id);
    if i < |s.queue| {
      TakeOutKeepsEveryone(s, i);
      ResolveKeepsEveryone(TakeOut(s, i));
    }
  }

  lemma DequeueKeepsEveryone(s: State)
    ensures Everyone(Dequeue(s)) == Everyone(s)
  {
    ResolveKeepsEveryone(s.(capacity := s.capacity + 1, finished := s.finished + 1));
  }

  lemma PlusNothing(m: multiset<Item>)
    ensures m + multiset{} == m
  {
  }

  lemma StepKeepsEveryone(s: State, e: Event)
    ensures Everyone(Next(s, e)) == Everyone(s) + Arrived(e, s.next)
    ensures Next(s, e).next == if e.Enqueued? then s.next + 1 else s.next
  {
    PlusNothing(Everyone(s));
    match e
    case Enqueued(id) => EnqueueAddsOne(s, id);
    case Dequeued => DequeueKeepsEveryone(s);
    case Removed(id) => RemoveKeepsEveryone(s, id);
  }

  lemma ArrivalsStep(before: multiset<Item>, es: seq<Event>, next: nat)
    requires es != []
    ensures
      before + Arrivals(es, next) ==
      (before + Arrived(es[0], next)) + Arrivals(es[1..], if es[0].Enqueued? then next + 1 else next)
  {
  }

  /** Whoever arrived is let through, taken out or waiting, and only once. */
  lemma {:induction false} NobodyIsLost(s: State, es: seq<Event>)
    ensures Everyone(Run(s, es)) == Everyone(s) + Arrivals(es, s.next)
    decreases |es|
  {
    if es != [] {
      var next := Next(s, es[0]);
      StepKeepsEveryone(s, es[0]);
      NobodyIsLost(next, es[1..]);
      ArrivalsStep(Everyone(s), es, s.next);
    }
  }

  // ---------- the limit, and what breaks it ----------

  /** Taking out one waiter while another one waits. */
  predicate Skips(s: State, e: Event) {
    e.Removed? && Queued(s.queue, e.id) && |s.queue| >= 2
  }

  lemma QueuedIff(queue: seq<Item>, id: ExecutionId)
    ensures Queued(queue, id) <==> FirstIndex(queue, id) < |queue|
  {
  }

  /** One step takes a queue over its limit exactly when it takes out a waiter with another one behind or before it. */
  lemma StepStaysWithinIff(s: State, e: Event, limit: int)
    requires Accounted(s, limit) && Enabled(s, e) && Running(s) <= limit
    ensures Running(Next(s, e)) <= limit <==> !Skips(s, e)
  {
    if e.Removed? {
      QueuedIff(s.queue, e.id);
    }
  }

  predicate NeverOver(s: State, es: seq<Event>, limit: int)
    decreases |es|
  {
    Running(s) <= limit && (es == [] || NeverOver(Next(s, es[0]), es[1..], limit))
  }

  predicate NeverSkips(s: State, es: seq<Event>)
    decreases |es|
  {
    es == [] || (!Skips(s, es[0]) && NeverSkips(Next(s, es[0]), es[1..]))
  }

  /**
   The limit holds throughout a run if and only if no removal of the run takes out a
   waiter while another one waits: such a removal lets the next waiter through although
   nobody has given a slot back.
   */
  lemma {:induction false} LimitHoldsIff(s: State, es: seq<Event>, limit: int)
    requires InOrder(s) && Accounted(s, limit) && Valid(s, es) && Running(s) <= limit
    ensures NeverOver(s, es, limit) <==> NeverSkips(s, es)
    decreases |es|
  {
    if es != [] {
      StepKeeps(s, es[0], limit);
      StepStaysWithinIff(s, es[0], limit);
      var next := Next(s, es[0]);
      if Running(next) <= limit {
        LimitHoldsIff(next, es[1..], limit);
      } else {
        assert !NeverOver(next, es[1..], limit);
      }
    }
  }

  // ---------- waiting ends ----------

  function Dequeues(es: seq<Event>): nat {
    if es == [] then 0 else (if es[0].Dequeued? then 1 else 0) + Dequeues(es[1..])
  }

  predicate Waits(s: State, ticket: nat) {
    exists i :: 0 <= i < |s.queue| && s.queue[i].ticket == ticket
  }

  /** Where somebody who still waits was waiting before the step. */
  lemma Before(s: State, e: Event, j: nat) returns (i: nat)
    requires j < |Next(s, e).queue| && (e.Enqueued? ==> j < |s.queue|)
    ensures j <= i < |s.queue| && Next(s, e).queue[j] == s.queue[i]
    ensures e.Dequeued? ==> j < i
  {
    match e
    case Enqueued(id) => i := j;
    case Dequeued => i := j + 1;
    case Removed(id) =>
      var k := FirstIndex(s.queue, id);
      i := j;
      if k < |s.queue| {
        i := if j + 1 < k then j + 1 else j + 2;
        CutAt(s.queue, k, j + 1);
      }
  }

  lemma CutAt(items: seq<Item>, i: nat, j: nat)
    requires i < |items| && j < |items| - 1
    ensures |Cut(items, i)| == |items| - 1 && Cut(items, i)[j] == items[if j < i then j else j + 1]
  {
  }

  lemma TicketsDiffer(queue: seq<Item>, i: nat, j: nat)
    requires Increasing(queue) && i < |queue| && j < |queue| && queue[i].ticket == queue[j].ticket
    ensures i == j
  {
  }

  /** Nobody who waits is overtaken, and every slot given back moves everybody up. */
  lemma StepMovesUp(s: State, e: Event, i: nat, j: nat)
    requires i < |s.queue| && j < |Next(s, e).queue| && InOrder(s)
    requires Next(s, e).queue[j].ticket == s.queue[i].ticket
    ensures j <= i && (e.Dequeued? ==> j < i)
  {
    OrderedQueue(s);
    assert s.queue[i] in s.admitted + s.queue;
    assert e.Enqueued? ==> j < |s.queue|;
    var before := Before(s, e, j);
    TicketsDiffer(s.queue, i, before);
  }

  lemma OrderedQueue(s: State)
    requires InOrder(s)
    ensures Increasing(s.queue)
  {
    var line := s.admitted + s.queue;
    var n := |s.admitted|;
    forall i, j | 0 <= i < j < |s.queue| ensures s.queue[i].ticket < s.queue[j].ticket {
      assert line[n + i] == s.queue[i] && line[n + j] == s.queue[j];
    }
  }

  /** Whoever does not wait any more never waits again. */
  lemma StepNeverReturns(s: State, e: Event, ticket: nat)
    requires ticket < s.next && !Waits(s, ticket)
    ensures !Waits(Next(s, e), ticket)
  {
    if e.Removed? {
      var i := FirstIndex(s.queue, e.id);
      if i < |s.queue| {
        var cut := Cut(s.queue, i);
        assert forall k :: 0 <= k < |cut| ==> cut[k] == s.queue[if k < i then k else k + 1];
      }
    }
  }

  lemma {:induction false} NeverReturns(s: State, es: seq<Event>, ticket: nat)
    requires ticket < s.next && !Waits(s, ticket)
    ensures !Waits(Run(s, es), ticket)
    decreases |es|
  {
    if es != [] {
      StepNeverReturns(s, es[0], ticket);
      NeverReturns(Next(s, es[0]), es[1..], ticket);
    }
  }

  /** Once as many slots as its place in the queue have been given back, a waiter is gone from it. */
  lemma {:induction false} WaitingEnds(s: State, es: seq<Event>, limit: int, i: nat)
    requires InOrder(s) && Accounted(s, limit) && Valid(s, es) && i < |s.queue|
    requires Dequeues(es) > i
    ensures !Waits(Run(s, es), s.queue[i].ticket)
    decreases |es|
  {
    var ticket := s.queue[i].ticket;
    var next := Next(s, es[0]);
    StepKeeps(s, es[0], limit);
    assert s.queue[i] in s.admitted + s.queue;
    if Waits(next, ticket) {
      var j :| 0 <= j < |next.queue| && next.queue[j].ticket == ticket;
      StepMovesUp(s, es[0], i, j);
      WaitingEnds(next, es[1..], limit, j);
    } else {
      NeverReturns(next, es[1..], ticket);
    }
  }

  // ---------- emptying the queue ----------

  function Without(ids: seq<ExecutionId>, id: ExecutionId): seq<ExecutionId> {
    if ids == [] then []
    else (if ids[0] == id then [] else [ids[0]]) + Without(ids[1..], id)
  }

  /** `getAll`: the set of queued ids, in order of first insertion. */
  function GetAll(queue: seq<Item>): seq<ExecutionId> {
    if queue == [] then [] else [queue[0].executionId] + Without(GetAll(queue[1..]), queue[0].executionId)
  }

  function RemoveEach(s: State, ids: seq<ExecutionId>): State
    decreases |ids|
  {
    if ids == [] then s else RemoveEach(Remove(s, ids[0]), ids[1..])
  }

  predicate Distinct(queue: seq<Item>) {
    forall i, j :: 0 <= i < j < |queue| ==> queue[i].executionId != queue[j].executionId
  }

  /** The items at even places. */
  function EveryOther(items: seq<Item>): seq<Item>
    decreases |items|
  {
    if items == [] then [] else [items[0]] + EveryOther(if |items| == 1 then [] else items[2..])
  }

  lemma WithoutAbsent(ids: seq<ExecutionId>, id: ExecutionId)
    requires id !in ids
    ensures Without(ids, id) == ids
  {
  }

  lemma GetAllMembers(queue: seq<Item>, id: ExecutionId)
    ensures id in GetAll(queue) ==> Queued(queue, id)
  {
    if queue != [] && id in GetAll(queue) && id != queue[0].executionId {
      WithoutMembers(GetAll(queue[1..]), queue[0].executionId, id);
      GetAllMembers(queue[1..], id);
      var i :| 0 <= i < |queue[1..]| && queue[1..][i].executionId == id;
      assert queue[i + 1].executionId == id;
    }
  }

  lemma WithoutMembers(ids: seq<ExecutionId>, id: ExecutionId, other: ExecutionId)
    ensures other in Without(ids, id) ==> other in ids
  {
    if ids != [] && other in Without(ids, id) && other != ids[0] {
      assert other in Without(ids[1..], id);
      WithoutMembers(ids[1..], id, other);
    }
  }

  lemma GetAllStep(queue: seq<Item>)
    requires queue != [] && Distinct(queue)
    ensures GetAll(queue) == [queue[0].executionId] + GetAll(queue[1..])
  {
    GetAllMembers(queue[1..], queue[0].executionId);
    WithoutAbsent(GetAll(queue[1..]), queue[0].executionId);
  }

  /** Taking the front waiter out lets the one behind it through. */
  lemma RemoveFront(s: State)
    requires s.queue != []
    ensures
      var s' := Remove(s, s.queue[0].executionId);
      s'.removed == s.removed + [s.queue[0]] &&
      s'.queue == (if |s.queue| == 1 then [] else s.queue[2..]) &&
      s'.admitted == s.admitted + (if |s.queue| == 1 then [] else [s.queue[1]])
  {
    assert Cut(s.queue, 0) == s.queue[1..];
  }

  lemma RemoveAbsent(s: State, id: ExecutionId)
    requires !Queued(s.queue, id)
    ensures Remove(s, id) == s
  {
    QueuedIff(s.queue, id);
  }

  /**
   `removeAll` on waiters with distinct ids empties the queue, but takes out only the
   first, third, fifth, ...; it lets every second waiter through.
   */
  lemma {:induction false} RemoveAllAdmitsEverySecond(s: State)
    requires Distinct(s.queue)
    ensures
      var s' := RemoveEach(s, GetAll(s.queue));
      s'.queue == [] &&
      s'.removed == s.removed + EveryOther(s.queue) &&
      s'.admitted == s.admitted + (if s.queue == [] then [] else EveryOther(s.queue[1..]))
    decreases |s.queue|
  {
    if |s.queue| == 1 {
      RemoveAllOfOne(s);
    } else if |s.queue| > 1 {
      var s2 := Remove(s, s.queue[0].executionId);
      RemoveFront(s);
      RemovePair(s);
      RemoveAllAdmitsEverySecond(s2);
      EveryOtherOfTail(s.queue);
      Append(s.removed, s.queue[0], EveryOther(s2.queue));
      if s2.queue != [] {
        Append(s.admitted, s.queue[1], EveryOther(s2.queue[1..]));
      }
    }
  }

  lemma Append(a: seq<Item>, x: Item, b: seq<Item>)
    ensures (a + [x]) + b == a + ([x] + b)
  {
  }

  lemma RemoveAllOfOne(s: State)
    requires |s.queue| == 1
    ensures RemoveEach(s, GetAll(s.queue)) == Remove(s, s.queue[0].executionId)
    ensures
      var s' := Remove(s, s.queue[0].executionId);
      s'.queue == [] && s'.removed == s.removed + EveryOther(s.queue) &&
      s'.admitted == s.admitted + EveryOther(s.queue[1..])
  {
    var id := s.queue[0].executionId;
    RemoveFront(s);
    assert GetAll(s.queue[1..]) == [] && Without([], id) == [];
    assert GetAll(s.queue) == [id];
    assert RemoveEach(Remove(s, id), []) == Remove(s, id);
    assert EveryOther(s.queue) == [s.queue[0]];
  }

  /** The first two ids of the loop: the second one is not queued any more when its turn comes. */
  lemma RemovePair(s: State)
    requires |s.queue| >= 2 && Distinct(s.queue)
    ensures
      var s2 := Remove(s, s.queue[0].executionId);
      s2.queue == s.queue[2..] && RemoveEach(s, GetAll(s.queue)) == RemoveEach(s2, GetAll(s2.queue))
  {
    var s2 := Remove(s, s.queue[0].executionId);
    RemoveFront(s);
    GetAllPair(s.queue);
    assert !Queued(s2.queue, s.queue[1].executionId);
    RemoveAbsent(s2, s.queue[1].executionId);
    RemoveTwo(s, s.queue[0].executionId, s.queue[1].executionId, GetAll(s.queue[2..]));
  }

  lemma GetAllPair(queue: seq<Item>)
    requires |queue| >= 2 && Distinct(queue)
    ensures GetAll(queue) == [queue[0].executionId, queue[1].executionId] + GetAll(queue[2..])
  {
    var tail := queue[1..];
    DistinctTail(queue);
    GetAllStep(queue);
    GetAllStep(tail);
    assert tail[1..] == queue[2..];
    PairUp(queue[0].executionId, queue[1].executionId, GetAll(queue[2..]));
  }

  lemma PairUp(a: ExecutionId, b: ExecutionId, ids: seq<ExecutionId>)
    ensures [a] + ([b] + ids) == [a, b] + ids
  {
  }

  lemma DistinctTail(queue: seq<Item>)
    requires queue != [] && Distinct(queue)
    ensures Distinct(queue[1..])
  {
  }

  lemma RemoveTwo(s: State, a: ExecutionId, b: ExecutionId, ids: seq<ExecutionId>)
    ensures RemoveEach(s, [a, b] + ids) == RemoveEach(Remove(Remove(s, a), b), ids)
  {
    assert ([a, b] + ids)[1..] == [b] + ids;
    assert ([b] + ids)[1..] == ids;
  }

  lemma EveryOtherOfTail(queue: seq<Item>)
    requires |queue| >= 2
    ensures EveryOther(queue[1..]) == [queue[1]] + (if |queue| == 2 then [] else EveryOther(queue[2..][1..]))
  {
    if |queue| > 2 {
      assert queue[1..][2..] == queue[2..][1..];
    }
  }

  // ---------- callers that wait under one id ----------

  lemma RemoveShortens(s: State, id: ExecutionId)
    ensures |Remove(s, id).queue| == if Queued(s.queue, id) then Max(0, |s.queue| - 2) else |s.queue|
  {
    QueuedIff(s.queue, id);
  }

  /** How many of the ids are still queued when their turn comes. */
  function Turns(s: State, ids: seq<ExecutionId>): (n: nat)
    ensures n <= |ids|
    decreases |ids|
  {
    if ids == [] then 0
    else (if Queued(s.queue, ids[0]) then 1 else 0) + Turns(Remove(s, ids[0]), ids[1..])
  }

  lemma {:induction false} EachTurnTakesTwo(s: State, ids: seq<ExecutionId>)
    ensures |RemoveEach(s, ids).queue| == Max(0, |s.queue| - 2 * Turns(s, ids))
    decreases |ids|
  {
    if ids != [] {
      RemoveShortens(s, ids[0]);
      EachTurnTakesTwo(Remove(s, ids[0]), ids[1..]);
    }
  }

  /**
   How many `removeAll` leaves behind, whatever is queued: each id that is still queued
   when its turn comes takes two waiters out.  So with more than two waiters for each id
   somebody is left.
   */
  lemma RemoveAllCount(s: State)
    ensures |RemoveEach(s, GetAll(s.queue)).queue| == Max(0, |s.queue| - 2 * Turns(s, GetAll(s.queue)))
    ensures RemoveEach(s, GetAll(s.queue)).queue == [] <==> |s.queue| <= 2 * Turns(s, GetAll(s.queue))
    ensures |s.queue| > 2 * |GetAll(s.queue)| ==> RemoveEach(s, GetAll(s.queue)).queue != []
  {
    EachTurnTakesTwo(s, GetAll(s.queue));
  }

  /** Nobody with the id of `x` waits in front of it. */
  ghost predicate First(queue: seq<Item>, x: Item) {
    forall y :: y in queue && y.executionId == x.executionId ==> x.ticket <= y.ticket
  }

  lemma CutIsPart(items: seq<Item>, i: nat, y: Item)
    requires i < |items| && y in Cut(items, i)
    ensures exists j :: 0 <= j < |items| && j != i && items[j] == y
  {
    var cut := Cut(items, i);
    var j :| 0 <= j < |cut| && cut[j] == y;
    assert items[if j < i then j else j + 1] == y;
  }

  lemma RemoveAddsNobody(s: State, id: ExecutionId, y: Item)
    requires y in Remove(s, id).queue
    ensures y in s.queue
  {
    var i := FirstIndex(s.queue, id);
    if i < |s.queue| {
      CutIsPart(s.queue, i, y);
    }
  }

  lemma FirstIsRemoved(s: State, x: Item)
    requires InOrder(s) && First(s.queue, x)
    ensures x !in Remove(s, x.executionId).queue
  {
    var k := FirstIndex(s.queue, x.executionId);
    assert k < |s.queue| ==> s.queue[k] in s.queue;
    OrderedQueue(s);
    if x in Remove(s, x.executionId).queue {
      RemoveAddsNobody(s, x.executionId, x);
      CutIsPart(s.queue, k, x);
    }
  }

  lemma {:induction false} GoneStaysGone(s: State, ids: seq<ExecutionId>, x: Item)
    requires x !in s.queue
    ensures x !in RemoveEach(s, ids).queue
    decreases |ids|
  {
    if ids != [] {
      if x in Remove(s, ids[0]).queue {
        RemoveAddsNobody(s, ids[0], x);
      }
      GoneStaysGone(Remove(s, ids[0]), ids[1..], x);
    }
  }

  lemma {:induction false} FirstGetsItsTurn(s: State, ids: seq<ExecutionId>, x: Item)
    requires InOrder(s) && First(s.queue, x) && x.executionId in ids
    ensures x !in RemoveEach(s, ids).queue
    decreases |ids|
  {
    var next := Remove(s, ids[0]);
    if ids[0] == x.executionId {
      FirstIsRemoved(s, x);
      GoneStaysGone(next, ids[1..], x);
    } else {
      RemoveInOrder(s, ids[0]);
      forall y | y in next.queue ensures y in s.queue {
        RemoveAddsNobody(s, ids[0], y);
      }
      FirstGetsItsTurn(next, ids[1..], x);
    }
  }

  lemma WithoutKeeps(ids: seq<ExecutionId>, id: ExecutionId, other: ExecutionId)
    requires other in ids && other != id
    ensures other in Without(ids, id)
  {
    if other != ids[0] {
      WithoutKeeps(ids[1..], id, other);
    }
  }

  lemma {:induction false} GetAllHasEverybody(queue: seq<Item>, x: Item)
    requires x in queue
    ensures x.executionId in GetAll(queue)
    decreases |queue|
  {
    if x.executionId != queue[0].executionId {
      GetAllHasEverybody(queue[1..], x);
      WithoutKeeps(GetAll(queue[1..]), queue[0].executionId, x.executionId);
    }
  }

  /** Whoever `removeAll` leaves behind was waiting behind somebody with the same id. */
  lemma LeftBehindOnlyRepeats(s: State, x: Item)
    requires InOrder(s) && x in RemoveEach(s, GetAll(s.queue)).queue
    ensures exists y :: y in s.queue && y.executionId == x.executionId && y.ticket < x.ticket
  {
    if x !in s.queue {
      GoneStaysGone(s, GetAll(s.queue), x);
    } else {
      GetAllHasEverybody(s.queue, x);
      if First(s.queue, x) {
        FirstGetsItsTurn(s, GetAll(s.queue), x);
      }
    }
  }

  predicate AllOf(queue: seq<Item>, id: ExecutionId) {
    forall x :: x in queue ==> x.executionId == id
  }

  function Arriving(id: ExecutionId, n: nat): seq<Event> {
    if n == 0 then [] else [Enqueued(id)] + Arriving(id, n - 1)
  }

  lemma {:induction false} ArrivingUnderOneId(s: State, id: ExecutionId, n: nat)
    requires AllOf(s.queue, id)
    ensures Valid(s, Arriving(id, n))
    ensures
      var s' := Run(s, Arriving(id, n));
      AllOf(s'.queue, id) && |s'.queue| == |s.queue| + Max(0, n - Max(0, s.capacity))
    decreases n
  {
    if n > 0 {
      ArrivingUnderOneId(Enqueue(s, id), id, n - 1);
    }
  }

  lemma {:induction false} GetAllOfOne(queue: seq<Item>, id: ExecutionId)
    requires queue != [] && AllOf(queue, id)
    ensures GetAll(queue) == [id]
    decreases |queue|
  {
    assert queue[0] in queue;
    if |queue| > 1 {
      GetAllOfOne(queue[1..], id);
      assert [id][1..] == [];
      assert Without([id], id) == [];
    }
  }

  /**
   It does happen: with any limit, any number of callers can come to wait under one id,
   as racing resumes of one execution do, and `removeAll` leaves all but two of them.
   */
  lemma RemoveAllLeavesAllButTwo(limit: nat, id: ExecutionId, n: nat)
    ensures Valid(Fresh(limit), Arriving(id, limit + n))
    ensures
      var s := Run(Fresh(limit), Arriving(id, limit + n));
      |s.queue| == n && |RemoveEach(s, GetAll(s.queue)).queue| == Max(0, n - 2)
  {
    ArrivingUnderOneId(Fresh(limit), id, limit + n);
    var s := Run(Fresh(limit), Arriving(id, limit + n));
    if n > 0 {
      GetAllOfOne(s.queue, id);
      assert s.queue[0] in s.queue;
      assert [id][1..] == [];
      assert RemoveEach(s, [id]) == RemoveEach(Remove(s, id), []) == Remove(s, id);
      RemoveShortens(s, id);
    }
  }
}
