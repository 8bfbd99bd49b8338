/**
 The execution protocol on top of the concurrency queue: a call of `add` goes on from
 `reserve` only when the queue has let it through, and giving a reservation back lets
 the next one through (packages/cli/src/active-executions.ts and
 packages/cli/src/concurrency/).
 */
module ConcurrencyLimit {
  import opened Basics
  import opened ExecutionProtocol
  import Lifecycle = ExecutionLifecycle
  import Queue = ConcurrencyQueue

  /**
   `line` are the calls that wait, in the order of the queue; `granted` are those that
   the queue has let through and that have not gone on yet.
   */
  datatype System = System(p: State, q: Queue.State, line: seq<Call>, granted: set<Call>)

  /** `Taken` is the removal of a waiter from the queue, as when its execution is stopped. */
  datatype Move = Step(e: Event) | Taken(id: Id)

  // ---------- the steps ----------

  /** The call asks for a limited slot. */
  predicate Asks(p: State, e: Event) {
    (e.Created? && e.c in p.calls && p.calls[e.c].mode == Throttled) || (e.BeginResume? && e.mode == Throttled)
  }

  predicate IsThrottled(p: State, c: Call) {
    (c in p.calls && p.calls[c].mode == Throttled) || (c in p.records && p.records[c].mode == Throttled)
  }

  predicate TakesSlot(p: State, e: Event) {
    e.Reserved? && IsThrottled(p, e.c)
  }

  predicate GivesBack(p: State, e: Event) {
    (e.Failed? || e.Thrown? || e.Settled?) && e.c in p.held && IsThrottled(p, e.c)
  }

  /** `reserve` goes on only when the queue has let the call through, and never rejects. */
  predicate CanMove(cfg: Config, s: System, m: Move) {
    match m
    case Taken(_) => true
    case Step(e) =>
      Enabled(cfg, s.p, e) && (TakesSlot(s.p, e) ==> e.c in s.granted) &&
      (e.Failed? && s.p.calls[e.c].phase == Reserving ==> !IsThrottled(s.p, e.c))
  }

  /** The promise of the call at the front resolves. */
  function Wake(s: System): System {
    if s.line == [] then s else s.(line := s.line[1..], granted := s.granted + {s.line[0]})
  }

  function Join(s: System, c: Call, id: Id): System {
    var q := Queue.Enqueue(s.q, id);
    if |q.queue| > |s.q.queue| then s.(q := q, line := s.line + [c])
    else s.(q := q, granted := s.granted + {c})
  }

  function TakeFromLine(s: System, id: Id): System {
    var i := Queue.FirstIndex(s.q.queue, id);
    var rest := s.(q := Queue.Remove(s.q, id));
    if i < |s.q.queue| && i < |s.line| then Wake(rest.(line := s.line[..i] + s.line[i + 1..])) else rest
  }

  function MoveTo(cfg: Config, s: System, m: Move): System
    requires CanMove(cfg, s, m)
  {
    match m
    case Taken(id) => TakeFromLine(s, id)
    case Step(e) =>
      var next := s.(p := Next(cfg, s.p, e));
      if Asks(s.p, e) then Join(next, e.c, e.id)
      else if TakesSlot(s.p, e) then next.(granted := s.granted - {e.c})
      else if GivesBack(s.p, e) then Wake(next.(q := Queue.Dequeue(s.q)))
      else next
  }

  predicate Moves(cfg: Config, s: System, ms: seq<Move>)
    decreases |ms|
  {
    ms == [] || (CanMove(cfg, s, ms[0]) && Moves(cfg, MoveTo(cfg, s, ms[0]), ms[1..]))
  }

  function After(cfg: Config, s: System, ms: seq<Move>): System
    requires Moves(cfg, s, ms)
    decreases |ms|
  {
    if ms == [] then s else After(cfg, MoveTo(cfg, s, ms[0]), ms[1..])
  }

  // ---------- what every run keeps ----------

  /** The limited slots in use. */
  function Slots(p: State): set<Call> {
    set c | c in p.held && IsThrottled(p, c)
  }

  /** The call waits in `reserve` for a limited slot. */
  predicate InReserve(p: State, c: Call) {
    IsCall(p, c, Reserving) && IsThrottled(p, c)
  }

  ghost predicate Linked(s: System) {
    |s.line| == |s.q.queue| &&
    (forall i, j :: 0 <= i < j < |s.line| ==> s.line[i] != s.line[j]) &&
    (forall c :: c in s.line ==> c !in s.granted) &&
    (forall c :: c in s.line || c in s.granted ==> InReserve(s.p, c))
  }

  /** The queue counts as running exactly the slots in use and the calls it has let through. */
  ghost predicate Sound(s: System, limit: int) {
    Inv(s.p) && Queue.InOrder(s.q) && Queue.Accounted(s.q, limit) && Linked(s) &&
    Queue.Running(s.q) == |Slots(s.p)| + |s.granted|
  }

  lemma HeldAfter(cfg: Config, p: State, e: Event)
    requires SlotsOk(p) && Enabled(cfg, p, e)
    ensures Next(cfg, p, e).held ==
            if e.Reserved? then p.held + {e.c}
            else if e.Failed? || e.Thrown? || e.Settled? then p.held - {e.c}
            else p.held
  {
    if e.Finalized? || e.Stopped? {
      assert Next(cfg, p, e).held == p.held;
    }
  }

  lemma ModeKept(cfg: Config, p: State, e: Event, c: Call)
    requires p.calls.Keys !! p.records.Keys && Enabled(cfg, p, e) && (c in p.calls || c in p.records)
    ensures IsThrottled(Next(cfg, p, e), c) <==> IsThrottled(p, c)
  {
    if IsCallStep(e) {
      CallStepFrame(cfg, p, e);
    } else if !e.Registered? {
      CallStepFrame(cfg, p, e);
      ModeOfRecordKept(cfg, p, e, c);
    }
  }

  lemma ModeOfRecordKept(cfg: Config, p: State, e: Event, c: Call)
    requires p.calls.Keys !! p.records.Keys && Enabled(cfg, p, e) && !IsCallStep(e) && !e.Registered?
    ensures Next(cfg, p, e).records.Keys == p.records.Keys
    ensures c in p.records ==> Next(cfg, p, e).records[c].mode == p.records[c].mode
  {
    if c in p.records {
      Lifecycle.RecordStep(cfg, p, e, c);
    }
  }

  lemma SlotsAfter(cfg: Config, p: State, e: Event)
    requires SlotsOk(p) && Enabled(cfg, p, e)
    ensures Slots(Next(cfg, p, e)) ==
            if TakesSlot(p, e) then Slots(p) + {e.c}
            else if GivesBack(p, e) then Slots(p) - {e.c}
            else Slots(p)
    ensures TakesSlot(p, e) ==> e.c !in Slots(p)
    ensures GivesBack(p, e) ==> e.c in Slots(p)
  {
    HeldAfter(cfg, p, e);
    var p' := Next(cfg, p, e);
    forall c | c in p.held || (e.Reserved? && c == e.c) ensures IsThrottled(p', c) <==> IsThrottled(p, c) {
      assert c in p.held ==> Holds(p, c);
      ModeKept(cfg, p, e, c);
    }
    if e.Reserved? {
      assert e.c in p.held <==> Holds(p, e.c);
    }
  }

  /** A call that waits in `reserve` stays there, unless this event takes its slot. */
  lemma StaysInReserve(cfg: Config, p: State, e: Event, c: Call)
    requires p.calls.Keys !! p.records.Keys && Enabled(cfg, p, e) && InReserve(p, c)
    requires !(e.Reserved? && e.c == c) && !(e.Failed? && e.c == c)
    ensures InReserve(Next(cfg, p, e), c)
  {
    ModeKept(cfg, p, e, c);
    if !IsCallStep(e) {
      CallStepFrame(cfg, p, e);
    }
  }

  lemma WakeLinked(s: System)
    requires |s.line| == |s.q.queue| + 1 || (s.line == [] && s.q.queue == [])
    requires forall i, j :: 0 <= i < j < |s.line| ==> s.line[i] != s.line[j]
    requires forall c :: c in s.line ==> c !in s.granted
    requires forall c :: c in s.line || c in s.granted ==> InReserve(s.p, c)
    ensures Linked(Wake(s))
    ensures |Wake(s).granted| == |s.granted| + if s.line == [] then 0 else 1
  {
    if s.line != [] {
      assert s.line[0] in s.line;
      forall c | c in s.line[1..] ensures c in s.line && c != s.line[0] {
        var i :| 0 <= i < |s.line[1..]| && s.line[1..][i] == c;
        assert s.line[i + 1] == c;
      }
    }
  }

  lemma JoinKeeps(s: System, c: Call, id: Id, limit: int)
    requires Queue.InOrder(s.q) && Queue.Accounted(s.q, limit) && Linked(s)
    requires Queue.Running(s.q) == |Slots(s.p)| + |s.granted|
    requires InReserve(s.p, c) && c !in s.line && c !in s.granted
    ensures
      var s' := Join(s, c, id);
      s'.p == s.p && Queue.InOrder(s'.q) && Queue.Accounted(s'.q, limit) && Linked(s') &&
      Queue.Running(s'.q) == |Slots(s'.p)| + |s'.granted|
  {
    Queue.EnqueueInOrder(s.q, id, limit);
  }

  lemma LinkedAcross(cfg: Config, s: System, e: Event)
    requires Linked(s) && Inv(s.p) && CanMove(cfg, s, Step(e)) && !TakesSlot(s.p, e)
    ensures Linked(s.(p := Next(cfg, s.p, e)))
  {
    forall c | c in s.line || c in s.granted ensures InReserve(Next(cfg, s.p, e), c) {
      StaysInReserve(cfg, s.p, e, c);
    }
  }

  lemma AskSound(cfg: Config, s: System, e: Event, limit: int)
    requires Sound(s, limit) && CanMove(cfg, s, Step(e)) && Asks(s.p, e)
    ensures Sound(MoveTo(cfg, s, Step(e)), limit)
  {
    InvPreserved(cfg, s.p, e);
    SlotsAfter(cfg, s.p, e);
    LinkedAcross(cfg, s, e);
    var next := s.(p := Next(cfg, s.p, e));
    assert InReserve(next.p, e.c) && !InReserve(s.p, e.c);
    JoinKeeps(next, e.c, e.id, limit);
  }

  lemma TakeSlotSound(cfg: Config, s: System, e: Event, limit: int)
    requires Sound(s, limit) && CanMove(cfg, s, Step(e)) && TakesSlot(s.p, e)
    ensures Sound(MoveTo(cfg, s, Step(e)), limit)
  {
    InvPreserved(cfg, s.p, e);
    SlotsAfter(cfg, s.p, e);
    var next := MoveTo(cfg, s, Step(e));
    forall c | c in next.line || c in next.granted ensures InReserve(next.p, c) {
      assert c != e.c;
      StaysInReserve(cfg, s.p, e, c);
    }
  }

  lemma GiveBackSound(cfg: Config, s: System, e: Event, limit: int)
    requires Sound(s, limit) && CanMove(cfg, s, Step(e)) && GivesBack(s.p, e)
    ensures Sound(MoveTo(cfg, s, Step(e)), limit)
  {
    InvPreserved(cfg, s.p, e);
    SlotsAfter(cfg, s.p, e);
    LinkedAcross(cfg, s, e);
    assert |Slots(s.p)| >= 1;
    Queue.StepKeeps(s.q, Queue.Dequeued, limit);
    WakeLinked(s.(p := Next(cfg, s.p, e), q := Queue.Dequeue(s.q)));
  }

  lemma CutLine(line: seq<Call>, i: nat)
    requires i < |line| && forall j, k :: 0 <= j < k < |line| ==> line[j] != line[k]
    ensures
      var cut := line[..i] + line[i + 1..];
      (forall j, k :: 0 <= j < k < |cut| ==> cut[j] != cut[k]) && forall c :: c in cut ==> c in line
  {
  }

  lemma RemoveCounts(q: Queue.State, id: Id)
    requires Queue.FirstIndex(q.queue, id) < |q.queue|
    ensures
      var q' := Queue.Remove(q, id);
      |q'.queue| == Max(0, |q.queue| - 2) && Queue.Running(q') == Queue.Running(q) + if |q.queue| >= 2 then 1 else 0
  {
  }

  lemma TakenLinked(s: System, id: Id)
    requires Linked(s) && Queue.FirstIndex(s.q.queue, id) < |s.q.queue|
    ensures Linked(TakeFromLine(s, id))
    ensures |TakeFromLine(s, id).granted| == |s.granted| + if |s.line| >= 2 then 1 else 0
  {
    var i := Queue.FirstIndex(s.q.queue, id);
    CutLine(s.line, i);
    RemoveCounts(s.q, id);
    WakeLinked(s.(q := Queue.Remove(s.q, id), line := s.line[..i] + s.line[i + 1..]));
  }

  lemma TakenSound(s: System, id: Id, limit: int)
    requires Sound(s, limit)
    ensures Sound(TakeFromLine(s, id), limit)
  {
    Queue.StepKeeps(s.q, Queue.Removed(id), limit);
    if Queue.FirstIndex(s.q.queue, id) < |s.q.queue| {
      RemoveCounts(s.q, id);
      TakenLinked(s, id);
    }
  }

  lemma MoveSound(cfg: Config, s: System, m: Move, limit: int)
    requires Sound(s, limit) && CanMove(cfg, s, m)
    ensures Sound(MoveTo(cfg, s, m), limit)
  {
    match m
    case Taken(id) => TakenSound(s, id, limit);
    case Step(e) =>
      if Asks(s.p, e) {
        AskSound(cfg, s, e, limit);
      } else if TakesSlot(s.p, e) {
        TakeSlotSound(cfg, s, e, limit);
      } else if GivesBack(s.p, e) {
        GiveBackSound(cfg, s, e, limit);
      } else {
        InvPreserved(cfg, s.p, e);
        SlotsAfter(cfg, s.p, e);
        LinkedAcross(cfg, s, e);
      }
  }

  lemma {:induction false} RunSound(cfg: Config, s: System, ms: seq<Move>, limit: int)
    requires Sound(s, limit) && Moves(cfg, s, ms)
    ensures Sound(After(cfg, s, ms), limit)
    decreases |ms|
  {
    if ms != [] {
      MoveSound(cfg, s, ms[0], limit);
      RunSound(cfg, MoveTo(cfg, s, ms[0]), ms[1..], limit);
    }
  }

  /** A process that has just started, with an empty queue. */
  predicate AtStart(s: System, limit: nat) {
    Initial(s.p) && s.q == Queue.Fresh(limit) && s.line == [] && s.granted == {}
  }

  /**
   Throughout every run, the limited slots in use never exceed the limit, except by one
   for each waiter that was taken out of the queue.
   */
  lemma SlotsWithinLimit(cfg: Config, s: System, ms: seq<Move>, limit: nat)
    requires AtStart(s, limit) && Moves(cfg, s, ms)
    ensures Sound(After(cfg, s, ms), limit)
    ensures |Slots(After(cfg, s, ms).p)| <= limit + |After(cfg, s, ms).q.removed|
  {
    InitialInv(s.p);
    assert Slots(s.p) == {};
    RunSound(cfg, s, ms, limit);
  }

  // ---------- lost slots add up ----------

  /** Orphaned records that still hold a limited slot. */
  ghost predicate AllLost(p: State, lost: set<Call>) {
    forall c :: c in lost ==> c in Slots(p) && Lifecycle.Orphaned(p, c)
  }

  /** The lost slots are all there are, and they use up the limit. */
  ghost predicate Exhausted(s: System, lost: set<Call>, limit: int) {
    Sound(s, limit) && AllLost(s.p, lost) && Slots(s.p) == lost && s.granted == {} && |lost| >= limit
  }

  lemma SubsetSize<T>(a: set<T>, b: set<T>)
    requires a <= b
    ensures |a| <= |b| && (|a| == |b| ==> a == b)
  {
    assert b == a + (b - a);
  }

  lemma LostUseUpTheLimit(s: System, lost: set<Call>, limit: int)
    requires Sound(s, limit) && s.q.removed == [] && AllLost(s.p, lost) && |lost| >= limit
    ensures Exhausted(s, lost, limit)
  {
    SubsetSize(lost, Slots(s.p));
    assert |s.granted| == 0;
  }

  lemma LostStay(cfg: Config, p: State, e: Event, lost: set<Call>)
    requires Inv(p) && Enabled(cfg, p, e) && AllLost(p, lost) && Slots(p) == lost
    ensures !GivesBack(p, e)
    ensures forall c :: c in lost ==> Lifecycle.Orphaned(Next(cfg, p, e), c)
  {
    forall c | c in lost ensures Lifecycle.Orphaned(Next(cfg, p, e), c) {
      Lifecycle.OrphanStep(cfg, p, e, c);
    }
    assert forall c :: c in lost ==> c in p.records && p.records[c].outcome == Unsettled && c !in p.calls;
  }

  lemma MoveExhausted(cfg: Config, s: System, m: Move, lost: set<Call>, limit: int)
    requires Exhausted(s, lost, limit) && CanMove(cfg, s, m) && m.Step?
    ensures Exhausted(MoveTo(cfg, s, m), lost, limit)
    ensures s.line <= MoveTo(cfg, s, m).line
    ensures Asks(s.p, m.e) ==> MoveTo(cfg, s, m).line == s.line + [m.e.c]
  {
    MoveSound(cfg, s, m, limit);
    LostStay(cfg, s.p, m.e, lost);
    SlotsAfter(cfg, s.p, m.e);
  }

  /**
   Once as many slots are lost as the limit allows, and unless waiters are taken out of
   the queue, nobody who asks for a slot ever gets one: whoever waits goes on waiting,
   whatever else happens.
   */
  lemma {:induction false} EveryLaterAddWaits(cfg: Config, s: System, ms: seq<Move>, lost: set<Call>, limit: int)
    requires Exhausted(s, lost, limit) && Moves(cfg, s, ms) && forall m :: m in ms ==> m.Step?
    ensures
      var end := After(cfg, s, ms);
      Exhausted(end, lost, limit) && s.line <= end.line && forall c :: c in end.line ==> InReserve(end.p, c)
    decreases |ms|
  {
    if ms != [] {
      assert ms[0] in ms;
      MoveExhausted(cfg, s, ms[0], lost, limit);
      EveryLaterAddWaits(cfg, MoveTo(cfg, s, ms[0]), ms[1..], lost, limit);
    }
  }
}
