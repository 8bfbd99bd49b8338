/**
 Retrying workflow activations with back-off
 (packages/cli/src/active-workflow-manager.ts).  A retry awaits `add`, so its start
 (`Fired`) and its end (`Failed`, `Succeeded`) are separate steps, and anything may
 happen in between.
 */
module ActivationQueue {
  import opened Basics

  type WorkflowId = string
  type Timer = nat

  const INITIAL_TIMEOUT := 1000
  const MAX_TIMEOUT := 24 * 60 * 60 * 1000

  /** An armed `setTimeout`: whose retry it runs, and after how many milliseconds. */
  datatype Alarm = Alarm(workflowId: WorkflowId, delay: nat)

  /** `QueuedActivation` */
  datatype Entry = Entry(lastTimeout: nat, timer: Timer)

  /** `retrying` holds the retries that are awaiting `add`, by the timer that ran them. */
  datatype State = State(
    queued: map<WorkflowId, Entry>,
    armed: map<Timer, Alarm>,
    retrying: map<Timer, WorkflowId>,
    unused: Timer)

  datatype Event =
    | Added(id: WorkflowId)
    | Removed(id: WorkflowId)
    | RemovedAll
    | Fired(timer: Timer)
    | Failed(timer: Timer, isolate: bool)
    | Succeeded(timer: Timer, activated: bool)

  const EMPTY := State(map[], map[], map[], 0)

  // ---------- the steps ----------

  /** `removeQueuedWorkflowActivation` */
  function Remove(s: State, id: WorkflowId): State {
    if id in s.queued then s.(armed := s.armed - {s.queued[id].timer}, queued := s.queued - {id}) else s
  }

  function Arm(s: State, id: WorkflowId, delay: nat): State {
    s.(queued := s.queued[id := Entry(delay, s.unused)],
       armed := s.armed[s.unused := Alarm(id, delay)],
       unused := s.unused + 1)
  }

  /** `addQueuedWorkflowActivation` */
  function Add(s: State, id: WorkflowId): State {
    Arm(Remove(s, id), id, INITIAL_TIMEOUT)
  }

  function Timers(s: State): set<Timer> {
    set id | id in s.queued :: s.queued[id].timer
  }

  /** `removeAllQueuedWorkflowActivations` */
  function RemoveAll(s: State): State {
    s.(armed := s.armed - Timers(s), queued := map[])
  }

  function Backoff(last: nat, isolate: bool): nat {
    if !isolate && last < MAX_TIMEOUT then Min(last * 2, MAX_TIMEOUT) else last
  }

  /** A failed retry arms the next one, unless the workflow has left the queue. */
  function Fail(s: State, timer: Timer, isolate: bool): State
    requires timer in s.retrying
  {
    var id := s.retrying[timer];
    var done := s.(retrying := s.retrying - {timer});
    if id in s.queued then Arm(done, id, Backoff(s.queued[id].lastTimeout, isolate)) else done
  }

  predicate Enabled(s: State, e: Event) {
    match e
    case Fired(timer) => timer in s.armed
    case Failed(timer, _) => timer in s.retrying
    case Succeeded(timer, _) => timer in s.retrying
    case _ => true
  }

  /** `add` takes the workflow out of the queue, unless it finds nothing to activate. */
  function Next(s: State, e: Event): State
    requires Enabled(s, e)
  {
    match e
    case Added(id) => Add(s, id)
    case Removed(id) => Remove(s, id)
    case RemovedAll => RemoveAll(s)
    case Fired(timer) =>
      s.(armed := s.armed - {timer}, retrying := s.retrying[timer := s.armed[timer].workflowId])
    case Failed(timer, isolate) => Fail(s, timer, isolate)
    case Succeeded(timer, activated) =>
      var done := s.(retrying := s.retrying - {timer});
      if activated then Remove(done, s.retrying[timer]) else done
  }

  predicate Valid(s: State, es: seq<Event>)
    decreases |es|
  {
    es == [] || (Enabled(s, es[0]) && Valid(Next(s, es[0]), es[1..]))
  }

  function Run(s: State, es: seq<Event>): State
    requires Valid(s, es)
    decreases |es|
  {
    if es == [] then s else Run(Next(s, es[0]), es[1..])
  }

  // ---------- the delay ----------

  /** The delay after `m` failures that count. */
  function Delay(m: nat): nat {
    Min(INITIAL_TIMEOUT * Pow2(m), MAX_TIMEOUT)
  }

  lemma BackoffIsDelay(m: nat)
    ensures Backoff(Delay(m), false) == Delay(m + 1)
    ensures Backoff(Delay(m), true) == Delay(m)
  {
    assert Pow2(m + 1) == 2 * Pow2(m);
  }

  lemma PowSixteen()
    ensures Pow2(16) == 65536 && Pow2(17) == 131072
  {
    assert Pow2(4) == 16;
    assert Pow2(8) == 256;
    assert Pow2(12) == 4096;
    assert Pow2(16) == 65536;
  }

  /** Delays never shrink, never exceed a day, and are a day from the 17th failure on. */
  lemma DelayGrowsToTheCap(m: nat, n: nat)
    requires m <= n
    ensures Delay(0) == 1000 && Delay(m) <= Delay(n) <= 86_400_000
    ensures Delay(m) == 86_400_000 <==> m >= 17
  {
    PowGrows(m, n);
    PowSixteen();
    if m >= 17 {
      PowGrows(17, m);
    } else {
      PowGrows(m, 16);
    }
  }

  /** The workflow stays queued, and its delay is not reset. */
  predicate KeepsEntry(s: State, e: Event, id: WorkflowId)
    requires Enabled(s, e)
  {
    match e
    case Added(i) => i != id
    case Removed(i) => i != id
    case RemovedAll => false
    case Succeeded(timer, activated) => !activated || s.retrying[timer] != id
    case _ => true
  }

  predicate AllKeepEntry(s: State, es: seq<Event>, id: WorkflowId)
    requires Valid(s, es)
    decreases |es|
  {
    es == [] || (KeepsEntry(s, es[0], id) && AllKeepEntry(Next(s, es[0]), es[1..], id))
  }

  predicate Counts(s: State, e: Event, id: WorkflowId)
    requires Enabled(s, e)
  {
    e.Failed? && s.retrying[e.timer] == id && !e.isolate
  }

  function Failures(s: State, es: seq<Event>, id: WorkflowId): nat
    requires Valid(s, es)
    decreases |es|
  {
    if es == [] then 0
    else (if Counts(s, es[0], id) then 1 else 0) + Failures(Next(s, es[0]), es[1..], id)
  }

  lemma DelayStep(s: State, e: Event, id: WorkflowId, m: nat)
    requires Enabled(s, e) && KeepsEntry(s, e, id)
    requires id in s.queued && s.queued[id].lastTimeout == Delay(m)
    ensures id in Next(s, e).queued
    ensures Next(s, e).queued[id].lastTimeout == Delay(if Counts(s, e, id) then m + 1 else m)
  {
    BackoffIsDelay(m);
  }

  /** Whatever else happens, the delay of a queued workflow depends on its failures alone. */
  lemma {:induction false} DelayAfterFailures(s: State, es: seq<Event>, id: WorkflowId, m: nat)
    requires Valid(s, es) && AllKeepEntry(s, es, id)
    requires id in s.queued && s.queued[id].lastTimeout == Delay(m)
    ensures id in Run(s, es).queued
    ensures Run(s, es).queued[id].lastTimeout == Delay(m + Failures(s, es, id))
    decreases |es|
  {
    if es != [] {
      DelayStep(s, es[0], id, m);
      DelayAfterFailures(Next(s, es[0]), es[1..], id, if Counts(s, es[0], id) then m + 1 else m);
    }
  }

  /** From the moment it is queued, with `m` failures that count: min(1000·2^m, a day). */
  lemma DelaySinceAdded(s: State, id: WorkflowId, es: seq<Event>)
    requires Valid(Add(s, id), es) && AllKeepEntry(Add(s, id), es, id)
    ensures
      var (end, m) := (Run(Add(s, id), es), Failures(Add(s, id), es, id));
      id in end.queued &&
      end.queued[id].lastTimeout == if 1000 * Pow2(m) < 86_400_000 then 1000 * Pow2(m) else 86_400_000
  {
    assert Delay(0) == 1000;
    DelayAfterFailures(Add(s, id), es, id, 0);
  }

  // ---------- the timers ----------

  /** Timers are used once, and an entry whose timer is armed waits for its own retry. */
  ghost predicate Sound(s: State) {
    (forall t :: t in s.armed ==> t < s.unused && t !in s.retrying) &&
    (forall t :: t in s.retrying ==> t < s.unused) &&
    (forall id :: id in s.queued ==> EntrySound(s, s.queued[id], id))
  }

  predicate EntrySound(s: State, entry: Entry, id: WorkflowId) {
    entry.timer < s.unused &&
    (entry.timer in s.armed ==> s.armed[entry.timer] == Alarm(id, entry.lastTimeout)) &&
    (entry.timer in s.retrying ==> s.retrying[entry.timer] == id)
  }

  lemma StepSound(s: State, e: Event)
    requires Sound(s) && Enabled(s, e)
    ensures Sound(Next(s, e))
  {
  }

  /** The timer belongs to an armed or running retry of the workflow. */
  predicate Tries(s: State, t: Timer, id: WorkflowId) {
    (t in s.armed && s.armed[t].workflowId == id) || (t in s.retrying && s.retrying[t] == id)
  }

  predicate Owned(s: State, t: Timer)
    requires t in s.armed
  {
    var id := s.armed[t].workflowId;
    id in s.queued && s.queued[id].timer == t
  }

  /** At most one retry, armed or running, and an armed one can be cleared. */
  ghost predicate Single(s: State, id: WorkflowId) {
    (forall t, u :: Tries(s, t, id) && Tries(s, u, id) ==> t == u) &&
    (forall t :: t in s.armed && s.armed[t].workflowId == id ==> Owned(s, t))
  }

  ghost predicate Retrying(s: State, id: WorkflowId) {
    exists t :: t in s.retrying && s.retrying[t] == id
  }

  /** Queueing a workflow while a retry of it is running. */
  ghost predicate Overlaps(s: State, e: Event, id: WorkflowId) {
    e == Added(id) && Retrying(s, id)
  }

  lemma OverlapDoubles(s: State, id: WorkflowId)
    requires Sound(s) && Retrying(s, id)
    ensures !Single(Add(s, id), id)
  {
    var t :| t in s.retrying && s.retrying[t] == id;
    var s' := Add(s, id);
    assert Tries(s', t, id) && Tries(s', s.unused, id);
  }

  lemma StepSingleAdd(s: State, added: WorkflowId, id: WorkflowId)
    requires Sound(s) && Single(s, id) && !Overlaps(s, Added(added), id)
    ensures Single(Add(s, added), id)
  {
    var s' := Add(s, added);
    forall t, u | Tries(s', t, id) && Tries(s', u, id) ensures t == u {
      assert t != s.unused ==> Tries(s, t, id);
      assert u != s.unused ==> Tries(s, u, id);
    }
    forall t | t in s'.armed && s'.armed[t].workflowId == id ensures Owned(s', t) {
      assert t != s.unused ==> Tries(s, t, id) && Owned(s, t);
    }
  }

  lemma StepSingleFail(s: State, timer: Timer, isolate: bool, id: WorkflowId)
    requires Sound(s) && Single(s, id) && timer in s.retrying
    ensures Single(Fail(s, timer, isolate), id)
  {
    var s' := Fail(s, timer, isolate);
    assert Tries(s, timer, s.retrying[timer]);
    forall t, u | Tries(s', t, id) && Tries(s', u, id) ensures t == u {
      assert t != s.unused ==> Tries(s, t, id);
      assert u != s.unused ==> Tries(s, u, id);
    }
    forall t | t in s'.armed && s'.armed[t].workflowId == id ensures Owned(s', t) {
      assert t != s.unused ==> Tries(s, t, id) && Owned(s, t);
    }
  }

  lemma StepSingleRest(s: State, e: Event, id: WorkflowId)
    requires Sound(s) && Single(s, id) && Enabled(s, e) && !e.Added? && !e.Failed?
    ensures Single(Next(s, e), id)
  {
    var s' := Next(s, e);
    forall t, u | Tries(s', t, id) && Tries(s', u, id) ensures t == u {
      assert Tries(s, t, id) && Tries(s, u, id);
    }
    forall t | t in s'.armed && s'.armed[t].workflowId == id ensures Owned(s', t) {
      assert Owned(s, t);
    }
  }

  /** One step gives a workflow a second retry exactly when it is queued while a retry runs. */
  lemma StepSingleIff(s: State, e: Event, id: WorkflowId)
    requires Sound(s) && Single(s, id) && Enabled(s, e)
    ensures Single(Next(s, e), id) <==> !Overlaps(s, e, id)
  {
    if Overlaps(s, e, id) {
      OverlapDoubles(s, id);
    } else if e.Added? {
      StepSingleAdd(s, e.id, id);
    } else if e.Failed? {
      StepSingleFail(s, e.timer, e.isolate, id);
    } else {
      StepSingleRest(s, e, id);
    }
  }

  ghost predicate AlwaysSingle(s: State, es: seq<Event>, id: WorkflowId)
    requires Valid(s, es)
    decreases |es|
  {
    Single(s, id) && (es == [] || AlwaysSingle(Next(s, es[0]), es[1..], id))
  }

  ghost predicate NeverOverlaps(s: State, es: seq<Event>, id: WorkflowId)
    requires Valid(s, es)
    decreases |es|
  {
    es == [] || (!Overlaps(s, es[0], id) && NeverOverlaps(Next(s, es[0]), es[1..], id))
  }

  /**
   Throughout a run a workflow has at most one retry, armed or running, if and only if
   it is never queued again while a retry of it is running.
   */
  lemma {:induction false} OneRetryIff(s: State, es: seq<Event>, id: WorkflowId)
    requires Sound(s) && Single(s, id) && Valid(s, es)
    ensures AlwaysSingle(s, es, id) <==> NeverOverlaps(s, es, id)
    decreases |es|
  {
    if es != [] {
      var next := Next(s, es[0]);
      StepSound(s, es[0]);
      StepSingleIff(s, es[0], id);
      if Single(next, id) {
        OneRetryIff(next, es[1..], id);
      } else {
        assert !AlwaysSingle(next, es[1..], id);
      }
    }
  }

  /** No retry is left between its start and its end. */
  predicate Atomic(s: State, es: seq<Event>)
    requires Valid(s, es)
    decreases |es|
  {
    if es == [] then true
    else (s.retrying != map[] ==> es[0].Failed? || es[0].Succeeded?) && Atomic(Next(s, es[0]), es[1..])
  }

  lemma {:induction false} AtomicNeverOverlaps(s: State, es: seq<Event>, id: WorkflowId)
    requires Valid(s, es) && Atomic(s, es)
    ensures NeverOverlaps(s, es, id)
    decreases |es|
  {
    if es != [] {
      AtomicNeverOverlaps(Next(s, es[0]), es[1..], id);
    }
  }

  /** With each retry as one step a workflow never has two armed timers. */
  lemma AtomicRetriesHaveOneTimer(es: seq<Event>, id: WorkflowId)
    requires Valid(EMPTY, es) && Atomic(EMPTY, es)
    ensures AlwaysSingle(EMPTY, es, id)
  {
    AtomicNeverOverlaps(EMPTY, es, id);
    OneRetryIff(EMPTY, es, id);
  }

  // ---------- leaving the queue ----------

  /** Taking a workflow out stops its retries exactly when no second timer was armed for it. */
  lemma RemoveDisarmsIff(s: State, id: WorkflowId)
    requires Sound(s)
    ensures (forall t :: t in Remove(s, id).armed ==> s.armed[t].workflowId != id)
       <==> forall t :: t in s.armed && s.armed[t].workflowId == id ==> Owned(s, t)
  {
    if t :| t in s.armed && s.armed[t].workflowId == id && !Owned(s, t) {
      assert t in Remove(s, id).armed;
    }
  }

  /** Emptying the queue disarms everything exactly when every armed timer belongs to an entry. */
  lemma RemoveAllDisarmsIff(s: State)
    requires Sound(s)
    ensures RemoveAll(s).armed == map[] <==> forall t :: t in s.armed ==> Owned(s, t)
  {
    if t :| t in s.armed && !Owned(s, t) {
      forall id | id in s.queued ensures s.queued[id].timer != t {
        assert EntrySound(s, s.queued[id], id);
      }
      assert t in RemoveAll(s).armed;
    } else {
      forall t | t in s.armed ensures t in Timers(s) {
        assert s.queued[s.armed[t].workflowId].timer == t;
      }
    }
  }

  /** With an empty queue and no timer nothing starts again, whatever running retries do. */
  lemma {:induction false} QuietStaysQuiet(s: State, es: seq<Event>)
    requires s.queued == map[] && s.armed == map[]
    requires Valid(s, es) && forall e :: e in es ==> !e.Added?
    ensures Run(s, es).queued == map[] && Run(s, es).armed == map[]
    decreases |es|
  {
    if es != [] {
      assert es[0] in es;
      QuietStaysQuiet(Next(s, es[0]), es[1..]);
    }
  }

  lemma RemoveOneOfAll(s: State, id: WorkflowId)
    requires id in s.queued
    ensures RemoveAll(Remove(s, id)) == RemoveAll(s)
  {
    var rest := Remove(s, id);
    forall t | t in Timers(s) ensures t in Timers(rest) + {s.queued[id].timer} {
      var k :| k in s.queued && s.queued[k].timer == t;
      assert k == id || k in rest.queued;
    }
    assert Timers(s) == Timers(rest) + {s.queued[id].timer};
    assert s.armed - Timers(s) == s.armed - {s.queued[id].timer} - Timers(rest);
  }

  lemma RemoveAllMeans(s: State)
    ensures RemoveAll(s).queued == map[]
    ensures forall t :: t in RemoveAll(s).armed <==>
              t in s.armed && forall id :: id in s.queued ==> s.queued[id].timer != t
  {
    forall t ensures t in Timers(s) <==> exists id :: id in s.queued && s.queued[id].timer == t {
    }
  }

  lemma NothingToRemove(s: State)
    requires s.queued == map[]
    ensures RemoveAll(s) == s
  {
    assert Timers(s) == {};
    assert s.armed - {} == s.armed;
  }

  // ---------- the class ----------

  class ActiveWorkflowManager {
    var queuedActivations: map<WorkflowId, Entry>
    var armed: map<Timer, Alarm>
    var retrying: map<Timer, WorkflowId>
    var unused: Timer

    ghost function Now(): State
      reads this
    {
      State(queuedActivations, armed, retrying, unused)
    }

    constructor ()
      ensures Now() == EMPTY
    {
      queuedActivations, armed, retrying, unused := map[], map[], map[], 0;
    }

    method SetTimeout(id: WorkflowId, delay: nat) returns (timer: Timer)
      modifies `armed, `unused
      ensures timer == old(unused) && unused == old(unused) + 1
      ensures armed == old(armed)[timer := Alarm(id, delay)]
    {
      timer := unused;
      unused := unused + 1;
      armed := armed[timer := Alarm(id, delay)];
    }

    method AddQueuedWorkflowActivation(id: WorkflowId)
      modifies this
      ensures Now() == Add(old(Now()), id)
      ensures
        var (timer, before) := (old(unused), old(queuedActivations));
        var rest := if id in before then old(armed) - {before[id].timer} else old(armed);
        queuedActivations == before[id := Entry(1000, timer)] && armed == rest[timer := Alarm(id, 1000)] &&
        unused == timer + 1 && retrying == old(retrying)
    {
      RemoveQueuedWorkflowActivation(id);
      var timer := SetTimeout(id, INITIAL_TIMEOUT);
      queuedActivations := queuedActivations[id := Entry(INITIAL_TIMEOUT, timer)];
    }

    /** The timer runs the retry closure, which awaits the activation. */
    method StartRetry(timer: Timer)
      requires timer in armed
      modifies this
      ensures Now() == Next(old(Now()), Fired(timer))
      ensures armed == old(armed) - {timer} && retrying == old(retrying)[timer := old(armed)[timer].workflowId]
      ensures queuedActivations == old(queuedActivations)
    {
      retrying := retrying[timer := armed[timer].workflowId];
      armed := armed - {timer};
    }

    /** The `catch` of the retry closure. */
    method RetryFailed(timer: Timer, isolate: bool)
      requires timer in retrying
      modifies this
      ensures Now() == Fail(old(Now()), timer, isolate)
      ensures retrying == old(retrying) - {timer}
      ensures
        var (id, next, before) := (old(retrying)[timer], old(unused), old(queuedActivations));
        if id in before then
          var last := before[id].lastTimeout;
          var delay := if isolate || last >= 86_400_000 then last
                       else if 2 * last <= 86_400_000 then 2 * last else 86_400_000;
          queuedActivations == before[id := Entry(delay, next)] && armed == old(armed)[next := Alarm(id, delay)]
        else queuedActivations == before && armed == old(armed)
    {
      var id := retrying[timer];
      retrying := retrying - {timer};
      if id !in queuedActivations {
        return;
      }
      var lastTimeout := queuedActivations[id].lastTimeout;
      if !isolate && lastTimeout < MAX_TIMEOUT {
        lastTimeout := Min(lastTimeout * 2, MAX_TIMEOUT);
      }
      queuedActivations := queuedActivations[id := queuedActivations[id].(lastTimeout := lastTimeout)];
      var next := SetTimeout(id, lastTimeout);
      queuedActivations := queuedActivations[id := queuedActivations[id].(timer := next)];
    }

    /** The activation went through, or there was nothing to activate. */
    method RetrySucceeded(timer: Timer, activated: bool)
      requires timer in retrying
      modifies this
      ensures Now() == Next(old(Now()), Succeeded(timer, activated))
      ensures retrying == old(retrying) - {timer}
      ensures activated ==> old(retrying)[timer] !in queuedActivations
      ensures !activated ==> queuedActivations == old(queuedActivations) && armed == old(armed)
    {
      var id := retrying[timer];
      retrying := retrying - {timer};
      if activated {
        RemoveQueuedWorkflowActivation(id);
      }
    }

    method RemoveQueuedWorkflowActivation(id: WorkflowId)
      modifies `queuedActivations, `armed
      ensures Now() == Remove(old(Now()), id)
      ensures queuedActivations == old(queuedActivations) - {id}
      ensures
        armed == if id in old(queuedActivations) then old(armed) - {old(queuedActivations)[id].timer} else old(armed)
    {
      if id in queuedActivations {
        armed := armed - {queuedActivations[id].timer};
        queuedActivations := queuedActivations - {id};
      }
    }

    method RemoveAllQueuedWorkflowActivations()
      modifies `queuedActivations, `armed
      ensures Now() == RemoveAll(old(Now()))
      ensures queuedActivations == map[]
      ensures forall t :: t in armed <==>
                t in old(armed) &&
                forall id :: id in old(queuedActivations) ==> old(queuedActivations)[id].timer != t
    {
      ghost var before := Now();
      RemoveAllMeans(before);
      while queuedActivations.Keys != {}
        invariant RemoveAll(Now()) == RemoveAll(before)
        decreases |queuedActivations.Keys|
      {
        var id :| id in queuedActivations.Keys;
        RemoveOneOfAll(Now(), id);
        RemoveQueuedWorkflowActivation(id);
      }
      NothingToRemove(Now());
    }
  }
}
