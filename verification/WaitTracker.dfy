/**
 Timers for waiting executions and the retried resume of a parent
 (packages/cli/src/wait-tracker.ts).
 */
module WaitTracker {
  import opened Basics

  type Id = nat
  type Timer = nat

  /** An armed `setTimeout`: whom it starts, and when. */
  datatype Alarm = Alarm(executionId: Id, due: int)

  /** A row that `executionRepository.getWaitingExecutions()` returns. */
  datatype Row = Row(id: Id, waitTill: int)

  datatype State = State(
    waiting: map<Id, Timer>,
    armed: map<Timer, Alarm>,
    unused: Timer,
    tracking: bool)

  datatype Event =
    | Polled(rows: seq<Row>, now: int)
    | Fired(timer: Timer)
    | Started(id: Id)
    | Stopped(id: Id)
    | TookOver
    | SteppedDown

  // ---------- the steps ----------

  /** A row that is not tracked yet gets a timer; a `waitTill` in the past fires at once. */
  function Track(s: State, row: Row, now: int): State {
    if row.id in s.waiting then s
    else s.(waiting := s.waiting[row.id := s.unused],
            armed := s.armed[s.unused := Alarm(row.id, Max(now, row.waitTill))],
            unused := s.unused + 1)
  }

  function TrackAll(s: State, rows: seq<Row>, now: int): State
    decreases |rows|
  {
    if rows == [] then s else TrackAll(Track(s, rows[0], now), rows[1..], now)
  }

  /** `startExecution` forgets the entry first; it does not clear a timer. */
  function Start(s: State, id: Id): State {
    s.(waiting := s.waiting - {id})
  }

  function Stop(s: State, id: Id): State {
    if id in s.waiting then s.(armed := s.armed - {s.waiting[id]}, waiting := s.waiting - {id}) else s
  }

  /** `stopTracking` clears the timers but keeps the entries. */
  function StepDown(s: State): State {
    if s.tracking then s.(armed := s.armed - s.waiting.Values) else s
  }

  predicate Enabled(s: State, e: Event) {
    e.Fired? ==> e.timer in s.armed
  }

  function Next(s: State, e: Event): State
    requires Enabled(s, e)
  {
    match e
    case Polled(rows, now) => TrackAll(s, rows, now)
    case Fired(timer) => Start(s.(armed := s.armed - {timer}), s.armed[timer].executionId)
    case Started(id) => Start(s, id)
    case Stopped(id) => Stop(s, id)
    case TookOver => s.(tracking := true)
    case SteppedDown => StepDown(s)
  }

  predicate Valid(s: State, es: seq<Event>)
    decreases |es|
  {
    es == [] || (Enabled(s, es[0]) && Valid(Next(s, es[0]), es[1..]))
  }

  function Run(s: State, es: seq<Event>): State
    requires Valid(s, es)
    decreases |es|
  {
    if es == [] then s else Run(Next(s, es[0]), es[1..])
  }

  // ---------- every entry has its timer ----------

  predicate Armed(s: State, id: Id)
    requires id in s.waiting
  {
    s.waiting[id] in s.armed && s.armed[s.waiting[id]].executionId == id
  }

  ghost predicate AllArmed(s: State) {
    (forall id :: id in s.waiting ==> Armed(s, id)) && (forall t :: t in s.armed ==> t < s.unused)
  }

  /** A poll replaces no entry and no timer, and adds exactly the rows that were not tracked. */
  lemma {:induction false} PollOnlyAdds(s: State, rows: seq<Row>, now: int)
    requires AllArmed(s)
    ensures
      var s' := TrackAll(s, rows, now);
      AllArmed(s') && Extends(s, s') &&
      forall id :: id in s'.waiting <==> id in s.waiting || Listed(rows, id)
    decreases |rows|
  {
    if rows != [] {
      var s1 := Track(s, rows[0], now);
      PollOnlyAdds(s1, rows[1..], now);
      forall id ensures Listed(rows, id) <==> id == rows[0].id || Listed(rows[1..], id) {
        ListedSplit(rows, id);
      }
    }
  }

  /** The timer of a newly tracked row fires when the row wants to be resumed. */
  lemma {:induction false} PollSetsDueTimes(s: State, rows: seq<Row>, now: int, id: Id)
    requires AllArmed(s) && id !in s.waiting && Listed(rows, id)
    ensures
      var s' := TrackAll(s, rows, now);
      id in s'.waiting && Armed(s', id) && DueAsListed(s', rows, now, id)
    decreases |rows|
  {
    var s1 := Track(s, rows[0], now);
    PollOnlyAdds(s, rows, now);
    PollOnlyAdds(s1, rows[1..], now);
    assert rows == [rows[0]] + rows[1..];
    if id == rows[0].id {
      assert rows[0] in rows;
    } else {
      ListedSplit(rows, id);
      PollSetsDueTimes(s1, rows[1..], now, id);
    }
  }

  lemma PollIsDue(s: State, rows: seq<Row>, now: int)
    requires AllArmed(s)
    ensures
      var s' := TrackAll(s, rows, now);
      AllArmed(s') && Extends(s, s') &&
      (forall id :: id in s'.waiting <==> id in s.waiting || Listed(rows, id)) &&
      forall id :: id in s'.waiting && id !in s.waiting ==> DueAsListed(s', rows, now, id)
  {
    PollOnlyAdds(s, rows, now);
    forall id | id in TrackAll(s, rows, now).waiting && id !in s.waiting
      ensures DueAsListed(TrackAll(s, rows, now), rows, now, id)
    {
      PollSetsDueTimes(s, rows, now, id);
    }
  }

  ghost predicate Listed(rows: seq<Row>, id: Id) {
    exists row :: row in rows && row.id == id
  }

  lemma ListedSplit(rows: seq<Row>, id: Id)
    requires rows != []
    ensures Listed(rows, id) <==> id == rows[0].id || Listed(rows[1..], id)
  {
    assert rows[0] in rows;
    assert forall row :: row in rows <==> row == rows[0] || row in rows[1..];
  }

  ghost predicate DueAsListed(s: State, rows: seq<Row>, now: int, id: Id)
    requires id in s.waiting && s.waiting[id] in s.armed
  {
    exists row :: row in rows && row.id == id && s.armed[s.waiting[id]].due == Max(now, row.waitTill)
  }

  /** Nothing that was tracked or armed is replaced. */
  ghost predicate Extends(s: State, s': State) {
    (forall id :: id in s.waiting ==> id in s'.waiting && s'.waiting[id] == s.waiting[id]) &&
    (forall t :: t in s.armed ==> t in s'.armed && s'.armed[t] == s.armed[t])
  }

  lemma ArmedStep(s: State, e: Event)
    requires AllArmed(s) && Enabled(s, e) && !e.SteppedDown?
    ensures AllArmed(Next(s, e))
  {
    if e.Polled? {
      PollOnlyAdds(s, e.rows, e.now);
    }
  }

  /**
   Until the first stepdown, polls, firing timers, stops and direct starts in any order
   leave every tracked execution with an armed timer of its own.
   */
  lemma {:induction false} EntriesStayArmed(s: State, es: seq<Event>)
    requires AllArmed(s) && Valid(s, es) && forall e :: e in es ==> !e.SteppedDown?
    ensures AllArmed(Run(s, es))
    decreases |es|
  {
    if es != [] {
      assert es[0] in es;
      ArmedStep(s, es[0]);
      EntriesStayArmed(Next(s, es[0]), es[1..]);
    }
  }

  /** A stepdown keeps the entries armed exactly when there is nothing to disarm. */
  lemma StepDownDisarms(s: State)
    requires AllArmed(s)
    ensures AllArmed(StepDown(s)) <==> !s.tracking || s.waiting == map[]
    ensures s.tracking ==> forall id :: id in s.waiting ==> id in StepDown(s).waiting && !Armed(StepDown(s), id)
  {
    if id :| id in s.waiting {
      assert s.waiting[id] in s.waiting.Values;
    }
  }

  /** Whether an event starts or stops the execution. */
  predicate Touches(s: State, e: Event, id: Id)
    requires Enabled(s, e)
  {
    match e
    case Fired(t) => s.armed[t].executionId == id
    case Started(i) => i == id
    case Stopped(i) => i == id
    case _ => false
  }

  predicate Untouched(s: State, es: seq<Event>, id: Id)
    requires Valid(s, es)
    decreases |es|
  {
    es == [] || (!Touches(s, es[0], id) && Untouched(Next(s, es[0]), es[1..], id))
  }

  predicate Stranded(s: State, id: Id) {
    id in s.waiting && s.waiting[id] !in s.armed && s.waiting[id] < s.unused
  }

  lemma {:induction false} TrackAllKeepsStranded(s: State, rows: seq<Row>, now: int, id: Id)
    requires Stranded(s, id)
    ensures Stranded(TrackAll(s, rows, now), id)
    decreases |rows|
  {
    if rows != [] {
      TrackAllKeepsStranded(Track(s, rows[0], now), rows[1..], now, id);
    }
  }

  /**
   What a stepdown has disarmed, no later poll arms again, whoever leads: the entry is
   still there and every poll passes over it.
   */
  lemma {:induction false} StrandedUntilTouched(s: State, es: seq<Event>, id: Id)
    requires Stranded(s, id) && Valid(s, es) && Untouched(s, es, id)
    ensures Stranded(Run(s, es), id)
    decreases |es|
  {
    if es != [] {
      if es[0].Polled? {
        TrackAllKeepsStranded(s, es[0].rows, es[0].now, id);
      }
      StrandedUntilTouched(Next(s, es[0]), es[1..], id);
    }
  }

  // ---------- withRetry ----------

  /** What the n-th run of the operation does. */
  datatype Attempt = Success | Failure(error: nat, retryable: bool)

  predicate IsLast(attempts: nat -> Attempt, maxAttempts: int, k: nat) {
    k >= maxAttempts || attempts(k) == Success || !attempts(k).retryable
  }

  /**
   Runs the operation until it succeeds, fails for good or has used up its attempts.
   `slept` is the total of the pauses in milliseconds.
   */
  method WithRetry(attempts: nat -> Attempt, maxAttempts: int) returns (last: Attempt, k: nat, slept: nat)
    ensures 1 <= k && IsLast(attempts, maxAttempts, k)
    ensures forall i :: 1 <= i < k ==> !IsLast(attempts, maxAttempts, i)
    ensures last == attempts(k)
    ensures slept == 100 * (Pow2(k - 1) - 1)
  {
    k, slept := 1, 0;
    last := attempts(1);
    while last != Success && k < maxAttempts && last.retryable
      invariant 1 <= k && last == attempts(k)
      invariant forall i :: 1 <= i < k ==> !IsLast(attempts, maxAttempts, i)
      invariant slept == 100 * (Pow2(k - 1) - 1)
      decreases maxAttempts - k
    {
      slept := slept + 100 * Pow2(k - 1);
      k := k + 1;
      last := attempts(k);
    }
  }

  // ---------- resumeParentExecution ----------

  const MAX_PARENT_RESUME_ATTEMPTS := 3

  /** How the child's promise settled. */
  datatype ChildResult = ChildCancelled | NoData | StillWaiting | Completed

  predicate FirstSuccess(attempts: nat -> Attempt, k: nat) {
    1 <= k && attempts(k) == Success && forall i :: 1 <= i < k ==> attempts(i) != Success && attempts(i).retryable
  }

  ghost predicate SucceedsInTime(attempts: nat -> Attempt) {
    exists k: nat :: k <= MAX_PARENT_RESUME_ATTEMPTS && FirstSuccess(attempts, k)
  }

  lemma LastIsSuccess(attempts: nat -> Attempt, k: nat)
    requires 1 <= k && IsLast(attempts, MAX_PARENT_RESUME_ATTEMPTS, k)
    requires forall i :: 1 <= i < k ==> !IsLast(attempts, MAX_PARENT_RESUME_ATTEMPTS, i)
    ensures k <= MAX_PARENT_RESUME_ATTEMPTS
    ensures attempts(k) == Success <==> SucceedsInTime(attempts)
  {
    if k > MAX_PARENT_RESUME_ATTEMPTS {
      assert IsLast(attempts, MAX_PARENT_RESUME_ATTEMPTS, k - 1);
    }
    forall i | 1 <= i < k ensures attempts(i) != Success && attempts(i).retryable {
      assert !IsLast(attempts, MAX_PARENT_RESUME_ATTEMPTS, i);
    }
    if attempts(k) == Success {
      assert FirstSuccess(attempts, k);
    }
    if j: nat :| j <= MAX_PARENT_RESUME_ATTEMPTS && FirstSuccess(attempts, j) {
      assert k <= j;
    }
  }

  /**
   The parent is patched and then started, each step retried on its own.  Every failure
   is logged and none is passed on.
   */
  method ResumeParentExecution(child: ChildResult, update: nat -> Attempt, start: nat -> Attempt)
    returns (updates: nat, starts: nat, resumed: bool, logged: bool)
    ensures updates <= 3 && starts <= 3
    ensures updates > 0 <==> child == Completed
    ensures starts > 0 <==> child == Completed && SucceedsInTime(update)
    ensures resumed <==> child == Completed && SucceedsInTime(update) && SucceedsInTime(start)
    ensures logged <==> child == ChildCancelled || (child == Completed && !resumed)
  {
    updates, starts, resumed, logged := 0, 0, false, false;
    if child == ChildCancelled {
      logged := true;
      return;
    }
    if child == NoData || child == StillWaiting {
      return;
    }
    var last, slept;
    last, updates, slept := WithRetry(update, MAX_PARENT_RESUME_ATTEMPTS);
    LastIsSuccess(update, updates);
    if last != Success {
      logged := true;
      return;
    }
    last, starts, slept := WithRetry(start, MAX_PARENT_RESUME_ATTEMPTS);
    LastIsSuccess(start, starts);
    resumed := last == Success;
    logged := !resumed;
  }

  // ---------- the service ----------

  class WaitTrackerService {
    var waitingExecutions: map<Id, Timer>
    var armed: map<Timer, Alarm>
    var unused: Timer
    var mainTimer: bool

    ghost function Abs(): State
      reads this
    {
      State(waitingExecutions, armed, unused, mainTimer)
    }

    constructor ()
      ensures Abs() == State(map[], map[], 0, false) && AllArmed(Abs())
    {
      waitingExecutions, armed, unused, mainTimer := map[], map[], 0, false;
    }

    method GetWaitingExecutions(rows: seq<Row>, now: int)
      modifies this`waitingExecutions, this`armed, this`unused
      ensures Abs() == Next(old(Abs()), Polled(rows, now))
      ensures AllArmed(old(Abs())) ==>
        AllArmed(Abs()) && Extends(old(Abs()), Abs()) &&
        (forall id :: id in waitingExecutions <==> id in old(waitingExecutions) || Listed(rows, id)) &&
        forall id :: id in waitingExecutions && id !in old(waitingExecutions) ==> DueAsListed(Abs(), rows, now, id)
    {
      if AllArmed(Abs()) {
        PollIsDue(Abs(), rows, now);
      }
      var i := 0;
      while i < |rows|
        invariant 0 <= i <= |rows|
        invariant TrackAll(Abs(), rows[i..], now) == TrackAll(old(Abs()), rows, now)
      {
        assert rows[i..][1..] == rows[i + 1..];
        var executionId := rows[i].id;
        if executionId !in waitingExecutions {
          var triggerTime := rows[i].waitTill - now;
          waitingExecutions := waitingExecutions[executionId := unused];
          armed := armed[unused := Alarm(executionId, now + Max(triggerTime, 0))];
          unused := unused + 1;
        }
        i := i + 1;
      }
    }

    method StopExecution(executionId: Id)
      modifies this`waitingExecutions, this`armed
      ensures Abs() == Next(old(Abs()), Stopped(executionId))
      ensures waitingExecutions == old(waitingExecutions) - {executionId}
      ensures
        armed ==
        if executionId in old(waitingExecutions) then old(armed) - {old(waitingExecutions)[executionId]} else old(armed)
    {
      if executionId !in waitingExecutions {
        return;
      }
      armed := armed - {waitingExecutions[executionId]};
      waitingExecutions := waitingExecutions - {executionId};
    }

    /** A timer goes off: up to its first await, `startExecution` forgets the entry. */
    method Fire(timer: Timer) returns (started: Id)
      requires timer in armed
      modifies this`waitingExecutions, this`armed
      ensures Abs() == Next(old(Abs()), Fired(timer)) && started == old(armed)[timer].executionId
      ensures armed == old(armed) - {timer} && waitingExecutions == old(waitingExecutions) - {started}
    {
      started := armed[timer].executionId;
      armed := armed - {timer};
      waitingExecutions := waitingExecutions - {started};
    }

    /** Up to its first await; a direct start leaves the timer of the entry armed. */
    method StartExecution(executionId: Id)
      modifies this`waitingExecutions
      ensures Abs() == Next(old(Abs()), Started(executionId))
      ensures waitingExecutions == old(waitingExecutions) - {executionId}
    {
      waitingExecutions := waitingExecutions - {executionId};
    }

    method StopTracking()
      modifies this`armed
      ensures Abs() == Next(old(Abs()), SteppedDown)
      ensures forall t :: t in armed <==>
                t in old(armed) && (mainTimer ==> forall id :: id in waitingExecutions ==> waitingExecutions[id] != t)
    {
      if !mainTimer {
        return;
      }
      var keys := waitingExecutions.Keys;
      while keys != {}
        invariant keys <= waitingExecutions.Keys
        invariant forall t :: t in armed <==>
                    t in old(armed) && forall id :: id in waitingExecutions.Keys - keys ==> waitingExecutions[id] != t
        invariant forall t :: t in armed ==> armed[t] == old(armed)[t]
      {
        var executionId :| executionId in keys;
        armed := armed - {waitingExecutions[executionId]};
        keys := keys - {executionId};
      }
      assert armed == old(armed) - waitingExecutions.Values;
    }
  }
}
