/**
 Execution timeouts: deadlines of nested sub-workflows
 (packages/cli/src/workflow-execute-additional-data.ts) and the cancel timer of the
 main process (packages/cli/src/workflow-runner.ts).  Settings are in seconds,
 timestamps and delays in milliseconds.
 */
module Deadlines {
  import opened Basics

  /** `timeout <= 0` means no default; `maxTimeout <= 0` is allowed by the configuration. */
  datatype Config = Config(timeout: int, maxTimeout: int)

  type Deadline = Option<int>

  /** The longest delay a timer holds; a longer one is taken for one millisecond. */
  const MAX_TIMER_DELAY_MS := 2_147_483_647

  // ---------- one workflow ----------

  /** `determineWorkflowDeadline` */
  function SubWorkflowDeadline(start: int, setting: Option<int>, config: Config): Deadline {
    var Clamp := (t: int) => if config.maxTimeout > 0 then Min(t, config.maxTimeout) else t;
    if setting.Some? then
      if setting.value <= 0 then None else Some(start + Clamp(setting.value) * 1000)
    else if config.timeout > 0 then Some(start + Clamp(config.timeout) * 1000)
    else None
  }

  /** The timeout a workflow asks for: its own, or else the default. */
  function Chosen(setting: Option<int>, config: Config): int {
    if setting.Some? then setting.value else config.timeout
  }

  /** The `workflowTimeout` of `runMainProcess`; unbounded unless positive. */
  function MainTimeout(setting: Option<int>, config: Config): int {
    var t := Chosen(setting, config);
    if t > 0 then Min(t, config.maxTimeout) else t
  }

  function MainDeadline(now: int, setting: Option<int>, config: Config): Deadline {
    var t := MainTimeout(setting, config);
    if t <= 0 then None else Some(now + t * 1000)
  }

  /** The earlier of two limits, in seconds, counted from `start` in milliseconds. */
  predicate IsEarlier(d: int, start: int, a: int, b: int) {
    d <= start + 1000 * a && d <= start + 1000 * b && (d == start + 1000 * a || d == start + 1000 * b)
  }

  /**
   What the two computations mean: the workflow's own timeout or else the default, cut
   to the maximum.  A maximum that is not positive cuts nothing for a sub-workflow, and
   everything for a main workflow.
   */
  lemma DeadlinesMean(start: int, setting: Option<int>, config: Config)
    ensures
      var chosen := if setting.Some? then setting.value else config.timeout;
      var (sub, main) := (SubWorkflowDeadline(start, setting, config), MainDeadline(start, setting, config));
      (sub.Some? <==> chosen > 0) && (main.Some? <==> chosen > 0 && config.maxTimeout > 0) &&
      (sub.Some? ==>
         IsEarlier(sub.value, start, chosen, if config.maxTimeout > 0 then config.maxTimeout else chosen)) &&
      (main.Some? ==> IsEarlier(main.value, start, chosen, config.maxTimeout))
  {
  }

  /**
   A workflow gets the same deadline as a sub-workflow and as a main workflow if and
   only if the configured maximum is positive or no timeout was asked for.
   */
  lemma SubAndMainAgreeIff(start: int, setting: Option<int>, config: Config)
    ensures SubWorkflowDeadline(start, setting, config) == MainDeadline(start, setting, config)
       <==> config.maxTimeout > 0 || Chosen(setting, config) <= 0
    ensures config.maxTimeout <= 0 ==> MainDeadline(start, setting, config).None?
  {
  }

  // ---------- nested workflows ----------

  /** `resolveSubworkflowDeadline` */
  function Resolve(own: Deadline, parent: Deadline, detached: bool): Deadline {
    if detached then own
    else if parent.Some? && own.Some? then Some(Min(parent.value, own.value))
    else if parent.Some? then parent
    else own
  }

  /** One nested call; `detached` is `doNotWaitToFinish`. */
  datatype Call = Call(start: int, setting: Option<int>, detached: bool)

  function Own(call: Call, config: Config): Deadline {
    SubWorkflowDeadline(call.start, call.setting, config)
  }

  /** The deadline in force at the end of a chain of calls below a main workflow. */
  function InForce(root: Deadline, calls: seq<Call>, config: Config): Deadline
    decreases |calls|
  {
    if calls == [] then root
    else
      var last := calls[|calls| - 1];
      Resolve(Own(last, config), InForce(root, calls[..|calls| - 1], config), last.detached)
  }

  /** The deadlines the calls have of their own. */
  function Owns(calls: seq<Call>, config: Config): (ds: seq<Deadline>)
    ensures |ds| == |calls| && forall i :: 0 <= i < |ds| ==> ds[i] == Own(calls[i], config)
    decreases |calls|
  {
    if calls == [] then [] else Owns(calls[..|calls| - 1], config) + [Own(calls[|calls| - 1], config)]
  }

  /** `d` is the earliest of the defined deadlines, or nothing if none is defined. */
  ghost predicate Earliest(d: Deadline, ds: seq<Deadline>) {
    (d.None? ==> forall i :: 0 <= i < |ds| ==> ds[i].None?) &&
    (d.Some? ==> d in ds && forall i :: 0 <= i < |ds| && ds[i].Some? ==> d.value <= ds[i].value)
  }

  lemma EarliestOneMore(d: Deadline, ds: seq<Deadline>, own: Deadline)
    requires Earliest(d, ds)
    ensures Earliest(Resolve(own, d, false), ds + [own])
  {
    var all := ds + [own];
    assert all[|ds|] == own && own in all;
    assert forall i :: 0 <= i < |ds| ==> all[i] == ds[i];
    if d.Some? {
      var i :| 0 <= i < |ds| && ds[i] == d;
      assert all[i] == d;
    }
  }

  /** Along awaited calls the earliest deadline of the chain is in force. */
  lemma {:induction false} AwaitedEarliest(root: Deadline, calls: seq<Call>, config: Config)
    requires forall c :: c in calls ==> !c.detached
    ensures Earliest(InForce(root, calls, config), [root] + Owns(calls, config))
    decreases |calls|
  {
    if calls != [] {
      var last := calls[|calls| - 1];
      var above := calls[..|calls| - 1];
      assert last in calls;
      AwaitedEarliest(root, above, config);
      EarliestOneMore(InForce(root, above, config), [root] + Owns(above, config), Own(last, config));
      assert [root] + Owns(above, config) + [Own(last, config)] == [root] + Owns(calls, config);
    }
  }

  /** A detached call is a new root: whatever is above it does not matter. */
  lemma {:induction false} DetachedIsARoot(
      root: Deadline, above: seq<Call>, call: Call, below: seq<Call>, config: Config)
    requires call.detached
    ensures InForce(root, above + [call] + below, config) == InForce(Own(call, config), below, config)
    decreases |below|
  {
    var all := above + [call] + below;
    if below == [] {
      assert all[|all| - 1] == call;
    } else {
      var n := |below| - 1;
      assert all[|all| - 1] == below[n];
      assert all[..|all| - 1] == above + [call] + below[..n];
      DetachedIsARoot(root, above, call, below[..n], config);
    }
  }

  /** In any chain: the earliest deadline since the last detached call is in force. */
  lemma EarliestSinceDetached(root: Deadline, above: seq<Call>, call: Call, below: seq<Call>, config: Config)
    requires call.detached && forall c :: c in below ==> !c.detached
    ensures Earliest(InForce(root, above + [call] + below, config), [Own(call, config)] + Owns(below, config))
  {
    DetachedIsARoot(root, above, call, below, config);
    AwaitedEarliest(Own(call, config), below, config);
  }

  predicate NoLater(a: Deadline, b: Deadline) {
    b.Some? ==> a.Some? && a.value <= b.value
  }

  /** Awaited calls never get past the deadline of the workflow they were called from. */
  lemma {:induction false} NeverPastAncestor(root: Deadline, calls: seq<Call>, below: seq<Call>, config: Config)
    requires forall c :: c in below ==> !c.detached
    ensures NoLater(InForce(root, calls + below, config), InForce(root, calls, config))
    decreases |below|
  {
    if below == [] {
      assert calls + below == calls;
    } else {
      var n := |below| - 1;
      assert below[n] in below;
      assert (calls + below)[|calls + below| - 1] == below[n];
      assert (calls + below)[..|calls + below| - 1] == calls + below[..n];
      NeverPastAncestor(root, calls, below[..n], config);
    }
  }

  // ---------- the cancel timer ----------

  /** How `runMainProcess` arranges for the execution to be cancelled. */
  datatype Cancel = Never | AtOnce | After(delay: int)

  /** The moment a timer set at `now` fires. */
  function FiresAt(now: int, delay: int): int {
    now + if delay > MAX_TIMER_DELAY_MS then 1 else Max(delay, 1)
  }

  function CancelledAt(now: int, cancel: Cancel): int
    requires !cancel.Never?
  {
    if cancel.AtOnce? then now else FiresAt(now, cancel.delay)
  }

  /** The moment the time of an execution is used up. */
  function Limit(now: int, setting: Option<int>, startedAt: Option<int>, config: Config): int {
    (if startedAt.Some? then startedAt.value else now) + MainTimeout(setting, config) * 1000
  }

  /**
   The statements of `runMainProcess` that arm the cancel timer.  It goes off exactly
   when the time since the first start is used up, at once if that is past, if and only
   if the remaining time fits into a timer.
   */
  method ArmCancelTimer(setting: Option<int>, startedAt: Option<int>, now: int, config: Config) returns (cancel: Cancel)
    ensures cancel.Never? <==> MainTimeout(setting, config) <= 0
    ensures cancel.AtOnce? <==> MainTimeout(setting, config) > 0 && Limit(now, setting, startedAt, config) <= now
    ensures !cancel.Never? ==>
      var limit := Limit(now, setting, startedAt, config);
      CancelledAt(now, cancel) == Max(now, limit) <==> limit - now <= 2_147_483_647
    ensures !cancel.Never? && Limit(now, setting, startedAt, config) - now > 2_147_483_647 ==>
      CancelledAt(now, cancel) == now + 1
    ensures
      var chosen := if setting.Some? then setting.value else config.timeout;
      var total := 1000 * if chosen < config.maxTimeout then chosen else config.maxTimeout;
      cancel ==
      if chosen <= 0 || config.maxTimeout <= 0 then Never
      else if startedAt.None? then After(total)
      else if startedAt.value + total <= now then AtOnce
      else After(startedAt.value + total - now)
  {
    var workflowTimeout := if setting.Some? then setting.value else config.timeout;
    if workflowTimeout > 0 {
      workflowTimeout := Min(workflowTimeout, config.maxTimeout);
    }
    cancel := Never;
    if workflowTimeout > 0 {
      var timeout := Min(workflowTimeout, config.maxTimeout) * 1000;
      if startedAt.Some? {
        timeout := Max(timeout - (now - startedAt.value), 0);
      }
      cancel := if timeout == 0 then AtOnce else After(timeout);
    }
  }

  // ---------- across waits ----------

  /** `startedAt` of the row after `setRunning`: set once. */
  function SetRunning(startedAt: Option<int>, now: int): Option<int> {
    if startedAt.Some? then startedAt else Some(now)
  }

  /**
   Who starts a stretch of running.  Only the wait tracker, for timers and finished
   children, hands the start time of the row on; webhooks, forms, chats and the recovery
   of enqueued executions do not, and a fresh execution has none.
   */
  datatype Origin = Fresh | Tracker | Direct

  /**
   One stretch of running: when its soft deadline was computed, when its row was set
   running, and when its cancel timer was armed.
   */
  datatype Stretch = Stretch(origin: Origin, read: int, running: int, armed: int, setting: Option<int>)

  function StartedAt(startedAt: Option<int>, stretches: seq<Stretch>): Option<int>
    decreases |stretches|
  {
    if stretches == [] then startedAt
    else StartedAt(SetRunning(startedAt, stretches[0].running), stretches[1..])
  }

  lemma {:induction false} StartedOnce(startedAt: Option<int>, stretches: seq<Stretch>)
    ensures startedAt.Some? ==> StartedAt(startedAt, stretches) == startedAt
    ensures startedAt.None? && stretches != [] ==> StartedAt(startedAt, stretches) == Some(stretches[0].running)
    decreases |stretches|
  {
    if stretches != [] {
      StartedOnce(SetRunning(startedAt, stretches[0].running), stretches[1..]);
    }
  }

  /** The `startedAt` that reaches `runMainProcess` in the i-th stretch. */
  function PassedStart(stretches: seq<Stretch>, i: nat): Option<int>
    requires i < |stretches|
  {
    if stretches[i].origin == Tracker then StartedAt(None, stretches[..i]) else None
  }

  function LimitOf(stretches: seq<Stretch>, i: nat, config: Config): int
    requires i < |stretches|
  {
    Limit(stretches[i].armed, stretches[i].setting, PassedStart(stretches, i), config)
  }

  /** The time of stretch `i` is counted from the very first start. */
  predicate CountsFromFirst(stretches: seq<Stretch>, i: nat, config: Config)
    requires i < |stretches|
  {
    LimitOf(stretches, i, config) == stretches[0].running + MainTimeout(stretches[i].setting, config) * 1000
  }

  /** The wait tracker resumed it, or no time has passed since the first start. */
  predicate KeepsFirst(stretches: seq<Stretch>, i: nat)
    requires i < |stretches|
  {
    stretches[i].origin == Tracker || stretches[i].armed == stretches[0].running
  }

  /**
   Waiting does not extend the time of an execution exactly when the wait tracker
   resumes it; any other resume grants the whole timeout again.
   */
  lemma WaitingExtendsUnlessTracked(stretches: seq<Stretch>, i: nat, config: Config)
    requires 0 < i < |stretches|
    ensures CountsFromFirst(stretches, i, config) <==> KeepsFirst(stretches, i)
    ensures stretches[i].origin != Tracker ==>
      LimitOf(stretches, i, config) == stretches[i].armed + MainTimeout(stretches[i].setting, config) * 1000
  {
    StartedOnce(None, stretches[..i]);
  }

  /** Over any number of waits, all resumes together keep to the first start exactly when each of them does. */
  lemma WaitingNeverExtendsIff(stretches: seq<Stretch>, config: Config)
    ensures (forall i :: 0 < i < |stretches| ==> CountsFromFirst(stretches, i, config))
       <==> (forall i :: 0 < i < |stretches| ==> KeepsFirst(stretches, i))
  {
    forall i | 0 < i < |stretches| ensures CountsFromFirst(stretches, i, config) <==> KeepsFirst(stretches, i) {
      WaitingExtendsUnlessTracked(stretches, i, config);
    }
  }

  /**
   The soft deadline is computed first and counts from then.  The hard cancellation of a
   resumed stretch comes no later exactly when the timer is armed before that deadline,
   and the tracker passed a first start that is no later than the computation, or no
   time passed until the timer was armed.
   */
  lemma HardLimitComesFirstIff(stretches: seq<Stretch>, i: nat, config: Config)
    requires 0 < i < |stretches| && MainTimeout(stretches[i].setting, config) > 0
    ensures
      var s := stretches[i];
      var soft := MainDeadline(s.read, s.setting, config);
      soft.Some? &&
      (Max(s.armed, LimitOf(stretches, i, config)) <= soft.value
       <==> s.armed <= soft.value &&
            (if s.origin == Tracker then stretches[0].running <= s.read else s.armed <= s.read))
  {
    StartedOnce(None, stretches[..i]);
  }
}
