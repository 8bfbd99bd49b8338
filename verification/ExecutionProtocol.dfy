/**
 The life of executions in one process as a transition system
 (packages/cli/src/active-executions.ts).

 `add` is split at its awaits, the `finally` callback of a post-execute promise is an
 event of its own, and the database is a map from execution id to status.  Events of
 any number of callers interleave freely, and anybody may write any status to a row at
 any time.  One assumption about the surroundings is part of `Enabled`: a status is
 reported only by a run, and while the entry it goes to is live (`StatusSet`).
 */
module ExecutionProtocol {
  import opened Basics

  type Id = nat

  /** One call of `add`; it also names the record and the reservation of that call. */
  type Call = nat

  datatype Status = New | Running | Waiting | Success | Error | Canceled | Crashed

  /** Evaluations reserve nothing; of the others, only some modes are limited. */
  datatype Mode = Evaluation | Unlimited | Throttled

  datatype Kind = Fresh | Resume(expected: Status)

  datatype Failure = AlreadyResuming | Other

  /** Where a call of `add` is suspended. */
  datatype Phase =
    | Creating               // create()
    | Reserving              // capacityReservation.reserve()
    | Updating               // setRunning() of a new row, or the compare-and-swap
    | Claimed                // setRunning() after claiming a `new` row
    | Ready                  // about to register the record
    | Lost                   // the compare-and-swap found another status
    | Threw(failure: Failure)

  datatype Add = Add(kind: Kind, mode: Mode, id: Option<Id>, phase: Phase)

  datatype Outcome = Unsettled | Resolved | Rejected

  /**
   An `IExecutingWorkflowData`, with the state of its post-execute promise.  `over` says
   that the run behind it has ended and will not finalise any more.
   */
  datatype Record = Record(
    id: Id,
    mode: Mode,
    startedAt: int,
    status: Status,
    outcome: Outcome,
    callbackRan: bool,
    responsePromise: Option<nat>,
    attached: bool,
    over: bool)

  datatype State = State(
    rows: map<Id, Status>,
    calls: map<Call, Add>,
    records: map<Call, Record>,
    active: map<Id, Call>,
    held: set<Call>,
    releases: seq<Call>)

  /** Whether executions run in this process or in workers. */
  datatype Config = Config(regular: bool)

  datatype Event =
    | BeginFresh(c: Call, mode: Mode)
    | BeginResume(c: Call, mode: Mode, id: Id, expected: Status)
    | Created(c: Call, id: Id)
    | Reserved(c: Call)
    | Updated(c: Call)
    | MarkedRunning(c: Call)
    | Failed(c: Call)
    | Thrown(c: Call)
    | Registered(c: Call, now: int)
    | StatusSet(id: Id, status: Status)
    | Attached(id: Id)
    | ResponseAttached(id: Id, response: nat)
    | Stopped(id: Id)
    | Finalized(c: Call)
    | Abandoned(c: Call)
    | Settled(c: Call)
    | Dropped(id: Id)
    | RowWritten(id: Id, status: Status)

  // ---------- the steps ----------

  function Release(s: State, c: Call): State {
    if c in s.held then s.(held := s.held - {c}, releases := s.releases + [c]) else s
  }

  function SetPhase(s: State, c: Call, phase: Phase): State
    requires c in s.calls
  {
    s.(calls := s.calls[c := s.calls[c].(phase := phase)])
  }

  function AfterCreation(mode: Mode): Phase {
    if mode == Evaluation then Updating else Reserving
  }

  predicate IsCall(s: State, c: Call, phase: Phase) {
    c in s.calls && s.calls[c].phase == phase
  }

  predicate HasId(s: State, c: Call) {
    c in s.calls && s.calls[c].id.Some?
  }

  function DoCreated(s: State, c: Call, id: Id): State
    requires c in s.calls
  {
    s.(rows := s.rows[id := New],
       calls := s.calls[c := s.calls[c].(id := Some(id), phase := AfterCreation(s.calls[c].mode))])
  }

  function DoReserved(s: State, c: Call): State
    requires c in s.calls
  {
    SetPhase(s, c, Updating).(held := s.held + {c})
  }

  /** The compare-and-swap succeeds exactly when the row still has the expected status. */
  predicate Wins(s: State, c: Call) {
    HasId(s, c) && s.calls[c].kind.Resume? && s.calls[c].phase == Updating &&
    s.calls[c].id.value in s.rows && s.rows[s.calls[c].id.value] == s.calls[c].kind.expected
  }

  function DoUpdated(cfg: Config, s: State, c: Call): State
    requires HasId(s, c)
  {
    var add := s.calls[c];
    var id := add.id.value;
    match add.kind
    case Fresh =>
      SetPhase(if cfg.regular then SetRow(s, id, Running) else s, c, Ready)
    case Resume(expected) =>
      if Wins(s, c) then SetPhase(SetRow(s, id, Running), c, if expected == New then Claimed else Ready)
      else SetPhase(s, c, Lost)
  }

  /** An update of a row that has been deleted changes nothing. */
  function SetRow(s: State, id: Id, status: Status): State {
    if id in s.rows then s.(rows := s.rows[id := status]) else s
  }

  /** The code after the last await: the new record takes over from the one it resumes. */
  function DoRegistered(s: State, c: Call, now: int): State
    requires HasId(s, c)
  {
    var add := s.calls[c];
    var id := add.id.value;
    var resuming := Current(s, id);
    var record := Record(id, add.mode,
                         if resuming.Some? then resuming.value.startedAt else now,
                         Running, Unsettled, false,
                         if resuming.Some? then resuming.value.responsePromise else None,
                         false, false);
    s.(calls := s.calls - {c}, records := s.records[c := record], active := s.active[id := c])
  }

  /** `this.activeExecutions[id]` */
  function Current(s: State, id: Id): Option<Record> {
    if id in s.active && s.active[id] in s.records then Some(s.records[s.active[id]]) else None
  }

  function SetCurrent(s: State, id: Id, record: Record): State
    requires id in s.active
  {
    s.(records := s.records[s.active[id] := record])
  }

  function Settle(record: Record, outcome: Outcome): Record {
    if record.outcome == Unsettled then record.(outcome := outcome) else record
  }

  function Forget(s: State, id: Id): State {
    s.(active := s.active - {id})
  }

  function DoStopped(s: State, id: Id): State {
    var current := Current(s, id);
    if current.None? then s
    else if current.value.status == Waiting then Forget(s, id)
    else SetCurrent(s, id, Settle(current.value, Rejected))
  }

  function Resolve(s: State, id: Id): State {
    var current := Current(s, id);
    if current.None? then s else SetCurrent(s, id, Settle(current.value, Resolved))
  }

  /** The run of `c` finalises by execution id, whichever record has that id now. */
  function DoFinalized(s: State, c: Call): State
    requires c in s.records
  {
    End(Resolve(s, s.records[c].id), c)
  }

  function End(s: State, c: Call): State
    requires c in s.records
  {
    s.(records := s.records[c := s.records[c].(over := true)])
  }

  /** The `finally` callback of the record registered by `c`. */
  function DoSettled(s: State, c: Call): State
    requires c in s.records
  {
    var record := s.records[c];
    var s' := Release(s, c);
    if record.status == Waiting then
      s'.(records := s'.records[c := record.(callbackRan := true, attached := false)])
    else
      Forget(s'.(records := s'.records[c := record.(callbackRan := true)]), record.id)
  }

  predicate Fails(phase: Phase) {
    phase == Creating || phase == Reserving || phase == Updating || phase == Claimed
  }

  predicate Enabled(cfg: Config, s: State, e: Event) {
    match e
    case BeginFresh(c, mode) => c !in s.calls && c !in s.records
    case BeginResume(c, mode, id, expected) =>
      c !in s.calls && c !in s.records && (expected == Waiting || expected == New)
    case Created(c, id) => IsCall(s, c, Creating) && s.calls[c].kind == Fresh && IsUnused(s, id)
    case Reserved(c) => IsCall(s, c, Reserving)
    case Updated(c) => IsCall(s, c, Updating) && HasId(s, c)
    case MarkedRunning(c) => IsCall(s, c, Claimed) && HasId(s, c)
    case Failed(c) => c in s.calls && Fails(s.calls[c].phase)
    case Thrown(c) => IsCall(s, c, Lost)
    case Registered(c, now) => IsCall(s, c, Ready) && HasId(s, c)
    case StatusSet(id, status) => Current(s, id).Some? && IsLive(s, s.active[id]) && HasRun(s, id)
    case Attached(id) => Current(s, id).Some?
    case ResponseAttached(id, response) => Current(s, id).Some?
    case Stopped(id) => true
    case Finalized(c) => c in s.records && !s.records[c].over
    case Abandoned(c) => c in s.records && !s.records[c].over
    case Settled(c) => c in s.records && s.records[c].outcome != Unsettled && !s.records[c].callbackRan
    case Dropped(id) => Current(s, id).Some? && Current(s, id).value.status in {Waiting, New}
    case RowWritten(id, status) => id in s.rows
  }

  function Next(cfg: Config, s: State, e: Event): State
    requires Enabled(cfg, s, e)
  {
    match e
    case BeginFresh(c, mode) => s.(calls := s.calls[c := Add(Fresh, mode, None, Creating)])
    case BeginResume(c, mode, id, expected) =>
      s.(calls := s.calls[c := Add(Resume(expected), mode, Some(id), AfterCreation(mode))])
    case Created(c, id) => DoCreated(s, c, id)
    case Reserved(c) => DoReserved(s, c)
    case Updated(c) => DoUpdated(cfg, s, c)
    case MarkedRunning(c) => SetPhase(SetRow(s, s.calls[c].id.value, Running), c, Ready)
    case Failed(c) => SetPhase(Release(s, c), c, Threw(Other))
    case Thrown(c) => SetPhase(Release(s, c), c, Threw(AlreadyResuming))
    case Registered(c, now) => DoRegistered(s, c, now)
    case StatusSet(id, status) => SetCurrent(s, id, Current(s, id).value.(status := status))
    case Attached(id) => SetCurrent(s, id, Current(s, id).value.(attached := true))
    case ResponseAttached(id, r) => SetCurrent(s, id, Current(s, id).value.(responsePromise := Some(r)))
    case Stopped(id) => DoStopped(s, id)
    case Finalized(c) => DoFinalized(s, c)
    case Abandoned(c) => End(s, c)
    case Settled(c) => DoSettled(s, c)
    case Dropped(id) => Forget(s, id)
    case RowWritten(id, status) => SetRow(s, id, status)
  }

  /** The database issues ids that nobody has heard of. */
  predicate IsUnused(s: State, id: Id) {
    id !in s.rows && id !in s.active &&
    (forall d :: d in s.calls ==> s.calls[d].id != Some(id)) &&
    (forall d :: d in s.records ==> s.records[d].id != id)
  }

  // ---------- who owns an execution ----------

  /** A record whose run, or whose removal by the callback, is still to come. */
  predicate IsLive(s: State, c: Call) {
    c in s.records && !s.records[c].callbackRan &&
    if s.records[c].outcome == Unsettled then InMap(s, c) else s.records[c].status != Waiting
  }

  /** Some run of the execution goes on. */
  predicate HasRun(s: State, id: Id) {
    exists c :: c in s.records && s.records[c].id == id && !s.records[c].over
  }

  predicate InMap(s: State, c: Call)
    requires c in s.records
  {
    s.records[c].id in s.active && s.active[s.records[c].id] == c
  }

  /** A call that has created or claimed the row and not registered yet. */
  predicate HasClaim(add: Add) {
    add.id.Some? &&
    match add.kind
    case Fresh => add.phase == Reserving || add.phase == Updating || add.phase == Ready
    case Resume(_) => add.phase == Claimed || add.phase == Ready
  }

  // ---------- runs ----------

  predicate Valid(cfg: Config, s: State, es: seq<Event>)
    decreases |es|
  {
    es == [] || (Enabled(cfg, s, es[0]) && Valid(cfg, Next(cfg, s, es[0]), es[1..]))
  }

  function Run(cfg: Config, s: State, es: seq<Event>): State
    requires Valid(cfg, s, es)
    decreases |es|
  {
    if es == [] then s else Run(cfg, Next(cfg, s, es[0]), es[1..])
  }

  /** A process that has just started, over any database. */
  predicate Initial(s: State) {
    s.calls == map[] && s.records == map[] && s.active == map[] && s.held == {} && s.releases == []
  }

  // ---------- invariants ----------

  predicate AddHolds(add: Add) {
    add.mode != Evaluation &&
    (add.phase == Updating || add.phase == Claimed || add.phase == Ready || add.phase == Lost)
  }

  predicate RecordHolds(record: Record) {
    record.mode != Evaluation && !record.callbackRan
  }

  predicate Holds(s: State, c: Call) {
    (c in s.calls && AddHolds(s.calls[c])) || (c in s.records && RecordHolds(s.records[c]))
  }

  predicate Ended(s: State, c: Call) {
    (c in s.calls && s.calls[c].phase.Threw?) || (c in s.records && s.records[c].callbackRan)
  }

  /** Reservations are held by exactly the calls and records that still need them, and given back once. */
  ghost predicate SlotsOk(s: State) {
    s.calls.Keys !! s.records.Keys &&
    (forall c :: c in s.held <==> Holds(s, c)) &&
    (forall c :: c in s.releases ==> Ended(s, c)) &&
    (forall c :: c in s.records && s.records[c].callbackRan && s.records[c].mode != Evaluation ==> c in s.releases) &&
    (forall i, j :: 0 <= i < j < |s.releases| ==> s.releases[i] != s.releases[j])
  }

  /** A map entry whose callback has run is one that waits. */
  ghost predicate MapOk(s: State) {
    (forall id :: id in s.active ==> s.active[id] in s.records && s.records[s.active[id]].id == id) &&
    (forall id :: id in s.active && s.records[s.active[id]].callbackRan ==>
       s.records[s.active[id]].status == Waiting) &&
    (forall c :: c in s.records && s.records[c].callbackRan ==> s.records[c].outcome != Unsettled)
  }

  ghost predicate CallsOk(s: State) {
    forall c :: c in s.calls ==> AddOk(s.calls[c])
  }

  predicate AddOk(add: Add) {
    match add.kind
    case Fresh =>
      add.phase != Lost && add.phase != Claimed &&
      (if add.phase == Creating then add.id == None else add.phase.Threw? || add.id.Some?) &&
      (add.phase == Reserving ==> add.mode != Evaluation)
    case Resume(expected) =>
      add.phase != Creating && add.id.Some? &&
      (expected == Waiting || expected == New) &&
      (add.phase == Reserving ==> add.mode != Evaluation)
  }

  ghost predicate Inv(s: State) {
    SlotsOk(s) && MapOk(s) && CallsOk(s)
  }

  lemma InitialInv(s: State)
    requires Initial(s)
    ensures Inv(s)
  {
  }

  /** Events that touch calls and rows, but neither records nor the map. */
  predicate IsCallStep(e: Event) {
    e.BeginFresh? || e.BeginResume? || e.Created? || e.Reserved? || e.Updated? || e.MarkedRunning? ||
    e.Failed? || e.Thrown? || e.RowWritten?
  }

  lemma CallStepFrame(cfg: Config, s: State, e: Event)
    requires Enabled(cfg, s, e)
    ensures IsCallStep(e) ==> Next(cfg, s, e).records == s.records && Next(cfg, s, e).active == s.active
    ensures !IsCallStep(e) ==> Next(cfg, s, e).rows == s.rows
    ensures !IsCallStep(e) && !e.Registered? ==> Next(cfg, s, e).calls == s.calls
  {
  }

  /** One call has moved on, or none. */
  lemma CallsMoveOne(cfg: Config, s: State, e: Event)
    requires Enabled(cfg, s, e) && IsCallStep(e)
    ensures
      var s' := Next(cfg, s, e);
      s'.calls == s.calls || (!e.RowWritten? && e.c in s'.calls && s'.calls == s.calls[e.c := s'.calls[e.c]])
  {
  }

  lemma MovedCallOk(cfg: Config, s: State, e: Event)
    requires CallsOk(s) && Enabled(cfg, s, e) && IsCallStep(e) && !e.RowWritten?
    ensures e.c in Next(cfg, s, e).calls && AddOk(Next(cfg, s, e).calls[e.c])
  {
    if e.c in s.calls {
      assert AddOk(s.calls[e.c]);
    }
  }

  lemma CallsPreserved(cfg: Config, s: State, e: Event)
    requires CallsOk(s) && Enabled(cfg, s, e)
    ensures CallsOk(Next(cfg, s, e))
  {
    if IsCallStep(e) {
      CallsMoveOne(cfg, s, e);
      if !e.RowWritten? {
        MovedCallOk(cfg, s, e);
      }
    } else if !e.Registered? {
      CallStepFrame(cfg, s, e);
    }
  }

  /** Events that replace the current record of one execution and touch nothing else. */
  predicate IsRecordStep(e: Event) {
    e.StatusSet? || e.Attached? || e.ResponseAttached? || e.Finalized? || e.Abandoned?
  }

  lemma MapPreservedByRecordStep(cfg: Config, s: State, e: Event)
    requires MapOk(s) && Enabled(cfg, s, e) && IsRecordStep(e)
    ensures MapOk(Next(cfg, s, e))
  {
    if e.Finalized? {
      MapPreservedByFinalize(s, e.c);
    }
  }

  lemma MapPreservedByFinalize(s: State, c: Call)
    requires MapOk(s) && c in s.records
    ensures MapOk(DoFinalized(s, c))
  {
  }

  lemma MapPreservedByRegistration(cfg: Config, s: State, e: Event)
    requires s.calls.Keys !! s.records.Keys && MapOk(s) && Enabled(cfg, s, e) && e.Registered?
    ensures MapOk(Next(cfg, s, e))
  {
    assert e.c !in s.records;
  }

  lemma MapPreservedByCallback(cfg: Config, s: State, e: Event)
    requires MapOk(s) && Enabled(cfg, s, e) && e.Settled?
    ensures MapOk(Next(cfg, s, e))
  {
  }

  lemma MapPreserved(cfg: Config, s: State, e: Event)
    requires s.calls.Keys !! s.records.Keys && MapOk(s) && Enabled(cfg, s, e)
    ensures MapOk(Next(cfg, s, e))
  {
    if IsCallStep(e) {
      CallStepFrame(cfg, s, e);
    } else if IsRecordStep(e) {
      MapPreservedByRecordStep(cfg, s, e);
    } else if e.Registered? {
      MapPreservedByRegistration(cfg, s, e);
    } else if e.Settled? {
      MapPreservedByCallback(cfg, s, e);
    }
  }

  /** Giving back is effective once: afterwards the reservation is logged and no longer held. */
  lemma SlotsAfterRelease(s: State, c: Call)
    requires SlotsOk(s) && !Ended(s, c)
    ensures
      var s' := Release(s, c);
      s'.held == s.held - {c} && (forall d :: d in s'.releases <==> d in s.releases || (d == c && c in s.held)) &&
      (forall i, j :: 0 <= i < j < |s'.releases| ==> s'.releases[i] != s'.releases[j])
  {
    assert c !in s.releases;
    assert forall i :: 0 <= i < |s.releases| ==> s.releases[i] in s.releases;
  }

  lemma SlotsPreservedByRelease(cfg: Config, s: State, e: Event)
    requires SlotsOk(s) && Enabled(cfg, s, e) && (e.Failed? || e.Thrown?)
    ensures SlotsOk(Next(cfg, s, e))
  {
    var s' := Next(cfg, s, e);
    assert s'.calls == s.calls[e.c := s'.calls[e.c]] && s'.calls[e.c].phase.Threw?;
    SlotsAfterThrow(s, s', e.c);
  }

  lemma SlotsAfterThrow(s: State, s': State, c: Call)
    requires SlotsOk(s) && c in s.calls && !s.calls[c].phase.Threw?
    requires s'.held == Release(s, c).held && s'.releases == Release(s, c).releases && s'.records == s.records
    requires c in s'.calls && s'.calls == s.calls[c := s'.calls[c]] && s'.calls[c].phase.Threw?
    ensures SlotsOk(s')
  {
    SlotsAfterRelease(s, c);
    forall d ensures d in s'.held <==> Holds(s', d) {
      assert d in s.held <==> Holds(s, d);
    }
  }

  lemma SlotsPreservedByCallback(cfg: Config, s: State, e: Event)
    requires SlotsOk(s) && Enabled(cfg, s, e) && e.Settled?
    ensures SlotsOk(Next(cfg, s, e))
  {
    var s' := Next(cfg, s, e);
    SlotsAfterRelease(s, e.c);
    assert s'.held == s.held - {e.c} && s'.releases == Release(s, e.c).releases && s'.calls == s.calls;
    var r := s'.records[e.c];
    assert s'.records == s.records[e.c := r] && r.callbackRan && r.mode == s.records[e.c].mode;
    SlotsAfterCallback(s, s', e.c);
  }

  lemma SlotsAfterCallback(s: State, s': State, c: Call)
    requires SlotsOk(s) && c in s.records && !s.records[c].callbackRan
    requires s'.held == s.held - {c} && s'.releases == Release(s, c).releases && s'.calls == s.calls
    requires c in s'.records && s'.records == s.records[c := s'.records[c]]
    requires s'.records[c].callbackRan && s'.records[c].mode == s.records[c].mode
    ensures SlotsOk(s')
  {
    SlotsAfterRelease(s, c);
    forall d ensures d in s'.held <==> Holds(s', d) {
      assert d in s.held <==> Holds(s, d);
    }
  }

  /** One call moved on, and is held exactly in the phases that need a reservation. */
  lemma SlotsAfterMove(s: State, s': State, c: Call)
    requires SlotsOk(s) && c !in s.records && !Ended(s, c)
    requires s'.records == s.records && s'.releases == s.releases
    requires c in s'.calls && s'.calls == s.calls[c := s'.calls[c]]
    requires s'.held == (if AddHolds(s'.calls[c]) then s.held + {c} else s.held - {c})
    ensures SlotsOk(s')
  {
    forall d ensures d in s'.held <==> Holds(s', d) {
      assert d in s.held <==> Holds(s, d);
    }
  }

  lemma SlotsPreservedByOtherCallStep(cfg: Config, s: State, e: Event)
    requires SlotsOk(s) && CallsOk(s) && Enabled(cfg, s, e) && IsCallStep(e) && !e.Failed? && !e.Thrown?
    ensures SlotsOk(Next(cfg, s, e))
  {
    CallStepFrame(cfg, s, e);
    if !e.RowWritten? {
      assert e.c in s.held <==> Holds(s, e.c);
      MoveIsHeld(cfg, s, e);
      SlotsAfterMove(s, Next(cfg, s, e), e.c);
    }
  }

  lemma MoveIsHeld(cfg: Config, s: State, e: Event)
    requires CallsOk(s) && Enabled(cfg, s, e)
    requires IsCallStep(e) && !e.Failed? && !e.Thrown? && !e.RowWritten?
    requires (e.c in s.calls ==> e.c !in s.records) && (e.c in s.held <==> Holds(s, e.c))
    ensures
      var s' := Next(cfg, s, e);
      s'.releases == s.releases && e.c in s'.calls && s'.calls == s.calls[e.c := s'.calls[e.c]] &&
      s'.held == (if AddHolds(s'.calls[e.c]) then s.held + {e.c} else s.held - {e.c})
  {
    if e.c in s.calls {
      assert AddOk(s.calls[e.c]);
    }
  }

  /** Nothing about who holds a slot has changed. */
  ghost predicate SameHolders(s: State, s': State) {
    s'.calls == s.calls && s'.held == s.held && s'.releases == s.releases && s'.records.Keys == s.records.Keys &&
    forall c :: c in s.records ==>
      s'.records[c].mode == s.records[c].mode && s'.records[c].callbackRan == s.records[c].callbackRan
  }

  lemma RecordStepKeepsHolders(cfg: Config, s: State, e: Event)
    requires MapOk(s) && Enabled(cfg, s, e) && !IsCallStep(e) && !e.Settled? && !e.Registered?
    ensures SameHolders(s, Next(cfg, s, e))
  {
  }

  lemma SlotsOfSameHolders(s: State, s': State)
    requires SlotsOk(s) && SameHolders(s, s')
    ensures SlotsOk(s')
  {
    forall c ensures c in s'.held <==> Holds(s', c) {
      assert c in s.held <==> Holds(s, c);
    }
    forall c | c in s'.releases ensures Ended(s', c) {
      assert Ended(s, c);
    }
  }

  lemma SlotsPreservedByRecords(cfg: Config, s: State, e: Event)
    requires SlotsOk(s) && MapOk(s) && Enabled(cfg, s, e) && !IsCallStep(e) && !e.Settled? && !e.Registered?
    ensures SlotsOk(Next(cfg, s, e))
  {
    RecordStepKeepsHolders(cfg, s, e);
    SlotsOfSameHolders(s, Next(cfg, s, e));
  }

  lemma SlotsPreserved(cfg: Config, s: State, e: Event)
    requires SlotsOk(s) && MapOk(s) && CallsOk(s) && Enabled(cfg, s, e)
    ensures SlotsOk(Next(cfg, s, e))
  {
    if e.Failed? || e.Thrown? {
      SlotsPreservedByRelease(cfg, s, e);
    } else if e.Settled? {
      SlotsPreservedByCallback(cfg, s, e);
    } else if IsCallStep(e) {
      SlotsPreservedByOtherCallStep(cfg, s, e);
    } else if !e.Registered? {
      SlotsPreservedByRecords(cfg, s, e);
    }
  }

  lemma InvPreserved(cfg: Config, s: State, e: Event)
    requires Inv(s) && Enabled(cfg, s, e)
    ensures Inv(Next(cfg, s, e))
  {
    SlotsPreserved(cfg, s, e);
    MapPreserved(cfg, s, e);
    CallsPreserved(cfg, s, e);
  }
}
