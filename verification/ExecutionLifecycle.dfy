/**
 The life of a single record: who removes it, when its slot comes back, what a resume
 inherits, and how a cancelling shutdown empties the map.
 */
module ExecutionLifecycle {
  import opened Basics
  import opened ExecutionProtocol
  import opened ExecutionTheorems

  // ---------- settled entries wait ----------

  predicate CallbackPending(s: State, c: Call) {
    c in s.records && s.records[c].outcome != Unsettled && !s.records[c].callbackRan
  }

  /** With no callback pending, an entry's promise has settled only if the execution waits. */
  lemma SettledEntriesWait(cfg: Config, s: State, id: Id)
    requires Reachable(cfg, s) && id in s.active && !CallbackPending(s, s.active[id])
    ensures s.active[id] in s.records && s.records[s.active[id]].id == id
    ensures s.records[s.active[id]].outcome != Unsettled ==> s.records[s.active[id]].status == Waiting
  {
    ReachableInv(cfg, s);
  }

  lemma {:induction false} OutcomeIsFinal(cfg: Config, s: State, es: seq<Event>, c: Call)
    requires Valid(cfg, s, es) && c in s.records && s.calls.Keys !! s.records.Keys && Inv(s)
    ensures c in Run(cfg, s, es).records && Run(cfg, s, es).records[c].id == s.records[c].id
    ensures s.records[c].outcome != Unsettled ==>
              Run(cfg, s, es).records[c].outcome == s.records[c].outcome
    decreases |es|
  {
    if es != [] {
      RecordStep(cfg, s, es[0], c);
      InvPreserved(cfg, s, es[0]);
      OutcomeIsFinal(cfg, Next(cfg, s, es[0]), es[1..], c);
    }
  }

  lemma RecordStep(cfg: Config, s: State, e: Event, c: Call)
    requires Enabled(cfg, s, e) && c in s.records && s.calls.Keys !! s.records.Keys
    ensures
      var s' := Next(cfg, s, e);
      c in s'.records && s'.records[c].id == s.records[c].id && s'.records[c].mode == s.records[c].mode &&
      (s.records[c].outcome != Unsettled ==> s'.records[c].outcome == s.records[c].outcome)
  {
    if IsCallStep(e) {
      CallStepFrame(cfg, s, e);
    }
  }

  // ---------- how a promise settles ----------

  /** The event stops what is running under the entry of `c`. */
  predicate StopsIt(s: State, e: Event, c: Call)
    requires c in s.records
  {
    e == Stopped(s.records[c].id) && InMap(s, c) && s.records[c].status != Waiting
  }

  /** The event is the end of a run of the execution whose entry is `c`. */
  predicate EndsIt(s: State, e: Event, c: Call)
    requires c in s.records
  {
    e.Finalized? && e.c in s.records && s.records[e.c].id == s.records[c].id && InMap(s, c)
  }

  lemma SettlingRecordStep(cfg: Config, s: State, e: Event, c: Call)
    requires MapOk(s) && Enabled(cfg, s, e) && c in s.records && s.records[c].outcome == Unsettled
    requires e.Stopped? || e.Finalized?
    ensures c in Next(cfg, s, e).records
    ensures Next(cfg, s, e).records[c].outcome == Rejected <==> StopsIt(s, e, c)
    ensures Next(cfg, s, e).records[c].outcome == Resolved <==> EndsIt(s, e, c)
  {
    if e.Finalized? {
      FinalizedSettles(s, e.c, c);
    }
  }

  lemma FinalizedSettles(s: State, d: Call, c: Call)
    requires MapOk(s) && d in s.records && c in s.records && s.records[c].outcome == Unsettled
    ensures c in DoFinalized(s, d).records
    ensures
      DoFinalized(s, d).records[c].outcome ==
      if s.records[d].id == s.records[c].id && InMap(s, c) then Resolved else Unsettled
  {
  }

  lemma OtherStepsSettleNothing(cfg: Config, s: State, e: Event, c: Call)
    requires MapOk(s) && s.calls.Keys !! s.records.Keys && Enabled(cfg, s, e) && c in s.records
    requires s.records[c].outcome == Unsettled && !e.Stopped? && !e.Finalized?
    ensures c in Next(cfg, s, e).records && Next(cfg, s, e).records[c].outcome == Unsettled
  {
    if IsCallStep(e) {
      CallStepFrame(cfg, s, e);
    }
  }

  /** A stop rejects and the end of a run resolves; nothing else settles anything. */
  lemma SettledByStep(cfg: Config, s: State, e: Event, c: Call)
    requires MapOk(s) && s.calls.Keys !! s.records.Keys && Enabled(cfg, s, e) && c in s.records
    requires s.records[c].outcome == Unsettled
    ensures c in Next(cfg, s, e).records
    ensures Next(cfg, s, e).records[c].outcome == Rejected <==> StopsIt(s, e, c)
    ensures Next(cfg, s, e).records[c].outcome == Resolved <==> EndsIt(s, e, c)
  {
    if e.Stopped? || e.Finalized? {
      SettlingRecordStep(cfg, s, e, c);
    } else {
      OtherStepsSettleNothing(cfg, s, e, c);
    }
  }

  /**
   Over every run, a promise that settles was settled by one event: it ends rejected
   exactly when that event stopped the execution, and resolved exactly when it was the
   end of a run of it.
   */
  lemma {:induction false} SettledByIff(cfg: Config, s: State, es: seq<Event>, c: Call) returns (i: nat)
    requires Inv(s) && Valid(cfg, s, es) && c in s.records && s.records[c].outcome == Unsettled
    requires c in Run(cfg, s, es).records && Run(cfg, s, es).records[c].outcome != Unsettled
    ensures i < |es| && Valid(cfg, s, es[..i]) && c in Run(cfg, s, es[..i]).records
    ensures Run(cfg, s, es[..i]).records[c].outcome == Unsettled
    ensures Run(cfg, s, es).records[c].outcome == Rejected <==> StopsIt(Run(cfg, s, es[..i]), es[i], c)
    ensures Run(cfg, s, es).records[c].outcome == Resolved <==> EndsIt(Run(cfg, s, es[..i]), es[i], c)
    decreases |es|
  {
    var s' := Next(cfg, s, es[0]);
    SettledByStep(cfg, s, es[0], c);
    InvPreserved(cfg, s, es[0]);
    assert es[..0] == [];
    if s'.records[c].outcome == Unsettled {
      var j := SettledByIff(cfg, s', es[1..], c);
      i := j + 1;
      assert es[..i][0] == es[0] && es[..i][1..] == es[1..][..j];
    } else {
      i := 0;
      OutcomeIsFinal(cfg, s', es[1..], c);
    }
  }

  /** An execution enters the map only by being registered. */
  lemma {:induction false} ReturnsOnlyThroughAdd(cfg: Config, s: State, es: seq<Event>, id: Id) returns (i: nat)
    requires Valid(cfg, s, es) && id !in s.active && id in Run(cfg, s, es).active
    ensures i < |es| && es[i].Registered?
    ensures Valid(cfg, s, es[..i]) && es[i].c in Run(cfg, s, es[..i]).calls
         && Run(cfg, s, es[..i]).calls[es[i].c].id == Some(id)
    decreases |es|
  {
    var s' := Next(cfg, s, es[0]);
    assert es[..0] == [];
    if id in s'.active {
      i := 0;
      if IsCallStep(es[0]) {
        CallStepFrame(cfg, s, es[0]);
      }
    } else {
      var j := ReturnsOnlyThroughAdd(cfg, s', es[1..], id);
      i := j + 1;
      assert es[..i][0] == es[0] && es[..i][1..] == es[1..][..j];
    }
  }

  // ---------- slots that never come back ----------

  /**
   A record that was removed from the map before its promise settled.  Nobody can reach
   the promise any more.
   */
  predicate Orphaned(s: State, c: Call) {
    c in s.records && s.records[c].outcome == Unsettled && !InMap(s, c)
  }

  lemma OrphanStep(cfg: Config, s: State, e: Event, c: Call)
    requires SlotsOk(s) && MapOk(s) && Enabled(cfg, s, e) && Orphaned(s, c)
    ensures
      var s' := Next(cfg, s, e);
      Orphaned(s', c) && s'.records[c] == s.records[c].(over := s'.records[c].over)
  {
    if IsCallStep(e) {
      CallStepFrame(cfg, s, e);
    }
  }

  /** An orphan keeps its slot for as long as the process runs. */
  lemma {:induction false} OrphansKeepTheirSlot(cfg: Config, s: State, es: seq<Event>, c: Call)
    requires Inv(s) && Valid(cfg, s, es) && Orphaned(s, c)
    ensures Orphaned(Run(cfg, s, es), c)
    ensures c in s.held ==> c in Run(cfg, s, es).held
    decreases |es|
  {
    if es != [] {
      var s' := Next(cfg, s, es[0]);
      OrphanStep(cfg, s, es[0], c);
      InvPreserved(cfg, s, es[0]);
      assert (c in s.held <==> Holds(s, c)) && (c in s'.held <==> Holds(s', c));
      OrphansKeepTheirSlot(cfg, s', es[1..], c);
    }
  }

  ghost predicate CanComeBack(cfg: Config, s: State, c: Call) {
    exists es :: Valid(cfg, s, es) && c !in Run(cfg, s, es).held
  }

  /**
   An entry that reports to wait, whose promise has not settled although every run of the
   execution is over: nobody is left to finalise it, and a stop only forgets it.
   */
  predicate Abandons(s: State, c: Call) {
    c in s.records && s.records[c].outcome == Unsettled && s.records[c].status == Waiting && InMap(s, c) &&
    !HasRun(s, s.records[c].id)
  }

  predicate Lost(s: State, c: Call) {
    Orphaned(s, c) || Abandons(s, c)
  }

  lemma AbandonedByFinalize(s: State, d: Call, c: Call)
    requires MapOk(s) && d in s.records && !s.records[d].over && Abandons(s, c)
    ensures Abandons(DoFinalized(s, d), c) && Abandons(End(s, d), c)
  {
    assert s.records[d].id != s.records[c].id;
  }

  lemma AbandonedByRest(cfg: Config, s: State, e: Event, c: Call)
    requires SlotsOk(s) && MapOk(s) && Enabled(cfg, s, e) && Abandons(s, c)
    requires !IsCallStep(e) && !e.Finalized? && !e.Abandoned?
    ensures Lost(Next(cfg, s, e), c)
  {
    if e.Registered? {
      assert e.c !in s.records;
    }
  }

  lemma LostStep(cfg: Config, s: State, e: Event, c: Call)
    requires SlotsOk(s) && MapOk(s) && Enabled(cfg, s, e) && Lost(s, c)
    ensures Lost(Next(cfg, s, e), c)
  {
    if Orphaned(s, c) {
      OrphanStep(cfg, s, e, c);
    } else if IsCallStep(e) {
      CallStepFrame(cfg, s, e);
    } else if e.Finalized? || e.Abandoned? {
      AbandonedByFinalize(s, e.c, c);
    } else {
      AbandonedByRest(cfg, s, e, c);
    }
  }

  lemma LostHolds(s: State, c: Call)
    requires SlotsOk(s) && MapOk(s) && Lost(s, c)
    ensures c in s.held <==> s.records[c].mode != Evaluation
  {
    assert c in s.held <==> Holds(s, c);
  }

  lemma {:induction false} LostForGood(cfg: Config, s: State, es: seq<Event>, c: Call)
    requires Inv(s) && Valid(cfg, s, es) && Lost(s, c)
    ensures Lost(Run(cfg, s, es), c)
    ensures c in s.held ==> c in Run(cfg, s, es).held
    decreases |es|
  {
    if es != [] {
      var s' := Next(cfg, s, es[0]);
      LostStep(cfg, s, es[0], c);
      InvPreserved(cfg, s, es[0]);
      RecordStep(cfg, s, es[0], c);
      LostHolds(s, c);
      LostHolds(s', c);
      LostForGood(cfg, s', es[1..], c);
    }
  }

  /**
   The slot of a registered execution can still be given back exactly when its record is
   not an orphan, and not an entry that reports to wait while no run is left.
   */
  lemma SlotComesBackIff(cfg: Config, s: State, c: Call)
    requires Reachable(cfg, s) && c in s.records && c in s.held
    ensures CanComeBack(cfg, s, c) <==> !Lost(s, c)
  {
    ReachableInv(cfg, s);
    if Lost(s, c) {
      forall es | Valid(cfg, s, es) ensures c in Run(cfg, s, es).held {
        LostForGood(cfg, s, es, c);
      }
    } else {
      SettlingReleases(cfg, s, c);
    }
  }

  lemma CallbackReleases(cfg: Config, s: State, c: Call)
    requires CallbackPending(s, c)
    ensures CanComeBack(cfg, s, c)
  {
    var es := [Settled(c)];
    var end := Next(cfg, s, Settled(c));
    assert es[1..] == [] && Valid(cfg, end, []) && Run(cfg, end, []) == end;
    assert Valid(cfg, s, es) && Run(cfg, s, es) == end;
  }

  lemma StepThenCallback(cfg: Config, s: State, e: Event, c: Call)
    requires Enabled(cfg, s, e) && CallbackPending(Next(cfg, s, e), c)
    ensures CanComeBack(cfg, s, c)
  {
    RunTwo(cfg, s, e, Settled(c));
    assert c !in Run(cfg, s, [e, Settled(c)]).held;
  }

  /** Any run of the execution finalises it; without one, a stop settles what does not wait. */
  lemma SettlingReleases(cfg: Config, s: State, c: Call)
    requires Inv(s) && c in s.records && c in s.held && !Lost(s, c)
    ensures CanComeBack(cfg, s, c)
  {
    assert c in s.held <==> Holds(s, c);
    var id := s.records[c].id;
    if s.records[c].outcome != Unsettled {
      CallbackReleases(cfg, s, c);
    } else if d :| d in s.records && s.records[d].id == id && !s.records[d].over {
      StepThenCallback(cfg, s, Finalized(d), c);
    } else {
      StepThenCallback(cfg, s, Stopped(id), c);
    }
  }

  lemma RunTwo(cfg: Config, s: State, a: Event, b: Event)
    requires Enabled(cfg, s, a) && Enabled(cfg, Next(cfg, s, a), b)
    ensures Valid(cfg, s, [a, b]) && Run(cfg, s, [a, b]) == Next(cfg, Next(cfg, s, a), b)
  {
    var s1 := Next(cfg, s, a);
    var s2 := Next(cfg, s1, b);
    assert Valid(cfg, s2, []) && Run(cfg, s2, []) == s2;
    assert Valid(cfg, s1, [b]) && Run(cfg, s1, [b]) == Run(cfg, s2, [b][1..]);
    assert [a, b][1..] == [b];
  }

  /**
   The ways to take the entry of `c` out of the map from outside: a stop that finds it
   waiting, a shutdown, a registration that replaces it, and the callback of another
   record of the same execution.
   */
  predicate Displaces(cfg: Config, s: State, e: Event, c: Call)
    requires Enabled(cfg, s, e) && c in s.records
  {
    match e
    case Stopped(id) => id == s.records[c].id && s.records[c].status == Waiting
    case Dropped(id) => id == s.records[c].id
    case Registered(d, _) => s.calls[d].id == Some(s.records[c].id)
    case Settled(d) => s.records[d].id == s.records[c].id && s.records[d].status != Waiting
    case _ => false
  }

  /** A record becomes an orphan exactly when it is displaced before its promise has settled. */
  lemma OrphanedExactlyWhen(cfg: Config, s: State, e: Event, c: Call)
    requires Inv(s) && Enabled(cfg, s, e) && c in s.records && !Orphaned(s, c)
    ensures Orphaned(Next(cfg, s, e), c) <==> s.records[c].outcome == Unsettled && Displaces(cfg, s, e, c)
  {
    if IsCallStep(e) {
      CallStepFrame(cfg, s, e);
    } else if e.Registered? {
      OrphanedByRegistration(cfg, s, e, c);
    } else if e.Settled? {
      OrphanedByCallback(cfg, s, e, c);
    } else {
      OrphanedByRemoval(cfg, s, e, c);
    }
  }

  lemma OrphanedByRegistration(cfg: Config, s: State, e: Event, c: Call)
    requires SlotsOk(s) && MapOk(s) && Enabled(cfg, s, e) && e.Registered? && c in s.records && !Orphaned(s, c)
    ensures Orphaned(Next(cfg, s, e), c) <==> s.records[c].outcome == Unsettled && Displaces(cfg, s, e, c)
  {
    assert c != e.c;
  }

  lemma OrphanedByCallback(cfg: Config, s: State, e: Event, c: Call)
    requires MapOk(s) && Enabled(cfg, s, e) && e.Settled? && c in s.records && !Orphaned(s, c)
    ensures Orphaned(Next(cfg, s, e), c) <==> s.records[c].outcome == Unsettled && Displaces(cfg, s, e, c)
  {
  }

  lemma OrphanedByRemoval(cfg: Config, s: State, e: Event, c: Call)
    requires MapOk(s) && Enabled(cfg, s, e) && c in s.records && !Orphaned(s, c)
    requires !e.Registered? && !e.Settled? && !IsCallStep(e)
    ensures Orphaned(Next(cfg, s, e), c) <==> s.records[c].outcome == Unsettled && Displaces(cfg, s, e, c)
  {
  }

  // ---------- what a resume inherits ----------

  predicate AlwaysActive(cfg: Config, s: State, es: seq<Event>, id: Id)
    requires Valid(cfg, s, es)
    decreases |es|
  {
    id in s.active && (es == [] || AlwaysActive(cfg, Next(cfg, s, es[0]), es[1..], id))
  }

  function LastResponse(es: seq<Event>, id: Id, attached: Option<nat>): Option<nat> {
    if es == [] then attached
    else LastResponse(es[1..], id,
           if es[0].ResponseAttached? && es[0].id == id then Some(es[0].response) else attached)
  }

  /** `e` leaves the start time of `id` alone and its response promise too, unless it attaches one. */
  predicate Inherits(s: State, s': State, e: Event, id: Id) {
    var (before, after) := (Current(s, id), Current(s', id));
    before.Some? && after.Some? && after.value.startedAt == before.value.startedAt &&
    after.value.responsePromise
    == if e.ResponseAttached? && e.id == id then Some(e.response) else before.value.responsePromise
  }

  lemma InheritanceStep(cfg: Config, s: State, e: Event, id: Id)
    requires SlotsOk(s) && MapOk(s) && Enabled(cfg, s, e) && id in s.active && id in Next(cfg, s, e).active
    ensures Inherits(s, Next(cfg, s, e), e, id)
  {
    if IsCallStep(e) {
      CallStepFrame(cfg, s, e);
    } else if e.Registered? {
      InheritanceOfRegistration(cfg, s, e, id);
    } else if e.Settled? {
      InheritanceOfCallback(s, e.c, id);
    } else {
      InheritanceOfRecords(cfg, s, e, id);
    }
  }

  lemma InheritanceOfRegistration(cfg: Config, s: State, e: Event, id: Id)
    requires SlotsOk(s) && MapOk(s) && Enabled(cfg, s, e) && id in s.active && e.Registered?
    ensures Inherits(s, Next(cfg, s, e), e, id)
  {
    assert e.c !in s.records;
  }

  lemma InheritanceOfCallback(s: State, c: Call, id: Id)
    requires MapOk(s) && c in s.records && id in s.active && id in DoSettled(s, c).active
    ensures Inherits(s, DoSettled(s, c), Settled(c), id)
  {
  }

  lemma InheritanceOfRecords(cfg: Config, s: State, e: Event, id: Id)
    requires MapOk(s) && Enabled(cfg, s, e) && id in s.active && id in Next(cfg, s, e).active
    requires !IsCallStep(e) && !e.Registered? && !e.Settled?
    ensures Inherits(s, Next(cfg, s, e), e, id)
  {
  }

  /**
   However often an execution waits and is resumed in this process, it keeps the start
   time of its first registration and the response promise attached last.
   */
  lemma {:induction false} ResumesInherit(cfg: Config, s: State, es: seq<Event>, id: Id)
    requires Inv(s) && Valid(cfg, s, es) && AlwaysActive(cfg, s, es, id)
    ensures
      var (first, last) := (Current(s, id), Current(Run(cfg, s, es), id));
      first.Some? && last.Some? && last.value.startedAt == first.value.startedAt &&
      last.value.responsePromise == LastResponse(es, id, first.value.responsePromise)
    decreases |es|
  {
    if es != [] {
      var s' := Next(cfg, s, es[0]);
      InheritanceStep(cfg, s, es[0], id);
      InvPreserved(cfg, s, es[0]);
      ResumesInherit(cfg, s', es[1..], id);
    }
  }

  // ---------- cancelling shutdown ----------

  /** `stopExecution` for every id, in the order `Object.keys` lists them. */
  function StopAll(s: State, ids: seq<Id>): State
    decreases |ids|
  {
    if ids == [] then s else StopAll(DoStopped(s, ids[0]), ids[1..])
  }

  predicate OnItsWayOut(s: State, id: Id) {
    id in s.active && s.active[id] in s.records && CallbackPending(s, s.active[id]) &&
    s.records[s.active[id]].status != Waiting
  }

  lemma {:induction false} StopAllLeavesPending(cfg: Config, s: State, ids: seq<Id>, gone: set<Id>)
    requires Inv(s)
    requires forall id :: id in s.active && id in gone ==> OnItsWayOut(s, id)
    ensures Inv(StopAll(s, ids))
    ensures forall id :: id in StopAll(s, ids).active && (id in gone || id in ids) ==> OnItsWayOut(StopAll(s, ids), id)
    ensures StopAll(s, ids).active.Keys <= s.active.Keys
    decreases |ids|
  {
    if ids != [] {
      var s' := Next(cfg, s, Stopped(ids[0]));
      InvPreserved(cfg, s, Stopped(ids[0]));
      forall id | id in s'.active && id in gone + {ids[0]} ensures OnItsWayOut(s', id) {
        StopStep(cfg, s, ids[0], id);
      }
      StopAllLeavesPending(cfg, s', ids[1..], gone + {ids[0]});
      StopShrinks(cfg, s, ids[0]);
    }
  }

  lemma StopShrinks(cfg: Config, s: State, id: Id)
    ensures DoStopped(s, id).active.Keys <= s.active.Keys
  {
  }

  lemma StopStep(cfg: Config, s: State, stopped: Id, id: Id)
    requires Inv(s) && id in DoStopped(s, stopped).active
    requires id == stopped || OnItsWayOut(s, id)
    ensures OnItsWayOut(DoStopped(s, stopped), id)
  {
    if id != stopped && stopped in s.active {
      assert s.active[id] != s.active[stopped];
    }
  }

  /** Only callbacks run. */
  predicate OnlyCallbacks(es: seq<Event>) {
    forall e :: e in es ==> e.Settled?
  }

  predicate SameEntry(s: State, s': State, id: Id) {
    id in s.active && s.active[id] in s.records &&
    id in s'.active && s'.active[id] == s.active[id] && s.active[id] in s'.records &&
    var (before, after) := (s.records[s.active[id]], s'.records[s.active[id]]);
    after.status == before.status && after.outcome == before.outcome
  }

  lemma CallbackKeepsEntry(s: State, c: Call, id: Id)
    requires MapOk(s) && c in s.records
    ensures id in DoSettled(s, c).active ==> SameEntry(s, DoSettled(s, c), id)
  {
  }

  lemma {:induction false} CallbacksKeepEntries(cfg: Config, s: State, es: seq<Event>, id: Id)
    requires Inv(s) && Valid(cfg, s, es) && OnlyCallbacks(es)
    ensures id in Run(cfg, s, es).active ==> SameEntry(s, Run(cfg, s, es), id)
    decreases |es|
  {
    if es != [] {
      assert es[0] in es;
      var s' := Next(cfg, s, es[0]);
      InvPreserved(cfg, s, es[0]);
      CallbackKeepsEntry(s, es[0].c, id);
      CallbacksKeepEntries(cfg, s', es[1..], id);
    }
  }

  /**
   In regular mode, cancelling every active execution and letting the callbacks run, in
   any order, empties the map: the loop of `shutdown` ends although no workflow
   completed by itself.
   */
  lemma ShutdownEmptiesTheMap(cfg: Config, s: State, ids: seq<Id>, callbacks: seq<Event>)
    requires Reachable(cfg, s) && (forall id :: id in s.active ==> id in ids)
    requires Valid(cfg, StopAll(s, ids), callbacks) && OnlyCallbacks(callbacks)
    requires forall c :: !CallbackPending(Run(cfg, StopAll(s, ids), callbacks), c)
    ensures Run(cfg, StopAll(s, ids), callbacks).active == map[]
  {
    ReachableInv(cfg, s);
    StopAllLeavesPending(cfg, s, ids, {});
    var stopped := StopAll(s, ids);
    var end := Run(cfg, stopped, callbacks);
    RunInv(cfg, stopped, callbacks);
    forall id | id in end.active ensures CallbackPending(end, end.active[id]) {
      CallbacksKeepEntries(cfg, stopped, callbacks, id);
      assert OnItsWayOut(stopped, id);
    }
    assert forall id :: id !in end.active;
  }

  function PendingCallbacks(s: State): set<Call> {
    set c | c in s.records && CallbackPending(s, c)
  }

  /** From every state the pending callbacks can run to the end. */
  lemma {:induction false} CallbacksRunOut(cfg: Config, s: State) returns (callbacks: seq<Event>)
    ensures Valid(cfg, s, callbacks) && OnlyCallbacks(callbacks)
    ensures forall c :: !CallbackPending(Run(cfg, s, callbacks), c)
    decreases |PendingCallbacks(s)|
  {
    if PendingCallbacks(s) == {} {
      callbacks := [];
      assert forall c :: CallbackPending(s, c) ==> c in PendingCallbacks(s);
    } else {
      var c :| c in PendingCallbacks(s);
      var s' := Next(cfg, s, Settled(c));
      assert PendingCallbacks(s') == PendingCallbacks(s) - {c};
      var rest := CallbacksRunOut(cfg, s');
      callbacks := [Settled(c)] + rest;
      assert callbacks[1..] == rest;
    }
  }

  /**
   Every running execution can lose its slot for good: it reports `waiting` and is
   stopped before it is finalised.
   */
  lemma RunningSlotCanBeLost(cfg: Config, s: State, id: Id)
    requires Reachable(cfg, s) && id in s.active && s.active[id] in s.held
    requires s.active[id] in s.records && s.records[s.active[id]].outcome == Unsettled && HasRun(s, id)
    ensures
      var es := [StatusSet(id, Waiting), Stopped(id)];
      Valid(cfg, s, es) &&
      var end := Run(cfg, s, es);
      id !in end.active && s.active[id] in end.held && !CanComeBack(cfg, end, s.active[id])
  {
    ReachableInv(cfg, s);
    var c := s.active[id];
    assert c in s.held <==> Holds(s, c);
    assert IsLive(s, c);
    RunTwo(cfg, s, StatusSet(id, Waiting), Stopped(id));
    var es := [StatusSet(id, Waiting), Stopped(id)];
    var end := Run(cfg, s, es);
    RunInv(cfg, s, es);
    assert Orphaned(end, c);
    forall more | Valid(cfg, end, more) ensures c in Run(cfg, end, more).held {
      OrphansKeepTheirSlot(cfg, end, more, c);
    }
  }
}
