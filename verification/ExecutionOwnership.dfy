/**
 Who drives an execution.  A run saves its row as `waiting` before it finalises its
 record (packages/cli/src/execution-lifecycle/execution-lifecycle-hooks.ts and
 packages/cli/src/workflow-runner.ts), so a resume can claim the row of an execution
 that is still being driven.  Ownership is exclusive exactly as long as nobody does.

 A run drives its execution until it ends, even when its record has been taken out of
 the map: it still finalises, and it does so by execution id.
 */
module ExecutionOwnership {
  import opened Basics
  import opened ExecutionProtocol
  import opened ExecutionTheorems
  import opened ExecutionLifecycle

  /** A record that is live, or whose run at least goes on. */
  predicate GoesOn(s: State, c: Call) {
    c in s.records && (!s.records[c].over || IsLive(s, c))
  }

  /** A call that has created or claimed the row, or a record that goes on. */
  predicate Owns(s: State, c: Call, id: Id) {
    (c in s.calls && HasClaim(s.calls[c]) && s.calls[c].id == Some(id)) ||
    (GoesOn(s, c) && s.records[c].id == id)
  }

  ghost predicate Exclusive(s: State) {
    forall c, d, id :: Owns(s, c, id) && Owns(s, d, id) ==> c == d
  }

  // ---------- one owner ----------

  /** Creating a row and winning the compare-and-swap are the only ways to become an owner. */
  predicate IsClaim(s: State, e: Event) {
    e.Created? || (e.Updated? && Wins(s, e.c))
  }

  function ClaimedId(s: State, e: Event): Id
    requires IsClaim(s, e)
  {
    if e.Created? then e.id else s.calls[e.c].id.value
  }

  /** A claim of an execution that is still being driven. */
  ghost predicate ClaimsEarly(s: State, e: Event) {
    IsClaim(s, e) && exists d :: Owns(s, d, ClaimedId(s, e))
  }

  lemma OwnersOnlyShrinkByCallStep(cfg: Config, s: State, e: Event, d: Call, id: Id)
    requires CallsOk(s) && Enabled(cfg, s, e) && IsCallStep(e)
    requires !IsClaim(s, e) && Owns(Next(cfg, s, e), d, id)
    ensures Owns(s, d, id)
  {
    CallStepFrame(cfg, s, e);
  }

  lemma OwnersOnlyShrinkByRegistration(cfg: Config, s: State, e: Event, d: Call, id: Id)
    requires MapOk(s) && CallsOk(s) && s.calls.Keys !! s.records.Keys && Enabled(cfg, s, e) && e.Registered?
    requires Owns(Next(cfg, s, e), d, id)
    ensures Owns(s, d, id)
  {
    assert AddOk(s.calls[e.c]);
  }

  lemma OwnersOnlyShrinkByRecords(cfg: Config, s: State, e: Event, d: Call, id: Id)
    requires MapOk(s) && Enabled(cfg, s, e) && !IsCallStep(e) && !e.Registered?
    requires Owns(Next(cfg, s, e), d, id)
    ensures Owns(s, d, id)
  {
    CallStepFrame(cfg, s, e);
    if e.Settled? || e.Dropped? {
      assert d in s.records ==> Next(cfg, s, e).records[d].over == s.records[d].over;
    }
  }

  lemma OwnersOnlyShrink(cfg: Config, s: State, e: Event, d: Call, id: Id)
    requires Inv(s) && Enabled(cfg, s, e)
    requires !IsClaim(s, e) && Owns(Next(cfg, s, e), d, id)
    ensures Owns(s, d, id)
  {
    if IsCallStep(e) {
      OwnersOnlyShrinkByCallStep(cfg, s, e, d, id);
    } else if e.Registered? {
      OwnersOnlyShrinkByRegistration(cfg, s, e, d, id);
    } else {
      OwnersOnlyShrinkByRecords(cfg, s, e, d, id);
    }
  }

  lemma ClaimMakesOneOwner(cfg: Config, s: State, e: Event, d: Call, id: Id)
    requires s.calls.Keys !! s.records.Keys && CallsOk(s) && Enabled(cfg, s, e) && IsClaim(s, e)
    ensures Owns(Next(cfg, s, e), d, id) <==> Owns(s, d, id) || (d == e.c && id == ClaimedId(s, e))
    ensures Owns(s, d, ClaimedId(s, e)) ==> d != e.c
  {
    CallStepFrame(cfg, s, e);
    assert AddOk(s.calls[e.c]);
  }

  /** One step gives an execution a second owner exactly when it claims an owned execution. */
  lemma StepExclusiveIff(cfg: Config, s: State, e: Event)
    requires Inv(s) && Exclusive(s) && Enabled(cfg, s, e)
    ensures Exclusive(Next(cfg, s, e)) <==> !ClaimsEarly(s, e)
  {
    var s' := Next(cfg, s, e);
    if IsClaim(s, e) {
      forall d, id ensures Owns(s', d, id) <==> Owns(s, d, id) || (d == e.c && id == ClaimedId(s, e)) {
        ClaimMakesOneOwner(cfg, s, e, d, id);
      }
      if d :| Owns(s, d, ClaimedId(s, e)) {
        ClaimMakesOneOwner(cfg, s, e, d, 0);
        assert Owns(s', d, ClaimedId(s, e)) && Owns(s', e.c, ClaimedId(s, e));
      }
    } else {
      forall d, id | Owns(s', d, id) ensures Owns(s, d, id) {
        OwnersOnlyShrink(cfg, s, e, d, id);
      }
    }
  }

  ghost predicate AlwaysExclusive(cfg: Config, s: State, es: seq<Event>)
    requires Valid(cfg, s, es)
    decreases |es|
  {
    Exclusive(s) && (es == [] || AlwaysExclusive(cfg, Next(cfg, s, es[0]), es[1..]))
  }

  ghost predicate NeverClaimsEarly(cfg: Config, s: State, es: seq<Event>)
    requires Valid(cfg, s, es)
    decreases |es|
  {
    es == [] || (!ClaimsEarly(s, es[0]) && NeverClaimsEarly(cfg, Next(cfg, s, es[0]), es[1..]))
  }

  /**
   Two calls or records drive one execution at some point of a run if and only if
   somebody claims a row before the run behind an earlier record has ended, or while
   another call still holds it.
   */
  lemma {:induction false} OneOwnerIff(cfg: Config, s: State, es: seq<Event>)
    requires Inv(s) && Exclusive(s) && Valid(cfg, s, es)
    ensures AlwaysExclusive(cfg, s, es) <==> NeverClaimsEarly(cfg, s, es)
    decreases |es|
  {
    if es != [] {
      var next := Next(cfg, s, es[0]);
      InvPreserved(cfg, s, es[0]);
      StepExclusiveIff(cfg, s, es[0]);
      if Exclusive(next) {
        OneOwnerIff(cfg, next, es[1..]);
      } else {
        assert !AlwaysExclusive(cfg, next, es[1..]);
      }
    }
  }

  lemma OneOwnerFromTheStart(cfg: Config, s: State, es: seq<Event>)
    requires Initial(s) && Valid(cfg, s, es)
    ensures AlwaysExclusive(cfg, s, es) <==> NeverClaimsEarly(cfg, s, es)
  {
    InitialInv(s);
    OneOwnerIff(cfg, s, es);
  }

  // ---------- what a registration replaces ----------

  /**
   A registration replaces only a record that waits and whose promise has settled,
   exactly when that record is not live any more.
   */
  lemma ReplacesOnlyWaitingIff(cfg: Config, s: State, c: Call, now: int)
    requires Inv(s) && Enabled(cfg, s, Registered(c, now))
    ensures
      var id := s.calls[c].id.value;
      var current := Current(s, id);
      current.Some? ==>
        (current.value.outcome != Unsettled && current.value.status == Waiting <==> !IsLive(s, s.active[id]))
  {
    var id := s.calls[c].id.value;
    if Current(s, id).Some? {
      assert s.active[id] in s.records && s.active[id] !in s.calls;
    }
  }

  lemma ExclusiveReplacesOnlyWaiting(cfg: Config, s: State, c: Call, now: int)
    requires Inv(s) && Exclusive(s) && Enabled(cfg, s, Registered(c, now))
    ensures
      var current := Current(s, s.calls[c].id.value);
      current.Some? ==> current.value.outcome != Unsettled && current.value.status == Waiting
  {
    var id := s.calls[c].id.value;
    assert AddOk(s.calls[c]);
    assert Owns(s, c, id);
    ReplacesOnlyWaitingIff(cfg, s, c, now);
    if Current(s, id).Some? {
      assert s.active[id] != c && !Owns(s, s.active[id], id);
    }
  }

  // ---------- what a callback removes ----------

  /** The callback of `c`, when it runs, deletes the entry of another record. */
  predicate Strikes(s: State, c: Call) {
    c in s.records && CallbackPending(s, c) && s.records[c].status != Waiting &&
    s.records[c].id in s.active && !InMap(s, c)
  }

  lemma StrikesWhenItRuns(cfg: Config, s: State, c: Call)
    requires Enabled(cfg, s, Settled(c))
    ensures Strikes(s, c)
       <==> exists id :: id in s.active && s.active[id] != c && id !in Next(cfg, s, Settled(c)).active
  {
    var id := s.records[c].id;
    if Strikes(s, c) {
      assert id in s.active && s.active[id] != c && id !in Next(cfg, s, Settled(c)).active;
    }
  }

  ghost predicate NoneStrikes(s: State) {
    forall c :: !Strikes(s, c)
  }

  /** Registering while the callback of an earlier record of the execution will still delete the entry. */
  ghost predicate Overtakes(s: State, e: Event) {
    e.Registered? && e.c in s.calls &&
    exists c :: c in s.records && CallbackPending(s, c) && s.records[c].status != Waiting &&
                s.calls[e.c].id == Some(s.records[c].id)
  }

  lemma StrikeComesFromOvertaking(cfg: Config, s: State, e: Event, c: Call)
    requires Inv(s) && Enabled(cfg, s, e) && !Overtakes(s, e) && Strikes(Next(cfg, s, e), c)
    ensures Strikes(s, c)
  {
    if IsCallStep(e) {
      CallStepFrame(cfg, s, e);
    } else if e.Registered? {
      assert c != e.c && CallbackPending(s, c);
    } else if e.Settled? {
      StrikeBeforeCallback(s, e.c, c);
    } else {
      StrikeBeforeRecordStep(cfg, s, e, c);
    }
  }

  lemma StrikeBeforeCallback(s: State, d: Call, c: Call)
    requires MapOk(s) && d in s.records && Strikes(DoSettled(s, d), c)
    ensures Strikes(s, c)
  {
  }

  lemma StrikeBeforeRecordStep(cfg: Config, s: State, e: Event, c: Call)
    requires MapOk(s) && Enabled(cfg, s, e) && !IsCallStep(e) && !e.Registered? && !e.Settled?
    requires Strikes(Next(cfg, s, e), c)
    ensures Strikes(s, c)
  {
  }

  /** One step lets a callback delete a foreign entry exactly when it overtakes it. */
  lemma StepStrikesIff(cfg: Config, s: State, e: Event)
    requires Inv(s) && NoneStrikes(s) && Enabled(cfg, s, e)
    ensures NoneStrikes(Next(cfg, s, e)) <==> !Overtakes(s, e)
  {
    var s' := Next(cfg, s, e);
    if Overtakes(s, e) {
      var c :| c in s.records && CallbackPending(s, c) && s.records[c].status != Waiting &&
               s.calls[e.c].id == Some(s.records[c].id);
      assert Strikes(s', c);
    } else {
      forall c | Strikes(s', c) ensures false {
        StrikeComesFromOvertaking(cfg, s, e, c);
      }
    }
  }

  ghost predicate NeverStrikes(cfg: Config, s: State, es: seq<Event>)
    requires Valid(cfg, s, es)
    decreases |es|
  {
    NoneStrikes(s) && (es == [] || NeverStrikes(cfg, Next(cfg, s, es[0]), es[1..]))
  }

  ghost predicate NeverOvertakes(cfg: Config, s: State, es: seq<Event>)
    requires Valid(cfg, s, es)
    decreases |es|
  {
    es == [] || (!Overtakes(s, es[0]) && NeverOvertakes(cfg, Next(cfg, s, es[0]), es[1..]))
  }

  /**
   Callbacks delete by execution id.  Throughout a run none of them could delete the
   entry of another record if and only if no registration overtakes a pending one.
   */
  lemma {:induction false} CallbacksRemoveOnlyThemselvesIff(cfg: Config, s: State, es: seq<Event>)
    requires Inv(s) && NoneStrikes(s) && Valid(cfg, s, es)
    ensures NeverStrikes(cfg, s, es) <==> NeverOvertakes(cfg, s, es)
    decreases |es|
  {
    if es != [] {
      var next := Next(cfg, s, es[0]);
      InvPreserved(cfg, s, es[0]);
      StepStrikesIff(cfg, s, es[0]);
      if NoneStrikes(next) {
        CallbacksRemoveOnlyThemselvesIff(cfg, next, es[1..]);
      } else {
        assert !NeverStrikes(cfg, next, es[1..]);
      }
    }
  }

  /** With one owner nothing is overtaken. */
  lemma ExclusiveNeverOvertakes(cfg: Config, s: State, e: Event)
    requires Inv(s) && Exclusive(s) && Enabled(cfg, s, e)
    ensures !Overtakes(s, e)
  {
    if e.Registered? {
      assert AddOk(s.calls[e.c]);
      assert Owns(s, e.c, s.calls[e.c].id.value);
      forall c | c in s.records && CallbackPending(s, c) && s.records[c].status != Waiting
        ensures s.calls[e.c].id != Some(s.records[c].id)
      {
        assert GoesOn(s, c) && Owns(s, c, s.records[c].id) && c != e.c;
      }
    }
  }

  /** Nor is any slot lost, except by stopping or dropping what waits. */
  lemma ExclusiveOrphansOnlyByRemoval(cfg: Config, s: State, e: Event, c: Call)
    requires Inv(s) && Exclusive(s) && NoneStrikes(s) && Enabled(cfg, s, e) && c in s.records
    requires !Orphaned(s, c) && Orphaned(Next(cfg, s, e), c)
    ensures e.Dropped? || (e.Stopped? && s.records[c].status == Waiting)
  {
    assert e.Settled? ==> !Strikes(s, e.c);
    OrphanedExactlyWhen(cfg, s, e, c);
    if e.Registered? {
      ExclusiveReplacesOnlyWaiting(cfg, s, e.c, e.now);
    }
  }

  /** Over a run: without early claims every callback removes its own entry only. */
  lemma {:induction false} OneOwnerNeverStrikes(cfg: Config, s: State, es: seq<Event>)
    requires Inv(s) && Exclusive(s) && Valid(cfg, s, es) && NeverClaimsEarly(cfg, s, es)
    ensures NeverOvertakes(cfg, s, es)
    decreases |es|
  {
    if es != [] {
      InvPreserved(cfg, s, es[0]);
      StepExclusiveIff(cfg, s, es[0]);
      ExclusiveNeverOvertakes(cfg, s, es[0]);
      OneOwnerNeverStrikes(cfg, Next(cfg, s, es[0]), es[1..]);
    }
  }

  // ---------- what a finalisation settles ----------

  /** The run of `c` goes on, and another record has taken the place of its own. */
  predicate Strays(s: State, c: Call) {
    c in s.records && !s.records[c].over && s.records[c].id in s.active && !InMap(s, c)
  }

  /** Such a run settles, when it finalises, the promise of the other record and not its own. */
  lemma StraysWhenItFinalises(cfg: Config, s: State, c: Call, d: Call)
    requires Inv(s) && Enabled(cfg, s, Finalized(c)) && d in s.records && d != c
    ensures
      var s' := Next(cfg, s, Finalized(c));
      (s'.records[d].outcome != s.records[d].outcome
       <==> Strays(s, c) && s.active[s.records[c].id] == d && s.records[d].outcome == Unsettled) &&
      (Strays(s, c) ==> s'.records[c].outcome == s.records[c].outcome)
  {
  }

  ghost predicate NoneStrays(s: State) {
    forall c :: !Strays(s, c)
  }

  /** Registering while the run behind an earlier record of the execution is still to be finalised. */
  ghost predicate OutrunsRun(s: State, e: Event) {
    e.Registered? && e.c in s.calls &&
    exists c :: c in s.records && !s.records[c].over && s.calls[e.c].id == Some(s.records[c].id)
  }

  lemma StrayBeforeRecordStep(cfg: Config, s: State, e: Event, c: Call)
    requires MapOk(s) && Enabled(cfg, s, e) && !IsCallStep(e) && !e.Registered?
    requires Strays(Next(cfg, s, e), c)
    ensures Strays(s, c)
  {
    CallStepFrame(cfg, s, e);
  }

  lemma StrayComesFromOutrunning(cfg: Config, s: State, e: Event, c: Call)
    requires Inv(s) && Enabled(cfg, s, e) && !OutrunsRun(s, e) && Strays(Next(cfg, s, e), c)
    ensures Strays(s, c)
  {
    if IsCallStep(e) {
      CallStepFrame(cfg, s, e);
    } else if e.Registered? {
      assert c != e.c && c in s.records && !s.records[c].over;
    } else {
      StrayBeforeRecordStep(cfg, s, e, c);
    }
  }

  /** One step lets a run settle the promise of another record exactly when it registers that record too early. */
  lemma StepStraysIff(cfg: Config, s: State, e: Event)
    requires Inv(s) && NoneStrays(s) && Enabled(cfg, s, e)
    ensures NoneStrays(Next(cfg, s, e)) <==> !OutrunsRun(s, e)
  {
    var s' := Next(cfg, s, e);
    if OutrunsRun(s, e) {
      var c :| c in s.records && !s.records[c].over && s.calls[e.c].id == Some(s.records[c].id);
      assert c != e.c;
      assert Strays(s', c);
    } else {
      forall c | Strays(s', c) ensures false {
        StrayComesFromOutrunning(cfg, s, e, c);
      }
    }
  }

  ghost predicate NeverStrays(cfg: Config, s: State, es: seq<Event>)
    requires Valid(cfg, s, es)
    decreases |es|
  {
    NoneStrays(s) && (es == [] || NeverStrays(cfg, Next(cfg, s, es[0]), es[1..]))
  }

  ghost predicate NeverOutrunsRun(cfg: Config, s: State, es: seq<Event>)
    requires Valid(cfg, s, es)
    decreases |es|
  {
    es == [] || (!OutrunsRun(s, es[0]) && NeverOutrunsRun(cfg, Next(cfg, s, es[0]), es[1..]))
  }

  /**
   Runs finalise by execution id.  Throughout a run of the process none of them could
   settle the promise of another record if and only if no record is registered while the
   run behind an earlier record of the execution is still to be finalised.
   */
  lemma {:induction false} FinalisesOnlyItselfIff(cfg: Config, s: State, es: seq<Event>)
    requires Inv(s) && NoneStrays(s) && Valid(cfg, s, es)
    ensures NeverStrays(cfg, s, es) <==> NeverOutrunsRun(cfg, s, es)
    decreases |es|
  {
    if es != [] {
      var next := Next(cfg, s, es[0]);
      InvPreserved(cfg, s, es[0]);
      StepStraysIff(cfg, s, es[0]);
      if NoneStrays(next) {
        FinalisesOnlyItselfIff(cfg, next, es[1..]);
      } else {
        assert !NeverStrays(cfg, next, es[1..]);
      }
    }
  }

  lemma ExclusiveNeverOutrunsRun(cfg: Config, s: State, e: Event)
    requires Inv(s) && Exclusive(s) && Enabled(cfg, s, e)
    ensures !OutrunsRun(s, e)
  {
    if e.Registered? {
      assert AddOk(s.calls[e.c]);
      assert Owns(s, e.c, s.calls[e.c].id.value);
      forall c | c in s.records && !s.records[c].over ensures s.calls[e.c].id != Some(s.records[c].id) {
        assert Owns(s, c, s.records[c].id) && c != e.c;
      }
    }
  }

  /** Without early claims, every run finalises its own record or none. */
  lemma {:induction false} OneOwnerNeverStrays(cfg: Config, s: State, es: seq<Event>)
    requires Inv(s) && Exclusive(s) && Valid(cfg, s, es) && NeverClaimsEarly(cfg, s, es)
    ensures NeverOutrunsRun(cfg, s, es)
    decreases |es|
  {
    if es != [] {
      InvPreserved(cfg, s, es[0]);
      StepExclusiveIff(cfg, s, es[0]);
      ExclusiveNeverOutrunsRun(cfg, s, es[0]);
      OneOwnerNeverStrays(cfg, Next(cfg, s, es[0]), es[1..]);
    }
  }

  // ---------- an early resume ----------

  /** A run that waits: it reports so and saves its row, and is not finalised yet. */
  function Waits(id: Id): seq<Event> {
    [StatusSet(id, Waiting), RowWritten(id, Waiting)]
  }

  /** The same, but it is stopped in between, for instance by its cancel timer. */
  function WaitsStopped(id: Id): seq<Event> {
    [StatusSet(id, Waiting), Stopped(id)] + [RowWritten(id, Waiting)]
  }

  /** Somebody resumes it. */
  function ResumedBy(c: Call, id: Id, now: int): seq<Event> {
    [BeginResume(c, Throttled, id, Waiting), Reserved(c), Updated(c), Registered(c, now)]
  }

  /** The first run is finalised at last, and the callback runs. */
  function FinalisedLate(d: Call, c: Call): seq<Event> {
    [Finalized(d), Settled(c)]
  }

  /** The record `d` holds a slot, its run goes on and its promise has not settled. */
  predicate Holding(s: State, d: Call, id: Id) {
    d in s.records && s.records[d].id == id && s.records[d].outcome == Unsettled &&
    !s.records[d].callbackRan && !s.records[d].over && d in s.held
  }

  /** And it is the entry of its execution. */
  predicate Drives(s: State, d: Call, id: Id) {
    Holding(s, d, id) && InMap(s, d)
  }

  lemma WaitsStep(cfg: Config, s: State, d: Call, id: Id)
    requires Drives(s, d, id) && id in s.rows
    ensures Valid(cfg, s, Waits(id))
    ensures
      var s' := Run(cfg, s, Waits(id));
      Holding(s', d, id) && RowIs(s', id, Waiting) && s'.calls == s.calls && s'.records.Keys == s.records.Keys
  {
    assert IsLive(s, d);
    RunTwo(cfg, s, StatusSet(id, Waiting), RowWritten(id, Waiting));
  }

  lemma StoppedStep(cfg: Config, s: State, d: Call, id: Id)
    requires Drives(s, d, id) && id in s.rows
    ensures
      var es := [StatusSet(id, Waiting), Stopped(id)];
      Valid(cfg, s, es) &&
      var s' := Run(cfg, s, es);
      Holding(s', d, id) && id in s'.rows && s'.calls == s.calls && s'.records.Keys == s.records.Keys
  {
    assert IsLive(s, d);
    RunTwo(cfg, s, StatusSet(id, Waiting), Stopped(id));
  }

  lemma WaitsStoppedStep(cfg: Config, s: State, d: Call, id: Id)
    requires Drives(s, d, id) && id in s.rows
    ensures Valid(cfg, s, WaitsStopped(id))
    ensures
      var s' := Run(cfg, s, WaitsStopped(id));
      Holding(s', d, id) && RowIs(s', id, Waiting) && s'.calls == s.calls && s'.records.Keys == s.records.Keys
  {
    StoppedStep(cfg, s, d, id);
    var s1 := Run(cfg, s, [StatusSet(id, Waiting), Stopped(id)]);
    var save := [RowWritten(id, Waiting)];
    var s2 := Next(cfg, s1, RowWritten(id, Waiting));
    assert save[1..] == [] && Valid(cfg, s2, []) && Run(cfg, s2, []) == s2;
    assert Valid(cfg, s1, save) && Run(cfg, s1, save) == s2;
    RunAppend(cfg, s, [StatusSet(id, Waiting), Stopped(id)], save);
  }

  lemma ReservesStep(cfg: Config, s: State, d: Call, c: Call, id: Id)
    requires Holding(s, d, id) && RowIs(s, id, Waiting) && c !in s.calls && c !in s.records
    ensures
      var es := [BeginResume(c, Throttled, id, Waiting), Reserved(c)];
      Valid(cfg, s, es) &&
      var s' := Run(cfg, s, es);
      Holding(s', d, id) && RowIs(s', id, Waiting) && c !in s'.records &&
      c in s'.calls && s'.calls[c] == Add(Resume(Waiting), Throttled, Some(id), Updating)
  {
    RunTwo(cfg, s, BeginResume(c, Throttled, id, Waiting), Reserved(c));
  }

  /** The record `c` of the resume has the entry, and the run of `d` goes on without one. */
  predicate Displaced(s: State, d: Call, c: Call, id: Id) {
    Holding(s, d, id) && Orphaned(s, d) && c in s.records && InMap(s, c) && s.records[c].id == id &&
    s.records[c].status == Running && s.records[c].outcome == Unsettled && !s.records[c].callbackRan
  }

  lemma ClaimsStep(cfg: Config, s: State, d: Call, c: Call, id: Id, now: int)
    requires Holding(s, d, id) && RowIs(s, id, Waiting) && c !in s.records
    requires c in s.calls && s.calls[c] == Add(Resume(Waiting), Throttled, Some(id), Updating)
    ensures ClaimsEarly(s, Updated(c))
    ensures Valid(cfg, s, [Updated(c), Registered(c, now)])
    ensures Displaced(Run(cfg, s, [Updated(c), Registered(c, now)]), d, c, id)
  {
    assert Wins(s, c) && ClaimedId(s, Updated(c)) == id && Owns(s, d, id);
    RunTwo(cfg, s, Updated(c), Registered(c, now));
  }

  lemma ResumedStep(cfg: Config, s: State, d: Call, c: Call, id: Id, now: int)
    requires Holding(s, d, id) && RowIs(s, id, Waiting) && c !in s.calls && c !in s.records
    ensures Valid(cfg, s, ResumedBy(c, id, now)) && Displaced(Run(cfg, s, ResumedBy(c, id, now)), d, c, id)
  {
    var reserve, claim := [BeginResume(c, Throttled, id, Waiting), Reserved(c)], [Updated(c), Registered(c, now)];
    ReservesStep(cfg, s, d, c, id);
    ClaimsStep(cfg, Run(cfg, s, reserve), d, c, id, now);
    RunAppend(cfg, s, reserve, claim);
    assert reserve + claim == ResumedBy(c, id, now);
  }

  lemma FinalisedStep(cfg: Config, s: State, d: Call, c: Call, id: Id)
    requires Inv(s) && Displaced(s, d, c, id)
    ensures Valid(cfg, s, FinalisedLate(d, c))
    ensures
      var s' := Run(cfg, s, FinalisedLate(d, c));
      id !in s'.active && c in s'.records && s'.records[c].outcome == Resolved && Orphaned(s', d) && d in s'.held
  {
    RunTwo(cfg, s, Finalized(d), Settled(c));
    OrphansKeepTheirSlot(cfg, s, FinalisedLate(d, c), d);
  }

  lemma OrphansNeverComeBack(cfg: Config, s: State, d: Call)
    requires Inv(s) && Orphaned(s, d) && d in s.held
    ensures !CanComeBack(cfg, s, d)
  {
    forall more | Valid(cfg, s, more) ensures d in Run(cfg, s, more).held {
      OrphansKeepTheirSlot(cfg, s, more, d);
    }
  }

  /** The slot of `d` is lost for good, and the running resume `c` has been ended in its place. */
  ghost predicate EndedInItsPlace(cfg: Config, s: State, d: Call, c: Call, id: Id) {
    id !in s.active && c in s.records && s.records[c].outcome == Resolved && Orphaned(s, d) &&
    d in s.held && !CanComeBack(cfg, s, d)
  }

  /** Once the row waits while the run of `d` goes on, a resume and the end of that run do it. */
  lemma ResumedThenFinalised(cfg: Config, s: State, d: Call, c: Call, id: Id, now: int)
    requires Inv(s) && Holding(s, d, id) && RowIs(s, id, Waiting) && c !in s.calls && c !in s.records
    ensures
      var es := ResumedBy(c, id, now) + FinalisedLate(d, c);
      Valid(cfg, s, es) && EndedInItsPlace(cfg, Run(cfg, s, es), d, c, id)
  {
    var second, third := ResumedBy(c, id, now), FinalisedLate(d, c);
    ResumedStep(cfg, s, d, c, id, now);
    var s2 := Run(cfg, s, second);
    RunInv(cfg, s, second);
    FinalisedStep(cfg, s2, d, c, id);
    RunInv(cfg, s2, third);
    OrphansNeverComeBack(cfg, Run(cfg, s2, third), d);
    RunAppend(cfg, s, second, third);
  }

  /**
   Every running execution whose row is resumed before it is finalised loses its slot
   for good, and its late finalisation ends the resume in its place: the promise of the
   running resume is resolved and its entry is gone.
   */
  lemma EarlyResumeLosesASlot(cfg: Config, s: State, d: Call, c: Call, id: Id, now: int)
    requires Inv(s) && Drives(s, d, id) && id in s.rows && c !in s.calls && c !in s.records
    ensures
      var es := Waits(id) + (ResumedBy(c, id, now) + FinalisedLate(d, c));
      Valid(cfg, s, es) && EndedInItsPlace(cfg, Run(cfg, s, es), d, c, id)
  {
    WaitsStep(cfg, s, d, id);
    var s1 := Run(cfg, s, Waits(id));
    RunInv(cfg, s, Waits(id));
    ResumedThenFinalised(cfg, s1, d, c, id, now);
    RunAppend(cfg, s, Waits(id), ResumedBy(c, id, now) + FinalisedLate(d, c));
  }

  /**
   Stopping it first does not help: the stop forgets the entry of what reports to wait,
   the run goes on, saves its row and finalises whatever has resumed it by then.
   */
  lemma StoppedWaitEndsItsResume(cfg: Config, s: State, d: Call, c: Call, id: Id, now: int)
    requires Inv(s) && Drives(s, d, id) && id in s.rows && c !in s.calls && c !in s.records
    ensures
      var es := WaitsStopped(id) + (ResumedBy(c, id, now) + FinalisedLate(d, c));
      Valid(cfg, s, es) && EndedInItsPlace(cfg, Run(cfg, s, es), d, c, id)
  {
    WaitsStoppedStep(cfg, s, d, id);
    var s1 := Run(cfg, s, WaitsStopped(id));
    RunInv(cfg, s, WaitsStopped(id));
    ResumedThenFinalised(cfg, s1, d, c, id, now);
    RunAppend(cfg, s, WaitsStopped(id), ResumedBy(c, id, now) + FinalisedLate(d, c));
  }
}
