/**
 What holds of every run of the execution protocol, whatever the callers do.
 */
module ExecutionTheorems {
  import opened Basics
  import opened ExecutionProtocol

  lemma {:induction false} RunInv(cfg: Config, s: State, es: seq<Event>)
    requires Inv(s) && Valid(cfg, s, es)
    ensures Inv(Run(cfg, s, es))
    decreases |es|
  {
    if es != [] {
      InvPreserved(cfg, s, es[0]);
      RunInv(cfg, Next(cfg, s, es[0]), es[1..]);
    }
  }

  lemma {:induction false} RunAppend(cfg: Config, s: State, a: seq<Event>, b: seq<Event>)
    requires Valid(cfg, s, a) && Valid(cfg, Run(cfg, s, a), b)
    ensures Valid(cfg, s, a + b) && Run(cfg, s, a + b) == Run(cfg, Run(cfg, s, a), b)
    decreases |a|
  {
    if a == [] {
      assert a + b == b;
    } else {
      assert (a + b)[0] == a[0] && (a + b)[1..] == a[1..] + b;
      RunAppend(cfg, Next(cfg, s, a[0]), a[1..], b);
    }
  }

  ghost predicate Reachable(cfg: Config, s: State) {
    exists s0, es :: Initial(s0) && Valid(cfg, s0, es) && Run(cfg, s0, es) == s
  }

  lemma ReachableInv(cfg: Config, s: State)
    requires Reachable(cfg, s)
    ensures Inv(s)
  {
    var s0, es :| Initial(s0) && Valid(cfg, s0, es) && Run(cfg, s0, es) == s;
    InitialInv(s0);
    RunInv(cfg, s0, es);
  }

  // ---------- concurrency slots ----------

  function AddsInProgress(s: State): set<Call> {
    set c | c in s.calls && AddHolds(s.calls[c])
  }

  function RecordsNotCleanedUp(s: State): set<Call> {
    set c | c in s.records && RecordHolds(s.records[c])
  }

  /**
   The slots in use are those of calls between reserve and registration and of
   registered records whose callback has not run, and every slot is given back at most
   once, and has been once its callback ran.
   */
  lemma SlotsAreConserved(cfg: Config, s: State)
    requires Reachable(cfg, s)
    ensures s.held == AddsInProgress(s) + RecordsNotCleanedUp(s)
    ensures |s.held| == |AddsInProgress(s)| + |RecordsNotCleanedUp(s)|
    ensures ReleasedOnce(s)
  {
    ReachableInv(cfg, s);
    SlotsArePartitioned(s);
    ReleasesAreOnce(s);
  }

  /** No reservation is given back twice or after all, and every cleaned-up record has given back its own. */
  ghost predicate ReleasedOnce(s: State) {
    (forall i, j :: 0 <= i < j < |s.releases| ==> s.releases[i] != s.releases[j]) &&
    (forall c :: c in s.releases ==> c !in s.held) &&
    (forall c :: c in s.records && s.records[c].mode != Evaluation ==>
       (c in s.releases <==> s.records[c].callbackRan))
  }

  lemma SlotsArePartitioned(s: State)
    requires SlotsOk(s)
    ensures s.held == AddsInProgress(s) + RecordsNotCleanedUp(s)
    ensures AddsInProgress(s) !! RecordsNotCleanedUp(s)
  {
    forall c ensures c in s.held <==> c in AddsInProgress(s) + RecordsNotCleanedUp(s) {
      assert c in s.held <==> Holds(s, c);
    }
  }

  lemma ReleasesAreOnce(s: State)
    requires SlotsOk(s)
    ensures ReleasedOnce(s)
  {
    forall c | c in s.releases ensures c !in s.held {
      assert Ended(s, c);
      assert c in s.held <==> Holds(s, c);
    }
    forall c | c in s.records && s.records[c].mode != Evaluation
      ensures c in s.releases <==> s.records[c].callbackRan
    {
      assert c in s.releases ==> Ended(s, c);
    }
  }

  // ---------- losing a race ----------

  /** A lost compare-and-swap, and the throw after it, change neither rows nor records nor the map. */
  lemma LoserLeavesNoTrace(cfg: Config, s: State, c: Call, between: seq<Event>)
    requires Reachable(cfg, s) && Enabled(cfg, s, Updated(c)) && s.calls[c].kind.Resume? && !Wins(s, c)
    requires Valid(cfg, Next(cfg, s, Updated(c)), between)
    requires forall i :: 0 <= i < |between| ==> !Concerns(between[i], c)
    ensures
      var lost := Next(cfg, s, Updated(c));
      var later := Run(cfg, lost, between);
      lost == s.(calls := lost.calls) && Enabled(cfg, later, Thrown(c)) &&
      var thrown := Next(cfg, later, Thrown(c));
      thrown.rows == later.rows && thrown.records == later.records && thrown.active == later.active &&
      thrown.calls[c].phase == Threw(AlreadyResuming) && c !in thrown.held
  {
    ReachableInv(cfg, s);
    assert AddOk(s.calls[c]);
    var lost := Next(cfg, s, Updated(c));
    CallWaits(cfg, lost, between, c);
    ThrowingLeavesNoTrace(cfg, Run(cfg, lost, between), c);
  }

  lemma ThrowingLeavesNoTrace(cfg: Config, s: State, c: Call)
    requires IsCall(s, c, Lost)
    ensures
      Enabled(cfg, s, Thrown(c)) &&
      var thrown := Next(cfg, s, Thrown(c));
      thrown.rows == s.rows && thrown.records == s.records && thrown.active == s.active &&
      c in thrown.calls && thrown.calls[c].phase == Threw(AlreadyResuming) && c !in thrown.held
  {
  }

  /** Whether an event continues the call `c`. */
  predicate Concerns(e: Event, c: Call) {
    match e
    case BeginFresh(d, _) => c == d
    case BeginResume(d, _, _, _) => c == d
    case Created(d, _) => c == d
    case Reserved(d) => c == d
    case Updated(d) => c == d
    case MarkedRunning(d) => c == d
    case Failed(d) => c == d
    case Thrown(d) => c == d
    case Registered(d, _) => c == d
    case _ => false
  }

  lemma {:induction false} CallWaits(cfg: Config, s: State, es: seq<Event>, c: Call)
    requires Valid(cfg, s, es) && c in s.calls
    requires forall i :: 0 <= i < |es| ==> !Concerns(es[i], c)
    ensures c in Run(cfg, s, es).calls && Run(cfg, s, es).calls[c] == s.calls[c]
    decreases |es|
  {
    if es != [] {
      CallStaysPut(cfg, s, es[0], c);
      CallWaits(cfg, Next(cfg, s, es[0]), es[1..], c);
    }
  }

  lemma CallStaysPut(cfg: Config, s: State, e: Event, c: Call)
    requires Enabled(cfg, s, e) && c in s.calls && !Concerns(e, c)
    ensures c in Next(cfg, s, e).calls && Next(cfg, s, e).calls[c] == s.calls[c]
  {
  }

  /** Whoever has thrown holds no slot. */
  lemma ThrownHoldsNothing(cfg: Config, s: State, c: Call)
    requires Reachable(cfg, s) && c in s.calls && s.calls[c].phase.Threw?
    ensures c !in s.held
  {
    ReachableInv(cfg, s);
    assert c in s.held <==> Holds(s, c);
  }

  // ---------- at most one resume per waiting period ----------

  predicate RowIs(s: State, id: Id, status: Status) {
    id in s.rows && s.rows[id] == status
  }

  function Bit(b: bool): nat {
    if b then 1 else 0
  }

  predicate Claims(s: State, e: Event, id: Id, status: Status) {
    e.Updated? && Wins(s, e.c) && s.calls[e.c].id == Some(id) && s.calls[e.c].kind == Resume(status)
  }

  /** How often the row entered `status`. */
  function Entries(cfg: Config, s: State, es: seq<Event>, id: Id, status: Status): nat
    requires Valid(cfg, s, es)
    decreases |es|
  {
    if es == [] then 0
    else
      var s' := Next(cfg, s, es[0]);
      Bit(!RowIs(s, id, status) && RowIs(s', id, status)) + Entries(cfg, s', es[1..], id, status)
  }

  /** How often a caller expecting `status` won the compare-and-swap. */
  function ClaimCount(cfg: Config, s: State, es: seq<Event>, id: Id, status: Status): nat
    requires Valid(cfg, s, es)
    decreases |es|
  {
    if es == [] then 0
    else Bit(Claims(s, es[0], id, status)) + ClaimCount(cfg, Next(cfg, s, es[0]), es[1..], id, status)
  }

  /** How often a record was registered on the strength of such a claim. */
  function ResumeCount(cfg: Config, s: State, es: seq<Event>, id: Id, status: Status): nat
    requires Valid(cfg, s, es)
    decreases |es|
  {
    if es == [] then 0
    else Bit(Resumes(s, es[0], id, status)) + ResumeCount(cfg, Next(cfg, s, es[0]), es[1..], id, status)
  }

  predicate Resumes(s: State, e: Event, id: Id, status: Status) {
    e.Registered? && e.c in s.calls && s.calls[e.c].id == Some(id) && s.calls[e.c].kind == Resume(status)
  }

  predicate IsPending(s: State, c: Call, id: Id, status: Status) {
    c in s.calls && s.calls[c].id == Some(id) && s.calls[c].kind == Resume(status) && HasClaim(s.calls[c])
  }

  /** The calls that have claimed the row and not registered yet. */
  function PendingClaims(s: State, id: Id, status: Status): set<Call> {
    set c | c in s.calls && IsPending(s, c, id, status)
  }

  lemma ClaimStep(cfg: Config, s: State, e: Event, id: Id, status: Status)
    requires Enabled(cfg, s, e) && CallsOk(s)
    ensures
      var s' := Next(cfg, s, e);
      Bit(Claims(s, e, id, status)) + Bit(RowIs(s', id, status))
      <= Bit(!RowIs(s, id, status) && RowIs(s', id, status)) + Bit(RowIs(s, id, status))
  {
    if e.Updated? {
      assert AddOk(s.calls[e.c]);
    }
  }

  /** Claims never outnumber the times the row entered the expected status. */
  lemma {:induction false} ClaimsAreBounded(cfg: Config, s: State, es: seq<Event>, id: Id, status: Status)
    requires Inv(s) && Valid(cfg, s, es)
    ensures ClaimCount(cfg, s, es, id, status) + Bit(RowIs(Run(cfg, s, es), id, status))
         <= Entries(cfg, s, es, id, status) + Bit(RowIs(s, id, status))
    decreases |es|
  {
    if es != [] {
      var s' := Next(cfg, s, es[0]);
      InvPreserved(cfg, s, es[0]);
      ClaimStep(cfg, s, es[0], id, status);
      ClaimsAreBounded(cfg, s', es[1..], id, status);
    }
  }

  lemma PendingStep(cfg: Config, s: State, e: Event, id: Id, status: Status)
    requires CallsOk(s) && Enabled(cfg, s, e)
    ensures
      Bit(Resumes(s, e, id, status)) + |PendingClaims(Next(cfg, s, e), id, status)|
      <= Bit(Claims(s, e, id, status)) + |PendingClaims(s, id, status)|
  {
    var before, after := PendingClaims(s, id, status), PendingClaims(Next(cfg, s, e), id, status);
    forall c | c in after ensures c in before || (Claims(s, e, id, status) && c == e.c) {
      PendingComesFromClaim(cfg, s, e, c, id, status);
    }
    if Claims(s, e, id, status) {
      NoLarger(after, before + {e.c});
    } else if Resumes(s, e, id, status) {
      ResumeEndsClaim(cfg, s, e, id, status);
      NoLarger(after, before - {e.c});
    } else {
      NoLarger(after, before);
    }
  }

  lemma NoLarger<T>(a: set<T>, b: set<T>)
    requires a <= b
    ensures |a| <= |b|
  {
    assert b == a + (b - a);
  }

  lemma ResumeEndsClaim(cfg: Config, s: State, e: Event, id: Id, status: Status)
    requires CallsOk(s) && Enabled(cfg, s, e) && Resumes(s, e, id, status)
    ensures e.c in PendingClaims(s, id, status) && e.c !in PendingClaims(Next(cfg, s, e), id, status)
  {
    assert AddOk(s.calls[e.c]);
  }

  lemma PendingComesFromClaim(cfg: Config, s: State, e: Event, c: Call, id: Id, status: Status)
    requires CallsOk(s) && Enabled(cfg, s, e) && IsPending(Next(cfg, s, e), c, id, status)
    ensures IsPending(s, c, id, status) || (Claims(s, e, id, status) && c == e.c)
  {
  }

  lemma {:induction false} ResumesAreClaims(cfg: Config, s: State, es: seq<Event>, id: Id, status: Status)
    requires Inv(s) && Valid(cfg, s, es)
    ensures ResumeCount(cfg, s, es, id, status) + |PendingClaims(Run(cfg, s, es), id, status)|
         <= ClaimCount(cfg, s, es, id, status) + |PendingClaims(s, id, status)|
    decreases |es|
  {
    if es != [] {
      var s' := Next(cfg, s, es[0]);
      InvPreserved(cfg, s, es[0]);
      PendingStep(cfg, s, es[0], id, status);
      ResumesAreClaims(cfg, s', es[1..], id, status);
    }
  }

  /**
   Over all interleavings of timers, finished children and other callers: the records
   registered by resuming an execution never outnumber the successful claims, nor the
   times its row entered the expected status.
   */
  lemma ResumedOncePerPeriod(cfg: Config, s: State, es: seq<Event>, id: Id, status: Status)
    requires Initial(s) && Valid(cfg, s, es)
    ensures ResumeCount(cfg, s, es, id, status) <= ClaimCount(cfg, s, es, id, status)
    ensures ClaimCount(cfg, s, es, id, status) <= Entries(cfg, s, es, id, status) + Bit(RowIs(s, id, status))
  {
    InitialInv(s);
    assert PendingClaims(s, id, status) == {};
    ResumesAreClaims(cfg, s, es, id, status);
    ClaimsAreBounded(cfg, s, es, id, status);
  }
}
