/**
 Many children of one parent finish at the same time.  Each of them reads the parent's
 row and writes it back in two separate queries
 (`updateParentExecutionWithChildResults`, packages/cli/src/workflow-helpers.ts).  So
 does every resume: it reads the row, may be throttled, and claims the row by writing
 back what it read (packages/cli/src/wait-tracker.ts and
 packages/cli/src/active-executions.ts).
 */
module ParentRaces {
  import opened Basics
  import opened ParentResume

  /** An effective write: the result of a child, a claim by a resume, or a whole new row. */
  datatype Change = Patch(child: Child) | Claim | Replace(row: Parent)

  /** What has been read: the row, the changes it is made of, and how many there had been. */
  datatype Snapshot = Snapshot(row: Parent, lineage: seq<Change>, seen: nat)

  /** `lineage` are the changes that the row is made of, `log` all that were written. */
  datatype State = State(row: Parent, lineage: seq<Change>, log: seq<Change>, snapshots: map<nat, Snapshot>)

  /** `Replaced` is the parent's own run saving its row. */
  datatype Event = Read(reader: nat) | Written(reader: nat, child: Child) | Claimed(reader: nat) | Replaced(row: Parent)

  function Start(row: Parent): State {
    State(row, [], [], map[])
  }

  /** The claim is a compare-and-swap on the status of the row, and on nothing else. */
  predicate Enabled(s: State, e: Event) {
    match e
    case Written(i, _) => i in s.snapshots
    case Claimed(i) => i in s.snapshots && s.row.status == Waiting
    case _ => true
  }

  /** A write does not look at the row it replaces, except that a child leaves the status alone. */
  function Next(s: State, e: Event): State
    requires Enabled(s, e)
  {
    match e
    case Read(i) => s.(snapshots := s.snapshots[i := Snapshot(s.row, s.lineage, |s.log|)])
    case Written(i, child) =>
      var read := s.snapshots[i];
      var done := s.(snapshots := s.snapshots - {i});
      if !Patches(read.row, child) then done
      else done.(row := Patched(read.row, child).(status := s.row.status),
                 lineage := read.lineage + [Patch(child)],
                 log := s.log + [Patch(child)])
    case Claimed(i) =>
      var read := s.snapshots[i];
      s.(row := read.row.(status := Running),
         lineage := read.lineage + [Claim],
         log := s.log + [Claim],
         snapshots := s.snapshots - {i})
    case Replaced(row) =>
      s.(row := row, lineage := s.lineage + [Replace(row)], log := s.log + [Replace(row)])
  }

  predicate Valid(s: State, es: seq<Event>)
    decreases |es|
  {
    es == [] || (Enabled(s, es[0]) && Valid(Next(s, es[0]), es[1..]))
  }

  function Run(s: State, es: seq<Event>): State
    requires Valid(s, es)
    decreases |es|
  {
    if es == [] then s else Run(Next(s, es[0]), es[1..])
  }

  /** Children never move the status; only a claim or the parent's own run does. */
  lemma {:induction false} ChildrenKeepTheStatus(s: State, es: seq<Event>)
    requires Valid(s, es) && forall e :: e in es ==> !e.Claimed? && !e.Replaced?
    ensures Run(s, es).row.status == s.row.status
    decreases |es|
  {
    if es != [] {
      assert es[0] in es;
      ChildrenKeepTheStatus(Next(s, es[0]), es[1..]);
    }
  }

  // ---------- the row is made of its lineage ----------

  function AsWaiting(row: Parent): Parent {
    row.(status := Waiting)
  }

  /** The row that the last replacement stored. */
  function Base(row: Parent, changes: seq<Change>): Parent
    decreases |changes|
  {
    if changes == [] then row
    else
      var last := changes[|changes| - 1];
      if last.Replace? then last.row else Base(row, changes[..|changes| - 1])
  }

  /** The children since then. */
  function Since(changes: seq<Change>): seq<Child>
    decreases |changes|
  {
    if changes == [] then []
    else
      var last := changes[|changes| - 1];
      match last
      case Replace(_) => []
      case Claim => Since(changes[..|changes| - 1])
      case Patch(child) => Since(changes[..|changes| - 1]) + [child]
  }

  /** Base and children, completed one after another. */
  function Fold(row: Parent, changes: seq<Change>): Parent {
    CompleteAll(AsWaiting(Base(row, changes)), Since(changes))
  }

  lemma {:induction false} CompleteAllAppend(row: Parent, children: seq<Child>, child: Child)
    ensures CompleteAll(row, children + [child]) == Complete(CompleteAll(row, children), child)
    decreases |children|
  {
    if children == [] {
      var end := Complete(row, child);
      assert [child][1..] == [] && CompleteAll(end, []) == end;
      assert [] + [child] == [child];
    } else {
      assert (children + [child])[1..] == children[1..] + [child];
      CompleteAllAppend(Complete(row, children[0]), children[1..], child);
    }
  }

  lemma FoldClaim(row: Parent, changes: seq<Change>)
    ensures Fold(row, changes + [Claim]) == Fold(row, changes)
  {
    assert (changes + [Claim])[..|changes|] == changes;
  }

  lemma FoldStep(row: Parent, changes: seq<Change>, child: Child)
    ensures Fold(row, changes + [Patch(child)]) == Complete(Fold(row, changes), child)
  {
    assert (changes + [Patch(child)])[..|changes|] == changes;
    CompleteAllAppend(AsWaiting(Base(row, changes)), Since(changes), child);
  }

  /** The row, and everything that has been read of it, is what its lineage makes of `first`. */
  ghost predicate Made(first: Parent, s: State) {
    AsWaiting(s.row) == Fold(first, s.lineage) &&
    forall i :: i in s.snapshots ==> AsWaiting(s.snapshots[i].row) == Fold(first, s.snapshots[i].lineage)
  }

  lemma StepMade(first: Parent, s: State, e: Event)
    requires Made(first, s) && Enabled(s, e)
    ensures Made(first, Next(s, e))
  {
    if e.Written? && Patches(s.snapshots[e.reader].row, e.child) {
      var read := s.snapshots[e.reader];
      assert AsWaiting(read.row) == read.row;
      FoldStep(first, read.lineage, e.child);
    } else if e.Claimed? {
      FoldClaim(first, s.snapshots[e.reader].lineage);
    }
  }

  lemma {:induction false} RunMade(first: Parent, s: State, es: seq<Event>)
    requires Made(first, s) && Valid(s, es)
    ensures Made(first, Run(s, es))
    decreases |es|
  {
    if es != [] {
      StepMade(first, s, es[0]);
      RunMade(first, Next(s, es[0]), es[1..]);
    }
  }

  /**
   In every run the data of the row are the row last stored before, patched by the
   children of its lineage one after another: the last writer, the writer it had read,
   and so on.
   */
  lemma RowIsItsLineage(first: Parent, es: seq<Event>)
    requires Valid(Start(first), es)
    ensures
      var end := Run(Start(first), es);
      AsWaiting(end.row) == CompleteAll(AsWaiting(Base(first, end.lineage)), Since(end.lineage))
  {
    assert CompleteAll(AsWaiting(first), []) == AsWaiting(first);
    RunMade(first, Start(first), es);
  }

  /** So the first stack entry carries the flags, the last error and the last output of that lineage. */
  lemma EntryIsItsLineage(first: Parent, es: seq<Event>)
    requires Valid(Start(first), es) && Base(first, Run(Start(first), es).lineage).stack != []
    ensures Run(Start(first), es).row.stack != []
    ensures
      var end := Run(Start(first), es);
      var (base, children) := (Base(first, end.lineage).stack[0], Since(end.lineage));
      var entry := end.row.stack[0];
      (entry.metadata.usage.used <==> base.metadata.usage.used || AnyUsed(children)) &&
      (entry.metadata.usage.attempted <==> base.metadata.usage.attempted || AnyAttempted(children)) &&
      entry.metadata.usage.user == LastUser(children, base.metadata.usage.user) &&
      entry.metadata.resumeError == LastError(children, base.metadata.resumeError) &&
      entry.data == LastData(children, base.data)
  {
    RowIsItsLineage(first, es);
    var end := Run(Start(first), es);
    CompletionsAddUp(AsWaiting(Base(first, end.lineage)), Since(end.lineage));
  }

  /** The tasks have all flags of the base. */
  lemma TaskFlagsGrowFromBase(first: Parent, es: seq<Event>)
    requires Valid(Start(first), es)
    ensures
      var end := Run(Start(first), es);
      OnlyMoreFlags(Base(first, end.lineage).runData, end.row.runData)
  {
    RowIsItsLineage(first, es);
    var end := Run(Start(first), es);
    TaskFlagsOnlyGrow(AsWaiting(Base(first, end.lineage)), Since(end.lineage));
  }

  // ---------- what gets lost ----------

  /** Whether the event writes the row that it has read. */
  predicate WritesBack(s: State, e: Event) {
    match e
    case Written(i, child) => i in s.snapshots && Patches(s.snapshots[i].row, child)
    case Claimed(i) => i in s.snapshots
    case _ => false
  }

  /** A child or a resume writes back a row that has been written since. */
  predicate Stale(s: State, e: Event) {
    WritesBack(s, e) && s.snapshots[e.reader].seen != |s.log|
  }

  predicate NeverStale(s: State, es: seq<Event>)
    requires Valid(s, es)
    decreases |es|
  {
    es == [] || (!Stale(s, es[0]) && NeverStale(Next(s, es[0]), es[1..]))
  }

  /** A lineage falls behind the log and never catches up. */
  ghost predicate Behind(s: State) {
    (s.lineage == s.log || |s.lineage| < |s.log|) &&
    forall i :: i in s.snapshots ==>
      var read := s.snapshots[i];
      |read.lineage| <= read.seen <= |s.log| && (read.seen == |s.log| ==> read.lineage == s.lineage)
  }

  lemma StepBehind(s: State, e: Event)
    requires Behind(s) && Enabled(s, e)
    ensures Behind(Next(s, e))
    ensures Next(s, e).lineage == Next(s, e).log <==> s.lineage == s.log && !Stale(s, e)
  {
    var s' := Next(s, e);
    if WritesBack(s, e) {
      assert s'.lineage[..|s'.lineage| - 1] == s.snapshots[e.reader].lineage;
      assert s'.log[..|s'.log| - 1] == s.log;
    } else if e.Replaced? {
      assert s'.lineage[..|s'.lineage| - 1] == s.lineage;
      assert s'.log[..|s'.log| - 1] == s.log;
    }
  }

  lemma {:induction false} RunBehind(s: State, es: seq<Event>)
    requires Behind(s) && Valid(s, es)
    ensures Behind(Run(s, es))
    ensures Run(s, es).lineage == Run(s, es).log <==> s.lineage == s.log && NeverStale(s, es)
    decreases |es|
  {
    if es != [] {
      StepBehind(s, es[0]);
      RunBehind(Next(s, es[0]), es[1..]);
    }
  }

  /**
   For any number of children and resumes: the row is made of everything that was
   written, in that order, if and only if nobody, child or resume, wrote back a row that
   had been written since it read it.
   */
  lemma NothingIsLostIff(first: Parent, es: seq<Event>)
    requires Valid(Start(first), es)
    ensures Run(Start(first), es).lineage == Run(Start(first), es).log <==> NeverStale(Start(first), es)
  {
    RunBehind(Start(first), es);
  }

  // ---------- what the parent resumes with ----------

  lemma {:induction false} RunAppend(s: State, es: seq<Event>, e: Event)
    requires Valid(s, es) && Enabled(Run(s, es), e)
    ensures Valid(s, es + [e]) && Run(s, es + [e]) == Next(Run(s, es), e)
    decreases |es|
  {
    if es == [] {
      var end := Next(s, e);
      assert [] + [e] == [e] && [e][1..] == [];
      assert Valid(end, []) && Run(end, []) == end;
    } else {
      assert (es + [e])[0] == es[0] && (es + [e])[1..] == es[1..] + [e];
      RunAppend(Next(s, es[0]), es[1..], e);
    }
  }

  /**
   The data that the parent resumes with are made of what the claimer had read, whatever
   was stored since; and that is everything stored before the claim if and only if
   neither the claim nor any write or claim before it is stale.
   */
  lemma ResumesWithItsLineage(first: Parent, es: seq<Event>, claimer: nat)
    requires Valid(Start(first), es) && Enabled(Run(Start(first), es), Claimed(claimer))
    ensures Valid(Start(first), es + [Claimed(claimer)])
    ensures
      var s := Run(Start(first), es);
      var lineage := s.snapshots[claimer].lineage;
      var resumed := Run(Start(first), es + [Claimed(claimer)]).row;
      resumed.status == Running &&
      AsWaiting(resumed) == CompleteAll(AsWaiting(Base(first, lineage)), Since(lineage)) &&
      (lineage == s.log <==> NeverStale(Start(first), es + [Claimed(claimer)]))
  {
    RunAppend(Start(first), es, Claimed(claimer));
    NothingIsLostIff(first, es + [Claimed(claimer)]);
    assert CompleteAll(AsWaiting(first), []) == AsWaiting(first);
    RunMade(first, Start(first), es);
    var s := Run(Start(first), es);
    var lineage := s.snapshots[claimer].lineage;
    assert (lineage + [Claim])[..|lineage|] == lineage;
    assert (s.log + [Claim])[..|s.log|] == s.log;
  }

  // ---------- errors and credential flags ----------

  /** What a child can leave on the stack entry for good. */
  datatype Mark = ErrorMark | UsedMark | AttemptedMark

  predicate Carries(child: Child, mark: Mark) {
    Reports(child) &&
    match mark
    case ErrorMark => child.error.Some?
    case UsedMark => Summarize(child).used
    case AttemptedMark => Summarize(child).attempted
  }

  predicate Shown(row: Parent, mark: Mark) {
    row.stack != [] &&
    match mark
    case ErrorMark => row.stack[0].metadata.resumeError.Some?
    case UsedMark => row.stack[0].metadata.usage.used
    case AttemptedMark => row.stack[0].metadata.usage.attempted
  }

  predicate AnyCarries(children: seq<Child>, mark: Mark) {
    exists c :: c in children && Carries(c, mark)
  }

  /** A mark is on the row exactly when the base or a child of the lineage brought it. */
  lemma ShownIsItsLineage(first: Parent, es: seq<Event>, mark: Mark)
    requires Valid(Start(first), es) && Base(first, Run(Start(first), es).lineage).stack != []
    ensures
      var end := Run(Start(first), es);
      Shown(end.row, mark) <==> Shown(Base(first, end.lineage), mark) || AnyCarries(Since(end.lineage), mark)
  {
    EntryIsItsLineage(first, es);
    var end := Run(Start(first), es);
    LastErrorIff(Since(end.lineage), Base(first, end.lineage).stack[0].metadata.resumeError);
  }

  /** Some child that has written since the last replacement left the mark. */
  predicate Reported(s: State, mark: Mark) {
    AnyCarries(Since(s.log), mark)
  }

  /** The event writes back a row that was read before the mark was on it, and brings none. */
  predicate Hides(s: State, e: Event, mark: Mark) {
    WritesBack(s, e) && Reported(s, mark) && !Shown(s.snapshots[e.reader].row, mark) &&
    (e.Written? ==> !Carries(e.child, mark))
  }

  lemma PatchShows(row: Parent, child: Child, mark: Mark)
    requires Patches(row, child)
    ensures Shown(Patched(row, child), mark) <==> Shown(row, mark) || Carries(child, mark)
  {
    CompleteStep(row, child);
  }

  lemma ReportedAfter(s: State, e: Event, mark: Mark)
    requires Enabled(s, e)
    ensures Reported(Next(s, e), mark)
       <==> !e.Replaced? && (Reported(s, mark) || (WritesBack(s, e) && e.Written? && Carries(e.child, mark)))
  {
    var s' := Next(s, e);
    if WritesBack(s, e) || e.Replaced? {
      assert s'.log[..|s'.log| - 1] == s.log;
      if e.Written? {
        assert Since(s'.log) == Since(s.log) + [e.child];
        assert forall c :: c in Since(s'.log) <==> c in Since(s.log) || c == e.child;
      }
    }
  }

  /** One step makes a reported mark disappear exactly when it hides it. */
  lemma StepShowsIff(s: State, e: Event, mark: Mark)
    requires Enabled(s, e) && (Reported(s, mark) ==> Shown(s.row, mark))
    ensures (Reported(Next(s, e), mark) ==> Shown(Next(s, e).row, mark)) <==> !Hides(s, e, mark)
  {
    ReportedAfter(s, e, mark);
    if e.Written? && WritesBack(s, e) {
      PatchShows(s.snapshots[e.reader].row, e.child, mark);
    }
  }

  predicate AlwaysShown(s: State, es: seq<Event>, mark: Mark)
    requires Valid(s, es)
    decreases |es|
  {
    (Reported(s, mark) ==> Shown(s.row, mark)) && (es == [] || AlwaysShown(Next(s, es[0]), es[1..], mark))
  }

  predicate NeverHides(s: State, es: seq<Event>, mark: Mark)
    requires Valid(s, es)
    decreases |es|
  {
    es == [] || (!Hides(s, es[0], mark) && NeverHides(Next(s, es[0]), es[1..], mark))
  }

  lemma {:induction false} RunShowsIff(s: State, es: seq<Event>, mark: Mark)
    requires Valid(s, es) && (Reported(s, mark) ==> Shown(s.row, mark))
    ensures AlwaysShown(s, es, mark) <==> NeverHides(s, es, mark)
    decreases |es|
  {
    if es != [] {
      var next := Next(s, es[0]);
      StepShowsIff(s, es[0], mark);
      if Reported(next, mark) ==> Shown(next.row, mark) {
        RunShowsIff(next, es[1..], mark);
      } else {
        assert !AlwaysShown(next, es[1..], mark);
      }
    }
  }

  /**
   Any number of children and resumes, however they interleave: once a child has
   reported an error, or a use of credentials, or an attempt at one, the row shows it
   throughout, and a parent resumes with it, if and only if nobody writes back a row read
   before that, without bringing the same itself.
   */
  lemma MarksAreShownIff(first: Parent, es: seq<Event>, mark: Mark)
    requires Valid(Start(first), es)
    ensures AlwaysShown(Start(first), es, mark) <==> NeverHides(Start(first), es, mark)
  {
    RunShowsIff(Start(first), es, mark);
  }

  /** What has been read in time shows what had been reported by then. */
  ghost predicate ReadsInTime(s: State, mark: Mark) {
    (Reported(s, mark) ==> Shown(s.row, mark)) &&
    forall i :: i in s.snapshots && s.snapshots[i].seen == |s.log| && Reported(s, mark) ==>
      Shown(s.snapshots[i].row, mark)
  }

  lemma {:induction false} FreshNeverHides(s: State, es: seq<Event>, mark: Mark)
    requires Valid(s, es) && Behind(s) && ReadsInTime(s, mark) && NeverStale(s, es)
    ensures NeverHides(s, es, mark)
    decreases |es|
  {
    if es != [] {
      var next := Next(s, es[0]);
      assert !Hides(s, es[0], mark);
      StepBehind(s, es[0]);
      StepShowsIff(s, es[0], mark);
      FreshNeverHides(next, es[1..], mark);
    }
  }

  /** Without stale writes and claims one failed child decides the resume, whoever writes last. */
  lemma SerialErrorStays(first: Parent, es: seq<Event>)
    requires Valid(Start(first), es) && NeverStale(Start(first), es)
    ensures AlwaysShown(Start(first), es, ErrorMark)
    ensures AlwaysShown(Start(first), es, UsedMark) && AlwaysShown(Start(first), es, AttemptedMark)
  {
    forall mark ensures AlwaysShown(Start(first), es, mark) {
      FreshNeverHides(Start(first), es, mark);
      MarksAreShownIff(first, es, mark);
    }
  }

  // ---------- runs that lose something ----------

  /** A write or claim of a row that was read before anything had changed. */
  lemma SnapshotWrites(s: State, i: nat, child: Child)
    requires i in s.snapshots && Patches(s.snapshots[i].row, child)
    ensures
      var (s', read) := (Next(s, Written(i, child)), s.snapshots[i]);
      s'.row == Patched(read.row, child).(status := s.row.status) &&
      s'.log == s.log + [Patch(child)] && s'.snapshots == s.snapshots - {i}
  {
  }

  lemma TwoReported(a: Child, b: Child, mark: Mark)
    ensures Carries(a, mark) || Carries(b, mark) ==> AnyCarries(Since([] + [Patch(a)] + [Patch(b)]), mark)
  {
    var log := [] + [Patch(a)] + [Patch(b)];
    SinceAppend([], a);
    SinceAppend([] + [Patch(a)], b);
    assert Since(log) == [] + [a] + [b];
    assert a in Since(log) && b in Since(log);
  }

  lemma SinceAppend(changes: seq<Change>, child: Child)
    ensures Since(changes + [Patch(child)]) == Since(changes) + [child]
  {
    assert (changes + [Patch(child)])[..|changes|] == changes;
  }

  /** Every failure can be hidden: a sibling that read the row earlier writes it back without the error. */
  lemma StaleSiblingHidesError(first: Parent, a: Child, b: Child)
    requires Accepts(first) && first.stack[0].metadata.resumeError.None?
    requires a.error.Some? && b.error.None? && LastOutput(b).Some?
    ensures
      var es := [Read(0), Read(1)] + [Written(0, a), Written(1, b)];
      Valid(Start(first), es) &&
      var end := Run(Start(first), es);
      Reported(end, ErrorMark) && !Shown(end.row, ErrorMark)
  {
    var s0 := Start(first);
    RunTwo(s0, Read(0), Read(1));
    var s2 := Run(s0, [Read(0), Read(1)]);
    SnapshotWrites(s2, 0, a);
    var s3 := Next(s2, Written(0, a));
    SnapshotWrites(s3, 1, b);
    RunTwo(s2, Written(0, a), Written(1, b));
    RunConcat(s0, [Read(0), Read(1)], [Written(0, a), Written(1, b)]);
    PatchShows(first, b, ErrorMark);
    TwoReported(a, b, ErrorMark);
  }

  /**
   The resume itself can hide it, although no child is late: the child `a` succeeds and
   resumes the parent, whose row is read; the child `b` reads and fails; then the resume
   claims the row and writes back what it read.
   */
  lemma StaleClaimHidesError(first: Parent, a: Child, b: Child)
    requires Accepts(first) && first.stack[0].metadata.resumeError.None?
    requires a.error.None? && LastOutput(a).Some? && b.error.Some?
    ensures
      var es := [Read(0), Written(0, a)] + [Read(1), Read(2)] + [Written(2, b), Claimed(1)];
      Valid(Start(first), es) &&
      var end := Run(Start(first), es);
      end.row.status == Running && end.row == Patched(first, a).(status := Running) &&
      Reported(end, ErrorMark) && !Shown(end.row, ErrorMark)
  {
    var s0 := Start(first);
    RunTwo(s0, Read(0), Written(0, a));
    var s2 := Run(s0, [Read(0), Written(0, a)]);
    SnapshotWrites(Next(s0, Read(0)), 0, a);
    PatchShows(first, a, ErrorMark);
    assert Accepts(s2.row) && s2.row == Patched(first, a);
    RunTwo(s2, Read(1), Read(2));
    var s4 := Run(s2, [Read(1), Read(2)]);
    SnapshotWrites(s4, 2, b);
    var s5 := Next(s4, Written(2, b));
    assert s2.log == [] + [Patch(a)] && s4.log == s2.log && s5.log == s4.log + [Patch(b)];
    RunTwo(s4, Written(2, b), Claimed(1));
    TwoReported(a, b, ErrorMark);
    ReportedAfter(s5, Claimed(1), ErrorMark);
    RunConcat(s0, [Read(0), Written(0, a)], [Read(1), Read(2)]);
    RunConcat(s0, [Read(0), Written(0, a)] + [Read(1), Read(2)], [Written(2, b), Claimed(1)]);
  }

  lemma RunTwo(s: State, a: Event, b: Event)
    requires Enabled(s, a) && Enabled(Next(s, a), b)
    ensures Valid(s, [a, b]) && Run(s, [a, b]) == Next(Next(s, a), b)
  {
    var s1 := Next(s, a);
    var s2 := Next(s1, b);
    assert Valid(s2, []) && Run(s2, []) == s2;
    assert Valid(s1, [b]) && Run(s1, [b]) == Run(s2, [b][1..]);
    assert [a, b][1..] == [b];
  }

  lemma {:induction false} RunConcat(s: State, a: seq<Event>, b: seq<Event>)
    requires Valid(s, a) && Valid(Run(s, a), b)
    ensures Valid(s, a + b) && Run(s, a + b) == Run(Run(s, a), b)
    decreases |a|
  {
    if a == [] {
      assert a + b == b;
    } else {
      assert (a + b)[0] == a[0] && (a + b)[1..] == a[1..] + b;
      RunConcat(Next(s, a[0]), a[1..], b);
    }
  }
}
