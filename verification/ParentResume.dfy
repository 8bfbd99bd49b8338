/**
 Patching a waiting parent with the result of a finished child:
 `updateParentExecutionWithChildResults` (packages/cli/src/workflow-helpers.ts).
 */
module ParentResume {
  import opened Basics

  type NodeName = string
  type Output = nat
  type Fault = nat
  type UserId = string

  datatype Status = Waiting | Running | Success | Error | Canceled

  /** Credential usage: flags are set or absent, and a user is known only with `used`. */
  datatype Usage = Usage(used: bool, attempted: bool, user: Option<UserId>)

  const NO_USAGE := Usage(false, false, None)

  datatype Task = Task(used: bool, attempted: bool, output: Option<Output>)

  type RunData = map<NodeName, seq<Task>>

  /** What a finished child hands over. */
  datatype Child = Child(
    error: Option<Fault>,
    lastNode: Option<NodeName>,
    runData: RunData,
    pinned: map<NodeName, Output>,
    manual: bool,
    executedBy: Option<UserId>,
    link: Option<nat>)

  datatype Metadata = Metadata(usage: Usage, resumeError: Option<Fault>, subExecution: Option<nat>)

  datatype StackEntry = StackEntry(node: NodeName, data: Output, metadata: Metadata)

  /** `user` is `runtimeData.executedByUserId`, if there is runtime data at all. */
  datatype Parent = Parent(
    status: Status,
    stack: seq<StackEntry>,
    runData: RunData,
    hasRuntimeData: bool,
    user: Option<UserId>)

  // ---------- what the child reports ----------

  predicate AnyTask(runData: RunData, flag: Task -> bool) {
    exists n :: n in runData && exists i :: 0 <= i < |runData[n]| && flag(runData[n][i])
  }

  function Used(): Task -> bool { (t: Task) => t.used }

  function Attempted(): Task -> bool { (t: Task) => t.attempted }

  /** `summarizeDynamicCredentialsUsage` */
  function Summarize(child: Child): Usage {
    var used := AnyTask(child.runData, Used());
    Usage(used, AnyTask(child.runData, Attempted()),
          if used && child.executedBy.Some? && child.executedBy.value != "" then child.executedBy else None)
  }

  /** The output of the last run of the last node, or its pinned data in manual mode. */
  function LastOutput(child: Child): Option<Output> {
    if child.lastNode.None? then None
    else
      var n := child.lastNode.value;
      if n !in child.runData || child.runData[n] == [] then None
      else if n in child.pinned && child.manual then Some(child.pinned[n])
      else child.runData[n][|child.runData[n]| - 1].output
  }

  /** A child with neither an error nor output patches nothing. */
  predicate Reports(child: Child) {
    child.error.Some? || LastOutput(child).Some?
  }

  // ---------- the patch ----------

  /** `{ ...earlier, ...later }` */
  function Merge(earlier: Usage, later: Usage): Usage {
    Usage(earlier.used || later.used, earlier.attempted || later.attempted,
          if later.user.Some? then later.user else earlier.user)
  }

  function Stamp(runData: RunData, node: NodeName, usage: Usage): RunData {
    if node in runData && runData[node] != [] then
      var tasks := runData[node];
      var last := |tasks| - 1;
      runData[node := tasks[last := tasks[last].(used := tasks[last].used || usage.used,
                                                 attempted := tasks[last].attempted || usage.attempted)]]
    else runData
  }

  function PatchUsage(p: Parent, usage: Usage): Parent
    requires p.stack != []
  {
    var entry := p.stack[0];
    var metadata := entry.metadata.(usage := Merge(entry.metadata.usage, usage));
    p.(stack := p.stack[0 := entry.(metadata := metadata)],
       runData := Stamp(p.runData, entry.node, usage),
       user := if usage.used && usage.user.Some? && p.hasRuntimeData then usage.user else p.user)
  }

  function PatchResult(p: Parent, child: Child): Parent
    requires p.stack != []
  {
    var entry := p.stack[0];
    if child.error.Some? then
      var link := if child.link.Some? then child.link else entry.metadata.subExecution;
      var metadata := entry.metadata.(resumeError := child.error, subExecution := link);
      p.(stack := p.stack[0 := entry.(metadata := metadata)])
    else if LastOutput(child).Some? then
      p.(stack := p.stack[0 := entry.(data := LastOutput(child).value)])
    else p
  }

  function Patched(p: Parent, child: Child): (patched: Parent)
    requires p.stack != []
    ensures |patched.stack| == |p.stack| && patched.status == p.status
  {
    var usage := Summarize(child);
    PatchResult(if usage == NO_USAGE then p else PatchUsage(p, usage), child)
  }

  predicate Accepts(row: Parent) {
    row.status == Waiting && row.stack != []
  }

  /** A child that has something to report patches a row that it read as waiting. */
  predicate Patches(read: Parent, child: Child) {
    Reports(child) && Accepts(read)
  }

  /** One completion, from reading the row to writing it, with nothing in between. */
  function Complete(row: Parent, child: Child): (written: Parent)
    ensures Accepts(row) ==> Accepts(written)
  {
    if Patches(row, child) then Patched(row, child) else row
  }

  function CompleteAll(row: Parent, children: seq<Child>): (end: Parent)
    ensures Accepts(row) ==> Accepts(end)
    decreases |children|
  {
    if children == [] then row else CompleteAll(Complete(row, children[0]), children[1..])
  }

  // ---------- what a completion hands over ----------

  /**
   The last node of the child ended with this output: its pinned data in manual mode, or
   else the output of the last of its runs.
   */
  predicate EndsWith(child: Child, output: Output) {
    child.lastNode.Some? && child.lastNode.value in child.runData &&
    var n, runs := child.lastNode.value, child.runData[child.lastNode.value];
    runs != [] &&
    if child.manual && n in child.pinned then child.pinned[n] == output else runs[|runs| - 1].output == Some(output)
  }

  ghost predicate HandsOverNothing(child: Child) {
    child.error.None? && forall output :: !EndsWith(child, output)
  }

  predicate SomeTask(runData: RunData, used: bool) {
    exists n, i :: n in runData && 0 <= i < |runData[n]| && if used then runData[n][i].used else runData[n][i].attempted
  }

  /** The child knows who resolved the credentials that it used. */
  predicate NamesUser(child: Child, user: UserId) {
    SomeTask(child.runData, true) && child.executedBy == Some(user) && user != ""
  }

  /** The first stack entry after a patch, field by field; only a failed child leaves the data alone. */
  ghost predicate EntryIsPatched(before: StackEntry, child: Child, after: StackEntry) {
    after.node == before.node &&
    (child.error.Some? ==> after.data == before.data) &&
    (child.error.None? ==> EndsWith(child, after.data)) &&
    var (was, now) := (before.metadata, after.metadata);
    now.resumeError == (if child.error.Some? then child.error else was.resumeError) &&
    now.subExecution == (if child.error.Some? && child.link.Some? then child.link else was.subExecution) &&
    (now.usage.used <==> was.usage.used || SomeTask(child.runData, true)) &&
    (now.usage.attempted <==> was.usage.attempted || SomeTask(child.runData, false)) &&
    (forall user :: NamesUser(child, user) ==> now.usage.user == Some(user)) &&
    ((forall user :: !NamesUser(child, user)) ==> now.usage.user == was.usage.user)
  }

  /** The last task of the waiting node gets the child's flags; nothing else of the runs changes. */
  ghost predicate RunsAreStamped(before: RunData, node: NodeName, child: Child, after: RunData) {
    after.Keys == before.Keys &&
    forall n :: n in before ==>
      |after[n]| == |before[n]| &&
      forall i :: 0 <= i < |before[n]| ==>
        if n == node && i == |before[n]| - 1 then
          after[n][i] == Task(before[n][i].used || SomeTask(child.runData, true),
                              before[n][i].attempted || SomeTask(child.runData, false),
                              before[n][i].output)
        else after[n][i] == before[n][i]
  }

  ghost predicate ParentIsPatched(row: Parent, child: Child, written: Parent)
    requires row.stack != []
  {
    written.status == row.status && written.hasRuntimeData == row.hasRuntimeData &&
    |written.stack| == |row.stack| && written.stack[1..] == row.stack[1..] &&
    EntryIsPatched(row.stack[0], child, written.stack[0]) &&
    RunsAreStamped(row.runData, row.stack[0].node, child, written.runData) &&
    (forall user :: NamesUser(child, user) && row.hasRuntimeData ==> written.user == Some(user)) &&
    ((!row.hasRuntimeData || forall user :: !NamesUser(child, user)) ==> written.user == row.user)
  }

  lemma LastOutputEnds(child: Child, output: Output)
    ensures LastOutput(child) == Some(output) <==> EndsWith(child, output)
  {
  }

  lemma NothingHandedOver(child: Child)
    ensures Reports(child) <==> !HandsOverNothing(child)
  {
    if LastOutput(child).Some? {
      LastOutputEnds(child, LastOutput(child).value);
    }
    forall output: Output ensures LastOutput(child) == Some(output) <==> EndsWith(child, output) {
      LastOutputEnds(child, output);
    }
  }

  lemma SummaryIsOfTasks(child: Child)
    ensures Summarize(child).used <==> SomeTask(child.runData, true)
    ensures Summarize(child).attempted <==> SomeTask(child.runData, false)
    ensures forall user :: Summarize(child).user == Some(user) <==> NamesUser(child, user)
  {
    AnyIsSome(child.runData);
  }

  lemma AnyIsSome(runData: RunData)
    ensures AnyTask(runData, Used()) <==> SomeTask(runData, true)
    ensures AnyTask(runData, Attempted()) <==> SomeTask(runData, false)
  {
    if n, i :| n in runData && 0 <= i < |runData[n]| && runData[n][i].used {
      assert Used()(runData[n][i]);
    }
    if n, i :| n in runData && 0 <= i < |runData[n]| && runData[n][i].attempted {
      assert Attempted()(runData[n][i]);
    }
  }

  lemma StampStamps(before: RunData, node: NodeName, child: Child)
    ensures RunsAreStamped(before, node, child, Stamp(before, node, Summarize(child)))
  {
    SummaryIsOfTasks(child);
  }

  lemma NoSummaryNoStamp(before: RunData, node: NodeName, child: Child)
    requires Summarize(child) == NO_USAGE
    ensures RunsAreStamped(before, node, child, before)
  {
    SummaryIsOfTasks(child);
  }

  lemma PatchedEntryIsPatched(row: Parent, child: Child)
    requires row.stack != [] && Reports(child)
    ensures EntryIsPatched(row.stack[0], child, Patched(row, child).stack[0])
  {
    SummaryIsOfTasks(child);
    if child.error.None? {
      LastOutputEnds(child, LastOutput(child).value);
    }
  }

  lemma PatchedIsPatched(row: Parent, child: Child)
    requires row.stack != [] && Reports(child)
    ensures ParentIsPatched(row, child, Patched(row, child))
  {
    SummaryIsOfTasks(child);
    PatchedEntryIsPatched(row, child);
    StampStamps(row.runData, row.stack[0].node, child);
    if Summarize(child) == NO_USAGE {
      NoSummaryNoStamp(row.runData, row.stack[0].node, child);
    }
  }

  /** The source's statements; the row is read first and its data written last. */
  method UpdateParentExecutionWithChildResults(row: Parent, child: Child) returns (written: Parent)
    ensures written == Complete(row, child)
    ensures HandsOverNothing(child) || row.status != Waiting || row.stack == [] ==> written == row
    ensures !HandsOverNothing(child) && row.status == Waiting && row.stack != [] ==>
              ParentIsPatched(row, child, written)
  {
    NothingHandedOver(child);
    if Patches(row, child) {
      PatchedIsPatched(row, child);
    }
    var lastOutput := LastOutput(child);
    if child.error.None? && lastOutput.None? {
      return row;
    }
    if row.status != Waiting || |row.stack| == 0 {
      return row;
    }
    var stack, runData, user := row.stack, row.runData, row.user;
    var usage := Summarize(child);
    if usage.used || usage.attempted || usage.user.Some? {
      stack := stack[0 := stack[0].(metadata := stack[0].metadata.(usage := Merge(stack[0].metadata.usage, usage)))];
      var node := stack[0].node;
      if node in runData && |runData[node]| > 0 {
        var tasks := runData[node];
        var task := tasks[|tasks| - 1];
        if usage.used {
          task := task.(used := true);
        }
        if usage.attempted {
          task := task.(attempted := true);
        }
        runData := runData[node := tasks[|tasks| - 1 := task]];
      }
      if usage.used && usage.user.Some? && row.hasRuntimeData {
        user := usage.user;
      }
    }
    if child.error.Some? {
      var metadata := stack[0].metadata.(resumeError := child.error);
      if child.link.Some? {
        metadata := metadata.(subExecution := child.link);
      }
      stack := stack[0 := stack[0].(metadata := metadata)];
    } else {
      stack := stack[0 := stack[0].(data := lastOutput.value)];
    }
    written := row.(stack := stack, runData := runData, user := user);
  }

  // ---------- any sequence of children ----------

  predicate AnyUsed(children: seq<Child>) {
    exists c :: c in children && Reports(c) && Summarize(c).used
  }

  predicate AnyAttempted(children: seq<Child>) {
    exists c :: c in children && Reports(c) && Summarize(c).attempted
  }

  /** The error of the last child that failed, if any did. */
  function LastError(children: seq<Child>, before: Option<Fault>): Option<Fault> {
    if children == [] then before
    else LastError(children[1..], if children[0].error.Some? then children[0].error else before)
  }

  /** The user named by the last child that reports and names one. */
  function LastUser(children: seq<Child>, before: Option<UserId>): Option<UserId> {
    if children == [] then before
    else LastUser(children[1..],
           if Reports(children[0]) && Summarize(children[0]).user.Some? then Summarize(children[0]).user else before)
  }

  /** The output of the last child that succeeded with output, if any did. */
  function LastData(children: seq<Child>, before: Output): Output {
    if children == [] then before
    else LastData(children[1..],
           if children[0].error.None? && LastOutput(children[0]).Some? then LastOutput(children[0]).value else before)
  }

  lemma SplitAny(children: seq<Child>)
    requires children != []
    ensures AnyUsed(children) <==> (Reports(children[0]) && Summarize(children[0]).used) || AnyUsed(children[1..])
    ensures AnyAttempted(children)
       <==> (Reports(children[0]) && Summarize(children[0]).attempted) || AnyAttempted(children[1..])
  {
    assert children[0] in children;
    assert forall c :: c in children <==> c == children[0] || c in children[1..];
  }

  /** What one completion does to the first stack entry. */
  lemma CompleteStep(row: Parent, child: Child)
    requires Accepts(row)
    ensures
      var end := Complete(row, child);
      |end.stack| == |row.stack| && end.stack[1..] == row.stack[1..] && end.stack[0].node == row.stack[0].node
    ensures
      var (before, after) := (row.stack[0], Complete(row, child).stack[0]);
      after.metadata.usage ==
        (if Reports(child) then Merge(before.metadata.usage, Summarize(child)) else before.metadata.usage) &&
      after.metadata.resumeError == (if child.error.Some? then child.error else before.metadata.resumeError) &&
      after.data == (if child.error.None? && LastOutput(child).Some? then LastOutput(child).value else before.data)
  {
  }

  /**
   After any number of completions the first stack entry carries the union of all
   credential flags, the last named user, the last error and the last output; the
   status never moves and no other entry is touched.
   */
  lemma {:induction false} CompletionsAddUp(row: Parent, children: seq<Child>)
    requires Accepts(row)
    ensures
      var end := CompleteAll(row, children);
      |end.stack| == |row.stack| && end.stack[1..] == row.stack[1..] && end.stack[0].node == row.stack[0].node
    ensures
      var (first, last) := (row.stack[0], CompleteAll(row, children).stack[0]);
      (last.metadata.usage.used <==> first.metadata.usage.used || AnyUsed(children)) &&
      (last.metadata.usage.attempted <==> first.metadata.usage.attempted || AnyAttempted(children)) &&
      last.metadata.usage.user == LastUser(children, first.metadata.usage.user) &&
      last.metadata.resumeError == LastError(children, first.metadata.resumeError) &&
      last.data == LastData(children, first.data)
    decreases |children|
  {
    if children != [] {
      SplitAny(children);
      CompleteStep(row, children[0]);
      CompletionsAddUp(Complete(row, children[0]), children[1..]);
    }
  }

  /** Order and repetition of the children do not matter for the flags. */
  lemma FlagsIgnoreOrder(row: Parent, a: seq<Child>, b: seq<Child>)
    requires Accepts(row) && forall c :: c in a <==> c in b
    ensures
      var (x, y) := (CompleteAll(row, a).stack[0].metadata.usage, CompleteAll(row, b).stack[0].metadata.usage);
      x.used == y.used && x.attempted == y.attempted
  {
    CompletionsAddUp(row, a);
    CompletionsAddUp(row, b);
  }

  /**
   One failed child decides the resume: over completions one after another the parent
   carries an error as soon as any child has failed, even when the last one succeeded.
   */
  lemma ErrorStaysIff(row: Parent, children: seq<Child>)
    requires Accepts(row) && row.stack[0].metadata.resumeError.None?
    ensures CompleteAll(row, children).stack[0].metadata.resumeError.None?
       <==> forall c :: c in children ==> c.error.None?
  {
    CompletionsAddUp(row, children);
    LastErrorIff(children, None);
  }

  lemma {:induction false} LastErrorIff(children: seq<Child>, before: Option<Fault>)
    ensures LastError(children, before).None? <==> before.None? && forall c :: c in children ==> c.error.None?
    decreases |children|
  {
    if children != [] {
      assert children[0] in children;
      assert forall c :: c in children <==> c == children[0] || c in children[1..];
      LastErrorIff(children[1..], if children[0].error.Some? then children[0].error else before);
    }
  }

  /** Flags on tasks are only ever set, on every task of the parent. */
  predicate OnlyMoreFlags(before: RunData, after: RunData) {
    after.Keys == before.Keys &&
    forall n :: n in before ==>
      |after[n]| == |before[n]| &&
      forall i :: 0 <= i < |before[n]| ==>
        (before[n][i].used ==> after[n][i].used) && (before[n][i].attempted ==> after[n][i].attempted) &&
        after[n][i].output == before[n][i].output
  }

  lemma StampOnlySets(runData: RunData, node: NodeName, usage: Usage)
    ensures OnlyMoreFlags(runData, Stamp(runData, node, usage))
  {
  }

  lemma CompleteOnlySets(row: Parent, child: Child)
    ensures OnlyMoreFlags(row.runData, Complete(row, child).runData)
    ensures Complete(row, child).status == row.status
    ensures !Accepts(row) ==> Complete(row, child) == row
  {
    if row.stack != [] {
      StampOnlySets(row.runData, row.stack[0].node, Summarize(child));
    }
  }

  lemma MoreFlagsTransitive(a: RunData, b: RunData, c: RunData)
    requires OnlyMoreFlags(a, b) && OnlyMoreFlags(b, c)
    ensures OnlyMoreFlags(a, c)
  {
    forall n | n in a
      ensures |c[n]| == |a[n]| &&
        forall i :: 0 <= i < |a[n]| ==>
          (a[n][i].used ==> c[n][i].used) && (a[n][i].attempted ==> c[n][i].attempted) &&
          c[n][i].output == a[n][i].output
    {
      assert n in b;
      assert |b[n]| == |a[n]|;
    }
  }

  /** On every task of the parent flags only grow; a parent that does not wait is left alone. */
  lemma {:induction false} TaskFlagsOnlyGrow(row: Parent, children: seq<Child>)
    ensures OnlyMoreFlags(row.runData, CompleteAll(row, children).runData)
    ensures CompleteAll(row, children).status == row.status
    ensures !Accepts(row) ==> CompleteAll(row, children) == row
    decreases |children|
  {
    if children != [] {
      var next := Complete(row, children[0]);
      CompleteOnlySets(row, children[0]);
      TaskFlagsOnlyGrow(next, children[1..]);
      MoreFlagsTransitive(row.runData, next.runData, CompleteAll(next, children[1..]).runData);
    }
  }
}
