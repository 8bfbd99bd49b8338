/**
 The imperative side of packages/cli/src/active-executions.ts: each method is the code
 that runs between two awaits, proved against the step of the protocol it implements.
 */
module ActiveExecutions {
  import opened Basics
  import opened ExecutionProtocol
  import opened ExecutionTheorems
  import opened ExecutionLifecycle

  class ActiveExecutionsService {
    const cfg: Config
    var rows: map<Id, Status>
    var calls: map<Call, Add>
    var records: map<Call, Record>
    var activeExecutions: map<Id, Call>
    var held: set<Call>
    var releases: seq<Call>

    ghost function Abs(): State
      reads this
    {
      State(rows, calls, records, activeExecutions, held, releases)
    }

    ghost predicate Valid()
      reads this
    {
      Inv(Abs())
    }

    constructor (cfg: Config, rows: map<Id, Status>)
      ensures Valid() && this.cfg == cfg && Initial(Abs()) && Abs().rows == rows
    {
      this.cfg, this.rows := cfg, rows;
      calls, records, activeExecutions, held, releases := map[], map[], map[], {}, [];
    }

    /** `capacityReservation.release()` */
    method Release(c: Call)
      modifies this`held, this`releases
      ensures Abs() == ExecutionProtocol.Release(old(Abs()), c)
      ensures held == old(held) - {c}
      ensures releases == if c in old(held) then old(releases) + [c] else old(releases)
    {
      if c !in held {
        return;
      }
      held := held - {c};
      releases := releases + [c];
    }

    /** `executionPersistence.create`, awaited by `add` for a new execution. */
    method CreateRow(c: Call, id: Id)
      requires Valid() && Enabled(cfg, Abs(), Created(c, id))
      modifies this`rows, this`calls
      ensures Valid() && Abs() == Next(cfg, old(Abs()), Created(c, id))
      ensures rows == old(rows)[id := New]
      ensures
        var next := if old(calls)[c].mode == Evaluation then Updating else Reserving;
        calls == old(calls)[c := Add(old(calls)[c].kind, old(calls)[c].mode, Some(id), next)]
    {
      ghost var s := Abs();
      rows := rows[id := New];
      var shouldReserveCapacity := calls[c].mode != Evaluation;
      calls := calls[c := calls[c].(id := Some(id), phase := if shouldReserveCapacity then Reserving else Updating)];
      InvPreserved(cfg, s, Created(c, id));
    }

    /** `capacityReservation.reserve` has gone through. */
    method Reserve(c: Call)
      requires Valid() && Enabled(cfg, Abs(), Reserved(c))
      modifies this`calls, this`held
      ensures Valid() && Abs() == Next(cfg, old(Abs()), Reserved(c))
      ensures held == old(held) + {c} && calls == old(calls)[c := old(calls)[c].(phase := Updating)]
    {
      ghost var s := Abs();
      held := held + {c};
      calls := calls[c := calls[c].(phase := Updating)];
      InvPreserved(cfg, s, Reserved(c));
    }

    /** The row of a new execution turns running, if executions run in this process. */
    method StartFresh(c: Call)
      requires Valid() && Enabled(cfg, Abs(), Updated(c)) && calls[c].kind == Fresh
      modifies this`rows, this`calls
      ensures Valid() && Abs() == Next(cfg, old(Abs()), Updated(c))
      ensures
        var id := old(calls)[c].id.value;
        rows == if cfg.regular && id in old(rows) then old(rows)[id := Running] else old(rows)
      ensures calls == old(calls)[c := old(calls)[c].(phase := Ready)]
    {
      ghost var s := Abs();
      if cfg.regular {
        SetRunning(calls[c].id.value);
      }
      calls := calls[c := calls[c].(phase := Ready)];
      InvPreserved(cfg, s, Updated(c));
    }

    /** `executionRepository.setRunning`; an update of a deleted row changes nothing. */
    method SetRunning(id: Id)
      modifies this`rows
      ensures rows == if id in old(rows) then old(rows)[id := Running] else old(rows)
    {
      if id in rows {
        rows := rows[id := Running];
      }
    }

    /** The second update after claiming a `new` row. */
    method MarkRunning(c: Call)
      requires Valid() && Enabled(cfg, Abs(), MarkedRunning(c))
      modifies this`rows, this`calls
      ensures Valid() && Abs() == Next(cfg, old(Abs()), MarkedRunning(c))
      ensures
        var id := old(calls)[c].id.value;
        rows == if id in old(rows) then old(rows)[id := Running] else old(rows)
      ensures calls == old(calls)[c := old(calls)[c].(phase := Ready)]
    {
      ghost var s := Abs();
      SetRunning(calls[c].id.value);
      calls := calls[c := calls[c].(phase := Ready)];
      InvPreserved(cfg, s, MarkedRunning(c));
    }

    /** The awaited update of an existing row, and what `add` does with its answer. */
    method ClaimRow(c: Call) returns (claimed: bool)
      requires Valid() && Enabled(cfg, Abs(), Updated(c)) && calls[c].kind.Resume?
      modifies this`rows, this`calls
      ensures Valid() && Abs() == Next(cfg, old(Abs()), Updated(c))
      ensures
        var (add, id) := (old(calls)[c], old(calls)[c].id.value);
        (claimed <==> id in old(rows) && old(rows)[id] == add.kind.expected) &&
        rows == (if claimed then old(rows)[id := Running] else old(rows)) &&
        calls == old(calls)[c := add.(phase := if !claimed then Lost
                                               else if add.kind.expected == New then Claimed else Ready)]
    {
      ghost var s := Abs();
      var add := calls[c];
      var id := add.id.value;
      claimed := id in rows && rows[id] == add.kind.expected;
      if claimed {
        rows := rows[id := Running];
        calls := calls[c := add.(phase := if add.kind.expected == New then Claimed else Ready)];
      } else {
        calls := calls[c := add.(phase := Lost)];
      }
      InvPreserved(cfg, s, Updated(c));
    }

    /** The `catch` block of `add`. */
    method CatchAndRethrow(c: Call)
      requires Valid() && (Enabled(cfg, Abs(), Failed(c)) || Enabled(cfg, Abs(), Thrown(c)))
      modifies this`calls, this`held, this`releases
      ensures Valid() && held == old(held) - {c}
      ensures releases == if c in old(held) then old(releases) + [c] else old(releases)
      ensures
        var failure := if old(calls)[c].phase == Lost then AlreadyResuming else Other;
        calls == old(calls)[c := old(calls)[c].(phase := Threw(failure))]
      ensures Abs() == Next(cfg, old(Abs()), if old(calls)[c].phase == Lost then Thrown(c) else Failed(c))
    {
      ghost var s := Abs();
      ghost var e := if calls[c].phase == Lost then Thrown(c) else Failed(c);
      var failure := if calls[c].phase == Lost then AlreadyResuming else Other;
      Release(c);
      calls := calls[c := calls[c].(phase := Threw(failure))];
      InvPreserved(cfg, s, e);
    }

    /** The synchronous end of `add`. */
    method Register(c: Call, now: int)
      requires Valid() && Enabled(cfg, Abs(), Registered(c, now))
      modifies this`calls, this`records, this`activeExecutions
      ensures Valid() && Abs() == Next(cfg, old(Abs()), Registered(c, now))
      ensures
        var (add, id) := (old(calls)[c], old(calls)[c].id.value);
        activeExecutions == old(activeExecutions)[id := c] && calls == old(calls) - {c} &&
        records.Keys == old(records.Keys) + {c} &&
        (forall d :: d in old(records) && d != c ==> records[d] == old(records)[d]) &&
        records[c].id == id && records[c].mode == add.mode && records[c].status == Running &&
        records[c].outcome == Unsettled && !records[c].callbackRan && !records[c].over &&
        if id in old(activeExecutions) then
          var resumed := old(records)[old(activeExecutions)[id]];
          records[c].startedAt == resumed.startedAt && records[c].responsePromise == resumed.responsePromise
        else records[c].startedAt == now && records[c].responsePromise == None
    {
      ghost var s := Abs();
      var executionId := calls[c].id.value;
      var startedAt, responsePromise := now, None;
      if executionId in activeExecutions {
        var resumingExecution := records[activeExecutions[executionId]];
        startedAt, responsePromise := resumingExecution.startedAt, resumingExecution.responsePromise;
      }
      var execution :=
        Record(executionId, calls[c].mode, startedAt, Running, Unsettled, false, responsePromise, false, false);
      calls := calls - {c};
      records := records[c := execution];
      activeExecutions := activeExecutions[executionId := c];
      InvPreserved(cfg, s, Registered(c, now));
    }

    /** The `finally` callback. */
    method PostExecutePromiseSettled(c: Call)
      requires Valid() && Enabled(cfg, Abs(), Settled(c))
      modifies this`records, this`activeExecutions, this`held, this`releases
      ensures Valid() && Abs() == Next(cfg, old(Abs()), Settled(c))
      ensures held == old(held) - {c}
      ensures
        var before := old(records)[c];
        c in records && records == old(records)[c := records[c]] && records[c].callbackRan &&
        records[c].outcome == before.outcome && records[c].status == before.status &&
        if before.status == Waiting then activeExecutions == old(activeExecutions) && !records[c].attached
        else activeExecutions == old(activeExecutions) - {before.id}
    {
      ghost var s := Abs();
      Release(c);
      var execution := records[c].(callbackRan := true);
      if execution.status == Waiting {
        records := records[c := execution.(attached := false)];
      } else {
        records := records[c := execution];
        activeExecutions := activeExecutions - {execution.id};
      }
      InvPreserved(cfg, s, Settled(c));
    }

    method StopExecution(executionId: Id)
      requires Valid()
      modifies this`records, this`activeExecutions
      ensures Valid() && Abs() == Next(cfg, old(Abs()), Stopped(executionId))
      ensures executionId !in old(activeExecutions) ==>
                records == old(records) && activeExecutions == old(activeExecutions)
      ensures executionId in old(activeExecutions) ==>
        var c := old(activeExecutions)[executionId];
        var before := old(records)[c];
        if before.status == Waiting then
          records == old(records) && activeExecutions == old(activeExecutions) - {executionId}
        else
          activeExecutions == old(activeExecutions) && c in records && records == old(records)[c := records[c]] &&
          (before.outcome == Unsettled ==> CallbackPending(Abs(), c) && records[c] == before.(outcome := Rejected)) &&
          (before.outcome != Unsettled ==> records[c] == before)
    {
      ghost var s := Abs();
      if executionId in activeExecutions {
        var c := activeExecutions[executionId];
        if records[c].status == Waiting {
          activeExecutions := activeExecutions - {executionId};
        } else if records[c].outcome == Unsettled {
          records := records[c := records[c].(outcome := Rejected)];
        } else {
          assert records[c := records[c]] == records;
        }
      }
      InvPreserved(cfg, s, Stopped(executionId));
    }

    /** `execution.postExecutePromise.resolve`, which does nothing the second time. */
    method ResolvePromise(executionId: Id)
      requires MapOk(Abs())
      modifies this`records
      ensures Abs() == ExecutionProtocol.Resolve(old(Abs()), executionId)
      ensures records.Keys == old(records.Keys)
      ensures forall d :: d in records ==>
        var before := old(records)[d];
        var isEntry := executionId in activeExecutions && activeExecutions[executionId] == d;
        records[d] == before.(outcome := if isEntry && before.outcome == Unsettled then Resolved else before.outcome)
    {
      if executionId in activeExecutions {
        var current := activeExecutions[executionId];
        if records[current].outcome == Unsettled {
          records := records[current := records[current].(outcome := Resolved)];
        } else {
          assert records[current := records[current]] == records;
        }
      }
    }

    /** Called at the end of the run of `c`, with the id of its execution. */
    method FinalizeExecution(c: Call, executionId: Id)
      requires Valid() && Enabled(cfg, Abs(), Finalized(c)) && records[c].id == executionId
      modifies this`records
      ensures Valid() && Abs() == Next(cfg, old(Abs()), Finalized(c))
      ensures c in records && records[c].over && records.Keys == old(records.Keys)
      ensures forall d :: d in records ==>
        var before := old(records)[d];
        var isEntry := executionId in activeExecutions && activeExecutions[executionId] == d;
        records[d].outcome == (if isEntry && before.outcome == Unsettled then Resolved else before.outcome) &&
        records[d] == before.(outcome := records[d].outcome, over := before.over || d == c)
    {
      InvPreserved(cfg, Abs(), Finalized(c));
      ResolvePromise(executionId);
      records := records[c := records[c].(over := true)];
    }

    /** Throws for an execution that is not active; only a run reports, and to a live entry. */
    method SetStatus(executionId: Id, status: Status) returns (found: bool)
      requires Valid() && HasRun(Abs(), executionId)
      requires executionId in activeExecutions ==> IsLive(Abs(), activeExecutions[executionId])
      modifies this`records
      ensures Valid() && (found <==> executionId in activeExecutions)
      ensures Abs() == if found then Next(cfg, old(Abs()), StatusSet(executionId, status)) else old(Abs())
      ensures found ==>
        var c := activeExecutions[executionId];
        c in old(records) && records == old(records)[c := old(records)[c].(status := status)]
    {
      ghost var s := Abs();
      if executionId !in activeExecutions {
        return false;
      }
      var c := activeExecutions[executionId];
      records := records[c := records[c].(status := status)];
      InvPreserved(cfg, s, StatusSet(executionId, status));
      return true;
    }

    /** Throws for an execution that is not active. */
    method AttachWorkflowExecution(executionId: Id) returns (found: bool)
      requires Valid()
      modifies this`records
      ensures Valid() && (found <==> executionId in activeExecutions)
      ensures !found ==> records == old(records)
      ensures found ==>
        var c := activeExecutions[executionId];
        c in old(records) && records == old(records)[c := old(records)[c].(attached := true)]
    {
      ghost var s := Abs();
      if executionId !in activeExecutions {
        return false;
      }
      var c := activeExecutions[executionId];
      records := records[c := records[c].(attached := true)];
      InvPreserved(cfg, s, Attached(executionId));
      return true;
    }

    /** Throws for an execution that is not active. */
    method AttachResponsePromise(executionId: Id, response: nat) returns (found: bool)
      requires Valid()
      modifies this`records
      ensures Valid() && (found <==> executionId in activeExecutions)
      ensures !found ==> records == old(records)
      ensures found ==>
        var c := activeExecutions[executionId];
        c in old(records) && records == old(records)[c := old(records)[c].(responsePromise := Some(response))]
    {
      ghost var s := Abs();
      if executionId !in activeExecutions {
        return false;
      }
      var c := activeExecutions[executionId];
      records := records[c := records[c].(responsePromise := Some(response))];
      InvPreserved(cfg, s, ResponseAttached(executionId, response));
      return true;
    }

    /** The cancelling branch of the loop in `shutdown`. */
    method CancelEach(executionIds: seq<Id>)
      requires Valid()
      modifies this`records, this`activeExecutions
      ensures Valid() && Abs() == StopAll(old(Abs()), executionIds)
    {
      var i := 0;
      while i < |executionIds|
        invariant 0 <= i <= |executionIds| && Valid()
        invariant StopAll(Abs(), executionIds[i..]) == StopAll(old(Abs()), executionIds)
      {
        assert executionIds[i..][1..] == executionIds[i + 1..];
        StopExecution(executionIds[i]);
        i := i + 1;
      }
    }

    method DropIfIdle(executionId: Id)
      requires Valid() && executionId in activeExecutions
      modifies this`activeExecutions
      ensures Valid()
      ensures
        activeExecutions ==
        old(activeExecutions) - if Outlasts(old(Abs()), executionId) then {} else {executionId}
    {
      ghost var before := Abs();
      var status := records[activeExecutions[executionId]].status;
      if status == Waiting || status == New {
        activeExecutions := activeExecutions - {executionId};
        InvPreserved(cfg, before, Dropped(executionId));
      }
    }

    /** The other branch: what is idle does not block the shutdown. */
    method DropIdle(executionIds: seq<Id>)
      requires Valid() && (forall id :: id in executionIds ==> id in activeExecutions)
      requires forall i, j :: 0 <= i < j < |executionIds| ==> executionIds[i] != executionIds[j]
      modifies this`activeExecutions
      ensures Valid()
      ensures forall id :: id in activeExecutions <==>
                id in old(activeExecutions) && (id in executionIds ==> Outlasts(old(Abs()), id))
      ensures forall id :: id in activeExecutions ==> activeExecutions[id] == old(activeExecutions)[id]
    {
      var i := 0;
      while i < |executionIds|
        invariant 0 <= i <= |executionIds| && Valid()
        invariant forall id :: id in activeExecutions <==>
                    id in old(activeExecutions) && (id in executionIds[..i] ==> Outlasts(old(Abs()), id))
        invariant forall id :: id in activeExecutions ==> activeExecutions[id] == old(activeExecutions)[id]
      {
        var executionId := executionIds[i];
        assert executionId in executionIds && executionId !in executionIds[..i];
        assert executionIds[..i + 1] == executionIds[..i] + [executionId];
        DropIfIdle(executionId);
        i := i + 1;
      }
    }

    /**
     The first part of `shutdown`; `executionIds` are the keys of the map.  Afterwards
     the source waits until the map is empty.
     */
    method Shutdown(cancelAll: bool, executionIds: seq<Id>)
      requires Valid() && (forall id :: id in executionIds <==> id in activeExecutions)
      requires forall i, j :: 0 <= i < j < |executionIds| ==> executionIds[i] != executionIds[j]
      modifies this`records, this`activeExecutions
      ensures Valid()
      ensures cfg.regular && cancelAll ==> Abs() == StopAll(old(Abs()), executionIds)
      ensures !(cfg.regular && cancelAll) ==>
                records == old(records) &&
                forall id :: id in activeExecutions <==> id in old(activeExecutions) && Outlasts(old(Abs()), id)
    {
      if cfg.regular && cancelAll {
        CancelEach(executionIds);
      } else {
        DropIdle(executionIds);
      }
    }
  }

  /** A shutdown that does not cancel waits for these executions only. */
  predicate Outlasts(s: State, id: Id) {
    Current(s, id).Some? && Current(s, id).value.status != Waiting && Current(s, id).value.status != New
  }
}
