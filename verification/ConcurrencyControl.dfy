/**
 The concurrency queue and the service in front of it, as the objects they are
 (packages/cli/src/concurrency/concurrency-queue.ts and
 packages/cli/src/concurrency/concurrency-control.service.ts), proved against the steps
 of the transition system.
 */
module ConcurrencyControl {
  import Spec = ConcurrencyQueue

  class ConcurrencyQueueService {
    var capacity: int
    var queue: seq<Spec.Item>
    var next: nat
    ghost var admitted: seq<Spec.Item>
    ghost var removed: seq<Spec.Item>
    ghost var finished: nat

    ghost function State(): Spec.State
      reads this
    {
      Spec.State.State(capacity, queue, next, admitted, removed, finished)
    }

    constructor (limit: int)
      ensures State() == Spec.Fresh(limit)
    {
      capacity, queue, next := limit, [], 0;
      admitted, removed, finished := [], [], 0;
    }

    /** `throttled` says that the caller's promise is left pending. */
    method Enqueue(id: Spec.ExecutionId) returns (throttled: bool)
      modifies this
      ensures State() == Spec.Enqueue(old(State()), id)
      ensures capacity == old(capacity) - 1 && (throttled <==> old(capacity) <= 0)
      ensures
        var item := Spec.Item(id, old(next));
        if throttled then queue == old(queue) + [item] && admitted == old(admitted)
        else queue == old(queue) && admitted == old(admitted) + [item]
    {
      capacity := capacity - 1;
      var item := Spec.Item(id, next);
      next := next + 1;
      throttled := capacity < 0;
      if throttled {
        queue := queue + [item];
      } else {
        admitted := admitted + [item];
      }
    }

    method Dequeue() returns (released: seq<Spec.Item>)
      modifies this
      ensures State() == Spec.Dequeue(old(State()))
      ensures capacity == old(capacity) + 1 && old(queue) == released + queue && |released| <= 1
      ensures released == [] ==> old(queue) == []
      ensures admitted == old(admitted) + released
    {
      capacity := capacity + 1;
      finished := finished + 1;
      released := ResolveNext();
    }

    method Remove(id: Spec.ExecutionId) returns (released: seq<Spec.Item>)
      modifies this
      ensures State() == Spec.Remove(old(State()), id)
      ensures admitted == old(admitted) + released
      ensures Spec.Queued(old(queue), id) ==>
        exists i :: 0 <= i < |old(queue)| && old(queue)[i].executionId == id &&
          (forall j :: 0 <= j < i ==> old(queue)[j].executionId != id) &&
          removed == old(removed) + [old(queue)[i]] && capacity == old(capacity) + 1 &&
          old(queue)[..i] + old(queue)[i + 1..] == released + queue && (released == [] ==> queue == []) &&
          |released| <= 1
      ensures !Spec.Queued(old(queue), id) ==>
        released == [] && queue == old(queue) && removed == old(removed) && capacity == old(capacity)
    {
      released := [];
      var index := FindIndex(id);
      Spec.QueuedIff(queue, id);
      if index < |queue| {
        assert queue[index].executionId == id && forall j :: 0 <= j < index ==> queue[j].executionId != id;
        removed := removed + [queue[index]];
        queue := queue[..index] + queue[index + 1..];
        capacity := capacity + 1;
        released := ResolveNext();
        assert old(queue)[index].executionId == id &&
               old(queue)[..index] + old(queue)[index + 1..] == released + queue;
      }
    }

    method FindIndex(id: Spec.ExecutionId) returns (index: nat)
      ensures index == Spec.FirstIndex(queue, id)
    {
      index := 0;
      while index < |queue| && queue[index].executionId != id
        invariant index <= Spec.FirstIndex(queue, id)
      {
        index := index + 1;
      }
    }

    /** Resolves the promise of the waiter at the front, if there is one. */
    method ResolveNext() returns (released: seq<Spec.Item>)
      modifies `queue, `admitted
      ensures State() == Spec.ResolveNext(old(State()))
      ensures old(queue) == released + queue && |released| <= 1 && (released == [] ==> old(queue) == [])
      ensures admitted == old(admitted) + released
    {
      released := [];
      if |queue| > 0 {
        released := [queue[0]];
        admitted := admitted + released;
        queue := queue[1..];
      }
      assert old(queue) == released + queue;
    }
  }

  /** The service in front of one queue. */
  class ConcurrencyControlService {
    const production: ConcurrencyQueueService
    var isEnabled: bool
    /** The rows that `executionRepository.cancelMany` was told to cancel. */
    var canceled: set<Spec.ExecutionId>

    constructor (limit: nat)
      requires limit > 0
      ensures isEnabled && canceled == {} && fresh(production) && production.State() == Spec.Fresh(limit)
    {
      production := new ConcurrencyQueueService(limit);
      isEnabled, canceled := true, {};
    }

    /** From here on slots given back let nobody through. */
    method Disable()
      modifies this`isEnabled
      ensures !isEnabled
    {
      isEnabled := false;
    }

    method Release()
      modifies production
      ensures production.State() == if isEnabled then Spec.Dequeue(old(production.State())) else old(production.State())
    {
      if isEnabled {
        var _ := production.Dequeue();
      }
    }

    /** Empties the queue id by id and cancels the given rows, unless the service has been disabled before. */
    method RemoveAll(executionIdsToCancel: seq<Spec.ExecutionId>)
      modifies production, this`canceled
      ensures
        production.State() ==
        if isEnabled then Spec.RemoveEach(old(production.State()), Spec.GetAll(old(production.queue)))
        else old(production.State())
      ensures
        forall id :: id in canceled <==> id in old(canceled) || (isEnabled && id in executionIdsToCancel)
    {
      if !isEnabled {
        return;
      }
      var ids := Spec.GetAll(production.queue);
      ghost var before := production.State();
      var i := 0;
      while i < |ids|
        invariant i <= |ids| && canceled == old(canceled)
        invariant Spec.RemoveEach(production.State(), ids[i..]) == Spec.RemoveEach(before, ids)
      {
        assert ids[i..][1..] == ids[i + 1..];
        var _ := production.Remove(ids[i]);
        i := i + 1;
      }
      if |executionIdsToCancel| > 0 {
        canceled := canceled + set id | id in executionIdsToCancel;
      }
    }
  }
}
