/**
 * The notification delegate: a queue of callbacks, each of which receives
 * every notification the transport passes on.
 */
module Notify {
  import opened Wrappers

  /** A callback, by identity (the client registers closures; two closures are never the same one). */
  type CallbackId = nat

  /** The dict `{'data': data, 'handle': handle}` each callback receives. */
  datatype Record = Record(data: seq<bv8>, handle: nat)

  /** One invocation of one callback. */
  datatype Delivery = Delivery(callback: CallbackId, record: Record)

  /** `list.remove` of an entry that is not there. */
  datatype RegistryError = NotRegistered

  /** The position of the first occurrence of `c`. */
  function FirstIndex(q: seq<CallbackId>, c: CallbackId): (i: nat)
    requires c in q
    ensures i < |q| && q[i] == c
    ensures forall j :: 0 <= j < i ==> q[j] != c
  {
    if q[0] == c then 0 else 1 + FirstIndex(q[1..], c)
  }

  /** The queue after `list.remove(c)`: its first occurrence of `c` taken out, the rest in order. */
  function RemoveFirst(q: seq<CallbackId>, c: CallbackId): seq<CallbackId>
    requires c in q
  {
    var i := FirstIndex(q, c);
    q[..i] + q[i + 1..]
  }

  /** Removing takes out exactly one occurrence of `c` and nothing else. */
  lemma RemoveFirstCount(q: seq<CallbackId>, c: CallbackId)
    requires c in q
    ensures |RemoveFirst(q, c)| == |q| - 1
    ensures multiset(RemoveFirst(q, c)) == multiset(q) - multiset{c}
  {
    var i := FirstIndex(q, c);
    assert q == q[..i] + [c] + q[i + 1..];
    assert multiset(q) == multiset(q[..i]) + multiset{c} + multiset(q[i + 1..]);
  }

  /** Entries before the first `c` keep their places; those after it move up by one. */
  lemma RemoveFirstOrder(q: seq<CallbackId>, c: CallbackId, j: nat)
    requires c in q && j < |q| - 1
    ensures RemoveFirst(q, c)[j] == if j < FirstIndex(q, c) then q[j] else q[j + 1]
  {
  }

  /** Registering a callback the queue does not hold and removing it again restores the queue. */
  lemma RemoveJustRegistered(q: seq<CallbackId>, c: CallbackId)
    requires c !in q
    ensures RemoveFirst(q + [c], c) == q
  {
    var q' := q + [c];
    var i := FirstIndex(q', c);
    assert i == |q|;
    assert q'[..|q|] == q;
  }

  class NotifyDelegate {
    /** `self.queue`: the registered callbacks in registration order. */
    var queue: seq<CallbackId>

    constructor ()
      ensures queue == []
    {
      queue := [];
    }

    /** `register`: appends the callback. */
    method Register(c: CallbackId)
      modifies this
      ensures queue == old(queue) + [c]
    {
      queue := queue + [c];
    }

    /** `deregister`: removes the first occurrence; an error when the callback is not registered. */
    method Deregister(c: CallbackId) returns (res: Outcome<RegistryError>)
      modifies this
      ensures c in old(queue) ==> res == Pass && queue == RemoveFirst(old(queue), c)
      ensures c !in old(queue) ==> res == Fail(NotRegistered) && queue == old(queue)
    {
      if c in queue {
        queue := RemoveFirst(queue, c);
        res := Pass;
      } else {
        res := Fail(NotRegistered);
      }
    }

    /**
     * `handleNotification`: builds one record from the notification and invokes
     * every registered callback with it, in queue order. The invocations are
     * returned; what each callback does with its record is up to its owner.
     */
    method HandleNotification(handle: nat, data: seq<bv8>) returns (invoked: seq<Delivery>)
      ensures |invoked| == |queue|
      ensures forall i :: 0 <= i < |queue| ==> invoked[i] == Delivery(queue[i], Record(data, handle))
    {
      var res := Record(data, handle);
      invoked := [];
      for i := 0 to |queue|
        invariant |invoked| == i
        invariant forall j :: 0 <= j < i ==> invoked[j] == Delivery(queue[j], res)
      {
        invoked := invoked + [Delivery(queue[i], res)];
      }
    }
  }
}
