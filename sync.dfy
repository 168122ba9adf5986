/** The two small stateful utilities of the composer: the keyed lock set that
    suppresses re-entrant reactions while the editor rewrites itself, and the
    change notifier that fans an event out to its listeners
    (src/contest/text-editor/utils/index.ts). */
module Sync {

  /** `MultiLock<T>`: a map from key to a locked flag. A key never touched
      reads as unlocked, and locks are not counted: one `unlock` undoes any
      number of `lock`s. */
  class MultiLock<K(==, !new)> {
    var locks: map<K, bool>

    constructor ()
      ensures locks == map[]
      ensures forall k :: !IsLocked(k)
    {
      locks := map[];
    }

    /** `this._locks.get(key) || false`. */
    function IsLocked(key: K): bool
      reads this
    {
      key in locks && locks[key]
    }

    method Lock(key: K)
      modifies this
      ensures locks == old(locks)[key := true]
      ensures IsLocked(key)
      ensures forall k :: k != key ==> IsLocked(k) == old(IsLocked(k))
    {
      locks := locks[key := true];
    }

    method Unlock(key: K)
      modifies this
      ensures locks == old(locks)[key := false]
      ensures !IsLocked(key)
      ensures forall k :: k != key ==> IsLocked(k) == old(IsLocked(k))
    {
      locks := locks[key := false];
    }
  }

  /** Whether `cbs` lists each callback at most once, as a `Set` does. */
  predicate NoDuplicates<C(==)>(cbs: seq<C>) {
    forall i, j :: 0 <= i < j < |cbs| ==> cbs[i] != cbs[j]
  }

  /** `cbs` without `cb`, order kept. */
  function Without<C(==)>(cbs: seq<C>, cb: C): (r: seq<C>)
    ensures forall i :: 0 <= i < |r| ==> r[i] in cbs && r[i] != cb
    ensures forall i :: 0 <= i < |cbs| && cbs[i] != cb ==> cbs[i] in r
    ensures NoDuplicates(cbs) ==> NoDuplicates(r)
    ensures cb !in cbs ==> r == cbs
  {
    if cbs == [] then []
    else if cbs[0] == cb then Without(cbs[1..], cb)
    else [cbs[0]] + Without(cbs[1..], cb)
  }

  /** The rest of a duplicate-free list is duplicate-free and does not
      hold its first element. */
  lemma NoDuplicatesTail<C>(cbs: seq<C>)
    requires NoDuplicates(cbs) && |cbs| > 0
    ensures NoDuplicates(cbs[1..]) && cbs[0] !in cbs[1..]
  {
    var tail := cbs[1..];
    forall a, b | 0 <= a < b < |tail| ensures tail[a] != tail[b] {
      assert tail[a] == cbs[a + 1] && tail[b] == cbs[b + 1];
    }
    forall k | 0 <= k < |tail| ensures tail[k] != cbs[0] {
      assert tail[k] == cbs[k + 1];
    }
  }

  /** Deleting a callback from a duplicate-free list removes it from its
      one position and leaves the others in subscription order, as
      `Set.delete` does. */
  lemma {:induction false} WithoutAt<C>(cbs: seq<C>, i: int)
    requires NoDuplicates(cbs) && 0 <= i < |cbs|
    ensures Without(cbs, cbs[i]) == cbs[..i] + cbs[i + 1..]
  {
    var x, tail := cbs[0], cbs[1..];
    NoDuplicatesTail(cbs);
    if i == 0 {
      calc {
        Without(cbs, cbs[i]);
        Without(tail, x);
        tail;
        { assert cbs[..0] == []; }
        cbs[..0] + cbs[1..];
      }
    } else {
      var y := cbs[i];
      assert y == tail[i - 1] && x != y;
      calc {
        Without(cbs, y);
        [x] + Without(tail, y);
        { WithoutAt(tail, i - 1); }
        [x] + (tail[..i - 1] + tail[i..]);
        { assert [x] + tail[..i - 1] == cbs[..i]; assert tail[i..] == cbs[i + 1..]; }
        cbs[..i] + cbs[i + 1..];
      }
    }
  }

  /** After an unsubscribe the remaining listeners answer in the order
      they subscribed, the removed one skipped. */
  lemma ResponsesAfterUnsubscribe<C, E, R>(cbs: seq<C>, i: int, respond: (C, E) -> R, event: E)
    requires NoDuplicates(cbs) && 0 <= i < |cbs|
    ensures Responses(Without(cbs, cbs[i]), respond, event)
            == Responses(cbs[..i], respond, event) + Responses(cbs[i + 1..], respond, event)
  {
    WithoutAt(cbs, i);
    ResponsesConcat(cbs[..i], cbs[i + 1..], respond, event);
  }

  /** The listeners of two lists answer as the first list, then the
      second. */
  lemma {:induction false} ResponsesConcat<C, E, R>(a: seq<C>, b: seq<C>, respond: (C, E) -> R, event: E)
    ensures Responses(a + b, respond, event) == Responses(a, respond, event) + Responses(b, respond, event)
  {
    if a == [] {
      assert a + b == b;
    } else {
      assert (a + b)[1..] == a[1..] + b;
      ResponsesConcat(a[1..], b, respond, event);
    }
  }

  /** The responses of the listeners, in subscription order. */
  function Responses<C, E, R>(cbs: seq<C>, respond: (C, E) -> R, event: E): (r: seq<R>)
    ensures |r| == |cbs|
    ensures forall i :: 0 <= i < |cbs| ==> r[i] == respond(cbs[i], event)
  {
    if cbs == [] then [] else [respond(cbs[0], event)] + Responses(cbs[1..], respond, event)
  }

  /** `ChangeNotifier<TEvent, TResponse>`. A `Set` of callbacks iterates in
      insertion order and ignores a second insertion of the same callback,
      so the set is a duplicate-free sequence in subscription order. The
      callbacks' code is not part of the model: `respond(cb, event)` stands
      for the value callback `cb` returns. */
  class ChangeNotifier<C(==), E, R> {
    var callbacks: seq<C>

    predicate Valid()
      reads this
    {
      NoDuplicates(callbacks)
    }

    constructor ()
      ensures Valid() && callbacks == []
    {
      callbacks := [];
    }

    /** `listen(cb)`: adds the callback unless it is already there. */
    method Listen(cb: C)
      requires Valid()
      modifies this
      ensures Valid()
      ensures callbacks == if cb in old(callbacks) then old(callbacks) else old(callbacks) + [cb]
    {
      if cb !in callbacks {
        callbacks := callbacks + [cb];
      }
    }

    /** The function `listen` returns: deletes the callback. */
    method Unsubscribe(cb: C)
      requires Valid()
      modifies this
      ensures Valid()
      ensures callbacks == Without(old(callbacks), cb)
      ensures cb !in callbacks
      ensures forall i :: 0 <= i < |old(callbacks)| && old(callbacks)[i] == cb ==>
        callbacks == old(callbacks)[..i] + old(callbacks)[i + 1..]
    {
      forall i | 0 <= i < |callbacks| && callbacks[i] == cb
        ensures Without(callbacks, cb) == callbacks[..i] + callbacks[i + 1..]
      {
        WithoutAt(callbacks, i);
      }
      callbacks := Without(callbacks, cb);
    }

    method Clear()
      modifies this
      ensures Valid() && callbacks == []
    {
      callbacks := [];
    }

    /** `notifySync(event)`: calls every callback in subscription order and
      collects what each returns. */
    method NotifySync(event: E, respond: (C, E) -> R) returns (responses: seq<R>)
      ensures responses == Responses(callbacks, respond, event)
      ensures |responses| == |callbacks|
    {
      responses := [];
      var i := 0;
      while i < |callbacks|
        invariant 0 <= i <= |callbacks|
        invariant responses == Responses(callbacks[..i], respond, event)
      {
        assert callbacks[..i + 1] == callbacks[..i] + [callbacks[i]];
        ResponsesAppend(callbacks[..i], callbacks[i], respond, event);
        responses := responses + [respond(callbacks[i], event)];
        i := i + 1;
      }
      assert callbacks[..i] == callbacks;
    }
  }

  lemma {:induction false} ResponsesAppend<C, E, R>(cbs: seq<C>, cb: C, respond: (C, E) -> R, event: E)
    ensures Responses(cbs + [cb], respond, event) == Responses(cbs, respond, event) + [respond(cb, event)]
  {
    if cbs != [] {
      assert (cbs + [cb])[1..] == cbs[1..] + [cb];
      ResponsesAppend(cbs[1..], cb, respond, event);
    }
  }

  /** Subscribing a new callback and then unsubscribing it restores the
      listener list exactly. */
  lemma {:induction false} ListenThenUnsubscribeRestores<C>(cbs: seq<C>, cb: C)
    requires cb !in cbs
    ensures Without(cbs + [cb], cb) == cbs
  {
    var xs := cbs + [cb];
    if cbs != [] {
      assert xs[0] == cbs[0] != cb;
      assert xs[1..] == cbs[1..] + [cb];
      ListenThenUnsubscribeRestores(cbs[1..], cb);
      calc {
        Without(xs, cb);
        [xs[0]] + Without(xs[1..], cb);
        [cbs[0]] + cbs[1..];
        cbs;
      }
    } else {
      assert xs[1..] == [];
    }
  }
}
