/** The message registry and the inbound dispatch queue shared by every
    transport (src/IPCWatcher.cpp). Each block the source runs under its mutex
    is one step here; the two background threads are represented by their
    run flags and by the methods that stand for one pass of their loops. */
module Watcher {
  import opened Bytes
  import opened WireCodec

  /** A user callback (`IPCMsgCallback`), identified by its address. */
  datatype Callback = Callback(address: nat)

  /** `IPCMsg`: a registration of a callback under a topic handle. */
  datatype Registration = Registration(id: int, handle: seq<byte>, callback: Callback)

  /** One run of a user callback on a queued message. */
  datatype Invocation = Invocation(callback: Callback, request: MsgData)

  /** The registry key of a registration: `std::string(msg.msg_handle)`. */
  function RegistrationKey(r: Registration): seq<byte>
  {
    CStr(r.handle)
  }

  /** Every queued message has a handle (the transports enqueue only those). */
  ghost predicate Routable(q: seq<MsgData>)
  {
    forall i :: 0 <= i < |q| ==> q[i].handle.Some?
  }

  /** The callbacks a drain of `q` runs against `registry`, in order: for each
      message, the callback registered under `std::string(msg_handle)` if
      there is one. */
  function Dispatched(q: seq<MsgData>, registry: map<seq<byte>, Registration>): seq<Invocation>
    requires Routable(q)
  {
    if q == [] then []
    else
      var key := CStr(q[0].handle.value);
      (if key in registry then [Invocation(registry[key].callback, q[0])] else [])
      + Dispatched(q[1..], registry)
  }

  lemma RoutableAppend(a: seq<MsgData>, b: seq<MsgData>)
    requires Routable(a) && Routable(b)
    ensures Routable(a + b)
  {
    forall i | 0 <= i < |a + b|
      ensures (a + b)[i].handle.Some?
    {
      if i >= |a| {
        assert (a + b)[i] == b[i - |a|];
      }
    }
  }

  /** Draining two queues one after the other runs the callbacks of the first,
      then those of the second: dispatch is FIFO. */
  lemma {:induction false} DispatchedAppend(a: seq<MsgData>, b: seq<MsgData>, registry: map<seq<byte>, Registration>)
    requires Routable(a) && Routable(b)
    ensures Routable(a + b)
    ensures Dispatched(a + b, registry) == Dispatched(a, registry) + Dispatched(b, registry)
  {
    if a == [] {
      assert a + b == b;
    } else {
      RoutableAppend(a, b);
      assert (a + b)[0] == a[0];
      assert (a + b)[1..] == a[1..] + b;
      DispatchedAppend(a[1..], b, registry);
    }
  }

  /** A message runs a callback exactly when its handle is registered, and
      then it runs the callback registered under that handle. */
  lemma {:induction false} DispatchedExactlyRegistered(q: seq<MsgData>, registry: map<seq<byte>, Registration>)
    requires Routable(q)
    ensures forall inv :: inv in Dispatched(q, registry) ==>
              inv.request in q && CStr(inv.request.handle.value) in registry &&
              inv.callback == registry[CStr(inv.request.handle.value)].callback
    ensures forall m :: m in q && CStr(m.handle.value) in registry ==>
              Invocation(registry[CStr(m.handle.value)].callback, m) in Dispatched(q, registry)
  {
    if q != [] {
      DispatchedExactlyRegistered(q[1..], registry);
      forall m | m in q && CStr(m.handle.value) in registry
        ensures Invocation(registry[CStr(m.handle.value)].callback, m) in Dispatched(q, registry)
      {
        if m != q[0] {
          assert m in q[1..];
        }
      }
    }
  }

  /** A message whose handle is not registered runs no callback. */
  lemma {:induction false} UnregisteredHandleNotDispatched(q: seq<MsgData>, registry: map<seq<byte>, Registration>, key: seq<byte>)
    requires Routable(q)
    requires key !in registry
    ensures forall inv :: inv in Dispatched(q, registry) ==>
              inv.request.handle.Some? && CStr(inv.request.handle.value) != key
  {
    DispatchedExactlyRegistered(q, registry);
  }

  /** `IPCWatcher`: the registry (`messages_`), the inbound queue
      (`msg_requests_`) and the two run flags. `invoked` records the user
      callbacks the dispatch thread has run; the two counters record the
      threads `start` has launched and the two booleans whether a launched
      thread has not yet been joined. */
  class IPCWatcher {
    var messages: map<seq<byte>, Registration>
    var requests: seq<MsgData>
    var processing: bool
    var watching: bool
    var invoked: seq<Invocation>
    var watcherThreadsLaunched: nat
    var processThreadsLaunched: nat
    var watcherJoinable: bool
    var processJoinable: bool

    ghost predicate Valid()
      reads this
    {
      Routable(requests)
    }

    /** The constructor: both flags false, nothing registered or queued. */
    constructor ()
      ensures Valid()
      ensures messages == map[] && requests == [] && invoked == []
      ensures !processing && !watching && !watcherJoinable && !processJoinable
      ensures watcherThreadsLaunched == 0 && processThreadsLaunched == 0
    {
      messages := map[];
      requests := [];
      processing := false;
      watching := false;
      invoked := [];
      watcherThreadsLaunched := 0;
      processThreadsLaunched := 0;
      watcherJoinable := false;
      processJoinable := false;
    }

    /** `start`: launches the dispatch thread only if `watching` is false and
        the transport thread only if `processing` is false; afterwards both
        flags are set, so a second call launches nothing. */
    method Start()
      requires Valid()
      modifies this
      ensures Valid()
      ensures watching && processing
      ensures watcherThreadsLaunched == old(watcherThreadsLaunched) + (if old(watching) then 0 else 1)
      ensures processThreadsLaunched == old(processThreadsLaunched) + (if old(processing) then 0 else 1)
      ensures watcherJoinable == (old(watcherJoinable) || !old(watching))
      ensures processJoinable == (old(processJoinable) || !old(processing))
      ensures messages == old(messages) && requests == old(requests) && invoked == old(invoked)
    {
      if !watching {
        watching := true;
        watcherThreadsLaunched := watcherThreadsLaunched + 1;
        watcherJoinable := true;
      }
      if !processing {
        processing := true;
        processThreadsLaunched := processThreadsLaunched + 1;
        processJoinable := true;
      }
    }

    /** `stop`: clears both flags, joins both threads, and empties the registry
        and the queue. Messages still queued are dropped without dispatch. */
    method Stop()
      requires Valid()
      modifies this
      ensures Valid()
      ensures !watching && !processing && !watcherJoinable && !processJoinable
      ensures messages == map[] && requests == []
      ensures invoked == old(invoked)
      ensures watcherThreadsLaunched == old(watcherThreadsLaunched)
      ensures processThreadsLaunched == old(processThreadsLaunched)
    {
      watching := false;
      processing := false;
      processJoinable := false;
      watcherJoinable := false;
      messages := map[];
      requests := [];
    }

    /** `RegisterIPCMsg`: a map `insert`, so a handle already present keeps
        its registration and a new handle adds exactly one entry. */
    method RegisterIPCMsg(msg: Registration)
      requires Valid()
      modifies this`messages
      ensures Valid()
      ensures RegistrationKey(msg) in old(messages) ==> messages == old(messages)
      ensures RegistrationKey(msg) !in old(messages) ==>
                messages == old(messages)[RegistrationKey(msg) := msg] &&
                |messages| == |old(messages)| + 1
    {
      var key := CStr(msg.handle);
      if key !in messages {
        messages := messages[key := msg];
      }
    }

    /** `UnregisterIPCMsg`: walks the registry in its (unspecified) iteration
        order and erases the first entry whose id matches, if any. */
    method UnregisterIPCMsg(id: int)
      requires Valid()
      modifies this`messages
      ensures Valid()
      ensures (forall k :: k in old(messages) ==> old(messages)[k].id != id) ==> messages == old(messages)
      ensures (exists k :: k in old(messages) && old(messages)[k].id == id) ==>
                exists k :: k in old(messages) && old(messages)[k].id == id &&
                            messages == old(messages) - {k}
    {
      var unvisited := messages.Keys;
      while unvisited != {}
        invariant unvisited <= messages.Keys
        invariant messages == old(messages)
        invariant forall k :: k in messages && k !in unvisited ==> messages[k].id != id
        decreases unvisited
      {
        var k :| k in unvisited;
        if messages[k].id == id {
          messages := messages - {k};
          return;
        }
        unvisited := unvisited - {k};
      }
    }

    /** `send_request`: appends a decoded message to the back of the queue
        and leaves the registry alone. */
    method SendRequest(request: MsgData)
      requires Valid() && request.handle.Some?
      modifies this`requests
      ensures Valid()
      ensures requests == old(requests) + [request]
    {
      requests := requests + [request];
    }

    /** One wake-up of the dispatch loop in `WatchProcess`: if `watching` is
        false the loop exits without draining; otherwise it pops every queued
        message in FIFO order, running the callback registered under its
        handle when there is one, and ends with an empty queue. The registry
        is never modified. */
    method WatchProcessPass()
      requires Valid()
      modifies this`requests, this`invoked
      ensures Valid()
      ensures !old(watching) ==> requests == old(requests) && invoked == old(invoked)
      ensures old(watching) ==>
                requests == [] && invoked == old(invoked) + Dispatched(old(requests), messages)
    {
      if !watching {
        return;
      }
      ghost var queue := requests;
      ghost var i := 0;
      while requests != []
        invariant 0 <= i <= |queue|
        invariant requests == queue[i..]
        invariant invoked == old(invoked) + Dispatched(queue[..i], messages)
        decreases |requests|
      {
        var request := requests[0];
        var found := CStr(request.handle.value) in messages;
        if found {
          invoked := invoked + [Invocation(messages[CStr(request.handle.value)].callback, request)];
        }
        requests := requests[1..];
        assert queue[..i + 1] == queue[..i] + [queue[i]];
        DispatchedAppend(queue[..i], [queue[i]], messages);
        i := i + 1;
      }
      assert queue[..i] == queue;
    }
  }
}
