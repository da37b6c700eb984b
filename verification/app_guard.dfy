/** The exported C interface (src/AppGuard.cpp) for the Linux build: the
    three globals `ipc_watcher`, `app_instance` and `is_initialized` become
    the fields of one `AppGuard` object, and each `AG_` entry point a method
    or function on it. The operating system's answers the entry points
    depend on are parameters, as in the transport and guard models. */
module Facade {
  import opened Bytes
  import opened WireCodec
  import opened Watcher
  import opened Transport
  import opened Instance

  /** The caller-owned `IPCMsg` that `AG_create_IPCMsg` fills in. */
  class MsgSlot {
    var msgId: int
    var handle: seq<byte>
    var callback: Callback

    constructor (id: int, h: seq<byte>, cb: Callback)
      ensures msgId == id && handle == h && callback == cb
    {
      msgId, handle, callback := id, h, cb;
    }
  }

  /** The range `AG_create_IPCMsg` draws message ids from. */
  const MSG_ID_MIN: int := 1000
  const MSG_ID_MAX: int := 9999

  /** `random_number(min, max)`: some value of the range; which one the
      generator picks is not modelled. */
  method RandomNumber(min: int, max: int) returns (r: int)
    requires min <= max
    ensures min <= r <= max
  {
    r :| min <= r <= max;
  }

  /** `AG_create_IPCMsg`: with a null message, handle or callback nothing
      happens; otherwise the slot gets the handle, the callback and a random
      id in [1000, 9999], with no check that the id is unused. */
  method CreateIPCMsg(msg: MsgSlot?, handle: Option<seq<byte>>, callback: Option<Callback>)
    modifies msg
    ensures msg != null && (handle.None? || callback.None?) ==>
              msg.msgId == old(msg.msgId) && msg.handle == old(msg.handle) && msg.callback == old(msg.callback)
    ensures msg != null && handle.Some? && callback.Some? ==>
              msg.handle == handle.value && msg.callback == callback.value &&
              MSG_ID_MIN <= msg.msgId <= MSG_ID_MAX
  {
    if msg == null {
      return;
    }
    if handle.None? {
      return;
    }
    if callback.None? {
      return;
    }
    var id := RandomNumber(MSG_ID_MIN, MSG_ID_MAX);
    msg.msgId := id;
    msg.handle := handle.value;
    msg.callback := callback.value;
  }

  /** The library's global state. `exited` records that `AG_init` ended the
      process with `exit(0)`, and `quitCallbacks` how often it ran the quit
      callback; `locks` is the system-wide lock namespace the guard uses. */
  class AppGuard {
    var watcher: UnixIPCWatcher?
    var instance: LinuxAppInstance?
    var isInitialized: bool
    var exited: bool
    var quitCallbacks: nat
    const locks: LockNamespace
    ghost var Repr: set<object>

    ghost predicate Valid()
      reads this, Repr
    {
      (watcher != null ==> watcher in Repr && watcher.core in Repr && watcher.core.Valid()) &&
      (instance != null ==> instance in Repr) &&
      this !in Repr && locks !in Repr
    }

    /** The globals before the first call: both pointers null, not
        initialized. */
    constructor (ns: LockNamespace)
      ensures Valid() && fresh(Repr)
      ensures watcher == null && instance == null && !isInitialized
      ensures !exited && quitCallbacks == 0 && locks == ns
    {
      watcher := null;
      instance := null;
      isInitialized := false;
      exited := false;
      quitCallbacks := 0;
      locks := ns;
      Repr := {};
    }

    /** `AG_is_loaded`. */
    predicate IsLoaded()
      reads this
    {
      isInitialized && watcher != null && instance != null
    }

    /** `AG_is_primary_instance`: the instance's verdict, false without an
        instance. */
    function IsPrimaryInstance(): (r: bool)
      reads this, instance
      ensures instance == null ==> !r
      ensures instance != null ==> r == instance.isFirst
    {
      if instance != null then instance.isFirst else false
    }

    /** `AG_get_process_id`, given the id `getpid` returns: -1 without an
        instance. */
    function GetProcessId(pid: int): (r: int)
      reads this
      ensures instance == null ==> r == -1
      ensures instance != null ==> r == pid
    {
      if instance != null then pid else -1
    }

    /** `AG_init`. Nothing happens when the library is already loaded.
        Otherwise a missing watcher is created and started, and a missing
        instance is created and initialized (with `keyFailed` and `fd` the
        answers its key generation and `open` give). A secondary instance
        then stops the watcher and, with `quitImmediate`, runs the quit
        callback if there is one, releases everything and exits; in every
        other case the library becomes initialized. `keyFailed`, `fd` and
        `flockFails` are the answers of key generation, `open` and `flock`.
        `primary` is the verdict the secondary check reads. */
    method Init(appHandle: seq<byte>, hasQuitCallback: bool, quitImmediate: bool, keyFailed: bool, fd: int,
                flockFails: bool)
      returns (ghost primary: bool)
      requires Valid() && fd >= -1
      modifies this, Repr, locks`lockFiles, locks`locked
      ensures Valid() && fresh(Repr - old(Repr))
      ensures old(IsLoaded()) ==>
                unchanged(this) && unchanged(Repr) && unchanged(locks)
      ensures !old(IsLoaded()) ==>
                primary == (if old(instance) != null then old(instance.isFirst)
                            else fd == -1 || (!flockFails && LockPath(appHandle) !in old(locks.locked)))
      ensures !old(IsLoaded()) && (primary || !quitImmediate) ==>
                isInitialized && exited == old(exited) && quitCallbacks == old(quitCallbacks) &&
                watcher != null && instance != null && IsPrimaryInstance() == primary &&
                (old(watcher) != null ==> watcher == old(watcher)) &&
                (old(instance) != null ==> instance == old(instance))
      ensures !old(IsLoaded()) && old(watcher) == null && primary ==>
                watcher.core.watching && watcher.core.processing &&
                watcher.core.messages == map[] && watcher.core.requests == []
      ensures !old(IsLoaded()) && old(watcher) == null && watcher != null ==>
                watcher.ipcKey == (if keyFailed then -1 else IpcKey(appHandle)) && watcher.msgQueueId == -1 &&
                watcher.core.invoked == []
      ensures !old(IsLoaded()) && old(instance) == null ==>
                locks.locked == old(locks.locked) + (if fd == -1 || flockFails then {} else {LockPath(appHandle)}) &&
                locks.lockFiles == old(locks.lockFiles) + (if fd == -1 then {} else {LockPath(appHandle)})
      ensures !old(IsLoaded()) && !primary && !quitImmediate ==>
                !watcher.core.watching && !watcher.core.processing &&
                watcher.core.messages == map[] && watcher.core.requests == []
      ensures !old(IsLoaded()) && !primary && quitImmediate ==>
                exited && watcher == null && instance == null && !isInitialized &&
                quitCallbacks == old(quitCallbacks) + (if hasQuitCallback then 1 else 0)
      ensures !old(IsLoaded()) && old(instance) == null && instance != null ==>
                instance.appHandle == appHandle && instance.lockFd == fd
    {
      primary := false;
      if !isInitialized || watcher == null || instance == null {
        EnsureWatcher(appHandle, keyFailed);
        EnsureInstance(appHandle, fd, flockFails);
        var isPrimary := IsPrimaryInstance();
        primary := isPrimary;
        if !isPrimary {
          watcher.core.Stop();
          if quitImmediate {
            if hasQuitCallback {
              quitCallbacks := quitCallbacks + 1;
            }
            Release();
            exited := true;
            return;
          }
        }
        isInitialized := true;
      }
    }

    /** The watcher step of `AG_init`: a missing watcher is created and
        started; an existing one is kept as it is. */
    method EnsureWatcher(appHandle: seq<byte>, keyFailed: bool)
      requires Valid()
      modifies this`watcher, this`Repr
      ensures Valid() && fresh(Repr - old(Repr)) && watcher != null
      ensures old(watcher) != null ==> watcher == old(watcher) && Repr == old(Repr)
      ensures old(watcher) == null ==>
                fresh(watcher) && fresh(watcher.core) &&
                watcher.core.watching && watcher.core.processing &&
                watcher.core.messages == map[] && watcher.core.requests == [] &&
                watcher.ipcKey == (if keyFailed then -1 else IpcKey(appHandle)) && watcher.msgQueueId == -1 &&
                watcher.core.invoked == []
    {
      if watcher == null {
        var w := new UnixIPCWatcher(appHandle, keyFailed);
        w.core.Start();
        watcher := w;
        Repr := Repr + {w, w.core};
      }
    }

    /** The instance step of `AG_init`: a missing instance is created and
        initialized against the lock namespace; an existing one is kept. */
    method EnsureInstance(appHandle: seq<byte>, fd: int, flockFails: bool)
      requires Valid() && fd >= -1
      modifies this`instance, this`Repr, locks`lockFiles, locks`locked
      ensures Valid() && fresh(Repr - old(Repr)) && instance != null
      ensures old(instance) != null ==>
                instance == old(instance) && Repr == old(Repr) &&
                locks.lockFiles == old(locks.lockFiles) && locks.locked == old(locks.locked)
      ensures old(instance) == null ==>
                fresh(instance) && instance.appHandle == appHandle && instance.lockFd == fd &&
                (instance.isFirst <==> fd == -1 || (!flockFails && LockPath(appHandle) !in old(locks.locked))) &&
                (fd == -1 ==> locks.lockFiles == old(locks.lockFiles) && locks.locked == old(locks.locked)) &&
                (fd != -1 ==> locks.lockFiles == old(locks.lockFiles) + {LockPath(appHandle)} &&
                              locks.locked == old(locks.locked) + (if flockFails then {} else {LockPath(appHandle)}))
    {
      if instance == null {
        var inst := new LinuxAppInstance();
        inst.Init(appHandle, locks, fd, flockFails);
        instance := inst;
        Repr := Repr + {inst};
      }
    }

    /** `AG_release`: releases and drops the instance, stops and drops the
        watcher (whose destructor stops it again and removes a queue this
        process created), and clears `is_initialized`. With both pointers
        already null it changes nothing but the flag, so a second call is a
        no-op. */
    method Release()
      requires Valid()
      modifies this, Repr, locks`lockFiles, locks`locked
      ensures Valid() && Repr == old(Repr)
      ensures watcher == null && instance == null && !isInitialized
      ensures exited == old(exited) && quitCallbacks == old(quitCallbacks)
      ensures old(instance) == null || old(instance.lockFd) == -1 || !old(instance.isFirst) ==>
                locks.lockFiles == old(locks.lockFiles) && locks.locked == old(locks.locked)
      ensures old(instance) != null && old(instance.lockFd) != -1 && old(instance.isFirst) ==>
                locks.lockFiles == old(locks.lockFiles) - {LockPath(old(instance.appHandle))} &&
                locks.locked == old(locks.locked) - {LockPath(old(instance.appHandle))}
      ensures old(instance) != null ==> old(instance).lockFd == -1
      ensures old(watcher) != null ==>
                !old(watcher).core.watching && !old(watcher).core.processing &&
                old(watcher).core.messages == map[] && old(watcher).core.requests == [] &&
                old(watcher).msgQueueId == -1
    {
      if instance != null {
        instance.Release(locks);
        instance := null;
      }
      if watcher != null {
        watcher.core.Stop();
        var _ := watcher.Destroy();
        watcher := null;
      }
      isInitialized := false;
    }

    /** `AG_register_msg`: registers the slot's message with the watcher;
        a no-op without a watcher or without a slot. */
    method RegisterMsg(msg: MsgSlot?)
      requires Valid()
      modifies if watcher != null then {watcher.core} else {}
      ensures Valid()
      ensures watcher == null || msg == null ==> unchanged(Repr)
      ensures watcher != null && msg != null ==>
                var r := Registration(msg.msgId, msg.handle, msg.callback);
                watcher.core.messages ==
                  (if RegistrationKey(r) in old(watcher.core.messages) then old(watcher.core.messages)
                   else old(watcher.core.messages)[RegistrationKey(r) := r]) &&
                watcher.core.requests == old(watcher.core.requests) &&
                watcher.core.invoked == old(watcher.core.invoked) &&
                watcher.core.watching == old(watcher.core.watching) &&
                watcher.core.processing == old(watcher.core.processing)
    {
      if watcher != null && msg != null {
        watcher.core.RegisterIPCMsg(Registration(msg.msgId, msg.handle, msg.callback));
      }
    }

    /** `AG_unregister_msg`: a no-op without a watcher. */
    method UnregisterMsg(id: int)
      requires Valid()
      modifies if watcher != null then {watcher.core} else {}
      ensures Valid()
      ensures watcher == null ==> unchanged(Repr)
      ensures watcher != null ==>
                ((forall k :: k in old(watcher.core.messages) ==> old(watcher.core.messages)[k].id != id) ==>
                   watcher.core.messages == old(watcher.core.messages)) &&
                ((exists k :: k in old(watcher.core.messages) && old(watcher.core.messages)[k].id == id) ==>
                   exists k :: k in old(watcher.core.messages) && old(watcher.core.messages)[k].id == id &&
                               watcher.core.messages == old(watcher.core.messages) - {k}) &&
                watcher.core.requests == old(watcher.core.requests) &&
                watcher.core.invoked == old(watcher.core.invoked) &&
                watcher.core.watching == old(watcher.core.watching) &&
                watcher.core.processing == old(watcher.core.processing)
    {
      if watcher != null {
        watcher.core.UnregisterIPCMsg(id);
      }
    }

    /** `AG_send_msg_request`: only a secondary instance with a watcher sends
        a non-null request; the queue lookup, buffer allocation and `msgsnd`
        answers are parameters. Returns the message text delivered, if any. */
    method SendMsgRequest(request: Option<MsgData>, queueFound: bool, bufferAllocated: bool,
                          msgsnd: nat -> MsgsndResult)
      returns (sent: Option<seq<byte>>)
      requires Valid()
      modifies if watcher != null then {watcher.core} else {}
      ensures Valid()
      ensures IsPrimaryInstance() || watcher == null || request.None? ==> sent == None && unchanged(Repr)
      ensures sent.Some? ==>
                !IsPrimaryInstance() && watcher != null && request.Some? &&
                |Serialize(request.value)| <= MAX_IPC_MESSAGE_BYTES_UNIX &&
                sent.value == QueueText(Serialize(request.value))
      ensures !IsPrimaryInstance() && watcher != null && request.Some? && watcher.ipcKey != -1 && queueFound &&
              |Serialize(request.value)| <= MAX_IPC_MESSAGE_BYTES_UNIX && bufferAllocated && msgsnd(0) == MsgSent ==>
                sent == Some(QueueText(Serialize(request.value)))
    {
      sent := None;
      if !IsPrimaryInstance() && watcher != null && request.Some? {
        var _, s := watcher.SendMsg(request.value, queueFound, bufferAllocated, msgsnd);
        sent := s;
      }
    }
  }

  /** The first launch of an application: it is primary, its watcher runs,
      and it has registered `cb` under `topic`. */
  method LaunchPrimary(locks: LockNamespace, appHandle: seq<byte>, topic: seq<byte>, cb: Callback)
    returns (g: AppGuard)
    requires locks.locked == {}
    requires forall i :: 0 <= i < |topic| ==> topic[i] != 0
    modifies locks`lockFiles, locks`locked
    ensures fresh(g) && g.Valid() && fresh(g.Repr) && g.locks == locks
    ensures g.IsPrimaryInstance() && g.watcher != null && g.watcher.ipcKey == IpcKey(appHandle)
    ensures g.watcher.core.watching && g.watcher.core.processing
    ensures g.watcher.core.requests == [] && g.watcher.core.invoked == []
    ensures g.watcher.core.messages.Keys == {topic} && g.watcher.core.messages[topic].callback == cb
    ensures LockPath(appHandle) in locks.locked
  {
    g := new AppGuard(locks);
    var _ := g.Init(appHandle, false, false, false, 3, false);
    var slot := new MsgSlot(0, [], Callback(0));
    CreateIPCMsg(slot, Some(topic), Some(cb));
    g.RegisterMsg(slot);
    CStrOfNulFree(topic);
  }

  /** A later launch of the same application while the first holds the
      lock: it is secondary and sends `request` over the queue. */
  method LaunchSecondaryAndSend(locks: LockNamespace, appHandle: seq<byte>, request: MsgData)
    returns (isFirst: bool, sent: Option<seq<byte>>)
    requires LockPath(appHandle) in locks.locked
    requires |Serialize(request)| <= MAX_IPC_MESSAGE_BYTES_UNIX
    modifies locks`lockFiles, locks`locked
    ensures !isFirst && sent == Some(QueueText(Serialize(request)))
  {
    var g := new AppGuard(locks);
    var _ := g.Init(appHandle, false, false, false, 4, false);
    isFirst := g.IsPrimaryInstance();
    IpcKeyRange(appHandle);
    sent := g.SendMsgRequest(Some(request), true, true, _ => MsgSent);
  }

  /** The primary's two threads at work: the transport thread creates the
      queue and receives one message text, and the dispatch thread then
      drains the queue once. */
  method ReceiveAndDispatch(w: UnixIPCWatcher, mtext: seq<byte>, request: MsgData, cb: Callback)
    returns (invoked: seq<Invocation>)
    requires w.core.Valid() && w.ipcKey != -1
    requires w.core.watching && w.core.processing && w.core.requests == [] && w.core.invoked == []
    requires request.handle.Some? && CStr(request.handle.value) in w.core.messages
    requires w.core.messages[CStr(request.handle.value)].callback == cb
    requires QueueAdmitted(mtext) == [request]
    modifies w, w.core
    ensures invoked == [Invocation(cb, request)]
  {
    var _ := w.ProcessMessages(QueueCreated(7), -1, true, [Received(mtext)]);
    assert QueueEventsAdmitted([Received(mtext)]) == [request] by {
      assert [Received(mtext)][1..] == [];
    }
    w.core.WatchProcessPass();
    assert Dispatched([request], w.core.messages) == [Invocation(cb, request)] by {
      assert [request][1..] == [];
    }
    invoked := w.core.invoked;
  }

  /** End to end on one machine: a first launch registers a callback for a
      topic, a second launch of the same application is secondary and sends
      a request on that topic, the first launch's transport thread receives
      the message text, and one dispatch pass runs exactly the registered
      callback on the request. */
  method SecondaryRequestReachesPrimary(appHandle: seq<byte>, topic: seq<byte>, payload: seq<byte>, cb: Callback)
    returns (primaryIsFirst: bool, secondaryIsFirst: bool, invoked: seq<Invocation>)
    requires forall i :: 0 <= i < |topic| ==> topic[i] != 0
    requires forall i :: 0 <= i < |payload| ==> payload[i] != 0
    requires 8 + |topic| + |payload| <= MAX_IPC_MESSAGE_BYTES_UNIX
    ensures primaryIsFirst && !secondaryIsFirst
    ensures invoked == [Invocation(cb, MsgData(Some(topic), Some(payload)))]
  {
    var locks := new LockNamespace();
    var first := LaunchPrimary(locks, appHandle, topic, cb);
    primaryIsFirst := first.IsPrimaryInstance();

    var request := MsgData(Some(topic), Some(payload));
    CStrOfNulFree(topic);
    CStrOfNulFree(payload);
    SerializedLength(request);
    var sent;
    secondaryIsFirst, sent := LaunchSecondaryAndSend(locks, appHandle, request);
    QueueDelivery(request);
    assert FieldBytes(request.handle) == topic && FieldBytes(request.data) == payload;

    var w := first.watcher;
    IpcKeyRange(appHandle);
    invoked := ReceiveAndDispatch(w, sent.value, request, cb);
  }

  /** The first launch's transport thread when the queue for its key was
      left behind by an earlier primary that ended without removing it:
      `msgget` with `IPC_EXCL` reports that the queue exists, so the watcher
      attaches as non-primary and returns without receiving; one dispatch
      pass then runs nothing. */
  method AttachAndDispatch(w: UnixIPCWatcher, staleId: nat, pending: seq<RecvEvent>)
    returns (invoked: seq<Invocation>)
    requires w.core.Valid() && w.ipcKey != -1
    requires w.core.watching && w.core.requests == [] && w.core.invoked == []
    modifies w, w.core
    ensures invoked == []
  {
    var _ := w.ProcessMessages(QueueExists, staleId, true, pending);
    w.core.WatchProcessPass();
    invoked := w.core.invoked;
  }

  /** The same thread when queue ownership follows the instance guard: the
      first launch serves the queue it found and dispatches what it
      receives. */
  method ServeStaleQueueAndDispatch(w: UnixIPCWatcher, staleId: nat, mtext: seq<byte>, request: MsgData, cb: Callback)
    returns (invoked: seq<Invocation>)
    requires w.core.Valid() && w.ipcKey != -1
    requires w.core.watching && w.core.processing && w.core.requests == [] && w.core.invoked == []
    requires request.handle.Some? && CStr(request.handle.value) in w.core.messages
    requires w.core.messages[CStr(request.handle.value)].callback == cb
    requires QueueAdmitted(mtext) == [request]
    modifies w, w.core
    ensures invoked == [Invocation(cb, request)]
  {
    var _ := w.ProcessMessagesForOwner(true, QueueExists, staleId, true, [Received(mtext)]);
    assert QueueEventsAdmitted([Received(mtext)]) == [request] by {
      assert [Received(mtext)][1..] == [];
    }
    w.core.WatchProcessPass();
    assert Dispatched([request], w.core.messages) == [Invocation(cb, request)] by {
      assert [request][1..] == [];
    }
    invoked := w.core.invoked;
  }

  /** As the source decides queue ownership: an earlier primary ended
      without removing its queue, so the next launch holds the instance
      guard (it is first) but only attaches to the queue; a later launch's
      request lands in that queue, and no callback ever runs. */
  method StaleQueueStarvesPrimary(appHandle: seq<byte>, topic: seq<byte>, payload: seq<byte>, cb: Callback)
    returns (primaryIsFirst: bool, secondaryIsFirst: bool, invoked: seq<Invocation>)
    requires forall i :: 0 <= i < |topic| ==> topic[i] != 0
    requires forall i :: 0 <= i < |payload| ==> payload[i] != 0
    requires 8 + |topic| + |payload| <= MAX_IPC_MESSAGE_BYTES_UNIX
    ensures primaryIsFirst && !secondaryIsFirst
    ensures invoked == []
  {
    var locks := new LockNamespace();
    var first := LaunchPrimary(locks, appHandle, topic, cb);
    primaryIsFirst := first.IsPrimaryInstance();

    var request := MsgData(Some(topic), Some(payload));
    CStrOfNulFree(topic);
    CStrOfNulFree(payload);
    SerializedLength(request);
    var sent;
    secondaryIsFirst, sent := LaunchSecondaryAndSend(locks, appHandle, request);

    var w := first.watcher;
    IpcKeyRange(appHandle);
    invoked := AttachAndDispatch(w, 7, [Received(sent.value)]);
  }

  /** With queue ownership following the instance guard, the same launches
      deliver: the first launch serves the queue left behind, and the
      request runs exactly the callback registered for its topic. */
  method StaleQueueServedByOwner(appHandle: seq<byte>, topic: seq<byte>, payload: seq<byte>, cb: Callback)
    returns (primaryIsFirst: bool, secondaryIsFirst: bool, invoked: seq<Invocation>)
    requires forall i :: 0 <= i < |topic| ==> topic[i] != 0
    requires forall i :: 0 <= i < |payload| ==> payload[i] != 0
    requires 8 + |topic| + |payload| <= MAX_IPC_MESSAGE_BYTES_UNIX
    ensures primaryIsFirst && !secondaryIsFirst
    ensures invoked == [Invocation(cb, MsgData(Some(topic), Some(payload)))]
  {
    var locks := new LockNamespace();
    var first := LaunchPrimary(locks, appHandle, topic, cb);
    primaryIsFirst := first.IsPrimaryInstance();

    var request := MsgData(Some(topic), Some(payload));
    CStrOfNulFree(topic);
    CStrOfNulFree(payload);
    SerializedLength(request);
    var sent;
    secondaryIsFirst, sent := LaunchSecondaryAndSend(locks, appHandle, request);
    QueueDelivery(request);
    assert FieldBytes(request.handle) == topic && FieldBytes(request.data) == payload;

    var w := first.watcher;
    IpcKeyRange(appHandle);
    invoked := ServeStaleQueueAndDispatch(w, 7, sent.value, request, cb);
  }
}
