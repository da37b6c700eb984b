/** The two transports behind the watcher (src/PlatformIPCWatcher.cpp): a
    System V message queue (Linux and macOS builds) and a named pipe (Windows
    build). The operating-system calls are replaced by their results, given
    as parameters: a boolean or a choice per call, a function from attempt
    number to result for the retry loops, and a sequence of receive events
    for the polling loops. */
module Transport {
  import opened Bytes
  import opened WireCodec
  import opened Watcher

  /** `MAX_IPC_MESSAGE_BYTES_UNIX`: the largest frame the queue transport carries. */
  const MAX_IPC_MESSAGE_BYTES_UNIX: int := 7 * 1024
  /** `MAX_IPC_MESSAGE_BYTES_WINDOWS`: the largest frame the pipe server reads. */
  const MAX_IPC_MESSAGE_BYTES_WINDOWS: int := 10 * 1024 * 1024
  /** The namespace prefix of every queue key. */
  const IPC_KEY_BASE: int := 0x1234_0000
  /** `int retries = 3` in the queue sender. */
  const UNIX_SEND_ATTEMPTS: nat := 3
  /** `int retries = 5` in the pipe client. */
  const PIPE_CONNECT_ATTEMPTS: nat := 5

  // ---------------------------------------------------------------------
  // Queue key

  /** A `char` read as a signed value (the x86 and x86-64 convention), as it is
      promoted when added to the hash. */
  function SignedChar(b: byte): int
  {
    if b < 128 then b else b - 256
  }

  /** The 32-bit hash `generate_ipc_key` folds over the handle's bytes:
      `hash = hash * 31 + c` in `uint32_t` arithmetic. */
  function FoldHash(s: seq<byte>): u32
  {
    if s == [] then 0 else (FoldHash(s[..|s| - 1]) * 31 + SignedChar(s[|s| - 1])) % TWO_32
  }

  /** The queue key for an application handle: the low 16 bits of the hash
      (`hash & 0xFFFF`) added to the namespace prefix. */
  function IpcKey(appHandle: seq<byte>): int
  {
    IPC_KEY_BASE + FoldHash(CStr(appHandle)) % 0x1_0000
  }

  /** `generate_ipc_key`: the hash loop over `std::string(app_handle)`. */
  method GenerateIpcKey(appHandle: seq<byte>) returns (key: int)
    ensures key == IpcKey(appHandle)
    ensures IPC_KEY_BASE <= key <= IPC_KEY_BASE + 0xFFFF
  {
    var keyStr := CStr(appHandle);
    var hash: u32 := 0;
    for i := 0 to |keyStr|
      invariant hash == FoldHash(keyStr[..i])
    {
      assert keyStr[..i + 1][..i] == keyStr[..i];
      hash := (hash * 31 + SignedChar(keyStr[i])) % TWO_32;
    }
    assert keyStr[..|keyStr|] == keyStr;
    key := IPC_KEY_BASE + hash % 0x1_0000;
  }

  /** Every key lies in [0x12340000, 0x1234FFFF], so it is never the failure
      value -1. */
  lemma IpcKeyRange(appHandle: seq<byte>)
    ensures IPC_KEY_BASE <= IpcKey(appHandle) <= IPC_KEY_BASE + 0xFFFF
    ensures IpcKey(appHandle) != -1
  {
  }

  /** An example of two applications sharing one queue: "Aa" and "BB" hash
      to the same key, and nothing checks for collisions. The first clause
      only restates that the key keeps the low 16 bits of the hash. */
  lemma {:induction false} IpcKeyCollision(a: seq<byte>, b: seq<byte>)
    requires FoldHash(CStr(a)) % 0x1_0000 == FoldHash(CStr(b)) % 0x1_0000
    ensures IpcKey(a) == IpcKey(b)
    ensures IpcKey([65, 97]) == IpcKey([66, 66])
  {
    assert CStr([65, 97]) == [65, 97] by {
      CStrOfNulFree([65, 97]);
    }
    assert CStr([66, 66]) == [66, 66] by {
      CStrOfNulFree([66, 66]);
    }
    assert [65, 97][..1] == [65];
    assert [66, 66][..1] == [66];
    assert FoldHash([65]) == 65 by {
      assert [65][..0] == [];
    }
    assert FoldHash([66]) == 66 by {
      assert [66][..0] == [];
    }
  }

  // ---------------------------------------------------------------------
  // Admission: which received frames reach the queue

  /** A decoded message is queued only if its handle is non-null; otherwise
      it is freed. */
  function Enqueued(m: MsgData): seq<MsgData>
  {
    if m.handle.Some? then [m] else []
  }

  /** Enqueues a decoded message if its handle is non-null. */
  method Admit(core: IPCWatcher, m: MsgData)
    requires core.Valid()
    modifies core`requests
    ensures core.Valid()
    ensures core.requests == old(core.requests) + Enqueued(m)
  {
    if m.handle.Some? {
      core.SendRequest(m);
    }
  }

  /** The message text the queue sender passes to `msgsnd`: the 32-bit
      `data_size` field followed by the frame, `4 + length` bytes in all. */
  function QueueText(frame: seq<byte>): seq<byte>
    requires |frame| < TWO_32
  {
    U32LE(|frame|) + frame
  }

  /** What the queue receiver enqueues for one received message text. */
  function QueueAdmitted(mtext: seq<byte>): seq<MsgData>
  {
    if |mtext| < 4 then []
    else
      var dataSize := U32Value(mtext[..4]);
      if dataSize == 0 then Enqueued(Decode(None))
      else if dataSize > MAX_IPC_MESSAGE_BYTES_UNIX then []
      else if |mtext| != 4 + dataSize then []
      else Enqueued(Decode(Some(mtext[4..])))
  }

  /** The queue receiver's admission rules: nothing is enqueued for a message
      under 4 bytes, a zero or oversized `data_size`, or a size that
      disagrees with `data_size`; otherwise the message is enqueued exactly
      when its payload starts with a frame. */
  lemma QueueAdmission(mtext: seq<byte>)
    ensures |mtext| < 4 ==> QueueAdmitted(mtext) == []
    ensures |mtext| >= 4 && U32Value(mtext[..4]) == 0 ==> QueueAdmitted(mtext) == []
    ensures |mtext| >= 4 && U32Value(mtext[..4]) > MAX_IPC_MESSAGE_BYTES_UNIX ==> QueueAdmitted(mtext) == []
    ensures |mtext| >= 4 && |mtext| != 4 + U32Value(mtext[..4]) ==> QueueAdmitted(mtext) == []
    ensures |mtext| >= 4 && 0 < U32Value(mtext[..4]) <= MAX_IPC_MESSAGE_BYTES_UNIX &&
            |mtext| == 4 + U32Value(mtext[..4]) ==>
              (QueueAdmitted(mtext) != [] <==> exists h, d :: StartsWithFrame(mtext[4..], h, d))
    ensures QueueAdmitted(mtext) != [] ==> QueueAdmitted(mtext) == [Decode(Some(mtext[4..]))]
  {
    if |mtext| >= 4 {
      DecodeFailsIffNoFrame(mtext[4..]);
      DecodeNullOrEmpty(Some(mtext[4..]));
    }
  }

  /** End to end over the queue: a message whose frame fits the 7 KiB ceiling
      is admitted by the receiver and decodes to the handle and payload the
      sender serialized. */
  lemma QueueDelivery(m: MsgData)
    requires |Serialize(m)| <= MAX_IPC_MESSAGE_BYTES_UNIX
    ensures QueueAdmitted(QueueText(Serialize(m))) ==
            [MsgData(Some(FieldBytes(m.handle)), Some(FieldBytes(m.data)))]
  {
    var f := Serialize(m);
    var t := QueueText(f);
    assert t[..4] == U32LE(|f|);
    U32ValueOfU32LE(|f|);
    assert t[4..] == f;
    RoundTrip(m);
  }

  /** The byte stream the pipe client writes: the 32-bit frame length, then
      that many bytes of the frame. */
  function PipeStream(frame: seq<byte>): seq<byte>
  {
    U32LE(|frame| % TWO_32) + frame[..|frame| % TWO_32]
  }

  /** What the pipe server enqueues for a connection that delivered the
      length prefix `size` and then `body` (a read of `size` bytes succeeded
      exactly when `|body| == size`). */
  function PipeFrameAdmitted(size: u32, body: seq<byte>): seq<MsgData>
  {
    if size == 0 then Enqueued(Decode(None))
    else if size > MAX_IPC_MESSAGE_BYTES_WINDOWS then []
    else if |body| != size then []
    else Enqueued(Decode(Some(body)))
  }

  /** The pipe server's admission rules: a zero prefix decodes to a null
      handle, so nothing is enqueued; a prefix over 10 MiB is dropped; a
      complete body is enqueued exactly when it starts with a frame. */
  lemma PipeAdmission(size: u32, body: seq<byte>)
    ensures size == 0 ==> PipeFrameAdmitted(size, body) == []
    ensures size > MAX_IPC_MESSAGE_BYTES_WINDOWS ==> PipeFrameAdmitted(size, body) == []
    ensures 0 < size <= MAX_IPC_MESSAGE_BYTES_WINDOWS && |body| == size ==>
              (PipeFrameAdmitted(size, body) != [] <==> exists h, d :: StartsWithFrame(body, h, d))
  {
    DecodeFailsIffNoFrame(body);
    DecodeNullOrEmpty(Some(body));
  }

  /** End to end over the pipe: the server reading the client's stream
      enqueues the message the client serialized. */
  lemma PipeDelivery(m: MsgData)
    requires |Serialize(m)| <= MAX_IPC_MESSAGE_BYTES_WINDOWS
    ensures |PipeStream(Serialize(m))| == 4 + |Serialize(m)|
    ensures PipeFrameAdmitted(U32Value(PipeStream(Serialize(m))[..4]), PipeStream(Serialize(m))[4..]) ==
            [MsgData(Some(FieldBytes(m.handle)), Some(FieldBytes(m.data)))]
  {
    var f := Serialize(m);
    var t := PipeStream(f);
    assert |f| % TWO_32 == |f|;
    assert f[..|f| % TWO_32] == f;
    assert t[..4] == U32LE(|f|);
    U32ValueOfU32LE(|f|);
    assert t[4..] == f;
    RoundTrip(m);
  }

  // ---------------------------------------------------------------------
  // The System V message-queue transport

  /** The result of one `msgsnd(..., IPC_NOWAIT)`. */
  datatype MsgsndResult = MsgSent | MsgAgain | MsgFailed

  /** The result of `msgget(key, IPC_CREAT | IPC_EXCL | 0600)`. */
  datatype QueueOpen = QueueCreated(id: nat) | QueueExists | QueueCreateFailed

  /** The result of one poll with `msgrcv(..., IPC_NOWAIT)`. */
  datatype RecvEvent = Received(mtext: seq<byte>) | NoMessage | Interrupted | RecvFailed

  /** The messages the queue receiver enqueues for a run of poll results. */
  function QueueEventsAdmitted(events: seq<RecvEvent>): seq<MsgData>
  {
    if events == [] then []
    else
      (if events[0].Received? then QueueAdmitted(events[0].mtext) else [])
      + QueueEventsAdmitted(events[1..])
  }

  lemma {:induction false} QueueEventsAdmittedAppend(a: seq<RecvEvent>, b: seq<RecvEvent>)
    ensures QueueEventsAdmitted(a + b) == QueueEventsAdmitted(a) + QueueEventsAdmitted(b)
  {
    if a == [] {
      assert a + b == b;
    } else {
      assert (a + b)[1..] == a[1..] + b;
      QueueEventsAdmittedAppend(a[1..], b);
    }
  }

  /** `UnixIPCWatcher`: the shared watcher state (`core`) plus the queue id,
      the key and whether this process created the queue. */
  class UnixIPCWatcher {
    const core: IPCWatcher
    var msgQueueId: int
    var ipcKey: int
    var isPrimary: bool

    /** The constructor computes the key; `keyFailed` stands for the
        exception path that stores -1. */
    constructor (appHandle: seq<byte>, keyFailed: bool)
      ensures fresh(core) && core.Valid()
      ensures core.messages == map[] && core.requests == [] && core.invoked == []
      ensures !core.processing && !core.watching && !core.watcherJoinable && !core.processJoinable
      ensures msgQueueId == -1 && !isPrimary
      ensures ipcKey == if keyFailed then -1 else IpcKey(appHandle)
    {
      var key := -1;
      if !keyFailed {
        key := GenerateIpcKey(appHandle);
      }
      core := new IPCWatcher();
      msgQueueId := -1;
      ipcKey := key;
      isPrimary := false;
    }

    /** `SendMsg`: gives up silently when the key is -1 or the queue does not
        exist, drops a frame over 7 KiB before any attempt, and otherwise
        makes at most three `msgsnd` attempts, retrying only on `EAGAIN`.
        `processing` is set on entry and cleared on every exit except the
        oversize drop and a non-`EAGAIN` send error, which return early. */
    method SendMsg(msg: MsgData, queueFound: bool, bufferAllocated: bool, msgsnd: nat -> MsgsndResult)
      returns (attempts: nat, sent: Option<seq<byte>>)
      requires core.Valid()
      modifies core`processing
      ensures core.Valid()
      ensures attempts <= UNIX_SEND_ATTEMPTS
      ensures ipcKey == -1 || !queueFound ==> attempts == 0 && sent == None && !core.processing
      ensures ipcKey != -1 && queueFound && |Serialize(msg)| > MAX_IPC_MESSAGE_BYTES_UNIX ==>
                attempts == 0 && sent == None && core.processing
      ensures ipcKey != -1 && queueFound && |Serialize(msg)| <= MAX_IPC_MESSAGE_BYTES_UNIX && !bufferAllocated ==>
                attempts == 0 && sent == None && !core.processing
      ensures ipcKey != -1 && queueFound && |Serialize(msg)| <= MAX_IPC_MESSAGE_BYTES_UNIX && bufferAllocated ==>
                1 <= attempts &&
                (forall j :: 0 <= j < attempts - 1 ==> msgsnd(j) == MsgAgain) &&
                (attempts < UNIX_SEND_ATTEMPTS ==> msgsnd(attempts - 1) != MsgAgain) &&
                (sent.Some? <==> msgsnd(attempts - 1) == MsgSent) &&
                (core.processing <==> msgsnd(attempts - 1) == MsgFailed)
      ensures sent.Some? ==> sent.value == QueueText(Serialize(msg))
    {
      core.processing := true;
      attempts, sent := 0, None;
      if ipcKey == -1 {
        core.processing := false;
        return;
      }
      if !queueFound {
        core.processing := false;
        return;
      }
      var buffer := SerializeForIpc(msg);
      if buffer.length > MAX_IPC_MESSAGE_BYTES_UNIX {
        buffer.Free();
        return;
      }
      if !bufferAllocated {
        buffer.Free();
        core.processing := false;
        return;
      }
      var mtext := U32LE(buffer.length) + buffer.data[..];
      var retries := UNIX_SEND_ATTEMPTS;
      while retries > 0
        invariant attempts + retries == UNIX_SEND_ATTEMPTS
        invariant forall j :: 0 <= j < attempts ==> msgsnd(j) == MsgAgain
        invariant sent == None && core.processing
        invariant core.Valid()
      {
        retries := retries - 1;
        var result := msgsnd(attempts);
        attempts := attempts + 1;
        if result == MsgSent {
          sent := Some(mtext);
          break;
        }
        if result == MsgAgain {
          continue;
        }
        return;
      }
      buffer.Free();
      core.processing := false;
    }

    /** `process_messages`: creates the queue exclusively (becoming primary)
        or attaches to an existing one (secondary, which returns at once);
        the primary then polls while `processing` holds, enqueueing what the
        admission rules let through, and finally removes the queue. */
    method ProcessMessages(open: QueueOpen, attachedId: int, bufferAllocated: bool, events: seq<RecvEvent>)
      returns (removedQueue: bool)
      requires core.Valid()
      modifies this`msgQueueId, this`isPrimary, core`requests
      ensures core.Valid()
      ensures ipcKey == -1 ==>
                msgQueueId == old(msgQueueId) && isPrimary == old(isPrimary) &&
                core.requests == old(core.requests) && !removedQueue
      ensures ipcKey != -1 && open == QueueCreateFailed ==>
                msgQueueId == -1 && isPrimary == old(isPrimary) &&
                core.requests == old(core.requests) && !removedQueue
      ensures ipcKey != -1 && open == QueueExists ==>
                msgQueueId == attachedId && (isPrimary <==> attachedId == -1 && old(isPrimary)) &&
                core.requests == old(core.requests) && !removedQueue
      ensures ipcKey != -1 && open.QueueCreated? && !bufferAllocated ==>
                msgQueueId == open.id && isPrimary && core.requests == old(core.requests) && !removedQueue
      ensures ipcKey != -1 && open.QueueCreated? && bufferAllocated ==>
                msgQueueId == -1 && !isPrimary && removedQueue &&
                core.requests == old(core.requests) +
                  (if core.processing then QueueEventsAdmitted(events) else [])
    {
      removedQueue := false;
      if ipcKey == -1 {
        return;
      }
      if open == QueueCreateFailed {
        msgQueueId := -1;
        return;
      }
      if open == QueueExists {
        msgQueueId := attachedId;
        if msgQueueId == -1 {
          return;
        }
        isPrimary := false;
        return;
      }
      msgQueueId := open.id;
      isPrimary := true;
      if !bufferAllocated {
        return;
      }
      PollQueue(events);
      removedQueue := CloseQueue();
    }

    /** The receive loop of `process_messages` on a queue this watcher
        serves: polls while `processing` holds and enqueues what the
        admission rules let through; `isPrimary` and the queue id are not
        changed inside the loop. */
    method PollQueue(events: seq<RecvEvent>)
      requires core.Valid() && isPrimary
      modifies core`requests
      ensures core.Valid()
      ensures core.requests == old(core.requests) +
                (if core.processing then QueueEventsAdmitted(events) else [])
    {
      var i := 0;
      while i < |events| && core.processing && isPrimary
        invariant 0 <= i <= |events|
        invariant core.Valid()
        invariant core.requests == old(core.requests) + QueueEventsAdmitted(events[..i])
        invariant !core.processing ==> i == 0
        decreases |events| - i
      {
        if events[i].Received? && |events[i].mtext| >= 4 {
          var mtext := events[i].mtext;
          var dataSize := U32Value(mtext[..4]);
          if dataSize == 0 {
            Admit(core, Decode(None));
          } else if dataSize > MAX_IPC_MESSAGE_BYTES_UNIX {
          } else if |mtext| != 4 + dataSize {
          } else {
            Admit(core, Decode(Some(mtext[4..])));
          }
        }
        assert events[..i + 1] == events[..i] + [events[i]];
        QueueEventsAdmittedAppend(events[..i], [events[i]]);
        i := i + 1;
      }
      if core.processing {
        assert events[..i] == events;
      }
    }

    /** The end of `process_messages`: the queue is removed if this watcher
        is primary, its id is forgotten and the watcher is no longer
        primary. */
    method CloseQueue() returns (removedQueue: bool)
      modifies this`msgQueueId, this`isPrimary
      ensures removedQueue == (old(msgQueueId) != -1 && old(isPrimary))
      ensures msgQueueId == -1 && !isPrimary
    {
      removedQueue := false;
      if msgQueueId != -1 {
        if isPrimary {
          removedQueue := true;
        }
        msgQueueId := -1;
      }
      isPrimary := false;
    }

    /** `process_messages` with queue ownership following the instance
        guard: a watcher whose instance holds the guard (`ownsGuard`) serves
        the queue whether it created it or found it left behind, and
        removes it at the end; otherwise it behaves as `ProcessMessages`. */
    method ProcessMessagesForOwner(ownsGuard: bool, open: QueueOpen, attachedId: int, bufferAllocated: bool,
                                   events: seq<RecvEvent>)
      returns (removedQueue: bool)
      requires core.Valid()
      modifies this`msgQueueId, this`isPrimary, core`requests
      ensures core.Valid()
      ensures ipcKey == -1 || open == QueueCreateFailed || (open == QueueExists && attachedId == -1) ||
              (open == QueueExists && !ownsGuard) || !bufferAllocated ==>
                core.requests == old(core.requests) && !removedQueue
      ensures ipcKey != -1 && bufferAllocated &&
              (open.QueueCreated? || (open == QueueExists && attachedId != -1 && ownsGuard)) ==>
                msgQueueId == -1 && !isPrimary && removedQueue &&
                core.requests == old(core.requests) +
                  (if core.processing then QueueEventsAdmitted(events) else [])
    {
      removedQueue := false;
      if ipcKey == -1 {
        return;
      }
      if open == QueueCreateFailed {
        msgQueueId := -1;
        return;
      }
      if open == QueueExists {
        msgQueueId := attachedId;
        if msgQueueId == -1 {
          return;
        }
        isPrimary := ownsGuard;
      } else {
        msgQueueId := open.id;
        isPrimary := true;
      }
      if !isPrimary || !bufferAllocated {
        return;
      }
      PollQueue(events);
      removedQueue := CloseQueue();
    }

    /** The destructor (`~UnixIPCWatcher`): stops the watcher, removes the
        queue if this process created it, and forgets the queue id. */
    method Destroy() returns (removedQueue: bool)
      requires core.Valid()
      modifies this`msgQueueId, core
      ensures core.Valid()
      ensures !core.watching && !core.processing && core.messages == map[] && core.requests == []
      ensures core.invoked == old(core.invoked)
      ensures removedQueue == (old(msgQueueId) != -1 && isPrimary)
      ensures msgQueueId == -1
    {
      core.Stop();
      removedQueue := false;
      if msgQueueId != -1 {
        if isPrimary {
          removedQueue := true;
        }
        msgQueueId := -1;
      }
    }
  }

  // ---------------------------------------------------------------------
  // The named-pipe transport

  /** The result of `CreateFileW` on the pipe name. */
  datatype PipeOpen = PipeOpened | PipeBusy | PipeOpenFailed

  /** The result of `WaitNamedPipeW` after a busy pipe. */
  datatype PipeWait = PipeReady | PipeWaitTimeout | PipeWaitFailed

  /** The result of `CreateNamedPipeW`: created, refused with
      `ERROR_ACCESS_DENIED` or `ERROR_PIPE_BUSY`, or failed otherwise. */
  datatype PipeCreate = PipeCreated | PipeRefused | PipeCreateFailed

  /** One pass of the server loop: no client was connected (a failed or
      timed-out connect, or a failed event creation), the 4-byte length read
      failed, or the length was read and then `body` (complete exactly when
      its length equals `size`). `broken` says the failing read reported
      `ERROR_BROKEN_PIPE`. */
  datatype Connection =
    | NoClient
    | SizeReadFailed(broken: bool)
    | SizeRead(size: u32, body: seq<byte>, broken: bool)

  /** Whether a pass ends the server loop by clearing `isPrimary_`. */
  predicate BreaksPipe(c: Connection)
  {
    match c
    case NoClient => false
    case SizeReadFailed(broken) => broken
    case SizeRead(size, body, broken) =>
      0 < size <= MAX_IPC_MESSAGE_BYTES_WINDOWS && |body| != size && broken
  }

  /** The messages the pipe server enqueues over a run of passes. */
  function PipeAdmitted(conns: seq<Connection>): seq<MsgData>
  {
    if conns == [] then []
    else
      (if conns[0].SizeRead? then PipeFrameAdmitted(conns[0].size, conns[0].body) else [])
      + PipeAdmitted(conns[1..])
  }

  lemma {:induction false} PipeAdmittedAppend(a: seq<Connection>, b: seq<Connection>)
    ensures PipeAdmitted(a + b) == PipeAdmitted(a) + PipeAdmitted(b)
  {
    if a == [] {
      assert a + b == b;
    } else {
      assert (a + b)[1..] == a[1..] + b;
      PipeAdmittedAppend(a[1..], b);
    }
  }

  /** `WindowsIPCWatcher`: the shared watcher state plus the server pipe
      handle (open or not) and whether this process owns the pipe. */
  class WindowsIPCWatcher {
    const core: IPCWatcher
    var pipeOpen: bool
    var isPrimary: bool

    constructor ()
      ensures fresh(core) && core.Valid()
      ensures core.messages == map[] && core.requests == [] && core.invoked == []
      ensures !core.processing && !core.watching && !core.watcherJoinable && !core.processJoinable
      ensures !pipeOpen && !isPrimary
    {
      core := new IPCWatcher();
      pipeOpen := false;
      isPrimary := false;
    }

    /** `SendMsg`: up to five attempts to open the pipe, waiting only after a
        busy pipe; any other failure ends the send silently. Once connected it
        writes the 4-byte length and then, if the length is positive, the
        frame. `processing` is set on entry and cleared only when the whole
        stream was written. */
    method SendMsg(msg: MsgData, open: nat -> PipeOpen, wait: nat -> PipeWait,
                   prefixWritten: bool, payloadWritten: bool)
      returns (attempts: nat, written: seq<byte>)
      requires core.Valid()
      modifies core`processing
      ensures core.Valid()
      ensures 1 <= attempts <= PIPE_CONNECT_ATTEMPTS
      ensures forall j :: 0 <= j < attempts - 1 ==> open(j) == PipeBusy && wait(j) != PipeWaitFailed
      ensures open(attempts - 1) != PipeOpened ==>
                written == [] && core.processing &&
                (attempts == PIPE_CONNECT_ATTEMPTS || open(attempts - 1) == PipeOpenFailed ||
                 wait(attempts - 1) == PipeWaitFailed)
      ensures open(attempts - 1) == PipeOpened && !prefixWritten ==> written == [] && core.processing
      ensures open(attempts - 1) == PipeOpened && prefixWritten && payloadWritten ==>
                written == PipeStream(Serialize(msg)) && !core.processing
      ensures open(attempts - 1) == PipeOpened && prefixWritten && !payloadWritten ==>
                written == U32LE(|Serialize(msg)| % TWO_32) &&
                (core.processing <==> |Serialize(msg)| % TWO_32 != 0)
    {
      core.processing := true;
      written := [];
      attempts := 0;
      var connected := false;
      var retries := PIPE_CONNECT_ATTEMPTS;
      while retries > 0
        invariant attempts + retries == PIPE_CONNECT_ATTEMPTS
        invariant forall j :: 0 <= j < attempts ==> open(j) == PipeBusy && wait(j) != PipeWaitFailed
        invariant !connected && core.processing && core.Valid()
      {
        retries := retries - 1;
        var result := open(attempts);
        attempts := attempts + 1;
        if result == PipeOpened {
          connected := true;
          break;
        }
        if result == PipeOpenFailed {
          return;
        }
        if wait(attempts - 1) == PipeWaitFailed {
          return;
        }
      }
      if !connected {
        return;
      }
      var buffer := SerializeForIpc(msg);
      var total := buffer.length % TWO_32;
      if !prefixWritten {
        buffer.Free();
        return;
      }
      written := U32LE(total);
      if total > 0 {
        if !payloadWritten {
          buffer.Free();
          return;
        }
        written := written + buffer.data[..total];
      }
      buffer.Free();
      core.processing := false;
    }

    /** `process_messages`: creates the pipe (becoming primary) and serves
        one frame per connection while `processing` and `isPrimary_` hold.
        A broken pipe clears `isPrimary_` and ends the loop; on exit the pipe
        is closed. Returns how many passes ran. */
    method ProcessMessages(create: PipeCreate, eventCreated: bool, conns: seq<Connection>)
      returns (passes: nat)
      requires core.Valid()
      modifies this`pipeOpen, this`isPrimary, core`requests
      ensures core.Valid()
      ensures create == PipeRefused ==>
                !pipeOpen && !isPrimary && core.requests == old(core.requests) && passes == 0
      ensures create == PipeCreateFailed ==>
                !pipeOpen && isPrimary == old(isPrimary) && core.requests == old(core.requests) && passes == 0
      ensures create == PipeCreated && !eventCreated ==>
                !pipeOpen && !isPrimary && core.requests == old(core.requests) && passes == 0
      ensures create == PipeCreated && eventCreated ==>
                !pipeOpen && !isPrimary && passes <= |conns| &&
                core.requests == old(core.requests) + PipeAdmitted(conns[..passes]) &&
                (forall j :: 0 <= j < passes - 1 ==> !BreaksPipe(conns[j])) &&
                (!old(core.processing) ==> passes == 0) &&
                (old(core.processing) ==> passes == |conns| || (passes > 0 && BreaksPipe(conns[passes - 1])))
    {
      passes := 0;
      if create != PipeCreated {
        pipeOpen := false;
        if create == PipeRefused {
          isPrimary := false;
        }
        return;
      }
      pipeOpen := true;
      isPrimary := true;
      if !eventCreated {
        pipeOpen := false;
        isPrimary := false;
        return;
      }
      while passes < |conns| && core.processing && isPrimary
        invariant 0 <= passes <= |conns|
        invariant core.Valid() && pipeOpen
        invariant core.requests == old(core.requests) + PipeAdmitted(conns[..passes])
        invariant forall j :: 0 <= j < passes ==> !BreaksPipe(conns[j]) || (j == passes - 1 && !isPrimary)
        invariant isPrimary ==> forall j :: 0 <= j < passes ==> !BreaksPipe(conns[j])
        invariant !isPrimary ==> passes > 0 && BreaksPipe(conns[passes - 1])
        invariant core.processing == old(core.processing)
        invariant !core.processing ==> passes == 0
        decreases |conns| - passes
      {
        match conns[passes] {
          case NoClient =>
          case SizeReadFailed(broken) =>
            if broken {
              isPrimary := false;
            }
          case SizeRead(size, body, broken) =>
            if size == 0 {
              Admit(core, Decode(None));
            } else if size > MAX_IPC_MESSAGE_BYTES_WINDOWS {
            } else if |body| == size {
              Admit(core, Decode(Some(body)));
            } else if broken {
              isPrimary := false;
            }
        }
        assert conns[..passes + 1] == conns[..passes] + [conns[passes]];
        PipeAdmittedAppend(conns[..passes], [conns[passes]]);
        passes := passes + 1;
      }
      pipeOpen := false;
      isPrimary := false;
    }
  }
}
