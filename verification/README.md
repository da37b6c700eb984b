# app-guard in Dafny

app-guard is a small C++ library that keeps an application to a single
running instance. A later launch can send a message to the first one.
This project models its core and proves properties of the model.

- **Wire codec** (`WireCodec`, src/utils.cpp): an inter-process message is a
  topic handle and a payload. It travels as a frame: a 4-byte handle length,
  the handle bytes, a 4-byte payload length, then the payload bytes. The
  serializer fills a buffer through a cursor. The deserializer bounds-checks
  every read and yields `{ nullptr, nullptr }` on any failure.
- **Watcher** (`Watcher`, src/IPCWatcher.cpp): holds the registry of
  callbacks keyed by topic handle, the FIFO queue of decoded inbound
  messages, and the two run flags. Each block the source runs under its
  mutex is one method. The dispatch thread is modelled as one pass of its
  loop.
- **Transports** (`Transport`, src/PlatformIPCWatcher.cpp):
  - the System V message queue (Linux and macOS builds): key hash, sender
    with its retry loop, receiver polling loop;
  - the named pipe (Windows build): client with its connect retries, server
    loop.
  - Operating-system calls become parameters: a boolean per call, a
    function from attempt number to result for the retry loops, a sequence
    of poll results for the receive loops. The admission rules, which
    received frames reach the queue, are stated as functions and proved
    end to end against the codec.
- **Instance guard** (`Instance`, src/AppInstance.cpp), one class per
  platform, all acting on a shared `LockNamespace` of names taken system
  wide:
  - Windows: a named mutex;
  - Linux: an exclusive `flock` on `/tmp/<handle>.lock`;
  - macOS: a bootstrap service `com.example.<handle>`.
  - Also modelled: the Linux focus dispatch and the macOS AppleScript focus
    command.
- **Focus helpers** (`FocusUtil`, src/linux_focus_util.h):
  - display-server detection;
  - POSIX single-quote escaping, proved against a model of how a POSIX
    shell splits an argument into words;
  - the Hyprland and xdotool backslash escapes.
  - `Escaping` holds the backslash escape these share with the AppleScript
    escape.
- **Facade** (`Facade`, src/AppGuard.cpp): the `AG_` entry points over the
  library's globals, for the Linux build. An end-to-end method shows that a
  second launch's request reaches the callback the first launch
  registered.

Representation choices:
- Bytes are `byte` (0..255). A `char` buffer read as a C string is taken up
  to its first NUL (`Bytes.CStr`).
- A `uint32_t` length cast truncates modulo 2^32 (`Bytes.Fit`).
- Length fields are little-endian. The source copies them with a
  native-endian `memcpy`.
- Behaviours of the code that a reader might not expect, modelled as
  written:
  - An instance whose guard primitive cannot be opened or created counts as
    first. This covers a failed `open` of the lock file
    (src/AppInstance.cpp:38-39, `is_first_` keeps its default of true), a
    failed `CreateMutexA` (src/AppInstance.cpp:10-13) and a failed port
    allocation or registration, which throws after `is_first_` was set
    (src/AppInstance.cpp:119-130).
  - A zero length prefix on the pipe or a zero `data_size` on the queue
    delivers nothing (src/PlatformIPCWatcher.cpp:221-230 and 449-456). The
    receiver decodes `(nullptr, 0)`, which yields a null handle
    (src/utils.cpp:162-163), and frees it.
  - `stop` discards the queue without draining it
    (src/IPCWatcher.cpp:42-54). Once `watching` is cleared, the dispatch loop
    exits before its drain (src/IPCWatcher.cpp:86-88).

## Model

| member | source | states |
|---|---|---|
| Bytes.CStr | src/PlatformIPCWatcher.cpp:295 | the C-string reading of a buffer is a prefix without NUL, ending at the first NUL when there is one |
| Bytes.CStrOfNulFree | src/IPCWatcher.cpp:91 | a buffer without NUL reads back whole as a C string |
| Bytes.Fit | src/utils.cpp:134-135 | a `uint32_t` length cast keeps a prefix shorter than 2^32 and changes nothing for shorter inputs |
| Bytes.U32ValueOfU32LE | src/utils.cpp:141-170 | a length field read back yields the value written |
| Bytes.U32LEOfU32Value | src/utils.cpp:170-192 | writing back a length field that was read reproduces its four bytes |
| WireCodec.FieldBytes | src/utils.cpp:123-135 | a field contributes nothing when null, otherwise its C-string contents, always under 2^32 bytes |
| WireCodec.SerializedLength | src/utils.cpp:137 | the frame is 4 + handle + 4 + payload bytes long; a null field adds no bytes |
| WireCodec.FrameLayout | src/utils.cpp:141-152 | each length field and each body sits exactly where the decoder reads it |
| WireCodec.DecodeFramePrefix | src/utils.cpp:161-207 | a buffer starting with a frame decodes to that frame's handle and payload, whatever follows |
| WireCodec.RoundTrip | src/utils.cpp:122-208 | decoding a serialized message yields the handle and payload the serializer read; a null field comes back empty and non-null |
| WireCodec.RoundTripCStrings | src/utils.cpp:122-208 | for NUL-free handle and payload under 4 GiB, decode(serialize(m)) == m |
| WireCodec.DecodeNullOrEmpty | src/utils.cpp:162-163 | a null or empty buffer decodes to `{nullptr, nullptr}`; any decode is that or two non-null fields |
| WireCodec.DecodeRejectsTruncated | src/utils.cpp:168-197 | each of the four bounds checks rejects its truncated frame |
| WireCodec.DecodedStartsWithFrame | src/utils.cpp:161-207 | a successful decode read a well-formed frame at the start of the buffer |
| WireCodec.DecodeFailsIffNoFrame | src/utils.cpp:161-207 | decoding fails if and only if no frame starts the buffer |
| WireCodec.TrailingBytesIgnored | src/utils.cpp:195-207 | bytes after the declared payload do not change the decoded message |
| WireCodec.FreeIpcMsgDataIdempotent | src/utils.cpp:217-226 | releasing message data nulls both fields; a second release changes nothing |
| WireCodec.SerializedIpcBuffer.Free | src/utils.cpp:211-215 | the released buffer is null with length 0 |
| WireCodec.CopyInto | src/utils.cpp:144 | `memcpy` writes exactly the source bytes at the offset and leaves the rest of the buffer unchanged |
| WireCodec.SerializeForIpc | src/utils.cpp:122-158 | the cursor-filled buffer is exactly the frame, and its length is the frame's length |
| WireCodec.ReadString | src/utils.cpp:174-179 | the NUL-terminated copy holds exactly the `n` bytes read |
| WireCodec.DeserializeFromIpc | src/utils.cpp:161-208 | the cursor walk returns exactly the decoding of the buffer's first `length` bytes, null buffer included |
| Watcher.DispatchedAppend | src/IPCWatcher.cpp:89-98 | draining two queues in turn runs the first's callbacks, then the second's (FIFO) |
| Watcher.DispatchedExactlyRegistered | src/IPCWatcher.cpp:90-94 | a queued message runs a callback exactly when its handle is registered, and runs the one registered under it |
| Watcher.UnregisteredHandleNotDispatched | src/IPCWatcher.cpp:91-93 | no callback runs for a handle absent from the registry |
| Watcher.IPCWatcher.constructor | src/IPCWatcher.cpp:19-23 | both flags false, registry and queue empty |
| Watcher.IPCWatcher.Start | src/IPCWatcher.cpp:29-40 | each thread is launched only if its flag was clear; both flags end set, so a second start launches nothing |
| Watcher.IPCWatcher.Stop | src/IPCWatcher.cpp:42-54 | flags cleared, threads joined, registry and queue emptied, no callback run |
| Watcher.IPCWatcher.RegisterIPCMsg | src/IPCWatcher.cpp:56-60 | insert keeps an existing entry for the handle and otherwise adds exactly one |
| Watcher.IPCWatcher.UnregisterIPCMsg | src/IPCWatcher.cpp:62-71 | with no matching id the registry is unchanged; otherwise exactly one entry with that id is erased |
| Watcher.IPCWatcher.SendRequest | src/IPCWatcher.cpp:73-78 | the message is appended to the back of the queue |
| Watcher.IPCWatcher.WatchProcessPass | src/IPCWatcher.cpp:80-100 | when watching, the queue is drained and the callbacks run are exactly `Dispatched` of the old queue, in order; otherwise nothing changes |
| Transport.GenerateIpcKey | src/PlatformIPCWatcher.cpp:294-303 | the loop computes `0x12340000 + (hash & 0xFFFF)` of the 32-bit `hash*31 + c` fold, always in [0x12340000, 0x1234FFFF] |
| Transport.IpcKeyRange | src/PlatformIPCWatcher.cpp:302 | every key is in range and never the failure value -1 |
| Transport.IpcKeyCollision | src/PlatformIPCWatcher.cpp:298-302 | an example of a key collision: the distinct handles "Aa" and "BB" get the same key, so their applications share one queue |
| Transport.Admit | src/PlatformIPCWatcher.cpp:467-472 | a decoded message is queued exactly when its handle is non-null |
| Transport.QueueAdmission | src/PlatformIPCWatcher.cpp:443-472 | short, zero-size, oversized and size-mismatched messages are dropped; otherwise a message is queued exactly when its payload starts with a frame |
| Transport.QueueDelivery | src/PlatformIPCWatcher.cpp:340-472 | a message text the sender builds for a frame of at most 7 KiB is admitted and decodes to what was serialized |
| Transport.PipeAdmission | src/PlatformIPCWatcher.cpp:221-270 | a zero prefix and a prefix over 10 MiB deliver nothing; a complete body is delivered exactly when it starts with a frame |
| Transport.PipeDelivery | src/PlatformIPCWatcher.cpp:74-92 | the client's length-prefixed stream, read by the server, delivers what was serialized |
| Transport.UnixIPCWatcher.constructor | src/PlatformIPCWatcher.cpp:306-312 | the key is the generated key, or -1 on the exception path; no queue, not primary |
| Transport.UnixIPCWatcher.SendMsg | src/PlatformIPCWatcher.cpp:325-390 | gives up without a key or queue; drops frames over 7 KiB; at most 3 `msgsnd` attempts, retrying only on `EAGAIN`; what is sent is the length-prefixed frame; states the exits that leave `processing` set |
| Transport.UnixIPCWatcher.ProcessMessages | src/PlatformIPCWatcher.cpp:392-488 | exclusive creation makes the watcher primary; attaching returns at once; the primary queues exactly `QueueEventsAdmitted` of the polled events and removes its queue at the end |
| Transport.UnixIPCWatcher.PollQueue | src/PlatformIPCWatcher.cpp:425-477 | while `processing` holds, the primary's receive loop queues exactly `QueueEventsAdmitted` of the polled events |
| Transport.UnixIPCWatcher.CloseQueue | src/PlatformIPCWatcher.cpp:481-487 | the queue is removed exactly when an id is held and the watcher is primary; afterwards there is no id and no primary |
| Transport.UnixIPCWatcher.ProcessMessagesForOwner | src/PlatformIPCWatcher.cpp:397-416 | corrected ownership rule: a watcher whose instance holds the guard serves an existing queue as well as one it created |
| Transport.UnixIPCWatcher.Destroy | src/PlatformIPCWatcher.cpp:314-322 | stops the watcher, removes the queue only if this process created it, forgets the id |
| Transport.WindowsIPCWatcher.constructor | src/PlatformIPCWatcher.cpp:23-26 | no pipe, not primary, empty watcher |
| Transport.WindowsIPCWatcher.SendMsg | src/PlatformIPCWatcher.cpp:36-109 | at most 5 connect attempts, waiting only after a busy pipe; once connected it writes the length prefix and then the frame; any failure writes no more and leaves `processing` set |
| Transport.WindowsIPCWatcher.ProcessMessages | src/PlatformIPCWatcher.cpp:111-288 | creation makes the server primary (refusal clears it); each pass serves one connection and queues exactly `PipeAdmitted`; a broken pipe ends the loop; the pipe is closed at the end |
| Escaping.BackslashEscapedLength | src/linux_focus_util.h:220-224 | the escape adds one character per special character |
| Escaping.BackslashEscapedIdentity | src/linux_focus_util.h:260-263 | the escape leaves a string unchanged if and only if it has no special character |
| Escaping.BackslashEscapedRoundTrip | src/linux_focus_util.h:220-224 | when the backslash itself is escaped, removing the escapes gives the original back |
| Escaping.EscapeWith | src/linux_focus_util.h:220-224 | the copy loop computes the backslash escape of its input |
| FocusUtil.DetectDisplayServer | src/linux_focus_util.h:87-96 | Wayland if and only if `WAYLAND_DISPLAY` is set; X11 if and only if only `DISPLAY` is; unknown if and only if neither |
| FocusUtil.ConvertForFocus | src/linux_focus_util.h:56-68 | a null title and a conversion failure both give the empty string |
| FocusUtil.EscapeSingleQuoted | src/linux_focus_util.h:198-208 | the loop builds the title in single quotes with each `'` replaced by `'\''` |
| FocusUtil.ShellSingleQuotedShape | src/linux_focus_util.h:237-246 | the result starts and ends with `'` and is 2 + 3 characters per quote longer than the title |
| FocusUtil.QuotedBodyLength | src/linux_focus_util.h:199-206 | each quote in the title grows the body by three characters |
| FocusUtil.QuotedBodyOfQuoteFree | src/linux_focus_util.h:199-206 | a title without quotes is copied unchanged |
| FocusUtil.QuotedBodyRead | src/linux_focus_util.h:199-206 | read inside single quotes, the escaped body gives back the title |
| FocusUtil.ShellSingleQuotedIsOneWord | src/linux_focus_util.h:237-249 | a POSIX shell reads the escaped title as exactly one word: the title |
| FocusUtil.SwayArgumentAsWrittenSplits | src/linux_focus_util.h:211 | the sway argument as written reaches `swaymsg` as the same two words for the titles "a b" and "a  b" |
| FocusUtil.SwayTitleUnquoted | src/linux_focus_util.h:211 | in the sway argument as written, a quote-free title is read outside any quotes |
| FocusUtil.SwayArgumentIsOneWord | src/linux_focus_util.h:211 | the criterion quoted as one unit reaches `swaymsg` as one word with the title verbatim |
| FocusUtil.XdotoolSpecialIsStrchr | src/linux_focus_util.h:261 | the escaped set is what `strchr` finds in the metacharacter string, NUL included |
| FocusUtil.HyprlandEscape | src/linux_focus_util.h:218-225 | prefixes `"`, `$`, backtick and `\`; the length grows by their count, and removing the escapes restores the title |
| FocusUtil.XdotoolEscape | src/linux_focus_util.h:257-265 | prefixes every regular-expression metacharacter and NUL; the length grows by their count, and removing the escapes restores the title |
| Instance.LockPathInjective | src/AppInstance.cpp:38 | two handles share a lock file if and only if their C strings are equal |
| Instance.ServiceNameInjective | src/AppInstance.cpp:108 | two handles share a service name if and only if their C strings are equal |
| Instance.WinAppInstance.Init | src/AppInstance.cpp:10-13 | first if and only if no handle to the named mutex was open; a failed creation leaves it first with no handle |
| Instance.WinAppInstance.Release | src/AppInstance.cpp:15-20 | closes the handle it holds and nulls it; a second release changes nothing |
| Instance.WinLaunches | src/AppInstance.cpp:10-20 | first launch first, second not; a third is still not first while the second holds a handle |
| Instance.LinuxAppInstance.Init | src/AppInstance.cpp:36-47 | a failed open changes nothing; otherwise first if and only if `flock` succeeds (no one holds the lock and no other error), and then the instance takes the lock |
| Instance.LinuxAppInstance.Release | src/AppInstance.cpp:49-57 | a first instance drops its lock and unlinks the file; the descriptor becomes -1, so a second release changes nothing |
| Instance.LinuxLaunches | src/AppInstance.cpp:36-57 | first launch first, second not; once the first releases, a third is first again |
| Instance.LinuxOpenFailureIsFirst | src/AppInstance.cpp:38-39 | a launch that cannot open the lock file counts as first |
| Instance.LinuxFlockFailureIsNotFirst | src/AppInstance.cpp:41-43 | a `flock` failure with the lock free still makes the launch not first, and a later launch is first |
| Instance.MacAppInstance.Init | src/AppInstance.cpp:107-132 | not first if and only if the service is registered; a first instance registers it, or throws on allocation or registration failure |
| Instance.MacAppInstance.Release | src/AppInstance.cpp:134-140 | only a first instance with a port withdraws the service and nulls the port |
| Instance.MacLaunches | src/AppInstance.cpp:107-140 | first launch first, second not; after the first releases, a third is first |
| Instance.LinuxFocusWindow | src/AppInstance.cpp:59-100 | no helper for an empty or unconvertible title; otherwise the display server's helper, then the generic tools exactly when that helper did not focus the window |
| Instance.AppleScriptEscape | src/AppInstance.cpp:164-170 | prefixes `"` and `\`; the length grows by their count, and AppleScript's reading restores the title |
| Instance.MacFocusCommand | src/AppInstance.cpp:142-175 | no command for a null, empty or unconvertible title; otherwise the `osascript` command around the escaped title |
| Facade.RandomNumber | src/utils.cpp:229-234 | the result lies in [min, max] |
| Facade.CreateIPCMsg | src/AppGuard.cpp:78-85 | with a null handle or callback the slot is unchanged; otherwise it gets them and an id in [1000, 9999] |
| Facade.AppGuard.constructor | src/AppGuard.cpp:9-11 | both globals null, not initialized |
| Facade.AppGuard.IsPrimaryInstance | src/AppGuard.cpp:71-76 | the instance's verdict, false without an instance |
| Facade.AppGuard.GetProcessId | src/AppGuard.cpp:105-110 | the process id with an instance, -1 without |
| Facade.AppGuard.Init | src/AppGuard.cpp:14-51 | a loaded library is untouched; otherwise missing parts are created, and a secondary stops its watcher and, with `quit_immediate`, runs the quit callback, releases and exits; else it becomes initialized |
| Facade.AppGuard.EnsureWatcher | src/AppGuard.cpp:16-25 | a missing watcher is created with the handle's key and started; an existing one is kept |
| Facade.AppGuard.EnsureInstance | src/AppGuard.cpp:27-38 | a missing instance is created and is first exactly when its `flock` succeeds, taking the lock; a failed open leaves it first without a lock; an existing one is kept |
| Facade.AppGuard.Release | src/AppGuard.cpp:53-65 | releases the instance, stops and destroys the watcher, clears the flag; a second call changes nothing |
| Facade.AppGuard.RegisterMsg | src/AppGuard.cpp:87-91 | registers the slot with the watcher, a no-op without a watcher or slot |
| Facade.AppGuard.UnregisterMsg | src/AppGuard.cpp:93-97 | unregisters by id, a no-op without a watcher |
| Facade.AppGuard.SendMsgRequest | src/AppGuard.cpp:99-103 | only a secondary with a watcher sends a non-null request; what it sends is the request's length-prefixed frame |
| Facade.SecondaryRequestReachesPrimary | src/AppGuard.cpp:14-103 | a second launch is secondary, and its request runs exactly the callback the first launch registered for the topic |
| Facade.AttachAndDispatch | src/PlatformIPCWatcher.cpp:397-416 | a watcher that finds its queue already there attaches, receives nothing and dispatches nothing |
| Facade.ServeStaleQueueAndDispatch | src/PlatformIPCWatcher.cpp:397-416 | with ownership following the guard, a watcher that serves a queue it found runs exactly the callback registered for the received request |
| Facade.StaleQueueStarvesPrimary | src/PlatformIPCWatcher.cpp:397-416 | a first launch that finds a queue left by an earlier primary never runs the callback for a later launch's request |
| Facade.StaleQueueServedByOwner | src/PlatformIPCWatcher.cpp:397-416 | with ownership following the guard, the same launches run exactly the registered callback |

## Left out

- Threads, the mutex and the condition variable. Each locked block is one
  atomic step. The dispatch thread is one pass of its loop. The transport
  threads run over a finite sequence of poll results or connections.
  Interleavings, wake-ups and `join` timing are not modelled.
- Operating-system calls are replaced by their outcomes, given as
  parameters: `msgget`, `msgsnd`, `msgrcv`, `msgctl`, `CreateFileW`,
  `WaitNamedPipeW`, `CreateNamedPipeW`, overlapped I/O, `CreateMutexA`,
  `open`, the failure of `flock` for a reason other than a held lock,
  `getpid`, `getenv`, the random generator and the sleeps. Whether a lock,
  mutex or service name is already taken is computed from the shared
  `LockNamespace` instead. `unlink`, `close` and the bootstrap server calls
  act on that namespace.
- Wide-string and UTF-8 conversions (`string_to_wstring`,
  `wstring_to_string`, the `internal_` converters) are not modelled. The
  payload is carried as its UTF-8 bytes, and `FocusUtil.ConvertForFocus`
  takes the converter as a parameter.
- Memory management is not modelled. This covers allocation failures beyond
  the flags given as parameters, the leaks on the early-return paths of the
  queue sender, and `delete` applied to arrays allocated with `new[]`.
- `system()`, `popen` and `exec_command` are not modelled, nor are the X11
  focus helper (`focus_window_x11`), the `wmctrl` call and the Windows
  `FocusWindow` (`FindWindowW`). `Instance.LinuxFocusWindow` records which
  helpers run, not what they do.
- The facade is modelled for the Linux build only: `UnixIPCWatcher` and
  `LinuxAppInstance`. The Windows and macOS builds differ only in the
  classes they construct. `AG_is_loaded` is a predicate used in the
  contract of `Facade.AppGuard.Init`. `AG_focus_window` only forwards to
  `FocusWindow`.
- Bytes.U32LE: length fields are fixed to little-endian. The source writes
  native order, so the two agree on little-endian hosts.
- Transport.GenerateIpcKey: `char` is taken as signed (the x86 convention).
  On targets where `char` is unsigned, bytes of 128 and above would hash
  differently.
- Transport.QueueAdmission: the payload is carried as bytes, so a frame
  whose payload is not valid UTF-8 counts as admitted. In the source,
  `deserialize_from_ipc` converts the payload to a wide string. On the
  Linux and macOS builds that conversion throws for invalid UTF-8
  (src/utils.cpp:108-117), and the receiver drops the message
  (src/PlatformIPCWatcher.cpp:474-476). The same holds for
  Transport.UnixIPCWatcher.ProcessMessages.
- WireCodec.DeserializeFromIpc: the wide-string conversion of the payload,
  and the exception it can throw, are not modelled.
- Transport.UnixIPCWatcher.SendMsg: a wide payload that cannot be encoded
  as UTF-8 makes `serialize_for_ipc` throw (src/utils.cpp:75-77), and
  nothing is sent (src/PlatformIPCWatcher.cpp:383-387). The model always
  serializes.
- Transport.UnixIPCWatcher.ProcessMessages: receive failures other than a
  message are folded into "no message". `msgrcv` is called without
  `MSG_NOERROR` (src/PlatformIPCWatcher.cpp:427-428), so a message larger
  than 7 KiB + 4 bytes is never removed. Every poll then fails, and the
  messages behind it are never received. The model's events are the polls'
  outcomes, so this shows only as a run of failures. `processing` is read once, because
  no concurrent `stop` is modelled. The loop ends when the given events run
  out.
- Transport.WindowsIPCWatcher.ProcessMessages: the connect, wait and event
  sub-steps of a pass are folded into one `Connection` outcome. A pass
  without a client is `NoClient`.
- Transport.WindowsIPCWatcher.SendMsg: `FlushFileBuffers` and the close of
  the client handle are not modelled.
- The destructor of `WindowsIPCWatcher`, which closes the server pipe
  handle, is not modelled.
- Instance.LinuxAppInstance.Init: whether the lock is held is computed
  from the namespace. Other `flock` errors are the `flockFails`
  parameter. The lock is modelled per path. A lock held
  through a descriptor on a file that has since been unlinked is not told
  apart from the file now at that path.
- Instance.MacAppInstance.Init: a failed registration leaves `receive_port_`
  set. A later release then registers `MACH_PORT_NULL` under the name,
  which the model reads as withdrawing the name.
- Instance.MacFocusCommand: the title is escaped for AppleScript only. A `'`
  in it ends the shell's single-quoted script. The model states the command
  string, not how the shell reads it.
- FocusUtil.XdotoolEscape: `"`, `$` and backtick are not escaped for the
  shell's double quotes. The model states the string, not how the shell
  reads it.
- Facade.SecondaryRequestReachesPrimary: the primary's transport thread and
  dispatch thread run one after the other. The message text travels from
  sender to receiver as a value, not through a queue object. The primary's
  `msgget` is taken to create the queue (`QueueCreated`), so the method
  assumes that no queue for the key is left over from an earlier run. Queue
  ownership does not follow the instance guard, so the other case loses
  the request (`Facade.StaleQueueStarvesPrimary`, under "Findings").

## Findings

| source | as written | input that shows it | evidently intended | confidence | as-written member | corrected member |
|---|---|---|---|---|---|---|
| src/linux_focus_util.h:211 | the single-quoted title is placed inside `'[title=` … `] focus'`, so its quotes close and reopen the outer ones. The title is read unquoted: its blanks split words and its shell metacharacters are live | window titles `a b` and `a  b`: for both, `swaymsg` receives the same two words `[title=a` and `b] focus` | the whole criterion `[title=<title>] focus` reaches `swaymsg` as one word | not executed | FocusUtil.SwayArgumentAsWrittenSplits | FocusUtil.SwayArgumentIsOneWord |
| src/PlatformIPCWatcher.cpp:397-416 | the transport thread becomes the receiver only if it creates the queue (`IPC_CREAT \| IPC_EXCL`), independently of the instance guard. A queue is removed only by its primary on the way out (src/PlatformIPCWatcher.cpp:481-486), so a primary that is killed leaves it behind | a primary is killed; the next launch takes the free lock and is first, but `msgget` reports `EEXIST`, so it attaches and returns; a third launch's request sits in the queue and no callback runs | the instance holding the guard receives the requests, also through a queue it finds left behind | not executed | Facade.StaleQueueStarvesPrimary | Facade.StaleQueueServedByOwner |
