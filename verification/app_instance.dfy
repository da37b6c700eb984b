/** The single-instance guard (src/AppInstance.cpp, fields in
    src/AppInstance.h): one class per platform, each deciding at `init`
    whether this process is the first instance and giving its guard back at
    `release`. The operating system's guard primitives are replaced by a
    shared `LockNamespace` holding the names currently taken. */
module Instance {
  import opened Bytes
  import opened Escaping
  import opened FocusUtil

  /** The system-wide names the guards use, shared by every process:
      - `mutexes`: the named mutexes, one occurrence per open handle (a named
        mutex exists while any handle to it is open);
      - `lockFiles`: the lock files present on disk, and `locked`: those on
        which some open descriptor holds the exclusive `flock`;
      - `services`: the names registered with the bootstrap server. */
  class LockNamespace {
    var mutexes: multiset<seq<byte>>
    var lockFiles: set<seq<byte>>
    var locked: set<seq<byte>>
    var services: set<seq<byte>>

    constructor ()
      ensures mutexes == multiset{} && lockFiles == {} && locked == {} && services == {}
    {
      mutexes := multiset{};
      lockFiles := {};
      locked := {};
      services := {};
    }
  }

  /** "/tmp/" */
  const TMP_DIR: seq<byte> := [47, 116, 109, 112, 47]
  /** ".lock" */
  const LOCK_SUFFIX: seq<byte> := [46, 108, 111, 99, 107]
  /** "com.example." */
  const SERVICE_PREFIX: seq<byte> := [99, 111, 109, 46, 101, 120, 97, 109, 112, 108, 101, 46]

  /** The Linux lock file of an application: "/tmp/" + handle + ".lock". */
  function LockPath(appHandle: seq<byte>): seq<byte>
  {
    TMP_DIR + CStr(appHandle) + LOCK_SUFFIX
  }

  /** The macOS bootstrap service of an application: "com.example." + handle. */
  function ServiceName(appHandle: seq<byte>): seq<byte>
  {
    SERVICE_PREFIX + CStr(appHandle)
  }

  /** Applications with different handles use different lock files, and
      applications with the same handle the same one. */
  lemma LockPathInjective(a: seq<byte>, b: seq<byte>)
    ensures LockPath(a) == LockPath(b) <==> CStr(a) == CStr(b)
  {
    if LockPath(a) == LockPath(b) {
      var n := |TMP_DIR|;
      assert |CStr(a)| == |CStr(b)|;
      assert CStr(a) == LockPath(a)[n..n + |CStr(a)|];
      assert CStr(b) == LockPath(b)[n..n + |CStr(b)|];
    }
  }

  /** Applications with different handles register different services. */
  lemma ServiceNameInjective(a: seq<byte>, b: seq<byte>)
    ensures ServiceName(a) == ServiceName(b) <==> CStr(a) == CStr(b)
  {
    if ServiceName(a) == ServiceName(b) {
      assert CStr(a) == ServiceName(a)[|SERVICE_PREFIX|..];
      assert CStr(b) == ServiceName(b)[|SERVICE_PREFIX|..];
    }
  }

  // ---------------------------------------------------------------------
  // Windows: a named mutex

  /** `WinAppInstance`: `mutexName` is `Some(name)` while `mutex_handle_`
      holds a handle on the mutex of that name. */
  class WinAppInstance {
    var isFirst: bool
    var mutexName: Option<seq<byte>>

    /** The base constructor sets `is_first_`; the handle starts null. */
    constructor ()
      ensures isFirst && mutexName == None
    {
      isFirst := true;
      mutexName := None;
    }

    /** `init`: `CreateMutexA` opens the named mutex, creating it if needed;
        the instance is first unless the call reports that the mutex already
        existed. A failed creation (`createFails`, some other error) leaves
        the handle null and the instance first. */
    method Init(appHandle: seq<byte>, ns: LockNamespace, createFails: bool)
      modifies this, ns`mutexes
      ensures createFails ==> mutexName == None && isFirst && ns.mutexes == old(ns.mutexes)
      ensures !createFails ==>
                mutexName == Some(CStr(appHandle)) &&
                (isFirst <==> CStr(appHandle) !in old(ns.mutexes)) &&
                ns.mutexes == old(ns.mutexes) + multiset{CStr(appHandle)}
    {
      var name := CStr(appHandle);
      if createFails {
        mutexName := None;
        isFirst := true;
      } else {
        isFirst := name !in ns.mutexes;
        ns.mutexes := ns.mutexes + multiset{name};
        mutexName := Some(name);
      }
    }

    /** `release`: closes the handle if there is one and nulls it, so a
        second release does nothing. */
    method Release(ns: LockNamespace)
      modifies this`mutexName, ns`mutexes
      ensures mutexName == None
      ensures old(mutexName).None? ==> ns.mutexes == old(ns.mutexes)
      ensures old(mutexName).Some? ==> ns.mutexes == old(ns.mutexes) - multiset{old(mutexName).value}
    {
      if mutexName.Some? {
        ns.mutexes := ns.mutexes - multiset{mutexName.value};
        mutexName := None;
      }
    }
  }

  /** Three launches under one handle on Windows: the first is first, the
      second is not, and after the first releases, a third launch is still
      not first while the second keeps its handle open. */
  method WinLaunches(appHandle: seq<byte>) returns (first: bool, second: bool, third: bool)
    ensures first && !second && !third
  {
    var ns := new LockNamespace();
    var a := new WinAppInstance();
    a.Init(appHandle, ns, false);
    var b := new WinAppInstance();
    b.Init(appHandle, ns, false);
    a.Release(ns);
    var c := new WinAppInstance();
    c.Init(appHandle, ns, false);
    first, second, third := a.isFirst, b.isFirst, c.isFirst;
  }

  // ---------------------------------------------------------------------
  // Linux: an exclusive flock on a lock file

  /** `LinuxAppInstance`: `lockFd` is the lock file's descriptor, -1 when
      there is none; `appHandle` is the handle `init` saw. */
  class LinuxAppInstance {
    var isFirst: bool
    var lockFd: int
    var appHandle: seq<byte>

    constructor ()
      ensures isFirst && lockFd == -1 && appHandle == []
    {
      isFirst := true;
      lockFd := -1;
      appHandle := [];
    }

    /** `init`: opens (creating if needed) the lock file, given as `fd` the
        descriptor `open` returns (-1 on failure). On failure `isFirst` keeps
        its value. Otherwise the instance is first exactly when the
        non-blocking exclusive `flock` succeeds: it fails when some
        descriptor holds the lock already, and for any other error the call
        reports (`flockFails`). */
    method Init(handle: seq<byte>, ns: LockNamespace, fd: int, flockFails: bool)
      requires fd >= -1
      modifies this, ns`lockFiles, ns`locked
      ensures appHandle == handle && lockFd == fd
      ensures fd == -1 ==>
                isFirst == old(isFirst) && ns.lockFiles == old(ns.lockFiles) && ns.locked == old(ns.locked)
      ensures fd != -1 ==>
                ns.lockFiles == old(ns.lockFiles) + {LockPath(handle)} &&
                (isFirst <==> !flockFails && LockPath(handle) !in old(ns.locked)) &&
                ns.locked == (if isFirst then old(ns.locked) + {LockPath(handle)} else old(ns.locked))
    {
      appHandle := handle;
      var path := LockPath(handle);
      lockFd := fd;
      if lockFd == -1 {
        return;
      }
      ns.lockFiles := ns.lockFiles + {path};
      if flockFails || path in ns.locked {
        isFirst := false;
      } else {
        ns.locked := ns.locked + {path};
        isFirst := true;
      }
    }

    /** `release`: only with an open descriptor; closing it drops the lock
        this instance holds (a first instance holds it), a first instance
        also unlinks the file, and the descriptor becomes -1, so a second
        release does nothing. Both calls use the same path. */
    method Release(ns: LockNamespace)
      modifies this`lockFd, ns`lockFiles, ns`locked
      ensures lockFd == -1
      ensures old(lockFd) == -1 || !isFirst ==>
                ns.lockFiles == old(ns.lockFiles) && ns.locked == old(ns.locked)
      ensures old(lockFd) != -1 && isFirst ==>
                ns.lockFiles == old(ns.lockFiles) - {LockPath(appHandle)} &&
                ns.locked == old(ns.locked) - {LockPath(appHandle)}
    {
      if lockFd != -1 {
        var path := LockPath(appHandle);
        if isFirst {
          ns.locked := ns.locked - {path};
          ns.lockFiles := ns.lockFiles - {path};
        }
        lockFd := -1;
      }
    }
  }

  /** Three launches under one handle on Linux: the first is first, the
      second is not, and once the first releases, a third launch is first
      again even though the second is still running. */
  method LinuxLaunches(appHandle: seq<byte>) returns (first: bool, second: bool, third: bool)
    ensures first && !second && third
  {
    var ns := new LockNamespace();
    var a := new LinuxAppInstance();
    a.Init(appHandle, ns, 3, false);
    var b := new LinuxAppInstance();
    b.Init(appHandle, ns, 4, false);
    a.Release(ns);
    var c := new LinuxAppInstance();
    c.Init(appHandle, ns, 5, false);
    first, second, third := a.isFirst, b.isFirst, c.isFirst;
  }

  /** A launch whose lock file cannot be opened counts as first, whatever
      other instances hold. */
  method LinuxOpenFailureIsFirst(appHandle: seq<byte>) returns (first: bool, second: bool)
    ensures first && second
  {
    var ns := new LockNamespace();
    var a := new LinuxAppInstance();
    a.Init(appHandle, ns, 3, false);
    var b := new LinuxAppInstance();
    b.Init(appHandle, ns, -1, false);
    first, second := a.isFirst, b.isFirst;
  }

  /** A launch whose `flock` fails for a reason other than a held lock
      counts as not first, though no instance holds the lock, and takes no
      lock; a later launch is then first. */
  method LinuxFlockFailureIsNotFirst(appHandle: seq<byte>) returns (first: bool, second: bool)
    ensures !first && second
  {
    var ns := new LockNamespace();
    var a := new LinuxAppInstance();
    a.Init(appHandle, ns, 3, true);
    var b := new LinuxAppInstance();
    b.Init(appHandle, ns, 4, false);
    first, second := a.isFirst, b.isFirst;
  }

  // ---------------------------------------------------------------------
  // macOS: a bootstrap service

  /** `MacAppInstance`: `receivePort` says `receive_port_` is not
      `MACH_PORT_NULL`; `serviceName` is the name `init` computed. */
  class MacAppInstance {
    var isFirst: bool
    var receivePort: bool
    var serviceName: seq<byte>

    constructor ()
      ensures isFirst && !receivePort && serviceName == []
    {
      isFirst := true;
      receivePort := false;
      serviceName := [];
    }

    /** `init`: a successful lookup of the service means another instance
        exists. Otherwise the instance is first, allocates a receive port
        (`allocOk`) and registers the service (`registerOk`); each failure
        throws (`threw`). A failed registration frees the port but leaves
        `receive_port_` holding its name. */
    method Init(appHandle: seq<byte>, ns: LockNamespace, allocOk: bool, registerOk: bool)
      returns (threw: bool)
      modifies this, ns`services
      ensures serviceName == ServiceName(appHandle)
      ensures ServiceName(appHandle) in old(ns.services) ==>
                !isFirst && !threw && receivePort == old(receivePort) && ns.services == old(ns.services)
      ensures ServiceName(appHandle) !in old(ns.services) && !allocOk ==>
                isFirst && threw && receivePort == old(receivePort) && ns.services == old(ns.services)
      ensures ServiceName(appHandle) !in old(ns.services) && allocOk && !registerOk ==>
                isFirst && threw && receivePort && ns.services == old(ns.services)
      ensures ServiceName(appHandle) !in old(ns.services) && allocOk && registerOk ==>
                isFirst && !threw && receivePort && ns.services == old(ns.services) + {ServiceName(appHandle)}
    {
      serviceName := ServiceName(appHandle);
      threw := false;
      if serviceName in ns.services {
        isFirst := false;
        return;
      }
      isFirst := true;
      if !allocOk {
        threw := true;
        return;
      }
      receivePort := true;
      if !registerOk {
        threw := true;
        return;
      }
      ns.services := ns.services + {serviceName};
    }

    /** `release`: only a first instance with a non-null port withdraws its
        service name and frees the port, which becomes null, so a second
        release does nothing. */
    method Release(ns: LockNamespace)
      modifies this`receivePort, ns`services
      ensures !isFirst || !old(receivePort) ==> receivePort == old(receivePort) && ns.services == old(ns.services)
      ensures isFirst && old(receivePort) ==> !receivePort && ns.services == old(ns.services) - {serviceName}
    {
      if isFirst && receivePort {
        ns.services := ns.services - {serviceName};
        receivePort := false;
      }
    }
  }

  /** Two launches under one handle on macOS: the first registers and is
      first, the second finds the service and is not; after the first
      releases, a third launch is first again. */
  method MacLaunches(appHandle: seq<byte>) returns (first: bool, second: bool, third: bool)
    ensures first && !second && third
  {
    var ns := new LockNamespace();
    var a := new MacAppInstance();
    var _ := a.Init(appHandle, ns, true, true);
    var b := new MacAppInstance();
    var _ := b.Init(appHandle, ns, true, true);
    a.Release(ns);
    var c := new MacAppInstance();
    var _ := c.Init(appHandle, ns, true, true);
    first, second, third := a.isFirst, b.isFirst, c.isFirst;
  }

  /** The focus helpers `LinuxAppInstance::FocusWindow` can call. */
  datatype FocusHelper = X11Helper | WaylandHelper | GenericTools

  /** `LinuxAppInstance::FocusWindow` up to the helpers it calls: nothing for
      a null or empty title or one that converts to the empty string;
      otherwise the helper for the detected display server (the X11 one only
      when built with X11 support), then the generic tools if that helper did
      not focus the window or there is none. `x11Focused` and
      `waylandFocused` are the helpers' answers. */
  method LinuxFocusWindow(title: Option<string>, convert: string -> Option<string>,
                          waylandDisplaySet: bool, displaySet: bool, x11Support: bool,
                          x11Focused: bool, waylandFocused: bool)
    returns (tried: seq<FocusHelper>)
    ensures title.None? || title.value == [] || ConvertForFocus(title, convert) == [] ==> tried == []
    ensures title.Some? && title.value != [] && ConvertForFocus(title, convert) != [] ==>
              match DetectDisplayServer(waylandDisplaySet, displaySet)
              case DsX11 =>
                tried == (if x11Support then [X11Helper] else []) +
                         (if x11Support && x11Focused then [] else [GenericTools])
              case DsWayland => tried == [WaylandHelper] + (if waylandFocused then [] else [GenericTools])
              case DsUnknown => tried == [GenericTools]
    ensures GenericTools in tried <==>
              title.Some? && title.value != [] && ConvertForFocus(title, convert) != [] &&
              !(waylandDisplaySet && waylandFocused) &&
              !(!waylandDisplaySet && displaySet && x11Support && x11Focused)
  {
    tried := [];
    if title.None? || title.value == [] {
      return;
    }
    var utf8 := ConvertForFocus(title, convert);
    if utf8 == [] {
      return;
    }
    var focused := false;
    match DetectDisplayServer(waylandDisplaySet, displaySet) {
      case DsX11 =>
        if x11Support {
          tried := tried + [X11Helper];
          focused := x11Focused;
        }
        if !focused {
          tried := tried + [GenericTools];
        }
      case DsWayland =>
        tried := tried + [WaylandHelper];
        focused := waylandFocused;
        if !focused {
          tried := tried + [GenericTools];
        }
      case DsUnknown =>
        tried := tried + [GenericTools];
    }
  }

  /** The characters the AppleScript escape prefixes. */
  const APPLESCRIPT_SPECIAL: set<char> := {'"', '\\'}

  /** The escape loop of `MacAppInstance::FocusWindow`: a backslash before
      every `"` and `\`, every other character copied; AppleScript's string
      reader gives the title back. */
  method AppleScriptEscape(title: string) returns (escaped: string)
    ensures escaped == BackslashEscaped(title, APPLESCRIPT_SPECIAL)
    ensures |escaped| == |title| + CountIn(title, APPLESCRIPT_SPECIAL)
    ensures Unescaped(escaped, APPLESCRIPT_SPECIAL) == title
  {
    escaped := EscapeWith(title, APPLESCRIPT_SPECIAL);
    BackslashEscapedLength(title, APPLESCRIPT_SPECIAL);
    BackslashEscapedRoundTrip(title, APPLESCRIPT_SPECIAL, APPLESCRIPT_SPECIAL);
  }

  const OSASCRIPT_HEAD: string :=
    "osascript -e 'tell application \"System Events\" to tell (first process whose name contains \""
  const OSASCRIPT_TAIL: string := "\") to set frontmost to true' > /dev/null 2>&1"

  /** `MacAppInstance::FocusWindow` up to the `system` call: no command for a
      null or empty title or one the converter rejects or turns into the
      empty string; otherwise the `osascript` command with the escaped
      title. */
  method MacFocusCommand(title: Option<string>, convert: string -> Option<string>)
    returns (command: Option<string>)
    ensures title.None? || title.value == [] ==> command == None
    ensures title.Some? && title.value != [] && convert(title.value).None? ==> command == None
    ensures title.Some? && title.value != [] && convert(title.value) == Some([]) ==> command == None
    ensures title.Some? && title.value != [] && convert(title.value).Some? && convert(title.value).value != [] ==>
              command == Some(OSASCRIPT_HEAD + BackslashEscaped(convert(title.value).value, APPLESCRIPT_SPECIAL) + OSASCRIPT_TAIL)
  {
    if title.None? || title.value == [] {
      return None;
    }
    var converted := convert(title.value);
    if converted.None? {
      return None;
    }
    var utf8 := converted.value;
    if utf8 == [] {
      return None;
    }
    var escaped := AppleScriptEscape(utf8);
    command := Some(OSASCRIPT_HEAD + escaped + OSASCRIPT_TAIL);
  }
}
