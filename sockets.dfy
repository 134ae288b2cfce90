/**
 * The socket binding of server.go (socketListen and createUnixSocket),
 * run against an abstract operating system instead of real sockets.
 *
 * The system state is the set of bound TCP addresses and the file system
 * entries at Unix socket paths: a socket some process listens on (Live), a
 * socket file nobody listens on any more (Stale), or some other file.
 * Which calls fail for reasons the model does not track (permissions, a
 * full disk, races with other processes) is fixed by a Faults value.
 */
module Sockets {
  import opened Wrappers
  import opened GoStrings

  /** Permission bits of a file, as os.FileMode keeps them. */
  type Mode = bv32

  /** Octal 0060: group read and write. */
  const GroupReadWrite: Mode := 0x30

  datatype Node = Live | Stale | File

  datatype Entry = Entry(node: Node, mode: Mode)

  datatype World = World(tcpBound: set<string>, files: map<string, Entry>)

  /**
   * The calls that fail for the given address or path, and the permission
   * bits a freshly created socket file gets (from the process umask).
   */
  datatype Faults = Faults(
    unresolvable: set<string>,
    listenFails: set<string>,
    statFails: set<string>,
    chmodFails: set<string>,
    removeFails: set<string>,
    createMode: Mode)

  datatype Op = ResolveOp | ListenOp | StatOp | ChmodOp | RemoveOp | CloseOp

  datatype Error =
    | OpFailed(op: Op, target: string)  // an error reported by the operating system
    | AnotherProcess(path: string)      // "another process seems to be listening on <path> already"

  datatype Listener = UnixListener(path: string) | TcpListener(addr: string)

  // The system calls, one step each.

  /** net.ListenUnix: binding fails when anything already exists at the path. */
  function ListenUnixStep(w: World, f: Faults, path: string): (World, Result<Listener, Error>) {
    if path in w.files || path in f.listenFails then (w, Err(OpFailed(ListenOp, path)))
    else (w.(files := w.files[path := Entry(Live, f.createMode)]), Ok(UnixListener(path)))
  }

  /** os.Stat, reduced to the permission bits. */
  function StatStep(w: World, f: Faults, path: string): Result<Mode, Error> {
    if path !in w.files || path in f.statFails then Err(OpFailed(StatOp, path))
    else Ok(w.files[path].mode)
  }

  /** os.Chmod */
  function ChmodStep(w: World, f: Faults, path: string, mode: Mode): (World, Option<Error>) {
    if path !in w.files || path in f.chmodFails then (w, Some(OpFailed(ChmodOp, path)))
    else (w.(files := w.files[path := w.files[path].(mode := mode)]), None)
  }

  /** net.Dial("unix", path): a connection is accepted only by a live socket. */
  predicate DialSucceeds(w: World, path: string) {
    path in w.files && w.files[path].node == Live
  }

  /** os.Remove */
  function RemoveStep(w: World, f: Faults, path: string): (World, Option<Error>) {
    if path !in w.files || path in f.removeFails then (w, Some(OpFailed(RemoveOp, path)))
    else (w.(files := w.files - {path}), None)
  }

  /** net.ListenTCP: an address can be bound only once. */
  function ListenTcpStep(w: World, f: Faults, addr: string): (World, Result<Listener, Error>) {
    if addr in w.tcpBound || addr in f.listenFails then (w, Err(OpFailed(ListenOp, addr)))
    else (w.(tcpBound := w.tcpBound + {addr}), Ok(TcpListener(addr)))
  }

  /** Listener.Close: releases the address; a Unix listener also unlinks its socket file. */
  function CloseStep(w: World, l: Listener): (World, Option<Error>) {
    match l
    case TcpListener(addr) =>
      if addr in w.tcpBound then (w.(tcpBound := w.tcpBound - {addr}), None)
      else (w, Some(OpFailed(CloseOp, addr)))
    case UnixListener(path) =>
      if DialSucceeds(w, path) then (w.(files := w.files - {path}), None)
      else (w, Some(OpFailed(CloseOp, path)))
  }

  /** The operating system the server talks to. */
  class Os {
    var world: World
    const faults: Faults

    constructor (world: World, faults: Faults)
      ensures this.world == world && this.faults == faults
    {
      this.world := world;
      this.faults := faults;
    }

    method Resolve(addr: string) returns (err: Option<Error>)
      ensures err == if addr in faults.unresolvable then Some(OpFailed(ResolveOp, addr)) else None
    {
      err := if addr in faults.unresolvable then Some(OpFailed(ResolveOp, addr)) else None;
    }

    method ListenUnix(path: string) returns (r: Result<Listener, Error>)
      modifies this
      ensures (world, r) == ListenUnixStep(old(world), faults, path)
    {
      var (w, res) := ListenUnixStep(world, faults, path);
      world, r := w, res;
    }

    method Stat(path: string) returns (r: Result<Mode, Error>)
      ensures r == StatStep(world, faults, path)
    {
      r := StatStep(world, faults, path);
    }

    method Chmod(path: string, mode: Mode) returns (err: Option<Error>)
      modifies this
      ensures (world, err) == ChmodStep(old(world), faults, path, mode)
    {
      var (w, e) := ChmodStep(world, faults, path, mode);
      world, err := w, e;
    }

    method Dial(path: string) returns (ok: bool)
      ensures ok == DialSucceeds(world, path)
    {
      ok := DialSucceeds(world, path);
    }

    method Remove(path: string) returns (err: Option<Error>)
      modifies this
      ensures (world, err) == RemoveStep(old(world), faults, path)
    {
      var (w, e) := RemoveStep(world, faults, path);
      world, err := w, e;
    }

    method ListenTcp(addr: string) returns (r: Result<Listener, Error>)
      modifies this
      ensures (world, r) == ListenTcpStep(old(world), faults, addr)
    {
      var (w, res) := ListenTcpStep(world, faults, addr);
      world, r := w, res;
    }

    method Close(l: Listener) returns (err: Option<Error>)
      modifies this
      ensures (world, err) == CloseStep(old(world), l)
    {
      var (w, e) := CloseStep(world, l);
      world, err := w, e;
    }
  }

  /**
   * What createUnixSocket leaves behind.  As in the source, a failing stat
   * or chmod after a successful listen reports the error together with the
   * listener, whose socket stays bound.
   */
  datatype Created = Created(world: World, listener: Option<Listener>, err: Option<Error>)

  /** createUnixSocket: listen, then widen the socket file's mode by group read and write. */
  function CreateUnix(w: World, f: Faults, path: string): (c: Created)
    ensures c.err.None? ==> c.listener == Some(UnixListener(path))
    ensures c.err.None? ==> path in c.world.files && c.world.files[path] == Entry(Live, f.createMode | GroupReadWrite)
    ensures c.listener.None? ==> c.world == w && c.err.Some?
  {
    var (w1, listened) := ListenUnixStep(w, f, path);
    if listened.Err? then Created(w, None, Some(listened.error))
    else
      match StatStep(w1, f, path)
      case Err(e) => Created(w1, Some(listened.value), Some(e))
      case Ok(mode) =>
        var (w2, chmodErr) := ChmodStep(w1, f, path, mode | GroupReadWrite);
        Created(w2, Some(listened.value), chmodErr)
  }

  /** createUnixSocket against the operating system. */
  method CreateUnixSocket(os: Os, path: string) returns (l: Option<Listener>, err: Option<Error>)
    modifies os
    ensures Created(os.world, l, err) == CreateUnix(old(os.world), os.faults, path)
  {
    var listened := os.ListenUnix(path);
    if listened.Err? {
      return None, Some(listened.error);
    }
    l := Some(listened.value);
    var stat := os.Stat(path);
    if stat.Err? {
      return l, Some(stat.error);
    }
    err := os.Chmod(path, stat.value | GroupReadWrite);
  }

  /** socketListen: a path starting with '/' is a Unix socket, anything else a TCP address. */
  function SocketListenSpec(w: World, f: Faults, addr: string): (World, Result<Listener, Error>) {
    if HasPrefix(addr, "/") then
      if addr in f.unresolvable then (w, Err(OpFailed(ResolveOp, addr)))
      else
        var first := CreateUnix(w, f, addr);
        if first.err.None? then (first.world, Ok(first.listener.value))
        else if DialSucceeds(first.world, addr) then (first.world, Err(AnotherProcess(addr)))
        else
          var (w2, removeErr) := RemoveStep(first.world, f, addr);
          if removeErr.Some? then (w2, Err(removeErr.value))
          else
            var second := CreateUnix(w2, f, addr);
            if second.err.None? then (second.world, Ok(second.listener.value))
            else (second.world, Err(second.err.value))
    else if addr in f.unresolvable then (w, Err(OpFailed(ResolveOp, addr)))
    else ListenTcpStep(w, f, addr)
  }

  /** socketListen against the operating system: create, dial on failure, then remove and retry once. */
  method SocketListen(os: Os, addr: string) returns (r: Result<Listener, Error>)
    modifies os
    ensures (os.world, r) == SocketListenSpec(old(os.world), os.faults, addr)
  {
    if HasPrefix(addr, "/") {
      var resolveErr := os.Resolve(addr);
      if resolveErr.Some? {
        return Err(resolveErr.value);
      }
      var l, err := CreateUnixSocket(os, addr);
      if err.Some? {
        // the path is taken: is a process still listening on it?
        var connected := os.Dial(addr);
        if !connected {
          err := os.Remove(addr);
          if err.Some? {
            return Err(err.value);
          }
          l, err := CreateUnixSocket(os, addr);
          if err.Some? {
            return Err(err.value);
          }
          return Ok(l.value);
        } else {
          return Err(AnotherProcess(addr));
        }
      }
      return Ok(l.value);
    } else {
      var resolveErr := os.Resolve(addr);
      if resolveErr.Some? {
        return Err(resolveErr.value);
      }
      r := os.ListenTcp(addr);
    }
  }

  // Properties of the binding protocol.

  /** Widening the mode keeps every bit that was set and adds group read and write, nothing else. */
  lemma ModeWidened(m: Mode)
    ensures (m | GroupReadWrite) & m == m
    ensures (m | GroupReadWrite) & GroupReadWrite == GroupReadWrite
    ensures (m | GroupReadWrite) & !GroupReadWrite == m & !GroupReadWrite
  {
  }

  /** createUnixSocket succeeds exactly when the path is free and none of its three calls fails. */
  lemma CreateSucceedsIff(w: World, f: Faults, path: string)
    ensures CreateUnix(w, f, path).err.None?
        <==> path !in w.files && path !in f.listenFails && path !in f.statFails && path !in f.chmodFails
  {
  }

  /** A live socket at the path is refused, and the file system is left as it was. */
  lemma LiveSocketRefused(w: World, f: Faults, addr: string)
    requires HasPrefix(addr, "/") && addr !in f.unresolvable
    requires addr in w.files && w.files[addr].node == Live
    ensures SocketListenSpec(w, f, addr) == (w, Err(AnotherProcess(addr)))
  {
  }

  /**
   * A stale socket, or any other file nobody listens on, is removed and
   * replaced by a fresh socket when none of the calls fails.
   */
  lemma StaleSocketReplaced(w: World, f: Faults, addr: string)
    requires HasPrefix(addr, "/") && addr !in f.unresolvable
    requires addr in w.files && w.files[addr].node != Live
    requires addr !in f.removeFails && addr !in f.listenFails && addr !in f.statFails && addr !in f.chmodFails
    ensures var (w', r) := SocketListenSpec(w, f, addr);
      && r == Ok(UnixListener(addr))
      && w'.files == w.files[addr := Entry(Live, f.createMode | GroupReadWrite)]
      && w'.tcpBound == w.tcpBound
  {
    var removed := w.(files := w.files - {addr});
    assert removed.files - {addr} == removed.files;
    assert removed.files[addr := Entry(Live, f.createMode)][addr := Entry(Live, f.createMode | GroupReadWrite)]
        == w.files[addr := Entry(Live, f.createMode | GroupReadWrite)];
  }

  /** When the stale entry cannot be removed, that error is returned and nothing changes. */
  lemma RemoveFailureReported(w: World, f: Faults, addr: string)
    requires HasPrefix(addr, "/") && addr !in f.unresolvable
    requires addr in w.files && w.files[addr].node != Live
    requires addr in f.removeFails
    ensures SocketListenSpec(w, f, addr) == (w, Err(OpFailed(RemoveOp, addr)))
  {
  }

  /** Creation is retried only once: if the retry's listen fails too, its error is returned, the stale entry gone. */
  lemma RetryFailureReported(w: World, f: Faults, addr: string)
    requires HasPrefix(addr, "/") && addr !in f.unresolvable
    requires addr in w.files && w.files[addr].node != Live
    requires addr !in f.removeFails && addr in f.listenFails
    ensures var (w', r) := SocketListenSpec(w, f, addr);
      && r == Err(OpFailed(ListenOp, addr))
      && w'.files == w.files - {addr}
  {
  }

  /**
   * A stat or chmod failure right after a successful listen sends the code
   * down the dial path, where it reaches its own new socket: the result
   * claims another process is listening, and the socket stays bound.
   */
  lemma OwnSocketMistakenForAnother(w: World, f: Faults, addr: string)
    requires HasPrefix(addr, "/") && addr !in f.unresolvable
    requires addr !in w.files && addr !in f.listenFails
    requires addr in f.statFails || addr in f.chmodFails
    ensures var (w', r) := SocketListenSpec(w, f, addr);
      && r == Err(AnotherProcess(addr))
      && addr in w'.files && w'.files[addr].node == Live
  {
  }

  /** A live socket is never removed or replaced, whatever fails. */
  lemma LiveSocketKept(w: World, f: Faults, addr: string, path: string)
    requires path in w.files && w.files[path].node == Live
    ensures path in SocketListenSpec(w, f, addr).0.files
    ensures SocketListenSpec(w, f, addr).0.files[path] == w.files[path]
  {
    if HasPrefix(addr, "/") {
      if addr == path {
        if addr !in f.unresolvable {
          LiveSocketRefused(w, f, addr);
        }
      } else {
        UnixTouchesOnlyPath(w, f, addr);
      }
    }
  }

  /** `w'` differs from `w` at most in the file system entry at `path`. */
  predicate OnlyPathChanged(w: World, w': World, path: string) {
    && w'.tcpBound == w.tcpBound
    && (forall p :: p != path && p in w.files ==> p in w'.files && w'.files[p] == w.files[p])
    && (forall p :: p != path && p in w'.files ==> p in w.files)
  }

  /** createUnixSocket touches nothing but its own path. */
  lemma CreateTouchesOnlyPath(w: World, f: Faults, path: string)
    ensures OnlyPathChanged(w, CreateUnix(w, f, path).world, path)
  {
    var w' := CreateUnix(w, f, path).world;
    var (w1, listened) := ListenUnixStep(w, f, path);
    if listened.Ok? {
      assert w1.files == w.files[path := Entry(Live, f.createMode)];
      match StatStep(w1, f, path) {
        case Err(_) =>
          assert w' == w1;
        case Ok(mode) =>
          var (w2, _) := ChmodStep(w1, f, path, mode | GroupReadWrite);
          assert w' == w2;
          assert w2.files == w1.files || w2.files == w1.files[path := w1.files[path].(mode := mode | GroupReadWrite)];
      }
      assert w'.files - {path} == w.files - {path};
    }
    UpdateAtPath(w, w', path);
  }

  /** Two worlds whose TCP bindings agree and whose files agree away from `path` differ only at `path`. */
  lemma UpdateAtPath(w: World, w': World, path: string)
    requires w'.tcpBound == w.tcpBound && w'.files - {path} == w.files - {path}
    ensures OnlyPathChanged(w, w', path)
  {
    forall p | p != path && p in w.files
      ensures p in w'.files && w'.files[p] == w.files[p]
    {
      assert p in w.files - {path};
    }
    forall p | p != path && p in w'.files
      ensures p in w.files
    {
      assert p in w'.files - {path};
    }
  }

  /** A Unix path leaves the TCP bindings and every other path alone. */
  lemma UnixTouchesOnlyPath(w: World, f: Faults, addr: string)
    requires HasPrefix(addr, "/")
    ensures OnlyPathChanged(w, SocketListenSpec(w, f, addr).0, addr)
  {
    if addr !in f.unresolvable {
      var first := CreateUnix(w, f, addr);
      CreateTouchesOnlyPath(w, f, addr);
      if first.err.Some? && !DialSucceeds(first.world, addr) {
        var (w2, removeErr) := RemoveStep(first.world, f, addr);
        assert OnlyPathChanged(w, w2, addr);
        CreateTouchesOnlyPath(w2, f, addr);
      }
    }
  }

  /** A TCP address leaves the file system alone and binds at most itself. */
  lemma TcpTouchesOnlyAddress(w: World, f: Faults, addr: string)
    requires !HasPrefix(addr, "/")
    ensures var w' := SocketListenSpec(w, f, addr).0;
      w'.files == w.files && w.tcpBound <= w'.tcpBound <= w.tcpBound + {addr}
  {
  }

  /** A TCP address that is already bound cannot be bound again. */
  lemma TcpDoubleBindFails(w: World, f: Faults, addr: string)
    requires !HasPrefix(addr, "/") && addr in w.tcpBound
    ensures SocketListenSpec(w, f, addr).1.Err?
    ensures SocketListenSpec(w, f, addr).0 == w
  {
  }

  /** A free TCP address is bound when resolving and listening succeed, and then refuses a second bind. */
  lemma TcpBindsOnce(w: World, f: Faults, addr: string)
    requires !HasPrefix(addr, "/") && addr !in w.tcpBound
    requires addr !in f.unresolvable && addr !in f.listenFails
    ensures var (w', r) := SocketListenSpec(w, f, addr);
      && r == Ok(TcpListener(addr))
      && addr in w'.tcpBound
      && SocketListenSpec(w', f, addr).1.Err?
  {
  }
}
