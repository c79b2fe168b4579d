/** The RPC client of RPC.c: joining the service's channel with a bounded
    number of attempts, sending one framed command, handing the canary over on
    the caller's descriptor, and turning the service's answer into a return
    value. Every I/O outcome (sockets, reads, writes, the random source) is an
    input. */
module RpcClient {
  import opened Bytes
  import opened RpcFrame

  const SERVICE_CONNECT_ATTEMPTS: nat := 30
  /** `sizeof(char) + sizeof(retval) + sizeof(errno)` in get_retval. */
  const RETVAL_SZ: nat := 9
  /** The acknowledgement byte 'z': a descriptor hand-off follows. */
  const ACK_FD_FOLLOWS: byte := 122

  /** The command ids and ERR_OK from RPC.h, with the frame layout. */
  datatype Config = Config(
    lay: Layout,
    socketId: byte, connectId: byte, bindId: byte, listenId: byte, getsocknameId: byte,
    errOk: int)

  /** The ids are distinct and below 128, so comparing the stored `char` with
      them is comparing bytes. */
  predicate ValidConfig(cfg: Config)
  {
    cfg.socketId < 128 && cfg.connectId < 128 && cfg.bindId < 128 &&
    cfg.listenId < 128 && cfg.getsocknameId < 128 &&
    cfg.socketId != cfg.connectId && cfg.socketId != cfg.bindId &&
    cfg.socketId != cfg.listenId && cfg.socketId != cfg.getsocknameId &&
    cfg.connectId != cfg.bindId && cfg.connectId != cfg.listenId && cfg.connectId != cfg.getsocknameId &&
    cfg.bindId != cfg.listenId && cfg.bindId != cfg.getsocknameId &&
    cfg.listenId != cfg.getsocknameId
  }

  // ---------------------------------------------------------------------------
  // get_new_fd, get_retval, load_symbols_rpc

  /** get_new_fd: the descriptor sock_fd_read delivered when it reports a
      positive size, -1 otherwise. */
  function GetNewFd(size: int, newfd: int): (fd: int)
    ensures size > 0 ==> fd == newfd
    ensures size <= 0 ==> fd == -1
    ensures fd != -1 ==> size > 0 && fd == newfd
  {
    if size > 0 then newfd else -1
  }

  /** What one `read` returned: an error, or the bytes delivered (none at end of stream). */
  datatype ReadResult = ReadFailed | ReadBytes(bytes: seq<byte>)

  /** The value get_retval returns and the errno it sets, if it sets one. */
  datatype Retval = Retval(value: int, errno: Option<int>)

  /** The service's answer `[status:1][retval:4][errno:4]`. */
  function EncodeRetval(status: byte, value: int, errno: int): (b: seq<byte>)
    requires IsInt32(value) && IsInt32(errno)
    ensures |b| == RETVAL_SZ
  {
    [status] + Int32Bytes(value) + Int32Bytes(errno)
  }

  /** get_retval: with a valid socket and a read of at least one byte, the
      `int` at offset 1 is returned and errno is set from the `int` at offset 5
      of a buffer cleared before the read; otherwise -1 and errno untouched. */
  function GetRetval(rpcSock: int, rd: ReadResult): (r: Retval)
    requires rd.ReadBytes? ==> |rd.bytes| <= RETVAL_SZ
    ensures r.errno.Some? <==> rpcSock >= 0 && rd.ReadBytes? && |rd.bytes| > 0
    ensures r.errno.None? ==> r.value == -1
  {
    if rpcSock >= 0 && rd.ReadBytes? && |rd.bytes| > 0 then
      var retbuf := rd.bytes + Zeros(RETVAL_SZ - |rd.bytes|);
      Retval(Int32At(retbuf, 1), Some(Int32At(retbuf, 5)))
    else
      Retval(-1, None)
  }

  /** A complete answer decodes to the return value and errno that were sent. */
  lemma GetRetvalRoundTrip(rpcSock: int, status: byte, value: int, errno: int)
    requires rpcSock >= 0 && IsInt32(value) && IsInt32(errno)
    ensures GetRetval(rpcSock, ReadBytes(EncodeRetval(status, value, errno))) == Retval(value, Some(errno))
  {
    var b := EncodeRetval(status, value, errno);
    assert b + Zeros(0) == b;
    Int32RoundTrip(value, [status], Int32Bytes(errno));
    Int32RoundTrip(errno, [status] + Int32Bytes(value), []);
    assert b == [status] + Int32Bytes(value) + Int32Bytes(errno) + [];
  }

  /** A short answer is read as if the missing bytes were zero. */
  lemma ShortReadIsZeroFilled(rpcSock: int, bytes: seq<byte>)
    requires rpcSock >= 0 && 0 < |bytes| < RETVAL_SZ
    ensures GetRetval(rpcSock, ReadBytes(bytes)) == GetRetval(rpcSock, ReadBytes(bytes + Zeros(RETVAL_SZ - |bytes|)))
  {
    var full := bytes + Zeros(RETVAL_SZ - |bytes|);
    assert full + Zeros(0) == full;
  }

  /** load_symbols_rpc: in an interception build it fails (-1) unless both
      `socket` and `connect` resolve; it returns -1 or 1 and never 0. */
  function LoadSymbolsRpc(interceptBuild: bool, socketFound: bool, connectFound: bool): (r: int)
    ensures r == -1 || r == 1
    ensures r == -1 <==> interceptBuild && !(socketFound && connectFound)
  {
    if interceptBuild && !(socketFound && connectFound) then -1 else 1
  }

  // ---------------------------------------------------------------------------
  // rpc_join

  /** The index of the first successful (zero) connect result, or `|results|`. */
  function FirstSuccess(results: seq<int>): (k: nat)
    ensures k <= |results|
    ensures k < |results| ==> results[k] == 0
    ensures forall j :: 0 <= j < k ==> results[j] != 0
  {
    if results == [] || results[0] == 0 then 0 else 1 + FirstSuccess(results[1..])
  }

  /** The socket rpc_join returns and how many connects it attempted. */
  datatype Joined = Joined(sock: int, calls: nat)

  /** rpc_join as a value: -1 without any attempt when the guard on the symbol
      loader fires or the socket cannot be created; otherwise the socket after
      the first successful attempt among the first 30, or -1 after 30 failures. */
  function JoinSpec(loaded: int, socketResult: int, connects: seq<int>): (j: Joined)
    requires |connects| >= SERVICE_CONNECT_ATTEMPTS
  {
    if loaded == 0 || socketResult < 0 then Joined(-1, 0)
    else
      var k := FirstSuccess(connects[..SERVICE_CONNECT_ATTEMPTS]);
      if k < SERVICE_CONNECT_ATTEMPTS then Joined(socketResult, k + 1) else Joined(-1, SERVICE_CONNECT_ATTEMPTS)
  }

  /** At most 30 attempts; the result is the socket exactly when some attempt
      among the first 30 succeeds, and -1 otherwise. */
  lemma JoinBounded(symbols: int, socketResult: int, connects: seq<int>)
    requires symbols == -1 || symbols == 1
    requires |connects| >= SERVICE_CONNECT_ATTEMPTS
    ensures var j := JoinSpec(symbols, socketResult, connects);
            j.calls <= SERVICE_CONNECT_ATTEMPTS && (j.sock == -1 || j.sock == socketResult)
    ensures JoinSpec(symbols, socketResult, connects).sock >= 0 <==>
            socketResult >= 0 && exists i :: 0 <= i < SERVICE_CONNECT_ATTEMPTS && connects[i] == 0
  {
    if socketResult >= 0 {
      var k := FirstSuccess(connects[..SERVICE_CONNECT_ATTEMPTS]);
      if k < SERVICE_CONNECT_ATTEMPTS {
        assert connects[k] == 0;
      }
    }
  }

  /** The guard `!load_symbols_rpc()` in rpc_join never fires. */
  lemma JoinGuardIsDead(interceptBuild: bool, socketFound: bool, connectFound: bool,
                        socketResult: int, connects: seq<int>)
    requires |connects| >= SERVICE_CONNECT_ATTEMPTS
    ensures JoinSpec(LoadSymbolsRpc(interceptBuild, socketFound, connectFound), socketResult, connects)
            == JoinSpec(1, socketResult, connects)
  {
  }

  /** rpc_join: create the socket, then retry connect while it fails, at most
      SERVICE_CONNECT_ATTEMPTS times (sleeping between attempts). */
  method RpcJoin(loaded: int, socketResult: int, connects: seq<int>) returns (sock: int, calls: nat)
    requires |connects| >= SERVICE_CONNECT_ATTEMPTS
    ensures Joined(sock, calls) == JoinSpec(loaded, socketResult, connects)
  {
    if loaded == 0 {
      return -1, 0;
    }
    var connErr := -1;
    var attempts := 0;
    if socketResult < 0 {
      return -1, 0;
    }
    sock := socketResult;
    while connErr != 0 && attempts < SERVICE_CONNECT_ATTEMPTS
      invariant 0 <= attempts <= SERVICE_CONNECT_ATTEMPTS
      invariant forall j :: 0 <= j < attempts ==> connects[j] != 0
      invariant connErr != 0
      decreases SERVICE_CONNECT_ATTEMPTS - attempts
    {
      connErr := connects[attempts];
      if connErr == 0 {
        assert FirstSuccess(connects[..SERVICE_CONNECT_ATTEMPTS]) == attempts by {
          FirstSuccessAt(connects[..SERVICE_CONNECT_ATTEMPTS], attempts);
        }
        return sock, attempts + 1;
      }
      // sleep(1)
      attempts := attempts + 1;
    }
    assert FirstSuccess(connects[..SERVICE_CONNECT_ATTEMPTS]) == SERVICE_CONNECT_ATTEMPTS by {
      FirstSuccessAt(connects[..SERVICE_CONNECT_ATTEMPTS], SERVICE_CONNECT_ATTEMPTS);
    }
    return -1, attempts;
  }

  /** FirstSuccess is the index of the first zero. */
  lemma FirstSuccessAt(results: seq<int>, k: nat)
    requires k <= |results| && (k < |results| ==> results[k] == 0)
    requires forall j :: 0 <= j < k ==> results[j] != 0
    ensures FirstSuccess(results) == k
  {
  }

  // ---------------------------------------------------------------------------
  // rpc_send_command

  /** The outcomes of every I/O step of one rpc_send_command, in order. */
  datatype RpcIo = RpcIo(
    interceptBuild: bool,     // NETCON_INTERCEPT or __IOS__ defined
    socketFound: bool,        // dlsym(RTLD_NEXT, "socket") != NULL
    connectFound: bool,       // dlsym(RTLD_NEXT, "connect") != NULL
    socketResult: int,        // realsocket(AF_UNIX, SOCK_STREAM, 0)
    connects: seq<int>,       // successive realconnect results
    canaryRead: int,          // read(fdrand, CANARY, CANARY_SZ)
    canary: seq<byte>,        // the CANARY bytes after that read
    scratch: seq<byte>,       // what the stack buffer metabuf held before
    nWrite: int,              // write(rpc_sock, metabuf, BUF_SZ)
    ackRead: int,             // read(rpc_sock, &c, 1)
    ack: byte,                // c
    tokenSend: int,           // send(forfd, CANARY, CANARY_SZ + PADDING_SZ, 0)
    retRead: ReadResult)      // the read in get_retval

  /** What load_symbols_rpc returns for these outcomes. */
  function Loaded(io: RpcIo): int
  {
    LoadSymbolsRpc(io.interceptBuild, io.socketFound, io.connectFound)
  }

  predicate WellFormedIo(cfg: Config, io: RpcIo)
  {
    |io.connects| >= SERVICE_CONNECT_ATTEMPTS && |io.canary| == CANARY_SZ &&
    |io.scratch| == cfg.lay.bufSz && (io.retRead.ReadBytes? ==> |io.retRead.bytes| <= RETVAL_SZ)
  }

  /** What one call does to the outside world. */
  datatype Action =
    | WriteFrame(sock: int, frame: seq<byte>)   // write(rpc_sock, metabuf, BUF_SZ)
    | SendToken(fd: int, token: seq<byte>)      // send(forfd, CANARY, ...)
    | Close(sock: int)                          // close(rpc_sock)

  /** The result of one call: return value, whether the lock was released,
      the errno it stored (if any), and its actions in order. */
  datatype Outcome = Outcome(ret: int, released: bool, errno: Option<int>, actions: seq<Action>)

  /** The answer of the dispatch at RPC.c:194-214: return value, whether
      `rpc_sock` stays open for the caller, and errno from get_retval. */
  datatype Response = Response(ret: int, keepOpen: bool, errno: Option<int>)

  predicate ReturnsChannel(cfg: Config, id: byte)
  {
    id == cfg.socketId || id == cfg.getsocknameId
  }

  predicate ReadsRetval(cfg: Config, id: byte)
  {
    id == cfg.connectId || id == cfg.bindId || id == cfg.listenId
  }

  function Respond(cfg: Config, id: byte, nWrite: int, rpcSock: int, rd: ReadResult): Response
    requires rd.ReadBytes? ==> |rd.bytes| <= RETVAL_SZ
  {
    if nWrite > 0 then
      if id == cfg.socketId then Response(rpcSock, true, None)
      else
        var got := if ReadsRetval(cfg, id) then GetRetval(rpcSock, rd) else Retval(cfg.errOk, None);
        if id == cfg.getsocknameId then Response(rpcSock, true, got.errno)
        else Response(got.value, false, got.errno)
    else
      Response(-1, false, None)
  }

  /** The canary is sent on the caller's descriptor only after an ack of 'z'
      for a successful write, and only to a valid descriptor. */
  predicate TokenDue(io: RpcIo, forfd: int)
  {
    io.ack == ACK_FD_FOLLOWS && io.nWrite > 0 && forfd > -1
  }

  /** rpc_send_command as a value. */
  function SendCommandSpec(cfg: Config, cmd: int, forfd: int, data: seq<byte>, pad: seq<byte>, io: RpcIo): Outcome
    requires Fits(cfg.lay, |data|) && WellFormedIo(cfg, io)
  {
    var rpcSock := JoinSpec(Loaded(io), io.socketResult, io.connects).sock;
    if io.canaryRead < 0 then
      Outcome(-1, false, None, [])
    else
      var wrote := [WriteFrame(rpcSock, Frame(cfg.lay, CmdByte(cmd), io.canary, data, io.scratch))];
      var errno := if io.nWrite < 0 then Some(0) else None;
      if io.ackRead < 0 then
        Outcome(-1, false, errno, wrote)
      else
        var sent := if TokenDue(io, forfd) then [SendToken(forfd, io.canary + pad)] else [];
        if TokenDue(io, forfd) && io.tokenSend < 0 then
          Outcome(-1, false, errno, wrote + sent)
        else
          var resp := Respond(cfg, CmdByte(cmd), io.nWrite, rpcSock, io.retRead);
          Outcome(resp.ret, true, if errno.Some? then errno else resp.errno,
                  wrote + sent + (if resp.keepOpen then [] else [Close(rpcSock)]))
  }

  /** The lock is released exactly on the three returns that follow the
      dispatch; the -1 returns after a failed canary read, a failed ack read or
      a failed canary send leave it held. */
  lemma LockHeldOnlyOnEarlyFailures(cfg: Config, cmd: int, forfd: int, data: seq<byte>, pad: seq<byte>, io: RpcIo)
    requires Fits(cfg.lay, |data|) && WellFormedIo(cfg, io)
    ensures var o := SendCommandSpec(cfg, cmd, forfd, data, pad, io);
            o.released <==> io.canaryRead >= 0 && io.ackRead >= 0 && !(TokenDue(io, forfd) && io.tokenSend < 0)
    ensures var o := SendCommandSpec(cfg, cmd, forfd, data, pad, io);
            !o.released ==> o.ret == -1 && (forall a :: a in o.actions ==> !a.Close?)
  {
  }

  /** The canary goes out on `forfd` exactly when it is due, it is the canary
      plus the padding, and its first CANARY_SZ bytes are the canary the
      service reads from the frame. */
  lemma TokenMatchesFrame(cfg: Config, cmd: int, forfd: int, data: seq<byte>, pad: seq<byte>, io: RpcIo)
    requires Fits(cfg.lay, |data|) && WellFormedIo(cfg, io)
    ensures var o := SendCommandSpec(cfg, cmd, forfd, data, pad, io);
            (exists a :: a in o.actions && a.SendToken?) <==> io.canaryRead >= 0 && io.ackRead >= 0 && TokenDue(io, forfd)
    ensures var o := SendCommandSpec(cfg, cmd, forfd, data, pad, io);
            forall a, w :: a in o.actions && a.SendToken? && w in o.actions && w.WriteFrame? ==>
              a.fd == forfd && a.token == io.canary + pad &&
              ParseFrame(cfg.lay, w.frame, |data|) == Some(Command(CmdByte(cmd), a.token[..CANARY_SZ], data))
  {
    var o := SendCommandSpec(cfg, cmd, forfd, data, pad, io);
    var rpcSock := JoinSpec(Loaded(io), io.socketResult, io.connects).sock;
    if io.canaryRead >= 0 {
      FrameRoundTrip(cfg.lay, CmdByte(cmd), io.canary, data, io.scratch);
      assert o.actions[0] == WriteFrame(rpcSock, Frame(cfg.lay, CmdByte(cmd), io.canary, data, io.scratch));
      assert (io.canary + pad)[..CANARY_SZ] == io.canary;
      if io.ackRead >= 0 && TokenDue(io, forfd) {
        assert o.actions[1].SendToken?;
      }
    }
  }

  /** The frame written is exactly the framed command: the service parses back
      the command byte, the canary and the payload. */
  lemma WrittenFrameParses(cfg: Config, cmd: int, forfd: int, data: seq<byte>, pad: seq<byte>, io: RpcIo)
    requires Fits(cfg.lay, |data|) && WellFormedIo(cfg, io) && io.canaryRead >= 0
    ensures var o := SendCommandSpec(cfg, cmd, forfd, data, pad, io);
            |o.actions| > 0 && o.actions[0].WriteFrame? &&
            o.actions[0].sock == JoinSpec(Loaded(io), io.socketResult, io.connects).sock &&
            ParseFrame(cfg.lay, o.actions[0].frame, |data|) == Some(Command(CmdByte(cmd), io.canary, data))
  {
    FrameRoundTrip(cfg.lay, CmdByte(cmd), io.canary, data, io.scratch);
  }

  /** Once the dispatch is reached: a failed write gives -1 (and a negative
      write count stores errno 0); SOCKET and GETSOCKNAME give the channel
      socket itself, left open; CONNECT, BIND and LISTEN give get_retval; any
      other command gives ERR_OK. The socket is closed exactly on the paths
      that do not hand it back. */
  lemma DispatchTable(cfg: Config, cmd: int, forfd: int, data: seq<byte>, pad: seq<byte>, io: RpcIo)
    requires ValidConfig(cfg) && Fits(cfg.lay, |data|) && WellFormedIo(cfg, io)
    requires SendCommandSpec(cfg, cmd, forfd, data, pad, io).released
    ensures var o := SendCommandSpec(cfg, cmd, forfd, data, pad, io);
            var id := CmdByte(cmd);
            var rpcSock := JoinSpec(Loaded(io), io.socketResult, io.connects).sock;
            (io.nWrite <= 0 ==> o.ret == -1) &&
            (io.nWrite < 0 ==> o.errno == Some(0)) &&
            (io.nWrite > 0 && ReturnsChannel(cfg, id) ==> o.ret == rpcSock) &&
            (io.nWrite > 0 && ReadsRetval(cfg, id) ==>
               o.ret == GetRetval(rpcSock, io.retRead).value && o.errno == GetRetval(rpcSock, io.retRead).errno) &&
            (io.nWrite > 0 && !ReturnsChannel(cfg, id) && !ReadsRetval(cfg, id) ==> o.ret == cfg.errOk) &&
            (Close(rpcSock) in o.actions <==> !(io.nWrite > 0 && ReturnsChannel(cfg, id)))
  {
    var o := SendCommandSpec(cfg, cmd, forfd, data, pad, io);
    var rpcSock := JoinSpec(Loaded(io), io.socketResult, io.connects).sock;
    var wrote := WriteFrame(rpcSock, Frame(cfg.lay, CmdByte(cmd), io.canary, data, io.scratch));
    assert Close(rpcSock) != wrote;
  }

  /** The client side of the channel: the mutex `lock` as a flag and the
      thread's errno. */
  class Client {
    const cfg: Config
    /** PADDING, the PADDING_SZ bytes sent after the canary. */
    const pad: seq<byte>
    var locked: bool
    var errno: int

    /** The command ids RPC.h defines are distinct bytes. */
    predicate Valid()
    {
      ValidConfig(cfg)
    }

    /** A client with the lock free; `errno` is whatever the thread held. */
    constructor (cfg: Config, pad: seq<byte>, errno: int)
      requires ValidConfig(cfg)
      ensures Valid() && this.cfg == cfg && this.pad == pad && !locked && this.errno == errno
    {
      this.cfg := cfg;
      this.pad := pad;
      locked := false;
      this.errno := errno;
    }

    /** rpc_send_command: the return value, the actions and the lock afterwards
        are those of SendCommandSpec. `errno` is the last value the code itself
        stores (0 after a failed write, or get_retval's); what a failing read or
        send leaves in the thread's errno is not modelled. A call finding the
        lock held would block, so the lock must be free. */
    method SendCommand(cmd: int, forfd: int, data: seq<byte>, io: RpcIo) returns (ret: int, actions: seq<Action>)
      requires Valid() && !locked
      requires Fits(cfg.lay, |data|) && WellFormedIo(cfg, io)
      modifies this
      ensures Valid()
      ensures var o := SendCommandSpec(cfg, cmd, forfd, data, pad, io);
              ret == o.ret && actions == o.actions && locked == !o.released &&
              errno == (if o.errno.Some? then o.errno.value else old(errno))
    {
      locked := true;
      actions := [];
      var rpcSock, _ := RpcJoin(Loaded(io), io.socketResult, io.connects);
      if io.canaryRead < 0 {
        return -1, actions;
      }
      var frame := AssembleFrame(cfg.lay, cmd, io.canary, data, io.scratch);
      var id := CmdByte(cmd);
      actions := actions + [WriteFrame(rpcSock, frame)];
      var nWrite := io.nWrite;
      if nWrite < 0 {
        errno := 0;
      }
      if io.ackRead < 0 {
        return -1, actions;
      }
      if io.ack == ACK_FD_FOLLOWS && nWrite > 0 && forfd > -1 {
        actions := actions + [SendToken(forfd, io.canary + pad)];
        if io.tokenSend < 0 {
          return -1, actions;
        }
      }
      ret := cfg.errOk;
      if nWrite > 0 {
        if id == cfg.socketId {
          locked := false;
          return rpcSock, actions;
        }
        if id == cfg.connectId || id == cfg.bindId || id == cfg.listenId {
          var got := GetRetval(rpcSock, io.retRead);
          ret := got.value;
          if got.errno.Some? {
            errno := got.errno.value;
          }
        }
        if id == cfg.getsocknameId {
          locked := false;
          return rpcSock, actions;
        }
      } else {
        ret := -1;
      }
      actions := actions + [Close(rpcSock)];
      locked := false;
    }
  }
}
