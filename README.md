# netcon proxy and RPC client, modelled in Dafny

This project models two sequential parts of ZeroTier's netcon layer.

- **The proxy state machine** (`netcon/NetconProxy.cpp`). The virtualization service runs it on every accepted proxy connection. It is a close variant of SOCKS5 (RFC 1928): method negotiation (section 3), then a request (section 4) with domain-name addressing (section 5), then a reply (section 6). After that, every chunk is relayed.
- **The RPC client** (`netcon/RPC.c`). It runs inside the intercepted application. It joins the service's channel with a bounded number of retries and sends one fixed-size command frame: signal phrase, command id, 8-byte canary, payload. When the acknowledgement asks for it, it sends the canary on the caller's descriptor. It then turns the service's answer into a POSIX-style result.

Files:

- `bytes.dfy` (module `Bytes`): bytes, C strings, and integer byte layouts on a little-endian host.
- `proxy_spec.dfy` (module `ProxySpec`): what one chunk does to one connection, as a value. `Step` runs, in sequence, the three state tests of `phyOnTcpData` that act: COMPLETE, OPEN and CONNECT_INIT. The fourth test, on SOCKS_UDP, is left out (see below). The lemmas in this module state the state-machine properties.
- `proxy.dfy` (module `Proxy`): the mutable side.
  - `SockAddrIn` and `ExtractAddress` (which writes through its pointer).
  - `Connection`, with its state and its pending output `txbuf`.
  - `ProxyTap`, which holds the connection table and the three callbacks.
  - `OnTcpData` is proved equal to `ProxySpec.Step` on the connection it finds. `OnTcpAccept` and `OnDatagram` state the new table and the new pending output directly. `OnDatagram` appends in every state, whereas `Step` appends only in COMPLETE.
  - The table is proved to change only on accept.
- `rpc_frame.dfy` (module `RpcFrame`): the command frame.
  - It is built in place into `cmdbuf` and `metabuf`, as the C code builds it.
  - It is proved to read back as the same command id, canary and payload.
- `rpc_client.dfy` (module `RpcClient`): `get_new_fd`, `get_retval`, `load_symbols_rpc`, the `rpc_join` retry loop and `rpc_send_command`.
  - The mutex is modelled as a `locked` flag and errno as a field.
  - Every I/O outcome is an input: the symbol lookups, socket creation, each connect attempt, the `/dev/urandom` read and its bytes, the prior contents of the stack buffer, the write count, the ack read and byte, the canary send and the return-value read.

The collaborators `_phy.streamSend`, `handleSocketProxy`, `handleConnectProxy` and `handleWrite` are recorded as a list of `Effect`s in call order. The RPC client's writes, canary sends and closes are recorded as `Action`s. The RPC.h constants are parameters: the phrase, `IDX_PAYLOAD` and `BUF_SZ` (`RpcFrame.Layout`), the command ids and `ERR_OK` (`RpcClient.Config`), and `PADDING` (`RpcClient.Client.pad`). The model fixes the `cmdbuf` layout at command id 0, canary 1, payload 9, because the copy of `len + 1 + CANARY_SZ` bytes relies on it. `CANARY_SZ` is 8.

The model assumes a little-endian host. This matters in three places:
- `ExtractAddress` copies the two wire port bytes into an `int` and converts `(uint16_t)port_` with `hton` (NetconProxy.cpp:82-86). Only on a little-endian host is the result the big-endian value of those bytes (`ProxySpec.DomainPort`). On a big-endian host the cast keeps the two zero high bytes, and the port would be 0.
- The CONNECT reply copies the in-memory bytes of `sin_port`.
- `get_retval` copies raw `int`s out of the answer.

In some places the code does not do what a reader of the protocol or of the function names would expect. The model follows the code:
- After a failed write of the frame, the code sets errno to 0 (RPC.c:178-181). The errno of the failed `write` is therefore lost. When the ack read that follows succeeds, the caller sees errno 0 with the -1 result. When it fails (always so after a failed `rpc_join`), the caller sees the read's errno, and the lock stays held.
- Each chunk is parsed on its own, so the state machine depends on chunk boundaries (`ProxySpec.SplitNegotiationIsLost`). TCP does not keep message boundaries, so one SOCKS message may arrive in several pieces. The code handles a message only when it arrives in one chunk.
- RFC 1928 section 6 says the reply carries the bound address and port in the requested address type's format. The code's CONNECT reply (NetconProxy.cpp:257-267) writes the two port bytes, swapped, over the last byte of the name (`ProxySpec.ConnectReplyPortSwapped`, `ProxySpec.LocalhostReplyLosesLastByte`).
- A UDP association never reaches a UDP-relay state (`ProxySpec.UdpAssociateStaysInConnectInit`).
- A domain CONNECT replies with status 0 (success) and moves to COMPLETE even when `handleSocketProxy` returns no socket (NetconProxy.cpp:232-234, 257-270). The REP codes listed at lines 238-247 would call for a failure reply. In the model `SocketProxy` carries no result, so the reply does not depend on it (`ProxySpec.DomainConnectCompletes`).

## Model

| member | source | states |
|---|---|---|
| `Bytes.CString` | netcon/NetconProxy.cpp:87 | the string seen by `std::string` is the prefix of the buffer before the first NUL, contains no NUL, and is followed by a NUL when shorter than the buffer |
| `Bytes.CStringPadded` | netcon/NetconProxy.cpp:81-87 | padding a name with at least one zero byte (the zeroed `addr_` buffer) does not change the string read from it |
| `Bytes.Int32RoundTrip` | netcon/RPC.c:81-82 | the `int` copied from four bytes is the `int` whose bytes were sent, for every 32-bit value |
| `ProxySpec.DomainName` | netcon/NetconProxy.cpp:80-87 | the name ExtractAddress reads is a prefix of the `L = buf[4]` bytes at offset 5, so it is at most `L` long |
| `ProxySpec.DomainPort` | netcon/NetconProxy.cpp:85-86 | the port is a 16-bit value |
| `ProxySpec.MethodSelection` | netcon/NetconProxy.cpp:148-168 | the negotiation reply is 2 bytes with version 5; the method is 2 exactly when the first offered method is 2, and 0 otherwise |
| `ProxySpec.IndexOf` | netcon/NetconProxy.cpp:306 | the index found by `find(":")` is the first occurrence, or the length when there is none |
| `ProxySpec.SplitHostPort` | netcon/NetconProxy.cpp:305-308 | with a colon, the text is `ip + ":" + port` and `ip` has no colon; without one, both halves are the whole text |
| `ProxySpec.NegotiationNeedsThreeBytes` | netcon/NetconProxy.cpp:144-146 | in OPEN a chunk shorter than 3 bytes sends nothing, appends nothing and stays in OPEN |
| `ProxySpec.NegotiationReply` | netcon/NetconProxy.cpp:144-172 | in OPEN a chunk of 3 to 9 bytes sends exactly `[5, m]`, where `m` is 2 when `buf[2] == 2` and 0 otherwise, and moves to CONNECT_INIT |
| `ProxySpec.NegotiationFallsThrough` | netcon/NetconProxy.cpp:144-185 | in OPEN a chunk of 10 bytes or more is answered and is also parsed as a request in the same call, because the state tests are sequential `if`s |
| `ProxySpec.CompleteOnlyRelays` | netcon/NetconProxy.cpp:115-123 | in COMPLETE a chunk is never parsed: a non-empty chunk is appended and handleWrite is called once, and an empty chunk does nothing |
| `ProxySpec.TxGrowsOnlyInComplete` | netcon/NetconProxy.cpp:115-123 | pending output grows only in COMPLETE, by exactly the chunk; the chunk that causes the move into COMPLETE is not appended |
| `ProxySpec.StateOnlyMovesForward` | netcon/NetconProxy.cpp:144-334 | only CONNECT_INIT (line 171) and COMPLETE (line 270) are ever assigned, so the state code never decreases and never reaches IPV4 or UDP |
| `ProxySpec.RequestIgnored` | netcon/NetconProxy.cpp:181-281 | in CONNECT_INIT, nothing happens for a chunk under 10 bytes, for a command other than 1 and 3, or for CONNECT with an address type other than 3 (including IPv4) |
| `ProxySpec.BindAndIPv4ConnectIgnored` | netcon/NetconProxy.cpp:195-224 | a BIND request (lines 276-281), and a CONNECT with address type 1, reply nothing, call no collaborator of the model and leave CONNECT_INIT and the pending output as they were |
| `ProxySpec.UdpAssociateStaysInConnectInit` | netcon/NetconProxy.cpp:284-327 | UDP ASSOCIATE calls handleSocketProxy (datagram) and handleConnectProxy, sends no reply, and leaves the state at CONNECT_INIT, because line 326 is a comparison |
| `ProxySpec.DomainConnectCompletes` | netcon/NetconProxy.cpp:227-271 | a domain CONNECT opens a stream socket, connects it to the parsed name and port, sends a reply exactly `len` bytes long, and sets COMPLETE without appending |
| `ProxySpec.RepliesAreNegotiationOrConnect` | netcon/NetconProxy.cpp:144-271 | every byte string sent is either the method selection or the CONNECT reply |
| `ProxySpec.ConnectReplyLayout` | netcon/NetconProxy.cpp:257-267 | the reply is `len` bytes: `[5,0,0,3]`, `L` at offset 4 when `L > 0`, request bytes `[5, 4+L)`, the two `sin_port` bytes at `4+L`, and zeros after |
| `ProxySpec.ConnectReplyPortSwapped` | netcon/NetconProxy.cpp:85-92 | the reply's port bytes are the request's port bytes swapped, and they take the place of the last name byte |
| `ProxySpec.DomainRequestRoundTrip` | netcon/NetconProxy.cpp:75-99 | parsing a request built from a name without NUL bytes (shorter than 32) and a port gives back that name and that port |
| `ProxySpec.LocalhostReplyLosesLastByte` | netcon/NetconProxy.cpp:260-266 | for the request for `localhost` port 443, reply byte 13 differs from the request's last name byte |
| `ProxySpec.SplitNegotiationIsLost` | netcon/NetconProxy.cpp:144-172 | `[5,1,0]` in one chunk is answered `[5,0]`, but the same bytes sent as `[5]` then `[1,0]` get no answer |
| `Proxy.ExtractAddress` | netcon/NetconProxy.cpp:75-99 | for type 3 it stores AF_INET, the name up to its first NUL, and the big-endian port; for any other type `addr` is unchanged |
| `Proxy.BuildConnectReply` | netcon/NetconProxy.cpp:257-267 | the reply filled in place with memset, memcpy and stores is the reply whose layout `ConnectReplyLayout` gives |
| `Proxy.DomainConnect` | netcon/NetconProxy.cpp:227-267 | calls handleSocketProxy, then handleConnectProxy with the parsed destination, then streamSend with the reply, in that order |
| `Proxy.Lookup` | netcon/NetconProxy.cpp:108 | the connection found for a socket is the first one with that socket, or none |
| `Proxy.Connection.constructor` | netcon/NetconProxy.cpp:340-341 | a new connection has the accepted socket, state OPEN, and no pending output |
| `Proxy.Connection.OnData` | netcon/NetconProxy.cpp:114-334 | the new state, pending output and calls made are those of `ProxySpec.Step` on the old state and output |
| `Proxy.Connection.RelayChunk` | netcon/NetconProxy.cpp:115-123 | the first test: appends a non-empty chunk in COMPLETE and calls handleWrite |
| `Proxy.Connection.NegotiateChunk` | netcon/NetconProxy.cpp:144-173 | the second test: method selection in OPEN |
| `Proxy.Connection.RequestChunk` | netcon/NetconProxy.cpp:181-334 | the third test: the request in CONNECT_INIT |
| `Proxy.ProxyTap.OnTcpAccept` | netcon/NetconProxy.cpp:337-344 | the table gains exactly one new connection, for `sockN`, in OPEN with nothing pending, and keeps the invariant that no connection is in IPV4 or UDP |
| `Proxy.ProxyTap.OnTcpData` | netcon/NetconProxy.cpp:101-112 | the table never changes; with no connection for the socket nothing changes and nothing is called; otherwise only the found connection changes, as `Step` says |
| `Proxy.ProxyTap.OnDatagram` | netcon/NetconProxy.cpp:352-367 | a non-empty datagram for a known socket grows that connection's output by exactly the datagram, in any state, and calls handleWrite once; otherwise nothing changes |
| `RpcFrame.CmdByte` | netcon/RPC.c:148 | the stored command byte is the command id itself when the id is a byte value |
| `RpcFrame.FrameRoundTrip` | netcon/RPC.c:147-174 | parsing the frame written, with the payload length known, gives back exactly the command id, the canary and the payload, whatever the buffer held before |
| `RpcFrame.FrameKeepsScratch` | netcon/RPC.c:172-177 | the frame bytes between the phrase and IDX_PAYLOAD, and after the payload, are the buffer's previous contents, written out as they were |
| `RpcFrame.ParseFrame` | netcon/RPC.c:172-177 | a frame is accepted exactly when it is BUF_SZ bytes and starts with the signal phrase; the canary it yields is 8 bytes and the payload `len` bytes |
| `RpcFrame.AssembleFrame` | netcon/RPC.c:147-177 | the frame filled in place through `cmdbuf` and `metabuf` is the phrase, the command byte, the canary and the payload, at their offsets in a BUF_SZ buffer |
| `RpcClient.GetNewFd` | netcon/RPC.c:59-67 | the received descriptor is returned exactly when the read reports a positive size, and -1 otherwise |
| `RpcClient.GetRetval` | netcon/RPC.c:72-87 | errno is set exactly when the socket is valid and the read yields at least one byte; otherwise the result is -1 |
| `RpcClient.GetRetvalRoundTrip` | netcon/RPC.c:72-87 | decoding a complete answer `[status][retval][errno]` gives the retval and the errno that were sent |
| `RpcClient.ShortReadIsZeroFilled` | netcon/RPC.c:78-82 | a short answer decodes as if the missing bytes were zero, because the buffer is cleared before the read |
| `RpcClient.LoadSymbolsRpc` | netcon/RPC.c:89-98 | the result is -1 or 1 and never 0; it is -1 exactly in an interception build where `socket` or `connect` does not resolve |
| `RpcClient.JoinGuardIsDead` | netcon/RPC.c:100-103 | the `!load_symbols_rpc()` guard never fires, so a failed symbol lookup does not stop rpc_join |
| `RpcClient.FirstSuccess` | netcon/RPC.c:116-124 | the attempt that ends the loop is the first connect that returned 0 |
| `RpcClient.JoinBounded` | netcon/RPC.c:106-125 | at most 30 connects are attempted; the result is the socket exactly when socket creation succeeds and one of the first 30 attempts succeeds, and -1 otherwise |
| `RpcClient.RpcJoin` | netcon/RPC.c:100-126 | the retry loop returns the socket and the number of connects made that `JoinSpec` gives |
| `RpcClient.LockHeldOnlyOnEarlyFailures` | netcon/RPC.c:133-214 | the lock is released exactly on the returns at lines 198, 207 and 214; the -1 returns at lines 145, 185 and 190 leave it held and close nothing |
| `RpcClient.TokenMatchesFrame` | netcon/RPC.c:141-192 | the canary and padding go to `forfd` exactly when the ack is 'z', the write count is positive and `forfd > -1`; the canary sent is the one in the frame |
| `RpcClient.WrittenFrameParses` | netcon/RPC.c:172-177 | once the canary is read, the first action writes to the joined socket a frame that parses back to the command, canary and payload |
| `RpcClient.DispatchTable` | netcon/RPC.c:178-214 | a failed write gives -1, and a negative write stores errno 0; SOCKET and GETSOCKNAME return the open channel socket; CONNECT, BIND and LISTEN return get_retval; other commands return ERR_OK; the socket is closed exactly when not returned |
| `RpcClient.Client.constructor` | netcon/RPC.c:46-50 | a new client holds the lock free, leaves the thread's errno as it was, and satisfies `Valid`: the RPC.h command ids are distinct |
| `RpcClient.Client.SendCommand` | netcon/RPC.c:131-215 | the return value, the actions, the lock and the last errno value the code itself stores (line 180, or `get_retval`'s at line 82) are those of `SendCommandSpec`, and errno is unchanged when the code stores none; `Valid` is required and kept, so `DispatchTable` applies to every call |

## Left out

- Raw OS I/O is left out. Each outcome is an input instead: `dlsym`, `realsocket`, `realconnect`, `sleep`, `open`/`read` of `/dev/urandom`, and `write`, `read`, `send` and `close` on the channel socket. Errno values set by failing system calls are not modelled. Only the two assignments the code makes to errno are.
- `sock_fd_write` and `sock_fd_read` (RPC.c:220-300) are left out. Only the size and descriptor that `get_new_fd` receives from `sock_fd_read` are modelled, as inputs.
- The mutex is modelled only as a held/released flag. Concurrency is not modelled. A call made while the flag is held would block, so `Client.SendCommand` requires the lock to be free.
- `Client.constructor` stands for the static `lock` once `rpc_mutex_init` has run (RPC.c:46-51). The failure branch of `rpc_mutex_init` and all of `rpc_mutex_destroy` are left out. So is the `VERBOSE` metadata block (pid, tid, count, time). All logging is left out too.
- When `load_symbols_rpc` fails, `rpc_join` still calls through an unresolved `realsocket` or `realconnect` pointer (RPC.c:111, 117). The model takes that call's result as an input and says nothing about the null call.
- The proxy's raw IPv4 CONNECT path is modelled only as "no reply, no state change". Its `socket`/`connect` calls, `inet_ntop`, and a port read from `buf[5]` are left out.
- `inet_addr` and `atoi` are collaborators. The model passes on the text they are given.
- `StartProxy`, `phyOnTcpConnect`, `phyOnTcpClose` (`closeConnection`), `phyOnTcpWritable` and `phyOnFileDescriptorActivity` are not part of this model. They only do listening-socket setup, logging and a discarded read, or their bodies are not shown.
- `_phy.setNotifyWritable` in `phyOnTcpAccept` is left out.
- `getConnection` is not shown in the source. It is modelled as a search for the first connection with the socket (`Proxy.Lookup`).
- The SOCKS_UDP block (NetconProxy.cpp:125-136) is left out. It reads two bytes and does nothing, and it cannot run, because no connection ever holds that state (`ProxyTap.Valid`). The BIND branch also does nothing.
- `Proxy.Connection.OnData` requires three conditions that the code does not check. The code checks only `len >= 10`. The model gives no meaning to a request that breaks them, because the C code then has undefined behaviour:
  - For a domain CONNECT, `L = buf[4] < 32`. ExtractAddress copies `L` bytes into the 32-byte stack array `addr_` (NetconProxy.cpp:81-84). With `L` from 33 to 255 the copy writes past the end of `addr_`, a stack overflow that a client can trigger remotely whatever the chunk length. With `L == 32` the array has no terminating NUL before `std::string addr_str(addr_)` reads it (line 87).
  - For a domain CONNECT, `7 + L <= len`, because the port is read at offsets `5 + L` and `6 + L`.
  - For UDP ASSOCIATE, `5 + L <= len`, because the `L`-byte address field starts at offset 5.
- The UDP-association text is taken as the bytes up to the first NUL of the `L`-byte field, or all of them. When the field holds no NUL, the code reads past its variable-length array. The model does not follow that read.
- `Proxy.ProxyTap.OnDatagram`, `Proxy.Connection.RelayChunk`: the append `txbuf + buf` is the evident intent of `memcpy((&conn->txbuf)+(conn->txsz), buf, len)` (NetconProxy.cpp:119, 363). As written, the pointer arithmetic scales by the size of `txbuf`'s whole type, not by one byte. So the copy lands at `txbuf[txsz]` only while `txsz` is 0, that is, for the first relayed chunk when `txbuf` is an array. Every later chunk is written past that point. The `Connection` declaration is not part of this model, so the model keeps the intended append, and the capacity of `txbuf` is not modelled.
- OneServiceSetup.hpp holds only declarations and is not modelled.
