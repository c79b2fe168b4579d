/** What one call of the proxy's data callback does to one connection, as a
    value: the SOCKS-like state machine of NetconProxy.cpp stated as functions.
    The method-selection message and the request follow sections 3 and 4 of
    RFC 1928 only loosely; the lemmas below say where this code departs. */
module ProxySpec {
  import opened Bytes

  const THIS_PROXY_VERSION: byte := 5
  const MAX_ADDR_LEN: nat := 32
  /** The smallest chunk parsed as a method-selection message. */
  const MIN_NEGOTIATION: nat := 3
  /** The smallest chunk parsed as a request: 4 header bytes, an IPv4 address, a port. */
  const MIN_REQUEST: nat := 10

  const METHOD_NO_AUTH: byte := 0
  const METHOD_PASSWORD: byte := 2
  const CMD_CONNECT: byte := 1
  const CMD_BIND: byte := 2
  const CMD_UDP_ASSOCIATE: byte := 3
  const ATYP_IPV4: byte := 1
  const ATYP_DOMAIN: byte := 3
  const COLON: byte := 58

  /** The SOCKS_* values of `proxy_conn_state`, in the order of their codes 0..4. */
  datatype ProxyState = Open | ConnectInit | ConnectIPv4 | Udp | Complete
  {
    function Code(): nat
    {
      match this
      case Open => 0
      case ConnectInit => 1
      case ConnectIPv4 => 2
      case Udp => 3
      case Complete => 4
    }

    /** The states the code ever assigns; SOCKS_CONNECT_IPV4 and SOCKS_UDP are never stored. */
    predicate Reachable()
    {
      this == Open || this == ConnectInit || this == Complete
    }
  }

  /** The socket type passed to handleSocketProxy. */
  datatype SockKind = Stream | Datagram

  /** The destination passed to handleConnectProxy. Its address is what the code
      hands to `inet_addr` (and, for UDP, its port what it hands to `atoi`). */
  datatype Dest =
    | DomainDest(host: seq<byte>, port: nat)
    | TextDest(ip: seq<byte>, portText: seq<byte>)

  /** One call into a collaborator, in the order the code makes them. */
  datatype Effect =
    | StreamSend(data: seq<byte>)   // _phy.streamSend(sock, reply, sizeof(reply))
    | SocketProxy(kind: SockKind)   // handleSocketProxy(sock, kind)
    | ConnectProxy(dest: Dest)      // handleConnectProxy(sock, &addr)
    | HandleWrite                   // handleWrite(conn)

  /** A connection's state and pending output after a chunk, with the calls made. */
  datatype Reaction = Reaction(state: ProxyState, tx: seq<byte>, effects: seq<Effect>)

  predicate IsDomainConnect(buf: seq<byte>)
  {
    |buf| >= MIN_REQUEST && buf[1] == CMD_CONNECT && buf[3] == ATYP_DOMAIN
  }

  predicate IsUdpAssociate(buf: seq<byte>)
  {
    |buf| >= MIN_REQUEST && buf[1] == CMD_UDP_ASSOCIATE
  }

  /** The 32-byte name buffer of ExtractAddress holds the name and a terminating
      NUL (a longer name overflows it), and the chunk holds the name and the two
      port bytes after it. */
  predicate DomainInBounds(buf: seq<byte>)
  {
    |buf| > 4 && (buf[4] as int) < MAX_ADDR_LEN && 7 + buf[4] as int <= |buf|
  }

  /** Every byte a request makes the code read lies inside the chunk. The code
      itself checks only `len >= 10`. */
  predicate RequestInBounds(buf: seq<byte>)
  {
    (IsDomainConnect(buf) ==> DomainInBounds(buf)) &&
    (IsUdpAssociate(buf) ==> 5 + buf[4] as int <= |buf|)
  }

  /** A chunk may be parsed as a request only in OPEN (falling through) or CONNECT_INIT. */
  predicate ChunkInBounds(state: ProxyState, buf: seq<byte>)
  {
    (state == Open || state == ConnectInit) ==> RequestInBounds(buf)
  }

  /** The name ExtractAddress reads for address type 3: `L = buf[4]` bytes from
      offset 5, up to the first NUL. */
  function DomainName(buf: seq<byte>): (name: seq<byte>)
    requires DomainInBounds(buf)
    ensures |name| <= buf[4] as int && name <= buf[5..5 + buf[4] as int]
  {
    CString(buf[5..5 + buf[4] as int])
  }

  /** The port ExtractAddress reads: the big-endian 16-bit value after the name. */
  function DomainPort(buf: seq<byte>): (port: nat)
    requires DomainInBounds(buf)
    ensures port < 0x1_0000
  {
    var at := 5 + buf[4] as int;
    BigEndian16(buf[at], buf[at + 1])
  }

  /** The method-selection reply: version 5 and method 2 when the FIRST offered
      method is 2, method 0 otherwise. */
  function MethodSelection(buf: seq<byte>): (reply: seq<byte>)
    requires |buf| >= MIN_NEGOTIATION
    ensures |reply| == 2 && reply[0] == THIS_PROXY_VERSION
    ensures reply[1] == METHOD_PASSWORD <==> buf[2] == METHOD_PASSWORD
    ensures reply[1] == METHOD_NO_AUTH <==> buf[2] != METHOD_PASSWORD
  {
    [THIS_PROXY_VERSION, if buf[2] == METHOD_PASSWORD then METHOD_PASSWORD else METHOD_NO_AUTH]
  }

  /** The reply to a domain CONNECT as the code fills it: `len` zero bytes, then
      version, status 0, reserved 0 and address type 3, the `L` bytes from
      offset 4 copied over, and the two bytes of `sin_port` (which holds `port`)
      stored at offset `4 + L`. */
  function ConnectReply(buf: seq<byte>, port: nat): (reply: seq<byte>)
    requires |buf| > 4 && 6 + buf[4] as int <= |buf| && port < 0x1_0000
  {
    var l := buf[4] as int;
    [THIS_PROXY_VERSION, 0, 0, ATYP_DOMAIN] + buf[4..4 + l] + HostBytes16(port) + Zeros(|buf| - (6 + l))
  }

  /** The index of the first `x` in `s`, or `|s|`. */
  function IndexOf(s: seq<byte>, x: byte): (i: nat)
    ensures i <= |s|
    ensures i < |s| ==> s[i] == x
    ensures forall j :: 0 <= j < i ==> s[j] != x
  {
    if s == [] || s[0] == x then 0 else 1 + IndexOf(s[1..], x)
  }

  /** How the UDP-association branch cuts its "address:port" text: at the first
      colon; with no colon, both halves are the whole text (`find` yields
      `npos`, which the code stores in an `int` as -1). */
  function SplitHostPort(text: seq<byte>): (parts: (seq<byte>, seq<byte>))
    ensures COLON in text ==> parts.0 + [COLON] + parts.1 == text && COLON !in parts.0
    ensures COLON !in text ==> parts.0 == text && parts.1 == text
  {
    var d := IndexOf(text, COLON);
    if d < |text| then
      assert text == text[..d] + [COLON] + text[d + 1..];
      (text[..d], text[d + 1..])
    else
      (text, text)
  }

  function DomainConnectEffects(buf: seq<byte>): seq<Effect>
    requires DomainInBounds(buf)
  {
    [SocketProxy(Stream), ConnectProxy(DomainDest(DomainName(buf), DomainPort(buf))),
     StreamSend(ConnectReply(buf, DomainPort(buf)))]
  }

  function UdpAssociateEffects(buf: seq<byte>): seq<Effect>
    requires |buf| > 4 && 5 + buf[4] as int <= |buf|
  {
    var parts := SplitHostPort(CString(buf[5..5 + buf[4] as int]));
    [SocketProxy(Datagram), ConnectProxy(TextDest(parts.0, parts.1))]
  }

  /** First test (NetconProxy.cpp:115-123): in COMPLETE a non-empty chunk is
      appended to the pending output and handleWrite is called. */
  function Relay(r: Reaction, buf: seq<byte>): Reaction
  {
    if r.state == Complete && |buf| > 0 then
      r.(tx := r.tx + buf, effects := r.effects + [HandleWrite])
    else
      r
  }

  /** Second test (NetconProxy.cpp:144-173): method selection. */
  function Negotiate(r: Reaction, buf: seq<byte>): Reaction
  {
    if r.state == Open && |buf| >= MIN_NEGOTIATION then
      r.(state := ConnectInit, effects := r.effects + [StreamSend(MethodSelection(buf))])
    else
      r
  }

  /** Third test (NetconProxy.cpp:181-334): the request. Only a domain CONNECT
      changes the state; a UDP association calls the collaborators but its
      state "assignment" at line 326 is a comparison. */
  function Request(r: Reaction, buf: seq<byte>): Reaction
    requires r.state == ConnectInit ==> RequestInBounds(buf)
  {
    if r.state == ConnectInit && |buf| >= MIN_REQUEST then
      if IsDomainConnect(buf) then
        r.(state := Complete, effects := r.effects + DomainConnectEffects(buf))
      else if IsUdpAssociate(buf) then
        r.(effects := r.effects + UdpAssociateEffects(buf))
      else
        r
    else
      r
  }

  /** One chunk: the three tests run one after the other on the state the
      previous one left, as the sequential `if`s of phyOnTcpData do. */
  function Step(state: ProxyState, tx: seq<byte>, buf: seq<byte>): Reaction
    requires ChunkInBounds(state, buf)
  {
    Request(Negotiate(Relay(Reaction(state, tx, []), buf), buf), buf)
  }

  // ---------------------------------------------------------------------------
  // Properties of one chunk

  /** In OPEN a chunk shorter than 3 bytes is ignored. */
  lemma NegotiationNeedsThreeBytes(tx: seq<byte>, buf: seq<byte>)
    requires |buf| < MIN_NEGOTIATION
    ensures Step(Open, tx, buf) == Reaction(Open, tx, [])
  {
  }

  /** In OPEN a chunk of 3 to 9 bytes gets exactly the 2-byte method selection
      and moves the connection to CONNECT_INIT. */
  lemma NegotiationReply(tx: seq<byte>, buf: seq<byte>)
    requires MIN_NEGOTIATION <= |buf| < MIN_REQUEST
    ensures var m := if buf[2] == METHOD_PASSWORD then METHOD_PASSWORD else METHOD_NO_AUTH;
            Step(Open, tx, buf) == Reaction(ConnectInit, tx, [StreamSend([THIS_PROXY_VERSION, m])])
  {
  }

  /** In OPEN a chunk of 10 bytes or more is answered with the method selection
      and then also parsed as a request, in the same call. */
  lemma NegotiationFallsThrough(tx: seq<byte>, buf: seq<byte>)
    requires |buf| >= MIN_REQUEST && RequestInBounds(buf)
    ensures Step(Open, tx, buf).state == Step(ConnectInit, tx, buf).state
    ensures Step(Open, tx, buf).tx == tx
    ensures Step(Open, tx, buf).effects == [StreamSend(MethodSelection(buf))] + Step(ConnectInit, tx, buf).effects
  {
  }

  /** In COMPLETE a chunk is never parsed: it is only relayed. */
  lemma CompleteOnlyRelays(tx: seq<byte>, buf: seq<byte>)
    ensures Step(Complete, tx, buf) ==
            if |buf| > 0 then Reaction(Complete, tx + buf, [HandleWrite]) else Reaction(Complete, tx, [])
  {
  }

  /** The pending output grows only in COMPLETE, by exactly the chunk; in
      particular the chunk that moves a connection into COMPLETE is not appended. */
  lemma TxGrowsOnlyInComplete(state: ProxyState, tx: seq<byte>, buf: seq<byte>)
    requires ChunkInBounds(state, buf)
    ensures Step(state, tx, buf).tx == if state == Complete then tx + buf else tx
    ensures state != Complete && Step(state, tx, buf).state == Complete ==> Step(state, tx, buf).tx == tx
  {
  }

  /** The only states ever assigned are CONNECT_INIT and COMPLETE, so the state
      code never decreases and stays among the reachable states. */
  lemma StateOnlyMovesForward(state: ProxyState, tx: seq<byte>, buf: seq<byte>)
    requires ChunkInBounds(state, buf)
    ensures var s := Step(state, tx, buf).state;
            state.Code() <= s.Code() && (s == state || s == ConnectInit || s == Complete)
    ensures state.Reachable() ==> Step(state, tx, buf).state.Reachable()
  {
  }

  /** In CONNECT_INIT nothing at all happens for a chunk shorter than 10 bytes,
      for a command other than CONNECT and UDP ASSOCIATE, and for a CONNECT whose
      address type is not 3 (an IPv4 CONNECT opens a raw socket but replies nothing). */
  lemma RequestIgnored(tx: seq<byte>, buf: seq<byte>)
    requires RequestInBounds(buf)
    requires |buf| < MIN_REQUEST || (buf[1] != CMD_CONNECT && buf[1] != CMD_UDP_ASSOCIATE)
             || (buf[1] == CMD_CONNECT && buf[3] != ATYP_DOMAIN)
    ensures Step(ConnectInit, tx, buf) == Reaction(ConnectInit, tx, [])
  {
  }

  /** BIND is recognised and does nothing, and a CONNECT to an IPv4 address
      opens a raw socket outside the calls modelled here: neither replies,
      moves the state or touches the pending output. */
  lemma BindAndIPv4ConnectIgnored(tx: seq<byte>, buf: seq<byte>)
    requires |buf| >= MIN_REQUEST
    requires buf[1] == CMD_BIND || (buf[1] == CMD_CONNECT && buf[3] == ATYP_IPV4)
    ensures Step(ConnectInit, tx, buf) == Reaction(ConnectInit, tx, [])
  {
  }

  /** A UDP association opens a datagram socket and connects it, but sends no
      reply and leaves the connection in CONNECT_INIT. */
  lemma UdpAssociateStaysInConnectInit(tx: seq<byte>, buf: seq<byte>)
    requires IsUdpAssociate(buf) && RequestInBounds(buf)
    ensures Step(ConnectInit, tx, buf).state == ConnectInit
    ensures Step(ConnectInit, tx, buf).effects == UdpAssociateEffects(buf)
    ensures forall e :: e in Step(ConnectInit, tx, buf).effects ==> !e.StreamSend?
  {
  }

  /** A domain CONNECT opens a stream socket, connects it to the parsed name and
      port, sends a reply exactly as long as the request, and completes. */
  lemma DomainConnectCompletes(tx: seq<byte>, buf: seq<byte>)
    requires IsDomainConnect(buf) && DomainInBounds(buf)
    ensures var r := Step(ConnectInit, tx, buf);
            r.state == Complete && r.tx == tx && |r.effects| == 3 &&
            r.effects[0] == SocketProxy(Stream) &&
            r.effects[1] == ConnectProxy(DomainDest(DomainName(buf), DomainPort(buf))) &&
            r.effects[2].StreamSend? && |r.effects[2].data| == |buf|
  {
    ConnectReplyLayout(buf, DomainPort(buf));
  }

  /** Every reply is either the method selection or the CONNECT reply. */
  lemma RepliesAreNegotiationOrConnect(state: ProxyState, tx: seq<byte>, buf: seq<byte>)
    requires ChunkInBounds(state, buf)
    ensures forall e :: e in Step(state, tx, buf).effects && e.StreamSend? ==>
              (|buf| >= MIN_NEGOTIATION && e.data == MethodSelection(buf)) ||
              (DomainInBounds(buf) && e.data == ConnectReply(buf, DomainPort(buf)))
  {
  }

  // ---------------------------------------------------------------------------
  // The CONNECT reply and the address it echoes

  /** Layout of the CONNECT reply: `len` bytes, `[5, 0, 0, 3]`, then `L` at
      offset 4 (when `L > 0`, since with `L == 0` the port overwrites it), the
      name bytes from offset 5 to `4 + L`, the port bytes at `4 + L`, zeros after. */
  lemma {:induction false} ConnectReplyLayout(buf: seq<byte>, port: nat)
    requires |buf| > 4 && 6 + buf[4] as int <= |buf| && port < 0x1_0000
    ensures var r := ConnectReply(buf, port); var l := buf[4] as int;
            |r| == |buf| && r[..4] == [THIS_PROXY_VERSION, 0, 0, ATYP_DOMAIN] &&
            (l > 0 ==> r[4] == buf[4] && r[5..4 + l] == buf[5..4 + l]) &&
            r[4 + l..6 + l] == HostBytes16(port) &&
            forall i :: 6 + l <= i < |buf| ==> r[i] == 0
  {
    var l := buf[4] as int;
    var r := ConnectReply(buf, port);
    var head: seq<byte> := [THIS_PROXY_VERSION, 0, 0, ATYP_DOMAIN];
    assert r == head + buf[4..4 + l] + HostBytes16(port) + Zeros(|buf| - (6 + l));
    assert r[..4] == head;
    assert r[4..4 + l] == buf[4..4 + l];
    if l > 0 {
      assert r[5..4 + l] == r[4..4 + l][1..];
    }
    assert r[4 + l..6 + l] == HostBytes16(port);
    forall i | 6 + l <= i < |buf|
      ensures r[i] == 0
    {
      assert r[i] == Zeros(|buf| - (6 + l))[i - (6 + l)];
    }
  }

  /** On a little-endian host the reply's port bytes are the request's port
      bytes swapped, and they overwrite the last byte of the echoed name. */
  lemma {:induction false} ConnectReplyPortSwapped(buf: seq<byte>)
    requires DomainInBounds(buf)
    ensures var r := ConnectReply(buf, DomainPort(buf)); var l := buf[4] as int;
            r[4 + l] == buf[6 + l] && r[5 + l] == buf[5 + l]
  {
    var l := buf[4] as int;
    var p := DomainPort(buf);
    ConnectReplyLayout(buf, p);
    var r := ConnectReply(buf, p);
    assert r[4 + l] == r[4 + l..6 + l][0] && r[5 + l] == r[4 + l..6 + l][1];
  }

  /** A well-formed domain request: version 5, CONNECT, reserved 0, type 3,
      the length, the name, and the port most significant byte first. */
  function DomainRequest(name: seq<byte>, port: nat): (req: seq<byte>)
    requires |name| < MAX_ADDR_LEN && port < 0x1_0000
    ensures |req| == 7 + |name|
  {
    [THIS_PROXY_VERSION, CMD_CONNECT, 0, ATYP_DOMAIN, |name| as byte] + name +
    [(port / 256) as byte, (port % 256) as byte]
  }

  /** Parsing a request built from a name without NUL bytes and a port gives
      back that name and port (inverse of DomainRequest). */
  lemma {:induction false} DomainRequestRoundTrip(name: seq<byte>, port: nat)
    requires |name| < MAX_ADDR_LEN && port < 0x1_0000
    requires forall i :: 0 <= i < |name| ==> name[i] != 0
    ensures var req := DomainRequest(name, port);
            |req| >= MIN_REQUEST ==> IsDomainConnect(req)
    ensures DomainInBounds(DomainRequest(name, port))
    ensures DomainName(DomainRequest(name, port)) == name
    ensures DomainPort(DomainRequest(name, port)) == port
  {
    var req := DomainRequest(name, port);
    var l := |name|;
    assert req[4] as int == l;
    assert req[5..5 + l] == name;
    CStringOfText(name);
    assert req[5 + l] as int == port / 256 && req[6 + l] as int == port % 256;
  }

  /** The reply does not echo the destination: read back as a request it never
      names the host that was asked for, because its last name byte is replaced. */
  lemma LocalhostReplyLosesLastByte()
    ensures var req := DomainRequest([108, 111, 99, 97, 108, 104, 111, 115, 116], 443);
            IsDomainConnect(req) && DomainInBounds(req) &&
            ConnectReply(req, DomainPort(req))[13] != req[13]
  {
    var req := DomainRequest([108, 111, 99, 97, 108, 104, 111, 115, 116], 443);
    DomainRequestRoundTrip([108, 111, 99, 97, 108, 104, 111, 115, 116], 443);
    ConnectReplyPortSwapped(req);
    assert req[13] == 116 && req[15] == 187;
  }

  // ---------------------------------------------------------------------------
  // Chunk boundaries matter

  /** Each chunk is parsed on its own: a method-selection message split after
      its first byte is never answered, while the same bytes in one chunk are. */
  lemma SplitNegotiationIsLost()
    ensures Step(Open, [], [5, 1, 0]) == Reaction(ConnectInit, [], [StreamSend([5, 0])])
    ensures Step(Open, [], [5]) == Reaction(Open, [], [])
    ensures Step(Open, [], [1, 0]) == Reaction(Open, [], [])
  {
  }
}
