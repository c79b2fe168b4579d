/** The proxy callbacks of NetconProxy.cpp over mutable state: the connection
    objects, the connection table, and the address struct ExtractAddress fills.
    Connection.OnData, and so ProxyTap.OnTcpData, is proved to do what
    ProxySpec.Step says one chunk does; OnTcpAccept and OnDatagram state the new
    table and pending output directly (a datagram is appended in every state). */
module Proxy {
  import opened Bytes
  import opened ProxySpec

  /** A PhySocket, compared by identity only. */
  type Sock = int

  const AF_INET: int := 2

  /** The `struct sockaddr_in` ExtractAddress writes through its pointer. The
      address is kept as the text given to `inet_addr`. */
  class SockAddrIn {
    var family: int
    var port: nat
    var host: seq<byte>

    constructor ()
      ensures family == 0 && port == 0 && host == []
    {
      family, port, host := 0, 0, [];
    }
  }

  /** For address type 3, store in `addr` the name of `L = buf[4]` bytes that
      starts at offset 5 and the big-endian port that follows it; for any other
      type leave `addr` as it was. The name is copied into a zeroed buffer of
      MAX_ADDR_LEN bytes and read back as a C string. */
  method ExtractAddress(addrType: int, buf: seq<byte>, addr: SockAddrIn)
    requires addrType == ATYP_DOMAIN as int ==> DomainInBounds(buf)
    modifies addr
    ensures addrType == ATYP_DOMAIN as int ==>
              addr.family == AF_INET && addr.host == DomainName(buf) && addr.port == DomainPort(buf)
    ensures addrType != ATYP_DOMAIN as int ==> unchanged(addr)
  {
    if addrType == ATYP_DOMAIN as int {
      var domainLen := buf[4] as int;
      var name := new byte[MAX_ADDR_LEN](_ => 0);
      forall i | 0 <= i < domainLen {
        name[i] := buf[5 + i];
      }
      // memcpy of the two wire bytes into an int, then hton: on a little-endian
      // host this is the value of the bytes read most significant first
      var port := BigEndian16(buf[5 + domainLen], buf[6 + domainLen]);
      assert name[..] == buf[5..5 + domainLen] + Zeros(MAX_ADDR_LEN - domainLen);
      CStringPadded(buf[5..5 + domainLen], MAX_ADDR_LEN - domainLen);
      addr.family := AF_INET;
      addr.port := port;
      addr.host := CString(name[..]);
    }
  }

  /** Fill the CONNECT reply in place: a `len`-byte buffer cleared, the `L`
      bytes from offset 4 copied, the header bytes set, and the two bytes of
      `sin_port` copied to offset `4 + L`. */
  method BuildConnectReply(buf: seq<byte>, port: nat) returns (reply: seq<byte>)
    requires |buf| > 4 && 6 + buf[4] as int <= |buf| && port < 0x1_0000
    ensures reply == ConnectReply(buf, port)
  {
    var domainLen := buf[4] as int;
    var r := new byte[|buf|](_ => 0);
    forall i | 4 <= i < 4 + domainLen {
      r[i] := buf[i];
    }
    r[0] := THIS_PROXY_VERSION;
    r[1] := 0;
    r[2] := 0;
    r[3] := ATYP_DOMAIN;
    r[4] := buf[4];
    var portBytes := HostBytes16(port);
    r[4 + domainLen] := portBytes[0];
    r[5 + domainLen] := portBytes[1];
    reply := r[..];
    ghost var want := ConnectReply(buf, port);
    ConnectReplyLayout(buf, port);
    assert |reply| == |want|;
    forall i | 0 <= i < |reply|
      ensures reply[i] == want[i]
    {
      if i < 4 {
        assert want[i] == want[..4][i];
      } else if i < 4 + domainLen {
        if i > 4 {
          assert want[i] == want[5..4 + domainLen][i - 5];
        }
      } else if i < 6 + domainLen {
        assert want[i] == want[4 + domainLen..6 + domainLen][i - (4 + domainLen)];
      }
    }
  }

  /** The domain-name CONNECT branch: parse the address, open a proxied
      stream socket, connect it, and send the reply. */
  method DomainConnect(buf: seq<byte>) returns (effects: seq<Effect>)
    requires IsDomainConnect(buf) && DomainInBounds(buf)
    ensures effects == DomainConnectEffects(buf)
  {
    var addr := new SockAddrIn();
    ExtractAddress(buf[3] as int, buf, addr);
    effects := [SocketProxy(Stream), ConnectProxy(DomainDest(addr.host, addr.port))];
    var reply := BuildConnectReply(buf, addr.port);
    effects := effects + [StreamSend(reply)];
  }

  /** One proxied connection: the socket it arrived on, its protocol state, and
      its pending output `txbuf[0..txsz)`, kept here as a sequence. */
  class Connection {
    const sock: Sock
    var state: ProxyState
    var txbuf: seq<byte>

    constructor (sock: Sock)
      ensures this.sock == sock && state == Open && txbuf == []
    {
      this.sock := sock;
      state := Open;
      txbuf := [];
    }

    /** The body of phyOnTcpData once the connection is found: three tests on
        the state, one after the other, exactly as ProxySpec.Step describes. */
    method OnData(buf: seq<byte>) returns (effects: seq<Effect>)
      requires ChunkInBounds(state, buf)
      modifies this
      ensures var r := Step(old(state), old(txbuf), buf);
              state == r.state && txbuf == r.tx && effects == r.effects
    {
      effects := RelayChunk(buf, []);
      effects := NegotiateChunk(buf, effects);
      effects := RequestChunk(buf, effects);
    }

    /** SOCKS_COMPLETE: the chunk is data for the destination. */
    method RelayChunk(buf: seq<byte>, before: seq<Effect>) returns (effects: seq<Effect>)
      modifies this
      ensures Reaction(state, txbuf, effects) == Relay(Reaction(old(state), old(txbuf), before), buf)
    {
      effects := before;
      if state == Complete {
        if |buf| > 0 {
          txbuf := txbuf + buf;
          effects := effects + [HandleWrite];
        }
      }
    }

    /** SOCKS_OPEN: method selection. */
    method NegotiateChunk(buf: seq<byte>, before: seq<Effect>) returns (effects: seq<Effect>)
      modifies this
      ensures Reaction(state, txbuf, effects) == Negotiate(Reaction(old(state), old(txbuf), before), buf)
    {
      effects := before;
      if state == Open {
        if |buf| >= MIN_NEGOTIATION {
          var supportedMethod := METHOD_NO_AUTH;
          if buf[2] == METHOD_PASSWORD {
            supportedMethod := buf[2];
          }
          effects := effects + [StreamSend([THIS_PROXY_VERSION, supportedMethod])];
          state := ConnectInit;
        }
      }
    }

    /** SOCKS_CONNECT_INIT: the request. */
    method RequestChunk(buf: seq<byte>, before: seq<Effect>) returns (effects: seq<Effect>)
      requires state == ConnectInit ==> RequestInBounds(buf)
      modifies this
      ensures Reaction(state, txbuf, effects) == Request(Reaction(old(state), old(txbuf), before), buf)
    {
      effects := before;
      if state == ConnectInit {
        if |buf| >= MIN_REQUEST {
          var cmd := buf[1];
          var addrType := buf[3];
          if cmd == CMD_CONNECT {
            // ATYP_IPV4 opens a raw socket and connects it; nothing modelled here
            if addrType == ATYP_DOMAIN {
              var calls := DomainConnect(buf);
              effects := effects + calls;
              state := Complete;
            }
          }
          // CMD_BIND is recognised and does nothing (ProxySpec.BindAndIPv4ConnectIgnored)
          if cmd == CMD_UDP_ASSOCIATE {
            var domainLen := buf[4] as int;
            var parts := SplitHostPort(CString(buf[5..5 + domainLen]));
            effects := effects + [SocketProxy(Datagram), ConnectProxy(TextDest(parts.0, parts.1))];
            // `conn->proxy_conn_state == SOCKS_UDP;` compares and stores nothing
          }
        }
      }
    }
  }

  /** The position of the first connection of `sock` in `conns`, or `|conns|`. */
  function Lookup(conns: seq<Connection>, sock: Sock): (i: nat)
    ensures i <= |conns|
    ensures i < |conns| ==> conns[i].sock == sock
    ensures forall j :: 0 <= j < i ==> conns[j].sock != sock
  {
    if conns == [] || conns[0].sock == sock then 0 else 1 + Lookup(conns[1..], sock)
  }

  /** The proxy side of the tap: the `_Connections` list and the callbacks the
      event loop delivers. */
  class ProxyTap {
    var connections: seq<Connection>

    /** No connection is ever in SOCKS_CONNECT_IPV4 or SOCKS_UDP. */
    ghost predicate Valid()
      reads this, connections
    {
      forall c :: c in connections ==> c.state.Reachable()
    }

    constructor ()
      ensures connections == [] && Valid()
    {
      connections := [];
    }

    /** phyOnTcpAccept: append exactly one new connection, in OPEN with nothing
        pending, for the accepted socket. */
    method OnTcpAccept(sockL: Sock, sockN: Sock) returns (conn: Connection)
      requires Valid()
      modifies this
      ensures Valid()
      ensures fresh(conn) && conn.sock == sockN && conn.state == Open && conn.txbuf == []
      ensures connections == old(connections) + [conn]
    {
      conn := new Connection(sockN);
      connections := connections + [conn];
    }

    /** phyOnTcpData: a chunk for a socket without a connection changes nothing
        and calls nothing; otherwise the connection's new state, pending output
        and the calls made are those of ProxySpec.Step, and no other connection
        changes. The table itself never changes here. */
    method OnTcpData(sock: Sock, buf: seq<byte>) returns (effects: seq<Effect>)
      requires Valid()
      requires Lookup(connections, sock) < |connections| ==>
                 ChunkInBounds(connections[Lookup(connections, sock)].state, buf)
      modifies connections
      ensures Valid()
      ensures connections == old(connections)
      ensures Lookup(connections, sock) == |connections| ==>
                effects == [] && forall c :: c in connections ==> unchanged(c)
      ensures Lookup(connections, sock) < |connections| ==>
                var conn := connections[Lookup(connections, sock)];
                var r := Step(old(conn.state), old(conn.txbuf), buf);
                conn.state == r.state && conn.txbuf == r.tx && effects == r.effects &&
                forall c :: c in connections && c != conn ==> unchanged(c)
    {
      var i := Lookup(connections, sock);
      if i == |connections| {
        return [];
      }
      var conn := connections[i];
      StateOnlyMovesForward(conn.state, conn.txbuf, buf);
      effects := conn.OnData(buf);
    }

    /** phyOnDatagram: a non-empty datagram for a known socket is appended to
        that connection's pending output, whatever its state, and handleWrite is
        called; an empty one, or one for an unknown socket, changes nothing. */
    method OnDatagram(sock: Sock, buf: seq<byte>) returns (effects: seq<Effect>)
      requires Valid()
      modifies connections
      ensures Valid()
      ensures connections == old(connections)
      ensures |buf| == 0 || Lookup(connections, sock) == |connections| ==>
                effects == [] && forall c :: c in connections ==> unchanged(c)
      ensures |buf| > 0 && Lookup(connections, sock) < |connections| ==>
                var conn := connections[Lookup(connections, sock)];
                conn.txbuf == old(conn.txbuf) + buf && conn.state == old(conn.state) &&
                |conn.txbuf| == |old(conn.txbuf)| + |buf| && effects == [HandleWrite] &&
                forall c :: c in connections && c != conn ==> unchanged(c)
    {
      effects := [];
      if |buf| > 0 {
        var i := Lookup(connections, sock);
        if i == |connections| {
          return;
        }
        var conn := connections[i];
        conn.txbuf := conn.txbuf + buf;
        effects := [HandleWrite];
      }
    }
  }
}
