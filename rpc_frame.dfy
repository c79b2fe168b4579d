/** The command frame rpc_send_command writes to the service (RPC.c:147-177):
    `[signal phrase] ... [command id][canary][payload] ...` in a buffer of
    BUF_SZ bytes, of which every byte is written. */
module RpcFrame {
  import opened Bytes

  const CANARY_SZ: nat := 8
  /** Layout of `cmdbuf`: command id, then canary, then payload. */
  const CMD_ID_IDX: nat := 0
  const CANARY_IDX: nat := 1
  const STRUCT_IDX: nat := CANARY_IDX + CANARY_SZ

  /** The frame constants RPC.h supplies: the signal phrase (RPC_PHRASE, whose
      length is RPC_PHRASE_SZ), IDX_PAYLOAD and BUF_SZ. */
  datatype Layout = Layout(phrase: seq<byte>, idxPayload: nat, bufSz: nat)

  /** The phrase ends before the payload region, and the command byte, the
      canary and `len` payload bytes fit in the buffer after IDX_PAYLOAD. */
  predicate Fits(lay: Layout, len: nat)
  {
    |lay.phrase| <= lay.idxPayload && lay.idxPayload + STRUCT_IDX + len <= lay.bufSz
  }

  /** The byte `cmdbuf[CMD_ID_IDX] = cmd` stores: the low 8 bits of the int. */
  function CmdByte(cmd: int): (b: byte)
    ensures 0 <= cmd < 256 ==> b as int == cmd
  {
    (cmd % 256) as byte
  }

  /** The frame as written: `scratch` is what the stack buffer `metabuf` held
      before; the phrase and the `len + 1 + CANARY_SZ` bytes of `cmdbuf` are
      copied over it and the rest goes out as it was. */
  function Frame(lay: Layout, cmd: byte, canary: seq<byte>, data: seq<byte>, scratch: seq<byte>): (f: seq<byte>)
    requires |canary| == CANARY_SZ && |scratch| == lay.bufSz && Fits(lay, |data|)
    ensures |f| == lay.bufSz
  {
    var k := lay.idxPayload;
    lay.phrase + scratch[|lay.phrase|..k] + [cmd] + canary + data + scratch[k + STRUCT_IDX + |data|..]
  }

  /** What the service gets from a frame whose payload length it knows from
      the command id. */
  datatype Command = Command(id: byte, canary: seq<byte>, payload: seq<byte>)

  datatype Option<T> = None | Some(value: T)

  /** Read a frame back: refuse it unless it is BUF_SZ bytes starting with the
      signal phrase, else take the command byte, canary and `len` payload bytes
      at IDX_PAYLOAD. */
  function ParseFrame(lay: Layout, f: seq<byte>, len: nat): (c: Option<Command>)
    ensures c.Some? ==> |c.value.canary| == CANARY_SZ && |c.value.payload| == len
    ensures c.Some? <==> |f| == lay.bufSz && Fits(lay, len) && lay.phrase <= f
  {
    if |f| == lay.bufSz && Fits(lay, len) && lay.phrase <= f then
      var k := lay.idxPayload;
      Some(Command(f[k], f[k + CANARY_IDX..k + STRUCT_IDX], f[k + STRUCT_IDX..k + STRUCT_IDX + len]))
    else
      None
  }

  /** Framing round trip: the service reads back exactly the command id, the
      canary and the payload that were framed, whatever the scratch bytes. */
  lemma {:induction false} FrameRoundTrip(lay: Layout, cmd: byte, canary: seq<byte>, data: seq<byte>, scratch: seq<byte>)
    requires |canary| == CANARY_SZ && |scratch| == lay.bufSz && Fits(lay, |data|)
    ensures ParseFrame(lay, Frame(lay, cmd, canary, data, scratch), |data|) == Some(Command(cmd, canary, data))
  {
    var f := Frame(lay, cmd, canary, data, scratch);
    var k := lay.idxPayload;
    var p := |lay.phrase|;
    var mid := scratch[p..k];
    assert f == lay.phrase + (mid + [cmd] + canary + data + scratch[k + STRUCT_IDX + |data|..]);
    assert |lay.phrase + mid| == k;
    assert f[k] == cmd;
    assert f[k + CANARY_IDX..k + STRUCT_IDX] == canary;
    assert f[k + STRUCT_IDX..k + STRUCT_IDX + |data|] == data;
  }

  /** Every byte outside the phrase and the command region is the scratch byte. */
  lemma {:induction false} FrameKeepsScratch(lay: Layout, cmd: byte, canary: seq<byte>, data: seq<byte>, scratch: seq<byte>, i: nat)
    requires |canary| == CANARY_SZ && |scratch| == lay.bufSz && Fits(lay, |data|)
    requires |lay.phrase| <= i < lay.idxPayload || lay.idxPayload + STRUCT_IDX + |data| <= i < lay.bufSz
    ensures Frame(lay, cmd, canary, data, scratch)[i] == scratch[i]
  {
    var k := lay.idxPayload;
    var p := |lay.phrase|;
    var f := Frame(lay, cmd, canary, data, scratch);
    var tail := scratch[k + STRUCT_IDX + |data|..];
    assert f == (lay.phrase + scratch[p..k]) + ([cmd] + canary + data) + tail;
    if i < k {
      assert f[i] == scratch[p..k][i - p];
    } else {
      assert f[i] == tail[i - (k + STRUCT_IDX + |data|)];
    }
  }

  /** Assemble the frame in place as rpc_send_command does: fill `cmdbuf` with
      the command byte, the canary and the payload, then copy the phrase and the
      first `len + 1 + CANARY_SZ` bytes of `cmdbuf` into `metabuf`. */
  method AssembleFrame(lay: Layout, cmd: int, canary: seq<byte>, data: seq<byte>, scratch: seq<byte>)
    returns (frame: seq<byte>)
    requires |canary| == CANARY_SZ && |scratch| == lay.bufSz && Fits(lay, |data|)
    ensures frame == Frame(lay, CmdByte(cmd), canary, data, scratch)
  {
    var len := |data|;
    var cmdbuf := new byte[lay.bufSz](_ => 0);
    var metabuf := new byte[lay.bufSz](i requires 0 <= i < lay.bufSz => scratch[i]);
    cmdbuf[CMD_ID_IDX] := CmdByte(cmd);
    forall i | 0 <= i < CANARY_SZ {
      cmdbuf[CANARY_IDX + i] := canary[i];
    }
    forall i | 0 <= i < len {
      cmdbuf[STRUCT_IDX + i] := data[i];
    }
    forall i | 0 <= i < |lay.phrase| {
      metabuf[i] := lay.phrase[i];
    }
    forall i | 0 <= i < STRUCT_IDX + len {
      metabuf[lay.idxPayload + i] := cmdbuf[i];
    }
    frame := metabuf[..];

    ghost var want := Frame(lay, CmdByte(cmd), canary, data, scratch);
    ghost var k := lay.idxPayload;
    ghost var p := |lay.phrase|;
    assert want == lay.phrase + scratch[p..k] + [CmdByte(cmd)] + canary + data + scratch[k + STRUCT_IDX + len..];
    forall i | 0 <= i < lay.bufSz
      ensures frame[i] == want[i]
    {
      if i < p {
        assert want[i] == lay.phrase[i];
      } else if i < k || k + STRUCT_IDX + len <= i {
        FrameKeepsScratch(lay, CmdByte(cmd), canary, data, scratch, i);
      } else if i == k {
        assert want[i] == CmdByte(cmd);
      } else if i < k + STRUCT_IDX {
        assert want[i] == canary[i - k - CANARY_IDX];
      } else {
        assert want[i] == data[i - k - STRUCT_IDX];
      }
    }
  }
}
