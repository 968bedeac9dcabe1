/** The encoders, which fill a zeroed frame in place field by field
    (crates/daphne-sc-core/src/rpu_wire.rs, lines 335-352, 473-485 and 598-608). */
module Encoding {
  import opened Words
  import opened Wire

  /** Copies `bytes` over `out` from `offset` on. */
  method CopyAt(out: array<u8>, offset: nat, bytes: seq<u8>)
    requires offset + |bytes| <= out.Length
    modifies out
    ensures out[..offset + |bytes|] == old(out[..offset]) + bytes
    ensures forall k :: offset + |bytes| <= k < out.Length ==> out[k] == old(out[k])
  {
    for i := 0 to |bytes|
      invariant out[..offset] == old(out[..offset])
      invariant out[offset..offset + i] == bytes[..i]
      invariant forall k :: offset + i <= k < out.Length ==> out[k] == old(out[k])
    {
      out[offset + i] := bytes[i];
      assert out[offset..offset + i + 1] == out[offset..offset + i] + [bytes[i]];
    }
  }

  method PutU16(out: array<u8>, offset: nat, value: u16)
    requires offset + 2 <= out.Length
    modifies out
    ensures out[..offset + 2] == old(out[..offset]) + Bytes(2, value)
    ensures forall k :: offset + 2 <= k < out.Length ==> out[k] == old(out[k])
  {
    CopyAt(out, offset, Bytes(2, value));
  }

  method PutU32(out: array<u8>, offset: nat, value: u32)
    requires offset + 4 <= out.Length
    modifies out
    ensures out[..offset + 4] == old(out[..offset]) + Bytes(4, value)
    ensures forall k :: offset + 4 <= k < out.Length ==> out[k] == old(out[k])
  {
    CopyAt(out, offset, Bytes(4, value));
  }

  method PutU64(out: array<u8>, offset: nat, value: u64)
    requires offset + 8 <= out.Length
    modifies out
    ensures out[..offset + 8] == old(out[..offset]) + Bytes(8, value)
    ensures forall k :: offset + 8 <= k < out.Length ==> out[k] == old(out[k])
  {
    CopyAt(out, offset, Bytes(8, value));
  }

  method PutHeader(out: array<u8>, code: u16, sequence: u64)
    requires out.Length == FRAME_LEN
    modifies out
    ensures out[..16] == Header(code, sequence)
    ensures forall k :: 16 <= k < out.Length ==> out[k] == old(out[k])
  {
    hide Bytes;
    PutU32(out, 0, MAGIC);
    PutU16(out, 4, ABI_VERSION);
    PutU16(out, 6, code);
    PutU64(out, 8, sequence);
  }

  method EncodeCommand(c: Command) returns (out: array<u8>)
    ensures fresh(out) && out[..] == EncodedCommand(c)
  {
    hide Header, Bytes;
    out := new u8[FRAME_LEN](_ => 0);
    PutHeader(out, OpCode(c.op), c.sequence);
    ghost var header := out[..16];
    out[16] := TargetCode(c.target);
    out[17] := c.afeBoard;
    out[18] := c.afePl;
    out[19] := c.channel;
    out[20] := c.afeChannel;
    assert out[..22] == header + Address(c);
    PutU16(out, 22, c.register);
    PutU32(out, 24, c.value);
    PutU32(out, 28, c.flags);
    assert out[..32] == header + Address(c) + Arguments(c);
    CopyAt(out, 32, c.payload);
    assert out[..64] == out[..];
  }

  method EncodeReply(r: Reply) returns (out: array<u8>)
    ensures fresh(out) && out[..] == EncodedReply(r)
  {
    hide Header, Bytes;
    out := new u8[FRAME_LEN](_ => 0);
    PutHeader(out, StatusCode(r.status), r.sequence);
    ghost var header := out[..16];
    PutU32(out, 16, match r.readback case None => 0 case Some(value) => value);
    PutU32(out, 20, if r.readback.Some? then 1 else 0);
    assert out[..24] == header + Readback(r.readback);
    PutU64(out, 24, r.heartbeat);
    PutU32(out, 32, r.faultCode);
    PutU32(out, 36, r.interlockCode);
    assert out[..40] == header + Readback(r.readback) + Health(r);
    assert out[40..] == Zeros(24);
    assert out[..] == out[..40] + out[40..];
  }
}
