/** The fixed-size RPU wire format: command and reply frames, the records they
    carry and the compilation of an AFE command into frames
    (crates/daphne-sc-core/src/rpu_wire.rs). */
module Wire {
  import opened Words

  const MAGIC: u32 := 0x5250_5344
  const ABI_VERSION: u16 := 2
  const FRAME_LEN: nat := 64
  const PAYLOAD_LEN: nat := 32
  const FUNCTION_NAME_MAX: nat := 31

  type Frame = s: seq<u8> | |s| == FRAME_LEN witness seq(64, _ => 0)
  type Payload = s: seq<u8> | |s| == PAYLOAD_LEN witness seq(32, _ => 0)

  datatype Op =
    | Status | ReadRegister | WriteRegister | ReadAttenuation | SetAttenuation | ReadBias | SetBias
    | ReadTrim | SetTrim | ReadOffset | SetOffset | ReadVbiasControl | SetVbiasControl | SetReset
    | DoReset | SetPowerState | Align | BeginConfigureFrontend | ConfigureAfe | ConfigureChannel
    | ApplyConfigureFrontend | WriteFunction | ReadAlignment

  datatype Target = ToNone | ToAfe | ToChannel | ToAll

  datatype ReplyStatus = Accepted | Applied | Rejected | Interlocked | Fault | Timeout

  datatype WireError =
    | BadLength(expected: nat, actual: nat)
    | BadMagic(magic: u32)
    | BadAbi(abi: u16)
    | UnknownOp(op: u16)
    | UnknownTarget(target: u8)
    | UnknownStatus(status: u16)
    | UnsupportedCommand
    | BadPayload
    | PayloadTooLong(max: nat, actual: nat)
    | OutOfRange(max: nat, actual: nat)

  function OpCode(op: Op): u16 {
    match op
    case Status => 0 case ReadRegister => 1 case WriteRegister => 2 case ReadAttenuation => 3
    case SetAttenuation => 4 case ReadBias => 5 case SetBias => 6 case ReadTrim => 7 case SetTrim => 8
    case ReadOffset => 9 case SetOffset => 10 case ReadVbiasControl => 11 case SetVbiasControl => 12
    case SetReset => 13 case DoReset => 14 case SetPowerState => 15 case Align => 16
    case BeginConfigureFrontend => 17 case ConfigureAfe => 18 case ConfigureChannel => 19
    case ApplyConfigureFrontend => 20 case WriteFunction => 21 case ReadAlignment => 22
  }

  function OpOf(code: u16): Result<Op, WireError> {
    match code
    case 0 => Ok(Op.Status) case 1 => Ok(Op.ReadRegister)
    case 2 => Ok(Op.WriteRegister) case 3 => Ok(Op.ReadAttenuation)
    case 4 => Ok(Op.SetAttenuation) case 5 => Ok(Op.ReadBias) case 6 => Ok(Op.SetBias) case 7 => Ok(Op.ReadTrim)
    case 8 => Ok(Op.SetTrim) case 9 => Ok(Op.ReadOffset) case 10 => Ok(Op.SetOffset) case 11 => Ok(Op.ReadVbiasControl)
    case 12 => Ok(Op.SetVbiasControl) case 13 => Ok(Op.SetReset) case 14 => Ok(Op.DoReset)
    case 15 => Ok(Op.SetPowerState) case 16 => Ok(Op.Align) case 17 => Ok(Op.BeginConfigureFrontend)
    case 18 => Ok(Op.ConfigureAfe) case 19 => Ok(Op.ConfigureChannel) case 20 => Ok(Op.ApplyConfigureFrontend)
    case 21 => Ok(Op.WriteFunction) case 22 => Ok(Op.ReadAlignment)
    case _ => Err(UnknownOp(code))
  }

  lemma OpRoundTrip(op: Op)
    ensures OpOf(OpCode(op)) == Ok(op)
  {}

  lemma OpReencodes(code: u16)
    ensures if code <= 22 then OpOf(code).Ok? && OpCode(OpOf(code).value) == code
            else OpOf(code) == Err(UnknownOp(code))
  {}

  function TargetCode(target: Target): u8 {
    match target case ToNone => 0 case ToAfe => 1 case ToChannel => 2 case ToAll => 3
  }

  function TargetOf(code: u8): (r: Result<Target, WireError>)
    ensures r.Ok? ==> TargetCode(r.value) == code
    ensures r.Err? <==> code > 3
  {
    match code
    case 0 => Ok(ToNone) case 1 => Ok(ToAfe) case 2 => Ok(ToChannel) case 3 => Ok(ToAll)
    case _ => Err(UnknownTarget(code))
  }

  function StatusCode(status: ReplyStatus): u16 {
    match status
    case Accepted => 0 case Applied => 1 case Rejected => 2 case Interlocked => 3 case Fault => 4 case Timeout => 5
  }

  function StatusOf(code: u16): (r: Result<ReplyStatus, WireError>)
    ensures r.Ok? ==> StatusCode(r.value) == code
    ensures r.Err? <==> code > 5
  {
    match code
    case 0 => Ok(Accepted) case 1 => Ok(Applied) case 2 => Ok(Rejected) case 3 => Ok(Interlocked)
    case 4 => Ok(Fault) case 5 => Ok(Timeout)
    case _ => Err(UnknownStatus(code))
  }

  /** Operations, targets and statuses in the order of their codes. */
  const OPERATIONS: seq<Op> :=
    [Op.Status, Op.ReadRegister, Op.WriteRegister, Op.ReadAttenuation, Op.SetAttenuation, Op.ReadBias, Op.SetBias,
     Op.ReadTrim, Op.SetTrim, Op.ReadOffset, Op.SetOffset, Op.ReadVbiasControl, Op.SetVbiasControl, Op.SetReset,
     Op.DoReset, Op.SetPowerState, Op.Align, Op.BeginConfigureFrontend, Op.ConfigureAfe, Op.ConfigureChannel,
     Op.ApplyConfigureFrontend, Op.WriteFunction, Op.ReadAlignment]

  const TARGETS: seq<Target> := [ToNone, ToAfe, ToChannel, ToAll]
  const STATUSES: seq<ReplyStatus> := [Accepted, Applied, Rejected, Interlocked, Fault, Timeout]

  lemma CodesAreOrdered(op: Op, target: Target, status: ReplyStatus)
    ensures OpCode(op) < |OPERATIONS| && OPERATIONS[OpCode(op)] == op
    ensures TargetCode(target) < |TARGETS| && TARGETS[TargetCode(target)] == target
    ensures StatusCode(status) < |STATUSES| && STATUSES[StatusCode(status)] == status
  {}

  datatype Command = Command(
    sequence: u64, op: Op, target: Target, afeBoard: u8, afePl: u8, channel: u8, afeChannel: u8,
    register: u16, value: u32, flags: u32, payload: Payload)

  datatype Reply = Reply(
    sequence: u64, status: ReplyStatus, readback: Option<u32>, heartbeat: u64,
    faultCode: u32, interlockCode: u32)

  // ---------- fields of a byte buffer ----------

  function Get(buffer: seq<u8>, offset: nat, n: nat): (r: nat)
    requires offset + n <= |buffer|
    ensures r < Pow256(n)
  {
    BytesOfBytes(buffer[offset..offset + n]);
    OfBytes(buffer[offset..offset + n])
  }

  function Get16(buffer: seq<u8>, offset: nat): u16
    requires offset + 2 <= |buffer|
  {
    WordBounds();
    Get(buffer, offset, 2)
  }

  function Get32(buffer: seq<u8>, offset: nat): u32
    requires offset + 4 <= |buffer|
  {
    WordBounds();
    Get(buffer, offset, 4)
  }

  function Get64(buffer: seq<u8>, offset: nat): u64
    requires offset + 8 <= |buffer|
  {
    WordBounds();
    Get(buffer, offset, 8)
  }

  lemma GetBytes(buffer: seq<u8>, offset: nat, n: nat, value: nat)
    requires offset + n <= |buffer| && value < Pow256(n)
    requires buffer[offset..offset + n] == Bytes(n, value)
    ensures Get(buffer, offset, n) == value
  {
    OfBytesBytes(n, value);
  }

  lemma BytesGet(buffer: seq<u8>, offset: nat, n: nat)
    requires offset + n <= |buffer|
    ensures Bytes(n, Get(buffer, offset, n)) == buffer[offset..offset + n]
  {
    BytesOfBytes(buffer[offset..offset + n]);
  }

  lemma Rejoin(s: seq<u8>, a: nat, b: nat, c: nat, d: nat)
    requires a <= b <= c <= d <= |s|
    ensures s[a..b] + s[b..c] + s[c..d] == s[a..d]
  {}

  function Zeros(n: nat): (s: seq<u8>)
    ensures |s| == n && forall i :: 0 <= i < n ==> s[i] == 0
  {
    seq(n, _ => 0)
  }

  // ---------- the header of both kinds of frame ----------

  function Header(code: u16, sequence: u64): (s: seq<u8>)
    ensures |s| == 16
  {
    Bytes(4, MAGIC) + Bytes(2, ABI_VERSION) + Bytes(2, code) + Bytes(8, sequence)
  }

  function DecodeHeader(input: seq<u8>): (r: Result<(u16, u64), WireError>)
    ensures r.Ok? ==> |input| == FRAME_LEN
  {
    if |input| != FRAME_LEN then Err(BadLength(FRAME_LEN, |input|))
    else if Get32(input, 0) != MAGIC then Err(BadMagic(Get32(input, 0)))
    else if Get16(input, 4) != ABI_VERSION then Err(BadAbi(Get16(input, 4)))
    else Ok((Get16(input, 6), Get64(input, 8)))
  }

  lemma HeaderRoundTrip(f: Frame, code: u16, sequence: u64)
    requires f[..16] == Header(code, sequence)
    ensures DecodeHeader(f) == Ok((code, sequence))
  {
    hide Bytes, OfBytes, Pow256;
    var h := Header(code, sequence);
    WordBounds();
    assert f[0..4] == h[0..4] == Bytes(4, MAGIC);
    assert f[4..6] == h[4..6] == Bytes(2, ABI_VERSION);
    assert f[6..8] == h[6..8] == Bytes(2, code);
    assert f[8..16] == h[8..16] == Bytes(8, sequence);
    GetBytes(f, 0, 4, MAGIC);
    GetBytes(f, 4, 2, ABI_VERSION);
    GetBytes(f, 6, 2, code);
    GetBytes(f, 8, 8, sequence);
  }

  lemma HeaderReencodes(input: seq<u8>)
    requires DecodeHeader(input).Ok?
    ensures var (code, sequence) := DecodeHeader(input).value;
            Header(code, sequence) == input[..16]
  {
    BytesGet(input, 0, 4);
    BytesGet(input, 4, 2);
    BytesGet(input, 6, 2);
    BytesGet(input, 8, 8);
    assert input[..16] == input[0..4] + input[4..6] + input[6..8] + input[8..16];
  }

  // ---------- command frames ----------

  /** Bytes 16 to 22 of a command: who it is for, and a reserved zero. */
  function Address(c: Command): (s: seq<u8>)
    ensures |s| == 6
  {
    [TargetCode(c.target), c.afeBoard, c.afePl, c.channel, c.afeChannel, 0]
  }

  /** Bytes 22 to 32 of a command. */
  function Arguments(c: Command): (s: seq<u8>)
    ensures |s| == 10
  {
    Bytes(2, c.register) + Bytes(4, c.value) + Bytes(4, c.flags)
  }

  /** The 64 bytes of a command. */
  function EncodedCommand(c: Command): Frame {
    Header(OpCode(c.op), c.sequence) + Address(c) + Arguments(c) + c.payload
  }

  function DecodeCommand(input: seq<u8>): Result<Command, WireError> {
    var (code, sequence) :- DecodeHeader(input);
    var op :- OpOf(code);
    var target :- TargetOf(input[16]);
    Ok(Command(sequence, op, target, input[17], input[18], input[19], input[20],
               Get16(input, 22), Get32(input, 24), Get32(input, 28), input[32..64]))
  }

  lemma ArgumentsRoundTrip(f: Frame, c: Command)
    requires f[22..32] == Arguments(c)
    ensures Get16(f, 22) == c.register && Get32(f, 24) == c.value && Get32(f, 28) == c.flags
  {
    var a := f[22..32];
    WordBounds();
    assert f[22..24] == a[0..2] == Bytes(2, c.register);
    assert f[24..28] == a[2..6] == Bytes(4, c.value);
    assert f[28..32] == a[6..10] == Bytes(4, c.flags);
    GetBytes(f, 22, 2, c.register);
    GetBytes(f, 24, 4, c.value);
    GetBytes(f, 28, 4, c.flags);
  }

  lemma ArgumentsReencode(input: Frame, c: Command)
    requires c.register == Get16(input, 22) && c.value == Get32(input, 24) && c.flags == Get32(input, 28)
    ensures Arguments(c) == input[22..32]
  {
    BytesGet(input, 22, 2);
    BytesGet(input, 24, 4);
    BytesGet(input, 28, 4);
    Rejoin(input, 22, 24, 28, 32);
  }

  lemma CommandLayout(c: Command)
    ensures var f := EncodedCommand(c);
            && f[..16] == Header(OpCode(c.op), c.sequence) && f[16..22] == Address(c)
            && f[22..32] == Arguments(c) && f[32..64] == c.payload
  {}

  /** The `n` bytes from `offset` on are a number, the least significant byte
      first. */
  predicate LittleEndian(f: Frame, offset: nat, n: nat, v: nat)
    requires offset + n <= FRAME_LEN
  {
    forall i :: 0 <= i < n ==> f[offset + i] == ByteOf(v, i)
  }

  lemma PartIsLittleEndian(f: Frame, offset: nat, n: nat, v: nat)
    requires offset + n <= FRAME_LEN && f[offset..offset + n] == Bytes(n, v)
    ensures LittleEndian(f, offset, n, v)
  {
    hide Bytes, ByteOf;
    forall i | 0 <= i < n ensures f[offset + i] == ByteOf(v, i) {
      BytesAre(n, v, i);
      assert f[offset..offset + n][i] == f[offset + i];
    }
  }

  lemma HeaderBytes(f: Frame, code: u16, sequence: u64)
    requires f[..16] == Header(code, sequence)
    ensures LittleEndian(f, 0, 4, 0x52505344) && LittleEndian(f, 4, 2, 2)
    ensures LittleEndian(f, 6, 2, code) && LittleEndian(f, 8, 8, sequence)
  {
    hide Bytes, LittleEndian;
    var h := Header(code, sequence);
    assert f[0..4] == h[0..4] == Bytes(4, MAGIC);
    assert f[4..6] == h[4..6] == Bytes(2, ABI_VERSION);
    assert f[6..8] == h[6..8] == Bytes(2, code);
    assert f[8..16] == h[8..16] == Bytes(8, sequence);
    PartIsLittleEndian(f, 0, 4, MAGIC);
    PartIsLittleEndian(f, 4, 2, ABI_VERSION);
    PartIsLittleEndian(f, 6, 2, code);
    PartIsLittleEndian(f, 8, 8, sequence);
  }

  /** Where every field of a command is, byte by byte. */
  lemma CommandBytes(c: Command)
    ensures var f := EncodedCommand(c);
            && LittleEndian(f, 0, 4, 0x52505344) && LittleEndian(f, 4, 2, 2)
            && LittleEndian(f, 6, 2, OpCode(c.op)) && LittleEndian(f, 8, 8, c.sequence)
            && f[16] == TargetCode(c.target) && f[17] == c.afeBoard && f[18] == c.afePl
            && f[19] == c.channel && f[20] == c.afeChannel && f[21] == 0
            && LittleEndian(f, 22, 2, c.register) && LittleEndian(f, 24, 4, c.value) && LittleEndian(f, 28, 4, c.flags)
            && f[32..] == c.payload
  {
    hide LittleEndian, Bytes, Header;
    var f := EncodedCommand(c);
    CommandLayout(c);
    HeaderBytes(f, OpCode(c.op), c.sequence);
    var to, a := f[16..22], f[22..32];
    assert f[16] == to[0] && f[17] == to[1] && f[18] == to[2] && f[19] == to[3] && f[20] == to[4] && f[21] == to[5];
    assert f[22..24] == a[0..2] == Bytes(2, c.register);
    assert f[24..28] == a[2..6] == Bytes(4, c.value);
    assert f[28..32] == a[6..10] == Bytes(4, c.flags);
    PartIsLittleEndian(f, 22, 2, c.register);
    PartIsLittleEndian(f, 24, 4, c.value);
    PartIsLittleEndian(f, 28, 4, c.flags);
  }

  /** Decoding an encoded command gives the command back, whatever its fields. */
  lemma CommandRoundTrip(c: Command)
    ensures DecodeCommand(EncodedCommand(c)) == Ok(c)
  {
    var f := EncodedCommand(c);
    CommandLayout(c);
    HeaderRoundTrip(f, OpCode(c.op), c.sequence);
    ArgumentsRoundTrip(f, c);
    OpRoundTrip(c.op);
    var a := f[16..22];
    assert f[16] == a[0] && f[17] == a[1] && f[18] == a[2] && f[19] == a[3] && f[20] == a[4];
  }

  /** Re-encoding a decoded frame gives the frame back, but for its reserved byte. */
  lemma CommandReencodes(input: seq<u8>)
    requires DecodeCommand(input).Ok?
    ensures EncodedCommand(DecodeCommand(input).value) == input[21 := 0]
  {
    var c := DecodeCommand(input).value;
    HeaderReencodes(input);
    OpReencodes(Get16(input, 6));
    ArgumentsReencode(input, c);
    assert input[21 := 0] == input[..16] + Address(c) + input[22..32] + input[32..64];
  }

  // ---------- reply frames ----------

  /** Bytes 16 to 24 of a reply: the readback and whether there is one. */
  function Readback(readback: Option<u32>): (s: seq<u8>)
    ensures |s| == 8
  {
    match readback
    case None => Bytes(4, 0) + Bytes(4, 0)
    case Some(value) => Bytes(4, value) + Bytes(4, 1)
  }

  /** Bytes 24 to 40 of a reply. */
  function Health(r: Reply): (s: seq<u8>)
    ensures |s| == 16
  {
    Bytes(8, r.heartbeat) + Bytes(4, r.faultCode) + Bytes(4, r.interlockCode)
  }

  function EncodedReply(r: Reply): Frame {
    Header(StatusCode(r.status), r.sequence) + Readback(r.readback) + Health(r) + Zeros(24)
  }

  function DecodeReadback(input: Frame): Option<u32> {
    if Get32(input, 20) == 0 then None else Some(Get32(input, 16))
  }

  function DecodeReply(input: seq<u8>): Result<Reply, WireError> {
    var (code, sequence) :- DecodeHeader(input);
    var readback := DecodeReadback(input);
    var status :- StatusOf(code);
    Ok(Reply(sequence, status, readback, Get64(input, 24), Get32(input, 32), Get32(input, 36)))
  }

  lemma ReadbackRoundTrip(f: Frame, readback: Option<u32>)
    requires f[16..24] == Readback(readback)
    ensures DecodeReadback(f) == readback
  {
    var s := f[16..24];
    WordBounds();
    var value := if readback.Some? then readback.value else 0;
    var flag := if readback.Some? then 1 else 0;
    assert f[16..20] == s[0..4] == Bytes(4, value);
    assert f[20..24] == s[4..8] == Bytes(4, flag);
    GetBytes(f, 16, 4, value);
    GetBytes(f, 20, 4, flag);
  }

  lemma HealthRoundTrip(f: Frame, r: Reply)
    requires f[24..40] == Health(r)
    ensures Get64(f, 24) == r.heartbeat && Get32(f, 32) == r.faultCode && Get32(f, 36) == r.interlockCode
  {
    var s := f[24..40];
    WordBounds();
    assert f[24..32] == s[0..8] == Bytes(8, r.heartbeat);
    assert f[32..36] == s[8..12] == Bytes(4, r.faultCode);
    assert f[36..40] == s[12..16] == Bytes(4, r.interlockCode);
    GetBytes(f, 24, 8, r.heartbeat);
    GetBytes(f, 32, 4, r.faultCode);
    GetBytes(f, 36, 4, r.interlockCode);
  }

  lemma HealthReencodes(input: Frame, r: Reply)
    requires r.heartbeat == Get64(input, 24) && r.faultCode == Get32(input, 32)
    requires r.interlockCode == Get32(input, 36)
    ensures Health(r) == input[24..40]
  {
    BytesGet(input, 24, 8);
    BytesGet(input, 32, 4);
    BytesGet(input, 36, 4);
    Rejoin(input, 24, 32, 36, 40);
  }

  lemma ReplyLayout(r: Reply)
    ensures var f := EncodedReply(r);
            && f[..16] == Header(StatusCode(r.status), r.sequence)
            && f[16..24] == Readback(r.readback) && f[24..40] == Health(r)
  {}

  /** Where every field of a reply is; an absent readback is zero. */
  lemma ReplyBytes(r: Reply)
    ensures var f := EncodedReply(r);
            && LittleEndian(f, 0, 4, 0x52505344) && LittleEndian(f, 4, 2, 2)
            && LittleEndian(f, 6, 2, StatusCode(r.status)) && LittleEndian(f, 8, 8, r.sequence)
            && LittleEndian(f, 16, 4, if r.readback.Some? then r.readback.value else 0)
            && LittleEndian(f, 20, 4, if r.readback.Some? then 1 else 0)
            && LittleEndian(f, 24, 8, r.heartbeat) && LittleEndian(f, 32, 4, r.faultCode)
            && LittleEndian(f, 36, 4, r.interlockCode) && f[40..] == Zeros(24)
  {
    hide LittleEndian, Bytes, Header;
    var f := EncodedReply(r);
    ReplyLayout(r);
    HeaderBytes(f, StatusCode(r.status), r.sequence);
    var back, health := f[16..24], f[24..40];
    var value := if r.readback.Some? then r.readback.value else 0;
    var flag := if r.readback.Some? then 1 else 0;
    assert f[16..20] == back[0..4] == Bytes(4, value);
    assert f[20..24] == back[4..8] == Bytes(4, flag);
    assert f[24..32] == health[0..8] == Bytes(8, r.heartbeat);
    assert f[32..36] == health[8..12] == Bytes(4, r.faultCode);
    assert f[36..40] == health[12..16] == Bytes(4, r.interlockCode);
    PartIsLittleEndian(f, 16, 4, value);
    PartIsLittleEndian(f, 20, 4, flag);
    PartIsLittleEndian(f, 24, 8, r.heartbeat);
    PartIsLittleEndian(f, 32, 4, r.faultCode);
    PartIsLittleEndian(f, 36, 4, r.interlockCode);
  }

  lemma ReplyRoundTrip(r: Reply)
    ensures DecodeReply(EncodedReply(r)) == Ok(r)
  {
    var f := EncodedReply(r);
    ReplyLayout(r);
    HeaderRoundTrip(f, StatusCode(r.status), r.sequence);
    ReadbackRoundTrip(f, r.readback);
    HealthRoundTrip(f, r);
  }

  /** Re-encoding a decoded reply gives it back, with the readback in normal
      form (zero when absent, flagged with 1 when present) and the reserved
      tail cleared. */
  lemma ReplyReencodes(input: seq<u8>)
    requires DecodeReply(input).Ok?
    ensures EncodedReply(DecodeReply(input).value) ==
            input[..16]
            + (if Get32(input, 20) == 0 then Bytes(4, 0) + Bytes(4, 0) else input[16..20] + Bytes(4, 1))
            + input[24..40] + Zeros(24)
  {
    hide Header, Health, Readback, DecodeHeader, DecodeReadback, Get32, Get64, Bytes, Zeros;
    var r := DecodeReply(input).value;
    HeaderReencodes(input);
    ReadbackReencodes(input);
    HealthReencodes(input, r);
  }

  lemma ReadbackReencodes(input: Frame)
    ensures Readback(DecodeReadback(input)) ==
            if Get32(input, 20) == 0 then Bytes(4, 0) + Bytes(4, 0) else input[16..20] + Bytes(4, 1)
  {
    BytesGet(input, 16, 4);
  }
}
