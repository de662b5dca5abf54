/** `struct event` at byte level: the probes fill a reserved ring record field by
    field over whatever bytes it held, the Python consumer reads it back through
    a numpy record type. */
module EventCodec {
  import opened BpfMap
  import opened Decimal

  type byte = x: int | 0 <= x < 256
  type u16 = x: int | 0 <= x < 0x1_0000

  const EVENT_SIZE: nat := 48
  const TASK_COMM_LEN: nat := 16

  const SMBSLOWER: byte := 0
  const SMBIOSNOOP: byte := 1
  const NFSSLOWER: byte := 10
  const NFSIOSNOOP: byte := 11

  // ---------------------------------------------------------------------
  // Layout
  // ---------------------------------------------------------------------

  datatype Field = Field(size: nat, align: nat)

  function RoundUp(n: nat, align: nat): nat
    requires align > 0
  {
    (n + align - 1) / align * align
  }

  predicate Aligned(fields: seq<Field>) {
    forall i :: 0 <= i < |fields| ==> fields[i].align > 0
  }

  /** Where field i starts under natural alignment, and after the last field,
      where the padding starts. */
  function Offset(fields: seq<Field>, i: nat): nat
    requires i < |fields| && Aligned(fields)
  {
    RoundUp(if i == 0 then 0 else Offset(fields, i - 1) + fields[i - 1].size, fields[i].align)
  }

  const C_EVENT: seq<Field> := [Field(4, 4), Field(2, 2), Field(1, 1), Field(8, 8), Field(8, 8), Field(8, 8), Field(16, 1)]

  /** The numpy type declares one padding byte more. */
  const NUMPY_EVENT: seq<Field> :=
    [Field(4, 4), Field(2, 2), Field(1, 1), Field(1, 1), Field(8, 8), Field(8, 8), Field(8, 8), Field(16, 1)]

  lemma OffsetStep(fields: seq<Field>, i: nat, prev: nat)
    requires 0 < i < |fields| && Aligned(fields) && Offset(fields, i - 1) == prev
    ensures Offset(fields, i) == RoundUp(prev + fields[i - 1].size, fields[i].align)
  {}

  lemma CLayout()
    ensures Offset(C_EVENT, 0) == 0 && Offset(C_EVENT, 1) == 4 && Offset(C_EVENT, 2) == 6
    ensures Offset(C_EVENT, 3) == 8 && Offset(C_EVENT, 4) == 16 && Offset(C_EVENT, 5) == 24 && Offset(C_EVENT, 6) == 32
  {
    OffsetStep(C_EVENT, 1, 0);
    OffsetStep(C_EVENT, 2, 4);
    OffsetStep(C_EVENT, 3, 6);
    OffsetStep(C_EVENT, 4, 8);
    OffsetStep(C_EVENT, 5, 16);
    OffsetStep(C_EVENT, 6, 24);
  }

  lemma NumpyLayout()
    ensures Offset(NUMPY_EVENT, 0) == 0 && Offset(NUMPY_EVENT, 1) == 4 && Offset(NUMPY_EVENT, 2) == 6
    ensures Offset(NUMPY_EVENT, 3) == 7 && Offset(NUMPY_EVENT, 4) == 8 && Offset(NUMPY_EVENT, 5) == 16
    ensures Offset(NUMPY_EVENT, 6) == 24 && Offset(NUMPY_EVENT, 7) == 32
  {
    OffsetStep(NUMPY_EVENT, 1, 0);
    OffsetStep(NUMPY_EVENT, 2, 4);
    OffsetStep(NUMPY_EVENT, 3, 6);
    OffsetStep(NUMPY_EVENT, 4, 7);
    OffsetStep(NUMPY_EVENT, 5, 8);
    OffsetStep(NUMPY_EVENT, 6, 16);
    OffsetStep(NUMPY_EVENT, 7, 24);
  }

  /** Both sides put every field at the same place in 48 bytes. */
  lemma LayoutsAgree()
    ensures Offset(C_EVENT, 0) == Offset(NUMPY_EVENT, 0) && Offset(C_EVENT, 1) == Offset(NUMPY_EVENT, 1)
    ensures Offset(C_EVENT, 2) == Offset(NUMPY_EVENT, 2) && Offset(C_EVENT, 3) == Offset(NUMPY_EVENT, 4)
    ensures Offset(C_EVENT, 4) == Offset(NUMPY_EVENT, 5) && Offset(C_EVENT, 5) == Offset(NUMPY_EVENT, 6)
    ensures Offset(C_EVENT, 6) == Offset(NUMPY_EVENT, 7)
    ensures RoundUp(Offset(C_EVENT, 6) + 16, 8) == RoundUp(Offset(NUMPY_EVENT, 7) + 16, 8) == EVENT_SIZE
  {
    CLayout();
    NumpyLayout();
  }

  // ---------------------------------------------------------------------
  // Little-endian numbers
  // ---------------------------------------------------------------------

  function Pow256(w: nat): (p: nat)
    ensures p > 0
  {
    if w == 0 then 1 else 256 * Pow256(w - 1)
  }

  function LE(n: nat, w: nat): (s: seq<byte>)
    ensures |s| == w
  {
    if w == 0 then [] else [n % 256] + LE(n / 256, w - 1)
  }

  function FromLE(s: seq<byte>): nat {
    if s == [] then 0 else s[0] + 256 * FromLE(s[1..])
  }

  lemma {:induction false} ReadBack(n: nat, w: nat)
    requires n < Pow256(w)
    ensures FromLE(LE(n, w)) == n
  {
    if w > 0 {
      assert LE(n, w)[1..] == LE(n / 256, w - 1);
      ReadBack(n / 256, w - 1);
    }
  }

  lemma {:induction false} LowBytes(s: seq<byte>, t: seq<byte>)
    ensures FromLE(s + t) == FromLE(s) + Pow256(|s|) * FromLE(t)
  {
    if s == [] {
      assert s + t == t;
    } else {
      LowBytes(s[1..], t);
      MulAssoc(Pow256(|s| - 1), FromLE(t));
      LowByteOff(s, t);
    }
  }

  lemma LowByteOff(s: seq<byte>, t: seq<byte>)
    requires s != []
    ensures FromLE(s + t) == s[0] + 256 * FromLE(s[1..] + t)
  {
    assert (s + t)[1..] == s[1..] + t;
  }

  lemma MulAssoc(a: nat, b: nat)
    ensures 256 * (a * b) == (256 * a) * b
  {}

  lemma {:induction false} FromLEBound(s: seq<byte>)
    ensures FromLE(s) < Pow256(|s|)
  {
    if s != [] { FromLEBound(s[1..]); }
  }

  lemma Pow256Values()
    ensures Pow256(2) == 0x1_0000 && Pow256(4) == 0x1_0000_0000 && Pow256(8) == TWO64
  {
    assert Pow256(1) == 256;
    assert Pow256(3) == 0x100_0000;
    assert Pow256(5) == 0x100_0000_0000 && Pow256(6) == 0x1_0000_0000_0000;
    assert Pow256(7) == 0x100_0000_0000_0000;
  }

  // ---------------------------------------------------------------------
  // The record
  // ---------------------------------------------------------------------

  datatype Metric = Latency(ns: u64) | Retval(bits: u32)

  datatype AodEvent = AodEvent(pid: u32, command: u16, tool: byte, endNs: u64, rqstId: u64, metric: Metric, task: seq<byte>)

  predicate WellFormed(e: AodEvent) {
    && |e.task| == TASK_COMM_LEN
    && (e.metric.Retval? <==> e.tool == SMBIOSNOOP || e.tool == NFSIOSNOOP)
  }

  function Put(s: seq<byte>, off: nat, bytes: seq<byte>): (r: seq<byte>)
    requires off + |bytes| <= |s|
    ensures |r| == |s|
    ensures r[off..off + |bytes|] == bytes
    ensures forall i :: 0 <= i < |s| && !(off <= i < off + |bytes|) ==> r[i] == s[i]
  {
    s[..off] + bytes + s[off + |bytes|..]
  }

  function MetricBytes(m: Metric): seq<byte> {
    match m
    case Latency(ns) => LE(ns, 8)
    case Retval(bits) => LE(bits, 4)
  }

  /** The record after the probe's assignments; the bytes it does not assign, the
      padding byte and the upper half of a 32-bit metric, keep what was there. */
  function Encode(stale: seq<byte>, e: AodEvent): (r: seq<byte>)
    requires |stale| == EVENT_SIZE && WellFormed(e)
    ensures |r| == EVENT_SIZE
  {
    var s0 := Put(stale, 0, LE(e.pid, 4));
    var s1 := Put(s0, 8, LE(e.endNs, 8));
    var s2 := Put(s1, 24, MetricBytes(e.metric));
    var s3 := Put(s2, 16, LE(e.rqstId, 8));
    var s4 := Put(s3, 4, LE(e.command, 2));
    var s5 := Put(s4, 6, [e.tool]);
    Put(s5, 32, e.task)
  }

  /** What the consumer prints. */
  datatype Reading = NtStatus(status: nat) | Error(code: nat) | LatencyNs(ns: nat)

  datatype Decoded = Decoded(pid: int, command: nat, rqstId: nat, reading: Reading, task: seq<byte>)

  /** The name up to its first zero byte. */
  function TaskName(s: seq<byte>): (r: seq<byte>)
    ensures r <= s && 0 !in r && (r == s || s[|r|] == 0)
  {
    if s == [] || s[0] == 0 then [] else [s[0]] + TaskName(s[1..])
  }

  function Decode(rec: seq<byte>): Decoded
    requires |rec| == EVENT_SIZE
  {
    var metric := FromLE(rec[24..32]);
    var low := metric % 0x1_0000_0000;
    Decoded(Signed32(FromLE(rec[0..4])), FromLE(rec[4..6]), FromLE(rec[16..24]),
            if rec[6] == 1 then NtStatus(low) else if rec[6] == 0x0b then Error(low) else LatencyNs(metric),
            TaskName(rec[32..48]))
  }

  lemma EncodeFields(stale: seq<byte>, e: AodEvent)
    requires |stale| == EVENT_SIZE && WellFormed(e)
    ensures var r := Encode(stale, e);
            && r[0..4] == LE(e.pid, 4) && r[4..6] == LE(e.command, 2) && r[6] == e.tool
            && r[8..16] == LE(e.endNs, 8) && r[16..24] == LE(e.rqstId, 8)
            && r[24..24 + |MetricBytes(e.metric)|] == MetricBytes(e.metric)
            && r[32..48] == e.task
  {}

  lemma MetricReadsBack(bytes: seq<byte>, m: Metric)
    requires |bytes| == 8 && bytes[..|MetricBytes(m)|] == MetricBytes(m)
    ensures m.Latency? ==> FromLE(bytes) == m.ns
    ensures m.Retval? ==> FromLE(bytes) % 0x1_0000_0000 == m.bits
  {
    Pow256Values();
    match m
    case Latency(ns) =>
      assert bytes == LE(ns, 8);
      ReadBack(ns, 8);
    case Retval(bits) =>
      ReadBack(bits, 4);
      assert bytes == LE(bits, 4) + bytes[4..];
      LowBytes(LE(bits, 4), bytes[4..]);
      ModLow(bits, FromLE(bytes[4..]));
  }

  lemma ModLow(low: nat, high: nat)
    requires low < 0x1_0000_0000
    ensures (low + 0x1_0000_0000 * high) % 0x1_0000_0000 == low
  {}

  lemma NumbersReadBack(stale: seq<byte>, e: AodEvent)
    requires |stale| == EVENT_SIZE && WellFormed(e)
    ensures var r := Encode(stale, e);
            FromLE(r[0..4]) == e.pid && FromLE(r[4..6]) == e.command && FromLE(r[16..24]) == e.rqstId
  {
    EncodeFields(stale, e);
    Pow256Values();
    ReadBack(e.pid, 4);
    ReadBack(e.command, 2);
    ReadBack(e.rqstId, 8);
  }

  /** What the consumer shows is what the probe recorded: process (below 2^31),
      command, request and task, the full 64-bit latency of a slower tool and the
      exact 32-bit status or error of a snoop tool. */
  ghost predicate Recovers(d: Decoded, e: AodEvent) {
    && (d.pid == e.pid <==> e.pid < 0x8000_0000)
    && d.command == e.command && d.rqstId == e.rqstId && d.task == TaskName(e.task)
    && match e.metric
       case Latency(ns) => d.reading == LatencyNs(ns)
       case Retval(bits) => d.reading == if e.tool == SMBIOSNOOP then NtStatus(bits) else Error(bits)
  }

  /** The consumer recovers the event whatever stale bytes the record held. */
  lemma ConsumerRecoversEvent(stale: seq<byte>, e: AodEvent)
    requires |stale| == EVENT_SIZE && WellFormed(e)
    ensures Recovers(Decode(Encode(stale, e)), e)
  {
    var r := Encode(stale, e);
    NumbersReadBack(stale, e);
    EncodeFields(stale, e);
    assert r[24..32][..|MetricBytes(e.metric)|] == r[24..24 + |MetricBytes(e.metric)|];
    MetricReadsBack(r[24..32], e.metric);
  }

  /** Whatever bytes a record holds, the consumer's numbers stay within their
      fields. */
  lemma DecodedInRange(rec: seq<byte>)
    requires |rec| == EVENT_SIZE
    ensures var d := Decode(rec);
            && -0x8000_0000 <= d.pid < 0x8000_0000
            && d.command < 0x1_0000 && d.rqstId < TWO64
            && match d.reading
               case NtStatus(status) => status < 0x1_0000_0000
               case Error(code) => code < 0x1_0000_0000
               case LatencyNs(ns) => ns < TWO64
  {
    Pow256Values();
    FromLEBound(rec[0..4]);
    FromLEBound(rec[4..6]);
    FromLEBound(rec[16..24]);
    FromLEBound(rec[24..32]);
  }

  // ---------------------------------------------------------------------
  // Filling the record in place
  // ---------------------------------------------------------------------

  /** A store of n as w little-endian bytes. */
  method PutLE(rec: array<byte>, off: nat, n: nat, w: nat)
    requires off + w <= rec.Length
    modifies rec
    ensures rec[..] == Put(old(rec[..]), off, LE(n, w))
  {
    var rest := n;
    for i := 0 to w
      invariant rec[off..off + i] + LE(rest, w - i) == LE(n, w)
      invariant forall j :: 0 <= j < rec.Length && !(off <= j < off + i) ==> rec[j] == old(rec[j])
    {
      ghost var done := rec[off..off + i];
      rec[off + i] := rest % 256;
      assert rec[off..off + i + 1] == done + [rest % 256];
      rest := rest / 256;
    }
    assert rec[off..off + w] == LE(n, w);
  }

  method FillEvent(rec: array<byte>, e: AodEvent)
    requires rec.Length == EVENT_SIZE && WellFormed(e)
    modifies rec
    ensures rec[..] == Encode(old(rec[..]), e)
  {
    PutLE(rec, 0, e.pid, 4);
    PutLE(rec, 8, e.endNs, 8);
    match e.metric {
      case Latency(ns) => PutLE(rec, 24, ns, 8);
      case Retval(bits) => PutLE(rec, 24, bits, 4);
    }
    PutLE(rec, 16, e.rqstId, 8);
    PutLE(rec, 4, e.command, 2);
    rec[6] := e.tool;
    ghost var s5 := rec[..];
    forall i | 0 <= i < TASK_COMM_LEN {
      rec[32 + i] := e.task[i];
    }
    assert rec[..] == Put(s5, 32, e.task);
  }
}
