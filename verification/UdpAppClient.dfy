/** UdpAppClient: the payload buffer and the self-rescheduling sender with its two phases. */
module UdpAppClient {
  import opened Results

  type uint8 = n: int | 0 <= n < 256
  type uint32 = n: int | 0 <= n < 0x1_0000_0000

  function U32(n: int): uint32 {
    n % 0x1_0000_0000
  }

  /** The size of one block of the random data, and the number of blocks in it. */
  const BLOCK_SIZE: nat := 1024
  const BLOCKS: nat := 6000

  // ---------- the sender, as a function of its state ----------

  /** What a packet carries: the constant block, or the block of the random data with the given index. */
  datatype Payload = Low | High(block: int)

  /** A pending event means that Send is going to be called again. */
  datatype Sender = Sender(
    count: uint32,
    size: uint32,
    dataSize: uint32,
    sent: uint32,
    pending: bool,
    payloads: seq<Payload>)

  /** The decision after the counter has been incremented: whether to go on, and when the high phase begins. */
  function Decided(next: Sender): Sender {
    if next.sent <= next.count then next.(pending := true)
    else if next.sent == U32(next.count + 1) then next.(dataSize := BLOCK_SIZE, pending := true)
    else if next.sent <= U32(next.count * 2) then next.(pending := true)
    else next.(pending := false)
  }

  /** One call of Send; None is the failed assertion that m_dataSize equals m_size. */
  function Sent(s: Sender): Option<Sender> {
    if s.dataSize != 0 && s.dataSize != s.size then None else
      var payload := if s.dataSize != 0 then High(s.sent - BLOCKS) else Low;
      Some(Decided(s.(sent := U32(s.sent + 1), payloads := s.payloads + [payload])))
  }

  /** The state after n calls, the first of which StartApplication has scheduled. */
  function Chain(s: Sender, n: nat): Option<Sender> {
    if n == 0 then Some(s) else
      var before := Chain(s, n - 1);
      if before.None? || !before.value.pending then None else Sent(before.value)
  }

  function Started(count: uint32, size: uint32): Sender {
    Sender(count, size, 0, 0, true, [])
  }

  // ---------- the run of the sender ----------

  /** From here on m_count + 1 is the largest value that the 32-bit counter can have, or wraps itself. */
  const UNREACHABLE: nat := 0xFFFF_FFFE

  /** The number of packets of a complete run. */
  function Total(count: uint32): (total: uint32)
    requires count < UNREACHABLE
    ensures total >= count + 2
  {
    if count == 0 then 2
    else if count < 0x8000_0000 then 2 * count + 1
    else count + 2
  }

  /** The first n payloads: count + 1 low ones, then consecutive blocks. */
  function Payloads(count: uint32, n: nat): (r: seq<Payload>)
    ensures |r| == n && forall j | 0 <= j < n :: r[j] == PayloadAt(count, j)
  {
    seq(n, j requires 0 <= j < n => PayloadAt(count, j))
  }

  function PayloadAt(count: uint32, j: nat): Payload {
    if j <= count then Low else High(j - 6000)
  }

  function SenderAfter(count: uint32, size: uint32, n: nat): Sender
    requires count < UNREACHABLE && n <= Total(count)
  {
    Sender(count, size, if n > count then 1024 else 0, n, n < Total(count), Payloads(count, n))
  }

  lemma PayloadsGrow(count: uint32, n: nat)
    ensures Payloads(count, n) + [PayloadAt(count, n)] == Payloads(count, n + 1)
  {}

  lemma SendStep(count: uint32, size: uint32, n: nat)
    requires count < UNREACHABLE && n < Total(count)
    ensures Sent(SenderAfter(count, size, n)) ==
      if n <= count || size == 1024 then Some(SenderAfter(count, size, n + 1)) else None
  {
    PayloadsGrow(count, n);
    assert U32(n + 1) == n + 1 && U32(count + 1) == count + 1;
    assert U32(count * 2) == if count < 0x8000_0000 then count * 2 else count * 2 - 0x1_0000_0000;
  }

  /** With PacketSize 1024 the assertion holds at every send, and the run stops after exactly Total(count) of them. */
  lemma {:induction false} ClientRun(count: uint32, n: nat)
    requires count < UNREACHABLE
    ensures Chain(Started(count, 1024), n) ==
      if n <= Total(count) then Some(SenderAfter(count, 1024, n)) else None
  {
    if n == 0 {
      assert Payloads(count, 0) == [];
    } else {
      ClientRun(count, n - 1);
      if n <= Total(count) { SendStep(count, 1024, n - 1); }
    }
  }

  /** With any other PacketSize the low phase goes as before, and the first high send fails the assertion. */
  lemma {:induction false} OtherSizeFailsAssertion(count: uint32, size: uint32, n: nat)
    requires count < UNREACHABLE && size != 1024
    ensures Chain(Started(count, size), n) ==
      if n <= count + 1 then Some(SenderAfter(count, size, n)) else None
  {
    if n == 0 {
      assert Payloads(count, 0) == [];
    } else {
      OtherSizeFailsAssertion(count, size, n - 1);
      if n <= count + 2 { SendStep(count, size, n - 1); }
    }
  }

  lemma GoesOn(s: Sender)
    requires s.count >= UNREACHABLE && s.size == 1024 && s.dataSize in {0, 1024}
    ensures var r := Sent(s);
      && r.Some? && r.value.pending && |r.value.payloads| == |s.payloads| + 1
      && r.value.count == s.count && r.value.size == 1024 && r.value.dataSize in {0, 1024}
  {}

  /** With the two largest counts a comparison with m_count succeeds after every send: the client never stops. */
  lemma {:induction false} LargestCountsNeverStop(count: uint32, n: nat)
    requires count >= UNREACHABLE
    ensures var s := Chain(Started(count, 1024), n);
      s.Some? && s.value.pending && |s.value.payloads| == n
      && s.value.count == count && s.value.size == 1024 && s.value.dataSize in {0, 1024}
  {
    if n > 0 {
      LargestCountsNeverStop(count, n - 1);
      GoesOn(Chain(Started(count, 1024), n - 1).value);
    }
  }

  lemma LowPhaseStep(s: Sender)
    requires s.dataSize == 0 && s.sent < s.count
    ensures var r := Sent(s);
      r.Some?
      && r.value.pending && r.value.count == s.count && r.value.dataSize == 0 && r.value.sent == s.sent + 1
  {
    assert U32(s.sent + 1) == s.sent + 1;
  }

  lemma {:induction false} LargestCountsLowPhase(count: uint32, n: nat)
    requires UNREACHABLE <= count && n <= 6000
    ensures var s := Chain(Started(count, 1024), n);
      s.Some? && s.value.pending && s.value.count == count && s.value.dataSize == 0 && s.value.sent == n
  {
    if n > 0 {
      LargestCountsLowPhase(count, n - 1);
      LowPhaseStep(Chain(Started(count, 1024), n - 1).value);
    }
  }

  /** The run is over after n sends. */
  predicate StopsAfter(count: uint32, n: nat) {
    var s := Chain(Started(count, 1024), n);
    s.Some? && !s.value.pending
  }

  /** A run is count + 1 low and then count high packets exactly for counts from 1 to 2^31 - 1. */
  lemma StopsAsIntended(count: uint32)
    ensures StopsAfter(count, 2 * count + 1) <==> 1 <= count < 0x8000_0000
  {
    if count < UNREACHABLE {
      ClientRun(count, 2 * count + 1);
    } else {
      LargestCountsNeverStop(count, 2 * count + 1);
    }
  }

  /** Where in the random data the bytes begin that the next send copies into m_data, in either phase. */
  function FirstByte(s: Sender): int {
    1024 * if s.dataSize != 0 then s.sent - 6000 else s.sent
  }

  /** Every send of a run copies bytes of the random data, of which there are 6144000. */
  predicate ReadsInside(count: uint32, n: nat) {
    var s := Chain(Started(count, 1024), n);
    s.Some? && s.value.pending ==> 0 <= FirstByte(s.value) && FirstByte(s.value) + 1024 <= 6_144_000
  }

  /** That is so for just one value of MaxPackets, which is neither of the defaults of client and server. */
  lemma AllReadsInsideIff(count: uint32)
    ensures (forall n: nat :: ReadsInside(count, n)) <==> count == 5999
  {
    if count == 5999 {
      forall n: nat ensures ReadsInside(count, n) { ClientRun(count, n); }
    } else if count < 5999 {
      // the first high send reads before the data
      ClientRun(count, count + 1);
      assert !ReadsInside(count, count + 1);
    } else {
      // the low phase comes to the end of the data
      if count < UNREACHABLE { ClientRun(count, 6000); } else { LargestCountsLowPhase(count, 6000); }
      assert !ReadsInside(count, 6000);
    }
  }

  // ---------- periodic filling ----------

  /** The offset of the final copy of a fill pattern: the last multiple of fillSize below dataSize. */
  function LastOffset(fillSize: uint32, dataSize: uint32): nat
    requires 0 < fillSize && 0 < dataSize
  {
    (dataSize - 1) / fillSize * fillSize
  }

  /** The end of the final full copy does not wrap around in 32 bits. */
  predicate FillTerminates(fillSize: uint32, dataSize: uint32) {
    fillSize >= dataSize || (fillSize > 0 && LastOffset(fillSize, dataSize) + fillSize < 0x1_0000_0000)
  }

  /** At the last offset the loop guard is false, as it has to be, exactly if that sum does not wrap. */
  lemma FillGuardAtLastOffset(fillSize: uint32, dataSize: uint32)
    requires 0 < fillSize < dataSize
    ensures LastOffset(fillSize, dataSize) < dataSize <= LastOffset(fillSize, dataSize) + fillSize
    ensures U32(LastOffset(fillSize, dataSize) + fillSize) < dataSize <==> !FillTerminates(fillSize, dataSize)
  {
    var k := (dataSize - 1) / fillSize;
    assert dataSize - 1 == k * fillSize + (dataSize - 1) % fillSize;
  }

  lemma MultipleBelow(k: nat, fillSize: uint32, dataSize: uint32)
    requires 0 < fillSize && 0 < dataSize
    ensures k * fillSize < dataSize ==> k * fillSize <= LastOffset(fillSize, dataSize)
    ensures k * fillSize < dataSize <= k * fillSize + fillSize ==> k * fillSize == LastOffset(fillSize, dataSize)
  {
    var last := (dataSize - 1) / fillSize;
    assert dataSize - 1 == last * fillSize + (dataSize - 1) % fillSize;
    if k < last { MultipleMonotone(k + 1, last, fillSize); }
    if k > last { MultipleMonotone(last + 1, k, fillSize); }
  }

  lemma MultipleMonotone(i: nat, j: nat, m: nat)
    requires i <= j
    ensures i * m <= j * m
    ensures i > 0 ==> (i - 1) * m + m == i * m
  {}

  lemma DivisionUnique(x: nat, m: nat, q: nat, r: nat)
    requires 0 <= r < m && x == q * m + r
    ensures x % m == r
  {
    var d := x / m - q;
    assert x == (x / m) * m + x % m;
    assert d * m == r - x % m;
    MultipleAtLeast(d, m);
  }

  lemma MultipleAtLeast(d: int, m: nat)
    ensures d >= 1 ==> d * m >= m
    ensures d <= -1 ==> d * m <= 0 - m
  {}

  /** memcpy into a buffer at an offset. */
  method MemCpy(dst: array<uint8>, at: nat, src: seq<uint8>, n: nat)
    requires at + n <= dst.Length && n <= |src|
    modifies dst
    ensures forall i | 0 <= i < dst.Length :: dst[i] == if at <= i < at + n then src[i - at] else old(dst[i])
  {
    forall i | 0 <= i < n { dst[at + i] := src[i]; }
  }

  predicate IsPattern(data: seq<uint8>, fill: seq<uint8>, fillSize: nat)
    requires 0 < fillSize <= |fill|
  {
    forall i | 0 <= i < |data| :: data[i] == fill[i % fillSize]
  }

  /** One copy of the first n bytes of the pattern, at a multiple of its size. */
  method CopyPattern(dst: array<uint8>, at: nat, fill: seq<uint8>, fillSize: nat, n: nat, ghost k: nat)
    requires n <= fillSize <= |fill| && 0 < fillSize && at == k * fillSize && at + n <= dst.Length
    modifies dst
    requires IsPattern(dst[..at], fill, fillSize)
    ensures IsPattern(dst[..at + n], fill, fillSize)
  {
    MemCpy(dst, at, fill, n);
    assert forall i | 0 <= i < at :: dst[i] == old(dst[..at])[i];
    forall i | at <= i < at + n ensures i % fillSize == i - at { DivisionUnique(i, fillSize, k, i - at); }
  }

  /** The loop guard, computed in 32 bits, means what it says at every multiple of the pattern size. */
  lemma NoWrapInside(k: nat, fillSize: uint32, dataSize: uint32)
    requires 0 < fillSize < dataSize && FillTerminates(fillSize, dataSize) && k * fillSize < dataSize
    ensures k * fillSize + fillSize < 0x1_0000_0000
    ensures U32(k * fillSize + fillSize) == k * fillSize + fillSize
  {
    MultipleBelow(k, fillSize, dataSize);
  }

  /** The two parts of SetFill that copy more than once. */
  method FillPattern(dst: array<uint8>, fill: seq<uint8>, fillSize: uint32, dataSize: uint32)
    requires 0 < fillSize < dataSize && fillSize <= |fill| && FillTerminates(fillSize, dataSize)
    requires dataSize <= dst.Length
    modifies dst
    ensures IsPattern(dst[..dataSize], fill, fillSize)
  {
    // do all but the final fill
    var filled: uint32 := 0;
    ghost var k := 0;
    while U32(filled + fillSize) < dataSize
      invariant filled == k * fillSize && filled < dataSize
      invariant IsPattern(dst[..filled], fill, fillSize)
      decreases dataSize - filled
    {
      NoWrapInside(k, fillSize, dataSize);
      CopyPattern(dst, filled, fill, fillSize, fillSize, k);
      filled := U32(filled + fillSize);
      k := k + 1;
    }
    // last fill may be partial
    NoWrapInside(k, fillSize, dataSize);
    CopyPattern(dst, filled, fill, fillSize, dataSize - filled, k);
  }

  class UdpAppClient {
    var m_count: uint32
    var m_size: uint32
    var m_dataSize: uint32
    var m_data: array?<uint8>
    var m_sent_l: uint32
    var sendPending: bool
    var wire: seq<seq<uint8>>
    ghost var payloads: seq<Payload>
    const packets: int -> uint8
    const lowPackets: seq<uint8>

    ghost predicate Valid()
      reads this
    {
      m_dataSize > 0 ==> m_data != null && m_data.Length >= m_dataSize
    }

    /** The packets sent carry the payloads: the constant block, or the bytes of their block of the random data. */
    ghost predicate PayloadsOnWire()
      reads this
    {
      Carry(wire, payloads)
    }

    ghost predicate Carry(sent: seq<seq<uint8>>, contents: seq<Payload>) {
      |sent| == |contents| && forall i | 0 <= i < |sent| :: Carries(sent[i], contents[i])
    }

    ghost predicate Carries(p: seq<uint8>, content: Payload) {
      match content
      case Low => p == lowPackets
      case High(block) => Holds(p, 1024 * block)
    }

    /** A copy of 1024 bytes of the random data. */
    ghost predicate Holds(p: seq<uint8>, firstByte: int) {
      |p| >= 1024 && forall k | 0 <= k < 1024 :: p[k] == packets(firstByte + k)
    }

    ghost function State(): Sender
      reads this
    {
      Sender(m_count, m_size, m_dataSize, m_sent_l, sendPending, payloads)
    }

    /** The bytes that the next packets are filled with once a fill function has been called. */
    ghost function Data(): seq<uint8>
      requires Valid()
      reads this, m_data
    {
      if m_dataSize == 0 then [] else m_data[..m_dataSize]
    }

    constructor (count: uint32, size: uint32, packets: int -> uint8, lowPackets: seq<uint8>)
      ensures Valid() && State() == Started(count, size).(pending := false) && wire == [] && PayloadsOnWire()
      ensures this.packets == packets && this.lowPackets == lowPackets
    {
      m_count, m_size, m_dataSize, m_data, m_sent_l := count, size, 0, null, 0;
      sendPending, wire, payloads := false, [], [];
      this.packets, this.lowPackets := packets, lowPackets;
    }

    /** ScheduleTransmit */
    method ScheduleTransmit()
      modifies this`sendPending
      ensures sendPending
    {
      sendPending := true;
    }

    method SetDataSize(dataSize: uint32)
      modifies this`m_data, this`m_dataSize, this`m_size
      ensures Valid() && m_data == null && State() == old(State()).(dataSize := 0, size := dataSize)
    {
      m_data := null;
      m_dataSize := 0;
      m_size := dataSize;
    }

    /** A buffer of the wanted size: the old one if m_dataSize says that it has that size already. */
    method Reallocate(dataSize: uint32)
      requires Valid()
      modifies this`m_data, this`m_dataSize
      ensures Valid() && m_dataSize == dataSize && (m_data == old(m_data) || fresh(m_data))
      ensures m_size == old(m_size)
    {
      if dataSize != m_dataSize {
        m_data := new uint8[dataSize](_ => 0);
        m_dataSize := dataSize;
      }
    }

    /** SetFill(std::string): the characters of the string and its terminator. */
    method SetFillString(fill: seq<uint8>)
      requires Valid() && |fill| + 1 < 0x1_0000_0000
      modifies this`m_data, this`m_dataSize, this`m_size, m_data
      ensures Valid() && m_dataSize == m_size == |fill| + 1
      ensures Data() == fill + [0]
      ensures State() == old(State()).(dataSize := m_dataSize, size := m_size)
    {
      var dataSize := |fill| + 1;
      Reallocate(dataSize);
      MemCpy(m_data, 0, fill + [0], dataSize);
      m_size := dataSize;
    }

    /** SetFill(uint8_t, uint32_t): one byte over and over. */
    method SetFillByte(fill: uint8, dataSize: uint32)
      requires Valid()
      modifies this`m_data, this`m_dataSize, this`m_size, m_data
      ensures Valid() && m_dataSize == m_size == dataSize
      ensures |Data()| == dataSize && forall i | 0 <= i < dataSize :: Data()[i] == fill
      ensures State() == old(State()).(dataSize := m_dataSize, size := m_size)
    {
      Reallocate(dataSize);
      if dataSize > 0 {
        var data := m_data;
        forall i | 0 <= i < dataSize { data[i] := fill; }
      }
      m_size := dataSize;
    }

    /** SetFill(uint8_t*, uint32_t, uint32_t): the pattern repeated, the last copy cut off where the data end. */
    method SetFillPattern(fill: seq<uint8>, fillSize: uint32, dataSize: uint32)
      requires Valid() && fillSize <= |fill| && FillTerminates(fillSize, dataSize)
      modifies this`m_data, this`m_dataSize, this`m_size, m_data
      ensures Valid() && m_dataSize == m_size == dataSize
      ensures |Data()| == dataSize && (dataSize > 0 ==> IsPattern(Data(), fill, fillSize))
      ensures State() == old(State()).(dataSize := m_dataSize, size := m_size)
    {
      Reallocate(dataSize);
      if fillSize >= dataSize {
        if dataSize > 0 { CopyPattern(m_data, 0, fill, fillSize, dataSize, 0); }
        m_size := dataSize;
        return;
      }
      FillPattern(m_data, fill, fillSize, dataSize);
      m_size := dataSize;
    }

    /** A new buffer, with one block of the random data copied to its start. */
    method CopyBlock(size: nat, block: int) returns (data: array<uint8>)
      requires size >= 1024
      ensures fresh(data) && data.Length == size && Holds(data[..], 1024 * block)
    {
      data := new uint8[size](_ => 0);
      MemCpy(data, 0, seq(BLOCK_SIZE, k => packets(BLOCK_SIZE * block + k)), BLOCK_SIZE);
    }

    lemma CarryOneMore(sent: seq<seq<uint8>>, contents: seq<Payload>, p: seq<uint8>, content: Payload)
      requires Carry(sent, contents) && Carries(p, content)
      ensures Carry(sent + [p], contents + [content])
    {}

    /** The first part of Send: the payload goes on the wire. */
    method Transmit()
      requires Valid() && |lowPackets| == 1024
      requires m_dataSize == 0 || m_dataSize >= 1024
      requires m_dataSize != 0 ==> m_dataSize == m_size
      modifies this`m_data, this`wire, this`payloads
      ensures Valid() && m_data != null && Holds(m_data[..], FirstByte(old(State())))
      ensures old(PayloadsOnWire()) ==> PayloadsOnWire()
      ensures payloads == old(payloads) + [if m_dataSize != 0 then High(m_sent_l - 6000) else Low]
      ensures |wire| == |old(wire)| + 1 && wire[..|old(wire)|] == old(wire)
      ensures m_dataSize == 0 ==> wire[|old(wire)|] == lowPackets
      ensures m_dataSize != 0 ==>
        var sent := wire[|old(wire)|]; |sent| == m_dataSize && Holds(sent, 1024 * (m_sent_l - 6000))
    {
      var p: seq<uint8>;
      ghost var content;
      if m_dataSize != 0 {
        var i := m_sent_l - BLOCKS;
        var data := CopyBlock(m_dataSize, i);
        m_data := data;
        p, content := data[..], High(i);
      } else {
        m_data := CopyBlock(BLOCK_SIZE, m_sent_l);
        p, content := lowPackets, Low;
      }
      if PayloadsOnWire() { CarryOneMore(wire, payloads, p, content); }
      wire, payloads := wire + [p], payloads + [content];
    }

    /** The last part of Send. The event that has called Send has expired. */
    method Decide()
      requires Valid() && m_data != null && m_data.Length >= 1024
      modifies this`sendPending, this`m_dataSize
      ensures Valid() && State() == Decided(old(State()))
    {
      sendPending := false;
      if m_sent_l <= m_count {
        ScheduleTransmit();
      } else if m_sent_l == U32(m_count + 1) {
        m_dataSize := BLOCK_SIZE;
        ScheduleTransmit();
      } else if m_sent_l <= U32(m_count * 2) {
        ScheduleTransmit();
      }
    }

    /** Send: one packet on the wire, and the decision whether there is another one. */
    method Send()
      requires Valid() && |lowPackets| == 1024
      requires m_dataSize == 0 || m_dataSize >= 1024
      requires m_dataSize != 0 ==> m_dataSize == m_size
      modifies this
      ensures Valid() && Some(State()) == Sent(old(State()))
      ensures m_data != null && Holds(m_data[..], FirstByte(old(State())))
      ensures |wire| == |old(wire)| + 1 && wire[..|old(wire)|] == old(wire)
      ensures old(m_dataSize) == 0 ==> wire[|old(wire)|] == lowPackets
      ensures old(m_dataSize) != 0 ==>
        var sent := wire[|old(wire)|];
        |sent| == old(m_dataSize) && Holds(sent, 1024 * (old(m_sent_l) - 6000))
      ensures old(PayloadsOnWire()) ==> PayloadsOnWire()
    {
      Transmit();
      m_sent_l := U32(m_sent_l + 1);
      Decide();
    }
  }

  /**
   * What the server is sent in the course of a run with PacketSize 1024: the constant block count + 1 times, and then
   * the blocks of the random data from count + 1 - 6000 on.
   */
  lemma WireOfRun(client: UdpAppClient, count: uint32, n: nat)
    requires count < 0xFFFF_FFFE
    requires client.PayloadsOnWire() && Chain(Started(count, 1024), n) == Some(client.State())
    ensures |client.wire| == n
    ensures forall j | 0 <= j < n && j <= count :: client.wire[j] == client.lowPackets
    ensures forall j | count < j < n ::
      |client.wire[j]| >= 1024 && forall k | 0 <= k < 1024 :: client.wire[j][k] == client.packets(1024 * (j - 6000) + k)
  {
    ClientRun(count, n);
  }
}
