/** UdpAppServer: two windows of receptions, counted in 16 bits and timed. */
module UdpAppServer {

  type uint16 = n: int | 0 <= n < 0x1_0000

  function U16(n: nat): uint16 {
    n % 0x1_0000
  }

  /** duration_cast to milliseconds of a difference of clock readings in nanoseconds: truncation toward zero. */
  function Milliseconds(from: int, to: int): int {
    if to >= from then (to - from) / 1_000_000 else 0 - (from - to) / 1_000_000
  }

  /** The whole milliseconds between two clock readings, in either direction. */
  lemma MillisecondsTruncate(from: int, to: int)
    ensures var m := Milliseconds(from, to);
      && (from <= to ==> 1_000_000 * m <= to - from < 1_000_000 * (m + 1))
      && (to <= from ==> 1_000_000 * (m - 1) < to - from <= 1_000_000 * m)
  {}

  /** The fields that HandleRead updates. */
  datatype Counters = Counters(
    receivedLow: uint16,
    receivedHigh: uint16,
    allLow: bool,
    first: int,
    last: int,
    durationLow: int,
    durationHigh: int)

  /** One packet, received when the clock reads t. */
  function Received(count: uint16, s: Counters, t: int): Counters {
    if !s.allLow then
      var n := U16(s.receivedLow + 1);
      var next := s.(receivedLow := n);
      if n == 1 then next.(first := t)
      else if n < count then next.(last := t)
      else if n == count then next.(last := t, durationLow := Milliseconds(s.first, t), allLow := true)
      else next
    else
      var n := U16(s.receivedHigh + 1);
      var next := s.(receivedHigh := n);
      if n == 1 then next.(first := t)
      else if n < count then next.(last := t)
      else if n == count then next.(last := t, durationHigh := Milliseconds(s.first, t))
      else next
  }

  function ReceivedAll(count: uint16, s: Counters, ts: seq<int>): Counters {
    if ts == [] then s else Received(count, ReceivedAll(count, s, ts[..|ts| - 1]), ts[|ts| - 1])
  }

  lemma {:induction false} ReceivedAllAppend(count: uint16, s: Counters, ts: seq<int>, us: seq<int>)
    ensures ReceivedAll(count, s, ts + us) == ReceivedAll(count, ReceivedAll(count, s, ts), us)
  {
    if us == [] {
      assert ts + us == ts;
    } else {
      assert (ts + us)[..|ts + us| - 1] == ts + us[..|us| - 1];
      ReceivedAllAppend(count, s, ts, us[..|us| - 1]);
    }
  }

  class UdpAppServer {
    const m_count: uint16
    var m_received_l: uint16
    var m_received_h: uint16
    var receivedAllLowEntropy: bool
    var m_first_t: int
    var m_last_t: int
    var m_duration_l: int
    var m_duration_h: int

    function State(): Counters
      reads this
    {
      Counters(m_received_l, m_received_h, receivedAllLowEntropy, m_first_t, m_last_t, m_duration_l, m_duration_h)
    }

    constructor (count: uint16, epoch: int)
      ensures m_count == count && State() == Counters(0, 0, false, epoch, epoch, 0, 0)
    {
      m_count := count;
      m_received_l, m_received_h, receivedAllLowEntropy := 0, 0, false;
      m_first_t, m_last_t, m_duration_l, m_duration_h := epoch, epoch, 0, 0;
    }

    /** HandleRead: all packets that the socket has, with the clock reading at each of them. */
    method HandleRead(ts: seq<int>)
      modifies this
      ensures State() == ReceivedAll(m_count, old(State()), ts)
    {
      var n := 0;
      while n < |ts|
        invariant 0 <= n <= |ts|
        invariant State() == ReceivedAll(m_count, old(State()), ts[..n])
      {
        assert ts[..n + 1][..n] == ts[..n];
        if !receivedAllLowEntropy {
          m_received_l := U16(m_received_l + 1);
          if m_received_l == 1 {
            m_first_t := ts[n];
          } else if m_received_l < m_count {
            m_last_t := ts[n];
          } else if m_received_l == m_count {
            m_last_t := ts[n];
            m_duration_l := Milliseconds(m_first_t, m_last_t);
            receivedAllLowEntropy := true;
          }
        } else {
          m_received_h := U16(m_received_h + 1);
          if m_received_h == 1 {
            m_first_t := ts[n];
          } else if m_received_h < m_count {
            m_last_t := ts[n];
          } else if m_received_h == m_count {
            m_last_t := ts[n];
            m_duration_h := Milliseconds(m_first_t, m_last_t);
          }
        }
        n := n + 1;
      }
      assert ts[..n] == ts;
    }

    /** The comparison in StopApplication; what it means for a run is said by ClientServer.Verdict. */
    method CompressionDetected() returns (detected: bool)
      ensures detected <==> State().durationHigh - State().durationLow > 100
    {
      detected := m_duration_h - m_duration_l > 100;
    }
  }

  // ---------- what the counters mean ----------

  function Min(x: nat, y: nat): nat {
    if x < y then x else y
  }

  /** The number of times that the 16-bit counter has come past n after h receptions: n, n + 65536 and so on. */
  function Passes(h: nat, n: nat): nat {
    if h < n then 0 else (h - n) / 0x1_0000 + 1
  }

  lemma PassesStep(h: nat, n: uint16)
    requires n > 0
    ensures Passes(h + 1, n) == if U16(h + 1) == n then Passes(h, n) + 1 else Passes(h, n)
    ensures U16(h + 1) == n ==> h + 1 == n + 0x1_0000 * Passes(h, n)
  {}

  /** The reception, among n of them, that started the current window. */
  function FirstIndex(count: uint16, n: nat): (i: nat)
    requires n > 0 && 2 <= count
    ensures i < n
  {
    if n <= count then 0 else count + 0x1_0000 * (Passes(n - count, 1) - 1)
  }

  /** How far the measured high window is behind the first one: a multiple of 2^16. */
  function HighOffset(count: uint16, n: nat): (offset: nat)
    requires 2 <= count && n >= 2 * count
    ensures 2 * count + offset <= n
  {
    0x1_0000 * (Passes(n - count, count) - 1)
  }

  function HighDuration(count: uint16, ts: seq<int>): int
    requires 2 <= count
  {
    if |ts| < 2 * count then 0
    else
      var offset := HighOffset(count, |ts|);
      Milliseconds(ts[count + offset], ts[2 * count + offset - 1])
  }

  predicate Windows(count: uint16, ts: seq<int>, r: Counters)
    requires 2 <= count
  {
    var n := |ts|;
    && r.receivedLow == Min(n, count)
    && r.receivedHigh == U16(n - Min(n, count))
    && r.allLow == (n >= count)
    && (n > 0 ==> r.first == ts[FirstIndex(count, n)])
    && r.durationLow == (if n >= count then Milliseconds(ts[0], ts[count - 1]) else 0)
    && r.durationHigh == HighDuration(count, ts)
  }

  lemma LowStep(count: uint16, ts: seq<int>, r: Counters, t: int)
    requires 2 <= count && Windows(count, ts, r) && |ts| < count
    ensures Windows(count, ts + [t], Received(count, r, t))
  {}

  lemma FirstIndexStep(count: uint16, n: nat)
    requires 2 <= count <= n
    ensures FirstIndex(count, n + 1) == if U16(n + 1 - count) == 1 then n else FirstIndex(count, n)
  {
    PassesStep(n - count, 1);
  }

  lemma HighDurationStep(count: uint16, ts: seq<int>, t: int)
    requires 2 <= count <= |ts|
    ensures HighDuration(count, ts + [t]) ==
      if U16(|ts| + 1 - count) == count then Milliseconds(ts[FirstIndex(count, |ts|)], t) else HighDuration(count, ts)
  {
    var h := |ts| - count;
    PassesStep(h, count);
    if U16(h + 1) == count {
      SamePasses(h, count);
    } else if h >= count {
      assert Passes(h, count) >= 1;
    }
  }

  /** When the counter is about to come to n, it has come past 1 once more often than past n. */
  lemma SamePasses(h: nat, n: uint16)
    requires 2 <= n && U16(h + 1) == n
    ensures Passes(h, 1) == Passes(h, n) + 1
  {}

  /** One high reception, in terms of the number h of those before it. */
  lemma HighReceived(count: uint16, r: Counters, t: int, h: nat)
    requires 2 <= count && r.allLow && r.receivedHigh == U16(h)
    ensures var next := Received(count, r, t);
      && next.receivedHigh == U16(h + 1)
      && next.receivedLow == r.receivedLow && next.allLow && next.durationLow == r.durationLow
      && next.first == (if U16(h + 1) == 1 then t else r.first)
      && next.durationHigh == (if U16(h + 1) == count then Milliseconds(r.first, t) else r.durationHigh)
  {
    assert U16(U16(h) + 1) == U16(h + 1);
  }

  lemma HighStep(count: uint16, ts: seq<int>, r: Counters, t: int)
    requires 2 <= count && Windows(count, ts, r) && |ts| >= count
    ensures Windows(count, ts + [t], Received(count, r, t))
  {
    HighReceived(count, r, t, |ts| - count);
    FirstIndexStep(count, |ts|);
    HighDurationStep(count, ts, t);
  }

  /**
   * The counters after any receptions: low receptions up to count, the rest high modulo 2^16; the low window lasts
   * from packet 1 to packet count, the high window from the packet with which the high counter last came to 1 before
   * it last came to count.
   */
  lemma {:induction false} ServerWindows(count: uint16, s: Counters, ts: seq<int>)
    requires 2 <= count && s == Counters(0, 0, false, s.first, s.last, 0, 0)
    ensures Windows(count, ts, ReceivedAll(count, s, ts))
  {
    if ts != [] {
      var before, t := ts[..|ts| - 1], ts[|ts| - 1];
      assert ts == before + [t];
      ServerWindows(count, s, before);
      if |before| < count {
        LowStep(count, before, ReceivedAll(count, s, before), t);
      } else {
        HighStep(count, before, ReceivedAll(count, s, before), t);
      }
    }
  }

  /** Until the high counter has wrapped around, the server measures packets count + 1 to 2 * count. */
  lemma HighWindowBeforeWrap(count: uint16, s: Counters, ts: seq<int>)
    requires 2 <= count && s == Counters(0, 0, false, s.first, s.last, 0, 0)
    requires 2 * count <= |ts| < 2 * count + 0x1_0000
    ensures ReceivedAll(count, s, ts).durationHigh == Milliseconds(ts[count], ts[2 * count - 1])
  {
    ServerWindows(count, s, ts);
  }

  /** After that the measurement is a later one: packet 2 * count + 65536 replaces it. */
  lemma HighWindowAfterWrap(count: uint16, s: Counters, ts: seq<int>)
    requires 2 <= count && s == Counters(0, 0, false, s.first, s.last, 0, 0)
    requires |ts| == 2 * count + 0x1_0000
    ensures ReceivedAll(count, s, ts).durationHigh == Milliseconds(ts[count + 0x1_0000], ts[2 * count - 1 + 0x1_0000])
  {
    ServerWindows(count, s, ts);
  }

  /** The reception of which m_last_t is the clock reading, until the high counter wraps around; from 2 of them on. */
  function LastIndex(count: uint16, n: nat): (i: nat)
    requires 2 <= count && 2 <= n
    ensures i < n
  {
    if n == count + 1 then count - 1 else if n <= 2 * count then n - 1 else 2 * count - 1
  }

  lemma LastStep(count: uint16, r: Counters, t: int, n: nat)
    requires 2 <= count && n + 1 < count + 0x1_0000
    requires r.receivedLow == Min(n, count) && r.receivedHigh == n - Min(n, count) && r.allLow == (n >= count)
    ensures Received(count, r, t).last == if n == 0 || n == count || n >= 2 * count then r.last else t
  {}

  /** The first packet of either window, and the packets after a window, leave the last reading as it is. */
  lemma {:induction false} LastReading(count: uint16, s: Counters, ts: seq<int>)
    requires 2 <= count && s == Counters(0, 0, false, s.first, s.last, 0, 0) && |ts| < count + 0x1_0000
    ensures ReceivedAll(count, s, ts).last == if |ts| < 2 then s.last else ts[LastIndex(count, |ts|)]
  {
    if ts != [] {
      var before := ts[..|ts| - 1];
      ServerWindows(count, s, before);
      LastStep(count, ReceivedAll(count, s, before), ts[|ts| - 1], |before|);
      LastReading(count, s, before);
    }
  }

  /** With MaxPackets 1 the low window never ends: the branch for the first packet hides that for the last one. */
  lemma {:induction false} CountOneNeverEnds(s: Counters, ts: seq<int>)
    requires s == Counters(0, 0, false, s.first, s.last, 0, 0)
    ensures var r := ReceivedAll(1, s, ts);
      !r.allLow && r.receivedLow == U16(|ts|) && r.receivedHigh == 0 && r.durationLow == 0 && r.durationHigh == 0
  {
    if ts != [] { CountOneNeverEnds(s, ts[..|ts| - 1]); }
  }

  /** With MaxPackets 0 it ends when the 16-bit counter comes round to 0, with packet 65536. */
  lemma {:induction false} CountZeroEndsAtWrap(s: Counters, ts: seq<int>)
    requires s == Counters(0, 0, false, s.first, s.last, 0, 0) && |ts| <= 65_536
    ensures var r := ReceivedAll(0, s, ts);
      && r.receivedHigh == 0 && r.durationHigh == 0
      && (r.allLow <==> |ts| == 65_536)
      && r.receivedLow == (if |ts| == 65_536 then 0 else |ts|)
      && (ts != [] ==> r.first == ts[0])
      && r.durationLow == if |ts| == 65_536 then Milliseconds(ts[0], ts[65_535]) else 0
  {
    if ts != [] { CountZeroEndsAtWrap(s, ts[..|ts| - 1]); }
  }
}
