/** A complete run of the client against the server, over a link that loses and reorders nothing. */
module ClientServer {
  import opened Results
  import Client = UdpAppClient
  import Server = UdpAppServer

  lemma ServerPart(count: nat, s: Server.Counters, ts: seq<int>)
    requires 2 <= count <= 65534 && |ts| == 2 * count + 1
    requires s == Server.Counters(0, 0, false, s.first, s.last, 0, 0)
    ensures var r := Server.ReceivedAll(count, s, ts);
      && r.receivedLow == count && r.receivedHigh == count + 1 && r.allLow
      && r.durationLow == Server.Milliseconds(ts[0], ts[count - 1])
      && r.durationHigh == Server.Milliseconds(ts[count], ts[2 * count - 1])
  {
    Server.ServerWindows(count, s, ts);
    Server.HighWindowBeforeWrap(count, s, ts);
  }

  lemma ClientPart(count: nat)
    requires 2 <= count <= 65534
    ensures var run := Client.Chain(Client.Started(count, 1024), 2 * count + 1);
      && run.Some? && !run.value.pending && run.value.payloads == Client.Payloads(count, 2 * count + 1)
  {
    Client.ClientRun(count, 2 * count + 1);
  }

  /**
   * Client and server with the same count C, and clock readings ts of the server, one for each packet sent. The
   * server counts C low and C + 1 high packets. Its low window is packets 1 to C and its high window packets C + 1 to
   * 2C of the client; but the client has sent C + 1 low packets, so the high window opens with a low one, continues
   * with C - 1 consecutive blocks of random data, and closes one packet before the last.
   */
  lemma FullRun(count: nat, s: Server.Counters, ts: seq<int>)
    requires 2 <= count <= 65534
    requires s == Server.Counters(0, 0, false, s.first, s.last, 0, 0)
    requires |ts| == 2 * count + 1
    ensures var run := Client.Chain(Client.Started(count, 1024), |ts|);
      && run.Some? && !run.value.pending
      && var payloads := run.value.payloads;
      && |payloads| == |ts| == 2 * count + 1
      && var r := Server.ReceivedAll(count, s, ts);
      && r.receivedLow == count && r.receivedHigh == count + 1 && r.allLow
      && r.durationLow == Server.Milliseconds(ts[0], ts[count - 1])
      && r.durationHigh == Server.Milliseconds(ts[count], ts[2 * count - 1])
      && (forall j | 0 <= j < count :: payloads[j] == Client.Low)
      && payloads[count] == Client.Low
      && (forall j | count < j < 2 * count :: payloads[j] == Client.High(j - 6000))
      && payloads[2 * count] == Client.High(2 * count - 6000)
  {
    ClientPart(count);
    ServerPart(count, s, ts);
    assert forall j | 0 <= j < |ts| ::
      Client.Payloads(count, |ts|)[j] == if j <= count then Client.Low else Client.High(j - 6000);
  }

  /** The server's field for the count has 16 bits, the client's has 32: with 65535 the high counter wraps to 0. */
  lemma FullRunWraps(s: Server.Counters, ts: seq<int>)
    requires s == Server.Counters(0, 0, false, s.first, s.last, 0, 0)
    requires |ts| == 131_071
    ensures Server.ReceivedAll(65535, s, ts).receivedHigh == 0
  {
    Server.ServerWindows(65535, s, ts);
  }

  /** The times of the two windows, and how much longer the second one has to be for a detection. */
  predicate HighWindowLonger(count: nat, ts: seq<int>)
    requires 2 <= count && |ts| == 2 * count + 1
  {
    var low, high := ts[count - 1] - ts[0], ts[2 * count - 1] - ts[count];
    high >= 1_000_000 * (low / 1_000_000 + 101)
  }

  /** Over such a run compression is detected exactly if the high window is longer by 101 full milliseconds. */
  lemma VerdictOfFullRun(count: nat, s: Server.Counters, ts: seq<int>)
    requires 2 <= count <= 65534 && s == Server.Counters(0, 0, false, s.first, s.last, 0, 0)
    requires |ts| == 2 * count + 1
    requires forall i, j | 0 <= i <= j < |ts| :: ts[i] <= ts[j]
    ensures var r := Server.ReceivedAll(count, s, ts);
      r.durationHigh - r.durationLow > 100 <==> HighWindowLonger(count, ts)
  {
    ServerPart(count, s, ts);
  }

  function Concat(batches: seq<seq<int>>): seq<int> {
    if batches == [] then [] else Concat(batches[..|batches| - 1]) + batches[|batches| - 1]
  }

  /** The receptions of a run may come in any number of calls of HandleRead; the verdict depends on the times alone. */
  method Verdict(count: nat, epoch: int, batches: seq<seq<int>>) returns (detected: bool)
    requires 2 <= count <= 65534 && |Concat(batches)| == 2 * count + 1
    requires forall i, j | 0 <= i <= j < |Concat(batches)| :: Concat(batches)[i] <= Concat(batches)[j]
    ensures detected <==> HighWindowLonger(count, Concat(batches))
  {
    var server := new Server.UdpAppServer(count, epoch);
    ghost var s := server.State();
    var n := 0;
    while n < |batches|
      invariant 0 <= n <= |batches|
      invariant server.State() == Server.ReceivedAll(count, s, Concat(batches[..n]))
    {
      assert batches[..n + 1][..n] == batches[..n];
      Server.ReceivedAllAppend(count, s, Concat(batches[..n]), batches[n]);
      server.HandleRead(batches[n]);
      n := n + 1;
    }
    assert batches[..n] == batches;
    VerdictOfFullRun(count, s, Concat(batches));
    detected := server.CompressionDetected();
  }
}
