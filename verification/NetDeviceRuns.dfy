/** Whole runs of the transmitter: its invariant, the departure times, and the draining of its queue. */
module NetDeviceRuns {
  import opened Results
  import opened NetDevice

  // ---------- runs ----------

  /** Attach, a call of Send at some time, or the simulator executing its next event. */
  datatype Step =
    | AttachLink
    | Arrive(at: nat, offered: Packet, packet: Packet, sentOnWire: bool)
    | Fire(firedOnWire: bool)

  /** The simulator never passes a pending event by; a Send and an event at the same time may come in either order. */
  predicate Enabled(w: World, step: Step) {
    match step
    case AttachLink => true
    case Arrive(at, _, _, _) => w.now <= at && (w.events != [] ==> at <= w.events[0])
    case Fire(_) => w.events != []
  }

  function Next(c: Config, w: World, step: Step): Option<World>
    requires Enabled(w, step)
  {
    match step
    case AttachLink => Some(w.(linkUp := true))
    case Arrive(at, offered, p, onWire) => Sent(c, w.(now := at), offered, p, onWire)
    case Fire(onWire) => Completed(c, w.(now := w.events[0], events := w.events[1..]), onWire)
  }

  datatype Outcome = Reached(w: World) | AssertFailed | NotARun

  function Run(c: Config, w: World, steps: seq<Step>): Outcome
    decreases steps
  {
    if steps == [] then Reached(w)
    else if !Enabled(w, steps[0]) then NotARun
    else
      match Next(c, w, steps[0])
      case None => AssertFailed
      case Some(next) => Run(c, next, steps[1..])
  }

  function Initial(now: nat): World {
    World(READY, None, [], false, now, [], Traces([], [], [], [], []))
  }

  // ---------- the departure recurrence ----------

  function Max(x: nat, y: nat): nat {
    if x > y then x else y
  }

  /** Packet n starts when it is accepted or when its predecessor is through, whichever is later. */
  function Start(c: Config, accepted: seq<Stamp>, n: nat): nat
    requires n < |accepted|
  {
    if n == 0 then accepted[0].time
    else Max(accepted[n].time, Start(c, accepted, n - 1) + Duration(c, accepted[n - 1].packet))
  }

  function End(c: Config, accepted: seq<Stamp>, n: nat): nat
    requires n < |accepted|
  {
    Start(c, accepted, n) + Duration(c, accepted[n].packet)
  }

  /** The transmissions that have begun are an initial part of the recurrence. */
  predicate AreStarts(c: Config, accepted: seq<Stamp>, begun: seq<Stamp>) {
    |begun| <= |accepted| &&
    forall i {:trigger begun[i]} | 0 <= i < |begun| :: begun[i] == Stamp(Start(c, accepted, i), accepted[i].packet)
  }

  predicate AreEnds(c: Config, accepted: seq<Stamp>, ended: seq<Stamp>) {
    |ended| <= |accepted| &&
    forall i {:trigger ended[i]} | 0 <= i < |ended| :: ended[i] == Stamp(End(c, accepted, i), accepted[i].packet)
  }

  /** Transmissions in the recurrence are in order and do not overlap, and none starts before its packet is there. */
  lemma {:induction false} StartsDoNotOverlap(c: Config, accepted: seq<Stamp>, i: nat, j: nat)
    requires i < j < |accepted|
    ensures var size := accepted[i].packet.size;
      Start(c, accepted, i) + c.txTime(size) + c.interframeGap <= Start(c, accepted, j)
    ensures accepted[j].time <= Start(c, accepted, j)
  {
    if i < j - 1 { StartsDoNotOverlap(c, accepted, i, j - 1); }
  }

  /** The time that packets i..n keep the transmitter busy. */
  function BusyTime(c: Config, accepted: seq<Stamp>, i: nat, n: nat): nat
    requires i <= n <= |accepted|
  {
    if i == n then 0 else BusyTime(c, accepted, i, n - 1) + Duration(c, accepted[n - 1].packet)
  }

  /**
   * The recurrence in closed form: a packet starts at the latest of the times at which the device would be through
   * with its predecessors if it had been working since one of them was accepted.
   */
  lemma {:induction false} StartIsLatestBusyPeriod(c: Config, accepted: seq<Stamp>, n: nat) returns (first: nat)
    requires n < |accepted|
    ensures first <= n && Start(c, accepted, n) == accepted[first].time + BusyTime(c, accepted, first, n)
    ensures forall i | 0 <= i <= n :: accepted[i].time + BusyTime(c, accepted, i, n) <= Start(c, accepted, n)
  {
    first := n;
    if n > 0 {
      var before := StartIsLatestBusyPeriod(c, accepted, n - 1);
      if accepted[n].time < Start(c, accepted, n - 1) + Duration(c, accepted[n - 1].packet) { first := before; }
    }
  }

  lemma {:induction false} StartPrefix(c: Config, a: seq<Stamp>, x: Stamp, n: nat)
    requires n < |a|
    ensures Start(c, a + [x], n) == Start(c, a, n)
  {
    if n > 0 { StartPrefix(c, a, x, n - 1); }
  }

  /** Accepting another packet does not change what was computed for the earlier ones. */
  lemma MoreAccepted(c: Config, a: seq<Stamp>, x: Stamp, begun: seq<Stamp>, ended: seq<Stamp>)
    requires AreStarts(c, a, begun) && AreEnds(c, a, ended)
    ensures AreStarts(c, a + [x], begun) && AreEnds(c, a + [x], ended)
  {
    forall i | 0 <= i < |a| ensures Start(c, a + [x], i) == Start(c, a, i) { StartPrefix(c, a, x, i); }
  }

  // ---------- the invariant ----------

  function InFlight(w: World): seq<Packet> {
    if w.current.Some? then [w.current.value] else []
  }

  /** BUSY, a current packet and a pending event go together; READY means that nothing waits. */
  predicate TransmitterInvariant(c: Config, w: World) {
    && (w.machine == BUSY <==> w.current.Some?)
    && (w.machine == BUSY <==> |w.events| == 1)
    && (w.machine == READY <==> w.events == [])
    && (w.machine == READY ==> w.queue == [])
    && |w.queue| <= c.maxPackets
  }

  /** What was accepted is what has ended, then the packet in flight, then the queue. */
  predicate InOrder(w: World) {
    var accepted, k := w.traces.enqueued, |w.traces.begun|;
    && k == |w.traces.ended| + |InFlight(w)|
    && |accepted| == k + |w.queue|
    && (w.current.Some? ==> accepted[k - 1].packet == w.current.value)
    && (forall i | 0 <= i < |w.queue| :: w.queue[i] == accepted[k + i].packet)
  }

  predicate OnSchedule(c: Config, w: World) {
    var accepted, k := w.traces.enqueued, |w.traces.begun|;
    && AreStarts(c, accepted, w.traces.begun)
    && AreEnds(c, accepted, w.traces.ended)
    && (forall i | 0 <= i < |accepted| :: accepted[i].time <= w.now)
    && (w.machine == READY && k > 0 ==> End(c, accepted, k - 1) <= w.now)
    && (w.machine == BUSY ==> k > 0 && w.events == [End(c, accepted, k - 1)] && w.now <= w.events[0])
  }

  predicate Invariant(c: Config, w: World) {
    TransmitterInvariant(c, w) && InOrder(w) && OnSchedule(c, w)
  }

  // ---------- every step keeps it ----------

  /** The transmitter is free, as it is inside the handlers just before they start the next packet. */
  predicate Free(c: Config, w: World) {
    && w.machine == READY && w.current.None? && w.events == [] && |w.queue| <= c.maxPackets
    && InOrder(w) && OnSchedule(c, w)
  }

  lemma StartKeepsInvariant(c: Config, w: World, onWire: bool)
    requires Free(c, w) && w.queue != []
    requires Start(c, w.traces.enqueued, |w.traces.begun|) == w.now
    ensures Started(c, w.(queue := w.queue[1..]), w.queue[0], onWire).Some?
    ensures Invariant(c, Started(c, w.(queue := w.queue[1..]), w.queue[0], onWire).value)
  {}

  lemma FireKeepsInvariant(c: Config, w: World, onWire: bool)
    requires Invariant(c, w) && Enabled(w, Fire(onWire))
    ensures Next(c, w, Fire(onWire)).Some? && Invariant(c, Next(c, w, Fire(onWire)).value)
  {
    var idle := w.(now := w.events[0], events := w.events[1..], machine := READY, current := None,
      traces := w.traces.(ended := w.traces.ended + [Stamp(w.events[0], w.current.value)]));
    assert Free(c, idle);
    if idle.queue != [] { StartKeepsInvariant(c, idle, onWire); }
  }

  lemma SendKeepsInvariant(c: Config, w: World, offered: Packet, p: Packet, onWire: bool)
    requires Invariant(c, w)
    ensures Sent(c, w, offered, p, onWire).Some? && Invariant(c, Sent(c, w, offered, p, onWire).value)
  {
    if Accepts(c, w) {
      MoreAccepted(c, w.traces.enqueued, Stamp(w.now, p), w.traces.begun, w.traces.ended);
      var queued := w.(queue := w.queue + [p], traces := w.traces.(enqueued := w.traces.enqueued + [Stamp(w.now, p)]));
      if |w.traces.begun| > 0 { StartPrefix(c, w.traces.enqueued, Stamp(w.now, p), |w.traces.begun| - 1); }
      assert InOrder(queued);
      assert OnSchedule(c, queued);
      if w.machine == READY { StartKeepsInvariant(c, queued, onWire); }
    }
  }

  lemma StepKeepsInvariant(c: Config, w: World, step: Step)
    requires Invariant(c, w) && Enabled(w, step)
    ensures Next(c, w, step).Some? && Invariant(c, Next(c, w, step).value)
  {
    match step
    case AttachLink =>
    case Arrive(at, offered, p, onWire) => SendKeepsInvariant(c, w.(now := at), offered, p, onWire);
    case Fire(onWire) => FireKeepsInvariant(c, w, onWire);
  }

  // ---------- what holds of every run ----------

  /** No run fails an assertion, and every state that it reaches satisfies the invariant. */
  lemma {:induction false} RunsKeepInvariant(c: Config, w: World, steps: seq<Step>)
    requires Invariant(c, w)
    ensures var r := Run(c, w, steps); r.NotARun? || (r.Reached? && Invariant(c, r.w))
    decreases steps
  {
    if steps != [] && Enabled(w, steps[0]) {
      StepKeepsInvariant(c, w, steps[0]);
      RunsKeepInvariant(c, Next(c, w, steps[0]).value, steps[1..]);
    }
  }

  function PacketsOf(s: seq<Stamp>): (r: seq<Packet>)
    ensures |r| == |s| && forall i | 0 <= i < |s| :: r[i] == s[i].packet
  {
    seq(|s|, i requires 0 <= i < |s| => s[i].packet)
  }

  lemma FifoConservation(c: Config, w: World)
    requires Invariant(c, w)
    ensures PacketsOf(w.traces.enqueued) == PacketsOf(w.traces.ended) + InFlight(w) + w.queue
    ensures PacketsOf(w.traces.begun) == PacketsOf(w.traces.ended) + InFlight(w)
  {}

  /**
   * The event-driven device refines the recurrence. Whatever the arrivals and whatever the channel answers, no
   * assertion fails, the transmissions begun and ended are initial parts of what the recurrence computes from the
   * accepted packets alone, at most one is under way, and while the transmitter is READY all packets are through.
   */
  lemma RunRefinesRecurrence(c: Config, now: nat, steps: seq<Step>)
    requires Run(c, Initial(now), steps) != NotARun
    ensures var r := Run(c, Initial(now), steps);
      && r.Reached?
      && var t := r.w.traces;
      && AreStarts(c, t.enqueued, t.begun) && AreEnds(c, t.enqueued, t.ended)
      && |t.ended| <= |t.begun| <= |t.ended| + 1
      && (r.w.machine == READY ==> |t.ended| == |t.begun| == |t.enqueued|)
      && PacketsOf(t.enqueued) == PacketsOf(t.ended) + InFlight(r.w) + r.w.queue
  {
    RunsKeepInvariant(c, Initial(now), steps);
    FifoConservation(c, Run(c, Initial(now), steps).w);
  }

  /**
   * The times in the traces of any run: a transmission ends after its transmission time and the gap, the next one
   * begins then or, if that is later, when its packet is accepted, and the first one begins at once.
   */
  lemma DepartureTimes(c: Config, now: nat, steps: seq<Step>)
    requires Run(c, Initial(now), steps) != NotARun
    ensures var r := Run(c, Initial(now), steps);
      && r.Reached?
      && var begun, ended, accepted := r.w.traces.begun, r.w.traces.ended, r.w.traces.enqueued;
      && |ended| <= |begun| <= |accepted|
      && (forall i | 0 <= i < |begun| :: begun[i].packet == accepted[i].packet)
      && (forall i | 0 <= i < |ended| ::
            && ended[i].packet == begun[i].packet
            && ended[i].time == begun[i].time + c.txTime(begun[i].packet.size) + c.interframeGap)
      && (forall i | 1 <= i < |begun| ::
            var free := begun[i - 1].time + c.txTime(begun[i - 1].packet.size) + c.interframeGap;
            begun[i].time == if accepted[i].time > free then accepted[i].time else free)
      && (begun != [] ==> begun[0].time == accepted[0].time)
  {
    RunsKeepInvariant(c, Initial(now), steps);
    var t := Run(c, Initial(now), steps).w.traces;
    forall i | 0 <= i < |t.ended|
      ensures t.ended[i].packet == t.begun[i].packet
      ensures t.ended[i].time == t.begun[i].time + c.txTime(t.begun[i].packet.size) + c.interframeGap
    {
      assert t.begun[i].time == Start(c, t.enqueued, i);
    }
    forall i | 1 <= i < |t.begun|
      ensures
        var free := t.begun[i - 1].time + c.txTime(t.begun[i - 1].packet.size) + c.interframeGap;
        t.begun[i].time == if t.enqueued[i].time > free then t.enqueued[i].time else free
    {
      assert t.begun[i - 1].time == Start(c, t.enqueued, i - 1);
    }
  }

  /**
   * A Send in any reachable state is either accepted, at the end of what is accepted, or dropped; a drop leaves
   * transmitter, queue and events alone, and it happens exactly when there is no link or the queue is full.
   */
  lemma SendAcceptsOrDrops(c: Config, w: World, offered: Packet, p: Packet, onWire: bool)
    requires TransmitterInvariant(c, w)
    ensures var r := Sent(c, w, offered, p, onWire);
      && r.Some?
      && var stamp := [Stamp(w.now, p)];
      && (w.linkUp && |w.queue| < c.maxPackets ==>
            && r.value.traces.enqueued == w.traces.enqueued + stamp && r.value.traces.dropped == w.traces.dropped
            && InFlight(r.value) + r.value.queue == InFlight(w) + w.queue + [p])
      && (!(w.linkUp && |w.queue| < c.maxPackets) ==>
            var lost := [Stamp(w.now, if w.linkUp then p else offered)];
            r.value == w.(traces := w.traces.(dropped := w.traces.dropped + lost)))
  {
    if w.machine == READY { assert [p] + [] == [] + [p]; }
  }

  /** With a free transmitter the packet that Send takes from the queue is the one it has just put there. */
  lemma SendStartsOwnPacket(c: Config, w: World, offered: Packet, p: Packet, onWire: bool)
    requires TransmitterInvariant(c, w) && Accepts(c, w) && w.machine == READY
    ensures var r := Sent(c, w, offered, p, onWire).value;
      && r.machine == BUSY && r.current == Some(p) && r.queue == []
      && r.events == [w.now + c.txTime(p.size) + c.interframeGap]
      && r.traces.begun == w.traces.begun + [Stamp(w.now, p)]
      && r.traces.lost == w.traces.lost + if onWire then [] else [Stamp(w.now, p)]
  {
    assert w.queue + [p] == [p];
  }

  /** What the channel answers if the step starts a transmission. */
  function Answer(step: Step): bool {
    match step
    case AttachLink => true
    case Arrive(_, _, _, onWire) => onWire
    case Fire(onWire) => onWire
  }

  /** A step begins one transmission or none, and the transmission is lost exactly if the channel refuses it. */
  lemma StepLosesIff(c: Config, w: World, step: Step)
    requires Enabled(w, step) && Next(c, w, step).Some?
    ensures var t, u := w.traces, Next(c, w, step).value.traces;
      || (u.begun == t.begun && u.lost == t.lost)
      || (|u.begun| == |t.begun| + 1 && u.begun[..|t.begun|] == t.begun
          && u.lost == t.lost + if Answer(step) then [] else [u.begun[|t.begun|]])
  {}

  /** Over a channel that takes everything nothing is lost, over one that refuses everything all that has begun. */
  lemma {:induction false} LostInRun(c: Config, w: World, steps: seq<Step>, answer: bool)
    requires Run(c, w, steps).Reached?
    requires forall i | 0 <= i < |steps| && !steps[i].AttachLink? :: Answer(steps[i]) == answer
    requires w.traces.lost == if answer then [] else w.traces.begun
    ensures var t := Run(c, w, steps).w.traces; t.lost == if answer then [] else t.begun
    decreases steps
  {
    if steps != [] {
      StepLosesIff(c, w, steps[0]);
      LostInRun(c, Next(c, w, steps[0]).value, steps[1..], answer);
    }
  }

  // ---------- draining ----------

  function Fires(answers: seq<bool>): (r: seq<Step>)
    ensures |r| == |answers| && forall i | 0 <= i < |r| :: r[i] == Fire(answers[i])
  {
    seq(|answers|, i requires 0 <= i < |answers| => Fire(answers[i]))
  }

  /**
   * Left to itself, a busy device is READY again after exactly one event for the packet in flight and one for each
   * queued packet, and then everything that was ever accepted has left in order at the times of the recurrence.
   */
  lemma {:induction false} DeviceDrains(c: Config, w: World, answers: seq<bool>)
    requires Invariant(c, w) && |answers| == |InFlight(w)| + |w.queue|
    ensures var r := Run(c, w, Fires(answers));
      && r.Reached? && r.w.machine == READY && r.w.queue == []
      && r.w.traces.enqueued == w.traces.enqueued
      && |r.w.traces.ended| == |w.traces.enqueued| && AreEnds(c, w.traces.enqueued, r.w.traces.ended)
    decreases |answers|
  {
    if w.machine == READY {
      assert Fires(answers) == [];
    } else {
      FireKeepsInvariant(c, w, answers[0]);
      assert Fires(answers)[1..] == Fires(answers[1..]);
      DeviceDrains(c, Next(c, w, Fire(answers[0])).value, answers[1..]);
    }
  }
}
