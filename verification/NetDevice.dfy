/** PointToPointNetDevice: the READY/BUSY transmitter with its bounded queue and its one scheduled event. */
module NetDevice {
  import opened Results

  /** A packet, at any stage of its processing. */
  datatype Packet = Packet(uid: nat, size: nat)

  datatype TxMachineState = READY | BUSY

  datatype Stamp = Stamp(time: nat, packet: Packet)

  /** What the trace sinks see: TxQueue/Enqueue, MacTxDrop, PhyTxBegin, PhyTxEnd and PhyTxDrop. */
  datatype Traces = Traces(
    enqueued: seq<Stamp>,
    dropped: seq<Stamp>,
    begun: seq<Stamp>,
    ended: seq<Stamp>,
    lost: seq<Stamp>)

  /** Data rate, interframe gap and queue size; times are in the simulator's integer ticks. */
  datatype Config = Config(txTime: nat -> nat, interframeGap: nat, maxPackets: nat)

  /** From the start of a transmission to its TransmitComplete event. */
  function Duration(c: Config, p: Packet): nat {
    c.txTime(p.size) + c.interframeGap
  }

  /** The device, the simulator's clock, and the times of the pending TransmitComplete events. */
  datatype World = World(
    machine: TxMachineState,
    current: Option<Packet>,
    queue: seq<Packet>,
    linkUp: bool,
    now: nat,
    events: seq<nat>,
    traces: Traces)

  /** Simulator::Schedule: events are kept by time, and among equal times in the order of scheduling. */
  function InsertByTime(events: seq<nat>, t: nat): seq<nat> {
    if events == [] || t < events[0] then [t] + events
    else [events[0]] + InsertByTime(events[1..], t)
  }

  predicate Sorted(events: seq<nat>) {
    forall i, j | 0 <= i < j < |events| :: events[i] <= events[j]
  }

  /** The new event is the only addition; it stands behind a part with no later time, in front of a later one. */
  lemma {:induction false} InsertedBetween(events: seq<nat>, t: nat) returns (k: nat)
    ensures k <= |events| && InsertByTime(events, t) == events[..k] + [t] + events[k..]
    ensures forall i | 0 <= i < k :: events[i] <= t
    ensures k < |events| ==> t < events[k]
  {
    if events == [] || t < events[0] {
      k := 0;
    } else {
      var first, rest := events[0], events[1..];
      assert events == [first] + rest;
      var m := InsertedBetween(rest, t);
      k := m + 1;
      assert events[..k] == [first] + rest[..m] && events[k..] == rest[m..];
      assert forall i | 1 <= i < k :: events[i] == rest[i - 1];
    }
  }

  /** On a list in time order that is behind all events up to its time, and the list stays in order. */
  lemma InsertByTimePosition(events: seq<nat>, t: nat) returns (k: nat)
    requires Sorted(events)
    ensures k <= |events| && InsertByTime(events, t) == events[..k] + [t] + events[k..]
    ensures forall i | 0 <= i < |events| :: events[i] <= t <==> i < k
    ensures Sorted(InsertByTime(events, t))
  {
    k := InsertedBetween(events, t);
    var r := InsertByTime(events, t);
    assert forall i | 0 <= i < |r| :: r[i] == if i < k then events[i] else if i == k then t else events[i - 1];
  }

  // ---------- the handlers, as functions of the world; None is a failed NS_ASSERT ----------

  /** onWire is the result of the channel's TransmitStart. */
  function Started(c: Config, w: World, p: Packet, onWire: bool): Option<World> {
    if w.machine != READY then None else
      var stamp := [Stamp(w.now, p)];
      Some(w.(
        machine := BUSY,
        current := Some(p),
        events := InsertByTime(w.events, w.now + Duration(c, p)),
        traces := w.traces.(
          begun := w.traces.begun + stamp,
          lost := w.traces.lost + if onWire then [] else stamp)))
  }

  function Completed(c: Config, w: World, onWire: bool): Option<World> {
    if w.machine != BUSY || w.current.None? then None else
      var idle := w.(
        machine := READY,
        current := None,
        traces := w.traces.(ended := w.traces.ended + [Stamp(w.now, w.current.value)]));
      if w.queue == [] then Some(idle)
      else Started(c, idle.(queue := w.queue[1..]), w.queue[0], onWire)
  }

  function Dropped(w: World, p: Packet): World {
    w.(traces := w.traces.(dropped := w.traces.dropped + [Stamp(w.now, p)]))
  }

  predicate Accepts(c: Config, w: World) {
    w.linkUp && |w.queue| < c.maxPackets
  }

  /**
   * offered is the packet that Send is called with, which is what is traced as dropped when there is no link; p is
   * the packet that it is turned into.
   */
  function Sent(c: Config, w: World, offered: Packet, p: Packet, onWire: bool): Option<World> {
    if !Accepts(c, w) then Some(Dropped(w, if w.linkUp then p else offered)) else
      var queued := w.(
        queue := w.queue + [p],
        traces := w.traces.(enqueued := w.traces.enqueued + [Stamp(w.now, p)]));
      if w.machine == READY then Started(c, queued.(queue := queued.queue[1..]), queued.queue[0], onWire)
      else Some(queued)
  }

  // ---------- the classes ----------

  class Simulator {
    var now: nat
    var events: seq<nat>

    constructor ()
      ensures now == 0 && events == []
    {
      now, events := 0, [];
    }

    method Schedule(delay: nat)
      modifies this
      ensures now == old(now) && events == InsertByTime(old(events), old(now) + delay)
      ensures Sorted(old(events)) ==> Sorted(events)
    {
      if Sorted(events) { ghost var _ := InsertByTimePosition(events, now + delay); }
      events := InsertByTime(events, now + delay);
    }
  }

  class PointToPointNetDevice {
    const config: Config
    const sim: Simulator
    const compressionEnabled: bool
    var m_protocol: nat
    var m_txMachineState: TxMachineState
    var m_currentPkt: Option<Packet>
    var m_queue: seq<Packet>
    var m_linkUp: bool
    var traces: Traces

    function State(): World
      reads this, sim
    {
      World(m_txMachineState, m_currentPkt, m_queue, m_linkUp, sim.now, sim.events, traces)
    }

    constructor (config: Config, sim: Simulator, compressionEnabled: bool)
      ensures this.config == config && this.sim == sim && this.compressionEnabled == compressionEnabled
      ensures State() == World(READY, None, [], false, sim.now, sim.events, Traces([], [], [], [], []))
    {
      this.config, this.sim, this.compressionEnabled := config, sim, compressionEnabled;
      m_protocol := 0;
      m_txMachineState, m_linkUp, m_currentPkt := READY, false, None;
      m_queue := [];
      traces := Traces([], [], [], [], []);
    }

    /** Attach, which ends in NotifyLinkUp. */
    method Attach() returns (ok: bool)
      modifies this
      ensures State() == old(State()).(linkUp := true) && m_protocol == old(m_protocol) && ok
    {
      NotifyLinkUp();
      ok := true;
    }

    method NotifyLinkUp()
      modifies this
      ensures State() == old(State()).(linkUp := true) && m_protocol == old(m_protocol)
    {
      m_linkUp := true;
    }

    /** m_queue->Enqueue: a drop-tail queue. */
    method Enqueue(p: Packet) returns (ok: bool)
      modifies this
      ensures ok == (|old(m_queue)| < config.maxPackets) && m_protocol == old(m_protocol)
      ensures State() ==
        if ok then old(State()).(queue := old(m_queue) + [p],
                                 traces := old(traces).(enqueued := old(traces).enqueued + [Stamp(sim.now, p)]))
        else old(State())
    {
      ok := |m_queue| < config.maxPackets;
      if ok {
        m_queue := m_queue + [p];
        traces := traces.(enqueued := traces.enqueued + [Stamp(sim.now, p)]);
      }
    }

    method Dequeue() returns (p: Option<Packet>)
      modifies this
      ensures m_protocol == old(m_protocol)
      ensures if old(m_queue) == [] then p == None && State() == old(State())
              else p == Some(old(m_queue)[0]) && State() == old(State()).(queue := old(m_queue)[1..])
    {
      if m_queue == [] { return None; }
      p := Some(m_queue[0]);
      m_queue := m_queue[1..];
    }

    method TransmitStart(p: Packet, onWire: bool) returns (result: bool)
      requires m_txMachineState == READY
      modifies this, sim
      ensures Some(State()) == Started(config, old(State()), p, onWire)
      ensures sim.events == InsertByTime(old(sim.events), sim.now + config.txTime(p.size) + config.interframeGap)
      ensures traces.lost == old(traces).lost + if onWire then [] else [Stamp(sim.now, p)]
      ensures result == onWire && m_protocol == old(m_protocol)
    {
      m_txMachineState := BUSY;
      m_currentPkt := Some(p);
      traces := traces.(begun := traces.begun + [Stamp(sim.now, p)]);
      var txTime := config.txTime(p.size);
      var txCompleteTime := txTime + config.interframeGap;
      sim.Schedule(txCompleteTime);
      result := onWire;
      traces := traces.(lost := traces.lost + if result then [] else [Stamp(sim.now, p)]);
    }

    method TransmitComplete(onWire: bool)
      requires m_txMachineState == BUSY
      requires m_currentPkt.Some?
      modifies this, sim
      ensures Some(State()) == Completed(config, old(State()), onWire)
      ensures m_protocol == old(m_protocol)
    {
      m_txMachineState := READY;
      traces := traces.(ended := traces.ended + [Stamp(sim.now, m_currentPkt.value)]);
      m_currentPkt := None;
      var p := Dequeue();
      if p.None? { return; }
      var _ := TransmitStart(p.value, onWire);
    }

    /** The end of every branch of Send: queue the packet, and start it if the transmitter is free. */
    method EnqueueAndStart(p: Packet, onWire: bool) returns (result: bool)
      requires m_linkUp
      modifies this, sim
      ensures Some(State()) == Sent(config, old(State()), p, p, onWire)
      ensures result == (Accepts(config, old(State())) && (old(m_txMachineState) == READY ==> onWire))
    {
      var ok := Enqueue(p);
      if ok {
        if m_txMachineState == READY {
          var head := Dequeue();
          result := TransmitStart(head.value, onWire);
          return;
        }
        return true;
      }
      traces := traces.(dropped := traces.dropped + [Stamp(sim.now, p)]);
      return false;
    }

    /**
     * Send. framed is the packet with a PPP header, compressed the packet that replaces it when compression is
     * enabled for the protocol. The three branches of the source differ in nothing else.
     */
    method Send(packet: Packet, framed: Packet, compressed: Packet, protocolNumber: nat, onWire: bool)
      returns (result: bool)
      modifies this, sim
      ensures
        var p := if compressionEnabled && protocolNumber == old(m_protocol) then compressed else framed;
        && Some(State()) == Sent(config, old(State()), packet, p, onWire)
        && result == (Accepts(config, old(State())) && (old(m_txMachineState) == READY ==> onWire))
    {
      if compressionEnabled {
        if protocolNumber == m_protocol {
          if !m_linkUp {
            traces := traces.(dropped := traces.dropped + [Stamp(sim.now, packet)]);
            return false;
          }
          result := EnqueueAndStart(compressed, onWire);
          return;
        }
        if !m_linkUp {
          traces := traces.(dropped := traces.dropped + [Stamp(sim.now, packet)]);
          return false;
        }
        result := EnqueueAndStart(framed, onWire);
      } else {
        if !m_linkUp {
          traces := traces.(dropped := traces.dropped + [Stamp(sim.now, packet)]);
          return false;
        }
        result := EnqueueAndStart(framed, onWire);
      }
    }
  }
}
