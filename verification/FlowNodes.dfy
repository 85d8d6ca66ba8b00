/** The nodes of the packet scheduler and what holds between them: who owns which port, what the NAT table
    points at, which packets of a flow have left. */
module FlowNodes {
  import opened Basics

  type Ptr = nat

  datatype Socket = Socket(pool: nat, client: nat, port: nat)

  /** One packet of a template. */
  datatype Pkt = Pkt(init_side: bool, is_tcp: bool, is_rtt: bool, pcap_timing: bool, cap_ipg: real)

  datatype Template = Template(
    pkts: seq<Pkt>, bi_dir: bool, repeat: bool, restart_time: real, rtt_sec: real, ipg_sec: real,
    plugin_ports: bool, pool: nat)
  {
    /** What loading a template and reading its YAML section guarantee.  The first packet of a template is
        the initiator's; a template that goes both ways holds a responder packet. */
    ghost predicate Legal() {
      && pkts != [] && pkts[0].init_side
      && restart_time >= 0.0 && (repeat ==> restart_time > 0.0) && rtt_sec >= 0.0 && ipg_sec >= 0.0
      && (forall i :: 0 <= i < |pkts| ==> pkts[i].cap_ipg >= 0.0)
      && (bi_dir ==> exists i :: 0 <= i < |pkts| && !pkts[i].init_side)
    }

    /** The time from packet i to the next. */
    function Gap(i: nat): (gap: real)
      requires i < |pkts|
    {
      if pkts[i].pcap_timing then pkts[i].cap_ipg else if pkts[i].is_rtt then rtt_sec else ipg_sec
    }

    /** The index of the first responder packet, or the number of packets. */
    ghost function FirstResponder(from: nat := 0): (r: nat)
      requires from <= |pkts|
      ensures from <= r <= |pkts|
      ensures forall i :: from <= i < r ==> pkts[i].init_side
      ensures r < |pkts| ==> !pkts[r].init_side
      decreases |pkts| - from
    {
      if from == |pkts| || !pkts[from].init_side then from else FirstResponder(from + 1)
    }
  }

  /** What a flow keeps from generation to its end; the client's port first, then those of its plugin. */
  datatype FlowInfo = FlowInfo(id: nat, template: Template, sockets: seq<Socket>)

  /** Whether the node's type is FLOW_PKT_NAT, and its learn-mode bits.  A learned flow keeps the bits. */
  datatype NatState = NoNat | NatFirst | NatWait

  datatype Node =
    | FlowPkt(m_time: real, is_nat: bool, nat_bits: NatState, info: FlowInfo, pkt: nat)
    | FlowFif(m_time: real)
    | FlowSync(m_time: real)
    | ExitSched(m_time: real)
    | DeferPort(m_time: real, entries: seq<Socket>)

  const DEFER_CLIENTS_NUM := 16
  const SYNC_TIME_OUT: real := 0.001

  function Times(nodes: map<Ptr, Node>): (times: map<Ptr, real>)
    ensures times.Keys == nodes.Keys
  {
    map p | p in nodes :: nodes[p].m_time
  }

  ghost predicate NodesOk(nodes: map<Ptr, Node>) {
    forall p :: p in nodes ==> NodeOk(nodes[p])
  }

  ghost predicate NodeOk(node: Node) {
    node.FlowPkt? ==>
      && node.info.template.Legal() && node.pkt < |node.info.template.pkts|
      && |node.info.sockets| == (if node.info.template.plugin_ports then 3 else 1)
  }

  // ----- Ports

  /** The ports a node answers for. */
  function Held(node: Node): seq<Socket> {
    match node
    case FlowPkt(_, _, _, info, _) => info.sockets
    case DeferPort(_, entries) => entries
    case _ => []
  }

  ghost function SetOf(s: seq<Socket>): set<Socket> {
    set x | x in s
  }

  /** Every allocated port belongs to exactly one node that is not being freed, or is still to be released by
      the flow that is (`left`); m_active_alloc counts them. */
  ghost predicate PortsOk(nodes: map<Ptr, Node>, dying: set<Ptr>, left: set<Socket>, owner: map<Socket, Ptr>,
                          in_use: set<Socket>, active_alloc: int)
  {
    && active_alloc == |in_use|
    && left <= in_use
    && (forall p :: p in nodes && p !in dying ==> NoRepeats(Held(nodes[p])))
    && (forall p, s :: p in nodes && p !in dying && s in Held(nodes[p]) ==>
          s in in_use && s !in left && s in owner && owner[s] == p)
    && (forall s :: s in in_use && s !in left ==>
          s in owner && owner[s] in nodes && owner[s] !in dying && s in Held(nodes[owner[s]]))
  }

  // ----- NAT

  /** The table holds exactly the flows that wait for a translation; what the network has seen of a flow is
      what the flow knows it has sent. */
  ghost predicate NatOk(nodes: map<Ptr, Node>, dying: set<Ptr>, table: map<nat, Ptr>, wire: set<nat>, next_id: nat,
                        added: nat, removed: nat) {
    && added - removed == |table|
    && (forall f :: f in wire ==> f < next_id)
    && (forall f :: f in table ==>
          && table[f] in nodes && table[f] !in dying
          && nodes[table[f]].FlowPkt? && nodes[table[f]].is_nat && nodes[table[f]].info.id == f)
    && (forall p :: p in nodes && p !in dying && nodes[p].FlowPkt? && nodes[p].is_nat ==>
          nodes[p].info.id in table && table[nodes[p].info.id] == p && NatNodeOk(nodes[p], wire))
  }

  ghost predicate NatNodeOk(node: Node, wire: set<nat>)
    requires node.FlowPkt?
  {
    var t := node.info.template;
    && t.bi_dir && node.pkt <= |t.pkts|
    && (forall i :: 0 <= i < node.pkt ==> t.pkts[i].init_side)
    && match node.nat_bits
       case NoNat => false
       case NatFirst => node.pkt == 0 && node.info.id !in wire
       case NatWait => true
  }

  // ----- Packets

  datatype SentPkt = SentPkt(time: real, id: nat, pkt: nat)

  /** The packets of flow f that have left, in order. */
  ghost function SentOf(log: seq<SentPkt>, f: nat): seq<nat> {
    if log == [] then []
    else
      var last := log[|log| - 1];
      SentOf(log[..|log| - 1], f) + (if last.id == f then [last.pkt] else [])
  }

  function Succ(k: nat, n: nat): nat {
    if k + 1 == n then 0 else k + 1
  }

  /** 0, 1, ..., n-1, 0, 1, ... */
  ghost predicate Cyclic(s: seq<nat>, n: nat) {
    && n > 0
    && (s != [] ==> s[0] == 0)
    && forall i, j :: 0 <= i && j == i + 1 && j < |s| ==> s[j] == Succ(s[i], n)
  }

  /** The packet that comes after s. */
  function After(s: seq<nat>, n: nat): nat {
    if s == [] then 0 else Succ(s[|s| - 1], n)
  }

  /** When they left. */
  ghost function TimesOf(log: seq<SentPkt>, f: nat): (times: seq<real>)
    ensures |times| == |SentOf(log, f)|
  {
    if log == [] then []
    else
      var last := log[|log| - 1];
      TimesOf(log[..|log| - 1], f) + (if last.id == f then [last.time] else [])
  }

  /** The packet after packet k of a template comes after the gap of the capture, or else after the round-trip time
      when the other side is next, or else after the time between packets; a template starts over after its
      restart time. */
  ghost predicate ComesNext(t: Template, k: nat, time: real, next: real)
    requires k < |t.pkts|
  {
    if k + 1 == |t.pkts| then next == time + t.restart_time
    else if t.pkts[k].pcap_timing then next == time + t.pkts[k].cap_ipg
    else if t.pkts[k].is_rtt then next == time + t.rtt_sec
    else next == time + t.ipg_sec
  }

  /** The packets s of a flow have left at these times, each when it had to after the one before. */
  ghost predicate Paced(t: Template, s: seq<nat>, times: seq<real>) {
    && |s| == |times| && (forall i :: 0 <= i < |s| ==> s[i] < |t.pkts|)
    && forall i, j :: 0 <= i && j == i + 1 && j < |s| ==> ComesNext(t, s[i], times[i], times[j])
  }

  lemma GapComesNext(t: Template, k: nat, time: real)
    requires k + 1 < |t.pkts|
    ensures ComesNext(t, k, time, time + t.Gap(k))
  {
  }

  lemma PacedNext(t: Template, s: seq<nat>, times: seq<real>, k: nat, time: real)
    requires Paced(t, s, times) && k < |t.pkts|
    requires s != [] ==> ComesNext(t, s[|s| - 1], times[|s| - 1], time)
    ensures Paced(t, s + [k], times + [time])
  {
    hide ComesNext;
  }

  datatype FlowRecord = FlowRecord(info: FlowInfo, home: Ptr, ended: bool, timed_out: bool)

  /** A flow at packet k has sent exactly the packets before it; a flow of a template with a limit may also
      have gone through the template several times, and sends nothing once the run is being closed. */
  ghost predicate SentSoFar(log: seq<SentPkt>, node: Node, k: nat, clean: bool)
    requires node.FlowPkt?
  {
    var s, n := SentOf(log, node.info.id), |node.info.template.pkts|;
    && k <= n
    && Cyclic(s, n)
    && (node.is_nat || !node.info.template.repeat ==> s == Iota(k))
    && (!clean ==> After(s, n) == (if k == n then 0 else k))
    && Paced(node.info.template, s, TimesOf(log, node.info.id))
    && (!SendsNoMore(node, clean) ==> DueNow(s, TimesOf(log, node.info.id), node, k))
  }

  /** While the run is closed, a flow that may repeat has nothing more to send. */
  ghost predicate SendsNoMore(node: Node, clean: bool)
    requires node.FlowPkt?
  {
    clean && !node.is_nat && node.info.template.repeat
  }

  /** The node's time is that of the packet just sent, or when the next one comes after the last one sent. */
  ghost predicate DueNow(s: seq<nat>, times: seq<real>, node: Node, k: nat)
    requires node.FlowPkt? && |s| == |times| && forall i :: 0 <= i < |s| ==> s[i] < |node.info.template.pkts|
  {
    var last := |s| - 1;
    && (k == node.pkt + 1 ==> s != [] && s[last] == node.pkt && times[last] == node.m_time)
    && (k == node.pkt && s != [] ==> ComesNext(node.info.template, s[last], times[last], node.m_time))
  }

  /** A flow that is over. */
  ghost predicate SentAtEnd(log: seq<SentPkt>, f: FlowRecord) {
    var s, n := SentOf(log, f.info.id), |f.info.template.pkts|;
    && Cyclic(s, n)
    && Paced(f.info.template, s, TimesOf(log, f.info.id))
    && (f.timed_out ==> s == Iota(f.info.template.FirstResponder()))
    && (!f.timed_out && !f.info.template.repeat ==> s == Iota(n))
  }

  ghost predicate FlowsOk(nodes: map<Ptr, Node>, dying: set<Ptr>, sending: set<Ptr>, flows: map<nat, FlowRecord>,
                          log: seq<SentPkt>,
                          next_id: nat, clean: bool)
  {
    && next_id > 0 && (forall f :: f in flows <==> 0 < f < next_id)
    && (forall f :: f in flows ==> flows[f].info.id == f)
    && (forall p :: p in nodes && p !in dying && nodes[p].FlowPkt? ==>
          && nodes[p].info.id in flows && flows[nodes[p].info.id] == FlowRecord(nodes[p].info, p, false, false)
          && SentSoFar(log, nodes[p], nodes[p].pkt + (if p in sending then 1 else 0), clean))
    && (forall f :: f in flows && !flows[f].ended ==>
          && flows[f].home in nodes && flows[f].home !in dying
          && nodes[flows[f].home].FlowPkt? && nodes[flows[f].home].info.id == f)
    && (forall f :: f in flows && flows[f].ended ==> SentAtEnd(log, flows[f]))
    && (forall i :: 0 <= i < |log| ==> log[i].id in flows)
  }

  // ----- Time and kinds

  /** No packet, and nothing else but the release of ports, is scheduled in the past; what was sent is in
      order of time. */
  ghost predicate TimesOk(nodes: map<Ptr, Node>, clock: real, log: seq<SentPkt>) {
    && (forall p :: p in nodes && !nodes[p].DeferPort? ==> clock <= nodes[p].m_time)
    && (forall i :: 0 <= i < |log| ==> log[i].time <= clock)
    && (forall i, j :: 0 <= i < j < |log| ==> log[i].time <= log[j].time)
  }

  /** The nodes that are no flows: the one FLOW_SYNC node, the EXIT_SCHED node of the first pass, set to
      `horizon`, and the FLOW_FIF node that opens flows. */
  datatype Special = Special(sync: Ptr, exit: Option<Ptr>, fif: Option<Ptr>, horizon: real)

  ghost predicate KindsOk(nodes: map<Ptr, Node>, k: Special) {
    && k.sync in nodes && nodes[k.sync].FlowSync?
    && (forall p :: p in nodes && nodes[p].FlowSync? ==> p == k.sync)
    && (k.exit.Some? ==> k.exit.value in nodes && nodes[k.exit.value] == ExitSched(k.horizon))
    && (forall p :: p in nodes && nodes[p].ExitSched? ==> k.exit == Some(p))
    && (k.fif.Some? ==> k.fif.value in nodes && nodes[k.fif.value].FlowFif?)
    && (forall p :: p in nodes && nodes[p].FlowFif? ==> k.fif == Some(p))
  }

  /** When flows are opened next. */
  ghost function FifTime(nodes: map<Ptr, Node>, k: Special): Option<real> {
    if k.fif.Some? && k.fif.value in nodes then Some(nodes[k.fif.value].m_time) else None
  }

  /** A node waiting for more ports to release. */
  ghost predicate DeferOk(nodes: map<Ptr, Node>, dpc: Option<Ptr>) {
    dpc.Some? ==> dpc.value in nodes && nodes[dpc.value].DeferPort? && |nodes[dpc.value].entries| < DEFER_CLIENTS_NUM
  }

  /** Nodes may come and change, but only those that release ports. */
  ghost predicate OnlyDefers(nodes: map<Ptr, Node>, nodes': map<Ptr, Node>) {
    && (forall p :: p in nodes ==>
        p in nodes' && (if nodes[p].DeferPort? then nodes'[p].DeferPort? else nodes'[p] == nodes[p]))
    && (forall p :: p in nodes' && !nodes'[p].DeferPort? ==> p in nodes && nodes'[p] == nodes[p])
  }

  lemma DeferUntouched(nodes: map<Ptr, Node>, dpc: Option<Ptr>, p: Ptr, node: Node)
    requires DeferOk(nodes, dpc) && dpc != Some(p)
    ensures DeferOk(nodes[p := node], dpc)
  {
  }

  lemma DeferNodeFreed(nodes: map<Ptr, Node>, dpc: Option<Ptr>, p: Ptr)
    requires DeferOk(nodes, dpc) && dpc != Some(p)
    ensures DeferOk(nodes - {p}, dpc)
  {
  }

  lemma NodesChanged(nodes: map<Ptr, Node>, p: Ptr, node: Node)
    requires NodesOk(nodes) && NodeOk(node)
    ensures NodesOk(nodes[p := node])
  {
  }

  lemma NodesLess(nodes: map<Ptr, Node>, p: Ptr)
    requires NodesOk(nodes)
    ensures NodesOk(nodes - {p})
  {
  }

  lemma TimesUntouched(nodes: map<Ptr, Node>, clock: real, log: seq<SentPkt>, p: Ptr, node: Node)
    requires TimesOk(nodes, clock, log) && (!node.DeferPort? ==> clock <= node.m_time)
    ensures TimesOk(nodes[p := node], clock, log)
  {
  }

  lemma TimesNodeFreed(nodes: map<Ptr, Node>, clock: real, log: seq<SentPkt>, p: Ptr)
    requires TimesOk(nodes, clock, log)
    ensures TimesOk(nodes - {p}, clock, log)
  {
  }

  // ----- Work left: what makes the clean close end

  /** How often something that comes back every `period` can still come before the horizon. */
  function Ticks(time: real, horizon: real, period: real): nat
    requires period > 0.0
  {
    if time <= horizon then
      DivNonNegative(horizon - time, period);
      ((horizon - time) / period).Floor + 1
    else 0
  }

  /** How often a template with a limit can still start over. */
  function Cycles(t: Template, time: real, horizon: real): nat
    requires t.repeat ==> t.restart_time > 0.0
  {
    if t.repeat then Ticks(time, horizon, t.restart_time) else 0
  }

  lemma DivNonNegative(x: real, y: real)
    requires x >= 0.0 && y > 0.0
    ensures x / y >= 0.0
  {
  }

  function Product(c: nat, n: nat): nat { c * n }

  function Work(node: Node, horizon: real): nat
    requires NodeOk(node)
  {
    match node
    case FlowPkt(time, _, _, info, pkt) => Product(Cycles(info.template, time, horizon),
                                                   |info.template.pkts|) + |info.template.pkts| - pkt + 3
    case FlowSync(_) => 0
    case _ => 1
  }

  lemma DivGrows(x: real, x': real, y: real)
    requires x <= x' && y > 0.0
    ensures x / y <= x' / y
  {
    DivNonNegative(x' - x, y);
    assert x' / y == x / y + (x' - x) / y;
  }

  lemma {:induction false} ProductGrows(c: nat, c': nat, n: nat)
    requires c <= c'
    ensures Product(c, n) <= Product(c', n)
    ensures c < c' ==> Product(c, n) + n <= Product(c', n)
  {
    hide Product;
    if c < c' {
      ProductGrows(c, c' - 1, n);
      ProductNext(c' - 1, n);
    }
  }

  lemma ProductNext(c: nat, n: nat)
    ensures Product(c + 1, n) == Product(c, n) + n
  {
  }

  lemma DivMinusOne(x: real, y: real)
    requires y > 0.0
    ensures (x - y) / y == x / y - 1.0
  {
    var a := x / y - 1.0;
    assert a * y == x - y;
    assert a == a * y / y;
  }

  lemma TicksShrink(time: real, time': real, horizon: real, period: real)
    requires period > 0.0 && time <= time'
    ensures Ticks(time', horizon, period) <= Ticks(time, horizon, period)
  {
    if time' <= horizon {
      DivGrows(horizon - time', horizon - time, period);
    }
  }

  lemma TicksNext(time: real, horizon: real, period: real)
    requires period > 0.0 && time <= horizon
    ensures Ticks(time + period, horizon, period) < Ticks(time, horizon, period)
  {
    if time + period <= horizon {
      DivMinusOne(horizon - time, period);
    }
  }

  /** Moving on to the next packet uses up work, and so does starting over. */
  lemma WorkAdvances(node: Node, node': Node, horizon: real)
    requires NodeOk(node) && NodeOk(node') && node.FlowPkt? && node'.FlowPkt? && node'.info == node.info
    requires node'.pkt == node.pkt + 1 && node.m_time <= node'.m_time
    ensures Work(node', horizon) < Work(node, horizon)
  {
    hide Ticks, Product;
    if node.info.template.repeat {
      TicksShrink(node.m_time, node'.m_time, horizon, node.info.template.restart_time);
    }
    ProductGrows(Cycles(node.info.template, node'.m_time, horizon), Cycles(node.info.template, node.m_time, horizon),
                 |node.info.template.pkts|);
  }

  lemma WorkStartsOver(node: Node, node': Node, horizon: real)
    requires NodeOk(node) && NodeOk(node') && node.FlowPkt? && node'.FlowPkt? && node'.info == node.info
    requires node.info.template.repeat && node'.pkt == 0 && node.m_time <= horizon
    requires node'.m_time == node.m_time + node.info.template.restart_time
    ensures Work(node', horizon) < Work(node, horizon)
  {
    hide Ticks, Product;
    TicksNext(node.m_time, horizon, node.info.template.restart_time);
    ProductGrows(Cycles(node.info.template, node'.m_time, horizon), Cycles(node.info.template, node.m_time, horizon),
                 |node.info.template.pkts|);
  }

  ghost function TotalWork(nodes: map<Ptr, Node>, horizon: real): nat
    requires NodesOk(nodes)
    decreases |nodes|
  {
    if nodes == map[] then 0
    else
      var p :| p in nodes;
      RemovedKey(nodes, p);
      Work(nodes[p], horizon) + TotalWork(nodes - {p}, horizon)
  }

  lemma {:induction false} WorkWithout(nodes: map<Ptr, Node>, p: Ptr, horizon: real)
    requires NodesOk(nodes) && p in nodes
    ensures NodesOk(nodes - {p})
    ensures TotalWork(nodes, horizon) == Work(nodes[p], horizon) + TotalWork(nodes - {p}, horizon)
    decreases |nodes|
  {
    var q :| q in nodes && TotalWork(nodes, horizon) == Work(nodes[q], horizon) + TotalWork(nodes - {q}, horizon);
    if q != p {
      RemovedKey(nodes, p);
      RemovedKey(nodes, q);
      WorkWithout(nodes - {q}, p, horizon);
      WorkWithout(nodes - {p}, q, horizon);
      assert nodes - {q} - {p} == nodes - {p} - {q};
    }
  }

  lemma WorkChanged(nodes: map<Ptr, Node>, p: Ptr, node: Node, horizon: real)
    requires NodesOk(nodes) && NodeOk(node)
    ensures NodesOk(nodes[p := node])
    ensures TotalWork(nodes[p := node], horizon)
            == TotalWork(nodes, horizon) - (if p in nodes then Work(nodes[p], horizon) else 0) + Work(node, horizon)
  {
    WorkWithout(nodes[p := node], p, horizon);
    if p in nodes {
      WorkWithout(nodes, p, horizon);
      assert nodes[p := node] - {p} == nodes - {p};
    } else {
      assert nodes[p := node] - {p} == nodes;
    }
  }

  // ----- Operations on ports

  lemma PortAllocated(nodes: map<Ptr, Node>, dying: set<Ptr>, left: set<Socket>, owner: map<Socket, Ptr>,
                      in_use: set<Socket>, active: int, s: Socket)
    requires PortsOk(nodes, dying, left, owner, in_use, active) && s !in in_use
    ensures PortsOk(nodes, dying, left + {s}, owner, in_use + {s}, active + 1)
  {
  }

  lemma PortFreed(nodes: map<Ptr, Node>, dying: set<Ptr>, left: set<Socket>, owner: map<Socket, Ptr>,
                  in_use: set<Socket>, active: int, s: Socket)
    requires PortsOk(nodes, dying, left, owner, in_use, active) && s in left
    ensures PortsOk(nodes, dying, left - {s}, owner, in_use - {s}, active - 1)
  {
    assert in_use == (in_use - {s}) + {s};
  }

  /** Node p, new or not, takes over `extra`. */
  lemma PortsTaken(nodes: map<Ptr, Node>, dying: set<Ptr>, left: set<Socket>, owner: map<Socket, Ptr>,
                   in_use: set<Socket>, active: int,
                   p: Ptr, node: Node, extra: seq<Socket>)
    returns (owner': map<Socket, Ptr>)
    requires PortsOk(nodes, dying, left, owner, in_use, active) && p !in dying
    requires NoRepeats(extra) && forall s :: s in extra ==> s in left
    requires Held(node) == (if p in nodes then Held(nodes[p]) else []) + extra
    ensures PortsOk(nodes[p := node], dying, left - SetOf(extra), owner', in_use, active)
  {
    hide NodeOk, Held, NoRepeats;
    owner' := map s | s in owner.Keys + SetOf(extra) :: if s in extra then p else owner[s];
    var before := if p in nodes then Held(nodes[p]) else [];
    NoRepeatsOf([]);
    Appended(before, extra);
  }

  lemma NoRepeatsOf(none: seq<Socket>)
    requires none == []
    ensures NoRepeats(none)
  {
  }

  lemma Appended(before: seq<Socket>, extra: seq<Socket>)
    ensures forall s :: s in before + extra <==> s in before || s in extra
    ensures NoRepeats(before) && NoRepeats(extra) && (forall s :: s in extra ==> s !in before) ==>
            NoRepeats(before + extra)
  {
    var all := before + extra;
    if NoRepeats(before) && NoRepeats(extra) && forall s :: s in extra ==> s !in before {
      forall i, j | 0 <= i < j < |all| ensures all[i] != all[j] {
        if i < |before| <= j {
          assert before[i] in before && extra[j - |before|] in extra;
        }
      }
    }
  }

  /** The node changes, its ports do not. */
  lemma PortsUntouched(nodes: map<Ptr, Node>, dying: set<Ptr>, left: set<Socket>, owner: map<Socket, Ptr>,
                       in_use: set<Socket>, active: int,
                       p: Ptr, node: Node)
    requires PortsOk(nodes, dying, left, owner, in_use, active)
    requires Held(node) == (if p in nodes then Held(nodes[p]) else [])
    ensures PortsOk(nodes[p := node], dying, left, owner, in_use, active)
  {
  }

  lemma PortsLetGo(nodes: map<Ptr, Node>, owner: map<Socket, Ptr>, in_use: set<Socket>, active: int, p: Ptr)
    requires PortsOk(nodes, {}, {}, owner, in_use, active) && p in nodes
    ensures PortsOk(nodes, {p}, SetOf(Held(nodes[p])), owner, in_use, active)
  {
  }

  lemma PortsNodeFreed(nodes: map<Ptr, Node>, left: set<Socket>, owner: map<Socket, Ptr>, in_use: set<Socket>,
                       active: int, p: Ptr)
    requires PortsOk(nodes, {p}, left, owner, in_use, active)
    ensures PortsOk(nodes - {p}, {}, left, owner, in_use, active)
  {
  }

  // ----- Operations on the NAT table

  /** A node that is no waiting flow, before or after, does not matter to the table. */
  lemma NatUntouched(nodes: map<Ptr, Node>, dying: set<Ptr>, table: map<nat, Ptr>, wire: set<nat>, next: nat,
                     added: nat, removed: nat,
                     p: Ptr, node: Node)
    requires NatOk(nodes, dying, table, wire, next, added, removed)
    requires p in nodes ==> p in dying || !(nodes[p].FlowPkt? && nodes[p].is_nat)
    requires !(node.FlowPkt? && node.is_nat)
    ensures NatOk(nodes[p := node], dying, table, wire, next, added, removed)
  {
  }

  lemma NatAssociated(nodes: map<Ptr, Node>, table: map<nat, Ptr>, wire: set<nat>, next: nat, added: nat, removed: nat,
                      p: Ptr, node: Node)
    requires NatOk(nodes, {}, table, wire, next, added, removed)
    requires p !in nodes && node.FlowPkt? && node.is_nat && node.info.id == next
    requires node.nat_bits == NatFirst && node.pkt == 0 && node.info.template.bi_dir
    requires next !in table
    ensures NatOk(nodes[p := node], {}, table[next := p], wire, next + 1, added + 1, removed)
  {
    hide NatNodeOk;
    AddedKey(table, next, p);
    NatNewborn(node, wire);
  }

  lemma NatNewborn(node: Node, wire: set<nat>)
    requires node.FlowPkt? && node.info.template.bi_dir && node.nat_bits == NatFirst && node.pkt == 0
             && node.info.id !in wire
    ensures NatNodeOk(node, wire)
  {
  }

  lemma NatTableBelow(nodes: map<Ptr, Node>, flows: map<nat, FlowRecord>, table: map<nat, Ptr>, wire: set<nat>,
                      log: seq<SentPkt>,
                      next: nat, added: nat, removed: nat, clean: bool)
    requires NatOk(nodes, {}, table, wire, next, added, removed)
    requires FlowsOk(nodes, {}, {}, flows, log, next, clean)
    ensures next !in table
  {
  }

  lemma NatNextId(nodes: map<Ptr, Node>, table: map<nat, Ptr>, wire: set<nat>, next: nat, added: nat, removed: nat)
    requires NatOk(nodes, {}, table, wire, next, added, removed)
    ensures NatOk(nodes, {}, table, wire, next + 1, added, removed)
  {
  }

  lemma NatWaits(nodes: map<Ptr, Node>, table: map<nat, Ptr>, wire: set<nat>, next: nat, added: nat, removed: nat,
                 p: Ptr)
    requires NatOk(nodes, {}, table, wire, next, added, removed)
    requires p in nodes && nodes[p].FlowPkt? && nodes[p].is_nat
    ensures NatOk(nodes[p := nodes[p].(nat_bits := NatWait)], {}, table, wire, next, added, removed)
  {
  }

  /** A waiting flow moves on past an initiator packet. */
  lemma NatAdvances(nodes: map<Ptr, Node>, table: map<nat, Ptr>, wire: set<nat>, next: nat, added: nat, removed: nat,
                    p: Ptr, time: real)
    requires NatOk(nodes, {}, table, wire, next, added, removed)
    requires p in nodes && nodes[p].FlowPkt? && nodes[p].pkt < |nodes[p].info.template.pkts|
    requires nodes[p].is_nat ==> nodes[p].nat_bits == NatWait && nodes[p].info.template.pkts[nodes[p].pkt].init_side
    ensures NatOk(nodes[p := nodes[p].(m_time := time, pkt := nodes[p].pkt + 1)], {}, table, wire, next, added, removed)
  {
  }

  lemma WaitsOnWire(node: Node, wire: set<nat>)
    requires node.FlowPkt? && NatNodeOk(node, wire) && node.info.id in wire
    ensures node.nat_bits == NatWait
  {
  }

  lemma NatLearned(nodes: map<Ptr, Node>, table: map<nat, Ptr>, wire: set<nat>, next: nat, added: nat, removed: nat,
                   f: nat)
    requires NatOk(nodes, {}, table, wire, next, added, removed) && f in table && f in wire
    ensures table[f] in nodes && nodes[table[f]].FlowPkt? && nodes[table[f]].is_nat
            && nodes[table[f]].nat_bits == NatWait
    ensures NatOk(nodes[table[f] := nodes[table[f]].(is_nat := false)], {}, table - {f}, wire, next, added, removed + 1)
  {
    hide NatNodeOk;
    WaitsOnWire(nodes[table[f]], wire);
    RemovedKey(table, f);
  }

  lemma NatTimedOut(nodes: map<Ptr, Node>, table: map<nat, Ptr>, wire: set<nat>, next: nat, added: nat, removed: nat,
                    p: Ptr)
    requires NatOk(nodes, {}, table, wire, next, added, removed)
    requires p in nodes && nodes[p].FlowPkt? && nodes[p].is_nat
    ensures nodes[p].info.id in table
    ensures NatOk(nodes, {p}, table - {nodes[p].info.id}, wire, next, added, removed + 1)
  {
    RemovedKey(table, nodes[p].info.id);
  }

  lemma NatDying(nodes: map<Ptr, Node>, table: map<nat, Ptr>, wire: set<nat>, next: nat, added: nat, removed: nat,
                 p: Ptr)
    requires NatOk(nodes, {}, table, wire, next, added, removed)
    requires p in nodes && !(nodes[p].FlowPkt? && nodes[p].is_nat)
    ensures NatOk(nodes, {p}, table, wire, next, added, removed)
  {
  }

  lemma NatNodeFreed(nodes: map<Ptr, Node>, table: map<nat, Ptr>, wire: set<nat>, next: nat, added: nat, removed: nat,
                     p: Ptr)
    requires NatOk(nodes, {p}, table, wire, next, added, removed)
    ensures NatOk(nodes - {p}, {}, table, wire, next, added, removed)
  {
  }

  /** A waiting flow never reaches its last packet as the initiator: a responder packet stops it first. */
  lemma WaitingMeetsResponder(node: Node, wire: set<nat>)
    requires NodeOk(node) && node.FlowPkt? && node.is_nat && NatNodeOk(node, wire)
    requires node.info.template.pkts[node.pkt].init_side
    ensures node.pkt + 1 < |node.info.template.pkts|
  {
    var t := node.info.template;
    var r :| 0 <= r < |t.pkts| && !t.pkts[r].init_side;
    assert r > node.pkt;
  }

  lemma {:induction false} FirstResponderIs(t: Template, from: nat, r: nat)
    requires from <= r < |t.pkts| && !t.pkts[r].init_side
    requires forall i :: from <= i < r ==> t.pkts[i].init_side
    ensures t.FirstResponder(from) == r
    decreases r - from
  {
    if from < r {
      FirstResponderIs(t, from + 1, r);
    }
  }

  // ----- Operations on flows

  lemma SentMore(log: seq<SentPkt>, e: SentPkt, f: nat)
    ensures SentOf(log + [e], f) == (if e.id == f then SentOf(log, f) + [e.pkt] else SentOf(log, f))
    ensures TimesOf(log + [e], f) == (if e.id == f then TimesOf(log, f) + [e.time] else TimesOf(log, f))
  {
    assert (log + [e])[..|log|] == log;
  }

  /** What had left earlier is the beginning of what has left. */
  lemma {:induction false} SentOfPrefix(log: seq<SentPkt>, i: nat, f: nat)
    requires i <= |log|
    ensures SentOf(log[..i], f) <= SentOf(log, f) && TimesOf(log[..i], f) <= TimesOf(log, f)
  {
    if i == |log| {
      assert log[..i] == log;
    } else {
      assert log[..|log| - 1][..i] == log[..i];
      SentOfPrefix(log[..|log| - 1], i, f);
    }
  }

  /** Entry i of the log is as many packets into its flow as the flow had sent before. */
  lemma EntryIsSent(log: seq<SentPkt>, i: nat)
    requires i < |log|
    ensures var f, e := log[i].id, log[i];
            var n := |SentOf(log[..i], f)|;
            && n < |SentOf(log, f)| && SentOf(log, f)[n] == e.pkt && TimesOf(log, f)[n] == e.time
            && |SentOf(log[..i + 1], f)| == n + 1
  {
    assert log[..i + 1] == log[..i] + [log[i]];
    SentMore(log[..i], log[i], log[i].id);
    SentOfPrefix(log, i + 1, log[i].id);
  }

  lemma {:induction false} NothingBetween(log: seq<SentPkt>, i: nat, j: nat, f: nat)
    requires i <= j <= |log| && forall l :: i <= l < j ==> log[l].id != f
    ensures SentOf(log[..j], f) == SentOf(log[..i], f)
  {
    if i < j {
      NothingBetween(log, i, j - 1, f);
      assert log[..j] == log[..j - 1] + [log[j - 1]];
      SentMore(log[..j - 1], log[j - 1], f);
    }
  }

  /** Entries i and j of the log are of one flow, with none of that flow between. */
  ghost predicate NextOfFlow(log: seq<SentPkt>, i: nat, j: nat) {
    && i < j < |log| && log[i].id == log[j].id
    && forall l :: i < l < j ==> log[l].id != log[i].id
  }

  /** One packet after another, and at the time it had to. */
  lemma GapIsKept(log: seq<SentPkt>, t: Template, i: nat, j: nat)
    requires NextOfFlow(log, i, j)
    requires Cyclic(SentOf(log, log[i].id), |t.pkts|) && Paced(t, SentOf(log, log[i].id), TimesOf(log, log[i].id))
    ensures log[i].pkt < |t.pkts| && log[j].pkt == Succ(log[i].pkt, |t.pkts|)
    ensures ComesNext(t, log[i].pkt, log[i].time, log[j].time)
  {
    hide ComesNext;
    EntryIsSent(log, i);
    EntryIsSent(log, j);
    NothingBetween(log, i + 1, j, log[i].id);
  }

  /** A flow sends its current packet. */
  lemma FlowSends(nodes: map<Ptr, Node>, flows: map<nat, FlowRecord>, log: seq<SentPkt>, next: nat, clean: bool, p: Ptr)
    requires NodesOk(nodes) && FlowsOk(nodes, {}, {}, flows, log, next, clean)
    requires p in nodes && nodes[p].FlowPkt? && (clean ==> nodes[p].is_nat || !nodes[p].info.template.repeat)
    ensures FlowsOk(nodes, {}, {p}, flows, log + [SentPkt(nodes[p].m_time, nodes[p].info.id, nodes[p].pkt)], next,
                    clean)
  {
    hide SentSoFar, SentAtEnd, NodeOk;
    var e := SentPkt(nodes[p].m_time, nodes[p].info.id, nodes[p].pkt);
    var log' := log + [e];
    forall q | q in nodes && nodes[q].FlowPkt?
      ensures SentSoFar(log', nodes[q], nodes[q].pkt + (if q in {p} then 1 else 0), clean)
    {
      if q == p {
        SendsNext(log, nodes[p], clean);
      } else {
        assert flows[nodes[q].info.id].home == q && flows[e.id].home == p;
        OthersStay(log, e, nodes[q], nodes[q].pkt, clean);
      }
    }
    forall f | f in flows && flows[f].ended ensures SentAtEnd(log', flows[f]) {
      EndedStays(log, e, flows[f]);
    }
  }

  lemma OthersStay(log: seq<SentPkt>, e: SentPkt, node: Node, k: nat, clean: bool)
    requires node.FlowPkt? && SentSoFar(log, node, k, clean) && e.id != node.info.id
    ensures SentSoFar(log + [e], node, k, clean)
  {
    SentMore(log, e, node.info.id);
  }

  lemma EndedStays(log: seq<SentPkt>, e: SentPkt, f: FlowRecord)
    requires SentAtEnd(log, f) && e.id != f.info.id
    ensures SentAtEnd(log + [e], f)
  {
    SentMore(log, e, f.info.id);
  }

  lemma CycleNext(s: seq<nat>, n: nat, k: nat)
    requires Cyclic(s, n) && k == After(s, n)
    ensures Cyclic(s + [k], n) && After(s + [k], n) == Succ(k, n)
  {
  }

  lemma SendsNext(log: seq<SentPkt>, node: Node, clean: bool)
    requires NodeOk(node) && node.FlowPkt? && SentSoFar(log, node, node.pkt, clean)
    requires clean ==> node.is_nat || !node.info.template.repeat
    ensures SentSoFar(log + [SentPkt(node.m_time, node.info.id, node.pkt)], node, node.pkt + 1, clean)
  {
    var s, n := SentOf(log, node.info.id), |node.info.template.pkts|;
    SentMore(log, SentPkt(node.m_time, node.info.id, node.pkt), node.info.id);
    CycleNext(s, n, node.pkt);
    PacedNext(node.info.template, s, TimesOf(log, node.info.id), node.pkt, node.m_time);
    assert Iota(node.pkt) + [node.pkt] == Iota(node.pkt + 1);
  }

  lemma PositionIsFree(log: seq<SentPkt>, node: Node, node': Node, k: nat)
    requires node.FlowPkt? && SentSoFar(log, node, k, true) && SendsNoMore(node, true)
    requires node'.FlowPkt? && node'.info == node.info && !node'.is_nat && node'.pkt <= |node.info.template.pkts|
    ensures SentSoFar(log, node', node'.pkt, true)
  {
  }

  /** What one flow does is nothing to the others. */
  lemma FlowMoves(nodes: map<Ptr, Node>, sending: set<Ptr>, sending': set<Ptr>, flows: map<nat, FlowRecord>,
                  log: seq<SentPkt>, next: nat, clean: bool, p: Ptr, node: Node)
    requires FlowsOk(nodes, {}, sending, flows, log, next, clean) && sending - {p} == sending' - {p}
    requires p in nodes && nodes[p].FlowPkt? && node.FlowPkt? && node.info == nodes[p].info
    requires SentSoFar(log, node, node.pkt + (if p in sending' then 1 else 0), clean)
    ensures FlowsOk(nodes[p := node], {}, sending', flows, log, next, clean)
  {
    hide SentAtEnd, SentSoFar;
    forall q | q in nodes && q != p ensures q in sending <==> q in sending' {
      assert q in sending <==> q in sending - {p};
      assert q in sending' <==> q in sending' - {p};
    }
  }

  lemma SentByOne(nodes: map<Ptr, Node>, sending: set<Ptr>, flows: map<nat, FlowRecord>, log: seq<SentPkt>, next: nat,
                  clean: bool, p: Ptr)
    requires FlowsOk(nodes, {}, sending, flows, log, next, clean) && p in nodes && nodes[p].FlowPkt?
    ensures SentSoFar(log, nodes[p], nodes[p].pkt + (if p in sending then 1 else 0), clean)
  {
    hide SentAtEnd, SentSoFar;
  }

  lemma StaysPaced(log: seq<SentPkt>, node: Node, clean: bool, time: real)
    requires node.FlowPkt? && node.pkt + 1 < |node.info.template.pkts|
    requires SentSoFar(log, node, node.pkt + 1, clean) && ComesNext(node.info.template, node.pkt, node.m_time, time)
    ensures SentSoFar(log, node.(m_time := time, pkt := node.pkt + 1), node.pkt + 1, clean)
  {
    hide Paced, Cyclic, ComesNext;
  }

  lemma StartsOverPaced(log: seq<SentPkt>, node: Node, time: real)
    requires node.FlowPkt? && node.pkt + 1 == |node.info.template.pkts| && node.info.template.repeat && !node.is_nat
    requires SentSoFar(log, node, node.pkt + 1, false) && time == node.m_time + node.info.template.restart_time
    ensures SentSoFar(log, node.(m_time := time, pkt := 0), 0, false)
  {
    hide Paced, Cyclic;
  }

  lemma FlowAdvances(nodes: map<Ptr, Node>, sending: set<Ptr>, flows: map<nat, FlowRecord>, log: seq<SentPkt>,
                     next: nat, clean: bool, p: Ptr, time: real)
    requires FlowsOk(nodes, {}, sending, flows, log, next, clean)
    requires p in nodes && nodes[p].FlowPkt? && nodes[p].pkt + 1 < |nodes[p].info.template.pkts|
    requires sending == {p} || (sending == {} && SendsNoMore(nodes[p], clean))
    requires ComesNext(nodes[p].info.template, nodes[p].pkt, nodes[p].m_time, time)
    ensures FlowsOk(nodes[p := nodes[p].(m_time := time, pkt := nodes[p].pkt + 1)], {}, {}, flows, log, next, clean)
  {
    hide FlowsOk, SentAtEnd, SentSoFar, ComesNext;
    SentByOne(nodes, sending, flows, log, next, clean, p);
    if sending == {} {
      var node := nodes[p].(m_time := time, pkt := nodes[p].pkt + 1);
      PositionIsFree(log, nodes[p], node, nodes[p].pkt);
    } else {
      StaysPaced(log, nodes[p], clean, time);
    }
    FlowMoves(nodes, sending, {}, flows, log, next, clean, p, nodes[p].(m_time := time, pkt := nodes[p].pkt + 1));
  }

  /** A flow of a template with a limit starts over. */
  lemma FlowStartsOver(nodes: map<Ptr, Node>, flows: map<nat, FlowRecord>, log: seq<SentPkt>, next: nat, p: Ptr,
                       time: real)
    requires FlowsOk(nodes, {}, {p}, flows, log, next, false)
    requires p in nodes && nodes[p].FlowPkt? && nodes[p].pkt + 1 == |nodes[p].info.template.pkts|
    requires nodes[p].info.template.repeat && !nodes[p].is_nat
    requires time == nodes[p].m_time + nodes[p].info.template.restart_time
    ensures FlowsOk(nodes[p := nodes[p].(m_time := time, pkt := 0)], {}, {}, flows, log, next, false)
  {
    hide FlowsOk, SentSoFar;
    SentByOne(nodes, {p}, flows, log, next, false, p);
    StartsOverPaced(log, nodes[p], time);
    FlowMoves(nodes, {p}, {}, flows, log, next, false, p, nodes[p].(m_time := time, pkt := 0));
  }

  /** The learn-mode state may change, as long as the flow does not become a waiting one. */
  lemma FlowStateChanges(nodes: map<Ptr, Node>, sending: set<Ptr>, flows: map<nat, FlowRecord>, log: seq<SentPkt>,
                         next: nat, clean: bool, p: Ptr,
                         is_nat: bool, bits: NatState)
    requires FlowsOk(nodes, {}, sending, flows, log, next, clean)
    requires p in nodes && nodes[p].FlowPkt? && (is_nat ==> nodes[p].is_nat)
    ensures FlowsOk(nodes[p := nodes[p].(is_nat := is_nat, nat_bits := bits)], {}, sending, flows, log, next, clean)
  {
    hide FlowsOk, SentSoFar;
    SentByOne(nodes, sending, flows, log, next, clean, p);
    StateKeepsPace(log, nodes[p], nodes[p].pkt + (if p in sending then 1 else 0), clean, is_nat, bits);
    FlowMoves(nodes, sending, sending, flows, log, next, clean, p, nodes[p].(is_nat := is_nat, nat_bits := bits));
  }

  lemma StateKeepsPace(log: seq<SentPkt>, node: Node, k: nat, clean: bool, is_nat: bool, bits: NatState)
    requires node.FlowPkt? && SentSoFar(log, node, k, clean) && (is_nat ==> node.is_nat)
    ensures SentSoFar(log, node.(is_nat := is_nat, nat_bits := bits), k, clean)
  {
    hide Paced, Cyclic;
  }

  lemma FlowsUntouched(nodes: map<Ptr, Node>, dying: set<Ptr>, sending: set<Ptr>, flows: map<nat, FlowRecord>,
                       log: seq<SentPkt>, next: nat, clean: bool,
                       p: Ptr, node: Node)
    requires FlowsOk(nodes, dying, sending, flows, log, next, clean)
    requires !node.FlowPkt? && (p in nodes ==> !nodes[p].FlowPkt?)
    ensures FlowsOk(nodes[p := node], dying, sending, flows, log, next, clean)
  {
    hide SentAtEnd, SentSoFar, Template.FirstResponder;
  }

  lemma {:induction false} UnknownSentNothing(log: seq<SentPkt>, f: nat)
    requires forall i :: 0 <= i < |log| ==> log[i].id != f
    ensures SentOf(log, f) == []
  {
    if log != [] {
      UnknownSentNothing(log[..|log| - 1], f);
    }
  }

  lemma FlowStarts(nodes: map<Ptr, Node>, flows: map<nat, FlowRecord>, log: seq<SentPkt>, next: nat, clean: bool,
                   p: Ptr, node: Node)
    requires FlowsOk(nodes, {}, {}, flows, log, next, clean)
    requires p !in nodes && NodeOk(node) && node.FlowPkt? && node.info.id == next && node.pkt == 0
    ensures FlowsOk(nodes[p := node], {}, {}, flows[next := FlowRecord(node.info, p, false, false)], log, next + 1,
                    clean)
  {
    hide SentAtEnd, Template.FirstResponder, Template.Legal;
    UnknownSentNothing(log, next);
    assert Iota(0) == [];
    assert SentSoFar(log, node, 0, clean);
  }

  ghost function Ended(f: FlowRecord, timed_out: bool): FlowRecord {
    f.(ended := true, timed_out := timed_out)
  }

  /** The last packet of the flow has left, or the run is closed on a flow that may repeat. */
  lemma FlowEnds(nodes: map<Ptr, Node>, sending: set<Ptr>, flows: map<nat, FlowRecord>, log: seq<SentPkt>, next: nat,
                 clean: bool, p: Ptr)
    requires FlowsOk(nodes, {}, sending, flows, log, next, clean)
    requires p in nodes && nodes[p].FlowPkt? && nodes[p].pkt + 1 == |nodes[p].info.template.pkts|
    requires sending == {p} || (sending == {} && SendsNoMore(nodes[p], clean))
    ensures nodes[p].info.id in flows
    ensures FlowsOk(nodes, {p}, {}, flows[nodes[p].info.id := Ended(flows[nodes[p].info.id], false)], log, next, clean)
  {
    hide SentSoFar, SentAtEnd, SendsNoMore, Template.FirstResponder;
    AllIsSent(log, nodes[p], if sending == {p} then nodes[p].pkt + 1 else nodes[p].pkt, clean, p);
  }

  lemma AllIsSent(log: seq<SentPkt>, node: Node, k: nat, clean: bool, home: Ptr)
    requires node.FlowPkt? && SentSoFar(log, node, k, clean)
    requires k == |node.info.template.pkts| || SendsNoMore(node, clean)
    ensures SentAtEnd(log, Ended(FlowRecord(node.info, home, false, false), false))
  {
    hide Template.FirstResponder;
  }

  /** A flow still waiting for its translation at its first responder packet is given up. */
  lemma FlowTimesOut(nodes: map<Ptr, Node>, flows: map<nat, FlowRecord>, log: seq<SentPkt>, next: nat, clean: bool,
                     p: Ptr, wire: set<nat>)
    requires FlowsOk(nodes, {}, {}, flows, log, next, clean)
    requires p in nodes && nodes[p].FlowPkt? && nodes[p].is_nat && NatNodeOk(nodes[p], wire)
             && nodes[p].pkt < |nodes[p].info.template.pkts|
    requires !nodes[p].info.template.pkts[nodes[p].pkt].init_side
    ensures nodes[p].info.id in flows
    ensures FlowsOk(nodes, {p}, {}, flows[nodes[p].info.id := Ended(flows[nodes[p].info.id], true)], log, next, clean)
  {
    hide FlowsOk, SentSoFar, SentAtEnd;
    SentByOne(nodes, {}, flows, log, next, clean, p);
    StopsShort(log, nodes[p], clean, p);
    FlowIsOver(nodes, {}, flows, log, next, clean, p, true);
  }

  lemma StopsShort(log: seq<SentPkt>, node: Node, clean: bool, home: Ptr)
    requires node.FlowPkt? && node.is_nat && SentSoFar(log, node, node.pkt, clean)
    requires node.pkt < |node.info.template.pkts| && !node.info.template.pkts[node.pkt].init_side
    requires forall i :: 0 <= i < node.pkt ==> node.info.template.pkts[i].init_side
    ensures SentAtEnd(log, Ended(FlowRecord(node.info, home, false, false), true))
  {
    hide Paced, Cyclic, DueNow;
    FirstResponderIs(node.info.template, 0, node.pkt);
  }

  lemma FlowIsOver(nodes: map<Ptr, Node>, sending: set<Ptr>, flows: map<nat, FlowRecord>, log: seq<SentPkt>,
                   next: nat, clean: bool, p: Ptr, timed_out: bool)
    requires FlowsOk(nodes, {}, sending, flows, log, next, clean) && sending <= {p}
    requires p in nodes && nodes[p].FlowPkt?
    requires SentAtEnd(log, Ended(FlowRecord(nodes[p].info, p, false, false), timed_out))
    ensures nodes[p].info.id in flows
    ensures FlowsOk(nodes, {p}, {}, flows[nodes[p].info.id := Ended(flows[nodes[p].info.id], timed_out)], log, next,
                    clean)
  {
    hide SentSoFar, SentAtEnd;
  }

  lemma FlowNodeFreed(nodes: map<Ptr, Node>, flows: map<nat, FlowRecord>, log: seq<SentPkt>, next: nat, clean: bool,
                      p: Ptr)
    requires FlowsOk(nodes, {p}, {}, flows, log, next, clean)
    ensures FlowsOk(nodes - {p}, {}, {}, flows, log, next, clean)
  {
    hide SentAtEnd, SentSoFar, Template.FirstResponder;
  }

  lemma FlowDying(nodes: map<Ptr, Node>, flows: map<nat, FlowRecord>, log: seq<SentPkt>, next: nat, clean: bool, p: Ptr)
    requires FlowsOk(nodes, {}, {}, flows, log, next, clean)
    requires p in nodes && !nodes[p].FlowPkt?
    ensures FlowsOk(nodes, {p}, {}, flows, log, next, clean)
  {
    hide SentAtEnd, SentSoFar, Template.FirstResponder;
  }

  lemma FlowsClosing(nodes: map<Ptr, Node>, flows: map<nat, FlowRecord>, log: seq<SentPkt>, next: nat)
    requires FlowsOk(nodes, {}, {}, flows, log, next, false)
    ensures FlowsOk(nodes, {}, {}, flows, log, next, true)
  {
    hide SentAtEnd, Template.FirstResponder;
  }

  // ----- Operations on time

  ghost predicate Earliest(nodes: map<Ptr, Node>, p: Ptr) {
    p in nodes && forall q :: q in nodes && !nodes[q].DeferPort? ==> nodes[p].m_time <= nodes[q].m_time
  }

  /** The earliest node sends: time moves on to it. */
  lemma TimesSent(nodes: map<Ptr, Node>, clock: real, log: seq<SentPkt>, p: Ptr, e: SentPkt)
    requires TimesOk(nodes, clock, log) && Earliest(nodes, p) && !nodes[p].DeferPort? && e.time == nodes[p].m_time
    ensures TimesOk(nodes, nodes[p].m_time, log + [e])
  {
  }

  /** The first packet has left: the network may answer from now on. */
  lemma NatSeen(nodes: map<Ptr, Node>, table: map<nat, Ptr>, wire: set<nat>, next: nat, added: nat, removed: nat,
                p: Ptr)
    requires NatOk(nodes, {}, table, wire, next, added, removed)
    requires p in nodes && nodes[p].FlowPkt? && nodes[p].is_nat && nodes[p].nat_bits == NatWait
             && nodes[p].info.id < next
    ensures NatOk(nodes, {}, table, wire + {nodes[p].info.id}, next, added, removed)
  {
  }

  lemma KindsKept(nodes: map<Ptr, Node>, nodes': map<Ptr, Node>, k: Special)
    requires KindsOk(nodes, k) && OnlyDefers(nodes, nodes')
    ensures KindsOk(nodes', k) && FifTime(nodes', k) == FifTime(nodes, k)
  {
  }

  lemma KindsWithout(nodes: map<Ptr, Node>, k: Special, p: Ptr)
    requires KindsOk(nodes, k) && p in nodes && !nodes[p].FlowSync? && !nodes[p].ExitSched? && !nodes[p].FlowFif?
    ensures KindsOk(nodes - {p}, k) && FifTime(nodes - {p}, k) == FifTime(nodes, k)
  {
  }

  lemma KindsChanged(nodes: map<Ptr, Node>, k: Special, p: Ptr, node: Node)
    requires KindsOk(nodes, k) && !node.ExitSched?
    requires if p in nodes
             then node.FlowSync? == nodes[p].FlowSync? && node.FlowFif? == nodes[p].FlowFif? && !nodes[p].ExitSched?
             else !node.FlowSync? && !node.FlowFif?
    ensures KindsOk(nodes[p := node], k)
    ensures !node.FlowFif? ==> FifTime(nodes[p := node], k) == FifTime(nodes, k)
  {
  }

  lemma FifMoves(nodes: map<Ptr, Node>, k: Special, p: Ptr, time: real)
    requires KindsOk(nodes, k) && p in nodes && nodes[p].FlowFif?
    ensures FifTime(nodes, k) == Some(nodes[p].m_time) && FifTime(nodes[p := FlowFif(time)], k) == Some(time)
  {
  }

  lemma FifGone(nodes: map<Ptr, Node>, k: Special, p: Ptr)
    requires KindsOk(nodes, k) && p in nodes && nodes[p].FlowFif?
    ensures KindsOk(nodes - {p}, k.(fif := None)) && FifTime(nodes, k) == Some(nodes[p].m_time)
  {
  }

  /** How often flows can still be opened before the horizon. */
  ghost function FifTicks(nodes: map<Ptr, Node>, k: Special, d_time: real): nat
    requires d_time > 0.0
  {
    var time := FifTime(nodes, k);
    if time.Some? then Ticks(time.value, k.horizon, d_time) else 0
  }

  ghost function SyncTicks(nodes: map<Ptr, Node>, k: Special): nat {
    if k.sync in nodes then Ticks(nodes[k.sync].m_time, k.horizon, SYNC_TIME_OUT) else 0
  }

  lemma OnlyDefersChain(a: map<Ptr, Node>, b: map<Ptr, Node>, c: map<Ptr, Node>)
    requires OnlyDefers(a, b) && OnlyDefers(b, c)
    ensures OnlyDefers(a, c)
  {
  }

  lemma OnlyDefersWithout(a: map<Ptr, Node>, b: map<Ptr, Node>, p: Ptr)
    requires OnlyDefers(a, b) && p in a && !a[p].DeferPort?
    ensures OnlyDefers(a - {p}, b - {p})
  {
  }
}
