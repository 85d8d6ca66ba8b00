/** The packet scheduler of one thread: it takes the earliest node, does what the node stands for, and puts it
    back or frees it; the ports of finished flows are released in batches, and flows behind a NAT wait for
    their translation. */
module Scheduler {
  import opened FlowNodes
  import opened Basics
  import NatBatch
  import Policer
  import PriorityQueue

  // ----- The queue over the nodes

  /** The queue holds every node but the parked ones, once each, earliest first. */
  ghost predicate QueueOk(nodes: map<Ptr, Node>, q: seq<Ptr>, parked: set<Ptr>) {
    && PriorityQueue.IsHeap(q, Times(nodes))
    && multiset(q) == multiset(nodes.Keys - parked)
  }

  lemma QueuePushed(nodes: map<Ptr, Node>, q: seq<Ptr>, parked: set<Ptr>, p: Ptr, r: seq<Ptr>)
    requires QueueOk(nodes, q, parked) && p in parked && p in nodes
    requires PriorityQueue.IsHeap(r, Times(nodes)) && multiset(r) == multiset(q) + multiset{p}
    ensures QueueOk(nodes, r, parked - {p})
  {
    assert nodes.Keys - (parked - {p}) == (nodes.Keys - parked) + {p};
  }

  lemma QueueTop(nodes: map<Ptr, Node>, q: seq<Ptr>, parked: set<Ptr>)
    requires QueueOk(nodes, q, parked) && q != []
    ensures q[0] in nodes && q[0] !in parked
    ensures forall p :: p in nodes && p !in parked ==> nodes[q[0]].m_time <= nodes[p].m_time
    ensures PriorityQueue.IsHeapBelowRoot(q, Times(nodes))
  {
    assert q[0] in multiset(q);
    forall p | p in nodes && p !in parked ensures nodes[q[0]].m_time <= nodes[p].m_time {
      assert p in multiset(q);
      var i :| 0 <= i < |q| && q[i] == p;
      PriorityQueue.RootIsEarliest(q, Times(nodes), i);
    }
    PriorityQueue.RaisedRoot(q, Times(nodes), Times(nodes));
  }

  lemma QueuePopped(nodes: map<Ptr, Node>, q: seq<Ptr>, parked: set<Ptr>, r: seq<Ptr>)
    requires QueueOk(nodes, q, parked) && q != []
    requires PriorityQueue.IsHeap(r, Times(nodes)) && multiset(r) == multiset(q) - multiset{q[0]}
    ensures QueueOk(nodes, r, parked + {q[0]})
  {
    QueueTop(nodes, q, parked);
    assert nodes.Keys - (parked + {q[0]}) == (nodes.Keys - parked) - {q[0]};
  }

  /** A node that is not queued may be new or change. */
  lemma QueueUntouched(nodes: map<Ptr, Node>, q: seq<Ptr>, parked: set<Ptr>, p: Ptr, node: Node)
    requires QueueOk(nodes, q, parked) && (p in nodes ==> p in parked || node.m_time == nodes[p].m_time)
    ensures QueueOk(nodes[p := node], q, if p in nodes then parked else parked + {p})
  {
    var nodes' := nodes[p := node];
    var parked' := if p in nodes then parked else parked + {p};
    assert nodes'.Keys - parked' == nodes.Keys - parked;
    forall i | 0 <= i < |q| ensures q[i] in nodes && Times(nodes')[q[i]] == Times(nodes)[q[i]] {
      assert q[i] in multiset(q);
    }
    PriorityQueue.SameKeys(q, Times(nodes), Times(nodes'));
  }

  lemma QueueNodeFreed(nodes: map<Ptr, Node>, q: seq<Ptr>, parked: set<Ptr>, p: Ptr)
    requires QueueOk(nodes, q, parked) && p in parked
    ensures QueueOk(nodes - {p}, q, parked - {p})
  {
    var nodes' := nodes - {p};
    assert nodes'.Keys - (parked - {p}) == nodes.Keys - parked;
    forall i | 0 <= i < |q| ensures q[i] in nodes' && Times(nodes')[q[i]] == Times(nodes)[q[i]] {
      assert q[i] in multiset(q);
    }
    PriorityQueue.SameKeys(q, Times(nodes), Times(nodes'));
  }

  lemma QueueSize(nodes: map<Ptr, Node>, q: seq<Ptr>, parked: set<Ptr>)
    requires QueueOk(nodes, q, parked)
    ensures |q| == |nodes.Keys - parked|
    ensures q == [] <==> nodes.Keys <= parked
  {
    assert |q| == |multiset(q)| == |multiset(nodes.Keys - parked)| == |nodes.Keys - parked|;
    if nodes.Keys <= parked {
      assert nodes.Keys - parked == {};
    } else {
      var p :| p in nodes.Keys && p !in parked;
      assert p in nodes.Keys - parked;
    }
  }

  lemma {:induction false} SomePtrIsFree(nodes: map<Ptr, Node>) returns (p: Ptr)
    ensures forall q :: q in nodes ==> q < p
    decreases |nodes|
  {
    if nodes == map[] {
      p := 0;
    } else {
      var q :| q in nodes;
      RemovedKey(nodes, q);
      var r := SomePtrIsFree(nodes - {q});
      p := if r <= q then q + 1 else r;
      forall x | x in nodes ensures x < p {
        if x != q {
          assert x in nodes - {q};
        }
      }
    }
  }

  /** Where one event stands: the nodes in hand, the node that has just sent its packet, the node being freed,
      and the ports still to be released or given to a node. */
  datatype Phase = Phase(hand: set<Ptr>, sending: set<Ptr>, dying: set<Ptr>, left: set<Socket>)

  const REST := Phase({}, {}, {}, {})

  function Holding(p: Ptr): Phase { Phase({p}, {}, {}, {}) }

  /** All that the invariant speaks of. */
  datatype Core = Core(
    nodes: map<Ptr, Node>, queue: seq<Ptr>, tcp_dpc: Option<Ptr>, udp_dpc: Option<Ptr>,
    table: map<nat, Ptr>, added: nat, removed: nat, wire: set<nat>, next_id: nat,
    in_use: set<Socket>, active: int, owner: map<Socket, Ptr>,
    flows: map<nat, FlowRecord>, log: seq<SentPkt>, clock: real, clean: bool)
  {
    ghost function Dpcs(): set<Ptr> {
      (if tcp_dpc.Some? then {tcp_dpc.value} else {}) + (if udp_dpc.Some? then {udp_dpc.value} else {})
    }

    ghost predicate Ok(ph: Phase) {
      && NodesOk(nodes)
      && ph.hand <= nodes.Keys && Dpcs() !! ph.hand
      && QueueOk(nodes, queue, ph.hand + Dpcs())
      && DeferOk(nodes, tcp_dpc) && DeferOk(nodes, udp_dpc) && (tcp_dpc.Some? ==> tcp_dpc != udp_dpc)
      && PortsOk(nodes, ph.dying, ph.left, owner, in_use, active)
      && NatOk(nodes, ph.dying, table, wire, next_id, added, removed)
      && FlowsOk(nodes, ph.dying, ph.sending, flows, log, next_id, clean)
      && TimesOk(nodes, clock, log)
    }

    function Dpc(is_tcp: bool): Option<Ptr> {
      if is_tcp then tcp_dpc else udp_dpc
    }

    function WithDpc(is_tcp: bool, d: Option<Ptr>): Core {
      if is_tcp then this.(tcp_dpc := d) else this.(udp_dpc := d)
    }
  }

  // ----- The steps of an event keep it

  lemma Pushed(c: Core, ph: Phase, p: Ptr, q: seq<Ptr>)
    requires c.Ok(ph) && p in ph.hand
    requires PriorityQueue.IsHeap(q, Times(c.nodes)) && multiset(q) == multiset(c.queue) + multiset{p}
    ensures c.(queue := q).Ok(ph.(hand := ph.hand - {p}))
  {
    hide NodesOk, QueueOk, DeferOk, PortsOk, NatOk, FlowsOk, TimesOk;
    QueuePushed(c.nodes, c.queue, ph.hand + c.Dpcs(), p, q);
    assert ph.hand + c.Dpcs() - {p} == ph.hand - {p} + c.Dpcs();
  }

  lemma Popped(c: Core, ph: Phase, q: seq<Ptr>)
    requires c.Ok(ph) && c.queue != []
    requires PriorityQueue.IsHeap(q, Times(c.nodes)) && multiset(q) == multiset(c.queue) - multiset{c.queue[0]}
    ensures c.queue[0] !in ph.hand && c.(queue := q).Ok(ph.(hand := ph.hand + {c.queue[0]}))
  {
    hide NodesOk, QueueOk, DeferOk, PortsOk, NatOk, FlowsOk, TimesOk;
    var p := c.queue[0];
    QueueTop(c.nodes, c.queue, ph.hand + c.Dpcs());
    QueuePopped(c.nodes, c.queue, ph.hand + c.Dpcs(), q);
    assert ph.hand + c.Dpcs() + {p} == ph.hand + {p} + c.Dpcs();
  }

  /** A node that is no flow, holds no port and is not yet in the past is created. */
  lemma Created(c: Core, ph: Phase, p: Ptr, node: Node)
    requires c.Ok(ph) && p !in c.nodes
    requires !node.FlowPkt? && Held(node) == [] && (!node.DeferPort? ==> c.clock <= node.m_time)
    ensures c.(nodes := c.nodes[p := node]).Ok(ph.(hand := ph.hand + {p}))
  {
    hide NodesOk, QueueOk, DeferOk, PortsOk, NatOk, FlowsOk, TimesOk;
    assert p !in c.Dpcs() by { DpcsAreNodes(c, ph); }
    NodesChanged(c.nodes, p, node);
    QueueUntouched(c.nodes, c.queue, ph.hand + c.Dpcs(), p, node);
    DeferUntouched(c.nodes, c.tcp_dpc, p, node);
    DeferUntouched(c.nodes, c.udp_dpc, p, node);
    TimesUntouched(c.nodes, c.clock, c.log, p, node);
    PortsUntouched(c.nodes, ph.dying, ph.left, c.owner, c.in_use, c.active, p, node);
    NatUntouched(c.nodes, ph.dying, c.table, c.wire, c.next_id, c.added, c.removed, p, node);
    FlowsUntouched(c.nodes, ph.dying, ph.sending, c.flows, c.log, c.next_id, c.clean, p, node);
    assert ph.hand + c.Dpcs() + {p} == ph.hand + {p} + c.Dpcs();
  }

  lemma DpcsAreNodes(c: Core, ph: Phase)
    requires c.Ok(ph)
    ensures c.Dpcs() <= c.nodes.Keys
  {
  }

  lemma Freed(c: Core, p: Ptr)
    requires c.Ok(Phase({p}, {}, {p}, {}))
    ensures c.(nodes := c.nodes - {p}).Ok(REST)
  {
    hide NodesOk, QueueOk, DeferOk, PortsOk, NatOk, FlowsOk, TimesOk;
    var nodes := c.nodes - {p};
    assert c.Dpcs() !! {p};
    assert QueueOk(nodes, c.queue, c.Dpcs()) && DeferOk(nodes, c.tcp_dpc) && DeferOk(nodes, c.udp_dpc) by {
      QueueNodeFreed(c.nodes, c.queue, {p} + c.Dpcs(), p);
      assert {p} + c.Dpcs() - {p} == c.Dpcs();
      DeferNodeFreed(c.nodes, c.tcp_dpc, p);
      DeferNodeFreed(c.nodes, c.udp_dpc, p);
    }
    assert NodesOk(nodes) && TimesOk(nodes, c.clock, c.log) by {
      NodesLess(c.nodes, p);
      TimesNodeFreed(c.nodes, c.clock, c.log, p);
    }
    LedgersFreed(c, p);
    assert {} + c.Dpcs() == c.Dpcs();
  }

  lemma LedgersFreed(c: Core, p: Ptr)
    requires c.Ok(Phase({p}, {}, {p}, {}))
    ensures PortsOk(c.nodes - {p}, {}, {}, c.owner, c.in_use, c.active)
    ensures NatOk(c.nodes - {p}, {}, c.table, c.wire, c.next_id, c.added, c.removed)
    ensures FlowsOk(c.nodes - {p}, {}, {}, c.flows, c.log, c.next_id, c.clean)
  {
    hide NodesOk, QueueOk, DeferOk, PortsOk, NatOk, FlowsOk, TimesOk;
    PortsNodeFreed(c.nodes, {}, c.owner, c.in_use, c.active, p);
    NatNodeFreed(c.nodes, c.table, c.wire, c.next_id, c.added, c.removed, p);
    FlowNodeFreed(c.nodes, c.flows, c.log, c.next_id, c.clean, p);
  }

  /** A node in hand that is no flow is about to be freed. */
  lemma LetGo(c: Core, p: Ptr)
    requires c.Ok(Holding(p)) && !c.nodes[p].FlowPkt?
    ensures c.Ok(Phase({p}, {}, {p}, SetOf(Held(c.nodes[p]))))
  {
    hide NodesOk, QueueOk, DeferOk, PortsOk, NatOk, FlowsOk, TimesOk;
    PortsLetGo(c.nodes, c.owner, c.in_use, c.active, p);
    NatDying(c.nodes, c.table, c.wire, c.next_id, c.added, c.removed, p);
    FlowDying(c.nodes, c.flows, c.log, c.next_id, c.clean, p);
  }

  lemma Allocated(c: Core, ph: Phase, s: Socket)
    requires c.Ok(ph) && s !in c.in_use
    ensures c.(in_use := c.in_use + {s}, active := c.active + 1).Ok(ph.(left := ph.left + {s}))
  {
    hide NodesOk, QueueOk, DeferOk, PortsOk, NatOk, FlowsOk, TimesOk;
    PortAllocated(c.nodes, ph.dying, ph.left, c.owner, c.in_use, c.active, s);
  }

  lemma Released(c: Core, ph: Phase, s: Socket)
    requires c.Ok(ph) && s in ph.left
    ensures s in c.in_use && c.(in_use := c.in_use - {s}, active := c.active - 1).Ok(ph.(left := ph.left - {s}))
  {
    hide NodesOk, QueueOk, DeferOk, NatOk, FlowsOk, TimesOk;
    PortFreed(c.nodes, ph.dying, ph.left, c.owner, c.in_use, c.active, s);
  }

  /** A node just created becomes the one that collects ports. */
  lemma Collects(c: Core, ph: Phase, is_tcp: bool, d: Ptr)
    requires c.Ok(ph.(hand := ph.hand + {d})) && c.Dpc(is_tcp) == None && d !in ph.hand
    requires c.nodes[d] == DeferPort(0.0, [])
    ensures c.WithDpc(is_tcp, Some(d)).Ok(ph)
  {
    hide NodesOk, QueueOk, PortsOk, NatOk, FlowsOk, TimesOk;
    assert ph.hand + {d} + c.Dpcs() == ph.hand + c.WithDpc(is_tcp, Some(d)).Dpcs();
  }

  /** The collecting node takes one port more; when full, it collects no longer. */
  lemma ClientAdded(c: Core, ph: Phase, is_tcp: bool, d: Ptr, s: Socket, horizon: real)
    returns (owner: map<Socket, Ptr>)
    requires c.Ok(ph) && c.Dpc(is_tcp) == Some(d) && s in ph.left && ph.dying <= ph.hand
    ensures d in c.nodes && c.nodes[d].DeferPort? && d !in ph.hand
    ensures var entries := c.nodes[d].entries + [s];
            var c' := c.(nodes := c.nodes[d := DeferPort(c.nodes[d].m_time, entries)], owner := owner);
            && |entries| <= DEFER_CLIENTS_NUM
            && (|entries| < DEFER_CLIENTS_NUM ==> c'.Ok(ph.(left := ph.left - {s})))
            && (|entries| == DEFER_CLIENTS_NUM ==>
                  c'.WithDpc(is_tcp, None).Ok(ph.(left := ph.left - {s}, hand := ph.hand + {d})))
            && TotalWork(c.nodes, horizon) == TotalWork(c'.nodes, horizon)
  {
    hide NodesOk, QueueOk, PortsOk, NatOk, FlowsOk, TimesOk, TotalWork;
    var node := DeferPort(c.nodes[d].m_time, c.nodes[d].entries + [s]);
    assert d in c.Dpcs();
    NodesChanged(c.nodes, d, node);
    QueueUntouched(c.nodes, c.queue, ph.hand + c.Dpcs(), d, node);
    TimesUntouched(c.nodes, c.clock, c.log, d, node);
    owner := PortsTaken(c.nodes, ph.dying, ph.left, c.owner, c.in_use, c.active, d, node, [s]);
    assert SetOf([s]) == {s};
    NatUntouched(c.nodes, ph.dying, c.table, c.wire, c.next_id, c.added, c.removed, d, node);
    FlowsUntouched(c.nodes, ph.dying, ph.sending, c.flows, c.log, c.next_id, c.clean, d, node);
    WorkChanged(c.nodes, d, node, horizon);
    assert ph.hand + {d} + c.WithDpc(is_tcp, None).Dpcs() == ph.hand + c.Dpcs();
  }

  lemma Rescheduled(c: Core, ph: Phase, d: Ptr, time: real, horizon: real)
    requires c.Ok(ph) && d in ph.hand && c.nodes[d].DeferPort?
    ensures var nodes := c.nodes[d := DeferPort(time, c.nodes[d].entries)];
            c.(nodes := nodes).Ok(ph) && TotalWork(nodes, horizon) == TotalWork(c.nodes, horizon)
  {
    hide NodesOk, QueueOk, DeferOk, PortsOk, NatOk, FlowsOk, TimesOk, TotalWork;
    var node := DeferPort(time, c.nodes[d].entries);
    NodesChanged(c.nodes, d, node);
    QueueUntouched(c.nodes, c.queue, ph.hand + c.Dpcs(), d, node);
    DeferUntouched(c.nodes, c.tcp_dpc, d, node);
    DeferUntouched(c.nodes, c.udp_dpc, d, node);
    TimesUntouched(c.nodes, c.clock, c.log, d, node);
    PortsUntouched(c.nodes, ph.dying, ph.left, c.owner, c.in_use, c.active, d, node);
    NatUntouched(c.nodes, ph.dying, c.table, c.wire, c.next_id, c.added, c.removed, d, node);
    FlowsUntouched(c.nodes, ph.dying, ph.sending, c.flows, c.log, c.next_id, c.clean, d, node);
    WorkChanged(c.nodes, d, node, horizon);
  }

  /** A flow begins: its node takes over the ports allocated for it. */
  lemma Generated(c: Core, hand: set<Ptr>, p: Ptr, node: Node, learn: bool) returns (owner: map<Socket, Ptr>)
    requires c.Ok(Phase(hand, {}, {}, SetOf(Held(node)))) && p !in c.nodes
    requires NodeOk(node) && node.FlowPkt? && node.info.id == c.next_id && node.pkt == 0 && NoRepeats(node.info.sockets)
    requires c.clock <= node.m_time
    requires node.is_nat == (learn && node.info.template.bi_dir) && (node.is_nat ==> node.nat_bits == NatFirst)
    ensures c.next_id !in c.table
    ensures c.(nodes := c.nodes[p := node], owner := owner, next_id := c.next_id + 1,
               flows := c.flows[c.next_id := FlowRecord(node.info, p, false, false)],
               table := if node.is_nat then c.table[c.next_id := p] else c.table,
               added := if node.is_nat then c.added + 1 else c.added).Ok(Phase(hand + {p}, {}, {}, {}))
  {
    hide NodesOk, NodeOk, QueueOk, DeferOk, PortsOk, NatOk, FlowsOk, TimesOk;
    NatTableBelow(c.nodes, c.flows, c.table, c.wire, c.log, c.next_id, c.added, c.removed, c.clean);
    Placed(c, hand, p, node);
    owner := PortsTaken(c.nodes, {}, SetOf(Held(node)), c.owner, c.in_use, c.active, p, node, Held(node));
    assert SetOf(Held(node)) - SetOf(Held(node)) == {};
    NatBegins(c.nodes, c.table, c.wire, c.next_id, c.added, c.removed, p, node);
    FlowStarts(c.nodes, c.flows, c.log, c.next_id, c.clean, p, node);
  }

  lemma NatBegins(nodes: map<Ptr, Node>, table: map<nat, Ptr>, wire: set<nat>, next: nat, added: nat, removed: nat,
                  p: Ptr, node: Node)
    requires NatOk(nodes, {}, table, wire, next, added, removed) && next !in table && p !in nodes
    requires node.FlowPkt? && node.info.id == next && node.pkt == 0
    requires node.is_nat ==> node.info.template.bi_dir && node.nat_bits == NatFirst
    ensures NatOk(nodes[p := node], {}, if node.is_nat then table[next := p] else table, wire, next + 1,
                  if node.is_nat then added + 1 else added, removed)
  {
    hide NatOk;
    if node.is_nat {
      NatAssociated(nodes, table, wire, next, added, removed, p, node);
    } else {
      NatUntouched(nodes, {}, table, wire, next, added, removed, p, node);
      NatNextId(nodes[p := node], table, wire, next, added, removed);
    }
  }

  /** What a new flow in hand does not touch. */
  lemma Placed(c: Core, hand: set<Ptr>, p: Ptr, node: Node)
    requires c.Ok(Phase(hand, {}, {}, SetOf(Held(node)))) && p !in c.nodes && NodeOk(node) && c.clock <= node.m_time
    ensures var nodes := c.nodes[p := node];
            && NodesOk(nodes) && QueueOk(nodes, c.queue, hand + {p} + c.Dpcs()) && DeferOk(nodes, c.tcp_dpc)
               && DeferOk(nodes, c.udp_dpc)
            && TimesOk(nodes, c.clock, c.log) && c.Dpcs() !! (hand + {p}) && hand + {p} <= nodes.Keys
  {
    hide NodesOk, NodeOk, QueueOk, PortsOk, NatOk, FlowsOk, TimesOk;
    NodesChanged(c.nodes, p, node);
    QueueUntouched(c.nodes, c.queue, hand + c.Dpcs(), p, node);
    assert hand + c.Dpcs() + {p} == hand + {p} + c.Dpcs();
    TimesUntouched(c.nodes, c.clock, c.log, p, node);
  }

  /** The learn packet is about to leave. */
  lemma Waits(c: Core, p: Ptr)
    requires c.Ok(REST) && p in c.nodes && c.nodes[p].FlowPkt? && c.nodes[p].is_nat
    ensures c.(nodes := c.nodes[p := c.nodes[p].(nat_bits := NatWait)]).Ok(REST)
  {
    hide NodesOk, QueueOk, DeferOk, PortsOk, NatOk, FlowsOk, TimesOk;
    assert c.nodes[p].(nat_bits := NatWait) == c.nodes[p].(is_nat := true, nat_bits := NatWait);
    StateChanged(c, {}, p, true, NatWait);
    NatWaits(c.nodes, c.table, c.wire, c.next_id, c.added, c.removed, p);
  }

  /** What the learn-mode state of a flow does not touch. */
  lemma StateChanged(c: Core, hand: set<Ptr>, p: Ptr, is_nat: bool, bits: NatState)
    requires c.Ok(Phase(hand, {}, {}, {})) && p in c.nodes && c.nodes[p].FlowPkt? && (is_nat ==> c.nodes[p].is_nat)
    ensures var nodes := c.nodes[p := c.nodes[p].(is_nat := is_nat, nat_bits := bits)];
            && nodes.Keys == c.nodes.Keys
            && NodesOk(nodes) && QueueOk(nodes, c.queue, hand + c.Dpcs()) && DeferOk(nodes, c.tcp_dpc)
               && DeferOk(nodes, c.udp_dpc)
            && TimesOk(nodes, c.clock, c.log) && PortsOk(nodes, {}, {}, c.owner, c.in_use, c.active)
            && FlowsOk(nodes, {}, {}, c.flows, c.log, c.next_id, c.clean)
  {
    hide QueueOk, PortsOk, NatOk, FlowsOk, TimesOk;
    var node := c.nodes[p].(is_nat := is_nat, nat_bits := bits);
    NotPast(c.nodes, c.clock, c.log, p);
    QueueUntouched(c.nodes, c.queue, hand + c.Dpcs(), p, node);
    TimesUntouched(c.nodes, c.clock, c.log, p, node);
    PortsUntouched(c.nodes, {}, {}, c.owner, c.in_use, c.active, p, node);
    FlowStateChanges(c.nodes, {}, c.flows, c.log, c.next_id, c.clean, p, is_nat, bits);
  }

  lemma NotPast(nodes: map<Ptr, Node>, clock: real, log: seq<SentPkt>, p: Ptr)
    requires TimesOk(nodes, clock, log) && p in nodes && !nodes[p].DeferPort?
    ensures clock <= nodes[p].m_time
  {
  }

  /** A translation has arrived. */
  lemma Learned(c: Core, hand: set<Ptr>, f: nat, horizon: real)
    requires c.Ok(Phase(hand, {}, {}, {})) && f in c.table && f in c.wire
    ensures c.table[f] in c.nodes && c.nodes[c.table[f]].FlowPkt? && c.nodes[c.table[f]].nat_bits == NatWait
    ensures var nodes := c.nodes[c.table[f] := c.nodes[c.table[f]].(is_nat := false)];
            && c.(nodes := nodes, table := c.table - {f}, removed := c.removed + 1).Ok(Phase(hand, {}, {}, {}))
            && TotalWork(nodes, horizon) == TotalWork(c.nodes, horizon)
  {
    hide NodesOk, QueueOk, DeferOk, PortsOk, NatOk, FlowsOk, TimesOk, TotalWork;
    var p := c.table[f];
    NatLearned(c.nodes, c.table, c.wire, c.next_id, c.added, c.removed, f);
    assert NodeOk(c.nodes[p]) by { OneIsOk(c.nodes, p); }
    WorkChanged(c.nodes, p, c.nodes[p].(is_nat := false), horizon);
    assert c.nodes[p].(is_nat := false) == c.nodes[p].(is_nat := false, nat_bits := c.nodes[p].nat_bits);
    StateChanged(c, hand, p, false, c.nodes[p].nat_bits);
  }

  ghost function Event(node: Node): SentPkt
    requires node.FlowPkt?
  {
    SentPkt(node.m_time, node.info.id, node.pkt)
  }

  /** The earliest node sends its packet. */
  lemma Sends(c: Core, p: Ptr)
    requires c.Ok(REST) && Earliest(c.nodes, p) && c.nodes[p].FlowPkt?
    requires c.nodes[p].is_nat ==> c.nodes[p].nat_bits == NatWait
    requires c.clean ==> c.nodes[p].is_nat || !c.nodes[p].info.template.repeat
    ensures var learn := c.nodes[p].is_nat && c.nodes[p].pkt == 0;
            c.(log := c.log + [Event(c.nodes[p])], clock := c.nodes[p].m_time,
               wire := if learn then c.wire + {c.nodes[p].info.id} else c.wire).Ok(REST.(sending := {p}))
  {
    hide NodesOk, QueueOk, DeferOk, PortsOk, NatOk, TimesOk;
    TimesSent(c.nodes, c.clock, c.log, p, Event(c.nodes[p]));
    FlowSends(c.nodes, c.flows, c.log, c.next_id, c.clean, p);
    if c.nodes[p].is_nat && c.nodes[p].pkt == 0 {
      NatSeen(c.nodes, c.table, c.wire, c.next_id, c.added, c.removed, p);
    }
  }

  /** The flow moves on to its next packet. */
  lemma Advances(c: Core, sending: set<Ptr>, p: Ptr, horizon: real)
    requires c.Ok(Phase({p}, sending, {}, {})) && c.nodes[p].FlowPkt?
    requires c.nodes[p].pkt + 1 < |c.nodes[p].info.template.pkts|
    requires sending == {p} || (sending == {} && SendsNoMore(c.nodes[p], c.clean))
    requires c.nodes[p].is_nat ==>
             c.nodes[p].nat_bits == NatWait && c.nodes[p].info.template.pkts[c.nodes[p].pkt].init_side
    ensures var node := c.nodes[p].(m_time := c.nodes[p].m_time + c.nodes[p].info.template.Gap(c.nodes[p].pkt),
                                    pkt := c.nodes[p].pkt + 1);
            && c.(nodes := c.nodes[p := node]).Ok(Holding(p)) && NodesOk(c.nodes[p := node])
            && TotalWork(c.nodes[p := node], horizon) < TotalWork(c.nodes, horizon)
  {
    hide QueueOk, PortsOk, NatOk, FlowsOk, TimesOk, TotalWork, Work;
    var time := c.nodes[p].m_time + c.nodes[p].info.template.Gap(c.nodes[p].pkt);
    var node := c.nodes[p].(m_time := time, pkt := c.nodes[p].pkt + 1);
    assert NodeOk(c.nodes[p]) && NodeOk(node);
    NotPast(c.nodes, c.clock, c.log, p);
    MovedInHand(c, sending, p, node);
    NatAdvances(c.nodes, c.table, c.wire, c.next_id, c.added, c.removed, p, time);
    GapComesNext(c.nodes[p].info.template, c.nodes[p].pkt, c.nodes[p].m_time);
    FlowAdvances(c.nodes, sending, c.flows, c.log, c.next_id, c.clean, p, time);
    WorkAdvances(c.nodes[p], node, horizon);
    WorkChanged(c.nodes, p, node, horizon);
  }

  /** What the position and time of a flow in hand do not touch. */
  lemma MovedInHand(c: Core, sending: set<Ptr>, p: Ptr, node: Node)
    requires c.Ok(Phase({p}, sending, {}, {})) && c.nodes[p].FlowPkt? && node.FlowPkt? && NodeOk(node)
    requires c.clock <= node.m_time && node.info == c.nodes[p].info
    ensures var nodes := c.nodes[p := node];
            && NodesOk(nodes) && QueueOk(nodes, c.queue, {p} + c.Dpcs()) && DeferOk(nodes, c.tcp_dpc)
               && DeferOk(nodes, c.udp_dpc)
            && TimesOk(nodes, c.clock, c.log) && PortsOk(nodes, {}, {}, c.owner, c.in_use, c.active)
  {
    hide NodeOk, NodesOk, QueueOk, DeferOk, PortsOk, NatOk, FlowsOk, TimesOk;
    assert p !in c.Dpcs();
    NodesChanged(c.nodes, p, node);
    QueueUntouched(c.nodes, c.queue, {p} + c.Dpcs(), p, node);
    DeferUntouched(c.nodes, c.tcp_dpc, p, node);
    DeferUntouched(c.nodes, c.udp_dpc, p, node);
    TimesUntouched(c.nodes, c.clock, c.log, p, node);
    PortsUntouched(c.nodes, {}, {}, c.owner, c.in_use, c.active, p, node);
  }

  /** A flow of a template with a limit starts over. */
  lemma StartsOver(c: Core, p: Ptr, horizon: real)
    requires c.Ok(Phase({p}, {p}, {}, {})) && !c.clean && c.nodes[p].FlowPkt? && !c.nodes[p].is_nat
    requires c.nodes[p].pkt + 1 == |c.nodes[p].info.template.pkts| && c.nodes[p].info.template.repeat
    ensures var node := c.nodes[p].(m_time := c.nodes[p].m_time + c.nodes[p].info.template.restart_time, pkt := 0);
            && c.(nodes := c.nodes[p := node]).Ok(Holding(p))
            && (c.nodes[p].m_time <= horizon ==> TotalWork(c.nodes[p := node], horizon) < TotalWork(c.nodes, horizon))
  {
    hide QueueOk, PortsOk, NatOk, FlowsOk, TimesOk, TotalWork, Work;
    var time := c.nodes[p].m_time + c.nodes[p].info.template.restart_time;
    var node := c.nodes[p].(m_time := time, pkt := 0);
    assert NodeOk(c.nodes[p]) && NodeOk(node);
    NotPast(c.nodes, c.clock, c.log, p);
    MovedInHand(c, {p}, p, node);
    NatUntouched(c.nodes, {}, c.table, c.wire, c.next_id, c.added, c.removed, p, node);
    FlowStartsOver(c.nodes, c.flows, c.log, c.next_id, p, time);
    WorkChanged(c.nodes, p, node, horizon);
    if c.nodes[p].m_time <= horizon {
      WorkStartsOver(c.nodes[p], node, horizon);
    }
  }

  /** The flow in hand has sent its last packet, or has nothing more to send: its ports are to be released. */
  lemma Ends(c: Core, sending: set<Ptr>, p: Ptr)
    requires c.Ok(Phase({p}, sending, {}, {})) && c.nodes[p].FlowPkt? && !c.nodes[p].is_nat
    requires c.nodes[p].pkt + 1 == |c.nodes[p].info.template.pkts|
    requires sending == {p} || (sending == {} && SendsNoMore(c.nodes[p], c.clean))
    ensures c.nodes[p].info.id in c.flows
    ensures var f := c.nodes[p].info.id;
            c.(flows := c.flows[f := Ended(c.flows[f], false)]).Ok(Phase({p}, {}, {p}, SetOf(Held(c.nodes[p]))))
  {
    hide NodesOk, QueueOk, DeferOk, PortsOk, NatOk, FlowsOk, TimesOk;
    PortsLetGo(c.nodes, c.owner, c.in_use, c.active, p);
    NatDying(c.nodes, c.table, c.wire, c.next_id, c.added, c.removed, p);
    FlowEnds(c.nodes, sending, c.flows, c.log, c.next_id, c.clean, p);
  }

  /** The flow in hand still waits for its translation at its first responder packet. */
  lemma TimesOut(c: Core, p: Ptr)
    requires c.Ok(Holding(p)) && c.nodes[p].FlowPkt? && c.nodes[p].is_nat && NodeOk(c.nodes[p])
    requires !c.nodes[p].info.template.pkts[c.nodes[p].pkt].init_side
    ensures c.nodes[p].info.id in c.flows && c.nodes[p].info.id in c.table
    ensures var f := c.nodes[p].info.id;
            c.(flows := c.flows[f := Ended(c.flows[f], true)], table := c.table - {f}, removed := c.removed + 1)
            .Ok(Phase({p}, {}, {p}, SetOf(Held(c.nodes[p]))))
  {
    hide NodesOk, QueueOk, DeferOk, PortsOk, NatOk, NatNodeOk, FlowsOk, TimesOk;
    PortsLetGo(c.nodes, c.owner, c.in_use, c.active, p);
    NatTimedOut(c.nodes, c.table, c.wire, c.next_id, c.added, c.removed, p);
    NatNode(c.nodes, c.table, c.wire, c.next_id, c.added, c.removed, p);
    FlowTimesOut(c.nodes, c.flows, c.log, c.next_id, c.clean, p, c.wire);
  }

  lemma NatNode(nodes: map<Ptr, Node>, table: map<nat, Ptr>, wire: set<nat>, next: nat, added: nat, removed: nat,
                p: Ptr)
    requires NatOk(nodes, {}, table, wire, next, added, removed)
    requires p in nodes && nodes[p].FlowPkt? && nodes[p].is_nat
    ensures NatNodeOk(nodes[p], wire)
  {
  }

  datatype Stats = Stats(
    m_nat_lookup_add_flow_id: nat, m_nat_lookup_remove_flow_id: nat,
    m_nat_flow_timeout: nat, m_nat_lookup_no_flow_id: nat)

  /** A template and how its flows are admitted. */
  datatype CapGen = CapGen(template: Template, limit: nat, flowcnt: nat, policer: Policer.Bucket) {
    /** m_limit_was_set is the template's `repeat`. */
    predicate Reached() { template.repeat && flowcnt >= limit }

    ghost predicate Ok() { template.Legal() && (template.repeat ==> flowcnt <= limit) }
  }

  /** After `messages` translations, `hits` of which were for flows in the table. */
  ghost predicate CountsLearned(before: Stats, after: Stats, hits: int, messages: int) {
    && after.m_nat_lookup_remove_flow_id == before.m_nat_lookup_remove_flow_id + hits
    && after.m_nat_lookup_no_flow_id == before.m_nat_lookup_no_flow_id + messages - hits
    && after.m_nat_lookup_add_flow_id == before.m_nat_lookup_add_flow_id
    && after.m_nat_flow_timeout == before.m_nat_flow_timeout
  }

  ghost function Fids(msg: seq<NatBatch.NatFlowInfo>): set<nat> {
    set i | 0 <= i < |msg| :: msg[i].m_fid
  }

  /** The flows with these ids wait no longer. */
  ghost function LearnedNodes(nodes: map<Ptr, Node>, fids: set<nat>): map<Ptr, Node> {
    map p | p in nodes :: LearnedNode(nodes[p], fids)
  }

  ghost function LearnedNode(node: Node, fids: set<nat>): Node {
    if node.FlowPkt? && node.is_nat && node.info.id in fids then node.(is_nat := false) else node
  }

  lemma LearnedNone(nodes: map<Ptr, Node>)
    ensures LearnedNodes(nodes, {}) == nodes
  {
  }

  lemma LearnedBoth(nodes: map<Ptr, Node>, a: set<nat>, b: set<nat>)
    ensures LearnedNodes(LearnedNodes(nodes, a), b) == LearnedNodes(nodes, a + b)
  {
  }

  /** What the first i translations of a message have changed. */
  ghost predicate LearnedSoFar(nodes: map<Ptr, Node>, table: map<nat, Ptr>, stats: Stats,
                               msg: seq<NatBatch.NatFlowInfo>, i: nat,
                               nodes': map<Ptr, Node>, table': map<nat, Ptr>, stats': Stats)
    requires i <= |msg|
  {
    && nodes' == LearnedNodes(nodes, Fids(msg[..i])) && table' == table - Fids(msg[..i])
    && CountsLearned(stats, stats', |table| - |table'|, i)
  }

  lemma LearnedStart(nodes: map<Ptr, Node>, table: map<nat, Ptr>, stats: Stats, msg: seq<NatBatch.NatFlowInfo>)
    ensures LearnedSoFar(nodes, table, stats, msg, 0, nodes, table, stats)
  {
    FidsNone();
    LearnedNone(nodes);
    assert msg[..0] == [] && table - {} == table;
  }

  lemma LearnedNext(nodes: map<Ptr, Node>, table: map<nat, Ptr>, stats: Stats, msg: seq<NatBatch.NatFlowInfo>, i: nat,
                    nodes': map<Ptr, Node>, table': map<nat, Ptr>, stats': Stats, table'': map<nat, Ptr>,
                      stats'': Stats)
    requires i < |msg| && LearnedSoFar(nodes, table, stats, msg, i, nodes', table', stats')
    requires table'' == table' - {msg[i].m_fid}
             && CountsLearned(stats', stats'', if msg[i].m_fid in table' then 1 else 0, 1)
    ensures LearnedSoFar(nodes, table, stats, msg, i + 1, LearnedNodes(nodes', {msg[i].m_fid}), table'', stats'')
  {
    hide LearnedNodes, Fids;
    var fid, fids := msg[i].m_fid, Fids(msg[..i]);
    OneFewer(table', fid);
    FidsNext(msg, i);
    LearnedBoth(nodes, fids, {fid});
    TakenBoth(table, fids, fid);
  }

  lemma TakenBoth(table: map<nat, Ptr>, fids: set<nat>, fid: nat)
    ensures table - fids - {fid} == table - (fids + {fid})
  {
  }

  lemma LearnedAll(nodes: map<Ptr, Node>, table: map<nat, Ptr>, stats: Stats, msg: seq<NatBatch.NatFlowInfo>,
                   nodes': map<Ptr, Node>, table': map<nat, Ptr>, stats': Stats)
    requires LearnedSoFar(nodes, table, stats, msg, |msg|, nodes', table', stats')
    ensures nodes' == LearnedNodes(nodes, Fids(msg)) && table' == table - Fids(msg) && SameButNat(nodes, nodes')
    ensures CountsLearned(stats, stats', |table| - |table'|, |msg|)
  {
    assert msg[..|msg|] == msg;
  }

  lemma FidsNone()
    ensures Fids([]) == {}
  {
  }

  lemma FidsNext(msg: seq<NatBatch.NatFlowInfo>, i: nat)
    requires i < |msg|
    ensures Fids(msg[..i + 1]) == Fids(msg[..i]) + {msg[i].m_fid}
  {
    var before, after := msg[..i], msg[..i + 1];
    forall f | f in Fids(before) + {msg[i].m_fid} ensures f in Fids(after) {
      if f in Fids(before) {
        var j :| 0 <= j < i && before[j].m_fid == f;
        assert after[j].m_fid == f;
      } else {
        assert after[i].m_fid == f;
      }
    }
    forall f | f in Fids(after) ensures f in Fids(before) + {msg[i].m_fid} {
      var j :| 0 <= j < i + 1 && after[j].m_fid == f;
      assert j < i ==> before[j].m_fid == f;
    }
  }

  lemma OneFewer(table: map<nat, Ptr>, f: nat)
    ensures |table - {f}| == |table| - (if f in table then 1 else 0)
  {
    if f in table {
      RemovedKey(table, f);
    } else {
      assert table - {f} == table;
    }
  }

  /** The table knows the one node that waits under an id. */
  lemma LearnedOne(c: Core, hand: set<Ptr>, f: nat)
    requires c.Ok(Phase(hand, {}, {}, {}))
    ensures f !in c.table ==> LearnedNodes(c.nodes, {f}) == c.nodes
    ensures f in c.table ==> c.table[f] in c.nodes && c.nodes[c.table[f]].FlowPkt?
                             && LearnedNodes(c.nodes, {f})
                                == c.nodes[c.table[f] := c.nodes[c.table[f]].(is_nat := false)]
  {
    hide NodesOk, QueueOk, DeferOk, PortsOk, FlowsOk, TimesOk, NatNodeOk;
  }

  /** The flow's next packet, when its time has come. */
  function Forwarded(node: Node): Node
    requires node.FlowPkt?
  {
    if node.pkt < |node.info.template.pkts|
    then node.(m_time := node.m_time + node.info.template.Gap(node.pkt), pkt := node.pkt + 1)
    else node
  }

  /** The flow's first packet again. */
  function Restarted(node: Node): Node
    requires node.FlowPkt?
  {
    node.(m_time := node.m_time + node.info.template.restart_time, pkt := 0)
  }

  /** A flow that has waited for its translation up to a responder packet. */
  predicate GivesUp(node: Node)
    requires node.FlowPkt?
  {
    node.nat_bits == NatWait && node.pkt < |node.info.template.pkts| && !node.info.template.pkts[node.pkt].init_side
  }

  /** The node of a flow that has just been opened; its ports were not in use, and are all of one client. */
  ghost predicate IsNewFlow(node: Node, time: real, id: nat, template: Template, learn_mode: bool,
                            in_use: set<Socket>) {
    && node.FlowPkt? && node.m_time == time && node.pkt == 0
    && node.is_nat == (learn_mode && template.bi_dir) && node.nat_bits == (if node.is_nat then NatFirst else NoNat)
    && node.info.id == id && node.info.template == template
    && |node.info.sockets| == (if template.plugin_ports then 3 else 1) && NoRepeats(node.info.sockets)
    && forall i :: 0 <= i < |node.info.sockets| ==>
         && node.info.sockets[i] !in in_use && node.info.sockets[i].pool == template.pool
         && node.info.sockets[i].client == node.info.sockets[0].client
  }

  /** The ports that the node collects, if there is one yet. */
  ghost function Collecting(nodes: map<Ptr, Node>, dpc: Option<Ptr>): seq<Socket> {
    if dpc.Some? && dpc.value in nodes && nodes[dpc.value].DeferPort? then nodes[dpc.value].entries else []
  }

  ghost predicate Collected(entries: seq<Socket>, time: real, nodes: map<Ptr, Node>, dpc: Option<Ptr>,
                            before: seq<Ptr>, after: seq<Ptr>)
  {
    exists d :: IsCollected(d, entries, time, nodes, dpc, before, after)
  }

  /** Node d holds the entries: it is scheduled for `time` if it is full, and goes on collecting otherwise. */
  ghost predicate IsCollected(d: Ptr, entries: seq<Socket>, time: real, nodes: map<Ptr, Node>, dpc: Option<Ptr>,
                              before: seq<Ptr>, after: seq<Ptr>)
  {
    && d in nodes && nodes[d].DeferPort? && nodes[d].entries == entries
    && if |entries| == DEFER_CLIENTS_NUM
       then dpc == None && nodes[d].m_time == time && multiset(after) == multiset(before) + multiset{d}
       else dpc == Some(d) && after == before
  }

  /** Flow ids stay below 2^32, so that the short id of a flow is its id. */
  const SHORT_FID_LIMIT := 0x1_0000_0000

  class CFlowGenListPerThread {
    // the node pool: what is allocated from it
    var nodes: map<Ptr, Node>
    var m_p_queue: seq<Ptr>
    var m_flow_id_to_node_lookup: map<nat, Ptr>
    var m_tcp_dpc: Option<Ptr>
    var m_udp_dpc: Option<Ptr>
    var m_cur_flow_id: nat
    var m_cur_time_sec: real
    var m_stats: Stats
    // the client pools: the ports handed out and their number
    var m_sockets: set<Socket>
    var m_active_alloc: int
    // flow ids that the network has seen in learn packets
    var m_wire: set<nat>
    const m_aging: (nat, bool) -> nat
    const m_learn_mode: bool
    // the templates
    var m_cap_gen: seq<CapGen>
    var m_cur_template: nat

    ghost var owner: map<Socket, Ptr>
    ghost var flows: map<nat, FlowRecord>
    ghost var log: seq<SentPkt>
    ghost var clock: real
    ghost var clean: bool          // the second pass: flows are closed, no new ones begin
    ghost var special: Special

    ghost function Now(): Core
      reads this
    {
      Core(nodes, m_p_queue, m_tcp_dpc, m_udp_dpc, m_flow_id_to_node_lookup,
           m_stats.m_nat_lookup_add_flow_id, m_stats.m_nat_lookup_remove_flow_id, m_wire, m_cur_flow_id,
           m_sockets, m_active_alloc, owner, flows, log, clock, clean)
    }

    ghost predicate Valid(ph: Phase)
      reads this
    {
      Now().Ok(ph)
    }

    /** m_p_queue.push */
    method AddNode(p: Ptr, ghost ph: Phase)
      requires Valid(ph) && p in ph.hand
      modifies `m_p_queue
      ensures Valid(ph.(hand := ph.hand - {p})) && multiset(m_p_queue) == multiset(old(m_p_queue)) + multiset{p}
    {
      hide Core.Ok;
      assert PriorityQueue.IsHeap(m_p_queue, Times(nodes)) && p in nodes by { Queued(Now(), ph); }
      ghost var c := Now();
      m_p_queue := PriorityQueue.Push(m_p_queue, Times(nodes), p);
      Pushed(c, ph, p, m_p_queue);
    }

    /** m_p_queue.top and m_p_queue.pop */
    method PopNode(ghost ph: Phase) returns (p: Ptr)
      requires Valid(ph) && m_p_queue != []
      modifies `m_p_queue
      ensures p == old(m_p_queue)[0] && p in nodes && p !in ph.hand && |m_p_queue| == |old(m_p_queue)| - 1
      ensures Valid(ph.(hand := ph.hand + {p}))
    {
      hide Core.Ok;
      ghost var c := Now();
      Queued(c, ph);
      p := m_p_queue[0];
      m_p_queue := PriorityQueue.Pop(m_p_queue, Times(nodes));
      Popped(c, ph, m_p_queue);
    }

    /** A node that is no flow and holds no port. */
    method CreateNode(node: Node, ghost ph: Phase) returns (p: Ptr)
      requires Valid(ph)
      requires !node.FlowPkt? && Held(node) == [] && (!node.DeferPort? ==> clock <= node.m_time)
      modifies `nodes
      ensures p !in old(nodes) && nodes == old(nodes)[p := node]
      ensures Valid(ph.(hand := ph.hand + {p}))
    {
      hide Core.Ok;
      p := PickPtr(nodes);
      Created(Now(), ph, p, node);
      nodes := nodes[p := node];
    }

    /** Back into the pool. */
    method FreeNode(p: Ptr)
      requires Valid(Phase({p}, {}, {p}, {}))
      modifies `nodes
      ensures nodes == old(nodes) - {p}
      ensures Valid(REST)
    {
      hide Core.Ok;
      Freed(Now(), p);
      nodes := nodes - {p};
    }

    // ----- Ports

    /** GenerateTuple, of any client, and GenerateOneSourcePort, of a given one: some port that is not in use. */
    method AllocPort(pool: nat, client: Option<nat>, ghost ph: Phase) returns (s: Socket)
      requires Valid(ph)
      modifies `m_sockets, `m_active_alloc
      ensures s !in old(m_sockets) && s.pool == pool && m_sockets == old(m_sockets) + {s}
      ensures client.Some? ==> s.client == client.value
      ensures Valid(ph.(left := ph.left + {s}))
    {
      hide Core.Ok;
      s := PickSocket(m_sockets, pool, client);
      Allocated(Now(), ph, s);
      m_sockets, m_active_alloc := m_sockets + {s}, m_active_alloc + 1;
    }

    /** The port must be in use: return_port asserts it. */
    method FreePort(s: Socket, ghost ph: Phase)
      requires Valid(ph) && s in ph.left
      modifies `m_sockets, `m_active_alloc
      ensures s in old(m_sockets) && m_sockets == old(m_sockets) - {s}
      ensures Valid(ph.(left := ph.left - {s}))
    {
      hide Core.Ok;
      Released(Now(), ph, s);
      m_sockets, m_active_alloc := m_sockets - {s}, m_active_alloc - 1;
    }

    /** handler_defer_job: every port the node has collected. */
    method HandlerDeferJob(p: Ptr)
      requires p in nodes && nodes[p].DeferPort? && Valid(Phase({p}, {}, {p}, SetOf(Held(nodes[p]))))
      requires NoRepeats(nodes[p].entries)
      modifies `m_sockets, `m_active_alloc
      ensures Valid(Phase({p}, {}, {p}, {}))
    {
      hide Valid, NoRepeats;
      var entries := nodes[p].entries;
      assert entries[0..] == entries;
      for i := 0 to |entries|
        invariant Valid(Phase({p}, {}, {p}, SetOf(entries[i..])))
      {
        SetOfRest(entries, i);
        FreePort(entries[i], Phase({p}, {}, {p}, SetOf(entries[i..])));
      }
      assert SetOf(entries[|entries|..]) == {};
    }

    function Dpc(is_tcp: bool): Option<Ptr>
      reads `m_tcp_dpc, `m_udp_dpc
    {
      if is_tcp then m_tcp_dpc else m_udp_dpc
    }

    method SetDpc(is_tcp: bool, d: Option<Ptr>)
      modifies `m_tcp_dpc, `m_udp_dpc
      ensures Now() == old(Now()).WithDpc(is_tcp, d)
    {
      if is_tcp {
        m_tcp_dpc := d;
      } else {
        m_udp_dpc := d;
      }
    }

    /** get_tcp_defer and get_udp_defer */
    method GetDefer(is_tcp: bool, ghost ph: Phase) returns (d: Ptr)
      requires Valid(ph)
      modifies `nodes, `m_tcp_dpc, `m_udp_dpc
      ensures Valid(ph) && Dpc(is_tcp) == Some(d) && d in nodes && nodes[d].DeferPort?
      ensures nodes[d].entries == Collecting(old(nodes), old(Dpc(is_tcp)))
      ensures OnlyDefers(old(nodes), nodes) && NodesOk(old(nodes)) && NodesOk(nodes)
      ensures TotalWork(nodes, special.horizon) <= TotalWork(old(nodes), special.horizon) + 1
    {
      hide Core.Ok, TotalWork, NodesOk;
      NodesAreOk(Now(), ph);
      DpcIsNode(Now(), ph, is_tcp);
      if Dpc(is_tcp).Some? {
        d := Dpc(is_tcp).value;
      } else {
        d := CreateNode(DeferPort(0.0, []), ph);
        WorkChanged(old(nodes), d, DeferPort(0.0, []), special.horizon);
        HandIsNodes(old(Now()), ph);
        Collects(Now(), ph, is_tcp, d);
        SetDpc(is_tcp, Some(d));
      }
    }

    /** add_client; a full node is no longer the one that collects. */
    method AddClient(is_tcp: bool, d: Ptr, s: Socket, ghost ph: Phase) returns (full: bool)
      requires Valid(ph) && Dpc(is_tcp) == Some(d) && s in ph.left && ph.dying <= ph.hand
      modifies `nodes, `m_tcp_dpc, `m_udp_dpc, `owner
      ensures d in old(nodes) && old(nodes)[d].DeferPort? && d in nodes && nodes[d].DeferPort? && d !in ph.hand
      ensures nodes[d].entries == old(nodes)[d].entries + [s]
      ensures Dpc(is_tcp) == if full then None else Some(d)
      ensures OnlyDefers(old(nodes), nodes) && NodesOk(old(nodes)) && NodesOk(nodes)
      ensures TotalWork(nodes, special.horizon) == TotalWork(old(nodes), special.horizon)
      ensures full == (|nodes[d].entries| == DEFER_CLIENTS_NUM)
      ensures Valid(ph.(left := ph.left - {s}, hand := if full then ph.hand + {d} else ph.hand))
    {
      hide Core.Ok, TotalWork, NodesOk;
      NodesAreOk(Now(), ph);
      owner := ClientAdded(Now(), ph, is_tcp, d, s, special.horizon);
      nodes := nodes[d := DeferPort(nodes[d].m_time, nodes[d].entries + [s])];
      full := |nodes[d].entries| == DEFER_CLIENTS_NUM;
      if full {
        SetDpc(is_tcp, None);
      }
      NodesAreOk(Now(), ph.(left := ph.left - {s}, hand := if full then ph.hand + {d} else ph.hand));
    }

    /** schedule_node: the wall clock, not the simulated time, decides when. */
    method ScheduleNode(d: Ptr, time: real, ghost ph: Phase)
      requires Valid(ph) && d in ph.hand && d in nodes && nodes[d].DeferPort?
      modifies `nodes, `m_p_queue
      ensures OnlyDefers(old(nodes), nodes) && NodesOk(old(nodes)) && NodesOk(nodes)
      ensures TotalWork(nodes, special.horizon) == TotalWork(old(nodes), special.horizon)
      ensures Valid(ph.(hand := ph.hand - {d}))
      ensures nodes == old(nodes)[d := DeferPort(time, old(nodes)[d].entries)]
      ensures multiset(m_p_queue) == multiset(old(m_p_queue)) + multiset{d}
    {
      hide Core.Ok, TotalWork, NodesOk;
      NodesAreOk(Now(), ph);
      Rescheduled(Now(), ph, d, time, special.horizon);
      nodes := nodes[d := DeferPort(time, nodes[d].entries)];
      AddNode(d, ph);
      NodesAreOk(Now(), ph.(hand := ph.hand - {d}));
    }

    /** defer_client_port_free: without aging the port is returned at once; with it, the port joins those that are
        being collected, and the node that has 16 of them is scheduled. */
    method DeferClientPortFree(is_tcp: bool, s: Socket, now: real, ghost ph: Phase)
      requires Valid(ph) && s in ph.left && ph.dying <= ph.hand
      modifies `nodes, `m_p_queue, `m_tcp_dpc, `m_udp_dpc, `owner, `m_sockets, `m_active_alloc
      ensures Valid(ph.(left := ph.left - {s}))
      ensures OnlyDefers(old(nodes), nodes) && NodesOk(old(nodes)) && NodesOk(nodes)
      ensures TotalWork(nodes, special.horizon) <= TotalWork(old(nodes), special.horizon) + 1
      ensures m_sockets == if m_aging(s.pool, is_tcp) == 0 then old(m_sockets) - {s} else old(m_sockets)
      ensures m_aging(s.pool, is_tcp) == 0 ==> nodes == old(nodes) && m_p_queue == old(m_p_queue)
      ensures m_aging(s.pool, is_tcp) != 0 ==>
                Collected(Collecting(old(nodes), old(Dpc(is_tcp))) + [s], now + m_aging(s.pool, is_tcp) as real,
                          nodes, Dpc(is_tcp), old(m_p_queue), m_p_queue)
    {
      hide Core.Ok, TotalWork, NodesOk;
      NodesAreOk(Now(), ph);
      if m_aging(s.pool, is_tcp) == 0 {
        FreePort(s, ph);
        return;
      }
      CollectPort(is_tcp, s, now, ph);
    }

    method CollectPort(is_tcp: bool, s: Socket, now: real, ghost ph: Phase)
      requires Valid(ph) && s in ph.left && ph.dying <= ph.hand
      modifies `nodes, `m_p_queue, `m_tcp_dpc, `m_udp_dpc, `owner
      ensures Valid(ph.(left := ph.left - {s}))
      ensures OnlyDefers(old(nodes), nodes) && NodesOk(nodes)
      ensures TotalWork(nodes, special.horizon) <= TotalWork(old(nodes), special.horizon) + 1
      ensures Collected(Collecting(old(nodes), old(Dpc(is_tcp))) + [s], now + m_aging(s.pool, is_tcp) as real,
                        nodes, Dpc(is_tcp), old(m_p_queue), m_p_queue)
    {
      hide Core.Ok, TotalWork, NodesOk;
      var d := GetDefer(is_tcp, ph);
      var full := AddClient(is_tcp, d, s, ph);
      if full {
        ghost var ph' := ph.(left := ph.left - {s}, hand := ph.hand + {d});
        ScheduleNode(d, now + m_aging(s.pool, is_tcp) as real, ph');
        assert ph.hand + {d} - {d} == ph.hand;
      }
      assert IsCollected(d, Collecting(old(nodes), old(Dpc(is_tcp))) + [s], now + m_aging(s.pool, is_tcp) as real,
                         nodes, Dpc(is_tcp), old(m_p_queue), m_p_queue);
    }

    /** free_last_flow_node: on_node_last releases the ports of the plugin, then goes the client's own. */
    method FreeLastFlowNode(p: Ptr)
      requires p in nodes && nodes[p].FlowPkt? && NodesOk(nodes)
      requires Valid(Phase({p}, {}, {p}, SetOf(Held(nodes[p])))) && NoRepeats(Held(nodes[p]))
      modifies `nodes, `m_p_queue, `m_tcp_dpc, `m_udp_dpc, `owner, `m_sockets, `m_active_alloc
      ensures Valid(REST)
      ensures OnlyDefers(old(nodes) - {p}, nodes) && NodesOk(nodes) && p !in nodes
      ensures TotalWork(nodes, special.horizon) < TotalWork(old(nodes), special.horizon)
    {
      hide Core.Ok, TotalWork, NodesOk, OnlyDefers, NoRepeats;
      var info := nodes[p].info;
      assert NodeOk(nodes[p]) by { OneIsOk(nodes, p); }
      var is_tcp := info.template.pkts[nodes[p].pkt].is_tcp;
      var now0, now1, now2: real := *, *, *;
      ghost var before := nodes;
      ghost var work := TotalWork(nodes, special.horizon);
      OnlyDefersRefl(nodes);
      if info.template.plugin_ports {
        SetOfThree(info.sockets);
        DeferClientPortFree(is_tcp, info.sockets[1], now1, Phase({p}, {}, {p}, SetOf(info.sockets)));
        ghost var between := nodes;
        DeferClientPortFree(is_tcp, info.sockets[2], now2,
                            Phase({p}, {}, {p}, SetOf(info.sockets) - {info.sockets[1]}));
        OnlyDefersChain(before, between, nodes);
        assert SetOf(info.sockets) - {info.sockets[1]} - {info.sockets[2]} == {info.sockets[0]};
      } else {
        assert SetOf(info.sockets) == {info.sockets[0]};
      }
      ghost var between := nodes;
      DeferClientPortFree(is_tcp, info.sockets[0], now0, Phase({p}, {}, {p}, {info.sockets[0]}));
      OnlyDefersChain(before, between, nodes);
      assert {info.sockets[0]} - {info.sockets[0]} == {};
      FlowWeighs(before, nodes, p, special.horizon);
      OnlyDefersWithout(before, nodes, p);
      FreeNode(p);
      NodesAreOk(Now(), REST);
    }

    // ----- Events

    ghost predicate GensOk()
      reads `m_cap_gen, `m_cur_template
    {
      && m_cur_template < |m_cap_gen|
      && forall i :: 0 <= i < |m_cap_gen| ==> m_cap_gen[i].Ok()
    }

    /** Between two events. */
    ghost predicate Running()
      reads this
    {
      Valid(REST) && NodesOk(nodes) && KindsOk(nodes, special) && GensOk()
    }

    /** The queue is never empty while the scheduler runs. */
    lemma TopExists()
      requires Running()
      ensures m_p_queue != [] && m_p_queue[0] in nodes && Earliest(nodes, m_p_queue[0])
    {
      TopIsEarliest(Now(), special.sync);
    }

    /** flush_one_node_to_file */
    method FlushOneNodeToFile(p: Ptr)
      requires Valid(REST) && Earliest(nodes, p) && nodes[p].FlowPkt?
      requires nodes[p].is_nat ==> nodes[p].nat_bits == NatWait
      requires clean ==> nodes[p].is_nat || !nodes[p].info.template.repeat
      modifies `m_wire, `log, `clock
      ensures Valid(REST.(sending := {p}))
      ensures log == old(log) + [Event(nodes[p])]
    {
      hide Core.Ok;
      Sends(Now(), p);
      if nodes[p].is_nat && nodes[p].pkt == 0 {
        m_wire := m_wire + {nodes[p].info.id};
      }
      log, clock := log + [Event(nodes[p])], nodes[p].m_time;
    }

    /** update_next_pkt_in_flow, then back into the queue */
    method NextPkt(p: Ptr, ghost sending: set<Ptr>)
      requires Valid(Phase({p}, sending, {}, {})) && p in nodes && nodes[p].FlowPkt? && NodesOk(nodes)
      requires nodes[p].pkt + 1 < |nodes[p].info.template.pkts|
      requires sending == {p} || (sending == {} && SendsNoMore(nodes[p], clean))
      requires nodes[p].is_nat ==> nodes[p].nat_bits == NatWait && nodes[p].info.template.pkts[nodes[p].pkt].init_side
      requires KindsOk(nodes, special)
      modifies `nodes, `m_p_queue
      ensures Valid(REST) && NodesOk(nodes) && KindsOk(nodes, special)
              && FifTime(nodes, special) == FifTime(old(nodes), special)
      ensures TotalWork(nodes, special.horizon) < TotalWork(old(nodes), special.horizon)
      ensures nodes == old(nodes)[p := Forwarded(old(nodes)[p])]
    {
      hide Core.Ok, TotalWork, NodesOk, KindsOk, FifTime;
      Advances(Now(), sending, p, special.horizon);
      var node := nodes[p];
      node := Forwarded(node);
      KindsChanged(nodes, special, p, node);
      nodes := nodes[p := node];
      AddNode(p, Holding(p));
      assert {p} - {p} == {};
      NodesAreOk(Now(), REST);
    }

    ghost predicate IsOver(f: nat)
      reads `flows
    {
      f in flows && flows[f].ended
    }

    /** The flow is not repeated: it is over. */
    method EndFlow(p: Ptr, ghost sending: set<Ptr>)
      requires Valid(Phase({p}, sending, {}, {})) && NodesOk(nodes) && p in nodes && nodes[p].FlowPkt?
               && !nodes[p].is_nat
      requires nodes[p].pkt + 1 == |nodes[p].info.template.pkts|
      requires sending == {p} || (sending == {} && SendsNoMore(nodes[p], clean))
      requires KindsOk(nodes, special)
      modifies `nodes, `m_p_queue, `m_tcp_dpc, `m_udp_dpc, `owner, `m_sockets, `m_active_alloc, `flows
      ensures Valid(REST) && NodesOk(nodes) && KindsOk(nodes, special)
              && FifTime(nodes, special) == FifTime(old(nodes), special)
      ensures TotalWork(nodes, special.horizon) < TotalWork(old(nodes), special.horizon)
      ensures p !in nodes && IsOver(old(nodes)[p].info.id)
    {
      hide Core.Ok, TotalWork, NodesOk, KindsOk, NoRepeats, OnlyDefers, SendsNoMore, FifTime;
      Ends(Now(), sending, p);
      PortsDiffer(Now(), Phase({p}, sending, {}, {}), p);
      var f := nodes[p].info.id;
      flows := flows[f := Ended(flows[f], false)];
      KindsWithout(nodes, special, p);
      ghost var before := nodes;
      FreeLastFlowNode(p);
      KindsKept(before - {p}, nodes, special);
    }

    /** The FLOW_PKT event: the packet leaves, unless the flow is repeated and the run is being closed; the flow goes
        on to its next packet, starts over after its restart time, or is over. */
    method HandleFlowPkt(p: Ptr, always: bool)
      requires Running() && always == clean && m_p_queue != [] && p == m_p_queue[0]
      requires p in nodes && nodes[p].FlowPkt? && !nodes[p].is_nat
      modifies `nodes, `m_p_queue, `m_tcp_dpc, `m_udp_dpc, `owner, `m_sockets, `m_active_alloc, `m_wire, `log, `clock,
        `flows
      ensures Running() && FifTime(nodes, special) == FifTime(old(nodes), special)
      ensures always || old(nodes)[p].m_time <= special.horizon ==>
                TotalWork(nodes, special.horizon) < TotalWork(old(nodes), special.horizon)
      ensures log == old(log) + (if old(nodes)[p].info.template.repeat && always then [] else [Event(old(nodes)[p])])
      ensures var node := old(nodes)[p];
              if node.pkt + 1 != |node.info.template.pkts| then nodes == old(nodes)[p := Forwarded(node)]
              else if node.info.template.repeat && !always then nodes == old(nodes)[p := Restarted(node)]
              else p !in nodes && IsOver(node.info.id)
    {
      hide Forwarded, Restarted, IsOver, Core.Ok, TotalWork, NodesOk, KindsOk, GensOk, NoRepeats, OnlyDefers, FifTime;
      TopExists();
      assert NodeOk(nodes[p]) by { OneIsOk(nodes, p); }
      var template := nodes[p].info.template;
      ghost var sending: set<Ptr> := {};
      if !template.repeat || !always {
        FlushOneNodeToFile(p);
        sending := {p};
      }
      var _ := PopNode(REST.(sending := sending));
      assert {} + {p} == {p};
      var node := nodes[p];
      if node.pkt + 1 == |template.pkts| {
        if template.repeat && !always {
          RescheduleFlow(p);
        } else {
          EndFlow(p, sending);
        }
      } else {
        NextPkt(p, sending);
      }
    }

    /** reschedule_flow */
    method RescheduleFlow(p: Ptr)
      requires NodesOk(nodes) && Valid(Phase({p}, {p}, {}, {})) && !clean && p in nodes && nodes[p].FlowPkt?
               && !nodes[p].is_nat
      requires nodes[p].pkt + 1 == |nodes[p].info.template.pkts| && nodes[p].info.template.repeat
      requires KindsOk(nodes, special)
      modifies `nodes, `m_p_queue
      ensures Valid(REST) && NodesOk(nodes) && KindsOk(nodes, special)
              && FifTime(nodes, special) == FifTime(old(nodes), special)
      ensures old(nodes)[p].m_time <= special.horizon ==>
              TotalWork(nodes, special.horizon) < TotalWork(old(nodes), special.horizon)
      ensures nodes == old(nodes)[p := Restarted(old(nodes)[p])]
    {
      hide Core.Ok, NodesOk, KindsOk, TotalWork, FifTime;
      StartsOver(Now(), p, special.horizon);
      var node := nodes[p].(m_time := nodes[p].m_time + nodes[p].info.template.restart_time, pkt := 0);
      KindsChanged(nodes, special, p, node);
      nodes := nodes[p := node];
      AddNode(p, Holding(p));
      assert {p} - {p} == {};
      NodesAreOk(Now(), REST);
    }

    /** terminate_nat_flows */
    method TerminateNatFlows(p: Ptr)
      requires Valid(Holding(p)) && NodesOk(nodes) && p in nodes && nodes[p].FlowPkt? && nodes[p].is_nat
      requires NodeOk(nodes[p]) && !nodes[p].info.template.pkts[nodes[p].pkt].init_side
      requires KindsOk(nodes, special)
      modifies `nodes, `m_p_queue, `m_tcp_dpc, `m_udp_dpc, `owner, `m_sockets, `m_active_alloc, `flows,
        `m_flow_id_to_node_lookup, `m_stats
      ensures Valid(REST) && NodesOk(nodes) && KindsOk(nodes, special)
              && FifTime(nodes, special) == FifTime(old(nodes), special)
      ensures TotalWork(nodes, special.horizon) < TotalWork(old(nodes), special.horizon)
      ensures p !in nodes && m_flow_id_to_node_lookup == old(m_flow_id_to_node_lookup) - {old(nodes)[p].info.id}
      ensures m_stats.m_nat_flow_timeout == old(m_stats).m_nat_flow_timeout + 1
    {
      hide Core.Ok, TotalWork, NodesOk, NodeOk, KindsOk, NoRepeats, OnlyDefers, FifTime;
      TimesOut(Now(), p);
      PortsDiffer(Now(), Holding(p), p);
      var fid := nodes[p].info.id;
      flows := flows[fid := Ended(flows[fid], true)];
      m_stats := m_stats.(m_nat_flow_timeout := m_stats.m_nat_flow_timeout + 1,
                          m_nat_lookup_remove_flow_id := m_stats.m_nat_lookup_remove_flow_id + 1);
      m_flow_id_to_node_lookup := m_flow_id_to_node_lookup - {fid};
      KindsWithout(nodes, special, p);
      ghost var before := nodes;
      FreeLastFlowNode(p);
      KindsKept(before - {p}, nodes, special);
    }

    /** The first packet of a flow that learns its translation. */
    method SendLearnPkt(p: Ptr)
      requires Valid(REST) && NodesOk(nodes) && Earliest(nodes, p) && nodes[p].FlowPkt? && nodes[p].is_nat
               && NodeOk(nodes[p])
      requires KindsOk(nodes, special)
      modifies `nodes, `m_wire, `log, `clock
      ensures nodes == old(nodes)[p := old(nodes)[p].(nat_bits := NatWait)] && NodesOk(nodes)
      ensures log == old(log) + [Event(old(nodes)[p])]
      ensures Valid(REST.(sending := {p})) && KindsOk(nodes, special) && NatNodeOk(nodes[p], m_wire)
      ensures FifTime(nodes, special) == FifTime(old(nodes), special)
      ensures TotalWork(nodes, special.horizon) == TotalWork(old(nodes), special.horizon)
    {
      hide Core.Ok, TotalWork, NodesOk, KindsOk, FifTime;
      Waits(Now(), p);
      var node := nodes[p].(nat_bits := NatWait);
      KindsChanged(nodes, special, p, node);
      WorkChanged(nodes, p, node, special.horizon);
      StillEarliest(nodes, p, node);
      nodes := nodes[p := node];
      NatNodeIn(Now(), p);
      FlushOneNodeToFile(p);
    }

    /** The FLOW_PKT_NAT event: a flow that waits before a responder packet is given up, any other sends its packet
        and waits on; it never sends its last packet so. */
    method HandleNat(p: Ptr)
      requires Running() && m_p_queue != [] && p == m_p_queue[0]
      requires p in nodes && nodes[p].FlowPkt? && nodes[p].is_nat
      modifies `nodes, `m_p_queue, `m_tcp_dpc, `m_udp_dpc, `owner, `m_sockets, `m_active_alloc, `m_wire, `log, `clock,
        `flows, `m_flow_id_to_node_lookup, `m_stats
      ensures Running() && FifTime(nodes, special) == FifTime(old(nodes), special)
      ensures TotalWork(nodes, special.horizon) < TotalWork(old(nodes), special.horizon)
      ensures GivesUp(old(nodes)[p]) ==>
                && p !in nodes && m_flow_id_to_node_lookup == old(m_flow_id_to_node_lookup) - {old(nodes)[p].info.id}
                && log == old(log) && m_stats.m_nat_flow_timeout == old(m_stats).m_nat_flow_timeout + 1
      ensures !GivesUp(old(nodes)[p]) ==>
                && nodes == old(nodes)[p := Forwarded(old(nodes)[p].(nat_bits := NatWait))]
                && log == old(log) + [Event(old(nodes)[p])]
                && m_flow_id_to_node_lookup == old(m_flow_id_to_node_lookup) && m_stats == old(m_stats)
    {
      hide Core.Ok, TotalWork, NodesOk, KindsOk, GensOk, NoRepeats, OnlyDefers, FifTime, Forwarded;
      TopExists();
      assert NodeOk(nodes[p]) by { OneIsOk(nodes, p); }
      NatNodeIn(Now(), p);
      if nodes[p].nat_bits == NatFirst {
        SendLearnPkt(p);
      } else if nodes[p].nat_bits == NatWait {
        if !nodes[p].info.template.pkts[nodes[p].pkt].init_side {
          var _ := PopNode(REST);
          assert {} + {p} == {p};
          TerminateNatFlows(p);
          return;
        } else {
          FlushOneNodeToFile(p);
        }
      } else {
        assert false;
      }
      PopAndMoveOn(p);
    }

    method PopAndMoveOn(p: Ptr)
      requires Valid(REST.(sending := {p})) && NodesOk(nodes) && KindsOk(nodes, special) && m_p_queue != []
               && p == m_p_queue[0]
      requires p in nodes && nodes[p].FlowPkt? && nodes[p].is_nat && nodes[p].nat_bits == NatWait && NodeOk(nodes[p])
      requires NatNodeOk(nodes[p], m_wire) && nodes[p].info.template.pkts[nodes[p].pkt].init_side
      modifies `nodes, `m_p_queue
      ensures Valid(REST) && NodesOk(nodes) && KindsOk(nodes, special)
              && FifTime(nodes, special) == FifTime(old(nodes), special)
      ensures TotalWork(nodes, special.horizon) < TotalWork(old(nodes), special.horizon)
      ensures nodes == old(nodes)[p := Forwarded(old(nodes)[p])]
    {
      hide Core.Ok, TotalWork, NodesOk, KindsOk, FifTime, Forwarded;
      WaitingMeetsResponder(nodes[p], m_wire);
      var _ := PopNode(REST.(sending := {p}));
      assert {} + {p} == {p};
      if nodes[p].pkt + 1 == |nodes[p].info.template.pkts| {
        assert false;
      } else {
        NextPkt(p, {p});
      }
    }

    /** The client's port and the two that some plugins ask for. */
    method AllocPorts(template: Template, ghost hand: set<Ptr>) returns (sockets: seq<Socket>)
      requires Valid(Phase(hand, {}, {}, {}))
      modifies `m_sockets, `m_active_alloc
      ensures |sockets| == (if template.plugin_ports then 3 else 1) && NoRepeats(sockets)
      ensures forall i :: 0 <= i < |sockets| ==> sockets[i] !in old(m_sockets) && sockets[i].pool == template.pool
      ensures forall i :: 0 <= i < |sockets| ==> sockets[i].client == sockets[0].client
      ensures m_sockets == old(m_sockets) + SetOf(sockets)
      ensures Valid(Phase(hand, {}, {}, SetOf(sockets)))
    {
      hide Valid;
      var s := AllocPort(template.pool, None, Phase(hand, {}, {}, {}));
      sockets := [s];
      assert {} + {s} == SetOf(sockets);
      if template.plugin_ports {
        var s1 := AllocPort(template.pool, Some(s.client), Phase(hand, {}, {}, SetOf([s])));
        assert s1 !in old(m_sockets) + {s};
        var s2 := AllocPort(template.pool, Some(s.client), Phase(hand, {}, {}, SetOf([s]) + {s1}));
        sockets := [s, s1, s2];
        assert SetOf([s]) + {s1} + {s2} == SetOf(sockets);
      }
    }

    /** The node of a new flow, in the NAT table if the flow has to learn its translation. */
    method BeginFlow(node: Node, ghost hand: set<Ptr>) returns (p: Ptr)
      requires Valid(Phase(hand, {}, {}, SetOf(Held(node))))
      requires node.FlowPkt? && NodeOk(node) && node.info.id == m_cur_flow_id && node.pkt == 0
               && NoRepeats(node.info.sockets)
      requires node.is_nat == (m_learn_mode && node.info.template.bi_dir) && (node.is_nat ==> node.nat_bits == NatFirst)
      requires clock <= node.m_time
      modifies `nodes, `owner, `flows, `m_cur_flow_id, `m_flow_id_to_node_lookup, `m_stats
      ensures p !in old(nodes) && nodes == old(nodes)[p := node]
      ensures Valid(Phase(hand + {p}, {}, {}, {}))
      ensures m_cur_flow_id == old(m_cur_flow_id) + 1
      ensures m_flow_id_to_node_lookup
              == if node.is_nat then old(m_flow_id_to_node_lookup)[node.info.id := p] else old(m_flow_id_to_node_lookup)
    {
      hide Core.Ok, NodeOk, NoRepeats, SetOf;
      p := PickPtr(nodes);
      owner := Generated(Now(), hand, p, node, m_learn_mode);
      if node.is_nat {
        Associate(p);
      }
      flows := flows[m_cur_flow_id := FlowRecord(node.info, p, false, false)];
      nodes := nodes[p := node];
      m_cur_flow_id := m_cur_flow_id + 1;
    }

    method Associate(p: Ptr)
      requires m_cur_flow_id !in m_flow_id_to_node_lookup
      modifies `m_flow_id_to_node_lookup, `m_stats
      ensures m_flow_id_to_node_lookup == old(m_flow_id_to_node_lookup)[m_cur_flow_id := p]
      ensures m_stats == old(m_stats).(m_nat_lookup_add_flow_id := old(m_stats).m_nat_lookup_add_flow_id + 1)
    {
      m_stats := m_stats.(m_nat_lookup_add_flow_id := m_stats.m_nat_lookup_add_flow_id + 1);
      m_flow_id_to_node_lookup := m_flow_id_to_node_lookup[m_cur_flow_id := p];
    }

    /** generate_flow: a new node with one port or three, which were free, is queued, and is in the table if it has
        to learn. */
    method GenerateFlow(template: Template, ghost hand: set<Ptr>) returns (p: Ptr)
      requires Valid(Phase(hand, {}, {}, {})) && NodesOk(nodes) && KindsOk(nodes, special)
      requires template.Legal() && clock <= m_cur_time_sec
      requires m_learn_mode ==> m_cur_flow_id < SHORT_FID_LIMIT
      modifies `nodes, `m_p_queue, `m_sockets, `m_active_alloc, `owner, `flows, `m_cur_flow_id,
        `m_flow_id_to_node_lookup, `m_stats
      ensures Valid(Phase(hand, {}, {}, {})) && NodesOk(nodes) && KindsOk(nodes, special)
      ensures m_cur_flow_id == old(m_cur_flow_id) + 1
      ensures p !in old(nodes) && p in nodes && nodes == old(nodes)[p := nodes[p]]
      ensures IsNewFlow(nodes[p], m_cur_time_sec, old(m_cur_flow_id), template, m_learn_mode, old(m_sockets))
      ensures m_sockets == old(m_sockets) + SetOf(nodes[p].info.sockets)
      ensures m_flow_id_to_node_lookup == if nodes[p].is_nat then old(m_flow_id_to_node_lookup)[old(m_cur_flow_id) := p]
                                          else old(m_flow_id_to_node_lookup)
      ensures multiset(m_p_queue) == multiset(old(m_p_queue)) + multiset{p}
    {
      hide Core.Ok, NodesOk, KindsOk, Template.Legal, NoRepeats, SetOf;
      HandIsNodes(Now(), Phase(hand, {}, {}, {}));
      LegalHasPackets(template);
      var sockets := AllocPorts(template, hand);
      var is_nat := m_learn_mode && template.bi_dir;
      var node := FlowPkt(m_cur_time_sec, is_nat, if is_nat then NatFirst else NoNat,
                          FlowInfo(m_cur_flow_id, template, sockets), 0);
      ghost var before := nodes;
      p := BeginFlow(node, hand);
      KindsChanged(before, special, p, node);
      AddNode(p, Phase(hand + {p}, {}, {}, {}));
      assert hand + {p} - {p} == hand;
      NodesAreOk(Now(), Phase(hand, {}, {}, {}));
    }

    method IncCurrentTemplate()
      requires m_cur_template < |m_cap_gen|
      modifies `m_cur_template
      ensures m_cur_template == Wrap(old(m_cur_template), 1, |m_cap_gen|)
    {
      m_cur_template := m_cur_template + 1;
      if m_cur_template == |m_cap_gen| {
        m_cur_template := 0;
      }
    }

    /** The search of generate_flows_roundrobin: in turn from the current template on, each template that has not
        reached its limit is asked once, until the policer of one lets it through. */
    method PickTemplate() returns (done: bool, found: bool, cur: nat)
      requires GensOk()
      modifies `m_cap_gen, `m_cur_template
      ensures GensOk() && |m_cap_gen| == |old(m_cap_gen)|
      ensures done <==> forall i :: 0 <= i < |m_cap_gen| ==> old(m_cap_gen)[i].Reached()
      ensures found ==> cur < |m_cap_gen| && cur == m_cur_template
                        && exists k :: FirstInTurn(old(m_cap_gen), old(m_cur_template), k, m_cur_time_sec, m_cap_gen,
                                                   cur)
      ensures !found ==> m_cur_template == old(m_cur_template)
                         && AskedInTurn(old(m_cap_gen), old(m_cur_template), |m_cap_gen|, m_cur_time_sec, m_cap_gen)
    {
      hide Template.Legal, Policer.Bucket.Update, AskedInTurn, FirstInTurn;
      done, found, cur := true, false, 0;
      ghost var start := m_cur_template;
      ghost var gens := m_cap_gen;
      NobodyAsked(gens, start, m_cur_time_sec);
      for i := 0 to |m_cap_gen|
        invariant GensOk() && |m_cap_gen| == |gens|
        invariant m_cur_template == Wrap(start, i, |gens|)
        invariant !found && AskedInTurn(gens, start, i, m_cur_time_sec, m_cap_gen)
        invariant done ==> forall k :: 0 <= k < i ==> gens[Wrap(start, k, |gens|)].Reached()
        invariant !done ==> exists j :: 0 <= j < |gens| && !gens[j].Reached()
      {
        cur := m_cur_template;
        NextAsked(gens, start, i, m_cur_time_sec, m_cap_gen);
        ghost var before := m_cap_gen;
        SetTwice(before, cur, gens[cur], gens[cur]);
        if !m_cap_gen[cur].Reached() {
          done := false;
          assert !gens[cur].Reached();
          var (policer, ok) := m_cap_gen[cur].policer.Update(1.0, m_cur_time_sec);
          m_cap_gen := m_cap_gen[cur := m_cap_gen[cur].(policer := policer)];
          if ok {
            m_cap_gen := m_cap_gen[cur := m_cap_gen[cur].(flowcnt := m_cap_gen[cur].flowcnt + 1)];
            found := true;
            SetTwice(before, cur, Asked(gens[cur], m_cur_time_sec), m_cap_gen[cur]);
            FoundInTurn(gens, start, i, m_cur_time_sec, before, cur);
            return;
          }
        }
        IncCurrentTemplate();
      }
      if done {
        forall j | 0 <= j < |gens| ensures gens[j].Reached() {
          var k := Turn(start, j, |gens|);
        }
      }
    }

    /** generate_flows_roundrobin: a flow is opened now exactly if some template is below its limit and its bucket
        lets it through; it is a flow of the first such template in turn. */
    method GenerateFlowsRoundrobin(ghost hand: set<Ptr>) returns (done: bool, ghost p: Ptr, ghost cur: nat)
      requires Valid(Phase(hand, {}, {}, {})) && NodesOk(nodes) && KindsOk(nodes, special) && GensOk()
      requires clock <= m_cur_time_sec && (m_learn_mode ==> m_cur_flow_id < SHORT_FID_LIMIT)
      modifies `nodes, `m_p_queue, `m_sockets, `m_active_alloc, `owner, `flows, `m_cur_flow_id,
        `m_flow_id_to_node_lookup, `m_stats, `m_cap_gen, `m_cur_template
      ensures Valid(Phase(hand, {}, {}, {})) && NodesOk(nodes) && KindsOk(nodes, special) && GensOk()
      ensures m_cur_flow_id == old(m_cur_flow_id) + (if SomeGrants(old(m_cap_gen), m_cur_time_sec) then 1 else 0)
      ensures FlowCount(m_cap_gen) == FlowCount(old(m_cap_gen)) + m_cur_flow_id - old(m_cur_flow_id)
      ensures SomeGrants(old(m_cap_gen), m_cur_time_sec) ==>
                && cur < |m_cap_gen| && p in nodes
                && (exists k :: FirstInTurn(old(m_cap_gen), old(m_cur_template), k, m_cur_time_sec, m_cap_gen, cur))
                && p !in old(nodes) && nodes == old(nodes)[p := nodes[p]]
                && IsNewFlow(nodes[p], m_cur_time_sec, old(m_cur_flow_id), m_cap_gen[cur].template, m_learn_mode,
                             old(m_sockets))
                && multiset(m_p_queue) == multiset(old(m_p_queue)) + multiset{p}
                && m_cur_template == Wrap(cur, 1, |m_cap_gen|)
      ensures !SomeGrants(old(m_cap_gen), m_cur_time_sec) ==>
                nodes == old(nodes) && m_p_queue == old(m_p_queue) && m_cur_template == old(m_cur_template)
      ensures done <==> AllReached(old(m_cap_gen))
    {
      hide Core.Ok, NodesOk, KindsOk, Template.Legal, FirstInTurn, AskedInTurn, SomeGrants, FlowCount, IsNewFlow;
      hide CapGen.Reached;
      ghost var gens, start := m_cap_gen, m_cur_template;
      var found;
      done, found, cur := PickFor();
      p := 0;
      if found {
        p := GenerateFlow(m_cap_gen[m_cur_template].template, hand);
        IncCurrentTemplate();
      }
    }

    /** The template that the next flow is of. */
    method PickFor() returns (done: bool, found: bool, ghost cur: nat)
      requires GensOk()
      modifies `m_cap_gen, `m_cur_template
      ensures GensOk() && |m_cap_gen| == |old(m_cap_gen)|
      ensures done <==> AllReached(old(m_cap_gen))
      ensures found <==> SomeGrants(old(m_cap_gen), m_cur_time_sec)
      ensures FlowCount(m_cap_gen) == FlowCount(old(m_cap_gen)) + (if found then 1 else 0)
      ensures found ==> cur < |m_cap_gen| && cur == m_cur_template
                        && exists k :: FirstInTurn(old(m_cap_gen), old(m_cur_template), k, m_cur_time_sec, m_cap_gen,
                                                   cur)
      ensures !found ==> m_cur_template == old(m_cur_template)
    {
      hide Template.Legal, FirstInTurn, AskedInTurn, SomeGrants, FlowCount;
      ghost var gens, start := m_cap_gen, m_cur_template;
      done, found, cur := PickTemplate();
      if found {
        ghost var k :| FirstInTurn(gens, start, k, m_cur_time_sec, m_cap_gen, cur);
        OneGrants(gens, start, k, m_cur_time_sec, m_cap_gen, cur);
      } else {
        NoneGrants(gens, start, m_cur_time_sec, m_cap_gen);
      }
    }

    /** The FLOW_FIF event: time for new flows, until every template has reached its limit or the run is closed.
        A flow is opened exactly if some template grants one. */
    method HandleFif(p: Ptr, d_time: real, always: bool)
      requires Running() && always == clean && m_p_queue != [] && p == m_p_queue[0]
      requires p in nodes && nodes[p].FlowFif? && d_time > 0.0
      requires !always && m_learn_mode ==> m_cur_flow_id < SHORT_FID_LIMIT
      modifies `nodes, `m_p_queue, `m_sockets, `m_active_alloc, `owner, `flows, `m_cur_flow_id,
        `m_flow_id_to_node_lookup, `m_stats, `m_cap_gen, `m_cur_template, `m_cur_time_sec, `special
      ensures Running() && special == old(special).(fif := special.fif)
      ensures FifStep(old(m_cap_gen), m_cap_gen, old(m_cur_flow_id), m_cur_flow_id, old(nodes)[p].m_time,
                      FifTime(nodes, special), d_time, always)
      ensures old(m_cur_flow_id) <= m_cur_flow_id <= old(m_cur_flow_id) + (if always then 0 else 1)
      ensures m_cur_time_sec == if always then old(m_cur_time_sec) else old(nodes)[p].m_time
      ensures always ==> TotalWork(nodes, special.horizon) < TotalWork(old(nodes), special.horizon)
      ensures old(nodes)[p].m_time <= special.horizon ==>
              FifTicks(nodes, special, d_time) < FifTicks(old(nodes), old(special), d_time)
    {
      hide Core.Ok, TotalWork, NodesOk, KindsOk, GensOk, FifTime, Ticks, SomeGrants, AllReached, FlowCount, IsNewFlow;
      FifNotPast(Now(), REST, p);
      ghost var before := nodes;
      FifMoves(nodes, special, p, nodes[p].m_time + d_time);
      var _ := PopNode(REST);
      assert {} + {p} == {p};
      if !always {
        m_cur_time_sec := nodes[p].m_time;
        var done := OpenFlow(p);
        if !done {
          NextFif(p, nodes[p].m_time + d_time);
        } else {
          FreeFif(p);
        }
      } else {
        FreeFif(p);
      }
      FifTicksLess(before, before[p].m_time, nodes, old(special), special, d_time);
    }

    /** While the FLOW_FIF node is in hand. */
    method OpenFlow(fif: Ptr) returns (done: bool)
      requires Valid(Holding(fif)) && NodesOk(nodes) && KindsOk(nodes, special) && GensOk()
      requires fif in nodes && clock <= m_cur_time_sec && (m_learn_mode ==> m_cur_flow_id < SHORT_FID_LIMIT)
      modifies `nodes, `m_p_queue, `m_sockets, `m_active_alloc, `owner, `flows, `m_cur_flow_id,
        `m_flow_id_to_node_lookup, `m_stats, `m_cap_gen, `m_cur_template
      ensures Valid(Holding(fif)) && NodesOk(nodes) && KindsOk(nodes, special) && GensOk()
      ensures fif in nodes && nodes[fif] == old(nodes)[fif]
      ensures m_cur_flow_id == old(m_cur_flow_id) + (if SomeGrants(old(m_cap_gen), m_cur_time_sec) then 1 else 0)
      ensures FlowCount(m_cap_gen) == FlowCount(old(m_cap_gen)) + m_cur_flow_id - old(m_cur_flow_id)
      ensures done <==> AllReached(old(m_cap_gen))
    {
      hide Core.Ok, NodesOk, KindsOk, GensOk, SomeGrants, AllReached, FlowCount, IsNewFlow, FirstInTurn;
      ghost var p, cur;
      done, p, cur := GenerateFlowsRoundrobin({fif});
    }

    method NextFif(p: Ptr, time: real)
      requires Valid(Holding(p)) && KindsOk(nodes, special)
      requires p in nodes && nodes[p].FlowFif? && nodes[p].m_time <= time
      modifies `nodes, `m_p_queue
      ensures Valid(REST) && NodesOk(nodes) && KindsOk(nodes, special) && FifTime(nodes, special) == Some(time)
    {
      hide Core.Ok, NodesOk, KindsOk, FifTime;
      OtherMoved(Now(), p, FlowFif(time));
      KindsChanged(nodes, special, p, FlowFif(time));
      FifMoves(nodes, special, p, time);
      nodes := nodes[p := FlowFif(time)];
      AddNode(p, Holding(p));
      assert {p} - {p} == {};
      NodesAreOk(Now(), REST);
    }

    /** No more flows are opened. */
    method FreeFif(p: Ptr)
      requires Valid(Holding(p)) && NodesOk(nodes) && KindsOk(nodes, special)
      requires p in nodes && nodes[p].FlowFif?
      modifies `nodes, `special
      ensures Valid(REST) && NodesOk(nodes) && special == old(special).(fif := None) && KindsOk(nodes, special)
      ensures FifTime(nodes, special) == None
      ensures TotalWork(nodes, special.horizon) < TotalWork(old(nodes), special.horizon)
    {
      hide Core.Ok, TotalWork, NodesOk, KindsOk;
      LetGo(Now(), p);
      assert SetOf([]) == {};
      FifGone(nodes, special, p);
      WorkWithout(nodes, p, special.horizon);
      assert NodeOk(nodes[p]);
      special := special.(fif := None);
      FreeNode(p);
      NodesAreOk(Now(), REST);
    }

    /** The FLOW_DEFER_PORT_RELEASE event. */
    method HandleDefer(p: Ptr)
      requires Running() && m_p_queue != [] && p == m_p_queue[0]
      requires p in nodes && nodes[p].DeferPort?
      modifies `nodes, `m_p_queue, `m_sockets, `m_active_alloc
      ensures Running() && FifTime(nodes, special) == FifTime(old(nodes), special)
      ensures TotalWork(nodes, special.horizon) < TotalWork(old(nodes), special.horizon)
    {
      hide Core.Ok, TotalWork, NodesOk, KindsOk, GensOk, FifTime;
      var _ := PopNode(REST);
      assert {} + {p} == {p};
      KindsWithout(nodes, special, p);
      ReleaseDefer(p);
    }

    /** handler_defer_job and free_node */
    method ReleaseDefer(p: Ptr)
      requires Valid(Holding(p)) && NodesOk(nodes) && p in nodes && nodes[p].DeferPort?
      modifies `nodes, `m_sockets, `m_active_alloc
      ensures Valid(REST) && NodesOk(nodes) && nodes == old(nodes) - {p}
      ensures TotalWork(nodes, special.horizon) < TotalWork(old(nodes), special.horizon)
    {
      hide Core.Ok, TotalWork, NodesOk, NoRepeats;
      PortsDiffer(Now(), Holding(p), p);
      LetGo(Now(), p);
      WorkWithout(nodes, p, special.horizon);
      assert NodeOk(nodes[p]);
      HandlerDeferJob(p);
      FreeNode(p);
      NodesAreOk(Now(), REST);
    }

    /** handel_nat_msg: every translation the message carries.  A flow that is in the table leaves it and waits no
        longer; a translation for any other changes nothing but a counter. */
    method HandelNatMsg(msg: seq<NatBatch.NatFlowInfo>, ghost hand: set<Ptr>)
      requires Valid(Phase(hand, {}, {}, {})) && NodesOk(nodes) && KindsOk(nodes, special)
      requires forall i :: 0 <= i < |msg| ==> msg[i].m_fid in m_wire
      modifies `nodes, `m_flow_id_to_node_lookup, `m_stats
      ensures Valid(Phase(hand, {}, {}, {})) && NodesOk(nodes) && KindsOk(nodes, special)
      ensures TotalWork(nodes, special.horizon) == TotalWork(old(nodes), special.horizon)
              && SameButNat(old(nodes), nodes)
      ensures nodes == LearnedNodes(old(nodes), Fids(msg))
      ensures m_flow_id_to_node_lookup == old(m_flow_id_to_node_lookup) - Fids(msg)
      ensures CountsLearned(old(m_stats), m_stats, |old(m_flow_id_to_node_lookup)| - |m_flow_id_to_node_lookup|, |msg|)
    {
      hide Valid, TotalWork, NodesOk, KindsOk, LearnedNodes, SameButNat, Fids, LearnedSoFar, CountsLearned;
      LearnedStart(nodes, m_flow_id_to_node_lookup, m_stats, msg);
      for i := 0 to |msg|
        invariant Valid(Phase(hand, {}, {}, {})) && NodesOk(nodes) && KindsOk(nodes, special)
        invariant TotalWork(nodes, special.horizon) == TotalWork(old(nodes), special.horizon)
        invariant LearnedSoFar(old(nodes), old(m_flow_id_to_node_lookup), old(m_stats), msg, i, nodes,
                               m_flow_id_to_node_lookup, m_stats)
      {
        ghost var nodes', table', stats' := nodes, m_flow_id_to_node_lookup, m_stats;
        Learn(msg[i], hand);
        LearnedNext(old(nodes), old(m_flow_id_to_node_lookup), old(m_stats), msg, i, nodes', table', stats',
                    m_flow_id_to_node_lookup, m_stats);
      }
      LearnedAll(old(nodes), old(m_flow_id_to_node_lookup), old(m_stats), msg, nodes, m_flow_id_to_node_lookup,
                 m_stats);
    }

    method Learn(nat_msg: NatBatch.NatFlowInfo, ghost hand: set<Ptr>)
      requires Valid(Phase(hand, {}, {}, {})) && NodesOk(nodes) && KindsOk(nodes, special)
      requires nat_msg.m_fid in m_wire
      modifies `nodes, `m_flow_id_to_node_lookup, `m_stats
      ensures Valid(Phase(hand, {}, {}, {})) && NodesOk(nodes) && KindsOk(nodes, special)
      ensures TotalWork(nodes, special.horizon) == TotalWork(old(nodes), special.horizon)
              && SameButNat(old(nodes), nodes)
      ensures nodes == LearnedNodes(old(nodes), {nat_msg.m_fid})
      ensures m_flow_id_to_node_lookup == old(m_flow_id_to_node_lookup) - {nat_msg.m_fid}
      ensures CountsLearned(old(m_stats), m_stats, if nat_msg.m_fid in old(m_flow_id_to_node_lookup) then 1 else 0, 1)
    {
      hide Core.Ok, TotalWork, NodesOk, KindsOk;
      LearnedOne(Now(), hand, nat_msg.m_fid);
      if nat_msg.m_fid !in m_flow_id_to_node_lookup {
        m_stats := m_stats.(m_nat_lookup_no_flow_id := m_stats.m_nat_lookup_no_flow_id + 1);
        return;
      }
      Learned(Now(), hand, nat_msg.m_fid, special.horizon);
      var p := m_flow_id_to_node_lookup[nat_msg.m_fid];
      assert nodes[p].nat_bits == NatWait;
      KindsChanged(nodes, special, p, nodes[p].(is_nat := false));
      nodes := nodes[p := nodes[p].(is_nat := false)];
      m_flow_id_to_node_lookup := m_flow_id_to_node_lookup - {nat_msg.m_fid};
      m_stats := m_stats.(m_nat_lookup_remove_flow_id := m_stats.m_nat_lookup_remove_flow_id + 1);
      NodesAreOk(Now(), Phase(hand, {}, {}, {}));
    }

    /** What is on the ring: whatever the network has made of the learn packets it has seen, in any order, any number
        of times, or not at all. */
    method TakeFromRing() returns (msg: seq<NatBatch.NatFlowInfo>)
      ensures forall i :: 0 <= i < |msg| ==> msg[i].m_fid in m_wire
    {
      var none: seq<NatBatch.NatFlowInfo> := [];
      assert forall i :: 0 <= i < |none| ==> none[i].m_fid in m_wire;
      msg :| forall i :: 0 <= i < |msg| ==> msg[i].m_fid in m_wire;
    }

    /** The FLOW_SYNC event: time is noted and the messages on the ring are read; the scheduler stops when nothing else
        is queued, and comes back in a millisecond otherwise. */
    method HandleSync(p: Ptr, msg: seq<NatBatch.NatFlowInfo>) returns (exit_scheduler: bool)
      requires forall i :: 0 <= i < |msg| ==> msg[i].m_fid in m_wire
      requires Running() && m_p_queue != [] && p == m_p_queue[0]
      requires p in nodes && nodes[p].FlowSync?
      modifies `nodes, `m_p_queue, `m_cur_time_sec, `m_flow_id_to_node_lookup, `m_stats
      ensures exit_scheduler <==> |old(m_p_queue)| == 1
      ensures m_cur_time_sec == old(nodes)[p].m_time
      ensures !exit_scheduler ==>
              Running() && TotalWork(nodes, special.horizon) == TotalWork(old(nodes), special.horizon)
                && Ticked(old(nodes), nodes, p)
      ensures !exit_scheduler ==> FifTime(nodes, special) == FifTime(old(nodes), special)
      ensures m_flow_id_to_node_lookup == old(m_flow_id_to_node_lookup) - Fids(msg)
      ensures !exit_scheduler ==>
              nodes == LearnedNodes(old(nodes), Fids(msg))[p := FlowSync(old(nodes)[p].m_time + SYNC_TIME_OUT)]
      ensures exit_scheduler ==> Drained() && special.exit == None
    {
      hide Core.Ok, TotalWork, NodesOk, KindsOk, GensOk, SameButNat, Ticked, FifTime, LearnedNodes, Fids;
      hide CountsLearned;
      assert p == special.sync by { OneSync(nodes, special, p); }
      m_cur_time_sec := nodes[p].m_time;
      ghost var before := nodes;
      PopAndRead(p, msg);
      if |m_p_queue| == 0 {
        StopSync(p);
        exit_scheduler := true;
      } else {
        ghost var between := nodes;
        NextSync(p);
        TickedBy(before, between, nodes, p);
        TickedFif(before, nodes, special);
        exit_scheduler := false;
      }
    }

    method SyncWithRing(p: Ptr) returns (exit_scheduler: bool)
      requires Running() && m_p_queue != [] && p == m_p_queue[0]
      requires p in nodes && nodes[p].FlowSync?
      modifies `nodes, `m_p_queue, `m_cur_time_sec, `m_flow_id_to_node_lookup, `m_stats
      ensures exit_scheduler <==> |old(m_p_queue)| == 1
      ensures !exit_scheduler ==>
              Running() && TotalWork(nodes, special.horizon) == TotalWork(old(nodes), special.horizon)
                && Ticked(old(nodes), nodes, p)
      ensures !exit_scheduler ==> FifTime(nodes, special) == FifTime(old(nodes), special)
      ensures exit_scheduler ==> Drained() && special.exit == None
    {
      hide *;
      var msg := TakeFromRing();
      exit_scheduler := HandleSync(p, msg);
    }

    method PopAndRead(p: Ptr, msg: seq<NatBatch.NatFlowInfo>)
      requires Running() && m_p_queue != [] && p == m_p_queue[0] && p in nodes && nodes[p].FlowSync?
      requires forall i :: 0 <= i < |msg| ==> msg[i].m_fid in m_wire
      modifies `nodes, `m_p_queue, `m_flow_id_to_node_lookup, `m_stats
      ensures Valid(Holding(p)) && NodesOk(nodes) && KindsOk(nodes, special) && |m_p_queue| == |old(m_p_queue)| - 1
      ensures p in nodes && nodes[p] == old(nodes)[p] && SameButNat(old(nodes), nodes)
      ensures nodes == LearnedNodes(old(nodes), Fids(msg))
      ensures TotalWork(nodes, special.horizon) == TotalWork(old(nodes), special.horizon)
      ensures m_flow_id_to_node_lookup == old(m_flow_id_to_node_lookup) - Fids(msg)
    {
      hide Core.Ok, TotalWork, NodesOk, KindsOk, GensOk, SameButNat, LearnedNodes, Fids, CountsLearned;
      var _ := PopNode(REST);
      assert {} + {p} == {p};
      HandelNatMsg(msg, {p});
      KeptByNat(old(nodes), nodes, p);
    }

    method StopSync(p: Ptr)
      requires Valid(Holding(p)) && KindsOk(nodes, special) && p == special.sync && m_p_queue == []
      modifies `nodes
      ensures Drained() && special.exit == None
    {
      hide Core.Ok, NodesOk;
      OnlySyncLeft(Now(), special);
      LetGo(Now(), p);
      assert SetOf([]) == {};
      FreeNode(p);
    }

    method NextSync(p: Ptr)
      requires Valid(Holding(p)) && NodesOk(nodes) && KindsOk(nodes, special) && p in nodes && nodes[p].FlowSync?
      modifies `nodes, `m_p_queue
      ensures Valid(REST) && NodesOk(nodes) && KindsOk(nodes, special)
      ensures nodes == old(nodes)[p := FlowSync(old(nodes)[p].m_time + SYNC_TIME_OUT)]
              && TotalWork(nodes, special.horizon) == TotalWork(old(nodes), special.horizon)
    {
      hide Core.Ok, TotalWork, NodesOk, KindsOk;
      var node := FlowSync(nodes[p].m_time + SYNC_TIME_OUT);
      OtherMoved(Now(), p, node);
      KindsChanged(nodes, special, p, node);
      WorkChanged(nodes, p, node, special.horizon);
      nodes := nodes[p := node];
      AddNode(p, Holding(p));
      assert {p} - {p} == {};
      NodesAreOk(Now(), REST);
    }

    /** The EXIT_SCHED event. */
    method HandleExit(p: Ptr)
      requires Running() && m_p_queue != [] && p == m_p_queue[0]
      requires p in nodes && nodes[p].ExitSched?
      modifies `nodes, `m_p_queue, `special
      ensures Running() && special.exit == None && old(special.exit).Some?
    {
      hide Core.Ok, NodesOk, GensOk;
      var _ := PopNode(REST);
      assert {} + {p} == {p};
      LetGo(Now(), p);
      assert SetOf([]) == {};
      special := special.(exit := None);
      FreeNode(p);
      NodesAreOk(Now(), REST);
    }

    /** The queue is empty, and only the nodes that collect ports are left. */
    ghost predicate Drained()
      reads this
    {
      Valid(REST) && m_p_queue == [] && nodes.Keys == Now().Dpcs()
    }

    /** One round of the loop of flush_file: the earliest node, whatever it is.  Either a flow has been opened and
        opening comes closer to its end, or work has been done, or nothing but time has passed. */
    method HandleTop(d_time: real, always: bool) returns (exit_scheduler: bool)
      requires Running() && always == clean && d_time > 0.0
      requires !always && m_learn_mode ==> m_cur_flow_id < SHORT_FID_LIMIT
      modifies `nodes, `m_p_queue, `m_tcp_dpc, `m_udp_dpc, `owner, `m_sockets, `m_active_alloc, `m_wire, `log, `clock,
        `flows, `m_flow_id_to_node_lookup, `m_stats, `m_cur_flow_id, `m_cap_gen, `m_cur_template, `m_cur_time_sec,
        `special
      ensures !exit_scheduler ==> Running() && special == old(special).(fif := special.fif)
      ensures exit_scheduler && old(special.exit).Some? ==> Running() && special.exit == None
      ensures exit_scheduler && old(special.exit) == None ==> Drained() && special.exit == None
      ensures old(m_cur_flow_id) <= m_cur_flow_id <= old(m_cur_flow_id) + (if always then 0 else 1)
      ensures Opening(old(m_cap_gen), m_cap_gen, old(m_cur_flow_id), m_cur_flow_id,
                      FifTime(old(nodes), old(special)), if exit_scheduler then FifTime(old(nodes), old(special))
                                                         else FifTime(nodes, special), d_time, always)
      ensures exit_scheduler && old(special.exit).Some? && FifTime(old(nodes), old(special)).Some? ==>
                FifTime(old(nodes), old(special)).value >= old(special.horizon)
      ensures !exit_scheduler && (always || old(special.exit).Some?) ==>
                Progress(old(Now()), old(special), old(m_cur_flow_id), Now(), special, m_cur_flow_id, d_time, always)
    {
      hide Core.Ok, TotalWork, NodesOk, KindsOk, GensOk, Ticked, FifTime, FifTicks, SyncTicks, FifStep;
      hide Forwarded, Restarted, GivesUp, IsOver;
      TopExists();
      var node := m_p_queue[0];
      if special.exit.Some? {
        BeforeExit(nodes, special, node);
      }
      exit_scheduler := false;
      match nodes[node]
      case FlowPkt(_, is_nat, _, _, _) =>
        if is_nat {
          HandleNat(node);
        } else {
          HandleFlowPkt(node, always);
        }
        SameFifTicks(old(nodes), nodes, special, d_time);
      case FlowFif(_) =>
        FifIs(nodes, special, node);
        HandleFif(node, d_time, always);
      case DeferPort(_, _) =>
        HandleDefer(node);
        SameFifTicks(old(nodes), nodes, special, d_time);
      case FlowSync(_) =>
        assert node == special.sync by { OneSync(nodes, special, node); }
        exit_scheduler := SyncWithRing(node);
        if !exit_scheduler {
          SameFifTicks(old(nodes), nodes, special, d_time);
        }
      case ExitSched(_) =>
        ExitIsLast(nodes, special, node);
        HandleExit(node);
        exit_scheduler := true;
    }

    /** Everything is back in its pool, every port has been returned, the NAT table is empty, and every flow is
        over, having sent what it had to; what was sent was sent in order of time. */
    ghost predicate Closed()
      reads this
    {
      && nodes == map[] && m_p_queue == [] && m_flow_id_to_node_lookup == map[]
      && m_sockets == {} && m_active_alloc == 0
      && m_stats.m_nat_lookup_add_flow_id == m_stats.m_nat_lookup_remove_flow_id
      && m_cur_flow_id > 0 && (forall f :: f in flows <==> 0 < f < m_cur_flow_id)
      && (forall f :: f in flows ==> flows[f].info.id == f)
      && (forall f :: f in flows ==> flows[f].ended && SentAtEnd(log, flows[f]))
      && (forall i :: 0 <= i < |log| ==> log[i].id in flows)
      && (forall i, j :: 0 <= i < j < |log| ==> log[i].time <= log[j].time)
    }

    /** handler_defer_job_flush */
    method HandlerDeferJobFlush()
      requires Drained()
      modifies `nodes, `m_tcp_dpc, `m_udp_dpc, `m_sockets, `m_active_alloc
      ensures Closed()
    {
      hide Core.Ok, NodesOk, FlowsOk, TimesOk, SentAtEnd;
      NodesAreOk(Now(), REST);
      FlushDpc(true);
      FlushDpc(false);
      assert nodes == map[];
      AllClosed(Now());
    }

    method FlushDpc(is_tcp: bool)
      requires Drained() && NodesOk(nodes)
      modifies `nodes, `m_tcp_dpc, `m_udp_dpc, `m_sockets, `m_active_alloc
      ensures Drained() && NodesOk(nodes) && Dpc(is_tcp) == None && Dpc(!is_tcp) == old(Dpc(!is_tcp))
    {
      hide Core.Ok, NodesOk;
      if Dpc(is_tcp).Some? {
        var d := Dpc(is_tcp).value;
        TakenFromDpc(Now(), is_tcp, d);
        SetDpc(is_tcp, None);
        ReleaseDefer(d);
      }
    }

    /** The second pass of flush_file, entered when the first one has met its EXIT_SCHED node.  It ends: every
        event but FLOW_SYNC uses up work, and FLOW_SYNC comes closer to the next of the others. */
    method CleanClose(d_time: real)
      requires Running() && special.exit == None && !clean && d_time > 0.0
      modifies this
      ensures Closed()
      ensures m_cur_flow_id == old(m_cur_flow_id) && FlowCount(m_cap_gen) == FlowCount(old(m_cap_gen))
    {
      hide Core.Ok, TotalWork, NodesOk, KindsOk, GensOk, Ticked, Closed, FlowCount, SomeGrants, AllReached, FifTime;
      Closing(Now());
      clean := true;
      var done := false;
      ghost var horizon := special.horizon;
      ghost var ticks := SomeTicks(Now(), special);
      ghost var work := TotalWork(nodes, horizon);
      while !done
        invariant !done ==> Running() && special.exit == None && clean && NodesOk(nodes) && special.horizon == horizon
        invariant !done ==> work == TotalWork(nodes, horizon) && EnoughTicks(Now(), special.sync, ticks)
        invariant done ==> Drained()
        invariant m_cur_flow_id == old(m_cur_flow_id) && FlowCount(m_cap_gen) == FlowCount(old(m_cap_gen))
        decreases !done, work, ticks
      {
        ghost var before := Now();
        done := HandleTop(d_time, true);
        if !done {
          if TotalWork(nodes, horizon) < work {
            ticks := SomeTicks(Now(), special);
            work := TotalWork(nodes, horizon);
          } else {
            OneTickLess(before, Now(), special.sync, ticks);
            ticks := ticks - 1;
          }
        }
      }
      HandlerDeferJobFlush();
    }

    /** The first pass of flush_file with a positive max_time.  It ends with its EXIT_SCHED node, and FLOW_SYNC is
        then still queued: flows are opened a number of times, each template with a limit starts over a number
        of times, and FLOW_SYNC comes a number of times before max_time. */
    method FirstPass(max_time: real, d_time: real)
      requires Running() && special.exit == None && !clean && d_time > 0.0 && clock <= max_time && max_time > 0.0
      requires m_learn_mode ==> m_cur_flow_id + FifTicks(nodes, special.(horizon := max_time), d_time) < SHORT_FID_LIMIT
      modifies `nodes, `m_p_queue, `m_tcp_dpc, `m_udp_dpc, `owner, `m_sockets, `m_active_alloc, `m_wire, `log, `clock,
        `flows, `m_flow_id_to_node_lookup, `m_stats, `m_cur_flow_id, `m_cap_gen, `m_cur_template, `m_cur_time_sec,
        `special
      ensures Running() && special.exit == None && m_p_queue != []
      ensures FlowCount(m_cap_gen) == FlowCount(old(m_cap_gen)) + m_cur_flow_id - old(m_cur_flow_id)
      ensures GrantsAtFirst(old(m_cap_gen), FifTime(old(nodes), old(special)), max_time) ==>
                m_cur_flow_id > old(m_cur_flow_id)
    {
      hide Core.Ok, TotalWork, NodesOk, KindsOk, GensOk, Ticked, FifTicks, SyncTicks;
      hide FlowCount, SomeGrants, AllReached, FifTime, Opening, NotYet;
      AddExit(max_time, d_time);
      ghost var first := FifTime(nodes, special);
      NotYetAtFirst(m_cap_gen, m_cur_flow_id, first, max_time);
      var done := false;
      ghost var a, b, c := FifTicks(nodes, special, d_time), TotalWork(nodes, max_time), SyncTicks(nodes, special);
      ghost var bound := m_cur_flow_id + a;
      while !done
        invariant Running() && NodesOk(nodes)
        invariant if done then special.exit == None else special.exit.Some? && special.horizon == max_time
        invariant !done ==> a == FifTicks(nodes, special, d_time)
        invariant !done ==> b == TotalWork(nodes, max_time) && c == SyncTicks(nodes, special)
        invariant !done ==> m_cur_flow_id + a <= bound
        invariant m_cur_flow_id >= old(m_cur_flow_id)
        invariant FlowCount(m_cap_gen) == FlowCount(old(m_cap_gen)) + m_cur_flow_id - old(m_cur_flow_id)
        invariant NotYet(old(m_cap_gen), m_cap_gen, old(m_cur_flow_id), m_cur_flow_id, first, FifTime(nodes, special),
                         max_time, done)
        decreases !done, a, b, c
      {
        ghost var before, k, id, gens := Now(), special, m_cur_flow_id, m_cap_gen;
        done := HandleTop(d_time, false);
        OpeningCounts(gens, m_cap_gen, id, m_cur_flow_id, FifTime(before.nodes, k),
                      if done then FifTime(before.nodes, k) else FifTime(nodes, special), d_time);
        NotYetNext(old(m_cap_gen), gens, m_cap_gen, old(m_cur_flow_id), id, m_cur_flow_id, first,
                   FifTime(before.nodes, k), FifTime(nodes, special), max_time, d_time, done);
        if !done {
          assert Progress(before, k, id, Now(), special, m_cur_flow_id, d_time, false);
          if TotalWork(nodes, max_time) == b && FifTicks(nodes, special, d_time) == a {
            OneSyncTickLess(before.nodes, nodes, k);
            SameSyncTicks(nodes, k, special);
          }
          a, b, c := FifTicks(nodes, special, d_time), TotalWork(nodes, max_time), SyncTicks(nodes, special);
        }
      }
      NotYetDone(old(m_cap_gen), m_cap_gen, old(m_cur_flow_id), m_cur_flow_id, first, FifTime(nodes, special),
                 max_time);
      TopExists();
    }

    /** The first pass with a max_time that is not positive, for any number of events: there is no EXIT_SCHED node,
        and it can only end on an empty queue, where a second pass would find no top. */
    method OpenEndedPass(d_time: real, events: nat) returns (exit_scheduler: bool)
      requires Running() && special.exit == None && !clean && d_time > 0.0
      requires m_learn_mode ==> m_cur_flow_id + events <= SHORT_FID_LIMIT
      modifies `nodes, `m_p_queue, `m_tcp_dpc, `m_udp_dpc, `owner, `m_sockets, `m_active_alloc, `m_wire, `log, `clock,
        `flows, `m_flow_id_to_node_lookup, `m_stats, `m_cur_flow_id, `m_cap_gen, `m_cur_template, `m_cur_time_sec,
        `special
      ensures if exit_scheduler then m_p_queue == [] else Running()
    {
      hide Core.Ok, TotalWork, NodesOk, KindsOk, GensOk;
      exit_scheduler := false;
      var n := 0;
      while !exit_scheduler && n < events
        invariant n <= events && m_cur_flow_id <= old(m_cur_flow_id) + n
        invariant if exit_scheduler then Drained() else Running() && special.exit == None
        decreases events - n
      {
        exit_scheduler := HandleTop(d_time, false);
        n := n + 1;
      }
    }

    /** A node that is no flow and holds no port is created and queued. */
    method AddOther(node: Node) returns (p: Ptr)
      requires Valid(REST) && !node.FlowPkt? && !node.DeferPort? && Held(node) == [] && clock <= node.m_time
      modifies `nodes, `m_p_queue
      ensures Valid(REST) && NodesOk(nodes) && p !in old(nodes) && nodes == old(nodes)[p := node]
    {
      hide Core.Ok, NodesOk;
      p := CreateNode(node, REST);
      assert {} + {p} == {p};
      AddNode(p, Holding(p));
      assert {p} - {p} == {};
      NodesAreOk(Now(), REST);
    }

    method AddExit(max_time: real, d_time: real)
      requires Running() && special.exit == None && clock <= max_time && d_time > 0.0
      modifies `nodes, `m_p_queue, `special
      ensures Running() && special == old(special).(exit := special.exit, horizon := max_time) && special.exit.Some?
      ensures FifTicks(nodes, special, d_time) == FifTicks(old(nodes), old(special).(horizon := max_time), d_time)
      ensures FifTime(nodes, special) == FifTime(old(nodes), old(special))
    {
      hide Core.Ok, NodesOk, GensOk, TotalWork;
      var p := AddOther(ExitSched(max_time));
      special := special.(exit := Some(p), horizon := max_time);
    }

    constructor (cap_gen: seq<CapGen>, aging: (nat, bool) -> nat, learn_mode: bool)
      requires forall i :: 0 <= i < |cap_gen| ==> cap_gen[i].Ok()
      ensures Idle() && m_cap_gen == cap_gen && m_learn_mode == learn_mode && m_aging == aging
    {
      nodes, m_p_queue, m_flow_id_to_node_lookup := map[], [], map[];
      m_tcp_dpc, m_udp_dpc := None, None;
      m_cur_flow_id, m_cur_time_sec := 1, 0.0;
      m_stats := Stats(0, 0, 0, 0);
      m_sockets, m_active_alloc, m_wire := {}, 0, {};
      m_aging, m_learn_mode := aging, learn_mode;
      m_cap_gen, m_cur_template := cap_gen, 0;
      owner, flows, log, clock, clean := map[], map[], [], 0.0, false;
      special := Special(0, None, None, 0.0);
    }

    ghost predicate Idle()
      reads this
    {
      && Now() == Core(map[], [], None, None, map[], 0, 0, {}, 1, {}, 0, map[], map[], [], 0.0, false)
      && special.exit == None && forall i :: 0 <= i < |m_cap_gen| ==> m_cap_gen[i].Ok()
    }

    /** start_generate_stateful, in simulated time: both passes run to their end.  With no template loaded nothing
        happens; in learn mode fewer than 2^32 flows may be opened. */
    method StartGenerateStateful(thread_id: nat, delta: real, duration: real) returns (finished: bool)
      requires Idle() && delta > 0.0 && duration >= 0.0
      requires m_learn_mode ==> (duration / delta).Floor + 2 < SHORT_FID_LIMIT
      modifies this
      ensures finished <==> |old(m_cap_gen)| > 0
      ensures if finished then Closed() else Idle()
      ensures finished ==> |flows| == m_cur_flow_id - 1 == FlowCount(m_cap_gen) - FlowCount(old(m_cap_gen))
      ensures duration > 0.0 && (exists i :: 0 <= i < |old(m_cap_gen)| && IsFresh(old(m_cap_gen)[i])) ==> |flows| > 0
    {
      hide Core.Ok, NodesOk, KindsOk, GensOk, Closed, FifTicks, FlowCount, SomeGrants, FifTime, IsFresh;
      if |m_cap_gen| == 0 {
        return false;
      }
      StartTime(thread_id, delta);
      m_cur_time_sec := 0.01 + thread_id as real * delta;
      var c_stop_sec := m_cur_time_sec + duration;
      AddFirstNodes(thread_id);
      FirstTicks(nodes, special, m_cur_time_sec, duration, delta);
      FreshGrants(m_cap_gen, m_cur_time_sec);
      FirstPass(c_stop_sec, delta);
      CleanClose(delta);
      FlowsOfClosed();
      finished := true;
    }

    lemma FlowsOfClosed()
      requires Closed()
      ensures |flows| == m_cur_flow_id - 1
    {
      hide SentAtEnd;
      NumbersBelow(flows.Keys, m_cur_flow_id);
    }

    method AddFirstNodes(thread_id: nat)
      requires Idle() && |m_cap_gen| > 0 && m_cur_time_sec >= 0.0
      modifies `nodes, `m_p_queue, `special, `m_cur_template
      ensures Running() && !clean && special.exit == None && m_cur_flow_id == 1 && clock == 0.0
      ensures FifTime(nodes, special) == Some(m_cur_time_sec) && m_cur_template == thread_id % |m_cap_gen|
    {
      hide Core.Ok, NodesOk, KindsOk, FifTime;
      m_cur_template := thread_id % |m_cap_gen|;
      IdleIsOk(Now());
      AddFifAndSync();
    }

    /** The node that opens flows and the one that keeps time. */
    method AddFifAndSync()
      requires Valid(REST) && nodes == map[] && clock <= m_cur_time_sec
      modifies `nodes, `m_p_queue, `special
      ensures Valid(REST) && NodesOk(nodes) && KindsOk(nodes, special) && special.exit == None
      ensures FifTime(nodes, special) == Some(m_cur_time_sec)
    {
      hide Core.Ok, NodesOk, KindsOk, FifTime;
      var p := AddOther(FlowFif(m_cur_time_sec));
      var sync := AddOther(FlowSync(m_cur_time_sec + SYNC_TIME_OUT));
      special := Special(sync, None, Some(p), 0.0);
      FirstKinds(p, nodes[p], sync, nodes[sync]);
    }
  }

  lemma FirstTicks(nodes: map<Ptr, Node>, k: Special, time: real, duration: real, delta: real)
    requires delta > 0.0 && duration >= 0.0 && FifTime(nodes, k) == Some(time)
    ensures FifTicks(nodes, k.(horizon := time + duration), delta) == (duration / delta).Floor + 1
  {
    assert FifTime(nodes, k.(horizon := time + duration)) == FifTime(nodes, k);
  }

  lemma FirstKinds(p: Ptr, node: Node, sync: Ptr, node': Node)
    requires p != sync && node.FlowFif? && node'.FlowSync?
    ensures KindsOk(map[][p := node][sync := node'], Special(sync, None, Some(p), 0.0))
    ensures FifTime(map[][p := node][sync := node'], Special(sync, None, Some(p), 0.0)) == Some(node.m_time)
  {
  }

  // ----- What the invariant says

  /** Between events the NAT table is exactly the set of live flows that wait for their translation. */
  lemma TableIsWaitingFlows(c: Core, f: nat)
    requires c.Ok(REST)
    ensures f in c.table <==>
            exists p :: p in c.nodes && c.nodes[p].FlowPkt? && c.nodes[p].is_nat && c.nodes[p].info.id == f
    ensures |c.table| == c.added - c.removed
  {
    hide NodesOk, QueueOk, DeferOk, PortsOk, FlowsOk, TimesOk, NatNodeOk;
    if f in c.table {
      assert c.table[f] in c.nodes;
    }
  }

  /** Between events every port that is in use is held by exactly one node, and no node holds another. */
  lemma PortsAreHeld(c: Core, s: Socket)
    requires c.Ok(REST)
    ensures s in c.in_use <==> exists p :: p in c.nodes && s in Held(c.nodes[p])
    ensures forall p, q :: p in c.nodes && q in c.nodes && s in Held(c.nodes[p]) && s in Held(c.nodes[q]) ==> p == q
    ensures c.active == |c.in_use|
  {
    hide NodesOk, QueueOk, DeferOk, NatOk, FlowsOk, TimesOk, NoRepeats;
    if s in c.in_use {
      assert c.owner[s] in c.nodes && s in Held(c.nodes[c.owner[s]]);
    }
  }

  /** What a flow has sent so far: nothing twice and nothing out of order, and at its end everything, unless it
      was given up waiting for its translation, which stops it short of its first responder packet. */
  lemma EveryPacketOnce(c: Core, f: nat)
    requires c.Ok(REST) && f in c.flows && !c.flows[f].info.template.repeat
    ensures var sent := SentOf(c.log, f);
            && sent == Iota(|sent|) && |sent| <= |c.flows[f].info.template.pkts|
            && (c.flows[f].ended ==> sent == Iota(if c.flows[f].timed_out then c.flows[f].info.template.FirstResponder()
                                                  else |c.flows[f].info.template.pkts|))
  {
    hide NodesOk, QueueOk, DeferOk, PortsOk, NatOk, TimesOk;
    if !c.flows[f].ended {
      assert SentSoFar(c.log, c.nodes[c.flows[f].home], c.nodes[c.flows[f].home].pkt, c.clean);
    } else {
      assert SentAtEnd(c.log, c.flows[f]);
    }
  }

  /** At any moment of a run, after one packet of a flow comes the next one of its template, when it has to: after the
      gap of the capture, the round-trip time or the time between packets, or after the restart time. */
  lemma PacketsKeepTheirGaps(c: Core, i: nat, j: nat)
    requires c.Ok(REST) && NextOfFlow(c.log, i, j)
    ensures c.log[i].id in c.flows
    ensures var t := c.flows[c.log[i].id].info.template;
            && c.log[i].pkt < |t.pkts| && c.log[j].pkt == Succ(c.log[i].pkt, |t.pkts|)
            && ComesNext(t, c.log[i].pkt, c.log[i].time, c.log[j].time)
  {
    hide NodesOk, QueueOk, DeferOk, PortsOk, NatOk, TimesOk, ComesNext, Paced, Cyclic;
    var f := c.log[i].id;
    if !c.flows[f].ended {
      assert SentSoFar(c.log, c.nodes[c.flows[f].home], c.nodes[c.flows[f].home].pkt, c.clean);
    } else {
      assert SentAtEnd(c.log, c.flows[f]);
    }
    GapIsKept(c.log, c.flows[f].info.template, i, j);
  }

  lemma StartTime(thread_id: nat, delta: real)
    requires delta >= 0.0
    ensures thread_id as real * delta >= 0.0
  {
  }

  lemma IdleIsOk(c: Core)
    requires c == Core(map[], [], None, None, map[], 0, 0, {}, 1, {}, 0, map[], map[], [], 0.0, false)
    ensures c.Ok(REST)
  {
    assert multiset(c.queue) == multiset(c.nodes.Keys - ({} + c.Dpcs()));
  }

  lemma TakenFromDpc(c: Core, is_tcp: bool, d: Ptr)
    requires c.Ok(REST) && c.Dpc(is_tcp) == Some(d)
    ensures c.WithDpc(is_tcp, None).Ok(Holding(d)) && d in c.nodes && c.nodes[d].DeferPort?
    ensures c.WithDpc(is_tcp, None).Dpcs() == c.Dpcs() - {d}
  {
    hide NodesOk, QueueOk, PortsOk, NatOk, FlowsOk, TimesOk;
    assert {} + c.Dpcs() == {d} + c.WithDpc(is_tcp, None).Dpcs();
  }

  lemma Closing(c: Core)
    requires c.Ok(REST) && !c.clean
    ensures c.(clean := true).Ok(REST)
  {
    hide NodesOk, QueueOk, DeferOk, PortsOk, NatOk, FlowsOk, TimesOk;
    FlowsClosing(c.nodes, c.flows, c.log, c.next_id);
  }

  /** With no node left, nothing is left. */
  lemma AllClosed(c: Core)
    requires c.Ok(REST) && c.nodes == map[]
    ensures c.in_use == {} && c.active == 0 && c.table == map[] && c.added == c.removed
    ensures c.next_id > 0 && forall f :: f in c.flows <==> 0 < f < c.next_id
    ensures forall f :: f in c.flows ==> c.flows[f].info.id == f
    ensures forall f :: f in c.flows ==> c.flows[f].ended && SentAtEnd(c.log, c.flows[f])
    ensures forall i :: 0 <= i < |c.log| ==> c.log[i].id in c.flows
    ensures forall i, j :: 0 <= i < j < |c.log| ==> c.log[i].time <= c.log[j].time
  {
    hide NodesOk, QueueOk, DeferOk, SentAtEnd, SentSoFar;
    assert c.in_use == {};
    assert c.table == map[];
  }

  /** Enough milliseconds until FLOW_SYNC is no longer the earliest, or nothing else is queued. */
  ghost predicate EnoughTicks(c: Core, sync: Ptr, ticks: int) {
    && ticks >= 0 && sync in c.nodes
    && (c.nodes.Keys == {sync} + c.Dpcs() || exists p :: Within(c, sync, p, ticks))
  }

  ghost predicate Within(c: Core, sync: Ptr, p: Ptr, ticks: int)
    requires sync in c.nodes
  {
    p in c.nodes && p != sync && p !in c.Dpcs()
      && c.nodes[p].m_time < c.nodes[sync].m_time + ticks as real * SYNC_TIME_OUT
  }

  lemma SomeTicks(c: Core, k: Special) returns (ticks: int)
    requires c.Ok(REST) && KindsOk(c.nodes, k)
    ensures EnoughTicks(c, k.sync, ticks)
  {
    var sync := k.sync;
    ticks := 0;
    DpcsAreNodes(c, REST);
    if c.nodes.Keys != {sync} + c.Dpcs() {
      var p :| p in c.nodes && p != sync && p !in c.Dpcs();
      var x := (c.nodes[p].m_time - c.nodes[sync].m_time) * 1000.0;
      ticks := if x < 0.0 then 1 else x.Floor + 1;
      assert Within(c, sync, p, ticks);
    }
  }

  /** FLOW_SYNC was the earliest of several, and is a millisecond later now. */
  lemma OneTickLess(c: Core, c': Core, sync: Ptr, ticks: int)
    requires c.Ok(REST) && EnoughTicks(c, sync, ticks) && |c.queue| > 1 && c.queue[0] == sync
    requires Ticked(c.nodes, c'.nodes, sync) && c'.Dpcs() == c.Dpcs()
    ensures ticks > 0 && EnoughTicks(c', sync, ticks - 1)
  {
    hide NodesOk, DeferOk, PortsOk, NatOk, FlowsOk, TimesOk;
    QueueTop(c.nodes, c.queue, {} + c.Dpcs());
    if c.nodes.Keys == {sync} + c.Dpcs() {
      AloneInQueue(c, sync);
      assert false;
    } else {
      var p :| Within(c, sync, p, ticks);
      assert c.nodes[sync].m_time <= c.nodes[p].m_time;
      assert ticks > 0;
      assert Within(c', sync, p, ticks - 1);
    }
  }

  lemma AloneInQueue(c: Core, sync: Ptr)
    requires c.Ok(REST) && c.nodes.Keys == {sync} + c.Dpcs()
    ensures |c.queue| <= 1
  {
    hide NodesOk, QueueOk, DeferOk, PortsOk, NatOk, FlowsOk, TimesOk;
    QueueSize(c.nodes, c.queue, {} + c.Dpcs());
    SubsetSize(c.nodes.Keys - ({} + c.Dpcs()), sync);
  }

  lemma SameSyncTicks(nodes: map<Ptr, Node>, k: Special, k': Special)
    requires k' == k.(fif := k'.fif)
    ensures SyncTicks(nodes, k') == SyncTicks(nodes, k)
  {
  }

  lemma OneSyncTickLess(a: map<Ptr, Node>, b: map<Ptr, Node>, k: Special)
    requires Ticked(a, b, k.sync) && a[k.sync].m_time <= k.horizon
    ensures SyncTicks(b, k) < SyncTicks(a, k)
  {
    TicksNext(a[k.sync].m_time, k.horizon, SYNC_TIME_OUT);
  }

  lemma SubsetSize(s: set<Ptr>, p: Ptr)
    requires s <= {p}
    ensures |s| <= 1
  {
    if p in s {
      assert s == {p};
    } else {
      assert s == {};
    }
  }

  lemma KeptByNat(nodes: map<Ptr, Node>, nodes': map<Ptr, Node>, p: Ptr)
    requires SameButNat(nodes, nodes') && p in nodes && !nodes[p].FlowPkt?
    ensures p in nodes' && nodes'[p] == nodes[p]
  {
  }

  lemma TickedBy(a: map<Ptr, Node>, b: map<Ptr, Node>, c: map<Ptr, Node>, sync: Ptr)
    requires SameButNat(a, b) && sync in b && c == b[sync := FlowSync(b[sync].m_time + SYNC_TIME_OUT)]
    ensures Ticked(a, c, sync)
  {
  }

  /** What one event brings the scheduler closer to its end. */
  ghost predicate Progress(c: Core, k: Special, id: nat, c': Core, k': Special, id': nat, d_time: real, always: bool)
    requires d_time > 0.0 && NodesOk(c.nodes) && NodesOk(c'.nodes)
  {
    || (!always && FifTicks(c'.nodes, k', d_time) < FifTicks(c.nodes, k, d_time) && id' <= id + 1)
    || ((!always ==> FifTicks(c'.nodes, k', d_time) == FifTicks(c.nodes, k, d_time)) && id' == id
        && TotalWork(c'.nodes, k.horizon) < TotalWork(c.nodes, k.horizon))
    || ((!always ==> FifTicks(c'.nodes, k', d_time) == FifTicks(c.nodes, k, d_time)) && id' == id
        && TotalWork(c'.nodes, k.horizon) == TotalWork(c.nodes, k.horizon)
        && |c.queue| > 1 && c.queue[0] == k.sync && c'.Dpcs() == c.Dpcs() && Ticked(c.nodes, c'.nodes, k.sync)
        && (!always ==> c.nodes[k.sync].m_time <= k.horizon))
  }

  /** What a FLOW_FIF event at `time` does: a flow is opened exactly if some template grants one; the event comes
      back `d_time` later until all templates have reached their limits. */
  ghost predicate FifStep(gens: seq<CapGen>, gens': seq<CapGen>, id: nat, id': nat, time: real, next: Option<real>,
                          d_time: real, always: bool) {
    && FlowCount(gens') == FlowCount(gens) + id' - id
    && if always then gens' == gens && id' == id && next == None
       else id' == id + (if SomeGrants(gens, time) then 1 else 0)
            && next == (if AllReached(gens) then None else Some(time + d_time))
  }

  /** Flows are opened at FLOW_FIF events and at no others. */
  ghost predicate Opening(gens: seq<CapGen>, gens': seq<CapGen>, id: nat, id': nat, fif: Option<real>,
                          fif': Option<real>, d_time: real, always: bool) {
    || (gens' == gens && id' == id && fif' == fif)
    || (fif.Some? && FifStep(gens, gens', id, id', fif.value, fif', d_time, always))
  }

  lemma OpeningCounts(gens: seq<CapGen>, gens': seq<CapGen>, id: nat, id': nat, fif: Option<real>, fif': Option<real>,
                      d_time: real)
    requires Opening(gens, gens', id, id', fif, fif', d_time, false)
    ensures FlowCount(gens') == FlowCount(gens) + id' - id && id' >= id
  {
    hide FlowCount, SomeGrants;
  }

  /** The first FLOW_FIF event comes before the exit, and some template grants a flow then. */
  ghost predicate GrantsAtFirst(gens: seq<CapGen>, first: Option<real>, horizon: real) {
    first.Some? && first.value < horizon && SomeGrants(gens, first.value)
  }

  /** As long as no flow has been opened, the first FLOW_FIF event is still to come. */
  ghost predicate NotYet(gens: seq<CapGen>, gens': seq<CapGen>, id: nat, id': nat, first: Option<real>,
                         fif: Option<real>, horizon: real, done: bool) {
    GrantsAtFirst(gens, first, horizon) ==> id' > id || (!done && gens' == gens && fif == first && id' == id)
  }

  lemma NotYetAtFirst(gens: seq<CapGen>, id: nat, first: Option<real>, horizon: real)
    ensures NotYet(gens, gens, id, id, first, first, horizon, false)
  {
  }

  lemma NotYetDone(gens: seq<CapGen>, gens': seq<CapGen>, id: nat, id': nat, first: Option<real>, fif: Option<real>,
                   horizon: real)
    requires NotYet(gens, gens', id, id', first, fif, horizon, true)
    ensures GrantsAtFirst(gens, first, horizon) ==> id' > id
  {
    hide SomeGrants;
  }

  lemma {:induction false} NotYetNext(gens: seq<CapGen>, gens1: seq<CapGen>, gens2: seq<CapGen>, id: nat, id1: nat,
                                      id2: nat, first: Option<real>, fif1: Option<real>, fif2: Option<real>,
                                      horizon: real, d_time: real, done: bool)
    requires NotYet(gens, gens1, id, id1, first, fif1, horizon, false)
    requires Opening(gens1, gens2, id1, id2, fif1, if done then fif1 else fif2, d_time, false)
    requires done && fif1.Some? ==> fif1.value >= horizon
    ensures NotYet(gens, gens2, id, id2, first, fif2, horizon, done)
  {
    hide FlowCount, SomeGrants;
  }

  /** The exit comes after everything that is due before it. */
  lemma ExitIsLast(nodes: map<Ptr, Node>, k: Special, p: Ptr)
    requires KindsOk(nodes, k) && Earliest(nodes, p) && nodes[p].ExitSched?
    ensures FifTime(nodes, k).Some? ==> FifTime(nodes, k).value >= k.horizon
  {
  }

  lemma FifIs(nodes: map<Ptr, Node>, k: Special, p: Ptr)
    requires KindsOk(nodes, k) && p in nodes && nodes[p].FlowFif?
    ensures FifTime(nodes, k) == Some(nodes[p].m_time)
  {
  }

  /** Nothing but the release of ports comes before the exit unless it is before the horizon. */
  lemma BeforeExit(nodes: map<Ptr, Node>, k: Special, p: Ptr)
    requires KindsOk(nodes, k) && Earliest(nodes, p) && k.exit.Some?
    ensures nodes[p].m_time <= k.horizon
  {
  }

  lemma SameFifTicks(a: map<Ptr, Node>, b: map<Ptr, Node>, k: Special, d_time: real)
    requires d_time > 0.0 && FifTime(a, k) == FifTime(b, k)
    ensures FifTicks(a, k, d_time) == FifTicks(b, k, d_time)
  {
  }

  lemma TickedFif(a: map<Ptr, Node>, b: map<Ptr, Node>, k: Special)
    requires Ticked(a, b, k.sync) && KindsOk(a, k)
    ensures FifTime(b, k) == FifTime(a, k)
  {
  }

  lemma FifTicksLess(a: map<Ptr, Node>, time: real, b: map<Ptr, Node>, k: Special, k': Special, d_time: real)
    requires d_time > 0.0 && FifTime(a, k) == Some(time) && k' == k.(fif := k'.fif)
    requires FifTime(b, k') == Some(time + d_time) || k'.fif == None
    ensures time <= k.horizon ==> FifTicks(b, k', d_time) < FifTicks(a, k, d_time)
  {
    if time <= k.horizon {
      TicksNext(time, k.horizon, d_time);
    }
  }

  lemma OneSync(nodes: map<Ptr, Node>, k: Special, p: Ptr)
    requires KindsOk(nodes, k) && p in nodes && nodes[p].FlowSync?
    ensures p == k.sync
  {
  }

  lemma OnlySyncLeft(c: Core, k: Special)
    requires c.Ok(Holding(k.sync)) && c.queue == [] && KindsOk(c.nodes, k)
    ensures c.nodes.Keys == {k.sync} + c.Dpcs() && k.sync !in c.Dpcs() && k.exit == None
  {
    hide NodesOk, QueueOk, PortsOk, NatOk, FlowsOk, TimesOk;
    QueueSize(c.nodes, c.queue, {k.sync} + c.Dpcs());
  }

  /** The FLOW_SYNC node is a millisecond later; all other nodes keep their times. */
  ghost predicate Ticked(nodes: map<Ptr, Node>, nodes': map<Ptr, Node>, sync: Ptr) {
    && sync in nodes && nodes'.Keys == nodes.Keys
    && nodes'[sync].m_time == nodes[sync].m_time + SYNC_TIME_OUT
    && forall p :: p in nodes && p != sync ==> nodes'[p].m_time == nodes[p].m_time
  }

  /** The nodes stay and keep their times. */
  ghost predicate SameButNat(nodes: map<Ptr, Node>, nodes': map<Ptr, Node>) {
    && nodes.Keys == nodes'.Keys
    && forall p :: p in nodes ==> nodes'[p].m_time == nodes[p].m_time && (!nodes[p].FlowPkt? ==> nodes'[p] == nodes[p])
  }

  lemma FifNotPast(c: Core, ph: Phase, p: Ptr)
    requires c.Ok(ph) && p in c.nodes && !c.nodes[p].DeferPort?
    ensures c.clock <= c.nodes[p].m_time
  {
    NotPast(c.nodes, c.clock, c.log, p);
  }

  /** A node in hand that is neither a flow nor holds ports moves to a later time. */
  lemma OtherMoved(c: Core, p: Ptr, node: Node)
    requires c.Ok(Holding(p)) && !c.nodes[p].FlowPkt? && !node.FlowPkt? && Held(c.nodes[p]) == [] == Held(node)
    requires !c.nodes[p].DeferPort? && !node.DeferPort? && c.nodes[p].m_time <= node.m_time
    ensures c.(nodes := c.nodes[p := node]).Ok(Holding(p))
  {
    hide NodesOk, QueueOk, DeferOk, PortsOk, NatOk, FlowsOk, TimesOk;
    NotPast(c.nodes, c.clock, c.log, p);
    NodesChanged(c.nodes, p, node);
    QueueUntouched(c.nodes, c.queue, {p} + c.Dpcs(), p, node);
    DeferUntouched(c.nodes, c.tcp_dpc, p, node);
    DeferUntouched(c.nodes, c.udp_dpc, p, node);
    TimesUntouched(c.nodes, c.clock, c.log, p, node);
    PortsUntouched(c.nodes, {}, {}, c.owner, c.in_use, c.active, p, node);
    NatUntouched(c.nodes, {}, c.table, c.wire, c.next_id, c.added, c.removed, p, node);
    FlowsUntouched(c.nodes, {}, {}, c.flows, c.log, c.next_id, c.clean, p, node);
  }

  function Wrap(start: nat, i: nat, n: nat): nat {
    if start + i < n then start + i else start + i - n
  }

  /** How many turns after `start` template j is asked. */
  function TurnOf(start: nat, j: nat, n: nat): int {
    if j >= start then j - start else j + n - start
  }

  /** A template that gives no flow now, and what asking it leaves behind. */
  ghost predicate Refuses(gen: CapGen, now: real) {
    gen.Reached() || !gen.policer.Update(1.0, now).1
  }

  ghost function Asked(gen: CapGen, now: real): CapGen {
    if gen.Reached() then gen else gen.(policer := gen.policer.Update(1.0, now).0)
  }

  /** The first i templates in turn have been asked, and have refused. */
  ghost predicate AskedInTurn(gens: seq<CapGen>, start: nat, i: nat, now: real, after: seq<CapGen>) {
    && |after| == |gens|
    && forall j :: 0 <= j < |gens| ==>
         if TurnOf(start, j, |gens|) < i then Refuses(gens[j], now) && after[j] == Asked(gens[j], now)
         else after[j] == gens[j]
  }

  /** Template cur is the first in turn that does not refuse; it counts one flow more. */
  ghost predicate FirstInTurn(gens: seq<CapGen>, start: nat, i: nat, now: real, after: seq<CapGen>, cur: nat) {
    && i < |gens| && cur == Wrap(start, i, |gens|) && cur < |gens| == |after| && !Refuses(gens[cur], now)
    && after[cur] == Asked(gens[cur], now).(flowcnt := gens[cur].flowcnt + 1)
    && AskedInTurn(gens, start, i, now, after[cur := gens[cur]])
  }

  /** Every template has a limit, and as many flows as it allows have been opened. */
  ghost predicate AllReached(gens: seq<CapGen>) {
    forall i :: 0 <= i < |gens| ==> gens[i].template.repeat && gens[i].flowcnt >= gens[i].limit
  }

  /** Some template is below its limit, and its bucket lets a flow through now. */
  ghost predicate SomeGrants(gens: seq<CapGen>, now: real) {
    exists i :: 0 <= i < |gens| && !Refuses(gens[i], now)
  }

  /** All flows that the templates have counted. */
  ghost function FlowCount(gens: seq<CapGen>): nat {
    if gens == [] then 0 else FlowCount(gens[..|gens| - 1]) + gens[|gens| - 1].flowcnt
  }

  /** Counts that differ for one template at most add up to that difference. */
  lemma {:induction false} CountsDiffer(a: seq<CapGen>, b: seq<CapGen>, cur: nat)
    requires |a| == |b| && forall j :: 0 <= j < |a| && j != cur ==> a[j].flowcnt == b[j].flowcnt
    ensures FlowCount(b) == FlowCount(a) + (if cur < |a| then b[cur].flowcnt - a[cur].flowcnt else 0)
  {
    if a != [] {
      CountsDiffer(a[..|a| - 1], b[..|a| - 1], cur);
    }
  }

  /** Asking changes no count. */
  lemma AskingCountsNothing(gens: seq<CapGen>, start: nat, i: nat, now: real, after: seq<CapGen>)
    requires AskedInTurn(gens, start, i, now, after)
    ensures |after| == |gens| && forall j :: 0 <= j < |gens| ==> after[j].flowcnt == gens[j].flowcnt
  {
    hide Refuses;
  }

  lemma NoneGrants(gens: seq<CapGen>, start: nat, now: real, after: seq<CapGen>)
    requires start < |gens| && AskedInTurn(gens, start, |gens|, now, after)
    ensures !SomeGrants(gens, now) && FlowCount(after) == FlowCount(gens)
  {
    hide Refuses, Asked;
    forall i | 0 <= i < |gens| ensures Refuses(gens[i], now) {
      assert TurnOf(start, i, |gens|) < |gens|;
    }
    AskingCountsNothing(gens, start, |gens|, now, after);
    CountsDiffer(gens, after, |gens|);
  }

  lemma OneGrants(gens: seq<CapGen>, start: nat, i: nat, now: real, after: seq<CapGen>, cur: nat)
    requires FirstInTurn(gens, start, i, now, after, cur)
    ensures SomeGrants(gens, now) && FlowCount(after) == FlowCount(gens) + 1
    ensures after[cur].template == gens[cur].template
  {
    hide Refuses;
    AskingCountsNothing(gens, start, i, now, after[cur := gens[cur]]);
    forall j | 0 <= j < |gens| && j != cur ensures after[j].flowcnt == gens[j].flowcnt {
      assert after[cur := gens[cur]][j] == after[j];
    }
    CountsDiffer(gens, after, cur);
  }

  /** Without a limit or below it, and never asked before. */
  predicate IsFresh(gen: CapGen) {
    (!gen.template.repeat || gen.flowcnt < gen.limit) && gen.policer.m_last_time == 0.0
  }

  lemma FreshGrants(gens: seq<CapGen>, now: real)
    ensures (exists i :: 0 <= i < |gens| && IsFresh(gens[i])) ==> SomeGrants(gens, now)
  {
    if i :| 0 <= i < |gens| && IsFresh(gens[i]) {
      assert !Refuses(gens[i], now);
    }
  }

  lemma {:induction false} NumbersBelow(ids: set<nat>, next: nat)
    requires next > 0 && forall f: nat :: f in ids <==> 0 < f < next
    ensures |ids| == next - 1
  {
    if next == 1 {
      assert ids == {};
    } else {
      NumbersBelow(ids - {next - 1}, next - 1);
    }
  }

  lemma NobodyAsked(gens: seq<CapGen>, start: nat, now: real)
    requires start < |gens|
    ensures AskedInTurn(gens, start, 0, now, gens)
  {
  }

  lemma NextAsked(gens: seq<CapGen>, start: nat, i: nat, now: real, after: seq<CapGen>)
    requires start < |gens| && i < |gens| && AskedInTurn(gens, start, i, now, after)
    ensures var cur := Wrap(start, i, |gens|);
            && after[cur] == gens[cur]
            && (Refuses(gens[cur], now) ==> AskedInTurn(gens, start, i + 1, now, after[cur := Asked(gens[cur], now)]))
  {
    hide Refuses, Asked;
  }

  lemma FoundInTurn(gens: seq<CapGen>, start: nat, i: nat, now: real, after: seq<CapGen>, cur: nat)
    requires i < |gens| && cur == Wrap(start, i, |gens|) && cur < |gens| && !Refuses(gens[cur], now)
    requires AskedInTurn(gens, start, i, now, after) && after[cur] == gens[cur]
    ensures var asked := Asked(gens[cur], now);
            FirstInTurn(gens, start, i, now, after[cur := asked.(flowcnt := asked.flowcnt + 1)], cur)
  {
    var asked := Asked(gens[cur], now);
    assert after[cur := asked.(flowcnt := asked.flowcnt + 1)][cur := gens[cur]] == after;
  }

  lemma SetTwice(gens: seq<CapGen>, cur: nat, first: CapGen, second: CapGen)
    requires cur < |gens|
    ensures gens[cur := first][cur := second] == gens[cur := second] && gens[cur := gens[cur]] == gens
  {
  }

  /** In a full round, every template has its turn. */
  lemma Turn(start: nat, j: nat, n: nat) returns (k: nat)
    requires start < n && j < n
    ensures k < n && Wrap(start, k, n) == j
  {
    k := if j >= start then j - start else j + n - start;
  }

  lemma LegalHasPackets(t: Template)
    requires t.Legal()
    ensures t.pkts != []
  {
  }

  lemma TopIsEarliest(c: Core, sync: Ptr)
    requires c.Ok(REST) && sync in c.nodes && !c.nodes[sync].DeferPort?
    ensures c.queue != [] && c.queue[0] in c.nodes && Earliest(c.nodes, c.queue[0])
  {
    hide NodesOk, QueueOk, PortsOk, NatOk, FlowsOk, TimesOk;
    assert {} + c.Dpcs() == c.Dpcs();
    QueueSize(c.nodes, c.queue, c.Dpcs());
    QueueTop(c.nodes, c.queue, c.Dpcs());
  }

  lemma PortsDiffer(c: Core, ph: Phase, p: Ptr)
    requires c.Ok(ph) && p in c.nodes && p !in ph.dying
    ensures NoRepeats(Held(c.nodes[p]))
  {
  }

  lemma NatNodeIn(c: Core, p: Ptr)
    requires c.Ok(REST) && p in c.nodes && c.nodes[p].FlowPkt? && c.nodes[p].is_nat
    ensures NatNodeOk(c.nodes[p], c.wire)
  {
    NatNode(c.nodes, c.table, c.wire, c.next_id, c.added, c.removed, p);
  }

  lemma StillEarliest(nodes: map<Ptr, Node>, p: Ptr, node: Node)
    requires Earliest(nodes, p) && !nodes[p].DeferPort? && !node.DeferPort? && node.m_time == nodes[p].m_time
    ensures Earliest(nodes[p := node], p)
  {
  }

  lemma OneIsOk(nodes: map<Ptr, Node>, p: Ptr)
    requires NodesOk(nodes) && p in nodes
    ensures NodeOk(nodes[p])
  {
  }

  lemma OnlyDefersRefl(nodes: map<Ptr, Node>)
    ensures OnlyDefers(nodes, nodes)
  {
  }

  lemma SetOfThree(s: seq<Socket>)
    requires |s| == 3 && NoRepeats(s)
    ensures s[0] in SetOf(s) && s[1] in SetOf(s) && s[2] in SetOf(s)
    ensures SetOf(s) - {s[1]} - {s[2]} == {s[0]} && s[2] != s[1] && s[0] != s[1] && s[0] != s[2]
  {
  }

  /** Freeing a flow saves more than three new nodes cost. */
  lemma FlowWeighs(before: map<Ptr, Node>, nodes: map<Ptr, Node>, p: Ptr, horizon: real)
    requires NodesOk(nodes) && p in before && before[p].FlowPkt? && OnlyDefers(before, nodes)
    ensures NodesOk(nodes - {p}) && TotalWork(nodes - {p}, horizon) + 4 <= TotalWork(nodes, horizon)
  {
    WorkWithout(nodes, p, horizon);
    assert NodeOk(nodes[p]);
  }

  lemma DpcIsNode(c: Core, ph: Phase, is_tcp: bool)
    requires c.Ok(ph)
    ensures var d := c.Dpc(is_tcp);
            d.Some? ==> d.value in c.nodes && c.nodes[d.value].DeferPort?
  {
  }

  lemma NodesAreOk(c: Core, ph: Phase)
    requires c.Ok(ph)
    ensures NodesOk(c.nodes)
  {
  }

  lemma HandIsNodes(c: Core, ph: Phase)
    requires c.Ok(ph)
    ensures ph.hand <= c.nodes.Keys
  {
  }

  lemma Queued(c: Core, ph: Phase)
    requires c.Ok(ph)
    ensures PriorityQueue.IsHeap(c.queue, Times(c.nodes)) && ph.hand <= c.nodes.Keys
    ensures c.queue != [] ==>
              && PriorityQueue.IsHeapBelowRoot(c.queue, Times(c.nodes))
              && c.queue[0] in c.nodes && c.queue[0] !in ph.hand
              && forall p :: p in c.nodes && p !in ph.hand && p !in c.Dpcs() ==>
                 c.nodes[c.queue[0]].m_time <= c.nodes[p].m_time
  {
    hide NodesOk, DeferOk, PortsOk, NatOk, FlowsOk, TimesOk;
    if c.queue != [] {
      QueueTop(c.nodes, c.queue, ph.hand + c.Dpcs());
    }
  }

  method PickPtr(nodes: map<Ptr, Node>) returns (p: Ptr)
    ensures p !in nodes
  {
    ghost var free := SomePtrIsFree(nodes);
    assert free !in nodes;
    p :| p !in nodes;
  }

  lemma SetOfRest(entries: seq<Socket>, i: nat)
    requires i < |entries| && NoRepeats(entries)
    ensures entries[i] in entries[i..]
    ensures SetOf(entries[i..]) - {entries[i]} == SetOf(entries[i + 1..])
  {
    assert entries[i..] == [entries[i]] + entries[i + 1..];
  }

  method PickSocket(sockets: set<Socket>, pool: nat, client: Option<nat>) returns (s: Socket)
    ensures s !in sockets && s.pool == pool && (client.Some? ==> s.client == client.value)
  {
    ghost var free := SomeSocketIsFree(sockets, pool, if client.Some? then client.value else 0);
    assert free !in sockets && free.pool == pool && (client.Some? ==> free.client == client.value);
    s :| s !in sockets && s.pool == pool && (client.Some? ==> s.client == client.value);
  }

  lemma SomeSocketIsFree(sockets: set<Socket>, pool: nat, client: nat) returns (s: Socket)
    ensures s !in sockets && s.pool == pool && s.client == client
  {
    var n := PortsBelow(sockets);
    s := Socket(pool, client, n);
  }

  lemma {:induction false} PortsBelow(sockets: set<Socket>) returns (n: nat)
    ensures forall s :: s in sockets ==> s.port < n
  {
    if sockets == {} {
      n := 0;
    } else {
      var s :| s in sockets;
      n := PortsBelow(sockets - {s});
      n := if n <= s.port then s.port + 1 else n;
    }
  }
}
