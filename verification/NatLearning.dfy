/** NAT learning from end to end: the learn packets that come back, the batches of the receive side, and the messages
    the scheduler reads. */
module NatLearning {
  import opened Basics
  import opened IpOption
  import opened NatBatch
  import opened FlowNodes
  import opened Scheduler

  /** The bytes are the NAT option of a learn packet that some thread has sent; `wires` are the ids of the flows of
      each thread whose learn packets have left. */
  ghost predicate IsLearnOption(b: seq<byte>, wires: seq<set<nat>>) {
    exists o :: LearnOptionOf(o, b, wires)
  }

  ghost predicate LearnOptionOf(o: NatOption, b: seq<byte>, wires: seq<set<nat>>) {
    && (o.magic == NAT_MAGIC || o.magic == NAT_MAGIC_RX)
    && o.thread_id < |wires| && o.fid in wires[o.thread_id] && o.fid < SHORT_FID_LIMIT
    && b == EncodeNat(o)
  }

  /** Whatever has been accepted for a thread names a flow of which the network has seen a learn packet. */
  ghost predicate AllNamed(accepted: seq<Message>, wires: seq<set<nat>>) {
    |accepted| == |wires| && forall i :: 0 <= i < |accepted| ==> Named(accepted[i], wires[i])
  }

  ghost predicate Named(m: Message, wire: set<nat>) {
    forall e :: 0 <= e < |m| ==> m[e].m_fid in wire
  }

  /** A learn packet that comes back, from whatever address it has been given, any number of times. */
  method ReceiveLearned(rx: CNatRxManager, b: seq<byte>, ipv4: Packet, now: real, ghost wires: seq<set<nat>>)
    returns (stuck: bool)
    requires rx.Valid() && AllNamed(rx.accepted, wires) && IsLearnOption(b, wires)
    modifies rx
    ensures !stuck ==> rx.Valid()
    ensures AllNamed(rx.accepted, wires)
  {
    ghost var o :| LearnOptionOf(o, b, wires);
    NatRoundTrip(o);
    stuck := rx.HandlePacketIpv4(DecodeNat(b), ipv4, now);
  }

  /** What was accepted in order is consumed in order: a message holds nothing else. */
  lemma MessageIsNamed(t: PerThread, accepted: Message, consumed: Message, wire: set<nat>)
    requires Accounted(t, accepted, consumed) && t.m_ring != [] && Named(accepted, wire)
    ensures Named(t.m_ring[0], wire)
  {
    var m := t.m_ring[0];
    forall e | 0 <= e < |m| ensures m[e].m_fid in wire {
      assert Flatten(t.m_ring) == m + Flatten(t.m_ring[1..]);
      assert m[e] == accepted[|consumed| + e];
    }
  }

  /** The thread takes a message from its ring and reads it: all that handel_nat_msg relies on holds, and
      afterwards none of the flows named waits any longer. */
  method ReadMessage(rx: CNatRxManager, i: nat, gen: CFlowGenListPerThread, ghost wires: seq<set<nat>>,
                     ghost hand: set<Ptr>)
    requires rx.Valid() && AllNamed(rx.accepted, wires) && i < |wires| && wires[i] == gen.m_wire
    requires rx.m_per_thread[i].m_ring != []
    requires gen.Valid(Phase(hand, {}, {}, {})) && NodesOk(gen.nodes) && KindsOk(gen.nodes, gen.special)
    modifies rx`m_per_thread, rx`consumed, gen`nodes, gen`m_flow_id_to_node_lookup, gen`m_stats
    ensures rx.Valid() && AllNamed(rx.accepted, wires)
    ensures gen.Valid(Phase(hand, {}, {}, {})) && NodesOk(gen.nodes) && KindsOk(gen.nodes, gen.special)
    ensures gen.m_flow_id_to_node_lookup == old(gen.m_flow_id_to_node_lookup) - Fids(old(rx.m_per_thread[i].m_ring[0]))
  {
    hide Core.Ok, NodesOk, KindsOk, Accounted, Named;
    ghost var t := rx.m_per_thread[i];
    assert ThreadOk(t, rx.accepted[i], rx.consumed[i], false);
    MessageIsNamed(t, rx.accepted[i], rx.consumed[i], wires[i]);
    var m := rx.Dequeue(i, -1);
    gen.HandelNatMsg(m, hand);
  }
}
