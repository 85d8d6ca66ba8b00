/** The receive side of NAT learning: translations are collected per thread into messages of at most seven and
    put on the ring of the thread. */
module NatBatch {
  import opened Basics
  import IpOption

  const MAX_NAT_FLOW_INFO := 7
  const MAX_TIME_MSG_IN_QUEUE_SEC: real := 0.002
  const MAX_TRIES := 11

  datatype NatFlowInfo = NatFlowInfo(m_external_ip: int, m_external_ip_server: int, m_fid: nat, m_external_port: int)

  type Message = seq<NatFlowInfo>

  /** What thread_info holds: the message being filled, empty when there is none, and the ring. */
  datatype PerThread = PerThread(m_last_time: real, m_cur_nat_msg: Message, m_ring: seq<Message>)

  datatype Packet = Packet(source_ip: int, dest_ip: int, proto: int, source_port: int)

  datatype Stats = Stats(m_err_no_valid_thread_id: nat, m_err_no_valid_proto: nat, m_err_queue_full: nat)

  lemma {:induction false} FlattenEnqueued(ring: seq<Message>, m: Message)
    ensures Flatten(ring + [m]) == Flatten(ring) + m
  {
    if ring == [] {
      assert [] + [m] == [m];
    } else {
      assert (ring + [m])[1..] == ring[1..] + [m];
      FlattenEnqueued(ring[1..], m);
    }
  }

  /** Nothing accepted is lost, doubled or reordered: first what the thread has consumed, then its ring, then
      the message being filled. */
  ghost predicate Accounted(t: PerThread, accepted: Message, consumed: Message) {
    accepted == consumed + Flatten(t.m_ring) + t.m_cur_nat_msg
  }

  ghost predicate MessagesOk(ring: seq<Message>) {
    forall i :: 0 <= i < |ring| ==> 1 <= |ring[i]| <= MAX_NAT_FLOW_INFO
  }

  lemma EnqueuedAccounted(t: PerThread, accepted: Message, consumed: Message)
    requires Accounted(t, accepted, consumed)
    ensures Accounted(t.(m_ring := t.m_ring + [t.m_cur_nat_msg], m_cur_nat_msg := []), accepted, consumed)
  {
    FlattenEnqueued(t.m_ring, t.m_cur_nat_msg);
  }

  lemma DequeuedAccounted(t: PerThread, accepted: Message, consumed: Message)
    requires Accounted(t, accepted, consumed) && t.m_ring != []
    ensures Accounted(t.(m_ring := t.m_ring[1..]), accepted, consumed + t.m_ring[0])
  {
    assert consumed + (t.m_ring[0] + Flatten(t.m_ring[1..])) + t.m_cur_nat_msg
        == (consumed + t.m_ring[0]) + Flatten(t.m_ring[1..]) + t.m_cur_nat_msg;
  }

  lemma FilledAccounted(t: PerThread, accepted: Message, consumed: Message, now: real, m: NatFlowInfo)
    requires Accounted(t, accepted, consumed)
    ensures Accounted(t.(m_cur_nat_msg := t.m_cur_nat_msg + [m], m_last_time := now), accepted + [m], consumed)
  {
  }

  ghost predicate ThreadOk(t: PerThread, accepted: Message, consumed: Message, filled: bool) {
    && Accounted(t, accepted, consumed)
    && MessagesOk(t.m_ring)
    && (if filled then 0 < |t.m_cur_nat_msg| <= MAX_NAT_FLOW_INFO else |t.m_cur_nat_msg| < MAX_NAT_FLOW_INFO)
  }

  /** A translation that does not fill the message of its thread waits there; the first one sets the message's time. */
  ghost predicate Kept(before: seq<PerThread>, i: nat, msg: NatFlowInfo, now: real, after: seq<PerThread>)
    requires i < |before|
  {
    var t := before[i];
    after == before[i := t.(m_cur_nat_msg := t.m_cur_nat_msg + [msg],
                            m_last_time := if t.m_cur_nat_msg == [] then now else t.m_last_time)]
  }

  /** A message being filled waits no longer than this. */
  ghost predicate Old(t: PerThread, now: real) {
    t.m_cur_nat_msg != [] && now - t.m_last_time > MAX_TIME_MSG_IN_QUEUE_SEC
  }

  class CNatRxManager {
    const ring_size: nat
    var m_per_thread: seq<PerThread>
    var m_stats: Stats
    ghost var accepted: seq<Message>
    ghost var consumed: seq<Message>

    constructor (max_threads: nat, ring_size: nat)
      ensures Valid() && |m_per_thread| == max_threads && this.ring_size == ring_size
      ensures accepted == seq(max_threads, _ => []) && consumed == seq(max_threads, _ => [])
    {
      this.ring_size := ring_size;
      m_per_thread := seq(max_threads, _ => PerThread(0.0, [], []));
      m_stats := Stats(0, 0, 0);
      accepted := seq(max_threads, _ => []);
      consumed := seq(max_threads, _ => []);
    }

    /** `filled` is the thread whose message may just have become full. */
    ghost predicate Ok(filled: int)
      reads this
    {
      && |m_per_thread| == |accepted| == |consumed|
      && forall i :: 0 <= i < |m_per_thread| ==> ThreadOk(m_per_thread[i], accepted[i], consumed[i], i == filled)
    }

    /** Between calls a message being filled holds between 1 and 6 translations. */
    ghost predicate Valid()
      reads this
    {
      Ok(-1)
    }

    /** The packet core of the thread takes one message. */
    method Dequeue(i: nat, ghost filled: int) returns (m: Message)
      requires Ok(filled) && i < |m_per_thread| && m_per_thread[i].m_ring != []
      modifies `m_per_thread, `consumed
      ensures Ok(filled) && |m_per_thread| == |old(m_per_thread)|
      ensures m == old(m_per_thread)[i].m_ring[0] && consumed == old(consumed)[i := old(consumed)[i] + m]
      ensures m_per_thread == old(m_per_thread)[i := old(m_per_thread)[i].(m_ring := old(m_per_thread)[i].m_ring[1..])]
    {
      hide Accounted;
      var t := m_per_thread[i];
      assert ThreadOk(t, accepted[i], consumed[i], i == filled);
      DequeuedAccounted(t, accepted[i], consumed[i]);
      m := t.m_ring[0];
      m_per_thread := m_per_thread[i := t.(m_ring := t.m_ring[1..])];
      consumed := consumed[i := consumed[i] + m];
    }

    /** Any number of messages are taken while the receiver waits. */
    method Delay(i: nat, ghost filled: int)
      requires Ok(filled) && i < |m_per_thread|
      modifies `m_per_thread, `consumed
      ensures Ok(filled) && |m_per_thread| == |old(m_per_thread)|
      ensures forall j :: 0 <= j < |m_per_thread| ==>
                m_per_thread[j].m_cur_nat_msg == old(m_per_thread)[j].m_cur_nat_msg
                  && m_per_thread[j].m_last_time == old(m_per_thread)[j].m_last_time
      ensures forall j :: 0 <= j < |m_per_thread| && j != i ==> m_per_thread[j] == old(m_per_thread)[j]
    {
      var taken: int := *;
      while 0 < taken
        invariant Ok(filled) && |m_per_thread| == |old(m_per_thread)|
        invariant forall j :: 0 <= j < |m_per_thread| ==>
                    m_per_thread[j].m_cur_nat_msg == old(m_per_thread)[j].m_cur_nat_msg
                      && m_per_thread[j].m_last_time == old(m_per_thread)[j].m_last_time
        invariant forall j :: 0 <= j < |m_per_thread| && j != i ==> m_per_thread[j] == old(m_per_thread)[j]
      {
        if m_per_thread[i].m_ring == [] {
          return;
        }
        var _ := Dequeue(i, filled);
        taken := taken - 1;
      }
    }

    /** flush_node: up to eleven tries, a millisecond apart; a ring still full then ends the program. */
    method FlushNode(i: nat, ghost filled: int) returns (stuck: bool)
      requires Ok(filled) && i < |m_per_thread| && |m_per_thread[i].m_cur_nat_msg| > 0 && (filled == i || filled == -1)
      modifies `m_per_thread, `consumed, `m_stats
      ensures |m_per_thread| == |old(m_per_thread)|
      ensures !stuck ==> Valid() && m_per_thread[i].m_cur_nat_msg == []
      ensures forall j :: 0 <= j < |m_per_thread| && j != i ==> m_per_thread[j] == old(m_per_thread)[j]
      ensures m_stats == old(m_stats).(m_err_queue_full := m_stats.m_err_queue_full)
      ensures stuck ==> Ok(filled) && m_stats.m_err_queue_full == old(m_stats).m_err_queue_full + MAX_TRIES
    {
      var cnt: nat := 0;
      while true
        invariant cnt <= 10
        invariant Ok(filled) && |m_per_thread| == |old(m_per_thread)| && |m_per_thread[i].m_cur_nat_msg| > 0
        invariant forall j :: 0 <= j < |m_per_thread| && j != i ==> m_per_thread[j] == old(m_per_thread)[j]
        invariant m_stats == old(m_stats).(m_err_queue_full := old(m_stats).m_err_queue_full + cnt)
        decreases 10 - cnt
      {
        if |m_per_thread[i].m_ring| < ring_size {
          break;
        }
        m_stats := m_stats.(m_err_queue_full := m_stats.m_err_queue_full + 1);
        Delay(i, filled);
        cnt := cnt + 1;
        if cnt > 10 {
          return true;
        }
      }
      Enqueue(i, filled);
      return false;
    }

    method Enqueue(i: nat, ghost filled: int)
      requires Ok(filled) && i < |m_per_thread| && |m_per_thread[i].m_cur_nat_msg| > 0 && (filled == i || filled == -1)
      modifies `m_per_thread
      ensures Valid() && |m_per_thread| == |old(m_per_thread)| && m_per_thread[i].m_cur_nat_msg == []
      ensures forall j :: 0 <= j < |m_per_thread| && j != i ==> m_per_thread[j] == old(m_per_thread)[j]
    {
      hide Accounted;
      var t := m_per_thread[i];
      assert ThreadOk(t, accepted[i], consumed[i], i == filled);
      EnqueuedAccounted(t, accepted[i], consumed[i]);
      m_per_thread := m_per_thread[i := t.(m_ring := t.m_ring + [t.m_cur_nat_msg], m_cur_nat_msg := [])];
    }

    /** handle_packet_ipv4: a packet of an unknown thread or protocol is counted; any other is accepted and, if
        it fills the message, the message is sent. */
    method HandlePacketIpv4(option: IpOption.NatOption, ipv4: Packet, now: real) returns (stuck: bool)
      requires Valid()
      modifies this
      ensures |m_per_thread| == |old(m_per_thread)|
      ensures !stuck ==> Valid()
      ensures forall j :: 0 <= j < |m_per_thread| && j != option.thread_id ==> m_per_thread[j] == old(m_per_thread)[j]
      ensures option.thread_id < |m_per_thread| && (ipv4.proto == 6 || ipv4.proto == 17) ==>
                var t := old(m_per_thread)[option.thread_id];
                var msg := NatFlowInfo(ipv4.source_ip, ipv4.dest_ip, option.fid, ipv4.source_port);
                if |t.m_cur_nat_msg| + 1 == MAX_NAT_FLOW_INFO then
                  !stuck ==> m_per_thread[option.thread_id].m_cur_nat_msg == []
                else
                  !stuck && Kept(old(m_per_thread), option.thread_id, msg, now, m_per_thread)
      ensures var known := option.thread_id < |m_per_thread|;
              var valid := ipv4.proto == 6 || ipv4.proto == 17;
              && (known && valid ==>
                    accepted == old(accepted)[option.thread_id := old(accepted)[option.thread_id]
                                              + [NatFlowInfo(ipv4.source_ip, ipv4.dest_ip, option.fid,
                                                             ipv4.source_port)]])
              && (!(known && valid) ==> !stuck && accepted == old(accepted) && m_per_thread == old(m_per_thread))
              && m_stats.m_err_no_valid_thread_id == old(m_stats).m_err_no_valid_thread_id + (if known then 0 else 1)
              && m_stats.m_err_no_valid_proto == old(m_stats).m_err_no_valid_proto + (if known && !valid then 1 else 0)
    {
      hide Accounted;
      stuck := false;
      if option.thread_id >= |m_per_thread| {
        m_stats := m_stats.(m_err_no_valid_thread_id := m_stats.m_err_no_valid_thread_id + 1);
        return;
      }
      if !(ipv4.proto == 6 || ipv4.proto == 17) {
        m_stats := m_stats.(m_err_no_valid_proto := m_stats.m_err_no_valid_proto + 1);
        return;
      }
      var i := option.thread_id;
      var t := m_per_thread[i];
      assert ThreadOk(t, accepted[i], consumed[i], i == -1);
      var msg := NatFlowInfo(ipv4.source_ip, ipv4.dest_ip, option.fid, ipv4.source_port);
      var first := if t.m_cur_nat_msg == [] then now else t.m_last_time;
      FilledAccounted(t, accepted[i], consumed[i], first, msg);
      m_per_thread := m_per_thread[i := t.(m_cur_nat_msg := t.m_cur_nat_msg + [msg], m_last_time := first)];
      accepted := accepted[i := accepted[i] + [msg]];
      assert Ok(i);
      if |m_per_thread[i].m_cur_nat_msg| == MAX_NAT_FLOW_INFO {
        stuck := FlushNode(i, i);
      }
    }

    /** handle_aging: exactly the messages being filled that are older than two milliseconds are sent. */
    method HandleAging(now: real) returns (stuck: bool)
      requires Valid()
      modifies `m_per_thread, `consumed, `m_stats
      ensures !stuck ==> Valid() && |m_per_thread| == |old(m_per_thread)|
      ensures !stuck ==> forall i :: 0 <= i < |m_per_thread| ==>
                if Old(old(m_per_thread)[i], now) then m_per_thread[i].m_cur_nat_msg == []
                else m_per_thread[i] == old(m_per_thread)[i]
    {
      hide ThreadOk;
      for i := 0 to |m_per_thread|
        invariant Valid() && |m_per_thread| == |old(m_per_thread)|
        invariant forall j :: 0 <= j < i ==>
                    if Old(old(m_per_thread)[j], now) then m_per_thread[j].m_cur_nat_msg == []
                    else m_per_thread[j] == old(m_per_thread)[j]
        invariant forall j :: i <= j < |m_per_thread| ==> m_per_thread[j] == old(m_per_thread)[j]
      {
        if m_per_thread[i].m_cur_nat_msg != [] {
          if now - m_per_thread[i].m_last_time > MAX_TIME_MSG_IN_QUEUE_SEC {
            stuck := FlushNode(i, -1);
            if stuck {
              return;
            }
          }
        }
      }
      stuck := false;
    }
  }

  /** Once a thread has emptied its ring, it lacks at most six of its translations. */
  lemma AtMostSixPending(t: PerThread, accepted: Message, consumed: Message)
    requires Accounted(t, accepted, consumed) && |t.m_cur_nat_msg| < MAX_NAT_FLOW_INFO && t.m_ring == []
    ensures consumed <= accepted && |accepted| - |consumed| <= 6
  {
  }
}
