/** What a network that keeps each stream in order and delays no packet too long does to the gaps of a flow. */
module NetworkDelay {
  import opened Basics
  import opened RxFlow
  import opened RxCheck
  import opened RxEndToEnd
  import opened PacketNumbering

  /** Arrival i is sent packet x: each is as many packets into its stream as the other. */
  ghost predicate Match(sent: seq<Arrival>, x: nat, arrivals: seq<Arrival>, i: nat)
    requires x < |sent| && i < |arrivals|
  {
    var k, d := arrivals[i].h.m_flow_id, arrivals[i].h.dir;
    && sent[x].h.m_flow_id == k && sent[x].h.dir == d
    && Seen(sent, x, k, d) == Seen(arrivals, i, k, d)
  }

  /** No packet arrives before it was sent, or more than `delay` after. */
  ghost predicate WithinDelay(sent: seq<Arrival>, arrivals: seq<Arrival>, delay: real) {
    forall x, i :: 0 <= x < |sent| && 0 <= i < |arrivals| && Match(sent, x, arrivals, i) ==>
      sent[x].time <= arrivals[i].time <= sent[x].time + delay
  }

  ghost predicate InTimeOrder(s: seq<Arrival>) {
    forall i, j :: 0 <= i < j < |s| ==> s[i].time <= s[j].time
  }

  /** The packets of a flow leave so close to each other that none, though late, comes after the flow is given up. */
  ghost predicate SentInTime(sent: seq<Arrival>, delay: real) {
    forall x, y, z :: 0 <= x < y < |sent| && 0 <= z < |sent| && SameFlowNext(sent, x, y)
                      && sent[z].h.m_flow_id == sent[x].h.m_flow_id ==>
      sent[y].time + delay <= sent[x].time + AgingDelay(sent[z].h)
  }

  lemma {:induction false} NumberInStream(s: seq<Arrival>, k: uint64, d: bit, n: nat) returns (x: nat)
    requires n < |Stream(s, k, d)|
    ensures x < |s| && s[x].h.m_flow_id == k && s[x].h.dir == d && Seen(s, x, k, d) == n
  {
    var last := |s| - 1;
    if n == |Stream(s[..last], k, d)| {
      x := last;
    } else {
      x := NumberInStream(s[..last], k, d, n);
      assert s[..last][..x] == s[..x];
    }
  }

  lemma SamePacket(sent: seq<Arrival>, x: nat, arrivals: seq<Arrival>, i: nat)
    requires Delivered(sent, arrivals) && x < |sent| && i < |arrivals| && Match(sent, x, arrivals, i)
    ensures sent[x].h == arrivals[i].h
  {
    hide Stream;
    ArrivalInStream(sent, x);
    ArrivalInStream(arrivals, i);
  }

  lemma WasSentAs(sent: seq<Arrival>, arrivals: seq<Arrival>, i: nat) returns (x: nat)
    requires Delivered(sent, arrivals) && i < |arrivals|
    ensures x < |sent| && Match(sent, x, arrivals, i)
  {
    var h := arrivals[i].h;
    ArrivalInStream(arrivals, i);
    x := NumberInStream(sent, h.m_flow_id, h.dir, Seen(arrivals, i, h.m_flow_id, h.dir));
  }

  lemma ArrivesAs(sent: seq<Arrival>, arrivals: seq<Arrival>, x: nat) returns (i: nat)
    requires Delivered(sent, arrivals) && x < |sent|
    ensures i < |arrivals| && Match(sent, x, arrivals, i)
  {
    var h := sent[x].h;
    ArrivalInStream(sent, x);
    i := NumberInStream(arrivals, h.m_flow_id, h.dir, Seen(sent, x, h.m_flow_id, h.dir));
  }

  /** Sent packet x is among the first i that arrive. */
  ghost predicate HasArrived(sent: seq<Arrival>, x: nat, arrivals: seq<Arrival>, i: nat)
    requires x < |sent| && i <= |arrivals|
  {
    var k, d := sent[x].h.m_flow_id, sent[x].h.dir;
    Seen(sent, x, k, d) < Seen(arrivals, i, k, d)
  }

  lemma ArrivedIff(sent: seq<Arrival>, x: nat, arrivals: seq<Arrival>, i: nat, j: nat)
    requires x < |sent| && j < |arrivals| && i <= |arrivals| && Match(sent, x, arrivals, j)
    ensures HasArrived(sent, x, arrivals, i) <==> j < i
  {
    var k, d := sent[x].h.m_flow_id, sent[x].h.dir;
    if j < i {
      SeenNext(arrivals, j, k, d);
      SeenGrows(arrivals, j + 1, i, k, d);
    } else {
      SeenGrows(arrivals, i, j, k, d);
    }
  }

  /** The next packet of the flow, at the latest packet y. */
  lemma NextSent(sent: seq<Arrival>, x: nat, y: nat) returns (v: nat)
    requires x < y < |sent| && sent[x].h.m_flow_id == sent[y].h.m_flow_id
    ensures x < v <= y && SameFlowNext(sent, x, v)
  {
    v := x + 1;
    while sent[v].h.m_flow_id != sent[x].h.m_flow_id
      invariant x < v <= y && forall l :: x < l < v ==> sent[l].h.m_flow_id != sent[x].h.m_flow_id
      decreases y - v
    {
      v := v + 1;
    }
  }

  /** Between a packet that has arrived and a later one that has not there is a place where one follows the other. */
  lemma {:induction false} Frontier(sent: seq<Arrival>, x: nat, y: nat, arrivals: seq<Arrival>, i: nat)
    returns (u: nat, v: nat)
    requires x < y < |sent| && i <= |arrivals| && sent[x].h.m_flow_id == sent[y].h.m_flow_id
    requires HasArrived(sent, x, arrivals, i) && !HasArrived(sent, y, arrivals, i)
    ensures x <= u < v <= y && SameFlowNext(sent, u, v) && sent[u].h.m_flow_id == sent[x].h.m_flow_id
    ensures HasArrived(sent, u, arrivals, i) && !HasArrived(sent, v, arrivals, i)
    decreases y - x
  {
    hide HasArrived;
    v := NextSent(sent, x, y);
    if HasArrived(sent, v, arrivals, i) {
      u, v := Frontier(sent, v, y, arrivals, i);
    } else {
      u := x;
    }
  }

  lemma NextArrivesInTime(sent: seq<Arrival>, arrivals: seq<Arrival>, delay: real, i: nat, j: nat)
    requires Delivered(sent, arrivals) && WithinDelay(sent, arrivals, delay) && SentInTime(sent, delay)
    requires InTimeOrder(sent) && InTimeOrder(arrivals) && delay <= 5.0
    requires i < j < |arrivals| && SameFlowNext(arrivals, i, j)
    ensures arrivals[j].time <= arrivals[i].time + AgingDelay(arrivals[i].h)
  {
    hide Delivered, Match, HasArrived, AgingDelay, SentInTime;
    var x := WasSentAs(sent, arrivals, i);
    var y := WasSentAs(sent, arrivals, j);
    SamePacket(sent, x, arrivals, i);
    SamePacket(sent, y, arrivals, j);
    ArrivedIff(sent, x, arrivals, i + 1, i);
    ArrivedIff(sent, y, arrivals, i + 1, j);
    if y < x {
      assert sent[y].time <= sent[x].time;
    } else {
      var u, v := Frontier(sent, x, y, arrivals, i + 1);
      var u' := ArrivesAs(sent, arrivals, u);
      var v' := ArrivesAs(sent, arrivals, v);
      SamePacket(sent, v, arrivals, v');
      ArrivedIff(sent, u, arrivals, i + 1, u');
      ArrivedIff(sent, v, arrivals, i + 1, v');
      assert arrivals[v'].h.m_flow_id == arrivals[i].h.m_flow_id;
      GapAllows(sent, delay, u, v, x);
    }
  }

  lemma GapAllows(sent: seq<Arrival>, delay: real, x: nat, y: nat, z: nat)
    requires SentInTime(sent, delay) && x < y < |sent| && z < |sent| && SameFlowNext(sent, x, y)
    requires sent[z].h.m_flow_id == sent[x].h.m_flow_id
    ensures sent[y].time + delay <= sent[x].time + AgingDelay(sent[z].h)
  {
  }

  /** Whatever order the streams are merged in. */
  lemma DelayedIsInTime(sent: seq<Arrival>, arrivals: seq<Arrival>, delay: real)
    requires Delivered(sent, arrivals) && WithinDelay(sent, arrivals, delay) && SentInTime(sent, delay)
    requires InTimeOrder(sent) && InTimeOrder(arrivals) && delay <= 5.0
    requires forall i :: 0 <= i < |arrivals| ==> arrivals[i].time >= 0.0
    ensures InTime(arrivals)
  {
    hide Delivered, WithinDelay, SentInTime, SameFlowNext, AgingDelay;
    forall i, j | 0 <= i < j < |arrivals| && SameFlowNext(arrivals, i, j)
      ensures arrivals[j].time <= arrivals[i].time + AgingDelay(arrivals[i].h)
    {
      NextArrivesInTime(sent, arrivals, delay, i, j);
    }
  }
}
