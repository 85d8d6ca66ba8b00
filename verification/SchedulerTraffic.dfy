/** The packets of a whole scheduler run as traffic for the RX checker. */
module SchedulerTraffic {
  import opened Basics
  import opened RxFlow
  import opened RxCheck
  import opened RxEndToEnd
  import opened PacketNumbering
  import opened FlowNodes
  import opened NetworkDelay
  import opened LoadedTemplates
  import Scheduler

  /** How the flows of one thread go out: the packet descriptors of each flow's template, and the port mode. */
  datatype Lines = Lines(thread: nat, single_port: bool, template_id: uint8, descriptors: map<nat, seq<Descriptor>>) {
    function FlowOf(f: nat): SentFlow
      requires f in descriptors
    {
      SentFlow(thread, f, descriptors[f], single_port, template_id)
    }
  }

  /** Every flow of the log goes out by its own descriptors. */
  ghost predicate Fits(lines: Lines, log: seq<SentPkt>) {
    forall i :: 0 <= i < |log| ==> log[i].id in lines.descriptors && log[i].pkt < |lines.descriptors[log[i].id]|
  }

  /** What leaves the ports, packet by packet. */
  ghost function OnAir(lines: Lines, log: seq<SentPkt>): (sent: seq<Arrival>)
    requires Fits(lines, log)
    ensures |sent| == |log|
  {
    seq(|log|, i requires 0 <= i < |log| =>
          Arrival(HeaderOf(lines.FlowOf(log[i].id), lines.descriptors[log[i].id][log[i].pkt]), log[i].time))
  }

  /** The packets of flow f with these numbers. */
  ghost function Numbers(lines: Lines, f: nat, pkts: seq<nat>): (sent: seq<Arrival>)
    requires f in lines.descriptors && forall i :: 0 <= i < |pkts| ==> pkts[i] < |lines.descriptors[f]|
    ensures |sent| == |pkts|
  {
    seq(|pkts|, i requires 0 <= i < |pkts| => Arrival(HeaderOf(lines.FlowOf(f), lines.descriptors[f][pkts[i]]), 0.0))
  }

  /** Flow numbers stay within the bits of the key. */
  ghost predicate ShortIds(lines: Lines) {
    forall f :: f in lines.descriptors ==> f < FLOW_MODULUS
  }

  lemma OneFlowOwns(lines: Lines, f: nat, g: nat, k: uint64)
    requires ShortIds(lines) && f in lines.descriptors && g in lines.descriptors
    requires Owns(lines.FlowOf(f), k) && Owns(lines.FlowOf(g), k)
    ensures f == g
  {
    hide Owns;
    OneOwner(lines.FlowOf(f), lines.FlowOf(g), k);
  }

  lemma {:induction false} SentOfFits(lines: Lines, log: seq<SentPkt>, f: nat)
    requires Fits(lines, log) && f in lines.descriptors
    ensures forall i :: 0 <= i < |SentOf(log, f)| ==> SentOf(log, f)[i] < |lines.descriptors[f]|
  {
    if log != [] {
      SentOfFits(lines, log[..|log| - 1], f);
    }
  }

  /** Under a key of flow f only packets of f leave, in the order in which f has sent them. */
  lemma {:induction false} AirOfFlow(lines: Lines, log: seq<SentPkt>, f: nat, k: uint64, d: bit)
    requires Fits(lines, log) && ShortIds(lines) && f in lines.descriptors && Owns(lines.FlowOf(f), k)
    ensures forall i :: 0 <= i < |SentOf(log, f)| ==> SentOf(log, f)[i] < |lines.descriptors[f]|
    ensures Stream(OnAir(lines, log), k, d) == Stream(Numbers(lines, f, SentOf(log, f)), k, d)
  {
    hide HeaderOf, Owns, Stream, OnAir, Numbers, SentOf;
    SentOfFits(lines, log, f);
    SentOfNext(log, f);
    if log == [] {
      NothingOnAir(lines, log, f);
    } else {
      var n := |log| - 1;
      AirOfFlow(lines, log[..n], f, k, d);
      AirNext(lines, log);
      StreamNext(OnAir(lines, log), k, d);
      if log[n].id == f {
        NumbersNext(lines, f, SentOf(log, f));
        StreamNext(Numbers(lines, f, SentOf(log, f)), k, d);
      } else {
        NotUnderKey(lines, log, n, f, k);
      }
    }
  }

  lemma NothingOnAir(lines: Lines, log: seq<SentPkt>, f: nat)
    requires log == [] && f in lines.descriptors
    ensures SentOf(log, f) == [] && OnAir(lines, log) == [] == Numbers(lines, f, [])
  {
  }

  lemma SentOfNext(log: seq<SentPkt>, f: nat)
    ensures log != [] ==>
              SentOf(log, f) == if log[|log| - 1].id == f then SentOf(log[..|log| - 1], f) + [log[|log| - 1].pkt]
                                else SentOf(log[..|log| - 1], f)
  {
  }

  lemma AirNext(lines: Lines, log: seq<SentPkt>)
    requires Fits(lines, log) && log != []
    ensures var last := log[|log| - 1];
            && OnAir(lines, log)[..|log| - 1] == OnAir(lines, log[..|log| - 1])
            && OnAir(lines, log)[|log| - 1].h == HeaderOf(lines.FlowOf(last.id), lines.descriptors[last.id][last.pkt])
  {
    hide HeaderOf;
  }

  lemma NumbersNext(lines: Lines, f: nat, pkts: seq<nat>)
    requires f in lines.descriptors && pkts != [] && forall i :: 0 <= i < |pkts| ==> pkts[i] < |lines.descriptors[f]|
    ensures Numbers(lines, f, pkts)[..|pkts| - 1] == Numbers(lines, f, pkts[..|pkts| - 1])
    ensures Numbers(lines, f, pkts)[|pkts| - 1].h == HeaderOf(lines.FlowOf(f), lines.descriptors[f][pkts[|pkts| - 1]])
  {
    hide HeaderOf;
  }

  lemma StreamNext(arrivals: seq<Arrival>, k: uint64, d: bit)
    ensures arrivals != [] ==>
              var h := arrivals[|arrivals| - 1].h;
              var before := Stream(arrivals[..|arrivals| - 1], k, d);
              Stream(arrivals, k, d) == if h.m_flow_id == k && h.dir == d then before + [h] else before
  {
  }

  lemma AirIsOwned(lines: Lines, log: seq<SentPkt>, n: nat)
    requires Fits(lines, log) && n < |log|
    ensures Owns(lines.FlowOf(log[n].id), OnAir(lines, log)[n].h.m_flow_id)
  {
    hide Owns;
    OwnsItsKeys(lines.FlowOf(log[n].id), lines.descriptors[log[n].id][log[n].pkt].flow_id);
  }

  lemma NotUnderKey(lines: Lines, log: seq<SentPkt>, n: nat, f: nat, k: uint64)
    requires Fits(lines, log) && ShortIds(lines) && n < |log| && log[n].id != f
    requires f in lines.descriptors && Owns(lines.FlowOf(f), k)
    ensures OnAir(lines, log)[n].h.m_flow_id != k
  {
    hide HeaderOf, Owns;
    AirIsOwned(lines, log, n);
    if OnAir(lines, log)[n].h.m_flow_id == k {
      OneFlowOwns(lines, f, log[n].id, k);
    }
  }

  lemma {:induction false} AirOfNobody(lines: Lines, log: seq<SentPkt>, k: uint64, d: bit)
    requires Fits(lines, log) && forall f :: f in lines.descriptors ==> !Owns(lines.FlowOf(f), k)
    ensures Stream(OnAir(lines, log), k, d) == []
  {
    hide HeaderOf, Owns;
    if log != [] {
      var n := |log| - 1;
      AirOfNobody(lines, log[..n], k, d);
      assert OnAir(lines, log)[..n] == OnAir(lines, log[..n]);
      AirIsOwned(lines, log, n);
    }
  }

  /** All flows, in the order of some list of their numbers. */
  ghost function FlowsIn(lines: Lines, order: seq<nat>): (flows: seq<SentFlow>)
    requires forall i :: 0 <= i < |order| ==> order[i] in lines.descriptors
    ensures |flows| == |order| && forall i :: 0 <= i < |flows| ==> flows[i] == lines.FlowOf(order[i])
  {
    seq(|order|, i requires 0 <= i < |order| => lines.FlowOf(order[i]))
  }

  ghost predicate Lists(order: seq<nat>, ids: set<nat>) {
    NoRepeats(order) && (forall i :: 0 <= i < |order| ==> order[i] in ids) && forall f :: f in ids ==> f in order
  }

  lemma {:induction false} SomeOrder(ids: set<nat>) returns (order: seq<nat>)
    ensures Lists(order, ids)
  {
    if ids == {} {
      order := [];
    } else {
      var f :| f in ids;
      order := SomeOrder(ids - {f});
      order := order + [f];
    }
  }

  lemma FlowsAreDistinct(lines: Lines, order: seq<nat>)
    requires ShortIds(lines) && Lists(order, lines.descriptors.Keys)
    ensures DistinctFlows(FlowsIn(lines, order))
  {
  }

  /** Each flow has sent all its packets, once each, in order. */
  ghost predicate AllSent(lines: Lines, log: seq<SentPkt>) {
    forall f :: f in lines.descriptors ==> SentOf(log, f) == Iota(|lines.descriptors[f]|)
  }

  lemma AirOfWholeFlow(lines: Lines, log: seq<SentPkt>, f: nat, k: uint64, d: bit)
    requires Fits(lines, log) && ShortIds(lines) && AllSent(lines, log)
    requires f in lines.descriptors && Owns(lines.FlowOf(f), k)
    ensures Stream(OnAir(lines, log), k, d) == Stream(WholeFlow(lines.FlowOf(f)), k, d)
  {
    hide HeaderOf, Owns, Stream;
    AirOfFlow(lines, log, f, k, d);
    var n := |lines.descriptors[f]|;
    assert Numbers(lines, f, Iota(n)) == WholeFlow(lines.FlowOf(f));
  }

  /** The log of such a run is the traffic of all its flows, however they are interleaved. */
  lemma LogIsDelivered(lines: Lines, log: seq<SentPkt>, order: seq<nat>)
    requires Fits(lines, log) && ShortIds(lines) && AllSent(lines, log) && Lists(order, lines.descriptors.Keys)
    ensures Delivered(Sent(FlowsIn(lines, order)), OnAir(lines, log))
  {
    hide Owns, Stream, Sent, WholeFlow, AllSent, Fits, NoRepeats;
    var flows := FlowsIn(lines, order);
    FlowsAreDistinct(lines, order);
    forall k: uint64, d: bit ensures Stream(OnAir(lines, log), k, d) == Stream(Sent(flows), k, d) {
      if i :| 0 <= i < |flows| && Owns(flows[i], k) {
        StreamOfOneFlow(flows, i, k, d);
        AirOfWholeFlow(lines, log, order[i], k, d);
      } else {
        StrangersSendNothing(flows, k, d);
        forall f | f in lines.descriptors ensures !Owns(lines.FlowOf(f), k) {
          var i :| 0 <= i < |order| && order[i] == f;
          assert !Owns(flows[i], k);
        }
        AirOfNobody(lines, log, k, d);
      }
    }
  }

  lemma DeliveredChain(a: seq<Arrival>, b: seq<Arrival>, c: seq<Arrival>)
    requires Delivered(a, b) && Delivered(b, c)
    ensures Delivered(a, c)
  {
    hide Stream;
    forall k: uint64, d: bit ensures Stream(c, k, d) == Stream(a, k, d) {
      assert Stream(c, k, d) == Stream(b, k, d) == Stream(a, k, d);
    }
  }

  /** The descriptors are those of the flows' templates. */
  ghost predicate GoOutBy(flows: map<nat, FlowRecord>, lines: Lines) {
    && lines.descriptors.Keys == flows.Keys
    && (forall f :: f in flows ==> |flows[f].info.template.pkts| == |lines.descriptors[f]|)
    && (forall f :: f in flows ==> IsPrepared(lines.FlowOf(f)))
  }

  /** Flows that are repeated are no flows of the checker, and one that is given up is not complete. */
  ghost predicate PlayedOnce(flows: map<nat, FlowRecord>) {
    forall f :: f in flows ==> !flows[f].info.template.repeat && !flows[f].timed_out
  }

  lemma {:induction false} SentIsInLog(log: seq<SentPkt>, i: nat)
    requires i < |log|
    ensures log[i].pkt in SentOf(log, log[i].id)
  {
    if i < |log| - 1 {
      SentIsInLog(log[..|log| - 1], i);
    }
  }

  lemma ClosedRunIsSent(gen: Scheduler.CFlowGenListPerThread, lines: Lines)
    requires gen.Closed() && PlayedOnce(gen.flows) && GoOutBy(gen.flows, lines)
    ensures Fits(lines, gen.log) && AllSent(lines, gen.log)
  {
    forall f | f in lines.descriptors ensures SentOf(gen.log, f) == Iota(|lines.descriptors[f]|) {
      assert SentAtEnd(gen.log, gen.flows[f]);
    }
    forall i | 0 <= i < |gen.log|
      ensures gen.log[i].id in lines.descriptors && gen.log[i].pkt < |lines.descriptors[gen.log[i].id]|
    {
      SentIsInLog(gen.log, i);
    }
  }

  lemma FlowsArePrepared(flows: map<nat, FlowRecord>, lines: Lines, order: seq<nat>)
    requires GoOutBy(flows, lines) && Lists(order, lines.descriptors.Keys)
    ensures AllPrepared(FlowsIn(lines, order))
  {
    hide IsPrepared, NoRepeats;
    var sent := FlowsIn(lines, order);
    forall i | 0 <= i < |sent| ensures IsPrepared(sent[i]) {
      assert order[i] in flows;
    }
  }

  /** From the scheduler to the checker: a whole run, whose packets arrive complete, in order per stream and in
      time, ends with all error counters at zero and an empty table. */
  lemma {:induction false} ScheduledRunRaisesNoAlarm(gen: Scheduler.CFlowGenListPerThread, lines: Lines,
                                                     arrivals: seq<Arrival>, views: seq<View>)
    requires gen.Closed() && PlayedOnce(gen.flows) && GoOutBy(gen.flows, lines) && gen.m_cur_flow_id <= FLOW_MODULUS
    requires Fits(lines, gen.log) ==> Delivered(OnAir(lines, gen.log), arrivals)
    requires InTime(arrivals) && IsRun(arrivals, views)
    ensures forall i :: 0 <= i <= |arrivals| ==> views[i].stats.TotalErr() == 0
    ensures views[|arrivals|].table == map[] && views[|arrivals|].due == map[]
    ensures views[|arrivals|].stats.m_add == views[|arrivals|].stats.m_remove == |Keys(arrivals, |arrivals|)|
  {
    hide InTime, IsRun, Delivered, AllPrepared, Fits, AllSent, Keys, Stats.TotalErr, DistinctFlows, Sent;
    ClosedRunIsSent(gen, lines);
    var order := SomeOrder(lines.descriptors.Keys);
    var flows := FlowsIn(lines, order);
    FlowsAreDistinct(lines, order);
    LogIsDelivered(lines, gen.log, order);
    DeliveredChain(Sent(flows), OnAir(lines, gen.log), arrivals);
    FlowsArePrepared(gen.flows, lines, order);
    SentTrafficRaisesNoAlarm(flows, arrivals, views);
  }

  // ----- Time

  /** All packets keep the gaps of the capture. */
  ghost predicate PlayedAsCaptured(flows: map<nat, FlowRecord>, lines: Lines) {
    forall f, i :: f in flows && f in lines.descriptors
                   && 0 <= i < |flows[f].info.template.pkts| && i < |lines.descriptors[f]| ==>
      && flows[f].info.template.pkts[i].pcap_timing
      && flows[f].info.template.pkts[i].cap_ipg == lines.descriptors[f][i].cap_ipg
  }

  /** A template read off these descriptors with cap_mode set. */
  ghost predicate InCapMode(t: Template, descriptors: seq<Descriptor>) {
    exists is_tcp, s :: IsTemplateRead(t, descriptors, is_tcp, s) && s.cap_mode
  }

  ghost predicate IsTemplateRead(t: Template, descriptors: seq<Descriptor>, is_tcp: seq<bool>, s: Settings) {
    descriptors != [] && |is_tcp| == |descriptors| && t == TemplateOf(descriptors, is_tcp, s)
  }

  lemma CapModePlaysAsCaptured(flows: map<nat, FlowRecord>, lines: Lines)
    requires forall f :: f in flows ==>
               f in lines.descriptors && InCapMode(flows[f].info.template, lines.descriptors[f])
    ensures PlayedAsCaptured(flows, lines)
    ensures forall f :: f in flows ==> |flows[f].info.template.pkts| == |lines.descriptors[f]|
  {
  }

  /** No aging time had to be cut to 65000 seconds. */
  ghost predicate UncutTimeouts(lines: Lines) {
    forall f, i :: f in lines.descriptors && 0 <= i < |lines.descriptors[f]| ==>
      lines.descriptors[f][i].max_flow_aging < 65000
  }

  /** A flow that is played as captured runs by the clock of the capture. */
  lemma {:induction false} TimeIsClock(t: Template, loaded: seq<Descriptor>, times: seq<real>, m: nat)
    requires Paced(t, Iota(|t.pkts|), times) && |loaded| == |t.pkts| && m < |t.pkts|
    requires forall i :: 0 <= i < |t.pkts| ==> t.pkts[i].pcap_timing && t.pkts[i].cap_ipg == loaded[i].cap_ipg
    ensures times[m] == times[0] + Clock(loaded[..m])
  {
    if m == 0 {
      assert loaded[..0] == [];
    } else {
      TimeIsClock(t, loaded, times, m - 1);
      assert loaded[..m][..m - 1] == loaded[..m - 1];
      assert ComesNext(t, Iota(|t.pkts|)[m - 1], times[m - 1], times[m]);
    }
  }

  /** The packet that comes next in the flow leaves between the two. */
  lemma {:induction false} EntryBetween(log: seq<SentPkt>, x: nat, y: nat, n: nat, l: nat) returns (z: nat)
    requires x < y < |log| && log[x].id == log[y].id && SentOf(log, log[x].id) == Iota(n)
    requires log[x].pkt < l < log[y].pkt
    ensures x < z < y && log[z].id == log[x].id && log[z].pkt == l
    decreases y - x
  {
    z := x + 1;
    while log[z].id != log[x].id
      invariant x < z <= y && forall i :: x < i < z ==> log[i].id != log[x].id
      decreases y - z
    {
      z := z + 1;
    }
    EntryIsSent(log, x);
    EntryIsSent(log, z);
    NothingBetween(log, x + 1, z, log[x].id);
    if log[z].pkt != l {
      z := EntryBetween(log, z, y, n, l);
    }
  }

  /** Packets leave in the order of the template. */
  lemma LaterPacket(log: seq<SentPkt>, x: nat, y: nat, n: nat)
    requires x < y < |log| && log[x].id == log[y].id && SentOf(log, log[x].id) == Iota(n)
    ensures log[x].pkt < log[y].pkt < n
    ensures TimesOf(log, log[x].id)[log[x].pkt] == log[x].time && TimesOf(log, log[x].id)[log[y].pkt] == log[y].time
  {
    hide SentOf, TimesOf;
    EntryIsSent(log, x);
    EntryIsSent(log, y);
    assert log[..y][..x + 1] == log[..x + 1];
    SentOfPrefix(log[..y], x + 1, log[x].id);
  }

  /** Under one key leave the packets of one sub-flow. */
  lemma SameSubFlow(lines: Lines, log: seq<SentPkt>, x: nat, y: nat)
    requires Fits(lines, log) && ShortIds(lines) && x < |log| && y < |log|
    requires forall f :: f in lines.descriptors ==> IsPrepared(lines.FlowOf(f))
    ensures OnAir(lines, log)[x].h.m_flow_id == OnAir(lines, log)[y].h.m_flow_id
            <==> log[x].id == log[y].id
                 && lines.descriptors[log[x].id][log[x].pkt].flow_id == lines.descriptors[log[y].id][log[y].pkt].flow_id
  {
    hide IsUpdated, GloballyNumbered, PackedKey;
    var f, g := log[x].id, log[y].id;
    var loaded :| WellPrepared(lines.FlowOf(f), loaded);
    var loaded' :| WellPrepared(lines.FlowOf(g), loaded');
    SubFlowIsSmall(lines.FlowOf(f), loaded, log[x].pkt);
    SubFlowIsSmall(lines.FlowOf(g), loaded', log[y].pkt);
    PackedKeyCollides(lines.thread, f, lines.descriptors[f][log[x].pkt].flow_id,
                      lines.thread, g, lines.descriptors[g][log[y].pkt].flow_id);
  }

  lemma SubFlowIsSmall(f: SentFlow, loaded: seq<Descriptor>, i: nat)
    requires WellPrepared(f, loaded) && i < |f.template|
    ensures |loaded| == |f.template| && f.template[i].flow_id == loaded[i].flow_id < SUB_MODULUS
    ensures f.template[i].cap_ipg == loaded[i].cap_ipg
    ensures f.template[i].max_flow_aging == FlowTimeout(LongestGap(loaded, loaded[i].flow_id))
  {
    assert f.template[i] == Updated(loaded, i);
  }

  /** The gap to the next packet of a sub-flow, and four seconds more, is less than any packet of it announces. */
  lemma {:induction false} GapBelowTimeout(f: SentFlow, loaded: seq<Descriptor>, p: nat, q: nat, r: nat)
    requires WellPrepared(f, loaded) && p < q < |f.template| && r < |f.template|
    requires f.template[p].flow_id == f.template[q].flow_id == f.template[r].flow_id
    requires forall l :: p < l < q ==> f.template[l].flow_id != f.template[p].flow_id
    requires f.template[r].max_flow_aging < 65000
    ensures |loaded| == |f.template|
    ensures 2.0 * (Clock(loaded[..q]) - Clock(loaded[..p])) + 4.0 <= AgingDelay(HeaderOf(f, f.template[r]))
  {
    hide IsUpdated, GloballyNumbered, FewFlows, WellPrepared, PackedKey, Clock, LongestGap;
    SubFlowIsSmall(f, loaded, p);
    SubFlowIsSmall(f, loaded, q);
    SubFlowIsSmall(f, loaded, r);
    forall l | p < l < q ensures loaded[l].flow_id != loaded[p].flow_id {
      SubFlowIsSmall(f, loaded, l);
    }
    GapIsCounted(loaded, p, q);
  }

  /** A whole run as sent. */
  ghost predicate RunOf(flows: map<nat, FlowRecord>, lines: Lines, log: seq<SentPkt>) {
    && PlayedOnce(flows) && GoOutBy(flows, lines) && ShortIds(lines) && Fits(lines, log)
    && (forall f :: f in flows ==> flows[f].info.id == f && SentAtEnd(log, flows[f]))
    && PlayedAsCaptured(flows, lines) && UncutTimeouts(lines)
  }

  lemma PacketsOfFlow(flows: map<nat, FlowRecord>, lines: Lines, log: seq<SentPkt>, f: nat, loaded: seq<Descriptor>,
                      m: nat)
    requires RunOf(flows, lines, log) && f in flows && WellPrepared(lines.FlowOf(f), loaded)
    requires m < |lines.descriptors[f]|
    ensures SentOf(log, f) == Iota(|lines.descriptors[f]|) && |loaded| == |lines.descriptors[f]|
    ensures TimesOf(log, f)[m] == TimesOf(log, f)[0] + Clock(loaded[..m])
  {
    hide IsPrepared, WellPrepared, UncutTimeouts, Clock, ComesNext;
    var t := flows[f].info.template;
    assert SentAtEnd(log, flows[f]);
    SubFlowIsSmall(lines.FlowOf(f), loaded, m);
    forall i | 0 <= i < |t.pkts| ensures t.pkts[i].pcap_timing && t.pkts[i].cap_ipg == loaded[i].cap_ipg {
      SubFlowIsSmall(lines.FlowOf(f), loaded, i);
    }
    TimeIsClock(t, loaded, TimesOf(log, f), m);
  }

  lemma FlowIsSentInTime(flows: map<nat, FlowRecord>, lines: Lines, log: seq<SentPkt>, x: nat, y: nat, z: nat)
    requires RunOf(flows, lines, log) && x < y < |log| && z < |log|
    requires log[x].time <= log[y].time && SameFlowNext(OnAir(lines, log), x, y)
    requires OnAir(lines, log)[z].h.m_flow_id == OnAir(lines, log)[x].h.m_flow_id
    ensures log[y].time + 4.0 <= log[x].time + AgingDelay(OnAir(lines, log)[z].h)
  {
    hide RunOf, HeaderOf, Clock, AgingDelay, WellPrepared, SentAtEnd, Cyclic, Paced;
    PreparedRun(flows, lines, log);
    SameSubFlow(lines, log, x, y);
    SameSubFlow(lines, log, x, z);
    var f := log[x].id;
    var p, q, n := log[x].pkt, log[y].pkt, |lines.descriptors[f]|;
    var loaded :| WellPrepared(lines.FlowOf(f), loaded);
    PacketsOfFlow(flows, lines, log, f, loaded, p);
    PacketsOfFlow(flows, lines, log, f, loaded, q);
    LaterPacket(log, x, y, n);
    forall l | p < l < q ensures lines.descriptors[f][l].flow_id != lines.descriptors[f][p].flow_id {
      var between := EntryBetween(log, x, y, n, l);
      SameSubFlow(lines, log, x, between);
    }
    GapBelowTimeout(lines.FlowOf(f), loaded, p, q, log[z].pkt);
  }

  lemma PreparedRun(flows: map<nat, FlowRecord>, lines: Lines, log: seq<SentPkt>)
    requires RunOf(flows, lines, log)
    ensures Fits(lines, log) && ShortIds(lines) && lines.descriptors.Keys == flows.Keys
    ensures forall f :: f in lines.descriptors ==> IsPrepared(lines.FlowOf(f))
    ensures UncutTimeouts(lines)
  {
    hide IsPrepared;
  }

  lemma ClosedRun(gen: Scheduler.CFlowGenListPerThread, lines: Lines)
    requires gen.Closed() && PlayedOnce(gen.flows) && GoOutBy(gen.flows, lines) && gen.m_cur_flow_id <= FLOW_MODULUS
    requires PlayedAsCaptured(gen.flows, lines) && UncutTimeouts(lines)
    ensures RunOf(gen.flows, lines, gen.log) && InTimeOrder(OnAir(lines, gen.log))
  {
    hide IsPrepared, SentAtEnd, UncutTimeouts, PlayedAsCaptured;
    ClosedRunIsSent(gen, lines);
  }

  /** From the scheduler to the checker with nothing assumed about the gaps: a whole run played as captured, over a
      network that loses nothing, keeps each stream in order and delays no packet by more than four seconds, ends with
      all error counters at zero and an empty table. */
  lemma {:induction false} PromptNetworkRaisesNoAlarm(gen: Scheduler.CFlowGenListPerThread, lines: Lines,
                                                      arrivals: seq<Arrival>, views: seq<View>)
    requires gen.Closed() && PlayedOnce(gen.flows) && GoOutBy(gen.flows, lines) && gen.m_cur_flow_id <= FLOW_MODULUS
    requires PlayedAsCaptured(gen.flows, lines) && UncutTimeouts(lines)
    requires Fits(lines, gen.log) ==>
               Delivered(OnAir(lines, gen.log), arrivals) && WithinDelay(OnAir(lines, gen.log), arrivals, 4.0)
    requires InTimeOrder(arrivals) && (forall i :: 0 <= i < |arrivals| ==> arrivals[i].time >= 0.0)
    requires IsRun(arrivals, views)
    ensures forall i :: 0 <= i <= |arrivals| ==> views[i].stats.TotalErr() == 0
    ensures views[|arrivals|].table == map[] && views[|arrivals|].due == map[]
    ensures views[|arrivals|].stats.m_add == views[|arrivals|].stats.m_remove == |Keys(arrivals, |arrivals|)|
  {
    hide InTime, IsRun, Delivered, WithinDelay, Fits, RunOf, PlayedOnce, GoOutBy, Keys, Stats.TotalErr, SentAtEnd;
    hide UncutTimeouts, PlayedAsCaptured, SameFlowNext, AgingDelay;
    ClosedRun(gen, lines);
    PreparedRun(gen.flows, lines, gen.log);
    var sent := OnAir(lines, gen.log);
    forall x, y, z | 0 <= x < y < |sent| && 0 <= z < |sent| && SameFlowNext(sent, x, y)
                     && sent[z].h.m_flow_id == sent[x].h.m_flow_id
      ensures sent[y].time + 4.0 <= sent[x].time + AgingDelay(sent[z].h)
    {
      FlowIsSentInTime(gen.flows, lines, gen.log, x, y, z);
    }
    DelayedIsInTime(sent, arrivals, 4.0);
    ScheduledRunRaisesNoAlarm(gen, lines, arrivals, views);
  }
}
