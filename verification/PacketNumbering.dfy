/** The transmit side of the RX check: how a capture file is loaded and numbered, and what each packet of a
    generated flow announces to the receiver. */
module PacketNumbering {
  import opened RxFlow
  import opened Basics
  import opened RxEndToEnd
  import opened RxCheck

  /** A captured packet: its flow, whether its addresses are swapped, when it was captured. */
  datatype CapPacket = CapPacket(flow_key: int, is_swap: bool, time: real)

  /** The template's packet descriptor.  The flow id has five bits. */
  datatype Descriptor = Descriptor(
    flow_id: nat, init_side: bool, both_dir: bool, is_rtt: bool, is_last: bool, cap_ipg: real,
    flow_pkt_num: uint16, max_flow_pkts: uint16, max_flow_aging: uint16,
    dir_pkt_num: uint16, max_dir_pkts: uint16)
  {
    function Dir(): bit { if init_side then 1 else 0 }
  }

  const MAX_SUB_FLOWS := 32
  const PKTS_LIMIT := 65000

  // ----- What loading a capture file yields

  /** The flows of a capture, in order of first appearance. */
  function FlowsOf(packets: seq<CapPacket>): (flows: seq<int>)
    ensures forall i :: 0 <= i < |packets| ==> packets[i].flow_key in flows
    ensures forall a, b :: 0 <= a < b < |flows| ==> flows[a] != flows[b]
  {
    if packets == [] then []
    else
      var before := FlowsOf(packets[..|packets| - 1]);
      var key := packets[|packets| - 1].flow_key;
      if key in before then before else before + [key]
  }

  function CountKey(packets: seq<CapPacket>, key: int): nat {
    if packets == [] then 0
    else CountKey(packets[..|packets| - 1], key) + (if packets[|packets| - 1].flow_key == key then 1 else 0)
  }

  ghost predicate TimesInOrder(packets: seq<CapPacket>) {
    forall i :: 0 < i < |packets| ==> packets[i - 1].time <= packets[i].time
  }

  /** Descriptor d belongs to packet i: its flow by order of appearance, its number within the flow, its side
      with respect to the first packet of the whole capture. */
  ghost predicate Describes(packets: seq<CapPacket>, i: nat, d: Descriptor)
    requires i < |packets|
  {
    && (forall n :: 0 <= n < |FlowsOf(packets)| && FlowsOf(packets)[n] == packets[i].flow_key ==>
          d.flow_id == n % MAX_SUB_FLOWS)
    && d.flow_pkt_num == U16(CountKey(packets[..i], packets[i].flow_key))
    && d.init_side == (packets[i].is_swap == packets[0].is_swap)
    && !d.both_dir
  }

  /** The gaps between packets, and where the direction turns. */
  ghost predicate Spaced(packets: seq<CapPacket>, template: seq<Descriptor>)
    requires |template| == |packets|
  {
    forall i :: 0 <= i < |packets| ==>
      && template[i].is_last == (i == |packets| - 1)
      && template[i].cap_ipg == (if i == |packets| - 1 then 0.0 else packets[i + 1].time - packets[i].time)
      && template[i].is_rtt == (i < |packets| - 1 && template[i].init_side != template[i + 1].init_side)
  }

  ghost predicate AllDescribed(packets: seq<CapPacket>, template: seq<Descriptor>) {
    |template| == |packets| && forall i :: 0 <= i < |packets| ==> Describes(packets, i, template[i])
  }

  ghost predicate IsTemplateOf(packets: seq<CapPacket>, template: seq<Descriptor>) {
    AllDescribed(packets, template) && Spaced(packets, template)
  }

  // ----- Gaps that are set before numbering

  /** A gap below the minimum, or below the gap that replaces it, is replaced. */
  function FixedIpg(ipg: real, min_ipg: real, override_ipg: real): real {
    if ipg < min_ipg || ipg < override_ipg then override_ipg else ipg
  }

  /** A gap that is long enough stays, a shorter one becomes the fixed one, and none is left below it. */
  lemma FixedIpgIs(ipg: real, min_ipg: real, override_ipg: real)
    ensures var r := FixedIpg(ipg, min_ipg, override_ipg);
            && r >= override_ipg && (r == ipg || r == override_ipg)
            && (r == ipg <==> ipg == override_ipg || (ipg >= min_ipg && ipg > override_ipg))
  {
  }

  function FixedUp(template: seq<Descriptor>, min_ipg: real, override_ipg: real): (r: seq<Descriptor>)
    ensures |r| == |template|
    ensures forall i :: 0 <= i < |r| ==>
            r[i] == template[i].(cap_ipg := FixedIpg(template[i].cap_ipg, min_ipg, override_ipg))
  {
    seq(|template|, i requires 0 <= i < |template| =>
          template[i].(cap_ipg := FixedIpg(template[i].cap_ipg, min_ipg, override_ipg)))
  }

  /** Flow, number and side of a packet do not depend on its gap. */
  lemma FixedUpIsDescribed(packets: seq<CapPacket>, template: seq<Descriptor>, min_ipg: real, override_ipg: real)
    requires AllDescribed(packets, template)
    ensures AllDescribed(packets, FixedUp(template, min_ipg, override_ipg))
  {
    forall i | 0 <= i < |packets| ensures Describes(packets, i, FixedUp(template, min_ipg, override_ipg)[i]) {
      assert Describes(packets, i, template[i]);
    }
  }

  datatype LoadResult = Loaded | TimeGoesBack | MoreThanOneFlow

  datatype CFlow = CFlow(flow_id: nat, pkt_id: nat, is_fif_swap: bool)

  ghost predicate TableMatches(packets: seq<CapPacket>, flow: map<int, CFlow>) {
    && (forall key :: key in flow <==> key in FlowsOf(packets))
    && (forall key :: key in flow ==>
          && flow[key].flow_id < |FlowsOf(packets)| && FlowsOf(packets)[flow[key].flow_id] == key
          && flow[key].pkt_id == CountKey(packets, key))
  }

  lemma FlowsGrow(packets: seq<CapPacket>, i: nat)
    requires i < |packets|
    ensures FlowsOf(packets[..i + 1]) == (if packets[i].flow_key in FlowsOf(packets[..i]) then FlowsOf(packets[..i])
                                          else FlowsOf(packets[..i]) + [packets[i].flow_key])
    ensures forall key :: CountKey(packets[..i + 1], key)
                          == CountKey(packets[..i], key) + (if packets[i].flow_key == key then 1 else 0)
  {
    assert packets[..i + 1][..i] == packets[..i];
  }

  lemma DescribesStays(packets: seq<CapPacket>, i: nat, j: nat, d: Descriptor)
    requires j < i < |packets| && Describes(packets[..i], j, d)
    ensures Describes(packets[..i + 1], j, d)
  {
    FlowsGrow(packets, i);
    assert packets[..i + 1][..j] == packets[..i][..j];
    assert packets[..i][j].flow_key in FlowsOf(packets[..i]);
  }

  lemma DescribesNew(packets: seq<CapPacket>, i: nat, flow: map<int, CFlow>, d: Descriptor)
    requires i < |packets| && TableMatches(packets[..i], flow)
    requires var key := packets[i].flow_key;
             && d.flow_id == (if key in flow then flow[key].flow_id else |FlowsOf(packets[..i])|) % MAX_SUB_FLOWS
             && d.flow_pkt_num == U16(if key in flow then flow[key].pkt_id else 0)
             && d.init_side == (packets[i].is_swap == packets[0].is_swap) && !d.both_dir
    ensures Describes(packets[..i + 1], i, d)
  {
    FlowsGrow(packets, i);
    assert packets[..i + 1][..i] == packets[..i];
    NoFlowNoPackets(packets[..i], packets[i].flow_key);
  }

  lemma {:induction false} NoFlowNoPackets(packets: seq<CapPacket>, key: int)
    ensures key !in FlowsOf(packets) ==> CountKey(packets, key) == 0
  {
    if packets != [] {
      NoFlowNoPackets(packets[..|packets| - 1], key);
    }
  }

  lemma TableGrows(packets: seq<CapPacket>, i: nat, flow: map<int, CFlow>, f: CFlow)
    requires i < |packets| && TableMatches(packets[..i], flow)
    requires var key := packets[i].flow_key;
             && f.flow_id == (if key in flow then flow[key].flow_id else |FlowsOf(packets[..i])|)
             && f.pkt_id == (if key in flow then flow[key].pkt_id else 0) + 1
    ensures TableMatches(packets[..i + 1], flow[packets[i].flow_key := f])
  {
    FlowsGrow(packets, i);
    NoFlowNoPackets(packets[..i], packets[i].flow_key);
  }

  /** The template after the first pass: descriptors still carry absolute capture times. */
  ghost predicate Appended(packets: seq<CapPacket>, template: seq<Descriptor>) {
    && |template| == |packets|
    && forall j :: 0 <= j < |packets| ==>
         && Describes(packets, j, template[j]) && template[j].cap_ipg == packets[j].time
         && !template[j].is_last && !template[j].is_rtt
  }

  lemma AppendedNext(packets: seq<CapPacket>, i: nat, template: seq<Descriptor>, d: Descriptor)
    requires i < |packets| && Appended(packets[..i], template)
    requires Describes(packets[..i + 1], i, d) && d.cap_ipg == packets[i].time && !d.is_last && !d.is_rtt
    ensures Appended(packets[..i + 1], template + [d])
  {
    forall j | 0 <= j < i ensures Describes(packets[..i + 1], j, template[j]) {
      assert packets[..i][j] == packets[..i + 1][j];
      DescribesStays(packets, i, j, template[j]);
    }
  }

  /** Descriptor d is descriptor i of `before` with its capture time replaced by the gap to the next. */
  ghost predicate SpacedOut(before: seq<Descriptor>, i: nat, d: Descriptor)
    requires i < |before|
  {
    var last := i == |before| - 1;
    d == before[i].(is_last := last || before[i].is_last,
                    cap_ipg := if last then 0.0 else before[i + 1].cap_ipg - before[i].cap_ipg,
                    is_rtt := before[i].is_rtt || (!last && before[i].init_side != before[i + 1].init_side))
  }

  lemma SpacedOutIsTemplate(packets: seq<CapPacket>, before: seq<Descriptor>, after: seq<Descriptor>)
    requires Appended(packets, before) && |after| == |before|
    requires forall i :: 0 <= i < |after| ==> SpacedOut(before, i, after[i])
    ensures IsTemplateOf(packets, after)
  {
    forall i | 0 <= i < |packets| ensures Describes(packets, i, after[i]) {
      assert SpacedOut(before, i, after[i]);
    }
  }

  // ----- What update_info adds

  function Count(template: seq<Descriptor>, f: nat, d: bit): nat {
    if template == [] then 0
    else
      var last := template[|template| - 1];
      Count(template[..|template| - 1], f, d) + (if last.flow_id == f && last.Dir() == d then 1 else 0)
  }

  function Total(template: seq<Descriptor>, f: nat): nat {
    Count(template, f, 0) + Count(template, f, 1)
  }

  /** The capture time after the packets of `template`, counted from the first. */
  function Clock(template: seq<Descriptor>): real {
    if template == [] then 0.0
    else Clock(template[..|template| - 1]) + template[|template| - 1].cap_ipg
  }

  datatype CTmpFlowInfo = CTmpFlowInfo(
    m_max_pkts: nat, pkts0: nat, pkts1: nat, m_last_pkt: real, m_max_aging_sec: real)
  {
    function Pkts(d: bit): nat { if d == 0 then pkts0 else pkts1 }

    function Add(d: bit, ctime: real): CTmpFlowInfo {
      var delta := ctime - m_last_pkt;
      CTmpFlowInfo(m_max_pkts + 1, if d == 0 then pkts0 + 1 else pkts0, if d == 1 then pkts1 + 1 else pkts1,
                   ctime, if delta > m_max_aging_sec then delta else m_max_aging_sec)
    }
  }

  function TmpFlow(template: seq<Descriptor>, f: nat): (t: CTmpFlowInfo)
    ensures forall d: bit :: t.Pkts(d) == Count(template, f, d)
    ensures t.m_max_pkts == Total(template, f) && t.m_max_aging_sec >= 0.0
  {
    if template == [] then CTmpFlowInfo(0, 0, 0, 0.0, 0.0)
    else
      var before := template[..|template| - 1];
      var last := template[|template| - 1];
      if last.flow_id == f then TmpFlow(before, f).Add(last.Dir(), Clock(before)) else TmpFlow(before, f)
  }

  function LongestGap(template: seq<Descriptor>, f: nat): (gap: real)
    ensures gap >= 0.0
  {
    TmpFlow(template, f).m_max_aging_sec
  }

  function FlowTimeout(sec: real): (timeout: uint16)
    requires sec >= 0.0
    ensures sec <= 32497.5 ==> 2.0 * sec + 4.0 < timeout as real <= 2.0 * sec + 5.0
    ensures sec > 32497.5 ==> timeout == 65000
  {
    var s := sec * 2.0 + 5.0;
    (if s > 65000.0 then 65000.0 else s).Floor
  }

  lemma TmpFlowNext(template: seq<Descriptor>, i: nat)
    requires i < |template|
    ensures var last := template[i];
            forall f: nat :: TmpFlow(template[..i + 1], f)
                        == (if last.flow_id == f then TmpFlow(template[..i], f).Add(last.Dir(), Clock(template[..i]))
                            else TmpFlow(template[..i], f))
    ensures Clock(template[..i + 1]) == Clock(template[..i]) + template[i].cap_ipg
    ensures forall f: nat, d: bit :: Count(template[..i + 1], f, d)
                        == Count(template[..i], f, d)
                           + (if template[i].flow_id == f && template[i].Dir() == d then 1 else 0)
    ensures Total(template[..i], template[i].flow_id) == 0 ==>
            TmpFlow(template[..i], template[i].flow_id) == CTmpFlowInfo(0, 0, 0, 0.0, 0.0)
  {
    assert template[..i + 1][..i] == template[..i];
    if Total(template[..i], template[i].flow_id) == 0 {
      NoPacketsNoFlow(template[..i], template[i].flow_id);
    }
  }

  lemma {:induction false} NoPacketsNoFlow(template: seq<Descriptor>, f: nat)
    requires Total(template, f) == 0
    ensures TmpFlow(template, f) == CTmpFlowInfo(0, 0, 0, 0.0, 0.0)
  {
    if template != [] {
      NoPacketsNoFlow(template[..|template| - 1], f);
    }
  }

  lemma {:induction false} CountUpTo(template: seq<Descriptor>, i: nat, f: nat, d: bit)
    requires i <= |template|
    ensures Count(template[..i], f, d) <= Count(template, f, d)
  {
    if i == |template| {
      assert template[..i] == template;
    } else {
      assert template[..|template| - 1][..i] == template[..i];
      CountUpTo(template[..|template| - 1], i, f, d);
    }
  }

  lemma TotalUpTo(template: seq<Descriptor>, i: nat, f: nat)
    requires i <= |template|
    ensures Total(template[..i], f) <= Total(template, f)
  {
    CountUpTo(template, i, f, 0);
    CountUpTo(template, i, f, 1);
  }

  lemma OccursInCount(loaded: seq<Descriptor>, i: nat)
    requires i < |loaded|
    ensures Count(loaded, loaded[i].flow_id, loaded[i].Dir()) > 0
  {
    assert loaded[..i + 1][..i] == loaded[..i];
    CountUpTo(loaded, i + 1, loaded[i].flow_id, loaded[i].Dir());
  }

  function WithPktNum(template: seq<Descriptor>, i: nat): Descriptor
    requires i < |template| && forall f: nat :: Total(template, f) < PKTS_LIMIT
  {
    var p := template[i];
    CountUpTo(template, i, p.flow_id, p.Dir());
    assert Total(template, p.flow_id) < PKTS_LIMIT;
    p.(dir_pkt_num := Count(template[..i], p.flow_id, p.Dir()))
  }

  function Updated(template: seq<Descriptor>, i: nat): Descriptor
    requires i < |template| && forall f: nat :: Total(template, f) < PKTS_LIMIT
  {
    var p := WithPktNum(template, i);
    assert Total(template, p.flow_id) < PKTS_LIMIT;
    p.(both_dir := p.both_dir || (Count(template, p.flow_id, 0) > 0 && Count(template, p.flow_id, 1) > 0),
       max_dir_pkts := Count(template, p.flow_id, p.Dir()),
       max_flow_pkts := Total(template, p.flow_id),
       max_flow_aging := FlowTimeout(LongestGap(template, p.flow_id)))
  }

  ghost predicate IsUpdated(before: seq<Descriptor>, after: seq<Descriptor>)
    requires forall f: nat :: Total(before, f) < PKTS_LIMIT
  {
    |after| == |before| && forall i :: 0 <= i < |before| ==> after[i] == Updated(before, i)
  }

  lemma NothingCaptured(packets: seq<CapPacket>)
    ensures FlowsOf(packets[..0]) == []
  {
  }

  class CCapFileFlowInfo {
    var m_flow_pkts: seq<Descriptor>
    var m_total_flows: nat
    var m_total_errors: nat

    constructor ()
      ensures m_flow_pkts == []
    {
      m_flow_pkts := [];
      m_total_flows := 0;
      m_total_errors := 0;
    }

    /** A packet's descriptor is appended, or the packet is counted as an error. */
    method ProcessPacket(p: CapPacket, multi_flow_enable: bool, ghost packets: seq<CapPacket>, i: nat,
                         flow: map<int, CFlow>, first_flow: int, first_flow_fif_is_swap: bool)
      returns (flow': map<int, CFlow>)
      requires i < |packets| && packets[i] == p
      requires LoadedSoFar(packets, i, multi_flow_enable, flow)
      requires i > 0 ==> first_flow == packets[0].flow_key && first_flow_fif_is_swap == packets[0].is_swap
      modifies this
      ensures LoadedSoFar(packets, i + 1, multi_flow_enable, flow')
    {
      hide U16, CountKey, Describes, Appended, FlowsOf;
      NothingCaptured(packets);
      FlowsGrow(packets, i);
      var is_fif := p.flow_key !in flow;
      var lpflow := if is_fif then CFlow(0, 0, false) else flow[p.flow_key];
      var d := Descriptor(0, false, false, false, false, p.time, U16(lpflow.pkt_id), 0, 0, 0, 0);
      lpflow := lpflow.(pkt_id := lpflow.pkt_id + 1);
      if is_fif {
        lpflow := lpflow.(flow_id := m_total_flows);
        d := d.(flow_id := lpflow.flow_id % MAX_SUB_FLOWS);
        if m_total_flows == 0 {
          lpflow := lpflow.(is_fif_swap := p.is_swap);
          d := d.(init_side := true);
          m_flow_pkts := m_flow_pkts + [d];
          m_total_flows := m_total_flows + 1;
        } else if multi_flow_enable {
          lpflow := lpflow.(is_fif_swap := p.is_swap);
          d := d.(init_side := first_flow_fif_is_swap == lpflow.is_fif_swap);
          m_flow_pkts := m_flow_pkts + [d];
          m_total_flows := m_total_flows + 1;
        } else {
          m_total_errors := m_total_errors + 1;
        }
      } else {
        d := d.(flow_id := lpflow.flow_id % MAX_SUB_FLOWS);
        if !multi_flow_enable {
          if p.flow_key == first_flow {
            d := d.(init_side := lpflow.is_fif_swap == p.is_swap);
            m_flow_pkts := m_flow_pkts + [d];
          } else {
            m_total_errors := m_total_errors + 1;
          }
        } else {
          d := d.(init_side := first_flow_fif_is_swap == p.is_swap);
          m_flow_pkts := m_flow_pkts + [d];
        }
      }
      flow' := flow[p.flow_key := lpflow];
      if old(m_total_errors) == 0 && m_total_errors == 0 {
        TableGrows(packets, i, flow, lpflow);
        DescribesNew(packets, i, flow, d);
        AppendedNext(packets, i, old(m_flow_pkts), d);
      }
    }

    ghost predicate LoadedSoFar(packets: seq<CapPacket>, i: nat, multi_flow_enable: bool, flow: map<int, CFlow>)
      requires i <= |packets|
      reads this
    {
      && (m_total_errors == 0 <==> multi_flow_enable || |FlowsOf(packets[..i])| <= 1)
      && (i > 0 ==> m_total_flows > 0 && m_flow_pkts != [] && packets[0].flow_key in flow
                    && flow[packets[0].flow_key].is_fif_swap == packets[0].is_swap)
      && (m_total_errors == 0 ==>
            && m_total_flows == |FlowsOf(packets[..i])|
            && TableMatches(packets[..i], flow)
            && Appended(packets[..i], m_flow_pkts))
    }
  
    /** A capture is refused exactly when its clock goes back or, without a plugin, when it holds two flows. */
    method LoadCapFile(packets: seq<CapPacket>, multi_flow_enable: bool) returns (r: LoadResult)
      requires packets != []
      modifies this
      ensures r == TimeGoesBack <==> !TimesInOrder(packets)
      ensures r == MoreThanOneFlow <==> TimesInOrder(packets) && !multi_flow_enable && |FlowsOf(packets)| > 1
      ensures r == Loaded ==> IsTemplateOf(packets, m_flow_pkts)
    {
      m_flow_pkts, m_total_flows, m_total_errors := [], 0, 0;
      var flow: map<int, CFlow> := map[];
      var first_flow, first_flow_fif_is_swap := 0, false;
      var last_time := 0.0;
      assert packets[..0] == [];
      for i := 0 to |packets|
        invariant LoadedSoFar(packets, i, multi_flow_enable, flow)
        invariant TimesInOrder(packets[..i])
        invariant i > 0 ==> last_time == packets[i - 1].time
        invariant i > 0 ==> first_flow == packets[0].flow_key && first_flow_fif_is_swap == packets[0].is_swap
      {
        if i > 0 && packets[i].time < last_time {
          return TimeGoesBack;
        }
        last_time := packets[i].time;
        flow := ProcessPacket(packets[i], multi_flow_enable, packets, i, flow, first_flow, first_flow_fif_is_swap);
        if i == 0 {
          first_flow, first_flow_fif_is_swap := packets[0].flow_key, packets[0].is_swap;
        }
      }
      assert packets[..|packets|] == packets;
      label B:
      SpaceOut();
      r := if m_total_errors > 0 then MoreThanOneFlow else Loaded;
      if r == Loaded {
        SpacedOutIsTemplate(packets, old@B(m_flow_pkts), m_flow_pkts);
      }
    }

    /** Capture times become gaps; the gap before a change of direction is a round trip. */
    method SpaceOut()
      requires m_flow_pkts != []
      modifies `m_flow_pkts
      ensures |m_flow_pkts| == |old(m_flow_pkts)|
      ensures forall i :: 0 <= i < |m_flow_pkts| ==> SpacedOut(old(m_flow_pkts), i, m_flow_pkts[i])
    {
      var last := |m_flow_pkts| - 1;
      m_flow_pkts := m_flow_pkts[last := m_flow_pkts[last].(is_last := true)];
      for i := 1 to |m_flow_pkts|
        invariant |m_flow_pkts| == |old(m_flow_pkts)|
        invariant forall j :: 0 <= j < i - 1 ==> SpacedOut(old(m_flow_pkts), j, m_flow_pkts[j])
        invariant forall j :: i - 1 <= j <= last ==>
                  m_flow_pkts[j] == old(m_flow_pkts)[j].(is_last := j == last || old(m_flow_pkts)[j].is_last)
      {
        var lp_prev, lp := m_flow_pkts[i - 1], m_flow_pkts[i];
        lp_prev := lp_prev.(cap_ipg := lp.cap_ipg - lp_prev.cap_ipg);
        if lp.init_side != lp_prev.init_side {
          lp_prev := lp_prev.(is_rtt := true);
        }
        m_flow_pkts := m_flow_pkts[i - 1 := lp_prev];
      }
      m_flow_pkts := m_flow_pkts[last := m_flow_pkts[last].(cap_ipg := 0.0)];
    }

    /** update_min_ipg, between load and numbering. */
    method UpdateMinIpg(min_ipg: real, override_ipg: real)
      modifies `m_flow_pkts
      ensures m_flow_pkts == FixedUp(old(m_flow_pkts), min_ipg, override_ipg)
    {
      for i := 0 to |m_flow_pkts|
        invariant |m_flow_pkts| == |old(m_flow_pkts)|
        invariant m_flow_pkts[i..] == old(m_flow_pkts)[i..]
        invariant m_flow_pkts[..i] == FixedUp(old(m_flow_pkts), min_ipg, override_ipg)[..i]
      {
        var lp := m_flow_pkts[i];
        if lp.cap_ipg < min_ipg {
          lp := lp.(cap_ipg := override_ipg);
        }
        if lp.cap_ipg < override_ipg {
          lp := lp.(cap_ipg := override_ipg);
        }
        m_flow_pkts := m_flow_pkts[i := lp];
      }
    }

    /** Every packet learns its number within its direction of its flow; the flows are summed up. */
    method NumberPackets() returns (ft: map<nat, CTmpFlowInfo>)
      requires forall f: nat :: Total(m_flow_pkts, f) < PKTS_LIMIT
      modifies `m_flow_pkts
      ensures |m_flow_pkts| == |old(m_flow_pkts)|
      ensures forall j :: 0 <= j < |m_flow_pkts| ==> m_flow_pkts[j] == WithPktNum(old(m_flow_pkts), j)
      ensures forall f: nat :: f in ft <==> Total(old(m_flow_pkts), f) > 0
      ensures forall f: nat :: f in ft ==> ft[f] == TmpFlow(old(m_flow_pkts), f)
    {
      ghost var before := m_flow_pkts;
      ft := map[];
      var ctime := 0.0;
      assert before[..0] == [];
      for i := 0 to |m_flow_pkts|
        invariant |m_flow_pkts| == |before|
        invariant ctime == Clock(before[..i])
        invariant forall f: nat :: f in ft <==> Total(before[..i], f) > 0
        invariant forall f: nat :: f in ft ==> ft[f] == TmpFlow(before[..i], f)
        invariant forall j :: 0 <= j < i ==> m_flow_pkts[j] == WithPktNum(before, j)
        invariant forall j :: i <= j < |before| ==> m_flow_pkts[j] == before[j]
      {
        var desc := m_flow_pkts[i];
        var lpFlow := if desc.flow_id in ft then ft[desc.flow_id] else CTmpFlowInfo(0, 0, 0, 0.0, 0.0);
        TmpFlowNext(before, i);
        CountUpTo(before, i, desc.flow_id, desc.Dir());
        assert Total(before, desc.flow_id) < PKTS_LIMIT;
        m_flow_pkts := m_flow_pkts[i := desc.(dir_pkt_num := lpFlow.Pkts(desc.Dir()))];
        ft := ft[desc.flow_id := lpFlow.Add(desc.Dir(), ctime)];
        ctime := ctime + desc.cap_ipg;
      }
      assert before[..|before|] == before;
    }

    /** Every packet also learns how many packets its direction and its flow have, whether the flow goes both
        ways, and how long to wait for the flow. */
    method UpdateInfo()
      requires forall f: nat :: Total(m_flow_pkts, f) < PKTS_LIMIT
      modifies `m_flow_pkts
      ensures IsUpdated(old(m_flow_pkts), m_flow_pkts)
    {
      ghost var before := m_flow_pkts;
      var ft := NumberPackets();
      for i := 0 to |m_flow_pkts|
        invariant |m_flow_pkts| == |before|
        invariant forall j :: 0 <= j < i ==> m_flow_pkts[j] == Updated(before, j)
        invariant forall j :: i <= j < |before| ==> m_flow_pkts[j] == WithPktNum(before, j)
      {
        var desc := m_flow_pkts[i];
        OccursInCount(before, i);
        var lpFlow := ft[desc.flow_id];
        assert Total(before, desc.flow_id) < PKTS_LIMIT;
        desc := desc.(both_dir := (lpFlow.pkts0 > 0 && lpFlow.pkts1 > 0) || desc.both_dir,
                      max_dir_pkts := lpFlow.Pkts(desc.Dir()),
                      max_flow_pkts := lpFlow.m_max_pkts,
                      max_flow_aging := FlowTimeout(lpFlow.m_max_aging_sec));
        m_flow_pkts := m_flow_pkts[i := desc];
      }
    }
  }

  // ----- What a generated flow announces

  /** A flow as generated: thread, running number, template, and whether all its packets leave from one port. */
  datatype SentFlow = SentFlow(thread: nat, id: nat, template: seq<Descriptor>, single_port: bool, template_id: uint8)

  const FLOW_MODULUS := 0x10_0000_0000_0000   // 52 bits
  const SUB_MODULUS := 16                     // 4 bits
  const THREAD_MODULUS := 256                 // 8 bits

  /** Bits 0-51 number the flow, 52-55 the sub-flow, 56-63 the thread. */
  function PackedKey(thread: nat, id: nat, sub: nat): uint64 {
    var low := id % FLOW_MODULUS;
    low + FLOW_MODULUS * (sub % SUB_MODULUS + SUB_MODULUS * (thread % THREAD_MODULUS))
  }

  lemma PackedKeyCollides(thread: nat, id: nat, sub: nat, thread': nat, id': nat, sub': nat)
    ensures PackedKey(thread, id, sub) == PackedKey(thread', id', sub')
            <==> thread % THREAD_MODULUS == thread' % THREAD_MODULUS
                 && id % FLOW_MODULUS == id' % FLOW_MODULUS && sub % SUB_MODULUS == sub' % SUB_MODULUS
  {
    var a, b, c := id % FLOW_MODULUS, sub % SUB_MODULUS, thread % THREAD_MODULUS;
    var a', b', c' := id' % FLOW_MODULUS, sub' % SUB_MODULUS, thread' % THREAD_MODULUS;
    SplitDigits(FLOW_MODULUS, a, b + SUB_MODULUS * c, a', b' + SUB_MODULUS * c');
    SplitDigits(SUB_MODULUS, b, c, b', c');
  }

  lemma SplitDigits(m: nat, a: nat, x: nat, a': nat, x': nat)
    requires a < m && a' < m
    ensures a + m * x == a' + m * x' <==> a == a' && x == x'
  {
    if x < x' {
      MulGrows(x + 1, x', m);
    } else if x' < x {
      MulGrows(x' + 1, x, m);
    }
  }

  function HeaderOf(f: SentFlow, d: Descriptor): Header {
    var key := PackedKey(f.thread, f.id, d.flow_id);
    if f.single_port then
      Header(RX_CHECK_MAGIC, key, d.flow_pkt_num, d.max_flow_pkts, 0, false, f.template_id, d.max_flow_aging)
    else
      Header(RX_CHECK_MAGIC, key, d.dir_pkt_num, d.max_dir_pkts, d.Dir(), d.both_dir, f.template_id, d.max_flow_aging)
  }

  /** The first n packets of a flow as they leave. */
  ghost function Leaving(f: SentFlow, n: nat): (sent: seq<Arrival>)
    requires n <= |f.template|
    ensures |sent| == n && forall i :: 0 <= i < n ==> sent[i].h == HeaderOf(f, f.template[i])
  {
    seq(n, i requires 0 <= i < n => Arrival(HeaderOf(f, f.template[i]), 0.0))
  }

  ghost function Sent(flows: seq<SentFlow>): seq<Arrival> {
    if flows == [] then [] else Sent(flows[..|flows| - 1]) + Leaving(flows[|flows| - 1], |flows[|flows| - 1].template|)
  }

  /** The network lost nothing and kept the packets of each direction of each flow in order. */
  ghost predicate Delivered(sent: seq<Arrival>, arrivals: seq<Arrival>) {
    forall k: uint64, d: bit :: Stream(arrivals, k, d) == Stream(sent, k, d)
  }

  /** Whether a checker is numbered traffic does not depend on the interleaving. */
  lemma NumberedIsPerStream(sent: seq<Arrival>, arrivals: seq<Arrival>)
    requires Delivered(sent, arrivals) && Numbered(sent)
    ensures Numbered(arrivals)
  {
    forall k: uint64, d: bit ensures StreamNumbered(Stream(arrivals, k, d), BothWays(arrivals, k)) {
      assert StreamNumbered(Stream(sent, k, d), BothWays(sent, k));
      assert Stream(arrivals, k, 0) == Stream(sent, k, 0) && Stream(arrivals, k, 1) == Stream(sent, k, 1);
    }
  }

  lemma {:induction false} StreamConcat(a: seq<Arrival>, b: seq<Arrival>, k: uint64, d: bit)
    ensures Stream(a + b, k, d) == Stream(a, k, d) + Stream(b, k, d)
  {
    if b == [] {
      assert a + b == a;
    } else {
      assert (a + b)[..|a + b| - 1] == a + b[..|b| - 1];
      StreamConcat(a, b[..|b| - 1], k, d);
    }
  }

  // ----- One flow

  /** `template` is what loading and numbering made of `packets`; `loaded` is how it stood before numbering, with
      the gaps of the capture or with those that replaced them. */
  ghost predicate Prepared(packets: seq<CapPacket>, loaded: seq<Descriptor>, template: seq<Descriptor>) {
    && AllDescribed(packets, loaded)
    && (forall f: nat :: Total(loaded, f) < PKTS_LIMIT)
    && IsUpdated(loaded, template)
  }

  ghost predicate GloballyNumbered(loaded: seq<Descriptor>) {
    forall i :: 0 <= i < |loaded| ==>
      loaded[i].flow_pkt_num as int == Total(loaded[..i], loaded[i].flow_id) && !loaded[i].both_dir
  }

  /** The flows of the capture have different sub-flow bits. */
  ghost predicate FewFlows(loaded: seq<Descriptor>) {
    forall i :: 0 <= i < |loaded| ==> loaded[i].flow_id < SUB_MODULUS
  }

  /** The number of packets of stream (f, d) among `descriptors`: with one port, everything counts for direction 0. */
  function StreamSize(descriptors: seq<Descriptor>, f: nat, d: bit, single_port: bool): nat {
    if !single_port then Count(descriptors, f, d) else if d == 0 then Total(descriptors, f) else 0
  }

  ghost predicate NumberedUpTo(s: seq<Header>, n: nat, size: nat, both_dir: bool) {
    && |s| == n
    && forall j :: 0 <= j < n ==>
         s[j].m_magic == RX_CHECK_MAGIC && s[j].m_pkt_id == j && s[j].m_flow_size as int == size
           && s[j].both_dir == both_dir
  }

  ghost predicate GoesBothWays(loaded: seq<Descriptor>, f: nat, single_port: bool) {
    StreamSize(loaded, f, 0, single_port) > 0 && StreamSize(loaded, f, 1, single_port) > 0
  }

  lemma HeaderIsNumbered(loaded: seq<Descriptor>, f: SentFlow, i: nat)
    requires i < |loaded| && (forall g: nat :: Total(loaded, g) < PKTS_LIMIT) && IsUpdated(loaded, f.template)
    requires GloballyNumbered(loaded)
    ensures var h := HeaderOf(f, f.template[i]);
            var g := loaded[i].flow_id;
            && h.m_magic == RX_CHECK_MAGIC
            && h.m_flow_id == PackedKey(f.thread, f.id, g)
            && h.m_pkt_id as int == StreamSize(loaded[..i], g, h.dir, f.single_port)
            && h.m_flow_size as int == StreamSize(loaded, g, h.dir, f.single_port)
            && h.both_dir == GoesBothWays(loaded, g, f.single_port)
            && h.dir == (if f.single_port then 0 else loaded[i].Dir())
  {
    assert f.template[i] == Updated(loaded, i);
  }

  lemma StreamSizeNext(loaded: seq<Descriptor>, i: nat, g: nat, d: bit, single_port: bool)
    requires i < |loaded|
    ensures StreamSize(loaded[..i + 1], g, d, single_port)
            == StreamSize(loaded[..i], g, d, single_port)
               + (if loaded[i].flow_id == g && d == (if single_port then 0 else loaded[i].Dir()) then 1 else 0)
  {
    assert loaded[..i + 1][..i] == loaded[..i];
  }

  /** The stream of sub-flow g and direction d, after n packets of the flow. */
  lemma {:induction false} LeavingNumbered(loaded: seq<Descriptor>, f: SentFlow, n: nat, g: nat, d: bit)
    requires n <= |loaded| && (forall x: nat :: Total(loaded, x) < PKTS_LIMIT) && IsUpdated(loaded, f.template)
    requires GloballyNumbered(loaded) && FewFlows(loaded) && g < SUB_MODULUS
    ensures NumberedUpTo(Stream(Leaving(f, n), PackedKey(f.thread, f.id, g), d),
                         StreamSize(loaded[..n], g, d, f.single_port),
                         StreamSize(loaded, g, d, f.single_port), GoesBothWays(loaded, g, f.single_port))
  {
    hide Updated, PackedKey, HeaderOf, StreamSize, GloballyNumbered;
    if n == 0 {
      assert loaded[..0] == [];
      NothingLeft(g, d, f.single_port);
    } else {
      var i := n - 1;
      LeavingNumbered(loaded, f, i, g, d);
      assert Leaving(f, n)[..i] == Leaving(f, i);
      HeaderIsNumbered(loaded, f, i);
      StreamSizeNext(loaded, i, g, d, f.single_port);
      PackedKeyCollides(f.thread, f.id, g, f.thread, f.id, loaded[i].flow_id);
    }
  }

  lemma NothingLeft(g: nat, d: bit, single_port: bool)
    ensures StreamSize([], g, d, single_port) == 0
  {
  }

  /** A flow owns the keys of its thread and number, whatever the sub-flow. */
  predicate Owns(f: SentFlow, k: uint64) {
    k == PackedKey(f.thread, f.id, k / FLOW_MODULUS % SUB_MODULUS)
  }

  lemma OwnsItsKeys(f: SentFlow, sub: nat)
    ensures Owns(f, PackedKey(f.thread, f.id, sub))
    ensures PackedKey(f.thread, f.id, sub) / FLOW_MODULUS % SUB_MODULUS == sub % SUB_MODULUS
  {
    var k := PackedKey(f.thread, f.id, sub);
    var rest := sub % SUB_MODULUS + SUB_MODULUS * (f.thread % THREAD_MODULUS);
    assert k == f.id % FLOW_MODULUS + FLOW_MODULUS * rest;
    assert k / FLOW_MODULUS == rest;
    assert rest % SUB_MODULUS == sub % SUB_MODULUS;
  }

  lemma {:induction false} OthersSendNothing(f: SentFlow, n: nat, k: uint64, d: bit)
    requires n <= |f.template| && !Owns(f, k)
    ensures Stream(Leaving(f, n), k, d) == []
  {
    if n > 0 {
      assert Leaving(f, n)[..n - 1] == Leaving(f, n - 1);
      OwnsItsKeys(f, f.template[n - 1].flow_id);
      OthersSendNothing(f, n - 1, k, d);
    }
  }

  /** A flow whose capture has at most 16 flows. */
  ghost predicate WellPrepared(f: SentFlow, loaded: seq<Descriptor>) {
    && (forall g: nat :: Total(loaded, g) < PKTS_LIMIT)
    && IsUpdated(loaded, f.template) && GloballyNumbered(loaded) && FewFlows(loaded)
  }

  ghost predicate IsPrepared(f: SentFlow) {
    exists loaded :: WellPrepared(f, loaded)
  }

  ghost predicate AllPrepared(flows: seq<SentFlow>) {
    forall i :: 0 <= i < |flows| ==> IsPrepared(flows[i])
  }

  /** No two flows share both the thread byte and the 52 bits of the flow number. */
  ghost predicate DistinctFlows(flows: seq<SentFlow>) {
    forall i, j :: 0 <= i < j < |flows| ==>
      flows[i].thread % THREAD_MODULUS != flows[j].thread % THREAD_MODULUS
        || flows[i].id % FLOW_MODULUS != flows[j].id % FLOW_MODULUS
  }

  ghost function WholeFlow(f: SentFlow): seq<Arrival> {
    Leaving(f, |f.template|)
  }

  lemma FlowIsNumbered(f: SentFlow, loaded: seq<Descriptor>, k: uint64, d: bit)
    requires WellPrepared(f, loaded)
    ensures StreamNumbered(Stream(WholeFlow(f), k, d), BothWays(WholeFlow(f), k))
  {
    hide IsUpdated, GloballyNumbered, FewFlows, PackedKey, StreamSize;
    var g := k / FLOW_MODULUS % SUB_MODULUS;
    if Owns(f, k) {
      assert loaded[..|loaded|] == loaded;
      SameLength(loaded, f.template);
      forall e: bit ensures NumberedUpTo(Stream(WholeFlow(f), k, e), StreamSize(loaded, g, e, f.single_port),
                                         StreamSize(loaded, g, e, f.single_port),
                                           GoesBothWays(loaded, g, f.single_port)) {
        LeavingNumbered(loaded, f, |loaded|, g, e);
      }
      SizeIsShort(loaded, g, d, f.single_port);
    } else {
      OthersSendNothing(f, |f.template|, k, d);
    }
  }

  lemma SameLength(loaded: seq<Descriptor>, template: seq<Descriptor>)
    requires (forall g: nat :: Total(loaded, g) < PKTS_LIMIT) && IsUpdated(loaded, template)
    ensures |loaded| == |template|
  {
  }

  lemma SizeIsShort(loaded: seq<Descriptor>, g: nat, d: bit, single_port: bool)
    requires forall x: nat :: Total(loaded, x) < PKTS_LIMIT
    ensures StreamSize(loaded, g, d, single_port) < 0x1_0000
  {
    assert Total(loaded, g) < PKTS_LIMIT;
  }

  lemma OneOwner(f: SentFlow, f': SentFlow, k: uint64)
    requires Owns(f, k) && Owns(f', k)
    ensures f.thread % THREAD_MODULUS == f'.thread % THREAD_MODULUS && f.id % FLOW_MODULUS == f'.id % FLOW_MODULUS
  {
    var sub := k / FLOW_MODULUS % SUB_MODULUS;
    PackedKeyCollides(f.thread, f.id, sub, f'.thread, f'.id, sub);
  }

  lemma {:induction false} StrangersSendNothing(flows: seq<SentFlow>, k: uint64, d: bit)
    requires forall i :: 0 <= i < |flows| ==> !Owns(flows[i], k)
    ensures Stream(Sent(flows), k, d) == []
  {
    if flows != [] {
      var last := flows[|flows| - 1];
      StreamConcat(Sent(flows[..|flows| - 1]), WholeFlow(last), k, d);
      StrangersSendNothing(flows[..|flows| - 1], k, d);
      OthersSendNothing(last, |last.template|, k, d);
    }
  }

  /** A stream of the whole traffic is a stream of one flow. */
  lemma {:induction false} StreamOfOneFlow(flows: seq<SentFlow>, i: nat, k: uint64, d: bit)
    requires i < |flows| && DistinctFlows(flows) && Owns(flows[i], k)
    ensures Stream(Sent(flows), k, d) == Stream(WholeFlow(flows[i]), k, d)
  {
    hide Owns, PackedKey, Stream;
    var last := |flows| - 1;
    StreamConcat(Sent(flows[..last]), WholeFlow(flows[last]), k, d);
    if i == last {
      forall j | 0 <= j < last ensures !Owns(flows[j], k) {
        if Owns(flows[j], k) {
          OneOwner(flows[j], flows[i], k);
          assert false;
        }
      }
      StrangersSendNothing(flows[..last], k, d);
    } else {
      if Owns(flows[last], k) {
        OneOwner(flows[i], flows[last], k);
        assert false;
      }
      OthersSendNothing(flows[last], |flows[last].template|, k, d);
      StreamOfOneFlow(flows[..last], i, k, d);
    }
  }

  /** Any number of flows of any number of templates, interleaved in any way: what arrives is numbered. */
  lemma SentTrafficIsNumbered(flows: seq<SentFlow>, arrivals: seq<Arrival>)
    requires DistinctFlows(flows) && AllPrepared(flows) && Delivered(Sent(flows), arrivals)
    ensures Numbered(arrivals)
  {
    hide Owns, PackedKey, Stream, WellPrepared, StreamNumbered, Sent, WholeFlow;
    forall k: uint64, d: bit ensures StreamNumbered(Stream(Sent(flows), k, d), BothWays(Sent(flows), k)) {
      if i :| 0 <= i < |flows| && Owns(flows[i], k) {
        StreamOfOneFlow(flows, i, k, 0);
        StreamOfOneFlow(flows, i, k, 1);
        assert IsPrepared(flows[i]);
        var loaded :| WellPrepared(flows[i], loaded);
        FlowIsNumbered(flows[i], loaded, k, d);
      } else {
        StrangersSendNothing(flows, k, d);
        NoStream(BothWays(Sent(flows), k));
      }
    }
    NumberedIsPerStream(Sent(flows), arrivals);
  }

  lemma NoStream(both_dir: bool)
    ensures StreamNumbered([], both_dir)
  {
  }

  // ----- From the capture file: sixteen flows and no more

  lemma IndexOfFlow(packets: seq<CapPacket>, i: nat) returns (n: nat)
    requires i < |packets|
    ensures n < |FlowsOf(packets)| && FlowsOf(packets)[n] == packets[i].flow_key
  {
    assert packets[i].flow_key in FlowsOf(packets);
    n :| 0 <= n < |FlowsOf(packets)| && FlowsOf(packets)[n] == packets[i].flow_key;
  }

  lemma {:induction false} FlowOccurs(packets: seq<CapPacket>, n: nat) returns (i: nat)
    requires n < |FlowsOf(packets)|
    ensures i < |packets| && packets[i].flow_key == FlowsOf(packets)[n]
    ensures CountKey(packets[..i], packets[i].flow_key) == 0
  {
    var before := packets[..|packets| - 1];
    if n < |FlowsOf(before)| {
      i := FlowOccurs(before, n);
      assert packets[..i] == before[..i];
    } else {
      i := |packets| - 1;
      NoFlowNoPackets(before, packets[i].flow_key);
    }
  }

  lemma IdIsIndex(packets: seq<CapPacket>, i: nat, d: Descriptor, n: nat)
    requires i < |packets| && Describes(packets, i, d)
    requires n < |FlowsOf(packets)| <= MAX_SUB_FLOWS && FlowsOf(packets)[n] == packets[i].flow_key
    ensures d.flow_id == n
  {
  }

  lemma SameKeySameId(packets: seq<CapPacket>, loaded: seq<Descriptor>, i: nat, j: nat)
    requires AllDescribed(packets, loaded) && |FlowsOf(packets)| <= MAX_SUB_FLOWS
    requires i < |packets| && j < |packets|
    ensures packets[i].flow_key == packets[j].flow_key <==> loaded[i].flow_id == loaded[j].flow_id
    ensures loaded[i].flow_id < |FlowsOf(packets)|
  {
    hide Describes, Spaced, FlowsOf;
    var n := IndexOfFlow(packets, i);
    var m := IndexOfFlow(packets, j);
    IdIsIndex(packets, i, loaded[i], n);
    IdIsIndex(packets, j, loaded[j], m);
  }

  lemma {:induction false} KeysCountAsIds(packets: seq<CapPacket>, loaded: seq<Descriptor>, n: nat, i: nat)
    requires AllDescribed(packets, loaded) && |FlowsOf(packets)| <= MAX_SUB_FLOWS
    requires n <= i < |packets|
    ensures CountKey(packets[..n], packets[i].flow_key) == Total(loaded[..n], loaded[i].flow_id)
  {
    if n > 0 {
      assert packets[..n][..n - 1] == packets[..n - 1] && loaded[..n][..n - 1] == loaded[..n - 1];
      KeysCountAsIds(packets, loaded, n - 1, i);
      SameKeySameId(packets, loaded, n - 1, i);
    }
  }

  /** A capture of at most 16 flows yields a well prepared template. */
  lemma FewFlowsAreWellPrepared(packets: seq<CapPacket>, loaded: seq<Descriptor>, f: SentFlow)
    requires Prepared(packets, loaded, f.template) && |FlowsOf(packets)| <= SUB_MODULUS
    ensures WellPrepared(f, loaded)
  {
    forall i | 0 <= i < |loaded|
      ensures loaded[i].flow_pkt_num as int == Total(loaded[..i], loaded[i].flow_id) && !loaded[i].both_dir
      ensures loaded[i].flow_id < SUB_MODULUS
    {
      assert Describes(packets, i, loaded[i]);
      KeysCountAsIds(packets, loaded, i, i);
      SameKeySameId(packets, loaded, i, i);
      TotalUpTo(loaded, i, loaded[i].flow_id);
      assert Total(loaded, loaded[i].flow_id) < PKTS_LIMIT;
    }
  }

  lemma {:induction false} SeenGrows(arrivals: seq<Arrival>, i: nat, j: nat, k: uint64, d: bit)
    requires i <= j <= |arrivals|
    ensures Seen(arrivals, i, k, d) <= Seen(arrivals, j, k, d)
  {
    if i < j {
      SeenGrows(arrivals, i, j - 1, k, d);
      SeenNext(arrivals, j - 1, k, d);
    }
  }

  /** Two packets numbered 0 in one stream spoil it. */
  lemma TwoStartsSpoil(arrivals: seq<Arrival>, i: nat, j: nat)
    requires i < j < |arrivals|
    requires arrivals[i].h.m_flow_id == arrivals[j].h.m_flow_id && arrivals[i].h.dir == arrivals[j].h.dir
    requires arrivals[i].h.m_pkt_id == 0 == arrivals[j].h.m_pkt_id
    ensures !Numbered(arrivals)
  {
    var k, d := arrivals[i].h.m_flow_id, arrivals[i].h.dir;
    if Numbered(arrivals) {
      assert StreamNumbered(Stream(arrivals, k, d), BothWays(arrivals, k));
      ArrivalInStream(arrivals, i);
      ArrivalInStream(arrivals, j);
      SeenNext(arrivals, i, k, d);
      SeenGrows(arrivals, i + 1, j, k, d);
      assert false;
    }
  }

  lemma {:induction false} FirstOf(template: seq<Descriptor>, f: nat, d: bit) returns (i: nat)
    requires Count(template, f, d) > 0
    ensures i < |template| && template[i].flow_id == f && template[i].Dir() == d && Count(template[..i], f, d) == 0
  {
    var before := template[..|template| - 1];
    if Count(before, f, d) > 0 {
      i := FirstOf(before, f, d);
      assert template[..i] == before[..i];
    } else {
      i := |template| - 1;
    }
  }

  lemma TwoStartsOfFlow(f: SentFlow, i: nat, j: nat)
    requires i < |f.template| && j < |f.template| && i != j
    requires var a, b := HeaderOf(f, f.template[i]), HeaderOf(f, f.template[j]);
             a.m_flow_id == b.m_flow_id && a.dir == b.dir && a.m_pkt_id == 0 == b.m_pkt_id
    ensures !Numbered(WholeFlow(f))
  {
    if i < j {
      TwoStartsSpoil(WholeFlow(f), i, j);
    } else {
      TwoStartsSpoil(WholeFlow(f), j, i);
    }
  }

  /** Packet i of the template opens direction d of sub-flow g. */
  ghost predicate Opens(loaded: seq<Descriptor>, f: SentFlow, i: nat, g: nat, d: bit)
    requires |f.template| == |loaded|
  {
    && i < |loaded| && loaded[i].flow_id == g == f.template[i].flow_id
    && HeaderOf(f, f.template[i]).m_pkt_id == 0
    && HeaderOf(f, f.template[i]).dir == d
  }

  lemma DirectionOpens(packets: seq<CapPacket>, loaded: seq<Descriptor>, f: SentFlow, g: nat, d: bit) returns (i: nat)
    requires Prepared(packets, loaded, f.template) && !f.single_port && Count(loaded, g, d) > 0
    ensures Opens(loaded, f, i, g, d)
  {
    i := FirstOf(loaded, g, d);
    assert f.template[i] == Updated(loaded, i);
  }

  lemma SomeDirectionOpens(packets: seq<CapPacket>, loaded: seq<Descriptor>, f: SentFlow, n: nat)
    returns (i: nat, d: bit)
    requires Prepared(packets, loaded, f.template) && n < |FlowsOf(packets)|
    ensures Opens(loaded, f, i, n % MAX_SUB_FLOWS, d)
  {
    i := FlowOccurs(packets, n);
    assert Describes(packets, i, loaded[i]);
    assert f.template[i] == Updated(loaded, i);
    d := 0;
    if !f.single_port {
      d := loaded[i].Dir();
      OccursInCount(loaded, i);
      i := DirectionOpens(packets, loaded, f, n % MAX_SUB_FLOWS, d);
    }
  }

  /** When sub-flow g uses one direction and g', with the same bits, the other, the flag is wrong. */
  lemma SplitDirectionsSpoil(packets: seq<CapPacket>, loaded: seq<Descriptor>, f: SentFlow, g: nat, i: nat, d: bit,
                             g': nat, i': nat)
    requires Prepared(packets, loaded, f.template) && !f.single_port
    requires g != g' && g % SUB_MODULUS == g' % SUB_MODULUS
    requires Opens(loaded, f, i, g, d) && Opens(loaded, f, i', g', 1 - d)
    ensures !Numbered(WholeFlow(f))
  {
    var sent := WholeFlow(f);
    PackedKeyCollides(f.thread, f.id, g, f.thread, f.id, g');
    var k := PackedKey(f.thread, f.id, g);
    ArrivalInStream(sent, i);
    ArrivalInStream(sent, i');
    if Numbered(sent) {
      assert BothWays(sent, k);
      assert StreamNumbered(Stream(sent, k, d), BothWays(sent, k));
      assert sent[i].h.both_dir;
      assert f.template[i] == Updated(loaded, i) && Describes(packets, i, loaded[i]);
      var j := DirectionOpens(packets, loaded, f, g, 1 - d);
      TwoStartsOfFlow(f, j, i');
      assert false;
    }
  }

  lemma TooManyFlowsSpoil(packets: seq<CapPacket>, loaded: seq<Descriptor>, f: SentFlow)
    requires Prepared(packets, loaded, f.template) && |FlowsOf(packets)| > SUB_MODULUS
    ensures !Numbered(WholeFlow(f))
  {
    var i, d := SomeDirectionOpens(packets, loaded, f, 0);
    var i', d' := SomeDirectionOpens(packets, loaded, f, SUB_MODULUS);
    PackedKeyCollides(f.thread, f.id, 0, f.thread, f.id, SUB_MODULUS);
    if d == d' {
      TwoStartsOfFlow(f, i, i');
    } else {
      SplitDirectionsSpoil(packets, loaded, f, 0, i, d, SUB_MODULUS, i');
    }
  }

  /** The packets of a generated flow are numbered as the receiver expects exactly when the capture holds at
      most 16 flows: the descriptor keeps five bits of the flow's index, the packed key four. */
  lemma NumberedIffFewFlows(packets: seq<CapPacket>, loaded: seq<Descriptor>, f: SentFlow)
    requires Prepared(packets, loaded, f.template)
    ensures Numbered(WholeFlow(f)) <==> |FlowsOf(packets)| <= SUB_MODULUS
  {
    if |FlowsOf(packets)| <= SUB_MODULUS {
      FewFlowsAreWellPrepared(packets, loaded, f);
      forall k: uint64, d: bit ensures StreamNumbered(Stream(WholeFlow(f), k, d), BothWays(WholeFlow(f), k)) {
        FlowIsNumbered(f, loaded, k, d);
      }
    } else {
      TooManyFlowsSpoil(packets, loaded, f);
    }
  }

  /** What the NAT learning of the scheduler rests on: a template starts with the initiator, and if its first
      packet is marked as going both ways, some packet is the responder's. */
  lemma LearnTemplatesAnswer(packets: seq<CapPacket>, loaded: seq<Descriptor>, template: seq<Descriptor>)
    requires Prepared(packets, loaded, template) && packets != []
    ensures template[0].init_side
    ensures template[0].both_dir ==> exists i :: 0 <= i < |template| && !template[i].init_side
  {
    assert Describes(packets, 0, loaded[0]) && template[0] == Updated(loaded, 0);
    if template[0].both_dir {
      var i := FirstOf(loaded, loaded[0].flow_id, 0);
      assert template[i] == Updated(loaded, i);
    }
  }

  // ----- Time

  /** The time of the last packet of flow g. */
  lemma {:induction false} LastOfFlow(loaded: seq<Descriptor>, n: nat, p: nat)
    requires p < n <= |loaded|
    requires forall l :: p < l < n ==> loaded[l].flow_id != loaded[p].flow_id
    ensures TmpFlow(loaded[..n], loaded[p].flow_id).m_last_pkt == Clock(loaded[..p])
  {
    TmpFlowNext(loaded, n - 1);
    if n > p + 1 {
      LastOfFlow(loaded, n - 1, p);
    }
  }

  /** Packet q is a packet of flow g, the first one or next after packet p. */
  ghost predicate Follows(loaded: seq<Descriptor>, g: nat, p: int, q: nat) {
    && -1 <= p < q < |loaded| && loaded[q].flow_id == g && (p >= 0 ==> loaded[p].flow_id == g)
    && forall l :: p < l < q ==> loaded[l].flow_id != g
  }

  /** The longest gap is one that occurs, counted for the first packet from the start of the template. */
  lemma {:induction false} LongestGapOccurs(loaded: seq<Descriptor>, g: nat, n: nat) returns (p: int, q: nat)
    requires n <= |loaded| && LongestGap(loaded[..n], g) > 0.0
    ensures Follows(loaded, g, p, q)
    ensures LongestGap(loaded[..n], g) == Clock(loaded[..q]) - (if p < 0 then 0.0 else Clock(loaded[..p]))
  {
    if n > 0 {
      TmpFlowNext(loaded, n - 1);
      if LongestGap(loaded[..n], g) == LongestGap(loaded[..n - 1], g) {
        p, q := LongestGapOccurs(loaded, g, n - 1);
      } else {
        q := n - 1;
        p := LastBefore(loaded, g, q);
      }
    }
  }

  lemma {:induction false} LastBefore(loaded: seq<Descriptor>, g: nat, q: nat) returns (p: int)
    requires q < |loaded| && loaded[q].flow_id == g
    ensures Follows(loaded, g, p, q)
    ensures TmpFlow(loaded[..q], g).m_last_pkt == if p < 0 then 0.0 else Clock(loaded[..p])
  {
    p := q - 1;
    while p >= 0 && loaded[p].flow_id != g
      invariant -1 <= p < q && forall l :: p < l < q ==> loaded[l].flow_id != g
    {
      p := p - 1;
    }
    if p >= 0 {
      LastOfFlow(loaded, q, p);
    } else {
      NoneBefore(loaded, g, q);
    }
  }

  lemma {:induction false} NoneBefore(loaded: seq<Descriptor>, g: nat, n: nat)
    requires n <= |loaded| && forall l :: 0 <= l < n ==> loaded[l].flow_id != g
    ensures TmpFlow(loaded[..n], g).m_last_pkt == 0.0
  {
    if n > 0 {
      NoneBefore(loaded, g, n - 1);
      TmpFlowNext(loaded, n - 1);
    }
  }

  lemma {:induction false} GapsGrow(loaded: seq<Descriptor>, n: nat, g: nat)
    requires n <= |loaded|
    ensures LongestGap(loaded[..n], g) <= LongestGap(loaded, g)
    decreases |loaded| - n
  {
    if n == |loaded| {
      assert loaded[..n] == loaded;
    } else {
      TmpFlowNext(loaded, n);
      GapsGrow(loaded, n + 1, g);
    }
  }

  lemma GapIsCounted(loaded: seq<Descriptor>, p: nat, q: nat)
    requires p < q < |loaded| && loaded[p].flow_id == loaded[q].flow_id
    requires forall l :: p < l < q ==> loaded[l].flow_id != loaded[p].flow_id
    ensures Clock(loaded[..q]) - Clock(loaded[..p]) <= LongestGap(loaded, loaded[p].flow_id)
  {
    LastOfFlow(loaded, q, p);
    TmpFlowNext(loaded, q);
    GapsGrow(loaded, q + 1, loaded[p].flow_id);
  }

  /** A flow played as it was captured never ages out, nor when the network stretches its gaps to twice the
      longest plus four seconds, as long as the timeout need not be cut to 65000 seconds. */
  lemma CapturedGapsAreInTime(packets: seq<CapPacket>, loaded: seq<Descriptor>, f: SentFlow, p: nat, q: nat)
    requires Prepared(packets, loaded, f.template) && p < q < |loaded|
    requires loaded[p].flow_id == loaded[q].flow_id
    requires forall l :: p < l < q ==> loaded[l].flow_id != loaded[p].flow_id
    requires LongestGap(loaded, loaded[p].flow_id) <= 32497.5
    ensures var gap := Clock(loaded[..q]) - Clock(loaded[..p]);
            2.0 * gap + 4.0 <= AgingDelay(HeaderOf(f, f.template[p]))
  {
    hide Clock, LongestGap, PackedKey, Describes, FlowsOf, Count, Spaced;
    GapIsCounted(loaded, p, q);
    assert f.template[p] == Updated(loaded, p);
  }

  // ----- What is retired as complete

  /** Every packet that arrives was sent; the network may lose, delay, reorder and double. */
  ghost predicate OnlySent(flows: seq<SentFlow>, arrivals: seq<Arrival>) {
    forall j :: 0 <= j < |arrivals| ==> WasSent(flows, arrivals[j].h)
  }

  ghost predicate WasSent(flows: seq<SentFlow>, h: Header) {
    exists m :: 0 <= m < |Sent(flows)| && Sent(flows)[m].h == h
  }

  lemma SentBy(flows: seq<SentFlow>, h: Header) returns (a: nat, n: nat)
    requires WasSent(flows, h)
    ensures a < |flows| && n < |flows[a].template| && h == HeaderOf(flows[a], flows[a].template[n])
  {
    hide Sent, HeaderOf;
    var m :| 0 <= m < |Sent(flows)| && Sent(flows)[m].h == h;
    a, n := SentHeader(flows, m);
  }

  lemma {:induction false} SentHeader(flows: seq<SentFlow>, m: nat) returns (a: nat, n: nat)
    requires m < |Sent(flows)|
    ensures a < |flows| && n < |flows[a].template| && Sent(flows)[m].h == HeaderOf(flows[a], flows[a].template[n])
  {
    hide HeaderOf;
    var before := flows[..|flows| - 1];
    if m < |Sent(before)| {
      a, n := SentHeader(before, m);
    } else {
      a, n := |before|, m - |Sent(before)|;
    }
  }

  /** All packets under one key that two flows may have sent are of one flow, and of one sub-flow of it. */
  lemma {:induction false} HeaderOfSubFlow(flows: seq<SentFlow>, a: nat, n: nat, b: nat, loaded: seq<Descriptor>,
                                           k: uint64)
    requires DistinctFlows(flows) && a < |flows| && b < |flows| && n < |flows[a].template|
    requires HeaderOf(flows[a], flows[a].template[n]).m_flow_id == k && Owns(flows[b], k)
    requires WellPrepared(flows[b], loaded)
    ensures var h := HeaderOf(flows[a], flows[a].template[n]);
            && a == b
            && h.m_flow_size as int == StreamSize(loaded, k / FLOW_MODULUS % SUB_MODULUS, h.dir, flows[b].single_port)
  {
    hide PackedKey, StreamSize, IsUpdated, Updated, Owns, GloballyNumbered;
    OwnsItsKeys(flows[a], flows[a].template[n].flow_id);
    OneOwner(flows[a], flows[b], k);
    assert a == b;
    SameLength(loaded, flows[b].template);
    HeaderIsNumbered(loaded, flows[b], n);
    OwnsItsKeys(flows[b], loaded[n].flow_id);
  }

  lemma {:induction false} DirectionsAddUp(descriptors: seq<Descriptor>, f: nat, single_port: bool)
    ensures StreamSize(descriptors, f, 0, single_port) + StreamSize(descriptors, f, 1, single_port)
            == Total(descriptors, f)
  {
    if descriptors != [] {
      DirectionsAddUp(descriptors[..|descriptors| - 1], f, single_port);
    }
  }

  /** For this program's own traffic completion can always be trusted: whatever the network loses, delays and
      reorders, a flow that is retired as complete without duplicates came in order. */
  lemma {:induction false} SentFlowsRetireInOrder(flows: seq<SentFlow>, arrivals: seq<Arrival>, views: seq<View>,
                                                  i: nat)
    requires DistinctFlows(flows) && AllPrepared(flows) && OnlySent(flows, arrivals)
    requires IsRun(arrivals, views) && i < |arrivals|
    requires arrivals[i].h.Accepted()
    requires Receive(views[i].Lookup(arrivals[i].h.m_flow_id), arrivals[i].h).IsAllPktsSeen()
    ensures var received := History(arrivals, views, i, arrivals[i].h.m_flow_id) + [arrivals[i].h];
            AllAccepted(received) && (NoDuplicates(received) ==> ArrivedInOrder(received))
  {
    hide HeaderOf, Owns, WasSent, WellPrepared, DistinctFlows, StreamSize, IsRun, Receive, ArrivedInOrder, NoDuplicates,
      History, Flow.IsAllPktsSeen;
    var k := arrivals[i].h.m_flow_id;
    var b := OwnerOf(flows, arrivals, i);
    assert IsPrepared(flows[b]);
    var loaded :| WellPrepared(flows[b], loaded);
    var s0, s1 := SizesOf(flows[b], loaded, k / FLOW_MODULUS % SUB_MODULUS);
    forall j | 0 <= j < |arrivals| && arrivals[j].h.m_flow_id == k
      ensures arrivals[j].h.m_flow_size == if arrivals[j].h.dir == 0 then s0 else s1
    {
      var a, n := SentBy(flows, arrivals[j].h);
      HeaderOfSubFlow(flows, a, n, b, loaded, k);
    }
    SmallFlowsRetireInOrder(arrivals, views, i, s0, s1);
  }

  lemma OwnerOf(flows: seq<SentFlow>, arrivals: seq<Arrival>, i: nat) returns (b: nat)
    requires OnlySent(flows, arrivals) && i < |arrivals|
    ensures b < |flows| && Owns(flows[b], arrivals[i].h.m_flow_id)
  {
    hide Owns, PackedKey, WasSent;
    var n;
    b, n := SentBy(flows, arrivals[i].h);
    OwnsItsKeys(flows[b], flows[b].template[n].flow_id);
  }

  lemma SizesOf(f: SentFlow, loaded: seq<Descriptor>, g: nat) returns (s0: uint16, s1: uint16)
    requires WellPrepared(f, loaded)
    ensures s0 as int == StreamSize(loaded, g, 0, f.single_port) && s1 as int == StreamSize(loaded, g, 1, f.single_port)
    ensures s0 + s1 <= 0x1_0000
  {
    assert Total(loaded, g) < PKTS_LIMIT;
    DirectionsAddUp(loaded, g, f.single_port);
    s0, s1 := StreamSize(loaded, g, 0, f.single_port), StreamSize(loaded, g, 1, f.single_port);
  }

  // ----- End to end

  /** Generated traffic that arrives complete, in order per stream and in time is free of errors. */
  lemma SentTrafficRaisesNoAlarm(flows: seq<SentFlow>, arrivals: seq<Arrival>, views: seq<View>)
    requires DistinctFlows(flows) && AllPrepared(flows) && Delivered(Sent(flows), arrivals)
    requires InTime(arrivals) && IsRun(arrivals, views)
    ensures forall i :: 0 <= i <= |arrivals| ==> views[i].stats.TotalErr() == 0
    ensures var last := views[|arrivals|];
            && last.table == map[] && last.due == map[]
            && last.stats.m_add == last.stats.m_remove == |Keys(arrivals, |arrivals|)|
  {
    hide *;
    SentTrafficIsNumbered(flows, arrivals);
    NoFalseAlarms(arrivals, views);
  }
}
