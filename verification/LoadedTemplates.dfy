/** From a loaded capture to a template of the scheduler: what loading promises is what the scheduler relies on. */
module LoadedTemplates {
  import opened Basics
  import opened FlowNodes
  import opened PacketNumbering

  /** The gaps that a YAML file may set in place of short ones. */
  datatype MinIpg = MinIpg(min_ipg: real, override_ipg: real)

  /** What a YAML file adds to the packets of a capture: with cap_mode set, the captured gaps are played. */
  datatype Settings = Settings(
    cap_mode: bool, min_ipg: Option<MinIpg>, repeat: bool, restart_time: real, rtt_sec: real, ipg_sec: real,
    plugin_ports: bool, pool: nat)
  {
    predicate Sound() {
      && restart_time >= 0.0 && (repeat ==> restart_time > 0.0) && rtt_sec >= 0.0 && ipg_sec >= 0.0
      && (min_ipg.Some? ==> min_ipg.value.override_ipg >= 0.0)
    }

    /** fixup_ipg_if_needed */
    function Fixup(loaded: seq<Descriptor>): seq<Descriptor> {
      if cap_mode && min_ipg.Some? then FixedUp(loaded, min_ipg.value.min_ipg, min_ipg.value.override_ipg) else loaded
    }
  }

  /** The template as the scheduler reads it off the packet descriptors; whether it goes both ways is asked of its
      first packet.  Packets of one template may be TCP and UDP. */
  function TemplateOf(descriptors: seq<Descriptor>, is_tcp: seq<bool>, s: Settings): Template
    requires descriptors != [] && |is_tcp| == |descriptors|
  {
    Template(seq(|descriptors|, i requires 0 <= i < |descriptors| =>
                   Pkt(descriptors[i].init_side, is_tcp[i], descriptors[i].is_rtt, s.cap_mode, descriptors[i].cap_ipg)),
             descriptors[0].both_dir, s.repeat, s.restart_time, s.rtt_sec, s.ipg_sec, s.plugin_ports, s.pool)
  }

  lemma LoadedGap(packets: seq<CapPacket>, loaded: seq<Descriptor>, i: nat)
    requires TimesInOrder(packets) && |loaded| == |packets| && Spaced(packets, loaded) && i < |packets|
    ensures loaded[i].cap_ipg >= 0.0
  {
    var gap := if i == |packets| - 1 then 0.0 else packets[i + 1].time - packets[i].time;
    assert loaded[i].cap_ipg == gap;
    if i < |packets| - 1 {
      var next := i + 1;
      assert packets[next - 1].time <= packets[next].time;
    }
  }

  lemma FixedGap(packets: seq<CapPacket>, loaded: seq<Descriptor>, s: Settings, i: nat)
    requires TimesInOrder(packets) && IsTemplateOf(packets, loaded) && s.Sound() && i < |packets|
    ensures |s.Fixup(loaded)| == |packets| && s.Fixup(loaded)[i].cap_ipg >= 0.0
  {
    LoadedGap(packets, loaded, i);
  }

  /** Every capture that loads, has its gaps fixed up and is numbered gives a template the scheduler may run. */
  lemma LoadedTemplateIsLegal(packets: seq<CapPacket>, loaded: seq<Descriptor>, descriptors: seq<Descriptor>,
                              is_tcp: seq<bool>, s: Settings)
    requires packets != [] && TimesInOrder(packets) && IsTemplateOf(packets, loaded) && s.Sound()
    requires (forall f: nat :: Total(s.Fixup(loaded), f) < PKTS_LIMIT) && IsUpdated(s.Fixup(loaded), descriptors)
    requires |is_tcp| == |packets|
    ensures Prepared(packets, s.Fixup(loaded), descriptors)
    ensures TemplateOf(descriptors, is_tcp, s).Legal()
  {
    hide TimesInOrder, Describes, Spaced, Total, Updated;
    var fixed := s.Fixup(loaded);
    if fixed != loaded {
      FixedUpIsDescribed(packets, loaded, s.min_ipg.value.min_ipg, s.min_ipg.value.override_ipg);
    }
    var t := TemplateOf(descriptors, is_tcp, s);
    LearnTemplatesAnswer(packets, fixed, descriptors);
    forall i | 0 <= i < |t.pkts| ensures t.pkts[i].cap_ipg >= 0.0 {
      FixedGap(packets, loaded, s, i);
      SameGap(fixed, descriptors, i);
    }
    if t.bi_dir {
      var i :| 0 <= i < |descriptors| && !descriptors[i].init_side;
      assert !t.pkts[i].init_side;
    }
  }

  lemma SameGap(loaded: seq<Descriptor>, descriptors: seq<Descriptor>, i: nat)
    requires (forall f: nat :: Total(loaded, f) < PKTS_LIMIT) && IsUpdated(loaded, descriptors) && i < |loaded|
    ensures descriptors[i].cap_ipg == loaded[i].cap_ipg
  {
    hide Total;
    assert descriptors[i] == Updated(loaded, i);
  }

  /** The captured gap, or the one that replaces it. */
  function PlayedGap(s: Settings, gap: real): real {
    if s.min_ipg.Some? then FixedIpg(gap, s.min_ipg.value.min_ipg, s.min_ipg.value.override_ipg) else gap
  }

  /** From capture to wire: packet i + 1 leaves after the captured gap in cap_mode; otherwise after the round-trip time
      if the other side sends it, and after the time between packets if the same side does. */
  lemma {:induction false} LoadedPacketFollows(packets: seq<CapPacket>, loaded: seq<Descriptor>,
                                               descriptors: seq<Descriptor>, is_tcp: seq<bool>, s: Settings, i: nat,
                                               time: real, next: real)
    requires TimesInOrder(packets) && IsTemplateOf(packets, loaded) && i + 1 < |packets|
    requires (forall f: nat :: Total(s.Fixup(loaded), f) < PKTS_LIMIT) && IsUpdated(s.Fixup(loaded), descriptors)
    requires |is_tcp| == |packets|
    ensures |descriptors| == |packets|
    ensures var t := TemplateOf(descriptors, is_tcp, s);
            && t.pkts[i].init_side == (packets[i].is_swap == packets[0].is_swap)
            && (ComesNext(t, i, time, next) <==>
                  next == time + if s.cap_mode then PlayedGap(s, packets[i + 1].time - packets[i].time)
                                 else if packets[i].is_swap != packets[i + 1].is_swap then s.rtt_sec
                                 else s.ipg_sec)
  {
    hide TimesInOrder, Total, FixedIpg, FlowsOf, Count, LongestGap;
    var fixed := s.Fixup(loaded);
    assert descriptors[i] == Updated(fixed, i);
    assert Describes(packets, i, loaded[i]) && Describes(packets, i + 1, loaded[i + 1]);
  }
}
