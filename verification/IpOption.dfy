/** The options that travel in the IPv4 header: how they are put in front of the options already there, and how
    the receiver walks over them (section 3.1 of RFC 791). */
module IpOption {
  import opened RxFlow
  import opened Basics

  type byte = uint8

  const ETHERNET_LEN := 14
  const IP_DEFAULT_SIZE := 20
  const OPTIONS_AT := ETHERNET_LEN + IP_DEFAULT_SIZE
  const RX_CHECK_LEN := 24
  const NAT_OPTION_LEN := 8
  const RX_CHECK_V4_OPT_TYPE: byte := 0x57
  const NAT_IPV4_OPTION: byte := 0x10
  const NAT_MAGIC: byte := 0xEE
  const NAT_MAGIC_RX: byte := 0xED
  const TTL_RESERVE_DUPLICATE: byte := 0xFF
  const MAX_IP_HEADER := 60

  // ----- Numbers as bytes

  function Le(x: nat, n: nat): (r: seq<byte>)
    ensures |r| == n
  {
    if n == 0 then [] else [x % 0x100] + Le(x / 0x100, n - 1)
  }

  function FromLe(b: seq<byte>): nat {
    if b == [] then 0 else b[0] + 0x100 * FromLe(b[1..])
  }

  function Pow256(n: nat): nat {
    if n == 0 then 1 else 0x100 * Pow256(n - 1)
  }

  lemma {:induction false} LeRoundTrip(x: nat, n: nat)
    requires x < Pow256(n)
    ensures FromLe(Le(x, n)) == x
  {
    if n > 0 {
      assert Le(x, n)[1..] == Le(x / 0x100, n - 1);
      LeRoundTrip(x / 0x100, n - 1);
    }
  }

  // ----- The two options

  /** CRx_check_header as it lies in memory; bit 0 of the flags is the direction, bit 1 says that both are used. */
  function EncodeRx(h: Header, time_stamp: nat): (b: seq<byte>)
    ensures |b| == RX_CHECK_LEN
    ensures b[0] == RX_CHECK_V4_OPT_TYPE
  {
    [RX_CHECK_V4_OPT_TYPE, RX_CHECK_LEN] + Le(h.m_magic, 2) + Le(time_stamp, 4) + Le(h.m_flow_id, 8)
    + Le(h.m_pkt_id, 2) + Le(h.m_flow_size, 2)
    + [h.dir + (if h.both_dir then 2 else 0), h.m_template_id] + Le(h.m_aging_sec, 2)
  }

  function DecodeRx(b: seq<byte>): Header
    requires |b| == RX_CHECK_LEN
  {
    Header(FromLe(b[2..4]) % 0x1_0000, FromLe(b[8..16]) % 0x1_0000_0000_0000_0000, FromLe(b[16..18]) % 0x1_0000,
           FromLe(b[18..20]) % 0x1_0000, b[20] % 2, b[20] / 2 % 2 == 1, b[21], FromLe(b[22..24]) % 0x1_0000)
  }

  lemma Pow256Values()
    ensures Pow256(2) == 0x1_0000 && Pow256(4) == 0x1_0000_0000 && Pow256(8) == 0x1_0000_0000_0000_0000
  {
    assert Pow256(1) == 0x100 && Pow256(3) == 0x100_0000;
    assert Pow256(5) == 0x100_0000_0000 && Pow256(6) == 0x1_0000_0000_0000 && Pow256(7) == 0x100_0000_0000_0000;
  }

  /** The receiver reads back every field. */
  lemma RxRoundTrip(h: Header, time_stamp: nat)
    ensures DecodeRx(EncodeRx(h, time_stamp)) == h
  {
    hide Le, FromLe, Pow256;
    var b := EncodeRx(h, time_stamp);
    Pow256Values();
    LeRoundTrip(h.m_magic, 2);
    LeRoundTrip(h.m_flow_id, 8);
    LeRoundTrip(h.m_pkt_id, 2);
    LeRoundTrip(h.m_flow_size, 2);
    LeRoundTrip(h.m_aging_sec, 2);
    assert b[2..4] == Le(h.m_magic, 2) && b[8..16] == Le(h.m_flow_id, 8) && b[16..18] == Le(h.m_pkt_id, 2);
    assert b[18..20] == Le(h.m_flow_size, 2) && b[22..24] == Le(h.m_aging_sec, 2);
  }

  /** Two bytes, the low one first. */
  function Word(low: byte, high: byte): int {
    low as int + 0x100 * (high as int)
  }

  /** Where the fields lie, each with its low byte first. */
  lemma RxLayout(h: Header, time_stamp: nat)
    requires time_stamp < 0x1_0000_0000
    ensures var b := EncodeRx(h, time_stamp);
            && b[0] == 0x57 && b[1] == 24 && Word(b[2], b[3]) == h.m_magic
            && Word(b[4], b[5]) + 0x1_0000 * Word(b[6], b[7]) == time_stamp
            && Word(b[8], b[9]) + 0x1_0000 * Word(b[10], b[11])
               + 0x1_0000_0000 * (Word(b[12], b[13]) + 0x1_0000 * Word(b[14], b[15])) == h.m_flow_id
            && Word(b[16], b[17]) == h.m_pkt_id && Word(b[18], b[19]) == h.m_flow_size
            && b[20] == h.dir + (if h.both_dir then 2 else 0) && b[21] == h.m_template_id
            && Word(b[22], b[23]) == h.m_aging_sec
  {
    hide Le, Word;
    var b := EncodeRx(h, time_stamp);
    LowWord(h.m_magic, 2);
    LowDouble(time_stamp, 4);
    LowDouble(h.m_flow_id, 8);
    LowDouble(h.m_flow_id / 0x1_0000_0000, 4);
    LowWord(h.m_pkt_id, 2);
    LowWord(h.m_flow_size, 2);
    LowWord(h.m_aging_sec, 2);
    assert b[8..16] == Le(h.m_flow_id, 8);
    assert forall i :: 0 <= i < 8 ==> b[8 + i] == Le(h.m_flow_id, 8)[i];
  }

  lemma LowWord(x: nat, n: nat)
    requires n >= 2
    ensures Word(Le(x, n)[0], Le(x, n)[1]) == x % 0x1_0000 && Le(x, n)[2..] == Le(x / 0x1_0000, n - 2)
  {
    assert Le(x, n)[1..] == Le(x / 0x100, n - 1);
    assert Le(x / 0x100, n - 1)[1..] == Le(x / 0x100 / 0x100, n - 2);
    assert Le(x, n)[2..] == Le(x, n)[1..][1..];
    assert x / 0x100 / 0x100 == x / 0x1_0000;
    assert x % 0x1_0000 == x % 0x100 + 0x100 * (x / 0x100 % 0x100);
  }

  lemma LowDouble(x: nat, n: nat)
    requires n >= 4
    ensures var b := Le(x, n);
            && Word(b[0], b[1]) + 0x1_0000 * Word(b[2], b[3]) == x % 0x1_0000_0000
            && b[4..] == Le(x / 0x1_0000_0000, n - 4)
  {
    hide Le, Word;
    LowWord(x, n);
    LowWord(x / 0x1_0000, n - 2);
    var b := Le(x, n);
    assert b[2..][0] == b[2] && b[2..][1] == b[3] && b[2..][2..] == b[4..];
    assert x / 0x1_0000 / 0x1_0000 == x / 0x1_0000_0000;
    assert x % 0x1_0000_0000 == x % 0x1_0000 + 0x1_0000 * (x / 0x1_0000 % 0x1_0000);
  }

  datatype NatOption = NatOption(magic: byte, thread_id: byte, fid: nat)

  function EncodeNat(o: NatOption): (b: seq<byte>)
    ensures |b| == NAT_OPTION_LEN && b[0] == NAT_IPV4_OPTION
  {
    [NAT_IPV4_OPTION, NAT_OPTION_LEN, o.magic, o.thread_id] + Le(o.fid, 4)
  }

  function DecodeNat(b: seq<byte>): NatOption
    requires |b| == NAT_OPTION_LEN
  {
    NatOption(b[2], b[3], FromLe(b[4..8]))
  }

  predicate ValidIpv4Magic(b: seq<byte>)
    requires |b| == NAT_OPTION_LEN
  {
    b[0] == NAT_IPV4_OPTION && b[1] == NAT_OPTION_LEN && (b[2] == NAT_MAGIC || b[2] == NAT_MAGIC_RX)
  }

  lemma NatLayout(o: NatOption)
    requires o.fid < 0x1_0000_0000
    ensures var b := EncodeNat(o);
            && b[0] == 0x10 && b[1] == 8 && b[2] == o.magic && b[3] == o.thread_id
            && Word(b[4], b[5]) + 0x1_0000 * Word(b[6], b[7]) == o.fid
  {
    hide Le, Word;
    LowDouble(o.fid, 4);
  }

  lemma NatRoundTrip(o: NatOption)
    requires o.fid < 0x1_0000_0000 && (o.magic == NAT_MAGIC || o.magic == NAT_MAGIC_RX)
    ensures ValidIpv4Magic(EncodeNat(o)) && DecodeNat(EncodeNat(o)) == o
  {
    Pow256Values();
    LeRoundTrip(o.fid, 4);
    assert EncodeNat(o)[4..8] == Le(o.fid, 4);
  }

  // ----- The IPv4 packet

  /** Header length in bytes; the field counts words of four. */
  function HeaderLength(p: seq<byte>): nat
    requires |p| >= OPTIONS_AT
  {
    p[14] % 16 * 4
  }

  function TotalLength(p: seq<byte>): nat
    requires |p| >= OPTIONS_AT
  {
    p[16] as int * 0x100 + p[17] as int
  }

  ghost predicate WellFormed(p: seq<byte>) {
    && |p| >= OPTIONS_AT
    && IP_DEFAULT_SIZE <= HeaderLength(p) && ETHERNET_LEN + HeaderLength(p) <= |p|
  }

  function Options(p: seq<byte>): seq<byte>
    requires WellFormed(p)
  {
    p[OPTIONS_AT..ETHERNET_LEN + HeaderLength(p)]
  }

  /** Everything after the IPv4 header. */
  function Payload(p: seq<byte>): seq<byte>
    requires WellFormed(p)
  {
    p[ETHERNET_LEN + HeaderLength(p)..]
  }

  /** The fixed part of the header with `bytes` more of options; `checksum` is whatever the checksum update gives. */
  function Enlarged(fixed: seq<byte>, bytes: nat, checksum: (byte, byte)): (r: seq<byte>)
    requires |fixed| == OPTIONS_AT
    ensures |r| == OPTIONS_AT
  {
    var words := (fixed[14] % 16 + bytes / 4) % 16;
    var total := (fixed[16] * 0x100 + fixed[17] + bytes) % 0x1_0000;
    var counted := fixed[14 := fixed[14] / 16 * 16 + words];
    counted[16 := total / 0x100][17 := total % 0x100][24 := checksum.0][25 := checksum.1]
  }

  /** All else stays as it was. */
  lemma EnlargedKeeps(fixed: seq<byte>, bytes: nat, checksum: (byte, byte))
    requires |fixed| == OPTIONS_AT
    ensures var r := Enlarged(fixed, bytes, checksum);
            && r[24] == checksum.0 && r[25] == checksum.1 && r[14] / 16 == fixed[14] / 16
            && forall i :: 0 <= i < OPTIONS_AT && i !in {14, 16, 17, 24, 25} ==> r[i] == fixed[i]
  {
  }

  lemma EnlargedLength(fixed: seq<byte>, bytes: nat, checksum: (byte, byte))
    requires |fixed| == OPTIONS_AT && bytes % 4 == 0 && fixed[14] % 16 * 4 + bytes <= MAX_IP_HEADER
    ensures Enlarged(fixed, bytes, checksum)[14] % 16 * 4 == fixed[14] % 16 * 4 + bytes
    ensures Enlarged(fixed, bytes, checksum)[14] / 16 == fixed[14] / 16
  {
  }

  /** `opt` becomes the first option: the header counts it, and everything behind the fixed header moves back. */
  function WithOption(p: seq<byte>, opt: seq<byte>, checksum: (byte, byte)): seq<byte>
    requires |p| >= OPTIONS_AT
  {
    Enlarged(p[..OPTIONS_AT], |opt|, checksum) + opt + p[OPTIONS_AT..]
  }

  /** The packet gains one option and nothing else moves against anything else. */
  lemma OptionInserted(p: seq<byte>, opt: seq<byte>, checksum: (byte, byte))
    requires WellFormed(p) && |opt| % 4 == 0 && HeaderLength(p) + |opt| <= MAX_IP_HEADER
    ensures var q := WithOption(p, opt, checksum);
            && WellFormed(q)
            && HeaderLength(q) == HeaderLength(p) + |opt|
            && Options(q) == opt + Options(p)
            && Payload(q) == Payload(p)
            && (TotalLength(p) + |opt| < 0x1_0000 ==> TotalLength(q) == TotalLength(p) + |opt|)
  {
    hide Enlarged;
    var fixed := p[..OPTIONS_AT];
    EnlargedLength(fixed, |opt|, checksum);
    if TotalLength(p) + |opt| < 0x1_0000 {
      EnlargedTotal(fixed, |opt|, checksum);
    }
    var tail, n := p[OPTIONS_AT..], HeaderLength(p) - IP_DEFAULT_SIZE;
    assert Options(p) == tail[..n] && Payload(p) == tail[n..];
    Slices(Enlarged(fixed, |opt|, checksum), opt, tail, n);
  }

  lemma Slices(a: seq<byte>, b: seq<byte>, c: seq<byte>, n: nat)
    requires n <= |c|
    ensures (a + b + c)[..|a|] == a
    ensures (a + b + c)[|a|..|a| + |b| + n] == b + c[..n]
    ensures (a + b + c)[|a| + |b| + n..] == c[n..]
  {
  }

  lemma EnlargedTotal(fixed: seq<byte>, bytes: nat, checksum: (byte, byte))
    requires |fixed| == OPTIONS_AT && fixed[16] as int * 0x100 + fixed[17] as int + bytes < 0x1_0000
    ensures var r := Enlarged(fixed, bytes, checksum);
            r[16] as int * 0x100 + r[17] as int == fixed[16] as int * 0x100 + fixed[17] as int + bytes
  {
  }

  // ----- At load: only packets without options are let in

  /** What the parser has found in a captured packet. */
  datatype Indication = Indication(raw: seq<byte>, ether_offset: nat, ip_offset: nat, is_ipv6: bool, tcp_offset: nat) {
    /** The parser finds TCP or UDP right behind the IPv4 header. */
    ghost predicate Parsed() {
      !is_ipv6 && ip_offset == ETHERNET_LEN ==> WellFormed(raw) && tcp_offset == ETHERNET_LEN + HeaderLength(raw)
    }
  }

  datatype LoadError = Supported | EtherOffset | IpOffset | Ipv6Options | Ipv4Options | PluginWhileLearning

  function CheckOf(packet: Indication): LoadError {
    if packet.ether_offset != 0 then EtherOffset
    else if packet.ip_offset != 14 then IpOffset
    else if packet.is_ipv6 then (if packet.tcp_offset != 14 + 40 then Ipv6Options else Supported)
    else if packet.tcp_offset != 14 + 20 then Ipv4Options
    else Supported
  }

  ghost predicate AllSupported(packets: seq<Indication>, n: nat)
    requires n <= |packets|
  {
    forall i :: 0 <= i < n ==> CheckOf(packets[i]) == Supported
  }

  /** is_valid_template_load_time: the first packet that is not supported, or a plugin in learn mode, refuses the
      template. */
  method IsValidTemplateLoadTime(packets: seq<Indication>, is_plugin_enable: bool, learn_mode: bool)
    returns (err: LoadError)
    requires packets != []
    ensures err == Supported <==> AllSupported(packets, |packets|) && !(learn_mode && is_plugin_enable)
    ensures !AllSupported(packets, |packets|) ==>
              exists i :: 0 <= i < |packets| && AllSupported(packets, i) && err == CheckOf(packets[i])
    ensures err == PluginWhileLearning ==> AllSupported(packets, |packets|) && learn_mode && is_plugin_enable
  {
    for i := 0 to |packets|
      invariant AllSupported(packets, i)
    {
      if packets[i].ether_offset != 0 {
        return EtherOffset;
      }
      if packets[i].ip_offset != 14 {
        return IpOffset;
      }
      if packets[i].is_ipv6 {
        if packets[i].tcp_offset != 14 + 40 {
          return Ipv6Options;
        }
      } else {
        if packets[i].tcp_offset != 14 + 20 {
          return Ipv4Options;
        }
      }
    }
    if learn_mode && is_plugin_enable {
      return PluginWhileLearning;
    }
    err := Supported;
  }

  /** Whatever the packet, it is let in exactly if its headers lie at the usual places. */
  lemma SupportedIff(packet: Indication)
    ensures CheckOf(packet) == Supported <==>
              packet.ether_offset == 0 && packet.ip_offset == 14
              && packet.tcp_offset == (if packet.is_ipv6 then 54 else 34)
    ensures CheckOf(packet) == EtherOffset <==> packet.ether_offset != 0
    ensures CheckOf(packet) == IpOffset <==> packet.ether_offset == 0 && packet.ip_offset != 14
  {
  }

  /** An IPv4 packet that was let in has no options, and with all that is ever inserted, its header stays below
      the 60 bytes that four bits can count: the NAT option is never refused, and the rx-check option needs no
      test. */
  lemma LoadedPacketsHaveRoom(packets: seq<Indication>, i: nat)
    requires i < |packets| && packets[i].Parsed() && !packets[i].is_ipv6 && AllSupported(packets, |packets|)
    ensures WellFormed(packets[i].raw) && Options(packets[i].raw) == []
    ensures HeaderLength(packets[i].raw) + NAT_OPTION_LEN + RX_CHECK_LEN <= MAX_IP_HEADER
  {
    assert CheckOf(packets[i]) == Supported;
  }

  // ----- At load: the NAT option is pushed into the captured packet, in place

  /** memmove to a higher address, last byte first. */
  method OpenGap(raw: array<byte>, at: nat, len: nat, bytes: nat)
    requires at <= len && len + bytes <= raw.Length
    modifies raw
    ensures raw[..at] == old(raw[..at])
    ensures raw[at + bytes..len + bytes] == old(raw[at..len])
    ensures raw[len + bytes..] == old(raw[len + bytes..])
  {
    var i := len;
    while i > at
      invariant at <= i <= len
      invariant raw[..i] == old(raw[..i])
      invariant raw[i + bytes..len + bytes] == old(raw[i..len])
      invariant raw[len + bytes..] == old(raw[len + bytes..])
    {
      i := i - 1;
      ghost var moved := raw[i + 1 + bytes..len + bytes];
      raw[i + bytes] := raw[i];
      assert raw[i + bytes..len + bytes] == [raw[i + bytes]] + moved;
      assert old(raw[i..len]) == [old(raw[i])] + old(raw[i + 1..len]);
    }
  }

  /** push_ipv4_option_offline and what mask_as_learn puts into the gap; a header that would grow beyond 60 bytes
      is refused and the packet left alone. */
  method PushIpv4Option(raw: array<byte>, pkt_len: nat, opt: seq<byte>, checksum: (byte, byte)) returns (ok: bool)
    requires |opt| % 4 == 0 && OPTIONS_AT <= pkt_len && pkt_len + |opt| <= raw.Length
    modifies raw
    ensures ok <==> old(HeaderLength(raw[..])) + |opt| <= MAX_IP_HEADER
    ensures ok ==> raw[..pkt_len + |opt|] == WithOption(old(raw[..pkt_len]), opt, checksum)
    ensures !ok ==> raw[..] == old(raw[..])
  {
    hide Enlarged;
    if raw[14] % 16 * 4 + |opt| > MAX_IP_HEADER {
      return false;
    }
    ghost var p := raw[..pkt_len];
    OpenGap(raw, OPTIONS_AT, pkt_len, |opt|);
    ghost var moved := raw[OPTIONS_AT + |opt|..pkt_len + |opt|];
    assert moved == p[OPTIONS_AT..];
    assert raw[..OPTIONS_AT] == p[..OPTIONS_AT];
    var fixed := Enlarged(raw[..OPTIONS_AT], |opt|, checksum);
    Write(raw, OPTIONS_AT, opt);
    assert raw[OPTIONS_AT + |opt|..pkt_len + |opt|] == moved;
    assert raw[OPTIONS_AT..OPTIONS_AT + |opt|] == opt;
    Write(raw, 0, fixed);
    assert raw[..pkt_len + |opt|]
      == raw[..OPTIONS_AT] + raw[OPTIONS_AT..OPTIONS_AT + |opt|] + raw[OPTIONS_AT + |opt|..pkt_len + |opt|];
    ok := true;
  }

  method Write(raw: array<byte>, at: nat, bytes: seq<byte>)
    requires at + |bytes| <= raw.Length
    modifies raw
    ensures raw[at..at + |bytes|] == bytes
    ensures raw[..at] == old(raw[..at]) && raw[at + |bytes|..] == old(raw[at + |bytes|..])
    ensures forall i, j :: at + |bytes| <= i <= j <= raw.Length ==> raw[i..j] == old(raw[i..j])
  {
    for i := 0 to |bytes|
      invariant raw[at..at + i] == bytes[..i]
      invariant raw[..at] == old(raw[..at])
      invariant forall k :: at + i <= k < raw.Length ==> raw[k] == old(raw[k])
    {
      raw[at + i] := bytes[i];
    }
  }

  // ----- At transmission: the rx-check option goes into a new buffer behind the fixed header

  class Mbuf {
    var data: seq<byte>
    var next: Mbuf?

    constructor (data: seq<byte>, next: Mbuf?)
      ensures this.data == data && this.next == next
    {
      this.data, this.next := data, next;
    }
  }

  function WithTtl(fixed: seq<byte>, ttl: byte): seq<byte>
    requires |fixed| == OPTIONS_AT
  {
    fixed[22 := ttl]
  }

  /** do_generate_new_mbuf_rxcheck */
  method InsertRxCheck(m: Mbuf, rxhdr: seq<byte>, checksum: (byte, byte))
    requires |m.data| >= OPTIONS_AT && |rxhdr| == RX_CHECK_LEN
    modifies m
    ensures m.data == Enlarged(WithTtl(old(m.data)[..OPTIONS_AT], TTL_RESERVE_DUPLICATE), RX_CHECK_LEN, checksum)
    ensures m.next != null && fresh(m.next)
    ensures m.next.data == rxhdr + old(m.data)[OPTIONS_AT..] && m.next.next == old(m.next)
  {
    var new_mbuf := new Mbuf(rxhdr + m.data[OPTIONS_AT..], m.next);
    var fixed := m.data[..OPTIONS_AT];
    m.data := Enlarged(WithTtl(fixed, TTL_RESERVE_DUPLICATE), RX_CHECK_LEN, checksum);
    m.next := new_mbuf;
  }

  /** The chain with the new buffer holds the packet with the new option, whatever buffers follow. */
  lemma ChainHoldsOption(first: seq<byte>, rest: seq<seq<byte>>, rxhdr: seq<byte>, checksum: (byte, byte))
    requires |first| >= OPTIONS_AT && |rxhdr| == RX_CHECK_LEN
    ensures var marked := WithTtl(first[..OPTIONS_AT], TTL_RESERVE_DUPLICATE);
            Flatten([Enlarged(marked, RX_CHECK_LEN, checksum), rxhdr + first[OPTIONS_AT..]] + rest)
            == WithOption(marked + first[OPTIONS_AT..] + Flatten(rest), rxhdr, checksum)
  {
    hide Enlarged;
    var marked := WithTtl(first[..OPTIONS_AT], TTL_RESERVE_DUPLICATE);
    var a, b := Enlarged(marked, RX_CHECK_LEN, checksum), rxhdr + first[OPTIONS_AT..];
    assert ([a, b] + rest)[1..] == [b] + rest && ([b] + rest)[1..] == rest;
    var p := marked + first[OPTIONS_AT..] + Flatten(rest);
    assert p[..OPTIONS_AT] == marked && p[OPTIONS_AT..] == first[OPTIONS_AT..] + Flatten(rest);
  }

  // ----- The receiver's walk

  datatype Item = RxItem(header: seq<byte>) | NatItem(option: seq<byte>) {
    predicate Legal() {
      match this
      case RxItem(b) => |b| == RX_CHECK_LEN && b[0] == RX_CHECK_V4_OPT_TYPE
      case NatItem(b) => |b| == NAT_OPTION_LEN && ValidIpv4Magic(b)
    }

    function Bytes(): seq<byte> {
      match this case RxItem(b) => b case NatItem(b) => b
    }
  }

  function Bytes(items: seq<Item>): seq<byte> {
    if items == [] then [] else Bytes(items[..|items| - 1]) + items[|items| - 1].Bytes()
  }

  predicate AllLegal(items: seq<Item>) {
    forall i :: 0 <= i < |items| ==> items[i].Legal()
  }

  ghost predicate Enabled(items: seq<Item>, rx_check_mode: bool, learn_mode: bool) {
    forall i :: 0 <= i < |items| ==> if items[i].RxItem? then rx_check_mode else learn_mode
  }

  /** The items are the first part of the options, and what comes next is no item. */
  ghost predicate StoppedAt(options: seq<byte>, items: seq<Item>, rx_check_mode: bool, learn_mode: bool) {
    && AllLegal(items) && Enabled(items, rx_check_mode, learn_mode)
    && Bytes(items) <= options && Bytes(items) != options
    && forall next: Item :: next.Legal() && (if next.RxItem? then rx_check_mode else learn_mode) ==>
         !(Bytes(items) + next.Bytes() <= options)
  }

  /** What a walk must give: it accepts exactly if the options are a row of known items, and the items up to the
      end or to the first thing that is none. */
  ghost predicate IsWalk(options: seq<byte>, ok: bool, items: seq<Item>, rx_check_mode: bool, learn_mode: bool) {
    if ok then AllLegal(items) && Enabled(items, rx_check_mode, learn_mode) && Bytes(items) == options
    else StoppedAt(options, items, rx_check_mode, learn_mode)
  }

  /** The last rx-check header of a row; it is the one that goes to the checker, whether or not the walk is
      refused behind it. */
  function LastRx(items: seq<Item>): Option<seq<byte>> {
    if items == [] then None
    else
      var last := items[|items| - 1];
      if last.RxItem? then Some(last.header) else LastRx(items[..|items| - 1])
  }

  /** getOptionLen: 8 bits wide, so that a header length below 20 gives some 240. */
  function WalkLength(p: seq<byte>): (n: nat)
    requires |p| >= OPTIONS_AT
    ensures HeaderLength(p) >= IP_DEFAULT_SIZE ==> n == HeaderLength(p) - IP_DEFAULT_SIZE
  {
    (HeaderLength(p) - IP_DEFAULT_SIZE) % 0x100
  }

  function WalkRegion(p: seq<byte>): (options: seq<byte>)
    requires |p| >= OPTIONS_AT && |p| >= OPTIONS_AT + WalkLength(p)
    ensures WellFormed(p) ==> options == Options(p)
  {
    p[OPTIONS_AT..OPTIONS_AT + WalkLength(p)]
  }

  /** The first `at` bytes of the options are these items. */
  ghost predicate WalkedTo(options: seq<byte>, at: nat, items: seq<Item>, rx_check_mode: bool, learn_mode: bool) {
    AllLegal(items) && Enabled(items, rx_check_mode, learn_mode) && at <= |options| && Bytes(items) == options[..at]
  }

  /** The walk over the options in check_packet. */
  method WalkOptions(p: seq<byte>, rx_check_mode: bool, learn_mode: bool)
    returns (ok: bool, items: seq<Item>, rx_p: Option<seq<byte>>)
    requires |p| >= OPTIONS_AT && |p| >= OPTIONS_AT + WalkLength(p)
    ensures IsWalk(WalkRegion(p), ok, items, rx_check_mode, learn_mode)
    ensures rx_p == LastRx(items)
  {
    hide Bytes, ValidIpv4Magic, WalkLength, WalkedTo, IsWalk, LastRx;
    rx_p := None;
    var opt_len := WalkLength(p);
    var opt_ptr := OPTIONS_AT;
    ghost var options := WalkRegion(p);
    items := [];
    WalkStarts(options, rx_check_mode, learn_mode);
    while opt_len != 0
      invariant 0 <= opt_len && opt_ptr + opt_len == OPTIONS_AT + WalkLength(p) && OPTIONS_AT <= opt_ptr
      invariant rx_p == LastRx(items)
      invariant WalkedTo(options, opt_ptr - OPTIONS_AT, items, rx_check_mode, learn_mode)
      decreases opt_len
    {
      ghost var at := opt_ptr - OPTIONS_AT;
      assert options[at] == p[opt_ptr];
      if p[opt_ptr] == RX_CHECK_V4_OPT_TYPE {
        if !rx_check_mode || opt_len < RX_CHECK_LEN {
          Blocked(options, at, items, rx_check_mode, learn_mode);
          return false, items, rx_p;
        }
        SliceOf(p, at, RX_CHECK_LEN);
        NextItem(options, at, items, RxItem(p[opt_ptr..opt_ptr + RX_CHECK_LEN]), rx_check_mode, learn_mode);
        rx_p := Some(p[opt_ptr..opt_ptr + RX_CHECK_LEN]);
        items := items + [RxItem(p[opt_ptr..opt_ptr + RX_CHECK_LEN])];
        opt_len := opt_len - RX_CHECK_LEN;
        opt_ptr := opt_ptr + RX_CHECK_LEN;
      } else if p[opt_ptr] == NAT_IPV4_OPTION {
        if !learn_mode || opt_len < NAT_OPTION_LEN {
          Blocked(options, at, items, rx_check_mode, learn_mode);
          return false, items, rx_p;
        }
        SliceOf(p, at, NAT_OPTION_LEN);
        if !ValidIpv4Magic(p[opt_ptr..opt_ptr + NAT_OPTION_LEN]) {
          Blocked(options, at, items, rx_check_mode, learn_mode);
          return false, items, rx_p;
        }
        NextItem(options, at, items, NatItem(p[opt_ptr..opt_ptr + NAT_OPTION_LEN]), rx_check_mode, learn_mode);
        items := items + [NatItem(p[opt_ptr..opt_ptr + NAT_OPTION_LEN])];
        opt_len := opt_len - NAT_OPTION_LEN;
        opt_ptr := opt_ptr + NAT_OPTION_LEN;
      } else {
        Blocked(options, at, items, rx_check_mode, learn_mode);
        return false, items, rx_p;
      }
    }
    WalkEnds(options, items, rx_check_mode, learn_mode);
    ok := true;
  }

  lemma WalkStarts(options: seq<byte>, rx_check_mode: bool, learn_mode: bool)
    ensures WalkedTo(options, 0, [], rx_check_mode, learn_mode) && LastRx([]) == None
  {
  }

  lemma WalkEnds(options: seq<byte>, items: seq<Item>, rx_check_mode: bool, learn_mode: bool)
    requires WalkedTo(options, |options|, items, rx_check_mode, learn_mode)
    ensures IsWalk(options, true, items, rx_check_mode, learn_mode)
  {
    assert options[..|options|] == options;
  }

  lemma SliceOf(p: seq<byte>, at: nat, n: nat)
    requires |p| >= OPTIONS_AT && |p| >= OPTIONS_AT + WalkLength(p) && at + n <= WalkLength(p)
    ensures WalkRegion(p)[at..at + n] == p[OPTIONS_AT + at..OPTIONS_AT + at + n]
    ensures WalkRegion(p)[at..][..n] == p[OPTIONS_AT + at..OPTIONS_AT + at + n]
  {
    hide WalkLength;
    var slice := p[OPTIONS_AT + at..OPTIONS_AT + at + n];
    forall i | 0 <= i < n ensures WalkRegion(p)[at..at + n][i] == slice[i] && WalkRegion(p)[at..][..n][i] == slice[i] {
      assert WalkRegion(p)[at + i] == p[OPTIONS_AT + at + i];
    }
  }

  lemma NoBytes()
    ensures Bytes([]) == []
  {
  }

  lemma NextItem(options: seq<byte>, at: nat, items: seq<Item>, item: Item, rx_check_mode: bool, learn_mode: bool)
    requires WalkedTo(options, at, items, rx_check_mode, learn_mode)
    requires item.Legal() && (if item.RxItem? then rx_check_mode else learn_mode)
    requires at + |item.Bytes()| <= |options| && item.Bytes() == options[at..at + |item.Bytes()|]
    ensures WalkedTo(options, at + |item.Bytes()|, items + [item], rx_check_mode, learn_mode)
    ensures LastRx(items + [item]) == if item.RxItem? then Some(item.header) else LastRx(items)
  {
    assert (items + [item])[..|items|] == items;
  }

  /** No item starts with what comes next. */
  ghost predicate NoItemHere(next: seq<byte>, rx_check_mode: bool, learn_mode: bool)
    requires next != []
  {
    && (next[0] == RX_CHECK_V4_OPT_TYPE && rx_check_mode ==> |next| < RX_CHECK_LEN)
    && (next[0] == NAT_IPV4_OPTION && learn_mode ==> |next| < NAT_OPTION_LEN || !ValidIpv4Magic(next[..NAT_OPTION_LEN]))
  }

  lemma Blocked(options: seq<byte>, at: nat, items: seq<Item>, rx_check_mode: bool, learn_mode: bool)
    requires WalkedTo(options, at, items, rx_check_mode, learn_mode) && at < |options|
    requires NoItemHere(options[at..], rx_check_mode, learn_mode)
    ensures IsWalk(options, false, items, rx_check_mode, learn_mode)
  {
    forall next: Item | next.Legal() && (if next.RxItem? then rx_check_mode else learn_mode)
      ensures !(Bytes(items) + next.Bytes() <= options)
    {
      if Bytes(items) + next.Bytes() <= options {
        Follows(options, Bytes(items), next.Bytes());
        assert false;
      }
    }
  }

  lemma Follows(options: seq<byte>, head: seq<byte>, b: seq<byte>)
    requires head + b <= options && b != []
    ensures |head| + |b| <= |options| && options[|head|..][0] == b[0] && options[|head|..][..|b|] == b
  {
    assert options[..|head| + |b|] == head + b;
    assert options[|head|..][..|b|] == options[..|head| + |b|][|head|..];
  }

  lemma {:induction false} SameItems(a: seq<Item>, b: seq<Item>)
    requires AllLegal(a) && AllLegal(b) && Bytes(a) <= Bytes(b)
    ensures a <= b
    decreases |a|
  {
    if a != [] {
      hide Bytes, Item.Legal;
      var before := a[..|a| - 1];
      NextBytes(a, |before|);
      TakeAll(a);
      assert Bytes(before) + a[|before|].Bytes() <= Bytes(b);
      FirstByte(a[|before|]);
      SameItems(before, b);
      TakeAll(b);
      assert b[..|before|] == before;
      if |before| == |b| {
        assert false;
      } else {
        NextIsSame(before, a[|before|], b);
      }
    }
  }

  lemma TakeAll(b: seq<Item>)
    ensures b[..|b|] == b
  {
  }

  /** The next item fits. */
  lemma NextBytes(b: seq<Item>, n: nat)
    requires n < |b|
    ensures Bytes(b[..n]) + b[n].Bytes() <= Bytes(b)
  {
    assert b[..n + 1][..n] == b[..n];
    PrefixBytes(b, n + 1);
  }

  lemma {:induction false} PrefixBytes(b: seq<Item>, n: nat)
    requires n <= |b|
    ensures Bytes(b[..n]) <= Bytes(b)
  {
    if n == |b| {
      assert b[..n] == b;
    } else {
      assert b[..|b| - 1][..n] == b[..n];
      PrefixBytes(b[..|b| - 1], n);
    }
  }

  lemma NextIsSame(before: seq<Item>, item: Item, b: seq<Item>)
    requires AllLegal(b) && item.Legal() && |before| < |b| && before == b[..|before|]
    requires Bytes(before) + item.Bytes() <= Bytes(b)
    ensures b[|before|] == item
  {
    hide Bytes, Item.Legal;
    NextBytes(b, |before|);
    OneItemFits(Bytes(before), item, b[|before|], Bytes(b));
  }

  /** At one place, only one item fits. */
  lemma OneItemFits(head: seq<byte>, x: Item, y: Item, all: seq<byte>)
    requires x.Legal() && y.Legal() && head + x.Bytes() <= all && head + y.Bytes() <= all
    ensures x == y
  {
    hide ValidIpv4Magic;
    BytesAt(head, x.Bytes(), all);
    BytesAt(head, y.Bytes(), all);
    FirstByte(x);
    FirstByte(y);
    assert x.Bytes()[0] == all[|head|] == y.Bytes()[0];
  }

  lemma FirstByte(x: Item)
    requires x.Legal()
    ensures x.Bytes() != [] && x.Bytes()[0] == (if x.RxItem? then RX_CHECK_V4_OPT_TYPE else NAT_IPV4_OPTION)
    ensures |x.Bytes()| == (if x.RxItem? then RX_CHECK_LEN else NAT_OPTION_LEN)
  {
  }

  lemma BytesAt(head: seq<byte>, b: seq<byte>, all: seq<byte>)
    requires head + b <= all
    ensures |head| + |b| <= |all| && all[|head|..|head| + |b|] == b
    ensures b != [] ==> all[|head|] == b[0]
  {
    assert all[..|head| + |b|][|head|..] == b;
  }

  /** There is only one walk over given options. */
  lemma WalkIsUnique(options: seq<byte>, ok: bool, items: seq<Item>, ok': bool, items': seq<Item>,
                     rx_check_mode: bool, learn_mode: bool)
    requires IsWalk(options, ok, items, rx_check_mode, learn_mode)
             && IsWalk(options, ok', items', rx_check_mode, learn_mode)
    ensures ok == ok' && items == items'
  {
    hide Bytes;
    if |Bytes(items)| <= |Bytes(items')| {
      ShorterWalkIsSame(options, ok, items, ok', items', rx_check_mode, learn_mode);
    } else {
      ShorterWalkIsSame(options, ok', items', ok, items, rx_check_mode, learn_mode);
    }
  }

  lemma ShorterWalkIsSame(options: seq<byte>, ok: bool, items: seq<Item>, ok': bool, items': seq<Item>,
                          rx_check_mode: bool, learn_mode: bool)
    requires IsWalk(options, ok, items, rx_check_mode, learn_mode)
             && IsWalk(options, ok', items', rx_check_mode, learn_mode)
    requires |Bytes(items)| <= |Bytes(items')|
    ensures ok == ok' && items == items'
  {
    hide Bytes, Item.Legal, Item.Bytes;
    assert Bytes(items) == options[..|Bytes(items)|] && Bytes(items') == options[..|Bytes(items')|];
    assert Bytes(items) <= Bytes(items');
    SameItems(items, items');
    var n := |items|;
    assert items == items'[..n];
    if n < |items'| {
      NextBytes(items', n);
      NotFollowed(options, ok, items, items'[n], rx_check_mode, learn_mode);
      assert false;
    } else {
      assert items'[..n] == items';
    }
  }

  lemma NotFollowed(options: seq<byte>, ok: bool, items: seq<Item>, next: Item, rx_check_mode: bool, learn_mode: bool)
    requires IsWalk(options, ok, items, rx_check_mode, learn_mode)
    requires next.Legal() && (if next.RxItem? then rx_check_mode else learn_mode)
    ensures !(Bytes(items) + next.Bytes() <= options)
  {
    assert |next.Bytes()| > 0;
  }

  lemma LegalConcat(a: seq<Item>, b: seq<Item>, rx_check_mode: bool, learn_mode: bool)
    requires AllLegal(a) && Enabled(a, rx_check_mode, learn_mode)
    requires AllLegal(b) && Enabled(b, rx_check_mode, learn_mode)
    ensures AllLegal(a + b) && Enabled(a + b, rx_check_mode, learn_mode)
  {
  }

  lemma {:induction false} BytesConcat(a: seq<Item>, b: seq<Item>)
    ensures Bytes(a + b) == Bytes(a) + Bytes(b)
  {
    if b == [] {
      assert a + b == a;
    } else {
      assert (a + b)[..|a + b| - 1] == a + b[..|b| - 1];
      BytesConcat(a, b[..|b| - 1]);
    }
  }

  /** In front of other options, known items are recovered, and the walk goes on as if they had not been there. */
  lemma WalkBehind(sent: seq<Item>, options: seq<byte>, ok: bool, items: seq<Item>, rx_check_mode: bool,
                   learn_mode: bool)
    requires AllLegal(sent) && Enabled(sent, rx_check_mode, learn_mode)
    requires IsWalk(options, ok, items, rx_check_mode, learn_mode)
    ensures IsWalk(Bytes(sent) + options, ok, sent + items, rx_check_mode, learn_mode)
  {
    hide Bytes, Item.Legal, Item.Bytes, StoppedAt;
    BytesConcat(sent, items);
    if ok {
      LegalConcat(sent, items, rx_check_mode, learn_mode);
    } else {
      StoppedBehind(sent, options, items, rx_check_mode, learn_mode);
    }
  }

  lemma StoppedBehind(sent: seq<Item>, options: seq<byte>, items: seq<Item>, rx_check_mode: bool, learn_mode: bool)
    requires AllLegal(sent) && Enabled(sent, rx_check_mode, learn_mode)
    requires StoppedAt(options, items, rx_check_mode, learn_mode)
    ensures StoppedAt(Bytes(sent) + options, sent + items, rx_check_mode, learn_mode)
  {
    hide Bytes, Item.Legal, Item.Bytes, AllLegal, Enabled;
    BytesConcat(sent, items);
    LegalConcat(sent, items, rx_check_mode, learn_mode);
    SamePrefix(Bytes(sent), Bytes(items), options);
    forall next: Item | next.Legal() && (if next.RxItem? then rx_check_mode else learn_mode)
      ensures !(Bytes(sent + items) + next.Bytes() <= Bytes(sent) + options)
    {
      BehindPrefix(Bytes(sent), Bytes(items), next.Bytes(), options);
    }
  }

  lemma BehindPrefix(head: seq<byte>, a: seq<byte>, next: seq<byte>, b: seq<byte>)
    ensures head + a + next <= head + b <==> a + next <= b
  {
    assert head + a + next == head + (a + next);
    SamePrefix(head, a + next, b);
  }

  lemma SamePrefix(head: seq<byte>, a: seq<byte>, b: seq<byte>)
    ensures head + a <= head + b <==> a <= b
    ensures head + a == head + b <==> a == b
  {
    assert (head + a)[|head|..] == a && (head + b)[|head|..] == b;
    if head + a <= head + b {
      assert a == (head + b)[..|head + a|][|head|..];
    }
  }

  /** Whatever row of items was sent in a header, the receiver recovers just these items. */
  lemma WalkRecovers(sent: seq<Item>, items: seq<Item>, ok: bool, rx_check_mode: bool, learn_mode: bool)
    requires AllLegal(sent) && Enabled(sent, rx_check_mode, learn_mode)
    requires IsWalk(Bytes(sent), ok, items, rx_check_mode, learn_mode)
    ensures ok && items == sent
  {
    WalkIsUnique(Bytes(sent), ok, items, true, sent, rx_check_mode, learn_mode);
  }

  // ----- Both ends

  function Inserted(learn: seq<NatOption>, h: Header, time_stamp: nat): (items: seq<Item>)
    requires |learn| <= 1
  {
    [RxItem(EncodeRx(h, time_stamp))] + (if learn == [] then [] else [NatItem(EncodeNat(learn[0]))])
  }

  predicate Learns(learn: seq<NatOption>) {
    |learn| <= 1 && (learn != [] ==> learn[0].magic == NAT_MAGIC || learn[0].magic == NAT_MAGIC_RX)
  }

  lemma InsertedBytes(learn: seq<NatOption>, h: Header, time_stamp: nat)
    requires Learns(learn)
    ensures var items := Inserted(learn, h, time_stamp);
            && AllLegal(items) && LastRx(items) == Some(EncodeRx(h, time_stamp))
            && Bytes(items) == EncodeRx(h, time_stamp) + (if learn == [] then [] else EncodeNat(learn[0]))
            && |Bytes(items)| == RX_CHECK_LEN + NAT_OPTION_LEN * |learn|
  {
    hide EncodeRx, EncodeNat;
    var rx := RxItem(EncodeRx(h, time_stamp));
    assert [rx][..0] == [];
    assert Bytes([rx]) == rx.Bytes();
    if learn != [] {
      NatOptionIsLegal(learn[0]);
      assert [rx, NatItem(EncodeNat(learn[0]))][..1] == [rx];
    }
  }

  lemma NatOptionIsLegal(o: NatOption)
    requires o.magic == NAT_MAGIC || o.magic == NAT_MAGIC_RX
    ensures NatItem(EncodeNat(o)).Legal()
  {
  }

  /** The packet of a template as it is after load, with or without the NAT option. */
  function Loaded(p: seq<byte>, learn: seq<NatOption>, c0: (byte, byte)): seq<byte>
    requires |p| >= OPTIONS_AT
  {
    if learn == [] then p else WithOption(p, EncodeNat(learn[0]), c0)
  }

  /** The packet on the wire. */
  function OnTheWire(p: seq<byte>, learn: seq<NatOption>, h: Header, time_stamp: nat, c0: (byte, byte),
                     c1: (byte, byte)): seq<byte>
    requires |p| >= OPTIONS_AT
  {
    var loaded := Loaded(p, learn, c0);
    var marked := WithTtl(loaded[..OPTIONS_AT], TTL_RESERVE_DUPLICATE) + loaded[OPTIONS_AT..];
    WithOption(marked, EncodeRx(h, time_stamp), c1)
  }

  /** The header length field has four bits. */
  lemma WireHeaderLength(p: seq<byte>, learn: seq<NatOption>, h: Header, time_stamp: nat, c0: (byte, byte),
                         c1: (byte, byte))
    requires WellFormed(p) && |learn| <= 1
    ensures |OnTheWire(p, learn, h, time_stamp, c0, c1)| == |p| + RX_CHECK_LEN + NAT_OPTION_LEN * |learn|
    ensures HeaderLength(OnTheWire(p, learn, h, time_stamp, c0, c1))
            == (HeaderLength(p) + RX_CHECK_LEN + NAT_OPTION_LEN * |learn|) % 64
  {
    hide Enlarged, EncodeRx, EncodeNat;
    EnlargedWraps(p[..OPTIONS_AT], NAT_OPTION_LEN, c0);
    var loaded := Loaded(p, learn, c0);
    assert learn != [] ==> loaded[14] == Enlarged(p[..OPTIONS_AT], NAT_OPTION_LEN, c0)[14];
    var marked := WithTtl(loaded[..OPTIONS_AT], TTL_RESERVE_DUPLICATE);
    EnlargedWraps(marked, RX_CHECK_LEN, c1);
    assert (marked + loaded[OPTIONS_AT..])[..OPTIONS_AT] == marked;
    assert OnTheWire(p, learn, h, time_stamp, c0, c1)[14] == Enlarged(marked, RX_CHECK_LEN, c1)[14];
  }

  lemma EnlargedWraps(fixed: seq<byte>, bytes: nat, checksum: (byte, byte))
    requires |fixed| == OPTIONS_AT && bytes % 4 == 0
    ensures Enlarged(fixed, bytes, checksum)[14] % 16 * 4 == (fixed[14] % 16 * 4 + bytes) % 64
  {
    hide Enlarged;
    EnlargedWords(fixed, bytes, checksum);
    WordsWrap(fixed[14] % 16, bytes / 4);
  }

  lemma EnlargedWords(fixed: seq<byte>, bytes: nat, checksum: (byte, byte))
    requires |fixed| == OPTIONS_AT
    ensures Enlarged(fixed, bytes, checksum)[14] % 16 == (fixed[14] % 16 + bytes / 4) % 16
  {
    var words := (fixed[14] % 16 + bytes / 4) % 16;
    assert Enlarged(fixed, bytes, checksum)[14] == fixed[14] / 16 * 16 + words;
  }

  lemma WordsWrap(words: nat, more: nat)
    ensures (words + more) % 16 * 4 == (words * 4 + more * 4) % 64
  {
    var q := (words + more) / 16;
    assert words * 4 + more * 4 == 64 * q + (words + more) % 16 * 4;
  }

  /** With room in the header, the wire carries the rx-check option first, the NAT option next if there is one,
      then the options of the captured packet, and the payload untouched. */
  lemma OptionsArrive(p: seq<byte>, learn: seq<NatOption>, h: Header, time_stamp: nat, c0: (byte, byte),
                      c1: (byte, byte))
    requires WellFormed(p) && Learns(learn)
    requires HeaderLength(p) + RX_CHECK_LEN + NAT_OPTION_LEN * |learn| <= MAX_IP_HEADER
    ensures var q := OnTheWire(p, learn, h, time_stamp, c0, c1);
            && WellFormed(q)
            && HeaderLength(q) == HeaderLength(p) + RX_CHECK_LEN + NAT_OPTION_LEN * |learn|
            && Options(q) == Bytes(Inserted(learn, h, time_stamp)) + Options(p)
            && Payload(q) == Payload(p)
  {
    hide Enlarged, EncodeRx, EncodeNat, Bytes;
    var loaded := Loaded(p, learn, c0);
    if learn != [] {
      OptionInserted(p, EncodeNat(learn[0]), c0);
    }
    var marked := WithTtl(loaded[..OPTIONS_AT], TTL_RESERVE_DUPLICATE) + loaded[OPTIONS_AT..];
    assert Options(marked) == Options(loaded) && Payload(marked) == Payload(loaded);
    OptionInserted(marked, EncodeRx(h, time_stamp), c1);
    InsertedBytes(learn, h, time_stamp);
  }

  /** Of the fixed header only the two lengths, the checksum and the time to live are not those of the captured
      packet; the receiver finds the mark of the reserved time to live. */
  lemma FixedHeaderArrives(p: seq<byte>, learn: seq<NatOption>, h: Header, time_stamp: nat, c0: (byte, byte),
                           c1: (byte, byte))
    requires WellFormed(p) && Learns(learn)
    requires HeaderLength(p) + RX_CHECK_LEN + NAT_OPTION_LEN * |learn| <= MAX_IP_HEADER
    ensures var q := OnTheWire(p, learn, h, time_stamp, c0, c1);
            && |q| >= OPTIONS_AT && q[14] / 16 == p[14] / 16 && q[22] == 0xFF && (q[24], q[25]) == c1
            && (forall i :: 0 <= i < OPTIONS_AT && i !in {14, 16, 17, 22, 24, 25} ==> q[i] == p[i])
            && (TotalLength(p) + RX_CHECK_LEN + NAT_OPTION_LEN * |learn| < 0x1_0000 ==>
                  TotalLength(q) == TotalLength(p) + RX_CHECK_LEN + NAT_OPTION_LEN * |learn|)
  {
    hide Enlarged, EncodeRx, EncodeNat;
    var loaded := Loaded(p, learn, c0);
    if learn != [] {
      EnlargedKeeps(p[..OPTIONS_AT], NAT_OPTION_LEN, c0);
      OptionInserted(p, EncodeNat(learn[0]), c0);
      assert loaded[..OPTIONS_AT] == Enlarged(p[..OPTIONS_AT], NAT_OPTION_LEN, c0);
    }
    var marked := WithTtl(loaded[..OPTIONS_AT], TTL_RESERVE_DUPLICATE) + loaded[OPTIONS_AT..];
    assert marked[..OPTIONS_AT] == WithTtl(loaded[..OPTIONS_AT], TTL_RESERVE_DUPLICATE);
    EnlargedKeeps(marked[..OPTIONS_AT], RX_CHECK_LEN, c1);
    OptionInserted(marked, EncodeRx(h, time_stamp), c1);
    var q := OnTheWire(p, learn, h, time_stamp, c0, c1);
    assert q[..OPTIONS_AT] == Enlarged(marked[..OPTIONS_AT], RX_CHECK_LEN, c1);
    forall i | 0 <= i < OPTIONS_AT ensures q[i] == Enlarged(marked[..OPTIONS_AT], RX_CHECK_LEN, c1)[i] {
      assert q[..OPTIONS_AT][i] == q[i];
    }
  }

  /** What the check at load prevents: the insertion itself makes no test, and for captured headers of any length
      the options would be there exactly if so many bytes were to spare. */
  lemma OptionsArriveIff(p: seq<byte>, learn: seq<NatOption>, h: Header, time_stamp: nat, c0: (byte, byte),
                         c1: (byte, byte))
    requires WellFormed(p) && Learns(learn)
    requires learn != [] ==> HeaderLength(p) + NAT_OPTION_LEN <= MAX_IP_HEADER
    ensures var q := OnTheWire(p, learn, h, time_stamp, c0, c1);
            WellFormed(q) && Options(q) == Bytes(Inserted(learn, h, time_stamp)) + Options(p)
              && Payload(q) == Payload(p)
            <==> HeaderLength(p) + RX_CHECK_LEN + NAT_OPTION_LEN * |learn| <= MAX_IP_HEADER
  {
    hide OnTheWire, Inserted, Bytes;
    WireHeaderLength(p, learn, h, time_stamp, c0, c1);
    InsertedBytes(learn, h, time_stamp);
    if HeaderLength(p) + RX_CHECK_LEN + NAT_OPTION_LEN * |learn| <= MAX_IP_HEADER {
      OptionsArrive(p, learn, h, time_stamp, c0, c1);
    }
  }

  /** A captured header of 40 bytes, had it been let in, would leave with length 0, and no receiver would accept
      it. */
  lemma FortyBytesAreTooMany(p: seq<byte>, h: Header, time_stamp: nat, c0: (byte, byte), c1: (byte, byte),
                             ok: bool, items: seq<Item>, rx_check_mode: bool, learn_mode: bool)
    requires WellFormed(p) && HeaderLength(p) == 40
    requires var q := OnTheWire(p, [], h, time_stamp, c0, c1);
             |q| >= OPTIONS_AT + WalkLength(q) && IsWalk(WalkRegion(q), ok, items, rx_check_mode, learn_mode)
    ensures HeaderLength(OnTheWire(p, [], h, time_stamp, c0, c1)) == 0
    ensures !ok
  {
    hide OnTheWire, StoppedAt;
    WireHeaderLength(p, [], h, time_stamp, c0, c1);
    assert WalkLength(OnTheWire(p, [], h, time_stamp, c0, c1)) == 236;
    if ok {
      ItemsAreMultiplesOfEight(items);
    }
  }

  lemma {:induction false} ItemsAreMultiplesOfEight(items: seq<Item>)
    requires AllLegal(items)
    ensures |Bytes(items)| % 8 == 0
  {
    if items != [] {
      ItemsAreMultiplesOfEight(items[..|items| - 1]);
    }
  }

  lemma {:induction false} LastRxConcat(a: seq<Item>, b: seq<Item>)
    ensures LastRx(a + b) == if LastRx(b) == None then LastRx(a) else LastRx(b)
  {
    if b == [] {
      assert a + b == a;
    } else {
      assert (a + b)[..|a + b| - 1] == a + b[..|b| - 1];
      LastRxConcat(a, b[..|b| - 1]);
    }
  }

  /** The receiver walks over the options that were inserted and then over those of the captured packet as if it
      had been sent as it was; what goes to the checker is the header sent, unless the capture itself holds an
      rx-check option. */
  lemma ReceiverWalks(p: seq<byte>, learn: seq<NatOption>, h: Header, time_stamp: nat, c0: (byte, byte),
                      c1: (byte, byte),
                      captured: (bool, seq<Item>), ok: bool, items: seq<Item>, learn_mode: bool)
    requires WellFormed(p) && Learns(learn) && (learn != [] ==> learn_mode)
    requires HeaderLength(p) + RX_CHECK_LEN + NAT_OPTION_LEN * |learn| <= MAX_IP_HEADER
    requires IsWalk(Options(p), captured.0, captured.1, true, learn_mode)
    requires var q := OnTheWire(p, learn, h, time_stamp, c0, c1);
             WellFormed(q) && IsWalk(WalkRegion(q), ok, items, true, learn_mode)
    ensures ok == captured.0 && items == Inserted(learn, h, time_stamp) + captured.1
    ensures LastRx(items) == if LastRx(captured.1) == None then Some(EncodeRx(h, time_stamp)) else LastRx(captured.1)
    ensures ok && items == Inserted(learn, h, time_stamp) <==> Options(p) == []
  {
    hide OnTheWire, Bytes, EncodeRx, EncodeNat, Item.Legal, StoppedAt;
    var sent := Inserted(learn, h, time_stamp);
    OptionsArrive(p, learn, h, time_stamp, c0, c1);
    InsertedBytes(learn, h, time_stamp);
    WalkBehind(sent, Options(p), captured.0, captured.1, true, learn_mode);
    WalkIsUnique(Bytes(sent) + Options(p), ok, items, captured.0, sent + captured.1, true, learn_mode);
    LastRxConcat(sent, captured.1);
    NoBytes();
    if Options(p) == [] {
      WalkRecovers([], captured.1, captured.0, true, learn_mode);
    }
  }

  /** Every IPv4 packet of a template that was let in: the wire carries the rx-check option, behind it the NAT
      option if there is one, and nothing else but the payload. */
  lemma TemplateOptionsArrive(packets: seq<Indication>, i: nat, learn: seq<NatOption>, h: Header, time_stamp: nat,
                              c0: (byte, byte), c1: (byte, byte))
    requires i < |packets| && packets[i].Parsed() && !packets[i].is_ipv6 && AllSupported(packets, |packets|)
    requires Learns(learn)
    ensures var p := packets[i].raw;
            && WellFormed(p) && HeaderLength(p) == IP_DEFAULT_SIZE
            && var q := OnTheWire(p, learn, h, time_stamp, c0, c1);
               && WellFormed(q) && Options(q) == Bytes(Inserted(learn, h, time_stamp)) && Payload(q) == Payload(p)
  {
    hide OnTheWire, Inserted, Bytes;
    LoadedPacketsHaveRoom(packets, i);
    assert |Options(packets[i].raw)| == HeaderLength(packets[i].raw) - IP_DEFAULT_SIZE;
    OptionsArrive(packets[i].raw, learn, h, time_stamp, c0, c1);
  }

  /** One packet from sender to receiver.  Any IPv4 packet of a template that was let in, loaded with or without a
      NAT option, lies in a chain of buffers; the option goes into a buffer of its own behind the fixed header.
      The walk over the chain accepts, and the header it hands to the checker is the one that was sent. */
  lemma HeaderArrives(packets: seq<Indication>, i: nat, first: seq<byte>, rest: seq<seq<byte>>, learn: seq<NatOption>,
                      h: Header, time_stamp: nat, c0: (byte, byte), c1: (byte, byte),
                      ok: bool, items: seq<Item>, learn_mode: bool)
    requires i < |packets| && packets[i].Parsed() && !packets[i].is_ipv6 && AllSupported(packets, |packets|)
    requires Learns(learn) && (learn != [] ==> learn_mode && learn[0].fid < 0x1_0000_0000)
    requires |first| >= OPTIONS_AT
    requires |packets[i].raw| >= OPTIONS_AT && first + Flatten(rest) == Loaded(packets[i].raw, learn, c0)
    requires var marked := WithTtl(first[..OPTIONS_AT], TTL_RESERVE_DUPLICATE);
             var wire := Flatten([Enlarged(marked, RX_CHECK_LEN, c1),
                                  EncodeRx(h, time_stamp) + first[OPTIONS_AT..]] + rest);
             && |wire| >= OPTIONS_AT && |wire| >= OPTIONS_AT + WalkLength(wire)
             && IsWalk(WalkRegion(wire), ok, items, true, learn_mode)
    ensures ok && LastRx(items).Some? && |LastRx(items).value| == RX_CHECK_LEN && DecodeRx(LastRx(items).value) == h
    ensures |items| == 1 + |learn|
    ensures learn != [] ==>
              items[1].NatItem? && |items[1].option| == NAT_OPTION_LEN && DecodeNat(items[1].option) == learn[0]
  {
    hide Enlarged, EncodeRx, EncodeNat, DecodeRx, DecodeNat, Bytes, Flatten, Item.Legal, StoppedAt, CheckOf;
    var p := packets[i].raw;
    LoadedPacketsHaveRoom(packets, i);
    assert |Options(p)| == HeaderLength(p) - IP_DEFAULT_SIZE;
    WireIsChain(p, first, rest, learn, h, time_stamp, c0, c1);
    OptionsArrive(p, learn, h, time_stamp, c0, c1);
    NoBytes();
    assert IsWalk([], true, [], true, learn_mode);
    ReceiverWalks(p, learn, h, time_stamp, c0, c1, (true, []), ok, items, learn_mode);
    RxRoundTrip(h, time_stamp);
    if learn != [] {
      NatRoundTrip(learn[0]);
    }
  }

  lemma WireIsChain(p: seq<byte>, first: seq<byte>, rest: seq<seq<byte>>, learn: seq<NatOption>, h: Header,
                    time_stamp: nat,
                    c0: (byte, byte), c1: (byte, byte))
    requires |p| >= OPTIONS_AT
    requires |first| >= OPTIONS_AT && first + Flatten(rest) == Loaded(p, learn, c0)
    ensures var marked := WithTtl(first[..OPTIONS_AT], TTL_RESERVE_DUPLICATE);
            Flatten([Enlarged(marked, RX_CHECK_LEN, c1), EncodeRx(h, time_stamp) + first[OPTIONS_AT..]] + rest)
            == OnTheWire(p, learn, h, time_stamp, c0, c1)
  {
    hide Enlarged, EncodeRx, Flatten, Loaded;
    ChainHoldsOption(first, rest, EncodeRx(h, time_stamp), c1);
    var loaded := Loaded(p, learn, c0);
    assert loaded[..OPTIONS_AT] == first[..OPTIONS_AT] && loaded[OPTIONS_AT..] == first[OPTIONS_AT..] + Flatten(rest);
    var marked := WithTtl(first[..OPTIONS_AT], TTL_RESERVE_DUPLICATE);
    assert marked + first[OPTIONS_AT..] + Flatten(rest) == marked + loaded[OPTIONS_AT..];
  }
}
