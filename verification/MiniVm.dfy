/** The payload rewriter: a program of one command copies a captured payload into a new buffer and puts the
    flow's own addresses and ports in the place of the captured ones. */
module MiniVm {
  import opened Basics

  const INET_ADDRSTRLEN := 16
  const INET6_ADDRSTRLEN := 46
  const INET_PORTSTRLEN := 5

  // ----- Texts

  function Digit(d: nat): char
    requires d < 10
  {
    '0' + d as char
  }

  /** Decimal, as %u prints it. */
  function Dec(n: nat): (s: string)
    ensures |s| > 0
  {
    if n < 10 then [Digit(n)] else Dec(n / 10) + [Digit(n % 10)]
  }

  lemma DecLength(n: nat)
    ensures n < 1000 ==> |Dec(n)| <= 3
    ensures n < 100000 ==> |Dec(n)| <= INET_PORTSTRLEN
  {
    assert |Dec(n)| == 1 || |Dec(n)| == |Dec(n / 10)| + 1;
    assert |Dec(n / 10)| == 1 || |Dec(n / 10)| == |Dec(n / 10 / 10)| + 1;
    assert |Dec(n / 10 / 10)| == 1 || |Dec(n / 10 / 10)| == |Dec(n / 10 / 10 / 10)| + 1;
    assert |Dec(n / 10 / 10 / 10)| == 1 || |Dec(n / 10 / 10 / 10)| == |Dec(n / 10 / 10 / 10 / 10)| + 1;
  }

  /** What a row of digits says, read from left to right. */
  function Value(s: string): nat {
    if s == [] then 0 else 10 * Value(s[..|s| - 1]) + DigitValue(s[|s| - 1])
  }

  function DigitValue(c: char): nat {
    if '0' <= c <= '9' then c as int - '0' as int else 0
  }

  /** The text is the number, without leading zeros. */
  ghost predicate IsNumber(s: string, n: nat) {
    && s != [] && (forall i :: 0 <= i < |s| ==> '0' <= s[i] <= '9')
    && (n > 0 ==> s[0] != '0') && (n == 0 ==> s == "0")
    && Value(s) == n
  }

  lemma {:induction false} DecIsNumber(n: nat)
    ensures IsNumber(Dec(n), n)
  {
    if n >= 10 {
      DecIsNumber(n / 10);
      var s := Dec(n);
      assert s[..|s| - 1] == Dec(n / 10);
    } else {
      assert Dec(n)[..0] == [];
    }
  }

  /** There is only one such text. */
  lemma {:induction false} NumberIsUnique(s: string, t: string, n: nat)
    requires IsNumber(s, n) && IsNumber(t, n)
    ensures s == t
    decreases n
  {
    if n >= 10 {
      LongNumber(s, n);
      LongNumber(t, n);
      NumberIsUnique(s[..|s| - 1], t[..|t| - 1], n / 10);
    } else if n > 0 {
      ShortNumber(s, n);
      ShortNumber(t, n);
    }
  }

  lemma LongNumber(s: string, n: nat)
    requires IsNumber(s, n) && n >= 10
    ensures |s| > 1 && IsNumber(s[..|s| - 1], n / 10) && DigitValue(s[|s| - 1]) == n % 10
  {
    assert s[..0] == [];
    var before := s[..|s| - 1];
    assert n == 10 * Value(before) + DigitValue(s[|s| - 1]);
  }

  lemma ShortNumber(s: string, n: nat)
    requires IsNumber(s, n) && 0 < n < 10
    ensures |s| == 1 && DigitValue(s[0]) == n
  {
    if |s| > 1 {
      ValueIsPositive(s[..|s| - 1]);
    }
    assert s[..0] == [];
  }

  lemma {:induction false} ValueIsPositive(s: string)
    requires s != [] && '0' < s[0] <= '9'
    ensures Value(s) > 0
  {
    if |s| > 1 {
      ValueIsPositive(s[..|s| - 1]);
    } else {
      assert s[..0] == [];
    }
  }

  /** An address: IPv4 as a number, IPv6 as the text that the C library makes of it. */
  datatype Addr = V4(ip: nat) | V6(text: string) {
    predicate Legal() {
      match this
      case V4(ip) => ip < 0x1_0000_0000
      case V6(text) => |text| < INET6_ADDRSTRLEN
    }

    /** ip_to_str and ipv6_to_str; an IPv6 address comes in brackets. */
    function Text(): string {
      match this
      case V4(ip) => Dec(ip / 0x100_0000 % 0x100) + "." + Dec(ip / 0x1_0000 % 0x100) + "." + Dec(ip / 0x100 % 0x100)
        + "." + Dec(ip % 0x100)
      case V6(text) => "[" + text + "]"
    }
  }

  /** The text is the address: for IPv4 four numbers with dots between them, the first the most significant byte. */
  ghost predicate IsAddress(s: string, a: Addr) {
    match a
    case V4(ip) => exists b :: IsDotted(s, b, ip)
    case V6(text) => s == ['['] + text + [']']
  }

  ghost predicate IsDotted(s: string, b: seq<string>, ip: nat) {
    && |b| == 4 && (forall i :: 0 <= i < 4 ==> Value(b[i]) < 0x100 && IsNumber(b[i], Value(b[i])))
    && s == b[0] + "." + b[1] + "." + b[2] + "." + b[3]
    && ip == Value(b[0]) * 0x100_0000 + Value(b[1]) * 0x1_0000 + Value(b[2]) * 0x100 + Value(b[3])
  }

  lemma TextIsAddress(a: Addr)
    requires a.Legal()
    ensures IsAddress(a.Text(), a)
  {
    hide Dec, Value;
    if a.V4? {
      var b := [Dec(a.ip / 0x100_0000 % 0x100), Dec(a.ip / 0x1_0000 % 0x100), Dec(a.ip / 0x100 % 0x100),
                Dec(a.ip % 0x100)];
      DecIsNumber(a.ip / 0x100_0000 % 0x100);
      DecIsNumber(a.ip / 0x1_0000 % 0x100);
      DecIsNumber(a.ip / 0x100 % 0x100);
      DecIsNumber(a.ip % 0x100);
      BytesOfWord(a.ip);
      assert IsDotted(a.Text(), b, a.ip);
    }
  }

  lemma BytesOfWord(ip: nat)
    requires ip < 0x1_0000_0000
    ensures ip == ip / 0x100_0000 % 0x100 * 0x100_0000 + ip / 0x1_0000 % 0x100 * 0x1_0000 + ip / 0x100 % 0x100 * 0x100
            + ip % 0x100
  {
    var h := ip / 0x1_0000;
    assert ip / 0x100_0000 == h / 0x100;
    assert ip / 0x100 == h * 0x100 + ip / 0x100 % 0x100;
  }

  /** What the largest address needs, with the zero that ends it. */
  function MaxText(v6: bool): nat { if v6 then INET6_ADDRSTRLEN + 2 else INET_ADDRSTRLEN }

  lemma AddrLength(a: Addr)
    requires a.Legal()
    ensures |a.Text()| < MaxText(a.V6?)
  {
    if a.V4? {
      DecLength(a.ip / 0x100_0000 % 0x100);
      DecLength(a.ip / 0x1_0000 % 0x100);
      DecLength(a.ip / 0x100 % 0x100);
      DecLength(a.ip % 0x100);
    }
  }

  /** And some addresses need all of that. */
  lemma AddrLengthIsReached(v6: bool) returns (a: Addr)
    ensures a.Legal() && a.V6? == v6 && |a.Text()| == MaxText(v6) - 1
  {
    hide Dec;
    if v6 {
      a := V6(seq(INET6_ADDRSTRLEN - 1, i => '0'));
    } else {
      a := V4(0xFFFF_FFFF);
      ThreeDigits();
      assert a.Text() == Dec(255) + "." + Dec(255) + "." + Dec(255) + "." + Dec(255);
    }
  }

  lemma ThreeDigits()
    ensures |Dec(255)| == 3
  {
    assert |Dec(2)| == 1;
    assert |Dec(25)| == |Dec(2)| + 1;
  }

  // ----- Edits of a payload

  /** Bytes start to stop become `text`. */
  datatype Edit = Edit(start: nat, stop: nat, text: string)

  /** The edits are in order, apart, and inside a payload of `len` bytes. */
  ghost predicate InOrder(edits: seq<Edit>, len: nat) {
    && (forall i :: 0 <= i < |edits| ==> edits[i].start <= edits[i].stop <= len)
    && (forall i, j :: 0 <= i < j < |edits| ==> edits[i].stop <= edits[j].start)
  }

  /** Where edit k may begin. */
  function From(edits: seq<Edit>, k: nat): nat
    requires k <= |edits|
  {
    if k == 0 then 0 else edits[k - 1].stop
  }

  /** The new payload up to and including edit k. */
  function Built(payload: string, edits: seq<Edit>, k: nat): string
    requires InOrder(edits, |payload|) && k <= |edits|
  {
    if k == 0 then []
    else Built(payload, edits, k - 1) + payload[From(edits, k - 1)..edits[k - 1].start] + edits[k - 1].text
  }

  function Spliced(payload: string, edits: seq<Edit>): string
    requires InOrder(edits, |payload|)
  {
    Built(payload, edits, |edits|) + payload[From(edits, |edits|)..]
  }

  function Growth(edits: seq<Edit>, k: nat): int
    requires k <= |edits|
  {
    if k == 0 then 0 else Growth(edits, k - 1) + |edits[k - 1].text| - (edits[k - 1].stop - edits[k - 1].start)
  }

  lemma {:induction false} BuiltLength(payload: string, edits: seq<Edit>, k: nat)
    requires InOrder(edits, |payload|) && k <= |edits|
    ensures |Built(payload, edits, k)| == From(edits, k) + Growth(edits, k)
  {
    if k > 0 {
      BuiltLength(payload, edits, k - 1);
    }
  }

  lemma {:induction false} BuiltGrows(payload: string, edits: seq<Edit>, j: nat, k: nat)
    requires InOrder(edits, |payload|) && j <= k <= |edits|
    ensures Built(payload, edits, j) <= Built(payload, edits, k)
  {
    if j < k {
      BuiltGrows(payload, edits, j, k - 1);
    }
  }

  lemma BuiltNext(payload: string, edits: seq<Edit>, k: nat)
    requires InOrder(edits, |payload|) && k < |edits|
    ensures From(edits, k) <= edits[k].start <= edits[k].stop <= |payload|
    ensures Built(payload, edits, k + 1)
            == Built(payload, edits, k) + payload[From(edits, k)..edits[k].start] + edits[k].text
  {
  }

  lemma SplicedLength(payload: string, edits: seq<Edit>)
    requires InOrder(edits, |payload|)
    ensures |Spliced(payload, edits)| == |payload| + Growth(edits, |edits|)
  {
    BuiltLength(payload, edits, |edits|);
  }

  /** The edits that put the captured texts back. */
  function Undo(payload: string, edits: seq<Edit>): (back: seq<Edit>)
    requires InOrder(edits, |payload|)
    ensures |back| == |edits|
    ensures forall i :: 0 <= i < |back| ==> back[i] == UndoOne(payload, edits, i)
  {
    seq(|edits|, i requires 0 <= i < |edits| => UndoOne(payload, edits, i))
  }

  function UndoOne(payload: string, edits: seq<Edit>, i: nat): (e: Edit)
    requires InOrder(edits, |payload|) && i < |edits|
    ensures |Built(payload, edits, i)| <= e.start <= e.stop == |Built(payload, edits, i + 1)|
  {
    var at := |Built(payload, edits, i + 1)| - |edits[i].text|;
    Edit(at, at + |edits[i].text|, payload[edits[i].start..edits[i].stop])
  }

  lemma UndoInOrder(payload: string, edits: seq<Edit>)
    requires InOrder(edits, |payload|)
    ensures InOrder(Undo(payload, edits), |Spliced(payload, edits)|)
  {
    hide Built, UndoOne;
    var back := Undo(payload, edits);
    forall i | 0 <= i < |back| ensures back[i].start <= back[i].stop <= |Spliced(payload, edits)| {
      BuiltGrows(payload, edits, i + 1, |edits|);
    }
    forall i, j | 0 <= i < j < |back| ensures back[i].stop <= back[j].start {
      BuiltGrows(payload, edits, i + 1, j);
    }
  }

  /** Undoing the first k edits gives back the payload up to them. */
  lemma {:induction false} UndoBuilt(payload: string, edits: seq<Edit>, k: nat)
    requires InOrder(edits, |payload|) && InOrder(Undo(payload, edits), |Spliced(payload, edits)|) && k <= |edits|
    ensures Built(Spliced(payload, edits), Undo(payload, edits), k) == payload[..From(edits, k)]
    ensures From(Undo(payload, edits), k) == |Built(payload, edits, k)|
  {
    hide Built, InOrder;
    var s, back := Spliced(payload, edits), Undo(payload, edits);
    if k == 0 {
      BuiltNothing(payload, edits);
      BuiltNothing(s, back);
    } else {
      UndoBuilt(payload, edits, k - 1);
      BuiltNext(payload, edits, k - 1);
      BuiltNext(s, back, k - 1);
      BuiltGrows(payload, edits, k, |edits|);
      PrefixOfSpliced(payload, edits, k);
      UndoStep(payload, From(edits, k - 1), edits[k - 1], Built(payload, edits, k - 1), s, back[k - 1]);
    }
  }

  lemma BuiltNothing(payload: string, edits: seq<Edit>)
    requires InOrder(edits, |payload|)
    ensures Built(payload, edits, 0) == []
  {
  }

  lemma PrefixOfSpliced(payload: string, edits: seq<Edit>, k: nat)
    requires InOrder(edits, |payload|) && k <= |edits|
    ensures Built(payload, edits, k) <= Spliced(payload, edits)
  {
    BuiltGrows(payload, edits, k, |edits|);
  }

  /** One edit undone: a is what was built before it. */
  lemma UndoStep(payload: string, from: nat, e: Edit, a: string, s: string, back: Edit)
    requires from <= e.start <= e.stop <= |payload|
    requires a + payload[from..e.start] + e.text <= s
    requires back == Edit(|a| + (e.start - from), |a| + (e.start - from) + |e.text|, payload[e.start..e.stop])
    ensures payload[..from] + s[|a|..back.start] + back.text == payload[..e.stop]
  {
    var b := a + payload[from..e.start] + e.text;
    assert s[..|b|] == b;
    assert s[|a|..back.start] == s[..|b|][|a|..back.start] == payload[from..e.start];
    assert payload[..e.stop] == payload[..from] + payload[from..e.start] + payload[e.start..e.stop];
  }

  lemma FromInside(payload: string, edits: seq<Edit>)
    requires InOrder(edits, |payload|)
    ensures From(edits, |edits|) <= |payload|
  {
  }

  /** Nothing but the marked fields changes: with the captured texts put back, the captured payload is back. */
  lemma {:induction false} SplicedCanBeUndone(payload: string, edits: seq<Edit>)
    requires InOrder(edits, |payload|)
    ensures InOrder(Undo(payload, edits), |Spliced(payload, edits)|)
    ensures Spliced(Spliced(payload, edits), Undo(payload, edits)) == payload
  {
    hide Built, InOrder, UndoOne;
    var n := |edits|;
    FromInside(payload, edits);
    UndoInOrder(payload, edits);
    UndoBuilt(payload, edits, n);
    var b, rest := Built(payload, edits, n), payload[From(edits, n)..];
    assert (b + rest)[|b|..] == rest;
    assert payload[..From(edits, n)] + rest == payload;
  }

  // ----- Commands

  datatype Cmd =
    | ReplaceIp(start_0: nat, stop_1: nat, server_ip: Addr)
    | ReplacePortIp(start_0: nat, stop_1: nat, server_ip: Addr, start_port: nat, stop_port: nat, client_port: nat)
    | ReplacePorts(start_port: nat, stop_port: nat, client_port: nat, server_port: nat)
    | ReplaceIpViaIpIpPorts(ip_via_start: nat, ip_via_stop: nat, ip_via: Addr, port_via: nat,
                            ip0_start: nat, ip0_stop: nat, ip1_start: nat, ip1_stop: nat, ip: Addr,
                            port_start: nat, port_stop: nat, port: nat)
  {
    /** The fields the command replaces, and by what. */
    function Edits(): seq<Edit>
      requires ReplaceIpViaIpIpPorts? ==> ip0_start >= 2 && ip1_start >= 2
    {
      match this
      case ReplaceIp(a, b, ip) => [Edit(a, b, ip.Text())]
      case ReplacePortIp(a, b, ip, c, d, port) => [Edit(a, b, ip.Text()), Edit(c, d, Dec(port) + "-" + Dec(port + 1))]
      case ReplacePorts(a, b, client, server) =>
        [Edit(a, b, Dec(client) + "-" + Dec(client + 1) + ";server_port=" + Dec(server) + "-" + Dec(server + 1))]
      case ReplaceIpViaIpIpPorts(a, b, via, port_via, c, d, e, f, ip, g, h, port) =>
        [Edit(a, b, via.Text() + ":" + Dec(port_via))]
        + Marked(c, d, ip) + Marked(e, f, ip) + [Edit(g, h, Dec(port))]
    }

    /** An address of which an IPv6 one also turns the 4 of "IP4 " before it into a 6. */
    static function Marked(start: nat, stop: nat, ip: Addr): seq<Edit>
      requires start >= 2
    {
      (if ip.V6? then [Edit(start - 2, start - 1, "6")] else []) + [Edit(start, stop, ip.Text())]
    }

    ghost predicate Legal(len: nat) {
      && (ReplaceIpViaIpIpPorts? ==> ip0_start >= 2 && ip1_start >= 2 && ip.V6? == ip_via.V6?)
      && InOrder(Edits(), len)
    }
  }

  /** The payload with the fields of the command replaced. */
  function Result(payload: string, cmd: Cmd): string
    requires cmd.Legal(|payload|)
  {
    Spliced(payload, cmd.Edits())
  }

  /** The buffer holds the result, and also the zero behind every text on the way. */
  ghost predicate Fits(payload: string, cmd: Cmd, size: nat)
    requires cmd.Legal(|payload|)
  {
    && |Built(payload, cmd.Edits(), |cmd.Edits()|)| < size
    && |Result(payload, cmd)| <= size
  }

  /** cp_pkt_to_from */
  method CpPktToFrom(buf: array<char>, p: nat, from: string, from_offset: nat, to_offset: nat) returns (p': nat)
    requires from_offset <= to_offset <= |from| && p + (to_offset - from_offset) <= buf.Length
    modifies buf
    ensures p' == p + to_offset - from_offset && buf[..p'] == old(buf[..p]) + from[from_offset..to_offset]
  {
    var n := to_offset - from_offset;
    for i := 0 to n
      invariant buf[..p + i] == old(buf[..p]) + from[from_offset..from_offset + i]
    {
      buf[p + i] := from[from_offset + i];
    }
    p' := p + n;
  }

  /** sprintf and inet_ntop: the text and a zero behind it. */
  method PutText(buf: array<char>, p: nat, text: string) returns (p': nat)
    requires p + |text| < buf.Length
    modifies buf
    ensures p' == p + |text| && buf[..p'] == old(buf[..p]) + text
  {
    p' := CpPktToFrom(buf, p, text, 0, |text|);
    assert text[0..|text|] == text;
    ghost var done := buf[..p'];
    buf[p'] := '\0';
    assert buf[..p'] == done;
  }

  class CMiniVM {
    const payload: string
    const l7_offset: nat
    const m_pyload_mbuf_ptr: array<char>
    var m_new_pkt_size: nat

    constructor (payload: string, l7_offset: nat, buffer: array<char>)
      ensures this.payload == payload && this.l7_offset == l7_offset && m_pyload_mbuf_ptr == buffer
    {
      this.payload, this.l7_offset, m_pyload_mbuf_ptr := payload, l7_offset, buffer;
      m_new_pkt_size := 0;
    }

    /** The new payload and the reported size of the packet. */
    ghost predicate Holds(result: string)
      reads this, m_pyload_mbuf_ptr
    {
      && |result| <= m_pyload_mbuf_ptr.Length && m_pyload_mbuf_ptr[..|result|] == result
      && m_new_pkt_size == l7_offset + |result|
    }

    /** What every command does field by field: copy up to the field, then write the text. */
    method CopyAndPut(p: nat, ghost edits: seq<Edit>, ghost k: nat, from: nat, start: nat, text: string)
      returns (p': nat)
      requires InOrder(edits, |payload|) && k < |edits| && From(edits, k) == from
      requires edits[k].start == start && edits[k].text == text
      requires p == |Built(payload, edits, k)| <= m_pyload_mbuf_ptr.Length
               && m_pyload_mbuf_ptr[..p] == Built(payload, edits, k)
      requires |Built(payload, edits, |edits|)| < m_pyload_mbuf_ptr.Length
      modifies m_pyload_mbuf_ptr
      ensures p' == |Built(payload, edits, k + 1)| <= m_pyload_mbuf_ptr.Length
      ensures m_pyload_mbuf_ptr[..p'] == Built(payload, edits, k + 1)
    {
      BuiltGrows(payload, edits, k + 1, |edits|);
      p' := CpPktToFrom(m_pyload_mbuf_ptr, p, payload, from, start);
      p' := PutText(m_pyload_mbuf_ptr, p', text);
    }

    /** Up to the end, and the new size. */
    method Finish(p: nat, ghost edits: seq<Edit>, from: nat)
      requires InOrder(edits, |payload|) && From(edits, |edits|) == from
      requires p == |Built(payload, edits, |edits|)| <= m_pyload_mbuf_ptr.Length
               && m_pyload_mbuf_ptr[..p] == Built(payload, edits, |edits|)
      requires |Spliced(payload, edits)| <= m_pyload_mbuf_ptr.Length
      modifies this, m_pyload_mbuf_ptr
      ensures Holds(Spliced(payload, edits))
    {
      var p' := CpPktToFrom(m_pyload_mbuf_ptr, p, payload, from, |payload|);
      m_new_pkt_size := p' + l7_offset;
    }

    method ReplaceIp(cmd: Cmd)
      requires cmd.ReplaceIp? && cmd.Legal(|payload|) && Fits(payload, cmd, m_pyload_mbuf_ptr.Length)
      modifies this, m_pyload_mbuf_ptr
      ensures Holds(Result(payload, cmd))
    {
      ghost var edits := cmd.Edits();
      var p := CopyAndPut(0, edits, 0, 0, cmd.start_0, cmd.server_ip.Text());
      Finish(p, edits, cmd.stop_1);
    }

    method ReplacePortIp(cmd: Cmd)
      requires cmd.ReplacePortIp? && cmd.Legal(|payload|) && Fits(payload, cmd, m_pyload_mbuf_ptr.Length)
      modifies this, m_pyload_mbuf_ptr
      ensures Holds(Result(payload, cmd))
    {
      ghost var edits := cmd.Edits();
      var p := CopyAndPut(0, edits, 0, 0, cmd.start_0, cmd.server_ip.Text());
      p := CopyAndPut(p, edits, 1, cmd.stop_1, cmd.start_port, Dec(cmd.client_port) + "-" + Dec(cmd.client_port + 1));
      Finish(p, edits, cmd.stop_port);
    }

    method ReplacePorts(cmd: Cmd)
      requires cmd.ReplacePorts? && cmd.Legal(|payload|) && Fits(payload, cmd, m_pyload_mbuf_ptr.Length)
      modifies this, m_pyload_mbuf_ptr
      ensures Holds(Result(payload, cmd))
    {
      ghost var edits := cmd.Edits();
      var p := CopyAndPut(0, edits, 0, 0, cmd.start_port,
        Dec(cmd.client_port) + "-" + Dec(cmd.client_port + 1) + ";server_port=" + Dec(cmd.server_port) + "-"
          + Dec(cmd.server_port + 1));
      Finish(p, edits, cmd.stop_port);
    }

    /** Up to an address field; for IPv6 the byte two before it is overwritten after it has been copied. */
    method CopyAndMark(p: nat, ghost edits: seq<Edit>, ghost k: nat, from: nat, start: nat, stop: nat, ip: Addr)
      returns (p': nat, ghost k': nat)
      requires InOrder(edits, |payload|) && start >= 2 && k <= |edits| && From(edits, k) == from
      requires k + |Cmd.Marked(start, stop, ip)| <= |edits|
               && edits[k..k + |Cmd.Marked(start, stop, ip)|] == Cmd.Marked(start, stop, ip)
      requires p == |Built(payload, edits, k)| <= m_pyload_mbuf_ptr.Length
               && m_pyload_mbuf_ptr[..p] == Built(payload, edits, k)
      requires |Built(payload, edits, |edits|)| < m_pyload_mbuf_ptr.Length
      modifies m_pyload_mbuf_ptr
      ensures k' == k + |Cmd.Marked(start, stop, ip)|
      ensures p' == |Built(payload, edits, k')| <= m_pyload_mbuf_ptr.Length
      ensures m_pyload_mbuf_ptr[..p'] == Built(payload, edits, k')
    {
      hide Cmd.Marked, Built, InOrder, Addr.Text;
      k' := k + |Cmd.Marked(start, stop, ip)|;
      MarkedAt(edits, k, start, stop, ip);
      if ip.V6? {
        p' := CopyAndMark6(p, edits, k, from, start, ip.Text());
      } else {
        p' := CopyAndPut(p, edits, k, from, start, ip.Text());
      }
    }

    method CopyAndMark6(p: nat, ghost edits: seq<Edit>, ghost k: nat, from: nat, start: nat, text: string)
      returns (p': nat)
      requires InOrder(edits, |payload|) && start >= 2 && k + 1 < |edits| && From(edits, k) == from
      requires edits[k] == Edit(start - 2, start - 1, "6") && edits[k + 1].start == start && edits[k + 1].text == text
      requires p == |Built(payload, edits, k)| <= m_pyload_mbuf_ptr.Length
               && m_pyload_mbuf_ptr[..p] == Built(payload, edits, k)
      requires |Built(payload, edits, |edits|)| < m_pyload_mbuf_ptr.Length
      modifies m_pyload_mbuf_ptr
      ensures p' == |Built(payload, edits, k + 2)| <= m_pyload_mbuf_ptr.Length
      ensures m_pyload_mbuf_ptr[..p'] == Built(payload, edits, k + 2)
    {
      hide Built, InOrder;
      assert from <= start <= |payload|
        && |Built(payload, edits, k)| + (start - from) + |text| < m_pyload_mbuf_ptr.Length by {
        RoomForMark(payload, edits, k, from, start);
        BuiltGrows(payload, edits, k + 2, |edits|);
      }
      p' := CpPktToFrom(m_pyload_mbuf_ptr, p, payload, from, start);
      ghost var copied := m_pyload_mbuf_ptr[..p'];
      MarkIsEdit(payload, edits, k, from, start, copied);
      m_pyload_mbuf_ptr[p' - 2] := '6';
      assert m_pyload_mbuf_ptr[..p'] == copied[|copied| - 2 := '6'];
      p' := PutText(m_pyload_mbuf_ptr, p', text);
      BuiltNext(payload, edits, k + 1);
    }

    method ReplaceIpViaIpIpPorts(cmd: Cmd)
      requires cmd.ReplaceIpViaIpIpPorts? && cmd.Legal(|payload|) && Fits(payload, cmd, m_pyload_mbuf_ptr.Length)
      modifies this, m_pyload_mbuf_ptr
      ensures Holds(Result(payload, cmd))
    {
      ghost var edits := cmd.Edits();
      ghost var k: nat;
      var p := CopyAndPut(0, edits, 0, 0, cmd.ip_via_start, cmd.ip_via.Text() + ":" + Dec(cmd.port_via));
      assert edits[1..1 + |Cmd.Marked(cmd.ip0_start, cmd.ip0_stop, cmd.ip)|]
        == Cmd.Marked(cmd.ip0_start, cmd.ip0_stop, cmd.ip);
      p, k := CopyAndMark(p, edits, 1, cmd.ip_via_stop, cmd.ip0_start, cmd.ip0_stop, cmd.ip);
      assert edits[k..k + |Cmd.Marked(cmd.ip1_start, cmd.ip1_stop, cmd.ip)|]
        == Cmd.Marked(cmd.ip1_start, cmd.ip1_stop, cmd.ip);
      p, k := CopyAndMark(p, edits, k, cmd.ip0_stop, cmd.ip1_start, cmd.ip1_stop, cmd.ip);
      p := CopyAndPut(p, edits, k, cmd.ip1_stop, cmd.port_start, Dec(cmd.port));
      Finish(p, edits, cmd.port_stop);
    }

    /** mini_vm_run: every command starts again from the captured payload, so the last one decides. */
    method MiniVmRun(cmds: seq<Cmd>)
      requires cmds != []
      requires forall i :: 0 <= i < |cmds| ==>
               cmds[i].Legal(|payload|) && Fits(payload, cmds[i], m_pyload_mbuf_ptr.Length)
      modifies this, m_pyload_mbuf_ptr
      ensures Holds(Result(payload, cmds[|cmds| - 1]))
    {
      hide Fits, Cmd.Legal, Cmd.Edits, Result;
      m_new_pkt_size := 0;
      for i := 0 to |cmds|
        invariant i > 0 ==> cmds[i - 1].Legal(|payload|) && Holds(Result(payload, cmds[i - 1]))
      {
        match cmds[i]
        case ReplaceIp(_, _, _) => ReplaceIp(cmds[i]);
        case ReplacePortIp(_, _, _, _, _, _) => ReplacePortIp(cmds[i]);
        case ReplacePorts(_, _, _, _) => ReplacePorts(cmds[i]);
        case ReplaceIpViaIpIpPorts(_, _, _, _, _, _, _, _, _, _, _, _) => ReplaceIpViaIpIpPorts(cmds[i]);
      }
    }
  }

  lemma RoomForMark(payload: string, edits: seq<Edit>, k: nat, from: nat, start: nat)
    requires InOrder(edits, |payload|) && k + 1 < |edits| && From(edits, k) == from && start >= 2
    requires edits[k] == Edit(start - 2, start - 1, "6") && edits[k + 1].start == start
    ensures from <= start - 2 && start <= |payload|
    ensures |Built(payload, edits, k + 2)| == |Built(payload, edits, k)| + (start - from) + |edits[k + 1].text|
  {
    BuiltNext(payload, edits, k);
    BuiltNext(payload, edits, k + 1);
  }

  lemma MarkedAt(edits: seq<Edit>, k: nat, start: nat, stop: nat, ip: Addr)
    requires start >= 2 && k + |Cmd.Marked(start, stop, ip)| <= |edits|
    requires edits[k..k + |Cmd.Marked(start, stop, ip)|] == Cmd.Marked(start, stop, ip)
    ensures |Cmd.Marked(start, stop, ip)| == (if ip.V6? then 2 else 1)
    ensures ip.V6? ==> edits[k] == Edit(start - 2, start - 1, "6") && edits[k + 1] == Edit(start, stop, ip.Text())
    ensures ip.V4? ==> edits[k] == Edit(start, stop, ip.Text())
  {
    var marked := Cmd.Marked(start, stop, ip);
    assert edits[k] == edits[k..k + |marked|][0];
    assert ip.V6? ==> edits[k + 1] == edits[k..k + |marked|][1];
  }

  /** Copying up to the field and then overwriting the 4 is the edit of one byte. */
  lemma MarkIsEdit(payload: string, edits: seq<Edit>, k: nat, from: nat, start: nat, copied: string)
    requires InOrder(edits, |payload|) && k + 1 < |edits| && From(edits, k) == from && start >= 2
    requires edits[k] == Edit(start - 2, start - 1, "6") && edits[k + 1].start == start
    requires copied == Built(payload, edits, k) + payload[from..start]
    ensures |copied| >= 2
    ensures copied[|copied| - 2 := '6'] == Built(payload, edits, k + 1) + payload[start - 1..start]
  {
    assert payload[from..start] == payload[from..start - 2] + payload[start - 2..start - 1] + payload[start - 1..start];
  }

  // ----- What can be read back out of the rewritten payload

  lemma ResultOfOne(payload: string, e: Edit)
    requires InOrder([e], |payload|)
    ensures e.start <= e.stop <= |payload|
    ensures Spliced(payload, [e]) == payload[..e.start] + e.text + payload[e.stop..]
  {
    BuiltNothing(payload, [e]);
    BuiltNext(payload, [e], 0);
  }

  lemma ResultOfTwo(payload: string, e: Edit, f: Edit)
    requires InOrder([e, f], |payload|)
    ensures e.start <= e.stop <= f.start <= f.stop <= |payload|
    ensures Spliced(payload, [e, f])
            == payload[..e.start] + e.text + payload[e.stop..f.start] + f.text + payload[f.stop..]
  {
    BuiltNothing(payload, [e, f]);
    BuiltNext(payload, [e, f], 0);
    BuiltNext(payload, [e, f], 1);
  }

  /** The address stands where the captured one stood. */
  lemma ReplaceIpReads(payload: string, cmd: Cmd) returns (t: string)
    requires cmd.ReplaceIp? && cmd.Legal(|payload|) && cmd.server_ip.Legal()
    ensures cmd.start_0 <= cmd.stop_1 <= |payload|
    ensures Result(payload, cmd) == payload[..cmd.start_0] + t + payload[cmd.stop_1..]
    ensures IsAddress(t, cmd.server_ip)
  {
    hide Addr.Text;
    t := cmd.server_ip.Text();
    TextIsAddress(cmd.server_ip);
    assert InOrder(cmd.Edits(), |payload|) && cmd.Edits()[0].start == cmd.start_0;
    ResultOfOne(payload, cmd.Edits()[0]);
  }

  /** So do the address and the two client ports of a request. */
  lemma ReplacePortIpReads(payload: string, cmd: Cmd) returns (t: string, a: string, b: string)
    requires cmd.ReplacePortIp? && cmd.Legal(|payload|) && cmd.server_ip.Legal()
    ensures cmd.start_0 <= cmd.stop_1 <= cmd.start_port <= cmd.stop_port <= |payload|
    ensures Result(payload, cmd)
            == payload[..cmd.start_0] + t + payload[cmd.stop_1..cmd.start_port] + a + "-" + b + payload[cmd.stop_port..]
    ensures IsAddress(t, cmd.server_ip) && IsNumber(a, cmd.client_port) && IsNumber(b, cmd.client_port + 1)
  {
    hide Addr.Text, Dec;
    t, a, b := cmd.server_ip.Text(), Dec(cmd.client_port), Dec(cmd.client_port + 1);
    TextIsAddress(cmd.server_ip);
    DecIsNumber(cmd.client_port);
    DecIsNumber(cmd.client_port + 1);
    var edits := cmd.Edits();
    assert InOrder(edits, |payload|) && edits == [edits[0], edits[1]];
    ResultOfTwo(payload, edits[0], edits[1]);
    assert payload[..cmd.start_0] + t + payload[cmd.stop_1..cmd.start_port] + (a + "-" + b) + payload[cmd.stop_port..]
        == payload[..cmd.start_0] + t + payload[cmd.stop_1..cmd.start_port] + a + "-" + b + payload[cmd.stop_port..];
  }

  /** And the four ports of a reply, the client's first. */
  lemma ReplacePortsReads(payload: string, cmd: Cmd) returns (a: string, b: string, c: string, d: string)
    requires cmd.ReplacePorts? && cmd.Legal(|payload|)
    ensures cmd.start_port <= cmd.stop_port <= |payload|
    ensures Result(payload, cmd)
            == payload[..cmd.start_port] + (a + "-" + b + ";server_port=" + c + "-" + d) + payload[cmd.stop_port..]
    ensures IsNumber(a, cmd.client_port) && IsNumber(b, cmd.client_port + 1)
    ensures IsNumber(c, cmd.server_port) && IsNumber(d, cmd.server_port + 1)
  {
    hide Dec;
    a, b, c, d := Dec(cmd.client_port), Dec(cmd.client_port + 1), Dec(cmd.server_port), Dec(cmd.server_port + 1);
    DecIsNumber(cmd.client_port);
    DecIsNumber(cmd.client_port + 1);
    DecIsNumber(cmd.server_port);
    DecIsNumber(cmd.server_port + 1);
    assert InOrder(cmd.Edits(), |payload|) && cmd.Edits()[0].start == cmd.start_port;
    ResultOfOne(payload, cmd.Edits()[0]);
  }

  /** The bytes between two fields, the last but one of them a 6 if the second field is an IPv6 address. */
  function Between(payload: string, from: nat, start: nat, v6: bool): string
    requires from <= start <= |payload| && (v6 ==> from + 2 <= start)
  {
    if v6 then payload[from..start - 2] + "6" + payload[start - 1..start] else payload[from..start]
  }

  lemma {:induction false} BuiltPrefix(payload: string, edits: seq<Edit>, more: seq<Edit>, k: nat)
    requires InOrder(edits + more, |payload|) && k <= |edits|
    ensures InOrder(edits, |payload|)
    ensures Built(payload, edits + more, k) == Built(payload, edits, k) && From(edits + more, k) == From(edits, k)
  {
    forall i | 0 <= i < |edits| ensures edits[i] == (edits + more)[i] {}
    if k > 0 {
      BuiltPrefix(payload, edits, more, k - 1);
    }
  }

  /** What an address field adds to what was built before it. */
  lemma {:induction false} MarkedBuilds(payload: string, edits: seq<Edit>, start: nat, stop: nat, ip: Addr)
    requires start >= 2 && InOrder(edits + Cmd.Marked(start, stop, ip), |payload|)
    ensures InOrder(edits, |payload|) && From(edits, |edits|) <= start <= stop <= |payload|
    ensures ip.V6? ==> From(edits, |edits|) + 2 <= start
    ensures var all := edits + Cmd.Marked(start, stop, ip);
            && Built(payload, all, |all|)
               == Built(payload, edits, |edits|) + Between(payload, From(edits, |edits|), start, ip.V6?) + ip.Text()
            && From(all, |all|) == stop
  {
    hide Addr.Text, Built, InOrder;
    var all := edits + Cmd.Marked(start, stop, ip);
    var n := |edits|;
    BuiltPrefix(payload, edits, Cmd.Marked(start, stop, ip), n);
    BuiltNext(payload, all, n);
    if ip.V6? {
      assert all[n] == Edit(start - 2, start - 1, "6") && all[n + 1] == Edit(start, stop, ip.Text());
      BuiltNext(payload, all, n + 1);
      assert payload[start - 1..start] == payload[From(all, n + 1)..all[n + 1].start];
    } else {
      assert all[n] == Edit(start, stop, ip.Text());
    }
  }

  lemma {:induction false} FieldBuilds(payload: string, edits: seq<Edit>, e: Edit)
    requires InOrder(edits + [e], |payload|)
    ensures InOrder(edits, |payload|) && From(edits, |edits|) <= e.start <= e.stop <= |payload|
    ensures Built(payload, edits + [e], |edits| + 1)
            == Built(payload, edits, |edits|) + payload[From(edits, |edits|)..e.start] + e.text
    ensures From(edits + [e], |edits| + 1) == e.stop
  {
    hide Built, InOrder, From;
    var all := edits + [e];
    BuiltPrefix(payload, edits, [e], |edits|);
    assert all[|edits|] == e;
    BuiltNext(payload, all, |edits|);
    FromNext(all, |edits|);
  }

  lemma FromNext(edits: seq<Edit>, k: nat)
    requires k < |edits|
    ensures From(edits, k + 1) == edits[k].stop
  {
  }

  lemma {:induction false} ViaBuilds(payload: string, first: Edit, start0: nat, stop0: nat, start1: nat, stop1: nat,
                                     ip: Addr, last: Edit)
    requires start0 >= 2 && start1 >= 2
    requires InOrder([first] + Cmd.Marked(start0, stop0, ip) + Cmd.Marked(start1, stop1, ip) + [last], |payload|)
    ensures first.start <= first.stop <= start0 <= stop0 <= start1 <= stop1 <= last.start <= last.stop <= |payload|
    ensures ip.V6? ==> first.stop + 2 <= start0 && stop0 + 2 <= start1
    ensures Spliced(payload, [first] + Cmd.Marked(start0, stop0, ip) + Cmd.Marked(start1, stop1, ip) + [last])
            == payload[..first.start] + first.text + Between(payload, first.stop, start0, ip.V6?) + ip.Text()
               + Between(payload, stop0, start1, ip.V6?) + ip.Text()
               + payload[stop1..last.start] + last.text + payload[last.stop..]
  {
    hide Addr.Text, Built, Cmd.Marked, Between, InOrder, From;
    var m0, m1 := Cmd.Marked(start0, stop0, ip), Cmd.Marked(start1, stop1, ip);
    FieldBuilds(payload, [first] + m0 + m1, last);
    MarkedBuilds(payload, [first] + m0, start1, stop1, ip);
    MarkedBuilds(payload, [first], start0, stop0, ip);
    FirstBuilds(payload, first);
  }

  lemma FirstBuilds(payload: string, first: Edit)
    requires InOrder([first], |payload|)
    ensures first.start <= first.stop <= |payload|
    ensures Built(payload, [first], 1) == payload[..first.start] + first.text && From([first], 1) == first.stop
  {
    BuiltNothing(payload, [first]);
    BuiltNext(payload, [first], 0);
  }

  /** The via field, both addresses, and the port of a SIP packet stand where the captured ones stood; with IPv6
      the digit before each address says so. */
  lemma ViaReads(payload: string, cmd: Cmd) returns (via: string, port_via: string, t: string, port: string)
    requires cmd.ReplaceIpViaIpIpPorts? && cmd.Legal(|payload|) && cmd.ip_via.Legal() && cmd.ip.Legal()
    ensures cmd.ip_via_start <= cmd.ip_via_stop <= cmd.ip0_start <= cmd.ip0_stop <= cmd.ip1_start <= cmd.ip1_stop
    ensures cmd.ip1_stop <= cmd.port_start <= cmd.port_stop <= |payload|
    ensures cmd.ip.V6? ==> cmd.ip_via_stop + 2 <= cmd.ip0_start && cmd.ip0_stop + 2 <= cmd.ip1_start
    ensures Result(payload, cmd)
            == payload[..cmd.ip_via_start] + (via + ":" + port_via)
               + Between(payload, cmd.ip_via_stop, cmd.ip0_start, cmd.ip.V6?) + t
               + Between(payload, cmd.ip0_stop, cmd.ip1_start, cmd.ip.V6?) + t
               + payload[cmd.ip1_stop..cmd.port_start] + port + payload[cmd.port_stop..]
    ensures IsAddress(via, cmd.ip_via) && IsNumber(port_via, cmd.port_via)
    ensures IsAddress(t, cmd.ip) && IsNumber(port, cmd.port)
  {
    hide Addr.Text, Dec, Spliced, Cmd.Marked, Between, InOrder;
    via, port_via, t, port := cmd.ip_via.Text(), Dec(cmd.port_via), cmd.ip.Text(), Dec(cmd.port);
    TextIsAddress(cmd.ip_via);
    TextIsAddress(cmd.ip);
    DecIsNumber(cmd.port_via);
    DecIsNumber(cmd.port);
    ViaBuilds(payload, Edit(cmd.ip_via_start, cmd.ip_via_stop, via + ":" + port_via), cmd.ip0_start, cmd.ip0_stop,
              cmd.ip1_start, cmd.ip1_stop, cmd.ip, Edit(cmd.port_start, cmd.port_stop, port));
  }

  // ----- The programs and the room they ask for

  /** A field of `old_len` bytes, and as many bytes as its command asks for. */
  function AddressRoom(v6: bool, old_len: nat): int {
    MaxText(v6) - old_len
  }

  /** Packet 3 of the HTTP template. */
  function HttpCmd(server_ip: Addr): Cmd {
    ReplaceIp(10 + 16, 10 + 16 + 8, server_ip)
  }

  function HttpRoom(v6: bool): int {
    AddressRoom(v6, 8)
  }

  /** Where the packets of the RTSP template that carry just an address have it. */
  function RtspAddressAt(pkt: nat): nat {
    match pkt
    case 3 => 16
    case 4 => 46
    case 9 => 12
    case 12 => 15
    case 15 => 15
    case 18 => 16
    case _ => 0
  }

  function RtspCmd(pkt: nat, server_ip: Addr, rtp_client_0: nat, rtp_client_1: nat): Cmd {
    if pkt == 5 || pkt == 7 then
      ReplacePortIp(13, 13 + 9, server_ip, 164, 164 + 4 * 2 + 1, if pkt == 5 then rtp_client_0 else rtp_client_1)
    else if pkt == 6 || pkt == 8 then
      var port := if pkt == 6 then rtp_client_0 else rtp_client_1;
      ReplacePorts(247, 247 + 4 * 4 + 2 + 13, port, port)
    else
      ReplaceIp(RtspAddressAt(pkt), RtspAddressAt(pkt) + 9, server_ip)
  }

  function RtspRoom(pkt: nat, v6: bool): int {
    if pkt == 5 || pkt == 7 then AddressRoom(v6, 9) + (INET_PORTSTRLEN * 2 - 8)
    else if pkt == 6 || pkt == 8 then INET_PORTSTRLEN * 4 - 16
    else AddressRoom(v6, 9)
  }

  /** The request and the reply of the SIP template; the reply's addresses take 8 bytes in the capture. */
  function SipCmd(pkt: nat, src: Addr, src_port: nat, dst: Addr, rtp_client_0: nat): Cmd {
    if pkt == 0 then
      ReplaceIpViaIpIpPorts(208, 208 + 9 + 5, src, src_port, 377, 377 + 9, 409, 409 + 9, src, 435, 435 + 5,
                            rtp_client_0)
    else
      ReplaceIpViaIpIpPorts(207, 207 + 9 + 5, src, src_port, 370, 370 + 8, 401, 401 + 8, dst, 426, 426 + 5,
                            rtp_client_0)
  }

  function SipRoom(v6: bool): int {
    AddressRoom(v6, 9) * 3 + (INET_PORTSTRLEN * 2 - 9)
  }

  lemma FitsIff(payload: string, cmd: Cmd, room: int)
    requires cmd.Legal(|payload|) && |payload| + room >= 0
    ensures var edits := cmd.Edits();
            var growth := Growth(edits, |edits|);
            Fits(payload, cmd, |payload| + room) <==> growth <= room && From(edits, |edits|) + growth < |payload| + room
  {
    BuiltLength(payload, cmd.Edits(), |cmd.Edits()|);
    SplicedLength(payload, cmd.Edits());
  }

  lemma GrowthOfOne(e: Edit)
    ensures Growth([e], 1) == |e.text| - (e.stop - e.start)
  {
    assert Growth([e], 0) == 0;
  }

  lemma GrowthOfTwo(e: Edit, f: Edit)
    ensures Growth([e, f], 2) == |e.text| - (e.stop - e.start) + |f.text| - (f.stop - f.start)
  {
    assert Growth([e, f], 0) == 0;
    assert Growth([e, f], 1) == |e.text| - (e.stop - e.start);
  }

  /** Any address fits the HTTP packet. */
  lemma HttpFits(payload: string, server_ip: Addr)
    requires server_ip.Legal() && |payload| >= 34
    ensures HttpCmd(server_ip).Legal(|payload|)
    ensures Fits(payload, HttpCmd(server_ip), |payload| + HttpRoom(server_ip.V6?))
  {
    var cmd := HttpCmd(server_ip);
    AddrLength(server_ip);
    GrowthOfOne(cmd.Edits()[0]);
    FitsIff(payload, cmd, HttpRoom(server_ip.V6?));
  }

  /** Any address and ports fit the RTSP packets, except that a reply needs a byte behind its last port for the
      zero that ends the text, unless one of the ports is short. */
  lemma RtspFits(payload: string, pkt: nat, server_ip: Addr, rtp_client_0: uint16, rtp_client_1: uint16)
    requires pkt in {3, 4, 5, 7, 9, 12, 15, 18}
    requires server_ip.Legal() && |payload| >= (if pkt == 5 || pkt == 7 then 173 else RtspAddressAt(pkt) + 9)
    ensures RtspCmd(pkt, server_ip, rtp_client_0, rtp_client_1).Legal(|payload|)
    ensures Fits(payload, RtspCmd(pkt, server_ip, rtp_client_0, rtp_client_1), |payload| + RtspRoom(pkt, server_ip.V6?))
  {
    hide Dec, Addr.Text, Fits;
    var cmd := RtspCmd(pkt, server_ip, rtp_client_0, rtp_client_1);
    AddrLength(server_ip);
    if pkt == 5 || pkt == 7 {
      DecLength(cmd.client_port);
      DecLength(cmd.client_port + 1);
      GrowthOfTwo(cmd.Edits()[0], cmd.Edits()[1]);
    } else {
      GrowthOfOne(cmd.Edits()[0]);
    }
    FitsIff(payload, cmd, RtspRoom(pkt, server_ip.V6?));
  }

  lemma RtspReplyFitsIff(payload: string, pkt: nat, server_ip: Addr, rtp_client_0: uint16, rtp_client_1: uint16)
    requires (pkt == 6 || pkt == 8) && |payload| >= 278
    ensures var cmd := RtspCmd(pkt, server_ip, rtp_client_0, rtp_client_1);
            && cmd.Legal(|payload|)
            && |Result(payload, cmd)| <= |payload| + RtspRoom(pkt, false)
            && (Fits(payload, cmd, |payload| + RtspRoom(pkt, false))
                <==> |payload| > 278 || |Dec(cmd.client_port)| + |Dec(cmd.client_port + 1)| < 2 * INET_PORTSTRLEN)
  {
    var cmd := RtspCmd(pkt, server_ip, rtp_client_0, rtp_client_1);
    DecLength(cmd.client_port);
    DecLength(cmd.client_port + 1);
    GrowthOfOne(cmd.Edits()[0]);
    FitsIff(payload, cmd, RtspRoom(pkt, false));
    SplicedLength(payload, cmd.Edits());
  }

  lemma {:induction false} GrowthPrefix(edits: seq<Edit>, more: seq<Edit>, k: nat)
    requires k <= |edits|
    ensures Growth(edits + more, k) == Growth(edits, k)
  {
    if k > 0 {
      GrowthPrefix(edits, more, k - 1);
    }
  }

  lemma {:induction false} GrowthConcat(edits: seq<Edit>, more: seq<Edit>, k: nat)
    requires k <= |more|
    ensures Growth(edits + more, |edits| + k) == Growth(edits, |edits|) + Growth(more, k)
  {
    if k == 0 {
      GrowthPrefix(edits, more, |edits|);
    } else {
      GrowthConcat(edits, more, k - 1);
    }
  }

  lemma MarkedGrowth(start: nat, stop: nat, ip: Addr)
    requires start >= 2
    ensures var marked := Cmd.Marked(start, stop, ip);
            Growth(marked, |marked|) == |ip.Text()| - (stop - start)
  {
    if ip.V6? {
      assert Cmd.Marked(start, stop, ip) == [Edit(start - 2, start - 1, "6"), Edit(start, stop, ip.Text())];
      GrowthOfTwo(Edit(start - 2, start - 1, "6"), Edit(start, stop, ip.Text()));
    } else {
      GrowthOfOne(Edit(start, stop, ip.Text()));
    }
  }

  /** How much the SIP command adds: three addresses and two ports. */
  lemma ViaGrowth(cmd: Cmd)
    requires cmd.ReplaceIpViaIpIpPorts? && cmd.ip0_start >= 2 && cmd.ip1_start >= 2
    ensures Growth(cmd.Edits(), |cmd.Edits()|)
            == |cmd.ip_via.Text()| + 1 + |Dec(cmd.port_via)| - (cmd.ip_via_stop - cmd.ip_via_start)
               + 2 * |cmd.ip.Text()| - (cmd.ip0_stop - cmd.ip0_start) - (cmd.ip1_stop - cmd.ip1_start)
               + |Dec(cmd.port)| - (cmd.port_stop - cmd.port_start)
  {
    var via := [Edit(cmd.ip_via_start, cmd.ip_via_stop, cmd.ip_via.Text() + ":" + Dec(cmd.port_via))];
    var m0, m1 := Cmd.Marked(cmd.ip0_start, cmd.ip0_stop, cmd.ip), Cmd.Marked(cmd.ip1_start, cmd.ip1_stop, cmd.ip);
    var port := [Edit(cmd.port_start, cmd.port_stop, Dec(cmd.port))];
    GrowthOfOne(via[0]);
    GrowthOfOne(port[0]);
    MarkedGrowth(cmd.ip0_start, cmd.ip0_stop, cmd.ip);
    MarkedGrowth(cmd.ip1_start, cmd.ip1_stop, cmd.ip);
    GrowthConcat(via, m0, |m0|);
    GrowthConcat(via + m0, m1, |m1|);
    GrowthConcat(via + m0 + m1, port, 1);
    assert cmd.Edits() == via + m0 + m1 + port;
  }

  lemma SipInOrder(payload: string, pkt: nat, src: Addr, src_port: uint16, dst: Addr, rtp_client_0: uint16)
    requires pkt <= 1 && src.V6? == dst.V6? && |payload| >= (if pkt == 0 then 440 else 431)
    ensures SipCmd(pkt, src, src_port, dst, rtp_client_0).Legal(|payload|)
    ensures var edits := SipCmd(pkt, src, src_port, dst, rtp_client_0).Edits();
            From(edits, |edits|) == (if pkt == 0 then 440 else 431)
  {
  }

  /** Any addresses and ports fit both SIP packets. */
  lemma SipFits(payload: string, pkt: nat, src: Addr, src_port: uint16, dst: Addr, rtp_client_0: uint16)
    requires pkt <= 1 && src.Legal() && dst.Legal() && src.V6? == dst.V6?
    requires |payload| >= (if pkt == 0 then 440 else 431)
    ensures SipCmd(pkt, src, src_port, dst, rtp_client_0).Legal(|payload|)
    ensures Fits(payload, SipCmd(pkt, src, src_port, dst, rtp_client_0), |payload| + SipRoom(src.V6?))
  {
    var cmd := SipCmd(pkt, src, src_port, dst, rtp_client_0);
    SipInOrder(payload, pkt, src, src_port, dst, rtp_client_0);
    AddrLength(src);
    AddrLength(dst);
    DecLength(src_port);
    DecLength(rtp_client_0);
    ViaGrowth(cmd);
    FitsIff(payload, cmd, SipRoom(src.V6?));
  }
}
