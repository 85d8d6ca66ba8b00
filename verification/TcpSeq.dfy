/** Two ways to repair TCP sequence numbers after payloads have changed their size: while a flow is generated,
    with one running difference a direction, and once for all on a loaded capture.  Arithmetic is modulo 2^32
    (section 3.3 of RFC 793). */
module TcpSeq {
  import opened Basics

  /** A segment: direction, numbers, payload size. */
  datatype Segment = Segment(is_init: bool, seqnum: uint32, acknum: uint32, len: nat)

  lemma U32Adds(x: int, y: int)
    ensures U32(U32(x) + y) == U32(x + y) && U32(x + U32(y)) == U32(x + y)
  {
    assert x + y == U32(x) + y + TWO32 * (x / TWO32);
    assert x + y == x + U32(y) + TWO32 * (y / TWO32);
  }

  /** How much the payloads of direction `init` among the first n segments have grown. */
  function Growth(segments: seq<Segment>, sizes: seq<int>, n: nat, init: bool): int
    requires n <= |segments| == |sizes|
  {
    if n == 0 then 0
    else Growth(segments, sizes, n - 1, init) + (if segments[n - 1].is_init == init then sizes[n - 1] else 0)
  }

  /** Segment i as it should leave: its own stream has moved by what grew before it, and so has what it
      acknowledges. */
  function Fixed(segments: seq<Segment>, sizes: seq<int>, i: nat): Segment
    requires i < |segments| == |sizes|
  {
    var s := segments[i];
    s.(seqnum := U32(s.seqnum + Growth(segments, sizes, i, s.is_init)),
       acknum := U32(s.acknum + Growth(segments, sizes, i, !s.is_init)))
  }

  ghost predicate IsFixed(segments: seq<Segment>, sizes: seq<int>, fixed: seq<Segment>)
    requires |segments| == |sizes|
  {
    |fixed| == |segments| && forall i :: 0 <= i < |segments| ==> fixed[i] == Fixed(segments, sizes, i)
  }

  lemma U32Same(x: uint32)
    ensures U32(x) == x
  {
  }

  // ----- Online

  class CTcpSeq {
    var client_seq_delta: uint32
    var server_seq_delta: uint32

    constructor ()
      ensures client_seq_delta == 0 == server_seq_delta
    {
      client_seq_delta, server_seq_delta := 0, 0;
    }

    method Update(tcp: Segment, s_size: int16) returns (r: Segment)
      modifies this
      ensures var own := if tcp.is_init then old(client_seq_delta) else old(server_seq_delta);
              var other := if tcp.is_init then old(server_seq_delta) else old(client_seq_delta);
              r == tcp.(seqnum := U32(tcp.seqnum + own), acknum := U32(tcp.acknum + other))
      ensures client_seq_delta == (if tcp.is_init then U32(old(client_seq_delta) + s_size) else old(client_seq_delta))
      ensures server_seq_delta == (if tcp.is_init then old(server_seq_delta) else U32(old(server_seq_delta) + s_size))
    {
      if tcp.is_init {
        r := tcp.(seqnum := U32(tcp.seqnum + client_seq_delta), acknum := U32(tcp.acknum + server_seq_delta));
        client_seq_delta := U32(client_seq_delta + s_size);
      } else {
        r := tcp.(seqnum := U32(tcp.seqnum + server_seq_delta), acknum := U32(tcp.acknum + client_seq_delta));
        server_seq_delta := U32(server_seq_delta + s_size);
      }
    }
  }

  /** The segments of one flow pass through one CTcpSeq. */
  method FixOnline(segments: seq<Segment>, sizes: seq<int16>) returns (fixed: seq<Segment>)
    requires |segments| == |sizes|
    ensures IsFixed(segments, sizes, fixed)
  {
    hide U32;
    var tcp := new CTcpSeq();
    fixed := [];
    U32Same(0);
    for i := 0 to |segments|
      invariant |fixed| == i
      invariant tcp.client_seq_delta == U32(Growth(segments, sizes, i, true))
      invariant tcp.server_seq_delta == U32(Growth(segments, sizes, i, false))
      invariant forall j :: 0 <= j < i ==> fixed[j] == Fixed(segments, sizes, j)
    {
      var s := segments[i];
      U32Adds(s.seqnum, Growth(segments, sizes, i, s.is_init));
      U32Adds(s.acknum, Growth(segments, sizes, i, !s.is_init));
      U32Adds(Growth(segments, sizes, i, s.is_init), sizes[i]);
      var r := tcp.Update(s, sizes[i]);
      fixed := fixed + [r];
    }
  }

  // ----- Offline

  /** Segment i after packet pkt_id has grown by size_change. */
  function Shifted(s: Segment, o_init: bool, size_change: int): Segment {
    if s.is_init == o_init then s.(seqnum := U32(s.seqnum + size_change)) else s.(acknum := U32(s.acknum + size_change))
  }

  /** update_tcp_seq_num: everything after the changed packet is rewritten in place. */
  method UpdateTcpSeqNum(obj: array<Segment>, pkt_id: nat, size_change: int)
    requires pkt_id < obj.Length
    modifies obj
    ensures forall i :: 0 <= i <= pkt_id ==> obj[i] == old(obj[i])
    ensures forall i :: pkt_id < i < obj.Length ==>
            obj[i] == Shifted(old(obj[i]), old(obj[pkt_id].is_init), size_change)
  {
    var o_init := obj[pkt_id].is_init;
    for i := pkt_id + 1 to obj.Length
      invariant forall j :: 0 <= j <= pkt_id || i <= j < obj.Length ==> obj[j] == old(obj[j])
      invariant forall j :: pkt_id < j < i ==> obj[j] == Shifted(old(obj[j]), o_init, size_change)
    {
      if obj[i].is_init == o_init {
        obj[i] := obj[i].(seqnum := U32(obj[i].seqnum + size_change));
      } else {
        obj[i] := obj[i].(acknum := U32(obj[i].acknum + size_change));
      }
    }
  }

  /** The sizes known so far, nothing for the rest. */
  function UpTo(sizes: seq<int>, n: nat): (r: seq<int>)
    requires n <= |sizes|
    ensures |r| == |sizes|
  {
    seq(|sizes|, i requires 0 <= i < |sizes| => if i < n then sizes[i] else 0)
  }

  lemma {:induction false} GrowthOfOneMore(segments: seq<Segment>, sizes: seq<int>, k: nat, n: nat, init: bool)
    requires k < |sizes| && n <= |segments| == |sizes|
    ensures Growth(segments, UpTo(sizes, k + 1), n, init)
            == Growth(segments, UpTo(sizes, k), n, init)
               + (if k < n && segments[k].is_init == init then sizes[k] else 0)
  {
    if n > 0 {
      GrowthOfOneMore(segments, sizes, k, n - 1, init);
    }
  }

  lemma {:induction false} NoGrowth(segments: seq<Segment>, sizes: seq<int>, n: nat, init: bool)
    requires n <= |segments| == |sizes|
    ensures Growth(segments, UpTo(sizes, 0), n, init) == 0
  {
    if n > 0 {
      NoGrowth(segments, sizes, n - 1, init);
    }
  }

  /** One more changed packet shifts exactly the numbers that its growth is due to. */
  lemma ShiftIsGrowth(segments: seq<Segment>, sizes: seq<int>, k: nat, i: nat)
    requires k < |sizes| == |segments| && i < |segments|
    ensures Fixed(segments, UpTo(sizes, k + 1), i)
            == if k < i then Shifted(Fixed(segments, UpTo(sizes, k), i), segments[k].is_init, sizes[k])
               else Fixed(segments, UpTo(sizes, k), i)
  {
    hide U32, Growth;
    var s := segments[i];
    GrowthOfOneMore(segments, sizes, k, i, s.is_init);
    GrowthOfOneMore(segments, sizes, k, i, !s.is_init);
    U32Adds(s.seqnum + Growth(segments, UpTo(sizes, k), i, s.is_init), sizes[k]);
    U32Adds(s.acknum + Growth(segments, UpTo(sizes, k), i, !s.is_init), sizes[k]);
  }

  lemma NothingToFix(segments: seq<Segment>, sizes: seq<int>, i: nat)
    requires i < |segments| == |sizes|
    ensures Fixed(segments, UpTo(sizes, 0), i) == segments[i]
  {
    NoGrowth(segments, sizes, i, segments[i].is_init);
    NoGrowth(segments, sizes, i, !segments[i].is_init);
  }

  lemma FixKeepsDirections(segments: seq<Segment>, sizes: seq<int>, k: nat)
    requires |segments| == |sizes| && k <= |sizes|
    ensures forall i :: 0 <= i < |segments| ==> Fixed(segments, UpTo(sizes, k), i).is_init == segments[i].is_init
  {
  }

  lemma ShiftByNothing(s: Segment, o_init: bool)
    ensures Shifted(s, o_init, 0) == s
  {
  }

  /** update_tcp_seq_num once for every packet whose size has changed gives the same numbers as the online form. */
  method FixOffline(obj: array<Segment>, sizes: seq<int>)
    requires obj.Length == |sizes|
    modifies obj
    ensures IsFixed(old(obj[..]), sizes, obj[..])
  {
    hide U32, Growth, Fixed, Shifted;
    ghost var segments := obj[..];
    forall i | 0 <= i < obj.Length ensures obj[i] == Fixed(segments, UpTo(sizes, 0), i) {
      NothingToFix(segments, sizes, i);
    }
    for k := 0 to obj.Length
      invariant forall i :: 0 <= i < obj.Length ==> obj[i] == Fixed(segments, UpTo(sizes, k), i)
    {
      assert forall i :: 0 <= i < obj.Length ==>
        obj[i].is_init == segments[i].is_init by { FixKeepsDirections(segments, sizes, k); }
      forall i | 0 <= i < obj.Length
        ensures Fixed(segments, UpTo(sizes, k + 1), i)
                == if k < i then Shifted(Fixed(segments, UpTo(sizes, k), i), segments[k].is_init, sizes[k])
                   else Fixed(segments, UpTo(sizes, k), i)
      {
        ShiftIsGrowth(segments, sizes, k, i);
      }
      if sizes[k] != 0 {
        UpdateTcpSeqNum(obj, k, sizes[k]);
      } else {
        forall i | 0 <= i < obj.Length ensures Shifted(obj[i], segments[k].is_init, 0) == obj[i] {
          ShiftByNothing(obj[i], segments[k].is_init);
        }
      }
    }
    assert UpTo(sizes, obj.Length) == sizes;
  }

  // ----- What the repair is for

  /** Segment j follows segment i in the same direction. */
  ghost predicate NextInDirection(segments: seq<Segment>, i: nat, j: nat)
    requires i < j < |segments|
  {
    segments[i].is_init == segments[j].is_init && forall l :: i < l < j ==> segments[l].is_init != segments[i].is_init
  }

  /** The next segment of a direction starts where this one ends. */
  ghost predicate Contiguous(segments: seq<Segment>) {
    forall i, j :: 0 <= i < j < |segments| && NextInDirection(segments, i, j) ==>
      segments[j].seqnum == U32(segments[i].seqnum + segments[i].len)
  }

  /** The segments with their payloads grown. */
  function Grown(fixed: seq<Segment>, sizes: seq<int>): (r: seq<Segment>)
    requires |fixed| == |sizes| && forall i :: 0 <= i < |fixed| ==> fixed[i].len + sizes[i] >= 0
    ensures |r| == |fixed|
  {
    seq(|fixed|, i requires 0 <= i < |fixed| => fixed[i].(len := fixed[i].len + sizes[i]))
  }

  lemma {:induction false} GrowthOverGap(segments: seq<Segment>, sizes: seq<int>, i: nat, j: nat)
    requires i < j < |segments| == |sizes|
    requires forall l :: i < l < j ==> segments[l].is_init != segments[i].is_init
    ensures Growth(segments, sizes, j, segments[i].is_init)
            == Growth(segments, sizes, i, segments[i].is_init) + sizes[i]
  {
    if j > i + 1 {
      GrowthOverGap(segments, sizes, i, j - 1);
    }
  }

  /** Streams that were contiguous stay contiguous with the new sizes. */
  lemma StaysContiguous(segments: seq<Segment>, sizes: seq<int>, fixed: seq<Segment>)
    requires |segments| == |sizes| && IsFixed(segments, sizes, fixed) && Contiguous(segments)
    requires forall i :: 0 <= i < |fixed| ==> fixed[i].len + sizes[i] >= 0
    ensures Contiguous(Grown(fixed, sizes))
  {
    hide U32, Growth;
    var grown := Grown(fixed, sizes);
    forall i, j | 0 <= i < j < |grown| && NextInDirection(grown, i, j)
      ensures grown[j].seqnum == U32(grown[i].seqnum + grown[i].len)
    {
      forall l | i < l < j ensures segments[l].is_init != segments[i].is_init {
        assert grown[l].is_init == segments[l].is_init && grown[i].is_init == segments[i].is_init;
      }
      assert NextInDirection(segments, i, j);
      GrowthOverGap(segments, sizes, i, j);
      MovesAlong(segments[i].seqnum, segments[i].len, Growth(segments, sizes, i, segments[i].is_init), sizes[i]);
    }
  }

  lemma MovesAlong(seqnum: uint32, len: nat, growth: int, size: int)
    ensures U32(U32(seqnum + len) + (growth + size)) == U32(U32(seqnum + growth) + (len + size))
  {
    U32Adds(seqnum + len, growth + size);
    U32Adds(seqnum + growth, len + size);
  }

  /** A segment that acknowledged everything the other side had sent still does. */
  lemma StillAcknowledges(segments: seq<Segment>, sizes: seq<int>, fixed: seq<Segment>, i: nat, j: nat)
    requires |segments| == |sizes| && IsFixed(segments, sizes, fixed) && i < j < |segments|
    requires segments[j].is_init != segments[i].is_init
    requires forall l :: i < l < j ==> segments[l].is_init != segments[i].is_init
    requires fixed[i].len + sizes[i] >= 0
    requires segments[j].acknum == U32(segments[i].seqnum + segments[i].len)
    ensures fixed[j].acknum == U32(fixed[i].seqnum + fixed[i].len + sizes[i])
  {
    hide U32, Growth;
    GrowthOverGap(segments, sizes, i, j);
    MovesAlong(segments[i].seqnum, segments[i].len, Growth(segments, sizes, i, segments[i].is_init), sizes[i]);
  }
}
