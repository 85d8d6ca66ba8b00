/** No false alarms: traffic numbered per flow and direction, delivered without loss, each numbered stream in
    order and with no gap longer than the aging time, leaves the RX checker without a single error. */
module RxEndToEnd {
  import opened RxFlow
  import opened Basics
  import opened RxCheck

  datatype Arrival = Arrival(h: Header, time: real)

  /** The packets of one direction of one flow, in order. */
  ghost function Stream(arrivals: seq<Arrival>, k: uint64, d: bit): seq<Header> {
    if arrivals == [] then []
    else
      var h := arrivals[|arrivals| - 1].h;
      Stream(arrivals[..|arrivals| - 1], k, d) + (if h.m_flow_id == k && h.dir == d then [h] else [])
  }

  ghost predicate BothWays(arrivals: seq<Arrival>, k: uint64) {
    Stream(arrivals, k, 0) != [] && Stream(arrivals, k, 1) != []
  }

  /** Packet j of a stream of n carries id j and size n, and says whether its flow goes both ways. */
  ghost predicate StreamNumbered(s: seq<Header>, both_dir: bool) {
    |s| < 0x1_0000 &&
    forall j :: 0 <= j < |s| ==>
      s[j].m_magic == RX_CHECK_MAGIC && s[j].m_pkt_id == j && s[j].m_flow_size == |s| && s[j].both_dir == both_dir
  }

  ghost predicate Numbered(arrivals: seq<Arrival>) {
    forall k: uint64, d: bit :: StreamNumbered(Stream(arrivals, k, d), BothWays(arrivals, k))
  }

  ghost predicate SameFlowNext(arrivals: seq<Arrival>, i: int, j: int)
    requires 0 <= i < j < |arrivals|
  {
    && arrivals[i].h.m_flow_id == arrivals[j].h.m_flow_id
    && forall l :: i < l < j ==> arrivals[l].h.m_flow_id != arrivals[i].h.m_flow_id
  }

  /** Time does not go back, and the next packet of a flow arrives before the flow is given up. */
  ghost predicate InTime(arrivals: seq<Arrival>) {
    && (forall i :: 0 <= i < |arrivals| ==> arrivals[i].time >= 0.0)
    && (forall i, j :: 0 <= i < j < |arrivals| ==> arrivals[i].time <= arrivals[j].time)
    && (forall i, j :: 0 <= i < j < |arrivals| && SameFlowNext(arrivals, i, j) ==>
          arrivals[j].time <= arrivals[i].time + AgingDelay(arrivals[i].h))
  }

  /** The states of the checker while it handles the arrivals one after the other. */
  ghost predicate IsRun(arrivals: seq<Arrival>, views: seq<View>) {
    && |views| == |arrivals| + 1
    && views[0] == IDLE
    && forall i :: 0 <= i < |arrivals| ==> PacketStep(views[i], arrivals[i].h, arrivals[i].time, views[i + 1])
  }

  // ----- Streams and their prefixes

  ghost function Seen(arrivals: seq<Arrival>, i: nat, k: uint64, d: bit): nat
    requires i <= |arrivals|
  {
    |Stream(arrivals[..i], k, d)|
  }

  lemma SeenNext(arrivals: seq<Arrival>, i: nat, k: uint64, d: bit)
    requires i < |arrivals|
    ensures Seen(arrivals, i + 1, k, d)
            == Seen(arrivals, i, k, d) + (if arrivals[i].h.m_flow_id == k && arrivals[i].h.dir == d then 1 else 0)
  {
    assert arrivals[..i + 1][..i] == arrivals[..i];
  }

  /** A prefix of the arrivals holds a prefix of each stream. */
  lemma {:induction false} StreamOfPrefix(arrivals: seq<Arrival>, i: nat, k: uint64, d: bit)
    requires i <= |arrivals|
    ensures Stream(arrivals[..i], k, d) <= Stream(arrivals, k, d)
  {
    if i == |arrivals| {
      assert arrivals[..i] == arrivals;
    } else {
      assert arrivals[..|arrivals| - 1][..i] == arrivals[..i];
      StreamOfPrefix(arrivals[..|arrivals| - 1], i, k, d);
    }
  }

  /** Arrival i is packet number Seen(i) of its stream. */
  lemma ArrivalInStream(arrivals: seq<Arrival>, i: nat)
    requires i < |arrivals|
    ensures var h := arrivals[i].h;
            var s := Stream(arrivals, h.m_flow_id, h.dir);
            var n := Seen(arrivals, i, h.m_flow_id, h.dir);
            n < |s| && s[n] == h
  {
    var h := arrivals[i].h;
    assert arrivals[..i + 1][..i] == arrivals[..i];
    StreamOfPrefix(arrivals, i + 1, h.m_flow_id, h.dir);
  }

  /** A stream that is not complete has a packet still to come. */
  lemma {:induction false} StillToCome(arrivals: seq<Arrival>, i: nat, k: uint64, d: bit) returns (j: nat)
    requires i <= |arrivals| && Seen(arrivals, i, k, d) < |Stream(arrivals, k, d)|
    ensures i <= j < |arrivals| && arrivals[j].h.m_flow_id == k
    ensures forall l :: i <= l < j ==> arrivals[l].h.m_flow_id != k
    decreases |arrivals| - i
  {
    assert arrivals[..|arrivals|] == arrivals;
    if arrivals[i].h.m_flow_id == k {
      j := i;
    } else {
      SeenNext(arrivals, i, k, d);
      j := StillToCome(arrivals, i + 1, k, d);
    }
  }

  // ----- What the checker should hold after i arrivals

  function InOrder(seen: nat, size: nat): PerDir
    requires seen <= size < 0x1_0000
  {
    if seen == 0 then NOTHING_SEEN else PerDir(size, seen, seen, true)
  }

  /** The record of a flow of which seen0 of size0 and seen1 of size1 packets have arrived, in order. */
  function Progress(seen0: nat, size0: nat, seen1: nat, size1: nat): Option<Flow>
    requires seen0 <= size0 < 0x1_0000 && seen1 <= size1 < 0x1_0000
  {
    if (seen0 == 0 && seen1 == 0) || (seen0 == size0 && seen1 == size1) then None
    else Some(Flow(InOrder(seen0, size0), InOrder(seen1, size1), 0, size0 > 0 && size1 > 0))
  }

  /** One more packet of a flow in progress raises no error, and completes it exactly when it is the last
      one still missing. */
  lemma ProgressStep(seen: nat, size: nat, seen': nat, size': nat, h: Header)
    requires seen < size < 0x1_0000 && seen' <= size' < 0x1_0000
    requires h.m_magic == RX_CHECK_MAGIC && h.m_pkt_id == seen && h.m_flow_size == size
    requires h.both_dir == (size' > 0)
    ensures h.Accepted()
    ensures var lf := if h.dir == 0 then Progress(seen, size, seen', size') else Progress(seen', size', seen, size);
            var next := if h.dir == 0 then Progress(seen + 1, size, seen', size')
                        else Progress(seen', size', seen + 1, size);
            var f := Receive(lf, h);
            && Errors(lf, h) == []
            && (if f.IsAllPktsSeen() then next == None && f.TotalExpected() == f.TotalSeen() else next == Some(f))
  {
  }

  ghost function Size(arrivals: seq<Arrival>, k: uint64, d: bit): nat {
    |Stream(arrivals, k, d)|
  }

  lemma SeenAtMostSize(arrivals: seq<Arrival>, i: nat, k: uint64, d: bit)
    requires i <= |arrivals|
    ensures Seen(arrivals, i, k, d) <= Size(arrivals, k, d)
  {
    StreamOfPrefix(arrivals, i, k, d);
  }

  ghost function Expected(arrivals: seq<Arrival>, i: nat, k: uint64): Option<Flow>
    requires i <= |arrivals| && Numbered(arrivals)
  {
    SeenAtMostSize(arrivals, i, k, 0);
    SeenAtMostSize(arrivals, i, k, 1);
    assert StreamNumbered(Stream(arrivals, k, 0), BothWays(arrivals, k));
    assert StreamNumbered(Stream(arrivals, k, 1), BothWays(arrivals, k));
    Progress(Seen(arrivals, i, k, 0), Size(arrivals, k, 0), Seen(arrivals, i, k, 1), Size(arrivals, k, 1))
  }

  lemma ExpectedStep(arrivals: seq<Arrival>, i: nat)
    requires i < |arrivals| && Numbered(arrivals)
    ensures var h := arrivals[i].h;
            var lf := Expected(arrivals, i, h.m_flow_id);
            var next := Expected(arrivals, i + 1, h.m_flow_id);
            && h.Accepted()
            && Errors(lf, h) == []
            && var f := Receive(lf, h);
               if f.IsAllPktsSeen() then next == None && f.TotalExpected() == f.TotalSeen() else next == Some(f)
  {
    hide Errors, Receive, Flow.IsAllPktsSeen, Flow.TotalExpected, Flow.TotalSeen;
    var h := arrivals[i].h;
    var k, d := h.m_flow_id, h.dir;
    ArrivalInStream(arrivals, i);
    assert StreamNumbered(Stream(arrivals, k, d), BothWays(arrivals, k));
    assert StreamNumbered(Stream(arrivals, k, 1 - d), BothWays(arrivals, k));
    SeenNext(arrivals, i, k, d);
    SeenNext(arrivals, i, k, 1 - d);
    SeenAtMostSize(arrivals, i, k, 1 - d);
    ProgressStep(Seen(arrivals, i, k, d), Size(arrivals, k, d), Seen(arrivals, i, k, 1 - d), Size(arrivals, k, 1 - d),
                 h);
  }

  lemma ExpectedElsewhere(arrivals: seq<Arrival>, i: nat, k: uint64)
    requires i < |arrivals| && Numbered(arrivals) && arrivals[i].h.m_flow_id != k
    ensures Expected(arrivals, i + 1, k) == Expected(arrivals, i, k)
  {
    SeenNext(arrivals, i, k, 0);
    SeenNext(arrivals, i, k, 1);
  }

  lemma ExpectedFirst(arrivals: seq<Arrival>, k: uint64)
    requires Numbered(arrivals)
    ensures Expected(arrivals, 0, k) == None
  {
    assert arrivals[..0] == [];
  }

  lemma ExpectedLast(arrivals: seq<Arrival>, k: uint64)
    requires Numbered(arrivals)
    ensures Expected(arrivals, |arrivals|, k) == None
  {
    assert arrivals[..|arrivals|] == arrivals;
  }

  // ----- The checker holds just that

  ghost function Keys(arrivals: seq<Arrival>, i: nat): set<uint64>
    requires i <= |arrivals|
  {
    set l | 0 <= l < i :: arrivals[l].h.m_flow_id
  }

  /** Arrival p is the last of flow k among the first i. */
  ghost predicate IsLatest(arrivals: seq<Arrival>, i: nat, k: uint64, p: nat)
    requires i <= |arrivals|
  {
    && p < i && arrivals[p].h.m_flow_id == k
    && forall l :: p < l < i ==> arrivals[l].h.m_flow_id != k
  }

  ghost predicate DueByLatest(arrivals: seq<Arrival>, i: nat, k: uint64, due: real)
    requires i <= |arrivals|
  {
    exists p: nat :: IsLatest(arrivals, i, k, p) && due == arrivals[p].time + AgingDelay(arrivals[p].h)
  }

  ghost predicate AllDueByLatest(arrivals: seq<Arrival>, i: nat, due: map<uint64, real>)
    requires i <= |arrivals|
  {
    forall k :: k in due ==> DueByLatest(arrivals, i, k, due[k])
  }

  ghost predicate OnTrack(arrivals: seq<Arrival>, i: nat, v: View)
    requires i <= |arrivals| && Numbered(arrivals)
  {
    && v.Consistent()
    && v.stats.TotalErr() == 0
    && v.stats.m_add == |Keys(arrivals, i)|
    && (forall k: uint64 :: v.Lookup(k) == Expected(arrivals, i, k))
    && AllDueByLatest(arrivals, i, v.due)
  }

  lemma NotComplete(arrivals: seq<Arrival>, i: nat, k: uint64) returns (j: nat)
    requires i <= |arrivals| && Numbered(arrivals) && Expected(arrivals, i, k) != None
    ensures i <= j < |arrivals| && arrivals[j].h.m_flow_id == k
    ensures forall l :: i <= l < j ==> arrivals[l].h.m_flow_id != k
  {
    SeenAtMostSize(arrivals, i, k, 0);
    SeenAtMostSize(arrivals, i, k, 1);
    j := StillToCome(arrivals, i, k, if Seen(arrivals, i, k, 0) < Size(arrivals, k, 0) then 0 else 1);
  }

  /** A flow in the table has a packet to come, in time. */
  lemma NotYetDue(arrivals: seq<Arrival>, i: nat, v: View, k: uint64)
    requires i < |arrivals| && Numbered(arrivals) && InTime(arrivals)
    requires OnTrack(arrivals, i + 1, v) && k in v.due
    ensures v.due[k] >= arrivals[i].time
  {
    hide Numbered, Expected, Stats.TotalErr, AgingDelay, Keys;
    assert v.Lookup(k) == Expected(arrivals, i + 1, k);
    var j := NotComplete(arrivals, i + 1, k);
    assert DueByLatest(arrivals, i + 1, k, v.due[k]);
    var p: nat :| IsLatest(arrivals, i + 1, k, p) && v.due[k] == arrivals[p].time + AgingDelay(arrivals[p].h);
    assert SameFlowNext(arrivals, p, j);
  }

  lemma Member(order: seq<uint64>) returns (k: uint64)
    requires order != []
    ensures k in order
  {
    k := order[0];
  }

  lemma SweptNothing(v: View, now: real, w: View)
    requires v.Consistent() && NothingDueBefore(v, now) && Swept(v, now, w)
    ensures w == v
  {
    if v.stats.m_lookup % 256 == 0 {
      var order :| Selects(order, v) && GaveUpWhatWasDue(v, order, now) && w == GivenUp(v, order, false);
      if order != [] {
        var k := Member(order);
        assert false;
      }
    }
  }

  lemma NewKey(arrivals: seq<Arrival>, i: nat)
    requires i < |arrivals|
    ensures Keys(arrivals, i + 1) == Keys(arrivals, i) + {arrivals[i].h.m_flow_id}
    ensures |Keys(arrivals, i + 1)|
            == |Keys(arrivals, i)| + (if arrivals[i].h.m_flow_id in Keys(arrivals, i) then 0 else 1)
  {
    assert arrivals[i].h.m_flow_id in Keys(arrivals, i + 1);
    assert Keys(arrivals, i + 1) == Keys(arrivals, i) + {arrivals[i].h.m_flow_id};
    if arrivals[i].h.m_flow_id in Keys(arrivals, i) {
      assert Keys(arrivals, i + 1) == Keys(arrivals, i);
    }
  }

  /** A flow is opened by its first packet and by no other. */
  lemma {:induction false} SeenMeansKey(arrivals: seq<Arrival>, i: nat, k: uint64)
    requires i <= |arrivals|
    ensures k in Keys(arrivals, i) <==> Seen(arrivals, i, k, 0) + Seen(arrivals, i, k, 1) > 0
  {
    if i == 0 {
      assert arrivals[..0] == [];
    } else {
      SeenMeansKey(arrivals, i - 1, k);
      NewKey(arrivals, i - 1);
      SeenNext(arrivals, i - 1, k, 0);
      SeenNext(arrivals, i - 1, k, 1);
    }
  }

  lemma OpenedByFirst(arrivals: seq<Arrival>, i: nat)
    requires i < |arrivals| && Numbered(arrivals)
    ensures Expected(arrivals, i, arrivals[i].h.m_flow_id) == None
            <==> arrivals[i].h.m_flow_id !in Keys(arrivals, i)
  {
    var h := arrivals[i].h;
    SeenMeansKey(arrivals, i, h.m_flow_id);
    ArrivalInStream(arrivals, i);
    SeenAtMostSize(arrivals, i, h.m_flow_id, 1 - h.dir);
  }

  lemma LatestNext(arrivals: seq<Arrival>, i: nat, k: uint64, due: real)
    requires i < |arrivals| && DueByLatest(arrivals, i, k, due) && arrivals[i].h.m_flow_id != k
    ensures DueByLatest(arrivals, i + 1, k, due)
  {
    var p: nat :| IsLatest(arrivals, i, k, p) && due == arrivals[p].time + AgingDelay(arrivals[p].h);
    assert IsLatest(arrivals, i + 1, k, p);
  }

  lemma LatestIsNew(arrivals: seq<Arrival>, i: nat)
    requires i < |arrivals|
    ensures DueByLatest(arrivals, i + 1, arrivals[i].h.m_flow_id, arrivals[i].time + AgingDelay(arrivals[i].h))
  {
    assert IsLatest(arrivals, i + 1, arrivals[i].h.m_flow_id, i);
  }

  function Handled(v: View, h: Header, now: real): View
    requires h.Accepted()
  {
    v.Admitted(h, now).Retired(h.m_flow_id)
  }

  /** What a packet without error does to the counters and to the flows. */
  lemma HandledCleanly(v: View, h: Header, now: real)
    requires v.Consistent() && h.Accepted()
    requires var lf := v.Lookup(h.m_flow_id);
             var f := Receive(lf, h);
             Errors(lf, h) == [] && (f.IsAllPktsSeen() ==> f.TotalExpected() == f.TotalSeen())
    ensures Handled(v, h, now).Consistent()
    ensures Handled(v, h, now).stats.TotalErr() == v.stats.TotalErr()
    ensures Handled(v, h, now).stats.m_add == v.stats.m_add + (if v.Lookup(h.m_flow_id) == None then 1 else 0)
  {
    AdmittedIsConsistent(v, h, now);
    var a := v.Admitted(h, now);
    if a.table[h.m_flow_id].IsAllPktsSeen() {
      WithoutIsConsistent(a, h.m_flow_id, true, false);
    }
  }

  lemma HandledFlows(v: View, h: Header, now: real)
    requires h.Accepted()
    ensures var k := h.m_flow_id;
            var f := Receive(v.Lookup(k), h);
            var w := Handled(v, h, now);
            && w.Lookup(k) == (if f.IsAllPktsSeen() then None else Some(f))
            && (k in w.due ==> w.due[k] == now + AgingDelay(h))
            && forall j: uint64 :: j != k ==>
                 w.Lookup(j) == v.Lookup(j) && (j in w.due <==> j in v.due) && (j in w.due ==> w.due[j] == v.due[j])
  {
  }

  /** An arrival keeps the checker on track. */
  lemma HandledOnTrack(arrivals: seq<Arrival>, i: nat, v: View)
    requires i < |arrivals| && Numbered(arrivals) && OnTrack(arrivals, i, v)
    ensures arrivals[i].h.Accepted()
    ensures OnTrack(arrivals, i + 1, Handled(v, arrivals[i].h, arrivals[i].time))
  {
    hide View.Consistent, View.Admitted, Handled, Expected, Errors, Receive, Stats.TotalErr, Numbered, Keys, IsLatest,
      Flow.IsAllPktsSeen, Flow.TotalExpected, Flow.TotalSeen, View.Lookup, Header.Accepted;
    var h := arrivals[i].h;
    var k := h.m_flow_id;
    ExpectedStep(arrivals, i);
    assert v.Lookup(k) == Expected(arrivals, i, k);
    var w := Handled(v, h, arrivals[i].time);
    HandledCleanly(v, h, arrivals[i].time);
    HandledFlows(v, h, arrivals[i].time);
    OpenedByFirst(arrivals, i);
    NewKey(arrivals, i);
    forall j: uint64 ensures w.Lookup(j) == Expected(arrivals, i + 1, j) {
      if j != k {
        ExpectedElsewhere(arrivals, i, j);
        assert v.Lookup(j) == Expected(arrivals, i, j);
      }
    }
    forall j | j in w.due ensures DueByLatest(arrivals, i + 1, j, w.due[j]) {
      if j == k {
        LatestIsNew(arrivals, i);
      } else {
        LatestNext(arrivals, i, j, v.due[j]);
      }
    }
    assert w.stats.TotalErr() == 0 && w.Consistent();
    assert w.stats.m_add == |Keys(arrivals, i + 1)|;
  }

  lemma StepOnTrack(arrivals: seq<Arrival>, i: nat, v: View, w: View)
    requires i < |arrivals| && Numbered(arrivals) && InTime(arrivals) && OnTrack(arrivals, i, v)
    requires PacketStep(v, arrivals[i].h, arrivals[i].time, w)
    ensures OnTrack(arrivals, i + 1, w)
  {
    HandledOnTrack(arrivals, i, v);
    var r := Handled(v, arrivals[i].h, arrivals[i].time);
    forall k | k in r.due ensures r.due[k] >= arrivals[i].time {
      NotYetDue(arrivals, i, r, k);
    }
    SweptNothing(r, arrivals[i].time, w);
  }

  const IDLE := View(map[], map[], NO_STATS)

  lemma IdleExpectsNothing(arrivals: seq<Arrival>)
    requires Numbered(arrivals)
    ensures forall k: uint64 :: IDLE.Lookup(k) == Expected(arrivals, 0, k)
  {
    hide Numbered, Expected;
    forall k: uint64 ensures IDLE.Lookup(k) == Expected(arrivals, 0, k) {
      ExpectedFirst(arrivals, k);
    }
  }

  lemma IdleCounts(arrivals: seq<Arrival>)
    ensures IDLE.Consistent() && IDLE.stats.TotalErr() == 0
    ensures IDLE.stats.m_add == |Keys(arrivals, 0)|
  {
    assert Keys(arrivals, 0) == {};
  }

  lemma NothingIsDue(arrivals: seq<Arrival>, due: map<uint64, real>)
    requires due == map[]
    ensures AllDueByLatest(arrivals, 0, due)
  {
  }

  lemma StartOnTrack(arrivals: seq<Arrival>)
    requires Numbered(arrivals)
    ensures OnTrack(arrivals, 0, IDLE)
  {
    hide Numbered, Expected, AllDueByLatest, View.Consistent, View.Lookup, Stats.TotalErr, Keys;
    IdleExpectsNothing(arrivals);
    IdleCounts(arrivals);
    NothingIsDue(arrivals, IDLE.due);
  }

  lemma {:induction false} RunOnTrack(arrivals: seq<Arrival>, views: seq<View>, i: nat)
    requires Numbered(arrivals) && InTime(arrivals) && IsRun(arrivals, views)
    requires i <= |arrivals|
    ensures OnTrack(arrivals, i, views[i])
  {
    hide Numbered, InTime, OnTrack, PacketStep;
    if i == 0 {
      StartOnTrack(arrivals);
    } else {
      RunOnTrack(arrivals, views, i - 1);
      StepOnTrack(arrivals, i - 1, views[i - 1], views[i]);
    }
  }

  lemma NoErrorOnTrack(arrivals: seq<Arrival>, i: nat, v: View)
    requires i <= |arrivals| && Numbered(arrivals) && OnTrack(arrivals, i, v)
    ensures v.stats.TotalErr() == 0
  {
  }

  lemma DoneOnTrack(arrivals: seq<Arrival>, v: View)
    requires Numbered(arrivals) && OnTrack(arrivals, |arrivals|, v)
    ensures v.table == map[] && v.due == map[]
    ensures v.stats.m_add == v.stats.m_remove == |Keys(arrivals, |arrivals|)|
  {
    forall k: uint64 ensures k !in v.table {
      ExpectedLast(arrivals, k);
      assert v.Lookup(k) == Expected(arrivals, |arrivals|, k);
    }
    assert v.table == map[];
  }

  /** Whatever the interleaving of flows and directions, no error counter ever moves, and in the end every
      flow has been added once, removed once, and none is left. */
  lemma NoFalseAlarms(arrivals: seq<Arrival>, views: seq<View>)
    requires Numbered(arrivals) && InTime(arrivals) && IsRun(arrivals, views)
    ensures forall i :: 0 <= i <= |arrivals| ==> views[i].stats.TotalErr() == 0
    ensures var last := views[|arrivals|];
            && last.table == map[] && last.due == map[]
            && last.stats.m_add == last.stats.m_remove == |Keys(arrivals, |arrivals|)|
  {
    hide Numbered, InTime, OnTrack, PacketStep, Keys, Stats.TotalErr;
    forall i | 0 <= i <= |arrivals| ensures views[i].stats.TotalErr() == 0 {
      RunOnTrack(arrivals, views, i);
      NoErrorOnTrack(arrivals, i, views[i]);
    }
    RunOnTrack(arrivals, views, |arrivals|);
    DoneOnTrack(arrivals, views[|arrivals|]);
  }

  // ----- Any run at all: what a flow that is retired as complete has received

  /** The packets that the open flow k has received since it was opened. */
  ghost function History(arrivals: seq<Arrival>, views: seq<View>, i: nat, k: uint64): (history: seq<Header>)
    requires i <= |arrivals| && |views| == |arrivals| + 1
    ensures AllAccepted(history)
  {
    if i == 0 || k !in views[i].table then []
    else
      var h := arrivals[i - 1].h;
      History(arrivals, views, i - 1, k) + (if h.Accepted() && h.m_flow_id == k then [h] else [])
  }

  lemma StepOfFlow(v: View, h: Header, now: real, w: View, k: uint64)
    requires PacketStep(v, h, now, w) && k in w.table
    ensures w.Lookup(k) == (if h.Accepted() && h.m_flow_id == k then Some(Receive(v.Lookup(k), h)) else v.Lookup(k))
  {
    hide Receive, Errors, Flow.IsAllPktsSeen;
    if h.Accepted() {
      SweptKeeps(Handled(v, h, now), now, w, k);
      HandledFlows(v, h, now);
    }
  }

  lemma SweptKeeps(v: View, now: real, w: View, k: uint64)
    requires Swept(v, now, w) && k in w.table
    ensures w.Lookup(k) == v.Lookup(k)
  {
    if v.stats.m_lookup % 256 == 0 {
      var order :| Selects(order, v) && GaveUpWhatWasDue(v, order, now) && w == GivenUp(v, order, false);
    }
  }

  lemma SweptAddsNothing(v: View, now: real, w: View, k: uint64)
    requires Swept(v, now, w) && k !in v.table
    ensures k !in w.table
  {
    if v.stats.m_lookup % 256 == 0 {
      var order :| Selects(order, v) && GaveUpWhatWasDue(v, order, now) && w == GivenUp(v, order, false);
    }
  }

  /** The record of an open flow is a function of its own packets, whatever the other flows do. */
  lemma {:induction false} RecordIsOfOwnPackets(arrivals: seq<Arrival>, views: seq<View>, i: nat, k: uint64)
    requires IsRun(arrivals, views) && i <= |arrivals|
    ensures views[i].Lookup(k) == FlowAfter(History(arrivals, views, i, k))
  {
    hide Receive, Errors, PacketStep, Header.Accepted;
    if i > 0 && k in views[i].table {
      var h := arrivals[i - 1].h;
      RecordIsOfOwnPackets(arrivals, views, i - 1, k);
      StepOfFlow(views[i - 1], h, arrivals[i - 1].time, views[i], k);
      var before := History(arrivals, views, i - 1, k);
      assert before + [] == before;
      if h.Accepted() && h.m_flow_id == k {
        Snoc(before, h);
      }
    }
  }

  /** Giving flows up counts no sequence error. */
  lemma {:induction false} GivenUpSequenceErr(v: View, order: seq<uint64>, on_drain: bool)
    requires Selects(order, v)
    ensures GivenUp(v, order, on_drain).stats.SequenceErr() == v.stats.SequenceErr()
  {
    if order != [] {
      GivenUpSequenceErr(v, order[..|order| - 1], on_drain);
    }
  }

  lemma HandledSequenceErr(v: View, h: Header, now: real)
    requires h.Accepted()
    ensures Handled(v, h, now).stats.SequenceErr()
            == v.stats.SequenceErr() + SequenceErrorsIn(Errors(v.Lookup(h.m_flow_id), h))
  {
    hide Errors, Receive, Flow.IsAllPktsSeen, Stats.CountErrors, SequenceErrorsIn;
    var lf := v.Lookup(h.m_flow_id);
    var counted := v.stats.LookedUp();
    var known := if lf.Some? then counted.(m_found := counted.m_found + 1) else counted.Opened(h.m_pkt_id == 0);
    CountErrorsSequence(known, Errors(lf, h));
  }

  lemma StepSequenceErr(v: View, h: Header, now: real, w: View)
    requires PacketStep(v, h, now, w)
    ensures w.stats.SequenceErr()
            == v.stats.SequenceErr() + (if h.Accepted() then SequenceErrorsIn(Errors(v.Lookup(h.m_flow_id), h)) else 0)
  {
    hide Errors, Receive, Flow.IsAllPktsSeen;
    if h.Accepted() {
      var r := Handled(v, h, now);
      HandledSequenceErr(v, h, now);
      StepIsSwept(v, h, now, w);
      if r.stats.m_lookup % 256 == 0 {
        var order :| Selects(order, r) && GaveUpWhatWasDue(r, order, now) && w == GivenUp(r, order, false);
        GivenUpSequenceErr(r, order, false);
      }
    }
  }

  /** The sequence errors of any one open flow are among those the checker has counted. */
  lemma {:induction false} SequenceErrorsAreCounted(arrivals: seq<Arrival>, views: seq<View>, i: nat, k: uint64)
    requires IsRun(arrivals, views) && i <= |arrivals|
    ensures SequenceErrors(History(arrivals, views, i, k)) <= views[i].stats.SequenceErr()
  {
    hide PacketStep, Errors, Receive, Stats.SequenceErr, Header.Accepted;
    if i > 0 {
      var h := arrivals[i - 1].h;
      SequenceErrorsAreCounted(arrivals, views, i - 1, k);
      StepSequenceErr(views[i - 1], h, arrivals[i - 1].time, views[i]);
      if k in views[i].table {
        var before := History(arrivals, views, i - 1, k);
        assert before + [] == before;
        if h.Accepted() && h.m_flow_id == k {
          RecordIsOfOwnPackets(arrivals, views, i - 1, k);
          SnocSequence(before, h);
        }
      }
    }
  }

  lemma SnocSequence(history: seq<Header>, h: Header)
    requires AllAccepted(history) && h.Accepted()
    ensures AllAccepted(history + [h])
    ensures SequenceErrors(history + [h]) == SequenceErrors(history) + SequenceErrorsIn(Errors(FlowAfter(history), h))
  {
    assert (history + [h])[..|history|] == history;
  }

  /** In every run, a packet that completes its flow retires it.  Unless the network duplicated one of its
      packets, the flow has then received everything in order exactly if none of them was a sequence error,
      and with steady sizes exactly if the error counter did not go round. */
  lemma RetiredFlowsAreComplete(arrivals: seq<Arrival>, views: seq<View>, i: nat)
    requires IsRun(arrivals, views) && i < |arrivals|
    requires arrivals[i].h.Accepted()
    requires Receive(views[i].Lookup(arrivals[i].h.m_flow_id), arrivals[i].h).IsAllPktsSeen()
    ensures arrivals[i].h.m_flow_id !in views[i + 1].table
    ensures var received := History(arrivals, views, i, arrivals[i].h.m_flow_id) + [arrivals[i].h];
            && AllAccepted(received)
            && SequenceErrors(received) <= views[i + 1].stats.SequenceErr()
            && (NoDuplicates(received) ==>
                  && (ArrivedInOrder(received) <==> SequenceErrors(received) == 0)
                  && (SteadySizes(received) ==> (ArrivedInOrder(received) <==> ErrorCount(received) < 0x1_0000))
                  && (ErrorCount(received) < 0x1_0000 ==> ArrivedInOrder(received)))
  {
    hide PacketStep, Receive, Errors, Flow.IsAllPktsSeen, NoDuplicates, ArrivedInOrder, SteadySizes, Stats.SequenceErr;
    var h := arrivals[i].h;
    var k := h.m_flow_id;
    HandledFlows(views[i], h, arrivals[i].time);
    StepIsSwept(views[i], h, arrivals[i].time, views[i + 1]);
    SweptAddsNothing(Handled(views[i], h, arrivals[i].time), arrivals[i].time, views[i + 1], k);
    RecordIsOfOwnPackets(arrivals, views, i, k);
    var before := History(arrivals, views, i, k);
    Snoc(before, h);
    SequenceErrorsAreCounted(arrivals, views, i, k);
    StepSequenceErr(views[i], h, arrivals[i].time, views[i + 1]);
    SnocSequence(before, h);
    if NoDuplicates(before + [h]) {
      CompletionIsSound(before + [h]);
    }
  }

  /** What the record of a flow is made of has arrived under its key. */
  lemma {:induction false} HistoryIsOfArrivals(arrivals: seq<Arrival>, views: seq<View>, i: nat, k: uint64, n: nat)
    returns (j: nat)
    requires i <= |arrivals| && |views| == |arrivals| + 1 && n < |History(arrivals, views, i, k)|
    ensures j < i && arrivals[j].h == History(arrivals, views, i, k)[n] && arrivals[j].h.m_flow_id == k
  {
    if n < |History(arrivals, views, i - 1, k)| {
      j := HistoryIsOfArrivals(arrivals, views, i - 1, k, n);
    } else {
      j := i - 1;
    }
  }

  /** All packets that arrive under key k announce these sizes. */
  ghost predicate AnnouncesFor(arrivals: seq<Arrival>, k: uint64, s0: uint16, s1: uint16) {
    forall j :: 0 <= j < |arrivals| && arrivals[j].h.m_flow_id == k ==>
      arrivals[j].h.m_flow_size == if arrivals[j].h.dir == 0 then s0 else s1
  }

  /** A flow that announces no more than 65536 packets in both directions and is retired without duplicates came
      in order, whatever the network lost, delayed or reordered. */
  lemma {:induction false} SmallFlowsRetireInOrder(arrivals: seq<Arrival>, views: seq<View>, i: nat, s0: uint16,
                                                   s1: uint16)
    requires IsRun(arrivals, views) && i < |arrivals|
    requires arrivals[i].h.Accepted()
    requires Receive(views[i].Lookup(arrivals[i].h.m_flow_id), arrivals[i].h).IsAllPktsSeen()
    requires AnnouncesFor(arrivals, arrivals[i].h.m_flow_id, s0, s1) && s0 + s1 <= 0x1_0000
    ensures var received := History(arrivals, views, i, arrivals[i].h.m_flow_id) + [arrivals[i].h];
            AllAccepted(received) && (NoDuplicates(received) ==> ArrivedInOrder(received))
  {
    hide PacketStep, Receive, Errors, Flow.IsAllPktsSeen, NoDuplicates, ArrivedInOrder;
    var h := arrivals[i].h;
    var before := History(arrivals, views, i, h.m_flow_id);
    RecordIsOfOwnPackets(arrivals, views, i, h.m_flow_id);
    Snoc(before, h);
    if NoDuplicates(before + [h]) {
      forall n | 0 <= n < |before + [h]|
        ensures (before + [h])[n].m_flow_size == if (before + [h])[n].dir == 0 then s0 else s1
      {
        if n < |before| {
          var j := HistoryIsOfArrivals(arrivals, views, i, h.m_flow_id, n);
        }
      }
      SmallSizesAreSound(before + [h], s0, s1);
    }
  }

  /** What can be read off the checker: while its counters of sequence errors are zero, every flow retired
      without duplicates came in order. */
  lemma CleanCountersMeanInOrder(arrivals: seq<Arrival>, views: seq<View>, i: nat)
    requires IsRun(arrivals, views) && i < |arrivals|
    requires arrivals[i].h.Accepted()
    requires Receive(views[i].Lookup(arrivals[i].h.m_flow_id), arrivals[i].h).IsAllPktsSeen()
    requires views[i + 1].stats.SequenceErr() == 0
    ensures var received := History(arrivals, views, i, arrivals[i].h.m_flow_id) + [arrivals[i].h];
            AllAccepted(received) && (NoDuplicates(received) ==> ArrivedInOrder(received))
  {
    hide PacketStep, Receive, Errors, Flow.IsAllPktsSeen, NoDuplicates, ArrivedInOrder, SteadySizes, Stats.SequenceErr;
    RetiredFlowsAreComplete(arrivals, views, i);
  }

  lemma StepIsSwept(v: View, h: Header, now: real, w: View)
    requires PacketStep(v, h, now, w) && h.Accepted()
    ensures Swept(Handled(v, h, now), now, w)
  {
  }
}
