/** What the counters of the RX checker mean: losses are counted, and over genuine traffic silence means that
    every packet has come, in order. */
module RxAlarms {
  import opened RxFlow
  import opened Basics
  import opened RxCheck
  import opened RxEndToEnd

  // ----- A flow that ends without error

  lemma NoneIsNothing(history: seq<Header>)
    requires AllAccepted(history)
    ensures FlowAfter(history) == None <==> history == []
  {
  }

  /** A completed flow without sequence error can have lost a packet only if another one came twice. */
  lemma OnlyADuplicateHidesALoss(history: seq<Header>)
    requires AllAccepted(history) && history != [] && SequenceErrors(history) == 0
    requires FlowAfter(history).value.IsAllPktsSeen()
    ensures ArrivedInOrder(history) <==> NoDuplicates(history)
  {
    if NoDuplicates(history) {
      CompletionIsSound(history);
    }
  }

  /** It can: of two packets announced in the second direction, packet 1 comes twice and packet 0 never. */
  lemma ADuplicateCanHideALoss() returns (history: seq<Header>)
    ensures AllAccepted(history) && history != [] && ErrorCount(history) == 0
    ensures FlowAfter(history).value.IsAllPktsSeen() && !ArrivedInOrder(history)
  {
    hide FlowAfter, ErrorCount, Ids;
    var there := Packets(0, 1, [0]);
    history := there + Packets(1, 2, [1, 1]);
    assert [] + there == there;
    NothingHappened();
    PacketsRun([], 0, 1, [0]);
    assert [1, 1][..1] == [1];
    PacketsRun(there, 1, 2, [1, 1]);
    BothWaysIds(1, [0], 2, [1, 1]);
    NoneIsNothing(history);
    assert ErrorCount(history) == 0;
    var f := FlowAfter(history).value;
    assert f.m_dir0 == f.Dir(0) && f.m_dir1 == f.Dir(1);
    ErrorCounterIsModular(history);
    assert Iota(2)[0] == 0;
  }

  /** The first sequence error of a flow says what went wrong: "late" comes after a gap, "dup" and "early" have been
      received before, and a first packet comes again. */
  lemma FirstErrorSays(history: seq<Header>, h: Header)
    requires AllAccepted(history) && history != [] && SequenceErrors(history) == 0
    requires h.Accepted() && Ids(history, h.dir) != []
    ensures var ids, errors := Ids(history, h.dir), Errors(FlowAfter(history), h);
            && (OoLate in errors <==> h.m_pkt_id > |ids|)
            && (OoDup in errors <==> |ids| > 1 && h.m_pkt_id == |ids| - 1 == ids[|ids| - 1])
            && (OoEarly in errors <==> 0 < h.m_pkt_id < |ids| - 1 && ids[h.m_pkt_id] == h.m_pkt_id)
            && (FifSeenTwice in errors <==> h.m_pkt_id == 0)
            && OpenWithNoFif !in errors
  {
    hide FlowAfter, Ids, Errors;
    NoSequenceErrorsMeansInStep(history);
    NoneIsNothing(history);
    ErrorOf(FlowAfter(history).value, h);
  }

  lemma ErrorOf(f: Flow, h: Header)
    requires f.Dir(h.dir).fif_seen && f.Dir(h.dir).m_seq > 0
    ensures var n, errors := f.Dir(h.dir).m_seq, Errors(Some(f), h);
            && (OoLate in errors <==> h.m_pkt_id > n) && (OoDup in errors <==> 0 < h.m_pkt_id == n - 1)
            && (OoEarly in errors <==> 0 < h.m_pkt_id < n - 1) && (FifSeenTwice in errors <==> h.m_pkt_id == 0)
            && OpenWithNoFif !in errors
  {
  }

  // ----- What is counted when flows are given up

  /** The size that the first packet of a direction announces. */
  ghost function Announced(history: seq<Header>, d: bit): uint16 {
    if history == [] then 0
    else
      var before, h := history[..|history| - 1], history[|history| - 1];
      if Ids(before, d) == [] && h.dir == d then h.m_flow_size else Announced(before, d)
  }

  /** The record of a flow holds what was announced and, in 16 bits, how much of it came. */
  lemma {:induction false} RecordCounts(history: seq<Header>, d: bit)
    requires AllAccepted(history) && history != []
    ensures FlowAfter(history).value.Dir(d).m_flow_size == Announced(history, d)
    ensures FlowAfter(history).value.Dir(d).m_pkts == U16(|Ids(history, d)|)
    ensures FlowAfter(history).value.Dir(d).fif_seen <==> Ids(history, d) != []
  {
    var before, h := history[..|history| - 1], history[|history| - 1];
    if before == [] {
      assert Ids(before, d) == [] && Announced(before, d) == 0;
    } else {
      RecordCounts(before, d);
      U16Sum(|Ids(before, d)|, 1);
    }
  }

  lemma {:induction false} IdsAddUp(history: seq<Header>)
    ensures |Ids(history, 0)| + |Ids(history, 1)| == |history|
  {
    if history != [] {
      IdsAddUp(history[..|history| - 1]);
    }
  }

  /** Announced in both directions less received. */
  ghost function Lost(history: seq<Header>): nat {
    var announced, received := U16(Announced(history, 0) + Announced(history, 1)), U16(|history|);
    if announced < received then 0 else announced - received
  }

  lemma MissingIsLost(history: seq<Header>)
    requires AllAccepted(history) && history != []
    ensures Missing(FlowAfter(history).value) == Lost(history)
  {
    hide FlowAfter, Announced, Ids;
    RecordCounts(history, 0);
    RecordCounts(history, 1);
    IdsAddUp(history);
    U16Sum(|Ids(history, 0)|, U16(|Ids(history, 1)|));
    U16Sum(|Ids(history, 1)|, |Ids(history, 0)|);
  }

  /** The packets of flow k since it was opened, arrival i among them. */
  ghost function Received(arrivals: seq<Arrival>, views: seq<View>, i: nat, k: uint64): (received: seq<Header>)
    requires i < |arrivals| && |views| == |arrivals| + 1
    ensures AllAccepted(received)
  {
    var h := arrivals[i].h;
    History(arrivals, views, i, k) + (if h.Accepted() && h.m_flow_id == k then [h] else [])
  }

  ghost function LostIn(arrivals: seq<Arrival>, views: seq<View>, i: nat, order: seq<uint64>): nat
    requires i < |arrivals| && |views| == |arrivals| + 1
  {
    if order == [] then 0
    else LostIn(arrivals, views, i, order[..|order| - 1]) + Lost(Received(arrivals, views, i, order[|order| - 1]))
  }

  /** Neither judging a packet nor retiring a flow touches the counters of losses. */
  lemma HandledLosesNothing(v: View, h: Header, now: real)
    requires h.Accepted()
    ensures var s := Handled(v, h, now).stats;
            s.m_err_aged == v.stats.m_err_aged && s.m_err_drop == v.stats.m_err_drop
  {
    hide Errors, Receive, Stats.CountErrors, Stats.Closed, Flow.IsAllPktsSeen;
    var lf := v.Lookup(h.m_flow_id);
    var counted := v.stats.LookedUp();
    var known := if lf.Some? then counted.(m_found := counted.m_found + 1) else counted.Opened(h.m_pkt_id == 0);
    CountErrorsByKind(known, Errors(lf, h));
    var f := Receive(lf, h);
    if f.IsAllPktsSeen() {
      CompleteCountsNothing(v.Admitted(h, now).stats, f, false);
    }
  }

  /** The record of a flow that is open once arrival i has been handled is that of its own packets. */
  lemma HandledRecord(arrivals: seq<Arrival>, views: seq<View>, i: nat, k: uint64)
    requires IsRun(arrivals, views) && i < |arrivals| && arrivals[i].h.Accepted()
    requires k in Handled(views[i], arrivals[i].h, arrivals[i].time).table
    ensures Received(arrivals, views, i, k) != []
    ensures Handled(views[i], arrivals[i].h, arrivals[i].time).Lookup(k)
            == FlowAfter(Received(arrivals, views, i, k))
  {
    hide PacketStep, Receive, Flow.IsAllPktsSeen, Handled, Header.Accepted, History;
    var h := arrivals[i].h;
    HandledFlows(views[i], h, arrivals[i].time);
    RecordIsOfOwnPackets(arrivals, views, i, k);
    var before := History(arrivals, views, i, k);
    assert before + [] == before;
    Snoc(before, h);
  }

  lemma {:induction false} MissingInIsLostIn(arrivals: seq<Arrival>, views: seq<View>, i: nat, order: seq<uint64>)
    requires IsRun(arrivals, views) && i < |arrivals| && arrivals[i].h.Accepted()
    requires forall k :: k in order ==> k in Handled(views[i], arrivals[i].h, arrivals[i].time).table
    ensures MissingIn(Handled(views[i], arrivals[i].h, arrivals[i].time).table, order)
            == LostIn(arrivals, views, i, order)
  {
    hide PacketStep, Handled, Header.Accepted, FlowAfter, Missing, Lost, Received;
    if order != [] {
      var k := order[|order| - 1];
      MissingInIsLostIn(arrivals, views, i, order[..|order| - 1]);
      HandledRecord(arrivals, views, i, k);
      MissingIsLost(Received(arrivals, views, i, k));
    }
  }

  /** A packet of flow k is the last one the flow needed. */
  ghost predicate Completes(arrivals: seq<Arrival>, views: seq<View>, i: nat, k: uint64)
    requires i < |arrivals| && |views| == |arrivals| + 1
  {
    var h := arrivals[i].h;
    h.Accepted() && h.m_flow_id == k && FlowAfter(Received(arrivals, views, i, k)).value.IsAllPktsSeen()
  }

  /** In every run, at every arrival: the open flows that leave the table without being complete are counted as
      aged, one each, and what they announced and did not receive is counted as dropped. */
  lemma LossesAreCounted(arrivals: seq<Arrival>, views: seq<View>, i: nat) returns (order: seq<uint64>)
    requires IsRun(arrivals, views) && i < |arrivals|
    ensures NoRepeats(order)
    ensures forall k: uint64 :: k in order <==>
              Received(arrivals, views, i, k) != [] && k !in views[i + 1].table && !Completes(arrivals, views, i, k)
    ensures views[i + 1].stats.m_err_aged == views[i].stats.m_err_aged + |order|
    ensures views[i + 1].stats.m_err_drop == views[i].stats.m_err_drop + LostIn(arrivals, views, i, order)
  {
    hide Handled, Receive, Flow.IsAllPktsSeen, FlowAfter, Missing, Lost;
    var h, v, w := arrivals[i].h, views[i], views[i + 1];
    order := [];
    if h.Accepted() {
      var r := Handled(v, h, arrivals[i].time);
      HandledLosesNothing(v, h, arrivals[i].time);
      StepIsSwept(v, h, arrivals[i].time, w);
      order := SweepCounts(r, arrivals[i].time, w);
      MissingInIsLostIn(arrivals, views, i, order);
    }
    forall k: uint64 ensures k in order <==> Received(arrivals, views, i, k) != [] && k !in w.table
                                             && !Completes(arrivals, views, i, k) {
      OpenAfter(arrivals, views, i, k);
    }
  }

  lemma SweepCounts(v: View, now: real, w: View) returns (order: seq<uint64>)
    requires Swept(v, now, w)
    ensures NoRepeats(order) && (forall k :: k in order ==> k in v.table)
    ensures forall k :: k in order <==> k in v.table && k !in w.table
    ensures w.stats.m_err_aged == v.stats.m_err_aged + |order|
    ensures w.stats.m_err_drop == v.stats.m_err_drop + MissingIn(v.table, order)
  {
    order := [];
    if v.stats.m_lookup % 256 == 0 {
      order :| Selects(order, v) && GaveUpWhatWasDue(v, order, now) && w == GivenUp(v, order, false);
      GivenUpCounts(v, order, false);
    }
  }

  /** Which flows are open just before the sweep. */
  lemma OpenAfter(arrivals: seq<Arrival>, views: seq<View>, i: nat, k: uint64)
    requires IsRun(arrivals, views) && i < |arrivals|
    ensures if arrivals[i].h.Accepted() then
              k in Handled(views[i], arrivals[i].h, arrivals[i].time).table
              <==> Received(arrivals, views, i, k) != [] && !Completes(arrivals, views, i, k)
            else
              Received(arrivals, views, i, k) != [] <==> k in views[i + 1].table
  {
    hide Receive, Flow.IsAllPktsSeen, Handled, History;
    var h := arrivals[i].h;
    RecordIsOfOwnPackets(arrivals, views, i, k);
    var before := History(arrivals, views, i, k);
    assert before + [] == before;
    NoneIsNothing(before);
    if h.Accepted() {
      HandledFlows(views[i], h, arrivals[i].time);
      Snoc(before, h);
    }
  }

  // ----- Silence over genuine traffic

  /** Two packets of one flow: they agree on the flow, and the second is not a copy of the first. */
  ghost predicate Related(g: Header, h: Header) {
    && g.both_dir == h.both_dir
    && (if g.dir == h.dir then g.m_flow_size == h.m_flow_size && g.m_pkt_id != h.m_pkt_id else g.both_dir)
  }

  /** Packets of numbered streams, some perhaps lost and some out of order, but none corrupted or duplicated. */
  ghost predicate Genuine(arrivals: seq<Arrival>) {
    && (forall i :: 0 <= i < |arrivals| ==> arrivals[i].h.Accepted())
    && forall i, j :: 0 <= i < j < |arrivals| && arrivals[i].h.m_flow_id == arrivals[j].h.m_flow_id ==>
         Related(arrivals[i].h, arrivals[j].h)
  }

  ghost function IdsOf(s: seq<Header>): (ids: seq<int>)
    ensures |ids| == |s| && forall j :: 0 <= j < |s| ==> ids[j] == s[j].m_pkt_id
  {
    seq(|s|, j requires 0 <= j < |s| => s[j].m_pkt_id)
  }

  lemma {:induction false} StreamMember(arrivals: seq<Arrival>, k: uint64, d: bit, n: nat) returns (j: nat)
    requires n < |Stream(arrivals, k, d)|
    ensures j < |arrivals| && arrivals[j].h == Stream(arrivals, k, d)[n]
    ensures arrivals[j].h.m_flow_id == k && arrivals[j].h.dir == d
  {
    var before := arrivals[..|arrivals| - 1];
    if n < |Stream(before, k, d)| {
      j := StreamMember(before, k, d, n);
    } else {
      j := |arrivals| - 1;
    }
  }

  /** Packets of one direction of one genuine flow. */
  ghost predicate GenuineStream(s: seq<Header>) {
    && (forall n :: 0 <= n < |s| ==> s[n].Accepted() && s[n].m_flow_size == s[0].m_flow_size)
    && (forall n :: 0 <= n < |s| ==> s[n].both_dir == s[0].both_dir)
    && NoRepeats(IdsOf(s))
  }

  lemma {:induction false} StreamIsGenuine(arrivals: seq<Arrival>, k: uint64, d: bit)
    requires Genuine(arrivals)
    ensures GenuineStream(Stream(arrivals, k, d))
  {
    if arrivals != [] {
      var before, h := arrivals[..|arrivals| - 1], arrivals[|arrivals| - 1].h;
      StreamIsGenuine(before, k, d);
      if h.m_flow_id == k && h.dir == d {
        var s := Stream(before, k, d);
        forall n | 0 <= n < |s| ensures Related(s[n], h) && s[n].dir == d {
          var j := StreamMember(before, k, d, n);
          assert before[j] == arrivals[j];
        }
        assert h.Accepted();
      }
    }
  }

  /** What an open flow has received in one direction is the end of what has arrived in it. */
  lemma {:induction false} HistoryIsRecent(arrivals: seq<Arrival>, views: seq<View>, i: nat, k: uint64, d: bit)
    returns (m: nat)
    requires Genuine(arrivals) && i <= |arrivals| && |views| == |arrivals| + 1
    ensures m <= |Stream(arrivals[..i], k, d)|
    ensures Ids(History(arrivals, views, i, k), d) == IdsOf(Stream(arrivals[..i], k, d))[m..]
  {
    var now := Stream(arrivals[..i], k, d);
    if i == 0 || k !in views[i].table {
      m := |now|;
    } else {
      var h := arrivals[i - 1].h;
      m := HistoryIsRecent(arrivals, views, i - 1, k, d);
      assert arrivals[..i][..i - 1] == arrivals[..i - 1];
      var before := History(arrivals, views, i - 1, k);
      assert before + [] == before;
      if h.m_flow_id == k {
        assert (before + [h])[..|before|] == before;
      }
    }
  }

  lemma StepErrorsGrow(v: View, h: Header, now: real, w: View)
    requires PacketStep(v, h, now, w)
    ensures v.stats.TotalErr() <= w.stats.TotalErr()
  {
    hide Errors, Receive, Flow.IsAllPktsSeen, Stats.CountErrors;
    if h.Accepted() {
      var r := Handled(v, h, now);
      StepIsSwept(v, h, now, w);
      if r.stats.m_lookup % 256 == 0 {
        var order :| Selects(order, r) && GaveUpWhatWasDue(r, order, now) && w == GivenUp(r, order, false);
        GivenUpCounts(r, order, false);
      }
    }
  }

  /** No counter of errors ever goes back. */
  lemma {:induction false} ErrorsGrow(arrivals: seq<Arrival>, views: seq<View>, i: nat, j: nat)
    requires IsRun(arrivals, views) && i <= j <= |arrivals|
    ensures views[i].stats.TotalErr() <= views[j].stats.TotalErr()
  {
    hide PacketStep, Stats.TotalErr;
    if i < j {
      ErrorsGrow(arrivals, views, i, j - 1);
      StepErrorsGrow(views[j - 1], arrivals[j - 1].h, arrivals[j - 1].time, views[j]);
    }
  }

  /** After the last packet no flow is left and no error has been counted. */
  ghost predicate Silent(arrivals: seq<Arrival>, views: seq<View>)
    requires |views| == |arrivals| + 1
  {
    views[|arrivals|].table == map[] && views[|arrivals|].stats.TotalErr() == 0
  }

  lemma SilentThroughout(arrivals: seq<Arrival>, views: seq<View>, i: nat)
    requires IsRun(arrivals, views) && Silent(arrivals, views) && i <= |arrivals|
    ensures views[i].stats.m_err_aged == 0 && views[i].stats.SequenceErr() == 0
  {
    hide PacketStep;
    ErrorsGrow(arrivals, views, i, |arrivals|);
  }

  /** Then an open flow has still been completed. */
  lemma {:induction false} IsCompleted(arrivals: seq<Arrival>, views: seq<View>, i: nat, k: uint64) returns (p: nat)
    requires IsRun(arrivals, views) && Silent(arrivals, views)
    requires i < |arrivals| && Received(arrivals, views, i, k) != []
    ensures i <= p < |arrivals| && Completes(arrivals, views, p, k)
    decreases |arrivals| - i
  {
    hide PacketStep, Completes, FlowAfter, Stats.TotalErr, Stats.SequenceErr;
    if Completes(arrivals, views, i, k) {
      p := i;
    } else {
      var order := LossesAreCounted(arrivals, views, i);
      SilentThroughout(arrivals, views, i);
      SilentThroughout(arrivals, views, i + 1);
      assert k !in order;
      RecordIsOfOwnPackets(arrivals, views, i + 1, k);
      NoneIsNothing(History(arrivals, views, i + 1, k));
      p := IsCompleted(arrivals, views, i + 1, k);
    }
  }

  lemma ReceivedIsOfArrivals(arrivals: seq<Arrival>, views: seq<View>, i: nat, k: uint64, n: nat) returns (j: nat)
    requires i < |arrivals| && |views| == |arrivals| + 1 && n < |Received(arrivals, views, i, k)|
    ensures j <= i && arrivals[j].h == Received(arrivals, views, i, k)[n] && arrivals[j].h.m_flow_id == k
  {
    if n < |History(arrivals, views, i, k)| {
      j := HistoryIsOfArrivals(arrivals, views, i, k, n);
    } else {
      j := i;
    }
  }

  lemma ReceivedIds(arrivals: seq<Arrival>, views: seq<View>, i: nat, k: uint64, d: bit)
    requires i < |arrivals| && |views| == |arrivals| + 1 && arrivals[i].h.Accepted()
    ensures var h := arrivals[i].h;
            && Ids(Received(arrivals, views, i, k), d)
               == Ids(History(arrivals, views, i, k), d)
                  + (if h.m_flow_id == k && h.dir == d then [h.m_pkt_id] else [])
            && IdsOf(Stream(arrivals[..i + 1], k, d))
               == IdsOf(Stream(arrivals[..i], k, d)) + (if h.m_flow_id == k && h.dir == d then [h.m_pkt_id] else [])
  {
    hide History;
    var h, before := arrivals[i].h, History(arrivals, views, i, k);
    assert before + [] == before;
    assert (before + [h])[..|before|] == before;
    assert arrivals[..i + 1][..i] == arrivals[..i];
  }

  lemma PieceGrows(ids: seq<int>, next: seq<int>, all: seq<int>, m: nat)
    requires m <= |ids| && ids + next <= all
    ensures ids[m..] + next == all[m..|ids| + |next|]
  {
  }

  lemma IdsOfPrefix(s: seq<Header>, t: seq<Header>)
    requires s <= t
    ensures IdsOf(s) <= IdsOf(t)
  {
  }

  /** What a flow has received in one direction is a piece of what arrives in it. */
  lemma ReceivedIsPiece(arrivals: seq<Arrival>, views: seq<View>, i: nat, k: uint64, d: bit) returns (m: nat, n: nat)
    requires Genuine(arrivals) && i < |arrivals| && |views| == |arrivals| + 1
    ensures m <= n <= |Stream(arrivals, k, d)|
    ensures Ids(Received(arrivals, views, i, k), d) == IdsOf(Stream(arrivals, k, d))[m..n]
  {
    hide History, Received, Stream, Ids;
    m := HistoryIsRecent(arrivals, views, i, k, d);
    ReceivedIds(arrivals, views, i, k, d);
    StreamOfPrefix(arrivals, i + 1, k, d);
    IdsOfPrefix(Stream(arrivals[..i + 1], k, d), Stream(arrivals, k, d));
    n := |Stream(arrivals[..i + 1], k, d)|;
    var h := arrivals[i].h;
    PieceGrows(IdsOf(Stream(arrivals[..i], k, d)), if h.m_flow_id == k && h.dir == d then [h.m_pkt_id] else [],
               IdsOf(Stream(arrivals, k, d)), m);
  }

  lemma PieceHasNoRepeats(ids: seq<int>, m: nat, n: nat)
    requires NoRepeats(ids) && m <= n <= |ids|
    ensures NoRepeats(ids[m..n])
  {
  }

  lemma ReceivedOnce(arrivals: seq<Arrival>, views: seq<View>, i: nat, k: uint64)
    requires Genuine(arrivals) && i < |arrivals| && |views| == |arrivals| + 1
    ensures NoDuplicates(Received(arrivals, views, i, k))
  {
    hide Genuine, Received;
    var m0, n0 := ReceivedIsPiece(arrivals, views, i, k, 0);
    var m1, n1 := ReceivedIsPiece(arrivals, views, i, k, 1);
    StreamIsGenuine(arrivals, k, 0);
    StreamIsGenuine(arrivals, k, 1);
    PieceHasNoRepeats(IdsOf(Stream(arrivals, k, 0)), m0, n0);
    PieceHasNoRepeats(IdsOf(Stream(arrivals, k, 1)), m1, n1);
  }

  /** A flow completed without a sequence error came in order. */
  lemma CompletedInOrder(arrivals: seq<Arrival>, views: seq<View>, p: nat, k: uint64)
    requires IsRun(arrivals, views) && Silent(arrivals, views) && Genuine(arrivals)
    requires p < |arrivals| && Completes(arrivals, views, p, k)
    ensures ArrivedInOrder(Received(arrivals, views, p, k))
  {
    hide PacketStep, FlowAfter, Stats.TotalErr, Stats.SequenceErr, NoDuplicates, ArrivedInOrder, Receive, Genuine;
    hide Flow.IsAllPktsSeen, History;
    SilentThroughout(arrivals, views, p + 1);
    ReceivedOnce(arrivals, views, p, k);
    RecordIsOfOwnPackets(arrivals, views, p, k);
    Snoc(History(arrivals, views, p, k), arrivals[p].h);
    CleanCountersMeanInOrder(arrivals, views, p);
  }

  /** The size on record is the one that all packets of the direction announce. */
  lemma SizeOfStream(arrivals: seq<Arrival>, views: seq<View>, i: nat, k: uint64, d: bit)
    requires Genuine(arrivals) && i < |arrivals| && |views| == |arrivals| + 1
    requires Ids(Received(arrivals, views, i, k), d) != []
    ensures Received(arrivals, views, i, k) != [] && Stream(arrivals, k, d) != []
    ensures FlowAfter(Received(arrivals, views, i, k)).value.Dir(d).m_flow_size == Stream(arrivals, k, d)[0].m_flow_size
  {
    hide Genuine, FlowAfter, Received;
    var received := Received(arrivals, views, i, k);
    var m, n := ReceivedIsPiece(arrivals, views, i, k, d);
    StreamIsGenuine(arrivals, k, d);
    var size := Stream(arrivals, k, d)[0].m_flow_size;
    forall l | 0 <= l < |received| && received[l].dir == d ensures received[l].m_flow_size == size {
      var j := ReceivedIsOfArrivals(arrivals, views, i, k, l);
      ArrivalInStream(arrivals, j);
    }
    SizeIsAsAnnounced(received, d, size);
    RecordCounts(received, d);
  }

  /** As many distinct ids below the size as there are leave no room for another packet. */
  lemma WholeStream(s: seq<Header>, m: nat, n: nat)
    requires GenuineStream(s) && s != [] && m <= n <= |s| && IdsOf(s)[m..n] == Iota(s[0].m_flow_size)
    ensures |s| == s[0].m_flow_size && IdsOf(s) == Iota(|s|)
  {
    forall j | 0 <= j < |s| ensures 0 <= IdsOf(s)[j] < s[0].m_flow_size {
      assert s[j].Accepted();
    }
    Pigeonhole(IdsOf(s), s[0].m_flow_size);
    assert |IdsOf(s)[m..n]| == n - m;
  }

  /** Once a flow is complete, all has arrived of each direction of which something was received. */
  lemma StreamIsWhole(arrivals: seq<Arrival>, views: seq<View>, p: nat, k: uint64, d: bit)
    requires IsRun(arrivals, views) && Silent(arrivals, views) && Genuine(arrivals)
    requires p < |arrivals| && Completes(arrivals, views, p, k)
    requires FlowAfter(Received(arrivals, views, p, k)).value.Dir(d).m_flow_size > 0
    ensures var s := Stream(arrivals, k, d);
            s != [] && |s| == s[0].m_flow_size && IdsOf(s) == Iota(|s|)
  {
    hide PacketStep, FlowAfter, Stats.TotalErr, Genuine, Received, GenuineStream;
    var received := Received(arrivals, views, p, k);
    NoneIsNothing(received);
    CompletedInOrder(arrivals, views, p, k);
    assert Ids(received, d) == Iota(FlowAfter(received).value.Dir(d).m_flow_size);
    SizeOfStream(arrivals, views, p, k, d);
    var m, n := ReceivedIsPiece(arrivals, views, p, k, d);
    StreamIsGenuine(arrivals, k, d);
    WholeStream(Stream(arrivals, k, d), m, n);
  }

  lemma FlowAgrees(arrivals: seq<Arrival>, i: nat, j: nat)
    requires Genuine(arrivals) && i < |arrivals| && j < |arrivals|
    requires arrivals[i].h.m_flow_id == arrivals[j].h.m_flow_id
    ensures arrivals[i].h.both_dir == arrivals[j].h.both_dir
    ensures arrivals[i].h.dir != arrivals[j].h.dir ==> arrivals[i].h.both_dir
  {
    if i < j {
      assert Related(arrivals[i].h, arrivals[j].h);
    } else if j < i {
      assert Related(arrivals[j].h, arrivals[i].h);
    }
  }

  /** Every packet of the flow says whether the flow goes both ways. */
  lemma BothWaysAsSaid(arrivals: seq<Arrival>, views: seq<View>, k: uint64, i: nat)
    requires IsRun(arrivals, views) && Silent(arrivals, views) && Genuine(arrivals)
    requires i < |arrivals| && arrivals[i].h.m_flow_id == k
    ensures BothWays(arrivals, k) <==> arrivals[i].h.both_dir
    ensures forall d: bit :: Stream(arrivals, k, d) != [] ==>
              var s := Stream(arrivals, k, d);
              |s| == s[0].m_flow_size && IdsOf(s) == Iota(|s|)
  {
    hide PacketStep, FlowAfter, Stats.TotalErr, Genuine, Flow.IsAllPktsSeen, Ids;
    assert arrivals[i].h.Accepted() by { AllGenuine(arrivals, i); }
    var p := IsCompleted(arrivals, views, i, k);
    var received := Received(arrivals, views, p, k);
    CompletedInOrder(arrivals, views, p, k);
    NoneIsNothing(received);
    var f := FlowAfter(received).value;
    var first := ReceivedIsOfArrivals(arrivals, views, p, k, 0);
    FlowAgrees(arrivals, i, first);
    assert Directions(arrivals[i].h.both_dir)
           == (if f.m_dir0.m_flow_size > 0 then 1 else 0) + (if f.m_dir1.m_flow_size > 0 then 1 else 0);
    if BothWays(arrivals, k) {
      var j0 := StreamMember(arrivals, k, 0, 0);
      var j1 := StreamMember(arrivals, k, 1, 0);
      FlowAgrees(arrivals, j0, j1);
      FlowAgrees(arrivals, i, j0);
    }
    forall d: bit | f.Dir(d).m_flow_size > 0
      ensures var s := Stream(arrivals, k, d);
              s != [] && |s| == s[0].m_flow_size && IdsOf(s) == Iota(|s|)
    {
      StreamIsWhole(arrivals, views, p, k, d);
    }
    assert f.Dir(0) == f.m_dir0 && f.Dir(1) == f.m_dir1;
  }

  lemma AllGenuine(arrivals: seq<Arrival>, i: nat)
    requires Genuine(arrivals) && i < |arrivals|
    ensures arrivals[i].h.Accepted()
  {
  }

  lemma StreamIsNumbered(arrivals: seq<Arrival>, views: seq<View>, k: uint64, d: bit)
    requires IsRun(arrivals, views) && Silent(arrivals, views) && Genuine(arrivals)
    ensures StreamNumbered(Stream(arrivals, k, d), BothWays(arrivals, k))
  {
    hide IsRun, Silent, BothWays, Genuine;
    var s := Stream(arrivals, k, d);
    if s != [] {
      var i := StreamMember(arrivals, k, d, 0);
      BothWaysAsSaid(arrivals, views, k, i);
      StreamIsGenuine(arrivals, k, d);
      forall j | 0 <= j < |s|
        ensures && s[j].m_magic == RX_CHECK_MAGIC && s[j].m_pkt_id == j
                && s[j].m_flow_size == |s| && s[j].both_dir == BothWays(arrivals, k)
      {
        assert s[j].Accepted() && IdsOf(s)[j] == j;
      }
    }
  }

  /** Any run over genuine packets that ends with an empty table and without an error: every flow has delivered the
      ids 0 to size - 1, in order, in every direction it announced. */
  lemma SilenceMeansNumbered(arrivals: seq<Arrival>, views: seq<View>)
    requires IsRun(arrivals, views) && Silent(arrivals, views) && Genuine(arrivals)
    ensures Numbered(arrivals)
  {
    hide IsRun, Silent, Genuine, StreamNumbered;
    forall k: uint64, d: bit ensures StreamNumbered(Stream(arrivals, k, d), BothWays(arrivals, k)) {
      StreamIsNumbered(arrivals, views, k, d);
    }
  }

  /** Over genuine packets that come in time the checker is silent exactly if nothing was lost and nothing came out
      of order. */
  lemma SilentIff(arrivals: seq<Arrival>, views: seq<View>)
    requires IsRun(arrivals, views) && Genuine(arrivals) && InTime(arrivals)
    ensures Silent(arrivals, views) <==> Numbered(arrivals)
  {
    hide IsRun, Numbered, Genuine, InTime;
    RunHasViews(arrivals, views);
    if Silent(arrivals, views) {
      SilenceMeansNumbered(arrivals, views);
    }
    if Numbered(arrivals) {
      NoFalseAlarms(arrivals, views);
    }
  }

  lemma RunHasViews(arrivals: seq<Arrival>, views: seq<View>)
    requires IsRun(arrivals, views)
    ensures |views| == |arrivals| + 1
  {
  }

  // ----- The other counters

  /** How many of the first i arrivals are refused, for their magic number or else for their packet id. */
  ghost function Refused(arrivals: seq<Arrival>, i: nat, magic: bool): nat
    requires i <= |arrivals|
  {
    if i == 0 then 0
    else
      var h := arrivals[i - 1].h;
      var foreign := h.m_magic != RX_CHECK_MAGIC;
      Refused(arrivals, i - 1, magic)
      + (if foreign == magic && (magic || h.m_pkt_id >= h.m_flow_size) then 1 else 0)
  }

  lemma StepCounts(v: View, h: Header, now: real, w: View)
    requires PacketStep(v, h, now, w)
    ensures w.stats.m_total_rx == v.stats.m_total_rx + 1
    ensures w.stats.m_err_no_magic == v.stats.m_err_no_magic + (if h.m_magic != RX_CHECK_MAGIC then 1 else 0)
    ensures w.stats.m_err_wrong_pkt_id
            == v.stats.m_err_wrong_pkt_id
               + (if h.m_magic == RX_CHECK_MAGIC && h.m_pkt_id >= h.m_flow_size then 1 else 0)
    ensures w.stats.m_lookup == v.stats.m_lookup + (if h.Accepted() then 1 else 0)
    ensures w.stats.m_found == v.stats.m_found + (if h.Accepted() && v.Lookup(h.m_flow_id).Some? then 1 else 0)
    ensures w.stats.m_add == v.stats.m_add + (if h.Accepted() && v.Lookup(h.m_flow_id) == None then 1 else 0)
    ensures w.stats.m_add - w.stats.m_fif - w.stats.m_err_open_with_no_fif_pkt
            == v.stats.m_add - v.stats.m_fif - v.stats.m_err_open_with_no_fif_pkt
  {
    if h.Accepted() {
      var r := Handled(v, h, now);
      HandledCounts(v, h, now);
      StepIsSwept(v, h, now, w);
      if r.stats.m_lookup % 256 == 0 {
        var order :| Selects(order, r) && GaveUpWhatWasDue(r, order, now) && w == GivenUp(r, order, false);
        GivenUpCounts(r, order, false);
      }
    }
  }

  lemma HandledCounts(v: View, h: Header, now: real)
    requires h.Accepted()
    ensures var s, t := v.stats, Handled(v, h, now).stats;
            && t.m_total_rx == s.m_total_rx + 1 && t.m_lookup == s.m_lookup + 1
            && t.m_err_no_magic == s.m_err_no_magic && t.m_err_wrong_pkt_id == s.m_err_wrong_pkt_id
            && t.m_found == s.m_found + (if v.Lookup(h.m_flow_id).Some? then 1 else 0)
            && t.m_add == s.m_add + (if v.Lookup(h.m_flow_id) == None then 1 else 0)
            && t.m_add - t.m_fif - t.m_err_open_with_no_fif_pkt == s.m_add - s.m_fif - s.m_err_open_with_no_fif_pkt
  {
    hide Receive, Errors, Stats.CountErrors, Stats.Closed, Flow.IsAllPktsSeen;
    var lf := v.Lookup(h.m_flow_id);
    var counted := v.stats.LookedUp();
    var known := if lf.Some? then counted.(m_found := counted.m_found + 1) else counted.Opened(h.m_pkt_id == 0);
    CountErrorsByKind(known, Errors(lf, h));
    OpensWithoutFif(lf, h);
    var f := Receive(lf, h);
    if f.IsAllPktsSeen() {
      CompleteCountsNothing(v.Admitted(h, now).stats, f, false);
    }
  }

  lemma OpensWithoutFif(lf: Option<Flow>, h: Header)
    ensures multiset(Errors(lf, h))[OpenWithNoFif] == (if lf == None && h.m_pkt_id != 0 then 1 else 0)
  {
    var errors := Errors(lf, h);
    if lf.Some? {
      forall i | 0 <= i < |errors| ensures errors[i] != OpenWithNoFif {}
    }
  }

  /** In every run every packet is counted as refused, found or opening a flow, and every flow opened as begun with
      its first packet or without it. */
  lemma {:induction false} CountersAddUp(arrivals: seq<Arrival>, views: seq<View>, i: nat)
    requires IsRun(arrivals, views) && i <= |arrivals|
    ensures var s := views[i].stats;
            && s.m_total_rx == i
            && s.m_err_no_magic == Refused(arrivals, i, true) && s.m_err_wrong_pkt_id == Refused(arrivals, i, false)
            && s.m_lookup == i - s.m_err_no_magic - s.m_err_wrong_pkt_id
            && s.m_lookup == s.m_found + s.m_add
            && s.m_add == s.m_fif + s.m_err_open_with_no_fif_pkt
  {
    hide PacketStep;
    if i > 0 {
      CountersAddUp(arrivals, views, i - 1);
      StepCounts(views[i - 1], arrivals[i - 1].h, arrivals[i - 1].time, views[i]);
    }
  }
}
