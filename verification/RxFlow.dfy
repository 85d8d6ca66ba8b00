/** One flow as the RX checker sees it: the per-direction sequence automaton and the test that retires
    a flow whose packets have all arrived. */
module RxFlow {
  import opened Basics

  const RX_CHECK_MAGIC: uint16 := 0x1617

  /** The rx-check option of a received packet. */
  datatype Header = Header(
    m_magic: uint16, m_flow_id: uint64, m_pkt_id: uint16, m_flow_size: uint16,
    dir: bit, both_dir: bool, m_template_id: uint8, m_aging_sec: uint16)
  {
    /** What handle_packet demands before it looks at the flow. */
    predicate Accepted() {
      m_magic == RX_CHECK_MAGIC && m_pkt_id + 1 <= m_flow_size
    }
  }

  datatype PerDir = PerDir(m_flow_size: uint16, m_pkts: uint16, m_seq: uint16, fif_seen: bool)

  const NOTHING_SEEN := PerDir(0, 0, 0, false)

  function FifSeen(flow_size: uint16): PerDir {
    PerDir(flow_size, 1, 1, true)
  }

  datatype Flow = Flow(m_dir0: PerDir, m_dir1: PerDir, m_oo_err: uint16, both_dir: bool) {
    function Dir(d: bit): PerDir {
      if d == 0 then m_dir0 else m_dir1
    }

    function WithDir(d: bit, p: PerDir): (f: Flow)
      ensures f.Dir(d) == p && f.Dir(1 - d) == Dir(1 - d)
      ensures f.m_oo_err == m_oo_err && f.both_dir == both_dir
    {
      if d == 0 then this.(m_dir0 := p) else this.(m_dir1 := p)
    }

    predicate IsAllPktsSeen() {
      && m_dir0.m_pkts == m_dir0.m_flow_size
      && m_dir1.m_pkts == m_dir1.m_flow_size
      && (if both_dir then 2 else 1)
         == (if m_dir0.m_flow_size > 0 then 1 else 0) + (if m_dir1.m_flow_size > 0 then 1 else 0)
      && m_oo_err == 0
    }

    function TotalExpected(): uint16 { U16(m_dir0.m_flow_size + m_dir1.m_flow_size) }

    function TotalSeen(): uint16 { U16(m_dir0.m_pkts + m_dir1.m_pkts) }
  }

  datatype ErrorKind = FifSeenTwice | OpenWithNoFif | OoDup | OoEarly | OoLate | FlowLengthChanged

  /** The errors that one accepted packet raises against the flow it belongs to, in order. */
  function Errors(lf: Option<Flow>, h: Header): (errors: seq<ErrorKind>)
    ensures |errors| <= 2
  {
    match lf
    case None => if h.m_pkt_id == 0 then [] else [OpenWithNoFif]
    case Some(f) =>
      var p := f.Dir(h.dir);
      var length := if p.m_flow_size != h.m_flow_size then [FlowLengthChanged] else [];
      if !p.fif_seen then
        []
      else if h.m_pkt_id == 0 then
        [FifSeenTwice] + length
      else
        length +
        (if p.m_seq == h.m_pkt_id then []
         else if p.m_seq - 1 == h.m_pkt_id then [OoDup]
         else if p.m_seq < h.m_pkt_id then [OoLate]
         else [OoEarly])
  }

  /** The flow after one accepted packet. */
  function Receive(lf: Option<Flow>, h: Header): Flow
    requires h.Accepted()
  {
    var f := match lf
             case None => Flow(NOTHING_SEEN, NOTHING_SEEN, 0, h.both_dir)
             case Some(f) => f;
    var p := f.Dir(h.dir);
    var p' := if !p.fif_seen then FifSeen(h.m_flow_size)
              else if h.m_pkt_id == 0 then p.(m_pkts := U16(p.m_pkts + 1))
              else p.(m_seq := h.m_pkt_id + 1, m_pkts := U16(p.m_pkts + 1));
    f.WithDir(h.dir, p').(m_oo_err := U16(f.m_oo_err + |Errors(lf, h)|))
  }

  ghost predicate AllAccepted(history: seq<Header>) {
    forall i :: 0 <= i < |history| ==> history[i].Accepted()
  }

  /** The flow after all the packets received since its creation. */
  ghost function FlowAfter(history: seq<Header>): Option<Flow>
    requires AllAccepted(history)
  {
    if history == [] then None
    else Some(Receive(FlowAfter(history[..|history| - 1]), history[|history| - 1]))
  }

  ghost function ErrorCount(history: seq<Header>): nat
    requires AllAccepted(history)
  {
    if history == [] then 0
    else
      var before := history[..|history| - 1];
      ErrorCount(before) + |Errors(FlowAfter(before), history[|history| - 1])|
  }

  /** All errors but a changed flow length say that a packet was not the next one of its direction. */
  function SequenceErrorsIn(errors: seq<ErrorKind>): (n: nat)
    ensures n <= |errors|
  {
    if errors == [] then 0
    else SequenceErrorsIn(errors[..|errors| - 1]) + (if errors[|errors| - 1] == FlowLengthChanged then 0 else 1)
  }

  ghost function SequenceErrors(history: seq<Header>): nat
    requires AllAccepted(history)
  {
    if history == [] then 0
    else
      var before := history[..|history| - 1];
      SequenceErrors(before) + SequenceErrorsIn(Errors(FlowAfter(before), history[|history| - 1]))
  }

  /** The packet ids received in one direction, in order of arrival. */
  ghost function Ids(history: seq<Header>, d: bit): seq<int> {
    if history == [] then []
    else
      var h := history[|history| - 1];
      var before := Ids(history[..|history| - 1], d);
      if h.dir == d then before + [h.m_pkt_id] else before
  }

  /** The network delivered no packet of the flow twice. */
  ghost predicate NoDuplicates(history: seq<Header>) {
    NoRepeats(Ids(history, 0)) && NoRepeats(Ids(history, 1))
  }

  // ----- The error counter is the number of errors, 16 bits wide.

  lemma U16Sum(a: int, b: int)
    ensures U16(U16(a) + b) == U16(a + b)
  {
    var q := a / 0x1_0000;
    assert a + b == U16(a) + b + 0x1_0000 * q;
  }

  function OoErr(lf: Option<Flow>): uint16 {
    if lf.Some? then lf.value.m_oo_err else 0
  }

  lemma ReceiveCountsErrors(lf: Option<Flow>, h: Header, sofar: nat)
    requires h.Accepted() && OoErr(lf) == U16(sofar)
    ensures OoErr(Some(Receive(lf, h))) == U16(sofar + |Errors(lf, h)|)
  {
    U16Sum(sofar, |Errors(lf, h)|);
  }

  lemma {:induction false} ErrorCounterIsModular(history: seq<Header>)
    requires AllAccepted(history)
    ensures OoErr(FlowAfter(history)) == U16(ErrorCount(history))
  {
    if history != [] {
      var before := history[..|history| - 1];
      var h := history[|history| - 1];
      ErrorCounterIsModular(before);
      ReceiveCountsErrors(FlowAfter(before), h, ErrorCount(before));
    }
  }

  // ----- Completion is sound.

  /** Without a sequence error so far, a direction has received some first id and then 1, 2, 3, ... */
  ghost predicate InStep(ids: seq<int>, p: PerDir) {
    && (p.fif_seen <==> ids != [])
    && (ids == [] ==> p == NOTHING_SEEN)
    && (ids != [] ==>
          && p.m_pkts == |ids| == p.m_seq
          && 0 <= ids[0] < p.m_flow_size
          && forall i :: 0 < i < |ids| ==> ids[i] == i)
  }

  /** What the errors of one packet say about its place in the sequence. */
  lemma NoSequenceErrorIn(lf: Option<Flow>, h: Header)
    ensures SequenceErrorsIn(Errors(lf, h)) == 0 <==>
            match lf
            case None => h.m_pkt_id == 0
            case Some(f) => f.Dir(h.dir).fif_seen ==> 0 < h.m_pkt_id == f.Dir(h.dir).m_seq
  {
    hide SequenceErrorsIn;
    var errors := Errors(lf, h);
    OnlyLengthErrors(errors);
    assert |errors| > 1 ==> errors[1] == FlowLengthChanged || errors[0] == FlowLengthChanged;
    assert errors != [] ==> errors[0] in errors;
  }

  lemma {:induction false} OnlyLengthErrors(errors: seq<ErrorKind>)
    ensures SequenceErrorsIn(errors) == 0 <==> forall i :: 0 <= i < |errors| ==> errors[i] == FlowLengthChanged
  {
    if errors != [] {
      OnlyLengthErrors(errors[..|errors| - 1]);
    }
  }

  lemma InStepNext(ids: seq<int>, f: Flow, h: Header)
    requires h.Accepted() && InStep(ids, f.Dir(h.dir)) && SequenceErrorsIn(Errors(Some(f), h)) == 0
    ensures InStep(ids + [h.m_pkt_id], Receive(Some(f), h).Dir(h.dir))
  {
    NoSequenceErrorIn(Some(f), h);
  }

  ghost predicate FlowInStep(history: seq<Header>, f: Flow)
    requires history != []
  {
    && InStep(Ids(history, 0), f.m_dir0)
    && InStep(Ids(history, 1), f.m_dir1)
    && f.both_dir == history[0].both_dir
    && Ids(history, history[0].dir) != [] && Ids(history, history[0].dir)[0] == 0
  }

  lemma {:induction false} NoSequenceErrorsMeansInStep(history: seq<Header>)
    requires AllAccepted(history) && history != []
    requires SequenceErrors(history) == 0
    ensures FlowInStep(history, FlowAfter(history).value)
  {
    hide SequenceErrorsIn, Errors;
    var before := history[..|history| - 1];
    var h := history[|history| - 1];
    NoSequenceErrorIn(FlowAfter(before), h);
    if before == [] {
      assert history == [h];
      assert Ids(before, 0) == [] == Ids(before, 1);
    } else {
      NoSequenceErrorsMeansInStep(before);
      InStepNext(Ids(before, h.dir), FlowAfter(before).value, h);
    }
  }

  /** Ids 0, 1, 2, ... in every direction */
  ghost predicate CountsUp(history: seq<Header>) {
    forall d: bit, i :: 0 <= i < |Ids(history, d)| ==> Ids(history, d)[i] == i
  }

  /** The other way round: packets that come in sequence raise no sequence error. */
  lemma {:induction false} CountsUpMeansNoSequenceErrors(history: seq<Header>)
    requires AllAccepted(history) && CountsUp(history)
    ensures SequenceErrors(history) == 0
  {
    hide SequenceErrorsIn, Errors, Receive;
    if history != [] {
      var before := history[..|history| - 1];
      var h := history[|history| - 1];
      forall d: bit, i | 0 <= i < |Ids(before, d)| ensures Ids(before, d)[i] == i {
        assert Ids(history, d)[i] == Ids(before, d)[i];
      }
      CountsUpMeansNoSequenceErrors(before);
      assert h.m_pkt_id == Ids(history, h.dir)[|Ids(before, h.dir)|] == |Ids(before, h.dir)|;
      NoSequenceErrorIn(FlowAfter(before), h);
      if before != [] {
        NoSequenceErrorsMeansInStep(before);
      }
    }
  }

  /** The number of directions a flow expects. */
  function Directions(both_dir: bool): int { if both_dir then 2 else 1 }

  /** In each direction that delivered anything, ids 0, 1, ..., size-1 arrived in this order, and as many
      directions delivered as the first packet announced. */
  ghost predicate ArrivedInOrder(history: seq<Header>)
    requires AllAccepted(history) && history != []
  {
    var f := FlowAfter(history).value;
    && Ids(history, 0) == Iota(f.m_dir0.m_flow_size)
    && Ids(history, 1) == Iota(f.m_dir1.m_flow_size)
    && Directions(history[0].both_dir)
       == (if f.m_dir0.m_flow_size > 0 then 1 else 0) + (if f.m_dir1.m_flow_size > 0 then 1 else 0)
  }

  lemma OccursOnce(s: seq<int>, i: nat, j: nat)
    requires NoRepeats(s) && i < |s| && j < |s| && s[i] == s[j]
    ensures i == j
  {
  }

  lemma InStepAndDistinct(ids: seq<int>, p: PerDir)
    requires InStep(ids, p) && NoRepeats(ids)
    requires p.m_pkts == p.m_flow_size
    ensures ids == Iota(p.m_flow_size)
  {
    if ids != [] {
      OccursOnce(ids, 0, ids[0]);
    }
  }

  /** Every packet of a direction announces the same flow size. */
  ghost predicate SteadySizes(history: seq<Header>) {
    forall i, j :: 0 <= i < j < |history| && history[i].dir == history[j].dir ==>
      history[i].m_flow_size == history[j].m_flow_size
  }

  lemma {:induction false} SizeIsAsAnnounced(history: seq<Header>, d: bit, size: uint16)
    requires AllAccepted(history)
    requires forall i :: 0 <= i < |history| && history[i].dir == d ==> history[i].m_flow_size == size
    ensures history != [] && FlowAfter(history).value.Dir(d).fif_seen ==>
            FlowAfter(history).value.Dir(d).m_flow_size == size
  {
    if history != [] {
      SizeIsAsAnnounced(history[..|history| - 1], d, size);
    }
  }

  /** Then all errors are sequence errors. */
  lemma {:induction false} SteadySizesOnlySequenceErrors(history: seq<Header>)
    requires AllAccepted(history) && SteadySizes(history)
    ensures ErrorCount(history) == SequenceErrors(history)
  {
    hide Receive;
    if history != [] {
      var before := history[..|history| - 1];
      var h := history[|history| - 1];
      SteadySizesOnlySequenceErrors(before);
      SizeIsAsAnnounced(before, h.dir, h.m_flow_size);
      OneErrorAtMost(FlowAfter(before), h);
    }
  }

  lemma OneErrorAtMost(lf: Option<Flow>, h: Header)
    requires lf.Some? && lf.value.Dir(h.dir).fif_seen ==> lf.value.Dir(h.dir).m_flow_size == h.m_flow_size
    ensures |Errors(lf, h)| == SequenceErrorsIn(Errors(lf, h)) <= 1
  {
    var errors := Errors(lf, h);
    assert |errors| == 1 ==> errors[..0] == [];
  }

  lemma {:induction false} SequenceErrorsAreErrors(history: seq<Header>)
    requires AllAccepted(history)
    ensures SequenceErrors(history) <= ErrorCount(history)
  {
    if history != [] {
      SequenceErrorsAreErrors(history[..|history| - 1]);
    }
  }

  lemma IotaCountsUp(history: seq<Header>, n0: nat, n1: nat)
    requires Ids(history, 0) == Iota(n0) && Ids(history, 1) == Iota(n1)
    ensures CountsUp(history)
  {
    forall d: bit, i | 0 <= i < |Ids(history, d)| ensures Ids(history, d)[i] == i {
      assert d == 0 || d == 1;
    }
  }

  /** A flow that is retired because all its packets were seen did receive them all, in order, exactly if none
      of them raised a sequence error, although the automaton accepts any first id in the second direction.
      The flow's own counter is 16 bits wide and counts changed lengths as well.  As long as the sizes are
      steady, the flow came in order exactly if the counter has not gone round. */
  lemma CompletionIsSound(history: seq<Header>)
    requires AllAccepted(history) && history != []
    requires NoDuplicates(history)
    requires FlowAfter(history).value.IsAllPktsSeen()
    ensures ArrivedInOrder(history) <==> SequenceErrors(history) == 0
    ensures SteadySizes(history) ==> (ArrivedInOrder(history) <==> ErrorCount(history) < 0x1_0000)
    ensures ErrorCount(history) < 0x1_0000 ==> ArrivedInOrder(history)
  {
    hide NoDuplicates, SteadySizes;
    InOrderIff(history);
    ErrorCounterIsModular(history);
    SequenceErrorsAreErrors(history);
    if SteadySizes(history) {
      SteadySizesOnlySequenceErrors(history);
    }
  }

  lemma InOrderIff(history: seq<Header>)
    requires AllAccepted(history) && history != [] && NoDuplicates(history)
    requires FlowAfter(history).value.IsAllPktsSeen()
    ensures ArrivedInOrder(history) <==> SequenceErrors(history) == 0
  {
    var f := FlowAfter(history).value;
    if SequenceErrors(history) == 0 {
      NoSequenceErrorsMeansInStep(history);
      InStepAndDistinct(Ids(history, 0), f.m_dir0);
      InStepAndDistinct(Ids(history, 1), f.m_dir1);
    }
    if ArrivedInOrder(history) {
      IotaCountsUp(history, f.m_dir0.m_flow_size, f.m_dir1.m_flow_size);
      CountsUpMeansNoSequenceErrors(history);
    }
  }

  lemma {:induction false} AtMostTwoErrorsEach(history: seq<Header>)
    requires AllAccepted(history)
    ensures ErrorCount(history) <= 2 * |history|
  {
    if history != [] {
      AtMostTwoErrorsEach(history[..|history| - 1]);
    }
  }

  /** A flow of fewer than 32768 packets cannot take it. */
  lemma CompletionIsSoundForShortFlows(history: seq<Header>)
    requires AllAccepted(history) && history != []
    requires NoDuplicates(history) && |history| < 0x8000
    requires FlowAfter(history).value.IsAllPktsSeen()
    ensures ArrivedInOrder(history)
  {
    CompletionIsSound(history);
    AtMostTwoErrorsEach(history);
  }

  // ----- The announced sizes decide: up to 65536 packets in both directions the counter cannot go round.

  /** The packets of direction 0 announce size s0, those of direction 1 size s1. */
  ghost predicate Announces(history: seq<Header>, s0: uint16, s1: uint16) {
    forall i :: 0 <= i < |history| ==> history[i].m_flow_size == if history[i].dir == 0 then s0 else s1
  }

  /** A flow of these sizes that is retired as complete; nothing of it was duplicated. */
  ghost predicate Retired(history: seq<Header>, s0: uint16, s1: uint16) {
    && AllAccepted(history) && history != [] && NoDuplicates(history) && Announces(history, s0, s1)
    && FlowAfter(history).value.IsAllPktsSeen()
  }

  lemma {:induction false} FifIsFirstId(history: seq<Header>, d: bit)
    requires AllAccepted(history)
    ensures Ids(history, d) != [] <==> history != [] && FlowAfter(history).value.Dir(d).fif_seen
    ensures history != [] && Ids(history, d) == [] ==> Ids(history, 1 - d) != []
  {
    if history != [] {
      FifIsFirstId(history[..|history| - 1], d);
    }
  }

  /** One error a packet at most, and none for the packet that opens the second direction. */
  lemma {:induction false} AtMostOneErrorEach(history: seq<Header>)
    requires AllAccepted(history) && SteadySizes(history)
    ensures ErrorCount(history) + (if Ids(history, 0) != [] && Ids(history, 1) != [] then 1 else 0)
            <= |Ids(history, 0)| + |Ids(history, 1)|
  {
    hide Receive;
    if history != [] {
      var before := history[..|history| - 1];
      var h := history[|history| - 1];
      AtMostOneErrorEach(before);
      SizeIsAsAnnounced(before, h.dir, h.m_flow_size);
      OneErrorAtMost(FlowAfter(before), h);
      FifIsFirstId(before, h.dir);
      assert Ids(history, 1 - h.dir) == Ids(before, 1 - h.dir);
    }
  }

  lemma {:induction false} IdsBelow(history: seq<Header>, d: bit, size: uint16)
    requires AllAccepted(history)
    requires forall i :: 0 <= i < |history| && history[i].dir == d ==> history[i].m_flow_size == size
    ensures forall i :: 0 <= i < |Ids(history, d)| ==> 0 <= Ids(history, d)[i] < size
  {
    if history != [] {
      IdsBelow(history[..|history| - 1], d, size);
    }
  }

  lemma {:induction false} Pigeonhole(s: seq<int>, n: nat)
    requires NoRepeats(s) && forall i :: 0 <= i < |s| ==> 0 <= s[i] < n
    ensures |s| <= n
  {
    if s != [] {
      assert 0 <= s[0] < n;
      if i :| 0 <= i < |s| && s[i] == n - 1 {
        Pigeonhole(s[..i] + s[i + 1..], n - 1);
      } else {
        Pigeonhole(s, n - 1);
      }
    }
  }

  lemma SmallSizesAreSound(history: seq<Header>, s0: uint16, s1: uint16)
    requires Retired(history, s0, s1) && s0 + s1 <= 0x1_0000
    ensures ArrivedInOrder(history)
  {
    hide FlowAfter, ErrorCount, ArrivedInOrder, Flow.IsAllPktsSeen;
    assert SteadySizes(history);
    AtMostOneErrorEach(history);
    IdsBelow(history, 0, s0);
    IdsBelow(history, 1, s1);
    Pigeonhole(Ids(history, 0), s0);
    Pigeonhole(Ids(history, 1), s1);
    CompletionIsSound(history);
  }

  // ----- Beyond that it can, for every pair of sizes.

  /** Packets of a direction of `size` packets, with these ids. */
  function Packets(d: bit, size: uint16, ids: seq<int>): (s: seq<Header>)
    requires forall i :: 0 <= i < |ids| ==> 0 <= ids[i] < size
    ensures |s| == |ids|
  {
    seq(|ids|, i requires 0 <= i < |ids| => Header(RX_CHECK_MAGIC, 0, ids[i], size, d, true, 0, 5))
  }

  /** The sequence number a direction expects after these ids. */
  function SeqAfter(ids: seq<int>): int {
    if |ids| < 2 then |ids|
    else if ids[|ids| - 1] == 0 then SeqAfter(ids[..|ids| - 1])
    else ids[|ids| - 1] + 1
  }

  /** The errors they raise; `opens` says that the first of them opens the flow. */
  function Misses(ids: seq<int>, opens: bool): nat {
    if |ids| == 0 then 0
    else if |ids| == 1 then (if opens && ids[0] != 0 then 1 else 0)
    else
      var last := ids[|ids| - 1];
      Misses(ids[..|ids| - 1], opens) + (if last == 0 || last != SeqAfter(ids[..|ids| - 1]) then 1 else 0)
  }

  lemma Snoc(history: seq<Header>, h: Header)
    requires AllAccepted(history) && h.Accepted()
    ensures AllAccepted(history + [h])
    ensures FlowAfter(history + [h]) == Some(Receive(FlowAfter(history), h))
    ensures ErrorCount(history + [h]) == ErrorCount(history) + |Errors(FlowAfter(history), h)|
  {
    assert (history + [h])[..|history|] == history;
  }

  /** What direction d holds after these ids. */
  function Held(size: uint16, ids: seq<int>): PerDir
    requires |ids| < 0x1_0000 && 0 <= SeqAfter(ids) < 0x1_0000
  {
    if ids == [] then NOTHING_SEEN else PerDir(size, |ids|, SeqAfter(ids), true)
  }

  lemma {:induction false} SeqIsShort(size: uint16, ids: seq<int>)
    requires forall i :: 0 <= i < |ids| ==> 0 <= ids[i] < size
    ensures 0 <= SeqAfter(ids) < 0x1_0000
  {
    if |ids| >= 2 {
      SeqIsShort(size, ids[..|ids| - 1]);
    }
  }

  /** After `done`, which left direction d untouched, packets with these ids arrive. */
  lemma {:induction false} PacketsRun(done: seq<Header>, d: bit, size: uint16, ids: seq<int>)
    requires AllAccepted(done) && |ids| < 0x1_0000 && forall i :: 0 <= i < |ids| ==> 0 <= ids[i] < size
    requires done != [] ==> FlowAfter(done).value.Dir(d) == NOTHING_SEEN && FlowAfter(done).value.both_dir
    ensures AllAccepted(done + Packets(d, size, ids))
    ensures ErrorCount(done + Packets(d, size, ids)) == ErrorCount(done) + Misses(ids, done == [])
    ensures 0 <= SeqAfter(ids) < 0x1_0000
    ensures done + Packets(d, size, ids) != [] ==>
              var f := FlowAfter(done + Packets(d, size, ids)).value;
              && f.both_dir && f.Dir(d) == Held(size, ids)
              && f.Dir(1 - d) == (if done == [] then NOTHING_SEEN else FlowAfter(done).value.Dir(1 - d))
  {
    SeqIsShort(size, ids);
    if ids == [] {
      assert done + Packets(d, size, ids) == done;
    } else {
      var n := |ids| - 1;
      var before := done + Packets(d, size, ids[..n]);
      var h := Packets(d, size, ids)[n];
      assert done + Packets(d, size, ids) == before + [h];
      PacketsRun(done, d, size, ids[..n]);
      Snoc(before, h);
      PacketsNext(FlowAfter(before), d, size, ids);
    }
  }

  lemma PacketsNext(lf: Option<Flow>, d: bit, size: uint16, ids: seq<int>)
    requires 0 < |ids| < 0x1_0000 && forall i :: 0 <= i < |ids| ==> 0 <= ids[i] < size
    requires 0 <= SeqAfter(ids) < 0x1_0000 && 0 <= SeqAfter(ids[..|ids| - 1]) < 0x1_0000
    requires lf.Some? ==> lf.value.both_dir && lf.value.Dir(d) == Held(size, ids[..|ids| - 1])
    requires lf == None ==> |ids| == 1
    ensures var h := Packets(d, size, ids)[|ids| - 1];
            var f := Receive(lf, h);
            && f.both_dir && f.Dir(d) == Held(size, ids)
            && f.Dir(1 - d) == (if lf == None then NOTHING_SEEN else lf.value.Dir(1 - d))
            && (|ids| > 1 ==>
                  |Errors(lf, h)| == if h.m_pkt_id == 0 || h.m_pkt_id != SeqAfter(ids[..|ids| - 1]) then 1 else 0)
            && (|ids| == 1 ==> |Errors(lf, h)| == if lf == None && h.m_pkt_id != 0 then 1 else 0)
  {
  }

  lemma {:induction false} PacketsIds(done: seq<Header>, d: bit, size: uint16, ids: seq<int>)
    requires forall i :: 0 <= i < |ids| ==> 0 <= ids[i] < size
    ensures Ids(done + Packets(d, size, ids), d) == Ids(done, d) + ids
    ensures Ids(done + Packets(d, size, ids), 1 - d) == Ids(done, 1 - d)
  {
    var all := done + Packets(d, size, ids);
    if ids == [] {
      assert all == done;
    } else {
      var n := |ids| - 1;
      assert all[..|all| - 1] == done + Packets(d, size, ids[..n]);
      PacketsIds(done, d, size, ids[..n]);
      assert ids == ids[..n] + [ids[n]];
    }
  }

  /** size-1, size-2, ..., n of them */
  function Countdown(size: nat, n: nat): (s: seq<int>)
    ensures |s| == n && forall i :: 0 <= i < n ==> s[i] == size - 1 - i
  {
    seq(n, i => size - 1 - i)
  }

  /** What comes first: 0, 1, ... in order, leaving at least two, or 1 and then 0. */
  predicate Opening(first: seq<int>, size: nat) {
    (first == Iota(|first|) && 0 < |first| <= size - 2) || (first == [1, 0] && size >= 2)
  }

  lemma {:induction false} IotaMissesNothing(n: nat, opens: bool)
    ensures Misses(Iota(n), opens) == 0 && SeqAfter(Iota(n)) == n
  {
    if n > 0 {
      IotaMissesNothing(n - 1, opens);
      assert Iota(n)[..n - 1] == Iota(n - 1);
    }
  }

  lemma OneZeroMisses(opens: bool)
    ensures Misses([1, 0], opens) == (if opens then 2 else 1) && SeqAfter([1, 0]) == 1
  {
    assert [1, 0][..1] == [1];
  }

  /** After such an opening, every packet of the countdown is an error. */
  lemma {:induction false} CountdownMisses(first: seq<int>, size: nat, n: nat, opens: bool)
    requires Opening(first, size) && n <= size - |first|
    ensures Misses(first + Countdown(size, n), opens) == Misses(first, opens) + n
    ensures n > 0 ==> SeqAfter(first + Countdown(size, n)) == size - n + 1
  {
    var ids := first + Countdown(size, n);
    if n == 0 {
      assert ids == first;
    } else {
      assert ids[..|ids| - 1] == first + Countdown(size, n - 1);
      CountdownMisses(first, size, n - 1, opens);
      if n == 1 {
        assert first + Countdown(size, 0) == first;
        IotaMissesNothing(|first|, opens);
        OneZeroMisses(opens);
      }
    }
  }

  function Order(first: seq<int>, size: nat): seq<int>
    requires |first| <= size
  {
    first + Countdown(size, size - |first|)
  }

  lemma OrderIsWhole(first: seq<int>, size: nat)
    requires Opening(first, size)
    ensures |Order(first, size)| == size && NoRepeats(Order(first, size))
    ensures forall i :: 0 <= i < size ==> 0 <= Order(first, size)[i] < size
  {
  }

  /** The ids of direction 0: direction 1, with all but its first packet an error, leaves so many errors to it. */
  function FirstOrder(s0: uint16, s1: uint16): seq<int>
    requires s0 + s1 > 0x1_0000
  {
    var errors := 0x1_0001 - s1;
    Order(if errors == s0 then [1, 0] else Iota(s0 - errors), s0)
  }

  lemma FirstOrderIsWhole(s0: uint16, s1: uint16)
    requires s0 + s1 > 0x1_0000
    ensures |FirstOrder(s0, s1)| == s0 && NoRepeats(FirstOrder(s0, s1))
    ensures forall i :: 0 <= i < s0 ==> 0 <= FirstOrder(s0, s1)[i] < s0
    ensures Misses(FirstOrder(s0, s1), true) == 0x1_0001 - s1
  {
    hide Order, Misses;
    var errors := 0x1_0001 - s1;
    var first := if errors == s0 then [1, 0] else Iota(s0 - errors);
    assert Opening(first, s0);
    OrderIsWhole(first, s0);
    OrderMisses(first, s0, true);
    IotaMissesNothing(s0 - errors, true);
    OneZeroMisses(true);
  }

  lemma OrderMisses(first: seq<int>, size: nat, opens: bool)
    requires Opening(first, size)
    ensures Misses(Order(first, size), opens) == Misses(first, opens) + size - |first|
  {
    CountdownMisses(first, size, size - |first|, opens);
  }

  function Disorder(s0: uint16, s1: uint16): seq<Header>
    requires s0 + s1 > 0x1_0000
  {
    FirstOrderIsWhole(s0, s1);
    OrderIsWhole([1, 0], s1);
    Packets(0, s0, FirstOrder(s0, s1)) + Packets(1, s1, Order([1, 0], s1))
  }

  lemma DisorderArrivesOnce(s0: uint16, s1: uint16)
    requires s0 + s1 > 0x1_0000
    ensures NoDuplicates(Disorder(s0, s1)) && Disorder(s0, s1) != []
  {
    hide FirstOrder, Order, NoRepeats, Ids;
    FirstOrderIsWhole(s0, s1);
    OrderIsWhole([1, 0], s1);
    BothWaysIds(s0, FirstOrder(s0, s1), s1, Order([1, 0], s1));
  }

  lemma BothWaysIds(s0: uint16, ids0: seq<int>, s1: uint16, ids1: seq<int>)
    requires forall i :: 0 <= i < |ids0| ==> 0 <= ids0[i] < s0
    requires forall i :: 0 <= i < |ids1| ==> 0 <= ids1[i] < s1
    ensures Ids(Packets(0, s0, ids0) + Packets(1, s1, ids1), 0) == ids0
    ensures Ids(Packets(0, s0, ids0) + Packets(1, s1, ids1), 1) == ids1
  {
    hide Ids, Packets;
    var there := Packets(0, s0, ids0);
    assert [] + there == there;
    NothingReceived();
    PacketsIds([], 0, s0, ids0);
    PacketsIds(there, 1, s1, ids1);
    assert [] + ids0 == ids0 && [] + ids1 == ids1;
  }

  lemma DisorderAnnounces(s0: uint16, s1: uint16)
    requires s0 + s1 > 0x1_0000
    ensures Announces(Disorder(s0, s1), s0, s1)
  {
    hide FirstOrder, Order, NoRepeats;
    FirstOrderIsWhole(s0, s1);
    OrderIsWhole([1, 0], s1);
  }

  lemma NothingReceived()
    ensures Ids([], 0) == [] == Ids([], 1)
  {
  }

  lemma DisorderRun(s0: uint16, s1: uint16)
    requires s0 + s1 > 0x1_0000
    ensures AllAccepted(Disorder(s0, s1)) && FlowAfter(Disorder(s0, s1)).Some?
    ensures ErrorCount(Disorder(s0, s1)) == 0x1_0000
    ensures FlowAfter(Disorder(s0, s1)).value.IsAllPktsSeen()
  {
    hide FirstOrder, Order, Misses, SeqAfter, FlowAfter, ErrorCount;
    FirstOrderIsWhole(s0, s1);
    OrderIsWhole([1, 0], s1);
    var there := Packets(0, s0, FirstOrder(s0, s1));
    assert [] + there == there;
    NothingHappened();
    PacketsRun([], 0, s0, FirstOrder(s0, s1));
    PacketsRun(there, 1, s1, Order([1, 0], s1));
    OrderMisses([1, 0], s1, false);
    OneZeroMisses(false);
    SomeFlow(Disorder(s0, s1));
    ErrorCounterIsModular(Disorder(s0, s1));
    assert U16(0x1_0000) == 0;
  }

  lemma NothingHappened()
    ensures AllAccepted([]) && ErrorCount([]) == 0
  {
  }

  lemma SomeFlow(history: seq<Header>)
    requires AllAccepted(history) && history != []
    ensures FlowAfter(history).Some?
  {
  }

  /** Whenever more than 65536 packets are announced in both directions, there is an order in which they can
      arrive, nothing twice, that raises 65536 errors and has the flow retired as complete. */
  lemma CompletionCanHideDisorder(s0: uint16, s1: uint16) returns (history: seq<Header>)
    requires s0 + s1 > 0x1_0000
    ensures Retired(history, s0, s1)
    ensures !ArrivedInOrder(history) && ErrorCount(history) == 0x1_0000
  {
    hide ArrivedInOrder, Disorder, Flow.IsAllPktsSeen, NoDuplicates, ErrorCount;
    history := Disorder(s0, s1);
    DisorderArrivesOnce(s0, s1);
    DisorderAnnounces(s0, s1);
    DisorderRun(s0, s1);
    assert SteadySizes(history);
    CompletionIsSound(history);
  }

  /** The two sizes of a flow alone decide whether its completion can be trusted. */
  lemma CompletionIsSoundIff(s0: uint16, s1: uint16)
    ensures (forall history :: Retired(history, s0, s1) ==> ArrivedInOrder(history)) <==> s0 + s1 <= 0x1_0000
  {
    hide ArrivedInOrder, NoDuplicates, Announces, FlowAfter;
    if s0 + s1 <= 0x1_0000 {
      forall history | Retired(history, s0, s1) ensures ArrivedInOrder(history) {
        SmallSizesAreSound(history, s0, s1);
      }
    } else {
      var history := CompletionCanHideDisorder(s0, s1);
    }
  }
}
