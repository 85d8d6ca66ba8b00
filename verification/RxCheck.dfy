/** The RX checker: a table of flows, one aging timer a flow, and the error counters. */
module RxCheck {
  import opened RxFlow
  import opened Basics
  import opened TimerWheel

  datatype Stats = Stats(
    m_total_rx: nat, m_lookup: nat, m_found: nat, m_fif: nat, m_add: nat, m_remove: nat, m_active: int,
    m_err_drop: nat, m_err_aged: nat, m_err_no_magic: nat, m_err_wrong_pkt_id: nat,
    m_err_fif_seen_twice: nat, m_err_open_with_no_fif_pkt: nat,
    m_err_oo_dup: nat, m_err_oo_early: nat, m_err_oo_late: nat, m_err_flow_length_changed: nat)
  {
    function TotalErr(): nat {
      m_err_drop + m_err_aged + m_err_no_magic + m_err_wrong_pkt_id + m_err_fif_seen_twice
      + m_err_open_with_no_fif_pkt + m_err_oo_dup + m_err_oo_early + m_err_oo_late + m_err_flow_length_changed
    }

    /** The counters of packets that were not the next ones of their direction. */
    function SequenceErr(): nat {
      m_err_fif_seen_twice + m_err_open_with_no_fif_pkt + m_err_oo_dup + m_err_oo_early + m_err_oo_late
    }

    function CountError(e: ErrorKind): Stats {
      match e
      case FifSeenTwice => this.(m_err_fif_seen_twice := m_err_fif_seen_twice + 1)
      case OpenWithNoFif => this.(m_err_open_with_no_fif_pkt := m_err_open_with_no_fif_pkt + 1)
      case OoDup => this.(m_err_oo_dup := m_err_oo_dup + 1)
      case OoEarly => this.(m_err_oo_early := m_err_oo_early + 1)
      case OoLate => this.(m_err_oo_late := m_err_oo_late + 1)
      case FlowLengthChanged => this.(m_err_flow_length_changed := m_err_flow_length_changed + 1)
    }

    function CountErrors(errors: seq<ErrorKind>): (s: Stats)
      ensures s.TotalErr() == TotalErr() + |errors|
      ensures s.m_add == m_add && s.m_remove == m_remove && s.m_active == m_active && s.m_lookup == m_lookup
    {
      if errors == [] then this else CountErrors(errors[..|errors| - 1]).CountError(errors[|errors| - 1])
    }

    function LookedUp(): Stats {
      this.(m_total_rx := m_total_rx + 1, m_lookup := m_lookup + 1)
    }

    /** One flow more. */
    function Opened(fif: bool): Stats {
      this.(m_fif := m_fif + (if fif then 1 else 0), m_add := m_add + 1, m_active := m_active + 1)
    }

    /** on_flow_end: one flow less, and what is missing of it is counted unless the table is being drained. */
    function Closed(f: Flow, aged_correctly: bool, on_drain: bool): (s: Stats)
      ensures s.m_add == m_add && s.m_remove == m_remove + 1 && s.m_active == m_active - 1
      ensures s.m_lookup == m_lookup
    {
      var s := this.(m_remove := m_remove + 1, m_active := m_active - 1);
      if on_drain then s
      else
        var drop := if f.TotalExpected() > f.TotalSeen() then f.TotalExpected() - f.TotalSeen() else 0;
        s.(m_err_drop := s.m_err_drop + drop, m_err_aged := s.m_err_aged + (if aged_correctly then 0 else 1))
    }
  }

  /** Each kind of error has a counter of its own. */
  lemma {:induction false} CountErrorsByKind(s: Stats, errors: seq<ErrorKind>)
    ensures s.CountErrors(errors)
            == s.(m_err_fif_seen_twice := s.m_err_fif_seen_twice + multiset(errors)[FifSeenTwice],
                  m_err_open_with_no_fif_pkt := s.m_err_open_with_no_fif_pkt + multiset(errors)[OpenWithNoFif],
                  m_err_oo_dup := s.m_err_oo_dup + multiset(errors)[OoDup],
                  m_err_oo_early := s.m_err_oo_early + multiset(errors)[OoEarly],
                  m_err_oo_late := s.m_err_oo_late + multiset(errors)[OoLate],
                  m_err_flow_length_changed := s.m_err_flow_length_changed + multiset(errors)[FlowLengthChanged])
  {
    if errors != [] {
      var n := |errors| - 1;
      CountErrorsByKind(s, errors[..n]);
      assert errors == errors[..n] + [errors[n]];
      assert multiset(errors) == multiset(errors[..n]) + multiset{errors[n]};
    }
  }

  lemma {:induction false} CountErrorsSequence(s: Stats, errors: seq<ErrorKind>)
    ensures s.CountErrors(errors).SequenceErr() == s.SequenceErr() + SequenceErrorsIn(errors)
  {
    hide Stats.TotalErr;
    if errors != [] {
      CountErrorsSequence(s, errors[..|errors| - 1]);
    }
  }

  lemma {:induction false} CountErrorsConcat(s: Stats, a: seq<ErrorKind>, b: seq<ErrorKind>)
    ensures s.CountErrors(a).CountErrors(b) == s.CountErrors(a + b)
  {
    if b == [] {
      assert a + b == a;
    } else {
      assert (a + b)[..|a + b| - 1] == a + b[..|b| - 1];
      CountErrorsConcat(s, a, b[..|b| - 1]);
    }
  }

  const NO_STATS := Stats(0, 0, 0, 0, 0, 0, 0, 0, 0, 0, 0, 0, 0, 0, 0, 0, 0)

  /** The larger of what the packet asks for and five seconds. */
  function AgingDelay(h: Header): (sec: real)
    ensures sec >= 5.0 && sec >= h.m_aging_sec as real && (sec == 5.0 || sec == h.m_aging_sec as real)
  {
    if h.m_aging_sec > 5 then h.m_aging_sec as real else 5.0
  }

  /** What the checker stands for: the open flows, when each will be given up, and the counters. */
  datatype View = View(table: map<uint64, Flow>, due: map<uint64, real>, stats: Stats)
  {
    ghost predicate Consistent() {
      && table.Keys == due.Keys
      && stats.m_active == stats.m_add - stats.m_remove == |table|
    }

    function Lookup(k: uint64): Option<Flow> {
      if k in table then Some(table[k]) else None
    }

    /** An accepted packet is looked up, judged and recorded, and the flow's timer restarted. */
    function Admitted(h: Header, now: real): View
      requires h.Accepted()
    {
      var k := h.m_flow_id;
      var lf := Lookup(k);
      var counted := stats.LookedUp();
      var known := if lf.Some? then counted.(m_found := counted.m_found + 1) else counted.Opened(h.m_pkt_id == 0);
      View(table[k := Receive(lf, h)], due[k := now + AgingDelay(h)], known.CountErrors(Errors(lf, h)))
    }

    function Without(k: uint64, aged_correctly: bool, on_drain: bool): View
      requires k in table
    {
      View(table - {k}, due - {k}, stats.Closed(table[k], aged_correctly, on_drain))
    }

    /** Retire the flow of the packet just admitted if that was its last one. */
    function Retired(k: uint64): View
      requires k in table
    {
      if table[k].IsAllPktsSeen() then Without(k, true, false) else this
    }
  }

  lemma AdmittedFound(v: View, h: Header, now: real)
    requires h.Accepted() && h.m_flow_id in v.table
    ensures var k, lf := h.m_flow_id, Some(v.table[h.m_flow_id]);
            var s := v.stats.LookedUp();
            v.Admitted(h, now) == View(v.table[k := Receive(lf, h)], v.due[k := now + AgingDelay(h)],
                                       s.(m_found := s.m_found + 1).CountErrors(Errors(lf, h)))
  {
  }

  lemma AdmittedAdded(v: View, h: Header, now: real)
    requires h.Accepted() && h.m_flow_id !in v.table
    ensures v.Admitted(h, now)
            == View(v.table[h.m_flow_id := Receive(None, h)], v.due[h.m_flow_id := now + AgingDelay(h)],
                                       v.stats.LookedUp().Opened(h.m_pkt_id == 0).CountErrors(Errors(None, h)))
  {
  }

  lemma AdmittedIsConsistent(v: View, h: Header, now: real)
    requires v.Consistent() && h.Accepted()
    ensures v.Admitted(h, now).Consistent()
  {
  }

  lemma WithoutIsConsistent(v: View, k: uint64, aged_correctly: bool, on_drain: bool)
    requires v.Consistent() && k in v.table
    ensures v.Without(k, aged_correctly, on_drain).Consistent()
  {
    RemovedKey(v.table, k);
  }

  ghost predicate EarliestDue(due: map<uint64, real>, time: real) {
    exists k :: IsFirstDue(due, k) && due[k] == time
  }

  ghost predicate IsFirstDue(due: map<uint64, real>, k: uint64) {
    k in due && forall j :: j in due ==> due[k] <= due[j]
  }

  ghost predicate Selects(order: seq<uint64>, v: View) {
    NoRepeats(order) && forall k :: k in order ==> k in v.table
  }

  /** The flows in `order` are given up one after the other. */
  ghost function GivenUp(v: View, order: seq<uint64>, on_drain: bool): (w: View)
    requires Selects(order, v)
    ensures forall k :: k in w.table <==> k in v.table && k !in order
    ensures forall k :: k in w.table ==> w.table[k] == v.table[k]
    ensures forall k :: k in w.due <==> k in v.due && k !in order
    ensures forall k :: k in w.due ==> w.due[k] == v.due[k]
  {
    if order == [] then v
    else
      GivenUp(v, order[..|order| - 1], on_drain).Without(order[|order| - 1], false, on_drain)
  }

  /** What a flow announced and did not receive, with the 16-bit sums of on_flow_end. */
  function Missing(f: Flow): nat {
    var announced, received := U16(f.m_dir0.m_flow_size + f.m_dir1.m_flow_size), U16(f.m_dir0.m_pkts + f.m_dir1.m_pkts);
    if announced < received then 0 else announced - received
  }

  ghost function MissingIn(table: map<uint64, Flow>, order: seq<uint64>): nat
    requires forall k :: k in order ==> k in table
  {
    if order == [] then 0 else MissingIn(table, order[..|order| - 1]) + Missing(table[order[|order| - 1]])
  }

  /** Each flow given up is counted as aged, and what is missing of it as dropped, unless the table is being drained. */
  lemma {:induction false} GivenUpCounts(v: View, order: seq<uint64>, on_drain: bool)
    requires Selects(order, v)
    ensures GivenUp(v, order, on_drain).stats
            == v.stats.(m_remove := v.stats.m_remove + |order|, m_active := v.stats.m_active - |order|,
                        m_err_aged := v.stats.m_err_aged + (if on_drain then 0 else |order|),
                        m_err_drop := v.stats.m_err_drop + (if on_drain then 0 else MissingIn(v.table, order)))
  {
    if order != [] {
      GivenUpCounts(v, order[..|order| - 1], on_drain);
    }
  }

  /** A flow that is complete misses nothing, and its end is no error. */
  lemma CompleteCountsNothing(s: Stats, f: Flow, on_drain: bool)
    requires f.IsAllPktsSeen()
    ensures Missing(f) == 0
    ensures s.Closed(f, true, on_drain) == s.(m_remove := s.m_remove + 1, m_active := s.m_active - 1)
  {
  }

  ghost predicate DueBefore(v: View, order: seq<uint64>, now: real) {
    forall k :: k in order ==> k in v.due && v.due[k] < now
  }

  ghost predicate NothingDueBefore(v: View, now: real) {
    forall k :: k in v.due ==> v.due[k] >= now
  }

  /** Exactly the flows that were due have been given up. */
  ghost predicate GaveUpWhatWasDue(v: View, order: seq<uint64>, now: real) {
    forall k :: k in v.table ==> (k in order <==> k in v.due && v.due[k] < now)
  }

  lemma GaveUpAll(v: View, order: seq<uint64>, on_drain: bool, now: real)
    requires v.Consistent() && Selects(order, v) && DueBefore(v, order, now)
    requires NothingDueBefore(GivenUp(v, order, on_drain), now)
    ensures GaveUpWhatWasDue(v, order, now)
  {
    var w := GivenUp(v, order, on_drain);
    forall k | k in v.table && k !in order ensures v.due[k] >= now {
      assert k in w.due && w.due[k] == v.due[k];
    }
  }

  lemma GivenUpNone(v: View, on_drain: bool, now: real)
    ensures Selects([], v) && GivenUp(v, [], on_drain) == v && DueBefore(v, [], now)
  {
  }

  lemma DueBeforeNext(v: View, order: seq<uint64>, on_drain: bool, now: real, k: uint64)
    requires Selects(order, v) && DueBefore(v, order, now)
    requires k in GivenUp(v, order, on_drain).due && GivenUp(v, order, on_drain).due[k] < now
    ensures DueBefore(v, order + [k], now)
  {
  }

  lemma GivenUpNext(v: View, order: seq<uint64>, on_drain: bool, k: uint64)
    requires Selects(order, v) && k in GivenUp(v, order, on_drain).table
    ensures Selects(order + [k], v)
    ensures GivenUp(v, order + [k], on_drain) == GivenUp(v, order, on_drain).Without(k, false, on_drain)
  {
    assert (order + [k])[..|order|] == order;
  }

  /** What one call of handle_packet does. */
  ghost predicate PacketStep(v: View, h: Header, now: real, w: View) {
    if h.m_magic != RX_CHECK_MAGIC then
      w == v.(stats := v.stats.(m_total_rx := v.stats.m_total_rx + 1, m_err_no_magic := v.stats.m_err_no_magic + 1))
    else if !h.Accepted() then
      w == v.(stats := v.stats.(m_total_rx := v.stats.m_total_rx + 1,
                                m_err_wrong_pkt_id := v.stats.m_err_wrong_pkt_id + 1))
    else
      Swept(v.Admitted(h, now).Retired(h.m_flow_id), now, w)
  }

  /** Once in 256 lookups, every flow that is due is given up. */
  ghost predicate Swept(v: View, now: real, w: View) {
    if v.stats.m_lookup % 256 == 0
    then exists order :: Selects(order, v) && GaveUpWhatWasDue(v, order, now) && w == GivenUp(v, order, false)
    else w == v
  }

  class CRxCheckFlow {
    var m_flow_id: uint64
    var m_state: Flow            // both directions, the error counter and the both-directions flag
    var m_aged_correctly: bool
    const m_aging_timer_handle: CFlowTimerHandle

    constructor ()
      ensures m_state == Flow(NOTHING_SEEN, NOTHING_SEEN, 0, false) && !m_aged_correctly
      ensures fresh(m_aging_timer_handle) && m_aging_timer_handle.m_timer == null
      ensures m_aging_timer_handle.m_object == this
    {
      m_flow_id := 0;
      m_state := Flow(NOTHING_SEEN, NOTHING_SEEN, 0, false);
      m_aged_correctly := false;
      var handle := new CFlowTimerHandle();
      m_aging_timer_handle := handle;
      new;
      m_aging_timer_handle.m_object := this;
    }
  }

  /** Every open flow outside `pending` has one running timer, set to the time it is due, and every
      running timer belongs to an open flow. */
  ghost predicate TimersMatch(ft: map<uint64, CRxCheckFlow>, due: map<uint64, real>,
                              keyOf: map<CFlowTimerHandle, uint64>,
                              deadlines: map<CFlowTimerHandle, real>, pending: set<uint64>)
  {
    && due.Keys == ft.Keys - pending
    && keyOf.Keys == deadlines.Keys
    && (forall k :: k in due ==> ft[k].m_aging_timer_handle in keyOf && keyOf[ft[k].m_aging_timer_handle] == k)
    && (forall h :: h in keyOf ==>
          keyOf[h] in due && ft[keyOf[h]].m_aging_timer_handle == h && deadlines[h] == due[keyOf[h]])
  }

  lemma TimerStarted(ft: map<uint64, CRxCheckFlow>, due: map<uint64, real>, keyOf: map<CFlowTimerHandle, uint64>,
                     deadlines: map<CFlowTimerHandle, real>, pending: set<uint64>, k: uint64, time: real)
    requires TimersMatch(ft, due, keyOf, deadlines, pending)
    requires k in ft && pending <= {k}
    requires k in pending ==> ft[k].m_aging_timer_handle !in deadlines
    ensures k !in pending ==> ft[k].m_aging_timer_handle in deadlines
    ensures var h := ft[k].m_aging_timer_handle;
            TimersMatch(ft, due[k := time], keyOf[h := k], deadlines[h := time], {})
  {
  }

  lemma TimerStopped(ft: map<uint64, CRxCheckFlow>, due: map<uint64, real>, keyOf: map<CFlowTimerHandle, uint64>,
                     deadlines: map<CFlowTimerHandle, real>, k: uint64)
    requires TimersMatch(ft, due, keyOf, deadlines, {})
    requires k in ft
    ensures ft[k].m_aging_timer_handle in deadlines
    ensures var h := ft[k].m_aging_timer_handle;
            TimersMatch(ft, due - {k}, keyOf - {h}, deadlines - {h}, {k})
  {
  }

  lemma FlowForgotten(ft: map<uint64, CRxCheckFlow>, due: map<uint64, real>, keyOf: map<CFlowTimerHandle, uint64>,
                      deadlines: map<CFlowTimerHandle, real>, k: uint64)
    requires TimersMatch(ft, due, keyOf, deadlines, {k})
    ensures TimersMatch(ft - {k}, due, keyOf, deadlines, {})
  {
  }

  /** The handle that expires first belongs to a flow that is due first. */
  lemma FirstDue(ft: map<uint64, CRxCheckFlow>, due: map<uint64, real>, keyOf: map<CFlowTimerHandle, uint64>,
                 deadlines: map<CFlowTimerHandle, real>, h: CFlowTimerHandle)
    requires TimersMatch(ft, due, keyOf, deadlines, {})
    requires ExpiresFirst(deadlines, h)
    ensures h in keyOf && IsFirstDue(due, keyOf[h]) && due[keyOf[h]] == deadlines[h]
    ensures keyOf[h] in ft && ft[keyOf[h]].m_aging_timer_handle == h
    ensures TimersMatch(ft, due - {keyOf[h]}, keyOf - {h}, deadlines - {h}, {keyOf[h]})
  {
    TimerStopped(ft, due, keyOf, deadlines, keyOf[h]);
    forall j | j in due ensures due[keyOf[h]] <= due[j] {
      assert deadlines[ft[j].m_aging_timer_handle] == due[j];
    }
  }

  lemma PeekedDue(ft: map<uint64, CRxCheckFlow>, due: map<uint64, real>, keyOf: map<CFlowTimerHandle, uint64>,
                  deadlines: map<CFlowTimerHandle, real>, h: CFlowTimerHandle)
    requires TimersMatch(ft, due, keyOf, deadlines, {})
    requires ExpiresFirst(deadlines, h)
    ensures EarliestDue(due, deadlines[h])
  {
    FirstDue(ft, due, keyOf, deadlines, h);
  }

  lemma NothingDue(ft: map<uint64, CRxCheckFlow>, due: map<uint64, real>, keyOf: map<CFlowTimerHandle, uint64>)
    requires TimersMatch(ft, due, keyOf, map[], {})
    ensures due == map[]
  {
    assert keyOf.Keys == {};
  }

  ghost predicate Shrunk(before: map<uint64, CRxCheckFlow>, after: map<uint64, CRxCheckFlow>) {
    forall k :: k in after ==> k in before && after[k] == before[k]
  }

  lemma ShrunkNone(before: map<uint64, CRxCheckFlow>)
    ensures Shrunk(before, before)
  {
  }

  lemma ShrunkNext(before: map<uint64, CRxCheckFlow>, after: map<uint64, CRxCheckFlow>, k: uint64)
    requires Shrunk(before, after)
    ensures Shrunk(before, after - {k})
  {
  }

  class RxCheckManager {
    const m_tw: CTimerWheel
    var m_ft: map<uint64, CRxCheckFlow>
    var m_stats: Stats
    var m_on_drain: bool
    var m_cur_time: real
    ghost var table: map<uint64, Flow>               // the open flows
    ghost var due: map<uint64, real>                 // when each open flow will be given up
    ghost var keyOf: map<CFlowTimerHandle, uint64>   // whose timer is running

    ghost var Repr: set<object>

    ghost function Abs(): View
      reads this
    {
      View(table, due, m_stats)
    }

    /** The table's flows, in the states recorded.  set_aged_correctly is followed by on_flow_end, so only a
        flow that is being retired is marked. */
    ghost predicate TableOk(retiring: set<uint64>)
      reads this`m_ft, this`table, m_ft.Values`m_flow_id, m_ft.Values`m_state, m_ft.Values`m_aged_correctly
    {
      && m_ft.Keys == table.Keys
      && forall k :: k in m_ft ==>
           m_ft[k].m_flow_id == k && m_ft[k].m_state == table[k] && (k !in retiring ==> !m_ft[k].m_aged_correctly)
    }

    /** The timers of the open flows, a timer handle leading back to the flow it is part of. */
    ghost predicate TimersOk(pending: set<uint64>)
      reads this`m_ft, this`due, this`keyOf, m_tw`deadlines
      reads (set k | k in m_ft :: m_ft[k].m_aging_timer_handle)`m_object
    {
      && TimersMatch(m_ft, due, keyOf, m_tw.deadlines, pending)
      && forall k :: k in m_ft ==> m_ft[k].m_aging_timer_handle.m_object == m_ft[k]
    }

    ghost predicate Valid()
      reads this, m_ft.Values`m_flow_id, m_ft.Values`m_state, m_ft.Values`m_aged_correctly
      reads (set k | k in m_ft :: m_ft[k].m_aging_timer_handle)`m_object
      reads m_tw, m_tw.m_pq`m_time
      reads m_tw.queued`m_time, m_tw.queued`m_updated_time, m_tw.queued`m_flow, m_tw.deadlines.Keys`m_timer
    {
      m_tw.Valid() && TableOk({}) && TimersOk({}) && CountOk()
    }

    ghost predicate CountOk()
      reads this`m_ft, this`m_stats
    {
      m_stats.m_active == m_stats.m_add - m_stats.m_remove == |m_ft|
    }

    /** Valid(), and the checker owns its parts. */
    ghost predicate ReprOk()
      reads this`Repr, this`m_ft, m_tw`queued
    {
      && this in Repr && m_tw in Repr
      && m_tw.queued <= Repr
      && forall k :: k in m_ft ==> m_ft[k] in Repr && m_ft[k].m_aging_timer_handle in Repr
    }

    constructor ()
      ensures Valid() && ReprOk() && fresh(Repr) && Abs() == View(map[], map[], NO_STATS) && !m_on_drain
    {
      var tw := new CTimerWheel();
      m_tw := tw;
      m_ft := map[];
      m_stats := NO_STATS;
      m_on_drain := false;
      m_cur_time := 0.00000001;
      table, due, keyOf := map[], map[], map[];
      Repr := {this, tw};
    }

    // ----- handle_packet, the flow found

    method FirstInDirection(lf: CRxCheckFlow, h: Header)
      requires h.Accepted() && !lf.m_state.Dir(h.dir).fif_seen
      modifies lf`m_state
      ensures lf.m_state == Receive(Some(old(lf.m_state)), h) && Errors(Some(old(lf.m_state)), h) == []
    {
      lf.m_state := lf.m_state.WithDir(h.dir, FifSeen(h.m_flow_size));
    }

    method CountFlowError(lf: CRxCheckFlow, e: ErrorKind)
      modifies this`m_stats, lf`m_state
      ensures m_stats == old(m_stats).CountErrors([e])
      ensures lf.m_state == old(lf.m_state).(m_oo_err := U16(old(lf.m_state).m_oo_err + 1))
    {
      lf.m_state := lf.m_state.(m_oo_err := U16(lf.m_state.m_oo_err + 1));
      m_stats := m_stats.CountError(e);
      assert [e][..0] == [];
    }

    method CheckLength(lf: CRxCheckFlow, h: Header) returns (ghost e: seq<ErrorKind>)
      modifies this`m_stats, lf`m_state
      ensures e == if old(lf.m_state).Dir(h.dir).m_flow_size != h.m_flow_size then [FlowLengthChanged] else []
      ensures m_stats == old(m_stats).CountErrors(e)
      ensures lf.m_state == old(lf.m_state).(m_oo_err := U16(old(lf.m_state).m_oo_err + |e|))
    {
      e := [];
      if lf.m_state.Dir(h.dir).m_flow_size != h.m_flow_size {
        CountFlowError(lf, FlowLengthChanged);
        e := [FlowLengthChanged];
      }
    }

    method FifAgain(lf: CRxCheckFlow, h: Header)
      requires h.Accepted() && lf.m_state.Dir(h.dir).fif_seen && h.m_pkt_id == 0
      modifies this`m_stats, lf`m_state
      ensures lf.m_state == Receive(Some(old(lf.m_state)), h)
      ensures m_stats == old(m_stats).CountErrors(Errors(Some(old(lf.m_state)), h))
    {
      hide Stats.CountErrors;
      var lpd := lf.m_state.Dir(h.dir);
      CountFlowError(lf, FifSeenTwice);
      ghost var length := CheckLength(lf, h);
      U16Sum(old(lf.m_state).m_oo_err + 1, |length|);
      CountErrorsConcat(old(m_stats), [FifSeenTwice], length);
      lf.m_state := lf.m_state.WithDir(h.dir, lpd.(m_pkts := U16(lpd.m_pkts + 1)));
    }

    method CheckOrder(lf: CRxCheckFlow, h: Header) returns (ghost e: seq<ErrorKind>)
      modifies this`m_stats, lf`m_state
      ensures e == var expected := old(lf.m_state).Dir(h.dir).m_seq;
                   if expected == h.m_pkt_id then []
                   else if expected - 1 == h.m_pkt_id then [OoDup]
                   else if expected < h.m_pkt_id then [OoLate]
                   else [OoEarly]
      ensures m_stats == old(m_stats).CountErrors(e)
      ensures lf.m_state == old(lf.m_state).(m_oo_err := U16(old(lf.m_state).m_oo_err + |e|))
    {
      e := [];
      var c_seq := lf.m_state.Dir(h.dir).m_seq;
      if c_seq != h.m_pkt_id {
        var kind := if c_seq - 1 == h.m_pkt_id then OoDup else if c_seq < h.m_pkt_id then OoLate else OoEarly;
        CountFlowError(lf, kind);
        e := [kind];
      }
    }

    method CheckSequence(lf: CRxCheckFlow, h: Header)
      requires h.Accepted() && lf.m_state.Dir(h.dir).fif_seen && h.m_pkt_id != 0
      modifies this`m_stats, lf`m_state
      ensures lf.m_state == Receive(Some(old(lf.m_state)), h)
      ensures m_stats == old(m_stats).CountErrors(Errors(Some(old(lf.m_state)), h))
    {
      hide Stats.CountErrors;
      var lpd := lf.m_state.Dir(h.dir);
      ghost var length := CheckLength(lf, h);
      ghost var order := CheckOrder(lf, h);
      U16Sum(old(lf.m_state).m_oo_err + |length|, |order|);
      CountErrorsConcat(old(m_stats), length, order);
      assert Errors(Some(old(lf.m_state)), h) == length + order;
      lf.m_state := lf.m_state.WithDir(h.dir, lpd.(m_seq := h.m_pkt_id + 1, m_pkts := U16(lpd.m_pkts + 1)));
    }

    method JudgeKnown(lf: CRxCheckFlow, h: Header)
      requires h.Accepted()
      modifies this`m_stats, lf`m_state
      ensures lf.m_state == Receive(Some(old(lf.m_state)), h)
      ensures m_stats == old(m_stats).(m_found := old(m_stats).m_found + 1)
                         .CountErrors(Errors(Some(old(lf.m_state)), h))
    {
      m_stats := m_stats.(m_found := m_stats.m_found + 1);
      if !lf.m_state.Dir(h.dir).fif_seen {
        FirstInDirection(lf, h);
      } else if h.m_pkt_id == 0 {
        FifAgain(lf, h);
      } else {
        CheckSequence(lf, h);
      }
    }

    // ----- handle_packet, the flow not found

    method NewFlow(h: Header) returns (lf: CRxCheckFlow)
      requires h.Accepted()
      modifies this`m_stats
      ensures fresh(lf) && fresh(lf.m_aging_timer_handle)
      ensures lf.m_aging_timer_handle.m_timer == null && lf.m_aging_timer_handle.m_object == lf
      ensures lf.m_flow_id == h.m_flow_id && !lf.m_aged_correctly && lf.m_state == Receive(None, h)
      ensures m_stats == old(m_stats).Opened(h.m_pkt_id == 0).CountErrors(Errors(None, h))
    {
      lf := new CRxCheckFlow();
      lf.m_flow_id := h.m_flow_id;
      lf.m_state := lf.m_state.(both_dir := h.both_dir);
      lf.m_state := lf.m_state.WithDir(h.dir, FifSeen(h.m_flow_size));
      m_stats := m_stats.Opened(h.m_pkt_id == 0);
      if h.m_pkt_id != 0 {
        CountFlowError(lf, OpenWithNoFif);
      }
    }

    method Insert(lf: CRxCheckFlow, h: Header)
      requires TableOk({}) && TimersOk({}) && h.Accepted() && h.m_flow_id !in m_ft
      requires lf.m_flow_id == h.m_flow_id && !lf.m_aged_correctly && lf.m_state == Receive(None, h)
      requires lf.m_aging_timer_handle.m_object == lf
      modifies this`m_ft, this`table
      ensures TableOk({}) && TimersOk({h.m_flow_id})
      ensures m_ft == old(m_ft)[h.m_flow_id := lf]
      ensures table == old(table)[h.m_flow_id := lf.m_state]
    {
      m_ft := m_ft[h.m_flow_id := lf];
      table := table[h.m_flow_id := lf.m_state];
    }

    method JudgeInTable(lf: CRxCheckFlow, h: Header)
      requires TableOk({}) && CountOk() && h.Accepted() && h.m_flow_id in m_ft && lf == m_ft[h.m_flow_id]
      modifies this`m_stats, this`table, lf`m_state
      ensures TableOk({}) && CountOk()
      ensures table == old(table)[h.m_flow_id := Receive(Some(old(table)[h.m_flow_id]), h)]
      ensures m_stats == old(m_stats).(m_found := old(m_stats).m_found + 1)
                         .CountErrors(Errors(Some(old(table)[h.m_flow_id]), h))
    {
      JudgeKnown(lf, h);
      table := table[h.m_flow_id := lf.m_state];
    }

    /** Restart a flow's aging timer. */
    method StartAging(lf: CRxCheckFlow, ghost pending: set<uint64>, time: real)
      requires m_tw.Valid() && TimersOk(pending) && time > 0.0
      requires lf.m_flow_id in m_ft && m_ft[lf.m_flow_id] == lf && pending <= {lf.m_flow_id}
      requires lf.m_flow_id in pending ==>
                 lf.m_aging_timer_handle.m_timer == null && lf.m_aging_timer_handle !in m_tw.deadlines
      modifies this`due, this`keyOf
      modifies m_tw`m_st_start, m_tw`m_pq, m_tw`queued, m_tw`deadlines, m_tw`m_st_alloc
      modifies lf.m_aging_timer_handle`m_timer, m_tw.queued`m_flow, m_tw.queued`m_updated_time
      ensures m_tw.Valid() && TimersOk({})
      ensures due == old(due)[lf.m_flow_id := time]
      ensures fresh(m_tw.queued - old(m_tw.queued))
    {
      hide TimersMatch, CTimerWheel.Valid;
      TimerStarted(m_ft, due, keyOf, m_tw.deadlines, pending, lf.m_flow_id, time);
      m_tw.RestartTimer(lf.m_aging_timer_handle, time);
      due := due[lf.m_flow_id := time];
      keyOf := keyOf[lf.m_aging_timer_handle := lf.m_flow_id];
    }

    // ----- the end of a flow

    method EraseFlow(lp: CRxCheckFlow)
      requires TableOk({lp.m_flow_id}) && lp.m_flow_id in m_ft && m_ft[lp.m_flow_id] == lp
      requires TimersOk({lp.m_flow_id})
      modifies this`m_ft, this`table
      ensures TableOk({}) && TimersOk({})
      ensures m_ft == old(m_ft) - {lp.m_flow_id}
      ensures table == old(table) - {lp.m_flow_id}
    {
      ghost var k := lp.m_flow_id;
      FlowForgotten(m_ft, due, keyOf, m_tw.deadlines, k);
      m_ft := m_ft - {lp.m_flow_id};
      table := table - {k};
    }

    /** on_flow_end, for a flow whose timer no longer runs. */
    method OnFlowEnd(lp: CRxCheckFlow)
      requires TableOk({lp.m_flow_id}) && lp.m_flow_id in m_ft && m_ft[lp.m_flow_id] == lp
      requires TimersOk({lp.m_flow_id}) && CountOk()
      modifies this`m_ft, this`m_stats, this`table
      ensures TableOk({}) && TimersOk({}) && CountOk()
      ensures m_ft == old(m_ft) - {lp.m_flow_id}
      ensures table == old(table) - {lp.m_flow_id}
      ensures m_stats == old(m_stats).Closed(lp.m_state, lp.m_aged_correctly, m_on_drain)
    {
      ghost var k, before := lp.m_flow_id, m_ft;
      m_stats := m_stats.Closed(lp.m_state, lp.m_aged_correctly, m_on_drain);
      EraseFlow(lp);
      assert CountOk() by { RemovedKey(before, k); }
    }

    // ----- handle_packet

    method StopAging(lf: CRxCheckFlow)
      requires m_tw.Valid() && TimersOk({})
      requires lf.m_flow_id in m_ft && m_ft[lf.m_flow_id] == lf
      modifies this`due, this`keyOf
      modifies m_tw`m_st_stop, m_tw`deadlines, lf.m_aging_timer_handle`m_timer, m_tw.queued`m_flow
      ensures m_tw.Valid() && TimersOk({lf.m_flow_id})
      ensures due == old(due) - {lf.m_flow_id}
    {
      hide TimersMatch, CTimerWheel.Valid;
      TimerStopped(m_ft, due, keyOf, m_tw.deadlines, lf.m_flow_id);
      m_tw.StopTimer(lf.m_aging_timer_handle);
      due := due - {lf.m_flow_id};
      keyOf := keyOf - {lf.m_aging_timer_handle};
    }

    /** set_aged_correctly, then on_flow_end. */
    method EndComplete(lf: CRxCheckFlow)
      requires TableOk({}) && lf.m_flow_id in m_ft && m_ft[lf.m_flow_id] == lf
      requires TimersOk({lf.m_flow_id}) && CountOk()
      modifies this`m_ft, this`m_stats, this`table, lf`m_aged_correctly
      ensures TableOk({}) && TimersOk({}) && CountOk()
      ensures m_ft == old(m_ft) - {lf.m_flow_id}
      ensures table == old(table) - {lf.m_flow_id}
      ensures m_stats == old(m_stats).Closed(lf.m_state, true, m_on_drain)
    {
      hide TimersOk, CountOk, Stats.Closed;
      lf.m_aged_correctly := true;
      OnFlowEnd(lf);
    }

    method AdmitKnown(lf: CRxCheckFlow, h: Header, now: real)
      requires h.Accepted() && now >= 0.0 && h.m_flow_id in m_ft && lf == m_ft[h.m_flow_id]
      requires m_tw.Valid() && TableOk({}) && TimersOk({}) && CountOk()
      requires lf.m_flow_id == h.m_flow_id && lf.m_flow_id in table
      modifies this`m_stats, this`table, this`due, this`keyOf, lf`m_state
      modifies m_tw`m_st_start, m_tw`m_pq, m_tw`queued, m_tw`deadlines, m_tw`m_st_alloc
      modifies lf.m_aging_timer_handle`m_timer, m_tw.queued`m_flow, m_tw.queued`m_updated_time
      ensures m_tw.Valid() && TableOk({}) && TimersOk({}) && CountOk()
      ensures table == old(table)[h.m_flow_id := Receive(Some(old(table)[h.m_flow_id]), h)]
      ensures due == old(due)[h.m_flow_id := now + AgingDelay(h)]
      ensures m_stats == old(m_stats).(m_found := old(m_stats).m_found + 1)
                         .CountErrors(Errors(Some(old(table)[h.m_flow_id]), h))
      ensures fresh(m_tw.queued - old(m_tw.queued))
    {
      hide *;
      JudgeInTable(lf, h);
      StartAging(lf, {}, now + AgingDelay(h));
    }

    method AddNew(h: Header) returns (lf: CRxCheckFlow)
      requires TableOk({}) && TimersOk({}) && CountOk()
      requires h.Accepted() && h.m_flow_id !in m_ft
      modifies this`m_ft, this`m_stats, this`table
      ensures TableOk({}) && TimersOk({h.m_flow_id}) && CountOk()
      ensures fresh(lf) && fresh(lf.m_aging_timer_handle) && lf.m_flow_id == h.m_flow_id
      ensures lf.m_aging_timer_handle.m_timer == null
      ensures m_ft == old(m_ft)[h.m_flow_id := lf]
      ensures table == old(table)[h.m_flow_id := Receive(None, h)]
      ensures m_stats == old(m_stats).Opened(h.m_pkt_id == 0).CountErrors(Errors(None, h))
    {
      hide TableOk, TimersOk, Receive, Errors, Stats.CountErrors;
      ghost var before := m_ft;
      lf := NewFlow(h);
      Insert(lf, h);
      AddedKey(before, h.m_flow_id, lf);
    }

    method AdmitNew(h: Header, now: real) returns (lf: CRxCheckFlow)
      requires h.Accepted() && now >= 0.0 && h.m_flow_id !in m_ft
      requires m_tw.Valid() && TableOk({}) && TimersOk({}) && CountOk()
      modifies this`m_ft, this`m_stats, this`table, this`due, this`keyOf
      modifies m_tw`m_st_start, m_tw`m_pq, m_tw`queued, m_tw`deadlines, m_tw`m_st_alloc
      modifies m_tw.queued`m_flow, m_tw.queued`m_updated_time
      ensures m_tw.Valid() && TableOk({}) && TimersOk({}) && CountOk()
      ensures fresh(lf) && fresh(lf.m_aging_timer_handle) && lf.m_flow_id == h.m_flow_id
      ensures m_ft == old(m_ft)[h.m_flow_id := lf]
      ensures table == old(table)[h.m_flow_id := Receive(None, h)]
      ensures due == old(due)[h.m_flow_id := now + AgingDelay(h)]
      ensures m_stats == old(m_stats).Opened(h.m_pkt_id == 0).CountErrors(Errors(None, h))
      ensures fresh(m_tw.queued - old(m_tw.queued))
    {
      hide *;
      lf := AddNew(h);
      StartAging(lf, {h.m_flow_id}, now + AgingDelay(h));
    }

    /** Stop the timer of a flow that is complete, and end the flow. */
    method Retire(lf: CRxCheckFlow)
      requires lf.m_flow_id in m_ft && lf == m_ft[lf.m_flow_id]
      requires m_tw.Valid() && TableOk({}) && TimersOk({}) && CountOk()
      modifies this`m_ft, this`m_stats, this`table, this`due, this`keyOf, lf`m_aged_correctly
      modifies m_tw`m_st_stop, m_tw`deadlines, lf.m_aging_timer_handle`m_timer, m_tw.queued`m_flow
      ensures m_tw.Valid() && TableOk({}) && TimersOk({}) && CountOk()
      ensures m_ft == old(m_ft) - {lf.m_flow_id}
      ensures table == old(table) - {lf.m_flow_id} && due == old(due) - {lf.m_flow_id}
      ensures m_stats == old(m_stats).Closed(lf.m_state, true, m_on_drain)
    {
      hide *;
      StopAging(lf);
      EndComplete(lf);
    }

    // ----- aging

    method DisarmFirst() returns (flow: CFlowTimerHandle?, ghost k: uint64)
      requires m_tw.Valid() && TimersOk({})
      modifies this`due, this`keyOf
      modifies m_tw`m_pq, m_tw`queued, m_tw`m_st_free, m_tw`m_st_handle, m_tw`deadlines
      modifies m_tw.queued`m_time, m_tw.queued`m_flow, m_tw.deadlines.Keys`m_timer
      ensures m_tw.Valid() && m_tw.queued <= old(m_tw.queued) && m_tw.deadlines.Keys <= old(m_tw.deadlines.Keys)
      ensures flow == null ==> TimersOk({}) && old(due) == due == map[]
      ensures flow != null ==>
                && TimersOk({k}) && IsFirstDue(old(due), k) && due == old(due) - {k}
                && k in m_ft && m_ft[k].m_aging_timer_handle == flow
                && m_tw.m_pq != [] && m_tw.m_pq[0].m_flow == null
    {
      hide CTimerWheel.Valid, TimersMatch, IsFirstDue, ExpiresFirst;
      k := 0;
      ghost var before := m_tw.deadlines;
      flow := m_tw.HandleBegin();
      if flow == null {
        NothingDue(m_ft, due, keyOf);
      } else {
        FirstDue(m_ft, due, keyOf, before, flow);
        k := keyOf[flow];
        due := due - {k};
        keyOf := keyOf - {flow};
      }
    }

    /** flow_aging_callback. */
    method FlowAgingCallback(t: CFlowTimerHandle, ghost k: uint64)
      requires TableOk({}) && TimersOk({k}) && CountOk()
      requires k in m_ft && m_ft[k].m_aging_timer_handle == t
      modifies this`m_ft, this`m_stats, this`table
      ensures TableOk({}) && TimersOk({}) && CountOk()
      ensures m_ft == old(m_ft) - {k} && table == old(table) - {k}
      ensures k in old(table) && m_stats == old(m_stats).Closed(old(table)[k], false, m_on_drain)
    {
      var lp := t.m_object as CRxCheckFlow;
      OnFlowEnd(lp);
    }

    method CallBackAndFree(flow: CFlowTimerHandle, ghost k: uint64)
      requires m_tw.Valid() && m_tw.m_pq != [] && m_tw.m_pq[0].m_flow == null
      requires TableOk({}) && TimersOk({k}) && CountOk()
      requires k in m_ft && m_ft[k].m_aging_timer_handle == flow
      modifies this`m_ft, this`m_stats, this`table, m_tw`m_pq, m_tw`queued, m_tw`m_st_free
      ensures m_tw.Valid() && TableOk({}) && TimersOk({}) && CountOk()
      ensures m_ft == old(m_ft) - {k} && table == old(table) - {k}
      ensures k in old(table) && m_stats == old(m_stats).Closed(old(table)[k], false, m_on_drain)
      ensures m_tw.queued <= old(m_tw.queued)
    {
      hide *;
      FlowAgingCallback(flow, k);
      m_tw.HandleEnd();
    }

    /** The wheel's handle(), with the aging callback between its two halves. */
    method HandleTimer() returns (fired: bool, ghost k: uint64)
      requires m_tw.Valid() && TableOk({}) && TimersOk({}) && CountOk()
      modifies this`m_ft, this`m_stats, this`table, this`due, this`keyOf
      modifies m_tw`m_pq, m_tw`queued, m_tw`m_st_free, m_tw`m_st_handle, m_tw`deadlines
      modifies m_tw.queued`m_time, m_tw.queued`m_flow, m_tw.deadlines.Keys`m_timer
      ensures m_tw.Valid() && TableOk({}) && TimersOk({}) && CountOk()
      ensures !fired ==> old(due) == due == map[] && table == old(table) && m_stats == old(m_stats) && m_ft == old(m_ft)
      ensures fired ==>
                && IsFirstDue(old(due), k) && due == old(due) - {k}
                && k in old(table) && table == old(table) - {k}
                && m_stats == old(m_stats).Closed(old(table)[k], false, m_on_drain)
                && m_ft == old(m_ft) - {k}
      ensures m_tw.queued <= old(m_tw.queued) && m_tw.deadlines.Keys <= old(m_tw.deadlines.Keys)
    {
      hide *;
      var flow;
      flow, k := DisarmFirst();
      if flow == null {
        return false, k;
      }
      CallBackAndFree(flow, k);
      return true, k;
    }

    method PeekDue() returns (found: bool, time: real)
      requires m_tw.Valid() && TimersOk({})
      modifies m_tw`m_pq, m_tw`queued, m_tw`m_st_free, m_tw.queued`m_time
      ensures m_tw.Valid() && TimersOk({}) && m_tw.queued <= old(m_tw.queued)
      ensures !found ==> due == map[]
      ensures found ==> EarliestDue(due, time)
    {
      hide TimersMatch, EarliestDue;
      found, time := m_tw.PeekTopTime();
      if found {
        PeekedDue(m_ft, due, keyOf, m_tw.deadlines, m_tw.m_pq[0].m_flow);
      } else {
        NothingDue(m_ft, due, keyOf);
      }
    }

    /** One round of aging: give up the flow that is due first, if it is due before `now` (or at all). */
    method GiveUpOne(now: Option<real>) returns (fired: bool, ghost k: uint64)
      requires Valid()
      modifies this`m_ft, this`m_stats, this`table, this`due, this`keyOf
      modifies m_tw`m_pq, m_tw`queued, m_tw`m_st_free, m_tw`m_st_handle, m_tw`deadlines
      modifies m_tw.queued`m_time, m_tw.queued`m_flow, m_tw.deadlines.Keys`m_timer
      ensures Valid()
      ensures !fired ==> Abs() == old(Abs()) && m_ft == old(m_ft)
      ensures !fired ==> (match now case Some(t) => NothingDueBefore(Abs(), t) case None => due == map[])
      ensures fired ==> IsFirstDue(old(due), k) && (now.Some? ==> old(due)[k] < now.value)
      ensures fired ==> k in old(table) && Abs() == old(Abs()).Without(k, false, m_on_drain) && m_ft == old(m_ft) - {k}
      ensures m_tw.queued <= old(m_tw.queued) && m_tw.deadlines.Keys <= old(m_tw.deadlines.Keys)
    {
      hide CTimerWheel.Valid, TimersMatch, TableOk, CountOk, TimersOk;
      var found, min_time := PeekDue();
      if !found || (now.Some? && min_time >= now.value) {
        return false, 0;
      }
      fired, k := HandleTimer();
    }

    /** tw_handle: give up exactly the flows that are due before m_cur_time. */
    method TwHandle() returns (ghost order: seq<uint64>)
      requires Valid()
      modifies this`m_ft, this`m_stats, this`table, this`due, this`keyOf
      modifies m_tw`m_pq, m_tw`queued, m_tw`m_st_free, m_tw`m_st_handle, m_tw`deadlines
      modifies m_tw.queued`m_time, m_tw.queued`m_flow, m_tw.deadlines.Keys`m_timer
      ensures Valid()
      ensures Selects(order, old(Abs())) && Abs() == GivenUp(old(Abs()), order, m_on_drain)
      ensures GaveUpWhatWasDue(old(Abs()), order, m_cur_time)
      ensures Shrunk(old(m_ft), m_ft) && m_tw.queued <= old(m_tw.queued)
    {
      hide Valid, DueBefore, NothingDueBefore, GaveUpWhatWasDue, GivenUp, Shrunk;
      ShrunkNone(m_ft);
      ghost var v := Abs();
      ValidIsConsistent();
      order := [];
      GivenUpNone(v, m_on_drain, m_cur_time);
      var more := true;
      while more
        invariant Valid()
        invariant m_tw.queued <= old(m_tw.queued) && m_tw.deadlines.Keys <= old(m_tw.deadlines.Keys)
        invariant Selects(order, v) && Abs() == GivenUp(v, order, m_on_drain)
        invariant DueBefore(v, order, m_cur_time)
        invariant Shrunk(old(m_ft), m_ft)
        invariant !more ==> NothingDueBefore(Abs(), m_cur_time)
        decreases due.Keys, more
      {
        ghost var k, ft;
        ft := m_ft;
        more, k := GiveUpOne(Some(m_cur_time));
        if more {
          ShrunkNext(old(m_ft), ft, k);
          DueBeforeNext(v, order, m_on_drain, m_cur_time, k);
          GivenUpNext(v, order, m_on_drain, k);
          order := order + [k];
        }
      }
      GaveUpAll(v, order, m_on_drain, m_cur_time);
    }

    /** tw_drain: give everything up, without counting it as an error. */
    method TwDrain() returns (ghost order: seq<uint64>)
      requires Valid()
      modifies this`m_ft, this`m_stats, this`table, this`due, this`keyOf, this`m_on_drain
      modifies m_tw`m_pq, m_tw`queued, m_tw`m_st_free, m_tw`m_st_handle, m_tw`deadlines
      modifies m_tw.queued`m_time, m_tw.queued`m_flow, m_tw.deadlines.Keys`m_timer
      ensures Valid() && !m_on_drain
      ensures Selects(order, old(Abs())) && Abs() == GivenUp(old(Abs()), order, true)
      ensures table == map[] && m_ft == map[]
    {
      hide Valid;
      SetDrain(true);
      ghost var v := Abs();
      order := [];
      var more := true;
      while more
        invariant Valid() && m_on_drain
        invariant m_tw.queued <= old(m_tw.queued) && m_tw.deadlines.Keys <= old(m_tw.deadlines.Keys)
        invariant Selects(order, v) && Abs() == GivenUp(v, order, true)
        invariant !more ==> due == map[]
        decreases due.Keys, more
      {
        ghost var k;
        more, k := GiveUpOne(None);
        if more {
          GivenUpNext(v, order, true, k);
          order := order + [k];
        }
      }
      ValidIsConsistent();
      SetDrain(false);
    }

    method SetDrain(on: bool)
      requires Valid()
      modifies this`m_on_drain
      ensures Valid() && m_on_drain == on
    {
      hide CTimerWheel.Valid, TimersMatch;
      m_on_drain := on;
    }

    method CountLookup()
      requires CountOk()
      modifies this`m_stats
      ensures CountOk()
      ensures m_stats == old(m_stats).LookedUp()
    {
      m_stats := m_stats.(m_total_rx := m_stats.m_total_rx + 1, m_lookup := m_stats.m_lookup + 1);
    }

    lemma FoundFlow(k: uint64)
      requires TableOk({}) && k in m_ft
      ensures k in table && m_ft[k].m_flow_id == k
    {
    }

    lemma NotFound(k: uint64)
      requires TableOk({}) && k !in m_ft
      ensures k !in table
    {
    }

    ghost method Own(parts: set<object>)
      requires this in Repr && m_tw in Repr && m_tw.queued <= Repr + parts
      requires forall k :: k in m_ft ==> m_ft[k] in Repr + parts && m_ft[k].m_aging_timer_handle in Repr + parts
      modifies this`Repr
      ensures ReprOk() && Repr == old(Repr) + parts
    {
      Repr := Repr + parts;
    }

    method AdmitFound(h: Header, now: real) returns (lf: CRxCheckFlow)
      requires m_tw.Valid() && TableOk({}) && TimersOk({}) && CountOk()
      requires ReprOk() && h.Accepted() && now >= 0.0 && h.m_flow_id in m_ft
      modifies Repr
      ensures m_tw.Valid() && TableOk({}) && TimersOk({}) && CountOk()
      ensures ReprOk() && fresh(Repr - old(Repr))
      ensures h.m_flow_id in m_ft && lf == m_ft[h.m_flow_id]
      ensures m_on_drain == old(m_on_drain) && m_cur_time == old(m_cur_time)
      ensures Abs() == old(Abs()).Admitted(h, now)
    {
      hide CTimerWheel.Valid, TableOk, TimersOk, CountOk;
      hide Receive, Errors, Stats.CountErrors, Stats.Opened, Stats.LookedUp, AgingDelay, Header.Accepted, View.Admitted;
      FoundFlow(h.m_flow_id);
      AdmittedFound(Abs(), h, now);
      CountLookup();
      lf := m_ft[h.m_flow_id];
      AdmitKnown(lf, h, now);
      Own(m_tw.queued - old(m_tw.queued));
    }

    method AdmitAdded(h: Header, now: real) returns (lf: CRxCheckFlow)
      requires m_tw.Valid() && TableOk({}) && TimersOk({}) && CountOk()
      requires ReprOk() && h.Accepted() && now >= 0.0 && h.m_flow_id !in m_ft
      modifies Repr
      ensures m_tw.Valid() && TableOk({}) && TimersOk({}) && CountOk()
      ensures ReprOk() && fresh(Repr - old(Repr))
      ensures h.m_flow_id in m_ft && lf == m_ft[h.m_flow_id]
      ensures m_on_drain == old(m_on_drain) && m_cur_time == old(m_cur_time)
      ensures Abs() == old(Abs()).Admitted(h, now)
    {
      hide CTimerWheel.Valid, TableOk, TimersOk, CountOk;
      hide Receive, Errors, Stats.CountErrors, Stats.Opened, Stats.LookedUp, AgingDelay, Header.Accepted, View.Admitted;
      NotFound(h.m_flow_id);
      AdmittedAdded(Abs(), h, now);
      CountLookup();
      lf := AdmitNew(h, now);
      Own(m_tw.queued - old(m_tw.queued) + {lf, lf.m_aging_timer_handle});
    }

    /** Everything handle_packet does with an accepted packet, up to the restart of the timer. */
    method Admit(h: Header, now: real) returns (lf: CRxCheckFlow)
      requires m_tw.Valid() && TableOk({}) && TimersOk({}) && CountOk()
      requires ReprOk() && h.Accepted() && now >= 0.0
      modifies Repr
      ensures m_tw.Valid() && TableOk({}) && TimersOk({}) && CountOk()
      ensures ReprOk() && fresh(Repr - old(Repr))
      ensures h.m_flow_id in m_ft && lf == m_ft[h.m_flow_id]
      ensures m_on_drain == old(m_on_drain) && m_cur_time == old(m_cur_time)
      ensures Abs() == old(Abs()).Admitted(h, now)
    {
      hide *;
      if h.m_flow_id in m_ft {
        lf := AdmitFound(h, now);
      } else {
        lf := AdmitAdded(h, now);
      }
    }

    lemma OwnsHandles()
      requires TimersOk({}) && ReprOk()
      ensures m_tw.deadlines.Keys <= Repr
    {
      forall h | h in m_tw.deadlines ensures h in Repr {
        assert h in keyOf && m_ft[keyOf[h]].m_aging_timer_handle == h;
      }
    }

    method SetStats(s: Stats)
      requires Valid()
      requires s.m_active == m_stats.m_active && s.m_add == m_stats.m_add && s.m_remove == m_stats.m_remove
      modifies this`m_stats
      ensures Valid() && m_stats == s
    {
      hide CTimerWheel.Valid, TableOk, TimersOk;
      m_stats := s;
    }

    /** Admit the packet, and retire its flow if it was the last one. */
    method Judge(h: Header, now: real)
      requires Valid() && ReprOk() && h.Accepted() && now >= 0.0 && !m_on_drain
      modifies Repr
      ensures Valid() && ReprOk() && fresh(Repr - old(Repr)) && !m_on_drain
      ensures Abs() == old(Abs()).Admitted(h, now).Retired(h.m_flow_id)
      ensures m_cur_time == old(m_cur_time)
    {
      hide CTimerWheel.Valid, TableOk, TimersOk, CountOk;
      hide Header.Accepted, View.Admitted, Flow.IsAllPktsSeen, Stats.Closed;
      var lf := Admit(h, now);
      FoundFlow(h.m_flow_id);
      FoundState(h.m_flow_id);
      if lf.m_state.IsAllPktsSeen() {
        Retire(lf);
      }
    }

    lemma FoundState(k: uint64)
      requires TableOk({}) && k in m_ft
      ensures k in table && table[k] == m_ft[k].m_state
    {
    }

    /** Aging is looked after once in 256 lookups. */
    method Sweep(ghost now: real)
      requires Valid() && ReprOk() && !m_on_drain && m_cur_time == now
      modifies Repr
      ensures Valid() && ReprOk() && fresh(Repr - old(Repr)) && !m_on_drain
      ensures Swept(old(Abs()), now, Abs())
    {
      hide CTimerWheel.Valid, TableOk, CountOk, GivenUp, GaveUpWhatWasDue;
      if m_stats.m_lookup % 256 == 0 {
        OwnsHandles();
        ghost var order := TwHandle();
      }
    }

    method HandlePacket(rxh: Header, now: real)
      requires Valid() && ReprOk() && !m_on_drain && now >= 0.0
      modifies Repr
      ensures Valid() && ReprOk() && !m_on_drain && fresh(Repr - old(Repr))
      ensures PacketStep(old(Abs()), rxh, now, Abs())
    {
      hide Valid, View.Admitted, View.Retired, Swept;
      if rxh.m_magic != RX_CHECK_MAGIC {
        SetStats(m_stats.(m_total_rx := m_stats.m_total_rx + 1, m_err_no_magic := m_stats.m_err_no_magic + 1));
        return;
      }
      if rxh.m_pkt_id + 1 > rxh.m_flow_size {
        SetStats(m_stats.(m_total_rx := m_stats.m_total_rx + 1, m_err_wrong_pkt_id := m_stats.m_err_wrong_pkt_id + 1));
        return;
      }
      SetTime(now);
      Judge(rxh, now);
      Sweep(now);
    }

    method SetTime(now: real)
      requires Valid()
      modifies this`m_cur_time
      ensures Valid() && m_cur_time == now
    {
      hide CTimerWheel.Valid, TableOk, TimersOk, CountOk;
      m_cur_time := now;
    }

    lemma ValidIsConsistent()
      requires Valid()
      ensures Abs().Consistent()
      ensures m_ft.Keys == table.Keys
    {
      assert |m_ft.Keys| == |table.Keys|;
    }
  }
}
