/** The lazy timer wheel: cancelled timers stay queued with no owner, postponed timers keep their old
    key until they reach the root, where the key is raised in place. */
module TimerWheel {
  import PriorityQueue

  class CFlowTimer {
    var m_time: real            // key in the queue
    var m_updated_time: real    // postponed deadline, -1 when there is none
    var m_flow: CFlowTimerHandle?

    constructor (time: real, flow: CFlowTimerHandle)
      ensures m_time == time && m_updated_time == -1.0 && m_flow == flow
    {
      m_time, m_updated_time, m_flow := time, -1.0, flow;
    }

    predicate IsPostponed()
      reads this`m_time, this`m_updated_time
    {
      m_updated_time > 0.0 && m_updated_time > m_time
    }

    /** When this timer will really expire. */
    function Deadline(): (d: real)
      reads this`m_time, this`m_updated_time
      ensures m_time <= d
    {
      if IsPostponed() then m_updated_time else m_time
    }
  }

  class CFlowTimerHandle {
    var m_timer: CFlowTimer?
    var m_object: object?

    constructor ()
      ensures m_timer == null && m_object == null
    {
      m_timer := null;
      m_object := null;
    }
  }

  /** What the queue's comparator reads. */
  function Times(q: seq<CFlowTimer>): (key: map<CFlowTimer, real>)
    reads q`m_time
    ensures PriorityQueue.Covers(q, key)
  {
    map t | t in q :: t.m_time
  }

  /** h expires no later than any other armed handle. */
  ghost predicate ExpiresFirst(deadlines: map<CFlowTimerHandle, real>, h: CFlowTimerHandle) {
    h in deadlines && forall g :: g in deadlines ==> deadlines[h] <= deadlines[g]
  }

  /** Of `all`, exactly the handles outside `left` have fired: each once, earliest deadline first, and
      none later than a handle that is left. */
  ghost predicate FiredInOrder(all: map<CFlowTimerHandle, real>, fired: seq<CFlowTimerHandle>,
                               left: map<CFlowTimerHandle, real>)
  {
    && left.Keys <= all.Keys && (forall h :: h in left ==> left[h] == all[h])
    && (forall h :: h in fired ==> h in all && h !in left)
    && (forall h :: h in all ==> h in fired || h in left)
    && (forall i, j :: 0 <= i < j < |fired| ==> fired[i] != fired[j] && all[fired[i]] <= all[fired[j]])
    && (forall h, g :: h in fired && g in left ==> all[h] <= all[g])
  }

  lemma FiredNext(all: map<CFlowTimerHandle, real>, fired: seq<CFlowTimerHandle>,
                  left: map<CFlowTimerHandle, real>, h: CFlowTimerHandle)
    requires FiredInOrder(all, fired, left) && ExpiresFirst(left, h)
    ensures FiredInOrder(all, fired + [h], left - {h})
  {
    forall i | 0 <= i < |fired| ensures fired[i] != h && all[fired[i]] <= all[h] {
      assert fired[i] in fired;
    }
  }

  ghost function NotBefore(deadlines: map<CFlowTimerHandle, real>, now: real): map<CFlowTimerHandle, real> {
    map h | h in deadlines && deadlines[h] >= now :: deadlines[h]
  }

  lemma Overwrite<K, V>(m: map<K, V>, k: K, v: V)
    ensures (m - {k})[k := v] == m[k := v]
  {
  }

  class CTimerWheel {
    var m_pq: seq<CFlowTimer>
    var m_st_alloc: nat
    var m_st_free: nat
    var m_st_start: nat
    var m_st_stop: nat
    var m_st_handle: nat
    ghost var queued: set<CFlowTimer>                     // timers allocated and not yet freed
    ghost var deadlines: map<CFlowTimerHandle, real>      // what the wheel stands for

    ghost predicate Heap()
      reads this`m_pq, this`queued, this`m_st_alloc, this`m_st_free, m_pq`m_time
    {
      && multiset(m_pq) == multiset(queued)
      && PriorityQueue.IsHeap(m_pq, Times(m_pq))
      && m_st_free <= m_st_alloc
      && m_st_alloc - m_st_free == |m_pq|
    }

    /** Live timers and armed handles point at each other, one to one, and a live timer leads to its
        handle's deadline. */
    ghost predicate Paired()
      reads this`queued, this`deadlines, queued`m_time, queued`m_updated_time, queued`m_flow, deadlines.Keys`m_timer
    {
      && (forall t :: t in queued && t.m_flow != null ==> t.m_flow in deadlines && t.m_flow.m_timer == t)
      && (forall h :: h in deadlines ==>
            h.m_timer != null && h.m_timer in queued && h.m_timer.m_flow == h && h.m_timer.Deadline() == deadlines[h])
    }

    ghost predicate Valid()
      reads this, m_pq`m_time, queued`m_time, queued`m_updated_time, queued`m_flow, deadlines.Keys`m_timer
    {
      Heap() && Paired()
    }

    constructor ()
      ensures Valid() && deadlines == map[] && queued == {}
    {
      m_pq := [];
      m_st_alloc, m_st_free, m_st_start, m_st_stop, m_st_handle := 0, 0, 0, 0, 0;
      queued, deadlines := {}, map[];
    }

    /** m_pq.push(t). */
    method PushTimer(t: CFlowTimer)
      requires t in queued && multiset(m_pq) == multiset(queued - {t})
      requires PriorityQueue.IsHeap(m_pq, Times(m_pq))
      modifies this`m_pq
      ensures multiset(m_pq) == multiset(queued) && PriorityQueue.IsHeap(m_pq, Times(m_pq))
      ensures |m_pq| == old(|m_pq|) + 1
    {
      var key := Times(m_pq + [t]);
      PriorityQueue.SameKeys(m_pq, Times(m_pq), key);
      var pq := PriorityQueue.Push(m_pq, key, t);
      assert forall x :: x in pq ==> x in multiset(pq);
      PriorityQueue.SameKeys(pq, key, Times(pq));
      m_pq := pq;
    }

    /** m_pq.pop(), which holds up even when the root's key has just been raised. */
    method PopTimer(t: CFlowTimer)
      requires m_pq != [] && t == m_pq[0] && multiset(m_pq) == multiset(queued)
      requires PriorityQueue.IsHeapBelowRoot(m_pq, Times(m_pq))
      modifies this`m_pq
      ensures t in queued && multiset(m_pq) == multiset(queued - {t})
      ensures PriorityQueue.IsHeap(m_pq, Times(m_pq))
      ensures |m_pq| == old(|m_pq|) - 1
    {
      assert t in multiset(m_pq);
      var key := Times(m_pq);
      var pq := PriorityQueue.Pop(m_pq, key);
      forall x | x in pq ensures x in m_pq {
        assert x in multiset(pq) && x in multiset(m_pq);
      }
      PriorityQueue.SameKeys(pq, key, Times(pq));
      m_pq := pq;
    }

    /** Point a handle and its new timer at each other. */
    method Link(timer: CFlowTimerHandle, t: CFlowTimer)
      requires Paired() && timer !in deadlines
      requires t !in queued && t.m_flow == timer && !t.IsPostponed()
      modifies this`queued, this`deadlines, timer`m_timer
      ensures Paired()
      ensures queued == old(queued) + {t} && deadlines == old(deadlines)[timer := t.m_time]
    {
      timer.m_timer := t;
      queued := queued + {t};
      deadlines := deadlines[timer := t.m_time];
    }

    /** Give a disarmed handle a new timer. */
    method Arm(timer: CFlowTimerHandle, new_time: real) returns (t: CFlowTimer)
      requires Valid() && timer !in deadlines
      modifies this`m_pq, this`queued, this`deadlines, this`m_st_alloc, timer`m_timer
      ensures Valid()
      ensures deadlines == old(deadlines)[timer := new_time]
      ensures fresh(t) && queued == old(queued) + {t}
    {
      t := new CFlowTimer(new_time, timer);
      m_st_alloc := m_st_alloc + 1;
      Link(timer, t);
      assert queued - {t} == old(queued);
      PushTimer(t);
    }

    /** A later deadline is only noted: the timer keeps its place in the queue. */
    method Postpone(timer: CFlowTimerHandle, new_time: real)
      requires Valid() && timer in deadlines
      requires timer.m_timer.m_time < new_time
      modifies timer.m_timer`m_updated_time, this`deadlines
      ensures Valid()
      ensures deadlines == old(deadlines)[timer := if new_time > 0.0 then new_time else timer.m_timer.m_time]
    {
      timer.m_timer.m_updated_time := new_time;
      deadlines := deadlines[timer := timer.m_timer.Deadline()];
    }

    /** Cut a handle's timer off; the timer itself stays queued. */
    method Disown(timer: CFlowTimerHandle)
      requires Valid() && timer in deadlines
      modifies this`deadlines, timer.m_timer`m_flow
      ensures Valid()
      ensures deadlines == old(deadlines) - {timer}
    {
      timer.m_timer.m_flow := null;
      deadlines := deadlines - {timer};
    }

    /** An earlier deadline needs a new timer; the old one is freed when it reaches the root. */
    method Replace(timer: CFlowTimerHandle, new_time: real) returns (t: CFlowTimer)
      requires Valid() && timer in deadlines
      modifies this`m_pq, this`queued, this`deadlines, this`m_st_alloc, timer`m_timer, timer.m_timer`m_flow
      ensures Valid()
      ensures deadlines == old(deadlines)[timer := new_time]
      ensures fresh(t) && queued == old(queued) + {t}
    {
      Disown(timer);
      t := Arm(timer, new_time);
      Overwrite(old(deadlines), timer, new_time);
    }

    /** Every move is recorded but one: from a negative key to a later time that is not positive,
        which the test m_updated_time > 0.0 takes for "never updated". */
    ghost predicate KeepsOldTime(timer: CFlowTimerHandle, new_time: real)
      reads timer, timer.m_timer
    {
      timer.m_timer != null && timer.m_timer.m_time < new_time <= 0.0
    }

    method RestartTimer(timer: CFlowTimerHandle, new_time: real)
      requires Valid()
      requires timer.m_timer == null || timer in deadlines
      modifies this`m_st_start, this`m_pq, this`queued, this`deadlines, this`m_st_alloc
      modifies timer`m_timer, queued`m_flow, queued`m_updated_time
      ensures Valid()
      ensures deadlines == old(deadlines)
                [timer := if old(KeepsOldTime(timer, new_time)) then old(timer.m_timer.m_time) else new_time]
      ensures fresh(queued - old(queued))
      ensures m_st_start == old(m_st_start) + 1
    {
      m_st_start := m_st_start + 1;
      if timer.m_timer == null {
        var _ := Arm(timer, new_time);
      } else {
        var t := timer.m_timer;
        if new_time > t.m_time {
          Postpone(timer, new_time);
        } else {
          var _ := Replace(timer, new_time);
        }
      }
    }

    method StopTimer(timer: CFlowTimerHandle)
      requires Valid()
      requires timer.m_timer == null || timer in deadlines
      modifies this`m_st_stop, this`deadlines, timer`m_timer, queued`m_flow
      ensures Valid()
      ensures deadlines == old(deadlines) - {timer} && timer.m_timer == null
      ensures m_st_stop == old(m_st_stop) + (if old(timer.m_timer) != null then 1 else 0)
    {
      var t := timer.m_timer;
      if t != null {
        m_st_stop := m_st_stop + 1;
        Disown(timer);
        timer.m_timer := null;
      }
    }

    ghost function Postponed(): set<CFlowTimer>
      reads this`queued, queued
    {
      set t | t in queued && t.IsPostponed()
    }

    /** Raise the root's key to its postponed deadline, then pop it and push it again. */
    method RequeueRoot(timer: CFlowTimer)
      requires Valid() && m_pq != [] && timer == m_pq[0] && timer.IsPostponed()
      modifies this`m_pq, timer`m_time
      ensures Valid() && |m_pq| == old(|m_pq|)
      ensures !timer.IsPostponed() && timer in queued
    {
      PriorityQueue.RootIsUnique(m_pq, queued);
      ghost var key := Times(m_pq);
      timer.m_time := timer.m_updated_time;
      PriorityQueue.RaisedRoot(m_pq, key, Times(m_pq));
      PopTimer(timer);
      PushTimer(timer);
    }

    /** Pop and free a timer nobody owns. */
    method FreeRoot(timer: CFlowTimer)
      requires Valid() && m_pq != [] && timer == m_pq[0] && timer.m_flow == null
      modifies this`m_pq, this`queued, this`m_st_free
      ensures Valid() && queued == old(queued) - {timer} && |m_pq| == old(|m_pq|) - 1
      ensures m_st_free == old(m_st_free) + 1
    {
      PopTimer(timer);
      m_st_free := m_st_free + 1;
      queued := queued - {timer};
    }

    lemma NothingArmedInEmptyQueue()
      requires Valid() && m_pq == []
      ensures deadlines == map[]
    {
      assert forall t :: t in queued <==> t in multiset(m_pq);
      assert deadlines.Keys == {};
    }

    /** Free cancelled timers and requeue postponed ones until the root is a timer that is due as it
        stands. */
    method SettleRoot() returns (found: bool)
      requires Valid()
      modifies this`m_pq, this`queued, this`m_st_free, queued`m_time
      ensures Valid() && queued <= old(queued)
      ensures found <==> deadlines != map[]
      ensures found ==> RootIsDue()
    {
      while m_pq != []
        invariant Valid() && queued <= old(queued)
        decreases |m_pq|, Postponed()
      {
        var timer := m_pq[0];
        assert timer in multiset(m_pq);
        if timer.m_flow == null {
          FreeRoot(timer);
        } else if timer.IsPostponed() {
          ghost var before := Postponed();
          RequeueRoot(timer);
          assert Postponed() == before - {timer};
        } else {
          assert timer.m_flow in deadlines;
          return true;
        }
      }
      NothingArmedInEmptyQueue();
      return false;
    }

    /** The root is a live timer whose key is its deadline. */
    ghost predicate RootIsDue()
      reads this`m_pq, m_pq
    {
      m_pq != [] && m_pq[0].m_flow != null && !m_pq[0].IsPostponed()
    }

    lemma DueRootExpiresFirst()
      requires Valid() && RootIsDue()
      ensures ExpiresFirst(deadlines, m_pq[0].m_flow)
      ensures deadlines[m_pq[0].m_flow] == m_pq[0].m_time
    {
      assert m_pq[0] in multiset(m_pq);
      forall h | h in deadlines ensures m_pq[0].m_time <= deadlines[h] {
        assert h.m_timer in multiset(m_pq);
        var j :| 0 <= j < |m_pq| && m_pq[j] == h.m_timer;
        PriorityQueue.RootIsEarliest(m_pq, Times(m_pq), j);
      }
    }

    method PeekTopTime() returns (found: bool, time: real)
      requires Valid()
      modifies this`m_pq, this`queued, this`m_st_free, queued`m_time
      ensures Valid() && queued <= old(queued)
      ensures found <==> deadlines != map[]
      ensures found ==> RootIsDue() && ExpiresFirst(deadlines, m_pq[0].m_flow) && time == deadlines[m_pq[0].m_flow]
    {
      found := SettleRoot();
      time := 0.0;
      if found {
        DueRootExpiresFirst();
        time := m_pq[0].m_time;
      }
    }

    method DisarmRoot() returns (flow: CFlowTimerHandle)
      requires Valid() && RootIsDue()
      modifies this`m_st_handle, this`deadlines, queued`m_flow, deadlines.Keys`m_timer
      ensures Valid() && m_pq != []
      ensures ExpiresFirst(old(deadlines), flow) && deadlines == old(deadlines) - {flow} && flow.m_timer == null
      ensures m_pq[0].m_flow == null && m_st_handle == old(m_st_handle) + 1
    {
      DueRootExpiresFirst();
      assert m_pq[0] in multiset(m_pq);
      flow := m_pq[0].m_flow;
      m_st_handle := m_st_handle + 1;
      Disown(flow);
      flow.m_timer := null;
    }

    /** The first half of handle(): pick the handle that expires first and disarm it.  Its timer is
        still the root of the queue while the handle's callback runs. */
    method HandleBegin() returns (flow: CFlowTimerHandle?)
      requires Valid()
      modifies this`m_pq, this`queued, this`m_st_free, this`m_st_handle, this`deadlines
      modifies queued`m_time, queued`m_flow, deadlines.Keys`m_timer
      ensures Valid() && queued <= old(queued)
      ensures flow == null <==> old(deadlines) == map[]
      ensures flow == null ==> deadlines == old(deadlines) && m_st_handle == old(m_st_handle)
      ensures flow != null ==>
                && ExpiresFirst(old(deadlines), flow)
                && deadlines == old(deadlines) - {flow}
                && flow.m_timer == null
                && m_pq != [] && m_pq[0].m_flow == null
                && m_st_handle == old(m_st_handle) + 1
    {
      var found := SettleRoot();
      if !found {
        return null;
      }
      flow := DisarmRoot();
    }

    /** The second half of handle(), after the callback: pop and free the timer that fired.  The
        callback may stop timers; it must leave the fired timer at the root, so it may not start one. */
    method HandleEnd()
      requires Valid() && m_pq != [] && m_pq[0].m_flow == null
      modifies this`m_pq, this`queued, this`m_st_free
      ensures Valid() && queued == old(queued) - {old(m_pq[0])}
      ensures m_st_free == old(m_st_free) + 1
    {
      FreeRoot(m_pq[0]);
    }

    /** handle() for handles without a callback. */
    method Handle() returns (ghost fired: CFlowTimerHandle?)
      requires Valid()
      modifies this`m_pq, this`queued, this`m_st_free, this`m_st_handle, this`deadlines
      modifies queued`m_time, queued`m_flow, deadlines.Keys`m_timer
      ensures Valid() && queued <= old(queued)
      ensures fired == null <==> old(deadlines) == map[]
      ensures fired == null ==> deadlines == old(deadlines)
      ensures fired != null ==> ExpiresFirst(old(deadlines), fired) && deadlines == old(deadlines) - {fired}
    {
      var flow := HandleBegin();
      if flow != null {
        HandleEnd();
      }
      return flow;
    }

    /** One round of try_handle_events. */
    method HandleOneBefore(now: real) returns (more: bool, ghost fired: CFlowTimerHandle?)
      requires Valid()
      modifies this`m_pq, this`queued, this`m_st_free, this`m_st_handle, this`deadlines
      modifies queued`m_time, queued`m_flow, deadlines.Keys`m_timer
      ensures Valid() && queued <= old(queued)
      ensures more <==> fired != null
      ensures !more ==> deadlines == old(deadlines) && deadlines == NotBefore(deadlines, now)
      ensures fired != null ==> ExpiresFirst(old(deadlines), fired) && old(deadlines)[fired] < now
      ensures fired != null ==> deadlines == old(deadlines) - {fired}
    {
      var found, min_time := PeekTopTime();
      if !found || min_time >= now {
        return false, null;
      }
      fired := Handle();
      more := true;
    }

    /** Fire everything that expires before `now`, and nothing else, in order of deadline. */
    method TryHandleEvents(now: real) returns (ghost fired: seq<CFlowTimerHandle>)
      requires Valid()
      modifies this`m_pq, this`queued, this`m_st_free, this`m_st_handle, this`deadlines
      modifies queued`m_time, queued`m_flow, deadlines.Keys`m_timer
      ensures Valid()
      ensures deadlines == NotBefore(old(deadlines), now)
      ensures FiredInOrder(old(deadlines), fired, deadlines)
    {
      fired := [];
      ghost var all := deadlines;
      var more := true;
      while more
        invariant Valid() && queued <= old(queued)
        invariant FiredInOrder(all, fired, deadlines)
        invariant forall h :: h in all && all[h] >= now ==> h in deadlines
        invariant !more ==> deadlines == NotBefore(deadlines, now)
        decreases deadlines.Keys, more
      {
        ghost var before := deadlines;
        ghost var root;
        more, root := HandleOneBefore(now);
        if more {
          ghost var h: CFlowTimerHandle := root;
          FiredNext(all, fired, before, h);
          fired := fired + [h];
        }
      }
    }

    method DrainAll() returns (ghost fired: seq<CFlowTimerHandle>)
      requires Valid()
      modifies this`m_pq, this`queued, this`m_st_free, this`m_st_handle, this`deadlines
      modifies queued`m_time, queued`m_flow, deadlines.Keys`m_timer
      ensures Valid() && deadlines == map[]
      ensures FiredInOrder(old(deadlines), fired, map[])
    {
      fired := [];
      ghost var all := deadlines;
      while true
        invariant Valid() && queued <= old(queued)
        invariant FiredInOrder(all, fired, deadlines)
        decreases deadlines.Keys
      {
        var found, _ := PeekTopTime();
        if !found {
          break;
        }
        ghost var before := deadlines;
        ghost var root := Handle();
        ghost var h: CFlowTimerHandle := root;
        FiredNext(all, fired, before, h);
        fired := fired + [h];
      }
    }
  }
}
