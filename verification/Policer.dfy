/** The token bucket that limits how often a template may open a flow. */
module Policer {

  datatype Bucket = Bucket(m_cir: real, m_bucket_size: real, m_level: real, m_last_time: real) {

    /** The level after the time that has gone by has been paid in. */
    function Filled(now: real): real {
      var level := m_level + PaidIn(m_last_time, now);
      if level > m_bucket_size then m_bucket_size else level
    }

    /** What the rate pays in between two times. */
    function PaidIn(from: real, to: real): real {
      (to - from) * m_cir
    }

    /** One request of `dsize` at time `now`. */
    function Update(dsize: real, now: real): (Bucket, bool) {
      if m_last_time == 0.0 then
        (this.(m_last_time := now), true)
      else if m_cir == 0.0 then
        (this, false)
      else
        var b := if now > m_last_time then this.(m_level := Filled(now), m_last_time := now) else this;
        if b.m_level > dsize then (b.(m_level := b.m_level - dsize), true) else (b, false)
    }

    ghost predicate WithinBounds() {
      0.0 <= m_level <= m_bucket_size && m_cir >= 0.0
    }
  }

  class CPolicer {
    var m_cir: real
    var m_bucket_size: real
    var m_level: real
    var m_last_time: real

    constructor (cir: real, bucket: real, level: real)
      ensures State() == Bucket(cir, bucket, level, 0.0)
    {
      m_cir, m_bucket_size, m_level, m_last_time := cir, bucket, level, 0.0;
    }

    ghost function State(): Bucket
      reads this
    {
      Bucket(m_cir, m_bucket_size, m_level, m_last_time)
    }

    method Update(dsize: real, now_sec: real) returns (ok: bool)
      modifies this
      ensures (State(), ok) == old(State()).Update(dsize, now_sec)
    {
      if m_last_time == 0.0 {
        m_last_time := now_sec;
        return true;
      }
      if m_cir == 0.0 {
        return false;
      }
      if now_sec > m_last_time {
        var dtime := now_sec - m_last_time;
        m_level := m_level + dtime * m_cir;
        if m_level > m_bucket_size {
          m_level := m_bucket_size;
        }
        m_last_time := now_sec;
      }
      if m_level > dsize {
        m_level := m_level - dsize;
        return true;
      } else {
        return false;
      }
    }
  }

  // ----- Whole runs

  datatype Request = Request(dsize: real, now: real)

  /** The bucket after a run of requests. */
  function After(b: Bucket, run: seq<Request>): Bucket {
    if run == [] then b
    else
      var last := run[|run| - 1];
      After(b, run[..|run| - 1]).Update(last.dsize, last.now).0
  }

  /** How much of a run is let through. */
  function Accepted(b: Bucket, run: seq<Request>): real {
    if run == [] then 0.0
    else
      var before, last := run[..|run| - 1], run[|run| - 1];
      Accepted(b, before) + (if After(b, before).Update(last.dsize, last.now).1 then last.dsize else 0.0)
  }

  ghost predicate InOrder(run: seq<Request>) {
    && (forall i :: 0 <= i < |run| ==> run[i].now > 0.0 && run[i].dsize >= 0.0)
    && (forall i, j :: 0 <= i < j < |run| ==> run[i].now <= run[j].now)
  }

  function Taken(b: Bucket, r: Request): real {
    if b.Update(r.dsize, r.now).1 then r.dsize else 0.0
  }

  lemma FillGrows(cir: real, dtime: real)
    requires cir >= 0.0 && dtime >= 0.0
    ensures dtime * cir >= 0.0
  {
  }

  /** One request keeps the level in the bucket, and takes no more than was there or has been paid in. */
  lemma OneRequest(b: Bucket, r: Request)
    requires b.WithinBounds() && 0.0 <= b.m_last_time <= r.now && r.now > 0.0 && r.dsize >= 0.0
    ensures var c := b.Update(r.dsize, r.now).0;
            && c.WithinBounds() && c.m_cir == b.m_cir && c.m_bucket_size == b.m_bucket_size
            && b.m_last_time <= c.m_last_time <= r.now
            && (b.m_last_time == 0.0 || b.m_cir > 0.0 ==> c.m_last_time == r.now)
            && (b.m_last_time > 0.0 ==> Taken(b, r) + c.m_level <= b.m_level + b.PaidIn(b.m_last_time, c.m_last_time))
  {
    FillGrows(b.m_cir, r.now - b.m_last_time);
  }

  /** In the bucket's time line the run comes after what it has seen. */
  ghost predicate Follows(b: Bucket, run: seq<Request>) {
    && b.m_last_time >= 0.0 && InOrder(run)
    && (run != [] ==> b.m_last_time <= run[0].now)
  }

  /** The level never leaves the bucket. */
  lemma {:induction false} LevelStaysInBucket(b: Bucket, run: seq<Request>)
    requires b.WithinBounds() && Follows(b, run)
    ensures After(b, run).WithinBounds()
    ensures After(b, run).m_cir == b.m_cir && After(b, run).m_bucket_size == b.m_bucket_size
    ensures b.m_last_time <= After(b, run).m_last_time
    ensures run != [] ==> After(b, run).m_last_time <= run[|run| - 1].now
    ensures run != [] && b.m_last_time == 0.0 ==> After(b, run).m_last_time > 0.0
  {
    if run != [] {
      LevelStaysInBucket(b, run[..|run| - 1]);
      OneRequest(After(b, run[..|run| - 1]), run[|run| - 1]);
    }
  }

  /** From the first request on, what is let through never exceeds what the bucket held and what has been
      paid in since. */
  lemma {:induction false} PaidFor(b: Bucket, run: seq<Request>)
    requires b.WithinBounds() && b.m_last_time > 0.0 && Follows(b, run)
    ensures Accepted(b, run) + After(b, run).m_level <= b.m_level + b.PaidIn(b.m_last_time, After(b, run).m_last_time)
  {
    hide Bucket.Update, Bucket.PaidIn;
    if run == [] {
      NothingPaid(b, b.m_last_time);
    } else {
      var before, last := run[..|run| - 1], run[|run| - 1];
      PaidFor(b, before);
      LevelStaysInBucket(b, before);
      OneRequest(After(b, before), last);
      SameRate(b, After(b, before), After(b, before).m_last_time, After(b, run).m_last_time);
      AddTimes(b, b.m_last_time, After(b, before).m_last_time, After(b, run).m_last_time);
    }
  }

  lemma AddTimes(b: Bucket, t0: real, t1: real, t2: real)
    ensures b.PaidIn(t0, t1) + b.PaidIn(t1, t2) == b.PaidIn(t0, t2)
  {
  }

  lemma LongerTime(b: Bucket, t0: real, t1: real, t0': real, t1': real)
    requires t1 - t0 <= t1' - t0' && b.m_cir >= 0.0
    ensures b.PaidIn(t0, t1) <= b.PaidIn(t0', t1')
  {
    FillGrows(b.m_cir, (t1' - t0') - (t1 - t0));
    assert (t1' - t0') * b.m_cir == (t1 - t0) * b.m_cir + ((t1' - t0') - (t1 - t0)) * b.m_cir;
  }

  lemma NothingPaid(b: Bucket, t: real)
    ensures b.PaidIn(t, t) == 0.0
  {
  }

  lemma NoRate(b: Bucket, t0: real, t1: real)
    requires b.m_cir == 0.0
    ensures b.PaidIn(t0, t1) == 0.0
  {
  }

  lemma SameRate(b: Bucket, c: Bucket, t0: real, t1: real)
    requires b.m_cir == c.m_cir
    ensures b.PaidIn(t0, t1) == c.PaidIn(t0, t1)
  {
  }

  lemma {:induction false} RunsCompose(b: Bucket, run: seq<Request>, window: seq<Request>)
    ensures After(b, run + window) == After(After(b, run), window)
    ensures Accepted(b, run + window) == Accepted(b, run) + Accepted(After(b, run), window)
  {
    if window == [] {
      assert run + window == run;
    } else {
      assert (run + window)[..|run + window| - 1] == run + window[..|window| - 1];
      RunsCompose(b, run, window[..|window| - 1]);
    }
  }

  /** In any window that does not hold the very first request, no more is let through than a full bucket and
      what the rate pays in since the last request before the window; with rate 0 that is the bucket alone. */
  lemma WindowBound(b: Bucket, run: seq<Request>, window: seq<Request>)
    requires b.WithinBounds() && Follows(b, run + window)
    requires run != [] && window != []
    ensures Accepted(b, run + window) - Accepted(b, run)
            <= b.m_bucket_size + b.PaidIn(run[|run| - 1].now, window[|window| - 1].now)
  {
    hide Bucket.Update, Bucket.PaidIn, Accepted;
    var all := run + window;
    assert all[..|run|] == run && all[|run|..] == window;
    assert all[0] == run[0];
    forall i | 0 <= i < |run| ensures run[i] == all[i] {}
    forall i | 0 <= i < |window| ensures window[i] == all[|run| + i] {}
    LevelStaysInBucket(b, run[..|run| - 1]);
    OneRequest(After(b, run[..|run| - 1]), run[|run| - 1]);
    LevelStaysInBucket(b, run);
    var c := After(b, run);
    RunsCompose(b, run, window);
    LevelStaysInBucket(c, window);
    PaidFor(c, window);
    SameRate(b, c, c.m_last_time, After(c, window).m_last_time);
    if b.m_cir == 0.0 {
      NoRate(b, c.m_last_time, After(c, window).m_last_time);
      NoRate(b, run[|run| - 1].now, window[|window| - 1].now);
    } else {
      LongerTime(b, c.m_last_time, After(c, window).m_last_time, run[|run| - 1].now, window[|window| - 1].now);
    }
  }

  /** A bucket that starts empty lets the first request through for nothing; after that, of unit requests, at
      most 1 + rate times elapsed. */
  lemma BoundFromTheStart(b: Bucket, run: seq<Request>)
    requires b.WithinBounds() && b.m_level == 0.0 && b.m_last_time == 0.0
    requires InOrder(run) && run != [] && forall i :: 0 <= i < |run| ==> run[i].dsize == 1.0
    ensures Accepted(b, run) <= 1.0 + b.PaidIn(run[0].now, run[|run| - 1].now)
  {
    hide Bucket.PaidIn, Bucket.Update, Accepted;
    var first, rest := [run[0]], run[1..];
    assert run == first + rest;
    RunsCompose(b, first, rest);
    FirstIsFree(b, run[0]);
    var c := After(b, first);
    assert rest != [] ==> rest[0] == run[1] && rest[|rest| - 1] == run[|run| - 1];
    PaidFor(c, rest);
    LevelStaysInBucket(c, rest);
    SameRate(b, c, c.m_last_time, After(c, rest).m_last_time);
    LongerTime(b, c.m_last_time, After(c, rest).m_last_time, run[0].now, run[|run| - 1].now);
  }

  lemma FirstIsFree(b: Bucket, r: Request)
    requires b.m_last_time == 0.0
    ensures After(b, [r]) == b.(m_last_time := r.now) && Accepted(b, [r]) == r.dsize
  {
    assert [r][..0] == [];
  }

  // ----- What must be let through

  function Min(x: real, y: real): real { if x < y then x else y }

  /** The first request always passes; after it a request passes exactly if the bucket, filled at the rate since
      the last request and never above its size, holds more than is asked for, and only then is anything taken. */
  lemma LetThroughIff(b: Bucket, r: Request)
    requires b.WithinBounds() && 0.0 <= b.m_last_time <= r.now
    ensures var level := Min(b.m_bucket_size, b.m_level + (r.now - b.m_last_time) * b.m_cir);
            var after := b.Update(r.dsize, r.now).0.m_level;
            if b.m_last_time == 0.0 then
              Taken(b, r) == r.dsize && b.Update(r.dsize, r.now).1 && after == b.m_level
            else if b.m_cir == 0.0 || level <= r.dsize then
              !b.Update(r.dsize, r.now).1 && after == level
            else
              b.Update(r.dsize, r.now).1 && after == level - r.dsize
  {
  }

  /** No request of the run finds the bucket full. */
  ghost predicate NeverCut(b: Bucket, run: seq<Request>) {
    forall i :: 0 <= i < |run| ==> RoomFor(After(b, run[..i]), run[i].now)
  }

  ghost predicate RoomFor(b: Bucket, now: real) {
    b.m_level + b.PaidIn(b.m_last_time, now) <= b.m_bucket_size
  }

  /** While the bucket is not full nothing is lost: what is let through and what is left is what was there and what
      has been paid in. */
  lemma {:induction false} NothingIsLost(b: Bucket, run: seq<Request>)
    requires b.WithinBounds() && b.m_last_time > 0.0 && Follows(b, run) && NeverCut(b, run)
    ensures Accepted(b, run) + After(b, run).m_level == b.m_level + b.PaidIn(b.m_last_time, After(b, run).m_last_time)
  {
    hide Bucket.Update, Bucket.PaidIn;
    if run == [] {
      NothingPaid(b, b.m_last_time);
    } else {
      var before, last := run[..|run| - 1], run[|run| - 1];
      forall i | 0 <= i < |before| ensures RoomFor(After(b, before[..i]), before[i].now) {
        assert before[..i] == run[..i];
      }
      NothingIsLost(b, before);
      LevelStaysInBucket(b, before);
      OneRequestKeeps(After(b, before), last);
      SameRate(b, After(b, before), After(b, before).m_last_time, After(b, run).m_last_time);
      AddTimes(b, b.m_last_time, After(b, before).m_last_time, After(b, run).m_last_time);
    }
  }

  lemma OneRequestKeeps(b: Bucket, r: Request)
    requires b.WithinBounds() && 0.0 < b.m_last_time <= r.now && RoomFor(b, r.now)
    ensures var c := b.Update(r.dsize, r.now).0;
            Taken(b, r) + c.m_level == b.m_level + b.PaidIn(b.m_last_time, c.m_last_time)
  {
    NothingPaid(b, b.m_last_time);
  }

  lemma {:induction false} AcceptedGrows(b: Bucket, run: seq<Request>)
    requires InOrder(run)
    ensures Accepted(b, run) >= 0.0
  {
    if run != [] {
      AcceptedGrows(b, run[..|run| - 1]);
    }
  }

  /** Full or not, the bucket holds at least what it held and has been paid, cut at its size, less what was let
      through. */
  lemma {:induction false} LevelIsAtLeast(b: Bucket, run: seq<Request>)
    requires b.WithinBounds() && b.m_last_time > 0.0 && Follows(b, run)
    ensures After(b, run).m_level
            >= Min(b.m_bucket_size, b.m_level + b.PaidIn(b.m_last_time, After(b, run).m_last_time)) - Accepted(b, run)
  {
    hide Bucket.Update, Bucket.PaidIn;
    if run == [] {
      NothingPaid(b, b.m_last_time);
    } else {
      var before, last := run[..|run| - 1], run[|run| - 1];
      var c, d := After(b, before), After(b, run);
      LevelIsAtLeast(b, before);
      LevelStaysInBucket(b, before);
      AcceptedGrows(b, before);
      OneRequestLeaves(c, last);
      SameRate(b, c, c.m_last_time, d.m_last_time);
      AddTimes(b, b.m_last_time, c.m_last_time, d.m_last_time);
    }
  }

  lemma OneRequestLeaves(b: Bucket, r: Request)
    requires b.WithinBounds() && 0.0 < b.m_last_time <= r.now
    ensures var c := b.Update(r.dsize, r.now).0;
            && b.PaidIn(b.m_last_time, c.m_last_time) >= 0.0
            && c.m_level == Min(b.m_bucket_size, b.m_level + b.PaidIn(b.m_last_time, c.m_last_time)) - Taken(b, r)
  {
    FillGrows(b.m_cir, r.now - b.m_last_time);
    NothingPaid(b, b.m_last_time);
  }

  /** With a rate above 0, a request is refused only when the bucket, had nothing been lost, could not hold more than
      it asks for. */
  lemma RefusedOnlyWhenShort(b: Bucket, run: seq<Request>, r: Request)
    requires b.WithinBounds() && b.m_last_time > 0.0 && b.m_cir > 0.0 && Follows(b, run + [r])
    requires !After(b, run).Update(r.dsize, r.now).1
    ensures Min(b.m_bucket_size, b.m_level + b.PaidIn(b.m_last_time, r.now)) - Accepted(b, run) <= r.dsize
  {
    hide Bucket.Update, Bucket.PaidIn, Accepted;
    var all := run + [r];
    assert all[|run|] == r && all[..|run|] == run;
    assert run != [] ==> all[0] == run[0];
    LevelStaysInBucket(b, run);
    LevelIsAtLeast(b, all);
    RunsCompose(b, run, [r]);
    JustOne(After(b, run), r);
    LetThroughIff(After(b, run), r);
    OneRequest(After(b, run), r);
  }

  lemma JustOne(b: Bucket, r: Request)
    ensures After(b, [r]) == b.Update(r.dsize, r.now).0 && Accepted(b, [r]) == Taken(b, r)
  {
    assert [r][..0] == [];
  }

  /** Each request asks for one unit and comes later than one unit needs after the one before. */
  ghost predicate Spaced(b: Bucket, run: seq<Request>) {
    && (forall i :: 0 <= i < |run| ==> run[i].dsize == 1.0 && run[i].now > 0.0)
    && (run != [] && b.m_last_time > 0.0 ==> b.PaidIn(b.m_last_time, run[0].now) > 1.0)
    && (forall i :: 0 < i < |run| ==> b.PaidIn(run[i - 1].now, run[i].now) > 1.0)
  }

  /** Unit requests that come slower than the rate are all let through by a bucket of more than one unit. */
  lemma {:induction false} SlowRequestsPass(b: Bucket, run: seq<Request>)
    requires b.WithinBounds() && b.m_bucket_size > 1.0 && b.m_cir > 0.0 && b.m_last_time >= 0.0 && Spaced(b, run)
    ensures Accepted(b, run) == |run| as real
    ensures var c := After(b, run);
            && c.WithinBounds() && c.m_cir == b.m_cir && c.m_bucket_size == b.m_bucket_size
            && c.m_last_time == (if run == [] then b.m_last_time else run[|run| - 1].now)
  {
    hide Bucket.Update, Bucket.PaidIn;
    if run != [] {
      var before, last := run[..|run| - 1], run[|run| - 1];
      SlowRequestsPass(b, before);
      var c := After(b, before);
      SameRate(b, c, c.m_last_time, last.now);
      UnitPasses(c, last);
    }
  }

  /** A unit request that comes later than one unit needs after the last one is let through. */
  lemma UnitPasses(b: Bucket, r: Request)
    requires b.WithinBounds() && b.m_bucket_size > 1.0 && b.m_cir > 0.0 && b.m_last_time >= 0.0
    requires r.dsize == 1.0 && r.now > 0.0
    requires b.m_last_time > 0.0 ==> b.PaidIn(b.m_last_time, r.now) > 1.0
    ensures var (c, ok) := b.Update(r.dsize, r.now);
            && ok && c.WithinBounds() && c.m_cir == b.m_cir && c.m_bucket_size == b.m_bucket_size
            && c.m_last_time == r.now
  {
    if b.m_last_time > 0.0 && r.now <= b.m_last_time {
      FillGrows(b.m_cir, b.m_last_time - r.now);
    }
  }
}
