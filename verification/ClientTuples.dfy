/** Client addresses and ports over all threads: each thread allocates from a pool of its own, which has its share
    of the addresses, and no two open flows have the same pair. */
module ClientTuples {
  import opened PortAllocator
  import opened AddressSplit

  /** A thread's pool: the ports out of it, and where each client's next search starts. */
  datatype Pool = Pool(held: set<Handle>, heads: seq<int>)

  /** What a flow was given. */
  datatype Tuple = Tuple(thread_id: nat, idx: nat, port: int)

  datatype System = System(pools: seq<Pool>, open: map<nat, Tuple>)

  /** A flow, known by a number, gets a tuple or returns it.  The further ports of a plugin, and ports that wait
      to be released, count as flows of their own. */
  datatype Event = Opened(flow: nat, tuple: Tuple) | Closed(flow: nat)

  ghost predicate Step(s: System, e: Event, s': System) {
    match e
    case Opened(f, t) =>
      && f !in s.open && t.thread_id < |s.pools| == |s'.pools| && t.idx < |s.pools[t.thread_id].heads|
      && s'.open == s.open[f := t]
      && s'.pools == s.pools[t.thread_id := s'.pools[t.thread_id]]
      && PoolStep(s.pools[t.thread_id], t.idx, t.port, s'.pools[t.thread_id])
    case Closed(f) =>
      && f in s.open && s.open[f].thread_id < |s.pools|
      && var t := s.open[f];
         var pool := s.pools[t.thread_id];
         && (t.idx, t.port) in pool.held
         && s' == System(s.pools[t.thread_id := pool.(held := pool.held - {(t.idx, t.port)})], s.open - {f})
  }

  /** GenerateTuple, or GenerateOnePort for a further port. */
  ghost predicate PoolStep(pool: Pool, idx: nat, port: int, pool': Pool)
    requires idx < |pool.heads|
  {
    && |pool'.heads| == |pool.heads| && pool'.heads == pool.heads[idx := pool'.heads[idx]]
    && Allocates(pool.held, pool.heads[idx], idx, port, pool'.held, pool'.heads[idx])
  }

  /** The start: one pool a thread, one client an address of its share. */
  ghost predicate Initial(s: System, total_threads: nat, clients: nat) {
    && s.open == map[] && |s.pools| == total_threads
    && forall i :: 0 <= i < total_threads ==>
         s.pools[i].held == {} && |s.pools[i].heads| == clients && forall j :: 0 <= j < clients ==>
           s.pools[i].heads[j] == MIN_PORT
  }

  ghost predicate IsRun(events: seq<Event>, states: seq<System>, total_threads: nat, clients: nat) {
    && |states| == |events| + 1
    && Initial(states[0], total_threads, clients)
    && forall i :: 0 <= i < |events| ==> Step(states[i], events[i], states[i + 1])
  }

  ghost predicate Ok(s: System, total_threads: nat, clients: nat) {
    && |s.pools| == total_threads
    && (forall i :: 0 <= i < total_threads ==> |s.pools[i].heads| == clients)
    && (forall i, h :: 0 <= i < total_threads && h in s.pools[i].held ==> IsLegal(h.1))
    && (forall f :: f in s.open ==> Owns(s, s.open[f], clients))
    && (forall f, g :: f in s.open && g in s.open && f != g && s.open[f] == s.open[g] ==>
        s.open[f].port == ILLEGAL_PORT)
  }

  /** A tuple is out of its pool, unless its allocation failed. */
  ghost predicate Owns(s: System, t: Tuple, clients: nat) {
    && t.thread_id < |s.pools| && t.idx < clients
    && (t.port != ILLEGAL_PORT ==> (t.idx, t.port) in s.pools[t.thread_id].held)
  }

  lemma OpenedIsOk(s: System, f: nat, t: Tuple, s': System, total_threads: nat, clients: nat)
    requires Ok(s, total_threads, clients) && Step(s, Opened(f, t), s')
    ensures Ok(s', total_threads, clients)
  {
    hide AllProbesUsed, FirstFree, PortsOf;
    forall g | g in s.open ensures Owns(s', s.open[g], clients) && (s.open[g] == t ==> t.port == ILLEGAL_PORT) {
      assert Owns(s, s.open[g], clients);
    }
  }

  lemma ClosedIsOk(s: System, f: nat, s': System, total_threads: nat, clients: nat)
    requires Ok(s, total_threads, clients) && Step(s, Closed(f), s')
    ensures Ok(s', total_threads, clients)
  {
    var t := s.open[f];
    assert IsLegal((t.idx, t.port).1);
    forall g | g in s'.open ensures Owns(s', s'.open[g], clients) {
      assert Owns(s, s.open[g], clients) && s.open[g] != t;
    }
  }

  lemma {:induction false} RunIsOk(events: seq<Event>, states: seq<System>, i: nat, total_threads: nat, clients: nat)
    requires IsRun(events, states, total_threads, clients) && i <= |events|
    ensures Ok(states[i], total_threads, clients)
  {
    hide Step, Ok;
    if i == 0 {
      InitialIsOk(states[0], total_threads, clients);
    } else {
      RunIsOk(events, states, i - 1, total_threads, clients);
      match events[i - 1]
      case Opened(f, t) => OpenedIsOk(states[i - 1], f, t, states[i], total_threads, clients);
      case Closed(f) => ClosedIsOk(states[i - 1], f, states[i], total_threads, clients);
    }
  }

  lemma InitialIsOk(s: System, total_threads: nat, clients: nat)
    requires Initial(s, total_threads, clients)
    ensures Ok(s, total_threads, clients)
  {
  }

  ghost function AddressAndPort(t: Tuple, total_threads: nat, dual_ports: nat, pool: PoolInfo): (int, int)
    requires SplitDefined(total_threads, pool) && dual_ports > 0
  {
    (ClientIp(ShareOf(t.thread_id, total_threads, dual_ports, pool), t.idx), t.port)
  }

  /** At every moment of every run, two open flows, on whatever threads, share client address and port exactly if
      both are of one client and the allocation of both has failed. */
  lemma TuplesAreUnique(events: seq<Event>, states: seq<System>, i: nat, f: nat, g: nat,
                        total_threads: nat, dual_ports: nat, pool: PoolInfo)
    requires SplitDefined(total_threads, pool) && dual_ports > 0 && Fits(total_threads, dual_ports, pool)
    requires pool.dual_mask == 0 || pool.dual_mask >= pool.TotalIps()
    requires IsRun(events, states, total_threads, Chunk(total_threads, pool)) && i <= |events|
    requires f in states[i].open && g in states[i].open && f != g
    ensures var t, u := states[i].open[f], states[i].open[g];
            AddressAndPort(t, total_threads, dual_ports, pool) == AddressAndPort(u, total_threads, dual_ports, pool)
            <==> t.thread_id == u.thread_id && t.idx == u.idx && t.port == ILLEGAL_PORT == u.port
  {
    hide SplitDefined, Chunk, Fits, ShareOf, Step, Initial;
    var clients := Chunk(total_threads, pool);
    RunIsOk(events, states, i, total_threads, clients);
    var t, u := states[i].open[f], states[i].open[g];
    assert Owns(states[i], t, clients) && Owns(states[i], u, clients);
    ClientsDiffer(t.thread_id, t.idx, u.thread_id, u.idx, total_threads, dual_ports, pool);
  }

  // ----- Failed allocations do not occur while no client has 21 ports out.

  ghost predicate FewPortsOut(s: System) {
    forall i, idx: nat :: 0 <= i < |s.pools| ==> |PortsOf(s.pools[i].held, idx)| < PROBES
  }

  ghost predicate NoneFailed(s: System) {
    forall f :: f in s.open ==> s.open[f].port != ILLEGAL_PORT
  }

  lemma {:induction false} FewPortsNoneFailed(events: seq<Event>, states: seq<System>, i: nat, total_threads: nat,
                                              clients: nat)
    requires IsRun(events, states, total_threads, clients) && i <= |events|
    requires forall j :: 0 <= j < i ==> FewPortsOut(states[j])
    ensures NoneFailed(states[i])
  {
    hide FewPortsOut;
    if i > 0 {
      FewPortsNoneFailed(events, states, i - 1, total_threads, clients);
      FewPortsStep(states[i - 1], events[i - 1], states[i]);
    }
  }

  lemma FewPortsStep(s: System, e: Event, s': System)
    requires Step(s, e, s') && FewPortsOut(s) && NoneFailed(s)
    ensures NoneFailed(s')
  {
    hide PortsOf, AllProbesUsed, FirstFree;
    if e.Opened? {
      var t := e.tuple;
      FewPortsNeverFail(PortsOf(s.pools[t.thread_id].held, t.idx), s.pools[t.thread_id].heads[t.idx]);
    }
  }

  /** As long as no client ever has 21 ports out, any two open flows differ in client address or port. */
  lemma FewPortsTuplesDiffer(events: seq<Event>, states: seq<System>, i: nat, f: nat, g: nat,
                             total_threads: nat, dual_ports: nat, pool: PoolInfo)
    requires SplitDefined(total_threads, pool) && dual_ports > 0 && Fits(total_threads, dual_ports, pool)
    requires pool.dual_mask == 0 || pool.dual_mask >= pool.TotalIps()
    requires IsRun(events, states, total_threads, Chunk(total_threads, pool)) && i <= |events|
    requires forall j :: 0 <= j < i ==> FewPortsOut(states[j])
    requires f in states[i].open && g in states[i].open && f != g
    ensures AddressAndPort(states[i].open[f], total_threads, dual_ports, pool)
            != AddressAndPort(states[i].open[g], total_threads, dual_ports, pool)
  {
    hide SplitDefined, Chunk, Fits, FewPortsOut, Step, Initial;
    TuplesAreUnique(events, states, i, f, g, total_threads, dual_ports, pool);
    FewPortsNoneFailed(events, states, i, total_threads, Chunk(total_threads, pool));
  }

  // ----- Failed allocations do occur: one client, all of its ports taken, and two flows more.

  const PORTS := MAX_PORT - MIN_PORT

  function NthPort(n: nat): int {
    if n < PORTS then MIN_PORT + n else ILLEGAL_PORT
  }

  ghost function Crowd(n: nat): System {
    System([Pool(set p | MIN_PORT <= p < MAX_PORT && p < MIN_PORT + n :: (0, p),
                 [if n <= PORTS then MIN_PORT + n else MIN_PORT])],
           map f: nat | f < n :: Tuple(0, 0, NthPort(f)))
  }

  lemma CrowdPorts(n: nat, p: int)
    ensures p in PortsOf(Crowd(n).pools[0].held, 0) <==> MIN_PORT <= p < MAX_PORT && p < MIN_PORT + n
  {
    var held := Crowd(n).pools[0].held;
    if MIN_PORT <= p < MAX_PORT && p < MIN_PORT + n {
      assert (0, p) in held;
    }
  }

  lemma CrowdGrows(n: nat)
    ensures Step(Crowd(n), Opened(n, Tuple(0, 0, NthPort(n))), Crowd(n + 1))
  {
    var s, s' := Crowd(n), Crowd(n + 1);
    var ports := PortsOf(s.pools[0].held, 0);
    var head := s.pools[0].heads[0];
    if n < PORTS {
      CrowdPorts(n, MIN_PORT + n);
      assert Probe(head, 0) == MIN_PORT + n;
      assert FreeAfter(ports, head, MIN_PORT + n, 0);
      assert s'.pools[0].held == s.pools[0].held + {(0, MIN_PORT + n)};
    } else {
      forall k | 0 <= k < PROBES ensures Probe(head, k) in ports {
        CrowdPorts(n, Probe(head, k));
      }
      assert s'.pools[0].held == s.pools[0].held;
    }
    assert s'.open == s.open[n := Tuple(0, 0, NthPort(n))];
    assert s'.pools == s.pools[0 := s'.pools[0]];
    assert s'.pools[0].heads == s.pools[0].heads[0 := s'.pools[0].heads[0]];
  }

  /** With one client and 62978 open flows, the last two have the same address and port. */
  lemma FailedFlowsShareTuple() returns (events: seq<Event>, states: seq<System>, f: nat, g: nat)
    ensures IsRun(events, states, 1, 1) && f != g
    ensures var s := states[|events|];
            f in s.open && g in s.open && s.open[f] == s.open[g] && s.open[f].port == ILLEGAL_PORT
  {
    events := seq(PORTS + 2, (n: nat) => Opened(n, Tuple(0, 0, NthPort(n))));
    states := seq(PORTS + 3, (n: nat) => Crowd(n));
    f, g := PORTS, PORTS + 1;
    forall i | 0 <= i < |events| ensures Step(states[i], events[i], states[i + 1]) {
      CrowdGrows(i);
    }
    assert Crowd(0).open == map[] && Crowd(0).pools[0].held == {};
  }
}
