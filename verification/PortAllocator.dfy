/** Client addresses and ports: a bitmap of ports per client, searched a little way from where the last search
    stopped, and the pool that counts what it has handed out. */
module PortAllocator {

  const MIN_PORT := 1024
  const MAX_PORT := 64000
  const ILLEGAL_PORT := 0
  const PROBES := 21

  predicate IsLegal(port: int) { MIN_PORT <= port < MAX_PORT }

  /** Where a search starts, and where it looks k steps later. */
  function Start(head: int): (start: int)
    ensures IsLegal(start)
  {
    if IsLegal(head) then head else MIN_PORT
  }

  function Probe(head: int, k: nat): (port: int)
    requires k < PROBES
    ensures IsLegal(port)
  {
    if Start(head) + k < MAX_PORT then Start(head) + k else Start(head) + k - (MAX_PORT - MIN_PORT)
  }

  ghost predicate AllProbesUsed(held: set<int>, head: int, n: nat)
    requires n <= PROBES
  {
    forall k :: 0 <= k < n ==> Probe(head, k) in held
  }

  /** The port is the first free one among those probed. */
  ghost predicate FirstFree(held: set<int>, head: int, port: int) {
    exists k :: FreeAfter(held, head, port, k)
  }

  ghost predicate FreeAfter(held: set<int>, head: int, port: int, k: int) {
    0 <= k < PROBES && port == Probe(head, k) && port !in held && AllProbesUsed(held, head, k)
  }

  lemma ProbesDiffer(head: int, j: nat, k: nat)
    requires j < k < PROBES
    ensures Probe(head, j) != Probe(head, k)
  {
  }

  ghost function ProbeSet(head: int, n: nat): set<int>
    requires n <= PROBES
  {
    set k: nat | k < n :: Probe(head, k)
  }

  lemma {:induction false} ProbeSetSize(head: int, n: nat)
    requires n <= PROBES
    ensures |ProbeSet(head, n)| == n
  {
    if n == 0 {
      assert ProbeSet(head, 0) == {};
    } else {
      ProbeSetSize(head, n - 1);
      assert ProbeSet(head, n) == ProbeSet(head, n - 1) + {Probe(head, n - 1)};
      forall k: nat | k < n - 1 ensures Probe(head, k) != Probe(head, n - 1) {
        ProbesDiffer(head, k, n - 1);
      }
    }
  }

  lemma SubsetIsSmaller(a: set<int>, b: set<int>)
    requires a <= b
    ensures |a| <= |b|
  {
    assert b == a + (b - a);
  }

  /** A client that holds fewer than 21 ports always gets another. */
  lemma FewPortsNeverFail(held: set<int>, head: int)
    requires |held| < PROBES
    ensures !AllProbesUsed(held, head, PROBES)
  {
    if AllProbesUsed(held, head, PROBES) {
      ProbeSetSize(head, PROBES);
      assert ProbeSet(head, PROBES) <= held;
      SubsetIsSmaller(ProbeSet(head, PROBES), held);
      assert false;
    }
  }

  /** With 21 it may fail, although 62955 ports are free. */
  lemma TwentyOnePortsMayFail(head: int) returns (held: set<int>)
    ensures |held| == PROBES && (forall p :: p in held ==> IsLegal(p)) && AllProbesUsed(held, head, PROBES)
  {
    held := ProbeSet(head, PROBES);
    ProbeSetSize(head, PROBES);
  }

  /** A client's port, by the client's index. */
  type Handle = (nat, int)

  ghost function PortsOf(held: set<Handle>, idx: nat): set<int> {
    set h | h in held && h.0 == idx :: h.1
  }

  /** What one allocation for client idx does to the ports out of a pool and to the place where the client's
      next search starts: it takes the first free port probed, or fails exactly when all 21 are in use. */
  ghost predicate Allocates(held: set<Handle>, head: int, idx: nat, port: int, held': set<Handle>, head': int) {
    if AllProbesUsed(PortsOf(held, idx), head, PROBES) then
      port == ILLEGAL_PORT && held' == held && head' == MIN_PORT
    else
      && IsLegal(port) && FirstFree(PortsOf(held, idx), head, port)
      && (idx, port) !in held && held' == held + {(idx, port)} && head' == port + 1
  }

  class CIpInfo {
    const m_bitmap_port: array<bool>
    var m_head_port: int

    constructor ()
      ensures Valid() && Held() == {} && fresh(m_bitmap_port)
    {
      m_bitmap_port := new bool[MAX_PORT](_ => false);
      m_head_port := MIN_PORT;
    }

    ghost predicate Valid()
      reads `m_head_port
    {
      m_bitmap_port.Length == MAX_PORT && MIN_PORT <= m_head_port <= MAX_PORT
    }

    /** The ports handed out and not yet returned. */
    ghost function Held(): (held: set<int>)
      requires m_bitmap_port.Length == MAX_PORT
      reads m_bitmap_port
      ensures forall p :: p in held ==> IsLegal(p)
    {
      set p | MIN_PORT <= p < MAX_PORT && m_bitmap_port[p]
    }

    /** An illegal port counts as available. */
    predicate IsPortAvailable(port: int)
      requires Valid()
      reads this, m_bitmap_port
    {
      if !IsLegal(port) then true else !m_bitmap_port[port]
    }

    /** get_next_free_port_by_bit: the head ends on the first free port probed, or on the last one probed. */
    method GetNextFreePortByBit()
      requires Valid()
      modifies `m_head_port
      ensures Valid()
      ensures FirstFree(Held(), old(m_head_port), m_head_port)
              || (AllProbesUsed(Held(), old(m_head_port), PROBES) && m_head_port in Held())
    {
      var cnt: nat := 0;
      if !IsLegal(m_head_port) {
        m_head_port := MIN_PORT;
      }
      while true
        invariant Valid() && cnt < PROBES
        invariant m_head_port == Probe(old(m_head_port), cnt)
        invariant AllProbesUsed(Held(), old(m_head_port), cnt)
        decreases PROBES - cnt
      {
        if IsPortAvailable(m_head_port) {
          assert FreeAfter(Held(), old(m_head_port), m_head_port, cnt);
          return;
        }
        cnt := cnt + 1;
        if cnt > 20 {
          return;
        }
        m_head_port := m_head_port + 1;
        if m_head_port >= MAX_PORT {
          m_head_port := MIN_PORT;
        }
      }
    }

    /** The first free port of the 21 probed, or ILLEGAL_PORT exactly when all of them are in use. */
    method GetNewFreePort() returns (r: int)
      requires Valid()
      modifies `m_head_port, m_bitmap_port
      ensures Valid()
      ensures r == ILLEGAL_PORT <==> AllProbesUsed(old(Held()), old(m_head_port), PROBES)
      ensures r == ILLEGAL_PORT ==> Held() == old(Held()) && m_head_port == MIN_PORT
      ensures r != ILLEGAL_PORT ==> FirstFree(old(Held()), old(m_head_port), r)
      ensures r != ILLEGAL_PORT ==>
              IsLegal(r) && r !in old(Held()) && Held() == old(Held()) + {r} && m_head_port == r + 1
    {
      GetNextFreePortByBit();
      if !IsPortAvailable(m_head_port) {
        m_head_port := MIN_PORT;
        return ILLEGAL_PORT;
      }
      assert FirstFree(old(Held()), old(m_head_port), m_head_port);
      m_bitmap_port[m_head_port] := true;
      r := m_head_port;
      m_head_port := if m_head_port + 1 > MAX_PORT then MIN_PORT else m_head_port + 1;
    }

    /** Both requirements are assertions of the original. */
    method ReturnPort(a: int)
      requires Valid() && IsLegal(a) && a in Held()
      modifies m_bitmap_port
      ensures Valid() && Held() == old(Held()) - {a}
    {
      m_bitmap_port[a] := false;
    }
  }

  /** The pool: client idx has address ip_start + idx. */
  class CClientPool {
    const m_ip_info: seq<CIpInfo>
    var m_cur_idx: nat
    var m_active_alloc: int
    var m_port_allocation_error: nat
    /** (client index, port) of every port out of the pool */
    ghost var held: set<Handle>

    ghost predicate Distinct()
      reads this
    {
      forall i, j :: 0 <= i < j < |m_ip_info| ==>
        m_ip_info[i] != m_ip_info[j] && m_ip_info[i].m_bitmap_port != m_ip_info[j].m_bitmap_port
    }

    ghost function Bitmaps(): set<object>
      reads this
    {
      set i | 0 <= i < |m_ip_info| :: m_ip_info[i].m_bitmap_port
    }

    /** The pool counts a failed allocation like any other, and nobody can return it. */
    ghost predicate Valid()
      reads this, m_ip_info, Bitmaps()
    {
      && Distinct() && m_cur_idx < |m_ip_info|
      && (forall i :: 0 <= i < |m_ip_info| ==> m_ip_info[i].Valid())
      && (forall i, p :: 0 <= i < |m_ip_info| ==> ((i, p) in held <==> p in m_ip_info[i].Held()))
      && (forall h :: h in held ==> h.0 < |m_ip_info|)
      && m_active_alloc == |held| + m_port_allocation_error
    }

    /** The clients of the pool, none of which has handed out a port. */
    constructor (infos: seq<CIpInfo>)
      requires infos != [] && forall i :: 0 <= i < |infos| ==> infos[i].Valid() && infos[i].Held() == {}
      requires forall i, j :: 0 <= i < j < |infos| ==>
               infos[i] != infos[j] && infos[i].m_bitmap_port != infos[j].m_bitmap_port
      ensures Valid() && m_ip_info == infos && held == {} && m_active_alloc == 0
    {
      m_ip_info := infos;
      m_cur_idx, m_active_alloc, m_port_allocation_error := 0, 0, 0;
      held := {};
    }

    /** generate_ip with sequential distribution: the clients take turns. */
    method GenerateIp() returns (res_idx: nat)
      requires Valid()
      modifies `m_cur_idx
      ensures Valid() && res_idx == old(m_cur_idx)
      ensures m_cur_idx == (if res_idx + 1 < |m_ip_info| then res_idx + 1 else 0)
    {
      res_idx := m_cur_idx;
      m_cur_idx := m_cur_idx + 1;
      if m_cur_idx >= |m_ip_info| {
        m_cur_idx := 0;
      }
    }

    /** GenerateTuple: the next client, and a port of it. */
    method GenerateTuple() returns (idx: nat, port: int)
      requires Valid()
      modifies `m_cur_idx, `m_active_alloc, `m_port_allocation_error, `held, m_ip_info[m_cur_idx],
        m_ip_info[m_cur_idx].m_bitmap_port
      ensures Valid() && idx == old(m_cur_idx) && m_cur_idx == (if idx + 1 < |m_ip_info| then idx + 1 else 0)
      ensures Allocates(old(held), old(m_ip_info[m_cur_idx].m_head_port), idx, port, held, m_ip_info[idx].m_head_port)
      ensures m_active_alloc == old(m_active_alloc) + 1
      ensures m_port_allocation_error == old(m_port_allocation_error) + (if port == ILLEGAL_PORT then 1 else 0)
    {
      idx := GenerateIp();
      port := GenerateOnePort(idx);
    }

    method GenerateOnePort(idx: nat) returns (port: int)
      requires Valid() && idx < |m_ip_info|
      modifies `m_active_alloc, `m_port_allocation_error, `held, m_ip_info[idx], m_ip_info[idx].m_bitmap_port
      ensures Valid()
      ensures m_active_alloc == old(m_active_alloc) + 1
      ensures Allocates(old(held), old(m_ip_info[idx].m_head_port), idx, port, held, m_ip_info[idx].m_head_port)
      ensures m_port_allocation_error == old(m_port_allocation_error) + (if port == ILLEGAL_PORT then 1 else 0)
    {
      hide AllProbesUsed, FirstFree;
      assert PortsOf(held, idx) == m_ip_info[idx].Held();
      port := m_ip_info[idx].GetNewFreePort();
      if port == ILLEGAL_PORT {
        m_port_allocation_error := m_port_allocation_error + 1;
      } else {
        assert (idx, port) !in held;
        held := held + {(idx, port)};
      }
      m_active_alloc := m_active_alloc + 1;
    }

    method FreePort(id: nat, port: int)
      requires Valid() && (id, port) in held
      modifies `m_active_alloc, `held, m_ip_info[id].m_bitmap_port
      ensures Valid() && held == old(held) - {(id, port)}
      ensures m_active_alloc == old(m_active_alloc) - 1
    {
      m_active_alloc := m_active_alloc - 1;
      m_ip_info[id].ReturnPort(port);
      held := held - {(id, port)};
    }
  }
}
