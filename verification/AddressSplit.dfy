/** How the addresses of a pool are divided over the threads. */
module AddressSplit {
  import opened Basics

  function Abs(x: int): nat { if x < 0 then -x else x }

  lemma MulMinus(a: int, b: int, c: int)
    ensures Mul(a - b, c) == Mul(a, c) - Mul(b, c)
  {
  }

  lemma MulUnits(c: int)
    ensures Mul(0, c) == 0 && Mul(1, c) == c
  {
  }

  lemma MulNegated(a: int, c: int)
    ensures Mul(-a, c) == -Mul(a, c)
  {
  }

  /** A product with a non-zero factor is no smaller than the other factor, nor larger than the larger factor allows. */
  lemma MulBounds(x: int, n: nat, c: nat)
    requires x != 0 && Abs(x) <= n
    ensures c <= Abs(Mul(x, c)) <= Mul(n, c)
  {
    MulGrows(1, Abs(x), c);
    MulGrows(Abs(x), n, c);
    MulUnits(c);
    MulNegated(x, c);
  }

  datatype PoolInfo = PoolInfo(ip_start: uint32, ip_end: uint32, dual_mask: uint32) {
    function TotalIps(): int { ip_end - ip_start + 1 }
  }

  datatype Portion = Portion(m_ip_start: uint32, m_ip_end: uint32)

  predicate SplitDefined(total_threads: nat, pool: PoolInfo) {
    0 < total_threads && pool.ip_start <= pool.ip_end && pool.TotalIps() / total_threads > 0
  }

  /** The share of each thread; fewer addresses than there are threads belong to nobody. */
  function Chunk(total_threads: nat, pool: PoolInfo): (chunks: nat)
    requires SplitDefined(total_threads, pool)
    ensures chunks > 0 && Mul(total_threads, chunks) <= pool.TotalIps() < Mul(total_threads, chunks) + total_threads
  {
    var chunks := pool.TotalIps() / total_threads;
    assert pool.TotalIps() == total_threads * chunks + pool.TotalIps() % total_threads;
    chunks
  }

  function DualPortId(thread_id: nat, dual_ports: nat): (id: nat)
    requires dual_ports > 0
    ensures id < dual_ports
  {
    thread_id % dual_ports
  }

  /** split_ips; an empty share fails its assertion. */
  function SplitIps(thread_id: nat, total_threads: nat, dual_port_id: nat, pool: PoolInfo): Portion
    requires SplitDefined(total_threads, pool)
  {
    var chunks := Chunk(total_threads, pool);
    var dual_if_mask := U32(Mul(dual_port_id, pool.dual_mask));
    var start := U32(pool.ip_start + U32(Mul(thread_id, chunks)) + dual_if_mask);
    Portion(start, U32(start + chunks - 1))
  }

  /** Where the share of a thread starts when 32 bits are enough. */
  function ShareStart(thread_id: nat, total_threads: nat, dual_port_id: nat, pool: PoolInfo): int
    requires SplitDefined(total_threads, pool)
  {
    pool.ip_start + Mul(thread_id, Chunk(total_threads, pool)) + Mul(dual_port_id, pool.dual_mask)
  }

  /** The last address of any thread still fits. */
  ghost predicate Fits(total_threads: nat, dual_ports: nat, pool: PoolInfo)
    requires SplitDefined(total_threads, pool) && dual_ports > 0
  {
    pool.ip_start + Mul(total_threads, Chunk(total_threads, pool)) + Mul(dual_ports - 1, pool.dual_mask) <= TWO32
  }

  lemma SplitIsExact(thread_id: nat, total_threads: nat, dual_ports: nat, pool: PoolInfo)
    requires SplitDefined(total_threads, pool) && dual_ports > 0 && thread_id < total_threads
    requires Fits(total_threads, dual_ports, pool)
    ensures var d := DualPortId(thread_id, dual_ports);
            var start := ShareStart(thread_id, total_threads, d, pool);
            && 0 <= start && start + Chunk(total_threads, pool) <= TWO32
            && SplitIps(thread_id, total_threads, d, pool) == Portion(start, start + Chunk(total_threads, pool) - 1)
  {
    hide Mul, SplitDefined, Chunk, DualPortId;
    var d := DualPortId(thread_id, dual_ports);
    var chunks := Chunk(total_threads, pool);
    MulGrows(d, dual_ports - 1, pool.dual_mask);
    MulGrows(thread_id, total_threads - 1, chunks);
    MulMinus(total_threads, 1, chunks);
    MulUnits(chunks);
    MulUnits(pool.dual_mask);
    MulGrows(0, d, pool.dual_mask);
    MulGrows(0, thread_id, chunks);
  }

  ghost predicate Overlap(p: Portion, q: Portion) {
    exists ip :: InPortion(p, ip) && InPortion(q, ip)
  }

  predicate InPortion(p: Portion, ip: int) {
    p.m_ip_start <= ip <= p.m_ip_end
  }

  lemma OverlapOfShares(a: uint32, b: uint32, chunks: nat)
    requires chunks > 0 && a + chunks <= TWO32 && b + chunks <= TWO32
    ensures Overlap(Portion(a, a + chunks - 1), Portion(b, b + chunks - 1)) <==> Abs(a - b) < chunks
  {
    if Abs(a - b) < chunks {
      var ip := if a < b then b else a;
      assert InPortion(Portion(a, a + chunks - 1), ip) && InPortion(Portion(b, b + chunks - 1), ip);
    }
  }

  function Offset(i: nat, j: nat, total_threads: nat, dual_ports: nat, pool: PoolInfo): int
    requires SplitDefined(total_threads, pool) && dual_ports > 0
  {
    Mul(i - j, Chunk(total_threads, pool)) + Mul(DualPortId(i, dual_ports) - DualPortId(j, dual_ports), pool.dual_mask)
  }

  function ShareOf(thread_id: nat, total_threads: nat, dual_ports: nat, pool: PoolInfo): Portion
    requires SplitDefined(total_threads, pool) && dual_ports > 0
  {
    SplitIps(thread_id, total_threads, DualPortId(thread_id, dual_ports), pool)
  }

  /** The shares of two threads overlap exactly when they are less than a share apart. */
  lemma OverlapIff(i: nat, j: nat, total_threads: nat, dual_ports: nat, pool: PoolInfo)
    requires SplitDefined(total_threads, pool) && dual_ports > 0 && i < total_threads && j < total_threads
    requires Fits(total_threads, dual_ports, pool)
    ensures Overlap(ShareOf(i, total_threads, dual_ports, pool), ShareOf(j, total_threads, dual_ports, pool))
            <==> Abs(Offset(i, j, total_threads, dual_ports, pool)) < Chunk(total_threads, pool)
  {
    hide Mul, SplitDefined, Chunk, DualPortId, Fits, SplitIps, Overlap;
    var di, dj := DualPortId(i, dual_ports), DualPortId(j, dual_ports);
    SplitIsExact(i, total_threads, dual_ports, pool);
    SplitIsExact(j, total_threads, dual_ports, pool);
    MulMinus(i, j, Chunk(total_threads, pool));
    MulMinus(di, dj, pool.dual_mask);
    OverlapOfShares(ShareStart(i, total_threads, di, pool), ShareStart(j, total_threads, dj, pool),
                    Chunk(total_threads, pool));
  }

  /** Without a mask, or with one no smaller than the pool, no two shares overlap. */
  lemma SharesAreDisjoint(i: nat, j: nat, total_threads: nat, dual_ports: nat, pool: PoolInfo)
    requires SplitDefined(total_threads, pool) && dual_ports > 0 && i < total_threads && j < total_threads && i != j
    requires Fits(total_threads, dual_ports, pool)
    requires pool.dual_mask == 0 || pool.dual_mask >= pool.TotalIps()
    ensures !Overlap(ShareOf(i, total_threads, dual_ports, pool), ShareOf(j, total_threads, dual_ports, pool))
  {
    hide Mul, SplitDefined, Chunk, DualPortId, Fits, SplitIps, Overlap;
    var chunks := Chunk(total_threads, pool);
    var d := DualPortId(i, dual_ports) - DualPortId(j, dual_ports);
    OverlapIff(i, j, total_threads, dual_ports, pool);
    MulBounds(i - j, total_threads - 1, chunks);
    MulMinus(total_threads, 1, chunks);
    MulUnits(chunks);
    if d == 0 {
      MulUnits(pool.dual_mask);
    } else if pool.dual_mask == 0 {
      MulZero(d);
    } else {
      MulBounds(d, Abs(d), pool.dual_mask);
    }
  }

  lemma MulZero(x: int)
    ensures Mul(x, 0) == 0
  {
  }

  /** A mask smaller than the pool can make shares overlap: of 8 addresses for 4 threads on 2 dual ports, mask 1
      gives addresses 3 and 4 to thread 1 and addresses 4 and 5 to thread 2. */
  lemma SmallMaskOverlaps() returns (pool: PoolInfo)
    ensures SplitDefined(4, pool) && Fits(4, 2, pool) && 0 < pool.dual_mask < pool.TotalIps()
    ensures Overlap(ShareOf(1, 4, 2, pool), ShareOf(2, 4, 2, pool))
  {
    pool := PoolInfo(0, 7, 1);
    OverlapIff(1, 2, 4, 2, pool);
  }

  /** Client idx of a thread has the idx-th address of its share. */
  function ClientIp(portion: Portion, idx: nat): int {
    portion.m_ip_start + idx
  }

  /** Different clients have different addresses, on whatever threads they are. */
  lemma ClientsDiffer(i: nat, idx: nat, j: nat, idx': nat, total_threads: nat, dual_ports: nat, pool: PoolInfo)
    requires SplitDefined(total_threads, pool) && dual_ports > 0 && Fits(total_threads, dual_ports, pool)
    requires pool.dual_mask == 0 || pool.dual_mask >= pool.TotalIps()
    requires i < total_threads && j < total_threads
    requires idx < Chunk(total_threads, pool) && idx' < Chunk(total_threads, pool)
    ensures ClientIp(ShareOf(i, total_threads, dual_ports, pool), idx)
            == ClientIp(ShareOf(j, total_threads, dual_ports, pool), idx')
            <==> i == j && idx == idx'
  {
    hide Mul, SplitDefined, Chunk, DualPortId, Fits, SplitIps;
    var p, q := ShareOf(i, total_threads, dual_ports, pool), ShareOf(j, total_threads, dual_ports, pool);
    if i != j {
      SplitIsExact(i, total_threads, dual_ports, pool);
      SplitIsExact(j, total_threads, dual_ports, pool);
      SharesAreDisjoint(i, j, total_threads, dual_ports, pool);
      assert InPortion(p, ClientIp(p, idx)) && InPortion(q, ClientIp(q, idx'));
    }
  }
}
