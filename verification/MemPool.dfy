/** A software buffer pool: slices spread over four free chains, each slice always in exactly one place. */
module MemPool {
  import opened Wrappers
  import opened Collections

  const INTERNAL_NUM := 4

  type Slice = nat

  /** Mem_Slice_Ctrl_B: the chain the slice belongs to and whether it is handed out. */
  datatype Ctrl = Ctrl(subpool: nat, ref: nat)

  ghost predicate NoDuplicates(chain: seq<Slice>) {
    forall i, j :: 0 <= i < j < |chain| ==> chain[i] != chain[j]
  }

  /** Every slice of a chain belongs there and is free. */
  ghost predicate ChainOk(chain: seq<Slice>, c: nat, ctrl: seq<Ctrl>) {
    NoDuplicates(chain) && forall i :: 0 <= i < |chain| ==> chain[i] < |ctrl| && ctrl[chain[i]] == Ctrl(c, 0)
  }

  /** Each slice is either handed out, or in its home chain exactly once and in no other. */
  ghost predicate Partitioned(chains: seq<seq<Slice>>, ctrl: seq<Ctrl>) {
    && |chains| == INTERNAL_NUM
    && (forall c :: 0 <= c < INTERNAL_NUM ==> ChainOk(chains[c], c, ctrl))
    && (forall s :: 0 <= s < |ctrl| ==>
          ctrl[s].subpool < INTERNAL_NUM && ctrl[s].ref <= 1 && (ctrl[s].ref == 0 ==> s in chains[ctrl[s].subpool]))
  }

  ghost function HandedOut(ctrl: seq<Ctrl>): set<Slice> {
    set s | 0 <= s < |ctrl| && ctrl[s].ref == 1
  }

  lemma {:induction false} SeqSetSize(q: seq<Slice>)
    requires NoDuplicates(q)
    ensures |SeqSet(q)| == |q|
  {
    if q != [] {
      var n := |q| - 1;
      SeqSetSize(q[..n]);
      assert q == q[..n] + [q[n]];
      assert SeqSet(q) == SeqSet(q[..n]) + {q[n]};
    }
  }

  lemma {:induction false} Range(n: nat) returns (r: set<Slice>)
    ensures |r| == n && forall s :: s in r <==> 0 <= s < n
  {
    if n == 0 {
      r := {};
    } else {
      r := Range(n - 1);
      r := r + {n - 1};
    }
  }

  /** Slices handed out and slices in the four chains add up to the whole pool. */
  lemma SlicesAreConserved(chains: seq<seq<Slice>>, ctrl: seq<Ctrl>)
    requires Partitioned(chains, ctrl)
    ensures |HandedOut(ctrl)| + |chains[0]| + |chains[1]| + |chains[2]| + |chains[3]| == |ctrl|
  {
    var a, b, c, d := SeqSet(chains[0]), SeqSet(chains[1]), SeqSet(chains[2]), SeqSet(chains[3]);
    SeqSetSize(chains[0]);
    SeqSetSize(chains[1]);
    SeqSetSize(chains[2]);
    SeqSetSize(chains[3]);
    ChainSet(chains, ctrl, 0);
    ChainSet(chains, ctrl, 1);
    ChainSet(chains, ctrl, 2);
    ChainSet(chains, ctrl, 3);
    FiveParts(ctrl, a, b, c, d);
  }

  lemma FiveParts(ctrl: seq<Ctrl>, a: set<Slice>, b: set<Slice>, c: set<Slice>, d: set<Slice>)
    requires forall s :: 0 <= s < |ctrl| ==> ctrl[s].subpool < INTERNAL_NUM && ctrl[s].ref <= 1
    requires forall s :: s in a <==> 0 <= s < |ctrl| && ctrl[s] == Ctrl(0, 0)
    requires forall s :: s in b <==> 0 <= s < |ctrl| && ctrl[s] == Ctrl(1, 0)
    requires forall s :: s in c <==> 0 <= s < |ctrl| && ctrl[s] == Ctrl(2, 0)
    requires forall s :: s in d <==> 0 <= s < |ctrl| && ctrl[s] == Ctrl(3, 0)
    ensures |HandedOut(ctrl)| + |a| + |b| + |c| + |d| == |ctrl|
  {
    var all := Range(|ctrl|);
    var ab, cd := a + b, c + d;
    var free := ab + cd;
    assert a !! b && c !! d && ab !! cd && HandedOut(ctrl) !! free;
    assert all == HandedOut(ctrl) + free;
  }

  lemma ChainSet(chains: seq<seq<Slice>>, ctrl: seq<Ctrl>, c: nat)
    requires Partitioned(chains, ctrl) && c < INTERNAL_NUM
    ensures forall s :: s in SeqSet(chains[c]) <==> 0 <= s < |ctrl| && ctrl[s] == Ctrl(c, 0)
  {
    assert ChainOk(chains[c], c, ctrl);
  }

  /** Each slice ends before the next one begins. */
  ghost predicate Apart(addrs: seq<nat>, size: nat) {
    forall i, j :: 0 <= i < j < |addrs| ==> addrs[i] + size <= addrs[j]
  }

  /** Every slice lies between two addresses. */
  ghost predicate Between(addrs: seq<nat>, size: nat, low: nat, high: nat) {
    forall i :: 0 <= i < |addrs| ==> low <= addrs[i] && addrs[i] + size <= high
  }

  lemma TakeHead(chains: seq<seq<Slice>>, ctrl: seq<Ctrl>, c: nat)
    requires Partitioned(chains, ctrl) && c < INTERNAL_NUM && chains[c] != []
    ensures var s := chains[c][0];
      s < |ctrl| && ctrl[s] == Ctrl(c, 0) && Partitioned(chains[c := chains[c][1..]], ctrl[s := Ctrl(c, 1)])
  {
    var s := chains[c][0];
    assert ChainOk(chains[c], c, ctrl);
    var chains', ctrl' := chains[c := chains[c][1..]], ctrl[s := Ctrl(c, 1)];
    forall e | 0 <= e < INTERNAL_NUM ensures ChainOk(chains'[e], e, ctrl') {
      assert ChainOk(chains[e], e, ctrl);
    }
    forall u | 0 <= u < |ctrl'| && ctrl'[u].ref == 0 ensures u in chains'[ctrl'[u].subpool] {
      assert u in chains[ctrl[u].subpool];
    }
  }

  lemma PutHead(chains: seq<seq<Slice>>, ctrl: seq<Ctrl>, s: Slice)
    requires Partitioned(chains, ctrl) && s < |ctrl| && ctrl[s].ref == 1
    ensures var c := ctrl[s].subpool; Partitioned(chains[c := [s] + chains[c]], ctrl[s := Ctrl(c, 0)])
  {
    var c := ctrl[s].subpool;
    var chains', ctrl' := chains[c := [s] + chains[c]], ctrl[s := Ctrl(c, 0)];
    forall e | 0 <= e < INTERNAL_NUM ensures ChainOk(chains'[e], e, ctrl') {
      assert ChainOk(chains[e], e, ctrl);
    }
  }

  /** The 32-bit counter, incremented atomically and read before the increment. */
  function NextIndex(i: int): int {
    if i == 0x7FFF_FFFF then -0x8000_0000 else i + 1
  }

  lemma PlaceNext(addrs: seq<nat>, size: nat, start: nat, next: nat)
    requires start <= next && Apart(addrs, size) && Between(addrs, size, start, next)
    ensures Apart(addrs + [next], size) && Between(addrs + [next], size, start, next + size)
  {
  }

  /** One chain's slices: each new one at the head, at the address behind the one before. */
  method InjectChain(i: nat, count: nat, before: seq<Ctrl>, placed: seq<nat>, size: nat, ghost start: nat, address: nat)
    returns (chain: seq<Slice>, blocks: seq<Ctrl>, addrs: seq<nat>, next: nat)
    requires |placed| == |before| && start <= address && Apart(placed, size) && Between(placed, size, start, address)
    ensures |blocks| == |before| + count && before <= blocks && |chain| == count && ChainOk(chain, i, blocks)
    ensures forall s :: |before| <= s < |blocks| ==> blocks[s] == Ctrl(i, 0) && s in chain
    ensures |addrs| == |blocks| && Apart(addrs, size) && Between(addrs, size, start, next)
    ensures start <= next == address + count * size
  {
    hide Apart, Between;
    chain, blocks, addrs, next := [], before, placed, address;
    var j := 0;
    while j < count
      invariant 0 <= j <= count && |blocks| == |before| + j && |chain| == j && before <= blocks && |addrs| == |blocks|
      invariant forall k :: 0 <= k < j ==> chain[k] == |blocks| - 1 - k
      invariant forall s :: |before| <= s < |blocks| ==> blocks[s] == Ctrl(i, 0) && s in chain
      invariant Apart(addrs, size) && Between(addrs, size, start, next) && start <= next == address + j * size
    {
      chain := [|blocks|] + chain;
      blocks := blocks + [Ctrl(i, 0)];
      PlaceNext(addrs, size, start, next);
      addrs := addrs + [next];
      next := next + size;
      j := j + 1;
    }
  }

  class Pool {
    const datasize: nat
    const slicesize: nat
    const addrs: seq<nat>
    var chains: seq<seq<Slice>>
    var freenum: seq<nat>
    var ctrl: seq<Ctrl>
    var globalIndex: int

    ghost predicate Valid()
      reads this
    {
      && Partitioned(chains, ctrl) && |freenum| == INTERNAL_NUM
      && (forall c :: 0 <= c < INTERNAL_NUM ==> freenum[c] == |chains[c]|)
      && |addrs| == |ctrl| && Apart(addrs, slicesize)
    }

    /** mem_pool_sw_slice_inject: slice after slice, chain after chain, all free. */
    constructor (slicenum: nat, data: nat, size: nat, start: nat)
      requires slicenum % INTERNAL_NUM == 0
      ensures Valid() && datasize == data && slicesize == size && |ctrl| == slicenum && HandedOut(ctrl) == {}
      ensures globalIndex == 0 && forall c :: 0 <= c < INTERNAL_NUM ==> freenum[c] == slicenum / INTERNAL_NUM
      ensures Between(addrs, size, start, start + slicenum * size)
    {
      hide Apart, Between;
      datasize, slicesize := data, size;
      var perChain := slicenum / INTERNAL_NUM;
      var made: seq<seq<Slice>>, blocks: seq<Ctrl>, placed: seq<nat> := [], [], [];
      var address, i := start, 0;
      NothingPlaced(size, start);
      while i < INTERNAL_NUM
        invariant 0 <= i <= INTERNAL_NUM && |made| == i && |blocks| == |placed| == i * perChain
        invariant forall c :: 0 <= c < i ==> ChainOk(made[c], c, blocks) && |made[c]| == perChain
        invariant forall s :: 0 <= s < |blocks| ==> blocks[s].subpool < i && blocks[s].ref == 0 && s in made[blocks[s].subpool]
        invariant Apart(placed, size) && Between(placed, size, start, address) && start <= address == start + |placed| * size
      {
        ghost var before, n := blocks, |blocks|;
        var chain: seq<Slice>;
        chain, blocks, placed, address := InjectChain(i, perChain, blocks, placed, size, start, address);
        forall c | 0 <= c < i ensures ChainOk(made[c], c, blocks) {
          assert ChainOk(made[c], c, before);
        }
        assert n + perChain == (i + 1) * perChain;
        assert n * size + perChain * size == (n + perChain) * size;
        made := made + [chain];
        i := i + 1;
      }
      assert 4 * perChain == slicenum;
      chains, ctrl, freenum, globalIndex := made, blocks, seq(INTERNAL_NUM, c => perChain), 0;
      addrs := placed;
    }

    /** mem_pool_alloc: the head of the chain the counter selects, and of no other chain. */
    method Alloc(size: nat) returns (r: Option<Slice>)
      requires Valid()
      modifies this
      ensures Valid() && |ctrl| == |old(ctrl)|
      ensures var c := old(globalIndex) % INTERNAL_NUM;
        && (r.None? <==> size > datasize || old(chains)[c] == [])
        && (r.None? ==> chains == old(chains) && ctrl == old(ctrl))
        && (r.Some? ==> r.value == old(chains)[c][0] && chains == old(chains)[c := old(chains)[c][1..]])
      ensures r.Some? ==> r.value !in HandedOut(old(ctrl)) && HandedOut(ctrl) == HandedOut(old(ctrl)) + {r.value}
      ensures globalIndex == if size > datasize then old(globalIndex) else NextIndex(old(globalIndex))
    {
      if size > datasize {
        return None;
      }
      var index := globalIndex % INTERNAL_NUM;
      globalIndex := NextIndex(globalIndex);
      if chains[index] == [] {
        return None;
      }
      TakeHead(chains, ctrl, index);
      var s := chains[index][0];
      chains := chains[index := chains[index][1..]];
      freenum := freenum[index := freenum[index] - 1];
      assert ctrl[s].ref == 0;
      ctrl := ctrl[s := ctrl[s].(ref := 1)];
      r := Some(s);
    }

    /** mem_pool_free: a slice handed out goes back to its home chain; anything else changes nothing. */
    method Free(s: Slice)
      requires Valid() && s < |ctrl|
      modifies this
      ensures Valid() && |ctrl| == |old(ctrl)| && HandedOut(ctrl) == HandedOut(old(ctrl)) - {s}
      ensures s !in HandedOut(old(ctrl)) ==> chains == old(chains) && ctrl == old(ctrl) && freenum == old(freenum)
      ensures s in HandedOut(old(ctrl)) ==>
        var c := old(ctrl)[s].subpool; chains == old(chains)[c := [s] + old(chains)[c]]
    {
      if ctrl[s].ref != 1 {
        return;
      }
      PutHead(chains, ctrl, s);
      var c := ctrl[s].subpool;
      ctrl := ctrl[s := ctrl[s].(ref := 0)];
      chains := chains[c := [s] + chains[c]];
      freenum := freenum[c := freenum[c] + 1];
    }
  }

  lemma NothingPlaced(size: nat, start: nat)
    ensures Apart([], size) && Between([], size, start, start)
  {
  }

  /**
   mem_pool_sw_slice_inject: the slices must divide evenly over the chains; then they lie one behind the
   other inside the pool's memory, no two overlapping.
   */
  method Inject(slicenum: nat, data: nat, size: nat, start: nat) returns (pool: Pool?)
    ensures pool == null <==> slicenum % INTERNAL_NUM != 0
    ensures pool != null ==>
      && pool.Valid() && |pool.ctrl| == slicenum && pool.datasize == data && pool.slicesize == size && HandedOut(pool.ctrl) == {}
      && Apart(pool.addrs, size) && Between(pool.addrs, size, start, start + slicenum * size)
  {
    if slicenum % INTERNAL_NUM != 0 {
      return null;
    }
    pool := new Pool(slicenum, data, size, start);
  }

  /** The counter selects the chains in turn, also across its wrap-around. */
  lemma ChainsInTurn(i: int)
    requires -0x8000_0000 <= i <= 0x7FFF_FFFF
    ensures NextIndex(i) % INTERNAL_NUM == (i % INTERNAL_NUM + 1) % INTERNAL_NUM
    ensures -0x8000_0000 <= NextIndex(i) <= 0x7FFF_FFFF
  {
  }

  /** Slices a chain has given away after k allocations in turn. */
  function Taken(k: nat, c: nat): nat
    requires c < INTERNAL_NUM
  {
    (k + 3 - c) / 4
  }

  lemma TakenInTurn(k: nat, c: nat)
    requires c < INTERNAL_NUM
    ensures Taken(k + 1, c) == Taken(k, c) + if c == k % INTERNAL_NUM then 1 else 0
    ensures c == k % INTERNAL_NUM ==> Taken(k, c) == k / INTERNAL_NUM
  {
  }

  /** From a fresh pool every slice can be had: any number of allocations up to the pool's size all succeed. */
  method AllocAll(pool: Pool, size: nat, count: nat) returns (got: seq<Slice>)
    requires pool.Valid() && pool.globalIndex == 0 && size <= pool.datasize && count <= |pool.ctrl|
    requires |pool.ctrl| % INTERNAL_NUM == 0 && forall c :: 0 <= c < INTERNAL_NUM ==> pool.freenum[c] == |pool.ctrl| / INTERNAL_NUM
    modifies pool
    ensures pool.Valid() && |got| == count && NoDuplicates(got)
  {
    hide Partitioned, Apart, Taken;
    got := [];
    ghost var share := |pool.ctrl| / INTERNAL_NUM;
    NoneTaken();
    NoneYet(pool.chains, pool.ctrl);
    while |got| < count
      invariant |got| <= count <= |pool.ctrl| == old(|pool.ctrl|) && pool.Valid() && NoDuplicates(got)
      invariant -0x8000_0000 <= pool.globalIndex <= 0x7FFF_FFFF && pool.globalIndex % INTERNAL_NUM == |got| % INTERNAL_NUM
      invariant |pool.chains| == INTERNAL_NUM
      invariant forall c :: 0 <= c < INTERNAL_NUM ==> |pool.chains[c]| == share - Taken(|got|, c)
      invariant forall i :: 0 <= i < |got| ==> got[i] in HandedOut(pool.ctrl)
    {
      var c := pool.globalIndex % INTERNAL_NUM;
      TakenInTurn(|got|, c);
      ChainsInTurn(pool.globalIndex);
      assert |got| / INTERNAL_NUM < share;
      assert |pool.chains[c]| > 0;
      var r := pool.Alloc(size);
      assert r.Some?;
      forall e | 0 <= e < INTERNAL_NUM ensures |pool.chains[e]| == share - Taken(|got| + 1, e) {
        TakenInTurn(|got|, e);
      }
      got := got + [r.value];
    }
  }

  lemma NoneTaken()
    ensures forall c :: 0 <= c < INTERNAL_NUM ==> Taken(0, c) == 0
  {
  }

  lemma NoneYet(chains: seq<seq<Slice>>, ctrl: seq<Ctrl>)
    requires Partitioned(chains, ctrl)
    ensures |chains| == INTERNAL_NUM
  {
  }

  /** Two buffers handed out at the same time share no byte, for any size the pool serves. */
  lemma BuffersDoNotOverlap(addrs: seq<nat>, ctrl: seq<Ctrl>, size: nat, i: Slice, j: Slice, x: nat)
    requires |addrs| == |ctrl| && Apart(addrs, size) && i != j && i in HandedOut(ctrl) && j in HandedOut(ctrl)
    ensures !(addrs[i] <= x < addrs[i] + size && addrs[j] <= x < addrs[j] + size)
  {
    if i < j {
      assert addrs[i] + size <= addrs[j];
    } else {
      assert addrs[j] + size <= addrs[i];
    }
  }
}
