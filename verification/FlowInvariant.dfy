/** What holds in every reachable state of the flow table, and what one core's step leaves to the others. */
module FlowInvariant {
  import opened Wrappers
  import opened Collections
  import opened FlowHash
  import opened FlowTable

  ghost predicate Listed(s: State, f: ItemId)
    requires f in s.items && |s.buckets| == BUCKET_NUM
  {
    f in s.buckets[BucketOf(s.items[f].key)].list
  }

  ghost predicate NoMatchBefore(s: State, b: nat, n: nat, key: Tuple)
    requires b < |s.buckets|
  {
    n <= |s.buckets[b].list| &&
    forall i :: 0 <= i < n ==> s.buckets[b].list[i] in s.items && !FlowMatch(s.items[s.buckets[b].list[i]].key, key)
  }

  /** At most one item per conversation in a bucket, each in the bucket of its hash. */
  ghost predicate BucketOk(s: State, b: nat)
    requires b < |s.buckets|
  {
    var list := s.buckets[b].list;
    && (forall i :: 0 <= i < |list| ==> list[i] in s.items && BucketOf(s.items[list[i]].key) == b)
    && (forall i, j :: 0 <= i < j < |list| ==> !FlowMatch(s.items[list[i]].key, s.items[list[j]].key))
    && (s.buckets[b].lock.Some? ==>
          var c := s.buckets[b].lock.value; c in s.cores && BucketHeld(s.cores[c]) == Some(b))
  }

  ghost predicate ItemOk(s: State, f: ItemId)
    requires f in s.items
  {
    s.items[f].lock.Some? ==> var c := s.items[f].lock.value; c in s.cores && f in ItemsHeld(s.cores[c])
  }

  ghost predicate PacketOk(s: State, p: PktId)
    requires p in s.pkts && |s.buckets| == BUCKET_NUM
  {
    var m := s.pkts[p];
    && (m.owner.Some? ==> m.owner.value in s.cores && PacketHeld(s.cores[m.owner.value]) == Some(p))
    && (m.live && m.flow.Some? ==>
          m.flow.value in s.items && Listed(s, m.flow.value) && FlowMatch(s.items[m.flow.value].key, m.key))
    && (!m.live ==> m.owner.Some? && s.cores[m.owner.value].Detaching?)
  }

  ghost predicate Unlisted(s: State, f: ItemId) {
    forall b :: 0 <= b < |s.buckets| ==> f !in s.buckets[b].list
  }

  /** What each core may rely on at its current point. */
  ghost predicate HoldsOk(s: State, c: Core)
    requires c in s.cores
  {
    var pc := s.cores[c];
    && (BucketHeld(pc).Some? ==> BucketHeld(pc).value < |s.buckets| && s.buckets[BucketHeld(pc).value].lock == Some(c))
    && (forall f :: f in ItemsHeld(pc) ==> f in s.items && s.items[f].lock == Some(c))
    && (PacketHeld(pc).Some? ==>
          && PacketHeld(pc).value in s.pkts && s.pkts[PacketHeld(pc).value].owner == Some(c)
          && s.pkts[PacketHeld(pc).value].live == !pc.Detaching?)
    && (forall f :: f in Private(pc) ==> f in s.items && s.items[f].useCnt == 0 && Unlisted(s, f))
    && (forall f :: f in DeadList(pc) ==> f in s.items && s.items[f].lock.None?)
    && (forall i, j :: 0 <= i < j < |DeadList(pc)| ==> DeadList(pc)[i] != DeadList(pc)[j])
  }

  ghost predicate Conversation(s: State, p: PktId, f: ItemId)
    requires |s.buckets| == BUCKET_NUM
  {
    p in s.pkts && f in s.items && Listed(s, f) && FlowMatch(s.items[f].key, s.pkts[p].key)
  }

  ghost predicate MineOk(s: State, p: PktId, mine: Option<ItemId>)
    requires p in s.pkts
  {
    mine.Some? ==> mine.value in s.items && s.items[mine.value].key == s.pkts[p].key && s.pkts[p].flow.None?
  }

  ghost predicate PcOk(s: State, c: Core)
    requires c in s.cores && |s.buckets| == BUCKET_NUM
  {
    var pc := s.cores[c];
    (PacketHeld(pc).Some? ==> PacketHeld(pc).value in s.pkts) &&
    match pc
    case Idle => true
    case WantBucket(p, b, mine) => b == BucketOf(s.pkts[p].key) && MineOk(s, p, mine)
    case Scanning(p, b, pos, mine) =>
      b == BucketOf(s.pkts[p].key) && MineOk(s, p, mine) && NoMatchBefore(s, b, pos, s.pkts[p].key)
    case Found(p, b, f, mine) => b == BucketOf(s.pkts[p].key) && MineOk(s, p, mine) && Conversation(s, p, f)
    case Locked(p, b, f, mine) => b == BucketOf(s.pkts[p].key) && MineOk(s, p, mine) && Conversation(s, p, f)
    case Missed(p, b) => b == BucketOf(s.pkts[p].key) && s.pkts[p].flow.None?
    case Allocating(p, b) => b == BucketOf(s.pkts[p].key) && s.pkts[p].flow.None?
    case Inserting(p, b, f) =>
      && b == BucketOf(s.pkts[p].key) && MineOk(s, p, Some(f))
      && NoMatchBefore(s, b, |s.buckets[b].list|, s.pkts[p].key)
    case Inserted(p, b, f) => b == BucketOf(s.pkts[p].key) && Conversation(s, p, f) && s.pkts[p].flow.None?
    case Discarding(p, f, extra) => f != extra && Conversation(s, p, f) && (s.pkts[p].flow == None || s.pkts[p].flow == Some(f))
    case Referencing(p, f) => Conversation(s, p, f) && (s.pkts[p].flow == None || s.pkts[p].flow == Some(f))
    case Attaching(p, f) => Conversation(s, p, f) && s.pkts[p].flow == None
    case Releasing(p, f) => Conversation(s, p, f) && s.pkts[p].flow == Some(f)
    case Detaching(p) => true
    case AgeBucket(b, _) => b <= BUCKET_NUM
    case AgeScan(b, _, pos, _) => b < BUCKET_NUM && pos <= |s.buckets[b].list|
    case AgeTest(b, _, pos, f, _) => b < BUCKET_NUM && pos < |s.buckets[b].list| && s.buckets[b].list[pos] == f
    case AgeExpire(b, _, pos, f, _) =>
      b < BUCKET_NUM && pos < |s.buckets[b].list| && s.buckets[b].list[pos] == f && f in s.items && s.items[f].useCnt == 0
    case AgeKeep(b, _, pos, f, _) => b < BUCKET_NUM && pos < |s.buckets[b].list| && s.buckets[b].list[pos] == f
    case AgeUnlinked(b, _, pos, f, dead) => b < BUCKET_NUM && pos <= |s.buckets[b].list| && f !in dead
    case AgeFree(b, _, _) => b < BUCKET_NUM
  }

  /** Live packets pointing at f. */
  ghost function Pointing(s: State, f: ItemId): set<PktId> {
    set p | p in s.pkts && s.pkts[p].live && s.pkts[p].flow == Some(f)
  }

  /** Cores between the increment of f's counter and the store of the pointer. */
  ghost function MidAttach(s: State, f: ItemId): set<Core> {
    set c | c in s.cores && s.cores[c].Attaching? && s.cores[c].f == f
  }

  ghost predicate CountOk(s: State, f: ItemId)
    requires f in s.items
  {
    s.items[f].useCnt == |Pointing(s, f)| + |MidAttach(s, f)|
  }

  ghost predicate Disjoint(t: State) {
    forall c, e :: c in t.cores && e in t.cores && c != e ==> Private(t.cores[c]) !! Private(t.cores[e])
  }

  ghost predicate BucketsOk(t: State) {
    |t.buckets| == BUCKET_NUM && forall b :: 0 <= b < BUCKET_NUM ==> BucketOk(t, b)
  }

  ghost predicate ItemsOk(t: State) { forall f :: f in t.items ==> ItemOk(t, f) }

  ghost predicate CountsOk(t: State) { forall f :: f in t.items ==> CountOk(t, f) }

  ghost predicate PacketsOk(t: State)
    requires |t.buckets| == BUCKET_NUM
  {
    forall p :: p in t.pkts ==> PacketOk(t, p)
  }

  ghost predicate AllHoldsOk(t: State) { forall c :: c in t.cores ==> HoldsOk(t, c) }

  ghost predicate AllPcOk(t: State)
    requires |t.buckets| == BUCKET_NUM
  {
    forall c :: c in t.cores ==> PcOk(t, c)
  }

  ghost predicate Inv(s: State) {
    && |s.buckets| == BUCKET_NUM
    && BucketsOk(s) && ItemsOk(s) && CountsOk(s) && PacketsOk(s) && AllHoldsOk(s) && AllPcOk(s) && Disjoint(s)
  }

  lemma TableSize(s: State)
    requires Inv(s)
    ensures |s.buckets| == BUCKET_NUM
  {
  }

  lemma CountsPart(s: State)
    requires Inv(s)
    ensures CountsOk(s)
  {
  }

  lemma CoreFacts(s: State, c: Core)
    requires Inv(s) && c in s.cores
    ensures HoldsOk(s, c) && PcOk(s, c)
  {
  }

  lemma BucketFacts(s: State, b: nat)
    requires Inv(s) && b < BUCKET_NUM
    ensures BucketOk(s, b)
  {
  }

  lemma PacketFacts(s: State, p: PktId)
    requires Inv(s) && p in s.pkts
    ensures PacketOk(s, p)
  {
  }

  lemma PrivateFacts(s: State, c: Core, e: Core)
    requires Inv(s) && c in s.cores && e in s.cores && c != e
    ensures Private(s.cores[c]) !! Private(s.cores[e])
  {
  }

  // ---------------------------------------------------------------------------
  // What one core's step leaves alone for every other core

  /** The item is still there, in its list, under the same key. */
  ghost predicate SameEntry(s: State, t: State, f: ItemId)
    requires |s.buckets| == |t.buckets| == BUCKET_NUM
  {
    f in s.items && f in t.items && t.items[f].key == s.items[f].key && (Listed(s, f) ==> Listed(t, f))
  }

  ghost predicate Rely(s: State, t: State, e: Core)
    requires |s.buckets| == |t.buckets| == BUCKET_NUM && e in s.cores
  {
    var pc := s.cores[e];
    && e in t.cores && t.cores[e] == pc
    && (BucketHeld(pc).Some? && BucketHeld(pc).value < BUCKET_NUM ==>
          && t.buckets[BucketHeld(pc).value] == s.buckets[BucketHeld(pc).value]
          && forall f :: f in s.buckets[BucketHeld(pc).value].list ==> f in t.items && f in s.items && t.items[f].key == s.items[f].key)
    && (forall f :: f in ItemsHeld(pc) ==> f in s.items && f in t.items && t.items[f].lock == s.items[f].lock && t.items[f].key == s.items[f].key)
    && (forall f :: f in Private(pc) ==> f in s.items && f in t.items && t.items[f] == s.items[f] && Unlisted(t, f))
    && (forall f :: f in LookedUp(pc) ==> SameEntry(s, t, f))
    && (PacketHeld(pc).Some? ==> PacketHeld(pc).value in s.pkts && PacketHeld(pc).value in t.pkts && t.pkts[PacketHeld(pc).value] == s.pkts[PacketHeld(pc).value])
    && (pc.AgeExpire? ==> pc.f in s.items && pc.f in t.items && t.items[pc.f].useCnt == s.items[pc.f].useCnt)
  }

  lemma RelyKeepsHolds(s: State, t: State, e: Core)
    requires |s.buckets| == |t.buckets| == BUCKET_NUM && e in s.cores && HoldsOk(s, e) && Rely(s, t, e)
    ensures HoldsOk(t, e)
  {
    hide BucketOf, FlowMatch;
    var pc := s.cores[e];
    forall f | f in DeadList(pc) ensures f in t.items && t.items[f].lock.None? {
      assert f in Private(pc);
    }
  }

  lemma RelyKeepsPc(s: State, t: State, e: Core)
    requires |s.buckets| == |t.buckets| == BUCKET_NUM && e in s.cores
    requires HoldsOk(s, e) && PcOk(s, e) && Rely(s, t, e)
    ensures PcOk(t, e)
  {
    hide BucketOf, FlowMatch;
    var pc := s.cores[e];
    match pc {
      case WantBucket(_, _, mine) =>
        assert mine.Some? ==> mine.value in Private(pc);
      case Scanning(_, _, _, mine) =>
        assert mine.Some? ==> mine.value in Private(pc);
      case Found(_, _, f, mine) =>
        assert mine.Some? ==> mine.value in Private(pc);
        assert f in LookedUp(pc);
      case Locked(_, _, f, mine) =>
        assert mine.Some? ==> mine.value in Private(pc);
        assert f in LookedUp(pc);
      case Inserting(_, _, f) => assert f in Private(pc);
      case Inserted(_, _, f) => assert f in LookedUp(pc);
      case Discarding(_, f, _) => assert f in LookedUp(pc);
      case Referencing(_, f) => assert f in LookedUp(pc);
      case Attaching(_, f) => assert f in LookedUp(pc);
      case Releasing(_, f) => assert f in LookedUp(pc);
      case AgeExpire(_, _, _, f, _) => assert f in ItemsHeld(pc);
      case _ =>
    }
  }

  // ---------------------------------------------------------------------------
  // Putting the pieces together

  /** Only core c moved, and every other core finds what it relies on. */
  ghost predicate OnlyMoved(s: State, t: State, c: Core)
    requires |s.buckets| == |t.buckets| == BUCKET_NUM
  {
    && c in s.cores && t.cores.Keys == s.cores.Keys
    && forall e :: e in s.cores && e != c ==> Rely(s, t, e)
  }

  lemma Compose(s: State, t: State, c: Core)
    requires Inv(s) && |t.buckets| == BUCKET_NUM && OnlyMoved(s, t, c)
    requires BucketsOk(t) && ItemsOk(t) && CountsOk(t) && PacketsOk(t) && Disjoint(t)
    requires HoldsOk(t, c) && PcOk(t, c)
    ensures Inv(t)
  {
    hide Rely, HoldsOk, PcOk, BucketOk, ItemOk, CountOk, PacketOk, Private;
    forall e | e in t.cores ensures HoldsOk(t, e) && PcOk(t, e) {
      if e != c {
        RelyKeepsHolds(s, t, e);
        RelyKeepsPc(s, t, e);
      }
    }
  }

  ghost predicate SameLists(s: State, t: State) {
    |s.buckets| == |t.buckets| && forall b :: 0 <= b < |s.buckets| ==> t.buckets[b].list == s.buckets[b].list
  }

  lemma CountsUnchanged(s: State, t: State, c: Core, pc: Pc)
    requires CountsOk(s) && c in s.cores && t.cores == s.cores[c := pc]
    requires !s.cores[c].Attaching? && !pc.Attaching?
    requires forall f :: f in t.items ==> f in s.items && t.items[f].useCnt == s.items[f].useCnt
    requires forall f :: f in t.items ==> Pointing(t, f) == Pointing(s, f)
    ensures CountsOk(t)
  {
    forall f | f in t.items ensures CountOk(t, f) {
      assert CountOk(s, f);
      assert MidAttach(t, f) == MidAttach(s, f);
    }
  }

  /** A step that takes or releases one bucket's lock and changes the core's position. */
  ghost predicate LockStep(s: State, t: State, c: Core, pc: Pc, b: nat)
    requires |s.buckets| == BUCKET_NUM && c in s.cores && b < BUCKET_NUM
  {
    var was := s.cores[c];
    && t.items == s.items && t.pkts == s.pkts && t.cores == s.cores[c := pc]
    && (exists l :: t.buckets == s.buckets[b := s.buckets[b].(lock := l)])
    && (s.buckets[b].lock == None || s.buckets[b].lock == Some(c))
    && (t.buckets[b].lock == Some(c) <==> BucketHeld(pc) == Some(b))
    && (t.buckets[b].lock.Some? ==> t.buckets[b].lock == Some(c))
    && (BucketHeld(pc).Some? ==> BucketHeld(pc).value == b)
    && (BucketHeld(was).Some? ==> BucketHeld(was).value == b)
    && ItemsHeld(pc) == ItemsHeld(was) && PacketHeld(pc) == PacketHeld(was) && Private(pc) == Private(was)
    && DeadList(pc) == DeadList(was)
    && !was.Attaching? && !pc.Attaching? && !was.Detaching? && !pc.Detaching?
  }

  lemma LockStepKeeps(s: State, t: State, c: Core, pc: Pc, b: nat)
    requires Inv(s) && c in s.cores && b < BUCKET_NUM && LockStep(s, t, c, pc, b)
    requires PcOk(t, c)
    ensures Inv(t)
  {
    LockStepRely(s, t, c, pc, b);
    LockStepBuckets(s, t, c, pc, b);
    CountsUnchanged(s, t, c, pc);
    LockStepRest(s, t, c, pc, b);
    Compose(s, t, c);
  }

  lemma LockStepRely(s: State, t: State, c: Core, pc: Pc, b: nat)
    requires Inv(s) && c in s.cores && b < BUCKET_NUM && LockStep(s, t, c, pc, b)
    ensures |t.buckets| == BUCKET_NUM && SameLists(s, t) && OnlyMoved(s, t, c)
  {
    hide BucketOf, FlowMatch, PcOk, ItemOk, CountOk, PacketOk;
    forall e | e in s.cores && e != c ensures Rely(s, t, e) {
      assert HoldsOk(s, e);
      assert PcOk(s, e);
      RelyLists(s, t, e, b);
    }
  }

  lemma RelyLists(s: State, t: State, e: Core, b: nat)
    requires Inv(s) && e in s.cores && HoldsOk(s, e) && PcOk(s, e)
    requires t.items == s.items && t.pkts == s.pkts && e in t.cores && t.cores[e] == s.cores[e]
    requires SameLists(s, t) && BucketHeld(s.cores[e]) != Some(b)
    requires forall a :: 0 <= a < BUCKET_NUM && a != b ==> t.buckets[a] == s.buckets[a]
    ensures Rely(s, t, e)
  {
    hide BucketOf, FlowMatch, ItemOk, CountOk, PacketOk, PcOk;
    hide ItemsHeld, Private, PacketHeld, BucketHeld, LookedUp, DeadList;
    LookedUpAreListed(s, e);
    ExpireHoldsItem(s.cores[e]);
    if BucketHeld(s.cores[e]).Some? {
      assert BucketOk(s, BucketHeld(s.cores[e]).value);
    }
  }

  lemma ExpireHoldsItem(pc: Pc)
    ensures pc.AgeExpire? ==> pc.f in ItemsHeld(pc)
  {
  }

  /** Whatever a core reached by lookup is allocated, listed and of its packet's conversation. */
  lemma LookedUpAreListed(s: State, e: Core)
    requires |s.buckets| == BUCKET_NUM && e in s.cores && PcOk(s, e)
    ensures forall f :: f in LookedUp(s.cores[e]) ==>
              PacketHeld(s.cores[e]).Some? && Conversation(s, PacketHeld(s.cores[e]).value, f)
  {
    hide BucketOf, FlowMatch;
  }

  lemma LockStepBuckets(s: State, t: State, c: Core, pc: Pc, b: nat)
    requires Inv(s) && c in s.cores && b < BUCKET_NUM && LockStep(s, t, c, pc, b)
    ensures BucketsOk(t)
  {
    hide BucketOf, FlowMatch, PcOk, ItemOk, CountOk, PacketOk, HoldsOk;
    forall a | 0 <= a < BUCKET_NUM ensures BucketOk(t, a) {
      assert BucketOk(s, a);
    }
  }

  lemma LockStepRest(s: State, t: State, c: Core, pc: Pc, b: nat)
    requires Inv(s) && c in s.cores && b < BUCKET_NUM && LockStep(s, t, c, pc, b)
    requires |t.buckets| == BUCKET_NUM && SameLists(s, t)
    ensures ItemsOk(t) && PacketsOk(t) && Disjoint(t) && HoldsOk(t, c)
  {
    LockStepItems(s, t, c, pc, b);
    LockStepPackets(s, t, c, pc, b);
    LockStepHolds(s, t, c, pc, b);
  }

  lemma LockStepItems(s: State, t: State, c: Core, pc: Pc, b: nat)
    requires Inv(s) && c in s.cores && b < BUCKET_NUM && LockStep(s, t, c, pc, b)
    ensures ItemsOk(t) && Disjoint(t)
  {
    hide BucketOf, FlowMatch, PcOk, BucketOk, CountOk, HoldsOk, PacketOk, ItemsHeld, Private;
    forall f | f in t.items ensures ItemOk(t, f) {
      assert ItemOk(s, f);
    }
  }

  lemma LockStepPackets(s: State, t: State, c: Core, pc: Pc, b: nat)
    requires Inv(s) && c in s.cores && b < BUCKET_NUM && LockStep(s, t, c, pc, b)
    requires |t.buckets| == BUCKET_NUM && SameLists(s, t)
    ensures PacketsOk(t)
  {
    hide BucketOf, FlowMatch, PcOk, BucketOk, CountOk, HoldsOk, ItemOk, PacketHeld;
    forall p | p in t.pkts ensures PacketOk(t, p) {
      assert PacketOk(s, p);
    }
  }

  lemma LockStepHolds(s: State, t: State, c: Core, pc: Pc, b: nat)
    requires Inv(s) && c in s.cores && b < BUCKET_NUM && LockStep(s, t, c, pc, b)
    requires |t.buckets| == BUCKET_NUM && SameLists(s, t)
    ensures HoldsOk(t, c)
  {
    hide BucketOf, FlowMatch, PcOk, BucketOk, CountOk, PacketOk, ItemOk;
    hide ItemsHeld, Private, DeadList, BucketHeld, PacketHeld;
    assert HoldsOk(s, c);
  }

  // ---------------------------------------------------------------------------
  // Steps that leave the buckets alone and touch the items in `fs` and the packets in `qs`

  ghost predicate Delta(s: State, t: State, fs: set<ItemId>, qs: set<PktId>) {
    && t.buckets == s.buckets
    && (forall g :: g !in fs ==> (g in t.items <==> g in s.items) && (g in s.items ==> t.items[g] == s.items[g]))
    && (forall g :: g in fs && g in s.items ==>
          if g in t.items then t.items[g].key == s.items[g].key else Unlisted(s, g))
    && (forall p :: p !in qs ==> (p in t.pkts <==> p in s.pkts) && (p in s.pkts ==> t.pkts[p] == s.pkts[p]))
  }

  /** The touched items and packets do not disturb a core at `pc`. */
  ghost predicate Away(s: State, t: State, pc: Pc, fs: set<ItemId>, qs: set<PktId>) {
    && (forall f :: f in ItemsHeld(pc) && f in fs ==>
          f in s.items && f in t.items && t.items[f].lock == s.items[f].lock
          && (pc.AgeExpire? ==> t.items[f].useCnt == s.items[f].useCnt))
    && Private(pc) !! fs
    && (PacketHeld(pc).Some? ==> PacketHeld(pc).value !in qs)
  }

  lemma RelyDelta(s: State, t: State, e: Core, fs: set<ItemId>, qs: set<PktId>)
    requires Inv(s) && e in s.cores && e in t.cores && t.cores[e] == s.cores[e]
    requires Delta(s, t, fs, qs) && Away(s, t, s.cores[e], fs, qs)
    ensures Rely(s, t, e)
  {
    hide BucketOf, FlowMatch, ItemOk, CountOk, PacketOk, PcOk;
    hide ItemsHeld, Private, PacketHeld, BucketHeld, LookedUp, DeadList;
    var pc := s.cores[e];
    assert HoldsOk(s, e);
    assert PcOk(s, e);
    LookedUpAreListed(s, e);
    ExpireHoldsItem(pc);
    forall f | f in LookedUp(pc) ensures SameEntry(s, t, f) {
      assert Conversation(s, PacketHeld(pc).value, f);
      assert Listed(s, f);
    }
    if BucketHeld(pc).Some? {
      assert BucketOk(s, BucketHeld(pc).value);
    }
  }

  lemma DeltaBuckets(s: State, t: State, c: Core, pc: Pc, fs: set<ItemId>, qs: set<PktId>)
    requires Inv(s) && c in s.cores && t.cores == s.cores[c := pc] && Delta(s, t, fs, qs)
    requires BucketHeld(pc) == BucketHeld(s.cores[c])
    ensures BucketsOk(t)
  {
    hide BucketOf, FlowMatch, PcOk, ItemOk, CountOk, PacketOk, HoldsOk, BucketHeld;
    forall b | 0 <= b < BUCKET_NUM ensures BucketOk(t, b) {
      assert BucketOk(s, b);
    }
  }

  lemma DeltaPackets(s: State, t: State, c: Core, pc: Pc, fs: set<ItemId>, qs: set<PktId>)
    requires Inv(s) && c in s.cores && t.cores == s.cores[c := pc] && Delta(s, t, fs, qs)
    requires PacketHeld(s.cores[c]).Some? && PacketHeld(s.cores[c]).value !in qs ==>
               PacketHeld(pc) == PacketHeld(s.cores[c]) && (s.cores[c].Detaching? ==> pc.Detaching?)
    requires forall p :: p in qs && p in t.pkts ==> PacketOk(t, p)
    ensures PacketsOk(t)
  {
    hide BucketOf, FlowMatch, PcOk, ItemOk, CountOk, BucketOk, HoldsOk, PacketHeld;
    forall p | p in t.pkts ensures PacketOk(t, p) {
      if p !in qs {
        assert PacketOk(s, p);
      }
    }
  }

  lemma DeltaKeeps(s: State, t: State, c: Core, pc: Pc, fs: set<ItemId>, qs: set<PktId>)
    requires Inv(s) && c in s.cores && t.cores == s.cores[c := pc] && Delta(s, t, fs, qs)
    requires BucketHeld(pc) == BucketHeld(s.cores[c])
    requires PacketHeld(s.cores[c]).Some? && PacketHeld(s.cores[c]).value !in qs ==>
               PacketHeld(pc) == PacketHeld(s.cores[c]) && (s.cores[c].Detaching? ==> pc.Detaching?)
    requires forall e :: e in s.cores && e != c ==> Away(s, t, s.cores[e], fs, qs)
    requires forall e :: e in s.cores && e != c ==> Private(s.cores[e]) !! Private(pc)
    requires forall p :: p in qs && p in t.pkts ==> PacketOk(t, p)
    requires ItemsOk(t) && CountsOk(t) && HoldsOk(t, c) && PcOk(t, c)
    ensures Inv(t)
  {
    hide Rely, HoldsOk, PcOk, BucketOk, ItemOk, CountOk, PacketOk, Private, Delta, Away, BucketHeld, PacketHeld;
    DeltaBuckets(s, t, c, pc, fs, qs);
    DeltaPackets(s, t, c, pc, fs, qs);
    forall e | e in s.cores && e != c ensures Rely(s, t, e) {
      RelyDelta(s, t, e, fs, qs);
    }
    Compose(s, t, c);
  }

  // ---------------------------------------------------------------------------
  // Consequences of the invariant used by several steps

  /** Two list entries that both match a key are the same item. */
  lemma OneItemPerConversation(s: State, f: ItemId, g: ItemId, key: Tuple)
    requires Inv(s) && f in s.items && g in s.items && Listed(s, f) && Listed(s, g)
    requires FlowMatch(s.items[f].key, key) && FlowMatch(s.items[g].key, key)
    ensures f == g
  {
    hide BucketsOk, ItemsOk, CountsOk, PacketsOk, AllHoldsOk, AllPcOk, Disjoint;
    hide BucketOf, ItemOk, CountOk, PacketOk, PcOk, HoldsOk;
    MatchIsBidirectional(s.items[f].key, key);
    MatchIsBidirectional(s.items[g].key, key);
    MatchIsEquivalence(s.items[f].key, key, s.items[g].key);
    MatchIsEquivalence(s.items[g].key, key, s.items[f].key);
    var b := BucketOf(key);
    var list := s.buckets[b].list;
    BucketFacts(s, b);
    var i :| 0 <= i < |list| && list[i] == f;
    var j :| 0 <= j < |list| && list[j] == g;
    hide FlowMatch;
    assert i == j;
  }

  /** A packet already attached to a flow finds that flow again. */
  lemma FoundIsAttached(s: State, p: PktId, f: ItemId)
    requires Inv(s) && Conversation(s, p, f) && s.pkts[p].live
    ensures s.pkts[p].flow == None || s.pkts[p].flow == Some(f)
  {
    hide BucketsOk, ItemsOk, CountsOk, PacketsOk, AllHoldsOk, AllPcOk, Disjoint;
    hide BucketOf, FlowMatch, ItemOk, CountOk, PcOk, HoldsOk, BucketOk;
    PacketFacts(s, p);
    if s.pkts[p].flow.Some? {
      OneItemPerConversation(s, f, s.pkts[p].flow.value, s.pkts[p].key);
    }
  }

  /** A packet whose bucket holds no match is attached to nothing. */
  lemma MissMeansUnattached(s: State, p: PktId, b: nat)
    requires Inv(s) && p in s.pkts && s.pkts[p].live && b == BucketOf(s.pkts[p].key)
    requires NoMatchBefore(s, b, |s.buckets[b].list|, s.pkts[p].key)
    ensures s.pkts[p].flow.None?
  {
    hide BucketsOk, ItemsOk, CountsOk, PacketsOk, AllHoldsOk, AllPcOk, Disjoint;
    hide BucketOf, FlowMatch, ItemOk, CountOk, PcOk, HoldsOk, BucketOk;
    PacketFacts(s, p);
    if s.pkts[p].flow.Some? {
      MatchIsBidirectional(s.items[s.pkts[p].flow.value].key, s.pkts[p].key);
    }
  }

  /** The pointers a core follows next are always valid. */
  lemma MovesAreDefined(s: State, c: Core)
    requires Inv(s) && c in s.cores
    ensures MoveDefined(s, s.cores[c])
  {
    hide BucketsOk, ItemsOk, CountsOk, PacketsOk, AllHoldsOk, AllPcOk, Disjoint;
    hide BucketOf, FlowMatch, ItemOk, CountOk, PacketOk;
    CoreFacts(s, c);
    if BucketHeld(s.cores[c]).Some? {
      BucketFacts(s, BucketHeld(s.cores[c]).value);
    }
  }
}
