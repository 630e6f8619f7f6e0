/** Every step of every core keeps the invariant. */
module FlowSteps {
  import opened Wrappers
  import opened Collections
  import opened FlowHash
  import opened FlowTable
  import opened FlowInvariant

  // ---------------------------------------------------------------------------
  // Lock steps

  lemma LockBucketKeeps(s: State, c: Core)
    requires Inv(s) && c in s.cores && s.cores[c].WantBucket? && CanMove(s, s.cores[c]) && MoveDefined(s, s.cores[c])
    ensures Inv(DoPacketStep(s, c, s.cores[c]))
  {
    hide BucketsOk, ItemsOk, CountsOk, PacketsOk, AllHoldsOk, AllPcOk, Disjoint;
    hide BucketOf, FlowMatch, BucketOk, ItemOk, CountOk, PacketOk, HoldsOk;
    CoreFacts(s, c);
    var pc := s.cores[c];
    var t := DoPacketStep(s, c, pc);
    LockStepKeeps(s, t, c, Scanning(pc.p, pc.b, 0, pc.mine), pc.b);
  }

  lemma UnlockFoundKeeps(s: State, c: Core)
    requires Inv(s) && c in s.cores && MoveDefined(s, s.cores[c]) && s.cores[c].Locked?
    ensures Inv(DoPacketStep(s, c, s.cores[c]))
  {
    hide BucketsOk, ItemsOk, CountsOk, PacketsOk, AllHoldsOk, AllPcOk, Disjoint;
    hide BucketOf, FlowMatch, BucketOk, ItemOk, CountOk, PacketOk;
    CoreFacts(s, c);
    var pc := s.cores[c];
    var t := DoPacketStep(s, c, pc);
    FoundIsAttached(s, pc.p, pc.f);
    assert pc.mine.Some? ==> pc.mine.value in Private(pc);
    LockStepKeeps(s, t, c, t.cores[c], pc.b);
  }

  lemma UnlockOtherKeeps(s: State, c: Core)
    requires Inv(s) && c in s.cores && MoveDefined(s, s.cores[c]) && (s.cores[c].Missed? || s.cores[c].Inserted?)
    ensures Inv(DoPacketStep(s, c, s.cores[c]))
  {
    hide BucketsOk, ItemsOk, CountsOk, PacketsOk, AllHoldsOk, AllPcOk, Disjoint;
    hide BucketOf, FlowMatch, BucketOk, ItemOk, CountOk, PacketOk;
    CoreFacts(s, c);
    var pc := s.cores[c];
    var t := DoPacketStep(s, c, pc);
    LockStepKeeps(s, t, c, t.cores[c], pc.b);
  }

  // ---------------------------------------------------------------------------
  // Steps that only change the core's position

  lemma PcStepKeeps(s: State, c: Core, pc: Pc)
    requires Inv(s) && c in s.cores && PcOk(Go(s, c, pc), c)
    requires var was := s.cores[c];
      && BucketHeld(pc) == BucketHeld(was) && ItemsHeld(pc) == ItemsHeld(was) && PacketHeld(pc) == PacketHeld(was)
      && Private(pc) == Private(was) && DeadList(pc) == DeadList(was)
      && !was.Attaching? && !pc.Attaching? && !was.Detaching? && !pc.Detaching?
    ensures Inv(Go(s, c, pc))
  {
    hide PcOk, BucketOk, CountOk, PacketOk, BucketHeld, ItemsHeld, PacketHeld, Private, DeadList, BucketOf, FlowMatch;
    var t := Go(s, c, pc);
    assert HoldsOk(s, c);
    CountsUnchanged(s, t, c, pc);
    PcStepItems(s, c, pc);
    DeltaKeeps(s, t, c, pc, {}, {});
  }

  lemma PcStepItems(s: State, c: Core, pc: Pc)
    requires Inv(s) && c in s.cores && ItemsHeld(pc) == ItemsHeld(s.cores[c])
    ensures ItemsOk(Go(s, c, pc))
  {
    hide PcOk, BucketOk, CountOk, PacketOk, HoldsOk, ItemsHeld;
    forall f | f in s.items ensures ItemOk(Go(s, c, pc), f) {
      assert ItemOk(s, f);
    }
  }

  /** The scan passes an entry that does not match, or reaches the end of the list. */
  lemma ScanOnKeeps(s: State, c: Core)
    requires Inv(s) && c in s.cores && MoveDefined(s, s.cores[c]) && s.cores[c].Scanning?
    requires s.cores[c].pos < |s.buckets[s.cores[c].b].list| ==>
               !FlowMatch(s.items[s.buckets[s.cores[c].b].list[s.cores[c].pos]].key, s.pkts[s.cores[c].p].key)
    ensures Inv(DoScan(s, c, s.cores[c]))
  {
    hide BucketsOk, ItemsOk, CountsOk, PacketsOk, AllHoldsOk, AllPcOk, Disjoint;
    hide BucketOf, FlowMatch, ItemOk, CountOk, PacketOk;
    CoreFacts(s, c);
    var pc := s.cores[c];
    BucketFacts(s, pc.b);
    if pc.pos == |s.buckets[pc.b].list| {
      MissMeansUnattached(s, pc.p, pc.b);
    }
    PcStepKeeps(s, c, DoScan(s, c, pc).cores[c]);
  }

  lemma ReferenceAgainKeeps(s: State, c: Core)
    requires Inv(s) && c in s.cores && MoveDefined(s, s.cores[c]) && s.cores[c].Referencing?
    requires s.pkts[s.cores[c].p].flow == Some(s.cores[c].f)
    ensures Inv(DoPacketStep(s, c, s.cores[c]))
  {
    hide BucketsOk, ItemsOk, CountsOk, PacketsOk, AllHoldsOk, AllPcOk, Disjoint;
    hide BucketOf, FlowMatch, BucketOk, ItemOk, CountOk, PacketOk, HoldsOk;
    CoreFacts(s, c);
    PcStepKeeps(s, c, Releasing(s.cores[c].p, s.cores[c].f));
  }

  lemma AgeStartKeeps(s: State, c: Core)
    requires Inv(s) && c in s.cores && s.cores[c].Idle?
    ensures Inv(Go(s, c, AgeBucket(0, s.clock)))
  {
    hide BucketsOk, ItemsOk, CountsOk, PacketsOk, AllHoldsOk, AllPcOk, Disjoint;
    hide BucketOf, FlowMatch, BucketOk, ItemOk, CountOk, PacketOk, HoldsOk;
    PcStepKeeps(s, c, AgeBucket(0, s.clock));
  }

  lemma AgeNextBucketKeeps(s: State, c: Core)
    requires Inv(s) && c in s.cores && MoveDefined(s, s.cores[c])
    requires (s.cores[c].AgeBucket? && (s.cores[c].b == BUCKET_NUM || s.buckets[s.cores[c].b].lock.Some?)) || (s.cores[c].AgeFree? && s.cores[c].dead == [])
    ensures Inv(DoAgeStep(s, c, s.cores[c]))
  {
    hide BucketsOk, ItemsOk, CountsOk, PacketsOk, AllHoldsOk, AllPcOk, Disjoint;
    hide BucketOf, FlowMatch, BucketOk, ItemOk, PacketOk, CountOk;
    CoreFacts(s, c);
    PcStepKeeps(s, c, if s.cores[c].AgeBucket? && s.cores[c].b == BUCKET_NUM then Idle else AgeBucket(s.cores[c].b + 1, s.cores[c].now));
  }

  lemma CountIsNatural(s: State, f: ItemId)
    requires Inv(s) && f in s.items
    ensures s.items[f].useCnt >= 0
  {
    hide BucketOk, ItemOk, PacketOk, PcOk, HoldsOk;
    assert CountOk(s, f);
  }

  /** The counter read: an item with use_cnt above 0 is kept; otherwise it is exactly 0. */
  lemma AgeTestKeeps(s: State, c: Core)
    requires Inv(s) && c in s.cores && MoveDefined(s, s.cores[c]) && s.cores[c].AgeTest?
    ensures Inv(DoAgeStep(s, c, s.cores[c]))
  {
    hide BucketsOk, ItemsOk, CountsOk, PacketsOk, AllHoldsOk, AllPcOk, Disjoint;
    hide BucketOf, FlowMatch, BucketOk, ItemOk, PacketOk, CountOk;
    CoreFacts(s, c);
    var pc := s.cores[c];
    assert pc.f in ItemsHeld(pc);
    CountIsNatural(s, pc.f);
    PcStepKeeps(s, c, if s.items[pc.f].useCnt > 0 then AgeKeep(pc.b, pc.now, pc.pos, pc.f, pc.dead) else AgeExpire(pc.b, pc.now, pc.pos, pc.f, pc.dead));
  }

  lemma AgeFreshKeeps(s: State, c: Core)
    requires Inv(s) && c in s.cores && MoveDefined(s, s.cores[c]) && s.cores[c].AgeExpire?
    requires !Expired(s.cores[c].now, s.items[s.cores[c].f].cycle, s.timeout)
    ensures Inv(DoAgeStep(s, c, s.cores[c]))
  {
    hide BucketsOk, ItemsOk, CountsOk, PacketsOk, AllHoldsOk, AllPcOk, Disjoint;
    hide BucketOf, FlowMatch, BucketOk, ItemOk, PacketOk, CountOk;
    CoreFacts(s, c);
    var pc := s.cores[c];
    PcStepKeeps(s, c, AgeKeep(pc.b, pc.now, pc.pos, pc.f, pc.dead));
  }

  lemma AgeSkipKeeps(s: State, c: Core)
    requires Inv(s) && c in s.cores && MoveDefined(s, s.cores[c]) && s.cores[c].AgeScan?
    requires s.cores[c].pos < |s.buckets[s.cores[c].b].list|
    requires s.items[s.buckets[s.cores[c].b].list[s.cores[c].pos]].lock.Some?
    ensures Inv(DoAgeStep(s, c, s.cores[c]))
  {
    hide BucketsOk, ItemsOk, CountsOk, PacketsOk, AllHoldsOk, AllPcOk, Disjoint;
    hide BucketOf, FlowMatch, BucketOk, ItemOk, PacketOk, CountOk;
    CoreFacts(s, c);
    var pc := s.cores[c];
    PcStepKeeps(s, c, AgeScan(pc.b, pc.now, pc.pos + 1, pc.dead));
  }

  lemma AgeLockBucketKeeps(s: State, c: Core)
    requires Inv(s) && c in s.cores && s.cores[c].AgeBucket? && s.cores[c].b < BUCKET_NUM
    requires s.buckets[s.cores[c].b].lock.None?
    ensures MoveDefined(s, s.cores[c]) && Inv(DoAgeStep(s, c, s.cores[c]))
  {
    hide BucketsOk, ItemsOk, CountsOk, PacketsOk, AllHoldsOk, AllPcOk, Disjoint;
    hide BucketOf, FlowMatch, BucketOk, ItemOk, CountOk, PacketOk, HoldsOk;
    var pc := s.cores[c];
    var t := DoAgeStep(s, c, pc);
    LockStepKeeps(s, t, c, AgeScan(pc.b, pc.now, 0, []), pc.b);
  }

  lemma AgeUnlockBucketKeeps(s: State, c: Core)
    requires Inv(s) && c in s.cores && s.cores[c].AgeScan? && MoveDefined(s, s.cores[c])
    requires s.cores[c].pos == |s.buckets[s.cores[c].b].list|
    ensures Inv(DoAgeStep(s, c, s.cores[c]))
  {
    hide BucketsOk, ItemsOk, CountsOk, PacketsOk, AllHoldsOk, AllPcOk, Disjoint;
    hide BucketOf, FlowMatch, BucketOk, ItemOk, CountOk, PacketOk;
    CoreFacts(s, c);
    var pc := s.cores[c];
    LockStepKeeps(s, DoAgeStep(s, c, pc), c, AgeFree(pc.b, pc.now, pc.dead), pc.b);
  }

  // ---------------------------------------------------------------------------
  // Item lock steps

  lemma ItemLockKeeps(s: State, c: Core, pc: Pc, f: ItemId, l: Option<Core>)
    requires Inv(s) && c in s.cores && f in s.items && PcOk(Go(SetItemLock(s, f, l), c, pc), c)
    requires (s.items[f].lock == None || s.items[f].lock == Some(c)) && (l == None || l == Some(c))
    requires f in Private(s.cores[c]) || Listed(s, f)
    requires var was := s.cores[c];
      && (l == Some(c) <==> f in ItemsHeld(pc)) && ItemsHeld(pc) - {f} == ItemsHeld(was) - {f}
      && BucketHeld(pc) == BucketHeld(was) && PacketHeld(pc) == PacketHeld(was) && Private(pc) == Private(was)
      && (forall g :: g in DeadList(pc) && g != f ==> g in DeadList(was))
      && (f in DeadList(pc) ==> l == None)
      && (forall i, j :: 0 <= i < j < |DeadList(pc)| ==> DeadList(pc)[i] != DeadList(pc)[j])
      && !was.Attaching? && !pc.Attaching? && !was.Detaching? && !pc.Detaching?
    ensures Inv(Go(SetItemLock(s, f, l), c, pc))
  {
    hide BucketsOk, ItemsOk, CountsOk, PacketsOk, AllHoldsOk, AllPcOk, Disjoint, HoldsOk, Away;
    hide PcOk, BucketOk, CountOk, PacketOk, BucketHeld, ItemsHeld, PacketHeld, Private, DeadList, BucketOf, FlowMatch;
    var t := Go(SetItemLock(s, f, l), c, pc);
    ItemLockHolds(s, c, pc, f, l);
    assert forall g :: g in t.items ==> Pointing(t, g) == Pointing(s, g);
    CountsUnchanged(s, t, c, pc) by { CountsPart(s); }
    ItemLockItems(s, c, pc, f, l);
    forall e | e in s.cores && e != c ensures Away(s, t, s.cores[e], {f}, {}) && Private(s.cores[e]) !! Private(pc) {
      PrivateFacts(s, c, e);
      ItemLockIsAway(s, c, t, e, f, l);
    }
    DeltaKeeps(s, t, c, pc, {f}, {});
  }

  lemma ItemLockIsAway(s: State, c: Core, t: State, e: Core, f: ItemId, l: Option<Core>)
    requires Inv(s) && c in s.cores && e in s.cores && e != c && f in s.items && t.items == SetItemLock(s, f, l).items
    requires s.items[f].lock == None || s.items[f].lock == Some(c)
    requires f in Private(s.cores[c]) || Listed(s, f)
    ensures Away(s, t, s.cores[e], {f}, {})
  {
    hide BucketsOk, ItemsOk, CountsOk, PacketsOk, AllHoldsOk, AllPcOk, Disjoint;
    hide BucketOf, FlowMatch, BucketOk, ItemOk, CountOk, PacketOk;
    hide PcOk, ItemsHeld, Private, PacketHeld, BucketHeld;
    CoreFacts(s, e);
    PrivateFacts(s, c, e);
    assert f in Private(s.cores[e]) ==> Unlisted(s, f);
  }

  lemma ItemLockHolds(s: State, c: Core, pc: Pc, f: ItemId, l: Option<Core>)
    requires Inv(s) && c in s.cores && f in s.items && (l == None || l == Some(c))
    requires var was := s.cores[c];
      && (l == Some(c) <==> f in ItemsHeld(pc)) && ItemsHeld(pc) - {f} == ItemsHeld(was) - {f}
      && BucketHeld(pc) == BucketHeld(was) && PacketHeld(pc) == PacketHeld(was) && Private(pc) == Private(was)
      && (forall g :: g in DeadList(pc) && g != f ==> g in DeadList(was))
      && (f in DeadList(pc) ==> l == None)
      && (forall i, j :: 0 <= i < j < |DeadList(pc)| ==> DeadList(pc)[i] != DeadList(pc)[j])
      && !was.Detaching? && !pc.Detaching?
    ensures HoldsOk(Go(SetItemLock(s, f, l), c, pc), c)
  {
    hide PcOk, BucketOk, CountOk, PacketOk, ItemOk, BucketHeld, ItemsHeld, PacketHeld, Private, DeadList, BucketOf, FlowMatch;
    var t := Go(SetItemLock(s, f, l), c, pc);
    assert HoldsOk(s, c);
    forall g | g in ItemsHeld(pc) ensures g in t.items && t.items[g].lock == Some(c) {
      if g != f {
        assert g in ItemsHeld(pc) - {f};
        assert g in ItemsHeld(s.cores[c]);
      }
    }
    forall g | g in DeadList(pc) ensures g in t.items && t.items[g].lock.None? {}
    forall g | g in Private(pc) ensures g in t.items && t.items[g].useCnt == 0 && Unlisted(t, g) {
      assert Unlisted(s, g);
    }
  }

  lemma ItemLockItems(s: State, c: Core, pc: Pc, f: ItemId, l: Option<Core>)
    requires Inv(s) && c in s.cores && f in s.items && (l == None || l == Some(c))
    requires (l == Some(c) <==> f in ItemsHeld(pc)) && ItemsHeld(pc) - {f} == ItemsHeld(s.cores[c]) - {f}
    ensures ItemsOk(Go(SetItemLock(s, f, l), c, pc))
  {
    hide PcOk, BucketOk, CountOk, PacketOk, HoldsOk, ItemsHeld;
    var t := Go(SetItemLock(s, f, l), c, pc);
    forall g | g in t.items ensures ItemOk(t, g) {
      assert ItemOk(s, g);
      assert g != f ==> (g in ItemsHeld(pc) <==> g in ItemsHeld(pc) - {f});
      assert g != f ==> (g in ItemsHeld(s.cores[c]) <==> g in ItemsHeld(s.cores[c]) - {f});
    }
  }

  lemma LockItemKeeps(s: State, c: Core)
    requires Inv(s) && c in s.cores && s.cores[c].Found? && CanMove(s, s.cores[c]) && MoveDefined(s, s.cores[c])
    ensures Inv(DoPacketStep(s, c, s.cores[c]))
  {
    hide BucketsOk, ItemsOk, CountsOk, PacketsOk, AllHoldsOk, AllPcOk, Disjoint;
    hide BucketOf, FlowMatch, BucketOk, ItemOk, PacketOk, CountOk;
    CoreFacts(s, c);
    var pc := s.cores[c];
    assert pc.mine.Some? ==> pc.mine.value in Private(pc);
    ItemLockKeeps(s, c, Locked(pc.p, pc.b, pc.f, pc.mine), pc.f, Some(c));
  }

  lemma AgeLockItemKeeps(s: State, c: Core)
    requires Inv(s) && c in s.cores && MoveDefined(s, s.cores[c]) && s.cores[c].AgeScan?
    requires s.cores[c].pos < |s.buckets[s.cores[c].b].list|
    requires s.items[s.buckets[s.cores[c].b].list[s.cores[c].pos]].lock.None?
    ensures Inv(DoAgeStep(s, c, s.cores[c]))
  {
    hide BucketsOk, ItemsOk, CountsOk, PacketsOk, AllHoldsOk, AllPcOk, Disjoint;
    hide BucketOf, FlowMatch, ItemOk, PacketOk, CountOk;
    CoreFacts(s, c);
    var pc := s.cores[c];
    BucketFacts(s, pc.b);
    var f := s.buckets[pc.b].list[pc.pos];
    DeadIsPrivate(pc);
    ItemLockKeeps(s, c, AgeTest(pc.b, pc.now, pc.pos, f, pc.dead), f, Some(c));
  }

  lemma AgeKeepKeeps(s: State, c: Core)
    requires Inv(s) && c in s.cores && MoveDefined(s, s.cores[c]) && s.cores[c].AgeKeep?
    ensures Inv(DoAgeStep(s, c, s.cores[c]))
  {
    hide BucketsOk, ItemsOk, CountsOk, PacketsOk, AllHoldsOk, AllPcOk, Disjoint;
    hide BucketOf, FlowMatch, ItemOk, PacketOk, CountOk;
    CoreFacts(s, c);
    var pc := s.cores[c];
    assert pc.f in ItemsHeld(pc);
    BucketFacts(s, pc.b);
    DeadIsPrivate(pc);
    ItemLockKeeps(s, c, AgeScan(pc.b, pc.now, pc.pos + 1, pc.dead), pc.f, None);
  }

  lemma AgeUnlinkedKeeps(s: State, c: Core)
    requires Inv(s) && c in s.cores && MoveDefined(s, s.cores[c]) && s.cores[c].AgeUnlinked?
    ensures Inv(DoAgeStep(s, c, s.cores[c]))
  {
    hide BucketsOk, ItemsOk, CountsOk, PacketsOk, AllHoldsOk, AllPcOk, Disjoint;
    hide BucketOf, FlowMatch, ItemOk, PacketOk, CountOk, BucketOk;
    CoreFacts(s, c);
    var pc := s.cores[c];
    assert pc.f in ItemsHeld(pc) && pc.f in Private(pc);
    ItemLockKeeps(s, c, AgeScan(pc.b, pc.now, pc.pos, [pc.f] + pc.dead), pc.f, None);
  }

  lemma DeadIsPrivate(pc: Pc)
    ensures forall f :: f in DeadList(pc) ==> f in Private(pc)
  {
  }

  // ---------------------------------------------------------------------------
  // List changes, made only under the bucket's lock

  /** Steps that replace bucket b's list while core c holds its lock. */
  ghost predicate ListStep(s: State, t: State, c: Core, pc: Pc, b: nat, list: seq<ItemId>)
    requires c in s.cores && b < |s.buckets|
  {
    && t == Go(SetList(s, b, list), c, pc) && s.buckets[b].lock == Some(c)
    && BucketHeld(pc) == Some(b) == BucketHeld(s.cores[c])
    && ItemsHeld(pc) == ItemsHeld(s.cores[c]) && PacketHeld(pc) == PacketHeld(s.cores[c])
    && !s.cores[c].Attaching? && !pc.Attaching? && !s.cores[c].Detaching? && !pc.Detaching?
  }

  lemma ListStepKeeps(s: State, t: State, c: Core, pc: Pc, b: nat, list: seq<ItemId>)
    requires Inv(s) && c in s.cores && b < BUCKET_NUM && ListStep(s, t, c, pc, b, list)
    requires BucketOk(t, b) && HoldsOk(t, c) && PcOk(t, c)
    requires forall e :: e in s.cores && e != c ==> Private(s.cores[e]) !! Private(pc)
    requires forall e, f :: e in s.cores && e != c && f in Private(s.cores[e]) ==> f !in list
    requires forall e, f :: e in s.cores && e != c && f in LookedUp(s.cores[e]) && f in s.buckets[b].list ==> f in list
    requires forall p :: p in s.pkts && s.pkts[p].live && s.pkts[p].flow.Some? && s.pkts[p].flow.value in s.buckets[b].list ==> s.pkts[p].flow.value in list
    ensures Inv(t)
  {
    hide BucketsOk, ItemsOk, CountsOk, PacketsOk, AllHoldsOk, AllPcOk, Disjoint;
    hide BucketOf, FlowMatch, BucketOk, ItemOk, CountOk, PacketOk;
    hide PcOk, HoldsOk, Private, ItemsHeld, PacketHeld, LookedUp, BucketHeld;
    ListStepRely(s, t, c, pc, b, list);
    ListStepRest(s, t, c, pc, b, list);
    CountsUnchanged(s, t, c, pc);
    Compose(s, t, c);
  }

  lemma ListStepRely(s: State, t: State, c: Core, pc: Pc, b: nat, list: seq<ItemId>)
    requires Inv(s) && c in s.cores && b < BUCKET_NUM && ListStep(s, t, c, pc, b, list)
    requires forall e, f :: e in s.cores && e != c && f in Private(s.cores[e]) ==> f !in list
    requires forall e, f :: e in s.cores && e != c && f in LookedUp(s.cores[e]) && f in s.buckets[b].list ==> f in list
    ensures OnlyMoved(s, t, c)
  {
    hide BucketsOk, ItemsOk, CountsOk, PacketsOk, AllHoldsOk, AllPcOk, Disjoint;
    hide BucketOf, FlowMatch, BucketOk, ItemOk, CountOk, PacketOk;
    hide Private, ItemsHeld, PacketHeld, LookedUp, BucketHeld, DeadList;
    forall e | e in s.cores && e != c ensures Rely(s, t, e) {
      CoreFacts(s, e);
      LookedUpAreListed(s, e);
      ExpireHoldsItem(s.cores[e]);
      hide PcOk;
      if BucketHeld(s.cores[e]).Some? {
        BucketFacts(s, BucketHeld(s.cores[e]).value);
        ListEntriesAllocated(s, BucketHeld(s.cores[e]).value);
      }
    }
  }

  lemma ListEntriesAllocated(s: State, b: nat)
    requires b < |s.buckets| && BucketOk(s, b)
    ensures forall f :: f in s.buckets[b].list ==> f in s.items && BucketOf(s.items[f].key) == b
  {
    hide BucketOf, FlowMatch;
  }

  lemma ListStepRest(s: State, t: State, c: Core, pc: Pc, b: nat, list: seq<ItemId>)
    requires Inv(s) && c in s.cores && b < BUCKET_NUM && ListStep(s, t, c, pc, b, list) && BucketOk(t, b)
    requires forall e :: e in s.cores && e != c ==> Private(s.cores[e]) !! Private(pc)
    requires forall p :: p in s.pkts && s.pkts[p].live && s.pkts[p].flow.Some? && s.pkts[p].flow.value in s.buckets[b].list ==> s.pkts[p].flow.value in list
    ensures BucketsOk(t) && ItemsOk(t) && PacketsOk(t) && Disjoint(t)
  {
    hide BucketOf, FlowMatch, CountOk, HoldsOk, PcOk, Private, ItemsHeld, PacketHeld, BucketHeld;
    forall a | 0 <= a < BUCKET_NUM ensures BucketOk(t, a) {
      assert BucketOk(s, a);
    }
    forall f | f in t.items ensures ItemOk(t, f) {
      assert ItemOk(s, f);
    }
    forall p | p in t.pkts ensures PacketOk(t, p) {
      assert PacketOk(s, p);
    }
  }

  /** FlowInsert: the new item goes to the head of a list with no match. */
  lemma InsertKeeps(s: State, c: Core)
    requires Inv(s) && c in s.cores && s.cores[c].Inserting? && MoveDefined(s, s.cores[c])
    ensures Inv(DoPacketStep(s, c, s.cores[c]))
  {
    hide BucketsOk, ItemsOk, CountsOk, PacketsOk, AllHoldsOk, AllPcOk, Disjoint;
    hide BucketOf, FlowMatch, BucketOk, ItemOk, CountOk, PacketOk;
    CoreFacts(s, c);
    var pc := s.cores[c];
    var b, f := pc.b, pc.f;
    var list := [f] + s.buckets[b].list;
    var t := DoPacketStep(s, c, pc);
    assert f in Private(pc);
    InsertBucket(s, t, c, pc);
    MatchIsEquivalence(s.items[f].key, s.items[f].key, s.items[f].key);
    forall e, g | e in s.cores && e != c && g in Private(s.cores[e]) ensures g !in list {
      CoreFacts(s, e);
      PrivateFacts(s, c, e);
      assert Unlisted(s, g);
    }
    ListStepKeeps(s, t, c, Inserted(pc.p, b, f), b, list);
  }

  lemma InsertBucket(s: State, t: State, c: Core, pc: Pc)
    requires Inv(s) && c in s.cores && pc == s.cores[c] && pc.Inserting? && HoldsOk(s, c) && PcOk(s, c)
    requires MoveDefined(s, pc) && t == DoPacketStep(s, c, pc)
    ensures pc.b < BUCKET_NUM && BucketOk(t, pc.b)
  {
    hide ItemsOk, CountsOk, PacketsOk, AllHoldsOk, AllPcOk, Disjoint;
    hide BucketOf, FlowMatch, ItemOk, CountOk, PacketOk;
    assert BucketOk(s, pc.b);
    var was, list := s.buckets[pc.b].list, t.buckets[pc.b].list;
    forall i, j | 0 <= i < j < |list| ensures !FlowMatch(t.items[list[i]].key, t.items[list[j]].key) {
      assert list[j] == was[j - 1];
      if i == 0 {
        MatchIsEquivalence(t.items[list[0]].key, t.items[list[j]].key, t.items[list[0]].key);
      } else {
        assert list[i] == was[i - 1];
      }
    }
  }

  /** An item with use_cnt 0 has no live packet pointing at it and no core about to attach one. */
  lemma UnusedIsUnreferenced(s: State, f: ItemId)
    requires Inv(s) && f in s.items && s.items[f].useCnt == 0
    ensures forall p :: p in s.pkts && s.pkts[p].live ==> s.pkts[p].flow != Some(f)
    ensures forall c :: c in s.cores && s.cores[c].Attaching? ==> s.cores[c].f != f
  {
    hide BucketsOk, ItemsOk, PacketsOk, AllHoldsOk, AllPcOk, Disjoint;
    assert CountOk(s, f);
    assert Pointing(s, f) == {} && MidAttach(s, f) == {};
    forall p | p in s.pkts && s.pkts[p].live ensures s.pkts[p].flow != Some(f) {
      assert p !in Pointing(s, f);
    }
    forall c | c in s.cores && s.cores[c].Attaching? ensures s.cores[c].f != f {
      assert c !in MidAttach(s, f);
    }
  }

  /** No other core is using an item this core has locked inside the bucket it has locked. */
  lemma LockedItemIsMine(s: State, c: Core, e: Core, f: ItemId)
    requires Inv(s) && c in s.cores && e in s.cores && e != c && f in s.items
    requires s.items[f].lock == Some(c) && s.buckets[BucketOf(s.items[f].key)].lock == Some(c)
    ensures f !in LookedUp(s.cores[e])
  {
    hide BucketsOk, ItemsOk, CountsOk, PacketsOk, AllHoldsOk, AllPcOk, Disjoint;
    hide BucketOf, FlowMatch, BucketOk, ItemOk, CountOk, PacketOk;
    CoreFacts(s, e);
    var pc := s.cores[e];
    if pc.Found? && pc.f == f {
      MatchIsBidirectional(s.items[f].key, s.pkts[pc.p].key);
    }
    assert forall g :: g in LookedUp(pc) && !pc.Found? ==> g in ItemsHeld(pc);
  }

  /** hlist_del in the ageing loop: only a locked, unused, unreferenced item leaves its list. */
  lemma UnlinkKeeps(s: State, c: Core)
    requires Inv(s) && c in s.cores && s.cores[c].AgeExpire? && MoveDefined(s, s.cores[c])
    requires Expired(s.cores[c].now, s.items[s.cores[c].f].cycle, s.timeout)
    ensures Inv(DoAgeStep(s, c, s.cores[c]))
  {
    hide BucketsOk, ItemsOk, CountsOk, PacketsOk, AllHoldsOk, AllPcOk, Disjoint;
    hide BucketOf, FlowMatch, BucketOk, ItemOk, CountOk, PacketOk;
    CoreFacts(s, c);
    var pc := s.cores[c];
    var b, f := pc.b, pc.f;
    var was := s.buckets[b].list;
    var list := was[..pc.pos] + was[pc.pos + 1..];
    var t := DoAgeStep(s, c, pc);
    assert f in ItemsHeld(pc);
    BucketFacts(s, b);
    ListEntriesAllocated(s, b);
    UnlinkBucket(s, t, c, pc);
    UnlinkHolds(s, t, c, pc);
    UnusedIsUnreferenced(s, f);
    assert Private(AgeUnlinked(b, pc.now, pc.pos, f, pc.dead)) == {f} + Private(pc);
    RemovedEntry(was, pc.pos, list);
    assert f in was;
    forall e | e in s.cores && e != c ensures Private(s.cores[e]) !! Private(AgeUnlinked(b, pc.now, pc.pos, f, pc.dead)) {
      PrivateFacts(s, c, e);
      PrivateIsOffList(s, e, b);
    }
    forall e, g | e in s.cores && e != c && g in Private(s.cores[e]) ensures g !in list {
      PrivateIsOffList(s, e, b);
    }
    forall e, g | e in s.cores && e != c && g in LookedUp(s.cores[e]) && g in was ensures g in list {
      LockedItemIsMine(s, c, e, f);
    }
    ListStepKeeps(s, t, c, AgeUnlinked(b, pc.now, pc.pos, f, pc.dead), b, list);
  }

  lemma PrivateIsOffList(s: State, e: Core, b: nat)
    requires Inv(s) && e in s.cores && b < |s.buckets|
    ensures forall g :: g in Private(s.cores[e]) ==> g !in s.buckets[b].list
  {
    hide BucketsOk, ItemsOk, CountsOk, PacketsOk, AllHoldsOk, AllPcOk, Disjoint;
    hide BucketOf, FlowMatch, BucketOk, ItemOk, CountOk, PacketOk;
    hide PcOk, Private;
    CoreFacts(s, e);
    forall g | g in Private(s.cores[e]) ensures g !in s.buckets[b].list {
      assert Unlisted(s, g);
    }
  }

  /** Items of one bucket's list are distinct, since no two match each other. */
  lemma ListEntriesDistinct(s: State, b: nat, i: nat, j: nat)
    requires b < |s.buckets| && BucketOk(s, b) && i < j < |s.buckets[b].list|
    ensures s.buckets[b].list[i] != s.buckets[b].list[j]
  {
    hide BucketOf, FlowMatch;
    var k := s.items[s.buckets[b].list[i]].key;
    MatchIsEquivalence(k, k, k);
  }

  lemma UnlinkBucket(s: State, t: State, c: Core, pc: Pc)
    requires Inv(s) && c in s.cores && pc == s.cores[c] && pc.AgeExpire? && HoldsOk(s, c) && PcOk(s, c)
    requires MoveDefined(s, pc) && Expired(pc.now, s.items[pc.f].cycle, s.timeout) && t == DoAgeStep(s, c, pc)
    ensures pc.b < BUCKET_NUM && BucketOk(t, pc.b)
    ensures pc.f !in t.buckets[pc.b].list
    ensures forall g :: g in s.buckets[pc.b].list && g != pc.f ==> g in t.buckets[pc.b].list
  {
    hide ItemsOk, CountsOk, PacketsOk, AllHoldsOk, AllPcOk, Disjoint;
    hide BucketOf, FlowMatch, ItemOk, CountOk, PacketOk;
    assert BucketOk(s, pc.b);
    var was, list := s.buckets[pc.b].list, t.buckets[pc.b].list;
    RemovedEntry(was, pc.pos, list);
    forall i | 0 <= i < |list| ensures list[i] != pc.f {
      if i < pc.pos {
        ListEntriesDistinct(s, pc.b, i, pc.pos);
      } else {
        ListEntriesDistinct(s, pc.b, pc.pos, i + 1);
      }
    }
  }

  lemma RemovedEntry(was: seq<ItemId>, pos: nat, list: seq<ItemId>)
    requires pos < |was| && list == was[..pos] + was[pos + 1..]
    ensures forall i :: 0 <= i < |list| ==> list[i] == was[if i < pos then i else i + 1]
    ensures forall g :: g in was && g != was[pos] ==> g in list
    ensures forall g :: g in list ==> g in was
  {
    assert was == was[..pos] + [was[pos]] + was[pos + 1..];
  }

  lemma UnlinkHolds(s: State, t: State, c: Core, pc: Pc)
    requires Inv(s) && c in s.cores && pc == s.cores[c] && pc.AgeExpire? && HoldsOk(s, c) && PcOk(s, c)
    requires MoveDefined(s, pc) && Expired(pc.now, s.items[pc.f].cycle, s.timeout) && t == DoAgeStep(s, c, pc)
    ensures pc.f in s.items && pc.b < BUCKET_NUM && HoldsOk(t, c) && PcOk(t, c)
  {
    hide BucketsOk, ItemsOk, CountsOk, PacketsOk, AllHoldsOk, AllPcOk, Disjoint;
    hide BucketOf, FlowMatch, BucketOk, ItemOk, CountOk, PacketOk;
    BucketFacts(s, pc.b);
    ListEntriesAllocated(s, pc.b);
    UnlinkBucket(s, t, c, pc);
    DeadIsPrivate(pc);
    assert pc.f in ItemsHeld(pc);
    assert Private(t.cores[c]) == {pc.f} + Private(pc);
    assert forall x :: x in t.buckets[pc.b].list ==> x in s.buckets[pc.b].list;
    forall a | 0 <= a < BUCKET_NUM ensures pc.f !in t.buckets[a].list {
      BucketFacts(s, a);
      ListEntriesAllocated(s, a);
    }
    forall g | g in Private(pc) ensures Unlisted(t, g) {
      assert Unlisted(s, g);
    }
  }

  // ---------------------------------------------------------------------------
  // Item contents, allocation and freeing

  lemma ItemsUnchangedLocks(s: State, t: State, c: Core, pc: Pc)
    requires Inv(s) && c in s.cores && t.cores == s.cores[c := pc]
    requires forall g :: g in t.items && g in s.items ==> t.items[g].lock == s.items[g].lock
    requires forall g :: g in t.items && g !in s.items ==> t.items[g].lock == Some(c) && g in ItemsHeld(pc)
    requires forall g :: g in t.items && g in ItemsHeld(s.cores[c]) ==> g in ItemsHeld(pc)
    ensures ItemsOk(t)
  {
    hide BucketsOk, CountsOk, PacketsOk, AllHoldsOk, AllPcOk, Disjoint, ItemsHeld;
    forall g | g in t.items ensures ItemOk(t, g) {
      assert g in s.items ==> ItemOk(s, g);
    }
  }

  /** A touched item that is listed, keeps its lock and keeps its counter is private to no core. */
  lemma ListedIsAway(s: State, t: State, e: Core, f: ItemId, b: nat)
    requires Inv(s) && e in s.cores && f in s.items && f in t.items && b < BUCKET_NUM && f in s.buckets[b].list
    requires t.items[f].lock == s.items[f].lock && t.items[f].useCnt == s.items[f].useCnt
    ensures Away(s, t, s.cores[e], {f}, {})
  {
    hide BucketsOk, ItemsOk, CountsOk, PacketsOk, AllHoldsOk, AllPcOk, Disjoint;
    hide BucketOf, FlowMatch, BucketOk, ItemOk, CountOk, PacketOk, PcOk, Private, ItemsHeld, PacketHeld;
    CoreFacts(s, e);
    assert f in Private(s.cores[e]) ==> Unlisted(s, f);
  }

  /** FlowFind reaches a match and stamps it. */
  lemma ScanHitKeeps(s: State, c: Core)
    requires Inv(s) && c in s.cores && MoveDefined(s, s.cores[c]) && s.cores[c].Scanning?
    requires s.cores[c].pos < |s.buckets[s.cores[c].b].list|
    requires FlowMatch(s.items[s.buckets[s.cores[c].b].list[s.cores[c].pos]].key, s.pkts[s.cores[c].p].key)
    ensures Inv(DoScan(s, c, s.cores[c]))
  {
    hide BucketsOk, ItemsOk, CountsOk, PacketsOk, AllHoldsOk, AllPcOk, Disjoint;
    hide BucketOf, FlowMatch, BucketOk, ItemOk, CountOk, PacketOk, PcOk, HoldsOk, Away;
    CoreFacts(s, c);
    TableSize(s);
    ScanHitCore(s, c);
    var pc := s.cores[c];
    var t := DoScan(s, c, pc);
    var f := s.buckets[pc.b].list[pc.pos];
    CountsUnchanged(s, t, c, t.cores[c]);
    ItemsUnchangedLocks(s, t, c, t.cores[c]);
    forall e | e in s.cores && e != c
      ensures Away(s, t, s.cores[e], {f}, {}) && Private(s.cores[e]) !! Private(t.cores[c])
    {
      ListedIsAway(s, t, e, f, pc.b);
      PrivateFacts(s, c, e);
    }
    DeltaKeeps(s, t, c, t.cores[c], {f}, {});
  }

  lemma ScanHitCore(s: State, c: Core)
    requires Inv(s) && c in s.cores && MoveDefined(s, s.cores[c]) && s.cores[c].Scanning?
    requires s.cores[c].pos < |s.buckets[s.cores[c].b].list|
    requires FlowMatch(s.items[s.buckets[s.cores[c].b].list[s.cores[c].pos]].key, s.pkts[s.cores[c].p].key)
    ensures var t := DoScan(s, c, s.cores[c]); |t.buckets| == BUCKET_NUM && c in t.cores && HoldsOk(t, c) && PcOk(t, c)
  {
    hide BucketsOk, ItemsOk, CountsOk, PacketsOk, AllHoldsOk, AllPcOk, Disjoint;
    hide BucketOf, FlowMatch, BucketOk, ItemOk, CountOk, PacketOk;
    CoreFacts(s, c);
    var pc := s.cores[c];
    var f := s.buckets[pc.b].list[pc.pos];
    BucketFacts(s, pc.b);
    ListEntriesAllocated(s, pc.b);
    assert f in s.buckets[pc.b].list;
    assert f in Private(pc) ==> Unlisted(s, f);
  }

  /** Freeing an unlisted item nobody else knows. */
  lemma FreeKeeps(s: State, c: Core, pc: Pc, f: ItemId)
    requires Inv(s) && c in s.cores && f in Private(s.cores[c]) && PcOk(Go(FreeItem(s, f), c, pc), c)
    requires f in s.items && (s.items[f].lock == None || s.items[f].lock == Some(c))
    requires var was := s.cores[c];
      && BucketHeld(pc) == BucketHeld(was) && PacketHeld(pc) == PacketHeld(was)
      && ItemsHeld(pc) == ItemsHeld(was) - {f} && Private(pc) == Private(was) - {f}
      && (forall g :: g in DeadList(pc) ==> g in DeadList(was) && g != f)
      && (forall i, j :: 0 <= i < j < |DeadList(pc)| ==> DeadList(pc)[i] != DeadList(pc)[j])
      && !was.Attaching? && !pc.Attaching? && !was.Detaching? && !pc.Detaching?
    ensures Inv(Go(FreeItem(s, f), c, pc))
  {
    hide BucketsOk, ItemsOk, CountsOk, PacketsOk, AllHoldsOk, AllPcOk, Disjoint;
    hide BucketOf, FlowMatch, BucketOk, ItemOk, CountOk, PacketOk;
    hide ItemsHeld, Private, DeadList, PacketHeld, BucketHeld, PcOk;
    hide HoldsOk;
    var t := Go(FreeItem(s, f), c, pc);
    TableSize(s);
    assert forall g :: g in t.items ==> Pointing(t, g) == Pointing(s, g);
    CountsUnchanged(s, t, c, pc) by { CountsPart(s); }
    ItemsUnchangedLocks(s, t, c, pc);
    FreeHolds(s, c, pc, f);
    forall e | e in s.cores && e != c
      ensures Away(s, t, s.cores[e], {f}, {}) && Private(s.cores[e]) !! Private(pc)
    {
      PrivateFacts(s, c, e);
      PrivateIsNotHeld(s, c, e, f);
    }
    DeltaKeeps(s, t, c, pc, {f}, {});
  }

  lemma FreeHolds(s: State, c: Core, pc: Pc, f: ItemId)
    requires Inv(s) && c in s.cores && f in Private(s.cores[c])
    requires var was := s.cores[c];
      && BucketHeld(pc) == BucketHeld(was) && PacketHeld(pc) == PacketHeld(was)
      && ItemsHeld(pc) == ItemsHeld(was) - {f} && Private(pc) == Private(was) - {f}
      && (forall g :: g in DeadList(pc) ==> g in DeadList(was) && g != f)
      && (forall i, j :: 0 <= i < j < |DeadList(pc)| ==> DeadList(pc)[i] != DeadList(pc)[j])
      && !was.Detaching? && !pc.Detaching?
    ensures HoldsOk(Go(FreeItem(s, f), c, pc), c) && Unlisted(s, f)
  {
    hide BucketsOk, ItemsOk, CountsOk, PacketsOk, AllHoldsOk, AllPcOk, Disjoint;
    hide BucketOf, FlowMatch, BucketOk, ItemOk, CountOk, PacketOk;
    hide ItemsHeld, Private, DeadList, PacketHeld, BucketHeld, PcOk;
    CoreFacts(s, c);
    var t := Go(FreeItem(s, f), c, pc);
    forall g | g in Private(pc) ensures g in t.items && t.items[g].useCnt == 0 && Unlisted(t, g) {
      assert g in Private(s.cores[c]) && g != f;
      assert Unlisted(s, g);
    }
    forall g | g in ItemsHeld(pc) ensures g in t.items && t.items[g].lock == Some(c) {
      assert g in ItemsHeld(s.cores[c]) && g != f;
    }
  }

  lemma PrivateIsNotHeld(s: State, c: Core, e: Core, f: ItemId)
    requires Inv(s) && c in s.cores && e in s.cores && e != c && f in s.items
    requires s.items[f].lock == None || s.items[f].lock == Some(c)
    ensures f !in ItemsHeld(s.cores[e])
  {
    hide BucketsOk, ItemsOk, CountsOk, PacketsOk, AllHoldsOk, AllPcOk, Disjoint;
    hide BucketOf, FlowMatch, BucketOk, ItemOk, CountOk, PacketOk;
    hide PcOk, ItemsHeld, Private;
    CoreFacts(s, e);
  }

  /** FlowAdd lost the race: its own item is freed and the existing one kept. */
  lemma DiscardKeeps(s: State, c: Core)
    requires Inv(s) && c in s.cores && s.cores[c].Discarding? && MoveDefined(s, s.cores[c])
    ensures Inv(DoPacketStep(s, c, s.cores[c]))
  {
    hide BucketsOk, ItemsOk, CountsOk, PacketsOk, AllHoldsOk, AllPcOk, Disjoint;
    hide BucketOf, FlowMatch, BucketOk, ItemOk, CountOk, PacketOk;
    CoreFacts(s, c);
    var pc := s.cores[c];
    assert pc.extra in Private(pc) && pc.extra in ItemsHeld(pc);
    FreeKeeps(s, c, Referencing(pc.p, pc.f), pc.extra);
  }

  lemma AgeFreeKeeps(s: State, c: Core)
    requires Inv(s) && c in s.cores && s.cores[c].AgeFree? && s.cores[c].dead != [] && MoveDefined(s, s.cores[c])
    ensures Inv(DoAgeStep(s, c, s.cores[c]))
  {
    hide BucketsOk, ItemsOk, CountsOk, PacketsOk, AllHoldsOk, AllPcOk, Disjoint;
    hide BucketOf, FlowMatch, BucketOk, ItemOk, CountOk, PacketOk;
    CoreFacts(s, c);
    var pc := s.cores[c];
    var f := pc.dead[0];
    assert f in Private(pc) && f in DeadList(pc);
    assert SeqSet(pc.dead[1..]) == SeqSet(pc.dead) - {f} by {
      assert pc.dead == [f] + pc.dead[1..];
      forall g | g in pc.dead[1..] ensures g != f {
        var i :| 0 <= i < |pc.dead[1..]| && pc.dead[1..][i] == g;
        assert pc.dead[i + 1] == g;
      }
    }
    assert ItemsHeld(pc) == {};
    assert forall g :: g in pc.dead[1..] ==> g in SeqSet(pc.dead[1..]);
    FreeKeeps(s, c, AgeFree(pc.b, pc.now, pc.dead[1..]), f);
  }

  /** flow_item_alloc and initialisation: a fresh item, locked, known to this core only. */
  lemma AllocKeeps(s: State, c: Core, f: ItemId)
    requires Inv(s) && Enabled(s, c, Alloc(f))
    ensures Inv(Do(s, c, Alloc(f)))
  {
    hide BucketsOk, ItemsOk, CountsOk, PacketsOk, AllHoldsOk, AllPcOk, Disjoint;
    hide BucketOf, FlowMatch, BucketOk, ItemOk, CountOk, PacketOk;
    hide PcOk, HoldsOk;
    var t := Do(s, c, Alloc(f));
    AllocCounts(s, c, f);
    AllocCore(s, c, f);
    ItemsUnchangedLocks(s, t, c, t.cores[c]);
    assert Private(t.cores[c]) == {f};
    forall e | e in s.cores && e != c
      ensures Away(s, t, s.cores[e], {f}, {}) && Private(s.cores[e]) !! Private(t.cores[c])
    {
      FreshIsUnknown(s, e, f);
    }
    DeltaKeeps(s, t, c, t.cores[c], {f}, {});
  }

  lemma FreshIsUnknown(s: State, e: Core, f: ItemId)
    requires Inv(s) && e in s.cores && f !in s.items
    ensures f !in ItemsHeld(s.cores[e]) && f !in Private(s.cores[e])
  {
    hide BucketsOk, ItemsOk, CountsOk, PacketsOk, AllHoldsOk, AllPcOk, Disjoint;
    hide BucketOf, FlowMatch, BucketOk, ItemOk, CountOk, PacketOk, PcOk, ItemsHeld, Private;
    CoreFacts(s, e);
  }

  lemma AllocCore(s: State, c: Core, f: ItemId)
    requires Inv(s) && Enabled(s, c, Alloc(f))
    ensures var t := Do(s, c, Alloc(f)); |t.buckets| == BUCKET_NUM && HoldsOk(t, c) && PcOk(t, c)
  {
    hide BucketsOk, ItemsOk, CountsOk, PacketsOk, AllHoldsOk, AllPcOk, Disjoint;
    hide BucketOf, FlowMatch, BucketOk, ItemOk, CountOk, PacketOk;
    CoreFacts(s, c);
    forall b | 0 <= b < BUCKET_NUM ensures f !in s.buckets[b].list {
      BucketFacts(s, b);
      ListEntriesAllocated(s, b);
    }
  }

  /** Nothing points at memory that is not allocated. */
  lemma FreeIsUnreferenced(s: State, f: ItemId)
    requires Inv(s) && f !in s.items
    ensures Pointing(s, f) == {} && MidAttach(s, f) == {}
  {
    hide BucketsOk, ItemsOk, CountsOk, PacketsOk, AllHoldsOk, AllPcOk, Disjoint;
    hide BucketOf, FlowMatch, BucketOk, ItemOk, CountOk, PacketOk;
    forall p | p in s.pkts && s.pkts[p].live ensures s.pkts[p].flow != Some(f) {
      PacketFacts(s, p);
      LivePointerAllocated(s, p);
    }
    forall e | e in s.cores ensures !(s.cores[e].Attaching? && s.cores[e].f == f) {
      CoreFacts(s, e);
    }
  }

  lemma LivePointerAllocated(s: State, p: PktId)
    requires |s.buckets| == BUCKET_NUM && p in s.pkts && PacketOk(s, p)
    ensures s.pkts[p].live && s.pkts[p].flow.Some? ==> Conversation(s, p, s.pkts[p].flow.value)
  {
  }

  lemma AllocCounts(s: State, c: Core, f: ItemId)
    requires Inv(s) && Enabled(s, c, Alloc(f))
    ensures CountsOk(Do(s, c, Alloc(f)))
  {
    hide BucketsOk, ItemsOk, PacketsOk, AllHoldsOk, AllPcOk, Disjoint, FlowMatch, BucketOf, Pointing, MidAttach;
    var t := Do(s, c, Alloc(f));
    FreeIsUnreferenced(s, f);
    forall g | g in t.items ensures CountOk(t, g) {
      PointingSame(s, t, g);
      MidAttachChange(s, t, c, g);
      if g != f {
        assert CountOk(s, g);
      }
    }
  }

  // ---------------------------------------------------------------------------
  // References from packets

  /** How replacing one core's position changes the cores between count and store. */
  lemma MidAttachChange(s: State, t: State, c: Core, g: ItemId)
    requires c in s.cores && c in t.cores && t.cores == s.cores[c := t.cores[c]]
    ensures |MidAttach(t, g)| ==
            |MidAttach(s, g)| - (if s.cores[c].Attaching? && s.cores[c].f == g then 1 else 0)
                              + (if t.cores[c].Attaching? && t.cores[c].f == g then 1 else 0)
  {
    var rest := MidAttach(s, g) - {c};
    assert MidAttach(s, g) == if s.cores[c].Attaching? && s.cores[c].f == g then rest + {c} else rest;
    assert MidAttach(t, g) == if t.cores[c].Attaching? && t.cores[c].f == g then rest + {c} else rest;
  }

  /** How replacing one packet changes the packets pointing at g. */
  lemma PointingChange(s: State, t: State, p: PktId, g: ItemId)
    requires p in s.pkts && p in t.pkts && t.pkts == s.pkts[p := t.pkts[p]]
    ensures |Pointing(t, g)| ==
            |Pointing(s, g)| - (if s.pkts[p].live && s.pkts[p].flow == Some(g) then 1 else 0)
                             + (if t.pkts[p].live && t.pkts[p].flow == Some(g) then 1 else 0)
  {
    var rest := Pointing(s, g) - {p};
    assert Pointing(s, g) == if s.pkts[p].live && s.pkts[p].flow == Some(g) then rest + {p} else rest;
    assert Pointing(t, g) == if t.pkts[p].live && t.pkts[p].flow == Some(g) then rest + {p} else rest;
  }

  lemma PointingSame(s: State, t: State, g: ItemId)
    requires t.pkts == s.pkts
    ensures Pointing(t, g) == Pointing(s, g)
  {
  }

  /** FlowReference, first half: the counter goes up under the item's lock. */
  lemma ReferenceKeeps(s: State, c: Core)
    requires Inv(s) && c in s.cores && s.cores[c].Referencing? && MoveDefined(s, s.cores[c])
    requires s.pkts[s.cores[c].p].flow != Some(s.cores[c].f)
    ensures Inv(DoPacketStep(s, c, s.cores[c]))
  {
    hide BucketsOk, ItemsOk, CountsOk, PacketsOk, AllHoldsOk, AllPcOk, Disjoint;
    hide BucketOf, FlowMatch, BucketOk, ItemOk, CountOk, PacketOk;
    hide PcOk, HoldsOk;
    TableSize(s);
    ReferenceCore(s, c);
    var pc := s.cores[c];
    var t := DoPacketStep(s, c, pc);
    ReferenceCounts(s, c);
    ItemsUnchangedLocks(s, t, c, t.cores[c]);
    forall e | e in s.cores && e != c
      ensures Away(s, t, s.cores[e], {pc.f}, {}) && Private(s.cores[e]) !! Private(t.cores[c])
    {
      MineIsNotHeld(s, c, e, pc.f);
    }
    DeltaKeeps(s, t, c, t.cores[c], {pc.f}, {});
  }

  lemma ReferenceCore(s: State, c: Core)
    requires Inv(s) && c in s.cores && s.cores[c].Referencing? && MoveDefined(s, s.cores[c])
    requires s.pkts[s.cores[c].p].flow != Some(s.cores[c].f)
    ensures |s.buckets| == BUCKET_NUM && s.items[s.cores[c].f].lock == Some(c) && Listed(s, s.cores[c].f)
    ensures var t := DoPacketStep(s, c, s.cores[c]); HoldsOk(t, c) && PcOk(t, c)
  {
    hide BucketsOk, ItemsOk, CountsOk, PacketsOk, AllHoldsOk, AllPcOk, Disjoint;
    hide BucketOf, FlowMatch, BucketOk, ItemOk, CountOk, PacketOk;
    CoreFacts(s, c);
  }

  /** A listed item locked by one core is held by no other and private to no other. */
  lemma MineIsNotHeld(s: State, c: Core, e: Core, f: ItemId)
    requires Inv(s) && c in s.cores && e in s.cores && e != c && f in s.items
    requires s.items[f].lock == Some(c) && Listed(s, f)
    ensures f !in ItemsHeld(s.cores[e]) && f !in Private(s.cores[e])
  {
    hide BucketsOk, ItemsOk, CountsOk, PacketsOk, AllHoldsOk, AllPcOk, Disjoint;
    hide BucketOf, FlowMatch, BucketOk, ItemOk, CountOk, PacketOk;
    hide PcOk, ItemsHeld, Private;
    CoreFacts(s, e);
    assert f in Private(s.cores[e]) ==> Unlisted(s, f);
  }

  lemma ReferenceCounts(s: State, c: Core)
    requires Inv(s) && c in s.cores && s.cores[c].Referencing? && MoveDefined(s, s.cores[c])
    requires s.pkts[s.cores[c].p].flow != Some(s.cores[c].f)
    ensures CountsOk(DoPacketStep(s, c, s.cores[c]))
  {
    hide BucketsOk, ItemsOk, PacketsOk, AllHoldsOk, AllPcOk, Disjoint, FlowMatch, BucketOf;
    hide Pointing, MidAttach, BucketHeld;
    var pc := s.cores[c];
    var t := DoPacketStep(s, c, pc);
    assert t == Go(AddUse(s, pc.f, 1), c, Attaching(pc.p, pc.f));
    forall g | g in t.items ensures CountOk(t, g) {
      assert CountOk(s, g);
      PointingSame(s, t, g);
      MidAttachChange(s, t, c, g);
    }
  }

  lemma HeldPacketIsMine(s: State, c: Core, e: Core)
    requires Inv(s) && c in s.cores && e in s.cores && e != c && PacketHeld(s.cores[c]).Some?
    ensures PacketHeld(s.cores[e]) != PacketHeld(s.cores[c])
  {
    hide BucketsOk, ItemsOk, CountsOk, PacketsOk, AllHoldsOk, AllPcOk, Disjoint;
    hide BucketOf, FlowMatch, BucketOk, ItemOk, CountOk, PacketOk;
    hide PacketHeld, PcOk;
    CoreFacts(s, c);
    CoreFacts(s, e);
  }

  /** FlowReference, second half: the packet points at the flow. */
  lemma AttachKeeps(s: State, c: Core)
    requires Inv(s) && c in s.cores && s.cores[c].Attaching? && MoveDefined(s, s.cores[c])
    ensures Inv(DoPacketStep(s, c, s.cores[c]))
  {
    hide BucketsOk, ItemsOk, CountsOk, PacketsOk, AllHoldsOk, AllPcOk, Disjoint;
    hide BucketOf, FlowMatch, BucketOk, ItemOk, CountOk, PacketOk;
    hide PcOk, HoldsOk, Away;
    CoreFacts(s, c);
    TableSize(s);
    var pc := s.cores[c];
    var t := DoPacketStep(s, c, pc);
    AttachCounts(s, c);
    ItemsUnchangedLocks(s, t, c, t.cores[c]);
    forall e | e in s.cores && e != c
      ensures Away(s, t, s.cores[e], {}, {pc.p}) && Private(s.cores[e]) !! Private(t.cores[c])
    {
      HeldPacketIsMine(s, c, e);
      PacketIsAway(s, t, e, pc.p);
    }
    AttachPacket(s, c);
    DeltaKeeps(s, t, c, t.cores[c], {}, {pc.p});
  }

  lemma AttachPacket(s: State, c: Core)
    requires Inv(s) && c in s.cores && s.cores[c].Attaching? && MoveDefined(s, s.cores[c])
    requires PcOk(s, c) && HoldsOk(s, c)
    ensures var t := DoPacketStep(s, c, s.cores[c]); PacketOk(t, s.cores[c].p) && HoldsOk(t, c) && PcOk(t, c)
  {
    hide BucketsOk, ItemsOk, CountsOk, PacketsOk, AllHoldsOk, AllPcOk, Disjoint, BucketOf, FlowMatch;
  }

  lemma PacketIsAway(s: State, t: State, e: Core, p: PktId)
    requires e in s.cores && PacketHeld(s.cores[e]) != Some(p)
    ensures Away(s, t, s.cores[e], {}, {p})
  {
    hide ItemsHeld, Private, PacketHeld;
  }

  lemma AttachCounts(s: State, c: Core)
    requires Inv(s) && c in s.cores && s.cores[c].Attaching? && MoveDefined(s, s.cores[c])
    requires PcOk(s, c) && HoldsOk(s, c)
    ensures CountsOk(DoPacketStep(s, c, s.cores[c]))
  {
    hide BucketsOk, ItemsOk, PacketsOk, AllHoldsOk, AllPcOk, Disjoint, FlowMatch, BucketOf, Listed;
    hide Pointing, MidAttach, ItemsHeld, BucketHeld;
    var pc := s.cores[c];
    var t := DoPacketStep(s, c, pc);
    assert t == Go(SetPacket(s, pc.p, s.pkts[pc.p].(flow := Some(pc.f))), c, Releasing(pc.p, pc.f));
    forall g | g in t.items ensures CountOk(t, g) {
      assert CountOk(s, g);
      PointingChange(s, t, pc.p, g);
      MidAttachChange(s, t, c, g);
    }
  }

  /** FLOW_ITEM_UNLOCK and hand-over of the packet. */
  lemma ReleaseKeeps(s: State, c: Core)
    requires Inv(s) && c in s.cores && s.cores[c].Releasing? && MoveDefined(s, s.cores[c])
    ensures Inv(DoPacketStep(s, c, s.cores[c]))
  {
    hide BucketsOk, ItemsOk, CountsOk, PacketsOk, AllHoldsOk, AllPcOk, Disjoint;
    hide BucketOf, FlowMatch, BucketOk, ItemOk, CountOk, PacketOk;
    hide PcOk, HoldsOk, Away;
    CoreFacts(s, c);
    TableSize(s);
    var pc := s.cores[c];
    var t := DoPacketStep(s, c, pc);
    assert forall g :: g in t.items ==> Pointing(t, g) == Pointing(s, g);
    CountsUnchanged(s, t, c, Idle) by { CountsPart(s); }
    ReleaseItems(s, c);
    forall e | e in s.cores && e != c
      ensures Away(s, t, s.cores[e], {pc.f}, {pc.p}) && Private(s.cores[e]) !! Private(t.cores[c])
    {
      ReleaseIsAway(s, c, t, e);
    }
    ReleasePacket(s, c);
    DeltaKeeps(s, t, c, Idle, {pc.f}, {pc.p});
  }

  lemma ReleasePacket(s: State, c: Core)
    requires Inv(s) && c in s.cores && s.cores[c].Releasing? && MoveDefined(s, s.cores[c])
    requires PcOk(s, c) && HoldsOk(s, c)
    ensures var t := DoPacketStep(s, c, s.cores[c]); PacketOk(t, s.cores[c].p) && HoldsOk(t, c) && PcOk(t, c)
  {
    hide BucketsOk, ItemsOk, CountsOk, PacketsOk, AllHoldsOk, AllPcOk, Disjoint, BucketOf, FlowMatch;
  }

  lemma ReleaseIsAway(s: State, c: Core, t: State, e: Core)
    requires Inv(s) && c in s.cores && s.cores[c].Releasing? && MoveDefined(s, s.cores[c])
    requires t == DoPacketStep(s, c, s.cores[c]) && e in s.cores && e != c
    ensures Away(s, t, s.cores[e], {s.cores[c].f}, {s.cores[c].p})
  {
    hide BucketsOk, ItemsOk, CountsOk, PacketsOk, AllHoldsOk, AllPcOk, Disjoint;
    hide BucketOf, FlowMatch, BucketOk, ItemOk, CountOk, PacketOk;
    CoreFacts(s, c);
    CoreFacts(s, e);
    HeldPacketIsMine(s, c, e);
    hide PcOk;
    assert Listed(s, s.cores[c].f);
    assert s.cores[c].f in ItemsHeld(s.cores[c]);
    hide ItemsHeld, Private, PacketHeld;
    assert s.cores[c].f in Private(s.cores[e]) ==> Unlisted(s, s.cores[c].f);
  }

  lemma ReleaseItems(s: State, c: Core)
    requires Inv(s) && c in s.cores && s.cores[c].Releasing? && MoveDefined(s, s.cores[c])
    ensures ItemsOk(DoPacketStep(s, c, s.cores[c]))
  {
    hide BucketsOk, CountsOk, PacketsOk, AllHoldsOk, AllPcOk, Disjoint;
    var t := DoPacketStep(s, c, s.cores[c]);
    forall g | g in t.items ensures ItemOk(t, g) {
      assert ItemOk(s, g);
    }
  }

  /** Removing a packet that points at nothing any more. */
  lemma FreePacketKeeps(s: State, c: Core, p: PktId)
    requires Inv(s) && c in s.cores && p in s.pkts && (s.pkts[p].flow.None? || !s.pkts[p].live)
    requires s.cores[c].Detaching? || s.cores[c].Allocating? || (s.cores[c].Idle? && s.pkts[p].owner.None?)
    requires PacketHeld(s.cores[c]).Some? ==> PacketHeld(s.cores[c]).value == p
    ensures Inv(Go(FreePacket(s, p), c, Idle))
  {
    hide BucketsOk, ItemsOk, CountsOk, PacketsOk, AllHoldsOk, AllPcOk, Disjoint;
    hide BucketOf, FlowMatch, BucketOk, ItemOk, CountOk, PacketOk;
    hide PcOk, Away;
    CoreFacts(s, c);
    var t := Go(FreePacket(s, p), c, Idle);
    assert forall g :: g in t.items ==> Pointing(t, g) == Pointing(s, g);
    CountsUnchanged(s, t, c, Idle) by { CountsPart(s); }
    ItemsUnchangedLocks(s, t, c, Idle);
    forall e | e in s.cores && e != c
      ensures Away(s, t, s.cores[e], {}, {p}) && Private(s.cores[e]) !! Private(Idle)
    {
      UnownedIsUnheld(s, e, p);
      PacketIsAway(s, t, e, p);
    }
    IdleIsOk(t, c);
    DeltaKeeps(s, t, c, Idle, {}, {p});
  }

  lemma IdleIsOk(t: State, c: Core)
    requires c in t.cores && t.cores[c].Idle? && |t.buckets| == BUCKET_NUM
    ensures HoldsOk(t, c) && PcOk(t, c)
  {
  }

  lemma DetachKeeps(s: State, c: Core)
    requires Inv(s) && c in s.cores && s.cores[c].Detaching? && MoveDefined(s, s.cores[c])
    ensures Inv(DoPacketStep(s, c, s.cores[c]))
  {
    hide BucketsOk, ItemsOk, CountsOk, PacketsOk, AllHoldsOk, AllPcOk, Disjoint;
    hide BucketOf, FlowMatch, BucketOk, ItemOk, CountOk, PacketOk;
    CoreFacts(s, c);
    FreePacketKeeps(s, c, s.cores[c].p);
  }

  lemma AllocFailKeeps(s: State, c: Core)
    requires Inv(s) && Enabled(s, c, AllocFail)
    ensures Inv(Do(s, c, AllocFail))
  {
    hide BucketsOk, ItemsOk, CountsOk, PacketsOk, AllHoldsOk, AllPcOk, Disjoint;
    hide BucketOf, FlowMatch, BucketOk, ItemOk, CountOk, PacketOk;
    CoreFacts(s, c);
    FreePacketKeeps(s, c, s.cores[c].p);
  }

  /** mbuf_free on an attached packet: the counter goes down and the packet stops being live. */
  lemma DestroyKeeps(s: State, c: Core, p: PktId)
    requires Inv(s) && Enabled(s, c, Destroy(p))
    ensures Inv(Do(s, c, Destroy(p)))
  {
    hide BucketsOk, ItemsOk, CountsOk, PacketsOk, AllHoldsOk, AllPcOk, Disjoint;
    hide BucketOf, FlowMatch, BucketOk, ItemOk, CountOk, PacketOk;
    hide PcOk, HoldsOk, Away;
    TableSize(s);
    CoreFacts(s, c);
    PacketFacts(s, p);
    LivePointerAllocated(s, p);
    var m := s.pkts[p];
    var t := Do(s, c, Destroy(p));
    if m.flow.None? {
      FreePacketKeeps(s, c, p);
      assert s.cores[c := Idle] == s.cores;
    } else {
      var f := m.flow.value;
      DestroyCounts(s, c, p);
      ItemsUnchangedLocks(s, t, c, Detaching(p));
      forall e | e in s.cores && e != c
        ensures Away(s, t, s.cores[e], {f}, {p}) && Private(s.cores[e]) !! Private(t.cores[c])
      {
        DestroyIsAway(s, c, p, t, e);
      }
      DyingPacketOk(s, t, c, p);
      DeltaKeeps(s, t, c, Detaching(p), {f}, {p});
    }
  }

  lemma DyingPacketOk(s: State, t: State, c: Core, p: PktId)
    requires |t.buckets| == BUCKET_NUM && p in t.pkts && c in t.cores
    requires t.cores[c] == Detaching(p) && !t.pkts[p].live && t.pkts[p].owner == Some(c)
    ensures PacketOk(t, p) && HoldsOk(t, c) && PcOk(t, c)
  {
  }

  lemma DestroyIsAway(s: State, c: Core, p: PktId, t: State, e: Core)
    requires Inv(s) && Enabled(s, c, Destroy(p)) && s.pkts[p].flow.Some? && s.pkts[p].flow.value in s.items
    requires |s.buckets| == BUCKET_NUM && Listed(s, s.pkts[p].flow.value) && t == Do(s, c, Destroy(p)) && e in s.cores && e != c
    ensures Away(s, t, s.cores[e], {s.pkts[p].flow.value}, {p})
  {
    hide BucketsOk, ItemsOk, CountsOk, PacketsOk, AllHoldsOk, AllPcOk, Disjoint;
    hide BucketOf, FlowMatch, BucketOk, ItemOk, CountOk, PacketOk;
    CoreFacts(s, e);
    var f := s.pkts[p].flow.value;
    if s.cores[e].AgeExpire? && s.cores[e].f == f {
      UnusedIsUnreferenced(s, f);
    }
    hide PcOk, Private, PacketHeld;
    assert f in Private(s.cores[e]) ==> Unlisted(s, f);
  }

  lemma DestroyCounts(s: State, c: Core, p: PktId)
    requires Inv(s) && Enabled(s, c, Destroy(p)) && s.pkts[p].flow.Some? && s.pkts[p].flow.value in s.items
    ensures CountsOk(Do(s, c, Destroy(p)))
  {
    hide BucketsOk, ItemsOk, PacketsOk, AllHoldsOk, AllPcOk, Disjoint, FlowMatch, BucketOf;
    hide Pointing, MidAttach;
    var t := Do(s, c, Destroy(p));
    forall g | g in t.items ensures CountOk(t, g) {
      assert CountOk(s, g);
      PointingChange(s, t, p, g);
      MidAttachChange(s, t, c, g);
    }
  }

  /** FlowHandlePacket starts on a packet nobody else is handling. */
  lemma BeginKeeps(s: State, c: Core, p: PktId)
    requires Inv(s) && Enabled(s, c, Begin(p))
    ensures Inv(Do(s, c, Begin(p)))
  {
    hide BucketsOk, ItemsOk, CountsOk, PacketsOk, AllHoldsOk, AllPcOk, Disjoint;
    hide BucketOf, FlowMatch, BucketOk, ItemOk, CountOk, PacketOk;
    hide PcOk, HoldsOk, Away;
    TableSize(s);
    PacketFacts(s, p);
    LivePointerAllocated(s, p);
    var t := Do(s, c, Begin(p));
    var pc := t.cores[c];
    assert forall g :: g in t.items ==> Pointing(t, g) == Pointing(s, g);
    CountsUnchanged(s, t, c, pc) by { CountsPart(s); }
    ItemsUnchangedLocks(s, t, c, pc);
    forall e | e in s.cores && e != c
      ensures Away(s, t, s.cores[e], {}, {p}) && Private(s.cores[e]) !! Private(pc)
    {
      UnownedIsUnheld(s, e, p);
      PacketIsAway(s, t, e, p);
    }
    TakenPacketOk(s, t, c, p);
    DeltaKeeps(s, t, c, pc, {}, {p});
  }

  lemma UnownedIsUnheld(s: State, e: Core, p: PktId)
    requires Inv(s) && e in s.cores && p in s.pkts && s.pkts[p].owner != Some(e)
    ensures PacketHeld(s.cores[e]) != Some(p)
  {
    hide BucketsOk, ItemsOk, CountsOk, PacketsOk, AllHoldsOk, AllPcOk, Disjoint;
    hide BucketOf, FlowMatch, BucketOk, ItemOk, CountOk, PacketOk, PcOk, PacketHeld;
    CoreFacts(s, e);
  }

  lemma TakenPacketOk(s: State, t: State, c: Core, p: PktId)
    requires Inv(s) && Enabled(s, c, Begin(p)) && t == Do(s, c, Begin(p))
    requires s.pkts[p].flow.Some? ==> Conversation(s, p, s.pkts[p].flow.value)
    ensures PacketOk(t, p) && HoldsOk(t, c) && PcOk(t, c)
  {
    hide BucketsOk, ItemsOk, CountsOk, PacketsOk, AllHoldsOk, AllPcOk, Disjoint, BucketOf, FlowMatch;
  }

  // ---------------------------------------------------------------------------
  // The environment

  lemma EnvironmentKeeps(s: State, t: State, qs: set<PktId>)
    requires Inv(s) && t.buckets == s.buckets && t.items == s.items && t.cores == s.cores
    requires forall p :: p in qs ==> p !in s.pkts
    requires t.pkts.Keys == s.pkts.Keys + qs && forall p :: p in s.pkts ==> t.pkts[p] == s.pkts[p]
    requires CountsOk(t) && forall p :: p in qs ==> PacketOk(t, p)
    ensures Inv(t)
  {
    hide BucketOf, FlowMatch, PcOk, CountOk, BucketHeld, ItemsHeld, PacketHeld, Private, DeadList, LookedUp;
    EnvironmentLists(s, t);
    EnvironmentPackets(s, t, qs);
    assert Disjoint(t);
    hide BucketsOk, ItemsOk, CountsOk, PacketsOk, AllHoldsOk, AllPcOk, Disjoint, BucketOk, ItemOk, PacketOk;
    forall e | e in s.cores ensures HoldsOk(t, e) && PcOk(t, e) {
      CoreFacts(s, e);
      RelyDelta(s, t, e, {}, qs);
      RelyKeepsHolds(s, t, e);
      RelyKeepsPc(s, t, e);
    }
    AllCores(t);
  }

  lemma AllCores(t: State)
    requires |t.buckets| == BUCKET_NUM && forall e :: e in t.cores ==> HoldsOk(t, e) && PcOk(t, e)
    ensures AllHoldsOk(t) && AllPcOk(t)
  {
    hide HoldsOk, PcOk;
  }

  lemma EnvironmentLists(s: State, t: State)
    requires Inv(s) && t.buckets == s.buckets && t.items == s.items && t.cores == s.cores
    ensures BucketsOk(t) && ItemsOk(t)
  {
    hide BucketOf, FlowMatch, BucketHeld, ItemsHeld, CountsOk, PacketsOk, AllHoldsOk, AllPcOk, Disjoint;
    forall b | 0 <= b < BUCKET_NUM ensures BucketOk(t, b) {
      assert BucketOk(s, b);
    }
    forall f | f in t.items ensures ItemOk(t, f) {
      assert ItemOk(s, f);
    }
  }

  lemma EnvironmentPackets(s: State, t: State, qs: set<PktId>)
    requires Inv(s) && t.buckets == s.buckets && t.items == s.items && t.cores == s.cores
    requires t.pkts.Keys == s.pkts.Keys + qs && forall p :: p in s.pkts ==> t.pkts[p] == s.pkts[p]
    requires forall p :: p in qs ==> PacketOk(t, p)
    ensures PacketsOk(t)
  {
    hide BucketOf, FlowMatch, PacketHeld, BucketsOk, CountsOk, ItemsOk, AllHoldsOk, AllPcOk, Disjoint;
    forall p | p in t.pkts ensures PacketOk(t, p) {
      if p in s.pkts {
        assert PacketOk(s, p);
      }
    }
  }

  lemma ArriveKeeps(s: State, c: Core, p: PktId, key: Tuple)
    requires Inv(s) && Enabled(s, c, Arrive(p, key))
    ensures Inv(Do(s, c, Arrive(p, key)))
  {
    hide BucketOf, FlowMatch, BucketsOk, PacketsOk, ItemsOk, AllHoldsOk, AllPcOk, Disjoint;
    var t := Do(s, c, Arrive(p, key));
    forall f | f in t.items ensures CountOk(t, f) {
      assert CountOk(s, f);
      assert Pointing(t, f) == Pointing(s, f) && MidAttach(t, f) == MidAttach(s, f);
    }
    EnvironmentKeeps(s, t, {p});
  }

  lemma TickKeeps(s: State, c: Core, clock: nat)
    requires Inv(s) && Enabled(s, c, Tick(clock))
    ensures Inv(Do(s, c, Tick(clock)))
  {
    hide BucketOf, FlowMatch, BucketsOk, PacketsOk, ItemsOk, AllHoldsOk, AllPcOk, Disjoint;
    var t := Do(s, c, Tick(clock));
    forall f | f in t.items ensures CountOk(t, f) {
      assert CountOk(s, f);
      assert Pointing(t, f) == Pointing(s, f) && MidAttach(t, f) == MidAttach(s, f);
    }
    EnvironmentKeeps(s, t, {});
  }

  // ---------------------------------------------------------------------------
  // Every step keeps the invariant

  lemma PacketStepKeeps(s: State, c: Core)
    requires Inv(s) && Enabled(s, c, Move) && PacketHeld(s.cores[c]).Some?
    ensures Inv(DoPacketStep(s, c, s.cores[c]))
  {
    hide Inv, MoveDefined, FlowMatch;
    match s.cores[c]
    case WantBucket(_, _, _) => LockBucketKeeps(s, c);
    case Scanning(_, _, _, _) => ScanKeeps(s, c);
    case Found(_, _, _, _) => LockItemKeeps(s, c);
    case Locked(_, _, _, _) => UnlockFoundKeeps(s, c);
    case Missed(_, _) => UnlockOtherKeeps(s, c);
    case Inserting(_, _, _) => InsertKeeps(s, c);
    case Inserted(_, _, _) => UnlockOtherKeeps(s, c);
    case Discarding(_, _, _) => DiscardKeeps(s, c);
    case Referencing(_, _) => ReferencingKeeps(s, c);
    case Attaching(_, _) => AttachKeeps(s, c);
    case Releasing(_, _) => ReleaseKeeps(s, c);
    case Detaching(_) => DetachKeeps(s, c);
  }

  lemma ScanKeeps(s: State, c: Core)
    requires Inv(s) && c in s.cores && MoveDefined(s, s.cores[c]) && s.cores[c].Scanning?
    ensures Inv(DoScan(s, c, s.cores[c]))
  {
    hide Inv, FlowMatch;
    var pc := s.cores[c];
    var list := s.buckets[pc.b].list;
    if pc.pos < |list| && FlowMatch(s.items[list[pc.pos]].key, s.pkts[pc.p].key) {
      ScanHitKeeps(s, c);
    } else {
      ScanOnKeeps(s, c);
    }
  }

  lemma ReferencingKeeps(s: State, c: Core)
    requires Inv(s) && c in s.cores && MoveDefined(s, s.cores[c]) && s.cores[c].Referencing?
    ensures Inv(DoPacketStep(s, c, s.cores[c]))
  {
    hide Inv;
    if s.pkts[s.cores[c].p].flow == Some(s.cores[c].f) {
      ReferenceAgainKeeps(s, c);
    } else {
      ReferenceKeeps(s, c);
    }
  }

  lemma AgeVisitKeeps(s: State, c: Core)
    requires Inv(s) && c in s.cores && MoveDefined(s, s.cores[c]) && s.cores[c].AgeScan?
    ensures Inv(DoAgeVisit(s, c, s.cores[c]))
  {
    hide Inv;
    var list := s.buckets[s.cores[c].b].list;
    if s.cores[c].pos == |list| {
      AgeUnlockBucketKeeps(s, c);
    } else if s.items[list[s.cores[c].pos]].lock.None? {
      AgeLockItemKeeps(s, c);
    } else {
      AgeSkipKeeps(s, c);
    }
  }

  lemma AgeExpireKeeps(s: State, c: Core)
    requires Inv(s) && c in s.cores && MoveDefined(s, s.cores[c]) && s.cores[c].AgeExpire?
    ensures Inv(DoAgeStep(s, c, s.cores[c]))
  {
    hide Inv;
    if Expired(s.cores[c].now, s.items[s.cores[c].f].cycle, s.timeout) {
      UnlinkKeeps(s, c);
    } else {
      AgeFreshKeeps(s, c);
    }
  }

  lemma AgeBucketKeeps(s: State, c: Core)
    requires Inv(s) && |s.buckets| == BUCKET_NUM && c in s.cores && MoveDefined(s, s.cores[c]) && s.cores[c].AgeBucket?
    ensures Inv(DoAgeStep(s, c, s.cores[c]))
  {
    hide Inv;
    if s.cores[c].b < BUCKET_NUM && s.buckets[s.cores[c].b].lock.None? {
      AgeLockBucketKeeps(s, c);
    } else {
      AgeNextBucketKeeps(s, c);
    }
  }

  lemma AgeStepKeeps(s: State, c: Core)
    requires Inv(s) && |s.buckets| == BUCKET_NUM && Enabled(s, c, Move) && PacketHeld(s.cores[c]).None?
    ensures Inv(DoAgeStep(s, c, s.cores[c]))
  {
    hide Inv, MoveDefined;
    match s.cores[c]
    case AgeBucket(_, _) => AgeBucketKeeps(s, c);
    case AgeScan(_, _, _, _) => AgeVisitKeeps(s, c);
    case AgeTest(_, _, _, _, _) => AgeTestKeeps(s, c);
    case AgeExpire(_, _, _, _, _) => AgeExpireKeeps(s, c);
    case AgeKeep(_, _, _, _, _) => AgeKeepKeeps(s, c);
    case AgeUnlinked(_, _, _, _, _) => AgeUnlinkedKeeps(s, c);
    case AgeFree(_, _, dead) =>
      if dead == [] {
        AgeNextBucketKeeps(s, c);
      } else {
        AgeFreeKeeps(s, c);
      }
  }

  /** Whichever core acts, and whatever it does, the invariant survives. */
  lemma StepKeeps(s: State, c: Core, a: Action)
    requires Inv(s) && Enabled(s, c, a)
    ensures Inv(Do(s, c, a))
  {
    hide Inv, MoveDefined, DoPacketStep, DoAgeStep, DoDestroy;
    TableSize(s);
    match a
    case Arrive(p, key) => ArriveKeeps(s, c, p, key);
    case Tick(clock) => TickKeeps(s, c, clock);
    case Begin(p) => BeginKeeps(s, c, p);
    case Destroy(p) => DestroyKeeps(s, c, p);
    case AgeStart => AgeStartKeeps(s, c);
    case Alloc(f) => AllocKeeps(s, c, f);
    case AllocFail => AllocFailKeeps(s, c);
    case Move =>
      if PacketHeld(s.cores[c]).Some? {
        PacketStepKeeps(s, c);
      } else {
        AgeStepKeeps(s, c);
      }
  }
}
