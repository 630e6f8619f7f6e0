/** What every interleaving of cores guarantees, and that no interleaving gets stuck. */
module FlowRuns {
  import opened Wrappers
  import opened Collections
  import opened FlowHash
  import opened FlowTable
  import opened FlowInvariant
  import opened FlowSteps

  /** FlowInit: empty unlocked buckets, no flows, no packets, every core idle. */
  ghost predicate Initial(s: State) {
    && |s.buckets| == BUCKET_NUM && (forall b :: 0 <= b < BUCKET_NUM ==> s.buckets[b] == Bucket(None, []))
    && s.items == map[] && s.pkts == map[] && forall c :: c in s.cores ==> s.cores[c].Idle?
  }

  ghost predicate Next(s: State, t: State) {
    exists c, a :: Enabled(s, c, a) && t == Do(s, c, a)
  }

  /** A finite interleaving, one access per step, of any number of cores. */
  ghost predicate Run(r: seq<State>) {
    |r| > 0 && Initial(r[0]) && forall i :: 0 <= i < |r| - 1 ==> Next(r[i], r[i + 1])
  }

  /** Every allocated flow is in its bucket's list or in the hands of one core: nothing leaks. */
  ghost predicate Accounted(s: State, f: ItemId)
    requires |s.buckets| == BUCKET_NUM && f in s.items
  {
    Listed(s, f) || exists c :: c in s.cores && f in Private(s.cores[c])
  }

  ghost predicate AllAccounted(s: State)
    requires |s.buckets| == BUCKET_NUM
  {
    forall f :: f in s.items ==> Accounted(s, f)
  }

  lemma InitialHolds(s: State)
    requires Initial(s)
    ensures Inv(s) && AllAccounted(s)
  {
    hide BucketOf, FlowMatch;
  }

  /** The item a step frees, if it frees one, is private to the core that frees it. */
  lemma FreedIsPrivate(s: State, c: Core, a: Action, f: ItemId)
    requires Inv(s) && Enabled(s, c, a) && f in s.items && f !in Do(s, c, a).items
    ensures c in s.cores && f in Private(s.cores[c])
  {
    hide Inv, FlowMatch, BucketOf, MoveDefined;
  }

  /**
   No use after free: when a step frees a flow, no live packet points at it, no core has it from a
   lookup, no bucket lists it and no other core holds its lock.
   */
  lemma FreedIsUnused(s: State, t: State, f: ItemId)
    requires Inv(s) && Next(s, t) && f in s.items && f !in t.items
    ensures Unlisted(s, f)
    ensures forall p :: p in s.pkts && s.pkts[p].live ==> s.pkts[p].flow != Some(f)
    ensures forall e :: e in s.cores ==> f !in LookedUp(s.cores[e])
    ensures exists c :: c in s.cores && f in Private(s.cores[c]) && (s.items[f].lock == None || s.items[f].lock == Some(c))
  {
    hide BucketsOk, ItemsOk, CountsOk, PacketsOk, AllHoldsOk, AllPcOk, Disjoint;
    hide BucketOf, FlowMatch, BucketOk, ItemOk, CountOk, PacketOk, LookedUp, Private;
    var c, a :| Enabled(s, c, a) && t == Do(s, c, a);
    FreedIsPrivate(s, c, a, f);
    CoreFacts(s, c);
    hide Do, Enabled, HoldsOk, PcOk, Next;
    PrivateIsUnlisted(s, c, f);
    forall p | p in s.pkts && s.pkts[p].live ensures s.pkts[p].flow != Some(f) {
      PacketFacts(s, p);
      LivePointerAllocated(s, p);
    }
    forall e | e in s.cores ensures f !in LookedUp(s.cores[e]) {
      CoreFacts(s, e);
      LookedUpAreListed(s, e);
    }
  }

  lemma PrivateIsUnlisted(s: State, c: Core, f: ItemId)
    requires c in s.cores && HoldsOk(s, c) && f in Private(s.cores[c])
    ensures f in s.items && Unlisted(s, f) && (s.items[f].lock == None || s.items[f].lock == Some(c))
  {
    assert f in DeadList(s.cores[c]) || f in ItemsHeld(s.cores[c]);
  }

  // ---------------------------------------------------------------------------
  // Nothing leaks

  /** Where an item of s that is still allocated in t may be, given that core c made the step. */
  ghost predicate StaysAccounted(s: State, t: State, c: Core, f: ItemId)
    requires |s.buckets| == |t.buckets| == BUCKET_NUM && f in s.items && f in t.items
  {
    Listed(s, f) || (c in s.cores && f in Private(s.cores[c])) ==>
      Listed(t, f) || (c in t.cores && f in Private(t.cores[c]))
  }

  lemma PacketStepAccounts(s: State, c: Core, t: State, f: ItemId)
    requires Inv(s) && Enabled(s, c, Move) && PacketHeld(s.cores[c]).Some? && t == DoPacketStep(s, c, s.cores[c])
    requires |s.buckets| == |t.buckets| == BUCKET_NUM && f in s.items && f in t.items
    ensures StaysAccounted(s, t, c, f)
  {
    hide Inv, FlowMatch, BucketOf;
    if s.cores[c].Inserting? {
      hide MoveDefined;
      MineIsFiled(s, c);
    }
  }

  lemma MineIsFiled(s: State, c: Core)
    requires Inv(s) && c in s.cores && s.cores[c].Inserting?
    ensures s.cores[c].f in s.items && s.cores[c].b == BucketOf(s.items[s.cores[c].f].key)
  {
    hide BucketsOk, ItemsOk, CountsOk, PacketsOk, AllHoldsOk, AllPcOk, Disjoint, BucketOf, FlowMatch;
    CoreFacts(s, c);
  }

  lemma AgeStepAccounts(s: State, c: Core, t: State, f: ItemId)
    requires Inv(s) && Enabled(s, c, Move) && PacketHeld(s.cores[c]).None? && t == DoAgeStep(s, c, s.cores[c])
    requires |s.buckets| == |t.buckets| == BUCKET_NUM && f in s.items && f in t.items
    ensures StaysAccounted(s, t, c, f)
  {
    hide Inv, BucketOf, FlowMatch, Expired, MoveDefined, DoAgeStep, StaysAccounted;
    if s.cores[c].AgeExpire? {
      UnlinkAccounts(s, c, t, f);
    } else if s.cores[c].AgeUnlinked? || s.cores[c].AgeFree? {
      DeadListAccounts(s, c, t, f);
    } else {
      OtherAgeAccounts(s, c, t, f);
    }
  }

  lemma OtherAgeAccounts(s: State, c: Core, t: State, f: ItemId)
    requires Enabled(s, c, Move) && PacketHeld(s.cores[c]).None? && t == DoAgeStep(s, c, s.cores[c])
    requires !s.cores[c].AgeExpire? && !s.cores[c].AgeUnlinked? && !s.cores[c].AgeFree?
    requires |s.buckets| == |t.buckets| == BUCKET_NUM && f in s.items && f in t.items
    ensures StaysAccounted(s, t, c, f)
  {
    hide BucketOf, FlowMatch, Expired, DoAgeVisit;
    if s.cores[c].AgeScan? {
      VisitAccounts(s, c, t, f);
    }
  }

  lemma VisitAccounts(s: State, c: Core, t: State, f: ItemId)
    requires Enabled(s, c, Move) && s.cores[c].AgeScan? && t == DoAgeVisit(s, c, s.cores[c])
    requires |s.buckets| == |t.buckets| == BUCKET_NUM && f in s.items && f in t.items
    ensures StaysAccounted(s, t, c, f)
  {
    hide BucketOf, FlowMatch;
  }

  lemma DeadListAccounts(s: State, c: Core, t: State, f: ItemId)
    requires Enabled(s, c, Move) && (s.cores[c].AgeUnlinked? || s.cores[c].AgeFree?) && t == DoAgeStep(s, c, s.cores[c])
    requires |s.buckets| == |t.buckets| == BUCKET_NUM && f in s.items && f in t.items
    ensures StaysAccounted(s, t, c, f)
  {
    hide BucketOf, FlowMatch, Expired;
    var dead := s.cores[c].dead;
    if s.cores[c].AgeUnlinked? {
      assert f in SeqSet([s.cores[c].f] + dead) <==> f == s.cores[c].f || f in SeqSet(dead);
    } else {
      assert dead != [] && f in dead ==> f == dead[0] || f in dead[1..];
    }
  }

  lemma UnlinkAccounts(s: State, c: Core, t: State, f: ItemId)
    requires Inv(s) && Enabled(s, c, Move) && s.cores[c].AgeExpire? && t == DoAgeStep(s, c, s.cores[c])
    requires |s.buckets| == |t.buckets| == BUCKET_NUM && f in s.items && f in t.items
    ensures StaysAccounted(s, t, c, f)
  {
    hide BucketsOk, ItemsOk, CountsOk, PacketsOk, AllHoldsOk, AllPcOk, Disjoint, BucketOf, FlowMatch, BucketOk;
    CoreFacts(s, c);
    hide Inv;
    var pc := s.cores[c];
    if Expired(pc.now, s.items[pc.f].cycle, s.timeout) {
      UnlinkBucket(s, t, c, pc);
      hide HoldsOk, PcOk;
    }
  }

  lemma OtherActionAccounts(s: State, c: Core, a: Action, t: State, f: ItemId)
    requires Inv(s) && Enabled(s, c, a) && !a.Move? && t == Do(s, c, a)
    requires |s.buckets| == |t.buckets| == BUCKET_NUM && f in s.items && f in t.items
    ensures StaysAccounted(s, t, c, f)
  {
    hide Inv, BucketOf, FlowMatch;
  }

  lemma PacketStepCores(s: State, c: Core)
    requires Enabled(s, c, Move) && PacketHeld(s.cores[c]).Some?
    ensures var t := DoPacketStep(s, c, s.cores[c]); c in t.cores && t.cores == s.cores[c := t.cores[c]]
    ensures var t := DoPacketStep(s, c, s.cores[c]); t.clock == s.clock && t.timeout == s.timeout
  {
    hide FlowMatch, BucketOf;
  }

  lemma AgeStepCores(s: State, c: Core)
    requires Enabled(s, c, Move) && PacketHeld(s.cores[c]).None?
    ensures var t := DoAgeStep(s, c, s.cores[c]); c in t.cores && t.cores == s.cores[c := t.cores[c]]
    ensures var t := DoAgeStep(s, c, s.cores[c]); t.clock == s.clock && t.timeout == s.timeout
  {
    hide Expired;
  }

  /** Only the acting core changes its position; only a tick moves the clock, and only forward. */
  lemma OthersStay(s: State, c: Core, a: Action)
    requires Enabled(s, c, a)
    ensures var t := Do(s, c, a);
      && t.cores.Keys == s.cores.Keys && (forall e :: e in s.cores && e != c ==> t.cores[e] == s.cores[e])
      && t.timeout == s.timeout && s.clock <= t.clock && (!a.Tick? ==> t.clock == s.clock)
  {
    hide FlowMatch, BucketOf, DoPacketStep, DoAgeStep, CanMove, MoveDefined;
    if a.Move? {
      if PacketHeld(s.cores[c]).Some? {
        PacketStepCores(s, c);
      } else {
        AgeStepCores(s, c);
      }
    }
  }

  lemma StepAccountsOne(s: State, c: Core, a: Action, t: State, f: ItemId)
    requires Inv(s) && Enabled(s, c, a) && t == Do(s, c, a) && |s.buckets| == |t.buckets| == BUCKET_NUM
    requires f in s.items && f in t.items && Accounted(s, f)
    ensures Accounted(t, f)
  {
    hide Inv, FlowMatch, BucketOf, MoveDefined, CanMove, DoPacketStep, DoAgeStep, Private, DoDestroy;
    if !a.Move? {
      OtherActionAccounts(s, c, a, t, f);
    } else if PacketHeld(s.cores[c]).Some? {
      PacketStepAccounts(s, c, t, f);
    } else {
      AgeStepAccounts(s, c, t, f);
    }
    hide Do, Enabled;
    if !Listed(s, f) {
      var e :| e in s.cores && f in Private(s.cores[e]);
      if e != c {
        OthersStay(s, c, a);
      }
    }
  }

  lemma NewIsPrivate(s: State, c: Core, a: Action, f: ItemId)
    requires Enabled(s, c, a) && f !in s.items && f in Do(s, c, a).items
    ensures c in Do(s, c, a).cores && f in Private(Do(s, c, a).cores[c])
  {
    hide FlowMatch, BucketOf;
  }

  lemma StepAccounts(s: State, c: Core, a: Action)
    requires Inv(s) && |s.buckets| == BUCKET_NUM && AllAccounted(s) && Enabled(s, c, a)
    ensures var t := Do(s, c, a); Inv(t) && |t.buckets| == BUCKET_NUM && AllAccounted(t)
  {
    hide Inv, FlowMatch, BucketOf, Do, Enabled, Private;
    StepKeeps(s, c, a);
    var t := Do(s, c, a);
    TableSize(t);
    forall f | f in t.items ensures Accounted(t, f) {
      if f in s.items {
        StepAccountsOne(s, c, a, t, f);
      } else {
        NewIsPrivate(s, c, a, f);
      }
    }
  }

  // ---------------------------------------------------------------------------
  // Whole runs

  /** Every state of every run satisfies the invariant, and every allocated flow is accounted for. */
  lemma {:induction false} RunKeeps(r: seq<State>, i: nat)
    requires Run(r) && i < |r|
    ensures Inv(r[i]) && |r[i].buckets| == BUCKET_NUM && AllAccounted(r[i])
    decreases i
  {
    hide Inv, FlowMatch, BucketOf, Accounted, Enabled, Do, Initial;
    if i == 0 {
      InitialHolds(r[0]);
      TableSize(r[0]);
    } else {
      RunKeeps(r, i - 1);
      assert Next(r[i - 1], r[i - 1 + 1]);
      var c, a :| Enabled(r[i - 1], c, a) && r[i] == Do(r[i - 1], c, a);
      StepAccounts(r[i - 1], c, a);
    }
  }

  /** use_cnt is the number of live packets pointing at the flow, plus the cores between count and store. */
  lemma UseCountIsExact(r: seq<State>, i: nat, f: ItemId)
    requires Run(r) && i < |r| && f in r[i].items
    ensures r[i].items[f].useCnt == |Pointing(r[i], f)| + |MidAttach(r[i], f)|
    ensures (forall c :: c in r[i].cores ==> !r[i].cores[c].Attaching?) ==> r[i].items[f].useCnt == |Pointing(r[i], f)|
  {
    hide Run, BucketsOk, ItemsOk, PacketsOk, AllHoldsOk, AllPcOk, Disjoint;
    RunKeeps(r, i);
    assert CountOk(r[i], f);
    if forall c :: c in r[i].cores ==> !r[i].cores[c].Attaching? {
      assert MidAttach(r[i], f) == {};
    }
  }

  /** No dangling pointers: whatever a live packet or a core after lookup refers to is allocated and listed. */
  lemma NothingDangles(r: seq<State>, i: nat)
    requires Run(r) && i < |r|
    ensures |r[i].buckets| == BUCKET_NUM
    ensures forall p :: p in r[i].pkts && r[i].pkts[p].live && r[i].pkts[p].flow.Some? ==>
              Conversation(r[i], p, r[i].pkts[p].flow.value)
    ensures forall c, f :: c in r[i].cores && f in LookedUp(r[i].cores[c]) ==>
              PacketHeld(r[i].cores[c]).Some? && Conversation(r[i], PacketHeld(r[i].cores[c]).value, f)
  {
    hide BucketsOk, ItemsOk, CountsOk, PacketsOk, AllHoldsOk, AllPcOk, Disjoint, PcOk, HoldsOk, PacketOk;
    hide Run, Conversation, LookedUp, PacketHeld;
    RunKeeps(r, i);
    var s := r[i];
    forall p | p in s.pkts && s.pkts[p].live && s.pkts[p].flow.Some? ensures Conversation(s, p, s.pkts[p].flow.value) {
      PacketFacts(s, p);
      LivePointerAllocated(s, p);
    }
    forall c | c in s.cores
      ensures forall f :: f in LookedUp(s.cores[c]) ==>
                PacketHeld(s.cores[c]).Some? && Conversation(s, PacketHeld(s.cores[c]).value, f)
    {
      CoreFacts(s, c);
      LookedUpAreListed(s, c);
    }
  }

  /** In a run, a flow is freed only when nothing uses it. */
  lemma RunFreesOnlyUnused(r: seq<State>, i: nat, f: ItemId)
    requires Run(r) && i + 1 < |r| && f in r[i].items && f !in r[i + 1].items
    ensures Unlisted(r[i], f) && r[i].items[f].useCnt == 0
    ensures forall p :: p in r[i].pkts && r[i].pkts[p].live ==> r[i].pkts[p].flow != Some(f)
    ensures forall e :: e in r[i].cores ==> f !in LookedUp(r[i].cores[e])
  {
    hide Inv, Unlisted, LookedUp, Initial, Private;
    RunKeeps(r, i);
    FreedIsUnused(r[i], r[i + 1], f);
    var c :| c in r[i].cores && f in Private(r[i].cores[c]);
    PrivateIsUncounted(r[i], c, f);
  }

  lemma PrivateIsUncounted(s: State, c: Core, f: ItemId)
    requires Inv(s) && c in s.cores && f in Private(s.cores[c])
    ensures f in s.items && s.items[f].useCnt == 0
  {
    hide BucketsOk, ItemsOk, CountsOk, PacketsOk, AllHoldsOk, AllPcOk, Disjoint, PcOk, Private;
    CoreFacts(s, c);
  }

  /** Every allocated flow is in exactly one place: its bucket's list, or private to one core. */
  lemma EveryFlowInOnePlace(r: seq<State>, i: nat, f: ItemId)
    requires Run(r) && i < |r| && |r[i].buckets| == BUCKET_NUM && f in r[i].items
    ensures !Listed(r[i], f) <==> exists c :: c in r[i].cores && f in Private(r[i].cores[c])
    ensures forall c, e :: c in r[i].cores && e in r[i].cores && f in Private(r[i].cores[c]) && f in Private(r[i].cores[e]) ==> c == e
  {
    hide Run, BucketsOk, ItemsOk, CountsOk, PacketsOk, AllHoldsOk, AllPcOk, Private, BucketOf;
    RunKeeps(r, i);
    assert Accounted(r[i], f);
    forall c | c in r[i].cores && f in Private(r[i].cores[c]) ensures !Listed(r[i], f) {
      CoreFacts(r[i], c);
      PrivateIsUnlisted(r[i], c, f);
    }
  }

  /** Two keys of one conversation: equal, or each other's reverse. */
  predicate SameConversation(k: Tuple, l: Tuple) {
    l == k || l == Reverse(k)
  }

  /** At most one listed flow per conversation, whichever direction created it, in the bucket of either hash. */
  lemma OneFlowPerConversation(r: seq<State>, i: nat, f: ItemId, g: ItemId)
    requires Run(r) && i < |r| && |r[i].buckets| == BUCKET_NUM && f in r[i].items && g in r[i].items
    requires Listed(r[i], f) && Listed(r[i], g) && SameConversation(r[i].items[f].key, r[i].items[g].key)
    ensures f == g
    ensures forall b :: 0 <= b < BUCKET_NUM ==> (f in r[i].buckets[b].list <==> b == BucketOf(r[i].items[f].key) == BucketOf(Reverse(r[i].items[f].key)))
  {
    hide Run, BucketsOk, ItemsOk, CountsOk, PacketsOk, AllHoldsOk, AllPcOk, Disjoint, BucketOf, BucketOk;
    RunKeeps(r, i);
    var s := r[i];
    var k, l := s.items[f].key, s.items[g].key;
    HashIsSymmetric(k);
    assert FlowMatch(k, l) && FlowMatch(l, l);
    OneItemPerConversation(s, f, g, l);
    hide FlowMatch;
    forall b | 0 <= b < BUCKET_NUM && f in s.buckets[b].list ensures b == BucketOf(k) {
      BucketFacts(s, b);
      ListEntriesAllocated(s, b);
    }
  }

  /** The flow a packet is attached to, or its core has looked up. */
  ghost predicate Resolves(s: State, p: PktId, f: ItemId) {
    || (p in s.pkts && s.pkts[p].live && s.pkts[p].flow == Some(f))
    || exists c :: c in s.cores && PacketHeld(s.cores[c]) == Some(p) && f in LookedUp(s.cores[c])
  }

  /** Both directions of a conversation resolve to the same flow, whatever cores raced to add it. */
  lemma DirectionsResolveAlike(r: seq<State>, i: nat, p: PktId, q: PktId, f: ItemId, g: ItemId)
    requires Run(r) && i < |r| && p in r[i].pkts && q in r[i].pkts
    requires SameConversation(r[i].pkts[p].key, r[i].pkts[q].key)
    requires Resolves(r[i], p, f) && Resolves(r[i], q, g)
    ensures f == g
  {
    hide Run, BucketsOk, ItemsOk, CountsOk, PacketsOk, AllHoldsOk, AllPcOk, Disjoint, BucketOf, BucketOk, LookedUp, PacketHeld;
    RunKeeps(r, i);
    NothingDangles(r, i);
    var s := r[i];
    assert Conversation(s, p, f) && Conversation(s, q, g);
    assert FlowMatch(s.items[g].key, s.pkts[p].key);
    OneItemPerConversation(s, f, g, s.pkts[p].key);
  }

  // ---------------------------------------------------------------------------
  // No deadlock

  /** A core that can take its next step now, if only by failing an allocation. */
  ghost predicate Moves(s: State, c: Core) {
    Enabled(s, c, Move) || Enabled(s, c, AllocFail)
  }

  /** The holder of a lock some listed item needs is never itself waiting. */
  lemma ItemHolderMoves(s: State, c: Core)
    requires Inv(s) && c in s.cores && s.cores[c].Found? && !CanMove(s, s.cores[c])
    ensures exists e :: e in s.cores && Moves(s, e)
  {
    hide BucketsOk, ItemsOk, CountsOk, PacketsOk, AllHoldsOk, AllPcOk, Disjoint, BucketOf, FlowMatch, MoveDefined;
    CoreFacts(s, c);
    MovesAreDefined(s, c);
    var f := s.cores[c].f;
    assert Listed(s, f);
    ItemFacts(s, f);
    var e := s.items[f].lock.value;
    CoreFacts(s, e);
    MovesAreDefined(s, e);
    assert f in Private(s.cores[e]) ==> Unlisted(s, f);
    assert f in ItemsHeld(s.cores[e]);
    assert Moves(s, e);
  }

  lemma ItemFacts(s: State, f: ItemId)
    requires Inv(s) && f in s.items
    ensures ItemOk(s, f)
  {
  }

  /** Whenever some core is not idle, some core can move: bucket locks come before item locks. */
  lemma SomeCoreMoves(r: seq<State>, i: nat, c: Core)
    requires Run(r) && i < |r| && c in r[i].cores && !r[i].cores[c].Idle?
    ensures exists e :: e in r[i].cores && Moves(r[i], e)
  {
    hide Run, BucketsOk, ItemsOk, CountsOk, PacketsOk, AllHoldsOk, AllPcOk, Disjoint, BucketOf, FlowMatch, MoveDefined;
    RunKeeps(r, i);
    var s := r[i];
    MovesAreDefined(s, c);
    if s.cores[c].WantBucket? && !CanMove(s, s.cores[c]) {
      CoreFacts(s, c);
      BucketFacts(s, s.cores[c].b);
      var e := s.buckets[s.cores[c].b].lock.value;
      MovesAreDefined(s, e);
      if s.cores[e].Found? && !CanMove(s, s.cores[e]) {
        ItemHolderMoves(s, e);
      } else {
        assert Moves(s, e);
      }
    } else if s.cores[c].Found? && !CanMove(s, s.cores[c]) {
      ItemHolderMoves(s, c);
    } else {
      assert Moves(s, c);
    }
  }
}
