/** Time in the flow table: when a flow was last used, which flows ageing takes, and that a pass takes them all. */
module FlowAgeing {
  import opened Wrappers
  import opened Collections
  import opened FlowHash
  import opened FlowTable
  import opened FlowInvariant
  import opened FlowSteps
  import opened FlowRuns

  // ---------------------------------------------------------------------------
  // The clock a pass works with

  /** The clock value a core's ageing pass was started with. */
  function PassClock(pc: Pc): Option<nat> {
    match pc
    case AgeBucket(_, now) => Some(now)
    case AgeScan(_, now, _, _) => Some(now)
    case AgeTest(_, now, _, _, _) => Some(now)
    case AgeExpire(_, now, _, _, _) => Some(now)
    case AgeKeep(_, now, _, _, _) => Some(now)
    case AgeUnlinked(_, now, _, _, _) => Some(now)
    case AgeFree(_, now, _) => Some(now)
    case _ => None
  }

  lemma AgeStepKeepsClock(s: State, c: Core)
    requires Enabled(s, c, Move) && PacketHeld(s.cores[c]).None?
    ensures var t := DoAgeStep(s, c, s.cores[c]);
      c in t.cores && (PassClock(t.cores[c]).Some? ==> PassClock(t.cores[c]) == PassClock(s.cores[c]))
  {
    hide Expired;
  }

  lemma PacketStepDoesNotAge(s: State, c: Core)
    requires Enabled(s, c, Move) && PacketHeld(s.cores[c]).Some?
    ensures var t := DoPacketStep(s, c, s.cores[c]); c in t.cores && PassClock(t.cores[c]).None?
  {
    hide FlowMatch, BucketOf;
  }

  /** A core that is ageing after a step was ageing with the same clock before it, or was idle and started now. */
  lemma StepKeepsPassClock(s: State, c: Core, a: Action, e: Core)
    requires Enabled(s, c, a) && e in s.cores && e in Do(s, c, a).cores && PassClock(Do(s, c, a).cores[e]).Some?
    ensures PassClock(s.cores[e]) == PassClock(Do(s, c, a).cores[e])
            || (s.cores[e].Idle? && Do(s, c, a).cores[e] == AgeBucket(0, s.clock))
  {
    hide FlowMatch, BucketOf, DoPacketStep, DoAgeStep, CanMove, MoveDefined;
    OthersStay(s, c, a);
    if e == c && a.Move? {
      if PacketHeld(s.cores[c]).Some? {
        PacketStepDoesNotAge(s, c);
      } else {
        AgeStepKeepsClock(s, c);
      }
    }
  }

  /** Core c started its pass at step j and has been ageing with that clock ever since. */
  ghost predicate PassSince(r: seq<State>, j: nat, i: nat, c: Core)
    requires j < i < |r|
  {
    && c in r[j].cores && r[j].cores[c].Idle? && c in r[j + 1].cores && r[j + 1].cores[c] == AgeBucket(0, r[j].clock)
    && forall k :: j < k <= i ==> c in r[k].cores && PassClock(r[k].cores[c]) == Some(r[j].clock)
  }

  lemma {:induction false} PassHasStart(r: seq<State>, i: nat, c: Core) returns (j: nat)
    requires Run(r) && i < |r| && c in r[i].cores && PassClock(r[i].cores[c]).Some?
    ensures j < i && PassSince(r, j, i, c)
    decreases i
  {
    hide Do, Enabled;
    assert i > 0;
    assert Next(r[i - 1], r[i - 1 + 1]);
    var e, a :| Enabled(r[i - 1], e, a) && r[i] == Do(r[i - 1], e, a);
    OthersStay(r[i - 1], e, a);
    StepKeepsPassClock(r[i - 1], e, a, c);
    if PassClock(r[i - 1].cores[c]) == PassClock(r[i].cores[c]) {
      j := PassHasStart(r, i - 1, c);
    } else {
      j := i - 1;
    }
  }

  // ---------------------------------------------------------------------------
  // When a flow was last used

  /** The step created the flow, or a lookup found it. */
  ghost predicate Used(s: State, t: State, f: ItemId) {
    || (f !in s.items && f in t.items)
    || exists c :: c in s.cores && c in t.cores && s.cores[c].Scanning? && t.cores[c].Found? && t.cores[c].f == f
  }

  lemma PacketStepStamps(s: State, c: Core, f: ItemId)
    requires Enabled(s, c, Move) && PacketHeld(s.cores[c]).Some? && f in DoPacketStep(s, c, s.cores[c]).items
    ensures f in s.items
    ensures var t := DoPacketStep(s, c, s.cores[c]);
      && c in t.cores
      && t.items[f].cycle ==
           (if s.cores[c].Scanning? && t.cores[c].Found? && t.cores[c].f == f then s.clock else s.items[f].cycle)
  {
    hide FlowMatch, BucketOf;
  }

  lemma AgeStepStamps(s: State, c: Core, f: ItemId)
    requires Enabled(s, c, Move) && PacketHeld(s.cores[c]).None? && f in DoAgeStep(s, c, s.cores[c]).items
    ensures f in s.items && DoAgeStep(s, c, s.cores[c]).items[f].cycle == s.items[f].cycle
  {
    hide Expired;
  }

  /** A use stamps the flow with the clock; nothing else changes the stamp. */
  lemma StepStamps(s: State, c: Core, a: Action, f: ItemId)
    requires Enabled(s, c, a) && f in Do(s, c, a).items
    ensures Used(s, Do(s, c, a), f) ==> Do(s, c, a).items[f].cycle == s.clock
    ensures !Used(s, Do(s, c, a), f) ==> f in s.items && Do(s, c, a).items[f].cycle == s.items[f].cycle
  {
    hide FlowMatch, BucketOf, DoPacketStep, DoAgeStep, CanMove, MoveDefined;
    OthersStay(s, c, a);
    if a.Move? {
      if PacketHeld(s.cores[c]).Some? {
        PacketStepStamps(s, c, f);
      } else {
        AgeStepStamps(s, c, f);
      }
    }
  }

  /** The stamp of a flow is the clock of its last use, its creation included. */
  lemma {:induction false} StampIsLastUse(r: seq<State>, i: nat, f: ItemId) returns (j: nat)
    requires Run(r) && i < |r| && f in r[i].items
    ensures j < i && Used(r[j], r[j + 1], f) && r[i].items[f].cycle == r[j].clock
    ensures forall k :: j < k < i ==> !Used(r[k], r[k + 1], f)
    decreases i
  {
    hide Do, Enabled, Used;
    assert i > 0;
    assert Next(r[i - 1], r[i - 1 + 1]);
    var e, a :| Enabled(r[i - 1], e, a) && r[i] == Do(r[i - 1], e, a);
    StepStamps(r[i - 1], e, a, f);
    if Used(r[i - 1], r[i], f) {
      j := i - 1;
    } else {
      j := StampIsLastUse(r, i - 1, f);
    }
  }

  // ---------------------------------------------------------------------------
  // Which flows ageing takes

  /** Unused for longer than the timeout when the pass started, and nobody refers to it. */
  ghost predicate Overdue(s: State, f: ItemId, now: nat) {
    f in s.items && s.items[f].useCnt == 0 && s.items[f].cycle + s.timeout < now
  }

  /** The visit to a locked flow with a zero count unlinks it if and only if it is overdue. */
  lemma VisitUnlinksIff(s: State, c: Core)
    requires Inv(s) && Enabled(s, c, Move) && s.cores[c].AgeExpire?
    ensures var pc, t := s.cores[c], Do(s, c, Move);
      && pc.f in s.items && s.items[pc.f].useCnt == 0 && pc.f in t.items && |t.buckets| == |s.buckets| == BUCKET_NUM
      && Listed(s, pc.f) && (Listed(t, pc.f) <==> !Overdue(s, pc.f, pc.now))
      && (forall f :: f in s.items && f != pc.f && Listed(s, f) ==> f in t.items && Listed(t, f))
  {
    hide BucketsOk, ItemsOk, CountsOk, PacketsOk, AllHoldsOk, AllPcOk, Disjoint, BucketOf, FlowMatch, BucketOk;
    CoreFacts(s, c);
    var pc := s.cores[c];
    BucketFacts(s, pc.b);
    ListEntriesAllocated(s, pc.b);
    assert pc.f in s.buckets[pc.b].list;
    if Overdue(s, pc.f, pc.now) {
      UnlinkBucket(s, DoAgeStep(s, c, pc), c, pc);
    }
  }

  /** The counter read before it lets a flow with a zero count be aged and every other one be kept. */
  lemma TestDecides(s: State, c: Core)
    requires Inv(s) && Enabled(s, c, Move) && s.cores[c].AgeTest?
    ensures var pc, t := s.cores[c], Do(s, c, Move);
      && pc.f in s.items && c in t.cores && t.items == s.items && t.buckets == s.buckets
      && (t.cores[c].AgeExpire? || t.cores[c].AgeKeep?) && t.cores[c].f == pc.f
      && (t.cores[c].AgeExpire? <==> s.items[pc.f].useCnt == 0)
  {
    hide BucketsOk, ItemsOk, CountsOk, PacketsOk, AllHoldsOk, AllPcOk, Disjoint, BucketOf, FlowMatch, BucketOk;
    CoreFacts(s, c);
    assert s.cores[c].f in ItemsHeld(s.cores[c]);
    CountIsNatural(s, s.cores[c].f);
  }

  /** A step takes a flow off its list only by an ageing visit that finds it overdue. */
  lemma UnlistedIsOverdue(s: State, c: Core, a: Action, f: ItemId)
    requires Inv(s) && Enabled(s, c, a) && |s.buckets| == |Do(s, c, a).buckets| == BUCKET_NUM
    requires f in s.items && Listed(s, f) && !(f in Do(s, c, a).items && Listed(Do(s, c, a), f))
    ensures a.Move? && c in s.cores && s.cores[c].AgeExpire? && s.cores[c].f == f && Overdue(s, f, s.cores[c].now)
  {
    hide Inv, FlowMatch, BucketOf, DoPacketStep, DoAgeStep, MoveDefined, CanMove;
    var t := Do(s, c, a);
    if f !in t.items {
      FreedIsPrivate(s, c, a, f);
      PrivateIsNotListed(s, c, f);
    } else if a.Move? {
      if PacketHeld(s.cores[c]).Some? {
        PacketStepKeepsLists(s, c, t, f);
      } else if s.cores[c].AgeExpire? {
        VisitUnlinksIff(s, c);
      } else {
        OtherAgeStepsKeepLists(s, c, t, f);
      }
    }
  }

  lemma PrivateIsNotListed(s: State, c: Core, f: ItemId)
    requires Inv(s) && c in s.cores && f in Private(s.cores[c])
    ensures |s.buckets| == BUCKET_NUM && f in s.items && !Listed(s, f)
  {
    hide BucketsOk, ItemsOk, CountsOk, PacketsOk, AllHoldsOk, AllPcOk, Disjoint, BucketOf, PcOk, Private;
    CoreFacts(s, c);
    PrivateIsUnlisted(s, c, f);
  }

  lemma PacketStepKeepsLists(s: State, c: Core, t: State, f: ItemId)
    requires Enabled(s, c, Move) && PacketHeld(s.cores[c]).Some? && t == DoPacketStep(s, c, s.cores[c])
    requires |s.buckets| == |t.buckets| == BUCKET_NUM && f in s.items && f in t.items && Listed(s, f)
    ensures Listed(t, f)
  {
    hide FlowMatch, BucketOf;
  }

  lemma OtherAgeStepsKeepLists(s: State, c: Core, t: State, f: ItemId)
    requires Enabled(s, c, Move) && PacketHeld(s.cores[c]).None? && !s.cores[c].AgeExpire? && t == DoAgeStep(s, c, s.cores[c])
    requires |s.buckets| == |t.buckets| == BUCKET_NUM && f in s.items && f in t.items && Listed(s, f)
    ensures Listed(t, f)
  {
    hide Expired, BucketOf;
  }

  /**
   Over runs: a flow that leaves its list was last used, at step j, more than the timeout before the ageing
   pass that takes it started, at step k.
   */
  lemma RunAgesOnlyOverdue(r: seq<State>, i: nat, f: ItemId) returns (c: Core, j: nat, k: nat)
    requires Run(r) && i + 1 < |r| && |r[i].buckets| == |r[i + 1].buckets| == BUCKET_NUM && f in r[i].items && Listed(r[i], f)
    requires !(f in r[i + 1].items && Listed(r[i + 1], f))
    ensures j < i && Used(r[j], r[j + 1], f) && forall n :: j < n < i ==> !Used(r[n], r[n + 1], f)
    ensures k < i && PassSince(r, k, i, c)
    ensures r[i].items[f].useCnt == 0 && r[j].clock + r[i].timeout < r[k].clock
  {
    hide Do, Enabled, Used, PassSince, Listed, Inv;
    RunKeeps(r, i);
    assert Next(r[i], r[i + 1]);
    var a: Action;
    c, a :| Enabled(r[i], c, a) && r[i + 1] == Do(r[i], c, a);
    UnlistedIsOverdue(r[i], c, a, f);
    j := StampIsLastUse(r, i, f);
    k := PassHasStart(r, i, c);
    PassClockIs(r, k, i, c);
  }

  lemma PassClockIs(r: seq<State>, k: nat, i: nat, c: Core)
    requires k < i < |r| && PassSince(r, k, i, c)
    ensures c in r[i].cores && PassClock(r[i].cores[c]) == Some(r[k].clock)
  {
  }

  // ---------------------------------------------------------------------------
  // An undisturbed pass takes every overdue flow

  /** Every core but c is idle. */
  ghost predicate Alone(s: State, c: Core) {
    c in s.cores && forall e :: e in s.cores && e != c ==> s.cores[e].Idle?
  }

  /** In use, or used recently enough. */
  ghost predicate Kept(s: State, f: ItemId, now: nat) {
    f in s.items && (s.items[f].useCnt > 0 || s.items[f].cycle + s.timeout >= now)
  }

  /** Only kept flows are listed in the buckets before b and in the first `pos` places of bucket b. */
  ghost predicate SweptTo(s: State, b: nat, pos: nat, now: nat) {
    forall a, k :: 0 <= a < |s.buckets| && 0 <= k < |s.buckets[a].list| && (a < b || (a == b && k < pos)) ==>
      Kept(s, s.buckets[a].list[k], now)
  }

  /** How far a pass with this clock has come at a position. */
  ghost predicate SweptAt(s: State, pc: Pc, now: nat) {
    match pc
    case Idle => SweptTo(s, BUCKET_NUM, 0, now)
    case AgeBucket(b, n) => n == now && SweptTo(s, b, 0, now)
    case AgeScan(b, n, pos, _) => n == now && SweptTo(s, b, pos, now)
    case AgeTest(b, n, pos, _, _) => n == now && SweptTo(s, b, pos, now)
    case AgeExpire(b, n, pos, _, _) => n == now && SweptTo(s, b, pos, now)
    case AgeKeep(b, n, pos, f, _) => n == now && SweptTo(s, b, pos, now) && Kept(s, f, now)
    case AgeUnlinked(b, n, pos, _, _) => n == now && SweptTo(s, b, pos, now)
    case AgeFree(b, n, _) => n == now && SweptTo(s, b + 1, 0, now)
    case _ => false
  }

  /** With every other core idle, no lock is taken but the pass's own. */
  lemma AloneMeansUnlocked(s: State, c: Core)
    requires Inv(s) && Alone(s, c)
    ensures s.cores[c].AgeBucket? && s.cores[c].b < |s.buckets| ==> s.buckets[s.cores[c].b].lock.None?
    ensures s.cores[c].AgeScan? ==> forall f :: f in s.items ==> s.items[f].lock.None?
  {
    hide BucketsOk, ItemsOk, CountsOk, PacketsOk, AllHoldsOk, AllPcOk, Disjoint, BucketOf, FlowMatch;
    TableSize(s);
    if s.cores[c].AgeBucket? && s.cores[c].b < |s.buckets| {
      BucketFacts(s, s.cores[c].b);
    }
    if s.cores[c].AgeScan? {
      forall f | f in s.items ensures s.items[f].lock.None? {
        ItemFacts(s, f);
      }
    }
  }

  /** Steps that leave lists, counters and stamps alone move no flow across the swept border. */
  lemma SweptStays(s: State, t: State, b: nat, pos: nat, now: nat)
    requires SweptTo(s, b, pos, now) && t.timeout == s.timeout && |t.buckets| == |s.buckets|
    requires forall a :: 0 <= a < |s.buckets| ==> t.buckets[a].list == s.buckets[a].list
    requires forall a, k :: 0 <= a < |s.buckets| && 0 <= k < |s.buckets[a].list| ==>
      var f := s.buckets[a].list[k]; f in s.items ==>
        f in t.items && t.items[f].useCnt == s.items[f].useCnt && t.items[f].cycle == s.items[f].cycle
    ensures SweptTo(t, b, pos, now)
  {
  }

  lemma SweepBucket(s: State, c: Core, now: nat)
    requires Inv(s) && Alone(s, c) && Enabled(s, c, Move) && s.cores[c].AgeBucket? && SweptAt(s, s.cores[c], now)
    ensures var t := Do(s, c, Move); c in t.cores && SweptAt(t, t.cores[c], now)
  {
    hide Inv, MoveDefined;
    TableSize(s);
    AloneMeansUnlocked(s, c);
    var t := Do(s, c, Move);
    AtTableEnd(s, c);
    SweptStays(s, t, s.cores[c].b, 0, now);
  }

  lemma AtTableEnd(s: State, c: Core)
    requires Inv(s) && c in s.cores && s.cores[c].AgeBucket?
    ensures s.cores[c].b <= BUCKET_NUM == |s.buckets|
  {
    hide BucketsOk, ItemsOk, CountsOk, PacketsOk, AllHoldsOk, AllPcOk, Disjoint, BucketOf, FlowMatch;
    CoreFacts(s, c);
  }

  lemma SweepScan(s: State, c: Core, now: nat)
    requires Inv(s) && Alone(s, c) && Enabled(s, c, Move) && s.cores[c].AgeScan? && SweptAt(s, s.cores[c], now)
    ensures var t := Do(s, c, Move); c in t.cores && SweptAt(t, t.cores[c], now)
  {
    hide Inv;
    AloneMeansUnlocked(s, c);
    var pc, t := s.cores[c], Do(s, c, Move);
    SweptStays(s, t, pc.b, pc.pos, now);
    if pc.pos == |s.buckets[pc.b].list| {
      assert SweptTo(t, pc.b + 1, 0, now);
    }
  }

  lemma SweepDecide(s: State, c: Core, now: nat)
    requires Inv(s) && Alone(s, c) && Enabled(s, c, Move) && (s.cores[c].AgeTest? || s.cores[c].AgeExpire?) && SweptAt(s, s.cores[c], now)
    ensures var t := Do(s, c, Move); c in t.cores && SweptAt(t, t.cores[c], now)
  {
    hide Inv;
    var pc, t := s.cores[c], Do(s, c, Move);
    if pc.AgeTest? {
      SweptStays(s, t, pc.b, pc.pos, now);
    } else if Expired(pc.now, s.items[pc.f].cycle, s.timeout) {
      SweptUnlinked(s, t, pc.b, pc.pos, now);
    } else {
      SweptStays(s, t, pc.b, pc.pos, now);
    }
  }

  lemma SweptUnlinked(s: State, t: State, b: nat, pos: nat, now: nat)
    requires SweptTo(s, b, pos, now) && t.items == s.items && t.timeout == s.timeout && b < |s.buckets| && pos < |s.buckets[b].list|
    requires t.buckets == s.buckets[b := s.buckets[b].(list := s.buckets[b].list[..pos] + s.buckets[b].list[pos + 1..])]
    ensures SweptTo(t, b, pos, now)
  {
  }

  lemma SweepUnlock(s: State, c: Core, now: nat)
    requires Inv(s) && Alone(s, c) && Enabled(s, c, Move) && (s.cores[c].AgeKeep? || s.cores[c].AgeUnlinked?) && SweptAt(s, s.cores[c], now)
    ensures var t := Do(s, c, Move); c in t.cores && SweptAt(t, t.cores[c], now)
  {
    hide Inv;
    var pc, t := s.cores[c], Do(s, c, Move);
    SweptStays(s, t, pc.b, pc.pos, now);
    if pc.AgeKeep? {
      VisitedEntry(s, c);
      assert Kept(t, pc.f, now);
      assert SweptTo(t, pc.b, pc.pos + 1, now);
    }
  }

  lemma VisitedEntry(s: State, c: Core)
    requires Inv(s) && c in s.cores && s.cores[c].AgeKeep?
    ensures var pc := s.cores[c]; pc.b < |s.buckets| && pc.pos < |s.buckets[pc.b].list| && s.buckets[pc.b].list[pc.pos] == pc.f
  {
    hide BucketsOk, ItemsOk, CountsOk, PacketsOk, AllHoldsOk, AllPcOk, Disjoint, BucketOf, FlowMatch;
    CoreFacts(s, c);
  }

  lemma SweepFree(s: State, c: Core, now: nat)
    requires Inv(s) && Alone(s, c) && Enabled(s, c, Move) && s.cores[c].AgeFree? && SweptAt(s, s.cores[c], now)
    ensures var t := Do(s, c, Move); c in t.cores && SweptAt(t, t.cores[c], now)
  {
    hide Inv, MoveDefined;
    var pc, t := s.cores[c], Do(s, c, Move);
    if pc.dead != [] {
      assert pc.dead[0] in SeqSet(pc.dead);
      PrivateIsOffLists(s, c, pc.dead[0]);
    }
    SweptStays(s, t, pc.b + 1, 0, now);
  }

  lemma PrivateIsOffLists(s: State, c: Core, f: ItemId)
    requires Inv(s) && c in s.cores && f in Private(s.cores[c])
    ensures forall a, k :: 0 <= a < |s.buckets| && 0 <= k < |s.buckets[a].list| ==> s.buckets[a].list[k] != f
  {
    hide BucketsOk, ItemsOk, CountsOk, PacketsOk, AllHoldsOk, AllPcOk, Disjoint, BucketOf, PcOk, Private;
    CoreFacts(s, c);
    PrivateIsUnlisted(s, c, f);
  }

  /** One step of an undisturbed pass carries the swept border along. */
  lemma SweepStep(s: State, c: Core, now: nat)
    requires Inv(s) && Alone(s, c) && Enabled(s, c, Move) && SweptAt(s, s.cores[c], now)
    ensures var t := Do(s, c, Move); Inv(t) && Alone(t, c) && SweptAt(t, t.cores[c], now)
  {
    hide Inv, MoveDefined, Do, SweptTo, Kept;
    StepKeeps(s, c, Move);
    OthersStay(s, c, Move);
    match s.cores[c]
    case AgeBucket(_, _) => SweepBucket(s, c, now);
    case AgeScan(_, _, _, _) => SweepScan(s, c, now);
    case AgeTest(_, _, _, _, _) => SweepDecide(s, c, now);
    case AgeExpire(_, _, _, _, _) => SweepDecide(s, c, now);
    case AgeKeep(_, _, _, _, _) => SweepUnlock(s, c, now);
    case AgeUnlinked(_, _, _, _, _) => SweepUnlock(s, c, now);
    case AgeFree(_, _, _) => SweepFree(s, c, now);
  }

  /** States in which core c alone takes one step after the other. */
  ghost predicate Solo(r: seq<State>, c: Core) {
    r != [] && forall i :: 0 <= i < |r| - 1 ==> Enabled(r[i], c, Move) && r[i + 1] == Do(r[i], c, Move)
  }

  /**
   A pass that starts with every other core idle and runs undisturbed leaves no overdue flow behind: when the
   core is idle again, every listed flow is in use or was used within the timeout before the pass started.
   */
  lemma {:induction false} PassTakesAllOverdue(r: seq<State>, c: Core, now: nat, i: nat)
    requires Solo(r, c) && Inv(r[0]) && Alone(r[0], c) && r[0].cores[c] == AgeBucket(0, now) && i < |r|
    ensures Inv(r[i]) && Alone(r[i], c) && SweptAt(r[i], r[i].cores[c], now)
    ensures r[i].cores[c].Idle? ==>
      forall a, k :: 0 <= a < BUCKET_NUM && a < |r[i].buckets| && 0 <= k < |r[i].buckets[a].list| ==>
        Kept(r[i], r[i].buckets[a].list[k], now) && !Overdue(r[i], r[i].buckets[a].list[k], now)
    decreases i
  {
    hide Inv, Do, Enabled;
    if i > 0 {
      PassTakesAllOverdue(r, c, now, i - 1);
      assert Enabled(r[i - 1], c, Move) && r[i - 1 + 1] == Do(r[i - 1], c, Move);
      SweepStep(r[i - 1], c, now);
    }
  }

  /** What is left of a pass: buckets, then scanning or freeing, then entries, then the visit's own steps. */
  ghost function BucketsLeft(pc: Pc): nat {
    match pc
    case AgeBucket(b, _) => if b <= BUCKET_NUM then BUCKET_NUM - b + 1 else 0
    case AgeScan(b, _, _, _) => if b <= BUCKET_NUM then BUCKET_NUM - b + 1 else 0
    case AgeTest(b, _, _, _, _) => if b <= BUCKET_NUM then BUCKET_NUM - b + 1 else 0
    case AgeExpire(b, _, _, _, _) => if b <= BUCKET_NUM then BUCKET_NUM - b + 1 else 0
    case AgeKeep(b, _, _, _, _) => if b <= BUCKET_NUM then BUCKET_NUM - b + 1 else 0
    case AgeUnlinked(b, _, _, _, _) => if b <= BUCKET_NUM then BUCKET_NUM - b + 1 else 0
    case AgeFree(b, _, _) => if b <= BUCKET_NUM then BUCKET_NUM - b + 1 else 0
    case _ => 0
  }

  function Phase(pc: Pc): nat {
    if pc.AgeBucket? then 2 else if pc.AgeFree? then 0 else 1
  }

  ghost function EntriesLeft(s: State, pc: Pc): nat {
    match pc
    case AgeScan(b, _, pos, _) => Rest(s, b, pos)
    case AgeTest(b, _, pos, _, _) => Rest(s, b, pos)
    case AgeExpire(b, _, pos, _, _) => Rest(s, b, pos)
    case AgeKeep(b, _, pos, _, _) => Rest(s, b, pos)
    case AgeUnlinked(b, _, pos, _, _) => Rest(s, b, pos)
    case AgeFree(_, _, dead) => |dead|
    case _ => 0
  }

  ghost function Rest(s: State, b: nat, pos: nat): nat {
    if b < |s.buckets| && pos <= |s.buckets[b].list| then |s.buckets[b].list| - pos else 0
  }

  function VisitSteps(pc: Pc): nat {
    if pc.AgeUnlinked? then 4 else if pc.AgeScan? then 3 else if pc.AgeTest? then 2 else if pc.AgeExpire? then 1 else 0
  }

  ghost predicate LessLeft(t: State, qc: Pc, s: State, pc: Pc) {
    || BucketsLeft(qc) < BucketsLeft(pc)
    || (BucketsLeft(qc) == BucketsLeft(pc) && Phase(qc) < Phase(pc))
    || (BucketsLeft(qc) == BucketsLeft(pc) && Phase(qc) == Phase(pc) && EntriesLeft(t, qc) < EntriesLeft(s, pc))
    || (BucketsLeft(qc) == BucketsLeft(pc) && Phase(qc) == Phase(pc) && EntriesLeft(t, qc) == EntriesLeft(s, pc)
        && VisitSteps(qc) < VisitSteps(pc))
  }

  /** Every step of a pass leaves less of it. */
  lemma PassProgresses(s: State, c: Core)
    requires Inv(s) && Enabled(s, c, Move) && PassClock(s.cores[c]).Some?
    ensures c in Do(s, c, Move).cores && LessLeft(Do(s, c, Move), Do(s, c, Move).cores[c], s, s.cores[c])
    ensures var t := Do(s, c, Move); PassClock(t.cores[c]).Some? || t.cores[c].Idle?
  {
    hide BucketsOk, ItemsOk, CountsOk, PacketsOk, AllHoldsOk, AllPcOk, Disjoint, BucketOf, FlowMatch, Expired;
    CoreFacts(s, c);
    hide Inv, HoldsOk, MoveDefined;
  }

  /** So a pass left to itself always comes to its end. */
  lemma {:induction false} PassCompletes(s: State, c: Core) returns (r: seq<State>)
    requires Inv(s) && c in s.cores && (PassClock(s.cores[c]).Some? || s.cores[c].Idle?)
    ensures Solo(r, c) && r[0] == s && c in r[|r| - 1].cores && r[|r| - 1].cores[c].Idle?
    decreases BucketsLeft(s.cores[c]), Phase(s.cores[c]), EntriesLeft(s, s.cores[c]), VisitSteps(s.cores[c])
  {
    hide Inv, Do, BucketsLeft, Phase, EntriesLeft, VisitSteps, MoveDefined;
    if s.cores[c].Idle? {
      r := [s];
    } else {
      MovesAreDefined(s, c);
      assert Enabled(s, c, Move);
      PassProgresses(s, c);
      StepKeeps(s, c, Move);
      var rest := PassCompletes(Do(s, c, Move), c);
      r := [s] + rest;
      hide Enabled;
      assert forall i :: 0 < i < |r| ==> r[i] == rest[i - 1];
    }
  }

  // ---------------------------------------------------------------------------
  // What handling a packet achieves

  /**
   A packet leaves the core that handles it attached to a flow of its conversation, unless no flow could be
   allocated, in which case it is destroyed.
   */
  lemma HandledPacketIsAttached(s: State, c: Core, a: Action, p: PktId)
    requires Inv(s) && Enabled(s, c, a) && |Do(s, c, a).buckets| == BUCKET_NUM
    requires c in s.cores && PacketHeld(s.cores[c]) == Some(p) && !s.cores[c].Detaching?
    requires c in Do(s, c, a).cores && PacketHeld(Do(s, c, a).cores[c]) != Some(p)
    ensures var t := Do(s, c, a);
      || (a.AllocFail? && p !in t.pkts)
      || (p in t.pkts && t.pkts[p].live && t.pkts[p].owner.None? && t.pkts[p].flow.Some? && Conversation(t, p, t.pkts[p].flow.value))
  {
    hide BucketsOk, ItemsOk, CountsOk, PacketsOk, AllHoldsOk, AllPcOk, Disjoint, BucketOf, FlowMatch;
    CoreFacts(s, c);
    if a.Move? && !s.cores[c].Releasing? {
      LeavesOnlyWhenReleasing(s, c);
    }
  }

  lemma LeavesOnlyWhenReleasing(s: State, c: Core)
    requires Enabled(s, c, Move) && PacketHeld(s.cores[c]).Some? && !s.cores[c].Detaching? && !s.cores[c].Releasing?
    ensures var t := Do(s, c, Move); c in t.cores && PacketHeld(t.cores[c]) == PacketHeld(s.cores[c])
  {
    hide BucketOf, FlowMatch;
  }
}
