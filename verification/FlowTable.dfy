/**
 The flow table as a protocol: any number of cores handle packets, destroy packets and run the ageing
 callback, one atomic access to shared memory per step. Bucket and item locks are spinlocks: a core
 that finds one taken does not move.
 */
module FlowTable {
  import opened Wrappers
  import opened Collections
  import opened FlowHash

  type Core = nat
  type ItemId = nat
  type PktId = nat

  datatype Bucket = Bucket(lock: Option<Core>, list: seq<ItemId>)

  /** flow_item_t */
  datatype Item = Item(key: Tuple, lock: Option<Core>, cycle: nat, useCnt: int)

  /** The parts of mbuf_t that matter here. `live` ends when mbuf_free drops the flow reference. */
  datatype Packet = Packet(key: Tuple, flow: Option<ItemId>, live: bool, owner: Option<Core>)

  /** Where a core stands. `mine` is an item this core has allocated and not yet inserted. */
  datatype Pc =
    | Idle
    // FlowGetFlowFromHash and FlowAdd
    | WantBucket(p: PktId, b: nat, mine: Option<ItemId>)
    | Scanning(p: PktId, b: nat, pos: nat, mine: Option<ItemId>)
    | Found(p: PktId, b: nat, f: ItemId, mine: Option<ItemId>)
    | Locked(p: PktId, b: nat, f: ItemId, mine: Option<ItemId>)
    | Missed(p: PktId, b: nat)
    | Allocating(p: PktId, b: nat)
    | Inserting(p: PktId, b: nat, f: ItemId)
    | Inserted(p: PktId, b: nat, f: ItemId)
    | Discarding(p: PktId, f: ItemId, extra: ItemId)
    // FlowHandlePacket after the lookup
    | Referencing(p: PktId, f: ItemId)
    | Attaching(p: PktId, f: ItemId)
    | Releasing(p: PktId, f: ItemId)
    // mbuf_free
    | Detaching(p: PktId)
    // FlowAgeTimeoutCB
    | AgeBucket(b: nat, now: nat)
    | AgeScan(b: nat, now: nat, pos: nat, dead: seq<ItemId>)
    | AgeTest(b: nat, now: nat, pos: nat, f: ItemId, dead: seq<ItemId>)
    | AgeExpire(b: nat, now: nat, pos: nat, f: ItemId, dead: seq<ItemId>)
    | AgeKeep(b: nat, now: nat, pos: nat, f: ItemId, dead: seq<ItemId>)
    | AgeUnlinked(b: nat, now: nat, pos: nat, f: ItemId, dead: seq<ItemId>)
    | AgeFree(b: nat, now: nat, dead: seq<ItemId>)

  datatype State = State(buckets: seq<Bucket>, items: map<ItemId, Item>, pkts: map<PktId, Packet>,
                         cores: map<Core, Pc>, clock: nat, timeout: nat)

  // ---------------------------------------------------------------------------
  // What a core holds

  function BucketHeld(pc: Pc): Option<nat> {
    match pc
    case Scanning(_, b, _, _) => Some(b)
    case Found(_, b, _, _) => Some(b)
    case Locked(_, b, _, _) => Some(b)
    case Missed(_, b) => Some(b)
    case Inserting(_, b, _) => Some(b)
    case Inserted(_, b, _) => Some(b)
    case AgeScan(b, _, _, _) => Some(b)
    case AgeTest(b, _, _, _, _) => Some(b)
    case AgeExpire(b, _, _, _, _) => Some(b)
    case AgeKeep(b, _, _, _, _) => Some(b)
    case AgeUnlinked(b, _, _, _, _) => Some(b)
    case _ => None
  }

  function OptSet(o: Option<ItemId>): set<ItemId> {
    if o.Some? then {o.value} else {}
  }

  function ItemsHeld(pc: Pc): set<ItemId> {
    match pc
    case WantBucket(_, _, mine) => OptSet(mine)
    case Scanning(_, _, _, mine) => OptSet(mine)
    case Found(_, _, _, mine) => OptSet(mine)
    case Locked(_, _, f, mine) => {f} + OptSet(mine)
    case Inserting(_, _, f) => {f}
    case Inserted(_, _, f) => {f}
    case Discarding(_, f, extra) => {f, extra}
    case Referencing(_, f) => {f}
    case Attaching(_, f) => {f}
    case Releasing(_, f) => {f}
    case AgeTest(_, _, _, f, _) => {f}
    case AgeExpire(_, _, _, f, _) => {f}
    case AgeKeep(_, _, _, f, _) => {f}
    case AgeUnlinked(_, _, _, f, _) => {f}
    case _ => {}
  }

  function PacketHeld(pc: Pc): Option<PktId> {
    match pc
    case WantBucket(p, _, _) => Some(p)
    case Scanning(p, _, _, _) => Some(p)
    case Found(p, _, _, _) => Some(p)
    case Locked(p, _, _, _) => Some(p)
    case Missed(p, _) => Some(p)
    case Allocating(p, _) => Some(p)
    case Inserting(p, _, _) => Some(p)
    case Inserted(p, _, _) => Some(p)
    case Discarding(p, _, _) => Some(p)
    case Referencing(p, _) => Some(p)
    case Attaching(p, _) => Some(p)
    case Releasing(p, _) => Some(p)
    case Detaching(p) => Some(p)
    case _ => None
  }

  /** Allocated items only this core knows: not yet inserted, or already unlinked and to be freed. */
  function Private(pc: Pc): set<ItemId> {
    match pc
    case WantBucket(_, _, mine) => OptSet(mine)
    case Scanning(_, _, _, mine) => OptSet(mine)
    case Found(_, _, _, mine) => OptSet(mine)
    case Locked(_, _, _, mine) => OptSet(mine)
    case Inserting(_, _, f) => {f}
    case Discarding(_, _, extra) => {extra}
    case AgeScan(_, _, _, dead) => SeqSet(dead)
    case AgeTest(_, _, _, _, dead) => SeqSet(dead)
    case AgeExpire(_, _, _, _, dead) => SeqSet(dead)
    case AgeKeep(_, _, _, _, dead) => SeqSet(dead)
    case AgeUnlinked(_, _, _, f, dead) => {f} + SeqSet(dead)
    case AgeFree(_, _, dead) => SeqSet(dead)
    case _ => {}
  }

  function DeadList(pc: Pc): seq<ItemId> {
    match pc
    case AgeScan(_, _, _, dead) => dead
    case AgeTest(_, _, _, _, dead) => dead
    case AgeExpire(_, _, _, _, dead) => dead
    case AgeKeep(_, _, _, _, dead) => dead
    case AgeUnlinked(_, _, _, _, dead) => dead
    case AgeFree(_, _, dead) => dead
    case _ => []
  }

  /** Items this core reached through a lookup and is still using. */
  function LookedUp(pc: Pc): set<ItemId> {
    match pc
    case Found(_, _, f, _) => {f}
    case Locked(_, _, f, _) => {f}
    case Inserted(_, _, f) => {f}
    case Discarding(_, f, _) => {f}
    case Referencing(_, f) => {f}
    case Attaching(_, f) => {f}
    case Releasing(_, f) => {f}
    case _ => {}
  }

  // ---------------------------------------------------------------------------
  // Steps

  function Go(s: State, c: Core, pc: Pc): State {
    s.(cores := s.cores[c := pc])
  }

  function SetBucketLock(s: State, b: nat, l: Option<Core>): State
    requires b < |s.buckets|
  {
    s.(buckets := s.buckets[b := s.buckets[b].(lock := l)])
  }

  function SetList(s: State, b: nat, list: seq<ItemId>): State
    requires b < |s.buckets|
  {
    s.(buckets := s.buckets[b := s.buckets[b].(list := list)])
  }

  function SetItemLock(s: State, f: ItemId, l: Option<Core>): State
    requires f in s.items
  {
    s.(items := s.items[f := s.items[f].(lock := l)])
  }

  function AddUse(s: State, f: ItemId, n: int): State
    requires f in s.items
  {
    s.(items := s.items[f := s.items[f].(useCnt := s.items[f].useCnt + n)])
  }

  function FreeItem(s: State, f: ItemId): State {
    s.(items := s.items - {f})
  }

  function SetPacket(s: State, p: PktId, m: Packet): State {
    s.(pkts := s.pkts[p := m])
  }

  function FreePacket(s: State, p: PktId): State {
    s.(pkts := s.pkts - {p})
  }

  /** An action of one core; Arrive and Tick are the environment's. */
  datatype Action =
    | Arrive(p: PktId, key: Tuple)
    | Tick(clock: nat)
    | Begin(p: PktId)
    | Destroy(p: PktId)
    | AgeStart
    | Alloc(f: ItemId)
    | AllocFail
    | Move

  /** Whether the next access of a core at `pc` can happen now; spinlocks wait, try-locks do not. */
  ghost predicate CanMove(s: State, pc: Pc) {
    match pc
    case Idle => false
    case Allocating(_, _) => false
    case WantBucket(_, b, _) => b < |s.buckets| && s.buckets[b].lock.None?
    case Found(_, _, f, _) => f in s.items && s.items[f].lock.None?
    case _ => true
  }

  ghost predicate Enabled(s: State, c: Core, a: Action) {
    match a
    case Arrive(p, _) => p !in s.pkts
    case Tick(t) => s.clock <= t
    case Begin(p) => c in s.cores && s.cores[c].Idle? && p in s.pkts && s.pkts[p].live && s.pkts[p].owner.None?
    case Destroy(p) => c in s.cores && s.cores[c].Idle? && p in s.pkts && s.pkts[p].live && s.pkts[p].owner.None?
    case AgeStart => c in s.cores && s.cores[c].Idle?
    case Alloc(f) => c in s.cores && s.cores[c].Allocating? && s.cores[c].p in s.pkts && f !in s.items
    case AllocFail => c in s.cores && s.cores[c].Allocating?
    case Move => c in s.cores && CanMove(s, s.cores[c]) && MoveDefined(s, s.cores[c])
  }

  /** The pointers the next access follows are valid; the invariant below always provides this. */
  ghost predicate MoveDefined(s: State, pc: Pc) {
    && (BucketHeld(pc).Some? ==> BucketHeld(pc).value < |s.buckets|)
    && (forall f :: f in ItemsHeld(pc) ==> f in s.items)
    && (PacketHeld(pc).Some? ==> PacketHeld(pc).value in s.pkts)
    && (pc.WantBucket? ==> pc.b < |s.buckets|)
    && (pc.AgeBucket? ==> pc.b <= |s.buckets|)
    && (pc.Found? ==> pc.f in s.items)
    && (pc.Scanning? ==> pc.pos <= |s.buckets[pc.b].list| && forall i :: pc.pos <= i < |s.buckets[pc.b].list| ==> s.buckets[pc.b].list[i] in s.items)
    && (pc.AgeScan? ==> pc.pos <= |s.buckets[pc.b].list| && forall i :: pc.pos <= i < |s.buckets[pc.b].list| ==> s.buckets[pc.b].list[i] in s.items)
    && (pc.AgeExpire? ==> pc.pos < |s.buckets[pc.b].list|)
  }

  /** FlowFind, one list entry per step: stop at the first match and stamp it. */
  ghost function DoScan(s: State, c: Core, pc: Pc): State
    requires pc.Scanning? && MoveDefined(s, pc)
  {
    var list := s.buckets[pc.b].list;
    if pc.pos == |list| then
      Go(s, c, if pc.mine.None? then Missed(pc.p, pc.b) else Inserting(pc.p, pc.b, pc.mine.value))
    else if FlowMatch(s.items[list[pc.pos]].key, s.pkts[pc.p].key) then
      var f := list[pc.pos];
      Go(s.(items := s.items[f := s.items[f].(cycle := s.clock)]), c, Found(pc.p, pc.b, f, pc.mine))
    else
      Go(s, c, Scanning(pc.p, pc.b, pc.pos + 1, pc.mine))
  }

  /** The step of the packet path at `pc`. */
  ghost function DoPacketStep(s: State, c: Core, pc: Pc): State
    requires CanMove(s, pc) && MoveDefined(s, pc) && PacketHeld(pc).Some?
  {
    match pc
    case WantBucket(p, b, mine) => Go(SetBucketLock(s, b, Some(c)), c, Scanning(p, b, 0, mine))
    case Scanning(_, _, _, _) => DoScan(s, c, pc)
    case Found(p, b, f, mine) => Go(SetItemLock(s, f, Some(c)), c, Locked(p, b, f, mine))
    case Locked(p, b, f, mine) =>
      Go(SetBucketLock(s, b, None), c, if mine.None? then Referencing(p, f) else Discarding(p, f, mine.value))
    case Missed(p, b) => Go(SetBucketLock(s, b, None), c, Allocating(p, b))
    case Inserting(p, b, f) => Go(SetList(s, b, [f] + s.buckets[b].list), c, Inserted(p, b, f))
    case Inserted(p, b, f) => Go(SetBucketLock(s, b, None), c, Referencing(p, f))
    case Discarding(p, f, extra) => Go(FreeItem(s, extra), c, Referencing(p, f))
    case Referencing(p, f) =>
      if s.pkts[p].flow == Some(f) then Go(s, c, Releasing(p, f))
      else Go(AddUse(s, f, 1), c, Attaching(p, f))
    case Attaching(p, f) => Go(SetPacket(s, p, s.pkts[p].(flow := Some(f))), c, Releasing(p, f))
    case Releasing(p, f) => Go(SetPacket(SetItemLock(s, f, None), p, s.pkts[p].(owner := None)), c, Idle)
    case Detaching(p) => Go(FreePacket(s, p), c, Idle)
  }

  /** FlowTimeOut's time test. */
  predicate Expired(now: nat, cycle: nat, timeout: nat) {
    now > cycle && now - cycle > timeout
  }

  ghost function DoAgeVisit(s: State, c: Core, pc: Pc): State
    requires pc.AgeScan? && MoveDefined(s, pc)
  {
    var list := s.buckets[pc.b].list;
    if pc.pos == |list| then Go(SetBucketLock(s, pc.b, None), c, AgeFree(pc.b, pc.now, pc.dead))
    else
      var f := list[pc.pos];
      if s.items[f].lock.None? then Go(SetItemLock(s, f, Some(c)), c, AgeTest(pc.b, pc.now, pc.pos, f, pc.dead))
      else Go(s, c, AgeScan(pc.b, pc.now, pc.pos + 1, pc.dead))
  }

  /** The step of the ageing path at `pc`. */
  ghost function DoAgeStep(s: State, c: Core, pc: Pc): State
    requires CanMove(s, pc) && MoveDefined(s, pc) && PacketHeld(pc).None?
  {
    match pc
    case AgeBucket(b, now) =>
      if b == |s.buckets| then Go(s, c, Idle)
      else if s.buckets[b].lock.None? then Go(SetBucketLock(s, b, Some(c)), c, AgeScan(b, now, 0, []))
      else Go(s, c, AgeBucket(b + 1, now))
    case AgeScan(_, _, _, _) => DoAgeVisit(s, c, pc)
    case AgeTest(b, now, pos, f, dead) =>
      Go(s, c, if s.items[f].useCnt > 0 then AgeKeep(b, now, pos, f, dead) else AgeExpire(b, now, pos, f, dead))
    case AgeExpire(b, now, pos, f, dead) =>
      if Expired(now, s.items[f].cycle, s.timeout) then
        var list := s.buckets[b].list;
        Go(SetList(s, b, list[..pos] + list[pos + 1..]), c, AgeUnlinked(b, now, pos, f, dead))
      else Go(s, c, AgeKeep(b, now, pos, f, dead))
    case AgeKeep(b, now, pos, f, dead) => Go(SetItemLock(s, f, None), c, AgeScan(b, now, pos + 1, dead))
    case AgeUnlinked(b, now, pos, f, dead) => Go(SetItemLock(s, f, None), c, AgeScan(b, now, pos, [f] + dead))
    case AgeFree(b, now, dead) =>
      if dead == [] then Go(s, c, AgeBucket(b + 1, now))
      else Go(FreeItem(s, dead[0]), c, AgeFree(b, now, dead[1..]))
  }

  /** mbuf_free on a packet nobody is handling: drop its flow reference first. */
  ghost function DoDestroy(s: State, c: Core, p: PktId): State
    requires p in s.pkts
  {
    var m := s.pkts[p];
    if m.flow.None? then FreePacket(s, p)
    else if m.flow.value in s.items then
      Go(SetPacket(AddUse(s, m.flow.value, -1), p, m.(live := false, owner := Some(c))), c, Detaching(p))
    else s
  }

  ghost function Do(s: State, c: Core, a: Action): State
    requires Enabled(s, c, a)
  {
    match a
    case Arrive(p, key) => SetPacket(s, p, Packet(key, None, true, None))
    case Tick(t) => s.(clock := t)
    case Begin(p) => Go(SetPacket(s, p, s.pkts[p].(owner := Some(c))), c, WantBucket(p, BucketOf(s.pkts[p].key), None))
    case Destroy(p) => DoDestroy(s, c, p)
    case AgeStart => Go(s, c, AgeBucket(0, s.clock))
    case Alloc(f) =>
      var pc := s.cores[c];
      Go(s.(items := s.items[f := Item(s.pkts[pc.p].key, Some(c), s.clock, 0)]), c, WantBucket(pc.p, pc.b, Some(f)))
    case AllocFail => Go(FreePacket(s, s.cores[c].p), c, Idle)
    case Move =>
      var pc := s.cores[c];
      if PacketHeld(pc).Some? then DoPacketStep(s, c, pc) else DoAgeStep(s, c, pc)
  }
}
