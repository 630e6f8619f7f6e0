/** A fragment block over its whole life, and which fragments it accepts. */
module DefragRuns {
  import opened Wrappers
  import opened Arithmetic
  import opened Checksum
  import opened Defrag

  // ---------------------------------------------------------------------------
  // Runs of one block

  datatype Arrival = Arrival(frag: Frag, room: nat)

  predicate AllArrivals(ins: seq<Arrival>) {
    forall i :: 0 <= i < |ins| ==> Decoded(ins[i].frag)
  }

  /** The block after the fragments `ins` arrived, from a fresh one: valid in every reachable state. */
  function BlockAfter(ins: seq<Arrival>): (b: Block)
    requires AllArrivals(ins)
    ensures Valid(b)
  {
    if ins == [] then Fresh
    else
      var last := ins[|ins| - 1];
      var b := BlockAfter(ins[..|ins| - 1]);
      StepKeepsValid(b, last.frag, last.room);
      Step(b, last.frag, last.room).block
  }

  function ResultAt(ins: seq<Arrival>, i: nat): Result
    requires AllArrivals(ins) && i < |ins|
  {
    Step(BlockAfter(ins[..i]), ins[i].frag, ins[i].room)
  }

  lemma AfterOneMore(ins: seq<Arrival>, i: nat)
    requires AllArrivals(ins) && i < |ins|
    ensures BlockAfter(ins[..i + 1]) == ResultAt(ins, i).block
  {
    hide SumLen, Ordered, Within, Decoded, Step;
    assert ins[..i + 1][..i] == ins[..i];
  }

  lemma {:induction false} SpentForGood(ins: seq<Arrival>, i: nat, j: nat)
    requires AllArrivals(ins) && i <= j <= |ins| && Spent(BlockAfter(ins[..i]))
    ensures Spent(BlockAfter(ins[..j]))
    decreases j
  {
    hide SumLen, Ordered, Within, Decoded, Step, BlockAfter;
    if i < j {
      SpentForGood(ins, i, j - 1);
      AfterOneMore(ins, j - 1);
      SpentStaysSpent(BlockAfter(ins[..j - 1]), ins[j - 1].frag, ins[j - 1].room);
    }
  }

  /** A block attempts reassembly at most once in its life, whether or not the attempt succeeds. */
  lemma AtMostOneAttempt(ins: seq<Arrival>, i: nat, j: nat)
    requires AllArrivals(ins) && i < j < |ins| && ResultAt(ins, i).attempted
    ensures !ResultAt(ins, j).attempted && ResultAt(ins, j).packet == None
  {
    hide SumLen, Ordered, Within, Decoded, Step, BlockAfter;
    AttemptSpends(BlockAfter(ins[..i]), ins[i].frag, ins[i].room);
    AfterOneMore(ins, i);
    SpentForGood(ins, i + 1, j);
    SpentStaysSpent(BlockAfter(ins[..j]), ins[j].frag, ins[j].room);
  }

  /** The buffers handed in, and the buffers destroyed so far. */
  function Received(ins: seq<Arrival>): multiset<Frag> {
    if ins == [] then multiset{} else Received(ins[..|ins| - 1]) + multiset{ins[|ins| - 1].frag}
  }

  function Released(ins: seq<Arrival>): multiset<Frag>
    requires AllArrivals(ins)
  {
    if ins == [] then multiset{}
    else Released(ins[..|ins| - 1]) + multiset(ResultAt(ins, |ins| - 1).released)
  }

  lemma StepConserves(b: Block, f: Frag, room: nat)
    requires Decoded(f) && AllDecoded(b.frags)
    ensures multiset(b.frags) + multiset{f} == multiset(Step(b, f, room).block.frags) + multiset(Step(b, f, room).released)
  {
    hide Reassembles, NeighboursClear, Decoded, FixHeader, Payloads, Announce, Fires;
    if Announce(b, f).Some? {
      AnnounceFacts(b, f);
      InsertConserves(b.frags, Slot(b.frags, f.offset), f);
    }
  }

  lemma InsertConserves(fs: seq<Frag>, k: nat, f: Frag)
    requires k <= |fs|
    ensures multiset(fs[..k] + [f] + fs[k..]) == multiset(fs) + multiset{f}
  {
    assert fs == fs[..k] + fs[k..];
  }

  /** Every buffer received is either stored exactly once or was destroyed exactly once. */
  lemma {:induction false} BuffersAreConserved(ins: seq<Arrival>)
    requires AllArrivals(ins)
    ensures Received(ins) == multiset(BlockAfter(ins).frags) + Released(ins)
  {
    hide SumLen, Ordered, Within, Decoded, Step;
    if ins != [] {
      var n := |ins| - 1;
      BuffersAreConserved(ins[..n]);
      StepConserves(BlockAfter(ins[..n]), ins[n].frag, ins[n].room);
      var r := ResultAt(ins, n);
      assert BlockAfter(ins) == r.block;
      assert Received(ins) == multiset(BlockAfter(ins[..n]).frags) + multiset{ins[n].frag} + Released(ins[..n]);
    }
  }

  // ---------------------------------------------------------------------------
  // Which fragments are accepted

  predicate Apart(f: Frag, g: Frag) {
    End(f) <= g.offset || End(g) <= f.offset
  }

  /** Fragments before position m start before f and are shorter than f's offset; the one at m does and is neither. */
  predicate SplitsAt(fs: seq<Frag>, f: Frag, m: nat)
    requires m <= |fs|
  {
    && (forall i :: 0 <= i < m ==> fs[i].offset < f.offset && Len(fs[i]) < f.offset)
    && (m < |fs| ==> fs[m].offset >= f.offset && Len(fs[m]) >= f.offset)
  }

  /** The search by length stops where a search by offset would. */
  predicate SearchStops(fs: seq<Frag>, f: Frag) {
    exists m :: 0 <= m <= |fs| && SplitsAt(fs, f, m)
  }

  /** The length checks refuse f: it contradicts the end already announced, or announces one short of what was seen. */
  predicate LengthRefused(b: Block, f: Frag) {
    || (LastIn in b.lastIn && (!f.more || End(f) > b.total))
    || (!f.more && End(f) < b.total)
  }

  /**
   For every block and fragment: it is stored - its length counted - exactly when the length checks do not
   refuse it, it overlaps no stored fragment, and it starts after the last one or the search stops at the
   right place. Otherwise it is destroyed and the stored fragments stay.
   */
  lemma AcceptedIff(b: Block, f: Frag, room: nat)
    requires Valid(b) && Decoded(f)
    ensures Accepted(b, f) <==>
            && !LengthRefused(b, f)
            && (forall i :: 0 <= i < |b.frags| ==> Apart(f, b.frags[i]))
            && (b.frags == [] || b.frags[|b.frags| - 1].offset < f.offset || SearchStops(b.frags, f))
    ensures Accepted(b, f) ==> Step(b, f, room).block.meat == b.meat + Len(f)
    ensures !Accepted(b, f) ==>
              var r := Step(b, f, room); r.released == [f] && r.block.meat == b.meat && r.block.frags == b.frags
  {
    hide SumLen, Ordered, Within, SearchStops, Reassembles, Decoded, FixHeader, Payloads;
    LengthRefusedIff(b, f);
    SlotIff(b, f);
    if Announce(b, f).Some? {
      AnnounceFacts(b, f);
    }
  }

  /** The branches of the length checks, taken together. */
  lemma LengthRefusedIff(b: Block, f: Frag)
    ensures Announce(b, f) == None <==> LengthRefused(b, f)
  {
  }

  lemma SlotIff(b: Block, f: Frag)
    requires Valid(b) && Decoded(f)
    ensures NeighboursClear(b.frags, Slot(b.frags, f.offset), f) <==>
            && (forall i :: 0 <= i < |b.frags| ==> Apart(f, b.frags[i]))
            && (b.frags == [] || b.frags[|b.frags| - 1].offset < f.offset || SearchStops(b.frags, f))
  {
    hide SumLen;
    var fs := b.frags;
    if fs != [] && fs[|fs| - 1].offset >= f.offset {
      SearchSlotIff(fs, f);
    } else {
      TailSlotIff(fs, f);
    }
  }

  lemma TailSlotIff(fs: seq<Frag>, f: Frag)
    requires Ordered(fs) && AllDecoded(fs) && Decoded(f) && (fs == [] || fs[|fs| - 1].offset < f.offset)
    ensures NeighboursClear(fs, |fs|, f) <==> forall i :: 0 <= i < |fs| ==> Apart(f, fs[i])
  {
    if fs != [] && Apart(f, fs[|fs| - 1]) {
      assert End(fs[|fs| - 1]) <= f.offset;
    }
  }

  lemma SearchSlotIff(fs: seq<Frag>, f: Frag)
    requires Ordered(fs) && AllDecoded(fs) && Decoded(f) && fs != [] && fs[|fs| - 1].offset >= f.offset
    ensures NeighboursClear(fs, Search(fs, f.offset, 0), f) <==>
            (forall i :: 0 <= i < |fs| ==> Apart(f, fs[i])) && SearchStops(fs, f)
  {
    var k := Search(fs, f.offset, 0);
    if NeighboursClear(fs, k, f) {
      ClearMeansStops(fs, f, k);
    } else if SearchStops(fs, f) && forall i :: 0 <= i < |fs| ==> Apart(f, fs[i]) {
      StopsMeansClear(fs, f, k);
    }
  }

  lemma ClearMeansStops(fs: seq<Frag>, f: Frag, k: nat)
    requires Ordered(fs) && AllDecoded(fs) && Decoded(f) && fs != [] && fs[|fs| - 1].offset >= f.offset
    requires k == Search(fs, f.offset, 0) && NeighboursClear(fs, k, f)
    ensures (forall i :: 0 <= i < |fs| ==> Apart(f, fs[i])) && SearchStops(fs, f)
  {
    hide Search, Decoded, Ordered;
    DecodedFacts(fs[|fs| - 1]);
    DecodedFacts(f);
    forall i | 0 <= i < |fs|
      ensures Apart(f, fs[i]) && (i < k ==> fs[i].offset < f.offset) && (k <= i ==> fs[i].offset >= f.offset)
    {
      NeighboursSplit(fs, f, k, i);
    }
    assert SplitsAt(fs, f, k);
  }

  /** In a sorted list, neighbours that are clear put every other fragment on its proper side. */
  lemma NeighboursSplit(fs: seq<Frag>, f: Frag, k: nat, i: nat)
    requires Ordered(fs) && AllDecoded(fs) && k <= |fs| && NeighboursClear(fs, k, f) && i < |fs|
    ensures if i < k then fs[i].offset < End(fs[i]) <= f.offset else End(f) <= fs[i].offset
  {
    hide Decoded;
    DecodedFacts(fs[i]);
    if i < k - 1 {
      assert End(fs[i]) <= fs[k - 1].offset;
    } else if k < i {
      assert End(fs[k]) <= fs[i].offset;
    }
  }

  lemma StopsMeansClear(fs: seq<Frag>, f: Frag, k: nat)
    requires fs != [] && fs[|fs| - 1].offset >= f.offset
    requires k == Search(fs, f.offset, 0) && SearchStops(fs, f) && forall i :: 0 <= i < |fs| ==> Apart(f, fs[i])
    requires Decoded(f) && AllDecoded(fs)
    ensures NeighboursClear(fs, k, f)
  {
    hide Search, Decoded;
    DecodedFacts(f);
    var m :| 0 <= m <= |fs| && SplitsAt(fs, f, m);
    assert k == m;
    assert m < |fs|;
    DecodedFacts(fs[m]);
    assert Apart(f, fs[m]);
  }

  /** The intended reading - a fragment that overlaps nothing is stored - is false of the reachable block below. */
  lemma DisjointFragmentCanBeRejected(h: seq<Byte>)
    requires |h| == 20
    ensures var first := Arrival(Frag(0, 0, true, 0, h, [0, 0, 0, 0, 0, 0, 0, 0]), 0);
            var third := Arrival(Frag(1, 16, false, 0, h, [0, 0, 0, 0]), 0);
            var second := Frag(2, 8, true, 0, h, [0, 0, 0, 0, 0, 0, 0, 0]);
            var b := BlockAfter([first, third]);
              && Announce(b, second).Some? && !Accepted(b, second)
              && forall i :: 0 <= i < |b.frags| ==> Apart(second, b.frags[i])
  {
    hide Valid;
    var first := Arrival(Frag(0, 0, true, 0, h, [0, 0, 0, 0, 0, 0, 0, 0]), 0);
    var third := Arrival(Frag(1, 16, false, 0, h, [0, 0, 0, 0]), 0);
    AfterOneMore([first], 0);
    assert [first][..0] == [] && [first][..1] == [first];
    assert BlockAfter([first]) == Block([first.frag], 8, 8, {FirstIn}, {});
    AfterOneMore([first, third], 1);
    assert [first, third][..1] == [first] && [first, third][..2] == [first, third];
    assert BlockAfter([first, third]) == Block([first.frag, third.frag], 20, 12, {FirstIn, LastIn}, {});
  }

  /**
   A rejected fragment leaves the block alone exactly when the last fragment was seen before, or it ends
   short of the total, or it ends at the total and is not the last itself.
   */
  lemma RejectionLeavesBlockIff(b: Block, f: Frag, room: nat)
    requires Valid(b) && Decoded(f) && !Accepted(b, f)
    ensures Step(b, f, room).block == b <==>
            LastIn in b.lastIn || End(f) < b.total || (f.more && End(f) == b.total)
  {
    hide SumLen, Ordered, Within, Decoded, Search, Reassembles, NeighboursClear;
    if Announce(b, f).Some? {
      AnnounceFacts(b, f);
      assert Step(b, f, room).block == Announce(b, f).value;
    }
  }

  /** After (0,8) the final fragment (0,12) overlaps and is rejected, yet the block now expects 12 bytes and no other end. */
  lemma RejectedFragmentCanChangeBlock(h: seq<Byte>, room: nat)
    requires |h| == 20
    ensures var first := Arrival(Frag(0, 0, true, 0, h, [0, 0, 0, 0, 0, 0, 0, 0]), 0);
            var final := Frag(1, 0, false, 0, h, [0, 0, 0, 0, 0, 0, 0, 0, 0, 0, 0, 0]);
            var b := BlockAfter([first]); var r := Step(b, final, room);
              && !Accepted(b, final) && r.released == [final] && r.block.frags == b.frags
              && b.total == 8 && r.block.total == 12 && LastIn !in b.lastIn && LastIn in r.block.lastIn
  {
    hide Valid;
    var first := Arrival(Frag(0, 0, true, 0, h, [0, 0, 0, 0, 0, 0, 0, 0]), 0);
    AfterOneMore([first], 0);
    assert [first][..0] == [] && [first][..1] == [first];
    assert BlockAfter([first]) == Block([first.frag], 8, 8, {FirstIn}, {});
  }

  // ---------------------------------------------------------------------------
  // In-order delivery

  /** The fragments of one datagram in increasing order: contiguous from 0, only the last without the more flag. */
  predicate IsDatagram(ins: seq<Arrival>) {
    && ins != [] && AllArrivals(ins)
    && forall i :: 0 <= i < |ins| ==>
         ins[i].frag.offset == SumLen(Frags(ins)[..i]) && (ins[i].frag.more <==> i < |ins| - 1)
  }

  function Frags(ins: seq<Arrival>): (fs: seq<Frag>)
    ensures |fs| == |ins|
  {
    seq(|ins|, i requires 0 <= i < |ins| => ins[i].frag)
  }

  /** Before the last fragment: everything received so far is stored, in order, and counted. */
  lemma {:induction false} PrefixIsCached(ins: seq<Arrival>, k: nat)
    requires IsDatagram(ins) && k < |ins|
    ensures BlockAfter(ins[..k]) == Prefix(ins, k)
    decreases k
  {
    hide Valid, Step, BlockAfter;
    FreshBlock(ins);
    if k > 0 {
      PrefixIsCached(ins, k - 1);
      AfterOneMore(ins, k - 1);
      InOrderStep(ins, k - 1);
    }
  }

  lemma FreshBlock(ins: seq<Arrival>)
    requires AllArrivals(ins)
    ensures BlockAfter(ins[..0]) == Fresh && ins[..0] == [] && SumLen([]) == 0 && Frags(ins)[..0] == []
  {
  }

  /** The block an in-order prefix leaves behind. */
  function Prefix(ins: seq<Arrival>, k: nat): Block
    requires k <= |ins|
  {
    var fs := Frags(ins)[..k];
    Block(fs, SumLen(fs), SumLen(fs), if k == 0 then {} else {FirstIn}, {})
  }

  /** One in-order fragment goes to the tail; the last one fills the block. */
  lemma InOrderStep(ins: seq<Arrival>, k: nat)
    requires IsDatagram(ins) && k < |ins|
    ensures AllDecoded(Frags(ins)) && Accepted(Prefix(ins, k), ins[k].frag)
    ensures k < |ins| - 1 ==> Step(Prefix(ins, k), ins[k].frag, ins[k].room) == Result(Prefix(ins, k + 1), [], None, false)
    ensures k == |ins| - 1 ==>
              Step(Prefix(ins, k), ins[k].frag, ins[k].room) == Reasm(Prefix(ins, k + 1).(lastIn := {FirstIn, LastIn}), ins[k].room)
  {
    hide SumLen, Decoded, Reasm, Search;
    var fs, f := Frags(ins)[..k], ins[k].frag;
    TailSlot(ins, k);
    OneMoreFrag(ins, k);
    assert Decoded(f);
    assert Insert(Prefix(ins, k), k, f).frags == fs + [f];
  }

  lemma OneMoreFrag(ins: seq<Arrival>, k: nat)
    requires k < |ins|
    ensures Frags(ins)[..k + 1] == Frags(ins)[..k] + [ins[k].frag]
    ensures SumLen(Frags(ins)[..k + 1]) == SumLen(Frags(ins)[..k]) + Len(ins[k].frag)
  {
    assert Frags(ins)[..k + 1][..k] == Frags(ins)[..k];
  }

  lemma TailSlot(ins: seq<Arrival>, k: nat)
    requires IsDatagram(ins) && k < |ins|
    ensures var fs := Frags(ins)[..k]; var f := ins[k].frag;
      Slot(fs, f.offset) == k && NeighboursClear(fs, k, f)
    ensures k > 0 <==> ins[k].frag.offset > 0
  {
    var fs := Frags(ins)[..k];
    assert Decoded(ins[k].frag);
    if k > 0 {
      assert fs[..k - 1] == Frags(ins)[..k - 1] && fs[k - 1] == ins[k - 1].frag;
      assert Decoded(ins[k - 1].frag);
    }
  }

  /**
   Section 3.2 of RFC 791, in-order delivery: every fragment is accepted, only the last returns a
   packet, and that packet is the first fragment's header, rewritten, before the original payload.
   */
  lemma InOrderRoundTrip(ins: seq<Arrival>, k: nat)
    requires IsDatagram(ins) && k < |ins|
    requires var fs := Frags(ins); var h := fs[0];
      && |h.header| - h.l2 + SumLen(fs) <= IPV4_PKTLEN_MAX && |h.header| + SumLen(fs) <= ins[|ins| - 1].room
    ensures Accepted(BlockAfter(ins[..k]), ins[k].frag)
    ensures var fs := Frags(ins); var h := fs[0];
      ResultAt(ins, k).packet ==
        if k < |ins| - 1 then None else Some(FixHeader(h.header, h.l2, |h.header| - h.l2 + SumLen(fs)) + Payloads(fs))
  {
    hide Valid, Step, BlockAfter, FixHeader, Payloads, SumLen, Accepted;
    PrefixIsCached(ins, k);
    InOrderStep(ins, k);
    var fs := Frags(ins);
    assert fs[..|ins|] == fs;
  }

  // ---------------------------------------------------------------------------
  // The first fragment may come late

  /** The datagram's fragments with the first one arriving after j others. */
  function HeadLate(ins: seq<Arrival>, j: nat): (late: seq<Arrival>)
    requires j < |ins|
    ensures |late| == |ins|
  {
    ins[1..j + 1] + [ins[0]] + ins[j + 1..]
  }

  /** The block that holds fragments 1 to k while the first is still missing. */
  function Headless(ins: seq<Arrival>, k: nat): Block
    requires k < |ins|
  {
    var fs := Frags(ins);
    Block(fs[1..k + 1], if k == 0 then 0 else SumLen(fs[..k + 1]), SumLen(fs[1..k + 1]),
          if k > 0 && k == |ins| - 1 then {LastIn} else {}, {})
  }

  lemma HeadlessSum(ins: seq<Arrival>, k: nat)
    requires k < |ins|
    ensures var fs := Frags(ins);
      && SumLen(fs[..k + 1]) == Len(fs[0]) + SumLen(fs[1..k + 1]) && fs[..k + 1] == [fs[0]] + fs[1..k + 1]
  {
    var fs := Frags(ins);
    assert fs[..k + 1] == [fs[0]] + fs[1..k + 1];
    SumLenSplit([fs[0]], fs[1..k + 1]);
    assert [fs[0]][..0] == [];
  }

  /** A later fragment goes to the tail of a headless block. */
  lemma HeadlessStep(ins: seq<Arrival>, k: nat, room: nat)
    requires IsDatagram(ins) && k + 1 < |ins|
    ensures AllDecoded(Headless(ins, k).frags) && Accepted(Headless(ins, k), ins[k + 1].frag)
    ensures Step(Headless(ins, k), ins[k + 1].frag, room) == Result(Headless(ins, k + 1), [], None, false)
  {
    hide SumLen, Decoded, Reasm, Search;
    var fs, f := Frags(ins), ins[k + 1].frag;
    OneMoreFrag(ins, k);
    OneMoreFrag(ins, k + 1);
    HeadlessSum(ins, k);
    HeadlessSum(ins, k + 1);
    DecodedFacts(ins[0].frag);
    DecodedFacts(f);
    assert fs[1..k + 2] == fs[1..k + 1] + [f];
    if k > 0 {
      assert fs[1..k + 1][k - 1] == ins[k].frag;
      assert ins[k].frag.offset == SumLen(fs[..k]);
      DecodedFacts(ins[k].frag);
    }
    assert Slot(fs[1..k + 1], f.offset) == k;
    assert Insert(Announce(Headless(ins, k), f).value, k, f).frags == fs[1..k + 2];
  }

  /** The first fragment goes to the head, completing the prefix. */
  lemma HeadStep(ins: seq<Arrival>, j: nat, room: nat)
    requires IsDatagram(ins) && 0 < j < |ins|
    ensures AllDecoded(Headless(ins, j).frags) && AllDecoded(Frags(ins)) && Accepted(Headless(ins, j), ins[0].frag)
    ensures Step(Headless(ins, j), ins[0].frag, room) ==
      if j < |ins| - 1 then Result(Prefix(ins, j + 1), [], None, false)
      else Reasm(Prefix(ins, j + 1).(lastIn := {FirstIn, LastIn}), room)
  {
    hide SumLen, Decoded, Reasm;
    var fs, f := Frags(ins), ins[0].frag;
    var b := Headless(ins, j);
    FreshBlock(ins);
    OneMoreFrag(ins, 0);
    HeadlessSum(ins, j);
    assert f.offset == SumLen(fs[..0]) == 0 && fs[1].offset == SumLen(fs[..1]) == End(f);
    assert Announce(b, f) == Some(b);
    assert Slot(b.frags, 0) == 0;
    assert b.frags[0] == fs[1];
    assert Insert(b, 0, f).frags == fs[..j + 1];
  }

  lemma {:induction false} HeadLateBlocks(ins: seq<Arrival>, j: nat, k: nat)
    requires IsDatagram(ins) && j < |ins| && k < |ins| && AllArrivals(HeadLate(ins, j))
    ensures BlockAfter(HeadLate(ins, j)[..k]) == if k <= j then Headless(ins, k) else Prefix(ins, k)
    decreases k
  {
    hide Valid, Step, BlockAfter, SumLen, Decoded;
    var late := HeadLate(ins, j);
    if k == 0 {
      FreshBlock(late);
      NothingYet(ins);
    } else {
      HeadLateBlocks(ins, j, k - 1);
      AfterOneMore(late, k - 1);
      LateArrival(ins, j, k - 1);
      if k - 1 < j {
        HeadlessStep(ins, k - 1, late[k - 1].room);
      } else if k - 1 == j && j > 0 {
        HeadStep(ins, j, late[j].room);
      } else {
        if k - 1 == 0 {
          NothingYet(ins);
        }
        InOrderStep(ins, k - 1);
      }
    }
  }

  lemma NothingYet(ins: seq<Arrival>)
    requires ins != []
    ensures Headless(ins, 0) == Fresh == Prefix(ins, 0)
  {
    assert Frags(ins)[1..1] == [] && Frags(ins)[..0] == [];
  }

  lemma LateArrival(ins: seq<Arrival>, j: nat, k: nat)
    requires j < |ins| && k < |ins|
    ensures HeadLate(ins, j)[k] == if k < j then ins[k + 1] else if k == j then ins[0] else ins[k]
  {
  }

  lemma HeadLateArrivals(ins: seq<Arrival>, j: nat)
    requires AllArrivals(ins) && j < |ins|
    ensures AllArrivals(HeadLate(ins, j))
  {
    hide Decoded;
    forall k | 0 <= k < |ins| ensures Decoded(HeadLate(ins, j)[k].frag) {
      LateArrival(ins, j, k);
    }
  }

  /**
   The same datagram comes out when the first fragment arrives after any number j of the others: every
   fragment is accepted and only the last arrival returns a packet. In-order delivery is j == 0, the first
   two swapped is j == 1, the first one last of all is j == |ins| - 1.
   */
  lemma HeadLateRoundTrip(ins: seq<Arrival>, j: nat, k: nat)
    requires IsDatagram(ins) && j < |ins| && k < |ins|
    requires var fs := Frags(ins); var h := fs[0];
      && |h.header| - h.l2 + SumLen(fs) <= IPV4_PKTLEN_MAX
      && |h.header| + SumLen(fs) <= HeadLate(ins, j)[|ins| - 1].room
    ensures AllArrivals(HeadLate(ins, j))
    ensures Accepted(BlockAfter(HeadLate(ins, j)[..k]), HeadLate(ins, j)[k].frag)
    ensures var fs := Frags(ins); var h := fs[0];
      ResultAt(HeadLate(ins, j), k).packet ==
        if k < |ins| - 1 then None else Some(FixHeader(h.header, h.l2, |h.header| - h.l2 + SumLen(fs)) + Payloads(fs))
  {
    hide Valid, Step, BlockAfter, FixHeader, Payloads, SumLen, Accepted, Decoded;
    var fs := Frags(ins);
    HeadLateArrivals(ins, j);
    HeadLateBlocks(ins, j, k);
    LateArrival(ins, j, k);
    LateArrival(ins, j, |ins| - 1);
    DecodedFacts(ins[0].frag);
    var room := HeadLate(ins, j)[k].room;
    if k < j {
      HeadlessStep(ins, k, room);
    } else if k == j && j > 0 {
      HeadStep(ins, j, room);
    } else {
      NothingYet(ins);
      InOrderStep(ins, k);
    }
    assert fs[..|ins|] == fs;
  }
}
