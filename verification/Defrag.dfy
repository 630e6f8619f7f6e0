/**
 IPv4 fragment reassembly (section 3.2 of RFC 791): one fragment block, step by step. The search for
 the insertion point compares a stored fragment's length with the new offset, as the code does.
 */
module Defrag {
  import opened Arithmetic
  import opened Wrappers
  import opened Checksum

  type Byte = x: int | 0 <= x < 256

  const IPV4_PKTLEN_MAX := 65535

  /** DEFRAG_FIRST_IN, DEFRAG_LAST_IN, DEFRAG_COMPLETE */
  datatype Mark = FirstIn | LastIn | Complete

  /**
   A decoded fragment's mbuf: `header` is everything before the payload, the IP header starting at
   byte `l2`; `id` names the buffer.
   */
  datatype Frag = Frag(id: nat, offset: nat, more: bool, l2: nat, header: seq<Byte>, payload: seq<Byte>)

  function Len(f: Frag): nat { |f.payload| }

  function End(f: Frag): nat { f.offset + |f.payload| }

  /** What DecodeIPV4 lets through: a 20 to 60 byte IP header and a nonempty payload. */
  predicate Decoded(f: Frag) {
    |f.payload| > 0 && IpHeader(f.header, f.l2)
  }

  predicate IpHeader(h: seq<Byte>, l2: nat) {
    l2 + 20 <= |h| <= l2 + 60 && (|h| - l2) % 4 == 0
  }

  lemma DecodedFacts(f: Frag)
    requires Decoded(f)
    ensures |f.payload| > 0 && f.l2 + 20 <= |f.header|
  {
  }

  predicate AllDecoded(fs: seq<Frag>) {
    forall i :: 0 <= i < |fs| ==> Decoded(fs[i])
  }

  /** fcb_t */
  datatype Block = Block(frags: seq<Frag>, total: nat, meat: nat, lastIn: set<Mark>, status: set<Mark>)

  const Fresh := Block([], 0, 0, {}, {})

  function SumLen(fs: seq<Frag>): nat {
    if fs == [] then 0 else SumLen(fs[..|fs| - 1]) + Len(fs[|fs| - 1])
  }

  function Payloads(fs: seq<Frag>): seq<Byte> {
    if fs == [] then [] else Payloads(fs[..|fs| - 1]) + fs[|fs| - 1].payload
  }

  // ---------------------------------------------------------------------------
  // One fragment

  /** The length checks, made and recorded before the overlap check; None is the error exit. */
  function Announce(b: Block, f: Frag): Option<Block> {
    if !f.more then
      if End(f) < b.total || LastIn in b.lastIn then None
      else Some(b.(lastIn := b.lastIn + {LastIn}, total := End(f)))
    else if End(f) > b.total then
      if LastIn in b.lastIn then None else Some(b.(total := End(f)))
    else Some(b)
  }

  /** The first stored fragment from i on whose length is at least the offset. */
  function Search(fs: seq<Frag>, offset: nat, i: nat): (k: nat)
    requires i <= |fs|
    ensures i <= k <= |fs| && (forall j :: i <= j < k ==> Len(fs[j]) < offset) && (k < |fs| ==> Len(fs[k]) >= offset)
    decreases |fs| - i
  {
    if i == |fs| || Len(fs[i]) >= offset then i else Search(fs, offset, i + 1)
  }

  /** Where the new fragment goes: after the tail, or where the search stops. */
  function Slot(fs: seq<Frag>, offset: nat): (k: nat)
    ensures k <= |fs|
  {
    if fs == [] || fs[|fs| - 1].offset < offset then |fs| else Search(fs, offset, 0)
  }

  /** No overlap with the two neighbours at position k. */
  predicate NeighboursClear(fs: seq<Frag>, k: nat, f: Frag)
    requires k <= |fs|
  {
    (k > 0 ==> End(fs[k - 1]) <= f.offset) && (k < |fs| ==> End(f) <= fs[k].offset)
  }

  function Insert(b: Block, k: nat, f: Frag): Block
    requires k <= |b.frags|
  {
    b.(frags := b.frags[..k] + [f] + b.frags[k..], meat := b.meat + Len(f),
       lastIn := if f.offset == 0 then b.lastIn + {FirstIn} else b.lastIn)
  }

  predicate Fires(b: Block) {
    b.lastIn == {FirstIn, LastIn} && b.meat == b.total
  }

  /** What one call did: the new block, the buffers destroyed, the packet returned, whether it tried to reassemble. */
  datatype Result = Result(block: Block, released: seq<Frag>, packet: Option<seq<Byte>>, attempted: bool)

  /** Bytes asked of the allocator, and the limit on the datagram's length. */
  function Needed(b: Block): nat
    requires b.frags != []
  {
    b.total + |b.frags[0].header|
  }

  predicate Reassembles(b: Block, room: nat)
    requires b.frags != [] && b.frags[0].l2 <= |b.frags[0].header|
  {
    |b.frags[0].header| - b.frags[0].l2 + b.total <= IPV4_PKTLEN_MAX && Needed(b) <= room
  }

  function Word(h: seq<Byte>, i: nat): (w: Half)
    requires i + 1 < |h|
  {
    var high: int := h[i];
    256 * high + h[i + 1]
  }

  function SetWord(h: seq<Byte>, i: nat, w: Half): (r: seq<Byte>)
    requires i + 1 < |h|
    ensures |r| == |h|
  {
    h[i := w / 256][i + 1 := w % 256]
  }

  /** The IP header as 16-bit words. */
  function HeaderWords(h: seq<Byte>, l2: nat): (ws: seq<Half>)
    requires IpHeader(h, l2)
    ensures IsHeader(ws)
  {
    seq((|h| - l2) / 2, i requires 0 <= i < (|h| - l2) / 2 => Word(h, l2 + 2 * i))
  }

  /** Length set, fragment field cleared, checksum recomputed. */
  function FixHeader(h: seq<Byte>, l2: nat, len: Half): (r: seq<Byte>)
    requires IpHeader(h, l2)
    ensures |r| == |h|
  {
    var g := SetWord(SetWord(h, l2 + 2, len), l2 + 6, 0);
    SetWord(g, l2 + 10, CalculateChecksum(HeaderWords(g, l2)))
  }

  /** Frag_defrag_reasm on a block that has just become full. */
  function Reasm(b: Block, room: nat): Result
    requires b.frags != [] && Decoded(b.frags[0])
  {
    if Reassembles(b, room) then
      var h := b.frags[0];
      Result(b.(frags := [], status := b.status + {Complete}), b.frags,
             Some(FixHeader(h.header, h.l2, |h.header| - h.l2 + b.total) + Payloads(b.frags)), true)
    else Result(b, [], None, true)
  }

  /** Frag_defrag_process; `room` is what the allocator would grant. */
  function Step(b: Block, f: Frag, room: nat): Result
    requires Decoded(f) && AllDecoded(b.frags)
  {
    if Complete in b.lastIn then Result(b, [f], None, false)
    else match Announce(b, f)
      case None => Result(b, [f], None, false)
      case Some(a) =>
        var k := Slot(a.frags, f.offset);
        if !NeighboursClear(a.frags, k, f) then Result(a, [f], None, false)
        else
          var c := Insert(a, k, f);
          if Fires(c) then Reasm(c, room) else Result(c, [], None, false)
  }

  predicate Accepted(b: Block, f: Frag) {
    Complete !in b.lastIn && Announce(b, f).Some? && NeighboursClear(b.frags, Slot(b.frags, f.offset), f)
  }

  // ---------------------------------------------------------------------------
  // The invariant

  predicate Ordered(fs: seq<Frag>) {
    forall i, j :: 0 <= i < j < |fs| ==> End(fs[i]) <= fs[j].offset
  }

  predicate Within(fs: seq<Frag>, total: nat) {
    forall i :: 0 <= i < |fs| ==> End(fs[i]) <= total
  }

  /** Sorted, disjoint, inside the datagram, and counted exactly once. */
  predicate Valid(b: Block) {
    && AllDecoded(b.frags) && Ordered(b.frags) && Within(b.frags, b.total)
    && b.meat == (if Complete in b.status then b.total else 0) + SumLen(b.frags)
    && Complete !in b.lastIn && (Complete in b.status ==> LastIn in b.lastIn)
  }

  lemma {:induction false} SumLenSplit(a: seq<Frag>, b: seq<Frag>)
    ensures SumLen(a + b) == SumLen(a) + SumLen(b)
    ensures Payloads(a + b) == Payloads(a) + Payloads(b)
  {
    if b == [] {
      assert a + b == a;
    } else {
      assert (a + b)[..|a + b| - 1] == a + b[..|b| - 1];
      SumLenSplit(a, b[..|b| - 1]);
    }
  }

  lemma {:induction false} PayloadsLength(fs: seq<Frag>)
    ensures |Payloads(fs)| == SumLen(fs)
  {
    if fs != [] {
      PayloadsLength(fs[..|fs| - 1]);
    }
  }

  lemma SumLenInsert(fs: seq<Frag>, k: nat, f: Frag)
    requires k <= |fs|
    ensures SumLen(fs[..k] + [f] + fs[k..]) == SumLen(fs) + Len(f)
  {
    SumLenSplit(fs[..k] + [f], fs[k..]);
    SumLenSplit(fs[..k], [f]);
    SumLenSplit(fs[..k], fs[k..]);
    assert fs[..k] + fs[k..] == fs && [f][..0] == [];
  }

  /** Disjoint sorted fragments inside [0, hi) have total length at most hi. */
  lemma {:induction false} OrderedFits(fs: seq<Frag>, hi: nat)
    requires Ordered(fs) && Within(fs, hi)
    ensures SumLen(fs) <= hi
  {
    if fs != [] {
      OrderedFits(fs[..|fs| - 1], fs[|fs| - 1].offset);
    }
  }

  /** Fragment i starts where the ones before it end, and together they reach hi. */
  predicate Tiles(fs: seq<Frag>, hi: nat) {
    SumLen(fs) == hi && forall i :: 0 <= i < |fs| ==> fs[i].offset == SumLen(fs[..i])
  }

  /** Sorted disjoint fragments whose lengths add up to the space available leave no gap. */
  lemma {:induction false} FullMeansTiled(fs: seq<Frag>, hi: nat)
    requires Ordered(fs) && Within(fs, hi) && SumLen(fs) == hi
    ensures Tiles(fs, hi)
  {
    if fs != [] {
      var n := |fs| - 1;
      OrderedFits(fs[..n], fs[n].offset);
      FullMeansTiled(fs[..n], fs[n].offset);
      forall i | 0 <= i < |fs| ensures fs[i].offset == SumLen(fs[..i]) {
        if i < n {
          assert fs[..n][i].offset == SumLen(fs[..n][..i]) && fs[..n][..i] == fs[..i];
        }
      }
    }
  }

  /** In a tiling every fragment's bytes lie at its own offset. */
  lemma PayloadAtOffset(fs: seq<Frag>, hi: nat, i: nat)
    requires Tiles(fs, hi) && i < |fs|
    ensures End(fs[i]) <= |Payloads(fs)| == hi
    ensures Payloads(fs)[fs[i].offset..End(fs[i])] == fs[i].payload
  {
    assert fs == fs[..i] + [fs[i]] + fs[i + 1..];
    SumLenSplit(fs[..i] + [fs[i]], fs[i + 1..]);
    SumLenSplit(fs[..i], [fs[i]]);
    PayloadsLength(fs[..i]);
    PayloadsLength(fs);
    assert Payloads([fs[i]]) == fs[i].payload by { assert [fs[i]][..0] == []; }
  }

  // ---------------------------------------------------------------------------
  // Every step keeps the invariant

  lemma InsertKeeps(b: Block, k: nat, f: Frag)
    requires Valid(b) && Decoded(f) && k <= |b.frags| && NeighboursClear(b.frags, k, f) && End(f) <= b.total
    ensures Valid(Insert(b, k, f))
  {
    hide SumLen, Ordered, Within, AllDecoded, Decoded;
    SumLenInsert(b.frags, k, f);
    InsertOrdered(b.frags, k, f);
    InsertWithin(b.frags, k, f, b.total);
  }

  lemma InsertWithin(fs: seq<Frag>, k: nat, f: Frag, total: nat)
    requires AllDecoded(fs) && Within(fs, total) && Decoded(f) && End(f) <= total && k <= |fs|
    ensures AllDecoded(fs[..k] + [f] + fs[k..]) && Within(fs[..k] + [f] + fs[k..], total)
  {
    hide Decoded;
  }

  lemma InsertOrdered(fs: seq<Frag>, k: nat, f: Frag)
    requires Ordered(fs) && k <= |fs| && NeighboursClear(fs, k, f)
    ensures Ordered(fs[..k] + [f] + fs[k..])
  {
    var gs := fs[..k] + [f] + fs[k..];
    forall i, j | 0 <= i < j < |gs| ensures End(gs[i]) <= gs[j].offset {
      if i < k {
        assert End(fs[i]) <= f.offset;
      }
    }
  }

  /** Recording the lengths never lowers the total, freezes it once the last fragment is seen, and admits the fragment. */
  lemma AnnounceFacts(b: Block, f: Frag)
    requires Announce(b, f).Some?
    ensures var a := Announce(b, f).value;
      && a.frags == b.frags && a.meat == b.meat && a.status == b.status
      && End(f) <= a.total && b.total <= a.total && b.lastIn <= a.lastIn <= b.lastIn + {LastIn}
      && (LastIn in b.lastIn ==> a == b)
  {
  }

  lemma AnnounceKeeps(b: Block, f: Frag)
    requires Valid(b) && Announce(b, f).Some?
    ensures Valid(Announce(b, f).value)
  {
    hide SumLen, Ordered, Decoded;
  }

  lemma StepKeepsValid(b: Block, f: Frag, room: nat)
    requires Valid(b) && Decoded(f)
    ensures Valid(Step(b, f, room).block)
    ensures b.total <= Step(b, f, room).block.total
    ensures LastIn in b.lastIn ==> Step(b, f, room).block.total == b.total && LastIn in Step(b, f, room).block.lastIn
  {
    hide SumLen, Ordered, Within, Decoded, NeighboursClear, Reassembles;
    if Announce(b, f).Some? {
      AnnounceFacts(b, f);
      var a := Announce(b, f).value;
      AnnounceKeeps(b, f);
      var k := Slot(a.frags, f.offset);
      if NeighboursClear(a.frags, k, f) {
        InsertKeeps(a, k, f);
        CompletionKeeps(Insert(a, k, f));
      }
    }
  }

  lemma CompletionKeeps(c: Block)
    requires Valid(c)
    ensures Fires(c) ==> Valid(c.(frags := [], status := c.status + {Complete}))
  {
  }

  // ---------------------------------------------------------------------------
  // Reassembly

  /**
   When reassembly fires for a block not yet completed, the stored fragments tile the datagram: the
   first one starts at 0 and carries the header.
   */
  lemma FiringBlockIsTiled(b: Block)
    requires Valid(b) && Complete !in b.status && b.meat == b.total
    ensures Tiles(b.frags, b.total)
    ensures b.frags != [] ==> b.frags[0].offset == 0
  {
    FullMeansTiled(b.frags, b.total);
    assert b.frags[..0] == [];
  }

  /** A full block accepts nothing more. */
  lemma FullBlockRejects(b: Block, f: Frag)
    requires Valid(b) && Complete !in b.status && LastIn in b.lastIn && b.meat == b.total && Decoded(f)
    ensures !Accepted(b, f)
  {
    if Accepted(b, f) {
      AnnounceFacts(b, f);
      var k := Slot(b.frags, f.offset);
      InsertKeeps(b, k, f);
      OrderedFits(Insert(b, k, f).frags, b.total);
    }
  }

  /** The block has made its one attempt, or can never make one. */
  predicate Spent(b: Block) {
    LastIn in b.lastIn && b.meat >= b.total
  }

  lemma SpentStaysSpent(b: Block, f: Frag, room: nat)
    requires Valid(b) && Spent(b) && Decoded(f)
    ensures Spent(Step(b, f, room).block) && !Step(b, f, room).attempted && Step(b, f, room).packet == None
  {
    if Accepted(b, f) {
      AnnounceFacts(b, f);
      if Complete !in b.status {
        OrderedFits(b.frags, b.total);
        FullBlockRejects(b, f);
      }
    } else if Announce(b, f).Some? {
      AnnounceFacts(b, f);
    }
  }

  lemma AttemptSpends(b: Block, f: Frag, room: nat)
    requires Valid(b) && Decoded(f) && Step(b, f, room).attempted
    ensures Spent(Step(b, f, room).block) && !Spent(b) && Accepted(b, f)
    ensures Complete !in b.status
  {
    AnnounceFacts(b, f);
    if Spent(b) {
      SpentStaysSpent(b, f, room);
    }
  }

  /** What holds when the insertion of f has filled the block. */
  lemma FiringStep(b: Block, f: Frag, room: nat)
    requires Valid(b) && Decoded(f) && Accepted(b, f)
    requires Fires(Insert(Announce(b, f).value, Slot(b.frags, f.offset), f))
    ensures var c := Insert(Announce(b, f).value, Slot(b.frags, f.offset), f);
      Valid(c) && Complete !in c.status && c.frags != [] && Step(b, f, room) == Reasm(c, room)
  {
    hide Ordered, Within, SumLen, Decoded, FixHeader, Payloads, Reassembles;
    AnnounceFacts(b, f);
    AnnounceKeeps(b, f);
    InsertKeeps(Announce(b, f).value, Slot(b.frags, f.offset), f);
    AttemptSpends(b, f, room);
  }

  // ---------------------------------------------------------------------------
  // The reassembled packet

  lemma SetWordSetsWord(h: seq<Byte>, l2: nat, k: nat, w: Half)
    requires IpHeader(h, l2) && l2 + 2 * k + 1 < |h|
    ensures HeaderWords(SetWord(h, l2 + 2 * k, w), l2) == HeaderWords(h, l2)[k := w]
  {
    var r := SetWord(h, l2 + 2 * k, w);
    forall i | 0 <= i < |HeaderWords(h, l2)| ensures HeaderWords(r, l2)[i] == HeaderWords(h, l2)[k := w][i] {
      assert Word(r, l2 + 2 * i) == if i == k then w else Word(h, l2 + 2 * i);
    }
  }

  /** The rewritten header: new length, no fragment bits, every other field kept, and a checksum that verifies. */
  lemma FixedHeaderVerifies(h: seq<Byte>, l2: nat, len: Half)
    requires IpHeader(h, l2)
    ensures var r := FixHeader(h, l2, len); var ws, was := HeaderWords(r, l2), HeaderWords(h, l2);
      && r[..l2] == h[..l2] && |ws| == |was| && ws[1] == len && ws[3] == 0
      && (forall i :: 0 <= i < |ws| && i != 1 && i != 3 && i != 5 ==> ws[i] == was[i])
      && Fold(Sum(ws)) == 0xFFFF
      && r[l2 + 2] == len / 256 && r[l2 + 3] == len % 256 && r[l2 + 6] == r[l2 + 7] == 0
  {
    hide Sum, Fold, CalculateChecksum;
    var ws := HeaderWords(h, l2);
    var g := SetWord(h, l2 + 2, len);
    var e := SetWord(g, l2 + 6, 0);
    SetWordSetsWord(h, l2, 1, len);
    SetWordSetsWord(g, l2, 3, 0);
    SetWordSetsWord(e, l2, 5, CalculateChecksum(HeaderWords(e, l2)));
    StoredChecksumVerifies(HeaderWords(e, l2));
  }

  /**
   A packet is returned only when the buffers released tile the datagram; it has exactly the size
   requested, and every fragment's bytes are at that fragment's own offset.
   */
  lemma PacketIsTheDatagram(b: Block, f: Frag, room: nat)
    requires Valid(b) && Decoded(f) && Step(b, f, room).packet.Some?
    ensures var r := Step(b, f, room); var fs := r.released;
      && fs != [] && Decoded(fs[0]) && fs[0].offset == 0 && Tiles(fs, r.block.total)
      && |r.packet.value| == |fs[0].header| + r.block.total <= room
      && |fs[0].header| - fs[0].l2 + r.block.total <= IPV4_PKTLEN_MAX
      && r.packet.value[..|fs[0].header|] == FixHeader(fs[0].header, fs[0].l2, |fs[0].header| - fs[0].l2 + r.block.total)
      && (forall i :: 0 <= i < |fs| ==> BytesAt(r.packet.value, |fs[0].header| + fs[i].offset, fs[i].payload))
  {
    hide FixHeader, SumLen, Payloads, Ordered, Within, IpHeader;
    AttemptSpends(b, f, room);
    AnnounceFacts(b, f);
    AnnounceKeeps(b, f);
    var a := Announce(b, f).value;
    var c := Insert(a, Slot(a.frags, f.offset), f);
    InsertKeeps(a, Slot(a.frags, f.offset), f);
    FiringBlockIsTiled(c);
    var fs, r := c.frags, Step(b, f, room);
    assert r == Reasm(c, room);
    DecodedFacts(fs[0]);
    assert r.released == fs && r.block.total == c.total;
    PacketBytes(fs, c.total, FixHeader(fs[0].header, fs[0].l2, |fs[0].header| - fs[0].l2 + c.total));
  }

  predicate BytesAt(p: seq<Byte>, at: nat, bytes: seq<Byte>) {
    at + |bytes| <= |p| && p[at..at + |bytes|] == bytes
  }

  lemma PacketBytes(fs: seq<Frag>, total: nat, header: seq<Byte>)
    requires Tiles(fs, total)
    ensures |header + Payloads(fs)| == |header| + total
    ensures forall i :: 0 <= i < |fs| ==> BytesAt(header + Payloads(fs), |header| + fs[i].offset, fs[i].payload)
  {
    PayloadsLength(fs);
    forall i | 0 <= i < |fs| ensures BytesAt(header + Payloads(fs), |header| + fs[i].offset, fs[i].payload) {
      PayloadAtOffset(fs, total, i);
    }
  }
}
