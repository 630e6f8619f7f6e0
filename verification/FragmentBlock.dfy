/** The fragment control block as the data plane updates it: a mutable list, counters, and a copy loop. */
module FragmentBlock {
  import opened Wrappers
  import opened Checksum
  import opened Defrag

  /** memcpy */
  method CopyInto(buf: array<Byte>, at: nat, bytes: seq<Byte>)
    requires at + |bytes| <= buf.Length
    modifies buf
    ensures buf[..at + |bytes|] == old(buf[..at]) + bytes && buf[at + |bytes|..] == old(buf[at + |bytes|..])
  {
    var i := 0;
    while i < |bytes|
      invariant 0 <= i <= |bytes|
      invariant buf[..at] == old(buf[..at]) && buf[at..at + i] == bytes[..i] && buf[at + i..] == old(buf[at + i..])
    {
      buf[at + i] := bytes[i];
      i := i + 1;
    }
    assert buf[..at + i] == buf[..at] + buf[at..at + i];
  }

  /** Write a 16-bit header field, high byte first. */
  method StoreWord(buf: array<Byte>, at: nat, w: Half)
    requires at + 1 < buf.Length
    modifies buf
    ensures buf[..] == SetWord(old(buf[..]), at, w)
  {
    buf[at] := w / 256;
    buf[at + 1] := w % 256;
  }

  lemma SetWordInPrefix(h: seq<Byte>, rest: seq<Byte>, at: nat, w: Half)
    requires at + 1 < |h|
    ensures SetWord(h + rest, at, w) == SetWord(h, at, w) + rest
  {
  }

  lemma TileEnds(fs: seq<Frag>, total: nat, i: nat)
    requires Tiles(fs, total) && i < |fs|
    ensures SumLen(fs[..i + 1]) == SumLen(fs[..i]) + Len(fs[i]) <= total
    ensures Payloads(fs[..i + 1]) == Payloads(fs[..i]) + fs[i].payload
  {
    assert fs[..i + 1][..i] == fs[..i];
    assert fs == fs[..i + 1] + fs[i + 1..];
    SumLenSplit(fs[..i + 1], fs[i + 1..]);
  }

  /** Frag_defrag_reasm's copies: the whole first fragment, then each later payload behind the bytes so far. */
  method CopyFragments(fs: seq<Frag>, total: nat, buf: array<Byte>)
    requires fs != [] && Tiles(fs, total) && buf.Length == |fs[0].header| + total
    modifies buf
    ensures buf[..] == fs[0].header + Payloads(fs)
  {
    hide Tiles, SumLen, Payloads;
    TileStart(fs, total);
    CopyInto(buf, 0, fs[0].header + fs[0].payload);
    var written, i := |fs[0].header| + |fs[0].payload|, 1;
    while i < |fs|
      invariant 1 <= i <= |fs| && written == |fs[0].header| + SumLen(fs[..i]) <= buf.Length
      invariant buf[..written] == fs[0].header + Payloads(fs[..i])
    {
      TileEnds(fs, total, i);
      CopyInto(buf, written, fs[i].payload);
      written := written + |fs[i].payload|;
      assert (fs[0].header + Payloads(fs[..i])) + fs[i].payload == fs[0].header + (Payloads(fs[..i]) + fs[i].payload);
      i := i + 1;
    }
    assert fs[..i] == fs && buf[..written] == buf[..];
  }

  lemma TileStart(fs: seq<Frag>, total: nat)
    requires fs != [] && Tiles(fs, total)
    ensures SumLen(fs[..1]) == |fs[0].payload| <= total && Payloads(fs[..1]) == fs[0].payload && SumLen(fs) == total
  {
    assert fs[..0] == [];
    TileEnds(fs, total, 0);
  }

  /** IPV4_SET_IPLEN, ip_off = 0 and IPV4_SET_IPCSUM on the copied header. */
  method RewriteHeader(buf: array<Byte>, h: seq<Byte>, l2: nat, len: Half, ghost rest: seq<Byte>)
    requires IpHeader(h, l2) && buf[..] == h + rest
    modifies buf
    ensures buf[..] == FixHeader(h, l2, len) + rest
  {
    hide SetWord, HeaderWords, CalculateChecksum;
    SetWordInPrefix(h, rest, l2 + 2, len);
    StoreWord(buf, l2 + 2, len);
    ghost var g := SetWord(h, l2 + 2, len);
    SetWordInPrefix(g, rest, l2 + 6, 0);
    StoreWord(buf, l2 + 6, 0);
    ghost var e := SetWord(g, l2 + 6, 0);
    assert buf[..|h|] == e;
    var csum := CalculateChecksum(HeaderWords(buf[..|h|], l2));
    SetWordInPrefix(e, rest, l2 + 10, csum);
    StoreWord(buf, l2 + 10, csum);
  }

  class Fcb {
    var fragments: seq<Frag>
    var totalFraglen: nat
    var meat: nat
    var lastIn: set<Mark>
    var status: set<Mark>

    function Contents(): Block
      reads this
    {
      Block(fragments, totalFraglen, meat, lastIn, status)
    }

    constructor ()
      ensures Contents() == Fresh
    {
      fragments, totalFraglen, meat, lastIn, status := [], 0, 0, {}, {};
    }

    /** Frag_defrag_freefrags */
    method FreeFrags() returns (released: seq<Frag>)
      modifies this
      ensures released == old(fragments) && Contents() == old(Contents()).(frags := [])
    {
      released := [];
      var head := fragments;
      while head != []
        invariant released + head == fragments && Contents() == old(Contents())
        decreases |head|
      {
        released := released + [head[0]];
        head := head[1..];
      }
      fragments := [];
    }

    /** Frag_defrag_reasm: copies into a buffer of exactly the size requested. */
    method Reassemble(room: nat) returns (packet: Option<seq<Byte>>, released: seq<Frag>)
      requires Valid(Contents()) && Complete !in status && fragments != [] && Fires(Contents())
      modifies this
      ensures var r := Reasm(old(Contents()), room);
              Contents() == r.block && packet == r.packet && released == r.released
    {
      hide Ordered, Within, SumLen, Payloads, FixHeader, Tiles;
      var head := fragments[0];
      DecodedFacts(head);
      var len := |head.header| - head.l2 + totalFraglen;
      if len > IPV4_PKTLEN_MAX || totalFraglen + |head.header| > room {
        return None, [];
      }
      FiringBlockIsTiled(Contents());
      var buf := new Byte[totalFraglen + |head.header|];
      CopyFragments(fragments, totalFraglen, buf);
      RewriteHeader(buf, head.header, head.l2, len, Payloads(fragments));
      status := status + {Complete};
      released := FreeFrags();
      packet := Some(buf[..]);
    }

    /** Frag_defrag_process */
    method Process(f: Frag, room: nat) returns (packet: Option<seq<Byte>>, released: seq<Frag>)
      requires Valid(Contents()) && Decoded(f)
      modifies this
      ensures var r := Step(old(Contents()), f, room);
              Contents() == r.block && packet == r.packet && released == r.released
      ensures Valid(Contents())
    {
      hide Ordered, Within, SumLen, Decoded, Reasm, Announce, Slot;
      StepKeepsValid(Contents(), f, room);
      ghost var b := Contents();
      if Complete in lastIn {
        return None, [f];
      }
      var offset, end := f.offset, f.offset + |f.payload|;
      var inRange := Record(f);
      if !inRange {
        return None, [f];
      }
      ghost var a := Contents();
      AnnounceFacts(b, f);
      var k := FindSlot(offset);
      if k > 0 && fragments[k - 1].offset + |fragments[k - 1].payload| > offset {
        return None, [f];
      }
      if k < |fragments| && fragments[k].offset < end {
        return None, [f];
      }
      fragments := fragments[..k] + [f] + fragments[k..];
      meat := meat + |f.payload|;
      if offset == 0 {
        lastIn := lastIn + {FirstIn};
      }
      assert Contents() == Insert(a, k, f);
      if lastIn == {FirstIn, LastIn} && meat == totalFraglen {
        FiringStep(b, f, room);
        packet, released := Reassemble(room);
      } else {
        return None, [];
      }
    }

    /** The length checks and the updates that precede the overlap check. */
    method Record(f: Frag) returns (ok: bool)
      modifies this
      ensures ok <==> Announce(old(Contents()), f).Some?
      ensures Contents() == if ok then Announce(old(Contents()), f).value else old(Contents())
    {
      var end := f.offset + |f.payload|;
      if !f.more {
        if end < totalFraglen || LastIn in lastIn {
          return false;
        }
        lastIn := lastIn + {LastIn};
        totalFraglen := end;
      } else if end > totalFraglen {
        if LastIn in lastIn {
          return false;
        }
        totalFraglen := end;
      }
      return true;
    }

    /** The search for the insertion point: an index into the list for the pair of pointers prev and next. */
    method FindSlot(offset: nat) returns (k: nat)
      ensures k == Slot(fragments, offset)
    {
      if fragments == [] || fragments[|fragments| - 1].offset < offset {
        return |fragments|;
      }
      k := 0;
      while k < |fragments| && |fragments[k].payload| < offset
        invariant k <= |fragments| && Search(fragments, offset, 0) == Search(fragments, offset, k)
      {
        k := k + 1;
      }
    }
  }
}
