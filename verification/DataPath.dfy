/**
 A packet buffer's way through the data plane: decoding, reassembly, flow lookup and transmission.
 Each function either passes the buffer on or disposes of it; together they leave it in exactly one place.
 */
module DataPath {
  import opened Wrappers
  import opened Defrag
  import Transmit

  type Buffer = nat

  /** Addresses and identification: ip4_frag_match. */
  datatype Key = Key(sip: nat, dip: nat, id: nat)

  datatype Fcb = Fcb(key: Key, block: Block)

  datatype Verdict = DecodeOk | DecodeDrop

  /** A received packet: its buffer, whether it is still a hardware buffer, and the fragment it carries if it is one. */
  datatype Packet = Packet(buf: Buffer, hw: bool, fragment: Option<Fragment>)

  datatype Fragment = Fragment(key: Key, frag: Frag)

  predicate WellFormed(p: Packet) {
    p.fragment.Some? ==> Decoded(p.fragment.value.frag) && p.fragment.value.frag.id == p.buf
  }

  /** Everything decided outside the ownership logic: header checks, allocators, the hardware's answers. */
  datatype Env = Env(linkOk: bool, headerOk: bool, supported: bool, transportOk: bool, fcbOk: bool, swOk: bool, room: nat,
                     newBuf: Buffer, flowOk: bool, port: nat, sendOk: bool)

  /** Protocol supported, transport header good, flow found or made. */
  predicate Good(env: Env) {
    env.supported && env.transportOk && env.flowOk
  }

  // ---------------------------------------------------------------------------
  // Where buffers are

  function One(a: Buffer, x: Buffer): nat { if a == x then 1 else 0 }

  /** How often a buffer occurs in a list. */
  function Occurs(s: seq<Buffer>, x: Buffer): nat {
    if s == [] then 0 else Occurs(s[..|s| - 1], x) + One(s[|s| - 1], x)
  }

  function Ids(fs: seq<Frag>): (s: seq<Buffer>)
    ensures |s| == |fs|
  {
    seq(|fs|, i requires 0 <= i < |fs| => fs[i].id)
  }

  function Cached(table: seq<Fcb>, x: Buffer): nat {
    if table == [] then 0 else Cached(table[..|table| - 1], x) + Occurs(Ids(table[|table| - 1].block.frags), x)
  }

  function Pending(rings: seq<seq<Transmit.Desc>>, x: Buffer): nat {
    if rings == [] then 0 else Pending(rings[..|rings| - 1], x) + Occurs(Transmit.Mbufs(rings[|rings| - 1]), x)
  }

  lemma {:induction false} OccursSplit(a: seq<Buffer>, b: seq<Buffer>, x: Buffer)
    ensures Occurs(a + b, x) == Occurs(a, x) + Occurs(b, x)
  {
    if b == [] {
      assert a + b == a;
    } else {
      assert (a + b)[..|a + b| - 1] == a + b[..|b| - 1];
      OccursSplit(a, b[..|b| - 1], x);
    }
  }

  lemma OccursOne(a: Buffer, x: Buffer)
    ensures Occurs([a], x) == One(a, x) && Occurs([], x) == 0
  {
    assert [a][..0] == [];
  }

  lemma {:induction false} CachedUpdate(table: seq<Fcb>, i: nat, e: Fcb, x: Buffer)
    requires i < |table|
    ensures Cached(table[i := e], x) == Cached(table, x) - Occurs(Ids(table[i].block.frags), x) + Occurs(Ids(e.block.frags), x)
  {
    hide Occurs, Ids;
    var n := |table| - 1;
    if i == n {
      assert table[i := e][..n] == table[..n];
    } else {
      CachedUpdate(table[..n], i, e, x);
      assert table[i := e][..n] == table[..n][i := e];
    }
  }

  lemma {:induction false} CachedSplit(a: seq<Fcb>, b: seq<Fcb>, x: Buffer)
    ensures Cached(a + b, x) == Cached(a, x) + Cached(b, x)
  {
    hide Occurs, Ids;
    if b == [] {
      assert a + b == a;
    } else {
      assert (a + b)[..|a + b| - 1] == a + b[..|b| - 1];
      CachedSplit(a, b[..|b| - 1], x);
    }
  }

  lemma CachedOne(e: Fcb, x: Buffer)
    ensures Cached([e], x) == Occurs(Ids(e.block.frags), x)
  {
    hide Occurs, Ids;
    assert [e][..0] == [];
  }

  lemma {:induction false} PendingUpdate(rings: seq<seq<Transmit.Desc>>, i: nat, q: seq<Transmit.Desc>, x: Buffer)
    requires i < |rings|
    ensures Pending(rings[i := q], x) ==
            Pending(rings, x) - Occurs(Transmit.Mbufs(rings[i]), x) + Occurs(Transmit.Mbufs(q), x)
  {
    hide Transmit.Mbufs, Occurs;
    var n := |rings| - 1;
    if i == n {
      assert rings[i := q][..n] == rings[..n];
    } else {
      PendingUpdate(rings[..n], i, q, x);
      assert rings[i := q][..n] == rings[..n][i := q];
    }
  }

  lemma {:induction false} PendingEmpty(rings: seq<seq<Transmit.Desc>>, x: Buffer)
    requires forall i :: 0 <= i < |rings| ==> rings[i] == []
    ensures Pending(rings, x) == 0
  {
    if rings != [] {
      PendingEmpty(rings[..|rings| - 1], x);
    }
  }

  lemma IdsInsert(fs: seq<Frag>, k: nat, f: Frag, x: Buffer)
    requires k <= |fs|
    ensures Occurs(Ids(fs[..k] + [f] + fs[k..]), x) == Occurs(Ids(fs), x) + One(f.id, x)
  {
    hide Occurs;
    var ids := Ids(fs);
    assert Ids(fs[..k] + [f] + fs[k..]) == ids[..k] + [f.id] + ids[k..];
    assert ids == ids[..k] + ids[k..];
    OccursSplit(ids[..k] + [f.id], ids[k..], x);
    OccursSplit(ids[..k], [f.id], x);
    OccursSplit(ids[..k], ids[k..], x);
    OccursOne(f.id, x);
  }

  /** One fragment step neither loses nor duplicates a buffer. */
  lemma StepKeepsIds(b: Block, f: Frag, room: nat, x: Buffer)
    requires Decoded(f) && AllDecoded(b.frags)
    ensures var r := Step(b, f, room);
      Occurs(Ids(b.frags), x) + One(f.id, x) == Occurs(Ids(r.block.frags), x) + Occurs(Ids(r.released), x)
  {
    hide Reassembles, NeighboursClear, Decoded, FixHeader, Payloads, Announce, Fires, Occurs;
    OccursOne(f.id, x);
    assert Ids([f]) == [f.id] && Ids([]) == [];
    if Announce(b, f).Some? {
      AnnounceFacts(b, f);
      IdsInsert(b.frags, Slot(b.frags, f.offset), f, x);
    }
  }

  // ---------------------------------------------------------------------------
  // The data plane

  ghost predicate TableOk(table: seq<Fcb>) {
    && (forall i :: 0 <= i < |table| ==> Valid(table[i].block))
    && (forall i, j :: 0 <= i < j < |table| ==> table[i].key != table[j].key)
  }

  ghost predicate KeyIn(table: seq<Fcb>, key: Key) {
    exists i :: 0 <= i < |table| && table[i].key == key
  }

  /** The key's block, or the fresh one that would be made for it. */
  ghost function BlockFor(table: seq<Fcb>, key: Key): Block {
    if KeyIn(table, key) then
      var i :| 0 <= i < |table| && table[i].key == key;
      table[i].block
    else Fresh
  }

  /** The tables hold the same blocks but for `key`, which has block `b` in `next`. */
  ghost predicate OnlyKeyChanged(table: seq<Fcb>, next: seq<Fcb>, key: Key, b: Block) {
    && KeyIn(next, key) && BlockFor(next, key) == b
    && forall k :: k != key ==> (KeyIn(next, k) <==> KeyIn(table, k)) && BlockFor(next, k) == BlockFor(table, k)
  }

  lemma BlockAt(table: seq<Fcb>, i: nat)
    requires TableOk(table) && i < |table|
    ensures KeyIn(table, table[i].key) && BlockFor(table, table[i].key) == table[i].block
  {
    hide Defrag.Valid;
  }

  lemma NewBlock(table: seq<Fcb>, key: Key)
    requires TableOk(table) && !KeyIn(table, key) && TableOk([Fcb(key, Fresh)] + table)
    ensures OnlyKeyChanged(table, [Fcb(key, Fresh)] + table, key, Fresh)
  {
    hide Defrag.Valid;
    var next := [Fcb(key, Fresh)] + table;
    BlockAt(next, 0);
    forall k | k != key ensures (KeyIn(next, k) <==> KeyIn(table, k)) && BlockFor(next, k) == BlockFor(table, k) {
      if KeyIn(table, k) {
        var i :| 0 <= i < |table| && table[i].key == k;
        BlockAt(table, i);
        assert next[i + 1] == table[i];
        BlockAt(next, i + 1);
      }
    }
  }

  lemma ChangedBlock(table: seq<Fcb>, i: nat, b: Block)
    requires i < |table| && TableOk(table) && TableOk(table[i := Fcb(table[i].key, b)])
    ensures OnlyKeyChanged(table, table[i := Fcb(table[i].key, b)], table[i].key, b)
  {
    hide Defrag.Valid;
    var key := table[i].key;
    var next := table[i := Fcb(key, b)];
    BlockAt(next, i);
    forall k | k != key ensures (KeyIn(next, k) <==> KeyIn(table, k)) && BlockFor(next, k) == BlockFor(table, k) {
      if KeyIn(table, k) {
        var j :| 0 <= j < |table| && table[j].key == k;
        BlockAt(table, j);
        assert next[j] == table[j];
        BlockAt(next, j);
      }
    }
  }

  lemma NoBlock(table: seq<Fcb>, key: Key)
    requires !KeyIn(table, key)
    ensures BlockFor(table, key) == Fresh
  {
  }

  lemma Unchanged(table: seq<Fcb>, key: Key)
    requires KeyIn(table, key)
    ensures OnlyKeyChanged(table, table, key, BlockFor(table, key))
  {
  }

  lemma ChangedTwice(table: seq<Fcb>, mid: seq<Fcb>, next: seq<Fcb>, key: Key, a: Block, b: Block)
    requires OnlyKeyChanged(table, mid, key, a) && OnlyKeyChanged(mid, next, key, b)
    ensures OnlyKeyChanged(table, next, key, b)
  {
    hide BlockFor, KeyIn;
  }

  lemma TableUpdated(table: seq<Fcb>, i: nat, b: Block)
    requires TableOk(table) && i < |table| && Valid(b)
    ensures TableOk(table[i := Fcb(table[i].key, b)])
  {
    hide Defrag.Valid;
  }

  class Plane {
    var table: seq<Fcb>
    var rings: seq<seq<Transmit.Desc>>
    var destroyed: seq<Buffer>
    var hardware: seq<Buffer>
    /** Set where the code indexes past its four rings; nothing is promised from then on. */
    var fault: bool

    ghost predicate Valid()
      reads this
    {
      TableOk(table) && |rings| == Transmit.PORT_MAX
    }

    /** How many places hold the buffer: destroyed, given to the hardware, cached as a fragment, or pending in a ring. */
    ghost function Places(x: Buffer): nat
      reads this
    {
      Occurs(destroyed, x) + Occurs(hardware, x) + Cached(table, x) + Pending(rings, x)
    }

    constructor ()
      ensures Valid() && !fault && forall x :: Places(x) == 0
    {
      table, rings, destroyed, hardware, fault := [], [[], [], [], []], [], [], false;
      new;
      forall x ensures Places(x) == 0 {
        PendingEmpty(rings, x);
      }
    }

    /** The buffer was destroyed, after the buffers `freed`, and nothing was sent. */
    twostate predicate Dropped(buf: Buffer, new freed: seq<Buffer>)
      reads this
    {
      destroyed == old(destroyed) + freed + [buf] && hardware == old(hardware) && rings == old(rings)
    }

    /**
     Where a buffer offered to a port goes: a bad port destroys it; an accepted hardware buffer belongs to the
     hardware; an accepted software buffer waits at the end of its port's ring if that has room; all else is
     destroyed. `freed` are the buffers destroyed before it.
     */
    twostate predicate Offered(buf: Buffer, hw: bool, port: nat, sendOk: bool, new freed: seq<Buffer>)
      requires |old(rings)| == Transmit.PORT_MAX
      reads this
    {
      if port > Transmit.PORT_MAX then Dropped(buf, freed)
      else if hw then
        if sendOk then
          hardware == old(hardware) + [buf] && destroyed == old(destroyed) + freed && rings == old(rings)
        else Dropped(buf, freed)
      else if port < Transmit.PORT_MAX then
        if sendOk && |old(rings)[port]| < 63 then
          && rings == old(rings)[port := old(rings)[port] + [Transmit.Desc(buf, false)]]
          && destroyed == old(destroyed) + freed && hardware == old(hardware)
        else Dropped(buf, freed)
      else true
    }

    /** PACKET_DESTROY_ALL */
    method DestroyAll(buf: Buffer)
      requires Valid()
      modifies this`destroyed
      ensures Valid() && destroyed == old(destroyed) + [buf] && forall x :: Places(x) == old(Places(x)) + One(buf, x)
    {
      hide TableOk, Cached, Pending, Occurs;
      forall x ensures Occurs(destroyed + [buf], x) == Occurs(destroyed, x) + One(buf, x) {
        OccursSplit(destroyed, [buf], x);
        OccursOne(buf, x);
      }
      destroyed := destroyed + [buf];
    }

    /**
     oct_tx_process_mbuf. The range check lets port 4 through: harmless for a hardware buffer, past the end of
     the rings for a software one.
     */
    method TxProcess(buf: Buffer, hw: bool, port: nat, sendOk: bool)
      requires Valid() && !fault
      modifies this`rings, this`destroyed, this`hardware, this`fault
      ensures Valid() && (fault <==> !hw && port == Transmit.PORT_MAX)
      ensures Offered(buf, hw, port, sendOk, [])
      ensures !fault ==> forall x :: Places(x) == old(Places(x)) + One(buf, x)
    {
      hide TableOk, Cached, Pending, Occurs, Transmit.Mbufs;
      if port > Transmit.PORT_MAX {
        DestroyAll(buf);
      } else if hw {
        if sendOk {
          forall x ensures Occurs(hardware + [buf], x) == Occurs(hardware, x) + One(buf, x) {
            OccursSplit(hardware, [buf], x);
            OccursOne(buf, x);
          }
          hardware := hardware + [buf];
        } else {
          DestroyAll(buf);
        }
      } else if port == Transmit.PORT_MAX {
        fault := true;
      } else {
        var e := Transmit.Sending(buf, sendOk);
        if !Transmit.Queued(rings[port], e) {
          DestroyAll(buf);
        } else {
          var q := Transmit.Next(rings[port], e);
          forall x ensures Pending(rings[port := q], x) == Pending(rings, x) + One(buf, x) {
            PendingUpdate(rings, port, q, x);
            QueueOneMore(rings[port], buf, x);
          }
          rings := rings[port := q];
        }
      }
    }

    /** FlowHandlePacket, then l7_deliver. */
    method FlowHandlePacket(buf: Buffer, hw: bool, env: Env)
      requires Valid() && !fault
      modifies this`rings, this`destroyed, this`hardware, this`fault
      ensures Valid() && (fault <==> env.flowOk && !hw && env.port == Transmit.PORT_MAX)
      ensures if env.flowOk then Offered(buf, hw, env.port, env.sendOk, []) else Dropped(buf, [])
      ensures !fault ==> forall x :: Places(x) == old(Places(x)) + One(buf, x)
    {
      hide TableOk, Cached, Pending, Occurs;
      if !env.flowOk {
        DestroyAll(buf);
      } else {
        TxProcess(buf, hw, env.port, env.sendOk);
      }
    }

    /** DecodeTCP and DecodeUDP: a dropped packet is left to the caller. */
    method DecodeTransport(buf: Buffer, hw: bool, env: Env) returns (v: Verdict)
      requires Valid() && !fault
      modifies this`rings, this`destroyed, this`hardware, this`fault
      ensures Valid() && (fault <==> env.transportOk && env.flowOk && !hw && env.port == Transmit.PORT_MAX)
      ensures v.DecodeOk? <==> env.transportOk
      ensures if !env.transportOk then destroyed == old(destroyed) && hardware == old(hardware) && rings == old(rings)
              else if env.flowOk then Offered(buf, hw, env.port, env.sendOk, []) else Dropped(buf, [])
      ensures !fault ==> forall x :: Places(x) == old(Places(x)) + if v.DecodeOk? then One(buf, x) else 0
    {
      hide TableOk, Cached, Pending, Occurs;
      if !env.transportOk {
        return DecodeDrop;
      }
      FlowHandlePacket(buf, hw, env);
      return DecodeOk;
    }

    /** FragFind: the block of a key. */
    method FragFind(key: Key) returns (i: int)
      ensures -1 <= i < |table|
      ensures i >= 0 ==> table[i].key == key
      ensures i == -1 ==> forall j :: 0 <= j < |table| ==> table[j].key != key
    {
      i := 0;
      while i < |table|
        invariant 0 <= i <= |table| && forall j :: 0 <= j < i ==> table[j].key != key
      {
        if table[i].key == key {
          return;
        }
        i := i + 1;
      }
      return -1;
    }

    /** Defrag: the fragment's buffer is destroyed or cached; a full datagram comes back in a new buffer. */
    method Reassembly(f: Fragment, env: Env) returns (whole: Option<Buffer>, freed: seq<Buffer>)
      requires Valid() && Decoded(f.frag)
      modifies this`table, this`destroyed
      ensures Valid() && forall x :: Places(x) == old(Places(x)) + One(f.frag.id, x)
      ensures destroyed == old(destroyed) + freed
      ensures !KeyIn(old(table), f.key) && !env.fcbOk ==> whole.None? && freed == [f.frag.id] && table == old(table)
      ensures (KeyIn(old(table), f.key) || env.fcbOk) && !env.swOk ==>
        && whole.None? && freed == [f.frag.id]
        && OnlyKeyChanged(old(table), table, f.key, BlockFor(old(table), f.key))
      ensures (KeyIn(old(table), f.key) || env.fcbOk) && env.swOk ==>
        && AllDecoded(BlockFor(old(table), f.key).frags)
        && var r := Step(BlockFor(old(table), f.key), f.frag, env.room);
           && OnlyKeyChanged(old(table), table, f.key, r.block) && freed == Ids(r.released)
           && whole == (if r.packet.Some? then Some(env.newBuf) else None)
    {
      hide Defrag.Step, Decoded, Cached, Pending, Occurs, Ids, Ordered, Within, SumLen, OnlyKeyChanged, BlockFor;
      var i := FragFind(f.key);
      if i == -1 {
        if !env.fcbOk {
          DestroyAll(f.frag.id);
          return None, [f.frag.id];
        }
        assert BlockFor(table, f.key) == Fresh by { NoBlock(table, f.key); }
        forall x ensures Cached([Fcb(f.key, Fresh)] + table, x) == Cached(table, x) {
          CachedSplit([Fcb(f.key, Fresh)], table, x);
          FreshCachesNothing(f.key, x);
        }
        FreshIsValid();
        NewBlock(table, f.key);
        table := [Fcb(f.key, Fresh)] + table;
        i := 0;
      }
      BlockAt(table, i);
      Unchanged(table, f.key);
      ghost var mid := table;
      assert KeyIn(old(table), f.key) ==> mid == old(table);
      assert OnlyKeyChanged(old(table), mid, f.key, BlockFor(old(table), f.key));
      if !env.swOk {
        DestroyAll(f.frag.id);
        return None, [f.frag.id];
      }
      var b := table[i].block;
      var r := Step(b, f.frag, env.room);
      StepKeepsValid(b, f.frag, env.room);
      forall x ensures Cached(table[i := Fcb(f.key, r.block)], x) + Occurs(destroyed + Ids(r.released), x)
                       == Cached(table, x) + Occurs(destroyed, x) + One(f.frag.id, x)
      {
        StepKeepsIds(b, f.frag, env.room, x);
        CachedUpdate(table, i, Fcb(f.key, r.block), x);
        OccursSplit(destroyed, Ids(r.released), x);
      }
      TableUpdated(table, i, r.block);
      ChangedBlock(table, i, r.block);
      ChangedTwice(old(table), mid, table[i := Fcb(f.key, r.block)], f.key, b, r.block);
      table := table[i := Fcb(f.key, r.block)];
      freed := Ids(r.released);
      destroyed := destroyed + freed;
      whole := if r.packet.Some? then Some(env.newBuf) else None;
    }

    /** DecodeIPV4: `made` is the buffer of a reassembled datagram, if one was built; `freed` are fragments destroyed. */
    method DecodeIPV4(p: Packet, env: Env) returns (v: Verdict, made: Option<Buffer>, freed: seq<Buffer>)
      requires Valid() && !fault && WellFormed(p)
      modifies this
      ensures Valid() && (made.Some? ==> made.value == env.newBuf)
      ensures fault <==> env.headerOk && Good(env) && env.port == Transmit.PORT_MAX
                         && (made.Some? || (p.fragment.None? && !p.hw))
      ensures !fault && v.DecodeDrop? ==> made.None? && forall x :: Places(x) == old(Places(x))
      ensures !fault && v.DecodeOk? ==>
                forall x :: Places(x) == old(Places(x)) + One(p.buf, x) + (if made.Some? then One(made.value, x) else 0)
      ensures v.DecodeOk? <==> env.headerOk
      ensures !env.headerOk ==> destroyed == old(destroyed) && hardware == old(hardware) && rings == old(rings)
      ensures env.headerOk ==> Fate(p, env, made, freed)
    {
      hide TableOk, Cached, Pending, Occurs, OnlyKeyChanged, BlockFor, KeyIn;
      freed := [];
      if !env.headerOk {
        return DecodeDrop, None, [];
      }
      var buf, hw := p.buf, p.hw;
      made := None;
      if p.fragment.Some? {
        made, freed := Reassembly(p.fragment.value, env);
        if made.None? {
          return DecodeOk, None, freed;
        }
        buf, hw := made.value, false;
      }
      if env.supported {
        var t := DecodeTransport(buf, hw, env);
        if t.DecodeDrop? {
          DestroyAll(buf);
        }
      } else {
        DestroyAll(buf);
      }
      return DecodeOk, made, freed;
    }

    /**
     What becomes of a packet with a good IP header. A fragment that completes nothing leaves the rings and the
     hardware alone; a whole packet, or the one just reassembled, is offered to its port if protocol, transport
     header and flow are good, and is destroyed otherwise.
     */
    twostate predicate Fate(p: Packet, env: Env, new made: Option<Buffer>, new freed: seq<Buffer>)
      requires |old(rings)| == Transmit.PORT_MAX
      reads this
    {
      if p.fragment.Some? && made.None? then
        destroyed == old(destroyed) + freed && hardware == old(hardware) && rings == old(rings)
      else
        var buf, hw := if made.Some? then made.value else p.buf, made.None? && p.hw;
        && (p.fragment.None? ==> made.None? && freed == [])
        && if Good(env) then Offered(buf, hw, env.port, env.sendOk, freed) else Dropped(buf, freed)
    }

    /** Decode: whatever the outcome, the buffer handed in is in exactly one more place afterwards, and in the right one. */
    method Decode(p: Packet, env: Env) returns (made: Option<Buffer>, freed: seq<Buffer>)
      requires Valid() && !fault && WellFormed(p)
      modifies this
      ensures Valid() && (made.Some? ==> made.value == env.newBuf)
      ensures fault <==> env.linkOk && env.headerOk && Good(env) && env.port == Transmit.PORT_MAX
                         && (made.Some? || (p.fragment.None? && !p.hw))
      ensures !fault ==>
                forall x :: Places(x) == old(Places(x)) + One(p.buf, x) + (if made.Some? then One(made.value, x) else 0)
      ensures if env.linkOk && env.headerOk then Fate(p, env, made, freed) else made.None? && Dropped(p.buf, [])
    {
      hide TableOk, Cached, Pending, Occurs;
      var v := DecodeDrop;
      made, freed := None, [];
      if env.linkOk {
        v, made, freed := DecodeIPV4(p, env);
      }
      if v.DecodeDrop? {
        DestroyAll(p.buf);
      }
    }

    /** Frag_defrag_timeout on one block: its fragments move from the cache to the destroyed. */
    method Expire(i: nat)
      requires Valid() && i < |table|
      modifies this`table, this`destroyed
      ensures Valid() && forall x :: Places(x) == old(Places(x))
      ensures table == old(table)[..i] + old(table)[i + 1..] && destroyed == old(destroyed) + Ids(old(table)[i].block.frags)
    {
      hide Cached, Pending, Occurs, Ids;
      var e := table[i];
      assert table == table[..i] + [e] + table[i + 1..];
      forall x ensures Cached(table, x) + Occurs(destroyed, x)
                       == Cached(table[..i] + table[i + 1..], x) + Occurs(destroyed + Ids(e.block.frags), x)
      {
        CachedSplit(table[..i] + [e], table[i + 1..], x);
        CachedSplit(table[..i], [e], x);
        CachedSplit(table[..i], table[i + 1..], x);
        CachedOne(e, x);
        OccursSplit(destroyed, Ids(e.block.frags), x);
      }
      destroyed := destroyed + Ids(e.block.frags);
      table := table[..i] + table[i + 1..];
    }

    /** oct_tx_done_check on one port: what was sent moves from the ring to the destroyed. */
    method TxDone(port: nat)
      requires Valid() && port < Transmit.PORT_MAX
      modifies this`rings, this`destroyed
      ensures Valid() && forall x :: Places(x) == old(Places(x))
      ensures var q := old(rings)[port]; var n := Transmit.SentPrefix(q);
        rings == old(rings)[port := q[n..]] && destroyed == old(destroyed) + Transmit.Mbufs(q[..n])
    {
      hide TableOk, Cached, Pending, Occurs, Transmit.Mbufs;
      var q := rings[port];
      var n := Transmit.SentPrefix(q);
      assert q[..n] + q[n..] == q && Transmit.Next(q, Transmit.Check) == q[n..];
      forall x ensures Pending(rings, x) + Occurs(destroyed, x)
                       == Pending(rings[port := q[n..]], x) + Occurs(destroyed + Transmit.Mbufs(q[..n]), x)
      {
        PendingUpdate(rings, port, q[n..], x);
        Transmit.MbufsOfParts(q[..n], q[n..]);
        OccursSplit(Transmit.Mbufs(q[..n]), Transmit.Mbufs(q[n..]), x);
        OccursSplit(destroyed, Transmit.Mbufs(q[..n]), x);
      }
      destroyed := destroyed + Transmit.Mbufs(q[..n]);
      rings := rings[port := Transmit.Next(q, Transmit.Check)];
    }

    /** The hardware reports one pending descriptor sent. */
    method TxComplete(port: nat, i: nat)
      requires Valid() && port < Transmit.PORT_MAX
      modifies this`rings
      ensures Valid() && forall x :: Places(x) == old(Places(x))
      ensures rings == old(rings)[port := Transmit.Next(old(rings)[port], Transmit.Completed(i))]
    {
      hide TableOk, Cached, Pending, Occurs, Transmit.Mbufs;
      var q := Transmit.Next(rings[port], Transmit.Completed(i));
      assert Transmit.Mbufs(q) == Transmit.Mbufs(rings[port]);
      forall x ensures Pending(rings[port := q], x) == Pending(rings, x) {
        PendingUpdate(rings, port, q, x);
      }
      rings := rings[port := q];
    }

    /** Any run: every buffer handed in or made along the way is in one place for each time it was. */
    method Operate(inputs: seq<Input>) returns (made: seq<Buffer>)
      requires Valid() && !fault && forall i :: 0 <= i < |inputs| ==> Acceptable(inputs[i])
      modifies this
      ensures Valid()
      ensures !fault ==> forall x :: Places(x) == old(Places(x)) + Occurs(Handed(inputs), x) + Occurs(made, x)
      ensures fault ==> exists i :: 0 <= i < |inputs| && inputs[i].Arrives? && inputs[i].env.port == Transmit.PORT_MAX
    {
      hide TableOk, Cached, Pending;
      made := [];
      var i := 0;
      while i < |inputs|
        invariant 0 <= i <= |inputs| && Valid() && !fault
        invariant forall x :: Places(x) == old(Places(x)) + Occurs(Handed(inputs[..i]), x) + Occurs(made, x)
      {
        HandedOneMore(inputs, i);
        match inputs[i] {
          case Arrives(p, env) =>
            var whole, _ := Decode(p, env);
            if fault {
              return;
            }
            if whole.Some? {
              OccursOneMore(made, whole.value);
              made := made + [whole.value];
            }
          case TimesOut(k) =>
            if k < |table| {
              Expire(k);
            }
          case Completes(port, k) => TxComplete(port, k);
          case Checks(port) => TxDone(port);
        }
        i := i + 1;
      }
      assert inputs[..i] == inputs;
    }
  }

  /** What the data plane reacts to. */
  datatype Input = Arrives(p: Packet, env: Env) | TimesOut(i: nat) | Completes(port: nat, k: nat) | Checks(port: nat)

  predicate Acceptable(e: Input) {
    match e
    case Arrives(p, _) => WellFormed(p)
    case TimesOut(_) => true
    case Completes(port, _) => port < Transmit.PORT_MAX
    case Checks(port) => port < Transmit.PORT_MAX
  }

  function Handed(inputs: seq<Input>): seq<Buffer> {
    if inputs == [] then []
    else Handed(inputs[..|inputs| - 1]) + if inputs[|inputs| - 1].Arrives? then [inputs[|inputs| - 1].p.buf] else []
  }

  lemma OccursOneMore(s: seq<Buffer>, a: Buffer)
    ensures forall x :: Occurs(s + [a], x) == Occurs(s, x) + One(a, x)
  {
    forall x ensures Occurs(s + [a], x) == Occurs(s, x) + One(a, x) {
      OccursSplit(s, [a], x);
      OccursOne(a, x);
    }
  }

  lemma HandedOneMore(inputs: seq<Input>, i: nat)
    requires i < |inputs|
    ensures forall x :: Occurs(Handed(inputs[..i + 1]), x) ==
              Occurs(Handed(inputs[..i]), x) + if inputs[i].Arrives? then One(inputs[i].p.buf, x) else 0
  {
    assert inputs[..i + 1][..i] == inputs[..i];
    if inputs[i].Arrives? {
      OccursOneMore(Handed(inputs[..i]), inputs[i].p.buf);
    } else {
      assert Handed(inputs[..i + 1]) == Handed(inputs[..i]);
    }
  }

  /** Buffers that are never handed in twice are each in exactly one place. */
  lemma {:induction false} DistinctOccurOnce(s: seq<Buffer>, x: Buffer)
    requires forall i, j :: 0 <= i < j < |s| ==> s[i] != s[j]
    ensures Occurs(s, x) == if x in s then 1 else 0
  {
    if s != [] {
      var n := |s| - 1;
      DistinctOccurOnce(s[..n], x);
      assert s == s[..n] + [s[n]];
    }
  }

  lemma QueueOneMore(q: seq<Transmit.Desc>, buf: Buffer, x: Buffer)
    ensures Occurs(Transmit.Mbufs(q + [Transmit.Desc(buf, false)]), x) == Occurs(Transmit.Mbufs(q), x) + One(buf, x)
  {
    Transmit.MbufsOfParts(q, [Transmit.Desc(buf, false)]);
    assert Transmit.Mbufs([Transmit.Desc(buf, false)]) == [buf];
    OccursSplit(Transmit.Mbufs(q), [buf], x);
    OccursOne(buf, x);
  }

  lemma FreshIsValid()
    ensures Defrag.Valid(Fresh)
  {
  }

  lemma FreshCachesNothing(key: Key, x: Buffer)
    ensures Cached([Fcb(key, Fresh)], x) == 0
  {
    CachedOne(Fcb(key, Fresh), x);
    assert Ids([]) == [];
  }
}
