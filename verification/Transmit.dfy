/** The per-port transmit rings: descriptors wait in a 64-slot ring until the hardware reports them sent. */
module Transmit {
  const DESC_NUM := 64
  const PORT_MAX := 4

  type Mbuf = nat

  /** oct_pko_pend_tx_done_t: mem_ref stays 0xFF until the hardware clears it. */
  datatype Desc = Desc(mb: Mbuf, sent: bool)

  /** What a drain takes: the leading descriptors already sent. */
  function SentPrefix(q: seq<Desc>): (n: nat)
    ensures n <= |q| && (forall i :: 0 <= i < n ==> q[i].sent) && (n < |q| ==> !q[n].sent)
  {
    if q == [] || !q[0].sent then 0 else 1 + SentPrefix(q[1..])
  }

  function Mbufs(q: seq<Desc>): (m: seq<Mbuf>)
    ensures |m| == |q| && forall i :: 0 <= i < |q| ==> m[i] == q[i].mb
  {
    if q == [] then [] else [q[0].mb] + Mbufs(q[1..])
  }

  /** (i + k) & 63 */
  function Around(i: nat, k: nat): (r: nat)
    ensures r < DESC_NUM
  {
    (i + k) % DESC_NUM
  }

  lemma AroundZero(i: nat)
    requires i < DESC_NUM
    ensures Around(i, 0) == i
  {
  }

  lemma AroundAdds(i: nat, j: nat, k: nat)
    requires i < DESC_NUM && j <= DESC_NUM && k <= DESC_NUM
    ensures Around(Around(i, j), k) == Around(i, j + k)
  {
  }

  lemma AroundDistinct(i: nat, j: nat, k: nat)
    requires i < DESC_NUM && j < k < DESC_NUM
    ensures Around(i, j) != Around(i, k)
  {
  }

  class Ring {
    const slots: array<Desc>
    var producer: nat
    var consumer: nat
    var entries: nat

    ghost predicate Valid()
      reads this, slots
    {
      && slots.Length == DESC_NUM && producer < DESC_NUM && consumer < DESC_NUM
      && entries < DESC_NUM && producer == Around(consumer, entries)
    }

    /** Pending descriptors, oldest first. */
    ghost function Queue(): (q: seq<Desc>)
      requires Valid()
      reads this, slots
      ensures |q| == entries
    {
      seq(entries, i requires 0 <= i < entries reads this, slots requires Valid() => slots[Around(consumer, i)])
    }

    constructor ()
      ensures Valid() && fresh(slots) && Queue() == []
    {
      slots := new Desc[DESC_NUM](i => Desc(0, false));
      producer, consumer, entries := 0, 0, 0;
    }

    /** oct_pend_tx_done_add: the slot written is not one that is pending. */
    method Add(mb: Mbuf)
      requires Valid() && entries < DESC_NUM - 1
      modifies this, slots
      ensures Valid() && Queue() == old(Queue()) + [Desc(mb, false)] && consumer == old(consumer)
    {
      slots[producer] := Desc(mb, false);
      producer := Around(producer, 1);
      entries := entries + 1;
    }

    /** oct_pend_tx_done_remove: the newest descriptor is withdrawn. */
    method Remove()
      requires Valid() && entries > 0
      modifies this
      ensures Valid() && Queue() == old(Queue())[..old(entries) - 1] && consumer == old(consumer)
    {
      producer := Around(producer, DESC_NUM - 1);
      entries := entries - 1;
    }

    /** The hardware clears mem_ref of one pending descriptor. */
    method Complete(i: nat)
      requires Valid() && i < entries
      modifies slots
      ensures Valid() && Queue() == old(Queue())[i := old(Queue())[i].(sent := true)]
    {
      var at := Around(consumer, i);
      slots[at] := slots[at].(sent := true);
    }

    /** One port of oct_tx_done_check: free every leading descriptor already sent, in order, and stop at the first that is not. */
    method Drain() returns (destroyed: seq<Mbuf>)
      requires Valid()
      modifies this
      ensures Valid() && Queue() == old(Queue())[SentPrefix(old(Queue()))..]
      ensures destroyed == Mbufs(old(Queue())[..SentPrefix(old(Queue()))])
    {
      hide Around;
      destroyed := [];
      ghost var q := Queue();
      ghost var n := 0;
      assert Around(consumer, 0) == consumer by { AroundZero(consumer); }
      if entries != 0 {
        var c := consumer;
        while c != producer
          invariant n <= |q| && entries == |q| - n && c == Around(consumer, n)
          invariant producer == old(producer) && consumer == old(consumer)
          invariant n <= SentPrefix(q) && destroyed == Mbufs(q[..n])
          decreases |q| - n
        {
          assert n < |q|;
          assert slots[c] == q[n];
          if !slots[c].sent {
            break;
          }
          MbufsSnoc(q, n);
          destroyed := destroyed + [slots[c].mb];
          AroundAdds(consumer, n, 1);
          c := Around(c, 1);
          entries := entries - 1;
          n := n + 1;
        }
        if n < |q| {
          AroundDistinct(consumer, n, |q|);
        }
        consumer := c;
        forall i | 0 <= i <= entries ensures Around(consumer, i) == Around(old(consumer), n + i) {
          AroundAdds(old(consumer), n, i);
        }
      }
    }
  }

  lemma MbufsSnoc(q: seq<Desc>, n: nat)
    requires n < |q|
    ensures Mbufs(q[..n + 1]) == Mbufs(q[..n]) + [q[n].mb]
  {
  }

  // ---------------------------------------------------------------------------
  // First in, first out

  /** What can happen to one port's ring: a send, a completion reported by the hardware, a check. */
  datatype Event = Sending(mb: Mbuf, accepted: bool) | Completed(i: nat) | Check

  function Queued(q: seq<Desc>, e: Event): bool {
    e.Sending? && |q| < DESC_NUM - 1 && e.accepted
  }

  function Next(q: seq<Desc>, e: Event): seq<Desc> {
    match e
    case Sending(mb, _) => if Queued(q, e) then q + [Desc(mb, false)] else q
    case Completed(i) => if i < |q| then q[i := q[i].(sent := true)] else q
    case Check => q[SentPrefix(q)..]
  }

  /** The ring after a run, the buffers that entered it, and the buffers freed from it, each in order. */
  datatype Trace = Trace(queue: seq<Desc>, entered: seq<Mbuf>, freed: seq<Mbuf>)

  function Run(es: seq<Event>): Trace {
    if es == [] then Trace([], [], [])
    else
      var t, e := Run(es[..|es| - 1]), es[|es| - 1];
      Trace(Next(t.queue, e),
            t.entered + (if Queued(t.queue, e) then [e.mb] else []),
            t.freed + (if e.Check? then Mbufs(t.queue[..SentPrefix(t.queue)]) else []))
  }

  lemma MbufsOfParts(a: seq<Desc>, b: seq<Desc>)
    ensures Mbufs(a + b) == Mbufs(a) + Mbufs(b)
  {
  }

  /** Over every run buffers are freed in the order they entered, none twice, none lost, and the ring never overflows. */
  lemma {:induction false} FirstInFirstOut(es: seq<Event>)
    ensures var t := Run(es); t.entered == t.freed + Mbufs(t.queue) && |t.queue| < DESC_NUM
  {
    hide Mbufs, SentPrefix;
    if es != [] {
      var e := es[|es| - 1];
      FirstInFirstOut(es[..|es| - 1]);
      var q := Run(es[..|es| - 1]).queue;
      match e
      case Sending(mb, _) =>
        MbufsOfParts(q, [Desc(mb, false)]);
      case Completed(i) =>
        if i < |q| {
          assert Mbufs(q[i := q[i].(sent := true)]) == Mbufs(q);
        }
      case Check =>
        MbufsOfParts(q[..SentPrefix(q)], q[SentPrefix(q)..]);
        assert q[..SentPrefix(q)] + q[SentPrefix(q)..] == q;
    }
  }

  // ---------------------------------------------------------------------------
  // All ports

  /** What a queue keeps and what it frees when it is checked. */
  function Kept(q: seq<Desc>): seq<Desc> { q[SentPrefix(q)..] }

  function Freed(q: seq<Desc>): seq<Mbuf> { Mbufs(q[..SentPrefix(q)]) }

  /** What the first n ports free, port after port. */
  function FreedBy(qs: seq<seq<Desc>>, n: nat): seq<Mbuf>
    requires n <= |qs|
  {
    if n == 0 then [] else FreedBy(qs, n - 1) + Freed(qs[n - 1])
  }

  lemma FreedByAll(qs: seq<seq<Desc>>)
    requires |qs| == PORT_MAX
    ensures FreedBy(qs, 4) == Freed(qs[0]) + Freed(qs[1]) + Freed(qs[2]) + Freed(qs[3])
  {
    hide Freed;
    assert FreedBy(qs, 1) == FreedBy(qs, 0) + Freed(qs[0]) == Freed(qs[0]);
    assert FreedBy(qs, 2) == FreedBy(qs, 1) + Freed(qs[1]);
    assert FreedBy(qs, 3) == FreedBy(qs, 2) + Freed(qs[2]);
  }

  function Pending(qs: seq<seq<Desc>>): nat
    requires |qs| == PORT_MAX
  {
    |qs[0]| + |qs[1]| + |qs[2]| + |qs[3]|
  }

  lemma PendingUpdate(qs: seq<seq<Desc>>, port: nat, q: seq<Desc>)
    requires |qs| == PORT_MAX && port < PORT_MAX
    ensures Pending(qs[port := q]) == Pending(qs) - |qs[port]| + |q|
  {
    if port == 0 {
    } else if port == 1 {
    } else if port == 2 {
    } else {
      assert port == 3;
    }
  }

  /** One core's rings, one per port, and the count of descriptors pending in all of them. */
  class Sender {
    const rings: seq<Ring>
    var total: nat

    ghost predicate Valid()
      reads this, rings, set r | r in rings :: r.slots
    {
      && |rings| == PORT_MAX && (forall i :: 0 <= i < PORT_MAX ==> rings[i].Valid())
      && (forall i, j :: 0 <= i < j < PORT_MAX ==> rings[i] != rings[j] && rings[i].slots != rings[j].slots)
    }

    /** oct_tx_entries is the number of descriptors pending over all ports. */
    ghost predicate Balanced()
      requires Valid()
      reads this, rings, set r | r in rings :: r.slots
    {
      total == Pending(Queues())
    }

    ghost function Queues(): (qs: seq<seq<Desc>>)
      requires Valid()
      reads this, rings, set r | r in rings :: r.slots
      ensures |qs| == PORT_MAX && forall p :: 0 <= p < PORT_MAX ==> qs[p] == rings[p].Queue()
    {
      [rings[0].Queue(), rings[1].Queue(), rings[2].Queue(), rings[3].Queue()]
    }

    constructor ()
      ensures Valid() && Balanced() && Queues() == [[], [], [], []]
    {
      hide Around, Ring.Queue, Ring.Valid;
      var a := new Ring();
      var b := new Ring();
      var c := new Ring();
      var d := new Ring();
      rings, total := [a, b, c, d], 0;
    }

    /** The software-buffer branch of oct_tx_process_mbuf: queued, or destroyed exactly once. */
    method Send(mb: Mbuf, port: nat, accepted: bool) returns (destroyed: seq<Mbuf>)
      requires Valid() && Balanced() && port < PORT_MAX
      modifies this, rings[port], rings[port].slots
      ensures Valid() && Balanced()
      ensures var room := old(rings[port].entries) < DESC_NUM - 1;
        if room && accepted then
          Queues() == old(Queues())[port := old(Queues())[port] + [Desc(mb, false)]] && destroyed == []
        else
          Queues() == old(Queues()) && destroyed == [mb]
    {
      hide Around, Pending, Ring.Queue, Ring.Valid;
      ghost var qs := Queues();
      if rings[port].entries < DESC_NUM - 1 {
        rings[port].Add(mb);
        total := total + 1;
        PendingUpdate(qs, port, qs[port] + [Desc(mb, false)]);
        assert Queues() == qs[port := qs[port] + [Desc(mb, false)]];
      } else {
        return [mb];
      }
      if !accepted {
        rings[port].Remove();
        assert (qs[port] + [Desc(mb, false)])[..|qs[port]|] == qs[port];
        total := total - 1;
        assert Queues() == qs;
        return [mb];
      }
      return [];
    }

    /** oct_tx_done_check, one port: what was sent leaves the ring and is destroyed, oldest first. */
    method DrainPort(port: nat) returns (destroyed: seq<Mbuf>)
      requires Valid() && Balanced() && port < PORT_MAX
      modifies this, rings[port]
      ensures Valid() && Balanced()
      ensures var q := old(Queues())[port]; var n := SentPrefix(q);
        Queues() == old(Queues())[port := q[n..]] && destroyed == Mbufs(q[..n])
    {
      hide Around, SentPrefix, Mbufs, Pending, Ring.Queue, Ring.Valid;
      ghost var qs := Queues();
      ghost var kept := qs[port][SentPrefix(qs[port])..];
      destroyed := rings[port].Drain();
      assert rings[port].Queue() == kept;
      forall p | 0 <= p < PORT_MAX && p != port ensures rings[p].Valid() && rings[p].Queue() == qs[p] {}
      PendingUpdate(qs, port, kept);
      assert Queues() == qs[port := kept];
      total := total - |destroyed|;
    }

    method DoneCheck() returns (destroyed: seq<Mbuf>)
      requires Valid() && Balanced()
      modifies this, rings
      ensures Valid() && Balanced()
      ensures var qs := old(Queues());
        && Queues() == [Kept(qs[0]), Kept(qs[1]), Kept(qs[2]), Kept(qs[3])]
        && destroyed == Freed(qs[0]) + Freed(qs[1]) + Freed(qs[2]) + Freed(qs[3])
    {
      hide Around, SentPrefix, Mbufs, Pending, Ring.Queue, Ring.Valid;
      destroyed := [];
      ghost var qs := Queues();
      var port := 0;
      while port < PORT_MAX
        invariant 0 <= port <= PORT_MAX && Valid() && Balanced() && destroyed == FreedBy(qs, port)
        invariant forall p :: 0 <= p < PORT_MAX ==> Queues()[p] == if p < port then Kept(qs[p]) else qs[p]
      {
        var gone := DrainPort(port);
        destroyed := destroyed + gone;
        port := port + 1;
      }
      FreedByAll(qs);
      assert Queues() == [Kept(qs[0]), Kept(qs[1]), Kept(qs[2]), Kept(qs[3])];
    }

    /** The hardware reports the i-th pending descriptor of a port sent; a report for none changes nothing. */
    method Complete(port: nat, i: nat)
      requires Valid() && Balanced() && port < PORT_MAX
      modifies rings[port].slots
      ensures Valid() && Balanced()
      ensures Queues() == old(Queues())[port := Next(old(Queues())[port], Completed(i))]
    {
      hide Around, SentPrefix, Mbufs, Pending, Ring.Queue, Ring.Valid;
      ghost var qs := Queues();
      if i < rings[port].entries {
        rings[port].Complete(i);
        PendingUpdate(qs, port, Next(qs[port], Completed(i)));
      }
      assert Queues() == qs[port := Next(qs[port], Completed(i))];
    }

    /** One event on a port; `freed` is what a check frees, a refused send being destroyed at once. */
    method Handle(port: nat, e: Event) returns (freed: seq<Mbuf>)
      requires Valid() && Balanced() && port < PORT_MAX
      modifies this, rings[port], rings[port].slots
      ensures Valid() && Balanced()
      ensures Queues() == old(Queues())[port := Next(old(Queues())[port], e)]
      ensures freed == if e.Check? then Mbufs(old(Queues())[port][..SentPrefix(old(Queues())[port])]) else []
    {
      hide Around, SentPrefix, Mbufs, Pending, Ring.Queue;
      freed := [];
      ghost var qs := Queues();
      match e
      case Sending(mb, accepted) =>
        var destroyed := Send(mb, port, accepted);
        assert qs[port := qs[port]] == qs;
      case Completed(i) =>
        Complete(port, i);
      case Check =>
        freed := DrainPort(port);
    }

    /** Any list of events on a port whose ring is empty leaves the queue and the freed buffers of the reference run. */
    method RunEvents(port: nat, es: seq<Event>) returns (freed: seq<Mbuf>)
      requires Valid() && Balanced() && port < PORT_MAX && Queues()[port] == []
      modifies this, rings[port], rings[port].slots
      ensures Valid() && Balanced()
      ensures Queues() == old(Queues())[port := Run(es).queue] && freed == Run(es).freed
      ensures Run(es).entered == freed + Mbufs(Queues()[port])
    {
      hide Around, SentPrefix, Mbufs, Pending, Ring.Queue, Ring.Valid, Next, Queued;
      freed := [];
      ghost var qs := Queues();
      var i := 0;
      assert qs[port := []] == qs;
      while i < |es|
        invariant 0 <= i <= |es| && Valid() && Balanced()
        invariant Queues() == qs[port := Run(es[..i]).queue] && freed == Run(es[..i]).freed
      {
        RunOneMore(es, i);
        var gone := Handle(port, es[i]);
        freed := freed + gone;
        i := i + 1;
      }
      assert es[..i] == es;
      FirstInFirstOut(es);
    }
  }

  lemma RunOneMore(es: seq<Event>, i: nat)
    requires i < |es|
    ensures var t, e := Run(es[..i]), es[i];
      && Run(es[..i + 1]).queue == Next(t.queue, e)
      && Run(es[..i + 1]).freed == t.freed + (if e.Check? then Mbufs(t.queue[..SentPrefix(t.queue)]) else [])
  {
    hide Mbufs, SentPrefix, Next, Queued;
    assert es[..i + 1][..i] == es[..i];
  }
}
