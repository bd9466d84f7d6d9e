/** PyQueueTap and the python queue behind it, as the objects that the steps of GilProtocol
    work on: which packets reach python code, in which order, and what becomes of the others. */
module PyTap {
  import opened Packets
  import opened Counting
  import opened Folds

  /** How put() ends; WouldBlock is the wait for a free slot. */
  datatype PutResult = Stored | ShutDown | Full | WouldBlock

  /** A shut down queue refuses everything, before it looks at its size. Capacity 0 is unbounded. */
  function PutOutcome(shut: bool, size: nat, capacity: nat, blocking: bool): PutResult {
    if shut then ShutDown
    else if capacity == 0 || size < capacity then Stored
    else if blocking then WouldBlock else Full
  }

  class PyQueue {
    const capacity: nat
    var content: seq<ReceivedPacket>
    var shut: bool
    ghost var taken: seq<ReceivedPacket>      // handed out by get() or discarded, oldest first

    constructor (capacity: nat)
      ensures this.capacity == capacity && content == taken == [] && !shut
    {
      this.capacity, content, shut, taken := capacity, [], false, [];
    }

    method Put(rp: ReceivedPacket, blocking: bool) returns (r: PutResult)
      modifies this`content
      ensures r.ShutDown? <==> shut
      ensures r.Stored? <==> !shut && (capacity > 0 ==> |old(content)| < capacity)
      ensures r.WouldBlock? ==> blocking
      ensures r.Full? ==> !blocking
      ensures content == old(content) + if r == Stored then [rp] else []
    {
      if shut {
        return ShutDown;
      }
      if capacity > 0 && |content| >= capacity {
        return if blocking then WouldBlock else Full;
      }
      content := content + [rp];
      return Stored;
    }

    method Get() returns (rp: ReceivedPacket)
      requires content != []
      modifies this`content, this`taken
      ensures [rp] + content == old(content) && taken == old(taken) + [rp]
    {
      rp := content[0];
      taken := taken + [rp];
      content := content[1..];
    }

    method Shutdown(immediate: bool)
      modifies this
      ensures shut && taken + content == old(taken + content) && (content == if immediate then [] else old(content))
    {
      shut := true;
      if immediate {
        taken := taken + content;
        content := [];
      }
    }
  }

  datatype Fate = Kept | Dropped | Refused

  function FateOf(r: PutResult): Fate {
    match r
    case Stored => Kept
    case ShutDown => Refused
    case _ => Dropped
  }

  datatype ConsumeResult = Done | Waits | Throws

  /** A packet given to the tap and what became of it. */
  datatype Given = Given(rp: ReceivedPacket, fate: Fate)

  ghost predicate WasKept(g: Given) { g.fate == Kept }
  ghost predicate WasDropped(g: Given) { g.fate == Dropped }
  ghost function PacketGiven(g: Given): ReceivedPacket { g.rp }

  ghost function KeptOf(given: seq<Given>): seq<ReceivedPacket> {
    MapSeq(Filter(given, WasKept), PacketGiven)
  }

  class PyQueueTap {
    const queue: PyQueue
    const blocking: bool
    var shutDown: bool
    var dropped: nat
    ghost var given: seq<Given>
    ghost var broken: bool                    // consume() has thrown, so the readout loop has ended

    /** Every packet that ever was in the queue was kept, in the order given; dropped counts
        the drops; once one packet was refused all later ones are. */
    ghost predicate Valid()
      reads this, queue
    {
      && queue.taken + queue.content == KeptOf(given)
      && dropped == Count(given, WasDropped)
      && (blocking ==> dropped == 0)
      && (shutDown ==> queue.shut)
      && (!queue.shut && !broken ==> forall i | 0 <= i < |given| :: given[i].fate != Refused)
      && (forall i, j | 0 <= i < j < |given| :: given[i].fate == Refused ==> given[j].fate == Refused)
    }

    constructor (queue: PyQueue, blocking: bool)
      requires queue.content == queue.taken == []
      ensures Valid() && this.queue == queue && this.blocking == blocking && given == [] && !broken
    {
      this.queue, this.blocking, shutDown, dropped, given, broken := queue, blocking, false, 0, [], false;
      new;
      assert KeptOf([]) == [];
    }

    /** consume(). Waits: put() waits, to be tried again when the queue changes. breaks: put()
        fails with an exception of another kind, which is passed on. */
    method Consume(rp: ReceivedPacket, breaks: bool) returns (r: ConsumeResult)
      requires Valid() && !broken
      modifies this, queue`content
      ensures Valid() && queue.shut == old(queue.shut) && broken == r.Throws?
      ensures r.Throws? <==> breaks && !old(shutDown)
      ensures r.Waits? <==> !breaks && !queue.shut && blocking && 0 < queue.capacity <= |old(queue.content)|
      ensures r.Waits? ==> given == old(given)
      ensures !r.Waits? ==>
        given == old(given) + [Given(rp, if r.Throws? || queue.shut then Refused
                                         else if 0 < queue.capacity <= |old(queue.content)| then Dropped else Kept)]
      ensures queue.content
           == old(queue.content) + if given != old(given) && given[|given| - 1].fate.Kept? then [rp] else []
    {
      hide KeptOf, Count;
      if shutDown {
        Note(rp);
        return Done;
      }
      if breaks {
        broken := true;
        KeptGrows(given, Given(rp, Refused));
        given := given + [Given(rp, Refused)];
        return Throws;
      }
      var put := queue.Put(rp, blocking);
      KeptGrows(given, Given(rp, FateOf(put)));
      match put {
        case Stored =>
          given := given + [Given(rp, Kept)];
        case ShutDown =>
          shutDown := true;
          given := given + [Given(rp, Refused)];
        case Full =>
          dropped := dropped + 1;
          given := given + [Given(rp, Dropped)];
        case WouldBlock =>
          return Waits;
      }
      return Done;
    }

    ghost method Note(rp: ReceivedPacket)
      requires Valid() && queue.shut
      modifies this`given
      ensures Valid() && given == old(given) + [Given(rp, Refused)]
    {
      hide KeptOf, Count;
      KeptGrows(given, Given(rp, Refused));
      given := given + [Given(rp, Refused)];
    }

    /** What python code and stop() do to the queue, get() and shutdown(), does not disturb the tap. */
    twostate lemma OthersMayAct()
      requires old(Valid()) && unchanged(this)
      requires queue.taken + queue.content == old(queue.taken + queue.content) && (old(queue.shut) ==> queue.shut)
      ensures Valid()
    {
    }

    /** finished(): python code still gets what is in the queue. */
    method Finished()
      requires Valid()
      modifies queue
      ensures Valid() && queue.shut && queue.content == old(queue.content)
    {
      queue.Shutdown(false);
    }

    /** Every packet given to the tap reached the queue, was dropped or was refused. */
    lemma NothingIsLost()
      requires Valid()
      ensures |given| == |queue.taken| + |queue.content| + dropped + Count(given, WasRefused)
    {
      FatesCount(given);
    }
  }

  ghost predicate WasRefused(g: Given) { g.fate == Refused }

  lemma KeptGrows(given: seq<Given>, g: Given)
    ensures KeptOf(given + [g]) == KeptOf(given) + if WasKept(g) then [g.rp] else []
    ensures Count(given + [g], WasDropped) == Count(given, WasDropped) + if WasDropped(g) then 1 else 0
  {
    FilterSnoc(given, g, WasKept);
    CountSnoc(given, g, WasDropped);
    if WasKept(g) {
      MapSnoc(Filter(given, WasKept), g, PacketGiven);
    }
  }

  lemma {:induction false} FatesCount(given: seq<Given>)
    ensures |given| == |Filter(given, WasKept)| + Count(given, WasDropped) + Count(given, WasRefused)
  {
    if given != [] {
      var n := |given| - 1;
      FatesCount(given[..n]);
      assert given == given[..n] + [given[n]];
      FilterSnoc(given[..n], given[n], WasKept);
      CountSnoc(given[..n], given[n], WasDropped);
      CountSnoc(given[..n], given[n], WasRefused);
    }
  }
}
