/**
 The in-process event bus.  Publishers hold the read lock for their whole send loop, so several of
 them may interleave send by send; subscribing and unsubscribing take the write lock, so they happen
 only while nobody publishes.  Channels keep their history beside their buffer.
 */
module EventBus {
  import opened Ordering

  const CAPACITY := 64

  /** An event together with the goroutine that publishes it. */
  datatype Offer = Offer(publisher: nat, run: nat, body: string)

  datatype Channel = Channel(
    run: nat,
    queue: seq<Offer>,      // the buffer
    closed: bool,
    offered: seq<Offer>,    // every send tried on it
    accepted: seq<Offer>,   // every send that went in
    received: seq<Offer>,   // what its reader has taken out
    drops: nat)

  datatype Bus = Bus(channels: seq<Channel>, listed: map<nat, seq<nat>>, dropped: nat, panicked: bool)

  // --- the three operations -----------------------------------------------------------------

  function ListOf(listed: map<nat, seq<nat>>, run: nat): seq<nat>
  {
    if run in listed then listed[run] else []
  }

  function Subscribed(b: Bus, run: nat): Bus
  {
    b.(channels := b.channels + [Channel(run, [], false, [], [], [], 0)],
       listed := b.listed[run := ListOf(b.listed, run) + [|b.channels|]])
  }

  /** The list without its first occurrence of `id`. */
  function Without(ids: seq<nat>, id: nat): seq<nat>
  {
    if ids == [] then []
    else if ids[0] == id then ids[1..]
    else [ids[0]] + Without(ids[1..], id)
  }

  /** Unsubscribing: the channel leaves its list and is closed; a second call finds nothing. */
  function Unsubscribed(b: Bus, id: nat): Bus
    requires id < |b.channels|
  {
    var c := b.channels[id];
    var ids := ListOf(b.listed, c.run);
    var rest := Without(ids, id);
    var listed := if rest == [] then b.listed - {c.run} else b.listed[c.run := rest];
    if id !in ids then b.(listed := listed)
    else b.(channels := b.channels[id := c.(closed := true)], listed := listed, panicked := b.panicked || c.closed)
  }

  /** One non-blocking send: into the buffer, or dropped when it is full. */
  function Sent(b: Bus, id: nat, o: Offer): Bus
    requires id < |b.channels|
  {
    var c := b.channels[id];
    if c.closed then b.(panicked := true)
    else if |c.queue| < CAPACITY then
      b.(channels := b.channels[id :=
        c.(queue := c.queue + [o], offered := c.offered + [o], accepted := c.accepted + [o])])
    else
      b.(channels := b.channels[id := c.(offered := c.offered + [o], drops := c.drops + 1)], dropped := b.dropped + 1)
  }

  function SentAll(b: Bus, ids: seq<nat>, o: Offer): Bus
    requires forall i :: 0 <= i < |ids| ==> ids[i] < |b.channels|
    decreases |ids|
  {
    if ids == [] then b else SentAll(Sent(b, ids[0], o), ids[1..], o)
  }

  /** A reader takes the oldest event. */
  function Read(b: Bus, id: nat): Bus
    requires id < |b.channels| && b.channels[id].queue != []
  {
    var c := b.channels[id];
    b.(channels := b.channels[id := c.(queue := c.queue[1..], received := c.received + [c.queue[0]])])
  }

  // --- the object ---------------------------------------------------------------------------

  class MemBus {
    var channels: seq<Channel>
    var subs: map<nat, seq<nat>>
    var dropped: nat
    var panicked: bool

    function Now(): Bus
      reads this
    {
      Bus(channels, subs, dropped, panicked)
    }

    ghost predicate Valid()
      reads this
    {
      Consistent(Now())
    }

    constructor ()
      ensures Valid() && Now() == Bus([], map[], 0, false)
    {
      channels, subs, dropped, panicked := [], map[], 0, false;
    }

    method Subscribe(run: nat) returns (id: nat)
      requires Valid()
      modifies this
      ensures Valid() && Now() == Subscribed(old(Now()), run)
      ensures id == |old(channels)| && channels == old(channels) + [Channel(run, [], false, [], [], [], 0)]
      ensures forall r :: ListOf(subs, r) == if r == run then ListOf(old(subs), r) + [id] else ListOf(old(subs), r)
      ensures dropped == old(dropped) && panicked == old(panicked)
    {
      SubscribedConsistent(Now(), run);
      id := |channels|;
      channels := channels + [Channel(run, [], false, [], [], [], 0)];
      subs := subs[run := ListOf(subs, run) + [id]];
    }

    /** The closure `Subscribe` hands out. */
    method Unsubscribe(id: nat)
      requires Valid() && id < |channels|
      modifies this
      ensures Valid() && Now() == Unsubscribed(old(Now()), id)
      ensures channels == old(channels)[id := old(channels)[id].(closed := true)]
      ensures forall r: nat, x: nat :: Member(subs, r, x) <==> Member(old(subs), r, x) && x != id
      ensures dropped == old(dropped) && panicked == old(panicked)
    {
      UnsubscribedExact(Now(), id);
      UnsubscribedConsistent(Now(), id);
      TakeOff(id);
    }

    /** The search of the list, the removal and the closing. */
    method TakeOff(id: nat)
      requires id < |channels|
      modifies this
      ensures Now() == Unsubscribed(old(Now()), id)
    {
      var run := channels[id].run;
      var ids := ListOf(subs, run);
      for i := 0 to |ids|
        invariant Now() == old(Now())
        invariant forall k :: 0 <= k < i ==> ids[k] != id
      {
        if ids[i] == id {
          WithoutSplits(ids, id, i);
          subs := subs[run := ids[..i] + ids[i + 1..]];
          panicked := panicked || channels[id].closed;
          channels := channels[id := channels[id].(closed := true)];
          break;
        }
      }
      WithoutAbsent(ids, id);
      if |ListOf(subs, run)| == 0 {
        subs := subs - {run};
      }
      assert subs == Unsubscribed(old(Now()), id).listed;
    }

    method Publish(o: Offer)
      requires Valid()
      modifies this
      ensures Valid() && ListsInRange(old(Now()), o.run)
      ensures Now() == SentAll(old(Now()), ListOf(old(subs), o.run), o)
      ensures Tried(old(channels), ListOf(old(subs), o.run), o, channels) && subs == old(subs)
    {
      var ids := ListOf(subs, o.run);
      ListedInRange(Now(), o.run);
      ListedSent(Now(), o);
      for i := 0 to |ids|
        invariant Valid() && |channels| == |old(channels)| && subs == old(subs)
        invariant SentAll(Now(), ids[i..], o) == SentAll(old(Now()), ids, o)
      {
        assert ids[i..][0] == ids[i] && ids[i..][1..] == ids[i + 1..];
        assert Member(subs, o.run, ids[i]);
        SentConsistent(Now(), ids[i], o);
        SendTo(ids[i], o);
      }
    }

    /** The select of the send loop. */
    method SendTo(id: nat, o: Offer)
      requires id < |channels| && !channels[id].closed
      modifies this`channels, this`dropped
      ensures Now() == Sent(old(Now()), id, o)
    {
      var c := channels[id];
      if |c.queue| < CAPACITY {
        channels := channels[id :=
          c.(queue := c.queue + [o], offered := c.offered + [o], accepted := c.accepted + [o])];
      } else {
        channels := channels[id := c.(offered := c.offered + [o], drops := c.drops + 1)];
        dropped := dropped + 1;
      }
    }

    method DroppedCount() returns (n: nat)
      ensures n == dropped
    {
      n := dropped;
    }
  }

  lemma {:induction false} WithoutSplits(ids: seq<nat>, id: nat, i: nat)
    requires i < |ids| && ids[i] == id && forall k :: 0 <= k < i ==> ids[k] != id
    ensures Without(ids, id) == ids[..i] + ids[i + 1..]
  {
    if i > 0 {
      WithoutSplits(ids[1..], id, i - 1);
      assert ids[1..][..i - 1] == ids[1..i] && ids[1..][i..] == ids[i + 1..];
    }
  }

  lemma {:induction false} WithoutAbsent(ids: seq<nat>, id: nat)
    ensures id !in ids ==> Without(ids, id) == ids
    ensures forall x :: x in Without(ids, id) ==> x in ids
  {
    if ids != [] {
      WithoutAbsent(ids[1..], id);
    }
  }

  // --- what every bus state satisfies -------------------------------------------------------

  predicate Member(listed: map<nat, seq<nat>>, run: nat, id: nat)
  {
    id in ListOf(listed, run)
  }

  ghost predicate ListsInRange(b: Bus, run: nat)
  {
    forall i :: 0 <= i < |ListOf(b.listed, run)| ==> ListOf(b.listed, run)[i] < |b.channels|
  }

  lemma ListedInRange(b: Bus, run: nat)
    requires Lists(b.channels, b.listed)
    ensures ListsInRange(b, run)
  {
    assert forall i :: 0 <= i < |ListOf(b.listed, run)| ==> Member(b.listed, run, ListOf(b.listed, run)[i]);
  }

  /** A channel's history adds up, and its buffer is bounded. */
  ghost predicate Accounted(c: Channel)
  {
    && c.accepted == c.received + c.queue
    && |c.accepted| + c.drops == |c.offered|
    && |c.queue| <= CAPACITY
  }

  /** The lists hold each open channel once, under its own run, and nothing else. */
  ghost predicate Lists(cs: seq<Channel>, listed: map<nat, seq<nat>>)
  {
    && (forall run: nat :: NoDup(ListOf(listed, run)))
    && (forall run: nat, id: nat :: Member(listed, run, id) ==> id < |cs| && cs[id].run == run && !cs[id].closed)
    && (forall id :: 0 <= id < |cs| && !cs[id].closed ==> Member(listed, cs[id].run, id))
  }

  ghost predicate Books(cs: seq<Channel>)
  {
    forall id :: 0 <= id < |cs| ==> Accounted(cs[id])
  }

  /** Lists and books are right, every drop is counted, and nothing has panicked. */
  ghost predicate Consistent(b: Bus)
  {
    !b.panicked && Lists(b.channels, b.listed) && Books(b.channels) && b.dropped == TotalDrops(b.channels)
  }

  /** A change inside one channel that keeps its run and stays open or closed leaves the lists right. */
  lemma ListsKept(cs: seq<Channel>, listed: map<nat, seq<nat>>, id: nat, c: Channel)
    requires Lists(cs, listed) && id < |cs| && c.run == cs[id].run && c.closed == cs[id].closed
    ensures Lists(cs[id := c], listed)
  {
  }

  function TotalDrops(cs: seq<Channel>): nat
  {
    if cs == [] then 0 else TotalDrops(cs[..|cs| - 1]) + cs[|cs| - 1].drops
  }

  lemma {:induction false} DropsUpdate(cs: seq<Channel>, id: nat, c: Channel)
    requires id < |cs|
    ensures TotalDrops(cs[id := c]) == TotalDrops(cs) - cs[id].drops + c.drops
  {
    var l := |cs| - 1;
    if id < l {
      DropsUpdate(cs[..l], id, c);
      assert cs[id := c][..l] == cs[..l][id := c];
    } else {
      assert cs[id := c][..l] == cs[..l];
    }
  }

  lemma SubscribedConsistent(b: Bus, run: nat)
    requires Consistent(b)
    ensures Consistent(Subscribed(b, run))
  {
    assert Subscribed(b, run).channels[..|b.channels|] == b.channels;
    SubscribedLists(b, run);
  }

  lemma SubscribedLists(b: Bus, run: nat)
    requires Lists(b.channels, b.listed)
    ensures Lists(Subscribed(b, run).channels, Subscribed(b, run).listed)
  {
    var b' := Subscribed(b, run);
    var ids := ListOf(b.listed, run);
    assert forall i :: 0 <= i < |ids| ==> Member(b.listed, run, ids[i]);
    assert NoDup(ids);
    forall r: nat ensures NoDup(ListOf(b'.listed, r)) {
      assert r != run ==> ListOf(b'.listed, r) == ListOf(b.listed, r);
    }
    forall r: nat, id: nat
      ensures Member(b'.listed, r, id) <==> Member(b.listed, r, id) || (r == run && id == |b.channels|)
    {
    }
  }

  lemma {:induction false} WithoutDistinct(ids: seq<nat>, id: nat)
    requires NoDup(ids)
    ensures NoDup(Without(ids, id))
    ensures forall x :: x in Without(ids, id) <==> x in ids && x != id
  {
    if ids != [] {
      NoDupTail(ids);
      WithoutDistinct(ids[1..], id);
      assert ids == [ids[0]] + ids[1..];
      if ids[0] != id {
        NoDupCons(ids[0], Without(ids[1..], id));
      }
    }
  }

  lemma UnsubscribedConsistent(b: Bus, id: nat)
    requires Consistent(b) && id < |b.channels|
    ensures Consistent(Unsubscribed(b, id))
  {
    var c := b.channels[id];
    var b' := Unsubscribed(b, id);
    UnsubscribedLists(b, id);
    DropsUpdate(b.channels, id, c.(closed := true));
    assert Accounted(c);
    if Member(b.listed, c.run, id) {
      assert !c.closed;
    }
  }

  lemma UnsubscribedLists(b: Bus, id: nat)
    requires Lists(b.channels, b.listed) && id < |b.channels|
    ensures Lists(Unsubscribed(b, id).channels, Unsubscribed(b, id).listed)
  {
    var c := b.channels[id];
    var b' := Unsubscribed(b, id);
    var ids := ListOf(b.listed, c.run);
    assert NoDup(ids);
    WithoutDistinct(ids, id);
    forall run: nat ensures ListOf(b'.listed, run) == if run == c.run then Without(ids, id) else ListOf(b.listed, run) {
    }
    forall run: nat, x: nat
      ensures Member(b'.listed, run, x) <==> Member(b.listed, run, x) && !(run == c.run && x == id)
    {
    }
    forall run: nat ensures NoDup(ListOf(b'.listed, run)) {
    }
    forall x | 0 <= x < |b'.channels| && !b'.channels[x].closed ensures Member(b'.listed, b'.channels[x].run, x) {
      assert Member(b.listed, b.channels[x].run, x);
    }
  }

  lemma SentConsistent(b: Bus, id: nat, o: Offer)
    requires Consistent(b) && id < |b.channels| && !b.channels[id].closed
    ensures Consistent(Sent(b, id, o))
  {
    var c, c' := b.channels[id], Sent(b, id, o).channels[id];
    DropsUpdate(b.channels, id, c');
    ListsKept(b.channels, b.listed, id, c');
    SentAccounted(b, id, o);
  }

  lemma SentAccounted(b: Bus, id: nat, o: Offer)
    requires id < |b.channels| && Accounted(b.channels[id])
    ensures Accounted(Sent(b, id, o).channels[id])
  {
    var c := b.channels[id];
    assert c.accepted + [o] == c.received + (c.queue + [o]);
  }

  lemma ReadAccounted(c: Channel)
    requires Accounted(c) && c.queue != []
    ensures Accounted(c.(queue := c.queue[1..], received := c.received + [c.queue[0]]))
  {
    assert c.queue == [c.queue[0]] + c.queue[1..];
    assert c.received + c.queue == (c.received + [c.queue[0]]) + c.queue[1..];
  }

  lemma ReadConsistent(b: Bus, id: nat)
    requires Consistent(b) && id < |b.channels| && b.channels[id].queue != []
    ensures Consistent(Read(b, id))
  {
    var c, c' := b.channels[id], Read(b, id).channels[id];
    ReadAccounted(c);
    DropsUpdate(b.channels, id, c');
    ListsKept(b.channels, b.listed, id, c');
  }

  /** Unsubscribing closes an open channel, takes it off its list, and touches nothing else. */
  lemma UnsubscribedExact(b: Bus, id: nat)
    requires Consistent(b) && id < |b.channels|
    ensures
      var b' := Unsubscribed(b, id);
      && b'.channels == b.channels[id := b.channels[id].(closed := true)]
      && b'.dropped == b.dropped && b'.panicked == b.panicked
      && forall r: nat, x: nat :: Member(b'.listed, r, x) <==> Member(b.listed, r, x) && x != id
  {
    var c := b.channels[id];
    var b' := Unsubscribed(b, id);
    var ids := ListOf(b.listed, c.run);
    assert NoDup(ids);
    WithoutDistinct(ids, id);
    assert Member(b.listed, c.run, id) <==> !c.closed;
    if c.closed {
      assert b.channels[id := c.(closed := true)] == b.channels;
    }
    forall r: nat ensures ListOf(b'.listed, r) == if r == c.run then Without(ids, id) else ListOf(b.listed, r) {
    }
    forall r: nat, x: nat ensures Member(b'.listed, r, x) <==> Member(b.listed, r, x) && x != id {
      assert Member(b.listed, r, id) ==> r == c.run;
    }
  }

  /** One event tried on a channel: taken in unless 64 are waiting, and dropped then. */
  ghost predicate OneTry(was: Channel, o: Offer, now: Channel)
  {
    if |was.queue| < 64 then
      now == was.(queue := was.queue + [o], offered := was.offered + [o], accepted := was.accepted + [o])
    else now == was.(offered := was.offered + [o], drops := was.drops + 1)
  }

  /** What a publication makes of the channels: one try on each of the listed ones, and on no other. */
  ghost predicate Tried(was: seq<Channel>, ids: seq<nat>, o: Offer, now: seq<Channel>)
  {
    && |now| == |was|
    && forall id :: 0 <= id < |was| ==> if id in ids then OneTry(was[id], o, now[id]) else now[id] == was[id]
  }

  lemma {:induction false} SentAllExact(b: Bus, ids: seq<nat>, o: Offer)
    requires NoDup(ids) && forall id :: id in ids ==> id < |b.channels| && !b.channels[id].closed
    requires forall i :: 0 <= i < |ids| ==> ids[i] < |b.channels|
    ensures Tried(b.channels, ids, o, SentAll(b, ids, o).channels) && SentAll(b, ids, o).listed == b.listed
    decreases |ids|
  {
    if ids != [] {
      NoDupTail(ids);
      assert ids == [ids[0]] + ids[1..];
      SentOnce(b, ids[0], o);
      var c := Sent(b, ids[0], o);
      SentAllExact(c, ids[1..], o);
      TriedOnce(b.channels, ids, o, c.channels, SentAll(c, ids[1..], o).channels);
    }
  }

  lemma ListedSent(b: Bus, o: Offer)
    requires Consistent(b) && ListsInRange(b, o.run)
    ensures
      var ids := ListOf(b.listed, o.run);
      Tried(b.channels, ids, o, SentAll(b, ids, o).channels)
  {
    var ids := ListOf(b.listed, o.run);
    assert forall id :: id in ids ==> Member(b.listed, o.run, id);
    SentAllExact(b, ids, o);
  }

  lemma SentOnce(b: Bus, id: nat, o: Offer)
    requires id < |b.channels| && !b.channels[id].closed
    ensures Tried(b.channels, [id], o, Sent(b, id, o).channels) && Sent(b, id, o).listed == b.listed
  {
  }

  lemma TriedOnce(was: seq<Channel>, ids: seq<nat>, o: Offer, mid: seq<Channel>, now: seq<Channel>)
    requires ids != [] && ids[0] !in ids[1..] && Tried(was, [ids[0]], o, mid) && Tried(mid, ids[1..], o, now)
    ensures Tried(was, ids, o, now)
  {
    assert ids == [ids[0]] + ids[1..];
    forall id | 0 <= id < |was| ensures if id in ids then OneTry(was[id], o, now[id]) else now[id] == was[id] {
      assert id in ids <==> id == ids[0] || id in ids[1..];
    }
  }

  // --- interleavings ------------------------------------------------------------------------

  /** A publisher inside its send loop. */
  datatype Sending = Sending(offer: Offer, rest: seq<nat>)

  datatype State = State(bus: Bus, active: map<nat, Sending>)

  datatype Action =
    | Subscribe(run: nat)
    | Unsubscribe(id: nat)
    | Begin(offer: Offer)         // its publisher takes the read lock
    | Send(publisher: nat)        // one send of its loop
    | End(publisher: nat)         // the lock is given back
    | Receive(id: nat)

  predicate Enabled(s: State, a: Action)
  {
    match a
    case Subscribe(_) => |s.active| == 0
    case Unsubscribe(id) => |s.active| == 0 && id < |s.bus.channels|
    case Begin(o) => o.publisher !in s.active
    case Send(p) => p in s.active && s.active[p].rest != [] && s.active[p].rest[0] < |s.bus.channels|
    case End(p) => p in s.active && s.active[p].rest == []
    case Receive(id) => id < |s.bus.channels| && s.bus.channels[id].queue != []
  }

  function Step(s: State, a: Action): State
  {
    if !Enabled(s, a) then s
    else match a
      case Subscribe(run) => s.(bus := Subscribed(s.bus, run))
      case Unsubscribe(id) => s.(bus := Unsubscribed(s.bus, id))
      case Begin(o) => s.(active := s.active[o.publisher := Sending(o, ListOf(s.bus.listed, o.run))])
      case Send(p) =>
        var job := s.active[p];
        State(Sent(s.bus, job.rest[0], job.offer), s.active[p := Sending(job.offer, job.rest[1..])])
      case End(p) => s.(active := s.active - {p})
      case Receive(id) => s.(bus := Read(s.bus, id))
  }

  function After(acts: seq<Action>): State
  {
    if acts == [] then State(Bus([], map[], 0, false), map[])
    else Step(After(acts[..|acts| - 1]), acts[|acts| - 1])
  }

  /** What was published on a channel's run while it was subscribed, in the order of the publications. */
  function Published(acts: seq<Action>, id: nat): seq<Offer>
  {
    if acts == [] then []
    else
      var q, a := acts[..|acts| - 1], acts[|acts| - 1];
      var s := After(q);
      Published(q, id) +
      if a.Begin? && Enabled(s, a) && Member(s.bus.listed, a.offer.run, id) then [a.offer] else []
  }

  function Of(offers: seq<Offer>, publisher: nat): seq<Offer>
  {
    if offers == [] then []
    else
      var o := offers[|offers| - 1];
      Of(offers[..|offers| - 1], publisher) + if o.publisher == publisher then [o] else []
  }

  /** What a publisher in its loop still has to send to a channel. */
  function Outstanding(active: map<nat, Sending>, publisher: nat, id: nat): seq<Offer>
  {
    if publisher in active && id in active[publisher].rest then [active[publisher].offer] else []
  }

  ghost predicate Loops(s: State)
  {
    forall p :: p in s.active ==>
      && s.active[p].offer.publisher == p
      && NoDup(s.active[p].rest)
      && forall id :: id in s.active[p].rest ==> Member(s.bus.listed, s.active[p].offer.run, id)
  }

  /** Each publisher's publications to a channel are the sends already tried plus the one still due. */
  ghost predicate Delivered(s: State, acts: seq<Action>)
  {
    forall id, p :: 0 <= id < |s.bus.channels| ==>
      Of(Published(acts, id), p) == Of(s.bus.channels[id].offered, p) + Outstanding(s.active, p, id)
  }

  lemma OfAppend(offers: seq<Offer>, o: Offer, p: nat)
    ensures Of(offers + [o], p) == if o.publisher == p then Of(offers, p) + [o] else Of(offers, p)
  {
    assert (offers + [o])[..|offers|] == offers;
  }

  lemma PublishedNext(q: seq<Action>, a: Action, id: nat)
    ensures Published(q + [a], id) ==
      if a.Begin? && Enabled(After(q), a) && Member(After(q).bus.listed, a.offer.run, id)
      then Published(q, id) + [a.offer] else Published(q, id)
    ensures After(q + [a]) == Step(After(q), a)
  {
    assert (q + [a])[..|q|] == q;
  }

  lemma DeliveredBegin(q: seq<Action>, a: Action, id: nat, p: nat)
    requires a.Begin? && Enabled(After(q), a) && id < |After(q).bus.channels|
    requires Of(Published(q, id), p) ==
             Of(After(q).bus.channels[id].offered, p) + Outstanding(After(q).active, p, id)
    ensures
      var s' := After(q + [a]);
      Of(Published(q + [a], id), p) == Of(s'.bus.channels[id].offered, p) + Outstanding(s'.active, p, id)
  {
    PublishedNext(q, a, id);
    OfAppend(Published(q, id), a.offer, p);
    var base := Of(After(q).bus.channels[id].offered, p);
    if p == a.offer.publisher {
      assert base + [] == base;
    }
  }

  /** A send moves its event from the publisher's outstanding list to the channel's tried sends. */
  lemma SendMoves(s: State, p0: nat, id: nat, p: nat)
    requires Consistent(s.bus) && Loops(s) && Enabled(s, Send(p0)) && id < |s.bus.channels|
    ensures
      var s' := Step(s, Send(p0));
      Of(s'.bus.channels[id].offered, p) + Outstanding(s'.active, p, id) ==
      Of(s.bus.channels[id].offered, p) + Outstanding(s.active, p, id)
  {
    var job := s.active[p0];
    var base := Of(s.bus.channels[id].offered, p);
    RestShrinks(job.rest);
    assert Member(s.bus.listed, job.offer.run, job.rest[0]);
    OfAppend(s.bus.channels[id].offered, job.offer, p);
    if id == job.rest[0] && p == p0 {
      assert Outstanding(s.active, p, id) == [job.offer];
      assert Outstanding(Step(s, Send(p0)).active, p, id) == [];
      assert (base + [job.offer]) + [] == base + [job.offer];
    } else {
      assert Outstanding(Step(s, Send(p0)).active, p, id) == Outstanding(s.active, p, id);
    }
  }

  lemma RestShrinks(rest: seq<nat>)
    requires rest != [] && NoDup(rest)
    ensures forall x :: x in rest[1..] <==> x in rest && x != rest[0]
    ensures NoDup(rest[1..])
  {
    assert rest == [rest[0]] + rest[1..];
    assert forall i :: 0 <= i < |rest| - 1 ==> rest[1..][i] == rest[i + 1];
  }

  /** Other actions try no send and leave the publishers' lists alone. */
  lemma OtherKeeps(s: State, a: Action, id: nat, p: nat)
    requires Enabled(s, a) && !a.Begin? && !a.Send? && id < |s.bus.channels|
    ensures id < |Step(s, a).bus.channels| && Step(s, a).bus.channels[id].offered == s.bus.channels[id].offered
    ensures Outstanding(Step(s, a).active, p, id) == Outstanding(s.active, p, id)
  {
  }

  /** Nothing is published to a channel that does not exist yet. */
  ghost predicate NothingEarly(acts: seq<Action>)
  {
    forall id: nat :: id >= |After(acts).bus.channels| ==> Published(acts, id) == []
  }

  lemma StepConsistent(s: State, a: Action)
    requires Consistent(s.bus) && Loops(s) && Enabled(s, a)
    ensures Consistent(Step(s, a).bus) && |Step(s, a).bus.channels| >= |s.bus.channels|
  {
    match a
    case Subscribe(run) => SubscribedConsistent(s.bus, run);
    case Unsubscribe(id) => UnsubscribedConsistent(s.bus, id);
    case Begin(_) =>
    case Send(p) =>
      var id := s.active[p].rest[0];
      assert id in s.active[p].rest;
      SentConsistent(s.bus, id, s.active[p].offer);
    case End(_) =>
    case Receive(id) => ReadConsistent(s.bus, id);
  }

  lemma StepLoops(s: State, a: Action)
    requires Consistent(s.bus) && Loops(s) && Enabled(s, a)
    ensures Loops(Step(s, a))
  {
    match a
    case Subscribe(_) => assert s.active == map[];
    case Unsubscribe(_) => assert s.active == map[];
    case Begin(_) =>
    case Send(p) =>
      RestShrinks(s.active[p].rest);
    case End(_) =>
    case Receive(_) =>
  }

  lemma StepEarly(q: seq<Action>, a: Action)
    requires Consistent(After(q).bus) && Loops(After(q)) && NothingEarly(q) && Enabled(After(q), a)
    ensures NothingEarly(q + [a])
  {
    StepConsistent(After(q), a);
    forall id: nat | id >= |After(q + [a]).bus.channels| ensures Published(q + [a], id) == [] {
      PublishedNext(q, a, id);
      assert !Member(After(q).bus.listed, if a.Begin? then a.offer.run else 0, id);
    }
  }

  lemma StepDelivered(q: seq<Action>, a: Action, id: nat, p: nat)
    requires Consistent(After(q).bus) && Loops(After(q)) && NothingEarly(q) && Delivered(After(q), q)
    requires Enabled(After(q), a) && id < |After(q + [a]).bus.channels|
    ensures
      var s' := After(q + [a]);
      Of(Published(q + [a], id), p) == Of(s'.bus.channels[id].offered, p) + Outstanding(s'.active, p, id)
  {
    PublishedNext(q, a, id);
    if id >= |After(q).bus.channels| {
      assert a.Subscribe? && After(q).active == map[];
      assert Published(q, id) == [];
    } else if a.Begin? {
      DeliveredBegin(q, a, id, p);
    } else if a.Send? {
      SendMoves(After(q), a.publisher, id, p);
    } else {
      OtherKeeps(After(q), a, id, p);
    }
  }

  /** The books are right after every interleaving. */
  lemma {:induction false} Always(acts: seq<Action>)
    ensures Consistent(After(acts).bus) && Loops(After(acts))
    ensures NothingEarly(acts) && Delivered(After(acts), acts)
  {
    if acts != [] {
      var q, a := acts[..|acts| - 1], acts[|acts| - 1];
      assert acts == q + [a];
      Always(q);
      if Enabled(After(q), a) {
        StepConsistent(After(q), a);
        StepLoops(After(q), a);
        StepEarly(q, a);
        forall id, p | 0 <= id < |After(acts).bus.channels|
          ensures Of(Published(acts, id), p) ==
                  Of(After(acts).bus.channels[id].offered, p) + Outstanding(After(acts).active, p, id)
        {
          StepDelivered(q, a, id, p);
        }
      } else {
        forall id: nat ensures Published(acts, id) == Published(q, id) {
          PublishedNext(q, a, id);
        }
      }
    }
  }

  // --- the theorems -------------------------------------------------------------------------

  /** No send ever meets a closed channel, and no channel is closed twice: either would panic. */
  lemma NeverPanics(acts: seq<Action>)
    ensures !After(acts).bus.panicked
  {
    Always(acts);
  }

  /**
   Each publisher's events reach a channel in that publisher's order: what the publisher published to
   it is exactly what it has tried to send there, in order, and at most the one event still in its loop.
   */
  lemma PublisherOrder(acts: seq<Action>, id: nat, p: nat)
    requires id < |After(acts).bus.channels|
    ensures Of(Published(acts, id), p) ==
            Of(After(acts).bus.channels[id].offered, p) + Outstanding(After(acts).active, p, id)
  {
    Always(acts);
  }

  lemma {:induction false} OfCount(offers: seq<Offer>, o: Offer)
    ensures multiset(Of(offers, o.publisher))[o] == multiset(offers)[o]
  {
    if offers != [] {
      var q, l := offers[..|offers| - 1], offers[|offers| - 1];
      assert offers == q + [l];
      OfCount(q, o);
    }
  }

  /** The events that publishers in their loops have still to send to a channel. */
  function Due(s: State, id: nat): set<Offer>
  {
    set p | p in s.active && id in s.active[p].rest :: s.active[p].offer
  }

  lemma DueByPublisher(s: State, id: nat, o: Offer)
    requires Loops(s)
    ensures multiset(Outstanding(s.active, o.publisher, id))[o] == if o in Due(s, id) then 1 else 0
  {
  }

  lemma SameTotal(a: seq<Offer>, b: seq<Offer>, due: set<Offer>)
    requires multiset(a) == multiset(b) + multiset(due)
    ensures |a| == |b| + |due|
  {
    assert |multiset(a)| == |a| && |multiset(b)| == |b| && |multiset(due)| == |due|;
  }

  /**
   Conservation, at every moment of every interleaving: the events published on a channel's run while
   it was subscribed are the events tried on it and those still due from publishers in their loops;
   the tried ones were taken in or dropped, and those taken in are received or wait in the buffer.
   */
  lemma Conservation(acts: seq<Action>, id: nat)
    requires id < |After(acts).bus.channels|
    ensures
      var c, due := After(acts).bus.channels[id], Due(After(acts), id);
      && multiset(Published(acts, id)) == multiset(c.offered) + multiset(due)
      && |c.accepted| + c.drops + |due| == |Published(acts, id)|
      && c.accepted == c.received + c.queue
    ensures After(acts).active == map[] ==> Due(After(acts), id) == {}
  {
    Always(acts);
    var s := After(acts);
    var c := s.bus.channels[id];
    forall o ensures multiset(Published(acts, id))[o] == (multiset(c.offered) + multiset(Due(s, id)))[o] {
      CountPublished(acts, id, o);
    }
    assert multiset(Published(acts, id)) == multiset(c.offered) + multiset(Due(s, id));
    SameTotal(Published(acts, id), c.offered, Due(s, id));
    assert Accounted(c);
  }

  lemma CountPublished(acts: seq<Action>, id: nat, o: Offer)
    requires Loops(After(acts)) && Delivered(After(acts), acts) && id < |After(acts).bus.channels|
    ensures multiset(Published(acts, id))[o] ==
            multiset(After(acts).bus.channels[id].offered)[o] + if o in Due(After(acts), id) then 1 else 0
  {
    var s := After(acts);
    OfCount(Published(acts, id), o);
    OfCount(s.bus.channels[id].offered, o);
    DueByPublisher(s, id, o);
    assert Of(Published(acts, id), o.publisher) ==
           Of(s.bus.channels[id].offered, o.publisher) + Outstanding(s.active, o.publisher, id);
  }

  /** An event is dropped only when 64 events wait in the channel, and the counter counts every drop. */
  lemma DropsOnlyWhenFull(acts: seq<Action>, a: Action, id: nat)
    requires id < |After(acts).bus.channels|
    ensures
      var c, c' := After(acts).bus.channels[id], Step(After(acts), a).bus.channels;
      id < |c'| && (c'[id].drops > c.drops ==> |c.queue| == 64 && a.Send? && c'[id].drops == c.drops + 1)
    ensures After(acts).bus.dropped == TotalDrops(After(acts).bus.channels)
  {
    Always(acts);
    assert Accounted(After(acts).bus.channels[id]);
  }

  /** What goes in is a subsequence of what is tried: accepted events keep the order of the sends. */
  ghost predicate Within(a: seq<Offer>, b: seq<Offer>)
  {
    a == [] ||
    (b != [] &&
     (Within(a, b[..|b| - 1]) ||
      (a[|a| - 1] == b[|b| - 1] && Within(a[..|a| - 1], b[..|b| - 1]))))
  }

  lemma WithinGrows(a: seq<Offer>, b: seq<Offer>, o: Offer)
    requires Within(a, b)
    ensures Within(a, b + [o]) && Within(a + [o], b + [o])
  {
    assert (b + [o])[..|b|] == b && (a + [o])[..|a|] == a;
  }

  lemma {:induction false} AcceptedInOrder(acts: seq<Action>, id: nat)
    requires id < |After(acts).bus.channels|
    ensures Within(After(acts).bus.channels[id].accepted, After(acts).bus.channels[id].offered)
  {
    if acts != [] {
      var q, a := acts[..|acts| - 1], acts[|acts| - 1];
      if id < |After(q).bus.channels| {
        AcceptedInOrder(q, id);
        StepWithin(After(q), a, id);
      }
    }
  }

  lemma StepWithin(s: State, a: Action, id: nat)
    requires id < |s.bus.channels| && Within(s.bus.channels[id].accepted, s.bus.channels[id].offered)
    ensures id < |Step(s, a).bus.channels|
    ensures Within(Step(s, a).bus.channels[id].accepted, Step(s, a).bus.channels[id].offered)
  {
    if a.Send? && Enabled(s, a) {
      SentWithin(s.bus, s.active[a.publisher].rest[0], s.active[a.publisher].offer, id);
    } else {
      NotSentKeeps(s, a, id);
    }
  }

  lemma SentWithin(b: Bus, to: nat, o: Offer, id: nat)
    requires to < |b.channels| && id < |b.channels|
    requires Within(b.channels[id].accepted, b.channels[id].offered)
    ensures Within(Sent(b, to, o).channels[id].accepted, Sent(b, to, o).channels[id].offered)
  {
    if to == id {
      WithinGrows(b.channels[id].accepted, b.channels[id].offered, o);
    }
  }

  lemma NotSentKeeps(s: State, a: Action, id: nat)
    requires id < |s.bus.channels| && !(a.Send? && Enabled(s, a))
    ensures id < |Step(s, a).bus.channels|
    ensures Step(s, a).bus.channels[id].accepted == s.bus.channels[id].accepted
    ensures Step(s, a).bus.channels[id].offered == s.bus.channels[id].offered
  {
    if Enabled(s, a) && a.Unsubscribe? {
      UnsubscribeKeeps(s.bus, a.id, id);
    }
  }

  lemma UnsubscribeKeeps(b: Bus, gone: nat, id: nat)
    requires gone < |b.channels| && id < |b.channels|
    ensures |Unsubscribed(b, gone).channels| == |b.channels|
    ensures Unsubscribed(b, gone).channels[id].accepted == b.channels[id].accepted
    ensures Unsubscribed(b, gone).channels[id].offered == b.channels[id].offered
  {
  }

  // --- arrival ------------------------------------------------------------------------------

  lemma {:induction false} WithinDropLast(a: seq<Offer>, b: seq<Offer>)
    requires a != [] && Within(a, b)
    ensures Within(a[..|a| - 1], b)
  {
    if Within(a, b[..|b| - 1]) {
      WithinDropLast(a, b[..|b| - 1]);
    }
  }

  lemma {:induction false} WithinPrefix(a: seq<Offer>, x: seq<Offer>, b: seq<Offer>)
    requires Within(a + x, b)
    ensures Within(a, b)
    decreases |x|
  {
    if x == [] {
      assert a + x == a;
    } else {
      WithinDropLast(a + x, b);
      assert (a + x)[..|a + x| - 1] == a + x[..|x| - 1];
      WithinPrefix(a, x[..|x| - 1], b);
    }
  }

  /** Picking one publisher's events keeps a subsequence one. */
  lemma {:induction false} WithinOf(a: seq<Offer>, b: seq<Offer>, p: nat)
    requires Within(a, b)
    ensures Within(Of(a, p), Of(b, p))
  {
    if a != [] {
      var b', o := b[..|b| - 1], b[|b| - 1];
      assert b == b' + [o];
      OfAppend(b', o, p);
      if Within(a, b') {
        WithinOf(a, b', p);
        WithinGrows(Of(a, p), Of(b', p), o);
      } else {
        assert a == a[..|a| - 1] + [o];
        OfAppend(a[..|a| - 1], o, p);
        WithinOf(a[..|a| - 1], b', p);
        WithinGrows(Of(a[..|a| - 1], p), Of(b', p), o);
      }
    }
  }

  lemma {:induction false} WithinLonger(a: seq<Offer>, b: seq<Offer>, x: seq<Offer>)
    requires Within(a, b)
    ensures Within(a, b + x)
    decreases |x|
  {
    if x == [] {
      assert b + x == b;
    } else {
      WithinLonger(a, b, x[..|x| - 1]);
      WithinGrows(a, b + x[..|x| - 1], x[|x| - 1]);
      assert b + x == (b + x[..|x| - 1]) + [x[|x| - 1]];
    }
  }

  /** A publisher's events arrive at a reader in the order in which that publisher published them. */
  lemma ArriveInOrder(acts: seq<Action>, id: nat, p: nat)
    requires id < |After(acts).bus.channels|
    ensures Within(Of(After(acts).bus.channels[id].received, p), Of(Published(acts, id), p))
  {
    var c := After(acts).bus.channels[id];
    AcceptedInOrder(acts, id);
    Always(acts);
    assert Accounted(c);
    WithinPrefix(c.received, c.queue, c.offered);
    WithinOf(c.received, c.offered, p);
    PublisherOrder(acts, id, p);
    WithinLonger(Of(c.received, p), Of(c.offered, p), Outstanding(After(acts).active, p, id));
  }
}
