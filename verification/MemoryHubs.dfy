/**
 The hub inside one gateway. It remembers the last status of each chain - of the chain, not of the endpoint -
 and sends these to a new subscriber, in any order; after that every subscriber gets what is published.
 */
module MemoryHubs {
  import opened Types
  import opened Fleets
  import opened Replays
  import opened Channels

  /** A command to the hub; a subscription carries the order in which the snapshots happen to be sent. */
  datatype Command = Sub(ch: nat, order: seq<ChainRef>) | Unsub(ch: nat) | Pub(cs: ChainStatus)

  type Snapshots = map<ChainRef, ChainStatus>

  datatype Hub = Hub(subs: seq<nat>, snapshots: Snapshots, boxes: Inboxes)

  const EMPTY := Hub([], map[], map[])

  /** Every chain once. */
  ghost predicate Orders(order: seq<ChainRef>, chains: set<ChainRef>) {
    && (forall i, j :: 0 <= i < j < |order| ==> order[i] != order[j])
    && (forall c :: c in order <==> c in chains)
  }

  function Entries(snapshots: Snapshots, order: seq<ChainRef>): seq<ChainStatus>
    requires forall c :: c in order ==> c in snapshots
  {
    seq(|order|, i requires 0 <= i < |order| => snapshots[order[i]])
  }

  ghost predicate Possible(h: Hub, c: Command) {
    c.Sub? ==> Orders(c.order, h.snapshots.Keys)
  }

  ghost function Step(h: Hub, c: Command): Hub
    requires Possible(h, c)
  {
    match c
    case Sub(ch, order) => h.(subs := h.subs + [ch], boxes := FanoutAll(h.boxes, [ch], Entries(h.snapshots, order)))
    case Unsub(ch) => h.(subs := WithoutFirst(h.subs, ch))
    case Pub(cs) => h.(snapshots := h.snapshots[cs.chain := cs], boxes := Fanout(h.boxes, h.subs, cs))
  }

  ghost predicate Runs(cmds: seq<Command>)
    decreases |cmds|, 0
  {
    cmds == [] || (Runs(cmds[..|cmds| - 1]) && Possible(After(cmds[..|cmds| - 1]), cmds[|cmds| - 1]))
  }

  ghost function After(cmds: seq<Command>): Hub
    requires Runs(cmds)
    decreases |cmds|, 1
  {
    if cmds == [] then EMPTY else Step(After(cmds[..|cmds| - 1]), cmds[|cmds| - 1])
  }

  // ----- What a channel hears, read off the commands alone -----

  /** Is the channel subscribed after these commands? Its last own command tells. */
  predicate Listening(cmds: seq<Command>, ch: nat) {
    if cmds == [] then false
    else
      match cmds[|cmds| - 1]
      case Sub(c, _) => c == ch || Listening(cmds[..|cmds| - 1], ch)
      case Unsub(c) => c != ch && Listening(cmds[..|cmds| - 1], ch)
      case Pub(_) => Listening(cmds[..|cmds| - 1], ch)
  }

  /** The last status published for a chain. */
  function LastOn(cmds: seq<Command>, chain: ChainRef): Option<ChainStatus> {
    if cmds == [] then None
    else if cmds[|cmds| - 1].Pub? && cmds[|cmds| - 1].cs.chain == chain then Some(cmds[|cmds| - 1].cs)
    else LastOn(cmds[..|cmds| - 1], chain)
  }

  function LastOnEach(cmds: seq<Command>, order: seq<ChainRef>): seq<ChainStatus> {
    if order == [] then []
    else
      var last := LastOn(cmds, order[0]);
      (if last.Some? then [last.value] else []) + LastOnEach(cmds, order[1..])
  }

  /**
   On subscribing the last status of each chain, in the order of that subscription; then each status that is
   published while subscribed; nothing else.
   */
  function Hears(cmds: seq<Command>, ch: nat): seq<ChainStatus> {
    if cmds == [] then []
    else
      var before := cmds[..|cmds| - 1];
      Hears(before, ch) +
      match cmds[|cmds| - 1]
      case Sub(c, order) => if c == ch then LastOnEach(before, order) else []
      case Unsub(_) => []
      case Pub(cs) => if Listening(before, ch) then [cs] else []
  }

  /** Nobody subscribes a channel that is subscribed. */
  predicate NoDoubles(cmds: seq<Command>) {
    cmds == [] || (NoDoubles(cmds[..|cmds| - 1])
                   && (cmds[|cmds| - 1].Sub? ==> !Listening(cmds[..|cmds| - 1], cmds[|cmds| - 1].ch)))
  }

  lemma {:induction false} SnapshotsAreLast(cmds: seq<Command>, chain: ChainRef)
    requires Runs(cmds)
    ensures chain in After(cmds).snapshots <==> LastOn(cmds, chain).Some?
    ensures LastOn(cmds, chain).Some? ==> After(cmds).snapshots[chain] == LastOn(cmds, chain).value
  {
    if cmds == [] {
    } else {
      SnapshotsAreLast(cmds[..|cmds| - 1], chain);
    }
  }

  lemma {:induction false} EntriesAreLast(cmds: seq<Command>, order: seq<ChainRef>)
    requires Runs(cmds) && forall c :: c in order ==> c in After(cmds).snapshots
    ensures Entries(After(cmds).snapshots, order) == LastOnEach(cmds, order)
    decreases |order|
  {
    if order == [] {
    } else {
      SnapshotsAreLast(cmds, order[0]);
      assert forall c :: c in order[1..] ==> c in order;
      EntriesAreLast(cmds, order[1..]);
      var s := After(cmds).snapshots;
      assert Entries(s, order) == [s[order[0]]] + Entries(s, order[1..]);
    }
  }

  lemma {:induction false} SubscribersAreListening(cmds: seq<Command>, ch: nat)
    requires Runs(cmds) && NoDoubles(cmds)
    ensures AtMostOnce(After(cmds).subs)
    ensures ch in After(cmds).subs <==> Listening(cmds, ch)
  {
    if cmds == [] {
    } else {
      var before := cmds[..|cmds| - 1];
      var h := After(before);
      SubscribersAreListening(before, ch);
      match cmds[|cmds| - 1]
      case Sub(c, _) =>
        SubscribersAreListening(before, c);
      case Unsub(c) =>
        WithoutFirstKeeps(h.subs, c, ch);
      case Pub(_) =>
    }
  }

  /**
   In every run without double subscriptions a channel has received exactly what `Hears` reads off the
   commands.
   */
  lemma {:induction false} ChannelReceives(cmds: seq<Command>, ch: nat)
    requires Runs(cmds) && NoDoubles(cmds)
    ensures Received(After(cmds).boxes, ch) == Hears(cmds, ch)
  {
    if cmds == [] {
    } else {
      var before := cmds[..|cmds| - 1];
      var h := After(before);
      ChannelReceives(before, ch);
      match cmds[|cmds| - 1]
      case Sub(c, order) =>
        EntriesAreLast(before, order);
        FanoutAllReaches(h.boxes, [c], Entries(h.snapshots, order), ch);
      case Unsub(_) =>
      case Pub(cs) =>
        SubscribersAreListening(before, ch);
        FanoutReaches(h.boxes, h.subs, cs, ch);
    }
  }

  // ----- A late subscriber -----

  /** All that was published. */
  function Published(cmds: seq<Command>): seq<ChainStatus> {
    if cmds == [] then []
    else
      var last := cmds[|cmds| - 1];
      Published(cmds[..|cmds| - 1]) + if last.Pub? then [last.cs] else []
  }

  /** Nobody subscribes or unsubscribes this channel. */
  predicate Quiet(cmds: seq<Command>, ch: nat) {
    forall i :: 0 <= i < |cmds| ==> cmds[i].Pub? || cmds[i].ch != ch
  }

  lemma {:induction false} QuietHearsNothing(cmds: seq<Command>, ch: nat)
    requires Quiet(cmds, ch)
    ensures Hears(cmds, ch) == [] && !Listening(cmds, ch)
  {
    if cmds == [] {
    } else {
      assert Quiet(cmds[..|cmds| - 1], ch);
      QuietHearsNothing(cmds[..|cmds| - 1], ch);
    }
  }

  lemma NothingPublished()
    ensures Published([]) == []
  {
  }

  lemma OneMore(cmds: seq<Command>, c: Command, ch: nat)
    requires c.Pub? || c.ch != ch
    ensures Listening(cmds + [c], ch) == Listening(cmds, ch)
    ensures Hears(cmds + [c], ch) == Hears(cmds, ch) + if Listening(cmds, ch) then Published([c]) else []
    ensures Published(cmds + [c]) == Published(cmds) + Published([c])
  {
    assert (cmds + [c])[..|cmds|] == cmds && [c][..0] == [];
  }

  lemma {:induction false} HearsOn(before: seq<Command>, rest: seq<Command>, ch: nat)
    requires Listening(before, ch) && Quiet(rest, ch)
    ensures Listening(before + rest, ch)
    ensures Hears(before + rest, ch) == Hears(before, ch) + Published(rest)
    ensures Published(before + rest) == Published(before) + Published(rest)
    decreases |rest|
  {
    hide Hears, Listening, Published;
    if rest == [] {
      assert Published([]) == [] by {
        NothingPublished();
      }
      assert before + rest == before;
    } else {
      var front, c := rest[..|rest| - 1], rest[|rest| - 1];
      assert rest == front + [c] && before + rest == (before + front) + [c];
      HearsOn(before, front, ch);
      OneMore(before + front, c, ch);
      OneMore(front, c, ch);
    }
  }

  lemma HearsSnapshots(cmds: seq<Command>, ch: nat, order: seq<ChainRef>)
    requires Quiet(cmds, ch)
    ensures var joined := cmds + [Sub(ch, order)];
            && Listening(joined, ch)
            && Hears(joined, ch) == LastOnEach(cmds, order) && Published(joined) == Published(cmds)
  {
    var joined := cmds + [Sub(ch, order)];
    assert joined[..|joined| - 1] == cmds;
    QuietHearsNothing(cmds, ch);
  }

  /** First the snapshots, then all that is published from then on. */
  lemma LateSubscriberHears(cmds: seq<Command>, ch: nat, order: seq<ChainRef>, rest: seq<Command>)
    requires Quiet(cmds, ch) && Quiet(rest, ch)
    ensures Hears(cmds + [Sub(ch, order)] + rest, ch) == LastOnEach(cmds, order) + Published(rest)
    ensures Published(cmds + [Sub(ch, order)] + rest) == Published(cmds) + Published(rest)
  {
    hide Hears, Published, Listening, LastOnEach;
    HearsSnapshots(cmds, ch, order);
    HearsOn(cmds + [Sub(ch, order)], rest, ch);
  }

  lemma {:induction false} HearsNoMore(before: seq<Command>, rest: seq<Command>, ch: nat)
    requires !Listening(before, ch) && Quiet(rest, ch)
    ensures !Listening(before + rest, ch) && Hears(before + rest, ch) == Hears(before, ch)
    decreases |rest|
  {
    if rest == [] {
      assert before + rest == before;
    } else {
      var front, c := rest[..|rest| - 1], rest[|rest| - 1];
      assert rest == front + [c] && before + rest == (before + front) + [c];
      HearsNoMore(before, front, ch);
      OneMore(before + front, c, ch);
    }
  }

  lemma {:induction false} RunsBefore(cmds: seq<Command>, rest: seq<Command>)
    requires Runs(cmds + rest) && NoDoubles(cmds + rest)
    ensures Runs(cmds) && NoDoubles(cmds)
    decreases |rest|
  {
    if rest == [] {
      assert cmds + rest == cmds;
    } else {
      assert (cmds + rest)[..|cmds + rest| - 1] == cmds + rest[..|rest| - 1];
      RunsBefore(cmds, rest[..|rest| - 1]);
    }
  }

  /** A channel that was unsubscribed receives nothing from then on, whatever is published. */
  lemma UnsubscribedReceivesNothing(cmds: seq<Command>, ch: nat, rest: seq<Command>)
    requires Runs(cmds + ([Unsub(ch)] + rest)) && NoDoubles(cmds + ([Unsub(ch)] + rest)) && Quiet(rest, ch)
    ensures Runs(cmds)
    ensures Received(After(cmds + ([Unsub(ch)] + rest)).boxes, ch) == Received(After(cmds).boxes, ch)
  {
    var off := cmds + [Unsub(ch)];
    RunsBefore(cmds, [Unsub(ch)] + rest);
    assert cmds + ([Unsub(ch)] + rest) == off + rest && off[..|off| - 1] == cmds;
    ChannelReceives(cmds, ch);
    ChannelReceives(off + rest, ch);
    HearsNoMore(off, rest, ch);
  }

  /** Every endpoint publishes under one chain, its own. */
  predicate OneChain(cmds: seq<Command>) {
    forall i, j | 0 <= i < |cmds| && 0 <= j < |cmds| && cmds[i].Pub? && cmds[j].Pub?
                  && cmds[i].cs.endpointName == cmds[j].cs.endpointName :: cmds[i].cs.chain == cmds[j].cs.chain
  }

  lemma {:induction false} LastOnStands(cmds: seq<Command>, chain: ChainRef)
    ensures LastOn(cmds, chain).Some? ==>
              && LastOn(cmds, chain).value.chain == chain
              && exists i :: 0 <= i < |cmds| && cmds[i] == Pub(LastOn(cmds, chain).value)
  {
    if cmds == [] {
    } else {
      var front := cmds[..|cmds| - 1];
      LastOnStands(front, chain);
      if LastOn(cmds, chain).Some? {
        if LastOn(cmds, chain) == LastOn(front, chain) {
          var i :| 0 <= i < |front| && front[i] == Pub(LastOn(front, chain).value);
          assert cmds[i] == front[i];
        } else {
          assert cmds[|cmds| - 1] == Pub(LastOn(cmds, chain).value);
        }
      }
    }
  }

  /** The last status of a chain is the last one of the endpoint it names. */
  lemma {:induction false} LastOnIsLast(cmds: seq<Command>, chain: ChainRef)
    requires OneChain(cmds)
    ensures var last := LastOn(cmds, chain);
            last.Some? ==> LastStatus(Published(cmds), last.value.endpointName) == last
  {
    if cmds == [] {
    } else {
      var front, c := cmds[..|cmds| - 1], cmds[|cmds| - 1];
      assert OneChain(front);
      LastOnIsLast(front, chain);
      LastOnStands(front, chain);
      if c.Pub? && LastOn(cmds, chain).Some? {
        var n := LastOn(cmds, chain).value.endpointName;
        LastOfConcat(Published(front), [c.cs], n);
        assert [c.cs][1..] == [];
        if c.cs.chain != chain {
          var i :| 0 <= i < |front| && front[i] == Pub(LastOn(front, chain).value);
          assert cmds[i] == front[i];
          assert c.cs.endpointName != n;
        }
      } else {
        assert Published(front) + [] == Published(front);
      }
    }
  }

  /** The endpoint's last status is the last of its chain. */
  predicate Told(cmds: seq<Command>, n: string) {
    var last := LastStatus(Published(cmds), n);
    last.Some? && LastOn(cmds, last.value.chain) == last
  }

  /** What the snapshots say of an endpoint: its last status if that is the last of its chain, else nothing. */
  lemma {:induction false} SnapshotsTell(cmds: seq<Command>, order: seq<ChainRef>, n: string)
    requires OneChain(cmds)
    ensures var last, sent := LastStatus(Published(cmds), n), LastOnEach(cmds, order);
            if Told(cmds, n) && last.value.chain in order
            then LastStatus(sent, n) == last && LastHead(sent, n) == last.value.blockhead
            else LastStatus(sent, n) == None && LastHead(sent, n) == None
    decreases |order|
  {
    if order == [] {
    } else {
      var c, rest := order[0], LastOnEach(cmds, order[1..]);
      var one := if LastOn(cmds, c).Some? then [LastOn(cmds, c).value] else [];
      SnapshotsTell(cmds, order[1..], n);
      LastOfConcat(one, rest, n);
      LastOnIsLast(cmds, c);
      LastOnStands(cmds, c);
      NamedRight(Published(cmds), n);
      assert one != [] ==> one[1..] == [];
      assert order == [c] + order[1..];
    }
  }

  lemma ToldIsSent(cmds: seq<Command>, order: seq<ChainRef>, n: string)
    requires Runs(cmds) && Orders(order, After(cmds).snapshots.Keys) && Told(cmds, n)
    ensures LastStatus(Published(cmds), n).value.chain in order
  {
    SnapshotsAreLast(cmds, LastStatus(Published(cmds), n).value.chain);
  }

  /**
   What a late subscriber must have of an endpoint: its health and its head, from a snapshot, from what is published
   later, or because nothing published before says otherwise.
   */
  predicate Informed(e: EndpointState, cmds: seq<Command>, news: seq<ChainStatus>, n: string) {
    var all := Published(cmds);
    && (LastStatus(news, n).Some? || Told(cmds, n) || HealthOf(e, all, n) == e.healthy)
    && (LastHead(news, n).Some? || if Told(cmds, n) then HeadCarried(e, all, n) else HeadOf(e, all, n) == e.head)
  }

  /**
   A channel that subscribes late, in any run, ends where everything published leads exactly when for each endpoint
   its last status was the last of its chain and its head carried, or it was published again since, or what was
   published before leaves it as it was. Snapshots are kept per chain, so an endpoint that shares its chain with a
   later one is not told of.
   */
  lemma LateSubscriber(f: Fleet, cmds: seq<Command>, ch: nat, order: seq<ChainRef>, rest: seq<Command>)
    requires Runs(cmds) && Orders(order, After(cmds).snapshots.Keys) && OneChain(cmds)
    requires Quiet(cmds, ch) && Quiet(rest, ch)
    ensures var run := cmds + [Sub(ch, order)] + rest;
            Replay(f, Hears(run, ch)) == Replay(f, Published(run)) <==>
            forall n :: n in f ==> Informed(f[n], cmds, Published(rest), n)
  {
    var sent, all, news := LastOnEach(cmds, order), Published(cmds), Published(rest);
    LateSubscriberHears(cmds, ch, order, rest);
    HeardEqualsAll(f, sent, all, news);
    forall n | n in f ensures Alike(f[n], sent, all, news, n) <==> Informed(f[n], cmds, news, n) {
      SnapshotsTell(cmds, order, n);
      if Told(cmds, n) {
        ToldIsSent(cmds, order, n);
      }
      NamedRight(all, n);
    }
  }

  /** Without assuming anything about chains: the same in terms of what the snapshots were. */
  lemma LateSubscriberOfAnyChains(f: Fleet, cmds: seq<Command>, ch: nat, order: seq<ChainRef>, rest: seq<Command>)
    requires Quiet(cmds, ch) && Quiet(rest, ch)
    ensures var run := cmds + [Sub(ch, order)] + rest;
            Replay(f, Hears(run, ch)) == Replay(f, Published(run)) <==>
            forall n :: n in f ==> Alike(f[n], LastOnEach(cmds, order), Published(cmds), Published(rest), n)
  {
    LateSubscriberHears(cmds, ch, order, rest);
    HeardEqualsAll(f, LastOnEach(cmds, order), Published(cmds), Published(rest));
  }

  /** Two endpoints on one chain: the first to be published is forgotten by the time someone subscribes. */
  lemma SnapshotsForgetEndpoints(a: ChainStatus, b: ChainStatus, e: EndpointState, order: seq<ChainRef>)
    requires a.chain == b.chain && a.endpointName != b.endpointName && a.healthy != e.healthy
    requires Runs([Pub(a), Pub(b)]) && Orders(order, After([Pub(a), Pub(b)]).snapshots.Keys)
    ensures var f, run := map[a.endpointName := e, b.endpointName := e], [Pub(a), Pub(b)] + [Sub(0, order)] + [];
            Replay(f, Hears(run, 0)) != Replay(f, Published(run))
  {
    var cmds, n := [Pub(a), Pub(b)], a.endpointName;
    assert cmds[..1] == [Pub(a)] && [Pub(a)][..0] == [];
    assert Published([]) == [] && Published([Pub(a)]) == [] + [a];
    assert Published(cmds) == [a] + [b];
    LastOfConcat([a], [b], n);
    assert LastStatus([a], n) == Some(a) && LastStatus([b], n) == None;
    assert LastOn(cmds, a.chain) == Some(b);
    var f := map[n := e, b.endpointName := e];
    assert n in f && !Informed(f[n], cmds, Published([]), n);
    LateSubscriber(f, cmds, 0, order, []);
  }

  class MemoryHub {
    var subs: seq<nat>
    var snapshots: Snapshots
    var boxes: Inboxes

    constructor ()
      ensures State() == EMPTY
    {
      subs, snapshots, boxes := [], map[], map[];
    }

    ghost function State(): Hub
      reads this
    {
      Hub(subs, snapshots, boxes)
    }

    method Subscribe(ch: nat) returns (ghost order: seq<ChainRef>)
      modifies this
      ensures Possible(old(State()), Sub(ch, order)) && State() == Step(old(State()), Sub(ch, order))
    {
      subs := subs + [ch];
      order := [];
      var remaining := snapshots.Keys;
      ghost var b := boxes;
      while remaining != {}
        invariant remaining <= snapshots.Keys
        invariant Orders(order, snapshots.Keys - remaining)
        invariant subs == old(subs) + [ch] && snapshots == old(snapshots)
        invariant boxes == FanoutAll(b, [ch], Entries(snapshots, order))
        decreases |remaining|
      {
        var c :| c in remaining;
        remaining := remaining - {c};
        SentOneMore(b, ch, Entries(snapshots, order), snapshots[c]);
        assert Entries(snapshots, order + [c]) == Entries(snapshots, order) + [snapshots[c]];
        order := order + [c];
        boxes := Send(boxes, ch, snapshots[c]);
      }
    }

    method Unsubscribe(ch: nat)
      modifies this`subs
      ensures State() == Step(old(State()), Unsub(ch))
    {
      subs := Unsubscribed(subs, ch);
    }

    method Publish(cs: ChainStatus)
      modifies this`snapshots, this`boxes
      ensures State() == Step(old(State()), Pub(cs))
    {
      snapshots := snapshots[cs.chain := cs];
      boxes := Broadcast(boxes, subs, cs);
    }

    /** The loop of a new hub over the commands that arrive: some run of the state machine with these commands. */
    method Run(asked: seq<Command>) returns (ghost cmds: seq<Command>)
      requires State() == EMPTY
      modifies this
      ensures |cmds| == |asked| && forall i :: 0 <= i < |asked| ==> Asked(cmds[i]) == Asked(asked[i])
      ensures Runs(cmds) && State() == After(cmds)
    {
      hide FanoutAll, Fanout, Orders, Entries;
      cmds := [];
      for i := 0 to |asked|
        invariant |cmds| == i && forall j :: 0 <= j < i ==> Asked(cmds[j]) == Asked(asked[j])
        invariant Runs(cmds) && State() == After(cmds)
      {
        ghost var c := asked[i];
        match asked[i] {
          case Sub(ch, _) =>
            ghost var order := Subscribe(ch);
            c := Sub(ch, order);
          case Unsub(ch) =>
            Unsubscribe(ch);
          case Pub(cs) =>
            Publish(cs);
        }
        assert (cmds + [c])[..|cmds|] == cmds;
        cmds := cmds + [c];
      }
    }
  }

  /** A command without the order of the snapshots, which is not the caller's to choose. */
  function Asked(c: Command): Command {
    if c.Sub? then Sub(c.ch, []) else c
  }

  lemma {:induction false} SentOneMore(boxes: Inboxes, ch: nat, css: seq<ChainStatus>, cs: ChainStatus)
    ensures FanoutAll(boxes, [ch], css + [cs]) == Send(FanoutAll(boxes, [ch], css), ch, cs)
    decreases |css|
  {
    assert [ch][1..] == [];
    assert forall boxes, cs :: Fanout(boxes, [ch], cs) == Send(boxes, ch, cs);
    if css == [] {
      assert [cs][1..] == [];
    } else {
      assert (css + [cs])[1..] == css[1..] + [cs];
      SentOneMore(Fanout(boxes, [ch], css[0]), ch, css[1..], cs);
    }
  }
}
