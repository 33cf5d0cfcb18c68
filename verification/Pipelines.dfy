/**
 From the polls to the routing state: every endpoint of a gateway has a poller of its own, the pollers share the
 hub, and the updater is subscribed to it. Polls of different endpoints interleave in any way. And the way from
 either hub to the routing state of a gateway that joins when others have been publishing for a while.
 */
module Pipelines {
  import opened Types
  import opened Fleets
  import opened Replays
  import opened Derived
  import opened Endpoints
  import opened Multiplexers
  import opened Fetching
  import opened Channels
  import opened MemoryHubs
  import StreamHubs

  /** One poll of one endpoint. */
  datatype PollOf = PollOf(n: string, outcome: Outcome)

  /** What each poller remembers of its last poll. */
  type Memory = map<string, Option<Block>>

  function Recalled(memory: Memory, n: string): Option<Block> {
    if n in memory then memory[n] else None
  }

  /** The statuses that reach the hub, unchanged heads suppressed. */
  function AllPublished(chains: map<string, ChainRef>, memory: Memory, polls: seq<PollOf>): seq<ChainStatus>
    requires forall p :: p in polls ==> p.n in chains
    decreases |polls|
  {
    if polls == [] then []
    else
      var p := polls[0];
      Fetching.Published(p.n, chains[p.n], Recalled(memory, p.n), p.outcome) +
      AllPublished(chains, memory[p.n := Remembered(p.outcome)], polls[1..])
  }

  // ----- What the nodes said last -----

  /** The last poll of an endpoint that failed or brought a block. */
  function LastWord(polls: seq<PollOf>, n: string): Option<Outcome> {
    if polls == [] then None
    else
      var later := LastWord(polls[1..], n);
      if later.Some? then later
      else if polls[0].n == n && !polls[0].outcome.NoBlock? then Some(polls[0].outcome)
      else None
  }

  /** The last block that a poll of an endpoint brought. */
  function LastGot(polls: seq<PollOf>, n: string): Option<Block> {
    if polls == [] then None
    else
      var later := LastGot(polls[1..], n);
      if later.Some? then later
      else if polls[0].n == n && polls[0].outcome.Got? then Some(polls[0].outcome.block)
      else None
  }

  /** Poll `i` is the last of the endpoint that failed or brought a block. */
  predicate IsLastWord(polls: seq<PollOf>, n: string, i: int) {
    && 0 <= i < |polls| && polls[i].n == n && !polls[i].outcome.NoBlock?
    && forall j :: i < j < |polls| && polls[j].n == n ==> polls[j].outcome.NoBlock?
  }

  /** Poll `i` is the last of the endpoint that brought a block. */
  predicate IsLastGot(polls: seq<PollOf>, n: string, i: int) {
    && 0 <= i < |polls| && polls[i].n == n && polls[i].outcome.Got?
    && forall j :: i < j < |polls| && polls[j].n == n ==> !polls[j].outcome.Got?
  }

  lemma {:induction false} LastWordStands(polls: seq<PollOf>, n: string, i: int)
    ensures IsLastWord(polls, n, i) ==> LastWord(polls, n) == Some(polls[i].outcome)
    ensures IsLastGot(polls, n, i) ==> LastGot(polls, n) == Some(polls[i].outcome.block)
    ensures (forall k :: 0 <= k < |polls| && polls[k].n == n ==> polls[k].outcome.NoBlock?) ==>
              LastWord(polls, n) == None
    ensures (forall k :: 0 <= k < |polls| && polls[k].n == n ==> !polls[k].outcome.Got?) ==>
              LastGot(polls, n) == None
    decreases |polls|
  {
    if polls == [] {
    } else {
      var rest := polls[1..];
      assert forall k :: 0 <= k < |rest| ==> rest[k] == polls[k + 1];
      LastWordStands(rest, n, i - 1);
    }
  }

  function Polled(e: EndpointState, polls: seq<PollOf>, n: string): EndpointState {
    var word, got := LastWord(polls, n), LastGot(polls, n);
    e.(healthy := if word.Some? then word.value.Got? else e.healthy, head := if got.Some? then got else e.head)
  }

  function AllPolled(f: Fleet, polls: seq<PollOf>): Fleet {
    map n | n in f :: Polled(f[n], polls, n)
  }

  /** One poll's effect on one endpoint. */
  function Took(e: EndpointState, o: Outcome): EndpointState {
    match o
    case Failed => e.(healthy := false)
    case NoBlock => e
    case Got(b) => e.(healthy := true, head := Some(b))
  }

  ghost predicate AllInStep(f: Fleet, memory: Memory) {
    forall n :: InStep(f, n, Recalled(memory, n))
  }

  /** Whether it is published or suppressed, a poll's outcome is what the fleet shows of its endpoint afterwards. */
  lemma OnePoll(f: Fleet, chain: ChainRef, memory: Memory, p: PollOf)
    requires AllInStep(f, memory)
    ensures var g := Replay(f, Fetching.Published(p.n, chain, Recalled(memory, p.n), p.outcome));
            && AllInStep(g, memory[p.n := Remembered(p.outcome)])
            && g == if p.n in f then f[p.n := Took(f[p.n], p.outcome)] else f
  {
    var last, e := Recalled(memory, p.n), Poll(p.outcome);
    assert InStep(f, p.n, last);
    OneSaid(f, p.n, chain, last, e);
    StaysInStep(f, p.n, chain, last, e);
    var g := Replay(f, Said(p.n, chain, last, e));
    assert g == if p.n in f then f[p.n := Took(f[p.n], p.outcome)] else f;
    var later := memory[p.n := Remembered(p.outcome)];
    forall n ensures InStep(g, n, Recalled(later, n)) {
      assert InStep(f, n, Recalled(memory, n));
    }
  }

  /**
   However the polls interleave, the fleet ends with what the nodes said last: the health of the last poll that
   failed or brought a block, the head of the last that brought one. No suppressed status is missed.
   */
  lemma {:induction false} PollsAreShown(f: Fleet, chains: map<string, ChainRef>, memory: Memory, polls: seq<PollOf>)
    requires forall p :: p in polls ==> p.n in chains
    requires AllInStep(f, memory)
    ensures Replay(f, AllPublished(chains, memory, polls)) == AllPolled(f, polls)
    decreases |polls|
  {
    if polls == [] {
      assert AllPolled(f, []) == f;
    } else {
      var p, rest := polls[0], polls[1..];
      var said := Fetching.Published(p.n, chains[p.n], Recalled(memory, p.n), p.outcome);
      var later := memory[p.n := Remembered(p.outcome)];
      var g := Replay(f, said);
      OnePoll(f, chains[p.n], memory, p);
      ReplayConcat(f, said, AllPublished(chains, later, rest));
      PollsAreShown(g, chains, later, rest);
      assert AllPolled(g, rest) == AllPolled(f, polls) by {
        PolledStep(f, g, polls);
      }
    }
  }

  /** The same spelled out, for the poll that tells and for endpoints that were never told of. */
  lemma LastPollTells(f: Fleet, chains: map<string, ChainRef>, polls: seq<PollOf>, n: string, i: int)
    requires (forall p :: p in polls ==> p.n in chains) && n in f
    ensures var g := Replay(f, AllPublished(chains, map[], polls));
            && n in g
            && (IsLastWord(polls, n, i) ==> g[n].healthy == polls[i].outcome.Got?)
            && (IsLastGot(polls, n, i) ==> g[n].head == Some(polls[i].outcome.block))
            && ((forall k :: 0 <= k < |polls| && polls[k].n == n ==> polls[k].outcome.NoBlock?) ==> g[n] == f[n])
  {
    PollsAreShown(f, chains, map[], polls);
    LastWordStands(polls, n, i);
  }

  lemma PolledStep(f: Fleet, g: Fleet, polls: seq<PollOf>)
    requires polls != []
    requires var p := polls[0]; g == if p.n in f then f[p.n := Took(f[p.n], p.outcome)] else f
    ensures AllPolled(g, polls[1..]) == AllPolled(f, polls)
  {
    forall n | n in f ensures Polled(g[n], polls[1..], n) == Polled(f[n], polls, n) {
    }
  }

  /** Whatever the pollers publish names an endpoint under the endpoint's own chain. */
  lemma {:induction false} PollersSign(chains: map<string, ChainRef>, memory: Memory, polls: seq<PollOf>)
    requires forall p :: p in polls ==> p.n in chains
    ensures forall cs :: cs in AllPublished(chains, memory, polls) ==>
              cs.endpointName in chains && cs.chain == chains[cs.endpointName]
    decreases |polls|
  {
    if polls == [] {
    } else {
      PollersSign(chains, memory[polls[0].n := Remembered(polls[0].outcome)], polls[1..]);
    }
  }

  /** So a hub that only pollers publish to is told of every endpoint under one chain, as `LateSubscriber` asks. */
  lemma PollersAreOneChain(chains: map<string, ChainRef>, cmds: seq<Command>, polls: seq<PollOf>)
    requires forall p :: p in polls ==> p.n in chains
    requires forall c :: c in cmds && c.Pub? ==> c.cs in AllPublished(chains, map[], polls)
    ensures OneChain(cmds)
  {
    PollersSign(chains, map[], polls);
    forall c | c in cmds && c.Pub? ensures c.cs.endpointName in chains && c.cs.chain == chains[c.cs.endpointName] {
    }
    assert forall i :: 0 <= i < |cmds| ==> cmds[i] in cmds;
  }

  // ----- The same in the gateway -----

  ghost function ChainsOf(index: map<string, Endpoint>): map<string, ChainRef> {
    map n | n in index :: index[n].chain
  }

  /** Whether an endpoint is connected is no part of the facts. */
  method PollAside(m: Multiplexer, ep: Endpoint, last: Option<Block>, o: Outcome)
    returns (said: seq<ChainStatus>, block: Option<Block>)
    requires m.Sound() && m.Registered(ep)
    modifies ep`connected
    ensures m.Sound() && m.Facts() == old(m.Facts()) && m.RightTips() == old(m.RightTips())
    ensures said == Fetching.Published(ep.name, ep.chain, last, o) && block == Remembered(o)
  {
    hide Agrees, Right, Linked, SetsOf, Fetching.Published;
    said, block := GetBlockhead(ep, last, o);
    assert m.Facts() == old(m.Facts()) by {
      assert forall n :: n in m.nameIndex ==> m.nameIndex[n].State() == old(m.nameIndex[n].State());
    }
  }

  /** One turn of one poller: the hub passes on what it publishes; facts and routing are not touched. */
  method PollOnce(m: Multiplexer, hub: MemoryHub, ep: Endpoint, last: Option<Block>, o: Outcome)
    returns (block: Option<Block>)
    requires m.Sound() && m.Registered(ep) && hub.subs == [0]
    modifies hub, ep`connected
    ensures m.Sound() && m.Facts() == old(m.Facts()) && m.RightTips() == old(m.RightTips())
    ensures block == Remembered(o) && hub.subs == [0]
    ensures Received(hub.boxes, 0) == Received(old(hub.boxes), 0) + Fetching.Published(ep.name, ep.chain, last, o)
  {
    hide Multiplexer.Sound, Multiplexer.RightTips, Multiplexer.Facts, Fanout, Received;
    var said;
    said, block := PollAside(m, ep, last, o);
    OneSaid(map[], ep.name, ep.chain, last, Poll(o));
    if |said| > 0 {
      FanoutReaches(hub.boxes, [0], said[0], 0);
      hub.Publish(said[0]);
    }
  }

  method PollNext(m: Multiplexer, hub: MemoryHub, memory: Memory, polls: seq<PollOf>, i: nat) returns (later: Memory)
    requires m.Sound() && hub.subs == [0] && i < |polls|
    requires forall p :: p in polls ==> p.n in m.nameIndex
    modifies hub, m.nameIndex.Values
    ensures m.Sound() && m.Facts() == old(m.Facts()) && m.RightTips() == old(m.RightTips()) && hub.subs == [0]
    ensures Received(hub.boxes, 0) + AllPublished(ChainsOf(m.nameIndex), later, polls[i + 1..]) ==
            Received(old(hub.boxes), 0) + AllPublished(ChainsOf(m.nameIndex), memory, polls[i..])
  {
    hide Received, Multiplexer.Sound, Multiplexer.RightTips, Multiplexer.Facts;
    m.NamesAreKeys();
    NextPublished(ChainsOf(m.nameIndex), memory, polls, i);
    var p := polls[i];
    var block := PollOnce(m, hub, m.nameIndex[p.n], Recalled(memory, p.n), p.outcome);
    later := memory[p.n := block];
  }

  /** All turns of all pollers, in the order in which they happen. */
  method PollAll(m: Multiplexer, hub: MemoryHub, polls: seq<PollOf>)
    requires m.Sound() && hub.State() == EMPTY
    requires forall p :: p in polls ==> p.n in m.nameIndex
    modifies hub, m.nameIndex.Values
    ensures m.Sound() && m.Facts() == old(m.Facts()) && m.RightTips() == old(m.RightTips())
    ensures Received(hub.boxes, 0) == AllPublished(ChainsOf(m.nameIndex), map[], polls)
  {
    hide Received, Multiplexer.Sound, Multiplexer.RightTips, Multiplexer.Facts;
    ghost var order := Greet(hub);
    var memory: Memory := map[];
    ghost var chains := ChainsOf(m.nameIndex);
    for i := 0 to |polls|
      invariant m.Sound() && m.Facts() == old(m.Facts()) && m.RightTips() == old(m.RightTips())
      invariant hub.subs == [0]
      invariant Received(hub.boxes, 0) + AllPublished(chains, memory, polls[i..]) == AllPublished(chains, map[], polls)
    {
      memory := PollNext(m, hub, memory, polls, i);
    }
    assert polls[|polls|..] == [];
  }

  /** The updater subscribes to a new hub and is sent nothing yet. */
  method Greet(hub: MemoryHub) returns (ghost order: seq<ChainRef>)
    requires hub.State() == EMPTY
    modifies hub
    ensures hub.subs == [0] && Received(hub.boxes, 0) == []
  {
    order := hub.Subscribe(0);
    NoSnapshots(order);
  }

  lemma NoSnapshots(order: seq<ChainRef>)
    requires Orders(order, {})
    ensures order == []
  {
    Occurs(order);
  }

  lemma Occurs<T>(s: seq<T>)
    ensures s != [] ==> s[0] in s
  {
  }

  lemma NextPublished(chains: map<string, ChainRef>, memory: Memory, polls: seq<PollOf>, i: nat)
    requires i < |polls| && forall p :: p in polls ==> p.n in chains
    ensures var p := polls[i];
            AllPublished(chains, memory, polls[i..]) ==
            Fetching.Published(p.n, chains[p.n], Recalled(memory, p.n), p.outcome) +
            AllPublished(chains, memory[p.n := Remembered(p.outcome)], polls[i + 1..])
  {
    assert polls[i..][0] == polls[i] && polls[i..][1..] == polls[i + 1..];
  }

  /**
   A gateway from its polls to its routing state: whatever the pollers bring and however they interleave, after the
   updater has applied what the hub passed on the facts are what the nodes said last, names and weights agree with
   them, and tips that were right are right.
   */
  method RunGateway(m: Multiplexer, hub: MemoryHub, polls: seq<PollOf>)
    requires m.Sound() && hub.State() == EMPTY
    requires forall p :: p in polls ==> p.n in m.nameIndex
    modifies hub, m.nameIndex.Values, m.chainIndex.Values
    ensures m.Sound() && m.Facts() == AllPolled(old(m.Facts()), polls)
    ensures old(m.Valid()) ==> m.Valid()
  {
    hide Agrees, Right, Received;
    PollAll(m, hub, polls);
    var statuses := Received(hub.boxes, 0);
    PollsAreShown(m.Facts(), ChainsOf(m.nameIndex), map[], polls);
    m.RunUpdator(statuses);
  }

  // ----- Joining a hub that is at work -----

  /** These statuses, as commands to the hub. */
  function Pubs(css: seq<ChainStatus>): seq<Command> {
    seq(|css|, i requires 0 <= i < |css| => Pub(css[i]))
  }

  lemma {:induction false} PubsPublish(css: seq<ChainStatus>, ch: nat)
    ensures MemoryHubs.Published(Pubs(css)) == css && Quiet(Pubs(css), ch)
  {
    if css == [] {
    } else {
      var front := css[..|css| - 1];
      PubsPublish(front, ch);
      assert Pubs(css)[..|css| - 1] == Pubs(front);
    }
  }

  /** One more command in a run without double subscriptions. */
  lemma RunGoesOn(cmds: seq<Command>, c: Command)
    requires Runs(cmds) && Possible(After(cmds), c)
    ensures Runs(cmds + [c]) && After(cmds + [c]) == MemoryHubs.Step(After(cmds), c)
    ensures NoDoubles(cmds + [c]) <==> NoDoubles(cmds) && (c.Sub? ==> !Listening(cmds, c.ch))
  {
    assert (cmds + [c])[..|cmds|] == cmds;
  }

  /** The hub passes on what is published next. */
  method PublishAll(hub: MemoryHub, ghost cmds: seq<Command>, css: seq<ChainStatus>)
    requires Runs(cmds) && NoDoubles(cmds) && hub.State() == After(cmds)
    modifies hub
    ensures Runs(cmds + Pubs(css)) && NoDoubles(cmds + Pubs(css)) && hub.State() == After(cmds + Pubs(css))
  {
    hide Runs, NoDoubles, After, Pubs;
    NoPubs(cmds);
    for i := 0 to |css|
      invariant Runs(cmds + Pubs(css[..i])) && NoDoubles(cmds + Pubs(css[..i]))
      invariant hub.State() == After(cmds + Pubs(css[..i]))
    {
      RunGoesOn(cmds + Pubs(css[..i]), Pub(css[i]));
      OneMorePub(cmds, css, i);
      hub.Publish(css[i]);
    }
    assert css[..|css|] == css;
  }

  lemma NoPubs(cmds: seq<Command>)
    ensures forall css :: css == [] ==> cmds + Pubs(css) == cmds
  {
  }

  lemma OneMorePub(cmds: seq<Command>, css: seq<ChainStatus>, i: nat)
    requires i < |css|
    ensures cmds + Pubs(css[..i + 1]) == cmds + Pubs(css[..i]) + [Pub(css[i])]
  {
    assert Pubs(css[..i + 1]) == Pubs(css[..i]) + [Pub(css[i])];
  }

  /** A new channel subscribes to a hub that has been at work and hears what is published from then on. */
  method HearLate(hub: MemoryHub, ghost cmds: seq<Command>, ch: nat, news: seq<ChainStatus>)
    returns (heard: seq<ChainStatus>, ghost order: seq<ChainRef>)
    requires Runs(cmds) && NoDoubles(cmds) && hub.State() == After(cmds) && Quiet(cmds, ch)
    modifies hub
    ensures Orders(order, After(cmds).snapshots.Keys)
    ensures heard == Hears(cmds + [Sub(ch, order)] + Pubs(news), ch)
    ensures MemoryHubs.Published(cmds + [Sub(ch, order)] + Pubs(news)) == MemoryHubs.Published(cmds) + news
  {
    hide Runs, NoDoubles, After, Pubs, Hears;
    QuietHearsNothing(cmds, ch);
    order := hub.Subscribe(ch);
    RunGoesOn(cmds, Sub(ch, order));
    PublishAll(hub, cmds + [Sub(ch, order)], news);
    ChannelReceives(cmds + [Sub(ch, order)] + Pubs(news), ch);
    PubsPublish(news, ch);
    LateSubscriberHears(cmds, ch, order, Pubs(news));
    heard := Received(hub.boxes, ch);
  }

  /**
   A gateway whose updater subscribes to a hub that has been at work: its routing state is sound, and its facts are
   those of everything published exactly when it is informed of every endpoint.
   */
  method JoinLate(m: Multiplexer, hub: MemoryHub, ghost cmds: seq<Command>, ch: nat, news: seq<ChainStatus>)
    requires m.Sound()
    requires Runs(cmds) && NoDoubles(cmds) && hub.State() == After(cmds) && Quiet(cmds, ch) && OneChain(cmds)
    modifies hub, m.nameIndex.Values, m.chainIndex.Values
    ensures m.Sound() && (old(m.Valid()) ==> m.Valid())
    ensures m.Facts() == Replay(old(m.Facts()), MemoryHubs.Published(cmds) + news) <==>
            forall n :: n in old(m.Facts()) ==> Informed(old(m.Facts())[n], cmds, news, n)
  {
    hide Multiplexer.Sound, Multiplexer.RightTips, Multiplexer.Facts, Runs, NoDoubles, After, Pubs, Hears, Informed;
    var heard, order := HearLate(hub, cmds, ch, news);
    PubsPublish(news, ch);
    LateSubscriber(m.Facts(), cmds, ch, order, Pubs(news));
    m.RunUpdator(heard);
  }

  /** A new channel subscribes to the stream and hears its catch-up and what the listener delivers. */
  method HearStream(hub: StreamHubs.StreamHub, ch: nat, acts: seq<StreamHubs.Action>) returns (heard: seq<ChainStatus>)
    requires hub.Valid() && StreamHubs.Decodable(hub.log)
    requires AtMostOnce(hub.subs) && ch !in hub.subs && Received(hub.boxes, ch) == []
    modifies hub
    ensures heard == CatchUp(StreamHubs.Window(old(hub.log))) + StreamHubs.Heard(old(hub.log), old(hub.listener), acts)
  {
    hide Received, StreamHubs.Decodable, StreamHubs.Window, CatchUp;
    ghost var caught := CatchUp(StreamHubs.Window(hub.log));
    hub.Follow(ch, acts);
    heard := Received(hub.boxes, ch);
    assert [] + caught == caught;
  }

  /** The facts `g` are those of the stream exactly when a subscriber with facts `f` recovers every endpoint. */
  ghost predicate IsCurrent(f: Fleet, g: Fleet, log: StreamHubs.Log, l: StreamHubs.Listener,
                            acts: seq<StreamHubs.Action>)
    requires StreamHubs.Decodable(log) && StreamHubs.Decodable(StreamHubs.LogAfter(log, acts))
  {
    var later, heard := StreamHubs.LogAfter(log, acts), StreamHubs.Heard(log, l, acts);
    var from, to := StreamHubs.From(log, l, acts), StreamHubs.To(log, l, acts);
    && from <= to <= |later| && |log| <= to
    && (g == Replay(f, StreamHubs.Published(log, later, from, to)) <==>
        forall n :: n in f ==> Recovers(f[n], StreamHubs.Window(log), StreamHubs.Missed(log, later, from), heard, n))
  }

  /**
   A gateway whose updater subscribes to the shared stream, whatever is appended and whenever the listener reads: its
   routing state is sound and its facts are those of the catch-up and of all that the listener delivers. As soon as a
   listener that does not skip is past the subscription they are those of the stream exactly when every endpoint
   recovers.
   */
  method JoinStream(m: Multiplexer, hub: StreamHubs.StreamHub, ch: nat, acts: seq<StreamHubs.Action>)
    requires m.Sound() && hub.Valid() && StreamHubs.Decodable(StreamHubs.LogAfter(hub.log, acts))
    requires AtMostOnce(hub.subs) && ch !in hub.subs && Received(hub.boxes, ch) == []
    modifies hub, m.nameIndex.Values, m.chainIndex.Values
    ensures m.Sound() && (old(m.Valid()) ==> m.Valid())
    ensures StreamHubs.Decodable(old(hub.log))
    ensures var f, window := old(m.Facts()), StreamHubs.Window(old(hub.log));
            m.Facts() == Replay(f, CatchUp(window) + StreamHubs.Heard(old(hub.log), old(hub.listener), acts))
    ensures var log, l := old(hub.log), old(hub.listener);
            StreamHubs.NeverSkips(log, l, acts) && StreamHubs.To(log, l, acts) >= |log| ==>
              IsCurrent(old(m.Facts()), m.Facts(), log, l, acts)
  {
    hide Multiplexer.Sound, Multiplexer.RightTips, Multiplexer.Facts, StreamHubs.Decodable, StreamHubs.Window;
    ghost var f, log, l := m.Facts(), hub.log, hub.listener;
    StreamHubs.DecodableBefore(log, acts);
    var heard := HearStream(hub, ch, acts);
    m.RunUpdator(heard);
    if StreamHubs.NeverSkips(log, l, acts) && StreamHubs.To(log, l, acts) >= |log| {
      StreamIsCurrent(f, m.Facts(), log, l, acts);
    }
  }

  lemma StreamIsCurrent(f: Fleet, g: Fleet, log: StreamHubs.Log, l: StreamHubs.Listener,
                        acts: seq<StreamHubs.Action>)
    requires StreamHubs.Following(log, l) && StreamHubs.NeverSkips(log, l, acts) && StreamHubs.To(log, l, acts) >= |log|
    requires StreamHubs.Decodable(log) && StreamHubs.Decodable(StreamHubs.LogAfter(log, acts))
    requires g == Replay(f, CatchUp(StreamHubs.Window(log)) + StreamHubs.Heard(log, l, acts))
    ensures IsCurrent(f, g, log, l, acts)
  {
    StreamHubs.SubscriberIsCurrent(f, log, l, acts);
  }
}
