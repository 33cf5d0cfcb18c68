/** The poller of one endpoint and what it publishes. */
module Fetching {
  import opened Types
  import opened Fleets
  import opened Replays
  import opened Endpoints

  /** How one poll ends: with an error, with no block, or with a block. */
  datatype Outcome = Failed | NoBlock | Got(block: Block)

  /** No block equals nothing, not even no block. */
  predicate BlockIsEqual(a: Option<Block>, b: Option<Block>) {
    a.Some? && b.Some? && a.value.height == b.value.height && a.value.hash == b.value.hash
  }

  function HealthyStatus(ep: string, chain: ChainRef, block: Block): ChainStatus {
    ChainStatus(ep, chain, true, Some(block))
  }

  function FailedStatus(ep: string, chain: ChainRef): ChainStatus {
    ChainStatus(ep, chain, false, None)
  }

  /** What one poll publishes when the poll before it ended with `last`. */
  function Published(ep: string, chain: ChainRef, last: Option<Block>, o: Outcome): seq<ChainStatus> {
    match o
    case Failed => [FailedStatus(ep, chain)]
    case NoBlock => []
    case Got(b) => if BlockIsEqual(last, Some(b)) then [] else [HealthyStatus(ep, chain, b)]
  }

  function Remembered(o: Outcome): Option<Block> {
    if o.Got? then Some(o.block) else None
  }

  /** What happens to the gateway: a poll of this endpoint, or a status of another one. */
  datatype Event = Poll(outcome: Outcome) | Foreign(status: ChainStatus)

  /** The statuses that reach the updater when unchanged heads are suppressed. */
  function Suppressed(ep: string, chain: ChainRef, last: Option<Block>, events: seq<Event>): seq<ChainStatus>
    decreases |events|
  {
    if events == [] then []
    else
      match events[0]
      case Foreign(cs) => [cs] + Suppressed(ep, chain, last, events[1..])
      case Poll(o) => Published(ep, chain, last, o) + Suppressed(ep, chain, Remembered(o), events[1..])
  }

  /** The statuses that would reach it if every head were published. */
  function Unsuppressed(ep: string, chain: ChainRef, events: seq<Event>): seq<ChainStatus> {
    if events == [] then []
    else
      match events[0]
      case Foreign(cs) => [cs] + Unsuppressed(ep, chain, events[1..])
      case Poll(o) => Published(ep, chain, None, o) + Unsuppressed(ep, chain, events[1..])
  }

  /** A poll that says nothing though it saw a block. */
  predicate Suppresses(last: Option<Block>, o: Outcome) {
    o.Got? && BlockIsEqual(last, Some(o.block))
  }

  /** Every suppressed poll finds the endpoint, if it is known, healthy and with that very head. */
  predicate Harmless(f: Fleet, ep: string, chain: ChainRef, last: Option<Block>, events: seq<Event>)
    decreases |events|
  {
    if events == [] then true
    else
      match events[0]
      case Foreign(cs) => Harmless(Apply(f, cs), ep, chain, last, events[1..])
      case Poll(o) =>
        && (Suppresses(last, o) && ep in f ==> f[ep].healthy && f[ep].head == Some(o.block))
        && Harmless(Replay(f, Published(ep, chain, last, o)), ep, chain, Remembered(o), events[1..])
  }

  /** After these events the fleet is the same with and without suppression. */
  predicate SameAfter(f: Fleet, ep: string, chain: ChainRef, last: Option<Block>, events: seq<Event>) {
    Replay(f, Suppressed(ep, chain, last, events)) == Replay(f, Unsuppressed(ep, chain, events))
  }

  /** What one event makes reach the updater, with suppression and without. */
  function Said(ep: string, chain: ChainRef, last: Option<Block>, e: Event): seq<ChainStatus> {
    match e
    case Foreign(cs) => [cs]
    case Poll(o) => Published(ep, chain, last, o)
  }

  function LastAfter(last: Option<Block>, e: Event): Option<Block> {
    if e.Poll? then Remembered(e.outcome) else last
  }

  lemma OneSaid(f: Fleet, ep: string, chain: ChainRef, last: Option<Block>, e: Event)
    ensures |Said(ep, chain, last, e)| <= 1
    ensures var said := Said(ep, chain, last, e); Replay(f, said) == if said == [] then f else Apply(f, said[0])
  {
    var said := Said(ep, chain, last, e);
    assert said != [] ==> said[1..] == [];
  }

  /** The first event leaves the fleet alike exactly when it is not a suppressed poll that would have told something. */
  lemma FirstIsHarmless(f: Fleet, ep: string, chain: ChainRef, last: Option<Block>, e: Event)
    ensures Replay(f, Said(ep, chain, last, e)) == Replay(f, Said(ep, chain, None, e)) <==>
            (e.Poll? && Suppresses(last, e.outcome) && ep in f ==> f[ep].healthy && f[ep].head == Some(e.outcome.block))
  {
    OneSaid(f, ep, chain, last, e);
    OneSaid(f, ep, chain, None, e);
    if e.Poll? && Suppresses(last, e.outcome) {
      var cs := HealthyStatus(ep, chain, e.outcome.block);
      assert Said(ep, chain, None, e) == [cs];
      assert ep in f ==> (f[ep] == Updated(f[ep], cs) <==> f[ep].healthy && f[ep].head == Some(e.outcome.block));
      assert ep in f && Apply(f, cs) == f ==> f[ep] == Apply(f, cs)[ep];
    }
  }

  lemma AfterFirst(f: Fleet, ep: string, chain: ChainRef, last: Option<Block>, events: seq<Event>)
    requires events != []
    ensures Replay(f, Suppressed(ep, chain, last, events)) ==
            Replay(Replay(f, Said(ep, chain, last, events[0])),
                   Suppressed(ep, chain, LastAfter(last, events[0]), events[1..]))
    ensures Replay(f, Unsuppressed(ep, chain, events)) ==
            Replay(Replay(f, Said(ep, chain, None, events[0])), Unsuppressed(ep, chain, events[1..]))
  {
    ReplayConcat(f, Said(ep, chain, last, events[0]), Suppressed(ep, chain, LastAfter(last, events[0]), events[1..]));
    ReplayConcat(f, Said(ep, chain, None, events[0]), Unsuppressed(ep, chain, events[1..]));
  }

  /**
   Suppressing unchanged heads shows nowhere along the way exactly when it is harmless: when every suppressed poll
   finds the endpoint healthy and with that head. Whoever else publishes, for whichever endpoint, is in `events`.
   */
  lemma {:induction false} SuppressionShows(f: Fleet, ep: string, chain: ChainRef, last: Option<Block>,
                                            events: seq<Event>)
    ensures Harmless(f, ep, chain, last, events) <==>
            forall k :: 0 <= k <= |events| ==> SameAfter(f, ep, chain, last, events[..k])
    decreases |events|
  {
    if events == [] {
      assert events[..0] == [];
    } else {
      var e, rest := events[0], events[1..];
      FirstIsHarmless(f, ep, chain, last, e);
      var g := Replay(f, Said(ep, chain, last, e));
      if g == Replay(f, Said(ep, chain, None, e)) {
        OneSaid(f, ep, chain, last, e);
        SuppressionShows(g, ep, chain, LastAfter(last, e), rest);
        forall k | 0 <= k <= |rest|
          ensures SameAfter(f, ep, chain, last, events[..k + 1]) <==>
                  SameAfter(g, ep, chain, LastAfter(last, e), rest[..k])
        {
          assert events[..k + 1][1..] == rest[..k];
          AfterFirst(f, ep, chain, last, events[..k + 1]);
        }
        LaterPrefixes(f, g, ep, chain, last, events);
      } else {
        assert events[..1][1..] == [] && events[..1][0] == e;
        AfterFirst(f, ep, chain, last, events[..1]);
        assert !SameAfter(f, ep, chain, last, events[..1]);
      }
    }
  }

  lemma LaterPrefixes(f: Fleet, g: Fleet, ep: string, chain: ChainRef, last: Option<Block>, events: seq<Event>)
    requires events != []
    requires forall k :: 0 <= k < |events| ==>
               (SameAfter(f, ep, chain, last, events[..k + 1]) <==>
                SameAfter(g, ep, chain, LastAfter(last, events[0]), events[1..][..k]))
    ensures (forall k :: 0 <= k <= |events| ==> SameAfter(f, ep, chain, last, events[..k])) <==>
            (forall k :: 0 <= k < |events| ==> SameAfter(g, ep, chain, LastAfter(last, events[0]), events[1..][..k]))
  {
    assert events[..0] == [];
    if forall k :: 0 <= k < |events| ==> SameAfter(g, ep, chain, LastAfter(last, events[0]), events[1..][..k]) {
      forall k | 0 < k <= |events| ensures SameAfter(f, ep, chain, last, events[..k]) {
        assert SameAfter(g, ep, chain, LastAfter(last, events[0]), events[1..][..k - 1]);
        assert events[..k] == events[..(k - 1) + 1];
      }
    } else {
      var k :| 0 <= k < |events| && !SameAfter(g, ep, chain, LastAfter(last, events[0]), events[1..][..k]);
      assert !SameAfter(f, ep, chain, last, events[..k + 1]);
    }
  }

  /** Harmless suppression ends as if every head had been published. */
  lemma SuppressionIsInvisible(f: Fleet, ep: string, chain: ChainRef, last: Option<Block>, events: seq<Event>)
    requires Harmless(f, ep, chain, last, events)
    ensures Replay(f, Suppressed(ep, chain, last, events)) == Replay(f, Unsuppressed(ep, chain, events))
  {
    SuppressionShows(f, ep, chain, last, events);
    assert events[..|events|] == events;
    assert SameAfter(f, ep, chain, last, events[..|events|]);
  }

  // ----- One publisher, and two -----

  /** What the poller remembers is what the fleet shows: healthy, with that head. */
  predicate InStep(f: Fleet, ep: string, last: Option<Block>) {
    last.Some? && ep in f ==> f[ep].healthy && f[ep].head == last
  }

  predicate OnlyPublisher(ep: string, events: seq<Event>) {
    forall i :: 0 <= i < |events| && events[i].Foreign? ==> events[i].status.endpointName != ep
  }

  /** One event of an endpoint's only publisher keeps it in step with the fleet. */
  lemma StaysInStep(f: Fleet, ep: string, chain: ChainRef, last: Option<Block>, e: Event)
    requires InStep(f, ep, last)
    requires e.Foreign? ==> e.status.endpointName != ep
    ensures InStep(Replay(f, Said(ep, chain, last, e)), ep, LastAfter(last, e))
  {
    OneSaid(f, ep, chain, last, e);
    assert e.Poll? && Suppresses(last, e.outcome) ==> last == Some(e.outcome.block);
  }

  /** An endpoint's only publisher suppresses nothing but what the fleet shows already. */
  lemma {:induction false} OnlyPublisherIsHarmless(f: Fleet, ep: string, chain: ChainRef, last: Option<Block>,
                                                   events: seq<Event>)
    requires OnlyPublisher(ep, events) && InStep(f, ep, last)
    ensures Harmless(f, ep, chain, last, events)
    decreases |events|
  {
    if events == [] {
    } else {
      var e, rest := events[0], events[1..];
      assert OnlyPublisher(ep, rest) by {
        assert forall i :: 0 <= i < |rest| ==> rest[i] == events[i + 1];
      }
      StaysInStep(f, ep, chain, last, e);
      OneSaid(f, ep, chain, last, e);
      OnlyPublisherIsHarmless(Replay(f, Said(ep, chain, last, e)), ep, chain, LastAfter(last, e), rest);
    }
  }

  /** Two polls that see the same head, and between them a status from a second gateway. */
  function Between(b: Block, cs: ChainStatus): seq<Event> {
    [Poll(Got(b)), Foreign(cs), Poll(Got(b))]
  }

  /**
   A second gateway's status in between is harmless exactly when it says again, or does not contradict, what the
   first one saw: a failure reported by the other leaves the endpoint unhealthy for good.
   */
  lemma SecondPublisher(e: EndpointState, ep: string, b: Block, cs: ChainStatus)
    requires cs.endpointName == ep
    ensures var f := map[ep := e];
            && (Harmless(f, ep, e.chain, None, Between(b, cs)) <==>
                cs.healthy && (cs.blockhead.None? || cs.blockhead == Some(b)))
            && Replay(f, Suppressed(ep, e.chain, None, Between(b, cs))) ==
               map[ep := Updated(Updated(e, HealthyStatus(ep, e.chain, b)), cs)]
            && Replay(f, Unsuppressed(ep, e.chain, Between(b, cs))) == map[ep := e.(healthy := true, head := Some(b))]
  {
    var f, c, events := map[ep := e], e.chain, Between(b, cs);
    var h := HealthyStatus(ep, c, b);
    var f1 := Apply(f, h);
    var f2 := Apply(f1, cs);
    var f3 := Apply(f2, h);
    OneSaid(f, ep, c, None, events[0]);
    OneSaid(f1, ep, c, Some(b), events[1]);
    OneSaid(f2, ep, c, Some(b), events[2]);
    OneSaid(f2, ep, c, None, events[2]);
    AfterFirst(f, ep, c, None, events);
    AfterFirst(f1, ep, c, Some(b), events[1..]);
    AfterFirst(f2, ep, c, Some(b), events[1..][1..]);
    assert events[1..][1..][1..] == [];
    assert Replay(f, Published(ep, c, None, Got(b))) == f1;
    var last := events[1..][1..];
    assert Harmless(f2, ep, c, Some(b), last) <==> f2[ep].healthy && f2[ep].head == Some(b);
    assert Harmless(f1, ep, c, Some(b), events[1..]) <==> Harmless(f2, ep, c, Some(b), last);
    assert Harmless(f, ep, c, None, events) <==> Harmless(f1, ep, c, Some(b), events[1..]);
    assert f2 == map[ep := Updated(Updated(e, h), cs)];
    assert f3 == map[ep := e.(healthy := true, head := Some(b))];
  }

  function Polls(outcomes: seq<Outcome>): seq<Event> {
    seq(|outcomes|, i requires 0 <= i < |outcomes| => Poll(outcomes[i]))
  }

  function ConnectedBy(before: bool, o: Outcome): bool {
    match o
    case Failed => false
    case NoBlock => before
    case Got(_) => true
  }

  function Connected(before: bool, outcomes: seq<Outcome>): bool
    decreases |outcomes|
  {
    if outcomes == [] then before else Connected(ConnectedBy(before, outcomes[0]), outcomes[1..])
  }

  /** The last poll that failed or brought a block says whether the endpoint is connected. */
  lemma {:induction false} ConnectedStands(before: bool, outcomes: seq<Outcome>)
    ensures (forall i :: 0 <= i < |outcomes| ==> outcomes[i].NoBlock?) ==> Connected(before, outcomes) == before
    ensures forall i :: 0 <= i < |outcomes| && !outcomes[i].NoBlock?
                        && (forall j :: i < j < |outcomes| ==> outcomes[j].NoBlock?) ==>
                          Connected(before, outcomes) == outcomes[i].Got?
    decreases |outcomes|
  {
    if outcomes == [] {
    } else {
      var rest := outcomes[1..];
      ConnectedStands(ConnectedBy(before, outcomes[0]), rest);
      assert forall i :: 0 < i < |outcomes| ==> outcomes[i] == rest[i - 1];
      forall i | 0 <= i < |outcomes| && !outcomes[i].NoBlock?
                 && forall j :: i < j < |outcomes| ==> outcomes[j].NoBlock?
        ensures Connected(before, outcomes) == outcomes[i].Got?
      {
        if i == 0 {
          assert forall k :: 0 <= k < |rest| ==> rest[k] == outcomes[k + 1];
        } else {
          assert forall k :: i - 1 < k < |rest| ==> rest[k] == outcomes[k + 1];
          assert rest[i - 1] == outcomes[i];
        }
      }
    }
  }

  /** Whatever a poller publishes names its endpoint and the chain of it, and is healthy exactly if it has a head. */
  lemma {:induction false} PollerSigns(ep: string, chain: ChainRef, last: Option<Block>, outcomes: seq<Outcome>)
    ensures forall cs :: cs in Suppressed(ep, chain, last, Polls(outcomes)) ==>
              cs.endpointName == ep && cs.chain == chain && (cs.healthy <==> cs.blockhead.Some?)
    decreases |outcomes|
  {
    if outcomes == [] {
    } else {
      NextPoll(outcomes, 0);
      assert outcomes[0..] == outcomes;
      PollerSigns(ep, chain, Remembered(outcomes[0]), outcomes[1..]);
    }
  }

  lemma NextPoll(outcomes: seq<Outcome>, i: nat)
    requires i < |outcomes|
    ensures Polls(outcomes[i..]) == [Poll(outcomes[i])] + Polls(outcomes[i + 1..])
    ensures Polls(outcomes[i..])[1..] == Polls(outcomes[i + 1..])
    ensures outcomes[i..][1..] == outcomes[i + 1..]
  {
  }

  /**
   The polling loop over the outcomes of successive polls: it publishes what `Suppressed` says, remembers
   nothing over an error or a missing block, and leaves the endpoint marked connected as of the last poll
   that failed or brought a block.
   */
  method SyncEndpoint(ep: Endpoint, outcomes: seq<Outcome>) returns (pub: seq<ChainStatus>)
    modifies ep`connected
    ensures pub == Suppressed(ep.name, ep.chain, None, Polls(outcomes))
    ensures ep.connected == Connected(old(ep.connected), outcomes)
    ensures forall cs :: cs in pub ==>
              cs.endpointName == ep.name && cs.chain == ep.chain && (cs.healthy <==> cs.blockhead.Some?)
    ensures forall i :: 0 <= i < |outcomes| && !outcomes[i].NoBlock?
                        && (forall j :: i < j < |outcomes| ==> outcomes[j].NoBlock?) ==>
                          ep.connected == outcomes[i].Got?
  {
    pub := [];
    var lastBlock: Option<Block> := None;
    ghost var goal := Suppressed(ep.name, ep.chain, None, Polls(outcomes));
    for i := 0 to |outcomes|
      invariant pub + Suppressed(ep.name, ep.chain, lastBlock, Polls(outcomes[i..])) == goal
      invariant Connected(ep.connected, outcomes[i..]) == Connected(old(ep.connected), outcomes)
    {
      var said;
      NextPoll(outcomes, i);
      said, lastBlock := GetBlockhead(ep, lastBlock, outcomes[i]);
      pub := pub + said;
    }
    assert outcomes[|outcomes|..] == [];
    PollerSigns(ep.name, ep.chain, None, outcomes);
    ConnectedStands(old(ep.connected), outcomes);
  }

  /** One poll: what it publishes and what the loop is to remember of it. */
  method GetBlockhead(ep: Endpoint, lastBlock: Option<Block>, o: Outcome)
    returns (pub: seq<ChainStatus>, block: Option<Block>)
    modifies ep`connected
    ensures pub == Published(ep.name, ep.chain, lastBlock, o) && block == Remembered(o)
    ensures ep.connected == ConnectedBy(old(ep.connected), o)
  {
    match o {
      case Failed =>
        ep.connected := false;
        return [ChainStatus(ep.name, ep.chain, false, None)], None;
      case NoBlock =>
        return [], None;
      case Got(b) =>
        ep.connected := true;
        if !BlockIsEqual(lastBlock, Some(b)) {
          return [ChainStatus(ep.name, ep.chain, true, Some(b))], Some(b);
        }
        return [], Some(b);
    }
  }
}
