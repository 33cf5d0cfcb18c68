/**
 Statuses as updates of a fleet. A run of the updater is the replay of a sequence of statuses;
 this module says what any such run leaves behind and which runs cannot be told apart.
 */
module Replays {
  import opened Types
  import opened Fleets

  /** One status, for the endpoint it names: a missing head keeps the old one. */
  function Updated(e: EndpointState, cs: ChainStatus): EndpointState {
    e.(healthy := cs.healthy, head := if cs.blockhead.Some? then cs.blockhead else e.head)
  }

  /** One status, for the fleet: unknown names are ignored, and so is the chain that a status names. */
  function Apply(f: Fleet, cs: ChainStatus): Fleet {
    if cs.endpointName in f then f[cs.endpointName := Updated(f[cs.endpointName], cs)] else f
  }

  function Replay(f: Fleet, ss: seq<ChainStatus>): Fleet {
    if ss == [] then f else Replay(Apply(f, ss[0]), ss[1..])
  }

  // ----- What a run leaves behind, without running it -----

  function LastStatus(ss: seq<ChainStatus>, n: string): Option<ChainStatus> {
    if ss == [] then None
    else
      var later := LastStatus(ss[1..], n);
      if later.Some? then later
      else if ss[0].endpointName == n then Some(ss[0])
      else None
  }

  function LastHead(ss: seq<ChainStatus>, n: string): Option<Block> {
    if ss == [] then None
    else
      var later := LastHead(ss[1..], n);
      if later.Some? then later
      else if ss[0].endpointName == n then ss[0].blockhead
      else None
  }

  function Settled(f: Fleet, ss: seq<ChainStatus>): Fleet {
    map n | n in f :: Settle(f[n], LastStatus(ss, n), LastHead(ss, n))
  }

  function Settle(e: EndpointState, status: Option<ChainStatus>, head: Option<Block>): EndpointState {
    e.(healthy := if status.Some? then status.value.healthy else e.healthy,
       head := if head.Some? then head else e.head)
  }

  /** The last status of an endpoint stands at some position that no later status of it follows. */
  lemma {:induction false} LastStatusStands(ss: seq<ChainStatus>, n: string)
    ensures LastStatus(ss, n).None? <==> forall i :: 0 <= i < |ss| ==> ss[i].endpointName != n
    ensures LastStatus(ss, n).Some? ==>
              exists i :: 0 <= i < |ss| && ss[i] == LastStatus(ss, n).value && ss[i].endpointName == n
                          && forall j :: i < j < |ss| ==> ss[j].endpointName != n
  {
    if ss == [] {
    } else {
      LastStatusStands(ss[1..], n);
      if LastStatus(ss[1..], n).Some? {
        var i :| 0 <= i < |ss[1..]| && ss[1..][i] == LastStatus(ss[1..], n).value && ss[1..][i].endpointName == n
          && forall j :: i < j < |ss[1..]| ==> ss[1..][j].endpointName != n;
        assert ss[i + 1] == LastStatus(ss, n).value;
        forall j | i + 1 < j < |ss| ensures ss[j].endpointName != n {
          assert ss[j] == ss[1..][j - 1];
        }
      } else {
        forall j | 0 < j < |ss| ensures ss[j].endpointName != n {
          assert ss[j] == ss[1..][j - 1];
        }
        assert ss[0].endpointName == n ==> ss[0] == LastStatus(ss, n).value;
      }
    }
  }

  /** Likewise for the last head: it is that of a status that no later status of the endpoint with a head follows. */
  lemma {:induction false} LastHeadStands(ss: seq<ChainStatus>, n: string)
    ensures LastHead(ss, n).None? <==> forall i :: 0 <= i < |ss| && ss[i].endpointName == n ==> ss[i].blockhead.None?
    ensures LastHead(ss, n).Some? ==>
              exists i :: 0 <= i < |ss| && ss[i].blockhead == LastHead(ss, n) && ss[i].endpointName == n
                          && forall j :: i < j < |ss| && ss[j].endpointName == n ==> ss[j].blockhead.None?
  {
    if ss == [] {
    } else {
      var rest := ss[1..];
      LastHeadStands(rest, n);
      assert forall j :: 0 < j < |ss| ==> ss[j] == rest[j - 1];
      if LastHead(rest, n).Some? {
        var i :| 0 <= i < |rest| && rest[i].blockhead == LastHead(rest, n) && rest[i].endpointName == n
          && forall j :: i < j < |rest| && rest[j].endpointName == n ==> rest[j].blockhead.None?;
        assert ss[i + 1].blockhead == LastHead(ss, n);
      } else {
        assert ss[0].endpointName == n ==> ss[0].blockhead == LastHead(ss, n);
      }
    }
  }

  /** After any run, health is that of the endpoint's last status and its head that of its last status with a head. */
  lemma {:induction false} ReplaySettles(f: Fleet, ss: seq<ChainStatus>)
    ensures Replay(f, ss) == Settled(f, ss)
    decreases |ss|
  {
    if ss == [] {
    } else {
      ReplaySettles(Apply(f, ss[0]), ss[1..]);
    }
  }

  lemma {:induction false} ReplayConcat(f: Fleet, ss: seq<ChainStatus>, tt: seq<ChainStatus>)
    ensures Replay(f, ss + tt) == Replay(Replay(f, ss), tt)
    decreases |ss|
  {
    if ss == [] {
      assert ss + tt == tt;
    } else {
      assert (ss + tt)[1..] == ss[1..] + tt;
      ReplayConcat(Apply(f, ss[0]), ss[1..], tt);
    }
  }

  lemma {:induction false} LastOfConcat(ss: seq<ChainStatus>, tt: seq<ChainStatus>, n: string)
    ensures LastStatus(ss + tt, n) == if LastStatus(tt, n).Some? then LastStatus(tt, n) else LastStatus(ss, n)
    ensures LastHead(ss + tt, n) == if LastHead(tt, n).Some? then LastHead(tt, n) else LastHead(ss, n)
    decreases |ss|
  {
    if ss == [] {
      assert ss + tt == tt;
    } else {
      assert (ss + tt)[1..] == ss[1..] + tt;
      LastOfConcat(ss[1..], tt, n);
    }
  }

  // ----- Runs that cannot be told apart -----

  /** The statuses of one endpoint, in order. */
  function Of(ss: seq<ChainStatus>, n: string): seq<ChainStatus> {
    if ss == [] then []
    else (if ss[0].endpointName == n then [ss[0]] else []) + Of(ss[1..], n)
  }

  lemma {:induction false} LastOfOwn(ss: seq<ChainStatus>, n: string)
    ensures LastStatus(ss, n) == LastStatus(Of(ss, n), n)
    ensures LastHead(ss, n) == LastHead(Of(ss, n), n)
  {
    if ss == [] {
    } else {
      LastOfOwn(ss[1..], n);
      if ss[0].endpointName == n {
        assert Of(ss, n)[1..] == Of(ss[1..], n);
      } else {
        assert Of(ss, n) == Of(ss[1..], n);
      }
    }
  }

  /** Only the order within each endpoint matters: statuses of different endpoints may be interleaved at will. */
  lemma InterleavingIsInvisible(f: Fleet, ss: seq<ChainStatus>, tt: seq<ChainStatus>)
    requires forall n :: n in f ==> Of(ss, n) == Of(tt, n)
    ensures Replay(f, ss) == Replay(f, tt)
  {
    ReplaySettles(f, ss);
    ReplaySettles(f, tt);
    forall n | n in f ensures Settled(f, ss)[n] == Settled(f, tt)[n] {
      LastOfOwn(ss, n);
      LastOfOwn(tt, n);
    }
  }

  /** Delivering any tail of a run a second time changes nothing. */
  lemma RedeliveryIsInvisible(f: Fleet, ss: seq<ChainStatus>, k: nat)
    requires k <= |ss|
    ensures Replay(Replay(f, ss), ss[k..]) == Replay(f, ss)
  {
    ReplayConcat(f, ss, ss[k..]);
    ReplaySettles(f, ss);
    ReplaySettles(f, ss + ss[k..]);
    forall n | n in f ensures Settled(f, ss + ss[k..])[n] == Settled(f, ss)[n] {
      LastOfConcat(ss, ss[k..], n);
      assert ss == ss[..k] + ss[k..];
      LastOfConcat(ss[..k], ss[k..], n);
    }
  }

  // ----- Runs that end alike -----

  /** The health and the head that a run leaves an endpoint with. */
  function HealthOf(e: EndpointState, ss: seq<ChainStatus>, n: string): bool {
    if LastStatus(ss, n).Some? then LastStatus(ss, n).value.healthy else e.healthy
  }

  function HeadOf(e: EndpointState, ss: seq<ChainStatus>, n: string): Option<Block> {
    if LastHead(ss, n).Some? then LastHead(ss, n) else e.head
  }

  /** What was heard of an endpoint before some news, and all there was before: the news hide the difference, if any. */
  predicate Alike(e: EndpointState, heard: seq<ChainStatus>, all: seq<ChainStatus>, news: seq<ChainStatus>, n: string) {
    && (LastStatus(news, n).Some? || HealthOf(e, heard, n) == HealthOf(e, all, n))
    && (LastHead(news, n).Some? || HeadOf(e, heard, n) == HeadOf(e, all, n))
  }

  /**
   Whoever heard some statuses instead of others, then the same news, ends in the same state exactly when for each
   endpoint health and head either agreed before the news or came again with them.
   */
  lemma HeardEqualsAll(f: Fleet, heard: seq<ChainStatus>, all: seq<ChainStatus>, news: seq<ChainStatus>)
    ensures Replay(f, heard + news) == Replay(f, all + news) <==>
            forall n :: n in f ==> Alike(f[n], heard, all, news, n)
  {
    ReplaySettles(f, heard + news);
    ReplaySettles(f, all + news);
    var g, h := Settled(f, heard + news), Settled(f, all + news);
    forall n | n in f ensures g[n] == h[n] <==> Alike(f[n], heard, all, news, n) {
      LastOfConcat(heard, news, n);
      LastOfConcat(all, news, n);
    }
    assert g == h <==> forall n :: n in f ==> g[n] == h[n];
  }

  // ----- Newest-first catch-up -----

  function Reversed(ss: seq<ChainStatus>): seq<ChainStatus> {
    if ss == [] then [] else Reversed(ss[1..]) + [ss[0]]
  }

  /** What is left of a newest-first list when every endpoint is let through once; `sent` has had its turn. */
  function FirstOfEach(rev: seq<ChainStatus>, sent: set<string>): seq<ChainStatus> {
    if rev == [] then []
    else if rev[0].endpointName in sent then FirstOfEach(rev[1..], sent)
    else [rev[0]] + FirstOfEach(rev[1..], sent + {rev[0].endpointName})
  }

  function CatchUp(window: seq<ChainStatus>): seq<ChainStatus> {
    FirstOfEach(Reversed(window), {})
  }

  lemma {:induction false} FirstOfEachFinds(rev: seq<ChainStatus>, sent: set<string>, n: string)
    ensures n in sent ==> Of(FirstOfEach(rev, sent), n) == []
    ensures n !in sent ==> Of(FirstOfEach(rev, sent), n) == if Of(rev, n) == [] then [] else [Of(rev, n)[0]]
    decreases |rev|
  {
    if rev == [] {
    } else {
      if rev[0].endpointName in sent {
        FirstOfEachFinds(rev[1..], sent, n);
      } else {
        var rest := FirstOfEach(rev[1..], sent + {rev[0].endpointName});
        FirstOfEachFinds(rev[1..], sent + {rev[0].endpointName}, n);
        assert FirstOfEach(rev, sent)[1..] == rest;
      }
    }
  }

  lemma {:induction false} OfConcat(ss: seq<ChainStatus>, tt: seq<ChainStatus>, n: string)
    ensures Of(ss + tt, n) == Of(ss, n) + Of(tt, n)
    decreases |ss|
  {
    if ss == [] {
      assert ss + tt == tt;
    } else {
      assert (ss + tt)[0] == ss[0] && (ss + tt)[1..] == ss[1..] + tt;
      OfConcat(ss[1..], tt, n);
    }
  }

  lemma {:induction false} NewestIsLast(window: seq<ChainStatus>, n: string)
    ensures var own := Of(Reversed(window), n);
            LastStatus(window, n) == if own == [] then None else Some(own[0])
  {
    if window == [] {
    } else {
      NewestIsLast(window[1..], n);
      OfConcat(Reversed(window[1..]), [window[0]], n);
    }
  }

  /** The catch-up holds, for every endpoint, its last status of the window and nothing else. */
  lemma CatchUpHoldsTheLast(window: seq<ChainStatus>, n: string)
    ensures Of(CatchUp(window), n) ==
            if LastStatus(window, n).Some? then [LastStatus(window, n).value] else []
  {
    FirstOfEachFinds(Reversed(window), {}, n);
    NewestIsLast(window, n);
  }

  lemma CatchUpLasts(window: seq<ChainStatus>, n: string)
    ensures LastStatus(CatchUp(window), n) == LastStatus(window, n)
    ensures LastHead(CatchUp(window), n) ==
            if LastStatus(window, n).Some? then LastStatus(window, n).value.blockhead else None
  {
    CatchUpHoldsTheLast(window, n);
    LastOfOwn(CatchUp(window), n);
    NamedRight(window, n);
  }

  lemma {:induction false} NamedRight(ss: seq<ChainStatus>, n: string)
    ensures LastStatus(ss, n).Some? ==> LastStatus(ss, n).value.endpointName == n
    ensures LastStatus(ss, n).None? ==> LastHead(ss, n).None?
    ensures LastStatus(ss, n).Some? && LastStatus(ss, n).value.blockhead.Some? ==>
              LastHead(ss, n) == LastStatus(ss, n).value.blockhead
  {
    if ss == [] {
    } else {
      NamedRight(ss[1..], n);
    }
  }

  /** The endpoint's newest entry carries a head, or the window holds no head of it other than the one already known. */
  predicate HeadCarried(e: EndpointState, window: seq<ChainStatus>, n: string) {
    || LastStatus(window, n).None?
    || LastStatus(window, n).value.blockhead.Some?
    || LastHead(window, n).None?
    || LastHead(window, n) == e.head
  }

  /** Two fleets with the same endpoints, configured alike and equally healthy; heads may differ. */
  predicate SameHealth(f: Fleet, g: Fleet) {
    f.Keys == g.Keys && forall n :: n in f ==> f[n].(head := None) == g[n].(head := None)
  }

  lemma CatchUpIsAlike(e: EndpointState, window: seq<ChainStatus>, n: string)
    ensures HealthOf(e, CatchUp(window), n) == HealthOf(e, window, n)
    ensures HeadOf(e, CatchUp(window), n) == HeadOf(e, window, n) <==> HeadCarried(e, window, n)
  {
    CatchUpLasts(window, n);
    NamedRight(window, n);
  }

  /**
   Catching up from the newest entries gives the health of a full replay always, and the heads
   (hence the whole state) exactly when every endpoint's head is carried.
   */
  lemma CatchUpEqualsReplay(f: Fleet, window: seq<ChainStatus>)
    ensures SameHealth(Replay(f, CatchUp(window)), Replay(f, window))
    ensures Replay(f, CatchUp(window)) == Replay(f, window) <==>
            forall n :: n in f ==> HeadCarried(f[n], window, n)
  {
    ReplaySettles(f, window);
    ReplaySettles(f, CatchUp(window));
    HeardEqualsAll(f, CatchUp(window), window, []);
    assert CatchUp(window) + [] == CatchUp(window) && window + [] == window;
    forall n | n in f
      ensures Settled(f, CatchUp(window))[n].(head := None) == Settled(f, window)[n].(head := None)
      ensures Alike(f[n], CatchUp(window), window, [], n) <==> HeadCarried(f[n], window, n)
    {
      CatchUpIsAlike(f[n], window, n);
    }
  }

  /** A window that ends with a failed poll loses the head that the poll before it reported. */
  lemma CatchUpCanLoseHeads(e: EndpointState, n: string, b: Block)
    requires e.head != Some(b)
    ensures var window := [ChainStatus(n, e.chain, true, Some(b)), ChainStatus(n, e.chain, false, None)];
            Replay(map[n := e], CatchUp(window)) != Replay(map[n := e], window)
  {
    var f := map[n := e];
    var window := [ChainStatus(n, e.chain, true, Some(b)), ChainStatus(n, e.chain, false, None)];
    assert window[1..] == [window[1]] && window[1..][1..] == [];
    CatchUpEqualsReplay(f, window);
    assert LastHead(window[1..], n) == None && LastHead(window, n) == Some(b);
    assert LastStatus(window[1..], n) == Some(window[1]) && LastStatus(window, n) == Some(window[1]);
    assert !HeadCarried(f[n], window, n);
  }

  lemma TailIsSettled(ss: seq<ChainStatus>, k: nat, news: seq<ChainStatus>, f: Fleet)
    requires k <= |ss|
    ensures Replay(f, ss + (ss[k..] + news)) == Replay(f, ss + news)
  {
    RedeliveryIsInvisible(f, ss, k);
    assert ss + (ss[k..] + news) == ss + ss[k..] + news;
    ReplayConcat(f, ss + ss[k..], news);
    ReplayConcat(f, ss, ss[k..]);
    ReplayConcat(f, ss, news);
  }

  /**
   A subscriber that is first caught up and then hears the stream from some point `k` of the window
   onwards, plus everything new, ends where an uninterrupted listener would - exactly when each
   endpoint's head is carried by its newest entry or delivered again.
   */
  lemma CatchUpThenListen(f: Fleet, window: seq<ChainStatus>, k: nat, news: seq<ChainStatus>)
    requires k <= |window|
    ensures Replay(f, CatchUp(window) + (window[k..] + news)) == Replay(f, window + news) <==>
            forall n :: n in f ==> HeadCarried(f[n], window, n) || LastHead(window[k..] + news, n).Some?
  {
    TailIsSettled(window, k, news, f);
    HeardEqualsAll(f, CatchUp(window), window, window[k..] + news);
    forall n | n in f
      ensures Alike(f[n], CatchUp(window), window, window[k..] + news, n) <==>
              HeadCarried(f[n], window, n) || LastHead(window[k..] + news, n).Some?
    {
      CatchUpIsAlike(f[n], window, n);
    }
  }

  /**
   Nothing of the endpoint was missed, or what was missed is known all the same or said again: the condition under
   which a gap between a catch-up and what is heard afterwards does not show.
   */
  predicate Recovers(e: EndpointState, window: seq<ChainStatus>, missed: seq<ChainStatus>, heard: seq<ChainStatus>,
                     n: string)
  {
    && (LastStatus(heard, n).Some? || LastStatus(missed, n).None?
        || LastStatus(missed, n).value.healthy == HealthOf(e, window, n))
    && (LastHead(heard, n).Some?
        || if LastHead(missed, n).Some? then LastHead(missed, n) == HeadOf(e, CatchUp(window), n)
           else HeadCarried(e, window, n))
  }

  /** A subscriber that is caught up, misses some statuses and hears the rest. */
  lemma CatchUpThenMiss(f: Fleet, window: seq<ChainStatus>, missed: seq<ChainStatus>, heard: seq<ChainStatus>)
    ensures Replay(f, CatchUp(window) + heard) == Replay(f, window + missed + heard) <==>
            forall n :: n in f ==> Recovers(f[n], window, missed, heard, n)
  {
    HeardEqualsAll(f, CatchUp(window), window + missed, heard);
    forall n | n in f
      ensures Alike(f[n], CatchUp(window), window + missed, heard, n) <==> Recovers(f[n], window, missed, heard, n)
    {
      CatchUpIsAlike(f[n], window, n);
      LastOfConcat(window, missed, n);
      NamedRight(missed, n);
    }
  }
}
