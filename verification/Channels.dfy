/** Subscriber channels, known by number, with all that was sent to them; sends never block. */
module Channels {
  import opened Types

  type Inboxes = map<nat, seq<ChainStatus>>

  function Received(boxes: Inboxes, ch: nat): seq<ChainStatus> {
    if ch in boxes then boxes[ch] else []
  }

  function Send(boxes: Inboxes, ch: nat, cs: ChainStatus): Inboxes {
    boxes[ch := Received(boxes, ch) + [cs]]
  }

  /** A status sent to each subscriber in turn. */
  function Fanout(boxes: Inboxes, subs: seq<nat>, cs: ChainStatus): Inboxes
    decreases |subs|
  {
    if subs == [] then boxes else Fanout(Send(boxes, subs[0], cs), subs[1..], cs)
  }

  function FanoutAll(boxes: Inboxes, subs: seq<nat>, css: seq<ChainStatus>): Inboxes
    decreases |css|
  {
    if css == [] then boxes else FanoutAll(Fanout(boxes, subs, css[0]), subs, css[1..])
  }

  lemma {:induction false} FanoutAllConcat(boxes: Inboxes, subs: seq<nat>,
                                           css: seq<ChainStatus>, more: seq<ChainStatus>)
    ensures FanoutAll(boxes, subs, css + more) == FanoutAll(FanoutAll(boxes, subs, css), subs, more)
    decreases |css|
  {
    if css == [] {
      assert css + more == more;
    } else {
      assert (css + more)[1..] == css[1..] + more;
      FanoutAllConcat(Fanout(boxes, subs, css[0]), subs, css[1..], more);
    }
  }

  predicate AtMostOnce(subs: seq<nat>) {
    forall i, j :: 0 <= i < j < |subs| ==> subs[i] != subs[j]
  }

  /** A channel subscribed once receives a status once, any other channel not at all. */
  lemma {:induction false} FanoutReaches(boxes: Inboxes, subs: seq<nat>, cs: ChainStatus, ch: nat)
    requires AtMostOnce(subs)
    ensures Received(Fanout(boxes, subs, cs), ch) == Received(boxes, ch) + if ch in subs then [cs] else []
    decreases |subs|
  {
    if subs == [] {
    } else {
      FanoutReaches(Send(boxes, subs[0], cs), subs[1..], cs, ch);
      assert subs == [subs[0]] + subs[1..];
      assert subs[0] !in subs[1..];
    }
  }

  lemma {:induction false} FanoutAllReaches(boxes: Inboxes, subs: seq<nat>, css: seq<ChainStatus>, ch: nat)
    requires AtMostOnce(subs)
    ensures Received(FanoutAll(boxes, subs, css), ch) == Received(boxes, ch) + if ch in subs then css else []
    decreases |css|
  {
    if css == [] {
    } else {
      FanoutReaches(boxes, subs, css[0], ch);
      FanoutAllReaches(Fanout(boxes, subs, css[0]), subs, css[1..], ch);
      assert css == [css[0]] + css[1..];
    }
  }

  /** Without the first occurrence of the channel, the others in their order. */
  function WithoutFirst(subs: seq<nat>, ch: nat): seq<nat> {
    if subs == [] then [] else if subs[0] == ch then subs[1..] else [subs[0]] + WithoutFirst(subs[1..], ch)
  }

  lemma {:induction false} WithoutFirstAt(subs: seq<nat>, ch: nat, i: int)
    requires 0 <= i < |subs| && subs[i] == ch && forall j :: 0 <= j < i ==> subs[j] != ch
    ensures WithoutFirst(subs, ch) == subs[..i] + subs[i + 1..]
    decreases |subs|
  {
    if i == 0 {
    } else {
      WithoutFirstAt(subs[1..], ch, i - 1);
      assert subs[..i] == [subs[0]] + subs[1..][..i - 1];
      assert subs[1..][i..] == subs[i + 1..];
    }
  }

  lemma {:induction false} WithoutAbsent(subs: seq<nat>, ch: nat)
    requires ch !in subs
    ensures WithoutFirst(subs, ch) == subs
    decreases |subs|
  {
    if subs == [] {
    } else {
      WithoutAbsent(subs[1..], ch);
    }
  }

  /** Where no channel is subscribed twice, removing one removes it for good and keeps everyone else. */
  lemma {:induction false} WithoutFirstKeeps(subs: seq<nat>, ch: nat, other: nat)
    requires AtMostOnce(subs)
    ensures AtMostOnce(WithoutFirst(subs, ch))
    ensures other in WithoutFirst(subs, ch) <==> other in subs && other != ch
    decreases |subs|
  {
    if i :| 0 <= i < |subs| && subs[i] == ch {
      WithoutFirstAt(subs, ch, i);
      assert other in subs ==> other in subs[..i] || other == subs[i] || other in subs[i + 1..];
    } else {
      WithoutAbsent(subs, ch);
    }
  }

  /** Removal as the hubs do it: find the first occurrence, cut it out. */
  method Unsubscribed(subs: seq<nat>, ch: nat) returns (rest: seq<nat>)
    ensures rest == WithoutFirst(subs, ch)
  {
    var found := -1;
    for i := 0 to |subs|
      invariant found == -1 && forall j :: 0 <= j < i ==> subs[j] != ch
    {
      if subs[i] == ch {
        found := i;
        break;
      }
    }
    if found >= 0 {
      WithoutFirstAt(subs, ch, found);
      return subs[..found] + subs[found + 1..];
    }
    WithoutAbsent(subs, ch);
    return subs;
  }

  /** One status to every subscriber, as the hubs do it. */
  method Broadcast(boxes: Inboxes, subs: seq<nat>, cs: ChainStatus) returns (after: Inboxes)
    ensures after == Fanout(boxes, subs, cs)
  {
    after := boxes;
    for i := 0 to |subs|
      invariant Fanout(after, subs[i..], cs) == Fanout(boxes, subs, cs)
    {
      after := Send(after, subs[i], cs);
      assert subs[i..][1..] == subs[i + 1..];
    }
  }
}
