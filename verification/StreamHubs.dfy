/**
 The hub over a shared, bounded stream. Publishing appends and trims to the newest 1000; a new subscriber is
 sent the newest status of each endpoint among the last 100; a listener follows the stream with a cursor.
 Subscribing and each read of the listener are taken as one atomic step each, sends never block.
 */
module StreamHubs {
  import opened Types
  import opened Fleets
  import opened Replays
  import opened Channels

  const MAX_LEN := 1000
  const SNAPSHOT := 100
  const BATCH := 10

  /** Everything ever appended, in order; an entry's position is its id. None is an entry that cannot be decoded. */
  type Log = seq<Option<ChainStatus>>

  /** The position of the oldest entry that trimming has left. */
  function Oldest(log: Log): nat {
    if |log| > MAX_LEN then |log| - MAX_LEN else 0
  }

  datatype Entry = Entry(id: nat, status: Option<ChainStatus>)

  /** What the store holds of a log. */
  function Kept(log: Log): seq<Entry> {
    seq(|log| - Oldest(log), i requires 0 <= i < |log| - Oldest(log) => Entry(Oldest(log) + i, log[Oldest(log) + i]))
  }

  // ----- The listener -----

  /** `next` is one past the cursor, None before the first entry was seen; `heard` are the positions delivered. */
  datatype Listener = Listener(next: Option<nat>, heard: seq<nat>, alive: bool)

  const IDLE := Listener(None, [], true)

  /** Where the next read begins: at the newest entry at first, then behind the cursor or where trimming left off. */
  function ReadFrom(log: Log, l: Listener): nat
    requires log != []
  {
    if l.next.None? then |log| - 1
    else if l.next.value < Oldest(log) then Oldest(log)
    else l.next.value
  }

  function ReadTo(log: Log, l: Listener): nat
    requires log != []
  {
    var to := ReadFrom(log, l) + if l.next.None? then 1 else BATCH;
    if to > |log| then |log| else to
  }

  /** The entries of a list up to the first that cannot be decoded. */
  function DecodedPrefix(batch: seq<Option<ChainStatus>>): (css: seq<ChainStatus>)
    ensures |css| <= |batch| && forall i :: 0 <= i < |css| ==> batch[i] == Some(css[i])
    ensures |css| < |batch| ==> batch[|css|].None?
  {
    if batch == [] || batch[0].None? then [] else [batch[0].value] + DecodedPrefix(batch[1..])
  }

  /** What one read finds, in order. */
  function ReadBatch(log: Log, l: Listener): Log {
    if log == [] || ReadFrom(log, l) >= ReadTo(log, l) then [] else log[ReadFrom(log, l)..ReadTo(log, l)]
  }

  function Span(from: nat, to: nat): seq<nat> {
    if from >= to then [] else seq(to - from, i => from + i)
  }

  /** What one read makes the listener broadcast. */
  function Said(log: Log, l: Listener): seq<ChainStatus> {
    if l.alive then DecodedPrefix(ReadBatch(log, l)) else []
  }

  /** One read and its delivery. An entry that cannot be decoded ends the listener for good. */
  function Poll(log: Log, l: Listener): Listener {
    if !l.alive || ReadBatch(log, l) == [] then l
    else
      var from := ReadFrom(log, l);
      var d := from + |Said(log, l)|;
      Listener(if d > from then Some(d) else l.next, l.heard + Span(from, d), d == ReadTo(log, l))
  }

  /** These positions hold entries that can be decoded. */
  predicate Told(log: Log, heard: seq<nat>) {
    forall i :: 0 <= i < |heard| ==> heard[i] < |log| && log[heard[i]].Some?
  }

  /** The cursor is right behind what was delivered last. */
  ghost predicate Following(log: Log, l: Listener) {
    && Told(log, l.heard)
    && (l.next.None? ==> l.heard == [])
    && (l.next.Some? ==> l.heard != [] && l.heard[|l.heard| - 1] + 1 == l.next.value <= |log|)
  }

  predicate Ascending(s: seq<nat>) {
    forall i :: 0 <= i < |s| - 1 ==> s[i] < s[i + 1]
  }

  predicate Contiguous(s: seq<nat>) {
    forall i :: 0 <= i < |s| - 1 ==> s[i] + 1 == s[i + 1]
  }

  /** Undelivered entries have been trimmed away, and the oldest that is left can be decoded. */
  predicate Skips(log: Log, l: Listener) {
    l.alive && l.next.Some? && l.next.value < Oldest(log) && log[Oldest(log)].Some?
  }

  lemma SpanAfter(s: seq<nat>, from: nat, to: nat)
    requires from < to
    ensures s < s + Span(from, to) && (s + Span(from, to))[|s| + to - from - 1] == to - 1
    ensures |s + Span(from, to)| == |s| + to - from
    ensures Ascending(s) && (s == [] || s[|s| - 1] < from) ==> Ascending(s + Span(from, to))
    ensures Contiguous(s + Span(from, to)) <==> Contiguous(s) && (s == [] || s[|s| - 1] + 1 == from)
  {
    var t, k := s + Span(from, to), |s|;
    assert forall i :: 0 <= i < k ==> t[i] == s[i];
    assert forall i :: k <= i < |t| ==> t[i] == from + i - k;
    if Contiguous(t) {
      forall i | 0 <= i < k - 1 ensures s[i] + 1 == s[i + 1] {
        assert t[i] + 1 == t[i + 1];
      }
      assert k > 0 ==> t[k - 1] + 1 == t[k - 1 + 1];
    }
  }

  function StatusesAt(log: Log, heard: seq<nat>): seq<ChainStatus>
    requires Told(log, heard)
  {
    seq(|heard|, i requires 0 <= i < |heard| => log[heard[i]].value)
  }

  /** The positions that one read delivers. */
  function Delivered(log: Log, l: Listener): seq<nat> {
    if log == [] then [] else Span(ReadFrom(log, l), ReadFrom(log, l) + |Said(log, l)|)
  }

  lemma PollAdds(log: Log, l: Listener)
    requires Following(log, l)
    ensures Poll(log, l).heard == l.heard + Delivered(log, l)
    ensures Told(log, Delivered(log, l)) && Said(log, l) == StatusesAt(log, Delivered(log, l))
  {
    var news := Delivered(log, l);
    forall i | 0 <= i < |news| ensures news[i] < |log| && log[news[i]] == Some(Said(log, l)[i]) {
      assert ReadBatch(log, l)[i] == Some(Said(log, l)[i]);
    }
  }

  /** A read that delivers starts behind the cursor, or where trimming left off, and moves the cursor along. */
  lemma OneStretch(log: Log, l: Listener)
    requires Following(log, l)
    ensures var news, next := Delivered(log, l), Poll(log, l).next;
            if news == [] then next == l.next && !Skips(log, l)
            else next.Some? && news[0] < next.value <= |log| && news == Span(news[0], next.value)
                 && (if l.next.Some? then l.next.value <= news[0] && (l.next.value == news[0] <==> !Skips(log, l))
                     else !Skips(log, l))
  {
  }

  lemma PollFollows(log: Log, l: Listener)
    requires Following(log, l)
    ensures Following(log, Poll(log, l)) && l.heard <= Poll(log, l).heard
    ensures Ascending(l.heard) ==> Ascending(Poll(log, l).heard)
    ensures Contiguous(Poll(log, l).heard) <==> Contiguous(l.heard) && !Skips(log, l)
  {
    hide Poll, Said, Delivered, Skips, Span, Ascending, Contiguous;
    PollAdds(log, l);
    OneStretch(log, l);
    var news, next := Delivered(log, l), Poll(log, l).next;
    if news == [] {
      assert l.heard + news == l.heard;
    } else {
      SpanAfter(l.heard, news[0], next.value);
    }
  }

  lemma AppendFollows(log: Log, l: Listener, status: Option<ChainStatus>)
    requires Following(log, l)
    ensures Following(log + [status], l)
  {
  }

  datatype Action = Append(status: Option<ChainStatus>) | Read

  function LogAfter(log: Log, acts: seq<Action>): Log
    decreases |acts|
  {
    if acts == [] then log
    else LogAfter(if acts[0].Append? then log + [acts[0].status] else log, acts[1..])
  }

  function ListenerAfter(log: Log, l: Listener, acts: seq<Action>): Listener
    decreases |acts|
  {
    if acts == [] then l
    else if acts[0].Append? then ListenerAfter(log + [acts[0].status], l, acts[1..])
    else ListenerAfter(log, Poll(log, l), acts[1..])
  }

  /** No read of the run skips trimmed entries. */
  predicate NeverSkips(log: Log, l: Listener, acts: seq<Action>)
    decreases |acts|
  {
    if acts == [] then true
    else if acts[0].Append? then NeverSkips(log + [acts[0].status], l, acts[1..])
    else !Skips(log, l) && NeverSkips(log, Poll(log, l), acts[1..])
  }

  /**
   Whatever is appended and whenever the listener reads: what it delivers is in order and free of duplicates,
   and it is a stretch of the stream without gaps exactly when no read came after entries still undelivered
   had been trimmed.
   */
  lemma {:induction false} ListenerDelivers(log: Log, l: Listener, acts: seq<Action>)
    requires Following(log, l) && Ascending(l.heard)
    ensures var m := ListenerAfter(log, l, acts);
            && Following(LogAfter(log, acts), m) && Ascending(m.heard) && l.heard <= m.heard
            && (Contiguous(m.heard) <==> Contiguous(l.heard) && NeverSkips(log, l, acts))
    decreases |acts|
  {
    if acts == [] {
    } else if acts[0].Append? {
      AppendFollows(log, l, acts[0].status);
      ListenerDelivers(log + [acts[0].status], l, acts[1..]);
    } else {
      PollFollows(log, l);
      ListenerDelivers(log, Poll(log, l), acts[1..]);
    }
  }

  lemma FirstRead(log: Log)
    ensures var p := Poll(log, IDLE);
            if log == [] then p == IDLE
            else Following(log, p) && Ascending(p.heard) && p.heard == if p.alive then [|log| - 1] else []
  {
    PollFollows(log, IDLE);
  }

  lemma {:induction false} StaysDead(log: Log, l: Listener, acts: seq<Action>)
    requires !l.alive
    ensures ListenerAfter(log, l, acts) == l
    decreases |acts|
  {
    if acts == [] {
    } else {
      StaysDead(if acts[0].Append? then log + [acts[0].status] else log, l, acts[1..]);
    }
  }

  /** The stream after one action. */
  function LogNext(log: Log, a: Action): Log {
    if a.Append? then log + [a.status] else log
  }

  /** Action `k` is the first read that found anything. */
  predicate FindsFirst(log: Log, acts: seq<Action>, k: int) {
    && 0 <= k < |acts| && acts[k].Read?
    && forall j :: 0 <= j < k && acts[j].Read? ==> LogAfter(log, acts[..j]) == []
  }

  lemma LogAfterNext(log: Log, acts: seq<Action>, k: nat)
    requires k < |acts|
    ensures LogAfter(log, acts[..k + 1]) == LogAfter(LogNext(log, acts[0]), acts[1..][..k])
  {
    assert acts[..k + 1][1..] == acts[1..][..k];
  }

  lemma FindsLater(log: Log, acts: seq<Action>, k: int)
    requires acts != [] && (acts[0].Append? || log == [])
    requires FindsFirst(LogNext(log, acts[0]), acts[1..], k)
    ensures FindsFirst(log, acts, k + 1)
  {
    hide LogNext;
    assert acts[..0] == [];
    forall j | 0 <= j < k + 1 && acts[j].Read? ensures LogAfter(log, acts[..j]) == [] {
      if j > 0 {
        LogAfterNext(log, acts, j - 1);
        assert acts[j] == acts[1..][j - 1];
      }
    }
  }

  /** The first entry delivered is the newest there was at the first read that found any. */
  lemma {:induction false} ListenerStarts(log: Log, acts: seq<Action>)
    ensures var m := ListenerAfter(log, IDLE, acts);
            m.heard != [] ==>
              exists k :: FindsFirst(log, acts, k) && m.heard[0] + 1 == |LogAfter(log, acts[..k])|
    decreases |acts|
  {
    hide Poll, Following, Ascending, Contiguous, NeverSkips;
    if acts == [] {
    } else {
      var rest := acts[1..];
      var m := ListenerAfter(log, IDLE, acts);
      FirstRead(log);
      if acts[0].Append? || log == [] {
        ListenerStarts(LogNext(log, acts[0]), rest);
        if m.heard != [] {
          var k :| FindsFirst(LogNext(log, acts[0]), rest, k)
            && m.heard[0] + 1 == |LogAfter(LogNext(log, acts[0]), rest[..k])|;
          FindsLater(log, acts, k);
          LogAfterNext(log, acts, k);
        }
      } else {
        ListenerDelivers(log, Poll(log, IDLE), rest);
        if !Poll(log, IDLE).alive {
          StaysDead(log, Poll(log, IDLE), rest);
        }
        FindsNow(log, acts);
      }
    }
  }

  lemma FindsNow(log: Log, acts: seq<Action>)
    requires acts != [] && acts[0].Read?
    ensures FindsFirst(log, acts, 0) && LogAfter(log, acts[..0]) == log
  {
    assert acts[..0] == [];
  }

  // ----- What a run of the listener tells its subscribers -----

  /** All that the reads of the run broadcast. */
  function Heard(log: Log, l: Listener, acts: seq<Action>): seq<ChainStatus>
    decreases |acts|
  {
    if acts == [] then []
    else if acts[0].Append? then Heard(log + [acts[0].status], l, acts[1..])
    else Said(log, l) + Heard(log, Poll(log, l), acts[1..])
  }

  /** The positions that a run delivers. */
  function News(log: Log, l: Listener, acts: seq<Action>): seq<nat>
    decreases |acts|
  {
    if acts == [] then []
    else if acts[0].Append? then News(log + [acts[0].status], l, acts[1..])
    else Delivered(log, l) + News(log, Poll(log, l), acts[1..])
  }

  lemma {:induction false} LogGrows(log: Log, acts: seq<Action>)
    ensures log <= LogAfter(log, acts)
    decreases |acts|
  {
    if acts == [] {
    } else {
      LogGrows(if acts[0].Append? then log + [acts[0].status] else log, acts[1..]);
    }
  }

  lemma NothingAt(log: Log)
    ensures Told(log, []) && StatusesAt(log, []) == []
  {
  }

  lemma StatusesJoin(log: Log, later: Log, heard: seq<nat>, more: seq<nat>)
    requires log <= later && Told(log, heard) && Told(later, more)
    ensures Told(later, heard + more)
    ensures StatusesAt(later, heard + more) == StatusesAt(log, heard) + StatusesAt(later, more)
  {
  }

  /** What is broadcast is what stands at the positions that the run delivers. */
  lemma {:induction false} HeardIsNews(log: Log, l: Listener, acts: seq<Action>)
    requires Following(log, l)
    ensures ListenerAfter(log, l, acts).heard == l.heard + News(log, l, acts)
    ensures Told(LogAfter(log, acts), News(log, l, acts))
    ensures Heard(log, l, acts) == StatusesAt(LogAfter(log, acts), News(log, l, acts))
    decreases |acts|
  {
    hide Following, Poll, Delivered, Said, Told, StatusesAt;
    if acts == [] {
      NothingAt(log);
    } else if acts[0].Append? {
      AppendFollows(log, l, acts[0].status);
      HeardIsNews(log + [acts[0].status], l, acts[1..]);
    } else {
      PollFollows(log, l);
      PollAdds(log, l);
      HeardIsNews(log, Poll(log, l), acts[1..]);
      LogGrows(log, acts[1..]);
      StatusesJoin(log, LogAfter(log, acts[1..]), Delivered(log, l), News(log, Poll(log, l), acts[1..]));
    }
  }

  /**
   Without skipping, a run delivers one stretch of the stream, from where the listener stood to where it stands.
   A listener that had not seen anything yet starts wherever its first read finds the newest entry.
   */
  lemma {:induction false} NewsIsStretch(log: Log, l: Listener, acts: seq<Action>)
    requires Following(log, l) && NeverSkips(log, l, acts)
    ensures var news, next := News(log, l, acts), ListenerAfter(log, l, acts).next;
            if news == [] then next == l.next
            else next.Some? && news[0] < next.value && news == Span(news[0], next.value)
                 && (l.next.Some? ==> news[0] == l.next.value)
    decreases |acts|
  {
    hide Following, Poll, Delivered, Skips, Span;
    if acts == [] {
    } else if acts[0].Append? {
      AppendFollows(log, l, acts[0].status);
      NewsIsStretch(log + [acts[0].status], l, acts[1..]);
    } else {
      PollFollows(log, l);
      NewsIsStretch(log, Poll(log, l), acts[1..]);
      OneStretch(log, l);
      var p := Poll(log, l);
      var first, rest, next := Delivered(log, l), News(log, p, acts[1..]), ListenerAfter(log, p, acts[1..]).next;
      if first == [] {
        assert first + rest == rest;
      } else if rest == [] {
        assert first + rest == first;
      } else {
        SpanJoin(first[0], p.next.value, next.value);
      }
    }
  }

  lemma SpanJoin(a: nat, b: nat, c: nat)
    requires a <= b <= c
    ensures Span(a, b) + Span(b, c) == Span(a, c)
  {
  }

  /** Where a run stops delivering - at the end of what there was if it never begins - and where it begins. */
  function To(log: Log, l: Listener, acts: seq<Action>): nat {
    var next := ListenerAfter(log, l, acts).next;
    if next.Some? then next.value else |log|
  }

  function From(log: Log, l: Listener, acts: seq<Action>): nat {
    var news := News(log, l, acts);
    if news == [] then To(log, l, acts) else news[0]
  }

  function Reads(k: nat): seq<Action> {
    seq(k, _ => Read)
  }

  /** The position ten entries on, or the end. */
  function TenOn(log: Log, from: nat, k: nat): nat {
    if from + 10 * k < |log| then from + 10 * k else |log|
  }

  lemma AllDecoded(batch: seq<Option<ChainStatus>>)
    requires Decodable(batch)
    ensures DecodedPrefix(batch) == Statuses(batch)
  {
  }

  lemma ReadTen(log: Log, l: Listener)
    requires Following(log, l) && l.alive && l.next.Some? && Oldest(log) <= l.next.value && Decodable(log)
    ensures Poll(log, l).next == Some(TenOn(log, l.next.value, 1)) && Poll(log, l).alive
    ensures Said(log, l) == Statuses(log)[l.next.value..TenOn(log, l.next.value, 1)]
  {
    hide DecodedPrefix;
    if log != [] {
      assert ReadBatch(log, l) == log[l.next.value..TenOn(log, l.next.value, 1)];
      AllDecoded(log[l.next.value..TenOn(log, l.next.value, 1)]);
    } else {
      AllDecoded([]);
    }
  }

  /**
   Nothing is withheld: every read delivers the next ten entries or as many as there are, so a listener that lags by
   `n` is at the end after n / 10 reads, rounded up, if nothing is appended meanwhile.
   */
  lemma {:induction false} ReadsCatchUp(log: Log, l: Listener, k: nat)
    requires Following(log, l) && l.alive && l.next.Some? && Oldest(log) <= l.next.value && Decodable(log)
    ensures ListenerAfter(log, l, Reads(k)).next == Some(TenOn(log, l.next.value, k))
    ensures ListenerAfter(log, l, Reads(k)).alive
    ensures l.next.value <= TenOn(log, l.next.value, k) <= |log|
    ensures Heard(log, l, Reads(k)) == Statuses(log)[l.next.value..TenOn(log, l.next.value, k)]
    decreases k
  {
    IsBehind(log, l);
    hide Following, Poll, Said;
    if k == 0 {
    } else {
      var next, p := l.next.value, Poll(log, l);
      assert Reads(k)[1..] == Reads(k - 1);
      ReadTen(log, l);
      PollFollows(log, l);
      ReadsCatchUp(log, p, k - 1);
      assert TenOn(log, p.next.value, k - 1) == TenOn(log, next, k);
      Slices(Statuses(log), next, p.next.value, TenOn(log, next, k));
    }
  }

  lemma IsBehind(log: Log, l: Listener)
    requires Following(log, l) && l.next.Some?
    ensures l.next.value <= |log|
  {
  }

  // ----- Catching up, then listening -----

  /** The part of the log that a new subscriber is sent from. */
  function WindowStart(log: Log): nat {
    if |log| > SNAPSHOT then |log| - SNAPSHOT else 0
  }

  predicate Decodable(log: Log) {
    forall i :: 0 <= i < |log| ==> log[i].Some?
  }

  function Statuses(log: Log): seq<ChainStatus>
    requires Decodable(log)
  {
    seq(|log|, i requires 0 <= i < |log| => log[i].value)
  }

  function Window(log: Log): seq<ChainStatus>
    requires Decodable(log)
  {
    Statuses(log)[WindowStart(log)..]
  }

  /** What was appended after the subscription but before the listener's first delivery. */
  function Missed(log: Log, later: Log, from: nat): seq<ChainStatus>
    requires Decodable(later) && from <= |later|
  {
    if from > |log| then Statuses(later)[|log|..from] else []
  }

  /** All that a subscriber at `log` could know when positions up to `to` have been delivered from `from` on. */
  function Published(log: Log, later: Log, from: nat, to: nat): seq<ChainStatus>
    requires Decodable(later) && from <= to <= |later| && WindowStart(log) <= to
  {
    Statuses(later)[if from < WindowStart(log) then from else WindowStart(log)..to]
  }

  lemma DecodableBefore(log: Log, acts: seq<Action>)
    requires Decodable(LogAfter(log, acts))
    ensures Decodable(log)
  {
    LogGrows(log, acts);
    assert forall i :: 0 <= i < |log| ==> log[i] == LogAfter(log, acts)[i];
  }

  lemma HeardIsSlice(later: Log, from: nat, to: nat)
    requires Decodable(later) && from <= to <= |later|
    ensures Told(later, Span(from, to)) && StatusesAt(later, Span(from, to)) == Statuses(later)[from..to]
  {
  }

  /** If the listener lags so far that it delivers the whole window again, nothing is lost in any case. */
  lemma LaggingListenerLosesNothing(f: Fleet, window: seq<ChainStatus>, older: seq<ChainStatus>, news: seq<ChainStatus>)
    ensures Replay(f, CatchUp(window) + (older + window + news)) == Replay(f, older + window + news)
    ensures forall n :: n in f ==> Recovers(f[n], window, [], older + window + news, n)
  {
    var heard := older + window + news;
    HeardEqualsAll(f, CatchUp(window), [], heard);
    assert [] + heard == heard;
    forall n | n in f
      ensures Alike(f[n], CatchUp(window), [], heard, n) && Recovers(f[n], window, [], heard, n)
    {
      LastOfConcat(older + window, news, n);
      LastOfConcat(older, window, n);
      CatchUpLasts(window, n);
      NamedRight(window, n);
    }
  }

  lemma Slices<T>(s: seq<T>, a: nat, b: nat, c: nat)
    requires a <= b <= c <= |s|
    ensures s[a..b] + s[b..c] == s[a..c]
  {
  }

  lemma WindowIn(log: Log, later: Log)
    requires log <= later && Decodable(log) && Decodable(later)
    ensures Window(log) == Statuses(later)[WindowStart(log)..|log|]
  {
  }

  /** Heard from after the subscription on: what lies between is missed. */
  lemma HeardAfter(log: Log, later: Log, from: nat, to: nat)
    requires log <= later && Decodable(log) && Decodable(later) && |log| < from <= to <= |later|
    ensures Published(log, later, from, to) == Window(log) + Missed(log, later, from) + Statuses(later)[from..to]
  {
    WindowIn(log, later);
    Slices(Statuses(later), WindowStart(log), |log|, from);
    Slices(Statuses(later), WindowStart(log), from, to);
  }

  /** Heard from a point of the window on: the rest of the window comes again. */
  lemma HeardWithin(log: Log, later: Log, from: nat, to: nat)
    requires log <= later && Decodable(log) && Decodable(later) && WindowStart(log) <= from <= |log| <= to <= |later|
    ensures var news := Statuses(later)[|log|..to];
            && Statuses(later)[from..to] == Window(log)[from - WindowStart(log)..] + news
            && Published(log, later, from, to) == Window(log) + news
  {
    var s, start := Statuses(later), WindowStart(log);
    WindowIn(log, later);
    Slices(s, from, |log|, to);
    Slices(s, start, |log|, to);
    assert s[from..|log|] == Window(log)[from - start..];
  }

  /** Heard from before the window on: the whole window comes again. */
  lemma HeardBefore(log: Log, later: Log, from: nat, to: nat)
    requires log <= later && Decodable(log) && Decodable(later) && from < WindowStart(log) && |log| <= to <= |later|
    ensures Statuses(later)[from..to] ==
            Statuses(later)[from..WindowStart(log)] + Window(log) + Statuses(later)[|log|..to]
  {
    WindowIn(log, later);
    Slices(Statuses(later), from, WindowStart(log), |log|);
    Slices(Statuses(later), from, |log|, to);
  }

  lemma HeardFrom(f: Fleet, log: Log, later: Log, from: nat, to: nat)
    requires log <= later && Decodable(log) && Decodable(later) && from <= to <= |later| && |log| <= to
    ensures var window, heard := Window(log), Statuses(later)[from..to];
            Replay(f, CatchUp(window) + heard) == Replay(f, Published(log, later, from, to)) <==>
            forall n :: n in f ==> Recovers(f[n], window, Missed(log, later, from), heard, n)
  {
    hide CatchUp, Replay, HeadCarried;
    var start := WindowStart(log);
    if from > |log| {
      HeardAfter(log, later, from, to);
      CatchUpThenMiss(f, Window(log), Missed(log, later, from), Statuses(later)[from..to]);
    } else if from >= start {
      HeardWithin(log, later, from, to);
      CatchUpThenListen(f, Window(log), from - start, Statuses(later)[|log|..to]);
    } else {
      HeardBefore(log, later, from, to);
      LaggingListenerLosesNothing(f, Window(log), Statuses(later)[from..start], Statuses(later)[|log|..to]);
    }
  }

  /**
   A channel subscribes at `log`; then come appends and reads, in any order. As soon as the listener is past the
   point of subscription - it may not have begun, it may have lagged behind, it may have begun later - the subscriber
   shows what a replay of all those entries shows, exactly when for each endpoint nothing was missed, or what was
   missed is known all the same or said again.
   */
  lemma SubscriberIsCurrent(f: Fleet, log: Log, l: Listener, acts: seq<Action>)
    requires Following(log, l) && NeverSkips(log, l, acts) && Decodable(LogAfter(log, acts))
    requires To(log, l, acts) >= |log|
    ensures log <= LogAfter(log, acts) && From(log, l, acts) <= To(log, l, acts) <= |LogAfter(log, acts)|
    ensures l.next.Some? ==> From(log, l, acts) == l.next.value
    ensures var window, later, heard := Window(log), LogAfter(log, acts), Heard(log, l, acts);
            var from, to := From(log, l, acts), To(log, l, acts);
            Replay(f, CatchUp(window) + heard) == Replay(f, Published(log, later, from, to)) <==>
            forall n :: n in f ==> Recovers(f[n], window, Missed(log, later, from), heard, n)
  {
    var later, from, to := LogAfter(log, acts), From(log, l, acts), To(log, l, acts);
    LogGrows(log, acts);
    EndsFollowing(log, l, acts);
    NewsIsStretch(log, l, acts);
    HeardIsNews(log, l, acts);
    assert News(log, l, acts) == Span(from, to);
    HeardIsSlice(later, from, to);
    HeardFrom(f, log, later, from, to);
  }

  lemma {:induction false} EndsFollowing(log: Log, l: Listener, acts: seq<Action>)
    requires Following(log, l)
    ensures Following(LogAfter(log, acts), ListenerAfter(log, l, acts))
    decreases |acts|
  {
    if acts == [] {
    } else if acts[0].Append? {
      EndsFollowing(log + [acts[0].status], l, acts[1..]);
    } else {
      PollFollows(log, l);
      EndsFollowing(log, Poll(log, l), acts[1..]);
    }
  }

  /**
   And for any run at all, of a listener that skips trimmed entries or has not reached the subscription yet, and for
   a replay of the stream from any point: the subscriber shows all of it exactly when the last that it was told of
   each endpoint, in the catch-up or later, says what the last of all says.
   */
  lemma SubscriberInAnyRun(f: Fleet, log: Log, l: Listener, acts: seq<Action>, start: nat)
    requires Following(log, l) && Decodable(LogAfter(log, acts)) && start <= |LogAfter(log, acts)|
    ensures log <= LogAfter(log, acts) && Told(LogAfter(log, acts), News(log, l, acts))
    ensures var window, later := Window(log), LogAfter(log, acts);
            var heard := StatusesAt(later, News(log, l, acts));
            var all := Statuses(later)[start..];
            && Heard(log, l, acts) == heard
            && (Replay(f, CatchUp(window) + heard) == Replay(f, all) <==>
                forall n :: n in f ==>
                  && HealthOf(f[n].(healthy := HealthOf(f[n], window, n)), heard, n) == HealthOf(f[n], all, n)
                  && HeadOf(f[n].(head := HeadOf(f[n], CatchUp(window), n)), heard, n) == HeadOf(f[n], all, n))
  {
    LogGrows(log, acts);
    HeardIsNews(log, l, acts);
    var later, heard := LogAfter(log, acts), Heard(log, l, acts);
    var caught, all := CatchUp(Window(log)), Statuses(later)[start..];
    HeardEqualsAll(f, caught + heard, all, []);
    assert caught + heard + [] == caught + heard && all + [] == all;
    forall n | n in f
      ensures Alike(f[n], caught + heard, all, [], n) <==>
              && HealthOf(f[n].(healthy := HealthOf(f[n], Window(log), n)), heard, n) == HealthOf(f[n], all, n)
              && HeadOf(f[n].(head := HeadOf(f[n], caught, n)), heard, n) == HeadOf(f[n], all, n)
    {
      LastOfConcat(caught, heard, n);
      CatchUpIsAlike(f[n], Window(log), n);
    }
  }

  /**
   The loss is real: two entries appended to an empty stream between two reads. The first read takes the newest
   alone, so nobody ever hears the first, not even a channel that was subscribed before both.
   */
  lemma FirstReadMisses(a: ChainStatus, b: ChainStatus, e: EndpointState)
    requires a.endpointName != b.endpointName && a.healthy != e.healthy
    ensures var acts, f := [Append(Some(a)), Append(Some(b)), Read], map[a.endpointName := e, b.endpointName := e];
            && Heard([], IDLE, acts) == [b]
            && CatchUp([]) == []
            && Replay(f, [b]) != Replay(f, [a, b])
  {
    OnlyNewestHeard(a, b);
    var f := map[a.endpointName := e, b.endpointName := e];
    HeardEqualsAll(f, [], [a], [b]);
    assert [] + [b] == [b] && [a] + [b] == [a, b];
    assert LastStatus([a], a.endpointName) == Some(a) && LastStatus([b], a.endpointName) == None;
    assert f[a.endpointName] == e;
    assert !Alike(f[a.endpointName], [], [a], [b], a.endpointName);
  }

  lemma OnlyNewestHeard(a: ChainStatus, b: ChainStatus)
    ensures Heard([], IDLE, [Append(Some(a)), Append(Some(b)), Read]) == [b]
  {
    var acts := [Append(Some(a)), Append(Some(b)), Read];
    var log := [Some(a), Some(b)];
    assert acts[1..][1..] == [Read] && [Read][1..] == [];
    assert [Some(a)] + [Some(b)] == log;
    assert ReadBatch(log, IDLE) == [Some(b)];
    assert DecodedPrefix([Some(b)]) == [b] + DecodedPrefix([]);
    assert Heard(log, IDLE, [Read]) == [b];
    assert Heard([Some(a)], IDLE, acts[1..]) == Heard(log, IDLE, [Read]);
    assert [] + [Some(a)] == [Some(a)];
    assert Heard([], IDLE, acts) == Heard([Some(a)], IDLE, acts[1..]);
  }

  // ----- The hub -----

  function Newest(log: Log, n: nat): Log {
    seq(if n < |log| then n else |log|, i requires 0 <= i < |log| => log[|log| - 1 - i])
  }

  lemma {:induction false} DecodedWindow(log: Log, n: nat)
    requires Decodable(log) && n <= |log|
    ensures DecodedPrefix(Newest(log, n)) == Reversed(Statuses(log)[|log| - n..])
    decreases n
  {
    if n == 0 {
    } else {
      assert Newest(log, n)[1..] == Newest(log[..|log| - 1], n - 1);
      var window := Statuses(log)[|log| - n..];
      assert window == Statuses(log[..|log| - 1])[|log| - n..] + [log[|log| - 1].value];
      DecodedWindow(log[..|log| - 1], n - 1);
      ReversedSnoc(Statuses(log[..|log| - 1])[|log| - n..], log[|log| - 1].value);
    }
  }

  lemma {:induction false} ReversedSnoc(ss: seq<ChainStatus>, s: ChainStatus)
    ensures Reversed(ss + [s]) == [s] + Reversed(ss)
  {
    if ss == [] {
      assert Reversed([s]) == [s];
    } else {
      assert (ss + [s])[1..] == ss[1..] + [s];
      ReversedSnoc(ss[1..], s);
    }
  }

  /** What a new subscriber is sent is the catch-up of the last 100 entries. */
  lemma SnapshotIsCatchUp(log: Log)
    requires Decodable(log)
    ensures FirstOfEach(DecodedPrefix(Newest(log, SNAPSHOT)), {}) == CatchUp(Window(log))
    ensures Window(log) == Statuses(log)[if |log| > 100 then |log| - 100 else 0..]
  {
    var n := |log| - WindowStart(log);
    assert Newest(log, SNAPSHOT) == Newest(log, n);
    DecodedWindow(log, n);
  }

  function NewestFirst(entries: seq<Entry>, n: nat): Log {
    seq(if n < |entries| then n else |entries|, i requires 0 <= i < |entries| => entries[|entries| - 1 - i].status)
  }

  /** Trimming does not touch what a snapshot looks at. */
  lemma NewestOfKept(log: Log, n: nat)
    requires n <= MAX_LEN
    ensures NewestFirst(Kept(log), n) == Newest(log, n)
  {
    var k := Kept(log);
    forall i | 0 <= i < |Newest(log, n)| ensures k[|k| - 1 - i].status == Newest(log, n)[i] {
      assert Oldest(log) + (|k| - 1 - i) == |log| - 1 - i;
    }
  }

  /** What the store holds are the newest 1000 entries of the log, each with its position. */
  lemma KeptIsNewest(log: Log)
    ensures var k := |Kept(log)|;
            && k == (if |log| < 1000 then |log| else 1000)
            && forall i :: 0 <= i < k ==> Kept(log)[i] == Entry(|log| - k + i, log[|log| - k + i])
  {
    assert forall i :: 0 <= i < |Kept(log)| ==> Kept(log)[i] == Entry(Oldest(log) + i, log[Oldest(log) + i]);
  }

  lemma KeptGrows(log: Log, status: Option<ChainStatus>)
    ensures var longer := Kept(log) + [Entry(|log|, status)];
            Kept(log + [status]) == if |longer| > MAX_LEN then longer[|longer| - MAX_LEN..] else longer
  {
  }

  /** The cursor and the flag of the loop say where the listener is. */
  ghost predicate Tracks(log: Log, l: Listener, lastID: Option<nat>, listening: bool) {
    && listening == l.alive && Following(log, l)
    && lastID == if l.next.Some? then Some(l.next.value - 1) else None
  }

  /** The status of each entry. */
  function StatusesOf(batch: seq<Entry>): Log {
    seq(|batch|, i requires 0 <= i < |batch| => batch[i].status)
  }

  lemma EachStatus(batch: seq<Entry>)
    ensures |StatusesOf(batch)| == |batch| && forall i :: 0 <= i < |batch| ==> StatusesOf(batch)[i] == batch[i].status
  {
  }

  /** What one read hands out: each entry with its position. */
  ghost predicate IsBatch(log: Log, l: Listener, batch: seq<Entry>) {
    && |batch| == |ReadBatch(log, l)|
    && forall i :: 0 <= i < |batch| ==> batch[i] == Entry(ReadFrom(log, l) + i, ReadBatch(log, l)[i])
  }

  /** The first entry behind the cursor is where the read begins. */
  lemma CursorIndex(log: Log, l: Listener, i: nat)
    requires Following(log, l) && l.next.Some? && i <= |Kept(log)|
    requires forall j :: 0 <= j < i ==> Kept(log)[j].id <= l.next.value - 1
    requires i < |Kept(log)| ==> Kept(log)[i].id > l.next.value - 1
    ensures log != [] && i == ReadFrom(log, l) - Oldest(log)
  {
    assert forall j :: 0 <= j < |Kept(log)| ==> Kept(log)[j].id == Oldest(log) + j;
    var k := ReadFrom(log, l) - Oldest(log);
    var behind := if k < |Kept(log)| then Kept(log)[k].id else |log|;
    assert behind == ReadFrom(log, l);
  }

  lemma KeptSlice(log: Log, l: Listener, to: nat)
    requires Following(log, l) && log != [] && ReadFrom(log, l) <= to <= |log|
    requires ReadBatch(log, l) == log[ReadFrom(log, l)..to]
    ensures IsBatch(log, l, Kept(log)[ReadFrom(log, l) - Oldest(log)..to - Oldest(log)])
  {
    var from, first := ReadFrom(log, l), Oldest(log);
    var batch := Kept(log)[from - first..to - first];
    forall i | 0 <= i < |batch| ensures batch[i] == Entry(from + i, ReadBatch(log, l)[i]) {
      assert batch[i] == Kept(log)[from - first + i];
    }
  }

  /** The first read: the newest entry alone, if there is any. */
  lemma NewestIsBatch(log: Log, l: Listener)
    requires Following(log, l) && l.next.None?
    ensures IsBatch(log, l, if Kept(log) == [] then [] else [Kept(log)[|Kept(log)| - 1]])
  {
    if log == [] {
    } else {
      var last := |Kept(log)| - 1;
      KeptSlice(log, l, |log|);
      assert Kept(log)[last..last + 1] == [Kept(log)[last]];
    }
  }

  /** Any later read: what lies behind the cursor. */
  lemma BehindIsBatch(log: Log, l: Listener, i: nat)
    requires Following(log, l) && l.next.Some? && log != [] && i == ReadFrom(log, l) - Oldest(log)
    ensures i <= |Kept(log)|
    ensures IsBatch(log, l, Kept(log)[i..if i + BATCH < |Kept(log)| then i + BATCH else |Kept(log)|])
  {
    KeptSlice(log, l, if i + BATCH < |Kept(log)| then Oldest(log) + i + BATCH else |log|);
  }

  /** After a batch was sent up to its first undecodable entry, cursor and flag say where `Poll` leaves the listener. */
  lemma SendingTracks(log: Log, l: Listener, lastID: Option<nat>, batch: seq<Entry>)
    requires Tracks(log, l, lastID, true) && IsBatch(log, l, batch)
    ensures var sent := Said(log, l);
            Tracks(log, Poll(log, l), if sent == [] then lastID else Some(batch[|sent| - 1].id), |sent| == |batch|)
  {
    hide Following, Kept, DecodedPrefix;
    PollFollows(log, l);
  }

  lemma BatchIsRead(log: Log, l: Listener, batch: seq<Entry>)
    requires IsBatch(log, l, batch)
    ensures StatusesOf(batch) == ReadBatch(log, l)
  {
  }

  lemma DeadIsSilent(log: Log, l: Listener)
    requires !l.alive
    ensures Poll(log, l) == l && Said(log, l) == []
    ensures forall boxes, subs :: FanoutAll(boxes, subs, Said(log, l)) == boxes
  {
  }

  lemma SentNothing(boxes: Inboxes, subs: seq<nat>)
    ensures DecodedPrefix([]) == [] && FanoutAll(boxes, subs, []) == boxes
  {
  }

  lemma SentFirst(boxes: Inboxes, subs: seq<nat>, cs: ChainStatus, rest: seq<ChainStatus>)
    ensures FanoutAll(boxes, subs, [cs] + rest) == FanoutAll(Fanout(boxes, subs, cs), subs, rest)
  {
    assert ([cs] + rest)[1..] == rest;
  }

  lemma DecodedStep(rev: seq<Option<ChainStatus>>, i: nat)
    requires i < |rev|
    ensures DecodedPrefix(rev[i..]) == if rev[i].None? then [] else [rev[i].value] + DecodedPrefix(rev[i + 1..])
  {
    assert rev[i..][0] == rev[i] && rev[i..][1..] == rev[i + 1..];
  }

  lemma NothingToSend(boxes: Inboxes, ch: nat, sent: set<string>)
    ensures DecodedPrefix([]) == [] && FanoutAll(boxes, [ch], FirstOfEach([], sent)) == boxes
  {
  }

  /** A status is sent on if it is the first of its endpoint, and then all others of that endpoint are not. */
  lemma SendingStep(boxes: Inboxes, ch: nat, cs: ChainStatus, rest: seq<ChainStatus>, sent: set<string>)
    ensures FanoutAll(boxes, [ch], FirstOfEach([cs] + rest, sent)) ==
            if cs.endpointName in sent then FanoutAll(boxes, [ch], FirstOfEach(rest, sent))
            else FanoutAll(Send(boxes, ch, cs), [ch], FirstOfEach(rest, sent + {cs.endpointName}))
  {
    assert ([cs] + rest)[1..] == rest;
    if cs.endpointName !in sent {
      assert FirstOfEach([cs] + rest, sent)[1..] == FirstOfEach(rest, sent + {cs.endpointName});
      assert [ch][1..] == [] && Fanout(boxes, [ch], cs) == Send(boxes, ch, cs);
    }
  }

  /** The index of the first entry with a greater id. */
  method Behind(entries: seq<Entry>, id: nat) returns (i: nat)
    ensures i <= |entries|
    ensures forall j :: 0 <= j < i ==> entries[j].id <= id
    ensures i < |entries| ==> entries[i].id > id
  {
    i := 0;
    while i < |entries| && entries[i].id <= id
      invariant i <= |entries|
      invariant forall j :: 0 <= j < i ==> entries[j].id <= id
    {
      i := i + 1;
    }
  }

  class StreamHub {
    var entries: seq<Entry>
    var nextId: nat
    var subs: seq<nat>
    var boxes: Inboxes
    var lastID: Option<nat>
    var listening: bool
    /** All that was ever appended, and what the listener did with it. */
    ghost var log: Log
    ghost var listener: Listener

    ghost predicate Valid()
      reads this
    {
      && entries == Kept(log) && nextId == |log|
      && Tracks(log, listener, lastID, listening)
    }

    constructor ()
      ensures Valid() && log == [] && listener == IDLE && subs == [] && boxes == map[]
    {
      entries, nextId, subs, boxes, lastID, listening := [], 0, [], map[], None, true;
      log, listener := [], IDLE;
    }

    /** An entry is appended, by this gateway or another one, and the oldest is trimmed away past the maximum. */
    method XAdd(status: Option<ChainStatus>)
      requires Valid()
      modifies this`entries, this`nextId, this`log
      ensures Valid() && log == old(log) + [status]
      ensures |entries| == if |log| < 1000 then |log| else 1000
      ensures forall i :: 0 <= i < |entries| ==>
                entries[i] == Entry(|log| - |entries| + i, log[|log| - |entries| + i])
    {
      KeptGrows(log, status);
      entries := entries + [Entry(nextId, status)];
      if |entries| > MAX_LEN {
        entries := entries[|entries| - MAX_LEN..];
      }
      nextId := nextId + 1;
      log := log + [status];
      KeptIsNewest(log);
    }

    /**
     A new subscriber is sent the newest entry of each endpoint among the last 100. An entry that cannot be
     decoded ends this early and with an error, but the channel stays subscribed.
     */
    method Subscribe(ch: nat) returns (ok: bool)
      requires Valid()
      modifies this`subs, this`boxes
      ensures Valid() && subs == old(subs) + [ch]
      ensures boxes == FanoutAll(old(boxes), [ch], FirstOfEach(DecodedPrefix(Newest(log, SNAPSHOT)), {}))
      ensures ok <==> |DecodedPrefix(Newest(log, SNAPSHOT))| == |Newest(log, SNAPSHOT)|
    {
      hide Kept, Tracks, Newest, FanoutAll, FirstOfEach, DecodedPrefix;
      subs := subs + [ch];
      var rev := RevRange(SNAPSHOT);
      var sent: set<string> := {};
      ghost var goal := FanoutAll(boxes, [ch], FirstOfEach(DecodedPrefix(rev), {}));
      for i := 0 to |rev|
        invariant Valid() && subs == old(subs) + [ch]
        invariant FanoutAll(boxes, [ch], FirstOfEach(DecodedPrefix(rev[i..]), sent)) == goal
        invariant |DecodedPrefix(rev)| == i + |DecodedPrefix(rev[i..])|
      {
        DecodedStep(rev, i);
        if rev[i].None? {
          NothingToSend(boxes, ch, sent);
          return false;
        }
        var cs := rev[i].value;
        SendingStep(boxes, ch, cs, DecodedPrefix(rev[i + 1..]), sent);
        if cs.endpointName !in sent {
          sent := sent + {cs.endpointName};
          boxes := Send(boxes, ch, cs);
        }
      }
      assert rev[|rev|..] == [];
      NothingToSend(boxes, ch, sent);
      return true;
    }

    /** The newest entries first, `n` at most. */
    method RevRange(n: nat) returns (rev: seq<Option<ChainStatus>>)
      requires Valid() && n <= MAX_LEN
      ensures rev == Newest(log, n)
    {
      NewestOfKept(log, n);
      rev := NewestFirst(entries, n);
    }

    method Unsubscribe(ch: nat)
      requires Valid()
      modifies this`subs
      ensures Valid() && subs == WithoutFirst(old(subs), ch)
    {
      subs := Unsubscribed(subs, ch);
    }

    /** The entries behind the cursor in order, `BATCH` at most; at first the newest one alone. */
    method Range() returns (batch: seq<Entry>)
      requires Valid()
      ensures IsBatch(log, listener, batch)
    {
      hide IsBatch;
      if lastID.None? {
        NewestIsBatch(log, listener);
        batch := if entries == [] then [] else [entries[|entries| - 1]];
      } else {
        var i := Behind(entries, lastID.value);
        CursorIndex(log, listener, i);
        BehindIsBatch(log, listener, i);
        batch := entries[i..if i + BATCH < |entries| then i + BATCH else |entries|];
      }
    }

    /** Sends a batch to every subscriber and moves the cursor along, up to an entry that cannot be decoded. */
    method SendBatch(batch: seq<Entry>) returns (ok: bool)
      modifies this`boxes, this`lastID
      ensures var sent := DecodedPrefix(StatusesOf(batch));
              && boxes == FanoutAll(old(boxes), subs, sent)
              && lastID == (if sent == [] then old(lastID) else Some(batch[|sent| - 1].id))
              && (ok <==> |sent| == |batch|)
    {
      hide FanoutAll, Fanout, StatusesOf, DecodedPrefix;
      ghost var found := StatusesOf(batch);
      EachStatus(batch);
      ghost var goal := FanoutAll(boxes, subs, DecodedPrefix(found));
      for i := 0 to |batch|
        invariant FanoutAll(boxes, subs, DecodedPrefix(found[i..])) == goal
        invariant |DecodedPrefix(found)| == i + |DecodedPrefix(found[i..])|
        invariant lastID == if i == 0 then old(lastID) else Some(batch[i - 1].id)
      {
        DecodedStep(found, i);
        if batch[i].status.None? {
          SentNothing(boxes, subs);
          return false;
        }
        SentFirst(boxes, subs, batch[i].status.value, DecodedPrefix(found[i + 1..]));
        lastID := Some(batch[i].id);
        boxes := Broadcast(boxes, subs, batch[i].status.value);
      }
      SentNothing(boxes, subs);
      assert found[|batch|..] == [];
      return true;
    }

    /** One turn of the listening loop: read behind the cursor and send what was read to every subscriber. */
    method Listen()
      requires Valid()
      modifies this`boxes, this`lastID, this`listening, this`listener
      ensures Valid() && listener == Poll(log, old(listener))
      ensures boxes == FanoutAll(old(boxes), subs, Said(log, old(listener)))
    {
      hide Kept, Poll, IsBatch, FanoutAll, DecodedPrefix, Following, StatusesOf;
      if !listening {
        DeadIsSilent(log, listener);
        return;
      }
      var batch := Range();
      BatchIsRead(log, listener, batch);
      SendingTracks(log, listener, lastID, batch);
      listening := SendBatch(batch);
      listener := Poll(log, listener);
    }

    /** Appends and turns of the loop in any order: log, listener and subscribers end as the run says. */
    method Drive(acts: seq<Action>)
      requires Valid()
      modifies this`entries, this`nextId, this`log, this`boxes, this`lastID, this`listening, this`listener
      ensures Valid()
      ensures log == LogAfter(old(log), acts) && listener == ListenerAfter(old(log), old(listener), acts)
      ensures boxes == FanoutAll(old(boxes), subs, Heard(old(log), old(listener), acts))
    {
      hide Kept, Tracks, Poll, Said, FanoutAll;
      ghost var goal := FanoutAll(boxes, subs, Heard(log, listener, acts));
      for i := 0 to |acts|
        invariant Valid()
        invariant LogAfter(log, acts[i..]) == LogAfter(old(log), acts)
        invariant ListenerAfter(log, listener, acts[i..]) == ListenerAfter(old(log), old(listener), acts)
        invariant FanoutAll(boxes, subs, Heard(log, listener, acts[i..])) == goal
      {
        assert acts[i..][0] == acts[i] && acts[i..][1..] == acts[i + 1..];
        match acts[i] {
          case Append(status) =>
            XAdd(status);
          case Read =>
            FanoutAllConcat(boxes, subs, Said(log, listener), Heard(log, Poll(log, listener), acts[i + 1..]));
            Listen();
        }
      }
      assert acts[|acts|..] == [];
      SentNothing(boxes, subs);
    }

    /** A new channel subscribes and things go on: it receives its catch-up and then all that the listener delivers. */
    method Follow(ch: nat, acts: seq<Action>)
      requires Valid() && AtMostOnce(subs) && ch !in subs && Decodable(log)
      modifies this
      ensures Valid()
      ensures log == LogAfter(old(log), acts) && listener == ListenerAfter(old(log), old(listener), acts)
      ensures Received(boxes, ch) ==
              Received(old(boxes), ch) + CatchUp(Window(old(log))) + Heard(old(log), old(listener), acts)
    {
      hide Kept, Tracks, Poll, Said, FanoutAll, Received, CatchUp, Window, Decodable;
      ghost var first, css := boxes, Heard(log, listener, acts);
      SnapshotIsCatchUp(log);
      FanoutAllReaches(first, [ch], CatchUp(Window(log)), ch);
      var ok := Subscribe(ch);
      ghost var second := boxes;
      assert AtMostOnce(subs) && ch in subs;
      Drive(acts);
      FanoutAllReaches(second, subs, css, ch);
    }
  }
}
