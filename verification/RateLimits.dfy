/**
 The fixed-window rate limiter over a shared store of hashes with expiry: one hash per window, one field per
 caller. A counter starts at a base of 1000, so that a value at or below the base tells a fresh field.
 Times are whole seconds on one clock; a call is one atomic step here (see RateRaces for calls that overlap).
 */
module RateLimits {
  import opened Types

  const VALUE_BASE := 1000

  // ----- Windows -----

  /** Go's integer division: towards zero. */
  function TruncDiv(a: int, b: int): int
    requires b > 0
  {
    if a >= 0 then a / b else -((-a) / b)
  }

  datatype Key = Key(span: int, slot: int)

  function RedisKey(time: int, span: int): Key
    requires span > 0
  {
    Key(span, TruncDiv(time, span))
  }

  lemma Quotient(a: nat, s: int)
    requires s > 0
    ensures 0 <= a / s && (a / s) * s <= a < (a / s) * s + s
  {
  }

  lemma NegatedProduct(q: int, s: int)
    ensures (-q) * s == -(q * s)
  {
  }

  lemma SlotBounds(t: int, s: int)
    requires s > 0
    ensures var w := TruncDiv(t, s);
            && (t >= 0 ==> w >= 0 && w * s <= t < w * s + s)
            && (t < 0 ==> w <= 0 && w * s - s < t <= w * s)
  {
    if t >= 0 {
      Quotient(t, s);
    } else {
      Quotient(-t, s);
      NegatedProduct((-t) / s, s);
    }
  }

  lemma Grows(u: int, w: int, s: int)
    requires s > 0 && u < w
    ensures u * s + s <= w * s
  {
    assert (w - u - 1) * s >= 0;
    assert (w - u - 1) * s == w * s - u * s - s;
  }

  /**
   The times of slot `w`: one span, closed at the end nearer to time 0 - but slot 0 is both the span before and the
   span after time 0, because the division rounds towards zero.
   */
  predicate InWindow(t: int, s: int, w: int) {
    if w > 0 then w * s <= t < (w + 1) * s
    else if w == 0 then -s < t < s
    else (w - 1) * s < t <= w * s
  }

  /** The same with the product given. */
  predicate InSpan(t: int, s: int, w: int, start: int) {
    if w > 0 then start <= t < start + s else if w == 0 then -s < t < s else start - s < t <= start
  }

  lemma WindowIsSpan(t: int, s: int, w: int)
    ensures InWindow(t, s, w) <==> InSpan(t, s, w, w * s)
  {
    assert (w + 1) * s == w * s + s && (w - 1) * s == w * s - s;
  }

  lemma OneSpan(t: int, s: int, v: int, a: int, w: int, b: int)
    requires s > 0 && InSpan(t, s, v, a) && InSpan(t, s, w, b)
    requires (v == 0 ==> a == 0) && (w == 0 ==> b == 0)
    requires v < w ==> a + s <= b && (v < 0 ==> a <= -s) && (w > 0 ==> s <= b)
    requires w < v ==> b + s <= a && (w < 0 ==> b <= -s) && (v > 0 ==> s <= a)
    ensures v == w
  {
  }

  lemma SlotIsWindow(t: int, s: int, w: int)
    requires s > 0
    ensures TruncDiv(t, s) == w <==> InWindow(t, s, w)
  {
    var v := TruncDiv(t, s);
    SlotBounds(t, s);
    WindowIsSpan(t, s, v);
    WindowIsSpan(t, s, w);
    if InWindow(t, s, w) && v != w {
      SlotsApart(v, w, s);
      OneSpan(t, s, v, v * s, w, w * s);
    }
  }

  lemma SlotsApart(v: int, w: int, s: int)
    requires s > 0
    ensures (v == 0 ==> v * s == 0) && (w == 0 ==> w * s == 0)
    ensures v < w ==> v * s + s <= w * s && (v < 0 ==> v * s <= -s) && (w > 0 ==> s <= w * s)
    ensures w < v ==> w * s + s <= v * s && (w < 0 ==> w * s <= -s) && (v > 0 ==> s <= v * s)
  {
    if v < w {
      Grows(v, w, s);
    }
    if w < v {
      Grows(w, v, s);
    }
    if v < 0 {
      Grows(v, 0, s);
    }
    if v > 0 {
      Grows(0, v, s);
    }
    if w < 0 {
      Grows(w, 0, s);
    }
    if w > 0 {
      Grows(0, w, s);
    }
  }

  /** Two calls share a key exactly when they have the same span and fall into the same window. */
  lemma SameWindow(t: int, s: int, u: int, r: int)
    requires s > 0 && r > 0
    ensures RedisKey(t, s) == RedisKey(u, r) <==> s == r && exists w :: InWindow(t, s, w) && InWindow(u, s, w)
  {
    SlotIsWindow(t, s, TruncDiv(t, s));
    SlotIsWindow(u, s, TruncDiv(t, s));
    if w :| InWindow(t, s, w) && InWindow(u, s, w) {
      SlotIsWindow(t, s, w);
      SlotIsWindow(u, s, w);
    }
  }

  /** What was set to expire after two spans outlives the window it was set in. */
  lemma TwoSpansOutlive(t: int, u: int, s: int)
    requires s > 0 && RedisKey(t, s) == RedisKey(u, s)
    ensures u < t + 2 * s
  {
    SlotBounds(t, s);
    SlotBounds(u, s);
  }

  /** A stretch of one span meets at most two windows. */
  lemma TwoWindows(a: int, t: int, s: int)
    requires s > 0 && a <= t < a + s
    ensures TruncDiv(a, s) <= TruncDiv(t, s) <= TruncDiv(a, s) + 1
  {
    var v, w := TruncDiv(a, s), TruncDiv(t, s);
    SlotIsSpan(a, s);
    SlotIsSpan(t, s);
    SlotsApart(v, w, s);
    TwoApart(v, w, s);
    hide TruncDiv;
    NextSpan(a, t, s, v, v * s, w, w * s);
  }

  lemma SlotIsSpan(t: int, s: int)
    requires s > 0
    ensures InSpan(t, s, TruncDiv(t, s), TruncDiv(t, s) * s)
  {
    SlotIsWindow(t, s, TruncDiv(t, s));
    WindowIsSpan(t, s, TruncDiv(t, s));
  }

  lemma TwoApart(v: int, w: int, s: int)
    requires s > 0
    ensures v + 1 < w ==> v * s + 2 * s <= w * s
  {
    if v + 1 < w {
      Grows(v + 1, w, s);
      Grows(v, v + 1, s);
    }
  }

  /** With the products given, times less than a span apart are in the same slot or in neighbouring ones. */
  lemma NextSpan(a: int, t: int, s: int, v: int, start: int, w: int, end: int)
    requires s > 0 && a <= t < a + s && InSpan(a, s, v, start) && InSpan(t, s, w, end)
    requires (v == 0 ==> start == 0) && (w == 0 ==> end == 0)
    requires v < w ==> start + s <= end && (v < 0 ==> start <= -s) && (w > 0 ==> s <= end)
    requires w < v ==> end + s <= start && (w < 0 ==> end <= -s) && (v > 0 ==> s <= start)
    requires v + 1 < w ==> start + 2 * s <= end
    ensures v <= w <= v + 1
  {
  }

  // ----- The store -----

  datatype Hash = Hash(values: map<string, int>, deadline: Option<int>)

  type Db = map<Key, Hash>

  /** The hash under a key; one whose deadline has passed is as good as none. */
  function Live(db: Db, key: Key, now: int): Hash {
    if key in db && (db[key].deadline.Some? ==> now < db[key].deadline.value) then db[key] else Hash(map[], None)
  }

  function ValueAt(db: Db, key: Key, field: string, now: int): int {
    var h := Live(db, key, now);
    if field in h.values then h.values[field] else 0
  }

  class Store {
    var db: Db

    method HIncrBy(key: Key, field: string, delta: int, now: int) returns (value: int)
      modifies this
      ensures value == old(ValueAt(db, key, field, now)) + delta
      ensures db == old(db)[key := old(Live(db, key, now)).(values := old(Live(db, key, now)).values[field := value])]
    {
      var h := Live(db, key, now);
      value := (if field in h.values then h.values[field] else 0) + delta;
      db := db[key := h.(values := h.values[field := value])];
    }

    method HSet(key: Key, field: string, value: int, now: int)
      modifies this
      ensures db == old(db)[key := old(Live(db, key, now)).(values := old(Live(db, key, now)).values[field := value])]
    {
      var h := Live(db, key, now);
      db := db[key := h.(values := h.values[field := value])];
    }

    method Expire(key: Key, ttl: int, now: int)
      modifies this
      ensures db == old(db)[key := old(Live(db, key, now)).(deadline := Some(now + ttl))]
    {
      db := db[key := Live(db, key, now).(deadline := Some(now + ttl))];
    }

    /**
     One call of the limiter: count, refuse from base + limit on, and give a counter that had no base its base
     and the hash two spans to live.
     */
    method Incr(field: string, limit: int, time: int, span: int) returns (ok: bool)
      requires span > 0
      modifies this
      ensures ok == Admits(old(db), Call(field, limit, time, span))
      ensures db == After(old(db), Call(field, limit, time, span))
    {
      var key := RedisKey(time, span);
      ghost var before, h := db, Live(db, key, time);
      var newValue := HIncrBy(key, field, 1, time);
      if newValue >= VALUE_BASE + limit {
        return false;
      } else if newValue <= VALUE_BASE {
        HSet(key, field, VALUE_BASE, time);
        assert db[key].values == h.values[field := VALUE_BASE];
        Expire(key, span * 2, time);
        assert db == before[key := Hash(h.values[field := VALUE_BASE], Some(time + 2 * span))];
        return true;
      } else {
        return true;
      }
    }

    /** What is reported as used: every counter at or above its base, less the base. */
    method Values(time: int, span: int) returns (used: map<string, int>)
      requires span > 0
      ensures used == Reported(db, time, span)
    {
      var items := Live(db, RedisKey(time, span), time).values;
      var remaining := items.Keys;
      used := map[];
      while remaining != {}
        invariant remaining <= items.Keys
        invariant used == map f | f in items && f !in remaining && items[f] >= VALUE_BASE :: items[f] - VALUE_BASE
        decreases |remaining|
      {
        var f :| f in remaining;
        remaining := remaining - {f};
        if items[f] >= VALUE_BASE {
          used := used[f := items[f] - VALUE_BASE];
        }
      }
    }
  }

  function Reported(db: Db, time: int, span: int): map<string, int>
    requires span > 0
  {
    var values := Live(db, RedisKey(time, span), time).values;
    map f | f in values && values[f] >= VALUE_BASE :: values[f] - VALUE_BASE
  }

  // ----- Calls one after the other -----

  datatype Call = Call(field: string, limit: int, time: int, span: int)

  predicate Admits(db: Db, c: Call)
    requires c.span > 0
  {
    ValueAt(db, RedisKey(c.time, c.span), c.field, c.time) + 1 < VALUE_BASE + c.limit
  }

  function After(db: Db, c: Call): Db
    requires c.span > 0
  {
    var key := RedisKey(c.time, c.span);
    var h := Live(db, key, c.time);
    var v := ValueAt(db, key, c.field, c.time) + 1;
    if Admits(db, c) && v <= VALUE_BASE
    then db[key := Hash(h.values[c.field := VALUE_BASE], Some(c.time + 2 * c.span))]
    else db[key := Hash(h.values[c.field := v], h.deadline)]
  }

  predicate WellFormed(calls: seq<Call>) {
    forall i :: 0 <= i < |calls| ==> calls[i].span > 0
  }

  function Front<T>(s: seq<T>): seq<T>
    requires s != []
  {
    s[..|s| - 1]
  }

  function Last<T>(s: seq<T>): T
    requires s != []
  {
    s[|s| - 1]
  }

  /** The store after these calls on an empty one. */
  function RunAll(calls: seq<Call>): Db
    requires WellFormed(calls)
  {
    if calls == [] then map[] else After(RunAll(Front(calls)), Last(calls))
  }

  /** How many of the calls that satisfy `p` were made, and how many of them were admitted. */
  function Made(calls: seq<Call>, p: Call -> bool): nat {
    if calls == [] then 0 else Made(Front(calls), p) + if p(Last(calls)) then 1 else 0
  }

  function Admitted(calls: seq<Call>, p: Call -> bool): nat
    requires WellFormed(calls)
  {
    if calls == [] then 0
    else
      Admitted(Front(calls), p) + if p(Last(calls)) && Admits(RunAll(Front(calls)), Last(calls)) then 1 else 0
  }

  /** The calls that count on one counter. */
  function On(field: string, key: Key): Call -> bool {
    (c: Call) => c.field == field && c.span > 0 && RedisKey(c.time, c.span) == key
  }

  /** The limits that the calls on one counter asked for, in order. */
  function OwnLimits(calls: seq<Call>, field: string, key: Key): seq<int> {
    if calls == [] then []
    else OwnLimits(Front(calls), field, key) + if On(field, key)(Last(calls)) then [Last(calls).limit] else []
  }

  /** Where such calls leave a counter. */
  function Tally(limits: seq<int>): int {
    if limits == [] then 0
    else
      var v := Tally(Front(limits)) + 1;
      if v < VALUE_BASE + Last(limits) && v <= VALUE_BASE then VALUE_BASE else v
  }

  /** How many of them are admitted. */
  function Granted(limits: seq<int>): nat {
    if limits == [] then 0
    else Granted(Front(limits)) + if Tally(Front(limits)) + 1 < VALUE_BASE + Last(limits) then 1 else 0
  }

  /** How many calls a limit is good for: as many as it says, but one at 0 or at a limit down to -998. */
  function Quota(limit: int): nat {
    if limit >= 1 then limit else if limit > -VALUE_BASE + 1 then 1 else 0
  }

  /** Nothing under this key expires while its window lasts. */
  ghost predicate Lasting(db: Db, key: Key) {
    key in db && db[key].deadline.Some? ==>
      forall t :: key.span > 0 && RedisKey(t, key.span) == key ==> t < db[key].deadline.value
  }

  ghost predicate Stands(db: Db, key: Key, field: string, limits: seq<int>) {
    && Lasting(db, key)
    && (limits == [] ==> key !in db || field !in db[key].values)
    && (limits != [] ==> key in db && field in db[key].values && db[key].values[field] == Tally(limits))
  }

  lemma OneCall(db: Db, c: Call, field: string, key: Key, limits: seq<int>)
    requires c.span > 0 && Stands(db, key, field, limits)
    ensures On(field, key)(c) ==>
              && Stands(After(db, c), key, field, limits + [c.limit])
              && (Admits(db, c) <==> Tally(limits) + 1 < VALUE_BASE + c.limit)
    ensures !On(field, key)(c) ==> Stands(After(db, c), key, field, limits)
  {
    assert Front(limits + [c.limit]) == limits;
    if RedisKey(c.time, c.span) == key {
      forall t | RedisKey(t, key.span) == key ensures t < c.time + 2 * c.span {
        TwoSpansOutlive(c.time, t, key.span);
      }
    }
  }

  lemma GrantedMore(limits: seq<int>, limit: int)
    ensures Granted(limits + [limit]) == Granted(limits) + if Tally(limits) + 1 < VALUE_BASE + limit then 1 else 0
  {
    assert Front(limits + [limit]) == limits;
  }

  /**
   A counter counts exactly, in any run of calls of any fields and spans, each with a limit of its own: it stands
   where the calls on it alone put it and admits what they alone would be admitted.
   */
  lemma {:induction false} CountsExactly(calls: seq<Call>, field: string, key: Key)
    requires WellFormed(calls)
    ensures Stands(RunAll(calls), key, field, OwnLimits(calls, field, key))
    ensures Admitted(calls, On(field, key)) == Granted(OwnLimits(calls, field, key))
    ensures Made(calls, On(field, key)) == |OwnLimits(calls, field, key)|
  {
    hide After, Live, ValueAt, Admits;
    if calls == [] {
    } else {
      var own, c := OwnLimits(Front(calls), field, key), Last(calls);
      CountsExactly(Front(calls), field, key);
      OneCall(RunAll(Front(calls)), c, field, key, own);
      GrantedMore(own, c.limit);
      assert own + [] == own;
    }
  }

  /** A counter stands at the base plus its calls less one exactly when its first call is let in; else lower. */
  lemma {:induction false} TallyCounts(limits: seq<int>)
    ensures Tally(limits) == 1000 + |limits| - 1 <==> limits != [] && limits[0] > -999
    ensures |limits| <= Tally(limits) <= VALUE_BASE + |limits| - 1 || limits == []
  {
    if limits == [] {
    } else {
      TallyCounts(Front(limits));
    }
  }

  /**
   A call is admitted exactly when fewer calls were made on its counter than its own limit says, whatever limits the
   others came with - except for the first call, which is let in down to a limit of -998, and for counters that
   began with a call below even that.
   */
  lemma SequentialLimit(calls: seq<Call>, c: Call)
    requires WellFormed(calls) && c.span > 0
    ensures var key := RedisKey(c.time, c.span);
            var own, n := OwnLimits(calls, c.field, key), Made(calls, On(c.field, key));
            && (Admits(RunAll(calls), c) <==> Tally(own) + 1 < VALUE_BASE + c.limit)
            && (own == [] || own[0] > -999 ==> (Admits(RunAll(calls), c) <==> n < Quota(c.limit)))
            && ((Admits(RunAll(calls), c) <==> n < c.limit) <==>
                if own == [] then c.limit >= 1 || c.limit <= -999
                else own[0] > -999 || !(Tally(own) - 999 < c.limit <= n))
  {
    var key := RedisKey(c.time, c.span);
    var own := OwnLimits(calls, c.field, key);
    CountsExactly(calls, c.field, key);
    OneCall(RunAll(calls), c, c.field, key, own);
    TallyCounts(own);
  }

  /**
   As long as no limit is below -998 every hash expires, two spans after one of its calls: the first call of a window
   is let in and sets the deadline.
   */
  lemma {:induction false} HashesExpire(calls: seq<Call>, key: Key)
    requires WellFormed(calls) && forall i :: 0 <= i < |calls| ==> calls[i].limit > -999
    ensures key in RunAll(calls) ==>
              exists i :: 0 <= i < |calls| && RedisKey(calls[i].time, calls[i].span) == key
                          && RunAll(calls)[key].deadline == Some(calls[i].time + 2 * calls[i].span)
  {
    if calls == [] {
    } else {
      var front, last := Front(calls), |calls| - 1;
      HashesExpire(front, key);
      if key in RunAll(calls) {
        if key in RunAll(front) && RunAll(calls)[key].deadline == RunAll(front)[key].deadline {
          var i :| 0 <= i < |front| && RedisKey(front[i].time, front[i].span) == key
            && RunAll(front)[key].deadline == Some(front[i].time + 2 * front[i].span);
          assert calls[i] == front[i];
        } else {
          assert RedisKey(calls[last].time, calls[last].span) == key;
        }
      }
    }
  }

  /** Every quota among these limits is at most `most`. */
  predicate Capped(limits: seq<int>, most: nat) {
    forall i :: 0 <= i < |limits| ==> Quota(limits[i]) <= most
  }

  lemma {:induction false} GrantedAtMost(limits: seq<int>, most: nat)
    requires Capped(limits, most)
    ensures Granted(limits) <= most
    ensures if Tally(limits) < VALUE_BASE then Granted(limits) == 0
            else Granted(limits) <= Tally(limits) - VALUE_BASE + 1
  {
    if limits == [] {
    } else {
      assert Capped(Front(limits), most);
      GrantedAtMost(Front(limits), most);
      TallyCounts(Front(limits));
      assert Quota(Last(limits)) <= most;
    }
  }

  /** With one limit for all of its calls a counter admits exactly the first `Quota` of them. */
  lemma {:induction false} GrantedOfOne(limits: seq<int>, limit: int)
    requires forall i :: 0 <= i < |limits| ==> limits[i] == limit
    ensures Granted(limits) == if |limits| < Quota(limit) then |limits| else Quota(limit)
  {
    if limits == [] {
    } else {
      GrantedOfOne(Front(limits), limit);
      TallyCounts(Front(limits));
      if limit <= -VALUE_BASE + 1 {
        NeverLetIn(Front(limits), limit);
      }
    }
  }

  lemma {:induction false} NeverLetIn(limits: seq<int>, limit: int)
    requires limit <= -VALUE_BASE + 1 && forall i :: 0 <= i < |limits| ==> limits[i] == limit
    ensures Tally(limits) == |limits|
  {
    if limits == [] {
    } else {
      NeverLetIn(Front(limits), limit);
    }
  }

  /**
   What is reported as used is one less than the calls made, refused ones included, exactly when the first of them
   was let in.
   */
  lemma ReportedIsOneShort(calls: seq<Call>, field: string, time: int, span: int)
    requires span > 0 && WellFormed(calls)
    ensures var own, used := OwnLimits(calls, field, RedisKey(time, span)), Reported(RunAll(calls), time, span);
            if own == [] then field !in used
            else field in used && used[field] == |own| - 1 <==> own[0] > -999
  {
    var own := OwnLimits(calls, field, RedisKey(time, span));
    CountsExactly(calls, field, RedisKey(time, span));
    TallyCounts(own);
  }

  // ----- Any stretch of one span -----

  function Within(field: string, span: int, from: int): Call -> bool {
    (c: Call) => c.field == field && c.span == span && from <= c.time < from + span
  }

  lemma {:induction false} Covered(calls: seq<Call>, p: Call -> bool, q: Call -> bool, r: Call -> bool)
    requires WellFormed(calls)
    requires forall c :: p(c) ==> q(c) || r(c)
    ensures Admitted(calls, p) <= Admitted(calls, q) + Admitted(calls, r)
  {
    if calls == [] {
    } else {
      Covered(Front(calls), p, q, r);
    }
  }

  /** No call of the field and span asks for more than this quota. */
  predicate AtMost(calls: seq<Call>, field: string, span: int, most: nat) {
    forall i :: 0 <= i < |calls| && calls[i].field == field && calls[i].span == span ==> Quota(calls[i].limit) <= most
  }

  lemma {:induction false} OwnAreCapped(calls: seq<Call>, field: string, key: Key, most: nat)
    requires AtMost(calls, field, key.span, most)
    ensures Capped(OwnLimits(calls, field, key), most)
  {
    if calls == [] {
    } else {
      assert AtMost(Front(calls), field, key.span, most);
      OwnAreCapped(Front(calls), field, key, most);
    }
  }

  /** Any stretch of one span admits at most twice the greatest quota that a call of the field asks for. */
  lemma TwiceTheLimit(calls: seq<Call>, field: string, span: int, most: nat, from: int)
    requires span > 0 && WellFormed(calls) && AtMost(calls, field, span, most)
    ensures Admitted(calls, Within(field, span, from)) <= 2 * most
    ensures forall slot :: Admitted(calls, On(field, Key(span, slot))) <= most
  {
    var k := RedisKey(from, span);
    var next := Key(span, k.slot + 1);
    forall slot ensures Admitted(calls, On(field, Key(span, slot))) <= most {
      CountsExactly(calls, field, Key(span, slot));
      OwnAreCapped(calls, field, Key(span, slot), most);
      GrantedAtMost(OwnLimits(calls, field, Key(span, slot)), most);
    }
    forall c | Within(field, span, from)(c) ensures On(field, k)(c) || On(field, next)(c) {
      TwoWindows(from, c.time, span);
    }
    Covered(calls, Within(field, span, from), On(field, k), On(field, next));
    assert k == Key(span, k.slot);
  }

  /** `n` calls at one moment. */
  function Burst(field: string, limit: int, span: int, time: int, n: nat): seq<Call> {
    seq(n, _ => Call(field, limit, time, span))
  }

  lemma {:induction false} BurstMade(early: seq<Call>, field: string, limit: int, span: int, time: int, n: nat,
                                     p: Call -> bool)
    ensures Made(early + Burst(field, limit, span, time, n), p) ==
            Made(early, p) + if p(Call(field, limit, time, span)) then n else 0
    decreases n
  {
    if n == 0 {
      assert early + Burst(field, limit, span, time, 0) == early;
    } else {
      var calls := early + Burst(field, limit, span, time, n);
      assert Front(calls) == early + Burst(field, limit, span, time, n - 1);
      assert Last(calls) == Call(field, limit, time, span);
      BurstMade(early, field, limit, span, time, n - 1, p);
    }
  }

  lemma {:induction false} Disjoint(calls: seq<Call>, p: Call -> bool, q: Call -> bool, r: Call -> bool)
    requires WellFormed(calls)
    requires forall i :: 0 <= i < |calls| && (q(calls[i]) || r(calls[i])) ==> p(calls[i])
    requires forall c :: !(q(c) && r(c))
    ensures Admitted(calls, p) >= Admitted(calls, q) + Admitted(calls, r)
  {
    if calls == [] {
    } else {
      assert q(calls[|calls| - 1]) ==> p(calls[|calls| - 1]);
      assert r(calls[|calls| - 1]) ==> p(calls[|calls| - 1]);
      Disjoint(Front(calls), p, q, r);
    }
  }

  /** One burst at the end of a window and one at the beginning of the next. */
  function EdgeBursts(field: string, limit: nat, span: int): (calls: seq<Call>)
    requires span > 0
    ensures WellFormed(calls)
    ensures forall i :: 0 <= i < |calls| ==> calls[i].field == field && calls[i].span == span && calls[i].limit == limit
    ensures forall i :: 0 <= i < |calls| ==> span - 1 <= calls[i].time <= span
  {
    Burst(field, limit, span, span - 1, limit) + Burst(field, limit, span, span, limit)
  }

  lemma EdgeBurstsMade(field: string, limit: nat, span: int, p: Call -> bool)
    requires span > 0
    requires p(Call(field, limit, span - 1, span)) != p(Call(field, limit, span, span))
    ensures Made(EdgeBursts(field, limit, span), p) == limit
  {
    var first := Burst(field, limit, span, span - 1, limit);
    assert [] + first == first;
    BurstMade([], field, limit, span, span - 1, limit, p);
    BurstMade(first, field, limit, span, span, limit, p);
  }

  lemma {:induction false} OwnOfOne(calls: seq<Call>, field: string, key: Key, limit: int)
    requires forall i :: 0 <= i < |calls| ==> calls[i].limit == limit
    ensures forall i :: 0 <= i < |OwnLimits(calls, field, key)| ==> OwnLimits(calls, field, key)[i] == limit
  {
    if calls == [] {
    } else {
      OwnOfOne(Front(calls), field, key, limit);
    }
  }

  lemma EdgeBurstsAdmitted(field: string, limit: nat, span: int, slot: int)
    requires span > 1 && 0 <= slot <= 1
    ensures Admitted(EdgeBursts(field, limit, span), On(field, Key(span, slot))) == limit
  {
    var calls, key := EdgeBursts(field, limit, span), Key(span, slot);
    SlotIsWindow(span - 1, span, 0);
    SlotIsWindow(span, span, 1);
    EdgeBurstsMade(field, limit, span, On(field, key));
    CountsExactly(calls, field, key);
    OwnOfOne(calls, field, key, limit);
    GrantedOfOne(OwnLimits(calls, field, key), limit);
  }

  /** Twice the limit is reached, within one span, at the edge of two windows. */
  lemma TwiceTheLimitIsReached(field: string, limit: nat, span: int)
    requires span > 1 && limit >= 1
    ensures Admitted(EdgeBursts(field, limit, span), Within(field, span, span - 1)) == 2 * limit
  {
    var calls := EdgeBursts(field, limit, span);
    SlotIsWindow(span - 1, span, 0);
    SlotIsWindow(span, span, 1);
    EdgeBurstsAdmitted(field, limit, span, 0);
    EdgeBurstsAdmitted(field, limit, span, 1);
    TwiceTheLimit(calls, field, span, limit, span - 1);
    Disjoint(calls, Within(field, span, span - 1), On(field, Key(span, 0)), On(field, Key(span, 1)));
  }
}
