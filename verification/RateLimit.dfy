/** The login rate limiter: fixed windows per key, counted from the first attempt of each window. */
module RateLimit {
  datatype Bucket = Bucket(count: int, resetAt: int)

  type Buckets = map<string, Bucket>

  datatype Limits = Limits(limit: int, window: int)

  predicate Sane(l: Limits) { l.limit >= 1 && l.window >= 1 }

  function Allow(l: Limits, m: Buckets, key: string, now: int): (Buckets, bool) {
    if key !in m || now > m[key].resetAt then (m[key := Bucket(1, now + l.window)], true)
    else if m[key].count >= l.limit then (m, false)
    else (m[key := m[key].(count := m[key].count + 1)], true)
  }

  /** Drops the buckets whose window is over. */
  function Collect(m: Buckets, now: int): Buckets {
    map key <- m | now <= m[key].resetAt :: m[key]
  }

  const ONE_MINUTE: int := 60_000_000_000

  class LoginLimiter {
    const limits: Limits
    var buckets: Buckets

    constructor (perMinute: int)
      ensures Sane(limits) && limits.window == ONE_MINUTE && buckets == map[]
      ensures limits.limit == if perMinute <= 0 then 10 else perMinute
    {
      limits := Limits(if perMinute <= 0 then 10 else perMinute, ONE_MINUTE);
      buckets := map[];
    }

    method Attempt(key: string, now: int) returns (ok: bool)
      modifies this
      ensures (buckets, ok) == Allow(limits, old(buckets), key, now)
    {
      if key !in buckets || now > buckets[key].resetAt {
        buckets := buckets[key := Bucket(1, now + limits.window)];
        return true;
      }
      if buckets[key].count >= limits.limit {
        return false;
      }
      buckets := buckets[key := Bucket(buckets[key].count + 1, buckets[key].resetAt)];
      return true;
    }

    method Gc(now: int)
      modifies this
      ensures buckets == Collect(old(buckets), now)
      ensures forall key :: key in buckets <==> key in old(buckets) && now <= old(buckets)[key].resetAt
    {
      var todo := buckets.Keys;
      while todo != {}
        invariant todo <= buckets.Keys <= old(buckets).Keys
        invariant forall key <- buckets :: buckets[key] == old(buckets)[key]
        invariant forall key <- old(buckets) :: key in buckets || now > old(buckets)[key].resetAt
        invariant forall key <- buckets :: key in todo || now <= buckets[key].resetAt
        decreases todo
      {
        var key :| key in todo;
        if now > buckets[key].resetAt {
          buckets := buckets - {key};
        }
        todo := todo - {key};
      }
    }
  }

  // ---- histories ----

  datatype Event = Ask(key: string, at: int) | Tick(at: int)

  /** The clock does not run backwards. */
  predicate InOrder(events: seq<Event>, from: int)
    decreases |events|
  {
    events == [] || (from <= events[0].at && InOrder(events[1..], events[0].at))
  }

  datatype Admission = Admission(key: string, at: int)

  /** The attempts that are let through. */
  function Admitted(l: Limits, m: Buckets, events: seq<Event>): seq<Admission>
    decreases |events|
  {
    if events == [] then []
    else
      match events[0]
      case Tick(now) => Admitted(l, Collect(m, now), events[1..])
      case Ask(key, now) =>
        var (m', ok) := Allow(l, m, key, now);
        (if ok then [Admission(key, now)] else []) + Admitted(l, m', events[1..])
  }

  /** How many of a key's attempts were let through from `lo` to `hi`, both included. */
  function CountIn(a: seq<Admission>, key: string, lo: int, hi: int): nat
    decreases |a|
  {
    if a == [] then 0
    else (if a[0].key == key && lo <= a[0].at <= hi then 1 else 0) + CountIn(a[1..], key, lo, hi)
  }

  function AsksOnly(events: seq<Event>): seq<Event>
    decreases |events|
  {
    if events == [] then []
    else (if events[0].Ask? then [events[0]] else []) + AsksOnly(events[1..])
  }

  // ---- collecting is invisible ----

  /** `m` has lost only buckets of `full` that were over before `now`. */
  ghost predicate Collected(m: Buckets, full: Buckets, now: int) {
    && (forall key <- m :: key in full && full[key] == m[key])
    && (forall key <- full :: key in m || full[key].resetAt < now)
  }

  lemma AllowAlike(l: Limits, m: Buckets, full: Buckets, key: string, from: int, now: int)
    requires Collected(m, full, from) && from <= now
    ensures Allow(l, m, key, now).1 == Allow(l, full, key, now).1
    ensures Collected(Allow(l, m, key, now).0, Allow(l, full, key, now).0, now)
  {
  }

  lemma CollectAlike(m: Buckets, full: Buckets, from: int, now: int)
    requires Collected(m, full, from) && from <= now
    ensures Collected(Collect(m, now), full, now)
  {
  }

  lemma {:induction false} CollectedAdmitsTheSame(l: Limits, m: Buckets, full: Buckets, from: int, events: seq<Event>)
    requires Collected(m, full, from) && InOrder(events, from)
    ensures Admitted(l, m, events) == Admitted(l, full, AsksOnly(events))
    decreases |events|
  {
    if events == [] {
    } else {
      var now, rest := events[0].at, AsksOnly(events[1..]);
      match events[0]
      case Tick(_) =>
        CollectAlike(m, full, from, now);
        CollectedAdmitsTheSame(l, Collect(m, now), full, now, events[1..]);
        assert AsksOnly(events) == rest;
      case Ask(key, _) =>
        AllowAlike(l, m, full, key, from, now);
        CollectedAdmitsTheSame(l, Allow(l, m, key, now).0, Allow(l, full, key, now).0, now, events[1..]);
        assert AsksOnly(events) == [events[0]] + rest && ([events[0]] + rest)[1..] == rest;
    }
  }

  /** Whenever old buckets are collected, every attempt is answered as if they never were. */
  lemma CollectingIsInvisible(l: Limits, from: int, events: seq<Event>)
    requires InOrder(events, from)
    ensures Admitted(l, map[], events) == Admitted(l, map[], AsksOnly(events))
  {
    CollectedAdmitsTheSame(l, map[], map[], from, events);
  }

  // ---- how many attempts get through ----

  /** After `n` admissions of `key` within `[x, x + window]`, at time `now`: before the interval's own
      bucket at most the attempts of one that began earlier, less its first, have counted. */
  predicate Budget(l: Limits, m: Buckets, key: string, x: int, now: int, n: nat) {
    && (now < x ==> n == 0)
    && if key !in m then n == 0
       else
         var b, start := m[key], m[key].resetAt - l.window;
         && 1 <= b.count <= l.limit && start <= now
         && (if start < x then n <= b.count - 1
             else if start <= x + l.window then n <= l.limit - 1 + b.count
             else n <= 2 * l.limit - 1)
  }

  lemma BudgetStep(l: Limits, m: Buckets, key: string, x: int, from: int, n: nat, asked: string, now: int)
    requires Sane(l) && Budget(l, m, key, x, from, n) && from <= now
    ensures var (m', ok) := Allow(l, m, asked, now);
            Budget(l, m', key, x, now, n + if ok && asked == key && x <= now <= x + l.window then 1 else 0)
  {
  }

  lemma {:induction false} BudgetHolds(l: Limits, m: Buckets, key: string, x: int, from: int, n: nat,
                                       events: seq<Event>)
    requires Sane(l) && Budget(l, m, key, x, from, n) && InOrder(events, from)
    requires forall e <- events :: e.Ask?
    ensures n + CountIn(Admitted(l, m, events), key, x, x + l.window) <= 2 * l.limit - 1
    decreases |events|
  {
    if events == [] {
    } else {
      var asked, now := events[0].key, events[0].at;
      var (m', ok) := Allow(l, m, asked, now);
      BudgetStep(l, m, key, x, from, n, asked, now);
      var one := if ok && asked == key && x <= now <= x + l.window then 1 else 0;
      BudgetHolds(l, m', key, x, now, n + one, events[1..]);
      var rest := Admitted(l, m', events[1..]);
      assert ([Admission(asked, now)] + rest)[1..] == rest;
      assert Admitted(l, m, events) == if ok then [Admission(asked, now)] + rest else rest;
    }
  }

  lemma {:induction false} AsksStayInOrder(events: seq<Event>, from: int, earlier: int)
    requires InOrder(events, from) && earlier <= from
    ensures InOrder(AsksOnly(events), earlier)
    ensures forall e <- AsksOnly(events) :: e.Ask?
    decreases |events|
  {
    if events == [] {
    } else {
      var rest := AsksOnly(events[1..]);
      if events[0].Ask? {
        AsksStayInOrder(events[1..], events[0].at, events[0].at);
        assert AsksOnly(events)[1..] == rest;
      } else {
        AsksStayInOrder(events[1..], events[0].at, earlier);
        assert AsksOnly(events) == rest;
      }
    }
  }

  /** In no stretch of time of one window's length do more than `2 * limit - 1` attempts of a key get
      through, however attempts and collections are spread. */
  lemma AdmissionsAreBounded(l: Limits, from: int, events: seq<Event>, key: string, x: int)
    requires Sane(l) && InOrder(events, from)
    ensures CountIn(Admitted(l, map[], events), key, x, x + l.window) <= 2 * l.limit - 1
  {
    CollectingIsInvisible(l, from, events);
    AsksStayInOrder(events, from, from);
    BudgetHolds(l, map[], key, x, from, 0, AsksOnly(events));
  }

  // ---- the bound is met ----

  function Repeat(key: string, at: int, n: nat): seq<Event> {
    if n == 0 then [] else [Ask(key, at)] + Repeat(key, at, n - 1)
  }

  /** An attempt that the bucket has room for. */
  lemma NextAsk(l: Limits, m: Buckets, key: string, at: int, later: seq<Event>, lo: int, hi: int)
    requires key in m && at <= m[key].resetAt && m[key].count < l.limit && lo <= at <= hi
    ensures CountIn(Admitted(l, m, [Ask(key, at)] + later), key, lo, hi)
            == 1 + CountIn(Admitted(l, m[key := m[key].(count := m[key].count + 1)], later), key, lo, hi)
  {
    var events := [Ask(key, at)] + later;
    assert events[1..] == later;
    var rest := Admitted(l, m[key := m[key].(count := m[key].count + 1)], later);
    assert Admitted(l, m, events) == [Admission(key, at)] + rest && ([Admission(key, at)] + rest)[1..] == rest;
  }

  /** `n` attempts at one moment that the bucket has room for all get through. */
  lemma {:induction false} RoomForAll(l: Limits, m: Buckets, key: string, at: int, n: nat, later: seq<Event>,
                                      lo: int, hi: int)
    requires key in m && at <= m[key].resetAt && m[key].count + n <= l.limit && lo <= at <= hi
    ensures CountIn(Admitted(l, m, Repeat(key, at, n) + later), key, lo, hi)
            == n + CountIn(Admitted(l, m[key := m[key].(count := m[key].count + n)], later), key, lo, hi)
    decreases n
  {
    hide Admitted, CountIn;
    if n == 0 {
      assert Repeat(key, at, 0) + later == later && m[key := m[key].(count := m[key].count + 0)] == m;
    } else {
      var m' := m[key := m[key].(count := m[key].count + 1)];
      NextAsk(l, m, key, at, Repeat(key, at, n - 1) + later, lo, hi);
      RoomForAll(l, m', key, at, n - 1, later, lo, hi);
      assert Repeat(key, at, n) + later == [Ask(key, at)] + (Repeat(key, at, n - 1) + later);
      assert m'[key := m'[key].(count := m'[key].count + (n - 1))] == m[key := m[key].(count := m[key].count + n)];
    }
  }

  lemma AskInOrder(key: string, at: int, later: seq<Event>, from: int)
    requires from <= at && InOrder(later, at)
    ensures InOrder([Ask(key, at)] + later, from)
  {
    assert ([Ask(key, at)] + later)[1..] == later;
  }

  lemma {:induction false} RepeatInOrder(key: string, at: int, n: nat, later: seq<Event>, from: int)
    requires from <= at && InOrder(later, at)
    ensures InOrder(Repeat(key, at, n) + later, from)
    decreases n
  {
    hide InOrder;
    if n == 0 {
      assert Repeat(key, at, 0) + later == later;
      EarlierInOrder(later, at, from);
    } else {
      RepeatInOrder(key, at, n - 1, later, at);
      AskInOrder(key, at, Repeat(key, at, n - 1) + later, from);
      assert Repeat(key, at, n) + later == [Ask(key, at)] + (Repeat(key, at, n - 1) + later);
    }
  }

  lemma EarlierInOrder(events: seq<Event>, at: int, from: int)
    requires from <= at && InOrder(events, at)
    ensures InOrder(events, from)
  {
  }

  /** One attempt, the rest of its limit just before its window ends, and a full limit just after. */
  function Burst(l: Limits, key: string): seq<Event>
    requires Sane(l)
  {
    [Ask(key, 0)]
    + (Repeat(key, l.window, l.limit - 1)
       + ([Ask(key, l.window + 1)] + (Repeat(key, l.window + 1, l.limit - 1) + [])))
  }

  lemma BurstInOrder(l: Limits, key: string)
    requires Sane(l)
    ensures InOrder(Burst(l, key), 0)
  {
    hide Repeat;
    var w := l.window;
    var fourth := Repeat(key, w + 1, l.limit - 1) + [];
    var third := [Ask(key, w + 1)] + fourth;
    var second := Repeat(key, w, l.limit - 1) + third;
    assert third[1..] == fourth && ([Ask(key, 0)] + second)[1..] == second;
    RepeatInOrder(key, w + 1, l.limit - 1, [], w + 1);
    RepeatInOrder(key, w, l.limit - 1, third, 0);
  }

  lemma NothingCounted(l: Limits, m: Buckets, key: string, lo: int, hi: int)
    ensures CountIn(Admitted(l, m, []), key, lo, hi) == 0
  {
  }

  /** The bound cannot be lowered: this history lets exactly that many through in one window's length. */
  lemma BoundIsMet(l: Limits, key: string)
    requires Sane(l)
    ensures InOrder(Burst(l, key), 0)
    ensures CountIn(Admitted(l, map[], Burst(l, key)), key, l.window, l.window + l.window) == 2 * l.limit - 1
  {
    hide Admitted, CountIn, Repeat, InOrder;
    var w := l.window;
    var fourth := Repeat(key, w + 1, l.limit - 1) + [];
    var third := [Ask(key, w + 1)] + fourth;
    var second := Repeat(key, w, l.limit - 1) + third;
    BurstInOrder(l, key);
    var m0: Buckets := map[];
    FirstAsk(l, m0, key, 0, second, w, w + w);
    var m1 := m0[key := Bucket(1, 0 + w)];
    RoomForAll(l, m1, key, w, l.limit - 1, third, w, w + w);
    var m2 := m1[key := m1[key].(count := m1[key].count + (l.limit - 1))];
    FirstAsk(l, m2, key, w + 1, fourth, w, w + w);
    var m3 := m2[key := Bucket(1, w + 1 + w)];
    RoomForAll(l, m3, key, w + 1, l.limit - 1, [], w, w + w);
    NothingCounted(l, m3[key := m3[key].(count := m3[key].count + (l.limit - 1))], key, w, w + w);
  }

  /** An attempt that opens a window. */
  lemma FirstAsk(l: Limits, m: Buckets, key: string, at: int, later: seq<Event>, lo: int, hi: int)
    requires key !in m || at > m[key].resetAt
    ensures CountIn(Admitted(l, m, [Ask(key, at)] + later), key, lo, hi)
            == (if lo <= at <= hi then 1 else 0)
               + CountIn(Admitted(l, m[key := Bucket(1, at + l.window)], later), key, lo, hi)
  {
    var events := [Ask(key, at)] + later;
    assert events[1..] == later;
    var rest := Admitted(l, m[key := Bucket(1, at + l.window)], later);
    assert Admitted(l, m, events) == [Admission(key, at)] + rest && ([Admission(key, at)] + rest)[1..] == rest;
  }

  // ---- refusals are earned ----

  /** The buckets after a history. */
  function After(l: Limits, m: Buckets, events: seq<Event>): Buckets
    decreases |events|
  {
    if events == [] then m
    else
      match events[0]
      case Tick(now) => After(l, Collect(m, now), events[1..])
      case Ask(key, now) => After(l, Allow(l, m, key, now).0, events[1..])
  }

  lemma {:induction false} CountAppend(a: seq<Admission>, b: seq<Admission>, key: string, lo: int, hi: int)
    ensures CountIn(a + b, key, lo, hi) == CountIn(a, key, lo, hi) + CountIn(b, key, lo, hi)
    decreases |a|
  {
    if a == [] {
      assert a + b == b;
    } else {
      assert (a + b)[1..] == a[1..] + b;
      CountAppend(a[1..], b, key, lo, hi);
    }
  }

  lemma {:induction false} LaterCounts(a: seq<Admission>, key: string, lo: int, hi: int, later: int)
    requires hi <= later
    ensures CountIn(a, key, lo, later) >= CountIn(a, key, lo, hi)
    decreases |a|
  {
    if a != [] {
      LaterCounts(a[1..], key, lo, hi, later);
    }
  }

  /** Each bucket stands for that many admissions of its key since its window began. */
  ghost predicate Backed(l: Limits, m: Buckets, past: seq<Admission>, now: int) {
    forall key <- m ::
      m[key].resetAt - l.window <= now && m[key].count <= CountIn(past, key, m[key].resetAt - l.window, now)
  }

  lemma BackedStep(l: Limits, m: Buckets, past: seq<Admission>, from: int, asked: string, now: int)
    requires Sane(l) && Backed(l, m, past, from) && from <= now
    ensures var (m', ok) := Allow(l, m, asked, now);
            Backed(l, m', past + (if ok then [Admission(asked, now)] else []), now)
  {
    var (m', ok) := Allow(l, m, asked, now);
    var more := if ok then [Admission(asked, now)] else [];
    forall key <- m'
      ensures m'[key].resetAt - l.window <= now
      ensures m'[key].count <= CountIn(past + more, key, m'[key].resetAt - l.window, now)
    {
      var start := m'[key].resetAt - l.window;
      CountAppend(past, more, key, start, now);
      LaterCounts(past, key, start, from, now);
      assert more != [] ==> more[1..] == [];
    }
  }

  lemma BackedLater(l: Limits, m: Buckets, past: seq<Admission>, from: int, now: int)
    requires Backed(l, m, past, from) && from <= now
    ensures Backed(l, Collect(m, now), past, now)
  {
    forall key <- Collect(m, now)
      ensures m[key].count <= CountIn(past, key, m[key].resetAt - l.window, now)
    {
      LaterCounts(past, key, m[key].resetAt - l.window, from, now);
    }
  }

  lemma {:induction false} HistoryBacks(l: Limits, m: Buckets, past: seq<Admission>, from: int, events: seq<Event>)
    returns (last: int)
    requires Sane(l) && Backed(l, m, past, from) && InOrder(events, from)
    ensures Backed(l, After(l, m, events), past + Admitted(l, m, events), last)
    ensures last == if events == [] then from else events[|events| - 1].at
    decreases |events|
  {
    if events == [] {
      assert past + [] == past;
      last := from;
    } else {
      var now := events[0].at;
      match events[0]
      case Tick(_) =>
        BackedLater(l, m, past, from, now);
        last := HistoryBacks(l, Collect(m, now), past, now, events[1..]);
      case Ask(key, _) =>
        var (m', ok) := Allow(l, m, key, now);
        var more := if ok then [Admission(key, now)] else [];
        BackedStep(l, m, past, from, key, now);
        last := HistoryBacks(l, m', past + more, now, events[1..]);
        assert past + more + Admitted(l, m', events[1..]) == past + (more + Admitted(l, m', events[1..]));
      assert events[1..] != [] ==> events[1..][|events[1..]| - 1] == events[|events| - 1];
    }
  }

  lemma {:induction false} InOrderEnds(events: seq<Event>, from: int, e: Event)
    requires InOrder(events + [e], from)
    ensures InOrder(events, from) && (if events == [] then from else events[|events| - 1].at) <= e.at
    decreases |events|
  {
    var all := events + [e];
    if events != [] {
      assert all[1..] == events[1..] + [e];
      InOrderEnds(events[1..], events[0].at, e);
      assert events[1..] != [] ==> events[1..][|events[1..]| - 1] == events[|events| - 1];
    }
  }

  /** An attempt is refused only when the full limit of attempts of that same key were let through within one window's
      length before it; so attempts of other keys, and of older windows, never count against it. */
  lemma RefusalsAreEarned(l: Limits, from: int, events: seq<Event>, key: string, at: int)
    requires Sane(l) && InOrder(events + [Ask(key, at)], from)
    ensures !Allow(l, After(l, map[], events), key, at).1 ==>
              CountIn(Admitted(l, map[], events), key, at - l.window, at) >= l.limit
  {
    InOrderEnds(events, from, Ask(key, at));
    var last := HistoryBacks(l, map[], [], from, events);
    var m := After(l, map[], events);
    assert [] + Admitted(l, map[], events) == Admitted(l, map[], events);
    if !Allow(l, m, key, at).1 {
      var start := m[key].resetAt - l.window;
      LaterCounts(Admitted(l, map[], events), key, start, last, at);
      EarlierCounts(Admitted(l, map[], events), key, start, at - l.window, at);
    }
  }

  lemma {:induction false} EarlierCounts(a: seq<Admission>, key: string, lo: int, earlier: int, hi: int)
    requires earlier <= lo
    ensures CountIn(a, key, earlier, hi) >= CountIn(a, key, lo, hi)
    decreases |a|
  {
    if a != [] {
      EarlierCounts(a[1..], key, lo, earlier, hi);
    }
  }
}
