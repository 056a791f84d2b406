/** The fixed-window rate limiter (backend/internal/redis/rate_limit.go).  Times are
    milliseconds on the store's clock. */
module RateLimit {
  import opened Common

  datatype Entry = Entry(count: int, expireAt: Option<Time>)

  type Store = map<string, Entry>

  /** One call: the key, when it reaches the store, and the caller's limit and window. */
  datatype Hit = Hit(key: string, at: Time, limit: int, window: Time)

  /** Whether a key still exists.  Stores differ on the instant of expiry itself; `edge`
      says it still counts as alive, and every theorem holds both ways. */
  predicate Alive(e: Entry, now: Time, edge: bool) {
    e.expireAt.None? || now < e.expireAt.value || (edge && now == e.expireAt.value)
  }

  function CountAt(s: Store, key: string, now: Time, edge: bool): int {
    if key in s && Alive(s[key], now, edge) then s[key].count else 0
  }

  /** The script: increment, and set the expiry only on the increment that made the
      counter one.  An expiry that is not in the future deletes the key. */
  function After(s: Store, h: Hit, edge: bool): Store {
    var count := CountAt(s, h.key, h.at, edge) + 1;
    if count == 1 then
      if h.window <= 0 then s - {h.key} else s[h.key := Entry(1, Some(h.at + h.window))]
    else s[h.key := s[h.key].(count := count)]
  }

  /** PTTL: minus two for no key, minus one for no expiry. */
  function Remaining(s: Store, key: string, now: Time): int {
    if key !in s then -2
    else if s[key].expireAt.None? then -1
    else if s[key].expireAt.value < now then 0 else s[key].expireAt.value - now
  }

  function IsAllowed(s: Store, h: Hit, edge: bool): bool {
    CountAt(s, h.key, h.at, edge) + 1 <= h.limit
  }

  function RetryAfter(s: Store, h: Hit, edge: bool): Time {
    var ttl := Remaining(After(s, h, edge), h.key, h.at);
    if ttl < 0 then h.window else ttl
  }

  class RateLimiter {
    var store: Store
    const edge: bool

    constructor (edge: bool)
      ensures store == map[] && this.edge == edge
    {
      this.store, this.edge := map[], edge;
    }

    method Allow(h: Hit, link: Link) returns (r: Result<(bool, Time)>)
      modifies this
      ensures store == if Applied(link) then After(old(store), h, edge) else old(store)
      ensures r == if link == Up then Ok((IsAllowed(old(store), h, edge), RetryAfter(old(store), h, edge)))
                   else Err(Internal)
    {
      ghost var before := store;
      if !Applied(link) {
        return Err(Internal);
      }
      if h.key in store && !Alive(store[h.key], h.at, edge) {
        store := store - {h.key};
      }
      var count := 1 + (if h.key in store then store[h.key].count else 0);
      store := store[h.key := Entry(count, if h.key in store then store[h.key].expireAt else None)];
      if count == 1 {
        store := if h.window <= 0 then store - {h.key} else store[h.key := Entry(1, Some(h.at + h.window))];
      }
      assert store == After(before, h, edge);
      var ttl := Remaining(store, h.key, h.at);
      if ttl < 0 {
        ttl := h.window;
      }
      return if link == Up then Ok((count <= h.limit, ttl)) else Err(Internal);
    }
  }

  // ---- Timed runs -------------------------------------------------------------------------------

  ghost predicate InOrder(hits: seq<Hit>) {
    forall i, j :: 0 <= i < j < |hits| ==> hits[i].at <= hits[j].at
  }

  /** Every caller uses one limit and one window for the key. */
  ghost predicate OneRule(hits: seq<Hit>, key: string, limit: int, window: Time) {
    forall i :: 0 <= i < |hits| && hits[i].key == key ==> hits[i].limit == limit && hits[i].window == window
  }

  function AfterAll(s: Store, hits: seq<Hit>, edge: bool): Store
    decreases |hits|
  {
    if |hits| == 0 then s else AfterAll(After(s, hits[0], edge), hits[1..], edge)
  }

  predicate Within(h: Hit, key: string, from: Time, to: Time) {
    h.key == key && from <= h.at < to
  }

  /** Allowed hits of a key in a half-open interval. */
  function AllowedIn(s: Store, hits: seq<Hit>, key: string, from: Time, to: Time, edge: bool): nat
    decreases |hits|
  {
    if |hits| == 0 then 0
    else
      var rest := AllowedIn(After(s, hits[0], edge), hits[1..], key, from, to, edge);
      if Within(hits[0], key, from, to) && IsAllowed(s, hits[0], edge) then rest + 1 else rest
  }

  function HitsIn(hits: seq<Hit>, key: string, from: Time, to: Time): nat {
    if |hits| == 0 then 0 else (if Within(hits[0], key, from, to) then 1 else 0) + HitsIn(hits[1..], key, from, to)
  }

  /** A live counter always has an expiry, at most one window away. */
  ghost predicate Sound(s: Store, key: string, now: Time, window: Time) {
    key in s ==> s[key].count >= 1 && s[key].expireAt.Some? && s[key].expireAt.value <= now + window
  }

  lemma SoundNext(s: Store, hits: seq<Hit>, key: string, limit: int, window: Time, edge: bool)
    requires |hits| > 0 && InOrder(hits) && OneRule(hits, key, limit, window) && window > 0
    requires Sound(s, key, hits[0].at, window)
    ensures InOrder(hits[1..]) && OneRule(hits[1..], key, limit, window)
    ensures Sound(After(s, hits[0], edge), key, hits[0].at, window)
    ensures |hits| > 1 ==> Sound(After(s, hits[0], edge), key, hits[1].at, window)
    ensures hits[0].key != key && key in s ==> key in After(s, hits[0], edge) && After(s, hits[0], edge)[key] == s[key]
    ensures hits[0].key != key && key !in s ==> key !in After(s, hits[0], edge)
  {}

  function Left(s: Store, key: string, limit: int): nat {
    if key in s && limit > s[key].count then limit - s[key].count else 0
  }

  lemma {:induction false} NothingAfter(s: Store, hits: seq<Hit>, key: string, from: Time, to: Time, edge: bool)
    requires InOrder(hits) && (|hits| > 0 ==> hits[0].at >= to)
    ensures AllowedIn(s, hits, key, from, to, edge) == 0
    decreases |hits|
  {
    if |hits| > 0 {
      NothingAfter(After(s, hits[0], edge), hits[1..], key, from, to, edge);
    }
  }

  /** While one window covers the rest of the interval, only what is left of its limit can
      still be allowed. */
  lemma {:induction false} CoveringWindow(s: Store, hits: seq<Hit>, key: string, limit: int, window: Time,
                                          from: Time, to: Time, edge: bool)
    requires InOrder(hits) && OneRule(hits, key, limit, window) && window > 0
    requires |hits| > 0 ==> Sound(s, key, hits[0].at, window)
    requires key in s && s[key].count >= 1 && s[key].expireAt.Some? && s[key].expireAt.value >= to
    ensures AllowedIn(s, hits, key, from, to, edge) <= Left(s, key, limit)
    decreases |hits|
  {
    if |hits| > 0 {
      if hits[0].at >= to {
        NothingAfter(s, hits, key, from, to, edge);
      } else {
        SoundNext(s, hits, key, limit, window, edge);
        CoveringWindow(After(s, hits[0], edge), hits[1..], key, limit, window, from, to, edge);
      }
    }
  }

  lemma {:induction false} InsideInterval(s: Store, hits: seq<Hit>, key: string, limit: int, window: Time,
                                          from: Time, edge: bool)
    requires InOrder(hits) && OneRule(hits, key, limit, window) && window > 0 && limit >= 0
    requires |hits| > 0 ==> Sound(s, key, hits[0].at, window) && hits[0].at >= from
    requires key in s ==> s[key].count >= 1 && s[key].expireAt.Some?
    ensures AllowedIn(s, hits, key, from, from + window, edge) <= Left(s, key, limit) + limit
    decreases |hits|
  {
    if |hits| > 0 {
      var s' := After(s, hits[0], edge);
      SoundNext(s, hits, key, limit, window, edge);
      if hits[0].key == key && CountAt(s, key, hits[0].at, edge) == 0 {
        CoveringWindow(s', hits[1..], key, limit, window, from, from + window, edge);
      } else {
        InsideInterval(s', hits[1..], key, limit, window, from, edge);
      }
    }
  }

  /** The rate bound: whatever arrives, on this key and any others, no stretch of time one
      window long contains twice the limit of allowed hits; a window opens with a hit, so
      the hits one window leaves for the start of the stretch are at least one short. */
  lemma {:induction false} RateBound(s: Store, hits: seq<Hit>, key: string, limit: int, window: Time,
                                     from: Time, edge: bool)
    requires InOrder(hits) && OneRule(hits, key, limit, window) && window > 0 && limit >= 0
    requires |hits| > 0 ==> Sound(s, key, hits[0].at, window)
    requires key in s ==> s[key].count >= 1 && s[key].expireAt.Some?
    ensures AllowedIn(s, hits, key, from, from + window, edge) <= if limit == 0 then 0 else 2 * limit - 1
    decreases |hits|
  {
    if |hits| > 0 {
      if hits[0].at >= from {
        InsideInterval(s, hits, key, limit, window, from, edge);
      } else {
        SoundNext(s, hits, key, limit, window, edge);
        RateBound(After(s, hits[0], edge), hits[1..], key, limit, window, from, edge);
      }
    }
  }

  // ---- What one window allows, and that the bound is reached ---------------------------------------

  /** The instants at which a key that expires at `t` has not expired. */
  function End(t: Time, edge: bool): Time {
    if edge then t + 1 else t
  }

  function Min(a: int, b: int): int {
    if a <= b then a else b
  }

  lemma {:induction false} RestOfWindow(s: Store, hits: seq<Hit>, key: string, limit: int, window: Time, expiry: Time,
                                        from: Time, to: Time, edge: bool)
    requires OneRule(hits, key, limit, window)
    requires key in s && s[key].count >= 1 && s[key].expireAt == Some(expiry)
    requires forall i :: 0 <= i < |hits| ==> from <= hits[i].at < to && hits[i].at < End(expiry, edge)
    ensures AllowedIn(s, hits, key, from, to, edge) == Min(HitsIn(hits, key, from, to), Left(s, key, limit))
    decreases |hits|
  {
    if |hits| > 0 {
      RestOfWindow(After(s, hits[0], edge), hits[1..], key, limit, window, expiry, from, to, edge);
    }
  }

  /** Of the hits of one window, the one that opens it included, exactly the first `limit`
      are allowed. */
  lemma WindowAllowsExactly(s: Store, hits: seq<Hit>, key: string, limit: int, window: Time,
                            from: Time, to: Time, edge: bool)
    requires OneRule(hits, key, limit, window) && window > 0
    requires |hits| > 0 && hits[0].key == key && CountAt(s, key, hits[0].at, edge) == 0
    requires forall i :: 0 <= i < |hits| ==> from <= hits[i].at < to && hits[i].at < End(hits[0].at + window, edge)
    ensures AllowedIn(s, hits, key, from, to, edge)
         == Min(HitsIn(hits, key, from, to), if limit > 0 then limit else 0)
  {
    RestOfWindow(After(s, hits[0], edge), hits[1..], key, limit, window, hits[0].at + window, from, to, edge);
  }

  lemma {:induction false} AllowedInTwoParts(s: Store, a: seq<Hit>, b: seq<Hit>, key: string, from: Time, to: Time,
                                             edge: bool)
    ensures AllowedIn(s, a + b, key, from, to, edge)
         == AllowedIn(s, a, key, from, to, edge) + AllowedIn(AfterAll(s, a, edge), b, key, from, to, edge)
    decreases |a|
  {
    if a == [] {
      assert a + b == b;
    } else {
      AllowedInTwoParts(After(s, a[0], edge), a[1..], b, key, from, to, edge);
      assert (a + b)[1..] == a[1..] + b;
    }
  }

  function Burst(h: Hit, n: nat): seq<Hit> {
    seq(n, _ => h)
  }

  lemma {:induction false} HitsInBurst(h: Hit, n: nat, from: Time, to: Time)
    requires from <= h.at < to
    ensures HitsIn(Burst(h, n), h.key, from, to) == n
  {
    if n > 0 {
      HitsInBurst(h, n - 1, from, to);
      assert Burst(h, n)[1..] == Burst(h, n - 1);
    }
  }

  /** The traffic that reaches the bound: one hit opens a window, the rest of its limit
      comes at its last instant, and a full limit at the instant after. */
  function Extreme(key: string, limit: int, window: Time, edge: bool): seq<Hit>
    requires limit >= 1
  {
    var end := End(window, edge);
    [Hit(key, 0, limit, window)] + (Burst(Hit(key, end - 1, limit, window), limit - 1)
                                    + Burst(Hit(key, end, limit, window), limit))
  }

  lemma FirstHitBefore(h: Hit, from: Time, to: Time, edge: bool)
    requires h.at < from && h.window > 0
    ensures AllowedIn(map[], [h], h.key, from, to, edge) == 0
    ensures AfterAll(map[], [h], edge) == map[h.key := Entry(1, Some(h.at + h.window))]
  {
    assert After(map[], h, edge) == map[h.key := Entry(1, Some(h.at + h.window))];
  }

  lemma LastInstant(s: Store, h: Hit, n: nat, window: Time, edge: bool)
    requires h.key in s && s[h.key] == Entry(1, Some(window)) && h.at == End(window, edge) - 1 && window >= 2
    requires h.limit == n + 1
    ensures AllowedIn(s, Burst(h, n), h.key, h.at, h.at + window, edge) == n
    ensures h.key in AfterAll(s, Burst(h, n), edge) && AfterAll(s, Burst(h, n), edge)[h.key].expireAt == Some(window)
  {
    RestOfWindow(s, Burst(h, n), h.key, h.limit, h.window, window, h.at, h.at + window, edge);
    HitsInBurst(h, n, h.at, h.at + window);
    ExpiryStays(s, Burst(h, n), h.key, window, edge);
  }

  lemma InstantAfter(s: Store, h: Hit, window: Time, edge: bool)
    requires h.key in s && s[h.key].expireAt == Some(window) && h.at == End(window, edge)
    requires window >= 2 && h.window == window && h.limit >= 1
    ensures AllowedIn(s, Burst(h, h.limit), h.key, h.at - 1, h.at - 1 + window, edge) == h.limit
  {
    WindowAllowsExactly(s, Burst(h, h.limit), h.key, h.limit, window, h.at - 1, h.at - 1 + window, edge);
    HitsInBurst(h, h.limit, h.at - 1, h.at - 1 + window);
  }

  lemma ExtremeIsLegal(key: string, limit: int, window: Time, edge: bool)
    requires limit >= 1 && window >= 2
    ensures InOrder(Extreme(key, limit, window, edge)) && OneRule(Extreme(key, limit, window, edge), key, limit, window)
  {}

  lemma ExtremeAllows(key: string, limit: int, window: Time, edge: bool)
    requires limit >= 1 && window >= 2
    ensures var hits, from := Extreme(key, limit, window, edge), End(window, edge) - 1;
            AllowedIn(map[], hits, key, from, from + window, edge) == 2 * limit - 1
  {
    var end := End(window, edge);
    var first, last, next := Hit(key, 0, limit, window), Hit(key, end - 1, limit, window), Hit(key, end, limit, window);
    var lasts, nexts := Burst(last, limit - 1), Burst(next, limit);
    var from, to := end - 1, end - 1 + window;
    AllowedInTwoParts(map[], [first], lasts + nexts, key, from, to, edge);
    var begun := AfterAll(map[], [first], edge);
    FirstHitBefore(first, from, to, edge);
    AllowedInTwoParts(begun, lasts, nexts, key, from, to, edge);
    LastInstant(begun, last, limit - 1, window, edge);
    InstantAfter(AfterAll(begun, lasts, edge), next, window, edge);
  }

  /** The bound is reached, whatever the limit and for every window in which a second hit
      can come later than the first. */
  lemma RateBoundIsTight(key: string, limit: int, window: Time, edge: bool)
    requires limit >= 1 && window >= 2
    ensures var hits, from := Extreme(key, limit, window, edge), End(window, edge) - 1;
            && InOrder(hits) && OneRule(hits, key, limit, window)
            && AllowedIn(map[], hits, key, from, from + window, edge) == 2 * limit - 1
  {
    ExtremeIsLegal(key, limit, window, edge);
    ExtremeAllows(key, limit, window, edge);
  }

  /** No permanent ban.  After a refusal with remaining time r, and whatever arrives while
      the key lives, the first hit that finds it expired is allowed; it has expired by
      r later (one tick more for a store that keeps the instant of expiry), and r is
      never more than the window. */
  lemma NoPermanentBan(s: Store, refused: Hit, between: seq<Hit>, next: Hit, window: Time, edge: bool)
    requires window > 0 && refused.window == window && Sound(s, refused.key, refused.at, window)
    requires !IsAllowed(s, refused, edge) && refused.limit >= 1
    requires forall i :: 0 <= i < |between| && between[i].key == refused.key ==>
      between[i].at < End(refused.at + RetryAfter(s, refused, edge), edge)
    requires next.key == refused.key && next.limit >= 1
    requires next.at >= End(refused.at + RetryAfter(s, refused, edge), edge)
    ensures IsAllowed(AfterAll(After(s, refused, edge), between, edge), next, edge)
    ensures 0 <= RetryAfter(s, refused, edge) <= window
  {
    AnswerTellsExpiry(s, refused, window, edge);
    ExpiryStays(After(s, refused, edge), between, refused.key, refused.at + RetryAfter(s, refused, edge), edge);
  }

  /** The time reported with a verdict, allowed or refused, is when the window ends. */
  lemma AnswerTellsExpiry(s: Store, h: Hit, window: Time, edge: bool)
    requires window > 0 && h.window == window && Sound(s, h.key, h.at, window)
    ensures var s' := After(s, h, edge);
            && h.key in s' && s'[h.key].count == CountAt(s, h.key, h.at, edge) + 1
            && s'[h.key].expireAt == Some(h.at + RetryAfter(s, h, edge))
    ensures 0 <= RetryAfter(s, h, edge) <= window
    ensures CountAt(s, h.key, h.at, edge) == 0 ==> RetryAfter(s, h, edge) == window
  {}

  lemma {:induction false} ExpiryStays(s: Store, hits: seq<Hit>, key: string, expiry: Time, edge: bool)
    requires key in s && s[key].count >= 1 && s[key].expireAt == Some(expiry)
    requires forall i :: 0 <= i < |hits| && hits[i].key == key ==> hits[i].at < End(expiry, edge)
    ensures key in AfterAll(s, hits, edge) && AfterAll(s, hits, edge)[key].expireAt == Some(expiry)
    decreases |hits|
  {
    if |hits| > 0 {
      ExpiryStays(After(s, hits[0], edge), hits[1..], key, expiry, edge);
    }
  }

  /** A live counter has an expiry after every run that started without one. */
  lemma {:induction false} LiveCountersExpire(s: Store, hits: seq<Hit>, key: string, limit: int, window: Time,
                                              now: Time, edge: bool)
    requires InOrder(hits) && OneRule(hits, key, limit, window) && window > 0
    requires Sound(s, key, now, window)
    requires forall i :: 0 <= i < |hits| ==> now <= hits[i].at
    ensures Sound(AfterAll(s, hits, edge), key, if |hits| == 0 then now else hits[|hits| - 1].at, window)
    decreases |hits|
  {
    if |hits| > 0 {
      SoundNext(s, hits, key, limit, window, edge);
      LiveCountersExpire(After(s, hits[0], edge), hits[1..], key, limit, window, hits[0].at, edge);
    }
  }

  /** A window that is not positive limits nothing: every hit is a first hit. */
  lemma {:induction false} NoWindowNoLimit(s: Store, hits: seq<Hit>, key: string, limit: int, window: Time,
                                           from: Time, to: Time, edge: bool)
    requires OneRule(hits, key, limit, window) && window <= 0 && limit >= 1 && key !in s
    ensures AllowedIn(s, hits, key, from, to, edge) == HitsIn(hits, key, from, to)
    decreases |hits|
  {
    if |hits| > 0 {
      NoWindowNoLimit(After(s, hits[0], edge), hits[1..], key, limit, window, from, to, edge);
    }
  }
}
