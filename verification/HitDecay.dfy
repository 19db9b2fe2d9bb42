/** How hit counts grow and decay over any run of hits and resets (ociclient/cache/filesystem.go, Hit and Reset). */
module HitDecay {
  import opened Common
  import opened CachePriority
  import opened CacheFilesystem

  datatype Event = Hitting | Resetting

  /** What one event does to an entry of the index. */
  function After(e: IndexEntry, event: Event): IndexEntry
    requires e.hitsSinceLastReset <= e.hits
  {
    match event
    case Hitting => Hit(Fs(0, {}, map[e.name := e], 0, 0), e.name).index[e.name]
    case Resetting => ResetEntry(e)
  }

  function Replay(e: IndexEntry, events: seq<Event>): (r: IndexEntry)
    requires e.hitsSinceLastReset <= e.hits
    ensures r.hitsSinceLastReset <= r.hits
  {
    if events == [] then e else After(Replay(e, events[..|events| - 1]), events[|events| - 1])
  }

  /** The number of hits after the last reset. */
  function OpenInterval(events: seq<Event>): nat {
    if events == [] || events[|events| - 1].Resetting? then 0 else OpenInterval(events[..|events| - 1]) + 1
  }

  /** No interval between two resets sees more than `h` hits. */
  ghost predicate AtMostPerInterval(events: seq<Event>, h: nat) {
    forall i :: 0 <= i <= |events| ==> OpenInterval(events[..i]) <= h
  }

  /**
    In every run that starts with a fresh entry: the counter of the open interval is exact, and `h` hits per interval
    never accumulate to more than `3 * h`.
   */
  lemma {:induction false} HitsBounded(e: IndexEntry, events: seq<Event>, h: nat)
    requires e.hits == e.hitsSinceLastReset == 0 && AtMostPerInterval(events, h)
    ensures var r := Replay(e, events);
      r.hitsSinceLastReset == OpenInterval(events) && r.hits - r.hitsSinceLastReset <= 2 * h && r.hits <= 3 * h
  {
    assert events[..|events|] == events;
    if events != [] {
      var front := events[..|events| - 1];
      assert forall i :: 0 <= i <= |front| ==> front[..i] == events[..i];
      HitsBounded(e, front, h);
    }
  }

  function Times(event: Event, n: nat): seq<Event> {
    seq(n, _ => event)
  }

  lemma AtLeastOnce(x: int, d: nat)
    requires x >= 1
    ensures x * d >= d
  {
  }

  lemma Distribute(a: int, b: int, d: int)
    ensures (a - b) * d == a * d - b * d
  {
  }

  lemma QuotientUnique(h: nat, d: nat, q: nat, r: nat)
    requires r < d && h == q * d + r
    ensures h / d == q
  {
    var p := h / d;
    assert h == p * d + h % d;
    Distribute(q, p, d);
    Distribute(p, q, d);
    if q > p {
      AtLeastOnce(q - p, d);
    } else if p > q {
      AtLeastOnce(p - q, d);
    }
  }

  lemma HalfOfQuotient(h: nat, p: nat)
    requires p > 0
    ensures (h / p) / 2 == h / (2 * p)
  {
    var a, r := h / p, h % p;
    var b, s := a / 2, a % 2;
    assert h == a * p + r && a == 2 * b + s;
    assert h == b * (2 * p) + (s * p + r);
    QuotientUnique(h, 2 * p, b, s * p + r);
  }

  lemma {:induction false} HitsOnly(e: IndexEntry, h: nat)
    requires e.hits == e.hitsSinceLastReset == 0
    ensures Replay(e, Times(Hitting, h)).hits == Replay(e, Times(Hitting, h)).hitsSinceLastReset == h
  {
    if h > 0 {
      assert Times(Hitting, h)[..h - 1] == Times(Hitting, h - 1);
      HitsOnly(e, h - 1);
    }
  }

  /** `h` hits and then `k + 1` resets leave the `h` hits halved `k` times: the first reset costs nothing. */
  lemma {:induction false} DecayAfterHits(e: IndexEntry, h: nat, k: nat)
    requires e.hits == e.hitsSinceLastReset == 0
    ensures Pow2(k) > 0
    ensures var r := Replay(e, Times(Hitting, h) + Times(Resetting, k + 1));
      r.hits == h / Pow2(k) && r.hitsSinceLastReset == 0
  {
    Pow2Positive(k);
    var events := Times(Hitting, h) + Times(Resetting, k + 1);
    assert events[..|events| - 1] == Times(Hitting, h) + Times(Resetting, k);
    if k == 0 {
      assert Times(Hitting, h) + Times(Resetting, 0) == Times(Hitting, h);
      HitsOnly(e, h);
    } else {
      DecayAfterHits(e, h, k - 1);
      HalfOfQuotient(h, Pow2(k - 1));
    }
  }
}
