/** The deletion priority of cached files (ociclient/cache/filesystem.go, PriorityList and CalculatePriority). */
module CachePriority {
  /** `createdAt` counts nanoseconds from Go's zero time, so 0 is the time for which `IsZero` holds. */
  datatype IndexEntry = IndexEntry(name: string, size: int, hits: nat, createdAt: nat, hitsSinceLastReset: nat)

  /** float64 without rounding: the values a quotient or a sum of the program can take. */
  datatype Float = NaN | NegInf | Finite(r: real) | PosInf {

    predicate Less(other: Float) {
      && !NaN? && !other.NaN? && this != other
      && (NegInf? || other.PosInf? || (Finite? && other.Finite? && r < other.r))
    }
  }

  function Div(a: int, b: int): Float {
    if b != 0 then Finite(a as real / b as real)
    else if a == 0 then NaN
    else if a < 0 then NegInf
    else PosInf
  }

  function OrZero(f: Float): Float {
    if f.NaN? then Finite(0.0) else f
  }

  function Weighted(f: Float, w: real): Float
    requires w > 0.0
  {
    if f.Finite? then Finite(f.r * w) else f
  }

  function Plus(a: Float, b: Float): Float {
    if a.NaN? || b.NaN? || (a.NegInf? && b.PosInf?) || (a.PosInf? && b.NegInf?) then NaN
    else if a.Finite? && b.Finite? then Finite(a.r + b.r)
    else if a.Finite? then b
    else a
  }

  datatype Bounds = Bounds(minHits: nat, maxHits: nat, oldest: nat, newest: nat)

  function CalculatePriority(e: IndexEntry, b: Bounds): Float {
    var hitsVal := OrZero(Div(e.hits - b.minHits, b.maxHits - b.minHits));
    var dateVal := OrZero(Div(e.createdAt - b.oldest, b.newest - b.oldest));
    Plus(Weighted(hitsVal, 0.6), Weighted(dateVal, 0.4))
  }

  /** The bounds after visiting the entries in this order; 0 doubles as "not set yet" for the two minima. */
  function Scan(entries: seq<IndexEntry>): Bounds {
    if entries == [] then Bounds(0, 0, 0, 0) else Visit(Scan(entries[..|entries| - 1]), entries[|entries| - 1])
  }

  function Visit(b: Bounds, e: IndexEntry): Bounds {
    Bounds(
      if b.minHits == 0 || e.hits < b.minHits then e.hits else b.minHits,
      if e.hits > b.maxHits then e.hits else b.maxHits,
      if b.oldest == 0 || e.createdAt < b.oldest then e.createdAt else b.oldest,
      if b.newest < e.createdAt then e.createdAt else b.newest)
  }

  ghost predicate Within(e: IndexEntry, b: Bounds) {
    b.minHits <= b.maxHits && e.hits <= b.maxHits && b.oldest <= b.newest && e.createdAt <= b.newest
  }

  /** In whatever order the map is visited, the maxima bound every entry, and the minima the maxima. */
  lemma {:induction false} ScanBounds(entries: seq<IndexEntry>, e: IndexEntry)
    ensures Scan(entries).minHits <= Scan(entries).maxHits && Scan(entries).oldest <= Scan(entries).newest
    ensures e in entries ==> Within(e, Scan(entries))
  {
    if entries != [] {
      ScanBounds(entries[..|entries| - 1], e);
    }
  }

  lemma DivMonotone(a: int, b: int, d: int)
    requires d >= 0 && b <= a <= d
    ensures var x, y := OrZero(Div(b, d)), OrZero(Div(a, d));
      !x.NaN? && !x.PosInf? && !y.NaN? && !y.PosInf? && (y.NegInf? ==> x.NegInf?)
      && (x.Finite? && y.Finite? ==> x.r <= y.r)
  {
    if d > 0 {
      var p, q, e := b as real, a as real, d as real;
      assert q / e - p / e == (q - p) / e;
    }
  }

  /** The priority of an entry is a number or -Inf, although its parts divide by differences that can be 0. */
  lemma PriorityDefined(e: IndexEntry, b: Bounds)
    requires Within(e, b)
    ensures CalculatePriority(e, b).Finite? || CalculatePriority(e, b).NegInf?
  {
    PriorityMonotone(e, e, b);
  }

  lemma PriorityMonotone(low: IndexEntry, high: IndexEntry, b: Bounds)
    requires Within(low, b) && Within(high, b)
    requires low.hits <= high.hits && low.createdAt <= high.createdAt
    ensures !CalculatePriority(high, b).Less(CalculatePriority(low, b))
    ensures CalculatePriority(low, b).Finite? || CalculatePriority(low, b).NegInf?
    ensures CalculatePriority(high, b).Finite? || CalculatePriority(high, b).NegInf?
  {
    DivMonotone(high.hits - b.minHits, low.hits - b.minHits, b.maxHits - b.minHits);
    DivMonotone(high.createdAt - b.oldest, low.createdAt - b.oldest, b.newest - b.oldest);
  }

  /**
    For every order in which the map is visited: an entry with at least as many hits that was created at least as
    late never ranks strictly below the other.
   */
  lemma MoreHitsAndNewerNeverBelow(order: seq<IndexEntry>, low: IndexEntry, high: IndexEntry)
    requires low in order && high in order
    requires low.hits <= high.hits && low.createdAt <= high.createdAt
    ensures !CalculatePriority(high, Scan(order)).Less(CalculatePriority(low, Scan(order)))
  {
    ScanBounds(order, low);
    ScanBounds(order, high);
    PriorityMonotone(low, high, Scan(order));
  }

  /**
    Between bounds that differ, entries rank by how far they are up the range of hits and the range of times, where
    hits count for three and times for two.
   */
  lemma RankedByWeights(x: IndexEntry, y: IndexEntry, b: Bounds)
    requires b.minHits < b.maxHits && b.oldest < b.newest
    ensures var hits, times := b.maxHits - b.minHits, b.newest - b.oldest;
      CalculatePriority(x, b).Less(CalculatePriority(y, b)) <==>
      3 * times * x.hits + 2 * hits * x.createdAt < 3 * times * y.hits + 2 * hits * y.createdAt
  {
    var hits, times := (b.maxHits - b.minHits) as real, (b.newest - b.oldest) as real;
    Scaled(x, b);
    Scaled(y, b);
    var p, q := CalculatePriority(x, b).r, CalculatePriority(y, b).r;
    Positive(hits, times);
    Product(p, q, hits * times);
  }

  lemma Positive(a: real, b: real)
    requires a > 0.0 && b > 0.0
    ensures a * b > 0.0
  {
  }

  lemma Product(p: real, q: real, c: real)
    requires c > 0.0
    ensures p < q <==> 5.0 * (p * c) < 5.0 * (q * c)
  {
  }

  /** The priority times five times the product of the two ranges, as a whole number. */
  lemma Scaled(e: IndexEntry, b: Bounds)
    requires b.minHits < b.maxHits && b.oldest < b.newest
    ensures CalculatePriority(e, b).Finite?
    ensures var hits, times := b.maxHits - b.minHits, b.newest - b.oldest;
      5.0 * (CalculatePriority(e, b).r * (hits as real * times as real)) ==
      (3 * times * e.hits + 2 * hits * e.createdAt - 3 * times * b.minHits - 2 * hits * b.oldest) as real
  {
    var h, t := (b.maxHits - b.minHits) as real, (b.newest - b.oldest) as real;
    var x, y := (e.hits - b.minHits) as real, (e.createdAt - b.oldest) as real;
    var p, q := x / h, y / t;
    assert CalculatePriority(e, b).r == p * 0.6 + q * 0.4;
    assert p * h == x && q * t == y;
    Expanded(p, q, h, t);
  }

  lemma Expanded(p: real, q: real, h: real, t: real)
    ensures 5.0 * ((p * 0.6 + q * 0.4) * (h * t)) == 3.0 * (p * h) * t + 2.0 * (q * t) * h
  {
  }

  lemma {:induction false} MaxReached(v: seq<nat>) returns (i: nat)
    requires v != []
    ensures i < |v| && v[i] == Max(v)
  {
    var m := |v| - 1;
    if m == 0 || v[m] > Max(v[..m]) {
      i := m;
    } else {
      i := MaxReached(v[..m]);
    }
  }

  lemma {:induction false} MinReached(v: seq<nat>) returns (i: nat)
    requires v != [] && forall j :: 0 <= j < |v| ==> v[j] > 0
    ensures i < |v| && v[i] == SentinelMin(v) && forall j :: 0 <= j < |v| ==> SentinelMin(v) <= v[j]
  {
    var m := |v| - 1;
    i := m;
    if m > 0 {
      var k := MinReached(v[..m]);
      if v[m] >= v[k] {
        i := k;
      }
    }
  }

  /** The maxima are reached by some entry; so are the minima, by the least, if no value is 0. */
  lemma BoundsReached(entries: seq<IndexEntry>)
    requires entries != []
    ensures exists i :: 0 <= i < |entries| && entries[i].hits == Scan(entries).maxHits
    ensures exists i :: 0 <= i < |entries| && entries[i].createdAt == Scan(entries).newest
    ensures (forall i :: 0 <= i < |entries| ==> entries[i].hits > 0) ==>
      && (exists i :: 0 <= i < |entries| && entries[i].hits == Scan(entries).minHits)
      && (forall i :: 0 <= i < |entries| ==> Scan(entries).minHits <= entries[i].hits)
    ensures (forall i :: 0 <= i < |entries| ==> entries[i].createdAt > 0) ==>
      && (exists i :: 0 <= i < |entries| && entries[i].createdAt == Scan(entries).oldest)
      && (forall i :: 0 <= i < |entries| ==> Scan(entries).oldest <= entries[i].createdAt)
  {
    ScanParts(entries);
    var h, t := Hits(entries), CreationTimes(entries);
    var i := MaxReached(h);
    var j := MaxReached(t);
    assert entries[i].hits == h[i] && entries[j].createdAt == t[j];
    if forall i :: 0 <= i < |entries| ==> entries[i].hits > 0 {
      var m := MinReached(h);
      assert entries[m].hits == h[m];
      assert forall i :: 0 <= i < |entries| ==> h[i] == entries[i].hits;
    }
    if forall i :: 0 <= i < |entries| ==> entries[i].createdAt > 0 {
      var m := MinReached(t);
      assert entries[m].createdAt == t[m];
      assert forall i :: 0 <= i < |entries| ==> t[i] == entries[i].createdAt;
    }
  }

  /** What `sort.Sort` needs of `Less`: a strict weak order on the entries of the list. */
  lemma LessIsStrictWeakOrder(order: seq<IndexEntry>, x: IndexEntry, y: IndexEntry, z: IndexEntry)
    requires x in order && y in order && z in order
    ensures
      var b := Scan(order);
      var p, q, r := CalculatePriority(x, b), CalculatePriority(y, b), CalculatePriority(z, b);
      && !p.Less(p)
      && (p.Less(q) ==> !q.Less(p))
      && (p.Less(q) && q.Less(r) ==> p.Less(r))
      && (!p.Less(q) && !q.Less(p) && !q.Less(r) && !r.Less(q) ==> p == q == r)
  {
    ScanBounds(order, x);
    ScanBounds(order, y);
    ScanBounds(order, z);
    PriorityDefined(x, Scan(order));
    PriorityDefined(y, Scan(order));
    PriorityDefined(z, Scan(order));
  }

  // ---------- when the visiting order matters ----------

  function Hits(entries: seq<IndexEntry>): seq<nat> {
    seq(|entries|, i requires 0 <= i < |entries| => entries[i].hits)
  }

  function CreationTimes(entries: seq<IndexEntry>): seq<nat> {
    seq(|entries|, i requires 0 <= i < |entries| => entries[i].createdAt)
  }

  /** A minimum for which 0 means "not set yet". */
  function SentinelMin(v: seq<nat>): nat {
    if v == [] then 0
    else
      var m, x := SentinelMin(v[..|v| - 1]), v[|v| - 1];
      if m == 0 || x < m then x else m
  }

  function Max(v: seq<nat>): nat {
    if v == [] then 0
    else
      var m, x := Max(v[..|v| - 1]), v[|v| - 1];
      if x > m then x else m
  }

  lemma {:induction false} ScanParts(entries: seq<IndexEntry>)
    ensures Scan(entries) == Bounds(
      SentinelMin(Hits(entries)), Max(Hits(entries)), SentinelMin(CreationTimes(entries)), Max(CreationTimes(entries)))
  {
    if entries != [] {
      var front := entries[..|entries| - 1];
      ScanParts(front);
      assert Hits(entries)[..|front|] == Hits(front) && CreationTimes(entries)[..|front|] == CreationTimes(front);
    }
  }

  /** No value is the sentinel, or all are. */
  predicate Uniform(v: seq<nat>) {
    0 !in v || forall i :: 0 <= i < |v| ==> v[i] == 0
  }

  lemma {:induction false} LeastAttained(v: seq<nat>) returns (k: nat)
    requires v != []
    ensures k < |v| && v[k] == SentinelMin(v)
  {
    var m := |v| - 1;
    if m > 0 && SentinelMin(v) != v[m] {
      k := LeastAttained(v[..m]);
    } else {
      k := m;
    }
  }

  lemma {:induction false} LeastBounds(v: seq<nat>, i: nat)
    requires i < |v| && Uniform(v)
    ensures SentinelMin(v) <= v[i]
  {
    var m := |v| - 1;
    var front := v[..m];
    if front != [] {
      assert Uniform(front) by {
        assert 0 in front ==> 0 in v;
      }
      var k := LeastAttained(front);
      assert front[k] in v;
      if i < m {
        LeastBounds(front, i);
      }
    }
  }

  lemma {:induction false} GreatestAttained(v: seq<nat>) returns (k: nat)
    requires v != []
    ensures k < |v| && v[k] == Max(v)
  {
    var m := |v| - 1;
    if m > 0 && Max(v) != v[m] {
      k := GreatestAttained(v[..m]);
    } else {
      k := m;
    }
  }

  lemma {:induction false} GreatestBounds(v: seq<nat>, i: nat)
    requires i < |v|
    ensures v[i] <= Max(v)
  {
    if i < |v| - 1 {
      GreatestBounds(v[..|v| - 1], i);
    }
  }

  /** The extremes of `v` do not go beyond those of `w`, if all values of `v` are among those of `w`. */
  lemma ExtremesWithin(v: seq<nat>, w: seq<nat>)
    requires v != [] && Uniform(w) && forall i :: 0 <= i < |v| ==> v[i] in w
    ensures SentinelMin(w) <= SentinelMin(v) && Max(v) <= Max(w)
  {
    var a := LeastAttained(v);
    var b := GreatestAttained(v);
    var i :| 0 <= i < |w| && w[i] == v[a];
    var j :| 0 <= j < |w| && w[j] == v[b];
    LeastBounds(w, i);
    GreatestBounds(w, j);
  }

  lemma SameUniform(v: seq<nat>, w: seq<nat>)
    requires Uniform(v) && (forall x :: x in v <==> x in w)
    ensures Uniform(w)
  {
    if 0 in w {
      forall i | 0 <= i < |w|
        ensures w[i] == 0
      {
        assert w[i] in v;
      }
    }
  }

  lemma SameExtremes(v: seq<nat>, w: seq<nat>)
    requires (forall x :: x in v <==> x in w) && Uniform(v)
    ensures SentinelMin(v) == SentinelMin(w) && Max(v) == Max(w)
  {
    SameUniform(v, w);
    SomeElement(v);
    SomeElement(w);
    if v != [] && w != [] {
      ExtremesWithin(v, w);
      ExtremesWithin(w, v);
    }
  }

  lemma SomeElement(v: seq<nat>)
    ensures v == [] || exists x :: x in v
  {
    assert v == [] || v[0] in v;
  }

  /** Under the condition, lists of the same entries have the same bounds. */
  lemma SameEntriesSameBounds(p: seq<IndexEntry>, q: seq<IndexEntry>)
    requires forall e :: e in p <==> e in q
    requires Uniform(Hits(p)) && Uniform(CreationTimes(p))
    ensures Scan(p) == Scan(q)
  {
    ScanParts(p);
    ScanParts(q);
    ProjectionsAgree(p, q);
    ProjectionsAgree(q, p);
    SameExtremes(Hits(p), Hits(q));
    SameExtremes(CreationTimes(p), CreationTimes(q));
  }

  lemma ProjectionsAgree(p: seq<IndexEntry>, q: seq<IndexEntry>)
    requires forall e :: e in p ==> e in q
    ensures forall x :: x in Hits(p) ==> x in Hits(q)
    ensures forall x :: x in CreationTimes(p) ==> x in CreationTimes(q)
  {
    forall i | 0 <= i < |p|
      ensures p[i].hits in Hits(q) && p[i].createdAt in CreationTimes(q)
    {
      assert p[i] in q;
      var j :| 0 <= j < |q| && q[j] == p[i];
      assert Hits(q)[j] == p[i].hits && CreationTimes(q)[j] == p[i].createdAt;
    }
  }

  /** The list with the entry at `i` visited last. */
  function VisitedLast(entries: seq<IndexEntry>, i: nat): seq<IndexEntry>
    requires i < |entries|
  {
    entries[..i] + entries[i + 1..] + [entries[i]]
  }

  lemma VisitedLastPermutes(entries: seq<IndexEntry>, i: nat)
    requires i < |entries|
    ensures multiset(VisitedLast(entries, i)) == multiset(entries)
  {
    assert entries == entries[..i] + [entries[i]] + entries[i + 1..];
  }

  lemma SentinelLast(v: seq<nat>)
    requires v != []
    ensures SentinelMin(v) == 0 <==> v[|v| - 1] == 0
  {
  }

  lemma LastValues(entries: seq<IndexEntry>, i: nat)
    requires i < |entries|
    ensures Scan(VisitedLast(entries, i)).minHits == 0 <==> entries[i].hits == 0
    ensures Scan(VisitedLast(entries, i)).oldest == 0 <==> entries[i].createdAt == 0
  {
    var list := VisitedLast(entries, i);
    ScanParts(list);
    SentinelLast(Hits(list));
    SentinelLast(CreationTimes(list));
  }

  /** Every order in which the entries can be visited yields the same bounds. */
  ghost predicate OrderIrrelevant(entries: seq<IndexEntry>) {
    forall p, q :: multiset(p) == multiset(entries) && multiset(q) == multiset(entries) ==> Scan(p) == Scan(q)
  }

  /** The bounds do not depend on the visiting order exactly if of the hits, and of the times, none or all are zero. */
  lemma OrderIrrelevantIff(entries: seq<IndexEntry>)
    ensures OrderIrrelevant(entries) <==> Uniform(Hits(entries)) && Uniform(CreationTimes(entries))
  {
    if Uniform(Hits(entries)) && Uniform(CreationTimes(entries)) {
      forall p, q | multiset(p) == multiset(entries) && multiset(q) == multiset(entries)
        ensures Scan(p) == Scan(q)
      {
        SameMultisetSameElements(entries, p);
        SameMultisetSameElements(entries, q);
        SameEntriesSameBounds(entries, p);
        SameEntriesSameBounds(entries, q);
      }
    } else if !Uniform(Hits(entries)) {
      var i :| 0 <= i < |entries| && Hits(entries)[i] == 0;
      var j :| 0 <= j < |entries| && Hits(entries)[j] != 0;
      TwoOrders(entries, i, j);
    } else {
      var i :| 0 <= i < |entries| && CreationTimes(entries)[i] == 0;
      var j :| 0 <= j < |entries| && CreationTimes(entries)[j] != 0;
      TwoOrders(entries, i, j);
    }
  }

  /** Visiting a zero last, or something else: the bounds differ. */
  lemma TwoOrders(entries: seq<IndexEntry>, i: nat, j: nat)
    requires i < |entries| && j < |entries|
    requires (entries[i].hits == 0 && entries[j].hits != 0) || (entries[i].createdAt == 0 && entries[j].createdAt != 0)
    ensures !OrderIrrelevant(entries)
  {
    VisitedLastPermutes(entries, i);
    VisitedLastPermutes(entries, j);
    LastValues(entries, i);
    LastValues(entries, j);
    assert Scan(VisitedLast(entries, i)) != Scan(VisitedLast(entries, j));
  }

  lemma SameMultisetSameElements(p: seq<IndexEntry>, q: seq<IndexEntry>)
    requires multiset(p) == multiset(q)
    ensures forall e :: e in p <==> e in q
  {
    forall e
      ensures e in p <==> e in q
    {
      assert e in p <==> e in multiset(p);
    }
  }

  /** Then the ranking is the same in every order in which one index can be visited. */
  lemma RankingIndependentOfOrder(index: map<string, IndexEntry>, names1: seq<string>, names2: seq<string>)
    requires forall name :: name in names1 <==> name in index
    requires forall name :: name in names2 <==> name in index
    requires Uniform(Hits(Visited(index, names1))) && Uniform(CreationTimes(Visited(index, names1)))
    ensures forall e ::
      PriorityWithin(Scan(Visited(index, names1)))(e) == PriorityWithin(Scan(Visited(index, names2)))(e)
  {
    var p, q := Visited(index, names1), Visited(index, names2);
    VisitedAgree(index, names1, names2);
    VisitedAgree(index, names2, names1);
    SameEntriesSameBounds(p, q);
  }

  lemma VisitedAgree(index: map<string, IndexEntry>, names1: seq<string>, names2: seq<string>)
    requires forall name :: name in names1 <==> name in index
    requires forall name :: name in names2 <==> name in index
    ensures forall e :: e in Visited(index, names1) ==> e in Visited(index, names2)
  {
    forall i | 0 <= i < |names1|
      ensures index[names1[i]] in Visited(index, names2)
    {
      assert names1[i] in names2;
      var j :| 0 <= j < |names2| && names2[j] == names1[i];
      assert Visited(index, names2)[j] == index[names1[i]];
    }
  }

  /**
    Otherwise not only the bounds but the ranking itself may differ: these four entries, visited in two orders, rank
    `a` and `b` both ways round.
   */
  lemma RankingDependsOnOrder(a: IndexEntry, b: IndexEntry, c: IndexEntry, d: IndexEntry)
    requires a.hits == 5 && b.hits == 9 && c.hits == 0 && d.hits == 10
    requires a.createdAt == 20 && b.createdAt == c.createdAt == d.createdAt == 10
    ensures CalculatePriority(a, Scan([c, a, b, d])).Less(CalculatePriority(b, Scan([c, a, b, d])))
    ensures CalculatePriority(b, Scan([a, b, d, c])).Less(CalculatePriority(a, Scan([a, b, d, c])))
  {
    ScansOfBothOrders(c, a, b, d);
    RankedBothWays(a, b);
  }

  lemma ScansOfBothOrders(c: IndexEntry, a: IndexEntry, b: IndexEntry, d: IndexEntry)
    requires a.hits == 5 && b.hits == 9 && c.hits == 0 && d.hits == 10
    requires a.createdAt == 20 && b.createdAt == c.createdAt == d.createdAt == 10
    ensures Scan([c, a, b, d]) == Bounds(5, 10, 10, 20)
    ensures Scan([a, b, d, c]) == Bounds(0, 10, 10, 20)
  {
    ScanFour(c, a, b, d);
    ScanFour(a, b, d, c);
  }

  lemma RankedBothWays(a: IndexEntry, b: IndexEntry)
    requires a.hits == 5 && a.createdAt == 20 && b.hits == 9 && b.createdAt == 10
    ensures CalculatePriority(a, Bounds(5, 10, 10, 20)).Less(CalculatePriority(b, Bounds(5, 10, 10, 20)))
    ensures CalculatePriority(b, Bounds(0, 10, 10, 20)).Less(CalculatePriority(a, Bounds(0, 10, 10, 20)))
  {
    PriorityValue(a, Bounds(5, 10, 10, 20), 0.0, 1.0);
    PriorityValue(b, Bounds(5, 10, 10, 20), 0.8, 0.0);
    PriorityValue(a, Bounds(0, 10, 10, 20), 0.5, 1.0);
    PriorityValue(b, Bounds(0, 10, 10, 20), 0.9, 0.0);
  }

  lemma ScanFour(w: IndexEntry, x: IndexEntry, y: IndexEntry, z: IndexEntry)
    ensures Scan([w, x, y, z]) == Visit(Visit(Visit(Visit(Bounds(0, 0, 0, 0), w), x), y), z)
  {
    assert [w, x, y, z][..3] == [w, x, y] && [w, x, y][..2] == [w, x] && [w, x][..1] == [w] && [w][..0] == [];
    assert Scan([w]) == Visit(Bounds(0, 0, 0, 0), w);
    assert Scan([w, x]) == Visit(Scan([w]), x);
    assert Scan([w, x, y]) == Visit(Scan([w, x]), y);
  }

  lemma PriorityValue(e: IndexEntry, b: Bounds, h: real, t: real)
    requires b.minHits < b.maxHits && b.oldest < b.newest
    requires h * (b.maxHits - b.minHits) as real == (e.hits - b.minHits) as real
    requires t * (b.newest - b.oldest) as real == (e.createdAt - b.oldest) as real
    ensures CalculatePriority(e, b) == Finite(h * 0.6 + t * 0.4)
  {
    assert (e.hits - b.minHits) as real / (b.maxHits - b.minHits) as real == h;
    assert (e.createdAt - b.oldest) as real / (b.newest - b.oldest) as real == t;
  }

  // ---------- the list ----------

  ghost predicate SortedBy(list: seq<IndexEntry>, priority: IndexEntry -> Float) {
    forall i, j :: 0 <= i < j < |list| ==> !priority(list[j]).Less(priority(list[i]))
  }

  function PriorityWithin(b: Bounds): IndexEntry -> Float {
    (e: IndexEntry) => CalculatePriority(e, b)
  }

  /** A list as `PriorityList` may return it: the entries of the index, sorted for the bounds of some visiting order. */
  ghost predicate IsPriorityList(index: map<string, IndexEntry>, order: seq<IndexEntry>, list: seq<IndexEntry>) {
    && multiset(list) == multiset(order)
    && (forall e :: e in order <==> e.name in index && index[e.name] == e)
    && (forall e :: e in list <==> e.name in index && index[e.name] == e)
    && (forall i, j :: 0 <= i < j < |list| ==> list[i].name != list[j].name)
    && SortedBy(list, PriorityWithin(Scan(order)))
  }

  /** The index maps every name to an entry of that name. */
  ghost predicate Named(index: map<string, IndexEntry>) {
    forall name :: name in index ==> index[name].name == name
  }

  /** The entries in the order in which a call visits their names. */
  function Visited(index: map<string, IndexEntry>, names: seq<string>): seq<IndexEntry>
    requires forall name :: name in names ==> name in index
  {
    seq(|names|, i requires 0 <= i < |names| => index[names[i]])
  }

  /** `names` is the order in which this call visits the map. */
  method PriorityList(index: map<string, IndexEntry>, names: seq<string>) returns (list: seq<IndexEntry>)
    requires Named(index)
    requires forall name :: name in names <==> name in index
    requires forall i, j :: 0 <= i < j < |names| ==> names[i] != names[j]
    ensures IsPriorityList(index, Visited(index, names), list)
  {
    var entries, b := Collect(index, names);
    assert entries == Visited(index, names);
    forall e | e in entries
      ensures PriorityWithin(b)(e) != NaN
    {
      ScanBounds(entries, e);
      PriorityDefined(e, b);
    }
    list := Sort(entries, PriorityWithin(b));
    SameEntries(index, names, entries, list);
  }

  lemma SameEntries(index: map<string, IndexEntry>, names: seq<string>, order: seq<IndexEntry>, list: seq<IndexEntry>)
    requires Named(index)
    requires forall name :: name in names <==> name in index
    requires forall i, j :: 0 <= i < j < |names| ==> names[i] != names[j]
    requires |order| == |names| && forall i :: 0 <= i < |names| ==> order[i] == index[names[i]]
    requires multiset(list) == multiset(order)
    ensures forall e :: e in order <==> e.name in index && index[e.name] == e
    ensures forall e :: e in list <==> e in order
    ensures forall i, j :: 0 <= i < j < |list| ==> list[i].name != list[j].name
  {
    forall e: IndexEntry | e.name in index && index[e.name] == e
      ensures e in order
    {
      var i :| 0 <= i < |names| && names[i] == e.name;
      assert order[i] == e;
    }
    forall e
      ensures e in list <==> e in order
    {
      assert e in list <==> e in multiset(list);
    }
    forall i, j | 0 <= i < j < |list|
      ensures list[i].name != list[j].name
    {
      NoDuplicates(order, list, i, j);
    }
  }

  /** The loop of `PriorityList`. */
  method Collect(index: map<string, IndexEntry>, names: seq<string>) returns (entries: seq<IndexEntry>, b: Bounds)
    requires forall name :: name in names ==> name in index
    ensures |entries| == |names| && forall i :: 0 <= i < |names| ==> entries[i] == index[names[i]]
    ensures b == Scan(entries)
  {
    b := Bounds(0, 0, 0, 0);
    entries := [];
    for i := 0 to |names|
      invariant |entries| == i && forall j :: 0 <= j < i ==> entries[j] == index[names[j]]
      invariant b == Scan(entries)
    {
      var entry := index[names[i]];
      if entry.hits > b.maxHits {
        b := b.(maxHits := entry.hits);
      }
      if b.minHits == 0 || entry.hits < b.minHits {
        b := b.(minHits := entry.hits);
      }
      if b.newest < entry.createdAt {
        b := b.(newest := entry.createdAt);
      }
      if b.oldest == 0 || entry.createdAt < b.oldest {
        b := b.(oldest := entry.createdAt);
      }
      assert (entries + [entry])[..i] == entries;
      entries := entries + [entry];
    }
  }

  /** A permutation of entries with distinct names has distinct names. */
  lemma NoDuplicates(entries: seq<IndexEntry>, list: seq<IndexEntry>, i: nat, j: nat)
    requires multiset(list) == multiset(entries) && i < j < |list|
    requires forall p, q :: 0 <= p < q < |entries| ==> entries[p].name != entries[q].name
    ensures list[i].name != list[j].name
  {
    if list[i].name == list[j].name {
      assert list[i] in multiset(entries) && list[j] in multiset(entries);
      assert list[i] == list[j];
      AtLeastTwice(list, i, j);
      AtMostOnce(entries, list[i]);
      assert false;
    }
  }

  lemma AtLeastTwice(list: seq<IndexEntry>, i: nat, j: nat)
    requires i < j < |list| && list[i] == list[j]
    ensures multiset(list)[list[i]] >= 2
  {
    assert list == list[..j] + list[j..];
    assert list[i] in list[..j] && list[i] in list[j..];
  }

  lemma {:induction false} AtMostOnce(entries: seq<IndexEntry>, x: IndexEntry)
    requires forall p, q :: 0 <= p < q < |entries| ==> entries[p].name != entries[q].name
    ensures multiset(entries)[x] <= 1
  {
    if entries != [] {
      var m := |entries| - 1;
      assert entries == entries[..m] + [entries[m]];
      AtMostOnce(entries[..m], x);
      if entries[m] == x {
        assert x !in entries[..m];
      }
    }
  }

  /** Stands for the library's sort; callers use nothing but its contract. */
  method Sort(entries: seq<IndexEntry>, priority: IndexEntry -> Float) returns (list: seq<IndexEntry>)
    requires forall e :: e in entries ==> priority(e) != NaN
    ensures multiset(list) == multiset(entries) && SortedBy(list, priority)
  {
    list := [];
    for i := 0 to |entries|
      invariant multiset(list) == multiset(entries[..i]) && SortedBy(list, priority)
    {
      forall e | e in list
        ensures priority(e) != NaN
      {
        assert e in multiset(entries[..i]);
      }
      list := Insert(list, entries[i], priority);
      assert entries[..i + 1] == entries[..i] + [entries[i]];
    }
    assert entries[..|entries|] == entries;
  }

  method Insert(list: seq<IndexEntry>, x: IndexEntry, priority: IndexEntry -> Float) returns (r: seq<IndexEntry>)
    requires SortedBy(list, priority)
    requires priority(x) != NaN && forall e :: e in list ==> priority(e) != NaN
    ensures multiset(r) == multiset(list) + multiset{x} && SortedBy(r, priority)
  {
    hide SortedBy;
    var k := |list|;
    while k > 0 && priority(x).Less(priority(list[k - 1]))
      invariant 0 <= k <= |list|
      invariant k < |list| ==> priority(x).Less(priority(list[k]))
    {
      k := k - 1;
    }
    InsertSorted(list, x, k, priority);
    assert list == list[..k] + list[k..];
    r := list[..k] + [x] + list[k..];
  }

  lemma InsertSorted(list: seq<IndexEntry>, x: IndexEntry, k: nat, priority: IndexEntry -> Float)
    requires k <= |list| && SortedBy(list, priority)
    requires k > 0 ==> !priority(x).Less(priority(list[k - 1]))
    requires k < |list| ==> priority(x).Less(priority(list[k]))
    requires priority(x) != NaN && forall e :: e in list ==> priority(e) != NaN
    ensures SortedBy(list[..k] + [x] + list[k..], priority)
  {
    var l := list[..k] + [x] + list[k..];
    forall i, j | 0 <= i < j < |l|
      ensures !priority(l[j]).Less(priority(l[i]))
    {
      if i == k {
        assert l[j] == list[j - 1];
      } else if j == k && i < k - 1 {
        assert !priority(list[k - 1]).Less(priority(list[i]));
      }
    }
  }
}
