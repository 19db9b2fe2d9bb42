/** The size-accounted file system of the blob cache and its garbage collector (ociclient/cache/filesystem.go). */
module CacheFilesystem {
  import opened CachePriority

  /**
    What the file system keeps: its limit (0: no limit), the files that exist, the index and the accounted size.
    `overwritten` is no field of the program; it adds up the sizes of entries that a second Create replaced.
   */
  datatype Fs = Fs(
    limit: nat, files: set<string>, index: map<string, IndexEntry>, currentSize: int, overwritten: int)

  const GC_HIGH_THRESHOLD := 0.85
  const GC_LOW_THRESHOLD := 0.80

  function Usage(fs: Fs): real
    requires fs.limit != 0
  {
    fs.currentSize as real / fs.limit as real
  }

  predicate Above(fs: Fs, threshold: real) {
    fs.limit != 0 && Usage(fs) > threshold
  }

  lemma ThresholdsInPercent(fs: Fs)
    ensures fs.limit != 0 ==> (Usage(fs) < GC_HIGH_THRESHOLD <==> 100 * fs.currentSize < 85 * fs.limit)
    ensures fs.limit != 0 ==> (Above(fs, GC_LOW_THRESHOLD) <==> 100 * fs.currentSize > 80 * fs.limit)
  {
    if fs.limit != 0 {
      Quotient(fs.currentSize as real, fs.limit as real, 0.85);
      Quotient(fs.currentSize as real, fs.limit as real, 0.80);
    }
  }

  lemma Quotient(x: real, y: real, c: real)
    requires y > 0.0
    ensures x / y < c <==> x < c * y
    ensures x / y > c <==> x > c * y
  {
    assert x / y * y == x;
  }

  // ---------- the operations on the state ----------

  function Created(fs: Fs, path: string, size: int, now: nat): Fs {
    fs.(files := fs.files + {path},
        index := fs.index[path := IndexEntry(path, size, 0, now, 0)],
        currentSize := fs.currentSize + size,
        overwritten := fs.overwritten + EntrySize(fs.index, path))
  }

  /** `Index.Get` yields the zero entry for a name it does not know. */
  function EntrySize(index: map<string, IndexEntry>, name: string): int {
    if name in index then index[name].size else 0
  }

  predicate CanRemove(fs: Fs, name: string, ioFails: bool) {
    name in fs.files && !ioFails
  }

  function Removed(fs: Fs, name: string, ioFails: bool): Fs {
    if CanRemove(fs, name, ioFails) then
      fs.(files := fs.files - {name},
          index := fs.index - {name},
          currentSize := fs.currentSize - EntrySize(fs.index, name))
    else
      fs
  }

  function Hit(fs: Fs, name: string): Fs {
    if name !in fs.index then fs
    else
      var e := fs.index[name];
      fs.(index := fs.index[name := e.(hits := e.hits + 1, hitsSinceLastReset := e.hitsSinceLastReset + 1)])
  }

  /** `int64(float64(oldHits) * 0.5)` truncates towards zero. */
  function Halved(hits: int): int {
    if hits >= 0 then hits / 2 else -((-hits) / 2)
  }

  function ResetEntry(e: IndexEntry): IndexEntry
    requires e.hitsSinceLastReset <= e.hits
  {
    e.(hits := Halved(e.hits - e.hitsSinceLastReset) + e.hitsSinceLastReset, hitsSinceLastReset := 0)
  }

  ghost predicate CountsValid(index: map<string, IndexEntry>) {
    forall name :: name in index ==> index[name].hitsSinceLastReset <= index[name].hits
  }

  function Reset(fs: Fs): Fs
    requires CountsValid(fs.index)
  {
    fs.(index := ResetSome(fs.index, fs.index.Keys))
  }

  function ResetSome(index: map<string, IndexEntry>, names: set<string>): map<string, IndexEntry>
    requires CountsValid(index)
  {
    map name | name in index :: if name in names then ResetEntry(index[name]) else index[name]
  }

  /** One more entry of the loop. */
  lemma ResetOneMore(index: map<string, IndexEntry>, names: seq<string>, i: nat)
    requires CountsValid(index) && i < |names| && names[i] in index && names[i] !in names[..i]
    ensures names[i] in ResetSome(index, Elements(names[..i]))
    ensures ResetSome(index, Elements(names[..i]))[names[i]] == index[names[i]]
    ensures ResetSome(index, Elements(names[..i + 1])) ==
      ResetSome(index, Elements(names[..i]))[names[i] := ResetEntry(index[names[i]])]
  {
    assert names[..i + 1] == names[..i] + [names[i]];
  }

  lemma ResetEnds(index: map<string, IndexEntry>, names: seq<string>)
    requires CountsValid(index) && forall name :: name in names <==> name in index
    ensures ResetSome(index, Elements(names[..0])) == index
    ensures ResetSome(index, Elements(names[..|names|])) == ResetSome(index, index.Keys)
  {
    assert names[..|names|] == names;
  }

  // ---------- conservation ----------

  ghost function Total(index: map<string, IndexEntry>): int
    decreases |index|
  {
    if index == map[] then 0
    else
      var name :| name in index;
      index[name].size + Total(index - {name})
  }

  lemma {:induction false} TotalWithout(index: map<string, IndexEntry>, name: string)
    requires name in index
    ensures Total(index) == index[name].size + Total(index - {name})
    decreases |index|
  {
    var first :| first in index && Total(index) == index[first].size + Total(index - {first});
    if first != name {
      TotalWithout(index - {first}, name);
      TotalWithout(index - {name}, first);
      assert index - {first} - {name} == index - {name} - {first};
    }
  }

  lemma TotalWith(index: map<string, IndexEntry>, name: string, e: IndexEntry)
    ensures Total(index[name := e]) == Total(index) - EntrySize(index, name) + e.size
  {
    TotalWithout(index[name := e], name);
    assert index[name := e] - {name} == index - {name};
    if name in index {
      TotalWithout(index, name);
    } else {
      assert index - {name} == index;
    }
  }

  /** Equal sizes under equal names add up to the same total. */
  lemma {:induction false} TotalOfSameSizes(a: map<string, IndexEntry>, b: map<string, IndexEntry>)
    requires a.Keys == b.Keys && forall name :: name in a ==> a[name].size == b[name].size
    ensures Total(a) == Total(b)
    decreases |a|
  {
    if a != map[] {
      var name :| name in a;
      TotalWithout(a, name);
      TotalWithout(b, name);
      assert (a - {name}).Keys == (b - {name}).Keys;
      TotalOfSameSizes(a - {name}, b - {name});
    } else {
      assert b == map[];
    }
  }

  /** The accounted size is what the index holds, plus what was lost to overwritten entries. */
  ghost predicate Conserved(fs: Fs) {
    && fs.currentSize == Total(fs.index) + fs.overwritten
    && CountsValid(fs.index)
    && Named(fs.index)
  }

  lemma CreateConserves(fs: Fs, path: string, size: int, now: nat)
    requires Conserved(fs)
    ensures Conserved(Created(fs, path, size, now))
  {
    TotalWith(fs.index, path, IndexEntry(path, size, 0, now, 0));
  }

  lemma RemoveConserves(fs: Fs, name: string, ioFails: bool)
    requires Conserved(fs)
    ensures Conserved(Removed(fs, name, ioFails))
  {
    if name in fs.index {
      TotalWithout(fs.index, name);
    } else {
      assert fs.index - {name} == fs.index;
    }
  }

  lemma HitConserves(fs: Fs, name: string)
    requires Conserved(fs)
    ensures Conserved(Hit(fs, name))
  {
    TotalOfSameSizes(fs.index, Hit(fs, name).index);
  }

  lemma ResetConserves(fs: Fs)
    requires Conserved(fs)
    ensures Conserved(Reset(fs))
  {
    TotalOfSameSizes(fs.index, Reset(fs).index);
  }

  // ---------- the sweep ----------

  /** The state after trying to remove the items one by one; attempt `j` meets the I/O outcome `fails(j)`. */
  function Swept(fs: Fs, items: seq<IndexEntry>, fails: nat -> bool): Fs {
    if items == [] then fs
    else Removed(Swept(fs, items[..|items| - 1], fails), items[|items| - 1].name, fails(|items| - 1))
  }

  /** Without I/O failures, and with a file behind every entry, exactly the listed names are gone. */
  lemma {:induction false} SweptWithoutFailures(fs: Fs, items: seq<IndexEntry>, fails: nat -> bool)
    requires forall j :: 0 <= j < |items| ==> !fails(j) && items[j].name in fs.files
    requires forall i, j :: 0 <= i < j < |items| ==> items[i].name != items[j].name
    ensures Swept(fs, items, fails).files == fs.files - Names(items)
    ensures Swept(fs, items, fails).index == fs.index - Names(items)
  {
    if items != [] {
      var m := |items| - 1;
      SweptWithoutFailures(fs, items[..m], fails);
      assert Names(items) == Names(items[..m]) + {items[m].name};
      assert items[m].name !in Names(items[..m]);
    } else {
      assert fs.index - {} == fs.index;
    }
  }

  function Elements(names: seq<string>): set<string> {
    set name | name in names
  }

  function Names(items: seq<IndexEntry>): set<string> {
    set i | 0 <= i < |items| :: items[i].name
  }

  /** The garbage collector tried `list[..k]`, one by one, and stopped as soon as the usage allowed it. */
  ghost predicate ShortestSweep(before: Fs, after: Fs, list: seq<IndexEntry>, k: nat, fails: nat -> bool) {
    && k <= |list|
    && after == Swept(before, list[..k], fails)
    && (forall j :: 0 <= j < k ==> Above(Swept(before, list[..j], fails), GC_LOW_THRESHOLD))
    && (k == |list| || !Above(after, GC_LOW_THRESHOLD))
  }

  // ---------- the program ----------

  class FileSystem {
    const limit: nat
    var files: set<string>
    var index: map<string, IndexEntry>
    var currentSize: int
    ghost var overwritten: int

    ghost function State(): Fs
      reads this
    {
      Fs(limit, files, index, currentSize, overwritten)
    }

    /** Loads the files that exist when the cache is opened. */
    constructor (limit: nat, existing: map<string, (int, nat)>, names: seq<string>)
      requires forall name :: name in names <==> name in existing
      requires forall i, j :: 0 <= i < j < |names| ==> names[i] != names[j]
      ensures this.limit == limit && files == existing.Keys && index.Keys == existing.Keys
      ensures forall name :: name in existing ==>
        index[name] == IndexEntry(name, existing[name].0, 0, existing[name].1, 0)
      ensures Conserved(State()) && overwritten == 0
    {
      this.limit := limit;
      files := existing.Keys;
      index := map[];
      currentSize := 0;
      overwritten := 0;
      new;
      for i := 0 to |names|
        invariant files == existing.Keys && overwritten == 0 && Conserved(State())
        invariant forall name :: name in index <==> name in names[..i]
        invariant forall name :: name in index ==>
          index[name] == IndexEntry(name, existing[name].0, 0, existing[name].1, 0)
      {
        var name := names[i];
        var e := IndexEntry(name, existing[name].0, 0, existing[name].1, 0);
        TotalWith(index, name, e);
        currentSize := currentSize + existing[name].0;
        index := index[name := e];
      }
      assert names[..|names|] == names;
    }

    method Create(path: string, size: int, now: nat, ioFails: bool) returns (ok: bool)
      requires Conserved(State())
      modifies this
      ensures ok == !ioFails
      ensures State() == if ok then Created(old(State()), path, size, now) else old(State())
      ensures ok ==> files == old(files) + {path} && currentSize == old(currentSize) + size
      ensures ok ==>
        && path in index && index[path].name == path && index[path].size == size && index[path].createdAt == now
        && index[path].hits == 0 && index[path].hitsSinceLastReset == 0
      ensures forall other :: other != path ==>
        (other in index <==> other in old(index)) && (other in index ==> index[other] == old(index)[other])
      ensures Conserved(State())
    {
      if ioFails {
        return false;
      }
      CreateConserves(State(), path, size, now);
      overwritten := overwritten + EntrySize(index, path);
      files := files + {path};
      currentSize := currentSize + size;
      index := index[path := IndexEntry(path, size, 0, now, 0)];
      ok := true;
    }

    method Remove(name: string, ioFails: bool) returns (ok: bool)
      modifies this
      ensures ok == CanRemove(old(State()), name, ioFails)
      ensures State() == Removed(old(State()), name, ioFails)
      ensures ok <==> name in old(files) && !ioFails
      ensures ok ==> files == old(files) - {name} && index == old(index) - {name}
      ensures ok ==> currentSize == old(currentSize) - if name in old(index) then old(index)[name].size else 0
      ensures !ok ==> files == old(files) && index == old(index) && currentSize == old(currentSize)
      ensures old(Conserved(State())) ==> Conserved(State())
    {
      if ioFails || name !in files {
        return false;
      }
      ghost var before := State();
      files := files - {name};
      currentSize := currentSize - EntrySize(index, name);
      index := index - {name};
      if Conserved(before) {
        RemoveConserves(before, name, ioFails);
      }
      ok := true;
    }

    /** Removes every file; what is still accounted afterwards is what overwritten entries left behind. */
    method DeleteAll(names: seq<string>, fails: nat -> bool) returns (ok: bool)
      requires Conserved(State())
      requires forall name :: name in names <==> name in files
      requires forall i, j :: 0 <= i < j < |names| ==> names[i] != names[j]
      modifies this
      ensures Conserved(State()) && overwritten == old(overwritten)
      ensures ok <==> forall j :: 0 <= j < |names| ==> !fails(j)
      ensures ok ==> files == {} && index == old(index) - old(files)
      ensures ok && old(index.Keys <= files) ==> currentSize == old(overwritten)
    {
      for i := 0 to |names|
        invariant Conserved(State()) && overwritten == old(overwritten)
        invariant forall j :: 0 <= j < i ==> !fails(j)
        invariant forall name :: name in files <==> name in names[i..]
        invariant index == old(index) - Elements(names[..i])
      {
        ok := Remove(names[i], fails(i));
        if !ok {
          return;
        }
        assert names[..i + 1] == names[..i] + [names[i]];
        assert Elements(names[..i + 1]) == Elements(names[..i]) + {names[i]};
      }
      assert names[..|names|] == names && Elements(names) == old(files);
      if old(index.Keys <= files) {
        assert index == map[];
      }
      ok := true;
    }

    method OpenFile(name: string)
      requires Conserved(State())
      modifies this
      ensures State() == Hit(old(State()), name)
      ensures files == old(files) && currentSize == old(currentSize) && index.Keys == old(index).Keys
      ensures name in index ==>
        && index[name].hits == old(index)[name].hits + 1
        && index[name].hitsSinceLastReset == old(index)[name].hitsSinceLastReset + 1
        && index[name].createdAt == old(index)[name].createdAt && index[name].size == old(index)[name].size
      ensures forall other :: other in index && other != name ==> index[other] == old(index)[other]
      ensures Conserved(State())
    {
      HitConserves(State(), name);
      if name in index {
        var entry := index[name];
        entry := entry.(hits := entry.hits + 1, hitsSinceLastReset := entry.hitsSinceLastReset + 1);
        index := index[name := entry];
      }
    }

    /** `names` is the order in which this call visits the map. */
    method ResetHits(names: seq<string>)
      requires Conserved(State())
      requires forall name :: name in names <==> name in index
      requires forall i, j :: 0 <= i < j < |names| ==> names[i] != names[j]
      modifies `index
      ensures State() == Reset(old(State()))
      ensures index.Keys == old(index).Keys
      ensures forall name :: name in index ==>
        var before := old(index)[name];
        && index[name].hits == (before.hits - before.hitsSinceLastReset) / 2 + before.hitsSinceLastReset
        && index[name].hitsSinceLastReset == 0
        && index[name].createdAt == before.createdAt && index[name].size == before.size
      ensures Conserved(State())
    {
      ResetConserves(State());
      index := ResetEntries(index, names);
    }

    /** The loop of `ResetHits`. */
    static method ResetEntries(entries: map<string, IndexEntry>, names: seq<string>)
      returns (r: map<string, IndexEntry>)
      requires CountsValid(entries)
      requires forall name :: name in names <==> name in entries
      requires forall i, j :: 0 <= i < j < |names| ==> names[i] != names[j]
      ensures r == ResetSome(entries, entries.Keys)
    {
      r := entries;
      ResetEnds(entries, names);
      hide ResetSome, Elements;
      for i := 0 to |names|
        invariant r == ResetSome(entries, Elements(names[..i]))
      {
        ResetOneMore(entries, names, i);
        var entry := r[names[i]];
        var oldHits := entry.hits - entry.hitsSinceLastReset;
        var preservedHits := Halved(oldHits);
        entry := entry.(hits := preservedHits + entry.hitsSinceLastReset, hitsSinceLastReset := 0);
        r := r[names[i] := entry];
      }
    }

    /**
      One collection that nothing interrupts. The items come from the copy of the index; `names` is the order in
      which that copy is visited.
     */
    method RunGarbageCollection(names: seq<string>, fails: nat -> bool)
      returns (ghost list: seq<IndexEntry>, ghost k: nat)
      requires Conserved(State())
      requires forall name :: name in names <==> name in index
      requires forall i, j :: 0 <= i < j < |names| ==> names[i] != names[j]
      modifies this
      ensures Conserved(State())
      ensures limit == 0 || 100 * old(currentSize) < 85 * limit ==> State() == old(State())
      ensures limit != 0 && 100 * old(currentSize) >= 85 * limit ==>
        && IsPriorityList(old(index), Visited(old(index), names), list)
        && ShortestSweep(old(State()), State(), list, k, fails)
        && (k == |list| || 100 * currentSize <= 80 * limit)
    {
      list, k := [], 0;
      ThresholdsInPercent(State());
      if limit == 0 || currentSize as real / limit as real < GC_HIGH_THRESHOLD {
        return;
      }
      var copied := index;
      var items := PriorityList(copied, names);
      list := items;
      k := Sweep(items, fails);
      ThresholdsInPercent(State());
    }

    /** The loop of `RunGarbageCollection`. */
    method Sweep(list: seq<IndexEntry>, fails: nat -> bool) returns (ghost k: nat)
      requires limit != 0 && Conserved(State())
      modifies this
      ensures Conserved(State())
      ensures ShortestSweep(old(State()), State(), list, k, fails)
    {
      ghost var before := State();
      var items, tried := list, 0;
      k := 0;
      assert list[..0] == [];
      while currentSize as real / limit as real > GC_LOW_THRESHOLD
        invariant 0 <= k <= |list| && items == list[k..] && tried == k
        invariant State() == Swept(before, list[..k], fails)
        invariant Conserved(State())
        invariant forall j :: 0 <= j < k ==> Above(Swept(before, list[..j], fails), GC_LOW_THRESHOLD)
        decreases |items|
      {
        if |items| == 0 {
          return;
        }
        var item := items[0];
        assert list[..k + 1][..k] == list[..k] && list[..k + 1][k] == item;
        var _ := Remove(item.name, fails(tried));
        items := items[1..];
        tried := tried + 1;
        k := k + 1;
      }
    }
  }

  /**
    A file that was just created does not rank below an older one that has not been read either, in whatever order the
    index is visited.
   */
  lemma NewRanksNotBelow(fs: Fs, path: string, size: int, now: nat, names: seq<string>, older: string)
    requires var index := Created(fs, path, size, now).index; forall name :: name in names <==> name in index
    requires older in fs.index && older != path && fs.index[older].hits == 0 && fs.index[older].createdAt <= now
    ensures var index := Created(fs, path, size, now).index;
      var priority := PriorityWithin(Scan(Visited(index, names)));
      && path in index && older in index
      && !priority(index[path]).Less(priority(index[older]))
  {
    var index := Created(fs, path, size, now).index;
    var order := Visited(index, names);
    assert path in names && older in names;
    var i :| 0 <= i < |names| && names[i] == path;
    var j :| 0 <= j < |names| && names[j] == older;
    assert order[i] == index[path] && order[j] == index[older];
    MoreHitsAndNewerNeverBelow(order, index[older], index[path]);
  }

  lemma SweepRemovesPrefix(before: Fs, list: seq<IndexEntry>, order: seq<IndexEntry>, k: nat, fails: nat -> bool)
    requires before.index.Keys <= before.files && k <= |list|
    requires forall j :: 0 <= j < k ==> !fails(j)
    requires IsPriorityList(before.index, order, list)
    ensures Swept(before, list[..k], fails).index == before.index - Names(list[..k])
  {
    assert forall j :: 0 <= j < |list| ==> list[j] in list;
    SweptWithoutFailures(before, list[..k], fails);
  }

  lemma PrefixRanksLowest(
    index: map<string, IndexEntry>, list: seq<IndexEntry>, k: nat, priority: IndexEntry -> Float, victim: string,
    survivor: string)
    requires k <= |list| && SortedBy(list, priority)
    requires forall e :: e in list <==> e.name in index && index[e.name] == e
    requires Named(index) && victim in index && survivor in index
    requires victim in Names(list[..k]) && survivor !in Names(list[..k])
    ensures !priority(index[survivor]).Less(priority(index[victim]))
  {
    var i :| 0 <= i < k && list[..k][i].name == victim;
    assert list[i] in list;
    var j :| 0 <= j < |list| && list[j] == index[survivor];
    assert forall m :: 0 <= m < k ==> list[..k][m] == list[m] && list[..k][m].name in Names(list[..k]);
  }

  /**
    The collector deletes the shortest prefix of the priority list that brings the usage down far enough, nothing
    else, and no survivor ranks strictly below a victim.
   */
  lemma VictimsRankLowest(
    before: Fs, after: Fs, list: seq<IndexEntry>, order: seq<IndexEntry>, k: nat, fails: nat -> bool, victim: string,
    survivor: string)
    requires before.limit != 0 && Named(before.index) && before.index.Keys <= before.files
    requires forall j :: 0 <= j < k ==> !fails(j)
    requires IsPriorityList(before.index, order, list) && ShortestSweep(before, after, list, k, fails)
    ensures after.index == before.index - Names(list[..k])
    ensures victim in before.index && victim !in after.index && survivor in after.index ==>
      var priority := PriorityWithin(Scan(order));
      !priority(before.index[survivor]).Less(priority(before.index[victim]))
  {
    SweepRemovesPrefix(before, list, order, k, fails);
    if victim in before.index && victim !in after.index && survivor in after.index {
      PrefixRanksLowest(before.index, list, k, PriorityWithin(Scan(order)), victim, survivor);
    }
  }
}
