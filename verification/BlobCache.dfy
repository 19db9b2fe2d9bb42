/**
  The two-layer blob cache (ociclient/cache/cache.go), the in-memory cache (ociclient/cache/inmemory.go) and the
  fetch path that reads through either of them (getFetchReader in ociclient/client.go).
 */
module BlobCache {
  import opened Common
  import opened Oci

  datatype CacheError = NotFound | IoError

  /** An open file: what it holds and where the next read starts. */
  datatype File = File(content: Bytes, offset: nat)

  function Path(desc: Descriptor): string {
    desc.digest.encoded
  }

  /** The I/O calls of one operation that fail; a failing copy still writes its first `n` bytes. */
  datatype Faults = Faults(
    overlayVerify: bool, overlayRemove: bool, overlayOpen: bool,
    stat: bool, verify: bool, remove: bool, open: bool,
    create: bool, copy: Option<nat>, seek: bool)

  const NO_FAULTS := Faults(false, false, false, false, false, false, false, false, None, false)

  predicate Holds(h: Hasher, files: map<string, Bytes>, desc: Descriptor) {
    && Path(desc) in files
    && |files[Path(desc)]| == desc.size
    && Matches(h, desc.digest, files[Path(desc)])
  }

  /** What a lookup without I/O faults finds. */
  function Lookup(h: Hasher, base: map<string, Bytes>, overlay: Option<map<string, Bytes>>, desc: Descriptor)
    : Option<Bytes>
  {
    if overlay.Some? && Holds(h, overlay.value, desc) then Some(overlay.value[Path(desc)])
    else if Holds(h, base, desc) then Some(base[Path(desc)])
    else None
  }

  function FirstBytes(content: Bytes, n: nat): Bytes {
    if n <= |content| then content[..n] else content
  }

  /** What is left of a layer after a lookup there: a file that is not what the descriptor says is removed. */
  function Checked(h: Hasher, files: map<string, Bytes>, desc: Descriptor, verifyFails: bool, removeFails: bool)
    : map<string, Bytes>
  {
    if Path(desc) in files && !removeFails &&
      (|files[Path(desc)]| != desc.size || (!verifyFails && !Matches(h, desc.digest, files[Path(desc)])))
    then files - {Path(desc)}
    else files
  }

  predicate FoundInOverlay(h: Hasher, overlay: Option<map<string, Bytes>>, desc: Descriptor, faults: Faults) {
    overlay.Some? && Holds(h, overlay.value, desc) && !faults.overlayVerify && !faults.overlayOpen
  }

  /** What a Get returns: the overlay's file, or what the base layer has to say, including a failing rewind. */
  function GetResult(
    h: Hasher, base: map<string, Bytes>, overlay: Option<map<string, Bytes>>, desc: Descriptor, faults: Faults)
    : Result<File, CacheError>
  {
    if FoundInOverlay(h, overlay, desc, faults) then Ok(File(overlay.value[Path(desc)], 0))
    else if faults.stat then Err(IoError)
    else if Path(desc) !in base || |base[Path(desc)]| != desc.size then Err(NotFound)
    else if faults.verify then Err(IoError)
    else if !Matches(h, desc.digest, base[Path(desc)]) then Err(NotFound)
    else if faults.open || (overlay.Some? && !faults.create && faults.seek) then Err(IoError)
    else Ok(File(base[Path(desc)], 0))
  }

  function BaseAfter(
    h: Hasher, base: map<string, Bytes>, overlay: Option<map<string, Bytes>>, desc: Descriptor, faults: Faults)
    : map<string, Bytes>
  {
    if FoundInOverlay(h, overlay, desc, faults) || faults.stat then base
    else Checked(h, base, desc, faults.verify, faults.remove)
  }

  /** A file that the base layer yields is copied to the overlay, or its first bytes are. */
  function OverlayAfter(
    h: Hasher, base: map<string, Bytes>, overlay: Option<map<string, Bytes>>, desc: Descriptor, faults: Faults)
    : Option<map<string, Bytes>>
  {
    if overlay == None || FoundInOverlay(h, overlay, desc, faults) then overlay
    else
      var kept := Checked(h, overlay.value, desc, faults.overlayVerify, faults.overlayRemove);
      if faults.create || faults.stat || !Holds(h, base, desc) || faults.verify || faults.open then Some(kept)
      else
        var content := base[Path(desc)];
        Some(kept[Path(desc) := FirstBytes(content, if faults.copy.Some? then faults.copy.value else |content|)])
  }

  /** What this means for the caller. */
  lemma GetGuarantees(
    h: Hasher, base: map<string, Bytes>, overlay: Option<map<string, Bytes>>, desc: Descriptor, faults: Faults)
    ensures var r := GetResult(h, base, overlay, desc, faults);
      r.Ok? ==>
        && r.value.offset == 0 && |r.value.content| == desc.size && Matches(h, desc.digest, r.value.content)
        && Lookup(h, base, overlay, desc).Some?
    ensures var base', overlay' :=
        BaseAfter(h, base, overlay, desc, faults), OverlayAfter(h, base, overlay, desc, faults);
      && base' - {Path(desc)} == base - {Path(desc)}
      && (Path(desc) in base' ==> Path(desc) in base && base'[Path(desc)] == base[Path(desc)])
      && (overlay'.Some? <==> overlay.Some?)
      && (overlay'.Some? ==> overlay'.value - {Path(desc)} == overlay.value - {Path(desc)})
  {
  }

  lemma GetWithoutFaults(
    h: Hasher, base: map<string, Bytes>, overlay: Option<map<string, Bytes>>, desc: Descriptor)
    ensures var r, found := GetResult(h, base, overlay, desc, NO_FAULTS), Lookup(h, base, overlay, desc);
      r == if found.Some? then Ok(File(found.value, 0)) else Err(NotFound)
    ensures var r, base', overlay' := GetResult(h, base, overlay, desc, NO_FAULTS),
        BaseAfter(h, base, overlay, desc, NO_FAULTS), OverlayAfter(h, base, overlay, desc, NO_FAULTS);
      && Lookup(h, base', overlay', desc) == Lookup(h, base, overlay, desc)
      && (r.Err? ==> Path(desc) !in base')
      && (r.Ok? && overlay'.Some? ==> Holds(h, overlay'.value, desc))
  {
    if Holds(h, base, desc) {
      assert base[Path(desc)][..|base[Path(desc)]|] == base[Path(desc)];
    }
  }

  function Elements(names: seq<string>): set<string> {
    set name | name in names
  }

  class LayeredCache {
    var base: map<string, Bytes>
    var overlay: Option<map<string, Bytes>>

    constructor (files: map<string, Bytes>, inMemoryOverlay: bool)
      ensures base == files && overlay == if inMemoryOverlay then Some(map[]) else None
    {
      base := files;
      overlay := if inMemoryOverlay then Some(map[]) else None;
    }

    /**
      A successful Get, from any state of the two layers and under any faults, yields an unread file with the size and
      the digest of the descriptor. Nothing but the entry of this descriptor changes.
     */
    method Get(h: Hasher, desc: Descriptor, faults: Faults) returns (r: Result<File, CacheError>)
      modifies this
      ensures r.Ok? ==>
        r.value.offset == 0 && |r.value.content| == desc.size && Matches(h, desc.digest, r.value.content)
      ensures r.Ok? ==> Lookup(h, old(base), old(overlay), desc).Some?
      ensures faults == NO_FAULTS ==>
        var found := Lookup(h, old(base), old(overlay), desc);
        r == if found.Some? then Ok(File(found.value, 0)) else Err(NotFound)
      ensures faults == NO_FAULTS ==> Lookup(h, base, overlay, desc) == Lookup(h, old(base), old(overlay), desc)
      ensures r == GetResult(h, old(base), old(overlay), desc, faults)
      ensures base == BaseAfter(h, old(base), old(overlay), desc, faults)
      ensures overlay == OverlayAfter(h, old(base), old(overlay), desc, faults)
      ensures faults == NO_FAULTS && r.Err? ==> Path(desc) !in base
      ensures faults == NO_FAULTS && r.Ok? && overlay.Some? ==> Holds(h, overlay.value, desc)
      ensures base - {Path(desc)} == old(base) - {Path(desc)}
      ensures Path(desc) in base ==> Path(desc) in old(base) && base[Path(desc)] == old(base)[Path(desc)]
      ensures overlay.Some? <==> old(overlay).Some?
      ensures overlay.Some? ==> overlay.value - {Path(desc)} == old(overlay).value - {Path(desc)}
    {
      GetGuarantees(h, base, overlay, desc, faults);
      GetWithoutFaults(h, base, overlay, desc);
      r := GetFromOverlay(h, desc, faults);
      if r.Err? {
        r := GetFromBase(h, desc, faults);
      }
    }

    method GetFromBase(h: Hasher, desc: Descriptor, faults: Faults) returns (r: Result<File, CacheError>)
      modifies this
      ensures !FoundInOverlay(h, old(overlay), desc, faults) ==>
        r == GetResult(h, old(base), old(overlay), desc, faults)
      ensures base == if faults.stat then old(base) else Checked(h, old(base), desc, faults.verify, faults.remove)
      ensures overlay ==
        if old(overlay) == None || faults.create || faults.stat || !Holds(h, old(base), desc) || faults.verify ||
           faults.open
        then old(overlay)
        else
          var content := old(base)[Path(desc)];
          Some(old(overlay).value[Path(desc) :=
            FirstBytes(content, if faults.copy.Some? then faults.copy.value else |content|)])
    {
      var path := Path(desc);
      if faults.stat {
        return Err(IoError);
      }
      if path !in base {
        return Err(NotFound);
      }
      var info := |base[path]|;
      var verified := VerifyBlob(h, base[path], info, desc, faults.verify);
      if verified.Err? {
        return Err(IoError);
      }
      if !verified.value {
        if !faults.remove {
          base := base - {path};
        }
        return Err(NotFound);
      }
      if faults.open {
        return Err(IoError);
      }
      var file := File(base[path], 0);
      if overlay.Some? {
        if faults.create {
          return Ok(file);
        }
        var n := if faults.copy.Some? then faults.copy.value else |file.content|;
        overlay := Some(overlay.value[path := FirstBytes(file.content, n)]);
        file := file.(offset := if n <= |file.content| then n else |file.content|);
        if faults.seek {
          return Err(IoError);
        }
        file := file.(offset := 0);
      }
      r := Ok(file);
    }

    method GetFromOverlay(h: Hasher, desc: Descriptor, faults: Faults) returns (r: Result<File, CacheError>)
      modifies `overlay
      ensures r.Ok? ==> old(overlay).Some? && Holds(h, old(overlay).value, desc) && overlay == old(overlay)
      ensures r.Ok? <==> FoundInOverlay(h, old(overlay), desc, faults)
      ensures r.Err? && old(overlay).Some? ==>
        overlay == Some(Checked(h, old(overlay).value, desc, faults.overlayVerify, faults.overlayRemove))
      ensures r.Ok? ==> r.value == File(old(overlay).value[Path(desc)], 0)
      ensures faults == NO_FAULTS && old(overlay).Some? && Holds(h, old(overlay).value, desc) ==> r.Ok?
      ensures overlay.Some? <==> old(overlay).Some?
      ensures overlay.Some? ==>
        overlay.value == old(overlay).value || overlay.value == old(overlay).value - {Path(desc)}
    {
      var path := Path(desc);
      if overlay == None || path !in overlay.value {
        return Err(NotFound);
      }
      var content := overlay.value[path];
      var verified := VerifyBlob(h, content, |content|, desc, faults.overlayVerify);
      if verified.Err? {
        return Err(IoError);
      }
      if !verified.value {
        if !faults.overlayRemove {
          overlay := Some(overlay.value - {path});
        }
        return Err(NotFound);
      }
      if faults.overlayOpen {
        return Err(IoError);
      }
      r := Ok(File(content, 0));
    }

    /** Writes whatever the reader yields, up to the fault, and checks nothing. */
    method Add(desc: Descriptor, content: Bytes, faults: Faults) returns (ok: bool)
      modifies `base
      ensures ok <==> !faults.create && faults.copy == None
      ensures base - {Path(desc)} == old(base) - {Path(desc)}
      ensures ok ==> base == old(base)[Path(desc) := content]
      ensures faults.create ==> base == old(base)
      ensures !faults.create && faults.copy.Some? ==>
        var n := faults.copy.value;
        base == old(base)[Path(desc) := if n <= |content| then content[..n] else content]
    {
      if faults.create {
        return false;
      }
      if faults.copy.Some? {
        base := base[Path(desc) := FirstBytes(content, faults.copy.value)];
        return false;
      }
      base := base[Path(desc) := content];
      ok := true;
    }

    /**
      Removes the files of the base layer, in the order of a directory listing, up to the first failure. Exactly the
      blobs in the overlay and in what is left can still be read; after a success that is the overlay alone.
     */
    method Prune(names: seq<string>, listFails: bool, fails: nat -> bool) returns (ok: bool, ghost removed: nat)
      requires (forall name :: name in names <==> name in base)
      modifies `base
      ensures removed <= |names| && base == old(base) - Elements(names[..removed])
      ensures ok <==> !listFails && forall j :: 0 <= j < |names| ==> !fails(j)
      ensures ok ==> removed == |names| && base == map[]
      ensures !ok ==> if listFails then removed == 0 else removed < |names| && fails(removed)
      ensures forall j :: 0 <= j < removed ==> !fails(j)
      ensures forall h, desc ::
        Lookup(h, base, overlay, desc).Some? <==>
          || (overlay.Some? && Holds(h, overlay.value, desc))
          || (Holds(h, old(base), desc) && Path(desc) !in names[..removed])
    {
      removed := 0;
      ok := !listFails;
      if listFails {
        return;
      }
      for i := 0 to |names|
        invariant removed == i
        invariant base == old(base) - Elements(names[..i])
        invariant forall j :: 0 <= j < i ==> !fails(j)
      {
        if fails(i) {
          return false, removed;
        }
        base := base - {names[i]};
        assert names[..i + 1] == names[..i] + [names[i]];
        removed := removed + 1;
      }
      assert names[..|names|] == names;
    }

    /** Garbage collection and changes from outside: any file may go, or hold something else. */
    method Disturb(base: map<string, Bytes>, overlay: Option<map<string, Bytes>>)
      requires overlay.Some? <==> this.overlay.Some?
      modifies this
      ensures this.base == base && this.overlay == overlay
    {
      this.base, this.overlay := base, overlay;
    }
  }

  method VerifyBlob(h: Hasher, content: Bytes, infoSize: int, desc: Descriptor, ioFails: bool)
    returns (r: Result<bool, CacheError>)
    ensures infoSize != desc.size ==> r == Ok(false)
    ensures infoSize == desc.size ==> r == if ioFails then Err(IoError) else Ok(Matches(h, desc.digest, content))
  {
    if infoSize != desc.size {
      return Ok(false);
    }
    if ioFails {
      return Err(IoError);
    }
    r := Ok(Matches(h, desc.digest, content));
  }

  /** Whatever the overlay holds, it neither changes the bytes that a lookup finds nor hides them. */
  lemma OverlayTransparent(h: Hasher, base: map<string, Bytes>, overlay: map<string, Bytes>, desc: Descriptor)
    requires CollisionFree(h)
    ensures Lookup(h, base, None, desc).Some? ==>
      Lookup(h, base, Some(overlay), desc) == Lookup(h, base, None, desc)
  {
    if Holds(h, overlay, desc) && Holds(h, base, desc) {
      assert h(desc.digest.algorithm, overlay[Path(desc)]) == h(desc.digest.algorithm, base[Path(desc)]);
    }
  }

  /** The simple cache: the first content added under a digest stays, and nothing is ever verified. */
  class InMemoryCache {
    var store: map<Digest, Bytes>

    constructor ()
      ensures store == map[]
    {
      store := map[];
    }

    method Get(desc: Descriptor) returns (r: Result<File, CacheError>)
      ensures r == if desc.digest in store then Ok(File(store[desc.digest], 0)) else Err(NotFound)
    {
      if desc.digest !in store {
        return Err(NotFound);
      }
      r := Ok(File(store[desc.digest], 0));
    }

    method Add(desc: Descriptor, content: Bytes, readFails: bool) returns (ok: bool)
      modifies this
      ensures desc.digest in old(store) ==> ok && store == old(store)
      ensures desc.digest !in old(store) ==>
        ok == !readFails && store == if ok then old(store)[desc.digest := content] else old(store)
      ensures forall d :: d in old(store) ==> d in store && store[d] == old(store)[d]
      ensures forall h :: ContentAddressed(h, old(store)) && Matches(h, desc.digest, content) ==>
        ContentAddressed(h, store)
    {
      if desc.digest in store {
        return true;
      }
      if readFails {
        return false;
      }
      store := store[desc.digest := content];
      ok := true;
    }
  }

  // ---------- the fetch path ----------

  datatype Cache = NoCache | Layered(layered: LayeredCache) | InMemory(memory: InMemoryCache)

  ghost function Footprint(cache: Cache): set<object> {
    match cache
    case NoCache => {}
    case Layered(c) => {c}
    case InMemory(c) => {c}
  }

  /** An in-memory cache does not verify, so it has to have been filled with the right content. */
  ghost predicate Consistent(h: Hasher, cache: Cache)
    reads Footprint(cache)
  {
    cache.InMemory? ==> ContentAddressed(h, cache.memory.store)
  }

  /** The next fetch finds the content in the cache. */
  ghost predicate Cached(h: Hasher, cache: Cache, desc: Descriptor, content: Bytes)
    reads Footprint(cache)
  {
    match cache
    case NoCache => true
    case Layered(c) => Lookup(h, c.base, c.overlay, desc) == Some(content)
    case InMemory(c) => desc.digest in c.store && c.store[desc.digest] == content
  }

  /** The faults of the calls that one fetch makes, and whether the blob is evicted between Add and Get. */
  datatype FetchFaults = FetchFaults(
    firstGet: Faults, fetch: bool, add: Faults, refetch: bool, evicted: bool, secondGet: Faults)

  const NO_FETCH_FAULTS := FetchFaults(NO_FAULTS, false, NO_FAULTS, false, false, NO_FAULTS)

  /** The request that a client without a cache would make. */
  function Uncached(registry: map<Digest, Bytes>, desc: Descriptor, fails: bool): Result<File, CacheError> {
    if fails then Err(IoError)
    else if desc.digest !in registry then Err(NotFound)
    else Ok(File(registry[desc.digest], 0))
  }

  /**
    What a fault-free fetch yields. A layered cache finds a blob only under its exact size, and one that it had to get
    from the registry first must have that size as well.
   */
  ghost function Fetchable(h: Hasher, registry: map<Digest, Bytes>, cache: Cache, desc: Descriptor): Option<Bytes>
    reads Footprint(cache)
  {
    var remote := if desc.digest in registry then Some(registry[desc.digest]) else None;
    match cache
    case NoCache => remote
    case InMemory(c) => if desc.digest in c.store then Some(c.store[desc.digest]) else remote
    case Layered(c) =>
      var found := Lookup(h, c.base, c.overlay, desc);
      if found.Some? then found
      else if remote.Some? && |remote.value| == desc.size then remote
      else None
  }

  /**
    A successful fetch through any cache yields what the registry has under the digest, on a hit, after a miss, and
    after a failed Add; faults and evictions can only turn it into an error. Through a layered cache a fault-free fetch
    succeeds exactly if the size in the descriptor is the size of the content.
   */
  method GetFetchReader(h: Hasher, registry: map<Digest, Bytes>, cache: Cache, desc: Descriptor, faults: FetchFaults)
    returns (r: Result<File, CacheError>)
    requires CollisionFree(h) && ContentAddressed(h, registry) && Consistent(h, cache)
    modifies Footprint(cache)
    ensures Consistent(h, cache)
    ensures r.Ok? ==> Matches(h, desc.digest, r.value.content) && r.value.offset == 0
    ensures r.Ok? && desc.digest in registry ==> r == Uncached(registry, desc, false)
    ensures r.Ok? ==> desc.digest in registry || old(Fetchable(h, registry, cache, desc)).Some?
    ensures faults == NO_FETCH_FAULTS ==>
      var found := old(Fetchable(h, registry, cache, desc));
      r == if found.Some? then Ok(File(found.value, 0)) else Err(NotFound)
    ensures faults == NO_FETCH_FAULTS && desc.digest in registry ==>
      (r.Ok? <==> cache.Layered? ==> |registry[desc.digest]| == desc.size)
    ensures cache.InMemory? ==> OnlyAdded(registry, desc, old(cache.memory.store), cache.memory.store)
    ensures faults == NO_FETCH_FAULTS && r.Ok? ==> Cached(h, cache, desc, r.value.content)
  {
    match cache
    case NoCache =>
      r := Uncached(registry, desc, faults.fetch);
    case Layered(c) =>
      r := FetchThroughLayered(h, registry, c, desc, faults);
      if r.Ok? && desc.digest in registry {
        assert h(desc.digest.algorithm, r.value.content) == h(desc.digest.algorithm, registry[desc.digest]);
      }
    case InMemory(c) =>
      r := FetchThroughMemory(h, registry, c, desc, faults);
      if r.Ok? && desc.digest in registry {
        assert h(desc.digest.algorithm, r.value.content) == h(desc.digest.algorithm, registry[desc.digest]);
      }
  }

  /** Nothing but this one blob may have been added, as the registry has it. */
  predicate OnlyAdded(
    registry: map<Digest, Bytes>, desc: Descriptor, store: map<Digest, Bytes>, store': map<Digest, Bytes>)
  {
    store' == store ||
    (desc.digest in registry && desc.digest !in store && store' == store[desc.digest := registry[desc.digest]])
  }

  method FetchThroughLayered(
    h: Hasher, registry: map<Digest, Bytes>, c: LayeredCache, desc: Descriptor, faults: FetchFaults)
    returns (r: Result<File, CacheError>)
    requires CollisionFree(h) && ContentAddressed(h, registry)
    modifies c
    ensures r.Ok? ==> Matches(h, desc.digest, r.value.content) && r.value.offset == 0
    ensures r.Ok? ==> desc.digest in registry || old(Lookup(h, c.base, c.overlay, desc)).Some?
    ensures faults.firstGet == NO_FAULTS && (faults.add.create || faults.add.copy.Some?) && !faults.refetch ==>
      old(Lookup(h, c.base, c.overlay, desc)) == None ==> r == Uncached(registry, desc, faults.fetch)
    ensures faults == NO_FETCH_FAULTS ==>
      var found := old(Fetchable(h, registry, Layered(c), desc));
      r == if found.Some? then Ok(File(found.value, 0)) else Err(NotFound)
    ensures faults == NO_FETCH_FAULTS && r.Ok? ==> Lookup(h, c.base, c.overlay, desc) == Some(r.value.content)
  {
    r := c.Get(h, desc, faults.firstGet);
    if r.Ok? || r.error != NotFound {
      if r.Ok? && desc.digest in registry {
        assert h(desc.digest.algorithm, r.value.content) == h(desc.digest.algorithm, registry[desc.digest]);
      }
      return;
    }
    var reader := Uncached(registry, desc, faults.fetch);
    if reader.Err? {
      return reader;
    }
    var added := c.Add(desc, reader.value.content, faults.add);
    if !added {
      r := Uncached(registry, desc, faults.refetch);
      return;
    }
    if faults.evicted {
      c.Disturb(c.base - {Path(desc)}, c.overlay);
    }
    r := c.Get(h, desc, faults.secondGet);
    if r.Ok? {
      assert h(desc.digest.algorithm, r.value.content) == h(desc.digest.algorithm, registry[desc.digest]);
    }
  }

  method FetchThroughMemory(
    h: Hasher, registry: map<Digest, Bytes>, c: InMemoryCache, desc: Descriptor, faults: FetchFaults)
    returns (r: Result<File, CacheError>)
    requires ContentAddressed(h, registry) && ContentAddressed(h, c.store)
    modifies c
    ensures ContentAddressed(h, c.store)
    ensures r.Ok? ==> Matches(h, desc.digest, r.value.content) && r.value.offset == 0
    ensures r.Ok? ==> desc.digest in registry || desc.digest in old(c.store)
    ensures faults == NO_FETCH_FAULTS ==>
      var found := old(Fetchable(h, registry, InMemory(c), desc));
      r == if found.Some? then Ok(File(found.value, 0)) else Err(NotFound)
    ensures faults.add.copy.Some? && !faults.fetch && desc.digest in registry && desc.digest !in old(c.store) ==>
      r == Uncached(registry, desc, faults.refetch)
    ensures OnlyAdded(registry, desc, old(c.store), c.store)
    ensures faults == NO_FETCH_FAULTS && r.Ok? ==> desc.digest in c.store && c.store[desc.digest] == r.value.content
  {
    r := c.Get(desc);
    if r.Ok? {
      return;
    }
    var reader := Uncached(registry, desc, faults.fetch);
    if reader.Err? {
      return reader;
    }
    var added := c.Add(desc, reader.value.content, faults.add.copy.Some?);
    if !added {
      r := Uncached(registry, desc, faults.refetch);
      return;
    }
    r := c.Get(desc);
  }
}
