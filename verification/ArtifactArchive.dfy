/**
  Writing an OCI artifact with all its blobs into a tar archive, and reading it back
  (pkg/transport/process/utils/oci_artifact_serialization.go).
 */
module ArtifactArchive {
  import opened Common
  import opened Oci
  import opened Strings
  import opened BlobCache

  datatype ManifestData = ManifestData(
    schemaVersion: int, mediaType: string, config: Descriptor, layers: seq<Descriptor>,
    annotations: map<string, string>)

  datatype Manifest = Manifest(descriptor: Descriptor, data: ManifestData)

  datatype Artifact = Single(manifest: Manifest) | Index(manifests: seq<Manifest>, annotations: map<string, string>)

  datatype IndexData = IndexData(schemaVersion: int, manifests: seq<Descriptor>, annotations: map<string, string>)

  /** JSON and hashing, by the libraries. */
  datatype Codec = Codec(
    h: Hasher,
    encodeManifest: ManifestData -> Bytes, manifest: Bytes -> Option<ManifestData>,
    encodeIndex: IndexData -> Bytes, index: Bytes -> Option<IndexData>)

  ghost predicate RoundTrips(c: Codec) {
    && (forall m :: c.manifest(c.encodeManifest(m)) == Some(m))
    && (forall i :: c.index(c.encodeIndex(i)) == Some(i))
  }

  /** Sums are written in hexadecimal digits. How many is left open: no hash of fixed length is free of collisions. */
  ghost predicate Hexadecimal(h: Hasher) {
    forall alg, content ::
      var encoded := h(alg, content);
      encoded != "" && forall i :: 0 <= i < |encoded| ==> encoded[i] in "0123456789abcdef"
  }

  /** No two contents have the same sum, by whatever algorithms: their sums differ in length. */
  ghost predicate Unmistakable(h: Hasher) {
    && CollisionFree(h)
    && forall alg, alg', a, b :: h(alg, a) == h(alg', b) ==> alg == alg'
  }

  datatype TarFile = TarFile(name: string, content: Bytes)

  datatype ArchiveError = NilCache | BlobNotFound | Malformed | InvalidFilename | UnknownFile

  const MANIFEST_FILE := "manifest.json"
  const INDEX_FILE := "index.json"
  const BLOBS_DIR := "blobs"

  function BlobName(encoded: string): string {
    BLOBS_DIR + ['/'] + encoded
  }

  // ---------- the cache, as a value ----------

  /** What one of the two caches holds at one point in time. */
  datatype Snapshot =
    | Nil
    | Memory(store: map<Digest, Bytes>)
    | Layers(base: map<string, Bytes>, overlay: Option<map<string, Bytes>>)

  ghost function Snap(cache: Cache): Snapshot
    reads Footprint(cache)
  {
    match cache
    case NoCache => Nil
    case Layered(c) => Layers(c.base, c.overlay)
    case InMemory(c) => Memory(c.store)
  }

  /** What reading a blob yields. */
  function Seen(h: Hasher, s: Snapshot, desc: Descriptor): Option<Bytes> {
    match s
    case Nil => None
    case Memory(store) => if desc.digest in store then Some(store[desc.digest]) else None
    case Layers(base, overlay) => Lookup(h, base, overlay, desc)
  }

  /** Every descriptor reads the same. */
  ghost predicate Same(h: Hasher, s: Snapshot, s': Snapshot) {
    forall desc: Descriptor :: Seen(h, s, desc) == Seen(h, s', desc)
  }

  method Read(h: Hasher, cache: Cache, desc: Descriptor) returns (r: Option<Bytes>)
    requires Unmistakable(h)
    modifies Footprint(cache)
    ensures r == Seen(h, old(Snap(cache)), desc)
    ensures r.Some? ==> Same(h, old(Snap(cache)), Snap(cache))
    ensures old(Snap(cache)).Memory? ==> Snap(cache) == old(Snap(cache))
  {
    match cache
    case NoCache => r := None;
    case InMemory(c) =>
      var file := c.Get(desc);
      r := if file.Ok? then Some(file.value.content) else None;
    case Layered(c) =>
      ghost var base, overlay := c.base, c.overlay;
      var file := c.Get(h, desc, NO_FAULTS);
      r := if file.Ok? then Some(file.value.content) else None;
      if r.Some? {
        forall other: Descriptor
          ensures Lookup(h, base, overlay, other) == Lookup(h, c.base, c.overlay, other)
        {
          GetKeepsLookups(h, base, overlay, c.base, c.overlay, desc, other);
        }
      }
  }

  /** What a successful, fault-free Get may do to the two layers changes no other lookup. */
  lemma GetKeepsLookups(
    h: Hasher, base: map<string, Bytes>, overlay: Option<map<string, Bytes>>, base': map<string, Bytes>,
    overlay': Option<map<string, Bytes>>, desc: Descriptor, other: Descriptor)
    requires Unmistakable(h)
    requires base' - {Path(desc)} == base - {Path(desc)}
    requires overlay'.Some? <==> overlay.Some?
    requires overlay'.Some? ==> overlay'.value - {Path(desc)} == overlay.value - {Path(desc)}
    requires Path(desc) in base' ==> Path(desc) in base && base'[Path(desc)] == base[Path(desc)]
    requires Lookup(h, base, overlay, desc).Some?
    requires Lookup(h, base', overlay', desc) == Lookup(h, base, overlay, desc)
    ensures Lookup(h, base, overlay, other) == Lookup(h, base', overlay', other)
  {
    if Path(other) == Path(desc) {
      SamePathLookup(h, base, overlay, desc, other);
      SamePathLookup(h, base', overlay', desc, other);
    } else {
      assert base' - {Path(desc)} == base - {Path(desc)};
      assert Path(other) in base' - {Path(desc)} <==> Path(other) in base';
      assert Path(other) in base - {Path(desc)} <==> Path(other) in base;
      if overlay.Some? {
        assert Path(other) in overlay'.value - {Path(desc)} <==> Path(other) in overlay'.value;
        assert Path(other) in overlay.value - {Path(desc)} <==> Path(other) in overlay.value;
      }
    }
  }

  /** Where one descriptor finds its content, others that look there need the same algorithm and size. */
  lemma SamePathLookup(
    h: Hasher, base: map<string, Bytes>, overlay: Option<map<string, Bytes>>, desc: Descriptor, other: Descriptor)
    requires Unmistakable(h) && Path(desc) == Path(other)
    requires Lookup(h, base, overlay, desc).Some?
    ensures Lookup(h, base, overlay, other) ==
      if other.digest == desc.digest && other.size == desc.size then Lookup(h, base, overlay, desc) else None
  {
    var found, content := Lookup(h, base, overlay, other), Lookup(h, base, overlay, desc).value;
    if found.Some? {
      assert h(other.digest.algorithm, found.value) == h(desc.digest.algorithm, content);
    }
  }

  method Store(h: Hasher, cache: Cache, desc: Descriptor, content: Bytes)
    modifies Footprint(cache)
    ensures Snap(cache) == Stored(old(Snap(cache)), desc.digest, content)
  {
    match cache
    case NoCache =>
    case InMemory(c) => var _ := c.Add(desc, content, false);
    case Layered(c) => var _ := c.Add(desc, content, NO_FAULTS);
  }

  /** The in-memory cache keeps what it has, the layered cache overwrites it. */
  function Stored(s: Snapshot, digest: Digest, content: Bytes): Snapshot {
    match s
    case Nil => Nil
    case Memory(store) => if digest in store then s else Memory(store[digest := content])
    case Layers(base, overlay) => Layers(base[digest.encoded := content], overlay)
  }

  // ---------- writing ----------

  /** `CreateDescriptorFromManifest` first sets a missing schema version. */
  function Versioned(m: ManifestData): ManifestData {
    if m.schemaVersion == 0 then m.(schemaVersion := 2) else m
  }

  function CreateDescriptorFromManifest(c: Codec, m: ManifestData): (r: Descriptor)
    ensures var content := c.encodeManifest(if m.schemaVersion == 0 then m.(schemaVersion := 2) else m);
      r == Descriptor(
        "application/vnd.oci.image.manifest.v1+json", Digest("sha256", c.h("sha256", content)), |content|, map[], None,
        [])
  {
    var content := c.encodeManifest(Versioned(m));
    Descriptor(
      MEDIA_TYPE_IMAGE_MANIFEST, Digest("sha256", c.h("sha256", content)), |content|, map[], None, [])
  }

  /** The descriptor that the archive's index gets for a manifest. */
  function Described(c: Codec, m: Manifest): Descriptor {
    CreateDescriptorFromManifest(c, m.data).(
      annotations := m.descriptor.annotations, platform := m.descriptor.platform, urls := m.descriptor.urls)
  }

  function BlobFile(c: Codec, s: Snapshot): Descriptor -> Result<TarFile, ArchiveError> {
    (desc: Descriptor) =>
      match Seen(c.h, s, desc)
      case None => Err(BlobNotFound)
      case Some(content) => Ok(TarFile(BlobName(desc.digest.encoded), content))
  }

  /** The manifest, its configuration, its layers. */
  function ImageFiles(c: Codec, s: Snapshot, m: ManifestData, name: string): Result<seq<TarFile>, ArchiveError> {
    var config :- BlobFile(c, s)(m.config);
    var layers :- TryMap(BlobFile(c, s), m.layers);
    Ok([TarFile(name, c.encodeManifest(m)), config] + layers)
  }

  function IndexFiles(c: Codec, s: Snapshot, ms: seq<Manifest>): Result<seq<TarFile>, ArchiveError> {
    if ms == [] then Ok([])
    else
      var m := ms[|ms| - 1];
      var front :- IndexFiles(c, s, ms[..|ms| - 1]);
      var own :- ImageFiles(c, s, Versioned(m.data), BlobName(Described(c, m).digest.encoded));
      Ok(front + own)
  }

  function Descs(c: Codec, ms: seq<Manifest>): seq<Descriptor> {
    seq(|ms|, i requires 0 <= i < |ms| => Described(c, ms[i]))
  }

  function Serialized(c: Codec, s: Snapshot, a: Artifact): Result<seq<TarFile>, ArchiveError> {
    if s.Nil? then Err(NilCache)
    else match a
      case Single(m) => ImageFiles(c, s, m.data, MANIFEST_FILE)
      case Index(ms, annotations) =>
        var files :- IndexFiles(c, s, ms);
        Ok(files + [TarFile(INDEX_FILE, c.encodeIndex(IndexData(2, Descs(c, ms), annotations)))])
  }

  function Manifests(a: Artifact): seq<Manifest> {
    match a
    case Single(m) => [m]
    case Index(ms, _) => ms
  }

  method SerializeImage(c: Codec, cache: Cache, m: ManifestData, name: string, ghost s: Snapshot)
    returns (r: Result<seq<TarFile>, ArchiveError>)
    requires Unmistakable(c.h) && Same(c.h, s, Snap(cache))
    modifies Footprint(cache)
    ensures r == ImageFiles(c, s, m, name)
    ensures r.Ok? ==> Same(c.h, s, Snap(cache))
  {
    var files := [TarFile(name, c.encodeManifest(m))];
    var config := Read(c.h, cache, m.config);
    if config == None {
      return Err(BlobNotFound);
    }
    files := files + [TarFile(BlobName(m.config.digest.encoded), config.value)];
    var layers := SerializeLayers(c, cache, m.layers, s);
    if layers.Err? {
      return layers;
    }
    assert files == [TarFile(name, c.encodeManifest(m)), TarFile(BlobName(m.config.digest.encoded), config.value)];
    r := Ok(files + layers.value);
  }

  method SerializeLayers(c: Codec, cache: Cache, layers: seq<Descriptor>, ghost s: Snapshot)
    returns (r: Result<seq<TarFile>, ArchiveError>)
    requires Unmistakable(c.h) && Same(c.h, s, Snap(cache))
    modifies Footprint(cache)
    ensures r == TryMap(BlobFile(c, s), layers)
    ensures r.Ok? ==> Same(c.h, s, Snap(cache))
  {
    var files := [];
    ghost var f := BlobFile(c, s);
    for i := 0 to |layers|
      invariant Same(c.h, s, Snap(cache))
      invariant TryMap(f, layers[..i]) == Ok(files)
    {
      TryMapStep(f, layers, i);
      var layer := Read(c.h, cache, layers[i]);
      if layer == None {
        return Err(BlobNotFound);
      }
      files := files + [TarFile(BlobName(layers[i].digest.encoded), layer.value)];
    }
    assert layers[..|layers|] == layers;
    r := Ok(files);
  }

  method SerializeImageIndex(
    c: Codec, cache: Cache, ms: seq<Manifest>, annotations: map<string, string>, ghost s: Snapshot)
    returns (r: Result<seq<TarFile>, ArchiveError>)
    requires Unmistakable(c.h) && Same(c.h, s, Snap(cache)) && !s.Nil?
    modifies Footprint(cache)
    ensures r == Serialized(c, s, Index(ms, annotations))
    ensures r.Ok? ==> Same(c.h, s, Snap(cache))
  {
    var files: seq<TarFile>, manifestDescs := [], [];
    IndexEnds(c, s, ms);
    hide Unmistakable, Same, Snap, ImageFiles, IndexFiles, Descs, Described;
    for i := 0 to |ms|
      invariant Same(c.h, s, Snap(cache))
      invariant IndexFiles(c, s, ms[..i]) == Ok(files)
      invariant manifestDescs == Descs(c, ms[..i])
    {
      OneMoreManifest(c, s, ms, i);
      var manifestDesc := CreateDescriptorFromManifest(c, ms[i].data);
      manifestDesc := manifestDesc.(
        annotations := ms[i].descriptor.annotations, platform := ms[i].descriptor.platform,
        urls := ms[i].descriptor.urls);
      var image := SerializeImage(c, cache, Versioned(ms[i].data), BlobName(manifestDesc.digest.encoded), s);
      if image.Err? {
        return image;
      }
      files := files + image.value;
      manifestDescs := manifestDescs + [manifestDesc];
    }
    r := Ok(files + [TarFile(INDEX_FILE, c.encodeIndex(IndexData(2, manifestDescs, annotations)))]);
  }

  lemma IndexEnds(c: Codec, s: Snapshot, ms: seq<Manifest>)
    ensures IndexFiles(c, s, ms[..0]) == Ok([]) && Descs(c, ms[..0]) == []
    ensures ms[..|ms|] == ms
  {
  }

  /** One more manifest, as an equation that does not mention how it is described. */
  lemma OneMoreManifest(c: Codec, s: Snapshot, ms: seq<Manifest>, i: nat)
    requires i < |ms| && IndexFiles(c, s, ms[..i]).Ok?
    ensures var desc := CreateDescriptorFromManifest(c, ms[i].data).(
        annotations := ms[i].descriptor.annotations, platform := ms[i].descriptor.platform,
        urls := ms[i].descriptor.urls);
      var own := ImageFiles(c, s, Versioned(ms[i].data), BlobName(desc.digest.encoded));
      && Descs(c, ms[..i + 1]) == Descs(c, ms[..i]) + [desc]
      && (own.Ok? ==> IndexFiles(c, s, ms[..i + 1]) == Ok(IndexFiles(c, s, ms[..i]).value + own.value))
      && (own.Err? ==> IndexFiles(c, s, ms) == Err(own.error))
  {
    assert ms[..i + 1][..i] == ms[..i];
    IndexFilesStop(c, s, ms, i + 1);
  }

  lemma {:induction false} IndexFilesStop(c: Codec, s: Snapshot, ms: seq<Manifest>, i: nat)
    requires i <= |ms|
    ensures IndexFiles(c, s, ms[..i]).Err? ==> IndexFiles(c, s, ms) == IndexFiles(c, s, ms[..i])
  {
    if i == |ms| {
      assert ms[..i] == ms;
    } else {
      assert ms[..|ms| - 1][..i] == ms[..i];
      IndexFilesStop(c, s, ms[..|ms| - 1], i);
    }
  }

  method SerializeOCIArtifact(c: Codec, a: Artifact, cache: Cache) returns (r: Result<seq<TarFile>, ArchiveError>)
    requires Unmistakable(c.h)
    modifies Footprint(cache)
    ensures r == Serialized(c, old(Snap(cache)), a)
    ensures cache.NoCache? ==> r == Err(NilCache)
    ensures r.Ok? ==> Same(c.h, old(Snap(cache)), Snap(cache))
  {
    if cache.NoCache? {
      return Err(NilCache);
    }
    match a
    case Index(ms, annotations) => r := SerializeImageIndex(c, cache, ms, annotations, Snap(cache));
    case Single(m) => r := SerializeImage(c, cache, m.data, MANIFEST_FILE, Snap(cache));
  }

  /** The blobs of an image, or the first one that cannot be read. */
  lemma ImageInArchive(c: Codec, s: Snapshot, m: ManifestData, name: string)
    ensures ImageFiles(c, s, m, name).Ok? <==>
      Seen(c.h, s, m.config).Some? && forall i :: 0 <= i < |m.layers| ==> Seen(c.h, s, m.layers[i]).Some?
    ensures ImageFiles(c, s, m, name).Err? ==> ImageFiles(c, s, m, name) == Err(BlobNotFound)
    ensures var files := ImageFiles(c, s, m, name);
      files.Ok? ==>
        && |files.value| == 2 + |m.layers|
        && files.value[0] == TarFile(name, c.encodeManifest(m))
        && files.value[1] == TarFile("blobs/" + m.config.digest.encoded, Seen(c.h, s, m.config).value)
        && forall i :: 0 <= i < |m.layers| ==>
             files.value[2 + i] == TarFile("blobs/" + m.layers[i].digest.encoded, Seen(c.h, s, m.layers[i]).value)
  {
    BlobNames(m.config.digest.encoded);
    LayersInArchive(c, s, m.layers);
    hide Seen, TryMap, BlobName;
  }

  lemma BlobNames(encoded: string)
    ensures BlobName(encoded) == "blobs/" + encoded
  {
    assert "blobs" + ['/'] + encoded == "blobs/" + encoded;
  }

  lemma LayersInArchive(c: Codec, s: Snapshot, layers: seq<Descriptor>)
    ensures var files := TryMap(BlobFile(c, s), layers);
      && (files.Ok? <==> forall i :: 0 <= i < |layers| ==> Seen(c.h, s, layers[i]).Some?)
      && (files.Err? ==> files == Err(BlobNotFound))
      && (files.Ok? ==>
            && |files.value| == |layers|
            && forall i :: 0 <= i < |layers| ==>
                 files.value[i] == TarFile("blobs/" + layers[i].digest.encoded, Seen(c.h, s, layers[i]).value))
  {
    var f := BlobFile(c, s);
    TryMapOkIff(f, layers);
    if TryMap(f, layers).Ok? {
      var files := TryMap(f, layers).value;
      TryMapOk(f, layers, files);
      forall i | 0 <= i < |layers|
        ensures files[i] == TarFile("blobs/" + layers[i].digest.encoded, Seen(c.h, s, layers[i]).value)
      {
        assert f(layers[i]) == Ok(files[i]);
        BlobNames(layers[i].digest.encoded);
      }
    } else {
      OnlyNotFound(c, s, layers);
    }
  }

  lemma {:induction false} OnlyNotFound(c: Codec, s: Snapshot, descs: seq<Descriptor>)
    requires TryMap(BlobFile(c, s), descs).Err?
    ensures TryMap(BlobFile(c, s), descs) == Err(BlobNotFound)
  {
    if TryMap(BlobFile(c, s), descs[..|descs| - 1]).Err? {
      OnlyNotFound(c, s, descs[..|descs| - 1]);
    }
  }

  /** Where the document of an artifact is in its archive. */
  lemma DocumentInArchive(c: Codec, s: Snapshot, a: Artifact)
    requires Serialized(c, s, a).Ok?
    ensures var files := Serialized(c, s, a).value;
      match a
      case Single(m) => files != [] && files[0] == TarFile("manifest.json", c.encodeManifest(m.data))
      case Index(ms, annotations) =>
        files != [] &&
        files[|files| - 1] == TarFile("index.json", c.encodeIndex(IndexData(2, Descs(c, ms), annotations)))
  {
  }

  // ---------- reading ----------

  /** What the archive's files amount to: the top-level document, its kind, and the blobs. */
  datatype Contents = Contents(buf: Bytes, isImageIndex: bool, blobs: seq<TarFile>)

  predicate IsBlobName(name: string) {
    BLOBS_DIR <= name && |Split(name, '/')| == 2
  }

  function ReadFile(before: Contents, file: TarFile): Result<Contents, ArchiveError> {
    if file.name == MANIFEST_FILE then Ok(before.(buf := before.buf + file.content))
    else if file.name == INDEX_FILE then Ok(before.(buf := before.buf + file.content, isImageIndex := true))
    else if !(BLOBS_DIR <= file.name) then Err(UnknownFile)
    else if !IsBlobName(file.name) then Err(InvalidFilename)
    else Ok(before.(blobs := before.blobs + [file]))
  }

  /** What a file is taken for, by its name. */
  lemma ReadFileByName(before: Contents, file: TarFile)
    ensures file.name == "manifest.json" ==> ReadFile(before, file) == Ok(before.(buf := before.buf + file.content))
    ensures file.name == "index.json" ==>
      ReadFile(before, file) == Ok(before.(buf := before.buf + file.content, isImageIndex := true))
    ensures file.name !in {"manifest.json", "index.json"} ==>
      ReadFile(before, file) ==
      if !("blobs" <= file.name) then Err(UnknownFile)
      else if |Split(file.name, '/')| != 2 then Err(InvalidFilename)
      else Ok(before.(blobs := before.blobs + [file]))
  {
    assert "index.json"[0] == 'i' && "manifest.json"[0] == 'm';
  }

  function ReadFiles(tar: seq<TarFile>): Result<Contents, ArchiveError> {
    if tar == [] then Ok(Contents([], false, []))
    else
      var front :- ReadFiles(tar[..|tar| - 1]);
      ReadFile(front, tar[|tar| - 1])
  }

  function BlobDigest(file: TarFile): Digest {
    var parts := Split(file.name, '/');
    Digest("sha256", if |parts| == 2 then parts[1] else "")
  }

  function AllStored(s: Snapshot, blobs: seq<TarFile>): Snapshot {
    if blobs == [] then s
    else
      var last := blobs[|blobs| - 1];
      Stored(AllStored(s, blobs[..|blobs| - 1]), BlobDigest(last), last.content)
  }

  function ManifestAt(c: Codec, s: Snapshot): Descriptor -> Result<Manifest, ArchiveError> {
    (desc: Descriptor) =>
      match Seen(c.h, s, desc)
      case None => Err(BlobNotFound)
      case Some(content) =>
        match c.manifest(content)
        case None => Err(Malformed)
        case Some(data) => Ok(Manifest(desc, data))
  }

  function Assembled(c: Codec, s: Snapshot, contents: Contents): Result<Artifact, ArchiveError> {
    if contents.isImageIndex then
      match c.index(contents.buf)
      case None => Err(Malformed)
      case Some(index) =>
        var ms :- TryMap(ManifestAt(c, s), index.manifests);
        Ok(Index(ms, index.annotations))
    else FromManifest(c, contents.buf)
  }

  function FromManifest(c: Codec, buf: Bytes): Result<Artifact, ArchiveError> {
    match c.manifest(buf)
    case None => Err(Malformed)
    case Some(data) =>
      var digest := Digest("sha256", c.h("sha256", buf));
      Ok(Single(Manifest(Descriptor(MEDIA_TYPE_IMAGE_MANIFEST, digest, |buf|, map[], None, []), data)))
  }

  function Deserialized(c: Codec, s: Snapshot, tar: seq<TarFile>): Result<Artifact, ArchiveError> {
    if s.Nil? then Err(NilCache)
    else
      var contents :- ReadFiles(tar);
      Assembled(c, AllStored(s, contents.blobs), contents)
  }

  method ReadTar(c: Codec, tar: seq<TarFile>, cache: Cache)
    returns (r: Result<(Bytes, bool), ArchiveError>, ghost blobs: seq<TarFile>)
    modifies Footprint(cache)
    ensures ReadFiles(tar) == if r.Ok? then Ok(Contents(r.value.0, r.value.1, blobs)) else Err(r.error)
    ensures r.Ok? ==> Snap(cache) == AllStored(old(Snap(cache)), blobs)
  {
    var buf, isImageIndex := [], false;
    blobs := [];
    for i := 0 to |tar|
      invariant ReadFiles(tar[..i]) == Ok(Contents(buf, isImageIndex, blobs))
      invariant Snap(cache) == AllStored(old(Snap(cache)), blobs)
    {
      assert tar[..i + 1][..i] == tar[..i];
      ReadFilesStop(tar, i + 1);
      var name, content := tar[i].name, tar[i].content;
      if name == MANIFEST_FILE {
        buf := buf + content;
      } else if name == INDEX_FILE {
        buf := buf + content;
        isImageIndex := true;
      } else if BLOBS_DIR <= name {
        var splittedFilename := Split(name, '/');
        if |splittedFilename| != 2 {
          return Err(InvalidFilename), blobs;
        }
        var desc := Descriptor("", Digest("sha256", splittedFilename[1]), 0, map[], None, []);
        Store(c.h, cache, desc, content);
        assert (blobs + [tar[i]])[..|blobs|] == blobs;
        blobs := blobs + [tar[i]];
      } else {
        return Err(UnknownFile), blobs;
      }
    }
    assert tar[..|tar|] == tar;
    r := Ok((buf, isImageIndex));
  }

  lemma {:induction false} ReadFilesStop(tar: seq<TarFile>, i: nat)
    requires i <= |tar|
    ensures ReadFiles(tar[..i]).Err? ==> ReadFiles(tar) == ReadFiles(tar[..i])
  {
    if i == |tar| {
      assert tar[..i] == tar;
    } else {
      assert tar[..|tar| - 1][..i] == tar[..i];
      ReadFilesStop(tar[..|tar| - 1], i);
    }
  }

  method DeserializeOCIArtifact(c: Codec, tar: seq<TarFile>, cache: Cache) returns (r: Result<Artifact, ArchiveError>)
    requires Unmistakable(c.h)
    modifies Footprint(cache)
    ensures r == Deserialized(c, old(Snap(cache)), tar)
    ensures cache.NoCache? ==> r == Err(NilCache)
    ensures r.Ok? ==> ReadFiles(tar).Ok?
    ensures r.Ok? ==> Same(c.h, AllStored(old(Snap(cache)), ReadFiles(tar).value.blobs), Snap(cache))
  {
    if cache.NoCache? {
      return Err(NilCache);
    }
    var contents, blobs := ReadTar(c, tar, cache);
    if contents.Err? {
      return Err(contents.error);
    }
    var (buf, isImageIndex) := contents.value;
    if !isImageIndex {
      r := FromManifest(c, buf);
      return;
    }
    var index := c.index(buf);
    if index == None {
      return Err(Malformed);
    }
    var ms := ReadManifests(c, cache, index.value.manifests);
    r := if ms.Ok? then Ok(Index(ms.value, index.value.annotations)) else Err(ms.error);
  }

  method ReadManifests(c: Codec, cache: Cache, descs: seq<Descriptor>) returns (r: Result<seq<Manifest>, ArchiveError>)
    requires Unmistakable(c.h)
    modifies Footprint(cache)
    ensures r == TryMap(ManifestAt(c, old(Snap(cache))), descs)
    ensures r.Ok? ==> Same(c.h, old(Snap(cache)), Snap(cache))
  {
    ghost var s, f := Snap(cache), ManifestAt(c, Snap(cache));
    var manifests := [];
    for i := 0 to |descs|
      invariant Same(c.h, s, Snap(cache))
      invariant TryMap(f, descs[..i]) == Ok(manifests)
    {
      TryMapStep(f, descs, i);
      var blob := Read(c.h, cache, descs[i]);
      if blob == None {
        return Err(BlobNotFound);
      }
      var data := c.manifest(blob.value);
      if data == None {
        return Err(Malformed);
      }
      manifests := manifests + [Manifest(descs[i], data.value)];
    }
    assert descs[..|descs|] == descs;
    r := Ok(manifests);
  }
}
