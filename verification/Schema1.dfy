/** Docker image manifests of version 2, schema 1, and their conversion (ociclient/manifest_v1_conversion.go). */
module Schema1 {
  import opened Common
  import opened Oci
  import opened Strings
  import opened BlobCache

  datatype V1Manifest = V1Manifest(fsLayers: seq<Digest>, history: seq<string>)

  /** What a history item of schema 1 holds. */
  datatype V1History = V1History(
    author: string, created: int, comment: string, throwAway: Option<bool>, size: Option<int>, cmd: seq<string>)

  /** A history item of the image configuration. */
  datatype History = History(author: string, created: int, createdBy: string, comment: string, emptyLayer: bool)

  datatype Manifest = Manifest(config: Descriptor, layers: seq<Descriptor>)

  datatype Compression = Uncompressed | Gzip | Zstd

  /** An encoded JSON value that the program does not look into. */
  type Raw = string

  /** A decoded JSON object, or JSON `null`, which leaves the Go map nil. */
  datatype Object = Null | Fields(fields: map<string, Raw>)

  /** JSON, hashing and decompression, by the libraries. */
  datatype Codec = Codec(
    h: Hasher,
    manifestV1: Bytes -> Option<V1Manifest>,
    historyV1: string -> Option<V1History>,
    compat: string -> Option<Object>,
    decompress: Bytes -> Option<(Compression, Bytes)>,
    rootfs: seq<Digest> -> Raw,
    histories: seq<History> -> Raw,
    encodeConfig: map<string, Raw> -> Bytes,
    config: Bytes -> Option<map<string, Raw>>,
    encodeManifest: Manifest -> Bytes,
    manifest: Bytes -> Option<Manifest>)

  ghost predicate RoundTrips(c: Codec) {
    && (forall m :: c.manifest(c.encodeManifest(m)) == Some(m))
    && (forall m :: c.config(c.encodeConfig(m)) == Some(m))
  }

  datatype ConversionError =
    | IndexOutOfRange | NilMap | NilCache | MalformedHistory | MalformedConfig | MalformedManifest
    | FetchFailed | DecompressFailed | AddFailed

  /** The three lists that make up the converted image. */
  datatype Image = Image(layers: seq<Descriptor>, diffIds: seq<Digest>, history: seq<History>)

  const MEDIA_TYPE_LAYER := "application/vnd.oci.image.layer.v1.tar"
  const MEDIA_TYPE_LAYER_GZIP := "application/vnd.oci.image.layer.v1.tar+gzip"
  const MEDIA_TYPE_LAYER_ZSTD := "application/vnd.oci.image.layer.v1.tar+zstd"
  const MEDIA_TYPE_IMAGE_CONFIG := "application/vnd.oci.image.config.v1+json"

  function Plain(mediaType: string, digest: Digest, size: int): Descriptor {
    Descriptor(mediaType, digest, size, map[], None, [])
  }

  function FromBytes(c: Codec, content: Bytes): Digest {
    Digest("sha256", c.h("sha256", content))
  }

  function LayerMediaType(compression: Compression): string {
    match compression
    case Uncompressed => MEDIA_TYPE_LAYER
    case Gzip => MEDIA_TYPE_LAYER_GZIP
    case Zstd => MEDIA_TYPE_LAYER_ZSTD
  }

  predicate IsEmptyLayer(h: V1History) {
    if h.throwAway.Some? then h.throwAway.value
    else h.size == Some(0)
  }

  // ---------- what a conversion has to achieve ----------

  /** The number of items that stand for a layer. */
  function NonEmpty(history: seq<History>): nat {
    if history == [] then 0
    else NonEmpty(history[..|history| - 1]) + if history[|history| - 1].emptyLayer then 0 else 1
  }

  predicate ItemOf(h: V1History, item: History) {
    && item.author == h.author && item.created == h.created && item.comment == h.comment
    && item.createdBy == Join(h.cmd, ' ')
    && (item.emptyLayer <==> h.throwAway == Some(true) || (h.throwAway == None && h.size == Some(0)))
  }

  /** The blob of a layer can be had and unpacked. */
  predicate Unpackable(c: Codec, blobs: map<Digest, Bytes>, layer: Digest) {
    layer in blobs && c.decompress(blobs[layer]).Some?
  }

  function Content(c: Codec, blobs: map<Digest, Bytes>, layer: Digest): Bytes
    requires Unpackable(c, blobs, layer)
  {
    c.decompress(blobs[layer]).value.1
  }

  /** Index `i` of the schema 1 lists can be converted. */
  predicate Convertible(c: Codec, blobs: map<Digest, Bytes>, m: V1Manifest, i: nat)
    requires i < |m.fsLayers|
  {
    && i < |m.history| && c.historyV1(m.history[i]).Some?
    && (IsEmptyLayer(c.historyV1(m.history[i]).value) || Unpackable(c, blobs, m.fsLayers[i]))
  }

  ghost predicate AllConvertible(c: Codec, blobs: map<Digest, Bytes>, m: V1Manifest) {
    forall i :: 0 <= i < |m.fsLayers| ==> Convertible(c, blobs, m, i)
  }

  /** What index `i` needs if nothing fails. The layered cache finds no blob of size -1, so it serves no layer. */
  predicate Served(c: Codec, blobs: map<Digest, Bytes>, m: V1Manifest, layered: bool, i: nat)
    requires i < |m.fsLayers|
  {
    Convertible(c, blobs, m, i) && (layered ==> IsEmptyLayer(c.historyV1(m.history[i]).value))
  }

  ghost predicate AllServed(c: Codec, blobs: map<Digest, Bytes>, m: V1Manifest, layered: bool) {
    forall i :: 0 <= i < |m.fsLayers| ==> Served(c, blobs, m, layered, i)
  }

  /** Layer `k` of the image is the blob `layer`, described as it is, and its diff id is the hash of what is in it. */
  predicate LayerOf(c: Codec, blobs: map<Digest, Bytes>, image: Image, k: nat, layer: Digest)
    requires Unpackable(c, blobs, layer)
  {
    && k < |image.layers| && k < |image.diffIds|
    && image.layers[k].digest == layer && image.layers[k].size == |blobs[layer]|
    && image.layers[k] == Plain(image.layers[k].mediaType, layer, |blobs[layer]|)
    && image.layers[k].mediaType ==
       (match c.decompress(blobs[layer]).value.0
        case Uncompressed => "application/vnd.oci.image.layer.v1.tar"
        case Gzip => "application/vnd.oci.image.layer.v1.tar+gzip"
        case Zstd => "application/vnd.oci.image.layer.v1.tar+zstd")
    && image.diffIds[k] == FromBytes(c, Content(c, blobs, layer))
  }

  /** Item `j` of the image is the entry of the schema 1 lists at the same distance from their end. */
  predicate At(c: Codec, blobs: map<Digest, Bytes>, m: V1Manifest, image: Image, j: nat)
    requires j < |m.fsLayers| && j < |image.history|
  {
    var i := |m.fsLayers| - 1 - j;
    && Convertible(c, blobs, m, i)
    && ItemOf(c.historyV1(m.history[i]).value, image.history[j])
    && (!image.history[j].emptyLayer ==> LayerOf(c, blobs, image, NonEmpty(image.history[..j]), m.fsLayers[i]))
  }

  /**
    The last `done` entries of the schema 1 lists, in reverse: the history has an item for each, and the items not
    marked empty are, in order, the layers and the diff ids.
   */
  ghost predicate Aligned(c: Codec, blobs: map<Digest, Bytes>, m: V1Manifest, image: Image, done: nat)
    requires done <= |m.fsLayers|
  {
    && |image.history| == done
    && |image.layers| == |image.diffIds| == NonEmpty(image.history)
    && forall j :: 0 <= j < done ==> At(c, blobs, m, image, j)
  }

  lemma {:induction false} NonEmptyPrefix(history: seq<History>, j: nat)
    requires j < |history|
    ensures NonEmpty(history[..j]) + (if history[j].emptyLayer then 0 else 1) <= NonEmpty(history)
  {
    if j < |history| - 1 {
      assert history[..|history| - 1][..j] == history[..j];
      NonEmptyPrefix(history[..|history| - 1], j);
    }
  }

  /** What has been aligned stays aligned if only something is appended. */
  lemma AtStays(c: Codec, blobs: map<Digest, Bytes>, m: V1Manifest, before: Image, after: Image, j: nat)
    requires j < |m.fsLayers| && j < |before.history| && At(c, blobs, m, before, j)
    requires |before.layers| == |before.diffIds| == NonEmpty(before.history)
    requires before.history <= after.history && before.layers <= after.layers && before.diffIds <= after.diffIds
    ensures At(c, blobs, m, after, j)
  {
    assert after.history[..j] == before.history[..j] && after.history[j] == before.history[j];
    NonEmptyPrefix(before.history, j);
  }

  /** One more entry, with its layer unless it is empty. */
  lemma AlignedStep(
    c: Codec, blobs: map<Digest, Bytes>, m: V1Manifest, before: Image, after: Image, item: History, i: nat)
    requires i < |m.fsLayers| && Aligned(c, blobs, m, before, |m.fsLayers| - 1 - i)
    requires Convertible(c, blobs, m, i) && ItemOf(c.historyV1(m.history[i]).value, item)
    requires after.history == before.history + [item]
    requires item.emptyLayer ==> after.layers == before.layers && after.diffIds == before.diffIds
    requires !item.emptyLayer ==> exists desc, diffId ::
      && after.layers == before.layers + [desc] && after.diffIds == before.diffIds + [diffId]
      && LayerOf(c, blobs, Image([desc], [diffId], []), 0, m.fsLayers[i])
    ensures Aligned(c, blobs, m, after, |m.fsLayers| - i)
  {
    var done := |m.fsLayers| - 1 - i;
    assert after.history[..done] == before.history;
    assert At(c, blobs, m, after, done);
    hide At, LayerOf, Convertible, ItemOf;
    forall j | 0 <= j < done
      ensures At(c, blobs, m, after, j)
    {
      AtStays(c, blobs, m, before, after, j);
    }
  }

  // ---------- the program ----------

  /** The blobs whose content can become known. */
  ghost function Available(registry: map<Digest, Bytes>, cache: Cache): map<Digest, Bytes>
    reads Footprint(cache)
  {
    if cache.InMemory? then registry + cache.memory.store else registry
  }

  /** Fetching and unpacking one blob, whose size is not known. */
  method Fetch(c: Codec, registry: map<Digest, Bytes>, cache: Cache, layer: Digest, faults: FetchFaults)
    returns (r: Result<(Descriptor, Digest), ConversionError>)
    requires CollisionFree(c.h) && ContentAddressed(c.h, registry) && Consistent(c.h, cache)
    modifies Footprint(cache)
    ensures Consistent(c.h, cache) && Available(registry, cache) == old(Available(registry, cache))
    ensures r.Ok? ==> Unpackable(c, old(Available(registry, cache)), layer)
    ensures r.Ok? ==> LayerOf(c, old(Available(registry, cache)), Image([r.value.0], [r.value.1], []), 0, layer)
    ensures r.Err? ==> r.error in {FetchFailed, DecompressFailed}
    ensures faults == NO_FETCH_FAULTS ==>
      (r.Ok? <==> !cache.Layered? && Unpackable(c, old(Available(registry, cache)), layer))
  {
    var data := GetBlob(c.h, registry, cache, Plain("", layer, -1), faults);
    if data == None {
      return Err(FetchFailed);
    }
    var decompressed := c.decompress(data.value);
    if decompressed == None {
      return Err(DecompressFailed);
    }
    var (compression, content) := decompressed.value;
    r := Ok((Plain(LayerMediaType(compression), layer, |data.value|), FromBytes(c, content)));
  }

  /** `client.Fetch` into a buffer. */
  method GetBlob(h: Hasher, registry: map<Digest, Bytes>, cache: Cache, desc: Descriptor, faults: FetchFaults)
    returns (r: Option<Bytes>)
    requires CollisionFree(h) && ContentAddressed(h, registry) && Consistent(h, cache)
    modifies Footprint(cache)
    ensures Consistent(h, cache) && Available(registry, cache) == old(Available(registry, cache))
    ensures r.Some? ==> Matches(h, desc.digest, r.value)
    ensures r.Some? && (desc.size < 0 || !cache.Layered?) ==>
      desc.digest in old(Available(registry, cache)) && r.value == old(Available(registry, cache))[desc.digest]
    ensures faults == NO_FETCH_FAULTS ==> r == old(Fetchable(h, registry, cache, desc))
  {
    ghost var blobs := Available(registry, cache);
    var file := GetFetchReader(h, registry, cache, desc, faults);
    r := if file.Ok? then Some(file.value.content) else None;
    if r.Some? && desc.digest in blobs && ContentAddressed(h, blobs) {
      assert h(desc.digest.algorithm, r.value) == h(desc.digest.algorithm, blobs[desc.digest]);
    }
    if cache.InMemory? && desc.digest in cache.memory.store && desc.digest in registry {
      assert h(desc.digest.algorithm, registry[desc.digest]) ==
        h(desc.digest.algorithm, cache.memory.store[desc.digest]);
    }
  }

  /** One entry of the two lists, in front of those that have been read. */
  method ParseEntry(
    c: Codec, registry: map<Digest, Bytes>, cache: Cache, faults: FetchFaults, m: V1Manifest, i: nat, before: Image)
    returns (r: Result<Image, ConversionError>)
    requires CollisionFree(c.h) && ContentAddressed(c.h, registry) && Consistent(c.h, cache)
    requires i < |m.fsLayers| && i < |m.history|
    requires Aligned(c, Available(registry, cache), m, before, |m.fsLayers| - 1 - i)
    modifies Footprint(cache)
    ensures Consistent(c.h, cache) && Available(registry, cache) == old(Available(registry, cache))
    ensures r.Ok? ==> Aligned(c, Available(registry, cache), m, r.value, |m.fsLayers| - i)
    ensures r.Err? ==> r.error in {MalformedHistory, FetchFailed, DecompressFailed}
    ensures faults == NO_FETCH_FAULTS ==> (r.Ok? <==> Served(c, Available(registry, cache), m, cache.Layered?, i))
  {
    ghost var blobs := Available(registry, cache);
    hide Aligned, Available, Consistent, CollisionFree, ContentAddressed, NonEmpty;
    var h := c.historyV1(m.history[i]);
    if h == None {
      return Err(MalformedHistory);
    }
    var emptyLayer := IsEmptyLayer(h.value);
    var hs := History(h.value.author, h.value.created, Join(h.value.cmd, ' '), h.value.comment, emptyLayer);
    var image := before.(history := before.history + [hs]);
    if !emptyLayer {
      var layer := Fetch(c, registry, cache, m.fsLayers[i], faults);
      if layer.Err? {
        return Err(layer.error);
      }
      image := image.(layers := image.layers + [layer.value.0], diffIds := image.diffIds + [layer.value.1]);
    }
    AlignedStep(c, blobs, m, before, image, hs, i);
    r := Ok(image);
  }

  /** Layers are listed from the newest to the oldest, so the loop runs backwards. */
  method ParseV1Manifest(
    c: Codec, registry: map<Digest, Bytes>, cache: Cache, faults: nat -> FetchFaults, m: V1Manifest)
    returns (r: Result<Image, ConversionError>)
    requires CollisionFree(c.h) && ContentAddressed(c.h, registry) && Consistent(c.h, cache)
    modifies Footprint(cache)
    ensures Consistent(c.h, cache) && Available(registry, cache) == old(Available(registry, cache))
    ensures r.Ok? ==> Aligned(c, old(Available(registry, cache)), m, r.value, |m.fsLayers|)
    ensures r == Err(IndexOutOfRange) <==> |m.history| < |m.fsLayers|
    ensures r.Err? ==> r.error in {IndexOutOfRange, MalformedHistory, FetchFailed, DecompressFailed}
    ensures (forall n :: faults(n) == NO_FETCH_FAULTS) ==>
      (r.Ok? <==> AllServed(c, old(Available(registry, cache)), m, cache.Layered?))
  {
    ghost var blobs := Available(registry, cache);
    var image := Image([], [], []);
    var i := |m.fsLayers| - 1;
    while i >= 0
      invariant -1 <= i < |m.fsLayers|
      invariant Consistent(c.h, cache) && Available(registry, cache) == blobs
      invariant Aligned(c, blobs, m, image, |m.fsLayers| - 1 - i)
      invariant i < |m.fsLayers| - 1 ==> |m.fsLayers| <= |m.history|
      invariant (forall n :: faults(n) == NO_FETCH_FAULTS) ==>
        forall k :: i < k < |m.fsLayers| ==> Served(c, blobs, m, cache.Layered?, k)
    {
      if i >= |m.history| {
        assert !Served(c, blobs, m, cache.Layered?, i);
        return Err(IndexOutOfRange);
      }
      var entry := ParseEntry(c, registry, cache, faults(i), m, i, image);
      if entry.Err? {
        return entry;
      }
      image := entry.value;
      i := i - 1;
    }
    r := Ok(image);
  }

  /** The configuration of the newest item, without what only schema 1 knows, and with root file system and history. */
  ghost predicate ConfigOf(c: Codec, fields: map<string, Raw>, image: Image, config: map<string, Raw>) {
    && config.Keys ==
       (fields.Keys - {"id", "parent", "Size", "parent_id", "layer_id", "throwaway"}) + {"rootfs", "history"}
    && (forall key :: key in config && key != "rootfs" && key != "history" ==> config[key] == fields[key])
    && config["rootfs"] == c.rootfs(image.diffIds)
    && config["history"] == c.histories(image.history)
  }

  method CreateV2Config(c: Codec, m: V1Manifest, image: Image) returns (r: Result<(Descriptor, Bytes), ConversionError>)
    requires RoundTrips(c)
    ensures r.Ok? ==>
      var (desc, content) := r.value;
      && m.history != [] && c.compat(m.history[0]).Some? && c.compat(m.history[0]).value.Fields?
      && c.config(content).Some? && ConfigOf(c, c.compat(m.history[0]).value.fields, image, c.config(content).value)
      && desc == Plain(
           "application/vnd.oci.image.config.v1+json", Digest("sha256", c.h("sha256", content)), |content|)
    ensures m.history == [] <==> r == Err(IndexOutOfRange)
    ensures m.history != [] && c.compat(m.history[0]) == None <==> r == Err(MalformedConfig)
    ensures m.history != [] && c.compat(m.history[0]) == Some(Null) <==> r == Err(NilMap)
    ensures r.Err? ==> r.error in {IndexOutOfRange, MalformedConfig, NilMap}
  {
    if m.history == [] {
      return Err(IndexOutOfRange);
    }
    var compat := c.compat(m.history[0]);
    if compat == None {
      return Err(MalformedConfig);
    }
    if compat.value.Null? {
      return Err(NilMap);
    }
    var config := compat.value.fields;
    config := config - {"id"};
    config := config - {"parent"};
    config := config - {"Size"};
    config := config - {"parent_id"};
    config := config - {"layer_id"};
    config := config - {"throwaway"};
    config := config["rootfs" := c.rootfs(image.diffIds)];
    config := config["history" := c.histories(image.history)];
    var content := c.encodeConfig(config);
    r := Ok((Plain(MEDIA_TYPE_IMAGE_CONFIG, FromBytes(c, content), |content|), content));
  }

  function CreateV2Manifest(c: Codec, config: Descriptor, layers: seq<Descriptor>): (r: (Descriptor, Bytes))
    requires RoundTrips(c)
    ensures c.manifest(r.1) == Some(Manifest(config, layers))
    ensures r.0 == Plain(
      "application/vnd.oci.image.manifest.v1+json", Digest("sha256", c.h("sha256", r.1)), |r.1|)
  {
    var content := c.encodeManifest(Manifest(config, layers));
    (Plain(MEDIA_TYPE_IMAGE_MANIFEST, FromBytes(c, content), |content|), content)
  }

  /** The converted image can be read back from the cache alone, starting from the descriptor of its manifest. */
  ghost predicate Readable(c: Codec, cache: Cache, desc: Descriptor, image: Image, fields: map<string, Raw>)
    reads Footprint(cache)
  {
    exists config: Descriptor, content, manifest ::
      && Cached(c.h, cache, desc, manifest) && c.manifest(manifest) == Some(Manifest(config, image.layers))
      && Cached(c.h, cache, config, content) && c.config(content).Some?
      && ConfigOf(c, fields, image, c.config(content).value)
  }

  /** What a conversion needs without any fault. */
  ghost predicate Converts(c: Codec, fetched: Option<Bytes>, blobs: map<Digest, Bytes>, cache: Cache) {
    && fetched.Some? && c.manifestV1(fetched.value).Some? && !cache.NoCache?
    && var m := c.manifestV1(fetched.value).value;
       && AllServed(c, blobs, m, cache.Layered?)
       && m.history != [] && c.compat(m.history[0]).Some? && c.compat(m.history[0]).value.Fields?
  }

  datatype ConversionFaults = ConversionFaults(
    fetch: FetchFaults, layers: nat -> FetchFaults, addConfig: Faults, addManifest: Faults)

  ghost predicate NoConversionFaults(f: ConversionFaults) {
    && f.fetch == NO_FETCH_FAULTS && (forall n :: f.layers(n) == NO_FETCH_FAULTS)
    && f.addConfig == NO_FAULTS && f.addManifest == NO_FAULTS
  }

  /** Without a cache the program dereferences a nil interface. */
  method ConvertV1ManifestToV2(
    c: Codec, registry: map<Digest, Bytes>, cache: Cache, v1ManifestDesc: Descriptor, faults: ConversionFaults)
    returns (r: Result<Descriptor, ConversionError>, ghost fetched: Bytes, ghost image: Image)
    requires RoundTrips(c) && CollisionFree(c.h) && ContentAddressed(c.h, registry) && Consistent(c.h, cache)
    modifies Footprint(cache)
    ensures Consistent(c.h, cache)
    ensures r.Ok? ==>
      && Matches(c.h, v1ManifestDesc.digest, fetched) && c.manifestV1(fetched).Some?
      && var m := c.manifestV1(fetched).value;
         && Aligned(c, old(Available(registry, cache)), m, image, |m.fsLayers|)
         && m.history != [] && c.compat(m.history[0]).Some? && c.compat(m.history[0]).value.Fields?
         && Readable(c, cache, r.value, image, c.compat(m.history[0]).value.fields)
    ensures r == Err(MalformedManifest) ==> c.manifestV1(fetched) == None
    ensures r == Err(NilCache) ==> cache.NoCache?
    ensures r == Err(AddFailed) ==>
      !cache.NoCache? && (faults.addConfig != NO_FAULTS || faults.addManifest != NO_FAULTS)
    ensures NoConversionFaults(faults) ==>
      (r.Ok? <==>
        Converts(c, old(Fetchable(c.h, registry, cache, v1ManifestDesc)), old(Available(registry, cache)), cache))
  {
    hide Available, Aligned, Convertible, AllServed, CollisionFree, ContentAddressed, ConfigOf, Cached, Fetchable;
    image, fetched := Image([], [], []), [];
    var data := GetBlob(c.h, registry, cache, v1ManifestDesc, faults.fetch);
    if data == None {
      return Err(FetchFailed), fetched, image;
    }
    fetched := data.value;
    var m := c.manifestV1(data.value);
    if m == None {
      return Err(MalformedManifest), fetched, image;
    }
    var parsed := ParseV1Manifest(c, registry, cache, faults.layers, m.value);
    if parsed.Err? {
      return Err(parsed.error), fetched, image;
    }
    image := parsed.value;
    var config := CreateV2Config(c, m.value, parsed.value);
    if config.Err? {
      return Err(config.error), fetched, image;
    }
    var (manifestDesc, manifest) := CreateV2Manifest(c, config.value.0, parsed.value.layers);
    if cache.NoCache? {
      return Err(NilCache), fetched, image;
    }
    var ok := AddBlob(c, cache, config.value.0, config.value.1, faults.addConfig);
    if !ok {
      return Err(AddFailed), fetched, image;
    }
    ok := AddBlob(c, cache, manifestDesc, manifest, faults.addManifest);
    r := if ok then Ok(manifestDesc) else Err(AddFailed);
  }

  /** Right content added to a cache can be read from it, and hides nothing that could be read. */
  method AddBlob(c: Codec, cache: Cache, desc: Descriptor, content: Bytes, faults: Faults) returns (ok: bool)
    requires CollisionFree(c.h) && Consistent(c.h, cache) && !cache.NoCache?
    requires Matches(c.h, desc.digest, content) && desc.size == |content| && desc.digest.algorithm == "sha256"
    modifies Footprint(cache)
    ensures Consistent(c.h, cache)
    ensures ok ==> Cached(c.h, cache, desc, content)
    ensures ok ==> forall other: Descriptor, blob ::
      other.digest.algorithm == "sha256" && old(Cached(c.h, cache, other, blob)) ==> Cached(c.h, cache, other, blob)
    ensures faults == NO_FAULTS ==> ok
  {
    match cache
    case InMemory(memory) =>
      ghost var before := memory.store;
      ok := memory.Add(desc, content, faults.copy.Some?);
      if desc.digest in before {
        assert c.h(desc.digest.algorithm, before[desc.digest]) == c.h(desc.digest.algorithm, content);
      }
    case Layered(layered) =>
      ghost var base, overlay := layered.base, layered.overlay;
      ok := layered.Add(desc, content, faults);
      if ok {
        forall other: Descriptor, blob | other.digest.algorithm == "sha256"
          ensures Lookup(c.h, base, overlay, other) == Some(blob) ==>
            Lookup(c.h, layered.base, overlay, other) == Some(blob)
        {
          AddKeepsLookups(c.h, base, overlay, desc, content, other);
        }
        AddKeepsLookups(c.h, base, overlay, desc, content, desc);
      }
  }

  /** A file overwritten with its right content: what could be found is still found. */
  lemma AddKeepsLookups(
    h: Hasher, base: map<string, Bytes>, overlay: Option<map<string, Bytes>>, desc: Descriptor, content: Bytes,
    other: Descriptor)
    requires CollisionFree(h) && Matches(h, desc.digest, content) && desc.size == |content|
    requires desc.digest.algorithm == other.digest.algorithm
    ensures Lookup(h, base, overlay, other).Some? ==>
      Lookup(h, base[Path(desc) := content], overlay, other) == Lookup(h, base, overlay, other)
    ensures Lookup(h, base[Path(desc) := content], overlay, desc) == Some(content)
  {
    if overlay.Some? && Holds(h, overlay.value, desc) {
      assert h(desc.digest.algorithm, overlay.value[Path(desc)]) == h(desc.digest.algorithm, content);
    }
    if Path(other) == Path(desc) && Holds(h, base, other) {
      assert h(desc.digest.algorithm, base[Path(desc)]) == h(desc.digest.algorithm, content);
    }
  }

  // ---------- what a container runtime makes of both forms ----------

  /** What one entry of the schema 1 lists does to a file system; one marked empty leaves it as it is. */
  ghost function Next<S>(
    c: Codec, blobs: map<Digest, Bytes>, m: V1Manifest, apply: (S, Bytes) -> S, i: nat, fs: S): S
    requires i < |m.fsLayers| && Convertible(c, blobs, m, i)
  {
    if IsEmptyLayer(c.historyV1(m.history[i]).value) then fs
    else apply(fs, Content(c, blobs, m.fsLayers[i]))
  }

  /** The file system of a schema 1 image: the layers are applied from the end of the list. */
  ghost function ReplayV1<S>(
    c: Codec, blobs: map<Digest, Bytes>, m: V1Manifest, apply: (S, Bytes) -> S, i: nat, fs: S): S
    requires i <= |m.fsLayers| && AllConvertible(c, blobs, m)
  {
    if i == 0 then fs
    else
      assert Convertible(c, blobs, m, i - 1);
      ReplayV1(c, blobs, m, apply, i - 1, Next(c, blobs, m, apply, i - 1, fs))
  }

  /** A blob unpacked as its descriptor says, if size, media type and diff id are right. */
  function Unpack(c: Codec, blobs: map<Digest, Bytes>, layer: Descriptor, diffId: Digest): Option<Bytes> {
    if layer.digest !in blobs || |blobs[layer.digest]| != layer.size then None
    else match c.decompress(blobs[layer.digest])
      case None => None
      case Some((compression, content)) =>
        if LayerMediaType(compression) != layer.mediaType || FromBytes(c, content) != diffId then None
        else Some(content)
  }

  /** The file system of a version 2 image: the layers are applied from the front, each checked against its diff id. */
  ghost function ReplayV2<S>(
    c: Codec, blobs: map<Digest, Bytes>, image: Image, apply: (S, Bytes) -> S, k: nat, fs: S): Option<S>
    requires k <= |image.layers| == |image.diffIds|
    decreases |image.layers| - k
  {
    if k == |image.layers| then Some(fs)
    else match Unpack(c, blobs, image.layers[k], image.diffIds[k])
      case None => None
      case Some(content) => ReplayV2(c, blobs, image, apply, k + 1, apply(fs, content))
  }

  lemma AlignedConverts(c: Codec, blobs: map<Digest, Bytes>, m: V1Manifest, image: Image, i: nat)
    requires Aligned(c, blobs, m, image, |m.fsLayers|) && i < |m.fsLayers|
    ensures Convertible(c, blobs, m, i)
  {
    assert At(c, blobs, m, image, |m.fsLayers| - 1 - i);
    hide Convertible, ItemOf, LayerOf, NonEmpty;
  }

  /** The layer of an item, if it has one, unpacks to what the schema 1 entry holds. */
  lemma ItemLayer(c: Codec, blobs: map<Digest, Bytes>, m: V1Manifest, image: Image, j: nat)
    requires Aligned(c, blobs, m, image, |m.fsLayers|) && j < |m.fsLayers|
    ensures var i, k := |m.fsLayers| - 1 - j, NonEmpty(image.history[..j]);
      && |image.history| == |m.fsLayers| && |image.layers| == |image.diffIds|
      && Convertible(c, blobs, m, i) && k <= |image.layers|
      && image.history[j].emptyLayer == IsEmptyLayer(c.historyV1(m.history[i]).value)
      && (!image.history[j].emptyLayer ==>
            && k < |image.layers|
            && Unpack(c, blobs, image.layers[k], image.diffIds[k]) == Some(Content(c, blobs, m.fsLayers[i])))
  {
    assert At(c, blobs, m, image, j);
    NonEmptyPrefix(image.history, j);
    hide NonEmpty, At;
  }

  /** Item `j` moves a runtime on by one layer, or not at all, just as its entry does. */
  lemma ItemStep<S>(
    c: Codec, blobs: map<Digest, Bytes>, m: V1Manifest, image: Image, apply: (S, Bytes) -> S, j: nat, fs: S)
    requires Aligned(c, blobs, m, image, |m.fsLayers|) && j < |m.fsLayers|
    ensures var i := |m.fsLayers| - 1 - j;
      && Convertible(c, blobs, m, i)
      && NonEmpty(image.history[..j]) <= |image.layers| && NonEmpty(image.history[..j + 1]) <= |image.layers|
      && ReplayV2(c, blobs, image, apply, NonEmpty(image.history[..j]), fs) ==
         ReplayV2(c, blobs, image, apply, NonEmpty(image.history[..j + 1]), Next(c, blobs, m, apply, i, fs))
  {
    hide Aligned, Unpack, Content, Convertible, IsEmptyLayer;
    ItemLayer(c, blobs, m, image, j);
    NonEmptyStep(image.history, j);
    hide NonEmpty;
  }

  lemma NonEmptyStep(history: seq<History>, j: nat)
    requires j < |history|
    ensures NonEmpty(history[..j + 1]) == NonEmpty(history[..j]) + if history[j].emptyLayer then 0 else 1
  {
    assert history[..j + 1][..j] == history[..j];
  }

  lemma ReplayEnds<S>(
    c: Codec, blobs: map<Digest, Bytes>, m: V1Manifest, image: Image, apply: (S, Bytes) -> S, fs: S)
    requires Aligned(c, blobs, m, image, |m.fsLayers|)
    ensures NonEmpty(image.history[..|m.fsLayers|]) <= |image.layers|
    ensures ReplayV2(c, blobs, image, apply, NonEmpty(image.history[..|m.fsLayers|]), fs) == Some(fs)
  {
    assert image.history[..|m.fsLayers|] == image.history;
  }

  /** From item `j` on both forms do the same. */
  lemma {:induction false} ReplayFrom<S>(
    c: Codec, blobs: map<Digest, Bytes>, m: V1Manifest, image: Image, apply: (S, Bytes) -> S, j: nat, fs: S)
    requires Aligned(c, blobs, m, image, |m.fsLayers|) && j <= |m.fsLayers|
    requires AllConvertible(c, blobs, m)
    ensures NonEmpty(image.history[..j]) <= |image.layers|
    ensures ReplayV2(c, blobs, image, apply, NonEmpty(image.history[..j]), fs) ==
      Some(ReplayV1(c, blobs, m, apply, |m.fsLayers| - j, fs))
    decreases |m.fsLayers| - j
  {
    if j == |m.fsLayers| {
      ReplayEnds(c, blobs, m, image, apply, fs);
    } else {
      hide Aligned, AllConvertible, NonEmpty, Next, Convertible, ReplayV2;
      ItemStep(c, blobs, m, image, apply, j, fs);
      ReplayFrom(c, blobs, m, image, apply, j + 1, Next(c, blobs, m, apply, |m.fsLayers| - 1 - j, fs));
    }
  }

  /** The conversion preserves the image: replaying both forms gives the same file system, whatever a layer does. */
  lemma ConversionPreservesImage<S>(
    c: Codec, blobs: map<Digest, Bytes>, m: V1Manifest, image: Image, apply: (S, Bytes) -> S, fs: S)
    requires Aligned(c, blobs, m, image, |m.fsLayers|)
    ensures AllConvertible(c, blobs, m)
    ensures ReplayV2(c, blobs, image, apply, 0, fs) == Some(ReplayV1(c, blobs, m, apply, |m.fsLayers|, fs))
  {
    forall i | 0 <= i < |m.fsLayers|
      ensures Convertible(c, blobs, m, i)
    {
      AlignedConverts(c, blobs, m, image, i);
    }
    ReplayFrom(c, blobs, m, image, apply, 0, fs);
  }

  /** The result is determined: there is only one image that is aligned with a schema 1 manifest. */
  lemma AlignedIsUnique(c: Codec, blobs: map<Digest, Bytes>, m: V1Manifest, a: Image, b: Image)
    requires Aligned(c, blobs, m, a, |m.fsLayers|) && Aligned(c, blobs, m, b, |m.fsLayers|)
    ensures a == b
  {
    forall j | 0 <= j < |m.fsLayers|
      ensures a.history[j] == b.history[j]
    {
      assert At(c, blobs, m, a, j) && At(c, blobs, m, b, j);
    }
    assert a.history == b.history;
    forall k | 0 <= k < |a.layers|
      ensures a.layers[k] == b.layers[k] && a.diffIds[k] == b.diffIds[k]
    {
      var j := KthNonEmpty(a.history, k);
      assert At(c, blobs, m, a, j) && At(c, blobs, m, b, j);
    }
  }

  /** Every layer has an item: the k-th that is not marked empty. */
  lemma {:induction false} KthNonEmpty(history: seq<History>, k: nat) returns (j: nat)
    requires k < NonEmpty(history)
    ensures j < |history| && !history[j].emptyLayer && NonEmpty(history[..j]) == k
  {
    var front := history[..|history| - 1];
    if k < NonEmpty(front) {
      j := KthNonEmpty(front, k);
      assert front[..j] == history[..j];
    } else {
      j := |history| - 1;
    }
  }
}
