/** What comes back when an artifact is written into an archive and read into another cache. */
module ArtifactRoundTrip {
  import opened Common
  import opened Oci
  import opened Strings
  import opened BlobCache
  import opened ArtifactArchive

  /** A blob can be read, and it is what its descriptor says. */
  ghost predicate Exact(c: Codec, s: Snapshot, desc: Descriptor) {
    && Seen(c.h, s, desc).Some?
    && Matches(c.h, desc.digest, Seen(c.h, s, desc).value)
    && |Seen(c.h, s, desc).value| == desc.size
  }

  ghost predicate ExactImage(c: Codec, s: Snapshot, m: ManifestData) {
    Exact(c, s, m.config) && forall i :: 0 <= i < |m.layers| ==> Exact(c, s, m.layers[i])
  }

  /** Configuration and layers of all manifests are there. */
  ghost predicate ExactArtifact(c: Codec, s: Snapshot, a: Artifact) {
    forall i :: 0 <= i < |Manifests(a)| ==> ExactImage(c, s, Manifests(a)[i].data)
  }

  ghost predicate Names(h: Hasher, encoded: string, content: Bytes) {
    exists alg :: h(alg, content) == encoded
  }

  /** The in-memory cache does not verify, so it must not hold wrong content already. */
  ghost predicate Sound(h: Hasher, s: Snapshot) {
    s.Memory? ==> forall d :: d in s.store ==> Names(h, d.encoded, s.store[d])
  }

  /**
    Reading an archive takes every file name for a SHA-256 digest. The layered cache looks blobs up by the name alone,
    but the in-memory cache finds a blob with another digest only if it had it before.
   */
  predicate Kept(t: Snapshot, digest: Digest) {
    t.Memory? ==> digest.algorithm == "sha256" || digest in t.store
  }

  predicate KeptImage(t: Snapshot, m: ManifestData) {
    Kept(t, m.config.digest) && forall i :: 0 <= i < |m.layers| ==> Kept(t, m.layers[i].digest)
  }

  /**
    What reading makes of an artifact: an index has its schema versions filled in and its descriptors recomputed, up to
    what they say about annotations, platform and URLs; a single manifest gets a plain descriptor.
   */
  function Normal(c: Codec, a: Artifact): Artifact {
    match a
    case Single(m) =>
      var content := c.encodeManifest(m.data);
      var digest := Digest("sha256", c.h("sha256", content));
      Single(Manifest(Descriptor(MEDIA_TYPE_IMAGE_MANIFEST, digest, |content|, map[], None, []), m.data))
    case Index(ms, annotations) =>
      Index(seq(|ms|, i requires 0 <= i < |ms| => Manifest(Described(c, ms[i]), Versioned(ms[i].data))), annotations)
  }

  // ---------- the files of an archive ----------

  /** A blob file is named by a sum of its content. */
  ghost predicate BlobFileOf(c: Codec, file: TarFile) {
    exists encoded :: Names(c.h, encoded, file.content) && file.name == BlobName(encoded)
  }

  ghost predicate BlobFiles(c: Codec, files: seq<TarFile>) {
    forall i :: 0 <= i < |files| ==> BlobFileOf(c, files[i])
  }

  lemma HexHasNoSlash(h: Hasher, encoded: string, content: Bytes)
    requires Hexadecimal(h) && Names(h, encoded, content)
    ensures '/' !in encoded
  {
    var alg :| h(alg, content) == encoded;
    assert forall i :: 0 <= i < |h(alg, content)| ==> h(alg, content)[i] in "0123456789abcdef";
  }

  lemma BlobNameSplits(c: Codec, file: TarFile, encoded: string)
    requires Hexadecimal(c.h) && Names(c.h, encoded, file.content) && file.name == BlobName(encoded)
    ensures IsBlobName(file.name) && BlobDigest(file) == Digest("sha256", encoded)
    ensures file.name != MANIFEST_FILE && file.name != INDEX_FILE
  {
    HexHasNoSlash(c.h, encoded, file.content);
    SplitPrefix(BLOBS_DIR, encoded, '/');
    SplitNone(encoded, '/');
    assert file.name[0] == 'b';
  }

  /** Reading a blob file keeps the file, and the digest made of its name fits the content in some algorithm. */
  lemma BlobFileRead(c: Codec, before: Contents, file: TarFile)
    requires Hexadecimal(c.h) && BlobFileOf(c, file)
    ensures ReadFile(before, file) == Ok(before.(blobs := before.blobs + [file]))
    ensures Names(c.h, BlobDigest(file).encoded, file.content)
  {
    var encoded :| Names(c.h, encoded, file.content) && file.name == BlobName(encoded);
    BlobNameSplits(c, file, encoded);
  }

  lemma NamedContent(h: Hasher, encoded: string, a: Bytes, b: Bytes)
    requires Unmistakable(h) && Names(h, encoded, a) && Names(h, encoded, b)
    ensures a == b
  {
    var alg :| h(alg, a) == encoded;
    var alg' :| h(alg', b) == encoded;
  }

  lemma {:induction false} BlobFilesRead(c: Codec, front: seq<TarFile>, files: seq<TarFile>)
    requires Hexadecimal(c.h) && BlobFiles(c, files) && ReadFiles(front).Ok?
    ensures ReadFiles(front + files) == Ok(ReadFiles(front).value.(blobs := ReadFiles(front).value.blobs + files))
  {
    hide ReadFiles, ReadFile, Hexadecimal, BlobFileOf;
    if files == [] {
      assert front + files == front;
      assert ReadFiles(front).value.blobs + files == ReadFiles(front).value.blobs;
    } else {
      var m := |files| - 1;
      BlobFilesRead(c, front, files[..m]);
      BlobFileRead(c, ReadFiles(front + files[..m]).value, files[m]);
      ReadFilesStep(front + files[..m], files[m]);
      Associative(front, files[..m], [files[m]]);
      Associative(ReadFiles(front).value.blobs, files[..m], [files[m]]);
      assert files == files[..m] + [files[m]];
    }
  }

  lemma ReadFilesStep(front: seq<TarFile>, file: TarFile)
    requires ReadFiles(front).Ok?
    ensures ReadFiles(front + [file]) == ReadFile(ReadFiles(front).value, file)
  {
    assert (front + [file])[..|front|] == front;
  }

  // ---------- the cache after reading ----------

  predicate Has(s: Snapshot, digest: Digest, content: Bytes) {
    match s
    case Nil => false
    case Memory(store) => digest in store && store[digest] == content
    case Layers(base, _) => digest.encoded in base && base[digest.encoded] == content
  }

  /** Storing a blob makes it available and leaves every other one that is named by a sum. */
  lemma StoredHas(c: Codec, s: Snapshot, file: TarFile, other: TarFile)
    requires Unmistakable(c.h) && Hexadecimal(c.h) && Sound(c.h, s) && !s.Nil?
    requires BlobFileOf(c, file) && BlobFileOf(c, other)
    ensures var s' := Stored(s, BlobDigest(file), file.content);
      && Sound(c.h, s') && !s'.Nil?
      && Has(s', BlobDigest(file), file.content)
      && (Has(s, BlobDigest(other), other.content) ==> Has(s', BlobDigest(other), other.content))
  {
    var any := Contents([], false, []);
    BlobFileRead(c, any, file);
    BlobFileRead(c, any, other);
    hide Unmistakable, Hexadecimal, BlobFileOf, Names, BlobDigest;
    if BlobDigest(file) == BlobDigest(other) {
      NamedContent(c.h, BlobDigest(file).encoded, file.content, other.content);
    }
    if s.Memory? && BlobDigest(file) in s.store {
      NamedContent(c.h, BlobDigest(file).encoded, file.content, s.store[BlobDigest(file)]);
    }
  }

  lemma AllStoredStep(s: Snapshot, files: seq<TarFile>)
    requires files != []
    ensures var m := |files| - 1;
      AllStored(s, files) == Stored(AllStored(s, files[..m]), BlobDigest(files[m]), files[m].content)
  {
  }

  lemma {:induction false} AllStoredSound(c: Codec, s: Snapshot, files: seq<TarFile>)
    requires Unmistakable(c.h) && Hexadecimal(c.h) && Sound(c.h, s) && !s.Nil? && BlobFiles(c, files)
    ensures Sound(c.h, AllStored(s, files)) && !AllStored(s, files).Nil?
  {
    if files != [] {
      AllStoredStep(s, files);
      hide Sound, AllStored, Stored, BlobDigest;
      var m := |files| - 1;
      AllStoredSound(c, s, files[..m]);
      StoredHas(c, AllStored(s, files[..m]), files[m], files[m]);
    }
  }

  lemma {:induction false} AllStoredHas(c: Codec, s: Snapshot, files: seq<TarFile>, file: TarFile)
    requires Unmistakable(c.h) && Hexadecimal(c.h) && Sound(c.h, s) && !s.Nil? && BlobFiles(c, files)
    requires file in files
    ensures Has(AllStored(s, files), BlobDigest(file), file.content)
  {
    hide Sound, Stored, BlobDigest, Has, AllStored;
    var front, last := files[..|files| - 1], files[|files| - 1];
    AllStoredStep(s, files);
    AllStoredSound(c, s, front);
    StoredHas(c, AllStored(s, front), last, file);
    if file in front {
      AllStoredHas(c, s, front, file);
    }
  }

  /** Reading an archive takes nothing out of an in-memory cache, and adds SHA-256 digests only. */
  lemma {:induction false} MemoryKeys(s: Snapshot, files: seq<TarFile>, digest: Digest)
    requires s.Memory?
    ensures AllStored(s, files).Memory?
    ensures digest in s.store ==>
      digest in AllStored(s, files).store && AllStored(s, files).store[digest] == s.store[digest]
    ensures !Kept(s, digest) ==> digest !in AllStored(s, files).store
  {
    if files != [] {
      MemoryKeys(s, files[..|files| - 1], digest);
    }
  }

  lemma {:induction false} StillLayers(s: Snapshot, files: seq<TarFile>)
    ensures AllStored(s, files).Layers? == s.Layers? && AllStored(s, files).Nil? == s.Nil?
  {
    if files != [] {
      StillLayers(s, files[..|files| - 1]);
    }
  }

  /** What is available can be read with the right digest and size, whatever an overlay holds. */
  lemma HasIsSeen(c: Codec, s: Snapshot, desc: Descriptor, content: Bytes)
    requires CollisionFree(c.h) && Has(s, desc.digest, content)
    requires Matches(c.h, desc.digest, content) && |content| == desc.size
    ensures Seen(c.h, s, desc) == Some(content)
  {
    if s.Layers? {
      var found := Lookup(c.h, s.base, s.overlay, desc);
      assert c.h(desc.digest.algorithm, found.value) == c.h(desc.digest.algorithm, content);
    }
  }

  /** A file of the archive can be read from the cache after reading, exactly if the cache keeps its digest. */
  lemma FileIsSeen(c: Codec, t: Snapshot, files: seq<TarFile>, file: TarFile, desc: Descriptor)
    requires Unmistakable(c.h) && Hexadecimal(c.h) && Sound(c.h, t) && !t.Nil?
    requires BlobFiles(c, files) && file in files && file.name == BlobName(desc.digest.encoded)
    requires Matches(c.h, desc.digest, file.content) && desc.size == |file.content|
    ensures Seen(c.h, AllStored(t, files), desc) == if Kept(t, desc.digest) then Some(file.content) else None
  {
    assert Names(c.h, desc.digest.encoded, file.content);
    BlobNameSplits(c, file, desc.digest.encoded);
    AllStoredHas(c, t, files, file);
    AllStoredSound(c, t, files);
    StillLayers(t, files);
    if t.Layers? {
      HasIsSeen(c, AllStored(t, files), desc, file.content);
    } else {
      MemoryKeys(t, files, desc.digest);
      var store := AllStored(t, files).store;
      if Kept(t, desc.digest) {
        NamedContent(c.h, desc.digest.encoded, file.content, store[desc.digest]);
      }
    }
  }

  // ---------- the files of an artifact ----------

  lemma ExactBlobFile(c: Codec, s: Snapshot, desc: Descriptor)
    requires Exact(c, s, desc)
    ensures var content := Seen(c.h, s, desc).value;
      && BlobFile(c, s)(desc) == Ok(TarFile(BlobName(desc.digest.encoded), content))
      && BlobFileOf(c, TarFile(BlobName(desc.digest.encoded), content))
  {
  }

  /** The blobs of an image all make it into the archive. */
  lemma ExactImageFiles(c: Codec, s: Snapshot, m: ManifestData, name: string)
    requires ExactImage(c, s, m)
    ensures ImageFiles(c, s, m, name).Ok?
    ensures var files := ImageFiles(c, s, m, name).value;
      && |files| == 2 + |m.layers| && files[0] == TarFile(name, c.encodeManifest(m))
      && BlobFiles(c, files[1..])
      && Ok(files[1]) == BlobFile(c, s)(m.config)
      && forall i :: 0 <= i < |m.layers| ==> Ok(files[2 + i]) == BlobFile(c, s)(m.layers[i])
  {
    var f := BlobFile(c, s);
    var ys := seq(|m.layers|, i requires 0 <= i < |m.layers| => BlobFileAt(c, s, m.layers[i]));
    ExactBlobFile(c, s, m.config);
    forall i | 0 <= i < |m.layers|
      ensures f(m.layers[i]) == Ok(ys[i]) && BlobFileOf(c, ys[i])
    {
      ExactBlobFile(c, s, m.layers[i]);
    }
    TryMapOk(f, m.layers, ys);
  }

  function BlobFileAt(c: Codec, s: Snapshot, desc: Descriptor): TarFile {
    var content := Seen(c.h, s, desc);
    TarFile(BlobName(desc.digest.encoded), if content.Some? then content.value else [])
  }

  /** `file` is that of a blob of the image, or of the manifest itself. */
  ghost predicate InArchive(c: Codec, s: Snapshot, files: seq<TarFile>, m: ManifestData) {
    && TarFile(BlobName(c.h("sha256", c.encodeManifest(m))), c.encodeManifest(m)) in files
    && BlobsInArchive(c, s, files, m)
  }

  ghost predicate BlobsInArchive(c: Codec, s: Snapshot, files: seq<TarFile>, m: ManifestData) {
    && BlobFileAt(c, s, m.config) in files
    && forall i :: 0 <= i < |m.layers| ==> BlobFileAt(c, s, m.layers[i]) in files
  }

  lemma InLonger(c: Codec, s: Snapshot, files: seq<TarFile>, more: seq<TarFile>, m: ManifestData)
    requires InArchive(c, s, files, m)
    ensures InArchive(c, s, files + more, m) && InArchive(c, s, more + files, m)
  {
  }

  lemma OwnFiles(c: Codec, s: Snapshot, m: ManifestData)
    requires ExactImage(c, s, m)
    ensures var files := ImageFiles(c, s, m, BlobName(c.h("sha256", c.encodeManifest(m))));
      files.Ok? && BlobFiles(c, files.value) && InArchive(c, s, files.value, m)
  {
    var name := BlobName(c.h("sha256", c.encodeManifest(m)));
    ExactImageFiles(c, s, m, name);
    var files := ImageFiles(c, s, m, name).value;
    forall i | 0 <= i < |files|
      ensures BlobFileOf(c, files[i])
    {
      assert i > 0 ==> files[i] == files[1..][i - 1];
    }
    assert files[1] in files;
    forall i | 0 <= i < |m.layers|
      ensures BlobFileAt(c, s, m.layers[i]) in files
    {
      assert files[2 + i] in files;
    }
  }

  /** One more image: its files are in the archive, and those of the others stay. */
  lemma IndexStep(c: Codec, s: Snapshot, ms: seq<Manifest>)
    requires ms != [] && ExactImage(c, s, ms[|ms| - 1].data) && IndexFiles(c, s, ms[..|ms| - 1]).Ok?
    requires BlobFiles(c, IndexFiles(c, s, ms[..|ms| - 1]).value)
    ensures IndexFiles(c, s, ms).Ok? && BlobFiles(c, IndexFiles(c, s, ms).value)
    ensures IndexFiles(c, s, ms[..|ms| - 1]).value <= IndexFiles(c, s, ms).value
    ensures InArchive(c, s, IndexFiles(c, s, ms).value, Versioned(ms[|ms| - 1].data))
  {
    var n := |ms| - 1;
    var front, m := IndexFiles(c, s, ms[..n]).value, Versioned(ms[n].data);
    assert ExactImage(c, s, m);
    OwnFiles(c, s, m);
    var own := ImageFiles(c, s, m, BlobName(c.h("sha256", c.encodeManifest(m)))).value;
    assert IndexFiles(c, s, ms) == Ok(front + own);
    hide InArchive;
    InLonger(c, s, own, front, m);
  }

  lemma {:induction false} ExactIndexFiles(c: Codec, s: Snapshot, ms: seq<Manifest>)
    requires forall i :: 0 <= i < |ms| ==> ExactImage(c, s, ms[i].data)
    ensures IndexFiles(c, s, ms).Ok? && BlobFiles(c, IndexFiles(c, s, ms).value)
  {
    if ms != [] {
      ExactIndexFiles(c, s, ms[..|ms| - 1]);
      IndexStep(c, s, ms);
    }
  }

  lemma {:induction false} EachInArchive(c: Codec, s: Snapshot, ms: seq<Manifest>, m: Manifest)
    requires m in ms && forall i :: 0 <= i < |ms| ==> ExactImage(c, s, ms[i].data)
    ensures IndexFiles(c, s, ms).Ok? && InArchive(c, s, IndexFiles(c, s, ms).value, Versioned(m.data))
  {
    hide IndexFiles, InArchive, ExactImage;
    var front := ms[..|ms| - 1];
    ExactIndexFiles(c, s, front);
    IndexStep(c, s, ms);
    if m in front {
      EachInArchive(c, s, front, m);
      var files, all := IndexFiles(c, s, front).value, IndexFiles(c, s, ms).value;
      InLonger(c, s, files, all[|files|..], Versioned(m.data));
      assert files + all[|files|..] == all;
    } else {
      assert ms == front + [ms[|ms| - 1]];
    }
  }

  // ---------- the round trip ----------

  /** Every blob of the image can be read here as well, with the same bytes. */
  ghost predicate SameBlobs(c: Codec, s: Snapshot, t: Snapshot, m: ManifestData) {
    && Seen(c.h, t, m.config) == Seen(c.h, s, m.config)
    && forall i :: 0 <= i < |m.layers| ==> Seen(c.h, t, m.layers[i]) == Seen(c.h, s, m.layers[i])
  }

  lemma BlobsAreSeen(c: Codec, s: Snapshot, t: Snapshot, files: seq<TarFile>, m: ManifestData)
    requires Unmistakable(c.h) && Hexadecimal(c.h) && Sound(c.h, t) && !t.Nil?
    requires BlobFiles(c, files) && ExactImage(c, s, m) && BlobsInArchive(c, s, files, m)
    ensures SameBlobs(c, s, AllStored(t, files), m) <==> KeptImage(t, m)
  {
    FileIsSeen(c, t, files, BlobFileAt(c, s, m.config), m.config);
    forall i | 0 <= i < |m.layers|
      ensures Seen(c.h, AllStored(t, files), m.layers[i]) == Seen(c.h, s, m.layers[i]) <==> Kept(t, m.layers[i].digest)
    {
      assert Exact(c, s, m.layers[i]);
      FileIsSeen(c, t, files, BlobFileAt(c, s, m.layers[i]), m.layers[i]);
    }
    hide Seen, Kept, ExactImage, BlobsInArchive;
  }

  /** The blobs that reading an archive puts into the cache. */
  function BlobsOf(tar: seq<TarFile>): seq<TarFile> {
    var contents := ReadFiles(tar);
    if contents.Ok? then contents.value.blobs else []
  }

  /** The archive of a single image holds the manifest and all blobs. */
  lemma SingleArchiveRead(c: Codec, s: Snapshot, m: ManifestData)
    requires Hexadecimal(c.h) && ExactImage(c, s, m)
    ensures var tar := ImageFiles(c, s, m, MANIFEST_FILE);
      && tar.Ok? && tar.value != [] && BlobFiles(c, tar.value[1..]) && BlobsInArchive(c, s, tar.value[1..], m)
      && ReadFiles(tar.value) == Ok(Contents(c.encodeManifest(m), false, tar.value[1..]))
  {
    ExactImageFiles(c, s, m, MANIFEST_FILE);
    var tar := ImageFiles(c, s, m, MANIFEST_FILE).value;
    var first, rest := [tar[0]], tar[1..];
    assert BlobsInArchive(c, s, rest, m) by {
      assert rest[0] == tar[1];
      forall i | 0 <= i < |m.layers|
        ensures BlobFileAt(c, s, m.layers[i]) in rest
      {
        assert rest[1 + i] == tar[2 + i];
      }
    }
    assert tar == first + rest;
    hide ImageFiles, BlobFiles, BlobsInArchive, ExactImage, Hexadecimal, ReadFiles;
    FirstFileRead(c.encodeManifest(m));
    BlobFilesRead(c, first, rest);
    assert [] + rest == rest;
  }

  lemma FirstFileRead(doc: Bytes)
    ensures ReadFiles([TarFile(MANIFEST_FILE, doc)]) == Ok(Contents(doc, false, []))
  {
    var first := [TarFile(MANIFEST_FILE, doc)];
    assert [] + doc == doc && first[..0] == [];
  }

  lemma SingleRoundTrip(c: Codec, s: Snapshot, t: Snapshot, m: Manifest)
    requires RoundTrips(c) && Unmistakable(c.h) && Hexadecimal(c.h)
    requires !s.Nil? && !t.Nil? && Sound(c.h, t) && ExactImage(c, s, m.data)
    ensures Serialized(c, s, Single(m)).Ok?
    ensures var tar := Serialized(c, s, Single(m)).value;
      && Deserialized(c, t, tar) == Ok(Normal(c, Single(m)))
      && (SameBlobs(c, s, AllStored(t, BlobsOf(tar)), m.data) <==> KeptImage(t, m.data))
  {
    SingleArchiveRead(c, s, m.data);
    hide ImageFiles, BlobFiles, BlobsInArchive, ExactImage, Hexadecimal, Unmistakable, ReadFiles, Sound;
    var tar := ImageFiles(c, s, m.data, MANIFEST_FILE).value;
    BlobsAreSeen(c, s, t, tar[1..], m.data);
  }

  lemma IndexArchiveRead(c: Codec, files: seq<TarFile>, doc: Bytes)
    requires Hexadecimal(c.h) && BlobFiles(c, files)
    ensures ReadFiles(files + [TarFile(INDEX_FILE, doc)]) == Ok(Contents(doc, true, files))
  {
    BlobFilesRead(c, [], files);
    assert [] + files == files && [] + doc == doc;
    ReadFilesStep(files, TarFile(INDEX_FILE, doc));
    assert INDEX_FILE[0] != MANIFEST_FILE[0];
    hide Hexadecimal, BlobFiles;
  }

  lemma IndexRoundTrip(c: Codec, s: Snapshot, t: Snapshot, ms: seq<Manifest>, annotations: map<string, string>)
    requires RoundTrips(c) && Unmistakable(c.h) && Hexadecimal(c.h)
    requires !s.Nil? && !t.Nil? && Sound(c.h, t)
    requires forall i :: 0 <= i < |ms| ==> ExactImage(c, s, ms[i].data)
    ensures Serialized(c, s, Index(ms, annotations)).Ok?
    ensures var tar := Serialized(c, s, Index(ms, annotations)).value;
      && Deserialized(c, t, tar) == Ok(Normal(c, Index(ms, annotations)))
      && forall i :: 0 <= i < |ms| ==>
           (SameBlobs(c, s, AllStored(t, BlobsOf(tar)), Versioned(ms[i].data)) <==> KeptImage(t, ms[i].data))
  {
    ExactIndexFiles(c, s, ms);
    var files := IndexFiles(c, s, ms).value;
    var t', descs := AllStored(t, files), Descs(c, ms);
    IndexArchiveRead(c, files, c.encodeIndex(IndexData(2, descs, annotations)));
    var read := seq(|ms|, i requires 0 <= i < |ms| => Manifest(Described(c, ms[i]), Versioned(ms[i].data)));
    forall i | 0 <= i < |ms|
      ensures ManifestAt(c, t')(descs[i]) == Ok(read[i])
      ensures SameBlobs(c, s, t', Versioned(ms[i].data)) <==> KeptImage(t, ms[i].data)
    {
      ImageReadBack(c, s, t, ms, ms[i]);
    }
    TryMapOk(ManifestAt(c, t'), descs, read);
  }

  lemma ImageReadBack(c: Codec, s: Snapshot, t: Snapshot, ms: seq<Manifest>, m: Manifest)
    requires RoundTrips(c) && Unmistakable(c.h) && Hexadecimal(c.h) && !t.Nil? && Sound(c.h, t)
    requires m in ms && forall i :: 0 <= i < |ms| ==> ExactImage(c, s, ms[i].data)
    ensures IndexFiles(c, s, ms).Ok?
    ensures var t' := AllStored(t, IndexFiles(c, s, ms).value);
      && ManifestAt(c, t')(Described(c, m)) == Ok(Manifest(Described(c, m), Versioned(m.data)))
      && (SameBlobs(c, s, t', Versioned(m.data)) <==> KeptImage(t, m.data))
  {
    ExactIndexFiles(c, s, ms);
    EachInArchive(c, s, ms, m);
    var files, data := IndexFiles(c, s, ms).value, Versioned(m.data);
    FileIsSeen(c, t, files, TarFile(BlobName(c.h("sha256", c.encodeManifest(data))), c.encodeManifest(data)),
      Described(c, m));
    assert ExactImage(c, s, data);
    BlobsAreSeen(c, s, t, files, data);
  }

  /**
    The round trip. If all blobs of an artifact can be read as described, writing succeeds, and reading yields the
    artifact in normal form: the same manifests in the same order, with their annotations, platforms and URLs. The
    configuration and layers of an image can then be read from the other cache with the same bytes, exactly if that
    cache keeps their digests.
   */
  lemma RoundTrip(c: Codec, s: Snapshot, t: Snapshot, a: Artifact)
    requires RoundTrips(c) && Unmistakable(c.h) && Hexadecimal(c.h)
    requires !s.Nil? && !t.Nil? && Sound(c.h, t) && ExactArtifact(c, s, a)
    ensures Serialized(c, s, a).Ok?
    ensures var tar := Serialized(c, s, a).value;
      && Deserialized(c, t, tar) == Ok(Normal(c, a))
      && forall i :: 0 <= i < |Manifests(a)| ==>
           (SameBlobs(c, s, AllStored(t, BlobsOf(tar)), Manifests(a)[i].data) <==> KeptImage(t, Manifests(a)[i].data))
  {
    match a
    case Single(m) =>
      assert ExactImage(c, s, Manifests(a)[0].data);
      SingleRoundTrip(c, s, t, m);
    case Index(ms, annotations) =>
      forall i | 0 <= i < |ms|
        ensures ExactImage(c, s, ms[i].data)
      {
        assert ExactImage(c, s, Manifests(a)[i].data);
      }
      IndexRoundTrip(c, s, t, ms, annotations);
      var t' := AllStored(t, BlobsOf(Serialized(c, s, a).value));
      forall i | 0 <= i < |Manifests(a)|
        ensures SameBlobs(c, s, t', Manifests(a)[i].data) <==> KeptImage(t, Manifests(a)[i].data)
      {
        assert SameBlobs(c, s, t', Versioned(ms[i].data)) <==> SameBlobs(c, s, t', ms[i].data);
      }
  }

  lemma NormalIsNormal(c: Codec, a: Artifact)
    ensures Normal(c, Normal(c, a)) == Normal(c, a)
    ensures |Manifests(Normal(c, a))| == |Manifests(a)|
    ensures forall i :: 0 <= i < |Manifests(a)| ==>
      Manifests(Normal(c, a))[i].data in {Manifests(a)[i].data, Versioned(Manifests(a)[i].data)}
  {
    if a.Index? {
      var n := Normal(c, a);
      forall i | 0 <= i < |a.manifests|
        ensures Normal(c, n).manifests[i] == n.manifests[i]
      {
        assert Versioned(Versioned(a.manifests[i].data)) == Versioned(a.manifests[i].data);
      }
      assert Normal(c, n).manifests == n.manifests;
    }
  }

  /** A second round trip, from the cache the first one filled into any other, changes nothing at all. */
  lemma SecondRoundTripIsIdentity(c: Codec, s: Snapshot, t: Snapshot, u: Snapshot, a: Artifact)
    requires RoundTrips(c) && Unmistakable(c.h) && Hexadecimal(c.h)
    requires !s.Nil? && !t.Nil? && !u.Nil? && Sound(c.h, t) && Sound(c.h, u) && ExactArtifact(c, s, a)
    requires forall i :: 0 <= i < |Manifests(a)| ==> KeptImage(t, Manifests(a)[i].data)
    ensures Serialized(c, s, a).Ok?
    ensures var t' := AllStored(t, BlobsOf(Serialized(c, s, a).value));
      var again := Serialized(c, t', Normal(c, a));
      again.Ok? && Deserialized(c, u, again.value) == Ok(Normal(c, a))
  {
    RoundTrip(c, s, t, a);
    NormalIsNormal(c, a);
    var tar := Serialized(c, s, a).value;
    var t', n := AllStored(t, BlobsOf(tar)), Normal(c, a);
    StillLayers(t, BlobsOf(tar));
    forall i | 0 <= i < |Manifests(n)|
      ensures ExactImage(c, t', Manifests(n)[i].data)
    {
      assert ExactImage(c, s, Manifests(a)[i].data);
      assert SameBlobs(c, s, t', Manifests(a)[i].data);
      SameBlobsExact(c, s, t', Manifests(a)[i].data);
    }
    RoundTrip(c, t', u, n);
  }

  lemma SameBlobsExact(c: Codec, s: Snapshot, t: Snapshot, m: ManifestData)
    requires ExactImage(c, s, m) && SameBlobs(c, s, t, m)
    ensures ExactImage(c, t, m) && ExactImage(c, t, Versioned(m))
  {
    forall i | 0 <= i < |m.layers|
      ensures Exact(c, t, m.layers[i])
    {
      assert Exact(c, s, m.layers[i]);
    }
  }
}
