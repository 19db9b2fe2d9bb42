/**
  Copying an image or an image index with everything it refers to (ociclient/copy.go), on top of PushRawManifest and
  pushContent (ociclient/client.go), over registries that may fail at any request.
 */
module ImageCopy {
  import opened Common
  import opened Oci
  import opened ImageRef

  // ---------- registries ----------

  datatype RepoState = RepoState(blobs: map<Digest, Bytes>, manifests: map<Digest, Bytes>, tags: map<string, Digest>)

  type World = map<string, RepoState>

  function At(w: World, repo: string): RepoState {
    if repo in w then w[repo] else RepoState(map[], map[], map[])
  }

  datatype Image = Image(config: Descriptor, layers: seq<Descriptor>)

  /** The hash, the media type that a manifest's bytes are served with, and the JSON decoders. */
  datatype Codec = Codec(
    h: Hasher, mediaType: Bytes -> string, index: Bytes -> Option<seq<Descriptor>>, image: Bytes -> Option<Image>)

  ghost predicate Sound(c: Codec, w: World) {
    forall repo :: repo in w ==> ContentAddressed(c.h, w[repo].blobs) && ContentAddressed(c.h, w[repo].manifests)
  }

  function Resolve(rs: RepoState, ref: Ref): Option<Digest> {
    match ref
    case ByTag(_, tag) => if tag in rs.tags && rs.tags[tag] in rs.manifests then Some(rs.tags[tag]) else None
    case ByDigest(_, _, d) => if d in rs.manifests then Some(d) else None
  }

  /** The tag that a push of manifest `d` to `ref` sets, if any. */
  function Tagging(ref: Ref, d: Digest): Option<string> {
    match ref
    case ByTag(_, tag) => Some(tag)
    case ByDigest(_, extraTag, digest) => if digest == d then extraTag else None
  }

  /** The tag that pushes to `ref` may set, whatever they push. */
  function MayTag(ref: Ref): Option<string> {
    if ref.ByTag? then Some(ref.tag) else ref.extraTag
  }

  function DescriptorOf(c: Codec, d: Digest, raw: Bytes): Descriptor {
    Descriptor(c.mediaType(raw), d, |raw|, map[], None, [])
  }

  function WithBlob(w: World, repo: string, d: Digest, content: Bytes): World {
    w[repo := At(w, repo).(blobs := At(w, repo).blobs[d := content])]
  }

  function WithManifest(w: World, ref: Ref, d: Digest, raw: Bytes): World {
    var rs := At(w, ref.repo);
    var tag := Tagging(ref, d);
    var tags := if tag.Some? then rs.tags[tag.value := d] else rs.tags;
    w[ref.repo := rs.(manifests := rs.manifests[d := raw], tags := tags)]
  }

  // ---------- what a manifest needs ----------

  ghost predicate ImagePresent(rs: RepoState, m: Image) {
    (m.config.size != 0 ==> m.config.digest in rs.blobs) && LayersPresent(rs, m.layers)
  }

  ghost predicate LayersPresent(rs: RepoState, layers: seq<Descriptor>) {
    forall i :: 0 <= i < |layers| ==> layers[i].digest in rs.blobs
  }

  ghost predicate ChildrenPresent(c: Codec, rs: RepoState, raw: Bytes) {
    && (IsSingleArchImage(c.mediaType(raw)) && c.image(raw).Some? ==> ImagePresent(rs, c.image(raw).value))
    && (IsMultiArchImage(c.mediaType(raw)) && c.index(raw).Some? ==>
          forall i :: 0 <= i < |c.index(raw).value| ==> c.index(raw).value[i].digest in rs.manifests)
  }

  /** No stored manifest lacks its config, a layer or a sub-manifest; a config of size 0 counts as not set. */
  ghost predicate Closed(c: Codec, rs: RepoState) {
    forall d :: d in rs.manifests ==> ChildrenPresent(c, rs, rs.manifests[d])
  }

  ghost predicate Grows(a: RepoState, b: RepoState) {
    && (forall d :: d in a.blobs ==> d in b.blobs && b.blobs[d] == a.blobs[d])
    && (forall d :: d in a.manifests ==> d in b.manifests && b.manifests[d] == a.manifests[d])
  }

  /** Everything reachable from manifest `d` is stored; indexes nest at most `n` deep. */
  ghost predicate Complete(c: Codec, rs: RepoState, d: Digest, n: nat)
    decreases n, 1
  {
    d in rs.manifests && CompleteBelow(c, rs, rs.manifests[d], n)
  }

  ghost predicate CompleteBelow(c: Codec, rs: RepoState, raw: Bytes, n: nat)
    decreases n, 0
  {
    && (IsSingleArchImage(c.mediaType(raw)) || IsMultiArchImage(c.mediaType(raw)))
    && (IsSingleArchImage(c.mediaType(raw)) ==> c.image(raw).Some? && ImagePresent(rs, c.image(raw).value))
    && (IsMultiArchImage(c.mediaType(raw)) ==>
          c.index(raw).Some? && n > 0 && AllComplete(c, rs, c.index(raw).value, n - 1))
  }

  ghost predicate AllComplete(c: Codec, rs: RepoState, descs: seq<Descriptor>, n: nat)
    decreases n, 2
  {
    forall i :: 0 <= i < |descs| ==> Complete(c, rs, descs[i].digest, n)
  }

  /** The bytes reachable from a manifest, as a tree. */
  datatype Tree = Tree(raw: Bytes, blobs: seq<Bytes>, manifests: seq<Tree>)

  ghost function Graph(c: Codec, rs: RepoState, d: Digest, n: nat): Tree
    requires Complete(c, rs, d, n)
    decreases n, 1
  {
    GraphBelow(c, rs, rs.manifests[d], n)
  }

  ghost function GraphBelow(c: Codec, rs: RepoState, raw: Bytes, n: nat): Tree
    requires CompleteBelow(c, rs, raw, n)
    decreases n, 0
  {
    Tree(raw, ImageBlobs(c, rs, raw),
      if IsMultiArchImage(c.mediaType(raw)) then Graphs(c, rs, c.index(raw).value, n - 1) else [])
  }

  ghost function Graphs(c: Codec, rs: RepoState, descs: seq<Descriptor>, n: nat): seq<Tree>
    requires AllComplete(c, rs, descs, n)
    decreases n, 2
  {
    seq(|descs|, i requires 0 <= i < |descs| => Graph(c, rs, descs[i].digest, n))
  }

  ghost function ImageBlobs(c: Codec, rs: RepoState, raw: Bytes): seq<Bytes>
    requires IsSingleArchImage(c.mediaType(raw)) ==> c.image(raw).Some? && ImagePresent(rs, c.image(raw).value)
  {
    if IsSingleArchImage(c.mediaType(raw)) then
      var m := c.image(raw).value;
      (if m.config.size != 0 then [rs.blobs[m.config.digest]] else []) +
      seq(|m.layers|, i requires 0 <= i < |m.layers| => rs.blobs[m.layers[i].digest])
    else
      []
  }

  lemma {:induction false} CompleteGrows(c: Codec, a: RepoState, b: RepoState, d: Digest, n: nat)
    requires Complete(c, a, d, n) && Grows(a, b)
    ensures Complete(c, b, d, n)
    decreases n, 0
  {
    var raw := a.manifests[d];
    if IsMultiArchImage(c.mediaType(raw)) {
      AllCompleteGrows(c, a, b, c.index(raw).value, n - 1);
    }
  }

  lemma {:induction false} AllCompleteGrows(c: Codec, a: RepoState, b: RepoState, descs: seq<Descriptor>, n: nat)
    requires AllComplete(c, a, descs, n) && Grows(a, b)
    ensures AllComplete(c, b, descs, n)
    decreases n, 1
  {
    forall i | 0 <= i < |descs|
      ensures Complete(c, b, descs[i].digest, n)
    {
      CompleteGrows(c, a, b, descs[i].digest, n);
    }
  }

  /** Two repositories that both hold all of a manifest hold the same bytes for it. */
  lemma {:induction false} SameGraph(c: Codec, a: RepoState, b: RepoState, d: Digest, n: nat)
    requires CollisionFree(c.h)
    requires ContentAddressed(c.h, a.blobs) && ContentAddressed(c.h, a.manifests)
    requires ContentAddressed(c.h, b.blobs) && ContentAddressed(c.h, b.manifests)
    requires Complete(c, a, d, n) && Complete(c, b, d, n)
    ensures Graph(c, a, d, n) == Graph(c, b, d, n)
    decreases n, 1
  {
    assert c.h(d.algorithm, a.manifests[d]) == c.h(d.algorithm, b.manifests[d]);
    var raw := a.manifests[d];
    SameBlobs(c, a, b, raw);
    if IsMultiArchImage(c.mediaType(raw)) {
      SameGraphs(c, a, b, c.index(raw).value, n - 1);
    }
  }

  lemma {:induction false} SameGraphs(c: Codec, a: RepoState, b: RepoState, descs: seq<Descriptor>, n: nat)
    requires CollisionFree(c.h)
    requires ContentAddressed(c.h, a.blobs) && ContentAddressed(c.h, a.manifests)
    requires ContentAddressed(c.h, b.blobs) && ContentAddressed(c.h, b.manifests)
    requires AllComplete(c, a, descs, n) && AllComplete(c, b, descs, n)
    ensures Graphs(c, a, descs, n) == Graphs(c, b, descs, n)
    decreases n, 2
  {
    forall i | 0 <= i < |descs|
      ensures Graph(c, a, descs[i].digest, n) == Graph(c, b, descs[i].digest, n)
    {
      SameGraph(c, a, b, descs[i].digest, n);
    }
  }

  lemma SameBlobs(c: Codec, a: RepoState, b: RepoState, raw: Bytes)
    requires CollisionFree(c.h) && ContentAddressed(c.h, a.blobs) && ContentAddressed(c.h, b.blobs)
    requires IsSingleArchImage(c.mediaType(raw)) ==>
      c.image(raw).Some? && ImagePresent(a, c.image(raw).value) && ImagePresent(b, c.image(raw).value)
    ensures ImageBlobs(c, a, raw) == ImageBlobs(c, b, raw)
  {
    forall d | d in a.blobs && d in b.blobs
      ensures a.blobs[d] == b.blobs[d]
    {
      assert c.h(d.algorithm, a.blobs[d]) == c.h(d.algorithm, b.blobs[d]);
    }
  }

  /**
    Whatever content goes by the digests in it, an index nests at most `n` deep. With a collision-free hash this is a
    property of the bytes, not of a registry.
   */
  ghost predicate NestingAtMost(c: Codec, raw: Bytes, n: nat)
    decreases n
  {
    IsMultiArchImage(c.mediaType(raw)) && c.index(raw).Some? ==>
      && n > 0
      && forall i, sub :: 0 <= i < |c.index(raw).value| && Matches(c.h, c.index(raw).value[i].digest, sub) ==>
           NestingAtMost(c, sub, n - 1)
  }

  // ---------- the client ----------

  const EMPTY_JSON: Bytes := [123, 125]  // {}

  function DummyDigest(c: Codec): Digest {
    Digest("sha256", c.h("sha256", EMPTY_JSON))
  }

  /** A registry takes content of the announced digest, and of the announced size if there is one. */
  predicate Acceptable(c: Codec, desc: Descriptor, content: Option<Bytes>) {
    && content.Some?
    && (desc.size > 0 ==> |content.value| == desc.size)
    && Matches(c.h, desc.digest, content.value)
  }

  /**
    The registries as the client sees them. Request number `i` fails if `down(i)`; if also `applied(i)`, only the answer
    is lost, and the upload takes effect all the same.
   */
  class Registries {
    var world: World
    var requests: nat
    const down: nat -> bool
    const applied: nat -> bool
    ghost var history: seq<World>

    constructor (world: World, down: nat -> bool, applied: nat -> bool)
      ensures this.world == world && history == [world] && this.down == down && this.applied == applied
      ensures requests == 0
    {
      this.world := world;
      requests := 0;
      this.down, this.applied := down, applied;
      history := [world];
    }

    method GetRawManifest(c: Codec, ref: Ref) returns (r: Option<(Descriptor, Bytes)>)
      modifies `requests
      ensures requests == old(requests) + 1 && (r.Some? ==> !down(old(requests)))
      ensures r.Some? ==> WellFormed(ref) && Resolve(At(world, ref.repo), ref).Some?
      ensures r.Some? ==>
        var d := Resolve(At(world, ref.repo), ref).value;
        r.value.1 == At(world, ref.repo).manifests[d] && r.value.0 == DescriptorOf(c, d, r.value.1)
      ensures r.Some? ==> IsSingleArchImage(r.value.0.mediaType) || IsMultiArchImage(r.value.0.mediaType)
      ensures r == None ==>
        || down(old(requests)) || !WellFormed(ref) || Resolve(At(world, ref.repo), ref) == None
        || var t := c.mediaType(At(world, ref.repo).manifests[Resolve(At(world, ref.repo), ref).value]);
           !IsSingleArchImage(t) && !IsMultiArchImage(t)
    {
      var failed := down(requests);
      requests := requests + 1;
      var digest := Resolve(At(world, ref.repo), ref);
      if failed || !WellFormed(ref) || digest == None {
        return None;
      }
      var raw := At(world, ref.repo).manifests[digest.value];
      var desc := DescriptorOf(c, digest.value, raw);
      if !IsSingleArchImage(desc.mediaType) && !IsMultiArchImage(desc.mediaType) {
        return None;
      }
      r := Some((desc, raw));
    }

    /** Uploads a blob unless the repository has it; the registry refuses content of another digest. */
    method PutBlob(c: Codec, repo: string, desc: Descriptor, content: Option<Bytes>) returns (ok: bool)
      modifies this
      ensures requests == old(requests) + 1 && (ok ==> !down(old(requests)))
      ensures down(old(requests)) && !applied(old(requests)) ==> world == old(world)
      ensures ok && desc.digest !in At(old(world), repo).blobs ==>
        && content.Some? && c.h(desc.digest.algorithm, content.value) == desc.digest.encoded
        && (desc.size > 0 ==> |content.value| == desc.size)
      ensures ok ==> desc.digest in At(world, repo).blobs
      ensures !ok ==> down(old(requests)) || !Acceptable(c, desc, content)
      ensures
        || (world == old(world) && history == old(history))
        || (&& content.Some? && Matches(c.h, desc.digest, content.value)
            && desc.digest !in At(old(world), repo).blobs
            && world == WithBlob(old(world), repo, desc.digest, content.value) && history == old(history) + [world])
    {
      var failed, done := down(requests), !down(requests) || applied(requests);
      requests := requests + 1;
      if !done {
        return false;
      }
      if desc.digest in At(world, repo).blobs {
        return !failed;
      }
      if !Acceptable(c, desc, content) {
        return false;
      }
      world := WithBlob(world, repo, desc.digest, content.value);
      history := history + [world];
      ok := !failed;
    }

    /** Uploads a manifest under the tag of the reference or under its own digest, unless it is already there. */
    method PutManifest(c: Codec, ref: Ref, digest: Digest, raw: Bytes) returns (ok: bool)
      requires Matches(c.h, digest, raw)
      modifies this
      ensures requests == old(requests) + 1
      ensures down(old(requests)) && !applied(old(requests)) ==> world == old(world)
      ensures ok <==> !down(old(requests))
      ensures ok ==> digest in At(world, ref.repo).manifests
      ensures ok ==>
        match ref
        case ByTag(_, tag) => Points(At(world, ref.repo), tag, digest)
        case ByDigest(_, extraTag, named) =>
          if named == digest && extraTag.Some? then Points(At(world, ref.repo), extraTag.value, digest)
          else At(world, ref.repo).tags == At(old(world), ref.repo).tags
      ensures ok ==> Tagged(At(world, ref.repo), ref, digest)
      ensures Tagging(ref, digest) == None ==> At(world, ref.repo).tags == At(old(world), ref.repo).tags
      ensures
        || (world == old(world) && history == old(history))
        || (world == WithManifest(old(world), ref, digest, raw) && history == old(history) + [world])
    {
      var failed, done := down(requests), !down(requests) || applied(requests);
      requests := requests + 1;
      if !done {
        return false;
      }
      var tag := Tagging(ref, digest);
      var target := if tag.Some? then ByTag(ref.repo, tag.value) else ByDigest(ref.repo, None, digest);
      if Resolve(At(world, ref.repo), target) == Some(digest) {
        return !failed;
      }
      world := WithManifest(world, ref, digest, raw);
      history := history + [world];
      ok := !failed;
    }
  }

  ghost predicate Points(rs: RepoState, tag: string, d: Digest) {
    tag in rs.tags && rs.tags[tag] == d
  }

  /** If a push of `d` to `ref` sets a tag, the tag names `d`. */
  ghost predicate Tagged(rs: RepoState, ref: Ref, d: Digest) {
    Tagging(ref, d).Some? ==> Resolve(rs, ByTag(ref.repo, Tagging(ref, d).value)) == Some(d)
  }

  /** No tag but the one of `tgt` was set, moved or dropped. */
  ghost predicate OtherTagsKept(tgt: Ref, before: map<string, Digest>, now: map<string, Digest>) {
    forall t :: MayTag(tgt) != Some(t) ==> (t in before <==> t in now) && (t in before ==> now[t] == before[t])
  }

  /** What a step towards `tgt` may do: add content to its repository, set its tag, and leave the rest alone. */
  ghost predicate Additive(c: Codec, tgt: Ref, before: World, seen: seq<World>, now: World, history: seq<World>) {
    && Sound(c, now)
    && (forall other :: other != tgt.repo ==> At(now, other) == At(before, other))
    && Grows(At(before, tgt.repo), At(now, tgt.repo))
    && OtherTagsKept(tgt, At(before, tgt.repo).tags, At(now, tgt.repo).tags)
    && seen <= history
  }

  /** Such a step that keeps the repository closed, in every state on the way. */
  ghost predicate Evolves(c: Codec, tgt: Ref, before: World, seen: seq<World>, now: World, history: seq<World>) {
    && Additive(c, tgt, before, seen, now, history)
    && (Closed(c, At(before, tgt.repo)) ==> Closed(c, At(now, tgt.repo)) && ClosedSince(c, tgt.repo, seen, history))
  }

  ghost predicate ClosedSince(c: Codec, repo: string, seen: seq<World>, history: seq<World>) {
    forall i :: |seen| <= i < |history| ==> Closed(c, At(history[i], repo))
  }

  lemma Stays(c: Codec, tgt: Ref, w: World, h: seq<World>)
    requires Sound(c, w)
    ensures Evolves(c, tgt, w, h, w, h)
  {
  }

  lemma EvolvesTransitive(
    c: Codec, tgt: Ref, w1: World, h1: seq<World>, w2: World, h2: seq<World>, w3: World, h3: seq<World>)
    requires Evolves(c, tgt, w1, h1, w2, h2) && Evolves(c, tgt, w2, h2, w3, h3)
    ensures Evolves(c, tgt, w1, h1, w3, h3)
  {
    if Closed(c, At(w1, tgt.repo)) {
      forall i | |h1| <= i < |h3|
        ensures Closed(c, At(h3[i], tgt.repo))
      {
        if i < |h2| {
          assert h3[i] == h2[i];
        }
      }
    }
  }

  lemma AdditiveTransitive(
    c: Codec, tgt: Ref, w1: World, h1: seq<World>, w2: World, h2: seq<World>, w3: World, h3: seq<World>)
    requires Additive(c, tgt, w1, h1, w2, h2) && Additive(c, tgt, w2, h2, w3, h3)
    ensures Additive(c, tgt, w1, h1, w3, h3)
  {
  }

  /** A step towards a digest is a step towards any reference into the same repository. */
  lemma EvolvesElsewhere(c: Codec, sub: Ref, tgt: Ref, w1: World, h1: seq<World>, w2: World, h2: seq<World>)
    requires Evolves(c, sub, w1, h1, w2, h2) && sub.repo == tgt.repo && MayTag(sub) in {None, MayTag(tgt)}
    ensures Evolves(c, tgt, w1, h1, w2, h2)
  {
  }

  /** Content that was anywhere before is still there. */
  lemma NothingLost(c: Codec, tgt: Ref, w1: World, h1: seq<World>, w2: World, h2: seq<World>, repo: string)
    requires Evolves(c, tgt, w1, h1, w2, h2)
    ensures Grows(At(w1, repo), At(w2, repo))
  {
  }

  lemma BlobEvolves(c: Codec, tgt: Ref, w: World, history: seq<World>, d: Digest, content: Bytes)
    requires Sound(c, w) && Matches(c.h, d, content) && d !in At(w, tgt.repo).blobs
    ensures var w' := WithBlob(w, tgt.repo, d, content); Evolves(c, tgt, w, history, w', history + [w'])
  {
    var w' := WithBlob(w, tgt.repo, d, content);
    var rs, rs' := At(w, tgt.repo), At(w', tgt.repo);
    assert Additive(c, tgt, w, history, w', history + [w']);
    hide Additive, Sound;
    if Closed(c, rs) {
      forall other | other in rs'.manifests
        ensures ChildrenPresent(c, rs', rs'.manifests[other])
      {
        ChildrenStay(c, rs, rs', rs'.manifests[other]);
      }
    }
  }

  lemma ManifestAdds(c: Codec, ref: Ref, w: World, history: seq<World>, d: Digest, raw: Bytes)
    requires CollisionFree(c.h) && Sound(c, w) && Matches(c.h, d, raw)
    ensures var w' := WithManifest(w, ref, d, raw); Additive(c, ref, w, history, w', history + [w'])
  {
    var rs := At(w, ref.repo);
    if d in rs.manifests {
      assert c.h(d.algorithm, rs.manifests[d]) == c.h(d.algorithm, raw);
    }
  }

  lemma ManifestEvolves(c: Codec, ref: Ref, w: World, history: seq<World>, d: Digest, raw: Bytes)
    requires CollisionFree(c.h) && Sound(c, w) && Matches(c.h, d, raw)
    requires ChildrenPresent(c, At(w, ref.repo), raw)
    ensures var w' := WithManifest(w, ref, d, raw); Evolves(c, ref, w, history, w', history + [w'])
  {
    ManifestAdds(c, ref, w, history, d, raw);
    var rs, rs' := At(w, ref.repo), At(WithManifest(w, ref, d, raw), ref.repo);
    if Closed(c, rs) {
      forall other | other in rs'.manifests
        ensures ChildrenPresent(c, rs', rs'.manifests[other])
      {
        ChildrenStay(c, rs, rs', rs'.manifests[other]);
      }
    }
  }

  lemma ChildrenStay(c: Codec, a: RepoState, b: RepoState, raw: Bytes)
    requires Grows(a, b) && ChildrenPresent(c, a, raw)
    ensures ChildrenPresent(c, b, raw)
  {
  }

  // ---------- what can be copied without faults ----------

  /** The blob is there and has the size its descriptor promises. */
  ghost predicate Fetchable(rs: RepoState, desc: Descriptor) {
    desc.digest in rs.blobs && (desc.size > 0 ==> |rs.blobs[desc.digest]| == desc.size)
  }

  /** All of manifest `d` is there, sizes agree, and the digests in its indexes can be written into references. */
  ghost predicate Copyable(c: Codec, rs: RepoState, d: Digest, n: nat)
    decreases n, 1
  {
    d in rs.manifests && CopyableBelow(c, rs, rs.manifests[d], n)
  }

  ghost predicate ImageFetchable(rs: RepoState, m: Image) {
    (m.config.size != 0 ==> Fetchable(rs, m.config)) && LayersFetchable(rs, m.layers)
  }

  ghost predicate LayersFetchable(rs: RepoState, layers: seq<Descriptor>) {
    forall i :: 0 <= i < |layers| ==> Fetchable(rs, layers[i])
  }

  ghost predicate PushableFrom(c: Codec, rs: RepoState, raw: Bytes) {
    && (IsSingleArchImage(c.mediaType(raw)) || IsMultiArchImage(c.mediaType(raw)))
    && (IsSingleArchImage(c.mediaType(raw)) ==> c.image(raw).Some? && ImageFetchable(rs, c.image(raw).value))
  }

  ghost predicate CopyableBelow(c: Codec, rs: RepoState, raw: Bytes, n: nat)
    decreases n, 0
  {
    && PushableFrom(c, rs, raw)
    && (IsMultiArchImage(c.mediaType(raw)) ==>
          c.index(raw).Some? && n > 0 && AllCopyable(c, rs, c.index(raw).value, n - 1))
  }

  ghost predicate AllCopyable(c: Codec, rs: RepoState, descs: seq<Descriptor>, n: nat)
    decreases n, 2
  {
    forall i :: 0 <= i < |descs| ==> Copyable(c, rs, descs[i].digest, n) && '@' !in DigestString(descs[i].digest)
  }

  lemma CopyableUnfolds(c: Codec, rs: RepoState, d: Digest, n: nat)
    requires Copyable(c, rs, d, n)
    ensures d in rs.manifests && CopyableBelow(c, rs, rs.manifests[d], n)
    ensures PushableFrom(c, rs, rs.manifests[d])
  {
  }

  lemma PushableGrows(c: Codec, a: RepoState, b: RepoState, raw: Bytes)
    requires PushableFrom(c, a, raw) && Grows(a, b)
    ensures PushableFrom(c, b, raw)
  {
  }

  lemma {:induction false} CopyableGrows(c: Codec, a: RepoState, b: RepoState, d: Digest, n: nat)
    requires Copyable(c, a, d, n) && Grows(a, b)
    ensures Copyable(c, b, d, n)
    decreases n, 0
  {
    var raw := a.manifests[d];
    if IsMultiArchImage(c.mediaType(raw)) {
      AllCopyableGrows(c, a, b, c.index(raw).value, n - 1);
    }
  }

  lemma {:induction false} AllCopyableGrows(c: Codec, a: RepoState, b: RepoState, descs: seq<Descriptor>, n: nat)
    requires AllCopyable(c, a, descs, n) && Grows(a, b)
    ensures AllCopyable(c, b, descs, n)
    decreases n, 1
  {
    forall i | 0 <= i < |descs|
      ensures Copyable(c, b, descs[i].digest, n)
    {
      CopyableGrows(c, a, b, descs[i].digest, n);
    }
  }

  lemma StillCopyable(
    c: Codec, tgt: Ref, w1: World, h1: seq<World>, w2: World, h2: seq<World>, repo: string, descs: seq<Descriptor>,
    n: nat)
    requires Evolves(c, tgt, w1, h1, w2, h2)
    ensures AllCopyable(c, At(w1, repo), descs, n) ==> AllCopyable(c, At(w2, repo), descs, n)
  {
    if AllCopyable(c, At(w1, repo), descs, n) {
      AllCopyableGrows(c, At(w1, repo), At(w2, repo), descs, n);
    }
  }

  ghost predicate NoFaults(reg: Registries) {
    forall i :: !reg.down(i)
  }

  // ---------- the program ----------

  function BlobIn(w: World, repo: string, d: Digest): Option<Bytes> {
    if d in At(w, repo).blobs then Some(At(w, repo).blobs[d]) else None
  }

  method PushContent(c: Codec, reg: Registries, tgt: Ref, desc: Descriptor, content: Option<Bytes>) returns (ok: bool)
    requires Sound(c, reg.world)
    modifies reg
    ensures Evolves(c, tgt, old(reg.world), old(reg.history), reg.world, reg.history)
    ensures ok ==> desc.digest in At(reg.world, tgt.repo).blobs
    ensures AddsWithin(At(old(reg.world), tgt.repo), At(reg.world, tgt.repo), {desc.digest})
    ensures NoFaults(reg) && Acceptable(c, desc, content) ==> ok
  {
    ghost var w, h := reg.world, reg.history;
    ok := reg.PutBlob(c, tgt.repo, desc, content);
    if reg.world != w || reg.history != h {
      BlobEvolves(c, tgt, w, h, desc.digest, content.value);
    }
  }

  function Digests(descs: seq<Descriptor>): set<Digest> {
    set i | 0 <= i < |descs| :: descs[i].digest
  }

  ghost predicate AddsWithin(before: RepoState, now: RepoState, ds: set<Digest>) {
    now.blobs.Keys <= before.blobs.Keys + ds
  }

  ghost predicate OnlyAdds(before: RepoState, now: RepoState, ds: set<Digest>) {
    now.blobs.Keys == before.blobs.Keys + ds
  }

  lemma AddsMore(a: RepoState, b: RepoState, now: RepoState, layers: seq<Descriptor>, j: nat)
    requires j < |layers| && AddsWithin(a, b, Digests(layers)) && AddsWithin(b, now, {layers[j].digest})
    ensures AddsWithin(a, now, Digests(layers))
  {
  }

  lemma AddsAll(a: RepoState, b: RepoState, now: RepoState, d: Digest, layers: seq<Descriptor>)
    requires AddsWithin(a, b, {d}) && AddsWithin(b, now, Digests(layers))
    requires Grows(a, b) && Grows(b, now) && d in b.blobs
    requires forall i :: 0 <= i < |layers| ==> layers[i].digest in now.blobs
    ensures OnlyAdds(a, now, {d} + Digests(layers))
  {
  }

  /**
    Config and layers, and nothing else. A config of size 0 counts as unset: the empty object is stored instead, so
    the digest that the manifest gives for it is present afterwards exactly if it was before, or is that of the empty
    object or of a layer.
   */
  method PushImageBlobs(c: Codec, reg: Registries, src: string, tgt: Ref, manifest: Image) returns (ok: bool)
    requires Sound(c, reg.world)
    modifies reg
    ensures Evolves(c, tgt, old(reg.world), old(reg.history), reg.world, reg.history)
    ensures ok ==> ImagePresent(At(reg.world, tgt.repo), manifest)
    ensures ok && manifest.config.size == 0 ==>
      OnlyAdds(At(old(reg.world), tgt.repo), At(reg.world, tgt.repo),
        {Digest("sha256", c.h("sha256", [123, 125]))} + Digests(manifest.layers))
    ensures NoFaults(reg) && ImageFetchable(At(old(reg.world), src), manifest) ==> ok
  {
    ghost var w0, h0 := reg.world, reg.history;
    if manifest.config.size == 0 {
      var dummy := Descriptor("application/json", DummyDigest(c), |EMPTY_JSON|, map[], None, []);
      ok := PushContent(c, reg, tgt, dummy, Some(EMPTY_JSON));
    } else {
      ok := PushContent(c, reg, tgt, manifest.config, BlobIn(reg.world, src, manifest.config.digest));
    }
    if !ok {
      return;
    }
    ghost var w1, h1 := reg.world, reg.history;
    ok := PushLayers(c, reg, src, tgt, manifest.layers);
    EvolvesTransitive(c, tgt, w0, h0, w1, h1, reg.world, reg.history);
    NothingLost(c, tgt, w0, h0, w1, h1, src);
    if ok && manifest.config.size == 0 {
      AddsAll(At(w0, tgt.repo), At(w1, tgt.repo), At(reg.world, tgt.repo), DummyDigest(c), manifest.layers);
    }
  }

  method PushLayers(c: Codec, reg: Registries, src: string, tgt: Ref, layers: seq<Descriptor>) returns (ok: bool)
    requires Sound(c, reg.world)
    modifies reg
    ensures Evolves(c, tgt, old(reg.world), old(reg.history), reg.world, reg.history)
    ensures ok ==> LayersPresent(At(reg.world, tgt.repo), layers)
    ensures AddsWithin(At(old(reg.world), tgt.repo), At(reg.world, tgt.repo), Digests(layers))
    ensures NoFaults(reg) && LayersFetchable(At(old(reg.world), src), layers) ==> ok
  {
    ghost var w0, h0 := reg.world, reg.history;
    Stays(c, tgt, w0, h0);
    assert AddsWithin(At(w0, tgt.repo), At(w0, tgt.repo), Digests(layers));
    hide Evolves, AddsWithin, Digests, LayersFetchable;
    for j := 0 to |layers|
      invariant Sound(c, reg.world)
      invariant Evolves(c, tgt, w0, h0, reg.world, reg.history)
      invariant LayersPresent(At(reg.world, tgt.repo), layers[..j])
      invariant AddsWithin(At(w0, tgt.repo), At(reg.world, tgt.repo), Digests(layers))
    {
      ok := PushLayer(c, reg, src, tgt, layers, j, w0, h0);
      if !ok {
        return;
      }
    }
    assert layers[..|layers|] == layers;
    ok := true;
  }

  /** The body of the layer loop. */
  method PushLayer(
    c: Codec, reg: Registries, src: string, tgt: Ref, layers: seq<Descriptor>, j: nat, ghost w0: World,
    ghost h0: seq<World>)
    returns (ok: bool)
    requires j < |layers| && Sound(c, w0) && Sound(c, reg.world)
    requires Evolves(c, tgt, w0, h0, reg.world, reg.history)
    requires LayersPresent(At(reg.world, tgt.repo), layers[..j])
    requires AddsWithin(At(w0, tgt.repo), At(reg.world, tgt.repo), Digests(layers))
    modifies reg
    ensures Sound(c, reg.world) && Evolves(c, tgt, w0, h0, reg.world, reg.history)
    ensures ok ==> LayersPresent(At(reg.world, tgt.repo), layers[..j + 1])
    ensures AddsWithin(At(w0, tgt.repo), At(reg.world, tgt.repo), Digests(layers))
    ensures NoFaults(reg) && LayersFetchable(At(w0, src), layers) ==> ok
  {
    ghost var w, h := reg.world, reg.history;
    LayerStill(c, tgt, w0, h0, w, h, src, layers, j);
    hide Evolves, Sound, LayersPresent, AddsWithin, Digests, Grows, LayersFetchable, Acceptable;
    ok := PushContent(c, reg, tgt, layers[j], BlobIn(reg.world, src, layers[j].digest));
    EvolvesSound(c, tgt, w, h, reg.world, reg.history);
    AddsMore(At(w0, tgt.repo), At(w, tgt.repo), At(reg.world, tgt.repo), layers, j);
    EvolvesTransitive(c, tgt, w0, h0, w, h, reg.world, reg.history);
    if ok {
      OneMoreLayer(At(w, tgt.repo), At(reg.world, tgt.repo), layers, j);
    }
  }

  lemma EvolvesSound(c: Codec, tgt: Ref, w1: World, h1: seq<World>, w2: World, h2: seq<World>)
    requires Evolves(c, tgt, w1, h1, w2, h2)
    ensures Sound(c, w2) && Grows(At(w1, tgt.repo), At(w2, tgt.repo))
  {
  }

  lemma OneMoreLayer(a: RepoState, b: RepoState, layers: seq<Descriptor>, j: nat)
    requires Grows(a, b) && j < |layers| && LayersPresent(a, layers[..j]) && layers[j].digest in b.blobs
    ensures LayersPresent(b, layers[..j + 1])
  {
  }

  lemma LayerStill(
    c: Codec, tgt: Ref, w1: World, h1: seq<World>, w2: World, h2: seq<World>, repo: string, layers: seq<Descriptor>,
    j: nat)
    requires Evolves(c, tgt, w1, h1, w2, h2) && Sound(c, w1) && j < |layers|
    ensures LayersFetchable(At(w1, repo), layers) ==> Acceptable(c, layers[j], BlobIn(w2, repo, layers[j].digest))
  {
    NothingLost(c, tgt, w1, h1, w2, h2, repo);
  }

  /**
    What the manifest refers to, then the manifest itself. An index is pushed whether or not its manifests are there;
    if they are, every state stays closed.
   */
  method PushRawManifest(c: Codec, reg: Registries, src: string, tgt: Ref, desc: Descriptor, raw: Bytes)
    returns (ok: bool)
    requires CollisionFree(c.h) && Sound(c, reg.world)
    requires desc == DescriptorOf(c, desc.digest, raw) && Matches(c.h, desc.digest, raw)
    modifies reg
    ensures Additive(c, tgt, old(reg.world), old(reg.history), reg.world, reg.history)
    ensures (IsMultiArchImage(desc.mediaType) ==> ChildrenPresent(c, At(old(reg.world), tgt.repo), raw)) ==>
      Evolves(c, tgt, old(reg.world), old(reg.history), reg.world, reg.history)
    ensures ok ==> desc.digest in At(reg.world, tgt.repo).manifests
    ensures ok ==> IsSingleArchImage(desc.mediaType) || IsMultiArchImage(desc.mediaType)
    ensures ok && IsSingleArchImage(desc.mediaType) ==>
      c.image(raw).Some? && ChildrenPresent(c, At(reg.world, tgt.repo), raw)
    ensures ok ==> Tagged(At(reg.world, tgt.repo), tgt, desc.digest)
    ensures IsMultiArchImage(desc.mediaType) && Tagging(tgt, desc.digest) == None ==>
      At(reg.world, tgt.repo).tags == At(old(reg.world), tgt.repo).tags
    ensures !Pushable(tgt) ==> !ok && reg.world == old(reg.world) && reg.history == old(reg.history)
    ensures NoFaults(reg) && Pushable(tgt) && PushableFrom(c, At(old(reg.world), src), raw) ==> ok
  {
    ghost var w0, h0 := reg.world, reg.history;
    Stays(c, tgt, w0, h0);
    if (!IsSingleArchImage(desc.mediaType) && !IsMultiArchImage(desc.mediaType)) || !Pushable(tgt) {
      return false;
    }
    NeverBoth(desc.mediaType);
    if IsSingleArchImage(desc.mediaType) {
      var manifest := c.image(raw);
      if manifest == None {
        return false;
      }
      ok := PushImageBlobs(c, reg, src, tgt, manifest.value);
      if !ok {
        return;
      }
    }
    ok := PushManifest(c, reg, tgt, desc, raw, w0, h0);
  }

  /** The last push of `PushRawManifest`. */
  method PushManifest(
    c: Codec, reg: Registries, tgt: Ref, desc: Descriptor, raw: Bytes, ghost w0: World, ghost h0: seq<World>)
    returns (ok: bool)
    requires CollisionFree(c.h) && Sound(c, reg.world) && Matches(c.h, desc.digest, raw)
    requires Evolves(c, tgt, w0, h0, reg.world, reg.history)
    modifies reg
    ensures ok <==> !reg.down(old(reg.requests))
    ensures Additive(c, tgt, w0, h0, reg.world, reg.history)
    ensures ChildrenPresent(c, At(old(reg.world), tgt.repo), raw) ==>
      && Evolves(c, tgt, w0, h0, reg.world, reg.history)
      && ChildrenPresent(c, At(reg.world, tgt.repo), raw)
    ensures ok ==> desc.digest in At(reg.world, tgt.repo).manifests
    ensures ok ==> Tagged(At(reg.world, tgt.repo), tgt, desc.digest)
    ensures Tagging(tgt, desc.digest) == None ==>
      At(reg.world, tgt.repo).tags == At(old(reg.world), tgt.repo).tags
  {
    ghost var w, h := reg.world, reg.history;
    ok := reg.PutManifest(c, tgt, desc.digest, raw);
    if reg.world != w || reg.history != h {
      ManifestAdds(c, tgt, w, h, desc.digest, raw);
      AdditiveTransitive(c, tgt, w0, h0, w, h, reg.world, reg.history);
      if ChildrenPresent(c, At(w, tgt.repo), raw) {
        ManifestEvolves(c, tgt, w, h, desc.digest, raw);
        EvolvesTransitive(c, tgt, w0, h0, w, h, reg.world, reg.history);
        ChildrenStay(c, At(w, tgt.repo), At(reg.world, tgt.repo), raw);
      }
    }
  }

  /** The manifest behind a reference. */
  function Found(w: World, src: Written): Option<(Digest, Bytes)> {
    var ref := Reading(src);
    match Resolve(At(w, ref.repo), ref)
    case None => None
    case Some(d) => Some((d, At(w, ref.repo).manifests[d]))
  }

  /**
    Where the tags of a target are after a copy: its tag names the manifest. So does a tag beside the digest of the
    manifest, but beside another digest it names the last manifest of the index.
   */
  ghost predicate TagsSet(c: Codec, rs: RepoState, tgt: Ref, d: Digest, raw: Bytes) {
    match tgt
    case ByTag(_, tag) => Points(rs, tag, d)
    case ByDigest(_, None, _) => true
    case ByDigest(_, Some(tag), named) =>
      if named == d then Points(rs, tag, d)
      else
        c.mediaType(raw) in {
          "application/vnd.oci.image.index.v1+json", "application/vnd.docker.distribution.manifest.list.v2+json"} ==>
          c.index(raw).Some? &&
          (c.index(raw).value != [] ==> Points(rs, tag, c.index(raw).value[|c.index(raw).value| - 1].digest))
  }

  lemma ArrivedTags(c: Codec, rs: RepoState, tgt: Ref, d: Digest, raw: Bytes, n: nat)
    requires Arrived(c, rs, tgt, d, raw, n)
    ensures TagsSet(c, rs, tgt, d, raw)
  {
    MediaTypes(c.mediaType(raw));
    hide Complete, IsSingleArchImage, IsMultiArchImage;
  }

  /** A reference without tag and digest is read at its tag `latest`. */
  lemma UntaggedIsLatest(w: World, repo: string)
    requires repo in w
    ensures var rs := w[repo];
      Found(w, Untagged(repo)) ==
      if "latest" in rs.tags && rs.tags["latest"] in rs.manifests
      then Some((rs.tags["latest"], rs.manifests[rs.tags["latest"]]))
      else None
  {
  }

  /** What a target holds after a copy. */
  ghost predicate Arrived(c: Codec, rs: RepoState, tgt: Ref, d: Digest, raw: Bytes, n: nat) {
    Complete(c, rs, d, n) && Tagged(rs, tgt, d) && TagMoved(c, rs, tgt, d, raw)
  }

  /** By media type: config and layers of an image, or all manifests of an index, and nothing but these four types. */
  ghost predicate WholeThere(c: Codec, rs: RepoState, raw: Bytes, n: nat) {
    var mediaType := c.mediaType(raw);
    && mediaType in {
         "application/vnd.oci.image.manifest.v1+json", "application/vnd.docker.distribution.manifest.v2+json",
         "application/vnd.oci.image.index.v1+json", "application/vnd.docker.distribution.manifest.list.v2+json"}
    && (mediaType in {
          "application/vnd.oci.image.manifest.v1+json", "application/vnd.docker.distribution.manifest.v2+json"} ==>
          && c.image(raw).Some?
          && (c.image(raw).value.config.size != 0 ==> c.image(raw).value.config.digest in rs.blobs)
          && forall i :: 0 <= i < |c.image(raw).value.layers| ==> c.image(raw).value.layers[i].digest in rs.blobs)
    && (mediaType in {
          "application/vnd.oci.image.index.v1+json", "application/vnd.docker.distribution.manifest.list.v2+json"} ==>
          && c.index(raw).Some? && n > 0
          && forall i :: 0 <= i < |c.index(raw).value| ==> Complete(c, rs, c.index(raw).value[i].digest, n - 1))
  }

  lemma CompleteIsWhole(c: Codec, rs: RepoState, d: Digest, n: nat)
    requires Complete(c, rs, d, n)
    ensures d in rs.manifests && WholeThere(c, rs, rs.manifests[d], n)
  {
    MediaTypes(c.mediaType(rs.manifests[d]));
    assert CompleteBelow(c, rs, rs.manifests[d], n);
    hide IsSingleArchImage, IsMultiArchImage, Complete;
  }

  /** The media types of images and indexes. */
  lemma MediaTypes(mediaType: string)
    ensures IsSingleArchImage(mediaType) <==> mediaType in {
        "application/vnd.oci.image.manifest.v1+json", "application/vnd.docker.distribution.manifest.v2+json"}
    ensures IsMultiArchImage(mediaType) <==> mediaType in {
        "application/vnd.oci.image.index.v1+json", "application/vnd.docker.distribution.manifest.list.v2+json"}
  {
  }

  /** An image of either type can be copied if its config and layers are there with the sizes they announce. */
  lemma ImageTransferable(c: Codec, w: World, src: Written, tgt: Written, d: Digest, raw: Bytes, n: nat)
    requires WellFormed(Reading(src)) && Pushable(Pushing(tgt, d)) && c.image(raw).Some?
    requires c.mediaType(raw) in {
        "application/vnd.oci.image.manifest.v1+json", "application/vnd.docker.distribution.manifest.v2+json"}
    requires var m, blobs := c.image(raw).value, At(w, Reading(src).repo).blobs;
      && (m.config.size != 0 ==>
            m.config.digest in blobs && (m.config.size > 0 ==> |blobs[m.config.digest]| == m.config.size))
      && forall i :: 0 <= i < |m.layers| ==>
           && m.layers[i].digest in blobs
           && (m.layers[i].size > 0 ==> |blobs[m.layers[i].digest]| == m.layers[i].size)
    ensures Transferable(c, w, src, tgt, d, raw, n)
  {
    MediaTypes(c.mediaType(raw));
    NeverBoth(c.mediaType(raw));
  }

  /** An index of either type can be copied if its manifests can be, and the parser finds both repositories. */
  lemma IndexTransferable(c: Codec, w: World, src: Written, tgt: Written, d: Digest, raw: Bytes, n: nat)
    requires WellFormed(Reading(src)) && Pushable(Pushing(tgt, d)) && c.index(raw).Some? && n > 0
    requires c.mediaType(raw) in {
        "application/vnd.oci.image.index.v1+json", "application/vnd.docker.distribution.manifest.list.v2+json"}
    requires forall i :: 0 <= i < |c.index(raw).value| ==>
      && Copyable(c, At(w, Parsed(src).repo), c.index(raw).value[i].digest, n - 1)
      && '@' !in DigestString(c.index(raw).value[i].digest)
    requires c.index(raw).value != [] ==> Named(src, tgt)
    ensures Transferable(c, w, src, tgt, d, raw, n)
  {
    MediaTypes(c.mediaType(raw));
    NeverBoth(c.mediaType(raw));
  }

  /**
    Sub-manifests can be read from the repository that the parser finds in the source, and pushed to the one that it
    finds in the target. The latter fails for a target with neither tag nor digest.
   */
  predicate Named(src: Written, tgt: Written) {
    Parsed(src).repo != "" && '/' in Parsed(tgt).repo
  }

  /** What a fault-free copy needs. */
  ghost predicate Transferable(c: Codec, w: World, src: Written, tgt: Written, d: Digest, raw: Bytes, n: nat) {
    && WellFormed(Reading(src)) && Pushable(Pushing(tgt, d))
    && PushableFrom(c, At(w, Reading(src).repo), raw)
    && TransferableBelow(c, w, src, tgt, raw, n)
  }

  ghost predicate TransferableBelow(c: Codec, w: World, src: Written, tgt: Written, raw: Bytes, n: nat) {
    IsMultiArchImage(c.mediaType(raw)) ==>
      && c.index(raw).Some? && n > 0
      && AllCopyable(c, At(w, Parsed(src).repo), c.index(raw).value, n - 1)
      && (c.index(raw).value != [] ==> Named(src, tgt))
  }

  /**
    Copies the manifest behind `src`, and before it everything it refers to. In every intermediate state, and whatever
    request fails, the target repository stays closed. Success means that the target holds all that is reachable from
    the source manifest; without faults a source that holds all of it is copied, if the parser finds its repository.
    An index that is not empty cannot be copied to a target with neither tag nor digest.
   */
  method Copy(c: Codec, reg: Registries, src: Written, tgt: Written, ghost n: nat) returns (ok: bool)
    requires CollisionFree(c.h) && Sound(c, reg.world)
    requires PlainWritten(src) && PlainWritten(tgt)
    requires Found(reg.world, src).Some? ==> NestingAtMost(c, Found(reg.world, src).value.1, n)
    modifies reg
    ensures if Found(old(reg.world), src) == None then
        !ok && reg.world == old(reg.world) && reg.history == old(reg.history)
      else
        var (d, raw) := Found(old(reg.world), src).value;
        && Evolves(c, Pushing(tgt, d), old(reg.world), old(reg.history), reg.world, reg.history)
        && (ok ==>
              && WellFormed(Reading(src)) && Pushable(Pushing(tgt, d))
              && Arrived(c, At(reg.world, Pushing(tgt, d).repo), Pushing(tgt, d), d, raw, n)
              && WholeThere(c, At(reg.world, Pushing(tgt, d).repo), raw, n)
              && TagsSet(c, At(reg.world, Pushing(tgt, d).repo), Pushing(tgt, d), d, raw))
        && (IsMultiArchImage(c.mediaType(raw)) && c.index(raw) != Some([]) ==>
              && (ok ==> Named(src, tgt))
              && ('/' !in Parsed(tgt).repo ==> reg.world == old(reg.world) && reg.history == old(reg.history)))
        && (NoFaults(reg) && Transferable(c, old(reg.world), src, tgt, d, raw, n) ==> ok)
    ensures '/' !in Reading(tgt).repo ==> !ok && reg.world == old(reg.world) && reg.history == old(reg.history)
    decreases n, 1
  {
    ghost var w0, h0 := reg.world, reg.history;
    NothingCopied(c, w0, h0, src, tgt);
    CutElsewhere(tgt);
    var got := reg.GetRawManifest(c, Reading(src));
    hide Evolves, Complete, Copyable, NestingAtMost, AllCopyable, AllComplete, Sound, CollisionFree;
    hide Arrived, WholeThere, TagsSet;
    if got == None {
      return false;
    }
    var (desc, raw) := got.value;
    ok := CopyBelow(c, reg, src, tgt, desc, raw, n);
    if !ok {
      return;
    }
    ok := PushCopied(c, reg, Reading(src).repo, Pushing(tgt, desc.digest), desc, raw, n, w0, h0);
  }

  lemma WholeArrived(c: Codec, rs: RepoState, d: Digest, raw: Bytes, n: nat)
    requires CollisionFree(c.h) && ContentAddressed(c.h, rs.manifests) && Matches(c.h, d, raw)
    requires Complete(c, rs, d, n)
    ensures WholeThere(c, rs, raw, n)
  {
    CompleteIsWhole(c, rs, d, n);
    assert c.h(d.algorithm, rs.manifests[d]) == c.h(d.algorithm, raw);
  }

  lemma NothingCopied(c: Codec, w: World, h: seq<World>, src: Written, tgt: Written)
    requires Sound(c, w)
    ensures Found(w, src).Some? ==>
      var (d, raw) := Found(w, src).value; Matches(c.h, d, raw) && Evolves(c, Pushing(tgt, d), w, h, w, h)
  {
  }

  /**
    If a reference names a tag besides a digest, sub-manifests are pushed to that tag. Unless the digest is that of the
    index, the tag ends up at the last one.
   */
  ghost predicate TagMoved(c: Codec, rs: RepoState, tgt: Ref, d: Digest, raw: Bytes) {
    IsMultiArchImage(c.mediaType(raw)) && Tagging(tgt, d) == None && MayTag(tgt).Some? ==>
      c.index(raw).Some? && LastTagged(rs, tgt, c.index(raw).value)
  }

  ghost predicate LastTagged(rs: RepoState, tgt: Ref, descs: seq<Descriptor>) {
    tgt.ByDigest? && tgt.extraTag.Some? && descs != [] ==>
      tgt.extraTag.value in rs.tags && rs.tags[tgt.extraTag.value] == descs[|descs| - 1].digest
  }

  /** What has to be there before the manifest is pushed: the manifests of an index. */
  ghost predicate ReadyBelow(c: Codec, rs: RepoState, tgt: Ref, raw: Bytes, n: nat) {
    IsMultiArchImage(c.mediaType(raw)) ==>
      c.index(raw).Some? && n > 0 && AllComplete(c, rs, c.index(raw).value, n - 1) &&
      LastTagged(rs, tgt, c.index(raw).value)
  }

  /** The first half of `Copy`: the manifests of an index. */
  method CopyBelow(c: Codec, reg: Registries, src: Written, tgt: Written, desc: Descriptor, raw: Bytes, ghost n: nat)
    returns (ok: bool)
    requires CollisionFree(c.h) && Sound(c, reg.world)
    requires PlainWritten(src) && PlainWritten(tgt)
    requires desc == DescriptorOf(c, desc.digest, raw) && NestingAtMost(c, raw, n)
    modifies reg
    ensures Sound(c, reg.world)
    ensures forall d :: Evolves(c, Pushing(tgt, d), old(reg.world), old(reg.history), reg.world, reg.history)
    ensures ok ==> forall d :: ReadyBelow(c, At(reg.world, Pushing(tgt, d).repo), Pushing(tgt, d), raw, n)
    ensures ok && IsMultiArchImage(desc.mediaType) ==> c.index(raw) == Some([]) || Named(src, tgt)
    ensures '/' !in Parsed(tgt).repo ==> reg.world == old(reg.world) && reg.history == old(reg.history)
    ensures NoFaults(reg) && Parses(Parsed(src)) && Parses(Parsed(tgt)) ==>
      TransferableBelow(c, old(reg.world), src, tgt, raw, n) ==> ok
    decreases n, 0
  {
    ghost var w, h := reg.world, reg.history;
    CutElsewhere(tgt);
    ok := true;
    if IsMultiArchImage(desc.mediaType) {
      var index := c.index(raw);
      if index == None {
        ok := false;
      } else {
        ok := CopySubManifests(c, reg, src, tgt, index.value, n - 1);
      }
    }
    forall d
      ensures Evolves(c, Pushing(tgt, d), w, h, reg.world, reg.history)
      ensures ok ==> ReadyBelow(c, At(reg.world, Pushing(tgt, d).repo), Pushing(tgt, d), raw, n)
    {
    }
  }

  /** The second half: everything below is there. */
  method PushCopied(
    c: Codec, reg: Registries, src: string, tgt: Ref, desc: Descriptor, raw: Bytes, ghost n: nat, ghost w0: World,
    ghost h0: seq<World>)
    returns (ok: bool)
    requires CollisionFree(c.h) && Sound(c, reg.world)
    requires desc == DescriptorOf(c, desc.digest, raw) && Matches(c.h, desc.digest, raw)
    requires Evolves(c, tgt, w0, h0, reg.world, reg.history)
    requires ReadyBelow(c, At(reg.world, tgt.repo), tgt, raw, n)
    modifies reg
    ensures Evolves(c, tgt, w0, h0, reg.world, reg.history)
    ensures ok ==> Pushable(tgt) && Arrived(c, At(reg.world, tgt.repo), tgt, desc.digest, raw, n)
    ensures ok ==> WholeThere(c, At(reg.world, tgt.repo), raw, n)
    ensures ok ==> TagsSet(c, At(reg.world, tgt.repo), tgt, desc.digest, raw)
    ensures !Pushable(tgt) ==> reg.world == old(reg.world) && reg.history == old(reg.history)
    ensures NoFaults(reg) && Pushable(tgt) && PushableFrom(c, At(w0, src), raw) ==> ok
  {
    ghost var w1, h1 := reg.world, reg.history;
    NothingLost(c, tgt, w0, h0, w1, h1, src);
    if PushableFrom(c, At(w0, src), raw) {
      PushableGrows(c, At(w0, src), At(w1, src), raw);
    }
    if IsMultiArchImage(desc.mediaType) {
      ReadyChildren(c, At(w1, tgt.repo), tgt, raw, n);
    }
    hide Additive, ClosedSince, Closed, ReadyBelow, Complete, PushableFrom, ChildrenPresent, WholeThere, TagsSet;
    ok := PushRawManifest(c, reg, src, tgt, desc, raw);
    EvolvesTransitive(c, tgt, w0, h0, w1, h1, reg.world, reg.history);
    EvolvesSound(c, tgt, w1, h1, reg.world, reg.history);
    if ok {
      CompletePushed(c, At(w1, tgt.repo), At(reg.world, tgt.repo), tgt, desc.digest, raw, n);
      TagsAfterPush(c, At(w1, tgt.repo), At(reg.world, tgt.repo), tgt, desc.digest, raw, n);
      WholeArrived(c, At(reg.world, tgt.repo), desc.digest, raw, n);
      ArrivedTags(c, At(reg.world, tgt.repo), tgt, desc.digest, raw, n);
    }
  }

  lemma CutElsewhere(w: Written)
    requires PlainWritten(w)
    ensures Plain(Parsed(w)) && (w.Untagged? ==> '/' !in Parsed(w).repo)
  {
    ParseWritten(w);
  }

  lemma TagsAfterPush(c: Codec, before: RepoState, now: RepoState, tgt: Ref, d: Digest, raw: Bytes, n: nat)
    requires ReadyBelow(c, before, tgt, raw, n)
    requires IsMultiArchImage(c.mediaType(raw)) && Tagging(tgt, d) == None ==> now.tags == before.tags
    ensures TagMoved(c, now, tgt, d, raw)
  {
  }

  lemma ReadyChildren(c: Codec, rs: RepoState, tgt: Ref, raw: Bytes, n: nat)
    requires ReadyBelow(c, rs, tgt, raw, n) && IsMultiArchImage(c.mediaType(raw))
    ensures ChildrenPresent(c, rs, raw)
  {
    NeverBoth(c.mediaType(raw));
    var descs := c.index(raw).value;
    forall i | 0 <= i < |descs|
      ensures descs[i].digest in rs.manifests
    {
      assert Complete(c, rs, descs[i].digest, n - 1);
    }
  }

  lemma CompletePushed(c: Codec, before: RepoState, now: RepoState, tgt: Ref, d: Digest, raw: Bytes, n: nat)
    requires CollisionFree(c.h) && ContentAddressed(c.h, now.manifests) && Matches(c.h, d, raw)
    requires Grows(before, now) && ReadyBelow(c, before, tgt, raw, n) && d in now.manifests
    requires IsSingleArchImage(c.mediaType(raw)) || IsMultiArchImage(c.mediaType(raw))
    requires IsSingleArchImage(c.mediaType(raw)) ==> c.image(raw).Some? && ChildrenPresent(c, now, raw)
    ensures Complete(c, now, d, n)
  {
    NeverBoth(c.mediaType(raw));
    assert now.manifests[d] == raw by {
      assert c.h(d.algorithm, now.manifests[d]) == c.h(d.algorithm, raw);
    }
    if IsMultiArchImage(c.mediaType(raw)) {
      AllCompleteGrows(c, before, now, c.index(raw).value, n - 1);
    }
  }

  lemma NeverBoth(mediaType: string)
    ensures !(IsSingleArchImage(mediaType) && IsMultiArchImage(mediaType))
  {
    assert |MEDIA_TYPE_IMAGE_INDEX| == 39 && |MEDIA_TYPE_IMAGE_MANIFEST| == 42;
    assert |MEDIA_TYPE_DOCKER_MANIFEST_LIST| == 57 && |MEDIA_TYPE_DOCKER_MANIFEST| == 52;
  }

  /** The references of the sub-manifests, from what the parser makes of the two references. */
  method CopySubManifests(c: Codec, reg: Registries, src: Written, tgt: Written, descs: seq<Descriptor>, ghost n: nat)
    returns (ok: bool)
    requires CollisionFree(c.h) && Sound(c, reg.world)
    requires PlainWritten(src) && PlainWritten(tgt)
    requires forall i, sub :: 0 <= i < |descs| && Matches(c.h, descs[i].digest, sub) ==> NestingAtMost(c, sub, n)
    modifies reg
    ensures Evolves(c, Parsed(tgt), old(reg.world), old(reg.history), reg.world, reg.history)
    ensures ok ==> AllComplete(c, At(reg.world, Parsed(tgt).repo), descs, n)
    ensures ok ==> LastTagged(At(reg.world, Parsed(tgt).repo), Parsed(tgt), descs)
    ensures ok && descs != [] ==> Named(src, tgt)
    ensures '/' !in Parsed(tgt).repo ==> reg.world == old(reg.world) && reg.history == old(reg.history)
    ensures NoFaults(reg) && Parses(Parsed(src)) && Parses(Parsed(tgt)) && (descs != [] ==> Named(src, tgt)) ==>
      AllCopyable(c, At(old(reg.world), Parsed(src).repo), descs, n) ==> ok
    decreases n, 4
  {
    Stays(c, Parsed(tgt), reg.world, reg.history);
    var s, t := ParseImageRef(Text(src)), ParseImageRef(Text(tgt));
    ParseWritten(src);
    ParseWritten(tgt);
    if s.Err? || t.Err? {
      return false;
    }
    ok := CopyEach(c, reg, s.value.0, t.value.0, Parsed(src), Parsed(tgt), descs, n);
  }

  /** The loop over the manifests of an index. `srcRepo` and `tgtRepo` are what the parser found in the references. */
  method CopyEach(
    c: Codec, reg: Registries, srcRepo: string, tgtRepo: string, src: Ref, tgt: Ref, descs: seq<Descriptor>,
    ghost n: nat)
    returns (ok: bool)
    requires CollisionFree(c.h) && Sound(c, reg.world)
    requires Plain(src) && Plain(tgt) && srcRepo == RepoText(src) && tgtRepo == RepoText(tgt)
    requires forall i, sub :: 0 <= i < |descs| && Matches(c.h, descs[i].digest, sub) ==> NestingAtMost(c, sub, n)
    modifies reg
    ensures Evolves(c, tgt, old(reg.world), old(reg.history), reg.world, reg.history)
    ensures ok ==> AllComplete(c, At(reg.world, tgt.repo), descs, n) && LastTagged(At(reg.world, tgt.repo), tgt, descs)
    ensures ok && descs != [] ==> src.repo != "" && '/' in tgt.repo
    ensures '/' !in tgt.repo ==> reg.world == old(reg.world) && reg.history == old(reg.history)
    ensures NoFaults(reg) && (descs != [] ==> src.repo != "" && '/' in tgt.repo) ==>
      AllCopyable(c, At(old(reg.world), src.repo), descs, n) ==> ok
    decreases n, 3
  {
    ghost var w0, h0 := reg.world, reg.history;
    Stays(c, tgt, w0, h0);
    hide Evolves, LastTagged, Tagged, Complete, Copyable, AllComplete, Grows, Sound;
    assert descs[..0] == [];
    NoneYet(c, At(w0, tgt.repo), tgt, n);
    for j := 0 to |descs|
      invariant Sound(c, reg.world)
      invariant Evolves(c, tgt, w0, h0, reg.world, reg.history)
      invariant AllComplete(c, At(reg.world, tgt.repo), descs[..j], n)
      invariant LastTagged(At(reg.world, tgt.repo), tgt, descs[..j])
      invariant j > 0 ==> src.repo != "" && '/' in tgt.repo
      invariant '/' !in tgt.repo ==> reg.world == w0 && reg.history == h0
    {
      ghost var w, h := reg.world, reg.history;
      StillCopyable(c, tgt, w0, h0, w, h, src.repo, descs, n);
      ok := CopyOne(c, reg, srcRepo, tgtRepo, src, tgt, descs[j], n);
      EvolvesTransitive(c, tgt, w0, h0, w, h, reg.world, reg.history);
      EvolvesSound(c, tgt, w, h, reg.world, reg.history);
      if !ok {
        return;
      }
      OneMoreComplete(c, At(w, tgt.repo), At(reg.world, tgt.repo), descs, j, n);
      OneMoreTagged(At(reg.world, tgt.repo), tgt, descs, j);
    }
    assert descs[..|descs|] == descs;
    ok := true;
  }

  lemma NoneYet(c: Codec, rs: RepoState, tgt: Ref, n: nat)
    ensures AllComplete(c, rs, [], n) && LastTagged(rs, tgt, [])
  {
  }

  lemma OneMoreComplete(c: Codec, a: RepoState, b: RepoState, descs: seq<Descriptor>, j: nat, n: nat)
    requires j < |descs| && Grows(a, b) && AllComplete(c, a, descs[..j], n) && Complete(c, b, descs[j].digest, n)
    ensures AllComplete(c, b, descs[..j + 1], n)
  {
    AllCompleteGrows(c, a, b, descs[..j], n);
    assert forall i :: 0 <= i < j ==> descs[..j][i] == descs[i];
  }

  lemma OneMoreTagged(rs: RepoState, tgt: Ref, descs: seq<Descriptor>, j: nat)
    requires j < |descs| && Tagged(rs, Below(tgt, descs[j].digest), descs[j].digest)
    ensures LastTagged(rs, tgt, descs[..j + 1])
  {
  }

  /** A manifest that is read and stored by its digest. */
  lemma CopyableDigest(c: Codec, w: World, src: Ref, tgt: Ref, n: nat)
    requires src.ByDigest? && tgt.ByDigest? && tgt.digest == src.digest && WellFormed(src) && Pushable(tgt)
    requires Copyable(c, At(w, src.repo), src.digest, n)
    ensures Found(w, Explicit(src)) == Some((src.digest, At(w, src.repo).manifests[src.digest]))
    ensures Transferable(
      c, w, Explicit(src), Explicit(tgt), src.digest, At(w, src.repo).manifests[src.digest], n)
  {
    CopyableUnfolds(c, At(w, src.repo), src.digest, n);
  }

  /** The body of that loop. */
  method CopyOne(
    c: Codec, reg: Registries, srcRepo: string, tgtRepo: string, src: Ref, tgt: Ref, desc: Descriptor, ghost n: nat)
    returns (ok: bool)
    requires CollisionFree(c.h) && Sound(c, reg.world)
    requires Plain(src) && Plain(tgt) && srcRepo == RepoText(src) && tgtRepo == RepoText(tgt)
    requires forall sub :: Matches(c.h, desc.digest, sub) ==> NestingAtMost(c, sub, n)
    modifies reg
    ensures Evolves(c, tgt, old(reg.world), old(reg.history), reg.world, reg.history)
    ensures ok ==> Complete(c, At(reg.world, tgt.repo), desc.digest, n)
    ensures ok ==> Tagged(At(reg.world, tgt.repo), Below(tgt, desc.digest), desc.digest)
    ensures ok ==> src.repo != "" && '/' in tgt.repo
    ensures '/' !in tgt.repo ==> reg.world == old(reg.world) && reg.history == old(reg.history)
    ensures NoFaults(reg) && '@' !in DigestString(desc.digest) && src.repo != "" && '/' in tgt.repo ==>
      Copyable(c, At(old(reg.world), src.repo), desc.digest, n) ==> ok
    decreases n, 2
  {
    ghost var w, h := reg.world, reg.history;
    Stays(c, tgt, w, h);
    hide Evolves, Complete, Copyable, Transferable, NestingAtMost;
    var subSrc, subTgt := Below(src, desc.digest), Below(tgt, desc.digest);
    BelowText(src, desc.digest);
    BelowText(tgt, desc.digest);
    assert Render(subSrc) == srcRepo + "@" + DigestString(desc.digest);
    assert Render(subTgt) == tgtRepo + "@" + DigestString(desc.digest);
    if WellFormed(subSrc) && Pushable(subTgt) && Copyable(c, At(w, src.repo), desc.digest, n) {
      CopyableDigest(c, w, subSrc, subTgt, n);
    }
    ok := Copy(c, reg, Explicit(subSrc), Explicit(subTgt), n);
    if Found(w, Explicit(subSrc)).Some? {
      EvolvesElsewhere(c, subTgt, tgt, w, h, reg.world, reg.history);
    }
  }

  /**
    After a successful copy, everything reachable from the target reference is byte-identical to what is reachable
    from the source reference.
   */
  lemma CopiedGraphIdentical(c: Codec, before: World, after: World, src: Ref, tgt: Ref, n: nat)
    requires CollisionFree(c.h) && Sound(c, before) && Sound(c, after)
    requires Resolve(At(before, src.repo), src).Some?
    requires var d := Resolve(At(before, src.repo), src).value;
      && Complete(c, At(after, tgt.repo), d, n)
      && Tagged(At(after, tgt.repo), tgt, d)
    requires tgt.ByDigest? ==> tgt.digest == Resolve(At(before, src.repo), src).value
    ensures Resolve(At(after, tgt.repo), tgt) == Resolve(At(before, src.repo), src)
    ensures var d := Resolve(At(before, src.repo), src).value;
      Complete(c, At(before, src.repo), d, n) ==>
        Graph(c, At(after, tgt.repo), d, n) == Graph(c, At(before, src.repo), d, n)
  {
    var d := Resolve(At(before, src.repo), src).value;
    if Complete(c, At(before, src.repo), d, n) {
      SameGraph(c, At(after, tgt.repo), At(before, src.repo), d, n);
    }
  }
}
