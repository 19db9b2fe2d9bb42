/**
  Copying a component and everything it references between repositories, with retries
  (Copier.copy and Copier.Copy in pkg/commands/componentarchive/remote/copy.go).
 */
module ComponentCopy {
  import opened Common

  datatype Access =
    | LocalOciBlob(digest: string)
    | OciRegistry(imageReference: string)
    | RelativeOci(reference: string)
    | Other

  /** A component as its manifest holds it: the descriptor's references and accesses, and the local blobs. */
  datatype Component = Component(references: seq<Key>, resources: seq<Access>, blobs: map<string, Bytes>)

  /**
    The command's options. `targetRef` and `sourceRef` compute artifact references, and the former may reject one;
    `originals` are the artifacts that the source references lead to.
   */
  datatype Options = Options(
    recursive: bool, force: bool, copyByValue: bool, maxRetries: nat,
    targetRef: string -> Option<string>, sourceRef: string -> string, originals: map<string, Bytes>)

  // ---------- the invariant ----------

  /** No component is stored without the components it references or the local blobs it names. */
  ghost predicate Closed(target: map<Key, Component>) {
    forall key :: key in target ==> ReferencesIn(target[key], target.Keys) && BlobsIn(target[key])
  }

  ghost predicate ReferencesIn(c: Component, keys: set<Key>) {
    forall i :: 0 <= i < |c.references| ==> c.references[i] in keys
  }

  ghost predicate BlobsIn(c: Component) {
    forall i :: 0 <= i < |c.resources| && c.resources[i].LocalOciBlob? ==> c.resources[i].digest in c.blobs
  }

  /** The content is that of an artifact which belongs at this reference. */
  ghost predicate CopyOf(o: Options, target: string, content: Bytes) {
    exists r :: r in o.originals && o.targetRef(r) == Some(target) && o.originals[r] == content
  }

  /** The access leads to where artifact `r` was copied. */
  ghost predicate LeadsToCopy(o: Options, artifacts: map<string, Bytes>, r: string, to: Access) {
    var t := o.targetRef(r);
    && t.Some? && to == OciRegistry(t.value) && r in o.originals
    && t.value in artifacts && CopyOf(o, t.value, artifacts[t.value])
  }

  /** The access of a copied resource, and the artifact it relies on. */
  ghost predicate Rewritten(o: Options, artifacts: map<string, Bytes>, from: Access, to: Access) {
    if !o.copyByValue then to == from
    else match from
      case OciRegistry(r) => LeadsToCopy(o, artifacts, r, to)
      case RelativeOci(r) => LeadsToCopy(o, artifacts, o.sourceRef(r), to)
      case _ => to == from
  }

  /** Artifacts that go to one reference are the same. */
  ghost predicate SameContent(o: Options) {
    forall r1, r2 ::
      r1 in o.originals && r2 in o.originals && o.targetRef(r1).Some? && o.targetRef(r1) == o.targetRef(r2) ==>
        o.originals[r1] == o.originals[r2]
  }

  /** The artifact that an access names. */
  function ArtifactOf(o: Options, access: Access): Option<string> {
    match access
    case OciRegistry(r) => Some(r)
    case RelativeOci(r) => Some(o.sourceRef(r))
    case _ => None
  }

  /** Where the artifact was copied to are the bytes that it has in the source. */
  ghost predicate BytesKept(o: Options, artifacts: map<string, Bytes>, r: string) {
    && r in o.originals && o.targetRef(r).Some? && o.targetRef(r).value in artifacts
    && artifacts[o.targetRef(r).value] == o.originals[r]
  }

  /** If artifacts that share a target are the same, a rewritten access leads to the original bytes ever after. */
  lemma RewrittenKeepsBytes(o: Options, artifacts: map<string, Bytes>, from: Access, to: Access)
    requires SameContent(o) && o.copyByValue && Rewritten(o, artifacts, from, to) && ArtifactOf(o, from).Some?
    ensures var r := ArtifactOf(o, from).value;
      BytesKept(o, artifacts, r) && to == OciRegistry(o.targetRef(r).value)
  {
  }

  /** The artifacts after those of a component were copied by value, one after the other. */
  function Carried(o: Options, artifacts: map<string, Bytes>, resources: seq<Access>): map<string, Bytes> {
    if resources == [] then artifacts
    else
      var before, r := Carried(o, artifacts, resources[..|resources| - 1]), ArtifactOf(o, resources[|resources| - 1]);
      if r.None? || r.value !in o.originals || o.targetRef(r.value).None? then before
      else before[o.targetRef(r.value).value := o.originals[r.value]]
  }

  ghost predicate Copied(o: Options, resources: seq<Access>) {
    forall i :: 0 <= i < |resources| && ArtifactOf(o, resources[i]).Some? ==>
      var r := ArtifactOf(o, resources[i]).value; r in o.originals && o.targetRef(r).Some?
  }

  /** Every artifact of every component keeps its bytes. */
  ghost predicate AlwaysKept(o: Options) {
    forall artifacts, resources, i ::
      Copied(o, resources) && 0 <= i < |resources| && ArtifactOf(o, resources[i]).Some? ==>
        BytesKept(o, Carried(o, artifacts, resources), ArtifactOf(o, resources[i]).value)
  }

  /** The last artifact that goes to a reference stays there; an earlier one keeps its bytes if they are the same. */
  lemma {:induction false} CarriedKeeps(
    o: Options, artifacts: map<string, Bytes>, resources: seq<Access>, i: nat)
    requires SameContent(o) && Copied(o, resources) && i < |resources| && ArtifactOf(o, resources[i]).Some?
    ensures BytesKept(o, Carried(o, artifacts, resources), ArtifactOf(o, resources[i]).value)
  {
    if i < |resources| - 1 {
      CarriedKeeps(o, artifacts, resources[..|resources| - 1], i);
    }
  }

  /** The bytes are kept in every copy by value exactly if artifacts that share a target are the same. */
  lemma BytesKeptIff(o: Options)
    ensures AlwaysKept(o) <==> SameContent(o)
  {
    if SameContent(o) {
      forall artifacts, resources, i: nat |
        Copied(o, resources) && i < |resources| && ArtifactOf(o, resources[i]).Some?
        ensures BytesKept(o, Carried(o, artifacts, resources), ArtifactOf(o, resources[i]).value)
      {
        CarriedKeeps(o, artifacts, resources, i);
      }
    } else {
      var r1, r2 :|
        r1 in o.originals && r2 in o.originals && o.targetRef(r1).Some? && o.targetRef(r1) == o.targetRef(r2) &&
        o.originals[r1] != o.originals[r2];
      var resources := [OciRegistry(r1), OciRegistry(r2)];
      assert resources[..1] == [OciRegistry(r1)];
      assert !BytesKept(o, Carried(o, map[], resources), r1);
      assert Copied(o, resources) && ArtifactOf(o, resources[0]) == Some(r1);
    }
  }

  // ---------- target references ----------

  /** A parsed artifact reference; `repository` has the path and `version` the tag or, if there is one, the digest. */
  datatype ArtifactRef = ArtifactRef(host: string, repository: string, version: string)

  function Underscored(s: string): string {
    seq(|s|, i requires 0 <= i < |s| => if s[i] == '.' || s[i] == ':' then '_' else s[i])
  }

  /** `targetOCIArtifactRef` for a target of this host and path; `path` ends with the separator unless it is empty. */
  function TargetOCIArtifactRef(host: string, path: string, ref: ArtifactRef, keepOrigHost: bool): ArtifactRef {
    ArtifactRef(
      host, path + if keepOrigHost then Underscored(ref.host + ['/'] + ref.repository) else ref.repository, ref.version)
  }

  /** The target has the host, starts with the path, and ends with the repository or, if the host is kept, the names. */
  lemma TargetIsBelow(host: string, path: string, ref: ArtifactRef, keepOrigHost: bool)
    ensures var t := TargetOCIArtifactRef(host, path, ref, keepOrigHost);
      && t.host == host && t.version == ref.version && path <= t.repository
      && (!keepOrigHost ==> t.repository == path + ref.repository)
      && (keepOrigHost && '.' !in ref.host + ref.repository && ':' !in ref.host + ref.repository ==>
            t.repository == path + ref.host + "/" + ref.repository)
  {
    if keepOrigHost && '.' !in ref.host + ref.repository && ':' !in ref.host + ref.repository {
      var name := ref.host + ['/'] + ref.repository;
      forall i | 0 <= i < |name|
        ensures Underscored(name)[i] == name[i]
      {
        assert name[i] in name;
        assert name[i] in ref.host + ref.repository || name[i] == '/';
      }
      assert Underscored(name) == name;
      assert path + ref.host + "/" + ref.repository == path + name;
    }
  }

  /** Two artifacts share a target if only the hosts differ or, if the host is kept, only '.', ':' and '_' in names. */
  lemma TargetsCollideIff(host: string, path: string, a: ArtifactRef, b: ArtifactRef, keepOrigHost: bool)
    ensures TargetOCIArtifactRef(host, path, a, keepOrigHost) == TargetOCIArtifactRef(host, path, b, keepOrigHost) <==>
      && a.version == b.version
      && if !keepOrigHost then a.repository == b.repository
         else
           var p, q := a.host + ['/'] + a.repository, b.host + ['/'] + b.repository;
           |p| == |q| && forall i :: 0 <= i < |p| ==> p[i] == q[i] || (p[i] in ".:_" && q[i] in ".:_")
  {
    var x, y := TargetOCIArtifactRef(host, path, a, keepOrigHost), TargetOCIArtifactRef(host, path, b, keepOrigHost);
    assert x.repository[|path|..] == y.repository[|path|..] <==> x.repository == y.repository;
    if keepOrigHost {
      var p, q := a.host + ['/'] + a.repository, b.host + ['/'] + b.repository;
      assert x.repository[|path|..] == Underscored(p) && y.repository[|path|..] == Underscored(q);
      if Underscored(p) == Underscored(q) {
        assert |p| == |Underscored(p)| == |q|;
        forall i | 0 <= i < |p|
          ensures p[i] == q[i] || (p[i] in ".:_" && q[i] in ".:_")
        {
          assert Underscored(p)[i] == Underscored(q)[i];
        }
      }
    }
  }

  /** No artifact is lost, and what is new or changed is a copy. */
  ghost predicate Carries(o: Options, before: map<string, Bytes>, now: map<string, Bytes>) {
    && before.Keys <= now.Keys
    && forall t :: t in now ==> (t in before && now[t] == before[t]) || CopyOf(o, t, now[t])
  }

  function LocalDigests(resources: seq<Access>): set<string> {
    set i | 0 <= i < |resources| && resources[i].LocalOciBlob? :: resources[i].digest
  }

  /** `t` is what an upload makes of `s`: same references, rewritten accesses, exactly the local blobs named. */
  ghost predicate Mirrors(o: Options, artifacts: map<string, Bytes>, s: Component, t: Component) {
    && t.references == s.references
    && |t.resources| == |s.resources|
    && (forall i :: 0 <= i < |s.resources| ==> Rewritten(o, artifacts, s.resources[i], t.resources[i]))
    && t.blobs.Keys == LocalDigests(s.resources)
    && (forall d :: d in t.blobs ==> d in s.blobs && t.blobs[d] == s.blobs[d])
  }

  lemma OneMoreDigest(resources: seq<Access>, access: Access)
    ensures LocalDigests(resources + [access]) ==
      LocalDigests(resources) + if access.LocalOciBlob? then {access.digest} else {}
  {
    var all := resources + [access];
    forall d | d in LocalDigests(resources)
      ensures d in LocalDigests(all)
    {
      var i :| 0 <= i < |resources| && resources[i].LocalOciBlob? && resources[i].digest == d;
      assert all[i] == resources[i];
    }
    if access.LocalOciBlob? {
      assert all[|resources|] == access;
    }
  }

  /** A local blob access of a mirrored component was one of the source. */
  lemma MirrorHasBlobs(o: Options, artifacts: map<string, Bytes>, s: Component, t: Component)
    requires Mirrors(o, artifacts, s, t)
    ensures BlobsIn(t)
  {
    forall i | 0 <= i < |t.resources| && t.resources[i].LocalOciBlob?
      ensures t.resources[i].digest in t.blobs
    {
      assert Rewritten(o, artifacts, s.resources[i], t.resources[i]);
      assert s.resources[i].digest in LocalDigests(s.resources);
    }
  }

  /** At most this one component was stored, from the source. */
  ghost predicate OneStored(
    o: Options, source: map<Key, Component>, before: map<Key, Component>, now: map<Key, Component>,
    artifacts: map<string, Bytes>, key: Key)
  {
    || now == before
    || (&& key in source && key in now && now == before[key := now[key]]
        && Mirrors(o, artifacts, source[key], now[key]))
  }

  lemma OneStoredTransitive(
    o: Options, source: map<Key, Component>, t1: map<Key, Component>, t2: map<Key, Component>,
    t3: map<Key, Component>, a2: map<string, Bytes>, a3: map<string, Bytes>, key: Key)
    requires OneStored(o, source, t1, t2, a2, key) && OneStored(o, source, t2, t3, a3, key) && Carries(o, a2, a3)
    ensures OneStored(o, source, t1, t3, a3, key)
  {
    if t2 != t1 && t3 == t2 {
      MirrorsStay(o, a2, a3, source[key], t2[key]);
    }
  }

  /** Nothing is lost, and what is new or changed mirrors the source. */
  ghost predicate Evolves(
    o: Options, source: map<Key, Component>, before: map<Key, Component>, now: map<Key, Component>,
    artifacts: map<string, Bytes>)
  {
    && before.Keys <= now.Keys
    && forall key :: key in now ==>
         || (key in before && now[key] == before[key])
         || (key in source && Mirrors(o, artifacts, source[key], now[key]))
  }

  ghost predicate Unchanged(before: map<Key, Component>, now: map<Key, Component>) {
    forall key :: key in before ==> key in now && now[key] == before[key]
  }

  lemma MirrorsStay(o: Options, a: map<string, Bytes>, b: map<string, Bytes>, s: Component, t: Component)
    requires Mirrors(o, a, s, t) && Carries(o, a, b)
    ensures Mirrors(o, b, s, t)
  {
    RewrittenStay(o, a, b, s.resources, t.resources);
  }

  lemma RewrittenStay(
    o: Options, a: map<string, Bytes>, b: map<string, Bytes>, from: seq<Access>, to: seq<Access>)
    requires Carries(o, a, b) && |from| == |to|
    requires forall i :: 0 <= i < |from| ==> Rewritten(o, a, from[i], to[i])
    ensures forall i :: 0 <= i < |from| ==> Rewritten(o, b, from[i], to[i])
  {
  }

  lemma EvolvesTransitive(
    o: Options, source: map<Key, Component>, t1: map<Key, Component>, t2: map<Key, Component>,
    t3: map<Key, Component>, a2: map<string, Bytes>, a3: map<string, Bytes>)
    requires Evolves(o, source, t1, t2, a2) && Evolves(o, source, t2, t3, a3) && Carries(o, a2, a3)
    ensures Evolves(o, source, t1, t3, a3)
  {
    forall key | key in t3
      ensures (key in t1 && t3[key] == t1[key]) || (key in source && Mirrors(o, a3, source[key], t3[key]))
    {
      if key in t2 && t3[key] == t2[key] && !(key in t1 && t2[key] == t1[key]) {
        assert Mirrors(o, a2, source[key], t2[key]);
        MirrorsStay(o, a2, a3, source[key], t2[key]);
      }
    }
  }

  lemma NothingCarried(o: Options, artifacts: map<string, Bytes>, resources: seq<Access>)
    ensures Carries(o, artifacts, artifacts) && Carried(o, artifacts, resources[..0]) == artifacts
    ensures LocalDigests(resources[..0]) == {}
  {
  }

  lemma CarriedStep(
    o: Options, a: map<string, Bytes>, b: map<string, Bytes>, now: map<string, Bytes>, resources: seq<Access>, i: nat)
    requires i < |resources| && Carries(o, a, b) && Carries(o, b, now)
    ensures Carries(o, a, now)
    ensures b == Carried(o, a, resources[..i]) && now == Carried(o, b, [resources[i]]) ==>
      now == Carried(o, a, resources[..i + 1])
  {
    var all, one := resources[..i + 1], [resources[i]];
    assert all[..|all| - 1] == resources[..i] && all[|all| - 1] == resources[i];
    assert one[..|one| - 1] == [] && Carried(o, b, []) == b;
  }

  /** What a copy changes: the target, the artifacts in it, and every state the target went through. */
  datatype Snap = Snap(target: map<Key, Component>, artifacts: map<string, Bytes>, history: seq<map<Key, Component>>)

  /**
    What any part of a copy does to the target, whether it succeeds or not. A recursive copy keeps a closed target
    closed in every state on the way; without faults and without being asked to, it leaves existing components alone.
   */
  ghost predicate Progress(o: Options, source: map<Key, Component>, faultless: bool, s: Snap, s': Snap) {
    && Evolves(o, source, s.target, s'.target, s'.artifacts)
    && Carries(o, s.artifacts, s'.artifacts)
    && s.history <= s'.history
    && (o.recursive && Closed(s.target) ==> Closed(s'.target) && ClosedFrom(|s.history|, s'.history))
    && (faultless && !o.force && !o.copyByValue ==> Unchanged(s.target, s'.target))
  }

  ghost predicate ClosedFrom(length: nat, history: seq<map<Key, Component>>) {
    forall i :: length <= i < |history| ==> Closed(history[i])
  }

  lemma ProgressKeepsKeys(o: Options, source: map<Key, Component>, faultless: bool, s: Snap, s': Snap)
    requires Progress(o, source, faultless, s, s')
    ensures s.target.Keys <= s'.target.Keys
  {
  }

  lemma ProgressCarries(o: Options, source: map<Key, Component>, faultless: bool, s: Snap, s': Snap)
    requires Progress(o, source, faultless, s, s')
    ensures Carries(o, s.artifacts, s'.artifacts)
  {
  }

  lemma ProgressTransitive(o: Options, source: map<Key, Component>, faultless: bool, s1: Snap, s2: Snap, s3: Snap)
    requires Progress(o, source, faultless, s1, s2) && Progress(o, source, faultless, s2, s3)
    ensures Progress(o, source, faultless, s1, s3)
  {
    EvolvesTransitive(o, source, s1.target, s2.target, s3.target, s2.artifacts, s3.artifacts);
    if o.recursive && Closed(s1.target) {
      forall i | |s1.history| <= i < |s3.history|
        ensures Closed(s3.history[i])
      {
        if i < |s2.history| {
          assert s3.history[i] == s2.history[i];
        }
      }
    }
  }

  lemma StoreProgress(o: Options, source: map<Key, Component>, faultless: bool, s: Snap, key: Key, t: Component)
    requires key in source && Mirrors(o, s.artifacts, source[key], t)
    requires o.recursive ==> ReferencesIn(t, s.target.Keys)
    requires faultless && !o.force && !o.copyByValue ==> key !in s.target
    ensures var now := s.target[key := t];
      Progress(o, source, faultless, s, Snap(now, s.artifacts, s.history + [now]))
  {
    var now := s.target[key := t];
    MirrorHasBlobs(o, s.artifacts, source[key], t);
    if o.recursive && Closed(s.target) {
      forall k | k in now
        ensures ReferencesIn(now[k], now.Keys) && BlobsIn(now[k])
      {
        assert now.Keys == s.target.Keys + {key};
      }
    }
  }

  /** Storing one component keeps a closed target closed exactly if all its references are there. */
  lemma OneStoredClosedIff(
    o: Options, source: map<Key, Component>, before: map<Key, Component>, now: map<Key, Component>,
    artifacts: map<string, Bytes>, key: Key)
    requires Closed(before) && OneStored(o, source, before, now, artifacts, key)
    ensures Closed(now) <==> now == before || (key in source && ReferencesIn(source[key], now.Keys))
  {
    if now != before {
      MirrorHasBlobs(o, artifacts, source[key], now[key]);
      assert now.Keys == before.Keys + {key};
      if ReferencesIn(source[key], now.Keys) {
        forall k | k in now
          ensures ReferencesIn(now[k], now.Keys) && BlobsIn(now[k])
        {
        }
      } else {
        assert !ReferencesIn(now[key], now.Keys);
      }
    }
  }

  // ---------- the shape of the source ----------

  /** Chains of references from `key` have at most `n` nodes: below `key` the source has no cycle. */
  ghost predicate DepthAtMost(source: map<Key, Component>, key: Key, n: nat)
    decreases n
  {
    key in source ==>
      n > 0 && forall i :: 0 <= i < |source[key].references| ==> DepthAtMost(source, source[key].references[i], n - 1)
  }

  /** `key` and all that it references, directly or not, are among `keys`. */
  ghost predicate AllPresent(source: map<Key, Component>, keys: set<Key>, key: Key, n: nat)
    decreases n
  {
    && key in keys && key in source && n > 0
    && forall i :: 0 <= i < |source[key].references| ==> AllPresent(source, keys, source[key].references[i], n - 1)
  }

  ghost predicate EachPresent(source: map<Key, Component>, keys: set<Key>, references: seq<Key>, n: nat) {
    forall i :: 0 <= i < |references| ==> AllPresent(source, keys, references[i], n)
  }

  lemma OneMorePresent(
    source: map<Key, Component>, a: set<Key>, b: set<Key>, references: seq<Key>, i: nat, n: nat)
    requires i < |references| && EachPresent(source, a, references[..i], n) && a <= b
    requires AllPresent(source, b, references[i], n)
    ensures EachPresent(source, b, references[..i + 1], n)
  {
    forall j | 0 <= j < i
      ensures AllPresent(source, b, references[j], n)
    {
      assert references[..i][j] == references[j];
      PresentGrows(source, a, b, references[j], n);
    }
  }

  lemma {:induction false} PresentGrows(source: map<Key, Component>, a: set<Key>, b: set<Key>, key: Key, n: nat)
    requires AllPresent(source, a, key, n) && a <= b
    ensures AllPresent(source, b, key, n)
    decreases n
  {
    forall i | 0 <= i < |source[key].references|
      ensures AllPresent(source, b, source[key].references[i], n - 1)
    {
      PresentGrows(source, a, b, source[key].references[i], n - 1);
    }
  }

  /** The component at the end of a path of reference positions. */
  function Follow(source: map<Key, Component>, key: Key, path: seq<nat>): Option<Key>
    decreases |path|
  {
    if path == [] then Some(key)
    else if key in source && path[0] < |source[key].references| then
      Follow(source, source[key].references[path[0]], path[1..])
    else None
  }

  /** A successful recursive copy has everything in the target that any path of references leads to. */
  lemma {:induction false} WholeClosurePresent(
    source: map<Key, Component>, keys: set<Key>, key: Key, n: nat, path: seq<nat>)
    requires AllPresent(source, keys, key, n) && Follow(source, key, path).Some?
    ensures Follow(source, key, path).value in keys
    decreases |path|
  {
    if path != [] {
      WholeClosurePresent(source, keys, source[key].references[path[0]], n - 1, path[1..]);
    }
  }

  /** Nothing in the source keeps the copy from succeeding. */
  ghost predicate Copyable(o: Options, source: map<Key, Component>, key: Key, n: nat)
    decreases n
  {
    && key in source && n > 0
    && ResourcesCopyable(o, source[key])
    && (o.recursive ==> forall i :: 0 <= i < |source[key].references| ==>
          Copyable(o, source, source[key].references[i], n - 1))
  }

  ghost predicate ResourcesCopyable(o: Options, c: Component) {
    forall i :: 0 <= i < |c.resources| ==> CopyableAccess(o, c, c.resources[i])
  }

  ghost predicate CopyableAccess(o: Options, c: Component, access: Access) {
    match access
    case LocalOciBlob(d) => d in c.blobs
    case OciRegistry(r) => o.copyByValue ==> r in o.originals && o.targetRef(r).Some?
    case RelativeOci(r) => o.copyByValue ==> o.sourceRef(r) in o.originals && o.targetRef(o.sourceRef(r)).Some?
    case Other => true
  }

  // ---------- counting attempts ----------

  function Pow(b: nat, e: nat): nat {
    if e == 0 then 1 else b * Pow(b, e - 1)
  }

  /**
    How many calls of `copy` for the node at the end of path `probe` are made below the node at the end of `path`:
    none if the one is not below the other, and at most `factor` times (R+1)^d for a node d steps further down.
   */
  ghost function Share(probe: seq<nat>, path: seq<nat>, tries: nat, factor: nat): nat {
    if path <= probe then Budget(tries, factor, |probe| - |path|) else 0
  }

  /** The same for the node itself and its first `i` references. */
  ghost function ShareSoFar(probe: seq<nat>, path: seq<nat>, tries: nat, i: nat): nat {
    if probe == path then 1
    else if path < probe && probe[|path|] < i then Pow(tries, |probe| - |path|)
    else 0
  }

  /** `factor` times `Pow(tries, depth)`. */
  function Budget(tries: nat, factor: nat, depth: nat): nat {
    if factor == 0 then 0 else Budget(tries, factor - 1, depth) + Pow(tries, depth)
  }

  lemma {:induction false} BudgetIsProduct(tries: nat, factor: nat, depth: nat)
    ensures Budget(tries, factor, depth) == factor * Pow(tries, depth)
  {
    if factor > 0 {
      BudgetIsProduct(tries, factor - 1, depth);
      Distributes(factor - 1, Pow(tries, depth));
    }
  }

  lemma Distributes(r: nat, p: nat)
    ensures (r + 1) * p == r * p + p
  {
  }

  lemma {:induction false} BudgetMonotone(tries: nat, r: nat, r': nat, depth: nat)
    requires r <= r'
    ensures Budget(tries, r, depth) <= Budget(tries, r', depth)
  {
    if r < r' {
      BudgetMonotone(tries, r, r' - 1, depth);
    }
  }

  lemma ShareOfReference(probe: seq<nat>, path: seq<nat>, tries: nat, i: nat)
    ensures ShareSoFar(probe, path, tries, i) + Share(probe, path + [i], tries, tries) ==
      ShareSoFar(probe, path, tries, i + 1)
  {
    var child := path + [i];
    if path < probe && probe[|path|] == i {
      assert probe[..|path| + 1] == child;
      BudgetIsProduct(tries, tries, |probe| - |child|);
    } else {
      assert !(child <= probe);
    }
  }

  lemma ShareOfNode(probe: seq<nat>, path: seq<nat>, tries: nat, i: nat)
    ensures ShareSoFar(probe, path, tries, i) <= Share(probe, path, tries, 1)
  {
    if path <= probe {
      assert Budget(tries, 1, |probe| - |path|) == Budget(tries, 0, |probe| - |path|) + Pow(tries, |probe| - |path|);
    }
  }

  lemma ShareGrows(probe: seq<nat>, path: seq<nat>, tries: nat, i: nat, j: nat)
    requires i <= j
    ensures ShareSoFar(probe, path, tries, i) <= ShareSoFar(probe, path, tries, j)
  {
  }

  lemma ShareRepeats(probe: seq<nat>, path: seq<nat>, tries: nat, r: nat)
    ensures Share(probe, path, tries, r) + Share(probe, path, tries, 1) == Share(probe, path, tries, r + 1)
  {
    if path <= probe {
      assert Budget(tries, 1, |probe| - |path|) == Budget(tries, 0, |probe| - |path|) + Pow(tries, |probe| - |path|);
    }
  }

  lemma ShareMonotone(probe: seq<nat>, path: seq<nat>, tries: nat, r: nat, r': nat)
    requires r <= r'
    ensures Share(probe, path, tries, r) <= Share(probe, path, tries, r')
  {
    if path <= probe {
      BudgetMonotone(tries, r, r', |probe| - |path|);
    }
  }

  // ---------- counting failures ----------

  /** How many of the requests with numbers from `first` up to, but not including, `next` fail. */
  ghost function Failures(down: nat -> bool, first: nat, next: nat): nat
    requires first <= next
  {
    if first == next then 0 else Failures(down, first, next - 1) + if down(next - 1) then 1 else 0
  }

  lemma {:induction false} FailuresAdd(down: nat -> bool, a: nat, b: nat, c: nat)
    requires a <= b <= c
    ensures Failures(down, a, c) == Failures(down, a, b) + Failures(down, b, c)
    decreases c
  {
    if b < c {
      FailuresAdd(down, a, b, c - 1);
    }
  }

  lemma {:induction false} NoFailures(down: nat -> bool, a: nat, b: nat)
    requires a <= b && forall i :: !down(i)
    ensures Failures(down, a, b) == 0
    decreases b
  {
    if a < b {
      NoFailures(down, a, b - 1);
    }
  }

  // ---------- the program ----------

  class Copier {
    const o: Options
    const source: map<Key, Component>
    const down: nat -> bool
    const applied: nat -> bool
    var requests: nat
    var target: map<Key, Component>
    var artifacts: map<string, Bytes>
    ghost const probe: seq<nat>  // any path of reference positions from the root
    ghost var attempts: nat  // the number of calls of CopyOnce for the node that `probe` leads to
    ghost var history: seq<map<Key, Component>>  // every state of the target

    constructor (
      o: Options, source: map<Key, Component>, target: map<Key, Component>,
      artifacts: map<string, Bytes>, down: nat -> bool, applied: nat -> bool, ghost probe: seq<nat>)
      ensures this.o == o && this.source == source && this.down == down && this.applied == applied
      ensures this.target == target && this.artifacts == artifacts
      ensures this.probe == probe && requests == 0 && attempts == 0 && history == [target]
    {
      this.o, this.source, this.down, this.applied := o, source, down, applied;
      this.target, this.artifacts := target, artifacts;
      this.probe := probe;
      requests, attempts, history := 0, 0, [target];
    }

    ghost predicate NoFaults() {
      forall i :: !down(i)
    }

    ghost function State(): Snap
      reads this
    {
      Snap(target, artifacts, history)
    }

    /** The network: request number `i` fails if `down(i)`, and takes effect all the same if also `applied(i)`. */
    method Request() returns (ok: bool, done: bool)
      modifies `requests
      ensures ok <==> !down(old(requests))
      ensures done <==> ok || applied(old(requests))
      ensures requests == old(requests) + 1 && Failures(down, old(requests), requests) == if ok then 0 else 1
    {
      ok := !down(requests);
      done := ok || applied(requests);
      requests := requests + 1;
    }

    /** One attempt (`copy`). */
    method CopyOnce(key: Key, ghost path: seq<nat>, ghost n: nat) returns (ok: bool)
      requires o.recursive ==> DepthAtMost(source, key, n)
      modifies this
      ensures Progress(o, source, NoFaults(), old(State()), State())
      ensures ok ==> key in target && (o.recursive ==> AllPresent(source, target.Keys, key, n))
      ensures ok && (o.force || o.copyByValue) ==> key in source && Mirrors(o, artifacts, source[key], target[key])
      ensures !o.recursive ==> OneStored(o, source, old(target), target, artifacts, key)
      ensures !o.recursive && !ok && (forall i :: !applied(i)) ==> target == old(target)
      ensures attempts <= old(attempts) + Share(probe, path, o.maxRetries + 1, 1)
      ensures attempts >= old(attempts) + if path == probe then 1 else 0
      ensures old(requests) <= requests
      ensures Copyable(o, source, key, n) && !ok ==>
        Failures(down, old(requests), requests) > 0
      decreases n, 0
    {
      hide Failures;
      attempts := attempts + if path == probe then 1 else 0;
      ShareOfNode(probe, path, o.maxRetries + 1, 0);
      var resolved, _ := Request();
      if !resolved || key !in source {
        return false;
      }
      ghost var r1 := requests;
      var cd := source[key];
      if o.recursive {
        ok := CopyReferences(cd.references, path, n - 1, old(attempts));
        ShareOfNode(probe, path, o.maxRetries + 1, |cd.references|);
        FailuresAdd(down, old(requests), r1, requests);
        if !ok {
          return;
        }
      }
      ghost var s, r2 := State(), requests;
      ok := Store(key);
      FailuresAdd(down, old(requests), r2, requests);
      ProgressTransitive(o, source, NoFaults(), old(State()), s, State());
      if ok && o.recursive {
        forall i | 0 <= i < |cd.references|
          ensures AllPresent(source, target.Keys, cd.references[i], n - 1)
        {
          PresentGrows(source, s.target.Keys, target.Keys, cd.references[i], n - 1);
        }
      }
    }

    /** The second half of an attempt: the existence check, the resources, and the push of the manifest. */
    method Store(key: Key) returns (ok: bool)
      requires key in source
      requires o.recursive ==> ReferencesIn(source[key], target.Keys)
      modifies `requests, `target, `artifacts, `history
      ensures Progress(o, source, NoFaults(), old(State()), State())
      ensures ok ==> key in target
      ensures ok && (o.force || o.copyByValue) ==> key in source && Mirrors(o, artifacts, source[key], target[key])
      ensures OneStored(o, source, old(target), target, artifacts, key)
      ensures !ok && (forall i :: !applied(i)) ==> target == old(target)
      ensures target != old(target) ==> history == old(history) + [target]
      ensures ok ==> requests > old(requests) && !down(requests - 1)
      ensures old(requests) <= requests
      ensures ResourcesCopyable(o, source[key]) && !ok ==>
        Failures(down, old(requests), requests) > 0
    {
      if !o.force && !o.copyByValue {
        var resolved, _ := Request();
        if resolved && key in target {
          return true;
        }
      }
      ghost var r1 := requests;
      var built := Build(source[key]);
      FailuresAdd(down, old(requests), r1, requests);
      if built == None {
        return false;
      }
      ghost var r2 := requests;
      var done;
      ok, done := Request();
      FailuresAdd(down, old(requests), r2, requests);
      if !done {
        return;
      }
      ghost var s := State();
      target := target[key := built.value];
      history := history + [target];
      StoreProgress(o, source, NoFaults(), s, key, built.value);
      ProgressTransitive(o, source, NoFaults(), old(State()), s, State());
    }

    /** The loop over the references. */
    method CopyReferences(references: seq<Key>, ghost path: seq<nat>, ghost n: nat, ghost before: nat)
      returns (ok: bool)
      requires forall i :: 0 <= i < |references| ==> DepthAtMost(source, references[i], n)
      requires o.recursive && attempts <= before + ShareSoFar(probe, path, o.maxRetries + 1, 0)
      modifies this
      ensures Progress(o, source, NoFaults(), old(State()), State())
      ensures ok ==> EachPresent(source, target.Keys, references, n)
      ensures attempts <= before + ShareSoFar(probe, path, o.maxRetries + 1, |references|)
      ensures attempts >= old(attempts)
      ensures old(requests) <= requests
      ensures (forall i :: 0 <= i < |references| ==> Copyable(o, source, references[i], n)) && !ok ==>
        Failures(down, old(requests), requests) > 0
      decreases n, 3
    {
      assert Progress(o, source, NoFaults(), old(State()), State());
      assert EachPresent(source, target.Keys, references[..0], n);
      hide Progress, ShareSoFar, Share, DepthAtMost, AllPresent, EachPresent, Copyable, OneStored, Mirrors, Closed;
      for i := 0 to |references|
        invariant Progress(o, source, NoFaults(), old(State()), State())
        invariant old(requests) <= requests && old(attempts) <= attempts
        invariant EachPresent(source, target.Keys, references[..i], n)
        invariant attempts <= before + ShareSoFar(probe, path, o.maxRetries + 1, i)
      {
        ghost var r := requests;
        ok := CopyReference(references, i, path, n, before, old(State()));
        FailuresAdd(down, old(requests), r, requests);
        if !ok {
          ShareGrows(probe, path, o.maxRetries + 1, i + 1, |references|);
          return;
        }
      }
      assert references[..|references|] == references;
      ok := true;
    }

    /** The body of that loop. */
    method CopyReference(
      references: seq<Key>, i: nat, ghost path: seq<nat>, ghost n: nat, ghost before: nat, ghost start: Snap)
      returns (ok: bool)
      requires i < |references| && DepthAtMost(source, references[i], n) && o.recursive
      requires Progress(o, source, NoFaults(), start, State())
      requires EachPresent(source, target.Keys, references[..i], n)
      requires attempts <= before + ShareSoFar(probe, path, o.maxRetries + 1, i)
      modifies this
      ensures Progress(o, source, NoFaults(), start, State())
      ensures ok ==> EachPresent(source, target.Keys, references[..i + 1], n)
      ensures attempts <= before + ShareSoFar(probe, path, o.maxRetries + 1, i + 1)
      ensures attempts >= old(attempts)
      ensures old(requests) <= requests
      ensures Copyable(o, source, references[i], n) && !ok ==>
        Failures(down, old(requests), requests) > 0
      decreases n, 2
    {
      hide Progress, ShareSoFar, Share, DepthAtMost, AllPresent, EachPresent, Copyable, OneStored, Mirrors, Closed;
      ghost var s := State();
      ok := Copy(references[i], path + [i], n);
      ShareOfReference(probe, path, o.maxRetries + 1, i);
      ProgressTransitive(o, source, NoFaults(), start, s, State());
      ProgressKeepsKeys(o, source, NoFaults(), s, State());
      if ok {
        OneMorePresent(source, s.target.Keys, target.Keys, references, i, n);
      }
    }

    /**
      The retry loop (`Copy`). Success means the whole transitive closure is in the target, and a failed copy leaves
      the target closed.
     */
    method Copy(key: Key, ghost path: seq<nat>, ghost n: nat) returns (ok: bool)
      requires o.recursive ==> DepthAtMost(source, key, n)
      modifies this
      ensures Progress(o, source, NoFaults(), old(State()), State())
      ensures ok ==> key in target && (o.recursive ==> AllPresent(source, target.Keys, key, n))
      ensures ok && (o.force || o.copyByValue) ==> key in source && Mirrors(o, artifacts, source[key], target[key])
      ensures !o.recursive ==> OneStored(o, source, old(target), target, artifacts, key)
      ensures !o.recursive && !ok && (forall i :: !applied(i)) ==> target == old(target)
      ensures !o.recursive && Closed(old(target)) ==>
        (Closed(target) <==> target == old(target) || (key in source && ReferencesIn(source[key], target.Keys)))
      ensures attempts <= old(attempts) + Share(probe, path, o.maxRetries + 1, o.maxRetries + 1)
      ensures attempts >= old(attempts) + if path == probe then 1 else 0
      ensures old(requests) <= requests
      ensures Copyable(o, source, key, n) && !ok ==> Failures(down, old(requests), requests) > o.maxRetries
      ensures NoFaults() && Copyable(o, source, key, n) ==> ok
      decreases n, 1
    {
      var retries := 0;
      assert Progress(o, source, NoFaults(), old(State()), State());
      assert OneStored(o, source, target, target, artifacts, key);
      hide Progress, Share, OneStored, Mirrors, AllPresent, Copyable, DepthAtMost, Closed, ReferencesIn;
      while true
        invariant 0 <= retries <= o.maxRetries
        invariant !o.recursive ==> OneStored(o, source, old(target), target, artifacts, key)
        invariant !o.recursive && (forall i :: !applied(i)) ==> target == old(target)
        invariant attempts >= old(attempts)
        invariant Progress(o, source, NoFaults(), old(State()), State())
        invariant attempts <= old(attempts) + Share(probe, path, o.maxRetries + 1, retries)
        invariant old(requests) <= requests
        invariant Copyable(o, source, key, n) ==> Failures(down, old(requests), requests) >= retries
        decreases o.maxRetries - retries
      {
        ghost var s, r := State(), requests;
        ok := CopyOnce(key, path, n);
        FailuresAdd(down, old(requests), r, requests);
        ShareRepeats(probe, path, o.maxRetries + 1, retries);
        ProgressTransitive(o, source, NoFaults(), old(State()), s, State());
        ProgressCarries(o, source, NoFaults(), s, State());
        if !o.recursive {
          OneStoredTransitive(o, source, old(target), s.target, target, s.artifacts, artifacts, key);
        }
        if ok || retries == o.maxRetries {
          ShareMonotone(probe, path, o.maxRetries + 1, retries + 1, o.maxRetries + 1);
          if NoFaults() {
            NoFailures(down, old(requests), requests);
          }
          if !o.recursive && Closed(old(target)) {
            OneStoredClosedIff(o, source, old(target), target, artifacts, key);
          }
          return;
        }
        retries := retries + 1;
      }
    }

    /** The loop over the resources: layers for local blobs, copies of artifacts if they are copied by value. */
    method Build(cd: Component) returns (r: Option<Component>)
      modifies `requests, `artifacts
      ensures Carries(o, old(artifacts), artifacts)
      ensures r.Some? ==> Mirrors(o, artifacts, cd, r.value)
      ensures r.Some? ==>
        artifacts == if o.copyByValue then Carried(o, old(artifacts), cd.resources) else old(artifacts)
      ensures old(requests) <= requests
      ensures ResourcesCopyable(o, cd) && r == None ==>
        Failures(down, old(requests), requests) > 0
    {
      var resources: seq<Access>, layers: map<string, Bytes> := [], map[];
      hide Carries, Rewritten, Carried, LocalDigests;
      NothingCarried(o, artifacts, cd.resources);
      for i := 0 to |cd.resources|
        invariant |resources| == i && old(requests) <= requests
        invariant Carries(o, old(artifacts), artifacts)
        invariant forall j :: 0 <= j < i ==> Rewritten(o, artifacts, cd.resources[j], resources[j])
        invariant artifacts ==
          if o.copyByValue then Carried(o, old(artifacts), cd.resources[..i]) else old(artifacts)
        invariant layers.Keys == LocalDigests(cd.resources[..i])
        invariant forall d :: d in layers ==> d in cd.blobs && layers[d] == cd.blobs[d]
      {
        ghost var before, q := artifacts, requests;
        var access := Rewrite(cd.resources[i]);
        FailuresAdd(down, old(requests), q, requests);
        RewrittenStay(o, before, artifacts, cd.resources[..i], resources);
        CarriedStep(o, old(artifacts), before, artifacts, cd.resources, i);
        if access == None {
          return None;
        }
        if access.value.LocalOciBlob? {
          var digest := access.value.digest;
          if digest !in cd.blobs {
            return None;
          }
          layers := layers[digest := cd.blobs[digest]];
        }
        resources := resources + [access.value];
        assert cd.resources[..i + 1] == cd.resources[..i] + [cd.resources[i]];
        OneMoreDigest(cd.resources[..i], cd.resources[i]);
      }
      assert cd.resources[..|cd.resources|] == cd.resources;
      r := Some(Component(cd.references, resources, layers));
    }

    /** The access of one resource; an artifact is copied first if it is copied by value. */
    method Rewrite(access: Access) returns (r: Option<Access>)
      modifies `requests, `artifacts
      ensures Carries(o, old(artifacts), artifacts)
      ensures r.Some? ==> Rewritten(o, artifacts, access, r.value)
      ensures r.Some? ==> artifacts == if o.copyByValue then Carried(o, old(artifacts), [access]) else old(artifacts)
      ensures r.Some? && (access.LocalOciBlob? || r.value.LocalOciBlob?) ==> r.value == access
      ensures old(requests) <= requests
      ensures forall cd :: CopyableAccess(o, cd, access) && r == None ==> Failures(down, old(requests), requests) > 0
    {
      if !o.copyByValue || access.LocalOciBlob? || access.Other? {
        return Some(access);
      }
      var reference := if access.OciRegistry? then access.imageReference else o.sourceRef(access.reference);
      var target := CopyArtifact(reference);
      r := if target == None then None else Some(OciRegistry(target.value));
    }

    /** The artifact copy, whose own behaviour is the subject of ImageCopy. */
    method CopyArtifact(reference: string) returns (r: Option<string>)
      modifies `requests, `artifacts
      ensures Carries(o, old(artifacts), artifacts)
      ensures r.Some? ==> !down(old(requests))
      ensures r.Some? ==> reference in o.originals && artifacts == old(artifacts)[r.value := o.originals[reference]]
      ensures r.Some? ==> r == o.targetRef(reference) && LeadsToCopy(o, artifacts, reference, OciRegistry(r.value))
      ensures requests == old(requests) + 1
      ensures reference in o.originals && o.targetRef(reference).Some? && r == None ==>
        Failures(down, old(requests), requests) > 0
    {
      r := o.targetRef(reference);
      var ok, done := Request();
      if r == None || !done || reference !in o.originals {
        return None;
      }
      artifacts := artifacts[r.value := o.originals[reference]];
      r := if ok then r else None;
    }
  }

  /** Seen from the root, a node at the end of `n` nodes is attempted at most (MaxRetries + 1)^n times. */
  lemma AttemptsPerNode(probe: seq<nat>, maxRetries: nat)
    ensures Share(probe, [], maxRetries + 1, maxRetries + 1) == Pow(maxRetries + 1, |probe| + 1)
    ensures Pow(maxRetries + 1, 1) == maxRetries + 1
    ensures Pow(maxRetries + 1, |probe| + 2) == (maxRetries + 1) * Pow(maxRetries + 1, |probe| + 1)
  {
    assert Pow(maxRetries + 1, 0) == 1;
    BudgetIsProduct(maxRetries + 1, maxRetries + 1, |probe|);
  }
}
