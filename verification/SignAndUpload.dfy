/**
  The recursive digest, sign and upload run (SignAndUploadWithSigner in
  pkg/commands/componentarchive/signature/sign/sign.go), and the digest check of what it uploaded.
 */
module SignAndUpload {
  import opened Common
  import opened ComponentDescriptor
  import opened Verify
  import opened Signing
  import opened Upload

  /** A signature records the hash of the normalised descriptor; it is not part of what is hashed. */
  function Signed(k: Crypto, name: string, cd: Descriptor): Descriptor {
    var hashed := HashForComponentDescriptor(k, cd, Sha256);
    if hashed.Err? then cd else cd.(signatures := cd.signatures + [Signature(name, hashed.value)])
  }

  lemma SignatureNotHashed(k: Crypto, name: string, cd: Descriptor)
    ensures HashForComponentDescriptor(k, Signed(k, name, cd), Sha256) == HashForComponentDescriptor(k, cd, Sha256)
  {
    assert Normal(Signed(k, name, cd)) == Normal(cd);
  }

  // ---------- the list is a function of the keys in it ----------

  ghost predicate FiledDigest(k: Crypto, repo: Repo, skip: set<AccessType>, e: Descriptor, m: nat) {
    e.header.key in repo.components && Digested(k, repo, skip, repo.components[e.header.key].cd, m) == Ok(e)
  }

  lemma {:induction false} ListedAreFiled(k: Crypto, repo: Repo, skip: set<AccessType>, key: Key, n: nat, e: Descriptor)
    requires WellFiled(repo) && key in repo.components
    requires e in Listed(k, repo, skip, repo.components[key].cd, n)
    ensures exists m: nat :: FiledDigest(k, repo, skip, e, m)
    decreases n, |repo.components[key].cd.references| + 1
  {
    var cd := repo.components[key].cd;
    if e in ListedReferences(k, repo, skip, cd.references, n) {
      ListedReferencesAreFiled(k, repo, skip, cd.references, n, e);
    } else {
      assert FiledDigest(k, repo, skip, e, n);
    }
  }

  lemma {:induction false} ListedReferencesAreFiled(
    k: Crypto, repo: Repo, skip: set<AccessType>, refs: seq<Reference>, n: nat, e: Descriptor)
    requires WellFiled(repo) && e in ListedReferences(k, repo, skip, refs, n)
    ensures exists m: nat :: FiledDigest(k, repo, skip, e, m)
    decreases n, |refs|
  {
    var m := |refs| - 1;
    if e in ListedReferences(k, repo, skip, refs[..m], n) {
      ListedReferencesAreFiled(k, repo, skip, refs[..m], n, e);
    } else {
      ListedAreFiled(k, repo, skip, refs[m].id.component, n - 1, e);
    }
  }

  lemma {:induction false} AddingDepthIrrelevant(
    k: Crypto, repo: Repo, skip: set<AccessType>, cd: Descriptor, n: nat, m: nat)
    requires n <= m && Digested(k, repo, skip, cd, n) != Err(Unbounded)
    ensures Digested(k, repo, skip, cd, m) == Digested(k, repo, skip, cd, n)
    decreases n
  {
    var f, g := ReferenceAdder(k, repo, skip, n), ReferenceAdder(k, repo, skip, m);
    if TryMap(SkipMarker(skip), cd.resources).Ok? {
      forall i | 0 <= i < |cd.references| && f(cd.references[i]) != Err(Unbounded)
        ensures g(cd.references[i]) == f(cd.references[i])
      {
        if cd.references[i].id.component in repo.components {
          AddingDepthIrrelevant(k, repo, skip, repo.components[cd.references[i].id.component].cd, n - 1, m - 1);
        }
      }
      TryMapRefined(f, g, cd.references, Unbounded);
    }
  }

  /** A component that several paths lead to is listed several times, always with the same content. */
  lemma SameKeySameDescriptor(
    k: Crypto, repo: Repo, skip: set<AccessType>, key: Key, n: nat, a: Descriptor, b: Descriptor)
    requires WellFiled(repo) && key in repo.components
    requires a in Listed(k, repo, skip, repo.components[key].cd, n)
    requires b in Listed(k, repo, skip, repo.components[key].cd, n)
    requires a.header.key == b.header.key
    ensures a == b
  {
    ListedAreFiled(k, repo, skip, key, n, a);
    ListedAreFiled(k, repo, skip, key, n, b);
    var m1: nat :| FiledDigest(k, repo, skip, a, m1);
    var m2: nat :| FiledDigest(k, repo, skip, b, m2);
    var cd := repo.components[a.header.key].cd;
    if m1 <= m2 {
      AddingDepthIrrelevant(k, repo, skip, cd, m1, m2);
    } else {
      AddingDepthIrrelevant(k, repo, skip, cd, m2, m1);
    }
  }

  // ---------- the run ----------

  /**
    `cd` is `e` with one signature more, of this name and over the hash of the normalised `e`, which is also the hash
    of `cd` itself.
   */
  ghost predicate IsSigned(k: Crypto, name: string, e: Descriptor, cd: Descriptor) {
    var hash := DigestSpec(Sha256, JsonNormalisationV1, k.hash(k.encode(Normal(e))));
    && cd.header == e.header && cd.references == e.references && cd.resources == e.resources
    && cd.signatures == e.signatures + [Signature(name, hash)]
    && HashForComponentDescriptor(k, cd, Sha256) == Ok(hash)
  }

  /** The local blobs that the resources name, all of them and no others, with the bytes of the source. */
  ghost predicate HasLocalBlobs(ress: seq<Resource>, blobs: map<string, Bytes>, layers: map<string, Bytes>) {
    && (forall i :: 0 <= i < |ress| && ress[i].access.Some? && ress[i].access.value.LocalOciBlob? ==>
          ress[i].access.value.digest in layers)
    && (forall d :: d in layers ==>
          && d in blobs && layers[d] == blobs[d]
          && exists i :: 0 <= i < |ress| && ress[i].access == Some(LocalOciBlob(d)))
  }

  /** `e` is stored signed under its key, with the local blobs its resources name taken from the source. */
  ghost predicate Transferred(k: Crypto, name: string, source: Repo, target: Repo, e: Descriptor) {
    var key := e.header.key;
    && key in source.components && key in target.components
    && HashForComponentDescriptor(k, e, Sha256).Ok?
    && target.components[key] ==
         Stored(Signed(k, name, e), LocalLayers(e.resources, source.components[key].layers))
    && TryMap(LocalBlob(source.components[key].layers), e.resources).Ok?
    && IsSigned(k, name, e, target.components[key].cd)
    && HasLocalBlobs(e.resources, source.components[key].layers, target.components[key].layers)
  }

  lemma SignedIsSigned(k: Crypto, name: string, e: Descriptor)
    requires HashForComponentDescriptor(k, e, Sha256).Ok?
    ensures IsSigned(k, name, e, Signed(k, name, e))
  {
    SignatureNotHashed(k, name, e);
  }

  lemma LocalLayersFit(ress: seq<Resource>, blobs: map<string, Bytes>)
    requires TryMap(LocalBlob(blobs), ress).Ok?
    ensures HasLocalBlobs(ress, blobs, LocalLayers(ress, blobs))
  {
    TryMapOk(LocalBlob(blobs), ress, TryMap(LocalBlob(blobs), ress).value);
    forall i | 0 <= i < |ress| && ress[i].access.Some? && ress[i].access.value.LocalOciBlob?
      ensures ress[i].access.value.digest in LocalLayers(ress, blobs)
    {
      assert LocalBlob(blobs)(ress[i]).Ok?;
    }
  }

  /** What keeps an upload from succeeding. */
  ghost predicate CannotUpload(source: Repo, e: Descriptor, faults: UploadFaults) {
    || faults.push
    || !Normaliseable(e)
    || e.header.key !in source.components
    || exists i :: 0 <= i < |e.resources| &&
         (e.resources[i].access == None ||
          (e.resources[i].access.value.LocalOciBlob? &&
           e.resources[i].access.value.digest !in source.components[e.header.key].layers))
  }

  /** An upload that cannot succeed ended the loop. */
  ghost predicate Stopped(source: Repo, cds: seq<Descriptor>, faults: nat -> UploadFaults, uploads: nat) {
    exists j :: 0 <= j < |cds| && j <= uploads <= j + 1 && CannotUpload(source, cds[j], faults(j))
  }

  lemma StoppedAt(source: Repo, cds: seq<Descriptor>, faults: nat -> UploadFaults, j: nat, uploads: nat)
    requires j < |cds| && j <= uploads <= j + 1 && CannotUpload(source, cds[j], faults(j))
    ensures Stopped(source, cds, faults, uploads)
  {
  }

  lemma UploadFailsOnlyIf(
    source: Repo, target: Repo, e: Descriptor, cd: Descriptor, resolvers: map<Key, Key>, force: bool,
    faults: UploadFaults)
    requires OwnResolvers(source, resolvers) && e.header.key in resolvers
    requires cd.header == e.header && cd.resources == e.resources
    requires Uploaded(source, target, cd, resolvers, force, faults).result.Err?
    ensures CannotUpload(source, e, faults)
  {
    TryMapOkIff(LocalBlob(source.components[e.header.key].layers), e.resources);
  }

  /** Upload of `e` stores it: forced, not seen because the existence check fails, or not there before the run. */
  predicate Writes(before: Repo, e: Descriptor, force: bool, faults: UploadFaults) {
    force || faults.check || e.header.key !in before.components
  }

  /** One of the first `j` uploads overwrites what was there before the run. */
  ghost predicate Overwritten(cds: seq<Descriptor>, force: bool, faults: nat -> UploadFaults, j: nat, key: Key)
    requires j <= |cds|
  {
    exists m :: 0 <= m < j && cds[m].header.key == key && (force || faults(m).check)
  }

  /**
    After `j` uploads: exactly the keys that were there or were listed; what was there is untouched unless an upload
    was forced or could not see it; and what was uploaded is signed and stored.
   */
  ghost predicate Progress(
    k: Crypto, name: string, source: Repo, before: Repo, now: Repo, cds: seq<Descriptor>, force: bool,
    faults: nat -> UploadFaults, j: nat)
    requires j <= |cds|
  {
    && now.manifests == before.manifests && now.s3 == before.s3
    && (forall key :: key in now.components <==> key in before.components || Precedes(cds, j, key))
    && (forall key :: key in before.components && !Overwritten(cds, force, faults, j, key) ==>
          now.components[key] == before.components[key])
    && (forall i :: 0 <= i < j && Writes(before, cds[i], force, faults(i)) ==>
          Transferred(k, name, source, now, cds[i]))
  }

  /** Every blob resolver was resolved at the component it is registered for. */
  ghost predicate OwnResolvers(source: Repo, resolvers: map<Key, Key>) {
    forall key :: key in resolvers ==> resolvers[key] == key && key in source.components
  }

  /** A key that is listed several times is listed with the same descriptor. */
  ghost predicate OnePerKey(cds: seq<Descriptor>) {
    forall i, j :: 0 <= i < j < |cds| && cds[i].header.key == cds[j].header.key ==> cds[i] == cds[j]
  }

  lemma ListedOnePerKey(k: Crypto, source: Repo, skip: set<AccessType>, component: Key, n: nat)
    requires WellFiled(source) && component in source.components
    ensures OnePerKey(Listed(k, source, skip, source.components[component].cd, n))
  {
    var cds := Listed(k, source, skip, source.components[component].cd, n);
    forall i, j | 0 <= i < j < |cds| && cds[i].header.key == cds[j].header.key
      ensures cds[i] == cds[j]
    {
      SameKeySameDescriptor(k, source, skip, component, n, cds[i], cds[j]);
    }
  }

  /** Everything is there, nothing is digested yet, and no request fails; only existence checks may. */
  ghost predicate Smooth(
    k: Crypto, source: Repo, skip: set<AccessType>, cd: Descriptor, n: nat, down: Place -> bool,
    faults: nat -> UploadFaults)
  {
    Secure(k) && Digestible(source, skip, cd, n) && !Failing(down) && forall j :: !faults(j).push
  }

  method SignAndUploadRecursively(
    k: Crypto, source: Repo, component: Key, target: Registry, skip: set<AccessType>, force: bool,
    signatureName: string, down: Place -> bool, faults: nat -> UploadFaults, ghost n: nat)
    returns (r: Result<(), DigestError>, ghost uploads: nat)
    requires WellFiled(source)
    requires component in source.components ==>
      Digested(k, source, skip, source.components[component].cd, n) != Err(Unbounded)
    modifies target
    ensures r != Err(NoBlobResolver)
    ensures component !in source.components ==> r.Err? && target.repo == old(target.repo)
    ensures component in source.components ==>
      var cds := Listed(k, source, skip, source.components[component].cd, n);
      && uploads <= |cds|
      && Progress(k, signatureName, source, old(target.repo), target.repo, cds, force, faults, uploads)
      && (r.Ok? ==> uploads == |cds| && cds != [])
      && (Smooth(k, source, skip, source.components[component].cd, n, down, faults) ==> r.Ok?)
    ensures Closed(old(target.repo)) ==> Closed(target.repo)
  {
    uploads := 0;
    if down([]) {
      return Err(RequestFailed), uploads;
    }
    if component !in source.components {
      return Err(NotFound), uploads;
    }
    var cd := source.components[component].cd;
    RunFacts(k, source, skip, component, n, down, faults);
    hide Progress, Closed, ReferencesFirst, OnePerKey, CannotUpload, Listed, Digested, Smooth, WellFiled, Failing;
    var resolvers := new BlobResolvers();
    resolvers.at := resolvers.at[cd.header.key := component];
    var digested := RecursivelyAddDigestsToCd(k, source, cd, resolvers, skip, down, [], n);
    if digested.Err? {
      return Err(digested.error), uploads;
    }
    AllCovered(k, source, skip, cd, n, resolvers.at);
    r, uploads := SignAndUploadAll(k, source, target, digested.value, resolvers.at, force, signatureName, faults);
  }

  /** What is listed last is the component itself. */
  lemma AllCovered(
    k: Crypto, source: Repo, skip: set<AccessType>, cd: Descriptor, n: nat, resolvers: map<Key, Key>)
    requires Digested(k, source, skip, cd, n).Ok? && cd.header.key in resolvers
    requires Covered(ListedReferences(k, source, skip, cd.references, n), resolvers)
    ensures Covered(Listed(k, source, skip, cd, n), resolvers)
  {
  }

  /** The list is in post-order and consistent; if the run is smooth, it exists, and nothing keeps its uploads back. */
  lemma RunFacts(
    k: Crypto, source: Repo, skip: set<AccessType>, component: Key, n: nat, down: Place -> bool,
    faults: nat -> UploadFaults)
    requires WellFiled(source) && component in source.components
    ensures var cd := source.components[component].cd;
      var cds := Listed(k, source, skip, cd, n);
      && Digested(k, source, skip, cd, n) != Err(NoBlobResolver)
      && (Digested(k, source, skip, cd, n).Ok? ==> ReferencesFirst(cds) && OnePerKey(cds) && cds != [])
      && (Smooth(k, source, skip, cd, n, down, faults) ==>
            && Digested(k, source, skip, cd, n).Ok? && !Failing(down)
            && forall j :: 0 <= j < |cds| ==> !CannotUpload(source, cds[j], faults(j)))
  {
    var cd := source.components[component].cd;
    AddingNeedsNoResolver(k, source, skip, cd, n);
    ListedOnePerKey(k, source, skip, component, n);
    if Smooth(k, source, skip, cd, n, down, faults) {
      DigestedExists(k, source, skip, cd, n);
      ListedUploadable(k, source, skip, component, n);
    }
    if Digested(k, source, skip, cd, n).Ok? {
      PostOrder(k, source, skip, cd, n);
    }
    hide Listed, Digested, CannotUpload, Digestible;
  }

  /** The upload loop. `uploads` counts the ones that took effect, even if the last of them reports a failure. */
  method SignAndUploadAll(
    k: Crypto, source: Repo, target: Registry, cds: seq<Descriptor>, resolvers: map<Key, Key>, force: bool,
    signatureName: string, faults: nat -> UploadFaults)
    returns (r: Result<(), DigestError>, ghost uploads: nat)
    requires OwnResolvers(source, resolvers) && Covered(cds, resolvers) && ReferencesFirst(cds)
    requires OnePerKey(cds)
    modifies target
    ensures r != Err(NoBlobResolver)
    ensures uploads <= |cds| && (r.Ok? ==> uploads == |cds|)
    ensures r.Err? ==> Stopped(source, cds, faults, uploads)
    ensures Progress(k, signatureName, source, old(target.repo), target.repo, cds, force, faults, uploads)
    ensures Closed(old(target.repo)) ==> Closed(target.repo)
  {
    uploads := 0;
    ghost var before := target.repo;
    NothingUploaded(k, signatureName, source, before, cds, force, faults);
    hide Progress, Closed, ReferencesFirst, Uploaded, OwnResolvers, Covered, OnePerKey, CannotUpload, Stopped;
    for j := 0 to |cds|
      invariant Progress(k, signatureName, source, before, target.repo, cds, force, faults, j)
      invariant Closed(before) ==> Closed(target.repo)
      invariant uploads == j
    {
      r, uploads := SignAndUploadOne(k, source, target, cds, j, resolvers, force, signatureName, faults, before);
      if r.Err? {
        return;
      }
    }
    r := Ok(());
  }

  lemma NothingUploaded(
    k: Crypto, name: string, source: Repo, before: Repo, cds: seq<Descriptor>, force: bool, faults: nat -> UploadFaults)
    ensures Progress(k, name, source, before, before, cds, force, faults, 0)
  {
  }

  /** One turn of that loop: hash, sign, upload. */
  method SignAndUploadOne(
    k: Crypto, source: Repo, target: Registry, cds: seq<Descriptor>, j: nat, resolvers: map<Key, Key>, force: bool,
    signatureName: string, faults: nat -> UploadFaults, ghost before: Repo)
    returns (r: Result<(), DigestError>, ghost uploads: nat)
    requires OwnResolvers(source, resolvers) && Covered(cds, resolvers) && ReferencesFirst(cds) && j < |cds|
    requires OnePerKey(cds)
    requires Progress(k, signatureName, source, before, target.repo, cds, force, faults, j)
    modifies target
    ensures r != Err(NoBlobResolver) && j <= uploads <= j + 1 && (r.Ok? ==> uploads == j + 1)
    ensures r.Err? ==> Stopped(source, cds, faults, uploads)
    ensures Progress(k, signatureName, source, before, target.repo, cds, force, faults, uploads)
    ensures Closed(before) && Closed(old(target.repo)) ==> Closed(target.repo)
  {
    var digestedCd := cds[j];
    var hashed := HashForComponentDescriptor(k, digestedCd, Sha256);
    if hashed.Err? {
      assert CannotUpload(source, digestedCd, faults(j));
      return Err(hashed.error), j;
    }
    var signed := digestedCd.(signatures := digestedCd.signatures + [Signature(signatureName, hashed.value)]);
    ghost var now := target.repo;
    UploadHasResolver(source, now, signed, resolvers, force, faults(j));
    hide Progress, Closed, ReferencesFirst, Uploaded;
    ghost var done := Uploaded(source, now, signed, resolvers, force, faults(j)).done;
    uploads := if done then j + 1 else j;
    r := UploadCDPreservingLocalOciBlobs(source, signed, target, resolvers, force, faults(j));
    if r.Err? {
      UploadFailsOnlyIf(source, now, digestedCd, signed, resolvers, force, faults(j));
      StoppedAt(source, cds, faults, j, uploads);
    }
    if done {
      ProgressStep(k, signatureName, source, before, now, target.repo, cds, force, faults, j, resolvers);
      if Closed(now) {
        ClosedStep(k, signatureName, source, before, now, target.repo, cds, force, faults, j, resolvers);
      }
    }
  }

  lemma UploadHasResolver(
    source: Repo, target: Repo, cd: Descriptor, resolvers: map<Key, Key>, force: bool, faults: UploadFaults)
    requires OwnResolvers(source, resolvers) && cd.header.key in resolvers
    ensures var u := Uploaded(source, target, cd, resolvers, force, faults);
      u.result != Err(NoBlobResolver) && (u.result.Ok? ==> u.done) && (!u.done ==> u.repo == target)
  {
    TryMapAvoids(LocalBlob(source.components[resolvers[cd.header.key]].layers), cd.resources, NoBlobResolver);
  }

  lemma PrecedesStep(cds: seq<Descriptor>, j: nat, key: Key)
    requires j < |cds|
    ensures Precedes(cds, j + 1, key) <==> Precedes(cds, j, key) || key == cds[j].header.key
  {
  }

  lemma {:induction false} AddingNeedsNoResolver(k: Crypto, repo: Repo, skip: set<AccessType>, cd: Descriptor, n: nat)
    ensures Digested(k, repo, skip, cd, n) != Err(NoBlobResolver)
    decreases n
  {
    var f := ReferenceAdder(k, repo, skip, n);
    forall i | 0 <= i < |cd.references|
      ensures f(cd.references[i]) != Err(NoBlobResolver)
    {
      if n > 0 && cd.references[i].id.component in repo.components {
        AddingNeedsNoResolver(k, repo, skip, repo.components[cd.references[i].id.component].cd, n - 1);
      }
    }
    TryMapAvoids(SkipMarker(skip), cd.resources, NoBlobResolver);
    TryMapAvoids(f, cd.references, NoBlobResolver);
    if TryMap(SkipMarker(skip), cd.resources).Ok? {
      TryMapAvoids(ResourceAdder(k, repo, cd.header.key), TryMap(SkipMarker(skip), cd.resources).value, NoBlobResolver);
    }
  }

  lemma ProgressStep(
    k: Crypto, name: string, source: Repo, before: Repo, now: Repo, next: Repo, cds: seq<Descriptor>, force: bool,
    faults: nat -> UploadFaults, j: nat, resolvers: map<Key, Key>)
    requires j < |cds| && Progress(k, name, source, before, now, cds, force, faults, j)
    requires OwnResolvers(source, resolvers)
    requires HashForComponentDescriptor(k, cds[j], Sha256).Ok?
    requires var u := Uploaded(source, now, Signed(k, name, cds[j]), resolvers, force, faults(j));
      u.done && u.repo == next
    requires forall i :: 0 <= i < j && cds[i].header.key == cds[j].header.key ==> cds[i] == cds[j]
    ensures Progress(k, name, source, before, next, cds, force, faults, j + 1)
  {
    forall key
      ensures Precedes(cds, j + 1, key) <==> Precedes(cds, j, key) || key == cds[j].header.key
    {
      PrecedesStep(cds, j, key);
    }
    forall i | 0 <= i < j + 1 && Writes(before, cds[i], force, faults(i))
      ensures Transferred(k, name, source, next, cds[i])
    {
      TransferStep(k, name, source, before, now, next, cds, force, faults, j, resolvers, i);
    }
    UploadTouches(source, now, Signed(k, name, cds[j]), resolvers, force, faults(j));
    hide Transferred, Signed, HashForComponentDescriptor, Uploaded, Precedes, OwnResolvers;
    forall key | key in before.components && !Overwritten(cds, force, faults, j + 1, key)
      ensures next.components[key] == before.components[key]
    {
      assert key == cds[j].header.key ==> !force && !faults(j).check;
    }
  }

  /** An upload touches its own key only, and does not touch that if it sees the component and is not forced. */
  lemma UploadTouches(
    source: Repo, target: Repo, cd: Descriptor, resolvers: map<Key, Key>, force: bool, faults: UploadFaults)
    requires OwnResolvers(source, resolvers)
    ensures var next, key := Uploaded(source, target, cd, resolvers, force, faults).repo, cd.header.key;
      && next.manifests == target.manifests && next.s3 == target.s3
      && (Uploaded(source, target, cd, resolvers, force, faults).done ==>
            next.components.Keys == target.components.Keys + {key})
      && (forall other :: other != key && other in target.components ==>
            other in next.components && next.components[other] == target.components[other])
      && (key in target.components && !force && !faults.check ==> next == target)
      && (next != target ==> key in next.components && next.components[key].cd == cd)
  {
  }

  lemma TransferStep(
    k: Crypto, name: string, source: Repo, before: Repo, now: Repo, next: Repo, cds: seq<Descriptor>, force: bool,
    faults: nat -> UploadFaults, j: nat, resolvers: map<Key, Key>, i: nat)
    requires i <= j < |cds| && Progress(k, name, source, before, now, cds, force, faults, j)
    requires OwnResolvers(source, resolvers)
    requires HashForComponentDescriptor(k, cds[j], Sha256).Ok?
    requires var u := Uploaded(source, now, Signed(k, name, cds[j]), resolvers, force, faults(j));
      u.done && u.repo == next
    requires forall i :: 0 <= i < j && cds[i].header.key == cds[j].header.key ==> cds[i] == cds[j]
    requires Writes(before, cds[i], force, faults(i))
    ensures Transferred(k, name, source, next, cds[i])
  {
    var e := cds[j];
    UploadTouches(source, now, Signed(k, name, e), resolvers, force, faults(j));
    UploadTransfers(k, name, source, now, e, resolvers, force, faults(j));
    hide Overwritten, Uploaded, Transferred, Signed, HashForComponentDescriptor, OwnResolvers;
    if cds[i].header.key != e.header.key {
      TransferredStays(k, name, source, now, next, cds[i]);
    } else if !force && !faults(j).check && e.header.key in now.components {
      if i == j {
        assert Precedes(cds, j, e.header.key);
        var m :| 0 <= m < j && cds[m].header.key == e.header.key;
        assert Transferred(k, name, source, now, cds[m]);
      } else {
        assert Transferred(k, name, source, now, cds[i]);
      }
    }
  }

  /** An upload that is not skipped stores the signed descriptor. */
  lemma UploadTransfers(
    k: Crypto, name: string, source: Repo, target: Repo, e: Descriptor, resolvers: map<Key, Key>, force: bool,
    faults: UploadFaults)
    requires OwnResolvers(source, resolvers) && HashForComponentDescriptor(k, e, Sha256).Ok?
    requires Uploaded(source, target, Signed(k, name, e), resolvers, force, faults).done
    ensures force || faults.check || e.header.key !in target.components ==>
      Transferred(k, name, source, Uploaded(source, target, Signed(k, name, e), resolvers, force, faults).repo, e)
  {
    SignedIsSigned(k, name, e);
    if e.header.key in resolvers {
      var blobs := source.components[resolvers[e.header.key]].layers;
      if TryMap(LocalBlob(blobs), e.resources).Ok? {
        LocalLayersFit(e.resources, blobs);
      }
    }
    hide TryMap, HashForComponentDescriptor, IsSigned, HasLocalBlobs;
  }

  lemma TransferredStays(k: Crypto, name: string, source: Repo, now: Repo, next: Repo, e: Descriptor)
    requires Transferred(k, name, source, now, e)
    requires e.header.key in next.components && next.components[e.header.key] == now.components[e.header.key]
    ensures Transferred(k, name, source, next, e)
  {
  }

  lemma ClosedStep(
    k: Crypto, name: string, source: Repo, before: Repo, now: Repo, next: Repo, cds: seq<Descriptor>, force: bool,
    faults: nat -> UploadFaults, j: nat, resolvers: map<Key, Key>)
    requires j < |cds| && Progress(k, name, source, before, now, cds, force, faults, j)
    requires OwnResolvers(source, resolvers) && ReferencesFirst(cds)
    requires Uploaded(source, now, Signed(k, name, cds[j]), resolvers, force, faults(j)).repo == next
    requires Closed(now)
    ensures Closed(next)
  {
    UploadTouches(source, now, Signed(k, name, cds[j]), resolvers, force, faults(j));
    hide Uploaded, Transferred, HashForComponentDescriptor, OwnResolvers, Overwritten;
    forall i | 0 <= i < |cds[j].references|
      ensures cds[j].references[i].id.component in now.components
    {
      assert Precedes(cds, j, cds[j].references[i].id.component);
    }
  }

  // ---------- without faults the run succeeds ----------

  lemma DigestedUploadable(k: Crypto, repo: Repo, skip: set<AccessType>, cd: Descriptor, n: nat)
    requires Secure(k) && Digestible(repo, skip, cd, n) && cd.header.key in repo.components
    ensures Digested(k, repo, skip, cd, n).Ok?
    ensures forall faults :: CannotUpload(repo, Digested(k, repo, skip, cd, n).value, faults) ==> faults.push
  {
    DigestedExists(k, repo, skip, cd, n);
    var e := Digested(k, repo, skip, cd, n).value;
    ResourceShapes(k, repo, skip, cd, n, e);
    forall i | 0 <= i < |e.resources|
      ensures e.resources[i].access.Some?
      ensures e.resources[i].access.value.LocalOciBlob? ==>
        e.resources[i].access.value.digest in repo.components[e.header.key].layers
    {
      assert AddedTo(k, repo, cd.header.key, skip, cd.resources[i], e.resources[i]);
      assert Available(repo, cd.header.key, skip, cd.resources[i].access.value);
    }
  }

  lemma {:induction false} ListedUploadable(k: Crypto, repo: Repo, skip: set<AccessType>, key: Key, n: nat)
    requires Secure(k) && WellFiled(repo) && key in repo.components
    requires Digestible(repo, skip, repo.components[key].cd, n)
    ensures forall x, faults ::
      x in Listed(k, repo, skip, repo.components[key].cd, n) && CannotUpload(repo, x, faults) ==> faults.push
    decreases n, |repo.components[key].cd.references| + 1
  {
    var cd := repo.components[key].cd;
    DigestedUploadable(k, repo, skip, cd, n);
    ListedReferencesUploadable(k, repo, skip, cd.references, n);
  }

  lemma {:induction false} ListedReferencesUploadable(
    k: Crypto, repo: Repo, skip: set<AccessType>, refs: seq<Reference>, n: nat)
    requires Secure(k) && WellFiled(repo)
    requires forall i :: 0 <= i < |refs| ==> DigestibleReference(repo, skip, refs[i], n)
    ensures forall x, faults ::
      x in ListedReferences(k, repo, skip, refs, n) && CannotUpload(repo, x, faults) ==> faults.push
    decreases n, |refs|
  {
    if refs != [] {
      ListedReferencesUploadable(k, repo, skip, refs[..|refs| - 1], n);
      assert DigestibleReference(repo, skip, refs[|refs| - 1], n);
      ListedUploadable(k, repo, skip, refs[|refs| - 1].id.component, n - 1);
    }
  }

  // ---------- what was signed passes the check ----------

  lemma SameDigestThere(k: Crypto, name: string, source: Repo, target: Repo, e: Descriptor, i: nat)
    requires Transferred(k, name, source, target, e) && i < |e.resources|
    requires target.manifests == source.manifests && target.s3 == source.s3
    ensures DigestForResource(k, target, e.header.key, e.resources[i], Sha256) ==
      DigestForResource(k, source, e.header.key, e.resources[i], Sha256)
  {
    var blobs, res := source.components[e.header.key].layers, e.resources[i];
    TryMapOk(LocalBlob(blobs), e.resources, TryMap(LocalBlob(blobs), e.resources).value);
    assert LocalBlob(blobs)(res).Ok?;
    if res.access.Some? && res.access.value.LocalOciBlob? {
      assert UsesBlob(e.resources, res.access.value.digest);
    }
  }

  lemma {:induction false} ListedContains(
    k: Crypto, repo: Repo, skip: set<AccessType>, refs: seq<Reference>, n: nat, i: nat, x: Descriptor)
    requires i < |refs| && n > 0 && refs[i].id.component in repo.components
    requires x in Listed(k, repo, skip, repo.components[refs[i].id.component].cd, n - 1)
    ensures x in ListedReferences(k, repo, skip, refs, n)
  {
    if i < |refs| - 1 {
      ListedContains(k, repo, skip, refs[..|refs| - 1], n, i, x);
    }
  }

  lemma RootListed(k: Crypto, repo: Repo, skip: set<AccessType>, cd: Descriptor, n: nat)
    requires Digested(k, repo, skip, cd, n).Ok?
    ensures Digested(k, repo, skip, cd, n).value in Listed(k, repo, skip, cd, n)
  {
  }

  lemma ReferencesListed(k: Crypto, repo: Repo, skip: set<AccessType>, cd: Descriptor, n: nat, x: Descriptor)
    requires Digested(k, repo, skip, cd, n).Ok? && x in ListedReferences(k, repo, skip, cd.references, n)
    ensures x in Listed(k, repo, skip, cd, n)
  {
  }

  lemma ReferenceDigesterOf(k: Crypto, repo: Repo, n: nat, ref: Reference)
    requires n > 0 && ref.id.component in repo.components && ref.digest.Some?
    requires ChildDigest(k, repo, repo.components[ref.id.component].cd, Sha256, n - 1) == Ok(ref.digest.value)
    ensures ReferenceDigester(k, repo, n)(ref) == Ok(ref)
  {
  }

  /** The checking recursion on the uploaded descriptor yields the hash the adding recursion computed. */
  lemma {:induction false} Agreement(
    k: Crypto, name: string, source: Repo, target: Repo, skip: set<AccessType>, component: Key, n: nat, e: Descriptor)
    requires WellFiled(source) && component in source.components
    requires Digested(k, source, skip, source.components[component].cd, n) == Ok(e)
    requires forall x :: x in Listed(k, source, skip, source.components[component].cd, n) ==>
      Transferred(k, name, source, target, x)
    requires target.manifests == source.manifests && target.s3 == source.s3
    ensures ChildDigest(k, target, Signed(k, name, e), Sha256, n) == HashForComponentDescriptor(k, e, Sha256)
    decreases n
  {
    var cd := source.components[component].cd;
    assert e in Listed(k, source, skip, cd, n);
    var f, g := ReferenceDigester(k, target, n), ResourceDigester(k, target, component);
    ReferenceShapes(k, source, skip, cd, n, e);
    forall i | 0 <= i < |e.references|
      ensures f(e.references[i]) == Ok(e.references[i])
    {
      AgreementAtReference(k, name, source, target, skip, component, n, e, i);
    }
    TryMapOk(f, e.references, e.references);
    ResourceShapes(k, source, skip, cd, n, e);
    forall i | 0 <= i < |e.resources|
      ensures g(e.resources[i]) == Ok(e.resources[i])
    {
      assert AddedTo(k, source, component, skip, cd.resources[i], e.resources[i]);
      SameDigestThere(k, name, source, target, e, i);
    }
    TryMapOk(g, e.resources, e.resources);
    SignatureNotHashed(k, name, e);
  }

  lemma {:induction false} AgreementAtReference(
    k: Crypto, name: string, source: Repo, target: Repo, skip: set<AccessType>, component: Key, n: nat, e: Descriptor,
    i: nat)
    requires WellFiled(source) && component in source.components
    requires Digested(k, source, skip, source.components[component].cd, n) == Ok(e)
    requires i < |e.references| && i < |source.components[component].cd.references|
    requires AddedToReference(k, source, skip, n, source.components[component].cd.references[i], e.references[i])
    requires forall x :: x in Listed(k, source, skip, source.components[component].cd, n) ==>
      Transferred(k, name, source, target, x)
    requires target.manifests == source.manifests && target.s3 == source.s3
    ensures ReferenceDigester(k, target, n)(e.references[i]) == Ok(e.references[i])
    decreases n, 0
  {
    hide ReferenceDigester, ChildDigest, Digested, Listed, ListedReferences, HashForComponentDescriptor;
    var cd := source.components[component].cd;
    var key := cd.references[i].id.component;
    var child := Digested(k, source, skip, source.components[key].cd, n - 1).value;
    forall x | x in Listed(k, source, skip, source.components[key].cd, n - 1)
      ensures Transferred(k, name, source, target, x)
    {
      ListedContains(k, source, skip, cd.references, n, i, x);
      ReferencesListed(k, source, skip, cd, n, x);
    }
    RootListed(k, source, skip, source.components[key].cd, n - 1);
    ReferenceShapes(k, source, skip, source.components[key].cd, n - 1, child);
    assert Transferred(k, name, source, target, child);
    Agreement(k, name, source, target, skip, key, n - 1, child);
    ReferenceDigesterOf(k, target, n, e.references[i]);
  }

  /** No resource of the root is kept out of the signature, by its own digest or by its access type. */
  predicate NothingExcluded(cd: Descriptor, skip: set<AccessType>) {
    forall i :: 0 <= i < |cd.resources| ==>
      !cd.resources[i].Excluded() && (cd.resources[i].access.Some? ==> cd.resources[i].access.value.Type() !in skip)
  }

  lemma RootReferencesPass(
    k: Crypto, name: string, source: Repo, after: Repo, skip: set<AccessType>, component: Key, n: nat, e: Descriptor)
    requires Secure(k) && WellFiled(source) && component in source.components
    requires Digested(k, source, skip, source.components[component].cd, n) == Ok(e)
    requires forall x :: x in Listed(k, source, skip, source.components[component].cd, n) ==>
      Transferred(k, name, source, after, x)
    requires after.manifests == source.manifests && after.s3 == source.s3
    ensures TryMap(ReferenceCheck(k, after, n), e.references).Ok?
  {
    var f, g := ReferenceCheck(k, after, n), ReferenceDigester(k, after, n);
    ReferenceShapes(k, source, skip, source.components[component].cd, n, e);
    forall i | 0 <= i < |e.references|
      ensures f(e.references[i]) == Ok(())
    {
      assert AddedToReference(k, source, skip, n, source.components[component].cd.references[i], e.references[i]);
      AgreementAtReference(k, name, source, after, skip, component, n, e, i);
      assert g(e.references[i]) == Ok(e.references[i]);
    }
    TryMapOk(f, e.references, seq(|e.references|, _ => ()));
  }

  /** The check accepts a resource that was given its digest, and rejects one that was excluded. */
  lemma RootResourcePasses(
    k: Crypto, name: string, source: Repo, after: Repo, skip: set<AccessType>, e: Descriptor, res: Resource, i: nat)
    requires Secure(k) && i < |e.resources|
    requires AddedTo(k, source, e.header.key, skip, res, e.resources[i])
    requires Transferred(k, name, source, after, e)
    requires after.manifests == source.manifests && after.s3 == source.s3
    ensures ResourceCheck(k, after, e.header.key)(e.resources[i]).Ok? <==> !e.resources[i].Excluded()
  {
    SameDigestThere(k, name, source, after, e, i);
  }

  lemma RootResourcesPass(
    k: Crypto, name: string, source: Repo, after: Repo, skip: set<AccessType>, cd: Descriptor, n: nat, e: Descriptor)
    requires Secure(k)
    requires Digested(k, source, skip, cd, n) == Ok(e)
    requires Transferred(k, name, source, after, e)
    requires after.manifests == source.manifests && after.s3 == source.s3
    ensures TryMap(ResourceCheck(k, after, cd.header.key), e.resources).Ok? <==> NothingExcluded(cd, skip)
  {
    ResourceShapes(k, source, skip, cd, n, e);
    var g := ResourceCheck(k, after, cd.header.key);
    forall i | 0 <= i < |e.resources|
      ensures g(e.resources[i]).Ok? <==> !e.resources[i].Excluded()
      ensures AddedTo(k, source, cd.header.key, skip, cd.resources[i], e.resources[i])
    {
      RootResourcePasses(k, name, source, after, skip, e, cd.resources[i], i);
    }
    hide Digested, Transferred, Secure, ResourceCheck, TryMap, DigestForResource;
    TryMapOkIff(g, e.resources);
  }

  /** After a whole run whose uploads were not skipped, everything on the list is in the target, the root last. */
  lemma AllTransferred(
    k: Crypto, name: string, source: Repo, before: Repo, after: Repo, skip: set<AccessType>, cd: Descriptor, n: nat,
    force: bool, faults: nat -> UploadFaults)
    requires Digested(k, source, skip, cd, n).Ok?
    requires var cds := Listed(k, source, skip, cd, n);
      && Progress(k, name, source, before, after, cds, force, faults, |cds|)
      && forall i :: 0 <= i < |cds| ==> Writes(before, cds[i], force, faults(i))
    ensures forall x :: x in Listed(k, source, skip, cd, n) ==> Transferred(k, name, source, after, x)
    ensures Digested(k, source, skip, cd, n).value in Listed(k, source, skip, cd, n)
    ensures after.manifests == before.manifests && after.s3 == before.s3
  {
    hide Transferred;
    var cds := Listed(k, source, skip, cd, n);
    assert cds[|cds| - 1] == Digested(k, source, skip, cd, n).value;
  }

  /** The check of an uploaded descriptor is that of the digested one: it never looks at the signatures. */
  lemma StoredCheck(k: Crypto, name: string, source: Repo, after: Repo, e: Descriptor, n: nat)
    requires Transferred(k, name, source, after, e)
    ensures CheckDigests(k, after, after.components[e.header.key].cd, n).Ok? <==>
      && TryMap(ReferenceCheck(k, after, n), e.references).Ok?
      && TryMap(ResourceCheck(k, after, e.header.key), e.resources).Ok?
  {
    hide TryMap, ReferenceCheck, ResourceCheck;
  }

  /**
    Completeness of verification. After a successful recursive run whose uploads were not skipped, the digest check
    of the uploaded root succeeds in the target, provided that no resource of the root is excluded from the signature,
    and only then: for the notation of an excluded root resource no hasher is known, so the check rejects it.
   */
  lemma SignedUploadChecks(
    k: Crypto, name: string, source: Repo, before: Repo, after: Repo, skip: set<AccessType>, component: Key, n: nat,
    force: bool, faults: nat -> UploadFaults)
    requires Secure(k) && WellFiled(source) && component in source.components
    requires Digested(k, source, skip, source.components[component].cd, n).Ok?
    requires before.manifests == source.manifests && before.s3 == source.s3
    requires var cds := Listed(k, source, skip, source.components[component].cd, n);
      && Progress(k, name, source, before, after, cds, force, faults, |cds|)
      && forall i :: 0 <= i < |cds| ==> Writes(before, cds[i], force, faults(i))
    ensures component in after.components
    ensures CheckDigests(k, after, after.components[component].cd, n).Ok? <==>
      NothingExcluded(source.components[component].cd, skip)
  {
    var cd := source.components[component].cd;
    var e := Digested(k, source, skip, cd, n).value;
    AllTransferred(k, name, source, before, after, skip, cd, n, force, faults);
    ReferenceShapes(k, source, skip, cd, n, e);
    StoredCheck(k, name, source, after, e, n);
    hide Secure, NothingExcluded, ReferenceCheck, ResourceCheck, TryMap, Digested, Listed, CheckDigests, Progress;
    RootReferencesPass(k, name, source, after, skip, component, n, e);
    RootResourcesPass(k, name, source, after, skip, cd, n, e);
  }
}
