/**
  The digest check of a component descriptor against a repository
  (pkg/commands/componentarchive/signature/verify/verify.go), and what a successful check guarantees.

  The recursion follows component references, and nothing in the code keeps it from running in circles.
  The specification functions therefore take the depth `n` the recursion may reach and yield `Unbounded`
  beyond it; a call of the program that returns is a call with some sufficient `n`, and
  `DepthIrrelevant` shows that its result does not depend on which one.
 */
module Verify {
  import opened Common
  import opened ComponentDescriptor

  // ---------- specification ----------

  /** The digest of a referenced component: its stored digests are overwritten by recomputed ones, then hashed. */
  function ChildDigest(k: Crypto, repo: Repo, cd: Descriptor, alg: HashAlgorithm, n: nat)
    : Result<DigestSpec, DigestError>
    decreases n, 1
  {
    var refs :- TryMap(ReferenceDigester(k, repo, n), cd.references);
    var ress :- TryMap(ResourceDigester(k, repo, cd.header.key), cd.resources);
    HashForComponentDescriptor(k, cd.(references := refs, resources := ress), alg)
  }

  function ReferenceDigester(k: Crypto, repo: Repo, n: nat): Reference -> Result<Reference, DigestError>
    decreases n, 0
  {
    (ref: Reference) =>
      if ref.id.component !in repo.components then Err(NotFound)
      else if n == 0 then Err(Unbounded)
      else
        var d :- ChildDigest(k, repo, repo.components[ref.id.component].cd, Sha256, n - 1);
        Ok(ref.(digest := Some(d)))
  }

  function ResourceDigester(k: Crypto, repo: Repo, owner: Key): Resource -> Result<Resource, DigestError> {
    (res: Resource) =>
      var d :- DigestForResource(k, repo, owner, res, Sha256);
      Ok(res.(digest := d))
  }

  /** The check of one reference of the root: the recomputed digest has to be the stored one. */
  function ReferenceCheck(k: Crypto, repo: Repo, n: nat): Reference -> Result<(), DigestError> {
    (ref: Reference) =>
      if ref.id.component !in repo.components then Err(NotFound)
      else if !Present(ref.digest) then Err(MissingDigest)
      else if !KnownHasher(ref.digest.value.algorithm) then Err(UnknownHasher)
      else if n == 0 then Err(Unbounded)
      else
        var d :- ChildDigest(k, repo, repo.components[ref.id.component].cd, ref.digest.value.algorithm, n - 1);
        if ref.digest == Some(d) then Ok(()) else Err(Mismatch)
  }

  function ResourceCheck(k: Crypto, repo: Repo, owner: Key): Resource -> Result<(), DigestError> {
    (res: Resource) =>
      if res.WithoutAccess() then
        if res.digest.Some? then Err(UnexpectedDigest) else Ok(())
      else if !Present(res.digest) then Err(MissingDigest)
      else if !KnownHasher(res.digest.value.algorithm) then Err(UnknownHasher)
      else
        var d :- DigestForResource(k, repo, owner, res, res.digest.value.algorithm);
        if res.digest == d then Ok(()) else Err(Mismatch)
  }

  /**
    Neither access nor digest, or exactly the SHA-256 digest of the content with the normalisation of its access. Of an
    S3 object that is the digest of no bytes at all.
   */
  predicate Attested(k: Crypto, repo: Repo, owner: Key, res: Resource) {
    match res.access
    case None => res.digest == None
    case Some(NoneAccess) => res.digest == None
    case Some(OciRegistry(r)) =>
      && r in repo.manifests
      && res.digest == Some(DigestSpec(Sha256, OciArtifactDigestV1, k.hash(repo.manifests[r])))
    case Some(LocalOciBlob(d)) =>
      && owner in repo.components && d in repo.components[owner].layers
      && res.digest == Some(DigestSpec(Sha256, GenericBlobDigestV1, k.hash(repo.components[owner].layers[d])))
    case Some(S3(bucket, key)) =>
      && (bucket, key) in repo.s3
      && res.digest == Some(DigestSpec(Sha256, GenericBlobDigestV1, k.hash([])))
    case Some(OtherAccess(_)) => false
  }

  /** An image that is there passes exactly with the digest of its manifest, as an artifact digest. */
  lemma ImageChecked(k: Crypto, repo: Repo, owner: Key, res: Resource, r: string)
    requires Secure(k) && res.access == Some(OciRegistry(r)) && r in repo.manifests
    ensures ResourceCheck(k, repo, owner)(res).Ok? <==>
      res.digest == Some(DigestSpec(Sha256, OciArtifactDigestV1, k.hash(repo.manifests[r])))
  {
    assert k.hash(repo.manifests[r]) != "";
  }

  /** A local blob that is there passes exactly with the digest of its bytes, as a blob digest. */
  lemma LocalBlobChecked(k: Crypto, repo: Repo, owner: Key, res: Resource, d: string)
    requires Secure(k) && res.access == Some(LocalOciBlob(d))
    requires owner in repo.components && d in repo.components[owner].layers
    ensures ResourceCheck(k, repo, owner)(res).Ok? <==>
      res.digest == Some(DigestSpec(Sha256, GenericBlobDigestV1, k.hash(repo.components[owner].layers[d])))
  {
    assert k.hash(repo.components[owner].layers[d]) != "";
  }

  /** A reference passes exactly with the recomputed digest of what it leads to; otherwise the errors say why. */
  lemma ReferenceChecked(k: Crypto, repo: Repo, n: nat, ref: Reference, d: DigestSpec)
    requires Secure(k) && n > 0 && ref.id.component in repo.components
    requires ChildDigest(k, repo, repo.components[ref.id.component].cd, Sha256, n - 1) == Ok(d)
    ensures ReferenceCheck(k, repo, n)(ref).Ok? <==> ref.digest == Some(d)
    ensures ref.digest == None ==> ReferenceCheck(k, repo, n)(ref) == Err(MissingDigest)
    ensures ref.digest.Some? && ref.digest.value.algorithm == NoDigest ==> ReferenceCheck(k, repo, n)(ref).Err?
    ensures Present(ref.digest) && ref.digest.value.algorithm == Sha256 && ref.digest != Some(d) ==>
      ReferenceCheck(k, repo, n)(ref) == Err(Mismatch)
  {
  }

  /** Without references the check is that of the resources, each by itself. */
  lemma LeafChecked(k: Crypto, repo: Repo, cd: Descriptor, n: nat)
    requires Secure(k) && cd.references == []
    ensures CheckDigests(k, repo, cd, n).Ok? <==>
      forall i :: 0 <= i < |cd.resources| ==> Attested(k, repo, cd.header.key, cd.resources[i])
  {
    var g := ResourceCheck(k, repo, cd.header.key);
    forall i | 0 <= i < |cd.resources|
      ensures g(cd.resources[i]).Ok? <==> Attested(k, repo, cd.header.key, cd.resources[i])
    {
      CheckedIsAttested(k, repo, cd.header.key, cd.resources[i]);
    }
    TryMapOkIff(g, cd.resources);
  }

  lemma CheckedIsAttested(k: Crypto, repo: Repo, owner: Key, res: Resource)
    requires Secure(k)
    ensures ResourceCheck(k, repo, owner)(res).Ok? <==> Attested(k, repo, owner, res)
  {
    match res.access
    case Some(OciRegistry(r)) =>
      if r in repo.manifests {
        ImageChecked(k, repo, owner, res, r);
      }
    case Some(LocalOciBlob(d)) =>
      if owner in repo.components && d in repo.components[owner].layers {
        LocalBlobChecked(k, repo, owner, res, d);
      }
    case Some(S3(_, _)) => assert k.hash([]) != "";
    case _ =>
  }

  function CheckDigests(k: Crypto, repo: Repo, cd: Descriptor, n: nat): Result<(), DigestError> {
    var _ :- TryMap(ReferenceCheck(k, repo, n), cd.references);
    var _ :- TryMap(ResourceCheck(k, repo, cd.header.key), cd.resources);
    Ok(())
  }

  // ---------- the program ----------

  method RecursivelyCheckCdsDigests(
    k: Crypto, repo: Repo, cd: Descriptor, alg: HashAlgorithm, down: Place -> bool, at: Place, ghost n: nat)
    returns (r: Result<DigestSpec, DigestError>)
    requires ChildDigest(k, repo, cd, alg, n) != Err(Unbounded)
    ensures r == ChildDigest(k, repo, cd, alg, n) || (r == Err(RequestFailed) && Failing(down))
    decreases n, 1
  {
    ghost var f := ReferenceDigester(k, repo, n);
    var refs := cd.references;
    for i := 0 to |refs|
      invariant |refs| == |cd.references|
      invariant refs[i..] == cd.references[i..]
      invariant TryMap(f, cd.references[..i]) == Ok(refs[..i])
    {
      TryMapStep(f, cd.references, i);
      var reference := DigestReference(k, repo, refs[i], down, at + [i], n);
      if reference.Err? {
        return Err(reference.error);
      }
      refs := refs[i := reference.value];
      assert refs[..i + 1] == refs[..i] + [reference.value];
    }
    assert cd.references[..|refs|] == cd.references && refs[..|refs|] == refs;
    var ress := DigestResources(k, repo, cd, down, at);
    if ress.Err? {
      return Err(ress.error);
    }
    r := HashForComponentDescriptor(k, cd.(references := refs, resources := ress.value), alg);
  }

  /** The resource loop of `RecursivelyCheckCdsDigests`. */
  method DigestResources(k: Crypto, repo: Repo, cd: Descriptor, down: Place -> bool, at: Place)
    returns (r: Result<seq<Resource>, DigestError>)
    ensures
      || r == TryMap(ResourceDigester(k, repo, cd.header.key), cd.resources)
      || (r == Err(RequestFailed) && Failing(down))
  {
    ghost var g := ResourceDigester(k, repo, cd.header.key);
    var ress := cd.resources;
    for i := 0 to |ress|
      invariant |ress| == |cd.resources|
      invariant ress[i..] == cd.resources[i..]
      invariant TryMap(g, cd.resources[..i]) == Ok(ress[..i])
    {
      TryMapStep(g, cd.resources, i);
      if down(at + [|cd.references| + i]) {
        return Err(RequestFailed);
      }
      var digest := DigestForResource(k, repo, cd.header.key, ress[i], Sha256);
      if digest.Err? {
        return Err(digest.error);
      }
      var resource := ress[i].(digest := digest.value);
      ress := ress[i := resource];
      assert ress[..i + 1] == ress[..i] + [resource];
    }
    assert cd.resources[..|ress|] == cd.resources && ress[..|ress|] == ress;
    r := Ok(ress);
  }

  /** The body of the reference loop of `RecursivelyCheckCdsDigests`. */
  method DigestReference(k: Crypto, repo: Repo, reference: Reference, down: Place -> bool, at: Place, ghost n: nat)
    returns (r: Result<Reference, DigestError>)
    requires ReferenceDigester(k, repo, n)(reference) != Err(Unbounded)
    ensures r == ReferenceDigester(k, repo, n)(reference) || (r == Err(RequestFailed) && Failing(down))
    decreases n, 0
  {
    if down(at) {
      return Err(RequestFailed);
    }
    if reference.id.component !in repo.components {
      return Err(NotFound);
    }
    var childCd := repo.components[reference.id.component].cd;
    var digest := RecursivelyCheckCdsDigests(k, repo, childCd, Sha256, down, at, n - 1);
    if digest.Err? {
      return Err(digest.error);
    }
    r := Ok(reference.(digest := Some(digest.value)));
  }

  /** Success is always a successful check; without failing requests so is every other outcome. */
  method CheckCdDigests(k: Crypto, repo: Repo, cd: Descriptor, down: Place -> bool, ghost n: nat)
    returns (r: Result<(), DigestError>)
    requires CheckDigests(k, repo, cd, n) != Err(Unbounded)
    ensures r == CheckDigests(k, repo, cd, n) || (r == Err(RequestFailed) && Failing(down))
  {
    ghost var f, g := ReferenceCheck(k, repo, n), ResourceCheck(k, repo, cd.header.key);
    for i := 0 to |cd.references|
      invariant TryMap(f, cd.references[..i]).Ok?
    {
      TryMapStep(f, cd.references, i);
      r := CheckReference(k, repo, cd.references[i], down, [i], n);
      if r.Err? {
        return;
      }
    }
    assert cd.references[..|cd.references|] == cd.references;
    for i := 0 to |cd.resources|
      invariant TryMap(g, cd.resources[..i]).Ok?
    {
      TryMapStep(g, cd.resources, i);
      r := CheckResource(k, repo, cd.header.key, cd.resources[i], down, [|cd.references| + i]);
      if r.Err? {
        return;
      }
    }
    assert cd.resources[..|cd.resources|] == cd.resources;
    r := Ok(());
  }

  /** The body of the reference loop of `CheckCdDigests`. */
  method CheckReference(k: Crypto, repo: Repo, reference: Reference, down: Place -> bool, at: Place, ghost n: nat)
    returns (r: Result<(), DigestError>)
    requires ReferenceCheck(k, repo, n)(reference) != Err(Unbounded)
    ensures r == ReferenceCheck(k, repo, n)(reference) || (r == Err(RequestFailed) && Failing(down))
  {
    if down(at) {
      return Err(RequestFailed);
    }
    if reference.id.component !in repo.components {
      return Err(NotFound);
    }
    if !Present(reference.digest) {
      return Err(MissingDigest);
    }
    if !KnownHasher(reference.digest.value.algorithm) {
      return Err(UnknownHasher);
    }
    var childCd := repo.components[reference.id.component].cd;
    var digest := RecursivelyCheckCdsDigests(k, repo, childCd, reference.digest.value.algorithm, down, at, n - 1);
    if digest.Err? {
      return Err(digest.error);
    }
    if reference.digest != Some(digest.value) {
      return Err(Mismatch);
    }
    r := Ok(());
  }

  /** The body of the resource loop of `CheckCdDigests`. */
  method CheckResource(k: Crypto, repo: Repo, owner: Key, resource: Resource, down: Place -> bool, at: Place)
    returns (r: Result<(), DigestError>)
    ensures r == ResourceCheck(k, repo, owner)(resource) || (r == Err(RequestFailed) && Failing(down))
    ensures Secure(k) && r != Err(RequestFailed) ==> (r.Ok? <==> Attested(k, repo, owner, resource))
  {
    if Secure(k) {
      CheckedIsAttested(k, repo, owner, resource);
    }
    if resource.WithoutAccess() {
      if resource.digest.Some? {
        return Err(UnexpectedDigest);
      }
      return Ok(());
    }
    if !Present(resource.digest) {
      return Err(MissingDigest);
    }
    if !KnownHasher(resource.digest.value.algorithm) {
      return Err(UnknownHasher);
    }
    if down(at) {
      return Err(RequestFailed);
    }
    var digest := DigestForResource(k, repo, owner, resource, resource.digest.value.algorithm);
    if digest.Err? {
      return Err(digest.error);
    }
    if resource.digest != digest.value {
      return Err(Mismatch);
    }
    r := Ok(());
  }

  // ---------- stored digests are not trusted ----------

  /** Equal up to signatures and stored digests, with the same resources excluded. */
  ghost predicate SameButDigests(a: Descriptor, b: Descriptor) {
    && a.header == b.header
    && |a.references| == |b.references|
    && (forall i :: 0 <= i < |a.references| ==> a.references[i].id == b.references[i].id)
    && |a.resources| == |b.resources|
    && (forall i :: 0 <= i < |a.resources| ==>
          && a.resources[i].id == b.resources[i].id && a.resources[i].access == b.resources[i].access
          && (a.resources[i].Excluded() <==> b.resources[i].Excluded()))
  }

  ghost predicate DifferInStoredDigests(r1: Repo, r2: Repo) {
    && r1.manifests == r2.manifests && r1.s3 == r2.s3 && r1.components.Keys == r2.components.Keys
    && forall key :: key in r1.components ==>
         && SameButDigests(r1.components[key].cd, r2.components[key].cd)
         && r1.components[key].layers == r2.components[key].layers
  }

  /** Whatever digests and signatures are stored below the root, the recursion recomputes the same digest. */
  lemma {:induction false} StoredDigestsIgnored(
    k: Crypto, r1: Repo, c1: Descriptor, r2: Repo, c2: Descriptor, alg: HashAlgorithm, n: nat)
    requires DifferInStoredDigests(r1, r2) && SameButDigests(c1, c2)
    ensures ChildDigest(k, r1, c1, alg, n) == ChildDigest(k, r2, c2, alg, n)
    decreases n
  {
    var f1, f2 := ReferenceDigester(k, r1, n), ReferenceDigester(k, r2, n);
    forall i | 0 <= i < |c1.references|
      ensures f1(c1.references[i]) == f2(c2.references[i])
    {
      var key := c1.references[i].id.component;
      assert key in r1.components <==> key in r1.components.Keys;
      assert key in r2.components <==> key in r2.components.Keys;
      if n > 0 && key in r1.components {
        StoredDigestsIgnored(k, r1, r1.components[key].cd, r2, r2.components[key].cd, Sha256, n - 1);
      }
    }
    TryMapAlike(f1, c1.references, f2, c2.references);
    SameResourceDigests(k, r1, c1, r2, c2);
    var refs := TryMap(f1, c1.references);
    var ress := TryMap(ResourceDigester(k, r1, c1.header.key), c1.resources);
    if refs.Ok? && ress.Ok? {
      SameHash(k, c1.(references := refs.value, resources := ress.value),
        c2.(references := refs.value, resources := ress.value), alg);
    }
  }

  lemma SameResourceDigests(k: Crypto, r1: Repo, c1: Descriptor, r2: Repo, c2: Descriptor)
    requires DifferInStoredDigests(r1, r2) && SameButDigests(c1, c2)
    ensures TryMap(ResourceDigester(k, r1, c1.header.key), c1.resources) ==
      TryMap(ResourceDigester(k, r2, c2.header.key), c2.resources)
  {
    var owner := c1.header.key;
    var g1, g2 := ResourceDigester(k, r1, owner), ResourceDigester(k, r2, owner);
    assert owner in r1.components <==> owner in r1.components.Keys;
    assert owner in r2.components <==> owner in r2.components.Keys;
    forall i | 0 <= i < |c1.resources|
      ensures g1(c1.resources[i]) == g2(c2.resources[i])
    {
    }
    TryMapAlike(g1, c1.resources, g2, c2.resources);
  }

  lemma SameHash(k: Crypto, a: Descriptor, b: Descriptor, alg: HashAlgorithm)
    requires a.header == b.header && a.references == b.references && a.resources == b.resources
    ensures HashForComponentDescriptor(k, a, alg) == HashForComponentDescriptor(k, b, alg)
  {
    assert Normal(a) == Normal(b);
  }

  // ---------- what the depth bound means ----------

  /** A result reached within some depth is the result within every larger depth. */
  lemma {:induction false} DepthIrrelevant(k: Crypto, repo: Repo, cd: Descriptor, alg: HashAlgorithm, n: nat, m: nat)
    requires n <= m && ChildDigest(k, repo, cd, alg, n) != Err(Unbounded)
    ensures ChildDigest(k, repo, cd, alg, m) == ChildDigest(k, repo, cd, alg, n)
    decreases n
  {
    var f, g := ReferenceDigester(k, repo, n), ReferenceDigester(k, repo, m);
    forall i | 0 <= i < |cd.references| && f(cd.references[i]) != Err(Unbounded)
      ensures g(cd.references[i]) == f(cd.references[i])
    {
      if cd.references[i].id.component in repo.components {
        DepthIrrelevant(k, repo, repo.components[cd.references[i].id.component].cd, Sha256, n - 1, m - 1);
      }
    }
    TryMapRefined(f, g, cd.references, Unbounded);
  }

  /** On an acyclic repository, whose references go down in rank, the recursion always returns. */
  lemma {:induction false} AcyclicReturns(
    k: Crypto, repo: Repo, rank: Key -> nat, cd: Descriptor, alg: HashAlgorithm, n: nat)
    requires forall key, i :: key in repo.components && 0 <= i < |repo.components[key].cd.references| ==>
      rank(repo.components[key].cd.references[i].id.component) < rank(key)
    requires forall i :: 0 <= i < |cd.references| ==> rank(cd.references[i].id.component) < n
    ensures ChildDigest(k, repo, cd, alg, n) != Err(Unbounded)
    decreases n
  {
    var f := ReferenceDigester(k, repo, n);
    forall i | 0 <= i < |cd.references|
      ensures f(cd.references[i]) != Err(Unbounded)
    {
      if cd.references[i].id.component in repo.components {
        AcyclicReturns(k, repo, rank, repo.components[cd.references[i].id.component].cd, Sha256, n - 1);
      }
    }
    TryMapAvoids(f, cd.references, Unbounded);
    TryMapAvoids(ResourceDigester(k, repo, cd.header.key), cd.resources, Unbounded);
  }
}
