/** Adding digests to a component and to everything it references (pkg/signatures/util.go, lines 27 to 83). */
module Signing {
  import opened Common
  import opened ComponentDescriptor

  // ---------- specification of the adding recursion ----------

  /** The skip loop: resources of a skipped access type get the exclude notation. */
  function SkipMarker(skip: set<AccessType>): Resource -> Result<Resource, DigestError> {
    (res: Resource) =>
      if res.access == None then Err(NilAccess)
      else if res.access.value.Type() in skip then Ok(res.(digest := Some(EXCLUDE)))
      else Ok(res)
  }

  function ResourceAdder(k: Crypto, repo: Repo, owner: Key): Resource -> Result<Resource, DigestError> {
    (res: Resource) =>
      if res.Excluded() then Ok(res)
      else
        var d :- DigestForResource(k, repo, owner, res, Sha256);
        if res.digest.Some? && res.digest != d then Err(Mismatch) else Ok(res.(digest := d))
  }

  function ReferenceAdder(k: Crypto, repo: Repo, skip: set<AccessType>, n: nat)
    : Reference -> Result<Reference, DigestError>
    decreases n, 0
  {
    (ref: Reference) =>
      if ref.id.component !in repo.components then Err(NotFound)
      else if n == 0 then Err(Unbounded)
      else
        var child :- Digested(k, repo, skip, repo.components[ref.id.component].cd, n - 1);
        var d :- HashForComponentDescriptor(k, child, Sha256);
        if ref.digest.Some? && ref.digest != Some(d) then Err(Mismatch) else Ok(ref.(digest := Some(d)))
  }

  /** The descriptor with all its digests, as the recursion leaves it. */
  function Digested(k: Crypto, repo: Repo, skip: set<AccessType>, cd: Descriptor, n: nat)
    : Result<Descriptor, DigestError>
    decreases n, 1
  {
    var marked :- TryMap(SkipMarker(skip), cd.resources);
    var refs :- TryMap(ReferenceAdder(k, repo, skip, n), cd.references);
    var ress :- TryMap(ResourceAdder(k, repo, cd.header.key), marked);
    Ok(cd.(references := refs, resources := ress))
  }

  /** The list the recursion returns: what each reference contributes, in order, and the component itself last. */
  function Listed(k: Crypto, repo: Repo, skip: set<AccessType>, cd: Descriptor, n: nat): seq<Descriptor>
    decreases n, |cd.references| + 1
  {
    if Digested(k, repo, skip, cd, n).Err? then []
    else ListedReferences(k, repo, skip, cd.references, n) + [Digested(k, repo, skip, cd, n).value]
  }

  function ListedReferences(k: Crypto, repo: Repo, skip: set<AccessType>, refs: seq<Reference>, n: nat): seq<Descriptor>
    decreases n, |refs|
  {
    if refs == [] then
      []
    else
      ListedReferences(k, repo, skip, refs[..|refs| - 1], n) +
      var component := refs[|refs| - 1].id.component;
      if n == 0 || component !in repo.components then []
      else Listed(k, repo, skip, repo.components[component].cd, n - 1)
  }

  /** Every component is stored under its own name and version. */
  ghost predicate WellFiled(repo: Repo) {
    forall key :: key in repo.components ==> repo.components[key].cd.header.key == key
  }

  // ---------- what the recursion writes, and when it fails ----------

  /** Without a stored digest `d` is written, an equal one stays, and any other one is a mismatch. */
  predicate WritesOrMismatches(res: Resource, r: Result<Resource, DigestError>, d: DigestSpec) {
    if res.digest == None || res.digest == Some(d) then r == Ok(res.(digest := Some(d))) else r == Err(Mismatch)
  }

  lemma ImageAdded(k: Crypto, repo: Repo, owner: Key, res: Resource, image: string)
    requires res.access == Some(OciRegistry(image)) && image in repo.manifests
    requires res.digest != Some(EXCLUDE)
    ensures WritesOrMismatches(res, ResourceAdder(k, repo, owner)(res),
      DigestSpec(Sha256, OciArtifactDigestV1, k.hash(repo.manifests[image])))
  {
  }

  lemma LocalBlobAdded(k: Crypto, repo: Repo, owner: Key, res: Resource, d: string)
    requires res.access == Some(LocalOciBlob(d)) && owner in repo.components && d in repo.components[owner].layers
    requires res.digest != Some(EXCLUDE)
    ensures WritesOrMismatches(res, ResourceAdder(k, repo, owner)(res),
      DigestSpec(Sha256, GenericBlobDigestV1, k.hash(repo.components[owner].layers[d])))
  {
  }

  /** The digest of a normalised descriptor. */
  lemma DescriptorHash(k: Crypto, cd: Descriptor)
    requires Normaliseable(cd)
    ensures HashForComponentDescriptor(k, cd, Sha256) ==
      Ok(DigestSpec(Sha256, JsonNormalisationV1, k.hash(k.encode(Normal(cd)))))
  {
  }

  /** A reference gets the digest of the digested child; only a stored one that differs is a mismatch. */
  lemma ReferenceAdded(k: Crypto, repo: Repo, skip: set<AccessType>, n: nat, ref: Reference, child: Descriptor)
    requires n > 0 && ref.id.component in repo.components
    requires Digested(k, repo, skip, repo.components[ref.id.component].cd, n - 1) == Ok(child) && Normaliseable(child)
    ensures var d := DigestSpec(Sha256, JsonNormalisationV1, k.hash(k.encode(Normal(child))));
      ReferenceAdder(k, repo, skip, n)(ref) ==
      if ref.digest == None || ref.digest == Some(d) then Ok(ref.(digest := Some(d))) else Err(Mismatch)
  {
  }

  /** The content behind the access is there, or the resource is skipped. Local blobs are uploaded in any case. */
  predicate Available(repo: Repo, owner: Key, skip: set<AccessType>, access: Access) {
    match access
    case OciRegistry(r) => OciRegistryType in skip || r in repo.manifests
    case LocalOciBlob(d) => owner in repo.components && d in repo.components[owner].layers
    case S3(bucket, key) => S3Type in skip || (bucket, key) in repo.s3
    case NoneAccess => NoneType !in skip
    case OtherAccess(name) => OtherType(name) in skip
  }

  /** Nothing is digested yet, and everything is there, down to depth `n`. */
  ghost predicate Digestible(repo: Repo, skip: set<AccessType>, cd: Descriptor, n: nat)
    decreases n, 1
  {
    && (forall i :: 0 <= i < |cd.resources| ==>
          && cd.resources[i].access.Some? && cd.resources[i].digest == None
          && Available(repo, cd.header.key, skip, cd.resources[i].access.value))
    && (forall i :: 0 <= i < |cd.references| ==> DigestibleReference(repo, skip, cd.references[i], n))
  }

  ghost predicate DigestibleReference(repo: Repo, skip: set<AccessType>, ref: Reference, n: nat)
    decreases n, 0
  {
    && n > 0 && ref.digest == None && ref.id.component in repo.components
    && Digestible(repo, skip, repo.components[ref.id.component].cd, n - 1)
  }

  lemma ResourcesAdded(k: Crypto, repo: Repo, skip: set<AccessType>, cd: Descriptor, n: nat)
    returns (marked: seq<Resource>, added: seq<Resource>)
    requires Secure(k) && Digestible(repo, skip, cd, n)
    ensures TryMap(SkipMarker(skip), cd.resources) == Ok(marked)
    ensures TryMap(ResourceAdder(k, repo, cd.header.key), marked) == Ok(added) && |added| == |cd.resources|
    ensures forall i :: 0 <= i < |added| ==>
      added[i].access.Some? && (added[i].WithoutAccess() <==> added[i].digest == None)
  {
    var f, g := SkipMarker(skip), ResourceAdder(k, repo, cd.header.key);
    marked := seq(|cd.resources|, i requires 0 <= i < |cd.resources| =>
      if f(cd.resources[i]).Ok? then f(cd.resources[i]).value else cd.resources[i]);
    added := seq(|marked|, i requires 0 <= i < |marked| =>
      if g(marked[i]).Ok? then g(marked[i]).value else marked[i]);
    forall i | 0 <= i < |cd.resources|
      ensures f(cd.resources[i]) == Ok(marked[i]) && g(marked[i]) == Ok(added[i])
      ensures added[i].access.Some? && (added[i].WithoutAccess() <==> added[i].digest == None)
    {
      assert Available(repo, cd.header.key, skip, cd.resources[i].access.value);
    }
    TryMapOk(f, cd.resources, marked);
    TryMapOk(g, marked, added);
  }

  /** If nothing is digested yet and everything is there, the recursion succeeds, and its result can be hashed. */
  lemma {:induction false} DigestedExists(k: Crypto, repo: Repo, skip: set<AccessType>, cd: Descriptor, n: nat)
    requires Secure(k) && Digestible(repo, skip, cd, n)
    ensures Digested(k, repo, skip, cd, n).Ok? && Normaliseable(Digested(k, repo, skip, cd, n).value)
    decreases n
  {
    var marked, added := ResourcesAdded(k, repo, skip, cd, n);
    var f := ReferenceAdder(k, repo, skip, n);
    var refs := seq(|cd.references|, i requires 0 <= i < |cd.references| =>
      if f(cd.references[i]).Ok? then f(cd.references[i]).value else cd.references[i]);
    forall i | 0 <= i < |cd.references|
      ensures f(cd.references[i]) == Ok(refs[i]) && Present(refs[i].digest)
    {
      assert DigestibleReference(repo, skip, cd.references[i], n);
      var child := repo.components[cd.references[i].id.component].cd;
      DigestedExists(k, repo, skip, child, n - 1);
      ReferenceAdded(k, repo, skip, n, cd.references[i], Digested(k, repo, skip, child, n - 1).value);
    }
    TryMapOk(f, cd.references, refs);
  }

  // ---------- the program ----------

  /** The map of blob resolvers that the recursive calls share; a resolver is named by where it was resolved. */
  class BlobResolvers {
    var at: map<Key, Key>

    constructor ()
      ensures at == map[]
    {
      at := map[];
    }
  }

  /** Each entry of `now` is one of `before`, or belongs to a component that the repository holds. */
  ghost predicate Registered(repo: Repo, before: map<Key, Key>, now: map<Key, Key>) {
    && before.Keys <= now.Keys
    && forall key :: key in now ==>
        || (key in before && now[key] == before[key])
        || (now[key] in repo.components && repo.components[now[key]].cd.header.key == key)
  }

  ghost predicate Covered(cds: seq<Descriptor>, resolvers: map<Key, Key>) {
    forall i :: 0 <= i < |cds| ==> cds[i].header.key in resolvers
  }

  method RecursivelyAddDigestsToCd(
    k: Crypto, repo: Repo, cd: Descriptor, resolvers: BlobResolvers, skip: set<AccessType>,
    down: Place -> bool, at: Place, ghost n: nat)
    returns (r: Result<seq<Descriptor>, DigestError>)
    requires Digested(k, repo, skip, cd, n) != Err(Unbounded)
    modifies resolvers
    ensures r.Ok? ==> Digested(k, repo, skip, cd, n).Ok? && r.value == Listed(k, repo, skip, cd, n)
    ensures r.Err? ==> Digested(k, repo, skip, cd, n) == Err(r.error) || (r.error == RequestFailed && Failing(down))
    ensures Registered(repo, old(resolvers.at), resolvers.at)
    ensures r.Ok? ==> Covered(ListedReferences(k, repo, skip, cd.references, n), resolvers.at)
    decreases n, 2
  {
    var marked := MarkSkipped(cd.resources, skip);
    if marked.Err? {
      return Err(marked.error);
    }
    var refs, cdsWithHashes := AddToReferences(k, repo, cd.references, resolvers, skip, down, at, n);
    if refs.Err? {
      return Err(refs.error);
    }
    var ress := AddToResources(k, repo, cd.header.key, marked.value, down, at + [|cd.references|]);
    if ress.Err? {
      return Err(ress.error);
    }
    r := Ok(cdsWithHashes + [cd.(references := refs.value, resources := ress.value)]);
  }

  method AddToReferences(
    k: Crypto, repo: Repo, references: seq<Reference>, resolvers: BlobResolvers, skip: set<AccessType>,
    down: Place -> bool, at: Place, ghost n: nat)
    returns (r: Result<seq<Reference>, DigestError>, cdsWithHashes: seq<Descriptor>)
    requires TryMap(ReferenceAdder(k, repo, skip, n), references) != Err(Unbounded)
    modifies resolvers
    ensures r == TryMap(ReferenceAdder(k, repo, skip, n), references) || (r == Err(RequestFailed) && Failing(down))
    ensures r.Ok? ==> cdsWithHashes == ListedReferences(k, repo, skip, references, n)
    ensures Registered(repo, old(resolvers.at), resolvers.at)
    ensures r.Ok? ==> Covered(cdsWithHashes, resolvers.at)
    decreases n, 1
  {
    hide TryMap, Listed, Digested, HashForComponentDescriptor, ReferenceAdder;
    var refs := references;
    cdsWithHashes := [];
    ghost var f := ReferenceAdder(k, repo, skip, n);
    TryMapOk(f, references[..0], refs[..0]);
    for i := 0 to |references|
      invariant |refs| == |references| && refs[i..] == references[i..]
      invariant TryMap(f, references[..i]) == Ok(refs[..i])
      invariant cdsWithHashes == ListedReferences(k, repo, skip, references[..i], n)
      invariant Registered(repo, old(resolvers.at), resolvers.at)
      invariant Covered(cdsWithHashes, resolvers.at)
    {
      TryMapStep(f, references, i);
      var reference, cds := AddReference(k, repo, refs[i], resolvers, skip, down, at + [i], n);
      if reference.Err? {
        return Err(reference.error), cdsWithHashes;
      }
      assert references[..i + 1][..i] == references[..i] && refs[i + 1..] == references[i + 1..];
      cdsWithHashes := cdsWithHashes + cds;
      refs := refs[i := reference.value];
      assert refs[..i + 1] == refs[..i] + [reference.value];
    }
    assert references[..|refs|] == references && refs[..|refs|] == refs;
    r := Ok(refs);
  }

  /** Resolving one reference: the closure handed to the library, and the library's own comparison. */
  method AddReference(
    k: Crypto, repo: Repo, reference: Reference, resolvers: BlobResolvers, skip: set<AccessType>,
    down: Place -> bool, at: Place, ghost n: nat)
    returns (r: Result<Reference, DigestError>, cds: seq<Descriptor>)
    requires ReferenceAdder(k, repo, skip, n)(reference) != Err(Unbounded)
    modifies resolvers
    ensures r == ReferenceAdder(k, repo, skip, n)(reference) || (r == Err(RequestFailed) && Failing(down))
    ensures r.Ok? ==>
      && n > 0 && reference.id.component in repo.components
      && cds == Listed(k, repo, skip, repo.components[reference.id.component].cd, n - 1)
    ensures Registered(repo, old(resolvers.at), resolvers.at)
    ensures r.Ok? ==> Covered(cds, resolvers.at)
    decreases n, 0
  {
    cds := [];
    if down(at) {
      return Err(RequestFailed), cds;
    }
    if reference.id.component !in repo.components {
      return Err(NotFound), cds;
    }
    var childCd := repo.components[reference.id.component].cd;
    resolvers.at := resolvers.at[childCd.header.key := reference.id.component];
    var sub := RecursivelyAddDigestsToCd(k, repo, childCd, resolvers, skip, down, at, n - 1);
    if sub.Err? {
      return Err(sub.error), cds;
    }
    cds := sub.value;
    var hashed := HashForComponentDescriptor(k, cds[|cds| - 1], Sha256);
    if hashed.Err? {
      return Err(hashed.error), cds;
    }
    if reference.digest.Some? && reference.digest != Some(hashed.value) {
      return Err(Mismatch), cds;
    }
    r := Ok(reference.(digest := Some(hashed.value)));
  }

  method MarkSkipped(resources: seq<Resource>, skip: set<AccessType>) returns (r: Result<seq<Resource>, DigestError>)
    ensures r == TryMap(SkipMarker(skip), resources)
  {
    var ress := resources;
    ghost var f := SkipMarker(skip);
    for i := 0 to |resources|
      invariant |ress| == |resources| && ress[i..] == resources[i..]
      invariant TryMap(f, resources[..i]) == Ok(ress[..i])
    {
      TryMapStep(f, resources, i);
      var res := ress[i];
      if res.access == None {
        return Err(NilAccess);
      }
      if res.access.value.Type() in skip {
        res := res.(digest := Some(EXCLUDE));
      }
      ress := ress[i := res];
      assert ress[..i + 1] == ress[..i] + [res];
    }
    assert resources[..|ress|] == resources && ress[..|ress|] == ress;
    r := Ok(ress);
  }

  method AddToResources(
    k: Crypto, repo: Repo, owner: Key, resources: seq<Resource>, down: Place -> bool, at: Place)
    returns (r: Result<seq<Resource>, DigestError>)
    ensures r == TryMap(ResourceAdder(k, repo, owner), resources) || (r == Err(RequestFailed) && Failing(down))
  {
    var ress := resources;
    ghost var f := ResourceAdder(k, repo, owner);
    for i := 0 to |resources|
      invariant |ress| == |resources| && ress[i..] == resources[i..]
      invariant TryMap(f, resources[..i]) == Ok(ress[..i])
    {
      TryMapStep(f, resources, i);
      var res := ress[i];
      if !res.Excluded() {
        if down(at + [i]) {
          return Err(RequestFailed);
        }
        var digest := DigestForResource(k, repo, owner, res, Sha256);
        if digest.Err? {
          return Err(digest.error);
        }
        if res.digest.Some? && res.digest != digest.value {
          return Err(Mismatch);
        }
        res := res.(digest := digest.value);
      }
      ress := ress[i := res];
      assert ress[..i + 1] == ress[..i] + [res];
    }
    assert resources[..|ress|] == resources && ress[..|ress|] == ress;
    r := Ok(ress);
  }
}
