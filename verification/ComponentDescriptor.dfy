/** Component descriptors, their normal form, and the repositories that hold them. */
module ComponentDescriptor {
  import opened Common

  datatype HashAlgorithm = NoAlgorithm | Sha256 | NoDigest | OtherAlgorithm(name: string)

  datatype Normalisation =
    | NoNormalisation
    | JsonNormalisationV1
    | OciArtifactDigestV1
    | GenericBlobDigestV1
    | ExcludeFromSignature
    | OtherNormalisation(name: string)

  datatype DigestSpec = DigestSpec(algorithm: HashAlgorithm, normalisation: Normalisation, value: string)

  /** The notation that keeps a resource out of the signature. */
  const EXCLUDE := DigestSpec(NoDigest, ExcludeFromSignature, "NO-DIGEST")

  datatype AccessType = OciRegistryType | LocalOciBlobType | S3Type | NoneType | OtherType(name: string)

  datatype Access =
    | OciRegistry(imageReference: string)
    | LocalOciBlob(digest: string)
    | S3(bucket: string, key: string)
    | NoneAccess
    | OtherAccess(name: string)
  {
    function Type(): AccessType {
      match this
      case OciRegistry(_) => OciRegistryType
      case LocalOciBlob(_) => LocalOciBlobType
      case S3(_, _) => S3Type
      case NoneAccess => NoneType
      case OtherAccess(n) => OtherType(n)
    }
  }

  datatype ReferenceId = ReferenceId(name: string, component: Key, extraIdentity: map<string, string>)

  datatype Reference = Reference(id: ReferenceId, digest: Option<DigestSpec>)

  datatype ResourceId = ResourceId(
    name: string, version: string, kind: string, relation: string, extraIdentity: map<string, string>)

  /** `access` is `None` for the nil pointer. */
  datatype Resource = Resource(id: ResourceId, access: Option<Access>, digest: Option<DigestSpec>) {

    predicate Excluded() {
      digest == Some(EXCLUDE)
    }

    /** No access, or access type "None": such a resource carries no digest. */
    predicate WithoutAccess() {
      access == None || access == Some(NoneAccess)
    }
  }

  datatype Header = Header(schemaVersion: string, key: Key, provider: string)

  datatype Signature = Signature(name: string, digest: DigestSpec)

  datatype Descriptor = Descriptor(
    header: Header, references: seq<Reference>, resources: seq<Resource>, signatures: seq<Signature>)

  /** The part of a descriptor that is hashed. Access and signatures are not part of it. */
  datatype NormalForm = NormalForm(
    header: Header,
    references: seq<(ReferenceId, Option<DigestSpec>)>,
    resources: seq<(ResourceId, Option<DigestSpec>)>)

  function Normal(cd: Descriptor): NormalForm {
    NormalForm(
      cd.header,
      seq(|cd.references|, i requires 0 <= i < |cd.references| =>
        (cd.references[i].id, cd.references[i].digest)),
      seq(|cd.resources|, i requires 0 <= i < |cd.resources| =>
        (cd.resources[i].id, if cd.resources[i].WithoutAccess() then None else cd.resources[i].digest)))
  }

  /** The library functions the protocol rests on: SHA-256 and the JSON rendering of a normal form. */
  datatype Crypto = Crypto(hash: Bytes -> string, encode: NormalForm -> Bytes)

  ghost predicate Secure(k: Crypto) {
    && (forall a, b :: k.hash(a) == k.hash(b) ==> a == b)
    && (forall a, b :: k.encode(a) == k.encode(b) ==> a == b)
    && (forall a :: k.hash(a) != "")
  }

  datatype DigestError =
    | NotFound
    | NilAccess
    | UnsupportedAccess
    | UnknownHasher
    | MissingDigest
    | UnexpectedDigest
    | Mismatch
    | NoBlobResolver
    | PushFailed
    | RequestFailed
    | Unbounded  // the recursion went deeper than the bound it was given

  /** What a component's manifest in a registry holds: the descriptor and the local blobs, by digest. */
  datatype Stored = Stored(cd: Descriptor, layers: map<string, Bytes>)

  /** A component repository, with the image registry and the S3 objects its accesses point to. */
  datatype Repo = Repo(
    components: map<Key, Stored>, manifests: map<string, Bytes>, s3: map<(string, string), Bytes>)

  /** Where in a recursion a request is made: the indexes of the loops that lead to it. */
  type Place = seq<nat>

  /** Whether any request can fail. */
  ghost predicate Failing(down: Place -> bool) {
    exists at :: down(at)
  }

  predicate Present(d: Option<DigestSpec>) {
    d.Some? && d.value.algorithm != NoAlgorithm && d.value.normalisation != NoNormalisation && d.value.value != ""
  }

  predicate KnownHasher(a: HashAlgorithm) {
    a == Sha256
  }

  predicate Normaliseable(cd: Descriptor) {
    && (forall i :: 0 <= i < |cd.references| ==> Present(cd.references[i].digest))
    && (forall i :: 0 <= i < |cd.resources| ==>
          (cd.resources[i].WithoutAccess() <==> cd.resources[i].digest == None))
  }

  function HashForComponentDescriptor(k: Crypto, cd: Descriptor, alg: HashAlgorithm): Result<DigestSpec, DigestError> {
    if !Normaliseable(cd) then
      Err(MissingDigest)
    else
      Ok(DigestSpec(alg, JsonNormalisationV1, k.hash(k.encode(Normal(cd)))))
  }

  /** The digest a resource gets, from its access type and from the content the access leads to. */
  function DigestForResource(k: Crypto, repo: Repo, owner: Key, res: Resource, alg: HashAlgorithm)
    : Result<Option<DigestSpec>, DigestError>
  {
    if res.Excluded() then
      Ok(res.digest)
    else if res.access == None then
      Err(NilAccess)
    else
      match res.access.value
      case OciRegistry(imageReference) =>
        if imageReference !in repo.manifests then Err(NotFound)
        else Ok(Some(DigestSpec(alg, OciArtifactDigestV1, k.hash(repo.manifests[imageReference]))))
      case LocalOciBlob(digest) =>
        if owner !in repo.components || digest !in repo.components[owner].layers then Err(NotFound)
        else Ok(Some(DigestSpec(alg, GenericBlobDigestV1, k.hash(repo.components[owner].layers[digest]))))
      case S3(bucket, key) =>
        // the response body is drained before it is copied to the hasher, which therefore sees no byte
        if (bucket, key) !in repo.s3 then Err(NotFound)
        else Ok(Some(DigestSpec(alg, GenericBlobDigestV1, k.hash([]))))
      case NoneAccess => Ok(None)
      case OtherAccess(_) => Err(UnsupportedAccess)
  }

  /** What a verified digest of a resource commits to, said without any hash. */
  datatype Measured = ExcludedContent | NoContent | Content(kind: Normalisation, bytes: Bytes)

  function Measure(repo: Repo, owner: Key, res: Resource): Option<Measured> {
    if res.Excluded() then
      Some(ExcludedContent)
    else if res.access == None then
      Some(NoContent)
    else
      match res.access.value
      case OciRegistry(r) =>
        if r in repo.manifests then Some(Content(OciArtifactDigestV1, repo.manifests[r])) else None
      case LocalOciBlob(d) =>
        if owner in repo.components && d in repo.components[owner].layers
        then Some(Content(GenericBlobDigestV1, repo.components[owner].layers[d])) else None
      case S3(b, o) => if (b, o) in repo.s3 then Some(Content(GenericBlobDigestV1, [])) else None
      case NoneAccess => Some(NoContent)
      case OtherAccess(_) => None
  }

  /** A descriptor can be hashed exactly if its references have digests, and so have its resources with an access. */
  lemma HashExistsIff(k: Crypto, cd: Descriptor, alg: HashAlgorithm)
    ensures HashForComponentDescriptor(k, cd, alg).Ok? <==>
      && (forall i :: 0 <= i < |cd.references| ==>
            && cd.references[i].digest.Some? && cd.references[i].digest.value.algorithm != NoAlgorithm
            && cd.references[i].digest.value.normalisation != NoNormalisation
            && cd.references[i].digest.value.value != "")
      && (forall i :: 0 <= i < |cd.resources| ==>
            (cd.resources[i].digest == None <==>
              cd.resources[i].access == None || cd.resources[i].access == Some(NoneAccess)))
    ensures HashForComponentDescriptor(k, cd, alg).Err? ==> HashForComponentDescriptor(k, cd, alg) == Err(MissingDigest)
  {
    hide Normal;
  }

  /** Why a resource has no digest. */
  lemma DigestErrors(k: Crypto, repo: Repo, owner: Key, res: Resource, alg: HashAlgorithm)
    requires !res.Excluded()
    ensures DigestForResource(k, repo, owner, res, alg) == Err(NilAccess) <==> res.access == None
    ensures DigestForResource(k, repo, owner, res, alg) == Err(UnsupportedAccess) <==>
      res.access.Some? && res.access.value.OtherAccess?
    ensures DigestForResource(k, repo, owner, res, alg) == Err(NotFound) <==>
      match res.access
      case Some(OciRegistry(r)) => r !in repo.manifests
      case Some(LocalOciBlob(d)) => owner !in repo.components || d !in repo.components[owner].layers
      case Some(S3(bucket, key)) => (bucket, key) !in repo.s3
      case _ => false
    ensures DigestForResource(k, repo, owner, res, alg).Err? ==>
      DigestForResource(k, repo, owner, res, alg).error in {NilAccess, UnsupportedAccess, NotFound}
  {
  }

  /** The digest that measured content has. */
  function DigestOf(k: Crypto, m: Measured): Option<DigestSpec> {
    match m
    case ExcludedContent => Some(EXCLUDE)
    case NoContent => None
    case Content(kind, bytes) => Some(DigestSpec(Sha256, kind, k.hash(bytes)))
  }

  lemma DigestMeasures(k: Crypto, repo: Repo, owner: Key, res: Resource)
    ensures DigestForResource(k, repo, owner, res, Sha256).Err? ==>
      Measure(repo, owner, res) == if res.access == None then Some(NoContent) else None
    ensures DigestForResource(k, repo, owner, res, Sha256).Ok? ==> Measure(repo, owner, res).Some?
    ensures DigestForResource(k, repo, owner, res, Sha256).Ok? ==>
      DigestForResource(k, repo, owner, res, Sha256).value == DigestOf(k, Measure(repo, owner, res).value)
  {
  }

  /** Equal digests mean equal measured content, across repositories, owners and accesses. */
  lemma DigestDeterminesContent(k: Crypto, r1: Repo, o1: Key, res1: Resource, r2: Repo, o2: Key, res2: Resource)
    requires Secure(k)
    requires DigestForResource(k, r1, o1, res1, Sha256).Ok?
    requires DigestForResource(k, r1, o1, res1, Sha256) == DigestForResource(k, r2, o2, res2, Sha256)
    ensures Measure(r1, o1, res1).Some?
    ensures Measure(r1, o1, res1) == Measure(r2, o2, res2)
  {
    DigestMeasures(k, r1, o1, res1);
    DigestMeasures(k, r2, o2, res2);
    hide DigestForResource, Measure;
  }
}
