/** Content descriptors and digests of the OCI specifications. */
module Oci {
  import opened Common

  datatype Digest = Digest(algorithm: string, encoded: string)

  datatype Descriptor = Descriptor(
    mediaType: string, digest: Digest, size: int, annotations: map<string, string>, platform: Option<string>,
    urls: seq<string>)

  /** The hash functions, by algorithm name. */
  type Hasher = (string, Bytes) -> string

  predicate Matches(h: Hasher, digest: Digest, content: Bytes) {
    h(digest.algorithm, content) == digest.encoded
  }

  ghost predicate CollisionFree(h: Hasher) {
    forall alg, a, b :: h(alg, a) == h(alg, b) ==> a == b
  }

  /** A store that keeps content under its digest. */
  ghost predicate ContentAddressed(h: Hasher, store: map<Digest, Bytes>) {
    forall d :: d in store ==> Matches(h, d, store[d])
  }

  const MEDIA_TYPE_IMAGE_INDEX := "application/vnd.oci.image.index.v1+json"
  const MEDIA_TYPE_IMAGE_MANIFEST := "application/vnd.oci.image.manifest.v1+json"
  const MEDIA_TYPE_DOCKER_MANIFEST_LIST := "application/vnd.docker.distribution.manifest.list.v2+json"
  const MEDIA_TYPE_DOCKER_MANIFEST := "application/vnd.docker.distribution.manifest.v2+json"

  predicate IsMultiArchImage(mediaType: string) {
    mediaType == MEDIA_TYPE_IMAGE_INDEX || mediaType == MEDIA_TYPE_DOCKER_MANIFEST_LIST
  }

  predicate IsSingleArchImage(mediaType: string) {
    mediaType == MEDIA_TYPE_IMAGE_MANIFEST || mediaType == MEDIA_TYPE_DOCKER_MANIFEST
  }
}
