# Verified model of the component CLI

A Dafny model of the parts of the component CLI that move content-addressed graphs between stores: component
descriptors with their digests and signatures, OCI manifests and indexes, blobs, and the caches, credentials, archives
and locks around them. `dafny verify dfyconfig.toml` checks everything.

| files | what they model |
|---|---|
| `ComponentDescriptor`, `Verify`, `Merkle` | the digest check of a component and all it references, and its soundness as a Merkle DAG |
| `Signing`, `Upload`, `SignAndUpload` | the recursion that adds digests, the signed upload, and that its result passes the check |
| `CachePriority`, `CacheFilesystem`, `CacheRuns`, `HitDecay` | the size-accounted cache file system, its garbage collector, and every interleaving of both |
| `BlobCache` | the layered and the in-memory blob cache and the fetch path through them |
| `ImageRef`, `ImageCopy` | copying image graphs between registries |
| `ComponentCopy` | copying component graphs with retries |
| `CredentialTrie`, `Keyring`, `KeyringBuilder` | the credential index, the keyring over it, how it is filled and merged |
| `ArtifactArchive`, `ArtifactRoundTrip` | writing an artifact into a tar archive and reading it back |
| `Schema1` | converting Docker manifests of version 2, schema 1 |
| `TarWalk` | packing a directory |
| `KeyMutex` | the lock per key |
| `Common`, `Oci`, `Strings` | shared datatypes, descriptors and digests, splitting and joining |

Code that changes things step by step is modelled by classes and methods with loops, each proved against a
specification function or predicate; the lemmas are about those. Requests to registries and operations of the caches take
their outcome from a parameter (`down`, `fails`, `faults`), so these contracts hold for every pattern of failures; an
upload that fails may have been applied all the same (`applied`). Archives and the walk have no faults of their own.
Protocols whose point is interleaving (`CacheRuns`, `KeyMutex`) are state machines. Where Go visits a map, the visiting
order is a parameter, and results hold for every order.

Libraries are parameters: hash functions (injective where a result needs it; for archives also without equal sums of
different algorithms, whose lengths differ), JSON and tar encodings (with decoders that invert them), URL normalisation
(idempotent), pattern matching, decompression. A recursion over references that the code does not guard against cycles
takes a ghost depth `n` that some call tree fits into; `Verify.DepthIrrelevant` and
`SignAndUpload.AddingDepthIrrelevant` show that results do not depend on it.

## Findings

Where the code does not have a property one might expect, the model has the code's behaviour and says exactly when the
property holds.

- An excluded root resource always fails the digest check: no hasher is known for the algorithm of the exclude notation
  (`vendor/github.com/gardener/component-spec/bindings-go/apis/v2/signatures/const.go:23-25`). What was signed passes
  if and only if no root resource is excluded (`SignAndUpload.SignedUploadChecks`).
- The digest of an S3 resource does not depend on the object (`Merkle.S3ContentUnchecked`).
- The bounds that the garbage collector ranks by do not depend on the order in which Go visits a map if and only if none
  or all hit counts are 0 and none or all creation times (`CachePriority.OrderIrrelevantIff`). Then neither does the
  ranking (`CachePriority.RankingIndependentOfOrder`); otherwise it may (`CachePriority.RankingDependsOnOrder`), although
  it is always monotone.
- Creating a name that the index holds leaves the old size accounted. The accounted size is off by exactly the sizes
  replaced so far (`CacheRuns.LostExactly`), so for sizes that are not negative it is right if and only if all of them
  were 0 (`CacheRuns.ExactIff`). Other sizes occur: the schema 1 conversion adds its layers with size -1
  (`ociclient/manifest_v1_conversion.go:138`).
- A component that is present in the target of a signing run is overwritten without force if the request that looks for
  it fails (`Upload.PresentStaysIff`); the same holds in component copies.
- Artifacts that are copied by value keep their bytes if and only if those that share a target reference are the same
  (`ComponentCopy.BytesKeptIff`): the last one wins. By default the host is dropped, so `a/x:1` and `b/x:1` collide; with
  hosts kept, `h/x.y:1` and `h/x_y:1` do (`ComponentCopy.TargetsCollideIff`).
- A fetch through the layered cache needs the exact size (`BlobCache.GetFetchReader`). The schema 1 conversion fetches
  layers with size -1, so through the layered cache it succeeds without faults only for manifests whose layers are all
  marked empty (`Schema1.ConvertV1ManifestToV2`).
- For a config of size 0 the empty object is pushed, but the manifest keeps naming the config it named
  (`ImageCopy.PushImageBlobs`).
- The reference parser finds the repository if and only if the reference has an explicit tag or a digest without a
  second `@` (`ImageRef.RepositoryFoundIff`). Otherwise it takes the port for the version, or the whole reference
  (`ImageRef.UntaggedIsCut`), so a non-empty index cannot be copied to a target without tag and digest, and is read from
  another repository if the source has neither (`ImageCopy.Copy`).
- If the target reference has a tag and a digest, the manifests of an index are pushed to the tag. Unless the digest is
  that of the index, the tag ends at the last of them (`ImageCopy.Copy`).
- Reading an archive takes every blob for one with a SHA-256 digest. What was named by another algorithm cannot be read
  from an in-memory cache afterwards, unless it was there before (`ArtifactRoundTrip.RoundTrip`).
- When two keyrings are merged, the first one wins on a clash; the comment above the function says the second
  (`KeyringBuilder.FirstKeyringWins`).
- Entries below included directories are written to an archive several times (`TarWalk.MultiplicityLaw`), and an excluded
  directory does not exclude what is in it (`TarWalk.ExtractionIsExact`).
- A schema 1 manifest with more history items than layers loses the surplus items, one with fewer ends in an index error
  (`Schema1.ParseV1Manifest`).
- A goroutine that waits for a held key keeps the outer mutex, so nobody can unlock any more: progress ends if and only
  if that happens (`KeyMutex.ProgressIff`, `KeyMutex.ContentionWedges`), and it does happen
  (`KeyMutex.ContentionReachable`).

## Model

| member | source | states |
|---|---|---|
| `ComponentDescriptor.DigestDeterminesContent` | pkg/signatures/digester.go:35-121 | Under an injective hash, equal resource digests mean equal measured content, across repositories, owners and access types. |
| `ComponentDescriptor.DigestErrors` | pkg/signatures/digester.go:35-121 | Which error keeps a resource without a digest: no access, an access type that is not supported, or content that is not there; and when it has one. |
| `ComponentDescriptor.HashExistsIff` | vendor/github.com/gardener/component-spec/bindings-go/apis/v2/signatures/normalise.go:84-180 | A descriptor can be hashed if and only if all references have complete digests and the resources have digests unless they have no access. |
| `Verify.CheckCdDigests` | pkg/commands/componentarchive/signature/verify/verify.go:121-182 | The two loops with their early returns compute the check specification, first every reference, then every resource, first error wins; a failing request can only turn that into an error. |
| `Verify.CheckReference` | pkg/commands/componentarchive/signature/verify/verify.go:122-151 | One reference passes exactly if it resolves, carries a complete digest of a known hasher, and the recomputed digest equals it. |
| `Verify.ReferenceChecked` | pkg/commands/componentarchive/signature/verify/verify.go:122-151 | A reference whose child can be recomputed passes if and only if its digest is the recomputed one; without a digest, or with another one, the error says so. |
| `Verify.CheckResource` | pkg/commands/componentarchive/signature/verify/verify.go:153-179 | One resource passes exactly if it has neither access nor digest, or the SHA-256 digest of the content behind its access with the normalisation of that access; spelled out for images, local blobs and S3 objects. A failing request can only make it an error. |
| `Verify.ImageChecked` | pkg/commands/componentarchive/signature/verify/verify.go:153-179 | An image that is there passes if and only if its digest is SHA-256, of the artifact normalisation, and the hash of its manifest. |
| `Verify.LocalBlobChecked` | pkg/commands/componentarchive/signature/verify/verify.go:153-179 | A local blob that is there passes if and only if its digest is SHA-256, of the blob normalisation, and the hash of its bytes. |
| `Verify.LeafChecked` | pkg/commands/componentarchive/signature/verify/verify.go:121-182 | A root without references passes if and only if every resource is attested. |
| `Verify.StoredDigestsIgnored` | pkg/commands/componentarchive/signature/verify/verify.go:184-245 | Whatever digests and signatures are stored below the root, the recursion computes the same digest. |
| `Verify.RecursivelyCheckCdsDigests` | pkg/commands/componentarchive/signature/verify/verify.go:184-245 | The recursion that overwrites stored digests in place yields the hash of the descriptor with all digests recomputed bottom-up, unless a request fails. |
| `Verify.DigestReference` | pkg/commands/componentarchive/signature/verify/verify.go:185-210 | The digest stored in a child reference is replaced, whatever it was, by the recomputed digest of the child. |
| `Verify.DigestResources` | pkg/commands/componentarchive/signature/verify/verify.go:212-238 | Every resource of a child gets the digest of its content in place of the untrusted one; the first failing resource ends the loop. |
| `Verify.DepthIrrelevant` | pkg/commands/componentarchive/signature/verify/verify.go:184-245 | A result reached within some recursion depth is the result for every larger depth. |
| `Verify.AcyclicReturns` | pkg/commands/componentarchive/signature/verify/verify.go:184-245 | If references go down in some rank, the recursion always returns. |
| `Merkle.ChildrenAgree` | pkg/commands/componentarchive/signature/verify/verify.go:184-245 | Equal recomputed digests mean equal normalised descriptors, equal content behind every resource, and equal digests one level down. |
| `Merkle.CheckedRoot` | pkg/commands/componentarchive/signature/verify/verify.go:121-182 | What a successful check establishes for each reference and resource of the root; in particular no root resource is excluded. |
| `Merkle.PathsAgree` | pkg/commands/componentarchive/signature/verify/verify.go:184-245 | Equality of views propagates along every path of references. |
| `Merkle.MerkleSoundness` | pkg/commands/componentarchive/signature/verify/verify.go:121-245 | If the check succeeds for root descriptors with equal signed digest in two repository states, then every path of references leads to the same normalised descriptor and the same resource content in both. |
| `Merkle.MeasureIsContent` | pkg/signatures/digester.go:56-121 | For image and local blob accesses that are not excluded, equal measure is equality of the bytes. |
| `Merkle.S3ContentUnchecked` | pkg/signatures/digester.go:123-163 | If two repository states differ only in the bytes of S3 objects, the check has the same outcome for every descriptor: the hasher sees no byte of the body, here and in everything that is referenced. |
| `Signing.RecursivelyAddDigestsToCd` | pkg/signatures/util.go:27-83 | The recursion returns the specified list (descriptors of all references in order, the component last) and registers a blob resolver for each; it fails exactly when the specification does, with the same error, or because a request fails; resolvers are registered properly in every case. |
| `Signing.AddReference` | pkg/signatures/util.go:30-58 | Resolving one reference: the child is digested recursively, its list is appended, and a stored digest that differs from the recomputed one is an error. |
| `Signing.AddToReferences` | vendor/github.com/gardener/component-spec/bindings-go/apis/v2/signatures/normalise.go:37-46 | The loop over the references stores each computed digest in place and appends each list in order. |
| `Signing.AddToResources` | vendor/github.com/gardener/component-spec/bindings-go/apis/v2/signatures/normalise.go:48-62 | The loop over the resources keeps excluded ones, compares stored digests and stores the computed ones in place. |
| `Signing.MarkSkipped` | pkg/signatures/util.go:65-75 | Resources of a skipped access type get the exclude notation, others stay; a nil access ends the run. |
| `Signing.ImageAdded` | vendor/github.com/gardener/component-spec/bindings-go/apis/v2/signatures/normalise.go:48-62 | An image gets the hash of its manifest as artifact digest; a stored digest that differs is a mismatch, an equal one stays. |
| `Signing.LocalBlobAdded` | vendor/github.com/gardener/component-spec/bindings-go/apis/v2/signatures/normalise.go:48-62 | The same for local blobs, with blob digests. |
| `Signing.DescriptorHash` | vendor/github.com/gardener/component-spec/bindings-go/apis/v2/signatures/normalise.go:84-180 | The hash of a descriptor is SHA-256, of the JSON normalisation, over its encoded normal form. |
| `Signing.ReferenceAdded` | pkg/signatures/util.go:30-58 | A reference gets the hash of the normalised digested child; a stored digest is a mismatch if and only if it differs. |
| `Signing.DigestedExists` | pkg/signatures/util.go:27-83 | If nothing is digested yet and everything is there, the recursion succeeds, and its result can be hashed and signed. |
| `Upload.PostOrder` | pkg/signatures/util.go:27-83 | The returned list puts every referenced component before its referrer and the root last. |
| `Upload.ReferenceShapes` | pkg/signatures/util.go:27-83 | Each reference keeps its identity and gets the hash of the digested child. |
| `Upload.ResourceShapes` | pkg/signatures/util.go:65-80 | Each resource keeps its access, is excluded exactly if its type is skipped or it was excluded, and otherwise carries the digest of its content. |
| `Upload.UploadCDPreservingLocalOciBlobs` | pkg/signatures/util.go:85-176 | An upload is skipped if the component is seen and it is not forced; otherwise, also if the existence check fails, it stores the descriptor with exactly the local blobs its resources name, or fails and leaves the target as it was, unless only the answer to the push is lost. |
| `Upload.PresentStaysIff` | pkg/signatures/util.go:86-93 | What is there before a successful upload of the same component stays if and only if the upload is not forced and the existence check works, or the contents are the same. |
| `SignAndUpload.SignatureNotHashed` | vendor/github.com/gardener/component-spec/bindings-go/apis/v2/signatures/normalise.go:84-180 | Adding a signature does not change the hash of a descriptor. |
| `SignAndUpload.SignedIsSigned` | vendor/github.com/gardener/component-spec/bindings-go/apis/v2/signatures/sign.go:25-43 | Signing keeps header, references and resources and appends one signature of the given name, over the SHA-256 hash of the normal form, which is also the hash of the result. |
| `SignAndUpload.AddingDepthIrrelevant` | pkg/signatures/util.go:27-83 | The outcome of the adding recursion does not depend on the depth bound. |
| `SignAndUpload.SameKeySameDescriptor` | pkg/signatures/util.go:27-83 | A component that several paths lead to is listed several times with the same content. |
| `SignAndUpload.SignAndUploadAll` | pkg/commands/componentarchive/signature/sign/sign.go:175-192 | After any number of uploads and under all faults, exactly the prefix of the list that took effect is stored, each descriptor with one more signature over its hash and with exactly its local blobs; what was present before is untouched unless its upload is forced or its existence check fails; a reference-closed target stays closed; and only an upload that cannot succeed ends the loop. |
| `SignAndUpload.SignAndUploadRecursively` | pkg/commands/componentarchive/signature/sign/sign.go:123-213 | For the whole run the same; the missing-resolver error never occurs; and if everything is there, nothing is digested yet and no request but existence checks fails, the run succeeds. |
| `SignAndUpload.Agreement` | pkg/commands/componentarchive/signature/verify/verify.go:184-245 | The checking recursion on an uploaded component computes the digest that the adding recursion computed. |
| `SignAndUpload.SignedUploadChecks` | pkg/commands/componentarchive/signature/verify/verify.go:121-182 | After a recursive run whose uploads were not skipped, the digest check of the uploaded root succeeds if and only if no resource of the root is excluded from the signature. |
| `CachePriority.ScanBounds` | ociclient/cache/filesystem.go:427-449 | In every visiting order the maxima bound all entries and the minima do not exceed the maxima. |
| `CachePriority.PriorityDefined` | ociclient/cache/filesystem.go:476-487 | The priority is a number or -Inf, never NaN or +Inf, although both quotients may divide by zero. |
| `CachePriority.MoreHitsAndNewerNeverBelow` | ociclient/cache/filesystem.go:427-487 | For every visiting order: at least as many hits and at least as late a creation never rank strictly below. |
| `CachePriority.RankedByWeights` | ociclient/cache/filesystem.go:476-487 | Between bounds that differ, one entry ranks below another if and only if three times its share of hits plus twice its share of age is smaller. |
| `CachePriority.BoundsReached` | ociclient/cache/filesystem.go:427-449 | The maxima are those of some entry; the minima are the least values if none is 0. |
| `CachePriority.LessIsStrictWeakOrder` | ociclient/cache/filesystem.go:464-487 | Less is irreflexive, asymmetric, transitive, and incomparability is equality of priorities. |
| `CachePriority.OrderIrrelevantIff` | ociclient/cache/filesystem.go:427-449 | Because 0 means unset: every visiting order yields the same bounds if and only if none or all of the hit counts are 0, and none or all of the creation times. |
| `CachePriority.RankingIndependentOfOrder` | ociclient/cache/filesystem.go:427-487 | Then every entry has the same priority in every order in which Go may visit the index. |
| `CachePriority.RankingDependsOnOrder` | ociclient/cache/filesystem.go:427-487 | Otherwise the ranking itself can differ: two visiting orders of the same four entries rank two of them both ways round. |
| `CachePriority.PriorityList` | ociclient/cache/filesystem.go:427-449 | The list is a permutation of the index without repeated names, sorted by the priorities of the visited bounds. |
| `CacheFilesystem.FileSystem.constructor` | ociclient/cache/filesystem.go:144-170 | Existing files are indexed and accounted exactly. |
| `CacheFilesystem.FileSystem.Create` | ociclient/cache/filesystem.go:216-230 | The file exists, its entry has this name, size and time and no hits, its size is added, and all other entries stay. |
| `CacheFilesystem.FileSystem.Remove` | ociclient/cache/filesystem.go:240-251 | A removal that succeeds takes file, entry and size; one that fails changes nothing. |
| `CacheFilesystem.FileSystem.DeleteAll` | ociclient/cache/filesystem.go:254-267 | Removes every file unless one removal fails; what stays accounted afterwards is what re-creations left behind. |
| `CacheFilesystem.FileSystem.OpenFile` | ociclient/cache/filesystem.go:232-238 | Opening a known name counts one hit, in total and since the last reset, and changes nothing else. |
| `CacheFilesystem.FileSystem.ResetHits` | ociclient/cache/filesystem.go:400-411 | Halves the hits of earlier intervals and keeps those of the last, for every entry. |
| `CacheFilesystem.FileSystem.RunGarbageCollection` | ociclient/cache/filesystem.go:293-327 | Below 85 percent nothing happens; otherwise the shortest prefix of a priority list is tried that brings usage to at most 80 percent, or all of it. |
| `CacheFilesystem.FileSystem.Sweep` | ociclient/cache/filesystem.go:316-326 | The loop stops at the first point where usage allows it, whatever removals fail. |
| `CacheFilesystem.VictimsRankLowest` | ociclient/cache/filesystem.go:293-327 | When removals succeed, exactly a prefix of the list is gone and no survivor ranks strictly below a victim. |
| `CacheFilesystem.NewRanksNotBelow` | ociclient/cache/filesystem.go:222-230 | In every visiting order a new file does not rank below an older one that was not read either. |
| `CacheFilesystem.CreateConserves` | ociclient/cache/filesystem.go:216-230 | Creation keeps accounted size = sum of the index + sizes of overwritten entries. |
| `CacheFilesystem.RemoveConserves` | ociclient/cache/filesystem.go:240-251 | Removal keeps that equation. |
| `CacheRuns.RunConserves` | ociclient/cache/filesystem.go:216-327 | In every interleaving of creations, removals, hits, resets, deletions and collections the equation holds in every state. |
| `CacheRuns.ExactWithoutRecreation` | ociclient/cache/filesystem.go:216-327 | In every run that never creates an indexed name, the accounted size is exactly the sum of the index. |
| `CacheRuns.LostExactly` | ociclient/cache/filesystem.go:216-327 | In every state of every run the accounted size exceeds the sum of the index by exactly the sizes of the entries that re-creations replaced so far. |
| `CacheRuns.ExactIff` | ociclient/cache/filesystem.go:216-327 | If none of these sizes is negative, the accounted size is the sum if and only if every replaced entry had size 0. |
| `CacheRuns.RecreationLeaks` | ociclient/cache/filesystem.go:216-327 | Between any two states the difference grows by exactly the sizes replaced in between, so it stays up after a re-creation unless entries of negative size are replaced later. |
| `CacheRuns.NewNamesSurvive` | ociclient/cache/filesystem.go:304-325 | A name created between the copy of the index and the sweep survives that sweep in every interleaving. |
| `CacheRuns.SweepEndsDone` | ociclient/cache/filesystem.go:316-326 | A sweep that ends has reached the low threshold or has tried every name of its copy. |
| `HitDecay.HitsBounded` | ociclient/cache/filesystem.go:386-411 | In every run the interval counter is exact and at most the hit count, and at most h hits per interval keep the hits below 3h. |
| `HitDecay.DecayAfterHits` | ociclient/cache/filesystem.go:400-411 | h hits and then k+1 resets leave floor(h / 2^k). |
| `BlobCache.LayeredCache.Get` | ociclient/cache/cache.go:117-241 | The exact outcome and the exact new state of both layers under every combination of faults; in particular a successful Get is an unread file of the right size and digest, from any state; without faults it succeeds exactly if a layer holds such a blob, and no other entry is disturbed. |
| `BlobCache.LayeredCache.Add` | ociclient/cache/cache.go:125-139 | Overwrites the base layer with what the reader yields, unverified. |
| `BlobCache.LayeredCache.Prune` | ociclient/cache/cache.go:149-151 | Removes a prefix of the listed files, all of them exactly if nothing fails; what can be read afterwards is exactly what the overlay holds and what is left. |
| `BlobCache.OverlayTransparent` | ociclient/cache/cache.go:153-241 | Whatever the overlay holds, it neither changes the bytes a lookup finds nor hides them. |
| `BlobCache.InMemoryCache.Add` | ociclient/cache/inmemory.go:39-50 | The first content added under a digest stays, and a store of right content stays one if right content is added. |
| `BlobCache.GetFetchReader` | ociclient/client.go:534-571 | A successful fetch through any cache yields what an uncached client would get, on hit, miss and failed add, under faults and eviction; without faults it yields exactly what cache and registry offer, which for the layered cache means under the exact size, and leaves it cached. |
| `BlobCache.FetchThroughLayered` | ociclient/client.go:534-571 | The same for the layered cache, where an eviction between Add and Get can only cause an error, and a failing Add does not fail the fetch. |
| `BlobCache.FetchThroughMemory` | ociclient/client.go:534-571 | The same for the in-memory cache, which stays consistent. |
| `ImageRef.ParseRendered` | ociclient/utils.go:52-70 | Parsing recovers repository and version of every well-formed reference, ports and tags in front of a digest included. |
| `ImageRef.ParseText` | ociclient/utils.go:52-70 | The same on the text of references: behind a repository a tag, a digest, or both. |
| `ImageRef.RejectedIff` | ociclient/utils.go:54-66 | Rejected are exactly references with a second @ and, without any, those with more than three parts between colons. |
| `ImageRef.PortIsPlain` | ociclient/utils.go:52-70 | The references that these results are about may have a host with a port in front of the path. |
| `ImageRef.ParsePlain` | ociclient/utils.go:52-70 | Of all references with a tag or digest exactly those with a second @ are rejected, and no other repository is ever found. |
| `ImageRef.UntaggedIsCut` | ociclient/utils.go:61-69 | Without tag or digest the parser finds the host in front of a port, or nothing, and never the repository. |
| `ImageRef.RepositoryFoundIff` | ociclient/utils.go:52-70 | The parser finds the repository that the user wrote if and only if there is an explicit tag or a digest without a second @. |
| `ImageCopy.Registries.PutManifest` | vendor/github.com/containerd/containerd/remotes/docker/pusher.go:309-326 | A manifest goes to its tag, or under its own digest if the reference names a digest. |
| `ImageCopy.PushContent` | ociclient/client.go:884-903 | Content is stored under its digest if it matches, once, and nothing else changes. |
| `ImageCopy.PushImageBlobs` | ociclient/client.go:320-350 | Config and layers are present afterwards and nothing else was added; for an unset config the empty object is stored instead. |
| `ImageCopy.PushLayers` | ociclient/client.go:346-350 | The layer loop stores all layers and nothing else, keeps the target closed at every point, and succeeds without faults if all layers can be fetched. |
| `ImageCopy.PushRawManifest` | ociclient/client.go:294-362 | An image is stored only after config and layers; an index is stored whether or not its manifests are there, and if they are, every intermediate state is closed; without host or repository nothing is written. |
| `ImageCopy.CopySubManifests` | ociclient/copy.go:29-53 | The manifests of an index are read from and written to the repositories that the parser finds in the two references. |
| `ImageCopy.CopyEach` | ociclient/copy.go:45-52 | The loop over the manifests of an index leaves every sub-graph complete in the target; a tag beside a digest ends at the last of them. |
| `ImageCopy.Copy` | ociclient/copy.go:19-60 | For references with tag, digest, both or neither: in every intermediate state and whatever request fails, no stored manifest lacks config, layers or sub-manifests; success means the whole graph is in the target, and for a non-empty index that the parser found a repository in both references; without faults every complete source is copied then. Spelled out for the four media types: config and layers of an image, all manifests of an index. |
| `ImageCopy.ImageTransferable` | ociclient/utils.go:78-90 | An OCI or Docker manifest whose config and layers are there with their sizes is copied without faults. |
| `ImageCopy.IndexTransferable` | ociclient/utils.go:78-90 | An OCI index or Docker manifest list whose manifests can be copied is copied without faults, if the parser finds both repositories. |
| `ImageCopy.UntaggedIsLatest` | ociclient/oci/ref.go:23-55 | A reference with neither tag nor digest is read at the tag latest. |
| `ImageCopy.PushCopied` | ociclient/copy.go:55-57 | The second half of a copy: with everything below in place the manifest completes the graph and sets the tag. |
| `ImageCopy.SameGraph` | ociclient/copy.go:16-18 | Two repositories that hold all of a manifest hold byte-identical graphs for it. |
| `ImageCopy.CopiedGraphIdentical` | ociclient/copy.go:16-60 | After a successful copy everything reachable from the target reference is byte-identical to what is reachable from the source reference. |
| `ComponentCopy.Copier.CopyOnce` | pkg/commands/componentarchive/remote/copy.go:238-415 | One attempt copies references first, then the component; any outcome keeps a closed target closed, and success means the whole closure is present. |
| `ComponentCopy.Copier.Store` | pkg/commands/componentarchive/remote/copy.go:255-414 | An existing component is skipped only if neither forced nor copied by value; otherwise what is stored mirrors the source with rewritten accesses and its local blobs, and nothing else changes. |
| `ComponentCopy.Copier.CopyReferences` | pkg/commands/componentarchive/remote/copy.go:246-253 | The loop over the references, with the same guarantees and its share of the attempts. |
| `ComponentCopy.Copier.Copy` | pkg/commands/componentarchive/remote/copy.go:417-437 | Through failures and retries every state of the target is closed; success means everything reachable is present, even below components that existed; a copyable source is copied unless more than MaxRetries requests fail. Without recursion the target stays closed if and only if nothing changed or all references of the component are there. |
| `ComponentCopy.Copier.Build` | pkg/commands/componentarchive/remote/copy.go:267-370 | The resource loop rewrites accesses to copies of the artifacts they named and collects exactly local blobs of the source. |
| `ComponentCopy.BytesKeptIff` | pkg/commands/componentarchive/remote/copy.go:295-370 | Every artifact that is copied by value keeps its bytes under its new reference, in every component, if and only if artifacts that share a target reference are the same. |
| `ComponentCopy.RewrittenKeepsBytes` | pkg/commands/componentarchive/remote/copy.go:295-370 | If they are, every rewritten access leads to the bytes of the artifact that the original access named, in every later state. |
| `ComponentCopy.TargetsCollideIff` | pkg/commands/componentarchive/remote/copy.go:439-460 | Two artifacts share a target if and only if they have the same version and their names differ only in the host or, if the host is kept, only in dots, colons and underscores. |
| `ComponentCopy.TargetIsBelow` | pkg/commands/componentarchive/remote/copy.go:439-460 | The target reference has the host and path of the target repository in front of the name, and the same version. |
| `ComponentCopy.WholeClosurePresent` | pkg/commands/componentarchive/remote/copy.go:246-253 | After success every component that any path of references leads to is in the target. |
| `ComponentCopy.AttemptsPerNode` | pkg/commands/componentarchive/remote/copy.go:420-434 | Seen from the root, the node at the end of a path of n nodes is attempted at most (MaxRetries+1)^n times. |
| `ComponentCopy.OneStoredClosedIff` | pkg/commands/componentarchive/remote/copy.go:246-414 | Storing one component keeps a closed target closed if and only if it changes nothing or all references of the component are there. |
| `CredentialTrie.SegmentsAreSplit` | ociclient/credentials/keyring.go:163-199 | Splitting and re-joining at every level sees the segments of one split, without an empty last one. |
| `CredentialTrie.LookupAfterSet` | ociclient/credentials/keyring.go:163-177 | One Set changes exactly the node of its path and creates exactly the nodes on the way. |
| `CredentialTrie.BuiltIsUnique` | ociclient/credentials/keyring.go:169-175 | After any sequence of Sets siblings have different segments. |
| `CredentialTrie.TrieEqualsFlat` | ociclient/credentials/keyring.go:163-199 | After any sequence of Sets a search yields, in insertion order, the addresses stored at the longest prefix that some stored path starts with. |
| `CredentialTrie.IndexNode.Set` | ociclient/credentials/keyring.go:163-177 | The tree in memory changes like the value, at any depth and for any number of addresses. |
| `CredentialTrie.IndexNode.Find` | ociclient/credentials/keyring.go:188-199 | The search in memory yields what the value says. |
| `CredentialTrie.IndexNode.FindSegment` | ociclient/credentials/keyring.go:179-186 | Finds the first child of a segment. |
| `Keyring.GeneralOciKeyring.AddAuthConfigGetter` | ociclient/credentials/keyring.go:289-299 | A getter goes behind those of its normalised address, and the index knows the address; a malformed address changes nothing. |
| `Keyring.GeneralOciKeyring.Get` | ociclient/credentials/keyring.go:235-260 | The first non-empty answer of the getters at the longest matching stored path, in order of insertion. |
| `Keyring.SameNodeSameAddress` | ociclient/credentials/keyring.go:347-356 | Normalised addresses that end at the same node are equal. |
| `Keyring.FirstAnswerConcat` | ociclient/credentials/keyring.go:245-256 | Of two lists of getters the second is asked only if the first has no answer. |
| `Keyring.FirstAnswerIs` | ociclient/credentials/keyring.go:245-256 | The answer is that of the first getter that returns a user name or an encoded form; without one there is none. |
| `KeyringBuilder.Build` | ociclient/credentials/builder.go:81-149 | Secrets in order, then files in order, auths before helpers; it succeeds if and only if every source can be read and every address has a normal form, and then holds normal forms only. |
| `KeyringBuilder.AddFile` | ociclient/credentials/builder.go:107-146 | One file adds its auths and then its helpers, an empty auth through the default store if there is one. |
| `KeyringBuilder.AcceptedIff` | ociclient/credentials/builder.go:84-146 | Secrets of another type or without configuration and files without a name are skipped; what is malformed or unreadable, and an address without a normal form, ends the run. |
| `KeyringBuilder.EarlierMapsWin` | ociclient/credentials/builder.go:81-149 | Of two groups of sources the earlier wins at the best matching node. |
| `KeyringBuilder.SecretsBeforeFiles` | ociclient/credentials/builder.go:81-149 | At the best matching node files are asked only if no secret has an answer. |
| `KeyringBuilder.OneAddress` | ociclient/credentials/builder.go:81-149 | One address in a secret, in a file and with a helper: the secret answers, else the entry of the file or the default store in its place, else the helper. |
| `KeyringBuilder.BuildOrderIrrelevant` | ociclient/credentials/builder.go:81-149 | Two runs over the same secrets and files whose maps have different normal forms answer every url alike, in whatever orders Go visits the maps. |
| `KeyringBuilder.VisitingOrderIrrelevant` | ociclient/credentials/builder.go:121-145 | The same for two logs of maps with the same items. |
| `KeyringBuilder.Merge` | ociclient/credentials/keyring.go:360-369 | Afterwards every node holds the first keyring's getters followed by the second's, whatever the visiting order. |
| `KeyringBuilder.FirstKeyringWins` | ociclient/credentials/keyring.go:358-369 | After a merge the keyring with the longer match answers, and on a tie the first one; the comment promises the second. |
| `ArtifactArchive.SerializeOCIArtifact` | pkg/transport/process/utils/oci_artifact_serialization.go:43-150 | Writes manifest, config and layers per image, index last; fails exactly if a blob cannot be read; every descriptor reads the same from the cache afterwards. |
| `ArtifactArchive.SerializeImage` | pkg/transport/process/utils/oci_artifact_serialization.go:115-150 | One manifest file, its config file, its layer files, in order. |
| `ArtifactArchive.ImageInArchive` | pkg/transport/process/utils/oci_artifact_serialization.go:115-150 | The files of an image in order, by name and content, if and only if all its blobs can be read. |
| `ArtifactArchive.DocumentInArchive` | pkg/transport/process/utils/oci_artifact_serialization.go:29-38 | manifest.json is the first file of an image, index.json the last of an index. |
| `ArtifactArchive.SerializeImageIndex` | pkg/transport/process/utils/oci_artifact_serialization.go:74-113 | One image after the other under the digest of its manifest, then the index with the recomputed descriptors in order. |
| `ArtifactArchive.CreateDescriptorFromManifest` | ociclient/client.go:867-882 | OCI manifest type, SHA-256 digest and size of the encoded manifest, with schema version 2 if there was none, and nothing else. |
| `ArtifactArchive.ReadTar` | pkg/transport/process/utils/oci_artifact_serialization.go:172-215 | The reader loop collects the document and its kind and stores exactly the blobs, or rejects an unknown or misnamed file. |
| `ArtifactArchive.ReadFileByName` | pkg/transport/process/utils/oci_artifact_serialization.go:178-213 | What a file is taken for by its name: a document, a blob, or an error. |
| `ArtifactArchive.DeserializeOCIArtifact` | pkg/transport/process/utils/oci_artifact_serialization.go:156-278 | Yields the artifact that document and stored blobs determine, or their error, whatever the archive holds. |
| `ArtifactArchive.GetKeepsLookups` | ociclient/cache/cache.go:153-241 | A successful, fault-free Get of the layered cache changes no lookup, of whatever digest algorithm. |
| `ArtifactRoundTrip.RoundTrip` | pkg/transport/process/utils/oci_artifact_serialization.go:43-278 | Reading what was written yields the same manifests in order with annotations, platform and URLs; config and layers of an image are readable from the other cache with the same bytes if and only if that cache is layered or they have SHA-256 digests or digests it held before. |
| `ArtifactRoundTrip.NormalIsNormal` | ociclient/client.go:867-882 | Normalisation changes at most schema versions, and is idempotent. |
| `ArtifactRoundTrip.SecondRoundTripIsIdentity` | pkg/transport/process/utils/oci_artifact_serialization.go:43-278 | A second round trip, from the cache the first one filled into any other, is the identity, if the first cache kept the blobs. |
| `ArtifactRoundTrip.MemoryKeys` | pkg/transport/process/utils/oci_artifact_serialization.go:196-209 | Blobs are stored under SHA-256 digests whatever they were named by: no other digest becomes readable from the in-memory cache. |
| `Schema1.ParseV1Manifest` | ociclient/manifest_v1_conversion.go:111-179 | History is the reversed input; layers and diff ids have equal length; the k-th item not marked empty stands for layers[k] and diffIDs[k]; too short a history is an index error, exactly then. Without faults it succeeds if and only if every entry decodes and every layer can be fetched and unpacked, through the layered cache only if there is none. |
| `Schema1.AlignedIsUnique` | ociclient/manifest_v1_conversion.go:111-179 | That description determines the result. |
| `Schema1.ConversionPreservesImage` | ociclient/manifest_v1_conversion.go:111-179 | Replaying the version 2 layers, each checked for size, media type and diff id, gives the file system of the schema 1 image replayed from the end with empty layers skipped. |
| `Schema1.CreateV2Config` | ociclient/manifest_v1_conversion.go:206-248 | The configuration is the newest history item without the six schema 1 keys and with root file system and history; a missing or null item is an error. |
| `Schema1.CreateV2Manifest` | ociclient/manifest_v1_conversion.go:182-203 | Digest and size describe the encoded manifest, which decodes to config and layers. |
| `Schema1.ConvertV1ManifestToV2` | ociclient/manifest_v1_conversion.go:71-108 | Through either cache: from the returned descriptor the cache alone leads to the manifest and the configuration of the aligned image. Without faults it succeeds if and only if the manifest can be fetched and decoded, the layers can be parsed, the newest item is an object, and there is a cache. |
| `TarWalk.Included` | pkg/commands/componentarchive/input/input.go:213-244 | The two search loops compute the selection, malformed patterns included. |
| `TarWalk.SelectedIff` | pkg/commands/componentarchive/input/input.go:213-244 | With well-formed patterns a path is included if and only if no exclude matches and there are no includes or one matches. |
| `TarWalk.TarFileSystem` | pkg/commands/componentarchive/input/input.go:246-256 | The archive of a directory has exactly the entries of the specification, in order, or there is an error. |
| `TarWalk.AnyMatchExact` | pkg/commands/componentarchive/input/input.go:219-242 | The first pattern that matches or is malformed decides. |
| `TarWalk.DirectoriesFirst` | pkg/commands/componentarchive/input/input.go:275-300 | Every included directory on the path of an entry comes before the entry. |
| `TarWalk.AddFileToTar` | pkg/commands/componentarchive/input/input.go:258-335 | The function that calls itself from inside a walk appends what the specification says, or fails with its error. |
| `TarWalk.Walk` | vendor/github.com/mandelsoft/vfs/pkg/vfs/walk.go:47-88 | The walk calls back for every entry at every depth, directories before their content, excluded directories too. |
| `TarWalk.MultiplicityLaw` | pkg/commands/componentarchive/input/input.go:258-321 | An included file or directory is written exactly 2^k times, where k is the number of included directories strictly between it and the root; everything else never. |
| `TarWalk.ExtractionIsExact` | pkg/commands/componentarchive/input/input.go:258-321 | Unpacking yields exactly the included paths with their contents, even below an excluded directory. |
| `TarWalk.PacksIff` | pkg/commands/componentarchive/input/input.go:258-335 | Packing succeeds if and only if no included entry is of an unsupported type and no pattern met is malformed, also below excluded directories. |
| `KeyMutex.MutualExclusion` | ociclient/utils/keymutex/keymutex.go:33-59 | If only holders unlock and keys are removed only while unheld, at most one goroutine holds a key in every run, and no unlocked mutex is unlocked. |
| `KeyMutex.WedgedForever` | ociclient/utils/keymutex/keymutex.go:33-43 | A goroutine that waits in Lock for a held key keeps the outer mutex for ever: in every continuation no Lock, Unlock or Remove completes. |
| `KeyMutex.ContentionWedges` | ociclient/utils/keymutex/keymutex.go:33-43 | So the first Lock of a held key that gets behind the outer mutex ends all progress. |
| `KeyMutex.ContentionReachable` | ociclient/utils/keymutex/keymutex.go:33-43 | Two goroutines that lock one key get there from the initial state. |
| `KeyMutex.StepLockedAreHeld` | ociclient/utils/keymutex/keymutex.go:33-59 | Every step keeps that a locked mutex belongs to a key which some goroutine holds. |
| `KeyMutex.ProgressIff` | ociclient/utils/keymutex/keymutex.go:33-59 | In every state of every disciplined run the goroutine behind the outer mutex can leave it if and only if it is not in Lock for a held key, apart from a Remove that the rules forbid. |
| `KeyMutex.RulesNeeded` | ociclient/utils/keymutex/keymutex.go:46-59 | If either rule is dropped, a run lets two goroutines hold one key. |

## Left out

- HTTP, resolvers, authentication flows, paging, the RSA and X.509 cryptography, the signing server and cobra commands: network, library and wrapper code.
- Byte formats of JSON, YAML, tar and gzip: encoders and decoders are functions that invert each other.
- A component repository that holds a descriptor under another name or version than its own: the upload results assume well-filed sources, and the effective repository context of a descriptor is the repository it was resolved from.
- Blob resolvers keyed by the string "name:version": the model keys them by the pair.
- The component archive as input of a signing run, and signing without recursion.
- Registries that share manifests or S3 objects with the target of a signing run: the target has its own components and the same images and objects behind its accesses.
- Configured thresholds of the garbage collector: the code tests its constants, and so does the model.
- Rounding of floating-point quotients, and integers beyond 64 bits: reals and unbounded integers; sizes may be negative, times are counted from Go's zero time.
- Machine-level data races in the cache: methods and critical sections are atomic steps; the loop of the hit reset is one step.
- Cache accounting and cache content together: `CacheFilesystem` has sizes and names, `BlobCache` has contents.
- ImageCopy.Copy: references with a protocol, and pushes to a reference without a host, which fail in the model while containerd takes a bare name for a host; schema 1 sources count as an unsupported media type, and the media type of a manifest is a function of its bytes.
- Configs and layers that carry the media type of a manifest, and pushes of another digest than the target reference names: `ImageCopy.CopiedGraphIdentical` asks for the digest of the source.
- Building references and parsing digests in component copies, relative references written back, replace expressions for artifact references, and the waiting time between retries.
- ComponentCopy.Copier.CopyArtifact: one step that succeeds or fails; `ImageCopy` models what happens inside.
- A fault in the existence check of a component copy makes the code overwrite an existing component; the model has this, and the guarantee that existing components stay untouched is for runs without faults.
- Parsing of docker references in front of a keyring lookup, the fallback for the old Docker Hub domain, user and password access.
- Native credential stores configured inside a pull secret: a secret has plain auths only.
- ArtifactArchive.SerializeOCIArtifact: the schema version that it fills in also changes the caller's artifact; the model works on values. I/O faults of the temporary files and caches end the call and are not modelled.
- ArtifactArchive.DeserializeOCIArtifact: blobs of a failed read stay in the cache unstated.
- Schema1.ConvertV1ManifestToV2: without a cache the program ends in a nil dereference, the model in an error; the media type of the source manifest is checked by its callers.
- ComponentCopy.RewrittenKeepsBytes: artifacts are bytes behind a reference; `ImageCopy` copies their graphs.
- ComponentCopy.TargetsCollideIff: about parsed references; the parser also maps different spellings of one image, such as a short name and its full form, to the same parsed reference.
- KeyringBuilder.BuildOrderIrrelevant: asks for different normal forms within each map; if two keys of a map have the same one, the visiting order may decide.
- Followed symlinks and a preserved root directory in archives, header fields other than names, and I/O errors of the walk.
- Extension executables, image vectors, transport filters, templates, metrics and logging.
