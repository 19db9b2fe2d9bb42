/**
  What the adding recursion lists, and uploading one signed descriptor with its local blobs
  (UploadCDPreservingLocalOciBlobs in pkg/signatures/util.go).
 */
module Upload {
  import opened Common
  import opened ComponentDescriptor
  import opened Signing

  /** A repository that uploads change. */
  class Registry {
    var repo: Repo

    constructor (repo: Repo)
      ensures this.repo == repo
    {
      this.repo := repo;
    }
  }

  /** No component is stored without the components it references. */
  ghost predicate Closed(repo: Repo) {
    forall key, i :: key in repo.components && 0 <= i < |repo.components[key].cd.references| ==>
      repo.components[key].cd.references[i].id.component in repo.components
  }

  // ---------- post-order ----------

  ghost predicate Precedes(cds: seq<Descriptor>, j: nat, key: Key)
    requires j <= |cds|
  {
    exists m :: 0 <= m < j && cds[m].header.key == key
  }

  /** Every referenced component comes before the component that refers to it. */
  ghost predicate ReferencesFirst(cds: seq<Descriptor>) {
    forall j, i :: 0 <= j < |cds| && 0 <= i < |cds[j].references| ==>
      Precedes(cds, j, cds[j].references[i].id.component)
  }

  lemma ReferencesFirstConcat(a: seq<Descriptor>, b: seq<Descriptor>)
    requires ReferencesFirst(a) && ReferencesFirst(b)
    ensures ReferencesFirst(a + b)
  {
    forall j, i | 0 <= j < |a + b| && 0 <= i < |(a + b)[j].references|
      ensures Precedes(a + b, j, (a + b)[j].references[i].id.component)
    {
      var key := (a + b)[j].references[i].id.component;
      if j < |a| {
        assert Precedes(a, j, key);
        var m :| 0 <= m < j && a[m].header.key == key;
        assert (a + b)[m] == a[m];
      } else {
        assert Precedes(b, j - |a|, key);
        var m :| 0 <= m < j - |a| && b[m].header.key == key;
        assert (a + b)[|a| + m] == b[m];
      }
    }
  }

  /** What the adding recursion leaves in one resource `d` that was `res` before. */
  ghost predicate AddedTo(k: Crypto, repo: Repo, owner: Key, skip: set<AccessType>, res: Resource, d: Resource) {
    && res.access.Some?
    && d.access == res.access
    && (d.Excluded() <==> res.access.value.Type() in skip || res.Excluded())
    && (!d.Excluded() ==> DigestForResource(k, repo, owner, d, Sha256) == Ok(d.digest))
    && (res.access.value.Type() in skip ==>
          d.digest == Some(DigestSpec(NoDigest, ExcludeFromSignature, "NO-DIGEST")))
  }

  lemma ResourceShape(k: Crypto, repo: Repo, owner: Key, skip: set<AccessType>, res: Resource, d: Resource)
    requires SkipMarker(skip)(res).Ok?
    requires ResourceAdder(k, repo, owner)(SkipMarker(skip)(res).value) == Ok(d)
    ensures AddedTo(k, repo, owner, skip, res, d)
  {
  }

  lemma ResourceShapes(k: Crypto, repo: Repo, skip: set<AccessType>, cd: Descriptor, n: nat, d: Descriptor)
    requires Digested(k, repo, skip, cd, n) == Ok(d)
    ensures d.header == cd.header && |d.resources| == |cd.resources|
    ensures forall i :: 0 <= i < |cd.resources| ==>
      AddedTo(k, repo, cd.header.key, skip, cd.resources[i], d.resources[i])
  {
    var f, h := SkipMarker(skip), ResourceAdder(k, repo, cd.header.key);
    var marked := TryMap(f, cd.resources).value;
    TryMapOk(f, cd.resources, marked);
    TryMapOk(h, marked, d.resources);
    forall i | 0 <= i < |cd.resources|
      ensures AddedTo(k, repo, cd.header.key, skip, cd.resources[i], d.resources[i])
    {
      assert f(cd.resources[i]) == Ok(marked[i]) && h(marked[i]) == Ok(d.resources[i]);
      ResourceShape(k, repo, cd.header.key, skip, cd.resources[i], d.resources[i]);
    }
  }

  /** What the adding recursion leaves in one reference `d` that was `ref` before. */
  ghost predicate AddedToReference(k: Crypto, repo: Repo, skip: set<AccessType>, n: nat, ref: Reference, d: Reference) {
    && n > 0 && ref.id.component in repo.components
    && d.id == ref.id
    && var child := Digested(k, repo, skip, repo.components[ref.id.component].cd, n - 1);
       child.Ok? && HashForComponentDescriptor(k, child.value, Sha256).Ok?
       && d.digest == Some(HashForComponentDescriptor(k, child.value, Sha256).value)
  }

  lemma ReferenceShapes(k: Crypto, repo: Repo, skip: set<AccessType>, cd: Descriptor, n: nat, d: Descriptor)
    requires Digested(k, repo, skip, cd, n) == Ok(d)
    ensures d.header == cd.header && |d.references| == |cd.references|
    ensures forall i :: 0 <= i < |cd.references| ==>
      AddedToReference(k, repo, skip, n, cd.references[i], d.references[i])
  {
    var g := ReferenceAdder(k, repo, skip, n);
    TryMapOk(g, cd.references, d.references);
    forall i | 0 <= i < |cd.references|
      ensures AddedToReference(k, repo, skip, n, cd.references[i], d.references[i])
    {
      assert g(cd.references[i]) == Ok(d.references[i]);
    }
  }

  lemma PrecedesInLonger(front: seq<Descriptor>, rest: seq<Descriptor>, key: Key)
    requires Precedes(front, |front|, key)
    ensures Precedes(front + rest, |front + rest|, key)
  {
    var w :| 0 <= w < |front| && front[w].header.key == key;
    assert (front + rest)[w] == front[w];
  }

  /** What the prefix of the list for the first `i` references holds. */
  lemma {:induction false} ListedReferencesHold(
    k: Crypto, repo: Repo, skip: set<AccessType>, refs: seq<Reference>, n: nat, i: nat)
    requires WellFiled(repo) && i < |refs| && n > 0 && refs[i].id.component in repo.components
    requires Digested(k, repo, skip, repo.components[refs[i].id.component].cd, n - 1).Ok?
    ensures var l := ListedReferences(k, repo, skip, refs, n); Precedes(l, |l|, refs[i].id.component)
  {
    var m := |refs| - 1;
    var front, l := ListedReferences(k, repo, skip, refs[..m], n), ListedReferences(k, repo, skip, refs, n);
    if i < m {
      ListedReferencesHold(k, repo, skip, refs[..m], n, i);
      PrecedesInLonger(front, l[|front|..], refs[i].id.component);
    } else {
      var cd := repo.components[refs[i].id.component].cd;
      var d, added := Digested(k, repo, skip, cd, n - 1).value, Listed(k, repo, skip, cd, n - 1);
      ReferenceShapes(k, repo, skip, cd, n - 1, d);
      assert l == front + added && added[|added| - 1] == d;
      assert l[|l| - 1] == d;
    }
  }

  /** Post-order: the list puts every referenced component before its referrer, and the root last. */
  lemma {:induction false} PostOrder(k: Crypto, repo: Repo, skip: set<AccessType>, cd: Descriptor, n: nat)
    requires WellFiled(repo) && Digested(k, repo, skip, cd, n).Ok?
    ensures var l := Listed(k, repo, skip, cd, n);
      ReferencesFirst(l) && l != [] && l[|l| - 1] == Digested(k, repo, skip, cd, n).value
    decreases n, |cd.references| + 1
  {
    var d := Digested(k, repo, skip, cd, n).value;
    ReferenceShapes(k, repo, skip, cd, n, d);
    var front := ListedReferences(k, repo, skip, cd.references, n);
    PostOrderReferences(k, repo, skip, cd.references, n);
    forall j, i | 0 <= j < |front + [d]| && 0 <= i < |(front + [d])[j].references|
      ensures Precedes(front + [d], j, (front + [d])[j].references[i].id.component)
    {
      var key := (front + [d])[j].references[i].id.component;
      if j == |front| {
        assert AddedToReference(k, repo, skip, n, cd.references[i], d.references[i]);
        ListedReferencesHold(k, repo, skip, cd.references, n, i);
      }
      assert Precedes(front, j, key);
      var m :| 0 <= m < j && front[m].header.key == key;
      assert (front + [d])[m] == front[m];
    }
  }

  lemma {:induction false} PostOrderReferences(
    k: Crypto, repo: Repo, skip: set<AccessType>, refs: seq<Reference>, n: nat)
    requires WellFiled(repo)
    ensures ReferencesFirst(ListedReferences(k, repo, skip, refs, n))
    decreases n, |refs|
  {
    if refs != [] {
      var m := |refs| - 1;
      PostOrderReferences(k, repo, skip, refs[..m], n);
      var component := refs[m].id.component;
      var front := ListedReferences(k, repo, skip, refs[..m], n);
      if n > 0 && component in repo.components && Digested(k, repo, skip, repo.components[component].cd, n - 1).Ok? {
        var child := repo.components[component].cd;
        PostOrder(k, repo, skip, child, n - 1);
        ReferencesFirstConcat(front, Listed(k, repo, skip, child, n - 1));
      } else {
        assert front + [] == front;
      }
    }
  }

  // ---------- the upload of one component ----------

  function LocalBlob(layers: map<string, Bytes>): Resource -> Result<(), DigestError> {
    (res: Resource) =>
      if res.access == None then Err(NilAccess)
      else if res.access.value.LocalOciBlob? && res.access.value.digest !in layers then Err(NotFound)
      else Ok(())
  }

  predicate UsesBlob(ress: seq<Resource>, digest: string) {
    exists i :: 0 <= i < |ress| && ress[i].access == Some(LocalOciBlob(digest))
  }

  function LocalLayers(ress: seq<Resource>, blobs: map<string, Bytes>): map<string, Bytes> {
    map d | d in blobs && UsesBlob(ress, d) :: blobs[d]
  }

  /** Whether the existence check fails, whether the push fails, and whether a failing push is applied all the same. */
  datatype UploadFaults = UploadFaults(check: bool, push: bool, applied: bool)

  /** What an upload makes of the target, what it reports, and whether the target now is as it should be. */
  datatype Uploading = Uploading(repo: Repo, result: Result<(), DigestError>, done: bool)

  /**
    One upload: skipped if the component is seen and the upload is not forced, stored with its blobs otherwise. A
    failing existence check counts as "not there".
   */
  function Uploaded(
    source: Repo, target: Repo, cd: Descriptor, resolvers: map<Key, Key>, force: bool, faults: UploadFaults)
    : Uploading
    requires forall key :: key in resolvers ==> resolvers[key] in source.components
  {
    var key := cd.header.key;
    if !force && !faults.check && key in target.components then Uploading(target, Ok(()), true)
    else if key !in resolvers then Uploading(target, Err(NoBlobResolver), false)
    else
      var blobs := source.components[resolvers[key]].layers;
      match TryMap(LocalBlob(blobs), cd.resources)
      case Err(e) => Uploading(target, Err(e), false)
      case Ok(_) =>
        var stored := target.(components := target.components[key := Stored(cd, LocalLayers(cd.resources, blobs))]);
        if !faults.push then Uploading(stored, Ok(()), true)
        else Uploading(if faults.applied then stored else target, Err(PushFailed), faults.applied)
  }

  /**
    What is in the target before a successful upload of the same component stays there exactly if the existence check
    works and is made at all, or if it is the upload itself.
   */
  lemma PresentStaysIff(
    source: Repo, target: Repo, cd: Descriptor, resolvers: map<Key, Key>, force: bool, faults: UploadFaults)
    requires forall key :: key in resolvers ==> resolvers[key] in source.components
    requires cd.header.key in target.components && cd.header.key in resolvers
    ensures var u, blobs :=
        Uploaded(source, target, cd, resolvers, force, faults), source.components[resolvers[cd.header.key]].layers;
      u.result.Ok? ==>
        (u.repo == target <==>
          || (!force && !faults.check)
          || target.components[cd.header.key] == Stored(cd, LocalLayers(cd.resources, blobs)))
  {
    var key, u := cd.header.key, Uploaded(source, target, cd, resolvers, force, faults);
    if u.result.Ok? && (force || faults.check) {
      var stored := Stored(cd, LocalLayers(cd.resources, source.components[resolvers[key]].layers));
      assert u.repo.components[key] == stored;
      if target.components[key] == stored {
        assert target.components[key := stored] == target.components;
      }
    }
  }

  method UploadCDPreservingLocalOciBlobs(
    source: Repo, cd: Descriptor, target: Registry, resolvers: map<Key, Key>, force: bool, faults: UploadFaults)
    returns (r: Result<(), DigestError>)
    requires forall key :: key in resolvers ==> resolvers[key] in source.components
    modifies target
    ensures var u := Uploaded(source, old(target.repo), cd, resolvers, force, faults);
      r == u.result && target.repo == u.repo
  {
    var key := cd.header.key;
    if !force {
      if !faults.check && key in target.repo.components {
        return Ok(());
      }
    }
    if key !in resolvers {
      return Err(NoBlobResolver);
    }
    var blobs := source.components[resolvers[key]].layers;
    var layers: map<string, Bytes> := map[];
    ghost var f := LocalBlob(blobs);
    for i := 0 to |cd.resources|
      invariant target.repo == old(target.repo)
      invariant TryMap(f, cd.resources[..i]).Ok?
      invariant layers == LocalLayers(cd.resources[..i], blobs)
    {
      TryMapStep(f, cd.resources, i);
      var res := cd.resources[i];
      if res.access == None {
        return Err(NilAccess);
      }
      if res.access.value.LocalOciBlob? {
        var digest := res.access.value.digest;
        if digest !in blobs {
          return Err(NotFound);
        }
        layers := layers[digest := blobs[digest]];
      }
      UsesBlobStep(cd.resources, i);
    }
    assert cd.resources[..|cd.resources|] == cd.resources;
    if !faults.push || faults.applied {
      target.repo := target.repo.(components := target.repo.components[key := Stored(cd, layers)]);
    }
    r := if faults.push then Err(PushFailed) else Ok(());
  }

  lemma UsesBlobStep(ress: seq<Resource>, i: nat)
    requires i < |ress|
    ensures forall d ::
      UsesBlob(ress[..i + 1], d) <==> UsesBlob(ress[..i], d) || ress[i].access == Some(LocalOciBlob(d))
  {
    var a, b := ress[..i], ress[..i + 1];
    forall d
      ensures UsesBlob(b, d) <==> UsesBlob(a, d) || ress[i].access == Some(LocalOciBlob(d))
    {
      if UsesBlob(a, d) {
        var j :| 0 <= j < |a| && a[j].access == Some(LocalOciBlob(d));
        assert b[j] == a[j];
      }
      if UsesBlob(b, d) {
        var j :| 0 <= j < |b| && b[j].access == Some(LocalOciBlob(d));
        if j < i {
          assert a[j] == b[j];
        }
      }
      assert b[i] == ress[i];
    }
  }
}
