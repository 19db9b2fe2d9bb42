/** What two successful digest checks against two repository states say about each other. */
module Merkle {
  import opened Common
  import opened ComponentDescriptor
  import opened Verify

  /** The descriptor reached from `cd` along a path of reference positions. */
  function Follow(repo: Repo, cd: Descriptor, path: seq<nat>): Option<Descriptor>
    decreases |path|
  {
    if path == [] then
      Some(cd)
    else if path[0] < |cd.references| && cd.references[path[0]].id.component in repo.components then
      Follow(repo, repo.components[cd.references[path[0]].id.component].cd, path[1..])
    else
      None
  }

  /** Equal up to stored digests, signatures and accesses, with equal content behind every resource. */
  ghost predicate SameView(r1: Repo, c1: Descriptor, r2: Repo, c2: Descriptor) {
    && c1.header == c2.header
    && |c1.references| == |c2.references|
    && (forall i :: 0 <= i < |c1.references| ==> c1.references[i].id == c2.references[i].id)
    && |c1.resources| == |c2.resources|
    && (forall i :: 0 <= i < |c1.resources| ==>
          && c1.resources[i].id == c2.resources[i].id
          && Measure(r1, c1.header.key, c1.resources[i]).Some?
          && Measure(r1, c1.header.key, c1.resources[i]) == Measure(r2, c2.header.key, c2.resources[i]))
  }

  /** Both sides resolve reference `i`, and recompute the same digest for it. */
  ghost predicate SameChild(k: Crypto, r1: Repo, c1: Descriptor, n1: nat, r2: Repo, c2: Descriptor, n2: nat, i: nat)
    requires i < |c1.references| && i < |c2.references|
  {
    && n1 > 0 && n2 > 0
    && c1.references[i].id.component in r1.components
    && c2.references[i].id.component in r2.components
    && var d1 := ChildDigest(k, r1, r1.components[c1.references[i].id.component].cd, Sha256, n1 - 1);
       var d2 := ChildDigest(k, r2, r2.components[c2.references[i].id.component].cd, Sha256, n2 - 1);
       d1.Ok? && d1 == d2
  }

  lemma NormalFormsAgree(k: Crypto, a: Descriptor, b: Descriptor)
    requires Secure(k)
    requires HashForComponentDescriptor(k, a, Sha256).Ok?
    requires HashForComponentDescriptor(k, a, Sha256) == HashForComponentDescriptor(k, b, Sha256)
    ensures a.header == b.header
    ensures |a.references| == |b.references| && |a.resources| == |b.resources|
    ensures forall i :: 0 <= i < |a.references| ==>
      a.references[i].id == b.references[i].id && a.references[i].digest == b.references[i].digest
    ensures forall i :: 0 <= i < |a.resources| ==>
      a.resources[i].id == b.resources[i].id && a.resources[i].digest == b.resources[i].digest
  {
    var na, nb := Normal(a), Normal(b);
    assert na == nb;
    forall i | 0 <= i < |a.references|
      ensures a.references[i].id == b.references[i].id && a.references[i].digest == b.references[i].digest
    {
      assert na.references[i] == nb.references[i];
    }
    forall i | 0 <= i < |a.resources|
      ensures a.resources[i].id == b.resources[i].id && a.resources[i].digest == b.resources[i].digest
    {
      assert na.resources[i] == nb.resources[i];
    }
  }

  /** Equal digests of two components mean equal views, and equal digests one reference further down. */
  lemma ChildrenAgree(k: Crypto, r1: Repo, c1: Descriptor, n1: nat, r2: Repo, c2: Descriptor, n2: nat)
    requires Secure(k)
    requires ChildDigest(k, r1, c1, Sha256, n1).Ok?
    requires ChildDigest(k, r1, c1, Sha256, n1) == ChildDigest(k, r2, c2, Sha256, n2)
    ensures SameView(r1, c1, r2, c2)
    ensures forall i :: 0 <= i < |c1.references| ==> SameChild(k, r1, c1, n1, r2, c2, n2, i)
  {
    var d1 := Recomputed(k, r1, c1, n1);
    var d2 := Recomputed(k, r2, c2, n2);
    NormalFormsAgree(k, d1, d2);
    forall i | 0 <= i < |c1.resources|
      ensures Measure(r1, c1.header.key, c1.resources[i]).Some?
      ensures Measure(r1, c1.header.key, c1.resources[i]) == Measure(r2, c2.header.key, c2.resources[i])
    {
      DigestDeterminesContent(k, r1, c1.header.key, c1.resources[i], r2, c2.header.key, c2.resources[i]);
    }
  }

  /** The descriptor that `ChildDigest` hashes, element by element. */
  lemma Recomputed(k: Crypto, repo: Repo, cd: Descriptor, n: nat) returns (d: Descriptor)
    requires ChildDigest(k, repo, cd, Sha256, n).Ok?
    ensures ChildDigest(k, repo, cd, Sha256, n) == HashForComponentDescriptor(k, d, Sha256)
    ensures d.header == cd.header && |d.references| == |cd.references| && |d.resources| == |cd.resources|
    ensures forall i :: 0 <= i < |cd.references| ==>
      && n > 0 && cd.references[i].id.component in repo.components
      && var c := ChildDigest(k, repo, repo.components[cd.references[i].id.component].cd, Sha256, n - 1);
         c.Ok? && d.references[i] == cd.references[i].(digest := Some(c.value))
    ensures forall i :: 0 <= i < |cd.resources| ==>
      && DigestForResource(k, repo, cd.header.key, cd.resources[i], Sha256) == Ok(d.resources[i].digest)
      && d.resources[i].id == cd.resources[i].id
  {
    var f, g := ReferenceDigester(k, repo, n), ResourceDigester(k, repo, cd.header.key);
    var refs, ress := TryMap(f, cd.references).value, TryMap(g, cd.resources).value;
    TryMapOk(f, cd.references, refs);
    TryMapOk(g, cd.resources, ress);
    forall i | 0 <= i < |cd.references|
      ensures n > 0 && cd.references[i].id.component in repo.components
      ensures ChildDigest(k, repo, repo.components[cd.references[i].id.component].cd, Sha256, n - 1).Ok?
      ensures refs[i] == cd.references[i].(digest :=
          Some(ChildDigest(k, repo, repo.components[cd.references[i].id.component].cd, Sha256, n - 1).value))
    {
      assert f(cd.references[i]) == Ok(refs[i]);
    }
    forall i | 0 <= i < |cd.resources|
      ensures DigestForResource(k, repo, cd.header.key, cd.resources[i], Sha256) == Ok(ress[i].digest)
      ensures ress[i].id == cd.resources[i].id
    {
      assert g(cd.resources[i]) == Ok(ress[i]);
    }
    d := cd.(references := refs, resources := ress);
  }

  /** What a successful check of a root says about each of its references and resources. */
  lemma CheckedRoot(k: Crypto, repo: Repo, cd: Descriptor, n: nat)
    requires CheckDigests(k, repo, cd, n).Ok?
    ensures Normaliseable(cd)
    ensures forall i :: 0 <= i < |cd.references| ==>
      && n > 0 && cd.references[i].id.component in repo.components
      && var c := ChildDigest(k, repo, repo.components[cd.references[i].id.component].cd, Sha256, n - 1);
         c.Ok? && cd.references[i].digest == Some(c.value)
    ensures forall i :: 0 <= i < |cd.resources| ==>
      && !cd.resources[i].Excluded()
      && (!cd.resources[i].WithoutAccess() ==>
            DigestForResource(k, repo, cd.header.key, cd.resources[i], Sha256) == Ok(cd.resources[i].digest))
  {
    var f, g := ReferenceCheck(k, repo, n), ResourceCheck(k, repo, cd.header.key);
    TryMapOk(f, cd.references, TryMap(f, cd.references).value);
    TryMapOk(g, cd.resources, TryMap(g, cd.resources).value);
    forall i | 0 <= i < |cd.references|
      ensures Present(cd.references[i].digest)
      ensures n > 0 && cd.references[i].id.component in repo.components
      ensures ChildDigest(k, repo, repo.components[cd.references[i].id.component].cd, Sha256, n - 1).Ok?
      ensures cd.references[i].digest ==
          Some(ChildDigest(k, repo, repo.components[cd.references[i].id.component].cd, Sha256, n - 1).value)
    {
      assert f(cd.references[i]).Ok?;
    }
    forall i | 0 <= i < |cd.resources|
      ensures cd.resources[i].WithoutAccess() <==> cd.resources[i].digest == None
      ensures !cd.resources[i].Excluded()
      ensures !cd.resources[i].WithoutAccess() ==>
          DigestForResource(k, repo, cd.header.key, cd.resources[i], Sha256) == Ok(cd.resources[i].digest)
    {
      assert g(cd.resources[i]).Ok?;
    }
  }

  lemma RootsAgree(k: Crypto, r1: Repo, c1: Descriptor, n1: nat, r2: Repo, c2: Descriptor, n2: nat)
    requires Secure(k)
    requires CheckDigests(k, r1, c1, n1).Ok? && CheckDigests(k, r2, c2, n2).Ok?
    requires HashForComponentDescriptor(k, c1, Sha256) == HashForComponentDescriptor(k, c2, Sha256)
    ensures SameView(r1, c1, r2, c2)
    ensures forall i :: 0 <= i < |c1.references| ==> SameChild(k, r1, c1, n1, r2, c2, n2, i)
  {
    CheckedRoot(k, r1, c1, n1);
    CheckedRoot(k, r2, c2, n2);
    NormalFormsAgree(k, c1, c2);
    forall i | 0 <= i < |c1.resources|
      ensures Measure(r1, c1.header.key, c1.resources[i]).Some?
      ensures Measure(r1, c1.header.key, c1.resources[i]) == Measure(r2, c2.header.key, c2.resources[i])
    {
      if !c1.resources[i].WithoutAccess() {
        DigestDeterminesContent(k, r1, c1.header.key, c1.resources[i], r2, c2.header.key, c2.resources[i]);
      }
    }
  }

  lemma {:induction false} PathsAgree(
    k: Crypto, r1: Repo, c1: Descriptor, n1: nat, r2: Repo, c2: Descriptor, n2: nat, path: seq<nat>)
    requires Secure(k)
    requires SameView(r1, c1, r2, c2)
    requires forall i :: 0 <= i < |c1.references| ==> SameChild(k, r1, c1, n1, r2, c2, n2, i)
    ensures Follow(r1, c1, path).Some? <==> Follow(r2, c2, path).Some?
    ensures Follow(r1, c1, path).Some? ==>
      SameView(r1, Follow(r1, c1, path).value, r2, Follow(r2, c2, path).value)
    decreases |path|
  {
    hide Secure, ChildDigest;
    if path != [] && path[0] < |c1.references| {
      var i := path[0];
      assert SameChild(k, r1, c1, n1, r2, c2, n2, i);
      var d1, d2 := r1.components[c1.references[i].id.component].cd, r2.components[c2.references[i].id.component].cd;
      ChildrenAgree(k, r1, d1, n1 - 1, r2, d2, n2 - 1);
      PathsAgree(k, r1, d1, n1 - 1, r2, d2, n2 - 1, path[1..]);
    }
  }

  /**
    Soundness of verification. Two root descriptors with the same signed digest pass the check, each in its own
    repository state. Then along every path of references the two states hold the same descriptor, up to the
    untrusted parts, and every resource on the way leads to the same content.
   */
  lemma MerkleSoundness(
    k: Crypto, r1: Repo, c1: Descriptor, n1: nat, r2: Repo, c2: Descriptor, n2: nat, path: seq<nat>)
    requires Secure(k)
    requires CheckDigests(k, r1, c1, n1).Ok? && CheckDigests(k, r2, c2, n2).Ok?
    requires HashForComponentDescriptor(k, c1, Sha256) == HashForComponentDescriptor(k, c2, Sha256)
    ensures Follow(r1, c1, path).Some? <==> Follow(r2, c2, path).Some?
    ensures Follow(r1, c1, path).Some? ==>
      SameView(r1, Follow(r1, c1, path).value, r2, Follow(r2, c2, path).value)
  {
    RootsAgree(k, r1, c1, n1, r2, c2, n2);
    PathsAgree(k, r1, c1, n1, r2, c2, n2, path);
  }

  /**
    For accesses that are read at all, an equal measure is equal content: a local blob or an image manifest that is
    not excluded and is not an S3 object on either side holds the same bytes in both repositories.
   */
  lemma MeasureIsContent(r1: Repo, o1: Key, res1: Resource, r2: Repo, o2: Key, res2: Resource)
    requires Measure(r1, o1, res1).Some? && Measure(r1, o1, res1) == Measure(r2, o2, res2)
    requires !res1.Excluded() && res1.access.Some? && res2.access.Some?
    requires !res1.access.value.S3? && !res2.access.value.S3?
    ensures !res2.Excluded()
    ensures res1.access.value.OciRegistry? <==> res2.access.value.OciRegistry?
    ensures res1.access.value.LocalOciBlob? <==> res2.access.value.LocalOciBlob?
    ensures res1.access.value.OciRegistry? ==>
      r1.manifests[res1.access.value.imageReference] == r2.manifests[res2.access.value.imageReference]
    ensures res1.access.value.LocalOciBlob? ==>
      r1.components[o1].layers[res1.access.value.digest] == r2.components[o2].layers[res2.access.value.digest]
  {
  }

  /** Two repositories that differ at most in what their S3 objects hold. */
  predicate DifferInS3Bytes(r1: Repo, r2: Repo) {
    r1.components == r2.components && r1.manifests == r2.manifests && r1.s3.Keys == r2.s3.Keys
  }

  lemma SameResourceDigest(k: Crypto, r1: Repo, r2: Repo, owner: Key, res: Resource, alg: HashAlgorithm)
    requires DifferInS3Bytes(r1, r2)
    ensures DigestForResource(k, r1, owner, res, alg) == DigestForResource(k, r2, owner, res, alg)
  {
    if res.access.Some? && res.access.value.S3? {
      var at := (res.access.value.bucket, res.access.value.key);
      assert at in r1.s3 <==> at in r1.s3.Keys;
      assert at in r2.s3 <==> at in r2.s3.Keys;
    }
  }

  lemma {:induction false} ChildDigestIgnoresS3(
    k: Crypto, r1: Repo, r2: Repo, cd: Descriptor, alg: HashAlgorithm, n: nat)
    requires DifferInS3Bytes(r1, r2)
    ensures ChildDigest(k, r1, cd, alg, n) == ChildDigest(k, r2, cd, alg, n)
    decreases n
  {
    var f1, f2 := ReferenceDigester(k, r1, n), ReferenceDigester(k, r2, n);
    forall i | 0 <= i < |cd.references|
      ensures f1(cd.references[i]) == f2(cd.references[i])
    {
      if n > 0 && cd.references[i].id.component in r1.components {
        ChildDigestIgnoresS3(k, r1, r2, r1.components[cd.references[i].id.component].cd, Sha256, n - 1);
      }
    }
    TryMapSame(f1, f2, cd.references);
    var g1, g2 := ResourceDigester(k, r1, cd.header.key), ResourceDigester(k, r2, cd.header.key);
    forall i | 0 <= i < |cd.resources|
      ensures g1(cd.resources[i]) == g2(cd.resources[i])
    {
      SameResourceDigest(k, r1, r2, cd.header.key, cd.resources[i], Sha256);
    }
    TryMapSame(g1, g2, cd.resources);
  }

  /**
    What S3 objects hold is outside of the guarantee: for every descriptor the check has the same outcome whatever the
    bytes of the objects are, here and in everything it references.
   */
  lemma S3ContentUnchecked(k: Crypto, r1: Repo, r2: Repo, cd: Descriptor, n: nat)
    requires DifferInS3Bytes(r1, r2)
    ensures CheckDigests(k, r1, cd, n) == CheckDigests(k, r2, cd, n)
  {
    var f1, f2 := ReferenceCheck(k, r1, n), ReferenceCheck(k, r2, n);
    forall i | 0 <= i < |cd.references|
      ensures f1(cd.references[i]) == f2(cd.references[i])
    {
      var ref := cd.references[i];
      if n > 0 && ref.id.component in r1.components && ref.digest.Some? {
        ChildDigestIgnoresS3(
          k, r1, r2, r1.components[ref.id.component].cd, ref.digest.value.algorithm, n - 1);
      }
    }
    TryMapSame(f1, f2, cd.references);
    var g1, g2 := ResourceCheck(k, r1, cd.header.key), ResourceCheck(k, r2, cd.header.key);
    forall i | 0 <= i < |cd.resources|
      ensures g1(cd.resources[i]) == g2(cd.resources[i])
    {
      var res := cd.resources[i];
      if res.digest.Some? {
        SameResourceDigest(k, r1, r2, cd.header.key, res, res.digest.value.algorithm);
      }
    }
    TryMapSame(g1, g2, cd.resources);
  }
}
