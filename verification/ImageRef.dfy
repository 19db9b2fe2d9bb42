/** Image references and the parser that Copy applies to them (ParseImageRef in ociclient/utils.go). */
module ImageRef {
  import opened Common
  import opened Oci
  import opened Strings

  /** A reference with a digest may also carry a tag. */
  datatype Ref = ByTag(repo: string, tag: string) | ByDigest(repo: string, extraTag: Option<string>, digest: Digest)

  function DigestString(d: Digest): string {
    d.algorithm + ":" + d.encoded
  }

  /** What stands in front of the version. */
  function RepoText(r: Ref): string {
    if r.ByDigest? && r.extraTag.Some? then r.repo + ":" + r.extraTag.value else r.repo
  }

  function Version(r: Ref): string {
    match r
    case ByTag(_, tag) => tag
    case ByDigest(_, _, digest) => DigestString(digest)
  }

  function Render(r: Ref): string {
    RepoText(r) + (if r.ByTag? then ":" else "@") + Version(r)
  }

  /** A host and a path. Only a port stands behind a colon: nothing but a host before it, and a path behind it. */
  predicate PlainRepo(repo: string) {
    && '@' !in repo
    && var parts := Split(repo, ':'); |parts| <= 2 && (|parts| == 2 ==> '/' !in parts[0] && '/' in parts[1])
  }

  predicate PlainTag(tag: string) {
    '@' !in tag && ':' !in tag && '/' !in tag
  }

  predicate Plain(r: Ref) {
    && PlainRepo(r.repo)
    && (r.ByTag? ==> PlainTag(r.tag))
    && (r.ByDigest? && r.extraTag.Some? ==> PlainTag(r.extraTag.value))
  }

  /** A digest may come from a manifest and hold anything; the parser rejects one with a second '@'. */
  predicate Parses(r: Ref) {
    r.ByDigest? ==> '@' !in DigestString(r.digest)
  }

  predicate WellFormed(r: Ref) {
    Plain(r) && Parses(r) && r.repo != ""
  }

  /** Reading completes a short name by the default registry, but pushing asks for a host and a path. */
  predicate Pushable(r: Ref) {
    WellFormed(r) && '/' in r.repo
  }

  /** The same repository and tag, with the digest of a sub-manifest: what Copy makes of the parsed repository. */
  function Below(r: Ref, digest: Digest): Ref {
    ByDigest(r.repo, if r.ByDigest? then r.extraTag else None, digest)
  }

  lemma BelowText(r: Ref, digest: Digest)
    ensures Render(Below(r, digest)) == RepoText(r) + "@" + DigestString(digest)
    ensures Plain(r) ==> Plain(Below(r, digest))
  {
  }

  function ParseImageRef(ref: string): Result<(string, string), ()> {
    if '@' in ref then
      var parts := Split(ref, '@');
      if |parts| != 2 then Err(()) else Ok((parts[0], parts[1]))
    else
      var parts := Split(ref, ':');
      if |parts| > 3 then Err(())
      else Ok((Join(parts[..|parts| - 1], ':'), parts[|parts| - 1]))
  }

  /** Parsing recovers repository and version of every well-formed reference, ports and additional tags included. */
  lemma ParseRendered(r: Ref)
    requires Plain(r) && Parses(r)
    ensures ParseImageRef(Render(r)) == Ok((RepoText(r), Version(r)))
  {
    if r.ByTag? {
      SplitAtTag(r.repo, r.tag);
    } else {
      SplitAtDigest(r);
      SplitNone(Version(r), '@');
    }
  }

  /** The same on the text: a tag, a digest, or a tag and a digest behind a repository. */
  lemma ParseText(repo: string, tag: string, algorithm: string, encoded: string)
    requires PlainRepo(repo) && PlainTag(tag) && '@' !in algorithm && '@' !in encoded
    ensures ParseImageRef(repo + ":" + tag) == Ok((repo, tag))
    ensures ParseImageRef(repo + "@" + (algorithm + ":" + encoded)) == Ok((repo, algorithm + ":" + encoded))
    ensures ParseImageRef(repo + ":" + tag + "@" + (algorithm + ":" + encoded)) ==
      Ok((repo + ":" + tag, algorithm + ":" + encoded))
  {
    var d := Digest(algorithm, encoded);
    SplitAtTag(repo, tag);
    ParseRendered(ByDigest(repo, None, d));
    ParseRendered(ByDigest(repo, Some(tag), d));
  }

  /** What the parser rejects: a second '@', or without any, a fourth part between colons. */
  lemma RejectedIff(ref: string)
    ensures ParseImageRef(ref).Err? <==> if '@' in ref then |Split(ref, '@')| != 2 else |Split(ref, ':')| >= 4
  {
  }

  /** A repository may have a port. */
  lemma PortIsPlain(host: string, port: string, path: string)
    requires '@' !in host + port + path && ':' !in host + port + path && '/' !in host
    ensures PlainRepo(host + ":" + (port + "/" + path))
  {
    var rest := port + "/" + path;
    assert rest[|port|] == '/';
    assert ':' !in rest && '@' !in rest;
    assert forall x :: x in host || x in port || x in path ==> x in host + port + path;
    assert host + ":" + rest == host + [':'] + rest;
    SplitPrefix(host, rest, ':');
    SplitNone(rest, ':');
  }

  lemma SplitAtTag(repo: string, tag: string)
    requires PlainRepo(repo) && PlainTag(tag)
    ensures ParseImageRef(repo + ":" + tag) == Ok((repo, tag))
  {
    assert repo + ":" + tag == repo + ([':'] + tag);
    SplitConcat(repo, tag, ':');
    SplitNone(tag, ':');
    var parts := Split(repo + ":" + tag, ':');
    assert parts[..|parts| - 1] == Split(repo, ':');
    JoinSplit(repo, ':');
  }

  lemma SplitAtDigest(r: Ref)
    requires Plain(r) && r.ByDigest?
    ensures '@' in Render(r) && Split(Render(r), '@') == [RepoText(r)] + Split(Version(r), '@')
  {
    assert Render(r) == RepoText(r) + ['@'] + Version(r);
    assert Render(r)[|RepoText(r)|] == '@';
    SplitPrefix(RepoText(r), Version(r), '@');
  }

  /** Of the plain references the parser rejects exactly those with a second '@', and it finds no other repository. */
  lemma ParsePlain(r: Ref)
    requires Plain(r)
    ensures ParseImageRef(Render(r)).Ok? <==> Parses(r)
    ensures ParseImageRef(Render(r)).Ok? ==> ParseImageRef(Render(r)).value.0 == RepoText(r)
  {
    if Parses(r) {
      ParseRendered(r);
    } else {
      SplitAtDigest(r);
      SplitSome(Version(r), '@');
    }
  }

  /** What a user may write: a repository alone, or with an explicit tag or digest. */
  datatype Written = Untagged(repo: string) | Explicit(ref: Ref)

  predicate PlainWritten(w: Written) {
    match w
    case Untagged(repo) => PlainRepo(repo) && repo != ""
    case Explicit(r) => Plain(r)
  }

  function Text(w: Written): string {
    match w
    case Untagged(repo) => repo
    case Explicit(r) => Render(r)
  }

  /** What a client reads: the tag `latest` unless told otherwise. */
  function Reading(w: Written): Ref {
    match w
    case Untagged(repo) => ByTag(repo, "latest")
    case Explicit(r) => r
  }

  /** Where a client pushes manifest `d`: without tag or digest, under the digest of the manifest. */
  function Pushing(w: Written, d: Digest): Ref {
    match w
    case Untagged(repo) => ByDigest(repo, None, d)
    case Explicit(r) => r
  }

  /** Where Copy looks for sub-manifests and puts them: in the repository that the parser finds. */
  function Parsed(w: Written): Ref {
    match w
    case Untagged(repo) => ByTag(Cut(repo), "latest")
    case Explicit(r) => r
  }

  function WrittenRepo(w: Written): string {
    match w
    case Untagged(repo) => repo
    case Explicit(r) => RepoText(r)
  }

  /** The host of a repository that names a port. */
  function Cut(repo: string): string {
    if ':' in repo then Split(repo, ':')[0] else ""
  }

  /** A repository alone is cut: at its port, or altogether. */
  lemma UntaggedIsCut(repo: string)
    requires PlainRepo(repo) && repo != ""
    ensures ParseImageRef(repo).Ok?
    ensures ParseImageRef(repo).value.0 == Cut(repo) != repo
    ensures PlainRepo(Cut(repo)) && '/' !in Cut(repo)
  {
    var parts := Split(repo, ':');
    if ':' in repo {
      SplitSome(repo, ':');
      SplitParts(repo, ':');
      assert parts[..1] == [parts[0]];
      assert ':' !in parts[0];
      SplitNone(parts[0], ':');
      JoinSplit(repo, ':');
      assert repo == parts[0] + ([':'] + Join(parts[1..], ':'));
      assert parts[0] <= repo;
    } else {
      SplitNone(repo, ':');
    }
  }

  /** What the parser makes of a reference as the user wrote it. A host alone is no place to push to. */
  lemma ParseWritten(w: Written)
    requires PlainWritten(w)
    ensures Plain(Parsed(w)) && (w.Untagged? ==> '/' !in Parsed(w).repo)
    ensures ParseImageRef(Text(w)).Ok? <==> Parses(Parsed(w))
    ensures ParseImageRef(Text(w)).Ok? ==> ParseImageRef(Text(w)).value.0 == RepoText(Parsed(w))
  {
    match w
    case Untagged(repo) => UntaggedIsCut(repo);
    case Explicit(r) => ParsePlain(r);
  }

  /** The repository is found exactly if the reference has an explicit tag or an acceptable digest. */
  lemma RepositoryFoundIff(w: Written)
    requires PlainWritten(w)
    ensures (ParseImageRef(Text(w)).Ok? && ParseImageRef(Text(w)).value.0 == WrittenRepo(w)) <==>
      w.Explicit? && Parses(w.ref)
  {
    match w
    case Untagged(repo) => UntaggedIsCut(repo);
    case Explicit(r) => ParsePlain(r);
  }
}
