/**
  Filling a keyring from secrets and config files (ociclient/credentials/builder.go), and merging two keyrings. The
  sources hold maps, which Go visits in any order; here a map is given as the list of its entries in the order in which
  one call visits them.
 */
module KeyringBuilder {
  import opened Common
  import opened CredentialTrie
  import opened Keyring
  import opened Strings

  datatype Secret = OtherType | WithoutConfig | MalformedSecret | DockerConfig(auths: seq<(string, Auth)>)

  datatype ConfigFile =
    | EmptyName
    | Unreadable
    | Malformed
    | Config(auths: seq<(string, Auth)>, helpers: seq<(string, string)>)

  /** The native store of the platform, if any, and what a credential helper answers for an address. */
  datatype Env = Env(defaultStore: string, native: (string, string) -> Option<Auth>)

  /** An address as configured, and the getter to be stored for it. */
  type Item = (string, Getter)

  function DefaultGetter(auth: Auth): Getter {
    (_: string) => Some(auth)
  }

  function HelperGetter(env: Env, helper: string, address: string): Getter {
    (_: string) => env.native(helper, address)
  }

  function FileGetter(env: Env, address: string, auth: Auth): Getter {
    if !IsEmptyAuthConfig(auth) || env.defaultStore == "" then DefaultGetter(auth)
    else HelperGetter(env, env.defaultStore, address)
  }

  function SecretItems(auths: seq<(string, Auth)>): seq<Item> {
    seq(|auths|, i requires 0 <= i < |auths| => (auths[i].0, DefaultGetter(auths[i].1)))
  }

  function AuthItems(env: Env, auths: seq<(string, Auth)>): seq<Item> {
    seq(|auths|, i requires 0 <= i < |auths| => (auths[i].0, FileGetter(env, auths[i].0, auths[i].1)))
  }

  function HelperItems(env: Env, helpers: seq<(string, string)>): seq<Item> {
    seq(|helpers|, i requires 0 <= i < |helpers| => (helpers[i].0, HelperGetter(env, helpers[i].1, helpers[i].0)))
  }

  /** The maps one source adds, in the order of their turn; `None` if it cannot be read. */
  type Source = Option<seq<seq<Item>>>

  function SecretSource(secret: Secret): Source {
    match secret
    case OtherType => Some([])
    case WithoutConfig => Some([])
    case MalformedSecret => None
    case DockerConfig(auths) => Some([SecretItems(auths)])
  }

  function FileSource(env: Env, file: ConfigFile): Source {
    match file
    case EmptyName => Some([])
    case Unreadable => None
    case Malformed => None
    case Config(auths, helpers) => Some([AuthItems(env, auths), HelperItems(env, helpers)])
  }

  function SecretSources(secrets: seq<Secret>): seq<Source> {
    seq(|secrets|, i requires 0 <= i < |secrets| => SecretSource(secrets[i]))
  }

  function FileSources(env: Env, files: seq<ConfigFile>): seq<Source> {
    seq(|files|, i requires 0 <= i < |files| => FileSource(env, files[i]))
  }

  /** The maps of a whole run. */
  function Maps(sources: seq<Source>): seq<seq<Item>> {
    if sources == [] then []
    else
      var last := sources[|sources| - 1];
      Maps(sources[..|sources| - 1]) + if last.Some? then last.value else []
  }

  function EntryFor(norm: Normalizer, item: Item): Entry {
    if NormalForm(norm, item.0).Some? then Entry(NormalForm(norm, item.0).value, item.1) else Entry("", item.1)
  }

  function BlockLog(norm: Normalizer, items: seq<Item>): seq<Entry> {
    seq(|items|, i requires 0 <= i < |items| => EntryFor(norm, items[i]))
  }

  function FullLog(norm: Normalizer, blocks: seq<seq<Item>>): seq<Entry> {
    if blocks == [] then [] else FullLog(norm, blocks[..|blocks| - 1]) + BlockLog(norm, blocks[|blocks| - 1])
  }

  predicate Normal(norm: Normalizer, items: seq<Item>) {
    forall i :: 0 <= i < |items| ==> NormalForm(norm, items[i].0).Some?
  }

  predicate AllNormal(norm: Normalizer, blocks: seq<seq<Item>>) {
    forall j :: 0 <= j < |blocks| ==> Normal(norm, blocks[j])
  }

  lemma FullLogStep(norm: Normalizer, blocks: seq<seq<Item>>, items: seq<Item>)
    ensures FullLog(norm, blocks + [items]) == FullLog(norm, blocks) + BlockLog(norm, items)
    ensures AllNormal(norm, blocks + [items]) <==> AllNormal(norm, blocks) && Normal(norm, items)
  {
    assert (blocks + [items])[..|blocks|] == blocks;
    if AllNormal(norm, blocks + [items]) {
      assert forall j :: 0 <= j < |blocks| ==> (blocks + [items])[j] == blocks[j];
      assert (blocks + [items])[|blocks|] == items;
    }
  }

  // ---------- the program ----------

  /** The keyring keeps its index, which may have grown by new nodes. */
  twostate predicate OnlyGrew(keyring: GeneralOciKeyring)
    reads keyring, keyring.index
  {
    && keyring.index == old(keyring.index)
    && old(keyring.index.repr) <= keyring.index.repr
    && fresh(keyring.index.repr - old(keyring.index.repr))
  }

  /** One map of a source. */
  method AddBlock(norm: Normalizer, keyring: GeneralOciKeyring, items: seq<Item>) returns (ok: bool)
    requires keyring.Valid() && Normalizes(norm)
    modifies keyring, keyring.index.repr
    ensures keyring.Valid() && OnlyGrew(keyring)
    ensures ok <==> Normal(norm, items)
    ensures ok ==> keyring.log == old(keyring.log) + BlockLog(norm, items)
  {
    ghost var before := keyring.log;
    assert before + BlockLog(norm, items[..0]) == before;
    for i := 0 to |items|
      invariant keyring.Valid() && OnlyGrew(keyring)
      invariant Normal(norm, items[..i])
      invariant keyring.log == before + BlockLog(norm, items[..i])
    {
      ok := keyring.AddAuthConfigGetter(norm, items[i].0, items[i].1);
      if !ok {
        return;
      }
      BlockLogStep(norm, items, i, before);
    }
    assert items[..|items|] == items;
    ok := true;
  }

  lemma BlockLogStep(norm: Normalizer, items: seq<Item>, i: nat, before: seq<Entry>)
    requires i < |items| && NormalForm(norm, items[i].0).Some? && Normal(norm, items[..i])
    ensures before + BlockLog(norm, items[..i]) + [Entry(NormalForm(norm, items[i].0).value, items[i].1)] ==
      before + BlockLog(norm, items[..i + 1])
    ensures Normal(norm, items[..i + 1])
  {
  }

  lemma {:induction false} FullLogConcat(norm: Normalizer, a: seq<seq<Item>>, b: seq<seq<Item>>)
    ensures FullLog(norm, a + b) == FullLog(norm, a) + FullLog(norm, b)
    ensures AllNormal(norm, a + b) <==> AllNormal(norm, a) && AllNormal(norm, b)
  {
    if b == [] {
      assert a + b == a;
    } else {
      var front, last := b[..|b| - 1], b[|b| - 1];
      assert a + b == (a + front) + [last] && b == front + [last];
      FullLogConcat(norm, a, front);
      FullLogStep(norm, a + front, last);
      FullLogStep(norm, front, last);
    }
  }

  predicate Accepted(norm: Normalizer, source: Source) {
    source.Some? && AllNormal(norm, source.value)
  }

  predicate AllAccepted(norm: Normalizer, sources: seq<Source>) {
    forall i :: 0 <= i < |sources| ==> Accepted(norm, sources[i])
  }

  /** Which sources end a run: what cannot be read or decoded, and addresses without a normal form. */
  lemma AcceptedIff(norm: Normalizer, env: Env, secret: Secret, file: ConfigFile)
    ensures Accepted(norm, SecretSource(secret)) <==>
      match secret
      case OtherType => true
      case WithoutConfig => true
      case MalformedSecret => false
      case DockerConfig(auths) => forall i :: 0 <= i < |auths| ==> NormalForm(norm, auths[i].0).Some?
    ensures Accepted(norm, FileSource(env, file)) <==>
      match file
      case EmptyName => true
      case Unreadable => false
      case Malformed => false
      case Config(auths, helpers) =>
        && (forall i :: 0 <= i < |auths| ==> NormalForm(norm, auths[i].0).Some?)
        && (forall i :: 0 <= i < |helpers| ==> NormalForm(norm, helpers[i].0).Some?)
  {
    if secret.DockerConfig? {
      OneBlock(norm, SecretItems(secret.auths));
      assert forall i :: 0 <= i < |secret.auths| ==> SecretItems(secret.auths)[i].0 == secret.auths[i].0;
    }
    if file.Config? {
      var a, h := AuthItems(env, file.auths), HelperItems(env, file.helpers);
      TwoBlocks(norm, a, h, []);
      assert forall i :: 0 <= i < |a| ==> a[i].0 == file.auths[i].0;
      assert forall i :: 0 <= i < |h| ==> h[i].0 == file.helpers[i].0;
    }
  }

  /** A keyring that held `before` holds this log after the first `i` sources, none of which ended the run. */
  ghost predicate Filled(norm: Normalizer, before: seq<Entry>, sources: seq<Source>, i: nat, log: seq<Entry>)
    requires i <= |sources|
  {
    AllAccepted(norm, sources[..i]) && log == before + FullLog(norm, Maps(sources[..i]))
  }

  /** One more source: it is either added, or ends the run. */
  lemma SourceStep(norm: Normalizer, sources: seq<Source>, i: nat, before: seq<Entry>, log: seq<Entry>)
    requires i < |sources| && Filled(norm, before, sources, i, log)
    ensures Accepted(norm, sources[i]) ==>
      Filled(norm, before, sources, i + 1, log + FullLog(norm, sources[i].value))
    ensures !Accepted(norm, sources[i]) ==> !AllAccepted(norm, sources)
  {
    assert sources[..i + 1][..i] == sources[..i];
    hide AllNormal, FullLog;
    if Accepted(norm, sources[i]) {
      FullLogConcat(norm, Maps(sources[..i]), sources[i].value);
      Associative(before, FullLog(norm, Maps(sources[..i])), FullLog(norm, sources[i].value));
    }
  }

  lemma FilledEnds(norm: Normalizer, sources: seq<Source>, before: seq<Entry>)
    ensures Filled(norm, before, sources, 0, before)
    ensures forall log :: Filled(norm, before, sources, |sources|, log) ==>
      AllAccepted(norm, sources) && log == before + FullLog(norm, Maps(sources))
  {
    assert sources[..|sources|] == sources;
  }

  lemma SecretSourceEach(secrets: seq<Secret>)
    ensures |SecretSources(secrets)| == |secrets|
    ensures forall i :: 0 <= i < |secrets| ==> SecretSources(secrets)[i] == SecretSource(secrets[i])
  {
  }

  lemma FileSourceEach(env: Env, files: seq<ConfigFile>)
    ensures |FileSources(env, files)| == |files|
    ensures forall i :: 0 <= i < |files| ==> FileSources(env, files)[i] == FileSource(env, files[i])
  {
  }

  method AddSecret(norm: Normalizer, keyring: GeneralOciKeyring, secret: Secret) returns (ok: bool)
    requires Normalizes(norm) && keyring.Valid()
    modifies keyring, keyring.index.repr
    ensures keyring.Valid() && OnlyGrew(keyring)
    ensures ok <==> Accepted(norm, SecretSource(secret))
    ensures ok ==> keyring.log == old(keyring.log) + FullLog(norm, SecretSource(secret).value)
  {
    assert FullLog(norm, []) == [] && keyring.log + [] == keyring.log;
    hide GeneralOciKeyring.Valid, Normalizes, FullLog, BlockLog, SecretItems, AllNormal, Normal;
    match secret {
    case DockerConfig(auths) =>
      OneBlock(norm, SecretItems(auths));
      ok := AddBlock(norm, keyring, SecretItems(auths));
    case MalformedSecret => ok := false;
    case OtherType => ok := true;
    case WithoutConfig => ok := true;
    }
  }

  /** One file: the auths, then the helpers. */
  method AddFile(norm: Normalizer, env: Env, keyring: GeneralOciKeyring, file: ConfigFile) returns (ok: bool)
    requires Normalizes(norm) && keyring.Valid()
    modifies keyring, keyring.index.repr
    ensures keyring.Valid() && OnlyGrew(keyring)
    ensures ok <==> Accepted(norm, FileSource(env, file))
    ensures ok ==> keyring.log == old(keyring.log) + FullLog(norm, FileSource(env, file).value)
  {
    assert FullLog(norm, []) == [] && keyring.log + [] == keyring.log;
    hide GeneralOciKeyring.Valid, Normalizes, FullLog, BlockLog, AuthItems, HelperItems, AllNormal, Normal;
    match file {
    case EmptyName => ok := true;
    case Unreadable => ok := false;
    case Malformed => ok := false;
    case Config(auths, helpers) =>
      TwoBlocks(norm, AuthItems(env, auths), HelperItems(env, helpers), keyring.log);
      ok := AddBlock(norm, keyring, AuthItems(env, auths));
      if ok {
        ok := AddBlock(norm, keyring, HelperItems(env, helpers));
      }
    }
  }

  lemma OneBlock(norm: Normalizer, items: seq<Item>)
    ensures AllNormal(norm, [items]) <==> Normal(norm, items)
    ensures FullLog(norm, [items]) == BlockLog(norm, items)
  {
    FullLogStep(norm, [], items);
    assert [] + [items] == [items];
  }

  lemma TwoBlocks(norm: Normalizer, a: seq<Item>, h: seq<Item>, before: seq<Entry>)
    ensures AllNormal(norm, [a, h]) <==> Normal(norm, a) && Normal(norm, h)
    ensures before + FullLog(norm, [a, h]) == (before + BlockLog(norm, a)) + BlockLog(norm, h)
  {
    FullLogStep(norm, [], a);
    FullLogStep(norm, [a], h);
    assert [] + [a] == [a] && [a] + [h] == [a, h];
    assert FullLog(norm, [a]) == BlockLog(norm, a);
    Associative(before, BlockLog(norm, a), BlockLog(norm, h));
  }

  method AddSecrets(norm: Normalizer, keyring: GeneralOciKeyring, secrets: seq<Secret>) returns (ok: bool)
    requires Normalizes(norm) && keyring.Valid()
    modifies keyring, keyring.index.repr
    ensures keyring.Valid() && OnlyGrew(keyring)
    ensures ok <==> AllAccepted(norm, SecretSources(secrets))
    ensures ok ==> keyring.log == old(keyring.log) + FullLog(norm, Maps(SecretSources(secrets)))
  {
    ghost var before, sources := keyring.log, SecretSources(secrets);
    SecretSourceEach(secrets);
    FilledEnds(norm, sources, before);
    hide GeneralOciKeyring.Valid, Normalizes, Filled, AllAccepted, Accepted, FullLog, Maps, SecretSources, SecretSource;
    for i := 0 to |secrets|
      invariant keyring.Valid() && OnlyGrew(keyring)
      invariant Filled(norm, before, sources, i, keyring.log)
    {
      SourceStep(norm, sources, i, before, keyring.log);
      ok := AddSecret(norm, keyring, secrets[i]);
      if !ok {
        return;
      }
    }
    ok := true;
  }

  method AddFiles(norm: Normalizer, env: Env, keyring: GeneralOciKeyring, files: seq<ConfigFile>) returns (ok: bool)
    requires Normalizes(norm) && keyring.Valid()
    modifies keyring, keyring.index.repr
    ensures keyring.Valid() && OnlyGrew(keyring)
    ensures ok <==> AllAccepted(norm, FileSources(env, files))
    ensures ok ==> keyring.log == old(keyring.log) + FullLog(norm, Maps(FileSources(env, files)))
  {
    ghost var before, sources := keyring.log, FileSources(env, files);
    FileSourceEach(env, files);
    FilledEnds(norm, sources, before);
    hide GeneralOciKeyring.Valid, Normalizes, Filled, AllAccepted, Accepted, FullLog, Maps, FileSources, FileSource;
    for i := 0 to |files|
      invariant keyring.Valid() && OnlyGrew(keyring)
      invariant Filled(norm, before, sources, i, keyring.log)
    {
      SourceStep(norm, sources, i, before, keyring.log);
      ok := AddFile(norm, env, keyring, files[i]);
      if !ok {
        return;
      }
    }
    ok := true;
  }

  /**
    Secrets first, then files, each in the given order. The keyring exists exactly if every source could be read and
    every address has a normal form.
   */
  method Build(norm: Normalizer, env: Env, secrets: seq<Secret>, files: seq<ConfigFile>)
    returns (keyring: GeneralOciKeyring, ok: bool)
    requires Normalizes(norm)
    ensures fresh(keyring)
    ensures ok <==> AllAccepted(norm, SecretSources(secrets)) && AllAccepted(norm, FileSources(env, files))
    ensures ok ==> keyring.Valid()
    ensures ok ==> keyring.log == BuiltLog(norm, env, secrets, files) && Normalized(norm, keyring.log)
  {
    hide GeneralOciKeyring.Valid;
    keyring := new GeneralOciKeyring();
    ghost var first, second := Maps(SecretSources(secrets)), Maps(FileSources(env, files));
    ok := AddSecrets(norm, keyring, secrets);
    if ok {
      assert keyring.log == FullLog(norm, first);
      ok := AddFiles(norm, env, keyring, files);
      if ok {
        assert keyring.log == FullLog(norm, first) + FullLog(norm, second);
        FullLogConcat(norm, first, second);
        MapsNormal(norm, SecretSources(secrets));
        MapsNormal(norm, FileSources(env, files));
        FilledIsNormalized(norm, first + second);
      }
    }
  }

  /** What a keyring holds that was built from these sources. */
  function BuiltLog(norm: Normalizer, env: Env, secrets: seq<Secret>, files: seq<ConfigFile>): seq<Entry> {
    FullLog(norm, Maps(SecretSources(secrets)) + Maps(FileSources(env, files)))
  }

  /** Every address of the log is a normal form. */
  ghost predicate Normalized(norm: Normalizer, log: seq<Entry>) {
    forall i :: 0 <= i < |log| ==> NormalForm(norm, log[i].address) == Some(log[i].address)
  }

  lemma {:induction false} MapsNormal(norm: Normalizer, sources: seq<Source>)
    requires AllAccepted(norm, sources)
    ensures AllNormal(norm, Maps(sources))
  {
    if sources != [] {
      var m := |sources| - 1;
      MapsNormal(norm, sources[..m]);
      FullLogConcat(norm, Maps(sources[..m]), sources[m].value);
    }
  }

  /** What a keyring holds is in normal form, if it was filled from sources only. */
  lemma {:induction false} FilledIsNormalized(norm: Normalizer, blocks: seq<seq<Item>>)
    requires Normalizes(norm) && AllNormal(norm, blocks)
    ensures Normalized(norm, FullLog(norm, blocks))
  {
    if blocks != [] {
      var m := |blocks| - 1;
      FilledIsNormalized(norm, blocks[..m]);
      assert Normal(norm, blocks[m]);
    }
  }

  // ---------- the order of visiting a map does not matter ----------

  /** Two visits of the same map, whose addresses have different normal forms. */
  ghost predicate SameMap(norm: Normalizer, a: seq<Item>, b: seq<Item>) {
    && Normal(norm, a)
    && (forall item :: item in a <==> item in b)
    && DistinctAddresses(norm, a) && DistinctAddresses(norm, b)
  }

  ghost predicate DistinctAddresses(norm: Normalizer, items: seq<Item>) {
    forall i, j :: 0 <= i < j < |items| ==> NormalForm(norm, items[i].0) != NormalForm(norm, items[j].0)
  }

  lemma {:induction false} GettersConcat(a: seq<Entry>, b: seq<Entry>, p: seq<string>)
    ensures GettersAt(a + b, p) == GettersAt(a, p) + GettersAt(b, p)
  {
    if b == [] {
      assert a + b == a;
    } else {
      assert (a + b)[..|a + b| - 1] == a + b[..|b| - 1];
      GettersConcat(a, b[..|b| - 1], p);
    }
  }

  lemma ReachedConcat(a: seq<Entry>, b: seq<Entry>, p: seq<string>)
    ensures Reached(Addresses(a + b), p) <==> Reached(Addresses(a), p) || Reached(Addresses(b), p)
  {
    var l := Addresses(a + b);
    assert l == Addresses(a) + Addresses(b);
    if i :| 0 <= i < |a| && p <= Segments(Addresses(a)[i]) {
      assert l[i] == Addresses(a)[i];
    }
    if i :| 0 <= i < |b| && p <= Segments(Addresses(b)[i]) {
      assert l[|a| + i] == Addresses(b)[i];
    }
  }

  /** Does item `i` contribute to node `p`? */
  ghost predicate At(norm: Normalizer, item: Item, p: seq<string>) {
    Segments(EntryFor(norm, item).address) == p
  }

  lemma {:induction false} BlockWithout(norm: Normalizer, items: seq<Item>, p: seq<string>)
    requires forall i :: 0 <= i < |items| ==> !At(norm, items[i], p)
    ensures GettersAt(BlockLog(norm, items), p) == []
  {
    if items != [] {
      assert BlockLog(norm, items)[..|items| - 1] == BlockLog(norm, items[..|items| - 1]);
      BlockWithout(norm, items[..|items| - 1], p);
    }
  }

  /** A map contributes at most one getter to a node. */
  lemma {:induction false} BlockWith(norm: Normalizer, items: seq<Item>, p: seq<string>, i: nat)
    requires Normalizes(norm) && Normal(norm, items) && DistinctAddresses(norm, items)
    requires i < |items| && At(norm, items[i], p)
    ensures GettersAt(BlockLog(norm, items), p) == [items[i].1]
  {
    var m := |items| - 1;
    assert BlockLog(norm, items)[..m] == BlockLog(norm, items[..m]);
    if i < m {
      BlockWith(norm, items[..m], p, i);
      if At(norm, items[m], p) {
        SameNodeSameAddress(NormalForm(norm, items[i].0).value, NormalForm(norm, items[m].0).value);
      }
    } else {
      forall j | 0 <= j < m
        ensures !At(norm, items[j], p)
      {
        if At(norm, items[j], p) {
          SameNodeSameAddress(NormalForm(norm, items[j].0).value, NormalForm(norm, items[m].0).value);
        }
      }
      BlockWithout(norm, items[..m], p);
    }
  }

  lemma SameMapSameGetters(norm: Normalizer, a: seq<Item>, b: seq<Item>, p: seq<string>)
    requires Normalizes(norm) && SameMap(norm, a, b)
    ensures GettersAt(BlockLog(norm, a), p) == GettersAt(BlockLog(norm, b), p)
    ensures Reached(Addresses(BlockLog(norm, a)), p) ==> Reached(Addresses(BlockLog(norm, b)), p)
  {
    hide GettersAt, Segments, Clean;
    assert Normal(norm, b) by {
      assert forall i :: 0 <= i < |b| ==> b[i] in a;
    }
    if i :| 0 <= i < |a| && At(norm, a[i], p) {
      assert a[i] in b;
      var j :| 0 <= j < |b| && b[j] == a[i];
      BlockWith(norm, a, p, i);
      BlockWith(norm, b, p, j);
    } else {
      forall j | 0 <= j < |b|
        ensures !At(norm, b[j], p)
      {
        assert b[j] in a;
      }
      BlockWithout(norm, a, p);
      BlockWithout(norm, b, p);
    }
    if p != [] && Reached(Addresses(BlockLog(norm, a)), p) {
      var i :| 0 <= i < |a| && p <= Segments(Addresses(BlockLog(norm, a))[i]);
      assert a[i] in b;
      var j :| 0 <= j < |b| && b[j] == a[i];
      assert Addresses(BlockLog(norm, b))[j] == Addresses(BlockLog(norm, a))[i];
    }
  }

  lemma {:induction false} SameMapsSameGetters(norm: Normalizer, a: seq<seq<Item>>, b: seq<seq<Item>>, p: seq<string>)
    requires Normalizes(norm) && |a| == |b| && forall j :: 0 <= j < |a| ==> SameMap(norm, a[j], b[j])
    ensures GettersAt(FullLog(norm, a), p) == GettersAt(FullLog(norm, b), p)
    ensures Reached(Addresses(FullLog(norm, a)), p) ==> Reached(Addresses(FullLog(norm, b)), p)
  {
    if a != [] {
      var m := |a| - 1;
      SameMapsSameGetters(norm, a[..m], b[..m], p);
      SameMapSameGetters(norm, a[m], b[m], p);
      GettersConcat(FullLog(norm, a[..m]), BlockLog(norm, a[m]), p);
      GettersConcat(FullLog(norm, b[..m]), BlockLog(norm, b[m]), p);
      ReachedConcat(FullLog(norm, a[..m]), BlockLog(norm, a[m]), p);
      ReachedConcat(FullLog(norm, b[..m]), BlockLog(norm, b[m]), p);
    }
  }

  lemma SameReachSameLongest(a: seq<string>, b: seq<string>, q: seq<string>)
    requires forall p :: Reached(a, p) <==> Reached(b, p)
    ensures LongestPrefix(a, q) == LongestPrefix(b, q)
  {
    var x, y := LongestPrefix(a, q), LongestPrefix(b, q);
    assert x == q[..|x|] && y == q[..|y|];
  }

  /**
    If the addresses in each map have different normal forms, the answer for every url is the same in whatever order
    the maps are visited.
   */
  lemma VisitingOrderIrrelevant(norm: Normalizer, a: seq<seq<Item>>, b: seq<seq<Item>>, url: string)
    requires Normalizes(norm) && SameMaps(norm, a, b)
    ensures Answer(FullLog(norm, a), url) == Answer(FullLog(norm, b), url)
  {
    forall p
      ensures Reached(Addresses(FullLog(norm, a)), p) <==> Reached(Addresses(FullLog(norm, b)), p)
    {
      SameMapsSameGetters(norm, a, b, p);
      SameMapsSameGetters(norm, b, a, p);
    }
    SameReachSameLongest(Addresses(FullLog(norm, a)), Addresses(FullLog(norm, b)), Segments(url));
    SameMapsSameGetters(norm, a, b, LongestPrefix(Addresses(FullLog(norm, a)), Segments(url)));
  }

  // ---------- the same for whole runs ----------

  ghost predicate DistinctKeys<V(!new)>(norm: Normalizer, entries: seq<(string, V)>) {
    forall i, j :: 0 <= i < j < |entries| ==> NormalForm(norm, entries[i].0) != NormalForm(norm, entries[j].0)
  }

  /** The entries of one map in two orders; their addresses have different normal forms. */
  ghost predicate SameEntries<V(!new)>(norm: Normalizer, a: seq<(string, V)>, b: seq<(string, V)>) {
    (forall e :: e in a <==> e in b) && DistinctKeys(norm, a) && DistinctKeys(norm, b)
  }

  /** One secret, or one file, whose maps are visited in two orders. */
  ghost predicate SameSecret(norm: Normalizer, a: Secret, b: Secret) {
    if a.DockerConfig? && b.DockerConfig? then SameEntries(norm, a.auths, b.auths) else a == b
  }

  ghost predicate SameFile(norm: Normalizer, a: ConfigFile, b: ConfigFile) {
    if a.Config? && b.Config? then SameEntries(norm, a.auths, b.auths) && SameEntries(norm, a.helpers, b.helpers)
    else a == b
  }

  ghost predicate SameMaps(norm: Normalizer, a: seq<seq<Item>>, b: seq<seq<Item>>) {
    |a| == |b| && forall j :: 0 <= j < |a| ==> SameMap(norm, a[j], b[j]) && SameMap(norm, b[j], a[j])
  }

  ghost predicate SameSource(norm: Normalizer, a: Source, b: Source) {
    a.Some? && b.Some? && SameMaps(norm, a.value, b.value)
  }

  /** Items that are computed entry by entry, from the entries in two orders. */
  lemma ItemsAgree<V(!new)>(
    norm: Normalizer, a: seq<(string, V)>, b: seq<(string, V)>, x: seq<Item>, y: seq<Item>, f: ((string, V)) -> Getter)
    requires SameEntries(norm, a, b) && |x| == |a| && |y| == |b|
    requires forall i :: 0 <= i < |a| ==> x[i] == (a[i].0, f(a[i]))
    requires forall i :: 0 <= i < |b| ==> y[i] == (b[i].0, f(b[i]))
    requires Normal(norm, x)
    ensures SameMap(norm, x, y)
  {
    forall i | 0 <= i < |x|
      ensures x[i] in y
    {
      assert a[i] in b;
      var j :| 0 <= j < |b| && b[j] == a[i];
      assert y[j] == x[i];
    }
    forall j | 0 <= j < |y|
      ensures y[j] in x
    {
      assert b[j] in a;
      var i :| 0 <= i < |a| && a[i] == b[j];
      assert x[i] == y[j];
    }
  }

  lemma SameMapBack(norm: Normalizer, a: seq<Item>, b: seq<Item>)
    requires SameMap(norm, a, b)
    ensures SameMap(norm, b, a)
  {
    assert forall i :: 0 <= i < |b| ==> b[i] in a;
  }

  lemma SameSecretSource(norm: Normalizer, a: Secret, b: Secret)
    requires SameSecret(norm, a, b) && Accepted(norm, SecretSource(a))
    ensures SameSource(norm, SecretSource(a), SecretSource(b))
  {
    if a.DockerConfig? {
      var x, y := SecretItems(a.auths), SecretItems(b.auths);
      assert Normal(norm, SecretSource(a).value[0]);
      ItemsAgree(norm, a.auths, b.auths, x, y, (e: (string, Auth)) => DefaultGetter(e.1));
      SameMapBack(norm, x, y);
    }
  }

  lemma SameFileSource(norm: Normalizer, env: Env, a: ConfigFile, b: ConfigFile)
    requires SameFile(norm, a, b) && Accepted(norm, FileSource(env, a))
    ensures SameSource(norm, FileSource(env, a), FileSource(env, b))
  {
    if a.Config? {
      var x, y := AuthItems(env, a.auths), AuthItems(env, b.auths);
      assert Normal(norm, FileSource(env, a).value[0]) && Normal(norm, FileSource(env, a).value[1]);
      ItemsAgree(norm, a.auths, b.auths, x, y, (e: (string, Auth)) => FileGetter(env, e.0, e.1));
      SameMapBack(norm, x, y);
      var x', y' := HelperItems(env, a.helpers), HelperItems(env, b.helpers);
      ItemsAgree(norm, a.helpers, b.helpers, x', y', (e: (string, string)) => HelperGetter(env, e.1, e.0));
      SameMapBack(norm, x', y');
    }
  }

  lemma {:induction false} MapsAgree(norm: Normalizer, a: seq<Source>, b: seq<Source>)
    requires |a| == |b| && forall i :: 0 <= i < |a| ==> SameSource(norm, a[i], b[i])
    ensures SameMaps(norm, Maps(a), Maps(b))
  {
    if a != [] {
      var m := |a| - 1;
      MapsAgree(norm, a[..m], b[..m]);
      SameMapsConcat(norm, Maps(a[..m]), Maps(b[..m]), a[m].value, b[m].value);
    }
  }

  lemma SameMapsConcat(
    norm: Normalizer, a: seq<seq<Item>>, b: seq<seq<Item>>, a': seq<seq<Item>>, b': seq<seq<Item>>)
    requires SameMaps(norm, a, b) && SameMaps(norm, a', b')
    ensures SameMaps(norm, a + a', b + b')
  {
  }

  /**
    Two runs over the same secrets and files answer every url alike, in whatever order each of them visits the maps,
    if the addresses of each map have different normal forms.
   */
  lemma BuildOrderIrrelevant(
    norm: Normalizer, env: Env, secrets1: seq<Secret>, files1: seq<ConfigFile>, secrets2: seq<Secret>,
    files2: seq<ConfigFile>, url: string)
    requires Normalizes(norm)
    requires |secrets1| == |secrets2| && forall i :: 0 <= i < |secrets1| ==> SameSecret(norm, secrets1[i], secrets2[i])
    requires |files1| == |files2| && forall i :: 0 <= i < |files1| ==> SameFile(norm, files1[i], files2[i])
    requires AllAccepted(norm, SecretSources(secrets1)) && AllAccepted(norm, FileSources(env, files1))
    ensures Answer(BuiltLog(norm, env, secrets1, files1), url) == Answer(BuiltLog(norm, env, secrets2, files2), url)
  {
    forall i | 0 <= i < |secrets1|
      ensures SameSource(norm, SecretSources(secrets1)[i], SecretSources(secrets2)[i])
    {
      assert Accepted(norm, SecretSources(secrets1)[i]);
      SameSecretSource(norm, secrets1[i], secrets2[i]);
    }
    forall i | 0 <= i < |files1|
      ensures SameSource(norm, FileSources(env, files1)[i], FileSources(env, files2)[i])
    {
      assert Accepted(norm, FileSources(env, files1)[i]);
      SameFileSource(norm, env, files1[i], files2[i]);
    }
    MapsAgree(norm, SecretSources(secrets1), SecretSources(secrets2));
    MapsAgree(norm, FileSources(env, files1), FileSources(env, files2));
    var a, a' := Maps(SecretSources(secrets1)), Maps(FileSources(env, files1));
    var b, b' := Maps(SecretSources(secrets2)), Maps(FileSources(env, files2));
    SameMapsConcat(norm, a, b, a', b');
    VisitingOrderIrrelevant(norm, a + a', b + b', url);
  }

  /**
    Of two groups of maps, the earlier one wins: at the node that matches best, the later one is asked only if the
    earlier one has no answer. So secrets come before files, files before later files, and auths before helpers.
   */
  lemma EarlierMapsWin(norm: Normalizer, a: seq<seq<Item>>, b: seq<seq<Item>>, url: string)
    ensures var p := LongestPrefix(Addresses(FullLog(norm, a + b)), Segments(url));
      var first := FirstAnswer(GettersAt(FullLog(norm, a), p), url);
      Answer(FullLog(norm, a + b), url) ==
      if first.Some? then first else FirstAnswer(GettersAt(FullLog(norm, b), p), url)
  {
    var p := LongestPrefix(Addresses(FullLog(norm, a + b)), Segments(url));
    FullLogConcat(norm, a, b);
    GettersConcat(FullLog(norm, a), FullLog(norm, b), p);
    FirstAnswerConcat(GettersAt(FullLog(norm, a), p), GettersAt(FullLog(norm, b), p), url);
  }

  /** Secrets come before files: at the node that matches best, files are asked only if no secret has an answer. */
  lemma SecretsBeforeFiles(
    norm: Normalizer, env: Env, secrets: seq<Secret>, files: seq<ConfigFile>, url: string)
    ensures var p := LongestPrefix(Addresses(BuiltLog(norm, env, secrets, files)), Segments(url));
      var first := FirstAnswer(GettersAt(BuiltLog(norm, env, secrets, []), p), url);
      Answer(BuiltLog(norm, env, secrets, files), url) ==
      if first.Some? then first else FirstAnswer(GettersAt(BuiltLog(norm, env, [], files), p), url)
  {
    var a, b := Maps(SecretSources(secrets)), Maps(FileSources(env, files));
    EarlierMapsWin(norm, a, b, url);
    assert a + Maps(FileSources(env, [])) == a;
    assert Maps(SecretSources([])) + b == b;
  }

  predicate Usable(auth: Auth) {
    auth.auth != "" || auth.username != ""
  }

  predicate UsableAnswer(answer: Option<Auth>) {
    answer.Some? && Usable(answer.value)
  }

  /**
    One address, configured in a secret, and in a file both directly and with a helper. The secret answers if it can,
    then the entry of the file, or the default store in place of an empty entry, and then the helper.
   */
  lemma OneAddress(norm: Normalizer, env: Env, a: string, s: Auth, f: Auth, helper: string, url: string)
    requires NormalForm(norm, a).Some? && Segments(NormalForm(norm, a).value) <= Segments(url)
    ensures Answer(BuiltLog(norm, env, [DockerConfig([(a, s)])], [Config([(a, f)], [(a, helper)])]), url) ==
      if Usable(s) then Some(s)
      else if Usable(f) then Some(f)
      else if env.defaultStore != "" && UsableAnswer(env.native(env.defaultStore, a)) then
        env.native(env.defaultStore, a)
      else if UsableAnswer(env.native(helper, a)) then env.native(helper, a)
      else None
  {
    var secrets, files := [DockerConfig([(a, s)])], [Config([(a, f)], [(a, helper)])];
    var p := NormalForm(norm, a).value;
    var g1: Getter, g2: Getter, g3: Getter :=
      DefaultGetter(s), FileGetter(env, a, f), HelperGetter(env, helper, a);
    OneAddressLog(norm, env, a, s, f, helper);
    hide BuiltLog, Answer, FirstAnswer, Segments, NormalForm;
    var getters := [g1, g2, g3];
    OneNode(BuiltLog(norm, env, secrets, files), p, getters, url);
    FirstAnswerIs(getters, url,
      if Answers(g1, url) then 0 else if Answers(g2, url) then 1 else if Answers(g3, url) then 2 else 3);
  }

  lemma OneAddressMaps(env: Env, a: string, s: Auth, f: Auth, helper: string)
    ensures Maps(SecretSources([DockerConfig([(a, s)])])) == [[(a, DefaultGetter(s))]]
    ensures Maps(FileSources(env, [Config([(a, f)], [(a, helper)])])) ==
      [[(a, FileGetter(env, a, f))], [(a, HelperGetter(env, helper, a))]]
  {
    var secrets, files := [DockerConfig([(a, s)])], [Config([(a, f)], [(a, helper)])];
    assert SecretSources(secrets)[..0] == [] && FileSources(env, files)[..0] == [];
    assert SecretItems([(a, s)]) == [(a, DefaultGetter(s))];
    assert AuthItems(env, [(a, f)]) == [(a, FileGetter(env, a, f))];
    assert HelperItems(env, [(a, helper)]) == [(a, HelperGetter(env, helper, a))];
  }

  lemma OneAddressLog(norm: Normalizer, env: Env, a: string, s: Auth, f: Auth, helper: string)
    requires NormalForm(norm, a).Some?
    ensures var p := NormalForm(norm, a).value;
      BuiltLog(norm, env, [DockerConfig([(a, s)])], [Config([(a, f)], [(a, helper)])]) ==
      [Entry(p, DefaultGetter(s)), Entry(p, FileGetter(env, a, f)), Entry(p, HelperGetter(env, helper, a))]
  {
    var x, y, z := [(a, DefaultGetter(s))], [(a, FileGetter(env, a, f))], [(a, HelperGetter(env, helper, a))];
    OneAddressMaps(env, a, s, f, helper);
    OneBlock(norm, x);
    TwoBlocks(norm, y, z, BlockLog(norm, x));
    FullLogConcat(norm, [x], [y, z]);
    hide Maps, SecretSources, FileSources, FullLog, DefaultGetter, FileGetter, HelperGetter;
  }

  /** All getters of a log are at one node. */
  lemma OneNode(log: seq<Entry>, p: string, getters: seq<Getter>, url: string)
    requires log != [] && |log| == |getters| && Segments(p) <= Segments(url)
    requires forall i :: 0 <= i < |log| ==> log[i] == Entry(p, getters[i])
    ensures Answer(log, url) == FirstAnswer(getters, url)
  {
    var q := LongestPrefix(Addresses(log), Segments(url));
    assert Addresses(log)[0] == p;
    assert Reached(Addresses(log), Segments(p));
    assert Segments(url)[..|Segments(p)|] == Segments(p) && Segments(url)[..|q|] == q;
    if q != [] {
      var i :| 0 <= i < |log| && q <= Segments(Addresses(log)[i]);
    }
    assert q == Segments(p);
    AllAtNode(log, p, getters);
  }

  lemma {:induction false} AllAtNode(log: seq<Entry>, p: string, getters: seq<Getter>)
    requires |log| == |getters| && forall i :: 0 <= i < |log| ==> log[i] == Entry(p, getters[i])
    ensures GettersAt(log, Segments(p)) == getters
  {
    if log != [] {
      AllAtNode(log[..|log| - 1], p, getters[..|getters| - 1]);
      assert getters == getters[..|getters| - 1] + [getters[|getters| - 1]];
    }
  }

  // ---------- merging ----------

  /** The getters stored for one address, to be added under the same address. */
  function StoreItems(address: string, getters: seq<Getter>): seq<Item> {
    seq(|getters|, i requires 0 <= i < |getters| => (address, getters[i]))
  }

  /** The entries of a store, address by address in the order of this visit. */
  function StoreLog(log: seq<Entry>, names: seq<string>): seq<Entry> {
    if names == [] then []
    else
      var last := names[|names| - 1];
      StoreLog(log, names[..|names| - 1]) + AtAddress(last, GettersFor(log, last))
  }

  function AtAddress(address: string, getters: seq<Getter>): seq<Entry> {
    seq(|getters|, i requires 0 <= i < |getters| => Entry(address, getters[i]))
  }

  lemma AtAddressStep(address: string, getters: seq<Getter>)
    requires getters != []
    ensures var m := |getters| - 1;
      AtAddress(address, getters) == AtAddress(address, getters[..m]) + [Entry(address, getters[m])]
  {
  }

  lemma GettersAtStep(log: seq<Entry>, e: Entry, p: seq<string>)
    ensures GettersAt(log + [e], p) == GettersAt(log, p) + if Segments(e.address) == p then [e.getter] else []
  {
    assert (log + [e])[..|log|] == log;
  }

  lemma {:induction false} AtAddressGetters(address: string, getters: seq<Getter>, p: seq<string>)
    ensures GettersAt(AtAddress(address, getters), p) == if Segments(address) == p then getters else []
  {
    if getters == [] {
      assert AtAddress(address, getters) == [];
    } else {
      var m := |getters| - 1;
      AtAddressStep(address, getters);
      hide Segments, GettersAt, AtAddress;
      AtAddressGetters(address, getters[..m], p);
      GettersAtStep(AtAddress(address, getters[..m]), Entry(address, getters[m]), p);
      assert getters == getters[..m] + [getters[m]];
    }
  }

  ghost predicate AllIn(names: seq<string>, log: seq<Entry>) {
    && AllClean(log)
    && forall i :: 0 <= i < |names| ==> Clean(names[i]) && names[i] in Addresses(log)
  }

  ghost predicate Distinct(names: seq<string>) {
    forall i, j :: 0 <= i < j < |names| ==> names[i] != names[j]
  }

  ghost predicate Named(names: seq<string>, p: seq<string>) {
    exists i :: 0 <= i < |names| && Segments(names[i]) == p
  }

  lemma StoreLogStep(log: seq<Entry>, names: seq<string>, p: seq<string>)
    requires names != []
    ensures var last := names[|names| - 1];
      GettersAt(StoreLog(log, names), p) == GettersAt(StoreLog(log, names[..|names| - 1]), p) +
      if Segments(last) == p then GettersFor(log, last) else []
  {
    var last := names[|names| - 1];
    GettersConcat(StoreLog(log, names[..|names| - 1]), AtAddress(last, GettersFor(log, last)), p);
    AtAddressGetters(last, GettersFor(log, last), p);
  }

  lemma {:induction false} StoreLogWithout(log: seq<Entry>, names: seq<string>, p: seq<string>)
    requires !Named(names, p)
    ensures GettersAt(StoreLog(log, names), p) == []
  {
    if names != [] {
      StoreLogStep(log, names, p);
      StoreLogWithout(log, names[..|names| - 1], p);
    }
  }

  /** A visit collects at a node exactly the getters of that node, in their order. */
  lemma {:induction false} StoreLogGetters(log: seq<Entry>, names: seq<string>, p: seq<string>)
    requires AllIn(names, log) && Distinct(names) && Named(names, p)
    ensures GettersAt(StoreLog(log, names), p) == GettersAt(log, p)
  {
    hide Segments, GettersAt, GettersFor, StoreLog, Clean, Addresses;
    var m := |names| - 1;
    var front, last := names[..m], names[m];
    StoreLogStep(log, names, p);
    if Segments(last) == p {
      StoredAtNode(log, last, p);
      assert !Named(front, p) by {
        if i :| 0 <= i < m && Segments(front[i]) == p {
          SameNodeSameAddress(names[i], last);
        }
      }
      StoreLogWithout(log, front, p);
    } else {
      assert Named(front, p) by {
        var i :| 0 <= i < |names| && Segments(names[i]) == p;
        assert front[i] == names[i];
      }
      StoreLogGetters(log, front, p);
    }
  }

  lemma StoredAtNode(log: seq<Entry>, address: string, p: seq<string>)
    requires AllClean(log) && address in Addresses(log) && Segments(address) == p && Clean(address)
    ensures GettersFor(log, address) == GettersAt(log, p)
  {
    if address in AddressesAt(Addresses(log), p) {
      NodeHasOneAddress(log, p, address);
    } else {
      NodeWithoutAddress(log, p, address);
    }
  }

  ghost predicate SameReach(l1: seq<Entry>, l2: seq<Entry>, l: seq<Entry>, p: seq<string>) {
    Reached(Addresses(l), p) <==> Reached(Addresses(l1), p) || Reached(Addresses(l2), p)
  }

  /** `l` holds at every node the getters of `l1`, and after them those of `l2`. */
  ghost predicate Merged(l1: seq<Entry>, l2: seq<Entry>, l: seq<Entry>) {
    && (forall p :: GettersAt(l, p) == GettersAt(l1, p) + GettersAt(l2, p))
    && (forall p :: SameReach(l1, l2, l, p))
  }

  /** A visit of a whole store. */
  ghost predicate Visits(norm: Normalizer, store: map<string, seq<Getter>>, log: seq<Entry>, names: seq<string>) {
    && AllIn(names, log) && Distinct(names)
    && (forall a :: a in Addresses(log) ==> a in names)
    && (forall i :: 0 <= i < |names| ==> NormalForm(norm, names[i]) == Some(names[i]))
    && (forall i :: 0 <= i < |names| ==> names[i] in store && store[names[i]] == GettersFor(log, names[i]))
  }

  lemma VisitOfStore(norm: Normalizer, keyring: GeneralOciKeyring, names: seq<string>)
    requires keyring.Valid() && Normalizes(norm) && Normalized(norm, keyring.log)
    requires Distinct(names) && forall a :: a in names <==> a in keyring.store
    ensures Visits(norm, keyring.store, keyring.log, names)
  {
    var log := keyring.log;
    forall i | 0 <= i < |names|
      ensures names[i] in keyring.store && Clean(names[i]) && NormalForm(norm, names[i]) == Some(names[i])
    {
      assert names[i] in names;
      var k :| 0 <= k < |log| && Addresses(log)[k] == names[i];
    }
  }

  lemma {:induction false} NoGetterAt(log: seq<Entry>, p: seq<string>)
    requires forall i :: 0 <= i < |log| ==> Segments(log[i].address) != p
    ensures GettersAt(log, p) == []
  {
    if log != [] {
      NoGetterAt(log[..|log| - 1], p);
    }
  }

  lemma {:induction false} SomeGetterFor(log: seq<Entry>, i: nat)
    requires i < |log|
    ensures GettersFor(log, log[i].address) != []
  {
    if i < |log| - 1 {
      SomeGetterFor(log[..|log| - 1], i);
    }
  }

  lemma {:induction false} StoreLogAddresses(log: seq<Entry>, names: seq<string>, a: string)
    requires AllIn(names, log)
    ensures a in Addresses(StoreLog(log, names)) <==> a in names
  {
    hide GettersFor, Clean;
    if names != [] {
      var last := names[|names| - 1];
      var front, added := StoreLog(log, names[..|names| - 1]), AtAddress(last, GettersFor(log, last));
      StoreLogAddresses(log, names[..|names| - 1], a);
      assert Addresses(front + added) == Addresses(front) + Addresses(added);
      var k :| 0 <= k < |log| && Addresses(log)[k] == last;
      SomeGetterFor(log, k);
      assert Addresses(added)[0] == last;
      assert names == names[..|names| - 1] + [last];
    }
  }

  lemma SameAddressesSameReach(a: seq<string>, b: seq<string>, p: seq<string>)
    requires forall x :: x in a ==> x in b
    ensures Reached(a, p) ==> Reached(b, p)
  {
    if p != [] && Reached(a, p) {
      var i :| 0 <= i < |a| && p <= Segments(a[i]);
      assert a[i] in b;
      var j :| 0 <= j < |b| && b[j] == a[i];
    }
  }

  /** A visit of the whole store adds at every node what was there, in the same order. */
  lemma VisitAddsAll(norm: Normalizer, store: map<string, seq<Getter>>, log: seq<Entry>, names: seq<string>,
      p: seq<string>)
    requires Visits(norm, store, log, names)
    ensures GettersAt(StoreLog(log, names), p) == GettersAt(log, p)
    ensures Reached(Addresses(StoreLog(log, names)), p) <==> Reached(Addresses(log), p)
  {
    if Named(names, p) {
      StoreLogGetters(log, names, p);
    } else {
      StoreLogWithout(log, names, p);
      forall i | 0 <= i < |log|
        ensures Segments(log[i].address) != p
      {
        assert Addresses(log)[i] in names;
      }
      NoGetterAt(log, p);
    }
    forall a
      ensures a in Addresses(StoreLog(log, names)) <==> a in Addresses(log)
    {
      StoreLogAddresses(log, names, a);
    }
    SameAddressesSameReach(Addresses(StoreLog(log, names)), Addresses(log), p);
    SameAddressesSameReach(Addresses(log), Addresses(StoreLog(log, names)), p);
  }

  lemma VisitMerges(norm: Normalizer, store: map<string, seq<Getter>>, before: seq<Entry>, log: seq<Entry>,
      names: seq<string>)
    requires Visits(norm, store, log, names)
    ensures Merged(before, log, before + StoreLog(log, names))
  {
    hide GettersAt, Reached, Visits;
    forall p
      ensures GettersAt(before + StoreLog(log, names), p) == GettersAt(before, p) + GettersAt(log, p)
      ensures SameReach(before, log, before + StoreLog(log, names), p)
    {
      VisitAddsAll(norm, store, log, names, p);
      GettersConcat(before, StoreLog(log, names), p);
      ReachedConcat(before, StoreLog(log, names), p);
    }
  }

  /** A log after these addresses of another one have been added. */
  function Taken(before: seq<Entry>, log: seq<Entry>, names: seq<string>): seq<Entry> {
    before + StoreLog(log, names)
  }

  /** The getters of one address, added under that address. */
  lemma StoreStep(norm: Normalizer, store: map<string, seq<Getter>>, before: seq<Entry>, log: seq<Entry>,
      names: seq<string>, i: nat)
    requires Visits(norm, store, log, names) && i < |names|
    ensures names[i] in store && Normal(norm, StoreItems(names[i], store[names[i]]))
    ensures Taken(before, log, names[..i + 1]) ==
      Taken(before, log, names[..i]) + BlockLog(norm, StoreItems(names[i], store[names[i]]))
  {
    var getters := store[names[i]];
    assert names[..i + 1][..i] == names[..i];
    assert BlockLog(norm, StoreItems(names[i], getters)) == AtAddress(names[i], getters);
    Associative(before, StoreLog(log, names[..i]), AtAddress(names[i], getters));
  }

  lemma TakenEnds(before: seq<Entry>, log: seq<Entry>, names: seq<string>)
    ensures Taken(before, log, names[..0]) == before
    ensures Taken(before, log, names[..|names|]) == before + StoreLog(log, names)
  {
    assert names[..|names|] == names;
  }

  /** The loops over the addresses of a store and their getters. */
  method TakeAll(
    norm: Normalizer, k1: GeneralOciKeyring, store: map<string, seq<Getter>>, ghost log: seq<Entry>, names: seq<string>)
    returns (ok: bool)
    requires k1.Valid() && Normalizes(norm) && Visits(norm, store, log, names)
    modifies k1, k1.index.repr
    ensures k1.Valid() && OnlyGrew(k1)
    ensures ok && k1.log == old(k1.log) + StoreLog(log, names)
  {
    hide GeneralOciKeyring.Valid, Visits, Normalizes, Taken, StoreLog, BlockLog, StoreItems, Normal;
    ghost var before := k1.log;
    TakenEnds(before, log, names);
    for i := 0 to |names|
      invariant k1.Valid() && OnlyGrew(k1)
      invariant k1.log == Taken(before, log, names[..i])
    {
      StoreStep(norm, store, before, log, names, i);
      ok := AddBlock(norm, k1, StoreItems(names[i], store[names[i]]));
    }
    ok := true;
  }

  /**
    Adds the second keyring's getters to the first keyring: behind the ones that are there, although the comment above
    the function promises that the second keyring wins on a clash.
   */
  method Merge(norm: Normalizer, k1: GeneralOciKeyring, k2: GeneralOciKeyring, names: seq<string>) returns (ok: bool)
    requires k1.Valid() && k2.Valid() && Normalizes(norm) && Normalized(norm, k2.log)
    requires Distinct(names) && forall a :: a in names <==> a in k2.store
    requires k1 != k2 && k2 !in k1.index.repr
    modifies k1, k1.index.repr
    ensures k1.Valid() && OnlyGrew(k1)
    ensures ok && Merged(old(k1.log), k2.log, k1.log)
  {
    VisitOfStore(norm, k2, names);
    VisitMerges(norm, k2.store, k1.log, k2.log, names);
    hide GeneralOciKeyring.Valid, Visits, Merged, Distinct, Normalized, Normalizes, StoreLog;
    ok := TakeAll(norm, k1, k2.store, k2.log, names);
  }

  /**
    After a merge the keyring with the longer match answers; if both match equally far, the second one is asked only
    if the first one has no answer.
   */
  lemma FirstKeyringWins(l1: seq<Entry>, l2: seq<Entry>, l: seq<Entry>, url: string)
    requires Merged(l1, l2, l)
    ensures var n1, n2 := |LongestPrefix(Addresses(l1), Segments(url))|, |LongestPrefix(Addresses(l2), Segments(url))|;
      Answer(l, url) ==
      if n1 > n2 || (n1 == n2 && Answer(l1, url).Some?) then Answer(l1, url) else Answer(l2, url)
  {
    hide Addresses, GettersAt, Segments, LongestPrefix, Reached, AddressesAt;
    var q := Segments(url);
    var p1, p2 := LongestPrefix(Addresses(l1), q), LongestPrefix(Addresses(l2), q);
    var longer := if |p1| >= |p2| then p1 else p2;
    MergedLongest(l1, l2, l, q);
    assert GettersAt(l, longer) == GettersAt(l1, longer) + GettersAt(l2, longer);
    FirstAnswerConcat(GettersAt(l1, longer), GettersAt(l2, longer), url);
    if |p1| < |p2| {
      assert p2 == q[..|p2|];
      AddressesOnlyWhereReached(Addresses(l1), p2);
      NoAddressNoGetter(l1, p2);
    } else if |p2| < |p1| {
      assert p1 == q[..|p1|];
      AddressesOnlyWhereReached(Addresses(l2), p1);
      NoAddressNoGetter(l2, p1);
    } else {
      assert p1 == q[..|p1|] == p2;
    }
  }

  lemma MergedLongest(l1: seq<Entry>, l2: seq<Entry>, l: seq<Entry>, q: seq<string>)
    requires Merged(l1, l2, l)
    ensures var p1, p2 := LongestPrefix(Addresses(l1), q), LongestPrefix(Addresses(l2), q);
      LongestPrefix(Addresses(l), q) == if |p1| >= |p2| then p1 else p2
  {
    hide Addresses, GettersAt, LongestPrefix, Reached;
    var p1, p2, p := LongestPrefix(Addresses(l1), q), LongestPrefix(Addresses(l2), q), LongestPrefix(Addresses(l), q);
    assert p1 == q[..|p1|] && p2 == q[..|p2|] && p == q[..|p|];
    assert SameReach(l1, l2, l, p1) && SameReach(l1, l2, l, p2) && SameReach(l1, l2, l, p);
  }
}
