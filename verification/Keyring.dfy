/** The keyring over the trie (GeneralOciKeyring in ociclient/credentials/keyring.go). */
module Keyring {
  import opened Common
  import opened Strings
  import opened CredentialTrie

  datatype Auth = Auth(username: string, password: string, auth: string)

  predicate IsEmptyAuthConfig(a: Auth) {
    a.auth == "" && a.username == ""
  }

  /** A getter answers for an address, or fails. */
  type Getter = string -> Option<Auth>

  /** What is stored: a getter under a normalised address. */
  datatype Entry = Entry(address: string, getter: Getter)

  /** URL parsing and path cleaning, by the library; `None` is a parse error. */
  type Normalizer = string -> Option<string>

  function NormalForm(norm: Normalizer, address: string): Option<string> {
    norm(address)
  }

  /** A cleaned path has no trailing slash, unless it is the slash itself. */
  predicate Clean(address: string) {
    address == "" || address == "/" || address[|address| - 1] != '/'
  }

  ghost predicate Normalizes(norm: Normalizer) {
    forall a :: NormalForm(norm, a).Some? ==>
      Clean(NormalForm(norm, a).value) && NormalForm(norm, NormalForm(norm, a).value) == NormalForm(norm, a)
  }

  lemma {:induction false} LastPart(s: string)
    requires s != "" && s[|s| - 1] != '/'
    ensures var parts := Split(s, '/'); parts[|parts| - 1] != ""
  {
    if |s| > 1 {
      LastPart(s[1..]);
    } else {
      assert Split(s[1..], '/') == [""];
    }
  }

  /** Clean addresses that end at the same node are equal. */
  lemma SameNodeSameAddress(a: string, b: string)
    requires Clean(a) && Clean(b) && Segments(a) == Segments(b)
    ensures a == b
  {
    SegmentsOfClean(a);
    SegmentsOfClean(b);
  }

  lemma SegmentsOfClean(a: string)
    requires Clean(a)
    ensures a == if Segments(a) == [] then "" else if Segments(a) == [""] then "/" else Join(Segments(a), '/')
  {
    SegmentsAreSplit(a);
    JoinSplit(a, '/');
    if a == "/" {
      assert Split("/"[1..], '/') == [""];
    } else if a != "" {
      LastPart(a);
      var parts := Split(a, '/');
      assert parts != [""];
    }
  }

  // ---------- the flat specification ----------

  function Addresses(log: seq<Entry>): seq<string> {
    seq(|log|, i requires 0 <= i < |log| => log[i].address)
  }

  /** The getters stored at exactly one node, in order of insertion. */
  function GettersAt(log: seq<Entry>, p: seq<string>): seq<Getter> {
    if log == [] then []
    else
      var e := log[|log| - 1];
      GettersAt(log[..|log| - 1], p) + if Segments(e.address) == p then [e.getter] else []
  }

  function GettersFor(log: seq<Entry>, address: string): seq<Getter> {
    if log == [] then []
    else
      var e := log[|log| - 1];
      GettersFor(log[..|log| - 1], address) + if e.address == address then [e.getter] else []
  }

  /** The first getter that answers with something. */
  function FirstAnswer(getters: seq<Getter>, url: string): Option<Auth> {
    if getters == [] then None
    else
      var a := getters[0](url);
      if a.Some? && !IsEmptyAuthConfig(a.value) then a else FirstAnswer(getters[1..], url)
  }

  /** The getters at the longest stored prefix of the url, asked in order of insertion. */
  ghost function Answer(log: seq<Entry>, url: string): Option<Auth> {
    FirstAnswer(GettersAt(log, LongestPrefix(Addresses(log), Segments(url))), url)
  }

  /** The answer says something: it has a user name or an encoded form. */
  predicate Answers(getter: Getter, url: string) {
    getter(url).Some? && (getter(url).value.auth != "" || getter(url).value.username != "")
  }

  /** It is the answer of the first getter that says something; if none does, there is none. */
  lemma {:induction false} FirstAnswerIs(getters: seq<Getter>, url: string, i: nat)
    requires i <= |getters| && forall j :: 0 <= j < i ==> !Answers(getters[j], url)
    requires i < |getters| ==> Answers(getters[i], url)
    ensures FirstAnswer(getters, url) == if i < |getters| then getters[i](url) else None
  {
    if i > 0 {
      FirstAnswerIs(getters[1..], url, i - 1);
    }
  }

  lemma {:induction false} FirstAnswerConcat(a: seq<Getter>, b: seq<Getter>, url: string)
    ensures FirstAnswer(a + b, url) == if FirstAnswer(a, url).Some? then FirstAnswer(a, url) else FirstAnswer(b, url)
  {
    if a == [] {
      assert a + b == b;
    } else {
      assert (a + b)[1..] == a[1..] + b;
      FirstAnswerConcat(a[1..], b, url);
    }
  }

  ghost predicate AllClean(log: seq<Entry>) {
    forall i :: 0 <= i < |log| ==> Clean(log[i].address)
  }

  /** The addresses at a node are copies of one, and its getters are those of the node. */
  lemma {:induction false} NodeHasOneAddress(log: seq<Entry>, p: seq<string>, address: string)
    requires AllClean(log) && address in AddressesAt(Addresses(log), p)
    ensures Segments(address) == p && Clean(address)
    ensures GettersFor(log, address) == GettersAt(log, p) != []
  {
    var front := log[..|log| - 1];
    var last := log[|log| - 1].address;
    assert Addresses(log)[..|log| - 1] == Addresses(front);
    if address in AddressesAt(Addresses(front), p) {
      NodeHasOneAddress(front, p, address);
    } else {
      assert last == address && Segments(last) == p;
      NodeWithoutAddress(front, p, address);
    }
    if Segments(last) == p {
      SameNodeSameAddress(last, address);
    }
  }

  lemma {:induction false} NodeWithoutAddress(log: seq<Entry>, p: seq<string>, address: string)
    requires AllClean(log) && Clean(address) && Segments(address) == p && address !in AddressesAt(Addresses(log), p)
    ensures GettersFor(log, address) == GettersAt(log, p) == []
  {
    if log != [] {
      var front := log[..|log| - 1];
      assert Addresses(log)[..|log| - 1] == Addresses(front);
      if Segments(log[|log| - 1].address) == p {
        SameNodeSameAddress(log[|log| - 1].address, address);
      }
      NodeWithoutAddress(front, p, address);
    }
  }

  lemma {:induction false} NoAddressNoGetter(log: seq<Entry>, p: seq<string>)
    requires AddressesAt(Addresses(log), p) == []
    ensures GettersAt(log, p) == []
  {
    if log != [] {
      assert Addresses(log)[..|log| - 1] == Addresses(log[..|log| - 1]);
      NoAddressNoGetter(log[..|log| - 1], p);
    }
  }

  // ---------- the keyring ----------

  /** A store that holds what was added. */
  ghost predicate Holds(store: map<string, seq<Getter>>, log: seq<Entry>) {
    && AllClean(log)
    && (forall a :: a in store <==> a in Addresses(log))
    && (forall a :: a in store ==> store[a] == GettersFor(log, a))
  }

  class GeneralOciKeyring {
    var index: IndexNode
    var store: map<string, seq<Getter>>
    ghost var log: seq<Entry>

    ghost predicate Valid()
      reads this, index, index.repr
      ensures Valid() ==> this !in index.repr
    {
      && this !in index.repr && index.Valid()
      && index.tree == Built(Addresses(log))
      && Holds(store, log)
    }

    constructor ()
      ensures Valid() && log == [] && fresh(index) && fresh(index.repr)
    {
      index := new IndexNode("");
      store, log := map[], [];
    }

    method AddAuthConfigGetter(norm: Normalizer, address: string, getter: Getter) returns (ok: bool)
      requires Valid() && Normalizes(norm)
      modifies this, index.repr
      ensures Valid() && index == old(index) && fresh(index.repr - old(index.repr)) && old(index.repr) <= index.repr
      ensures ok <==> NormalForm(norm, address).Some?
      ensures log == if ok then old(log) + [Entry(NormalForm(norm, address).value, getter)] else old(log)
    {
      var normalized := NormalForm(norm, address);
      if normalized == None {
        return false;
      }
      Append(normalized.value, getter);
      ok := true;
    }

    method Append(address: string, getter: Getter)
      requires Valid() && Clean(address)
      modifies this, index.repr
      ensures Valid() && index == old(index) && fresh(index.repr - old(index.repr)) && old(index.repr) <= index.repr
      ensures log == old(log) + [Entry(address, getter)]
    {
      hide Clean, Holds, Built, SetAt, Segments, Addresses, IndexNode.Valid;
      LogStep(store, log, Entry(address, getter));
      store := store[address := (if address in store then store[address] else []) + [getter]];
      index.Set(address, [address]);
      log := log + [Entry(address, getter)];
    }

    /** Asks the getters at the best matching node, one after the other. */
    method Get(url: string) returns (r: Option<Auth>)
      requires Valid()
      ensures r == Answer(log, url)
    {
      var addresses := index.Find(url);
      TrieEqualsFlat(Addresses(log), Segments(url));
      ghost var p := LongestPrefix(Addresses(log), Segments(url));
      for i := 0 to |addresses|
        invariant i > 0 ==> Answer(log, url) == None
      {
        NodeHasOneAddress(log, p, addresses[i]);
        AddressInLog(log, p, addresses[i]);
        r := Ask(store[addresses[i]], url);
        if r.Some? {
          return;
        }
      }
      if addresses == [] {
        NoAddressNoGetter(log, p);
      }
      r := None;
    }

    static method Ask(getters: seq<Getter>, url: string) returns (r: Option<Auth>)
      ensures r == FirstAnswer(getters, url)
    {
      for i := 0 to |getters|
        invariant FirstAnswer(getters, url) == FirstAnswer(getters[i..], url)
      {
        var auth := getters[i](url);
        assert getters[i..][1..] == getters[i + 1..];
        if auth == None || IsEmptyAuthConfig(auth.value) {
          continue;
        }
        return auth;
      }
      r := None;
    }
  }

  lemma {:induction false} AddressInLog(log: seq<Entry>, p: seq<string>, address: string)
    requires address in AddressesAt(Addresses(log), p)
    ensures address in Addresses(log)
  {
    var front := log[..|log| - 1];
    assert Addresses(log)[..|log| - 1] == Addresses(front);
    if address in AddressesAt(Addresses(front), p) {
      AddressInLog(front, p, address);
      assert Addresses(front) <= Addresses(log);
    }
  }

  lemma AddressesStep(log: seq<Entry>, e: Entry)
    ensures Addresses(log + [e]) == Addresses(log) + [e.address]
  {
  }

  lemma GettersForStep(log: seq<Entry>, e: Entry, a: string)
    ensures GettersFor(log + [e], a) == GettersFor(log, a) + if e.address == a then [e.getter] else []
  {
    assert (log + [e])[..|log|] == log;
  }

  lemma BuiltStep(addresses: seq<string>, a: string)
    ensures Built(addresses + [a]) == SetAt(Built(addresses), Segments(a), [a])
  {
    assert (addresses + [a])[..|addresses|] == addresses;
  }

  /** One more getter: it goes behind those of its address. */
  lemma LogStep(store: map<string, seq<Getter>>, log: seq<Entry>, e: Entry)
    requires Holds(store, log) && Clean(e.address)
    ensures Built(Addresses(log + [e])) == SetAt(Built(Addresses(log)), Segments(e.address), [e.address])
    ensures Holds(store[e.address := (if e.address in store then store[e.address] else []) + [e.getter]], log + [e])
  {
    hide GettersFor, Addresses, Built, Segments, SetAt, Clean;
    AddressesStep(log, e);
    BuiltStep(Addresses(log), e.address);
    var next := store[e.address := (if e.address in store then store[e.address] else []) + [e.getter]];
    forall a | a in next
      ensures next[a] == GettersFor(log + [e], a)
    {
      GettersForStep(log, e, a);
      if a !in store {
        NoGetterFor(log, a);
      }
    }
  }

  lemma {:induction false} NoGetterFor(log: seq<Entry>, a: string)
    requires a !in Addresses(log)
    ensures GettersFor(log, a) == []
  {
    if log != [] {
      assert forall i :: 0 <= i < |log| ==> Addresses(log)[i] == log[i].address;
      assert Addresses(log[..|log| - 1]) == Addresses(log)[..|log| - 1];
      NoGetterFor(log[..|log| - 1], a);
    }
  }
}
