/** The index of credential addresses by path segment (IndexNode in ociclient/credentials/keyring.go). */
module CredentialTrie {
  import opened Common
  import opened Strings

  // ---------- paths ----------

  /** The first segment of a path, and the rest that a level hands to the next one. */
  function Head(path: string): string {
    Split(path, '/')[0]
  }

  function Rest(path: string): string {
    Join(Split(path, '/')[1..], '/')
  }

  lemma RestShorter(path: string)
    requires path != ""
    ensures |Rest(path)| < |path|
  {
    JoinSplit(path, '/');
  }

  /** The segments that the levels see, one by one. */
  function Segments(path: string): seq<string>
    decreases |path|
  {
    if path == "" then []
    else
      RestShorter(path);
      [Head(path)] + Segments(Rest(path))
  }

  /** Re-joining and re-splitting at every level loses nothing but an empty last segment. */
  lemma {:induction false} SegmentsAreSplit(path: string)
    ensures var parts := Split(path, '/');
      Segments(path) == if parts[|parts| - 1] == "" then parts[..|parts| - 1] else parts
    decreases |path|
  {
    if path != "" {
      RestShorter(path);
      var parts := Split(path, '/');
      SegmentsAreSplit(Rest(path));
      SplitParts(path, '/');
      if |parts| > 1 {
        SplitJoin(parts[1..], '/');
        assert Split(Rest(path), '/') == parts[1..];
      } else {
        JoinSplit(path, '/');
        assert parts == [path];
      }
    }
  }

  // ---------- the tree as a value ----------

  datatype Trie = Trie(segment: string, addresses: seq<string>, children: seq<Trie>)

  const EMPTY := Trie("", [], [])

  /** The position of the first child for the segment, or the number of children. */
  function IndexOf(children: seq<Trie>, segment: string): (i: nat)
    ensures i <= |children|
    ensures i < |children| ==> children[i].segment == segment
    ensures forall j :: 0 <= j < i ==> children[j].segment != segment
  {
    if children == [] then 0
    else if children[0].segment == segment then 0
    else 1 + IndexOf(children[1..], segment)
  }

  function SetAt(t: Trie, segments: seq<string>, addresses: seq<string>): (r: Trie)
    ensures r.segment == t.segment
    decreases |segments|
  {
    if segments == [] then
      t.(addresses := t.addresses + addresses)
    else
      var i := IndexOf(t.children, segments[0]);
      if i < |t.children| then
        t.(children := t.children[i := SetAt(t.children[i], segments[1..], addresses)])
      else
        t.(children := t.children + [SetAt(Trie(segments[0], [], []), segments[1..], addresses)])
  }

  function FindAt(t: Trie, segments: seq<string>): seq<string>
    decreases |segments|
  {
    if segments == [] then
      t.addresses
    else
      var i := IndexOf(t.children, segments[0]);
      if i < |t.children| then FindAt(t.children[i], segments[1..]) else t.addresses
  }

  /** The addresses of exactly this node, if there is one. */
  function Lookup(t: Trie, segments: seq<string>): Option<seq<string>>
    decreases |segments|
  {
    if segments == [] then
      Some(t.addresses)
    else
      var i := IndexOf(t.children, segments[0]);
      if i < |t.children| then Lookup(t.children[i], segments[1..]) else None
  }

  function OrEmpty(o: Option<seq<string>>): seq<string> {
    if o.Some? then o.value else []
  }

  lemma IndexOfUpdate(children: seq<Trie>, i: nat, t: Trie, segment: string)
    requires i < |children| && t.segment == children[i].segment
    ensures IndexOf(children[i := t], segment) == IndexOf(children, segment)
  {
    assert forall k :: 0 <= k < |children| ==> children[i := t][k].segment == children[k].segment;
  }

  lemma IndexOfAppend(children: seq<Trie>, t: Trie, segment: string)
    requires IndexOf(children, t.segment) == |children|
    ensures IndexOf(children + [t], segment) ==
      if segment == t.segment then |children|
      else if IndexOf(children, segment) < |children| then IndexOf(children, segment)
      else |children| + 1
  {
    var i, j := IndexOf(children + [t], segment), IndexOf(children, segment);
    assert forall k :: 0 <= k < |children| ==> (children + [t])[k] == children[k];
    assert (children + [t])[|children|] == t;
  }

  /** What one Set changes: the node of the path gets the addresses, and all nodes on the way to it come into being. */
  lemma {:induction false} LookupAfterSet(t: Trie, s: seq<string>, addresses: seq<string>, p: seq<string>)
    ensures Lookup(SetAt(t, s, addresses), p) ==
      if p == s then Some(OrEmpty(Lookup(t, p)) + addresses)
      else if p <= s then Some(OrEmpty(Lookup(t, p)))
      else Lookup(t, p)
    decreases |s|
  {
    if s != [] && p != [] {
      var i := IndexOf(t.children, s[0]);
      assert (p == s <==> p[0] == s[0] && p[1..] == s[1..]) && (p <= s <==> p[0] == s[0] && p[1..] <= s[1..]);
      if i < |t.children| {
        IndexOfUpdate(t.children, i, SetAt(t.children[i], s[1..], addresses), p[0]);
        LookupAfterSet(t.children[i], s[1..], addresses, p[1..]);
      } else {
        var child := Trie(s[0], [], []);
        IndexOfAppend(t.children, SetAt(child, s[1..], addresses), p[0]);
        LookupAfterSet(child, s[1..], addresses, p[1..]);
      }
    }
  }

  /** Siblings have different segments, on all levels. */
  ghost predicate UniqueSegments(t: Trie) {
    && (forall i, j :: 0 <= i < j < |t.children| ==> t.children[i].segment != t.children[j].segment)
    && (forall i :: 0 <= i < |t.children| ==> UniqueSegments(t.children[i]))
  }

  lemma {:induction false} SetKeepsUnique(t: Trie, segments: seq<string>, addresses: seq<string>)
    requires UniqueSegments(t)
    ensures UniqueSegments(SetAt(t, segments, addresses))
    decreases |segments|
  {
    if segments != [] {
      var i := IndexOf(t.children, segments[0]);
      if i < |t.children| {
        SetKeepsUnique(t.children[i], segments[1..], addresses);
      } else {
        SetKeepsUnique(Trie(segments[0], [], []), segments[1..], addresses);
      }
    }
  }

  // ---------- the flat specification ----------

  /** Each Set stores an address under a path; in the keyring the two are the same string. */
  function Built(log: seq<string>): Trie {
    if log == [] then EMPTY
    else SetAt(Built(log[..|log| - 1]), Segments(log[|log| - 1]), [log[|log| - 1]])
  }

  lemma {:induction false} BuiltIsUnique(log: seq<string>)
    ensures UniqueSegments(Built(log))
  {
    if log != [] {
      BuiltIsUnique(log[..|log| - 1]);
      SetKeepsUnique(Built(log[..|log| - 1]), Segments(log[|log| - 1]), [log[|log| - 1]]);
    }
  }

  /** The addresses that were stored at exactly this path, in order of insertion. */
  function AddressesAt(log: seq<string>, p: seq<string>): seq<string> {
    if log == [] then []
    else
      AddressesAt(log[..|log| - 1], p) + if Segments(log[|log| - 1]) == p then [log[|log| - 1]] else []
  }

  /** Some stored path starts with `p`. */
  ghost predicate Reached(log: seq<string>, p: seq<string>) {
    p == [] || exists i :: 0 <= i < |log| && p <= Segments(log[i])
  }

  /** The longest prefix of `q` that some stored path starts with. */
  ghost function LongestPrefix(log: seq<string>, q: seq<string>): (p: seq<string>)
    ensures p <= q && Reached(log, p)
    ensures forall k :: |p| < k <= |q| ==> !Reached(log, q[..k])
  {
    if Reached(log, q) then q
    else
      var p := LongestPrefix(log, q[..|q| - 1]);
      assert forall k :: 0 <= k < |q| ==> q[..|q| - 1][..k] == q[..k];
      p
  }

  lemma ReachedStep(log: seq<string>, p: seq<string>)
    requires log != []
    ensures Reached(log, p) <==> Reached(log[..|log| - 1], p) || p <= Segments(log[|log| - 1])
  {
    var front := log[..|log| - 1];
    if Reached(log, p) && p != [] && !(p <= Segments(log[|log| - 1])) {
      var i :| 0 <= i < |log| && p <= Segments(log[i]);
      assert front[i] == log[i];
    }
    if Reached(front, p) && p != [] {
      var i :| 0 <= i < |front| && p <= Segments(front[i]);
      assert log[i] == front[i];
    }
  }

  lemma {:induction false} AddressesOnlyWhereReached(log: seq<string>, p: seq<string>)
    requires !Reached(log, p)
    ensures AddressesAt(log, p) == []
  {
    if log != [] {
      ReachedStep(log, p);
      AddressesOnlyWhereReached(log[..|log| - 1], p);
    }
  }

  lemma {:induction false} LookupBuilt(log: seq<string>, p: seq<string>)
    ensures Lookup(Built(log), p) == if Reached(log, p) then Some(AddressesAt(log, p)) else None
  {
    if log != [] {
      var front, last := log[..|log| - 1], log[|log| - 1];
      LookupBuilt(front, p);
      LookupAfterSet(Built(front), Segments(last), [last], p);
      ReachedStep(log, p);
      assert AddressesAt(front, p) + [] == AddressesAt(front, p);
      if !Reached(front, p) {
        AddressesOnlyWhereReached(front, p);
      }
    }
  }

  /** A search ends at the longest prefix of the path for which there is a node. */
  lemma {:induction false} FindIsLongest(t: Trie, q: seq<string>, k: nat)
    requires k <= |q|
    requires forall i :: 0 <= i <= |q| ==> (Lookup(t, q[..i]).Some? <==> i <= k)
    ensures Lookup(t, q[..k]) == Some(FindAt(t, q))
    decreases |q|
  {
    if q != [] {
      var i := IndexOf(t.children, q[0]);
      if i < |t.children| {
        forall m | 0 <= m <= |q| - 1
          ensures Lookup(t.children[i], q[1..][..m]) == Lookup(t, q[..m + 1])
        {
          assert q[..m + 1][1..] == q[1..][..m];
        }
        assert k > 0 by {
          assert Lookup(t, q[..1]) == Lookup(t.children[i], q[1..][..0]);
        }
        FindIsLongest(t.children[i], q[1..], k - 1);
      } else {
        assert k == 0 by {
          assert Lookup(t, q[..1]) == None;
        }
      }
    }
  }

  /** Prefixes of a reached path are reached. */
  lemma ReachedPrefix(log: seq<string>, q: seq<string>, i: nat, j: nat)
    requires i <= j <= |q| && Reached(log, q[..j])
    ensures Reached(log, q[..i])
  {
    if i > 0 {
      var m :| 0 <= m < |log| && q[..j] <= Segments(log[m]);
      assert q[..i] <= q[..j];
    }
  }

  /**
    After any sequence of Sets, a search yields the addresses that were stored at the longest prefix of the path that
    some stored path starts with, in order of insertion; none, if that node is only on the way to others.
   */
  lemma TrieEqualsFlat(log: seq<string>, q: seq<string>)
    ensures FindAt(Built(log), q) == AddressesAt(log, LongestPrefix(log, q))
  {
    var p := LongestPrefix(log, q);
    assert p == q[..|p|];
    forall i | 0 <= i <= |q|
      ensures Lookup(Built(log), q[..i]).Some? <==> i <= |p|
    {
      LookupBuilt(log, q[..i]);
      if i <= |p| {
        ReachedPrefix(log, q, i, |p|);
      }
    }
    FindIsLongest(Built(log), q, |p|);
    LookupBuilt(log, p);
  }

  // ---------- the tree in memory ----------

  class IndexNode {
    var segment: string
    var addresses: seq<string>
    var children: seq<IndexNode>
    ghost var tree: Trie
    ghost var repr: set<object>

    ghost predicate Valid()
      reads this, repr
      decreases repr
      ensures Valid() ==> this in repr
    {
      && this in repr
      && tree.segment == segment && tree.addresses == addresses && |tree.children| == |children|
      && (forall i :: 0 <= i < |children| ==>
            && children[i] in repr && children[i].repr < repr && this !in children[i].repr
            && children[i].Valid() && children[i].tree == tree.children[i])
      && (forall i, j :: 0 <= i < j < |children| ==> children[i].repr !! children[j].repr)
    }

    constructor (segment: string)
      ensures Valid() && fresh(repr) && tree == Trie(segment, [], [])
    {
      this.segment, addresses, children := segment, [], [];
      tree, repr := Trie(segment, [], []), {this};
    }

    method FindSegment(segment: string) returns (i: nat)
      requires Valid()
      ensures i == IndexOf(tree.children, segment)
    {
      i := 0;
      while i < |children|
        invariant 0 <= i <= |children|
        invariant forall j :: 0 <= j < i ==> tree.children[j].segment != segment
      {
        if children[i].segment == segment {
          return;
        }
        i := i + 1;
      }
    }

    method Set(path: string, newAddresses: seq<string>)
      requires Valid()
      modifies repr
      ensures Valid() && fresh(repr - old(repr)) && old(repr) <= repr
      ensures tree == SetAt(old(tree), Segments(path), newAddresses)
      decreases |path|, 0
    {
      var splitPath := Split(path, '/');
      JoinSplit(path, '/');
      if |splitPath| == 1 && splitPath[0] == "" {
        addresses := addresses + newAddresses;
        tree := tree.(addresses := addresses);
        return;
      }
      RestShorter(path);
      var i := FindSegment(splitPath[0]);
      if i == |children| {
        SetInNewChild(splitPath[0], Join(splitPath[1..], '/'), newAddresses);
      } else {
        SetInChild(i, Join(splitPath[1..], '/'), newAddresses);
      }
    }

    method SetInNewChild(segment: string, rest: string, newAddresses: seq<string>)
      requires Valid()
      modifies this
      ensures Valid() && fresh(repr - old(repr)) && old(repr) <= repr
      ensures tree == old(tree).(
        children := old(tree).children + [SetAt(Trie(segment, [], []), Segments(rest), newAddresses)])
      decreases |rest|, 1
    {
      hide SetAt, Segments;
      var child := new IndexNode(segment);
      child.Set(rest, newAddresses);
      children := children + [child];
      tree := tree.(children := tree.children + [child.tree]);
      repr := repr + child.repr;
    }

    method SetInChild(i: nat, rest: string, newAddresses: seq<string>)
      requires Valid() && i < |children|
      modifies repr
      ensures Valid() && fresh(repr - old(repr)) && old(repr) <= repr
      ensures tree == old(tree).(
        children := old(tree).children[i := SetAt(old(tree).children[i], Segments(rest), newAddresses)])
      decreases |rest|, 1
    {
      children[i].Set(rest, newAddresses);
      tree := tree.(children := tree.children[i := children[i].tree]);
      repr := repr + children[i].repr;
    }

    method Find(path: string) returns (r: seq<string>)
      requires Valid()
      ensures r == FindAt(tree, Segments(path))
      decreases |path|
    {
      var splitPath := Split(path, '/');
      JoinSplit(path, '/');
      if |splitPath| == 1 && splitPath[0] == "" {
        return addresses;
      }
      RestShorter(path);
      var i := FindSegment(splitPath[0]);
      if i == |children| {
        return addresses;
      }
      r := children[i].Find(Join(splitPath[1..], '/'));
    }
  }
}
