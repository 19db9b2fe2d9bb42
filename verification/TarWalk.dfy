/**
  Packing a directory into a tar archive (pkg/commands/componentarchive/input/input.go). The function that adds a file
  calls itself from inside a walk that already visits all levels.
 */
module TarWalk {
  import opened Common
  import opened Strings

  /** A path below the root, name by name. */
  type Path = seq<string>

  /** What the file system holds; directories list their entries in the order in which the walk reads them. */
  datatype Node = File(content: Bytes) | Dir(entries: seq<(string, Node)>) | Symlink | Other

  datatype Entry = FileEntry(path: Path, content: Bytes) | DirEntry(path: Path)

  datatype TarError = MalformedPattern | UnsupportedType

  /** `matches` is shell pattern matching, by the library; `None` is a malformed pattern. */
  datatype Options = Options(
    includeFiles: seq<string>, excludeFiles: seq<string>, matches: (string, string) -> Option<bool>)

  // ---------- which files are included ----------

  /** Does one of the patterns match? The search stops at the first one that does or that is malformed. */
  function AnyMatch(o: Options, patterns: seq<string>, path: string): Result<bool, TarError> {
    if patterns == [] then Ok(false)
    else match o.matches(patterns[0], path)
      case None => Err(MalformedPattern)
      case Some(true) => Ok(true)
      case Some(false) => AnyMatch(o, patterns[1..], path)
  }

  function Selected(o: Options, path: Path): Result<bool, TarError> {
    var name := Join(path, '/');
    var excluded :- AnyMatch(o, o.excludeFiles, name);
    if excluded then Ok(false)
    else if o.includeFiles == [] then Ok(true)
    else AnyMatch(o, o.includeFiles, name)
  }

  method Included(o: Options, path: Path) returns (r: Result<bool, TarError>)
    ensures r == Selected(o, path)
  {
    var name := Join(path, '/');
    for i := 0 to |o.excludeFiles|
      invariant AnyMatch(o, o.excludeFiles, name) == AnyMatch(o, o.excludeFiles[i..], name)
    {
      assert o.excludeFiles[i..][1..] == o.excludeFiles[i + 1..];
      var matched := o.matches(o.excludeFiles[i], name);
      if matched == None {
        return Err(MalformedPattern);
      }
      if matched.value {
        return Ok(false);
      }
    }
    if o.includeFiles == [] {
      return Ok(true);
    }
    for i := 0 to |o.includeFiles|
      invariant AnyMatch(o, o.includeFiles, name) == AnyMatch(o, o.includeFiles[i..], name)
    {
      assert o.includeFiles[i..][1..] == o.includeFiles[i + 1..];
      var matched := o.matches(o.includeFiles[i], name);
      if matched == None {
        return Err(MalformedPattern);
      }
      if matched.value {
        return Ok(true);
      }
    }
    r := Ok(false);
  }

  /** The first pattern that matches or is malformed decides. */
  lemma {:induction false} AnyMatchExact(o: Options, patterns: seq<string>, path: string, i: nat)
    requires i <= |patterns| && forall j :: 0 <= j < i ==> o.matches(patterns[j], path) == Some(false)
    requires i < |patterns| ==> o.matches(patterns[i], path) != Some(false)
    ensures AnyMatch(o, patterns, path) ==
      if i == |patterns| then Ok(false)
      else if o.matches(patterns[i], path) == None then Err(MalformedPattern)
      else Ok(true)
  {
    if i > 0 {
      AnyMatchExact(o, patterns[1..], path, i - 1);
    }
  }

  ghost predicate SomeMatches(o: Options, patterns: seq<string>, name: string) {
    exists i :: 0 <= i < |patterns| && o.matches(patterns[i], name) == Some(true)
  }

  lemma {:induction false} AnyMatchIff(o: Options, patterns: seq<string>, name: string)
    requires forall i :: 0 <= i < |patterns| ==> o.matches(patterns[i], name).Some?
    ensures AnyMatch(o, patterns, name) == Ok(SomeMatches(o, patterns, name))
  {
    if patterns != [] {
      AnyMatchIff(o, patterns[1..], name);
      if i :| 0 <= i < |patterns| && o.matches(patterns[i], name) == Some(true) {
        assert i == 0 || patterns[1..][i - 1] == patterns[i];
      }
    }
  }

  /** Excludes win over includes, and no includes means everything. */
  lemma SelectedIff(o: Options, path: Path)
    requires forall i :: 0 <= i < |o.excludeFiles| ==> o.matches(o.excludeFiles[i], Join(path, '/')).Some?
    requires forall i :: 0 <= i < |o.includeFiles| ==> o.matches(o.includeFiles[i], Join(path, '/')).Some?
    ensures Selected(o, path) ==
      Ok(!SomeMatches(o, o.excludeFiles, Join(path, '/')) &&
         (o.includeFiles == [] || SomeMatches(o, o.includeFiles, Join(path, '/'))))
  {
    AnyMatchIff(o, o.excludeFiles, Join(path, '/'));
    AnyMatchIff(o, o.includeFiles, Join(path, '/'));
  }

  // ---------- what one call writes ----------

  function Added(o: Options, path: Path, node: Node): Result<seq<Entry>, TarError>
    decreases node, 1, 0
  {
    var included :- if path == [] then Ok(true) else Selected(o, path);
    if !included then Ok([])
    else match node
      case File(content) => Ok([FileEntry(path, content)])
      case Dir(entries) =>
        var below :- Walked(o, path, node, |entries|);
        Ok((if path == [] then [] else [DirEntry(path)]) + below)
      case Symlink => Ok([])
      case Other => Err(UnsupportedType)
  }

  /** The walk of the first `n` entries of a directory. */
  function Walked(o: Options, path: Path, node: Node, n: nat): Result<seq<Entry>, TarError>
    requires node.Dir? && n <= |node.entries|
    decreases node, 0, n
  {
    if n == 0 then Ok([])
    else
      var (name, child) := node.entries[n - 1];
      var front :- Walked(o, path, node, n - 1);
      var visited :- Visited(o, path + [name], child);
      Ok(front + visited)
  }

  /** The walk at one entry: it is added, and if it is a directory, the walk goes on below it. */
  function Visited(o: Options, path: Path, node: Node): Result<seq<Entry>, TarError>
    decreases node, 2, 0
  {
    var own :- Added(o, path, node);
    var below :- if node.Dir? then Walked(o, path, node, |node.entries|) else Ok([]);
    Ok(own + below)
  }

  // ---------- the program ----------

  class TarWriter {
    var entries: seq<Entry>

    constructor ()
      ensures entries == []
    {
      entries := [];
    }

    method Write(entry: Entry)
      modifies this
      ensures entries == old(entries) + [entry]
    {
      entries := entries + [entry];
    }
  }

  method AddFileToTar(tw: TarWriter, o: Options, path: Path, node: Node) returns (r: Result<(), TarError>)
    modifies tw
    ensures r == (if Added(o, path, node).Ok? then Ok(()) else Err(Added(o, path, node).error))
    ensures r.Ok? ==> tw.entries == old(tw.entries) + Added(o, path, node).value
    decreases node, 1, 0
  {
    if path != [] {
      var included := Included(o, path);
      if included.Err? {
        return Err(included.error);
      }
      if !included.value {
        return Ok(());
      }
    }
    match node {
    case File(content) =>
      tw.Write(FileEntry(path, content));
      r := Ok(());
    case Dir(_) =>
      if path != [] {
        tw.Write(DirEntry(path));
      }
      r := Walk(tw, o, path, node);
    case Symlink => r := Ok(());
    case Other => r := Err(UnsupportedType);
    }
  }

  method Walk(tw: TarWriter, o: Options, path: Path, node: Node) returns (r: Result<(), TarError>)
    requires node.Dir?
    modifies tw
    ensures var w := Walked(o, path, node, |node.entries|);
      && r == (if w.Ok? then Ok(()) else Err(w.error))
      && (r.Ok? ==> tw.entries == old(tw.entries) + w.value)
    decreases node, 0, |node.entries|
  {
    ghost var before := tw.entries;
    for i := 0 to |node.entries|
      invariant Walked(o, path, node, i).Ok?
      invariant tw.entries == before + Walked(o, path, node, i).value
    {
      var (name, child) := node.entries[i];
      WalkStops(o, path, node, i + 1);
      r := Visit(tw, o, path + [name], child);
      if r.Err? {
        return;
      }
      Associative(before, Walked(o, path, node, i).value, Visited(o, path + [name], child).value);
    }
    r := Ok(());
  }

  method Visit(tw: TarWriter, o: Options, path: Path, node: Node) returns (r: Result<(), TarError>)
    modifies tw
    ensures r == (if Visited(o, path, node).Ok? then Ok(()) else Err(Visited(o, path, node).error))
    ensures r.Ok? ==> tw.entries == old(tw.entries) + Visited(o, path, node).value
    decreases node, 2, 0
  {
    r := AddFileToTar(tw, o, path, node);
    if r.Ok? && node.Dir? {
      r := Walk(tw, o, path, node);
    }
  }

  /** An error ends the whole walk. */
  lemma {:induction false} WalkStops(o: Options, path: Path, node: Node, n: nat)
    requires node.Dir? && n <= |node.entries|
    ensures Walked(o, path, node, n).Err? ==> Walked(o, path, node, |node.entries|) == Walked(o, path, node, n)
    decreases |node.entries| - n
  {
    if n < |node.entries| {
      WalkStops(o, path, node, n + 1);
    }
  }

  method TarFileSystem(o: Options, root: Node) returns (r: Result<seq<Entry>, TarError>)
    ensures r == Added(o, [], root)
  {
    var tw := new TarWriter();
    var added := AddFileToTar(tw, o, [], root);
    assert added.Ok? ==> [] + Added(o, [], root).value == Added(o, [], root).value;
    r := if added.Ok? then Ok(tw.entries) else Err(added.error);
  }

  // ---------- how often an entry is written ----------

  /** The names within each directory differ. */
  ghost predicate UniqueNames(node: Node) {
    node.Dir? ==>
      && (forall i, j :: 0 <= i < j < |node.entries| ==> node.entries[i].0 != node.entries[j].0)
      && (forall i :: 0 <= i < |node.entries| ==> UniqueNames(node.entries[i].1))
  }

  /** The position of a name among the first `n` entries of a directory. */
  function Find(node: Node, name: string, n: nat): Option<nat>
    requires node.Dir? && n <= |node.entries|
    ensures var r := Find(node, name, n); r.Some? ==> r.value < n && node.entries[r.value].0 == name
  {
    if n == 0 then None
    else if node.entries[n - 1].0 == name then Some(n - 1)
    else Find(node, name, n - 1)
  }

  /** The node at a path. */
  function NodeAt(node: Node, path: Path): Option<Node>
    decreases |path|
  {
    if path == [] then Some(node)
    else if !node.Dir? then None
    else
      var i := Find(node, path[0], |node.entries|);
      if i == None then None else NodeAt(node.entries[i.value].1, path[1..])
  }

  function Count(entries: seq<Entry>, path: Path): nat {
    if entries == [] then 0
    else Count(entries[..|entries| - 1], path) + if entries[|entries| - 1].path == path then 1 else 0
  }

  /** The number of included directories on the way from `at` to the parent of `at + rel`, `at` itself not counted. */
  function IncludedBetween(o: Options, at: Path, rel: Path): nat
    decreases |rel|
  {
    if |rel| <= 1 then 0
    else (if Selected(o, at + rel[..1]) == Ok(true) then 1 else 0) + IncludedBetween(o, at + rel[..1], rel[1..])
  }

  /** A file or a directory that is included. */
  predicate Writable(o: Options, path: Path, node: Option<Node>) {
    node.Some? && (node.value.File? || node.value.Dir?) && Selected(o, path) == Ok(true)
  }

  /** How often the entry `at + rel` is to be written by a walk of the directory `node` that is at `at`. */
  function Times(o: Options, at: Path, node: Node, rel: Path): nat {
    if Writable(o, at + rel, NodeAt(node, rel)) then Pow2(IncludedBetween(o, at, rel)) else 0
  }

  lemma {:induction false} CountConcat(a: seq<Entry>, b: seq<Entry>, path: Path)
    ensures Count(a + b, path) == Count(a, path) + Count(b, path)
  {
    if b == [] {
      assert a + b == a;
    } else {
      assert (a + b)[..|a + b| - 1] == a + b[..|b| - 1];
      CountConcat(a, b[..|b| - 1], path);
    }
  }

  lemma {:induction false} CountNone(entries: seq<Entry>, path: Path)
    requires forall e :: e in entries ==> e.path != path
    ensures Count(entries, path) == 0
  {
    if entries != [] {
      assert entries[|entries| - 1] in entries;
      CountNone(entries[..|entries| - 1], path);
    }
  }

  /** A call for a path writes entries at and below that path only, a walk of a directory only below it. */
  lemma {:induction false} AddedBelow(o: Options, path: Path, node: Node, e: Entry)
    requires Added(o, path, node).Ok? && e in Added(o, path, node).value
    ensures path <= e.path
    decreases node, 1, 0
  {
    if node.Dir? && e != DirEntry(path) {
      WalkedBelow(o, path, node, |node.entries|, e);
    }
  }

  lemma {:induction false} WalkedBelow(o: Options, path: Path, node: Node, n: nat, e: Entry)
    requires node.Dir? && n <= |node.entries|
    requires Walked(o, path, node, n).Ok? && e in Walked(o, path, node, n).value
    ensures path < e.path
    ensures exists i :: 0 <= i < n && node.entries[i].0 == e.path[|path|]
    decreases node, 0, n
  {
    var (name, child) := node.entries[n - 1];
    if e in Walked(o, path, node, n - 1).value {
      WalkedBelow(o, path, node, n - 1, e);
    } else {
      VisitedBelow(o, path + [name], child, e);
      assert (path + [name])[|path|] == name;
    }
  }

  lemma {:induction false} VisitedBelow(o: Options, path: Path, node: Node, e: Entry)
    requires Visited(o, path, node).Ok? && e in Visited(o, path, node).value
    ensures path <= e.path
    decreases node, 2, 0
  {
    if e in Added(o, path, node).value {
      AddedBelow(o, path, node, e);
    } else {
      WalkedBelow(o, path, node, |node.entries|, e);
    }
  }

  lemma NoneElsewhere(o: Options, path: Path, node: Node, n: nat, at: Path)
    requires node.Dir? && n <= |node.entries| && Walked(o, path, node, n).Ok?
    requires !(path < at) || Find(node, at[|path|], n) == None
    ensures Count(Walked(o, path, node, n).value, at) == 0
  {
    forall e | e in Walked(o, path, node, n).value
      ensures e.path != at
    {
      WalkedBelow(o, path, node, n, e);
      if path < at && e.path == at {
        var i :| 0 <= i < n && node.entries[i].0 == e.path[|path|];
        FindSome(node, i, n);
      }
    }
    CountNone(Walked(o, path, node, n).value, at);
  }

  lemma {:induction false} FindSome(node: Node, i: nat, n: nat)
    requires node.Dir? && i < n <= |node.entries|
    ensures Find(node, node.entries[i].0, n).Some?
  {
    if node.entries[n - 1].0 != node.entries[i].0 {
      FindSome(node, i, n - 1);
    }
  }

  lemma {:induction false} FindUnique(node: Node, i: nat, n: nat)
    requires node.Dir? && i < n <= |node.entries| && UniqueNames(node)
    ensures Find(node, node.entries[i].0, n) == Some(i)
  {
    if i < n - 1 {
      FindUnique(node, i, n - 1);
    }
  }

  /** What an entry for the node at a path looks like. */
  function EntryOf(path: Path, node: Node): Entry
    requires node.File? || node.Dir?
  {
    if node.File? then FileEntry(path, node.content) else DirEntry(path)
  }

  /** The multiplicity of a call for a path below the root. */
  lemma {:induction false} AddedTimes(o: Options, path: Path, node: Node, rel: Path)
    requires path != [] && UniqueNames(node) && Added(o, path, node).Ok?
    ensures Count(Added(o, path, node).value, path + rel) ==
      if rel == [] then (if Writable(o, path, Some(node)) then 1 else 0)
      else if Selected(o, path) == Ok(true) then Times(o, path, node, rel) else 0
    decreases node, 1, 0
  {
    var added, at := Added(o, path, node).value, path + rel;
    if Selected(o, path) == Ok(true) && node.Dir? {
      var below := Walked(o, path, node, |node.entries|).value;
      assert added == [DirEntry(path)] + below;
      CountConcat([DirEntry(path)], below, at);
      CountOne(DirEntry(path), at);
      if rel == [] {
        assert at == path;
        NoneElsewhere(o, path, node, |node.entries|, path);
      } else {
        WalkedTimes(o, path, node, rel);
      }
    } else if Selected(o, path) == Ok(true) && node.File? {
      CountOne(FileEntry(path, node.content), at);
    }
  }

  lemma CountOne(e: Entry, path: Path)
    ensures Count([e], path) == if e.path == path then 1 else 0
  {
    assert [e][..0] == [];
  }

  /**
    An entry below a directory is written 2^k times by a walk of the directory, where k is the number of included
    directories strictly between them, and never if it is not included.
   */
  lemma {:induction false} WalkedTimes(o: Options, path: Path, node: Node, rel: Path)
    requires node.Dir? && rel != [] && UniqueNames(node) && Walked(o, path, node, |node.entries|).Ok?
    ensures Count(Walked(o, path, node, |node.entries|).value, path + rel) == Times(o, path, node, rel)
    decreases node, 0, |node.entries| + 1
  {
    var n := |node.entries|;
    var found := Find(node, rel[0], n);
    if found == None {
      NoneElsewhere(o, path, node, n, path + rel);
    } else {
      WalkedTimesFirst(o, path, node, rel, n);
    }
  }

  lemma {:induction false} WalkedTimesFirst(o: Options, path: Path, node: Node, rel: Path, n: nat)
    requires node.Dir? && rel != [] && n <= |node.entries| && UniqueNames(node) && Walked(o, path, node, n).Ok?
    requires Find(node, rel[0], n).Some? && Find(node, rel[0], |node.entries|) == Find(node, rel[0], n)
    ensures Count(Walked(o, path, node, n).value, path + rel) == Times(o, path, node, rel)
    decreases node, 0, n
  {
    var (name, child) := node.entries[n - 1];
    var front, visited := Walked(o, path, node, n - 1).value, Visited(o, path + [name], child).value;
    CountConcat(front, visited, path + rel);
    if name == rel[0] {
      assert rel[..1] == [name];
      FindAbsent(node, n);
      NoneElsewhere(o, path, node, n - 1, path + rel);
      VisitedTimes(o, path, node, n - 1, rel);
    } else {
      WalkedTimesFirst(o, path, node, rel, n - 1);
      forall e | e in visited
        ensures e.path != path + rel
      {
        VisitedBelow(o, path + [name], child, e);
        assert (path + [name])[|path|] == name && (path + rel)[|path|] == rel[0];
      }
      CountNone(visited, path + rel);
    }
  }

  lemma {:induction false} FindAbsent(node: Node, n: nat)
    requires node.Dir? && 0 < n <= |node.entries| && UniqueNames(node)
    ensures Find(node, node.entries[n - 1].0, n - 1) == None
  {
    var found := Find(node, node.entries[n - 1].0, n - 1);
    assert found == None;
  }

  /** One step of the path: an included directory on the way doubles what is written below it. */
  lemma TimesStep(o: Options, path: Path, node: Node, i: nat, rel: Path)
    requires node.Dir? && rel != [] && i < |node.entries| && UniqueNames(node) && node.entries[i].0 == rel[0]
    ensures var child, at, rest := node.entries[i].1, path + rel[..1], rel[1..];
      Times(o, path, node, rel) ==
      if rest == [] then (if Writable(o, at, Some(child)) then 1 else 0)
      else if child.Dir? && Selected(o, at) == Ok(true) then 2 * Times(o, at, child, rest)
      else Times(o, at, child, rest)
    ensures var child, at, rest := node.entries[i].1, path + rel[..1], rel[1..];
      rest != [] && !child.Dir? ==> Times(o, at, child, rest) == 0
  {
    FindUnique(node, i, |node.entries|);
    var child, at, rest := node.entries[i].1, path + rel[..1], rel[1..];
    assert path + rel == at + rest;
    assert NodeAt(node, rel) == NodeAt(child, rest);
    if rest == [] {
      assert rel[..1] == rel;
      assert NodeAt(child, rest) == Some(child);
    }
  }

  lemma {:induction false} VisitedTimes(o: Options, path: Path, node: Node, i: nat, rel: Path)
    requires node.Dir? && rel != [] && i < |node.entries| && UniqueNames(node) && node.entries[i].0 == rel[0]
    requires Visited(o, path + rel[..1], node.entries[i].1).Ok?
    ensures Count(Visited(o, path + rel[..1], node.entries[i].1).value, path + rel) == Times(o, path, node, rel)
    decreases node, 0, i
  {
    var child, at, rest := node.entries[i].1, path + rel[..1], rel[1..];
    var own := Added(o, at, child).value;
    var below := if child.Dir? then Walked(o, at, child, |child.entries|).value else [];
    assert path + rel == at + rest;
    assert UniqueNames(child);
    hide Times, Writable, Added, Walked, UniqueNames;
    CountConcat(own, below, path + rel);
    AddedTimes(o, at, child, rest);
    TimesStep(o, path, node, i, rel);
    if child.Dir? {
      if rest == [] {
        assert at + rest == at;
        NoneElsewhere(o, at, child, |child.entries|, at);
      } else {
        WalkedTimes(o, at, child, rest);
      }
    }
  }

  /**
    The multiplicity law: an archive holds the entry of an included file or directory 2^k times, where k is the number
    of included directories strictly between it and the root. It holds nothing else, not even the root.
   */
  lemma MultiplicityLaw(o: Options, root: Node, path: Path)
    requires root.Dir? && UniqueNames(root) && Added(o, [], root).Ok?
    ensures Count(Added(o, [], root).value, path) == if path == [] then 0 else Times(o, [], root, path)
  {
    var entries := Added(o, [], root).value;
    assert entries == Walked(o, [], root, |root.entries|).value;
    assert [] + path == path;
    if path == [] {
      NoneElsewhere(o, [], root, |root.entries|, path);
    } else {
      WalkedTimes(o, [], root, path);
    }
  }

  // ---------- the order of the entries ----------

  /** The entry of directory `d` is among the first `j`. */
  ghost predicate DirBefore(entries: seq<Entry>, j: nat, d: Path)
    requires j <= |entries|
  {
    exists i :: 0 <= i < j && entries[i] == DirEntry(d)
  }

  /** Of every entry, the included directories on its path that have at least `min` names come before it. */
  ghost predicate DirsFirst(o: Options, entries: seq<Entry>, min: nat) {
    forall j, m ::
      0 <= j < |entries| && min <= m < |entries[j].path| && Selected(o, entries[j].path[..m]) == Ok(true) ==>
        DirBefore(entries, j, entries[j].path[..m])
  }

  lemma DirsFirstConcat(o: Options, a: seq<Entry>, b: seq<Entry>, min: nat)
    requires DirsFirst(o, a, min) && DirsFirst(o, b, min)
    ensures DirsFirst(o, a + b, min)
  {
    var all := a + b;
    forall j, m | 0 <= j < |all| && min <= m < |all[j].path| && Selected(o, all[j].path[..m]) == Ok(true)
      ensures DirBefore(all, j, all[j].path[..m])
    {
      var d := all[j].path[..m];
      if j < |a| {
        assert DirBefore(a, j, d);
        var i :| 0 <= i < j && a[i] == DirEntry(d);
        assert all[i] == a[i];
      } else {
        assert DirBefore(b, j - |a|, d);
        var i :| 0 <= i < j - |a| && b[i] == DirEntry(d);
        assert all[|a| + i] == b[i];
      }
    }
  }

  /** A directory in front of its content. */
  lemma DirsFirstBelow(o: Options, path: Path, below: seq<Entry>)
    requires DirsFirst(o, below, |path| + 1) && forall e :: e in below ==> path < e.path
    ensures DirsFirst(o, [DirEntry(path)] + below, |path|)
  {
    var all := [DirEntry(path)] + below;
    forall j, m | 0 <= j < |all| && |path| <= m < |all[j].path| && Selected(o, all[j].path[..m]) == Ok(true)
      ensures DirBefore(all, j, all[j].path[..m])
    {
      assert all[j] == below[j - 1] && below[j - 1] in below;
      if m == |path| {
        assert all[j].path[..m] == path && all[0] == DirEntry(path);
      } else {
        assert DirBefore(below, j - 1, all[j].path[..m]);
        var i :| 0 <= i < j - 1 && below[i] == DirEntry(all[j].path[..m]);
        assert all[1 + i] == below[i];
      }
    }
  }

  /** The directory itself is excluded: nothing has to be in front. */
  lemma DirsFirstExcluded(o: Options, path: Path, below: seq<Entry>)
    requires DirsFirst(o, below, |path| + 1) && forall e :: e in below ==> path < e.path
    requires Selected(o, path) != Ok(true)
    ensures DirsFirst(o, below, |path|)
  {
    forall j, m | 0 <= j < |below| && |path| <= m < |below[j].path| && Selected(o, below[j].path[..m]) == Ok(true)
      ensures DirBefore(below, j, below[j].path[..m])
    {
      assert below[j] in below;
      assert path == below[j].path[..|path|];
    }
  }

  /** In an archive every included directory on the path of an entry comes before the entry. */
  lemma {:induction false} WalkedDirsFirst(o: Options, path: Path, node: Node, n: nat)
    requires node.Dir? && n <= |node.entries| && Walked(o, path, node, n).Ok?
    ensures DirsFirst(o, Walked(o, path, node, n).value, |path| + 1)
    decreases node, 0, n
  {
    if n > 0 {
      var (name, child) := node.entries[n - 1];
      WalkedDirsFirst(o, path, node, n - 1);
      VisitedDirsFirst(o, path + [name], child);
      DirsFirstConcat(
        o, Walked(o, path, node, n - 1).value, Visited(o, path + [name], child).value, |path| + 1);
    }
  }

  lemma {:induction false} VisitedDirsFirst(o: Options, path: Path, node: Node)
    requires path != [] && Visited(o, path, node).Ok?
    ensures DirsFirst(o, Visited(o, path, node).value, |path|)
    decreases node, 1, 0
  {
    if node.Dir? {
      var below := Walked(o, path, node, |node.entries|).value;
      WalkedDirsFirst(o, path, node, |node.entries|);
      forall e | e in below
        ensures path < e.path
      {
        WalkedBelow(o, path, node, |node.entries|, e);
      }
      if Selected(o, path) == Ok(true) {
        DirsFirstConcat(o, below, below, |path| + 1);
        DirsFirstBelow(o, path, below + below);
        assert [DirEntry(path)] + (below + below) == [DirEntry(path)] + below + below;
      } else {
        DirsFirstExcluded(o, path, below);
        assert [] + below == below;
      }
    }
  }

  /** The whole archive: an included directory at any level comes before everything below it. */
  lemma DirectoriesFirst(o: Options, root: Node, j: nat, m: nat)
    requires root.Dir? && Added(o, [], root).Ok?
    requires j < |Added(o, [], root).value| && 0 < m < |Added(o, [], root).value[j].path|
    requires Selected(o, Added(o, [], root).value[j].path[..m]) == Ok(true)
    ensures var entries := Added(o, [], root).value;
      exists i :: 0 <= i < j && entries[i] == DirEntry(entries[j].path[..m])
  {
    var entries := Added(o, [], root).value;
    assert entries == Walked(o, [], root, |root.entries|).value;
    WalkedDirsFirst(o, [], root, |root.entries|);
    assert DirBefore(entries, j, entries[j].path[..m]);
  }

  // ---------- what an archive is unpacked to ----------

  /** Every entry is that of the node at its path. */
  ghost predicate Faithful(e: Entry, path: Path, node: Node) {
    && path <= e.path
    && var found := NodeAt(node, e.path[|path|..]);
       && found.Some? && (found.value.File? || found.value.Dir?)
       && e == EntryOf(e.path, found.value)
  }

  lemma {:induction false} AddedFaithful(o: Options, path: Path, node: Node, e: Entry)
    requires UniqueNames(node) && Added(o, path, node).Ok? && e in Added(o, path, node).value
    ensures Faithful(e, path, node)
    decreases node, 1, 0
  {
    if node.Dir? && e != DirEntry(path) {
      WalkedFaithful(o, path, node, |node.entries|, e);
    }
  }

  lemma {:induction false} WalkedFaithful(o: Options, path: Path, node: Node, n: nat, e: Entry)
    requires node.Dir? && n <= |node.entries| && UniqueNames(node)
    requires Walked(o, path, node, n).Ok? && e in Walked(o, path, node, n).value
    ensures Faithful(e, path, node)
    decreases node, 0, n
  {
    var (name, child) := node.entries[n - 1];
    if e in Walked(o, path, node, n - 1).value {
      WalkedFaithful(o, path, node, n - 1, e);
    } else {
      var at := path + [name];
      if e in Added(o, at, child).value {
        AddedFaithful(o, at, child, e);
      } else {
        WalkedFaithful(o, at, child, |child.entries|, e);
      }
      FaithfulAbove(e, path, node, n - 1);
    }
  }

  lemma FaithfulAbove(e: Entry, path: Path, node: Node, i: nat)
    requires node.Dir? && i < |node.entries| && UniqueNames(node)
    requires Faithful(e, path + [node.entries[i].0], node.entries[i].1)
    ensures Faithful(e, path, node)
  {
    var (name, child) := node.entries[i];
    var rel := e.path[|path|..];
    assert e.path == path + [name] + e.path[|path| + 1..];
    assert rel[0] == name && rel[1..] == e.path[|path| + 1..];
    FindUnique(node, i, |node.entries|);
  }

  /** Unpacking: an entry replaces what an earlier one put at its path. */
  function Extract(entries: seq<Entry>): map<Path, Entry> {
    if entries == [] then map[]
    else
      var e := entries[|entries| - 1];
      Extract(entries[..|entries| - 1])[e.path := e]
  }

  lemma {:induction false} ExtractHolds(entries: seq<Entry>, path: Path)
    ensures path in Extract(entries) <==> Count(entries, path) > 0
    ensures path in Extract(entries) ==> Extract(entries)[path] in entries && Extract(entries)[path].path == path
  {
    if entries != [] {
      ExtractHolds(entries[..|entries| - 1], path);
    }
  }

  /** Unpacking yields exactly the included files and directories, as they were, even below an excluded directory. */
  lemma ExtractionIsExact(o: Options, root: Node, path: Path)
    requires root.Dir? && UniqueNames(root) && Added(o, [], root).Ok?
    ensures var unpacked := Extract(Added(o, [], root).value);
      && (path in unpacked <==> path != [] && Writable(o, path, NodeAt(root, path)))
      && (path in unpacked ==> unpacked[path] == EntryOf(path, NodeAt(root, path).value))
  {
    var entries := Added(o, [], root).value;
    ExtractHolds(entries, path);
    MultiplicityLaw(o, root, path);
    assert [] + path == path;
    if path != [] {
      Pow2Positive(IncludedBetween(o, [], path));
    }
    if path in Extract(entries) {
      AddedFaithful(o, [], root, Extract(entries)[path]);
      assert path[0..] == path;
    }
  }

  // ---------- when packing fails ----------

  /** No file below is included that cannot be packed, and no pattern is found malformed. */
  ghost predicate Packable(o: Options, path: Path, node: Node) {
    node.Dir? ==>
      forall i :: 0 <= i < |node.entries| ==> PackableEntry(o, path + [node.entries[i].0], node.entries[i].1)
  }

  ghost predicate PackableEntry(o: Options, path: Path, node: Node)
    decreases node
  {
    && Selected(o, path).Ok?
    && (Selected(o, path) == Ok(true) ==> !node.Other?)
    && (node.Dir? ==> forall i :: 0 <= i < |node.entries| ==>
          PackableEntry(o, path + [node.entries[i].0], node.entries[i].1))
  }

  lemma {:induction false} VisitedIff(o: Options, path: Path, node: Node)
    requires path != []
    ensures Visited(o, path, node).Ok? <==> PackableEntry(o, path, node)
    decreases node, 1, 0
  {
    if node.Dir? {
      WalkedIff(o, path, node, |node.entries|);
    }
  }

  lemma {:induction false} WalkedIff(o: Options, path: Path, node: Node, n: nat)
    requires node.Dir? && n <= |node.entries|
    ensures Walked(o, path, node, n).Ok? <==>
      forall i :: 0 <= i < n ==> PackableEntry(o, path + [node.entries[i].0], node.entries[i].1)
    decreases node, 0, n
  {
    if n > 0 {
      WalkedIff(o, path, node, n - 1);
      VisitedIff(o, path + [node.entries[n - 1].0], node.entries[n - 1].1);
    }
  }

  /** Excluding a directory does not keep what is below it from failing. */
  lemma PacksIff(o: Options, root: Node)
    requires root.Dir?
    ensures Added(o, [], root).Ok? <==> Packable(o, [], root)
  {
    WalkedIff(o, [], root, |root.entries|);
  }
}
