/** The content checksum of a fetched overlay: the walk over its directories and the manifest the digest is taken of.
    The manifest depends only on which paths hold which contents, and tells any two different such sets apart. */
module Checksum {
  import opened Wrappers
  import opened Lines
  import opened Ordering

  /** What a directory entry is; a directory's entries are in the order readdir happens to give them. */
  datatype Node = File(content: string) | Dir(entries: seq<(string, Node)>) | Symlink

  type Entries = seq<(string, Node)>

  predicate IsName(name: string) {
    name != "" && '/' !in name && '\0' !in name
  }

  /** File names are what a file system allows, and unique within a directory. */
  ghost predicate WellFormedNode(node: Node) {
    node.Dir? ==>
      && (forall i | 0 <= i < |node.entries| :: IsName(node.entries[i].0))
      && (forall i, j | 0 <= i < j < |node.entries| :: node.entries[i].0 != node.entries[j].0)
      && (forall i | 0 <= i < |node.entries| :: WellFormedNode(node.entries[i].1))
  }

  ghost predicate WellFormed(entries: Entries) {
    WellFormedNode(Dir(entries))
  }

  /** No symbolic link outside `.git`. */
  ghost predicate SymlinkFreeNode(node: Node) {
    && !node.Symlink?
    && (node.Dir? ==> forall i | 0 <= i < |node.entries| && node.entries[i].0 != ".git" ::
          SymlinkFreeNode(node.entries[i].1))
  }

  ghost predicate SymlinkFree(entries: Entries) {
    SymlinkFreeNode(Dir(entries))
  }

  // ----- The content of a tree, independent of enumeration order -----

  function Find(entries: Entries, name: string): (r: Option<Node>)
    ensures r.Some? ==> exists i :: 0 <= i < |entries| && entries[i] == (name, r.value)
    ensures r.None? ==> forall i | 0 <= i < |entries| :: entries[i].0 != name
  {
    if entries == [] then None
    else if entries[0].0 == name then Some(entries[0].1)
    else Find(entries[1..], name)
  }

  /** The content of the file reached by these path components, `.git` being invisible at every depth. */
  function Content(entries: Entries, path: seq<string>): (r: Option<string>)
    decreases |path|
  {
    if path == [] || path[0] == ".git" then None
    else
      match Find(entries, path[0])
      case Some(File(content)) => if |path| == 1 then Some(content) else None
      case Some(Dir(inner)) => Content(inner, path[1..])
      case _ => None
  }

  /** What the path components lead to, `.git` or not. */
  function NodeAt(entries: Entries, path: seq<string>): Option<Node>
    decreases |path|
  {
    if path == [] then Some(Dir(entries))
    else
      match Find(entries, path[0])
      case Some(Dir(inner)) => NodeAt(inner, path[1..])
      case other => if |path| == 1 then other else None
  }

  /** A path has content exactly when it leads to a file without going through a `.git`. */
  lemma {:induction false} ContentExactly(entries: Entries, path: seq<string>, content: string)
    ensures Content(entries, path) == Some(content) <==> NodeAt(entries, path) == Some(File(content)) && ".git" !in path
    decreases |path|
  {
    if path != [] {
      assert path == [path[0]] + path[1..];
      match Find(entries, path[0])
      case Some(Dir(inner)) => ContentExactly(inner, path[1..], content);
      case _ =>
    }
  }

  /** A tree is free of symbolic links exactly when no path outside `.git` leads to one. */
  lemma {:induction false} SymlinkFreeExactly(entries: Entries)
    requires WellFormed(entries)
    ensures SymlinkFree(entries) <==> forall path | ".git" !in path :: NodeAt(entries, path) != Some(Symlink)
    decreases Dir(entries)
  {
    if SymlinkFree(entries) {
      forall path | ".git" !in path
        ensures NodeAt(entries, path) != Some(Symlink)
      {
        NoLinkBelow(entries, path);
      }
    } else {
      var i :| 0 <= i < |entries| && entries[i].0 != ".git" && !SymlinkFreeNode(entries[i].1);
      FindUnique(entries, i);
      var name := entries[i].0;
      if entries[i].1.Symlink? {
        assert NodeAt(entries, [name]) == Some(Symlink) && ".git" !in [name];
      } else {
        var inner := entries[i].1.entries;
        DirWellFormed(entries[i].1);
        SymlinkFreeExactly(inner);
        var path :| ".git" !in path && NodeAt(inner, path) == Some(Symlink);
        assert ([name] + path)[1..] == path;
        assert NodeAt(entries, [name] + path) == Some(Symlink) && ".git" !in [name] + path;
      }
    }
  }

  lemma {:induction false} NoLinkBelow(entries: Entries, path: seq<string>)
    requires SymlinkFree(entries) && ".git" !in path
    ensures NodeAt(entries, path) != Some(Symlink)
    decreases |path|
  {
    if path != [] {
      assert path[0] in path;
      if Find(entries, path[0]).Some? {
        var i :| 0 <= i < |entries| && entries[i] == (path[0], Find(entries, path[0]).value);
        assert SymlinkFreeNode(entries[i].1);
      }
      match Find(entries, path[0])
      case Some(Dir(inner)) =>
        assert ".git" !in path[1..];
        NoLinkBelow(inner, path[1..]);
      case _ =>
    }
  }

  /** Two trees hold the same set of (relative path, content). */
  ghost predicate SameFiles(a: Entries, b: Entries) {
    forall path :: Content(a, path) == Content(b, path)
  }

  lemma FindUnique(entries: Entries, i: nat)
    requires WellFormed(entries) && i < |entries|
    ensures Find(entries, entries[i].0) == Some(entries[i].1)
  {
    var r := Find(entries, entries[i].0);
    var j :| 0 <= j < |entries| && entries[j] == (entries[i].0, r.value);
  }

  lemma {:induction false} ContentPathNames(entries: Entries, path: seq<string>)
    requires WellFormed(entries) && Content(entries, path).Some?
    ensures path != [] && forall name | name in path :: IsName(name)
    decreases |path|
  {
    var i :| 0 <= i < |entries| && entries[i] == (path[0], Find(entries, path[0]).value);
    if |path| > 1 {
      assert WellFormedNode(entries[i].1);
      ContentPathNames(entries[i].1.entries, path[1..]);
    }
  }

  /** The same tree with each directory, at any depth, listed in some other order. */
  ghost predicate Reordered(a: Node, b: Node)
    decreases a
  {
    if a.Dir? then
      && b.Dir?
      && (forall i | 0 <= i < |a.entries| ::
            exists j :: 0 <= j < |b.entries| && a.entries[i].0 == b.entries[j].0
                        && Reordered(a.entries[i].1, b.entries[j].1))
      && (forall j | 0 <= j < |b.entries| ::
            exists i :: 0 <= i < |a.entries| && a.entries[i].0 == b.entries[j].0)
    else a == b
  }

  lemma ReorderedForth(a: Entries, b: Entries, i: nat) returns (j: nat)
    requires Reordered(Dir(a), Dir(b)) && i < |a|
    ensures j < |b| && a[i].0 == b[j].0 && Reordered(a[i].1, b[j].1)
  {
    j :| 0 <= j < |b| && a[i].0 == b[j].0 && Reordered(a[i].1, b[j].1);
  }

  lemma ReorderedBack(a: Entries, b: Entries, j: nat) returns (i: nat)
    requires Reordered(Dir(a), Dir(b)) && j < |b|
    ensures i < |a| && a[i].0 == b[j].0
  {
    i :| 0 <= i < |a| && a[i].0 == b[j].0;
  }

  /** An entry of one listing is found in the other, reordered in turn. */
  lemma ReorderedNodes(a: Entries, b: Entries, name: string)
    requires WellFormed(b) && Reordered(Dir(a), Dir(b))
    ensures Find(a, name).Some? <==> Find(b, name).Some?
    ensures Find(a, name).Some? ==> Reordered(Find(a, name).value, Find(b, name).value)
  {
    hide WellFormedNode, Reordered;
    if Find(a, name).Some? {
      var i :| 0 <= i < |a| && a[i] == (name, Find(a, name).value);
      var j := ReorderedForth(a, b, i);
      FindUnique(b, j);
    } else if Find(b, name).Some? {
      var j :| 0 <= j < |b| && b[j] == (name, Find(b, name).value);
      var i := ReorderedBack(a, b, j);
    }
  }

  lemma ReorderedKind(a: Node, b: Node)
    requires Reordered(a, b)
    ensures if a.Dir? then b.Dir? && Reordered(Dir(a.entries), Dir(b.entries)) else a == b
  {
    if a.Dir? {
      assert a == Dir(a.entries) && b == Dir(b.entries);
    }
  }

  /** The order in which the file system enumerates directories changes nothing a checksum can see. */
  lemma {:induction false} EnumerationOrderInvisible(a: Entries, b: Entries, path: seq<string>)
    requires WellFormed(a) && WellFormed(b) && Reordered(Dir(a), Dir(b))
    ensures Content(a, path) == Content(b, path)
    decreases |path|
  {
    hide WellFormed, Find, Reordered;
    if path != [] && path[0] != ".git" {
      ReorderedNodes(a, b, path[0]);
      if Find(a, path[0]).Some? {
        var inner, inner' := Find(a, path[0]).value, Find(b, path[0]).value;
        ReorderedKind(inner, inner');
        if inner.Dir? {
          FoundWellFormed(a, path[0]);
          FoundWellFormed(b, path[0]);
          DirWellFormed(inner);
          DirWellFormed(inner');
          EnumerationOrderInvisible(inner.entries, inner'.entries, path[1..]);
        }
      }
    }
  }

  lemma DirWellFormed(node: Node)
    requires node.Dir? && WellFormedNode(node)
    ensures WellFormed(node.entries)
  {
    assert node == Dir(node.entries);
  }

  lemma FoundWellFormed(entries: Entries, name: string)
    requires WellFormed(entries) && Find(entries, name).Some?
    ensures IsName(name) && WellFormedNode(Find(entries, name).value) && Find(entries, name).value < Dir(entries)
  {
    var i :| 0 <= i < |entries| && entries[i] == (name, Find(entries, name).value);
    assert entries[i].1 < entries[i];
  }

  // ----- The manifest -----

  const HASH_LENGTH := 64

  function Line(path: string, hash: string): string {
    path + "\0" + hash + "\n"
  }

  /** One line per path, in the given order. */
  function Render(lines: seq<(string, string)>): string {
    if lines == [] then "" else Line(lines[0].0, lines[0].1) + Render(lines[1..])
  }

  /** The paths to be hashed, ascending: exactly those with content. */
  ghost predicate Listing(entries: Entries, paths: seq<string>) {
    && Ascending(paths)
    && forall p :: p in paths <==> Content(entries, Split(p, '/')).Some?
  }

  ghost function LinesOf(entries: Entries, hash: string -> string, paths: seq<string>): seq<(string, string)>
    requires forall p | p in paths :: Content(entries, Split(p, '/')).Some?
  {
    seq(|paths|, i requires 0 <= i < |paths| => (paths[i], hash(Content(entries, Split(paths[i], '/')).value)))
  }

  ghost predicate IsManifest(entries: Entries, hash: string -> string, text: string) {
    exists paths :: Listing(entries, paths) && text == Render(LinesOf(entries, hash, paths))
  }

  // ----- Decoding -----

  function UntilNul(s: string): (n: nat)
    ensures n <= |s|
    ensures '\0' !in s[..n] && (n < |s| ==> s[n] == '\0')
  {
    if s == "" || s[0] == '\0' then 0
    else
      var n := UntilNul(s[1..]);
      assert s[..n + 1] == [s[0]] + s[1..][..n];
      n + 1
  }

  /** Reads lines back: a path up to its NUL, then a hash of fixed length, then the newline. */
  function Decode(s: string): seq<(string, string)>
    decreases |s|
  {
    var n := UntilNul(s);
    var next := n + 1 + HASH_LENGTH + 1;
    if next > |s| then [] else [(s[..n], s[n + 1..n + 1 + HASH_LENGTH])] + Decode(s[next..])
  }

  lemma {:induction false} UntilNulAt(path: string, rest: string)
    requires '\0' !in path
    ensures UntilNul(path + "\0" + rest) == |path|
  {
    var s := path + "\0" + rest;
    if path != "" {
      assert s[1..] == path[1..] + "\0" + rest;
      UntilNulAt(path[1..], rest);
    }
  }

  /** The manifest is uniquely decodable, whatever characters other than NUL the paths hold. */
  lemma {:induction false} DecodeRender(lines: seq<(string, string)>)
    requires forall l | l in lines :: '\0' !in l.0 && |l.1| == HASH_LENGTH
    ensures Decode(Render(lines)) == lines
  {
    if lines != [] {
      var path, hash, rest := lines[0].0, lines[0].1, Render(lines[1..]);
      assert lines[0] in lines;
      var s := Render(lines);
      assert s == path + "\0" + (hash + "\n" + rest);
      UntilNulAt(path, hash + "\n" + rest);
      var next := |path| + 1 + HASH_LENGTH + 1;
      assert s[..|path|] == path && s[|path| + 1..|path| + 1 + HASH_LENGTH] == hash && s[next..] == rest;
      DecodeRender(lines[1..]);
    }
  }

  // ----- Same manifest, same files -----

  /** The hash is fixed-length hexadecimal text and does not confuse a content of one tree with one of the other. */
  ghost predicate HashFor(hash: string -> string, a: Entries, b: Entries) {
    && (forall s: string :: |hash(s)| == HASH_LENGTH)
    && forall p, q | Content(a, p).Some? && Content(b, q).Some? &&
                     hash(Content(a, p).value) == hash(Content(b, q).value) ::
         Content(a, p) == Content(b, q)
  }

  lemma ListedPathsClean(entries: Entries, paths: seq<string>, hash: string -> string)
    requires WellFormed(entries) && Listing(entries, paths) && forall s: string :: |hash(s)| == HASH_LENGTH
    ensures forall l | l in LinesOf(entries, hash, paths) :: '\0' !in l.0 && |l.1| == HASH_LENGTH
  {
    forall l | l in LinesOf(entries, hash, paths)
      ensures '\0' !in l.0 && |l.1| == HASH_LENGTH
    {
      var i :| 0 <= i < |paths| && l == LinesOf(entries, hash, paths)[i];
      var names := Split(paths[i], '/');
      assert paths[i] in paths;
      ContentPathNames(entries, names);
      JoinOfSplit(paths[i], '/');
      JoinWithoutNul(names);
    }
  }

  lemma {:induction false} JoinWithoutNul(names: seq<string>)
    requires forall name | name in names :: '\0' !in name
    ensures '\0' !in Join(names, '/')
  {
    if |names| > 1 {
      JoinWithoutNul(names[1..]);
    }
  }

  lemma SameFilesSameManifest(a: Entries, b: Entries, hash: string -> string, x: string, y: string)
    requires SameFiles(a, b) && IsManifest(a, hash, x) && IsManifest(b, hash, y)
    ensures x == y
  {
    var paths :| Listing(a, paths) && x == Render(LinesOf(a, hash, paths));
    var paths' :| Listing(b, paths') && y == Render(LinesOf(b, hash, paths'));
    assert forall p :: p in paths <==> p in paths' by {
      assert forall p :: Content(a, Split(p, '/')) == Content(b, Split(p, '/'));
    }
    assert forall p :: p in Elements(paths) <==> p in Elements(paths');
    AscendingUnique(paths, paths');
    assert LinesOf(a, hash, paths) == LinesOf(b, hash, paths');
  }

  lemma SameManifestSameContent(a: Entries, b: Entries, hash: string -> string, x: string, path: seq<string>)
    requires WellFormed(a) && WellFormed(b) && HashFor(hash, a, b)
    requires IsManifest(a, hash, x) && IsManifest(b, hash, x) && Content(a, path).Some?
    ensures Content(a, path) == Content(b, path)
  {
    var paths :| Listing(a, paths) && x == Render(LinesOf(a, hash, paths));
    var paths' :| Listing(b, paths') && x == Render(LinesOf(b, hash, paths'));
    ListedPathsClean(a, paths, hash);
    ListedPathsClean(b, paths', hash);
    DecodeRender(LinesOf(a, hash, paths));
    DecodeRender(LinesOf(b, hash, paths'));
    ContentPathNames(a, path);
    SplitOfJoin(path, '/');
    var p := Join(path, '/');
    assert p in paths;
    var i :| 0 <= i < |paths| && paths[i] == p;
    assert LinesOf(a, hash, paths)[i] == LinesOf(b, hash, paths')[i];
    assert paths'[i] in paths';
  }

  /** Two trees have the same manifest exactly when they hold the same set of (relative path, content) outside
      `.git`. */
  lemma ManifestDecidesFiles(a: Entries, b: Entries, hash: string -> string, x: string, y: string)
    requires WellFormed(a) && WellFormed(b) && HashFor(hash, a, b) && HashFor(hash, b, a)
    requires IsManifest(a, hash, x) && IsManifest(b, hash, y)
    ensures x == y <==> SameFiles(a, b)
  {
    if SameFiles(a, b) {
      SameFilesSameManifest(a, b, hash, x, y);
    }
    if x == y {
      forall path
        ensures Content(a, path) == Content(b, path)
      {
        if Content(a, path).Some? {
          SameManifestSameContent(a, b, hash, x, path);
        } else if Content(b, path).Some? {
          SameManifestSameContent(b, a, hash, x, path);
        }
      }
    }
  }

  // ----- The walk and the manifest as the source computes them -----

  /** The path components below `entries` that lead to a file, printed after a directory's own components. */
  ghost predicate Lists(entries: Entries, prefix: seq<string>, p: string) {
    exists path :: Content(entries, path).Some? && p == Join(prefix + path, '/')
  }

  /** What one directory entry contributes. */
  ghost predicate ListsUnder(entries: Entries, prefix: seq<string>, name: string, p: string) {
    exists path :: path != [] && path[0] == name && Content(entries, path).Some? && p == Join(prefix + path, '/')
  }

  lemma {:induction false} JoinSnoc(prefix: seq<string>, name: string)
    ensures Join(prefix + [name], '/') == if prefix == [] then name else Join(prefix, '/') + "/" + name
  {
    if |prefix| == 1 {
      assert (prefix + [name])[1..] == [name];
    } else if |prefix| > 1 {
      assert (prefix + [name])[1..] == prefix[1..] + [name];
      JoinSnoc(prefix[1..], name);
    }
  }

  lemma ListsFile(entries: Entries, prefix: seq<string>, name: string, p: string)
    requires name != ".git" && Find(entries, name).Some? && Find(entries, name).value.File?
    ensures ListsUnder(entries, prefix, name, p) <==> p == Join(prefix + [name], '/')
  {
    assert Content(entries, [name]).Some?;
    forall path | path != [] && path[0] == name && Content(entries, path).Some?
      ensures path == [name]
    {
      assert |path| == 1;
    }
  }

  lemma ListsDirectory(entries: Entries, prefix: seq<string>, name: string, p: string)
    requires name != ".git" && Find(entries, name).Some? && Find(entries, name).value.Dir?
    ensures ListsUnder(entries, prefix, name, p) <==> Lists(Find(entries, name).value.entries, prefix + [name], p)
  {
    hide Join, Find;
    var inner := Find(entries, name).value.entries;
    if Lists(inner, prefix + [name], p) {
      var path :| Content(inner, path).Some? && p == Join(prefix + [name] + path, '/');
      var whole := [name] + path;
      assert whole[1..] == path && prefix + whole == prefix + [name] + path;
      assert Content(entries, whole).Some?;
    }
    if ListsUnder(entries, prefix, name, p) {
      var path :| path != [] && path[0] == name && Content(entries, path).Some? && p == Join(prefix + path, '/');
      assert prefix + path == prefix + [name] + path[1..];
      assert Content(inner, path[1..]).Some?;
    }
  }

  lemma ListsByName(entries: Entries, prefix: seq<string>, names: seq<string>, p: string)
    requires forall n :: n in names <==> Find(entries, n).Some?
    ensures Lists(entries, prefix, p) <==> exists n :: n in names && n != ".git" && ListsUnder(entries, prefix, n, p)
  {
    if Lists(entries, prefix, p) {
      var path :| Content(entries, path).Some? && p == Join(prefix + path, '/');
      assert path[0] in names && ListsUnder(entries, prefix, path[0], p);
    }
  }

  function Names(entries: Entries): (r: set<string>)
    ensures forall n :: n in r <==> Find(entries, n).Some?
  {
    if entries == [] then {} else {entries[0].0} + Names(entries[1..])
  }

  /** The recursive walk, by name within each directory; None where a symbolic link is refused. */
  method Walk(entries: Entries, relative: string, ghost prefix: seq<string>) returns (results: Option<seq<string>>)
    requires WellFormed(entries) && relative == Join(prefix, '/') && (prefix == [] <==> relative == "")
    ensures results.Some? <==> SymlinkFree(entries)
    ensures results.Some? ==> forall p :: p in results.value <==> Lists(entries, prefix, p)
    decreases Dir(entries), 1
  {
    hide Lists, ListsUnder, Join, SymlinkFree, WellFormed;
    var names := Sort(Names(entries));
    assert forall n :: n in names <==> n in Elements(names);
    var found: seq<string> := [];
    for k := 0 to |names|
      invariant forall p :: p in found <==>
                  exists n :: n in names[..k] && n != ".git" && ListsUnder(entries, prefix, n, p)
      invariant forall n | n in names[..k] && n != ".git" :: SymlinkFreeNode(Find(entries, n).value)
    {
      var name := names[k];
      assert names[..k + 1] == names[..k] + [name];
      assert name in names;
      if name != ".git" {
        var more := WalkEntry(entries, name, relative, prefix);
        if more.None? {
          return None;
        }
        found := found + more.value;
      }
    }
    assert names[..|names|] == names;
    forall p ensures p in found <==> Lists(entries, prefix, p) {
      ListsByName(entries, prefix, names, p);
    }
    AllSymlinkFree(entries, names);
    return Some(found);
  }

  /** One entry of a directory: a file, a directory to walk, or a refusal. */
  method WalkEntry(entries: Entries, name: string, relative: string, ghost prefix: seq<string>)
    returns (more: Option<seq<string>>)
    requires WellFormed(entries) && relative == Join(prefix, '/') && (prefix == [] <==> relative == "")
    requires name != ".git" && Find(entries, name).Some?
    ensures more.None? ==> !SymlinkFree(entries)
    ensures more.Some? ==> SymlinkFreeNode(Find(entries, name).value)
    ensures more.Some? ==> forall p :: p in more.value <==> ListsUnder(entries, prefix, name, p)
    decreases Dir(entries), 0
  {
    hide Lists, ListsUnder, Join, Find;
    var node := Find(entries, name).value;
    FoundWellFormed(entries, name);
    JoinSnoc(prefix, name);
    var entryRelative := if relative == "" then name else relative + "/" + name;
    if node.Symlink? {
      NotSymlinkFree(entries, name);
      return None;
    }
    if node.Dir? {
      DirWellFormed(node);
      assert node == Dir(node.entries);
      more := Walk(node.entries, entryRelative, prefix + [name]);
      if more.None? {
        NotSymlinkFree(entries, name);
        return;
      }
      forall p ensures p in more.value <==> ListsUnder(entries, prefix, name, p) {
        ListsDirectory(entries, prefix, name, p);
      }
    } else {
      more := Some([entryRelative]);
      forall p ensures p in more.value <==> ListsUnder(entries, prefix, name, p) {
        ListsFile(entries, prefix, name, p);
      }
    }
  }

  lemma NotSymlinkFree(entries: Entries, name: string)
    requires name != ".git" && Find(entries, name).Some? && !SymlinkFreeNode(Find(entries, name).value)
    ensures !SymlinkFree(entries)
  {
  }

  lemma AllSymlinkFree(entries: Entries, names: seq<string>)
    requires WellFormed(entries) && forall n :: n in names <==> Find(entries, n).Some?
    requires forall n | n in names && n != ".git" :: SymlinkFreeNode(Find(entries, n).value)
    ensures SymlinkFree(entries)
  {
    forall i | 0 <= i < |entries| && entries[i].0 != ".git"
      ensures SymlinkFreeNode(entries[i].1)
    {
      FindUnique(entries, i);
      assert entries[i].0 in names;
    }
  }

  /** At the root, the listed paths are those whose components lead to a file. */
  lemma RootLists(entries: Entries, p: string)
    requires WellFormed(entries)
    ensures Lists(entries, [], p) <==> Content(entries, Split(p, '/')).Some?
  {
    if Lists(entries, [], p) {
      var path :| Content(entries, path).Some? && p == Join([] + path, '/');
      assert [] + path == path;
      ContentPathNames(entries, path);
      SplitOfJoin(path, '/');
    }
    if Content(entries, Split(p, '/')).Some? {
      JoinOfSplit(p, '/');
      assert [] + Split(p, '/') == Split(p, '/');
    }
  }

  /** The text whose digest `computeContentChecksum` returns; None where it rejects a symbolic link. */
  method ContentManifest(entries: Entries, hash: string -> string) returns (text: Option<string>)
    requires WellFormed(entries)
    ensures text.Some? <==> SymlinkFree(entries)
    ensures text.Some? ==> IsManifest(entries, hash, text.value)
  {
    hide Lists, Split, Content, WellFormed;
    var collected := Walk(entries, "", []);
    if collected.None? {
      return None;
    }
    var files := Sort(set p | p in collected.value);
    forall p ensures p in files <==> Content(entries, Split(p, '/')).Some? {
      RootLists(entries, p);
      assert p in files <==> p in Elements(files);
    }
    var manifest := "";
    ghost var lines := LinesOf(entries, hash, files);
    for k := 0 to |files|
      invariant manifest == Render(lines[..k])
    {
      assert files[k] in files;
      var fileHash := hash(Content(entries, Split(files[k], '/')).value);
      RenderSnoc(lines[..k], lines[k]);
      assert lines[..k + 1] == lines[..k] + [lines[k]];
      manifest := manifest + files[k] + "\0" + fileHash + "\n";
    }
    assert lines[..|lines|] == lines;
    assert Listing(entries, files);
    return Some(manifest);
  }

  lemma {:induction false} RenderSnoc(lines: seq<(string, string)>, last: (string, string))
    ensures Render(lines + [last]) == Render(lines) + last.0 + "\0" + last.1 + "\n"
  {
    if lines == [] {
      assert [] + [last] == [last];
    } else {
      assert (lines + [last])[1..] == lines[1..] + [last];
      RenderSnoc(lines[1..], last);
    }
  }
}
