/** Model of `list_tree` of the bundle inspector's s3.py: the tree built from a key listing, and the
    recursive trim that keeps a few files of every directory.

    A directory is a value here: the nested dicts of the original, in insertion order.
  */
module S3Tree {
  import opened Wrappers

  datatype Node = Node(dirs: seq<Dir>, files: seq<string>)

  datatype Dir = Dir(name: string, node: Node)

  const EMPTY: Node := Node([], [])

  // ---------------------------------------------------------------------------------------
  // Paths
  // ---------------------------------------------------------------------------------------

  type Parts = ps: seq<string> | ps != [] witness [""]

  /** `key.split("/")` */
  function Split(key: string): Parts {
    if key == "" then [""]
    else
      var rest := Split(key[1..]);
      if key[0] == '/' then [""] + rest else [[key[0]] + rest[0]] + rest[1..]
  }

  function Join(parts: Parts): string {
    if |parts| == 1 then parts[0] else parts[0] + "/" + Join(parts[1..])
  }

  lemma {:induction false} JoinSplit(key: string)
    ensures Join(Split(key)) == key
  {
    if key != "" {
      hide Join;
      var rest := Split(key[1..]);
      JoinSplit(key[1..]);
      if key[0] == '/' {
        JoinSlash(rest);
        assert key == "/" + key[1..];
      } else {
        JoinChar(key[0], rest);
        assert key == [key[0]] + key[1..];
      }
    }
  }

  lemma JoinSlash(rest: Parts)
    ensures Join([""] + rest) == "/" + Join(rest)
  {
    assert ([""] + rest)[1..] == rest;
  }

  lemma JoinChar(c: char, rest: Parts)
    ensures Join([[c] + rest[0]] + rest[1..]) == [c] + Join(rest)
  {
    var longer := [[c] + rest[0]] + rest[1..];
    assert longer[1..] == rest[1..];
    if |rest| > 1 {
      assert [c] + rest[0] + "/" + Join(rest[1..]) == [c] + (rest[0] + "/" + Join(rest[1..]));
    }
  }

  /** No part holds a slash; with `JoinSplit` that leaves one way to split a key. */
  predicate Slashless(parts: seq<string>) {
    forall i :: 0 <= i < |parts| ==> '/' !in parts[i]
  }

  lemma {:induction false} SplitSlashless(key: string)
    ensures Slashless(Split(key))
  {
    if key != "" {
      SplitSlashless(key[1..]);
    }
  }

  lemma {:induction false} SplitLast(name: string)
    requires '/' !in name
    ensures Split(name) == [name]
  {
    if name != "" {
      SplitLast(name[1..]);
      assert name == [name[0]] + name[1..];
    }
  }

  lemma {:induction false} SplitFirst(name: string, rest: string)
    requires '/' !in name
    ensures Split(name + "/" + rest) == [name] + Split(rest)
  {
    var key := name + "/" + rest;
    if name == "" {
      assert key[0] == '/' && key[1..] == rest;
    } else {
      SplitFirst(name[1..], rest);
      assert key[0] == name[0] && key[1..] == name[1..] + "/" + rest;
      assert name == [name[0]] + name[1..];
    }
  }

  lemma {:induction false} SplitExactly(key: string, parts: Parts)
    ensures parts == Split(key) <==> Slashless(parts) && Join(parts) == key
    decreases |parts|
  {
    JoinSplit(key);
    SplitSlashless(key);
    if Slashless(parts) && Join(parts) == key {
      if |parts| == 1 {
        SplitLast(parts[0]);
      } else {
        SplitExactly(Join(parts[1..]), parts[1..]);
        SplitFirst(parts[0], Join(parts[1..]));
      }
    }
  }

  function Last(parts: Parts): string {
    parts[|parts| - 1]
  }

  predicate EndsInSlash(key: string) {
    key != "" && key[|key| - 1] == '/'
  }

  /** A key names no file exactly if it is empty or ends in a slash. */
  lemma {:induction false} NoFileName(key: string)
    ensures Last(Split(key)) == "" <==> key == "" || EndsInSlash(key)
  {
    if key != "" {
      NoFileName(key[1..]);
      if |key| > 1 {
        assert key[1..][|key| - 2] == key[|key| - 1];
      }
    }
  }

  // ---------------------------------------------------------------------------------------
  // The build
  // ---------------------------------------------------------------------------------------

  function Child(dirs: seq<Dir>, name: string): Option<Node> {
    if dirs == [] then None else if dirs[0].name == name then Some(dirs[0].node) else Child(dirs[1..], name)
  }

  /** One key: walks down its directories, creating those missing, and appends its file name, if any. */
  function Insert(node: Node, parts: Parts): Node
    decreases |parts|, 0, 0
  {
    if |parts| == 1 then (if parts[0] == "" then node else node.(files := node.files + [parts[0]]))
    else node.(dirs := InsertInto(node.dirs, parts[0], parts[1..]))
  }

  function InsertInto(dirs: seq<Dir>, name: string, parts: Parts): seq<Dir>
    decreases |parts|, 1, |dirs|
  {
    if dirs == [] then [Dir(name, Insert(EMPTY, parts))]
    else if dirs[0].name == name then [Dir(name, Insert(dirs[0].node, parts))] + dirs[1..]
    else [dirs[0]] + InsertInto(dirs[1..], name, parts)
  }

  function Build(keys: seq<string>): Node {
    if keys == [] then EMPTY else Insert(Build(keys[..|keys| - 1]), Split(keys[|keys| - 1]))
  }

  function Lookup(node: Node, path: seq<string>): Option<Node>
    decreases |path|
  {
    if path == [] then Some(node)
    else
      var c := Child(node.dirs, path[0]);
      if c.None? then None else Lookup(c.value, path[1..])
  }

  function FilesOf(n: Option<Node>): seq<string> {
    if n.None? then [] else n.value.files
  }

  function OrEmpty(n: Option<Node>): Node {
    if n.None? then EMPTY else n.value
  }

  lemma {:induction false} ChildInsert(dirs: seq<Dir>, name: string, parts: Parts, x: string)
    ensures Child(InsertInto(dirs, name, parts), x)
         == if x == name then Some(Insert(OrEmpty(Child(dirs, name)), parts)) else Child(dirs, x)
    decreases |dirs|
  {
    hide Insert;
    if dirs == [] {
    } else if dirs[0].name == name {
      assert InsertInto(dirs, name, parts)[1..] == dirs[1..];
    } else {
      ChildInsert(dirs[1..], name, parts, x);
      assert InsertInto(dirs, name, parts)[1..] == InsertInto(dirs[1..], name, parts);
    }
  }

  /** The file that a key puts directly into the directory `path`, if any. */
  function NewFile(parts: Parts, path: seq<string>): seq<string> {
    if path == parts[..|parts| - 1] && Last(parts) != "" then [Last(parts)] else []
  }

  /** What one key adds at a path: its directories exist, and its file is last in its own. */
  ghost predicate Adds(before: Option<Node>, after: Option<Node>, parts: Parts, path: seq<string>) {
    && (after.Some? <==> before.Some? || path <= parts[..|parts| - 1])
    && FilesOf(after) == FilesOf(before) + NewFile(parts, path)
  }

  lemma {:induction false} LookupInsert(node: Node, parts: Parts, path: seq<string>)
    ensures Adds(Lookup(node, path), Lookup(Insert(node, parts), path), parts, path)
    decreases |path|
  {
    if path == [] {
      assert path == parts[..|parts| - 1] <==> |parts| == 1;
    } else if |parts| == 1 {
      assert Child(Insert(node, parts).dirs, path[0]) == Child(node.dirs, path[0]);
    } else {
      hide Insert, InsertInto, Lookup, Adds;
      var name, below, x := parts[0], parts[1..], path[0];
      InsertStep(node, parts);
      ChildInsert(node.dirs, name, below, x);
      LookupStep(node, path);
      LookupStep(Insert(node, parts), path);
      if x == name {
        var c := OrEmpty(Child(node.dirs, name));
        LookupInsert(c, below, path[1..]);
        AddsBelow(node, Lookup(c, path[1..]), Lookup(Insert(c, below), path[1..]), parts, path);
      } else {
        AddsElsewhere(Lookup(node, path), parts, path);
      }
    }
  }

  lemma InsertStep(node: Node, parts: Parts)
    requires |parts| > 1
    ensures Insert(node, parts) == node.(dirs := InsertInto(node.dirs, parts[0], parts[1..]))
  {
  }

  lemma LookupStep(node: Node, path: seq<string>)
    requires path != []
    ensures var c := Child(node.dirs, path[0]);
            Lookup(node, path) == if c.None? then None else Lookup(c.value, path[1..])
  {
  }

  lemma AddsBelow(node: Node, before: Option<Node>, after: Option<Node>, parts: Parts, path: seq<string>)
    requires path != [] && |parts| > 1 && path[0] == parts[0] && Adds(before, after, parts[1..], path[1..])
    requires before == Lookup(OrEmpty(Child(node.dirs, path[0])), path[1..])
    ensures Adds(Lookup(node, path), after, parts, path)
  {
    var dirs := parts[..|parts| - 1];
    assert parts[1..][..|parts| - 2] == dirs[1..];
    assert path == [path[0]] + path[1..] && dirs == [parts[0]] + dirs[1..];
    assert path[1..] <= dirs[1..] <==> path <= dirs;
    NothingInEmpty(path[1..]);
  }

  lemma NothingInEmpty(path: seq<string>)
    ensures FilesOf(Lookup(EMPTY, path)) == [] && (Lookup(EMPTY, path).Some? <==> path == [])
  {
  }

  lemma AddsElsewhere(n: Option<Node>, parts: Parts, path: seq<string>)
    requires path != [] && |parts| > 1 && path[0] != parts[0]
    ensures Adds(n, n, parts, path)
  {
  }

  /** The names of the files the keys put directly into the directory `path`, in listing order. */
  function FilesAt(keys: seq<string>, path: seq<string>): seq<string> {
    if keys == [] then []
    else
      var parts := Split(keys[|keys| - 1]);
      FilesAt(keys[..|keys| - 1], path)
      + NewFile(parts, path)
  }

  /** A directory that some key passes through; the root always exists. */
  ghost predicate DirExists(keys: seq<string>, path: seq<string>) {
    path == [] || exists i :: 0 <= i < |keys| && path <= Split(keys[i])[..|Split(keys[i])| - 1]
  }

  lemma {:induction false} BuildAtParts(keys: seq<string>, path: seq<string>)
    ensures Lookup(Build(keys), path).Some? <==> DirExists(keys, path)
    ensures FilesOf(Lookup(Build(keys), path)) == FilesAt(keys, path)
  {
    hide *;
    if keys == [] {
      NothingBuilt(path);
      NothingInEmpty(path);
      NoDirWithoutKeys(path);
    } else {
      var n := |keys| - 1;
      BuildAtParts(keys[..n], path);
      BuildUnfolds(keys, path);
      LookupInsert(Build(keys[..n]), Split(keys[n]), path);
      AddsMeans(Lookup(Build(keys[..n]), path), Lookup(Build(keys), path), Split(keys[n]), path);
      DirExistsSnoc(keys[..n], keys[n], path);
      assert keys == keys[..n] + [keys[n]];
    }
  }

  lemma NothingBuilt(path: seq<string>)
    ensures Build([]) == EMPTY && FilesAt([], path) == []
  {
  }

  lemma BuildUnfolds(keys: seq<string>, path: seq<string>)
    requires keys != []
    ensures var n := |keys| - 1;
            && Build(keys) == Insert(Build(keys[..n]), Split(keys[n]))
            && FilesAt(keys, path) == FilesAt(keys[..n], path) + NewFile(Split(keys[n]), path)
  {
    hide Insert, Split, NewFile;
  }

  lemma NoDirWithoutKeys(path: seq<string>)
    ensures DirExists([], path) <==> path == []
  {
  }

  lemma AddsMeans(before: Option<Node>, after: Option<Node>, parts: Parts, path: seq<string>)
    requires Adds(before, after, parts, path)
    ensures after.Some? <==> before.Some? || path <= parts[..|parts| - 1]
    ensures FilesOf(after) == FilesOf(before) + NewFile(parts, path)
  {
  }

  lemma DirExistsSnoc(keys: seq<string>, key: string, path: seq<string>)
    ensures DirExists(keys + [key], path) <==> DirExists(keys, path) || path <= Split(key)[..|Split(key)| - 1]
  {
    hide Split;
    var longer := keys + [key];
    if path <= Split(key)[..|Split(key)| - 1] {
      assert longer[|keys|] == key;
    }
    if DirExists(keys, path) && path != [] {
      var i :| 0 <= i < |keys| && path <= Split(keys[i])[..|Split(keys[i])| - 1];
      assert longer[i] == keys[i];
    }
  }

  /** How a key below the directory begins. */
  function PathText(path: seq<string>): string {
    if path == [] then "" else path[0] + "/" + PathText(path[1..])
  }

  /** A directory path, against a split key and against its text. */
  lemma {:induction false} BelowPath(key: string, path: seq<string>)
    requires Slashless(path)
    ensures var parts, text := Split(key), PathText(path);
            && (path <= parts[..|parts| - 1] <==> text <= key)
            && NewFile(parts, path)
               == if text <= key && key[|text|..] != "" && '/' !in key[|text|..] then [key[|text|..]] else []
    decreases |path|
  {
    hide Split, PathText, NewFile;
    NoPathText();
    if path == [] {
      AtRoot(key);
    } else if '/' in key {
      var name, rest := FirstOf(key);
      SplitFirst(name, rest);
      if name == path[0] {
        BelowPath(rest, path[1..]);
        OneDown(path, Split(rest), rest);
      } else {
        Elsewhere(path, name, rest);
        ElsewhereFile(path, [name] + Split(rest));
      }
    } else {
      SplitLast(key);
      NoDirectory(path, key);
    }
  }

  lemma NoPathText()
    ensures PathText([]) == ""
  {
  }

  lemma AtRoot(key: string)
    ensures NewFile(Split(key), []) == if key != "" && '/' !in key then [key] else []
    ensures "" <= key && key[0..] == key
  {
    if '/' in key {
      var name, rest := FirstOf(key);
      SplitFirst(name, rest);
    } else {
      SplitLast(key);
    }
  }

  /** The text up to the first slash, and the text after it. */
  lemma {:induction false} FirstOf(key: string) returns (name: string, rest: string)
    requires '/' in key
    ensures key == name + "/" + rest && '/' !in name
  {
    if key[0] == '/' {
      name, rest := "", key[1..];
    } else {
      name, rest := FirstOf(key[1..]);
      name := [key[0]] + name;
    }
  }

  lemma OneDown(path: seq<string>, below: Parts, rest: string)
    requires path != []
    ensures var key, text, parts := path[0] + "/" + rest, PathText(path[1..]), [path[0]] + below;
            && (PathText(path) <= key <==> text <= rest)
            && (text <= rest ==> key[|PathText(path)|..] == rest[|text|..])
            && (path <= parts[..|parts| - 1] <==> path[1..] <= below[..|below| - 1])
            && NewFile(parts, path) == NewFile(below, path[1..])
  {
    var head, text := path[0] + "/", PathText(path[1..]);
    assert PathText(path) == head + text;
    hide PathText;
    PrefixAfter(head, text, rest);
    PartsDown(path, below);
  }

  lemma PartsDown(path: seq<string>, below: Parts)
    requires path != []
    ensures var parts := [path[0]] + below;
            && (path <= parts[..|parts| - 1] <==> path[1..] <= below[..|below| - 1])
            && NewFile(parts, path) == NewFile(below, path[1..])
  {
    var parts := [path[0]] + below;
    assert parts[..|parts| - 1] == [path[0]] + below[..|below| - 1];
    assert path == [path[0]] + path[1..];
  }

  lemma PrefixAfter(head: string, text: string, rest: string)
    ensures head + text <= head + rest <==> text <= rest
    ensures text <= rest ==> (head + rest)[|head + text|..] == rest[|text|..]
  {
    if head + text <= head + rest {
      assert (head + rest)[|head|..] == rest && (head + text)[|head|..] == text;
    }
  }

  /** Another directory: the texts differ where one of the names ends or before. */
  lemma Elsewhere(path: seq<string>, name: string, rest: string)
    requires Slashless(path) && path != [] && '/' !in name && name != path[0]
    ensures !(PathText(path) <= name + "/" + rest)
  {
    var key, text := name + "/" + rest, PathText(path);
    assert text == path[0] + "/" + PathText(path[1..]);
    var n, m := |name|, |path[0]|;
    assert key[n] == '/' && text[m] == '/';
    assert n < m ==> text[n] == path[0][n];
    assert m < n ==> key[m] == name[m];
    assert n == m ==> name == key[..n] && path[0] == text[..n];
  }

  lemma ElsewhereFile(path: seq<string>, parts: Parts)
    requires path != [] && path[0] != parts[0]
    ensures NewFile(parts, path) == [] && !(path <= parts[..|parts| - 1])
  {
  }

  lemma NoDirectory(path: seq<string>, key: string)
    requires path != [] && '/' !in key
    ensures !(PathText(path) <= key) && NewFile([key], path) == []
  {
    var text := PathText(path);
    assert text[|path[0]|] == '/';
    if text <= key {
      PrefixMember(text, key, '/');
    }
  }

  lemma PrefixMember(text: string, key: string, c: char)
    requires text <= key && c in text
    ensures c in key
  {
    var i :| 0 <= i < |text| && text[i] == c;
    assert key[i] == c;
  }

  /** What the keys that begin with `text` have after it, where that is a name: not empty, and without a slash. */
  function NamesAfter(keys: seq<string>, text: string): seq<string> {
    if keys == [] then []
    else
      var key := keys[|keys| - 1];
      NamesAfter(keys[..|keys| - 1], text)
      + if text <= key && key[|text|..] != "" && '/' !in key[|text|..] then [key[|text|..]] else []
  }

  /** Some key begins with the names of the path, each followed by a slash. */
  ghost predicate SomeBelow(keys: seq<string>, path: seq<string>) {
    Slashless(path) && exists i :: 0 <= i < |keys| && PathText(path) <= keys[i]
  }

  lemma DirExistsText(keys: seq<string>, path: seq<string>)
    ensures DirExists(keys, path) <==> path == [] || SomeBelow(keys, path)
  {
    hide Split, PathText;
    forall i | 0 <= i < |keys|
      ensures path <= Split(keys[i])[..|Split(keys[i])| - 1] <==> Slashless(path) && PathText(path) <= keys[i]
    {
      SplitSlashless(keys[i]);
      if path <= Split(keys[i])[..|Split(keys[i])| - 1] {
        PrefixSlashless(path, Split(keys[i]));
      }
      if Slashless(path) {
        BelowPath(keys[i], path);
      }
    }
  }

  lemma PrefixSlashless(path: seq<string>, parts: seq<string>)
    requires Slashless(parts) && parts != [] && path <= parts[..|parts| - 1]
    ensures Slashless(path)
  {
    forall i | 0 <= i < |path| ensures '/' !in path[i] {
      assert path[i] == parts[i];
    }
  }

  lemma {:induction false} FilesAtText(keys: seq<string>, path: seq<string>)
    requires Slashless(path)
    ensures FilesAt(keys, path) == NamesAfter(keys, PathText(path))
  {
    if keys != [] {
      hide Split, PathText, NewFile, Slashless;
      FilesAtText(keys[..|keys| - 1], path);
      BelowPath(keys[|keys| - 1], path);
    }
  }

  /** The tree of the build, told from the texts of the keys: a directory is there exactly if some key begins with its
      path, and its files are what such keys have after it, in listing order. */
  lemma BuildAt(keys: seq<string>, path: seq<string>)
    ensures Lookup(Build(keys), path).Some? <==> path == [] || SomeBelow(keys, path)
    ensures Slashless(path) ==> FilesOf(Lookup(Build(keys), path)) == NamesAfter(keys, PathText(path))
  {
    hide *;
    BuildAtParts(keys, path);
    DirExistsText(keys, path);
    if Slashless(path) {
      FilesAtText(keys, path);
    }
  }

  // ---------------------------------------------------------------------------------------
  // Conservation of keys
  // ---------------------------------------------------------------------------------------

  function Prefixed(prefix: string, files: seq<string>): multiset<string> {
    if files == [] then multiset{}
    else Prefixed(prefix, files[..|files| - 1]) + multiset{prefix + files[|files| - 1]}
  }

  /** All files of the tree, by the key they come from. */
  function LeafKeys(node: Node, prefix: string): multiset<string>
    decreases node, 0
  {
    Prefixed(prefix, node.files) + LeafKeysOf(node.dirs, prefix)
  }

  function LeafKeysOf(dirs: seq<Dir>, prefix: string): multiset<string>
    decreases dirs, 1
  {
    if dirs == [] then multiset{}
    else LeafKeys(dirs[0].node, prefix + dirs[0].name + "/") + LeafKeysOf(dirs[1..], prefix)
  }

  function LeafOf(prefix: string, parts: Parts): multiset<string> {
    if Last(parts) == "" then multiset{} else multiset{prefix + Join(parts)}
  }

  lemma PrefixedSnoc(prefix: string, files: seq<string>, f: string)
    ensures Prefixed(prefix, files + [f]) == Prefixed(prefix, files) + multiset{prefix + f}
  {
    assert (files + [f])[..|files|] == files;
  }

  lemma LeafKeysOfEmpty(prefix: string)
    ensures LeafKeys(EMPTY, prefix) == multiset{} && LeafKeysOf([], prefix) == multiset{}
  {
  }

  lemma LeafOfDown(prefix: string, name: string, parts: Parts)
    ensures LeafOf(prefix + name + "/", parts) == LeafOf(prefix, [name] + parts)
  {
    var longer := [name] + parts;
    assert longer[1..] == parts;
    assert prefix + name + "/" + Join(parts) == prefix + (name + "/" + Join(parts));
  }

  lemma {:induction false} LeafKeysInsert(node: Node, parts: Parts, prefix: string)
    ensures LeafKeys(Insert(node, parts), prefix) == LeafKeys(node, prefix) + LeafOf(prefix, parts)
    decreases |parts|, 0, 0
  {
    if |parts| == 1 {
      hide LeafKeysOf;
      PrefixedSnoc(prefix, node.files, parts[0]);
    } else {
      hide LeafKeysOf, InsertInto, Prefixed, LeafOf;
      assert parts == [parts[0]] + parts[1..];
      LeafKeysInsertInto(node.dirs, parts[0], parts[1..], prefix);
      LeafOfDown(prefix, parts[0], parts[1..]);
    }
  }

  lemma {:induction false} LeafKeysInsertInto(dirs: seq<Dir>, name: string, parts: Parts, prefix: string)
    ensures LeafKeysOf(InsertInto(dirs, name, parts), prefix)
         == LeafKeysOf(dirs, prefix) + LeafOf(prefix + name + "/", parts)
    decreases |parts|, 1, |dirs|
  {
    hide Insert, LeafKeys, LeafOf;
    if dirs == [] {
      LeafKeysOfEmpty(prefix + name + "/");
      LeafKeysInsert(EMPTY, parts, prefix + name + "/");
      assert [Dir(name, Insert(EMPTY, parts))][1..] == [];
    } else if dirs[0].name == name {
      LeafKeysInsert(dirs[0].node, parts, prefix + name + "/");
      assert InsertInto(dirs, name, parts)[1..] == dirs[1..];
    } else {
      LeafKeysInsertInto(dirs[1..], name, parts, prefix);
      assert InsertInto(dirs, name, parts)[1..] == InsertInto(dirs[1..], name, parts);
    }
  }

  /** The keys that name a file. */
  function FileKeys(keys: seq<string>): seq<string> {
    if keys == [] then []
    else
      var key := keys[|keys| - 1];
      FileKeys(keys[..|keys| - 1]) + if key == "" || EndsInSlash(key) then [] else [key]
  }

  /** The files of the tree are the listed keys that do not end in a slash, each as often as listed. */
  lemma {:induction false} BuildConserves(keys: seq<string>)
    ensures LeafKeys(Build(keys), "") == multiset(FileKeys(keys))
  {
    if keys == [] {
      LeafKeysOfEmpty("");
    } else {
      hide Insert, LeafKeys, Split, Join;
      var n := |keys| - 1;
      BuildConserves(keys[..n]);
      LeafKeysInsert(Build(keys[..n]), Split(keys[n]), "");
      JoinSplit(keys[n]);
      NoFileName(keys[n]);
      assert "" + Join(Split(keys[n])) == keys[n];
    }
  }

  // ---------------------------------------------------------------------------------------
  // Sorting
  // ---------------------------------------------------------------------------------------

  /** String order, by code points. */
  predicate Leq(a: string, b: string) {
    a == "" || (b != "" && (a[0] < b[0] || (a[0] == b[0] && Leq(a[1..], b[1..]))))
  }

  /** Where the texts first differ decides, and a text comes after its beginnings. */
  lemma {:induction false} LeqExactly(a: string, b: string)
    ensures Leq(a, b) <==> a <= b || exists k :: 0 <= k < |a| && k < |b| && a[..k] == b[..k] && a[k] < b[k]
  {
    if a != "" && b != "" {
      if a[0] == b[0] {
        LeqExactly(a[1..], b[1..]);
        assert a == [a[0]] + a[1..] && b == [b[0]] + b[1..];
        if k :| 0 <= k < |a[1..]| && k < |b[1..]| && a[1..][..k] == b[1..][..k] && a[1..][k] < b[1..][k] {
          assert a[..k + 1] == [a[0]] + a[1..][..k] && b[..k + 1] == [b[0]] + b[1..][..k];
        }
        if k :| 0 <= k < |a| && k < |b| && a[..k] == b[..k] && a[k] < b[k] {
          assert a[1..][..k - 1] == a[..k][1..] && b[1..][..k - 1] == b[..k][1..];
        }
      } else {
        if a[0] < b[0] {
          assert a[..0] == b[..0];
        }
        if k :| 0 <= k < |a| && k < |b| && a[..k] == b[..k] && a[k] < b[k] {
          if k > 0 {
            SameStart(a, b, k);
          }
        }
      }
    }
  }

  lemma SameStart(a: string, b: string, k: nat)
    requires 0 < k <= |a| && k <= |b| && a[..k] == b[..k]
    ensures a[0] == b[0]
  {
    assert a[..k][0] == a[0] && b[..k][0] == b[0];
  }

  lemma {:induction false} LeqTotal(a: string, b: string)
    ensures Leq(a, b) || Leq(b, a)
  {
    if a != "" && b != "" && a[0] == b[0] {
      LeqTotal(a[1..], b[1..]);
    }
  }

  lemma {:induction false} LeqTransitive(a: string, b: string, c: string)
    requires Leq(a, b) && Leq(b, c)
    ensures Leq(a, c)
  {
    if a != "" && a[0] == b[0] && b[0] == c[0] {
      LeqTransitive(a[1..], b[1..], c[1..]);
    }
  }

  ghost predicate Ordered(s: seq<string>) {
    forall i, j :: 0 <= i < j < |s| ==> Leq(s[i], s[j])
  }

  function Place(x: string, s: seq<string>): (r: seq<string>)
    ensures |r| == |s| + 1
  {
    if s == [] || Leq(x, s[0]) then [x] + s else [s[0]] + Place(x, s[1..])
  }

  /** `sorted` */
  function Sort(s: seq<string>): (r: seq<string>)
    ensures |r| == |s|
  {
    if s == [] then [] else Place(s[0], Sort(s[1..]))
  }

  lemma {:induction false} PlaceKeeps(x: string, s: seq<string>)
    ensures multiset(Place(x, s)) == multiset{x} + multiset(s)
  {
    if s != [] && !Leq(x, s[0]) {
      PlaceKeeps(x, s[1..]);
      assert s == [s[0]] + s[1..];
    }
  }

  lemma {:induction false} PlaceOrdered(x: string, s: seq<string>)
    requires Ordered(s)
    ensures Ordered(Place(x, s))
  {
    if s == [] {
    } else if Leq(x, s[0]) {
      forall j | 0 <= j < |s| ensures Leq(x, s[j]) {
        if j > 0 {
          LeqTransitive(x, s[0], s[j]);
        }
      }
    } else {
      LeqTotal(x, s[0]);
      PlaceOrdered(x, s[1..]);
      PlaceKeeps(x, s[1..]);
      var rest := Place(x, s[1..]);
      forall j | 0 <= j < |rest| ensures Leq(s[0], rest[j]) {
        assert rest[j] in multiset(rest);
        if rest[j] != x {
          assert rest[j] in s[1..];
        }
      }
    }
  }

  lemma {:induction false} SortSorts(s: seq<string>)
    ensures Ordered(Sort(s)) && multiset(Sort(s)) == multiset(s)
  {
    if s != [] {
      hide Ordered, Leq, Place;
      SortSorts(s[1..]);
      PlaceOrdered(s[0], Sort(s[1..]));
      PlaceKeeps(s[0], Sort(s[1..]));
      assert s == [s[0]] + s[1..];
    } else {
      assert Ordered([]);
    }
  }

  // ---------------------------------------------------------------------------------------
  // The trim
  // ---------------------------------------------------------------------------------------

  datatype Trimmed = Trimmed(dirs: seq<TDir>, files: seq<string>, omitted: nat)

  datatype TDir = TDir(name: string, node: Trimmed)

  /** How many elements `s[:max]` has, for a list of `n`: a negative bound counts from the end. */
  function SliceEnd(n: nat, max: int): (k: nat)
    ensures k <= n
  {
    if max >= 0 then (if max < n then max else n) else if n + max >= 0 then n + max else 0
  }

  function Kept(files: seq<string>, max: int): (kept: seq<string>)
    ensures |kept| == SliceEnd(|files|, max)
  {
    Sort(files)[..SliceEnd(|files|, max)]
  }

  function PlaceDir(d: TDir, ds: seq<TDir>): seq<TDir> {
    if ds == [] || Leq(d.name, ds[0].name) then [d] + ds else [ds[0]] + PlaceDir(d, ds[1..])
  }

  function Trim(node: Node, max: int): Trimmed
    decreases node, 0
  {
    Trimmed(TrimAll(node.dirs, max), Kept(node.files, max), |node.files| - |Kept(node.files, max)|)
  }

  /** The directories, trimmed and sorted by name. */
  function TrimAll(dirs: seq<Dir>, max: int): seq<TDir>
    decreases dirs, 1
  {
    if dirs == [] then [] else PlaceDir(TDir(dirs[0].name, Trim(dirs[0].node, max)), TrimAll(dirs[1..], max))
  }

  /** What a directory keeps: its smallest names, in order, and the rest counted as omitted. */
  lemma KeptAreSmallest(files: seq<string>, max: int, dropped: multiset<string>)
    requires dropped == multiset(files) - multiset(Kept(files, max))
    ensures Ordered(Kept(files, max))
    ensures multiset(files) == multiset(Kept(files, max)) + dropped
    ensures forall f, g :: f in Kept(files, max) && g in dropped ==> Leq(f, g)
  {
    hide Sort, Leq;
    SortSorts(files);
    var s, k := Sort(files), SliceEnd(|files|, max);
    assert s == s[..k] + s[k..];
    assert dropped == multiset(s[k..]);
    forall f, g | f in s[..k] && g in dropped ensures Leq(f, g) {
      assert g in s[k..];
    }
  }

  /** How many: as many as allowed, or, if that number is negative, all but so many. */
  lemma KeptSize(files: seq<string>, max: int)
    ensures var kept := |Kept(files, max)|;
            var dropped := |files| - kept;
            if max >= 0 then kept <= max && (dropped > 0 ==> kept == max)
            else dropped <= -max && (kept > 0 ==> dropped == -max)
  {
  }

  function TChild(dirs: seq<TDir>, name: string): Option<Trimmed> {
    if dirs == [] then None else if dirs[0].name == name then Some(dirs[0].node) else TChild(dirs[1..], name)
  }

  function TLookup(t: Trimmed, path: seq<string>): Option<Trimmed>
    decreases |path|
  {
    if path == [] then Some(t)
    else
      var c := TChild(t.dirs, path[0]);
      if c.None? then None else TLookup(c.value, path[1..])
  }

  /** No directory lists a name twice. */
  predicate Distinct(node: Node)
    decreases node, 0
  {
    DistinctAll(node.dirs)
  }

  predicate DistinctAll(dirs: seq<Dir>)
    decreases dirs, 1
  {
    dirs == [] || (Child(dirs[1..], dirs[0].name).None? && Distinct(dirs[0].node) && DistinctAll(dirs[1..]))
  }

  lemma {:induction false} InsertDistinct(node: Node, parts: Parts)
    requires Distinct(node)
    ensures Distinct(Insert(node, parts))
    decreases |parts|, 0, 0
  {
    if |parts| > 1 {
      hide InsertInto, DistinctAll;
      InsertIntoDistinct(node.dirs, parts[0], parts[1..]);
    }
  }

  lemma {:induction false} InsertIntoDistinct(dirs: seq<Dir>, name: string, parts: Parts)
    requires DistinctAll(dirs)
    ensures DistinctAll(InsertInto(dirs, name, parts))
    decreases |parts|, 1, |dirs|
  {
    hide Insert, Distinct;
    if dirs == [] {
      EmptyDistinct();
      InsertDistinct(EMPTY, parts);
      assert InsertInto(dirs, name, parts)[1..] == [];
    } else if dirs[0].name == name {
      InsertDistinct(dirs[0].node, parts);
      assert InsertInto(dirs, name, parts)[1..] == dirs[1..];
    } else {
      InsertIntoDistinct(dirs[1..], name, parts);
      ChildInsert(dirs[1..], name, parts, dirs[0].name);
      assert InsertInto(dirs, name, parts)[1..] == InsertInto(dirs[1..], name, parts);
    }
  }

  lemma EmptyDistinct()
    ensures Distinct(EMPTY)
  {
  }

  lemma {:induction false} BuildDistinct(keys: seq<string>)
    ensures Distinct(Build(keys))
  {
    if keys != [] {
      hide Insert, Distinct, Split;
      var n := |keys| - 1;
      BuildDistinct(keys[..n]);
      InsertDistinct(Build(keys[..n]), Split(keys[n]));
    }
  }

  lemma {:induction false} TChildPlace(d: TDir, ds: seq<TDir>, x: string)
    requires x == d.name ==> TChild(ds, x).None?
    ensures TChild(PlaceDir(d, ds), x) == if x == d.name then Some(d.node) else TChild(ds, x)
  {
    hide Leq;
    if ds == [] || Leq(d.name, ds[0].name) {
      assert PlaceDir(d, ds)[1..] == ds;
    } else {
      TChildPlace(d, ds[1..], x);
      assert PlaceDir(d, ds)[1..] == PlaceDir(d, ds[1..]);
    }
  }

  function TrimOpt(n: Option<Node>, max: int): Option<Trimmed> {
    if n.None? then None else Some(Trim(n.value, max))
  }

  lemma {:induction false} TChildTrim(dirs: seq<Dir>, max: int, x: string)
    requires DistinctAll(dirs)
    ensures TChild(TrimAll(dirs, max), x) == TrimOpt(Child(dirs, x), max)
  {
    hide PlaceDir, Trim, Distinct;
    if dirs != [] {
      TChildTrim(dirs[1..], max, x);
      TChildPlace(TDir(dirs[0].name, Trim(dirs[0].node, max)), TrimAll(dirs[1..], max), x);
    }
  }

  lemma {:induction false} ChildDistinct(dirs: seq<Dir>, x: string)
    requires DistinctAll(dirs) && Child(dirs, x).Some?
    ensures Distinct(Child(dirs, x).value)
  {
    if dirs[0].name != x {
      ChildDistinct(dirs[1..], x);
    }
  }

  /** The trim keeps every directory where it is, and trims each by itself. */
  lemma {:induction false} TrimAt(node: Node, max: int, path: seq<string>)
    requires Distinct(node)
    ensures TLookup(Trim(node, max), path) == TrimOpt(Lookup(node, path), max)
    decreases |path|
  {
    if path != [] {
      hide DistinctAll, TrimAll, Kept;
      TChildTrim(node.dirs, max, path[0]);
      var c := Child(node.dirs, path[0]);
      if c.Some? {
        ChildDistinct(node.dirs, path[0]);
        TrimAt(c.value, max, path[1..]);
      }
    }
  }

  // ---------------------------------------------------------------------------------------
  // Conservation of counts
  // ---------------------------------------------------------------------------------------

  function KeptTotal(t: Trimmed): nat
    decreases t, 0
  {
    |t.files| + KeptIn(t.dirs)
  }

  function KeptIn(ds: seq<TDir>): nat
    decreases ds, 1
  {
    if ds == [] then 0 else KeptTotal(ds[0].node) + KeptIn(ds[1..])
  }

  function OmittedTotal(t: Trimmed): nat
    decreases t, 0
  {
    t.omitted + OmittedIn(t.dirs)
  }

  function OmittedIn(ds: seq<TDir>): nat
    decreases ds, 1
  {
    if ds == [] then 0 else OmittedTotal(ds[0].node) + OmittedIn(ds[1..])
  }

  lemma {:induction false} PlaceDirTotals(d: TDir, ds: seq<TDir>)
    ensures KeptIn(PlaceDir(d, ds)) == KeptTotal(d.node) + KeptIn(ds)
    ensures OmittedIn(PlaceDir(d, ds)) == OmittedTotal(d.node) + OmittedIn(ds)
  {
    hide Leq, KeptTotal, OmittedTotal;
    if ds == [] || Leq(d.name, ds[0].name) {
      assert PlaceDir(d, ds)[1..] == ds;
    } else {
      PlaceDirTotals(d, ds[1..]);
      assert PlaceDir(d, ds)[1..] == PlaceDir(d, ds[1..]);
    }
  }

  lemma {:induction false} PrefixedSize(prefix: string, files: seq<string>)
    ensures |Prefixed(prefix, files)| == |files|
  {
    if files != [] {
      PrefixedSize(prefix, files[..|files| - 1]);
    }
  }

  lemma {:induction false} TrimTotals(node: Node, max: int, prefix: string)
    ensures KeptTotal(Trim(node, max)) + OmittedTotal(Trim(node, max)) == |LeafKeys(node, prefix)|
    decreases node, 0
  {
    hide KeptIn, OmittedIn, LeafKeysOf, TrimAll, Prefixed, Kept;
    PrefixedSize(prefix, node.files);
    TrimAllTotals(node.dirs, max, prefix);
  }

  lemma {:induction false} TrimAllTotals(dirs: seq<Dir>, max: int, prefix: string)
    ensures KeptIn(TrimAll(dirs, max)) + OmittedIn(TrimAll(dirs, max)) == |LeafKeysOf(dirs, prefix)|
    decreases dirs, 1
  {
    if dirs != [] {
      hide Trim, KeptTotal, OmittedTotal, LeafKeys, PlaceDir;
      TrimTotals(dirs[0].node, max, prefix + dirs[0].name + "/");
      TrimAllTotals(dirs[1..], max, prefix);
      PlaceDirTotals(TDir(dirs[0].name, Trim(dirs[0].node, max)), TrimAll(dirs[1..], max));
    }
  }

  /** Kept and omitted files together, over the whole tree, are as many as the keys that name a file. */
  lemma TreeTotals(keys: seq<string>, max: int)
    ensures KeptTotal(Trim(Build(keys), max)) + OmittedTotal(Trim(Build(keys), max)) == |FileKeys(keys)|
  {
    hide *;
    TrimTotals(Build(keys), max, "");
    BuildConserves(keys);
  }

  /** Every directory of the listing is in the trimmed tree, with the smallest names of its own files, the number of
      those left out, and its own directories in order. */
  lemma TreeAt(keys: seq<string>, max: int, path: seq<string>)
    ensures TLookup(Trim(Build(keys), max), path).Some? <==> path == [] || SomeBelow(keys, path)
    ensures var t, names := TLookup(Trim(Build(keys), max), path), NamesAfter(keys, PathText(path));
            t.Some? ==> t.value.files == Kept(names, max) && t.value.omitted == |names| - |Kept(names, max)|
                        && InOrder(t.value.dirs)
  {
    hide *;
    BuildDistinct(keys);
    TrimAt(Build(keys), max, path);
    BuildAt(keys, path);
    TrimOptMeans(Lookup(Build(keys), path), max);
    NoSlashInNothing(path);
    SomeBelowMeans(keys, path);
  }

  lemma NoSlashInNothing(path: seq<string>)
    ensures path == [] ==> Slashless(path)
  {
  }

  lemma SomeBelowMeans(keys: seq<string>, path: seq<string>)
    ensures SomeBelow(keys, path) ==> Slashless(path)
  {
  }

  lemma TrimOptMeans(n: Option<Node>, max: int)
    ensures TrimOpt(n, max).Some? <==> n.Some?
    ensures n.Some? ==> var t := TrimOpt(n, max).value;
                        && t.files == Kept(FilesOf(n), max) && t.omitted == |FilesOf(n)| - |Kept(FilesOf(n), max)|
                        && InOrder(t.dirs)
  {
    hide Kept, TrimAll, InOrder;
    if n.Some? {
      TrimmedInOrder(n.value.dirs, max);
    }
  }

  ghost predicate InOrder(ds: seq<TDir>) {
    forall i, j :: 0 <= i < j < |ds| ==> Leq(ds[i].name, ds[j].name)
  }

  lemma {:induction false} PlaceDirMembers(d: TDir, ds: seq<TDir>)
    ensures forall x :: x in PlaceDir(d, ds) ==> x == d || x in ds
  {
    hide Leq;
    if ds != [] {
      PlaceDirMembers(d, ds[1..]);
    }
  }

  lemma {:induction false} PlaceDirInOrder(d: TDir, ds: seq<TDir>)
    requires InOrder(ds)
    ensures InOrder(PlaceDir(d, ds))
  {
    hide Leq;
    if ds == [] {
    } else if Leq(d.name, ds[0].name) {
      forall j | 0 <= j < |ds| ensures Leq(d.name, ds[j].name) {
        if j > 0 {
          LeqTransitive(d.name, ds[0].name, ds[j].name);
        }
      }
    } else {
      LeqTotal(d.name, ds[0].name);
      PlaceDirInOrder(d, ds[1..]);
      PlaceDirMembers(d, ds[1..]);
      var rest := PlaceDir(d, ds[1..]);
      forall j | 0 <= j < |rest| ensures Leq(ds[0].name, rest[j].name) {
        if rest[j] != d {
          assert rest[j] in ds[1..];
        }
      }
    }
  }

  lemma {:induction false} TrimmedInOrder(dirs: seq<Dir>, max: int)
    ensures InOrder(TrimAll(dirs, max))
  {
    hide Trim, PlaceDir, InOrder;
    if dirs == [] {
      NothingInOrder();
    } else {
      TrimmedInOrder(dirs[1..], max);
      PlaceDirInOrder(TDir(dirs[0].name, Trim(dirs[0].node, max)), TrimAll(dirs[1..], max));
    }
  }

  lemma NothingInOrder()
    ensures InOrder([])
  {
  }

  // ---------------------------------------------------------------------------------------
  // The whole listing
  // ---------------------------------------------------------------------------------------

  datatype Tree = Tree(root: Trimmed, totalKeys: nat, truncated: bool)

  /** The keys below the prefix; the object that is named like the prefix itself is left out. */
  function Below(objects: seq<string>): seq<string> {
    if objects == [] then []
    else Below(objects[..|objects| - 1]) + if objects[|objects| - 1] == "" then [] else [objects[|objects| - 1]]
  }

  /** `objects` are the keys under the prefix, relative to it, in the order S3 lists them. */
  method ListTree(objects: seq<string>, maxKeys: nat, maxFiles: int) returns (tree: Tree)
    ensures var keys := Below(if |objects| > maxKeys then objects[..maxKeys] else objects);
            tree == Tree(Trim(Build(keys), maxFiles), |keys|, |keys| >= maxKeys)
  {
    hide Split, Insert, Trim;
    var listed := if |objects| > maxKeys then objects[..maxKeys] else objects;
    var keys: seq<string> := [];
    for i := 0 to |listed|
      invariant keys == Below(listed[..i])
    {
      assert listed[..i + 1][..i] == listed[..i];
      if listed[i] != "" {
        keys := keys + [listed[i]];
      }
    }
    assert listed[..|listed|] == listed;
    var root := EMPTY;
    for i := 0 to |keys|
      invariant root == Build(keys[..i])
    {
      assert keys[..i + 1][..i] == keys[..i];
      root := Insert(root, Split(keys[i]));
    }
    assert keys[..|keys|] == keys;
    return Tree(Trim(root, maxFiles), |keys|, |keys| >= maxKeys);
  }

  lemma {:induction false} BelowSize(objects: seq<string>)
    ensures |Below(objects)| <= |objects|
    ensures |Below(objects)| == |objects| <==> "" !in objects
  {
    if objects != [] {
      var n := |objects| - 1;
      BelowSize(objects[..n]);
      assert objects == objects[..n] + [objects[n]];
    }
  }

  /** The flag is raised exactly if the listing is full and does not hold the object that is named like
      the prefix: next to that object a cut listing passes for a whole one. */
  lemma TruncatedExactly(objects: seq<string>, maxKeys: nat)
    requires maxKeys > 0
    ensures var listed := if |objects| > maxKeys then objects[..maxKeys] else objects;
            |Below(listed)| >= maxKeys <==> |objects| >= maxKeys && "" !in listed
  {
    BelowSize(if |objects| > maxKeys then objects[..maxKeys] else objects);
  }
}
