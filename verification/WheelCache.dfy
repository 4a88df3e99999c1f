/** Model of `download_and_cache_python_packages` of spark_agnostic_helpers.py: the wheels of a download
    folder are sorted into those shipped through the shared cache, those installed with pip and those
    dropped, and the shipped ones that the cache misses are uploaded.
  */
module WheelCache {
  import opened Texts
  import opened WheelNames
  import opened Wrappers

  // ---------------------------------------------------------------------------------------
  // Where each file goes
  // ---------------------------------------------------------------------------------------

  /** What is asked for: the packages to download and the substrings that force pip. */
  datatype Request = Request(names: set<string>, force: seq<string>, runnerPrefix: Option<string>)

  datatype Route = NotAWheel | Ship | Dropped | NativePip(name: string, spec: string) | ForcedPip(spec: string)

  function RouteOf(file: string, r: Request): Route {
    if !EndsWith(file, ".whl") then NotAWheel
    else
      var parsed := ParseWheelFilename(file);
      var named := parsed.Some? && parsed.value.0 != "";
      if HasNativeDependencies(file) then
        (if named && Lower(parsed.value.0) in r.names
         then NativePip(parsed.value.0, parsed.value.0 + "==" + parsed.value.1) else Dropped)
      else if named && Forced(parsed.value.0, r.force) then
        ForcedPip(if parsed.value.1 != "" then parsed.value.0 + "==" + parsed.value.1 else parsed.value.0)
      else Ship
  }

  predicate Ships(file: string, r: Request) {
    RouteOf(file, r).Ship?
  }

  /** A native wheel of a requested package goes to pip, in the version that was downloaded, exactly if nothing but
      white space stands between the name in the request and the first mark that the source cuts at. If something
      does, and nobody else asks for the package, the wheel is dropped. */
  lemma RequestedWheelGoesToPip(packages: seq<string>, package: string, t: string, dist: string, version: string,
                                tags: string, r: Request)
    requires r.names == NamesOf(packages) && package + t in packages && Unmarked(package)
    requires NoHyphen(dist) && NoHyphen(version) && Hyphens(dist) != "" && Normalised(package) == Lower(Hyphens(dist))
    requires forall p :: p in packages && p != package + t ==> RequestedName(p) != Lower(Hyphens(dist))
    requires HasNativeDependencies(WheelName(dist, version, tags))
    ensures RouteOf(WheelName(dist, version, tags), r)
         == if Blank(Uncut(t)) then NativePip(Hyphens(dist), Hyphens(dist) + "==" + version) else Dropped
  {
    hide RequestedName, ParseWheelFilename, HasNativeDependencies, EndsWith, Lower, Hyphens, Normalised, WheelName,
      Blank, Uncut, Unmarked;
    RequestedNameExactly(package, t);
    ParseWheelBack(dist, version, tags);
  }

  /** Two wheels of one release, for different platforms, and a requirement for it. */
  function NumbaWheel(platform: string): string {
    WheelName("numba", "0.59.0", "cp310-cp310-" + platform)
  }

  lemma NumbaFacts(platform: string)
    requires 'o' !in platform && 'O' !in platform
    ensures NumbaWheel(platform) == WheelName("numba", "0.59.0", "cp310-cp310-" + platform)
    ensures HasNativeDependencies(NumbaWheel(platform))
    ensures NoHyphen("numba") && NoHyphen("0.59.0") && Unmarked("numba")
    ensures Hyphens("numba") == "numba" && Normalised("numba") == Lower("numba") == "numba"
  {
    hide HasNativeDependencies, Hyphens, Lower, TrimLeft, TrimRight;
    NumbaHasNoO(platform);
    NoOIsNative(NumbaWheel(platform));
    NumbaTrimmed();
    NumbaLetters();
  }

  lemma NumbaHasNoO(platform: string)
    requires 'o' !in platform && 'O' !in platform
    ensures 'o' !in NumbaWheel(platform) && 'O' !in NumbaWheel(platform)
  {
  }

  lemma NoOInPlatforms()
    ensures 'o' !in "manylinux_x86_64" && 'O' !in "manylinux_x86_64"
    ensures 'o' !in "musllinux_x86_64" && 'O' !in "musllinux_x86_64"
  {
  }

  lemma NumbaTrimmed()
    ensures TrimRight(TrimLeft("numba")) == "numba"
  {
  }

  lemma NumbaLetters()
    ensures Hyphens("numba") == "numba" && Lower("numba") == "numba"
  {
    hide LowerChar;
    var s := "numba";
    assert s[1..] == "umba" && s[2..] == "mba" && s[3..] == "ba" && s[4..] == "a" && s[5..] == "";
    NumbaChars();
    assert Hyphens("a") == "a" && Hyphens("ba") == "ba" && Hyphens("mba") == "mba" && Hyphens("umba") == "umba";
    assert Lower("a") == "a" && Lower("ba") == "ba" && Lower("mba") == "mba" && Lower("umba") == "umba";
  }

  lemma NumbaChars()
    ensures LowerChar('n') == 'n' && LowerChar('u') == 'u' && LowerChar('m') == 'm' && LowerChar('b') == 'b'
    ensures LowerChar('a') == 'a'
  {
  }

  /** A requirement with a compatible-release clause: its wheel is neither shipped nor left to pip. */
  lemma TildeDropsTheWheel(r: Request)
    requires r.names == NamesOf(["numba~=0.59"])
    ensures RouteOf(NumbaWheel("manylinux_x86_64"), r) == Dropped
  {
    hide *;
    NoOInPlatforms();
    NumbaFacts("manylinux_x86_64");
    TildeFacts();
    assert "numba" + "~=0.59" == "numba~=0.59";
    var packages := ["numba~=0.59"];
    RequestedWheelGoesToPip(packages, "numba", "~=0.59", "numba", "0.59.0", "cp310-cp310-" + "manylinux_x86_64", r);
  }

  lemma TildeFacts()
    ensures !Blank(Uncut("~=0.59"))
  {
    assert "~=0.59"[0] == '~' && "~=0.59"[..2] != "==";
    assert Uncut("~=0.59")[0] == '~';
  }

  predicate IsRunner(file: string, r: Request) {
    r.runnerPrefix.Some? && r.runnerPrefix.value != "" && StartsWith(file, r.runnerPrefix.value)
  }

  const CACHE_PREFIX := "python_wheels/codeartifact_cache/"

  function Key(file: string): string {
    CACHE_PREFIX + file
  }

  lemma KeyInjective(a: string, b: string)
    requires Key(a) == Key(b)
    ensures a == b
  {
    assert Key(a)[|CACHE_PREFIX|..] == a && Key(b)[|CACHE_PREFIX|..] == b;
  }

  /** The shipped wheels that the store has, or those it lacks, in listing order. */
  function Shipped(files: seq<string>, r: Request, store: set<string>, cached: bool): seq<string> {
    if files == [] then []
    else
      var f := files[|files| - 1];
      Shipped(files[..|files| - 1], r, store, cached) + if Ships(f, r) && (Key(f) in store) == cached then [f] else []
  }

  function AllShipped(files: seq<string>, r: Request): seq<string> {
    if files == [] then []
    else
      var f := files[|files| - 1];
      AllShipped(files[..|files| - 1], r) + if Ships(f, r) then [f] else []
  }

  /** The requirements for pip. */
  function PipSpecs(files: seq<string>, r: Request, start: seq<string>): seq<string> {
    if files == [] then start
    else
      var specs := PipSpecs(files[..|files| - 1], r, start);
      match RouteOf(files[|files| - 1], r)
      case NativePip(name, spec) => if name in specs then specs else specs + [spec]
      case ForcedPip(spec) => if spec in specs then specs else specs + [spec]
      case _ => specs
  }

  /** The last wheel that has the prefix of the job runner. */
  function RunnerOf(files: seq<string>, r: Request): Option<string> {
    if files == [] then None
    else
      var f := files[|files| - 1];
      if EndsWith(f, ".whl") && IsRunner(f, r) then Some(f) else RunnerOf(files[..|files| - 1], r)
  }

  /** Files deleted while they are sorted. */
  predicate Deleted(f: string, r: Request, store: set<string>) {
    match RouteOf(f, r)
    case NotAWheel => false
    case Ship => Key(f) in store && !IsRunner(f, r)
    case _ => true
  }

  ghost predicate LocalOk(local: set<string>, files: seq<string>, r: Request, store: set<string>, n: nat)
    requires n <= |files|
  {
    forall f :: f in local <==> f in files && !(f in files[..n] && Deleted(f, r, store))
  }

  // ---------------------------------------------------------------------------------------
  // Facts about the partition
  // ---------------------------------------------------------------------------------------

  lemma {:induction false} ShippedMember(files: seq<string>, r: Request, store: set<string>, cached: bool, f: string)
    ensures f in Shipped(files, r, store, cached) <==> f in files && Ships(f, r) && (Key(f) in store) == cached
  {
    hide Ships, Key;
    if files != [] {
      var n := |files| - 1;
      ShippedMember(files[..n], r, store, cached, f);
      assert files == files[..n] + [files[n]];
    }
  }

  /** Cached and missing wheels together are all the shipped ones, each as often as it is listed. */
  lemma {:induction false} ShippedSplit(files: seq<string>, r: Request, store: set<string>)
    ensures multiset(Shipped(files, r, store, true) + Shipped(files, r, store, false)) == multiset(AllShipped(files, r))
  {
    hide Ships, Key;
    if files != [] {
      ShippedSplit(files[..|files| - 1], r, store);
    }
  }

  lemma {:induction false} AllCached(files: seq<string>, r: Request, store: set<string>)
    requires forall f :: f in files && Ships(f, r) ==> Key(f) in store
    ensures Shipped(files, r, store, true) == AllShipped(files, r) && Shipped(files, r, store, false) == []
  {
    hide Ships, Key;
    if files != [] {
      var n := |files| - 1;
      assert files == files[..n] + [files[n]];
      AllCached(files[..n], r, store);
    }
  }

  function KeysOf(files: seq<string>): set<string> {
    set f | f in files :: Key(f)
  }

  lemma {:induction false} RunnerIsListed(files: seq<string>, r: Request)
    ensures RunnerOf(files, r).Some? ==>
      && RunnerOf(files, r).value in files && EndsWith(RunnerOf(files, r).value, ".whl")
      && IsRunner(RunnerOf(files, r).value, r)
  {
    hide EndsWith, IsRunner;
    if files != [] {
      RunnerIsListed(files[..|files| - 1], r);
    }
  }

  // ---------------------------------------------------------------------------------------
  // The run
  // ---------------------------------------------------------------------------------------

  datatype Result = Ok(pyFiles: seq<string>, runner: Option<string>, pip: seq<string>) | Raised

  /** The wheels of `packages` that are not forced through pip, and the others. */
  function Unforced(packages: seq<string>, force: seq<string>): seq<string> {
    if packages == [] then []
    else (if Forced(packages[0], force) then [] else [packages[0]]) + Unforced(packages[1..], force)
  }

  function ForcedOf(packages: seq<string>, force: seq<string>): seq<string> {
    if packages == [] then []
    else (if Forced(packages[0], force) then [packages[0]] else []) + ForcedOf(packages[1..], force)
  }

  lemma {:induction false} UnforcedConcat(a: seq<string>, b: seq<string>, force: seq<string>)
    ensures Unforced(a + b, force) == Unforced(a, force) + Unforced(b, force)
    ensures ForcedOf(a + b, force) == ForcedOf(a, force) + ForcedOf(b, force)
  {
    hide *;
    if a == [] {
      NoPackages(force);
      assert a + b == b;
    } else {
      var rest := a[1..];
      UnforcedConcat(rest, b, force);
      FirstPackage(a[0], rest + b, force);
      FirstPackage(a[0], rest, force);
      assert a == [a[0]] + rest && a + b == [a[0]] + (rest + b);
    }
  }

  lemma NoPackages(force: seq<string>)
    ensures Unforced([], force) == [] && ForcedOf([], force) == []
  {
  }

  lemma FirstPackage(p: string, rest: seq<string>, force: seq<string>)
    ensures Unforced([p] + rest, force) == (if Forced(p, force) then [] else [p]) + Unforced(rest, force)
    ensures ForcedOf([p] + rest, force) == (if Forced(p, force) then [p] else []) + ForcedOf(rest, force)
  {
    hide Forced;
    assert ([p] + rest)[1..] == rest;
  }

  /** Every package is in one of the two lists, as often and in the order it was given: in the forced one exactly if one
      of the substrings stands in its name. */
  lemma {:induction false} PackagesSplit(packages: seq<string>, force: seq<string>)
    ensures multiset(Unforced(packages, force)) + multiset(ForcedOf(packages, force)) == multiset(packages)
    ensures forall p :: p in ForcedOf(packages, force) ==> AnyStandsIn(force, p)
    ensures forall p :: p in Unforced(packages, force) ==> !AnyStandsIn(force, p)
  {
    hide Forced, AnyStandsIn;
    if packages != [] {
      PackagesSplit(packages[1..], force);
      ForcedExactly(packages[0], force);
      assert packages == [packages[0]] + packages[1..];
    }
  }

  /** `list.remove`: takes the first occurrence out. */
  function Removed(s: seq<string>, x: string): seq<string> {
    if s == [] then [] else if s[0] == x then s[1..] else [s[0]] + Removed(s[1..], x)
  }

  lemma {:induction false} RemovedAfter(a: seq<string>, x: string, b: seq<string>)
    requires x !in a
    ensures Removed(a + [x] + b, x) == a + b
  {
    var s := a + [x] + b;
    if a == [] {
      assert s == [x] + b && a + b == b;
    } else {
      RemovedAfter(a[1..], x, b);
      assert s[1..] == a[1..] + [x] + b && [a[0]] + (a[1..] + b) == a + b;
    }
  }

  /** `k` packages are behind, with all their forced ones taken out of the list. */
  ghost predicate TakenOut(packages: seq<string>, k: nat, force: seq<string>, left: seq<string>, taken: seq<string>) {
    k <= |packages| && taken == ForcedOf(packages[..k], force) && left == Unforced(packages[..k], force) + packages[k..]
  }

  /** Over packages that are not forced the list stays as it is. */
  lemma {:induction false} TakenFurther(packages: seq<string>, k: nat, force: seq<string>, left: seq<string>,
                                        taken: seq<string>) returns (next: nat)
    requires TakenOut(packages, k, force, left, taken)
    ensures k <= next && TakenOut(packages, next, force, left, taken)
    ensures next < |packages| ==> Forced(packages[next], force)
    decreases |packages| - k
  {
    hide Forced;
    if k == |packages| || Forced(packages[k], force) {
      next := k;
    } else {
      OnePackage(packages, k, force);
      assert packages[k..] == [packages[k]] + packages[k + 1..];
      next := TakenFurther(packages, k + 1, force, left, taken);
    }
  }

  lemma OnePackage(packages: seq<string>, k: nat, force: seq<string>)
    requires k < |packages|
    ensures Unforced(packages[..k + 1], force)
         == Unforced(packages[..k], force) + if Forced(packages[k], force) then [] else [packages[k]]
    ensures ForcedOf(packages[..k + 1], force)
         == ForcedOf(packages[..k], force) + if Forced(packages[k], force) then [packages[k]] else []
  {
    hide Forced;
    UnforcedConcat(packages[..k], [packages[k]], force);
    assert packages[..k + 1] == packages[..k] + [packages[k]];
    assert [packages[k]][1..] == [];
  }

  /** The loops at the start: the forced packages are collected, and then removed from the caller's list. */
  method TakeForced(packages: seq<string>, force: seq<string>) returns (left: seq<string>, taken: seq<string>)
    ensures left == Unforced(packages, force) && taken == ForcedOf(packages, force)
  {
    hide *;
    taken := [];
    NothingTaken(packages, force);
    for i := 0 to |packages|
      invariant taken == ForcedOf(packages[..i], force)
    {
      OnePackage(packages, i, force);
      if Forced(packages[i], force) {
        taken := taken + [packages[i]];
      }
    }
    assert packages[..|packages|] == packages;
    left := packages;
    ghost var k: nat := 0;
    for i := 0 to |taken|
      invariant TakenOut(packages, k, force, left, taken[..i])
    {
      k := TakenFurther(packages, k, force, left, taken[..i]);
      TakeOne(packages, k, force, left, taken, i);
      left := Removed(left, taken[i]);
      k := k + 1;
    }
    assert taken[..|taken|] == taken;
    k := TakenFurther(packages, k, force, left, taken);
    AllTaken(packages, k, force, left, taken);
  }

  lemma NothingTaken(packages: seq<string>, force: seq<string>)
    ensures ForcedOf(packages[..0], force) == [] && TakenOut(packages, 0, force, packages, [])
  {
    assert packages[..0] == [] && packages[0..] == packages && [] + packages == packages;
  }

  lemma TakeOne(packages: seq<string>, k: nat, force: seq<string>, left: seq<string>, taken: seq<string>, i: nat)
    requires taken == ForcedOf(packages, force) && i < |taken| && TakenOut(packages, k, force, left, taken[..i])
    requires k < |packages| ==> Forced(packages[k], force)
    ensures k < |packages| && TakenOut(packages, k + 1, force, Removed(left, taken[i]), taken[..i + 1])
  {
    hide Forced, Removed;
    var before, after := packages[..k], packages[k..];
    UnforcedConcat(before, after, force);
    assert packages == before + after;
    FirstForced(taken, i, after, force);
    var x := packages[k];
    OnePackage(packages, k, force);
    assert taken[..i + 1] == taken[..i] + [x];
    UnforcedAre(before, force);
    assert left == Unforced(before, force) + [x] + packages[k + 1..];
    RemovedAfter(Unforced(before, force), x, packages[k + 1..]);
  }

  lemma FirstForced(taken: seq<string>, i: nat, after: seq<string>, force: seq<string>)
    requires i < |taken| && taken == taken[..i] + ForcedOf(after, force)
    requires after != [] ==> Forced(after[0], force)
    ensures after != [] && taken[i] == after[0]
  {
    hide Forced;
  }

  lemma {:induction false} UnforcedAre(packages: seq<string>, force: seq<string>)
    ensures forall p :: p in Unforced(packages, force) ==> !Forced(p, force)
  {
    hide Forced;
    if packages != [] {
      UnforcedAre(packages[1..], force);
    }
  }

  lemma AllTaken(packages: seq<string>, k: nat, force: seq<string>, left: seq<string>, taken: seq<string>)
    requires TakenOut(packages, k, force, left, taken) && taken == ForcedOf(packages, force)
    requires k < |packages| ==> Forced(packages[k], force)
    ensures left == Unforced(packages, force)
  {
    hide Forced;
    UnforcedConcat(packages[..k], packages[k..], force);
    assert packages == packages[..k] + packages[k..];
    assert k == |packages| ==> packages[k..] == [];
  }

  function NamesOf(packages: seq<string>): set<string> {
    set p | p in packages :: RequestedName(p)
  }

  /** The bucket and the download folder; `heads` and `uploads` say which calls fail. */
  class Cache {
    var store: set<string>
    var local: set<string>
    const headFails: string -> bool
    const uploadFails: string -> bool

    constructor (store: set<string>, local: set<string>, headFails: string -> bool, uploadFails: string -> bool)
      ensures this.store == store && this.local == local
      ensures this.headFails == headFails && this.uploadFails == uploadFails
    {
      this.store := store;
      this.local := local;
      this.headFails := headFails;
      this.uploadFails := uploadFails;
    }

    /** Sorts the files of the download folder. */
    method Sort(files: seq<string>, r: Request, forced: seq<string>)
      returns (ok: bool, cached: seq<string>, toUpload: seq<string>, runner: Option<string>, pip: seq<string>)
      requires forall f :: f in local <==> f in files
      requires forall i, j :: 0 <= i < j < |files| ==> files[i] != files[j]
      modifies this`local
      ensures ok ==> cached == Shipped(files, r, store, true) && toUpload == Shipped(files, r, store, false)
      ensures ok ==> runner == RunnerOf(files, r) && pip == PipSpecs(files, r, forced)
      ensures ok ==> LocalOk(local, files, r, store, |files|)
      ensures ok <==> forall f :: f in files && Ships(f, r) ==> !headFails(f)
    {
      hide RouteOf, EndsWith, IsRunner, Key, LocalOk;
      cached, toUpload, runner, pip := [], [], None, forced;
      StartLocal(local, files, r, store);
      for i := 0 to |files|
        invariant cached == Shipped(files[..i], r, store, true) && toUpload == Shipped(files[..i], r, store, false)
        invariant runner == RunnerOf(files[..i], r) && pip == PipSpecs(files[..i], r, forced)
        invariant LocalOk(local, files, r, store, i)
        invariant forall j :: 0 <= j < i && Ships(files[j], r) ==> !headFails(files[j])
      {
        var file := files[i];
        assert files[..i + 1][..i] == files[..i];
        SortedOne(local, files, r, store, i);
        WheelOrNot(file, r);
        if !EndsWith(file, ".whl") {
          continue;
        }
        if IsRunner(file, r) {
          runner := Some(file);
        }
        var route := RouteOf(file, r);
        match route {
          case Dropped => local := local - {file};
          case NativePip(name, spec) =>
            if name !in pip {
              pip := pip + [spec];
            }
            local := local - {file};
          case ForcedPip(spec) =>
            if spec !in pip {
              pip := pip + [spec];
            }
            local := local - {file};
          case Ship =>
            if headFails(file) {
              return false, cached, toUpload, runner, pip;
            }
            if Key(file) in store {
              cached := cached + [file];
              if !IsRunner(file, r) {
                local := local - {file};
              }
            } else {
              toUpload := toUpload + [file];
            }
        }
      }
      assert files[..|files|] == files;
      ok := true;
    }

    method Upload(toUpload: seq<string>) returns (ok: bool, uploaded: seq<string>)
      modifies this`store
      ensures uploaded <= toUpload && store == old(store) + KeysOf(uploaded)
      ensures ok ==> uploaded == toUpload
      ensures forall f :: f in uploaded ==> !uploadFails(f)
      ensures !ok ==> |uploaded| < |toUpload| && uploadFails(toUpload[|uploaded|])
    {
      hide Key;
      uploaded := [];
      assert KeysOf([]) == {};
      for i := 0 to |toUpload|
        invariant uploaded == toUpload[..i] && store == old(store) + KeysOf(uploaded)
        invariant forall j :: 0 <= j < i ==> !uploadFails(toUpload[j])
      {
        if uploadFails(toUpload[i]) {
          return false, uploaded;
        }
        assert toUpload[..i + 1] == toUpload[..i] + [toUpload[i]];
        assert KeysOf(toUpload[..i + 1]) == KeysOf(toUpload[..i]) + {Key(toUpload[i])};
        store := store + {Key(toUpload[i])};
        uploaded := uploaded + [toUpload[i]];
      }
      ok := true;
    }

    /** `files` is the download folder for what is left of `packages`. */
    method DownloadAndCache(packages: seq<string>, force: seq<string>, runnerPrefix: Option<string>, files: seq<string>)
      returns (r: Result, left: seq<string>)
      requires forall f :: f in local <==> f in files
      requires forall i, j :: 0 <= i < j < |files| ==> files[i] != files[j]
      modifies this`store, this`local
      ensures left == Unforced(packages, force)
      ensures var q := Request(NamesOf(left), force, runnerPrefix);
              && old(store) <= store <= old(store) + KeysOf(AllShipped(files, q))
              && (r.Ok? ==>
                && multiset(r.pyFiles) == multiset(AllShipped(files, q))
                && r.pyFiles == Shipped(files, q, old(store), true) + Shipped(files, q, old(store), false)
                && store == old(store) + KeysOf(AllShipped(files, q))
                && r.runner == RunnerOf(files, q)
                && r.pip == PipSpecs(files, q, ForcedOf(packages, force))
                && LocalOk(local, files, q, old(store), |files|)
                && SortedByName(files, q, old(store), r.pyFiles, r.pip, local))
              && (r.Raised? <==> CallFails(files, q, old(store), headFails, uploadFails))
    {
      hide *;
      var taken;
      left, taken := TakeForced(packages, force);
      var q := Request(NamesOf(left), force, runnerPrefix);
      ghost var before := store;
      var ok, cached, toUpload, runner, pip := Sort(files, q, taken);
      if !ok {
        HeadFailure(files, q, before, headFails, uploadFails);
        return Raised, left;
      }
      ShippedSplit(files, q, before);
      var uploaded;
      ok, uploaded := Upload(toUpload);
      UploadedKeys(files, q, before, uploaded);
      UploadFailure(files, q, before, headFails, uploadFails);
      if !ok {
        return Raised, left;
      }
      r := Ok(cached + uploaded, runner, pip);
      FilesAreUnique(files);
      AllSortedByName(files, q, before, ForcedOf(packages, force), r.pyFiles, local);
    }
  }

  /** A wheel that ships cannot be looked up, or is missing from the store and cannot be uploaded. */
  ghost predicate CallFails(files: seq<string>, r: Request, store: set<string>, headFails: string -> bool,
                            uploadFails: string -> bool)
  {
    exists f :: f in files && Ships(f, r) && (headFails(f) || (Key(f) !in store && uploadFails(f)))
  }

  lemma HeadFailure(files: seq<string>, r: Request, store: set<string>, headFails: string -> bool,
                    uploadFails: string -> bool)
    requires exists f :: f in files && Ships(f, r) && headFails(f)
    ensures CallFails(files, r, store, headFails, uploadFails)
  {
    hide Ships, Key;
  }

  /** When no lookup fails, some call does exactly if some missing wheel cannot be uploaded. */
  lemma UploadFailure(files: seq<string>, r: Request, store: set<string>, headFails: string -> bool,
                      uploadFails: string -> bool)
    requires forall f :: f in files && Ships(f, r) ==> !headFails(f)
    ensures var missing := Shipped(files, r, store, false);
            CallFails(files, r, store, headFails, uploadFails) <==> exists f :: f in missing && uploadFails(f)
  {
    hide Ships, Key, Shipped;
    forall f ensures f in Shipped(files, r, store, false) <==> f in files && Ships(f, r) && Key(f) !in store {
      ShippedMember(files, r, store, false, f);
    }
  }

  // ---------------------------------------------------------------------------------------
  // Told from the names
  // ---------------------------------------------------------------------------------------

  /** Where a wheel of the folder ends up: a pure one that nothing forces through pip is shipped, once, and any other is
      not; a forced one and a native one that was requested are listed for pip; none but a shipped one stays in the
      folder, and that only if the store lacks it or it is the job runner. */
  ghost predicate Fate(dist: string, version: string, file: string, r: Request, store: set<string>,
                       pyFiles: seq<string>, pip: seq<string>, local: set<string>)
  {
    var name := Hyphens(dist);
    var pure := PureName(file);
    var forced := name != "" && AnyStandsIn(r.force, name);
    var runner := r.runnerPrefix.Some? && r.runnerPrefix.value != "" && r.runnerPrefix.value <= file;
    && multiset(pyFiles)[file] == (if pure && !forced then 1 else 0)
    && (pure && forced ==> (if version == "" then name else name + "==" + version) in pip)
    && (!pure && name != "" && Lower(name) in r.names ==> name + "==" + version in pip || name in pip)
    && (file in local <==> pure && !forced && ("python_wheels/codeartifact_cache/" + file !in store || runner))
  }

  ghost predicate SortedByName(files: seq<string>, r: Request, store: set<string>, pyFiles: seq<string>,
                               pip: seq<string>, local: set<string>)
  {
    && (forall dist, version, tags ::
      NoHyphen(dist) && NoHyphen(version) && WheelName(dist, version, tags) in files ==>
        Fate(dist, version, WheelName(dist, version, tags), r, store, pyFiles, pip, local))
    && (forall f :: f in files && !IsWheel(f) ==> f in local && f !in pyFiles)
    && (forall f :: f in files && IsWheel(f) && !PureName(f) ==> f !in local && f !in pyFiles)
  }

  /** The last four characters of the name. */
  predicate IsWheel(file: string) {
    |file| >= 4 && file[|file| - 4..] == ".whl"
  }

  predicate Unique(files: seq<string>) {
    forall i, j :: 0 <= i < j < |files| ==> files[i] != files[j]
  }

  lemma {:induction false} ShippedOnce(files: seq<string>, r: Request, f: string)
    requires Unique(files)
    ensures multiset(AllShipped(files, r))[f] == if f in files && Ships(f, r) then 1 else 0
  {
    hide Ships;
    if files != [] {
      var n := |files| - 1;
      ShippedOnce(files[..n], r, f);
      assert files == files[..n] + [files[n]];
    }
  }

  /** The route of a wheel, told from its name. */
  lemma RouteOfWheel(dist: string, version: string, tags: string, r: Request)
    requires NoHyphen(dist) && NoHyphen(version)
    ensures var route, name := RouteOf(WheelName(dist, version, tags), r), Hyphens(dist);
            if PureName(WheelName(dist, version, tags)) then
              route == if name != "" && AnyStandsIn(r.force, name)
                       then ForcedPip(if version == "" then name else name + "==" + version) else Ship
            else
              route == if name != "" && Lower(name) in r.names then NativePip(name, name + "==" + version) else Dropped
  {
    hide HasNativeDependencies, ParseWheelFilename, PureName, Forced, AnyStandsIn, EndsWith, WheelName, Hyphens, Lower;
    ParseWheelBack(dist, version, tags);
    PureExactly(WheelName(dist, version, tags));
    ForcedExactly(Hyphens(dist), r.force);
  }

  lemma FilesAreUnique(files: seq<string>)
    requires forall i, j :: 0 <= i < j < |files| ==> files[i] != files[j]
    ensures Unique(files)
  {
  }

  lemma LocalMeans(local: set<string>, files: seq<string>, r: Request, store: set<string>, file: string)
    requires LocalOk(local, files, r, store, |files|) && file in files
    ensures file in local <==> !Deleted(file, r, store)
  {
    hide Deleted;
    assert files[..|files|] == files;
  }

  lemma RunnerMeans(file: string, r: Request)
    ensures IsRunner(file, r)
       <==> r.runnerPrefix.Some? && r.runnerPrefix.value != "" && r.runnerPrefix.value <= file
    ensures Key(file) == "python_wheels/codeartifact_cache/" + file
  {
  }

  lemma WheelFate(files: seq<string>, r: Request, store: set<string>, start: seq<string>, pyFiles: seq<string>,
                  local: set<string>, dist: string, version: string, tags: string)
    requires Unique(files) && multiset(pyFiles) == multiset(AllShipped(files, r))
    requires LocalOk(local, files, r, store, |files|)
    requires NoHyphen(dist) && NoHyphen(version) && WheelName(dist, version, tags) in files
    ensures Fate(dist, version, WheelName(dist, version, tags), r, store, pyFiles, PipSpecs(files, r, start), local)
  {
    var file := WheelName(dist, version, tags);
    hide RouteOf, PureName, AnyStandsIn, WheelName, Hyphens, Lower, PipSpecs, AllShipped, LocalOk, IsRunner, Key,
      NoHyphen;
    RouteOfWheel(dist, version, tags, r);
    ShippedOnce(files, r, file);
    PipCovers(files, r, start);
    LocalMeans(local, files, r, store, file);
    RunnerMeans(file, r);
  }

  lemma NoWheelFate(files: seq<string>, r: Request, store: set<string>, pyFiles: seq<string>, local: set<string>,
                    f: string)
    requires Unique(files) && multiset(pyFiles) == multiset(AllShipped(files, r))
    requires LocalOk(local, files, r, store, |files|) && f in files && !IsWheel(f)
    ensures f in local && f !in pyFiles
  {
    WheelOrNot(f, r);
    hide RouteOf, AllShipped, LocalOk, Key, IsRunner;
    LocalMeans(local, files, r, store, f);
    ShippedOnce(files, r, f);
    assert multiset(pyFiles)[f] == 0;
  }

  lemma NativeFate(files: seq<string>, r: Request, store: set<string>, pyFiles: seq<string>, local: set<string>,
                   f: string)
    requires Unique(files) && multiset(pyFiles) == multiset(AllShipped(files, r))
    requires LocalOk(local, files, r, store, |files|) && f in files && !PureName(f)
    requires IsWheel(f)
    ensures f !in local && f !in pyFiles
  {
    PureExactly(f);
    assert !Ships(f, r) && Deleted(f, r, store) by {
      hide PureName, HasNativeDependencies;
    }
    hide RouteOf, AllShipped, LocalOk, Key, IsRunner, PureName, Ships, Deleted;
    LocalMeans(local, files, r, store, f);
    ShippedOnce(files, r, f);
    assert multiset(pyFiles)[f] == 0;
  }

  lemma WheelFates(files: seq<string>, r: Request, store: set<string>, start: seq<string>, pyFiles: seq<string>,
                   local: set<string>)
    requires Unique(files) && multiset(pyFiles) == multiset(AllShipped(files, r))
    requires LocalOk(local, files, r, store, |files|)
    ensures forall dist, version, tags ::
      NoHyphen(dist) && NoHyphen(version) && WheelName(dist, version, tags) in files ==>
        Fate(dist, version, WheelName(dist, version, tags), r, store, pyFiles, PipSpecs(files, r, start), local)
  {
    hide *;
    forall dist, version, tags | NoHyphen(dist) && NoHyphen(version) && WheelName(dist, version, tags) in files
      ensures Fate(dist, version, WheelName(dist, version, tags), r, store, pyFiles, PipSpecs(files, r, start), local)
    {
      WheelFate(files, r, store, start, pyFiles, local, dist, version, tags);
    }
  }

  lemma OtherFates(files: seq<string>, r: Request, store: set<string>, pyFiles: seq<string>, local: set<string>)
    requires Unique(files) && multiset(pyFiles) == multiset(AllShipped(files, r))
    requires LocalOk(local, files, r, store, |files|)
    ensures forall f :: f in files && !IsWheel(f) ==> f in local && f !in pyFiles
    ensures forall f :: f in files && IsWheel(f) && !PureName(f) ==> f !in local && f !in pyFiles
  {
    hide *;
    forall f | f in files && !IsWheel(f) ensures f in local && f !in pyFiles {
      NoWheelFate(files, r, store, pyFiles, local, f);
    }
    forall f | f in files && IsWheel(f) && !PureName(f) ensures f !in local && f !in pyFiles {
      NativeFate(files, r, store, pyFiles, local, f);
    }
  }

  lemma AllSortedByName(files: seq<string>, r: Request, store: set<string>, start: seq<string>, pyFiles: seq<string>,
                        local: set<string>)
    requires Unique(files) && multiset(pyFiles) == multiset(AllShipped(files, r))
    requires LocalOk(local, files, r, store, |files|)
    ensures SortedByName(files, r, store, pyFiles, PipSpecs(files, r, start), local)
  {
    WheelFates(files, r, store, start, pyFiles, local);
    OtherFates(files, r, store, pyFiles, local);
    hide Fate, NoHyphen, AllShipped, LocalOk, PipSpecs, WheelName, PureName, IsWheel, Unique;
  }

  /** A native wheel that nobody asked for leaves no trace: what is shipped and what is left to pip is as without it. */
  lemma UnrequestedLeavesNoTrace(dist: string, version: string, tags: string, before: seq<string>, after: seq<string>,
                                 r: Request, start: seq<string>)
    requires NoHyphen(dist) && NoHyphen(version) && !PureName(WheelName(dist, version, tags))
    requires Lower(Hyphens(dist)) !in r.names
    ensures var file := WheelName(dist, version, tags);
            && AllShipped(before + [file] + after, r) == AllShipped(before + after, r)
            && PipSpecs(before + [file] + after, r, start) == PipSpecs(before + after, r, start)
  {
    hide RouteOf, PureName, AnyStandsIn, WheelName, Hyphens, Lower, PipSpecs, AllShipped, NoHyphen;
    RouteOfWheel(dist, version, tags, r);
    DroppedLeavesNoTrace(WheelName(dist, version, tags), before, after, r, start);
  }

  /** One more file does the same to equal lists. */
  lemma SameStep(a: seq<string>, b: seq<string>, f: string, r: Request, start: seq<string>)
    requires AllShipped(a, r) == AllShipped(b, r) && PipSpecs(a, r, start) == PipSpecs(b, r, start)
    ensures AllShipped(a + [f], r) == AllShipped(b + [f], r)
    ensures PipSpecs(a + [f], r, start) == PipSpecs(b + [f], r, start)
  {
    hide RouteOf;
    var x, y := a + [f], b + [f];
    assert x[..|a|] == a && y[..|b|] == b;
  }

  lemma DroppedStep(a: seq<string>, f: string, r: Request, start: seq<string>)
    requires RouteOf(f, r) == Dropped
    ensures AllShipped(a + [f], r) == AllShipped(a, r) && PipSpecs(a + [f], r, start) == PipSpecs(a, r, start)
  {
    hide RouteOf;
    var x := a + [f];
    assert x[..|a|] == a;
  }

  lemma {:induction false} DroppedLeavesNoTrace(file: string, before: seq<string>, after: seq<string>, r: Request,
                                                start: seq<string>)
    requires RouteOf(file, r) == Dropped
    ensures AllShipped(before + [file] + after, r) == AllShipped(before + after, r)
    ensures PipSpecs(before + [file] + after, r, start) == PipSpecs(before + after, r, start)
    decreases |after|
  {
    hide *;
    if after == [] {
      DroppedStep(before, file, r, start);
      assert before + [file] + after == before + [file] && before + after == before;
    } else {
      var init, last := after[..|after| - 1], after[|after| - 1];
      DroppedLeavesNoTrace(file, before, init, r, start);
      SameStep(before + [file] + init, before + init, last, r, start);
      assert after == init + [last];
      assert before + [file] + after == before + [file] + init + [last] && before + after == before + init + [last];
    }
  }

  lemma UploadedKeys(files: seq<string>, r: Request, store: set<string>, uploaded: seq<string>)
    requires uploaded <= Shipped(files, r, store, false)
    ensures KeysOf(uploaded) <= KeysOf(AllShipped(files, r))
    ensures uploaded == Shipped(files, r, store, false) ==>
      store + KeysOf(uploaded) == store + KeysOf(AllShipped(files, r))
  {
    hide Ships, Key, Shipped, AllShipped;
    var cached, missing, all := Shipped(files, r, store, true), Shipped(files, r, store, false), AllShipped(files, r);
    ShippedSplit(files, r, store);
    forall f ensures f in all <==> f in cached || f in missing {
      assert f in multiset(all) <==> f in multiset(cached + missing);
    }
    forall f | f in cached ensures Key(f) in store {
      ShippedMember(files, r, store, true, f);
    }
    forall f | f in uploaded ensures f in missing {
    }
  }

  lemma StartLocal(local: set<string>, files: seq<string>, r: Request, store: set<string>)
    requires forall f :: f in local <==> f in files
    ensures LocalOk(local, files, r, store, 0)
  {
  }

  lemma SortedOne(local: set<string>, files: seq<string>, r: Request, store: set<string>, i: nat)
    requires i < |files| && LocalOk(local, files, r, store, i)
    requires forall i, j :: 0 <= i < j < |files| ==> files[i] != files[j]
    ensures LocalOk(if Deleted(files[i], r, store) then local - {files[i]} else local, files, r, store, i + 1)
  {
    hide Deleted;
    assert files[..i + 1] == files[..i] + [files[i]];
  }

  lemma WheelOrNot(file: string, r: Request)
    ensures RouteOf(file, r).NotAWheel? <==> !EndsWith(file, ".whl")
  {
  }

  // ---------------------------------------------------------------------------------------
  // What a run achieves
  // ---------------------------------------------------------------------------------------

  /** After a run every shipped wheel is in the store, so the same wheels again upload nothing and return
      the same wheels. */
  lemma SecondRunUploadsNothing(files: seq<string>, q: Request, store: set<string>, after: set<string>)
    requires after == store + KeysOf(AllShipped(files, q))
    ensures Shipped(files, q, after, false) == []
    ensures multiset(Shipped(files, q, after, true))
         == multiset(Shipped(files, q, store, true) + Shipped(files, q, store, false))
    ensures after + KeysOf(AllShipped(files, q)) == after
  {
    hide Ships, Key, Shipped;
    forall f | f in files && Ships(f, q) ensures Key(f) in after {
      AllShippedMember(files, q, f);
    }
    AllCached(files, q, after);
    ShippedSplit(files, q, store);
  }

  lemma {:induction false} AllShippedMember(files: seq<string>, r: Request, f: string)
    ensures f in AllShipped(files, r) <==> f in files && Ships(f, r)
  {
    hide Ships;
    if files != [] {
      var n := |files| - 1;
      AllShippedMember(files[..n], r, f);
      assert files == files[..n] + [files[n]];
    }
  }

  /** No native wheel and none forced through pip is ever uploaded, not even by a run that fails on the way. */
  lemma OnlyPureUploaded(files: seq<string>, q: Request, store: set<string>, after: set<string>, file: string)
    requires store <= after <= store + KeysOf(AllShipped(files, q))
    requires Key(file) in after && Key(file) !in store
    ensures file in files && Ships(file, q) && !HasNativeDependencies(file)
    ensures var parsed := ParseWheelFilename(file);
            parsed.Some? && parsed.value.0 != "" ==> !Forced(parsed.value.0, q.force)
  {
    hide Key, AllShipped, HasNativeDependencies;
    var f :| f in AllShipped(files, q) && Key(f) == Key(file);
    KeyInjective(f, file);
    AllShippedMember(files, q, file);
  }

  /** Every native wheel of a requested package and every forced wheel is left to pip, and nothing else is. */
  lemma {:induction false} PipCovers(files: seq<string>, q: Request, start: seq<string>)
    ensures forall f :: f in files ==> LeftToPip(RouteOf(f, q), PipSpecs(files, q, start))
    ensures forall spec :: spec in PipSpecs(files, q, start) ==>
      spec in start || exists f :: f in files && Asks(RouteOf(f, q), spec)
  {
    hide RouteOf;
    if files != [] {
      var n := |files| - 1;
      PipCovers(files[..n], q, start);
      assert files == files[..n] + [files[n]];
      forall spec | spec in PipSpecs(files, q, start) && spec !in start
        ensures exists f :: f in files && Asks(RouteOf(f, q), spec)
      {
        if spec in PipSpecs(files[..n], q, start) {
          var f :| f in files[..n] && Asks(RouteOf(f, q), spec);
          assert f in files;
        } else {
          assert files[n] in files && Asks(RouteOf(files[n], q), spec);
        }
      }
    }
  }

  predicate LeftToPip(route: Route, specs: seq<string>) {
    match route
    case NativePip(name, spec) => spec in specs || name in specs
    case ForcedPip(spec) => spec in specs
    case _ => true
  }

  predicate Asks(route: Route, spec: string) {
    (route.NativePip? || route.ForcedPip?) && route.spec == spec
  }

  predicate RepeatFree(s: seq<string>) {
    forall i, j :: 0 <= i < j < |s| ==> s[i] != s[j]
  }

  /** The check for a native wheel compares its bare name with full requirements: it lets through a wheel whose
      requirement is in the list already. */
  predicate AddsAgain(route: Route, specs: seq<string>) {
    route.NativePip? && route.name !in specs && route.spec in specs
  }

  lemma RepeatSnoc(specs: seq<string>, spec: string)
    ensures RepeatFree(specs + [spec]) <==> RepeatFree(specs) && spec !in specs
  {
    var longer := specs + [spec];
    assert forall i :: 0 <= i < |specs| ==> longer[i] == specs[i];
    if spec in specs {
      var i :| 0 <= i < |specs| && specs[i] == spec;
      assert longer[i] == longer[|specs|];
    }
    if !RepeatFree(specs) {
      var i, j :| 0 <= i < j < |specs| && specs[i] == specs[j];
      assert longer[i] == longer[j];
    }
  }

  ghost predicate AgainSomewhere(files: seq<string>, q: Request, start: seq<string>) {
    exists i :: 0 <= i < |files| && AddsAgain(RouteOf(files[i], q), PipSpecs(files[..i], q, start))
  }

  lemma AgainSnoc(files: seq<string>, f: string, q: Request, start: seq<string>)
    ensures AgainSomewhere(files + [f], q, start)
       <==> AgainSomewhere(files, q, start) || AddsAgain(RouteOf(f, q), PipSpecs(files, q, start))
  {
    hide RouteOf, AddsAgain, PipSpecs;
    var longer := files + [f];
    assert longer[..|files|] == files && longer[|files|] == f;
    forall i | 0 <= i < |files| ensures longer[..i] == files[..i] && longer[i] == files[i] {
    }
    if AgainSomewhere(files, q, start) {
      var i :| 0 <= i < |files| && AddsAgain(RouteOf(files[i], q), PipSpecs(files[..i], q, start));
      assert AddsAgain(RouteOf(longer[i], q), PipSpecs(longer[..i], q, start));
    }
  }

  /** A requirement is listed twice exactly if it is in the forced ones already, or the check lets it through again. */
  lemma {:induction false} PipRepeats(files: seq<string>, q: Request, start: seq<string>)
    ensures !RepeatFree(PipSpecs(files, q, start)) <==> !RepeatFree(start) || AgainSomewhere(files, q, start)
  {
    hide RouteOf, RepeatFree, AgainSomewhere;
    if files == [] {
      NothingAgain(q, start);
    } else {
      var n := |files| - 1;
      PipRepeats(files[..n], q, start);
      AgainSnoc(files[..n], files[n], q, start);
      assert files[..n] + [files[n]] == files;
      var specs, route := PipSpecs(files[..n], q, start), RouteOf(files[n], q);
      if route.NativePip? || route.ForcedPip? {
        RepeatSnoc(specs, route.spec);
      }
    }
  }

  lemma NothingAgain(q: Request, start: seq<string>)
    ensures !AgainSomewhere([], q, start)
  {
  }

  /** Somebody before the i-th file asks for the requirement. */
  ghost predicate AskedBefore(files: seq<string>, i: nat, q: Request, start: seq<string>, spec: string)
    requires i <= |files|
  {
    spec in start || exists j :: 0 <= j < i && Asks(RouteOf(files[j], q), spec)
  }

  /** Names and versions without `=`, as PEP 427 has them. */
  predicate NoEquals(files: seq<string>) {
    forall i :: 0 <= i < |files| ==> '=' !in files[i]
  }

  /** A requirement is listed twice exactly if the forced ones repeat, or some native wheel of a requested package comes
      after a file or a forced package that asks for the same requirement, while nobody asks for its bare name. */
  lemma PipRepeatsExactly(files: seq<string>, q: Request, start: seq<string>)
    requires NoEquals(files)
    ensures !RepeatFree(PipSpecs(files, q, start))
       <==> !RepeatFree(start) || exists i :: 0 <= i < |files| && RepeatedAt(files, i, q, start)
  {
    hide RouteOf, RepeatFree, PipSpecs, AddsAgain, RepeatedAt;
    PipRepeats(files, q, start);
    forall i | 0 <= i < |files|
      ensures AddsAgain(RouteOf(files[i], q), PipSpecs(files[..i], q, start)) <==> RepeatedAt(files, i, q, start)
    {
      RepeatedAtMeans(files, i, q, start);
    }
  }

  ghost predicate RepeatedAt(files: seq<string>, i: nat, q: Request, start: seq<string>)
    requires i < |files|
  {
    var route := RouteOf(files[i], q);
    route.NativePip? && !AskedBefore(files, i, q, start, route.name) && AskedBefore(files, i, q, start, route.spec)
  }

  /** Where the name ends in a requirement. */
  lemma EqualsIndex(a: string, v: string)
    requires '=' !in a
    ensures var s := a + "==" + v;
            |s| >= |a| + 2 && s[|a|] == '=' && s[..|a|] == a && forall k :: 0 <= k < |a| ==> s[k] != '='
  {
  }

  lemma SpecNames(a: string, v: string, b: string, w: string)
    requires '=' !in a && '=' !in b && a + "==" + v == b + "==" + w
    ensures a == b
  {
    EqualsIndex(a, v);
    EqualsIndex(b, w);
  }

  /** What a route says of a file name without `=`: its requirement begins with its name, and with no other. */
  lemma RouteParts(file: string, q: Request, name: string, version: string)
    requires '=' !in file && '=' !in name
    ensures var route := RouteOf(file, q);
            route.NativePip? ==>
              && '=' !in route.name && '=' in route.spec
              && (exists v :: route.spec == route.name + "==" + v)
              && (route.spec == name + "==" + version ==> route.name == name)
  {
    var route := RouteOf(file, q);
    if route.NativePip? {
      var v := ParseWheelFilename(file).value.1;
      BeforeMember(Stem(file), "-", '=');
      HyphensMember(Before(Stem(file), "-"), '=');
      hide Before, Hyphens, RouteOf, ParseWheelFilename;
      EqualsIndex(route.name, v);
      assert route.spec == route.name + "==" + v;
      if route.spec == name + "==" + version {
        SpecNames(name, version, route.name, v);
      }
    }
  }

  /** A file that asks for something has it in the list afterwards, or the bare name of its package. */
  lemma {:induction false} AskedIsListed(files: seq<string>, j: nat, q: Request, start: seq<string>)
    requires j < |files|
    ensures LeftToPip(RouteOf(files[j], q), PipSpecs(files, q, start))
  {
    hide RouteOf;
    PipCovers(files, q, start);
    assert files[j] in files;
  }

  lemma {:induction false} StartIsListed(files: seq<string>, q: Request, start: seq<string>, x: string)
    requires x in start
    ensures x in PipSpecs(files, q, start)
  {
    hide RouteOf;
    if files != [] {
      StartIsListed(files[..|files| - 1], q, start, x);
    }
  }

  lemma ListedIsAsked(files: seq<string>, i: nat, q: Request, start: seq<string>, x: string)
    requires i <= |files| && x in PipSpecs(files[..i], q, start)
    ensures AskedBefore(files, i, q, start, x)
  {
    hide RouteOf, PipSpecs;
    PipCovers(files[..i], q, start);
    if x !in start {
      var f :| f in files[..i] && Asks(RouteOf(f, q), x);
      var j :| 0 <= j < i && files[..i][j] == f;
      assert Asks(RouteOf(files[j], q), x);
    }
  }

  /** A bare name that is asked for is listed. */
  lemma AskedNameIsListed(files: seq<string>, i: nat, q: Request, start: seq<string>, name: string)
    requires i <= |files| && NoEquals(files) && '=' !in name && AskedBefore(files, i, q, start, name)
    ensures name in PipSpecs(files[..i], q, start)
  {
    hide RouteOf, PipSpecs;
    if name in start {
      StartIsListed(files[..i], q, start, name);
    } else {
      var j :| 0 <= j < i && Asks(RouteOf(files[j], q), name);
      AskedIsListed(files[..i], j, q, start);
      RouteParts(files[j], q, name, "");
    }
  }

  /** A requirement that is asked for is listed, unless the bare name of its package is. */
  lemma AskedSpecIsListed(files: seq<string>, i: nat, q: Request, start: seq<string>, name: string, version: string)
    requires i <= |files| && NoEquals(files) && '=' !in name && name !in PipSpecs(files[..i], q, start)
    requires AskedBefore(files, i, q, start, name + "==" + version)
    ensures name + "==" + version in PipSpecs(files[..i], q, start)
  {
    hide RouteOf, PipSpecs;
    var spec := name + "==" + version;
    if spec in start {
      StartIsListed(files[..i], q, start, spec);
    } else {
      var j :| 0 <= j < i && Asks(RouteOf(files[j], q), spec);
      AskedIsListed(files[..i], j, q, start);
      RouteParts(files[j], q, name, version);
    }
  }

  lemma RepeatedAtMeans(files: seq<string>, i: nat, q: Request, start: seq<string>)
    requires i < |files| && NoEquals(files)
    ensures AddsAgain(RouteOf(files[i], q), PipSpecs(files[..i], q, start)) <==> RepeatedAt(files, i, q, start)
  {
    hide RouteOf, PipSpecs, AskedBefore;
    var route, specs := RouteOf(files[i], q), PipSpecs(files[..i], q, start);
    if route.NativePip? {
      RouteParts(files[i], q, "", "");
      var v :| route.spec == route.name + "==" + v;
      if route.name in specs {
        ListedIsAsked(files, i, q, start, route.name);
      } else {
        if AskedBefore(files, i, q, start, route.name) {
          AskedNameIsListed(files, i, q, start, route.name);
        }
        if route.spec in specs {
          ListedIsAsked(files, i, q, start, route.spec);
        } else if AskedBefore(files, i, q, start, route.spec) {
          AskedSpecIsListed(files, i, q, start, route.name, v);
        }
      }
    }
  }

  /** The wheels of one release for two platforms: its requirement is listed twice. */
  lemma NativeTwice(q: Request)
    requires q.names == NamesOf(["numba==0.59.0"])
    ensures PipSpecs([NumbaWheel("manylinux_x86_64"), NumbaWheel("musllinux_x86_64")], q, [])
         == ["numba==0.59.0", "numba==0.59.0"]
  {
    hide *;
    NoOInPlatforms();
    NumbaFacts("manylinux_x86_64");
    NumbaFacts("musllinux_x86_64");
    ReleaseFacts();
    var packages := ["numba==0.59.0"];
    assert "numba" + "==0.59.0" == packages[0];
    RequestedWheelGoesToPip(packages, "numba", "==0.59.0", "numba", "0.59.0", "cp310-cp310-" + "manylinux_x86_64", q);
    RequestedWheelGoesToPip(packages, "numba", "==0.59.0", "numba", "0.59.0", "cp310-cp310-" + "musllinux_x86_64", q);
    assert "numba" + "==" + "0.59.0" == packages[0];
    TwoOfOneRelease(NumbaWheel("manylinux_x86_64"), NumbaWheel("musllinux_x86_64"), "numba", packages[0], q);
  }

  lemma ReleaseFacts()
    ensures Blank(Uncut("==0.59.0"))
  {
    assert "==0.59.0"[..2] == "==";
  }

  lemma TwoOfOneRelease(a: string, b: string, name: string, spec: string, q: Request)
    requires RouteOf(a, q) == NativePip(name, spec) && RouteOf(b, q) == NativePip(name, spec) && name != spec
    ensures PipSpecs([a, b], q, []) == [spec, spec]
  {
    hide RouteOf;
    var both := [a, b];
    assert both[..1] == [a] && both[1] == b && [a][..0] == [];
    assert PipSpecs([a], q, []) == [spec];
  }

  /** The job runner wheel that is returned is still in the folder exactly if it is one of the shipped
      wheels: one that is native or forced through pip has been deleted. */
  lemma RunnerIsThere(files: seq<string>, q: Request, store: set<string>, local: set<string>)
    requires LocalOk(local, files, q, store, |files|) && RunnerOf(files, q).Some?
    ensures RunnerOf(files, q).value in local <==> Ships(RunnerOf(files, q).value, q)
  {
    hide RunnerOf, Key, IsRunner, EndsWith, RouteOf;
    RunnerIsListed(files, q);
    WheelOrNot(RunnerOf(files, q).value, q);
    assert files[..|files|] == files;
  }
}
