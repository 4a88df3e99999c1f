/** Model of the Databricks asset staging of runner_assets.py: content-hash-keyed workspace paths, the
    upload loop of one task against a workspace that other tasks write to at the same time, and the race
    of any number of tasks as a transition system.
  */
module RunnerAssets {

  type Bytes = seq<bv8>

  datatype Asset = Notebook | InitScript

  function Name(a: Asset): string {
    match a
    case Notebook => "job_runner_databricks"
    case InitScript => "agnostic_operator_cluster_init_databricks.sh"
  }

  /** What a provider version bundles. */
  type Bundle = Asset -> Bytes

  /** The first twelve digits of the hash of a file. */
  type Digest = Bytes -> string

  ghost predicate Hex12(digest: Digest) {
    forall b :: |digest(b)| == 12
  }

  function TrimSlashes(s: string): string {
    if s != "" && s[|s| - 1] == '/' then TrimSlashes(s[..|s| - 1]) else s
  }

  function AssetPath(a: Asset, scriptsPath: string, hash: string): string {
    TrimSlashes(scriptsPath) + "/runners/" + hash + "-" + Name(a)
  }

  lemma PathParts(a: Asset, f: string, x: string)
    requires |x| == 12
    ensures var p := AssetPath(a, f, x);
            var m := |p| - |Name(a)| - 1;
            m >= 21 && p[|p| - 1] == Name(a)[|Name(a)| - 1] && p[m - 12..m] == x && p[..m - 21] == TrimSlashes(f)
  {
    hide TrimSlashes;
    assert |Name(a)| > 0;
    hide Name;
    var folder, name := TrimSlashes(f), Name(a);
    assert AssetPath(a, f, x) == folder + "/runners/" + x + ("-" + name);
    hide AssetPath;
    Middle(folder + "/runners/", x, "-" + name);
    Middle("", folder, "/runners/");
    assert ("-" + name)[|name|] == name[|name| - 1];
  }

  lemma Middle(a: string, b: string, c: string)
    ensures (a + b + c)[|a|..|a| + |b|] == b
    ensures forall k :: 0 <= k <= |a| ==> (a + b + c)[..k] == a[..k]
    ensures c != "" ==> (a + b + c)[|a + b + c| - 1] == c[|c| - 1]
  {
  }

  /** `path.rsplit("/", 1)[0]` */
  function AssetFolder(scriptsPath: string): string {
    TrimSlashes(scriptsPath) + "/runners"
  }

  /** The slashes at the end are cut, all of them and nothing else. */
  lemma {:induction false} TrimSlashesExactly(s: string)
    ensures var r := TrimSlashes(s);
            && r <= s && (forall i :: |r| <= i < |s| ==> s[i] == '/')
            && (r != "" ==> r[|r| - 1] != '/')
  {
    if s != "" && s[|s| - 1] == '/' {
      TrimSlashesExactly(s[..|s| - 1]);
    }
  }

  /** The folder of a path is all of it up to its last slash. */
  lemma FolderOfPath(a: Asset, scriptsPath: string, hash: string)
    requires '/' !in hash
    ensures var path, n := AssetPath(a, scriptsPath, hash), |AssetFolder(scriptsPath)|;
            && n < |path| && path[..n] == AssetFolder(scriptsPath) && path[n] == '/' && '/' !in path[n + 1..]
            && path[n + 1..] == hash + "-" + if a.Notebook? then "job_runner_databricks"
                                             else "agnostic_operator_cluster_init_databricks.sh"
  {
    hide TrimSlashes;
    NamesOfAssets(a);
    NameHasNoSlash(a);
    hide Name;
    var folder, rest := AssetFolder(scriptsPath), hash + "-" + Name(a);
    assert AssetPath(a, scriptsPath, hash) == folder + "/" + rest;
    hide AssetFolder, AssetPath;
    CutAtSlash(folder, rest);
    NoSlash(hash, Name(a));
  }

  lemma CutAtSlash(folder: string, rest: string)
    ensures var path, n := folder + "/" + rest, |folder|;
            n < |path| && path[..n] == folder && path[n] == '/' && path[n + 1..] == rest
  {
  }

  lemma NoSlash(a: string, b: string)
    requires '/' !in a && '/' !in b
    ensures '/' !in a + "-" + b
  {
  }

  lemma NamesOfAssets(a: Asset)
    ensures Name(a) == if a.Notebook? then "job_runner_databricks" else "agnostic_operator_cluster_init_databricks.sh"
  {
  }

  lemma NameHasNoSlash(a: Asset)
    ensures '/' !in Name(a)
  {
    match a
    case Notebook => assert Name(a) == "job_runner_databricks";
    case InitScript => assert Name(a) == "agnostic_operator_cluster_init_databricks.sh";
  }

  /** A path belongs to one asset and carries one hash. */
  lemma PathCarriesHash(a: Asset, b: Asset, f: string, g: string, x: string, y: string)
    requires |x| == 12 && |y| == 12 && AssetPath(a, f, x) == AssetPath(b, g, y)
    ensures a == b && x == y && TrimSlashes(f) == TrimSlashes(g)
  {
    hide TrimSlashes, AssetPath;
    PathParts(a, f, x);
    PathParts(b, g, y);
  }

  type Store = map<string, Bytes>

  /** Every object whose path carries a hash has that hash. */
  ghost predicate HashesMatch(store: Store, digest: Digest) {
    forall p, a, f, b {:trigger AssetPath(a, f, digest(b)), p in store} ::
      p in store && p == AssetPath(a, f, digest(b)) ==> digest(store[p]) == digest(b)
  }

  /** Nothing was overwritten or removed. */
  ghost predicate Extends(before: Store, after: Store) {
    forall p :: p in before ==> p in after && after[p] == before[p]
  }

  lemma AddMatching(store: Store, digest: Digest, a: Asset, f: string, content: Bytes)
    requires HashesMatch(store, digest) && Hex12(digest)
    ensures HashesMatch(store[AssetPath(a, f, digest(content)) := content], digest)
  {
    var path := AssetPath(a, f, digest(content));
    var after := store[path := content];
    hide AssetPath;
    forall p, b, g, c | p in after && p == AssetPath(b, g, digest(c)) ensures digest(after[p]) == digest(c) {
      if p == path {
        PathCarriesHash(a, b, f, g, digest(content), digest(c));
      }
    }
  }

  // ---------------------------------------------------------------------------------------
  // One task
  // ---------------------------------------------------------------------------------------

  datatype Status = Found | NotFound | StatusError

  datatype Imported = Created | AlreadyExists | ImportError

  datatype Result = Ok(paths: map<Asset, string>) | Raised

  /** The workspace, and what others do to it before the n-th call. */
  class Workspace {
    var objects: Store
    var folders: set<string>
    var calls: nat
    const digest: Digest
    const others: (nat, Store) -> Store
    const fails: nat -> bool
    ghost var created: seq<string>

    constructor (objects: Store, digest: Digest, others: (nat, Store) -> Store, fails: nat -> bool)
      ensures this.objects == objects && this.digest == digest && this.others == others && this.fails == fails
      ensures created == []
    {
      this.objects := objects;
      folders := {};
      this.digest := digest;
      this.others := others;
      this.fails := fails;
      calls := 0;
      created := [];
    }

    /** The other writers stage by the same rules. */
    ghost predicate SoundOthers() {
      && Hex12(digest)
      && (forall n: nat, s: Store :: Extends(s, others(n, s)))
      && (forall n: nat, s: Store :: HashesMatch(s, digest) ==> HashesMatch(others(n, s), digest))
    }

    method GetStatus(path: string) returns (r: Status)
      requires SoundOthers() && HashesMatch(objects, digest)
      modifies this`objects, this`calls
      ensures Extends(old(objects), objects) && HashesMatch(objects, digest)
      ensures calls == old(calls) + 1
      ensures r == if fails(calls) then StatusError else if path in objects then Found else NotFound
    {
      hide HashesMatch, Hex12;
      objects := others(calls, objects);
      calls := calls + 1;
      r := if fails(calls) then StatusError else if path in objects then Found else NotFound;
    }

    method Mkdirs(folder: string) returns (ok: bool)
      requires SoundOthers() && HashesMatch(objects, digest)
      modifies this`objects, this`calls, this`folders
      ensures Extends(old(objects), objects) && HashesMatch(objects, digest)
      ensures calls == old(calls) + 1 && ok == !fails(calls)
      ensures folders == old(folders) + if ok then {folder} else {}
    {
      hide HashesMatch, Hex12;
      objects := others(calls, objects);
      calls := calls + 1;
      ok := !fails(calls);
      if ok {
        folders := folders + {folder};
      }
    }

    /** `import_` with `overwrite=False`, into a folder that exists. */
    method Import(a: Asset, scriptsPath: string, content: Bytes) returns (r: Imported)
      requires SoundOthers() && HashesMatch(objects, digest) && AssetFolder(scriptsPath) in folders
      modifies this`objects, this`calls, this`created
      ensures Extends(old(objects), objects) && HashesMatch(objects, digest)
      ensures calls == old(calls) + 1 && r.ImportError? == fails(calls)
      ensures !r.ImportError? ==> AssetPath(a, scriptsPath, digest(content)) in objects
      ensures created == old(created) + if r.Created? then [AssetPath(a, scriptsPath, digest(content))] else []
      ensures r.Created? ==> AssetPath(a, scriptsPath, digest(content)) !in old(objects)
    {
      hide HashesMatch, Hex12, AssetPath;
      objects := others(calls, objects);
      calls := calls + 1;
      var path := AssetPath(a, scriptsPath, digest(content));
      if fails(calls) {
        return ImportError;
      }
      if path in objects {
        return AlreadyExists;
      }
      AddMatching(objects, digest, a, scriptsPath, content);
      objects := objects[path := content];
      created := created + [path];
      return Created;
    }
  }

  /** The paths a task reports, each holding an object with the hash of the task's own file. */
  ghost predicate Staged(paths: map<Asset, string>, scriptsPath: string, bundle: Bundle, store: Store, digest: Digest) {
    forall a :: a in paths ==>
      && paths[a] == AssetPath(a, scriptsPath, digest(bundle(a)))
      && paths[a] in store && digest(store[paths[a]]) == digest(bundle(a))
  }

  lemma StagedLater(paths: map<Asset, string>, scriptsPath: string, bundle: Bundle, a: Store, b: Store, digest: Digest)
    requires Staged(paths, scriptsPath, bundle, a, digest) && Extends(a, b)
    ensures Staged(paths, scriptsPath, bundle, b, digest)
  {
  }

  lemma StagedOneMore(paths: map<Asset, string>, x: Asset, scriptsPath: string, bundle: Bundle, store: Store,
                      digest: Digest)
    requires Staged(paths, scriptsPath, bundle, store, digest) && HashesMatch(store, digest)
    requires AssetPath(x, scriptsPath, digest(bundle(x))) in store
    ensures Staged(paths[x := AssetPath(x, scriptsPath, digest(bundle(x)))], scriptsPath, bundle, store, digest)
  {
    hide AssetPath;
  }

  lemma ExtendsTransitive(a: Store, b: Store, c: Store)
    requires Extends(a, b) && Extends(b, c)
    ensures Extends(a, c)
  {
  }

  function KeysOf(assets: seq<Asset>): set<Asset> {
    set a | a in assets
  }

  /** What was created after the first `from` objects is new in the store and belongs to an asset of the task. */
  ghost predicate OwnAndNew(created: seq<string>, from: nat, store: Store, scriptsPath: string, assets: seq<Asset>,
                            bundle: Bundle, digest: Digest)
  {
    && from <= |created|
    && forall j :: from <= j < |created| ==>
         created[j] !in store && exists a :: a in assets && created[j] == AssetPath(a, scriptsPath, digest(bundle(a)))
  }

  lemma OwnAndNewOne(created: seq<string>, from: nat, store: Store, scriptsPath: string, assets: seq<Asset>,
                     bundle: Bundle, digest: Digest, i: nat)
    requires OwnAndNew(created, from, store, scriptsPath, assets, bundle, digest) && i < |assets|
    ensures var path := AssetPath(assets[i], scriptsPath, digest(bundle(assets[i])));
            path !in store ==> OwnAndNew(created + [path], from, store, scriptsPath, assets, bundle, digest)
  {
    hide AssetPath;
  }

  /** The first `i` assets are staged. */
  ghost predicate StagedUpTo(paths: map<Asset, string>, assets: seq<Asset>, i: nat, scriptsPath: string,
                             bundle: Bundle, store: Store, digest: Digest)
  {
    i <= |assets| && paths.Keys == KeysOf(assets[..i]) && Staged(paths, scriptsPath, bundle, store, digest)
  }

  lemma NothingStaged(assets: seq<Asset>, scriptsPath: string, bundle: Bundle, store: Store, digest: Digest)
    ensures StagedUpTo(map[], assets, 0, scriptsPath, bundle, store, digest)
  {
  }

  lemma StagedNext(paths: map<Asset, string>, assets: seq<Asset>, i: nat, scriptsPath: string, bundle: Bundle,
                   before: Store, after: Store, digest: Digest)
    requires StagedUpTo(paths, assets, i, scriptsPath, bundle, before, digest) && i < |assets|
    requires Extends(before, after) && HashesMatch(after, digest)
    requires AssetPath(assets[i], scriptsPath, digest(bundle(assets[i]))) in after
    ensures StagedUpTo(paths[assets[i] := AssetPath(assets[i], scriptsPath, digest(bundle(assets[i])))], assets, i + 1,
                       scriptsPath, bundle, after, digest)
  {
    hide AssetPath, HashesMatch, Extends, Staged, KeysOf;
    KeysSnoc(assets, i);
    StagedLater(paths, scriptsPath, bundle, before, after, digest);
    StagedOneMore(paths, assets[i], scriptsPath, bundle, after, digest);
  }

  lemma StagedToTheEnd(paths: map<Asset, string>, assets: seq<Asset>, scriptsPath: string, bundle: Bundle,
                       store: Store, digest: Digest)
    requires StagedUpTo(paths, assets, |assets|, scriptsPath, bundle, store, digest)
    ensures paths.Keys == KeysOf(assets) && Staged(paths, scriptsPath, bundle, store, digest)
  {
    hide Staged;
    assert assets[..|assets|] == assets;
  }

  lemma KeysSnoc(assets: seq<Asset>, i: nat)
    requires i < |assets|
    ensures KeysOf(assets[..i + 1]) == KeysOf(assets[..i]) + {assets[i]}
  {
    assert assets[..i + 1] == assets[..i] + [assets[i]];
  }

  /** None of the calls after `from` up to `to` failed. */
  predicate NoneFailed(fails: nat -> bool, from: nat, to: nat) {
    forall n :: from < n <= to ==> !fails(n)
  }

  lemma NoneFailedYet(fails: nat -> bool, n: nat)
    ensures NoneFailed(fails, n, n)
  {
  }

  lemma NoneFailedMeans(fails: nat -> bool, n: nat)
    ensures NoneFailed(fails, n, n + 1) <==> !fails(n + 1)
    ensures NoneFailed(fails, n, n + 2) <==> !fails(n + 1) && !fails(n + 2)
    ensures NoneFailed(fails, n, n + 3) <==> !fails(n + 1) && !fails(n + 2) && !fails(n + 3)
  {
    NoneFailedJoin(fails, n, n + 1, n + 2);
    NoneFailedJoin(fails, n, n + 2, n + 3);
  }

  lemma NoneFailedJoin(fails: nat -> bool, a: nat, b: nat, c: nat)
    requires a <= b <= c
    ensures NoneFailed(fails, a, c) <==> NoneFailed(fails, a, b) && NoneFailed(fails, b, c)
  {
  }

  lemma SomeFailed(fails: nat -> bool, a: nat, b: nat)
    requires !NoneFailed(fails, a, b)
    ensures exists n :: a < n <= b && fails(n)
  {
  }

  /** One round of the loop; losing the race to another task is no failure. */
  method UploadAsset(w: Workspace, scriptsPath: string, asset: Asset, content: Bytes) returns (ok: bool)
    requires w.SoundOthers() && HashesMatch(w.objects, w.digest)
    modifies w`objects, w`folders, w`calls, w`created
    ensures Extends(old(w.objects), w.objects) && HashesMatch(w.objects, w.digest)
    ensures old(w.calls) <= w.calls && ok == NoneFailed(w.fails, old(w.calls), w.calls)
    ensures var path := AssetPath(asset, scriptsPath, w.digest(content));
            && (ok ==> path in w.objects)
            && (w.created == old(w.created) || (w.created == old(w.created) + [path] && path !in old(w.objects)))
  {
    NoneFailedMeans(w.fails, w.calls);
    hide *;
    var path := AssetPath(asset, scriptsPath, w.digest(content));
    ghost var start := w.objects;
    var status := w.GetStatus(path);
    if status.StatusError? {
      return false;
    }
    if status.NotFound? {
      ghost var checked := w.objects;
      var made := w.Mkdirs(AssetFolder(scriptsPath));
      ExtendsTransitive(start, checked, w.objects);
      if !made {
        return false;
      }
      ghost var ready := w.objects;
      var imported := w.Import(asset, scriptsPath, content);
      ExtendsTransitive(start, ready, w.objects);
      NewInOld(start, ready, path);
      return !imported.ImportError?;
    }
    ok := true;
  }

  /** Whatever the other tasks do meanwhile: what is returned is there, with the right hash, nothing was
      overwritten, and only a call that failed is a failure; losing the race to another task is none. */
  method UploadAssets(w: Workspace, scriptsPath: string, assets: seq<Asset>, bundle: Bundle) returns (r: Result)
    requires w.SoundOthers() && HashesMatch(w.objects, w.digest)
    modifies w`objects, w`folders, w`calls, w`created
    ensures Extends(old(w.objects), w.objects) && HashesMatch(w.objects, w.digest)
    ensures r.Raised? <==> exists n :: old(w.calls) < n <= w.calls && w.fails(n)
    ensures r.Ok? ==> r.paths.Keys == KeysOf(assets) && Staged(r.paths, scriptsPath, bundle, w.objects, w.digest)
    ensures OwnAndNew(w.created, |old(w.created)|, old(w.objects), scriptsPath, assets, bundle, w.digest)
  {
    NoneFailedYet(w.fails, w.calls);
    assert OwnAndNew(w.created, |w.created|, w.objects, scriptsPath, assets, bundle, w.digest);
    hide *;
    var paths: map<Asset, string> := map[];
    ghost var start := w.objects;
    Unchanged(start, scriptsPath, bundle, w.digest);
    NothingStaged(assets, scriptsPath, bundle, start, w.digest);
    for i := 0 to |assets|
      invariant Extends(start, w.objects) && HashesMatch(w.objects, w.digest)
      invariant StagedUpTo(paths, assets, i, scriptsPath, bundle, w.objects, w.digest)
      invariant OwnAndNew(w.created, |old(w.created)|, start, scriptsPath, assets, bundle, w.digest)
      invariant old(w.calls) <= w.calls && NoneFailed(w.fails, old(w.calls), w.calls)
    {
      var asset := assets[i];
      var path := AssetPath(asset, scriptsPath, w.digest(bundle(asset)));
      OwnAndNewOne(w.created, |old(w.created)|, start, scriptsPath, assets, bundle, w.digest, i);
      ghost var before, calls := w.objects, w.calls;
      var ok := UploadAsset(w, scriptsPath, asset, bundle(asset));
      NewInOld(start, before, path);
      ExtendsTransitive(start, before, w.objects);
      NoneFailedJoin(w.fails, old(w.calls), calls, w.calls);
      if !ok {
        SomeFailed(w.fails, old(w.calls), w.calls);
        return Raised;
      }
      StagedNext(paths, assets, i, scriptsPath, bundle, before, w.objects, w.digest);
      paths := paths[asset := path];
    }
    StagedToTheEnd(paths, assets, scriptsPath, bundle, w.objects, w.digest);
    AllOk(w.fails, old(w.calls), w.calls);
    return Ok(paths);
  }

  lemma AllOk(fails: nat -> bool, a: nat, b: nat)
    requires NoneFailed(fails, a, b)
    ensures !exists n :: a < n <= b && fails(n)
  {
  }

  lemma Unchanged(store: Store, scriptsPath: string, bundle: Bundle, digest: Digest)
    ensures Extends(store, store) && Staged(map[], scriptsPath, bundle, store, digest) && KeysOf([]) == {}
  {
  }

  lemma NewInOld(a: Store, b: Store, path: string)
    requires Extends(a, b)
    ensures path !in b ==> path !in a
  {
  }

  // ---------------------------------------------------------------------------------------
  // The race
  // ---------------------------------------------------------------------------------------

  datatype Phase = Checking | MakingDir | Importing | Returned | Failed

  /** A task that stages `assets`; `done` of them are behind it. */
  datatype Task = Task(scriptsPath: string, bundle: Bundle, assets: seq<Asset>, done: nat, phase: Phase)

  /** `imports` lists the paths of all imports that took effect. */
  datatype State = State(store: Store, folders: set<string>, tasks: seq<Task>, imports: seq<string>)

  function PathNow(t: Task, digest: Digest): string
    requires t.done < |t.assets|
  {
    AssetPath(t.assets[t.done], t.scriptsPath, digest(t.bundle(t.assets[t.done])))
  }

  /** On to the next asset, or back to the caller. */
  function Next(t: Task): Task {
    t.(done := t.done + 1, phase := if t.done + 1 < |t.assets| then Checking else Returned)
  }

  predicate Fresh(t: Task) {
    t.done == 0 && t.phase == if t.assets == [] then Returned else Checking
  }

  /** `Fail` is an error of the call the task is in; a failed import may have taken effect or not. */
  datatype Step = Check(i: nat) | MakeDir(i: nat) | Import(i: nat) | Fail(i: nat, applied: bool)

  function Put(s: State, i: nat, t: Task): State
    requires i < |s.tasks|
  {
    s.(tasks := s.tasks[i := t])
  }

  ghost predicate StepTo(s: State, s': State, step: Step, digest: Digest) {
    var i := step.i;
    && i < |s.tasks|
    && var t := s.tasks[i];
       t.done < |t.assets| &&
       var path := PathNow(t, digest);
       match step
       case Check(_) =>
         t.phase == Checking && s' == Put(s, i, if path in s.store then Next(t) else t.(phase := MakingDir))
       case MakeDir(_) =>
         && t.phase == MakingDir
         && s' == Put(s, i, t.(phase := Importing)).(folders := s.folders + {AssetFolder(t.scriptsPath)})
       case Import(_) => t.phase == Importing && s' == ImportInto(Put(s, i, Next(t)), t, path)
       case Fail(_, applied) => !t.phase.Returned? && !t.phase.Failed? && s' == Failing(s, i, applied, path)
  }

  function Failing(s: State, i: nat, applied: bool, path: string): State
    requires i < |s.tasks| && s.tasks[i].done < |s.tasks[i].assets|
  {
    var t := s.tasks[i];
    var failed := Put(s, i, t.(phase := Failed));
    if applied && t.phase == Importing then ImportInto(failed, t, path) else failed
  }

  /** Create if absent. */
  function ImportInto(s: State, t: Task, path: string): State
    requires t.done < |t.assets|
  {
    if path in s.store then s
    else s.(store := s.store[path := t.bundle(t.assets[t.done])], imports := s.imports + [path])
  }

  /** An import that failed may have created the object all the same; any other call that failed did nothing. */
  lemma FailedCall(s: State, s': State, i: nat, applied: bool, digest: Digest)
    requires StepTo(s, s', Fail(i, applied), digest)
    ensures var t := s.tasks[i];
            s'.store == if applied && t.phase.Importing? && PathNow(t, digest) !in s.store
                        then s.store[PathNow(t, digest) := t.bundle(t.assets[t.done])] else s.store
    ensures s'.tasks == s.tasks[i := s.tasks[i].(phase := Failed)] && s'.folders == s.folders
  {
    hide AssetPath;
  }

  ghost predicate Reached(s: State, init: State, n: nat, digest: Digest)
    decreases n
  {
    if n == 0 then s == init
    else exists p, step :: Reached(p, init, n - 1, digest) && StepTo(p, s, step, digest)
  }

  ghost predicate Start(init: State, digest: Digest) {
    && Hex12(digest) && HashesMatch(init.store, digest) && init.imports == []
    && forall i :: 0 <= i < |init.tasks| ==> Fresh(init.tasks[i])
  }

  /** All that a task is done with is in the store. */
  ghost predicate TaskOk(t: Task, store: Store, digest: Digest) {
    && t.done <= |t.assets|
    && (t.phase == Returned ==> t.done == |t.assets|)
    && (forall j :: 0 <= j < t.done ==> AssetPath(t.assets[j], t.scriptsPath, digest(t.bundle(t.assets[j]))) in store)
  }

  ghost predicate TasksOk(tasks: seq<Task>, store: Store, digest: Digest) {
    forall i :: 0 <= i < |tasks| ==> TaskOk(tasks[i], store, digest)
  }

  /** Each import that took effect created a new object, once. */
  ghost predicate ImportsOk(s: State, init: State) {
    && s.store.Keys == init.store.Keys + Elems(s.imports)
    && (forall i :: 0 <= i < |s.imports| ==> s.imports[i] !in init.store)
    && (forall i, j :: 0 <= i < j < |s.imports| ==> s.imports[i] != s.imports[j])
  }

  function Elems(paths: seq<string>): set<string> {
    set p | p in paths
  }

  ghost predicate Inv(s: State, init: State, digest: Digest) {
    && HashesMatch(s.store, digest) && Extends(init.store, s.store)
    && ImportsOk(s, init) && TasksOk(s.tasks, s.store, digest)
  }

  lemma TasksLater(tasks: seq<Task>, a: Store, b: Store, i: nat, t: Task, digest: Digest)
    requires TasksOk(tasks, a, digest) && Extends(a, b) && i < |tasks| && TaskOk(t, b, digest)
    ensures TasksOk(tasks[i := t], b, digest)
  {
    hide AssetPath;
    var after := tasks[i := t];
    forall j | 0 <= j < |after| ensures TaskOk(after[j], b, digest) {
      if j != i {
        assert TaskOk(tasks[j], a, digest);
      }
    }
  }

  lemma NextOk(t: Task, store: Store, digest: Digest)
    requires TaskOk(t, store, digest) && t.done < |t.assets| && PathNow(t, digest) in store
    ensures TaskOk(Next(t), store, digest)
  {
    hide AssetPath;
  }

  lemma ImportKeeps(s: State, init: State, t: Task, digest: Digest)
    requires Hex12(digest) && t.done < |t.assets|
    requires HashesMatch(s.store, digest) && Extends(init.store, s.store) && ImportsOk(s, init)
    ensures var s' := ImportInto(s, t, PathNow(t, digest));
            && HashesMatch(s'.store, digest) && Extends(init.store, s'.store) && ImportsOk(s', init)
            && Extends(s.store, s'.store) && PathNow(t, digest) in s'.store
  {
    hide AssetPath, HashesMatch;
    var path := PathNow(t, digest);
    if path !in s.store {
      AddMatching(s.store, digest, t.assets[t.done], t.scriptsPath, t.bundle(t.assets[t.done]));
      ImportNew(s, init, t, path);
    }
  }

  lemma ImportNew(s: State, init: State, t: Task, path: string)
    requires ImportsOk(s, init) && t.done < |t.assets| && path !in s.store && Extends(init.store, s.store)
    ensures ImportsOk(ImportInto(s, t, path), init)
  {
    var longer := s.imports + [path];
    assert Elems(longer) == Elems(s.imports) + {path};
    forall i | 0 <= i < |s.imports| ensures s.imports[i] != path {
      assert s.imports[i] in Elems(s.imports);
    }
  }

  lemma StepKeeps(s: State, s': State, init: State, step: Step, digest: Digest)
    requires Hex12(digest) && Inv(s, init, digest) && StepTo(s, s', step, digest)
    ensures Inv(s', init, digest) && Extends(s.store, s'.store)
  {
    hide AssetPath, HashesMatch, ImportsOk, TasksOk, Extends, PathNow;
    var t := s.tasks[step.i];
    TaskIsOk(s, step.i, digest);
    Unchanged(s.store, t.scriptsPath, t.bundle, digest);
    match step
    case Check(i) =>
      if PathNow(t, digest) in s.store {
        NextOk(t, s.store, digest);
      }
      ImportsSame(s, s', init);
      TasksLater(s.tasks, s.store, s.store, i, s'.tasks[i], digest);
    case MakeDir(i) =>
      ImportsSame(s, s', init);
      TasksLater(s.tasks, s.store, s.store, i, s'.tasks[i], digest);
    case Import(i) =>
      var moved := Put(s, i, Next(t));
      ImportsSame(s, moved, init);
      ImportKeeps(moved, init, t, digest);
      TaskLater(t, s.store, s'.store, digest);
      NextOk(t, s'.store, digest);
      TasksLater(s.tasks, s.store, s'.store, i, Next(t), digest);
    case Fail(i, applied) =>
      var moved := Put(s, i, t.(phase := Failed));
      ImportsSame(s, moved, init);
      ImportKeeps(moved, init, t, digest);
      TaskLater(t, s.store, s'.store, digest);
      TasksLater(s.tasks, s.store, s'.store, i, t.(phase := Failed), digest);
  }

  lemma TaskIsOk(s: State, i: nat, digest: Digest)
    requires TasksOk(s.tasks, s.store, digest) && i < |s.tasks|
    ensures TaskOk(s.tasks[i], s.store, digest)
  {
  }

  lemma TaskLater(t: Task, a: Store, b: Store, digest: Digest)
    requires TaskOk(t, a, digest) && Extends(a, b)
    ensures TaskOk(t, b, digest)
  {
    hide AssetPath;
  }

  lemma ImportsSame(s: State, s': State, init: State)
    requires ImportsOk(s, init) && s'.store == s.store && s'.imports == s.imports
    ensures ImportsOk(s', init)
  {
  }

  lemma {:induction false} ReachedInv(s: State, init: State, n: nat, digest: Digest)
    requires Start(init, digest) && Reached(s, init, n, digest)
    ensures Inv(s, init, digest)
    decreases n
  {
    hide StepTo, HashesMatch, AssetPath;
    if n > 0 {
      hide Inv;
      var p, step :| Reached(p, init, n - 1, digest) && StepTo(p, s, step, digest);
      ReachedInv(p, init, n - 1, digest);
      StepKeeps(p, s, init, step, digest);
    }
  }

  /** In every run of any number of tasks, with any bundles: no object is ever overwritten, no path is
      created twice, nor one that was there before, and every task that returned finds all its paths
      holding an object with the hash of its own file. */
  lemma RaceIsSafe(s: State, init: State, n: nat, digest: Digest)
    requires Start(init, digest) && Reached(s, init, n, digest)
    ensures Extends(init.store, s.store)
    ensures forall i, j :: 0 <= i < j < |s.imports| ==> s.imports[i] != s.imports[j]
    ensures forall i :: 0 <= i < |s.imports| ==> s.imports[i] !in init.store
    ensures s.store.Keys == init.store.Keys + Elems(s.imports)
    ensures forall i, j :: 0 <= i < |s.tasks| && s.tasks[i].phase == Returned && 0 <= j < |s.tasks[i].assets| ==>
      Holds(s.store, s.tasks[i], j, digest)
  {
    hide AssetPath;
    ReachedInv(s, init, n, digest);
    forall i, j | 0 <= i < |s.tasks| && s.tasks[i].phase == Returned && 0 <= j < |s.tasks[i].assets|
      ensures Holds(s.store, s.tasks[i], j, digest)
    {
      assert TaskOk(s.tasks[i], s.store, digest);
    }
  }

  ghost predicate Holds(store: Store, t: Task, j: nat, digest: Digest)
    requires j < |t.assets|
  {
    var content := t.bundle(t.assets[j]);
    var path := AssetPath(t.assets[j], t.scriptsPath, digest(content));
    path in store && digest(store[path]) == digest(content)
  }

  /** A task returns exactly when all its assets are behind it, and until then, unless it fails, it has a call to make
      that brings it on. */
  ghost predicate InProgress(t: Task) {
    && t.done <= |t.assets|
    && (t.phase == Returned <==> t.done == |t.assets|)
  }

  lemma StepKeepsInProgress(s: State, s': State, step: Step, digest: Digest)
    requires StepTo(s, s', step, digest) && forall i :: 0 <= i < |s.tasks| ==> InProgress(s.tasks[i])
    ensures forall i :: 0 <= i < |s'.tasks| ==> InProgress(s'.tasks[i])
  {
    hide AssetPath;
    assert InProgress(s.tasks[step.i]);
    forall i | 0 <= i < |s'.tasks| ensures InProgress(s'.tasks[i]) {
      if i != step.i {
        assert s'.tasks[i] == s.tasks[i];
      }
    }
  }

  lemma {:induction false} ReturnedWhenDone(s: State, init: State, n: nat, digest: Digest)
    requires Start(init, digest) && Reached(s, init, n, digest)
    ensures forall i :: 0 <= i < |s.tasks| ==> InProgress(s.tasks[i])
    decreases n
  {
    hide StepTo, HashesMatch;
    if n > 0 {
      hide Start, InProgress;
      var p, step :| Reached(p, init, n - 1, digest) && StepTo(p, s, step, digest);
      ReturnedWhenDone(p, init, n - 1, digest);
      StepKeepsInProgress(p, s, step, digest);
    }
  }

  /** No task is ever stuck: one that neither returned nor failed can make its next call, whatever the others did. */
  lemma NeverStuck(s: State, init: State, n: nat, digest: Digest, i: nat) returns (s': State, step: Step)
    requires Start(init, digest) && Reached(s, init, n, digest)
    requires i < |s.tasks| && s.tasks[i].phase != Returned && s.tasks[i].phase != Failed
    ensures StepTo(s, s', step, digest) && step.i == i && !step.Fail? && s'.tasks[i].phase != Failed
  {
    hide AssetPath, Reached, Start;
    ReturnedWhenDone(s, init, n, digest);
    var t := s.tasks[i];
    assert InProgress(t);
    var path := PathNow(t, digest);
    match t.phase
    case Checking =>
      step := Check(i);
      s' := Put(s, i, if path in s.store then Next(t) else t.(phase := MakingDir));
    case MakingDir =>
      step := MakeDir(i);
      s' := Put(s, i, t.(phase := Importing)).(folders := s.folders + {AssetFolder(t.scriptsPath)});
    case Importing =>
      step := Import(i);
      s' := ImportInto(Put(s, i, Next(t)), t, path);
  }

  function AssetCount(tasks: seq<Task>): nat {
    if tasks == [] then 0 else AssetCount(tasks[..|tasks| - 1]) + |tasks[|tasks| - 1].assets|
  }

  lemma {:induction false} StartWork(tasks: seq<Task>)
    requires forall i :: 0 <= i < |tasks| ==> Fresh(tasks[i])
    ensures TotalWork(tasks) == 3 * AssetCount(tasks)
  {
    if tasks != [] {
      StartWork(tasks[..|tasks| - 1]);
    }
  }

  /** The calls a task still makes at most. */
  function Work(t: Task): nat {
    match t.phase
    case Checking => 3 * Left(t)
    case MakingDir => 3 * Left(t) - if Left(t) > 0 then 1 else 0
    case Importing => 3 * Left(t) - if Left(t) > 0 then 2 else 0
    case Returned => 0
    case Failed => 0
  }

  function Left(t: Task): nat {
    if t.done <= |t.assets| then |t.assets| - t.done else 0
  }

  function TotalWork(tasks: seq<Task>): nat {
    if tasks == [] then 0 else TotalWork(tasks[..|tasks| - 1]) + Work(tasks[|tasks| - 1])
  }

  lemma {:induction false} WorkReplaced(tasks: seq<Task>, i: nat, t: Task)
    requires i < |tasks| && Work(t) < Work(tasks[i])
    ensures TotalWork(tasks[i := t]) < TotalWork(tasks)
  {
    hide Work;
    var n := |tasks| - 1;
    if i == n {
      assert tasks[i := t][..n] == tasks[..n];
    } else {
      assert tasks[i := t][..n] == tasks[..n][i := t];
      WorkReplaced(tasks[..n], i, t);
    }
  }

  /** Racing tasks do not hold each other up: every run ends after at most three calls per asset of each
      task. */
  lemma RunsAreBounded(s: State, init: State, n: nat, digest: Digest)
    requires Start(init, digest) && Reached(s, init, n, digest)
    ensures n <= 3 * AssetCount(init.tasks)
  {
    WorkIsSpent(s, init, n, digest);
    StartWork(init.tasks);
  }

  lemma {:induction false} WorkIsSpent(s: State, init: State, n: nat, digest: Digest)
    requires Start(init, digest) && Reached(s, init, n, digest)
    ensures n + TotalWork(s.tasks) <= TotalWork(init.tasks)
    decreases n
  {
    hide AssetPath, Inv, TotalWork, HashesMatch, StepTo, Start;
    if n > 0 {
      var p, step :| Reached(p, init, n - 1, digest) && StepTo(p, s, step, digest);
      WorkIsSpent(p, init, n - 1, digest);
      StepWorks(p, s, step, digest);
    }
  }

  lemma StepWorks(s: State, s': State, step: Step, digest: Digest)
    requires StepTo(s, s', step, digest)
    ensures TotalWork(s'.tasks) < TotalWork(s.tasks)
  {
    hide AssetPath, TotalWork;
    WorkReplaced(s.tasks, step.i, s'.tasks[step.i]);
  }
}
