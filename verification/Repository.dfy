/** Finding the test modules below a directory (cut-repository.c). */
module Repository {
  import opened Seqs
  import opened Wrappers

  // ---------------------------------------------------------------- names and paths

  const MODULE_SUFFIX := ".so"

  predicate SlashFree(s: string) {
    '/' !in s
  }

  function StripSlashes(s: string): string {
    if s != "" && s[|s| - 1] == '/' then StripSlashes(s[..|s| - 1]) else s
  }

  /** g_build_filename for a directory and an entry without slashes. */
  function BuildFilename(directory: string, entry: string): string {
    if directory == "" then entry else StripSlashes(directory) + "/" + entry
  }

  /** g_build_filenamev for names without slashes. */
  function BuildPath(names: seq<string>): string {
    if names == [] then "" else if |names| == 1 then names[0] else names[0] + "/" + BuildPath(names[1..])
  }

  /** g_path_get_basename of a path that does not end in a slash. */
  function BaseName(path: string): string {
    if path == "" || path[|path| - 1] == '/' then "" else BaseName(path[..|path| - 1]) + [path[|path| - 1]]
  }

  predicate IsTestSuite(path: string) {
    "suite_" <= BaseName(path) || "suite-" <= BaseName(path)
  }

  predicate IsIgnoredDirectory(path: string) {
    path == ".svn" || path == ".git" || path == "CVS" || EndsWith(path, ".dSYM")
  }

  lemma {:induction false} BaseNameSlashFree(name: string)
    requires SlashFree(name)
    ensures BaseName(name) == name
  {
    if name != "" {
      assert name[|name| - 1] in name;
      BaseNameSlashFree(name[..|name| - 1]);
      assert name == name[..|name| - 1] + [name[|name| - 1]];
    }
  }

  lemma {:induction false} BaseNameAfter(head: string, name: string)
    requires SlashFree(name)
    ensures BaseName(head + "/" + name) == name
  {
    var path := head + "/" + name;
    if name != "" {
      assert name[|name| - 1] in name;
      assert path[..|path| - 1] == head + "/" + name[..|name| - 1];
      BaseNameAfter(head, name[..|name| - 1]);
      assert name == name[..|name| - 1] + [name[|name| - 1]];
    }
  }

  /** The base name of a built path is the entry, so suite modules are told by their own name. */
  lemma SuiteByEntry(directory: string, entry: string)
    requires SlashFree(entry)
    ensures IsTestSuite(BuildFilename(directory, entry)) <==> "suite_" <= entry || "suite-" <= entry
  {
    BaseNameSlashFree(entry);
    BaseNameAfter(StripSlashes(directory), entry);
  }

  /**
   The directory test looks at the whole path: below any named directory it catches exactly the
   names that end in ".dSYM", and no ".svn", ".git" or "CVS".
   */
  lemma SubdirectoryIgnoredIff(directory: string, entry: string)
    requires directory != "" && SlashFree(entry)
    ensures IsIgnoredDirectory(BuildFilename(directory, entry)) <==> EndsWith(entry, ".dSYM")
  {
    var head := StripSlashes(directory);
    var path := head + "/" + entry;
    assert path[|head|] == '/';
    assert path[|head| + 1..] == entry;
    if EndsWith(entry, ".dSYM") {
      assert path[|path| - 5..] == entry[|entry| - 5..];
    } else if |entry| >= 5 {
      assert path[|path| - 5..] == entry[|entry| - 5..];
    } else if |path| >= 5 {
      var tail := path[|path| - 5..];
      assert tail[4 - |entry|] == path[|head|];
    }
  }

  // ---------------------------------------------------------------- the modules of a tree

  /** What lies in a directory, in the order it is read. */
  datatype Node = File(name: string) | Directory(name: string, readable: bool, entries: seq<Node>)

  datatype Filter = Filter(excludesFile: string -> bool, excludesDirectory: string -> bool)

  /** A module found, with the names of the directories between it and the top. */
  datatype Module = Module(ancestors: seq<string>, name: string, path: string)

  predicate IsModule(f: Filter, name: string) {
    !f.excludesFile(name) && EndsWith(name, MODULE_SUFFIX)
  }

  predicate IsEntered(f: Filter, directory: string, node: Node) {
    node.Directory? && !f.excludesDirectory(node.name) && node.readable
    && !IsIgnoredDirectory(BuildFilename(directory, node.name))
  }

  function InEntry(f: Filter, directory: string, node: Node, ancestors: seq<string>): seq<Module>
    decreases node, 0
  {
    if node.File? then
      if IsModule(f, node.name) then [Module(ancestors, node.name, BuildFilename(directory, node.name))] else []
    else if IsEntered(f, directory, node) then
      InEntries(f, BuildFilename(directory, node.name), node, |node.entries|, ancestors + [node.name])
    else []
  }

  /** The modules in the first k entries of a directory. */
  function InEntries(f: Filter, directory: string, node: Node, k: nat, ancestors: seq<string>): seq<Module>
    requires node.Directory? && k <= |node.entries|
    decreases node, 0, k
  {
    if k == 0 then []
    else InEntries(f, directory, node, k - 1, ancestors) + InEntry(f, directory, node.entries[k - 1], ancestors)
  }

  /** The modules below the top directory, in the order they are visited. */
  function Modules(f: Filter, directory: string, top: Node): seq<Module>
    requires top.Directory?
  {
    if IsIgnoredDirectory(directory) || !top.readable then []
    else InEntries(f, directory, top, |top.entries|, [])
  }

  // ---------------------------------------------------------------- what is collected

  datatype Loader = Loader(path: string, baseDirectory: string)

  /** The base directory: the ancestors, without a last directory that only holds built libraries. */
  function BaseDirectory(ancestors: seq<string>): string {
    if ancestors != [] && (ancestors[|ancestors| - 1] == ".libs" || ancestors[|ancestors| - 1] == "_libs")
    then BuildPath(ancestors[..|ancestors| - 1])
    else BuildPath(ancestors)
  }

  function LoaderOf(m: Module): Loader {
    Loader(m.path, BaseDirectory(m.ancestors))
  }

  datatype Collection = Collection(loaders: seq<Loader>, deep: nat, suite: Option<Loader>)

  function UpdateSuite(c: Collection, loader: Loader, deep: nat): Collection {
    if c.suite == None then c.(deep := deep, suite := Some(loader))
    else if c.deep > deep then c.(deep := deep, suite := Some(loader))
    else c
  }

  function Add(c: Collection, m: Module): Collection {
    if IsTestSuite(m.path) then UpdateSuite(c, LoaderOf(m), |m.ancestors|)
    else c.(loaders := [LoaderOf(m)] + c.loaders)
  }

  function AddAll(c: Collection, ms: seq<Module>): Collection {
    if ms == [] then c else Add(AddAll(c, ms[..|ms| - 1]), ms[|ms| - 1])
  }

  lemma {:induction false} AddAllConcat(c: Collection, a: seq<Module>, b: seq<Module>)
    ensures AddAll(c, a + b) == AddAll(AddAll(c, a), b)
  {
    hide Add;
    if b == [] {
      assert a + b == a;
    } else {
      assert (a + b)[..|a + b| - 1] == a + b[..|b| - 1] && (a + b)[|a + b| - 1] == b[|b| - 1];
      AddAllConcat(c, a, b[..|b| - 1]);
    }
  }

  // ---------------------------------------------------------------- the repository

  /** The array of path names, which ends at its first missing element when it is read as a list. */
  class PathArray {
    var names: seq<Option<string>>

    constructor ()
      ensures names == []
    {
      names := [];
    }
  }

  function Present(ancestors: seq<string>): (names: seq<Option<string>>)
    ensures |names| == |ancestors| && forall i :: 0 <= i < |names| ==> names[i] == Some(ancestors[i])
  {
    if ancestors == [] then [] else [Some(ancestors[0])] + Present(ancestors[1..])
  }

  /** The strings up to the first missing one. */
  function Terminated(names: seq<Option<string>>): seq<string> {
    if names == [] || names[0] == None then [] else [names[0].value] + Terminated(names[1..])
  }

  lemma {:induction false} TerminatedPresent(ancestors: seq<string>, rest: seq<Option<string>>)
    requires rest == [] || rest[0] == None
    ensures Terminated(Present(ancestors) + rest) == ancestors
  {
    var names := Present(ancestors) + rest;
    if ancestors == [] {
      assert names == rest;
    } else {
      assert names[1..] == Present(ancestors[1..]) + rest;
      TerminatedPresent(ancestors[1..], rest);
    }
  }

  lemma {:induction false} LastMissing(ancestors: seq<string>)
    requires ancestors != []
    ensures var n := |ancestors| - 1; Terminated(Present(ancestors)[n := None]) == ancestors[..n]
  {
    var n := |ancestors| - 1;
    TerminatedPresent(ancestors[..n], [None]);
    hide *;
    assert Present(ancestors)[n := None] == Present(ancestors[..n]) + [None];
  }

  lemma NothingMissing(ancestors: seq<string>)
    ensures Terminated(Present(ancestors)) == ancestors
  {
    TerminatedPresent(ancestors, []);
    hide *;
    EmptyTail(Present(ancestors));
  }

  method ComputeRelativePath(paths: PathArray, ghost ancestors: seq<string>) returns (path: string)
    requires paths.names == Present(ancestors)
    modifies paths
    ensures paths.names == old(paths.names)
    ensures path == BaseDirectory(ancestors)
  {
    hide Terminated, Present, BuildPath;
    var last: Option<string>, ignored := None, false;
    var n := |paths.names|;
    if n > 0 {
      last := paths.names[n - 1];
      ignored := last == Some(".libs") || last == Some("_libs");
    }
    if ignored {
      LastMissing(ancestors);
      paths.names := paths.names[n - 1 := None];
      path := BuildPath(Terminated(paths.names));
      paths.names := paths.names[n - 1 := last];
    } else {
      NothingMissing(ancestors);
      path := BuildPath(Terminated(paths.names));
    }
  }

  class Repository {
    const filter: Filter
    var loaders: seq<Loader>
    var deep: nat
    var testSuiteLoader: Option<Loader>

    constructor (filter: Filter)
      ensures this.filter == filter && Value() == Collection([], 0, None)
    {
      this.filter := filter;
      loaders, deep, testSuiteLoader := [], 0, None;
    }

    function Value(): Collection
      reads this
    {
      Collection(loaders, deep, testSuiteLoader)
    }

    method UpdateTestSuiteLoader(loader: Loader, depth: nat)
      modifies this
      ensures Value() == UpdateSuite(old(Value()), loader, depth)
    {
      if testSuiteLoader == None {
        deep := depth;
        testSuiteLoader := Some(loader);
      }
      if deep > depth {
        deep := depth;
        testSuiteLoader := Some(loader);
      }
    }

    /** The part of the walk for an entry that is not a directory. */
    method CollectFile(directory: string, name: string, paths: PathArray, ghost ancestors: seq<string>)
      requires paths.names == Present(ancestors)
      modifies this, paths
      ensures paths.names == old(paths.names)
      ensures Value() == AddAll(old(Value()), InEntry(filter, directory, File(name), ancestors))
    {
      var pathName := BuildFilename(directory, name);
      ghost var m := Module(ancestors, name, pathName);
      AddOne(Value(), m);
      hide AddAll, BuildFilename, IsTestSuite, BaseDirectory;
      if filter.excludesFile(name) || !EndsWith(name, MODULE_SUFFIX) {
        return;
      }
      var relativePath := ComputeRelativePath(paths, ancestors);
      var loader := Loader(pathName, relativePath);
      if IsTestSuite(pathName) {
        UpdateTestSuiteLoader(loader, |paths.names|);
      } else {
        loaders := [loader] + loaders;
      }
    }

    /** Walks a directory; the array of path names is left as it was found. */
    method CollectLoader(directory: string, node: Node, paths: PathArray, ghost ancestors: seq<string>)
      requires node.Directory? && paths.names == Present(ancestors)
      modifies this, paths
      ensures paths.names == old(paths.names)
      ensures Value() == AddAll(old(Value()),
                                if IsIgnoredDirectory(directory) || !node.readable then []
                                else InEntries(filter, directory, node, |node.entries|, ancestors))
      decreases node, 0
    {
      NothingAdded(filter, directory, node, ancestors, Value());
      hide *;
      if IsIgnoredDirectory(directory) || !node.readable {
        return;
      }
      ghost var start := Value();
      var k := 0;
      while k < |node.entries|
        invariant k <= |node.entries| && paths.names == Present(ancestors)
        invariant Value() == AddAll(start, InEntries(filter, directory, node, k, ancestors))
      {
        var entry := node.entries[k];
        EntryAdded(filter, directory, node, k, ancestors, start);
        CollectEntry(directory, entry, paths, ancestors);
        k := k + 1;
      }
    }

    /** The part of the walk for one entry of a directory. */
    method CollectEntry(directory: string, entry: Node, paths: PathArray, ghost ancestors: seq<string>)
      requires paths.names == Present(ancestors)
      modifies this, paths
      ensures paths.names == old(paths.names)
      ensures Value() == AddAll(old(Value()), InEntry(filter, directory, entry, ancestors))
      decreases entry, 1
    {
      hide *;
      if entry.File? {
        CollectFile(directory, entry.name, paths, ancestors);
        return;
      }
      EntryCases(filter, directory, entry, ancestors, Value());
      PresentSnoc(ancestors, entry.name);
      if filter.excludesDirectory(entry.name) {
        return;
      }
      var n := |paths.names|;
      paths.names := paths.names + [Some(entry.name)];
      CollectLoader(BuildFilename(directory, entry.name), entry, paths, ancestors + [entry.name]);
      paths.names := paths.names[..n];
    }

    /** The walk of cut_repository_create_test_suite. */
    method CollectLoaders(directory: string, top: Node)
      requires top.Directory?
      modifies this
      ensures old(loaders) == [] ==> Value() == AddAll(old(Value()).(deep := 0), Modules(filter, directory, top))
      ensures old(loaders) != [] ==> Value() == old(Value())
    {
      if loaders == [] {
        deep := 0;
        var paths := new PathArray();
        assert paths.names == Present([]);
        hide InEntries, IsIgnoredDirectory, AddAll;
        CollectLoader(directory, top, paths, []);
      }
    }
  }

  lemma AddOne(c: Collection, m: Module)
    ensures AddAll(c, [m]) == Add(c, m) && AddAll(c, []) == c
  {
    hide Add;
    assert [m][..0] == [];
  }

  lemma NothingAdded(f: Filter, directory: string, node: Node, ancestors: seq<string>, c: Collection)
    requires node.Directory?
    ensures AddAll(c, []) == c && InEntries(f, directory, node, 0, ancestors) == []
  {
  }

  lemma EntryAdded(f: Filter, directory: string, node: Node, k: nat, ancestors: seq<string>, c: Collection)
    requires node.Directory? && k < |node.entries|
    ensures AddAll(c, InEntries(f, directory, node, k + 1, ancestors))
            == AddAll(AddAll(c, InEntries(f, directory, node, k, ancestors)),
                      InEntry(f, directory, node.entries[k], ancestors))
  {
    AddAllConcat(c, InEntries(f, directory, node, k, ancestors), InEntry(f, directory, node.entries[k], ancestors));
    hide AddAll, InEntry;
  }

  lemma EntryCases(f: Filter, directory: string, entry: Node, ancestors: seq<string>, c: Collection)
    requires entry.Directory?
    ensures var path := BuildFilename(directory, entry.name);
            InEntry(f, directory, entry, ancestors)
            == if f.excludesDirectory(entry.name) || IsIgnoredDirectory(path) || !entry.readable then []
               else InEntries(f, path, entry, |entry.entries|, ancestors + [entry.name])
    ensures AddAll(c, []) == c
  {
    hide InEntries, IsIgnoredDirectory, BuildFilename;
  }

  lemma {:induction false} PresentSnoc(ancestors: seq<string>, name: string)
    ensures Present(ancestors + [name]) == Present(ancestors) + [Some(name)]
  {
  }

  // ---------------------------------------------------------------- what the walk means

  predicate IsSuite(m: Module) {
    IsTestSuite(m.path)
  }

  /** The loaders of the modules that are no suites, last one first. */
  function TestLoaders(ms: seq<Module>): seq<Loader> {
    if ms == [] then []
    else
      var last := ms[|ms| - 1];
      (if IsSuite(last) then [] else [LoaderOf(last)]) + TestLoaders(ms[..|ms| - 1])
  }

  /** Each module that is no suite is collected once, in reverse order of the visit. */
  lemma {:induction false} LoadersReversed(c: Collection, ms: seq<Module>)
    ensures AddAll(c, ms).loaders == TestLoaders(ms) + c.loaders
  {
    hide LoaderOf, IsTestSuite;
    if ms == [] {
      EmptyHead(c.loaders);
    } else {
      var init, last := ms[..|ms| - 1], ms[|ms| - 1];
      LoadersReversed(c, init);
      Associate([LoaderOf(last)], TestLoaders(init), c.loaders);
      EmptyHead(TestLoaders(init));
    }
  }

  /** The suite kept is the first visited among those nearest to the top. */
  ghost predicate IsFirstShallowest(ms: seq<Module>, i: int) {
    && 0 <= i < |ms| && IsSuite(ms[i])
    && (forall j :: 0 <= j < i && IsSuite(ms[j]) ==> |ms[i].ancestors| < |ms[j].ancestors|)
    && (forall j :: i <= j < |ms| && IsSuite(ms[j]) ==> |ms[i].ancestors| <= |ms[j].ancestors|)
  }

  /** The place of the suite kept, or -1. */
  function Kept(ms: seq<Module>): (i: int)
    ensures -1 <= i < |ms|
  {
    if ms == [] then -1
    else
      var before, last := Kept(ms[..|ms| - 1]), ms[|ms| - 1];
      if IsSuite(last) && (before == -1 || |last.ancestors| < |ms[before].ancestors|) then |ms| - 1 else before
  }

  lemma {:induction false} KeptIsFirstShallowest(ms: seq<Module>)
    ensures if Kept(ms) == -1 then forall j :: 0 <= j < |ms| ==> !IsSuite(ms[j]) else IsFirstShallowest(ms, Kept(ms))
  {
    hide IsSuite;
    if ms != [] {
      KeptIsFirstShallowest(ms[..|ms| - 1]);
    }
  }

  lemma {:induction false} SuiteIsKept(c: Collection, ms: seq<Module>)
    requires c.suite == None
    ensures var r := AddAll(c, ms);
            && r.suite == (if Kept(ms) == -1 then None else Some(LoaderOf(ms[Kept(ms)])))
            && (Kept(ms) >= 0 ==> r.deep == |ms[Kept(ms)].ancestors|)
  {
    hide LoaderOf, IsTestSuite;
    if ms != [] {
      SuiteIsKept(c, ms[..|ms| - 1]);
    }
  }

  /** The suite loader is the one of the first visited among the suites nearest to the top, if any. */
  lemma SuiteFirstShallowest(c: Collection, ms: seq<Module>, i: nat)
    requires c.suite == None
    ensures IsFirstShallowest(ms, i) ==>
              AddAll(c, ms).suite == Some(LoaderOf(ms[i])) && AddAll(c, ms).deep == |ms[i].ancestors|
    ensures AddAll(c, ms).suite == None <==> forall j :: 0 <= j < |ms| ==> !IsSuite(ms[j])
  {
    KeptIsFirstShallowest(ms);
    SuiteIsKept(c, ms);
    hide AddAll, IsSuite, LoaderOf, Kept;
    if IsFirstShallowest(ms, i) {
      var k := Kept(ms);
      assert k >= 0;
      assert k == i;
    }
  }

  /** Following the names from a directory leads to a module, through directories that are entered. */
  predicate Leads(f: Filter, directory: string, node: Node, k: nat, names: seq<string>, name: string)
    requires node.Directory? && k <= |node.entries|
    decreases |names|
  {
    exists i :: 0 <= i < k && LeadsBy(f, directory, node.entries[i], names, name)
  }

  predicate LeadsBy(f: Filter, directory: string, entry: Node, names: seq<string>, name: string)
    decreases |names|, 0
  {
    if names == [] then entry == File(name) && IsModule(f, name)
    else
      && IsEntered(f, directory, entry) && entry.name == names[0]
      && exists i :: 0 <= i < |entry.entries|
                     && LeadsBy(f, BuildFilename(directory, names[0]), entry.entries[i], names[1..], name)
  }

  /** The path of a module: the names joined to the directory. */
  function PathOf(directory: string, names: seq<string>, name: string): string
    decreases |names|
  {
    if names == [] then BuildFilename(directory, name) else PathOf(BuildFilename(directory, names[0]), names[1..], name)
  }

  /** The module found by following the names below the ancestors. */
  function At(directory: string, ancestors: seq<string>, names: seq<string>, name: string): Module {
    Module(ancestors + names, name, PathOf(directory, names, name))
  }

  lemma AtFirst(directory: string, ancestors: seq<string>, names: seq<string>, name: string)
    requires names != []
    ensures At(directory, ancestors, names, name)
            == At(BuildFilename(directory, names[0]), ancestors + [names[0]], names[1..], name)
  {
    hide BuildFilename;
    assert ancestors + names == (ancestors + [names[0]]) + names[1..];
  }

  /** What is led to is found. */
  lemma {:induction false} LeadsFound(f: Filter, directory: string, node: Node, k: nat, i: nat, ancestors: seq<string>,
                                      names: seq<string>, name: string)
    requires node.Directory? && i < k <= |node.entries| && LeadsBy(f, directory, node.entries[i], names, name)
    ensures At(directory, ancestors, names, name) in InEntries(f, directory, node, k, ancestors)
    decreases |names|, k
  {
    hide BuildFilename, IsModule, IsIgnoredDirectory;
    var entry := node.entries[i];
    if i < k - 1 {
      LeadsFound(f, directory, node, k - 1, i, ancestors, names, name);
    } else if names == [] {
      assert ancestors + names == ancestors;
      assert InEntry(f, directory, entry, ancestors) == [At(directory, ancestors, names, name)];
    } else {
      var path := BuildFilename(directory, names[0]);
      var j :| 0 <= j < |entry.entries| && LeadsBy(f, path, entry.entries[j], names[1..], name);
      LeadsFound(f, path, entry, |entry.entries|, j, ancestors + [names[0]], names[1..], name);
      AtFirst(directory, ancestors, names, name);
      assert InEntry(f, directory, entry, ancestors)
          == InEntries(f, path, entry, |entry.entries|, ancestors + [names[0]]);
    }
  }

  /** What is found in an entry is led to by it. */
  lemma {:induction false} FoundBy(f: Filter, directory: string, entry: Node, ancestors: seq<string>, m: Module)
    returns (names: seq<string>)
    requires m in InEntry(f, directory, entry, ancestors)
    ensures m == At(directory, ancestors, names, m.name) && LeadsBy(f, directory, entry, names, m.name)
    ensures (names + [m.name])[0] == entry.name
    decreases entry, 0
  {
    hide BuildFilename, IsModule, IsIgnoredDirectory;
    if entry.File? {
      names := [];
      assert ancestors + [] == ancestors;
    } else {
      var path := BuildFilename(directory, entry.name);
      var i, more := FoundIn(f, path, entry, |entry.entries|, ancestors + [entry.name], m);
      names := [entry.name] + more;
      assert names[1..] == more;
      AtFirst(directory, ancestors, names, m.name);
    }
  }

  lemma {:induction false} FoundIn(f: Filter, directory: string, node: Node, k: nat, ancestors: seq<string>, m: Module)
    returns (i: nat, names: seq<string>)
    requires node.Directory? && k <= |node.entries| && m in InEntries(f, directory, node, k, ancestors)
    ensures i < k && m == At(directory, ancestors, names, m.name)
    ensures LeadsBy(f, directory, node.entries[i], names, m.name) && (names + [m.name])[0] == node.entries[i].name
    decreases node, 0, k
  {
    if m in InEntries(f, directory, node, k - 1, ancestors) {
      i, names := FoundIn(f, directory, node, k - 1, ancestors, m);
    } else {
      i := k - 1;
      names := FoundBy(f, directory, node.entries[i], ancestors, m);
    }
  }

  /**
   The modules of a tree are exactly the files with the module suffix, not excluded, that can be
   reached through readable directories that are neither excluded nor ignored.
   */
  lemma ModulesIff(f: Filter, directory: string, top: Node, m: Module)
    requires top.Directory?
    ensures m in Modules(f, directory, top)
            <==> && !IsIgnoredDirectory(directory) && top.readable
                 && Leads(f, directory, top, |top.entries|, m.ancestors, m.name)
                 && m.path == PathOf(directory, m.ancestors, m.name)
  {
    hide InEntries, IsIgnoredDirectory, PathOf, LeadsBy;
    EmptyHead(m.ancestors);
    if m in Modules(f, directory, top) {
      var i, names := FoundIn(f, directory, top, |top.entries|, [], m);
      EmptyHead(names);
    }
    if !IsIgnoredDirectory(directory) && top.readable && Leads(f, directory, top, |top.entries|, m.ancestors, m.name) {
      var i :| 0 <= i < |top.entries| && LeadsBy(f, directory, top.entries[i], m.ancestors, m.name);
      LeadsFound(f, directory, top, |top.entries|, i, [], m.ancestors, m.name);
    }
  }

  // ---------------------------------------------------------------- once each

  /** No directory holds two entries of the same name. */
  predicate Tidy(node: Node)
    decreases node
  {
    node.Directory? ==>
      && (forall i, j :: 0 <= i < j < |node.entries| ==> node.entries[i].name != node.entries[j].name)
      && (forall i :: 0 <= i < |node.entries| ==> Tidy(node.entries[i]))
  }

  predicate NoDuplicates<T(==)>(s: seq<T>) {
    forall i, j :: 0 <= i < j < |s| ==> s[i] != s[j]
  }

  lemma NoDuplicatesConcat<T>(a: seq<T>, b: seq<T>)
    requires NoDuplicates(a) && NoDuplicates(b) && forall x :: x in a ==> x !in b
    ensures NoDuplicates(a + b)
  {
    var s := a + b;
    forall i, j | 0 <= i < j < |s|
      ensures s[i] != s[j]
    {
      if i < |a| <= j {
        assert s[i] in a && s[j] == b[j - |a|];
      }
    }
  }

  /** Modules found below different names are different. */
  lemma DifferentEntries(directory: string, ancestors: seq<string>, m: Module, names: seq<string>, names': seq<string>)
    requires m == At(directory, ancestors, names, m.name) && m == At(directory, ancestors, names', m.name)
    ensures (names + [m.name])[0] == (names' + [m.name])[0]
  {
    hide PathOf;
    assert (ancestors + names)[|ancestors|..] == names && (ancestors + names')[|ancestors|..] == names';
  }

  lemma {:induction false} EntryOnce(f: Filter, directory: string, entry: Node, ancestors: seq<string>)
    requires Tidy(entry)
    ensures NoDuplicates(InEntry(f, directory, entry, ancestors))
    decreases entry, 0
  {
    hide BuildFilename, IsModule, IsEntered;
    if entry.Directory? {
      EntriesOnce(f, BuildFilename(directory, entry.name), entry, |entry.entries|, ancestors + [entry.name]);
    }
  }

  /** A module found in an entry is in none of the entries before it. */
  lemma EntriesApart(f: Filter, directory: string, node: Node, k: nat, ancestors: seq<string>, m: Module)
    requires node.Directory? && k < |node.entries| && Tidy(node)
    requires m in InEntries(f, directory, node, k, ancestors)
    ensures m !in InEntry(f, directory, node.entries[k], ancestors)
  {
    var i, names := FoundIn(f, directory, node, k, ancestors, m);
    TidyEntries(node, i, k);
    hide *;
    if m in InEntry(f, directory, node.entries[k], ancestors) {
      var names' := FoundBy(f, directory, node.entries[k], ancestors, m);
      DifferentEntries(directory, ancestors, m, names, names');
      assert false;
    }
  }

  lemma TidyEntry(node: Node, k: nat)
    requires node.Directory? && k < |node.entries| && Tidy(node)
    ensures Tidy(node.entries[k])
  {
  }

  lemma TidyEntries(node: Node, i: nat, k: nat)
    requires node.Directory? && i < k < |node.entries| && Tidy(node)
    ensures node.entries[i].name != node.entries[k].name
  {
  }

  lemma EntriesUnfold(f: Filter, directory: string, node: Node, k: nat, ancestors: seq<string>)
    requires node.Directory? && k < |node.entries|
    ensures InEntries(f, directory, node, k + 1, ancestors)
            == InEntries(f, directory, node, k, ancestors) + InEntry(f, directory, node.entries[k], ancestors)
  {
    hide InEntry;
  }

  lemma {:induction false} EntriesOnce(f: Filter, directory: string, node: Node, k: nat, ancestors: seq<string>)
    requires node.Directory? && k <= |node.entries| && Tidy(node)
    ensures NoDuplicates(InEntries(f, directory, node, k, ancestors))
    decreases node, 0, k
  {
    hide *;
    if k == 0 {
      NoEntryOnce(f, directory, node, ancestors);
    } else {
      TidyEntry(node, k - 1);
      EntriesOnce(f, directory, node, k - 1, ancestors);
      EntryOnce(f, directory, node.entries[k - 1], ancestors);
      EntriesJoined(f, directory, node, k - 1, ancestors);
    }
  }

  lemma NoEntryOnce(f: Filter, directory: string, node: Node, ancestors: seq<string>)
    requires node.Directory?
    ensures NoDuplicates(InEntries(f, directory, node, 0, ancestors))
  {
  }

  lemma EntriesJoined(f: Filter, directory: string, node: Node, k: nat, ancestors: seq<string>)
    requires node.Directory? && k < |node.entries| && Tidy(node)
    requires NoDuplicates(InEntries(f, directory, node, k, ancestors))
    requires NoDuplicates(InEntry(f, directory, node.entries[k], ancestors))
    ensures NoDuplicates(InEntries(f, directory, node, k + 1, ancestors))
  {
    hide *;
    EntriesUnfold(f, directory, node, k, ancestors);
    var a, b := InEntries(f, directory, node, k, ancestors), InEntry(f, directory, node.entries[k], ancestors);
    forall m | m in a
      ensures m !in b
    {
      EntriesApart(f, directory, node, k, ancestors, m);
    }
    NoDuplicatesConcat(a, b);
  }

  /** In a tree without name clashes every module is visited once. */
  lemma ModulesOnce(f: Filter, directory: string, top: Node)
    requires top.Directory? && Tidy(top)
    ensures NoDuplicates(Modules(f, directory, top))
  {
    EntriesOnce(f, directory, top, |top.entries|, []);
  }
}
