/** What paths, base directories and the order of the walk are, told name by name. */
module RepositoryLaws {
  import opened Seqs
  import opened Repository

  predicate EntryNames(names: seq<string>) {
    forall n :: n in names ==> n != "" && SlashFree(n)
  }

  // ---------------------------------------------------------------- paths

  /** The names between the slashes of a path. */
  function Segments(path: string): (names: seq<string>)
    ensures names != []
  {
    if path == "" then [""]
    else
      var rest := Segments(path[1..]);
      if path[0] == '/' then [""] + rest else [[path[0]] + rest[0]] + rest[1..]
  }

  lemma {:induction false} SegmentsPlain(name: string)
    requires SlashFree(name)
    ensures Segments(name) == [name]
  {
    if name != "" {
      assert name[0] in name && forall c :: c in name[1..] ==> c in name;
      SegmentsPlain(name[1..]);
      assert [name[0]] + name[1..] == name;
    }
  }

  lemma {:induction false} SegmentsAfter(name: string, rest: string)
    requires SlashFree(name)
    ensures Segments(name + ("/" + rest)) == [name] + Segments(rest)
  {
    var path := name + ("/" + rest);
    if name == "" {
      assert path[1..] == rest;
    } else {
      assert name[0] in name && forall c :: c in name[1..] ==> c in name;
      assert path[0] == name[0] && path[1..] == name[1..] + ("/" + rest);
      SegmentsAfter(name[1..], rest);
      assert [name[0]] + name[1..] == name;
    }
  }

  /** A path built from names is made of these names. */
  lemma {:induction false} BuiltPathMeans(names: seq<string>)
    requires names != [] && EntryNames(names)
    ensures Segments(BuildPath(names)) == names
  {
    assert names[0] in names && forall n :: n in names[1..] ==> n in names;
    if |names| == 1 {
      SegmentsPlain(names[0]);
      assert names == [names[0]];
    } else {
      BuiltPathMeans(names[1..]);
      SegmentsAfter(names[0], BuildPath(names[1..]));
      assert names[0] + "/" + BuildPath(names[1..]) == names[0] + ("/" + BuildPath(names[1..]));
    }
  }

  /**
   The base directory of a module is the directory it was found in, relative to the top; built
   libraries in ".libs" or "_libs" belong to the directory above.
   */
  lemma BaseDirectoryMeans(ancestors: seq<string>, name: string)
    requires EntryNames(ancestors) && EntryNames([name])
    ensures BaseDirectory([]) == "" && BaseDirectory([".libs"]) == "" && BaseDirectory(["_libs"]) == ""
    ensures name != ".libs" && name != "_libs" ==> Segments(BaseDirectory(ancestors + [name])) == ancestors + [name]
    ensures ancestors != [] && (name == ".libs" || name == "_libs") ==>
              Segments(BaseDirectory(ancestors + [name])) == ancestors
  {
    var all := ancestors + [name];
    assert all[..|all| - 1] == ancestors && all[|all| - 1] == name;
    assert name in [name];
    BuiltPathMeans(all);
    if ancestors != [] {
      BuiltPathMeans(ancestors);
    }
    hide Segments, BuildPath;
    NothingBuilt();
    assert [".libs"][..0] == [] && ["_libs"][..0] == [];
  }

  lemma NothingBuilt()
    ensures BuildPath([]) == ""
  {
  }

  lemma {:induction false} StripsNothing(path: string)
    requires path != "" && path[|path| - 1] != '/'
    ensures StripSlashes(path) == path
  {
  }

  /** Stripping leaves no slash at the end, and takes nothing but slashes away. */
  lemma {:induction false} StripMeans(path: string)
    ensures var r := StripSlashes(path);
            && r <= path && (r != "" ==> r[|r| - 1] != '/')
            && forall k :: |r| <= k < |path| ==> path[k] == '/'
  {
    if path != "" && path[|path| - 1] == '/' {
      StripMeans(path[..|path| - 1]);
    }
  }

  /** What stands before the names of a path: nothing, or the directory with one slash. */
  function Before(directory: string): string {
    if directory == "" then "" else StripSlashes(directory) + "/"
  }

  lemma BuiltEndsPlain(directory: string, name: string)
    requires name != "" && SlashFree(name)
    ensures BuildFilename(directory, name) == Before(directory) + name
    ensures Before(BuildFilename(directory, name)) == Before(directory) + name + "/"
  {
    var path := BuildFilename(directory, name);
    hide StripSlashes;
    assert path == Before(directory) + name;
    assert name[|name| - 1] in name;
    StripsNothing(path);
  }

  /** The path of a module: the top directory, without slashes at its end, and the names on the way to it. */
  lemma {:induction false} ModulePathMeans(directory: string, names: seq<string>, name: string)
    requires EntryNames(names + [name])
    ensures PathOf(directory, names, name) == Before(directory) + BuildPath(names + [name])
    decreases |names|
  {
    hide *;
    PathParts(directory, names, name);
    if names != [] {
      var first, rest := names[0], names[1..];
      BuiltEndsPlain(directory, first);
      ModulePathMeans(BuildFilename(directory, first), rest, name);
      Associate(Before(directory) + first, "/", BuildPath(rest + [name]));
      Associate(Before(directory), first, "/" + BuildPath(rest + [name]));
      Associate(first, "/", BuildPath(rest + [name]));
    } else {
      BuiltEndsPlain(directory, name);
    }
  }

  lemma PathParts(directory: string, names: seq<string>, name: string)
    requires EntryNames(names + [name])
    ensures name != "" && SlashFree(name)
    ensures names == [] ==>
              PathOf(directory, names, name) == BuildFilename(directory, name) && BuildPath(names + [name]) == name
    ensures names != [] ==>
              && names[0] != "" && SlashFree(names[0]) && EntryNames(names[1..] + [name])
              && PathOf(directory, names, name) == PathOf(BuildFilename(directory, names[0]), names[1..], name)
              && BuildPath(names + [name]) == names[0] + "/" + BuildPath(names[1..] + [name])
  {
    hide BuildFilename, SlashFree;
    var all := names + [name];
    assert name in all;
    if names == [] {
      assert all == [name];
    } else {
      assert names[0] in all && all[1..] == names[1..] + [name] && forall n :: n in all[1..] ==> n in all;
    }
  }

  // ---------------------------------------------------------------- entries

  /**
   Below a named directory, a file is a module exactly if it ends in ".so" and is not excluded, and a
   directory is entered exactly if it can be read, is not excluded and does not end in ".dSYM".
   */
  lemma EntriesMean(f: Filter, directory: string, node: Node)
    requires directory != "" && SlashFree(node.name)
    ensures IsModule(f, node.name) <==> EndsWith(node.name, ".so") && !f.excludesFile(node.name)
    ensures IsEntered(f, directory, node)
            <==> node.Directory? && node.readable && !f.excludesDirectory(node.name) && !EndsWith(node.name, ".dSYM")
  {
    SubdirectoryIgnoredIff(directory, node.name);
    hide IsIgnoredDirectory, BuildFilename, EndsWith;
  }

  // ---------------------------------------------------------------- order

  lemma {:induction false} EntryInEntries(f: Filter, directory: string, node: Node, k: nat, i: nat,
                                          ancestors: seq<string>, m: Module)
    requires node.Directory? && i < k <= |node.entries| && m in InEntry(f, directory, node.entries[i], ancestors)
    ensures m in InEntries(f, directory, node, k, ancestors)
    decreases k
  {
    hide InEntry;
    if i < k - 1 {
      EntryInEntries(f, directory, node, k - 1, i, ancestors, m);
    }
  }

  /** The first module is visited before the second. */
  ghost predicate Precedes(ms: seq<Module>, m: Module, n: Module) {
    exists p, q :: 0 <= p < q < |ms| && ms[p] == m && ms[q] == n
  }

  lemma PrecedesLonger(before: seq<Module>, last: seq<Module>, m: Module, n: Module)
    ensures Precedes(before, m, n) ==> Precedes(before + last, m, n)
    ensures m in before && n in last ==> Precedes(before + last, m, n)
  {
    var ms := before + last;
    if Precedes(before, m, n) {
      var p, q :| 0 <= p < q < |before| && before[p] == m && before[q] == n;
      assert ms[p] == m && ms[q] == n;
    }
    if m in before && n in last {
      var p, q :| 0 <= p < |before| && before[p] == m && 0 <= q < |last| && last[q] == n;
      assert ms[p] == m && ms[|before| + q] == n;
    }
  }

  /** What an entry holds is visited before what a later entry of the same directory holds. */
  lemma {:induction false} VisitedInOrder(f: Filter, directory: string, node: Node, k: nat, i: nat, j: nat,
                                          ancestors: seq<string>, m: Module, n: Module)
    requires node.Directory? && i < j < k <= |node.entries|
    requires m in InEntry(f, directory, node.entries[i], ancestors)
    requires n in InEntry(f, directory, node.entries[j], ancestors)
    ensures Precedes(InEntries(f, directory, node, k, ancestors), m, n)
    decreases k
  {
    hide *;
    EntriesUnfold(f, directory, node, k - 1, ancestors);
    PrecedesLonger(InEntries(f, directory, node, k - 1, ancestors),
                   InEntry(f, directory, node.entries[k - 1], ancestors), m, n);
    if j < k - 1 {
      VisitedInOrder(f, directory, node, k - 1, i, j, ancestors, m, n);
    } else {
      EntryInEntries(f, directory, node, k - 1, i, ancestors, m);
    }
  }
}
