/** What the loaded test cases hold: their hooks, their tests, and the order of both. */
module LoadedLaws {
  import opened Seqs
  import opened SymbolNames
  import opened Wrappers
  import opened TestNames
  import opened Loader

  // ---------------------------------------------------------------- where a case comes from

  /** The parts of a case that are fixed when it is created. */
  ghost predicate SameHead(c: Case, d: Case) {
    c.namespace == d.namespace && c.name == d.name && c.hooks == d.hooks
  }

  /** A case after one more name was there before, or is new, but for its tests. */
  lemma CaseFrom(so: SharedObject, before: seq<Case>, names: Names, c: Case)
    requires c in Group(so, before, names)
    ensures SameHead(c, NewCase(so, names.namespace, names.namespace.Some? && names.gcc))
            || exists b :: b in before && SameHead(c, b)
  {
    PlaceWithCase(so, before, names);
    hide NewCase, Added, Place;
    var ready := WithCase(so, before, names);
    var i :| 0 <= i < |ready| && Group(so, before, names)[i] == c;
    assert SameHead(c, ready[i]);
    if ready == before {
      assert ready[i] in before;
    } else if i > 0 {
      assert ready[i] == before[i - 1] && before[i - 1] in before;
    }
  }

  // ---------------------------------------------------------------- hooks

  /** The hook is the first function if it is exported, else the second if that is, else none. */
  predicate Prefers(so: SharedObject, hook: Option<string>, first: string, second: string) {
    hook == if first in so.exported then Some(first) else if second in so.exported then Some(second) else None
  }

  /** Each hook is its own function; the C case has neither plain startup nor plain shutdown. */
  predicate HasHooks(so: SharedObject, c: Case, gcc: bool) {
    match c.namespace
    case None =>
      && Prefers(so, c.hooks.setup, "cut_setup", "setup")
      && Prefers(so, c.hooks.teardown, "cut_teardown", "teardown")
      && Prefers(so, c.hooks.startup, "cut_startup", "cut_startup")
      && Prefers(so, c.hooks.shutdown, "cut_shutdown", "cut_shutdown")
    case Some(_) =>
      && Prefers(so, c.hooks.setup, Mangle(c.namespace, "cut_setup", gcc), Mangle(c.namespace, "setup", gcc))
      && Prefers(so, c.hooks.teardown, Mangle(c.namespace, "cut_teardown", gcc), Mangle(c.namespace, "teardown", gcc))
      && Prefers(so, c.hooks.startup, Mangle(c.namespace, "cut_startup", gcc), Mangle(c.namespace, "startup", gcc))
      && Prefers(so, c.hooks.shutdown, Mangle(c.namespace, "cut_shutdown", gcc), Mangle(c.namespace, "shutdown", gcc))
  }

  lemma PlainMangle(name: string, gcc: bool)
    ensures Mangle(None, name, gcc) == name
  {
  }

  lemma NewCaseHooks(so: SharedObject, namespace: Option<string>, gcc: bool)
    ensures HasHooks(so, NewCase(so, namespace, gcc), gcc)
    ensures NewCase(so, namespace, gcc).name == if namespace.Some? then namespace.value else so.caseName
  {
    hide Mangle;
    assert "cut_" + "setup" == "cut_setup" && "cut_" + "teardown" == "cut_teardown";
    assert "cut_" + "startup" == "cut_startup" && "cut_" + "shutdown" == "cut_shutdown";
    if namespace == None {
      PlainMangle("cut_setup", gcc);
      PlainMangle("setup", gcc);
      PlainMangle("cut_teardown", gcc);
      PlainMangle("teardown", gcc);
    }
  }

  /** The case was created for one of the names, with its hooks and its name. */
  ghost predicate CreatedFor(so: SharedObject, c: Case, list: seq<Names>) {
    exists n :: n in list && n.namespace == c.namespace && HasHooks(so, c, n.namespace.Some? && n.gcc)
                && c.name == if n.namespace.Some? then n.namespace.value else so.caseName
  }

  lemma {:induction false} GroupedHooks(so: SharedObject, list: seq<Names>, c: Case)
    requires c in Grouped(so, list)
    ensures CreatedFor(so, c, list)
  {
    hide Group, NewCase, HasHooks;
    if list != [] {
      var init, last := list[..|list| - 1], list[|list| - 1];
      assert last in list && forall n :: n in init ==> n in list;
      CaseFrom(so, Grouped(so, init), last, c);
      var gcc := last.namespace.Some? && last.gcc;
      if b :| b in Grouped(so, init) && SameHead(c, b) {
        GroupedHooks(so, init, b);
        SameHooks(so, c, b);
      } else {
        NewCaseHooks(so, last.namespace, gcc);
        NewNamespace(so, last.namespace, gcc);
        SameHooks(so, c, NewCase(so, last.namespace, gcc));
      }
    }
  }

  lemma NewNamespace(so: SharedObject, namespace: Option<string>, gcc: bool)
    ensures NewCase(so, namespace, gcc).namespace == namespace
  {
    hide HooksOf;
  }

  lemma SameHooks(so: SharedObject, c: Case, d: Case)
    requires SameHead(c, d)
    ensures forall gcc :: HasHooks(so, c, gcc) <==> HasHooks(so, d, gcc)
    ensures c.namespace == d.namespace && c.name == d.name
  {
    hide Prefers, Mangle;
  }

  /** Every loaded case has the hooks and the name of the namespace it is for. */
  lemma LoadedHooks(so: SharedObject, c: Case)
    requires c in LoadedCases(so)
    ensures CreatedFor(so, c, Reverse(Recognised(so.symbols)))
  {
    hide *;
    LoadedUnfold(so);
    GroupedHooks(so, Reverse(Recognised(so.symbols)), c);
  }

  // ---------------------------------------------------------------- tests

  /** The names can be registered: their functions can be looked up. */
  predicate Registrable(so: SharedObject, names: Names) {
    && names.functionName in so.exported
    && (names.requireDataSetup ==> names.dataSetup.Some? && names.dataSetup.value in so.exported)
  }

  /** The test is what its names and the shared object make of it. */
  predicate IsTestOf(so: SharedObject, t: Test, names: Names) {
    && t.names == names
    && t.data == (if names.dataSetup.Some? && names.dataSetup.value in so.exported then names.dataSetup else None)
    && (t.attributes == if so.supportsAttributes then Attributes(so, names, |so.symbols|) else map[])
  }

  lemma AddedIff(so: SharedObject, names: Names)
    ensures Registrable(so, names) ==> |Added(so, names)| == 1 && IsTestOf(so, Added(so, names)[0], names)
    ensures !Registrable(so, names) ==> Added(so, names) == []
  {
    hide Attributes;
  }

  lemma {:induction false} ResolvedIff(so: SharedObject, list: seq<Names>, t: Test)
    ensures t in Resolved(so, list) <==> t.names in list && Registrable(so, t.names) && IsTestOf(so, t, t.names)
  {
    hide Added, Registrable;
    if list != [] {
      AddedIff(so, list[0]);
      ResolvedIff(so, list[1..], t);
      assert t.names == list[0] || t.names in list[1..] <==> t.names in list;
      OnlyTest(so, t, list[0]);
    }
  }

  lemma OnlyTest(so: SharedObject, t: Test, names: Names)
    ensures t in Added(so, names) <==> Registrable(so, names) && IsTestOf(so, t, names)
  {
    AddedIff(so, names);
    hide Added, Registrable, Attributes;
  }

  lemma {:induction false} InAllTests(cases: seq<Case>, t: Test)
    ensures t in AllTests(cases) <==> exists c :: c in cases && t in c.tests
  {
    if cases != [] {
      InAllTests(cases[1..], t);
      assert AllTests(cases) == cases[0].tests + AllTests(cases[1..]);
      assert cases[0] in cases;
      hide AllTests;
    }
  }

  /**
   The tests of the loaded cases are exactly those of the recognised symbols that are exported
   themselves, and whose data function is where they take data.
   */
  lemma LoadedTestsIff(so: SharedObject, t: Test)
    ensures (exists c :: c in LoadedCases(so) && t in c.tests)
            <==> t.names in Recognised(so.symbols) && Registrable(so, t.names) && IsTestOf(so, t, t.names)
  {
    hide *;
    InAllTests(LoadedCases(so), t);
    LoadedConserves(so);
    ResolvedIff(so, Recognised(so.symbols), t);
    MultisetHolds(AllTests(LoadedCases(so)), Resolved(so, Recognised(so.symbols)), t);
  }

  lemma MultisetHolds<T>(a: seq<T>, b: seq<T>, t: T)
    requires multiset(a) == multiset(b)
    ensures t in a <==> t in b
  {
    assert t in a <==> t in multiset(a);
    assert t in b <==> t in multiset(b);
  }

  // ---------------------------------------------------------------- order

  /** The elements of the first list, in their order, are among those of the second. */
  ghost predicate Within<T>(a: seq<T>, b: seq<T>) {
    || a == []
    || (b != [] && (|| (a[|a| - 1] == b[|b| - 1] && Within(a[..|a| - 1], b[..|b| - 1]))
                    || Within(a, b[..|b| - 1])))
  }

  lemma {:induction false} WithinLonger<T>(a: seq<T>, b: seq<T>, c: seq<T>)
    requires Within(a, b)
    ensures Within(a, b + c)
    decreases |c|
  {
    if c == [] {
      assert b + c == b;
    } else {
      WithinLonger(a, b, c[..|c| - 1]);
      assert (b + c)[..|b + c| - 1] == b + c[..|c| - 1];
    }
  }

  lemma {:induction false} WithinBoth<T>(a: seq<T>, b: seq<T>, c: seq<T>)
    requires Within(a, b)
    ensures Within(a + c, b + c)
    decreases |c|
  {
    if c == [] {
      assert a + c == a && b + c == b;
    } else {
      WithinBoth(a, b, c[..|c| - 1]);
      assert (a + c)[..|a + c| - 1] == a + c[..|c| - 1];
      assert (b + c)[..|b + c| - 1] == b + c[..|c| - 1];
    }
  }

  ghost predicate AllWithin(cases: seq<Case>, tests: seq<Test>) {
    forall c :: c in cases ==> Within(c.tests, tests)
  }

  lemma GroupWithin(so: SharedObject, cases: seq<Case>, names: Names, tests: seq<Test>)
    requires AllWithin(cases, tests)
    ensures AllWithin(Group(so, cases, names), tests + Added(so, names))
  {
    PlaceWithCase(so, cases, names);
    hide Added, Place, HooksOf, Within;
    var ready := WithCase(so, cases, names);
    var k := Place(ready, names.namespace);
    EmptyWithin(tests);
    assert AllWithin(ready, tests);
    var after := Group(so, cases, names);
    forall i | 0 <= i < |after|
      ensures Within(after[i].tests, tests + Added(so, names))
    {
      assert ready[i] in ready;
      if i == k {
        WithinBoth(ready[k].tests, tests, Added(so, names));
      } else {
        WithinLonger(ready[i].tests, tests, Added(so, names));
      }
    }
  }

  lemma EmptyWithin<T>(b: seq<T>)
    ensures Within([], b)
  {
  }

  lemma {:induction false} GroupedWithin(so: SharedObject, list: seq<Names>)
    ensures AllWithin(Grouped(so, list), Resolved(so, list))
  {
    hide *;
    if list == [] {
      NothingGroupedWithin(so);
    } else {
      var init, last := list[..|list| - 1], list[|list| - 1];
      GroupedUnfold(so, list);
      GroupedWithin(so, init);
      GroupWithin(so, Grouped(so, init), last, Resolved(so, init));
      ResolvedSnoc(so, init, last);
    }
  }

  lemma NothingGroupedWithin(so: SharedObject)
    ensures AllWithin(Grouped(so, []), Resolved(so, []))
  {
  }

  /** The place of the first name of a namespace, or the length. */
  function FirstOf(list: seq<Names>, namespace: Option<string>): nat {
    if list == [] || list[0].namespace == namespace then 0 else 1 + FirstOf(list[1..], namespace)
  }

  lemma {:induction false} FirstSnoc(list: seq<Names>, names: Names, namespace: Option<string>)
    ensures FirstOf(list, namespace) <= |list|
    ensures FirstOf(list, namespace) == |list| <==> forall n :: n in list ==> n.namespace != namespace
    ensures FirstOf(list + [names], namespace)
            == if FirstOf(list, namespace) < |list| then FirstOf(list, namespace)
               else if names.namespace == namespace then |list| else |list| + 1
  {
    if list == [] {
      assert list + [names] == [names];
    } else {
      assert (list + [names])[1..] == list[1..] + [names] && (list + [names])[0] == list[0];
      FirstSnoc(list[1..], names, namespace);
      assert list[0] in list && forall n :: n in list[1..] ==> n in list;
    }
  }

  function Namespaces(cases: seq<Case>): seq<Option<string>> {
    if cases == [] then [] else [cases[0].namespace] + Namespaces(cases[1..])
  }

  lemma {:induction false} NamespacesKept(cases: seq<Case>, k: nat, added: seq<Test>)
    requires k < |cases|
    ensures Namespaces(cases[k := Register(cases[k], added)]) == Namespaces(cases)
  {
    var after := cases[k := Register(cases[k], added)];
    if k == 0 {
      assert after[1..] == cases[1..];
    } else {
      assert after[1..] == cases[1..][k - 1 := Register(cases[1..][k - 1], added)];
      NamespacesKept(cases[1..], k - 1, added);
    }
  }

  /** Each namespace has a first name, and it comes after that of the namespace behind it. */
  ghost predicate LastFirst(nss: seq<Option<string>>, list: seq<Names>) {
    nss != [] ==>
      && FirstOf(list, nss[0]) < |list|
      && (|nss| > 1 ==> FirstOf(list, nss[1]) < FirstOf(list, nss[0]))
      && LastFirst(nss[1..], list)
  }

  lemma {:induction false} OrderKept(nss: seq<Option<string>>, list: seq<Names>, names: Names)
    requires LastFirst(nss, list)
    ensures LastFirst(nss, list + [names])
  {
    if nss != [] {
      FirstSnoc(list, names, nss[0]);
      if |nss| > 1 { FirstSnoc(list, names, nss[1]); }
      hide FirstOf;
      OrderKept(nss[1..], list, names);
    }
  }

  lemma OrderGrows(nss: seq<Option<string>>, list: seq<Names>, names: Names)
    requires LastFirst(nss, list) && FirstOf(list, names.namespace) == |list|
    ensures LastFirst([names.namespace] + nss, list + [names])
  {
    OrderKept(nss, list, names);
    FirstSnoc(list, names, names.namespace);
    if nss != [] { FirstSnoc(list, names, nss[0]); }
    hide FirstOf;
    assert ([names.namespace] + nss)[1..] == nss;
  }

  /** Each name has a case that takes its tests, and the cases are in the order they were created, last one first. */
  ghost predicate InOrder(cases: seq<Case>, list: seq<Names>) {
    && (forall n :: n in list ==> Place(cases, n.namespace) < |cases|)
    && LastFirst(Namespaces(cases), list)
  }

  lemma PlaceKept(so: SharedObject, cases: seq<Case>, names: Names, namespace: Option<string>)
    ensures Place(cases, namespace) < |cases| ==> Place(Group(so, cases, names), namespace) < |Group(so, cases, names)|
    ensures Place(Group(so, cases, names), names.namespace) < |Group(so, cases, names)|
  {
    PlaceWithCase(so, cases, names);
    var ready := WithCase(so, cases, names);
    var k := Place(ready, names.namespace);
    PlaceUpdated(ready, k, Added(so, names), namespace);
    PlaceUpdated(ready, k, Added(so, names), names.namespace);
    hide Added, HooksOf;
    assert ready != cases ==> ready[1..] == cases;
    hide Takes;
  }

  lemma GroupInOrder(so: SharedObject, cases: seq<Case>, list: seq<Names>, names: Names)
    requires InOrder(cases, list)
    ensures InOrder(Group(so, cases, names), list + [names])
  {
    hide Place, Group, LastFirst, FirstOf, Namespaces;
    forall n | n in list + [names]
      ensures Place(Group(so, cases, names), n.namespace) < |Group(so, cases, names)|
    {
      PlaceKept(so, cases, names, n.namespace);
    }
    OrderKept(Namespaces(cases), list, names);
    if Place(cases, names.namespace) >= |cases| {
      NoName(cases, list, names);
      OrderGrows(Namespaces(cases), list, names);
    }
    GroupNamespaces(so, cases, names);
  }

  lemma NoName(cases: seq<Case>, list: seq<Names>, names: Names)
    requires (forall n :: n in list ==> Place(cases, n.namespace) < |cases|)
    requires Place(cases, names.namespace) >= |cases|
    ensures FirstOf(list, names.namespace) == |list|
  {
    FirstSnoc(list, names, names.namespace);
    hide FirstOf, Place;
  }

  /** One more name leaves the cases as they are, in number and place, or puts a new one in front. */
  lemma GroupNamespaces(so: SharedObject, cases: seq<Case>, names: Names)
    ensures Namespaces(Group(so, cases, names))
            == if Place(cases, names.namespace) < |cases| then Namespaces(cases)
               else [names.namespace] + Namespaces(cases)
  {
    PlaceWithCase(so, cases, names);
    var ready := WithCase(so, cases, names);
    NamespacesKept(ready, Place(ready, names.namespace), Added(so, names));
    hide Place, Added, HooksOf, Takes;
    if ready != cases {
      assert ready[1..] == cases;
    }
  }

  lemma {:induction false} GroupedInOrder(so: SharedObject, list: seq<Names>)
    ensures InOrder(Grouped(so, list), list)
  {
    hide Group, Place, FirstOf;
    if list != [] {
      var init, last := list[..|list| - 1], list[|list| - 1];
      GroupedInOrder(so, init);
      hide InOrder;
      GroupInOrder(so, Grouped(so, init), init, last);
      assert init + [last] == list;
    }
  }

  /**
   Tests come in reverse order of their symbols within each case, and cases in reverse order of the
   names they were created for, which again are in reverse order of the symbols.
   */
  lemma LoadedInOrder(so: SharedObject)
    ensures var list := Reverse(Recognised(so.symbols));
            && AllWithin(LoadedCases(so), Resolved(so, list))
            && InOrder(LoadedCases(so), list)
  {
    hide *;
    LoadedUnfold(so);
    GroupedWithin(so, Reverse(Recognised(so.symbols)));
    GroupedInOrder(so, Reverse(Recognised(so.symbols)));
  }
}
