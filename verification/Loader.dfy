/** Loading the test cases of a shared object (cut-loader.c). */
module Loader {
  import opened Seqs
  import opened SymbolNames
  import opened Wrappers
  import opened TestNames

  /** What the model knows of a shared object: its symbol list and what can be looked up in it. */
  datatype SharedObject =
    SharedObject(symbols: seq<string>, exported: set<string>, supportsAttributes: bool, caseName: string)

  /** A test, with the names it was made from and the functions that give its attributes. */
  datatype Test = Test(names: Names, data: Option<string>, attributes: map<string, string>)

  datatype Hooks =
    Hooks(setup: Option<string>, teardown: Option<string>, startup: Option<string>, shutdown: Option<string>)

  /** A test case; `namespace` is the one it was created for. */
  datatype Case = Case(namespace: Option<string>, name: string, hooks: Hooks, tests: seq<Test>)

  // ---------------------------------------------------------------- specification

  /** The names of the recognised symbols, in the order of the symbols. */
  function Recognised(symbols: seq<string>): seq<Names> {
    if symbols == [] then []
    else (if Detect(symbols[0]).Some? then [Detect(symbols[0]).value] else []) + Recognised(symbols[1..])
  }

  function Exported(so: SharedObject, name: string): Option<string> {
    if name in so.exported then Some(name) else None
  }

  /** The attributes given by the first k symbols; a later function replaces an earlier one. */
  function Attributes(so: SharedObject, names: Names, k: nat): map<string, string>
    requires k <= |so.symbols|
  {
    if k == 0 then map[]
    else SetAttribute(so, names, so.symbols[k - 1], Attributes(so, names, k - 1))
  }

  function SetAttribute(so: SharedObject, names: Names, function_: string, attributes: map<string, string>)
    : map<string, string>
  {
    if IsAttributeFunction(function_, names) && function_ in so.exported && AttributeName(function_, names).Some?
    then attributes[AttributeName(function_, names).value := function_]
    else attributes
  }

  /** The test registered for some names, if its functions can be looked up. */
  function Resolve(so: SharedObject, names: Names): Option<Test> {
    var data := if names.dataSetup.Some? then Exported(so, names.dataSetup.value) else None;
    if names.functionName !in so.exported || (names.requireDataSetup && data == None) then None
    else Some(Test(names, data, if so.supportsAttributes then Attributes(so, names, |so.symbols|) else map[]))
  }

  function Hook(so: SharedObject, namespace: Option<string>, name: string, gcc: bool): Option<string> {
    var prefixed := Mangle(namespace, "cut_" + name, gcc);
    if prefixed in so.exported then Some(prefixed) else Exported(so, Mangle(namespace, name, gcc))
  }

  function HooksOf(so: SharedObject, namespace: Option<string>, gcc: bool): Hooks {
    Hooks(
      Hook(so, namespace, "setup", gcc),
      Hook(so, namespace, "teardown", gcc),
      if namespace.Some? then Hook(so, namespace, "startup", gcc) else Exported(so, "cut_startup"),
      if namespace.Some? then Hook(so, namespace, "shutdown", gcc) else Exported(so, "cut_shutdown"))
  }

  function NewCase(so: SharedObject, namespace: Option<string>, gcc: bool): Case {
    Case(namespace, if namespace.Some? then namespace.value else so.caseName, HooksOf(so, namespace, gcc), [])
  }

  /** A namespaced test goes to a case by name, a C test to the case of the C tests. */
  predicate Takes(c: Case, namespace: Option<string>) {
    if namespace.Some? then c.name == namespace.value else c.namespace == None
  }

  /** The first case that takes tests of the namespace, or the length. */
  function Place(cases: seq<Case>, namespace: Option<string>): (k: nat)
    ensures k <= |cases| && (k < |cases| ==> Takes(cases[k], namespace))
    ensures forall i :: 0 <= i < k ==> !Takes(cases[i], namespace)
  {
    if cases == [] || Takes(cases[0], namespace) then 0 else 1 + Place(cases[1..], namespace)
  }

  /** The cases after making sure there is one for the names. */
  function WithCase(so: SharedObject, cases: seq<Case>, names: Names): seq<Case> {
    if Place(cases, names.namespace) < |cases| then cases
    else [NewCase(so, names.namespace, names.namespace.Some? && names.gcc)] + cases
  }

  function Added(so: SharedObject, names: Names): seq<Test> {
    if Resolve(so, names).Some? then [Resolve(so, names).value] else []
  }

  function Register(c: Case, added: seq<Test>): Case {
    c.(tests := c.tests + added)
  }

  lemma PlaceWithCase(so: SharedObject, cases: seq<Case>, names: Names)
    ensures Place(WithCase(so, cases, names), names.namespace) < |WithCase(so, cases, names)|
    ensures Place(cases, names.namespace) == |cases| ==> Place(WithCase(so, cases, names), names.namespace) == 0
  {
    hide HooksOf;
  }

  function Group(so: SharedObject, cases: seq<Case>, names: Names): seq<Case> {
    PlaceWithCase(so, cases, names);
    var ready := WithCase(so, cases, names);
    var k := Place(ready, names.namespace);
    ready[k := Register(ready[k], Added(so, names))]
  }

  /** The cases after the whole list of names. */
  function Grouped(so: SharedObject, list: seq<Names>): seq<Case> {
    if list == [] then [] else Group(so, Grouped(so, list[..|list| - 1]), list[|list| - 1])
  }

  /** The cases a shared object gives; the collected names are in reverse order. */
  function LoadedCases(so: SharedObject): seq<Case> {
    Grouped(so, Reverse(Recognised(so.symbols)))
  }

  // ---------------------------------------------------------------- the loader

  class TestCase {
    const namespace: Option<string>
    const name: string
    const hooks: Hooks
    var tests: seq<Test>

    constructor (namespace: Option<string>, name: string, hooks: Hooks)
      ensures this.namespace == namespace && this.name == name && this.hooks == hooks && tests == []
    {
      this.namespace := namespace;
      this.name := name;
      this.hooks := hooks;
      tests := [];
    }

    function Value(): Case
      reads this
    {
      Case(namespace, name, hooks, tests)
    }

    method AddTest(test: Test)
      modifies this
      ensures Value() == Register(old(Value()), [test])
    {
      tests := tests + [test];
    }
  }

  function View(cases: seq<TestCase>): (v: seq<Case>)
    reads cases
    ensures |v| == |cases| && forall i :: 0 <= i < |v| ==> v[i] == cases[i].Value()
  {
    if cases == [] then [] else [cases[0].Value()] + View(cases[1..])
  }

  predicate Distinct(cases: seq<TestCase>) {
    forall i, j :: 0 <= i < j < |cases| ==> cases[i] != cases[j]
  }

  class SharedObjectLoader {
    const so: SharedObject

    constructor (so: SharedObject)
      ensures this.so == so
    {
      this.so := so;
    }

    method CollectTestFunctions() returns (testNames: seq<Names>)
      ensures testNames == Reverse(Recognised(so.symbols))
    {
      testNames := [];
      var k := 0;
      assert so.symbols[..0] == [];
      while k < |so.symbols|
        invariant k <= |so.symbols|
        invariant testNames == Reverse(Recognised(so.symbols[..k]))
      {
        CollectStep(so.symbols, k);
        var names := Detect(so.symbols[k]);
        if names.Some? {
          testNames := [names.value] + testNames;
        }
        k := k + 1;
      }
      assert so.symbols[..k] == so.symbols;
    }

    method LookUp(name: Option<string>) returns (found: Option<string>)
      ensures found == if name.Some? then Exported(so, name.value) else None
    {
      found := None;
      if name.Some? && name.value in so.exported {
        found := name;
      }
    }

    method ApplyAttributes(names: Names) returns (attributes: map<string, string>)
      ensures attributes == Attributes(so, names, |so.symbols|)
    {
      hide IsAttributeFunction, AttributeName;
      attributes := map[];
      var k := 0;
      while k < |so.symbols|
        invariant k <= |so.symbols| && attributes == Attributes(so, names, k)
      {
        var function_ := so.symbols[k];
        if IsAttributeFunction(function_, names) && function_ in so.exported {
          var name := AttributeName(function_, names);
          if name.Some? {
            attributes := attributes[name.value := function_];
          }
        }
        k := k + 1;
      }
    }

    method RegisterValidTest(testCase: TestCase, names: Names)
      modifies testCase
      ensures testCase.Value() == Register(old(testCase.Value()), Added(so, names))
    {
      hide Attributes;
      if names.functionName !in so.exported {
        return;
      }
      var data := LookUp(names.dataSetup);
      if names.requireDataSetup && data == None {
        return;
      }
      var attributes := map[];
      if so.supportsAttributes {
        attributes := ApplyAttributes(names);
      }
      testCase.AddTest(Test(names, data, attributes));
    }

    method GetHook(namespace: Option<string>, name: string, gcc: bool) returns (hook: Option<string>)
      ensures hook == Hook(so, namespace, name, gcc)
    {
      hook := LookUp(Some(Mangle(namespace, "cut_" + name, gcc)));
      if hook == None {
        hook := LookUp(Some(Mangle(namespace, name, gcc)));
      }
    }

    method CreateTestCase(namespace: Option<string>, gcc: bool) returns (testCase: TestCase)
      ensures fresh(testCase) && testCase.Value() == NewCase(so, namespace, gcc)
    {
      hide Hook;
      var setup := GetHook(namespace, "setup", gcc);
      var teardown := GetHook(namespace, "teardown", gcc);
      var startup, shutdown;
      if namespace.Some? {
        startup := GetHook(namespace, "startup", gcc);
        shutdown := GetHook(namespace, "shutdown", gcc);
      } else {
        startup := LookUp(Some("cut_startup"));
        shutdown := LookUp(Some("cut_shutdown"));
      }
      var name := if namespace.Some? then namespace.value else so.caseName;
      testCase := new TestCase(namespace, name, Hooks(setup, teardown, startup, shutdown));
    }

    /** The first case whose name is the namespace. */
    method FindCppTestCase(testCases: seq<TestCase>, namespace: string) returns (k: nat)
      ensures k == Place(View(testCases), Some(namespace))
      ensures k <= |testCases| && (k < |testCases| ==> testCases[k].name == namespace)
      ensures forall i :: 0 <= i < k ==> testCases[i].name != namespace
    {
      k := 0;
      while k < |testCases| && testCases[k].name != namespace
        invariant k <= |testCases| && forall i :: 0 <= i < k ==> testCases[i].name != namespace
      {
        k := k + 1;
      }
    }

    /** The case a test goes to, created in front of the others if there is none yet. */
    method FindOrCreate(testCases: seq<TestCase>, cTestCase: TestCase?, names: Names)
      returns (cases: seq<TestCase>, c: TestCase?, ghost at: nat, testCase: TestCase)
      requires Distinct(testCases) && IsCTestCase(cTestCase, testCases)
      ensures Distinct(cases) && forall o :: o in cases ==> o in testCases || fresh(o)
      ensures View(cases) == WithCase(so, View(testCases), names)
      ensures at == Place(View(cases), names.namespace) && at < |cases| && cases[at] == testCase
      ensures IsCTestCase(c, cases)
    {
      hide *;
      cases, c := testCases, cTestCase;
      at := Place(View(cases), names.namespace);
      CTestCaseFacts(c, cases);
      if names.namespace.Some? {
        var found := FindCppTestCase(cases, names.namespace.value);
        if found < |cases| {
          testCase := cases[found];
          Kept(so, View(cases), names);
        } else {
          testCase := CreateTestCase(names.namespace, names.gcc);
          Prepended(testCase, cases);
          Created(so, View(cases), names);
          CShifted(so, View(cases), names);
          cases := [testCase] + cases;
          at := 0;
          CTestCaseIs(c, cases, Place(View(cases), None));
        }
      } else if c == null {
        testCase := CreateTestCase(None, false);
        Prepended(testCase, cases);
        Created(so, View(cases), names);
        c, cases := testCase, [testCase] + cases;
        at := 0;
        CTestCaseIs(c, cases, at);
      } else {
        Kept(so, View(cases), names);
        testCase := c;
      }
    }

    method LoadTestCases() returns (testCases: seq<TestCase>)
      ensures Distinct(testCases) && forall c :: c in testCases ==> fresh(c)
      ensures View(testCases) == LoadedCases(so)
    {
      testCases := [];
      var testNames := CollectTestFunctions();
      var cTestCase: TestCase? := null;
      var k := 0;
      NothingGrouped(so, testNames);
      hide *;
      while k < |testNames|
        invariant k <= |testNames|
        invariant Distinct(testCases) && forall c :: c in testCases ==> fresh(c)
        invariant View(testCases) == Grouped(so, testNames[..k])
        invariant IsCTestCase(cTestCase, testCases)
      {
        ghost var before := View(testCases);
        var testCase: TestCase;
        ghost var at: nat;
        testCases, cTestCase, at, testCase := FindOrCreate(testCases, cTestCase, testNames[k]);
        ghost var ready := View(testCases);
        CTestCaseFacts(cTestCase, testCases);
        assert testCases[at] in testCases;
        RegisterValidTest(testCase, testNames[k]);
        DistinctAt(testCases, at);
        assert View(testCases) == ready[at := Register(ready[at], Added(so, testNames[k]))];
        GroupStep(so, testNames, k, before, ready, at);
        PlaceUpdated(ready, at, Added(so, testNames[k]), None);
        CTestCaseIs(cTestCase, testCases, Place(ready, None));
        k := k + 1;
      }
      PrefixWhole(testNames);
      LoadedUnfold(so);
    }
  }

  lemma PrefixWhole<T>(s: seq<T>)
    ensures s[..|s|] == s
  {
  }

  /** The remembered C test case is the one of the list, if there is one. */
  ghost predicate IsCTestCase(cTestCase: TestCase?, testCases: seq<TestCase>)
    reads testCases
  {
    var at := Place(View(testCases), None);
    cTestCase == if at < |testCases| then testCases[at] else null
  }

  lemma {:induction false} RecognisedSnoc(symbols: seq<string>, symbol: string)
    ensures Recognised(symbols + [symbol])
            == Recognised(symbols) + if Detect(symbol).Some? then [Detect(symbol).value] else []
  {
    hide Detect;
    var all := symbols + [symbol];
    var last := if Detect(symbol).Some? then [Detect(symbol).value] else [];
    if symbols == [] {
      assert all == [symbol] && all[1..] == symbols;
      assert Recognised(all) == last + Recognised(symbols);
    } else {
      assert all[1..] == symbols[1..] + [symbol] && all[0] == symbols[0];
      RecognisedSnoc(symbols[1..], symbol);
      var first := if Detect(symbols[0]).Some? then [Detect(symbols[0]).value] else [];
      assert Recognised(all) == first + Recognised(all[1..]);
      assert Recognised(symbols) == first + Recognised(symbols[1..]);
      hide *;
      Associate(first, Recognised(symbols[1..]), last);
    }
  }

  lemma CollectStep(symbols: seq<string>, k: nat)
    requires k < |symbols|
    ensures Reverse(Recognised(symbols[..k + 1]))
            == (if Detect(symbols[k]).Some? then [Detect(symbols[k]).value] else []) + Reverse(Recognised(symbols[..k]))
  {
    PrefixSnoc(symbols, k);
    RecognisedSnoc(symbols[..k], symbols[k]);
    hide *;
    var before := Recognised(symbols[..k]);
    if Detect(symbols[k]).Some? {
      ReverseSnoc(before, Detect(symbols[k]).value);
    } else {
      assert before + [] == before;
      assert [] + Reverse(before) == Reverse(before);
    }
  }

  lemma NothingGrouped(so: SharedObject, list: seq<Names>)
    ensures Grouped(so, list[..0]) == []
    ensures Distinct([]) && IsCTestCase(null, [])
  {
  }

  lemma LoadedUnfold(so: SharedObject)
    ensures LoadedCases(so) == Grouped(so, Reverse(Recognised(so.symbols)))
  {
    hide Grouped, Recognised;
  }

  lemma CTestCaseFacts(cTestCase: TestCase?, testCases: seq<TestCase>)
    requires IsCTestCase(cTestCase, testCases)
    ensures var at := Place(View(testCases), None);
            cTestCase == if at < |testCases| then testCases[at] else null
  {
  }

  lemma CTestCaseIs(cTestCase: TestCase?, testCases: seq<TestCase>, at: nat)
    requires at == Place(View(testCases), None)
    requires cTestCase == if at < |testCases| then testCases[at] else null
    ensures IsCTestCase(cTestCase, testCases)
  {
  }

  lemma CShifted(so: SharedObject, cases: seq<Case>, names: Names)
    requires names.namespace.Some? && Place(cases, names.namespace) == |cases|
    ensures Place(WithCase(so, cases, names), None) == 1 + Place(cases, None)
  {
    hide HooksOf;
    var new_ := NewCase(so, names.namespace, names.gcc);
    assert ([new_] + cases)[1..] == cases;
  }

  /** Adding tests to a case does not change where tests go. */
  lemma {:induction false} PlaceUpdated(cases: seq<Case>, k: nat, added: seq<Test>, namespace: Option<string>)
    requires k < |cases|
    ensures Place(cases[k := Register(cases[k], added)], namespace) == Place(cases, namespace)
  {
    var cases' := cases[k := Register(cases[k], added)];
    if k == 0 {
      assert cases'[1..] == cases[1..];
    } else {
      assert cases'[1..] == cases[1..][k - 1 := Register(cases[1..][k - 1], added)];
      PlaceUpdated(cases[1..], k - 1, added, namespace);
    }
  }

  lemma GroupStep(so: SharedObject, list: seq<Names>, k: nat, before: seq<Case>, ready: seq<Case>, at: nat)
    requires k < |list| && before == Grouped(so, list[..k])
    requires ready == WithCase(so, before, list[k]) && at < |ready| && at == Place(ready, list[k].namespace)
    ensures Grouped(so, list[..k + 1]) == ready[at := Register(ready[at], Added(so, list[k]))]
  {
    hide WithCase, Place, Added, Register;
    assert list[..k + 1][..k] == list[..k];
  }

  lemma DistinctPrepend(c: TestCase, cases: seq<TestCase>)
    requires c !in cases && Distinct(cases)
    ensures Distinct([c] + cases)
  {
  }

  lemma DistinctAt(cases: seq<TestCase>, k: nat)
    requires Distinct(cases) && k < |cases|
    ensures forall i :: 0 <= i < |cases| && i != k ==> cases[i] != cases[k]
  {
  }

  lemma Kept(so: SharedObject, cases: seq<Case>, names: Names)
    requires Place(cases, names.namespace) < |cases|
    ensures WithCase(so, cases, names) == cases
  {
    hide Place;
  }

  lemma Created(so: SharedObject, cases: seq<Case>, names: Names)
    requires Place(cases, names.namespace) == |cases|
    ensures WithCase(so, cases, names) == [NewCase(so, names.namespace, names.namespace.Some? && names.gcc)] + cases
    ensures Place(WithCase(so, cases, names), names.namespace) == 0
  {
    PlaceWithCase(so, cases, names);
    hide Place, NewCase;
  }

  lemma Prepended(c: TestCase, cases: seq<TestCase>)
    requires c !in cases && Distinct(cases)
    ensures Distinct([c] + cases) && View([c] + cases) == [c.Value()] + View(cases)
  {
    assert ([c] + cases)[1..] == cases;
    hide *;
    assert forall i :: 0 < i < |[c] + cases| ==> ([c] + cases)[i] == cases[i - 1];
    DistinctPrepend(c, cases);
  }

  // ---------------------------------------------------------------- attributes

  /** The function gives the attribute to the test: it is one of its attribute functions and can be looked up. */
  predicate Gives(so: SharedObject, names: Names, function_: string, attribute: string) {
    && IsAttributeFunction(function_, names) && function_ in so.exported
    && AttributeName(function_, names) == Some(attribute)
  }

  /** An attribute is given by the last function, in the order of the symbols, that gives it. */
  lemma {:induction false} LastGives(so: SharedObject, names: Names, attribute: string, k: nat, i: nat)
    requires k <= |so.symbols| && i < k && Gives(so, names, so.symbols[i], attribute)
    requires forall j :: i < j < k ==> !Gives(so, names, so.symbols[j], attribute)
    ensures attribute in Attributes(so, names, k) && Attributes(so, names, k)[attribute] == so.symbols[i]
    decreases k
  {
    hide IsAttributeFunction, AttributeName;
    if i < k - 1 {
      LastGives(so, names, attribute, k - 1, i);
      assert !Gives(so, names, so.symbols[k - 1], attribute);
    }
  }

  /** A test has no attribute that no function gives it. */
  lemma {:induction false} NoneGives(so: SharedObject, names: Names, attribute: string, k: nat)
    requires k <= |so.symbols| && forall j :: 0 <= j < k ==> !Gives(so, names, so.symbols[j], attribute)
    ensures attribute !in Attributes(so, names, k)
    decreases k
  {
    hide IsAttributeFunction, AttributeName;
    if k > 0 {
      NoneGives(so, names, attribute, k - 1);
      assert !Gives(so, names, so.symbols[k - 1], attribute);
    }
  }

  // ---------------------------------------------------------------- conservation

  function AllTests(cases: seq<Case>): seq<Test> {
    if cases == [] then [] else cases[0].tests + AllTests(cases[1..])
  }

  /** The tests of the names that resolve. */
  function Resolved(so: SharedObject, list: seq<Names>): seq<Test> {
    if list == [] then [] else Added(so, list[0]) + Resolved(so, list[1..])
  }

  /** Adding tests to one case adds them to all. */
  lemma {:induction false} AllTestsAdded(cases: seq<Case>, k: nat, added: seq<Test>)
    requires k < |cases|
    ensures multiset(AllTests(cases[k := Register(cases[k], added)])) == multiset(AllTests(cases)) + multiset(added)
  {
    var c, more := cases[0], cases[1..];
    var cases' := cases[k := Register(cases[k], added)];
    if k == 0 {
      assert cases'[1..] == more;
    } else {
      assert cases'[1..] == more[k - 1 := Register(more[k - 1], added)] && cases'[0] == c;
      AllTestsAdded(more, k - 1, added);
    }
  }

  lemma AllTestsWithCase(so: SharedObject, cases: seq<Case>, names: Names)
    ensures AllTests(WithCase(so, cases, names)) == AllTests(cases)
  {
    hide HooksOf, Place;
    var new_ := NewCase(so, names.namespace, names.namespace.Some? && names.gcc);
    assert ([new_] + cases)[1..] == cases && AllTests([new_] + cases) == [] + AllTests(cases);
  }

  lemma {:induction false} ResolvedSnoc(so: SharedObject, list: seq<Names>, names: Names)
    ensures Resolved(so, list + [names]) == Resolved(so, list) + Added(so, names)
  {
    hide Added;
    if list == [] {
      assert list + [names] == [names] && [names][1..] == list;
      assert Resolved(so, [names]) == Added(so, names) + [];
    } else {
      assert (list + [names])[1..] == list[1..] + [names] && (list + [names])[0] == list[0];
      ResolvedSnoc(so, list[1..], names);
      hide *;
      Associate(Added(so, list[0]), Resolved(so, list[1..]), Added(so, names));
    }
  }

  lemma GroupConserves(so: SharedObject, cases: seq<Case>, names: Names)
    ensures multiset(AllTests(Group(so, cases, names))) == multiset(AllTests(cases)) + multiset(Added(so, names))
  {
    PlaceWithCase(so, cases, names);
    AllTestsWithCase(so, cases, names);
    var ready := WithCase(so, cases, names);
    AllTestsAdded(ready, Place(ready, names.namespace), Added(so, names));
    hide WithCase, Place, Added, AllTests, Register;
  }

  lemma GroupedUnfold(so: SharedObject, list: seq<Names>)
    ensures list == [] ==> AllTests(Grouped(so, list)) == [] && Resolved(so, list) == []
    ensures list != [] ==>
              var init, last := list[..|list| - 1], list[|list| - 1];
              list == init + [last] && Grouped(so, list) == Group(so, Grouped(so, init), last)
  {
    hide Group;
  }

  /** Grouping a list registers the test of every resolvable name once, and no other test. */
  lemma {:induction false} GroupedConserves(so: SharedObject, list: seq<Names>)
    ensures multiset(AllTests(Grouped(so, list))) == multiset(Resolved(so, list))
  {
    hide *;
    GroupedUnfold(so, list);
    if list != [] {
      var init, last := list[..|list| - 1], list[|list| - 1];
      GroupedConserves(so, init);
      GroupConserves(so, Grouped(so, init), last);
      ResolvedSnoc(so, init, last);
    }
  }

  lemma {:induction false} ResolvedReverse(so: SharedObject, list: seq<Names>)
    ensures multiset(Resolved(so, Reverse(list))) == multiset(Resolved(so, list))
  {
    hide Added;
    if list != [] {
      ResolvedReverse(so, list[1..]);
      ResolvedSnoc(so, Reverse(list[1..]), list[0]);
    }
  }

  /** A shared object's tests are the resolvable recognised symbols, each registered exactly once. */
  lemma LoadedConserves(so: SharedObject)
    ensures multiset(AllTests(LoadedCases(so))) == multiset(Resolved(so, Recognised(so.symbols)))
  {
    GroupedConserves(so, Reverse(Recognised(so.symbols)));
    ResolvedReverse(so, Recognised(so.symbols));
    LoadedUnfold(so);
    hide *;
  }

  // ---------------------------------------------------------------- placement

  /** The tests of a case belong there: by name if they have a namespace, else in the case of the C tests. */
  ghost predicate Placed(c: Case) {
    && (forall t :: t in c.tests ==>
          match t.names.namespace
          case Some(ns) => c.name == ns
          case None => c.namespace == None)
    && (c.namespace.Some? ==> c.name == c.namespace.value)
  }

  ghost predicate WellGrouped(cases: seq<Case>) {
    && (forall c :: c in cases ==> Placed(c))
    && (forall i, j :: 0 <= i < j < |cases| ==> cases[i].namespace != cases[j].namespace)
  }

  lemma AddedNames(so: SharedObject, names: Names)
    ensures forall t :: t in Added(so, names) ==> t.names == names
  {
    hide Attributes;
  }

  lemma WithCaseWellGrouped(so: SharedObject, cases: seq<Case>, names: Names)
    requires WellGrouped(cases)
    ensures WellGrouped(WithCase(so, cases, names))
  {
    hide HooksOf;
    if Place(cases, names.namespace) == |cases| {
      var new_ := NewCase(so, names.namespace, names.namespace.Some? && names.gcc);
      assert Placed(new_);
      forall i | 0 <= i < |cases|
        ensures cases[i].namespace != new_.namespace
      {
        assert !Takes(cases[i], names.namespace) && cases[i] in cases && Placed(cases[i]);
      }
    }
  }

  lemma RegisterWellGrouped(cases: seq<Case>, k: nat, added: seq<Test>)
    requires WellGrouped(cases) && k < |cases|
    requires forall t :: t in added ==> Takes(cases[k], t.names.namespace)
    ensures WellGrouped(cases[k := Register(cases[k], added)])
  {
    assert cases[k] in cases && Placed(cases[k]);
    assert Placed(Register(cases[k], added));
  }

  /**
   Cases created for namespaces have pairwise different names, there is at most one case for C
   tests, and every test is in a case that takes it, after any list of names.
   */
  lemma {:induction false} GroupedWell(so: SharedObject, list: seq<Names>)
    ensures WellGrouped(Grouped(so, list))
  {
    if list != [] {
      var init, last := list[..|list| - 1], list[|list| - 1];
      GroupedWell(so, init);
      var before := Grouped(so, init);
      var ready := WithCase(so, before, last);
      WithCaseWellGrouped(so, before, last);
      PlaceWithCase(so, before, last);
      AddedNames(so, last);
      RegisterWellGrouped(ready, Place(ready, last.namespace), Added(so, last));
      hide WithCase, Place, Added, Register, WellGrouped;
    }
  }

  /** No case is created without a recognised symbol for it. */
  lemma {:induction false} GroupedFor(so: SharedObject, list: seq<Names>)
    ensures forall c :: c in Grouped(so, list) ==> exists n :: n in list && n.namespace == c.namespace
  {
    if list != [] {
      var init, last := list[..|list| - 1], list[|list| - 1];
      GroupedFor(so, init);
      var before := Grouped(so, init);
      var ready := WithCase(so, before, last);
      PlaceWithCase(so, before, last);
      var k := Place(ready, last.namespace);
      forall c | c in Grouped(so, list)
        ensures exists n :: n in list && n.namespace == c.namespace
      {
        CaseOrigin(so, before, last, c);
        if c.namespace == last.namespace {
          assert last in list;
        } else {
          var b :| b in before && b.namespace == c.namespace;
          var n :| n in init && n.namespace == b.namespace;
          assert n in list;
        }
      }
    }
  }

  lemma CaseOrigin(so: SharedObject, before: seq<Case>, names: Names, c: Case)
    requires c in Group(so, before, names)
    ensures c.namespace == names.namespace || exists b :: b in before && b.namespace == c.namespace
  {
    PlaceWithCase(so, before, names);
    hide HooksOf, Added, Place;
    var ready := WithCase(so, before, names);
    var i :| 0 <= i < |ready| && Group(so, before, names)[i] == c;
    assert ready[i].namespace == c.namespace;
    if ready == before {
      assert ready[i] in before;
    } else if i > 0 {
      assert ready[i] == before[i - 1] && before[i - 1] in before;
    }
  }

  /** What the cases of a shared object are: placed, distinct, and none without a symbol. */
  lemma LoadedWell(so: SharedObject)
    ensures WellGrouped(LoadedCases(so))
    ensures forall c :: c in LoadedCases(so) ==>
              exists n :: n in Reverse(Recognised(so.symbols)) && n.namespace == c.namespace
  {
    GroupedWell(so, Reverse(Recognised(so.symbols)));
    GroupedFor(so, Reverse(Recognised(so.symbols)));
    LoadedUnfold(so);
    hide *;
  }
}
