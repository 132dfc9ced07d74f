/** Recognising test functions and their attribute functions by name (cut-loader.c). */
module TestNames {
  import opened Seqs
  import opened SymbolNames
  import opened Decimal
  import opened Wrappers
  import MangleGcc
  import MangleVcc

  // ---------------------------------------------------------------- test functions

  /** detect_test_function_symbol_names: plain C names first, then the two C++ forms. */
  function Detect(name: string): Option<Names> {
    if IsTestName(name) then
      Some(Names(None, name, name, Some(DATA_PREFIX + name[|TEST_PREFIX|..]), false, false, false))
    else if "_Z" <= name then MangleGcc.Detect(name)
    else if "?" <= name then MangleVcc.Detect(name)
    else None
  }

  /** mangle */
  function Mangle(namespace: Option<string>, function_: string, gcc: bool): string {
    if gcc then MangleGcc.MangleGcc(namespace, function_) else MangleVcc.MangleVcc(namespace, function_)
  }

  /** The three forms of symbol are told apart, so each printed test is recognised as itself. */
  lemma DetectMangled(namespace: Option<string>, name: string, gcc: bool)
    requires MangleVcc.PlainName(name) && |name| < TWO_TO_THE_64
    requires namespace.Some? && gcc ==> MangleGcc.GoodNamespace(namespace.value)
    requires namespace.Some? && !gcc ==>
               MangleVcc.AtFree(namespace.value) && "" !in Components(namespace.value)
    ensures var names := Detect(Mangle(namespace, name, gcc));
            && names.Some? && names.value.namespace == namespace
            && names.value.functionName == Mangle(namespace, name, gcc)
            && (namespace == None ==> names.value.dataSetup == Some("data_" + name[5..]))
            && names.value.testName == (if namespace.Some? then Qualified(namespace.value, name) else name)
            && !names.value.requireDataSetup
  {
    if namespace.Some? && gcc {
      DetectGcc(namespace.value, name);
    } else if namespace.Some? {
      DetectVcc(namespace.value, name);
    }
    hide Detect, Components, Qualified, MangleGcc.Mangled, MangleVcc.Mangled, MangleVcc.AtFree;
    if namespace == None {
      DetectPlain(name);
    }
  }

  lemma DetectPlain(name: string)
    requires IsTestName(name)
    ensures var data := DATA_PREFIX + name[|TEST_PREFIX|..];
            Detect(name) == Some(Names(None, name, name, Some(data), false, false, false))
  {
  }

  lemma DetectGcc(ns: string, name: string)
    requires MangleGcc.GoodNamespace(ns) && IsTestName(name) && |name| < TWO_TO_THE_64
    ensures var symbol := MangleGcc.MangleGcc(Some(ns), name);
            Detect(symbol) == Some(Names(Some(ns), Qualified(ns, name), symbol, None, false, true, true))
  {
    MangleGcc.RoundTrip(ns, name);
    GccStart(ns, name);
    hide MangleGcc.Detect, MangleGcc.MangleGcc, Qualified;
    assert TEST_PREFIX[0] == 't';
  }

  lemma DetectVcc(ns: string, name: string)
    requires MangleVcc.PlainName(name) && MangleVcc.AtFree(ns) && "" !in Components(ns)
    ensures var symbol := MangleVcc.MangleVcc(Some(ns), name);
            var names := Detect(symbol);
            && names.Some? && names.value.namespace == Some(ns) && names.value.functionName == symbol
            && names.value.testName == Qualified(ns, name) && !names.value.requireDataSetup
  {
    if ns != "" {
      MangleVcc.ComponentsAtFree(ns);
    }
    MangleVcc.RecoversPrintable(ns, name, MangleVcc.NO_PARAMETER);
    VccStart(ns, name);
    hide MangleVcc.Detect, MangleVcc.MangleVcc, MangleVcc.Mangled, MangleVcc.TakesData, Components, Qualified;
    assert TEST_PREFIX[0] == 't';
  }

  lemma GccStart(ns: string, name: string)
    ensures var symbol := MangleGcc.MangleGcc(Some(ns), name);
            symbol != "" && symbol[0] == '_' && "_Z" <= symbol
  {
    var pre := "_ZN" + MangleGcc.SourceNames(Components(ns));
    assert pre[..2] == "_Z";
    hide MangleGcc.SourceNames, MangleGcc.SourceName, Components;
    var symbol := MangleGcc.MangleGcc(Some(ns), name);
    assert symbol[..2] == pre[..2];
  }

  lemma VccStart(ns: string, name: string)
    ensures var symbol := MangleVcc.MangleVcc(Some(ns), name);
            symbol != "" && symbol[0] == '?' && "?" <= symbol && !("_Z" <= symbol)
    ensures MangleVcc.MangleVcc(Some(ns), name) == MangleVcc.Mangled(Components(ns), name, MangleVcc.NO_PARAMETER)
    ensures MangleVcc.TakesData(MangleVcc.NO_PARAMETER) == false
  {
    hide Components, MangleVcc.ReversedNames;
    var symbol := MangleVcc.MangleVcc(Some(ns), name);
    assert symbol[..1] == "?";
    assert MangleVcc.DATA_PARAMETER[3] == MangleVcc.CONST_DATA_PARAMETER[3] == 'P' != MangleVcc.NO_PARAMETER[3];
  }

  /** A symbol is a test only in one of the three forms, by its beginning and its end. */
  lemma DetectShapes(name: string)
    requires Detect(name).Some?
    ensures || "test_" <= name
            || ("_Z" <= name && (EndsWith(name, "Ev") || EndsWith(name, "EPv") || EndsWith(name, "EPKv")))
            || ("?test_" <= name && (EndsWith(name, "@@YAXXZ") || EndsWith(name, "@@YAXPAX@Z")
                                     || EndsWith(name, "@@YAXPBX@Z")))
    ensures Detect(name).value.namespace == None <==> "test_" <= name
  {
    if "test_" <= name {
    } else if "_Z" <= name {
      GccShape(name);
    } else {
      VccShape(name);
    }
  }

  lemma GccShape(name: string)
    requires MangleGcc.Detect(name).Some?
    ensures EndsWith(name, "Ev") || EndsWith(name, "EPv") || EndsWith(name, "EPKv")
    ensures MangleGcc.Detect(name).value.namespace.Some?
  {
    hide MangleGcc.FindTestName, MangleGcc.WithoutLastSeparator, MangleGcc.DropPrefix;
  }

  /** What is left behind the names is the end of the text, behind "@@". */
  lemma {:induction false} ScanRest(text: string, testName: string)
    requires var r := MangleVcc.ScanNamespaces(text, testName); r != MangleVcc.NotNames && r.rest != ""
    ensures EndsWith(text, "@@" + MangleVcc.ScanNamespaces(text, testName).rest)
    decreases |text|
  {
    hide EndsWith;
    MangleVcc.ScanUnfold(text, testName);
    hide MangleVcc.ScanNamespaces, MangleVcc.FirstAt;
    var r := MangleVcc.ScanNamespaces(text, testName);
    if text[1..] != "" && text[1..][0] == '@' {
      assert text == "@@" + text[2..];
      SuffixOf("", text);
      assert "" + text == text;
    } else {
      var namespace := text[1..];
      var length := MangleVcc.FirstAt(namespace);
      ScanRest(namespace[length..], namespace[..length] + ("::" + testName));
      assert text == text[..1 + length] + namespace[length..];
      SuffixKept(text[..1 + length], namespace[length..], "@@" + r.rest);
    }
  }

  lemma SuffixOf(head: string, tail: string)
    ensures EndsWith(head + tail, tail)
  {
  }

  lemma SuffixKept(head: string, s: string, tail: string)
    requires EndsWith(s, tail)
    ensures EndsWith(head + s, tail)
  {
    assert (head + s)[|head + s| - |tail|..] == s[|s| - |tail|..];
  }

  lemma VccShape(name: string)
    requires name != "" && MangleVcc.Detect(name).Some? && "?" <= name
    ensures "?test_" <= name
    ensures EndsWith(name, "@@YAXXZ") || EndsWith(name, "@@YAXPAX@Z") || EndsWith(name, "@@YAXPBX@Z")
    ensures MangleVcc.Detect(name).value.namespace.Some?
  {
    hide *;
    VccParts(name);
    var start := name[1..];
    var length := MangleVcc.FirstAt(start);
    var scanned := MangleVcc.ScanNamespaces(start[length..], start[..length]);
    ScanRest(start[length..], start[..length]);
    JoinParts(name, 1 + length);
    SuffixKept(name[..1 + length], start[length..], "@@" + scanned.rest);
    SignatureEnds(name, scanned.rest);
    QuestionTest(name);
  }

  lemma SignatureEnds(name: string, rest: string)
    requires EndsWith(name, "@@" + rest) && rest in {"YAXXZ", "YAXPAX@Z", "YAXPBX@Z"}
    ensures EndsWith(name, "@@YAXXZ") || EndsWith(name, "@@YAXPAX@Z") || EndsWith(name, "@@YAXPBX@Z")
  {
    hide EndsWith;
    if rest == "YAXXZ" {
      assert "@@" + "YAXXZ" == "@@YAXXZ";
    } else if rest == "YAXPAX@Z" {
      assert "@@" + "YAXPAX@Z" == "@@YAXPAX@Z";
    } else {
      assert "@@" + "YAXPBX@Z" == "@@YAXPBX@Z";
    }
  }

  lemma JoinParts(s: string, k: nat)
    requires 0 < k <= |s|
    ensures s == s[..k] + s[1..][k - 1..]
  {
  }

  lemma QuestionTest(name: string)
    requires name != "" && "?" <= name && "test_" <= name[1..]
    ensures "?test_" <= name
  {
    assert name[0] == '?' && name[1..][..5] == "test_" && name[1..][..5] == name[1..6];
    assert name[..6] == [name[0]] + name[1..6];
    assert ['?'] + "test_" == "?test_";
  }

  lemma VccParts(name: string)
    requires name != "" && MangleVcc.Detect(name).Some?
    ensures var start := name[1..];
            var length := MangleVcc.FirstAt(start);
            && length <= |start| && "test_" <= start
            && var scanned := MangleVcc.ScanNamespaces(start[length..], start[..length]);
            && scanned != MangleVcc.NotNames && scanned.rest in {"YAXXZ", "YAXPAX@Z", "YAXPBX@Z"}
    ensures MangleVcc.Detect(name).value.namespace.Some?
  {
    hide MangleVcc.FirstAt, MangleVcc.ScanNamespaces, MangleVcc.LastSeparator;
  }

  /** The symbols printed for a function, spelled out. */
  lemma SymbolExamples()
    ensures Mangle(None, "test_a", true) == Mangle(None, "test_a", false) == "test_a"
    ensures Mangle(Some("cut"), "test_a", true) == "_ZN3cut6test_aEv"
    ensures Mangle(Some("cut"), "test_a", false) == "?test_a@cut@@YAXXZ"
  {
    hide *;
    PlainExample();
    GccExample();
    VccExample();
  }

  lemma PlainExample()
    ensures Mangle(None, "test_a", true) == Mangle(None, "test_a", false) == "test_a"
  {
  }

  lemma GccExample()
    ensures Mangle(Some("cut"), "test_a", true) == "_ZN3cut6test_aEv"
  {
    OneComponent("cut");
    hide Components;
    GccParts();
    var names := MangleGcc.SourceNames(["cut"]);
    assert Mangle(Some("cut"), "test_a", true) == MangleGcc.MangleGcc(Some("cut"), "test_a");
    MangleGcc.MangleIsMangled("cut", "test_a");
    assert MangleGcc.Mangled(["cut"], "test_a", "Ev") == "_ZN" + names + MangleGcc.SourceName("test_a") + "Ev";
    hide *;
    assert "_ZN" + "3cut" + "6test_a" + "Ev" == "_ZN3cut6test_aEv";
  }

  lemma GccParts()
    ensures MangleGcc.SourceNames(["cut"]) == "3cut" && MangleGcc.SourceName("test_a") == "6test_a"
  {
    assert Numeral(3) == "3" && Numeral(6) == "6";
    hide Numeral;
    assert ["cut"][1..] == [] && MangleGcc.SourceNames([]) == "";
    assert MangleGcc.SourceName("cut") == "3" + "cut" == "3cut" && MangleGcc.SourceName("test_a") == "6" + "test_a";
    assert MangleGcc.SourceNames(["cut"]) == MangleGcc.SourceName("cut") + "";
  }

  lemma VccExample()
    ensures Mangle(Some("cut"), "test_a", false) == "?test_a@cut@@YAXXZ"
  {
    OneComponent("cut");
    hide Components;
    VccNames();
    var names := MangleVcc.ReversedNames(["cut"]);
    assert Mangle(Some("cut"), "test_a", false) == "?" + ("test_a" + ("@" + (names + ("@" + "YAXXZ"))));
    hide *;
    assert "?" + ("test_a" + ("@" + ("cut@" + ("@" + "YAXXZ")))) == "?test_a@cut@@YAXXZ";
  }

  lemma VccNames()
    ensures MangleVcc.ReversedNames(["cut"]) == "cut@"
  {
    assert ["cut"][1..] == [] && MangleVcc.ReversedNames([]) == "";
    assert MangleVcc.ReversedNames(["cut"]) == "" + ("cut" + "@");
    assert "" + ("cut" + "@") == "cut@";
  }

  lemma OneComponent(name: string)
    requires name != "" && ':' !in name
    ensures Components(name) == [name]
  {
    FirstSeparatorNone(name);
    hide FirstSeparator;
  }

  // ---------------------------------------------------------------- attribute functions

  const ATTRIBUTES_PREFIX := "attributes_"

  function BareName(names: Names): string {
    MangleGcc.DropPrefix(names.testName)
  }

  function GccNamespaces(symbol: string): string {
    match MangleGcc.SkipNamespace(symbol)
    case NotMangled => ""
    case Skipped(_, namespaces) => namespaces
  }

  predicate IsIncludingTestName(function_: string, names: Names) {
    if names.cpp then
      match MangleGcc.SkipNamespace(function_)
      case NotMangled => false
      case Skipped(at, namespaces) =>
        && namespaces == GccNamespaces(names.functionName)
        && StrToULL(function_, at).value != 0
        && EndsWith(function_[StrToULL(function_, at).end..], "_" + BareName(names) + "Ev")
    else
      EndsWith(function_, "_" + BareName(names))
  }

  predicate IsReserved(name: string) {
    TEST_PREFIX <= name || ATTRIBUTES_PREFIX <= name || DATA_PREFIX <= name
  }

  /** is_valid_attribute_function_name */
  predicate IsAttributeFunction(function_: string, names: Names) {
    if names.cpp then
      var found := MangleGcc.FindTestName(function_);
      found.Found? && !IsReserved(function_[found.start..]) && IsIncludingTestName(function_, names)
    else
      !IsReserved(function_) && IsIncludingTestName(function_, names)
  }

  /** g_strrstr */
  function LastOccurrence(s: string, part: string): (k: Option<nat>)
    ensures k.Some? ==> k.value + |part| <= |s| && s[k.value..k.value + |part|] == part
  {
    if part == "" then Some(0)
    else if |part| > |s| then None
    else if s[|s| - |part|..] == part then Some(|s| - |part|)
    else
      var k := LastOccurrence(s[..|s| - 1], part);
      assert k.Some? ==> s[k.value..k.value + |part|] == s[..|s| - 1][k.value..k.value + |part|];
      k
  }

  /** get_attribute_name for a C function: the text before "_" and the name of the test. */
  function AttributeName(function_: string, names: Names): Option<string> {
    match LastOccurrence(function_, BareName(names))
    case None => None
    case Some(k) => if k == 0 then None else Some(function_[..k - 1])
  }

  /**
   Which functions give attributes: `function_` sets the attribute `attribute` exactly if the test is
   a C function with a name after its prefix, `function_` is the attribute, "_" and the bare test
   name, and it is no test, data or attributes function. A C++ test never has any.
   */
  lemma AttributeFunctionIff(function_: string, names: Names, attribute: string)
    ensures IsAttributeFunction(function_, names) && AttributeName(function_, names) == Some(attribute)
            <==> && !names.cpp && BareName(names) != "" && function_ == attribute + "_" + BareName(names)
                 && !("test_" <= function_) && !("attributes_" <= function_) && !("data_" <= function_)
  {
    hide MangleGcc.SkipNamespace, IsIncludingTestName;
    var bare := BareName(names);
    if !names.cpp && bare != "" {
      PlainIncludes(function_, names);
      SuffixParts(function_, attribute, bare);
    }
  }

  lemma PlainIncludes(function_: string, names: Names)
    requires !names.cpp
    ensures IsIncludingTestName(function_, names) <==> EndsWith(function_, "_" + BareName(names))
  {
  }

  lemma SuffixParts(s: string, attribute: string, bare: string)
    requires bare != ""
    ensures EndsWith(s, "_" + bare) ==>
              && |bare| < |s| && LastOccurrence(s, bare) == Some(|s| - |bare|)
              && s == s[..|s| - |bare| - 1] + "_" + bare
    ensures s == attribute + "_" + bare ==> EndsWith(s, "_" + bare) && attribute == s[..|s| - |bare| - 1]
  {
    if EndsWith(s, "_" + bare) {
      SuffixCut(s, bare);
    }
    if s == attribute + "_" + bare {
      JoinedEnds(attribute, bare);
    }
  }

  lemma SuffixCut(s: string, bare: string)
    requires bare != "" && EndsWith(s, "_" + bare)
    ensures |bare| < |s| && LastOccurrence(s, bare) == Some(|s| - |bare|)
    ensures s == s[..|s| - |bare| - 1] + "_" + bare
  {
    var k := |s| - |bare| - 1;
    var tail := s[k..];
    assert tail == "_" + bare;
    assert s[k + 1..] == tail[1..] == bare;
    hide *;
    assert s == s[..k] + tail;
    assert s[..k] + ("_" + bare) == s[..k] + "_" + bare;
  }

  lemma JoinedEnds(attribute: string, bare: string)
    ensures var s := attribute + "_" + bare;
            EndsWith(s, "_" + bare) && attribute == s[..|s| - |bare| - 1]
  {
    var s := attribute + "_" + bare;
    assert s == attribute + ("_" + bare);
    assert s[|attribute|..] == "_" + bare;
  }
}
