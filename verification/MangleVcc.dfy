/**
 Printing and recognising Visual C++ symbols of namespaced functions (cut-loader.c): the components
 of the namespace are printed in reverse order and put back in order when they are recognised.
 */
module MangleVcc {
  import opened Seqs
  import opened SymbolNames
  import opened Wrappers

  // ---------------------------------------------------------------- the printer

  /** The components, last one first, each followed by "@". */
  function ReversedNames(cs: seq<string>): string {
    if cs == [] then "" else ReversedNames(cs[1..]) + (cs[0] + "@")
  }

  const NO_PARAMETER := "YAXXZ"
  const DATA_PARAMETER := "YAXPAX@Z"
  const CONST_DATA_PARAMETER := "YAXPBX@Z"

  function Mangled(cs: seq<string>, function_: string, signature: string): string {
    "?" + (function_ + ("@" + (ReversedNames(cs) + ("@" + signature))))
  }

  /** mangle_vcc; a function outside any C++ namespace keeps its name. */
  function MangleVcc(namespace: Option<string>, function_: string): string {
    match namespace
    case None => function_
    case Some(ns) => Mangled(Components(ns), function_, NO_PARAMETER)
  }

  lemma {:induction false} ReversedNamesSnoc(cs: seq<string>, c: string)
    ensures ReversedNames(cs + [c]) == c + "@" + ReversedNames(cs)
  {
    if cs == [] {
      assert cs + [c] == [c] && [c][1..] == cs;
    } else {
      assert (cs + [c])[1..] == cs[1..] + [c] && (cs + [c])[0] == cs[0];
      ReversedNamesSnoc(cs[1..], c);
      hide *;
      var more := ReversedNames(cs[1..]);
      Associate(c + "@", more, cs[0] + "@");
    }
  }

  method Mangle(namespace: Option<string>, function_: string) returns (symbol: string)
    ensures symbol == MangleVcc(namespace, function_)
  {
    if namespace == None {
      return function_;
    }
    var buffer := "@" + NO_PARAMETER;
    var components := Components(namespace.value);
    var k := 0;
    assert components[..0] == [] && ReversedNames([]) == "";
    EmptyHead(buffer);
    while k < |components|
      invariant k <= |components|
      invariant buffer == ReversedNames(components[..k]) + ("@" + NO_PARAMETER)
    {
      PrependName(components, k);
      buffer := "@" + buffer;
      buffer := components[k] + buffer;
      k := k + 1;
    }
    assert components[..k] == components;
    buffer := "@" + buffer;
    buffer := function_ + buffer;
    buffer := "?" + buffer;
    symbol := buffer;
  }

  lemma PrependName(cs: seq<string>, k: nat)
    requires k < |cs|
    ensures ReversedNames(cs[..k + 1]) + ("@" + NO_PARAMETER)
            == cs[k] + ("@" + (ReversedNames(cs[..k]) + ("@" + NO_PARAMETER)))
  {
    ReversedNamesSnoc(cs[..k], cs[k]);
    PrefixSnoc(cs, k);
    hide *;
    Associate(cs[k], "@", ReversedNames(cs[..k]));
    Associate(cs[k], "@" + ReversedNames(cs[..k]), "@" + NO_PARAMETER);
    Associate("@", ReversedNames(cs[..k]), "@" + NO_PARAMETER);
  }

  // ---------------------------------------------------------------- the recogniser

  /** The position of the first '@', or the length. */
  function FirstAt(s: string): (k: nat)
    ensures k <= |s| && (k < |s| ==> s[k] == '@')
    ensures '@' !in s[..k]
  {
    if s == "" || s[0] == '@' then 0
    else
      var k := 1 + FirstAt(s[1..]);
      assert s[..k] == [s[0]] + s[1..][..k - 1];
      k
  }

  /** What is left after the namespaces, and the qualified name collected. */
  datatype Scanned = NotNames | Scanned(rest: string, testName: string)

  /** The loop over "@NAMESPACE" parts; the text runs to the end of the symbol. */
  function ScanNamespaces(text: string, testName: string): Scanned
    decreases |text|
  {
    if text == "" then Scanned("", testName)
    else if text[0] != '@' then NotNames
    else if text[1..] != "" && text[1] == '@' then Scanned(text[2..], testName)
    else
      var namespace := text[1..];
      var length := FirstAt(namespace);
      ScanNamespaces(namespace[length..], namespace[..length] + ("::" + testName))
  }

  /** g_strrstr(s, "::") */
  function LastSeparator(s: string): (k: Option<nat>)
    ensures k.Some? ==> SeparatorAt(s, k.value)
  {
    if |s| < 2 then None
    else if SeparatorAt(s, |s| - 2) then Some(|s| - 2)
    else LastSeparator(s[..|s| - 1])
  }

  predicate TakesData(signature: string) {
    signature == DATA_PARAMETER || signature == CONST_DATA_PARAMETER
  }

  /**
   What is made of the parts found. The data setup name is the C string that the pointer
   differences of the original leave: the whole symbol, the prefix, and the text after "test_".
   */
  function Recognised(symbol: string, start: string, scanned: Scanned): Option<Names>
    requires scanned != NotNames && IsTestName(start)
  {
    if scanned.rest != NO_PARAMETER && !TakesData(scanned.rest) then None else
    var last := LastSeparator(scanned.testName);
    var namespace := if last == None then "" else scanned.testName[..last.value];
    var takesData := TakesData(scanned.rest);
    Some(Names(Some(namespace), scanned.testName, symbol,
               if takesData then Some(symbol + DATA_PREFIX + start[|TEST_PREFIX|..]) else None,
               takesData, true, false))
  }

  /** detect_cpp_test_function_symbol_names_vcc */
  function Detect(symbol: string): Option<Names>
    requires symbol != ""
  {
    var start := symbol[1..];
    var length := FirstAt(start);
    if !IsTestName(start) || length == |start| then None else
    var scanned := ScanNamespaces(start[length..], start[..length]);
    if scanned == NotNames then None else Recognised(symbol, start, scanned)
  }

  method DetectSymbol(symbol: string) returns (names: Option<Names>)
    requires symbol != ""
    ensures names == Detect(symbol)
  {
    DetectUnfold(symbol);
    hide *;
    var start := symbol[1..];
    if !IsTestName(start) {
      return None;
    }
    var length := FindAt(start);
    if length == |start| {
      return None;
    }
    var testName, name := start[..length], start[length..];
    var scanned := ScanParts(name, testName);
    if scanned == NotNames {
      return None;
    }
    names := Recognised(symbol, start, scanned);
  }

  lemma DetectUnfold(symbol: string)
    requires symbol != ""
    ensures var start := symbol[1..];
            var length := FirstAt(start);
            && length <= |start|
            && Detect(symbol) ==
               if !IsTestName(start) || length == |start| then None
               else if ScanNamespaces(start[length..], start[..length]) == NotNames then None
               else Recognised(symbol, start, ScanNamespaces(start[length..], start[..length]))
  {
    hide ScanNamespaces, Recognised, FirstAt;
  }

  method FindAt(s: string) returns (length: nat)
    ensures length == FirstAt(s)
  {
    length := 0;
    while length < |s| && s[length] != '@'
      invariant length <= |s| && FirstAt(s) == length + FirstAt(s[length..])
    {
      assert s[length..][1..] == s[length + 1..];
      length := length + 1;
    }
  }

  method ScanParts(text: string, testName: string) returns (r: Scanned)
    ensures r == ScanNamespaces(text, testName)
  {
    var name, collected := text, testName;
    hide *;
    while name != ""
      invariant ScanNamespaces(name, collected) == ScanNamespaces(text, testName)
      decreases |name|
    {
      ScanUnfold(name, collected);
      if name[0] != '@' {
        return NotNames;
      }
      var namespace := name[1..];
      if namespace != "" && namespace[0] == '@' {
        return Scanned(namespace[1..], collected);
      }
      var length := FindAt(namespace);
      collected := "::" + collected;
      collected := namespace[..length] + collected;
      name := namespace[length..];
    }
    ScanUnfold(name, collected);
    r := Scanned(name, collected);
  }

  lemma ScanUnfold(text: string, testName: string)
    ensures ScanNamespaces(text, testName) ==
            if text == "" then Scanned("", testName)
            else if text[0] != '@' then NotNames
            else
              var namespace := text[1..];
              if namespace != "" && namespace[0] == '@' then Scanned(namespace[1..], testName)
              else ScanNamespaces(namespace[FirstAt(namespace)..], namespace[..FirstAt(namespace)] + ("::" + testName))
  {
    hide FirstAt;
    if |text| >= 2 {
      assert text[1..][1..] == text[2..];
    }
  }

  // ---------------------------------------------------------------- round trip

  ghost predicate AtFree(s: string) {
    '@' !in s
  }

  /** No component is empty or holds the character that ends it in print. */
  ghost predicate Printable(cs: seq<string>) {
    forall c :: c in cs ==> c != "" && AtFree(c)
  }

  lemma {:induction false} FirstAtAfter(c: string, more: string)
    requires AtFree(c)
    ensures FirstAt(c + ("@" + more)) == |c|
  {
    var s := c + ("@" + more);
    if c != "" {
      assert s[1..] == c[1..] + ("@" + more);
      FirstAtAfter(c[1..], more);
    }
  }

  lemma CutAt(c: string, more: string)
    ensures (c + ("@" + more))[..|c|] == c && (c + ("@" + more))[|c|..] == "@" + more
    ensures "@" + more != "" && ("@" + more)[0] == '@' && ("@" + more)[1..] == more
  {
  }

  /** One printed component is read. */
  lemma ScanOne(c: string, more: string, testName: string)
    requires c != "" && AtFree(c)
    ensures ScanNamespaces("@" + (c + ("@" + more)), testName) == ScanNamespaces("@" + more, c + ("::" + testName))
  {
    FirstAtAfter(c, more);
    CutAt(c, more);
    CutAt("", c + ("@" + more));
    assert (c + ("@" + more))[0] == c[0] != '@';
    hide FirstAt, AtFree;
    ScanUnfold("@" + (c + ("@" + more)), testName);
  }

  /** Nothing between two "@" ends the namespaces. */
  lemma ScanEnd(more: string, testName: string)
    ensures ScanNamespaces("@" + ("@" + more), testName) == Scanned(more, testName)
  {
    CutAt("", more);
    CutAt("", "@" + more);
    hide FirstAt;
    ScanUnfold("@" + ("@" + more), testName);
  }

  lemma LastName(cs: seq<string>, more: string)
    requires cs != []
    ensures var init, c := cs[..|cs| - 1], cs[|cs| - 1];
            && cs == init + [c] && c in cs && (forall d :: d in init ==> d in cs)
            && ReversedNames(cs) + more == c + ("@" + (ReversedNames(init) + more))
  {
    var init, c := cs[..|cs| - 1], cs[|cs| - 1];
    assert cs == init + [c];
    ReversedNamesSnoc(init, c);
    hide *;
    assert forall d :: d in init ==> d in cs;
    Associate(c, "@", ReversedNames(init));
    Associate(c, "@" + ReversedNames(init), more);
    Associate("@", ReversedNames(init), more);
  }

  lemma {:induction false} PrefixesSnoc(cs: seq<string>, c: string, name: string)
    ensures Prefixes(cs + [c]) + name == Prefixes(cs) + (c + ("::" + name))
  {
    if cs == [] {
      assert cs + [c] == [c] && [c][1..] == cs;
      assert Prefixes([c]) == c + "::" + "";
    } else {
      assert (cs + [c])[1..] == cs[1..] + [c] && (cs + [c])[0] == cs[0];
      PrefixesSnoc(cs[1..], c, name);
      hide *;
      Associate(cs[0] + "::", Prefixes(cs[1..] + [c]), name);
      Associate(cs[0] + "::", Prefixes(cs[1..]), c + ("::" + name));
    }
  }

  /** Printed components are read back in their own order. */
  lemma {:induction false} ScanComponents(cs: seq<string>, signature: string, testName: string)
    requires Printable(cs)
    ensures ScanNamespaces("@" + (ReversedNames(cs) + ("@" + signature)), testName)
            == Scanned(signature, Prefixes(cs) + testName)
    decreases |cs|
  {
    hide *;
    if cs == [] {
      NoNames(cs, signature, testName);
      ScanEnd(signature, testName);
    } else {
      var init, c := cs[..|cs| - 1], cs[|cs| - 1];
      LastName(cs, "@" + signature);
      PrintableParts(cs, init, c);
      ScanOne(c, ReversedNames(init) + ("@" + signature), testName);
      ScanComponents(init, signature, c + ("::" + testName));
      PrefixesSnoc(init, c, testName);
    }
  }

  lemma NoNames(cs: seq<string>, more: string, name: string)
    requires cs == []
    ensures ReversedNames(cs) + ("@" + more) == "@" + more && Prefixes(cs) + name == name
  {
  }

  lemma PrintableParts(cs: seq<string>, init: seq<string>, c: string)
    requires Printable(cs) && c in cs && forall d :: d in init ==> d in cs
    ensures Printable(init) && c != "" && AtFree(c)
  {
  }

  /** An empty component stops the reading early, inside the namespaces. */
  lemma {:induction false} ScanStopsEarly(cs: seq<string>, signature: string, testName: string)
    requires (forall c :: c in cs ==> AtFree(c)) && "" in cs
    ensures var r := ScanNamespaces("@" + (ReversedNames(cs) + ("@" + signature)), testName);
            r != NotNames && |signature| < |r.rest| && r.rest[|r.rest| - |signature| - 1..] == "@" + signature
    decreases |cs|
  {
    hide *;
    var init, c := cs[..|cs| - 1], cs[|cs| - 1];
    LastName(cs, "@" + signature);
    var more := ReversedNames(init) + ("@" + signature);
    if c == "" {
      EmptyHead("@" + more);
      ScanEnd(more, testName);
      assert more[|ReversedNames(init)|..] == "@" + signature;
    } else {
      ScanOne(c, more, testName);
      ScanStopsEarly(init, signature, c + ("::" + testName));
    }
  }

  /** The names collected never hold an '@'. */
  lemma {:induction false} ScanAtFree(text: string, testName: string)
    requires AtFree(testName) && ScanNamespaces(text, testName) != NotNames
    ensures AtFree(ScanNamespaces(text, testName).testName)
    decreases |text|
  {
    hide FirstAt;
    ScanUnfold(text, testName);
    if text != "" && text[0] == '@' && !(text[1..] != "" && text[1..][0] == '@') {
      var namespace := text[1..];
      var length := FirstAt(namespace);
      assert AtFree(namespace[..length] + ("::" + testName));
      ScanAtFree(namespace[length..], namespace[..length] + ("::" + testName));
    }
  }

  predicate ColonFree(s: string) {
    ':' !in s
  }

  /** A function name as C++ writes it. */
  ghost predicate PlainName(name: string) {
    IsTestName(name) && AtFree(name) && ColonFree(name)
  }

  lemma {:induction false} LastSeparatorAt(s: string, k: nat)
    requires SeparatorAt(s, k) && forall i :: k < i < |s| ==> !SeparatorAt(s, i)
    ensures LastSeparator(s) == Some(k)
  {
    if k < |s| - 2 {
      var shorter := s[..|s| - 1];
      assert forall i :: 0 <= i < |shorter| ==> shorter[i] == s[i];
      assert forall i :: k < i < |shorter| ==> SeparatorAt(s, i) || !SeparatorAt(shorter, i);
      LastSeparatorAt(s[..|s| - 1], k);
    }
  }

  lemma {:induction false} LastSeparatorNone(s: string)
    requires forall i :: 0 <= i < |s| ==> !SeparatorAt(s, i)
    ensures LastSeparator(s) == None
  {
    if |s| >= 2 {
      var shorter := s[..|s| - 1];
      assert forall i :: 0 <= i < |shorter| ==> SeparatorAt(s, i) || !SeparatorAt(shorter, i);
      LastSeparatorNone(s[..|s| - 1]);
    }
  }

  /** The namespace of a qualified name is what stands before its last separator. */
  lemma NamespaceOf(ns: string, name: string)
    requires PlainName(name)
    ensures var qualified := Qualified(ns, name);
            && (ns == "" ==> LastSeparator(qualified) == None)
            && (ns != "" ==> LastSeparator(qualified) == Some(|ns|) && qualified[..|ns|] == ns)
  {
    var qualified := Qualified(ns, name);
    if ns == "" {
      LastSeparatorNone(qualified);
    } else {
      assert qualified[|ns| + 2..] == name && name[0] == TEST_PREFIX[0] == 't';
      assert forall i :: 0 <= i < |name| ==> qualified[|ns| + 2 + i] == name[i];
      LastSeparatorAt(qualified, |ns|);
    }
  }

  lemma MangledParts(cs: seq<string>, name: string, signature: string)
    requires PlainName(name)
    ensures var symbol := Mangled(cs, name, signature);
            && symbol != ""
            && var start := symbol[1..];
            && IsTestName(start) && FirstAt(start) == |name| < |start| && start[..|name|] == name
            && start[|name|..] == "@" + (ReversedNames(cs) + ("@" + signature))
  {
    var more := ReversedNames(cs) + ("@" + signature);
    hide ReversedNames;
    FirstAtAfter(name, more);
    CutAt(name, more);
    var symbol := Mangled(cs, name, signature);
    assert symbol[1..] == name + ("@" + more);
    assert symbol[1..][..5] == symbol[1..][..|name|][..5];
  }

  lemma DetectMangled(cs: seq<string>, name: string, signature: string)
    requires PlainName(name)
    ensures var symbol := Mangled(cs, name, signature);
            var r := ScanNamespaces("@" + (ReversedNames(cs) + ("@" + signature)), name);
            && symbol != "" && IsTestName(symbol[1..])
            && Detect(symbol) == if r == NotNames then None else Recognised(symbol, symbol[1..], r)
  {
    MangledParts(cs, name, signature);
    hide *;
    DetectUnfold(Mangled(cs, name, signature));
  }

  lemma RecognisedNamespace(symbol: string, start: string, scanned: Scanned, ns: string, name: string)
    requires scanned != NotNames && IsTestName(start) && PlainName(name)
    requires scanned.testName == Qualified(ns, name)
    requires scanned.rest == NO_PARAMETER || TakesData(scanned.rest)
    ensures var names := Recognised(symbol, start, scanned);
            && names.Some? && names.value.namespace == Some(ns) && names.value.testName == Qualified(ns, name)
            && names.value.functionName == symbol && names.value.cpp && !names.value.gcc
            && names.value.requireDataSetup == TakesData(scanned.rest)
  {
    NamespaceOf(ns, name);
    hide LastSeparator, Qualified, PlainName;
  }

  lemma RecoversPrintable(ns: string, name: string, signature: string)
    requires PlainName(name) && Printable(Components(ns))
    requires signature == NO_PARAMETER || TakesData(signature)
    ensures var symbol := Mangled(Components(ns), name, signature);
            && symbol != "" && IsTest(Detect(symbol), ns, name)
            && Detect(symbol).value.functionName == symbol
            && Detect(symbol).value.requireDataSetup == TakesData(signature)
  {
    hide *;
    var cs := Components(ns);
    var symbol := Mangled(cs, name, signature);
    DetectMangled(cs, name, signature);
    ScanComponents(cs, signature, name);
    PrefixesQualify(ns, name);
    RecognisedNamespace(symbol, symbol[1..], Scanned(signature, Prefixes(cs) + name), ns, name);
    IsTestFact(Detect(symbol), ns, name);
  }

  /** Components of a text without '@' have none either. */
  lemma {:induction false} ComponentsAtFree(s: string)
    requires AtFree(s)
    ensures forall c :: c in ComponentsRest(s) ==> AtFree(c)
    decreases |s|
  {
    var k := FirstSeparator(s);
    if k < |s| {
      ComponentsAtFree(s[k + 2..]);
    }
  }

  /** No recognised namespace holds an '@', whatever the symbol. */
  lemma DetectedAtFree(symbol: string)
    requires symbol != "" && Detect(symbol).Some?
    ensures Detect(symbol).value.namespace.Some? && AtFree(Detect(symbol).value.namespace.value)
  {
    var start := symbol[1..];
    var length := FirstAt(start);
    ScanAtFree(start[length..], start[..length]);
    hide ScanNamespaces, FirstAt;
  }

  lemma EmptyNotRecovered(ns: string, name: string)
    requires PlainName(name) && AtFree(ns) && "" in Components(ns)
    ensures var symbol := MangleVcc(Some(ns), name); symbol != "" && Detect(symbol) == None
  {
    var cs := Components(ns);
    ComponentsAtFree(ns);
    ScanStopsEarly(cs, NO_PARAMETER, name);
    DetectMangled(cs, name, NO_PARAMETER);
    hide *;
    var scanned := ScanNamespaces("@" + (ReversedNames(cs) + ("@" + NO_PARAMETER)), name);
    MangleIsMangled(ns, name);
    NotRecognised(MangleVcc(Some(ns), name), MangleVcc(Some(ns), name)[1..], scanned);
  }

  lemma MangleIsMangled(ns: string, name: string)
    ensures MangleVcc(Some(ns), name) == Mangled(Components(ns), name, NO_PARAMETER)
    ensures |NO_PARAMETER| == 5
  {
    hide Mangled, Components;
  }

  lemma NotRecognised(symbol: string, start: string, scanned: Scanned)
    requires scanned != NotNames && IsTestName(start)
    requires 5 < |scanned.rest| && scanned.rest[|scanned.rest| - 6..] == "@" + NO_PARAMETER
    ensures Recognised(symbol, start, scanned) == None
  {
    hide LastSeparator;
    assert DATA_PARAMETER[2..][0] == CONST_DATA_PARAMETER[2..][0] == 'X';
    assert scanned.rest[|scanned.rest| - 6..][0] == '@';
  }

  /**
   The round trip: a printed symbol is recognised as the test it was printed for exactly when no
   component of the namespace is empty or holds an '@'.
   */
  lemma RoundTrip(ns: string, name: string)
    requires PlainName(name)
    ensures var symbol := MangleVcc(Some(ns), name);
            symbol != "" && (IsTest(Detect(symbol), ns, name) <==> AtFree(ns) && "" !in Components(ns))
  {
    var symbol := MangleVcc(Some(ns), name);
    if !AtFree(ns) {
      DetectMangled(Components(ns), name, NO_PARAMETER);
      if IsTest(Detect(symbol), ns, name) {
        DetectedAtFree(symbol);
        assert false;
      }
    } else if "" in Components(ns) {
      EmptyNotRecovered(ns, name);
    } else {
      if ns != "" {
        ComponentsAtFree(ns);
      }
      RecoversPrintable(ns, name, NO_PARAMETER);
    }
  }

  /** On that domain different functions have different symbols. */
  lemma Injective(ns: string, name: string, ns': string, name': string)
    requires PlainName(name) && AtFree(ns) && "" !in Components(ns)
    requires PlainName(name') && AtFree(ns') && "" !in Components(ns')
    requires MangleVcc(Some(ns), name) == MangleVcc(Some(ns'), name')
    ensures ns == ns' && name == name'
  {
    RoundTrip(ns, name);
    RoundTrip(ns', name');
    hide MangleVcc, Detect, Components, PlainName, AtFree;
    QualifiedInjective(ns, name, name');
  }

  /**
   A test that takes data is recognised the same way, but the data setup name derived for it is
   never the symbol of the data function: the pointer differences keep the whole symbol in front.
   */
  lemma DataSetupNeverMangled(ns: string, name: string, signature: string)
    requires PlainName(name) && AtFree(ns) && "" !in Components(ns) && TakesData(signature)
    ensures var symbol := Mangled(Components(ns), name, signature);
            && symbol != "" && IsTest(Detect(symbol), ns, name)
            && Detect(symbol).value.requireDataSetup
            && Detect(symbol).value.dataSetup.Some?
            && Detect(symbol).value.dataSetup != Some(MangleVcc(Some(ns), DATA_PREFIX + name[|TEST_PREFIX|..]))
  {
    if ns != "" {
      ComponentsAtFree(ns);
    }
    RecoversPrintable(ns, name, signature);
    hide ScanNamespaces, Components, ReversedNames, AtFree, LastSeparator, FirstAt;
    var symbol := Mangled(Components(ns), name, signature);
    assert |Detect(symbol).value.dataSetup.value| > |symbol|;
    assert |MangleVcc(Some(ns), DATA_PREFIX + name[|TEST_PREFIX|..])| == |symbol| - 3;
  }
}
