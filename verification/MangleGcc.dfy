/**
 Printing and recognising GCC symbols of namespaced functions, the <nested-name> and
 <source-name> forms of section 5.1.2 of the Itanium C++ ABI (cut-loader.c).
 */
module MangleGcc {
  import opened Decimal
  import opened Seqs
  import opened SymbolNames
  import opened Wrappers

  // ---------------------------------------------------------------- the printer

  /** A <source-name>: the length of an identifier and the identifier. */
  function SourceName(c: string): string {
    Numeral(|c|) + c
  }

  function SourceNames(cs: seq<string>): string {
    if cs == [] then "" else SourceName(cs[0]) + SourceNames(cs[1..])
  }

  function Mangled(cs: seq<string>, function_: string, signature: string): string {
    "_ZN" + SourceNames(cs) + SourceName(function_) + signature
  }

  /** mangle_gcc; a function outside any C++ namespace keeps its name. */
  function MangleGcc(namespace: Option<string>, function_: string): string {
    match namespace
    case None => function_
    case Some(ns) => Mangled(Components(ns), function_, "Ev")
  }

  method Mangle(namespace: Option<string>, function_: string) returns (symbol: string)
    ensures symbol == MangleGcc(namespace, function_)
  {
    if namespace == None {
      return function_;
    }
    hide Numeral;
    var buffer := "_ZN";
    var components := Components(namespace.value);
    var k := 0;
    assert components[..0] == [];
    while k < |components|
      invariant k <= |components|
      invariant buffer == "_ZN" + SourceNames(components[..k])
    {
      SourceNamesSnoc(components, k);
      buffer := buffer + Numeral(|components[k]|) + components[k];
      k := k + 1;
    }
    assert components[..k] == components;
    buffer := buffer + Numeral(|function_|) + function_;
    buffer := buffer + "Ev";
    symbol := buffer;
  }

  lemma {:induction false} SourceNamesConcat(a: seq<string>, b: seq<string>)
    ensures SourceNames(a + b) == SourceNames(a) + SourceNames(b)
  {
    hide SourceName;
    if a == [] {
      assert a + b == b;
    } else {
      assert (a + b)[1..] == a[1..] + b;
      SourceNamesConcat(a[1..], b);
    }
  }

  lemma SourceNamesSnoc(cs: seq<string>, k: nat)
    requires k < |cs|
    ensures SourceNames(cs[..k + 1]) == SourceNames(cs[..k]) + SourceName(cs[k])
  {
    hide SourceName;
    assert cs[..k + 1] == cs[..k] + [cs[k]];
    SourceNamesConcat(cs[..k], [cs[k]]);
    assert [cs[k]][1..] == [];
    assert SourceNames([cs[k]]) == SourceName(cs[k]) + "";
  }

  // ---------------------------------------------------------------- the recogniser

  /** The result of skipping a namespace: where the last name starts, and the prefixes passed. */
  datatype Skipped = NotMangled | Skipped(at: nat, namespaces: string)

  /** The loop of skip_cpp_namespace_gcc from position i on. */
  function ScanNames(name: string, i: nat, namespaces: string): (r: Skipped)
    requires i <= |name|
    ensures r != NotMangled ==> i <= r.at <= |name|
    decreases |name| - i
  {
    var n := StrToULL(name, i);
    var next := n.end + n.value;
    if n.value == 0 || next > |name| then NotMangled
    else if next == |name| || !IsDigit(name[next]) then Skipped(i, namespaces)
    else ScanNames(name, next, namespaces + name[n.end..next] + "::")
  }

  function SkipNamespace(name: string): (r: Skipped)
    ensures r != NotMangled ==> r.at <= |name|
  {
    if !("_Z" <= name) || |name| == 2 then NotMangled
    else if name[2] != 'N' then Skipped(2, "")
    else ScanNames(name, 3, "")
  }

  /** skip_cpp_namespace_gcc */
  method SkipCppNamespace(name: string) returns (r: Skipped)
    ensures r == SkipNamespace(name)
  {
    SkipCases(name);
    hide *;
    if !("_Z" <= name) {
      return NotMangled;
    }
    if |name| == 2 {
      return NotMangled;
    }
    if name[2] != 'N' {
      return Skipped(2, "");
    }
    var i, namespaces := 3, "";
    while true
      invariant i <= |name| && ScanNames(name, i, namespaces) == SkipNamespace(name)
      decreases |name| - i
    {
      ScanUnfold(name, i, namespaces);
      var n := StrToULL(name, i);
      if n.value == 0 {
        return NotMangled;
      }
      var next := n.end + n.value;
      if next > |name| {
        return NotMangled;
      }
      if next == |name| || !IsDigit(name[next]) {
        return Skipped(i, namespaces);
      }
      namespaces := namespaces + name[n.end..next] + "::";
      i := next;
    }
  }

  lemma SkipCases(name: string)
    ensures SkipNamespace(name) ==
            if !("_Z" <= name) || |name| == 2 then NotMangled
            else if name[2] != 'N' then Skipped(2, "")
            else ScanNames(name, 3, "")
  {
    hide ScanNames;
  }

  lemma ScanUnfold(name: string, i: nat, namespaces: string)
    requires i <= |name|
    ensures var n := StrToULL(name, i);
            var next := n.end + n.value;
            && i <= n.end
            && ScanNames(name, i, namespaces) ==
               if n.value == 0 || next > |name| then NotMangled
               else if next == |name| || !IsDigit(name[next]) then Skipped(i, namespaces)
               else ScanNames(name, next, namespaces + name[n.end..next] + "::")
  {
    hide StrToULL;
  }

  /** Where the test name is, and the prefixes before it (find_cpp_test_name_gcc). */
  datatype Found = NotFound | Found(start: nat, length: nat, namespaces: string)

  function FindTestName(name: string): (f: Found)
    ensures f != NotFound ==> f.start <= |name|
  {
    var s := SkipNamespace(name);
    if s == NotMangled then NotFound else
    var n := StrToULL(name, s.at);
    if n.value == 0 || !IsTestName(name[n.end..]) then NotFound
    else Found(n.end, n.value, s.namespaces)
  }

  function WithoutLastSeparator(namespaces: string): string {
    if |namespaces| < 2 then "" else namespaces[..|namespaces| - 2]
  }

  /** detect_cpp_test_function_symbol_names_gcc */
  function Detect(name: string): Option<Names> {
    var f := FindTestName(name);
    if f == NotFound || f.start + f.length > |name| then None else
    var end := f.start + f.length;
    var signature := name[end..];
    var takesData := signature == "EPv" || signature == "EPKv";
    if signature != "Ev" && !takesData then None else
    var testName := name[f.start..end];
    Some(Names(Some(WithoutLastSeparator(f.namespaces)), f.namespaces + testName, name,
               if takesData then Some(name[..f.start] + DATA_PREFIX + DropPrefix(testName) + "Ev") else None,
               takesData, true, true))
  }

  function DropPrefix(testName: string): string {
    if |testName| < |TEST_PREFIX| then "" else testName[|TEST_PREFIX|..]
  }

  // ---------------------------------------------------------------- round trip

  /** A component whose printed form can be told from the digits before it. */
  ghost predicate GoodComponent(c: string) {
    c != "" && !IsDigit(c[0]) && |c| < TWO_TO_THE_64
  }

  ghost predicate GoodComponents(cs: seq<string>) {
    forall c :: c in cs ==> GoodComponent(c)
  }

  lemma SourceNameReads(pre: string, c: string, rest: string)
    requires GoodComponent(c)
    ensures var s := pre + SourceName(c) + rest;
            var n := StrToULL(s, |pre|);
            && n == Number(|c|, |pre| + |Numeral(|c|)|) && s[|pre|..n.end] == Numeral(|c|)
            && n.end + n.value == |pre + SourceName(c)|
            && n.end + n.value <= |s|
            && s[n.end..n.end + n.value] == c
            && s[n.end + n.value..] == rest
  {
    hide Numeral, StrToULL;
    var s := pre + SourceName(c) + rest;
    var d := Numeral(|c|);
    assert s == pre + d + c + rest;
    assert s[|pre|..|pre| + |d|] == d;
    assert s[|pre| + |d|] == c[0];
    StrToULLNumeral(s, |pre|, |c|);
  }

  ghost predicate StartsWithDigit(s: string) {
    s != "" && IsDigit(s[0])
  }

  lemma SourceNameDigit(c: string, rest: string)
    ensures StartsWithDigit(SourceName(c) + rest)
  {
    NumeralValue(|c|);
    hide Numeral;
    assert (SourceName(c) + rest)[0] == Numeral(|c|)[0];
  }

  /** Scanning over printed components collects them. */
  lemma {:induction false} ScanComponents(pre: string, cs: seq<string>, rest: string, namespaces: string)
    requires GoodComponents(cs) && StartsWithDigit(rest)
    ensures var s := pre + SourceNames(cs) + rest;
            ScanNames(s, |pre|, namespaces) == ScanNames(s, |pre + SourceNames(cs)|, namespaces + Prefixes(cs))
    decreases |cs|
  {
    hide *;
    if cs == [] {
      NothingPrinted(pre, cs, namespaces);
    } else {
      var c, more := cs[0], cs[1..];
      FirstPrinted(pre, cs, rest, namespaces);
      var s := pre + SourceNames(cs) + rest;
      SourceNameReads(pre, c, SourceNames(more) + rest);
      TailDigit(more, rest);
      ScanStep(s, |pre|, namespaces, c, SourceNames(more) + rest);
      ScanComponents(pre + SourceName(c), more, rest, namespaces + c + "::");
    }
  }

  lemma NothingPrinted(pre: string, cs: seq<string>, namespaces: string)
    requires cs == []
    ensures pre + SourceNames(cs) == pre && namespaces + Prefixes(cs) == namespaces
  {
  }

  lemma FirstPrinted(pre: string, cs: seq<string>, rest: string, namespaces: string)
    requires cs != [] && GoodComponents(cs)
    ensures GoodComponent(cs[0]) && cs[0] != "" && GoodComponents(cs[1..])
    ensures pre + SourceNames(cs) == (pre + SourceName(cs[0])) + SourceNames(cs[1..])
    ensures pre + SourceNames(cs) + rest == pre + SourceName(cs[0]) + (SourceNames(cs[1..]) + rest)
    ensures pre + SourceNames(cs) + rest == (pre + SourceName(cs[0])) + SourceNames(cs[1..]) + rest
    ensures namespaces + Prefixes(cs) == (namespaces + cs[0] + "::") + Prefixes(cs[1..])
  {
    FirstPieces(cs);
    hide *;
    var a, b := SourceName(cs[0]), SourceNames(cs[1..]);
    Associate(pre, a, b);
    Associate(pre + a, b, rest);
    Associate(namespaces, cs[0], "::");
    Associate(namespaces, cs[0] + "::", Prefixes(cs[1..]));
  }

  lemma FirstPieces(cs: seq<string>)
    requires cs != [] && GoodComponents(cs)
    ensures GoodComponent(cs[0]) && cs[0] != "" && GoodComponents(cs[1..])
    ensures SourceNames(cs) == SourceName(cs[0]) + SourceNames(cs[1..])
    ensures Prefixes(cs) == cs[0] + "::" + Prefixes(cs[1..])
  {
    hide SourceName;
    assert cs[0] in cs && forall d :: d in cs[1..] ==> d in cs;
  }

  lemma TailDigit(cs: seq<string>, rest: string)
    requires StartsWithDigit(rest)
    ensures StartsWithDigit(SourceNames(cs) + rest)
  {
    if cs == [] {
      assert SourceNames(cs) + rest == rest;
    } else {
      hide SourceName;
      SourceNameDigit(cs[0], SourceNames(cs[1..]) + rest);
      assert SourceNames(cs) + rest == SourceName(cs[0]) + (SourceNames(cs[1..]) + rest);
    }
  }

  lemma ScanStep(s: string, i: nat, namespaces: string, c: string, tail: string)
    requires i <= |s| && StartsWithDigit(tail) && c != ""
    requires var n := StrToULL(s, i);
             && n.value == |c| && n.end + n.value <= |s|
             && s[n.end..n.end + n.value] == c && s[n.end + n.value..] == tail
    ensures var n := StrToULL(s, i);
            ScanNames(s, i, namespaces) == ScanNames(s, n.end + n.value, namespaces + c + "::")
  {
    hide StrToULL;
    var n := StrToULL(s, i);
    assert s[n.end + n.value] == s[n.end + n.value..][0] == tail[0];
  }

  /** The shape of a symbol: the part before the last name, the last name, the signature. */
  lemma FindMangled(cs: seq<string>, name: string, signature: string)
    requires GoodComponents(cs) && IsTestName(name) && |name| < TWO_TO_THE_64
    requires signature != "" && !IsDigit(signature[0])
    ensures var s := Mangled(cs, name, signature);
            var start := |"_ZN" + SourceNames(cs) + Numeral(|name|)|;
            && FindTestName(s) == Found(start, |name|, Prefixes(cs))
            && start + |name| <= |s| && s[start..start + |name|] == name && s[start + |name|..] == signature
            && s[..start] == "_ZN" + SourceNames(cs) + Numeral(|name|)
  {
    hide *;
    var s := Mangled(cs, name, signature);
    var pre := "_ZN" + SourceNames(cs);
    MangledText(cs, name, signature);
    SourceNameDigit(name, signature);
    TestNameGood(name);
    ScanComponents("_ZN", cs, SourceName(name) + signature, "");
    SourceNameReads(pre, name, signature);
    ScanLast(s, |pre|, "" + Prefixes(cs), signature);
    SkipFound(s, cs, |pre|, name);
  }

  lemma TestNameGood(name: string)
    requires IsTestName(name) && |name| < TWO_TO_THE_64
    ensures GoodComponent(name)
  {
    assert name[0] == TEST_PREFIX[0];
  }

  lemma MangledText(cs: seq<string>, name: string, signature: string)
    ensures var s := Mangled(cs, name, signature);
            var pre := "_ZN" + SourceNames(cs);
            var start := |pre + Numeral(|name|)|;
            && s == "_ZN" + SourceNames(cs) + (SourceName(name) + signature)
            && s == pre + SourceName(name) + signature
            && start == |pre| + |Numeral(|name|)| && start + |name| == |pre + SourceName(name)| && start + |name| <= |s|
            && s[start..start + |name|] == name && s[start + |name|..] == signature && s[start..] == name + signature
            && s[..start] == pre + Numeral(|name|)
            && "_Z" <= s && |s| > 3 && s[2] == 'N'
  {
    NumeralValue(|name|);
    hide Numeral, SourceNames;
    ScanPieces(SourceNames(cs), Numeral(|name|), name, signature);
  }

  lemma ScanPieces(names: string, digits: string, name: string, signature: string)
    requires digits != ""
    ensures var pre := "_ZN" + names;
            var s := pre + (digits + name) + signature;
            var start := |pre + digits|;
            && s == pre + ((digits + name) + signature)
            && start == |pre| + |digits| && start + |name| == |pre + (digits + name)| && start + |name| <= |s|
            && s[start..start + |name|] == name && s[start + |name|..] == signature && s[start..] == name + signature
            && s[..start] == pre + digits
            && "_Z" <= s && |s| > 3 && s[2] == 'N'
  {
    var pre := "_ZN" + names;
    assert pre[0] == '_' && pre[1] == 'Z' && pre[2] == 'N';
    Slices(pre, digits, name, signature);
    var s := pre + (digits + name) + signature;
    assert s[0] == pre[0] && s[1] == pre[1] && s[2] == pre[2];
    assert s[..2] == "_Z";
  }

  lemma Slices(pre: string, digits: string, name: string, signature: string)
    ensures var s := pre + (digits + name) + signature;
            var start := |pre + digits|;
            && s == pre + ((digits + name) + signature)
            && s[start..start + |name|] == name && s[start + |name|..] == signature && s[start..] == name + signature
            && s[..start] == pre + digits
  {
    Associate(pre, digits + name, signature);
    Associate(digits, name, signature);
    Associate(pre, digits, name + signature);
    TailSlices(pre + digits, name, signature);
  }

  lemma TailSlices(a: string, b: string, c: string)
    ensures var s := a + (b + c);
            s[|a|..|a| + |b|] == b && s[|a| + |b|..] == c && s[|a|..] == b + c && s[..|a|] == a
  {
  }

  lemma SkipFound(s: string, cs: seq<string>, at: nat, name: string)
    requires "_Z" <= s && |s| > 3 && s[2] == 'N' && at <= |s|
    requires ScanNames(s, 3, "") == Skipped(at, "" + Prefixes(cs))
    requires StrToULL(s, at).value == |name| && IsTestName(name)
    requires name <= s[StrToULL(s, at).end..]
    ensures FindTestName(s) == Found(StrToULL(s, at).end, |name|, Prefixes(cs))
  {
    hide ScanNames, StrToULL, Prefixes;
    assert "" + Prefixes(cs) == Prefixes(cs);
  }

  lemma ScanLast(s: string, i: nat, namespaces: string, signature: string)
    requires i <= |s| && signature != "" && !IsDigit(signature[0])
    requires var n := StrToULL(s, i);
             n.value > 0 && n.end + n.value <= |s| && s[n.end + n.value..] == signature
    ensures ScanNames(s, i, namespaces) == Skipped(i, namespaces)
  {
    hide StrToULL;
    var n := StrToULL(s, i);
    assert s[n.end + n.value] == s[n.end + n.value..][0];
  }

  /** What is recognised once the test name has been found. */
  lemma DetectFound(s: string, start: nat, name: string, namespaces: string, signature: string)
    requires FindTestName(s) == Found(start, |name|, namespaces)
    requires start + |name| <= |s| && s[start..start + |name|] == name && s[start + |name|..] == signature
    requires signature == "Ev" || signature == "EPv" || signature == "EPKv"
    ensures Detect(s) == Some(Names(Some(WithoutLastSeparator(namespaces)), namespaces + name, s,
                                    if signature == "Ev" then None
                                    else Some(s[..start] + DATA_PREFIX + DropPrefix(name) + "Ev"),
                                    signature != "Ev", true, true))
  {
    hide FindTestName;
  }

  /** The namespaces GCC symbols are printed and recognised for. */
  ghost predicate GoodNamespace(ns: string) {
    GoodComponents(Components(ns))
  }

  /**
   For every namespace whose components are non-empty and do not start with a digit, and every
   test name, the printed symbol is recognised as that test in that namespace.
   */
  lemma RoundTrip(ns: string, name: string)
    requires GoodNamespace(ns) && IsTestName(name) && |name| < TWO_TO_THE_64
    ensures var symbol := MangleGcc(Some(ns), name);
            Detect(symbol) == Some(Names(Some(ns), Qualified(ns, name), symbol, None, false, true, true))
  {
    hide *;
    var cs := Components(ns);
    var s := Mangled(cs, name, "Ev");
    GoodParts(ns);
    FindMangled(cs, name, "Ev");
    DetectFound(s, |"_ZN" + SourceNames(cs) + Numeral(|name|)|, name, Prefixes(cs), "Ev");
    NamespaceRecovered(ns, name);
    MangleIsMangled(ns, name);
  }

  lemma GoodParts(ns: string)
    ensures GoodNamespace(ns) <==> GoodComponents(Components(ns))
    ensures !IsDigit('E')
  {
    hide GoodComponents, Components;
  }

  lemma MangleIsMangled(ns: string, name: string)
    ensures MangleGcc(Some(ns), name) == Mangled(Components(ns), name, "Ev")
  {
    hide Mangled, Components;
  }

  lemma NamespaceRecovered(ns: string, name: string)
    ensures WithoutLastSeparator(Prefixes(Components(ns))) == ns
    ensures Prefixes(Components(ns)) + name == Qualified(ns, name)
  {
    PrefixesQualify(ns, name);
    hide Components, Prefixes;
  }

  /** On that domain different functions have different symbols. */
  lemma Injective(ns: string, name: string, ns': string, name': string)
    requires GoodNamespace(ns) && IsTestName(name) && |name| < TWO_TO_THE_64
    requires GoodNamespace(ns') && IsTestName(name') && |name'| < TWO_TO_THE_64
    requires MangleGcc(Some(ns), name) == MangleGcc(Some(ns'), name')
    ensures ns == ns' && name == name'
  {
    RoundTrip(ns, name);
    RoundTrip(ns', name');
    hide *;
    assert ns == ns';
    QualifiedInjective(ns, name, name');
  }

  /**
   The data setup symbol derived from a test that takes data is the symbol of the function
   `data_...` in the same namespace: the copied length is still right.
   */
  lemma DataSetupIsMangled(ns: string, name: string, signature: string)
    requires GoodNamespace(ns) && IsTestName(name) && |name| < TWO_TO_THE_64
    requires signature == "EPv" || signature == "EPKv"
    ensures var names := Detect(Mangled(Components(ns), name, signature));
            && names != None
            && names.value.namespace == Some(ns) && names.value.testName == Qualified(ns, name)
            && names.value.requireDataSetup
            && names.value.dataSetup == Some(MangleGcc(Some(ns), DATA_PREFIX + name[|TEST_PREFIX|..]))
  {
    hide *;
    var cs := Components(ns);
    var s := Mangled(cs, name, signature);
    GoodParts(ns);
    FindMangled(cs, name, signature);
    DetectFound(s, |"_ZN" + SourceNames(cs) + Numeral(|name|)|, name, Prefixes(cs), signature);
    NamespaceRecovered(ns, name);
    DataName(cs, name);
    MangleIsMangled(ns, DATA_PREFIX + name[|TEST_PREFIX|..]);
  }

  lemma DataName(cs: seq<string>, name: string)
    requires IsTestName(name)
    ensures |name| >= |TEST_PREFIX|
    ensures ("_ZN" + SourceNames(cs) + Numeral(|name|)) + DATA_PREFIX + DropPrefix(name) + "Ev"
            == Mangled(cs, DATA_PREFIX + name[|TEST_PREFIX|..], "Ev")
  {
    hide Numeral, SourceNames;
    var data := DATA_PREFIX + name[|TEST_PREFIX|..];
    assert |data| == |name|;
    assert Mangled(cs, data, "Ev") == "_ZN" + SourceNames(cs) + (Numeral(|data|) + data) + "Ev";
  }
}
