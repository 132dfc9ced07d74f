/**
 What the recogniser of GCC symbols accepts, against what the printer prints: the lengths it passes,
 and exactly when recognising and printing undo each other (cut-loader.c).
 */
module RecogniseGcc {
  import opened Decimal
  import opened Gcc = MangleGcc
  import opened Seqs
  import opened SymbolNames
  import opened Wrappers

  // ---------------------------------------------------------------- the converse

  /** The components the scanner passes from position i on. */
  function Passed(name: string, i: nat): seq<string>
    requires i <= |name|
    decreases |name| - i
  {
    var n := StrToULL(name, i);
    var next := n.end + n.value;
    if n.value == 0 || next >= |name| || !IsDigit(name[next]) then []
    else [name[n.end..next]] + Passed(name, next)
  }

  /** Every length is written as a plain numeral without leading zeros. */
  ghost predicate PlainLengths(name: string, i: nat)
    requires i <= |name|
    decreases |name| - i
  {
    var n := StrToULL(name, i);
    var next := n.end + n.value;
    && Canonical(name[i..n.end]) && Value(name[i..n.end]) < TWO_TO_THE_64
    && (n.value > 0 && next < |name| && IsDigit(name[next]) ==> PlainLengths(name, next))
  }

  lemma PlainLength(name: string, i: nat)
    requires i <= |name|
    requires Canonical(name[i..StrToULL(name, i).end]) && Value(name[i..StrToULL(name, i).end]) < TWO_TO_THE_64
    ensures name[i..StrToULL(name, i).end] == Numeral(StrToULL(name, i).value)
  {
    var n := StrToULL(name, i);
    var d := name[i..n.end];
    assert d[0] == name[i] && IsDigit(d[0]);
    assert forall k :: 0 <= k < |d| ==> d[k] == name[i + k];
    StopsAtNonDigit(name, i);
    StrToULLDigits(name, i, n.end);
    CanonicalNumeral(d);
  }

  lemma StopsAtNonDigit(name: string, i: nat)
    requires i < |name| && IsDigit(name[i])
    ensures var e := StrToULL(name, i).end; e < |name| ==> !IsDigit(name[e])
  {
    hide Value;
  }

  /** One name passed by the scanner. */
  lemma PassOne(name: string, i: nat, namespaces: string)
    requires i <= |name| && PlainLengths(name, i) && ScanNames(name, i, namespaces) != NotMangled
    ensures var n := StrToULL(name, i);
            var next := n.end + n.value;
            && i <= n.end && name[i..n.end] == Numeral(n.value) && next <= |name|
            && if next < |name| && IsDigit(name[next]) then
                 var c := name[n.end..next];
                 && PlainLengths(name, next) && next > i && |c| == n.value
                 && ScanNames(name, i, namespaces) == ScanNames(name, next, namespaces + c + "::")
                 && Passed(name, i) == [c] + Passed(name, next)
               else
                 && ScanNames(name, i, namespaces) == Skipped(i, namespaces)
                 && Passed(name, i) == []
  {
    PlainUnfold(name, i);
    PlainLength(name, i);
    ScanUnfold(name, i, namespaces);
    PassedUnfold(name, i);
    hide *;
  }

  lemma PlainUnfold(name: string, i: nat)
    requires i <= |name| && PlainLengths(name, i)
    ensures var n := StrToULL(name, i);
            var next := n.end + n.value;
            && i <= n.end && Canonical(name[i..n.end]) && Value(name[i..n.end]) < TWO_TO_THE_64
            && (n.value > 0 && next < |name| && IsDigit(name[next]) ==> PlainLengths(name, next))
  {
    hide StrToULL, Value;
  }

  lemma PrintPassed(name: string, i: nat, d: nat, next: nat, at: nat, more: seq<string>, namespaces: string)
    requires i <= d <= next <= at <= |name| && name[i..d] == Numeral(next - d)
    requires SourceNames(more) == name[next..at]
    ensures var c := name[d..next];
            && SourceNames([c] + more) == name[i..at]
            && (namespaces + c + "::") + Prefixes(more) == namespaces + Prefixes([c] + more)
  {
    hide *;
    var c := name[d..next];
    OneSourceName(c, more);
    OnePrefix(namespaces, c, more);
    ThreeParts(name, i, d, next, at);
  }

  lemma OneSourceName(c: string, more: seq<string>)
    ensures SourceNames([c] + more) == (Numeral(|c|) + c) + SourceNames(more)
  {
    hide Numeral;
    assert ([c] + more)[1..] == more;
  }

  lemma ThreeParts(s: string, i: nat, d: nat, next: nat, at: nat)
    requires i <= d <= next <= at <= |s|
    ensures s[i..at] == (s[i..d] + s[d..next]) + s[next..at]
  {
  }

  /** What the scanner passed, printed again, is the text it passed. */
  lemma {:induction false} PassedPrinted(name: string, i: nat, namespaces: string)
    requires i <= |name| && PlainLengths(name, i) && ScanNames(name, i, namespaces) != NotMangled
    ensures var r := ScanNames(name, i, namespaces);
            && i <= r.at
            && SourceNames(Passed(name, i)) == name[i..r.at]
            && r.namespaces == namespaces + Prefixes(Passed(name, i))
            && name[r.at..StrToULL(name, r.at).end] == Numeral(StrToULL(name, r.at).value)
    decreases |name| - i
  {
    hide *;
    PassOne(name, i, namespaces);
    var n := StrToULL(name, i);
    var next := n.end + n.value;
    if next < |name| && IsDigit(name[next]) {
      var c := name[n.end..next];
      PassedPrinted(name, next, namespaces + c + "::");
      PrintPassed(name, i, n.end, next, ScanNames(name, i, namespaces).at, Passed(name, next), namespaces);
    } else {
      NothingPrinted("", [], namespaces);
      assert "" + SourceNames([]) == SourceNames([]);
      assert name[i..i] == "";
    }
  }

  /** The test name in a symbol, without its namespaces. */
  function TestNameIn(name: string): string {
    var f := FindTestName(name);
    if f == NotFound || f.start + f.length > |name| then "" else name[f.start..f.start + f.length]
  }

  /** What recognition says about the symbol. */
  lemma DetectFacts(name: string)
    requires Detect(name) != None
    ensures var f, bare, names := FindTestName(name), TestNameIn(name), Detect(name).value;
            && f != NotFound && f.start + f.length <= |name| && bare == name[f.start..f.start + f.length]
            && |bare| == f.length
            && var signature := name[f.start + f.length..];
            && (signature == "Ev" || signature == "EPv" || signature == "EPKv")
            && names.requireDataSetup == (signature != "Ev")
            && names.namespace == Some(WithoutLastSeparator(f.namespaces)) && names.testName == f.namespaces + bare
            && names.dataSetup == if signature == "Ev" then None
                                  else Some(name[..f.start] + DATA_PREFIX + DropPrefix(bare) + "Ev")
  {
    hide FindTestName, WithoutLastSeparator, DropPrefix;
  }

  /** The name found is a test name as a whole: its length covers the prefix. */
  lemma WholeTestName(name: string)
    requires Detect(name) != None
    ensures IsTestName(TestNameIn(name)) && |TestNameIn(name)| < TWO_TO_THE_64
  {
    hide *;
    DetectFacts(name);
    FoundFacts(name);
    var f := FindTestName(name);
    LongName(name[f.start..], f.length);
    assert name[f.start..][f.length..] == name[f.start + f.length..];
    assert name[f.start..][..f.length] == name[f.start..f.start + f.length];
  }

  /** A text that starts like a test name does not go on like a signature before the prefix is over. */
  lemma LongName(rest: string, length: nat)
    requires IsTestName(rest) && length <= |rest|
    requires rest[length..] == "Ev" || rest[length..] == "EPv" || rest[length..] == "EPKv"
    ensures length >= |TEST_PREFIX| && IsTestName(rest[..length])
  {
    assert rest[length..][0] == rest[length];
    assert rest[0] == 't' && rest[1] == 'e' && rest[2] == 's' && rest[3] == 't' && rest[4] == '_';
    assert length >= |TEST_PREFIX| ==> rest[..length][..|TEST_PREFIX|] == rest[..|TEST_PREFIX|];
  }

  lemma FoundFacts(name: string)
    requires FindTestName(name) != NotFound
    ensures var f := FindTestName(name);
            && f.start <= |name| && IsTestName(name[f.start..]) && 0 < f.length < TWO_TO_THE_64
    ensures "_Z" <= name && |name| > 2
    ensures var s, f := SkipNamespace(name), FindTestName(name);
            && s != NotMangled && f.namespaces == s.namespaces
            && f.start == StrToULL(name, s.at).end && f.length == StrToULL(name, s.at).value
  {
    hide ScanNames, StrToULL;
  }

  lemma NestedFound(name: string)
    requires "_ZN" <= name && FindTestName(name) != NotFound
    ensures |name| >= 3
    ensures var s, f := ScanNames(name, 3, ""), FindTestName(name);
            && s != NotMangled && f.namespaces == s.namespaces && s.at <= |name|
            && f.start == StrToULL(name, s.at).end && f.length == StrToULL(name, s.at).value
  {
    NestedStart(name);
    FoundFacts(name);
    hide FindTestName, ScanNames, StrToULL;
  }

  /** The namespace of a recognised nested symbol has the components passed, if splitting keeps them apart. */
  lemma NamespacePassed(name: string, ns: string)
    requires "_ZN" <= name && FindTestName(name) != NotFound
             && ns == WithoutLastSeparator(FindTestName(name).namespaces)
    ensures |name| >= 3 && FindTestName(name).namespaces == Prefixes(Passed(name, 3))
    ensures Components(ns) == Passed(name, 3) <==> Separable(Passed(name, 3))
    ensures Prefixes(Components(ns)) == Prefixes(Passed(name, 3))
  {
    NestedFound(name);
    hide *;
    PassedNamespaces(name, 3, "");
    EmptyHead(Prefixes(Passed(name, 3)));
    PassedNonEmpty(name, 3);
    NamespaceComponents(Passed(name, 3), ns);
  }

  /** The text before the test name is what is printed before it. */
  ghost predicate PrintedBefore(name: string) {
    var f := FindTestName(name);
    && f != NotFound && f.start <= |name|
    && name[..f.start] == "_ZN" + SourceNames(Components(WithoutLastSeparator(f.namespaces))) + Numeral(f.length)
  }

  /** With plain lengths the text before the test name is what is printed before it. */
  lemma PlainPrinted(name: string)
    requires "_ZN" <= name && PlainLengths(name, 3) && FindTestName(name) != NotFound
    requires Separable(Passed(name, 3))
    ensures PrintedBefore(name)
  {
    hide *;
    var f := FindTestName(name);
    FoundFacts(name);
    NestedFound(name);
    PassedPrinted(name, 3, "");
    var at, ns := ScanNames(name, 3, "").at, WithoutLastSeparator(f.namespaces);
    NamespacePassed(name, ns);
    JoinPrinted(name, SourceNames(Components(ns)), at, f.start, Numeral(f.length));
    PrintedBeforeFact(name);
  }

  lemma JoinPrinted(name: string, names: string, at: nat, start: nat, digits: string)
    requires 3 <= at <= start <= |name| && "_ZN" <= name && names == name[3..at] && name[at..start] == digits
    ensures name[..start] == "_ZN" + names + digits
  {
    assert name[..3] == "_ZN";
  }

  lemma PrintedBeforeFact(name: string)
    ensures PrintedBefore(name) <==>
            var f := FindTestName(name);
            && f != NotFound && f.start <= |name|
            && name[..f.start] == "_ZN" + SourceNames(Components(WithoutLastSeparator(f.namespaces)))
                + Numeral(f.length)
  {
    hide FindTestName, SourceNames, Components, WithoutLastSeparator, Numeral;
  }

  /** A printed symbol has plain lengths. */
  lemma {:induction false} PrintedPlain(pre: string, cs: seq<string>, name: string, signature: string)
    requires GoodComponents(cs) && IsTestName(name) && |name| < TWO_TO_THE_64
    requires signature != "" && !IsDigit(signature[0])
    ensures PlainLengths(pre + SourceNames(cs) + (SourceName(name) + signature), |pre|)
    decreases |cs|
  {
    hide *;
    var rest := SourceName(name) + signature;
    var s := pre + SourceNames(cs) + rest;
    if cs == [] {
      NothingPrinted(pre, cs, "");
      Associate(pre, SourceName(name), signature);
      TestNameGood(name);
      SourceNameReads(pre, name, signature);
      NoDigit(signature);
      PlainHere(s, |pre|, name, signature);
    } else {
      var c, more := cs[0], cs[1..];
      FirstPrinted(pre, cs, rest, "");
      SourceNameReads(pre, c, SourceNames(more) + rest);
      PrintedPlain(pre + SourceName(c), more, name, signature);
      PlainHere(s, |pre|, c, SourceNames(more) + rest);
    }
  }

  lemma NoDigit(signature: string)
    requires signature != "" && !IsDigit(signature[0])
    ensures !StartsWithDigit(signature)
  {
  }

  /** A length read as a numeral is plain; what follows is plain if it has a length. */
  lemma PlainHere(s: string, i: nat, c: string, tail: string)
    requires i <= |s| && |c| < TWO_TO_THE_64
    requires StrToULL(s, i) == Number(|c|, i + |Numeral(|c|)|) && s[i..i + |Numeral(|c|)|] == Numeral(|c|)
    requires i + |Numeral(|c|)| + |c| <= |s| && s[i + |Numeral(|c|)| + |c|..] == tail
    requires StartsWithDigit(tail) ==> PlainLengths(s, i + |Numeral(|c|)| + |c|)
    ensures PlainLengths(s, i)
  {
    hide *;
    NumeralValue(|c|);
    NumeralCanonical(|c|);
    DropStart(s, i + |Numeral(|c|)| + |c|, tail);
    PlainFact(s, i);
  }

  lemma DropStart(s: string, k: nat, tail: string)
    requires k <= |s| && s[k..] == tail
    ensures k < |s| && IsDigit(s[k]) ==> StartsWithDigit(tail)
  {
  }

  lemma PlainFact(name: string, i: nat)
    requires i <= |name|
    requires var n := StrToULL(name, i);
             var next := n.end + n.value;
             && Canonical(name[i..n.end]) && Value(name[i..n.end]) < TWO_TO_THE_64
             && (n.value > 0 && next < |name| && IsDigit(name[next]) ==> PlainLengths(name, next))
    ensures PlainLengths(name, i)
  {
    hide StrToULL, Canonical, Value;
  }

  /** What is asked of a symbol for its print to be the symbol: nested, plain lengths, separable names. */
  ghost predicate PlainNested(name: string) {
    "_ZN" <= name && PlainLengths(name, 3) && Separable(Passed(name, 3))
  }

  /** Only such symbols have the text before their test name that is printed. */
  lemma PrintedOnlyPlain(name: string)
    requires |name| < TWO_TO_THE_64 - 1 && Detect(name) != None && PrintedBefore(name)
    ensures PlainNested(name)
    ensures GoodComponents(Components(WithoutLastSeparator(FindTestName(name).namespaces)))
  {
    hide *;
    DetectFacts(name);
    WholeTestName(name);
    PrintedBeforeFact(name);
    var f, bare := FindTestName(name), TestNameIn(name);
    var ns, signature := WithoutLastSeparator(f.namespaces), name[f.start + f.length..];
    var cs := Components(ns);
    WholeSymbol(name, SourceNames(cs), Numeral(f.length), f.start, bare, signature);
    SignatureStart(signature);
    NamespacePassed(name, ns);
    SourceNameFact(bare);
    PassedSeparated(name);
    ComponentsSeparated(ns);
    OwnStart(name, cs, bare, signature);
    OwnPassed(name, 3, "", 0, cs, bare, signature);
    PrintedPlain("_ZN", cs, bare, signature);
    PlainNestedFact(name);
  }

  lemma PlainNestedFact(name: string)
    ensures PlainNested(name) <==> "_ZN" <= name && PlainLengths(name, 3) && Separable(Passed(name, 3))
  {
    hide PlainLengths, Separable, Passed;
  }

  lemma OwnStart(name: string, cs: seq<string>, bare: string, signature: string)
    requires "_ZN" <= name && name == "_ZN" + SourceNames(cs) + (SourceName(bare) + signature)
    ensures name[3..] == "" + SourceNames(cs) + (SourceName(bare) + signature)
    ensures Zeros("") && Separators(0) + Prefixes(cs) == Prefixes(cs)
  {
    hide SourceNames, SourceName, Prefixes;
    assert name == "_ZN" + (SourceNames(cs) + (SourceName(bare) + signature));
  }

  lemma SourceNameFact(c: string)
    ensures SourceName(c) == Numeral(|c|) + c
  {
    hide Numeral;
  }

  lemma SignatureStart(signature: string)
    requires signature == "Ev" || signature == "EPv" || signature == "EPKv"
    ensures signature != "" && !IsDigit(signature[0])
  {
  }

  lemma WholeSymbol(name: string, names: string, digits: string, start: nat, bare: string, signature: string)
    requires start + |bare| <= |name| && name[..start] == "_ZN" + names + digits
    requires name[start..start + |bare|] == bare && name[start + |bare|..] == signature
    ensures name == "_ZN" + names + ((digits + bare) + signature) && "_ZN" <= name
  {
    assert name == name[..start] + (name[start..start + |bare|] + name[start + |bare|..]);
    Associate("_ZN" + names, digits, bare + signature);
    Associate(digits, bare, signature);
    assert name[..3] == name[..start][..3] == "_ZN";
  }

  /** The two ends of a symbol around its test name decide whether it is what is printed. */
  lemma PrintedIff(name: string, tail: string, bare: string, replaced: string)
    requires FindTestName(name) != NotFound && FindTestName(name).start <= |name|
    requires |bare| == FindTestName(name).length == |replaced|
    ensures PrintedBefore(name) <==>
            var f := FindTestName(name);
            name[..f.start] + (replaced + tail)
            == Mangled(Components(WithoutLastSeparator(f.namespaces)), replaced, tail)
  {
    hide *;
    PrintedBeforeFact(name);
    var f := FindTestName(name);
    var cs := Components(WithoutLastSeparator(f.namespaces));
    var pre := "_ZN" + SourceNames(cs) + Numeral(f.length);
    MangledText(cs, replaced, tail);
    SourceNameFact(replaced);
    Associate("_ZN" + SourceNames(cs), Numeral(f.length), replaced);
    Associate(pre, replaced, tail);
    SameTail(name[..f.start], pre, replaced + tail);
  }

  lemma SameTail(a: string, b: string, tail: string)
    ensures a + tail == b + tail <==> a == b
  {
    if a + tail == b + tail {
      assert a == (a + tail)[..|a|] && b == (b + tail)[..|b|];
    }
  }

  /** Printing what was recognised gives a nested symbol with plain lengths back. */
  lemma PrintRecognised(name: string)
    requires PlainNested(name)
    requires Detect(name) != None && !Detect(name).value.requireDataSetup
    ensures MangleGcc(Detect(name).value.namespace, TestNameIn(name)) == name
  {
    hide *;
    DetectFacts(name);
    PlainNestedFact(name);
    PlainPrinted(name);
    PrintedSymbol(name);
  }

  lemma PrintedSymbol(name: string)
    requires Detect(name) != None && !Detect(name).value.requireDataSetup
    ensures MangleGcc(Detect(name).value.namespace, TestNameIn(name)) == name <==> PrintedBefore(name)
  {
    hide *;
    DetectFacts(name);
    var f, bare := FindTestName(name), TestNameIn(name);
    PrintedIff(name, "Ev", bare, bare);
    MangleIsMangled(WithoutLastSeparator(f.namespaces), bare);
    assert name == name[..f.start] + (bare + "Ev");
  }

  /**
   Of the recognised symbols without parameters, exactly the nested ones with plain lengths and
   separable names are given back when what was recognised is printed.
   */
  lemma PrintRecognisedIff(name: string)
    requires |name| < TWO_TO_THE_64 - 1
    requires Detect(name) != None && !Detect(name).value.requireDataSetup
    ensures MangleGcc(Detect(name).value.namespace, TestNameIn(name)) == name <==> PlainNested(name)
  {
    hide *;
    PrintedSymbol(name);
    BeforeIffPlain(name);
  }

  lemma BeforeIffPlain(name: string)
    requires |name| < TWO_TO_THE_64 - 1 && Detect(name) != None
    ensures PrintedBefore(name) <==> PlainNested(name)
  {
    hide *;
    DetectFacts(name);
    PlainNestedFact(name);
    if PrintedBefore(name) {
      PrintedOnlyPlain(name);
    }
    if PlainNested(name) {
      PlainPrinted(name);
    }
  }

  /**
   Of the recognised symbols of tests that take data, exactly for the nested ones with plain lengths
   and separable names the derived setup symbol is the symbol of `data_...` in the same namespace.
   */
  lemma DataSetupIff(name: string)
    requires |name| < TWO_TO_THE_64 - 1
    requires Detect(name) != None && Detect(name).value.requireDataSetup
    ensures IsTestName(TestNameIn(name))
    ensures var data := DATA_PREFIX + TestNameIn(name)[|TEST_PREFIX|..];
            Detect(name).value.dataSetup == Some(MangleGcc(Detect(name).value.namespace, data))
            <==> PlainNested(name)
  {
    hide *;
    DetectFacts(name);
    WholeTestName(name);
    var f, bare := FindTestName(name), TestNameIn(name);
    DropTestPrefix(bare);
    var data := DATA_PREFIX + bare[|TEST_PREFIX|..];
    PrintedIff(name, "Ev", bare, data);
    MangleIsMangled(WithoutLastSeparator(f.namespaces), data);
    Associate(name[..f.start], DATA_PREFIX, DropPrefix(bare));
    Associate(name[..f.start], data, "Ev");
    BeforeIffPlain(name);
  }

  lemma DropTestPrefix(bare: string)
    requires IsTestName(bare)
    ensures |bare| >= |TEST_PREFIX| && DropPrefix(bare) == bare[|TEST_PREFIX|..]
    ensures |DATA_PREFIX + bare[|TEST_PREFIX|..]| == |bare|
  {
  }

  lemma NamespaceComponents(cs: seq<string>, ns: string)
    requires forall c :: c in cs ==> c != ""
    requires ns == WithoutLastSeparator(Prefixes(cs))
    ensures Components(ns) == cs <==> Separable(cs)
    ensures Prefixes(Components(ns)) == Prefixes(cs)
  {
    if cs == [] {
      assert Prefixes(cs) == "";
    } else {
      assert cs[0] in cs;
      PrefixesLength(cs);
      ComponentsPrefixesIff(cs);
      PrefixesEnd(cs);
      PrefixesComponents(ns);
      hide Prefixes, ComponentsRest, Separable;
    }
  }

  lemma {:induction false} PrefixesEnd(cs: seq<string>)
    requires cs != []
    ensures |Prefixes(cs)| >= 2 && Prefixes(cs)[..|Prefixes(cs)| - 2] + "::" == Prefixes(cs)
  {
    var c, rest := cs[0], Prefixes(cs[1..]);
    assert Prefixes(cs) == c + "::" + rest;
    if |cs| == 1 {
      assert cs[1..] == [] && (c + "::")[..|c|] == c;
    } else {
      PrefixesEnd(cs[1..]);
      hide *;
      var all := c + "::" + rest;
      assert all[..|all| - 2] == c + "::" + rest[..|rest| - 2];
    }
  }

  lemma {:induction false} PassedNonEmpty(name: string, i: nat)
    requires i <= |name|
    ensures forall c :: c in Passed(name, i) ==> c != ""
    decreases |name| - i
  {
    hide StrToULL;
    var n := StrToULL(name, i);
    var next := n.end + n.value;
    if n.value > 0 && next < |name| && IsDigit(name[next]) {
      PassedNonEmpty(name, next);
    }
  }

  // ---------------------------------------------------------------- exactly when

  /** The namespaces collected are the components passed, whatever the text. */
  lemma {:induction false} PassedNamespaces(name: string, i: nat, namespaces: string)
    requires i <= |name| && ScanNames(name, i, namespaces) != NotMangled
    ensures ScanNames(name, i, namespaces).namespaces == namespaces + Prefixes(Passed(name, i))
    decreases |name| - i
  {
    hide *;
    ScanUnfold(name, i, namespaces);
    PassedUnfold(name, i);
    var n := StrToULL(name, i);
    var next := n.end + n.value;
    if next < |name| && IsDigit(name[next]) {
      var c := name[n.end..next];
      PassedNamespaces(name, next, namespaces + c + "::");
      OnePrefix(namespaces, c, Passed(name, next));
    } else {
      NothingPrinted("", [], namespaces);
    }
  }

  lemma PassedUnfold(name: string, i: nat)
    requires i <= |name|
    ensures var n := StrToULL(name, i);
            var next := n.end + n.value;
            && i <= n.end
            && Passed(name, i) == if n.value == 0 || next >= |name| || !IsDigit(name[next]) then []
                                  else [name[n.end..next]] + Passed(name, next)
  {
    hide StrToULL;
  }

  lemma OnePrefix(namespaces: string, c: string, more: seq<string>)
    ensures (namespaces + c + "::") + Prefixes(more) == namespaces + Prefixes([c] + more)
  {
    assert ([c] + more)[1..] == more;
    assert Prefixes([c] + more) == c + "::" + Prefixes(more);
    hide *;
    Associate(namespaces, c, "::");
    Associate(namespaces, c + "::", Prefixes(more));
  }

  /** Text without "::" from lo up to the test name: no name passed there holds one. */
  lemma {:induction false} PassedSeparatorFree(name: string, lo: nat, i: nat, end: nat, namespaces: string)
    requires lo <= i <= |name| && ScanNames(name, i, namespaces) != NotMangled
    requires ScanNames(name, i, namespaces).at <= end <= |name|
    requires forall k :: lo <= k < end - 1 ==> !SeparatorAt(name, k)
    ensures i <= ScanNames(name, i, namespaces).at
    ensures forall c :: c in Passed(name, i) ==> SeparatorFree(c)
    decreases |name| - i
  {
    hide *;
    ScanUnfold(name, i, namespaces);
    PassedUnfold(name, i);
    var n := StrToULL(name, i);
    var next := n.end + n.value;
    if n.value > 0 && next < |name| && IsDigit(name[next]) {
      var c := name[n.end..next];
      PassedSeparatorFree(name, lo, next, end, namespaces + c + "::");
      PartSeparatorFree(name, lo, n.end, next, end);
    }
  }

  lemma PartSeparatorFree(s: string, lo: nat, i: nat, j: nat, end: nat)
    requires lo <= i <= j <= end <= |s| && forall k :: lo <= k < end - 1 ==> !SeparatorAt(s, k)
    ensures SeparatorFree(s[i..j])
  {
    assert forall k :: 0 <= k < |s[i..j]| && SeparatorAt(s[i..j], k) ==> SeparatorAt(s, i + k);
  }

  lemma ComponentsSeparated(ns: string)
    ensures forall c :: c in Components(ns) ==> SeparatorFree(c)
  {
    hide SeparatorFree;
    if ns != "" {
      ComponentsSeparable(ns);
    }
  }

  /** Printed components are kept apart by their lengths: no "::" comes up between them. */
  lemma {:induction false} PrintedSeparatorFree(cs: seq<string>, digits: string)
    requires digits != "" && AllDigits(digits) && forall c :: c in cs ==> SeparatorFree(c)
    ensures var text := SourceNames(cs) + digits;
            SeparatorFree(text) && text != "" && IsDigit(text[0])
  {
    if cs == [] {
      assert SourceNames(cs) + digits == digits;
    } else {
      var c, rest := cs[0], SourceNames(cs[1..]) + digits;
      assert c in cs && forall d :: d in cs[1..] ==> d in cs;
      PrintedSeparatorFree(cs[1..], digits);
      NumeralValue(|c|);
      assert SourceNames(cs) + digits == (Numeral(|c|) + c) + SourceNames(cs[1..]) + digits;
      hide *;
      Associate(Numeral(|c|) + c, SourceNames(cs[1..]), digits);
      SeparatedByDigits(Numeral(|c|), c, rest);
    }
  }

  lemma SeparatedByDigits(digits: string, c: string, rest: string)
    requires digits != "" && AllDigits(digits) && SeparatorFree(c)
    requires SeparatorFree(rest) && rest != "" && IsDigit(rest[0])
    ensures var text := digits + c + rest;
            SeparatorFree(text) && text != "" && IsDigit(text[0])
  {
    var text, n, m := digits + c + rest, |digits|, |digits| + |c|;
    assert forall k :: 0 <= k < n ==> text[k] == digits[k];
    assert forall k :: n <= k < m ==> text[k] == c[k - n];
    assert forall k :: m <= k < |text| ==> text[k] == rest[k - m];
    forall k | 0 <= k < |text|
      ensures !SeparatorAt(text, k)
    {
      assert n <= k < m ==> !SeparatorAt(c, k - n);
      assert m <= k ==> !SeparatorAt(rest, k - m);
      assert text[m] == rest[0];
    }
  }

  /** Where the text before the test name is printed, no name passed holds a "::". */
  lemma PassedSeparated(name: string)
    requires "_ZN" <= name && Detect(name) != None && PrintedBefore(name)
    ensures |name| >= 3 && forall c :: c in Passed(name, 3) ==> SeparatorFree(c)
  {
    hide *;
    DetectFacts(name);
    NestedFound(name);
    PrintedBeforeFact(name);
    var f := FindTestName(name);
    var cs := Components(WithoutLastSeparator(f.namespaces));
    ComponentsSeparated(WithoutLastSeparator(f.namespaces));
    NumeralValue(f.length);
    PrintedSeparatorFree(cs, Numeral(f.length));
    StartSeparatorFree(name, SourceNames(cs), Numeral(f.length), f.start);
    var at := ScanNames(name, 3, "").at;
    PassedSeparatorFree(name, 3, 3, f.start, "");
  }

  lemma StartSeparatorFree(name: string, names: string, digits: string, start: nat)
    requires start <= |name| && name[..start] == "_ZN" + names + digits && SeparatorFree(names + digits)
    ensures forall k :: 3 <= k < start - 1 ==> !SeparatorAt(name, k)
  {
    var text := names + digits;
    assert name[..start] == "_ZN" + text;
    assert forall k :: 3 <= k < start ==> name[k] == name[..start][k] == text[k - 3];
    forall k | 3 <= k < start - 1
      ensures !SeparatorAt(name, k)
    {
      assert !SeparatorAt(text, k - 3);
    }
  }

  lemma {:induction false} ValueGrows(a: string, b: string)
    requires AllDigits(a) && AllDigits(b) && b != ""
    ensures AllDigits(a + b) && Value(a + b) >= 10 * Value(a)
  {
    var init := b[..|b| - 1];
    assert (a + b)[..|a + b| - 1] == a + init;
    if init == "" {
      assert a + init == a;
    } else {
      ValueGrows(a, init);
    }
  }

  /** A run of digits that goes on behind d is read as something larger. */
  lemma LongerRun(s: string, i: nat, d: string)
    requires d != "" && AllDigits(d) && Value(d) > 0
    requires i + |d| < |s| && s[i..i + |d|] == d && IsDigit(s[i + |d|])
    ensures StrToULL(s, i).value >= 10 * Value(d) || StrToULL(s, i).value == TWO_TO_THE_64 - 1
  {
    hide *;
    RunBeyond(s, i, d);
    StrToULLRun(s, i);
    var e := DigitsEnd(s, i);
    ValueGrows(d, s[i + |d|..e]);
  }

  lemma RunBeyond(s: string, i: nat, d: string)
    requires d != "" && AllDigits(d) && i + |d| < |s| && s[i..i + |d|] == d && IsDigit(s[i + |d|])
    ensures IsDigit(s[i])
    ensures var from, e := i + |d|, DigitsEnd(s, i);
            from < e <= |s| && AllDigits(s[i..e]) && AllDigits(s[from..e]) && s[i..e] == d + s[from..e]
  {
    var from, e := i + |d|, DigitsEnd(s, i);
    assert forall k :: i <= k < from ==> s[k] == s[i..from][k - i] == d[k - i];
    hide DigitsEnd;
    assert e > from;
    assert forall k :: i <= k < e ==> s[k] == s[i..e][k - i];
    assert s[i..e] == s[i..from] + s[from..e];
  }

  lemma StrToULLRun(s: string, i: nat)
    requires i < |s| && IsDigit(s[i])
    ensures var value := Value(s[i..DigitsEnd(s, i)]);
            StrToULL(s, i).value == if value >= TWO_TO_THE_64 then TWO_TO_THE_64 - 1 else value
  {
    hide Value;
    assert SkipSpaces(s, i) == i;
  }

  // ---------------------------------------------------------------- a print that is scanned as itself

  /** "::", a times. */
  function Separators(a: nat): string {
    if a == 0 then "" else "::" + Separators(a - 1)
  }

  ghost predicate Zeros(z: string) {
    AllDigits(z) && Value(z) == 0
  }

  lemma {:induction false} SeparatorsShift(a: nat)
    ensures Separators(a) + ":" == ":" + Separators(a) && Separators(a) + "::" == Separators(a + 1)
    ensures |Separators(a)| == 2 * a && (a > 0 ==> "::" <= Separators(a))
  {
    if a > 0 {
      SeparatorsShift(a - 1);
      var s := Separators(a - 1);
      assert Separators(a) == "::" + s && Separators(a + 1) == "::" + Separators(a);
      hide *;
      assert "::" + s + ":" == "::" + (s + ":") == ":" + ("::" + s);
      assert "::" + s + "::" == "::" + (s + "::");
    }
  }

  lemma {:induction false} ZerosBefore(z: string, d: string)
    requires Zeros(z) && AllDigits(d)
    ensures AllDigits(z + d) && Value(z + d) == Value(d)
  {
    if d == "" {
      assert z + d == z;
    } else {
      var init := d[..|d| - 1];
      ZerosBefore(z, init);
      assert (z + d)[..|z + d| - 1] == z + init;
    }
  }

  /** The length printed before a component, possibly after zeros, is read up to the digits' end. */
  lemma LengthReads(s: string, i: nat, z: string, c: string, rest: string)
    requires i <= |s| && s[i..] == z + (SourceName(c) + rest) && Zeros(z) && c != ""
    requires |s| < TWO_TO_THE_64 - 1
    ensures var d, n := z + Numeral(|c|), StrToULL(s, i);
            && i + |d| + |c| <= |s| && i < |s| && IsDigit(s[i])
            && s[i + |d|..i + |d| + |c|] == c && s[i + |d| + |c|..] == rest
            && (!IsDigit(c[0]) ==> n == Number(|c|, i + |d|))
            && (IsDigit(c[0]) ==> n.value >= 10)
  {
    hide *;
    var d := z + Numeral(|c|);
    NumeralValue(|c|);
    ZerosBefore(z, Numeral(|c|));
    SourceNameFact(c);
    LengthPlace(s, i, z, Numeral(|c|), c, rest);
    if IsDigit(c[0]) {
      TenfoldRun(s, i, d);
    } else {
      StrToULLDigits(s, i, i + |d|);
    }
  }

  lemma TenfoldRun(s: string, i: nat, d: string)
    requires d != "" && AllDigits(d) && Value(d) > 0
    requires i + |d| < |s| && s[i..i + |d|] == d && IsDigit(s[i + |d|])
    ensures StrToULL(s, i).value >= 10
  {
    hide StrToULL, Value;
    LongerRun(s, i, d);
  }

  lemma LengthPlace(s: string, i: nat, z: string, d: string, c: string, rest: string)
    requires i <= |s| && s[i..] == z + ((d + c) + rest) && AllDigits(z + d) && d != "" && c != ""
    ensures var e := i + |z + d|;
            && i < e && e + |c| <= |s| && s[i..e] == z + d && s[e..e + |c|] == c && s[e + |c|..] == rest
            && s[e] == c[0] && IsDigit(s[i])
  {
    var e, tail := i + |z + d|, s[i..];
    assert tail == (z + d) + (c + rest);
    assert s[i..e] == tail[..e - i] == z + d;
    assert s[e..] == tail[e - i..] == c + rest;
    assert s[e..e + |c|] == s[e..][..|c|] && s[e + |c|..] == s[e..][|c|..];
    assert s[i] == (z + d)[0];
  }

  /** A name without "::" that, followed by "::", begins with "::" is a single colon. */
  lemma SingleColon(p: string, more: string, all: string)
    requires p != "" && SeparatorFree(p) && "::" <= all && all == p + "::" + more
    ensures p == ":"
  {
    assert all[..2] == "::" && all[0] == all[..2][0] && all[1] == all[..2][1];
    assert p[0] == ':';
    if |p| > 1 {
      assert p[1] == all[1];
      assert SeparatorAt(p, 0);
    }
  }

  lemma DropFirst(a: nat, p: string, more: string, rest: string)
    requires a > 0 ==> p == ":"
    requires p + "::" + more == Separators(a) + (p + "::" + rest)
    ensures more == Separators(a) + rest
  {
    SeparatorsShift(a);
    var s := Separators(a);
    assert s + "::" == "::" + s;
    assert s + p == p + s;
    hide *;
    assert s + (p + "::" + rest) == (s + p) + ("::" + rest);
    assert (p + s) + ("::" + rest) == p + ((s + "::") + rest);
    assert p + (("::" + s) + rest) == (p + "::") + (s + rest);
    TailAfter(p + "::", more, s + rest);
  }

  lemma TailAfter(a: string, b: string, c: string)
    requires a + b == a + c
    ensures b == c
  {
    assert b == (a + b)[|a|..] && c == (a + c)[|a|..];
  }

  lemma PassedHead(s: string, i: nat)
    requires i <= |s| && Passed(s, i) != []
    ensures var n, ps := StrToULL(s, i), Passed(s, i);
            var next := n.end + n.value;
            && i <= n.end && n.value > 0 && next < |s| && IsDigit(s[next]) && ps[0] == s[n.end..next]
            && |ps[0]| == n.value && ps[1..] == Passed(s, next) && ps[0] in ps && s[n.end] == ps[0][0]
            && (forall p :: p in ps[1..] ==> p in ps)
            && Prefixes(ps) == ps[0] + "::" + Prefixes(ps[1..])
  {
    PassedUnfold(s, i);
    hide StrToULL;
  }

  lemma PrintedHead(cs: seq<string>, rest: string)
    requires cs != []
    ensures SourceNames(cs) + rest == SourceName(cs[0]) + (SourceNames(cs[1..]) + rest)
    ensures Prefixes(cs) == cs[0] + "::" + Prefixes(cs[1..])
    ensures cs[0] in cs && forall d :: d in cs[1..] ==> d in cs
  {
    var a, b := SourceName(cs[0]), SourceNames(cs[1..]);
    assert SourceNames(cs) == a + b;
    hide SourceNames, SourceName, Prefixes;
    Associate(a, b, rest);
  }

  /** Behind the last component only the test name is read. */
  lemma OwnEnd(s: string, i: nat, z: string, a: nat, bare: string, signature: string)
    requires i <= |s| < TWO_TO_THE_64 - 1 && s[i..] == z + (SourceName(bare) + signature) && Zeros(z)
    requires IsTestName(bare) && signature != "" && !IsDigit(signature[0])
    requires Prefixes(Passed(s, i)) == Separators(a)
    ensures a == 0 && Passed(s, i) == []
  {
    TestNameGood(bare);
    GoodStart(bare);
    hide *;
    LengthReads(s, i, z, bare, signature);
    PassedUnfold(s, i);
    var next := i + |z + Numeral(|bare|)| + |bare|;
    assert s[next] == s[next..][0];
    SeparatorsShift(a);
    NoPrefixes();
  }

  lemma GoodStart(c: string)
    requires GoodComponent(c)
    ensures c != "" && !IsDigit(c[0])
  {
  }

  lemma NoPrefixes()
    ensures Prefixes([]) == "" && SourceNames([]) == "" && GoodComponents([])
  {
  }

  /** An empty component is printed as a zero before the next length. */
  lemma ZeroGrows(z: string, a: nat, more: string, prefixes: string)
    requires Zeros(z)
    ensures Zeros(z + "0") && z + (SourceName("") + more) == (z + "0") + more
    ensures Separators(a) + ("" + "::" + prefixes) == Separators(a + 1) + prefixes
  {
    assert Numeral(0) == "0" && SourceName("") == "0" + "";
    assert "0"[..0] == "" && Value("0") == 0;
    ZerosBefore(z, "0");
    SeparatorsShift(a);
    hide *;
    EmptyTail("0");
    EmptyHead("::");
    Associate(z, "0", more);
    Associate(Separators(a), "::", prefixes);
  }

  /** A component that starts with a digit is never passed as itself, nor as a single colon. */
  lemma DigitMisleads(s: string, i: nat, a: nat, c: string, rest: string)
    requires i < |s| && Passed(s, i) != [] && IsDigit(s[i]) && c != ""
    requires IsDigit(c[0]) ==> StrToULL(s, i).value >= 10
    requires SeparatorFree(Passed(s, i)[0])
    requires Prefixes(Passed(s, i)) == Separators(a) + (c + "::" + rest)
    ensures !IsDigit(c[0])
  {
    hide *;
    PassedHead(s, i);
    var p := Passed(s, i)[0];
    SeparatorsShift(a);
    if a > 0 {
      StartsWith(Separators(a), c + "::" + rest);
      SingleColon(p, Prefixes(Passed(s, i)[1..]), Prefixes(Passed(s, i)));
    } else {
      StopsAtNonDigit(s, i);
      FirstOf(p, Prefixes(Passed(s, i)[1..]), c, rest);
    }
  }

  lemma StartsWith(a: string, b: string)
    requires "::" <= a
    ensures "::" <= a + b
  {
    assert (a + b)[..2] == a[..2];
  }

  lemma FirstOf(p: string, more: string, c: string, rest: string)
    requires p != "" && c != "" && p + "::" + more == "" + (c + "::" + rest)
    ensures p[0] == c[0]
  {
    assert (p + "::" + more)[0] == p[0] && (c + "::" + rest)[0] == c[0];
  }

  /**
   If the names the scanner passes and the components that were printed give the same qualified
   name, they are the same, and none is empty or starts with a digit.  On the way, `z` holds the
   zeros printed for empty components and `a` counts the separators these are ahead by.
   */
  lemma {:induction false} OwnPassed(s: string, i: nat, z: string, a: nat, cs: seq<string>, bare: string,
                                     signature: string)
    requires i <= |s| < TWO_TO_THE_64 - 1 && Zeros(z)
    requires s[i..] == z + SourceNames(cs) + (SourceName(bare) + signature)
    requires IsTestName(bare) && signature != "" && !IsDigit(signature[0])
    requires (z != "" ==> a > 0) && Prefixes(Passed(s, i)) == Separators(a) + Prefixes(cs)
    requires forall p :: p in Passed(s, i) ==> SeparatorFree(p)
    ensures a == 0 && Passed(s, i) == cs && GoodComponents(cs)
    decreases |cs|
  {
    hide *;
    var rest := SourceName(bare) + signature;
    NoPrefixes();
    Associate(z, SourceNames(cs), rest);
    if cs == [] {
      EmptyHead(rest);
      EmptyTail(Separators(a));
      OwnEnd(s, i, z, a, bare, signature);
    } else {
      var c, more := cs[0], cs[1..];
      PrintedHead(cs, rest);
      if c == "" {
        ZeroGrows(z, a, SourceNames(more) + rest, Prefixes(more));
        Associate(z + "0", SourceNames(more), rest);
        OwnPassed(s, i, z + "0", a + 1, more, bare, signature);
      } else {
        LengthReads(s, i, z, c, SourceNames(more) + rest);
        SomePassed(Passed(s, i), Separators(a), c, Prefixes(more));
        PassedHead(s, i);
        DigitMisleads(s, i, a, c, Prefixes(more));
        var next := i + |z + Numeral(|c|)| + |c|;
        SeparatorsShift(a);
        if a > 0 {
          StartsWith(Separators(a), Prefixes(cs));
          SingleColon(c, Prefixes(Passed(s, next)), Prefixes(Passed(s, i)));
        }
        DropFirst(a, c, Prefixes(Passed(s, next)), Prefixes(more));
        EmptyHead(SourceNames(more));
        NoZeros();
        OwnPassed(s, next, "", a, more, bare, signature);
        assert Passed(s, i) == [c] + Passed(s, next) && cs == [c] + more;
        GoodFact(c);
        GoodCons(cs);
      }
    }
  }

  lemma NoZeros()
    ensures Zeros("")
  {
  }

  lemma SomePassed(ps: seq<string>, separators: string, c: string, more: string)
    requires Prefixes(ps) == separators + (c + "::" + more)
    ensures ps != []
  {
    NoPrefixes();
    hide Prefixes;
  }

  lemma GoodFact(c: string)
    requires c != "" && !IsDigit(c[0]) && |c| < TWO_TO_THE_64
    ensures GoodComponent(c)
  {
  }

  lemma GoodCons(cs: seq<string>)
    requires cs != [] && GoodComponent(cs[0]) && GoodComponents(cs[1..])
    ensures GoodComponents(cs)
  {
    hide GoodComponent;
    assert forall c :: c in cs ==> c == cs[0] || c in cs[1..];
  }

  lemma {:induction false} ShortComponents(cs: seq<string>)
    ensures forall c :: c in cs ==> |c| <= |SourceNames(cs)|
  {
    if cs != [] {
      ShortComponents(cs[1..]);
      hide Numeral;
    }
  }

  /** Where recognition gives namespace and name back, the text before the test name is what is printed. */
  lemma RecoveredPrinted(ns: string, name: string)
    requires IsTestName(name)
    requires var symbol := MangleGcc(Some(ns), name); IsTest(Detect(symbol), ns, name)
    ensures PrintedBefore(MangleGcc(Some(ns), name)) && Detect(MangleGcc(Some(ns), name)) != None
    ensures WithoutLastSeparator(FindTestName(MangleGcc(Some(ns), name)).namespaces) == ns
  {
    hide *;
    var cs, symbol := Components(ns), MangleGcc(Some(ns), name);
    MangleIsMangled(ns, name);
    MangledText(cs, name, "Ev");
    MangledStart(cs, name);
    IsTestFact(Detect(symbol), ns, name);
    DetectFacts(symbol);
    var f, bare := FindTestName(symbol), TestNameIn(symbol);
    NamespacePassed(symbol, ns);
    PrefixesQualify(ns, name);
    TailAfter(f.namespaces, bare, name);
    SignatureLast(symbol, f.start + f.length);
    PrintedBeforeFact(symbol);
  }

  /** Of the three signatures only the first ends as the printed symbol does. */
  lemma SignatureLast(symbol: string, end: nat)
    requires end <= |symbol| && (symbol[end..] == "Ev" || symbol[end..] == "EPv" || symbol[end..] == "EPKv")
    requires |symbol| >= 2 && symbol[|symbol| - 2..] == "Ev"
    ensures symbol[end..] == "Ev" && end == |symbol| - 2
  {
    var tail := symbol[end..];
    assert symbol[|symbol| - 2] == tail[|tail| - 2] && symbol[|symbol| - 2..][0] == symbol[|symbol| - 2];
  }

  lemma NestedStart(symbol: string)
    requires "_ZN" <= symbol
    ensures |symbol| >= 3 && "_Z" <= symbol && symbol[2] == 'N'
  {
    assert symbol[..3] == "_ZN" && symbol[2] == symbol[..3][2];
    assert symbol[..2] == symbol[..3][..2] == "_Z";
  }

  /**
   Recognition gives back the namespace and the name if and only if no component of the namespace
   is empty or starts with a digit.
   */
  lemma RecoversIff(ns: string, name: string)
    requires IsTestName(name) && |MangleGcc(Some(ns), name)| < TWO_TO_THE_64 - 1
    ensures IsTest(Detect(MangleGcc(Some(ns), name)), ns, name)
            <==> forall c :: c in Components(ns) ==> c != "" && !IsDigit(c[0])
  {
    hide *;
    var cs, symbol := Components(ns), MangleGcc(Some(ns), name);
    MangleIsMangled(ns, name);
    MangledStart(cs, name);
    GoodParts(ns);
    GoodMeans(cs);
    if IsTest(Detect(symbol), ns, name) {
      RecoveredPrinted(ns, name);
      PrintedOnlyPlain(symbol);
    }
    if forall c :: c in cs ==> c != "" && !IsDigit(c[0]) {
      ShortComponents(cs);
      RoundTrip(ns, name);
      IsTestFact(Detect(symbol), ns, name);
    }
  }

  lemma MangledStart(cs: seq<string>, name: string)
    ensures "_ZN" <= Mangled(cs, name, "Ev")
    ensures |SourceNames(cs)| <= |Mangled(cs, name, "Ev")| && |name| <= |Mangled(cs, name, "Ev")|
  {
    hide SourceNames, Numeral;
    assert "_ZN" <= "_ZN" + SourceNames(cs) + SourceName(name) + "Ev";
  }

  lemma GoodMeans(cs: seq<string>)
    ensures GoodComponents(cs) ==> forall c :: c in cs ==> c != "" && !IsDigit(c[0])
    ensures (forall c :: c in cs ==> c != "" && !IsDigit(c[0]) && |c| < TWO_TO_THE_64) ==> GoodComponents(cs)
  {
  }

  /** Without "N" the symbol is accepted too, but printed with it. */
  lemma UnnestedExample()
    ensures "_Z6test_aEv" != MangleGcc(Some(""), "test_a")
    ensures Detect("_Z6test_aEv") != None && Detect("_Z6test_aEv").value.namespace == Some("")
  {
    var s := "_Z6test_aEv";
    ReadsSix(s);
    assert s[9..] == "Ev";
    assert MangleGcc(Some(""), "test_a")[2] == 'N';
  }

  lemma ReadsSix(s: string)
    requires |s| > 9 && s[2..3] == "6" && s[3..9] == "test_a"
    ensures StrToULL(s, 2) == Number(6, 3) && IsTestName(s[3..]) && s[3..3 + 6] == "test_a"
  {
    assert AllDigits("6") && Value("6") == 6 by { assert "6"[..0] == ""; }
    assert s[3] == s[3..9][0];
    StrToULLDigits(s, 2, 3);
    assert s[3..][..5] == s[3..9][..5] == TEST_PREFIX;
  }

  /** So is one whose test takes data, and then the derived setup symbol is not the one printed. */
  lemma UnnestedDataExample()
    ensures var names := Detect("_Z6test_aEPv");
            && names != None && names.value.namespace == Some("") && names.value.requireDataSetup
            && names.value.dataSetup == Some("_Z6data_aEv")
    ensures MangleGcc(Some(""), "data_a") != "_Z6data_aEv"
  {
    var s := "_Z6test_aEPv";
    ReadsSix(s);
    assert s[9..] == "EPv" && s[..3] == "_Z6" && SkipNamespace(s) == Skipped(2, "");
    assert FindTestName(s) == Found(3, 6, "");
    hide StrToULL, FindTestName, SkipNamespace;
    assert DropPrefix("test_a") == "a";
    assert s[..3] + DATA_PREFIX + "a" + "Ev" == "_Z6data_aEv";
    assert MangleGcc(Some(""), "data_a")[2] == 'N';
  }
}
