/** Qualified names and numbers in symbols: g_strsplit on "::", g_ascii_strtoull. */
module SymbolNames {
  import opened Decimal
  import opened Wrappers

  /** What the loader remembers of a recognised test function symbol. */
  datatype Names = Names(namespace: Option<string>, testName: string, functionName: string,
                         dataSetup: Option<string>, requireDataSetup: bool, cpp: bool, gcc: bool)

  const TEST_PREFIX := "test_"
  const DATA_PREFIX := "data_"

  predicate IsTestName(s: string) {
    TEST_PREFIX <= s
  }

  // ---------------------------------------------------------------- components

  predicate SeparatorAt(s: string, k: nat) {
    k + 1 < |s| && s[k] == ':' && s[k + 1] == ':'
  }

  /** The position of the first "::", or the length. */
  function FirstSeparator(s: string): (k: nat)
    ensures k <= |s| && (k < |s| ==> SeparatorAt(s, k))
    ensures forall i :: 0 <= i < k ==> !SeparatorAt(s, i)
  {
    if s == "" || SeparatorAt(s, 0) then 0
    else
      var k := FirstSeparator(s[1..]);
      assert forall i :: 1 <= i <= k ==> (SeparatorAt(s, i) <==> SeparatorAt(s[1..], i - 1));
      1 + k
  }

  /** g_strsplit(s, "::", 0) */
  function Components(s: string): seq<string> {
    if s == "" then [] else ComponentsRest(s)
  }

  function ComponentsRest(s: string): (cs: seq<string>)
    ensures cs != []
    decreases |s|
  {
    var k := FirstSeparator(s);
    if k == |s| then [s] else [s[..k]] + ComponentsRest(s[k + 2..])
  }

  /** Every component followed by "::". */
  function Prefixes(cs: seq<string>): string {
    if cs == [] then "" else cs[0] + "::" + Prefixes(cs[1..])
  }

  lemma {:induction false} PrefixesComponents(s: string)
    ensures Prefixes(ComponentsRest(s)) == s + "::"
    decreases |s|
  {
    var k := FirstSeparator(s);
    hide FirstSeparator;
    if k < |s| {
      PrefixesComponents(s[k + 2..]);
      assert s == s[..k] + "::" + s[k + 2..];
      assert ComponentsRest(s)[1..] == ComponentsRest(s[k + 2..]);
    } else {
      assert [s][1..] == [];
    }
  }

  /** A qualified name; the name alone if there is no namespace. */
  function Qualified(namespace: string, name: string): string {
    if namespace == "" then name else namespace + "::" + name
  }

  lemma PrefixesQualify(namespace: string, name: string)
    ensures Prefixes(Components(namespace)) + name == Qualified(namespace, name)
    ensures Prefixes(Components(namespace)) == if namespace == "" then "" else namespace + "::"
  {
    if namespace != "" {
      PrefixesComponents(namespace);
    }
  }

  /** Recognition gave back the namespace and the name. */
  predicate IsTest(names: Option<Names>, ns: string, name: string) {
    names.Some? && names.value.namespace == Some(ns) && names.value.testName == Qualified(ns, name)
  }

  lemma IsTestFact(names: Option<Names>, ns: string, name: string)
    ensures IsTest(names, ns, name)
            <==> names.Some? && names.value.namespace == Some(ns) && names.value.testName == Qualified(ns, name)
  {
    hide Qualified;
  }

  lemma QualifiedInjective(ns: string, name: string, name': string)
    requires Qualified(ns, name) == Qualified(ns, name')
    ensures name == name'
  {
    if ns != "" {
      assert Qualified(ns, name)[|ns| + 2..] == name;
      assert Qualified(ns, name')[|ns| + 2..] == name';
    }
  }

  predicate SeparatorFree(s: string) {
    forall k :: 0 <= k < |s| ==> !SeparatorAt(s, k)
  }

  predicate EndsInColon(c: string) {
    c != "" && c[|c| - 1] == ':'
  }

  /** Components that joining with "::" keeps apart. */
  predicate Separable(cs: seq<string>) {
    cs != [] ==> SeparatorFree(cs[0]) && (|cs| > 1 ==> !EndsInColon(cs[0])) && Separable(cs[1..])
  }

  lemma FirstSeparatorAfter(c: string, rest: string)
    requires SeparatorFree(c) && !EndsInColon(c)
    ensures FirstSeparator(c + "::" + rest) == |c|
  {
    var s := c + "::" + rest;
    var k := FirstSeparator(s);
    hide FirstSeparator;
    assert SeparatorAt(s, |c|);
    assert forall i :: 0 <= i < |c| ==> s[i] == c[i];
    assert forall i :: 0 <= i < |c| && SeparatorAt(s, i) ==> SeparatorAt(c, i) || i == |c| - 1;
  }

  lemma FirstSeparatorNone(c: string)
    requires SeparatorFree(c)
    ensures FirstSeparator(c) == |c|
  {
  }

  /** The components of a text are separable. */
  lemma {:induction false} ComponentsSeparable(s: string)
    ensures Separable(ComponentsRest(s)) && forall c :: c in ComponentsRest(s) ==> SeparatorFree(c)
    decreases |s|
  {
    var k := FirstSeparator(s);
    hide FirstSeparator, SeparatorFree;
    if k < |s| {
      ComponentsSeparable(s[k + 2..]);
      BeforeSeparator(s, k);
      assert ComponentsRest(s)[1..] == ComponentsRest(s[k + 2..]);
    } else {
      BeforeSeparator(s, k);
      assert s[..k] == s && [s][1..] == [];
    }
  }

  lemma BeforeSeparator(s: string, k: nat)
    requires k == FirstSeparator(s)
    ensures SeparatorFree(s[..k]) && (k < |s| ==> !EndsInColon(s[..k]))
  {
    hide FirstSeparator;
    assert forall i :: 0 <= i < k && SeparatorAt(s[..k], i) ==> SeparatorAt(s, i);
    assert 0 < k < |s| ==> !SeparatorAt(s, k - 1);
  }

  /** Joining components and splitting again gives them back exactly if they are separable. */
  lemma ComponentsPrefixesIff(cs: seq<string>)
    requires cs != []
    ensures |Prefixes(cs)| >= 2
    ensures ComponentsRest(Prefixes(cs)[..|Prefixes(cs)| - 2]) == cs <==> Separable(cs)
  {
    PrefixesLength(cs);
    hide Prefixes, Separable;
    ComponentsSeparable(Prefixes(cs)[..|Prefixes(cs)| - 2]);
    hide ComponentsRest;
    if Separable(cs) {
      ComponentsPrefixes(cs);
    }
  }

  lemma PrefixesLength(cs: seq<string>)
    requires cs != []
    ensures |Prefixes(cs)| >= |cs[0]| + 2
  {
    assert Prefixes(cs) == cs[0] + "::" + Prefixes(cs[1..]);
  }

  lemma {:induction false} ComponentsPrefixes(cs: seq<string>)
    requires cs != [] && Separable(cs)
    ensures |Prefixes(cs)| >= 2
    ensures ComponentsRest(Prefixes(cs)[..|Prefixes(cs)| - 2]) == cs
  {
    hide *;
    var c, rest := cs[0], cs[1..];
    FirstComponent(cs);
    if rest == [] {
      SplitLast(c);
    } else {
      ComponentsPrefixes(rest);
      SplitFirst(c, Prefixes(rest), rest);
      assert cs == [c] + rest;
    }
  }

  lemma FirstComponent(cs: seq<string>)
    requires cs != [] && Separable(cs)
    ensures SeparatorFree(cs[0]) && (cs[1..] != [] ==> !EndsInColon(cs[0])) && Separable(cs[1..])
    ensures Prefixes(cs) == cs[0] + "::" + Prefixes(cs[1..])
    ensures cs[1..] == [] ==> cs == [cs[0]] && Prefixes(cs) == cs[0] + "::"
  {
    hide SeparatorFree;
  }

  lemma SplitLast(c: string)
    requires SeparatorFree(c)
    ensures ComponentsRest((c + "::")[..|c + "::"| - 2]) == [c]
  {
    FirstSeparatorNone(c);
    assert (c + "::")[..|c|] == c;
  }

  lemma SplitFirst(c: string, tail: string, rest: seq<string>)
    requires SeparatorFree(c) && !EndsInColon(c) && |tail| >= 2 && ComponentsRest(tail[..|tail| - 2]) == rest
    ensures var text := c + "::" + tail; ComponentsRest(text[..|text| - 2]) == [c] + rest
  {
    var inner, text := tail[..|tail| - 2], c + "::" + tail;
    FirstSeparatorAfter(c, inner);
    SplitText(c, inner);
    hide FirstSeparator, SeparatorFree;
    assert text[..|text| - 2] == c + "::" + inner;
  }

  lemma SplitText(c: string, inner: string)
    ensures (c + "::" + inner)[..|c|] == c && (c + "::" + inner)[|c| + 2..] == inner
  {
  }

  // ---------------------------------------------------------------- numbers

  const TWO_TO_THE_64 := 0x1_0000_0000_0000_0000

  predicate IsSpace(c: char) {
    c == ' ' || (9 <= c as int <= 13)
  }

  function SkipSpaces(s: string, i: nat): (e: nat)
    requires i <= |s|
    ensures i <= e <= |s|
    decreases |s| - i
  {
    if i < |s| && IsSpace(s[i]) then SkipSpaces(s, i + 1) else i
  }

  /** The value read and the position after it; without digits nothing is consumed. */
  datatype Number = Number(value: nat, end: nat)

  /** g_ascii_strtoull in base 10: blanks, a sign, saturation and negation modulo 2^64 included. */
  function StrToULL(s: string, i: nat): (n: Number)
    requires i <= |s|
    ensures i <= n.end <= |s| && n.value < TWO_TO_THE_64
  {
    var b := SkipSpaces(s, i);
    var negative := b < |s| && s[b] == '-';
    var d := if b < |s| && (s[b] == '-' || s[b] == '+') then b + 1 else b;
    var e := DigitsEnd(s, d);
    if e == d then Number(0, i) else
    var v := if Value(s[d..e]) >= TWO_TO_THE_64 then TWO_TO_THE_64 - 1 else Value(s[d..e]);
    Number(if negative && v > 0 then TWO_TO_THE_64 - v else v, e)
  }

  /** A plain run of digits reads as its number. */
  lemma StrToULLDigits(s: string, i: nat, e: nat)
    requires i < e <= |s| && AllDigits(s[i..e]) && (e < |s| ==> !IsDigit(s[e]))
    requires Value(s[i..e]) < TWO_TO_THE_64
    ensures StrToULL(s, i) == Number(Value(s[i..e]), e)
  {
    hide Value;
    assert s[i..e][0] == s[i];
    assert forall k :: i <= k < e ==> s[k] == s[i..e][k - i];
    DigitsEndAt(s, i, e);
  }

  lemma {:induction false} BlanksSkipped(s: string, i: nat, b: nat)
    requires i <= b <= |s| && (forall k :: i <= k < b ==> s[k] == ' ' || 9 <= s[k] as int <= 13)
    requires b < |s| ==> !(s[b] == ' ' || 9 <= s[b] as int <= 13)
    ensures SkipSpaces(s, i) == b
    decreases b - i
  {
    if i < b {
      BlanksSkipped(s, i + 1, b);
    }
  }

  /**
   What a number is read as: behind blanks and one sign, if there is one, the digits, at most the
   largest 64-bit number, and negated modulo 2^64 behind a minus; nothing is read without digits.
   */
  lemma StrToULLMeans(s: string, i: nat, b: nat, sign: string, e: nat)
    requires i <= b && b + |sign| <= e <= |s| && s[b..b + |sign|] == sign && (sign == "" || sign == "+" || sign == "-")
    requires forall k :: i <= k < b ==> s[k] == ' ' || 9 <= s[k] as int <= 13
    requires forall k :: b + |sign| <= k < e ==> IsDigit(s[k])
    requires e < |s| ==> !IsDigit(s[e])
    requires b == e ==> b == |s| || !(s[b] in {' ', '+', '-'} || 9 <= s[b] as int <= 13)
    ensures AllDigits(s[b + |sign|..e])
    ensures var value := Value(s[b + |sign|..e]);
            var v := if value > 0xFFFF_FFFF_FFFF_FFFF then 0xFFFF_FFFF_FFFF_FFFF else value;
            StrToULL(s, i) == if b + |sign| == e then Number(0, i)
                              else Number(if sign == "-" && v > 0 then 0x1_0000_0000_0000_0000 - v else v, e)
  {
    var d := b + |sign|;
    assert forall k :: 0 <= k < |s[d..e]| ==> s[d..e][k] == s[d + k];
    assert sign != "" ==> s[b] == sign[0];
    BlanksSkipped(s, i, b);
    DigitsEndAt(s, d, e);
    hide SkipSpaces, DigitsEnd, Value;
  }

  /** A numeral followed by something else reads as its number. */
  lemma StrToULLNumeral(s: string, i: nat, n: nat)
    requires n < TWO_TO_THE_64
    requires i + |Numeral(n)| <= |s| && s[i..i + |Numeral(n)|] == Numeral(n)
    requires i + |Numeral(n)| < |s| ==> !IsDigit(s[i + |Numeral(n)|])
    ensures StrToULL(s, i) == Number(n, i + |Numeral(n)|)
  {
    NumeralValue(n);
    hide *;
    StrToULLDigits(s, i, i + |Numeral(n)|);
  }
}
