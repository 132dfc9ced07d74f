/** What a flags string says: its signs, its names, the error text, and the names of the log levels. */
module FlagLaws {
  import opened Seqs
  import opened Wrappers
  import opened Flags
  import opened Logger

  // ---------------------------------------------------------------- signs

  datatype Sign = Plus | Minus | Unsigned

  function SignText(sign: Sign): string {
    match sign
    case Plus => "+"
    case Minus => "-"
    case Unsigned => ""
  }

  /** A name as it is written, with or without a sign of its own. */
  datatype Word = Word(sign: Sign, name: string)

  predicate PlainWord(w: Word) {
    BarFree(w.name) && (w.sign == Unsigned ==> !Signed(w.name))
  }

  function WordText(w: Word): string {
    SignText(w.sign) + w.name
  }

  function WordTexts(words: seq<Word>): seq<string> {
    if words == [] then [] else [WordText(words[0])] + WordTexts(words[1..])
  }

  /** What a word means after the sign of the whole text. */
  function Meant(lead: Sign, w: Word): Token {
    Token(if w.sign == Unsigned then lead != Minus else w.sign == Plus, w.name)
  }

  function AllMeant(lead: Sign, words: seq<Word>): seq<Token> {
    if words == [] then [] else [Meant(lead, words[0])] + AllMeant(lead, words[1..])
  }

  lemma {:induction false} WordPieces(words: seq<Word>)
    requires forall w :: w in words ==> PlainWord(w)
    ensures forall p :: p in WordTexts(words) ==> BarFree(p)
    ensures |WordTexts(words)| == |words|
  {
    if words != [] {
      assert words[0] in words && forall w :: w in words[1..] ==> w in words;
      WordPieces(words[1..]);
      assert BarFree(WordText(words[0]));
    }
  }

  lemma {:induction false} WordTokens(lead: Sign, words: seq<Word>)
    requires forall w :: w in words ==> PlainWord(w)
    ensures Tokens(WordTexts(words), lead != Minus) == AllMeant(lead, words)
  {
    if words != [] {
      var w := words[0];
      assert w in words && forall v :: v in words[1..] ==> v in words;
      WordTokens(lead, words[1..]);
      OneWord(lead, w);
      assert WordTexts(words)[1..] == WordTexts(words[1..]) && WordTexts(words)[0] == WordText(w);
      hide WordText, TokenOf, Meant, PlainWord;
    }
  }

  lemma OneWord(lead: Sign, w: Word)
    requires PlainWord(w)
    ensures TokenOf(WordText(w), lead != Minus) == Meant(lead, w)
  {
    var text := WordText(w);
    assert w.sign != Unsigned ==> text[0] == SignText(w.sign)[0] && text[1..] == w.name;
    assert w.sign == Unsigned ==> text == w.name;
  }

  /**
   Reading undoes writing: the tokens of a text with a leading sign, or none, and names between
   bars are those names, each with its own sign, or else with that of the text.
   */
  lemma TextMeans(lead: Sign, words: seq<Word>)
    requires words != [] && forall w :: w in words ==> PlainWord(w)
    requires lead == Unsigned ==> words[0].sign == Unsigned
    requires words != [Word(Unsigned, "")]
    ensures var text := SignText(lead) + JoinBars(WordTexts(words));
            && TokensOf(text) == AllMeant(lead, words)
            && (Signed(text) <==> lead != Unsigned)
  {
    var texts := WordTexts(words);
    var body := JoinBars(texts);
    var text := SignText(lead) + body;
    WordPieces(words);
    WordTokens(lead, words);
    PiecesJoined(texts);
    assert words[0] in words && texts[0] == WordText(words[0]);
    FirstChar(texts);
    assert lead != Unsigned ==> text[0] == SignText(lead)[0] && text[1..] == body;
    assert lead == Unsigned ==> text == body;
    NotEmpty(words);
    hide PiecesRest, JoinBars, Tokens, WordTexts, AllMeant;
    assert Body(text) == body;
  }

  lemma FirstChar(texts: seq<string>)
    requires texts != []
    ensures JoinBars(texts) != "" && texts[0] != "" ==> JoinBars(texts)[0] == texts[0][0]
    ensures JoinBars(texts) != "" && texts[0] == "" ==> JoinBars(texts)[0] == '|'
    ensures JoinBars(texts) == "" <==> texts == [""]
  {
  }

  lemma NotEmpty(words: seq<Word>)
    requires words != [] && words != [Word(Unsigned, "")]
    ensures JoinBars(WordTexts(words)) != ""
  {
    FirstChar(WordTexts(words));
    if |words| == 1 {
      assert words == [words[0]] && WordTexts(words)[0] == WordText(words[0]);
      assert words[0].sign == Unsigned ==> WordText(words[0]) == words[0].name;
    } else {
      assert WordTexts(words)[1..] == WordTexts(words[1..]) && WordTexts(words[1..]) != [];
    }
  }

  // ---------------------------------------------------------------- names

  /** A nick stands for the first value of that nick. */
  lemma {:induction false} ByNickMeans(values: seq<(string, Bits)>, nick: string)
    ensures ByNick(values, nick) == None <==> forall i :: 0 <= i < |values| ==> values[i].0 != nick
    ensures forall i :: 0 <= i < |values| && values[i].0 == nick && (forall j :: 0 <= j < i ==> values[j].0 != nick) ==>
              ByNick(values, nick) == Some(values[i].1)
  {
    if values != [] {
      ByNickMeans(values[1..], nick);
      assert forall i :: 0 < i < |values| ==> values[i] == values[1..][i - 1];
    }
  }

  /** The mask has exactly the bits of the values. */
  lemma {:induction false} MaskMeans(values: seq<(string, Bits)>, bit: nat)
    ensures bit in MaskOf(values) <==> exists i :: 0 <= i < |values| && bit in values[i].1
  {
    if values != [] {
      MaskMeans(values[1..], bit);
      assert forall i :: 0 < i < |values| ==> values[i] == values[1..][i - 1];
    }
  }

  /** The unknown names, each in angle brackets. */
  function Bracketed(t: FlagsType, tokens: seq<Token>): seq<string> {
    if tokens == [] then []
    else
      Bracketed(t, tokens[..|tokens| - 1])
      + var last := tokens[|tokens| - 1];
        if Known(t, last) then [] else ["<" + last.name + ">"]
  }

  lemma {:induction false} JoinSnoc(pieces: seq<string>, p: string)
    ensures JoinBars(pieces + [p]) == (if pieces == [] then "" else JoinBars(pieces) + "|") + p
  {
    if pieces == [] {
      assert pieces + [p] == [p];
    } else {
      assert (pieces + [p])[1..] == pieces[1..] + [p] && (pieces + [p])[0] == pieces[0];
      JoinSnoc(pieces[1..], p);
    }
  }

  lemma Bracket(before: string, name: string)
    ensures before + "<" + name + ">" == before + ("<" + name + ">")
  {
    Associate(before, "<", name);
    Associate(before, "<" + name, ">");
  }

  lemma {:induction false} UnknownMeans(t: FlagsType, tokens: seq<Token>)
    ensures var names := Bracketed(t, tokens);
            Unknown(t, tokens) == if names == [] then None else Some(JoinBars(names))
  {
    hide *;
    UnknownUnfold(t, tokens);
    if tokens != [] {
      var init, last := tokens[..|tokens| - 1], tokens[|tokens| - 1];
      var names, name := Bracketed(t, init), "<" + last.name + ">";
      UnknownMeans(t, init);
      if Known(t, last) {
        EmptyTail(names);
      } else {
        JoinSnoc(names, name);
        Bracket(if names == [] then "" else JoinBars(names) + "|", last.name);
        assert names + [name] != [];
      }
    }
  }

  lemma UnknownUnfold(t: FlagsType, tokens: seq<Token>)
    ensures tokens == [] ==> Unknown(t, tokens) == None && Bracketed(t, tokens) == []
    ensures tokens != [] ==>
              var init, last := tokens[..|tokens| - 1], tokens[|tokens| - 1];
              var before := Unknown(t, init);
              && Bracketed(t, tokens) == Bracketed(t, init) + (if Known(t, last) then [] else ["<" + last.name + ">"])
              && Unknown(t, tokens)
                 == if Known(t, last) then before
                    else Some((if before.Some? then before.value + "|" else "") + "<" + last.name + ">")
  {
    hide Known;
  }

  /** The error tells the unknown names in the order of the text, in angle brackets and with bars between them. */
  lemma ErrorText(t: FlagsType, s: string, base: Bits)
    ensures var names := Bracketed(t, TokensOf(s));
            Parse(t, Some(s), base).error == if names == [] then None else Some(UnknownNames(JoinBars(names)))
  {
    UnknownMeans(t, TokensOf(s));
    hide Unknown, TokensOf, JoinBars, Bracketed, WriteAll;
  }

  // ---------------------------------------------------------------- the log levels

  /** A text that is one known name stands for its bits. */
  lemma OneName(t: FlagsType, name: string, base: Bits, value: Bits)
    requires name != "" && name != "all" && BarFree(name) && !Signed(name) && ByNick(t.values, name) == Some(value)
    ensures Parse(t, Some(name), base) == Parsed(value, None)
  {
    PiecesPlain(name);
    var token := Token(true, name);
    assert Pieces(name) == [name] && TokenOf(name, true) == token;
    assert TokensOf(name) == [token];
    OneToken(t, token, Start(name, base));
    hide PiecesRest, ByNick;
  }

  lemma OneToken(t: FlagsType, token: Token, start: Bits)
    ensures WriteAll(t, [token], start) == Write(t, token, start)
    ensures Known(t, token) ==> Unknown(t, [token]) == None
  {
    hide Write, Known;
    assert [token][..0] == [];
  }

  /** The names of the levels and the bits they stand for. */
  lemma LevelNames(base: Bits)
    ensures ParseLevel("default", base) == Parsed({}, None)
    ensures ParseLevel("none", base) == Parsed({0}, None)
    ensures ParseLevel("critical", base) == Parsed({1}, None)
    ensures ParseLevel("error", base) == Parsed({2}, None)
    ensures ParseLevel("warning", base) == Parsed({3}, None)
    ensures ParseLevel("message", base) == Parsed({4}, None)
    ensures ParseLevel("info", base) == Parsed({5}, None)
    ensures ParseLevel("debug", base) == Parsed({6}, None)
    ensures ParseLevel("trace", base) == Parsed({7}, None)
    ensures ParseLevel("all", base) == Parsed({1, 2, 3, 4, 5, 6, 7}, None)
    ensures Resolved({}) == {1, 2, 3, 4}
  {
    hide *;
    LevelTable();
    PlainNicks();
    LevelName("default", {}, base);
    LevelName("none", {0}, base);
    LevelName("critical", {1}, base);
    LevelName("error", {2}, base);
    LevelName("warning", {3}, base);
    LevelName("message", {4}, base);
    LevelName("info", {5}, base);
    LevelName("debug", {6}, base);
    LevelName("trace", {7}, base);
    AllLevels(base);
  }

  lemma AllLevels(base: Bits)
    ensures ParseLevel("all", base) == Parsed({1, 2, 3, 4, 5, 6, 7}, None)
    ensures Resolved({}) == {1, 2, 3, 4}
  {
    hide Parse;
  }

  lemma LevelTable()
    ensures var vs := LEVELS.values;
            && ("default", {}) in vs && ("none", {0}) in vs && ("critical", {1}) in vs && ("error", {2}) in vs
            && ("warning", {3}) in vs && ("message", {4}) in vs && ("info", {5}) in vs && ("debug", {6}) in vs
            && ("trace", {7}) in vs
  {
    var vs := LEVELS.values;
    assert vs[0] == ("default", {}) && vs[1] == ("none", {0}) && vs[2] == ("critical", {1}) && vs[3] == ("error", {2});
    assert vs[4] == ("warning", {3}) && vs[5] == ("message", {4}) && vs[6] == ("info", {5}) && vs[7] == ("debug", {6});
    assert vs[8] == ("trace", {7});
  }

  lemma LevelName(name: string, bits: Bits, base: Bits)
    requires (name, bits) in LEVELS.values && PlainNick(name)
    ensures ParseLevel(name, base) == Parsed(bits, None)
  {
    NickOf(name, bits);
    var start := if base == DEFAULT && Signed(name) then DEFAULT_LEVEL else base;
    OneName(LEVELS, name, start, bits);
    hide Parse, ByNick;
  }

  lemma NickOf(name: string, bits: Bits)
    requires (name, bits) in LEVELS.values
    ensures ByNick(LEVELS.values, name) == Some(bits)
  {
    ByNickMeans(LEVELS.values, name);
    Distinct();
    hide ByNick;
    var i :| 0 <= i < |LEVELS.values| && LEVELS.values[i] == (name, bits);
    assert forall j :: 0 <= j < i ==> LEVELS.values[j].0 != LEVELS.values[i].0;
  }

  lemma Distinct()
    ensures forall i, j :: 0 <= i < j < |LEVELS.values| ==> LEVELS.values[i].0 != LEVELS.values[j].0
  {
  }

  predicate PlainNick(name: string) {
    name != "" && name != "all" && BarFree(name) && !Signed(name)
  }

  lemma PlainNicks()
    ensures PlainNick("default") && PlainNick("none") && PlainNick("critical") && PlainNick("error")
    ensures PlainNick("warning") && PlainNick("message") && PlainNick("info") && PlainNick("debug")
    ensures PlainNick("trace")
  {
  }
}
