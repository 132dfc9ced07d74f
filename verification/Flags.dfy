/** Parsing the names of flags (flags_from_string of cut-logger.c). */
module Flags {
  import opened Wrappers

  /** The bits that are set, by number: flags are only OR-ed, masked and compared with 0. */
  type Bits = set<nat>

  /** A registered flags type: the nicks and values in order, and all bits that occur. */
  datatype FlagsType = FlagsType(name: string, values: seq<(string, Bits)>)
  {
    function Mask(): Bits {
      MaskOf(values)
    }
  }

  function MaskOf(values: seq<(string, Bits)>): Bits {
    if values == [] then {} else values[0].1 + MaskOf(values[1..])
  }

  /** g_flags_get_value_by_nick */
  function ByNick(values: seq<(string, Bits)>, nick: string): Option<Bits> {
    if values == [] then None
    else if values[0].0 == nick then Some(values[0].1)
    else ByNick(values[1..], nick)
  }

  /** g_strsplit(s, "|", 0) */
  function Pieces(s: string): seq<string> {
    if s == "" then [] else PiecesRest(s)
  }

  function PiecesRest(s: string): seq<string> {
    if s == "" then [""]
    else
      var rest := PiecesRest(s[1..]);
      if s[0] == '|' then [""] + rest
      else if rest == [] then [s] else [[s[0]] + rest[0]] + rest[1..]
  }

  /** One name with the sign in force for it. */
  datatype Token = Token(append: bool, name: string)

  function TokenOf(piece: string, append: bool): Token {
    if piece != "" && piece[0] == '+' then Token(true, piece[1..])
    else if piece != "" && piece[0] == '-' then Token(false, piece[1..])
    else Token(append, piece)
  }

  function Tokens(pieces: seq<string>, append: bool): (tokens: seq<Token>)
    ensures |tokens| == |pieces| && forall i :: 0 <= i < |pieces| ==> tokens[i] == TokenOf(pieces[i], append)
  {
    if pieces == [] then [] else [TokenOf(pieces[0], append)] + Tokens(pieces[1..], append)
  }

  predicate Known(t: FlagsType, token: Token) {
    token.name == "all" || ByNick(t.values, token.name).Some?
  }

  /** What one token does to the flags; "-all" clears every bit, in the mask or not. */
  function Write(t: FlagsType, token: Token, flags: Bits): Bits {
    if token.name == "all" then (if token.append then flags + t.Mask() else {})
    else if ByNick(t.values, token.name).Some? then
      var value := ByNick(t.values, token.name).value;
      if token.append then flags + value else flags - value
    else flags
  }

  function WriteAll(t: FlagsType, tokens: seq<Token>, flags: Bits): Bits {
    if tokens == [] then flags
    else Write(t, tokens[|tokens| - 1], WriteAll(t, tokens[..|tokens| - 1], flags))
  }

  /** The unknown names, each in angle brackets, separated by "|"; None if all are known. */
  function Unknown(t: FlagsType, tokens: seq<Token>): Option<string> {
    if tokens == [] then None
    else
      var before, last := Unknown(t, tokens[..|tokens| - 1]), tokens[|tokens| - 1];
      if Known(t, last) then before
      else Some((if before.Some? then before.value + "|" else "") + "<" + last.name + ">")
  }

  datatype Error = NullName | UnknownNames(names: string)

  datatype Parsed = Parsed(flags: Bits, error: Option<Error>)

  predicate Signed(s: string) {
    s != "" && (s[0] == '+' || s[0] == '-')
  }

  function Body(s: string): string {
    if Signed(s) then s[1..] else s
  }

  function TokensOf(s: string): seq<Token> {
    Tokens(Pieces(Body(s)), !(s != "" && s[0] == '-'))
  }

  function Start(s: string, base: Bits): Bits {
    if Signed(s) then base else {}
  }

  /** flags_from_string */
  function Parse(t: FlagsType, s: Option<string>, base: Bits): Parsed {
    if s == None then Parsed({}, Some(NullName)) else
    var tokens := TokensOf(s.value);
    var unknown := Unknown(t, tokens);
    Parsed(WriteAll(t, tokens, Start(s.value, base)), if unknown.Some? then Some(UnknownNames(unknown.value)) else None)
  }

  /** Takes the sign off a string; without one the sign given stays in force. */
  method TakeSign(s: string, append: bool) returns (localAppend: bool, name: string)
    ensures Token(localAppend, name) == TokenOf(s, append)
    ensures name == Body(s)
  {
    localAppend, name := append, s;
    if name != "" && name[0] == '+' {
      localAppend := true;
      name := name[1..];
    } else if name != "" && name[0] == '-' {
      localAppend := false;
      name := name[1..];
    }
  }

  /** Writes one token, or adds its name to the unknown ones. */
  method WriteToken(t: FlagsType, token: Token, flags: Bits, unknown: Option<string>)
    returns (written: Bits, names: Option<string>)
    ensures written == Write(t, token, flags)
    ensures names == if Known(t, token) then unknown
                     else Some((if unknown.Some? then unknown.value + "|" else "") + "<" + token.name + ">")
  {
    hide MaskOf, ByNick;
    written, names := flags, unknown;
    if token.name == "all" {
      written := if token.append then flags + t.Mask() else {};
    } else {
      var value := ByNick(t.values, token.name);
      if value.Some? {
        written := if token.append then flags + value.value else flags - value.value;
      } else {
        names := Some((if unknown.Some? then unknown.value + "|" else "") + "<" + token.name + ">");
      }
    }
  }

  method ParseFlags(t: FlagsType, s: Option<string>, base: Bits) returns (flags: Bits, error: Option<Error>)
    ensures Parsed(flags, error) == Parse(t, s, base)
  {
    hide *;
    if s == None {
      NoStringIs(t, base);
      return {}, Some(NullName);
    }
    var append, flagsString := TakeSign(s.value, true);
    flags := if Signed(s.value) then base else {};
    var pieces := Pieces(flagsString);
    var unknown: Option<string> := None;
    ghost var start, tokens := flags, Tokens(pieces, append);
    TokensAre(s.value, append, base);
    NothingWritten(t, tokens, start);
    var k := 0;
    while k < |pieces|
      invariant k <= |pieces|
      invariant flags == WriteAll(t, tokens[..k], start) && unknown == Unknown(t, tokens[..k])
    {
      TokenWritten(t, tokens, start, k);
      var localAppend, name := TakeSign(pieces[k], append);
      flags, unknown := WriteToken(t, Token(localAppend, name), flags, unknown);
      k := k + 1;
    }
    assert tokens[..k] == tokens;
    ParseIs(t, s.value, base);
    error := if unknown.Some? then Some(UnknownNames(unknown.value)) else None;
  }

  lemma NoStringIs(t: FlagsType, base: Bits)
    ensures Parse(t, None, base) == Parsed({}, Some(NullName))
  {
  }

  lemma TokensAre(s: string, append: bool, base: Bits)
    requires append == TokenOf(s, true).append
    ensures TokensOf(s) == Tokens(Pieces(Body(s)), append)
    ensures Start(s, base) == if Signed(s) then base else {}
  {
    hide Pieces, Body;
  }

  lemma NothingWritten(t: FlagsType, tokens: seq<Token>, start: Bits)
    ensures WriteAll(t, tokens[..0], start) == start && Unknown(t, tokens[..0]) == None
  {
  }

  lemma TokenWritten(t: FlagsType, tokens: seq<Token>, start: Bits, k: nat)
    requires k < |tokens|
    ensures WriteAll(t, tokens[..k + 1], start) == Write(t, tokens[k], WriteAll(t, tokens[..k], start))
    ensures var before := Unknown(t, tokens[..k]);
            Unknown(t, tokens[..k + 1])
            == if Known(t, tokens[k]) then before
               else Some((if before.Some? then before.value + "|" else "") + "<" + tokens[k].name + ">")
  {
    hide Write, Known;
    assert tokens[..k + 1][..k] == tokens[..k];
  }

  lemma ParseIs(t: FlagsType, s: string, base: Bits)
    ensures var unknown := Unknown(t, TokensOf(s));
            Parse(t, Some(s), base) == Parsed(WriteAll(t, TokensOf(s), Start(s, base)),
                                              if unknown.Some? then Some(UnknownNames(unknown.value)) else None)
  {
    hide TokensOf, WriteAll, Unknown, Start;
  }

  // ---------------------------------------------------------------- what a flags string means

  /** The token names the bit. */
  predicate Touches(t: FlagsType, token: Token, bit: nat) {
    if token.name == "all" then !token.append || bit in t.Mask()
    else ByNick(t.values, token.name).Some? && bit in ByNick(t.values, token.name).value
  }

  lemma WriteBit(t: FlagsType, token: Token, flags: Bits, bit: nat)
    ensures bit in Write(t, token, flags) <==> if Touches(t, token, bit) then token.append else bit in flags
  {
    hide ByNick, MaskOf;
  }

  /** The last of the tokens that names the bit decides it. */
  lemma {:induction false} LastToken(t: FlagsType, tokens: seq<Token>, flags: Bits, bit: nat, i: nat)
    requires i < |tokens| && Touches(t, tokens[i], bit)
    requires forall j :: i < j < |tokens| ==> !Touches(t, tokens[j], bit)
    ensures bit in WriteAll(t, tokens, flags) <==> tokens[i].append
  {
    var last, init := tokens[|tokens| - 1], tokens[..|tokens| - 1];
    WriteBit(t, last, WriteAll(t, init, flags), bit);
    hide Write;
    if i < |tokens| - 1 {
      LastToken(t, init, flags, bit, i);
    }
  }

  lemma {:induction false} NoToken(t: FlagsType, tokens: seq<Token>, flags: Bits, bit: nat)
    requires forall j :: 0 <= j < |tokens| ==> !Touches(t, tokens[j], bit)
    ensures bit in WriteAll(t, tokens, flags) <==> bit in flags
  {
    if tokens != [] {
      var last, init := tokens[|tokens| - 1], tokens[..|tokens| - 1];
      WriteBit(t, last, WriteAll(t, init, flags), bit);
      NoToken(t, init, flags, bit);
      hide Write;
    }
  }

  /** Every bit is set by the last token that names it, with its sign, or else kept from the start. */
  lemma LastWriterWins(t: FlagsType, s: string, base: Bits, bit: nat)
    ensures var tokens, flags := TokensOf(s), Parse(t, Some(s), base).flags;
            && ((forall j :: 0 <= j < |tokens| ==> !Touches(t, tokens[j], bit)) ==>
                  (bit in flags <==> Signed(s) && bit in base))
            && (forall i :: 0 <= i < |tokens| && Touches(t, tokens[i], bit)
                            && (forall j :: i < j < |tokens| ==> !Touches(t, tokens[j], bit)) ==>
                  (bit in flags <==> tokens[i].append))
  {
    var tokens := TokensOf(s);
    hide TokensOf, Unknown, Touches, WriteAll;
    if forall j :: 0 <= j < |tokens| ==> !Touches(t, tokens[j], bit) {
      NoToken(t, tokens, Start(s, base), bit);
    }
    forall i | 0 <= i < |tokens| && Touches(t, tokens[i], bit)
               && (forall j :: i < j < |tokens| ==> !Touches(t, tokens[j], bit))
      ensures bit in WriteAll(t, tokens, Start(s, base)) <==> tokens[i].append
    {
      LastToken(t, tokens, Start(s, base), bit, i);
    }
  }

  lemma {:induction false} UnknownIff(t: FlagsType, tokens: seq<Token>)
    ensures Unknown(t, tokens) == None <==> forall i :: 0 <= i < |tokens| ==> Known(t, tokens[i])
  {
    if tokens != [] {
      UnknownIff(t, tokens[..|tokens| - 1]);
      hide Known;
    }
  }

  /** An error is reported exactly if there is no string or some name is unknown. */
  lemma ErrorIff(t: FlagsType, s: Option<string>, base: Bits)
    ensures Parse(t, s, base).error != None
            <==> s == None || exists i :: 0 <= i < |TokensOf(s.value)| && !Known(t, TokensOf(s.value)[i])
  {
    if s.Some? {
      UnknownIff(t, TokensOf(s.value));
    }
    hide Known, TokensOf, WriteAll, Unknown;
  }

  predicate BarFree(s: string) {
    '|' !in s
  }

  function JoinBars(pieces: seq<string>): string {
    if pieces == [] then "" else if |pieces| == 1 then pieces[0] else pieces[0] + "|" + JoinBars(pieces[1..])
  }

  /** Splitting undoes joining, so the tokens of a string are the names between its bars. */
  lemma {:induction false} PiecesJoined(pieces: seq<string>)
    requires pieces != [] && forall p :: p in pieces ==> BarFree(p)
    ensures PiecesRest(JoinBars(pieces)) == pieces
  {
    var p := pieces[0];
    assert p in pieces && forall q :: q in pieces[1..] ==> q in pieces;
    if |pieces| == 1 {
      PiecesPlain(p);
      assert pieces == [p];
    } else {
      PiecesJoined(pieces[1..]);
      PiecesAfter(p, JoinBars(pieces[1..]));
      assert p + "|" + JoinBars(pieces[1..]) == p + ("|" + JoinBars(pieces[1..]));
      assert pieces == [p] + pieces[1..];
    }
  }

  lemma {:induction false} PiecesPlain(p: string)
    requires BarFree(p)
    ensures PiecesRest(p) == [p]
  {
    if p != "" {
      assert p[0] != '|';
      PiecesPlain(p[1..]);
      assert [p[0]] + p[1..] == p;
    }
  }

  lemma {:induction false} PiecesAfter(p: string, rest: string)
    requires BarFree(p)
    ensures PiecesRest(p + ("|" + rest)) == [p] + PiecesRest(rest)
  {
    var s := p + ("|" + rest);
    if p == "" {
      assert s == "|" + rest && s[1..] == rest;
    } else {
      assert p[0] != '|' && s[0] == p[0] && s[1..] == p[1..] + ("|" + rest);
      PiecesAfter(p[1..], rest);
      var tail := PiecesRest(s[1..]);
      assert tail[0] == p[1..] && tail[1..] == PiecesRest(rest);
      assert [p[0]] + p[1..] == p;
    }
  }
}
