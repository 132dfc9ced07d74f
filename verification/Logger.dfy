/** The levels of the logger: what is asked for, what is interesting, what is printed (cut-logger.c). */
module Logger {
  import opened Wrappers
  import opened Flags

  const DEFAULT: Bits := {}
  const NONE: Bits := {0}
  const CRITICAL: Bits := {1}
  const ERROR: Bits := {2}
  const WARNING: Bits := {3}
  const MESSAGE: Bits := {4}
  const INFO: Bits := {5}
  const DEBUG: Bits := {6}
  const TRACE: Bits := {7}

  const ALL: Bits := CRITICAL + ERROR + WARNING + MESSAGE + INFO + DEBUG + TRACE
  const DEFAULT_LEVEL: Bits := CRITICAL + ERROR + WARNING + MESSAGE
  const DEFAULT_KEY := "default"

  const LEVELS := FlagsType("CutLogLevelFlags", [
    ("default", DEFAULT), ("none", NONE), ("critical", CRITICAL), ("error", ERROR), ("warning", WARNING),
    ("message", MESSAGE), ("info", INFO), ("debug", DEBUG), ("trace", TRACE)])

  /** cut_log_level_flags_from_string; a sign refers to the default levels if no level is set. */
  function ParseLevel(name: string, base: Bits): Parsed {
    if name == "all" then Parsed(ALL, None)
    else Parse(LEVELS, Some(name), if base == DEFAULT && Signed(name) then DEFAULT_LEVEL else base)
  }

  function Resolved(target: Bits): Bits {
    if target == DEFAULT then DEFAULT_LEVEL else target
  }

  /**
   What a level text means for each bit: "all" is every level but NONE; a text with a sign changes
   the resolved level, any other starts from nothing, and the last name of the bit decides.
   */
  lemma LevelMeans(text: string, base: Bits, bit: nat)
    ensures text == "all" ==>
              ParseLevel(text, base).error == None && (bit in ParseLevel(text, base).flags <==> 1 <= bit <= 7)
    ensures text != "all" ==>
              var tokens, flags := TokensOf(text), ParseLevel(text, base).flags;
              && ((forall j :: 0 <= j < |tokens| ==> !Touches(LEVELS, tokens[j], bit)) ==>
                    (bit in flags <==> Signed(text) && bit in Resolved(base)))
              && (forall i :: 0 <= i < |tokens| && Touches(LEVELS, tokens[i], bit)
                              && (forall j :: i < j < |tokens| ==> !Touches(LEVELS, tokens[j], bit)) ==>
                    (bit in flags <==> tokens[i].append))
  {
    LastWriterWins(LEVELS, text, if base == DEFAULT && Signed(text) then DEFAULT_LEVEL else base, bit);
    hide Parse, TokensOf, Touches, Signed;
  }

  // ---------------------------------------------------------------- the state of the logger

  /** The levels of the named parties, OR-ed; whatever order they are visited in. */
  ghost function OrOf(keys: set<string>, levels: map<string, Bits>): Bits
    requires keys <= levels.Keys
  {
    if keys == {} then {}
    else
      var k :| k in keys;
      OrOf(keys - {k}, levels) + levels[k]
  }

  lemma {:induction false} OrOfRemove(keys: set<string>, levels: map<string, Bits>, j: string)
    requires keys <= levels.Keys && j in keys
    ensures OrOf(keys, levels) == OrOf(keys - {j}, levels) + levels[j]
    decreases |keys|
  {
    var k :| k in keys && OrOf(keys, levels) == OrOf(keys - {k}, levels) + levels[k];
    if k != j {
      OrOfRemove(keys - {k}, levels, j);
      OrOfRemove(keys - {j}, levels, k);
      assert keys - {k} - {j} == keys - {j} - {k};
    }
  }

  /** The OR has a bit exactly if some party's level has it. */
  lemma {:induction false} OrOfHas(keys: set<string>, levels: map<string, Bits>, bit: nat)
    requires keys <= levels.Keys
    ensures bit in OrOf(keys, levels) <==> exists k :: k in keys && bit in levels[k]
    decreases |keys|
  {
    if keys != {} {
      var j :| j in keys;
      OrOfRemove(keys, levels, j);
      OrOfHas(keys - {j}, levels, bit);
      if bit in OrOf(keys - {j}, levels) {
        var k :| k in keys - {j} && bit in levels[k];
        assert k in keys;
      }
      if k :| k in keys && bit in levels[k] {
        if k != j {
          assert k in keys - {j};
        }
      }
    }
  }

  datatype State = State(target: Bits, levels: map<string, Bits>, interesting: Bits)

  datatype Call =
    | SetTarget(level: Bits)
    | SetTargetByString(text: Option<string>)
    | SetInteresting(name: string, level: Bits)
    | SetProperty(level: Bits)

  const INITIAL := State(DEFAULT, map[DEFAULT_KEY := DEFAULT_LEVEL], DEFAULT_LEVEL)

  ghost function Interest(s: State, name: string, level: Bits): State {
    var levels := s.levels[name := level];
    State(s.target, levels, OrOf(levels.Keys, levels))
  }

  ghost function Target(s: State, level: Bits): State {
    Interest(s.(target := level), DEFAULT_KEY, Resolved(level))
  }

  ghost function Step(s: State, call: Call): State {
    match call
    case SetTarget(level) => Target(s, level)
    case SetTargetByString(None) => Target(s, DEFAULT)
    case SetTargetByString(Some(text)) =>
      var parsed := ParseLevel(text, s.target);
      if parsed.error == None then Target(s, parsed.flags) else s
    case SetInteresting(name, level) => Interest(s, name, level)
    case SetProperty(level) => s.(target := level)
  }

  ghost function Steps(calls: seq<Call>): State {
    if calls == [] then INITIAL else Step(Steps(calls[..|calls| - 1]), calls[|calls| - 1])
  }

  predicate Needed(s: State, level: Bits) {
    s.interesting * level != {}
  }

  predicate Prints(s: State, level: Bits) {
    level * Resolved(s.target) != {}
  }

  /** Whatever the handler would print passes the gate. */
  ghost predicate GateOpen(s: State) {
    forall level :: Prints(s, level) ==> Needed(s, level)
  }

  // ---------------------------------------------------------------- the object

  class Logger {
    var targetLevel: Bits
    var interestingLevels: map<string, Bits>
    var interestingLevel: Bits

    function Value(): State
      reads this
    {
      State(targetLevel, interestingLevels, interestingLevel)
    }

    constructor ()
      ensures Value() == INITIAL
    {
      targetLevel := DEFAULT;
      interestingLevels := map[DEFAULT_KEY := DEFAULT_LEVEL];
      interestingLevel := DEFAULT_LEVEL;
    }

    method SetTargetProperty(level: Bits)
      modifies this
      ensures Value() == Step(old(Value()), SetProperty(level))
    {
      targetLevel := level;
    }

    /** The table is visited in whatever order it has. */
    method SetInterestingLevel(name: string, level: Bits)
      modifies this
      ensures Value() == Interest(old(Value()), name, level)
    {
      interestingLevels := interestingLevels[name := level];
      interestingLevel := {};
      var keys := interestingLevels.Keys;
      while keys != {}
        invariant keys <= interestingLevels.Keys
        invariant interestingLevels == old(interestingLevels)[name := level] && targetLevel == old(targetLevel)
        invariant interestingLevel + OrOf(keys, interestingLevels)
                  == OrOf(interestingLevels.Keys, interestingLevels)
        decreases |keys|
      {
        var key :| key in keys;
        OrOfRemove(keys, interestingLevels, key);
        hide OrOf;
        interestingLevel := interestingLevel + interestingLevels[key];
        keys := keys - {key};
      }
    }

    method SetTargetLevel(level: Bits)
      modifies this
      ensures Value() == Target(old(Value()), level)
    {
      var interesting := level;
      targetLevel := level;
      if interesting == DEFAULT {
        interesting := DEFAULT_LEVEL;
      }
      SetInterestingLevel(DEFAULT_KEY, interesting);
    }

    method LevelFromString(name: string, base: Bits) returns (level: Bits, error: Option<Error>)
      ensures Parsed(level, error) == ParseLevel(name, base)
    {
      if name == "all" {
        return ALL, None;
      }
      var start := base;
      if base == DEFAULT && Signed(name) {
        start := DEFAULT_LEVEL;
      }
      level, error := ParseFlags(LEVELS, Some(name), start);
    }

    method SetTargetLevelByString(name: Option<string>) returns (ok: bool, error: Option<Error>)
      modifies this
      ensures Value() == Step(old(Value()), SetTargetByString(name))
      ensures ok <==> error == None
      ensures error == if name.Some? then ParseLevel(name.value, old(targetLevel)).error else None
      ensures !ok ==> Value() == old(Value())
    {
      var level := DEFAULT;
      error := None;
      if name.Some? {
        level, error := LevelFromString(name.value, targetLevel);
        if error.Some? {
          return false, error;
        }
      }
      SetTargetLevel(level);
      ok := true;
    }

    /** cut_need_log */
    predicate NeedLog(level: Bits)
      reads this
      ensures NeedLog(level) == Needed(Value(), level)
    {
      interestingLevel * level != {}
    }

    /** The test at the start of the default log handler. */
    predicate Printed(level: Bits)
      reads this
      ensures Printed(level) == Prints(Value(), level)
    {
      level * Resolved(targetLevel) != {}
    }

    /** cut_log with the default handler: the gate, then the handler's own test. */
    method Log(level: Bits) returns (printed: bool)
      ensures printed <==> Needed(Value(), level) && Prints(Value(), level)
      ensures GateOpen(Value()) ==> (printed <==> Prints(Value(), level))
    {
      printed := false;
      if NeedLog(level) {
        printed := Printed(level);
      }
    }
  }

  // ---------------------------------------------------------------- the cached mask and the gate

  /** The gate is sound in a state exactly if no level of the target is missing from the mask. */
  lemma GateOpenIff(s: State)
    ensures GateOpen(s) <==> Resolved(s.target) <= s.interesting
  {
    var target := Resolved(s.target);
    if GateOpen(s) {
      forall bit | bit in target
        ensures bit in s.interesting
      {
        assert bit in {bit} * target;
        assert Prints(s, {bit});
        assert Needed(s, {bit});
      }
    }
    if target <= s.interesting {
      forall level | Prints(s, level)
        ensures Needed(s, level)
      {
        var bit :| bit in level * target;
        assert bit in s.interesting * level;
      }
    }
  }

  lemma {:induction false} StepsCached(calls: seq<Call>)
    ensures var s := Steps(calls); s.interesting == OrOf(s.levels.Keys, s.levels) && DEFAULT_KEY in s.levels
  {
    if calls == [] {
      var levels := INITIAL.levels;
      OrOfRemove(levels.Keys, levels, DEFAULT_KEY);
      assert levels.Keys - {DEFAULT_KEY} == {};
    } else {
      StepsCached(calls[..|calls| - 1]);
    }
  }

  /** After any calls the cached mask has a bit exactly if some entry of the table has it. */
  lemma CacheIsOr(calls: seq<Call>, bit: nat)
    ensures var s := Steps(calls); bit in s.interesting <==> exists k :: k in s.levels && bit in s.levels[k]
  {
    StepsCached(calls);
    var s := Steps(calls);
    OrOfHas(s.levels.Keys, s.levels, bit);
    hide Steps, OrOf;
    if k :| k in s.levels && bit in s.levels[k] {
      assert k in s.levels.Keys;
    }
  }

  /** Calls that leave the entry of the target level to the target level itself. */
  predicate Polite(call: Call) {
    match call
    case SetInteresting(name, _) => name != DEFAULT_KEY
    case SetProperty(_) => false
    case _ => true
  }

  lemma {:induction false} PoliteKeepsTarget(calls: seq<Call>)
    requires forall i :: 0 <= i < |calls| ==> Polite(calls[i])
    ensures var s := Steps(calls); DEFAULT_KEY in s.levels && s.levels[DEFAULT_KEY] == Resolved(s.target)
  {
    if calls != [] {
      PoliteKeepsTarget(calls[..|calls| - 1]);
      hide OrOf, ParseLevel;
    }
  }

  /** After any polite calls, whatever the handler would print passes the gate. */
  lemma GateSound(calls: seq<Call>)
    requires forall i :: 0 <= i < |calls| ==> Polite(calls[i])
    ensures GateOpen(Steps(calls))
  {
    PoliteKeepsTarget(calls);
    StepsCached(calls);
    var s := Steps(calls);
    OrOfRemove(s.levels.Keys, s.levels, DEFAULT_KEY);
    hide Steps, OrOf, Resolved;
    GateOpenIff(s);
  }

  /** Setting the property alone, or the entry named "default", can close the gate on printed levels. */
  lemma ImpoliteExamples()
    ensures !GateOpen(Steps([SetProperty(TRACE)]))
    ensures !GateOpen(Steps([SetInteresting(DEFAULT_KEY, NONE)]))
  {
    OneStep(SetProperty(TRACE));
    OneStep(SetInteresting(DEFAULT_KEY, NONE));
    var s := Steps([SetInteresting(DEFAULT_KEY, NONE)]);
    assert s == Interest(INITIAL, DEFAULT_KEY, NONE);
    OrOfRemove(s.levels.Keys, s.levels, DEFAULT_KEY);
    assert s.levels.Keys == {DEFAULT_KEY} && s.levels.Keys - {DEFAULT_KEY} == {};
    GateOpenIff(Steps([SetProperty(TRACE)]));
    GateOpenIff(s);
    assert 1 in DEFAULT_LEVEL && 1 !in NONE && 7 !in DEFAULT_LEVEL && 7 in TRACE;
  }

  lemma OneStep(call: Call)
    ensures Steps([call]) == Step(INITIAL, call)
  {
    var calls := [call];
    assert calls[..0] == [];
    hide Step;
  }

  /**
   What one call changes: the target level with the entry named "default", which then holds the level
   in effect, or one entry, or the target level alone; every other entry stays.
   */
  lemma StepMeans(s: State, call: Call)
    ensures var t := Step(s, call);
            match call
            case SetTarget(level) =>
              t.target == level && t.levels == s.levels["default" := if level == {} then {1, 2, 3, 4} else level]
            case SetTargetByString(None) => t.target == {} && t.levels == s.levels["default" := {1, 2, 3, 4}]
            case SetTargetByString(Some(text)) =>
              var parsed := ParseLevel(text, s.target);
              if parsed.error != None then t == s
              else t == Step(s, SetTarget(parsed.flags))
            case SetInteresting(key, level) => t.target == s.target && t.levels == s.levels[key := level]
            case SetProperty(level) => t == s.(target := level)
  {
    assert DEFAULT_LEVEL == {1, 2, 3, 4};
    hide OrOf, ParseLevel;
  }

  /** A name that is not known leaves everything as it was. */
  lemma UnknownKeeps(s: State, text: string)
    requires text != "all" && exists i :: 0 <= i < |TokensOf(text)| && !Known(LEVELS, TokensOf(text)[i])
    ensures Step(s, SetTargetByString(Some(text))) == s
  {
    ErrorIff(LEVELS, Some(text), if s.target == DEFAULT && Signed(text) then DEFAULT_LEVEL else s.target);
    hide TokensOf, Known, Parse, Target;
  }
}
