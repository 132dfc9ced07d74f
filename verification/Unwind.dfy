/**
 How assertions stop a test: the nesting macros of cut-assertions-helper.h over the state kept in
 cut-test-context.c, the jump taken by cut-test.c, and the C++ bridge of cppcut-test-methods.cpp.
 */
module Unwind {
  import opened Wrappers
  import opened Seqs

  // ---------------------------------------------------------------- tests and what they do

  datatype Status = Success | Notification | Omission | Pending | Failure | Error | Crash

  predicate IsCritical(status: Status) {
    status != Success && status != Notification && status != Omission
  }

  datatype Result = Result(status: Status, systemMessage: string, userMessage: Option<string>)

  datatype Exception = Standard(name: string, what: string) | Other

  /** The body of a test. `message` is the user message step of a macro, if it has one. */
  datatype Code =
    | Skip
    | Step(name: string)
    | Seq(first: Code, rest: Code)
    | Wrapped(body: Code, message: Option<string>)
    | Notify(systemMessage: string, message: Option<string>)
    | Terminate(status: Status, systemMessage: string, message: Option<string>)
    | Return
    | Throw(exception: Exception)

  datatype Event = Ran(name: string) | Told(message: string) | Processed(result: Result)

  // ---------------------------------------------------------------- the machine

  /** The address of a jump buffer: the test's own, or the one in the frame of a nested macro. */
  datatype Buffer = Own | Level(depth: nat)

  datatype Context =
    Context(buffer: Buffer, nest: nat, current: Option<Result>, failed: bool, omitted: bool, log: seq<Event>)
  {
    function SetCurrentResult(status: Status, systemMessage: string): Context {
      this.(failed := failed || IsCritical(status), omitted := status == Omission,
            current := Some(Result(status, systemMessage, None)))
    }

    /** The user message step: it runs in any case, and reaches the current result if there is one. */
    function Tell(message: Option<string>): Context {
      if message == None then this
      else this.(log := log + [Told(message.value)],
                 current := if current == None then None else Some(current.value.(userMessage := message)))
    }

    function ProcessCurrentResult(): Context {
      if current == None then this else this.(log := log + [Processed(current.value)], current := None)
    }

    /** guint: finishing at nesting count 0 wraps around. */
    function Finish(): Context {
      this.(nest := if nest == 0 then 0xFFFF_FFFF else nest - 1)
    }
  }

  /** How a piece of code is left. Terminated is the exception thrown instead of a long jump. */
  datatype Exit = Normal | Jump(buffer: Buffer) | Terminated(buffer: Buffer) | Thrown(exception: Exception)

  datatype Outcome = Outcome(exit: Exit, context: Context)

  /** A long jump, thrown while a C++ test is invoked if it aims at the test's own buffer. */
  function JumpTo(buffer: Buffer, invoking: bool): Exit {
    if invoking && buffer == Own then Terminated(buffer) else Jump(buffer)
  }

  /** cut_return */
  function Leave(c: Context, invoking: bool): Exit {
    JumpTo(c.buffer, invoking)
  }

  /** The part of cut_test_with_user_message after the saved jump buffer. */
  function AfterWrapped(previous: Buffer, c: Context, message: Option<string>, invoking: bool): Outcome {
    var told := c.(buffer := previous).Finish().Tell(message);
    if told.current == None then Outcome(Normal, told)
    else
      var done := if told.nest > 0 then told else told.ProcessCurrentResult();
      Outcome(Leave(done, invoking), done)
  }

  function Run(code: Code, c: Context, invoking: bool): Outcome {
    match code
    case Skip => Outcome(Normal, c)
    case Step(name) => Outcome(Normal, c.(log := c.log + [Ran(name)]))
    case Seq(first, rest) =>
      var o := Run(first, c, invoking);
      if o.exit == Normal then Run(rest, o.context, invoking) else o
    case Wrapped(body, message) =>
      var own := Level(c.nest + 1);
      var o := Run(body, c.(nest := c.nest + 1, buffer := own), invoking);
      if o.exit == Normal || o.exit == Jump(own) then AfterWrapped(c.buffer, o.context, message, invoking) else o
    case Notify(systemMessage, message) =>
      Outcome(Normal, c.SetCurrentResult(Notification, systemMessage).Tell(message).ProcessCurrentResult())
    case Terminate(status, systemMessage, message) =>
      var told := c.SetCurrentResult(status, systemMessage).Tell(message);
      var done := if told.nest > 0 then told else told.ProcessCurrentResult();
      Outcome(Leave(done, invoking), done)
    case Return => Outcome(Leave(c, invoking), c)
    case Throw(exception) => Outcome(Thrown(exception), c)
  }

  /** cut_test_run around the body of a plain C test, from its own setjmp on. */
  function RunTest(code: Code, c: Context): Outcome {
    var o := Run(code, c.(buffer := Own), false);
    if o.exit == Jump(Own) then Outcome(Normal, o.context) else o
  }

  function ExceptionMessage(e: Exception): string {
    match e
    case Standard(name, what) => "Unhandled C++ standard exception is thrown: <" + name + ">: " + what
    case Other => "Unhandled C++ non-standard exception is thrown"
  }

  /** force_unwind_jump_buffers */
  function ForceUnwind(c: Context, base: Buffer): Context
    decreases c.nest
  {
    if c.nest > 0 then ForceUnwind(c.Finish(), base) else c.(buffer := base)
  }

  /** cut::test::invoke, then the setjmp of cut_test_run. */
  function InvokeTest(code: Code, c: Context): Outcome {
    var started := c.(buffer := Own);
    var o := Run(code, started, true);
    var left :=
      match o.exit
      case Normal => o
      case Jump(_) => o
      case Terminated(buffer) => Outcome(Jump(buffer), o.context)
      case Thrown(e) => Run(Terminate(Error, ExceptionMessage(e), None), ForceUnwind(o.context, started.buffer), false);
    if left.exit == Jump(Own) then Outcome(Normal, left.context) else left
  }

  // ---------------------------------------------------------------- the meaning of a test

  datatype End = Finished | Returned | Stopped(result: Result) | Raised(exception: Exception)

  /** What a piece of code does, read off its structure: no buffers and no nesting count. */
  datatype Trace = Trace(log: seq<Event>, notified: bool, end: End)

  function Messages(message: Option<string>): seq<Event> {
    if message == None then [] else [Told(message.value)]
  }

  function WithMessage(result: Result, message: Option<string>): Result {
    if message == None then result else result.(userMessage := message)
  }

  /** A macro passes a failure on, with its own message, and ends anything else its body did. */
  function Wrap(t: Trace, message: Option<string>): Trace {
    match t.end
    case Raised(_) => t
    case Stopped(r) => Trace(t.log + Messages(message), t.notified, Stopped(WithMessage(r, message)))
    case _ => Trace(t.log + Messages(message), t.notified, Finished)
  }

  function Then(t: Trace, u: Trace): Trace {
    if t.end == Finished then Trace(t.log + u.log, t.notified || u.notified, u.end) else t
  }

  function Meaning(code: Code): Trace {
    match code
    case Skip => Trace([], false, Finished)
    case Step(name) => Trace([Ran(name)], false, Finished)
    case Seq(first, rest) => Then(Meaning(first), Meaning(rest))
    case Wrapped(body, message) => Wrap(Meaning(body), message)
    case Notify(systemMessage, message) =>
      Trace(Messages(message) + [Processed(Result(Notification, systemMessage, message))], true, Finished)
    case Terminate(status, systemMessage, message) =>
      Trace(Messages(message), false, Stopped(Result(status, systemMessage, message)))
    case Return => Trace([], false, Returned)
    case Throw(e) => Trace([], false, Raised(e))
  }

  // ---------------------------------------------------------------- the machine means that

  /** The jump buffer in force is the one of the innermost macro, or the test's own. */
  predicate Coherent(c: Context) {
    c.current == None && c.buffer == if c.nest == 0 then Own else Level(c.nest)
  }

  function OmittedAfter(c: Context, t: Trace): bool {
    match t.end
    case Stopped(r) => r.status == Omission
    case _ => c.omitted && !t.notified
  }

  /** A result is processed where the nesting count is 0, and waits for the enclosing macro elsewhere. */
  function Settled(c: Context, t: Trace): seq<Event> {
    if t.end.Stopped? && c.nest == 0 then [Processed(t.end.result)] else []
  }

  /** The context after code that raised nothing: same buffer, same nesting count. */
  function After(c: Context, t: Trace): Context {
    Context(
      c.buffer, c.nest,
      if t.end.Stopped? && c.nest > 0 then Some(t.end.result) else None,
      c.failed || (t.end.Stopped? && IsCritical(t.end.result.status)),
      OmittedAfter(c, t),
      c.log + t.log + Settled(c, t))
  }

  function ExitAfter(c: Context, t: Trace, invoking: bool): Exit
    requires !t.end.Raised?
  {
    if t.end == Finished then Normal else Leave(c, invoking)
  }

  /** The context an exception leaves: somewhere inside nested macros, and nothing pending. */
  predicate LeftByException(c: Context, t: Trace, c': Context) {
    && c'.nest >= c.nest && c'.current == None && c'.failed == c.failed
    && c'.omitted == OmittedAfter(c, t) && c'.log == c.log + t.log
  }

  predicate Means(o: Outcome, c: Context, t: Trace, invoking: bool) {
    match t.end
    case Raised(e) => o.exit == Thrown(e) && LeftByException(c, t, o.context)
    case _ => o == Outcome(ExitAfter(c, t, invoking), After(c, t))
  }

  /** From every coherent context, running code does what its structure says. */
  lemma {:induction false} RunMeans(code: Code, c: Context, invoking: bool)
    requires Coherent(c)
    ensures Means(Run(code, c, invoking), c, Meaning(code), invoking)
  {
    match code
    case Seq(first, rest) =>
      RunMeans(first, c, invoking);
      var t := Meaning(first);
      if t.end == Finished {
        RunMeans(rest, After(c, t), invoking);
        ThenMeans(code, c, invoking);
      } else {
        StopMeans(code, c, invoking);
      }
    case Wrapped(body, message) =>
      RunMeans(body, c.(nest := c.nest + 1, buffer := Level(c.nest + 1)), invoking);
      WrapMeans(code, c, invoking);
    case Notify(systemMessage, message) =>
      NotifyMeans(c, systemMessage, message, invoking);
    case Terminate(status, systemMessage, message) =>
      TerminateMeans(c, status, systemMessage, message, invoking);
    case _ =>
      PlainMeans(code, c, invoking);
  }

  lemma PlainMeans(code: Code, c: Context, invoking: bool)
    requires Coherent(c) && (code.Skip? || code.Step? || code.Return? || code.Throw?)
    ensures Means(Run(code, c, invoking), c, Meaning(code), invoking)
  {
    EmptyTail(c.log);
    EmptyTail(c.log + Meaning(code).log);
  }

  lemma StopMeans(code: Code, c: Context, invoking: bool)
    requires code.Seq? && Coherent(c) && Means(Run(code.first, c, invoking), c, Meaning(code.first), invoking)
    requires Meaning(code.first).end != Finished
    ensures Means(Run(code, c, invoking), c, Meaning(code), invoking)
  {
    hide After, LeftByException, Coherent;
  }

  lemma ThenMeans(code: Code, c: Context, invoking: bool)
    requires code.Seq? && Coherent(c) && Means(Run(code.first, c, invoking), c, Meaning(code.first), invoking)
    requires Meaning(code.first).end == Finished
    requires var between := After(c, Meaning(code.first));
             Means(Run(code.rest, between, invoking), between, Meaning(code.rest), invoking)
    ensures Coherent(After(c, Meaning(code.first)))
    ensures Means(Run(code, c, invoking), c, Meaning(code), invoking)
  {
    var t, u := Meaning(code.first), Meaning(code.rest);
    assert Run(code, c, invoking) == Run(code.rest, After(c, t), invoking);
    assert Meaning(code) == Then(t, u);
    hide Run, Meaning;
    EmptyTail(c.log + t.log);
    Associate(c.log, t.log, u.log);
  }

  lemma WrapMeans(code: Code, c: Context, invoking: bool)
    requires code.Wrapped? && Coherent(c)
    requires var inner := c.(nest := c.nest + 1, buffer := Level(c.nest + 1));
             Means(Run(code.body, inner, invoking), inner, Meaning(code.body), invoking)
    ensures Means(Run(code, c, invoking), c, Meaning(code), invoking)
  {
    var inner := c.(nest := c.nest + 1, buffer := Level(c.nest + 1));
    var t := Meaning(code.body);
    var o := Run(code.body, inner, invoking);
    assert Meaning(code) == Wrap(t, code.message);
    if t.end.Raised? {
      assert Run(code, c, invoking) == o;
    } else {
      assert Run(code, c, invoking) == AfterWrapped(c.buffer, After(inner, t), code.message, invoking);
      hide Run, Meaning;
      AfterWrappedMeans(c, inner, t, code.message, invoking);
    }
  }

  lemma AfterWrappedMeans(c: Context, inner: Context, t: Trace, message: Option<string>, invoking: bool)
    requires Coherent(c) && inner == c.(nest := c.nest + 1, buffer := Level(c.nest + 1)) && !t.end.Raised?
    ensures Means(AfterWrapped(c.buffer, After(inner, t), message, invoking), c, Wrap(t, message), invoking)
  {
    EmptyTail(c.log + t.log);
    Associate(c.log, t.log, Messages(message));
    EmptyTail(t.log);
    EmptyTail(c.log + (t.log + Messages(message)));
  }

  lemma NotifyMeans(c: Context, systemMessage: string, message: Option<string>, invoking: bool)
    requires Coherent(c)
    ensures var code := Notify(systemMessage, message);
            Means(Run(code, c, invoking), c, Meaning(code), invoking)
  {
    var processed := [Processed(Result(Notification, systemMessage, message))];
    EmptyTail(c.log);
    EmptyHead(processed);
    Associate(c.log, Messages(message), processed);
    EmptyTail(c.log + (Messages(message) + processed));
  }

  lemma TerminateMeans(c: Context, status: Status, systemMessage: string, message: Option<string>, invoking: bool)
    requires Coherent(c)
    ensures var code := Terminate(status, systemMessage, message);
            Means(Run(code, c, invoking), c, Meaning(code), invoking)
  {
    EmptyTail(c.log);
    EmptyTail(c.log + Messages(message));
  }

  // ---------------------------------------------------------------- what follows for every test

  predicate NoThrow(code: Code) {
    match code
    case Seq(first, rest) => NoThrow(first) && NoThrow(rest)
    case Wrapped(body, _) => NoThrow(body)
    case Throw(_) => false
    case _ => true
  }

  lemma {:induction false} NoThrowMeaning(code: Code)
    requires NoThrow(code)
    ensures !Meaning(code).end.Raised?
  {
    match code
    case Seq(first, rest) =>
      NoThrowMeaning(first);
      NoThrowMeaning(rest);
    case Wrapped(body, _) => NoThrowMeaning(body);
    case _ =>
  }

  /**
   Every way out of code that throws nothing, falling off its end or jumping, leaves the jump
   buffer and the nesting count as they were, and a jump goes to the buffer that was in force.
   */
  lemma {:induction false} ExitRestores(code: Code, c: Context, invoking: bool)
    requires Coherent(c) && NoThrow(code)
    ensures var o := Run(code, c, invoking);
            && o.context.buffer == c.buffer && o.context.nest == c.nest
            && (o.exit == Normal || o.exit == Leave(c, invoking))
            && (o.exit == Normal ==> Coherent(o.context))
  {
    NoThrowMeaning(code);
    RunMeans(code, c, invoking);
    hide Run, Meaning, NoThrow;
  }

  /**
   A jump is thrown as an exception only out of a C++ test at nesting count 0, to the test's own
   buffer: no macro waiting in its setjmp is ever skipped by one.
   */
  lemma ThrownOnlyToOwn(code: Code, c: Context, invoking: bool)
    requires Coherent(c)
    ensures var o := Run(code, c, invoking);
            o.exit.Terminated? ==> invoking && o.exit.buffer == Own && c.nest == 0 && o.context.nest == 0
  {
    RunMeans(code, c, invoking);
    hide Run, Meaning;
  }

  /** The number of results with the status that were processed. */
  function Count(log: seq<Event>, status: Status): nat {
    if log == [] then 0
    else Count(log[..|log| - 1], status)
         + if log[|log| - 1].Processed? && log[|log| - 1].result.status == status then 1 else 0
  }

  lemma {:induction false} CountConcat(a: seq<Event>, b: seq<Event>, status: Status)
    ensures Count(a + b, status) == Count(a, status) + Count(b, status)
  {
    if b == [] {
      assert a + b == a;
    } else {
      assert (a + b)[..|a + b| - 1] == a + b[..|b| - 1];
      CountConcat(a, b[..|b| - 1], status);
    }
  }

  lemma CountOne(event: Event, status: Status)
    ensures Count([event], status) == if event.Processed? && event.result.status == status then 1 else 0
    ensures Count([], status) == 0
  {
    assert [event][..0] == [];
  }

  lemma CountMessages(message: Option<string>, status: Status)
    ensures Count(Messages(message), status) == 0
  {
    if message != None {
      CountOne(Told(message.value), status);
    }
  }

  /** Before a test is left, only notifications are processed. */
  lemma {:induction false} OnlyNotifications(code: Code, status: Status)
    requires status != Notification
    ensures Count(Meaning(code).log, status) == 0
  {
    match code
    case Skip =>
    case Step(name) => CountOne(Ran(name), status);
    case Seq(first, rest) =>
      OnlyNotifications(first, status);
      OnlyNotifications(rest, status);
      CountConcat(Meaning(first).log, Meaning(rest).log, status);
    case Wrapped(body, message) =>
      OnlyNotifications(body, status);
      CountMessages(message, status);
      CountConcat(Meaning(body).log, Messages(message), status);
    case Notify(systemMessage, message) =>
      CountMessages(message, status);
      CountOne(Processed(Result(Notification, systemMessage, message)), status);
      CountConcat(Messages(message), [Processed(Result(Notification, systemMessage, message))], status);
    case Terminate(_, _, message) => CountMessages(message, status);
    case Return =>
    case Throw(_) =>
  }

  /** Code notifies exactly if a notification is processed while it runs. */
  lemma {:induction false} NotifiedIff(code: Code)
    ensures Meaning(code).notified <==> Count(Meaning(code).log, Notification) > 0
  {
    match code
    case Skip =>
    case Step(name) => CountOne(Ran(name), Notification);
    case Seq(first, rest) =>
      NotifiedIff(first);
      NotifiedIff(rest);
      CountConcat(Meaning(first).log, Meaning(rest).log, Notification);
    case Wrapped(body, message) =>
      NotifiedIff(body);
      CountMessages(message, Notification);
      CountConcat(Meaning(body).log, Messages(message), Notification);
    case Notify(systemMessage, message) =>
      var p := Processed(Result(Notification, systemMessage, message));
      CountMessages(message, Notification);
      CountOne(p, Notification);
      CountConcat(Messages(message), [p], Notification);
    case Terminate(_, _, message) => CountMessages(message, Notification);
    case Return =>
    case Throw(_) =>
  }

  /** A context in which a test may start. */
  predicate Ready(c: Context) {
    c.nest == 0 && c.current == None
  }

  /**
   A C test ends in its own frame with the counters as at the start; if it was stopped, the result
   that stopped it is processed once, last, and is the only one of its status.  It has failed exactly
   if it had before or was stopped as pending, failed, in error or crashed, and is omitted exactly if
   it was stopped so, or had been before and neither was stopped nor notified of anything.
   */
  lemma TestEnds(code: Code, c: Context)
    requires Ready(c) && !Meaning(code).end.Raised?
    ensures var t, o := Meaning(code), RunTest(code, c);
            && o.exit == Normal && Ready(o.context) && o.context.buffer == Own
            && o.context.log == c.log + t.log + (if t.end.Stopped? then [Processed(t.end.result)] else [])
            && (forall status | status != Notification ::
                  Count(o.context.log, status)
                  == Count(c.log, status) + if t.end.Stopped? && t.end.result.status == status then 1 else 0)
            && (o.context.failed <==>
                  c.failed || (t.end.Stopped? && t.end.result.status in {Pending, Failure, Error, Crash}))
            && (o.context.omitted <==>
                  if t.end.Stopped? then t.end.result.status == Omission
                  else c.omitted && Count(t.log, Notification) == 0)
  {
    var t, start := Meaning(code), c.(buffer := Own);
    RunMeans(code, start, false);
    NotifiedIff(code);
    var last := if t.end.Stopped? then [Processed(t.end.result)] else [];
    forall status | status != Notification
      ensures Count(c.log + t.log + last, status)
              == Count(c.log, status) + if t.end.Stopped? && t.end.result.status == status then 1 else 0
    {
      OnlyNotifications(code, status);
      CountConcat(c.log, t.log, status);
      CountConcat(c.log + t.log, last, status);
      if t.end.Stopped? {
        CountOne(Processed(t.end.result), status);
      }
    }
    hide Run, Meaning, Count;
  }

  // ---------------------------------------------------------------- a failure at any depth

  /** One step from a statement outwards: after other code, before other code, inside a macro. */
  datatype Frame = Preceded(code: Code) | Followed(code: Code) | Within(message: Option<string>)

  function Surround(frame: Frame, code: Code): Code {
    match frame
    case Preceded(first) => Seq(first, code)
    case Followed(rest) => Seq(code, rest)
    case Within(message) => Wrapped(code, message)
  }

  /** The code inside all the frames, innermost frame first. */
  function Plug(frames: seq<Frame>, code: Code): Code {
    if frames == [] then code else Plug(frames[1..], Surround(frames[0], code))
  }

  predicate Reached(frames: seq<Frame>) {
    forall f :: f in frames && f.Preceded? ==> Meaning(f.code).end == Finished
  }

  /** What ran before, outermost frame first. */
  function Earlier(frames: seq<Frame>): seq<Event> {
    if frames == [] then []
    else Earlier(frames[1..]) + if frames[0].Preceded? then Meaning(frames[0].code).log else []
  }

  /** The message steps on the way out, innermost frame first. */
  function WayOut(frames: seq<Frame>): seq<Event> {
    if frames == [] then []
    else (if frames[0].Within? then Messages(frames[0].message) else []) + WayOut(frames[1..])
  }

  /** The result with the messages of the frames given to it in turn. */
  function Annotated(result: Result, frames: seq<Frame>): Result
    decreases |frames|
  {
    if frames == [] then result
    else Annotated(if frames[0].Within? then WithMessage(result, frames[0].message) else result, frames[1..])
  }

  /** A stop inside any frames runs the messages from the inside out and nothing that follows. */
  lemma {:induction false} StopUnwinds(frames: seq<Frame>, code: Code)
    requires Reached(frames) && Meaning(code).end.Stopped?
    ensures var t := Meaning(Plug(frames, code));
            && t.log == Earlier(frames) + (Meaning(code).log + WayOut(frames))
            && t.end == Stopped(Annotated(Meaning(code).end.result, frames))
    decreases |frames|
  {
    var inner := Meaning(code);
    if frames == [] {
      EmptyHead(inner.log);
      EmptyTail(inner.log);
      EmptyHead(inner.log + []);
    } else {
      var f, outer := frames[0], frames[1..];
      assert f in frames && forall g :: g in outer ==> g in frames;
      var next := Surround(f, code);
      StopFrame(f, code);
      StopUnwinds(outer, next);
      assert Plug(frames, code) == Plug(outer, next);
      hide Plug, Meaning, Surround, Messages, Annotated, WithMessage;
      var before := if f.Preceded? then Meaning(f.code).log else [];
      var after := if f.Within? then Messages(f.message) else [];
      AnnotatedFirst(inner.end.result, frames);
      Shuffle(Earlier(outer), before, inner.log, after, WayOut(outer));
    }
  }

  /** The last message told. */
  function LastTold(log: seq<Event>): Option<string> {
    if log == [] then None
    else if log[|log| - 1].Told? then Some(log[|log| - 1].message)
    else LastTold(log[..|log| - 1])
  }

  lemma {:induction false} LastToldConcat(a: seq<Event>, b: seq<Event>)
    ensures LastTold(a + b) == if LastTold(b) == None then LastTold(a) else LastTold(b)
  {
    if b == [] {
      assert a + b == a;
    } else {
      assert (a + b)[..|a + b| - 1] == a + b[..|b| - 1];
      LastToldConcat(a, b[..|b| - 1]);
    }
  }

  lemma LastMessage(message: Option<string>)
    ensures LastTold(Messages(message)) == message
  {
  }

  /** The frames give a result nothing but the last message told on the way out. */
  lemma {:induction false} AnnotatedMeans(result: Result, frames: seq<Frame>)
    ensures Annotated(result, frames)
            == if LastTold(WayOut(frames)) == None then result else result.(userMessage := LastTold(WayOut(frames)))
    decreases |frames|
  {
    if frames != [] {
      var f, outer := frames[0], frames[1..];
      var first := if f.Within? then Messages(f.message) else [];
      var next := if f.Within? then WithMessage(result, f.message) else result;
      AnnotatedMeans(next, outer);
      LastToldConcat(first, WayOut(outer));
      if f.Within? { LastMessage(f.message); }
      assert WayOut(frames) == first + WayOut(outer);
      hide LastTold, Messages, WayOut;
    }
  }

  lemma AnnotatedFirst(result: Result, frames: seq<Frame>)
    requires frames != []
    ensures Annotated(result, frames)
            == Annotated(if frames[0].Within? then WithMessage(result, frames[0].message) else result, frames[1..])
  {
    hide WithMessage;
  }

  lemma StopFrame(f: Frame, code: Code)
    requires Meaning(code).end.Stopped? && (f.Preceded? ==> Meaning(f.code).end == Finished)
    ensures var before := if f.Preceded? then Meaning(f.code).log else [];
            var after := if f.Within? then Messages(f.message) else [];
            var t := Meaning(Surround(f, code));
            && t.log == before + (Meaning(code).log + after)
            && t.end == Stopped(if f.Within? then WithMessage(Meaning(code).end.result, f.message)
                                else Meaning(code).end.result)
  {
    EmptyTail(Meaning(code).log);
    EmptyHead(Meaning(code).log);
    if f.Within? {
      EmptyHead(Meaning(code).log + Messages(f.message));
    }
  }

  lemma Shuffle(a: seq<Event>, b: seq<Event>, c: seq<Event>, d: seq<Event>, e: seq<Event>)
    ensures a + ((b + (c + d)) + e) == (a + b) + (c + (d + e))
  {
    Associate(b, c + d, e);
    Associate(c, d, e);
    Associate(a, b, c + (d + e));
  }

  /**
   A failure at any depth of a C test: the messages of the enclosing macros run innermost first,
   the result is processed once, after them and in the test's own frame, with the last message
   told, and nothing that follows in any frame runs.  The test has failed unless it was stopped by
   an omission or a mere notice.
   */
  lemma FailureUnwinds(frames: seq<Frame>, status: Status, systemMessage: string, message: Option<string>, c: Context)
    requires Ready(c) && Reached(frames)
    ensures var told := Messages(message) + WayOut(frames);
            var o := RunTest(Plug(frames, Terminate(status, systemMessage, message)), c);
            && o.exit == Normal && Ready(o.context) && o.context.buffer == Own
            && o.context.log == c.log + (Earlier(frames) + told)
                                + [Processed(Result(status, systemMessage, LastTold(told)))]
            && (o.context.failed <==> c.failed || status in {Pending, Failure, Error, Crash})
            && (o.context.omitted <==> status == Omission)
  {
    AnnotatedMeans(Result(status, systemMessage, message), frames);
    LastMessage(message);
    LastToldConcat(Messages(message), WayOut(frames));
    var stop := Terminate(status, systemMessage, message);
    assert Meaning(stop) == Trace(Messages(message), false, Stopped(Result(status, systemMessage, message)));
    hide *;
    StopUnwinds(frames, stop);
    TestEnds(Plug(frames, stop), c);
  }

  /**
   A notification is processed at once, with the message told for it, and what follows still runs; a
   return skips the rest of the innermost macro, or of the test, and is no failure.
   */
  lemma GoesOnAfter(systemMessage: string, message: Option<string>, skipped: Code, rest: Code, c: Context)
    requires Ready(c)
    ensures Meaning(Seq(Notify(systemMessage, message), rest)).log
            == Messages(message) + [Processed(Result(Notification, systemMessage, message))] + Meaning(rest).log
    ensures Meaning(Seq(Wrapped(Seq(Return, skipped), message), rest)).log == Messages(message) + Meaning(rest).log
    ensures var o := RunTest(Seq(Return, skipped), c);
            o.exit == Normal && o.context == c.(buffer := Own)
  {
    var stop := Seq(Return, skipped);
    assert Meaning(Return) == Trace([], false, Returned) && Meaning(stop) == Meaning(Return);
    assert Meaning(Wrapped(stop, message)) == Wrap(Meaning(stop), message);
    EmptyHead(Messages(message));
    RunMeans(Seq(Return, skipped), c.(buffer := Own), false);
    EmptyTail(c.log);
    EmptyTail(c.log + []);
    hide Run, Messages;
  }

  // ---------------------------------------------------------------- C++ tests

  /** Forced unwinding counts the nesting down to 0 and puts the base buffer back. */
  lemma {:induction false} ForceUnwindEnds(c: Context, base: Buffer)
    ensures ForceUnwind(c, base) == c.(nest := 0, buffer := base)
    decreases c.nest
  {
    if c.nest > 0 {
      ForceUnwindEnds(c.Finish(), base);
    }
  }

  /**
   A C++ test that lets no exception out does exactly what the C test does, whether it is left by
   its end, by a return or by a failure at any depth.
   */
  lemma InvokeAgrees(code: Code, c: Context)
    requires Ready(c) && !Meaning(code).end.Raised?
    ensures InvokeTest(code, c) == RunTest(code, c)
  {
    var start := c.(buffer := Own);
    RunMeans(code, start, false);
    RunMeans(code, start, true);
    hide Meaning, Run, After;
  }

  /**
   A C++ test that lets an exception out, from whatever nesting depth, ends with the counters and
   the buffer of its start and one more ERROR result, which tells of the exception.
   */
  lemma ExceptionBecomesError(code: Code, c: Context)
    requires Ready(c) && Meaning(code).end.Raised?
    ensures var t, o := Meaning(code), InvokeTest(code, c);
            && o.exit == Normal && Ready(o.context) && o.context.buffer == Own
            && o.context.failed && !o.context.omitted
            && o.context.log == c.log + t.log + [Processed(Result(Error, ExceptionMessage(t.end.exception), None))]
            && ExceptionMessage(t.end.exception)
               == (match t.end.exception
                   case Standard(name, what) =>
                     "Unhandled C++ standard exception is thrown: <" + name + ">: " + what
                   case Other => "Unhandled C++ non-standard exception is thrown")
            && Count(o.context.log, Error) == Count(c.log, Error) + 1
  {
    var t, start := Meaning(code), c.(buffer := Own);
    RunMeans(code, start, true);
    var o := Run(code, start, true);
    hide *;
    RaisedFacts(o, start, t);
    var result := Result(Error, ExceptionMessage(t.end.exception), None);
    ForceUnwindEnds(o.context, Own);
    var unwound := ForceUnwind(o.context, Own);
    ReadyFacts(c, unwound);
    ErrorLast(unwound, ExceptionMessage(t.end.exception));
    InvokeRaised(code, c, o, t.end.exception);
    var done := InvokeTest(code, c).context;
    ReadyFacts(c, done);
    OnlyNotifications(code, Error);
    CountConcat(c.log, t.log, Error);
    CountLast(c.log + t.log, result);
  }

  lemma RaisedFacts(o: Outcome, c: Context, t: Trace)
    requires t.end.Raised? && Means(o, c, t, true)
    ensures o.exit == Thrown(t.end.exception) && o.context.current == None && o.context.log == c.log + t.log
  {
  }

  lemma ReadyFacts(c: Context, d: Context)
    ensures Ready(c) <==> c.nest == 0 && c.current == None
    ensures Ready(d) <==> d.nest == 0 && d.current == None
    ensures Ready(c) ==> Coherent(c.(buffer := Own))
  {
  }

  lemma InvokeRaised(code: Code, c: Context, o: Outcome, e: Exception)
    requires o == Run(code, c.(buffer := Own), true) && o.exit == Thrown(e)
    ensures var left := Run(Terminate(Error, ExceptionMessage(e), None), ForceUnwind(o.context, Own), false);
            InvokeTest(code, c) == if left.exit == Jump(Own) then Outcome(Normal, left.context) else left
  {
    hide Run, ForceUnwind, ExceptionMessage;
  }

  lemma ErrorLast(c: Context, systemMessage: string)
    requires Ready(c) && c.buffer == Own
    ensures Run(Terminate(Error, systemMessage, None), c, false)
            == Outcome(Jump(Own), c.(failed := true, omitted := false,
                                     log := c.log + [Processed(Result(Error, systemMessage, None))]))
  {
    RunTerminate(Error, systemMessage, None, c, false);
    hide Run;
  }

  lemma RunTerminate(status: Status, systemMessage: string, message: Option<string>, c: Context, invoking: bool)
    ensures var told := c.SetCurrentResult(status, systemMessage).Tell(message);
            var done := if told.nest > 0 then told else told.ProcessCurrentResult();
            Run(Terminate(status, systemMessage, message), c, invoking) == Outcome(Leave(done, invoking), done)
  {
    hide Leave;
  }

  lemma CountLast(log: seq<Event>, result: Result)
    requires result.status == Error
    ensures Count(log + [Processed(result)], Error) == Count(log, Error) + 1
  {
    CountOne(Processed(result), Error);
    CountConcat(log, [Processed(result)], Error);
  }

  // ---------------------------------------------------------------- the objects

  lemma InvokeUnfold(code: Code, c: Context)
    ensures var o := Run(code, c.(buffer := Own), true);
            var left := if o.exit.Terminated? then Outcome(Jump(o.exit.buffer), o.context)
                        else if o.exit.Thrown? then
                          Run(Terminate(Error, ExceptionMessage(o.exit.exception), None), ForceUnwind(o.context, Own),
                              false)
                        else o;
            InvokeTest(code, c) == if left.exit == Jump(Own) then Outcome(Normal, left.context) else left
  {
    hide Run, ForceUnwind, ExceptionMessage;
  }

  lemma RunWrapped(body: Code, message: Option<string>, c: Context, invoking: bool)
    ensures var own := Level(c.nest + 1);
            var o := Run(body, c.(nest := c.nest + 1, buffer := own), invoking);
            Run(Wrapped(body, message), c, invoking)
            == if o.exit == Normal || o.exit == Jump(own) then AfterWrapped(c.buffer, o.context, message, invoking)
               else o
  {
    hide AfterWrapped;
  }

  /** CutTestContext, as far as the macros use it. */
  class TestContext {
    var jumpBuffer: Buffer
    var userMessageJumpNest: nat
    var currentResult: Option<Result>
    var failed: bool
    var omitted: bool
    var events: seq<Event>

    constructor ()
      ensures Value() == Context(Own, 0, None, false, false, [])
    {
      jumpBuffer, userMessageJumpNest, currentResult := Own, 0, None;
      failed, omitted, events := false, false, [];
    }

    function Value(): Context
      reads this
    {
      Context(jumpBuffer, userMessageJumpNest, currentResult, failed, omitted, events)
    }

    method SetJumpBuffer(buffer: Buffer)
      modifies this
      ensures Value() == old(Value()).(buffer := buffer)
    {
      jumpBuffer := buffer;
    }

    method StartUserMessageJump()
      modifies this
      ensures Value() == old(Value()).(nest := old(userMessageJumpNest) + 1)
    {
      userMessageJumpNest := userMessageJumpNest + 1;
    }

    method FinishUserMessageJump()
      modifies this
      ensures Value() == old(Value()).Finish()
      ensures old(userMessageJumpNest) < 4294967296 ==>
                userMessageJumpNest == (old(userMessageJumpNest) + 4294967295) % 4294967296
    {
      userMessageJumpNest := if userMessageJumpNest == 0 then 0xFFFF_FFFF else userMessageJumpNest - 1;
    }

    predicate InUserMessageJump()
      reads this
    {
      userMessageJumpNest > 0
    }

    method SetCurrentResult(status: Status, systemMessage: string)
      modifies this
      ensures Value() == old(Value()).SetCurrentResult(status, systemMessage)
    {
      if IsCritical(status) {
        failed := true;
      }
      omitted := status == Omission;
      currentResult := Some(Result(status, systemMessage, None));
    }

    /** cut_message, preceded by the record that the step ran. */
    method SetCurrentResultUserMessage(message: Option<string>)
      modifies this
      ensures Value() == old(Value()).Tell(message)
    {
      if message.Some? {
        events := events + [Told(message.value)];
        if currentResult.Some? {
          currentResult := Some(currentResult.value.(userMessage := message));
        }
      }
    }

    method ProcessCurrentResult()
      modifies this
      ensures Value() == old(Value()).ProcessCurrentResult()
    {
      if currentResult.Some? {
        events := events + [Processed(currentResult.value)];
        currentResult := None;
      }
    }
  }

  /** A test that is run; `invoking` is set while a C++ test is invoked. */
  class RunningTest {
    const context: TestContext
    var invoking: bool

    constructor (context: TestContext)
      ensures this.context == context && !invoking
    {
      this.context := context;
      invoking := false;
    }

    method LongJump(buffer: Buffer) returns (exit: Exit)
      ensures exit == JumpTo(buffer, invoking)
    {
      if invoking && buffer == Own {
        exit := Terminated(buffer);
      } else {
        exit := Jump(buffer);
      }
    }

    method Terminate(status: Status, systemMessage: string, message: Option<string>) returns (exit: Exit)
      modifies context
      ensures Outcome(exit, context.Value())
              == Run(Code.Terminate(status, systemMessage, message), old(context.Value()), invoking)
    {
      context.SetCurrentResult(status, systemMessage);
      context.SetCurrentResultUserMessage(message);
      if !context.InUserMessageJump() {
        context.ProcessCurrentResult();
      }
      exit := LongJump(context.jumpBuffer);
    }

    /** The part of cut_test_with_user_message that runs however the assertion was left. */
    method FinishWrapped(previous: Buffer, message: Option<string>) returns (exit: Exit)
      modifies context
      ensures Outcome(exit, context.Value()) == AfterWrapped(previous, old(context.Value()), message, invoking)
    {
      context.SetJumpBuffer(previous);
      context.FinishUserMessageJump();
      context.SetCurrentResultUserMessage(message);
      if context.currentResult.Some? {
        if !context.InUserMessageJump() {
          context.ProcessCurrentResult();
        }
        exit := LongJump(context.jumpBuffer);
      } else {
        exit := Normal;
      }
    }

    /** cut_test_with_user_message */
    method WithUserMessage(body: Code, message: Option<string>) returns (exit: Exit)
      modifies context
      ensures Outcome(exit, context.Value()) == Run(Wrapped(body, message), old(context.Value()), invoking)
      decreases body, 1
    {
      hide AfterWrapped, Leave;
      RunWrapped(body, message, context.Value(), invoking);
      hide Run;
      context.StartUserMessageJump();
      var previous := context.jumpBuffer;
      var own := Level(context.userMessageJumpNest);
      context.SetJumpBuffer(own);
      exit := Execute(body);
      if exit == Normal || exit == Jump(own) {
        exit := FinishWrapped(previous, message);
      }
    }

    method Execute(code: Code) returns (exit: Exit)
      modifies context
      ensures Outcome(exit, context.Value()) == Run(code, old(context.Value()), invoking)
      decreases code, 0
    {
      exit := Normal;
      match code
      case Skip =>
      case Step(name) => context.events := context.events + [Ran(name)];
      case Seq(first, rest) =>
        exit := Execute(first);
        if exit == Normal {
          exit := Execute(rest);
        }
      case Wrapped(body, message) => exit := WithUserMessage(body, message);
      case Notify(systemMessage, message) =>
        context.SetCurrentResult(Notification, systemMessage);
        context.SetCurrentResultUserMessage(message);
        context.ProcessCurrentResult();
      case Terminate(status, systemMessage, message) => exit := Terminate(status, systemMessage, message);
      case Return => exit := LongJump(context.jumpBuffer);
      case Throw(exception) => exit := Thrown(exception);
    }

    /** cut_test_run of a C test. */
    method RunPlain(code: Code) returns (exit: Exit)
      requires !invoking
      modifies context
      ensures Outcome(exit, context.Value()) == RunTest(code, old(context.Value()))
    {
      context.SetJumpBuffer(Own);
      exit := Execute(code);
      if exit == Jump(Own) {
        exit := Normal;
      }
    }

    method ForceUnwindJumpBuffers(base: Buffer)
      modifies context
      ensures context.Value() == ForceUnwind(old(context.Value()), base)
    {
      while context.InUserMessageJump()
        invariant ForceUnwind(context.Value(), base) == ForceUnwind(old(context.Value()), base)
        decreases context.userMessageJumpNest
      {
        context.FinishUserMessageJump();
      }
      context.SetJumpBuffer(base);
    }

    /** cut_test_run of a C++ test, with cut::test::invoke as the way to call it. */
    method RunInvoked(code: Code) returns (exit: Exit)
      modifies this, context
      ensures Outcome(exit, context.Value()) == InvokeTest(code, old(context.Value()))
      ensures !invoking
    {
      InvokeUnfold(code, context.Value());
      hide Run, ForceUnwind, ExceptionMessage, InvokeTest, Leave;
      context.SetJumpBuffer(Own);
      var base := context.jumpBuffer;
      invoking := true;
      exit := Execute(code);
      invoking := false;
      if exit.Terminated? {
        exit := LongJump(exit.buffer);
      } else if exit.Thrown? {
        var message := ExceptionMessage(exit.exception);
        ForceUnwindJumpBuffers(base);
        exit := Terminate(Error, message, None);
      }
      if exit == Jump(Own) {
        exit := Normal;
      }
    }
  }
}
