/** Catching crashes of nested runs (cut-crash-backtrace.c): signal actions saved and put back. */
module CrashBacktrace {
  const SIGINT: nat := 2
  const SIGABRT: nat := 6
  const SIGBUS: nat := 7
  const SIGSEGV: nat := 11
  const SIGTERM: nat := 15
  const HANDLED := {SIGSEGV, SIGABRT, SIGTERM, SIGINT, SIGBUS}

  /** What happens on a signal: the handler of this file, or anything else. */
  datatype Action = WillBeBack | Foreign(id: int)

  type Table = map<nat, Action>

  /** A guarded run: where a crash jumps to, and the actions it replaced. */
  datatype Guard = Guard(jumpBuffer: nat, saved: Table)

  /** `guards` is the stack, newest first; `exited` is set when the process has given up. */
  datatype Process = Process(table: Table, guards: seq<Guard>, received: bool, exited: bool)

  predicate Complete(table: Table) {
    HANDLED <= table.Keys
  }

  // ---------------------------------------------------------------- one step

  function Replaced(table: Table, signals: set<nat>): Table
    requires signals <= table.Keys
  {
    map s | s in signals :: table[s]
  }

  function Installed(signals: set<nat>): Table {
    map s | s in signals :: WillBeBack
  }

  /** cut_crash_backtrace_new, with the signals for which sigaction fails. */
  function New(p: Process, jumpBuffer: nat, failing: set<nat>): Process
    requires Complete(p.table)
  {
    p.(table := p.table + Installed(HANDLED - failing),
       guards := [Guard(jumpBuffer, Replaced(p.table, HANDLED - failing))] + p.guards)
  }

  /** cut_crash_backtrace_free of the newest guard. */
  function Free(p: Process): Process
    requires p.guards != []
  {
    p.(table := p.table + p.guards[0].saved, guards := p.guards[1..])
  }

  /** The handler: the process exits on a second crash, and else jumps to the newest guard. */
  function Handle(p: Process): Process
    requires p.guards != []
  {
    if p.received then p.(exited := true) else Free(p).(received := true)
  }

  predicate Caught(p: Process, signum: nat) {
    signum in p.table && p.table[signum] == WillBeBack
  }

  // ---------------------------------------------------------------- what every state keeps

  /** The table after freeing every guard from the newest on. */
  function Undo(table: Table, guards: seq<Guard>): Table
    decreases |guards|
  {
    if guards == [] then table else Undo(table + guards[0].saved, guards[1..])
  }

  /** In every state, freeing all the guards leads back to the initial table. */
  predicate Restorable(p: Process, initial: Table) {
    Complete(p.table) && Undo(p.table, p.guards) == initial
  }

  lemma ReplaceUndone(table: Table, signals: set<nat>)
    requires signals <= table.Keys
    ensures table + Installed(signals) + Replaced(table, signals) == table
  {
  }

  lemma NewKeeps(p: Process, jumpBuffer: nat, failing: set<nat>, initial: Table)
    requires Restorable(p, initial)
    ensures Restorable(New(p, jumpBuffer, failing), initial)
  {
    ReplaceUndone(p.table, HANDLED - failing);
    hide Installed, Replaced;
    var q := New(p, jumpBuffer, failing);
    assert q.guards[1..] == p.guards;
  }

  lemma FreeKeeps(p: Process, initial: Table)
    requires Restorable(p, initial) && p.guards != []
    ensures Restorable(Free(p), initial)
  {
  }

  /** The handler is only in the table while there is a guard to jump to. */
  lemma CaughtHasGuard(p: Process, initial: Table, signum: nat)
    requires Restorable(p, initial) && Caught(p, signum)
    requires signum in initial ==> initial[signum] != WillBeBack
    ensures p.guards != []
  {
  }

  /** The calls made, and signals delivered between them. */
  datatype Call = Guarding(jumpBuffer: nat, failing: set<nat>) | Freeing | Signal(signum: nat) | Resetting

  function Step(p: Process, call: Call): (q: Process)
    requires Complete(p.table)
    ensures Complete(q.table)
  {
    match call
    case Guarding(jumpBuffer, failing) => New(p, jumpBuffer, failing)
    case Freeing => if p.guards == [] then p else Free(p)
    case Signal(signum) => if Caught(p, signum) && p.guards != [] then Handle(p) else p
    case Resetting => p.(received := false)
  }

  function Run(p: Process, calls: seq<Call>): Process
    requires Complete(p.table)
    decreases |calls|
  {
    if calls == [] then p else Run(Step(p, calls[0]), calls[1..])
  }

  lemma StepKeeps(p: Process, call: Call, initial: Table)
    requires Restorable(p, initial)
    ensures Restorable(Step(p, call), initial)
  {
    if call.Guarding? {
      NewKeeps(p, call.jumpBuffer, call.failing, initial);
    } else if p.guards != [] {
      FreeKeeps(p, initial);
    }
    hide Undo, Installed, Replaced;
  }

  /**
   Whatever calls are made and signals delivered, whichever installs failed: freeing the remaining
   guards restores the initial table, no crash that is caught finds the stack empty, and a run that
   leaves no guard leaves the initial table.
   */
  lemma {:induction false} EveryStateRestorable(p: Process, calls: seq<Call>, initial: Table)
    requires Restorable(p, initial) && forall s :: s in initial ==> initial[s] != WillBeBack
    ensures var q := Run(p, calls);
            && Restorable(q, initial)
            && (forall s :: Caught(q, s) ==> q.guards != [])
            && (q.guards == [] ==> q.table == initial)
    decreases |calls|
  {
    if calls == [] {
      forall s | Caught(p, s)
        ensures p.guards != []
      {
        CaughtHasGuard(p, initial, s);
      }
    } else {
      StepKeeps(p, calls[0], initial);
      EveryStateRestorable(Step(p, calls[0]), calls[1..], initial);
    }
  }

  /**
   A new guard catches the five signals a crash or an interruption may send, as far as their actions
   can be replaced, and no other; it is the guard that a crash jumps to.
   */
  lemma NewCatches(p: Process, jumpBuffer: nat, failing: set<nat>, signum: nat)
    requires Complete(p.table)
    ensures var q := New(p, jumpBuffer, failing);
            && (signum in {2, 6, 7, 11, 15} - failing ==> Caught(q, signum))
            && (signum !in {2, 6, 7, 11, 15} - failing ==>
                  (signum in q.table <==> signum in p.table)
                  && (signum in q.table ==> q.table[signum] == p.table[signum]))
            && q.guards != [] && q.guards[0].jumpBuffer == jumpBuffer && q.guards[1..] == p.guards
            && q.received == p.received && q.exited == p.exited
  {
  }

  /** A crash that is caught while the one before it is still being handled ends the process, and no other does. */
  lemma SecondCrashExits(p: Process, first: nat, second: nat)
    requires Complete(p.table) && Caught(p, first) && p.guards != [] && !p.received && !p.exited
    ensures var q := Step(p, Signal(first));
            && !q.exited && q.guards == p.guards[1..]
            && (Caught(q, second) && q.guards != [] ==> Step(q, Signal(second)).exited)
            && !Step(Step(q, Resetting), Signal(second)).exited
  {
  }

  // ---------------------------------------------------------------- guarded runs

  /** Runs as the suite, case, iterator and test runners nest them. */
  datatype Nest =
    | Quiet
    | Both(first: Nest, second: Nest)
    | Guarded(jumpBuffer: nat, failing: set<nat>, body: Nest)
    | Crash(signum: nat)
    | Reset

  datatype Ending = Ended | Jumped(jumpBuffer: nat) | Exited

  datatype Result = Result(process: Process, ending: Ending)

  /** A crash jumps out of everything up to the guard whose buffer is jumped to. */
  function RunNest(n: Nest, p: Process): (r: Result)
    requires Complete(p.table)
    ensures Complete(r.process.table)
  {
    match n
    case Quiet => Result(p, Ended)
    case Reset => Result(p.(received := false), Ended)
    case Both(first, second) =>
      var r := RunNest(first, p);
      if r.ending == Ended then RunNest(second, r.process) else r
    case Guarded(jumpBuffer, failing, body) =>
      var r := RunNest(body, New(p, jumpBuffer, failing));
      if r.ending == Jumped(jumpBuffer) then Result(r.process, Ended)
      else if r.ending == Ended && r.process.guards != [] then Result(Free(r.process), Ended)
      else r
    case Crash(signum) =>
      if Caught(p, signum) && p.guards != [] then
        var q := Handle(p);
        Result(q, if q.exited then Exited else Jumped(p.guards[0].jumpBuffer))
      else Result(p, Ended)
  }

  /** The table and the stack: what a balanced run has to leave alone. */
  predicate SameGuards(p: Process, q: Process) {
    q.table == p.table && q.guards == p.guards
  }

  lemma FreeUndoesNew(p: Process, q: Process, jumpBuffer: nat, failing: set<nat>)
    requires Complete(p.table) && SameGuards(New(p, jumpBuffer, failing), q)
    ensures q.guards != [] && SameGuards(p, Free(q)) && q.guards[0].jumpBuffer == jumpBuffer
  {
    ReplaceUndone(p.table, HANDLED - failing);
    hide Installed, Replaced;
    assert q.guards[1..] == p.guards;
  }

  /**
   A guarded run leaves the table and the stack as it found them, whether it ends, or crashes at any
   depth and jumps to its own guard; an unguarded part that crashes has freed the guard it jumps to.
   */
  lemma {:induction false} NestRestores(n: Nest, p: Process)
    requires Complete(p.table) && !p.exited
    ensures var r := RunNest(n, p);
            && (r.ending == Exited <==> r.process.exited)
            && (r.ending == Ended ==> SameGuards(p, r.process))
            && (r.ending.Jumped? ==>
                  && p.guards != [] && r.ending.jumpBuffer == p.guards[0].jumpBuffer
                  && SameGuards(Free(p), r.process))
            && (n.Guarded? ==> !r.ending.Jumped?)
  {
    match n
    case Quiet =>
    case Reset =>
    case Both(first, second) =>
      NestRestores(first, p);
      var r := RunNest(first, p);
      if r.ending == Ended {
        NestRestores(second, r.process);
        hide RunNest, Complete;
      }
    case Guarded(jumpBuffer, failing, body) =>
      var inner := New(p, jumpBuffer, failing);
      NestRestores(body, inner);
      FreeUndoesNew(p, inner, jumpBuffer, failing);
      var r := RunNest(body, inner);
      if r.ending == Ended {
        FreeUndoesNew(p, r.process, jumpBuffer, failing);
      }
    case Crash(signum) =>
  }

  // ---------------------------------------------------------------- the linked stack

  lemma InstallStep(before: Table, done: set<nat>, signum: nat, failing: set<nat>)
    requires done + {signum} <= before.Keys && signum !in done
    ensures signum in failing ==> done + {signum} - failing == done - failing
    ensures signum !in failing ==>
              && signum in before + Installed(done - failing)
              && (before + Installed(done - failing))[signum := WillBeBack]
                 == before + Installed(done + {signum} - failing)
              && Replaced(before, done - failing)[signum := (before + Installed(done - failing))[signum]]
                 == Replaced(before, done + {signum} - failing)
  {
    assert signum in failing ==> done + {signum} - failing == done - failing;
  }

  lemma NothingInstalled(table: Table, failing: set<nat>)
    ensures {} - failing == {} && table + Installed({} - failing) == table && Replaced(table, {} - failing) == map[]
  {
    assert {} - failing == {};
  }

  /** sigaction with a saved action, if there is one. */
  function Put(table: Table, saved: Table, signum: nat): Table {
    if signum in saved then table[signum := saved[signum]] else table
  }

  /** Putting back every handled signal puts back all that was saved. */
  lemma PutAll(table: Table, saved: Table)
    requires saved.Keys <= HANDLED
    ensures Put(Put(Put(Put(Put(table, saved, SIGINT), saved, SIGTERM), saved, SIGABRT), saved, SIGSEGV), saved, SIGBUS)
            == table + saved
  {
    hide *;
    PutOne(table, saved, {}, SIGINT);
    PutOne(table, saved, {} + {SIGINT}, SIGTERM);
    PutOne(table, saved, {} + {SIGINT} + {SIGTERM}, SIGABRT);
    PutOne(table, saved, {} + {SIGINT} + {SIGTERM} + {SIGABRT}, SIGSEGV);
    PutOne(table, saved, {} + {SIGINT} + {SIGTERM} + {SIGABRT} + {SIGSEGV}, SIGBUS);
    PutRange(saved);
  }

  lemma PutOne(table: Table, saved: Table, put: set<nat>, signum: nat)
    ensures Put(table + PutPart(saved, put), saved, signum) == table + PutPart(saved, put + {signum})
    ensures table + PutPart(saved, {}) == table
  {
  }

  /** The part of the saved actions for the signals given. */
  function PutPart(saved: Table, put: set<nat>): Table {
    map s | s in saved && s in put :: saved[s]
  }

  lemma PutRange(saved: Table)
    requires saved.Keys <= HANDLED
    ensures PutPart(saved, {} + {SIGINT} + {SIGTERM} + {SIGABRT} + {SIGSEGV} + {SIGBUS}) == saved
  {
  }

  lemma HandledSignals(table: Table)
    requires Complete(table)
    ensures HANDLED <= table.Keys
    ensures {} + {SIGSEGV} + {SIGABRT} + {SIGTERM} + {SIGINT} + {SIGBUS} == HANDLED
  {
  }

  class GuardNode {
    var previous: GuardNode?
    var jumpBuffer: nat
    var saved: Table

    constructor (jumpBuffer: nat)
      ensures this.jumpBuffer == jumpBuffer && previous == null && saved == map[]
    {
      this.jumpBuffer := jumpBuffer;
      previous, saved := null, map[];
    }

    function Value(): Guard
      reads this
    {
      Guard(jumpBuffer, saved)
    }
  }

  /** The stack linked from a node down. */
  ghost predicate Linked(current: GuardNode?, nodes: seq<GuardNode>)
    reads nodes
  {
    if nodes == [] then current == null
    else
      && current == nodes[0] && nodes[0] !in nodes[1..] && nodes[0].saved.Keys <= HANDLED
      && Linked(nodes[0].previous, nodes[1..])
  }

  ghost function Values(nodes: seq<GuardNode>): seq<Guard>
    reads nodes
  {
    if nodes == [] then [] else [nodes[0].Value()] + Values(nodes[1..])
  }

  /** The signal table of the process and the variables of the file. */
  class CrashHandling {
    var table: Table
    var current: GuardNode?
    var received: bool
    var exited: bool
    ghost var nodes: seq<GuardNode>

    ghost predicate Valid()
      reads this, nodes
    {
      Complete(table) && Linked(current, nodes)
    }

    ghost function Value(): Process
      reads this, nodes
    {
      Process(table, Values(nodes), received, exited)
    }

    constructor (table: Table)
      requires Complete(table)
      ensures Valid() && Value() == Process(table, [], false, false)
    {
      this.table := table;
      current, received, exited, nodes := null, false, false, [];
    }

    /** sigaction with the handler, which may fail; the action replaced is remembered. */
    method Install(node: GuardNode, signum: nat, failing: set<nat>, ghost before: Table, ghost done: set<nat>)
      requires done + {signum} <= before.Keys && signum !in done
      requires table == before + Installed(done - failing) && node.saved == Replaced(before, done - failing)
      modifies this`table, node`saved
      ensures table == before + Installed(done + {signum} - failing)
      ensures node.saved == Replaced(before, done + {signum} - failing)
    {
      if signum !in failing {
        node.saved := node.saved[signum := table[signum]];
        table := table[signum := WillBeBack];
      }
      InstallStep(before, done, signum, failing);
    }

    method InstallAll(node: GuardNode, failing: set<nat>)
      requires Complete(table) && node.saved == map[]
      modifies this`table, node`saved
      ensures table == old(table) + Installed(HANDLED - failing)
      ensures node.saved == Replaced(old(table), HANDLED - failing)
    {
      ghost var before := table;
      NothingInstalled(before, failing);
      hide Installed, Replaced;
      HandledSignals(before);
      Install(node, SIGSEGV, failing, before, {});
      Install(node, SIGABRT, failing, before, {} + {SIGSEGV});
      Install(node, SIGTERM, failing, before, {} + {SIGSEGV} + {SIGABRT});
      Install(node, SIGINT, failing, before, {} + {SIGSEGV} + {SIGABRT} + {SIGTERM});
      Install(node, SIGBUS, failing, before, {} + {SIGSEGV} + {SIGABRT} + {SIGTERM} + {SIGINT});
    }

    method NewGuard(jumpBuffer: nat, failing: set<nat>) returns (node: GuardNode)
      requires Valid()
      modifies this
      ensures Valid() && fresh(node) && nodes == [node] + old(nodes)
      ensures Value() == New(old(Value()), jumpBuffer, failing)
    {
      node := new GuardNode(jumpBuffer);
      InstallAll(node, failing);
      node.previous := current;
      current := node;
      nodes := [node] + nodes;
      assert nodes[1..] == old(nodes);
    }

    method Restore(node: GuardNode, signum: nat)
      modifies this`table
      ensures table == Put(old(table), node.saved, signum)
    {
      if signum in node.saved {
        table := table[signum := node.saved[signum]];
      }
    }

    method RestoreAll(node: GuardNode)
      requires node.saved.Keys <= HANDLED
      modifies this`table
      ensures table == old(table) + node.saved
    {
      PutAll(table, node.saved);
      hide Put;
      Restore(node, SIGINT);
      Restore(node, SIGTERM);
      Restore(node, SIGABRT);
      Restore(node, SIGSEGV);
      Restore(node, SIGBUS);
    }

    method FreeGuard(node: GuardNode)
      requires Valid() && current == node
      modifies this
      ensures Valid() && nodes == old(nodes)[1..]
      ensures old(Value()).guards != [] && Value() == Free(old(Value()))
    {
      RestoreAll(node);
      current := node.previous;
      nodes := nodes[1..];
    }

    /** i_will_be_back_handler; false if the process exits instead of jumping. */
    method HandleSignal() returns (jumps: bool, jumpBuffer: nat)
      requires Valid() && current != null
      modifies this
      ensures Valid() && old(Value()).guards != [] && Value() == Handle(old(Value()))
      ensures jumps <==> !old(received)
      ensures jumps ==> jumpBuffer == old(Value()).guards[0].jumpBuffer
    {
      if received {
        exited := true;
        return false, 0;
      }
      received := true;
      jumps, jumpBuffer := true, current.jumpBuffer;
      FreeGuard(current);
    }
  }
}
