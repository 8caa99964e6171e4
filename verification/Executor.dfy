/** The control skeleton of the executor, bash/execute_cmd.c: execute_command_internal,
    execute_connection and the executors of the compound commands, with their global counters and
    the flags they or into the command. It is proved to do what the structured semantics says. A
    longjmp to the top level is an extra result here. */
module Executor {
  import opened ShellCommands

  /** Whether the executor returned, jumped because of set -e, or was cut off by the bound on loops. */
  datatype Jump = Returned | ErrExit | CutOff

  // ---- the flags of a command ----

  function Nodes(c: Command): set<Node>
    decreases c, 1
  {
    if c.Null? then {} else {c.node} + PartNodes(c)
  }

  /** The flags of what is inside a command. */
  function PartNodes(c: Command): set<Node>
    requires !c.Null?
    decreases c, 0
  {
    match c
    case Simple(_, _, _) => {}
    case Break(_, _, _) => {}
    case Continue(_, _, _) => {}
    case Pipeline(_, _, _, es) => set e <- es
    case Group(_, _, body) => Nodes(body)
    case Seq(_, _, a, b) => Nodes(a) + Nodes(b)
    case And(_, _, a, b) => Nodes(a) + Nodes(b)
    case Or(_, _, a, b) => Nodes(a) + Nodes(b)
    case If(_, _, a, b, d) => Nodes(a) + Nodes(b) + Nodes(d)
    case While(_, _, _, a, b) => Nodes(a) + Nodes(b)
    case For(_, _, _, _, b) => Nodes(b)
    case ArithFor(_, _, _, b) => Nodes(b)
    case Case(_, _, _, cl) => ClauseNodes(cl)
  }

  function ClauseNodes(cl: Clauses): set<Node>
    decreases cl, 0
  {
    if cl.NoClause? then {} else Nodes(cl.action) + ClauseNodes(cl.rest)
  }

  /** Every part of the command has flags of its own. */
  predicate Distinct(c: Command)
    decreases c, 1
  {
    c.Null? || (c.node !in PartNodes(c) && DistinctParts(c))
  }

  predicate DistinctParts(c: Command)
    requires !c.Null?
    decreases c, 0
  {
    match c
    case Simple(_, _, _) => true
    case Break(_, _, _) => true
    case Continue(_, _, _) => true
    case Pipeline(_, _, _, _) => true
    case Group(_, _, body) => Distinct(body)
    case Seq(_, _, a, b) => Nodes(a) !! Nodes(b) && Distinct(a) && Distinct(b)
    case And(_, _, a, b) => Nodes(a) !! Nodes(b) && Distinct(a) && Distinct(b)
    case Or(_, _, a, b) => Nodes(a) !! Nodes(b) && Distinct(a) && Distinct(b)
    case If(_, _, a, b, d) =>
      Nodes(a) !! Nodes(b) && Nodes(a) !! Nodes(d) && Nodes(b) !! Nodes(d) && Distinct(a) && Distinct(b) && Distinct(d)
    case While(_, _, _, a, b) => Nodes(a) !! Nodes(b) && Distinct(a) && Distinct(b)
    case For(_, _, _, _, b) => Distinct(b)
    case ArithFor(_, _, _, b) => Distinct(b)
    case Case(_, _, _, cl) => DistinctClauses(cl)
  }

  predicate DistinctClauses(cl: Clauses)
    decreases cl, 0
  {
    cl.Clause? ==> Nodes(cl.action) !! ClauseNodes(cl.rest) && Distinct(cl.action) && DistinctClauses(cl.rest)
  }

  /** The flags that are set are among those that the semantics calls for: what an earlier run has
      left behind in the command does no harm. */
  ghost predicate Fits(w: World, c: Command, ign: bool)
    reads Nodes(c)
    decreases c, 1
  {
    c.Null? ||
    (&& (c.node.ignore ==> Ignoring(w, c, ign)) && (c.node.inner ==> IgnoringInside(w, c, ign))
     && FitsParts(w, c, Ignoring(w, c, ign), IgnoringInside(w, c, ign)))
  }

  ghost predicate FitsParts(w: World, c: Command, ign: bool, inside: bool)
    requires !c.Null?
    reads PartNodes(c)
    decreases c, 0
  {
    match c
    case Simple(_, _, _) => true
    case Break(_, _, _) => true
    case Continue(_, _, _) => true
    case Pipeline(_, _, _, es) => forall e <- es :: e.ignore ==> inside
    case Group(_, _, body) => Fits(w, body, inside)
    case Seq(_, _, a, b) => Fits(w, a, inside) && Fits(w, b, inside)
    case And(_, _, a, b) => Fits(w, a, true) && Fits(w, b, ign)
    case Or(_, _, a, b) => Fits(w, a, true) && Fits(w, b, ign)
    case If(_, _, a, b, d) => Fits(w, a, true) && Fits(w, b, inside) && Fits(w, d, inside)
    case While(_, _, _, a, b) => Fits(w, a, true) && Fits(w, b, inside)
    case For(_, _, _, _, b) => Fits(w, b, inside)
    case ArithFor(_, _, _, b) => Fits(w, b, inside)
    case Case(_, _, _, cl) => FitsClauses(w, cl, inside)
  }

  ghost predicate FitsClauses(w: World, cl: Clauses, inside: bool)
    reads ClauseNodes(cl)
    decreases cl, 0
  {
    cl.Clause? ==> Fits(w, cl.action, inside) && FitsClauses(w, cl.rest, inside)
  }

  /** A command that has just been parsed carries no flags, and fits every mode. */
  ghost predicate Clear(ns: set<Node>)
    reads ns
  {
    forall n <- ns :: !n.ignore && !n.inner
  }

  lemma ClearParts(a: set<Node>, b: set<Node>)
    requires Clear(a) && b <= a
    ensures Clear(b)
  {
  }

  lemma {:induction false} ClearFits(w: World, c: Command, ign: bool)
    requires Clear(Nodes(c))
    ensures Fits(w, c, ign)
    decreases c, 1
  {
    if !c.Null? {
      assert c.node in Nodes(c);
      ClearParts(Nodes(c), PartNodes(c));
      ClearFitsParts(w, c, Ignoring(w, c, ign), IgnoringInside(w, c, ign));
    }
  }

  lemma {:induction false} ClearPart(w: World, c: Command, ign: bool, all: set<Node>)
    requires Clear(all) && Nodes(c) <= all
    ensures Fits(w, c, ign)
    decreases c, 2
  {
    ClearParts(all, Nodes(c));
    ClearFits(w, c, ign);
  }

  lemma {:induction false} ClearFitsParts(w: World, c: Command, ign: bool, inside: bool)
    requires !c.Null? && Clear(PartNodes(c))
    ensures FitsParts(w, c, ign, inside)
    decreases c, 0
  {
    hide Fits, Nodes;
    var all := PartNodes(c);
    match c
    case Simple(_, _, _) =>
    case Break(_, _, _) =>
    case Continue(_, _, _) =>
    case Pipeline(_, _, _, es) => assert forall e <- es :: e in all;
    case Group(_, _, body) => ClearPart(w, body, inside, all);
    case Seq(_, _, a, b) =>
      ClearPart(w, a, inside, all);
      ClearPart(w, b, inside, all);
    case And(_, _, a, b) =>
      ClearPart(w, a, true, all);
      ClearPart(w, b, ign, all);
    case Or(_, _, a, b) =>
      ClearPart(w, a, true, all);
      ClearPart(w, b, ign, all);
    case If(_, _, a, b, d) =>
      ClearPart(w, a, true, all);
      ClearPart(w, b, inside, all);
      ClearPart(w, d, inside, all);
    case While(_, _, _, a, b) =>
      ClearPart(w, a, true, all);
      ClearPart(w, b, inside, all);
    case For(_, _, _, _, b) => ClearPart(w, b, inside, all);
    case ArithFor(_, _, _, b) => ClearPart(w, b, inside, all);
    case Case(_, _, _, cl) => ClearFitsClauses(w, cl, inside);
  }

  lemma {:induction false} ClearFitsClauses(w: World, cl: Clauses, inside: bool)
    requires Clear(ClauseNodes(cl))
    ensures FitsClauses(w, cl, inside)
    decreases cl, 0
  {
    if cl.Clause? {
      ClearPart(w, cl.action, inside, ClauseNodes(cl));
      ClearParts(ClauseNodes(cl), ClauseNodes(cl.rest));
      ClearFitsClauses(w, cl.rest, inside);
    }
  }

  /** The flags of a command exist already: nothing that is run allocates them. */
  lemma {:induction false} NodesExist(c: Command)
    ensures forall n <- Nodes(c) :: allocated(n)
    decreases c, 1
  {
    if !c.Null? { PartNodesExist(c); }
  }

  lemma {:induction false} PartNodesExist(c: Command)
    requires !c.Null?
    ensures forall n <- PartNodes(c) :: allocated(n)
    decreases c, 0
  {
    match c
    case Simple(_, _, _) =>
    case Break(_, _, _) =>
    case Continue(_, _, _) =>
    case Pipeline(_, _, _, _) =>
    case Group(_, _, body) => NodesExist(body);
    case Seq(_, _, a, b) => NodesExist(a); NodesExist(b);
    case And(_, _, a, b) => NodesExist(a); NodesExist(b);
    case Or(_, _, a, b) => NodesExist(a); NodesExist(b);
    case If(_, _, a, b, d) => NodesExist(a); NodesExist(b); NodesExist(d);
    case While(_, _, _, a, b) => NodesExist(a); NodesExist(b);
    case For(_, _, _, _, b) => NodesExist(b);
    case ArithFor(_, _, _, b) => NodesExist(b);
    case Case(_, _, _, cl) => ClauseNodesExist(cl);
  }

  lemma {:induction false} ClauseNodesExist(cl: Clauses)
    ensures forall n <- ClauseNodes(cl) :: allocated(n)
    decreases cl, 0
  {
    if cl.Clause? {
      NodesExist(cl.action);
      ClauseNodesExist(cl.rest);
    }
  }

  // ---- the cases of RunBody, one by one ----

  lemma GroupBody(w: World, c: Command, ign: bool, inside: bool, loops: nat, st: State, fuel: nat)
    requires c.Group?
    ensures RunBody(w, c, ign, inside, loops, st, fuel) == Run(w, c.body, inside, loops, st, fuel)
  {
  }

  lemma SeqBody(w: World, c: Command, ign: bool, inside: bool, loops: nat, st: State, fuel: nat)
    requires c.Seq?
    ensures var r := Run(w, c.first, inside, loops, st, fuel);
            RunBody(w, c, ign, inside, loops, st, fuel) ==
              if Stops(r.flow) then r
              else if r.flow != Normal then Out(r.flow, r.st.last, r.st)
              else Run(w, c.second, inside, loops, r.st, fuel)
  {
  }

  lemma AndOrBody(w: World, c: Command, ign: bool, inside: bool, loops: nat, st: State, fuel: nat)
    requires c.And? || c.Or?
    ensures var r := Run(w, c.first, true, loops, st, fuel);
            RunBody(w, c, ign, inside, loops, st, fuel) ==
              if r.flow != Normal || (r.status == 0) == c.Or? then r else Run(w, c.second, ign, loops, r.st, fuel)
  {
  }

  lemma IfBody(w: World, c: Command, ign: bool, inside: bool, loops: nat, st: State, fuel: nat)
    requires c.If?
    ensures var r := Run(w, c.test, true, loops, st, fuel);
            RunBody(w, c, ign, inside, loops, st, fuel) ==
              if Stops(r.flow) then r
              else if r.flow != Normal then Out(r.flow, r.st.last, r.st)
              else Run(w, if r.status == 0 then c.yes else c.no, inside, loops, r.st, fuel)
  {
  }

  lemma WhileBody(w: World, c: Command, ign: bool, inside: bool, loops: nat, st: State, fuel: nat)
    requires c.While?
    ensures RunBody(w, c, ign, inside, loops, st, fuel) == RunWhile(w, c, inside, loops + 1, 0, st, fuel, fuel)
  {
  }

  lemma ForBody(w: World, c: Command, ign: bool, inside: bool, loops: nat, st: State, fuel: nat)
    requires c.For?
    ensures RunBody(w, c, ign, inside, loops, st, fuel) ==
              if c.valid then RunFor(w, c, inside, loops + 1, 0, w.words(st.trace, c.id), 0, st, fuel)
                  else Out(Normal, 1, st)
  {
  }

  lemma ArithForBody(w: World, c: Command, ign: bool, inside: bool, loops: nat, st: State, fuel: nat)
    requires c.ArithFor?
    ensures var e := Evaluated(c.id, Init);
            RunBody(w, c, ign, inside, loops, st, fuel) ==
              if w.arith(st.trace, e) == BadExpression then Out(Normal, 1, Did(st, e))
              else RunArithFor(w, c, inside, loops + 1, 0, Did(st, e), fuel, fuel)
  {
  }

  lemma CaseBody(w: World, c: Command, ign: bool, inside: bool, loops: nat, st: State, fuel: nat)
    requires c.Case?
    ensures RunBody(w, c, ign, inside, loops, st, fuel) == RunCase(w, c.id, c.clauses, inside, loops, 0, 0, st, fuel)
  {
  }

  class Shell {
    const world: World
    var trace: seq<Event>
    var last: nat          // last_command_exit_value
    var breaking: nat
    var continuing: nat
    var loopLevel: nat

    constructor (world: World)
      ensures this.world == world && trace == [] && last == 0 && breaking == 0 && continuing == 0 && loopLevel == 0
    {
      this.world := world;
      trace, last, breaking, continuing, loopLevel := [], 0, 0, 0, 0;
    }

    /** The counters never hold a break and a continue at once. */
    ghost predicate Sane()
      reads this
    {
      breaking <= loopLevel && continuing <= loopLevel && (breaking == 0 || continuing == 0)
    }

    ghost function Now(): State
      reads this
    {
      State(trace, last)
    }

    /** The globals say what the outcome o says, `loops` loops deep; the counters encode how loops
        are left. */
    ghost predicate Encodes(o: Out, loops: nat, result: nat, jump: Jump)
      reads this
    {
      match o.flow
      case Exit => jump == ErrExit && Now() == o.st
      case OutOfFuel => jump == CutOff && Now() == o.st
      case Normal =>
        jump == Returned && result == o.status && Now() == o.st
        && loopLevel == loops && breaking == 0 && continuing == 0
      case BreakOut(k) =>
        jump == Returned && result == o.status && Now() == o.st
        && loopLevel == loops && breaking == k > 0 && continuing == 0
      case ContinueOut(k) =>
        jump == Returned && result == o.status && Now() == o.st
        && loopLevel == loops && breaking == 0 && continuing == k > 0
    }

    /** c may be run in the mode ign. */
    ghost predicate Ready(c: Command, ign: bool)
      reads this, Nodes(c)
    {
      Distinct(c) && Fits(world, c, ign) && (ign && !c.Null? ==> c.node.ignore)
    }

    /** Nothing to do while a loop is being left. */
    ghost predicate Leaving()
      reads this
    {
      breaking > 0 || continuing > 0
    }

    /** What running c in the mode ign leaves behind: the command still fits, and flags stay set. */
    twostate predicate Kept(c: Command, ign: bool)
      reads Nodes(c)
    {
      Fits(world, c, ign) && (!c.Null? && old(c.node.ignore) ==> c.node.ignore)
    }

    /** Nothing happens while a loop is being left. */
    twostate predicate Skipped(result: nat, jump: Jump)
      reads this
    {
      jump == Returned && result == old(last) && Now() == old(Now()) &&
      breaking == old(breaking) && continuing == old(continuing) && loopLevel == old(loopLevel)
    }

    lemma EncodesSane(c: Command, ign: bool, loops: nat, st: State, fuel: nat, result: nat, jump: Jump)
      requires Encodes(Run(world, c, ign, loops, st, fuel), loops, result, jump)
      ensures jump == Returned ==> Sane() && (Leaving() ==> result == last)
    {
      hide Run;
      RunSound(world, c, ign, loops, st, fuel);
    }

    /** execute_command_internal. */
    method ExecuteCommand(c: Command, ghost ign: bool, fuel: nat) returns (result: nat, jump: Jump)
      requires Sane() && Ready(c, ign)
      modifies this`trace, this`last, this`breaking, this`continuing, this`loopLevel, Nodes(c)
      decreases c, 2, 0
      ensures Kept(c, ign) && (jump == Returned ==> Sane() && (Leaving() ==> result == last))
      ensures old(Leaving()) ==> Skipped(result, jump)
      ensures !old(Leaving()) ==> Encodes(Run(world, c, ign, old(loopLevel), old(Now()), fuel), old(loopLevel),
              result, jump)
    {
      hide Run, Fits, Distinct, Nodes;
      if breaking > 0 || continuing > 0 {
        return last, Returned;
      }
      if c.Null? {
        NullRun(c, ign, fuel);
        return 0, Returned;
      }
      result, jump := ExecuteNode(c, ign, fuel);
    }

    /** The rest of execute_command_internal. */
    method ExecuteNode(c: Command, ghost ign: bool, fuel: nat) returns (result: nat, jump: Jump)
      requires Sane() && !Leaving() && !c.Null? && Ready(c, ign)
      modifies this`trace, this`last, this`breaking, this`continuing, this`loopLevel, Nodes(c)
      decreases c, 1, 10
      ensures Kept(c, ign) && (jump == Returned ==> Sane() && (Leaving() ==> result == last))
      ensures Encodes(Run(world, c, ign, old(loopLevel), old(Now()), fuel), old(loopLevel), result, jump)
    {
      hide Run, RunBody, Distinct, Encodes, Invert;
      if world.errexit && c.invert {
        Mark(c, ign);
      }
      result, jump := ExecuteBody(c, c.node.ignore, ign, fuel);
      RunParts(c, ign, old(loopLevel), old(Now()), fuel);
      ghost var b := RunBody(world, c, Ignoring(world, c, ign), IgnoringInside(world, c, ign), old(loopLevel),
          old(Now()), fuel);
      EncodesStops(b, old(loopLevel), result, jump);
      if jump == Returned {
        NodesExist(c);
        result := Conclude(c.invert, b, old(loopLevel), result);
      }
      EncodesSane(c, ign, old(loopLevel), old(Now()), fuel, result, jump);
    }

    lemma EncodesStops(o: Out, loops: nat, result: nat, jump: Jump)
      requires Encodes(o, loops, result, jump)
      ensures Stops(o.flow) <==> jump != Returned
    {
    }

    /** Behind the switch: "!" and $?. */
    method Conclude(invert: bool, ghost b: Out, ghost loops: nat, status: nat) returns (result: nat)
      requires Encodes(b, loops, status, Returned)
      modifies this`last
      ensures var s := if invert then Invert(b.status) else b.status;
              !Stops(b.flow) && Encodes(Out(b.flow, s, b.st.(last := s)), loops, result, Returned)
    {
      result := if !invert then status else if status == 0 then 1 else 0;
      last := result;
    }

    lemma NullRun(c: Command, ign: bool, fuel: nat)
      requires Sane() && !Leaving() && c.Null?
      ensures Fits(world, c, ign) && Encodes(Run(world, c, ign, loopLevel, Now(), fuel), loopLevel, 0, Returned)
    {
    }

    lemma RunParts(c: Command, ign: bool, loops: nat, st: State, fuel: nat)
      requires !c.Null?
      ensures var r := RunBody(world, c, Ignoring(world, c, ign), IgnoringInside(world, c, ign), loops, st, fuel);
              var s := if c.invert then Invert(r.status) else r.status;
              Run(world, c, ign, loops, st, fuel) == if Stops(r.flow) then r else Out(r.flow, s, r.st.(last := s))
    {
    }

    /** CMD_IGNORE_RETURN is set for a command. */
    method Mark(c: Command, ghost ign: bool)
      requires Distinct(c) && Fits(world, c, ign) && (!c.Null? ==> Ignoring(world, c, ign))
      modifies Nodes(c)
      ensures Fits(world, c, ign) && (!c.Null? ==> c.node.ignore)
    {
      if !c.Null? {
        c.node.ignore := true;
      }
    }

    /** CMD_IGNORE_RETURN is set for the structure inside a command. */
    method MarkInner(c: Command, ghost ign: bool)
      requires !c.Null? && Distinct(c) && Fits(world, c, ign) && IgnoringInside(world, c, ign)
      modifies Nodes(c)
      ensures Fits(world, c, ign) && c.node.inner && c.node.ignore == old(c.node.ignore)
    {
      c.node.inner := true;
    }

    /** Mark a part of a command if mark is set, and run it. */
    method ExecutePart(c: Command, mark: bool, ghost ign: bool, fuel: nat) returns (result: nat, jump: Jump)
      requires Sane() && Distinct(c) && Fits(world, c, ign) && mark == ign
      modifies this`trace, this`last, this`breaking, this`continuing, this`loopLevel, Nodes(c)
      decreases c, 3, 0
      ensures Kept(c, ign) && (jump == Returned ==> Sane() && (Leaving() ==> result == last))
      ensures old(Leaving()) ==> Skipped(result, jump)
      ensures !old(Leaving()) ==> Encodes(Run(world, c, ign, old(loopLevel), old(Now()), fuel), old(loopLevel),
              result, jump)
    {
      hide Run, Fits, Distinct, Nodes;
      if mark {
        Mark(c, ign);
      }
      result, jump := ExecuteCommand(c, ign, fuel);
    }

    /** The situation in the switch of execute_command_internal. */
    ghost predicate InSwitch(c: Command, ignoreReturn: bool, ign: bool)
      reads this, Nodes(c)
    {
      Sane() && !Leaving() && !c.Null? && Ready(c, ign) && ignoreReturn == c.node.ignore == Ignoring(world, c, ign)
    }

    /** One case of the switch has done its work. */
    twostate predicate Completed(c: Command, ignoreReturn: bool, fuel: nat, result: nat, jump: Jump)
      requires !c.Null?
      reads this
    {
      Encodes(RunBody(world, c, ignoreReturn, ignoreReturn || c.invert, old(loopLevel), old(Now()), fuel),
              old(loopLevel), result, jump)
    }

    /** The switch over the type of the command. */
    method ExecuteBody(c: Command, ignoreReturn: bool, ghost ign: bool, fuel: nat) returns (result: nat, jump: Jump)
      requires InSwitch(c, ignoreReturn, ign)
      modifies this`trace, this`last, this`breaking, this`continuing, this`loopLevel, Nodes(c)
      decreases c, 1, 9
      ensures Fits(world, c, ign) && c.node.ignore == ignoreReturn && Completed(c, ignoreReturn, fuel, result, jump)
    {
      hide RunBody, Fits, Distinct, Nodes, PartNodes;
      match c
      case Simple(_, _, _) => result, jump := ExecuteSimple(c, ignoreReturn, ign, fuel);
      case Break(_, _, n) => result, jump := ExecuteBuiltin(c, n, true, ignoreReturn, ign, fuel);
      case Continue(_, _, n) => result, jump := ExecuteBuiltin(c, n, false, ignoreReturn, ign, fuel);
      case Pipeline(_, _, _, _) => result, jump := ExecutePipeline(c, ignoreReturn, ign, fuel);
      case Group(_, _, _) => result, jump := ExecuteGroup(c, ignoreReturn, ign, fuel);
      case Seq(_, _, _, _) => result, jump := ExecuteSeq(c, ignoreReturn, ign, fuel);
      case And(_, _, a, b) => result, jump := ExecuteAndOr(c, a, b, ignoreReturn, ign, fuel);
      case Or(_, _, a, b) => result, jump := ExecuteAndOr(c, a, b, ignoreReturn, ign, fuel);
      case If(_, _, _, _, _) => result, jump := ExecuteIf(c, ignoreReturn, ign, fuel);
      case While(_, _, _, _, _) => result, jump := ExecuteWhile(c, ignoreReturn, ign, fuel);
      case For(_, _, _, _, _) => result, jump := ExecuteFor(c, ignoreReturn, ign, fuel);
      case ArithFor(_, _, _, _) => result, jump := ExecuteArithFor(c, ignoreReturn, ign, fuel);
      case Case(_, _, _, _) => result, jump := ExecuteCase(c, ignoreReturn, ign, fuel);
    }

    /** The flag is handed down to the structure inside the command. */
    method PassDown(c: Command, ignoreReturn: bool, ghost ign: bool)
      requires InSwitch(c, ignoreReturn, ign)
      modifies Nodes(c)
      ensures InSwitch(c, ignoreReturn, ign) && c.node.inner == (ignoreReturn || c.invert)
    {
      if ignoreReturn || c.invert {
        MarkInner(c, ign);
      }
    }

    /** cm_simple. */
    method ExecuteSimple(c: Command, ignoreReturn: bool, ghost ign: bool, fuel: nat) returns (result: nat, jump: Jump)
      requires InSwitch(c, ignoreReturn, ign) && c.Simple?
      modifies this`trace, this`last, this`breaking, this`continuing, this`loopLevel, Nodes(c)
      decreases c, 1, 0
      ensures Fits(world, c, ign) && c.node.ignore == ignoreReturn && Completed(c, ignoreReturn, fuel, result, jump)
    {
      PassDown(c, ignoreReturn, ign);
      var e := Ran(c.id, c.node.inner);
      result, jump := world.status(trace, e), Returned;
      trace := trace + [e];
      if !ignoreReturn && !c.invert && world.errexit && result != 0 {
        last := result;
        jump := ErrExit;
      }
    }

    /** break_builtin and continue_builtin, run as simple commands. */
    method ExecuteBuiltin(c: Command, count: int, isBreak: bool, ignoreReturn: bool, ghost ign: bool, fuel: nat)
      returns (result: nat, jump: Jump)
      requires InSwitch(c, ignoreReturn, ign) && if isBreak then c.Break? && c.count == count
              else c.Continue? && c.count == count
      modifies this`trace, this`last, this`breaking, this`continuing, this`loopLevel, Nodes(c)
      decreases c, 1, 0
      ensures Fits(world, c, ign) && c.node.ignore == ignoreReturn && Completed(c, ignoreReturn, fuel, result, jump)
    {
      PassDown(c, ignoreReturn, ign);
      result, jump := 0, Returned;
      if loopLevel != 0 {
        if count <= 0 {
          breaking := loopLevel;
          result := 1;
        } else {
          var n := if count > loopLevel then loopLevel else count;
          if isBreak {
            breaking := n;
          } else {
            continuing := n;
          }
        }
      }
      if !ignoreReturn && !c.invert && world.errexit && result != 0 {
        last := result;
        jump := ErrExit;
      }
    }

    /** execute_pipeline: its elements run in processes of their own; here only their flags count. */
    method ExecutePipeline(c: Command, ignoreReturn: bool, ghost ign: bool, fuel: nat) returns (result: nat, jump: Jump)
      requires InSwitch(c, ignoreReturn, ign) && c.Pipeline?
      modifies this`trace, this`last, this`breaking, this`continuing, this`loopLevel, Nodes(c)
      decreases c, 1, 0
      ensures Fits(world, c, ign) && c.node.ignore == ignoreReturn && Completed(c, ignoreReturn, fuel, result, jump)
      ensures ignoreReturn || c.invert ==> forall e <- c.elements :: e.ignore
    {
      var inside := ignoreReturn || c.invert;
      if inside {
        for k := 0 to |c.elements|
          invariant unchanged(this) && unchanged(c.node)
          invariant forall j :: 0 <= j < k ==> c.elements[j].ignore
        {
          c.elements[k].ignore := true;
        }
      }
      var e := Ran(c.id, inside);
      result, jump := world.status(trace, e), Returned;
      trace := trace + [e];
      if !ignoreReturn && !c.invert && world.errexit && result != 0 {
        last := result;
        jump := ErrExit;
      }
    }

    /** cm_group. */
    method ExecuteGroup(c: Command, ignoreReturn: bool, ghost ign: bool, fuel: nat) returns (result: nat, jump: Jump)
      requires InSwitch(c, ignoreReturn, ign) && c.Group?
      modifies this`trace, this`last, this`breaking, this`continuing, this`loopLevel, Nodes(c)
      decreases c, 1, 0
      ensures Fits(world, c, ign) && c.node.ignore == ignoreReturn && Completed(c, ignoreReturn, fuel, result, jump)
    {
      hide Run, RunBody;
      var inside := ignoreReturn || c.invert;
      GroupBody(world, c, ignoreReturn, inside, loopLevel, Now(), fuel);
      assert DistinctParts(c) && FitsParts(world, c, ignoreReturn, inside);
      result, jump := ExecutePart(c.body, inside, inside, fuel);
    }

    /** execute_connection for ";" and newline. */
    method ExecuteSeq(c: Command, ignoreReturn: bool, ghost ign: bool, fuel: nat) returns (result: nat, jump: Jump)
      requires InSwitch(c, ignoreReturn, ign) && c.Seq?
      modifies this`trace, this`last, this`breaking, this`continuing, this`loopLevel, Nodes(c)
      decreases c, 1, 0
      ensures Fits(world, c, ign) && c.node.ignore == ignoreReturn && Completed(c, ignoreReturn, fuel, result, jump)
    {
      hide Run, RunBody;
      var inside := ignoreReturn || c.invert;
      SeqBody(world, c, ignoreReturn, inside, loopLevel, Now(), fuel);
      assert DistinctParts(c) && FitsParts(world, c, ignoreReturn, inside);
      NodesExist(c);
      result, jump := ExecutePart(c.first, inside, inside, fuel);
      if jump != Returned {
        return;
      }
      result, jump := ExecutePart(c.second, inside, inside, fuel);
    }

    /** execute_connection for "&&" and "||". */
    method ExecuteAndOr(c: Command, first: Command, second: Command, ignoreReturn: bool, ghost ign: bool, fuel: nat)
      returns (result: nat, jump: Jump)
      requires InSwitch(c, ignoreReturn, ign) && (c.And? || c.Or?) && first == c.first && second == c.second
      modifies this`trace, this`last, this`breaking, this`continuing, this`loopLevel, Nodes(c)
      decreases c, 1, 0
      ensures Fits(world, c, ign) && c.node.ignore == ignoreReturn && Completed(c, ignoreReturn, fuel, result, jump)
    {
      hide Run, RunBody;
      var inside := ignoreReturn || c.invert;
      AndOrBody(world, c, ignoreReturn, inside, loopLevel, Now(), fuel);
      assert DistinctParts(c) && FitsParts(world, c, ignoreReturn, inside);
      NodesExist(c);
      result, jump := ExecutePart(first, true, true, fuel);
      if jump != Returned {
        return;
      }
      if (c.And? && result == 0) || (c.Or? && result != 0) {
        result, jump := ExecutePart(second, ignoreReturn, ignoreReturn, fuel);
      }
    }

    /** execute_if_command. */
    method ExecuteIf(c: Command, ignoreReturn: bool, ghost ign: bool, fuel: nat) returns (result: nat, jump: Jump)
      requires InSwitch(c, ignoreReturn, ign) && c.If?
      modifies this`trace, this`last, this`breaking, this`continuing, this`loopLevel, Nodes(c)
      decreases c, 1, 0
      ensures Fits(world, c, ign) && c.node.ignore == ignoreReturn && Completed(c, ignoreReturn, fuel, result, jump)
    {
      hide Run, RunBody, ClauseNodes, Ignoring;
      ghost var inside := ignoreReturn || c.invert;
      PassDown(c, ignoreReturn, ign);
      IfBody(world, c, ignoreReturn, inside, loopLevel, Now(), fuel);
      assert DistinctParts(c) && FitsParts(world, c, ignoreReturn, inside);
      NodesExist(c);
      result, jump := ExecutePart(c.test, true, true, fuel);
      if jump != Returned {
        return;
      }
      if result == 0 {
        result, jump := ExecutePart(c.yes, c.node.inner, inside, fuel);
      } else {
        result, jump := ExecutePart(c.no, c.node.inner, inside, fuel);
      }
    }

    // ---- loops ----

    /** What a turn of a loop has come to. */
    ghost predicate Turned(t: Turn, loops: nat, over: bool, status: nat, jump: Jump)
      reads this
    {
      match t
      case Over(o) => (over || jump != Returned) && Encodes(o, loops, status, jump)
      case Again(s, st) =>
        !over && jump == Returned && status == s && Now() == st && loopLevel == loops && !Leaving()
    }

    /** What every loop does behind its body: is the loop over? */
    method LeaveLoop(ghost b: Out, ghost loops: nat, status: nat) returns (over: bool)
      requires Encodes(b, loops, status, Returned)
      modifies this`breaking, this`continuing
      ensures Turned(AfterBody(b), loops, over, status, Returned)
    {
      if breaking > 0 {
        breaking := breaking - 1;
        return true;
      }
      if continuing > 0 {
        continuing := continuing - 1;
        if continuing > 0 {
          return true;
        }
      }
      over := false;
    }

    /** The flags of the test and the body of a while loop have been set. */
    ghost predicate WhileMarked(c: Command, inside: bool)
      requires c.While?
      reads PartNodes(c)
    {
      && Fits(world, c.test, true) && (!c.test.Null? ==> c.test.node.ignore)
      && Fits(world, c.body, inside) && (inside && !c.body.Null? ==> c.body.node.ignore)
    }

    /** execute_while_or_until. */
    method ExecuteWhile(c: Command, ignoreReturn: bool, ghost ign: bool, fuel: nat) returns (result: nat, jump: Jump)
      requires InSwitch(c, ignoreReturn, ign) && c.While?
      modifies this`trace, this`last, this`breaking, this`continuing, this`loopLevel, Nodes(c)
      decreases c, 1, 0
      ensures Fits(world, c, ign) && c.node.ignore == ignoreReturn && Completed(c, ignoreReturn, fuel, result, jump)
    {
      hide RunBody, RunWhile, ClauseNodes, DistinctClauses, FitsClauses;
      ghost var inside := ignoreReturn || c.invert;
      WhileBody(world, c, ignoreReturn, inside, loopLevel, Now(), fuel);
      PassDown(c, ignoreReturn, ign);
      assert DistinctParts(c) && FitsParts(world, c, ignoreReturn, inside);
      NodesExist(c);
      loopLevel := loopLevel + 1;
      Mark(c.test, true);
      if c.node.inner {
        Mark(c.body, inside);
      }
      result, jump := WhileLoop(c, inside, fuel);
      if jump == Returned {
        loopLevel := loopLevel - 1;
      }
    }

    method WhileLoop(c: Command, ghost inside: bool, fuel: nat) returns (result: nat, jump: Jump)
      requires Sane() && !Leaving() && c.While? && Distinct(c) && WhileMarked(c, inside)
      modifies this`trace, this`last, this`breaking, this`continuing, this`loopLevel, PartNodes(c)
      decreases c, 0, 1
      ensures WhileMarked(c, inside)
      ensures Encodes(RunWhile(world, c, inside, old(loopLevel), 0, old(Now()), fuel, fuel), old(loopLevel), result,
              jump)
    {
      hide WhileTurn, Fits, Distinct;
      result := 0;
      var n := fuel;
      while n > 0
        invariant Sane() && !Leaving() && loopLevel == old(loopLevel) && WhileMarked(c, inside)
        invariant RunWhile(world, c, inside, loopLevel, 0, old(Now()), fuel, fuel) ==
                    RunWhile(world, c, inside, loopLevel, result, Now(), n, fuel)
      {
        var over;
        over, result, jump := WhileRound(c, inside, result, fuel);
        if over || jump != Returned {
          return;
        }
        n := n - 1;
      }
      jump := CutOff;
    }

    /** One turn: the test, which may itself leave the loop, and the body. */
    method WhileRound(c: Command, ghost inside: bool, bodyStatus: nat, fuel: nat)
        returns (over: bool, status: nat, jump: Jump)
      requires Sane() && !Leaving() && c.While? && Distinct(c) && WhileMarked(c, inside)
      modifies this`trace, this`last, this`breaking, this`continuing, this`loopLevel, PartNodes(c)
      decreases c, 0, 0
      ensures WhileMarked(c, inside) && (jump == Returned && !over ==> Sane())
      ensures Turned(WhileTurn(world, c, inside, old(loopLevel), bodyStatus, old(Now()), fuel), old(loopLevel), over,
              status, jump)
    {
      hide Run;
      assert DistinctParts(c);
      NodesExist(c.test);
      NodesExist(c.body);
      ghost var t := Run(world, c.test, true, loopLevel, Now(), fuel);
      over := true;
      status, jump := ExecuteCommand(c.test, true, fuel);
      if jump != Returned {
        return;
      }
      if (status == 0) == c.until {
        if breaking > 0 {
          breaking := breaking - 1;
        }
        if continuing > 0 {
          continuing := continuing - 1;
        }
        status := bodyStatus;
        return;
      }
      ghost var b := if t.flow != Normal then Out(t.flow, t.st.last, t.st)
          else Run(world, c.body, inside, loopLevel, t.st, fuel);
      status, jump := ExecuteCommand(c.body, inside, fuel);
      if jump == Returned {
        over := LeaveLoop(b, old(loopLevel), status);
      }
    }

    /** execute_for_command. */
    method ExecuteFor(c: Command, ignoreReturn: bool, ghost ign: bool, fuel: nat) returns (result: nat, jump: Jump)
      requires InSwitch(c, ignoreReturn, ign) && c.For?
      modifies this`trace, this`last, this`breaking, this`continuing, this`loopLevel, Nodes(c)
      decreases c, 1, 0
      ensures Fits(world, c, ign) && c.node.ignore == ignoreReturn && Completed(c, ignoreReturn, fuel, result, jump)
    {
      hide Run, RunBody, RunFor;
      ghost var inside := ignoreReturn || c.invert;
      ForBody(world, c, ignoreReturn, inside, loopLevel, Now(), fuel);
      PassDown(c, ignoreReturn, ign);
      if !c.valid {
        return 1, Returned;
      }
      assert DistinctParts(c) && FitsParts(world, c, ignoreReturn, inside);
      NodesExist(c);
      loopLevel := loopLevel + 1;
      if c.node.inner {
        Mark(c.body, inside);
      }
      result, jump := ForLoop(c, inside, world.words(trace, c.id), fuel);
      if jump == Returned {
        loopLevel := loopLevel - 1;
      }
    }

    /** The flags of the body of a for loop have been set. */
    ghost predicate BodyMarked(c: Command, inside: bool)
      requires c.For? || c.ArithFor?
      reads PartNodes(c)
    {
      Fits(world, c.body, inside) && (inside && !c.body.Null? ==> c.body.node.ignore)
    }

    method ForLoop(c: Command, ghost inside: bool, words: nat, fuel: nat) returns (result: nat, jump: Jump)
      requires Sane() && !Leaving() && c.For? && Distinct(c) && BodyMarked(c, inside)
      modifies this`trace, this`last, this`breaking, this`continuing, this`loopLevel, PartNodes(c)
      decreases c, 0, 1
      ensures BodyMarked(c, inside)
      ensures Encodes(RunFor(world, c, inside, old(loopLevel), 0, words, 0, old(Now()), fuel), old(loopLevel), result,
              jump)
    {
      hide ForTurn, Fits, Distinct;
      result, jump := 0, Returned;
      var k := 0;
      while k < words
        invariant k <= words && jump == Returned
        invariant Sane() && !Leaving() && loopLevel == old(loopLevel) && BodyMarked(c, inside)
        invariant RunFor(world, c, inside, loopLevel, 0, words, 0, old(Now()), fuel) ==
                    RunFor(world, c, inside, loopLevel, k, words, result, Now(), fuel)
      {
        var over;
        over, result, jump := ForRound(c, inside, k, fuel);
        if over || jump != Returned {
          return;
        }
        k := k + 1;
      }
    }

    /** One turn: bind the variable and run the body. */
    method ForRound(c: Command, ghost inside: bool, k: nat, fuel: nat) returns (over: bool, status: nat, jump: Jump)
      requires Sane() && !Leaving() && c.For? && Distinct(c) && BodyMarked(c, inside)
      modifies this`trace, this`last, this`breaking, this`continuing, this`loopLevel, PartNodes(c)
      decreases c, 0, 0
      ensures BodyMarked(c, inside) && (jump == Returned && !over ==> Sane())
      ensures Turned(ForTurn(world, c, inside, old(loopLevel), k, old(Now()), fuel), old(loopLevel), over, status, jump)
    {
      hide Run;
      assert DistinctParts(c);
      NodesExist(c.body);
      var e := Bound(c.id, k);
      var ok := world.binds(trace, e);
      trace := trace + [e];
      if !ok {
        return true, 1, Returned;
      }
      ghost var b := Run(world, c.body, inside, loopLevel, Now(), fuel);
      over := true;
      status, jump := ExecuteCommand(c.body, inside, fuel);
      if jump == Returned {
        over := LeaveLoop(b, old(loopLevel), status);
      }
    }

    /** execute_arith_for_command. */
    method ExecuteArithFor(c: Command, ignoreReturn: bool, ghost ign: bool, fuel: nat) returns (result: nat, jump: Jump)
      requires InSwitch(c, ignoreReturn, ign) && c.ArithFor?
      modifies this`trace, this`last, this`breaking, this`continuing, this`loopLevel, Nodes(c)
      decreases c, 1, 0
      ensures Fits(world, c, ign) && c.node.ignore == ignoreReturn && Completed(c, ignoreReturn, fuel, result, jump)
    {
      hide RunBody, RunArithFor;
      ghost var inside := ignoreReturn || c.invert;
      ArithForBody(world, c, ignoreReturn, inside, loopLevel, Now(), fuel);
      PassDown(c, ignoreReturn, ign);
      assert DistinctParts(c) && FitsParts(world, c, ignoreReturn, inside);
      NodesExist(c);
      loopLevel := loopLevel + 1;
      if c.node.inner {
        Mark(c.body, inside);
      }
      var init := EvalArith(c.id, Init);
      result, jump := 1, Returned;
      if init != BadExpression {
        result, jump := ArithForLoop(c, inside, fuel);
      }
      if jump == Returned {
        loopLevel := loopLevel - 1;
      }
    }

    /** eval_arith_for_expr. */
    method EvalArith(id: nat, part: Part) returns (r: ArithResult)
      modifies this`trace
      ensures r == world.arith(old(trace), Evaluated(id, part)) && Now() == Did(old(Now()), Evaluated(id, part))
    {
      var e := Evaluated(id, part);
      r := world.arith(trace, e);
      trace := trace + [e];
    }

    method ArithForLoop(c: Command, ghost inside: bool, fuel: nat) returns (result: nat, jump: Jump)
      requires Sane() && !Leaving() && c.ArithFor? && Distinct(c) && BodyMarked(c, inside)
      modifies this`trace, this`last, this`breaking, this`continuing, this`loopLevel, PartNodes(c)
      decreases c, 0, 1
      ensures BodyMarked(c, inside)
      ensures Encodes(RunArithFor(world, c, inside, old(loopLevel), 0, old(Now()), fuel, fuel), old(loopLevel),
              result, jump)
    {
      hide ArithForTurn, Fits, Distinct;
      result := 0;
      var n := fuel;
      while n > 0
        invariant Sane() && !Leaving() && loopLevel == old(loopLevel) && BodyMarked(c, inside)
        invariant RunArithFor(world, c, inside, loopLevel, 0, old(Now()), fuel, fuel) ==
                    RunArithFor(world, c, inside, loopLevel, result, Now(), n, fuel)
      {
        var over;
        over, result, jump := ArithForRound(c, inside, result, fuel);
        if over || jump != Returned {
          return;
        }
        n := n - 1;
      }
      jump := CutOff;
    }

    /** One turn: the test expression, the body, and the step expression. */
    method ArithForRound(c: Command, ghost inside: bool, bodyStatus: nat, fuel: nat)
        returns (over: bool, status: nat, jump: Jump)
      requires Sane() && !Leaving() && c.ArithFor? && Distinct(c) && BodyMarked(c, inside)
      modifies this`trace, this`last, this`breaking, this`continuing, this`loopLevel, PartNodes(c)
      decreases c, 0, 0
      ensures BodyMarked(c, inside) && (jump == Returned && !over ==> Sane())
      ensures Turned(ArithForTurn(world, c, inside, old(loopLevel), bodyStatus, old(Now()), fuel), old(loopLevel),
              over, status, jump)
    {
      hide Run;
      assert DistinctParts(c);
      NodesExist(c.body);
      over, status, jump := true, bodyStatus, Returned;
      var test := EvalArith(c.id, Test);
      if test == BadExpression {
        status := 1;
        return;
      }
      if test == Zero {
        return;
      }
      ghost var b := Run(world, c.body, inside, loopLevel, Now(), fuel);
      status, jump := ExecuteCommand(c.body, inside, fuel);
      if jump != Returned {
        return;
      }
      over := LeaveLoop(b, old(loopLevel), status);
      if over {
        return;
      }
      var step := EvalArith(c.id, Step);
      if step == BadExpression {
        over, status := true, 1;
      }
    }

    // ---- case ----

    /** execute_case_command. */
    method ExecuteCase(c: Command, ignoreReturn: bool, ghost ign: bool, fuel: nat) returns (result: nat, jump: Jump)
      requires InSwitch(c, ignoreReturn, ign) && c.Case?
      modifies this`trace, this`last, this`breaking, this`continuing, this`loopLevel, Nodes(c)
      decreases c, 1, 0
      ensures Fits(world, c, ign) && c.node.ignore == ignoreReturn && Completed(c, ignoreReturn, fuel, result, jump)
    {
      hide Run, RunBody, RunCase;
      ghost var inside := ignoreReturn || c.invert;
      CaseBody(world, c, ignoreReturn, inside, loopLevel, Now(), fuel);
      PassDown(c, ignoreReturn, ign);
      assert DistinctParts(c) && FitsParts(world, c, ignoreReturn, inside);
      result, jump := ExecuteClauses(c.id, c.clauses, c.node.inner, 0, 0, fuel);
    }

    /** The loop over the clauses: the first one that matches. While a loop is being left, clauses
        are still tried, but their actions do nothing. */
    method ExecuteClauses(id: nat, cl: Clauses, inside: bool, k: nat, status: nat, fuel: nat)
        returns (result: nat, jump: Jump)
      requires Sane() && DistinctClauses(cl) && FitsClauses(world, cl, inside) && (Leaving() ==> status == last)
      modifies this`trace, this`last, this`breaking, this`continuing, this`loopLevel, ClauseNodes(cl)
      decreases cl, 1, 0
      ensures FitsClauses(world, cl, inside)
      ensures old(Leaving()) ==> Skipped(result, jump)
      ensures !old(Leaving()) ==>
                Encodes(RunCase(world, id, cl, inside, old(loopLevel), k, status, old(Now()), fuel), old(loopLevel),
                    result, jump)
    {
      hide RunClause, Fits;
      ClauseNodesExist(cl);
      if cl.NoClause? {
        return status, Returned;
      }
      if world.matches(trace, id, k) {
        result, jump := ExecuteClause(id, cl, inside, k, fuel);
      } else {
        result, jump := ExecuteClauses(id, cl.rest, inside, k + 1, status, fuel);
      }
    }

    /** A clause that matches, and those it falls through to. */
    method ExecuteClause(id: nat, cl: Clauses, inside: bool, k: nat, fuel: nat) returns (result: nat, jump: Jump)
      requires Sane() && cl.Clause? && DistinctClauses(cl) && FitsClauses(world, cl, inside)
      modifies this`trace, this`last, this`breaking, this`continuing, this`loopLevel, ClauseNodes(cl)
      decreases cl, 0, 0
      ensures FitsClauses(world, cl, inside)
      ensures old(Leaving()) ==> Skipped(result, jump)
      ensures !old(Leaving()) ==>
                Encodes(RunClause(world, id, cl, inside, old(loopLevel), k, old(Now()), fuel), old(loopLevel), result,
                    jump)
    {
      hide Run, RunCase, Fits;
      ClauseNodesExist(cl);
      result, jump := ExecutePart(cl.action, inside, inside, fuel);
      if jump != Returned || cl.ending == Done || cl.rest.NoClause? {
        return;
      }
      if cl.ending == FallThrough {
        result, jump := ExecuteClause(id, cl.rest, inside, k + 1, fuel);
      } else {
        result, jump := ExecuteClauses(id, cl.rest, inside, k + 1, result, fuel);
      }
    }

    /** A command that has just been read is run at the top level, perhaps with CMD_IGNORE_RETURN on
        it: its trace and status are those of the structured semantics, no counter is left over, and
        a command that carries the flag never exits because of set -e. It may be run again. */
    method ExecuteTopLevel(c: Command, ignored: bool, fuel: nat) returns (result: nat, jump: Jump)
      requires loopLevel == 0 && breaking == 0 && continuing == 0 && Distinct(c)
      requires Clear(Nodes(c)) || Fits(world, c, ignored)
      modifies this`trace, this`last, this`breaking, this`continuing, this`loopLevel, Nodes(c)
      ensures Fits(world, c, ignored)
      ensures var o := Run(world, c, ignored, 0, old(Now()), fuel);
              match jump
              case Returned => o.flow == Normal && result == o.status && Now() == o.st
              case ErrExit => o.flow == Exit && Now() == o.st && last == o.status != 0
              case CutOff => o.flow == OutOfFuel && Now() == o.st
      ensures jump == Returned ==> loopLevel == 0 && breaking == 0 && continuing == 0
      ensures jump == ErrExit ==> world.errexit && !ignored && (!c.Null? ==> !c.invert)
    {
      hide Run;
      if Clear(Nodes(c)) { ClearFits(world, c, ignored); }
      RunSound(world, c, ignored, 0, Now(), fuel);
      result, jump := ExecutePart(c, ignored, ignored, fuel);
    }
  }
}
