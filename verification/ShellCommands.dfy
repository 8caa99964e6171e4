/** Shell commands and what they mean: a structured semantics in which loops are left by outcomes
    (normal, break k, continue k) and errexit by an outcome of its own, with the mode in which
    failures are ignored passed down as a parameter. */
module ShellCommands {
  /** The flag words of a COMMAND and of the structure inside it, as far as CMD_IGNORE_RETURN. */
  class Node {
    var ignore: bool
    var inner: bool

    constructor ()
      ensures !ignore && !inner
    {
      ignore, inner := false, false;
    }
  }

  /** Commands; invert is the flag CMD_INVERT_RETURN, set by "!". */
  datatype Command =
    | Null
    | Simple(node: Node, invert: bool, id: nat)
    | Break(node: Node, invert: bool, count: int)
    | Continue(node: Node, invert: bool, count: int)
    | Pipeline(node: Node, invert: bool, id: nat, elements: seq<Node>)
    | Group(node: Node, invert: bool, body: Command)
    | Seq(node: Node, invert: bool, first: Command, second: Command)
    | And(node: Node, invert: bool, first: Command, second: Command)
    | Or(node: Node, invert: bool, first: Command, second: Command)
    | If(node: Node, invert: bool, test: Command, yes: Command, no: Command)
    | While(node: Node, invert: bool, until: bool, test: Command, body: Command)
    | For(node: Node, invert: bool, id: nat, valid: bool, body: Command)
    | ArithFor(node: Node, invert: bool, id: nat, body: Command)
    | Case(node: Node, invert: bool, id: nat, clauses: Clauses)

  /** ";;", ";&" and ";;&". */
  datatype Ending = Done | FallThrough | TestNext

  datatype Clauses = NoClause | Clause(action: Command, ending: Ending, rest: Clauses)

  /** What has happened so far: every command run, with the flags passed to it, every variable
      bound by a for loop, and every arithmetic expression evaluated. */
  datatype Event =
    | Ran(id: nat, ignored: bool)
    | Bound(id: nat, word: nat)
    | Evaluated(id: nat, part: Part)

  datatype Part = Init | Test | Step

  datatype ArithResult = BadExpression | Zero | NonZero

  /** The world outside the executor, which may depend on everything that has happened: exit
      statuses, the length of the word list of a for loop, whether its variable can be set,
      arithmetic results, and whether the word of a case command matches a clause. */
  datatype World = World(
    status: (seq<Event>, Event) -> nat,
    words: (seq<Event>, nat) -> nat,
    binds: (seq<Event>, Event) -> bool,
    arith: (seq<Event>, Event) -> ArithResult,
    matches: (seq<Event>, nat, nat) -> bool,
    errexit: bool)

  /** How a command ends: BreakOut(k) leaves k enclosing loops, ContinueOut(k) resumes the k-th. */
  datatype Flow = Normal | BreakOut(levels: nat) | ContinueOut(levels: nat) | Exit | OutOfFuel

  /** The trace, and last_command_exit_value. */
  datatype State = State(trace: seq<Event>, last: nat)

  datatype Out = Out(flow: Flow, status: nat, st: State)

  predicate Stops(f: Flow) { f == Exit || f == OutOfFuel }

  function Did(st: State, e: Event): State { st.(trace := st.trace + [e]) }

  /** A command with "!" in front is run with failures ignored if set -e is in force. */
  function Ignoring(w: World, c: Command, ign: bool): bool
    requires !c.Null?
  {
    ign || (w.errexit && c.invert)
  }

  /** The same for what is inside: also behind "!" when set -e is not in force. */
  function IgnoringInside(w: World, c: Command, ign: bool): bool
    requires !c.Null?
  {
    Ignoring(w, c, ign) || c.invert
  }

  function Invert(status: nat): nat { if status == 0 then 1 else 0 }

  /** A step with the given status, which may end the shell. */
  function Checked(w: World, ignored: bool, status: nat, st: State): Out {
    if w.errexit && !ignored && status != 0 then Out(Exit, status, st.(last := status)) else Out(Normal, status, st)
  }

  /** Run c with ign telling whether failures are ignored, inside `loops` loops. */
  function Run(w: World, c: Command, ign: bool, loops: nat, st: State, fuel: nat): (o: Out)
    decreases c, 2, 0
  {
    if c.Null? then Out(Normal, 0, st)
    else
      var r := RunBody(w, c, Ignoring(w, c, ign), IgnoringInside(w, c, ign), loops, st, fuel);
      if Stops(r.flow) then r
      else
        var s := if c.invert then Invert(r.status) else r.status;
        Out(r.flow, s, r.st.(last := s))
  }

  function RunBody(w: World, c: Command, ign: bool, inside: bool, loops: nat, st: State, fuel: nat): (o: Out)
    requires !c.Null?
    decreases c, 1, 0
  {
    match c
    case Simple(_, _, id) =>
      var e := Ran(id, inside);
      Checked(w, inside, w.status(st.trace, e), Did(st, e))
    case Break(_, _, n) => RunExit(w, n, true, inside, loops, st)
    case Continue(_, _, n) => RunExit(w, n, false, inside, loops, st)
    case Pipeline(_, _, id, _) =>
      var e := Ran(id, inside);
      Checked(w, inside, w.status(st.trace, e), Did(st, e))
    case Group(_, _, body) => Run(w, body, inside, loops, st, fuel)
    case Seq(_, _, first, second) =>
      var r := Run(w, first, inside, loops, st, fuel);
      if Stops(r.flow) then r
      else if r.flow != Normal then Out(r.flow, r.st.last, r.st)
      else Run(w, second, inside, loops, r.st, fuel)
    case And(_, _, first, second) =>
      var r := Run(w, first, true, loops, st, fuel);
      if r.flow != Normal || r.status != 0 then r else Run(w, second, ign, loops, r.st, fuel)
    case Or(_, _, first, second) =>
      var r := Run(w, first, true, loops, st, fuel);
      if r.flow != Normal || r.status == 0 then r else Run(w, second, ign, loops, r.st, fuel)
    case If(_, _, test, yes, no) =>
      var r := Run(w, test, true, loops, st, fuel);
      if Stops(r.flow) then r
      else if r.flow != Normal then Out(r.flow, r.st.last, r.st)
      else Run(w, if r.status == 0 then yes else no, inside, loops, r.st, fuel)
    case While(_, _, until, test, body) => RunWhile(w, c, inside, loops + 1, 0, st, fuel, fuel)
    case For(_, _, id, valid, body) =>
      if !valid then Out(Normal, 1, st) else RunFor(w, c, inside, loops + 1, 0, w.words(st.trace, id), 0, st, fuel)
    case ArithFor(_, _, id, body) =>
      var e := Evaluated(id, Init);
      if w.arith(st.trace, e) == BadExpression then Out(Normal, 1, Did(st, e))
      else RunArithFor(w, c, inside, loops + 1, 0, Did(st, e), fuel, fuel)
    case Case(_, _, id, clauses) => RunCase(w, id, clauses, inside, loops, 0, 0, st, fuel)
  }

  /** break n and continue n. Outside loops they do nothing; an n that is not positive is an error
      that leaves all loops. */
  function RunExit(w: World, n: int, isBreak: bool, ignored: bool, loops: nat, st: State): Out {
    if loops == 0 then Out(Normal, 0, st)
    else if n <= 0 then
      var o := Checked(w, ignored, 1, st);
      if o.flow == Exit then o else Out(BreakOut(loops), 1, st)
    else
      var levels := if n > loops then loops else n;
      Out(if isBreak then BreakOut(levels) else ContinueOut(levels), 0, st)
  }

  /** The outcome of a loop whose body or test ended with f and that is not resumed. */
  function Leave(f: Flow): Flow {
    match f
    case BreakOut(k) => if k <= 1 then Normal else BreakOut(k - 1)
    case ContinueOut(k) => if k <= 1 then Normal else ContinueOut(k - 1)
    case _ => f
  }

  /** Whether the loop goes on after f. */
  predicate Resumes(f: Flow) { f == Normal || (f.ContinueOut? && f.levels <= 1) }

  /** One turn of a loop: the loop is over, or goes on with a status and a state. */
  datatype Turn = Over(out: Out) | Again(status: nat, st: State)

  function AfterBody(b: Out): Turn {
    if Stops(b.flow) then Over(b)
    else if Resumes(b.flow) then Again(b.status, b.st)
    else Over(Out(Leave(b.flow), b.status, b.st))
  }

  /** Test and body. Where the test leaves a loop, its status still decides whether the loop ends. */
  function WhileTurn(w: World, c: Command, inside: bool, loops: nat, bodyStatus: nat, st: State, fuel: nat): Turn
    requires c.While?
    decreases c, 0, 0, 0
  {
    var t := Run(w, c.test, true, loops, st, fuel);
    if Stops(t.flow) then Over(t)
    else if (t.status == 0) == c.until then Over(Out(Leave(t.flow), bodyStatus, t.st))
    else AfterBody(if t.flow != Normal then Out(t.flow, t.st.last, t.st) else Run(w, c.body, inside, loops, t.st, fuel))
  }

  function RunWhile(w: World, c: Command, inside: bool, loops: nat, bodyStatus: nat, st: State, n: nat,
      fuel: nat): (o: Out)
    requires c.While?
    decreases c, 0, 1, n
  {
    if n == 0 then Out(OutOfFuel, 0, st)
    else
      match WhileTurn(w, c, inside, loops, bodyStatus, st, fuel)
      case Over(o) => o
      case Again(status, st') => RunWhile(w, c, inside, loops, status, st', n - 1, fuel)
  }

  function ForTurn(w: World, c: Command, inside: bool, loops: nat, k: nat, st: State, fuel: nat): Turn
    requires c.For?
    decreases c, 0, 0, 0
  {
    var e := Bound(c.id, k);
    if !w.binds(st.trace, e) then Over(Out(Normal, 1, Did(st, e)))
    else AfterBody(Run(w, c.body, inside, loops, Did(st, e), fuel))
  }

  function RunFor(w: World, c: Command, inside: bool, loops: nat, k: nat, words: nat, status: nat, st: State,
      fuel: nat): (o: Out)
    requires c.For?
    decreases c, 0, 1, words - k
  {
    if k >= words then Out(Normal, status, st)
    else
      match ForTurn(w, c, inside, loops, k, st, fuel)
      case Over(o) => o
      case Again(status', st') => RunFor(w, c, inside, loops, k + 1, words, status', st', fuel)
  }

  /** Test, body and step. The loop goes on only if the step is a valid expression. */
  function ArithForTurn(w: World, c: Command, inside: bool, loops: nat, status: nat, st: State, fuel: nat): Turn
    requires c.ArithFor?
    decreases c, 0, 0, 0
  {
    var e := Evaluated(c.id, Test);
    var st1 := Did(st, e);
    match w.arith(st.trace, e)
    case BadExpression => Over(Out(Normal, 1, st1))
    case Zero => Over(Out(Normal, status, st1))
    case NonZero =>
      match AfterBody(Run(w, c.body, inside, loops, st1, fuel))
      case Over(o) => Over(o)
      case Again(status', st2) =>
        var e2 := Evaluated(c.id, Step);
        if w.arith(st2.trace, e2) == BadExpression then Over(Out(Normal, 1, Did(st2, e2)))
        else Again(status', Did(st2, e2))
  }

  function RunArithFor(w: World, c: Command, inside: bool, loops: nat, status: nat, st: State, n: nat,
      fuel: nat): (o: Out)
    requires c.ArithFor?
    decreases c, 0, 1, n
  {
    if n == 0 then Out(OutOfFuel, 0, st)
    else
      match ArithForTurn(w, c, inside, loops, status, st, fuel)
      case Over(o) => o
      case Again(status', st') => RunArithFor(w, c, inside, loops, status', st', n - 1, fuel)
  }

  /** The clauses from number k on; status is the status so far. */
  function RunCase(w: World, id: nat, clauses: Clauses, inside: bool, loops: nat, k: nat, status: nat, st: State,
      fuel: nat): (o: Out)
    decreases clauses, 1, 0
  {
    match clauses
    case NoClause => Out(Normal, status, st)
    case Clause(_, _, rest) =>
      if w.matches(st.trace, id, k) then RunClause(w, id, clauses, inside, loops, k, st, fuel)
      else RunCase(w, id, rest, inside, loops, k + 1, status, st, fuel)
  }

  /** A clause that matches, or that the one before it falls through to. */
  function RunClause(w: World, id: nat, clauses: Clauses, inside: bool, loops: nat, k: nat, st: State,
      fuel: nat): (o: Out)
    requires clauses.Clause?
    decreases clauses, 0, 0
  {
    var r := Run(w, clauses.action, inside, loops, st, fuel);
    if Stops(r.flow) then r
    else if clauses.ending == Done || clauses.rest.NoClause? then r
    else if r.flow != Normal then Out(r.flow, r.st.last, r.st)
    else if clauses.ending == FallThrough then RunClause(w, id, clauses.rest, inside, loops, k + 1, r.st, fuel)
    else RunCase(w, id, clauses.rest, inside, loops, k + 1, r.status, r.st, fuel)
  }

  // ---- what every run obeys ----

  /** No command leaves more loops than there are; a command that leaves a loop has set the last
      status; where failures are ignored nothing exits; an exit is due to a failure. */
  predicate Sound(w: World, ign: bool, loops: nat, st: State, o: Out) {
    && (o.flow.BreakOut? || o.flow.ContinueOut? ==> 1 <= o.flow.levels <= loops && o.status == o.st.last)
    && (o.flow == Exit ==> !ign && w.errexit && o.status != 0 && o.st.last == o.status)
    && st.trace <= o.st.trace
  }

  /** The same for a loop, seen from outside it. */
  predicate LoopSound(w: World, ign: bool, loops: nat, st: State, o: Out) {
    && (o.flow.BreakOut? || o.flow.ContinueOut? ==> 1 <= o.flow.levels <= loops)
    && (o.flow == Exit ==> !ign && w.errexit && o.status != 0 && o.st.last == o.status)
    && st.trace <= o.st.trace
  }

  lemma {:induction false} RunSound(w: World, c: Command, ign: bool, loops: nat, st: State, fuel: nat)
    ensures Sound(w, ign, loops, st, Run(w, c, ign, loops, st, fuel))
    ensures !c.Null? && c.invert ==> Run(w, c, ign, loops, st, fuel).flow != Exit
    decreases c, 2, 0
  {
    hide RunBody;
    if !c.Null? {
      BodySound(w, c, Ignoring(w, c, ign), IgnoringInside(w, c, ign), loops, st, fuel);
    }
  }

  lemma {:induction false} BodySound(w: World, c: Command, ign: bool, inside: bool, loops: nat, st: State, fuel: nat)
    requires !c.Null? && (ign ==> inside) && (c.invert && w.errexit ==> ign)
    ensures LoopSound(w, ign, loops, st, RunBody(w, c, ign, inside, loops, st, fuel))
    decreases c, 1, 0
  {
    hide Run, RunWhile, RunFor, RunArithFor, RunCase, RunExit, Checked;
    match c
    case Simple(_, _, _) => SimpleSound(w, c, ign, inside, loops, st, fuel);
    case Break(_, _, _) => SimpleSound(w, c, ign, inside, loops, st, fuel);
    case Continue(_, _, _) => SimpleSound(w, c, ign, inside, loops, st, fuel);
    case Pipeline(_, _, _, _) => SimpleSound(w, c, ign, inside, loops, st, fuel);
    case Group(_, _, body) => RunSound(w, body, inside, loops, st, fuel);
    case Seq(_, _, first, second) =>
      RunSound(w, first, inside, loops, st, fuel);
      RunSound(w, second, inside, loops, Run(w, first, inside, loops, st, fuel).st, fuel);
    case And(_, _, first, second) =>
      RunSound(w, first, true, loops, st, fuel);
      RunSound(w, second, ign, loops, Run(w, first, true, loops, st, fuel).st, fuel);
    case Or(_, _, first, second) =>
      RunSound(w, first, true, loops, st, fuel);
      RunSound(w, second, ign, loops, Run(w, first, true, loops, st, fuel).st, fuel);
    case If(_, _, test, yes, no) =>
      RunSound(w, test, true, loops, st, fuel);
      var r := Run(w, test, true, loops, st, fuel);
      RunSound(w, if r.status == 0 then yes else no, inside, loops, r.st, fuel);
    case While(_, _, _, _, _) => WhileSound(w, c, inside, loops + 1, 0, st, fuel, fuel);
    case For(_, _, id, valid, _) =>
      if valid { ForSound(w, c, inside, loops + 1, 0, w.words(st.trace, id), 0, st, fuel); }
    case ArithFor(_, _, id, _) =>
      var e := Evaluated(id, Init);
      ArithForSound(w, c, inside, loops + 1, 0, Did(st, e), fuel, fuel);
    case Case(_, _, id, clauses) => CaseSound(w, id, clauses, inside, loops, 0, 0, st, fuel);
  }

  lemma SimpleSound(w: World, c: Command, ign: bool, inside: bool, loops: nat, st: State, fuel: nat)
    requires c.Simple? || c.Break? || c.Continue? || c.Pipeline?
    requires ign ==> inside
    ensures LoopSound(w, ign, loops, st, RunBody(w, c, ign, inside, loops, st, fuel))
  {
  }

  predicate TurnSound(w: World, inside: bool, loops: nat, st: State, t: Turn) {
    match t
    case Over(o) => LoopSound(w, inside, loops, st, o)
    case Again(_, st') => st.trace <= st'.trace
  }

  lemma AfterBodySound(w: World, inside: bool, loops: nat, st: State, b: Out)
    requires loops > 0 && Sound(w, inside, loops, st, b)
    ensures TurnSound(w, inside, loops - 1, st, AfterBody(b))
  {
  }

  lemma {:induction false} WhileTurnSound(w: World, c: Command, inside: bool, loops: nat, bodyStatus: nat, st: State,
      fuel: nat)
    requires c.While? && loops > 0
    ensures TurnSound(w, inside, loops - 1, st, WhileTurn(w, c, inside, loops, bodyStatus, st, fuel))
    decreases c, 0, 0, 0
  {
    hide Run, AfterBody;
    RunSound(w, c.test, true, loops, st, fuel);
    var t := Run(w, c.test, true, loops, st, fuel);
    if !Stops(t.flow) && (t.status == 0) != c.until {
      RunSound(w, c.body, inside, loops, t.st, fuel);
      AfterBodySound(w, inside, loops, st, if t.flow != Normal then Out(t.flow, t.st.last, t.st)
          else Run(w, c.body, inside, loops, t.st, fuel));
    }
  }

  lemma {:induction false} WhileSound(w: World, c: Command, inside: bool, loops: nat, bodyStatus: nat, st: State,
      n: nat, fuel: nat)
    requires c.While? && loops > 0
    ensures LoopSound(w, inside, loops - 1, st, RunWhile(w, c, inside, loops, bodyStatus, st, n, fuel))
    decreases c, 0, 1, n
  {
    hide WhileTurn;
    if n > 0 {
      WhileTurnSound(w, c, inside, loops, bodyStatus, st, fuel);
      var t := WhileTurn(w, c, inside, loops, bodyStatus, st, fuel);
      if t.Again? { WhileSound(w, c, inside, loops, t.status, t.st, n - 1, fuel); }
    }
  }

  lemma {:induction false} ForSound(w: World, c: Command, inside: bool, loops: nat, k: nat, words: nat, status: nat,
      st: State, fuel: nat)
    requires c.For? && loops > 0
    ensures LoopSound(w, inside, loops - 1, st, RunFor(w, c, inside, loops, k, words, status, st, fuel))
    decreases c, 0, 1, words - k
  {
    hide Run, AfterBody;
    if k < words {
      var e := Bound(c.id, k);
      if w.binds(st.trace, e) {
        RunSound(w, c.body, inside, loops, Did(st, e), fuel);
        AfterBodySound(w, inside, loops, Did(st, e), Run(w, c.body, inside, loops, Did(st, e), fuel));
      }
      var t := ForTurn(w, c, inside, loops, k, st, fuel);
      if t.Again? { ForSound(w, c, inside, loops, k + 1, words, t.status, t.st, fuel); }
    }
  }

  lemma {:induction false} ArithForSound(w: World, c: Command, inside: bool, loops: nat, status: nat, st: State,
      n: nat, fuel: nat)
    requires c.ArithFor? && loops > 0
    ensures LoopSound(w, inside, loops - 1, st, RunArithFor(w, c, inside, loops, status, st, n, fuel))
    decreases c, 0, 1, n
  {
    hide Run, AfterBody;
    if n > 0 {
      var st1 := Did(st, Evaluated(c.id, Test));
      RunSound(w, c.body, inside, loops, st1, fuel);
      AfterBodySound(w, inside, loops, st1, Run(w, c.body, inside, loops, st1, fuel));
      var t := ArithForTurn(w, c, inside, loops, status, st, fuel);
      if t.Again? { ArithForSound(w, c, inside, loops, t.status, t.st, n - 1, fuel); }
    }
  }

  lemma {:induction false} CaseSound(w: World, id: nat, clauses: Clauses, inside: bool, loops: nat, k: nat,
      status: nat, st: State, fuel: nat)
    ensures LoopSound(w, inside, loops, st, RunCase(w, id, clauses, inside, loops, k, status, st, fuel))
    decreases clauses, 1, 0
  {
    hide RunClause;
    if clauses.Clause? {
      ClauseSound(w, id, clauses, inside, loops, k, st, fuel);
      CaseSound(w, id, clauses.rest, inside, loops, k + 1, status, st, fuel);
    }
  }

  lemma {:induction false} ClauseSound(w: World, id: nat, clauses: Clauses, inside: bool, loops: nat, k: nat,
      st: State, fuel: nat)
    requires clauses.Clause?
    ensures LoopSound(w, inside, loops, st, RunClause(w, id, clauses, inside, loops, k, st, fuel))
    decreases clauses, 0, 0
  {
    hide Run, RunCase;
    RunSound(w, clauses.action, inside, loops, st, fuel);
    var r := Run(w, clauses.action, inside, loops, st, fuel);
    if !Stops(r.flow) && clauses.rest.Clause? {
      ClauseSound(w, id, clauses.rest, inside, loops, k + 1, r.st, fuel);
      CaseSound(w, id, clauses.rest, inside, loops, k + 1, r.status, r.st, fuel);
    }
  }

  // ---- the bound on loops ----

  /** What a larger bound changes: nothing, unless the bound has been exceeded; then what was done
      up to there is the beginning of what is done now. */
  predicate Longer(o: Out, o': Out) {
    if o.flow == OutOfFuel then o.st.trace <= o'.st.trace else o' == o
  }

  function TurnState(t: Turn): State { match t case Over(o) => o.st case Again(_, st) => st }

  predicate TurnLonger(t: Turn, t': Turn) {
    if t.Over? && t.out.flow == OutOfFuel then t.out.st.trace <= TurnState(t').trace else t' == t
  }

  lemma PrefixTrans(a: State, b: State, c: State)
    requires a.trace <= b.trace && b.trace <= c.trace
    ensures a.trace <= c.trace
  {
  }

  /** The outcome of a command does not depend on the bound, as long as the bound is not exceeded. */
  lemma {:induction false} RunLonger(w: World, c: Command, ign: bool, loops: nat, st: State, fuel: nat, more: nat)
    requires fuel <= more
    ensures Longer(Run(w, c, ign, loops, st, fuel), Run(w, c, ign, loops, st, more))
    decreases c, 2, 0
  {
    hide RunBody;
    if !c.Null? {
      BodyLonger(w, c, Ignoring(w, c, ign), IgnoringInside(w, c, ign), loops, st, fuel, more);
    }
  }

  lemma {:induction false} BodyLonger(w: World, c: Command, ign: bool, inside: bool, loops: nat, st: State, fuel: nat,
      more: nat)
    requires !c.Null? && fuel <= more
    ensures Longer(RunBody(w, c, ign, inside, loops, st, fuel), RunBody(w, c, ign, inside, loops, st, more))
    decreases c, 1, 0
  {
    hide Run, RunWhile, RunFor, RunArithFor, RunCase;
    match c
    case Group(_, _, body) => RunLonger(w, body, inside, loops, st, fuel, more);
    case Seq(_, _, first, second) =>
      RunLonger(w, first, inside, loops, st, fuel, more);
      var r, r' := Run(w, first, inside, loops, st, fuel), Run(w, first, inside, loops, st, more);
      RunLonger(w, second, inside, loops, r.st, fuel, more);
      RunSound(w, second, inside, loops, r'.st, more);
      if r.flow == OutOfFuel { PrefixTrans(r.st, r'.st, Run(w, second, inside, loops, r'.st, more).st); }
    case And(_, _, first, second) =>
      RunLonger(w, first, true, loops, st, fuel, more);
      var r, r' := Run(w, first, true, loops, st, fuel), Run(w, first, true, loops, st, more);
      RunLonger(w, second, ign, loops, r.st, fuel, more);
      RunSound(w, second, ign, loops, r'.st, more);
      if r.flow == OutOfFuel { PrefixTrans(r.st, r'.st, Run(w, second, ign, loops, r'.st, more).st); }
    case Or(_, _, first, second) =>
      RunLonger(w, first, true, loops, st, fuel, more);
      var r, r' := Run(w, first, true, loops, st, fuel), Run(w, first, true, loops, st, more);
      RunLonger(w, second, ign, loops, r.st, fuel, more);
      RunSound(w, second, ign, loops, r'.st, more);
      if r.flow == OutOfFuel { PrefixTrans(r.st, r'.st, Run(w, second, ign, loops, r'.st, more).st); }
    case If(_, _, test, yes, no) =>
      RunLonger(w, test, true, loops, st, fuel, more);
      var r, r' := Run(w, test, true, loops, st, fuel), Run(w, test, true, loops, st, more);
      RunLonger(w, if r.status == 0 then yes else no, inside, loops, r.st, fuel, more);
      var branch := if r'.status == 0 then yes else no;
      RunSound(w, branch, inside, loops, r'.st, more);
      if r.flow == OutOfFuel { PrefixTrans(r.st, r'.st, Run(w, branch, inside, loops, r'.st, more).st); }
    case While(_, _, _, _, _) => WhileLonger(w, c, inside, loops + 1, 0, st, fuel, more, fuel, more);
    case For(_, _, id, valid, _) =>
      if valid { ForLonger(w, c, inside, loops + 1, 0, w.words(st.trace, id), 0, st, fuel, more); }
    case ArithFor(_, _, id, _) =>
      ArithForLonger(w, c, inside, loops + 1, 0, Did(st, Evaluated(id, Init)), fuel, more, fuel, more);
    case Case(_, _, id, clauses) => CaseLonger(w, id, clauses, inside, loops, 0, 0, st, fuel, more);
    case _ =>
  }

  lemma AfterBodyLonger(b: Out, b': Out)
    requires Longer(b, b')
    ensures TurnLonger(AfterBody(b), AfterBody(b'))
  {
  }

  lemma {:induction false} WhileTurnLonger(w: World, c: Command, inside: bool, loops: nat, status: nat, st: State,
      fuel: nat, more: nat)
    requires c.While? && loops > 0 && fuel <= more
    ensures TurnLonger(WhileTurn(w, c, inside, loops, status, st, fuel),
            WhileTurn(w, c, inside, loops, status, st, more))
    decreases c, 0, 0, 0
  {
    hide Run, AfterBody;
    RunLonger(w, c.test, true, loops, st, fuel, more);
    var t, t' := Run(w, c.test, true, loops, st, fuel), Run(w, c.test, true, loops, st, more);
    if t.flow == OutOfFuel {
      WhileTurnAfter(w, c, inside, loops, status, st, more);
      PrefixTrans(t.st, t'.st, TurnState(WhileTurn(w, c, inside, loops, status, st, more)));
    } else if !Stops(t.flow) && (t.status == 0) != c.until {
      RunLonger(w, c.body, inside, loops, t.st, fuel, more);
      AfterBodyLonger(BodyOf(w, c, inside, loops, t, fuel), BodyOf(w, c, inside, loops, t, more));
    }
  }

  /** The body of a while loop, where the test has ended with t and has not ended the loop. */
  function BodyOf(w: World, c: Command, inside: bool, loops: nat, t: Out, fuel: nat): Out
    requires c.While?
  {
    if t.flow != Normal then Out(t.flow, t.st.last, t.st) else Run(w, c.body, inside, loops, t.st, fuel)
  }

  lemma WhileTurnAfter(w: World, c: Command, inside: bool, loops: nat, status: nat, st: State,
      fuel: nat)
    requires c.While? && loops > 0
    ensures Run(w, c.test, true, loops, st,
            fuel).st.trace <= TurnState(WhileTurn(w, c, inside, loops, status, st, fuel)).trace
  {
    hide Run, AfterBody;
    var t := Run(w, c.test, true, loops, st, fuel);
    if !Stops(t.flow) && (t.status == 0) != c.until {
      RunSound(w, c.body, inside, loops, t.st, fuel);
      AfterBodyTrace(BodyOf(w, c, inside, loops, t, fuel));
      if t.flow == Normal { PrefixTrans(t.st, t.st, Run(w, c.body, inside, loops, t.st, fuel).st); }
    }
  }

  lemma AfterBodyTrace(b: Out)
    ensures TurnState(AfterBody(b)) == b.st
  {
  }

  lemma {:induction false} WhileLonger(w: World, c: Command, inside: bool, loops: nat, status: nat, st: State, n: nat,
      n': nat, fuel: nat, more: nat)
    requires c.While? && loops > 0 && n <= n' && fuel <= more
    ensures Longer(RunWhile(w, c, inside, loops, status, st, n, fuel),
            RunWhile(w, c, inside, loops, status, st, n', more))
    decreases c, 0, 1, n
  {
    hide WhileTurn;
    WhileSound(w, c, inside, loops, status, st, n', more);
    if n > 0 {
      WhileTurnLonger(w, c, inside, loops, status, st, fuel, more);
      var t, t' := WhileTurn(w, c, inside, loops, status, st, fuel), WhileTurn(w, c, inside, loops, status, st, more);
      if t.Again? {
        WhileLonger(w, c, inside, loops, t.status, t.st, n - 1, n' - 1, fuel, more);
      } else if t'.Again? {
        WhileSound(w, c, inside, loops, t'.status, t'.st, n' - 1, more);
        PrefixTrans(t.out.st, t'.st, RunWhile(w, c, inside, loops, t'.status, t'.st, n' - 1, more).st);
      }
    }
  }

  lemma {:induction false} ForTurnLonger(w: World, c: Command, inside: bool, loops: nat, k: nat, st: State, fuel: nat,
      more: nat)
    requires c.For? && fuel <= more
    ensures TurnLonger(ForTurn(w, c, inside, loops, k, st, fuel), ForTurn(w, c, inside, loops, k, st, more))
    decreases c, 0, 0, 0
  {
    hide Run, AfterBody;
    var st1 := Did(st, Bound(c.id, k));
    RunLonger(w, c.body, inside, loops, st1, fuel, more);
    AfterBodyLonger(Run(w, c.body, inside, loops, st1, fuel), Run(w, c.body, inside, loops, st1, more));
  }

  lemma {:induction false} ForLonger(w: World, c: Command, inside: bool, loops: nat, k: nat, words: nat, status: nat,
      st: State, fuel: nat, more: nat)
    requires c.For? && loops > 0 && fuel <= more
    ensures Longer(RunFor(w, c, inside, loops, k, words, status, st, fuel),
            RunFor(w, c, inside, loops, k, words, status, st, more))
    decreases c, 0, 1, words - k
  {
    hide ForTurn;
    if k < words {
      ForTurnLonger(w, c, inside, loops, k, st, fuel, more);
      var t, t' := ForTurn(w, c, inside, loops, k, st, fuel), ForTurn(w, c, inside, loops, k, st, more);
      if t.Again? {
        ForLonger(w, c, inside, loops, k + 1, words, t.status, t.st, fuel, more);
      } else if t'.Again? {
        ForSound(w, c, inside, loops, k + 1, words, t'.status, t'.st, more);
        PrefixTrans(t.out.st, t'.st, RunFor(w, c, inside, loops, k + 1, words, t'.status, t'.st, more).st);
      }
    }
  }

  lemma {:induction false} ArithForTurnLonger(w: World, c: Command, inside: bool, loops: nat, status: nat, st: State,
      fuel: nat, more: nat)
    requires c.ArithFor? && fuel <= more
    ensures TurnLonger(ArithForTurn(w, c, inside, loops, status, st, fuel),
            ArithForTurn(w, c, inside, loops, status, st, more))
    decreases c, 0, 0, 0
  {
    hide Run, AfterBody;
    var st1 := Did(st, Evaluated(c.id, Test));
    RunLonger(w, c.body, inside, loops, st1, fuel, more);
    AfterBodyLonger(Run(w, c.body, inside, loops, st1, fuel), Run(w, c.body, inside, loops, st1, more));
  }

  lemma {:induction false} ArithForLonger(w: World, c: Command, inside: bool, loops: nat, status: nat, st: State,
      n: nat, n': nat, fuel: nat, more: nat)
    requires c.ArithFor? && loops > 0 && n <= n' && fuel <= more
    ensures Longer(RunArithFor(w, c, inside, loops, status, st, n, fuel),
            RunArithFor(w, c, inside, loops, status, st, n', more))
    decreases c, 0, 1, n
  {
    hide ArithForTurn;
    ArithForSound(w, c, inside, loops, status, st, n', more);
    if n > 0 {
      ArithForTurnLonger(w, c, inside, loops, status, st, fuel, more);
      var t, t' := ArithForTurn(w, c, inside, loops, status, st, fuel),
          ArithForTurn(w, c, inside, loops, status, st, more);
      if t.Again? {
        ArithForLonger(w, c, inside, loops, t.status, t.st, n - 1, n' - 1, fuel, more);
      } else if t'.Again? {
        ArithForSound(w, c, inside, loops, t'.status, t'.st, n' - 1, more);
        PrefixTrans(t.out.st, t'.st, RunArithFor(w, c, inside, loops, t'.status, t'.st, n' - 1, more).st);
      }
    }
  }

  lemma {:induction false} CaseLonger(w: World, id: nat, clauses: Clauses, inside: bool, loops: nat, k: nat,
      status: nat, st: State, fuel: nat, more: nat)
    requires fuel <= more
    ensures Longer(RunCase(w, id, clauses, inside, loops, k, status, st, fuel),
            RunCase(w, id, clauses, inside, loops, k, status, st, more))
    decreases clauses, 1, 0
  {
    hide RunClause;
    if clauses.Clause? {
      ClauseLonger(w, id, clauses, inside, loops, k, st, fuel, more);
      CaseLonger(w, id, clauses.rest, inside, loops, k + 1, status, st, fuel, more);
    }
  }

  lemma {:induction false} ClauseLonger(w: World, id: nat, clauses: Clauses, inside: bool, loops: nat, k: nat,
      st: State, fuel: nat, more: nat)
    requires clauses.Clause? && fuel <= more
    ensures Longer(RunClause(w, id, clauses, inside, loops, k, st, fuel),
            RunClause(w, id, clauses, inside, loops, k, st, more))
    decreases clauses, 0, 0
  {
    hide Run, RunCase;
    RunLonger(w, clauses.action, inside, loops, st, fuel, more);
    var r, r' := Run(w, clauses.action, inside, loops, st, fuel), Run(w, clauses.action, inside, loops, st, more);
    if clauses.rest.Clause? {
      ClauseLonger(w, id, clauses.rest, inside, loops, k + 1, r.st, fuel, more);
      CaseLonger(w, id, clauses.rest, inside, loops, k + 1, r.status, r.st, fuel, more);
      ClauseSound(w, id, clauses.rest, inside, loops, k + 1, r'.st, more);
      CaseSound(w, id, clauses.rest, inside, loops, k + 1, r'.status, r'.st, more);
      if r.flow == OutOfFuel {
        PrefixTrans(r.st, r'.st, RunClause(w, id, clauses.rest, inside, loops, k + 1, r'.st, more).st);
        PrefixTrans(r.st, r'.st, RunCase(w, id, clauses.rest, inside, loops, k + 1, r'.status, r'.st, more).st);
      }
    }
  }

  /** Two runs that both stay within their bounds have the same outcome. */
  lemma BoundIrrelevant(w: World, c: Command, ign: bool, loops: nat, st: State, fuel: nat, fuel': nat)
    requires Run(w, c, ign, loops, st, fuel).flow != OutOfFuel && Run(w, c, ign, loops, st, fuel').flow != OutOfFuel
    ensures Run(w, c, ign, loops, st, fuel) == Run(w, c, ign, loops, st, fuel')
  {
    hide Run;
    if fuel <= fuel' {
      RunLonger(w, c, ign, loops, st, fuel, fuel');
    } else {
      RunLonger(w, c, ign, loops, st, fuel', fuel);
    }
  }

  // ---- consequences ----

  /** Only the last command of an AND-OR list that is run can exit, and only after the others have
      ended normally with the status that asks for it. */
  lemma OnlyLastExits(w: World, c: Command, ign: bool, inside: bool, loops: nat, st: State, fuel: nat)
    requires c.And? || c.Or?
    requires RunBody(w, c, ign, inside, loops, st, fuel).flow == Exit
    ensures var r := Run(w, c.first, true, loops, st, fuel);
            r.flow == Normal && (r.status == 0) == c.And? && Run(w, c.second, ign, loops, r.st, fuel).flow == Exit
  {
    hide Run;
    RunSound(w, c.first, true, loops, st, fuel);
  }

  /** The test of an if command never exits: if the command does, a branch has done so. */
  lemma OnlyBranchExits(w: World, c: Command, ign: bool, inside: bool, loops: nat, st: State, fuel: nat)
    requires c.If?
    requires RunBody(w, c, ign, inside, loops, st, fuel).flow == Exit
    ensures var r := Run(w, c.test, true, loops, st, fuel);
            r.flow == Normal && Run(w, if r.status == 0 then c.yes else c.no, inside, loops, r.st, fuel).flow == Exit
  {
    hide Run;
    RunSound(w, c.test, true, loops, st, fuel);
  }

  /** A "break" or "continue" in the test of a while or until loop. Its status decides first: a status
      that ends the loop ends it, and otherwise the body is passed over; then only "continue 1" goes
      on with the loop. Outer loops are left as if the jump had come from the body. */
  lemma JumpInTest(w: World, c: Command, inside: bool, loops: nat, status: nat, st: State, n: nat, fuel: nat)
    requires c.While? && loops > 0 && n > 0
    requires var t := Run(w, c.test, true, loops, st, fuel); t.flow.BreakOut? || t.flow.ContinueOut?
    ensures var t := Run(w, c.test, true, loops, st, fuel);
            RunWhile(w, c, inside, loops, status, st, n, fuel) ==
              if (t.st.last == 0) == c.until then Out(Leave(t.flow), status, t.st)
              else if t.flow == ContinueOut(1) then RunWhile(w, c, inside, loops, t.st.last, t.st, n - 1, fuel)
              else Out(Leave(t.flow), t.st.last, t.st)
  {
    hide Run;
    RunSound(w, c.test, true, loops, st, fuel);
  }

  /** ... so that "until continue" does not loop. */
  lemma UntilContinueLeaves(w: World, c: Command, st: State, fuel: nat)
    requires c.While? && c.until && c.test.Continue? && !c.test.invert && c.test.count == 1 && fuel > 0
    ensures RunWhile(w, c, false, 1, 0, st, fuel, fuel) == Out(Normal, 0, st.(last := 0))
  {
    assert Run(w, c.test, true, 1, st, fuel) == Out(ContinueOut(1), 0, st.(last := 0));
  }
}
