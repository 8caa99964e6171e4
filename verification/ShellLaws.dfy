/** What commands do, rule by rule: for every construct of the shell, how its flow, its status and
    its trace follow from those of its parts. */
module ShellLaws {
  import opened ShellCommands

  /** The smaller of two numbers. */
  function Min(a: nat, b: nat): nat { if a <= b then a else b }

  // ---- "!" ----

  /** "!" turns the status of what ends normally, or leaves a loop, into its opposite, which is also the
      last status; what happens is what happens without "!" where failures are ignored. */
  lemma Inverted(w: World, c: Command, ign: bool, loops: nat, st: State, fuel: nat)
    requires !c.Null? && c.invert
    ensures var o := Run(w, c, ign, loops, st, fuel);
            var p := RunBody(w, c.(invert := false), ign || w.errexit, true, loops, st, fuel);
            o.flow == p.flow &&
            if o.flow == Exit || o.flow == OutOfFuel then o == p
            else o.status == (if p.status == 0 then 1 else 0) && o.st == p.st.(last := o.status)
  {
    hide RunBody;
    SameBody(w, c, c.(invert := false), ign || w.errexit, true, loops, st, fuel);
  }

  lemma SameBody(w: World, c: Command, d: Command, ign: bool, inside: bool, loops: nat, st: State, fuel: nat)
    requires !c.Null? && d == c.(invert := false)
    ensures RunBody(w, c, ign, inside, loops, st, fuel) == RunBody(w, d, ign, inside, loops, st, fuel)
  {
    hide Run, RunWhile, RunFor, RunArithFor, RunCase;
    match c
    case While(_, _, _, _, _) => SameWhile(w, c, d, inside, loops + 1, 0, st, fuel, fuel);
    case For(_, _, id, _, _) => SameFor(w, c, d, inside, loops + 1, 0, w.words(st.trace, id), 0, st, fuel);
    case ArithFor(_, _, id, _) =>
      SameArithFor(w, c, d, inside, loops + 1, 0, Did(st, Evaluated(id, Init)), fuel, fuel);
    case _ =>
  }

  lemma {:induction false} SameWhile(w: World, c: Command, d: Command, inside: bool, loops: nat, status: nat, st: State,
      n: nat, fuel: nat)
    requires c.While? && d == While(c.node, false, c.until, c.test, c.body)
    ensures RunWhile(w, c, inside, loops, status, st, n, fuel) == RunWhile(w, d, inside, loops, status, st, n, fuel)
    decreases n
  {
    hide Run, AfterBody;
    if n > 0 {
      var t := WhileTurn(w, c, inside, loops, status, st, fuel);
      if t.Again? { SameWhile(w, c, d, inside, loops, t.status, t.st, n - 1, fuel); }
    }
  }

  lemma {:induction false} SameFor(w: World, c: Command, d: Command, inside: bool, loops: nat, k: nat, words: nat,
      status: nat, st: State, fuel: nat)
    requires c.For? && d == For(c.node, false, c.id, c.valid, c.body)
    ensures RunFor(w, c, inside, loops, k, words, status, st, fuel)
         == RunFor(w, d, inside, loops, k, words, status, st, fuel)
    decreases words - k
  {
    hide Run, AfterBody;
    if k < words {
      var t := ForTurn(w, c, inside, loops, k, st, fuel);
      if t.Again? { SameFor(w, c, d, inside, loops, k + 1, words, t.status, t.st, fuel); }
    }
  }

  lemma {:induction false} SameArithFor(w: World, c: Command, d: Command, inside: bool, loops: nat, status: nat,
      st: State, n: nat, fuel: nat)
    requires c.ArithFor? && d == ArithFor(c.node, false, c.id, c.body)
    ensures RunArithFor(w, c, inside, loops, status, st, n, fuel)
         == RunArithFor(w, d, inside, loops, status, st, n, fuel)
    decreases n
  {
    hide Run, AfterBody;
    if n > 0 {
      var t := ArithForTurn(w, c, inside, loops, status, st, fuel);
      if t.Again? { SameArithFor(w, c, d, inside, loops, t.status, t.st, n - 1, fuel); }
    }
  }

  // ---- single commands ----

  /** A list of nothing. */
  lemma Nothing(w: World, ign: bool, loops: nat, st: State, fuel: nat)
    ensures Run(w, Null, ign, loops, st, fuel) == Out(Normal, 0, st)
  {
  }

  /** A simple command, or a pipeline, is run once; its status is the status, and where failures are not
      ignored, set -e makes a failure the end of the shell. */
  lemma Commands(w: World, c: Command, ign: bool, loops: nat, st: State, fuel: nat)
    requires (c.Simple? || c.Pipeline?) && !c.invert
    ensures var e := Ran(c.id, ign);
            var s := w.status(st.trace, e);
            Run(w, c, ign, loops, st, fuel) ==
              Out(if w.errexit && !ign && s != 0 then Exit else Normal, s, State(st.trace + [e], s))
  {
  }

  /** break n and continue n: n loops are left, but not more than there are; outside loops nothing
      happens; a number that is not positive is a failure that leaves all loops. */
  lemma Jumps(w: World, c: Command, ign: bool, loops: nat, st: State, fuel: nat)
    requires (c.Break? || c.Continue?) && !c.invert
    ensures Run(w, c, ign, loops, st, fuel) ==
              if loops == 0 then Out(Normal, 0, State(st.trace, 0))
              else if c.count > 0 && c.Break? then Out(BreakOut(Min(c.count, loops)), 0, State(st.trace, 0))
              else if c.count > 0 then Out(ContinueOut(Min(c.count, loops)), 0, State(st.trace, 0))
              else if w.errexit && !ign then Out(Exit, 1, State(st.trace, 1))
              else Out(BreakOut(loops), 1, State(st.trace, 1))
  {
  }

  // ---- lists ----

  /** A command around another one leaves the status of what is inside as the last status. */
  function Closed(o: Out): Out {
    if o.flow == Exit || o.flow == OutOfFuel then o else o.(st := o.st.(last := o.status))
  }

  /** Braces around a command change nothing. */
  lemma Grouping(w: World, n: Node, body: Command, ign: bool, loops: nat, st: State, fuel: nat)
    requires !body.Null?
    ensures Run(w, Group(n, false, body), ign, loops, st, fuel) == Run(w, body, ign, loops, st, fuel)
  {
    hide RunBody;
    GroupBody(w, n, body, ign, loops, st, fuel);
    Last(w, body, ign, loops, st, fuel);
  }

  lemma GroupBody(w: World, n: Node, body: Command, ign: bool, loops: nat, st: State, fuel: nat)
    ensures RunBody(w, Group(n, false, body), ign, ign, loops, st, fuel) == Run(w, body, ign, loops, st, fuel)
  {
  }

  lemma Last(w: World, c: Command, ign: bool, loops: nat, st: State, fuel: nat)
    requires !c.Null?
    ensures Closed(Run(w, c, ign, loops, st, fuel)) == Run(w, c, ign, loops, st, fuel)
  {
    hide RunBody;
  }

  /** a; b: first a and then b, unless a exits or jumps. */
  lemma Lists(w: World, n: Node, a: Command, b: Command, ign: bool, loops: nat, st: State, fuel: nat)
    requires !a.Null? && !b.Null?
    ensures var r := Run(w, a, ign, loops, st, fuel);
            Run(w, Seq(n, false, a, b), ign, loops, st, fuel) ==
              if r.flow == Normal then Run(w, b, ign, loops, r.st, fuel) else r
  {
    var r := Run(w, a, ign, loops, st, fuel);
    Last(w, a, ign, loops, st, fuel);
    Last(w, b, ign, loops, r.st, fuel);
    hide Run;
    SeqRun(w, n, a, b, ign, loops, st, fuel);
  }

  lemma SeqRun(w: World, n: Node, a: Command, b: Command, ign: bool, loops: nat, st: State, fuel: nat)
    ensures var r := Run(w, a, ign, loops, st, fuel);
            Run(w, Seq(n, false, a, b), ign, loops, st, fuel) ==
              if r.flow == Exit || r.flow == OutOfFuel then r
              else if r.flow != Normal then Closed(Out(r.flow, r.st.last, r.st))
              else Closed(Run(w, b, ign, loops, r.st, fuel))
  {
  }

  /** a && b and a || b: failures of a are ignored; b is run exactly if a ended normally with the status
      that asks for it, and then b decides. */
  lemma AndOrs(w: World, n: Node, a: Command, b: Command, ign: bool, loops: nat, st: State, fuel: nat)
    requires !a.Null? && !b.Null?
    ensures var r := Run(w, a, true, loops, st, fuel);
            && Run(w, And(n, false, a, b), ign, loops, st, fuel) ==
                 (if r.flow == Normal && r.status == 0 then Run(w, b, ign, loops, r.st, fuel) else r)
            && Run(w, Or(n, false, a, b), ign, loops, st, fuel) ==
                 if r.flow == Normal && r.status != 0 then Run(w, b, ign, loops, r.st, fuel) else r
  {
    var r := Run(w, a, true, loops, st, fuel);
    Last(w, a, true, loops, st, fuel);
    Last(w, b, ign, loops, r.st, fuel);
    AndRun(w, n, a, b, ign, loops, st, fuel);
    OrRun(w, n, a, b, ign, loops, st, fuel);
    hide Run;
  }

  lemma AndRun(w: World, n: Node, a: Command, b: Command, ign: bool, loops: nat, st: State, fuel: nat)
    ensures var r := Run(w, a, true, loops, st, fuel);
            Run(w, And(n, false, a, b), ign, loops, st, fuel) ==
              Closed(if r.flow == Normal && r.status == 0 then Run(w, b, ign, loops, r.st, fuel) else r)
  {
  }

  lemma OrRun(w: World, n: Node, a: Command, b: Command, ign: bool, loops: nat, st: State, fuel: nat)
    ensures var r := Run(w, a, true, loops, st, fuel);
            Run(w, Or(n, false, a, b), ign, loops, st, fuel) ==
              Closed(if r.flow == Normal && r.status != 0 then Run(w, b, ign, loops, r.st, fuel) else r)
  {
  }

  /** if t; then a; else b; fi: failures of t are ignored; without an else part the status is 0. */
  lemma Conditionals(w: World, n: Node, t: Command, a: Command, b: Command, ign: bool, loops: nat, st: State, fuel: nat)
    requires !t.Null?
    ensures var r := Run(w, t, true, loops, st, fuel);
            Run(w, If(n, false, t, a, b), ign, loops, st, fuel) ==
              if r.flow != Normal then r
              else
                var branch := if r.status == 0 then a else b;
                if branch.Null? then Out(Normal, 0, State(r.st.trace, 0)) else Run(w, branch, ign, loops, r.st, fuel)
  {
    var r := Run(w, t, true, loops, st, fuel);
    var branch := if r.status == 0 then a else b;
    Last(w, t, true, loops, st, fuel);
    if !branch.Null? { Last(w, branch, ign, loops, r.st, fuel); }
    Nothing(w, ign, loops, r.st, fuel);
    IfRun(w, n, t, a, b, ign, loops, st, fuel);
    hide Run;
  }

  lemma IfRun(w: World, n: Node, t: Command, a: Command, b: Command, ign: bool, loops: nat, st: State, fuel: nat)
    ensures var r := Run(w, t, true, loops, st, fuel);
            Run(w, If(n, false, t, a, b), ign, loops, st, fuel) ==
              if r.flow == Exit || r.flow == OutOfFuel then r
              else if r.flow != Normal then Closed(Out(r.flow, r.st.last, r.st))
              else Closed(Run(w, if r.status == 0 then a else b, ign, loops, r.st, fuel))
  {
  }

  // ---- parts behind "!" ----

  /** The opposite status. */
  function Opposite(o: Out): Out {
    if o.flow == Exit || o.flow == OutOfFuel then o
    else
      var s := if o.status == 0 then 1 else 0;
      Out(o.flow, s, o.st.(last := s))
  }

  /** Behind "!", commands are run with failures ignored. */
  lemma InvertedCommands(w: World, c: Command, ign: bool, loops: nat, st: State, fuel: nat)
    requires (c.Simple? || c.Pipeline?) && c.invert
    ensures var e := Ran(c.id, true);
            var s := if w.status(st.trace, e) == 0 then 1 else 0;
            Run(w, c, ign, loops, st, fuel) == Out(Normal, s, State(st.trace + [e], s))
  {
  }

  lemma InvertedGroups(w: World, n: Node, body: Command, ign: bool, loops: nat, st: State, fuel: nat)
    ensures Run(w, Group(n, true, body), ign, loops, st, fuel) == Opposite(Run(w, body, true, loops, st, fuel))
  {
  }

  /** The second command of an AND-OR list is only told so if set -e is in force, or was told anyway. */
  lemma InvertedAndOrs(w: World, n: Node, a: Command, b: Command, ign: bool, loops: nat, st: State, fuel: nat)
    ensures var r := Run(w, a, true, loops, st, fuel);
            var o := Run(w, b, ign || w.errexit, loops, r.st, fuel);
            && Run(w, And(n, true, a, b), ign, loops, st, fuel) ==
                 Opposite(if r.flow == Normal && r.status == 0 then o else r)
            && Run(w, Or(n, true, a, b), ign, loops, st, fuel) ==
                 Opposite(if r.flow == Normal && r.status != 0 then o else r)
  {
  }

  // ---- loops ----

  /** What a loop does when its body has ended: go on, or end in this way. */
  datatype After = GoOn | End(out: Out)

  /** A break, or a continue of an outer loop, counts the loop that it leaves; everything else but an
      exit goes on. */
  function Behind(b: Out): After {
    match b.flow
    case Normal => GoOn
    case BreakOut(k) => End(Out(if k >= 2 then BreakOut(k - 1) else Normal, b.status, b.st))
    case ContinueOut(k) => if k >= 2 then End(Out(ContinueOut(k - 1), b.status, b.st)) else GoOn
    case _ => End(b)
  }

  lemma BehindBody(b: Out)
    ensures AfterBody(b) == match Behind(b) case GoOn => Again(b.status, b.st) case End(o) => Over(o)
  {
  }

  /** while and until: failures of the test are ignored. The loop ends with the status of its last body,
      or 0, when the test succeeds (until) or fails (while); otherwise the body is run, and the loop
      goes on from there. */
  lemma WhileLoops(w: World, c: Command, ign: bool, loops: nat, st: State, fuel: nat)
    requires c.While? && !c.invert
    ensures Run(w, c, ign, loops, st, fuel) == Closed(RunWhile(w, c, ign, loops + 1, 0, st, fuel, fuel))
  {
    hide RunWhile;
  }

  lemma WhileRounds(w: World, c: Command, ign: bool, loops: nat, status: nat, st: State, n: nat, fuel: nat)
    requires c.While? && n > 0
    ensures var t := Run(w, c.test, true, loops, st, fuel);
            var b := Run(w, c.body, ign, loops, t.st, fuel);
            var again := RunWhile(w, c, ign, loops, b.status, b.st, n - 1, fuel);
            && (t.flow == Exit || t.flow == OutOfFuel ==> RunWhile(w, c, ign, loops, status, st, n, fuel) == t)
            && (t.flow == Normal ==>
                  RunWhile(w, c, ign, loops, status, st, n, fuel) ==
                    if (if c.until then t.status == 0 else t.status != 0) then Out(Normal, status, t.st)
                    else match Behind(b) case GoOn => again case End(o) => o)
  {
    hide Run;
    BehindBody(Run(w, c.body, ign, loops, Run(w, c.test, true, loops, st, fuel).st, fuel));
  }

  /** for: one turn for every word, each with a binding; an invalid name, and a binding that fails, end
      it with status 1; without words the status is 0. */
  lemma ForLoops(w: World, c: Command, ign: bool, loops: nat, st: State, fuel: nat)
    requires c.For? && !c.invert
    ensures Run(w, c, ign, loops, st, fuel) ==
              if c.valid then Closed(RunFor(w, c, ign, loops + 1, 0, w.words(st.trace, c.id), 0, st, fuel))
              else Out(Normal, 1, State(st.trace, 1))
  {
    hide RunFor;
  }

  lemma ForRounds(w: World, c: Command, ign: bool, loops: nat, k: nat, words: nat, status: nat, st: State, fuel: nat)
    requires c.For?
    ensures var e := Bound(c.id, k);
            var st1 := State(st.trace + [e], st.last);
            var b := Run(w, c.body, ign, loops, st1, fuel);
            RunFor(w, c, ign, loops, k, words, status, st, fuel) ==
              if k >= words then Out(Normal, status, st)
              else if !w.binds(st.trace, e) then Out(Normal, 1, st1)
              else
                match Behind(b)
                case GoOn => RunFor(w, c, ign, loops, k + 1, words, b.status, b.st, fuel)
                case End(o) => o
  {
    hide Run;
    BehindBody(Run(w, c.body, ign, loops, Did(st, Bound(c.id, k)), fuel));
  }

  /** The arithmetic for: an invalid expression ends it with status 1; a test of 0 ends it with the status
      of its last body; the step is evaluated whenever the body has ended without leaving the loop. */
  lemma ArithForLoops(w: World, c: Command, ign: bool, loops: nat, st: State, fuel: nat)
    requires c.ArithFor? && !c.invert
    ensures var e := Evaluated(c.id, Init);
            var st1 := State(st.trace + [e], st.last);
            Run(w, c, ign, loops, st, fuel) ==
              if w.arith(st.trace, e) == BadExpression then Out(Normal, 1, State(st1.trace, 1))
              else Closed(RunArithFor(w, c, ign, loops + 1, 0, st1, fuel, fuel))
  {
    hide RunArithFor;
  }

  lemma ArithForRounds(w: World, c: Command, ign: bool, loops: nat, status: nat, st: State, n: nat, fuel: nat)
    requires c.ArithFor? && n > 0
    ensures var e, e2 := Evaluated(c.id, Test), Evaluated(c.id, Step);
            var st1 := State(st.trace + [e], st.last);
            var b := Run(w, c.body, ign, loops, st1, fuel);
            var st2 := State(b.st.trace + [e2], b.st.last);
            RunArithFor(w, c, ign, loops, status, st, n, fuel) ==
              match w.arith(st.trace, e)
              case BadExpression => Out(Normal, 1, st1)
              case Zero => Out(Normal, status, st1)
              case NonZero =>
                match Behind(b)
                case End(o) => o
                case GoOn =>
                  if w.arith(b.st.trace, e2) == BadExpression then Out(Normal, 1, st2)
                  else RunArithFor(w, c, ign, loops, b.status, st2, n - 1, fuel)
  {
    hide Run;
    BehindBody(Run(w, c.body, ign, loops, Did(st, Evaluated(c.id, Test)), fuel));
  }

  /** A loop whose bound is used up. */
  lemma UsedUp(w: World, c: Command, ign: bool, loops: nat, status: nat, st: State, fuel: nat)
    ensures c.While? ==> RunWhile(w, c, ign, loops, status, st, 0, fuel) == Out(OutOfFuel, 0, st)
    ensures c.ArithFor? ==> RunArithFor(w, c, ign, loops, status, st, 0, fuel) == Out(OutOfFuel, 0, st)
  {
  }

  // ---- case ----

  /** case: the clauses are tried from the first one on; if none matches the status is 0. */
  lemma Cases(w: World, c: Command, ign: bool, loops: nat, st: State, fuel: nat)
    requires c.Case? && !c.invert
    ensures Run(w, c, ign, loops, st, fuel) == Closed(RunCase(w, c.id, c.clauses, ign, loops, 0, 0, st, fuel))
    ensures c.clauses.NoClause? ==> Run(w, c, ign, loops, st, fuel) == Out(Normal, 0, State(st.trace, 0))
  {
  }

  /** One clause: it is passed over if it does not match; otherwise its action is run, and then ";;" ends
      the command, ";&" runs the next action, and ";;&" goes on with the matching. */
  lemma CaseClauses(w: World, id: nat, cl: Clauses, ign: bool, loops: nat, k: nat, status: nat, st: State, fuel: nat)
    requires cl.Clause? && !cl.action.Null?
    ensures var r := Run(w, cl.action, ign, loops, st, fuel);
            && (w.matches(st.trace, id, k) ==>
                  RunCase(w, id, cl, ign, loops, k, status, st, fuel) == RunClause(w, id, cl, ign, loops, k, st, fuel))
            && (!w.matches(st.trace, id, k) ==>
                  RunCase(w, id, cl, ign, loops, k, status, st, fuel)
                  == RunCase(w, id, cl.rest, ign, loops, k + 1, status, st, fuel))
            && RunClause(w, id, cl, ign, loops, k, st, fuel) ==
                 if r.flow != Normal || cl.rest.NoClause? then r
                 else
                   match cl.ending
                   case Done => r
                   case FallThrough => RunClause(w, id, cl.rest, ign, loops, k + 1, r.st, fuel)
                   case TestNext => RunCase(w, id, cl.rest, ign, loops, k + 1, r.status, r.st, fuel)
  {
    Last(w, cl.action, ign, loops, st, fuel);
    hide Run;
  }
}
