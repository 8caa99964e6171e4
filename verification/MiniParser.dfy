/** The parser of minishell (42-minishell/parse1.c, parse2.c, parse3.c and parse_utils.c), which
    advances a token in place and splices the lists of here-documents. */
module MiniParser {
  import opened CStrings
  import opened G = MiniGrammar

  /** t_parse_hdoc_list. The redirection of an entry is written once. */
  class Hdoc {
    const redirection: Arg
    var next: Hdoc?

    /** parse_new_heredocs */
    constructor (redirection: Arg)
      ensures this.redirection == redirection && next == null
    {
      this.redirection, next := redirection, null;
    }
  }

  /** The fields of t_parse_ast: the content, the error flag and the first here-document. */
  datatype Ast<T> = Ast(tree: T, error: bool, heredocs: Hdoc?)

  /** What follows the entry at i. */
  function Link(nodes: seq<Hdoc>, i: nat, end: Hdoc?): Hdoc? { if i + 1 < |nodes| then nodes[i + 1] else end }

  /** Different entries, linked to each other in this order; the last one is linked to end. */
  ghost predicate Segment(nodes: seq<Hdoc>, end: Hdoc?)
    reads set n | n in nodes
  {
    && (forall i, j :: 0 <= i < j < |nodes| ==> nodes[i] != nodes[j])
    && forall i {:trigger nodes[i].next} :: 0 <= i < |nodes| ==> nodes[i].next == Link(nodes, i, end)
  }

  function First(nodes: seq<Hdoc>): Hdoc? { if nodes == [] then null else nodes[0] }

  /** The list that starts at first consists of exactly these entries. */
  ghost predicate Chain(first: Hdoc?, nodes: seq<Hdoc>)
    reads set n | n in nodes
  {
    first == First(nodes) && Segment(nodes, null)
  }

  lemma SegmentAppend(front: seq<Hdoc>, back: seq<Hdoc>)
    requires Segment(front, First(back)) && Segment(back, null)
    requires forall n <- front :: n !in back
    ensures Segment(front + back, null)
  {
    var all := front + back;
    forall i, j | 0 <= i < j < |all| ensures all[i] != all[j] {
      if i < |front| <= j { assert all[i] in front && all[j] in back; }
    }
    forall i | 0 <= i < |all| ensures all[i].next == Link(all, i, null) {
      if i >= |front| {
        assert all[i] == back[i - |front|];
      } else if i + 1 < |front| {
        assert all[i] == front[i] && all[i + 1] == front[i + 1];
      } else if back != [] {
        assert all[i] == front[i] && all[i + 1] == back[0];
      }
    }
  }

  ghost function Listed(nodes: seq<Hdoc>): seq<Arg> {
    if nodes == [] then [] else [nodes[0].redirection] + Listed(nodes[1..])
  }

  lemma {:induction false} ListedAppend(a: seq<Hdoc>, b: seq<Hdoc>)
    ensures Listed(a + b) == Listed(a) + Listed(b)
    decreases |a|
  {
    if a == [] {
      assert a + b == b;
    } else {
      ListedAppend(a[1..], b);
      assert (a + b)[1..] == a[1..] + b;
    }
  }

  /** A parsing method and the parsing function of the same name have the same outcome. */
  ghost predicate Agrees<T(!new)>(node: Option<Ast<T>>, r: G.Result<T>, rest: seq<Token>) {
    && rest == r.rest
    && match r
       case Nothing(_) => node == None
       case Node(tree, error, _) => node.Some? && node.value.tree == tree && node.value.error == error
  }

  lemma NoString(ts: seq<Token>)
    requires Ended(ts) && !IsText(ts[0])
    ensures G.ParseString(ts) == Nothing(ts)
  {
  }

  lemma RunOn(ts: seq<Token>)
    requires Ended(ts) && IsText(ts[0])
    ensures Ended(ts[1..]) && Run(ts) == 1 + Run(ts[1..])
  {
  }

  lemma StringStep(ts: seq<Token>)
    requires Ended(ts) && IsText(ts[0])
    ensures Ended(ts[1..])
    ensures var r, s := G.ParseString(ts), G.ParseString(ts[1..]);
            r.Node? && !r.error && r.rest == s.rest && r.tree == [ts[0]] + if s.Node? then s.tree else []
  {
    RunOn(ts);
    hide Run, IsText, IsStop;
    TailSlices(ts, Run(ts[1..]));
  }

  lemma TailSlices(ts: seq<Token>, n: nat)
    requires 1 + n <= |ts|
    ensures ts[..1 + n] == [ts[0]] + ts[1..][..n] && ts[1 + n..] == ts[1..][n..]
    ensures n == 0 ==> ts[..1 + n] == [ts[0]] + []
  {
  }

  /** parse_concat_heredocs: splices the list of tail behind the list of head, in place; a missing
      node counts as one without here-documents. */
  method ConcatHeredocs<A, B>(head: Option<Ast<A>>, tail: Option<Ast<B>>, ghost front: seq<Hdoc>,
      ghost back: seq<Hdoc>)
    returns (first: Hdoc?)
    requires head.Some? ==> Chain(head.value.heredocs, front)
    requires head.None? ==> front == []
    requires tail.Some? ==> Chain(tail.value.heredocs, back)
    requires tail.None? ==> back == []
    requires forall n <- front :: n !in back
    modifies set n | n in front
    ensures Chain(first, front + back)
    ensures Listed(front + back) == Listed(front) + Listed(back)
    ensures (head.None? ==> Listed(front) == []) && (tail.None? ==> Listed(back) == [])
  {
    ListedAppend(front, back);
    if head.None? || head.value.heredocs == null {
      assert front + back == back;
      if tail.Some? { return tail.value.heredocs; } else { return null; }
    }
    var list: Hdoc := head.value.heredocs;
    ghost var i: nat := 0;
    while list.next != null
      invariant Chain(head.value.heredocs, front) && i < |front| && list == front[i]
      modifies {}
      decreases |front| - i
    {
      assert list.next == Link(front, i, null);
      list := list.next;
      i := i + 1;
    }
    assert i + 1 == |front|;
    if tail.Some? {
      list.next := tail.value.heredocs;
    }
    assert Segment(back, null);
    assert Segment(front, First(back));
    SegmentAppend(front, back);
    return head.value.heredocs;
  }

  /** The parse buffer and the current token. The lexer never looks at the state of the parser,
      so it is represented by the tokens that it delivers. */
  class Parser {
    const tokens: seq<Token>
    var pos: nat
    var tok: Token

    ghost predicate Ready()
      reads this
    {
      pos < |tokens| && tok == tokens[pos] && Ended(tokens[pos..])
    }

    ghost function Rest(): (r: seq<Token>)
      reads this
      requires Ready()
      ensures Ended(r) && r[0] == tok
    {
      tokens[pos..]
    }

    constructor (tokens: seq<Token>)
      requires Ended(tokens)
      ensures Ready() && Rest() == tokens
    {
      this.tokens, pos, tok := tokens, 0, tokens[0];
      new;
      assert tokens[0..] == tokens;
    }

    /** lex_get_token */
    method GetToken()
      requires Ready() && !IsStop(tok)
      modifies this
      ensures Ready() && Rest() == old(Rest())[1..]
    {
      assert tokens[pos..][1..] == tokens[pos + 1..];
      pos := pos + 1;
      tok := tokens[pos];
    }

    method ParseSkipSpaces()
      requires Ready()
      modifies this
      ensures Ready() && Rest() == SkipSpaces(old(Rest()))
    {
      while true
        invariant Ready() && SkipSpaces(Rest()) == SkipSpaces(old(Rest()))
        decreases |tokens| - pos
      {
        if tok.kind != Space { break; }
        GetToken();
      }
    }

    method ParseString() returns (node: Option<Ast<seq<Token>>>)
      requires Ready()
      modifies this
      ensures Ready()
      ensures Agrees(node, G.ParseString(old(Rest())), Rest())
              && (node.Some? ==> !node.value.error && node.value.heredocs == null)
      decreases |tokens| - pos
    {
      hide Run, Ended;
      ghost var ts := Rest();
      if tok.kind != Expandable && tok.kind != NonExpandable && tok.kind != ExpandableQuoted { return None; }
      var part := tok;
      GetToken();
      StringStep(ts);
      var next := ParseString();
      return Some(Ast([part] + if next.Some? then next.value.tree else [], false, null));
    }

    method ParseRedirection() returns (node: Option<Ast<Arg>>, ghost nodes: seq<Hdoc>)
      requires Ready()
      modifies this
      ensures Ready()
      ensures Agrees(node, G.ParseRedirection(old(Rest())), Rest())
      ensures forall n <- nodes :: fresh(n)
      ensures if node.Some? then Chain(node.value.heredocs, nodes) && Listed(nodes) == ArgHeredocs(node.value.tree)
              else nodes == []
    {
      hide Run, Ended, Items, SkipSpaces, G.ParseString;
      nodes := [];
      if tok.kind != Input && tok.kind != HereDocument && tok.kind != Output
          && tok.kind != Appending { return None, []; }
      var kind, fd := tok.kind, tok.length;
      GetToken();
      ParseSkipSpaces();
      var str := ParseString();
      var redirection := Redir(kind, fd, if str.Some? then str.value.tree else []);
      var heredocs: Hdoc? := null;
      if kind == HereDocument {
        heredocs := new Hdoc(redirection);
        nodes := [heredocs];
      }
      node := Some(Ast(redirection, str.None? || str.value.error, heredocs));
    }

    method ParseArguments() returns (node: Option<Ast<Arguments>>, ghost nodes: seq<Hdoc>)
      requires Ready()
      modifies this
      ensures Ready()
      ensures Agrees(node, G.ParseArguments(old(Rest())), Rest())
      ensures forall n <- nodes :: fresh(n)
      ensures if node.Some? then Chain(node.value.heredocs, nodes)
              && Listed(nodes) == ArgumentsHeredocs(node.value.tree) else nodes == []
      decreases |tokens| - pos
    {
      hide Run, Ended, Items, SkipSpaces, G.ParseString, G.ParseRedirection, Chain, Listed;
      ParseSkipSpaces();
      var redir, front := ParseRedirection();
      var str := ParseString();
      if redir.None? && str.None? { return None, []; }
      if redir.Some? { NoString(G.ParseRedirection(SkipSpaces(old(Rest()))).rest); }
      var rest, back := ParseArguments();
      var arg := if redir.Some? then redir.value.tree else Str(str.value.tree);
      var error := redir.Some? && redir.value.error;
      error := error || (str.Some? && str.value.error);
      error := error || (rest.Some? && rest.value.error);
      var heredocs := ConcatHeredocs(redir, rest, front, back);
      nodes := front + back;
      node := Some(Ast(Arguments(arg, if rest.Some? then Some(rest.value.tree) else None), error, heredocs));
    }

    /** A command is its arguments; the node of the command passes on their error and their
        here-documents. */
    method ParseCommand() returns (node: Option<Ast<Arguments>>, ghost nodes: seq<Hdoc>)
      requires Ready()
      modifies this
      ensures Ready()
      ensures Agrees(node, G.ParseArguments(old(Rest())), Rest())
      ensures forall n <- nodes :: fresh(n)
      ensures if node.Some? then Chain(node.value.heredocs, nodes)
              && Listed(nodes) == ArgumentsHeredocs(node.value.tree) else nodes == []
    {
      node, nodes := ParseArguments();
    }

    method ParsePiped() returns (node: Option<Ast<Piped>>, ghost nodes: seq<Hdoc>)
      requires Ready()
      modifies this
      ensures Ready()
      ensures Agrees(node, G.ParsePiped(old(Rest())), Rest())
      ensures forall n <- nodes :: fresh(n)
      ensures if node.Some? then Chain(node.value.heredocs, nodes) && Listed(nodes) == PipedHeredocs(node.value.tree)
              else nodes == []
      decreases |tokens| - pos
    {
      hide Run, Ended, Items, SkipSpaces, G.ParseArguments, Chain, Listed, ArgumentsHeredocs;
      var cmd, front := ParseCommand();
      if cmd.None? { return None, []; }
      var rest: Option<Ast<Piped>> := None;
      ghost var back: seq<Hdoc> := [];
      var error := false;
      ParseSkipSpaces();
      if tok.kind == Pipe {
        GetToken();
        ParseSkipSpaces();
        rest, back := ParsePiped();
        error := rest.None?;
      }
      error := error || cmd.value.error;
      error := error || (rest.Some? && rest.value.error);
      var heredocs := ConcatHeredocs(cmd, rest, front, back);
      nodes := front + back;
      node := Some(Ast(Piped(cmd.value.tree, if rest.Some? then Some(rest.value.tree) else None), error, heredocs));
    }

    /** The delimiter is left as the current token. */
    method ParseDelimiter() returns (found: bool)
      requires Ready()
      modifies this
      ensures Ready() && Rest() == SkipSpaces(old(Rest())) && found == (tok.kind == Semicolon)
    {
      ParseSkipSpaces();
      return tok.kind == Semicolon;
    }

    method ParseSequential() returns (node: Option<Ast<Sequential>>, ghost nodes: seq<Hdoc>)
      requires Ready()
      modifies this
      ensures Ready()
      ensures Agrees(node, G.ParseSequential(old(Rest())), Rest())
      ensures forall n <- nodes :: fresh(n)
      ensures if node.Some? then Chain(node.value.heredocs, nodes)
              && Listed(nodes) == SequentialHeredocs(node.value.tree) else nodes == []
      decreases |tokens| - pos
    {
      hide Run, Ended, Items, SkipSpaces, G.ParsePiped, Chain, Listed, PipedHeredocs;
      ParseSkipSpaces();
      var piped, front := ParsePiped();
      if piped.None? { return None, []; }
      var delimiter := ParseDelimiter();
      var rest: Option<Ast<Sequential>> := None;
      ghost var back: seq<Hdoc> := [];
      if delimiter {
        GetToken();
        ParseSkipSpaces();
        rest, back := ParseSequential();
      }
      var error := piped.value.error;
      error := error || (rest.Some? && rest.value.error);
      var heredocs := ConcatHeredocs(piped, rest, front, back);
      nodes := front + back;
      node := Some(Ast(Sequential(piped.value.tree, delimiter, if rest.Some? then Some(rest.value.tree) else None),
          error, heredocs));
    }

    /** Main result: a tree is returned exactly when the tokens are a line of the grammar; it is
        the one tree of the line, and its list of here-documents, spliced in place on the way,
        holds every "<<" redirection of the line from left to right. */
    method ParseCommandLine() returns (node: Option<Ast<Sequential>>, ghost nodes: seq<Hdoc>)
      requires Ready()
      modifies this
      ensures Ready()
      ensures node.Some? <==> exists t ::
                SequentialFormed(t) && Items(old(Rest())) == SequentialYield(t) + [Op(Newline, 0)]
      ensures node.Some? ==>
                && !node.value.error
                && SequentialFormed(node.value.tree)
                && Items(old(Rest())) == SequentialYield(node.value.tree) + [Op(Newline, 0)]
                && Chain(node.value.heredocs, nodes)
                && Listed(nodes) == SequentialHeredocs(node.value.tree)
    {
      hide Run, Ended, Items, SkipSpaces, G.ParseSequential, Chain, Listed, SequentialHeredocs, SequentialFormed,
          SequentialYield;
      ghost var ts := Rest();
      forall t ensures G.ParseCommandLine(ts) == Some(t)
          <==> SequentialFormed(t) && Items(ts) == SequentialYield(t) + [Op(Newline, 0)] {
        CommandLineExact(ts, t);
      }
      ghost var r := G.ParseCommandLine(ts);
      assert r.Some? <==> exists t :: SequentialFormed(t) && Items(ts) == SequentialYield(t) + [Op(Newline, 0)] by {
        if r.Some? { assert SequentialFormed(r.value); }
      }
      var seqcmd, list := ParseSequential();
      if seqcmd.None? { return None, []; }
      ParseSkipSpaces();
      if tok.kind != Newline { return None, []; }
      var error := seqcmd.value.error;
      if error { return None, []; }
      assert r == Some(seqcmd.value.tree);
      node, nodes := Some(Ast(seqcmd.value.tree, error, seqcmd.value.heredocs)), list;
    }
  }
}
