/** The here-documents of a line of minishell are its "<<" operators with the words behind them. */
module MiniHeredocs {
  import opened CStrings
  import opened G = MiniGrammar

  predicate IsHere(i: Item) { i.Op? && i.kind == HereDocument }

  /** Every "<<" with its descriptor and the word behind it. */
  function Here(items: seq<Item>): seq<Arg> {
    if items == [] then []
    else if IsHere(items[0]) && |items| > 1 && items[1].Word? then
      [Redir(HereDocument, items[0].fd, items[1].parts)] + Here(items[2..])
    else Here(items[1..])
  }

  lemma {:induction false} HereAppend(a: seq<Item>, b: seq<Item>)
    requires a == [] || !IsHere(a[|a| - 1])
    ensures Here(a + b) == Here(a) + Here(b)
    decreases |a|
  {
    if a == [] {
      assert a + b == b;
    } else {
      var c := a + b;
      assert c[0] == a[0] && c[1..] == a[1..] + b;
      if IsHere(a[0]) && |a| > 1 && a[1].Word? {
        assert c[1] == a[1] && c[2..] == a[2..] + b;
        HereAppend(a[2..], b);
        var first := [Redir(HereDocument, a[0].fd, a[1].parts)];
        assert first + (Here(a[2..]) + Here(b)) == first + Here(a[2..]) + Here(b);
      } else {
        HereAppend(a[1..], b);
        assert |a| > 1 ==> c[1] == a[1];
      }
    }
  }

  lemma NotHere(kind: TokenType)
    requires kind != HereDocument
    ensures Here([Op(kind, 0)]) == [] && Here([]) == []
  {
    assert [Op(kind, 0)][1..] == [];
  }

  lemma {:induction false} ArgumentsHere(a: Arguments)
    ensures Here(ArgumentsYield(a)) == ArgumentsHeredocs(a) && ArgumentsYield(a)[|ArgumentsYield(a)| - 1].Word?
    decreases a
  {
    ArgHere(a.arg);
    if a.rest.Some? {
      ArgumentsHere(a.rest.value);
      HereAppend(ArgYield(a.arg), ArgumentsYield(a.rest.value));
    } else {
      assert ArgYield(a.arg) + [] == ArgYield(a.arg) && ArgHeredocs(a.arg) + [] == ArgHeredocs(a.arg);
    }
  }

  lemma ArgHere(a: Arg)
    ensures Here(ArgYield(a)) == ArgHeredocs(a) && |ArgYield(a)| > 0 && ArgYield(a)[|ArgYield(a)| - 1].Word?
  {
    var items := ArgYield(a);
    assert Here([]) == [];
    if a.Redir? {
      assert items[0] == Op(a.kind, a.fd) && items[1] == Word(a.word);
      assert items[2..] == [] && items[1..] == [Word(a.word)];
      WordHere(a.word);
    } else {
      WordHere(a.parts);
    }
  }

  lemma WordHere(parts: seq<Token>)
    ensures Here([Word(parts)]) == []
  {
    assert [Word(parts)][1..] == [];
  }

  lemma {:induction false} PipedHere(p: Piped)
    ensures Here(PipedYield(p)) == PipedHeredocs(p) && |PipedYield(p)| > 0 && PipedYield(p)[|PipedYield(p)| - 1].Word?
    decreases p
  {
    var front := ArgumentsYield(p.command);
    ArgumentsHere(p.command);
    if p.next.Some? {
      var rest := PipedYield(p.next.value);
      PipedHere(p.next.value);
      HereAppend([Op(Pipe, 0)], rest);
      HereAppend(front, [Op(Pipe, 0)] + rest);
      assert [Op(Pipe, 0)][1..] == [];
      assert front + ([Op(Pipe, 0)] + rest) == PipedYield(p);
    } else {
      assert front + [] == front;
    }
  }

  /** The here-documents of a tree, from left to right, are those of its leaves. */
  lemma {:induction false} HeredocsOfLeaves(s: Sequential)
    ensures SequentialHeredocs(s) == Here(SequentialYield(s))
    decreases s
  {
    hide Here, IsHere, PipedHeredocs, PipedYield;
    var front := PipedYield(s.piped);
    var middle := if s.delimiter then [Op(Semicolon, 0)] else [];
    PipedHere(s.piped);
    NotHere(Semicolon);
    EndsQuietly(front[|front| - 1]);
    EndsQuietly(Op(Semicolon, 0));
    var rest := if s.rest.Some? then SequentialYield(s.rest.value) else [];
    if s.rest.Some? { HeredocsOfLeaves(s.rest.value); }
    HereAppend(middle, rest);
    HereAppend(front, middle + rest);
    assert SequentialYield(s) == front + middle + rest == front + (middle + rest);
    assert Here(front) + (Here(middle) + Here(rest)) == Here(front) + Here(rest);
  }

  lemma EndsQuietly(i: Item)
    requires i.Word? || i == Op(Semicolon, 0)
    ensures !IsHere(i)
  {
  }
}
