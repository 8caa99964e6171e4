/** The inverse of brace expansion: bash/bracecomp.c:47-148 writes a sorted list of names as one
    word with braces, factoring out common prefixes; expanding it gives the list back. */
module BraceCompletion {
  import opened CStrings
  import opened BraceScan
  import opened Braces
  import opened BraceWords

  // ---- backslash quoting (lib/sh/shquote.c:43-83 and 257-306) ----

  /** Characters that are quoted wherever they stand. */
  predicate MustQuote(c: char) {
    c == '\t' || c == '\n' || c == ' ' || c == '!' || c == '"' || c == '$' || c == '&' || c == '\'' || c == '(' ||
    c == ')' || c == '*' || c == ',' || c == ';' || c == '<' || c == '>' || c == '?' || c == '[' || c == '\\' ||
    c == ']' || c == '^' || c == '`' || c == '{' || c == '|' || c == '}'
  }

  function QuotePiece(c: char, first: bool): Piece {
    if MustQuote(c) || (first && c == '#') then Escaped(c) else Char(c)
  }

  function QuoteUnit(c: char, first: bool): string {
    Unit(QuotePiece(c, first))
  }

  /** sh_backslash_quote; first says that s starts the string. */
  function QuoteFrom(s: string, first: bool): string {
    if s == "" then "" else QuoteUnit(s[0], first) + QuoteFrom(s[1..], false)
  }

  function Quote(s: string): string { QuoteFrom(s, true) }

  /** Quote removal. */
  function Unquote(s: string): string {
    if s == "" then ""
    else if s[0] == '\\' && |s| > 1 then [s[1]] + Unquote(s[2..])
    else [s[0]] + Unquote(s[1..])
  }

  lemma {:induction false} UnquoteQuote(s: string, first: bool, rest: string)
    ensures Unquote(QuoteFrom(s, first) + rest) == s + Unquote(rest)
  {
    hide Unquote, QuoteUnit;
    if s == "" {
      assert QuoteFrom(s, first) + rest == rest;
    } else {
      var u, r := QuoteUnit(s[0], first), QuoteFrom(s[1..], false) + rest;
      assert QuoteFrom(s, first) + rest == u + r;
      UnquoteUnit(s[0], first, r);
      UnquoteQuote(s[1..], false, rest);
    }
  }

  lemma UnquoteUnit(c: char, first: bool, r: string)
    ensures Unquote(QuoteUnit(c, first) + r) == [c] + Unquote(r)
  {
    var u := QuoteUnit(c, first);
    assert u == ['\\', c] || (u == [c] && c != '\\') by { QuoteUnitIs(c, first); }
    assert (u + r)[|u|..] == r;
  }

  lemma QuoteUnitIs(c: char, first: bool)
    ensures QuoteUnit(c, first) == if MustQuote(c) || (first && c == '#') then ['\\', c] else [c]
    ensures !MustQuote(c) ==> c != '\\'
  {
  }

  method BackslashQuote(s: string) returns (r: string)
    ensures r == Quote(s)
  {
    hide MustQuote, QuoteUnit, QuoteFrom;
    r := "";
    assert s[0..] == s;
    for i := 0 to |s|
      invariant Quote(s) == r + QuoteFrom(s[i..], i == 0)
    {
      var c := s[i];
      ghost var before, unit := r, QuoteUnit(c, i == 0);
      QuoteUnitIs(c, i == 0);
      QuoteStep(s[i..], i == 0);
      assert s[i..][1..] == s[i + 1..];
      if MustQuote(c) || (c == '#' && i == 0) {
        r := r + ['\\'];
      }
      r := r + [c];
      assert r == before + unit;
    }
    QuoteEnd(s[|s|..], |s| == 0);
  }

  lemma QuoteStep(s: string, first: bool)
    requires s != ""
    ensures QuoteFrom(s, first) == QuoteUnit(s[0], first) + QuoteFrom(s[1..], false)
  {
  }

  lemma QuoteEnd(s: string, first: bool)
    requires s == ""
    ensures QuoteFrom(s, first) == ""
  {
  }

  /** Which characters get a backslash: blanks and the metacharacters of the shell, and at the start of a
      string "#" as well. */
  lemma QuotedCharacters(c: char, s: string)
    ensures QuoteFrom([c] + s, false)
            == (if c in "\t\n !\"$&'()*,;<>?[\\]^`{|}" then ['\\', c] else [c]) + QuoteFrom(s, false)
    ensures Quote([c] + s) == if c == '#' then ['\\', c] + QuoteFrom(s, false) else QuoteFrom([c] + s, false)
  {
    hide Unit;
    assert ([c] + s)[1..] == s;
    QuoteUnitIs(c, false);
    QuoteUnitIs(c, true);
  }

  // ---- sorted names and common prefixes ----

  predicate Bytes(s: string) { forall i :: 0 <= i < |s| ==> s[i] as int < 256 }

  /** The order of strcmp. */
  predicate LexLe(a: string, b: string) {
    a == "" || (b != "" && (a[0] < b[0] || (a[0] == b[0] && LexLe(a[1..], b[1..]))))
  }

  /** The first byte of a name as the C type char, which is signed on many machines; an empty name
      has the byte that ends it. */
  function FirstByte(s: string, signed: bool): int {
    if s == "" then 0 else if signed && s[0] as int >= 128 then s[0] as int - 256 else s[0] as int
  }

  /** The order of _strcompare, by which the names are sorted: the first bytes decide as char, and
      strcmp between names that begin alike. */
  predicate StrLe(a: string, b: string, signed: bool) {
    FirstByte(a, signed) < FirstByte(b, signed) || (FirstByte(a, signed) == FirstByte(b, signed) && LexLe(a, b))
  }

  /** It is an order of all names, */
  lemma NameOrder(a: string, b: string, c: string, signed: bool)
    ensures StrLe(a, b, signed) || StrLe(b, a, signed)
    ensures StrLe(a, b, signed) && StrLe(b, a, signed) ==> a == b
    ensures StrLe(a, b, signed) && StrLe(b, c, signed) ==> StrLe(a, c, signed)
  {
    hide FirstByte;
    LexOrder(a, b, c);
  }

  lemma {:induction false} LexOrder(a: string, b: string, c: string)
    ensures LexLe(a, b) || LexLe(b, a)
    ensures LexLe(a, b) && LexLe(b, a) ==> a == b
    ensures LexLe(a, b) && LexLe(b, c) ==> LexLe(a, c)
    decreases |a|
  {
    if a != "" && b != "" {
      LexOrder(a[1..], b[1..], if c == "" then c else c[1..]);
      assert a == [a[0]] + a[1..] && b == [b[0]] + b[1..];
    }
  }

  /** and where the first bytes differ, those from 0x80 on come first if char is signed, also in front of
      the empty name. */
  lemma FirstBytesOrder(c: char, s: string, d: char, t: string, signed: bool)
    requires c != d && c <= '\U{ff}' && d <= '\U{ff}'
    ensures StrLe([c] + s, [d] + t, signed) ==
              if signed && (c >= '\U{80}') != (d >= '\U{80}') then c >= '\U{80}' else c < d
    ensures StrLe("", [c] + s, signed) <==> !(signed && c >= '\U{80}')
  {
  }

  ghost predicate Sorted(a: seq<string>, s: nat, e: nat, signed: bool)
    requires s <= e <= |a|
  {
    forall i, j :: s <= i < j < e ==> StrLe(a[i], a[j], signed)
  }

  /** The length of the common prefix. */
  function Gcd(a: string, b: string): (n: nat)
    ensures n <= |a| && n <= |b| && a[..n] == b[..n]
    ensures n < |a| && n < |b| ==> a[n] != b[n]
  {
    if a == "" || b == "" || a[0] != b[0] then 0 else 1 + Gcd(a[1..], b[1..])
  }

  /** string_gcd. */
  method StringGcd(a: string, b: string) returns (n: nat)
    ensures n == Gcd(a, b)
  {
    n := 0;
    while n < |a| && n < |b|
      invariant n <= |a| && n <= |b| && Gcd(a, b) == n + Gcd(a[n..], b[n..])
    {
      if a[n] != b[n] {
        break;
      }
      n := n + 1;
    }
  }

  /** Along a sorted list, the common prefix with the first name never gets longer. */
  lemma {:induction false} GcdMonotone(x: string, y: string, z: string)
    requires LexLe(x, y) && LexLe(y, z)
    ensures Gcd(x, z) <= Gcd(x, y)
  {
    if Gcd(x, z) > 0 {
      GcdMonotone(x[1..], y[1..], z[1..]);
    }
  }

  // ---- the groups of names ----

  /** Names that share a prefix stand together: behind each name, the prefix shared with it never
      gets longer. */
  ghost predicate Gathered(a: seq<string>, s: nat, e: nat)
    requires s <= e <= |a|
  {
    forall i, j, k :: s <= i < j < k < e ==> Gcd(a[i], a[k]) <= Gcd(a[i], a[j])
  }

  /** Sorting gathers the names, whether char is signed or not. */
  lemma SortedGathered(a: seq<string>, s: nat, e: nat, signed: bool)
    requires s <= e <= |a| && Sorted(a, s, e, signed)
    requires forall i :: s <= i < e ==> NulFree(a[i]) && Bytes(a[i])
    ensures Gathered(a, s, e)
  {
    hide LexLe;
    forall i, j, k | s <= i < j < k < e ensures Gcd(a[i], a[k]) <= Gcd(a[i], a[j]) {
      if Gcd(a[i], a[k]) > 0 {
        assert FirstByte(a[i], signed) == FirstByte(a[j], signed) == FirstByte(a[k], signed);
        GcdMonotone(a[i], a[j], a[k]);
      }
    }
  }

  lemma GatheredPart(a: seq<string>, s: nat, e: nat, i: nat, j: nat)
    requires s <= i <= j <= e <= |a| && Gathered(a, s, e)
    ensures Gathered(a, i, j)
  {
  }

  /** The names from s to e are gathered, and agree in their first gz characters. */
  ghost predicate Grouped(a: seq<string>, s: nat, e: nat, gz: nat) {
    && s <= e <= |a|
    && Gathered(a, s, e)
    && (forall i :: s <= i < e ==> gz <= |a[i]|)
    && (forall i :: s <= i < e ==> a[i][..gz] == a[s][..gz])
  }

  /** Where the group of a[s] ends: names that share more than gz characters with a[s]. */
  function GroupEnd(a: seq<string>, s: nat, i: nat, e: nat, gz: nat): (m: nat)
    requires s < i <= e <= |a|
    ensures i <= m <= e
    ensures forall k :: i <= k < m ==> Gcd(a[s], a[k]) > gz
    ensures m < e ==> Gcd(a[s], a[m]) <= gz
    decreases e - i
  {
    if i < e && Gcd(a[s], a[i]) > gz then GroupEnd(a, s, i + 1, e, gz) else i
  }

  /** The end of the first group, seen from its first name. */
  function FirstEnd(a: seq<string>, s: nat, e: nat, gz: nat): (m: nat)
    requires s < e <= |a|
    ensures s < m <= e
  {
    GroupEnd(a, s, s + 1, e, gz)
  }

  /** How many characters the names of the group from s to e share. */
  function Shared(a: seq<string>, s: nat, e: nat): (g: nat)
    requires s < e <= |a|
  {
    if e == s + 1 then |a[s]| else Gcd(a[s], a[e - 1])
  }

  /** The first group agrees in Shared characters, which are more than gz; the rest in gz. */
  lemma GroupFacts(a: seq<string>, s: nat, e: nat, gz: nat)
    requires s < e && Grouped(a, s, e, gz)
    ensures var m := FirstEnd(a, s, e, gz);
            && Grouped(a, s, m, Shared(a, s, m)) && Grouped(a, s, m, gz) && gz <= Shared(a, s, m)
            && (m > s + 1 ==> gz < Shared(a, s, m))
            && Grouped(a, m, e, gz)
  {
    hide Gcd, Gathered;
    var m := FirstEnd(a, s, e, gz);
    GatheredPart(a, s, e, s, m);
    GatheredPart(a, s, e, m, e);
    var g := Shared(a, s, m);
    if m > s + 1 {
      assert Gcd(a[s], a[m - 1]) > gz;
      forall i | s <= i < m ensures g <= |a[i]| && a[i][..g] == a[s][..g] {
        SharedPrefix(a, s, m, i);
      }
    }
  }

  /** Every name of a group begins with what its first and its last name share. */
  lemma SharedPrefix(a: seq<string>, s: nat, m: nat, i: nat)
    requires s + 1 < m <= |a| && s <= i < m && Gathered(a, s, m)
    ensures var g := Gcd(a[s], a[m - 1]); g <= |a[i]| && a[i][..g] == a[s][..g]
  {
    hide Gcd;
    var g := Gcd(a[s], a[m - 1]);
    if s < i {
      var k := Gcd(a[s], a[i]);
      assert a[i][..g] == a[i][..k][..g] && a[s][..g] == a[s][..k][..g];
    }
  }

  /** A group of several names falls into at least two groups once its prefix is taken off. */
  lemma Splits(a: seq<string>, s: nat, e: nat)
    requires s + 1 < e && e <= |a|
    ensures FirstEnd(a, s, e, Shared(a, s, e)) < e
  {
  }

  // ---- the word for a list of names ----

  /** Quoted characters in front of a word. */
  function QuoteWord(s: string, first: bool, rest: Word): Word {
    if s == "" then rest
    else Lit(QuotePiece(s[0], first), QuoteWord(s[1..], false, rest))
  }

  lemma QuotedOrPlain(c: char)
    requires c != '\0'
    ensures MustQuote(c) || Plain(c)
  {
  }

  /** w is a part of a word wherever it stands: also behind a blank, and inside braces. */
  predicate Solid(w: Word) {
    Formed(w, true) && Formed(w, false) && Balanced(w, 0) && NulFree(Print(w)) && !HasSubst(w) &&
    (w.Nil? || !PassedOver(Print(w)))
  }

  lemma NulFreeAppend(a: string, b: string)
    ensures NulFree(a + b) <==> NulFree(a) && NulFree(b)
  {
    if NulFree(a + b) {
      forall k | 0 <= k < |a| ensures a[k] != '\0' { assert (a + b)[k] == a[k]; }
      forall k | 0 <= k < |b| ensures b[k] != '\0' { assert (a + b)[|a| + k] == b[k]; }
    }
  }

  lemma QuotedPiece(c: char, first: bool, rest: Word)
    requires c != '\0' && Solid(rest)
    ensures Solid(Lit(QuotePiece(c, first), rest))
  {
    hide NulFree, Formed, Balanced, MustQuote, Plain;
    QuotedOrPlain(c);
    var p := QuotePiece(c, first);
    var w := Lit(p, rest);
    PieceNulFree(c, first);
    NulFreeAppend(Unit(p), Print(rest));
    PieceSolid(p, rest, true);
    PieceSolid(p, rest, false);
    assert Print(w) == Unit(p) + Print(rest);
    assert Print(w)[0] == Unit(p)[0];
    PieceStart(p);
  }

  lemma PieceStart(p: Piece)
    requires p.Escaped? || (p.Char? && Plain(p.c))
    ensures !PassedOver([Unit(p)[0]])
  {
  }

  lemma PieceNulFree(c: char, first: bool)
    requires c != '\0'
    ensures NulFree(Unit(QuotePiece(c, first)))
  {
  }

  lemma PieceSolid(p: Piece, rest: Word, blank: bool)
    requires (p.Escaped? || (p.Char? && Plain(p.c))) && Formed(rest, true) && Formed(rest, false) && Balanced(rest, 0)
    ensures Formed(Lit(p, rest), blank) && Balanced(Lit(p, rest), 0)
  {
  }

  lemma {:induction false} QuoteWordSolid(s: string, first: bool, rest: Word)
    requires NulFree(s) && Solid(rest)
    ensures Solid(QuoteWord(s, first, rest))
  {
    hide Solid, QuotePiece;
    if s != "" {
      QuoteWordSolid(s[1..], false, rest);
      QuotedPiece(s[0], first, QuoteWord(s[1..], false, rest));
    }
  }

  lemma NilSolid()
    ensures Solid(Nil)
  {
  }

  /** Alternatives of which every one is solid. */
  predicate AllSolid(a: Alts) {
    match a
    case Two(w, last) => Solid(w) && Solid(last)
    case More(w, others) => Solid(w) && AllSolid(others)
  }

  lemma {:induction false} AltsSolid(a: Alts)
    requires AllSolid(a)
    ensures AllWellFormed(a) && NulFree(PrintAlts(a)) && !PassedOver(PrintAlts(a)) && !AltsHaveSubst(a)
  {
    hide NulFree, Formed, Balanced, Print;
    var tail := if a.Two? then Print(a.last) else PrintAlts(a.others);
    if a.More? { AltsSolid(a.others); }
    NulFreeAppend(",", tail);
    NulFreeAppend(Print(a.w), "," + tail);
    assert NulFree(",") by { CommaNulFree(); }
    if a.w.Nil? { PrintNil(); }
    AltsStart(Print(a.w), tail);
  }

  lemma CommaNulFree()
    ensures NulFree(",") && NulFree("{") && NulFree("}")
  {
  }

  lemma AltsStart(s: string, tail: string)
    requires s == "" || !PassedOver(s)
    ensures !PassedOver(s + ("," + tail))
  {
  }

  lemma GroupSolid(a: Alts)
    requires AllSolid(a)
    ensures Solid(Group(a, Nil))
  {
    hide NulFree, AllWellFormed, PrintAlts, AllSolid;
    AltsSolid(a);
    CommaNulFree();
    assert Print(Group(a, Nil)) == "{" + (PrintAlts(a) + ("}" + "")) && "}" + "" == "}";
    NulFreeAppend(PrintAlts(a), "}");
    NulFreeAppend("{", PrintAlts(a) + "}");
    var w := Group(a, Nil);
    assert Print(w) == "{" + (PrintAlts(a) + "}") && Print(w)[0] == '{';
    assert !HasSubst(Nil) && !HasSubst(w);
    assert Formed(Nil, true) && Formed(w, true) && Formed(w, false) && Balanced(w, 0);
  }

  lemma {:induction false} QuoteWordPrint(s: string, first: bool, rest: Word)
    ensures Print(QuoteWord(s, first, rest)) == QuoteFrom(s, first) + Print(rest)
  {
    hide MustQuote;
    if s != "" {
      QuoteWordPrint(s[1..], false, rest);
      var u := QuoteUnit(s[0], first);
      assert u + (QuoteFrom(s[1..], false) + Print(rest)) == u + QuoteFrom(s[1..], false) + Print(rest);
    }
  }

  /** The word for the group from s to e, of whose names gz characters are already written. */
  function GroupWord(a: seq<string>, s: nat, e: nat, gz: nat): Word
    requires s < e && Grouped(a, s, e, gz) && gz <= Shared(a, s, e)
    requires e > s + 1 ==> gz < Shared(a, s, e) && Grouped(a, s, e, Shared(a, s, e))
    decreases e - s, |a[s]| - gz, 0
  {
    if e == s + 1 then QuoteWord(a[s][gz..], true, Nil)
    else
      var g := Shared(a, s, e);
      Splits(a, s, e);
      QuoteWord(a[s][gz..g], true, Group(GroupAlts(a, s, e, g), Nil))
  }

  /** The alternatives for the groups from s to e. */
  function GroupAlts(a: seq<string>, s: nat, e: nat, gz: nat): Alts
    requires s < e && Grouped(a, s, e, gz) && FirstEnd(a, s, e, gz) < e
    decreases e - s, |a[s]| - gz, 1
  {
    var m := FirstEnd(a, s, e, gz);
    GroupFacts(a, s, e, gz);
    GroupFacts(a, m, e, gz);
    var w := GroupWord(a, s, m, gz);
    if FirstEnd(a, m, e, gz) == e then Two(w, GroupWord(a, m, e, gz))
    else More(w, GroupAlts(a, m, e, gz))
  }

  /** What the printer writes for the groups from s to e: their words, with a comma behind each. */
  function GroupTexts(a: seq<string>, s: nat, e: nat, gz: nat): string
    requires Grouped(a, s, e, gz)
    decreases e - s
  {
    if s == e then ""
    else
      var m := FirstEnd(a, s, e, gz);
      GroupFacts(a, s, e, gz);
      Print(GroupWord(a, s, m, gz)) + "," + GroupTexts(a, m, e, gz)
  }

  lemma CommaBehind(x: string, y: string)
    ensures x + "," + (y + ",") == (x + ("," + y)) + ","
    ensures (y + ",") + "" == y + ","
  {
  }

  lemma {:induction false} TextsAreAlts(a: seq<string>, s: nat, e: nat, gz: nat)
    requires s < e && Grouped(a, s, e, gz) && FirstEnd(a, s, e, gz) < e
    ensures GroupTexts(a, s, e, gz) == PrintAlts(GroupAlts(a, s, e, gz)) + ","
    decreases e - s
  {
    hide GroupWord, Print, FirstEnd, Gathered;
    var m := FirstEnd(a, s, e, gz);
    GroupFacts(a, s, e, gz);
    GroupFacts(a, m, e, gz);
    if FirstEnd(a, m, e, gz) < e {
      TextsAreAlts(a, m, e, gz);
      CommaBehind(Print(GroupWord(a, s, m, gz)), PrintAlts(GroupAlts(a, m, e, gz)));
    } else {
      assert GroupTexts(a, e, e, gz) == "";
      CommaBehind(Print(GroupWord(a, s, m, gz)), Print(GroupWord(a, m, e, gz)));
    }
  }

  // ---- what the word denotes ----

  function Unquoted(list: seq<string>): (r: seq<string>)
    ensures |r| == |list| && forall k :: 0 <= k < |list| ==> r[k] == Unquote(list[k])
  {
    seq(|list|, k requires 0 <= k < |list| => Unquote(list[k]))
  }

  /** The names from s to e without their first gz characters. */
  function Suffixes(a: seq<string>, s: nat, e: nat, gz: nat): (r: seq<string>)
    requires s <= e <= |a| && forall i :: s <= i < e ==> gz <= |a[i]|
    ensures |r| == e - s && forall k :: 0 <= k < e - s ==> r[k] == a[s + k][gz..]
  {
    seq(e - s, k requires 0 <= k < e - s => a[s + k][gz..])
  }

  lemma {:induction false} QuoteWordDenote(s: string, first: bool, w: Word)
    ensures Denote(QuoteWord(s, first, w)) == Prefixed(QuoteFrom(s, first), Denote(w))
  {
    hide MustQuote;
    if s != "" {
      QuoteWordDenote(s[1..], false, w);
      PrefixedTwice(QuoteUnit(s[0], first), QuoteFrom(s[1..], false), Denote(w));
    } else {
      forall k | 0 <= k < |Denote(w)| ensures "" + Denote(w)[k] == Denote(w)[k] { }
      assert Prefixed("", Denote(w)) == Denote(w);
    }
  }

  lemma UnquotedWord(s: string, w: Word)
    ensures Unquoted(Denote(QuoteWord(s, true, w))) == Prefixed(s, Unquoted(Denote(w)))
  {
    hide QuoteFrom, Unquote, Denote, QuoteWord;
    QuoteWordDenote(s, true, w);
    var d := Denote(w);
    forall k | 0 <= k < |d| ensures Unquote(QuoteFrom(s, true) + d[k]) == s + Unquote(d[k]) {
      UnquoteQuote(s, true, d[k]);
    }
  }

  lemma {:induction false} WordDenotes(a: seq<string>, s: nat, e: nat, gz: nat)
    requires s < e && Grouped(a, s, e, gz) && gz <= Shared(a, s, e)
    requires e > s + 1 ==> gz < Shared(a, s, e) && Grouped(a, s, e, Shared(a, s, e))
    ensures Unquoted(Denote(GroupWord(a, s, e, gz))) == Suffixes(a, s, e, gz)
    decreases e - s, |a[s]| - gz, 0
  {
    hide Denote, QuoteWord, Unquote, FirstEnd, GroupAlts, Gcd, Gathered;
    if e == s + 1 {
      var x := a[s][gz..];
      UnquotedWord(x, Nil);
      DenoteNil();
      assert x + "" == x;
      assert Prefixed(x, [""]) == [x] && Suffixes(a, s, e, gz) == [x];
    } else {
      var g := Shared(a, s, e);
      Splits(a, s, e);
      AltsDenote(a, s, e, g);
      var alts := GroupAlts(a, s, e, g);
      DenoteGroup(alts);
      UnquotedWord(a[s][gz..g], Group(alts, Nil));
      SharedTail(a, s, e, gz, g);
    }
  }

  lemma SharedTail(a: seq<string>, s: nat, e: nat, gz: nat, g: nat)
    requires s < e && Grouped(a, s, e, g) && gz <= g && forall i :: s <= i < e ==> gz <= |a[i]|
    ensures Prefixed(a[s][gz..g], Suffixes(a, s, e, g)) == Suffixes(a, s, e, gz)
  {
    var p, t, r := a[s][gz..g], Suffixes(a, s, e, g), Suffixes(a, s, e, gz);
    forall k | 0 <= k < e - s ensures p + t[k] == r[k] {
      assert a[s + k][..g] == a[s][..g];
      assert a[s + k][gz..] == a[s + k][..g][gz..] + a[s + k][g..];
      assert a[s][..g][gz..] == a[s][gz..g];
    }
  }

  lemma DenoteNil()
    ensures Unquoted(Denote(Nil)) == [""]
  {
  }

  lemma DenoteGroup(alts: Alts)
    ensures Denote(Group(alts, Nil)) == DenoteAlts(alts)
  {
    ProductUnit(DenoteAlts(alts));
  }

  lemma {:induction false} AltsDenote(a: seq<string>, s: nat, e: nat, gz: nat)
    requires s < e && Grouped(a, s, e, gz) && FirstEnd(a, s, e, gz) < e
    ensures Unquoted(DenoteAlts(GroupAlts(a, s, e, gz))) == Suffixes(a, s, e, gz)
    decreases e - s, |a[s]| - gz, 1
  {
    hide Denote, QuoteWord, Unquote, FirstEnd, GroupWord, Gcd, Gathered;
    var m := FirstEnd(a, s, e, gz);
    GroupFacts(a, s, e, gz);
    GroupFacts(a, m, e, gz);
    WordDenotes(a, s, m, gz);
    if FirstEnd(a, m, e, gz) == e {
      WordDenotes(a, m, e, gz);
    } else {
      AltsDenote(a, m, e, gz);
    }
  }

  lemma {:induction false} WordSolid(a: seq<string>, s: nat, e: nat, gz: nat)
    requires s < e && Grouped(a, s, e, gz) && gz <= Shared(a, s, e)
    requires e > s + 1 ==> gz < Shared(a, s, e) && Grouped(a, s, e, Shared(a, s, e))
    requires forall i :: s <= i < e ==> NulFree(a[i])
    ensures Solid(GroupWord(a, s, e, gz))
    decreases e - s, |a[s]| - gz, 0
  {
    hide QuoteWord, FirstEnd, GroupAlts, Gcd, Solid, Gathered;
    if e == s + 1 {
      NilSolid();
      QuoteWordSolid(a[s][gz..], true, Nil);
    } else {
      var g := Shared(a, s, e);
      Splits(a, s, e);
      GroupsSolid(a, s, e, g);
      GroupSolid(GroupAlts(a, s, e, g));
      QuoteWordSolid(a[s][gz..g], true, Group(GroupAlts(a, s, e, g), Nil));
    }
  }

  lemma {:induction false} GroupsSolid(a: seq<string>, s: nat, e: nat, gz: nat)
    requires s < e && Grouped(a, s, e, gz) && FirstEnd(a, s, e, gz) < e
    requires forall i :: s <= i < e ==> NulFree(a[i])
    ensures AllSolid(GroupAlts(a, s, e, gz))
    decreases e - s, |a[s]| - gz, 1
  {
    hide QuoteWord, FirstEnd, GroupWord, Gcd, Solid, Gathered;
    var m := FirstEnd(a, s, e, gz);
    GroupFacts(a, s, e, gz);
    GroupFacts(a, m, e, gz);
    WordSolid(a, s, m, gz);
    if FirstEnd(a, m, e, gz) == e {
      WordSolid(a, m, e, gz);
    } else {
      GroupsSolid(a, m, e, gz);
    }
  }

  // ---- the printer and the round trip ----

  /** The whole list as one word: a common prefix is written once, otherwise braces enclose all. */
  function TopWord(a: seq<string>, s: nat, e: nat): Word
    requires s < e && Grouped(a, s, e, 0)
  {
    GroupFacts(a, s, e, 0);
    if FirstEnd(a, s, e, 0) == e then GroupWord(a, s, e, 0) else Group(GroupAlts(a, s, e, 0), Nil)
  }

  lemma TopDenotes(a: seq<string>, s: nat, e: nat)
    requires s < e && Grouped(a, s, e, 0) && forall i :: s <= i < e ==> NulFree(a[i])
    ensures WellFormed(TopWord(a, s, e)) && NulFree(Print(TopWord(a, s, e))) && !HasSubst(TopWord(a, s, e))
    ensures Unquoted(Denote(TopWord(a, s, e))) == a[s..e]
  {
    hide FirstEnd, GroupWord, GroupAlts, Denote, Unquote, Gcd, Gathered, Solid, NulFree, Print, Formed;
    GroupFacts(a, s, e, 0);
    forall k | 0 <= k < e - s ensures a[s + k][0..] == a[s..e][k] { }
    assert Suffixes(a, s, e, 0) == a[s..e];
    SolidWellFormed(TopWord(a, s, e));
    if FirstEnd(a, s, e, 0) == e {
      WordDenotes(a, s, e, 0);
      WordSolid(a, s, e, 0);
    } else {
      AltsDenote(a, s, e, 0);
      GroupsSolid(a, s, e, 0);
      GroupSolid(GroupAlts(a, s, e, 0));
      DenoteGroup(GroupAlts(a, s, e, 0));
    }
  }

  lemma SolidWellFormed(w: Word)
    ensures Solid(w) ==> WellFormed(w) && NulFree(Print(w)) && !HasSubst(w)
  {
  }

  /** Printer and parser undo each other: expanding the braces and removing the quotes gives back
      every list in which names with a common prefix stand together, in its order and with duplicates,
      whatever characters the names contain. */
  lemma RoundTrip(sub: Substitution, a: seq<string>, s: nat, e: nat)
    requires s < e <= |a| && Gathered(a, s, e) && forall i :: s <= i < e ==> NulFree(a[i])
    ensures Grouped(a, s, e, 0) && Unquoted(Expand(sub, Print(TopWord(a, s, e)))) == a[s..e]
  {
    hide Expand, TopWord, Denote;
    TopDenotes(a, s, e);
    NoneKnown(sub, TopWord(a, s, e));
    ExpandPrinted(sub, TopWord(a, s, e));
  }

  /** hack_braces_completion: whatever order the sort gives to names that compare equal, and whether
      char is signed or not, the word that replaces the names stands for exactly these names. */
  lemma SortedRoundTrip(sub: Substitution, names: seq<string>, sorted: seq<string>, signed: bool)
    requires names != [] && multiset(sorted) == multiset(names) && Sorted(sorted, 0, |sorted|, signed)
    requires forall x <- names :: NulFree(x) && Bytes(x)
    ensures |sorted| > 0 && Grouped(sorted, 0, |sorted|, 0)
    ensures var list := Unquoted(Expand(sub, Print(TopWord(sorted, 0, |sorted|))));
            list == sorted && multiset(list) == multiset(names)
  {
    hide Grouped, Gathered, Sorted, Expand, TopWord, NulFree, Bytes;
    forall i | 0 <= i < |sorted| ensures NulFree(sorted[i]) && Bytes(sorted[i]) {
      assert sorted[i] in multiset(sorted);
      assert sorted[i] in names;
    }
    assert |multiset(sorted)| == |multiset(names)|;
    SortedGathered(sorted, 0, |sorted|, signed);
    RoundTrip(sub, sorted, 0, |sorted|);
    assert sorted[0..|sorted|] == sorted;
  }

  /** Backslash quoting protects any text from brace expansion; this is what is printed where there
      is only one name. */
  lemma QuotedText(sub: Substitution, x: string)
    requires NulFree(x)
    ensures Expand(sub, Quote(x)) == [Quote(x)] && Unquote(Quote(x)) == x
  {
    hide Expand, Denote, Print, QuoteFrom;
    var w := QuoteWord(x, true, Nil);
    NilSolid();
    QuoteWordSolid(x, true, Nil);
    SolidWellFormed(w);
    QuoteWordPrint(x, true, Nil);
    PrintNil();
    assert Print(w) == Quote(x) + "" == Quote(x);
    NoneKnown(sub, w);
    ExpandPrinted(sub, w);
    QuoteWordDenote(x, true, Nil);
    DenoteIsEmpty();
    assert Prefixed(Quote(x), [""]) == [Quote(x)] by { assert Quote(x) + "" == Quote(x); }
    UnquoteQuote(x, true, "");
    assert x + "" == x && Unquote("") == "";
  }

  lemma DenoteIsEmpty()
    ensures Denote(Nil) == [""]
  {
  }

  // ---- nothing is left to be factored out ----

  /** The piece that a word begins with. */
  function FirstPiece(w: Word): Option<Piece> { if w.Lit? then Some(w.piece) else None }

  /** No two alternatives next to each other begin with the same piece. */
  predicate Apart(a: Alts) {
    match a
    case Two(w, last) => FirstPiece(w) == None || FirstPiece(w) != FirstPiece(last)
    case More(w, others) => (FirstPiece(w) == None || FirstPiece(w) != FirstPiece(others.w)) && Apart(others)
  }

  predicate Factored(w: Word) {
    match w
    case Nil => true
    case Lit(_, rest) => Factored(rest)
    case Group(alts, rest) => Apart(alts) && AllFactored(alts) && Factored(rest)
    case Range(_, _, _, rest) => Factored(rest)
  }

  predicate AllFactored(a: Alts) {
    match a
    case Two(w, last) => Factored(w) && Factored(last)
    case More(w, others) => Factored(w) && AllFactored(others)
  }

  lemma {:induction false} QuoteWordFactored(s: string, first: bool, rest: Word)
    ensures Factored(QuoteWord(s, first, rest)) == Factored(rest)
    ensures s != "" ==> FirstPiece(QuoteWord(s, first, rest)) == Some(QuotePiece(s[0], first))
  {
    if s != "" { QuoteWordFactored(s[1..], false, rest); }
  }

  /** What the word for a group begins with. */
  lemma GroupStart(a: seq<string>, s: nat, e: nat, gz: nat)
    requires s < e && Grouped(a, s, e, gz) && gz <= Shared(a, s, e)
    requires e > s + 1 ==> gz < Shared(a, s, e) && Grouped(a, s, e, Shared(a, s, e))
    ensures FirstPiece(GroupWord(a, s, e, gz)) == if |a[s]| > gz then Some(QuotePiece(a[s][gz], true)) else None
  {
    hide QuotePiece, Gathered, FirstEnd, GroupAlts, Gcd;
    if e == s + 1 {
      QuoteWordFactored(a[s][gz..], true, Nil);
    } else {
      var g := Shared(a, s, e);
      Splits(a, s, e);
      QuoteWordFactored(a[s][gz..g], true, Group(GroupAlts(a, s, e, g), Nil));
      assert a[s][gz..g][0] == a[s][gz];
    }
  }

  /** The first names of neighbouring groups differ behind the common prefix. */
  lemma GroupsApart(a: seq<string>, s: nat, e: nat, gz: nat)
    requires s < e && Grouped(a, s, e, gz) && FirstEnd(a, s, e, gz) < e
    ensures var m := FirstEnd(a, s, e, gz);
            |a[s]| > gz && |a[m]| > gz ==> QuotePiece(a[s][gz], true) != QuotePiece(a[m][gz], true)
  {
    hide Gathered, MustQuote;
    var m := FirstEnd(a, s, e, gz);
    var n := Gcd(a[s], a[m]);
    assert n <= gz && a[s][..gz] == a[m][..gz];
    assert n < gz ==> a[s][..gz][n] == a[m][..gz][n];
  }

  lemma {:induction false} WordFactored(a: seq<string>, s: nat, e: nat, gz: nat)
    requires s < e && Grouped(a, s, e, gz) && gz <= Shared(a, s, e)
    requires e > s + 1 ==> gz < Shared(a, s, e) && Grouped(a, s, e, Shared(a, s, e))
    ensures Factored(GroupWord(a, s, e, gz))
    decreases e - s, |a[s]| - gz, 0
  {
    hide QuoteWord, FirstEnd, GroupAlts, Gcd, Gathered, Apart;
    if e == s + 1 {
      QuoteWordFactored(a[s][gz..], true, Nil);
    } else {
      var g := Shared(a, s, e);
      Splits(a, s, e);
      GroupsFactored(a, s, e, g);
      QuoteWordFactored(a[s][gz..g], true, Group(GroupAlts(a, s, e, g), Nil));
    }
  }

  lemma {:induction false} GroupsFactored(a: seq<string>, s: nat, e: nat, gz: nat)
    requires s < e && Grouped(a, s, e, gz) && FirstEnd(a, s, e, gz) < e
    ensures AllFactored(GroupAlts(a, s, e, gz)) && Apart(GroupAlts(a, s, e, gz))
    ensures FirstPiece(GroupAlts(a, s, e, gz).w) == if |a[s]| > gz then Some(QuotePiece(a[s][gz], true)) else None
    decreases e - s, |a[s]| - gz, 1
  {
    hide QuoteWord, FirstEnd, GroupWord, Gcd, Gathered, Factored, QuotePiece;
    var m := FirstEnd(a, s, e, gz);
    GroupFacts(a, s, e, gz);
    GroupFacts(a, m, e, gz);
    WordFactored(a, s, m, gz);
    GroupStart(a, s, m, gz);
    GroupsApart(a, s, e, gz);
    if FirstEnd(a, m, e, gz) == e {
      WordFactored(a, m, e, gz);
      GroupStart(a, m, e, gz);
    } else {
      GroupsFactored(a, m, e, gz);
    }
  }

  /** The word that is printed has nothing left to factor out: no two neighbouring alternatives of any
      group in it begin alike. */
  lemma NothingToFactor(a: seq<string>, s: nat, e: nat)
    requires s < e && Grouped(a, s, e, 0)
    ensures Factored(TopWord(a, s, e))
  {
    hide FirstEnd, GroupWord, GroupAlts, Gcd, Gathered, Apart;
    GroupFacts(a, s, e, 0);
    if FirstEnd(a, s, e, 0) == e { WordFactored(a, s, e, 0); } else { GroupsFactored(a, s, e, 0); }
  }

  // ---- names that need no quoting ----

  /** Nothing in the word is quoted. */
  predicate Bare(w: Word) {
    match w
    case Nil => true
    case Lit(p, rest) => p.Char? && p.c != '\\' && Bare(rest)
    case Group(alts, rest) => AllBare(alts) && Bare(rest)
    case Range(_, _, _, _) => false
  }

  predicate AllBare(a: Alts) {
    match a
    case Two(w, last) => Bare(w) && Bare(last)
    case More(w, others) => Bare(w) && AllBare(others)
  }

  /** s contains no character that is ever quoted. */
  predicate Safe(s: string) { forall i :: 0 <= i < |s| ==> s[i] != '\0' && s[i] != '#' && !MustQuote(s[i]) }

  predicate NoBackslash(s: string) { forall i :: 0 <= i < |s| ==> s[i] != '\\' }

  ghost predicate NoBackslashes(list: seq<string>) { forall k :: 0 <= k < |list| ==> NoBackslash(list[k]) }

  lemma {:induction false} ProductBare(a: seq<string>, b: seq<string>)
    requires NoBackslashes(a) && NoBackslashes(b)
    ensures NoBackslashes(Product(a, b))
  {
    if a != [] {
      PrefixedBare(a[0], b);
      ProductBare(a[1..], b);
    }
  }

  lemma PrefixedBare(s: string, b: seq<string>)
    requires NoBackslash(s) && NoBackslashes(b)
    ensures NoBackslashes(Prefixed(s, b))
  {
  }

  lemma {:induction false} DenoteBare(w: Word)
    requires Bare(w)
    ensures NoBackslashes(Denote(w))
  {
    match w
    case Nil =>
    case Lit(p, rest) =>
      DenoteBare(rest);
      PrefixedBare([p.c], Denote(rest));
    case Group(alts, rest) =>
      AltsBare(alts);
      DenoteBare(rest);
      ProductBare(DenoteAlts(alts), Denote(rest));
    case Range(_, _, _, _) =>
  }

  lemma {:induction false} AltsBare(a: Alts)
    requires AllBare(a)
    ensures NoBackslashes(DenoteAlts(a))
  {
    DenoteBare(a.w);
    if a.Two? { DenoteBare(a.last); } else { AltsBare(a.others); }
  }

  lemma {:induction false} UnquoteBare(s: string)
    requires NoBackslash(s)
    ensures Unquote(s) == s
  {
    if s != "" { UnquoteBare(s[1..]); }
  }

  lemma {:induction false} QuoteWordBare(s: string, first: bool, rest: Word)
    requires Safe(s) && Bare(rest)
    ensures Bare(QuoteWord(s, first, rest))
  {
    if s != "" { QuoteWordBare(s[1..], false, rest); }
  }

  lemma {:induction false} WordBare(a: seq<string>, s: nat, e: nat, gz: nat)
    requires s < e && Grouped(a, s, e, gz) && gz <= Shared(a, s, e)
    requires e > s + 1 ==> gz < Shared(a, s, e) && Grouped(a, s, e, Shared(a, s, e))
    requires forall i :: s <= i < e ==> Safe(a[i])
    ensures Bare(GroupWord(a, s, e, gz))
    decreases e - s, |a[s]| - gz, 0
  {
    hide QuoteWord, FirstEnd, GroupAlts, Gcd, MustQuote;
    if e == s + 1 {
      QuoteWordBare(a[s][gz..], true, Nil);
    } else {
      var g := Shared(a, s, e);
      Splits(a, s, e);
      GroupsBare(a, s, e, g);
      QuoteWordBare(a[s][gz..g], true, Group(GroupAlts(a, s, e, g), Nil));
    }
  }

  lemma {:induction false} GroupsBare(a: seq<string>, s: nat, e: nat, gz: nat)
    requires s < e && Grouped(a, s, e, gz) && FirstEnd(a, s, e, gz) < e
    requires forall i :: s <= i < e ==> Safe(a[i])
    ensures AllBare(GroupAlts(a, s, e, gz))
    decreases e - s, |a[s]| - gz, 1
  {
    hide QuoteWord, FirstEnd, GroupWord, Gcd, Safe, Gathered;
    var m := FirstEnd(a, s, e, gz);
    GroupFacts(a, s, e, gz);
    GroupFacts(a, m, e, gz);
    WordBare(a, s, m, gz);
    if FirstEnd(a, m, e, gz) == e {
      WordBare(a, m, e, gz);
    } else {
      GroupsBare(a, m, e, gz);
    }
  }

  /** For names free of shell metacharacters, brace expansion alone gives the list back. */
  lemma RoundTripSafe(sub: Substitution, a: seq<string>, s: nat, e: nat)
    requires s < e <= |a| && Gathered(a, s, e) && forall i :: s <= i < e ==> Safe(a[i])
    ensures Grouped(a, s, e, 0) && Expand(sub, Print(TopWord(a, s, e))) == a[s..e]
  {
    hide Expand, Denote, Print, FirstEnd, GroupWord, GroupAlts, Gcd, MustQuote, Gathered;
    RoundTrip(sub, a, s, e);
    GroupFacts(a, s, e, 0);
    var w := TopWord(a, s, e);
    if FirstEnd(a, s, e, 0) == e { WordBare(a, s, e, 0); } else { GroupsBare(a, s, e, 0); }
    DenoteBare(w);
    TopDenotes(a, s, e);
    NoneKnown(sub, w);
    ExpandPrinted(sub, w);
    var d := Denote(w);
    forall k | 0 <= k < |d| ensures Unquoted(d)[k] == d[k] { UnquoteBare(d[k]); }
  }

  /** The inner loop of really_munge_braces: the last name of the group that starts at start, and
      how much its names share. */
  method NextGroup(names: seq<string>, start: nat, realEnd: nat, gcdZero: nat) returns (gcd: nat, end: nat)
    requires start < realEnd <= |names|
    ensures start <= end < realEnd && end + 1 == FirstEnd(names, start, realEnd, gcdZero)
    ensures gcd == Shared(names, start, end + 1)
  {
    gcd := |names[start]|;
    end := start + 1;
    while end < realEnd
      invariant start < end <= realEnd && gcd == Shared(names, start, end)
      invariant GroupEnd(names, start, end, realEnd, gcdZero) == FirstEnd(names, start, realEnd, gcdZero)
    {
      var temp := StringGcd(names[start], names[end]);
      if temp <= gcdZero {
        break;
      }
      gcd := temp;
      end := end + 1;
    }
    end := end - 1;
  }

  /** What is written for one group: a name, or the common prefix and the alternatives. */
  method Subterm(names: seq<string>, start: nat, end: nat, gcdZero: nat, gcd: nat) returns (subterm: string)
    requires start <= end < |names| && Grouped(names, start, end + 1, gcdZero)
    requires gcd == Shared(names, start, end + 1) && gcdZero <= gcd && Grouped(names, start, end + 1, gcd)
    requires start < end ==> gcdZero < gcd
    ensures subterm == Print(GroupWord(names, start, end + 1, gcdZero))
    decreases end + 1 - start, |names[start]| - gcdZero, 0
  {
    hide QuoteFrom, QuoteWord, FirstEnd, GroupTexts, GroupAlts, Print, Gcd, Gathered;
    if start == end {
      subterm := BackslashQuote(names[start][gcdZero..]);
      QuoteWordPrint(names[start][gcdZero..], true, Nil);
      PrintNil();
      assert subterm + "" == subterm;
    } else {
      subterm := BackslashQuote(names[start][gcdZero..gcd]);
      ghost var prefix := subterm;
      Splits(names, start, end + 1);
      TextsAreAlts(names, start, end + 1, gcd);
      var inner := ReallyMungeBraces(names, start, end + 1, gcd);
      ghost var alts := GroupAlts(names, start, end + 1, gcd);
      subterm := subterm + "{" + inner[..|inner| - 1] + "}";
      QuoteWordPrint(names[start][gcdZero..gcd], true, Group(alts, Nil));
      PrintGroup(alts);
      assert inner[..|inner| - 1] == PrintAlts(alts);
      assert subterm == prefix + ("{" + PrintAlts(alts) + "}");
    }
  }

  lemma PrintGroup(alts: Alts)
    ensures Print(Group(alts, Nil)) == "{" + PrintAlts(alts) + "}"
  {
    assert "}" + "" == "}";
  }

  /** really_munge_braces: one word for the names from realStart to realEnd, of which gcdZero
      characters are already written. */
  method ReallyMungeBraces(names: seq<string>, realStart: nat, realEnd: nat, gcdZero: nat) returns (result: string)
    requires Grouped(names, realStart, realEnd, gcdZero) && names != []
    ensures realStart < realEnd && gcdZero == 0 ==> result == Print(TopWord(names, realStart, realEnd))
    ensures realStart < realEnd && gcdZero > 0 ==> result == GroupTexts(names, realStart, realEnd, gcdZero)
    ensures realStart == realEnd ==>
              result == Quote(if realStart < |names| && gcdZero <= |names[realStart]| then names[realStart][gcdZero..]
                  else names[0])
    decreases realEnd - realStart, if realStart < realEnd then |names[realStart]| - gcdZero else 0, 2
  {
    if realStart == realEnd {
      result := BackslashQuote(
        if realStart < |names| && gcdZero <= |names[realStart]| then names[realStart][gcdZero..] else names[0]);
      return;
    }
    hide QuoteFrom, Print, GroupWord, GroupAlts, Gcd, FirstEnd, GroupTexts, TopWord;
    var flag;
    result, flag := WriteGroups(names, realStart, realEnd, gcdZero);
    ghost var all := TopText(names, realStart, realEnd, gcdZero);
    if gcdZero == 0 {
      result := result[..|result| - 1] + if flag then "}" else "";
    }
  }

  /** An opening brace in front, where there is no consistent prefix. */
  function Opened(flag: bool, s: string): string { if flag then "{" + s else s }

  /** The outer loop of really_munge_braces. */
  method WriteGroups(names: seq<string>, realStart: nat, realEnd: nat, gcdZero: nat)
      returns (result: string, flag: bool)
    requires Grouped(names, realStart, realEnd, gcdZero) && realStart < realEnd
    ensures flag == (gcdZero == 0 && FirstEnd(names, realStart, realEnd, gcdZero) < realEnd)
    ensures result == Opened(flag, GroupTexts(names, realStart, realEnd, gcdZero))
    decreases realEnd - realStart, |names[realStart]| - gcdZero, 1
  {
    hide QuoteFrom, Print, GroupWord, GroupAlts, Gcd, FirstEnd, Opened, Gathered;
    result, flag := "", false;
    var start := realStart;
    ghost var all := GroupTexts(names, realStart, realEnd, gcdZero);
    ghost var first := FirstEnd(names, realStart, realEnd, gcdZero);
    OpenedParts(all);
    while start < realEnd
      invariant realStart <= start <= realEnd && Grouped(names, start, realEnd, gcdZero)
      invariant start == realStart ==> result == "" && !flag
      invariant start > realStart ==> flag == (gcdZero == 0 && first < realEnd)
      invariant Opened(flag, all) == result + GroupTexts(names, start, realEnd, gcdZero)
    {
      var gcd, end := NextGroup(names, start, realEnd, gcdZero);
      if gcdZero == 0 && start == realStart && end != realEnd - 1 {
        result := "{";
        flag := true;
      }
      TextsStep(names, start, realEnd, gcdZero, result);
      var subterm := Subterm(names, start, end, gcdZero, gcd);
      result := result + subterm + ",";
      start := end + 1;
    }
    assert GroupTexts(names, realEnd, realEnd, gcdZero) == "" && result + "" == result;
  }

  lemma OpenedParts(s: string)
    ensures Opened(false, s) == "" + s && Opened(true, s) == "{" + s
  {
  }

  lemma TextsStep(a: seq<string>, s: nat, e: nat, gz: nat, before: string)
    requires s < e && Grouped(a, s, e, gz)
    ensures var m := FirstEnd(a, s, e, gz);
            Grouped(a, s, m, gz) && gz <= Shared(a, s, m) &&
            Grouped(a, s, m, Shared(a, s, m)) && Grouped(a, m, e, gz) &&
            (m > s + 1 ==> gz < Shared(a, s, m)) &&
            before + GroupTexts(a, s, e, gz) == before + Print(GroupWord(a, s, m, gz)) + "," + GroupTexts(a, m, e, gz)
  {
    hide GroupWord, FirstEnd, Gcd, Print;
    GroupFacts(a, s, e, gz);
  }

  /** The list of terms, and the word that closing it gives. */
  lemma TopText(a: seq<string>, s: nat, e: nat, gz: nat) returns (all: string)
    requires s < e && Grouped(a, s, e, gz)
    ensures all == GroupTexts(a, s, e, gz) && |all| > 0
    ensures gz == 0 ==>
              Print(TopWord(a, s, e)) ==
                if FirstEnd(a, s, e, 0) == e then Opened(false, all)[..|all| - 1] + ""
                else Opened(true, all)[..|all|] + "}"
  {
    hide GroupWord, GroupAlts, FirstEnd, Gcd, Print, Gathered;
    all := GroupTexts(a, s, e, gz);
    GroupFacts(a, s, e, gz);
    if FirstEnd(a, s, e, gz) < e {
      TextsAreAlts(a, s, e, gz);
      var alts := GroupAlts(a, s, e, gz);
      PrintGroup(alts);
      assert ("{" + all)[..|all|] == "{" + PrintAlts(alts);
    } else {
      assert GroupTexts(a, e, e, gz) == "";
      assert all == Print(GroupWord(a, s, e, gz)) + ",";
      assert all[..|all| - 1] + "" == Print(GroupWord(a, s, e, gz));
    }
  }
}
