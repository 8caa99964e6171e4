/** The quote-aware scanner of brace expansion: brace_gobbler, bash/braces.c:637-820. */
module BraceScan {
  import opened CStrings

  /** What kind of brace expression it seems to be: BRACE_COMMA, BRACE_SEQ, BRACE_NONE. */
  datatype Kind = Commas | Sequence | Neither

  /** How far the body of a command or function substitution reaches from a position: what
      extract_command_subst and extract_function_subst find out, which are not modelled. */
  type Substitution = (string, nat, char) -> nat

  const UNQUOTED: char := '\0'

  /** The variables of the scanning loop. */
  datatype State = State(level: nat, quoted: char, passNext: bool, commas: nat, kind: Kind)

  /** Where the scan stopped, whether at the character searched for, and the kind seen. */
  datatype Found = Found(at: nat, hit: bool, kind: Kind)

  function Initial(satisfy: char): State {
    State(0, UNQUOTED, false, if satisfy == '}' then 0 else 1, Neither)
  }

  predicate BraceWhitespace(c: char) { c == '\0' || c == ' ' || c == '\t' || c == '\n' }

  predicate FunsubChar(c: char) { c == ' ' || c == '\t' || c == '\n' || c == '|' }

  predicate Escapes(c: char, quoted: char) {
    c == '\\' && (quoted == UNQUOTED || quoted == '"' || quoted == '`')
  }

  predicate StartsComsub(text: string, i: nat, quoted: char) {
    At(text, i + 1) == '(' &&
    if quoted == UNQUOTED then At(text, i) == '$' || At(text, i) == '<' || At(text, i) == '>'
    else quoted == '"' && At(text, i) == '$'
  }

  /** An open brace surrounded by whitespace, or "{}" behind whitespace, does not count. */
  predicate Ignored(text: string, i: nat)
    requires i < |text|
  {
    && text[i] == '{'
    && (i == 0 || BraceWhitespace(text[i - 1]))
    && (BraceWhitespace(At(text, i + 1)) || At(text, i + 1) == '}')
  }

  /** Braces, commas and ".." outside quotes. */
  function Count(text: string, i: nat, satisfy: char, st: State): State
    requires i < |text|
  {
    var c := text[i];
    if c == '{' then st.(level := st.level + 1)
    else if c == '}' && st.level > 0 then st.(level := st.level - 1)
    else if satisfy == '}' && c == ',' && st.level == 0 then st.(kind := Commas, commas := st.commas + 1)
    else if satisfy == '}' && c == '.' && At(text, i + 1) == '.' && At(text, i + 2) != satisfy &&
            st.level == 0 && st.kind == Neither then
      st.(kind := Sequence, commas := st.commas + 1)
    else st
  }

  /** One turn of the loop: the next position and state, or where to stop. */
  datatype Turn = Go(i: nat, st: State) | Stop(found: Found)

  function Step(sub: Substitution, text: string, i: nat, satisfy: char, st: State): (t: Turn)
    requires i < |text|
    ensures t.Go? ==> i < t.i <= |text|
    ensures t.Stop? ==> t.found.at <= |text| && (t.found.hit ==> t.found.at == i && text[i] == satisfy)
  {
    var c := text[i];
    if st.passNext then Go(i + 1, st.(passNext := false))
    else if Escapes(c, st.quoted) then Go(i + 1, st.(passNext := true))
    else if c == '$' && At(text, i + 1) == '{' && st.quoted != '\'' then
      if FunsubChar(At(text, i + 2)) then Jump(sub, text, i, st)
      else Go(i + 1, st.(passNext := true, level := if st.quoted == UNQUOTED then st.level + 1 else st.level))
    else if st.quoted != UNQUOTED && c == st.quoted then Go(i + 1, st.(quoted := UNQUOTED))
    else if StartsComsub(text, i, st.quoted) then Jump(sub, text, i, st)
    else if st.quoted != UNQUOTED then Go(i + 1, st)
    else if c == '"' || c == '\'' || c == '`' then Go(i + 1, st.(quoted := c))
    else if c == satisfy && st.level == 0 && st.commas > 0 then
      if Ignored(text, i) then Go(i + 1, st) else Stop(Found(i, true, st.kind))
    else Go(i + 1, Count(text, i, satisfy, st))
  }

  /** Over a substitution. */
  function Jump(sub: Substitution, text: string, i: nat, st: State): (t: Turn)
    requires i < |text|
    ensures t.Go? ==> i < t.i <= |text|
    ensures t.Stop? ==> t.found == Found(|text|, false, st.kind)
  {
    var next := i + 2 + sub(text, i + 2, st.quoted) + 1;
    if next > |text| then Stop(Found(|text|, false, st.kind)) else Go(next, st)
  }

  function Scan(sub: Substitution, text: string, i: nat, satisfy: char, st: State): (r: Found)
    requires i <= |text|
    ensures i <= r.at <= |text|
    ensures r.hit ==> r.at < |text| && text[r.at] == satisfy
    ensures !r.hit ==> r.at == |text|
    decreases |text| - i
  {
    if i == |text| then Found(i, false, st.kind)
    else
      match Step(sub, text, i, satisfy, st)
      case Go(j, st') => Scan(sub, text, j, satisfy, st')
      case Stop(f) => f
  }

  lemma ScanTurn(sub: Substitution, text: string, i: nat, satisfy: char, st: State)
    requires i < |text|
    ensures Scan(sub, text, i, satisfy, st) ==
              match Step(sub, text, i, satisfy, st)
              case Go(j, st') => Scan(sub, text, j, satisfy, st')
              case Stop(f) => f
  {
  }

  lemma ScanEnd(sub: Substitution, text: string, satisfy: char, st: State)
    ensures Scan(sub, text, |text|, satisfy, st) == Found(|text|, false, st.kind)
  {
  }

  /** brace_gobbler as a function: the first satisfying character from position i on. */
  function Gobble(sub: Substitution, text: string, i: nat, satisfy: char): (r: Found)
    requires i <= |text|
    ensures i <= r.at <= |text|
    ensures r.hit ==> r.at < |text| && text[r.at] == satisfy
    ensures !r.hit ==> r.at == |text|
  {
    Scan(sub, text, i, satisfy, Initial(satisfy))
  }

  /** brace_gobbler itself. c is the character at which the search stopped, '\0' at the end. */
  method BraceGobbler(sub: Substitution, text: string, tlen: nat, indx: nat, satisfy: char)
    returns (c: char, index: nat, kind: Kind)
    requires tlen == |text| && indx <= tlen && satisfy != '\0'
    ensures Found(index, c != '\0', kind) == Gobble(sub, text, indx, satisfy)
    ensures c == satisfy || c == '\0'
  {
    hide Scan, BraceWhitespace;
    var level, quoted, passNext := 0, UNQUOTED, false;
    kind := Neither;
    var commas := if satisfy == '}' then 0 else 1;
    var i := indx;
    while i < tlen
      invariant i <= tlen
      invariant Gobble(sub, text, indx, satisfy)
          == Scan(sub, text, i, satisfy, State(level, quoted, passNext, commas, kind))
      decreases tlen - i
    {
      ScanTurn(sub, text, i, satisfy, State(level, quoted, passNext, commas, kind));
      c := text[i];
      if passNext {
        passNext := false;
        i := i + 1;
        continue;
      }
      if c == '\\' && (quoted == UNQUOTED || quoted == '"' || quoted == '`') {
        passNext := true;
        i := i + 1;
        continue;
      }
      if c == '$' && At(text, i + 1) == '{' && quoted != '\'' {
        if FunsubChar(At(text, i + 2)) {
          i := i + 2 + sub(text, i + 2, quoted) + 1;
          if i > tlen {
            return '\0', tlen, kind;
          }
          continue;
        }
        passNext := true;
        i := i + 1;
        if quoted == UNQUOTED {
          level := level + 1;
        }
        continue;
      }
      if quoted != UNQUOTED {
        if c == quoted {
          quoted := UNQUOTED;
        }
        if quoted == '"' && c == '$' && At(text, i + 1) == '(' {
          i := i + 2 + sub(text, i + 2, quoted) + 1;
          if i > tlen {
            return '\0', tlen, kind;
          }
          continue;
        }
        i := i + 1;
        continue;
      }
      if c == '"' || c == '\'' || c == '`' {
        quoted := c;
        i := i + 1;
        continue;
      }
      if (c == '$' || c == '<' || c == '>') && At(text, i + 1) == '(' {
        i := i + 2 + sub(text, i + 2, quoted) + 1;
        if i > tlen {
          return '\0', tlen, kind;
        }
        continue;
      }
      if c == satisfy && level == 0 && quoted == UNQUOTED && commas > 0 {
        if c == '{' && (i == 0 || BraceWhitespace(text[i - 1])) &&
           (BraceWhitespace(At(text, i + 1)) || At(text, i + 1) == '}') {
          i := i + 1;
          continue;
        }
        return c, i, kind;
      }
      if c == '{' {
        level := level + 1;
      } else if c == '}' && level > 0 {
        level := level - 1;
      } else if satisfy == '}' && c == ',' && level == 0 {
        kind := Commas;
        commas := commas + 1;
      } else if satisfy == '}' && c == '.' && At(text, i + 1) == '.' && At(text, i + 2) != satisfy &&
                level == 0 && kind == Neither {
        kind := Sequence;
        commas := commas + 1;
      }
      i := i + 1;
    }
    ScanEnd(sub, text, satisfy, State(level, quoted, passNext, commas, kind));
    c, index := '\0', i;
  }
}
