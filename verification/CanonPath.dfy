/** Path canonicalisation of minishell (42-minishell/builtin_cd_path.c and path.c). The file system
    is an oracle that says which paths are directories; it does not change during a call. */
module CanonPath {
  import opened CStrings

  // ---- path.c and the pieces of libft that it uses ----

  /** ft_strrchr: the position of the last '/'. */
  function LastSlash(s: string): (k: nat)
    requires '/' in s
    ensures k < |s| && s[k] == '/' && forall j :: k < j < |s| ==> s[j] != '/'
  {
    if s[|s| - 1] == '/' then |s| - 1 else LastSlash(s[..|s| - 1])
  }

  function PathJoin(dirpath: string, filename: string): string {
    (if dirpath == "" || dirpath[|dirpath| - 1] != '/' then dirpath + "/" else dirpath) + filename
  }

  function GetParentDir(path: string): string
    requires '/' in path
  {
    var result := path[..LastSlash(path)];
    if result == "" then "/" else result
  }

  /** The length of the longest prefix without a '/'. */
  function WordLength(s: string): (n: nat)
    ensures n <= |s| && (n < |s| ==> s[n] == '/') && forall k :: 0 <= k < n ==> s[k] != '/'
  {
    if s == "" || s[0] == '/' then 0 else 1 + WordLength(s[1..])
  }

  /** ft_split at '/': the non-empty pieces. */
  function Split(s: string): seq<string>
    decreases |s|
  {
    if s == "" then []
    else if s[0] == '/' then Split(s[1..])
    else var n := WordLength(s); [s[..n]] + Split(s[n..])
  }

  /** The next piece of s is s[i..j]. */
  lemma SplitAt(s: string, i: nat, j: nat)
    requires i < j <= |s| && (j < |s| ==> s[j] == '/') && forall k :: i <= k < j ==> s[k] != '/'
    ensures Split(s[i..]) == [s[i..j]] + Split(s[j..])
  {
    var t := s[i..];
    WordLengthIs(t, j - i);
    assert t[..j - i] == s[i..j] && t[j - i..] == s[j..];
  }

  lemma SplitEmpty()
    ensures Split("") == []
  {
  }

  lemma SplitSkip(s: string, i: nat)
    requires i < |s| && s[i] == '/'
    ensures Split(s[i..]) == Split(s[i + 1..])
  {
    assert s[i..][1..] == s[i + 1..];
  }

  method FtSplit(s: string) returns (result: seq<string>)
    ensures result == Split(s)
  {
    hide Split;
    result := [];
    var i: nat := 0;
    assert s[0..] == s;
    while i < |s|
      invariant i <= |s| && result + Split(s[i..]) == Split(s)
    {
      while i < |s| && s[i] == '/'
        invariant i <= |s| && result + Split(s[i..]) == Split(s)
      {
        SplitSkip(s, i);
        i := i + 1;
      }
      if i == |s| { break; }
      var len := 0;
      while i + len < |s| && s[i + len] != '/'
        invariant i + len <= |s| && forall k :: i <= k < i + len ==> s[k] != '/'
      {
        len := len + 1;
      }
      SplitAt(s, i, i + len);
      assert result + ([s[i..i + len]] + Split(s[i + len..])) == result + [s[i..i + len]] + Split(s[i + len..]);
      result := result + [s[i..i + len]];
      i := i + len;
    }
    SplitEmpty();
    assert s[i..] == "";
  }

  lemma WordLengthIs(s: string, n: nat)
    requires n <= |s| && (n < |s| ==> s[n] == '/') && forall k :: 0 <= k < n ==> s[k] != '/'
    ensures WordLength(s) == n
  {
    var m := WordLength(s);
    if m != n { assert false; }
  }

  // ---- stacks of directory names ----

  predicate Component(c: string) { c != "" && '/' !in c }

  predicate Proper(c: string) { Component(c) && c != "." && c != ".." }

  predicate AllProper(st: seq<string>) { forall c <- st :: Proper(c) }

  function Joined(st: seq<string>): string {
    if st == [] then "" else Joined(st[..|st| - 1]) + "/" + st[|st| - 1]
  }

  /** The absolute path of a stack of names. */
  function Render(st: seq<string>): string { if st == [] then "/" else Joined(st) }

  /** One name more: "." stays, ".." goes up, but not above the root. */
  function Push(st: seq<string>, c: string): seq<string> {
    if c == "." then st
    else if c == ".." then (if st == [] then [] else st[..|st| - 1])
    else st + [c]
  }

  function StackOf(dirs: seq<string>): seq<string> {
    if dirs == [] then [] else Push(StackOf(dirs[..|dirs| - 1]), dirs[|dirs| - 1])
  }

  /** The walk along dirs, as long as every step leads to a directory. */
  function Walk(isDir: string -> bool, dirs: seq<string>): Option<seq<string>> {
    if dirs == [] then Some([])
    else
      match Walk(isDir, dirs[..|dirs| - 1])
      case None => None
      case Some(st) =>
        var st' := Push(st, dirs[|dirs| - 1]);
        if isDir(Render(st')) then Some(st') else None
  }

  predicate IsDoubleSlash(path: string) {
    |path| >= 2 && path[0] == '/' && path[1] == '/' && At(path, 2) != '/'
  }

  /** A third leading slash more or less makes no difference, but exactly two stay. */
  function Lead(path: string, r: string): string { if IsDoubleSlash(path) then "/" + r else r }

  function Canonical(isDir: string -> bool, path: string): Option<string> {
    match Walk(isDir, Split(path))
    case None => None
    case Some(st) => Some(Lead(path, Render(st)))
  }

  // ---- the code against the stacks ----

  lemma {:induction false} JoinedStart(st: seq<string>)
    requires st != []
    ensures Joined(st) != "" && Joined(st)[0] == '/'
    decreases |st|
  {
    if |st| > 1 { JoinedStart(st[..|st| - 1]); }
  }

  lemma LastSlashIs(s: string, k: nat)
    requires k < |s| && s[k] == '/' && forall j :: k < j < |s| ==> s[j] != '/'
    ensures LastSlash(s) == k
  {
    var m := LastSlash(s);
    if m != k { assert false; }
  }

  /** Going up in the text is popping a name from the stack. */
  lemma ParentIsPop(st: seq<string>)
    requires AllProper(st)
    ensures '/' in Render(st) && GetParentDir(Render(st)) == Render(if st == [] then [] else st[..|st| - 1])
  {
    if st == [] {
      LastSlashIs("/", 0);
    } else {
      var n := |st| - 1;
      var front, c := Joined(st[..n]), st[n];
      var s := front + "/" + c;
      assert c in st;
      assert Render(st) == s && s[|front|] == '/';
      forall j | |front| < j < |s| ensures s[j] != '/' {
        assert s[j] == c[j - |front| - 1] && c[j - |front| - 1] in c;
      }
      LastSlashIs(s, |front|);
      assert s[..|front|] == front;
      if n > 0 { JoinedStart(st[..n]); }
    }
  }

  /** Appending to the text is pushing a name on the stack. */
  lemma JoinIsPush(st: seq<string>, c: string)
    requires AllProper(st)
    ensures PathJoin(Render(st), c) == Render(st + [c])
  {
    assert (st + [c])[..|st|] == st;
    if st == [] {
      assert Joined([c]) == Joined([]) + "/" + c;
    } else {
      var last := st[|st| - 1];
      assert last in st && last[|last| - 1] in last;
      var s := Render(st);
      assert s[|s| - 1] == last[|last| - 1];
    }
  }

  /** update_path */
  method UpdatePath(path: string, name: string, ghost st: seq<string>) returns (r: string)
    requires AllProper(st) && path == Render(st) && Component(name)
    ensures r == Render(Push(st, name)) && AllProper(Push(st, name))
  {
    ParentIsPop(st);
    JoinIsPush(st, name);
    if name == "." {
      return path;
    } else if name == ".." {
      return GetParentDir(path);
    } else {
      return PathJoin(path, name);
    }
  }

  lemma {:induction false} SplitComponents(s: string)
    ensures forall c <- Split(s) :: Component(c)
    decreases |s|
  {
    if s != "" {
      if s[0] == '/' {
        SplitComponents(s[1..]);
      } else {
        var n := WordLength(s);
        SplitComponents(s[n..]);
        assert n > 0 && Component(s[..n]);
      }
    }
  }

  method CanonicalizePath(isDir: string -> bool, path: string) returns (r: Option<string>)
    ensures r == Canonical(isDir, path)
  {
    var dirs := FtSplit(path);
    SplitComponents(path);
    var i := 0;
    var result := "/";
    ghost var st: seq<string> := [];
    while i < |dirs|
      invariant i <= |dirs| && AllProper(st) && result == Render(st) && Walk(isDir, dirs[..i]) == Some(st)
    {
      assert dirs[..i + 1][..i] == dirs[..i] && dirs[i] in dirs;
      result := UpdatePath(result, dirs[i], st);
      st := Push(st, dirs[i]);
      if !isDir(result) {
        WalkStops(isDir, dirs, i + 1);
        return None;
      }
      i := i + 1;
    }
    assert dirs[..i] == dirs;
    if IsDoubleSlash(path) { result := "/" + result; }
    CanonicalIs(isDir, path, st);
    return Some(result);
  }

  lemma {:induction false} WalkStops(isDir: string -> bool, dirs: seq<string>, i: nat)
    requires i <= |dirs| && Walk(isDir, dirs[..i]) == None
    ensures Walk(isDir, dirs) == None
    decreases |dirs| - i
  {
    if i == |dirs| {
      assert dirs[..i] == dirs;
    } else {
      assert dirs[..i + 1][..i] == dirs[..i];
      WalkStops(isDir, dirs, i + 1);
    }
  }

  // ---- properties ----

  /** The walk succeeds exactly when every stack on the way is a directory. */
  lemma {:induction false} WalkExact(isDir: string -> bool, dirs: seq<string>, st: seq<string>)
    ensures Walk(isDir, dirs) == Some(st) <==>
              st == StackOf(dirs) && forall k :: 0 < k <= |dirs| ==> isDir(Render(StackOf(dirs[..k])))
    decreases |dirs|
  {
    hide Render, Push;
    if dirs != [] {
      var n := |dirs| - 1;
      var front := dirs[..n];
      WalkExact(isDir, front, StackOf(front));
      assert forall k :: 0 < k <= n ==> front[..k] == dirs[..k];
      assert dirs[..|dirs|] == dirs;
      if Walk(isDir, front).Some? {
        WalkExact(isDir, front, Walk(isDir, front).value);
        AllUpTo(isDir, dirs);
      } else {
        assert !forall k :: 0 < k <= n ==> isDir(Render(StackOf(front[..k])));
      }
    }
  }

  lemma AllUpTo(isDir: string -> bool, dirs: seq<string>)
    requires dirs != []
    requires forall k :: 0 < k < |dirs| ==> isDir(Render(StackOf(dirs[..k])))
    ensures isDir(Render(StackOf(dirs))) <==> forall k :: 0 < k <= |dirs| ==> isDir(Render(StackOf(dirs[..k])))
  {
    hide Render, StackOf;
    assert dirs[..|dirs|] == dirs;
  }

  /** Every prefix of the final stack was checked: it was the whole stack at some step. */
  lemma {:induction false} PrefixesChecked(isDir: string -> bool, dirs: seq<string>, st: seq<string>)
    requires Walk(isDir, dirs) == Some(st) && forall c <- dirs :: Component(c)
    ensures AllProper(st) && forall k :: 0 < k <= |st| ==> isDir(Render(st[..k]))
    decreases |dirs|
  {
    if dirs != [] {
      var n := |dirs| - 1;
      var before := Walk(isDir, dirs[..n]).value;
      PrefixesChecked(isDir, dirs[..n], before);
      assert dirs[n] in dirs;
      forall k | 0 < k <= |st| ensures isDir(Render(st[..k])) {
        if k == |st| { assert st[..k] == st; } else { assert st[..k] == before[..k]; }
      }
    }
  }

  lemma {:induction false} ProperStack(dirs: seq<string>)
    requires AllProper(dirs)
    ensures StackOf(dirs) == dirs
    decreases |dirs|
  {
    if dirs != [] {
      assert dirs[|dirs| - 1] in dirs;
      ProperStack(dirs[..|dirs| - 1]);
    }
  }

  /** Walking on from a canonical path is walking all the way. */
  lemma {:induction false} WalkOn(first: seq<string>, more: seq<string>)
    requires forall c <- first :: Component(c)
    ensures StackOf(StackOf(first) + more) == StackOf(first + more)
    decreases |more|
  {
    if more == [] {
      StackProper(first);
      ProperStack(StackOf(first));
      assert StackOf(first) + more == StackOf(first) && first + more == first;
    } else {
      var n := |more| - 1;
      WalkOn(first, more[..n]);
      assert (StackOf(first) + more)[..|StackOf(first)| + n] == StackOf(first) + more[..n];
      assert (first + more)[..|first| + n] == first + more[..n];
    }
  }

  // ---- what "." and ".." do ----

  /** What comes behind only sees the stack. */
  lemma {:induction false} SameStack(a: seq<string>, a': seq<string>, b: seq<string>)
    requires StackOf(a) == StackOf(a')
    ensures StackOf(a + b) == StackOf(a' + b)
    decreases |b|
  {
    if b == [] {
      assert a + b == a && a' + b == a';
    } else {
      var n := |b| - 1;
      SameStack(a, a', b[..n]);
      assert (a + b)[..|a| + n] == a + b[..n] && (a' + b)[..|a'| + n] == a' + b[..n];
    }
  }

  /** "." changes nothing, wherever it stands. */
  lemma DotStays(a: seq<string>, b: seq<string>)
    ensures StackOf(a + ["."] + b) == StackOf(a + b)
  {
    assert (a + ["."])[..|a|] == a;
    SameStack(a + ["."], a, b);
  }

  /** ".." undoes the name in front of it. */
  lemma UpUndoes(a: seq<string>, c: string, b: seq<string>)
    requires Proper(c)
    ensures StackOf(a + [c, ".."] + b) == StackOf(a + b)
  {
    assert (a + [c, ".."])[..|a| + 1] == a + [c] && (a + [c])[..|a|] == a;
    SameStack(a + [c, ".."], a, b);
  }

  /** There is nothing above the root. */
  lemma UpAtRoot(b: seq<string>)
    ensures StackOf([".."] + b) == StackOf(b)
  {
    assert [".."][..0] == [];
    SameStack([".."], [], b);
    assert [] + b == b;
  }

  lemma WalkStep(isDir: string -> bool, a: seq<string>, c: string)
    ensures Walk(isDir, a + [c]) ==
              match Walk(isDir, a)
              case None => None
              case Some(st) => if isDir(Render(Push(st, c))) then Some(Push(st, c)) else None
  {
    assert (a + [c])[..|a|] == a;
  }

  lemma {:induction false} SameWalk(isDir: string -> bool, a: seq<string>, a': seq<string>, b: seq<string>)
    requires Walk(isDir, a) == Walk(isDir, a')
    ensures Walk(isDir, a + b) == Walk(isDir, a' + b)
    decreases |b|
  {
    hide Walk, Render, Push;
    if b == [] {
      assert a + b == a && a' + b == a';
    } else {
      var n := |b| - 1;
      SameWalk(isDir, a, a', b[..n]);
      WalkStep(isDir, a + b[..n], b[n]);
      WalkStep(isDir, a' + b[..n], b[n]);
      assert a + b[..n] + [b[n]] == a + b && a' + b[..n] + [b[n]] == a' + b;
    }
  }

  lemma WalkFails(isDir: string -> bool, a: seq<string>, b: seq<string>)
    requires Walk(isDir, a) == None
    ensures Walk(isDir, a + b) == None
  {
    assert (a + b)[..|a|] == a;
    WalkStops(isDir, a + b, |a|);
  }

  /** The place where the walk along a has ended is a directory; the root has not been looked at. */
  lemma EndsInDirectory(isDir: string -> bool, a: seq<string>)
    requires Walk(isDir, a).Some? && (a == [] ==> isDir("/"))
    ensures isDir(Render(Walk(isDir, a).value))
  {
  }

  /** For walks, "." also asks whether the root is a directory, if nothing has been looked at yet. */
  lemma WalkDot(isDir: string -> bool, a: seq<string>, b: seq<string>)
    ensures Walk(isDir, a + ["."] + b) == if a == [] && !isDir("/") then None else Walk(isDir, a + b)
  {
    hide Walk;
    WalkStep(isDir, a, ".");
    WalkEmpty(isDir);
    if Walk(isDir, a).None? {
      WalkFails(isDir, a, b);
      WalkFails(isDir, a + ["."], b);
    } else if a == [] && !isDir("/") {
      WalkFails(isDir, a + ["."], b);
    } else {
      EndsInDirectory(isDir, a);
      SameWalk(isDir, a + ["."], a, b);
    }
  }

  lemma WalkEmpty(isDir: string -> bool)
    ensures Walk(isDir, []) == Some([])
  {
  }

  /** A name and ".." behind it only ask whether there is such a directory. */
  lemma WalkUp(isDir: string -> bool, a: seq<string>, c: string, b: seq<string>)
    requires Proper(c)
    ensures Walk(isDir, a + [c, ".."] + b) ==
              if Walk(isDir, a + [c]).None? || (a == [] && !isDir("/")) then None else Walk(isDir, a + b)
  {
    hide Walk, Render;
    WalkStep(isDir, a, c);
    WalkStep(isDir, a + [c], "..");
    WalkEmpty(isDir);
    assert a + [c] + [".."] == a + [c, ".."];
    if Walk(isDir, a + [c, ".."]).None? {
      WalkFails(isDir, a + [c, ".."], b);
      if Walk(isDir, a + [c]).Some? && !(a == [] && !isDir("/")) { EndsInDirectory(isDir, a); }
    } else {
      var st := Walk(isDir, a).value;
      assert (st + [c])[..|st|] == st;
      RenderEmpty();
      SameWalk(isDir, a + [c, ".."], a, b);
    }
  }

  lemma RenderEmpty()
    ensures Render([]) == "/"
  {
  }

  lemma WalkUpAtRoot(isDir: string -> bool, b: seq<string>)
    ensures Walk(isDir, [".."] + b) == if isDir("/") then Walk(isDir, b) else None
  {
    hide Walk, Render;
    WalkStep(isDir, [], "..");
    WalkEmpty(isDir);
    RenderEmpty();
    assert [] + [".."] == [".."] && [] + b == b;
    if isDir("/") { SameWalk(isDir, [".."], [], b); } else { WalkFails(isDir, [".."], b); }
  }

  // ---- the same in texts ----

  lemma {:induction false} SplitConcat(a: string, b: string)
    ensures Split(a + "/" + b) == Split(a) + Split(b)
    decreases |a|
  {
    var s := a + "/" + b;
    if a == "" {
      assert s[1..] == b;
    } else if a[0] == '/' {
      SplitConcat(a[1..], b);
      assert s[1..] == a[1..] + "/" + b;
    } else {
      var n := WordLength(a);
      WordLengthIs(s, n);
      SplitConcat(a[n..], b);
      assert s[..n] == a[..n] && s[n..] == a[n..] + "/" + b;
    }
  }

  lemma SplitOne(c: string)
    requires Component(c)
    ensures Split(c) == [c]
  {
    SplitAppend("", c);
    assert ("" + "/" + c)[1..] == c;
  }

  /** What stands in front of a name decides about a leading double slash. */
  lemma SameLead(p: string, x: string, y: string)
    requires Split(p) != []
    ensures IsDoubleSlash(p + "/" + x) == IsDoubleSlash(p + "/" + y)
  {
    var s, t := p + "/" + x, p + "/" + y;
    assert |p| == 1 ==> p[1..] == "";
    assert |p| == 2 ==> p[1..][1..] == "";
    assert forall k :: 0 <= k < |p| ==> s[k] == p[k] && t[k] == p[k];
  }

  /** p/./q is p/q. */
  lemma TextDot(isDir: string -> bool, p: string, q: string)
    requires Split(p) != []
    ensures Canonical(isDir, p + "/./" + q) == Canonical(isDir, p + "/" + q)
  {
    hide Split, Walk, Render, IsDoubleSlash;
    SplitConcat(p, "./" + q);
    SplitConcat(".", q);
    SplitOne(".");
    SplitConcat(p, q);
    assert p + "/./" + q == p + "/" + ("./" + q) && "./" + q == "." + "/" + q;
    assert Split(p) + (["."] + Split(q)) == Split(p) + ["."] + Split(q);
    WalkDot(isDir, Split(p), Split(q));
    SameLead(p, "./" + q, q);
  }

  /** p/c/../q is p/q, if p/c is a path at all. */
  lemma TextUp(isDir: string -> bool, p: string, c: string, q: string)
    requires Split(p) != [] && Proper(c)
    ensures Canonical(isDir, p + "/" + c + "/../" + q) ==
              if Canonical(isDir, p + "/" + c).Some? then Canonical(isDir, p + "/" + q) else None
  {
    hide Split, Walk, Render, IsDoubleSlash;
    var rest := c + "/../" + q;
    SplitConcat(p, rest);
    SplitConcat(c, "../" + q);
    SplitConcat("..", q);
    SplitOne("..");
    SplitOne(c);
    SplitConcat(p, q);
    SplitConcat(p, c);
    assert p + "/" + c + "/../" + q == p + "/" + rest;
    assert rest == c + "/" + ("../" + q) && "../" + q == ".." + "/" + q;
    assert Split(p) + ([c] + ([".."] + Split(q))) == Split(p) + [c, ".."] + Split(q);
    WalkUp(isDir, Split(p), c, Split(q));
    SameLead(p, rest, q);
  }

  /** /../q is /q, and so is /./q, if the root is a directory. */
  lemma TextRoot(isDir: string -> bool, q: string)
    requires q == "" || q[0] != '/'
    ensures Canonical(isDir, "/../" + q) == if isDir("/") then Canonical(isDir, "/" + q) else None
    ensures Canonical(isDir, "/./" + q) == if isDir("/") then Canonical(isDir, "/" + q) else None
  {
    hide Walk, Render, Split;
    SplitRoot("..", q);
    SplitRoot(".", q);
    WalkUpAtRoot(isDir, Split(q));
    WalkDot(isDir, [], Split(q));
    assert [] + ["."] + Split(q) == ["."] + Split(q) && [] + Split(q) == Split(q);
    assert "/" + ".." + "/" + q == "/../" + q && "/" + "." + "/" + q == "/./" + q;
    LeadingSlash(q);
    assert !IsDoubleSlash("/" + q) && !IsDoubleSlash("/./" + q) && !IsDoubleSlash("/../" + q);
  }

  lemma SplitRoot(c: string, q: string)
    requires Component(c)
    ensures Split("/" + c + "/" + q) == [c] + Split(q)
  {
    hide Split;
    SplitConcat(c, q);
    SplitOne(c);
    LeadingSlash(c + "/" + q);
    assert "/" + c + "/" + q == "/" + (c + "/" + q);
  }

  /** How many slashes a text starts with. */
  function Slashes(s: string): nat { if s != "" && s[0] == '/' then 1 + Slashes(s[1..]) else 0 }

  /** Two leading slashes stay two; any other number, and none, becomes one. */
  lemma LeadingSlashes(isDir: string -> bool, path: string, r: string)
    requires Canonical(isDir, path) == Some(r)
    ensures Slashes(r) == if Slashes(path) == 2 then 2 else 1
  {
    hide Split, Walk, Render;
    ResultForm(isDir, path, r);
    RenderStart(Split(r));
    SlashesAre(path);
    SlashesAre(r);
    SlashesAre(Render(Split(r)));
  }

  lemma SlashesAre(s: string)
    ensures Slashes(s) == 2 <==> IsDoubleSlash(s)
    ensures Slashes(s) == 1 <==> s != "" && s[0] == '/' && At(s, 1) != '/'
  {
    hide Slashes;
    SlashesStart(s);
    if s != "" {
      var t := s[1..];
      SlashesStart(t);
      if t != "" {
        SlashesStart(t[1..]);
        assert t[0] == s[1] && At(t[1..], 0) == At(s, 2);
      }
    }
  }

  lemma SlashesStart(s: string)
    ensures Slashes(s) == if At(s, 0) == '/' then 1 + Slashes(s[1..]) else 0
    ensures At(s, 0) == '/' <==> Slashes(s) > 0
  {
  }

  lemma {:induction false} StackProper(dirs: seq<string>)
    requires forall c <- dirs :: Component(c)
    ensures AllProper(StackOf(dirs))
    decreases |dirs|
  {
    if dirs != [] {
      assert dirs[|dirs| - 1] in dirs;
      StackProper(dirs[..|dirs| - 1]);
    }
  }

  lemma {:induction false} SplitAppend(a: string, c: string)
    requires Component(c)
    ensures Split(a + "/" + c) == Split(a) + [c]
    decreases |a|
  {
    var s := a + "/" + c;
    if a == "" {
      assert s[1..] == c && c[0] in c;
      forall k | 0 <= k < |c| ensures c[k] != '/' { assert c[k] in c; }
      WordLengthIs(c, |c|);
      assert c[..|c|] == c && c[|c|..] == "";
    } else if a[0] == '/' {
      SplitAppend(a[1..], c);
      assert s[1..] == a[1..] + "/" + c;
    } else {
      var n := WordLength(a);
      WordLengthIs(s, n);
      SplitAppend(a[n..], c);
      assert s[..n] == a[..n] && s[n..] == a[n..] + "/" + c;
    }
  }

  /** Rendering and splitting undo each other. */
  lemma {:induction false} SplitRender(st: seq<string>)
    requires forall c <- st :: Component(c)
    ensures Split(Render(st)) == st && Split(Joined(st)) == st
    decreases |st|
  {
    if st == [] {
      assert "/"[1..] == "";
    } else {
      assert st[|st| - 1] in st;
      SplitRender(st[..|st| - 1]);
      SplitAppend(Joined(st[..|st| - 1]), st[|st| - 1]);
    }
  }

  lemma {:induction false} RenderStart(st: seq<string>)
    requires AllProper(st)
    ensures |Render(st)| > 0 && Render(st)[0] == '/' && At(Render(st), 1) != '/'
    decreases |st|
  {
    if |st| == 1 {
      assert st[..0] == [] && Joined(st) == "" + "/" + st[0];
      assert st[0] in st && st[0][0] in st[0];
    } else if st != [] {
      RenderStart(st[..|st| - 1]);
      var front := Joined(st[..|st| - 1]);
      if |front| == 1 { SplitRender(st[..|st| - 1]); }
    }
  }

  /** The form of a result: exactly-two leading slashes are kept and nothing else is doubled, there
      is no empty, "." or ".." component, and every prefix is a directory. */
  lemma ResultForm(isDir: string -> bool, path: string, r: string)
    requires Canonical(isDir, path) == Some(r)
    ensures var st := Split(r);
            && st == StackOf(Split(path)) && AllProper(st)
            && r == Lead(path, Render(st))
            && IsDoubleSlash(r) == IsDoubleSlash(path)
            && forall k :: 0 < k <= |st| ==> isDir(Render(st[..k]))
  {
    hide Split, Render;
    var dirs := Split(path);
    var st := Walk(isDir, dirs).value;
    SplitComponents(path);
    WalkExact(isDir, dirs, st);
    PrefixesChecked(isDir, dirs, st);
    SplitRender(st);
    RenderStart(st);
    if IsDoubleSlash(path) { LeadingSlash(Render(st)); }
  }

  lemma LeadingSlash(s: string)
    ensures Split("/" + s) == Split(s)
  {
    assert ("/" + s)[1..] == s;
  }

  /** A canonical path is its own canonical path. */
  lemma Idempotent(isDir: string -> bool, path: string, r: string)
    requires Canonical(isDir, path) == Some(r)
    ensures Canonical(isDir, r) == Some(r)
  {
    hide Walk, Split, Render, StackOf, IsDoubleSlash, Canonical, AllProper;
    ResultForm(isDir, path, r);
    var st := Split(r);
    ProperStack(st);
    forall k | 0 < k <= |st| ensures isDir(Render(StackOf(st[..k]))) {
      ProperPrefix(st, k);
      ProperStack(st[..k]);
    }
    WalkExact(isDir, st, st);
    CanonicalIs(isDir, r, st);
  }

  lemma ProperPrefix(st: seq<string>, k: nat)
    requires AllProper(st) && k <= |st|
    ensures AllProper(st[..k])
  {
  }

  lemma CanonicalIs(isDir: string -> bool, path: string, st: seq<string>)
    requires Walk(isDir, Split(path)) == Some(st)
    ensures Canonical(isDir, path) == Some(Lead(path, Render(st)))
  {
  }
}
