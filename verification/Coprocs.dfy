/** The list of coprocesses of bash (bash/execute_cmd.c), a linked list with a tail pointer and a
    count, against the sequence of its elements. */
module Coprocs {

  const COPROC_DEAD: bv32 := 0x02
  const NO_PID := -1

  class Coproc {
    var name: string
    var pid: int
    var flags: bv32

    predicate Dead(): (dead: bool)
      reads this
      ensures dead <==> flags & 0x02 != 0
    {
      flags & COPROC_DEAD != 0
    }
  }

  /** The ends of a list. */
  function Head(s: seq<Element>): Element? { if s == [] then null else s[0] }

  function Last(s: seq<Element>): Element? { if s == [] then null else s[|s| - 1] }

  class Element {
    const coproc: Coproc
    var next: Element?

    /** cpe_alloc */
    constructor (coproc: Coproc)
      ensures this.coproc == coproc && next == null
    {
      this.coproc, next := coproc, null;
    }
  }

  // ---- what the operations do to a sequence ----

  /** The position of the first x, or the length of s. */
  function IndexOf<T(==)>(s: seq<T>, x: T): (k: nat)
    ensures k <= |s| && (k < |s| ==> s[k] == x) && forall j :: 0 <= j < k ==> s[j] != x
  {
    if s == [] || s[0] == x then 0 else 1 + IndexOf(s[1..], x)
  }

  /** s without its element at k. */
  function Without<T>(s: seq<T>, k: nat): seq<T> {
    if k < |s| then s[..k] + s[k + 1..] else s
  }

  /** The elements of s that are not marked. */
  function Keep<T>(s: seq<T>, marked: seq<bool>): (r: seq<T>)
    requires |s| == |marked|
    ensures |r| <= |s|
  {
    if s == [] then []
    else
      var front := Keep(s[..|s| - 1], marked[..|s| - 1]);
      if marked[|s| - 1] then front else front + [s[|s| - 1]]
  }

  lemma KeepStep<T>(s: seq<T>, marked: seq<bool>, i: nat)
    requires |s| == |marked| && i < |s|
    ensures Keep(s[..i + 1], marked[..i + 1]) == Keep(s[..i], marked[..i]) + if marked[i] then [] else [s[i]]
  {
    assert s[..i + 1][..i] == s[..i] && marked[..i + 1][..i] == marked[..i];
  }

  lemma {:induction false} KeepMembers<T>(s: seq<T>, marked: seq<bool>, x: T)
    requires |s| == |marked|
    ensures x in Keep(s, marked) <==> exists i :: 0 <= i < |s| && s[i] == x && !marked[i]
    decreases |s|
  {
    if s != [] {
      var n := |s| - 1;
      var front, marks := s[..n], marked[..n];
      KeepMembers(front, marks, x);
      assert forall i :: 0 <= i < n ==> front[i] == s[i] && marks[i] == marked[i];
    }
  }

  /** Exactly the unmarked elements are kept, each as often as it occurs, and in order: keeping
      works on the two halves of a sequence separately. */
  lemma {:induction false} KeepAppend<T>(s: seq<T>, t: seq<T>, marked: seq<bool>, marked': seq<bool>)
    requires |s| == |marked| && |t| == |marked'|
    ensures Keep(s + t, marked + marked') == Keep(s, marked) + Keep(t, marked')
    decreases |t|
  {
    hide Keep;
    if t == [] {
      KeepNone(t, marked');
      assert s + t == s && marked + marked' == marked;
    } else {
      var n, m := |t| - 1, |s + t| - 1;
      KeepAppend(s, t[..n], marked, marked'[..n]);
      KeepStep(t, marked', n);
      KeepStep(s + t, marked + marked', m);
      assert t[..n + 1] == t && marked'[..n + 1] == marked';
      assert (s + t)[..m + 1] == s + t && (marked + marked')[..m + 1] == marked + marked';
      assert (s + t)[..m] == s + t[..n] && (marked + marked')[..m] == marked + marked'[..n];
    }
  }

  lemma KeepNone<T>(s: seq<T>, marked: seq<bool>)
    requires |s| == |marked| == 0
    ensures Keep(s, marked) == []
  {
  }

  /** Reaping a second time removes nothing. */
  lemma {:induction false} KeepAll<T>(s: seq<T>, marked: seq<bool>)
    requires |s| == |marked| && forall i :: 0 <= i < |s| ==> !marked[i]
    ensures Keep(s, marked) == s
    decreases |s|
  {
    if s != [] {
      KeepAll(s[..|s| - 1], marked[..|s| - 1]);
    }
  }

  /** Deleting a pid that was not in the list when its entry was appended undoes the append. */
  lemma DeleteAfterAdd<T>(s: seq<T>, pids: seq<int>, x: T, pid: int)
    requires |s| == |pids| && pid !in pids
    ensures Without(s + [x], IndexOf(pids + [pid], pid)) == s
  {
    var k := IndexOf(pids + [pid], pid);
    assert (pids + [pid])[|pids|] == pid;
    assert forall j :: 0 <= j < |pids| ==> (pids + [pid])[j] == pids[j] && pids[j] in pids;
    assert (s + [x])[..k] == s;
  }

  // ---- the list ----

  /** What follows the element at i. */
  function Link(s: seq<Element>, i: nat): Element? { if i + 1 < |s| then s[i + 1] else null }

  ghost predicate Distinct(s: seq<Element>) {
    forall i, j :: 0 <= i < j < |s| ==> s[i] != s[j] && s[i].coproc != s[j].coproc
  }

  ghost predicate Linked(s: seq<Element>)
    reads s
  {
    forall i {:trigger s[i].next} :: 0 <= i < |s| ==> s[i].next == Link(s, i)
  }

  /** Linked up to the last element, which may be linked to anything. */
  ghost predicate Threaded(s: seq<Element>)
    reads set i | 0 <= i < |s| - 1 :: s[i]
  {
    forall i {:trigger s[i].next} :: 0 <= i < |s| - 1 ==> s[i].next == Link(s, i)
  }

  lemma LinkedAll(s: seq<Element>)
    requires Linked(s)
    ensures forall i {:trigger s[i].next} :: 0 <= i < |s| ==> s[i].next == Link(s, i)
    ensures Head(s) == (if s == [] then null else s[0]) && Threaded([]) && Head([]) == null && Last([]) == null
  {
  }

  lemma LastIn(s: seq<Element>)
    ensures Last(s) == null || Last(s) in s
  {
  }

  /** The ends of a list that e is appended to. */
  lemma Appended(s: seq<Element>, e: Element)
    ensures Last(s + [e]) == e && Head(s + [e]) == (if s == [] then e else Head(s))
    ensures s == [] ==> Threaded(s + [e])
    ensures (Head(s) == null <==> s == []) && (s != [] ==> Last(s) != null && Last(s) in s)
  {
  }

  lemma WithoutAt<T>(s: seq<T>, k: nat)
    requires k < |s|
    ensures var r := Without(s, k); |r| == |s| - 1 && forall i :: 0 <= i < |r| ==> r[i] == s[if i < k then i else i + 1]
  {
  }

  lemma DistinctWithout(s: seq<Element>, k: nat)
    requires k < |s| && Distinct(s)
    ensures Distinct(Without(s, k))
  {
    hide Without;
    WithoutAt(s, k);
  }

  /** Unlinking the element at k from its predecessor. */
  lemma LinkedWithout(s: seq<Element>, k: nat)
    requires k < |s| && Distinct(s)
    requires forall i {:trigger s[i].next} :: 0 <= i < |s| && i != k ==> s[i].next == if i + 1 == k then Link(s, k)
            else Link(s, i)
    ensures var r := Without(s, k);
            && Distinct(r) && Linked(r) && |r| == |s| - 1
            && (r != [] ==> Head(r) == s[if k == 0 then 1 else 0])
            && (r != [] ==> Last(r) == if k == |s| - 1 then s[k - 1] else s[|s| - 1])
  {
    DistinctWithout(s, k);
    WithoutAt(s, k);
    hide Distinct, Without;
    var r := Without(s, k);
    forall i | 0 <= i < |r| ensures r[i].next == Link(r, i) {
      var j := if i < k then i else i + 1;
      assert r[i] == s[j] && j != k && s[j].next == if j + 1 == k then Link(s, k) else Link(s, j);
    }
  }

  /** What the elements kept so far have to do with those that are still to come. */
  lemma {:induction false} KeptApart(s: seq<Element>, marked: seq<bool>, i: nat)
    requires Distinct(s) && |s| == |marked| && i <= |s|
    ensures var kept := Keep(s[..i], marked[..i]);
            Distinct(kept) && forall e <- kept ::
              e in s && forall j :: i <= j < |s| ==> e != s[j] && e.coproc != s[j].coproc
    decreases i
  {
    if i > 0 {
      KeptApart(s, marked, i - 1);
      KeepStep(s, marked, i - 1);
    }
  }

  /** The same at the element that is looked at next. */
  lemma NextApart(s: seq<Element>, marked: seq<bool>, i: nat)
    requires Distinct(s) && |s| == |marked| && i < |s|
    ensures var kept := Keep(s[..i], marked[..i]);
            && (forall e <- kept :: e in s && e != s[i] && e.coproc != s[i].coproc)
            && (forall j, e | i < j < |s| && e in kept :: e != s[j])
            && (forall j :: i < j < |s| ==> s[j] != s[i] && s[j].coproc != s[i].coproc)
            && Distinct(kept)
  {
    hide Keep;
    KeptApart(s, marked, i);
  }

  ghost function Pids(s: seq<Element>): (r: seq<int>)
    reads set e | e in s :: e.coproc
    ensures |r| == |s| && forall i :: 0 <= i < |s| ==> r[i] == s[i].coproc.pid
  {
    if s == [] then [] else Pids(s[..|s| - 1]) + [s[|s| - 1].coproc.pid]
  }

  ghost function Names(s: seq<Element>): (r: seq<string>)
    reads set e | e in s :: e.coproc
    ensures |r| == |s| && forall i :: 0 <= i < |s| ==> r[i] == s[i].coproc.name
  {
    if s == [] then [] else Names(s[..|s| - 1]) + [s[|s| - 1].coproc.name]
  }

  ghost function Marks(s: seq<Element>): (r: seq<bool>)
    reads set e | e in s :: e.coproc
    ensures |r| == |s| && forall i :: 0 <= i < |s| ==> r[i] == s[i].coproc.Dead()
  {
    if s == [] then [] else Marks(s[..|s| - 1]) + [s[|s| - 1].coproc.Dead()]
  }

  class List {
    var head: Element?
    var tail: Element?
    var ncoproc: int
    ghost var elements: seq<Element>

    /** The chain from head is the sequence of elements; tail and ncoproc agree with it. */
    ghost predicate Valid()
      reads this, elements
    {
      && Distinct(elements)
      && Linked(elements)
      && ncoproc == |elements|
      && head == Head(elements)
      && tail == Last(elements)
    }

    constructor ()
      ensures Valid() && elements == []
    {
      head, tail, ncoproc, elements := null, null, 0, [];
    }

    /** cpl_add */
    method Add(cp: Coproc) returns (cpe: Element)
      requires Valid() && forall e <- elements :: e.coproc != cp
      modifies this, elements
      ensures Valid() && fresh(cpe) && cpe.coproc == cp && elements == old(elements) + [cpe]
    {
      cpe := new Element(cp);
      if head == null {
        head, tail := cpe, cpe;
        ncoproc := 0;
      } else {
        assert tail == elements[|elements| - 1];
        tail.next := cpe;
        tail := cpe;
      }
      ncoproc := ncoproc + 1;
      elements := elements + [cpe];
    }

    /** cpl_delete: removes the first element with the given pid and returns it. */
    method Delete(pid: int) returns (p: Element?)
      requires Valid()
      modifies this, elements
      ensures Valid()
      ensures var k := old(IndexOf(Pids(elements), pid));
              && elements == Without(old(elements), k)
              && p == if k < |old(elements)| then old(elements)[k] else null
    {
      hide Pids;
      ghost var es, k := elements, IndexOf(Pids(elements), pid);
      p := head;
      var prev := head;
      ghost var i: nat := 0;
      while p != null
        invariant i <= k <= |es| && i <= |es| && es == elements
        invariant p == if i < |es| then es[i] else null
        invariant es != [] ==> prev == if i == 0 then es[0] else es[i - 1]
        invariant Valid() && Pids(elements) == old(Pids(elements))
        decreases |es| - i
      {
        assert p.coproc.pid == Pids(elements)[i];
        if p.coproc.pid == pid {
          assert i == k;
          prev.next := p.next;
          break;
        }
        assert p.next == Link(es, i);
        prev, p := p, p.next;
        i := i + 1;
      }
      if p == null { return; }
      LinkedWithout(es, k);
      assert p.next == Link(es, k) && (p == es[0] <==> k == 0) && (p == es[|es| - 1] <==> k == |es| - 1);
      assert k == 0 && |es| > 1 ==> p.next == es[1];
      hide Distinct, Linked, Without, IndexOf, Link;
      elements := Without(es, k);
      ghost var r := elements;
      if p == head {
        head := head.next;
      } else if p == tail {
        tail := prev;
      }
      ncoproc := ncoproc - 1;
      if ncoproc == 0 {
        head, tail := null, null;
      } else if ncoproc == 1 {
        tail := head;
      }
      assert head == Head(r);
      assert tail == Last(r);
    }

    /** cpl_reap keeps e behind nt. */
    static method Extend(nt: Element, e: Element, ghost kept: seq<Element>)
      requires Threaded(kept) && Distinct(kept) && nt == Last(kept)
      modifies nt`next
      ensures nt.next == e && Threaded(kept + [e])
    {
      nt.next := e;
      ghost var r := kept + [e];
      forall i | 0 <= i < |r| - 1 ensures r[i].next == Link(r, i) {
        assert r[i] == kept[i];
        if i + 1 < |kept| { assert Link(kept, i) == kept[i + 1] == r[i + 1]; }
      }
    }

    /** The end of cpl_reap: what has been kept becomes the list. */
    method Settle(nh: Element?, nt: Element?, ghost kept: seq<Element>)
      requires Threaded(kept) && Distinct(kept) && nh == Head(kept) && nt == Last(kept) && ncoproc == |kept|
      modifies this, if nt == null then {} else {nt}
      ensures Valid() && elements == kept
    {
      elements := kept;
      if ncoproc == 0 {
        head, tail := null, null;
      } else {
        if nt != null { nt.next := null; }
        head, tail := nh, nt;
        if ncoproc == 1 { tail := head; }
      }
    }

    /** coproc_dispose and cpe_dispose: afterwards nothing is known of either block. */
    static method Dispose(cpe: Element)
      modifies cpe, cpe.coproc
    {
      modify cpe.coproc;
      modify cpe;
    }

    /** cpl_reap: keeps exactly the elements that are not dead, in order. */
    method Reap()
      requires Valid()
      modifies this, elements, set e | e in elements :: e.coproc
      ensures Valid() && elements == Keep(old(elements), old(Marks(elements)))
      ensures forall e <- elements :: e in old(elements) && unchanged(e.coproc)
    {
      hide Keep, Distinct, Coproc.Dead, Marks, Linked, Threaded, Head, Last;
      LinkedAll(elements);
      ghost var es, marks := elements, Marks(elements);
      var nh: Element?, nt: Element? := null, null;
      var p := head;
      ghost var i: nat := 0;
      ghost var kept: seq<Element> := [];
      while p != null
        invariant i <= |es| && elements == es && kept == Keep(es[..i], marks[..i])
        invariant Threaded(kept)
        invariant nh == Head(kept) && nt == Last(kept)
        invariant forall j {:trigger es[j].next} :: i <= j < |es| ==> es[j].next == Link(es, j)
        invariant forall e <- kept :: e in es && unchanged(e.coproc)
        invariant forall j :: i <= j < |es| ==> unchanged(es[j].coproc)
        invariant p == if i < |es| then es[i] else null
        invariant ncoproc == |kept| + |es| - i
        decreases |es| - i
      {
        NextApart(es, marks, i);
        KeepStep(es, marks, i);
        var next := p.next;
        assert next == Link(es, i) && p.coproc.Dead() == marks[i] && kept + [] == kept;
        if p.coproc.Dead() {
          ncoproc := ncoproc - 1;
          Dispose(p);
        } else {
          Appended(kept, p);
          if nh == null {
            nh, nt := p, p;
          } else {
            Extend(nt, p, kept);
            nt := p;
          }
          kept := kept + [p];
        }
        p := next;
        i := i + 1;
      }
      assert es[..i] == es && marks[..i] == marks;
      KeptApart(es, marks, i);
      assert nt == null || nt in es by { LastIn(kept); }
      Settle(nh, nt, kept);
    }

    /** cpl_flush */
    method Flush()
      requires Valid()
      modifies this, elements, set e | e in elements :: e.coproc
      ensures Valid() && elements == []
    {
      ghost var es := elements;
      var cpe := head;
      ghost var i: nat := 0;
      while cpe != null
        invariant i <= |es| && elements == es && cpe == if i < |es| then es[i] else null
        invariant forall j {:trigger es[j].next} :: i <= j < |es| ==> es[j].next == Link(es, j)
        decreases |es| - i
      {
        var p := cpe;
        cpe := cpe.next;
        Dispose(p);
        i := i + 1;
      }
      head, tail := null, null;
      ncoproc := 0;
      elements := [];
    }

    /** cpl_search */
    method Search(pid: int) returns (cpe: Element?)
      requires Valid()
      ensures var k := IndexOf(Pids(elements), pid);
              cpe == if k < |elements| then elements[k] else null
    {
      hide Pids;
      cpe := head;
      ghost var i: nat := 0;
      while cpe != null
        invariant i <= IndexOf(Pids(elements), pid) && cpe == if i < |elements| then elements[i] else null
        decreases |elements| - i
      {
        assert cpe.coproc.pid == Pids(elements)[i];
        if cpe.coproc.pid == pid { return; }
        assert cpe.next == Link(elements, i);
        cpe := cpe.next;
        i := i + 1;
      }
    }

    /** cpl_searchbyname */
    method SearchByName(name: string) returns (cpe: Element?)
      requires Valid()
      ensures var k := IndexOf(Names(elements), name);
              cpe == if k < |elements| then elements[k] else null
    {
      hide Names;
      cpe := head;
      ghost var i: nat := 0;
      while cpe != null
        invariant i <= IndexOf(Names(elements), name) && cpe == if i < |elements| then elements[i] else null
        decreases |elements| - i
      {
        assert cpe.coproc.name == Names(elements)[i];
        if cpe.coproc.name == name { return; }
        assert cpe.next == Link(elements, i);
        cpe := cpe.next;
        i := i + 1;
      }
    }

    /** cpl_firstactive */
    method FirstActive() returns (pid: int)
      requires Valid()
      ensures var k := IndexOf(Marks(elements), false);
              pid == if k < |elements| then Pids(elements)[k] else NO_PID
    {
      hide Marks, Pids;
      var cpe := head;
      ghost var i: nat := 0;
      while cpe != null
        invariant i <= IndexOf(Marks(elements), false) && cpe == if i < |elements| then elements[i] else null
        decreases |elements| - i
      {
        assert cpe.coproc.Dead() == Marks(elements)[i];
        if !cpe.coproc.Dead() { return cpe.coproc.pid; }
        assert cpe.next == Link(elements, i);
        cpe := cpe.next;
        i := i + 1;
      }
      return NO_PID;
    }
  }
}
