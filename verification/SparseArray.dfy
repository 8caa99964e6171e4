/** Sparse arrays, bash/array.c: circular doubly linked lists of elements in increasing order of
    their subscripts, with a cached size and maximum and a roving cursor that decides where and in
    which direction a search starts. Every operation is proved against the list of entries, and so
    against a map from subscripts to values, whatever the cursor points at. */
module SparseArray {
  import opened CStrings
  import opened SparseEntries

  /** ARRAY_ELEMENT. Only the sentinel of an array has the subscript -1. */
  class Element {
    var ind: int
    var value: string
    var next: Element?
    var prev: Element?

    constructor (ind: int, value: string)
      ensures this.ind == ind && this.value == value && next == null && prev == null
    {
      this.ind, this.value, next, prev := ind, value, null, null;
    }
  }

  /** The elements form a ring through the sentinel, in both directions. */
  ghost predicate Ring(head: Element, nodes: seq<Element>)
    reads head`next, head`prev, nodes`next, nodes`prev
  {
    && head !in nodes
    && (forall i, j :: 0 <= i < j < |nodes| ==> nodes[i] != nodes[j])
    && head.next == (if nodes == [] then head else nodes[0])
    && head.prev == (if nodes == [] then head else nodes[|nodes| - 1])
    && (forall k {:trigger nodes[k].next} :: 0 <= k < |nodes| ==>
          nodes[k].next == if k == |nodes| - 1 then head else nodes[k + 1])
    && (forall k {:trigger nodes[k].prev} :: 0 <= k < |nodes| ==>
          nodes[k].prev == if k == 0 then head else nodes[k - 1])
  }

  /** The elements hold the entries. */
  ghost predicate Holds(nodes: seq<Element>, entries: seq<Entry>)
    reads nodes`ind, nodes`value
  {
    && |entries| == |nodes|
    && forall k :: 0 <= k < |nodes| ==> nodes[k].ind == entries[k].ind && nodes[k].value == entries[k].value
  }

  /** ARRAY. nodes are the elements in list order, entries what they hold. */
  class Array {
    var maxIndex: int
    var numElements: int
    const head: Element
    var lastref: Element?
    ghost var nodes: seq<Element>
    ghost var entries: seq<Entry>

    /** The representation invariant, but for the cached maximum. */
    ghost predicate Linked()
      reads this, head, nodes
    {
      && Ring(head, nodes) && Holds(nodes, entries) && Sorted(entries)
      && head.ind == -1
      && numElements == |nodes|
      && (lastref == null || lastref in nodes)
    }

    ghost predicate Valid()
      reads this, head, nodes
    {
      Linked() && maxIndex == Last(entries)
    }

    /** The array as a map. */
    ghost function Contents(): map<int, string>
      requires Linked()
      reads this, head, nodes
    {
      ToMap(entries)
    }

    /** array_create. */
    constructor ()
      ensures Valid() && entries == [] && nodes == [] && fresh(head) && lastref == null
    {
      maxIndex, numElements, lastref := -1, 0, null;
      nodes, entries := [], [];
      var h := new Element(-1, "");
      head := h;
      new;
      head.prev := head;
      head.next := head;
    }

    /** The element at a position of the ring. */
    ghost function At(p: int): Element
      requires 0 <= p <= |nodes|
      reads this
    {
      if p < |nodes| then nodes[p] else head
    }

    /** The element in front of a position of the ring. */
    ghost function Before(p: int): Element
      requires 0 <= p <= |nodes|
      reads this
    {
      if p > 0 then nodes[p - 1] else head
    }

    /** ADD_BEFORE, at position p of the ring. */
    method AddBefore(ae: Element, e: Element, ghost p: nat)
      requires Ring(head, nodes) && p <= |nodes| && ae == At(p) && e != head && e !in nodes
      modifies this`nodes, ae`prev, Before(p)`next, e`next, e`prev
      ensures nodes == Splice(old(nodes), p, e)
      ensures Ring(head, nodes)
    {
      ae.prev.next := e;
      e.prev := ae.prev;
      ae.prev := e;
      e.next := ae;
      nodes := Splice(nodes, p, e);
    }

    /** ADD_AFTER, behind position p - 1 of the ring. */
    method AddAfter(ae: Element, e: Element, ghost p: nat)
      requires Ring(head, nodes) && p <= |nodes| && ae == (if p == 0 then head else nodes[p - 1]) && e != head
              && e !in nodes
      modifies this`nodes, head`next, head`prev, nodes`next, nodes`prev, e`next, e`prev
      ensures nodes == Splice(old(nodes), p, e)
      ensures Ring(head, nodes)
    {
      ae.next.prev := e;
      e.next := ae.next;
      e.prev := ae;
      ae.next := e;
      nodes := Splice(nodes, p, e);
    }

    /** The element e has been hooked in at position p: count it, and point the cursor at it. */
    method Added(e: Element, ghost p: nat, ghost before: seq<Element>)
      requires Ring(head, nodes) && head.ind == -1 && p <= |before| && nodes == Splice(before, p, e)
      requires Holds(before, entries) && |before| == numElements && Sorted(entries) && 0 <= e.ind
      requires (p > 0 ==> entries[p - 1].ind < e.ind) && (p < |entries| ==> e.ind < entries[p].ind)
      modifies this`entries, this`numElements, this`lastref
      ensures Linked() && lastref == e
      ensures var es := old(entries);
              && entries == Splice(es, p, Entry(e.ind, e.value))
              && ToMap(entries) == ToMap(es)[e.ind := e.value]
              && Last(entries) == if p == |before| then e.ind else Last(es)
      ensures forall k :: 0 <= k < |nodes| ==> nodes[k] in before || nodes[k] == e
    {
      hide ToMap, Splice;
      InsertMap(entries, p, e.ind, e.value);
      entries := Splice(entries, p, Entry(e.ind, e.value));
      numElements := numElements + 1;
      lastref := e;
      assert nodes[p] == e;
    }

    /** Where the search for i starts, and in which direction it goes. */
    method Start(i: int) returns (start: Element, direction: int, ghost p: nat)
      requires Valid() && nodes != [] && entries[0].ind <= i <= maxIndex
      ensures p < |nodes| && start == nodes[p]
      ensures direction == if entries[p].ind <= i then 1 else -1
    {
      start := if lastref != null then lastref else head.next;
      p := if lastref != null then (var k :| 0 <= k < |nodes| && nodes[k] == lastref; k) else 0;
      var startind := start.ind;
      if i < startind / 2 {
        start, p := head.next, 0;
        direction := 1;
      } else if i >= startind {
        direction := 1;
      } else {
        direction := -1;
      }
    }

    /** The search for i has come to position p without having passed it. */
    ghost predicate Approaching(i: int, direction: int, p: nat)
      reads this
      requires p < |entries|
    {
      if direction == 1 then
        (p > 0 ==> entries[p - 1].ind < i) && i <= entries[|entries| - 1].ind
      else
        (p < |entries| - 1 ==> i < entries[p + 1].ind) && entries[0].ind <= i
    }

    /** e has become part of the array, and the cursor points at it. */
    twostate predicate Grown(e: Element)
      reads this, head, nodes, e
    {
      && Linked() && lastref == e
      && old(Sorted(entries)) && ToMap(entries) == old(ToMap(entries))[e.ind := e.value]
      && forall k :: 0 <= k < |nodes| ==> nodes[k] in old(nodes) || nodes[k] == e
    }

    /** Hook e in before position p and count it. */
    method HookBefore(ae: Element, e: Element, ghost p: nat)
      requires Linked() && p <= |nodes| && ae == At(p) && e != head && e !in nodes && 0 <= e.ind
      requires (p > 0 ==> entries[p - 1].ind < e.ind) && (p < |entries| ==> e.ind < entries[p].ind)
      modifies this`nodes, this`entries, this`numElements, this`lastref
      modifies head`next, head`prev, nodes`next, nodes`prev, e`next, e`prev
      ensures Grown(e) && Last(entries) == if p == |old(nodes)| then e.ind else Last(old(entries))
    {
      hide ToMap, Splice, Ring, Holds, Sorted;
      AddBefore(ae, e, p);
      Added(e, p, old(nodes));
    }

    /** Hook e in behind position p - 1 and count it. */
    method HookAfter(ae: Element, e: Element, ghost p: nat)
      requires Linked() && p <= |nodes| && ae == (if p == 0 then head else nodes[p - 1])
      requires e != head && e !in nodes && 0 <= e.ind
      requires (p > 0 ==> entries[p - 1].ind < e.ind) && (p < |entries| ==> e.ind < entries[p].ind)
      modifies this`nodes, this`entries, this`numElements, this`lastref
      modifies head`next, head`prev, nodes`next, nodes`prev, e`next, e`prev
      ensures Grown(e) && Last(entries) == if p == |old(nodes)| then e.ind else Last(old(entries))
    {
      hide ToMap, Splice, Ring, Holds, Sorted;
      AddAfter(ae, e, p);
      Added(e, p, old(nodes));
    }

    /** array_first_index. */
    lemma First()
      requires Linked()
      ensures head.next == if nodes == [] then head else nodes[0]
      ensures numElements == |nodes| == |entries|
      ensures nodes != [] ==> nodes[0].ind == entries[0].ind && 0 <= entries[0].ind <= Last(entries)
    {
    }

    lemma Outside(i: int)
      requires Linked() && (entries == [] || i < entries[0].ind || i > Last(entries))
      ensures i !in Contents()
    {
      Between(entries, if entries == [] || i < entries[0].ind then 0 else |entries|, i);
    }

    /** The search for i, which is within the range of the array, has not passed it at p. */
    ghost predicate NotPassed(i: int, direction: int, p: nat)
      reads this
      requires p < |entries|
    {
      && entries[0].ind <= i <= Last(entries)
      && if direction == 1 then entries[p].ind <= i else i <= entries[p].ind
    }

    /** What a position of the ring looks like. */
    lemma Around(p: nat)
      requires Linked() && p < |nodes|
      ensures |nodes| == |entries| && nodes[p] != head && nodes[p].ind == entries[p].ind
              && nodes[p].value == entries[p].value
      ensures nodes[p].next == (if p == |nodes| - 1 then head else nodes[p + 1])
      ensures nodes[p].prev == (if p == 0 then head else nodes[p - 1])
      ensures entries[0].ind <= entries[p].ind <= Last(entries)
      ensures p > 0 ==> entries[p - 1].ind < entries[p].ind
      ensures p < |nodes| - 1 ==> entries[p].ind < entries[p + 1].ind
    {
    }

    /** array_insert: a[i] = v. The return value -1, "problem", does not occur. */
    method Insert(i: int, v: string) returns (status: int)
      requires Valid() && 0 <= i
      modifies this, head`next, head`prev, nodes
      ensures Valid() && status == 0
      ensures Contents() == old(Contents())[i := v]
      ensures lastref != null && lastref.ind == i
      ensures forall k :: 0 <= k < |nodes| ==> nodes[k] in old(nodes) || fresh(nodes[k])
    {
      hide ToMap, Ring, Holds, Sorted;
      First();
      var e := new Element(i, v);
      if i > maxIndex {
        // hook onto the end, also of an empty array
        HookBefore(head, e, |nodes|);
        maxIndex := i;
        return 0;
      } else if i < head.next.ind {
        HookAfter(head, e, 0);
        return 0;
      }
      status := InsertInside(i, v, e);
    }

    /** The search of array_insert. */
    method InsertInside(i: int, v: string, e: Element) returns (status: int)
      requires Valid() && nodes != [] && entries[0].ind <= i <= maxIndex
      requires e !in nodes && e != head && e.ind == i && e.value == v && 0 <= i
      modifies this, head`next, head`prev, nodes, e`next, e`prev
      ensures Valid() && status == 0
      ensures Contents() == old(Contents())[i := v]
      ensures lastref != null && lastref.ind == i
      ensures forall k :: 0 <= k < |nodes| ==> nodes[k] in old(nodes) || nodes[k] == e
    {
      hide ToMap, Ring, Holds, Sorted;
      status := -1;
      var ae: Element?, direction: int;
      ghost var p: nat;
      ae, direction, p := Start(i);
      Around(p);
      while ae != head
        invariant unchanged(this) && unchanged(nodes) && unchanged(head) && unchanged(e)
        invariant 0 <= p < |nodes| == |entries| && ae == nodes[p] && (direction == 1 || direction == -1)
        invariant Approaching(i, direction, p)
        decreases if direction == 1 then |nodes| - p else p
      {
        Around(p);
        if ae.ind == i {
          Replace(ae, v, p);
          return 0;
        } else if direction == 1 && ae.ind > i {
          HookBefore(ae, e, p);
          return 0;
        } else if direction == -1 && ae.ind < i {
          HookAfter(ae, e, p + 1);
          return 0;
        }
        ae := if direction == 1 then ae.next else ae.prev;
        p := if direction == 1 then p + 1 else p - 1;
      }
      Around(p);
      assert false;
    }

    /** Swap in a new value for the element at position p, and point the cursor at it. */
    method Replace(ae: Element, v: string, ghost p: nat)
      requires Valid() && p < |nodes| && ae == nodes[p]
      modifies this`entries, this`lastref, ae`value
      ensures Valid() && entries == old(entries)[p := Entry(old(entries)[p].ind, v)]
      ensures Contents() == old(Contents())[ae.ind := v] && lastref == ae
    {
      hide ToMap;
      ReplaceMap(entries, p, v);
      ae.value := v;
      entries := entries[p := Entry(entries[p].ind, v)];
      lastref := ae;
    }

    /** The search of array_reference and array_remove. If it fails, it stops at a neighbour of i. */
    method Search(i: int) returns (ae: Element, found: bool, ghost p: nat)
      requires Valid() && nodes != [] && entries[0].ind <= i <= maxIndex
      ensures p < |nodes| && ae == nodes[p] && (found <==> i in Contents())
      ensures found ==> ae.ind == i && ae.value == Contents()[i]
    {
      hide ToMap, Ring, Holds, Sorted;
      var direction: int;
      ae, direction, p := Start(i);
      Around(p);
      while ae != head
        invariant p < |nodes| == |entries| && ae == nodes[p] && ae != head && (direction == 1 || direction == -1)
        invariant NotPassed(i, direction, p)
        decreases if direction == 1 then |nodes| - p else p
      {
        Around(p);
        if ae.ind == i {
          Member(entries, p);
          return ae, true, p;
        }
        ae := if direction == 1 then ae.next else ae.prev;
        p := if direction == 1 then p + 1 else p - 1;
        Around(p);
        if direction == 1 && ae.ind > i {
          Between(entries, p, i);
          break;
        } else if direction == -1 && ae.ind < i {
          Between(entries, p + 1, i);
          break;
        }
      }
      found := false;
    }

    /** array_reference: the value at i; an unsuccessful search leaves the cursor nearby. */
    method Reference(i: int) returns (v: Option<string>)
      requires Valid()
      modifies this`lastref
      ensures Valid() && v == if i in Contents() then Some(Contents()[i]) else None
      ensures i in Contents() ==> lastref != null && lastref.ind == i
    {
      hide ToMap, Ring, Holds, Sorted;
      First();
      if numElements == 0 || i > maxIndex || i < head.next.ind {
        Outside(i);
        return None;
      }
      ghost var p: nat;
      var ae, found;
      ae, found, p := Search(i);
      lastref := ae;
      v := if found then Some(ae.value) else None;
    }

    /** Take the element at position p out of the ring. */
    method Unlink(ae: Element, ghost p: nat)
      requires Ring(head, nodes) && p < |nodes| && ae == nodes[p]
      modifies this`nodes, head`next, head`prev, nodes`next, nodes`prev
      ensures nodes == Cut(old(nodes), p)
      ensures Ring(head, nodes)
      ensures ae !in nodes && ae.next == (if p < |nodes| then nodes[p] else head)
      ensures ae.prev == if p == 0 then head else nodes[p - 1]
    {
      hide Cut;
      ae.next.prev := ae.prev;
      ae.prev.next := ae.next;
      nodes := Cut(nodes, p);
    }

    /** array_remove: the element with subscript i is taken out and returned. */
    method Remove(i: int) returns (r: Element?)
      requires Valid()
      modifies this, head`next, head`prev, nodes`next, nodes`prev
      ensures Valid() && forall k :: 0 <= k < |nodes| ==> nodes[k] in old(nodes)
      ensures Contents() == old(Contents()) - {i}
      ensures r != null <==> i in old(Contents())
      ensures r != null ==> r in old(nodes) && r !in nodes && r.ind == i && r.value == old(Contents())[i]
    {
      hide ToMap, Ring, Holds, Sorted;
      First();
      if numElements == 0 || i > maxIndex || i < head.next.ind {
        Outside(i);
        return null;
      }
      ghost var p: nat;
      var ae, found;
      ae, found, p := Search(i);
      if !found {
        return null;
      }
      RemoveAt(ae, p);
      r := ae;
    }

    lemma HoldsCut(p: nat)
      requires Linked() && p < |nodes|
      ensures |nodes| == |entries| && Holds(Cut(nodes, p), Cut(entries, p))
      ensures Last(Cut(entries, p)) == if p < |nodes| - 1 then Last(entries) else if p == 0 then -1
              else nodes[p - 1].ind
      ensures nodes[p].ind == entries[p].ind && (nodes[p].ind == Last(entries) <==> p == |nodes| - 1)
    {
      hide Cut;
    }

    /** Take out the element at position p, and keep the size, the maximum and the cursor right. */
    method RemoveAt(ae: Element, ghost p: nat)
      requires Valid() && p < |nodes| && ae == nodes[p]
      modifies this, head`next, head`prev, nodes`next, nodes`prev
      ensures Valid() && nodes == Cut(old(nodes), p) && ae !in nodes
      ensures Contents() == old(Contents()) - {ae.ind}
    {
      hide ToMap, Cut, Ring, Holds, Sorted;
      HoldsCut(p);
      RemoveMap(entries, p);
      Unlink(ae, p);
      entries := Cut(entries, p);
      numElements := numElements - 1;
      if ae.ind == maxIndex {
        maxIndex := ae.prev.ind;
      }
      MoveCursor(ae, p);
    }

    /** The cursor goes to a neighbour of the element that was taken out, if there is one. */
    method MoveCursor(ae: Element, ghost p: nat)
      requires p <= |nodes| && ae.next == At(p) && ae.prev == if p == 0 then head else nodes[p - 1]
      modifies this`lastref
      ensures lastref == null || lastref in nodes
    {
      if ae.next != head {
        lastref := ae.next;
      } else if ae.prev != head {
        lastref := ae.prev;
      } else {
        lastref := null;
      }
    }

    /** array_flush. */
    method Flush()
      requires head.ind == -1
      modifies this, head`next, head`prev
      ensures Valid() && entries == [] && nodes == []
    {
      head.next, head.prev := head, head;
      maxIndex := -1;
      numElements := 0;
      lastref := null;
      nodes, entries := [], [];
    }

    /** array_to_word_list: the values in order. The list is built backwards and then reversed. */
    method ToWordList() returns (list: seq<string>)
      requires Linked()
      ensures list == Values(entries)
    {
      if numElements == 0 {
        return [];
      }
      var backwards: seq<string> := [];
      var ae := head.next;
      ghost var p := 0;
      while ae != head
        invariant 0 <= p <= |nodes| && ae == At(p)
        invariant |backwards| == p && forall k :: 0 <= k < p ==> backwards[k] == entries[p - 1 - k].value
        decreases |nodes| - p
      {
        backwards := [ae.value] + backwards;
        ae := ae.next;
        p := p + 1;
      }
      list := seq(|backwards|, k requires 0 <= k < |backwards| => backwards[|backwards| - 1 - k]);
    }

    /** The array is being filled: only the counts are not right yet. */
    ghost predicate Building()
      reads this, head, nodes
    {
      && Ring(head, nodes) && Holds(nodes, entries) && Sorted(entries) && head.ind == -1
      && (lastref == null || lastref in nodes)
    }

    lemma Empty()
      requires Linked() && nodes == []
      ensures Building() && entries == []
    {
    }

    lemma Built()
      requires Building() && numElements == |entries|
      ensures Linked()
    {
    }

    /** A new element at the end of the ring, and perhaps the cursor on it; the counts are the
        caller's business. */
    method Append(ind: int, value: string, mark: bool) returns (e: Element)
      requires Building() && Last(entries) < ind
      modifies this`nodes, this`entries, this`lastref, head`prev, Before(|nodes|)`next
      ensures lastref == if mark then e else old(lastref)
      ensures Building() && entries == old(entries) + [Entry(ind, value)]
      ensures nodes == old(nodes) + [e] && fresh(e) && e.ind == ind
    {
      hide Ring, Sorted;
      e := new Element(ind, value);
      AddBefore(head, e, |nodes|);
      SortedAppend(entries, Entry(ind, value));
      entries := entries + [Entry(ind, value)];
      if mark {
        lastref := e;
      }
    }

    static lemma SortedAppend(es: seq<Entry>, e: Entry)
      requires Sorted(es) && Last(es) < e.ind
      ensures Sorted(es + [e])
    {
    }

    lemma Next(p: nat, q: nat)
      requires Linked() && p <= q < |entries|
      ensures Last(entries[p..q]) < entries[q].ind && entries[p..q + 1] == entries[p..q] + [entries[q]]
    {
    }

    static twostate predicate AllFresh(new s: seq<Element>) {
      forall k :: 0 <= k < |s| ==> fresh(s[k])
    }

    static twostate lemma AllFreshAppend(new s: seq<Element>, new e: Element)
      requires AllFresh(s) && fresh(e)
      ensures AllFresh(s + [e])
    {
    }

    /** Nothing of a existed before. */
    twostate predicate New(new a: Array)
      reads a
    {
      fresh(a) && fresh(a.head) && AllFresh(a.nodes)
    }

    /** array_copy: an independent copy; its cursor is set even if that of the original is not. */
    method Copy() returns (a1: Array)
      requires Valid()
      ensures New(a1) && a1.Valid() && a1.entries == entries
      ensures a1.lastref == null <==> entries == []
      ensures a1.lastref != null ==> a1.lastref.ind == if lastref != null then lastref.ind else head.next.ind
    {
      hide Linked, Ring, Holds, Sorted;
      a1 := new Array();
      a1.Empty();
      a1.maxIndex := maxIndex;
      a1.numElements := numElements;
      var ae: Element? := head.next;
      First();
      ghost var p := 0;
      ghost var l := LastrefAt();
      Distinct(0, |nodes|);
      assert a1.Building();
      hide Building;
      while ae != head
        invariant Linked()
        invariant 0 <= p <= |nodes| == |entries| && ae == At(p) && (ae == head <==> p == |nodes|)
        invariant New(a1) && a1.Building() && a1.entries == entries[..p] && |a1.nodes| == p
        invariant a1.maxIndex == maxIndex && a1.numElements == numElements
        invariant a1.lastref == if l < p then a1.nodes[l] else null
        decreases |nodes| - p
      {
        Around(p);
        Next(0, p);
        Distinct(p + 1, |nodes|);
        ghost var before := a1.nodes;
        var marked := ae == if lastref != null then lastref else head.next;
        assert marked <==> p == l;
        var e := a1.Append(ae.ind, ae.value, marked);
        AllFreshAppend(before, e);
        ae := ae.next;
        p := p + 1;
      }
      assert entries[..p] == entries;
      a1.Built();
      if nodes != [] { a1.Around(l); }
    }

    /** The position of LASTREF. */
    lemma LastrefAt() returns (l: nat)
      requires Linked()
      ensures if nodes == [] then l == 0
              else
                && l < |nodes| == |entries| && nodes[l] == (if lastref != null then lastref else head.next)
                && nodes[l].ind == entries[l].ind
                && forall k :: 0 <= k < |nodes| && k != l ==> nodes[k] != nodes[l]
    {
      l := 0;
      if lastref != null { l :| 0 <= l < |nodes| && nodes[l] == lastref; }
    }

    /** array_slice: the elements from s up to, but not including, e. An empty slice has the
        maximum 0 instead of -1, so that it is not a valid array. */
    method Slice(s: Element, e: Element, ghost p: nat, ghost q: nat) returns (a: Array)
      requires Linked() && p <= q <= |nodes| && s == At(p) && e == At(q)
      ensures New(a) && a.Linked() && a.entries == entries[p..q]
      ensures a.maxIndex == if s == e then 0 else Last(entries[p..q])
      ensures a.Valid() <==> s != e
    {
      hide Linked, Ring, Holds, Sorted;
      a := new Array();
      var mi, i := 0, 0;
      var n: Element? := s;
      ghost var r := p;
      First();
      Distinct(p, q);
      a.Empty();
      hide Building;
      while n != e
        invariant Linked()
        invariant p <= r <= q <= |nodes| == |entries| && n == At(r) && (n == e <==> r == q) && i == r - p
        invariant New(a) && a.Building() && a.entries == entries[p..r] && a.lastref == null
        invariant mi == if r == p then 0 else Last(entries[p..r])
        decreases q - r
      {
        Around(r);
        Next(p, r);
        Distinct(r + 1, q);
        ghost var before := a.nodes;
        var c := a.Append(n.ind, n.value, false);
        AllFreshAppend(before, c);
        mi := c.ind;
        n, i := n.next, i + 1;
        r := r + 1;
      }
      a.numElements := i;
      a.maxIndex := mi;
      assert a.Building();
      a.Built();
    }

    lemma Distinct(p: nat, q: nat)
      requires Linked() && p <= q <= |nodes|
      ensures At(p) == At(q) <==> p == q
    {
    }

    /** The elements from position p on get new subscripts. */
    method Renumber(first: Element, d: int, ghost p: nat, ghost es: seq<Entry>)
      requires Ring(head, nodes) && p <= |nodes| && first == At(p) && Holds(nodes, es)
      modifies nodes`ind
      ensures |nodes| == |es| && Holds(nodes, MovedFrom(es, p, d)) && head.ind == old(head.ind)
    {
      var ae: Element? := first;
      ghost var q := p;
      while ae != head
        invariant p <= q <= |nodes| && ae == At(q)
        invariant forall k :: 0 <= k < |nodes| ==>
                    nodes[k].ind == es[k].ind + (if p <= k < q then d else 0) && nodes[k].value == es[k].value
        decreases |nodes| - q
      {
        ae.ind := ae.ind + d;
        ae := ae.next;
        q := q + 1;
      }
    }

    /** The elements of c form a null-terminated list. */
    static ghost predicate Chain(c: seq<Element>)
      reads c
    {
      forall k {:trigger c[k].next} :: 0 <= k < |c| ==> c[k].next == if k == |c| - 1 then null else c[k + 1]
    }

    /** Up to n steps along the ring, from position p on. */
    method Walk(first: Element, n: int, ghost p: nat) returns (ae: Element, ghost steps: nat)
      requires Linked() && p <= |nodes| && first == At(p)
      ensures steps == if n <= 0 then 0 else if n < |nodes| - p then n else |nodes| - p
      ensures ae == At(p + steps) && (ae == head <==> p + steps == |nodes|)
    {
      hide Ring, Holds, Sorted;
      var i := 0;
      ae := first;
      Distinct(p, |nodes|);
      while ae != head && i < n
        invariant 0 <= i <= |nodes| - p && ae == At(p + i) && (ae == head <==> p + i == |nodes|)
        invariant i <= n || i == 0
        decreases |nodes| - i
      {
        Around(p + i);
        Distinct(p + i + 1, |nodes|);
        ae := ae.next;
        i := i + 1;
      }
      steps := i;
    }

    /** array_shift: the first n elements are taken out, and returned unless they are disposed of;
        the subscripts of the others go down by n. */
    method Shift(n: int, dispose: bool) returns (ret: Element?)
      requires Valid()
      modifies this, head`next, head`prev, nodes
      ensures Valid() && entries == Shifted(old(entries), n)
      ensures ret == null <==> n <= 0 || old(entries) == [] || dispose
      ensures ret != null ==>
                var c := old(nodes)[..if n < |old(nodes)| then n else |old(nodes)|];
                ret == c[0] && Chain(c) && Holds(c, old(entries)[..|c|])
      ensures nodes == old(nodes)[if n <= 0 then 0 else if n < |old(nodes)| then n else |old(nodes)|..]
      ensures n > 0 && nodes != [] ==> lastref == null
    {
      hide ToMap, Ring, Holds, Sorted;
      First();
      ShiftedSorted(entries, n);
      if numElements == 0 || n <= 0 {
        return null;
      }
      var ae;
      ghost var i;
      ret := head.next;
      ae, i := Walk(ret, n, 0);
      lastref := null;
      if ae == head {
        ret := ShiftAll(dispose);
        assert old(nodes)[..|old(nodes)|] == old(nodes) && old(entries)[..|old(nodes)|] == old(entries);
        return;
      }
      ShiftSome(ae, n);
      if dispose {
        return null;
      }
    }

    /** array_shift where elements remain. */
    method ShiftSome(ae: Element, n: int)
      requires Linked() && 0 < n < |nodes| && ae == nodes[n] && lastref == null
      modifies this, head`next, nodes
      ensures Valid() && entries == Shifted(old(entries), n) && nodes == old(nodes)[n..] && lastref == null
      ensures Chain(old(nodes)[..n]) && Holds(old(nodes)[..n], old(entries)[..n])
    {
      hide Ring, Holds, Sorted, ToMap, MovedFrom, Shifted;
      HoldsSplit(n);
      ShiftedIs(entries, n);
      SplitOff(ae, n);
      numElements := numElements - n;
      RenumberRest(ae, -n, 0, entries[n..]);
    }

    /** Renumber, and read off the maximum. */
    method RenumberRest(ae: Element, d: int, ghost p: nat, ghost es: seq<Entry>)
      requires Ring(head, nodes) && p <= |nodes| && ae == At(p) && Holds(nodes, es) && head.ind == -1
      requires numElements == |nodes| && Sorted(MovedFrom(es, p, d))
      modifies this`entries, this`maxIndex, this`lastref, nodes`ind
      ensures Valid() && entries == MovedFrom(es, p, d) && lastref == null
    {
      hide Ring, Holds, Sorted, MovedFrom;
      Renumber(ae, d, p, es);
      Settle(MovedFrom(es, p, d));
    }

    method Settle(ghost es: seq<Entry>)
      requires Ring(head, nodes) && Holds(nodes, es) && Sorted(es) && head.ind == -1 && numElements == |nodes|
      modifies this`entries, this`maxIndex, this`lastref
      ensures Valid() && entries == es && lastref == null
    {
      entries := es;
      lastref := null;
      maxIndex := head.prev.ind;
    }

    lemma HoldsSplit(n: nat)
      requires Holds(nodes, entries) && n <= |nodes|
      ensures |nodes| == |entries| && Holds(nodes[..n], entries[..n]) && Holds(nodes[n..], entries[n..])
    {
    }

    /** The easy case of array_shift. */
    method ShiftAll(dispose: bool) returns (ret: Element?)
      requires Linked() && nodes != []
      modifies this, head`next, head`prev, nodes`next
      ensures Valid() && entries == [] && nodes == [] && lastref == null
      ensures dispose ==> ret == null
      ensures !dispose ==> ret == old(nodes)[0] && Chain(old(nodes))
    {
      if dispose {
        Flush();
        return null;
      }
      ret := head.next;
      var ae: Element? := ret;
      ghost var p := 0;
      while ae.next != head
        invariant 0 <= p < |nodes| && ae == nodes[p] && Linked()
        decreases |nodes| - p
      {
        ae := ae.next;
        p := p + 1;
      }
      ae.next := null;
      Flush();
    }

    /** Cut the ring in front of ae, at position n. */
    method SplitOff(ae: Element, ghost n: nat)
      requires Ring(head, nodes) && 0 < n < |nodes| && ae == nodes[n]
      modifies this`nodes, head`next, nodes`next, nodes`prev
      ensures nodes == old(nodes)[n..] && Ring(head, nodes) && Chain(old(nodes)[..n])
      ensures forall k :: 0 <= k < n ==> old(nodes)[k] !in nodes
    {
      ae.prev.next := null;
      head.next := ae;
      ae.prev := head;
      nodes := nodes[n..];
    }

    /** array_rshift: all subscripts go up by n, and s, if given, becomes element 0. */
    method RShift(n: int, s: Option<string>) returns (count: int)
      requires Valid()
      modifies this, head`next, head`prev, nodes
      ensures Valid() && entries == (if old(entries) == [] && s.None? then [] else RShifted(old(entries), n, s))
      ensures count == |entries|
      ensures n > 0 && old(entries) != [] ==> lastref == null
      ensures forall k :: 0 <= k < |nodes| ==> nodes[k] in old(nodes) || fresh(nodes[k])
    {
      hide ToMap, Ring, Holds, Sorted, Splice, MovedFrom, RShifted;
      First();
      if n > 0 { RShiftedIs(entries, n, s); }
      if numElements == 0 && s.None? {
        return 0;
      } else if n <= 0 {
        assert RShifted(entries, n, s) == entries by { RShiftedNone(entries, n, s); }
        return numElements;
      }
      var ae: Element := head.next;
      if s.Some? {
        AddZero(ae, s.value);
        if numElements == 1 {
          maxIndex := 0;
          entries := [Entry(0, s.value)] + entries;
          assert entries == RShifted(old(entries), n, s);
          return 1;
        }
      }
      ghost var es := if s.Some? then [Entry(0, s.value)] + entries else entries;
      ghost var p := if s.Some? then 1 else 0;
      RenumberRest(ae, n, p, es);
      count := numElements;
    }

    /** A new first element with the subscript 0. */
    method AddZero(ae: Element, v: string)
      requires Linked() && ae == At(0)
      modifies this`nodes, this`numElements, head`next, head`prev, nodes`next, nodes`prev
      ensures Ring(head, nodes) && |nodes| == |entries| + 1 == numElements
      ensures Holds(nodes, [Entry(0, v)] + entries) && ae == At(1)
      ensures forall k :: 0 <= k < |nodes| ==> nodes[k] in old(nodes) || fresh(nodes[k])
    {
      hide Ring, Sorted;
      var e := new Element(0, v);
      AddBefore(ae, e, 0);
      HoldsSplice(old(nodes), e, entries);
      numElements := numElements + 1;
    }

    lemma HoldsSplice(ns: seq<Element>, e: Element, es: seq<Entry>)
      requires Holds(ns, es)
      ensures Holds(Splice(ns, 0, e), [Entry(e.ind, e.value)] + es) && |ns| == |es|
    {
    }

    /** array_assign_list: the words become the elements 0, 1, 2, ... */
    method AssignList(list: seq<string>)
      requires Valid()
      modifies this, head`next, head`prev, nodes
      ensures Valid() && Contents() == old(Contents()) + ListMap(list)
      ensures forall k :: 0 <= k < |nodes| ==> nodes[k] in old(nodes) || fresh(nodes[k])
    {
      hide ToMap;
      assert old(Contents()) + ListMap(list[..0]) == old(Contents());
      var i := 0;
      while i < |list|
        invariant 0 <= i <= |list| && Valid()
        invariant Contents() == old(Contents()) + ListMap(list[..i])
        invariant forall k :: 0 <= k < |nodes| ==> nodes[k] in old(nodes) || fresh(nodes[k])
      {
        assert ListMap(list[..i + 1]) == ListMap(list[..i])[i := list[i]];
        var status := Insert(i, list[i]);
        i := i + 1;
      }
      assert list[..i] == list;
    }

    /** array_from_word_list. Reading the words back gives the list again. */
    static method FromWordList(list: seq<string>) returns (a: Array?)
      ensures a == null <==> list == []
      ensures a != null ==> fresh(a) && a.Valid() && a.Contents() == ListMap(list) && Values(a.entries) == list
    {
      if list == [] {
        return null;
      }
      a := new Array();
      a.AssignList(list);
      assert map[] + ListMap(list) == ListMap(list);
      DenseList(a.entries, list);
    }

    /** array_subrange: the values of nelem elements, from the first with a subscript of at least
        start; None where there are none. */
    method Subrange(start: int, nelem: int) returns (words: Option<seq<string>>)
      requires Valid()
      ensures var first := From(entries, start);
              var count := if nelem < |entries| - first then nelem else |entries| - first;
              words == if entries == [] || start > Last(entries) || nelem <= 0 then None
                       else Some(Values(entries[first..first + count]))
    {
      hide Ring, Holds, Sorted, From;
      First();
      if numElements == 0 || start > maxIndex {
        return None;
      }
      var h: Element? := head.next;
      ghost var first := 0;
      Distinct(0, |nodes|);
      while h != head && start > h.ind
        invariant 0 <= first <= |nodes| == |entries| && h == At(first) && (h == head <==> first == |nodes|)
        invariant forall k :: 0 <= k < first ==> entries[k].ind < start
        decreases |nodes| - first
      {
        Around(first);
        Distinct(first + 1, |nodes|);
        h := h.next;
        first := first + 1;
      }
      if h == head {
        assert false;
      }
      Around(first);
      FromIs(entries, start, first);
      var p;
      ghost var i;
      p, i := Walk(h, nelem, first);
      Distinct(first, first + i);
      var a2 := Slice(h, p, first, first + i);
      var wl := a2.ToWordList();
      words := if wl == [] then None else Some(wl);
    }
  }
}
