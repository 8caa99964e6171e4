/** What the sparse arrays of bash/array.c contain: sorted lists of subscripts with values, the maps
    they stand for, and the effect of each operation on both. */
module SparseEntries {
  import opened CStrings

  datatype Entry = Entry(ind: int, value: string)

  /** Subscripts are non-negative and strictly increasing. */
  predicate Sorted(es: seq<Entry>) {
    && (forall i :: 0 <= i < |es| ==> 0 <= es[i].ind)
    && (forall i, j :: 0 <= i < j < |es| ==> es[i].ind < es[j].ind)
  }

  /** The map that a sorted list of entries represents. */
  function ToMap(es: seq<Entry>): (m: map<int, string>)
    requires Sorted(es)
  {
    map k | 0 <= k < |es| :: es[k].ind := es[k].value
  }

  function Values(es: seq<Entry>): (s: seq<string>)
    ensures |s| == |es| && forall k :: 0 <= k < |es| ==> s[k] == es[k].value
  {
    seq(|es|, k requires 0 <= k < |es| => es[k].value)
  }

  /** The subscript of the last entry, -1 for an empty list. */
  function Last(es: seq<Entry>): int {
    if es == [] then -1 else es[|es| - 1].ind
  }

  /** The subscripts from position p on moved by d. */
  function MovedFrom(es: seq<Entry>, p: nat, d: int): (r: seq<Entry>)
    ensures |r| == |es|
    ensures forall k :: 0 <= k < |es| ==> r[k] == if k < p then es[k] else Entry(es[k].ind + d, es[k].value)
  {
    seq(|es|, k requires 0 <= k < |es| => if k < p then es[k] else Entry(es[k].ind + d, es[k].value))
  }

  function Moved(es: seq<Entry>, d: int): seq<Entry> {
    MovedFrom(es, 0, d)
  }

  /** array_shift: the first n elements go, whatever their subscripts, and the others move down. */
  function Shifted(es: seq<Entry>, n: int): seq<Entry> {
    if n <= 0 then es else if n >= |es| then [] else Moved(es[n..], -n)
  }

  /** array_rshift: everything moves up, and s, if given, becomes element 0. */
  function RShifted(es: seq<Entry>, n: int, s: Option<string>): seq<Entry> {
    if n <= 0 then es
    else (if s.Some? then [Entry(0, s.value)] else []) + Moved(es, n)
  }

  /** array_subrange: up to n entries, from the first one with a subscript of at least start. */
  function From(es: seq<Entry>, start: int): (r: nat)
    ensures r <= |es|
    ensures forall k :: 0 <= k < r ==> es[k].ind < start
    ensures r < |es| ==> start <= es[r].ind
  {
    if es == [] || start <= es[0].ind then 0 else 1 + From(es[1..], start)
  }

  lemma {:induction false} FromIs(es: seq<Entry>, start: int, r: nat)
    requires r <= |es| && forall k :: 0 <= k < r ==> es[k].ind < start
    requires r < |es| ==> start <= es[r].ind
    ensures From(es, start) == r
  {
    if r > 0 {
      assert es[0].ind < start;
      FromIs(es[1..], start, r - 1);
    }
  }

  lemma {:induction false} IndexBound(es: seq<Entry>, k: nat)
    requires Sorted(es) && k < |es|
    ensures es[k].ind >= k
  {
    if k > 0 { IndexBound(es, k - 1); }
  }

  /** Renumbering by the number of removed elements keeps subscripts valid. */
  lemma ShiftedSorted(es: seq<Entry>, n: int)
    requires Sorted(es)
    ensures Sorted(Shifted(es, n))
  {
    if 0 < n < |es| { IndexBound(es, n); }
  }

  lemma RShiftedSorted(es: seq<Entry>, n: int, s: Option<string>)
    requires Sorted(es)
    ensures Sorted(RShifted(es, n, s))
  {
  }

  lemma ShiftedIs(es: seq<Entry>, n: int)
    requires Sorted(es) && 0 < n < |es|
    ensures Shifted(es, n) == MovedFrom(es[n..], 0, -n) && Sorted(Shifted(es, n))
  {
    ShiftedSorted(es, n);
  }

  lemma RShiftedIs(es: seq<Entry>, n: int, s: Option<string>)
    requires Sorted(es) && 0 < n
    ensures RShifted(es, n, s) == if s.Some? then MovedFrom([Entry(0, s.value)] + es, 1, n) else MovedFrom(es, 0, n)
    ensures Sorted(RShifted(es, n, s))
  {
    RShiftedSorted(es, n, s);
  }

  lemma RShiftedNone(es: seq<Entry>, n: int, s: Option<string>)
    requires n <= 0
    ensures RShifted(es, n, s) == es
  {
  }

  /** Popping after pushing restores the array, also an empty one. */
  lemma PopAfterPush(es: seq<Entry>, v: string)
    ensures Shifted(RShifted(es, 1, Some(v)), 1) == es
  {
    var pushed := RShifted(es, 1, Some(v));
    assert pushed[1..] == Moved(es, 1);
    if es != [] {
      assert Moved(Moved(es, 1), -1) == es;
    }
  }

  // ---- lists and maps ----

  /** m represents es. */
  ghost predicate Represents(es: seq<Entry>, m: map<int, string>) {
    && (forall k :: 0 <= k < |es| ==> es[k].ind in m && m[es[k].ind] == es[k].value)
    && (forall i <- m :: exists k :: 0 <= k < |es| && es[k].ind == i)
  }

  lemma ToMapIs(es: seq<Entry>, m: map<int, string>)
    requires Sorted(es)
    ensures Represents(es, m) <==> ToMap(es) == m
  {
    var t := ToMap(es);
    assert Represents(es, t);
    if Represents(es, m) {
      assert forall i :: i in m <==> i in t;
      assert m == t;
    }
  }

  /** Where the subscript i is. */
  lemma Locate(es: seq<Entry>, i: int) returns (k: nat)
    requires Sorted(es) && i in ToMap(es)
    ensures k < |es| && es[k].ind == i && ToMap(es)[i] == es[k].value
  {
    k :| 0 <= k < |es| && es[k].ind == i;
  }

  lemma Member(es: seq<Entry>, k: nat)
    requires Sorted(es) && k < |es|
    ensures es[k].ind in ToMap(es) && ToMap(es)[es[k].ind] == es[k].value
  {
  }

  /** Shifting out and renumbering, as maps. */
  lemma ShiftedMap(es: seq<Entry>, n: int, i: int)
    requires Sorted(es) && n > 0
    ensures Sorted(Shifted(es, n))
    ensures i in ToMap(Shifted(es, n)) <==> n < |es| && es[n].ind <= i + n && i + n in ToMap(es)
    ensures i in ToMap(Shifted(es, n)) ==> ToMap(Shifted(es, n))[i] == ToMap(es)[i + n]
  {
    hide ToMap;
    ShiftedSorted(es, n);
    var r := Shifted(es, n);
    if i in ToMap(r) {
      var k := Locate(r, i);
      Member(es, k + n);
    }
    if n < |es| && es[n].ind <= i + n && i + n in ToMap(es) {
      var k := Locate(es, i + n);
      Member(r, k - n);
    }
  }

  /** A map determines its sorted list: what is said about maps pins down the lists. */
  lemma {:induction false} MapDetermines(es: seq<Entry>, fs: seq<Entry>)
    requires Sorted(es) && Sorted(fs) && ToMap(es) == ToMap(fs)
    ensures es == fs
  {
    hide ToMap;
    if es == [] {
      if fs != [] { Member(fs, 0); var k := Locate(es, fs[0].ind); }
    } else {
      Member(es, |es| - 1);
      var k := Locate(fs, es[|es| - 1].ind);
      Member(fs, |fs| - 1);
      var l := Locate(es, fs[|fs| - 1].ind);
      RemoveMap(es, |es| - 1);
      RemoveMap(fs, |fs| - 1);
      assert es[..|es| - 1] + es[|es|..] == es[..|es| - 1] && fs[..|fs| - 1] + fs[|fs|..] == fs[..|fs| - 1];
      MapDetermines(es[..|es| - 1], fs[..|fs| - 1]);
      assert es == es[..|es| - 1] + [es[|es| - 1]] && fs == fs[..|fs| - 1] + [fs[|fs| - 1]];
    }
  }

  /** x put in front of position p. */
  function Splice<T>(s: seq<T>, p: nat, x: T): (r: seq<T>)
    requires p <= |s|
    ensures |r| == |s| + 1 && r[p] == x
    ensures forall k :: 0 <= k < p ==> r[k] == s[k]
    ensures forall k {:trigger r[k]} :: p < k <= |s| ==> r[k] == s[k - 1]
  {
    s[..p] + [x] + s[p..]
  }

  lemma InsertSorted(es: seq<Entry>, p: nat, i: int, v: string)
    requires Sorted(es) && p <= |es| && 0 <= i
    requires (p > 0 ==> es[p - 1].ind < i) && (p < |es| ==> i < es[p].ind)
    ensures Sorted(Splice(es, p, Entry(i, v)))
  {
    hide Splice;
    var r := Splice(es, p, Entry(i, v));
    assert forall k :: 0 <= k < p ==> r[k].ind < i;
    assert forall k :: p < k < |r| ==> i < r[k].ind;
  }

  /** Inserting between neighbours. */
  lemma InsertMap(es: seq<Entry>, p: nat, i: int, v: string)
    requires Sorted(es) && p <= |es| && 0 <= i
    requires (p > 0 ==> es[p - 1].ind < i) && (p < |es| ==> i < es[p].ind)
    ensures Sorted(Splice(es, p, Entry(i, v))) && ToMap(Splice(es, p, Entry(i, v))) == ToMap(es)[i := v]
  {
    hide ToMap, Splice;
    var r, m := Splice(es, p, Entry(i, v)), ToMap(es);
    var m' := m[i := v];
    InsertSorted(es, p, i, v);
    forall k | 0 <= k < |r| && k != p ensures r[k].ind != i && r[k].ind in m && m[r[k].ind] == r[k].value {
      Member(es, if k < p then k else k - 1);
    }
    forall j <- m' ensures exists k :: 0 <= k < |r| && r[k].ind == j {
      if j == i {
        assert r[p].ind == j;
      } else {
        var k := Locate(es, j);
        assert r[if k < p then k else k + 1].ind == j;
      }
    }
    ToMapIs(r, m');
  }

  lemma ReplaceMap(es: seq<Entry>, p: nat, v: string)
    requires Sorted(es) && p < |es|
    ensures var r := es[p := Entry(es[p].ind, v)];
            Sorted(r) && ToMap(r) == ToMap(es)[es[p].ind := v]
  {
    hide ToMap;
    var r, m := es[p := Entry(es[p].ind, v)], ToMap(es);
    var m' := m[es[p].ind := v];
    forall k | 0 <= k < |r| && k != p ensures r[k].ind != es[p].ind && r[k].ind in m && m[r[k].ind] == r[k].value {
      Member(es, k);
    }
    forall j <- m' ensures exists k :: 0 <= k < |r| && r[k].ind == j {
      if j == es[p].ind {
        assert r[p].ind == j;
      } else {
        var k := Locate(es, j);
        assert r[k].ind == j;
      }
    }
    ToMapIs(r, m');
  }

  /** The element at position p taken out. */
  function Cut<T>(s: seq<T>, p: nat): (r: seq<T>)
    requires p < |s|
    ensures |r| == |s| - 1
    ensures forall k :: 0 <= k < p ==> r[k] == s[k]
    ensures forall k {:trigger r[k]} :: p <= k < |s| - 1 ==> r[k] == s[k + 1]
  {
    s[..p] + s[p + 1..]
  }

  lemma RemoveMap(es: seq<Entry>, p: nat)
    requires Sorted(es) && p < |es|
    ensures Sorted(Cut(es, p)) && ToMap(Cut(es, p)) == ToMap(es) - {es[p].ind}
  {
    hide ToMap, Cut;
    var r, m := Cut(es, p), ToMap(es);
    var m' := m - {es[p].ind};
    forall k | 0 <= k < |r| ensures r[k].ind != es[p].ind && r[k].ind in m && m[r[k].ind] == r[k].value {
      Member(es, if k < p then k else k + 1);
    }
    forall j <- m' ensures exists k :: 0 <= k < |r| && r[k].ind == j {
      var k := Locate(es, j);
      assert r[if k < p then k else k - 1].ind == j;
    }
    ToMapIs(r, m');
  }

  /** A subscript between two neighbours is not in the map. */
  lemma Between(es: seq<Entry>, p: nat, i: int)
    requires Sorted(es) && p <= |es| && (p < |es| ==> i < es[p].ind) && (p > 0 ==> es[p - 1].ind < i)
    ensures i !in ToMap(es)
  {
  }

  /** A list of words, as an array with the subscripts 0, 1, 2, ... */
  function ListMap(list: seq<string>): map<int, string> {
    map k | 0 <= k < |list| :: list[k]
  }

  /** An array made from a list of words has exactly these words as its values, in this order. */
  lemma DenseList(es: seq<Entry>, list: seq<string>)
    requires Sorted(es) && ToMap(es) == ListMap(list)
    ensures Values(es) == list
  {
    var dense := seq(|list|, k requires 0 <= k < |list| => Entry(k, list[k]));
    assert Represents(dense, ListMap(list)) by {
      forall i <- ListMap(list) ensures exists k :: 0 <= k < |dense| && dense[k].ind == i {
        assert dense[i].ind == i;
      }
    }
    ToMapIs(dense, ListMap(list));
    MapDetermines(es, dense);
  }
}
