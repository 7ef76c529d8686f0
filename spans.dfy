/**
 * Labelled character spans and Python's stable `sorted`, specialised to the two
 * sort keys that the copycat plugin uses.
 */
module Spans {
  import opened Wrappers

  type Score = real

  /** A labelled range [start, end) of a record's text; `tag` is the label. The source's 3-tuple
      (label, start, end) is the span whose score is None. */
  datatype Span = Span(tag: string, start: int, end: int, score: Option<Score>)

  function Length(s: Span): int {
    s.end - s.start
  }

  /** The half-open ranges of a and b share at least one position. */
  predicate Overlap(a: Span, b: Span) {
    a.start < a.end && b.start < b.end && a.start < b.end && b.start < a.end
  }

  /** No two spans at different positions of xs overlap. */
  ghost predicate Disjoint(xs: seq<Span>) {
    forall i, j :: 0 <= i < j < |xs| ==> !Overlap(xs[i], xs[j])
  }

  /** Sort keys are pairs of integers, compared lexicographically (as Python compares tuples). */
  type Key = (int, int)

  predicate KeyLess(a: Key, b: Key) {
    a.0 < b.0 || (a.0 == b.0 && a.1 < b.1)
  }

  predicate KeyLe(a: Key, b: Key) {
    !KeyLess(b, a)
  }

  /** The two orders of token_copycat.py: `key=lambda span: span[1]` and
      `key=(end - start, -start), reverse=True`, written as ascending keys. */
  datatype Order = ByStart | ByLengthDesc

  function SortKey(o: Order, s: Span): Key {
    match o
    case ByStart => (s.start, 0)
    case ByLengthDesc => (s.start - s.end, s.start)
  }

  ghost predicate IsSortedBy(o: Order, xs: seq<Span>) {
    forall i, j :: 0 <= i < j < |xs| ==> KeyLe(SortKey(o, xs[i]), SortKey(o, xs[j]))
  }

  lemma SortedHead(o: Order, xs: seq<Span>)
    requires IsSortedBy(o, xs) && xs != []
    ensures IsSortedBy(o, xs[1..])
    ensures forall z :: z in xs[1..] ==> KeyLe(SortKey(o, xs[0]), SortKey(o, z))
  {
    forall z | z in xs[1..] ensures KeyLe(SortKey(o, xs[0]), SortKey(o, z)) {
      var j :| 0 <= j < |xs[1..]| && xs[1..][j] == z;
      assert xs[j + 1] == z;
    }
  }

  lemma SortedCons(o: Order, x: Span, a: seq<Span>)
    requires IsSortedBy(o, a)
    requires forall z :: z in a ==> KeyLe(SortKey(o, x), SortKey(o, z))
    ensures IsSortedBy(o, [x] + a)
  {
    forall i, j | 0 <= i < j < |a| + 1
      ensures KeyLe(SortKey(o, ([x] + a)[i]), SortKey(o, ([x] + a)[j]))
    {
      if i == 0 {
        assert a[j - 1] in a;
      }
    }
  }

  /** Puts x in front of the first element whose key is not smaller than x's. */
  function Insert(o: Order, x: Span, ys: seq<Span>): (r: seq<Span>)
    ensures multiset(r) == multiset(ys) + multiset{x}
  {
    if ys == [] || !KeyLess(SortKey(o, ys[0]), SortKey(o, x)) then [x] + ys
    else
      assert ys == [ys[0]] + ys[1..];
      [ys[0]] + Insert(o, x, ys[1..])
  }

  /** Python's `sorted(xs, key=...)`. Insertion from the back keeps elements with
      equal keys in their input order, so this is the stable sort Python promises,
      also under `reverse=True`. */
  function Sort(o: Order, xs: seq<Span>): (r: seq<Span>)
    ensures multiset(r) == multiset(xs)
  {
    if xs == [] then []
    else
      assert xs == [xs[0]] + xs[1..];
      Insert(o, xs[0], Sort(o, xs[1..]))
  }

  /** The elements of xs whose key is k, in their order in xs. */
  function Select(o: Order, xs: seq<Span>, k: Key): seq<Span> {
    if xs == [] then []
    else (if SortKey(o, xs[0]) == k then [xs[0]] else []) + Select(o, xs[1..], k)
  }

  lemma {:induction false} InsertSorted(o: Order, x: Span, ys: seq<Span>)
    requires IsSortedBy(o, ys)
    ensures IsSortedBy(o, Insert(o, x, ys))
  {
    if ys == [] || !KeyLess(SortKey(o, ys[0]), SortKey(o, x)) {
      forall j | 1 <= j < |ys| + 1
        ensures KeyLe(SortKey(o, x), SortKey(o, ([x] + ys)[j]))
      {
        assert KeyLe(SortKey(o, ys[0]), SortKey(o, ys[j - 1]));
      }
    } else {
      var rest := Insert(o, x, ys[1..]);
      assert IsSortedBy(o, ys[1..]);
      InsertSorted(o, x, ys[1..]);
      forall z | z in rest ensures KeyLe(SortKey(o, ys[0]), SortKey(o, z)) {
        assert z in multiset(rest);
        if z != x {
          assert z in ys[1..];
          var j :| 0 <= j < |ys[1..]| && ys[1..][j] == z;
          assert ys[j + 1] == z;
        }
      }
      forall i, j | 0 <= i < j < |rest| + 1
        ensures KeyLe(SortKey(o, ([ys[0]] + rest)[i]), SortKey(o, ([ys[0]] + rest)[j]))
      {
        if i == 0 {
          assert rest[j - 1] in rest;
        }
      }
    }
  }

  /** `Sort` is sorted. */
  lemma {:induction false} SortSorted(o: Order, xs: seq<Span>)
    ensures IsSortedBy(o, Sort(o, xs))
  {
    if xs != [] {
      SortSorted(o, xs[1..]);
      InsertSorted(o, xs[0], Sort(o, xs[1..]));
    }
  }

  lemma {:induction false} SelectMembers(o: Order, xs: seq<Span>, k: Key)
    ensures forall z :: z in Select(o, xs, k) ==> z in xs && SortKey(o, z) == k
  {
    if xs != [] {
      SelectMembers(o, xs[1..], k);
    }
  }

  lemma {:induction false} SelectAppend(o: Order, a: seq<Span>, b: seq<Span>, k: Key)
    ensures Select(o, a + b, k) == Select(o, a, k) + Select(o, b, k)
  {
    if a != [] {
      assert (a + b)[0] == a[0];
      assert (a + b)[1..] == a[1..] + b;
      var head := if SortKey(o, a[0]) == k then [a[0]] else [];
      SelectAppend(o, a[1..], b, k);
      calc {
        Select(o, a + b, k);
        head + Select(o, a[1..] + b, k);
        head + (Select(o, a[1..], k) + Select(o, b, k));
        (head + Select(o, a[1..], k)) + Select(o, b, k);
        Select(o, a, k) + Select(o, b, k);
      }
    } else {
      assert a + b == b;
    }
  }

  lemma SelectCons(o: Order, x: Span, ys: seq<Span>, k: Key)
    ensures Select(o, [x] + ys, k) == (if SortKey(o, x) == k then [x] else []) + Select(o, ys, k)
  {
    assert ([x] + ys)[0] == x && ([x] + ys)[1..] == ys;
  }

  /** Concatenation is associative; proved apart so that no other definitions
      are in scope. */
  lemma AppendAssoc<T>(a: seq<T>, b: seq<T>, c: seq<T>)
    ensures a + (b + c) == (a + b) + c
  {
  }

  lemma SwapEmpty(a: seq<Span>, b: seq<Span>, c: seq<Span>)
    requires a == [] || b == []
    ensures a + (b + c) == b + (a + c)
  {
    if a == [] {
      assert a + (b + c) == b + c;
      assert a + c == c;
    } else {
      assert b + (a + c) == a + c;
      assert b + c == c;
    }
  }

  lemma {:induction false} SelectInsert(o: Order, x: Span, ys: seq<Span>, k: Key)
    ensures Select(o, Insert(o, x, ys), k)
         == (if SortKey(o, x) == k then [x] else []) + Select(o, ys, k)
  {
    var hx := if SortKey(o, x) == k then [x] else [];
    if ys == [] || !KeyLess(SortKey(o, ys[0]), SortKey(o, x)) {
      assert Insert(o, x, ys) == [x] + ys;
      SelectCons(o, x, ys, k);
    } else {
      var y, tail := ys[0], ys[1..];
      var h0 := if SortKey(o, y) == k then [y] else [];
      var rest := Insert(o, x, tail);
      var s1 := Select(o, tail, k);
      calc {
        Select(o, Insert(o, x, ys), k);
        { assert Insert(o, x, ys) == [y] + rest; }
        Select(o, [y] + rest, k);
        { SelectCons(o, y, rest, k); }
        h0 + Select(o, rest, k);
        { SelectInsert(o, x, tail, k); }
        h0 + (hx + s1);
        { SwapEmpty(h0, hx, s1); }
        hx + (h0 + s1);
        { SelectCons(o, y, tail, k); assert [y] + tail == ys; }
        hx + Select(o, ys, k);
      }
    }
  }

  /** Stability: among the elements that share a key, `Sort` keeps the input order. */
  lemma {:induction false} SortStable(o: Order, xs: seq<Span>, k: Key)
    ensures Select(o, Sort(o, xs), k) == Select(o, xs, k)
  {
    if xs != [] {
      SortStable(o, xs[1..], k);
      SelectInsert(o, xs[0], Sort(o, xs[1..]), k);
    }
  }

  lemma HeadSelected(o: Order, xs: seq<Span>)
    requires xs != []
    ensures Select(o, xs, SortKey(o, xs[0])) == [xs[0]] + Select(o, xs[1..], SortKey(o, xs[0]))
  {
  }

  /** In a sorted sequence no key below the first element's key is selected. */
  lemma SortedFirstKeyLeast(o: Order, xs: seq<Span>, k: Key)
    requires IsSortedBy(o, xs) && xs != []
    requires Select(o, xs, k) != []
    ensures KeyLe(SortKey(o, xs[0]), k)
  {
    SelectMembers(o, xs, k);
    var z := Select(o, xs, k)[0];
    assert z in Select(o, xs, k);
    var j :| 0 <= j < |xs| && xs[j] == z;
    if j > 0 {
      assert KeyLe(SortKey(o, xs[0]), SortKey(o, xs[j]));
    }
  }

  /** Two sorted sequences with the same selections start with the same element. */
  lemma SortedSameHead(o: Order, xs: seq<Span>, ys: seq<Span>)
    requires IsSortedBy(o, xs) && IsSortedBy(o, ys) && xs != [] && ys != []
    requires forall k :: Select(o, xs, k) == Select(o, ys, k)
    ensures xs[0] == ys[0]
  {
    var kx, ky := SortKey(o, xs[0]), SortKey(o, ys[0]);
    HeadSelected(o, xs);
    HeadSelected(o, ys);
    assert Select(o, ys, kx) != [];
    SortedFirstKeyLeast(o, ys, kx);
    assert Select(o, xs, ky) != [];
    SortedFirstKeyLeast(o, xs, ky);
    assert kx == ky;
    assert Select(o, xs, kx)[0] == xs[0];
    assert Select(o, ys, kx)[0] == ys[0];
  }

  /** Removing the same first element keeps the selections equal. */
  lemma SelectTails(o: Order, xs: seq<Span>, ys: seq<Span>)
    requires xs != [] && ys != [] && xs[0] == ys[0]
    requires forall k :: Select(o, xs, k) == Select(o, ys, k)
    ensures forall k :: Select(o, xs[1..], k) == Select(o, ys[1..], k)
  {
    forall k ensures Select(o, xs[1..], k) == Select(o, ys[1..], k) {
      var h := if SortKey(o, xs[0]) == k then [xs[0]] else [];
      assert Select(o, xs, k) == h + Select(o, xs[1..], k);
      assert Select(o, ys, k) == h + Select(o, ys[1..], k);
      assert Select(o, xs[1..], k) == Select(o, xs, k)[|h|..];
      assert Select(o, ys[1..], k) == Select(o, ys, k)[|h|..];
    }
  }

  /** A sorted sequence is determined by the order of the elements within each key. */
  lemma {:induction false} SortedUnique(o: Order, xs: seq<Span>, ys: seq<Span>)
    requires IsSortedBy(o, xs) && IsSortedBy(o, ys)
    requires forall k :: Select(o, xs, k) == Select(o, ys, k)
    ensures xs == ys
    decreases |xs| + |ys|
  {
    if xs == [] || ys == [] {
      if xs != [] {
        HeadSelected(o, xs);
      } else if ys != [] {
        HeadSelected(o, ys);
      }
    } else {
      SortedSameHead(o, xs, ys);
      SelectTails(o, xs, ys);
      SortedHead(o, xs);
      SortedHead(o, ys);
      SortedUnique(o, xs[1..], ys[1..]);
      assert xs == [xs[0]] + xs[1..];
      assert ys == [ys[0]] + ys[1..];
    }
  }

  /** Any sorted arrangement of xs that keeps xs's order within each key is `Sort(o, xs)`:
      every stable sort gives the same answer. */
  lemma SortCharacterized(o: Order, xs: seq<Span>, ys: seq<Span>)
    requires IsSortedBy(o, ys)
    requires forall k :: Select(o, ys, k) == Select(o, xs, k)
    ensures Sort(o, xs) == ys
  {
    SortSorted(o, xs);
    forall k ensures Select(o, Sort(o, xs), k) == Select(o, ys, k) {
      SortStable(o, xs, k);
    }
    SortedUnique(o, Sort(o, xs), ys);
  }

  /** Spans that share a length-first key share their start too, so selecting by
      that key may first select by start. */
  lemma {:induction false} SelectByStartFirst(xs: seq<Span>, k: Key)
    ensures Select(ByLengthDesc, xs, k)
         == Select(ByLengthDesc, Select(ByStart, xs, (k.1, 0)), k)
  {
    if xs != [] {
      SelectByStartFirst(xs[1..], k);
      var rest := Select(ByStart, xs[1..], (k.1, 0));
      var h := if SortKey(ByLengthDesc, xs[0]) == k then [xs[0]] else [];
      assert Select(ByLengthDesc, xs, k) == h + Select(ByLengthDesc, xs[1..], k);
      if SortKey(ByStart, xs[0]) == (k.1, 0) {
        assert Select(ByStart, xs, (k.1, 0)) == [xs[0]] + rest;
        SelectAppend(ByLengthDesc, [xs[0]], rest, k);
        assert Select(ByLengthDesc, [xs[0]], k) == h;
      } else {
        assert Select(ByStart, xs, (k.1, 0)) == rest;
        assert h == [];
      }
    }
  }
}
