/**
 * `resolve_span_overlap` of the copycat plugin: a greedy walk over the spans,
 * longest first and leftmost first among equal lengths, that keeps a span when
 * neither of its two boundary positions is already covered, followed by a
 * stable re-sort by start.
 */
module Overlap {
  import opened Wrappers
  import opened Spans

  /** Some span of kept covers position p. */
  predicate Claimed(kept: seq<Span>, p: int) {
    exists y :: y in kept && y.start <= p < y.end
  }

  /** The boundary-only test: neither start nor end - 1 is in `seen_tokens` yet. */
  predicate Free(kept: seq<Span>, s: Span) {
    s.start !in Covered(kept) && s.end - 1 !in Covered(kept)
  }

  /** Position start or end - 1 of x lies inside y. */
  predicate Blocks(y: Span, x: Span) {
    (y.start <= x.start < y.end) || (y.start <= x.end - 1 < y.end)
  }

  /** The spans of todo that the greedy walk keeps, in walk order, when kept
      holds the spans kept so far. */
  function Accepted(todo: seq<Span>, kept: seq<Span>): seq<Span>
    decreases |todo|
  {
    if todo == [] then []
    else if Free(kept, todo[0]) then [todo[0]] + Accepted(todo[1..], kept + [todo[0]])
    else Accepted(todo[1..], kept)
  }

  /** What `resolve_span_overlap` returns. */
  function Resolved(spans: seq<Span>): seq<Span> {
    Sort(ByStart, Accepted(Sort(ByLengthDesc, spans), []))
  }

  /** The positions of Python's `range(lo, hi)`, as a set. */
  function PyRange(lo: int, hi: int): (r: set<int>)
    ensures forall p :: p in r <==> lo <= p < hi
    decreases hi - lo
  {
    if hi <= lo then {} else PyRange(lo, hi - 1) + {hi - 1}
  }

  /** The positions covered by the spans of kept: what `seen_tokens` holds. */
  function Covered(kept: seq<Span>): set<int>
    decreases |kept|
  {
    if kept == [] then {}
    else Covered(kept[..|kept| - 1]) + PyRange(kept[|kept| - 1].start, kept[|kept| - 1].end)
  }

  lemma ClaimedAppend(kept: seq<Span>, s: Span, p: int)
    ensures Claimed(kept + [s], p) <==> Claimed(kept, p) || s.start <= p < s.end
  {
    if s.start <= p < s.end {
      assert s in kept + [s];
    }
    if Claimed(kept, p) {
      var y :| y in kept && y.start <= p < y.end;
      assert y in kept + [s];
    }
  }

  lemma AcceptedStep(todo: seq<Span>, i: nat, kept: seq<Span>)
    requires i < |todo|
    ensures Accepted(todo[i..], kept)
         == if Free(kept, todo[i]) then [todo[i]] + Accepted(todo[i + 1..], kept + [todo[i]])
            else Accepted(todo[i + 1..], kept)
  {
    assert todo[i..][0] == todo[i] && todo[i..][1..] == todo[i + 1..];
  }

  lemma {:induction false} CoveredClaimed(kept: seq<Span>, p: int)
    ensures p in Covered(kept) <==> Claimed(kept, p)
    decreases |kept|
  {
    if kept != [] {
      var init, s := kept[..|kept| - 1], kept[|kept| - 1];
      assert kept == init + [s];
      CoveredClaimed(init, p);
      ClaimedAppend(init, s, p);
    }
  }

  /** The spans the greedy walk has kept after its first i turns. */
  function Kept(todo: seq<Span>, i: nat): seq<Span>
    requires i <= |todo|
    decreases i
  {
    if i == 0 then []
    else
      var kept := Kept(todo, i - 1);
      if Free(kept, todo[i - 1]) then kept + [todo[i - 1]] else kept
  }

  /** After i turns, what is kept so far followed by what the rest of the walk
      keeps is what the whole walk keeps. */
  lemma {:induction false} KeptAccepted(todo: seq<Span>, i: nat)
    requires i <= |todo|
    ensures Kept(todo, i) + Accepted(todo[i..], Kept(todo, i)) == Accepted(todo, [])
    decreases i
  {
    if i == 0 {
      assert todo[0..] == todo;
    } else {
      KeptAccepted(todo, i - 1);
      var kept, s := Kept(todo, i - 1), todo[i - 1];
      AcceptedStep(todo, i - 1, kept);
      if Free(kept, s) {
        assert Kept(todo, i) == kept + [s];
        var later := Accepted(todo[i..], kept + [s]);
        assert Accepted(todo[i - 1..], kept) == [s] + later;
        AppendAssoc(kept, [s], later);
      } else {
        assert Kept(todo, i) == kept;
        assert Accepted(todo[i - 1..], kept) == Accepted(todo[i..], kept);
      }
    }
  }

  /** Keeping a span adds its positions to what is covered. */
  lemma CoveredAppend(kept: seq<Span>, s: Span)
    ensures Covered(kept + [s]) == Covered(kept) + PyRange(s.start, s.end)
  {
    assert (kept + [s])[..|kept|] == kept;
  }

  /** The source's greedy loop over the spans, longest first: the set
      `seen_tokens` is what the spans kept so far cover. */
  method KeepFree(sortedSpans: seq<Span>) returns (kept: seq<Span>)
    ensures kept == Accepted(sortedSpans, [])
  {
    kept := [];
    var seenTokens: set<int> := {};
    for i := 0 to |sortedSpans|
      invariant kept == Kept(sortedSpans, i)
      invariant seenTokens == Covered(kept)
    {
      var span := sortedSpans[i];
      ghost var free := Free(kept, span);
      assert Kept(sortedSpans, i + 1) == if free then kept + [span] else kept;
      if span.start !in seenTokens && span.end - 1 !in seenTokens {
        assert free;
        CoveredAppend(kept, span);
        kept := kept + [span];
        seenTokens := seenTokens + PyRange(span.start, span.end);
      } else {
        assert !free;
      }
    }
    KeptAccepted(sortedSpans, |sortedSpans|);
    assert sortedSpans[|sortedSpans|..] == [];
  }

  /** `resolve_span_overlap`: sort longest first, keep the free spans, and sort
      what is kept by start. */
  method ResolveSpanOverlap(recordInfo: seq<Span>) returns (result: seq<Span>)
    ensures result == Resolved(recordInfo)
  {
    var sortedSpans := Sort(ByLengthDesc, recordInfo);
    var kept := KeepFree(sortedSpans);
    result := Sort(ByStart, kept);
  }

  lemma {:induction false} AcceptedSub(todo: seq<Span>, kept: seq<Span>)
    ensures multiset(Accepted(todo, kept)) <= multiset(todo)
  {
    if todo != [] {
      assert todo == [todo[0]] + todo[1..];
      if Free(kept, todo[0]) {
        AcceptedSub(todo[1..], kept + [todo[0]]);
      } else {
        AcceptedSub(todo[1..], kept);
      }
    }
  }

  lemma {:induction false} AcceptedSorted(o: Order, todo: seq<Span>, kept: seq<Span>)
    requires IsSortedBy(o, todo)
    ensures IsSortedBy(o, Accepted(todo, kept))
  {
    if todo != [] {
      var s, rest := todo[0], todo[1..];
      SortedHead(o, todo);
      if Free(kept, s) {
        var a := Accepted(rest, kept + [s]);
        AcceptedSorted(o, rest, kept + [s]);
        AcceptedSub(rest, kept + [s]);
        forall z | z in a ensures KeyLe(SortKey(o, s), SortKey(o, z)) {
          assert z in multiset(a);
        }
        SortedCons(o, s, a);
      } else {
        AcceptedSorted(o, rest, kept);
      }
    }
  }

  /** A span that is at most as long as y, and whose two boundary positions lie
      outside y, does not overlap y: it could only do so by containing y strictly. */
  lemma FreeOfLonger(y: Span, s: Span)
    requires !(y.start <= s.start < y.end) && !(y.start <= s.end - 1 < y.end)
    requires Length(s) <= Length(y)
    ensures !Overlap(y, s)
  {
  }

  lemma {:induction false} AcceptedDisjoint(todo: seq<Span>, kept: seq<Span>)
    requires IsSortedBy(ByLengthDesc, todo)
    requires forall y, t :: y in kept && t in todo ==> Length(t) <= Length(y)
    ensures forall y, a :: y in kept && a in Accepted(todo, kept) ==> !Overlap(y, a)
    ensures Disjoint(Accepted(todo, kept))
  {
    if todo != [] {
      var s, rest := todo[0], todo[1..];
      SortedHead(ByLengthDesc, todo);
      if Free(kept, s) {
        var kept' := kept + [s];
        forall y, t | y in kept' && t in rest ensures Length(t) <= Length(y) {
          if y == s {
            assert KeyLe(SortKey(ByLengthDesc, s), SortKey(ByLengthDesc, t));
          } else {
            assert y in kept && t in todo;
          }
        }
        AcceptedDisjoint(rest, kept');
        var a' := Accepted(rest, kept');
        CoveredClaimed(kept, s.start);
        CoveredClaimed(kept, s.end - 1);
        forall y | y in kept ensures !Overlap(y, s) {
          FreeOfLonger(y, s);
        }
        forall y, a | y in kept && a in [s] + a' ensures !Overlap(y, a) {
          assert y in kept';
        }
        forall i, j | 0 <= i < j < |[s] + a'| ensures !Overlap(([s] + a')[i], ([s] + a')[j]) {
          if i == 0 {
            assert s in kept' && a'[j - 1] in a';
          } else {
            assert ([s] + a')[i] == a'[i - 1] && ([s] + a')[j] == a'[j - 1];
          }
        }
      } else {
        AcceptedDisjoint(rest, kept);
      }
    }
  }

  lemma {:induction false} AcceptedIdempotent(todo: seq<Span>, kept: seq<Span>)
    ensures Accepted(Accepted(todo, kept), kept) == Accepted(todo, kept)
  {
    if todo != [] {
      var s, rest := todo[0], todo[1..];
      if Free(kept, s) {
        var a' := Accepted(rest, kept + [s]);
        AcceptedIdempotent(rest, kept + [s]);
        assert ([s] + a')[0] == s && ([s] + a')[1..] == a';
      } else {
        AcceptedIdempotent(rest, kept);
      }
    }
  }

  lemma {:induction false} AcceptedBlocks(todo: seq<Span>, kept: seq<Span>, x: Span)
    requires IsSortedBy(ByLengthDesc, todo)
    requires forall y, t :: y in kept && t in todo ==> Length(t) <= Length(y)
    requires x in todo && x !in Accepted(todo, kept)
    ensures exists y :: y in kept + Accepted(todo, kept) && Length(x) <= Length(y) && Blocks(y, x)
  {
    var s, rest := todo[0], todo[1..];
    SortedHead(ByLengthDesc, todo);
    if Free(kept, s) {
      var kept' := kept + [s];
      var a' := Accepted(rest, kept');
      assert x != s;
      assert x in rest;
      forall y, t | y in kept' && t in rest ensures Length(t) <= Length(y) {
        if y == s {
          assert KeyLe(SortKey(ByLengthDesc, s), SortKey(ByLengthDesc, t));
        } else {
          assert y in kept && t in todo;
        }
      }
      AcceptedBlocks(rest, kept', x);
      assert kept' + a' == kept + Accepted(todo, kept);
    } else if x == s {
      CoveredClaimed(kept, s.start);
      CoveredClaimed(kept, s.end - 1);
      var y :| y in kept && ((y.start <= s.start < y.end) || (y.start <= s.end - 1 < y.end));
      assert y in kept + Accepted(todo, kept);
    } else {
      assert x in rest;
      AcceptedBlocks(rest, kept, x);
    }
  }

  lemma {:induction false} InsertDisjoint(o: Order, x: Span, ys: seq<Span>)
    requires Disjoint(ys)
    requires forall y :: y in ys ==> !Overlap(x, y)
    ensures Disjoint(Insert(o, x, ys))
  {
    if ys == [] || !KeyLess(SortKey(o, ys[0]), SortKey(o, x)) {
      forall i, j | 0 <= i < j < |ys| + 1 ensures !Overlap(([x] + ys)[i], ([x] + ys)[j]) {
        if i == 0 {
          assert ys[j - 1] in ys;
        }
      }
    } else {
      var rest := Insert(o, x, ys[1..]);
      assert Disjoint(ys[1..]) by {
        forall i, j | 0 <= i < j < |ys[1..]| ensures !Overlap(ys[1..][i], ys[1..][j]) {
          assert ys[1..][i] == ys[i + 1] && ys[1..][j] == ys[j + 1];
        }
      }
      InsertDisjoint(o, x, ys[1..]);
      forall z | z in rest ensures !Overlap(ys[0], z) {
        assert z in multiset(rest);
        assert ys[0] in ys;
        if z != x {
          assert z in ys[1..];
          var j :| 0 <= j < |ys[1..]| && ys[1..][j] == z;
          assert ys[j + 1] == z;
        }
      }
      forall i, j | 0 <= i < j < |rest| + 1 ensures !Overlap(([ys[0]] + rest)[i], ([ys[0]] + rest)[j]) {
        if i == 0 {
          assert rest[j - 1] in rest;
        }
      }
    }
  }

  /** Re-sorting keeps spans pairwise non-overlapping. */
  lemma {:induction false} SortDisjoint(o: Order, xs: seq<Span>)
    requires Disjoint(xs)
    ensures Disjoint(Sort(o, xs))
  {
    if xs != [] {
      assert Disjoint(xs[1..]) by {
        forall i, j | 0 <= i < j < |xs[1..]| ensures !Overlap(xs[1..][i], xs[1..][j]) {
          assert xs[1..][i] == xs[i + 1] && xs[1..][j] == xs[j + 1];
        }
      }
      SortDisjoint(o, xs[1..]);
      forall z | z in Sort(o, xs[1..]) ensures !Overlap(xs[0], z) {
        assert z in multiset(Sort(o, xs[1..]));
        var j :| 0 <= j < |xs[1..]| && xs[1..][j] == z;
        assert xs[j + 1] == z;
      }
      InsertDisjoint(o, xs[0], Sort(o, xs[1..]));
    }
  }

  /** The result is sorted by start and takes each span at most as often as the input has it. */
  lemma ResolvedSortedSubset(spans: seq<Span>)
    ensures IsSortedBy(ByStart, Resolved(spans))
    ensures multiset(Resolved(spans)) <= multiset(spans)
  {
    var a := Accepted(Sort(ByLengthDesc, spans), []);
    SortSorted(ByStart, a);
    AcceptedSub(Sort(ByLengthDesc, spans), []);
  }

  /** No two kept spans overlap, even though only two positions of each are tested. */
  lemma ResolvedDisjoint(spans: seq<Span>)
    ensures Disjoint(Resolved(spans))
  {
    var d := Sort(ByLengthDesc, spans);
    SortSorted(ByLengthDesc, spans);
    AcceptedDisjoint(d, []);
    SortDisjoint(ByStart, Accepted(d, []));
  }

  /** Every span that is left out is blocked: its start or its last position lies
      inside a kept span that is at least as long. */
  lemma ResolvedBlocks(spans: seq<Span>, x: Span)
    requires x in spans && x !in Resolved(spans)
    ensures exists y :: y in Resolved(spans) && Length(x) <= Length(y) && Blocks(y, x)
  {
    var d := Sort(ByLengthDesc, spans);
    var a := Accepted(d, []);
    SortSorted(ByLengthDesc, spans);
    assert x in multiset(d);
    assert x !in multiset(Resolved(spans));
    assert x !in a;
    AcceptedBlocks(d, [], x);
    var y :| y in [] + a && Length(x) <= Length(y) && Blocks(y, x);
    assert y in multiset(Resolved(spans));
  }

  /** Resolving an already resolved list changes nothing. */
  lemma ResolvedIdempotent(spans: seq<Span>)
    ensures Resolved(Resolved(spans)) == Resolved(spans)
  {
    var d := Sort(ByLengthDesc, spans);
    var a := Accepted(d, []);
    var r := Sort(ByStart, a);
    SortSorted(ByLengthDesc, spans);
    AcceptedSorted(ByLengthDesc, d, []);
    forall k ensures Select(ByLengthDesc, a, k) == Select(ByLengthDesc, r, k) {
      SelectByStartFirst(a, k);
      SelectByStartFirst(r, k);
      SortStable(ByStart, a, (k.1, 0));
    }
    SortCharacterized(ByLengthDesc, r, a);
    AcceptedIdempotent(d, []);
  }

  /** Of two overlapping candidates the longer one is kept, whatever their order. */
  lemma LongerSpanWins(a: Span, b: Span)
    requires Overlap(a, b) && Length(b) < Length(a)
    ensures Resolved([a, b]) == [a] && Resolved([b, a]) == [a]
  {
    assert KeyLess(SortKey(ByLengthDesc, a), SortKey(ByLengthDesc, b));
    TwoSorted(a, b);
    assert Blocks(a, b);
    TwoAccepted(a, b);
  }

  /** Of two overlapping candidates of equal length the one that starts first is kept. */
  lemma LeftmostSpanWins(a: Span, b: Span)
    requires Overlap(a, b) && Length(b) == Length(a) && a.start < b.start
    ensures Resolved([a, b]) == [a] && Resolved([b, a]) == [a]
  {
    assert KeyLess(SortKey(ByLengthDesc, a), SortKey(ByLengthDesc, b));
    TwoSorted(a, b);
    assert Blocks(a, b);
    TwoAccepted(a, b);
  }

  lemma TwoSorted(a: Span, b: Span)
    requires KeyLess(SortKey(ByLengthDesc, a), SortKey(ByLengthDesc, b))
    ensures Sort(ByLengthDesc, [a, b]) == [a, b] && Sort(ByLengthDesc, [b, a]) == [a, b]
  {
    assert [a, b][1..] == [b] && [b, a][1..] == [a];
    assert Sort(ByLengthDesc, [b]) == [b] by {
      assert [b][1..] == [];
    }
    assert Sort(ByLengthDesc, [a]) == [a] by {
      assert [a][1..] == [];
    }
    assert Insert(ByLengthDesc, b, [a]) == [a] + Insert(ByLengthDesc, b, []) by {
      assert [a][1..] == [];
    }
  }

  lemma TwoAccepted(a: Span, b: Span)
    requires Blocks(a, b)
    ensures Sort(ByStart, Accepted([a, b], [])) == [a]
  {
    assert [a][..0] == [];
    assert !Free([a], b);
    assert [a, b][1..] == [b] && [b][1..] == [];
    assert Accepted([b], [a]) == [];
    assert Free([], a);
    assert [] + [a] == [a];
    assert Accepted([a, b], []) == [a] + Accepted([b], [a]);
    assert [a][1..] == [];
    assert Sort(ByStart, [a]) == [a];
  }
}
