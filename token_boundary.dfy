/**
 * Token offsets, the token-aligned ranges of at most 50 characters, and the
 * boundary filter of the copycat plugin.
 */
module TokenBoundary {
  import opened Spans

  /** A (start, end) pair of character offsets. */
  type Range = (int, int)

  /** The widest range `get_all_combinations_of_adjacent_spans` still produces. */
  const MaxWidth := 50

  /** The tokens glued together with nothing in between: the string the token
      offsets index into. */
  function Concat(tokens: seq<string>): string {
    if tokens == [] then "" else tokens[0] + Concat(tokens[1..])
  }

  /** Offset of token i: the summed lengths of the tokens before it. Whitespace
      between tokens in the record's text is not counted. */
  function Offset(tokens: seq<string>, i: nat): nat
    requires i <= |tokens|
  {
    if i == 0 then 0 else Offset(tokens, i - 1) + |tokens[i - 1]|
  }

  /** The range covered by the tokens i..j-1. */
  function TokenRange(tokens: seq<string>, i: nat, j: nat): Range
    requires i <= j <= |tokens|
  {
    (Offset(tokens, i), Offset(tokens, j))
  }

  /** What `get_spans_from_tokens` returns: range i is the one covered by
      token i alone. */
  function TokenSpans(tokens: seq<string>): (spans: seq<Range>)
    ensures |spans| == |tokens|
  {
    seq(|tokens|, i requires 0 <= i < |tokens| => TokenRange(tokens, i, i + 1))
  }

  /** One range per token: the first starts at 0, each is as wide as its token
      and each ends where the next one starts. */
  lemma TokenSpansContiguous(tokens: seq<string>)
    ensures |tokens| > 0 ==> TokenSpans(tokens)[0].0 == 0
    ensures forall i :: 0 <= i < |tokens| ==> TokenSpans(tokens)[i].1 - TokenSpans(tokens)[i].0 == |tokens[i]|
    ensures forall i, j :: 0 <= i < j < |tokens| && j == i + 1 ==> TokenSpans(tokens)[i].1 == TokenSpans(tokens)[j].0
  {
  }

  method GetSpansFromTokens(tokens: seq<string>) returns (spans: seq<Range>)
    ensures spans == TokenSpans(tokens)
  {
    spans := [];
    var start := 0;
    for k := 0 to |tokens|
      invariant |spans| == k && start == Offset(tokens, k)
      invariant forall i :: 0 <= i < k ==> spans[i] == TokenRange(tokens, i, i + 1)
    {
      var end := start + |tokens[k]|;
      spans := spans + [(start, end)];
      start := end;
    }
  }

  lemma {:induction false} ConcatAppend(a: seq<string>, b: seq<string>)
    ensures Concat(a + b) == Concat(a) + Concat(b)
  {
    if a == [] {
      assert a + b == b;
    } else {
      assert (a + b)[0] == a[0] && (a + b)[1..] == a[1..] + b;
      ConcatAppend(a[1..], b);
    }
  }

  lemma {:induction false} ConcatPrefixLength(tokens: seq<string>, i: nat)
    requires i <= |tokens|
    ensures |Concat(tokens[..i])| == Offset(tokens, i)
  {
    if i > 0 {
      ConcatPrefixLength(tokens, i - 1);
      assert tokens[..i] == tokens[..i - 1] + [tokens[i - 1]];
      ConcatAppend(tokens[..i - 1], [tokens[i - 1]]);
      assert Concat([tokens[i - 1]]) == tokens[i - 1] + Concat([]);
    }
  }

  /** Range i cuts token i out of the glued tokens. */
  lemma TokenSpansSelectTokens(tokens: seq<string>, i: nat)
    requires i < |tokens|
    ensures TokenSpans(tokens)[i].1 <= |Concat(tokens)|
         && Concat(tokens)[TokenSpans(tokens)[i].0 .. TokenSpans(tokens)[i].1] == tokens[i]
  {
    var pre, t, rest := tokens[..i], tokens[i], tokens[i + 1..];
    assert tokens == (pre + [t]) + rest;
    ConcatAppend(pre + [t], rest);
    ConcatAppend(pre, [t]);
    assert Concat([t]) == t + Concat([]);
    ConcatPrefixLength(tokens, i);
    var whole := Concat(pre) + t + Concat(rest);
    assert Concat(tokens) == whole;
    assert whole[|Concat(pre)| .. |Concat(pre)| + |t|] == t;
  }

  /** The runs spans[i..j], spans[i..j+1], ... that the inner loop appends before
      its `break`: it stops at the first run wider than MaxWidth. */
  function RunsFrom(spans: seq<Range>, i: nat, j: nat): seq<seq<Range>>
    requires i < j <= |spans| + 1
    decreases |spans| + 1 - j
  {
    if j > |spans| || spans[j - 1].1 - spans[i].0 > MaxWidth then []
    else [spans[i..j]] + RunsFrom(spans, i, j + 1)
  }

  /** The runs that start at index i or later, in loop order. */
  function RunsBetween(spans: seq<Range>, i: nat): seq<seq<Range>>
    requires i <= |spans|
    decreases |spans| - i
  {
    if i == |spans| then [] else RunsFrom(spans, i, i + 1) + RunsBetween(spans, i + 1)
  }

  /** (first start, last end) of every run. */
  function Endpoints(runs: seq<seq<Range>>): seq<Range>
    requires forall k :: 0 <= k < |runs| ==> runs[k] != []
  {
    seq(|runs|, k requires 0 <= k < |runs| => (runs[k][0].0, runs[k][|runs[k]| - 1].1))
  }

  /** The k-th run the inner loop appends is spans[i..j+k], and it is at most
      MaxWidth wide. */
  lemma {:induction false} RunsFromShape(spans: seq<Range>, i: nat, j: nat, k: nat)
    requires i < j <= |spans| + 1
    requires k < |RunsFrom(spans, i, j)|
    ensures j + k <= |spans| && RunsFrom(spans, i, j)[k] == spans[i..j + k]
      && spans[j + k - 1].1 - spans[i].0 <= MaxWidth
    decreases |spans| + 1 - j
  {
    assert j <= |spans| && spans[j - 1].1 - spans[i].0 <= MaxWidth;
    assert RunsFrom(spans, i, j) == [spans[i..j]] + RunsFrom(spans, i, j + 1);
    if k > 0 {
      RunsFromShape(spans, i, j + 1, k - 1);
    }
  }

  /** run is spans[a..b] for some lo <= a < b, and is at most MaxWidth wide. */
  ghost predicate IsRun(spans: seq<Range>, lo: nat, run: seq<Range>) {
    exists a, b :: lo <= a < b <= |spans| && run == spans[a..b] && spans[b - 1].1 - spans[a].0 <= MaxWidth
  }

  lemma {:induction false} RunsBetweenShape(spans: seq<Range>, i: nat)
    requires i <= |spans|
    ensures forall k :: 0 <= k < |RunsBetween(spans, i)| ==> IsRun(spans, i, RunsBetween(spans, i)[k])
    decreases |spans| - i
  {
    if i < |spans| {
      RunsBetweenShape(spans, i + 1);
      var front := RunsFrom(spans, i, i + 1);
      var back := RunsBetween(spans, i + 1);
      var runs := RunsBetween(spans, i);
      assert runs == front + back;
      forall k | 0 <= k < |runs|
        ensures IsRun(spans, i, runs[k])
      {
        if k < |front| {
          assert runs[k] == front[k];
          RunsFromShape(spans, i, i + 1, k);
          var a, b := i, i + 1 + k;
          assert i <= a < b <= |spans| && runs[k] == spans[a..b] && spans[b - 1].1 - spans[a].0 <= MaxWidth;
        } else {
          assert runs[k] == back[k - |front|];
          assert IsRun(spans, i + 1, back[k - |front|]);
          var a, b :| i + 1 <= a < b <= |spans| && back[k - |front|] == spans[a..b]
            && spans[b - 1].1 - spans[a].0 <= MaxWidth;
          assert i <= a < b <= |spans| && runs[k] == spans[a..b] && spans[b - 1].1 - spans[a].0 <= MaxWidth;
        }
      }
    } else {
      assert RunsBetween(spans, i) == [];
    }
  }

  /** No run is empty, so every run has a first start and a last end. */
  lemma RunsNonEmpty(spans: seq<Range>)
    ensures forall k :: 0 <= k < |RunsBetween(spans, 0)| ==> RunsBetween(spans, 0)[k] != []
  {
    RunsBetweenShape(spans, 0);
    forall k | 0 <= k < |RunsBetween(spans, 0)| ensures RunsBetween(spans, 0)[k] != [] {
      assert IsRun(spans, 0, RunsBetween(spans, 0)[k]);
    }
  }

  /** What `get_all_combinations_of_adjacent_spans` returns. */
  function AllowedRanges(spans: seq<Range>): seq<Range> {
    RunsNonEmpty(spans);
    Endpoints(RunsBetween(spans, 0))
  }

  method GetAllCombinationsOfAdjacentSpans(spans: seq<Range>) returns (startEndCombinations: seq<Range>)
    ensures startEndCombinations == AllowedRanges(spans)
  {
    var combinations: seq<seq<Range>> := [];
    for i := 0 to |spans|
      invariant combinations + RunsBetween(spans, i) == RunsBetween(spans, 0)
    {
      var runs := AdjacentRuns(spans, i);
      assert RunsBetween(spans, i) == runs + RunsBetween(spans, i + 1);
      AppendAssoc(combinations, runs, RunsBetween(spans, i + 1));
      combinations := combinations + runs;
    }
    assert combinations == RunsBetween(spans, 0);
    RunsNonEmpty(spans);
    startEndCombinations := [];
    for k := 0 to |combinations|
      invariant |startEndCombinations| == k
      invariant forall m :: 0 <= m < k ==>
        startEndCombinations[m] == (combinations[m][0].0, combinations[m][|combinations[m]| - 1].1)
    {
      var combination := combinations[k];
      startEndCombinations := startEndCombinations + [(combination[0].0, combination[|combination| - 1].1)];
    }
  }

  /** The inner loop of `get_all_combinations_of_adjacent_spans` for one start
      index i: the runs spans[i..j] for growing j, until one is wider than
      MaxWidth. */
  method AdjacentRuns(spans: seq<Range>, i: nat) returns (runs: seq<seq<Range>>)
    requires i < |spans|
    ensures runs == RunsFrom(spans, i, i + 1)
  {
    runs := [];
    for j := i + 1 to |spans| + 1
      invariant runs + RunsFrom(spans, i, j) == RunsFrom(spans, i, i + 1)
    {
      if spans[j - 1].1 - spans[i].0 > MaxWidth {
        assert RunsFrom(spans, i, j) == [];
        assert runs + [] == runs;
        return;
      }
      assert RunsFrom(spans, i, j) == [spans[i..j]] + RunsFrom(spans, i, j + 1);
      assert runs + ([spans[i..j]] + RunsFrom(spans, i, j + 1)) == runs + [spans[i..j]] + RunsFrom(spans, i, j + 1);
      runs := runs + [spans[i..j]];
    }
    assert RunsFrom(spans, i, |spans| + 1) == [];
    assert runs + [] == runs;
  }

  /** The run spans[i..m] is appended by the inner loop that starts at j when
      none of the runs spans[i..j], ..., spans[i..m] is wider than MaxWidth. */
  lemma {:induction false} RunsFromReach(spans: seq<Range>, i: nat, j: nat, m: nat)
    requires i < j <= m <= |spans|
    requires forall t :: j - 1 <= t < m ==> spans[t].1 - spans[i].0 <= MaxWidth
    ensures m - j < |RunsFrom(spans, i, j)| && RunsFrom(spans, i, j)[m - j] == spans[i..m]
    decreases m - j
  {
    assert spans[j - 1].1 - spans[i].0 <= MaxWidth;
    assert RunsFrom(spans, i, j) == [spans[i..j]] + RunsFrom(spans, i, j + 1);
    if j < m {
      RunsFromReach(spans, i, j + 1, m);
    }
  }

  lemma {:induction false} RunsBetweenReach(spans: seq<Range>, i0: nat, i: nat, m: nat)
    requires i0 <= i < m <= |spans|
    requires forall t :: i <= t < m ==> spans[t].1 - spans[i].0 <= MaxWidth
    ensures spans[i..m] in RunsBetween(spans, i0)
    decreases i - i0
  {
    assert RunsBetween(spans, i0) == RunsFrom(spans, i0, i0 + 1) + RunsBetween(spans, i0 + 1);
    if i0 == i {
      RunsFromReach(spans, i, i + 1, m);
      assert RunsFrom(spans, i, i + 1)[m - (i + 1)] == spans[i..m];
    } else {
      RunsBetweenReach(spans, i0 + 1, i, m);
    }
  }

  lemma EndpointsOf(runs: seq<seq<Range>>, k: nat)
    requires forall m :: 0 <= m < |runs| ==> runs[m] != []
    requires k < |runs|
    ensures Endpoints(runs)[k] == (runs[k][0].0, runs[k][|runs[k]| - 1].1)
  {
  }

  /** Every allowed range runs from the start of some span i to the end of a
      span j at or after it, and is at most MaxWidth wide; in particular a
      single span wider than MaxWidth is never allowed. */
  lemma AllowedRangesSound(spans: seq<Range>, r: Range)
    requires r in AllowedRanges(spans)
    ensures exists i, j :: 0 <= i <= j < |spans| && r.0 == spans[i].0 && r.1 == spans[j].1
    ensures r.1 - r.0 <= MaxWidth
  {
    var runs := RunsBetween(spans, 0);
    var ends := AllowedRanges(spans);
    var k :| 0 <= k < |ends| && ends[k] == r;
    RunsNonEmpty(spans);
    EndpointsOf(runs, k);
    RunsBetweenShape(spans, 0);
    var i, j := RunEndpoints(spans, runs[k]);
    assert 0 <= i <= j < |spans| && r.0 == spans[i].0 && r.1 == spans[j].1;
  }

  lemma SliceEnds(spans: seq<Range>, a: nat, b: nat)
    requires a < b <= |spans|
    ensures spans[a..b] != [] && spans[a..b][0] == spans[a] && spans[a..b][b - a - 1] == spans[b - 1]
  {
  }

  /** The ends of a run are the start of span i and the end of span j >= i. */
  lemma RunEndpoints(spans: seq<Range>, run: seq<Range>) returns (i: nat, j: nat)
    requires IsRun(spans, 0, run)
    ensures run != [] && i <= j < |spans|
    ensures run[0].0 == spans[i].0 && run[|run| - 1].1 == spans[j].1
    ensures run[|run| - 1].1 - run[0].0 <= MaxWidth
  {
    var a, b :| 0 <= a < b <= |spans| && run == spans[a..b] && spans[b - 1].1 - spans[a].0 <= MaxWidth;
    SliceEnds(spans, a, b);
    i, j := a, b - 1;
  }

  /** When no span of the run i..j ends after span j (as for token offsets),
      a run at most MaxWidth wide is allowed: the `break` never cuts in early. */
  lemma AllowedRangesComplete(spans: seq<Range>, i: nat, j: nat)
    requires i <= j < |spans| && spans[j].1 - spans[i].0 <= MaxWidth
    requires forall t :: i <= t <= j ==> spans[t].1 <= spans[j].1
    ensures (spans[i].0, spans[j].1) in AllowedRanges(spans)
  {
    RunsBetweenReach(spans, 0, i, j + 1);
    RunsNonEmpty(spans);
    var runs: seq<seq<Range>> := RunsBetween(spans, 0);
    var k :| 0 <= k < |runs| && runs[k] == spans[i..j + 1];
    EndpointsOf(runs, k);
    assert runs[k][0] == spans[i] && runs[k][|runs[k]| - 1] == spans[j];
    assert AllowedRanges(spans)[k] == (spans[i].0, spans[j].1);
  }

  lemma {:induction false} OffsetMonotone(tokens: seq<string>, a: nat, b: nat)
    requires a <= b <= |tokens|
    ensures Offset(tokens, a) <= Offset(tokens, b)
    decreases b - a
  {
    if a < b {
      OffsetMonotone(tokens, a, b - 1);
    }
  }

  lemma TokenSpanAt(tokens: seq<string>, i: nat)
    requires i < |tokens|
    ensures TokenSpans(tokens)[i] == TokenRange(tokens, i, i + 1)
  {
  }

  lemma TokenRangeAllowedSound(tokens: seq<string>, r: Range)
    requires r in AllowedRanges(TokenSpans(tokens))
    ensures exists i, j :: 0 <= i < j <= |tokens| && r == TokenRange(tokens, i, j)
    ensures r.1 - r.0 <= MaxWidth
  {
    var spans := TokenSpans(tokens);
    AllowedRangesSound(spans, r);
    var i, j :| 0 <= i <= j < |spans| && r.0 == spans[i].0 && r.1 == spans[j].1;
    TokenSpanAt(tokens, i);
    TokenSpanAt(tokens, j);
    assert r == TokenRange(tokens, i, j + 1);
  }

  /** No token of i..j-1 ends after token j-1. */
  lemma TokenEndsMonotone(tokens: seq<string>, i: nat, j: nat)
    requires i < j <= |tokens|
    ensures forall t :: i <= t <= j - 1 ==> TokenSpans(tokens)[t].1 <= TokenSpans(tokens)[j - 1].1
  {
    forall t | i <= t <= j - 1
      ensures TokenSpans(tokens)[t].1 <= TokenSpans(tokens)[j - 1].1
    {
      TokenSpanAt(tokens, t);
      TokenSpanAt(tokens, j - 1);
      OffsetMonotone(tokens, t + 1, j);
    }
  }

  lemma TokenRangeAllowedComplete(tokens: seq<string>, i: nat, j: nat)
    requires i < j <= |tokens| && Offset(tokens, j) - Offset(tokens, i) <= MaxWidth
    ensures TokenRange(tokens, i, j) in AllowedRanges(TokenSpans(tokens))
  {
    var spans := TokenSpans(tokens);
    TokenSpanAt(tokens, i);
    TokenSpanAt(tokens, j - 1);
    TokenEndsMonotone(tokens, i, j);
    AllowedRangesComplete(spans, i, j - 1);
  }

  /** For a record's tokens, a range is allowed exactly when it covers the
      tokens i..j-1 for some i < j and those tokens together have at most
      MaxWidth characters. */
  lemma TokenRangeAllowed(tokens: seq<string>, r: Range)
    ensures r in AllowedRanges(TokenSpans(tokens)) <==>
      exists i, j :: 0 <= i < j <= |tokens| && r == TokenRange(tokens, i, j) && r.1 - r.0 <= MaxWidth
  {
    if r in AllowedRanges(TokenSpans(tokens)) {
      TokenRangeAllowedSound(tokens, r);
    }
    if exists i, j :: 0 <= i < j <= |tokens| && r == TokenRange(tokens, i, j) && r.1 - r.0 <= MaxWidth {
      var i, j :| 0 <= i < j <= |tokens| && r == TokenRange(tokens, i, j) && r.1 - r.0 <= MaxWidth;
      TokenRangeAllowedComplete(tokens, i, j);
    }
  }

  /** Offsets ignore whitespace: for the tokens of "New York City" the token
      "York" gets (3, 7), not its position (4, 8) in the text. */
  lemma NewYorkCityOffsets()
    ensures TokenSpans(["New", "York", "City"]) == [(0, 3), (3, 7), (7, 11)]
  {
    var tokens := ["New", "York", "City"];
    assert Offset(tokens, 1) == 3 && Offset(tokens, 2) == 7 && Offset(tokens, 3) == 11;
  }

  /** What `check_alignment_span_with_list_of_spans` returns: one flag per
      range, true exactly when the range is among the allowed ones. */
  method CheckAlignmentSpanWithListOfSpans(spans: seq<Range>, allowedSpans: seq<Range>)
    returns (acceptedSpans: seq<bool>)
    ensures |acceptedSpans| == |spans|
    ensures forall k :: 0 <= k < |spans| ==> (acceptedSpans[k] <==> spans[k] in allowedSpans)
  {
    acceptedSpans := [];
    for k := 0 to |spans|
      invariant |acceptedSpans| == k
      invariant forall m :: 0 <= m < k ==> (acceptedSpans[m] <==> spans[m] in allowedSpans)
    {
      if spans[k] in allowedSpans {
        acceptedSpans := acceptedSpans + [true];
      } else {
        acceptedSpans := acceptedSpans + [false];
      }
    }
  }

  /** xs with every element whose flag is false left out, in order. */
  function Keep<T>(xs: seq<T>, mask: seq<bool>): seq<T>
    requires |xs| == |mask|
  {
    if xs == [] then [] else (if mask[0] then [xs[0]] else []) + Keep(xs[1..], mask[1..])
  }

  /** a can be obtained from b by deleting elements. */
  predicate IsSubsequence<T(==)>(a: seq<T>, b: seq<T>)
    decreases |b|
  {
    if a == [] then true
    else if b == [] then false
    else (a[0] == b[0] && IsSubsequence(a[1..], b[1..])) || IsSubsequence(a, b[1..])
  }

  lemma {:induction false} KeepSubsequence<T>(xs: seq<T>, mask: seq<bool>)
    requires |xs| == |mask|
    ensures IsSubsequence(Keep(xs, mask), xs)
  {
    if xs != [] {
      KeepSubsequence(xs[1..], mask[1..]);
      var rest := Keep(xs[1..], mask[1..]);
      if mask[0] {
        assert Keep(xs, mask) == [xs[0]] + rest;
        assert ([xs[0]] + rest)[1..] == rest;
      } else {
        assert Keep(xs, mask) == rest;
        if rest != [] {
          assert IsSubsequence(rest, xs[1..]);
        }
      }
    }
  }

  /** The flags of the candidates: aligned with an allowed range or not. */
  function Mask(recordInfo: seq<Span>, allowed: seq<Range>): (mask: seq<bool>)
    ensures |mask| == |recordInfo|
  {
    seq(|recordInfo|, k requires 0 <= k < |recordInfo| => (recordInfo[k].start, recordInfo[k].end) in allowed)
  }

  lemma {:induction false} KeepMaskCount(recordInfo: seq<Span>, allowed: seq<Range>)
    ensures forall x :: (multiset(Keep(recordInfo, Mask(recordInfo, allowed)))[x]
      == if (x.start, x.end) in allowed then multiset(recordInfo)[x] else 0)
  {
    if recordInfo != [] {
      var tail := recordInfo[1..];
      KeepMaskCount(tail, allowed);
      assert Mask(recordInfo, allowed)[1..] == Mask(tail, allowed);
      assert recordInfo == [recordInfo[0]] + tail;
    }
  }

  /** What `validate_token_boundary` returns: the candidates whose (start, end)
      is one of the allowed ranges of the record's tokens, in their order and
      with their multiplicity. */
  function ValidateTokenBoundary(recordInfo: seq<Span>, tokens: seq<string>): (acceptedSpans: seq<Span>)
    ensures IsSubsequence(acceptedSpans, recordInfo)
    ensures forall x :: (multiset(acceptedSpans)[x]
      == if (x.start, x.end) in AllowedRanges(TokenSpans(tokens)) then multiset(recordInfo)[x] else 0)
  {
    var allowed := AllowedRanges(TokenSpans(tokens));
    KeepSubsequence(recordInfo, Mask(recordInfo, allowed));
    KeepMaskCount(recordInfo, allowed);
    Keep(recordInfo, Mask(recordInfo, allowed))
  }

  /** `validate_token_boundary` as the source computes it: the token offsets,
      the allowed ranges and the alignment mask come from the three loops, and
      the candidates whose flag is set are kept. */
  method KeepAligned(recordInfo: seq<Span>, tokens: seq<string>) returns (acceptedSpans: seq<Span>)
    ensures acceptedSpans == ValidateTokenBoundary(recordInfo, tokens)
  {
    var spans := GetSpansFromTokens(tokens);
    var allowedSpans := GetAllCombinationsOfAdjacentSpans(spans);
    var optionalSpans := seq(|recordInfo|, k requires 0 <= k < |recordInfo| => (recordInfo[k].start, recordInfo[k].end));
    var spanMask := CheckAlignmentSpanWithListOfSpans(optionalSpans, allowedSpans);
    assert spanMask == Mask(recordInfo, allowedSpans);
    acceptedSpans := Keep(recordInfo, spanMask);
  }
}
