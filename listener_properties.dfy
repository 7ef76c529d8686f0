/**
 * What the copycat listener promises about a whole batch: when it raises,
 * which records it reports, what phase one leaves in the knowledge bases, and
 * what a rewritten span list looks like.
 */
module ListenerProperties {
  import opened Wrappers
  import opened Spans
  import opened KnowledgeBase
  import opened Overlap
  import opened Copycat

  /** The listener raises exactly when some record of the batch has a missing
      list whose flag is set. */
  lemma OutcomeErr(s: Settings, kbPredictions: WordDict, kbAnnotations: WordDict, rs: seq<RecordData>)
    ensures Outcome(s, kbPredictions, kbAnnotations, rs).Err? <==> exists k :: 0 <= k < |rs| && Fails(s, rs[k])
  {
    var f := FirstFailure(s, rs);
    if f < |rs| {
      assert Fails(s, rs[f]);
    }
  }

  /** At most one report per record. */
  lemma {:induction false} ReportedLength(befores: seq<RecordData>, afters: seq<RecordData>, n: nat)
    requires n <= |befores| && |befores| == |afters|
    ensures |Reported(befores, afters, n)| <= n
  {
    if n > 0 {
      ReportedLength(befores, afters, n - 1);
    }
  }

  /** Every report is a record, as it is after its turn, whose span lists
      changed; k is that record's index. */
  lemma {:induction false} ReportedSound(befores: seq<RecordData>, afters: seq<RecordData>, n: nat, m: nat)
    returns (k: nat)
    requires n <= |befores| && |befores| == |afters| && m < |Reported(befores, afters, n)|
    ensures k < n && Reported(befores, afters, n)[m] == afters[k] && Changed(befores[k], afters[k])
  {
    var init := Reported(befores, afters, n - 1);
    if m < |init| {
      k := ReportedSound(befores, afters, n - 1, m);
    } else {
      k := n - 1;
    }
  }

  /** Every record whose span lists changed is reported, at index m. */
  lemma {:induction false} ReportedComplete(befores: seq<RecordData>, afters: seq<RecordData>, n: nat, k: nat)
    returns (m: nat)
    requires k < n <= |befores| && |befores| == |afters|
    requires Changed(befores[k], afters[k])
    ensures m < |Reported(befores, afters, n)| && Reported(befores, afters, n)[m] == afters[k]
  {
    var init := Reported(befores, afters, n - 1);
    if k < n - 1 {
      m := ReportedComplete(befores, afters, n - 1, k);
    } else {
      m := |init|;
    }
  }

  /** Reports keep batch order: a record reported before another comes
      before it in the batch. */
  lemma {:induction false} ReportedOrdered(befores: seq<RecordData>, afters: seq<RecordData>, n: nat,
                                           m1: nat, m2: nat) returns (k1: nat, k2: nat)
    requires n <= |befores| && |befores| == |afters| && m1 < m2 < |Reported(befores, afters, n)|
    ensures k1 < k2 < n
    ensures Reported(befores, afters, n)[m1] == afters[k1] && Reported(befores, afters, n)[m2] == afters[k2]
  {
    var init := Reported(befores, afters, n - 1);
    if m2 < |init| {
      k1, k2 := ReportedOrdered(befores, afters, n - 1, m1, m2);
    } else {
      k1 := ReportedSound(befores, afters, n - 1, m1);
      k2 := n - 1;
    }
  }

  /** The listener's report, when it does not raise: for each record whose
      lists changed, the record as rewritten, and nothing else. */
  lemma OutcomeReports(s: Settings, kbPredictions: WordDict, kbAnnotations: WordDict, rs: seq<RecordData>, m: nat)
    returns (k: nat)
    requires Outcome(s, kbPredictions, kbAnnotations, rs).Ok?
    requires m < |Outcome(s, kbPredictions, kbAnnotations, rs).value|
    ensures k < |rs|
    ensures Outcome(s, kbPredictions, kbAnnotations, rs).value[m] == Rewrite(s, kbPredictions, kbAnnotations, rs[k])
    ensures Changed(rs[k], Rewrite(s, kbPredictions, kbAnnotations, rs[k]))
  {
    k := ReportedSound(rs, Rewritten(s, kbPredictions, kbAnnotations, rs), |rs|, m);
  }

  /** Writing spans into a dictionary never removes a key. */
  lemma IngestedKeeps(text: string, spans: seq<Span>, includedLabels: Option<seq<string>>, d: WordDict, w: string)
    requires Valid(d) && w in d.entries
    ensures w in Ingested(text, spans, includedLabels, d).entries
  {
    IngestedLookup(text, spans, includedLabels, d, w);
  }

  /** Phase one never removes a key. */
  lemma {:induction false} LearnedKeeps(s: Settings, kind: Kind, d: WordDict, rs: seq<RecordData>, w: string)
    requires Valid(d) && w in d.entries
    ensures w in Learned(s, kind, d, rs).entries
    decreases |rs|
  {
    if rs != [] {
      var init := rs[..|rs| - 1];
      LearnedKeeps(s, kind, d, init, w);
      var list := ListOf(rs[|rs| - 1], kind);
      if Copies(s, kind) && list.Some? && list.value != [] {
        IngestedKeeps(rs[|rs| - 1].text, list.value, s.includedLabels, Learned(s, kind, d, init), w);
      }
    }
  }

  /** After phase one, the text under every admitted span of every copied list
      of the batch is a key of that list's knowledge base. */
  lemma {:induction false} LearnedCovers(s: Settings, kind: Kind, d: WordDict, rs: seq<RecordData>, k: nat, j: nat)
    requires Valid(d) && Copies(s, kind) && k < |rs|
    requires ListOf(rs[k], kind).Some? && j < |ListOf(rs[k], kind).value|
    requires Admitted(s.includedLabels, ListOf(rs[k], kind).value[j].tag)
    ensures SpanText(rs[k].text, ListOf(rs[k], kind).value[j]) in Learned(s, kind, d, rs).entries
    decreases |rs|
  {
    var init := rs[..|rs| - 1];
    var r := rs[k];
    var list := ListOf(r, kind).value;
    var w := SpanText(r.text, list[j]);
    if k == |rs| - 1 {
      var before := Learned(s, kind, d, init);
      LastEntryCovers(r.text, list, s.includedLabels, j);
      IngestedLookup(r.text, list, s.includedLabels, before, w);
    } else {
      assert init[k] == r;
      LearnedCovers(s, kind, d, init, k, j);
      var last := ListOf(rs[|rs| - 1], kind);
      if last.Some? && last.value != [] {
        IngestedKeeps(rs[|rs| - 1].text, last.value, s.includedLabels, Learned(s, kind, d, init), w);
      }
    }
  }

  /** Phase one keeps the keys already there, in order, and appends new keys
      after them. */
  lemma {:induction false} LearnedExtends(s: Settings, kind: Kind, d: WordDict, rs: seq<RecordData>)
    requires Valid(d)
    ensures d.words <= Learned(s, kind, d, rs).words
    decreases |rs|
  {
    if rs != [] {
      var init := rs[..|rs| - 1];
      LearnedExtends(s, kind, d, init);
      var list := ListOf(rs[|rs| - 1], kind);
      if Copies(s, kind) && list.Some? && list.value != [] {
        IngestedExtends(rs[|rs| - 1].text, list.value, s.includedLabels, Learned(s, kind, d, init));
      }
    }
  }

  /** A list that is rewritten comes back ordered by start, free of
      overlapping spans, and made only of spans it held before or candidates
      validated against its tokens; the rest of the record is untouched. */
  lemma TurnResolves(s: Settings, kind: Kind, kb: WordDict, r: RecordData)
    requires Copies(s, kind) && ListOf(r, kind).Some?
    ensures ListOf(Turn(s, kind, kb, r), kind).Some?
    ensures IsSortedBy(ByStart, ListOf(Turn(s, kind, kb, r), kind).value)
    ensures Disjoint(ListOf(Turn(s, kind, kb, r), kind).value)
    ensures multiset(ListOf(Turn(s, kind, kb, r), kind).value)
      <= multiset(ListOf(r, kind).value + Validated(s, kb, r))
    ensures Turn(s, kind, kb, r).text == r.text && Turn(s, kind, kb, r).tokens == r.tokens
    ensures kind == Predictions ==> Turn(s, kind, kb, r).annotation == r.annotation
    ensures kind == Annotations ==> Turn(s, kind, kb, r).prediction == r.prediction
  {
    var all := ListOf(r, kind).value + Validated(s, kb, r);
    ResolvedSortedSubset(all);
    ResolvedDisjoint(all);
  }

  /** When the predictions are missing and copied, the turn stops before the
      annotations: the record comes back as it was. */
  lemma RewriteStopsEarly(s: Settings, kbPredictions: WordDict, kbAnnotations: WordDict, r: RecordData)
    requires s.copyPredictions && r.prediction.None?
    ensures Rewrite(s, kbPredictions, kbAnnotations, r) == r
  {
  }
}
