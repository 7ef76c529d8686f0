/**
 * Candidate spans from the knowledge base (`apply_word_dict_kb`): every
 * dictionary word whose label passes the filter is searched in the record's
 * text, and each match that is not followed by an ASCII letter becomes a span
 * carrying the word's label and score.
 */
module CandidateSearch {
  import opened Wrappers
  import opened Spans
  import opened WordSearch
  import opened KnowledgeBase

  /** The positions the search yields for a word, in the text as it is or with
      both sides lowered. */
  function MatchStarts(text: string, word: string, caseSensitive: bool): seq<nat> {
    if caseSensitive then FindAll(text, word, 0) else FindAll(Lower(text), Lower(word), 0)
  }

  /** Each position found is a place where the text spells the word, up to
      case when case is ignored. */
  lemma MatchStartsShape(text: string, word: string, caseSensitive: bool, p: nat)
    requires p in MatchStarts(text, word, caseSensitive)
    ensures p + |word| <= |text|
    ensures caseSensitive ==> text[p..p + |word|] == word
    ensures !caseSensitive ==> Lower(text[p..p + |word|]) == Lower(word)
  {
    var starts := MatchStarts(text, word, caseSensitive);
    var k :| 0 <= k < |starts| && starts[k] == p;
    if caseSensitive {
      FindAllSound(text, word, 0);
      MatchesAtSlice(text, word, p);
    } else {
      FindAllSound(Lower(text), Lower(word), 0);
      MatchesAtSlice(Lower(text), Lower(word), p);
      assert MatchesAt(Lower(text), Lower(word), p);
      LowerSlice(text, p, p + |word|);
    }
  }

  /** A match ending at `end` is kept only when a character follows it and
      that character is not an ASCII letter: the match is a whole word, and a
      match at the very end of the text is dropped. */
  predicate EndsWord(text: string, end: int) {
    0 <= end < |text| && !IsAsciiLetter(text[end])
  }

  /** The spans the matches of one word produce, in match order. */
  function Emitted(text: string, word: string, e: Entry, starts: seq<nat>): seq<Span>
    decreases |starts|
  {
    if starts == [] then []
    else
      var end := starts[0] + |word|;
      (if EndsWord(text, end) then [Span(e.tag, starts[0], end, e.score)] else [])
      + Emitted(text, word, e, starts[1..])
  }

  /** The spans one dictionary word produces: none when its label is
      filtered out. */
  function WordCandidates(text: string, d: WordDict, w: string, includedLabels: Option<seq<string>>,
                          caseSensitive: bool): seq<Span>
  {
    if w in d.entries && Admitted(includedLabels, d.entries[w].tag)
    then Emitted(text, w, d.entries[w], MatchStarts(text, w, caseSensitive)) else []
  }

  /** The spans the words from index i on produce, in dictionary order. */
  function CandidatesFrom(text: string, d: WordDict, includedLabels: Option<seq<string>>, caseSensitive: bool,
                          i: nat): seq<Span>
    decreases |d.words| - i
  {
    if i >= |d.words| then []
    else
      WordCandidates(text, d, d.words[i], includedLabels, caseSensitive)
      + CandidatesFrom(text, d, includedLabels, caseSensitive, i + 1)
  }

  /** What `apply_word_dict_kb(rec, word_dict)` returns. */
  function Candidates(text: string, d: WordDict, includedLabels: Option<seq<string>>, caseSensitive: bool): seq<Span> {
    CandidatesFrom(text, d, includedLabels, caseSensitive, 0)
  }

  /** `apply_word_dict_kb(rec, word_dict)`: the outer loop runs over the
      words in dictionary order, the inner loop over the matches of one word. */
  method ApplyWordDictKb(text: string, wordDict: WordDict, includedLabels: Option<seq<string>>, caseSensitive: bool)
    returns (recordInfo: seq<Span>)
    requires forall w :: w in wordDict.words ==> w in wordDict.entries
    ensures recordInfo == Candidates(text, wordDict, includedLabels, caseSensitive)
  {
    ghost var total := Candidates(text, wordDict, includedLabels, caseSensitive);
    var words := wordDict.words;
    recordInfo := [];
    for i := 0 to |words|
      invariant recordInfo + CandidatesFrom(text, wordDict, includedLabels, caseSensitive, i) == total
    {
      var word := words[i];
      var wordInfo := wordDict.entries[word];
      CandidatesFromStep(text, wordDict, includedLabels, caseSensitive, i, recordInfo);
      if Admitted(includedLabels, wordInfo.tag) {
        var start := MatchStarts(text, word, caseSensitive);
        var emitted := EmitMatches(text, word, wordInfo, start);
        recordInfo := recordInfo + emitted;
      }
    }
  }

  /** The inner loop of `apply_word_dict_kb` for one word: every match that is
      followed by a character other than an ASCII letter becomes a span with
      the word's label and score. */
  method EmitMatches(text: string, word: string, wordInfo: Entry, start: seq<nat>) returns (emitted: seq<Span>)
    ensures emitted == Emitted(text, word, wordInfo, start)
  {
    emitted := [];
    assert start[0..] == start;
    for m := 0 to |start|
      invariant emitted + Emitted(text, word, wordInfo, start[m..]) == Emitted(text, word, wordInfo, start)
    {
      EmittedStep(text, word, wordInfo, start, m, emitted);
      var s := start[m];
      var end := s + |word|;
      if end < |text| {
        if !IsAsciiLetter(text[end]) {
          emitted := emitted + [Span(wordInfo.tag, s, end, wordInfo.score)];
        }
      }
    }
    assert start[|start|..] == [];
    assert emitted + [] == emitted;
  }

  /** One step of the outer loop keeps its invariant. */
  lemma CandidatesFromStep(text: string, d: WordDict, includedLabels: Option<seq<string>>, caseSensitive: bool,
                           i: nat, acc: seq<Span>)
    requires i < |d.words| && d.words[i] in d.entries
    ensures acc + CandidatesFrom(text, d, includedLabels, caseSensitive, i)
      == (if Admitted(includedLabels, d.entries[d.words[i]].tag)
          then acc + Emitted(text, d.words[i], d.entries[d.words[i]], MatchStarts(text, d.words[i], caseSensitive))
          else acc)
         + CandidatesFrom(text, d, includedLabels, caseSensitive, i + 1)
  {
    var w := d.words[i];
    var here := WordCandidates(text, d, w, includedLabels, caseSensitive);
    var rest := CandidatesFrom(text, d, includedLabels, caseSensitive, i + 1);
    assert CandidatesFrom(text, d, includedLabels, caseSensitive, i) == here + rest;
    AppendAssoc(acc, here, rest);
  }

  /** One step of the inner loop keeps its invariant. */
  lemma EmittedStep(text: string, word: string, e: Entry, starts: seq<nat>, m: nat, acc: seq<Span>)
    requires m < |starts|
    ensures acc + Emitted(text, word, e, starts[m..])
      == (if starts[m] + |word| < |text| && !IsAsciiLetter(text[starts[m] + |word|])
          then acc + [Span(e.tag, starts[m], starts[m] + |word|, e.score)] else acc)
         + Emitted(text, word, e, starts[m + 1..])
  {
    EmittedUnfold(text, word, e, starts, m);
  }

  lemma EmittedUnfold(text: string, word: string, e: Entry, starts: seq<nat>, m: nat)
    requires m < |starts|
    ensures Emitted(text, word, e, starts[m..])
      == (if EndsWord(text, starts[m] + |word|) then [Span(e.tag, starts[m], starts[m] + |word|, e.score)] else [])
         + Emitted(text, word, e, starts[m + 1..])
  {
    assert starts[m..][0] == starts[m] && starts[m..][1..] == starts[m + 1..];
  }

  lemma {:induction false} EmittedSound(text: string, word: string, e: Entry, starts: seq<nat>, x: Span)
    requires x in Emitted(text, word, e, starts)
    ensures x.tag == e.tag && x.score == e.score && x.end == x.start + |word| && x.start in starts
    ensures EndsWord(text, x.end)
    decreases |starts|
  {
    var end := starts[0] + |word|;
    var head := if EndsWord(text, end) then [Span(e.tag, starts[0], end, e.score)] else [];
    if x !in head {
      EmittedSound(text, word, e, starts[1..], x);
    }
  }

  lemma {:induction false} EmittedComplete(text: string, word: string, e: Entry, starts: seq<nat>, p: nat)
    requires p in starts && EndsWord(text, p + |word|)
    ensures Span(e.tag, p, p + |word|, e.score) in Emitted(text, word, e, starts)
    decreases |starts|
  {
    if starts[0] != p {
      EmittedComplete(text, word, e, starts[1..], p);
    }
  }

  /** A candidate of one word carries that word's entry and covers a match of
      it that ends a word of the text. */
  lemma WordCandidatesSound(text: string, d: WordDict, w: string, includedLabels: Option<seq<string>>,
                            caseSensitive: bool, x: Span)
    requires x in WordCandidates(text, d, w, includedLabels, caseSensitive)
    ensures w in d.entries && x.tag == d.entries[w].tag && x.score == d.entries[w].score
    ensures Admitted(includedLabels, x.tag) && x.end == x.start + |w| && EndsWord(text, x.end)
    ensures x.start in MatchStarts(text, w, caseSensitive)
  {
    EmittedSound(text, w, d.entries[w], MatchStarts(text, w, caseSensitive), x);
  }

  /** A candidate of the words from index i on comes from one of them, word j. */
  lemma {:induction false} CandidatesFromSound(text: string, d: WordDict, includedLabels: Option<seq<string>>,
                                               caseSensitive: bool, i: nat, x: Span) returns (j: nat)
    requires x in CandidatesFrom(text, d, includedLabels, caseSensitive, i)
    ensures i <= j < |d.words| && x in WordCandidates(text, d, d.words[j], includedLabels, caseSensitive)
    decreases |d.words| - i
  {
    if x in WordCandidates(text, d, d.words[i], includedLabels, caseSensitive) {
      j := i;
    } else {
      j := CandidatesFromSound(text, d, includedLabels, caseSensitive, i + 1, x);
    }
  }

  lemma {:induction false} CandidatesFromComplete(text: string, d: WordDict, includedLabels: Option<seq<string>>,
                                                  caseSensitive: bool, i: nat, j: nat, x: Span)
    requires i <= j < |d.words| && x in WordCandidates(text, d, d.words[j], includedLabels, caseSensitive)
    ensures x in CandidatesFrom(text, d, includedLabels, caseSensitive, i)
    decreases j - i
  {
    if i < j {
      CandidatesFromComplete(text, d, includedLabels, caseSensitive, i + 1, j, x);
    }
  }

  /** Every candidate carries the label and score of a dictionary word whose
      label passes the filter, covers exactly that word in the text (up to
      case when matching ignores case), and is followed by a character that
      is not an ASCII letter; a match ending at the end of the text yields
      nothing. */
  lemma CandidatesSound(text: string, d: WordDict, includedLabels: Option<seq<string>>, caseSensitive: bool, x: Span)
    requires x in Candidates(text, d, includedLabels, caseSensitive)
    ensures exists w :: (w in d.entries && x.tag == d.entries[w].tag && x.score == d.entries[w].score
      && 0 <= x.start && x.end == x.start + |w| && x.end < |text|
      && (caseSensitive ==> text[x.start..x.end] == w)
      && (!caseSensitive ==> Lower(text[x.start..x.end]) == Lower(w)))
    ensures Admitted(includedLabels, x.tag)
    ensures x.end < |text| && !IsAsciiLetter(text[x.end])
  {
    var j := CandidatesFromSound(text, d, includedLabels, caseSensitive, 0, x);
    var w := d.words[j];
    WordCandidatesSound(text, d, w, includedLabels, caseSensitive, x);
    MatchStartsShape(text, w, caseSensitive, x.start);
    assert w in d.entries && x.tag == d.entries[w].tag && x.score == d.entries[w].score
      && 0 <= x.start && x.end == x.start + |w| && x.end < |text|
      && (caseSensitive ==> text[x.start..x.end] == w)
      && (!caseSensitive ==> Lower(text[x.start..x.end]) == Lower(w));
  }

  /** Every match of an admitted word that ends a word of the text becomes a
      candidate with the word's label and score. */
  lemma CandidatesComplete(text: string, d: WordDict, includedLabels: Option<seq<string>>, caseSensitive: bool,
                           w: string, p: nat)
    requires Valid(d)
    requires w in d.entries && Admitted(includedLabels, d.entries[w].tag)
    requires p in MatchStarts(text, w, caseSensitive)
    requires p + |w| < |text| && !IsAsciiLetter(text[p + |w|])
    ensures Span(d.entries[w].tag, p, p + |w|, d.entries[w].score) in Candidates(text, d, includedLabels, caseSensitive)
  {
    var j :| 0 <= j < |d.words| && d.words[j] == w;
    EmittedComplete(text, w, d.entries[w], MatchStarts(text, w, caseSensitive), p);
    CandidatesFromComplete(text, d, includedLabels, caseSensitive, 0, j, Span(d.entries[w].tag, p, p + |w|, d.entries[w].score));
  }

  /** A word whose label is filtered out contributes nothing: with a filter,
      every candidate's label is listed in it. */
  lemma FilteredLabelsEmitNothing(text: string, d: WordDict, includedLabels: seq<string>, caseSensitive: bool, x: Span)
    requires Valid(d)
    requires x in Candidates(text, d, Some(includedLabels), caseSensitive)
    ensures x.tag in includedLabels
  {
    CandidatesSound(text, d, Some(includedLabels), caseSensitive, x);
  }
}
