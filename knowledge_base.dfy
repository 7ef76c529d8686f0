/**
 * The copycat knowledge base: a dictionary from a word to the label and score
 * it was last seen with, and its growth from a record's existing spans
 * (`update_word_dict_kb`).
 */
module KnowledgeBase {
  import opened Wrappers
  import opened Spans

  /** The value stored for a word: `{"label": ..., "score": ...}`. */
  datatype Entry = Entry(tag: string, score: Option<Score>)

  /** A Python dict from word to entry: its keys in insertion order, and the
      entries. The order matters because candidates are searched word by word
      in that order. */
  datatype WordDict = WordDict(words: seq<string>, entries: map<string, Entry>)

  /** The keys are listed once each, and they are exactly the mapped words. */
  predicate Valid(d: WordDict) {
    (forall i, j :: 0 <= i < j < |d.words| ==> d.words[i] != d.words[j])
    && (forall w :: w in d.entries ==> w in d.words)
    && (forall w :: w in d.words ==> w in d.entries)
  }

  /** The dictionary a knowledge base starts from when none is given. */
  const EmptyDict := WordDict([], map[])

  lemma EmptyDictValid()
    ensures Valid(EmptyDict) && EmptyDict.words == []
  {
  }

  /** `d.get(w)`. */
  function Lookup(d: WordDict, w: string): Option<Entry> {
    if w in d.entries then Some(d.entries[w]) else None
  }

  /** `d[w] = e`: an existing key keeps its place, a new key goes last. */
  function Put(d: WordDict, w: string, e: Entry): (r: WordDict)
    requires Valid(d)
    ensures Valid(r)
    ensures Lookup(r, w) == Some(e)
    ensures forall v :: v != w ==> Lookup(r, v) == Lookup(d, v)
    ensures w in d.entries ==> r.words == d.words
    ensures w !in d.entries ==> r.words == d.words + [w]
  {
    if w in d.entries then WordDict(d.words, d.entries[w := e])
    else WordDict(d.words + [w], d.entries[w := e])
  }

  /** A label passes the `included_labels` filter: there is no filter, or the
      label is listed in it. */
  predicate Admitted(includedLabels: Option<seq<string>>, tag: string) {
    includedLabels.None? || tag in includedLabels.value
  }

  /** Python's index normalisation for a slice bound: a negative bound counts
      from the end, and the result is clamped to [0, n]. */
  function SliceBound(i: int, n: nat): (b: nat)
    ensures b <= n
    ensures 0 <= i <= n ==> b == i
  {
    if i < 0 then (if i + n < 0 then 0 else i + n) else if i > n then n else i
  }

  /** Python's `s[i:j]` for a step of 1. */
  function PySlice(s: string, i: int, j: int): (r: string)
    ensures 0 <= i <= j <= |s| ==> r == s[i..j]
    ensures |r| <= |s|
    ensures 0 <= j <= i ==> r == ""
  {
    var lo, hi := SliceBound(i, |s|), SliceBound(j, |s|);
    if lo < hi then s[lo..hi] else ""
  }

  /** The text a span covers, as `rec.text[start:end]` reads it. */
  function SpanText(text: string, x: Span): string {
    PySlice(text, x.start, x.end)
  }

  /** One step of `update_word_dict_kb`: an admitted span writes its label and
      score under the text it covers. */
  function Write(text: string, includedLabels: Option<seq<string>>, d: WordDict, x: Span): (r: WordDict)
    requires Valid(d)
    ensures Valid(r)
  {
    if Admitted(includedLabels, x.tag) then Put(d, SpanText(text, x), Entry(x.tag, x.score)) else d
  }

  /** The dictionary after writing the spans first to last. */
  function Ingested(text: string, spans: seq<Span>, includedLabels: Option<seq<string>>, d: WordDict): (r: WordDict)
    requires Valid(d)
    ensures Valid(r)
    decreases |spans|
  {
    if spans == [] then d else Ingested(text, spans[1..], includedLabels, Write(text, includedLabels, d, spans[0]))
  }

  /** `update_word_dict_kb(rec, rec_info, word_dict)`; the dictionary is
      returned rather than updated in place. */
  method UpdateWordDictKb(text: string, recInfo: seq<Span>, includedLabels: Option<seq<string>>, wordDict: WordDict)
    returns (updated: WordDict)
    requires Valid(wordDict)
    ensures updated == Ingested(text, recInfo, includedLabels, wordDict)
  {
    updated := wordDict;
    for k := 0 to |recInfo|
      invariant Valid(updated)
      invariant Ingested(text, recInfo[k..], includedLabels, updated) == Ingested(text, recInfo, includedLabels, wordDict)
    {
      assert recInfo[k..][1..] == recInfo[k + 1..];
      var pred := recInfo[k];
      if Admitted(includedLabels, pred.tag) {
        var word := PySlice(text, pred.start, pred.end);
        updated := Put(updated, word, Entry(pred.tag, pred.score));
      }
    }
    assert recInfo[|recInfo|..] == [];
  }

  /** The entry of the last admitted span that covers the text w, read from
      the end of the list: the write that survives. */
  function LastEntry(text: string, spans: seq<Span>, includedLabels: Option<seq<string>>, w: string): (r: Option<Entry>)
    ensures r.Some? ==> Admitted(includedLabels, r.value.tag)
    decreases |spans|
  {
    if spans == [] then None
    else
      var x := spans[|spans| - 1];
      if Admitted(includedLabels, x.tag) && SpanText(text, x) == w then Some(Entry(x.tag, x.score))
      else LastEntry(text, spans[..|spans| - 1], includedLabels, w)
  }

  lemma {:induction false} IngestedSnoc(text: string, spans: seq<Span>, x: Span, includedLabels: Option<seq<string>>, d: WordDict)
    requires Valid(d)
    ensures Ingested(text, spans + [x], includedLabels, d) == Write(text, includedLabels, Ingested(text, spans, includedLabels, d), x)
    decreases |spans|
  {
    if spans == [] {
      assert [] + [x] == [x];
      assert [x][1..] == [];
    } else {
      assert (spans + [x])[0] == spans[0] && (spans + [x])[1..] == spans[1..] + [x];
      IngestedSnoc(text, spans[1..], x, includedLabels, Write(text, includedLabels, d, spans[0]));
    }
  }

  /** Last write wins: after ingestion a word maps to the entry of the last
      admitted span covering it, and a word no admitted span covers keeps its
      old entry (or stays absent). */
  lemma {:induction false} IngestedLookup(text: string, spans: seq<Span>, includedLabels: Option<seq<string>>, d: WordDict, w: string)
    requires Valid(d)
    ensures Lookup(Ingested(text, spans, includedLabels, d), w)
      == if LastEntry(text, spans, includedLabels, w).Some? then LastEntry(text, spans, includedLabels, w) else Lookup(d, w)
    decreases |spans|
  {
    if spans != [] {
      var init, x := spans[..|spans| - 1], spans[|spans| - 1];
      assert spans == init + [x];
      IngestedSnoc(text, init, x, includedLabels, d);
      IngestedLookup(text, init, includedLabels, d, w);
    }
  }

  /** A span that is admitted leaves its text among the keys. */
  lemma {:induction false} LastEntryCovers(text: string, spans: seq<Span>, includedLabels: Option<seq<string>>, k: nat)
    requires k < |spans| && Admitted(includedLabels, spans[k].tag)
    ensures LastEntry(text, spans, includedLabels, SpanText(text, spans[k])).Some?
    decreases |spans|
  {
    if k < |spans| - 1 {
      var w := SpanText(text, spans[k]);
      var init := spans[..|spans| - 1];
      assert init[k] == spans[k];
      LastEntryCovers(text, init, includedLabels, k);
    }
  }

  /** Ingestion only ever adds keys, at the end, in the order first seen. */
  lemma {:induction false} IngestedExtends(text: string, spans: seq<Span>, includedLabels: Option<seq<string>>, d: WordDict)
    requires Valid(d)
    ensures d.words <= Ingested(text, spans, includedLabels, d).words
    decreases |spans|
  {
    if spans != [] {
      var d1 := Write(text, includedLabels, d, spans[0]);
      IngestedExtends(text, spans[1..], includedLabels, d1);
    }
  }

  /** When every admitted span's text is already a key, the key order does not
      change. */
  lemma {:induction false} IngestedKeepsWords(text: string, spans: seq<Span>, includedLabels: Option<seq<string>>, d: WordDict)
    requires Valid(d)
    requires forall k :: 0 <= k < |spans| && Admitted(includedLabels, spans[k].tag) ==> SpanText(text, spans[k]) in d.entries
    ensures Ingested(text, spans, includedLabels, d).words == d.words
    decreases |spans|
  {
    if spans != [] {
      var d1 := Write(text, includedLabels, d, spans[0]);
      assert d1.words == d.words;
      forall k | 0 <= k < |spans[1..]| && Admitted(includedLabels, spans[1..][k].tag)
        ensures SpanText(text, spans[1..][k]) in d1.entries
      {
        assert spans[1..][k] == spans[k + 1];
      }
      IngestedKeepsWords(text, spans[1..], includedLabels, d1);
    }
  }

  /** Running `update_word_dict_kb` twice on the same spans gives the same
      dictionary, key order included, as running it once. */
  lemma IngestedIdempotent(text: string, spans: seq<Span>, includedLabels: Option<seq<string>>, d: WordDict)
    requires Valid(d)
    ensures Ingested(text, spans, includedLabels, Ingested(text, spans, includedLabels, d))
      == Ingested(text, spans, includedLabels, d)
  {
    var once := Ingested(text, spans, includedLabels, d);
    var twice := Ingested(text, spans, includedLabels, once);
    forall k | 0 <= k < |spans| && Admitted(includedLabels, spans[k].tag)
      ensures SpanText(text, spans[k]) in once.entries
    {
      LastEntryCovers(text, spans, includedLabels, k);
      IngestedLookup(text, spans, includedLabels, d, SpanText(text, spans[k]));
    }
    IngestedKeepsWords(text, spans, includedLabels, once);
    forall w
      ensures Lookup(twice, w) == Lookup(once, w)
    {
      IngestedLookup(text, spans, includedLabels, d, w);
      IngestedLookup(text, spans, includedLabels, once, w);
    }
    assert forall w :: w in twice.entries <==> w in once.entries by {
      forall w
        ensures w in twice.entries <==> w in once.entries
      {
        assert Lookup(twice, w) == Lookup(once, w);
      }
    }
    assert forall w :: w in twice.entries ==> twice.entries[w] == once.entries[w] by {
      forall w | w in twice.entries
        ensures twice.entries[w] == once.entries[w]
      {
        assert Lookup(twice, w) == Lookup(once, w);
      }
    }
    assert twice.entries == once.entries;
  }
}
