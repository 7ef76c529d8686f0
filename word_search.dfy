/**
 * The text search behind `apply_word_dict_kb`: a dictionary word is looked up
 * in the record's text left to right, and each match resumes the search after
 * itself, as `re.finditer` does for a pattern that is a plain literal.
 */
module WordSearch {

  /** Membership in `string.ascii_letters`. */
  predicate IsAsciiLetter(c: char) {
    'a' <= c <= 'z' || 'A' <= c <= 'Z'
  }

  /** `str.lower` on one character, restricted to ASCII. */
  function LowerChar(c: char): (r: char)
    ensures !IsAsciiLetter(c) ==> r == c
    ensures IsAsciiLetter(c) ==> 'a' <= r <= 'z' && (r == c || r as int == c as int + 32)
  {
    if 'A' <= c <= 'Z' then (c as int + 32) as char else c
  }

  /** `str.lower` restricted to ASCII: it keeps the length of the string. */
  function Lower(s: string): (r: string)
    ensures |r| == |s|
  {
    seq(|s|, i requires 0 <= i < |s| => LowerChar(s[i]))
  }

  /** Lowering commutes with slicing, so the positions found in the lowered
      text are positions in the original text. */
  lemma LowerSlice(s: string, a: nat, b: nat)
    requires a <= b <= |s|
    ensures Lower(s)[a..b] == Lower(s[a..b])
  {
  }

  /** Lowering twice is lowering once. */
  lemma LowerIdempotent(s: string)
    ensures Lower(Lower(s)) == Lower(s)
  {
  }

  /** The string begins with the given prefix, compared character by
      character. */
  predicate StartsWith(s: string, prefix: string)
    decreases |prefix|
  {
    prefix == [] || (s != [] && s[0] == prefix[0] && StartsWith(s[1..], prefix[1..]))
  }

  lemma {:induction false} StartsWithSlice(s: string, prefix: string)
    ensures StartsWith(s, prefix) <==> |prefix| <= |s| && s[..|prefix|] == prefix
    decreases |prefix|
  {
    if prefix != [] && s != [] {
      StartsWithSlice(s[1..], prefix[1..]);
      if |prefix| <= |s| {
        assert s[..|prefix|] == [s[0]] + s[1..][..|prefix| - 1];
        assert prefix == [prefix[0]] + prefix[1..];
      }
    }
  }

  /** The word occurs in the text at position p. */
  predicate MatchesAt(text: string, word: string, p: int) {
    0 <= p <= |text| && StartsWith(text[p..], word)
  }

  /** A match, read as a slice of the text. */
  lemma MatchesAtSlice(text: string, word: string, p: int)
    ensures MatchesAt(text, word, p) <==> 0 <= p && p + |word| <= |text| && text[p..p + |word|] == word
  {
    if 0 <= p <= |text| {
      StartsWithSlice(text[p..], word);
      if p + |word| <= |text| {
        assert text[p..][..|word|] == text[p..p + |word|];
      }
    }
  }

  /** How far the search moves on after a match: past the match, or one
      position for the empty word, which matches everywhere. */
  function Step(word: string): (n: nat)
    ensures n >= 1 && n >= |word|
  {
    if |word| == 0 then 1 else |word|
  }

  /** The start positions of the matches found from position `from` on, in
      the order `re.finditer` yields them. */
  function FindAll(text: string, word: string, from: nat): seq<nat>
    decreases |text| + 1 - from
  {
    if from > |text| then []
    else if MatchesAt(text, word, from) then [from] + FindAll(text, word, from + Step(word))
    else FindAll(text, word, from + 1)
  }

  /** Every position found is a match at or after `from`. */
  lemma {:induction false} FindAllSound(text: string, word: string, from: nat)
    ensures forall k :: 0 <= k < |FindAll(text, word, from)| ==>
      from <= FindAll(text, word, from)[k] && MatchesAt(text, word, FindAll(text, word, from)[k])
    decreases |text| + 1 - from
  {
    if from <= |text| {
      if MatchesAt(text, word, from) {
        FindAllSound(text, word, from + Step(word));
        var rest := FindAll(text, word, from + Step(word));
        assert FindAll(text, word, from) == [from] + rest;
        forall k | 0 <= k < |[from] + rest|
          ensures from <= ([from] + rest)[k] && MatchesAt(text, word, ([from] + rest)[k])
        {
          if k > 0 {
            assert ([from] + rest)[k] == rest[k - 1];
          }
        }
      } else {
        FindAllSound(text, word, from + 1);
      }
    }
  }

  /** The positions increase, and each match ends before the next one starts. */
  lemma {:induction false} FindAllSpaced(text: string, word: string, from: nat)
    ensures forall k, m :: 0 <= k < m < |FindAll(text, word, from)| ==>
      FindAll(text, word, from)[k] + Step(word) <= FindAll(text, word, from)[m]
    decreases |text| + 1 - from
  {
    if from <= |text| {
      if MatchesAt(text, word, from) {
        FindAllSpaced(text, word, from + Step(word));
        FindAllSound(text, word, from + Step(word));
        var rest := FindAll(text, word, from + Step(word));
        assert FindAll(text, word, from) == [from] + rest;
        forall k, m | 0 <= k < m < |[from] + rest|
          ensures ([from] + rest)[k] + Step(word) <= ([from] + rest)[m]
        {
          assert ([from] + rest)[m] == rest[m - 1];
          if k > 0 {
            assert ([from] + rest)[k] == rest[k - 1];
          }
        }
      } else {
        FindAllSpaced(text, word, from + 1);
      }
    }
  }

  /** Every match is found, or lies inside an earlier match that was found:
      the search never skips a match it could have taken. */
  lemma {:induction false} FindAllComplete(text: string, word: string, from: nat, p: nat)
    requires from <= p && MatchesAt(text, word, p)
    ensures p in FindAll(text, word, from)
      || exists q :: q in FindAll(text, word, from) && q < p < q + |word|
    decreases |text| + 1 - from
  {
    if from == p {
      assert FindAll(text, word, from) == [p] + FindAll(text, word, p + Step(word));
    } else if MatchesAt(text, word, from) {
      var rest := FindAll(text, word, from + Step(word));
      assert FindAll(text, word, from) == [from] + rest;
      if p >= from + Step(word) {
        FindAllComplete(text, word, from + Step(word), p);
        if p !in rest {
          var q :| q in rest && q < p < q + |word|;
          assert q in [from] + rest;
        }
      } else {
        assert from in FindAll(text, word, from) && from < p < from + |word|;
      }
    } else {
      assert from <= |text|;
      FindAllComplete(text, word, from + 1, p);
    }
  }

  /** With no overlapping occurrences (as for words that do not overlap
      themselves) every match is found. */
  lemma FindAllExact(text: string, word: string, p: nat)
    requires MatchesAt(text, word, p)
    requires forall q :: 0 <= q < p && q + |word| > p ==> !MatchesAt(text, word, q)
    ensures p in FindAll(text, word, 0)
  {
    FindAllComplete(text, word, 0, p);
    FindAllSound(text, word, 0);
    forall q | q in FindAll(text, word, 0)
      ensures !(q < p < q + |word|)
    {
      var k :| 0 <= k < |FindAll(text, word, 0)| && FindAll(text, word, 0)[k] == q;
      assert MatchesAt(text, word, q);
    }
  }

  /** The empty word matches at every position, the end of the text included. */
  lemma {:induction false} FindAllEmpty(text: string, from: nat)
    requires from <= |text| + 1
    ensures FindAll(text, "", from) == seq(|text| + 1 - from, k requires 0 <= k < |text| + 1 - from => from + k)
    decreases |text| + 1 - from
  {
    if from <= |text| {
      assert MatchesAt(text, "", from);
      FindAllEmpty(text, from + 1);
      var rest := seq(|text| - from, k requires 0 <= k < |text| - from => from + 1 + k);
      var all := seq(|text| + 1 - from, k requires 0 <= k < |text| + 1 - from => from + k);
      assert FindAll(text, "", from) == [from] + rest;
      assert all == [from] + rest by {
        forall k | 0 <= k < |all|
          ensures all[k] == ([from] + rest)[k]
        {
          if k > 0 {
            assert ([from] + rest)[k] == rest[k - 1];
          }
        }
      }
    }
  }
}
