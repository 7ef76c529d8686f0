# argilla-plugins: copycat, duplicate remover and sync configuration, in Dafny

This project models three plugins of argilla-plugins.

**Token copycat.** The model covers the `token_copycat` factory and the listener it returns.
The factory refuses a configuration that copies neither predictions nor annotations.
The listener works on a batch of token-classification records in two phases:

1. Every record's existing prediction and annotation spans are written into two knowledge bases. A knowledge base is an ordered dictionary from a word to the label and score it was last seen with.
2. Every record is rewritten:
   - the words of each knowledge base are searched in the record's text;
   - a match directly followed by an ASCII letter is dropped;
   - matches whose character range does not line up with a run of the record's tokens are dropped;
   - the survivors are appended to the record's list;
   - overlaps are resolved greedily, longest span first, and the list is re-sorted by start.

The listener reports every record whose span lists changed.

**Duplicate remover.** This listener scans a batch and flags every record whose text an earlier record already carried. It asks for the flagged ids to be deleted.

**Hugging Face sync configuration.** The model covers the `Config` dataclass of the sync plugin. Its `__post_init__` refuses a configuration that names no dataset and derives the missing names.

Module layout:

| file | module | what |
|---|---|---|
| `wrappers.dfy` | `Wrappers` | `Option`, `Result` |
| `spans.dfy` | `Spans` | labelled spans; Python's stable `sorted` with the two sort keys of the copycat |
| `token_boundary.dfy` | `TokenBoundary` | `get_spans_from_tokens`, `get_all_combinations_of_adjacent_spans`, `check_alignment_span_with_list_of_spans`, `validate_token_boundary` |
| `word_search.dfy` | `WordSearch` | the left-to-right search for a dictionary word, and ASCII `lower` |
| `candidate_search.dfy` | `CandidateSearch` | `apply_word_dict_kb` |
| `knowledge_base.dfy` | `KnowledgeBase` | the ordered dictionary, Python slicing, and `update_word_dict_kb` |
| `overlap.dfy` | `Overlap` | `resolve_span_overlap` |
| `copycat.dfy` | `Copycat` | the factory's flag check, and the records, context and two-phase loop of the listener |
| `listener_properties.dfy` | `ListenerProperties` | what the listener promises about a whole batch |
| `remove_duplicate.dfy` | `RemoveDuplicate` | the duplicate remover's listener body |
| `hf_sync.dfy` | `HfSync` | `Config` and `__post_init__` |

Representation choices:

- The loops of the source are `method`s with loop invariants. Each is proved equal to a specification function or characterized pointwise:
  - `GetSpansFromTokens` equals `TokenSpans`;
  - `AdjacentRuns` equals `RunsFrom`, and `GetAllCombinationsOfAdjacentSpans` equals `AllowedRanges`;
  - `CheckAlignmentSpanWithListOfSpans` gives one flag per range, true exactly on membership;
  - `EmitMatches` equals `Emitted`, and `ApplyWordDictKb` equals `Candidates`;
  - `UpdateWordDictKb` equals `Ingested`;
  - `KeepFree` equals `Accepted`, and `ResolveSpanOverlap` equals `Resolved`;
  - `GatherKnowledge` equals `Learned`, `RewriteRecord` equals `Rewrite`, and `CopyKnowledge` reports `Reported`;
  - `FindDuplicates` equals `Duplicates` and `Texts`.
- `Config.PostInitInPlace` has no loop. It updates the object's fields in place and is proved equal to `PostInit`.
- The properties are lemmas about the specification functions.
- The listener runs the loop methods themselves. `CopyList` calls `ApplyWordDictKb`, `KeepAligned` and `ResolveSpanOverlap`. `KeepAligned` in turn calls the three loops of `validate_token_boundary`.
- A record handed to the copycat listener is a `Record` object whose span lists are rewritten in place. The listener context (`ctx.query_params`) is a `ListenerContext` object whose two knowledge bases persist from one batch to the next.
- A missing span list is `None`. Phase two's `rec.prediction += ...` on a missing list raises `TypeError`. The model reports this as the `Err` outcome, with the records already rewritten left as they are.
- A knowledge base keeps its keys in insertion order, because `apply_word_dict_kb` emits candidates in dictionary order.

Three details of the code shape the model:

- Token offsets are the summed lengths of the earlier tokens, with no whitespace counted. For the tokens of "New York City", "York" gets (3, 7), not its text position (4, 8). This is `TokenBoundary.NewYorkCityOffsets`.
- A match that ends exactly at the end of the text is dropped, because the code emits a match only when a character follows it.
- Only the first and the last position of a span are tested against the positions already taken when overlaps are resolved. `Overlap.ResolvedDisjoint` shows that this still leaves no two kept spans overlapping.

## Model

| member | source | states |
|---|---|---|
| Copycat.TokenCopycat | argilla_plugins/programmatic_labelling/token_copycat.py:44-51 | The factory fails exactly when both copy flags are off. Otherwise it keeps the options as given, and a knowledge base that is not given starts empty. |
| Copycat.ListenerContext.constructor | argilla_plugins/programmatic_labelling/token_copycat.py:55-62 | The listener context starts with the two knowledge bases the factory set up. |
| Copycat.Record.constructor | argilla_plugins/programmatic_labelling/token_copycat.py:231 | A record built from another record's fields, as the reported record is, carries exactly those values. |
| Copycat.Plugin | argilla_plugins/programmatic_labelling/token_copycat.py:197-240 | Each knowledge base ends as phase one's result over every record's values from before the rewrite. Records up to the first failing one are rewritten with the grown knowledge bases; later records are untouched. The outcome is `TypeError` when a record fails, else the changed records. |
| Copycat.GatherKnowledge | argilla_plugins/programmatic_labelling/token_copycat.py:197-206 | Each knowledge base becomes what phase one learns from the records read first to last. A list is learned only when its flag is set and it is present and non-empty. |
| Copycat.CopyKnowledge | argilla_plugins/programmatic_labelling/token_copycat.py:208-232 | Records are rewritten in batch order until the first record with a missing copied list. Every record before it passes. Records after it keep their values. `updated_records` holds the changed records seen so far, in batch order. |
| Copycat.VisitRecord | argilla_plugins/programmatic_labelling/token_copycat.py:210-232 | One loop turn changes only its own record. The record is appended to the report, as it is after its turn, exactly when its predictions or annotations differ from before. |
| Copycat.RewriteRecord | argilla_plugins/programmatic_labelling/token_copycat.py:211-226 | The record becomes its rewrite: predictions first, then annotations. It fails exactly when a list whose flag is set is missing. |
| Copycat.CopyList | argilla_plugins/programmatic_labelling/token_copycat.py:213-219 | One list gets the validated knowledge-base matches, with overlaps resolved; the rest of the record is untouched. The `+=` raises exactly when the list is missing. |
| Copycat.FirstFailure | argilla_plugins/programmatic_labelling/token_copycat.py:210-226 | The index of the first record whose turn raises, or the batch size. Every record before it passes. |
| ListenerProperties.OutcomeErr | argilla_plugins/programmatic_labelling/token_copycat.py:210-226 | The listener raises if and only if some record of the batch has a missing list whose flag is set. |
| ListenerProperties.ReportedLength | argilla_plugins/programmatic_labelling/token_copycat.py:227-232 | There are never more reports than records. |
| ListenerProperties.ReportedSound | argilla_plugins/programmatic_labelling/token_copycat.py:227-232 | Every report is some record, as it is after its turn, whose span lists changed. |
| ListenerProperties.ReportedComplete | argilla_plugins/programmatic_labelling/token_copycat.py:227-232 | Every record whose span lists changed is reported. |
| ListenerProperties.ReportedOrdered | argilla_plugins/programmatic_labelling/token_copycat.py:209-232 | Reports keep batch order. |
| ListenerProperties.OutcomeReports | argilla_plugins/programmatic_labelling/token_copycat.py:209-240 | When the listener does not raise, each record it logs is the rewrite of a batch record whose lists changed. |
| ListenerProperties.IngestedKeeps | argilla_plugins/programmatic_labelling/token_copycat.py:160-170 | Writing spans into a knowledge base never removes a key. |
| ListenerProperties.LearnedKeeps | argilla_plugins/programmatic_labelling/token_copycat.py:197-206 | Phase one never removes a key. |
| ListenerProperties.LearnedCovers | argilla_plugins/programmatic_labelling/token_copycat.py:197-206 | After phase one, the text under every admitted span of every copied list of the batch is a key. So phase two sees knowledge from every record, including later ones. |
| ListenerProperties.LearnedExtends | argilla_plugins/programmatic_labelling/token_copycat.py:197-206 | Phase one keeps the existing keys in order and appends new keys after them. |
| ListenerProperties.TurnResolves | argilla_plugins/programmatic_labelling/token_copycat.py:213-226 | A rewritten list is sorted by start and free of overlaps. It holds only spans it had before or validated candidates. The record's other fields are untouched. |
| ListenerProperties.RewriteStopsEarly | argilla_plugins/programmatic_labelling/token_copycat.py:213-220 | Missing predictions raise before the annotations are touched, so the record keeps its values. |
| KnowledgeBase.Put | argilla_plugins/programmatic_labelling/token_copycat.py:169 | `d[w] = e` maps w to e and leaves every other key alone. An existing key keeps its place; a new key goes last. |
| KnowledgeBase.SliceBound | argilla_plugins/programmatic_labelling/token_copycat.py:168 | A slice bound is clamped to the text; a bound already inside the text is kept. |
| KnowledgeBase.PySlice | argilla_plugins/programmatic_labelling/token_copycat.py:168 | `text[start:end]` is the plain slice for in-range bounds, is never longer than the text, and is empty when end <= start. |
| KnowledgeBase.UpdateWordDictKb | argilla_plugins/programmatic_labelling/token_copycat.py:152-170 | The loop writes the admitted spans first to last and equals `Ingested`. |
| KnowledgeBase.IngestedSnoc | argilla_plugins/programmatic_labelling/token_copycat.py:160-169 | Ingesting one more span is one more write after the others. |
| KnowledgeBase.IngestedLookup | argilla_plugins/programmatic_labelling/token_copycat.py:160-170 | Last write wins: a word maps to the entry of the last admitted span over that text. Otherwise it keeps its old entry or stays absent. |
| KnowledgeBase.LastEntryCovers | argilla_plugins/programmatic_labelling/token_copycat.py:166-169 | An admitted span always leaves an entry under its text. |
| KnowledgeBase.IngestedExtends | argilla_plugins/programmatic_labelling/token_copycat.py:160-170 | Ingestion keeps the existing keys in order and only appends. |
| KnowledgeBase.IngestedKeepsWords | argilla_plugins/programmatic_labelling/token_copycat.py:160-170 | When every admitted text is already a key, the key order does not change. |
| KnowledgeBase.IngestedIdempotent | argilla_plugins/programmatic_labelling/token_copycat.py:160-170 | Running `update_word_dict_kb` twice on the same spans gives the same dictionary as running it once, key order included. |
| CandidateSearch.MatchStartsShape | argilla_plugins/programmatic_labelling/token_copycat.py:134-139 | Each position found spells the word in the text: exactly when case-sensitive, after lowering both sides otherwise. |
| CandidateSearch.ApplyWordDictKb | argilla_plugins/programmatic_labelling/token_copycat.py:119-150 | The nested loops over words and matches return `Candidates`, in dictionary order and then match order. |
| CandidateSearch.EmitMatches | argilla_plugins/programmatic_labelling/token_copycat.py:140-149 | The inner loop returns the emitted spans of one word. |
| CandidateSearch.EmittedSound | argilla_plugins/programmatic_labelling/token_copycat.py:140-149 | An emitted span carries the word's label and score, has end = start + len(word), starts at a match, and is followed by a non-letter. |
| CandidateSearch.EmittedComplete | argilla_plugins/programmatic_labelling/token_copycat.py:140-149 | Every match followed by a non-letter is emitted. |
| CandidateSearch.WordCandidatesSound | argilla_plugins/programmatic_labelling/token_copycat.py:127-149 | A candidate of one word carries that word's entry, has an admitted label, and covers a match of the word that ends a word of the text. |
| CandidateSearch.CandidatesFromSound | argilla_plugins/programmatic_labelling/token_copycat.py:127-132 | A candidate of the words from index i on comes from one of them. |
| CandidateSearch.CandidatesFromComplete | argilla_plugins/programmatic_labelling/token_copycat.py:127-132 | Every candidate of a word from index i on is among them. |
| CandidateSearch.CandidatesSound | argilla_plugins/programmatic_labelling/token_copycat.py:127-149 | Every candidate carries the label and score of a dictionary word the text spells at the candidate's range, up to case when case is ignored. Its label is admitted, and it is followed by a character that is not an ASCII letter. |
| CandidateSearch.CandidatesComplete | argilla_plugins/programmatic_labelling/token_copycat.py:127-149 | Every match of an admitted word that is followed by a non-letter becomes a candidate. |
| CandidateSearch.FilteredLabelsEmitNothing | argilla_plugins/programmatic_labelling/token_copycat.py:128-132 | With `included_labels` given, every candidate's label is listed in it. |
| WordSearch.LowerChar | argilla_plugins/programmatic_labelling/token_copycat.py:137-138 | Lowering a character changes only ASCII letters, and maps them to lower-case letters. |
| WordSearch.Lower | argilla_plugins/programmatic_labelling/token_copycat.py:137-138 | Lowering keeps the length, so positions in the lowered text are positions in the text. |
| WordSearch.LowerSlice | argilla_plugins/programmatic_labelling/token_copycat.py:137-138 | Lowering commutes with slicing. |
| WordSearch.LowerIdempotent | argilla_plugins/programmatic_labelling/token_copycat.py:137-138 | Lowering twice is lowering once. |
| WordSearch.FindAllSound | argilla_plugins/programmatic_labelling/token_copycat.py:135-139 | Every position the search yields is a match at or after the start position. |
| WordSearch.FindAllSpaced | argilla_plugins/programmatic_labelling/token_copycat.py:135-139 | Matches are yielded left to right and do not overlap. |
| WordSearch.FindAllComplete | argilla_plugins/programmatic_labelling/token_copycat.py:135-139 | Every match is found, or lies inside an earlier match that was found. |
| WordSearch.FindAllExact | argilla_plugins/programmatic_labelling/token_copycat.py:135-139 | A match that no earlier occurrence overlaps is found. |
| WordSearch.FindAllEmpty | argilla_plugins/programmatic_labelling/token_copycat.py:135-139 | The empty word matches at every position, the end of the text included. |
| TokenBoundary.TokenSpans | argilla_plugins/programmatic_labelling/token_copycat.py:64-74 | One range per token. |
| TokenBoundary.TokenSpansContiguous | argilla_plugins/programmatic_labelling/token_copycat.py:64-74 | The first range starts at 0, each range is as wide as its token, and each ends where the next begins. |
| TokenBoundary.GetSpansFromTokens | argilla_plugins/programmatic_labelling/token_copycat.py:64-74 | The loop that carries `start` forward returns `TokenSpans`. |
| TokenBoundary.TokenSpansSelectTokens | argilla_plugins/programmatic_labelling/token_copycat.py:64-74 | Range i cuts token i out of the tokens glued together. |
| TokenBoundary.NewYorkCityOffsets | argilla_plugins/programmatic_labelling/token_copycat.py:64-74 | Offsets ignore whitespace: "New", "York", "City" get (0, 3), (3, 7), (7, 11). |
| TokenBoundary.OffsetMonotone | argilla_plugins/programmatic_labelling/token_copycat.py:68-73 | Token offsets never decrease. |
| TokenBoundary.RunsFromShape | argilla_plugins/programmatic_labelling/token_copycat.py:82-86 | The k-th run the inner loop appends is `spans[i:j+k]`, at most 50 characters wide. |
| TokenBoundary.RunsBetweenShape | argilla_plugins/programmatic_labelling/token_copycat.py:81-86 | Every run the nested loops append is a non-empty slice of adjacent spans at most 50 characters wide. |
| TokenBoundary.RunsNonEmpty | argilla_plugins/programmatic_labelling/token_copycat.py:86-89 | No run is empty, so `combination[0]` and `combination[-1]` exist. |
| TokenBoundary.AdjacentRuns | argilla_plugins/programmatic_labelling/token_copycat.py:82-86 | The inner loop with its `break` returns the runs from one start up to the first run wider than 50. |
| TokenBoundary.GetAllCombinationsOfAdjacentSpans | argilla_plugins/programmatic_labelling/token_copycat.py:76-90 | The nested loops and the endpoint loop return `AllowedRanges`. |
| TokenBoundary.RunsFromReach | argilla_plugins/programmatic_labelling/token_copycat.py:82-86 | A run is appended when no shorter run from the same start is wider than 50. |
| TokenBoundary.RunsBetweenReach | argilla_plugins/programmatic_labelling/token_copycat.py:81-86 | Such a run is among the runs of the nested loops. |
| TokenBoundary.AllowedRangesSound | argilla_plugins/programmatic_labelling/token_copycat.py:76-90 | Every allowed range goes from the start of span i to the end of span j >= i and is at most 50 wide. A single span wider than 50 is never allowed. |
| TokenBoundary.RunEndpoints | argilla_plugins/programmatic_labelling/token_copycat.py:87-89 | The endpoints of a run are the start of one span and the end of a later one, at most 50 apart. |
| TokenBoundary.AllowedRangesComplete | argilla_plugins/programmatic_labelling/token_copycat.py:76-90 | When span ends never decrease, every run at most 50 wide is allowed: the `break` never cuts in early. |
| TokenBoundary.TokenRangeAllowedSound | argilla_plugins/programmatic_labelling/token_copycat.py:107-109 | Every allowed range of a record covers whole adjacent tokens and is at most 50 wide. |
| TokenBoundary.TokenRangeAllowedComplete | argilla_plugins/programmatic_labelling/token_copycat.py:107-109 | Every run of whole tokens at most 50 wide is allowed. |
| TokenBoundary.TokenRangeAllowed | argilla_plugins/programmatic_labelling/token_copycat.py:107-109 | A range is allowed for a record's tokens if and only if it covers tokens i..j-1 and is at most 50 characters wide. |
| TokenBoundary.CheckAlignmentSpanWithListOfSpans | argilla_plugins/programmatic_labelling/token_copycat.py:92-105 | One flag per range, true exactly when the range is among the allowed ones. |
| TokenBoundary.Mask | argilla_plugins/programmatic_labelling/token_copycat.py:110-113 | The alignment mask has one flag per candidate. |
| TokenBoundary.KeepSubsequence | argilla_plugins/programmatic_labelling/token_copycat.py:114-116 | Filtering by a mask gives an order-preserving subsequence. |
| TokenBoundary.KeepMaskCount | argilla_plugins/programmatic_labelling/token_copycat.py:110-116 | A candidate survives, with all its copies, exactly when its (start, end) is allowed. |
| TokenBoundary.ValidateTokenBoundary | argilla_plugins/programmatic_labelling/token_copycat.py:107-117 | The result is a subsequence of the candidates, and keeps exactly those whose range is allowed, with their multiplicity. |
| TokenBoundary.KeepAligned | argilla_plugins/programmatic_labelling/token_copycat.py:107-117 | Token offsets, allowed ranges and the alignment mask come from the three loops. The candidates whose flag is set are exactly `ValidateTokenBoundary`. |
| Spans.Insert | argilla_plugins/programmatic_labelling/token_copycat.py:185 | Insertion adds one copy of the element. |
| Spans.Sort | argilla_plugins/programmatic_labelling/token_copycat.py:185 | `sorted` returns a permutation of its input. |
| Spans.InsertSorted | argilla_plugins/programmatic_labelling/token_copycat.py:185 | Insertion keeps a list sorted. |
| Spans.SortSorted | argilla_plugins/programmatic_labelling/token_copycat.py:185 | `sorted` returns a sorted list. |
| Spans.SelectInsert | argilla_plugins/programmatic_labelling/token_copycat.py:185 | Insertion puts the element in front of the elements that share its key and keeps their order. |
| Spans.SortStable | argilla_plugins/programmatic_labelling/token_copycat.py:193 | `sorted` is stable: elements with equal keys keep their input order. |
| Spans.SortedUnique | argilla_plugins/programmatic_labelling/token_copycat.py:193 | Two sorted lists that agree on the order within each key are equal. |
| Spans.SortCharacterized | argilla_plugins/programmatic_labelling/token_copycat.py:185 | Every stable sort gives the same answer as `Sort`. |
| Spans.SelectByStartFirst | argilla_plugins/programmatic_labelling/token_copycat.py:181-185 | Spans with equal length-first keys also share their start. |
| Overlap.PyRange | argilla_plugins/programmatic_labelling/token_copycat.py:192 | `range(start, end)` holds exactly the positions start <= p < end. |
| Overlap.CoveredClaimed | argilla_plugins/programmatic_labelling/token_copycat.py:187-192 | `seen_tokens` holds exactly the positions some kept span covers. |
| Overlap.CoveredAppend | argilla_plugins/programmatic_labelling/token_copycat.py:192 | Keeping a span adds its positions to `seen_tokens`. |
| Overlap.KeptAccepted | argilla_plugins/programmatic_labelling/token_copycat.py:186-192 | After any number of turns, what is kept so far plus what the rest of the walk keeps is the whole walk's result. |
| Overlap.KeepFree | argilla_plugins/programmatic_labelling/token_copycat.py:186-192 | The greedy loop with its `seen_tokens` set returns the spans the walk accepts. |
| Overlap.ResolveSpanOverlap | argilla_plugins/programmatic_labelling/token_copycat.py:172-195 | `resolve_span_overlap` returns `Resolved`. |
| Overlap.AcceptedSub | argilla_plugins/programmatic_labelling/token_copycat.py:186-192 | The walk keeps each span at most as often as it is given. |
| Overlap.AcceptedSorted | argilla_plugins/programmatic_labelling/token_copycat.py:186-192 | Over a sorted input, the spans the walk keeps are sorted too. |
| Overlap.FreeOfLonger | argilla_plugins/programmatic_labelling/token_copycat.py:189-190 | A span no longer than y whose two boundary positions lie outside y does not overlap y. |
| Overlap.AcceptedDisjoint | argilla_plugins/programmatic_labelling/token_copycat.py:186-192 | Walking longest first, the spans kept overlap neither each other nor what was kept before. |
| Overlap.AcceptedIdempotent | argilla_plugins/programmatic_labelling/token_copycat.py:186-192 | Walking over the walk's own result keeps all of it. |
| Overlap.AcceptedBlocks | argilla_plugins/programmatic_labelling/token_copycat.py:186-192 | A span the walk drops is blocked by a kept span at least as long. |
| Overlap.InsertDisjoint | argilla_plugins/programmatic_labelling/token_copycat.py:193 | Inserting a span that overlaps nothing keeps the list free of overlaps. |
| Overlap.SortDisjoint | argilla_plugins/programmatic_labelling/token_copycat.py:193 | Re-sorting keeps a list free of overlaps. |
| Overlap.ResolvedSortedSubset | argilla_plugins/programmatic_labelling/token_copycat.py:185-195 | The result is sorted by start and is a sub-multiset of the input. |
| Overlap.ResolvedDisjoint | argilla_plugins/programmatic_labelling/token_copycat.py:186-195 | No two spans of the result overlap, even though only two positions of each span are tested. |
| Overlap.ResolvedBlocks | argilla_plugins/programmatic_labelling/token_copycat.py:186-195 | Every dropped span has its start or last position inside a kept span at least as long. |
| Overlap.ResolvedIdempotent | argilla_plugins/programmatic_labelling/token_copycat.py:172-195 | Resolving a resolved list changes nothing. |
| Overlap.LongerSpanWins | argilla_plugins/programmatic_labelling/token_copycat.py:181-195 | Of two overlapping spans the longer one is kept, in either input order. |
| Overlap.LeftmostSpanWins | argilla_plugins/programmatic_labelling/token_copycat.py:181-195 | Of two overlapping spans of equal length, the one that starts first is kept, in either input order. |
| Overlap.TwoSorted | argilla_plugins/programmatic_labelling/token_copycat.py:181-185 | Two spans with distinct keys come out of the length-first sort in key order, whatever their input order. |
| Overlap.TwoAccepted | argilla_plugins/programmatic_labelling/token_copycat.py:186-193 | When the first span blocks the second, only the first is kept. |
| RemoveDuplicate.FindDuplicates | argilla_plugins/datasets/remove_duplicate.py:45-54 | The scan returns `Duplicates` as `duplicated_ids` and `Texts` as `known_texts`. |
| RemoveDuplicate.Plugin | argilla_plugins/datasets/remove_duplicate.py:45-64 | Deletion is requested if and only if some duplicate was found, and then exactly for the flagged ids with the given `discard_only`. |
| RemoveDuplicate.TextsMembers | argilla_plugins/datasets/remove_duplicate.py:48-54 | `known_texts` holds exactly the texts that are present in the batch. |
| RemoveDuplicate.DuplicatesMembers | argilla_plugins/datasets/remove_duplicate.py:48-54 | An id is flagged if and only if a record with that id has a text an earlier record already had. |
| RemoveDuplicate.FlaggedRecord | argilla_plugins/datasets/remove_duplicate.py:48-54 | Every flagged id belongs to a record of the batch whose text was seen before. |
| RemoveDuplicate.MissingTextNotFlagged | argilla_plugins/datasets/remove_duplicate.py:50 | With distinct ids, a record without text is never flagged. |
| RemoveDuplicate.FirstOccurrenceNotFlagged | argilla_plugins/datasets/remove_duplicate.py:48-54 | With distinct ids, the first record carrying a text is never flagged. |
| RemoveDuplicate.DuplicatesAreIds | argilla_plugins/datasets/remove_duplicate.py:48-54 | Flagged ids are ids of the batch. |
| RemoveDuplicate.DuplicatesCount | argilla_plugins/datasets/remove_duplicate.py:46-54 | With distinct ids, the number of flagged ids is the number of records with a text less the number of distinct texts. |
| RemoveDuplicate.SurvivorsUnique | argilla_plugins/datasets/remove_duplicate.py:58-64 | With distinct ids, every text of the batch survives the deletion, and no two remaining records share a text. |
| RemoveDuplicate.SurvivorsAgree | argilla_plugins/datasets/remove_duplicate.py:58-64 | Deleting ids that no record carries does not change the survivors. |
| RemoveDuplicate.TestBatchLeavesThree | tests/test_remove_duplicate.py:14-49 | On the test's batch (one Egg, two Potato, three Onion), ids 2, 4 and 5 are flagged, and three records with the three texts remain. |
| HfSync.Or | argilla_plugins/datasets/hf_sync.py:37 | Python's `a or b`: a when it is present and non-empty, else b. |
| HfSync.LastSegment | argilla_plugins/datasets/hf_sync.py:38 | `split("/")[-1]` is a suffix of the name with no slash, preceded by a slash when it is not the whole name. |
| HfSync.LastSegmentEmpty | argilla_plugins/datasets/hf_sync.py:38 | The segment is empty exactly when the name is empty or ends with a slash. |
| HfSync.LastSegmentNoSlash | argilla_plugins/datasets/hf_sync.py:38 | A name without a slash is its own last segment. |
| HfSync.PostInit | argilla_plugins/datasets/hf_sync.py:31-43 | `ValueError` exactly when no source, target or dataset is given. Otherwise the target is non-empty and a dataset name is set. Given names and a given token are kept; a derived dataset name has no slash; the token falls back to the environment. |
| HfSync.DerivedDatasetName | argilla_plugins/datasets/hf_sync.py:36-38 | A missing dataset name is the last segment of the target, or of the source when there is no target. |
| HfSync.DerivedTarget | argilla_plugins/datasets/hf_sync.py:40-41 | A missing target is the source, or the dataset name when there is no source. |
| HfSync.PostInitIdempotent | argilla_plugins/datasets/hf_sync.py:31-43 | Running `__post_init__` on a completed configuration changes nothing. |
| HfSync.Config.constructor | argilla_plugins/datasets/hf_sync.py:14-29 | The generated `__init__` stores every field as given. |
| HfSync.Config.PostInitInPlace | argilla_plugins/datasets/hf_sync.py:31-43 | `__post_init__` raises before touching a field, or rewrites the fields to `PostInit` of their old values. |
| HfSync.NewConfig | argilla_plugins/datasets/hf_sync.py:14-43 | `Config(...)` raises exactly when `PostInit` does, else yields a fresh object holding the completed fields. |
| HfSync.SourceOnlyExample | argilla_plugins/datasets/hf_sync.py:36-41 | With only the source "org/name", the dataset is "name" and the target is "org/name". |
| HfSync.NothingGivenFails | argilla_plugins/datasets/hf_sync.py:17-34 | The defaults alone raise `ValueError`. |

## Left out

- Calls into the annotation platform are not modelled: `rg.log`, `ar.delete_records`, the `@listener` decorator and its scheduling, and logging. The copycat's outcome is the list of records it would log. The duplicate remover's outcome is the deletion request it would send.
- The listener `condition` of remove_duplicate.py (line 41) is not modelled. It is listener configuration. As written, a missing comma turns it into `search.total > 2 * args`.
- `re.finditer` is modelled as a search for the word as a literal, left to right and without overlaps. Regular-expression metacharacters in dictionary words are not modelled. An empty word matches at every position, as `re.finditer("")` does.
- `str.lower` is modelled on ASCII letters only. Unicode lowering, which can change the length of a string, is not modelled.
- A span is a (label, start, end, score) value whose score may be None. The source's 3-tuple (label, start, end) is identified with the 4-tuple whose score is None, so list comparison does not tell them apart.
- `copy.deepcopy` of the span lists and the record re-creation at token_copycat.py:231 are modelled by comparing values. Object identity of the logged records is not modelled.
- Copycat.Plugin: requires that the batch holds no record object twice. A batch that holds the same object twice, which would be rewritten twice, is not modelled.
- The two knowledge bases are modelled as separate values. The case where the caller passes the same dictionary object for both, so that they alias, is not modelled.
- KnowledgeBase.UpdateWordDictKb: returns the updated dictionary instead of mutating it in place. The source returns the same object and the caller stores it back, so the value is the same.
- A knowledge-base entry without a "label" or "score" key, which raises `KeyError` in the source, is not modelled. Entries always carry both.
- The `assert` of the factory (token_copycat.py:44) disappears under `python -O`. The model always checks the flags.
- The phase-two loop body and the inner loops of `apply_word_dict_kb`, `get_all_combinations_of_adjacent_spans` and `resolve_span_overlap` are separate methods (`VisitRecord`, `EmitMatches`, `AdjacentRuns`, `KeepFree`). This keeps each proof small.
- Record ids are integers, and the ids passed to `delete_records` are a set. The order of `list(duplicated_ids)` is not modelled.
- The `HuggingfaceSync` thread, its hub and dataset I/O, and the `hf_sync` factory are not modelled. Only `Config` is part of this model. The `HF_TOKEN` environment variable is a parameter.
- `rg_labels`, `rg_query`, `rg_multi_label_dataset`, the batch sizes and the push frequency are carried through `Config` unchanged. Nothing in `__post_init__` reads them.
- A hub name ending in "/" yields an empty derived dataset name (`HfSync.LastSegmentEmpty`). The source does not reject it, and neither does the model.
- classy_learner.py, embedder.py, end_of_life.py, the plugin template, the dependency checker and the tests other than the duplicate remover's are not part of this model. They are floating point, foreign models, wall-clock time and scaffolding.
