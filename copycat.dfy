/**
 * The copycat listener of token_copycat.py: the factory's flag check, and the
 * listener body that first grows the two knowledge bases from every record's
 * existing spans and then copies knowledge-base matches into every record,
 * reporting the records whose span lists changed.
 */
module Copycat {
  import opened Wrappers
  import opened Spans
  import opened TokenBoundary
  import opened KnowledgeBase
  import opened CandidateSearch
  import opened Overlap

  /** The options the listener closes over. */
  datatype Settings = Settings(copyPredictions: bool, copyAnnotations: bool,
                               includedLabels: Option<seq<string>>, caseSensitive: bool)

  /** A configured listener: its options and the knowledge bases it starts with. */
  datatype Setup = Setup(settings: Settings, kbPredictions: WordDict, kbAnnotations: WordDict)

  /** The factory's `assert any([copy_predictions, copy_annotations])`. */
  datatype ConfigError = NothingToCopy

  /** `token_copycat(...)`: at least one of the two copy flags must be set; a
      knowledge base that is not given starts empty. */
  function TokenCopycat(copyPredictions: bool, kbAnnotations: Option<WordDict>, copyAnnotations: bool,
                        kbPredictions: Option<WordDict>, includedLabels: Option<seq<string>>,
                        caseSensitive: bool): (r: Result<Setup, ConfigError>)
    ensures r.Err? <==> !copyPredictions && !copyAnnotations
    ensures r.Ok? ==> (r.value.settings.copyPredictions == copyPredictions
      && r.value.settings.copyAnnotations == copyAnnotations
      && r.value.settings.includedLabels == includedLabels
      && r.value.settings.caseSensitive == caseSensitive)
    ensures r.Ok? && kbPredictions.Some? ==> r.value.kbPredictions == kbPredictions.value
    ensures r.Ok? && kbPredictions.None? ==> r.value.kbPredictions.words == [] && r.value.kbPredictions.entries == map[]
    ensures r.Ok? && kbAnnotations.Some? ==> r.value.kbAnnotations == kbAnnotations.value
    ensures r.Ok? && kbAnnotations.None? ==> r.value.kbAnnotations.words == [] && r.value.kbAnnotations.entries == map[]
  {
    if !(copyPredictions || copyAnnotations) then Err(NothingToCopy)
    else
      Ok(Setup(Settings(copyPredictions, copyAnnotations, includedLabels, caseSensitive),
               if kbPredictions.Some? then kbPredictions.value else EmptyDict,
               if kbAnnotations.Some? then kbAnnotations.value else EmptyDict))
  }

  /** The values of a token-classification record that the listener reads and
      writes; a missing span list is None. */
  datatype RecordData = RecordData(text: string, tokens: seq<string>,
                                   prediction: Option<seq<Span>>, annotation: Option<seq<Span>>)

  /** A record handed to the listener; its span lists are rewritten in place. */
  class Record {
    var text: string
    var tokens: seq<string>
    var prediction: Option<seq<Span>>
    var annotation: Option<seq<Span>>

    constructor (data: RecordData)
      ensures Data() == data
    {
      text, tokens := data.text, data.tokens;
      prediction, annotation := data.prediction, data.annotation;
    }

    function Data(): RecordData
      reads this
    {
      RecordData(text, tokens, prediction, annotation)
    }
  }

  /** The values of a batch of records. */
  function Snapshot(records: seq<Record>): (rs: seq<RecordData>)
    reads records
    ensures |rs| == |records|
    ensures forall k :: 0 <= k < |records| ==> rs[k] == records[k].Data()
  {
    seq(|records|, k requires 0 <= k < |records| reads records => records[k].Data())
  }

  /** The listener's `ctx.query_params`: the two knowledge bases, which persist
      from one run of the listener to the next. */
  class ListenerContext {
    var kbPredictions: WordDict
    var kbAnnotations: WordDict

    constructor (setup: Setup)
      ensures kbPredictions == setup.kbPredictions && kbAnnotations == setup.kbAnnotations
    {
      kbPredictions, kbAnnotations := setup.kbPredictions, setup.kbAnnotations;
    }
  }

  /** The two span lists of a record, each with its own flag and knowledge base. */
  datatype Kind = Predictions | Annotations

  function Copies(s: Settings, kind: Kind): bool {
    match kind
    case Predictions => s.copyPredictions
    case Annotations => s.copyAnnotations
  }

  function ListOf(r: RecordData, kind: Kind): Option<seq<Span>> {
    match kind
    case Predictions => r.prediction
    case Annotations => r.annotation
  }

  /** Phase one for one record: a list that is copied and not empty (Python
      truthiness) is written into its knowledge base. */
  function Learn(s: Settings, kind: Kind, d: WordDict, r: RecordData): (d': WordDict)
    requires Valid(d)
    ensures Valid(d')
  {
    var list := ListOf(r, kind);
    if Copies(s, kind) && list.Some? && list.value != [] then Ingested(r.text, list.value, s.includedLabels, d) else d
  }

  /** The knowledge base after phase one has read the records first to last. */
  function Learned(s: Settings, kind: Kind, d: WordDict, rs: seq<RecordData>): (d': WordDict)
    requires Valid(d)
    ensures Valid(d')
    decreases |rs|
  {
    if rs == [] then d else Learn(s, kind, Learned(s, kind, d, rs[..|rs| - 1]), rs[|rs| - 1])
  }

  /** The listener raises `TypeError` on `None += list`. */
  datatype PluginError = TypeError

  /** The candidates phase two adds to a record: knowledge-base matches that
      align with the record's tokens. */
  function Validated(s: Settings, kb: WordDict, r: RecordData): seq<Span> {
    ValidateTokenBoundary(Candidates(r.text, kb, s.includedLabels, s.caseSensitive), r.tokens)
  }

  /** The record with one of its lists replaced. */
  function WithList(r: RecordData, kind: Kind, list: Option<seq<Span>>): RecordData {
    match kind
    case Predictions => r.(prediction := list)
    case Annotations => r.(annotation := list)
  }

  /** The record after the block of phase two for one list: left alone when
      the flag is off or the list is missing (`+=` raises before anything is
      assigned), else the list extended by the validated candidates with
      overlaps resolved. */
  function Turn(s: Settings, kind: Kind, kb: WordDict, r: RecordData): RecordData {
    var list := ListOf(r, kind);
    if Copies(s, kind) && list.Some? then WithList(r, kind, Some(Resolved(list.value + Validated(s, kb, r)))) else r
  }

  /** A record's turn in phase two raises: a list whose flag is set is missing. */
  predicate Fails(s: Settings, r: RecordData) {
    (s.copyPredictions && r.prediction.None?) || (s.copyAnnotations && r.annotation.None?)
  }

  /** A record after its turn in phase two. Predictions are rewritten before
      annotations, so missing predictions leave the annotations untouched,
      while missing annotations come after the predictions were rewritten. */
  function Rewrite(s: Settings, kbPredictions: WordDict, kbAnnotations: WordDict, r: RecordData): RecordData {
    var afterPredictions := Turn(s, Predictions, kbPredictions, r);
    if s.copyPredictions && r.prediction.None? then afterPredictions
    else Turn(s, Annotations, kbAnnotations, afterPredictions)
  }

  /** The record is reported: its predictions or its annotations differ from
      their value before the rewrite. */
  predicate Changed(before: RecordData, after: RecordData) {
    before.prediction != after.prediction || before.annotation != after.annotation
  }

  /** The index of the first record whose turn raises, or the batch size when
      none does. */
  function FirstFailure(s: Settings, rs: seq<RecordData>): (f: nat)
    ensures f <= |rs|
    ensures f < |rs| ==> Fails(s, rs[f])
    ensures forall k :: 0 <= k < f ==> !Fails(s, rs[k])
    decreases |rs|
  {
    if rs == [] || Fails(s, rs[0]) then 0
    else 1 + FirstFailure(s, rs[1..])
  }

  /** Every record of the batch after its turn in phase two. */
  function Rewritten(s: Settings, kbPredictions: WordDict, kbAnnotations: WordDict, rs: seq<RecordData>)
    : (afters: seq<RecordData>)
    ensures |afters| == |rs|
    ensures forall k :: 0 <= k < |rs| ==> afters[k] == Rewrite(s, kbPredictions, kbAnnotations, rs[k])
  {
    seq(|rs|, k requires 0 <= k < |rs| => Rewrite(s, kbPredictions, kbAnnotations, rs[k]))
  }

  /** `updated_records` after the first n records: each record, as it is
      after its turn, whose span lists differ from before, in batch order. */
  function Reported(befores: seq<RecordData>, afters: seq<RecordData>, n: nat): seq<RecordData>
    requires n <= |befores| && |befores| == |afters|
  {
    if n == 0 then []
    else Reported(befores, afters, n - 1) + (if Changed(befores[n - 1], afters[n - 1]) then [afters[n - 1]] else [])
  }

  /** What the listener ends with: the records it passes to `rg.log`, or the
      error it raises. */
  function Outcome(s: Settings, kbPredictions: WordDict, kbAnnotations: WordDict, rs: seq<RecordData>)
    : Result<seq<RecordData>, PluginError>
  {
    if FirstFailure(s, rs) < |rs| then Err(TypeError)
    else Ok(Reported(rs, Rewritten(s, kbPredictions, kbAnnotations, rs), |rs|))
  }

  /** The listener body: phase one grows both knowledge bases from every
      record, then phase two rewrites every record with the grown knowledge
      bases. The records of a batch are distinct objects. */
  method Plugin(s: Settings, records: seq<Record>, ctx: ListenerContext)
    returns (outcome: Result<seq<RecordData>, PluginError>)
    requires Valid(ctx.kbPredictions) && Valid(ctx.kbAnnotations)
    requires Distinct(records)
    modifies ctx, records
    ensures ctx.kbPredictions == Learned(s, Predictions, old(ctx.kbPredictions), old(Snapshot(records)))
    ensures ctx.kbAnnotations == Learned(s, Annotations, old(ctx.kbAnnotations), old(Snapshot(records)))
    ensures forall k :: 0 <= k <= FirstFailure(s, old(Snapshot(records))) && k < |records| ==>
      records[k].Data() == Rewrite(s, ctx.kbPredictions, ctx.kbAnnotations, old(records[k].Data()))
    ensures forall k :: FirstFailure(s, old(Snapshot(records))) < k < |records| ==>
      records[k].Data() == old(records[k].Data())
    ensures outcome == Outcome(s, ctx.kbPredictions, ctx.kbAnnotations, old(Snapshot(records)))
  {
    ghost var data := Snapshot(records);
    GatherKnowledge(s, records, ctx, data);
    var stop, updatedRecords := CopyKnowledge(s, records, ctx.kbPredictions, ctx.kbAnnotations, data);
    FirstFailureIs(s, data, stop);
    if stop < |records| {
      outcome := Err(TypeError);
    } else {
      outcome := Ok(updatedRecords);
    }
  }

  /** Phase one: every record's existing lists are written into the knowledge
      bases before any record is rewritten. */
  method GatherKnowledge(s: Settings, records: seq<Record>, ctx: ListenerContext, ghost data: seq<RecordData>)
    requires Valid(ctx.kbPredictions) && Valid(ctx.kbAnnotations)
    requires |data| == |records| && forall k :: 0 <= k < |records| ==> records[k].Data() == data[k]
    modifies ctx
    ensures ctx.kbPredictions == Learned(s, Predictions, old(ctx.kbPredictions), data)
    ensures ctx.kbAnnotations == Learned(s, Annotations, old(ctx.kbAnnotations), data)
  {
    for i := 0 to |records|
      invariant ctx.kbPredictions == Learned(s, Predictions, old(ctx.kbPredictions), data[..i])
      invariant ctx.kbAnnotations == Learned(s, Annotations, old(ctx.kbAnnotations), data[..i])
    {
      LearnedStep(s, Predictions, old(ctx.kbPredictions), data, i);
      LearnedStep(s, Annotations, old(ctx.kbAnnotations), data, i);
      var rec := records[i];
      if s.copyPredictions && rec.prediction.Some? && rec.prediction.value != [] {
        ctx.kbPredictions := UpdateWordDictKb(rec.text, rec.prediction.value, s.includedLabels, ctx.kbPredictions);
      }
      if s.copyAnnotations && rec.annotation.Some? && rec.annotation.value != [] {
        ctx.kbAnnotations := UpdateWordDictKb(rec.text, rec.annotation.value, s.includedLabels, ctx.kbAnnotations);
      }
    }
    assert data[..|records|] == data;
  }

  /** Phase two: the records are rewritten in batch order until one raises;
      `stop` is the index of the record that raised, or the batch size. */
  method CopyKnowledge(s: Settings, records: seq<Record>, kbPredictions: WordDict, kbAnnotations: WordDict,
                       ghost data: seq<RecordData>)
    returns (stop: nat, updatedRecords: seq<RecordData>)
    requires Valid(kbPredictions) && Valid(kbAnnotations)
    requires Distinct(records)
    requires |data| == |records| && forall k :: 0 <= k < |records| ==> records[k].Data() == data[k]
    modifies records
    ensures stop <= |records|
    ensures forall k :: 0 <= k < stop ==> !Fails(s, data[k])
    ensures stop < |records| ==> Fails(s, data[stop])
    ensures forall k :: 0 <= k <= stop && k < |records| ==>
      records[k].Data() == Rewrite(s, kbPredictions, kbAnnotations, data[k])
    ensures forall k :: stop < k < |records| ==> records[k].Data() == data[k]
    ensures updatedRecords == Reported(data, Rewritten(s, kbPredictions, kbAnnotations, data), stop)
  {
    ghost var afters := Rewritten(s, kbPredictions, kbAnnotations, data);
    updatedRecords := [];
    for i := 0 to |records|
      invariant forall k :: 0 <= k < i ==> !Fails(s, data[k])
      invariant forall k :: 0 <= k < i ==> records[k].Data() == afters[k]
      invariant forall k :: i <= k < |records| ==> records[k].Data() == data[k]
      invariant updatedRecords == Reported(data, afters, i)
    {
      var failed, updated := VisitRecord(s, records, i, kbPredictions, kbAnnotations, data, afters, updatedRecords);
      if failed {
        return i, updatedRecords;
      }
      updatedRecords := updated;
    }
    return |records|, updatedRecords;
  }

  /** The body of phase two's loop for the record at index i: its turn, and
      its report when one of its lists changed. Only that record is written. */
  method VisitRecord(s: Settings, records: seq<Record>, i: nat, kbPredictions: WordDict, kbAnnotations: WordDict,
                     ghost data: seq<RecordData>, ghost afters: seq<RecordData>, updatedRecords: seq<RecordData>)
    returns (failed: bool, updated: seq<RecordData>)
    requires Valid(kbPredictions) && Valid(kbAnnotations)
    requires Distinct(records) && i < |records| == |data| == |afters|
    requires records[i].Data() == data[i] && afters[i] == Rewrite(s, kbPredictions, kbAnnotations, data[i])
    modifies records[i]
    ensures forall k :: 0 <= k < |records| && k != i ==> records[k].Data() == old(records[k].Data())
    ensures records[i].Data() == afters[i]
    ensures failed == Fails(s, data[i])
    ensures updated == updatedRecords + (if Changed(data[i], afters[i]) then [afters[i]] else [])
  {
    var rec := records[i];
    assert forall k :: 0 <= k < |records| && k != i ==> records[k] != rec;
    var before := rec.Data();
    failed := RewriteRecord(s, rec, kbPredictions, kbAnnotations);
    updated := updatedRecords;
    if Changed(before, rec.Data()) {
      var copy := new Record(rec.Data());
      updated := updatedRecords + [copy.Data()];
    }
  }

  /** One record's turn in phase two; `failed` tells that `+=` met a missing
      list and raised. */
  method RewriteRecord(s: Settings, rec: Record, kbPredictions: WordDict, kbAnnotations: WordDict)
    returns (failed: bool)
    requires Valid(kbPredictions) && Valid(kbAnnotations)
    modifies rec
    ensures rec.Data() == Rewrite(s, kbPredictions, kbAnnotations, old(rec.Data()))
    ensures failed == Fails(s, old(rec.Data()))
  {
    if s.copyPredictions {
      failed := CopyList(s, Predictions, kbPredictions, rec);
      if failed {
        return;
      }
    }
    if s.copyAnnotations {
      failed := CopyList(s, Annotations, kbAnnotations, rec);
      if failed {
        return;
      }
    }
    failed := false;
  }

  /** The block of phase two for one list of a record: the knowledge-base
      matches that align with the tokens are added to the list, and the
      overlaps are resolved; a missing list makes `+=` raise. */
  method CopyList(s: Settings, kind: Kind, kb: WordDict, rec: Record) returns (failed: bool)
    requires Valid(kb) && Copies(s, kind)
    modifies rec
    ensures rec.Data() == Turn(s, kind, kb, old(rec.Data()))
    ensures failed == ListOf(old(rec.Data()), kind).None?
  {
    var recordInfo := ApplyWordDictKb(rec.text, kb, s.includedLabels, s.caseSensitive);
    var validatedSpans := KeepAligned(recordInfo, rec.tokens);
    var list := if kind == Predictions then rec.prediction else rec.annotation;
    if list.None? {
      return true;
    }
    var resolved := ResolveSpanOverlap(list.value + validatedSpans);
    if kind == Predictions {
      rec.prediction := Some(resolved);
    } else {
      rec.annotation := Some(resolved);
    }
    return false;
  }

  lemma LearnedStep(s: Settings, kind: Kind, d: WordDict, rs: seq<RecordData>, i: nat)
    requires Valid(d) && i < |rs|
    ensures Learned(s, kind, d, rs[..i + 1]) == Learn(s, kind, Learned(s, kind, d, rs[..i]), rs[i])
  {
    assert rs[..i + 1][..i] == rs[..i];
  }

  /** The first failure is the index of a failing record with no failing
      record before it. */
  lemma FirstFailureIs(s: Settings, rs: seq<RecordData>, i: nat)
    requires i <= |rs|
    requires i < |rs| ==> Fails(s, rs[i])
    requires forall k :: 0 <= k < i ==> !Fails(s, rs[k])
    ensures FirstFailure(s, rs) == i
  {
  }

  /** The batch holds no record twice. */
  predicate Distinct(rs: seq<Record>) {
    forall i, j :: 0 <= i < j < |rs| ==> rs[i] != rs[j]
  }
}
