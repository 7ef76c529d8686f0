/**
 * The duplicate remover of remove_duplicate.py: one scan over a batch of
 * records that remembers every text it has seen and flags the id of each
 * record whose text was seen before, so the first record with a text wins.
 * The flagged ids are then handed over for deletion.
 */
module RemoveDuplicate {
  import opened Wrappers

  /** The two fields of a record that the scan reads; a record without text
      has None. */
  datatype TextRecord = TextRecord(id: int, text: Option<string>)

  /** The texts of the records, the missing ones left out: `known_texts`
      after the scan. */
  function Texts(rs: seq<TextRecord>): set<string>
    decreases |rs|
  {
    if rs == [] then {}
    else
      var last := rs[|rs| - 1];
      Texts(rs[..|rs| - 1]) + (if last.text.Some? then {last.text.value} else {})
  }

  /** The ids of the records whose text an earlier record already had:
      `duplicated_ids` after the scan. */
  function Duplicates(rs: seq<TextRecord>): set<int>
    decreases |rs|
  {
    if rs == [] then {}
    else
      var init, last := rs[..|rs| - 1], rs[|rs| - 1];
      Duplicates(init) + (if last.text.Some? && last.text.value in Texts(init) then {last.id} else {})
  }

  /** The scan of `plugin`: a text not seen yet is remembered, a text seen
      already flags the record's id, and a record without text is skipped. */
  method FindDuplicates(records: seq<TextRecord>) returns (duplicatedIds: set<int>, knownTexts: set<string>)
    ensures duplicatedIds == Duplicates(records)
    ensures knownTexts == Texts(records)
  {
    duplicatedIds, knownTexts := {}, {};
    for i := 0 to |records|
      invariant duplicatedIds == Duplicates(records[..i])
      invariant knownTexts == Texts(records[..i])
    {
      assert records[..i + 1][..i] == records[..i];
      var rec := records[i];
      var recText := rec.text;
      if recText.Some? {
        if recText.value in knownTexts {
          duplicatedIds := duplicatedIds + {rec.id};
        } else {
          knownTexts := knownTexts + {recText.value};
        }
      }
    }
    assert records[..|records|] == records;
  }

  /** The call to `delete_records`: the ids to delete, and whether they are
      only to be marked as discarded. */
  datatype DeleteRequest = DeleteRequest(ids: set<int>, discardOnly: bool)

  /** The listener body: the scan, then a deletion request only when some
      duplicate was found. */
  method Plugin(records: seq<TextRecord>, discardOnly: bool) returns (request: Option<DeleteRequest>)
    ensures request.Some? <==> Duplicates(records) != {}
    ensures request.Some? ==> request.value == DeleteRequest(Duplicates(records), discardOnly)
  {
    var duplicatedIds, knownTexts := FindDuplicates(records);
    if duplicatedIds != {} {
      request := Some(DeleteRequest(duplicatedIds, discardOnly));
    } else {
      request := None;
    }
  }

  /** Record k's text was already carried by an earlier record. */
  predicate SeenBefore(rs: seq<TextRecord>, k: nat)
    requires k < |rs|
  {
    rs[k].text.Some? && exists j :: 0 <= j < k && rs[j].text == rs[k].text
  }

  /** No two records of the batch share an id. */
  predicate DistinctIds(rs: seq<TextRecord>) {
    forall i, j :: 0 <= i < j < |rs| ==> rs[i].id != rs[j].id
  }

  /** `known_texts` holds exactly the texts that are present. */
  lemma {:induction false} TextsMembers(rs: seq<TextRecord>, t: string)
    ensures t in Texts(rs) <==> exists k :: 0 <= k < |rs| && rs[k].text == Some(t)
    decreases |rs|
  {
    if rs != [] {
      var init := rs[..|rs| - 1];
      TextsMembers(init, t);
      if t in Texts(init) {
        var k :| 0 <= k < |init| && init[k].text == Some(t);
        assert rs[k] == init[k];
      }
      if exists k :: 0 <= k < |rs| && rs[k].text == Some(t) {
        var k :| 0 <= k < |rs| && rs[k].text == Some(t);
        if k < |init| {
          assert init[k] == rs[k];
        }
      }
    }
  }

  /** An id is flagged exactly when some record with that id has a text that
      an earlier record already had. */
  lemma {:induction false} DuplicatesMembers(rs: seq<TextRecord>, id: int)
    ensures id in Duplicates(rs) <==> exists k :: 0 <= k < |rs| && rs[k].id == id && SeenBefore(rs, k)
    decreases |rs|
  {
    if rs != [] {
      var init, n := rs[..|rs| - 1], |rs| - 1;
      DuplicatesMembers(init, id);
      assert forall k :: 0 <= k < n ==> rs[k] == init[k];
      assert forall k :: 0 <= k < n ==> (SeenBefore(rs, k) <==> SeenBefore(init, k));
      if rs[n].text.Some? {
        TextsMembers(init, rs[n].text.value);
      }
      if exists k :: 0 <= k < |rs| && rs[k].id == id && SeenBefore(rs, k) {
        var k :| 0 <= k < |rs| && rs[k].id == id && SeenBefore(rs, k);
        if k == n {
          var j :| 0 <= j < k && rs[j].text == rs[k].text;
          assert init[j].text == Some(rs[n].text.value);
        }
      }
    }
  }

  /** Every flagged id belongs to a record of the batch; k is such a record. */
  lemma FlaggedRecord(rs: seq<TextRecord>, id: int) returns (k: nat)
    requires id in Duplicates(rs)
    ensures k < |rs| && rs[k].id == id && SeenBefore(rs, k)
  {
    DuplicatesMembers(rs, id);
    k :| 0 <= k < |rs| && rs[k].id == id && SeenBefore(rs, k);
  }

  /** With distinct ids, a record without text is never flagged. */
  lemma MissingTextNotFlagged(rs: seq<TextRecord>, k: nat)
    requires DistinctIds(rs) && k < |rs| && rs[k].text.None?
    ensures rs[k].id !in Duplicates(rs)
  {
    if rs[k].id in Duplicates(rs) {
      var j := FlaggedRecord(rs, rs[k].id);
    }
  }

  /** With distinct ids, the first record that carries a text is never
      flagged. */
  lemma FirstOccurrenceNotFlagged(rs: seq<TextRecord>, k: nat)
    requires DistinctIds(rs) && k < |rs| && !SeenBefore(rs, k)
    ensures rs[k].id !in Duplicates(rs)
  {
    if rs[k].id in Duplicates(rs) {
      var j := FlaggedRecord(rs, rs[k].id);
    }
  }

  /** The number of records that have a text. */
  function WithText(rs: seq<TextRecord>): nat
    decreases |rs|
  {
    if rs == [] then 0
    else WithText(rs[..|rs| - 1]) + (if rs[|rs| - 1].text.Some? then 1 else 0)
  }

  /** The ids of the records. */
  function Ids(rs: seq<TextRecord>): set<int> {
    set k | 0 <= k < |rs| :: rs[k].id
  }

  /** Flagged ids are ids of the batch. */
  lemma DuplicatesAreIds(rs: seq<TextRecord>)
    ensures Duplicates(rs) <= Ids(rs)
  {
    forall id | id in Duplicates(rs)
      ensures id in Ids(rs)
    {
      var k := FlaggedRecord(rs, id);
    }
  }

  /** The last record of a batch with distinct ids carries an id that no
      earlier record carries, so it is not among the earlier flagged ids. */
  lemma NewId(rs: seq<TextRecord>)
    requires DistinctIds(rs) && rs != []
    ensures DistinctIds(rs[..|rs| - 1])
    ensures forall k :: 0 <= k < |rs| - 1 ==> rs[k].id != rs[|rs| - 1].id
    ensures rs[|rs| - 1].id !in Duplicates(rs[..|rs| - 1])
  {
    var init := rs[..|rs| - 1];
    assert forall k :: 0 <= k < |init| ==> init[k] == rs[k];
    DuplicatesAreIds(init);
  }

  lemma AddNew<T>(a: set<T>, x: T)
    requires x !in a
    ensures |a + {x}| == |a| + 1
  {
    assert a + {x} - {x} == a;
  }

  /** Appending one record. */
  lemma SnocTexts(rs: seq<TextRecord>, x: TextRecord)
    ensures Texts(rs + [x]) == Texts(rs) + (if x.text.Some? then {x.text.value} else {})
    ensures WithText(rs + [x]) == WithText(rs) + (if x.text.Some? then 1 else 0)
  {
    assert (rs + [x])[..|rs|] == rs;
  }

  /** With distinct ids, every record with a text either adds a new text or
      adds one flagged id: the flagged ids number the records with a text
      less the distinct texts. */
  lemma {:induction false} DuplicatesCount(rs: seq<TextRecord>)
    requires DistinctIds(rs)
    ensures |Duplicates(rs)| + |Texts(rs)| == WithText(rs)
    decreases |rs|
  {
    if rs != [] {
      var init, last := rs[..|rs| - 1], rs[|rs| - 1];
      NewId(rs);
      DuplicatesCount(init);
      if last.text.Some? {
        var t := last.text.value;
        if t in Texts(init) {
          assert Duplicates(rs) == Duplicates(init) + {last.id};
          AddNew(Duplicates(init), last.id);
          assert Texts(rs) == Texts(init);
        } else {
          assert Texts(rs) == Texts(init) + {t};
          AddNew(Texts(init), t);
        }
      }
    }
  }

  /** The records that remain active once the flagged ids are deleted. */
  function Survivors(rs: seq<TextRecord>, deleted: set<int>): seq<TextRecord>
    decreases |rs|
  {
    if rs == [] then []
    else
      var last := rs[|rs| - 1];
      Survivors(rs[..|rs| - 1], deleted) + (if last.id in deleted then [] else [last])
  }

  /** After deletion, with distinct ids, every text of the batch is still
      present and no two active records share a text. */
  lemma {:induction false} SurvivorsUnique(rs: seq<TextRecord>)
    requires DistinctIds(rs)
    ensures Texts(Survivors(rs, Duplicates(rs))) == Texts(rs)
    ensures WithText(Survivors(rs, Duplicates(rs))) == |Texts(rs)|
    decreases |rs|
  {
    if rs != [] {
      var init, last := rs[..|rs| - 1], rs[|rs| - 1];
      NewId(rs);
      SurvivorsUnique(init);
      var d := Duplicates(rs);
      SurvivorsAgree(init, Duplicates(init), d);
      var sv := Survivors(init, d);
      if last.id in d {
        assert Survivors(rs, d) == sv;
        assert Texts(rs) == Texts(init);
      } else {
        assert Survivors(rs, d) == sv + [last];
        SnocTexts(sv, last);
        if last.text.Some? {
          AddNew(Texts(init), last.text.value);
        }
      }
    }
  }

  /** Deleting extra ids that the records do not carry leaves the same
      survivors. */
  lemma {:induction false} SurvivorsAgree(rs: seq<TextRecord>, a: set<int>, b: set<int>)
    requires forall k :: 0 <= k < |rs| ==> (rs[k].id in a <==> rs[k].id in b)
    ensures Survivors(rs, a) == Survivors(rs, b)
    decreases |rs|
  {
    if rs != [] {
      var init := rs[..|rs| - 1];
      assert forall k :: 0 <= k < |init| ==> init[k] == rs[k];
      SurvivorsAgree(init, a, b);
    }
  }

  /** The batch of the test: one record with Egg, two with Potato, three with
      Onion, with ids 0 to 5. */
  const TestBatch: seq<TextRecord> := [
    TextRecord(0, Some("Egg")),
    TextRecord(1, Some("Potato")), TextRecord(2, Some("Potato")),
    TextRecord(3, Some("Onion")), TextRecord(4, Some("Onion")), TextRecord(5, Some("Onion"))]

  /** On the test's batch, three ids are flagged, and the three records that
      stay active carry the three texts. */
  lemma TestBatchLeavesThree()
    ensures Duplicates(TestBatch) == {2, 4, 5}
    ensures |Survivors(TestBatch, Duplicates(TestBatch))| == 3
    ensures Texts(Survivors(TestBatch, Duplicates(TestBatch))) == {"Egg", "Potato", "Onion"}
  {
    var b := TestBatch;
    assert b[..1] == [b[0]] && b[..2] == b[..1] + [b[1]] && b[..3] == b[..2] + [b[2]];
    assert b[..4] == b[..3] + [b[3]] && b[..5] == b[..4] + [b[4]] && b == b[..5] + [b[5]];
    assert Texts(b[..1]) == {"Egg"};
    assert Texts(b[..2]) == {"Egg", "Potato"};
    assert Texts(b[..3]) == {"Egg", "Potato"};
    assert Texts(b[..4]) == {"Egg", "Potato", "Onion"};
    assert Texts(b[..5]) == {"Egg", "Potato", "Onion"};
    assert Duplicates(b[..1]) == {};
    assert Duplicates(b[..2]) == {};
    assert Duplicates(b[..3]) == {2};
    assert Duplicates(b[..4]) == {2};
    assert Duplicates(b[..5]) == {2, 4};
    var d := Duplicates(b);
    assert d == {2, 4, 5};
    assert Survivors(b[..1], d) == [b[0]];
    assert Survivors(b[..2], d) == [b[0], b[1]];
    assert Survivors(b[..3], d) == [b[0], b[1]];
    assert Survivors(b[..4], d) == [b[0], b[1], b[3]];
    assert Survivors(b[..5], d) == [b[0], b[1], b[3]];
    assert Survivors(b, d) == [b[0], b[1], b[3]];
    var sv := [b[0], b[1], b[3]];
    assert sv[..1] == [b[0]] && sv[..2] == [b[0], b[1]];
    assert Texts(sv) == {"Egg", "Potato", "Onion"};
  }
}
