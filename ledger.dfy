/** The ledger of finished tests: records by id, and the ids that passed and failed in
    the order they were sealed. */
module Ledgers {
  import opened Common
  import opened Notes

  datatype TestRecord = TestRecord(id: string, name: string, res: bool, msgs: seq<Msg>)

  datatype Ledger = Ledger(tests: map<string, TestRecord>, success: seq<string>, fails: seq<string>)

  const Empty := Ledger(map[], [], [])

  /** Every listed id has a record, so the report can look each one up. */
  predicate Consistent(l: Ledger)
  {
    (forall i :: 0 <= i < |l.success| ==> l.success[i] in l.tests) &&
    (forall i :: 0 <= i < |l.fails| ==> l.fails[i] in l.tests)
  }

  /** Sealing the current test (`start` flushing its predecessor): nothing happens when
      no test is open or its id is empty; otherwise the record is stored under its id,
      overwriting an earlier one, and the id is appended to exactly one of the two lists
      according to the record's result, even when it was listed before. */
  function Seal(l: Ledger, cur: Option<TestRecord>): (r: Ledger)
    ensures Consistent(l) ==> Consistent(r)
    ensures cur.None? || cur.value.id == "" ==> r == l
    ensures cur.Some? && cur.value.id != "" ==>
              && r.tests == l.tests[cur.value.id := cur.value]
              && r.success == l.success + (if cur.value.res then [cur.value.id] else [])
              && r.fails == l.fails + (if cur.value.res then [] else [cur.value.id])
  {
    match cur
    case None => l
    case Some(rec) =>
      if rec.id == "" then l
      else if rec.res then Ledger(l.tests[rec.id := rec], l.success + [rec.id], l.fails)
      else Ledger(l.tests[rec.id := rec], l.success, l.fails + [rec.id])
  }

  /** Sealing the records one after another, in order. */
  function SealAll(l: Ledger, recs: seq<TestRecord>): Ledger
  {
    if recs == [] then l else Seal(SealAll(l, recs[..|recs| - 1]), Some(recs[|recs| - 1]))
  }

  function Ids(recs: seq<TestRecord>): (ids: seq<string>)
    ensures |ids| == |recs| && forall i :: 0 <= i < |recs| ==> ids[i] == recs[i].id
  {
    seq(|recs|, i requires 0 <= i < |recs| => recs[i].id)
  }

  /** The set of ids of the records. */
  function IdSet(recs: seq<TestRecord>): (ids: set<string>)
    ensures forall i :: 0 <= i < |recs| ==> recs[i].id in ids
  {
    if recs == [] then {}
    else
      var pre := recs[..|recs| - 1];
      assert forall i :: 0 <= i < |pre| ==> pre[i] == recs[i];
      IdSet(pre) + {recs[|recs| - 1].id}
  }

  /** The ids of the passing records, in order. */
  function Passed(recs: seq<TestRecord>): seq<string>
  {
    if recs == [] then []
    else Passed(recs[..|recs| - 1]) + (if recs[|recs| - 1].res then [recs[|recs| - 1].id] else [])
  }

  /** The ids of the failing records, in order. */
  function Failed(recs: seq<TestRecord>): seq<string>
  {
    if recs == [] then []
    else Failed(recs[..|recs| - 1]) + (if recs[|recs| - 1].res then [] else [recs[|recs| - 1].id])
  }

  /** Distinct, non-empty ids: what a catalog of PHP array keys gives, minus the empty
      id that `start` treats as "no test". */
  predicate ProperIds(recs: seq<TestRecord>)
  {
    (forall i :: 0 <= i < |recs| ==> recs[i].id != "") &&
    (forall i, j :: 0 <= i < j < |recs| ==> recs[i].id != recs[j].id)
  }

  /** Sealing a run of records with proper ids into an empty ledger stores each record
      under its id, lists the passing ids and the failing ids in completion order, and
      so counts every test once. */
  lemma {:induction false} SealAllFromEmpty(recs: seq<TestRecord>)
    requires ProperIds(recs)
    ensures SealAll(Empty, recs).tests.Keys == IdSet(recs)
    ensures forall i :: 0 <= i < |recs| ==>
              recs[i].id in SealAll(Empty, recs).tests && SealAll(Empty, recs).tests[recs[i].id] == recs[i]
    ensures SealAll(Empty, recs).success == Passed(recs)
    ensures SealAll(Empty, recs).fails == Failed(recs)
    ensures |SealAll(Empty, recs).success| + |SealAll(Empty, recs).fails| == |recs|
    decreases |recs|
  {
    if recs != [] {
      var pre := recs[..|recs| - 1];
      var last := recs[|recs| - 1];
      assert ProperIds(pre) by {
        forall i, j | 0 <= i < j < |pre| ensures pre[i].id != pre[j].id {
          assert pre[i] == recs[i] && pre[j] == recs[j];
        }
      }
      SealAllFromEmpty(pre);
      var l := SealAll(Empty, pre);
      var r := SealAll(Empty, recs);
      assert r == Seal(l, Some(last));
      assert last.id != "";
      assert r.tests == l.tests[last.id := last];
      forall i | 0 <= i < |recs|
        ensures recs[i].id in r.tests && r.tests[recs[i].id] == recs[i]
      {
        if i < |pre| {
          assert pre[i] == recs[i];
          assert recs[i].id != last.id;
        }
      }
    }
  }

  /** With proper ids, each sealed id is in exactly one of the two lists. */
  lemma {:induction false} PassedFailedDisjoint(recs: seq<TestRecord>)
    requires ProperIds(recs)
    ensures forall i :: 0 <= i < |recs| ==> (recs[i].id in Passed(recs) <==> recs[i].res)
    ensures forall i :: 0 <= i < |recs| ==> (recs[i].id in Failed(recs) <==> !recs[i].res)
    decreases |recs|
  {
    if recs != [] {
      var pre := recs[..|recs| - 1];
      var last := recs[|recs| - 1];
      assert ProperIds(pre) by {
        forall i, j | 0 <= i < j < |pre| ensures pre[i].id != pre[j].id {
          assert pre[i] == recs[i] && pre[j] == recs[j];
        }
      }
      PassedFailedDisjoint(pre);
      PassedIdsFrom(pre);
      FailedIdsFrom(pre);
      forall i | 0 <= i < |recs|
        ensures recs[i].id in Passed(recs) <==> recs[i].res
        ensures recs[i].id in Failed(recs) <==> !recs[i].res
      {
        if i < |pre| {
          assert pre[i] == recs[i];
          assert last.id != recs[i].id;
        } else {
          assert recs[i] == last;
          assert last.id !in Passed(pre) && last.id !in Failed(pre) by {
            forall j | 0 <= j < |pre| ensures pre[j].id != last.id {
              assert pre[j] == recs[j];
            }
          }
        }
      }
    }
  }

  /** Passed lists only ids of the records. */
  lemma {:induction false} PassedIdsFrom(recs: seq<TestRecord>)
    ensures forall x :: x in Passed(recs) ==> exists j :: 0 <= j < |recs| && recs[j].id == x
    decreases |recs|
  {
    if recs != [] {
      var pre := recs[..|recs| - 1];
      PassedIdsFrom(pre);
      forall x | x in Passed(recs) ensures exists j :: 0 <= j < |recs| && recs[j].id == x {
        if x in Passed(pre) {
          var j :| 0 <= j < |pre| && pre[j].id == x;
          assert recs[j] == pre[j];
        } else {
          assert recs[|recs| - 1].id == x;
        }
      }
    }
  }

  /** Failed lists only ids of the records. */
  lemma {:induction false} FailedIdsFrom(recs: seq<TestRecord>)
    ensures forall x :: x in Failed(recs) ==> exists j :: 0 <= j < |recs| && recs[j].id == x
    decreases |recs|
  {
    if recs != [] {
      var pre := recs[..|recs| - 1];
      FailedIdsFrom(pre);
      forall x | x in Failed(recs) ensures exists j :: 0 <= j < |recs| && recs[j].id == x {
        if x in Failed(pre) {
          var j :| 0 <= j < |pre| && pre[j].id == x;
          assert recs[j] == pre[j];
        } else {
          assert recs[|recs| - 1].id == x;
        }
      }
    }
  }

  /** Distinct ids make as many set elements as records. */
  lemma {:induction false} IdSetSize(recs: seq<TestRecord>)
    requires ProperIds(recs)
    ensures |IdSet(recs)| == |recs|
    decreases |recs|
  {
    if recs != [] {
      var pre := recs[..|recs| - 1];
      assert ProperIds(pre) by {
        forall i, j | 0 <= i < j < |pre| ensures pre[i].id != pre[j].id {
          assert pre[i] == recs[i] && pre[j] == recs[j];
        }
      }
      IdSetSize(pre);
      IdSetMembers(pre);
      assert recs[|recs| - 1].id !in IdSet(pre) by {
        forall j | 0 <= j < |pre| ensures pre[j].id != recs[|recs| - 1].id {
          assert pre[j] == recs[j];
        }
      }
    }
  }

  /** IdSet holds only ids of the records. */
  lemma {:induction false} IdSetMembers(recs: seq<TestRecord>)
    ensures forall x :: x in IdSet(recs) ==> exists j :: 0 <= j < |recs| && recs[j].id == x
    decreases |recs|
  {
    if recs != [] {
      var pre := recs[..|recs| - 1];
      IdSetMembers(pre);
      forall x | x in IdSet(recs) ensures exists j :: 0 <= j < |recs| && recs[j].id == x {
        if x in IdSet(pre) {
          var j :| 0 <= j < |pre| && pre[j].id == x;
          assert recs[j] == pre[j];
        } else {
          assert recs[|recs| - 1].id == x;
        }
      }
    }
  }
}
