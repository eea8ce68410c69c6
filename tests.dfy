/** The test runner: runs the catalog's tests through a per-test body and checks given
    values against expectation descriptors, reporting every step to the shared result
    collector. */
module Tests {
  import opened Common
  import opened Notes
  import opened Ledgers
  import opened Matching
  import TestProviders
  import Collector

  /** One more call recorded after `done`. */
  lemma ReplaySnoc(c0: Cursor, done: seq<Event>, c: Cursor, e: Event)
    requires Wf(c0) && Replay(c0, done) == Some(c)
    ensures Replay(c0, done + [e]) == Step(c, e)
  {
    ReplayConcat(c0, done, [e]);
    assert [e][1..] == [];
  }

  /** A run of calls recorded after `done`. */
  lemma ReplayThen(c0: Cursor, done: seq<Event>, c: Cursor, es: seq<Event>)
    requires Wf(c0) && Replay(c0, done) == Some(c)
    ensures Replay(c0, done + es) == Replay(c, es)
  {
    ReplayConcat(c0, done, es);
  }

  /** What one test of the catalog leaves behind when `run` is `body`: its record, or
      the exception that ended it (an `endSection` at the root throws too). */
  function TestRun(id: string, tc: TestProviders.TestCase, body: (string, TestProviders.TestCase) -> Outcome): (r: Try<TestRecord>)
    ensures r.Ok? ==> r.value.id == id && r.value.name == tc.name
    ensures r.Ok? <==> body(id, tc).err.None? && Replay(Fresh, body(id, tc).events).Some?
  {
    var o := body(id, tc);
    match Replay(Fresh, o.events)
    case None => Err(SectionImbalance)
    case Some(c) =>
      if o.err.Some? then Err(o.err.value) else Ok(TestRecord(id, tc.name, c.res, c.msgs))
  }

  /** The tests run one after another until one throws. */
  function RunTests(tests: seq<(string, TestProviders.TestCase)>, body: (string, TestProviders.TestCase) -> Outcome): Try<seq<TestRecord>>
  {
    if tests == [] then Ok([])
    else
      match RunTests(tests[..|tests| - 1], body)
      case Err(f) => Err(f)
      case Ok(recs) =>
        match TestRun(tests[|tests| - 1].0, tests[|tests| - 1].1, body)
        case Err(f) => Err(f)
        case Ok(rec) => Ok(recs + [rec])
  }

  /** The `(name, id)` pairs `start` receives for the tests, in order. */
  function StartsOf(tests: seq<(string, TestProviders.TestCase)>): (r: seq<(string, string)>)
    ensures |r| == |tests| && forall i :: 0 <= i < |tests| ==> r[i] == (tests[i].1.name, tests[i].0)
  {
    seq(|tests|, i requires 0 <= i < |tests| => (tests[i].1.name, tests[i].0))
  }

  lemma StartsSnoc(tests: seq<(string, TestProviders.TestCase)>, i: nat)
    requires i < |tests|
    ensures StartsOf(tests[..i + 1]) == StartsOf(tests[..i]) + [(tests[i].1.name, tests[i].0)]
  {
    assert StartsOf(tests[..i + 1])[..i] == StartsOf(tests[..i]);
  }

  /** The run stops at the `j`-th test (counting from 1): every test before it completed
      and it threw. */
  predicate StopsAt(tests: seq<(string, TestProviders.TestCase)>, body: (string, TestProviders.TestCase) -> Outcome, j: int)
  {
    && 0 < j <= |tests|
    && RunTests(tests[..j - 1], body).Ok?
    && TestRun(tests[j - 1].0, tests[j - 1].1, body).Err?
  }

  /** A test that throws after a run of completed ones is where the whole run stops. */
  lemma StopHere(tests: seq<(string, TestProviders.TestCase)>, body: (string, TestProviders.TestCase) -> Outcome,
                 i: nat, recs: seq<TestRecord>)
    requires i < |tests| && RunTests(tests[..i], body) == Ok(recs)
    requires TestRun(tests[i].0, tests[i].1, body).Err?
    ensures StopsAt(tests, body, i + 1)
    ensures RunTests(tests, body) == Err(TestRun(tests[i].0, tests[i].1, body).failure)
  {
    PrefixThrows(tests, body, i);
    StopsFrom(tests, body, i + 1);
  }

  /** A run whose first `k` tests end with an exception ends with it. */
  lemma StopsFrom(tests: seq<(string, TestProviders.TestCase)>, body: (string, TestProviders.TestCase) -> Outcome, k: nat)
    requires k <= |tests| && RunTests(tests[..k], body).Err?
    ensures RunTests(tests, body) == RunTests(tests[..k], body)
  {
    RunTestsStops(tests[..k], tests[k..], body);
    assert tests[..k] + tests[k..] == tests;
  }

  /** The run of the tests up to the one that throws ends with its exception. */
  lemma PrefixThrows(tests: seq<(string, TestProviders.TestCase)>, body: (string, TestProviders.TestCase) -> Outcome, i: nat)
    requires i < |tests| && RunTests(tests[..i], body).Ok?
    requires TestRun(tests[i].0, tests[i].1, body).Err?
    ensures RunTests(tests[..i + 1], body) == Err(TestRun(tests[i].0, tests[i].1, body).failure)
  {
    var pre := tests[..i + 1];
    assert pre[..|pre| - 1] == tests[..i] && pre[|pre| - 1] == tests[i];
    RunTestsLastThrows(pre, body);
  }

  /** A run whose last test throws after the others completed ends with that exception. */
  lemma RunTestsLastThrows(tests: seq<(string, TestProviders.TestCase)>, body: (string, TestProviders.TestCase) -> Outcome)
    requires tests != [] && RunTests(tests[..|tests| - 1], body).Ok?
    requires TestRun(tests[|tests| - 1].0, tests[|tests| - 1].1, body).Err?
    ensures RunTests(tests, body) == Err(TestRun(tests[|tests| - 1].0, tests[|tests| - 1].1, body).failure)
  {
  }

  /** A test that completes after a run of completed ones extends the run by its
      record, and the ledger by that record sealed. */
  lemma ContinueRun(tests: seq<(string, TestProviders.TestCase)>, body: (string, TestProviders.TestCase) -> Outcome,
                    i: nat, recs: seq<TestRecord>, rec: TestRecord, l0: Ledger)
    requires i < |tests| && RunTests(tests[..i], body) == Ok(recs)
    requires TestRun(tests[i].0, tests[i].1, body) == Ok(rec)
    ensures RunTests(tests[..i + 1], body) == Ok(recs + [rec])
    ensures SealAll(l0, recs + [rec]) == Seal(SealAll(l0, recs), Some(rec))
  {
    var pre := tests[..i + 1];
    assert pre[..|pre| - 1] == tests[..i] && pre[|pre| - 1] == tests[i];
    assert (recs + [rec])[..|recs|] == recs;
  }

  /** The test an exception leaves current and unsealed: started under its id and
      name; when its calls replay (the body's own exception ended it) the collector holds
      what they leave, and otherwise the throwing `endSection` stopped them part way. */
  predicate LeftOpen(r: Collector.Result, id: string, tc: TestProviders.TestCase,
                     body: (string, TestProviders.TestCase) -> Outcome)
    reads r
  {
    && r.res.Some? && r.id == id && r.name == tc.name
    && (Replay(Fresh, body(id, tc).events).Some? ==> Replay(Fresh, body(id, tc).events) == Some(r.Cur()))
  }

  /** The record `start` leaves open after the closing empty start: never sealed. */
  const Closing := TestRecord("", "", true, [])

  /** Once a test throws, the run stops there: every longer run ends with the same
      exception. */
  lemma {:induction false} RunTestsStops(tests: seq<(string, TestProviders.TestCase)>, more: seq<(string, TestProviders.TestCase)>,
                                         body: (string, TestProviders.TestCase) -> Outcome)
    requires RunTests(tests, body).Err?
    ensures RunTests(tests + more, body) == RunTests(tests, body)
    decreases |more|
  {
    if more != [] {
      var pre := more[..|more| - 1];
      RunTestsStops(tests, pre, body);
      assert (tests + more)[..|tests + more| - 1] == tests + pre;
    } else {
      assert tests + more == tests;
    }
  }

  /** A run without exceptions yields one record per test, in catalog order, carrying the
      test's id and name and the result and messages its body left. */
  lemma {:induction false} RunTestsRecords(tests: seq<(string, TestProviders.TestCase)>, body: (string, TestProviders.TestCase) -> Outcome)
    requires RunTests(tests, body).Ok?
    ensures |RunTests(tests, body).value| == |tests|
    ensures forall i :: 0 <= i < |tests| ==>
              TestRun(tests[i].0, tests[i].1, body) == Ok(RunTests(tests, body).value[i])
    decreases |tests|
  {
    if tests != [] {
      var pre := tests[..|tests| - 1];
      RunTestsRecords(pre, body);
      forall i | 0 <= i < |tests|
        ensures TestRun(tests[i].0, tests[i].1, body) == Ok(RunTests(tests, body).value[i])
      {
        if i < |pre| {
          assert tests[i] == pre[i];
        }
      }
    }
  }

  lemma ShiftOne(done: seq<Event>, e: Event, whole: seq<Event>, rest: seq<Event>)
    requires whole == done + ([e] + rest)
    ensures whole == (done + [e]) + rest
  {
  }

  class Test {
    const testprov: TestProviders.TestProvider
    const res: Collector.Result

    constructor (testprov: TestProviders.TestProvider, res: Collector.Result)
      ensures this.testprov == testprov && this.res == res
    {
      this.testprov := testprov;
      this.res := res;
    }

    /** The basic branch of `check`: one note, passing exactly when `given op val`. */
    method CheckBasic(name: string, op: Op, val: Value, given: Value)
      requires res.Valid() && res.res.Some?
      modifies res
      ensures res.Valid() && res.res.Some? && res.Kept() == old(res.Kept())
      ensures res.res == Some(old(res.res.value) && Eval(op, given, val))
      ensures Step(old(res.Cur()), CmpEvent(name, op, val, given)) == Some(res.Cur())
    {
      var giventext := GivenText(given);
      if Eval(op, given, val) {
        res.Note(true, name + " is OK, have got " + giventext);
      } else {
        res.Note(false, "invalid " + name + ", expected " + PhpString(val) + " - have got " + giventext);
      }
    }

    /** `check($name, $expect, $given)`: the calls it makes on the collector are those of
        `Trace`, and it throws what `Trace` says. */
    method Check(name: string, d: Desc, given: Value) returns (err: Option<Failure>)
      requires res.Valid() && res.res.Some?
      modifies res
      ensures res.Valid() && res.res.Some? && res.Kept() == old(res.Kept())
      ensures err == Trace(testprov, name, d, given).err
      ensures Replay(old(res.Cur()), Trace(testprov, name, d, given).events) == Some(res.Cur())
      decreases d, 2, 0
    {
      ghost var c0 := res.Cur();
      match d {
        case Cmp(op, val) =>
          CheckBasic(name, op, val, given);
          assert [CmpEvent(name, op, val, given)][1..] == [];
          return None;
        case Obj(fields) =>
          var h := name + " type Object";
          res.StartSection(h);
          ghost var c1 := res.Cur();
          err := CheckObject(name, fields, given);
          ghost var o := ObjectTrace(testprov, name, fields, given);
          ObjectBalanced(testprov, name, fields, given, c1);
          err := EndSectionUnlessThrown(h, c0, c1, o, err);
        case ObjEq(path) =>
          var h := name + " type Object";
          res.StartSection(h);
          ghost var c1 := res.Cur();
          err := CheckObjectEqual(name, path, given);
          ghost var o := ObjectEqualTrace(testprov, name, path, given);
          ObjectEqualBalanced(testprov, name, path, given, c1);
          err := EndSectionUnlessThrown(h, c0, c1, o, err);
        case Arr(items) =>
          var h := name + " type Array";
          res.StartSection(h);
          ghost var c1 := res.Cur();
          err := CheckArray(name, items, given);
          ghost var o := ArrayTrace(testprov, name, items, given);
          ArrayBalanced(testprov, name, items, given, c1);
          err := EndSectionUnlessThrown(h, c0, c1, o, err);
        case Unknown(tag) =>
          return Some(UnknownCheckType(tag));
      }
    }

    /** The `endSection` after a composite check, reached only when the check did not
        throw; it always finds the section the check opened. */
    method EndSectionUnlessThrown(h: string, ghost c0: Cursor, ghost c1: Cursor, ghost o: Outcome, err: Option<Failure>)
      returns (err': Option<Failure>)
      requires res.Valid() && res.res.Some? && Wf(c0)
      requires Step(c0, Open(h)) == Some(c1) && Balanced(c1, o)
      requires err == o.err && Replay(c1, o.events) == Some(res.Cur())
      modifies res
      ensures res.Valid() && res.res.Some? && res.Kept() == old(res.Kept())
      ensures err' == err
      ensures Replay(c0, Enclose(h, o).events) == Some(res.Cur())
    {
      ReplayConcat(c0, [Open(h)], o.events);
      assert Replay(c0, [Open(h)]) == Some(c1);
      if err.Some? {
        assert Enclose(h, o).events == [Open(h)] + o.events;
        return err;
      }
      ghost var c2 := res.Cur();
      var closed := res.EndSection();
      assert closed;
      ReplaySnoc(c0, [Open(h)] + o.events, c2, Close);
      return None;
    }

    /** `checkObject($name, $expect, $given)`. */
    method CheckObject(name: string, fields: seq<(Key, Desc)>, given: Value) returns (err: Option<Failure>)
      requires res.Valid() && res.res.Some?
      modifies res
      ensures res.Valid() && res.res.Some? && res.Kept() == old(res.Kept())
      ensures err == ObjectTrace(testprov, name, fields, given).err
      ensures Replay(old(res.Cur()), ObjectTrace(testprov, name, fields, given).events) == Some(res.Cur())
      decreases Obj(fields), 1, 0
    {
      ghost var c0 := res.Cur();
      if !given.Dict? {
        res.Note(false, name + " fails: given value is not object");
        assert [NotObjectNote(name)][1..] == [];
        return None;
      }
      var expFields := KeysOf(fields);
      var givFields := KeysOf(given.entries);
      var same := DiffStep(name, expFields, givFields);
      ghost var c1 := res.Cur();
      err := CheckFields(fields, given.entries, same);
      ReplayThen(c0, DiffNotes(name, expFields, givFields), c1, FieldsTrace(testprov, fields, given.entries, same).events);
    }

    /** The loop of `checkObject` over the common keys, in order: each field's value is
        checked against its expectation, until a check throws. */
    method CheckFields(fields: seq<(Key, Desc)>, given: seq<(Key, Value)>, same: seq<Key>) returns (err: Option<Failure>)
      requires res.Valid() && res.res.Some?
      requires forall k :: k in same ==> k in KeysOf(fields) && k in KeysOf(given)
      modifies res
      ensures res.Valid() && res.res.Some? && res.Kept() == old(res.Kept())
      ensures err == FieldsTrace(testprov, fields, given, same).err
      ensures Replay(old(res.Cur()), FieldsTrace(testprov, fields, given, same).events) == Some(res.Cur())
      decreases Obj(fields), 0, 0
    {
      ghost var c0 := res.Cur();
      ghost var done: seq<Event> := [];
      var i := 0;
      while i < |same|
        invariant 0 <= i <= |same|
        invariant res.Valid() && res.res.Some? && res.Kept() == old(res.Kept())
        invariant Replay(c0, done) == Some(res.Cur())
        invariant FieldsTrace(testprov, fields, given, same) == Prefix(done, FieldsTrace(testprov, fields, given, same[i..]))
      {
        var field := same[i];
        FieldsStep(testprov, fields, given, same, i);
        ghost var c := res.Cur();
        var j := IndexOf(fields, field).value;
        var e := Check(FieldName(field), fields[j].1, At(given, field));
        ghost var t := Trace(testprov, FieldName(field), fields[j].1, At(given, field));
        ReplayThen(c0, done, c, t.events);
        if e.Some? {
          return e;
        }
        PrefixPrefix(done, t.events, FieldsTrace(testprov, fields, given, same[i + 1..]));
        done := done + t.events;
        i := i + 1;
      }
      assert done + [] == done;
      return None;
    }

    /** The key comparison shared by `checkObject` and `checkObjectEqual`: notes the
        excess keys, the missing keys and an empty intersection, and returns the given
        keys that are expected, in given order. */
    method DiffStep(name: string, expFields: seq<Key>, givFields: seq<Key>) returns (same: seq<Key>)
      requires res.Valid() && res.res.Some?
      modifies res
      ensures res.Valid() && res.res.Some? && res.Kept() == old(res.Kept())
      ensures same == Inter(givFields, expFields)
      ensures Replay(old(res.Cur()), DiffNotes(name, expFields, givFields)) == Some(res.Cur())
    {
      ghost var c0 := res.Cur();
      ghost var done: seq<Event> := [];
      var excess := Minus(givFields, expFields);
      var missing := Minus(expFields, givFields);
      ghost var ex := if |excess| > 0 then [ExcessNote(name, excess)] else [];
      ghost var mi := if |missing| > 0 then [MissingNote(name, missing)] else [];
      ghost var dj := if |Inter(givFields, expFields)| == 0 then [DisjointNote(name, expFields)] else [];
      assert DiffNotes(name, expFields, givFields) == ex + mi + dj;
      if |excess| > 0 {
        ReplaySnoc(c0, done, res.Cur(), ExcessNote(name, excess));
        res.Note(false, name + " fails: excess fields of answer : " + Join(",", excess));
        done := done + [ExcessNote(name, excess)];
      }
      assert done == ex;
      if |missing| > 0 {
        ReplaySnoc(c0, done, res.Cur(), MissingNote(name, missing));
        res.Note(false, name + " fails: missing fields of answer : " + Join(",", missing));
        done := done + [MissingNote(name, missing)];
      }
      assert done == ex + mi;
      same := Inter(givFields, expFields);
      if |same| == 0 {
        ReplaySnoc(c0, done, res.Cur(), DisjointNote(name, expFields));
        res.Note(false, name + " fails: answer dont have any of expected fields : " + Join(",", expFields));
        done := done + [DisjointNote(name, expFields)];
      }
      assert done == ex + mi + dj;
    }

    /** `checkObjectEqual($name, $expect_path, $given)`, fetching the fixture with the
        catalog's lookup `dp`. */
    method CheckObjectEqual(name: string, path: seq<Key>, given: Value) returns (err: Option<Failure>)
      requires res.Valid() && res.res.Some?
      modifies res
      ensures res.Valid() && res.res.Some? && res.Kept() == old(res.Kept())
      ensures err == ObjectEqualTrace(testprov, name, path, given).err
      ensures Replay(old(res.Cur()), ObjectEqualTrace(testprov, name, path, given).events) == Some(res.Cur())
    {
      ghost var c0 := res.Cur();
      if !given.Dict? {
        res.Note(false, name + " fails: given value is not object");
        assert [NotObjectNote(name)][1..] == [];
        return None;
      }
      var fetched := testprov.Dp(path);
      if fetched.Err? {
        return Some(fetched.failure);
      }
      var fixture := fetched.value;
      if !fixture.Dict? {
        return Some(FixtureNotAnArray);
      }
      var expFields := KeysOf(fixture.entries);
      var givFields := KeysOf(given.entries);
      var same := DiffStep(name, expFields, givFields);
      ghost var c1 := res.Cur();
      CheckEqualFields(fixture.entries, given.entries, same);
      ReplayThen(c0, DiffNotes(name, expFields, givFields), c1, EqualNotes(fixture.entries, given.entries, same));
      return None;
    }

    /** The loop of `checkObjectEqual` over the common keys: an `==` check of each field
        against the fixture's value. */
    method CheckEqualFields(fixture: seq<(Key, Value)>, given: seq<(Key, Value)>, same: seq<Key>)
      requires res.Valid() && res.res.Some?
      requires forall k :: k in same ==> k in KeysOf(fixture) && k in KeysOf(given)
      modifies res
      ensures res.Valid() && res.res.Some? && res.Kept() == old(res.Kept())
      ensures Replay(old(res.Cur()), EqualNotes(fixture, given, same)) == Some(res.Cur())
    {
      ghost var c0 := res.Cur();
      ghost var done: seq<Event> := [];
      var i := 0;
      while i < |same|
        invariant 0 <= i <= |same|
        invariant res.Valid() && res.res.Some? && res.Kept() == old(res.Kept())
        invariant Replay(c0, done) == Some(res.Cur())
        invariant EqualNotes(fixture, given, same) == done + EqualNotes(fixture, given, same[i..])
      {
        var field := same[i];
        ghost var c := res.Cur();
        CheckBasic(FieldName(field), Eq, At(fixture, field), At(given, field));
        ghost var e := CmpEvent(FieldName(field), Eq, At(fixture, field), At(given, field));
        EqualStep(fixture, given, same, i);
        ReplaySnoc(c0, done, c, e);
        ShiftOne(done, e, EqualNotes(fixture, given, same), EqualNotes(fixture, given, same[i + 1..]));
        done := done + [e];
        i := i + 1;
      }
      assert done + [] == done;
    }

    /** `checkArray($name, $expect, $given)`: item `n` is checked against the value
        `array_shift` takes off the front of what is left of the given array, null once
        it is empty. */
    method CheckArray(name: string, items: seq<Desc>, given: Value) returns (err: Option<Failure>)
      requires res.Valid() && res.res.Some?
      modifies res
      ensures res.Valid() && res.res.Some? && res.Kept() == old(res.Kept())
      ensures err == ArrayTrace(testprov, name, items, given).err
      ensures Replay(old(res.Cur()), ArrayTrace(testprov, name, items, given).events) == Some(res.Cur())
      decreases Arr(items), 1, 0
    {
      ghost var c0 := res.Cur();
      if !given.Dict? {
        res.Note(false, name + " fails: given value is not array");
        assert [Note(false, name + " fails: given value is not array")][1..] == [];
        return None;
      }
      ghost var done: seq<Event> := [];
      ReplaySnoc(c0, done, res.Cur(), Note(true, name + " type check pass, array given"));
      res.Note(true, name + " type check pass, array given");
      done := done + [Note(true, name + " type check pass, array given")];
      if |items| > 0 {
        if |given.entries| == 0 {
          ReplaySnoc(c0, done, res.Cur(), Note(false, name + " fails: given is an empty array"));
          res.Note(false, name + " fails: given is an empty array");
          done := done + [Note(false, name + " fails: given is an empty array")];
        }
        ghost var c1 := res.Cur();
        err := CheckItems(items, ValuesOf(given.entries));
        ReplayThen(c0, done, c1, ItemsTrace(testprov, items, 0, ValuesOf(given.entries)).events);
        return err;
      }
      assert done == ArrayTrace(testprov, name, items, given).events;
      return None;
    }

    /** The loop of `checkArray`: item `n` is checked against the value `array_shift`
        takes off the front of what is left of the given values, null once none is
        left, until a check throws. */
    method CheckItems(items: seq<Desc>, values: seq<Value>) returns (err: Option<Failure>)
      requires res.Valid() && res.res.Some?
      modifies res
      ensures res.Valid() && res.res.Some? && res.Kept() == old(res.Kept())
      ensures err == ItemsTrace(testprov, items, 0, values).err
      ensures Replay(old(res.Cur()), ItemsTrace(testprov, items, 0, values).events) == Some(res.Cur())
      decreases Arr(items), 0, 0
    {
      ghost var c0 := res.Cur();
      ghost var done: seq<Event> := [];
      var rest := values;
      var n := 0;
      while n < |items|
        invariant 0 <= n <= |items|
        invariant res.Valid() && res.res.Some? && res.Kept() == old(res.Kept())
        invariant Replay(c0, done) == Some(res.Cur())
        invariant ItemsTrace(testprov, items, 0, values) == Prefix(done, ItemsTrace(testprov, items, n, rest))
      {
        ItemsStep(testprov, items, n, rest);
        ghost var rest0 := rest;
        var item := Null;
        if rest != [] {
          item := rest[0];
          rest := rest[1..];
        }
        assert item == First(rest0) && rest == Shifted(rest0);
        ghost var c := res.Cur();
        var e := Check(ItemName(n), items[n], item);
        ghost var t := Trace(testprov, ItemName(n), items[n], item);
        ReplayThen(c0, done, c, t.events);
        if e.Some? {
          return e;
        }
        assert ItemsTrace(testprov, items, n, rest0) == Prefix(t.events, ItemsTrace(testprov, items, n + 1, rest));
        PrefixPrefix(done, t.events, ItemsTrace(testprov, items, n + 1, rest));
        assert ItemsTrace(testprov, items, 0, values) == Prefix(done + t.events, ItemsTrace(testprov, items, n + 1, rest));
        done := done + t.events;
        n := n + 1;
      }
      assert done + [] == done;
      return None;
    }

    /** `runAll()`: for each test of the catalog in order, `start` it and run `body` on it;
        then an empty `start` that seals the last test. An exception ends the run at once,
        without the closing start. */
    method RunAll(body: (string, TestProviders.TestCase) -> Outcome) returns (err: Option<Failure>)
      requires res.Valid()
      modifies res
      ensures res.Valid()
      ensures err.None? <==> RunTests(testprov.tests, body).Ok?
      ensures err.Some? ==> err == Some(RunTests(testprov.tests, body).failure)
      ensures err.Some? ==>
                exists j ::
                  && StopsAt(testprov.tests, body, j)
                  && res.starts == old(res.starts) + StartsOf(testprov.tests[..j])
                  && res.Sealed() == SealAll(Seal(old(res.Sealed()), old(res.Current())),
                                            RunTests(testprov.tests[..j - 1], body).value)
                  && LeftOpen(res, testprov.tests[j - 1].0, testprov.tests[j - 1].1, body)
      ensures err.None? ==>
                && res.Sealed() == SealAll(Seal(old(res.Sealed()), old(res.Current())), RunTests(testprov.tests, body).value)
                && res.Current() == Some(Closing)
                && res.starts == old(res.starts) + StartsOf(testprov.tests) + [("", "")]
    {
      ghost var l0 := Seal(res.Sealed(), res.Current());
      ghost var recs: seq<TestRecord> := [];
      var all := testprov.GetAll();
      assert all == testprov.tests;
      var i := 0;
      while i < |all|
        invariant 0 <= i <= |all|
        invariant res.Valid()
        invariant RunTests(all[..i], body) == Ok(recs)
        invariant Seal(res.Sealed(), res.Current()) == SealAll(l0, recs)
        invariant res.starts == old(res.starts) + StartsOf(all[..i])
      {
        var id := all[i].0;
        var tc := all[i].1;
        StartsSnoc(all, i);
        ghost var before := Seal(res.Sealed(), res.Current());
        res.Start(tc.name, id);
        assert res.Sealed() == before;
        var o := body(id, tc);
        var ok := res.Perform(o.events);
        if !ok || o.err.Some? {
          assert TestRun(id, tc, body).Err?;
          StopHere(all, body, i, recs);
          return if !ok then Some(SectionImbalance) else o.err;
        }
        ghost var rec := TestRecord(id, tc.name, res.res.value, res.msgs);
        assert TestRun(id, tc, body) == Ok(rec);
        ContinueRun(all, body, i, recs, rec, l0);
        recs := recs + [rec];
        i := i + 1;
      }
      assert all[..i] == all;
      res.Start("", "");
      return None;
    }

    /** `runById($id)`: an unknown id is recorded as a failing test named "Invalid test
        id" with the single note "test not found"; a known one runs like a test of
        `runAll`; either way an empty `start` follows, unless the body threw. */
    method RunById(id: string, body: (string, TestProviders.TestCase) -> Outcome) returns (err: Option<Failure>)
      requires res.Valid()
      modifies res
      ensures res.Valid()
      ensures testprov.GetById(id).None? ==>
                && err.None?
                && res.Sealed() == Seal(Seal(old(res.Sealed()), old(res.Current())),
                                        Some(TestRecord(id, "Invalid test id", false, [Leaf(false, "test not found")])))
      ensures testprov.GetById(id).Some? ==>
                var run := TestRun(id, testprov.GetById(id).value, body);
                && (err.None? <==> run.Ok?)
                && (run.Err? ==> err == Some(run.failure))
                && (run.Ok? ==> res.Sealed() == Seal(Seal(old(res.Sealed()), old(res.Current())), Some(run.value)))
                && (run.Err? ==> res.Sealed() == Seal(old(res.Sealed()), old(res.Current())))
                && (run.Err? ==> LeftOpen(res, id, testprov.GetById(id).value, body))
      ensures err.None? ==> res.Current() == Some(Closing)
    {
      var test := testprov.GetById(id);
      if test.None? {
        res.Start("Invalid test id", id);
        res.Note(false, "test not found");
        assert res.msgs == [Leaf(false, "test not found")];
      } else {
        res.Start(test.value.name, id);
        var o := body(id, test.value);
        var ok := res.Perform(o.events);
        if !ok {
          return Some(SectionImbalance);
        }
        if o.err.Some? {
          return o.err;
        }
      }
      res.Start("", "");
      return None;
    }
  }

  /** A full run on a fresh collector, over a catalog whose ids are non-empty (PHP array
      keys are distinct), records every test exactly once under its id, lists the passing
      ids and the failing ids in catalog order, and so counts every test once. */
  lemma RunAllOnFreshCollector(tests: seq<(string, TestProviders.TestCase)>, body: (string, TestProviders.TestCase) -> Outcome)
    requires UniqueKeys(tests) && forall i :: 0 <= i < |tests| ==> tests[i].0 != ""
    requires RunTests(tests, body).Ok?
    ensures |RunTests(tests, body).value| == |tests|
    ensures var l := SealAll(Seal(Empty, None), RunTests(tests, body).value);
            var recs := RunTests(tests, body).value;
            && (forall i :: 0 <= i < |tests| ==>
                  (&& tests[i].0 in l.tests
                   && l.tests[tests[i].0] == recs[i]
                   && (tests[i].0 in l.success <==> recs[i].res)
                   && (tests[i].0 in l.fails <==> !recs[i].res)))
            && |l.success| + |l.fails| == |tests|
            && |l.tests| == |tests|
  {
    var recs := RunTests(tests, body).value;
    assert Seal(Empty, None) == Empty;
    RunTestsRecords(tests, body);
    assert forall i :: 0 <= i < |tests| ==> recs[i].id == tests[i].0;
    assert ProperIds(recs);
    SealAllFromEmpty(recs);
    PassedFailedDisjoint(recs);
    IdSetSize(recs);
  }
}
