/** The expectation descriptors and, as pure functions, the collector calls a check of a
    given value against a descriptor makes: the specification the matcher methods of
    class Test are proved against. */
module Matching {
  import opened Common
  import opened Notes
  import TestProviders

  /** The basic checks "==", "!=", ">=", "<=", ">", "<". */
  datatype Op = Eq | Ne | Ge | Le | Gt | Lt

  /** An expectation: a basic comparison with a value, an object whose fields have
      their own expectations, a list of item expectations, an object equal to a
      fixture found at a path, or a type tag that is none of the above. */
  datatype Desc =
    | Cmp(op: Op, val: Value)
    | Obj(fields: seq<(Key, Desc)>)
    | Arr(items: seq<Desc>)
    | ObjEq(path: seq<Key>)
    | Unknown(tag: string)

  /** The collector calls a check makes, in order, and the exception that ended it. */
  datatype Outcome = Outcome(events: seq<Event>, err: Option<Failure>)

  /** `strcmp($a, $b) < 0`: character-code lexicographic order. */
  function StrLess(a: string, b: string): bool
  {
    if a == [] then b != []
    else if b == [] then false
    else if a[0] != b[0] then a[0] < b[0]
    else StrLess(a[1..], b[1..])
  }

  /** Three-way comparison of two values of one kind: -1, 0 or 1; `None` when the two
      are not ordered (different kinds, or two different arrays). Two arrays are equal
      when they hold the same key/value pairs, in any order. */
  function Order(a: Value, b: Value): (r: Option<int>)
    ensures r.Some? ==> -1 <= r.value <= 1 && SameKind(a, b)
    ensures !a.Dict? ==> (r == Some(0) <==> a == b)
    decreases a
  {
    match (a, b)
    case (Null, Null) => Some(0)
    case (Boolean(x), Boolean(y)) => Some(if x == y then 0 else if y then -1 else 1)
    case (Integer(x), Integer(y)) => Some(if x == y then 0 else if x < y then -1 else 1)
    case (Text(x), Text(y)) => Some(if x == y then 0 else if StrLess(x, y) then -1 else 1)
    case (Dict(ea), Dict(eb)) =>
      if |ea| == |eb| &&
         forall i :: 0 <= i < |ea| ==>
           ea[i].0 in KeysOf(eb) && Order(ea[i].1, At(eb, ea[i].0)) == Some(0)
      then Some(0) else None
    case _ => None
  }

  /** Both values are of one kind: null, boolean, integer, string or array. */
  predicate SameKind(a: Value, b: Value)
  {
    && a.Null? == b.Null? && a.Boolean? == b.Boolean? && a.Integer? == b.Integer?
    && a.Text? == b.Text? && a.Dict? == b.Dict?
  }

  /** Whether `given op val` holds. */
  function Eval(op: Op, given: Value, val: Value): (r: bool)
    ensures given.Integer? && val.Integer? ==> r == IntHolds(op, given.i, val.i)
  {
    var o := Order(given, val);
    match op
    case Eq => o == Some(0)
    case Ne => o != Some(0)
    case Ge => o == Some(0) || o == Some(1)
    case Le => o == Some(0) || o == Some(-1)
    case Gt => o == Some(1)
    case Lt => o == Some(-1)
  }

  /** The six operators on integers. */
  function IntHolds(op: Op, x: int, y: int): bool
  {
    match op
    case Eq => x == y
    case Ne => x != y
    case Ge => x >= y
    case Le => x <= y
    case Gt => x > y
    case Lt => x < y
  }

  /** How a given value is quoted in a message: strings in double quotes, anything else
      as a literal. */
  function GivenText(v: Value): string
  {
    if v.Text? then "\"" + v.s + "\"" else Export(v)
  }

  /** The one note a basic check records: passing exactly when `given op val` holds. */
  function CmpEvent(name: string, op: Op, val: Value, given: Value): (e: Event)
    ensures e.Note? && e.ok == Eval(op, given, val)
  {
    if Eval(op, given, val) then Note(true, name + " is OK, have got " + GivenText(given))
    else Note(false, "invalid " + name + ", expected " + PhpString(val) + " - have got " + GivenText(given))
  }

  function FieldName(k: Key): string
  {
    "field \"" + k + "\" value"
  }

  function ItemName(n: nat): string
  {
    "item \"" + NatToString(n) + "\" value"
  }

  function NotObjectNote(name: string): Event
  {
    Note(false, name + " fails: given value is not object")
  }

  function ExcessNote(name: string, ks: seq<Key>): Event
  {
    Note(false, name + " fails: excess fields of answer : " + Join(",", ks))
  }

  function MissingNote(name: string, ks: seq<Key>): Event
  {
    Note(false, name + " fails: missing fields of answer : " + Join(",", ks))
  }

  function DisjointNote(name: string, exp: seq<Key>): Event
  {
    Note(false, name + " fails: answer dont have any of expected fields : " + Join(",", exp))
  }

  /** The key-set comparison of an object check: a note for the excess keys, one for the
      missing keys, one when no expected key is present. */
  function DiffNotes(name: string, exp: seq<Key>, giv: seq<Key>): seq<Event>
  {
    var excess := Minus(giv, exp);
    var missing := Minus(exp, giv);
    (if |excess| > 0 then [ExcessNote(name, excess)] else []) +
    (if |missing| > 0 then [MissingNote(name, missing)] else []) +
    (if |Inter(giv, exp)| == 0 then [DisjointNote(name, exp)] else [])
  }

  function Prefix(es: seq<Event>, o: Outcome): Outcome
  {
    Outcome(es + o.events, o.err)
  }

  /** A composite check inside its own section: the section is closed unless an
      exception ended the check. */
  function Enclose(header: string, o: Outcome): Outcome
  {
    Outcome([Open(header)] + o.events + (if o.err.None? then [Close] else []), o.err)
  }

  /** The exceptions a check can throw: an unknown type tag, or a fixture path that
      does not lead to an array. Mismatches of the given value are notes, never
      exceptions. */
  predicate ThrownByCheck(f: Failure)
  {
    f.UnknownCheckType? || f.DataElementNotFound? || f.NotAnArray? || f.FixtureNotAnArray?
  }

  /** `check($name, $expect, $given)`: every known descriptor records something, a
      basic check never throws, and a composite check opens its section first and, when
      it completes, closes it last. */
  function Trace(tp: TestProviders.TestProvider, name: string, d: Desc, given: Value): (r: Outcome)
    ensures r.events == [] <==> d.Unknown?
    ensures r.err.Some? ==> !d.Cmp? && ThrownByCheck(r.err.value)
    ensures d.Obj? || d.ObjEq? || d.Arr? ==>
              r.events[0].Open? && (r.err.None? ==> r.events[|r.events| - 1] == Close)
    decreases d, 2, 0
  {
    match d
    case Cmp(op, val) => Outcome([CmpEvent(name, op, val, given)], None)
    case Obj(fields) => Enclose(name + " type Object", ObjectTrace(tp, name, fields, given))
    case ObjEq(path) => Enclose(name + " type Object", ObjectEqualTrace(tp, name, path, given))
    case Arr(items) => Enclose(name + " type Array", ArrayTrace(tp, name, items, given))
    case Unknown(tag) => Outcome([], Some(UnknownCheckType(tag)))
  }

  /** `checkObject($name, $expect, $given)`. */
  function ObjectTrace(tp: TestProviders.TestProvider, name: string, fields: seq<(Key, Desc)>, given: Value): (r: Outcome)
    ensures r.err.Some? ==>
              && given.Dict? && ThrownByCheck(r.err.value)
              && Inter(KeysOf(given.entries), KeysOf(fields)) != []
    decreases Obj(fields), 1, 0
  {
    if !given.Dict? then Outcome([NotObjectNote(name)], None)
    else
      var exp := KeysOf(fields);
      var giv := KeysOf(given.entries);
      var same := Inter(giv, exp);
      Prefix(DiffNotes(name, exp, giv), FieldsTrace(tp, fields, given.entries, same))
  }

  /** The recursive checks of the fields `keys`, in order, until one throws. */
  function FieldsTrace(tp: TestProviders.TestProvider, fields: seq<(Key, Desc)>,
                       given: seq<(Key, Value)>, keys: seq<Key>): (r: Outcome)
    requires forall k :: k in keys ==> k in KeysOf(fields) && k in KeysOf(given)
    ensures r.err.Some? ==> keys != [] && ThrownByCheck(r.err.value)
    ensures r.err.None? ==> |r.events| >= |keys|
    decreases Obj(fields), 0, |keys|
  {
    if keys == [] then Outcome([], None)
    else
      var k := keys[0];
      var j := IndexOf(fields, k).value;
      var t := Trace(tp, FieldName(k), fields[j].1, At(given, k));
      if t.err.Some? then t else Prefix(t.events, FieldsTrace(tp, fields, given, keys[1..]))
  }

  /** `checkObjectEqual($name, $expect_path, $given)`, with the fixture fetched through
      the catalog's lookup `dp`. */
  function ObjectEqualTrace(tp: TestProviders.TestProvider, name: string, path: seq<Key>, given: Value): (r: Outcome)
    ensures r.err.Some? ==> given.Dict? && r.events == [] && ThrownByCheck(r.err.value)
  {
    if !given.Dict? then Outcome([NotObjectNote(name)], None)
    else
      match tp.Dp(path)
      case Err(f) => Outcome([], Some(f))
      case Ok(fixture) =>
        if !fixture.Dict? then Outcome([], Some(FixtureNotAnArray))
        else
          var exp := KeysOf(fixture.entries);
          var giv := KeysOf(given.entries);
          Outcome(DiffNotes(name, exp, giv) + EqualNotes(fixture.entries, given.entries, Inter(giv, exp)), None)
  }

  /** The `==` checks of the fields `keys` against the fixture's values. */
  function EqualNotes(fixture: seq<(Key, Value)>, given: seq<(Key, Value)>, keys: seq<Key>): (r: seq<Event>)
    requires forall k :: k in keys ==> k in KeysOf(fixture) && k in KeysOf(given)
    ensures |r| == |keys|
  {
    if keys == [] then []
    else [CmpEvent(FieldName(keys[0]), Eq, At(fixture, keys[0]), At(given, keys[0]))] +
         EqualNotes(fixture, given, keys[1..])
  }

  /** `checkArray($name, $expect, $given)`. */
  function ArrayTrace(tp: TestProviders.TestProvider, name: string, items: seq<Desc>, given: Value): (r: Outcome)
    ensures r.events != [] && r.events[0].Note? && (r.events[0].ok <==> given.Dict?)
    ensures r.err.Some? ==> given.Dict? && items != [] && ThrownByCheck(r.err.value)
    decreases Arr(items), 1, 0
  {
    if !given.Dict? then Outcome([Note(false, name + " fails: given value is not array")], None)
    else
      var pass := Note(true, name + " type check pass, array given");
      if |items| == 0 then Outcome([pass], None)
      else
        var empty := if |given.entries| == 0 then [Note(false, name + " fails: given is an empty array")] else [];
        Prefix([pass] + empty, ItemsTrace(tp, items, 0, ValuesOf(given.entries)))
  }

  /** The value `array_shift` takes off the front: null when none is left. */
  function First(vs: seq<Value>): Value
  {
    if vs == [] then Null else vs[0]
  }

  /** What `array_shift` leaves. */
  function Shifted(vs: seq<Value>): seq<Value>
  {
    if vs == [] then [] else vs[1..]
  }

  /** The checks of items `n..` against the values still in `rest`, each taking the
      first remaining value (null once none is left), until one throws. */
  function ItemsTrace(tp: TestProviders.TestProvider, items: seq<Desc>, n: nat, rest: seq<Value>): (r: Outcome)
    requires n <= |items|
    ensures r.err.Some? ==> n < |items| && ThrownByCheck(r.err.value)
    ensures r.err.None? ==> |r.events| >= |items| - n
    decreases Arr(items), 0, |items| - n
  {
    if n == |items| then Outcome([], None)
    else
      var item := First(rest);
      var t := Trace(tp, ItemName(n), items[n], item);
      if t.err.Some? then t
      else Prefix(t.events, ItemsTrace(tp, items, n + 1, Shifted(rest)))
  }

  lemma PrefixPrefix(a: seq<Event>, b: seq<Event>, o: Outcome)
    ensures Prefix(a, Prefix(b, o)) == Prefix(a + b, o)
  {
    assert a + (b + o.events) == a + b + o.events;
  }

  /** One step of the field loop of an object check. */
  lemma FieldsStep(tp: TestProviders.TestProvider, fields: seq<(Key, Desc)>, given: seq<(Key, Value)>, keys: seq<Key>, i: nat)
    requires i < |keys|
    requires forall k :: k in keys ==> k in KeysOf(fields) && k in KeysOf(given)
    ensures keys[i] in KeysOf(fields) && keys[i] in KeysOf(given)
    ensures var t := Trace(tp, FieldName(keys[i]), fields[IndexOf(fields, keys[i]).value].1, At(given, keys[i]));
            FieldsTrace(tp, fields, given, keys[i..]) ==
              if t.err.Some? then t else Prefix(t.events, FieldsTrace(tp, fields, given, keys[i + 1..]))
  {
    assert keys[i..][0] == keys[i] && keys[i..][1..] == keys[i + 1..];
  }

  /** One step of the field loop of an object-equality check. */
  lemma EqualStep(fixture: seq<(Key, Value)>, given: seq<(Key, Value)>, keys: seq<Key>, i: nat)
    requires i < |keys|
    requires forall k :: k in keys ==> k in KeysOf(fixture) && k in KeysOf(given)
    ensures keys[i] in KeysOf(fixture) && keys[i] in KeysOf(given)
    ensures EqualNotes(fixture, given, keys[i..]) ==
              [CmpEvent(FieldName(keys[i]), Eq, At(fixture, keys[i]), At(given, keys[i]))] +
              EqualNotes(fixture, given, keys[i + 1..])
  {
    assert keys[i..][0] == keys[i] && keys[i..][1..] == keys[i + 1..];
  }

  /** One step of the item loop of an array check. */
  lemma ItemsStep(tp: TestProviders.TestProvider, items: seq<Desc>, n: nat, rest: seq<Value>)
    requires n < |items|
    ensures var t := Trace(tp, ItemName(n), items[n], First(rest));
            ItemsTrace(tp, items, n, rest) ==
              if t.err.Some? then t else Prefix(t.events, ItemsTrace(tp, items, n + 1, Shifted(rest)))
  {
  }

  // ---------------------------------------------------------------------------------
  // Properties of the checks

  /** An unrecognised type tag throws before recording anything. */
  lemma UnknownRecordsNothing(tp: TestProviders.TestProvider, name: string, tag: string, given: Value)
    ensures Trace(tp, name, Unknown(tag), given) == Outcome([], Some(UnknownCheckType(tag)))
  {
  }

  /** A basic check records exactly one note, passing iff `given op val`, and opens no
      section. */
  lemma CmpRecordsOneNote(tp: TestProviders.TestProvider, name: string, op: Op, val: Value, given: Value)
    ensures var o := Trace(tp, name, Cmp(op, val), given);
            o.err.None? && |o.events| == 1 && o.events[0].Note? && o.events[0].ok == Eval(op, given, val)
  {
  }

  /** The events keep the section stack: every event is a note. */
  predicate AllNotes(es: seq<Event>)
  {
    forall i :: 0 <= i < |es| ==> es[i].Note?
  }

  lemma {:induction false} NotesKeepStack(c: Cursor, es: seq<Event>)
    requires Wf(c) && AllNotes(es)
    ensures Replay(c, es).Some? && Replay(c, es).value.mst == c.mst
    decreases |es|
  {
    if es != [] {
      var c2 := Step(c, es[0]).value;
      assert AllNotes(es[1..]) by {
        forall i | 0 <= i < |es[1..]| ensures es[1..][i].Note? {
          assert es[1..][i] == es[i + 1];
        }
      }
      NotesKeepStack(c2, es[1..]);
    }
  }

  /** Replaying `o` from `c` succeeds; without an exception it ends with the section stack
      of `c`, and after one the stack of `c` is still its bottom part. */
  predicate Balanced(c: Cursor, o: Outcome)
    requires Wf(c)
  {
    && Replay(c, o.events).Some?
    && (o.err.None? ==> Replay(c, o.events).value.mst == c.mst)
    && (o.err.Some? ==> |Replay(c, o.events).value.mst| >= |c.mst| &&
                        Replay(c, o.events).value.mst[..|c.mst|] == c.mst)
  }

  lemma PrefixBalanced(c: Cursor, es: seq<Event>, c1: Cursor, o: Outcome)
    requires Wf(c) && AllNotes(es) && Replay(c, es) == Some(c1)
    requires Balanced(c1, o)
    ensures Balanced(c, Prefix(es, o))
  {
    NotesKeepStack(c, es);
    ReplayConcat(c, es, o.events);
  }

  /** A check that throws leaves the sections it opened open (their `endSection` is
      never reached), but never closes one it did not open; a check that completes
      leaves the section stack as it found it. */
  lemma {:induction false} TraceBalanced(tp: TestProviders.TestProvider, name: string, d: Desc, given: Value, c: Cursor)
    requires Wf(c)
    ensures Balanced(c, Trace(tp, name, d, given))
    decreases d, 2, 0
  {
    match d
    case Cmp(op, val) =>
      NotesKeepStack(c, Trace(tp, name, d, given).events);
    case Unknown(tag) =>
    case Obj(fields) =>
      var h := name + " type Object";
      var c1 := Step(c, Open(h)).value;
      ObjectBalanced(tp, name, fields, given, c1);
      EncloseBalanced(c, h, ObjectTrace(tp, name, fields, given));
    case ObjEq(path) =>
      var h := name + " type Object";
      var c1 := Step(c, Open(h)).value;
      ObjectEqualBalanced(tp, name, path, given, c1);
      EncloseBalanced(c, h, ObjectEqualTrace(tp, name, path, given));
    case Arr(items) =>
      var h := name + " type Array";
      var c1 := Step(c, Open(h)).value;
      ArrayBalanced(tp, name, items, given, c1);
      EncloseBalanced(c, h, ArrayTrace(tp, name, items, given));
  }

  lemma EncloseBalanced(c: Cursor, h: string, o: Outcome)
    requires Wf(c)
    requires Balanced(Step(c, Open(h)).value, o)
    ensures Balanced(c, Enclose(h, o))
  {
    var c1 := Step(c, Open(h)).value;
    EncloseReplay(c, h, o);
    var c2 := Replay(c1, o.events).value;
    if o.err.None? {
      assert Replay(c2, [Close]) == Step(c2, Close);
    } else {
      assert c2.mst[..|c.mst|] == c2.mst[..|c1.mst|][..|c.mst|];
    }
  }

  /** An enclosed outcome replays as the opening, then the outcome's calls, then the
      closing when nothing was thrown. */
  lemma EncloseReplay(c: Cursor, h: string, o: Outcome)
    requires Wf(c) && Step(c, Open(h)).Some? && Replay(Step(c, Open(h)).value, o.events).Some?
    ensures var c1 := Step(c, Open(h)).value;
            var c2 := Replay(c1, o.events).value;
            Replay(c, Enclose(h, o).events) == if o.err.None? then Replay(c2, [Close]) else Some(c2)
  {
    var es := o.events;
    if o.err.None? {
      EnclosedCalls(h, es, [Close]);
      ReplayCons(c, Open(h), es + [Close]);
      ReplayConcat(Step(c, Open(h)).value, es, [Close]);
    } else {
      EnclosedCalls(h, es, []);
      ReplayCons(c, Open(h), es);
    }
  }

  lemma EnclosedCalls(h: string, es: seq<Event>, tail: seq<Event>)
    ensures [Open(h)] + es + tail == [Open(h)] + (es + tail)
    ensures tail == [] ==> es + tail == es
  {
  }

  lemma {:induction false} ObjectBalanced(tp: TestProviders.TestProvider, name: string, fields: seq<(Key, Desc)>, given: Value, c: Cursor)
    requires Wf(c)
    ensures Balanced(c, ObjectTrace(tp, name, fields, given))
    decreases Obj(fields), 1, 0
  {
    if !given.Dict? {
      NotesKeepStack(c, [NotObjectNote(name)]);
    } else {
      var exp := KeysOf(fields);
      var giv := KeysOf(given.entries);
      var notes := DiffNotes(name, exp, giv);
      var fs := FieldsTrace(tp, fields, given.entries, Inter(giv, exp));
      assert ObjectTrace(tp, name, fields, given) == Prefix(notes, fs);
      DiffNotesAreNotes(name, exp, giv);
      NotesKeepStack(c, notes);
      var c1 := Replay(c, notes).value;
      FieldsBalanced(tp, fields, given.entries, Inter(giv, exp), c1);
      PrefixBalanced(c, notes, c1, fs);
    }
  }

  lemma {:induction false} FieldsBalanced(tp: TestProviders.TestProvider, fields: seq<(Key, Desc)>,
                                          given: seq<(Key, Value)>, keys: seq<Key>, c: Cursor)
    requires Wf(c)
    requires forall k :: k in keys ==> k in KeysOf(fields) && k in KeysOf(given)
    ensures Balanced(c, FieldsTrace(tp, fields, given, keys))
    decreases Obj(fields), 0, |keys|
  {
    if keys != [] {
      var k := keys[0];
      var j := IndexOf(fields, k).value;
      var t := Trace(tp, FieldName(k), fields[j].1, At(given, k));
      TraceBalanced(tp, FieldName(k), fields[j].1, At(given, k), c);
      if t.err.None? {
        var c2 := Replay(c, t.events).value;
        FieldsBalanced(tp, fields, given, keys[1..], c2);
        ReplayConcat(c, t.events, FieldsTrace(tp, fields, given, keys[1..]).events);
      }
    }
  }

  lemma ObjectEqualBalanced(tp: TestProviders.TestProvider, name: string, path: seq<Key>, given: Value, c: Cursor)
    requires Wf(c)
    ensures Balanced(c, ObjectEqualTrace(tp, name, path, given))
  {
    var o := ObjectEqualTrace(tp, name, path, given);
    ObjectEqualRecordsNotes(tp, name, path, given);
    if o.err.None? {
      NotesKeepStack(c, o.events);
    } else {
      assert c.mst[..|c.mst|] == c.mst;
    }
  }

  /** An object-equality check records only notes, and nothing at all when the fixture
      lookup throws or finds no array. */
  lemma ObjectEqualRecordsNotes(tp: TestProviders.TestProvider, name: string, path: seq<Key>, given: Value)
    ensures var o := ObjectEqualTrace(tp, name, path, given);
            (o.err.None? ==> AllNotes(o.events)) && (o.err.Some? ==> o.events == [])
  {
    if given.Dict? && tp.Dp(path).Ok? && tp.Dp(path).value.Dict? {
      var fixture := tp.Dp(path).value;
      var exp := KeysOf(fixture.entries);
      var giv := KeysOf(given.entries);
      EqualNotesAreNotes(fixture.entries, given.entries, Inter(giv, exp));
      DiffNotesAreNotes(name, exp, giv);
      AllNotesConcat(DiffNotes(name, exp, giv), EqualNotes(fixture.entries, given.entries, Inter(giv, exp)));
    }
  }

  lemma DiffNotesAreNotes(name: string, exp: seq<Key>, giv: seq<Key>)
    ensures AllNotes(DiffNotes(name, exp, giv))
  {
  }

  lemma AllNotesConcat(a: seq<Event>, b: seq<Event>)
    requires AllNotes(a) && AllNotes(b)
    ensures AllNotes(a + b)
  {
    assert forall i :: 0 <= i < |a + b| ==> (a + b)[i] == if i < |a| then a[i] else b[i - |a|];
  }

  lemma {:induction false} EqualNotesAreNotes(fixture: seq<(Key, Value)>, given: seq<(Key, Value)>, keys: seq<Key>)
    requires forall k :: k in keys ==> k in KeysOf(fixture) && k in KeysOf(given)
    ensures AllNotes(EqualNotes(fixture, given, keys))
    ensures forall i :: 0 <= i < |keys| ==>
              EqualNotes(fixture, given, keys)[i].ok == Eval(Eq, At(given, keys[i]), At(fixture, keys[i]))
    decreases |keys|
  {
    if keys != [] {
      EqualNotesAreNotes(fixture, given, keys[1..]);
      var es := EqualNotes(fixture, given, keys);
      var tail := EqualNotes(fixture, given, keys[1..]);
      forall i | 0 <= i < |es|
        ensures es[i].Note? && es[i].ok == Eval(Eq, At(given, keys[i]), At(fixture, keys[i]))
      {
        if i > 0 {
          assert es[i] == tail[i - 1] && keys[i] == keys[1..][i - 1];
        }
      }
    }
  }

  lemma {:induction false} ArrayBalanced(tp: TestProviders.TestProvider, name: string, items: seq<Desc>, given: Value, c: Cursor)
    requires Wf(c)
    ensures Balanced(c, ArrayTrace(tp, name, items, given))
    decreases Arr(items), 1, 0
  {
    var o := ArrayTrace(tp, name, items, given);
    if !given.Dict? || |items| == 0 {
      NotesKeepStack(c, o.events);
    } else {
      var pass := Note(true, name + " type check pass, array given");
      var empty := if |given.entries| == 0 then [Note(false, name + " fails: given is an empty array")] else [];
      var notes := [pass] + empty;
      assert AllNotes(notes);
      NotesKeepStack(c, notes);
      var c1 := Replay(c, notes).value;
      ItemsBalanced(tp, items, 0, ValuesOf(given.entries), c1);
      PrefixBalanced(c, notes, c1, ItemsTrace(tp, items, 0, ValuesOf(given.entries)));
    }
  }

  lemma {:induction false} ItemsBalanced(tp: TestProviders.TestProvider, items: seq<Desc>, n: nat, rest: seq<Value>, c: Cursor)
    requires Wf(c) && n <= |items|
    ensures Balanced(c, ItemsTrace(tp, items, n, rest))
    decreases Arr(items), 0, |items| - n
  {
    if n < |items| {
      var item := First(rest);
      var t := Trace(tp, ItemName(n), items[n], item);
      TraceBalanced(tp, ItemName(n), items[n], item, c);
      if t.err.None? {
        var rest' := Shifted(rest);
        var c2 := Replay(c, t.events).value;
        ItemsBalanced(tp, items, n + 1, rest', c2);
        ReplayConcat(c, t.events, ItemsTrace(tp, items, n + 1, rest').events);
      }
    }
  }

  // ---------------------------------------------------------------------------------
  // Comparisons

  lemma {:induction false} StrLessStrict(a: string, b: string)
    ensures !(StrLess(a, b) && StrLess(b, a))
    ensures a != b ==> StrLess(a, b) || StrLess(b, a)
    decreases |a|
  {
    if a != [] && b != [] && a[0] == b[0] {
      StrLessStrict(a[1..], b[1..]);
    }
  }

  /** On scalars the operators are mirror images: `a > b` holds exactly when `b < a`
      does, `a >= b` exactly when `b <= a`, equality is symmetric, and two values of one
      kind satisfy exactly one of `<`, `==`, `>`. */
  lemma ScalarOrderMirrors(a: Value, b: Value)
    requires !a.Dict? && !b.Dict?
    ensures Eval(Gt, a, b) == Eval(Lt, b, a)
    ensures Eval(Ge, a, b) == Eval(Le, b, a)
    ensures Eval(Eq, a, b) == Eval(Eq, b, a)
    ensures Eval(Ne, a, b) == !Eval(Eq, a, b)
    ensures Order(a, b).Some? ==>
              (if Eval(Lt, a, b) then 1 else 0) + (if Eval(Eq, a, b) then 1 else 0) +
              (if Eval(Gt, a, b) then 1 else 0) == 1
  {
    if a.Text? && b.Text? {
      StrLessStrict(a.s, b.s);
    }
  }

  // ---------------------------------------------------------------------------------
  // Key comparison of object checks

  lemma NotesDiffer(name: string, l1: string, j1: string, l2: string, j2: string)
    requires |l1| > 8 && |l2| > 8 && l1[8] != l2[8]
    ensures Note(false, name + l1 + j1) != Note(false, name + l2 + j2)
  {
    assert (name + l1 + j1)[|name| + 8] == l1[8];
    assert (name + l2 + j2)[|name| + 8] == l2[8];
  }

  lemma DiffNotesDistinct(name: string, excess: seq<Key>, missing: seq<Key>, exp: seq<Key>)
    ensures ExcessNote(name, excess) != MissingNote(name, missing)
    ensures ExcessNote(name, excess) != DisjointNote(name, exp)
    ensures MissingNote(name, missing) != DisjointNote(name, exp)
  {
    NotesDiffer(name, " fails: excess fields of answer : ", Join(",", excess),
                " fails: missing fields of answer : ", Join(",", missing));
    NotesDiffer(name, " fails: excess fields of answer : ", Join(",", excess),
                " fails: answer dont have any of expected fields : ", Join(",", exp));
    NotesDiffer(name, " fails: missing fields of answer : ", Join(",", missing),
                " fails: answer dont have any of expected fields : ", Join(",", exp));
  }

  lemma InThree(x: Event, m: Event, j: Event, hx: bool, hm: bool, hj: bool)
    requires x != m && x != j && m != j
    ensures var d := (if hx then [x] else []) + (if hm then [m] else []) + (if hj then [j] else []);
            (x in d <==> hx) && (m in d <==> hm) && (j in d <==> hj) && (d == [] <==> !hx && !hm && !hj)
  {
  }

  lemma NonEmptyWitness(s: seq<Key>)
    ensures |s| > 0 <==> exists k :: k in s
  {
    if |s| > 0 {
      assert s[0] in s;
    }
  }

  /** An object check's key comparison records only failing notes: the excess-fields
      note exactly when the given object has a key not expected, the missing-fields
      note exactly when an expected key is absent, the no-common-field note exactly when
      no given key is expected. */
  lemma DiffNotesFailing(name: string, exp: seq<Key>, giv: seq<Key>)
    ensures var d := DiffNotes(name, exp, giv);
            forall i :: 0 <= i < |d| ==> d[i].Note? && !d[i].ok
  {
  }

  lemma DiffNotesSpec(name: string, exp: seq<Key>, giv: seq<Key>)
    ensures ExcessNote(name, Minus(giv, exp)) in DiffNotes(name, exp, giv) <==>
              exists k :: k in giv && k !in exp
    ensures MissingNote(name, Minus(exp, giv)) in DiffNotes(name, exp, giv) <==>
              exists k :: k in exp && k !in giv
    ensures DisjointNote(name, exp) in DiffNotes(name, exp, giv) <==>
              forall k :: k in giv ==> k !in exp
  {
    var excess := Minus(giv, exp);
    var missing := Minus(exp, giv);
    var same := Inter(giv, exp);
    DiffNotesDistinct(name, excess, missing, exp);
    InThree(ExcessNote(name, excess), MissingNote(name, missing), DisjointNote(name, exp),
            |excess| > 0, |missing| > 0, |same| == 0);
    NonEmptyWitness(excess);
    NonEmptyWitness(missing);
    NonEmptyWitness(same);
  }

  /** ... so it records nothing exactly when both have the same keys and the given
      object has at least one. */
  lemma DiffNotesNone(name: string, exp: seq<Key>, giv: seq<Key>)
    ensures DiffNotes(name, exp, giv) == [] <==> (forall k :: k in giv <==> k in exp) && giv != []
  {
    var excess := Minus(giv, exp);
    var missing := Minus(exp, giv);
    var same := Inter(giv, exp);
    DiffNotesDistinct(name, excess, missing, exp);
    InThree(ExcessNote(name, excess), MissingNote(name, missing), DisjointNote(name, exp),
            |excess| > 0, |missing| > 0, |same| == 0);
    NonEmptyWitness(excess);
    NonEmptyWitness(missing);
    NonEmptyWitness(same);
    NonEmptyWitness(giv);
    assert (|excess| == 0 && |missing| == 0) <==> (forall k :: k in giv <==> k in exp);
  }

  // ---------------------------------------------------------------------------------
  // Array checks

  /** The first `k` values of `vs`, padded with null: what the `k` item checks see. */
  function Aligned(vs: seq<Value>, k: nat): (r: seq<Value>)
    ensures |r| == k
    ensures forall i :: 0 <= i < k ==> r[i] == if i < |vs| then vs[i] else Null
  {
    seq(k, i requires 0 <= i < k => if i < |vs| then vs[i] else Null)
  }

  /** Item `n + i` is checked against the `i`-th remaining value, or null once they run
      out; values beyond the expected items are never looked at. */
  lemma {:induction false} ItemsAligned(tp: TestProviders.TestProvider, items: seq<Desc>, n: nat, rest: seq<Value>)
    requires n <= |items|
    ensures ItemsTrace(tp, items, n, rest) == ItemsTrace(tp, items, n, Aligned(rest, |items| - n))
    decreases |items| - n, 1
  {
    if n < |items| {
      ItemsAlignedStep(tp, items, n, rest);
    }
  }

  /** One item of `ItemsAligned`: both see the same first value, and the remaining
      values line up by induction. */
  lemma {:induction false} ItemsAlignedStep(tp: TestProviders.TestProvider, items: seq<Desc>, n: nat, rest: seq<Value>)
    requires n < |items|
    ensures ItemsTrace(tp, items, n, rest) == ItemsTrace(tp, items, n, Aligned(rest, |items| - n))
    decreases |items| - n, 0
  {
    var a := Aligned(rest, |items| - n);
    var rest' := Shifted(rest);
    ItemsAligned(tp, items, n + 1, rest');
    AlignedTail(rest, |items| - n);
    ItemsSameHead(tp, items, n, rest, a);
  }

  /** Taking one value off the front commutes with padding. */
  lemma AlignedTail(vs: seq<Value>, k: nat)
    requires k > 0
    ensures First(Aligned(vs, k)) == First(vs)
    ensures Shifted(Aligned(vs, k)) == Aligned(Shifted(vs), k - 1)
  {
    var a := Aligned(vs, k);
    assert a != [] && a[0] == First(vs);
    assert a[1..] == Aligned(Shifted(vs), k - 1);
  }

  /** Two runs of the item loop that see the same next value and agree from the next
      item on agree from this item on. */
  lemma ItemsSameHead(tp: TestProviders.TestProvider, items: seq<Desc>, n: nat, r1: seq<Value>, r2: seq<Value>)
    requires n < |items|
    requires First(r1) == First(r2)
    requires ItemsTrace(tp, items, n + 1, Shifted(r1)) ==
             ItemsTrace(tp, items, n + 1, Shifted(r2))
    ensures ItemsTrace(tp, items, n, r1) == ItemsTrace(tp, items, n, r2)
  {
  }

  /** An array check looks at the given array's values only, and only at the first as
      many as there are item expectations (and whether the array is empty): two arrays
      that agree on those are checked alike, whatever their keys or further values. */
  lemma ArrayReadsLeadingValues(tp: TestProviders.TestProvider, name: string, items: seq<Desc>,
                                g1: seq<(Key, Value)>, g2: seq<(Key, Value)>)
    requires (|g1| == 0) == (|g2| == 0)
    requires Aligned(ValuesOf(g1), |items|) == Aligned(ValuesOf(g2), |items|)
    ensures Trace(tp, name, Arr(items), Dict(g1)) == Trace(tp, name, Arr(items), Dict(g2))
  {
    ItemsAligned(tp, items, 0, ValuesOf(g1));
    ItemsAligned(tp, items, 0, ValuesOf(g2));
    assert ArrayTrace(tp, name, items, Dict(g1)) == ArrayTrace(tp, name, items, Dict(g2));
  }

  /** An array check on an empty array checks every expected item against null, after
      a failing note; on a non-array it records one failing note inside its section. */
  lemma ArrayEdgeCases(tp: TestProviders.TestProvider, name: string, items: seq<Desc>, given: Value)
    ensures !given.Dict? ==>
              Trace(tp, name, Arr(items), given) ==
              Outcome([Open(name + " type Array"), Note(false, name + " fails: given value is not array"), Close], None)
    ensures given == Dict([]) && items != [] ==>
              && ArrayTrace(tp, name, items, given).events[1] == Note(false, name + " fails: given is an empty array")
              && ArrayTrace(tp, name, items, given) ==
                 Prefix(ArrayTrace(tp, name, items, given).events[..2],
                        ItemsTrace(tp, items, 0, seq(|items|, _ => Null)))
  {
    if given == Dict([]) && items != [] {
      ItemsAligned(tp, items, 0, []);
      assert Aligned([], |items|) == seq(|items|, _ => Null);
    }
  }

  /** An array check with no item expectations only records that it was given an
      array. */
  lemma ArrayNoItems(tp: TestProviders.TestProvider, name: string, g: seq<(Key, Value)>)
    ensures Trace(tp, name, Arr([]), Dict(g)) ==
              Outcome([Open(name + " type Array"), Note(true, name + " type check pass, array given"), Close], None)
  {
  }

  /** An object check, plain or against a fixture, on a value that is not an array
      records one failing note inside its section and goes no further: no key
      comparison, no fixture lookup. */
  lemma ObjectNotArray(tp: TestProviders.TestProvider, name: string, fields: seq<(Key, Desc)>, path: seq<Key>, given: Value)
    requires !given.Dict?
    ensures Trace(tp, name, Obj(fields), given) ==
              Outcome([Open(name + " type Object"), NotObjectNote(name), Close], None)
    ensures Trace(tp, name, ObjEq(path), given) ==
              Outcome([Open(name + " type Object"), NotObjectNote(name), Close], None)
  {
  }

  /** The events of a check inside a section are those of its body, one place later. */
  lemma EnclosedEvents(h: string, o: Outcome)
    ensures forall i :: 0 <= i < |o.events| ==> Enclose(h, o).events[i + 1] == o.events[i]
    ensures AllPass(Enclose(h, o).events) ==> AllPass(o.events)
  {
    var es := Enclose(h, o).events;
    assert forall i :: 0 <= i < |o.events| ==> es[i + 1] == o.events[i];
    if AllPass(es) {
      forall i | 0 <= i < |o.events| && o.events[i].Note? ensures o.events[i].ok {
        assert es[i + 1] == o.events[i];
      }
    }
  }

  /** A check of an array that records no failing note and throws nothing was given an
      array, and a non-empty one whenever items are expected. */
  lemma ArrayPassing(tp: TestProviders.TestProvider, name: string, items: seq<Desc>, given: Value)
    ensures AllPass(Trace(tp, name, Arr(items), given).events) ==>
              given.Dict? && (|items| > 0 ==> |given.entries| > 0)
  {
    var o := ArrayTrace(tp, name, items, given);
    EnclosedEvents(name + " type Array", o);
    if !given.Dict? {
      assert o.events[0] == Note(false, name + " fails: given value is not array");
    } else if |items| > 0 && |given.entries| == 0 {
      assert o.events[1] == Note(false, name + " fails: given is an empty array");
    }
  }

  // ---------------------------------------------------------------------------------
  // Object checks

  /** A check of an object that records no failing note was given an array with exactly
      the expected keys, at least one of them. */
  lemma ObjectPassing(tp: TestProviders.TestProvider, name: string, fields: seq<(Key, Desc)>, given: Value)
    ensures AllPass(Trace(tp, name, Obj(fields), given).events) ==>
              && given.Dict?
              && (forall k :: k in KeysOf(given.entries) <==> k in KeysOf(fields))
              && given.entries != []
  {
    var o := ObjectTrace(tp, name, fields, given);
    EnclosedEvents(name + " type Object", o);
    if !given.Dict? {
      assert o.events[0] == NotObjectNote(name);
    } else {
      var exp := KeysOf(fields);
      var giv := KeysOf(given.entries);
      var d := DiffNotes(name, exp, giv);
      DiffNotesFailing(name, exp, giv);
      DiffNotesNone(name, exp, giv);
      if d != [] {
        assert o.events[0] == d[0];
      } else {
        assert forall k :: k in KeysOf(given.entries) <==> k in giv;
      }
    }
  }

  /** The expectation `object_equal` builds from a fixture: `==` its value, per key. */
  function EqFields(fixture: seq<(Key, Value)>): (r: seq<(Key, Desc)>)
    ensures |r| == |fixture|
    ensures forall i :: 0 <= i < |r| ==> r[i] == (fixture[i].0, Cmp(Eq, fixture[i].1))
    ensures KeysOf(r) == KeysOf(fixture)
  {
    seq(|fixture|, i requires 0 <= i < |fixture| => (fixture[i].0, Cmp(Eq, fixture[i].1)))
  }

  lemma IndexOfSameKeys<V, W>(a: seq<(Key, V)>, b: seq<(Key, W)>, k: Key)
    requires KeysOf(a) == KeysOf(b)
    ensures IndexOf(a, k) == IndexOf(b, k)
  {
    if IndexOf(a, k).Some? {
      var i, j := IndexOf(a, k).value, IndexOf(b, k).value;
      assert KeysOf(a)[i] == k && KeysOf(b)[j] == k;
      if i < j {
        assert false;
      } else if j < i {
        assert false;
      }
    }
  }

  lemma {:induction false} EqualNotesAsFields(tp: TestProviders.TestProvider, fixture: seq<(Key, Value)>,
                                              given: seq<(Key, Value)>, keys: seq<Key>)
    requires forall k :: k in keys ==> k in KeysOf(fixture) && k in KeysOf(given)
    ensures FieldsTrace(tp, EqFields(fixture), given, keys) == Outcome(EqualNotes(fixture, given, keys), None)
    decreases |keys|
  {
    if keys != [] {
      IndexOfSameKeys(EqFields(fixture), fixture, keys[0]);
      EqualNotesAsFields(tp, fixture, given, keys[1..]);
    }
  }

  /** `object_equal` with a path to an array fixture checks exactly as `object` does with
      an `==` expectation per fixture field: the same section, the same key comparison,
      the same notes. */
  lemma ObjectEqualIsObjectOfEquals(tp: TestProviders.TestProvider, name: string, path: seq<Key>, given: Value)
    requires tp.Dp(path).Ok? && tp.Dp(path).value.Dict?
    ensures Trace(tp, name, ObjEq(path), given) == Trace(tp, name, Obj(EqFields(tp.Dp(path).value.entries)), given)
  {
    var e := tp.Dp(path).value.entries;
    if given.Dict? {
      ObjectOfEquals(tp, name, path, given.entries);
    } else {
      assert ObjectTrace(tp, name, EqFields(e), given) == ObjectEqualTrace(tp, name, path, given);
    }
    var o := ObjectEqualTrace(tp, name, path, given);
    assert Trace(tp, name, ObjEq(path), given) == Enclose(name + " type Object", o);
    assert Trace(tp, name, Obj(EqFields(e)), given) == Enclose(name + " type Object", o);
  }

  /** The array case: both compare the keys and then each common field with `==`. */
  lemma ObjectOfEquals(tp: TestProviders.TestProvider, name: string, path: seq<Key>, g: seq<(Key, Value)>)
    requires tp.Dp(path).Ok? && tp.Dp(path).value.Dict?
    ensures ObjectTrace(tp, name, EqFields(tp.Dp(path).value.entries), Dict(g)) == ObjectEqualTrace(tp, name, path, Dict(g))
  {
    var e := tp.Dp(path).value.entries;
    var same := Inter(KeysOf(g), KeysOf(e));
    EqualNotesAsFields(tp, e, g, same);
    var o := Outcome(DiffNotes(name, KeysOf(e), KeysOf(g)) + EqualNotes(e, g, same), None);
    assert ObjectEqualTrace(tp, name, path, Dict(g)) == o;
    assert ObjectTrace(tp, name, EqFields(e), Dict(g)) == o;
  }

  /** `object_equal` throws the lookup's exception when the path does not lead to a
      value, and throws when it leads to a scalar, both before recording anything. */
  lemma ObjectEqualFixtureErrors(tp: TestProviders.TestProvider, name: string, path: seq<Key>, given: Value)
    requires given.Dict?
    ensures tp.Dp(path).Err? ==>
              Trace(tp, name, ObjEq(path), given) == Outcome([Open(name + " type Object")], Some(tp.Dp(path).failure))
    ensures tp.Dp(path).Ok? && !tp.Dp(path).value.Dict? ==>
              Trace(tp, name, ObjEq(path), given) == Outcome([Open(name + " type Object")], Some(FixtureNotAnArray))
  {
  }
}
