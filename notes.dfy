/** The message tree of one test and the section cursor into it.

    A test's messages form a tree: a leaf is a note `(passed, message)`, an inner node
    is a section header with its own list of messages. The section stack is the path of
    child indices from the root list to the innermost open section; appending always
    happens at the end of the list that path names. */
module Notes {
  import opened Common

  datatype Msg = Leaf(ok: bool, text: string) | Section(header: string, children: seq<Msg>)

  /** `p` names a chain of sections, one child index per nesting level, from `t` down. */
  predicate ValidPath(t: seq<Msg>, p: seq<nat>)
    decreases |p|
  {
    p == [] || (p[0] < |t| && t[p[0]].Section? && ValidPath(t[p[0]].children, p[1..]))
  }

  /** The message list of the section `p` names (the root list for the empty path). */
  function ChildrenAt(t: seq<Msg>, p: seq<nat>): seq<Msg>
    requires ValidPath(t, p)
    decreases |p|
  {
    if p == [] then t else ChildrenAt(t[p[0]].children, p[1..])
  }

  /** Appends `m` to the section `p` names and to no other list: the path stays valid,
      its list gains `m` at its end, and every message off the path is untouched. */
  function AppendAt(t: seq<Msg>, p: seq<nat>, m: Msg): (r: seq<Msg>)
    requires ValidPath(t, p)
    ensures ValidPath(r, p)
    ensures ChildrenAt(r, p) == ChildrenAt(t, p) + [m]
    ensures p != [] ==> |r| == |t| && forall j :: 0 <= j < |t| && j != p[0] ==> r[j] == t[j]
    ensures p != [] ==> r[p[0]].header == t[p[0]].header
    decreases |p|
  {
    if p == [] then t + [m]
    else
      var s := t[p[0]];
      t[p[0] := Section(s.header, AppendAt(s.children, p[1..], m))]
  }

  /** Appending below `p` leaves every list that is not on the path to `p` untouched:
      any section whose path is not a prefix of `p` is still there with the same
      messages. */
  lemma {:induction false} AppendAtFrame(t: seq<Msg>, p: seq<nat>, m: Msg, q: seq<nat>)
    requires ValidPath(t, p) && ValidPath(t, q) && !(q <= p)
    ensures ValidPath(AppendAt(t, p, m), q)
    ensures ChildrenAt(AppendAt(t, p, m), q) == ChildrenAt(t, q)
    decreases |q|
  {
    var r := AppendAt(t, p, m);
    if p == [] || q[0] != p[0] {
      assert r[q[0]] == t[q[0]];
    } else {
      assert !(q[1..] <= p[1..]);
      AppendAtFrame(t[p[0]].children, p[1..], m, q[1..]);
    }
  }

  /** On the path itself, each enclosing list keeps its length and every entry but the
      one the path descends into; that one keeps its header. */
  lemma {:induction false} AppendAtOnPath(t: seq<Msg>, p: seq<nat>, m: Msg, k: nat)
    requires ValidPath(t, p) && k < |p|
    ensures ValidPrefixes(t, p, k) && ValidPrefixes(AppendAt(t, p, m), p, k)
    ensures var before := ChildrenAt(t, p[..k]);
            var after := ChildrenAt(AppendAt(t, p, m), p[..k]);
            && p[k] < |before| && before[p[k]].Section?
            && |after| == |before|
            && (forall j :: 0 <= j < |before| && j != p[k] ==> after[j] == before[j])
            && after[p[k]].Section? && after[p[k]].header == before[p[k]].header
    decreases k
  {
    ValidPrefix(t, p, k);
    ValidPrefix(AppendAt(t, p, m), p, k);
    if k > 0 {
      AppendAtOnPath(t[p[0]].children, p[1..], m, k - 1);
      assert p[..k][1..] == p[1..][..k - 1];
    }
  }

  /** Both prefixes the on-path lemma talks about are valid paths. */
  predicate ValidPrefixes(t: seq<Msg>, p: seq<nat>, k: nat)
  {
    k <= |p| && ValidPath(t, p[..k])
  }

  /** Every prefix of a valid path is valid: the enclosing sections stay addressable. */
  lemma {:induction false} ValidPrefix(t: seq<Msg>, p: seq<nat>, k: nat)
    requires ValidPath(t, p) && k <= |p|
    ensures ValidPath(t, p[..k])
    decreases |p|
  {
    if k > 0 {
      ValidPrefix(t[p[0]].children, p[1..], k - 1);
      assert p[..k][1..] == p[1..][..k - 1];
    }
  }

  /** A path extended by the index of a section in the list it names is valid, and
      names that section's children. */
  lemma {:induction false} ValidExtend(t: seq<Msg>, p: seq<nat>, n: nat)
    requires ValidPath(t, p)
    requires n < |ChildrenAt(t, p)| && ChildrenAt(t, p)[n].Section?
    ensures ValidPath(t, p + [n])
    ensures ChildrenAt(t, p + [n]) == ChildrenAt(t, p)[n].children
    decreases |p|
  {
    if p == [] {
      assert [] + [n] == [n];
      assert [n][1..] == [];
    } else {
      ValidExtend(t[p[0]].children, p[1..], n);
      assert (p + [n])[1..] == p[1..] + [n];
    }
  }

  /** The collector calls the matcher makes, in order. */
  datatype Event = Note(ok: bool, msg: string) | Open(header: string) | Close

  /** The state of the current test: its overall result, its tree, its section stack. */
  datatype Cursor = Cursor(res: bool, msgs: seq<Msg>, mst: seq<nat>)

  predicate Wf(c: Cursor)
  {
    ValidPath(c.msgs, c.mst)
  }

  /** A freshly started test: passing, no messages, only the root open. */
  const Fresh := Cursor(true, [], [])

  /** One collector call; `None` is the exception `endSection` throws at the root.
      A note goes to the innermost open section and a failing note makes the result
      false for good; a section opens as an empty child of the innermost one and
      becomes the innermost; closing returns to the enclosing one. */
  function Step(c: Cursor, e: Event): (r: Option<Cursor>)
    requires Wf(c)
    ensures r.Some? ==> Wf(r.value)
    ensures r.None? <==> e.Close? && c.mst == []
    ensures r.Some? ==> ValidPath(r.value.msgs, c.mst)
    ensures r.Some? && e.Note? ==>
              && r.value.mst == c.mst
              && r.value.res == (c.res && e.ok)
              && ChildrenAt(r.value.msgs, c.mst) == ChildrenAt(c.msgs, c.mst) + [Leaf(e.ok, e.msg)]
    ensures r.Some? && e.Open? ==>
              && r.value.res == c.res
              && r.value.mst == c.mst + [|ChildrenAt(c.msgs, c.mst)|]
              && ChildrenAt(r.value.msgs, c.mst) == ChildrenAt(c.msgs, c.mst) + [Section(e.header, [])]
              && ChildrenAt(r.value.msgs, r.value.mst) == []
    ensures r.Some? && e.Close? ==>
              && r.value.res == c.res
              && r.value.msgs == c.msgs
              && r.value.mst == c.mst[..|c.mst| - 1]
  {
    match e
    case Note(ok, msg) =>
      Some(Cursor(c.res && ok, AppendAt(c.msgs, c.mst, Leaf(ok, msg)), c.mst))
    case Open(h) =>
      var n := |ChildrenAt(c.msgs, c.mst)|;
      var t := AppendAt(c.msgs, c.mst, Section(h, []));
      ValidExtend(t, c.mst, n);
      Some(Cursor(c.res, t, c.mst + [n]))
    case Close =>
      if c.mst == [] then None
      else
        ValidPrefix(c.msgs, c.mst, |c.mst| - 1);
        Some(Cursor(c.res, c.msgs, c.mst[..|c.mst| - 1]))
  }

  /** A note or a new section changes only the innermost open section's list and the
      lists enclosing it: every other section keeps its messages. */
  lemma StepFrame(c: Cursor, e: Event, q: seq<nat>)
    requires Wf(c) && !e.Close? && ValidPath(c.msgs, q) && !(q <= c.mst)
    ensures ValidPath(Step(c, e).value.msgs, q)
    ensures ChildrenAt(Step(c, e).value.msgs, q) == ChildrenAt(c.msgs, q)
  {
    match e
    case Note(ok, msg) => AppendAtFrame(c.msgs, c.mst, Leaf(ok, msg), q);
    case Open(h) => AppendAtFrame(c.msgs, c.mst, Section(h, []), q);
  }

  /** A sequence of collector calls from `c`; `None` if one of them throws. */
  function Replay(c: Cursor, es: seq<Event>): (r: Option<Cursor>)
    requires Wf(c)
    ensures r.Some? ==> Wf(r.value)
    decreases |es|
  {
    if es == [] then Some(c)
    else
      match Step(c, es[0])
      case None => None
      case Some(c2) => Replay(c2, es[1..])
  }

  /** A replay that starts with a call that succeeds goes on from where that call left. */
  lemma ReplayCons(c: Cursor, e: Event, es: seq<Event>)
    requires Wf(c) && Step(c, e).Some?
    ensures Replay(c, [e] + es) == Replay(Step(c, e).value, es)
  {
    assert ([e] + es)[0] == e && ([e] + es)[1..] == es;
  }

  /** Replaying two sequences one after the other is replaying their concatenation. */
  lemma {:induction false} ReplayConcat(c: Cursor, a: seq<Event>, b: seq<Event>)
    requires Wf(c)
    ensures Replay(c, a + b) == if Replay(c, a).Some? then Replay(Replay(c, a).value, b) else None
    decreases |a|
  {
    if a == [] {
      assert a + b == b;
    } else {
      assert (a + b)[0] == a[0] && (a + b)[1..] == a[1..] + b;
      if Step(c, a[0]).Some? {
        ReplayConcat(Step(c, a[0]).value, a[1..], b);
      }
    }
  }

  /** Every note among the events passed. */
  predicate AllPass(es: seq<Event>)
  {
    forall i :: 0 <= i < |es| && es[i].Note? ==> es[i].ok
  }

  /** The overall result is the conjunction of the result before and every note since:
      one failing note makes it false, and no later note makes it true again. */
  lemma {:induction false} ReplayResult(c: Cursor, es: seq<Event>)
    requires Wf(c) && Replay(c, es).Some?
    ensures Replay(c, es).value.res == (c.res && AllPass(es))
    decreases |es|
  {
    if es != [] {
      var c2 := Step(c, es[0]).value;
      ReplayResult(c2, es[1..]);
      if AllPass(es) {
        assert forall i :: 0 <= i < |es[1..]| ==> es[1..][i] == es[i + 1];
      } else {
        var i :| 0 <= i < |es| && es[i].Note? && !es[i].ok;
        if i > 0 {
          assert es[1..][i - 1] == es[i];
        }
      }
    }
  }

  /** `Opens(hs)`: a `startSection` per header, in order. */
  function Opens(hs: seq<string>): (es: seq<Event>)
    ensures |es| == |hs| && forall i :: 0 <= i < |hs| ==> es[i] == Open(hs[i])
  {
    if hs == [] then [] else [Open(hs[0])] + Opens(hs[1..])
  }

  /** `Closes(n)`: `n` calls of `endSection`. */
  function Closes(n: nat): (es: seq<Event>)
    ensures |es| == n && forall i :: 0 <= i < n ==> es[i] == Close
  {
    if n == 0 then [] else [Close] + Closes(n - 1)
  }

  /** N `startSection` calls deepen the stack by N and keep the outer part of it. */
  lemma {:induction false} OpensDeepen(c: Cursor, hs: seq<string>)
    requires Wf(c)
    ensures Replay(c, Opens(hs)).Some?
    ensures |Replay(c, Opens(hs)).value.mst| == |c.mst| + |hs|
    ensures Replay(c, Opens(hs)).value.mst[..|c.mst|] == c.mst
    ensures Replay(c, Opens(hs)).value.res == c.res
    decreases |hs|
  {
    if hs != [] {
      var c2 := Step(c, Open(hs[0])).value;
      OpensDeepen(c2, hs[1..]);
      assert Opens(hs)[0] == Open(hs[0]) && Opens(hs)[1..] == Opens(hs[1..]);
      var c3 := Replay(c2, Opens(hs[1..])).value;
      assert c3.mst[..|c.mst|] == c3.mst[..|c2.mst|][..|c.mst|];
    }
  }

  /** `endSection` pops one level per call while the stack has one, and the first call
      beyond the root throws. */
  lemma {:induction false} ClosesPop(c: Cursor, n: nat)
    requires Wf(c)
    ensures Replay(c, Closes(n)).Some? <==> n <= |c.mst|
    ensures n <= |c.mst| ==> Replay(c, Closes(n)).value == Cursor(c.res, c.msgs, c.mst[..|c.mst| - n])
    decreases n
  {
    if n > 0 {
      assert Closes(n)[0] == Close && Closes(n)[1..] == Closes(n - 1);
      if c.mst != [] {
        var c2 := Step(c, Close).value;
        ClosesPop(c2, n - 1);
        if n <= |c.mst| {
          assert c2.mst[..|c2.mst| - (n - 1)] == c.mst[..|c.mst| - n];
        }
      }
    } else {
      assert c.mst[..|c.mst|] == c.mst;
    }
  }

  /** Section depth is balanced: N `startSection` then N `endSection` calls restore the
      section stack exactly (the new sections stay in the tree). */
  lemma {:induction false} SectionsBalance(c: Cursor, hs: seq<string>)
    requires Wf(c)
    ensures Replay(c, Opens(hs) + Closes(|hs|)).Some?
    ensures Replay(c, Opens(hs) + Closes(|hs|)).value.mst == c.mst
  {
    OpensDeepen(c, hs);
    var c1 := Replay(c, Opens(hs)).value;
    assert Replay(c, Opens(hs)) == Some(c1);
    ClosesPop(c1, |hs|);
    assert c1.mst[..|c1.mst| - |hs|] == c.mst;
    BalanceAt(c, Opens(hs), Closes(|hs|), c1);
  }

  /** One `endSection` more than the levels open (those before plus the N new ones)
      throws. */
  lemma {:induction false} SectionsUnderflow(c: Cursor, hs: seq<string>)
    requires Wf(c)
    ensures Replay(c, Opens(hs) + Closes(|hs| + |c.mst| + 1)).None?
  {
    OpensDeepen(c, hs);
    var c1 := Replay(c, Opens(hs)).value;
    assert Replay(c, Opens(hs)) == Some(c1);
    var m := |hs| + |c.mst| + 1;
    assert m > |c1.mst|;
    ClosesPop(c1, m);
    assert Replay(c1, Closes(m)).None?;
    BalanceAt(c, Opens(hs), Closes(m), c1);
  }

  lemma {:induction false} BalanceAt(c: Cursor, a: seq<Event>, b: seq<Event>, c1: Cursor)
    requires Wf(c) && Replay(c, a) == Some(c1)
    ensures Replay(c, a + b) == Replay(c1, b)
  {
    ReplayConcat(c, a, b);
  }
}
