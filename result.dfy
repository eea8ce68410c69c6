/** The result collector: one current test at a time, sealed into the ledger by the next
    `start`. */
module Collector {
  import opened Common
  import opened Notes
  import opened Ledgers
  import Rendering

  class Result {
    var tests: map<string, TestRecord>
    var success: seq<string>
    var fails: seq<string>
    var res: Option<bool>        // None until the first start
    var id: string
    var name: string
    var msgs: seq<Msg>
    var mst: seq<nat>            // path of child indices to the innermost open section
    var level: nat
    ghost var starts: seq<(string, string)>   // every (name, id) passed to start, in order

    ghost predicate Valid()
      reads this
    {
      && level == |mst|
      && ValidPath(msgs, mst)
      && Consistent(Sealed())
    }

    /** The ledger fields. */
    function Sealed(): Ledger
      reads this
    {
      Ledger(tests, success, fails)
    }

    /** The current test as the record the next start would seal. */
    function Current(): Option<TestRecord>
      reads this
    {
      if res.Some? then Some(TestRecord(id, name, res.value, msgs)) else None
    }

    /** Result, tree and section stack of the current test. */
    function Cur(): Cursor
      reads this
      requires res.Some?
    {
      Cursor(res.value, msgs, mst)
    }

    /** What the matcher and the per-test bodies never change. */
    ghost function Kept(): (Ledger, string, string, seq<(string, string)>)
      reads this
    {
      (Sealed(), id, name, starts)
    }

    constructor ()
      ensures Valid() && Sealed() == Empty && res.None? && starts == []
    {
      tests, success, fails := map[], [], [];
      res, id, name := None, "", "";
      msgs, mst, level := [], [], 0;
      starts := [];
    }

    /** `start($name, $id)`: seals the current test when there is one and its id is not
        empty, then opens a new passing test with no messages and only the root section. */
    method Start(name: string, id: string)
      requires Valid()
      modifies this
      ensures Valid()
      ensures Sealed() == Seal(old(Sealed()), old(Current()))
      ensures this.id == id && this.name == name
      ensures res == Some(true) && msgs == [] && mst == [] && level == 0
      ensures Cur() == Fresh
      ensures starts == old(starts) + [(name, id)]
    {
      if res.Some? && this.id != "" {
        tests := tests[this.id := TestRecord(this.id, this.name, res.value, msgs)];
        if res.value {
          success := success + [this.id];
        } else {
          fails := fails + [this.id];
        }
      }
      this.id := id;
      this.name := name;
      res := Some(true);
      msgs := [];
      mst := [];
      level := 0;
      starts := starts + [(name, id)];
    }

    /** `note($res, $msg)`: appends the note to the innermost open section; a failing
        note makes the test's result false, and a passing one leaves it as it was. */
    method Note(ok: bool, msg: string)
      requires Valid() && res.Some?
      modifies this
      ensures Valid() && res.Some? && Kept() == old(Kept())
      ensures res == Some(old(res.value) && ok)
      ensures mst == old(mst) && level == old(level)
      ensures ChildrenAt(msgs, mst) == old(ChildrenAt(msgs, mst)) + [Leaf(ok, msg)]
      ensures Step(old(Cur()), Event.Note(ok, msg)) == Some(Cur())
    {
      msgs := AppendAt(msgs, mst, Leaf(ok, msg));
      if !ok {
        res := Some(ok);
      }
    }

    /** `startSection($header)`: appends an empty section to the innermost open one and
        makes it the innermost. */
    method StartSection(header: string)
      requires Valid() && res.Some?
      modifies this
      ensures Valid() && res.Some? && Kept() == old(Kept())
      ensures res == old(res) && level == old(level) + 1
      ensures mst == old(mst) + [|old(ChildrenAt(msgs, mst))|]
      ensures ValidPath(msgs, old(mst))
      ensures ChildrenAt(msgs, old(mst)) == old(ChildrenAt(msgs, mst)) + [Section(header, [])]
      ensures ChildrenAt(msgs, mst) == []
      ensures Step(old(Cur()), Open(header)) == Some(Cur())
    {
      var cnt := |ChildrenAt(msgs, mst)|;
      msgs := AppendAt(msgs, mst, Section(header, []));
      level := level + 1;
      ValidExtend(msgs, mst, cnt);
      mst := mst + [cnt];
    }

    /** `endSection()`: at level 0 throws (`ok` false, nothing changes); otherwise leaves
        the innermost section and goes back to the enclosing one. */
    method EndSection() returns (ok: bool)
      requires Valid() && res.Some?
      modifies this
      ensures Valid() && res.Some? && Kept() == old(Kept())
      ensures ok <==> old(level) > 0
      ensures !ok ==> Cur() == old(Cur()) && level == old(level)
      ensures ok ==> level == old(level) - 1 && mst == old(mst)[..old(level) - 1] && msgs == old(msgs)
      ensures ok ==> Step(old(Cur()), Close) == Some(Cur())
      ensures res == old(res)
    {
      if level == 0 {
        return false;
      }
      ValidPrefix(msgs, mst, |mst| - 1);
      mst := mst[..|mst| - 1];
      level := level - 1;
      return true;
    }

    /** `getStatus()`: the current test's result (null before the first start); reads
        only. */
    function GetStatus(): (r: Option<bool>)
      reads this
      ensures r == res
      ensures r.Some? ==> r == Some(Cur().res)
    {
      res
    }

    /** The collector calls a per-test body makes, in order; `ok` is false when one of
        them is an `endSection` that throws, and then the calls after it are not made. */
    method Perform(es: seq<Event>) returns (ok: bool)
      requires Valid() && res.Some?
      modifies this
      ensures Valid() && res.Some? && Kept() == old(Kept())
      ensures ok <==> Replay(old(Cur()), es).Some?
      ensures ok ==> Replay(old(Cur()), es) == Some(Cur())
    {
      var i := 0;
      while i < |es|
        invariant 0 <= i <= |es|
        invariant Valid() && res.Some? && Kept() == old(Kept())
        invariant Replay(old(Cur()), es) == Replay(Cur(), es[i..])
      {
        assert es[i..][0] == es[i] && es[i..][1..] == es[i + 1..];
        match es[i] {
          case Note(b, msg) =>
            Note(b, msg);
          case Open(h) =>
            StartSection(h);
          case Close =>
            var closed := EndSection();
            if !closed {
              return false;
            }
        }
        i := i + 1;
      }
      assert es[i..] == [];
      return true;
    }

    /** `show($depth)`: the report of the sealed tests; verbose when `depth` is
        "verbose". */
    function Show(depth: string): (r: string)
      reads this
      requires Valid()
      ensures depth != "verbose" ==> r == Rendering.Render(Ledger(tests, success, fails), false)
      ensures depth == "verbose" ==> r == Rendering.Render(Ledger(tests, success, fails), true)
      ensures |r| >= |Rendering.Totals(Sealed())| && r[..|Rendering.Totals(Sealed())|] == Rendering.Totals(Sealed())
    {
      Rendering.Render(Sealed(), depth == "verbose")
    }
  }

  /** A test's result after a sequence of calls is the conjunction of every note
      recorded since it started: once false, it stays false. */
  lemma ResultIsConjunction(es: seq<Event>)
    requires Replay(Fresh, es).Some?
    ensures Replay(Fresh, es).value.res == AllPass(es)
    ensures !AllPass(es) ==> forall more :: Replay(Fresh, es + more).Some? ==> !Replay(Fresh, es + more).value.res
  {
    ReplayResult(Fresh, es);
    forall more | Replay(Fresh, es + more).Some?
      ensures !AllPass(es) ==> !Replay(Fresh, es + more).value.res
    {
      ReplayResult(Fresh, es + more);
      if !AllPass(es) {
        var i :| 0 <= i < |es| && es[i].Note? && !es[i].ok;
        assert (es + more)[i] == es[i];
      }
    }
  }
}
