/** The text report of a run: totals, then the failed tests, then the passed ones,
    each optionally with its message tree. */
module Rendering {
  import opened Common
  import opened Notes
  import opened Ledgers

  /** Longest message shown, in characters, trim marker included. */
  const MSG_MAXLEN: nat := 200
  const TRIM_MARKER := "..."

  function NewlineCount(s: string): nat
  {
    if s == [] then 0 else (if s[0] == '\n' then 1 else 0) + NewlineCount(s[1..])
  }

  /** Each newline of a message becomes the two characters backslash and `n`, so that
      the message fits on one line. */
  function Escape(s: string): (r: string)
    ensures forall i :: 0 <= i < |r| ==> r[i] != '\n'
    ensures |r| == |s| + NewlineCount(s)
    ensures NewlineCount(s) == 0 ==> r == s
    ensures |s| == 1 ==> r == if s[0] == '\n' then "\\n" else s
  {
    if s == [] then ""
    else (if s[0] == '\n' then "\\n" else [s[0]]) + Escape(s[1..])
  }

  /** Escaping works character by character: together with the one-character case of
      `Escape`'s contract, each newline becomes backslash-n and every other character
      stays, in order. */
  lemma {:induction false} EscapeConcat(a: string, b: string)
    ensures Escape(a + b) == Escape(a) + Escape(b)
    decreases |a|
  {
    if a == [] {
      assert a + b == b;
    } else {
      assert (a + b)[0] == a[0] && (a + b)[1..] == a[1..] + b;
      EscapeConcat(a[1..], b);
    }
  }

  /** `mb_strimwidth($s, 0, MSG_MAXLEN, "...")`, one column per character: a message
      that fits is kept, a longer one is cut so that with the marker it fills the width. */
  function Trim(s: string): (r: string)
    ensures |r| <= MSG_MAXLEN
    ensures |s| <= MSG_MAXLEN ==> r == s
    ensures |s| > MSG_MAXLEN ==>
              && |r| == MSG_MAXLEN
              && r[..MSG_MAXLEN - |TRIM_MARKER|] == s[..MSG_MAXLEN - |TRIM_MARKER|]
              && r[MSG_MAXLEN - |TRIM_MARKER|..] == TRIM_MARKER
  {
    if |s| <= MSG_MAXLEN then s else s[..MSG_MAXLEN - |TRIM_MARKER|] + TRIM_MARKER
  }

  function Tabs(n: nat): (r: string)
    ensures |r| == n && forall i :: 0 <= i < n ==> r[i] == '\t'
  {
    if n == 0 then "" else "\t" + Tabs(n - 1)
  }

  /** `showmsg`: a section header on its own line, indented one tab per nesting level,
      then its messages one level deeper; a note only when its flag equals the test's
      result `res`, with "+ " or "- " in front. */
  function ShowMsg(m: Msg, res: bool, level: nat): (r: string)
    ensures r == "" <==> m.Leaf? && m.ok != res
    decreases m
  {
    match m
    case Section(header, children) =>
      "\n\t\t" + Tabs(level) + header + ShowMsgs(children, res, level + 1)
    case Leaf(ok, text) =>
      if res == ok then "\n\t\t" + Tabs(level) + (if res then "+ " else "- ") + Trim(Escape(text))
      else ""
  }

  /** The messages of one list in order; nothing at all exactly when every one of them
      is a note whose flag differs from the test's result. */
  function ShowMsgs(ms: seq<Msg>, res: bool, level: nat): (r: string)
    ensures r == "" <==> forall i :: 0 <= i < |ms| ==> ms[i].Leaf? && ms[i].ok != res
    decreases ms
  {
    if ms == [] then ""
    else
      var r := ShowMsg(ms[0], res, level) + ShowMsgs(ms[1..], res, level);
      assert forall i :: 1 <= i < |ms| ==> ms[i] == ms[1..][i - 1];
      r
  }

  /** `showtest`: the id and name of a test; in verbose mode its messages and a blank
      line after them. */
  function ShowTest(verbose: bool, id: string, rec: TestRecord): (r: string)
    ensures var line := "\n\t" + id + " : " + rec.name;
            |r| >= |line| && r[..|line|] == line && (!verbose ==> r == line)
    ensures verbose ==> r[|r| - 1] == '\n'
  {
    var line := "\n\t" + id + " : " + rec.name;
    var r := line + (if verbose then ShowMsgs(rec.msgs, rec.res, 0) + "\n" else "");
    assert r[..|line|] == line;
    r
  }

  /** The line `showmsg` prints for a section (its header, then its messages one level
      deeper) and for a note it shows ("+ " or "- " and the escaped, trimmed text), each
      after a newline, two tabs and `level` more. */
  lemma MsgLayout(m: Msg, res: bool, level: nat)
    ensures m.Section? ==>
              ShowMsg(m, res, level) == "\n\t\t" + Tabs(level) + m.header + ShowMsgs(m.children, res, level + 1)
    ensures m.Leaf? && m.ok == res ==>
              ShowMsg(m, res, level) == "\n\t\t" + Tabs(level) + (if res then "+ " else "- ") + Trim(Escape(m.text))
  {
  }

  /** The `showmsg` output of each of `ms`, as a list. */
  function MsgLines(ms: seq<Msg>, res: bool, level: nat): seq<string>
  {
    seq(|ms|, i requires 0 <= i < |ms| => ShowMsg(ms[i], res, level))
  }

  /** A list of messages prints each of them in order, all at the same level. */
  lemma {:induction false} ShowMsgsLines(ms: seq<Msg>, res: bool, level: nat)
    ensures ShowMsgs(ms, res, level) == Join("", MsgLines(ms, res, level))
    ensures ms != [] ==> ShowMsgs(ms, res, level) == ShowMsg(ms[0], res, level) + ShowMsgs(ms[1..], res, level)
    decreases |ms|
  {
    if ms != [] {
      ShowMsgsLines(ms[1..], res, level);
      assert MsgLines(ms, res, level)[1..] == MsgLines(ms[1..], res, level);
      if |ms| == 1 {
        assert ShowMsgs(ms[1..], res, level) == "";
      }
    }
  }

  /** A verbose entry is the id line, then the test's messages from level 0 under the
      test's own result, then a newline. */
  lemma VerboseEntry(id: string, rec: TestRecord)
    ensures ShowTest(true, id, rec) ==
              "\n\t" + id + " : " + rec.name + Join("", MsgLines(rec.msgs, rec.res, 0)) + "\n"
  {
    ShowMsgsLines(rec.msgs, rec.res, 0);
  }

  /** The tests `ids`, one `showtest` each, in order. */
  function ShowTests(l: Ledger, ids: seq<string>, verbose: bool): (r: string)
    requires forall i :: 0 <= i < |ids| ==> ids[i] in l.tests
    ensures r == "" <==> ids == []
  {
    if ids == [] then "" else ShowTest(verbose, ids[0], l.tests[ids[0]]) + ShowTests(l, ids[1..], verbose)
  }

  /** The `showtest` output of each of `ids`, as a list. */
  function TestLines(l: Ledger, ids: seq<string>, verbose: bool): seq<string>
    requires forall i :: 0 <= i < |ids| ==> ids[i] in l.tests
  {
    seq(|ids|, i requires 0 <= i < |ids| => ShowTest(verbose, ids[i], l.tests[ids[i]]))
  }

  /** A block lists its tests one after the other, in the order of `ids`; without
      messages each test is the single line "\n\t" id " : " name. */
  lemma {:induction false} ShowTestsLines(l: Ledger, ids: seq<string>, verbose: bool)
    requires forall i :: 0 <= i < |ids| ==> ids[i] in l.tests
    ensures ShowTests(l, ids, verbose) == Join("", TestLines(l, ids, verbose))
    ensures !verbose ==>
              ShowTests(l, ids, verbose) ==
              Join("", seq(|ids|, i requires 0 <= i < |ids| => "\n\t" + ids[i] + " : " + l.tests[ids[i]].name))
    decreases |ids|
  {
    if ids != [] {
      ShowTestsLines(l, ids[1..], verbose);
      var lines := TestLines(l, ids, verbose);
      assert lines[1..] == TestLines(l, ids[1..], verbose);
      if |ids| == 1 {
        assert ShowTests(l, ids[1..], verbose) == "";
      }
      if !verbose {
        assert lines == seq(|ids|, i requires 0 <= i < |ids| => "\n\t" + ids[i] + " : " + l.tests[ids[i]].name);
      }
    }
  }

  /** The totals line: the number of sealed tests, of passed ones and of failed ones. */
  function Totals(l: Ledger): string
  {
    "Total : " + NatToString(|l.tests|) +
    "\nSuccess : " + NatToString(|l.success|) + ", Fails : " + NatToString(|l.fails|)
  }

  const PROBLEMATIC := "\nProblematic:"
  const DONE := "\nDone:"

  /** A titled block listing the tests `ids`; no block at all when there are none. */
  function Block(title: string, l: Ledger, ids: seq<string>, verbose: bool): (r: string)
    requires forall i :: 0 <= i < |ids| ==> ids[i] in l.tests
    ensures r == "" <==> ids == []
    ensures ids != [] ==> |r| > |title| && r[..|title|] == title && r[|title|..] == ShowTests(l, ids, verbose)
  {
    if ids == [] then "" else title + ShowTests(l, ids, verbose)
  }

  /** `show($depth)`: the totals, then a "Problematic:" block listing the failed tests
      only when there are any, then a "Done:" block listing the passed ones only when
      there are any, each block in sealing order. */
  function Render(l: Ledger, verbose: bool): (r: string)
    requires Consistent(l)
    ensures |r| >= |Totals(l)| && r[..|Totals(l)|] == Totals(l)
    ensures r == Totals(l) <==> l.fails == [] && l.success == []
  {
    var r := Totals(l) + Blocks(l, verbose);
    assert r[..|Totals(l)|] == Totals(l);
    r
  }

  /** The failed block, then the passed block. */
  function Blocks(l: Ledger, verbose: bool): string
    requires Consistent(l)
  {
    Block(PROBLEMATIC, l, l.fails, verbose) + Block(DONE, l, l.success, verbose)
  }

  /** What follows the totals is the failed block then the passed block. */
  lemma RenderRest(l: Ledger, verbose: bool)
    requires Consistent(l)
    ensures Render(l, verbose)[|Totals(l)|..] == Block(PROBLEMATIC, l, l.fails, verbose) + Block(DONE, l, l.success, verbose)
  {
    var t := Totals(l);
    var b := Blocks(l, verbose);
    assert (t + b)[|t|..] == b;
  }

  /** A non-empty block is its title followed by the lines of its tests. */
  lemma BlockLines(title: string, l: Ledger, ids: seq<string>, verbose: bool)
    requires forall i :: 0 <= i < |ids| ==> ids[i] in l.tests
    ensures ids != [] ==> Block(title, l, ids, verbose) == title + Join("", TestLines(l, ids, verbose))
  {
    ShowTestsLines(l, ids, verbose);
  }

  /** After the totals come two blocks: the failed tests under "Problematic:", present
      exactly when some test failed, then the passed ones under "Done:", present exactly
      when some test passed, each listing its ids in sealing order. */
  lemma RenderBlocks(l: Ledger, verbose: bool)
    requires Consistent(l)
    ensures var rest := Render(l, verbose)[|Totals(l)|..];
            var p := Block(PROBLEMATIC, l, l.fails, verbose);
            var d := Block(DONE, l, l.success, verbose);
            && rest == p + d
            && (p == "" <==> l.fails == []) && (d == "" <==> l.success == [])
            && (l.fails != [] ==> p == PROBLEMATIC + Join("", TestLines(l, l.fails, verbose)))
            && (l.success != [] ==> d == DONE + Join("", TestLines(l, l.success, verbose)))
  {
    RenderRest(l, verbose);
    BlockLines(PROBLEMATIC, l, l.fails, verbose);
    BlockLines(DONE, l, l.success, verbose);
  }

  /** The messages a verbose report can show for a test with result `res`: the tree with
      every note whose flag differs from `res` removed (sections are kept). */
  function PruneMsg(m: Msg, res: bool): Msg
    decreases m
  {
    match m
    case Leaf(ok, text) => m
    case Section(h, cs) => Section(h, Prune(cs, res))
  }

  function Prune(ms: seq<Msg>, res: bool): seq<Msg>
    decreases ms
  {
    if ms == [] then []
    else if ms[0].Leaf? && ms[0].ok != res then Prune(ms[1..], res)
    else [PruneMsg(ms[0], res)] + Prune(ms[1..], res)
  }

  /** Every note in the tree has flag `res`. */
  predicate OnlyMatching(ms: seq<Msg>, res: bool)
    decreases ms
  {
    forall i :: 0 <= i < |ms| ==>
      match ms[i]
      case Leaf(ok, _) => ok == res
      case Section(_, cs) => OnlyMatching(cs, res)
  }

  lemma {:induction false} ShowMsgsConcat(a: seq<Msg>, b: seq<Msg>, res: bool, level: nat)
    ensures ShowMsgs(a + b, res, level) == ShowMsgs(a, res, level) + ShowMsgs(b, res, level)
    decreases |a|
  {
    if a != [] {
      assert (a + b)[0] == a[0] && (a + b)[1..] == a[1..] + b;
      ShowMsgsConcat(a[1..], b, res, level);
    } else {
      assert a + b == b;
    }
  }

  /** A verbose report shows a test's tree exactly as it would show the pruned tree, and
      the pruned tree holds only notes whose flag is the test's result: for a failed
      test only failing notes appear, for a passed test only passing ones. */
  lemma {:induction false} PrunedShowsTheSame(ms: seq<Msg>, res: bool, level: nat)
    ensures ShowMsgs(ms, res, level) == ShowMsgs(Prune(ms, res), res, level)
    ensures OnlyMatching(Prune(ms, res), res)
    decreases ms
  {
    if ms != [] {
      PrunedShowsTheSame(ms[1..], res, level);
      var m := ms[0];
      if m.Section? {
        PrunedShowsTheSame(m.children, res, level + 1);
      }
      if !(m.Leaf? && m.ok != res) {
        ShowMsgsConcat([PruneMsg(m, res)], Prune(ms[1..], res), res, level);
        assert ShowMsgs([PruneMsg(m, res)], res, level) == ShowMsg(PruneMsg(m, res), res, level);
        var p := [PruneMsg(m, res)] + Prune(ms[1..], res);
        forall i | 0 <= i < |p|
          ensures match p[i]
                  case Leaf(ok, _) => ok == res
                  case Section(_, cs) => OnlyMatching(cs, res)
        {
          if i > 0 {
            assert p[i] == Prune(ms[1..], res)[i - 1];
          }
        }
      }
    }
  }

  lemma {:induction false} ShowTestsQuiet(l1: Ledger, l2: Ledger, ids: seq<string>)
    requires forall i :: 0 <= i < |ids| ==> ids[i] in l1.tests && ids[i] in l2.tests
    requires forall i :: 0 <= i < |ids| ==> l1.tests[ids[i]].name == l2.tests[ids[i]].name
    ensures ShowTests(l1, ids, false) == ShowTests(l2, ids, false)
    decreases |ids|
  {
    if ids != [] {
      ShowTestsQuiet(l1, l2, ids[1..]);
    }
  }

  /** The non-verbose report shows no message at all: two ledgers that agree on their
      size, on the lists of passed and failed ids and on the names of those tests give
      the same text, whatever their message trees and results hold. */
  lemma QuietReportIgnoresMessages(l1: Ledger, l2: Ledger)
    requires Consistent(l1) && Consistent(l2)
    requires |l1.tests| == |l2.tests| && l1.success == l2.success && l1.fails == l2.fails
    requires forall id :: id in l1.tests && id in l2.tests ==> l1.tests[id].name == l2.tests[id].name
    ensures Render(l1, false) == Render(l2, false)
  {
    ShowTestsQuiet(l1, l2, l1.fails);
    ShowTestsQuiet(l1, l2, l1.success);
  }
}
