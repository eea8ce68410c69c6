/** The fixture store: nested key-path lookup over static test data. */
module DataProviders {
  import opened Common

  /** The log of consumed keys the lookup carries for its error message: "/k1/k2...". */
  function LogPath(steps: seq<Key>): (log: string)
    ensures log == "" <==> steps == []
  {
    if steps == [] then "" else LogPath(steps[..|steps| - 1]) + "/" + steps[|steps| - 1]
  }

  /** Descends from `v` along `path`, one key per nesting level, left to right; `done`
      is the part of the path consumed before `v` was reached, and names the position
      in an error. */
  function Walk(v: Value, path: seq<Key>, done: seq<Key>): (r: Try<Value>)
    ensures path == [] ==> r == Ok(v)
    ensures r.Err? ==> (r.failure.DataElementNotFound? || r.failure.NotAnArray?) && r.failure.step in path
    decreases |path|
  {
    if path == [] then Ok(v)
    else if !v.Dict? then Err(NotAnArray(path[0], LogPath(done)))
    else if path[0] !in KeysOf(v.entries) then Err(DataElementNotFound(path[0], LogPath(done)))
    else Walk(At(v.entries, path[0]), path[1..], done + [path[0]])
  }

  datatype DataProvider = DataProvider(data: Value)
  {
    /** What `get(...$path)` returns or throws. */
    function Lookup(path: seq<Key>): Try<Value>
    {
      Walk(data, path, [])
    }

    /** `get(...$path)`: walks the stored data step by step, keeping the consumed path
        in `log`, and stops at the first missing key. The stored data is a constant:
        nothing here changes it. */
    method Get(path: seq<Key>) returns (r: Try<Value>)
      ensures r == Lookup(path)
    {
      var cur := data;
      var log := "";
      var i := 0;
      while i < |path|
        invariant 0 <= i <= |path|
        invariant log == LogPath(path[..i])
        invariant Walk(data, path, []) == Walk(cur, path[i..], path[..i])
      {
        var step := path[i];
        if !cur.Dict? {
          return Err(NotAnArray(step, log));
        }
        if step !in KeysOf(cur.entries) {
          return Err(DataElementNotFound(step, log));
        }
        assert path[i..][1..] == path[i + 1..];
        assert path[..i] + [step] == path[..i + 1];
        log := log + "/" + step;
        cur := At(cur.entries, step);
        i := i + 1;
      }
      assert path[i..] == [];
      return Ok(cur);
    }
  }

  /** An empty path yields the whole stored data. */
  lemma LookupEmptyPath(dp: DataProvider)
    ensures dp.Lookup([]) == Ok(dp.data)
  {
  }

  /** Lookup composes: walking `p + q` is walking `p`, then walking `q` from where `p`
      ended, and fails exactly when one of the two parts fails. */
  lemma {:induction false} WalkConcat(v: Value, p: seq<Key>, q: seq<Key>, done: seq<Key>)
    ensures Walk(v, p + q, done) ==
      if Walk(v, p, done).Ok? then Walk(Walk(v, p, done).value, q, done + p) else Walk(v, p, done)
    decreases |p|
  {
    if p == [] {
      assert p + q == q;
      assert done + p == done;
    } else {
      assert (p + q)[0] == p[0];
      assert (p + q)[1..] == p[1..] + q;
      if v.Dict? && p[0] in KeysOf(v.entries) {
        WalkConcat(At(v.entries, p[0]), p[1..], q, done + [p[0]]);
        assert done + [p[0]] + p[1..] == done + p;
      }
    }
  }

  /** Corollary of WalkConcat for the provider: `get(p ++ q)` is `get(q)` inside `get(p)`,
      with the error log continuing from `p`. */
  lemma LookupConcat(dp: DataProvider, p: seq<Key>, q: seq<Key>)
    ensures dp.Lookup(p + q) ==
      if dp.Lookup(p).Ok? then Walk(dp.Lookup(p).value, q, p) else dp.Lookup(p)
  {
    WalkConcat(dp.data, p, q, []);
    assert [] + p == p;
  }

  /** Each step descends into the value stored at that key: one more key on the path
      selects that key inside the value the shorter path reached. */
  lemma LookupStep(dp: DataProvider, p: seq<Key>, k: Key)
    requires dp.Lookup(p).Ok? && dp.Lookup(p).value.Dict?
    requires k in KeysOf(dp.Lookup(p).value.entries)
    ensures dp.Lookup(p + [k]) == Ok(At(dp.Lookup(p).value.entries, k))
  {
    LookupConcat(dp, p, [k]);
  }

  /** The walk along `path` from `v` reaches, after its first `i` keys, an array that
      lacks key `k = path[i]`, and `log` names those first `i` keys. */
  predicate WalkFailsAt(v: Value, path: seq<Key>, done: seq<Key>, k: Key, log: string, i: int)
  {
    0 <= i < |path| && k == path[i] && log == LogPath(done + path[..i]) &&
    Walk(v, path[..i], done).Ok? && Walk(v, path[..i], done).value.Dict? &&
    k !in KeysOf(Walk(v, path[..i], done).value.entries)
  }

  /** A missing key is reported by name, together with the log of the keys consumed
      before it, and the consumed prefix indeed resolved to an array lacking that key. */
  lemma {:induction false} WalkNotFound(v: Value, path: seq<Key>, done: seq<Key>, k: Key, log: string)
    requires Walk(v, path, done) == Err(DataElementNotFound(k, log))
    ensures exists i :: WalkFailsAt(v, path, done, k, log, i)
    decreases |path|
  {
    assert path != [];
    if v.Dict? && path[0] !in KeysOf(v.entries) {
      assert path[..0] == [] && done + path[..0] == done;
      assert Walk(v, path[..0], done) == Ok(v);
      assert WalkFailsAt(v, path, done, k, log, 0);
    } else {
      var w := At(v.entries, path[0]);
      var rest, d2 := path[1..], done + [path[0]];
      assert Walk(w, rest, d2) == Walk(v, path, done);
      WalkNotFound(w, rest, d2, k, log);
      var i :| WalkFailsAt(w, rest, d2, k, log, i);
      FailsOneDeeper(v, path, done, k, log, i);
    }
  }

  /** A failure at step `i` below the first key is a failure at step `i + 1` from the
      top. */
  lemma FailsOneDeeper(v: Value, path: seq<Key>, done: seq<Key>, k: Key, log: string, i: nat)
    requires path != [] && v.Dict? && path[0] in KeysOf(v.entries)
    requires WalkFailsAt(At(v.entries, path[0]), path[1..], done + [path[0]], k, log, i)
    ensures WalkFailsAt(v, path, done, k, log, i + 1)
  {
    var w := At(v.entries, path[0]);
    var rest, d2 := path[1..], done + [path[0]];
    var pre := path[..i + 1];
    assert pre != [] && pre[0] == path[0] && pre[1..] == rest[..i];
    assert d2 + rest[..i] == done + pre;
    assert Walk(v, pre, done) == Walk(w, rest[..i], d2);
  }

  /** For the provider: `get` fails naming a key of the path, with the log of the keys
      before it, which is empty exactly when the failing key is the first one. */
  lemma LookupNotFound(dp: DataProvider, path: seq<Key>, k: Key, log: string)
    requires dp.Lookup(path) == Err(DataElementNotFound(k, log))
    ensures exists i :: (0 <= i < |path| && k == path[i] && log == LogPath(path[..i]) &&
                         (log == "" <==> i == 0) &&
                         dp.Lookup(path[..i]).Ok? && dp.Lookup(path[..i]).value.Dict? &&
                         k !in KeysOf(dp.Lookup(path[..i]).value.entries))
  {
    WalkNotFound(dp.data, path, [], k, log);
    var i :| WalkFailsAt(dp.data, path, [], k, log, i);
    assert [] + path[..i] == path[..i];
  }
}
