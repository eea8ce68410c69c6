/** Values the framework passes around: PHP scalars and PHP arrays (ordered key/value
    lists, which serve both as lists and as objects), the exceptions the core raises,
    and the small string helpers the messages are built from. */
module Common {

  type Key = string

  datatype Option<T> = None | Some(value: T)

  /** A value decoded from an API answer or stored as fixture data. `Dict` is a PHP
      array: `is_array` accepts it whether its keys are positions or names. */
  datatype Value =
    | Null
    | Boolean(b: bool)
    | Integer(i: int)
    | Text(s: string)
    | Dict(entries: seq<(Key, Value)>)

  /** The exceptions thrown by the core (PHP `\Exception` and the TypeErrors the
      interpreter raises on a bad argument). */
  datatype Failure =
    | UnknownCheckType(tag: string)               // Test.php:223
    | DataElementNotFound(step: Key, log: string) // DataProvider.php:48-51
    | NotAnArray(step: Key, log: string)          // array_key_exists on a scalar
    | UndefinedDataElement(name: string)          // TestProvider.php:60
    | FixtureNotAnArray                           // array_keys on a scalar fixture
    | SectionImbalance                            // Result.php:120

  datatype Try<T> = Ok(value: T) | Err(failure: Failure)

  /** Text of the exception. */
  function Message(f: Failure): string
  {
    match f
    case UnknownCheckType(tag) => "Unknown check type : " + tag
    case DataElementNotFound(step, log) =>
      "data element '" + step + "' not found" + (if log == "" then "" else ", log path : " + log)
    case NotAnArray(step, log) =>
      "array_key_exists(): Argument #2 ($array) must be of type array"
    case UndefinedDataElement(name) => "undefined data element : " + name
    case FixtureNotAnArray => "array_keys(): Argument #1 ($array) must be of type array"
    case SectionImbalance =>
      "Error nesting sections - endSection without corresponded startSection"
  }

  /** `array_keys`: the keys of an ordered key/value list, in order. */
  function KeysOf<V>(entries: seq<(Key, V)>): (ks: seq<Key>)
    ensures |ks| == |entries|
    ensures forall i :: 0 <= i < |entries| ==> ks[i] == entries[i].0
  {
    seq(|entries|, i requires 0 <= i < |entries| => entries[i].0)
  }

  /** `array_values`: the values of an ordered key/value list, in order. */
  function ValuesOf<V>(entries: seq<(Key, V)>): (vs: seq<V>)
    ensures |vs| == |entries|
    ensures forall i :: 0 <= i < |entries| ==> vs[i] == entries[i].1
  {
    seq(|entries|, i requires 0 <= i < |entries| => entries[i].1)
  }

  /** A PHP array never repeats a key. */
  predicate UniqueKeys<V>(entries: seq<(Key, V)>)
  {
    forall i, j :: 0 <= i < j < |entries| ==> entries[i].0 != entries[j].0
  }

  /** Position of key `k`, the first one if the list repeats it. */
  function IndexOf<V>(entries: seq<(Key, V)>, k: Key): (r: Option<nat>)
    ensures r.None? <==> k !in KeysOf(entries)
    ensures r.Some? ==> r.value < |entries| && entries[r.value].0 == k
    ensures r.Some? ==> forall j :: 0 <= j < r.value ==> entries[j].0 != k
  {
    if |entries| == 0 then None
    else if entries[0].0 == k then Some(0)
    else
      match IndexOf(entries[1..], k)
      case None => None
      case Some(j) => Some(j + 1)
  }

  /** `$array[$k]` for a key known to be present. */
  function At<V>(entries: seq<(Key, V)>, k: Key): V
    requires k in KeysOf(entries)
  {
    entries[IndexOf(entries, k).value].1
  }

  /** No key occurs twice. */
  predicate Distinct(ks: seq<Key>)
  {
    forall i, j :: 0 <= i < j < |ks| ==> ks[i] != ks[j]
  }

  /** `r` is `a` with some entries dropped and the rest kept in their order: entry `i`
      of `r` is entry `idx[i]` of `a`, for strictly increasing positions `idx`. */
  ghost predicate OrderedIn(r: seq<Key>, a: seq<Key>)
  {
    exists idx: seq<nat> :: IndexMap(idx, r, a)
  }

  predicate IndexMap(idx: seq<nat>, r: seq<Key>, a: seq<Key>)
  {
    && |idx| == |r|
    && (forall i :: 0 <= i < |idx| ==> idx[i] < |a| && a[idx[i]] == r[i])
    && (forall i, j :: 0 <= i < j < |idx| ==> idx[i] < idx[j])
  }

  /** An index map into `a[1..]` shifted by one is an index map into `a`, and so is one
      that first takes `a[0]`. */
  lemma IndexMapShift(idx: seq<nat>, r: seq<Key>, a: seq<Key>, keepHead: bool)
    requires a != [] && IndexMap(idx, r, a[1..])
    ensures keepHead ==> IndexMap([0] + seq(|idx|, i requires 0 <= i < |idx| => idx[i] + 1), [a[0]] + r, a)
    ensures !keepHead ==> IndexMap(seq(|idx|, i requires 0 <= i < |idx| => idx[i] + 1), r, a)
  {
  }

  /** `array_diff($a, $b)` on key lists: the keys of `a` that `b` lacks, in `a`'s order. */
  function Minus(a: seq<Key>, b: seq<Key>): (r: seq<Key>)
    ensures forall k :: k in r <==> k in a && k !in b
    ensures |r| <= |a|
    ensures Distinct(a) ==> Distinct(r)
  {
    if a == [] then []
    else if a[0] in b then Minus(a[1..], b)
    else [a[0]] + Minus(a[1..], b)
  }

  /** `array_intersect($a, $b)` on key lists: the keys of `a` that `b` has, in `a`'s order. */
  function Inter(a: seq<Key>, b: seq<Key>): (r: seq<Key>)
    ensures forall k :: k in r <==> k in a && k in b
    ensures |r| <= |a|
    ensures Distinct(a) ==> Distinct(r)
  {
    if a == [] then []
    else if a[0] in b then [a[0]] + Inter(a[1..], b)
    else Inter(a[1..], b)
  }

  /** Both key diffs keep the order of their first list: `array_diff` and
      `array_intersect` only drop entries. */
  lemma {:induction false} DiffsOrdered(a: seq<Key>, b: seq<Key>)
    ensures OrderedIn(Minus(a, b), a)
    ensures OrderedIn(Inter(a, b), a)
    decreases |a|
  {
    if a == [] {
      assert IndexMap([], Minus(a, b), a);
      assert IndexMap([], Inter(a, b), a);
    } else {
      DiffsOrdered(a[1..], b);
      var im :| IndexMap(im, Minus(a[1..], b), a[1..]);
      var ii :| IndexMap(ii, Inter(a[1..], b), a[1..]);
      IndexMapShift(im, Minus(a[1..], b), a, a[0] !in b);
      IndexMapShift(ii, Inter(a[1..], b), a, a[0] in b);
    }
  }

  /** `join($sep, $parts)`. */
  function Join(sep: string, parts: seq<string>): string
  {
    if |parts| == 0 then ""
    else if |parts| == 1 then parts[0]
    else parts[0] + sep + Join(sep, parts[1..])
  }

  function Digit(d: nat): char
    requires d < 10
  {
    "0123456789"[d]
  }

  /** Decimal representation of a natural number. */
  function NatToString(n: nat): (r: string)
    ensures |r| >= 1
    ensures forall i :: 0 <= i < |r| ==> '0' <= r[i] <= '9'
  {
    if n < 10 then [Digit(n)] else NatToString(n / 10) + [Digit(n % 10)]
  }

  function IntToString(i: int): string
  {
    if i < 0 then "-" + NatToString(-i) else NatToString(i)
  }

  /** String conversion of a value (`"..." . $val`): `true` is "1", `false` and `null`
      are empty, an array is "Array". */
  function PhpString(v: Value): string
  {
    match v
    case Null => ""
    case Boolean(b) => if b then "1" else ""
    case Integer(i) => IntToString(i)
    case Text(s) => s
    case Dict(_) => "Array"
  }

  /** Literal representation of a value in the manner of `var_export` (single line). */
  function Export(v: Value): string
  {
    match v
    case Null => "NULL"
    case Boolean(b) => if b then "true" else "false"
    case Integer(i) => IntToString(i)
    case Text(s) => "'" + s + "'"
    case Dict(entries) =>
      "array (" + Join("", seq(|entries|, i requires 0 <= i < |entries| =>
                                 "'" + entries[i].0 + "' => " + Export(entries[i].1) + ", ")) + ")"
  }
}
