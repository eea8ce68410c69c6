/** The test catalog: tests by id, named shortcuts into the fixture store. */
module TestProviders {
  import opened Common
  import DataProviders

  /** One test description; the runner reads its "name" entry, the rest is for the
      per-test body. */
  datatype TestCase = TestCase(name: string, data: Value)

  datatype TestProvider = TestProvider(
    data: seq<(string, seq<Key>)>,      // named data elements: name => path in the store
    tests: seq<(string, TestCase)>,     // tests in insertion order: id => description
    dataprov: DataProviders.DataProvider)
  {
    /** `getById($id)`: the test stored under `id`, or null. */
    function GetById(id: string): (r: Option<TestCase>)
      ensures r.Some? <==> id in KeysOf(tests)
      ensures r.Some? ==> exists i :: 0 <= i < |tests| && tests[i] == (id, r.value)
      ensures UniqueKeys(tests) ==> forall i :: 0 <= i < |tests| && tests[i].0 == id ==> r == Some(tests[i].1)
    {
      match IndexOf(tests, id)
      case None => None
      case Some(i) => Some(tests[i].1)
    }

    /** `getAll()`: every (id, test) pair once, in insertion order. */
    function GetAll(): (r: seq<(string, TestCase)>)
      ensures |r| == |tests|
      ensures forall i :: 0 <= i < |r| ==> r[i] == tests[i]
    {
      tests
    }

    /** `dp(...$path)`: the fixture store's lookup of `path`, unchanged. */
    function Dp(path: seq<Key>): (r: Try<Value>)
      ensures r == DataProviders.Walk(dataprov.data, path, [])
    {
      dataprov.Lookup(path)
    }

    /** `__call($name, $args)`: the named shortcut `name` stands for a path prefix in
        `data`; the lookup runs on that prefix followed by `args`. */
    function Call(name: string, args: seq<Key>): (r: Try<Value>)
      ensures name !in KeysOf(data) ==> r == Err(UndefinedDataElement(name))
      ensures name in KeysOf(data) ==> r == Dp(At(data, name) + args)
    {
      if name !in KeysOf(data) then Err(UndefinedDataElement(name))
      else dataprov.Lookup(At(data, name) + args)
    }

    /** What `$this->testprov->dp(...$path)` does when written inside class Test:
        `dp` is protected, so from there it is inaccessible and PHP hands the call to
        `__call("dp", $path)`, a named-shortcut lookup of the name "dp". */
    function DpFromTest(path: seq<Key>): (r: Try<Value>)
      ensures "dp" !in KeysOf(data) ==> r == Err(UndefinedDataElement("dp"))
    {
      Call("dp", path)
    }
  }

  /** A registered shortcut resolves its own prefix first and continues with `args`
      from there; it fails when the prefix does. */
  lemma CallComposes(tp: TestProvider, name: string, args: seq<Key>)
    requires name in KeysOf(tp.data)
    ensures tp.Call(name, args) ==
      if tp.Dp(At(tp.data, name)).Ok?
      then DataProviders.Walk(tp.Dp(At(tp.data, name)).value, args, At(tp.data, name))
      else tp.Dp(At(tp.data, name))
  {
    DataProviders.LookupConcat(tp.dataprov, At(tp.data, name), args);
  }

  /** The call written in Test.php does not reach the fixture store unless the catalog
      happens to register a shortcut named "dp": a catalog without one, whose store
      holds an array, answers every `object_equal` path with an exception, even the
      empty path that `dp` itself resolves. */
  lemma DpFromTestFails(tp: TestProvider)
    requires "dp" !in KeysOf(tp.data)
    requires tp.dataprov.data.Dict?
    ensures tp.Dp([]) == Ok(tp.dataprov.data)
    ensures tp.DpFromTest([]) == Err(UndefinedDataElement("dp"))
  {
  }

  /** A concrete instance: the catalog with no shortcuts over the store {"user": 1}. */
  lemma DpFromTestExample()
    ensures var tp := TestProvider([], [], DataProviders.DataProvider(Dict([("user", Integer(1))])));
            tp.Dp(["user"]) == Ok(Integer(1)) &&
            tp.DpFromTest(["user"]) == Err(UndefinedDataElement("dp"))
  {
    var tp := TestProvider([], [], DataProviders.DataProvider(Dict([("user", Integer(1))])));
    assert KeysOf(tp.dataprov.data.entries) == ["user"];
    assert IndexOf(tp.dataprov.data.entries, "user") == Some(0);
  }
}
