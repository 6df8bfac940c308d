/** `JimpLoader`: binds one JSON file path, parses it on `create_module` and copies its
    top-level fields into a module's namespace on `exec_module`.

    Values are of an arbitrary type `V`: the loader never inspects them. Opening and
    parsing the file is an oracle `read` from a path to the parsed top-level mapping or
    the reason it could not be produced. */
module Loader {
  import opened Wrappers

  /** Why opening and parsing a file failed: the open (or the read) itself, or the
      decoding of its content as JSON. */
  datatype LoadError = OpenFailed | DecodeFailed

  /** The `ImportError` raised by `create_module`, chained to its cause. */
  datatype ImportError = ImportError(message: string, cause: LoadError)

  const LoadFailureMessage: string := "Could not load json file"

  /** `module.__dict__.update(data)`: every key of `data` is rebound to its value in
      `data`, every other key keeps its binding, and no key is removed. */
  function Update<V>(ns: map<string, V>, data: map<string, V>): (r: map<string, V>)
    ensures r.Keys == ns.Keys + data.Keys
    ensures forall k :: k in data ==> r[k] == data[k]
    ensures forall k :: k in ns && k !in data ==> r[k] == ns[k]
  {
    ns + data
  }

  /** Updating with an empty mapping changes nothing. */
  lemma UpdateWithNothing<V>(ns: map<string, V>)
    ensures Update(ns, map[]) == ns
  {
  }

  /** Repeating an update with the same data changes nothing further. */
  lemma UpdateIdempotent<V>(ns: map<string, V>, data: map<string, V>)
    ensures Update(Update(ns, data), data) == Update(ns, data)
  {
  }

  /** A module object, opaque except for its attribute namespace (`__dict__`). */
  class Module<V> {
    var attrs: map<string, V>

    constructor (attrs: map<string, V>)
      ensures this.attrs == attrs
    {
      this.attrs := attrs;
    }
  }

  class JimpLoader<V> {
    /** The bound file path; it is never reassigned after construction. */
    const path: string
    /** Set to `None` by the constructor and never used afterwards. */
    var mod: Module?<V>
    /** The parsed top-level mapping; empty until `CreateModule` succeeds. */
    var data: map<string, V>

    constructor (path: string)
      ensures this.path == path
      ensures mod == null
      ensures data == map[]
    {
      this.path := path;
      this.mod := null;
      this.data := map[];
    }

    /** `create_module`: read and parse the bound file. On success `data` becomes the
        parsed mapping and `Pass` stands for the `None` returned to the import system;
        on any failure an `ImportError` chained to its cause is raised and `data` keeps
        its previous value. */
    method CreateModule(read: string -> Result<map<string, V>, LoadError>)
      returns (outcome: Outcome<ImportError>)
      modifies this`data
      ensures read(path).Success? ==> outcome == Pass && data == read(path).value
      ensures read(path).Failure? ==>
                outcome == Fail(ImportError(LoadFailureMessage, read(path).error)) &&
                data == old(data)
    {
      match read(path)
      case Success(parsed) =>
        data := parsed;
        outcome := Pass;
      case Failure(e) =>
        outcome := Fail(ImportError(LoadFailureMessage, e));
    }

    /** `exec_module`: merge `data` into the module's namespace in place and return the
        same module. The loader itself is left unchanged. */
    method ExecModule(m: Module<V>) returns (r: Module<V>)
      modifies m
      ensures r == m
      ensures m.attrs == Update(old(m.attrs), data)
    {
      m.attrs := m.attrs + data;
      r := m;
    }
  }

  /** `exec_module` on a loader whose `create_module` never ran leaves the module as it
      was: the lenient case in which populating before loading is not an error. */
  method ExecBeforeCreate<V>(path: string, m: Module<V>) returns (r: Module<V>)
    modifies m
    ensures r == m && m.attrs == old(m.attrs)
  {
    var loader := new JimpLoader<V>(path);
    r := loader.ExecModule(m);
    UpdateWithNothing(old(m.attrs));
  }
}
