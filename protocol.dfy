/** How the import system drives the hook: ask the finder for a descriptor, then have
    its loader run `create_module` and `exec_module` on a new module whose namespace
    starts as `initial` (the attributes the runtime itself sets). This is the client
    of the finder and the loader; the runtime's module cache is not modelled. */
module Protocol {
  import opened Wrappers
  import opened Loader
  import opened Finder

  datatype ImportOutcome<V> =
    | NotFound                          // no finder match: the runtime tries elsewhere
    | LoadFailed(error: ImportError)    // the file was found but could not be loaded
    | Loaded(result: Module<V>)

  /** Importing a JSON module: a miss when no search directory holds `<leaf>.json`;
      otherwise the first such file is read, and either its load failure surfaces as an
      `ImportError` chained to the cause, or the new module exposes every top-level key
      of the file with its parsed value on top of the runtime's own attributes. */
  method Import<V>(fullname: string, path: Option<seq<string>>, cwd: string, fs: set<string>,
                   read: string -> Result<map<string, V>, LoadError>, initial: map<string, V>)
    returns (r: ImportOutcome<V>)
    ensures var cands := Candidates(SearchDirs(path, cwd), LeafName(fullname));
            var hit := FirstExisting(cands, fs);
            (r.NotFound? <==> hit.None?) &&
            (hit.Some? && read(cands[hit.value]).Success? ==>
               r.Loaded? && r.result.attrs == Update(initial, read(cands[hit.value]).value)) &&
            (hit.Some? && read(cands[hit.value]).Failure? ==>
               r == LoadFailed(ImportError(LoadFailureMessage, read(cands[hit.value]).error)))
  {
    ghost var cands := Candidates(SearchDirs(path, cwd), LeafName(fullname));
    ghost var hit := FirstExisting(cands, fs);
    var spec := FindSpec<V>(fullname, path, cwd, fs);
    if spec.None? {
      return NotFound;
    }
    var loader := spec.value.loader;
    ghost var file := cands[hit.value];
    assert loader.path == file;
    var created := loader.CreateModule(read);
    if created.Fail? {
      assert read(file).Failure?;
      return LoadFailed(created.error);
    }
    assert loader.data == read(file).value;
    var m := new Module<V>(initial);
    m := loader.ExecModule(m);
    return Loaded(m);
  }
}
