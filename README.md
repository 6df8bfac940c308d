# jimp: importing JSON files as modules

jimp is a Python import hook. It appends a finder, `JimpFinder`, to the import
system's list of finders. When a module named `a.b.leaf` cannot be found any other
way, the finder looks for `leaf.json` in the search directories it is given, or in
the working directory when it is given none. For the first directory that has that
file, it returns a descriptor bound to a new `JimpLoader`. The loader parses the
file in `create_module` and copies the file's top-level fields into the module's
namespace in `exec_module`.

The model is split into these modules:

- `PosixPath` (`posix_path.dfy`): `os.path.join` for two arguments, by the POSIX
  rule. If the second argument is absolute, it is the result. Otherwise it is appended
  to the first, and a `/` is inserted only when the first is non-empty and does not
  already end in `/`.
- `Finder` (`finder.dfy`): `find_spec`. It covers the leaf name
  `fullname.split(".")[-1]`, the defaulting of the search path, the probed candidate
  paths, the first-match search as a specification function
  (`FirstExisting`), the probing loop as a method (`Probe`), and `FindSpec`, which
  builds the descriptor. `split(".")[-1]` is computed directly as the text after the
  last dot, or the whole name when it has no dot; Python's intermediate list of pieces
  is not built.
- `Loader` (`loader.dfy`): the class `JimpLoader` with its fields `path`, `mod`
  (Python's `self.module`) and `data`, its constructor, `CreateModule` and
  `ExecModule`. It also holds a `Module` class whose namespace is a mutable map, and
  `Update`, the specification of `dict.update`.
- `Protocol` (`protocol.dfy`): a client that drives find, create and exec the way the
  import system does. It states the end-to-end result of an import.
- `Wrappers` (`wrappers.dfy`): `Option`, `Result` and `Outcome`.

Values are of a type parameter `V`, because the hook never looks inside a parsed
value. Three things outside the hook become parameters:

- the filesystem is a set `fs` of the paths that exist;
- the working directory is a parameter `cwd`;
- opening and parsing a file is an oracle `read`, from a path to either the parsed
  top-level mapping or a `LoadError` (`OpenFailed` or `DecodeFailed`).

`FindSpec` takes no `read` oracle and has no `modifies` clause, so the search cannot
open a file or change anything. It can only ask whether a path is in `fs`.

The candidate file is `os.path.join(dir, leaf + ".json")` (jimp.py:76). No `/` is
added after an empty directory or after one that already ends in `/`. A leaf that
starts with `/`, as for the import name `a./x`, replaces the directory, which gives
`/x.json`.

## Model

| member | source | states |
|---|---|---|
| `PosixPath.Join` | jimp.py:76 | `os.path.join` for two parts: the result is as long as the second part when that is absolute, and otherwise as long as both parts plus one inserted `/` only when the first part is non-empty and does not end in `/` |
| `PosixPath.JoinShape` | jimp.py:76 | a joined path ends with its second part, and an absolute second part is the whole result; a relative one keeps the first part as the head, and the only character between them is a `/`, present exactly when the first part is non-empty and does not end in `/` |
| `Finder.LeafName` | jimp.py:73 | the leaf holds no dot and is a tail of the full name; it is the whole name when that has no dot, and otherwise a dot stands right before it, so it is the final dot-separated segment |
| `Finder.LeafNameUnique` | jimp.py:73 | any dot-free tail of the name that is the whole name or has a dot right before it equals the leaf name, so the leaf contract determines the segment exactly |
| `Finder.QualifiedLeaf` | jimp.py:73 | `pkg.leaf` has leaf name `leaf` for any package prefix, so a qualified name probes the same file as its last segment |
| `Finder.SearchDirs` | jimp.py:74 | an absent or empty search path becomes the single directory `[cwd]`; a non-empty one is used as given, in order |
| `Finder.Candidate` | jimp.py:76 | the path probed for one directory, `join(dir, leaf + ".json")`: as long as the file name alone for an absolute leaf, otherwise as long as the directory and the file name plus the one `/` that `join` inserts when needed |
| `Finder.CandidateShape` | jimp.py:76 | the probed path ends in `<leaf>.json`; an absolute leaf makes the file name the whole path; otherwise the path starts with the directory, and a single `/` separates the two exactly when the directory is non-empty and does not end in `/` |
| `Finder.Candidates` | jimp.py:75-76 | one candidate per search directory, in directory order, each equal to `join(dir, leaf + ".json")` |
| `Finder.FirstExisting` | jimp.py:75-79 | a hit is an index whose path exists with no existing path before it; a miss means that no path in the list exists |
| `Finder.FoundIffSomeExists` | jimp.py:75-79 | the search succeeds if and only if some path in the list exists |
| `Finder.SuccessIgnoresOrder` | jimp.py:74-79 | two search paths that contain the same directories either both succeed or both miss; order only decides which directory wins |
| `Finder.FirstExistingAppend` | jimp.py:75-79 | appending directories never changes a hit among the earlier ones; after a miss the search continues in the appended directories, with indices shifted |
| `Finder.Probe` | jimp.py:75-79 | the probing loop returns the first existing candidate, in directory order, and returns `None` exactly when no candidate exists |
| `Finder.FindSpec` | jimp.py:69-79 | returns `None` exactly when no candidate exists; otherwise returns a descriptor named by the full dotted name, whose loader is new, is bound to the first existing candidate and has empty data |
| `Loader.Update` | jimp.py:55 | after `dict.update`, every key of the data maps to its data value, every other key keeps its old value, and the key set is the old keys plus the data keys |
| `Loader.UpdateWithNothing` | jimp.py:55 | updating with empty data leaves the namespace unchanged |
| `Loader.UpdateIdempotent` | jimp.py:55 | updating twice with the same data is the same as updating once |
| `Loader.JimpLoader.constructor` | jimp.py:38-42 | a new loader has the given path, no module and empty data |
| `Loader.JimpLoader.CreateModule` | jimp.py:44-49 | on a successful read and parse, `data` becomes the parsed mapping and nothing is raised; on an open or parse failure, `ImportError("Could not load json file")` chained to that cause is raised and `data` keeps its previous value |
| `Loader.JimpLoader.ExecModule` | jimp.py:51-56 | the module's namespace becomes the old namespace updated with `data`, in place, and the same module object is returned |
| `Loader.ExecBeforeCreate` | jimp.py:38-56 | running `exec_module` on a loader whose `create_module` never ran leaves the module's namespace unchanged |
| `Protocol.Import` | jimp.py:44-79 | an import misses exactly when no candidate exists; otherwise a read failure becomes the chained `ImportError`, and a successful read gives a module that has every top-level key of the file with its parsed value on top of the runtime's own attributes |

## Left out

- `json.load` and the JSON grammar (jimp.py:47) are the foreign `json` library. They
  are the `read` oracle. The `utf-8` decoding and a duplicate-key policy belong to it.
- A file whose top-level JSON value is not an object (an array, say) is outside the
  model. The oracle yields only mappings, so `data` is always a map. In Python such a
  value reaches `dict.update` in `exec_module`.
- When the working directory has been removed, `os.getcwd()` (jimp.py:74) raises and
  `find_spec` raises with it. The parameter `cwd` always holds a directory name, so
  this error path is not modelled.
- `os.path.exists`, `open` and `os.getcwd` (jimp.py:46, 74, 77) are filesystem I/O.
  They become the set `fs`, the oracle `read` and the parameter `cwd`. The race
  between the existence check and the later open is not modelled: `fs` and `read` are
  independent.
- `spec_from_loader` and `self.spec` (jimp.py:40, 78) are import-system objects. A
  descriptor is only the pair (name, loader), and the loader keeps no `spec` field.
- The unused `spec` argument of `create_module` and the `target` argument of
  `find_spec` are not modelled, because the code never reads them.
- Exception chaining is only the `cause` field of `ImportError`; the Python exception
  objects are not modelled.
- Registering the finder with `sys.meta_path.append` (jimp.py:82) is a process-global
  side effect at import time, and is not modelled.
- `__repr__` (jimp.py:58-59) is diagnostic formatting with no behavioural contract.
- Python's module cache and module attributes such as `__name__` are the runtime's.
  In `Protocol.Import` they are the parameter `initial`.
