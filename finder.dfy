/** `JimpFinder.find_spec`: derive the leaf name of a dotted import name, pick the
    directories to search, and return a descriptor for the first directory that holds
    `<leaf>.json`.

    The filesystem is the set `fs` of paths that exist; the working directory is the
    parameter `cwd`. */
module Finder {
  import opened Wrappers
  import opened PosixPath
  import opened Loader

  /** `t` holds no dot. */
  predicate NoDot(t: string) {
    forall k :: 0 <= k < |t| ==> t[k] != '.'
  }

  /** `t` is a tail (suffix) of `s`. */
  predicate IsTail(s: string, t: string) {
    |t| <= |s| && s[|s| - |t|..] == t
  }

  /** A dot stands in `s` right before its tail `t`. */
  predicate DotBefore(s: string, t: string) {
    |t| < |s| && s[|s| - |t| - 1] == '.'
  }

  /** `fullname.split(".")[-1]`: the final dot-separated segment of the import name,
      that is, everything after its last dot, or all of it when it has no dot. The
      segment holds no dot, is a tail of `fullname`, is all of `fullname` when that has
      no dot, and otherwise has a dot right before it. */
  function LeafName(fullname: string): (leaf: string)
    ensures NoDot(leaf)
    ensures IsTail(fullname, leaf)
    ensures NoDot(fullname) ==> leaf == fullname
    ensures !NoDot(fullname) ==> DotBefore(fullname, leaf)
    decreases |fullname|
  {
    if |fullname| == 0 then ""
    else
      var init, c := fullname[..|fullname| - 1], fullname[|fullname| - 1];
      assert fullname == init + [c];
      if c == '.' then ""
      else
        var leaf := LeafName(init);
        assert fullname[|fullname| - |leaf| - 1..] == leaf + [c];
        assert NoDot(fullname) ==> NoDot(init) by {
          if NoDot(fullname) {
            forall k | 0 <= k < |init| ensures init[k] != '.' {
              assert init[k] == fullname[k];
            }
          }
        }
        leaf + [c]
  }

  /** The three properties in `LeafName`'s contract single out the leaf: any dot-free
      tail of the name that is either the whole name or has a dot right before it is the
      leaf name. */
  lemma LeafNameUnique(fullname: string, t: string)
    requires NoDot(t) && IsTail(fullname, t)
    requires t == fullname || DotBefore(fullname, t)
    ensures t == LeafName(fullname)
  {
  }

  /** A name qualified by a package resolves by its own last segment only:
      `pkg.sub.leaf` and `leaf` probe the same file. */
  lemma QualifiedLeaf(pkg: string, leaf: string)
    requires NoDot(leaf)
    ensures LeafName(pkg + "." + leaf) == leaf
  {
    var s := pkg + "." + leaf;
    assert s[|s| - |leaf| - 1] == '.';
    assert s[|s| - |leaf|..] == leaf;
    LeafNameUnique(s, leaf);
  }

  /** `path if path else [os.getcwd()]`: an absent or empty search path becomes the
      working directory alone; a non-empty one is used as given, in order. */
  function SearchDirs(path: Option<seq<string>>, cwd: string): (dirs: seq<string>)
    ensures |dirs| >= 1
    ensures path.Some? && path.value != [] ==> dirs == path.value
    ensures path.None? || path.value == [] ==> dirs == [cwd]
  {
    if path.Some? && path.value != [] then path.value else [cwd]
  }

  /** The file probed in directory `dir`: `os.path.join(dir, leaf + ".json")`. Its
      length is that of the file name alone when the leaf is absolute, and otherwise
      that of the directory and the file name plus the separator `join` inserts. */
  function Candidate(dir: string, leaf: string): (p: string)
    ensures |p| == if IsAbsolute(leaf) then |leaf| + 5
                   else |dir| + |leaf| + 5 + (if AddsSeparator(dir, leaf + ".json") then 1 else 0)
  {
    assert IsAbsolute(leaf + ".json") <==> IsAbsolute(leaf) by {
      if |leaf| > 0 { assert (leaf + ".json")[0] == leaf[0]; }
    }
    Join(dir, leaf + ".json")
  }

  /** The candidate ends in `<leaf>.json`. For a relative leaf it starts with the
      directory, and the only character between the directory and the file name is a
      `/`, present exactly when the directory is non-empty and does not end in one; an
      absolute leaf is the whole candidate. */
  lemma CandidateShape(dir: string, leaf: string)
    ensures var p, file := Candidate(dir, leaf), leaf + ".json";
            |file| <= |p| && p[|p| - |file|..] == file &&
            (IsAbsolute(leaf) ==> p == file) &&
            (!IsAbsolute(leaf) ==>
               |p| == |dir| + |file| + (if AddsSeparator(dir, file) then 1 else 0) &&
               p[..|dir|] == dir &&
               (AddsSeparator(dir, file) ==> p[|dir|] == '/'))
  {
  }

  /** The files probed, one per search directory, in directory order. */
  function Candidates(dirs: seq<string>, leaf: string): (cands: seq<string>)
    ensures |cands| == |dirs|
    ensures forall i :: 0 <= i < |dirs| ==> cands[i] == Candidate(dirs[i], leaf)
  {
    seq(|dirs|, i requires 0 <= i < |dirs| => Candidate(dirs[i], leaf))
  }

  /** The index of the first path, in order, that exists, or `None` when none does. */
  function FirstExisting(cands: seq<string>, fs: set<string>): (r: Option<nat>)
    ensures r.Some? ==>
              r.value < |cands| && cands[r.value] in fs &&
              forall j :: 0 <= j < r.value ==> cands[j] !in fs
    ensures r.None? ==> forall j :: 0 <= j < |cands| ==> cands[j] !in fs
  {
    if |cands| == 0 then None
    else if cands[0] in fs then Some(0)
    else
      match FirstExisting(cands[1..], fs)
      case None => None
      case Some(i) => Some(i + 1)
  }

  /** Some path is found exactly when some path in the list exists. */
  lemma FoundIffSomeExists(cands: seq<string>, fs: set<string>)
    ensures FirstExisting(cands, fs).Some? <==> exists p :: p in cands && p in fs
  {
  }

  /** Whether a search succeeds depends only on which directories are searched, not on
      their order: order decides only which candidate wins. */
  lemma SuccessIgnoresOrder(dirs1: seq<string>, dirs2: seq<string>, leaf: string, fs: set<string>)
    requires forall d :: d in dirs1 <==> d in dirs2
    ensures FirstExisting(Candidates(dirs1, leaf), fs).Some? <==>
            FirstExisting(Candidates(dirs2, leaf), fs).Some?
  {
    var c1, c2 := Candidates(dirs1, leaf), Candidates(dirs2, leaf);
    FoundIffSomeExists(c1, fs);
    FoundIffSomeExists(c2, fs);
    forall p | p in c1 ensures p in c2 {
      var i :| 0 <= i < |c1| && c1[i] == p;
      assert dirs1[i] in dirs1;
      var j :| 0 <= j < |dirs2| && dirs2[j] == dirs1[i];
      assert c2[j] == p;
    }
    forall p | p in c2 ensures p in c1 {
      var i :| 0 <= i < |c2| && c2[i] == p;
      assert dirs2[i] in dirs2;
      var j :| 0 <= j < |dirs1| && dirs1[j] == dirs2[i];
      assert c1[j] == p;
    }
  }

  /** Appending paths never changes a hit among the earlier ones, and on a miss the
      search continues in the appended paths. */
  lemma {:induction false} FirstExistingAppend(cands1: seq<string>, cands2: seq<string>, fs: set<string>)
    ensures FirstExisting(cands1 + cands2, fs) ==
            match FirstExisting(cands1, fs)
            case Some(i) => Some(i)
            case None =>
              match FirstExisting(cands2, fs)
              case Some(j) => Some(|cands1| + j)
              case None => None
  {
    if |cands1| > 0 {
      assert (cands1 + cands2)[0] == cands1[0];
      assert (cands1 + cands2)[1..] == cands1[1..] + cands2;
      FirstExistingAppend(cands1[1..], cands2, fs);
    } else {
      assert cands1 + cands2 == cands2;
    }
  }

  /** An existing path with no existing path before it is the one the search finds. */
  lemma FirstExistingAt(cands: seq<string>, fs: set<string>, i: nat)
    requires i < |cands| && cands[i] in fs
    requires forall j :: 0 <= j < i ==> cands[j] !in fs
    ensures FirstExisting(cands, fs) == Some(i)
  {
  }

  /** The module descriptor `spec_from_loader(fullname, loader)`: the import name and the
      loader that will realise it. */
  datatype ModuleSpec<V> = ModuleSpec(name: string, loader: JimpLoader<V>)

  /** The probing loop of `find_spec`: the candidate of each directory, in order, is
      checked for existence, and the first one that exists is returned. */
  method Probe(dirs: seq<string>, leaf: string, fs: set<string>) returns (found: Option<string>)
    ensures var cands := Candidates(dirs, leaf);
            var hit := FirstExisting(cands, fs);
            (found.None? <==> hit.None?) &&
            (found.Some? ==> hit.Some? && found.value == cands[hit.value])
  {
    ghost var cands := Candidates(dirs, leaf);
    var i := 0;
    while i < |dirs|
      invariant 0 <= i <= |dirs|
      invariant forall j :: 0 <= j < i ==> cands[j] !in fs
    {
      var filePath := Candidate(dirs[i], leaf);
      if filePath in fs {
        FirstExistingAt(cands, fs, i);
        return Some(filePath);
      }
      i := i + 1;
    }
    assert FirstExisting(cands, fs).None?;
    return None;
  }

  /** `find_spec`: derive the leaf name, choose the search directories, probe them in
      order and return a descriptor, named by the full dotted name, bound to a new loader
      for the first candidate that exists; `None` when no candidate exists. No file is
      opened: the search only consults which paths exist. */
  method FindSpec<V>(fullname: string, path: Option<seq<string>>, cwd: string, fs: set<string>)
    returns (spec: Option<ModuleSpec<V>>)
    ensures var cands := Candidates(SearchDirs(path, cwd), LeafName(fullname));
            var hit := FirstExisting(cands, fs);
            (spec.None? <==> hit.None?) &&
            (spec.Some? ==>
               hit.Some? &&
               spec.value.name == fullname &&
               spec.value.loader.path == cands[hit.value] &&
               spec.value.loader.data == map[] &&
               fresh(spec.value.loader))
  {
    var leaf := LeafName(fullname);
    var dirs := SearchDirs(path, cwd);
    var found := Probe(dirs, leaf, fs);
    match found
    case None =>
      spec := None;
    case Some(filePath) =>
      var loader := new JimpLoader<V>(filePath);
      spec := Some(ModuleSpec(fullname, loader));
  }
}
