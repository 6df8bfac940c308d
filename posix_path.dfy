/** The part of POSIX `os.path.join` that the finder relies on, for two arguments. */
module PosixPath {

  /** True when `p` is an absolute POSIX path. */
  predicate IsAbsolute(p: string) {
    |p| > 0 && p[0] == '/'
  }

  /** True when joining `b` onto `a` inserts a `/`: `b` is relative, and `a` is
      non-empty and does not already end in one. */
  predicate AddsSeparator(a: string, b: string) {
    !IsAbsolute(b) && a != "" && a[|a| - 1] != '/'
  }

  /** `os.path.join(a, b)`: an absolute `b` discards `a`; otherwise `b` is appended
      to `a`, with a `/` inserted only when `a` is non-empty and does not already
      end in one. The result is `b` alone, or `a` and `b` with at most one added
      character between them. */
  function Join(a: string, b: string): (r: string)
    ensures |r| == if IsAbsolute(b) then |b|
                   else |a| + |b| + (if AddsSeparator(a, b) then 1 else 0)
  {
    if IsAbsolute(b) then b
    else if a == "" || a[|a| - 1] == '/' then a + b
    else a + "/" + b
  }

  /** What a joined path looks like: `b` is always its tail and an absolute `b` is the
      whole result. A relative `b` keeps `a` as the head; the only character between
      them is a `/`, present exactly when `a` is non-empty and does not end in `/`. */
  lemma JoinShape(a: string, b: string)
    ensures var r := Join(a, b);
            |b| <= |r| && r[|r| - |b|..] == b &&
            (IsAbsolute(b) ==> r == b) &&
            (!IsAbsolute(b) ==>
               |r| == |a| + |b| + (if AddsSeparator(a, b) then 1 else 0) &&
               r[..|a|] == a &&
               (AddsSeparator(a, b) ==> r[|a|] == '/'))
  {
  }
}
