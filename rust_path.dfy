/**
 * The part of Rust's `std::path` that the classifier relies on. A path is the
 * sequence of components that `Path::components` yields (which already folds
 * repeated separators and interior `.` away), so two paths are equal exactly
 * when their component sequences are, as for `Path`'s own `==`.
 */
module RustPath {
  import opened Wrappers

  datatype Component = RootDir | CurDir | ParentDir | Normal(name: string)

  /** An owned path, `PathBuf`, as its components. */
  type PathBuf = seq<Component>

  /** The reserved per-directory metadata file of macOS, as a one-component path. */
  const DsStore: PathBuf := [Normal(".DS_Store")]

  /** `Path::ends_with`: `child` matches the trailing WHOLE components of `p`. */
  predicate EndsWith(p: PathBuf, child: PathBuf): (b: bool)
    ensures b <==> exists dir: PathBuf :: p == dir + child
  {
    var b := |child| <= |p| && p[|p| - |child|..] == child;
    assert b ==> p == p[..|p| - |child|] + child;
    b
  }

  /**
   * `Path::parent`: the path without its last component; `None` for the empty
   * path and for a path that ends in the root.
   */
  function Parent(p: PathBuf): (r: Option<PathBuf>)
    ensures r.None? <==> |p| == 0 || p[|p| - 1] == RootDir
    ensures r.Some? ==> r.value + [p[|p| - 1]] == p
  {
    if |p| == 0 || p[|p| - 1] == RootDir then None else Some(p[..|p| - 1])
  }

  /** Ending in a one-component path means having that very last component. */
  lemma EndsWithComponent(p: PathBuf, c: Component)
    ensures EndsWith(p, [c]) <==> |p| > 0 && p[|p| - 1] == c
  {
    if |p| > 0 && p[|p| - 1] == c {
      assert p[|p| - 1..] == [c];
    }
  }

  /**
   * Two paths have the same (existing) parent iff both are one non-root
   * component appended to the same directory.
   */
  lemma SameParentIff(a: PathBuf, b: PathBuf)
    ensures (Parent(a).Some? && Parent(a) == Parent(b)) <==>
            exists dir: PathBuf, x: Component, y: Component ::
              x != RootDir && y != RootDir && a == dir + [x] && b == dir + [y]
  {
    if Parent(a).Some? && Parent(a) == Parent(b) {
      var dir := Parent(a).value;
      assert a == dir + [a[|a| - 1]] && b == dir + [b[|b| - 1]];
    }
    if exists dir: PathBuf, x: Component, y: Component ::
         x != RootDir && y != RootDir && a == dir + [x] && b == dir + [y] {
      var dir: PathBuf, x: Component, y: Component :|
        x != RootDir && y != RootDir && a == dir + [x] && b == dir + [y];
      assert a[..|a| - 1] == dir && b[..|b| - 1] == dir;
    }
  }
}
