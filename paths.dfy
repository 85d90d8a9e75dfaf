/**
 * Filesystem paths as the sequence of their components, the way
 * `pathlib.Path.parts` presents them: `Path("~") / ".config"` is
 * `["~", ".config"]`. The empty sequence is the root every other path
 * hangs from.
 */
module Paths {

  type Path = seq<string>

  /** `p.parent`; the root is its own parent. */
  function Parent(p: Path): (r: Path)
    ensures p != [] ==> |r| == |p| - 1 && r + [p[|p| - 1]] == p
    ensures p == [] ==> r == []
  {
    if p == [] then [] else p[..|p| - 1]
  }

  /** `p.is_relative_to(d)`: `d` is `p` itself or one of its ancestors. */
  predicate IsPrefix(d: Path, p: Path) {
    |d| <= |p| && p[..|d|] == d
  }

  /** `p` sits directly inside `d`. */
  predicate IsChild(p: Path, d: Path) {
    |p| == |d| + 1 && p[..|d|] == d
  }

  /** `p` sits exactly two levels below `d` (`d / group / entry`). */
  predicate IsGrandchild(p: Path, d: Path) {
    |p| == |d| + 2 && p[..|d|] == d
  }

  /** `p` lies somewhere below `d`, at any depth. */
  predicate IsStrictlyUnder(p: Path, d: Path) {
    |p| > |d| && p[..|d|] == d
  }

  /** Being directly inside `d` is having `d` as parent. */
  lemma ChildParent(p: Path, d: Path)
    ensures IsChild(p, d) <==> p != [] && Parent(p) == d
  {
  }

  /** A child of `d` is `d` with its last component appended. */
  lemma ChildIsAppend(p: Path, d: Path)
    requires IsChild(p, d)
    ensures p == d + [p[|d|]]
  {
    assert p == p[..|d|] + [p[|d|]];
  }

  /** The entries of a child `f` of `d` are the grandchildren of `d` below `f`. */
  lemma ChildOfChild(q: Path, f: Path, d: Path)
    requires IsChild(f, d)
    ensures IsChild(q, f) <==> IsGrandchild(q, d) && q[..|d| + 1] == f
  {
    if IsChild(q, f) {
      assert q[..|d| + 1] == q[..|f|];
    }
    if IsGrandchild(q, d) && q[..|d| + 1] == f {
      assert q[..|f|] == f;
    }
  }
}
