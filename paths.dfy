/**
 * Paths as Rust's `std::path` sees them on a Unix host: a path is the sequence of
 * components that `Path::components` yields. The root directory is the component "/",
 * a leading current-directory marker is ".", a parent-directory step is "..", and every
 * other component is a plain name. Two `PathBuf`s are equal exactly when their
 * components are, which is sequence equality here.
 */
module Paths {
  import opened Wrappers

  type Path = seq<string>

  /** A `Component::Normal` name (not the root, not "." and not ".."). */
  predicate IsNormal(c: string) {
    c != "/" && c != "." && c != ".."
  }

  /**
   * The shape `Path::components` guarantees: the root and "." can only come first,
   * and a plain name is non-empty and holds no separator.
   */
  ghost predicate ValidPath(p: Path) {
    forall i :: 0 <= i < |p| ==>
      (p[i] == "/" || (p[i] != "" && '/' !in p[i])) &&
      (0 < i ==> p[i] != "/" && p[i] != ".")
  }

  // ---------------------------------------------------------------------------
  // Ordering (`impl Ord for PathBuf`), used by `sort_by_key`
  // ---------------------------------------------------------------------------

  /** Lexicographic order on sequences, a proper prefix coming first. */
  predicate LexLess<T(==)>(a: seq<T>, b: seq<T>, less: (T, T) -> bool)
    decreases |a|
  {
    if |a| == 0 then |b| > 0
    else if |b| == 0 then false
    else if a[0] == b[0] then LexLess(a[1..], b[1..], less)
    else less(a[0], b[0])
  }

  ghost predicate StrictTotalOrder<T(!new)>(less: (T, T) -> bool) {
    && (forall x :: !less(x, x))
    && (forall x, y, z :: less(x, y) && less(y, z) ==> less(x, z))
    && (forall x, y :: x != y ==> less(x, y) || less(y, x))
  }

  predicate CharLess(x: char, y: char) {
    x < y
  }

  /**
   * Position of a component's variant in the derived order of Rust's `Component`
   * enum: RootDir < CurDir < ParentDir < Normal (Prefix does not occur on Unix).
   */
  function Rank(c: string): nat {
    if c == "/" then 1 else if c == "." then 2 else if c == ".." then 3 else 4
  }

  /** Components compare by variant first, then plain names by their characters. */
  predicate ComponentLess(a: string, b: string) {
    Rank(a) < Rank(b) || (Rank(a) == Rank(b) && LexLess(a, b, CharLess))
  }

  /** `PathBuf` order: lexicographic over components. */
  predicate PathLess(p: Path, q: Path) {
    LexLess(p, q, ComponentLess)
  }

  lemma {:induction false} LexIrreflexive<T>(a: seq<T>, less: (T, T) -> bool)
    ensures !LexLess(a, a, less)
    decreases |a|
  {
    if |a| > 0 {
      LexIrreflexive(a[1..], less);
    }
  }

  lemma {:induction false} LexTransitive<T(!new)>(a: seq<T>, b: seq<T>, c: seq<T>, less: (T, T) -> bool)
    requires StrictTotalOrder(less)
    requires LexLess(a, b, less) && LexLess(b, c, less)
    ensures LexLess(a, c, less)
    decreases |a|
  {
    if |a| > 0 && a[0] == b[0] && b[0] == c[0] {
      LexTransitive(a[1..], b[1..], c[1..], less);
    }
  }

  lemma {:induction false} LexTotal<T(!new)>(a: seq<T>, b: seq<T>, less: (T, T) -> bool)
    requires StrictTotalOrder(less)
    requires a != b
    ensures LexLess(a, b, less) || LexLess(b, a, less)
    decreases |a|
  {
    if |a| > 0 && |b| > 0 && a[0] == b[0] {
      assert a == [a[0]] + a[1..] && b == [b[0]] + b[1..];
      LexTotal(a[1..], b[1..], less);
    }
  }

  lemma CharOrder()
    ensures StrictTotalOrder(CharLess)
  {
  }

  lemma ComponentOrder()
    ensures StrictTotalOrder(ComponentLess)
  {
    CharOrder();
    forall x: string
      ensures !ComponentLess(x, x)
    {
      LexIrreflexive(x, CharLess);
    }
    forall x: string, y: string, z: string | ComponentLess(x, y) && ComponentLess(y, z)
      ensures ComponentLess(x, z)
    {
      if Rank(x) == Rank(y) == Rank(z) {
        LexTransitive(x, y, z, CharLess);
      }
    }
    forall x: string, y: string | x != y
      ensures ComponentLess(x, y) || ComponentLess(y, x)
    {
      if Rank(x) == Rank(y) {
        LexTotal(x, y, CharLess);
      }
    }
  }

  lemma PathLessIrreflexive(p: Path)
    ensures !PathLess(p, p)
  {
    LexIrreflexive(p, ComponentLess);
  }

  lemma PathLessTransitive(p: Path, q: Path, r: Path)
    requires PathLess(p, q) && PathLess(q, r)
    ensures PathLess(p, r)
  {
    ComponentOrder();
    LexTransitive(p, q, r, ComponentLess);
  }

  lemma PathLessTotal(p: Path, q: Path)
    requires p != q
    ensures PathLess(p, q) || PathLess(q, p)
  {
    ComponentOrder();
    LexTotal(p, q, ComponentLess);
  }

  // ---------------------------------------------------------------------------
  // Prefixes, parents, rendering
  // ---------------------------------------------------------------------------

  /** `Path::starts_with`: component-wise prefix. */
  predicate IsPrefix(prefix: Path, p: Path) {
    |prefix| <= |p| && p[..|prefix|] == prefix
  }

  /**
   * `Path::parent`: the path without its last component, or None when there is no
   * last component or it is the root.
   */
  function Parent(p: Path): Option<Path> {
    if |p| == 0 || p[|p| - 1] == "/" then None else Some(p[..|p| - 1])
  }

  /** `Path::has_root` on Unix. */
  predicate HasRoot(p: Path) {
    |p| > 0 && p[0] == "/"
  }

  /** `Path::file_name`: the last component when it is a plain name. */
  function FileName(p: Path): Option<string> {
    if |p| > 0 && IsNormal(p[|p| - 1]) then Some(p[|p| - 1]) else None
  }

  function JoinSlash(cs: seq<string>): string
    decreases |cs|
  {
    if |cs| == 0 then "" else if |cs| == 1 then cs[0] else cs[0] + "/" + JoinSlash(cs[1..])
  }

  /** `to_string_lossy` of a path spelt canonically (components joined by '/'). */
  function Render(p: Path): string {
    if |p| == 0 then "" else if p[0] == "/" then "/" + JoinSlash(p[1..]) else JoinSlash(p)
  }

  predicate StartsWith(s: string, prefix: string) {
    |prefix| <= |s| && s[..|prefix|] == prefix
  }
}
