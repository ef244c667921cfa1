/** File paths. The other modules treat a path as its list of names; this one shows that the string
    operations of the source (joining with "/", cutting at the last "/") do the same on the joined string. */
module Paths {

  type Name = string
  type Path = seq<Name>

  predicate ValidName(n: Name) { n != "" && '/' !in n }

  predicate ValidPath(p: Path) { p != [] && forall n :: n in p ==> ValidName(n) }

  /** prefix + "/" + name, or just the name for an empty prefix. */
  function Child(prefix: string, name: Name): string
  {
    if prefix == "" then name else prefix + "/" + name
  }

  /** The string that names a path. */
  function Join(p: Path): string
  {
    if p == [] then "" else Child(Join(p[..|p| - 1]), p[|p| - 1])
  }

  /** strings.LastIndex(s, "/") */
  function LastSlash(s: string): (i: int)
    ensures -1 <= i < |s|
    ensures i >= 0 ==> s[i] == '/'
    ensures forall k :: i < k < |s| ==> s[k] != '/'
  {
    if s == "" then -1
    else if s[|s| - 1] == '/' then |s| - 1
    else LastSlash(s[..|s| - 1])
  }

  lemma JoinNonempty(p: Path)
    requires ValidPath(p)
    ensures Join(p) != ""
  {
    assert p[|p| - 1] in p;
  }

  lemma LastSlashAt(s: string, t: string, n: Name)
    requires s == t + "/" + n && '/' !in n
    ensures LastSlash(s) == |t|
  {
    forall j | |t| < j < |s|
      ensures s[j] != '/'
    {
      assert s[j] == n[j - |t| - 1];
    }
    assert s[|t|] == '/';
  }

  lemma ParentValid(p: Path)
    requires ValidPath(p) && |p| > 1
    ensures ValidPath(p[..|p| - 1])
  {
    assert forall m :: m in p[..|p| - 1] ==> m in p;
  }

  /** Cutting a joined path at its last slash gives the joined parent; a path without slash has no parent. */
  lemma {:induction false} LastSlashCutsParent(p: Path)
    requires ValidPath(p)
    ensures LastSlash(Join(p)) < 0 <==> |p| == 1
    ensures |p| > 1 ==> Join(p)[..LastSlash(Join(p))] == Join(p[..|p| - 1])
                        && Join(p)[LastSlash(Join(p)) + 1..] == p[|p| - 1]
  {
    var n, parent := p[|p| - 1], p[..|p| - 1];
    assert n in p;
    if |p| > 1 {
      ParentValid(p);
      JoinNonempty(parent);
      var s, t := Join(p), Join(parent);
      assert s == t + "/" + n;
      LastSlashAt(s, t, n);
      assert s[..|t|] == t && s[|t| + 1..] == n;
    } else {
      assert parent == [] && Join(p) == n;
    }
  }

  /** Different paths have different strings. */
  lemma {:induction false} JoinInjective(p: Path, q: Path)
    requires ValidPath(p) && ValidPath(q) && Join(p) == Join(q)
    ensures p == q
    decreases |p|
  {
    LastSlashCutsParent(p);
    LastSlashCutsParent(q);
    if |p| > 1 {
      var p', q' := p[..|p| - 1], q[..|q| - 1];
      ParentValid(p);
      ParentValid(q);
      JoinInjective(p', q');
      assert p == p' + [p[|p| - 1]] && q == q' + [q[|q| - 1]];
    } else {
      assert p == [p[0]] && q == [q[0]] && p[..0] == [] && q[..0] == [];
    }
  }

  /** d is a directory on the way to p. */
  predicate ProperPrefix(d: Path, p: Path) { d != [] && d < p }

  /** No path of the set is a directory of another one. */
  ghost predicate PrefixFree(ps: set<Path>)
  {
    forall d, p :: d in ps && p in ps ==> !ProperPrefix(d, p)
  }
}
