/** File-system paths as strings, and the schema include pattern. */
module Paths {
  import opened Strings

  /** A path as the JVM's File reports it; the model takes every path as already absolute. */
  type Path = string

  const ThriftSuffix: string := ".thrift"

  /** The Ant include pattern used for schemas: any file, in any sub-directory, whose name ends in `.thrift`. */
  predicate MatchesThriftPattern(p: Path) {
    EndsWith(p, ThriftSuffix)
  }

  /** `name` resolved inside directory `dir`. */
  function Resolve(dir: Path, name: Path): (r: Path)
    ensures |r| == |dir| + 1 + |name|
    ensures r[..|dir| + 1] == dir + "/"
    ensures r[|dir| + 1..] == name
  {
    dir + "/" + name
  }

  /** Distinct names inside one directory are distinct paths. */
  lemma ResolveInjective(dir: Path, a: Path, b: Path)
    ensures Resolve(dir, a) == Resolve(dir, b) <==> a == b
  {
    assert a == Resolve(dir, a)[|dir| + 1..];
    assert b == Resolve(dir, b)[|dir| + 1..];
  }

  /** A name ending in `.thrift` gives a path ending in `.thrift`, whatever directory it lands in. */
  lemma ResolveKeepsThriftPattern(dir: Path, name: Path)
    requires MatchesThriftPattern(name)
    ensures MatchesThriftPattern(Resolve(dir, name))
  {
    EndsWithPrepend(dir + "/", name, ThriftSuffix);
  }

  /** The last component of `p`, as File.getName gives it. */
  function FileName(p: Path): (n: Path)
    ensures EndsWith(p, n)
    ensures '/' !in n
  {
    if |p| == 0 || p[|p| - 1] == '/' then ""
    else
      var q := p[..|p| - 1];
      assert p == q + [p[|p| - 1]];
      EndsWithAppend(q, FileName(q), [p[|p| - 1]]);
      FileName(q) + [p[|p| - 1]]
  }

  /** A suffix without a separator stays a suffix of the file name. */
  lemma {:induction false} FileNameKeepsSuffix(p: Path, suffix: string)
    requires EndsWith(p, suffix)
    requires '/' !in suffix
    ensures EndsWith(FileName(p), suffix)
  {
    if |suffix| > 0 {
      var q := p[..|p| - 1];
      var last := p[|p| - 1];
      assert last == suffix[|suffix| - 1];
      var shorter := suffix[..|suffix| - 1];
      assert EndsWith(q, shorter) by {
        assert q[|q| - |shorter|..] == p[|p| - |suffix|..][..|shorter|];
      }
      FileNameKeepsSuffix(q, shorter);
      EndsWithAppend(FileName(q), shorter, [last]);
      assert shorter + [last] == suffix;
    }
  }

  lemma FileNameKeepsThriftPattern(p: Path)
    requires MatchesThriftPattern(p)
    ensures MatchesThriftPattern(FileName(p))
  {
    FileNameKeepsSuffix(p, ThriftSuffix);
  }
}
