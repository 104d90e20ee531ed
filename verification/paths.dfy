/** The two POSIX path operations `Node.exec_cmd` uses to name its output
    files: `os.path.join` and `os.path.basename`. */
module Paths {
  import opened Values

  const Sep: char := '/'

  predicate IsAbsolute(p: string) {
    |p| > 0 && p[0] == Sep
  }

  /** `posixpath.join(a, b)`: an absolute `b` discards `a`; otherwise one
      separator goes between them unless `a` is empty or already ends in one. */
  function PathJoin(a: string, b: string): (r: string)
    ensures !IsAbsolute(b) ==> StartsWith(r, a)
    ensures !IsAbsolute(b) ==> |b| <= |r| && r[|r| - |b|..] == b
  {
    if IsAbsolute(b) then b
    else if a == [] || a[|a| - 1] == Sep then a + b
    else a + [Sep] + b
  }

  /** `posixpath.basename(p)`: what follows the last separator. */
  function Basename(p: string): string {
    if p == [] then []
    else if p[|p| - 1] == Sep then []
    else Basename(p[..|p| - 1]) + [p[|p| - 1]]
  }

  /** The basename holds no separator and is what follows the last one. */
  lemma {:induction false} BasenameIsLastPart(p: string)
    ensures var r := Basename(p);
      Sep !in r && |r| <= |p| && p[|p| - |r|..] == r && (|r| < |p| ==> p[|p| - |r| - 1] == Sep)
    decreases |p|
  {
    if p != [] && p[|p| - 1] != Sep {
      var q := p[..|p| - 1];
      BasenameIsLastPart(q);
      var r := Basename(q);
      assert p == q + [p[|p| - 1]];
      assert p[|p| - |r| - 1..] == q[|q| - |r|..] + [p[|p| - 1]];
    }
  }

  lemma BasenameOfAppend(x: string, y: string)
    ensures Sep in y ==> Basename(x + y) == Basename(y)
    ensures Sep !in y && (x == [] || x[|x| - 1] == Sep) ==> Basename(x + y) == y
  {
    if Sep in y {
      BasenameAfterSep(x, y);
    } else if x == [] || x[|x| - 1] == Sep {
      BasenameNoSep(x, y);
    }
  }

  /** Whatever precedes the last separator does not matter. */
  lemma {:induction false} BasenameAfterSep(x: string, y: string)
    requires Sep in y
    ensures Basename(x + y) == Basename(y)
    decreases |y|
  {
    var y' := y[..|y| - 1];
    assert (x + y)[..|x + y| - 1] == x + y';
    if y[|y| - 1] != Sep {
      assert y == y' + [y[|y| - 1]];
      assert Sep in y';
      BasenameAfterSep(x, y');
    }
  }

  /** After a separator, a name without one is its own basename. */
  lemma {:induction false} BasenameNoSep(x: string, y: string)
    requires Sep !in y && (x == [] || x[|x| - 1] == Sep)
    ensures Basename(x + y) == y
    decreases |y|
  {
    if y != [] {
      var y' := y[..|y| - 1];
      assert (x + y)[..|x + y| - 1] == x + y';
      assert y == y' + [y[|y| - 1]];
      BasenameNoSep(x, y');
    } else {
      assert x + y == x;
    }
  }

  lemma {:induction false} BasenameExtend(x: string, y: string)
    requires Sep !in y
    ensures Basename(x + y) == Basename(x) + y
    decreases |y|
  {
    if y == [] {
      assert x + y == x;
    } else {
      var y' := y[..|y| - 1];
      assert (x + y)[..|x + y| - 1] == x + y';
      assert y == y' + [y[|y| - 1]];
      BasenameExtend(x, y');
    }
  }

  lemma StartsWithTrans(x: string, y: string, z: string)
    requires StartsWith(x, y) && StartsWith(y, z)
    ensures StartsWith(x, z)
  {
    assert x[..|z|] == x[..|y|][..|z|];
  }

  lemma StartsWithAppend(x: string, y: string, p: string)
    requires StartsWith(x, p)
    ensures StartsWith(x + y, p)
  {
    assert (x + y)[..|p|] == x[..|p|];
  }

  /** A relative name keeps no separator of its own as basename: joining
      under any directory leaves the basename of the joined part. */
  lemma BasenameOfJoin(a: string, b: string)
    ensures Basename(PathJoin(a, b)) == Basename(b)
  {
    BasenameOfAppend([], b);
    assert [] + b == b;
    if !IsAbsolute(b) {
      if a == [] || a[|a| - 1] == Sep {
        BasenameOfAppend(a, b);
      } else {
        assert a + [Sep] + b == (a + [Sep]) + b;
        BasenameOfAppend(a + [Sep], b);
      }
    }
  }
}
