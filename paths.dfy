/**
 * The two `os.path` operations (POSIX flavour) the bot uses to name files:
 * `basename` and two-argument `join`.
 */
module Paths {

  /** The index just after the last `/` of `p`, or 0 when there is none. */
  function LastSlashEnd(p: string): (k: nat)
    ensures k <= |p|
    ensures '/' !in p[k..]
    ensures k == 0 || p[k - 1] == '/'
  {
    if p == [] then 0
    else if p[|p| - 1] == '/' then |p|
    else
      var k := LastSlashEnd(p[..|p| - 1]);
      assert p[k..] == p[..|p| - 1][k..] + [p[|p| - 1]];
      k
  }

  /**
   * `os.path.basename(p)`: the longest slash-free suffix of `p`; it is all of
   * `p` or is preceded by a `/`.
   */
  function Basename(p: string): (b: string)
    ensures '/' !in b
    ensures |b| <= |p| && b == p[|p| - |b|..]
    ensures |b| == |p| || p[|p| - |b| - 1] == '/'
  {
    p[LastSlashEnd(p)..]
  }

  /** A slash-free tail that follows a `/` (or the start) is the basename. */
  lemma BasenameOf(d: string, b: string)
    requires '/' !in b
    requires d == [] || d[|d| - 1] == '/'
    ensures Basename(d + b) == b
  {
    var p := d + b;
    var r := Basename(p);
    assert r == p[|p| - |b|..] == b;
  }

  /** Appending a slash-free suffix to a path appends it to the basename. */
  lemma BasenameAppend(p: string, suffix: string)
    requires '/' !in suffix
    ensures Basename(p + suffix) == Basename(p) + suffix
  {
    var b := Basename(p);
    var d := p[..|p| - |b|];
    assert p == d + b;
    assert p + suffix == d + (b + suffix);
    BasenameOf(d, b + suffix);
  }

  /**
   * `os.path.join(dir, name)`: an absolute `name` replaces `dir`; otherwise
   * `name` is appended after a `/`, which is added unless `dir` is empty or
   * already ends in one.
   */
  function Join(dir: string, name: string): (r: string)
    ensures name != [] && name[0] == '/' ==> r == name
    ensures !(name != [] && name[0] == '/') ==>
      && |dir| + |name| <= |r| <= |dir| + |name| + 1
      && r[..|dir|] == dir && r[|r| - |name|..] == name
      && (|r| == |dir| + |name| + 1 ==> r[|dir|] == '/')
      && (dir != [] ==> r[|r| - |name| - 1] == '/')
      && (|r| == |dir| + |name| + 1 <==> dir != [] && dir[|dir| - 1] != '/')
  {
    if name != [] && name[0] == '/' then name
    else if dir == [] || dir[|dir| - 1] == '/' then dir + name
    else dir + "/" + name
  }

  /** The last component of a join is the last component of the joined name. */
  lemma JoinKeepsBasename(dir: string, name: string)
    ensures Basename(Join(dir, name)) == Basename(name)
  {
    if !(name != [] && name[0] == '/') {
      var pre := if dir == [] || dir[|dir| - 1] == '/' then dir else dir + "/";
      assert Join(dir, name) == pre + name;
      BasenameAfterSlash(pre, name);
    }
  }

  /** Whatever precedes a `/` does not affect the basename of what follows it. */
  lemma BasenameAfterSlash(pre: string, name: string)
    requires pre == [] || pre[|pre| - 1] == '/'
    ensures Basename(pre + name) == Basename(name)
  {
    var b := Basename(name);
    var k := |name| - |b|;
    if k == 0 {
      assert name == b;
      BasenameOf(pre, b);
    } else {
      var e := pre + name[..k];
      assert e[|e| - 1] == name[k - 1] == '/';
      assert pre + name == e + b by { assert name == name[..k] + name[k..]; }
      BasenameOf(e, b);
    }
  }

  /** Joining a slash-free name under a directory not ending in `/` inserts one `/`. */
  lemma JoinRelative(dir: string, name: string)
    requires '/' !in name
    requires dir != [] && dir[|dir| - 1] != '/'
    ensures Join(dir, name) == dir + "/" + name
  {
    assert name != [] ==> name[0] in name;
  }
}
