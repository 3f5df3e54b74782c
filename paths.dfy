/** Local file-system paths as the handler builds them with Node's
    `path.join`, and the two views of a path that the storage client and
    the file system use: its last component (what `bucket.upload` names the
    uploaded object) and its parent directory. */
module Paths {

  /** `path.join(dir, name)` for a normalised `dir` and a plain `name`. */
  function Join(dir: string, name: string): (r: string)
    ensures |r| == |dir| + 1 + |name|
    ensures Under(r, dir)
  {
    dir + "/" + name
  }

  /** The index of the last '/' in `p`, or -1 when there is none. */
  function LastSlash(p: string): (r: int)
    ensures -1 <= r < |p|
    ensures r >= 0 ==> p[r] == '/'
    ensures forall i :: r < i < |p| ==> p[i] != '/'
    decreases |p|
  {
    if p == [] then -1
    else if p[|p| - 1] == '/' then |p| - 1
    else LastSlash(p[..|p| - 1])
  }

  /** The last component of `p`: everything after its last '/'. */
  function Base(p: string): (r: string)
    ensures '/' !in r
  {
    p[LastSlash(p) + 1..]
  }

  /** The parent directory of `p`: everything before its last '/', or the
      empty string when `p` has no '/'. */
  function Dir(p: string): string {
    var i := LastSlash(p);
    if i < 0 then "" else p[..i]
  }

  /** Whether `p` lies somewhere below directory `dir`. */
  predicate Under(p: string, dir: string) {
    dir + "/" <= p
  }

  /** The last '/' of a path joined from a directory and a plain name is
      the one `Join` put in. */
  lemma {:induction false} LastSlashOfJoin(dir: string, name: string)
    requires '/' !in name
    ensures LastSlash(Join(dir, name)) == |dir|
    decreases |name|
  {
    var p := Join(dir, name);
    if name == [] {
      assert p[|p| - 1] == '/';
    } else {
      var shorter := name[..|name| - 1];
      LastSlashOfJoin(dir, shorter);
      assert p[..|p| - 1] == Join(dir, shorter);
      assert p[|p| - 1] == name[|name| - 1];
    }
  }

  /** Joining a plain name to a directory and taking the path apart again
      gives back the directory and the name. */
  lemma JoinParts(dir: string, name: string)
    requires '/' !in name
    ensures Base(Join(dir, name)) == name
    ensures Dir(Join(dir, name)) == dir
    ensures Under(Join(dir, name), dir)
  {
    LastSlashOfJoin(dir, name);
    assert Join(dir, name)[..|dir|] == dir;
    assert Join(dir, name)[|dir| + 1..] == name;
  }

  /** Two paths in the same directory are equal exactly when their names are. */
  lemma JoinInjective(dir: string, a: string, b: string)
    ensures Join(dir, a) == Join(dir, b) <==> a == b
  {
    if Join(dir, a) == Join(dir, b) {
      assert a == Join(dir, a)[|dir| + 1..];
      assert b == Join(dir, b)[|dir| + 1..];
    }
  }
}
