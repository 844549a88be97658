/** `os.path.join` and `os.path.basename` on POSIX paths, and the
    directories the routes read from. */
module Paths {

  /** `os.path.join(dir, name)`: an absolute `name` replaces `dir`; otherwise
      a `/` goes between them unless `dir` is empty or already ends in one. */
  function Join(dir: string, name: string): string {
    if name != [] && name[0] == '/' then name
    else if dir == [] || dir[|dir| - 1] == '/' then dir + name
    else dir + "/" + name
  }

  /** An absolute name is the whole result; otherwise the result starts with
      the directory and ends with the name. */
  lemma JoinShape(dir: string, name: string)
    ensures name != [] && name[0] == '/' ==> Join(dir, name) == name
    ensures name == [] || name[0] != '/' ==>
      var p := Join(dir, name);
      dir <= p && |name| <= |p| && p[|p| - |name|..] == name
  {
    if name == [] || name[0] != '/' {
      var p := Join(dir, name);
      if !(dir == [] || dir[|dir| - 1] == '/') {
        assert p == dir + ("/" + name);
      }
    }
  }

  /** `os.path.basename(p)`: what follows the last `/` of `p` (all of `p`
      when it has none). */
  function Basename(p: string): (b: string)
    ensures '/' !in b
    ensures |b| <= |p| && b == p[|p| - |b|..]
    ensures |b| < |p| ==> p[|p| - |b| - 1] == '/'
  {
    if p == [] || p[|p| - 1] == '/' then []
    else
      var init := p[..|p| - 1];
      var b := Basename(init);
      assert p[|p| - |b| - 1..] == init[|init| - |b|..] + [p[|p| - 1]];
      b + [p[|p| - 1]]
  }

  /** A name without `/` after a prefix that is empty or ends in `/` is the
      basename of the whole. */
  lemma {:induction false} BasenameAfterSlash(q: string, name: string)
    requires q == [] || q[|q| - 1] == '/'
    requires '/' !in name
    ensures Basename(q + name) == name
  {
    var p := q + name;
    if name != [] {
      var init := name[..|name| - 1];
      assert p[|p| - 1] == name[|name| - 1] != '/';
      assert p[..|p| - 1] == q + init;
      BasenameAfterSlash(q, init);
      assert Basename(p) == init + [p[|p| - 1]];
      assert name == init + [name[|name| - 1]];
    } else {
      assert p == q;
    }
  }

  /** A name without a `/` is its own basename once joined to any directory:
      `os.path.basename(os.path.join(d, n)) == n`. */
  lemma BasenameOfJoin(dir: string, name: string)
    requires '/' !in name
    ensures Basename(Join(dir, name)) == name
  {
    if dir == [] || dir[|dir| - 1] == '/' {
      BasenameAfterSlash(dir, name);
    } else {
      assert Join(dir, name) == (dir + "/") + name;
      BasenameAfterSlash(dir + "/", name);
    }
  }

  /** A file name without `/` joined to a directory lies under that
      directory and is its own basename. */
  lemma JoinFileName(dir: string, name: string)
    requires '/' !in name
    ensures dir <= Join(dir, name) && Basename(Join(dir, name)) == name
  {
    JoinShape(dir, name);
    BasenameOfJoin(dir, name);
  }

  /** Where the routes look for files: the directory that holds the route
      module (`BASE_DIR`), the data directory (`DATA_DIR`) and the team used
      when nothing else is known (`DEFAULT_TEAM`). */
  datatype Settings = Settings(baseDir: string, dataDir: string, defaultTeam: string)

  /** `static/logos` under the route module's directory. */
  function StaticLogosDir(cfg: Settings): string {
    Join(Join(cfg.baseDir, "static"), "logos")
  }

  /** `logos` under the data directory. */
  function DataLogosDir(cfg: Settings): string {
    Join(cfg.dataDir, "logos")
  }
}
