/**
 * The filesystem-facing helpers the configurator calls: `os.path.expanduser`,
 * `os.path.join` and `os.listdir`. The user's home directory, the password
 * database and the directory tree are inputs (`Home`, `FileSystem`), not
 * something the model reads.
 */
module Paths {
  import opened Wrappers
  import opened Text
  import opened Registry

  /** `$HOME` and the home directories of other users (what `pwd.getpwnam` would answer). */
  datatype Home = Home(home: string, users: map<string, string>)

  /** A snapshot of the filesystem: directories with their entries, and JSON files already parsed. */
  datatype FileSystem = FileSystem(dirs: map<string, seq<string>>, files: map<string, Doc>)

  /** The index of the first `c` at or after `from`, or `|s|` when there is none. */
  function FindOrEnd(s: string, c: char, from: nat): (i: nat)
    requires from <= |s|
    ensures from <= i <= |s|
    ensures i < |s| ==> s[i] == c
    ensures forall k :: from <= k < i ==> s[k] != c
    decreases |s| - from
  {
    if from == |s| || s[from] == c then from else FindOrEnd(s, c, from + 1)
  }

  function RStripSlashes(s: string): (r: string)
    ensures |r| <= |s| && r == s[..|r|]
    ensures r == "" || r[|r| - 1] != '/'
  {
    if |s| > 0 && s[|s| - 1] == '/' then RStripSlashes(s[..|s| - 1]) else s
  }

  /** `(userhome.rstrip('/') + rest) or '/'` */
  function Rooted(userhome: string, rest: string): string {
    var r := RStripSlashes(userhome) + rest;
    if r == "" then "/" else r
  }

  /** `os.path.expanduser(path)` on POSIX, with `$HOME` set. */
  function ExpandUser(h: Home, path: string): string {
    if !StartsWith(path, "~") then path
    else
      var i := FindOrEnd(path, '/', 1);
      if i == 1 then Rooted(h.home, path[i..])
      else if path[1..i] in h.users then Rooted(h.users[path[1..i]], path[i..])
      else path
  }

  /** No home directory itself begins with `~`. */
  predicate Sane(h: Home) {
    && !StartsWith(h.home, "~")
    && forall u :: u in h.users ==> !StartsWith(h.users[u], "~")
  }

  lemma RootedUntilded(userhome: string, rest: string)
    requires !StartsWith(userhome, "~")
    requires rest == "" || rest[0] == '/'
    ensures !StartsWith(Rooted(userhome, rest), "~")
  {
    var stripped := RStripSlashes(userhome);
    var r := Rooted(userhome, rest);
    if stripped != "" {
      assert userhome[..1] == [userhome[0]];
      assert stripped[0] == userhome[0];
      assert r[0] == stripped[0];
      assert r[..1] == [r[0]];
    } else if rest != "" {
      assert r == rest;
      assert r[..1] == [r[0]];
    } else {
      assert r == "/";
      assert r[..1] == "/" != "~";
    }
  }

  /**
   * Expanding twice is expanding once, as long as no home directory begins
   * with `~`: an expanded path no longer begins with `~`, or is unchanged.
   */
  lemma ExpandIdempotent(h: Home, path: string)
    requires Sane(h)
    ensures ExpandUser(h, ExpandUser(h, path)) == ExpandUser(h, path)
  {
    if StartsWith(path, "~") {
      var i := FindOrEnd(path, '/', 1);
      if i == 1 {
        RootedUntilded(h.home, path[i..]);
      } else if path[1..i] in h.users {
        RootedUntilded(h.users[path[1..i]], path[i..]);
      }
    }
  }

  /** `os.path.join(a, b)` on POSIX: an absolute `b` replaces `a`. */
  function Join(a: string, b: string): (r: string)
    ensures StartsWith(b, "/") ==> r == b
  {
    if StartsWith(b, "/") then b
    else if a == "" || a[|a| - 1] == '/' then a + b
    else a + "/" + b
  }

  /** `os.listdir(path)`: the entries of a directory, in no particular order. */
  function ListDir(fs: FileSystem, path: string): (r: Result<seq<string>>)
    ensures r.Ok? <==> path in fs.dirs
    ensures r.Ok? ==> r.value == fs.dirs[path]
    ensures r.Err? ==> (r.error.NotADirectory? || r.error.FileNotFound?) && r.error.path == path
    ensures r.Err? ==> (r.error.NotADirectory? <==> path in fs.files)
  {
    if path in fs.dirs then Ok(fs.dirs[path])
    else if path in fs.files then Err(NotADirectory(path))
    else Err(FileNotFound(path))
  }
}
