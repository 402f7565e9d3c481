/** On-demand scanning: check each file against the whitelist, scan it, quarantine what is reported. */
module Driver {
  import opened CString
  import opened Stdio
  import opened Scanner
  import Whitelist

  const FOUND := -5
  const ROOT: nat := 0
  const INFECTED := ".infected"

  /** A regular file. loadable: seeking and reading all its bytes succeeds. */
  datatype Node = Node(content: seq<Byte>, mode: nat, loadable: bool)

  type FileSystem = map<string, Node>

  /** What surrounds one run of the scanner: its data files, and how the system answers its calls.
      opens(uid, mode): fopen for reading; sha1sum: the hash process, if popen starts it;
      dirs: the directories, with their entries if opendir succeeds;
      renames, chmods: success of rename on a source and of chmod on a target;
      raises: seteuid(0) is permitted. */
  datatype Env = Env(
    database: seq<Byte>,
    whitelist: Option<seq<Byte>>,
    sha1sum: Option<seq<Byte> -> seq<Byte>>,
    dirs: map<string, Option<seq<string>>>,
    opens: (nat, nat) -> bool,
    renames: string -> bool,
    chmods: (nat, string) -> bool,
    raises: bool)

  ghost predicate ValidEnv(env: Env) {
    && WellFormed(Lines(env.database))
    && (env.sha1sum.Some? ==> forall c :: env.sha1sum.value(c) != [])
    && "" !in env.dirs
  }

  // ---- What one visit does ----

  predicate CanOpen(env: Env, euid: nat, fs: FileSystem, path: string) {
    path in fs && env.opens(euid, fs[path].mode)
  }

  function HashOutput(env: Env, content: seq<Byte>): Option<seq<Byte>> {
    if env.sha1sum.None? then None else Some(env.sha1sum.value(content))
  }

  /** What the whitelist says about an opened file. */
  ghost function NodeCode(env: Env, node: Node): int
    requires ValidEnv(env)
  {
    Whitelist.FileCode(env.whitelist, HashOutput(env, node.content))
  }

  /** 2 if the file does not open, else what the whitelist says. */
  ghost function WhitelistCode(env: Env, euid: nat, fs: FileSystem, path: string): (code: int)
    requires ValidEnv(env)
    ensures code == 2 <==> path !in fs || !env.opens(euid, fs[path].mode)
  {
    if CanOpen(env, euid, fs, path) then NodeCode(env, fs[path]) else 2
  }

  function RaisedUid(env: Env, euid: nat): nat {
    if env.raises then ROOT else euid
  }

  function Renamed(fs: FileSystem, path: string): FileSystem
    requires path in fs
  {
    (fs - {path})[path + INFECTED := fs[path]]
  }

  function Locked(fs: FileSystem, path: string): FileSystem
    requires path in fs
  {
    fs[path := fs[path].(mode := 0)]
  }

  function Quarantine(env: Env, euid: nat, fs: FileSystem, path: string): FileSystem
    requires path in fs
  {
    if !env.renames(path) then fs
    else if !env.chmods(RaisedUid(env, euid), path + INFECTED) then Renamed(fs, path)
    else Locked(Renamed(fs, path), path + INFECTED)
  }

  /** The state the walk carries from file to file. */
  datatype Walk = Walk(fs: FileSystem, name: seq<Byte>, re: int)

  /** The file opens, passes the whitelist check as "not listed" and loads. */
  ghost predicate ScannedNode(env: Env, euid: nat, node: Node)
    requires ValidEnv(env)
  {
    env.opens(euid, node.mode) && NodeCode(env, node) == 0 && node.loadable
  }

  ghost function Visit(env: Env, euid: nat, w: Walk, path: string): (r: Walk)
    requires ValidEnv(env) && |w.name| == MAX_NAME_LEN
    ensures |r.name| == MAX_NAME_LEN
  {
    if path !in w.fs || !ScannedNode(env, euid, w.fs[path]) then w
    else
      var name := NameAfterScan(w.fs[path].content, Lines(env.database), w.name);
      if name[0] == NUL then w.(name := name)
      else Walk(Quarantine(env, euid, w.fs, path), name, FOUND)
  }

  ghost function VisitAll(env: Env, euid: nat, w: Walk, paths: seq<string>): (r: Walk)
    requires ValidEnv(env) && |w.name| == MAX_NAME_LEN
    ensures |r.name| == MAX_NAME_LEN
    decreases |paths|
  {
    if paths == [] then w else VisitAll(env, euid, Visit(env, euid, w, paths[0]), paths[1..])
  }

  /** The early FAIL returns are never taken while nothing else touches the file system. */
  lemma {:induction false} WalkNeverFails(env: Env, euid: nat, w: Walk, paths: seq<string>)
    requires ValidEnv(env) && |w.name| == MAX_NAME_LEN
    ensures VisitAll(env, euid, w, paths).re in {w.re, FOUND}
    decreases |paths|
  {
    if paths != [] {
      WalkNeverFails(env, euid, Visit(env, euid, w, paths[0]), paths[1..]);
    }
  }

  // ---- Which files a start path stands for ----

  function Join(dir: string, entry: string): string
    requires dir != ""
  {
    if dir[|dir| - 1] != '/' then dir + "/" + entry else dir + entry
  }

  function Paths(dir: string, entries: seq<string>): seq<string>
    requires dir != ""
  {
    if entries == [] then []
    else if entries[0] == "." || entries[0] == ".." then Paths(dir, entries[1..])
    else [Join(dir, entries[0])] + Paths(dir, entries[1..])
  }

  function Targets(env: Env, start: string): seq<string>
    requires "" !in env.dirs
  {
    if start !in env.dirs then [start]
    else if env.dirs[start].None? then []
    else Paths(start, env.dirs[start].value)
  }

  // ---- The program ----

  class Host {
    const env: Env
    var fs: FileSystem
    var euid: nat

    constructor (env: Env, fs: FileSystem, euid: nat)
      ensures this.env == env && this.fs == fs && this.euid == euid
    {
      this.env, this.fs, this.euid := env, fs, euid;
    }

    method FOpen(path: string) returns (file: Option<Node>)
      ensures file == if CanOpen(env, euid, fs, path) then Some(fs[path]) else None
    {
      if path in fs && env.opens(euid, fs[path].mode) { return Some(fs[path]); }
      return None;
    }

    method WhitelistCheck(path: string) returns (code: int)
      requires ValidEnv(env)
      ensures code == WhitelistCode(env, euid, fs, path)
      ensures code == 2 <==> path !in fs || !env.opens(euid, fs[path].mode)
    {
      var file := FOpen(path);
      if file.None? { return 2; }
      var output := None;
      if env.sha1sum.Some? { output := Some(env.sha1sum.value(file.value.content)); }
      code := Whitelist.UsingFileWhitelistCheck(env.whitelist, output);
    }

    method SetEuid(uid: nat)
      modifies this`euid
      ensures euid == if uid == ROOT then RaisedUid(env, old(euid)) else uid
    {
      if uid != ROOT || env.raises { euid := uid; }
    }

    method RenameAndRemovePermission(path: string) returns (ret: int)
      requires path in fs
      modifies this
      ensures fs == Quarantine(env, euid, old(fs), path)
      ensures euid == old(euid)
      ensures ret == if env.renames(path) && env.chmods(RaisedUid(env, euid), path + INFECTED) then SUCCESS else FAIL
    {
      var newname := path + INFECTED;
      if !env.renames(path) { return FAIL; }
      fs := (fs - {path})[newname := fs[path]];

      var saved := euid;
      SetEuid(ROOT);
      var changed := env.chmods(euid, newname);
      if changed {
        fs := fs[newname := fs[newname].(mode := 0)];
      }
      SetEuid(saved);
      return if changed then SUCCESS else FAIL;
    }

    /** The loop body of the directory walk, and the whole of the single-file case.
        reached is false where the source closes the database and returns FAIL. */
    method CheckFile(path: string, db: Stream, virus_name: array<Byte>, re: int) returns (reached: bool, result: int)
      requires ValidEnv(env) && virus_name.Length == MAX_NAME_LEN
      requires db.Valid() && db.data == env.database && db.pos == 0
      modifies this, db, virus_name
      ensures reached && db.Valid() && db.pos == 0 && euid == old(euid)
      ensures Walk(fs, virus_name[..], result) == Visit(env, euid, Walk(old(fs), old(virus_name[..]), re), path)
    {
      reached, result := true, re;
      assert db.Rest() == env.database;
      var wc := WhitelistCheck(path);
      if wc == 0 {
        var fd := FOpen(path);
        if fd.None? { return false, FAIL; }
        var r := Scan(Source(fd.value.content, fd.value.loadable), db, virus_name);
        if r == SUCCESS && virus_name[0] != NUL {
          result := FOUND;
          var ret := RenameAndRemovePermission(path);
        }
      }
    }

    method OnDemand(start_path: string, virus_name: array<Byte>) returns (re: int)
      requires ValidEnv(env) && virus_name.Length == MAX_NAME_LEN
      modifies this, virus_name
      ensures euid == old(euid)
      ensures Walk(fs, virus_name[..], re) ==
        VisitAll(env, euid, Walk(old(fs), old(virus_name[..]), SUCCESS), Targets(env, start_path))
      ensures re == 1 || re == -5
    {
      re := SUCCESS;
      var reached;
      var db := new Stream(env.database);
      ghost var start := Walk(fs, virus_name[..], SUCCESS);
      ghost var paths := Targets(env, start_path);
      if start_path in env.dirs {
        if env.dirs[start_path].Some? {
          var entries := env.dirs[start_path].value;
          var i := 0;
          assert entries[0..] == entries;
          while i < |entries|
            invariant i <= |entries| && euid == old(euid)
            invariant db.Valid() && db.pos == 0
            invariant VisitAll(env, euid, Walk(fs, virus_name[..], re), Paths(start_path, entries[i..])) ==
              VisitAll(env, euid, start, paths)
          {
            assert entries[i..][1..] == entries[i + 1..];
            var entry := entries[i];
            if entry != "." && entry != ".." {
              var path := start_path;
              if path[|path| - 1] != '/' {
                path := path + "/";
              }
              path := path + entry;
              reached, re := CheckFile(path, db, virus_name, re);
              if !reached { return FAIL; }
            }
            i := i + 1;
          }
        }
      } else {
        reached, re := CheckFile(start_path, db, virus_name, re);
        if !reached { return FAIL; }
      }
      WalkNeverFails(env, euid, start, paths);
    }
  }
}
