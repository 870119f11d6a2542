/** Path logic of mounts (modal/mount.py): the names of the prebuilt client
    and python-build-standalone mounts, the file filter used when mounting a
    Python package, the test for paths that belong to Modal's own packages,
    and how mount entries are added and turned into (local, remote) file
    pairs. Paths are `PurePosixPath`s split into their parts; directory
    walks and `stat` become given listings and flags. */
module Mount {
  import opened Errors
  import opened Collections

  /** A normalised `PurePosixPath`: whether it is anchored at "/" and its
      names (never empty, never "."). */
  datatype Path = Path(absolute: bool, names: seq<string>)

  /** `path.parts`: "/" first for an absolute path, then the names. */
  function Parts(p: Path): seq<string>
  {
    (if p.absolute then ["/"] else []) + p.names
  }

  /** `path.name`: the last name, or "" when there is none. */
  function Name(p: Path): string
  {
    if |p.names| == 0 then "" else p.names[|p.names| - 1]
  }

  /** `path.parent`: drops the last name; the root and "." are their own
      parents. */
  function Parent(p: Path): (r: Path)
    ensures r.absolute == p.absolute
    ensures |p.names| > 0 ==> r.names + [Name(p)] == p.names
    ensures |p.names| == 0 ==> r == p
  {
    if |p.names| == 0 then p else Path(p.absolute, p.names[..|p.names| - 1])
  }

  /** `a / b`: an absolute `b` replaces `a`, a relative one is appended. */
  function Join(a: Path, b: Path): (r: Path)
    ensures b.absolute ==> r == b
    ensures !b.absolute ==> r.absolute == a.absolute && r.names == a.names + b.names
  {
    if b.absolute then b else Path(a.absolute, a.names + b.names)
  }

  /** `PurePosixPath("/", p)`: `p` anchored at the root. */
  function Anchor(p: Path): (r: Path)
    ensures r.absolute && r.names == p.names
  {
    Join(Path(true, []), p)
  }

  /** `PurePosixPath(name)` for one file name: "" is the empty path. */
  function PathOfName(name: string): Path
  {
    Path(false, if name == "" then [] else [name])
  }

  // ---------------------------------------------------------------------
  // Mount names

  const CLIENT_MOUNT_PREFIX: string := "modal-client-mount-"

  /** A character of the regular expression class `[\d\.\w]` (ASCII). */
  predicate VersionChar(c: char)
  {
    ('0' <= c <= '9') || ('a' <= c <= 'z') || ('A' <= c <= 'Z') || c == '_' || c == '.'
  }

  /** `client_mount_name` for the client version string: the leading run of
      version characters, so a `+hash` suffix is dropped; a version that
      does not start with one raises. */
  function ClientMountName(version: string): (r: Result<string>)
    ensures r.Ok? <==> |version| > 0 && VersionChar(version[0])
    ensures r.Err? ==> r.error == ExecutionError
    ensures r.Ok? ==> exists run: string ::
      (r.value == CLIENT_MOUNT_PREFIX + run && StartsWith(version, run)
       && (forall i | 0 <= i < |run| :: VersionChar(run[i]))
       && (|run| < |version| ==> !VersionChar(version[|run|])))
  {
    var run := TakeWhile(version, VersionChar);
    if |run| == 0 then Err(ExecutionError) else Ok(CLIENT_MOUNT_PREFIX + run)
  }

  /** A version made of version characters keeps all of them, and anything
      after a '+' is cut off. */
  lemma {:induction false} ClientMountNameDropsSuffix(version: string, suffix: string)
    requires |version| > 0 && forall i | 0 <= i < |version| :: VersionChar(version[i])
    requires |suffix| > 0 && suffix[0] == '+'
    ensures ClientMountName(version + suffix) == Ok(CLIENT_MOUNT_PREFIX + version)
  {
    TakeWhileRun(version, suffix, VersionChar);
  }

  /** `PYTHON_STANDALONE_VERSIONS`: version -> (release, full version). */
  const PYTHON_STANDALONE_VERSIONS: seq<(string, (string, string))> := [
    ("3.9", ("20230826", "3.9.18")),
    ("3.10", ("20230826", "3.10.13")),
    ("3.11", ("20230826", "3.11.5")),
    ("3.12", ("20240107", "3.12.1")),
    ("3.13", ("20241008", "3.13.0"))
  ]

  /** The first position of `c` in `s`. */
  function IndexOf(s: string, c: char): (r: Option<nat>)
    ensures r.None? <==> c !in s
    ensures r.Some? ==> r.value < |s| && s[r.value] == c && c !in s[..r.value]
  {
    if |s| == 0 then None
    else if s[0] == c then Some(0)
    else match IndexOf(s[1..], c)
      case None => None
      case Some(i) =>
        assert s[1..][..i] == s[1..i + 1];
        Some(i + 1)
  }

  /** `version, libc = version.split("-")` when the version has a "-" (a
      second "-" makes the unpacking raise), and libc "gnu" otherwise. */
  function SplitLibc(version: string): (r: Result<(string, string)>)
    ensures r.Err? ==> r.error == ValueError
    ensures '-' !in version ==> r == Ok((version, "gnu"))
    ensures r.Ok? && '-' in version ==> version == r.value.0 + "-" + r.value.1
    ensures r.Ok? ==> '-' !in r.value.0 && '-' !in r.value.1
  {
    match IndexOf(version, '-')
    case None => Ok((version, "gnu"))
    case Some(i) =>
      var rest := version[i + 1..];
      if '-' in rest then Err(ValueError)
      else
        assert version == version[..i] + "-" + rest;
        Ok((version[..i], rest))
  }

  function StandaloneName(release: string, full: string, libc: string): string
  {
    "python-build-standalone." + release + "." + full + "-" + libc
  }

  /** `python_standalone_mount_name`: only listed versions and the glibc
      build are accepted, and the name comes from the table entry. */
  function PythonStandaloneMountName(version: string): (r: Result<string>)
    ensures r.Err? ==> r.error == ValueError || r.error == InvalidError
    ensures '-' !in version ==>
      (r.Ok? <==> version in Keys(PYTHON_STANDALONE_VERSIONS))
    ensures r.Ok? ==> exists i | 0 <= i < |PYTHON_STANDALONE_VERSIONS| ::
      var (key, entry) := PYTHON_STANDALONE_VERSIONS[i];
      r.value == StandaloneName(entry.0, entry.1, "gnu")
      && (version == key || version == key + "-gnu")
  {
    var split :- SplitLibc(version);
    var (v, libc) := split;
    LookupFound(PYTHON_STANDALONE_VERSIONS, v);
    match Lookup(PYTHON_STANDALONE_VERSIONS, v)
    case None => Err(InvalidError)
    case Some(entry) =>
      if libc != "gnu" then Err(InvalidError)
      else Ok(StandaloneName(entry.0, entry.1, libc))
  }

  /** A dict lookup finds a key exactly when it is one of the keys, and then
      returns the value stored at some position holding that key. */
  lemma {:induction false} LookupFound<K, V>(d: seq<(K, V)>, key: K)
    ensures Lookup(d, key).Some? <==> key in Keys(d)
    ensures Lookup(d, key).Some? ==> exists i | 0 <= i < |d| :: d[i] == (key, Lookup(d, key).value)
  {
    if |d| > 0 && d[0].0 != key {
      LookupFound(d[1..], key);
      assert Keys(d) == [d[0].0] + Keys(d[1..]);
      if Lookup(d, key).Some? {
        var i :| 0 <= i < |d[1..]| && d[1..][i] == (key, Lookup(d, key).value);
        assert d[i + 1] == (key, Lookup(d, key).value);
      }
    } else if |d| > 0 {
      assert d[0] == (key, Lookup(d, key).value);
    }
  }

  /** The libc suffix defaults to "gnu": asking for "-gnu" explicitly gives
      the same answer, for every version. */
  lemma StandaloneDefaultsToGnu(version: string)
    requires '-' !in version
    ensures PythonStandaloneMountName(version + "-gnu") == PythonStandaloneMountName(version)
  {
    var v := version + "-gnu";
    assert v[|version|] == '-' && v[..|version|] == version && v[|version| + 1..] == "gnu";
    assert IndexOf(v, '-') == Some(|version|) by {
      IndexOfFirst(v, '-', |version|);
    }
  }

  lemma IndexOfFirst(s: string, c: char, i: nat)
    requires i < |s| && s[i] == c && c !in s[..i]
    ensures IndexOf(s, c) == Some(i)
  {
  }

  // ---------------------------------------------------------------------
  // The file filter for mounted Python packages (`module_mount_condition`)

  /** Python's `str.rfind(".")`: the last position of a dot, or -1. */
  function LastDot(name: string): (r: int)
    ensures -1 <= r < |name|
    ensures r >= 0 ==> name[r] == '.'
    ensures forall k | r < k < |name| :: name[k] != '.'
  {
    if |name| == 0 then -1
    else if name[|name| - 1] == '.' then |name| - 1
    else LastDot(name[..|name| - 1])
  }

  /** `PurePath.suffix`: from the last dot on, unless the dot is the first
      or the last character. */
  function Suffix(name: string): string
  {
    var i := LastDot(name);
    if 0 < i < |name| - 1 then name[i..] else ""
  }

  /** The suffix is ".pyc" exactly when the name ends in ".pyc" after at
      least one other character (a bare ".pyc" has no suffix). */
  lemma PycSuffix(name: string)
    ensures Suffix(name) == ".pyc" <==> EndsWith(name, ".pyc") && |name| > 4
  {
    var i := LastDot(name);
    if EndsWith(name, ".pyc") && |name| > 4 {
      assert name[|name| - 4] == '.';
      assert i == |name| - 4;
    }
    if Suffix(name) == ".pyc" {
      assert name[i..] == ".pyc";
    }
  }

  /** A directory or file name the package filter leaves out. */
  predicate Hidden(name: string)
  {
    name == "__pycache__" || StartsWith(name, ".")
  }

  /** The `while` loop of the filter: walks from the file towards the root,
      stopping at the module base, and rejects any hidden name met. */
  function WalkUp(moduleBase: Path, path: Path): bool
    decreases |path.names|
  {
    if path == moduleBase || |path.names| == 0 then true
    else if Hidden(Name(path)) then false
    else WalkUp(moduleBase, Parent(path))
  }

  /** `module_mount_condition(module_base)(f)`: a file is accepted exactly
      when it is not bytecode and no name from the file itself up to, not
      including, the module base is `__pycache__` or dot-prefixed. */
  function ModuleMountCondition(moduleBase: Path, f: Path): (r: bool)
    ensures r <==>
      !(EndsWith(Name(f), ".pyc") && |Name(f)| > 4)
      && forall i | CheckedFrom(moduleBase, f) <= i < |f.names| :: !Hidden(f.names[i])
  {
    PycSuffix(Name(f));
    WalkUpSpec(moduleBase, f);
    if Suffix(Name(f)) == ".pyc" then false else WalkUp(moduleBase, f)
  }

  /** `module_mount_ignore_condition`: the negation. */
  function ModuleMountIgnore(moduleBase: Path): (ignore: Path -> bool)
    ensures forall f :: ignore(f) == !ModuleMountCondition(moduleBase, f)
  {
    f => !ModuleMountCondition(moduleBase, f)
  }

  /** `a` is `p` or one of its ancestors. */
  predicate AncestorOrSelf(a: Path, p: Path)
  {
    a.absolute == p.absolute && |a.names| <= |p.names| && p.names[..|a.names|] == a.names
  }

  /** Where the checked names of `p` start: below the module base when the
      base is an ancestor, otherwise at the top. */
  function CheckedFrom(moduleBase: Path, p: Path): nat
  {
    if AncestorOrSelf(moduleBase, p) then |moduleBase.names| else 0
  }

  lemma {:induction false} WalkUpSpec(moduleBase: Path, p: Path)
    ensures WalkUp(moduleBase, p) <==> forall i | CheckedFrom(moduleBase, p) <= i < |p.names| :: !Hidden(p.names[i])
    decreases |p.names|
  {
    if p == moduleBase {
      assert AncestorOrSelf(moduleBase, p);
    } else if |p.names| > 0 {
      var q := Parent(p);
      WalkUpSpec(moduleBase, q);
      ParentChecked(moduleBase, p);
      assert p.names[|p.names| - 1] == Name(p);
      assert forall i | CheckedFrom(moduleBase, p) <= i < |q.names| :: q.names[i] == p.names[i];
    }
  }

  /** Stepping to the parent neither adds nor removes the module base from
      the ancestors, unless the path is the base itself. */
  lemma ParentChecked(moduleBase: Path, p: Path)
    requires p != moduleBase && |p.names| > 0
    ensures CheckedFrom(moduleBase, Parent(p)) == CheckedFrom(moduleBase, p)
    ensures CheckedFrom(moduleBase, p) < |p.names|
  {
    var q := Parent(p);
    if AncestorOrSelf(moduleBase, p) {
      assert q.names[..|moduleBase.names|] == p.names[..|moduleBase.names|];
    }
    if AncestorOrSelf(moduleBase, q) {
      assert p.names[..|moduleBase.names|] == q.names[..|moduleBase.names|];
    }
  }

  // ---------------------------------------------------------------------
  // Modal's own packages (`_is_modal_path`)

  /** Every first-three-parts value `_is_modal_path` accepts. */
  const MODAL_PREFIXES: seq<seq<string>> := [
    ["/", "root", "modal"], ["/", "root", "modal_proto"], ["/", "root", "modal_version"],
    ["/", "root", "synchronicity"], ["/", "pkg", "modal"], ["/", "pkg", "modal_proto"],
    ["/", "pkg", "modal_version"], ["/", "pkg", "synchronicity"]
  ]

  /** `_is_modal_path`: the path is `/root/<pkg>...` or `/pkg/<pkg>...` for
      one of Modal's packages (`modal`, `modal_proto`, `modal_version`) or
      synchronicity. A relative path qualifies only through a first name
      "/", which `PurePosixPath` never produces. */
  function IsModalPath(remotePath: Path): (r: bool)
    ensures remotePath.absolute ==>
      (r <==> |remotePath.names| >= 2
              && remotePath.names[0] in {"root", "pkg"}
              && remotePath.names[1] in {"modal", "modal_proto", "modal_version", "synchronicity"})
    ensures !remotePath.absolute && r ==> |remotePath.names| >= 3 && remotePath.names[0] == "/"
  {
    ModalPrefixOfPath(remotePath);
    FirstParts(remotePath) in MODAL_PREFIXES
  }

  /** `path.parts[:3]`. */
  function FirstParts(p: Path): seq<string>
  {
    var parts := Parts(p);
    parts[..if |parts| < 3 then |parts| else 3]
  }

  lemma ModalPrefixOfPath(p: Path)
    ensures p.absolute ==>
      (FirstParts(p) in MODAL_PREFIXES <==>
         (|p.names| >= 2
          && p.names[0] in {"root", "pkg"}
          && p.names[1] in {"modal", "modal_proto", "modal_version", "synchronicity"}))
    ensures !p.absolute && FirstParts(p) in MODAL_PREFIXES ==> |p.names| >= 3 && p.names[0] == "/"
  {
    var prefix := FirstParts(p);
    ModalPrefixMembers(prefix);
    if |prefix| == 3 {
      if p.absolute {
        assert prefix[1] == p.names[0] && prefix[2] == p.names[1];
      } else {
        assert prefix[0] == p.names[0];
      }
    }
  }

  lemma ModalPrefixMembers(prefix: seq<string>)
    ensures prefix in MODAL_PREFIXES <==>
      |prefix| == 3 && prefix[0] == "/" && prefix[1] in {"root", "pkg"}
      && prefix[2] in {"modal", "modal_proto", "modal_version", "synchronicity"}
  {
    if |prefix| == 3 && prefix[0] == "/" && prefix[1] in {"root", "pkg"}
       && prefix[2] in {"modal", "modal_proto", "modal_version", "synchronicity"} {
      assert prefix == [prefix[0], prefix[1], prefix[2]];
    }
  }

  /** Only the first three parts matter: a path below a Modal package path
      is a Modal path too, and below any other path it is not. */
  lemma ModalPathBelow(p: Path, rel: Path)
    requires p.absolute && |p.names| >= 2 && !rel.absolute
    ensures IsModalPath(Join(p, rel)) == IsModalPath(p)
  {
    assert Join(p, rel).names[..2] == p.names[..2];
  }

  // ---------------------------------------------------------------------
  // Mount entries

  /** `_MountFile`, `_MountDir` and `_MountedPythonModule`. An ignore
      condition is a predicate on paths relative to the directory. */
  datatype MountEntry =
    | MountFile(localFile: Path, remotePath: Path)
    | MountDir(localDir: Path, remotePath: Path, ignore: Path -> bool, recursive: bool)
    | MountedPythonModule(moduleName: string, remoteDir: Path, moduleIgnore: Option<Path -> bool>)

  datatype MountValue = MountValue(entries: seq<MountEntry>)

  /** `_extend`: a new mount with the entry appended; the old mount is a
      value and stays as it was. */
  function Extend(m: MountValue, entry: MountEntry): (r: MountValue)
    ensures |r.entries| == |m.entries| + 1
    ensures r.entries[..|m.entries|] == m.entries && r.entries[|m.entries|] == entry
  {
    MountValue(m.entries + [entry])
  }

  /** The remote path `add_local_dir` and `add_local_file` use: the given
      one, or the local basename, anchored at "/". */
  function DefaultRemote(localPath: Path, remotePath: Option<Path>): (r: Path)
    ensures r.absolute
    ensures remotePath.Some? ==> r.names == remotePath.value.names
    ensures remotePath.None? && Name(localPath) != "" ==> r.names == [Name(localPath)]
    ensures remotePath.None? && Name(localPath) == "" ==> r.names == []
  {
    Anchor(if remotePath.Some? then remotePath.value else PathOfName(Name(localPath)))
  }

  /** `add_local_dir`: appends a directory entry whose ignore condition is
      the negation of `condition` (no condition ignores nothing). */
  function AddLocalDir(m: MountValue, localPath: Path, remotePath: Option<Path>,
                       condition: Option<Path -> bool>, recursive: bool): (r: MountValue)
    ensures |r.entries| == |m.entries| + 1 && r.entries[..|m.entries|] == m.entries
    ensures var e := r.entries[|m.entries|];
      e.MountDir? && e.localDir == localPath && e.recursive == recursive
      && e.remotePath == DefaultRemote(localPath, remotePath)
      && forall q :: e.ignore(q) == (condition.Some? && !condition.value(q))
  {
    var ignore := (q: Path) => condition.Some? && !condition.value(q);
    Extend(m, MountDir(localPath, DefaultRemote(localPath, remotePath), ignore, recursive))
  }

  /** `add_local_file`: appends a file entry at the defaulted remote path. */
  function AddLocalFile(m: MountValue, localPath: Path, remotePath: Option<Path>): (r: MountValue)
    ensures |r.entries| == |m.entries| + 1 && r.entries[..|m.entries|] == m.entries
    ensures r.entries[|m.entries|] == MountFile(localPath, DefaultRemote(localPath, remotePath))
  {
    Extend(m, MountFile(localPath, DefaultRemote(localPath, remotePath)))
  }

  /** A file to upload: its local path and where it goes in the mount. */
  type FilePair = (Path, Path)

  /** `Path.resolve()` without symlinks: a relative path is taken from the
      working directory `cwd`. */
  function Resolve(cwd: Path, p: Path): Path
  {
    Join(cwd, p)
  }

  /** `_MountFile.get_files_to_upload`: the resolved file itself, if it
      exists, uploaded to the entry's remote path.  `cwd` is the process's
      working directory, which is always absolute. */
  function FileFiles(cwd: Path, localFile: Path, remotePath: Path, exists_: bool): (r: Result<seq<FilePair>>)
    requires cwd.absolute
    ensures r.Err? <==> !exists_
    ensures r.Err? ==> r.error == FileNotFoundError
    ensures r.Ok? ==> |r.value| == 1 && r.value[0].1 == remotePath && r.value[0].0.absolute
    ensures r.Ok? && localFile.absolute ==> r.value[0].0 == localFile
    ensures r.Ok? && !localFile.absolute ==> r.value[0].0.names == cwd.names + localFile.names
  {
    if !exists_ then Err(FileNotFoundError) else Ok([(Resolve(cwd, localFile), remotePath)])
  }

  /** `_MountDir.get_files_to_upload` over the walk's files, given relative
      to the directory: each file that is not ignored goes to
      `remote_path / rel`, in walk order.  Its local half is the file under
      the directory made absolute from the working directory `cwd`. */
  function DirFiles(cwd: Path, localDir: Path, remotePath: Path, ignore: Path -> bool,
                    exists_: bool, isDir: bool, listing: seq<Path>): (r: Result<seq<FilePair>>)
    requires cwd.absolute
    ensures r.Err? <==> !exists_ || !isDir
    ensures !exists_ ==> r == Err(FileNotFoundError)
    ensures exists_ && !isDir ==> r == Err(NotADirectoryError)
    ensures r.Ok? ==> forall pair :: pair in r.value <==>
      exists rel :: rel in listing && !ignore(rel)
                    && pair == (Join(Resolve(cwd, localDir), rel), Join(remotePath, rel))
    ensures r.Ok? && (forall rel | rel in listing :: !rel.absolute) ==>
      forall pair | pair in r.value :: pair.0.absolute
  {
    if !exists_ then Err(FileNotFoundError)
    else if !isDir then Err(NotADirectoryError)
    else Ok(KeptFiles(Resolve(cwd, localDir), remotePath, ignore, listing))
  }

  function KeptFiles(localDir: Path, remotePath: Path, ignore: Path -> bool, listing: seq<Path>): (r: seq<FilePair>)
    ensures forall pair :: pair in r <==>
      exists rel :: rel in listing && !ignore(rel) && pair == (Join(localDir, rel), Join(remotePath, rel))
    ensures |r| <= |listing|
  {
    if |listing| == 0 then []
    else
      var rest := KeptFiles(localDir, remotePath, ignore, listing[1..]);
      var rel := listing[0];
      assert forall x :: x in listing <==> x == rel || x in listing[1..];
      if ignore(rel) then rest else [(Join(localDir, rel), Join(remotePath, rel))] + rest
  }

  /** A package directory mounted with its default filter never uploads
      bytecode, `__pycache__` contents or anything under a dot-prefixed
      name, whatever the walk lists. */
  lemma PackageFilesAreClean(cwd: Path, base: Path, remotePath: Path, listing: seq<Path>, pair: FilePair)
    requires cwd.absolute && base.absolute
    requires forall rel | rel in listing :: !rel.absolute
    requires DirFiles(cwd, base, remotePath, ModuleMountIgnore(base), true, true, listing).Ok?
    requires pair in DirFiles(cwd, base, remotePath, ModuleMountIgnore(base), true, true, listing).value
    ensures exists rel :: (rel in listing && pair.1 == Join(remotePath, rel)
                           && !(EndsWith(Name(rel), ".pyc") && |Name(rel)| > 4)
                           && forall i | 0 <= i < |rel.names| :: !Hidden(rel.names[i]))
  {
    var rel :| rel in listing && !ModuleMountIgnore(base)(rel)
               && pair == (Join(base, rel), Join(remotePath, rel));
    assert CheckedFrom(base, rel) == 0;
  }

  /** `_select_files`: the union of the entries' file pairs, without
      duplicates; the first entry that fails makes the whole call fail. */
  function SelectFiles(perEntry: seq<Result<seq<FilePair>>>): (r: Result<set<FilePair>>)
    ensures r.Ok? <==> forall k | 0 <= k < |perEntry| :: perEntry[k].Ok?
    ensures r.Ok? ==> forall pair :: pair in r.value <==>
      exists k | 0 <= k < |perEntry| :: pair in perEntry[k].value
    ensures r.Err? ==> exists k | 0 <= k < |perEntry| :: perEntry[k] == Err(r.error)
  {
    if |perEntry| == 0 then Ok({})
    else
      var first :- perEntry[0];
      var rest :- SelectFiles(perEntry[1..]);
      assert forall k | 1 <= k < |perEntry| :: perEntry[k] == perEntry[1..][k - 1];
      Ok(ToSet(first) + rest)
  }

  /** Extending a mount adds exactly the new entry's files to the
      selection. */
  lemma SelectFilesExtend(perEntry: seq<Result<seq<FilePair>>>, files: seq<FilePair>)
    requires SelectFiles(perEntry).Ok?
    ensures SelectFiles(perEntry + [Ok(files)]) == Ok(SelectFiles(perEntry).value + ToSet(files))
  {
    var all := perEntry + [Ok(files)];
    assert forall k | 0 <= k < |perEntry| :: all[k] == perEntry[k];
    var r := SelectFiles(all);
    assert r.Ok?;
    forall pair ensures pair in r.value <==> pair in SelectFiles(perEntry).value + ToSet(files) {
      if pair in r.value {
        var k :| 0 <= k < |all| && pair in all[k].value;
        if k < |perEntry| {
          assert pair in perEntry[k].value;
        }
      }
      if pair in ToSet(files) {
        assert pair in all[|perEntry|].value;
      }
      if pair in SelectFiles(perEntry).value {
        var k :| 0 <= k < |perEntry| && pair in perEntry[k].value;
        assert pair in all[k].value;
      }
    }
    assert r.value == SelectFiles(perEntry).value + ToSet(files);
  }

  // ---------------------------------------------------------------------
  // Python packages

  /** Python's `s.split(".")`. */
  function SplitDots(s: string): (r: seq<string>)
    ensures |r| > 0
    ensures forall k | 0 <= k < |r| :: '.' !in r[k]
    decreases |s|
  {
    match IndexOf(s, '.')
    case None => [s]
    case Some(i) =>
      assert forall c | c in s[..i] :: c != '.';
      [s[..i]] + SplitDots(s[i + 1..])
  }

  /** Python's `".".join(pieces)`. */
  function JoinDots(pieces: seq<string>): string
  {
    if |pieces| == 0 then "" else if |pieces| == 1 then pieces[0] else pieces[0] + "." + JoinDots(pieces[1..])
  }

  /** Splitting a dotted module name and joining the pieces back gives the
      name again. */
  lemma {:induction false} SplitDotsRoundTrip(s: string)
    ensures JoinDots(SplitDots(s)) == s
    decreases |s|
  {
    match IndexOf(s, '.')
    case None =>
    case Some(i) =>
      SplitDotsRoundTrip(s[i + 1..]);
      assert s == s[..i] + "." + s[i + 1..];
  }

  /** The names a list of strings contributes to a `PurePosixPath`: empty
      strings add nothing. */
  function NonEmpty(pieces: seq<string>): (r: seq<string>)
    ensures forall k | 0 <= k < |r| :: r[k] != "" && r[k] in pieces
  {
    if |pieces| == 0 then []
    else (if pieces[0] == "" then [] else [pieces[0]]) + NonEmpty(pieces[1..])
  }

  /** `_MountedPythonModule._proxy_entries` for the module's locations: a
      package becomes a recursive directory entry under
      `remote_dir/<module path>` filtered by the package filter unless an
      ignore is given; a single-file module becomes a file entry under its
      parent packages' path. */
  function ProxyEntries(moduleName: string, remoteDir: Path, ignore: Option<Path -> bool>,
                        mountInfos: seq<(bool, Path)>): (r: seq<MountEntry>)
    ensures |r| == |mountInfos|
    ensures forall k | 0 <= k < |r| :: mountInfos[k].0 ==>
      r[k].MountDir? && r[k].localDir == mountInfos[k].1 && r[k].recursive
      && r[k].remotePath == Join(remoteDir, Path(false, NonEmpty(SplitDots(moduleName))))
      && (ignore.None? ==> forall q :: r[k].ignore(q) == !ModuleMountCondition(mountInfos[k].1, q))
      && (ignore.Some? ==> r[k].ignore == ignore.value)
    ensures forall k | 0 <= k < |r| :: !mountInfos[k].0 ==>
      var parents := SplitDots(moduleName)[..|SplitDots(moduleName)| - 1];
      r[k] == MountFile(mountInfos[k].1,
                        Join(remoteDir, Path(false, NonEmpty(parents) + PathOfName(Name(mountInfos[k].1)).names)))
  {
    var pieces := SplitDots(moduleName);
    seq(|mountInfos|, k requires 0 <= k < |mountInfos| =>
      var (isPackage, basePath) := mountInfos[k];
      if isPackage then
        MountDir(basePath, Join(remoteDir, Path(false, NonEmpty(pieces))),
                 if ignore.Some? then ignore.value else ModuleMountIgnore(basePath), true)
      else
        MountFile(basePath, Join(remoteDir, Path(false, NonEmpty(pieces[..|pieces| - 1]) + PathOfName(Name(basePath)).names))))
  }

  /** The `ignore` argument of `_from_local_python_packages`. */
  datatype IgnoreArg =
    | NoIgnore
    | IgnoreCallable(f: Path -> bool)
    | IgnorePatterns(patterns: seq<string>)   // a `list` of patterns

  /** `_from_local_python_packages`: `condition` and `ignore` together are
      rejected; otherwise one module entry per name, in order, each with the
      converted ignore (a list of patterns becomes a `FilePatternMatcher`,
      given here as `matcher`; a tuple of patterns is not converted and is
      outside this model). */
  function FromLocalPythonPackages(moduleNames: seq<string>, remoteDir: Path,
                                   condition: Option<Path -> bool>, ignore: IgnoreArg,
                                   matcher: seq<string> -> (Path -> bool)): (r: Result<MountValue>)
    ensures r.Err? <==> condition.Some? && !ignore.NoIgnore?
    ensures r.Err? ==> r.error == InvalidError
    ensures r.Ok? ==> |r.value.entries| == |moduleNames|
    ensures r.Ok? ==> forall k | 0 <= k < |moduleNames| ::
      var e := r.value.entries[k];
      e.MountedPythonModule? && e.moduleName == moduleNames[k] && e.remoteDir == remoteDir
      && (condition.Some? ==> e.moduleIgnore.Some? && forall q :: e.moduleIgnore.value(q) == !condition.value(q))
      && (condition.None? && ignore.NoIgnore? ==> e.moduleIgnore.None?)
      && (ignore.IgnoreCallable? ==> e.moduleIgnore == Some(ignore.f))
      && (ignore.IgnorePatterns? ==> e.moduleIgnore == Some(matcher(ignore.patterns)))
  {
    if condition.Some? && !ignore.NoIgnore? then Err(InvalidError)
    else
      var converted: Option<Path -> bool> :=
        if condition.Some? then Some((q: Path) => !condition.value(q))
        else match ignore
          case NoIgnore => None
          case IgnoreCallable(f) => Some(f)
          case IgnorePatterns(ps) => Some(matcher(ps));
      Ok(MountValue(seq(|moduleNames|, k requires 0 <= k < |moduleNames| =>
        MountedPythonModule(moduleNames[k], remoteDir, converted))))
  }
}
