/** File discovery of the workspace indexer: the top-down directory walk with
    pruning of excluded directory names, and the per-file selection rule (an
    extension blacklist checked before a whitelist, plus four special names). */
module FileFilter {
  import opened Text

  /** Directory names the walk never descends into. */
  const ExcludedDirs: set<string> :=
    {"chroma_db", "__pycache__", "node_modules", ".git", "venv", ".venv", "dist", "build"}

  /** Lower-cased suffixes that are never indexed. */
  const ExcludedExts: set<string> :=
    {".jpg", ".png", ".gif", ".ico", ".pdf", ".zip", ".exe", ".dll", ".so", ".dylib", ".bin", ".pyc", ".pyo"}

  /** Lower-cased suffixes that are indexed. */
  const IncludedExts: set<string> :=
    {".py", ".js", ".ts", ".jsx", ".tsx", ".html", ".css", ".scss", ".md", ".txt", ".json",
     ".yaml", ".yml", ".toml", ".ini", ".cfg", ".conf", ".xml", ".svg"}

  /** Lower-cased whole names that are indexed whatever their suffix. */
  const SpecialNames: set<string> := {".env", ".gitignore", "dockerfile", "makefile"}

  /** `pathlib.PurePath(name).suffix` for a bare file name: from the last dot on, provided
      that dot is neither the first nor the last character; otherwise empty. */
  function Suffix(name: string): (ext: string)
    ensures ext != "" <==> exists i | 0 < i < |name| - 1 :: name[i] == '.' && '.' !in name[i + 1..]
    ensures ext != "" ==> 2 <= |ext| < |name| && ext[0] == '.' && '.' !in ext[1..]
    ensures ext != "" ==> ext == name[|name| - |ext|..]
  {
    var i := LastIndexOf(name, '.');
    if 0 < i < |name| - 1 then
      assert '.' !in name[i + 1..] by {
        var tail := name[i + 1..];
        forall k | 0 <= k < |tail| ensures tail[k] != '.' { assert tail[k] == name[i + 1 + k]; }
      }
      name[i..]
    else
      assert forall j | 0 < j < |name| - 1 && name[j] == '.' :: '.' in name[j + 1..] by {
        forall j | 0 < j < |name| - 1 && name[j] == '.' ensures '.' in name[j + 1..] {
          assert i > j;
          assert name[j + 1..][i - j - 1] == '.';
        }
      }
      ""
  }

  /** The file-selection rule of `get_files`: a blacklisted suffix rejects the file
      outright; otherwise it is kept iff its suffix is whitelisted or its name is special.
      Both comparisons are on the lower-cased form. */
  function Selected(name: string): (keep: bool)
    ensures keep ==> Lower(Suffix(name)) in IncludedExts || Lower(name) in SpecialNames
    ensures Lower(Suffix(name)) in IncludedExts ==> keep
    ensures Lower(name) in SpecialNames ==> keep
    ensures Lower(Suffix(name)) in ExcludedExts ==> !keep
  {
    var ext := Lower(Suffix(name));
    ExtSetsDisjoint();
    assert Lower(name) in SpecialNames ==> ext == "" by {
      if Lower(name) in SpecialNames {
        LowerSuffix(name);
        SpecialNamesHaveNoSuffix(Lower(name));
      }
    }
    if ext in ExcludedExts then false
    else ext in IncludedExts || Lower(name) in SpecialNames
  }

  /** Lower-casing commutes with taking the suffix, since it never creates or removes a dot. */
  lemma LowerSuffix(name: string)
    ensures Lower(Suffix(name)) == Suffix(Lower(name))
  {
    var ln := Lower(name);
    assert forall k | 0 <= k < |name| :: (ln[k] == '.' <==> name[k] == '.');
    LastIndexLower(name);
    var i := LastIndexOf(name, '.');
    if 0 < i < |name| - 1 {
      assert Lower(name[i..]) == ln[i..];
    }
  }

  lemma {:induction false} LastIndexLower(s: string)
    ensures LastIndexOf(Lower(s), '.') == LastIndexOf(s, '.')
    decreases |s|
  {
    if |s| > 0 {
      assert Lower(s)[..|s| - 1] == Lower(s[..|s| - 1]);
      LastIndexLower(s[..|s| - 1]);
    }
  }

  /** No suffix is both blacklisted and whitelisted. */
  lemma ExtSetsDisjoint()
    ensures ExcludedExts !! IncludedExts
  {
  }

  /** None of the special names has a suffix. */
  lemma SpecialNamesHaveNoSuffix(n: string)
    requires n in SpecialNames
    ensures Suffix(n) == ""
  {
    var i := LastIndexOf(n, '.');
    if n == ".env" || n == ".gitignore" {
      assert n[0] == '.';
      assert forall k | 0 < k < |n| :: n[k] != '.';
    } else {
      assert forall k | 0 <= k < |n| :: n[k] != '.';
    }
  }

  /** Checking the blacklist first never changes the outcome: the two suffix sets are
      disjoint and no special name has a suffix at all. */
  lemma BlacklistOrderIrrelevant(name: string)
    ensures Selected(name) <==> Lower(Suffix(name)) in IncludedExts || Lower(name) in SpecialNames
  {
    ExtSetsDisjoint();
    LowerSuffix(name);
    var ln := Lower(name);
    if ln in SpecialNames {
      SpecialNamesHaveNoSuffix(ln);
    }
  }

  /** A directory as `os.walk` sees it: its name, its sub-directories and its files, in listing order. */
  datatype Directory = Directory(name: string, subdirs: seq<Directory>, files: seq<string>)

  /** A listed file, located by the chain of directory names below the walk root and its own name. */
  datatype FileRef = FileRef(dirs: seq<string>, name: string)

  /** The selected files of one directory, in listing order. */
  function SelectFiles(files: seq<string>): (refs: seq<FileRef>)
    ensures forall r :: r in refs <==> r.dirs == [] && r.name in files && Selected(r.name)
    decreases |files|
  {
    if |files| == 0 then []
    else (if Selected(files[0]) then [FileRef([], files[0])] else []) + SelectFiles(files[1..])
  }

  /** The same files seen from the parent directory `dir`. */
  function Under(dir: string, refs: seq<FileRef>): (out: seq<FileRef>)
    ensures |out| == |refs|
    ensures forall k | 0 <= k < |refs| :: out[k] == FileRef([dir] + refs[k].dirs, refs[k].name)
  {
    seq(|refs|, k requires 0 <= k < |refs| => FileRef([dir] + refs[k].dirs, refs[k].name))
  }

  /** The walk of `get_files`, top-down: the directory's own selected files first, then the
      walk of each sub-directory whose name is not excluded, in listing order. The root
      itself is never pruned. */
  function Walk(d: Directory): (refs: seq<FileRef>)
    ensures SelectFiles(d.files) <= refs
    decreases d, |d.subdirs| + 1
  {
    SelectFiles(d.files) + WalkSubdirs(d, 0)
  }

  /** The walks of the sub-directories of `d` from index `i` on. */
  function WalkSubdirs(d: Directory, i: nat): seq<FileRef>
    requires i <= |d.subdirs|
    decreases d, |d.subdirs| - i
  {
    if i == |d.subdirs| then []
    else
      var sub := d.subdirs[i];
      (if sub.name in ExcludedDirs then [] else Under(sub.name, Walk(sub))) + WalkSubdirs(d, i + 1)
  }

  /** The tree holds a file `name` in the directory reached from `d` by following `dirs`. */
  ghost predicate FileAt(d: Directory, dirs: seq<string>, name: string)
    decreases |dirs|
  {
    if dirs == [] then name in d.files
    else exists j | 0 <= j < |d.subdirs| :: d.subdirs[j].name == dirs[0] && FileAt(d.subdirs[j], dirs[1..], name)
  }

  /** No directory on the chain has an excluded name. */
  predicate NoneExcluded(dirs: seq<string>) {
    forall k | 0 <= k < |dirs| :: dirs[k] !in ExcludedDirs
  }

  /** `r` is listed by the walk of the `j`-th sub-directory of `d`, seen from `d`. */
  ghost predicate ListedBelow(d: Directory, j: int, r: FileRef) {
    && 0 <= j < |d.subdirs|
    && |r.dirs| > 0
    && d.subdirs[j].name == r.dirs[0]
    && FileRef(r.dirs[1..], r.name) in Walk(d.subdirs[j])
  }

  lemma UnderMembers(dir: string, refs: seq<FileRef>, r: FileRef)
    ensures r in Under(dir, refs) <==> |r.dirs| > 0 && r.dirs[0] == dir && FileRef(r.dirs[1..], r.name) in refs
  {
    var u := Under(dir, refs);
    if r in u {
      var k :| 0 <= k < |u| && u[k] == r;
      assert r.dirs[1..] == refs[k].dirs;
    }
    if |r.dirs| > 0 && r.dirs[0] == dir && FileRef(r.dirs[1..], r.name) in refs {
      var k :| 0 <= k < |refs| && refs[k] == FileRef(r.dirs[1..], r.name);
      assert [dir] + refs[k].dirs == r.dirs;
      assert u[k] == r;
    }
  }

  lemma {:induction false} WalkSubdirsMembers(d: Directory, i: nat, r: FileRef)
    requires i <= |d.subdirs|
    ensures r in WalkSubdirs(d, i) <==>
              |r.dirs| > 0 && r.dirs[0] !in ExcludedDirs && exists j | i <= j :: ListedBelow(d, j, r)
    decreases |d.subdirs| - i
  {
    if i < |d.subdirs| {
      WalkSubdirsMembers(d, i + 1, r);
      var sub := d.subdirs[i];
      UnderMembers(sub.name, Walk(sub), r);
      var head := if sub.name in ExcludedDirs then [] else Under(sub.name, Walk(sub));
      assert WalkSubdirs(d, i) == head + WalkSubdirs(d, i + 1);
      assert (exists j | i <= j :: ListedBelow(d, j, r)) <==> ListedBelow(d, i, r) || exists j | i + 1 <= j :: ListedBelow(d, j, r);
    }
  }

  /** The walk lists exactly the files of the tree that lie under no excluded directory
      and pass the selection rule: nothing beneath a pruned directory is ever listed, and
      no blacklisted file is. */
  lemma {:induction false} WalkExact(d: Directory, r: FileRef)
    ensures r in Walk(d) <==> FileAt(d, r.dirs, r.name) && NoneExcluded(r.dirs) && Selected(r.name)
    decreases d, 1
  {
    if |r.dirs| > 0 {
      WalkExactNested(d, r);
    } else {
      WalkSubdirsMembers(d, 0, r);
      assert Walk(d) == SelectFiles(d.files) + WalkSubdirs(d, 0);
    }
  }

  /** A path is free of excluded names iff its first directory is and the rest of it is. */
  lemma NoneExcludedCons(dirs: seq<string>)
    requires |dirs| > 0
    ensures NoneExcluded(dirs) <==> dirs[0] !in ExcludedDirs && NoneExcluded(dirs[1..])
  {
    if dirs[0] !in ExcludedDirs && NoneExcluded(dirs[1..]) {
      forall k | 0 <= k < |dirs| ensures dirs[k] !in ExcludedDirs {
        if k > 0 { assert dirs[k] == dirs[1..][k - 1]; }
      }
    }
  }

  /** `WalkExact` for a file below a subdirectory: it is listed through the subdirectory
      it lies in. */
  lemma {:induction false} WalkExactNested(d: Directory, r: FileRef)
    requires |r.dirs| > 0
    ensures r in Walk(d) <==> FileAt(d, r.dirs, r.name) && NoneExcluded(r.dirs) && Selected(r.name)
    decreases d, 0
  {
    WalkSubdirsMembers(d, 0, r);
    assert Walk(d) == SelectFiles(d.files) + WalkSubdirs(d, 0);
    var rest := FileRef(r.dirs[1..], r.name);
    NoneExcludedCons(r.dirs);
    if r in Walk(d) {
      var j :| 0 <= j && ListedBelow(d, j, r);
      WalkExact(d.subdirs[j], rest);
      assert FileAt(d, r.dirs, r.name);
    }
    if FileAt(d, r.dirs, r.name) && NoneExcluded(r.dirs) && Selected(r.name) {
      var j :| 0 <= j < |d.subdirs| && d.subdirs[j].name == r.dirs[0] && FileAt(d.subdirs[j], rest.dirs, rest.name);
      WalkExact(d.subdirs[j], rest);
      assert ListedBelow(d, j, r);
    }
  }

  /** `os.path.join(a, b)` for a relative component `b`, with POSIX semantics (`posixpath.join`). */
  function JoinPath(a: string, b: string): string {
    if a == "" || a[|a| - 1] == '/' then a + b else a + "/" + b
  }

  /** The path `get_files` reports for a listed file, starting from the walk root path. */
  function PathOf(root: string, r: FileRef): string
    decreases |r.dirs|
  {
    if r.dirs == [] then JoinPath(root, r.name)
    else PathOf(JoinPath(root, r.dirs[0]), FileRef(r.dirs[1..], r.name))
  }

  /** `get_files`: the paths of the walk's files, in walk order. */
  function GetFiles(root: string, d: Directory): (paths: seq<string>)
    ensures |paths| == |Walk(d)|
    ensures forall k | 0 <= k < |paths| :: paths[k] == PathOf(root, Walk(d)[k])
  {
    var w := Walk(d);
    seq(|w|, k requires 0 <= k < |w| => PathOf(root, w[k]))
  }

  /** Every reported path belongs to a selected file under no excluded directory, and every
      such file is reported. */
  lemma GetFilesExact(root: string, d: Directory)
    ensures forall k | 0 <= k < |GetFiles(root, d)| ::
              var r := Walk(d)[k];
              GetFiles(root, d)[k] == PathOf(root, r) && FileAt(d, r.dirs, r.name) && NoneExcluded(r.dirs) && Selected(r.name)
    ensures forall r: FileRef | FileAt(d, r.dirs, r.name) && NoneExcluded(r.dirs) && Selected(r.name) ::
              PathOf(root, r) in GetFiles(root, d)
  {
    var w := Walk(d);
    forall k | 0 <= k < |w| ensures FileAt(d, w[k].dirs, w[k].name) && NoneExcluded(w[k].dirs) && Selected(w[k].name) {
      WalkExact(d, w[k]);
    }
    forall r: FileRef | FileAt(d, r.dirs, r.name) && NoneExcluded(r.dirs) && Selected(r.name)
      ensures PathOf(root, r) in GetFiles(root, d)
    {
      WalkExact(d, r);
      var k :| 0 <= k < |w| && w[k] == r;
      assert GetFiles(root, d)[k] == PathOf(root, r);
    }
  }
}
