/** The filesystem synthesizer of filesystem.go: `ExtendFiler` wraps any
    `Filer` in an `fs`, whose one piece of state is its working directory
    `cwd`, and which gives every `FileSystem` operation the backend does
    not implement itself a generic fallback built on the backend's
    `OpenFile`, `Mkdir`, `Remove` and `Stat` and on the handles they
    return.

    Every operation is stated against the backend's call trace: which
    backend calls it makes, with which names and flags, and what it does
    with their answers. */
module FileSystems {
  import opened Common
  import opened Paths
  import opened OpenFlags
  import FileModes
  import opened Backends

  /** The mode `Create` and `Truncate` pass, 0666. */
  const Perm0666: FileModes.FileMode := FileModes.OS_ALL_RW

  /** How many names `removeAll` asks for at a time. */
  const NamesPerBatch: int := 512

  /** The host's defaults (filesystem.go:164, 171): a Unix host. */
  const HostSeparator: char := '/'
  const HostListSeparator: char := ':'

  /** The paths `MkdirAll` hands to `Mkdir`, from the accumulated `path`
      on, for the parts of the split name that are left: an empty part is
      skipped, every other one is joined on, and the result is created
      unless it is the root (filesystem.go:244-254). */
  function MkdirAllPaths(path: string, parts: seq<string>): seq<string>
    decreases |parts|
  {
    if parts == [] then []
    else if parts[0] == "" then MkdirAllPaths(path, parts[1..])
    else
      var next := Join(path, parts[0]);
      (if next == "/" then [] else [next]) + MkdirAllPaths(next, parts[1..])
  }

  /** `MkdirAllPaths` over the parts from `i` on, one part taken. */
  lemma MkdirAllPathsStep(path: string, parts: seq<string>, i: nat)
    requires i < |parts|
    ensures MkdirAllPaths(path, parts[i..]) ==
      if parts[i] == "" then MkdirAllPaths(path, parts[i + 1..])
      else (if Join(path, parts[i]) == "/" then [] else [Join(path, parts[i])])
           + MkdirAllPaths(Join(path, parts[i]), parts[i + 1..])
  {
    assert parts[i..][1..] == parts[i + 1..];
  }

  /** On a clean absolute name, the paths the `MkdirAll` fallback hands to
      `Mkdir` are the name's ancestors below the root, outermost first,
      and then the name itself: the parts the test backend's native
      `MkdirAll` collects. */
  lemma MkdirAllMakesAncestors(es: seq<string>)
    requires Normal(true, es)
    ensures MkdirAllPaths("/", Split(Render(true, es), '/')) == Prefixes(true, es, 0)
    ensures var name := Render(true, es); Prefixes(true, es, 0) == Prefixes(IsAbs(name), Elements(name), 0)
  {
    RenderElements(true, es);
    var j := JoinWith(es, '/');
    assert Render(true, es) == [] + ['/'] + j;
    SplitAround([], j, '/');
    assert Split([], '/') == [""];
    if es == [] {
      assert Split(j, '/') == [""];
      assert ["", ""][1..] == [""] && [""][1..] == [];
    } else {
      SplitJoinWith(es, '/');
      var parts := Split(Render(true, es), '/');
      assert parts == [""] + es;
      assert parts[0] == "" && parts[1..] == es;
      assert MkdirAllPaths("/", parts) == MkdirAllPaths("/", es);
      assert es[..0] == [] && es[0..] == es;
      assert Render(true, []) == "/";
      MkdirAllPrefixesFrom(es, 0);
    }
  }

  lemma {:induction false} MkdirAllPrefixesFrom(es: seq<string>, k: nat)
    requires Normal(true, es) && k <= |es|
    ensures MkdirAllPaths(Render(true, es[..k]), es[k..]) == Prefixes(true, es, k)
    decreases |es| - k
  {
    if k < |es| {
      var head, next := es[..k], es[..k + 1];
      assert next == head + [es[k]];
      assert Normal(true, head);
      JoinRenderedChild(head, es[k]);
      assert JoinWith(next, '/')[0] == next[0][0];
      assert es[k..][1..] == es[k + 1..];
      MkdirAllPrefixesFrom(es, k + 1);
    } else {
      assert es[k..] == [];
    }
  }

  /** The names of a directory listing `removeAll` recurses on, in
      order: all but `.` and `..` (filesystem.go:303-307). */
  function Children(names: seq<string>): seq<string>
  {
    if names == [] then []
    else
      var last := names[|names| - 1];
      Children(names[..|names| - 1]) + (if last == "." || last == ".." then [] else [last])
  }

  /** The recursive `removeAll` of one listed name: the name, the path
      it was called on, the open it began with, the key of the node that
      path names, the position in the backend's trace at which its calls
      begin, and what it returned. */
  datatype Removal = Removal(name: string, path: string, open: Call, key: string, at: nat, err: Option<Error>)

  /** The names of a run of removals, in order. */
  function Names(rs: seq<Removal>): (ns: seq<string>)
    ensures |ns| == |rs|
  {
    if rs == [] then [] else Names(rs[..|rs| - 1]) + [rs[|rs| - 1].name]
  }

  lemma {:induction false} NamesAppend(a: seq<Removal>, b: seq<Removal>)
    ensures Names(a + b) == Names(a) + Names(b)
    decreases |b|
  {
    if b != [] {
      assert (a + b)[..|a + b| - 1] == a + b[..|b| - 1];
      NamesAppend(a, b[..|b| - 1]);
    } else {
      assert a + b == a;
    }
  }

  lemma NamesSnoc(rs: seq<Removal>, r: Removal)
    ensures Names(rs + [r]) == Names(rs) + [r.name]
  {
    assert (rs + [r])[..|rs|] == rs;
  }

  /** Every removal of a run returned nil. */
  predicate Succeeded(rs: seq<Removal>)
  {
    forall k | 0 <= k < |rs| :: rs[k].err == None
  }

  /** Call `c` asks the handle on `key` for its next `NamesPerBatch`
      names. */
  predicate Lists(c: Call, key: string)
  {
    c.HandleReaddirnamesCall? && c.key == key && c.n == NamesPerBatch
  }

  /** What the deferred block of `removeAll` returns (filesystem.go:268-280)
      once the body failed with `failure` or not, closing reported `closer`
      and the final `Remove` reported `removed`: as written, the removal's
      error, or else the close error, whatever the body returned. The
      intended block lets the first error win. */
  function Deferred(intended: bool, failure: Option<Error>, closer: Option<Error>, removed: Option<Error>): Option<Error>
  {
    if intended && failure.Some? then failure
    else if removed.Some? then removed
    else closer
  }

  /** Nodes only go away, and those that stay are untouched. */
  /** `k` was in `before` and is not in `after`. */
  predicate Gone(before: map<string, Node>, after: map<string, Node>, k: string)
  {
    k in before && k !in after
  }

  ghost predicate Shrinks(before: map<string, Node>, after: map<string, Node>)
  {
    after.Keys <= before.Keys && forall k | k in after :: after[k] == before[k]
  }

  /** Nodes only come, and the new ones are empty directories. */
  ghost predicate Grows(before: map<string, Node>, after: map<string, Node>)
  {
    && before.Keys <= after.Keys
    && (forall k | k in before :: after[k] == before[k])
    && (forall k | k in after && k !in before :: after[k] == Node(true, [], []))
  }

  lemma ShrinksTransitive(a: map<string, Node>, b: map<string, Node>, c: map<string, Node>)
    requires Shrinks(a, b) && Shrinks(b, c)
    ensures Shrinks(a, c)
  {
  }

  lemma SliceSplit<T>(s: seq<T>, i: nat, j: nat)
    requires i <= j <= |s|
    ensures s[..j] == s[..i] + s[i..j]
  {
  }

  /** A trace that went on from `a` then `x` to `b`, and on to `c`. */
  lemma PrefixThen<T>(a: seq<T>, b: seq<T>, c: seq<T>, x: T)
    requires a + [x] <= b <= c
    ensures a <= c && |c| > |a| && c[|a|] == x
  {
    assert c[|a|] == b[|a|] == (a + [x])[|a|];
  }

  /** The stored paths at least `d` elements deep. */
  ghost function Deeper(store: map<string, Node>, d: nat): set<string>
  {
    set k | k in store && Depth(k) >= d
  }

  /** A path `d` elements deep that was stored: with one element more
      and the store no larger, fewer paths are deep enough. */
  lemma BelowShrinks(before: map<string, Node>, after: map<string, Node>, key: string)
    requires key in before && after.Keys <= before.Keys
    ensures Deeper(after, Depth(key) + 1) < Deeper(before, Depth(key))
  {
    assert key in Deeper(before, Depth(key));
    assert key !in Deeper(after, Depth(key) + 1);
  }

  /** The backend keeps a one-name extension between two names. */
  lemma KeyExtends(b: Filer, x: string, y: string, n: string)
    requires Extends(x, y, n) && IsName(n)
    ensures Extends(b.Key(x), b.Key(y), n)
  {
    if b.caps.navigator && !IsAbs(x) {
      JoinBaseExtends(b.cwd, x, y, n);
      CleanExtends(Join(b.cwd, x), Join(b.cwd, y), n);
    } else {
      CleanExtends(x, y, n);
    }
  }

  /** `ExtendFiler` (filesystem.go:86-89): a fresh wrapper at `/`. */
  method ExtendFiler(filer: Filer) returns (fs: FS)
    ensures fresh(fs) && fs.filer == filer && fs.cwd == "/"
  {
    fs := new FS(filer);
  }

  class FS {
    var cwd: string
    const filer: Filer

    constructor (filer: Filer)
      ensures this.filer == filer && cwd == "/"
    {
      this.filer := filer;
      cwd := "/";
    }

    /** The name the backend gets for `name` (filesystem.go:97-101). */
    function Resolved(name: string): string
      reads this`cwd
    {
      Resolve(filer.caps.navigator, cwd, name)
    }

    // -------------------------------------------------------------------
    // The Filer methods, forwarded with the name resolved.

    method OpenFile(name: string, flag: Flags, perm: FileModes.FileMode) returns (r: Result<Handle, Error>)
      requires filer.Valid()
      modifies filer`store, filer`trace
      ensures filer.Valid()
      ensures var key := filer.Key(Resolved(name));
        && filer.store == Opened(old(filer.store), key, flag)
        && (r.Failure? <==> key !in filer.store)
        && (r.Failure? ==> r.error == PathError("open", key, NotExist))
        && (r.Success? ==> fresh(r.value) && r.value.Fresh(filer, key, filer.store[key]))
      ensures filer.trace == old(filer.trace) + [OpenFileCall(Resolved(name), flag, perm, ErrorOf(r))]
    {
      r := filer.OpenFile(Resolved(name), flag, perm);
    }

    method Mkdir(name: string, perm: FileModes.FileMode) returns (err: Option<Error>)
      requires filer.Valid()
      modifies filer`store, filer`trace
      ensures filer.Valid()
      ensures var key := filer.Key(Resolved(name));
        && err == (if key in old(filer.store) then Some(PathError("mkdir", key, Exist))
                   else if key in filer.faults.mkdir then Some(PathError("mkdir", key, Injected))
                   else None)
        && filer.store == if err == None then old(filer.store)[key := Node(true, [], [])] else old(filer.store)
      ensures filer.trace == old(filer.trace) + [MkdirCall(Resolved(name), perm, err)]
    {
      err := filer.Mkdir(Resolved(name), perm);
    }

    method Remove(name: string) returns (err: Option<Error>)
      requires filer.Valid()
      modifies filer`store, filer`trace
      ensures filer.Valid()
      ensures var key := filer.Key(Resolved(name));
        && err == (if key !in old(filer.store) then Some(PathError("remove", key, NotExist))
                   else if key in filer.faults.remove then Some(PathError("remove", key, Injected))
                   else None)
        && filer.store == if err == None then old(filer.store) - {key} else old(filer.store)
      ensures filer.trace == old(filer.trace) + [RemoveCall(Resolved(name), err)]
    {
      err := filer.Remove(Resolved(name));
    }

    method Stat(name: string) returns (r: Result<Info, Error>)
      modifies filer`trace
      ensures r == filer.StatOf(Resolved(name))
      ensures filer.trace == old(filer.trace) + [StatCall(Resolved(name), r)]
    {
      r := filer.Stat(Resolved(name));
    }

    method Chmod(name: string, mode: FileModes.FileMode) returns (err: Option<Error>)
      modifies filer`trace
      ensures err == filer.Missing("chmod", Resolved(name))
      ensures filer.trace == old(filer.trace) + [ChmodCall(Resolved(name), mode, err)]
    {
      err := filer.Chmod(Resolved(name), mode);
    }

    method Chtimes(name: string, atime: int, mtime: int) returns (err: Option<Error>)
      modifies filer`trace
      ensures err == filer.Missing("chtimes", Resolved(name))
      ensures filer.trace == old(filer.trace) + [ChtimesCall(Resolved(name), atime, mtime, err)]
    {
      err := filer.Chtimes(Resolved(name), atime, mtime);
    }

    method Chown(name: string, uid: int, gid: int) returns (err: Option<Error>)
      modifies filer`trace
      ensures err == filer.Missing("chown", Resolved(name))
      ensures filer.trace == old(filer.trace) + [ChownCall(Resolved(name), uid, gid, err)]
    {
      err := filer.Chown(Resolved(name), uid, gid);
    }

    // -------------------------------------------------------------------
    // The FileSystem methods: the backend's own when it has them.

    /** The backend's separator, else the host's (filesystem.go:160-165). */
    function Separator(): (c: char)
      ensures filer.caps.separator ==> c == filer.separator
      ensures !filer.caps.separator ==> c == '/'
    {
      if filer.caps.separator then filer.separator else HostSeparator
    }

    /** The backend's list separator, else the host's (filesystem.go:167-172). */
    function ListSeparator(): (c: char)
      ensures filer.caps.listSeparator ==> c == filer.listSeparator
      ensures !filer.caps.listSeparator ==> c == ':'
    {
      if filer.caps.listSeparator then filer.listSeparator else HostListSeparator
    }

    /** `hostTempDir` stands for `os.TempDir()`, which reads the
        environment. */
    function TempDir(hostTempDir: string): (d: string)
      ensures filer.caps.temper ==> d == filer.tempDir
      ensures !filer.caps.temper ==> d == hostTempDir
    {
      if filer.caps.temper then filer.tempDir else hostTempDir
    }

    /** The one backend call `Open` makes. */
    function OpenEntry(name: string, err: Option<Error>): Call
      reads this`cwd
    {
      if filer.caps.opener then OpenCall(name, err) else OpenFileCall(Resolved(name), O_RDONLY, {}, err)
    }

    /** The node `Open` opens. */
    function OpenKey(name: string): string
      reads this`cwd, filer`cwd
    {
      filer.Key(if filer.caps.opener then name else Resolved(name))
    }

    /** The native `Open` with the name as given, or `OpenFile` read-only
        with the name resolved (filesystem.go:210-220). */
    method Open(name: string) returns (r: Result<Handle, Error>)
      requires filer.Valid()
      modifies filer`store, filer`trace
      ensures filer.Valid() && filer.store == old(filer.store)
      ensures r.Failure? <==> OpenKey(name) !in filer.store
      ensures r.Failure? ==> r.error == PathError("open", OpenKey(name), NotExist)
      ensures r.Success? ==> fresh(r.value) && r.value.Fresh(filer, OpenKey(name), filer.store[OpenKey(name)])
      ensures filer.trace == old(filer.trace) + [OpenEntry(name, ErrorOf(r))]
    {
      if filer.caps.opener {
        r := filer.Open(name);
        return;
      }
      r := filer.OpenFile(Resolved(name), O_RDONLY, {});
    }

    /** The native `Create` with the name as given, or `OpenFile` creating,
        reading and writing, truncating, with mode 0666
        (filesystem.go:222-232). */
    method Create(name: string) returns (r: Result<Handle, Error>)
      requires filer.Valid()
      modifies filer`store, filer`trace
      ensures filer.Valid()
      ensures var key := filer.Key(if filer.caps.creator then name else Resolved(name));
        && filer.store == Opened(old(filer.store), key, O_CREATE + O_RDWR + O_TRUNC)
        && r.Success? && fresh(r.value) && r.value.Fresh(filer, key, filer.store[key])
      ensures filer.trace == old(filer.trace) +
        [if filer.caps.creator then CreateCall(name, None)
         else OpenFileCall(Resolved(name), O_CREATE + O_RDWR + O_TRUNC, Perm0666, None)]
    {
      if filer.caps.creator {
        r := filer.Create(name);
        return;
      }
      r := filer.OpenFile(Resolved(name), O_CREATE + O_RDWR + O_TRUNC, Perm0666);
    }

    /** The native `Chdir` with the name as given; otherwise open `dir`,
        stat the handle, refuse a non-directory, and move to the cleaned
        `dir` as given, not as resolved; the handle is closed on the way
        out and its close error dropped (filesystem.go:174-193). */
    method Chdir(dir: string) returns (err: Option<Error>)
      requires filer.Valid()
      modifies this, filer`cwd, filer`store, filer`trace
      ensures filer.Valid() && filer.store == old(filer.store)
      ensures filer.caps.navigator ==>
        var key := old(filer.Key(dir));
        && err == (if key !in filer.store then Some(PathError("chdir", key, NotExist))
                   else if !filer.store[key].isDir then Some(PathError("chdir", key, Invalid))
                   else None)
        && cwd == old(cwd)
        && filer.cwd == (if err == None then key else old(filer.cwd))
        && filer.trace == old(filer.trace) + [ChdirCall(dir, err)]
      ensures !filer.caps.navigator ==> filer.cwd == old(filer.cwd)
      ensures !filer.caps.navigator && old(OpenKey(dir)) !in filer.store ==>
        && err == Some(PathError("open", old(OpenKey(dir)), NotExist))
        && cwd == old(cwd)
        && filer.trace == old(filer.trace) + [old(OpenEntry(dir, err))]
      ensures !filer.caps.navigator && old(OpenKey(dir)) in filer.store ==>
        var key := old(OpenKey(dir));
        var node := filer.store[key];
        var info := if key in filer.faults.stat then Failure(PathError("stat", key, Injected))
                    else Success(Info(key, |node.content|, node.isDir));
        && err == (if info.Failure? then Some(info.error)
                   else if !node.isDir then Some(PathError("chdir", dir, NotADirectory))
                   else None)
        && cwd == (if err == None then Clean(dir) else old(cwd))
        && filer.trace == old(filer.trace) +
             [old(OpenEntry(dir, None)), HandleStatCall(key, info),
              HandleCloseCall(key, if key in filer.faults.close then Some(PathError("close", key, Injected)) else None)]
    {
      if filer.caps.navigator {
        err := filer.Chdir(dir);
        return;
      }
      err := chdirFallback(dir, false);
    }

    /** `Chdir` as evidently intended: the fallback moves to the directory
        it opened, `dir` resolved against the working directory, so that a
        relative `dir` does not leave a relative working directory. */
    method ChdirIntended(dir: string) returns (err: Option<Error>)
      requires filer.Valid()
      modifies this, filer`cwd, filer`store, filer`trace
      ensures filer.Valid() && filer.store == old(filer.store)
      ensures filer.caps.navigator ==>
        var key := old(filer.Key(dir));
        && err == (if key !in filer.store then Some(PathError("chdir", key, NotExist))
                   else if !filer.store[key].isDir then Some(PathError("chdir", key, Invalid))
                   else None)
        && cwd == old(cwd)
        && filer.cwd == (if err == None then key else old(filer.cwd))
        && filer.trace == old(filer.trace) + [ChdirCall(dir, err)]
      ensures !filer.caps.navigator ==> filer.cwd == old(filer.cwd)
      ensures !filer.caps.navigator && old(OpenKey(dir)) !in filer.store ==>
        && err == Some(PathError("open", old(OpenKey(dir)), NotExist))
        && cwd == old(cwd)
        && filer.trace == old(filer.trace) + [old(OpenEntry(dir, err))]
      ensures !filer.caps.navigator && old(OpenKey(dir)) in filer.store ==>
        var key := old(OpenKey(dir));
        var node := filer.store[key];
        var info := if key in filer.faults.stat then Failure(PathError("stat", key, Injected))
                    else Success(Info(key, |node.content|, node.isDir));
        && err == (if info.Failure? then Some(info.error)
                   else if !node.isDir then Some(PathError("chdir", dir, NotADirectory))
                   else None)
        && cwd == (if err == None then Clean(old(Resolved(dir))) else old(cwd))
        && filer.trace == old(filer.trace) +
             [old(OpenEntry(dir, None)), HandleStatCall(key, info),
              HandleCloseCall(key, if key in filer.faults.close then Some(PathError("close", key, Injected)) else None)]
      ensures !filer.caps.navigator && !filer.caps.opener && err == None ==> cwd == old(OpenKey(dir))
      ensures IsAbs(old(cwd)) ==> IsAbs(cwd)
    {
      if filer.caps.navigator {
        err := filer.Chdir(dir);
        return;
      }
      ghost var resolved := Resolved(dir);
      CleanElements(resolved);
      err := chdirFallback(dir, true);
    }

    /** `Chdir` for a backend that does not navigate; with `intended`, the
        working directory becomes the cleaned resolved name, the directory
        that was opened, instead of the cleaned `dir` as given. */
    method chdirFallback(dir: string, intended: bool) returns (err: Option<Error>)
      requires filer.Valid() && !filer.caps.navigator
      modifies this, filer`store, filer`trace
      ensures filer.Valid() && filer.store == old(filer.store)
      ensures old(OpenKey(dir)) !in filer.store ==>
        && err == Some(PathError("open", old(OpenKey(dir)), NotExist))
        && cwd == old(cwd)
        && filer.trace == old(filer.trace) + [old(OpenEntry(dir, err))]
      ensures old(OpenKey(dir)) in filer.store ==>
        var key := old(OpenKey(dir));
        var node := filer.store[key];
        var info := if key in filer.faults.stat then Failure(PathError("stat", key, Injected))
                    else Success(Info(key, |node.content|, node.isDir));
        && err == (if info.Failure? then Some(info.error)
                   else if !node.isDir then Some(PathError("chdir", dir, NotADirectory))
                   else None)
        && cwd == (if err != None then old(cwd) else if intended then Clean(old(Resolved(dir))) else Clean(dir))
        && filer.trace == old(filer.trace) +
             [old(OpenEntry(dir, None)), HandleStatCall(key, info),
              HandleCloseCall(key, if key in filer.faults.close then Some(PathError("close", key, Injected)) else None)]
    {
      ghost var key, t0 := OpenKey(dir), filer.trace;
      ghost var opening := OpenEntry(dir, None);
      var target := if intended then Clean(Resolved(dir)) else Clean(dir);
      var o := Open(dir);
      if o.Failure? {
        return Some(o.error);
      }
      var f := o.value;
      ghost var node := f.node;
      assert f.key == key && node == filer.store[key];
      var info := f.Stat();
      assert info == if key in filer.faults.stat then Failure(PathError("stat", key, Injected))
                     else Success(Info(key, |node.content|, node.isDir));
      if info.Failure? {
        err := Some(info.error);
      } else if !info.value.isDir {
        err := Some(PathError("chdir", dir, NotADirectory));
      } else {
        cwd := target;
        err := None;
      }
      var closing := f.Close();
      assert filer.trace == t0 + [opening, HandleStatCall(key, info), HandleCloseCall(key, closing)];
    }

    /** The native `Getwd`, or the tracked `cwd` with no error
        (filesystem.go:195-200). */
    method Getwd() returns (dir: string, err: Option<Error>)
      modifies filer`trace
      ensures err == None
      ensures filer.caps.navigator ==> dir == filer.cwd && filer.trace == old(filer.trace) + [GetwdCall(dir)]
      ensures !filer.caps.navigator ==> dir == cwd && filer.trace == old(filer.trace)
    {
      if filer.caps.navigator {
        dir := filer.Getwd();
        return dir, None;
      }
      return cwd, None;
    }

    /** The backend calls the `MkdirAll` fallback makes: one `Mkdir` with
        `perm` on each of `paths`, in order, each resolved as `Mkdir`
        resolves it. */
    ghost predicate MkdirsLogged(calls: seq<Call>, paths: seq<string>, perm: FileModes.FileMode)
      reads this`cwd
    {
      |calls| == |paths| &&
      forall i | 0 <= i < |calls| ::
        calls[i].MkdirCall? && calls[i].name == Resolved(paths[i]) && calls[i].perm == perm
    }

    /** The nodes `Mkdir` creates for `paths`, in order. */
    ghost function KeysOf(paths: seq<string>): (keys: seq<string>)
      reads this`cwd, filer`cwd
      ensures |keys| == |paths|
    {
      if paths == [] then []
      else KeysOf(paths[..|paths| - 1]) + [filer.Key(Resolved(paths[|paths| - 1]))]
    }

    /** What the `MkdirAll` fallback has done once it called `Mkdir` on
        `paths`, from a store `before` and a trace `earlier`: one `Mkdir`
        with `perm` per path, in order; nodes were only added, each an
        empty directory at one of those paths; and each path's node is
        there, a directory unless something was there before, or the
        backend failed to make it. */
    ghost predicate MkdirsDone(before: map<string, Node>, earlier: seq<Call>, paths: seq<string>,
                               perm: FileModes.FileMode)
      reads this`cwd, filer`cwd, filer`store, filer`trace
    {
      var keys := KeysOf(paths);
      && earlier <= filer.trace
      && MkdirsLogged(filer.trace[|earlier|..], paths, perm)
      && Grows(before, filer.store)
      && (forall j | 0 <= j < |keys| ::
            keys[j] in filer.faults.mkdir || (keys[j] in filer.store && (keys[j] in before || filer.store[keys[j]].isDir)))
      && (forall k | k in filer.store && k !in before :: k in keys)
    }

    /** One step of the fallback: `Mkdir` on `path`, its error ignored. */
    method mkdirIgnoring(path: string, perm: FileModes.FileMode, ghost before: map<string, Node>,
                         ghost earlier: seq<Call>, ghost done: seq<string>)
      requires filer.Valid() && MkdirsDone(before, earlier, done, perm)
      modifies filer`store, filer`trace
      ensures filer.Valid() && MkdirsDone(before, earlier, done + [path], perm)
    {
      ghost var t0 := filer.trace;
      var _ := Mkdir(path, perm);
      assert filer.trace[|earlier|..] == t0[|earlier|..] + [filer.trace[|t0|]];
      assert (done + [path])[..|done|] == done;
    }

    /** The native `MkdirAll` with the name as given, which makes the
        name and its ancestors; otherwise `Mkdir` on
        every accumulated prefix of the resolved name, root to leaf, each
        error ignored, and no error in the end (filesystem.go:234-257). */
    method MkdirAll(name: string, perm: FileModes.FileMode) returns (err: Option<Error>)
      requires filer.Valid()
      modifies filer`store, filer`trace
      ensures filer.Valid() && err == None
      ensures filer.caps.mkaller ==>
        && filer.MadeAll(old(filer.store), filer.store, filer.KeysAt(Prefixes(IsAbs(name), Elements(name), 0)))
        && filer.trace == old(filer.trace) + [MkdirAllCall(name, perm, None)]
      ensures !filer.caps.mkaller ==>
        MkdirsDone(old(filer.store), old(filer.trace),
                   MkdirAllPaths([Separator()], Split(Resolved(name), Separator())), perm)
    {
      if filer.caps.mkaller {
        err := filer.MkdirAll(name, perm);
        return;
      }
      mkdirEach(Separator(), Split(Resolved(name), Separator()), perm);
      return None;
    }

    /** The loop of the `MkdirAll` fallback over the parts of the name. */
    method mkdirEach(sep: char, parts: seq<string>, perm: FileModes.FileMode)
      requires filer.Valid()
      modifies filer`store, filer`trace
      ensures filer.Valid() && MkdirsDone(old(filer.store), old(filer.trace), MkdirAllPaths([sep], parts), perm)
    {
      var path := [sep];
      ghost var done: seq<string> := [];
      ghost var target := MkdirAllPaths([sep], parts);
      assert parts[0..] == parts;
      for i := 0 to |parts|
        invariant filer.Valid()
        invariant done + MkdirAllPaths(path, parts[i..]) == target
        invariant MkdirsDone(old(filer.store), old(filer.trace), done, perm)
      {
        path, done := mkdirPart(path, parts, i, perm, old(filer.store), old(filer.trace), done);
      }
      assert parts[|parts|..] == [];
      assert done == target;
    }

    /** One turn of that loop: skip an empty part, extend the path by the
        part, and make it unless it is the root. */
    method mkdirPart(path: string, parts: seq<string>, i: nat, perm: FileModes.FileMode,
                     ghost before: map<string, Node>, ghost earlier: seq<Call>, ghost done: seq<string>)
      returns (next: string, ghost done': seq<string>)
      requires i < |parts|
      requires filer.Valid() && MkdirsDone(before, earlier, done, perm)
      modifies filer`store, filer`trace
      ensures filer.Valid() && MkdirsDone(before, earlier, done', perm)
      ensures done' + MkdirAllPaths(next, parts[i + 1..]) == done + MkdirAllPaths(path, parts[i..])
    {
      MkdirAllPathsStep(path, parts, i);
      var p := parts[i];
      next, done' := path, done;
      if p != "" {
        next := Join(path, p);
        ghost var rest := MkdirAllPaths(next, parts[i + 1..]);
        if next != "/" {
          assert MkdirAllPaths(path, parts[i..]) == [next] + rest;
          mkdirIgnoring(next, perm, before, earlier, done);
          done' := done + [next];
        } else {
          assert MkdirAllPaths(path, parts[i..]) == rest;
        }
      }
    }

    // -------------------------------------------------------------------
    // RemoveAll

    /** Call `c` is the open `removeAll(name)` begins with. */
    predicate OpensWith(c: Call, name: string)
      reads this`cwd
    {
      (c.OpenCall? || c.OpenFileCall?) && c == OpenEntry(name, c.err)
    }

    /** Removal `r` was called on its name joined onto `path`, began with
        the open of that path, and names that path's key. */
    ghost predicate Child(path: string, r: Removal)
      reads this`cwd, filer`cwd
    {
      r.path == Join(path, r.name) && OpensWith(r.open, r.path) && r.key == filer.Key(r.path)
    }

    /** Each removal of a run is a `Child` of `path`. */
    ghost predicate Joined(path: string, rs: seq<Removal>)
      reads this`cwd, filer`cwd
    {
      forall r | r in rs :: Child(path, r)
    }

    /** One recursive removal `r` of a name the directory at `path`
        listed, as the trace `t` from position `from` on and the store
        show it: its open is the call at its position, and if it returned
        nil it left nothing at its key. */
    ghost predicate Began(r: Removal, from: nat, t: seq<Call>, store: map<string, Node>)
    {
      && from <= r.at < |t| && t[r.at] == r.open
      && (r.err == None ==> r.key !in store)
    }

    /** The recursive removals `rs`: each as `Began` says, each after the
        one before it, which returned nil. */
    ghost predicate Recursed(path: string, rs: seq<Removal>, from: nat, t: seq<Call>, store: map<string, Node>)
    {
      && (forall k | 0 <= k < |rs| :: Began(rs[k], from, t, store))
      && (forall k | 0 <= k < |rs| - 1 :: rs[k].at < rs[k + 1].at && rs[k].err == None)
    }

    /** The removals `rs`, from position `from` of `t` on, of the names
        among the first `n` of `entries` that are not `.` or `..`: one
        per name, in the order listed, each on the name joined onto
        `path`, begun as `Recursed` says, and each returning nil. */
    ghost predicate Prior(path: string, entries: seq<string>, n: nat, rs: seq<Removal>, from: nat,
                          t: seq<Call>, store: map<string, Node>)
      reads this`cwd, filer`cwd
    {
      && n <= |entries| && Names(rs) == Children(entries[..n]) && Succeeded(rs)
      && Joined(path, rs) && from <= |t| && Recursed(path, rs, from, t, store)
    }

    /** Removals `rs` of names of `entries`, as `Prior` says except that
        the last one returned `failure`, which ended them. */
    ghost predicate Halted(path: string, entries: seq<string>, failure: Option<Error>, rs: seq<Removal>,
                           from: nat, t: seq<Call>, store: map<string, Node>)
      reads this`cwd, filer`cwd
    {
      && failure.Some? && rs != [] && failure == rs[|rs| - 1].err && Names(rs) <= Children(entries)
      && Joined(path, rs) && Recursed(path, rs, from, t, store)
    }

    /** The directory half of `removeAll` on `path`, whose handle is on
        `key` and lists `entries`: the first call, at `from`, asks for
        `NamesPerBatch` names; the children are removed recursively in
        the order listed; a listing fault ends it before any removal, and
        otherwise the first child that fails ends it with that child's
        error; without an error every child was removed. */
    ghost predicate EntriesRemoved(path: string, key: string, entries: seq<string>, failure: Option<Error>,
                                   visited: seq<Removal>, from: nat, t: seq<Call>, store: map<string, Node>)
      reads this`cwd, filer`cwd
    {
      && from < |t| && Lists(t[from], key)
      && (key in filer.faults.list ==> failure == Some(PathError("readdirnames", key, Injected)) && visited == [])
      && (key !in filer.faults.list && failure.Some? ==> Halted(path, entries, failure, visited, from, t, store))
      && (failure == None ==> Prior(path, entries, |entries|, visited, from, t, store))
    }

    /** Later calls and removals keep what `Recursed` saw. */
    lemma RecursedLater(path: string, rs: seq<Removal>, from: nat, t: seq<Call>,
                        store: map<string, Node>, t': seq<Call>, store': map<string, Node>)
      requires Recursed(path, rs, from, t, store) && t <= t' && store'.Keys <= store.Keys
      ensures Recursed(path, rs, from, t', store')
    {
      forall k | 0 <= k < |rs|
        ensures Began(rs[k], from, t', store')
      {
        assert t'[rs[k].at] == t[rs[k].at];
      }
    }

    /** Every removal `Recursed` saw began before the end of the trace. */
    lemma RecursedBefore(path: string, rs: seq<Removal>, from: nat, t: seq<Call>, store: map<string, Node>)
      requires Recursed(path, rs, from, t, store) && rs != []
      ensures rs[|rs| - 1].at < |t|
    {
    }

    /** Later calls and removals keep what `EntriesRemoved` saw. */
    lemma EntriesRemovedLater(path: string, key: string, entries: seq<string>, failure: Option<Error>,
                              visited: seq<Removal>, from: nat, t: seq<Call>, store: map<string, Node>,
                              t': seq<Call>, store': map<string, Node>)
      requires EntriesRemoved(path, key, entries, failure, visited, from, t, store)
      requires t <= t' && store'.Keys <= store.Keys
      ensures EntriesRemoved(path, key, entries, failure, visited, from, t', store')
    {
      assert t'[from] == t[from];
      if key !in filer.faults.list && (failure.Some? || failure == None) {
        RecursedLater(path, visited, from, t, store, t', store');
      }
    }

    /** A run of successful removals, followed by a run begun at `mid`
        or later, after the first one ended: one run. */
    lemma RecursedAppend(path: string, a: seq<Removal>, b: seq<Removal>, from: nat, mid: nat,
                         t: seq<Call>, store: map<string, Node>)
      requires Recursed(path, a, from, t, store) && Succeeded(a) && from <= mid
      requires a != [] ==> a[|a| - 1].at < mid
      requires Recursed(path, b, mid, t, store)
      ensures Recursed(path, a + b, from, t, store)
    {
      var ab := a + b;
      forall k | 0 <= k < |ab|
        ensures Began(ab[k], from, t, store)
      {
        if k >= |a| {
          assert ab[k] == b[k - |a|] && Began(b[k - |a|], mid, t, store);
        } else {
          assert ab[k] == a[k];
        }
      }
      forall k | 0 <= k < |ab| - 1
        ensures ab[k].at < ab[k + 1].at && ab[k].err == None
      {
        if k + 1 < |a| {
          assert ab[k] == a[k] && ab[k + 1] == a[k + 1];
        } else if k + 1 == |a| {
          assert ab[k] == a[k] && ab[k + 1] == b[0] && Began(b[0], mid, t, store);
        } else {
          assert ab[k] == b[k - |a|] && ab[k + 1] == b[k - |a| + 1];
        }
      }
    }

    /** One more removal, begun at the end of `t`, after a run of
        successful ones. */
    lemma RecursedSnoc(path: string, rs: seq<Removal>, from: nat, t: seq<Call>, store: map<string, Node>,
                       t': seq<Call>, store': map<string, Node>, r: Removal)
      requires Recursed(path, rs, from, t, store) && Succeeded(rs)
      requires t <= t' && store'.Keys <= store.Keys
      requires from <= r.at == |t| < |t'| && t'[r.at] == r.open
      requires r.err == None ==> r.key !in store'
      ensures Recursed(path, rs + [r], from, t', store')
    {
      RecursedLater(path, rs, from, t, store, t', store');
      if rs != [] {
        RecursedBefore(path, rs, from, t, store);
      }
      assert (rs + [r])[..|rs|] == rs;
    }

    /** The backend calls and outcome of `removeAll(path)` from a store
        `before` and a trace `earlier`:
        - the first call opens `path`; when the open fails, its error is
          the result and nothing else happens;
        - otherwise `RemovedOpened` holds;
        - a nil result means that nothing is left where the final
          removal of `path` looked. */
    ghost predicate RemovedAll(path: string, intended: bool, err: Option<Error>, failure: Option<Error>,
                               visited: seq<Removal>, before: map<string, Node>, earlier: seq<Call>)
      reads this, filer
    {
      var key := OpenKey(path);
      && Shrinks(before, filer.store) && Within(path, before, filer.store)
      && earlier <= filer.trace
      && |filer.trace| > |earlier| && OpensWith(filer.trace[|earlier|], path)
      && (key !in before ==>
            && err == Some(PathError("open", key, NotExist)) && failure == err && visited == []
            && filer.store == before && filer.trace == earlier + [OpenEntry(path, err)])
      && (key in before ==> RemovedOpened(path, key, intended, err, failure, visited, before, earlier))
      && (err == None ==> filer.Key(path) !in filer.store)
    }

    /** `RemovedAll` once `path` opened on the node at `key`:
        - the calls go on with the handle's `Stat` and end with closing
          the handle and removing `path` as given; the result is what the
          deferred block makes of the body's `failure` and those two
          answers; as written a failed body has closed the handle once
          already, so the second close is refused;
        - a plain file: as written it is removed through `Remove` and then
          removed again, and the second removal fails; intended, it is
          removed once;
        - a directory: `EntriesRemoved`, from the call after the `Stat`;
        - a nil result means the final removal found and removed the
          node. */
    ghost predicate RemovedOpened(path: string, key: string, intended: bool, err: Option<Error>,
                                  failure: Option<Error>, visited: seq<Removal>, before: map<string, Node>,
                                  earlier: seq<Call>)
      reads this, filer
    {
      var t := filer.trace;
      && key in before
      && |t| >= |earlier| + 4
      && t[|earlier|] == OpenEntry(path, None)
      && t[|earlier| + 1].HandleStatCall? && t[|earlier| + 1].key == key
      && t[|t| - 2].HandleCloseCall? && t[|t| - 2].key == key
      && t[|t| - 1].RemoveCall? && t[|t| - 1].name == path
      && err == Deferred(intended, failure, t[|t| - 2].err, t[|t| - 1].err)
      && (!intended && failure.Some? ==> t[|t| - 2].err == Some(PathError("close", key, Closed)))
      && (err == None ==> filer.Key(path) !in filer.store)
      && (key in filer.faults.stat ==> failure == Some(PathError("stat", key, Injected)) && visited == [])
      && (key !in filer.faults.stat && !before[key].isDir ==> visited == [])
      && (key !in filer.faults.stat && before[key].isDir ==>
            EntriesRemoved(path, key, before[key].entries, failure, visited, |earlier| + 2, t, filer.store))
      && (IsAbs(path) && !before[key].isDir
          && key !in filer.faults.stat && key !in filer.faults.remove && key !in filer.faults.close ==>
            && filer.store == before - {key}
            && err == if intended then None else Some(PathError("remove", key, NotExist)))
    }

    /** Every node that `before` holds and `after` lacks was at or under
        the node of `path`, taken as given or resolved: `removeAll(path)`
        removes nothing else. */
    ghost predicate Within(path: string, before: map<string, Node>, after: map<string, Node>)
      reads this`cwd, filer`cwd
    {
      forall k | Gone(before, after, k) :: Below(filer.Key(path), k) || Below(filer.Key(Resolved(path)), k)
    }

    /** What a removal under a listed name removes lies under the
        directory. */
    lemma WithinJoin(path: string, name: string, before: map<string, Node>, after: map<string, Node>)
      requires IsName(name) && Within(Join(path, name), before, after)
      ensures Within(path, before, after)
    {
      var child := Join(path, name);
      JoinExtends(path, name);
      KeyExtends(filer, path, child, name);
      ResolveExtends(filer.caps.navigator, cwd, path, child, name);
      KeyExtends(filer, Resolved(path), Resolved(child), name);
      forall k | Gone(before, after, k)
        ensures Below(filer.Key(path), k) || Below(filer.Key(Resolved(path)), k)
      {
        if Below(filer.Key(child), k) {
          BelowParent(filer.Key(path), filer.Key(child), name, k);
        } else {
          BelowParent(filer.Key(Resolved(path)), filer.Key(Resolved(child)), name, k);
        }
      }
    }

    lemma WithinTransitive(path: string, a: map<string, Node>, b: map<string, Node>, c: map<string, Node>)
      requires Within(path, a, b) && Within(path, b, c)
      ensures Within(path, a, c)
    {
      forall k | Gone(a, c, k)
        ensures Below(filer.Key(path), k) || Below(filer.Key(Resolved(path)), k)
      {
        if k in b {
          assert Gone(b, c, k);
        } else {
          assert Gone(a, b, k);
        }
      }
    }

    /** The node `removeAll` recurses on is one element deeper. */
    lemma ChildKey(path: string, name: string)
      requires IsName(name)
      ensures Depth(OpenKey(Join(path, name))) == Depth(OpenKey(path)) + 1
    {
      JoinExtends(path, name);
      var x, y := path, Join(path, name);
      var rx, ry := if filer.caps.opener then x else Resolved(x), if filer.caps.opener then y else Resolved(y);
      if !filer.caps.opener {
        ResolveExtends(filer.caps.navigator, cwd, x, y, name);
      }
      assert Extends(rx, ry, name);
      KeyExtends(filer, rx, ry, name);
      ExtendsDepth(filer.Key(rx), filer.Key(ry), name);
    }

    /** `removeAll` (filesystem.go:259-315): open `path`, stat the handle,
        remove a plain file through `Remove`, or else remove every name
        the directory lists, recursively; then, deferred, close the handle
        and remove `path` through the backend. With `intended`, the plain
        file is removed once and the first error wins. */
    method removeAll(path: string, intended: bool) returns (err: Option<Error>, failure: Option<Error>,
                                                            ghost visited: seq<Removal>)
      requires filer.Valid()
      modifies filer`store, filer`trace
      ensures filer.Valid()
      ensures RemovedAll(path, intended, err, failure, visited, old(filer.store), old(filer.trace))
      decreases Deeper(filer.store, Depth(OpenKey(path))), 8
    {
      var o := Open(path);
      if o.Failure? {
        return Some(o.error), Some(o.error), [];
      }
      err, failure, visited := removeOpened(path, o.value, intended, old(filer.trace));
    }

    /** `removeAll` once `path` is open on `f`: the body, then the
        deferred block. */
    method removeOpened(path: string, f: Handle, intended: bool, ghost earlier: seq<Call>)
      returns (err: Option<Error>, failure: Option<Error>, ghost visited: seq<Removal>)
      requires filer.Valid() && f.owner == filer && f.Valid() && !f.closed && f.cursor == 0
      requires f.key == OpenKey(path) && f.key in filer.store && f.node == filer.store[f.key]
      requires filer.trace == earlier + [OpenEntry(path, None)]
      modifies filer`store, filer`trace, f
      ensures filer.Valid() && Shrinks(old(filer.store), filer.store) && earlier <= filer.trace
      ensures Within(path, old(filer.store), filer.store)
      ensures RemovedOpened(path, f.key, intended, err, failure, visited, old(filer.store), earlier)
      decreases Deeper(filer.store, Depth(f.key)), 7
    {
      failure, visited := removeBody(path, f, intended);
      ghost var t2, s2 := filer.trace, filer.store;
      ghost var closer, removed;
      err, closer, removed := closeAndRemove(path, f, intended, failure);
      ShrinksTransitive(old(filer.store), s2, filer.store);
      WithinTransitive(path, old(filer.store), s2, filer.store);
      PrefixThen(earlier, t2, filer.trace, OpenEntry(path, None));
      assert filer.trace[|earlier| + 1] == t2[|earlier| + 1];
      if f.key !in filer.faults.stat && f.node.isDir {
        assert |old(filer.trace)| + 1 == |earlier| + 2;
        EntriesRemovedLater(path, f.key, f.node.entries, failure, visited, |earlier| + 2, t2, s2,
                            filer.trace, filer.store);
      }
    }

    /** The body of `removeAll` once `path` is open (filesystem.go:282-314):
        stat the handle; remove a plain file through `Remove`, resolving
        `path` again (the corrected body leaves it to the deferred
        removal); list and remove the entries of a directory. */
    method removeBody(path: string, f: Handle, intended: bool) returns (failure: Option<Error>,
                                                                       ghost visited: seq<Removal>)
      requires filer.Valid() && f.owner == filer && f.Valid() && !f.closed && f.cursor == 0
      requires f.key == OpenKey(path) && f.key in filer.store && f.node == filer.store[f.key]
      modifies filer`store, filer`trace, f
      ensures filer.Valid() && Shrinks(old(filer.store), filer.store) && old(filer.trace) <= filer.trace
      ensures !f.closed && Within(path, old(filer.store), filer.store)
      ensures |filer.trace| > |old(filer.trace)| && filer.trace[|old(filer.trace)|].HandleStatCall?
              && filer.trace[|old(filer.trace)|].key == f.key
      ensures f.key in filer.faults.stat ==> failure == Some(PathError("stat", f.key, Injected)) && visited == []
      ensures f.key !in filer.faults.stat && !f.node.isDir ==>
        var key := filer.Key(Resolved(path));
        var removed := if key !in old(filer.store) then Some(PathError("remove", key, NotExist))
                       else if key in filer.faults.remove then Some(PathError("remove", key, Injected))
                       else None;
        && visited == []
        && failure == (if intended then None else removed)
        && filer.store == (if intended || removed.Some? then old(filer.store) else old(filer.store) - {key})
      ensures f.key !in filer.faults.stat && f.node.isDir ==>
        EntriesRemoved(path, f.key, f.node.entries, failure, visited, |old(filer.trace)| + 1, filer.trace, filer.store)
      decreases Deeper(filer.store, Depth(f.key)), 6
    {
      var info := f.Stat();
      visited := [];
      ghost var t1 := filer.trace;
      if info.Failure? {
        failure := Some(info.error);
      } else if !info.value.isDir {
        if intended {
          failure := None;
        } else {
          failure := Remove(path);
        }
      } else {
        failure, visited := removeEntries(path, f, intended);
      }
      assert filer.trace[|old(filer.trace)|] == t1[|old(filer.trace)|];
    }

    /** The deferred block of `removeAll` (filesystem.go:268-280): as
        written, a failed body has closed the handle once already; the
        handle is closed and `path` removed through the backend as given,
        and `Deferred` makes the result. */
    method closeAndRemove(path: string, f: Handle, intended: bool, failure: Option<Error>)
      returns (err: Option<Error>, ghost closer: Option<Error>, ghost removed: Option<Error>)
      requires filer.Valid() && f.owner == filer && !f.closed
      modifies f, filer`store, filer`trace
      ensures filer.Valid() && f.closed
      ensures old(filer.trace) <= filer.trace && filer.store.Keys <= old(filer.store).Keys
      ensures Within(path, old(filer.store), filer.store)
      ensures var key := filer.Key(path);
        && removed == (if key !in old(filer.store) then Some(PathError("remove", key, NotExist))
                       else if key in filer.faults.remove then Some(PathError("remove", key, Injected))
                       else None)
        && filer.store == (if removed == None then old(filer.store) - {key} else old(filer.store))
      ensures closer == if !intended && failure.Some? then Some(PathError("close", f.key, Closed))
                        else if f.key in filer.faults.close then Some(PathError("close", f.key, Injected))
                        else None
      ensures filer.trace == old(filer.trace) +
        (if !intended && failure.Some? then [HandleCloseCall(f.key, old(f.CloseResult()))] else []) +
        [HandleCloseCall(f.key, closer), RemoveCall(path, removed)]
      ensures err == Deferred(intended, failure, closer, removed)
    {
      if !intended && failure.Some? {
        var _ := f.Close();
      }
      var c := f.Close();
      var r := filer.Remove(path);
      closer, removed := c, r;
      err := Deferred(intended, failure, c, r);
    }

    /** The directory loop of `removeAll` (filesystem.go:293-314): names
        in batches of `NamesPerBatch` until `io.EOF`; an error with an
        empty batch, or the first error of a recursive call, ends it. */
    method removeEntries(path: string, f: Handle, intended: bool) returns (failure: Option<Error>,
                                                                          ghost visited: seq<Removal>)
      requires filer.Valid() && f.owner == filer && f.Valid() && !f.closed && f.cursor == 0
      requires f.key == OpenKey(path) && f.key in filer.store && f.node.isDir
      modifies filer`store, filer`trace, f
      ensures filer.Valid() && Shrinks(old(filer.store), filer.store) && old(filer.trace) <= filer.trace
      ensures f.Valid() && !f.closed && Within(path, old(filer.store), filer.store)
      ensures EntriesRemoved(path, f.key, f.node.entries, failure, visited, |old(filer.trace)|, filer.trace, filer.store)
      decreases Deeper(filer.store, Depth(f.key)), 5
    {
      visited := [];
      var eof := false;
      ghost var from := |filer.trace|;
      while !eof
        invariant filer.Valid() && Shrinks(old(filer.store), filer.store) && old(filer.trace) <= filer.trace
        invariant f.Valid() && !f.closed && Within(path, old(filer.store), filer.store)
        invariant Prior(path, f.node.entries, f.cursor, visited, from, filer.trace, filer.store)
        invariant f.key in filer.faults.list ==> visited == []
        invariant |filer.trace| > from ==> Lists(filer.trace[from], f.key)
        invariant eof ==> |filer.trace| > from
        invariant eof ==> f.cursor == |f.node.entries| && f.key !in filer.faults.list
        decreases |f.node.entries| - f.cursor, if eof then 0 else 1
      {
        ghost var s0, t0 := filer.store, filer.trace;
        var failure;
        failure, eof, visited := removeNext(path, f, intended, old(filer.store), from, visited);
        ShrinksTransitive(old(filer.store), s0, filer.store);
        if |t0| > from {
          assert filer.trace[from] == t0[from];
        } else {
          assert |t0| == from;
        }
        assert Lists(filer.trace[from], f.key);
        if failure.Some? {
          return failure, visited;
        }
      }
      return None, visited;
    }

    /** One turn of that loop: ask for the next `NamesPerBatch` names and
        remove them; `eof` once the listing is exhausted. */
    method removeNext(path: string, f: Handle, intended: bool, ghost before: map<string, Node>,
                      ghost from: nat, ghost visited: seq<Removal>)
      returns (failure: Option<Error>, eof: bool, ghost visited': seq<Removal>)
      requires filer.Valid() && f.owner == filer && f.Valid() && !f.closed && f.node.isDir
      requires f.key == OpenKey(path) && f.key in before && Shrinks(before, filer.store)
      requires Prior(path, f.node.entries, f.cursor, visited, from, filer.trace, filer.store)
      modifies filer`store, filer`trace, f
      ensures filer.Valid() && Shrinks(old(filer.store), filer.store) && old(filer.trace) <= filer.trace
      ensures f.Valid() && !f.closed && Within(path, old(filer.store), filer.store)
      ensures |filer.trace| > |old(filer.trace)| && Lists(filer.trace[|old(filer.trace)|], f.key)
      ensures f.key in filer.faults.list ==>
        failure == Some(PathError("readdirnames", f.key, Injected)) && visited' == visited
      ensures f.key !in filer.faults.list && failure.Some? ==>
        Halted(path, f.node.entries, failure, visited', from, filer.trace, filer.store)
      ensures failure == None ==> Prior(path, f.node.entries, f.cursor, visited', from, filer.trace, filer.store)
      ensures failure == None ==> if eof then f.cursor == |f.node.entries| && f.key !in filer.faults.list
                                  else f.cursor > old(f.cursor)
      decreases Deeper(before, Depth(f.key)), 4
    {
      var entries := f.node.entries;
      var names, rerr := nextBatch(f);
      ghost var t1 := filer.trace;
      RecursedLater(path, visited, from, old(filer.trace), filer.store, t1, filer.store);
      if rerr.Some? && |names| == 0 && rerr != Some(EOF) {
        assert f.key in filer.faults.list;
        return rerr, false, visited;
      }
      eof := rerr == Some(EOF);
      failure, visited' := removeListed(path, names, intended, f.key, before, entries, f.cursor - |names|, f.cursor,
                                        from, visited);
      assert filer.trace[|old(filer.trace)|] == t1[|old(filer.trace)|];
    }

    /** The removals of the batch `names`, the listing `entries` from
        `start` to `cursor`, after the removals `visited` of the names
        before it. */
    method removeListed(path: string, names: seq<string>, intended: bool, ghost key: string,
                        ghost before: map<string, Node>, ghost entries: seq<string>, ghost start: nat,
                        ghost cursor: nat, ghost from: nat, ghost visited: seq<Removal>)
      returns (failure: Option<Error>, ghost visited': seq<Removal>)
      requires filer.Valid() && key == OpenKey(path) && key in before && Shrinks(before, filer.store)
      requires start <= cursor <= |entries| && names == entries[start..cursor]
      requires forall i | 0 <= i < |names| :: IsEntryName(names[i])
      requires Prior(path, entries, start, visited, from, filer.trace, filer.store)
      modifies filer`store, filer`trace
      ensures filer.Valid() && Shrinks(old(filer.store), filer.store) && old(filer.trace) <= filer.trace
      ensures Within(path, old(filer.store), filer.store)
      ensures failure.Some? ==> Halted(path, entries, failure, visited', from, filer.trace, filer.store)
      ensures failure == None ==> Prior(path, entries, cursor, visited', from, filer.trace, filer.store)
      decreases Deeper(before, Depth(key)), 3
    {
      ghost var done;
      failure, done := removeBatch(path, names, intended, key, before);
      ShrinksTransitive(before, old(filer.store), filer.store);
      BatchJoins(path, entries, start, cursor, names, visited, done, failure, from, |old(filer.trace)|,
                 old(filer.trace), old(filer.store), filer.trace, filer.store);
      visited' := visited + done;
    }

    /** The removals of one more batch of a listing join those before. */
    lemma BatchJoins(path: string, entries: seq<string>, start: nat, cursor: nat, names: seq<string>,
                     visited: seq<Removal>, done: seq<Removal>, failure: Option<Error>, from: nat, mid: nat,
                     t0: seq<Call>, store0: map<string, Node>, t: seq<Call>, store: map<string, Node>)
      requires start <= cursor <= |entries| && names == entries[start..cursor]
      requires Prior(path, entries, start, visited, from, t0, store0)
      requires t0 <= t && store.Keys <= store0.Keys && |t0| <= mid
      requires failure == None ==> Prior(path, names, |names|, done, mid, t, store)
      requires failure.Some? ==> Halted(path, names, failure, done, mid, t, store)
      ensures failure == None ==> Prior(path, entries, cursor, visited + done, from, t, store)
      ensures failure.Some? ==> Halted(path, entries, failure, visited + done, from, t, store)
    {
      var v := visited + done;
      RecursedLater(path, visited, from, t0, store0, t, store);
      if visited != [] {
        RecursedBefore(path, visited, from, t0, store0);
      }
      RecursedAppend(path, visited, done, from, mid, t, store);
      SliceSplit(entries, start, cursor);
      ChildrenAppend(entries[..start], names);
      NamesAppend(visited, done);
      assert names[..|names|] == names;
      if failure.Some? {
        assert v[|v| - 1] == done[|done| - 1];
        ChildrenPrefix(entries, cursor);
      } else {
        assert Succeeded(v);
      }
    }

    /** `Readdirnames(NamesPerBatch)` on an open directory handle: at most
        that many names. */
    method nextBatch(f: Handle) returns (names: seq<string>, err: Option<Error>)
      requires f.owner == filer && f.Valid() && !f.closed && f.node.isDir
      modifies f, filer`trace
      ensures f.Valid() && !f.closed
      ensures filer.trace == old(filer.trace) + [HandleReaddirnamesCall(f.key, NamesPerBatch, names, err)]
      ensures |names| <= NamesPerBatch
      ensures f.key in filer.faults.list ==>
        names == [] && err == Some(PathError("readdirnames", f.key, Injected)) && f.cursor == old(f.cursor)
      ensures f.key !in filer.faults.list ==>
        && f.cursor == old(f.cursor) + |names| && names == f.node.entries[old(f.cursor)..f.cursor]
        && (err == Some(EOF) <==> names == []) && (err != Some(EOF) ==> err == None)
        && (names == [] ==> f.cursor == |f.node.entries|)
      ensures forall i | 0 <= i < |names| :: IsEntryName(names[i])
    {
      names, err := f.Readdirnames(NamesPerBatch);
    }

    /** One batch of names of the directory at `path`, stored in `before`
        at `key`: `.` and `..` skipped, `removeAll` on each other name
        joined onto `path`, up to the first error (filesystem.go:303-311). */
    method removeBatch(path: string, names: seq<string>, intended: bool, ghost key: string,
                       ghost before: map<string, Node>) returns (failure: Option<Error>, ghost done: seq<Removal>)
      requires filer.Valid() && key == OpenKey(path) && key in before && filer.store.Keys <= before.Keys
      requires forall i | 0 <= i < |names| :: IsEntryName(names[i])
      modifies filer`store, filer`trace
      ensures filer.Valid() && Shrinks(old(filer.store), filer.store) && old(filer.trace) <= filer.trace
      ensures Within(path, old(filer.store), filer.store)
      ensures failure == None ==> Prior(path, names, |names|, done, |old(filer.trace)|, filer.trace, filer.store)
      ensures failure.Some? ==> Halted(path, names, failure, done, |old(filer.trace)|, filer.trace, filer.store)
      decreases Deeper(before, Depth(key)), 2
    {
      done := [];
      var j := 0;
      assert names[..0] == [];
      assert Prior(path, names, j, done, |old(filer.trace)|, filer.trace, filer.store);
      while j < |names|
        invariant 0 <= j <= |names|
        invariant filer.Valid() && Shrinks(old(filer.store), filer.store) && old(filer.trace) <= filer.trace
        invariant filer.store.Keys <= before.Keys && Within(path, old(filer.store), filer.store)
        invariant Prior(path, names, j, done, |old(filer.trace)|, filer.trace, filer.store)
      {
        ghost var d := done;
        failure, done := removeName(path, names, j, intended, key, before, |old(filer.trace)|, d);
        if failure.Some? {
          return failure, done;
        }
        j := j + 1;
      }
      return None, done;
    }

    /** One turn of that loop: `removeAll` on the `j`-th name unless it
        is `.` or `..`. */
    method removeName(path: string, names: seq<string>, j: nat, intended: bool, ghost key: string,
                      ghost before: map<string, Node>, ghost from: nat, ghost done: seq<Removal>)
      returns (err: Option<Error>, ghost done': seq<Removal>)
      requires j < |names| && IsEntryName(names[j])
      requires filer.Valid() && key == OpenKey(path) && key in before && filer.store.Keys <= before.Keys
      requires Prior(path, names, j, done, from, filer.trace, filer.store)
      modifies filer`store, filer`trace
      ensures filer.Valid() && Shrinks(old(filer.store), filer.store) && old(filer.trace) <= filer.trace
      ensures Within(path, old(filer.store), filer.store)
      ensures err == None ==> Prior(path, names, j + 1, done', from, filer.trace, filer.store)
      ensures err.Some? ==> Halted(path, names, err, done', from, filer.trace, filer.store)
      decreases Deeper(before, Depth(key)), 1
    {
      var name := names[j];
      if name == "." || name == ".." {
        ChildrenNext(names, j);
        return None, done;
      }
      ghost var child := Join(path, name);
      err := removeChild(path, name, intended, key, before);
      WithinJoin(path, name, old(filer.store), filer.store);
      ghost var r := Removal(name, child, filer.trace[|old(filer.trace)|], filer.Key(child), |old(filer.trace)|, err);
      ChildJoins(path, names, j, done, r, from, old(filer.trace), old(filer.store), filer.trace, filer.store);
      done' := done + [r];
    }

    /** The removal `r` of one more listed name joins those before it. */
    lemma ChildJoins(path: string, names: seq<string>, j: nat, done: seq<Removal>, r: Removal, from: nat,
                     t0: seq<Call>, store0: map<string, Node>, t: seq<Call>, store: map<string, Node>)
      requires j < |names| && r.name == names[j] && r.name != "." && r.name != ".." && Child(path, r)
      requires Prior(path, names, j, done, from, t0, store0)
      requires t0 <= t && store.Keys <= store0.Keys && r.at == |t0| < |t| && t[r.at] == r.open
      requires r.err == None ==> r.key !in store
      ensures r.err == None ==> Prior(path, names, j + 1, done + [r], from, t, store)
      ensures r.err.Some? ==> Halted(path, names, r.err, done + [r], from, t, store)
    {
      ChildNames(names, j, done, r);
      RecursedSnoc(path, done, from, t0, store0, t, store, r);
      if r.err == None {
        SucceededSnoc(done, r);
      }
    }

    /** `removeAll` on a name listed in the directory at `path`, which
        was stored in `before` at `key`: it reaches one element deeper,
        its first call opens the joined name, and a nil result means
        nothing is left at that name. */
    method removeChild(path: string, name: string, intended: bool, ghost key: string,
                       ghost before: map<string, Node>) returns (err: Option<Error>)
      requires filer.Valid() && IsName(name) && key == OpenKey(path)
      requires key in before && filer.store.Keys <= before.Keys
      modifies filer`store, filer`trace
      ensures filer.Valid() && Shrinks(old(filer.store), filer.store) && old(filer.trace) <= filer.trace
      ensures |filer.trace| > |old(filer.trace)| && OpensWith(filer.trace[|old(filer.trace)|], Join(path, name))
      ensures err == None ==> filer.Key(Join(path, name)) !in filer.store
      ensures Within(Join(path, name), old(filer.store), filer.store)
      decreases Deeper(before, Depth(key)), 0
    {
      ChildKey(path, name);
      BelowShrinks(before, filer.store, key);
      ghost var failure, visited;
      err, failure, visited := removeAll(Join(path, name), intended);
    }

    /** The native `RemoveAll` with the name as given; otherwise
        `removeAll` on the resolved name (filesystem.go:317-328). */
    method RemoveAll(name: string) returns (err: Option<Error>, ghost failure: Option<Error>,
                                            ghost visited: seq<Removal>)
      requires filer.Valid()
      modifies filer`store, filer`trace
      ensures filer.Valid()
      ensures filer.caps.remover ==>
        && err == old(filer.Missing("remove", name)) && filer.store == old(filer.store) - {filer.Key(name)}
        && filer.trace == old(filer.trace) + [RemoveAllCall(name, err)]
      ensures !filer.caps.remover ==>
        RemovedAll(Resolved(name), false, err, failure, visited, old(filer.store), old(filer.trace))
    {
      if filer.caps.remover {
        err := filer.RemoveAll(name);
        return err, None, [];
      }
      err, failure, visited := removeAll(Resolved(name), false);
    }

    /** `RemoveAll` as evidently intended: a plain file removed once, and
        the first error kept. */
    method RemoveAllIntended(name: string) returns (err: Option<Error>, ghost failure: Option<Error>,
                                                    ghost visited: seq<Removal>)
      requires filer.Valid()
      modifies filer`store, filer`trace
      ensures filer.Valid()
      ensures filer.caps.remover ==>
        && err == old(filer.Missing("remove", name)) && filer.store == old(filer.store) - {filer.Key(name)}
        && filer.trace == old(filer.trace) + [RemoveAllCall(name, err)]
      ensures !filer.caps.remover ==>
        RemovedAll(Resolved(name), true, err, failure, visited, old(filer.store), old(filer.trace))
    {
      if filer.caps.remover {
        err := filer.RemoveAll(name);
        return err, None, [];
      }
      err, failure, visited := removeAll(Resolved(name), true);
    }

    /** The native `Truncate` with the name as given; otherwise `OpenFile`
        write-only and truncating, with mode 0666, then the handle's
        `Close`. `size` is not used: the file is emptied
        (filesystem.go:330-345). */
    method Truncate(name: string, size: int) returns (err: Option<Error>)
      requires filer.Valid()
      modifies filer`store, filer`trace
      ensures filer.Valid()
      ensures filer.caps.truncater ==>
        var key := filer.Key(name);
        && err == (if key !in old(filer.store) then Some(PathError("truncate", key, NotExist))
                   else if size < 0 then Some(Panic("slice bounds out of range"))
                   else None)
        && filer.store == (if err == None then old(filer.store)[key := old(filer.store)[key].(content := Resize(old(filer.store)[key].content, size))]
                           else old(filer.store))
        && filer.trace == old(filer.trace) + [TruncateCall(name, size, err)]
      ensures !filer.caps.truncater ==>
        var key := filer.Key(Resolved(name));
        var call := OpenFileCall(Resolved(name), O_WRONLY + O_TRUNC, Perm0666, if key in old(filer.store) then None else err);
        && filer.store == Opened(old(filer.store), key, O_WRONLY + O_TRUNC)
        && (key !in old(filer.store) ==>
              err == Some(PathError("open", key, NotExist)) && filer.trace == old(filer.trace) + [call])
        && (key in old(filer.store) ==>
              && filer.store[key].content == []
              && err == (if key in filer.faults.close then Some(PathError("close", key, Injected)) else None)
              && filer.trace == old(filer.trace) + [call, HandleCloseCall(key, err)])
    {
      if filer.caps.truncater {
        err := filer.Truncate(name, size);
        return;
      }
      var o := filer.OpenFile(Resolved(name), O_WRONLY + O_TRUNC, Perm0666);
      if o.Failure? {
        return Some(o.error);
      }
      err := o.value.Close();
    }

    /** `Truncate` as evidently intended: the fallback opens the file
        write-only without `O_TRUNC`, truncates the handle to `size`, and
        closes it; the first error wins. */
    method TruncateIntended(name: string, size: int) returns (err: Option<Error>)
      requires filer.Valid()
      modifies filer`store, filer`trace
      ensures filer.Valid()
      ensures filer.caps.truncater ==>
        var key := filer.Key(name);
        && err == (if key !in old(filer.store) then Some(PathError("truncate", key, NotExist))
                   else if size < 0 then Some(Panic("slice bounds out of range"))
                   else None)
        && filer.store == (if err == None then old(filer.store)[key := old(filer.store)[key].(content := Resize(old(filer.store)[key].content, size))]
                           else old(filer.store))
        && filer.trace == old(filer.trace) + [TruncateCall(name, size, err)]
      ensures !filer.caps.truncater ==>
        var key := filer.Key(Resolved(name));
        && (key !in old(filer.store) ==>
              err == Some(PathError("open", key, NotExist)) && filer.store == old(filer.store))
        && (key in old(filer.store) && size < 0 ==>
              err == Some(PathError("truncate", key, Invalid)) && filer.store == old(filer.store))
        && (key in old(filer.store) && size >= 0 ==>
              && filer.store == old(filer.store)[key := old(filer.store)[key].(content := Resize(old(filer.store)[key].content, size))]
              && err == (if key in filer.faults.close then Some(PathError("close", key, Injected)) else None))
    {
      if filer.caps.truncater {
        err := filer.Truncate(name, size);
        return;
      }
      var o := filer.OpenFile(Resolved(name), O_WRONLY, Perm0666);
      if o.Failure? {
        return Some(o.error);
      }
      var terr := o.value.Truncate(size);
      var cerr := o.value.Close();
      err := if terr.Some? then terr else cerr;
    }
  }

  /** Children of a list of names: those of its first part, then those of
      the rest. */
  lemma {:induction false} ChildrenAppend(a: seq<string>, b: seq<string>)
    ensures Children(a + b) == Children(a) + Children(b)
    decreases |b|
  {
    if b != [] {
      var b', e := b[..|b| - 1], b[|b| - 1];
      assert (a + b)[..|a + b| - 1] == a + b';
      ChildrenAppend(a, b');
    } else {
      assert a + b == a;
    }
  }

  /** Going through the listed names in order visits a prefix of all the
      children. */
  lemma ChildrenNext(names: seq<string>, j: nat)
    requires j < |names|
    ensures Children(names[..j + 1]) ==
      Children(names[..j]) + (if names[j] == "." || names[j] == ".." then [] else [names[j]])
  {
    assert names[..j + 1][..j] == names[..j];
  }

  lemma {:induction false} ChildrenPrefix(names: seq<string>, k: nat)
    requires k <= |names|
    ensures Children(names[..k]) <= Children(names)
    decreases |names|
  {
    if k == |names| {
      assert names[..k] == names;
    } else {
      var init := names[..|names| - 1];
      assert init[..k] == names[..k];
      ChildrenPrefix(init, k);
      var a, b := Children(init), Children(names);
      assert b[..|a|] == a;
    }
  }

  /** The removal of the `j`-th listed name, not `.` or `..`, after those
      of the names before it: the removals so far are of the children
      among the first `j + 1` names, and of no name that is not a child. */
  lemma ChildNames(names: seq<string>, j: nat, done: seq<Removal>, r: Removal)
    requires j < |names| && r.name == names[j] && r.name != "." && r.name != ".."
    requires Names(done) == Children(names[..j])
    ensures Names(done + [r]) == Children(names[..j + 1]) && Children(names[..j + 1]) <= Children(names)
  {
    ChildrenNext(names, j);
    NamesSnoc(done, r);
    ChildrenPrefix(names, j + 1);
  }

  lemma SucceededSnoc(rs: seq<Removal>, r: Removal)
    requires Succeeded(rs) && r.err == None
    ensures Succeeded(rs + [r])
  {
    assert forall k | 0 <= k < |rs + [r]| :: (rs + [r])[k] == if k < |rs| then rs[k] else r;
  }
}
