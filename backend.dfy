/** The backend a filesystem wrapper extends: a `Filer` (filesystem.go:14-39)
    together with the optional interfaces it may implement
    (filesystem.go:349-384), and the handles its `OpenFile` returns.

    Its behaviour follows the package's own test backend
    (filesystem_test.go:13-119 and, for the optional methods,
    filesystem_optional_test.go): a map from cleaned path to node, in
    which a directory node records the names it lists; creating or
    removing a node leaves its parent's listing alone. A backend that
    navigates directories itself (`dirnavigator`) resolves a relative name
    against its own working directory; the test backends only clean it.
    A node's info is named by its whole key, where the test backend's
    `Name()` gives the last element. Failures other than a missing or
    already existing node (permissions, I/O) are given by `Faults`: the
    paths at which an operation fails.

    Every call is recorded, with its arguments and its outcome, in the
    ghost `trace`, so that what a wrapper asked of its backend, and what
    it did with the answer, can be stated. */
module Backends {
  import opened Common
  import opened Paths
  import opened OpenFlags
  import opened FileModes

  /** The optional interfaces of filesystem.go:349-384 the backend has. */
  datatype Caps = Caps(
    opener: bool,         // Open
    creator: bool,        // Create
    mkaller: bool,        // MkdirAll
    remover: bool,        // RemoveAll
    truncater: bool,      // Truncate
    navigator: bool,      // Chdir and Getwd
    separator: bool,      // Separator
    listSeparator: bool,  // ListSeparator
    temper: bool)         // TempDir

  datatype Node = Node(isDir: bool, content: seq<byte>, entries: seq<string>)

  /** The paths at which the backend fails an operation for a reason of its
      own: creating a directory, removing, statting a handle, listing a
      handle, closing a handle. */
  datatype Faults = Faults(mkdir: set<string>, remove: set<string>, stat: set<string>,
                           list: set<string>, close: set<string>)

  /** One call made to the backend or to a handle it returned, with its
      arguments and its outcome. */
  datatype Call =
    | OpenFileCall(name: string, flag: Flags, perm: FileMode, err: Option<Error>)
    | MkdirCall(name: string, perm: FileMode, err: Option<Error>)
    | RemoveCall(name: string, err: Option<Error>)
    | StatCall(name: string, info: Result<Info, Error>)
    | ChmodCall(name: string, mode: FileMode, err: Option<Error>)
    | ChtimesCall(name: string, atime: int, mtime: int, err: Option<Error>)
    | ChownCall(name: string, uid: int, gid: int, err: Option<Error>)
    | OpenCall(name: string, err: Option<Error>)
    | CreateCall(name: string, err: Option<Error>)
    | MkdirAllCall(name: string, perm: FileMode, err: Option<Error>)
    | RemoveAllCall(name: string, err: Option<Error>)
    | TruncateCall(name: string, size: int, err: Option<Error>)
    | ChdirCall(dir: string, err: Option<Error>)
    | GetwdCall(dir: string)
    | HandleStatCall(key: string, info: Result<Info, Error>)
    | HandleReaddirnamesCall(key: string, n: int, names: seq<string>, err: Option<Error>)
    | HandleTruncateCall(key: string, size: int, err: Option<Error>)
    | HandleCloseCall(key: string, err: Option<Error>)

  /** A name a directory may list: a plain name, or one of the `.` and
      `..` pseudo-entries. */
  predicate IsEntryName(s: string)
  {
    IsName(s) || s == "." || s == ".."
  }

  predicate ValidNode(n: Node)
  {
    forall i | 0 <= i < |n.entries| :: IsEntryName(n.entries[i])
  }

  predicate ValidStore(store: map<string, Node>)
  {
    forall k | k in store :: ValidNode(store[k])
  }

  /** The error half of an open. */
  function ErrorOf<T>(r: Result<T, Error>): Option<Error>
  {
    if r.Failure? then Some(r.error) else None
  }

  /** The nodes after `OpenFile` at `key` with `flag`: `O_CREATE` adds an
      empty file where nothing was, and `O_TRUNC` empties what is there. */
  function Opened(store: map<string, Node>, key: string, flag: Flags): (s: map<string, Node>)
    ensures s.Keys == if O_CREATE <= flag then store.Keys + {key} else store.Keys
    ensures forall k | k in store && k != key :: s[k] == store[k]
  {
    var created := if O_CREATE <= flag && key !in store then store[key := Node(false, [], [])] else store;
    if O_TRUNC <= flag && key in created then created[key := created[key].(content := [])] else created
  }

  /** `n` bytes: the first ones of `data`, then zeros. */
  function Resize(data: seq<byte>, n: nat): (r: seq<byte>)
    ensures |r| == n
    ensures forall i | 0 <= i < n :: r[i] == if i < |data| then data[i] else 0
  {
    if n <= |data| then data[..n] else data + Zeros(n - |data|)
  }

  /** The entries a handle lists in one `Readdirnames(n)` from `cursor`:
      up to `n` of them when `n > 0`, all that are left otherwise. */
  function Batch(entries: seq<string>, cursor: nat, n: int): (b: seq<string>)
    requires cursor <= |entries|
    ensures n > 0 ==> |b| <= n
    ensures cursor + |b| <= |entries| && b == entries[cursor..cursor + |b|]
    ensures |b| == 0 ==> cursor == |entries| || n == 0
  {
    if n > 0 && cursor + n < |entries| then entries[cursor..cursor + n] else entries[cursor..]
  }

  class Filer {
    const caps: Caps
    const faults: Faults
    const separator: char       // what a native Separator returns
    const listSeparator: char   // what a native ListSeparator returns
    const tempDir: string       // what a native TempDir returns
    var store: map<string, Node>
    var cwd: string             // used only when the backend navigates
    ghost var trace: seq<Call>

    ghost predicate Valid()
      reads this
    {
      ValidStore(store)
    }

    constructor (caps: Caps, faults: Faults, separator: char, listSeparator: char, tempDir: string,
                 store: map<string, Node>)
      requires ValidStore(store)
      ensures Valid() && trace == [] && cwd == "/"
      ensures this.caps == caps && this.faults == faults && this.store == store
      ensures this.separator == separator && this.listSeparator == listSeparator && this.tempDir == tempDir
    {
      this.caps := caps;
      this.faults := faults;
      this.separator := separator;
      this.listSeparator := listSeparator;
      this.tempDir := tempDir;
      this.store := store;
      cwd := "/";
      trace := [];
    }

    /** The node a name denotes: its cleaned form, resolved against the
        backend's own working directory when it navigates. */
    function Key(name: string): string
      reads this`cwd
    {
      if caps.navigator && !IsAbs(name) then Clean(Join(cwd, name)) else Clean(name)
    }

    /** The open shared by `OpenFile` and the native `Open` and `Create`. */
    method Acquire(key: string, flag: Flags) returns (r: Result<Handle, Error>)
      requires Valid()
      modifies this`store
      ensures Valid() && store == Opened(old(store), key, flag)
      ensures r.Failure? <==> key !in store
      ensures r.Failure? ==> r.error == PathError("open", key, NotExist)
      ensures r.Success? ==> fresh(r.value) && r.value.Fresh(this, key, store[key])
    {
      store := Opened(store, key, flag);
      if key !in store {
        return Failure(PathError("open", key, NotExist));
      }
      var h := new Handle(this, key, store[key]);
      return Success(h);
    }

    method OpenFile(name: string, flag: Flags, perm: FileMode) returns (r: Result<Handle, Error>)
      requires Valid()
      modifies this`store, this`trace
      ensures Valid() && store == Opened(old(store), Key(name), flag)
      ensures r.Failure? <==> Key(name) !in store
      ensures r.Failure? ==> r.error == PathError("open", Key(name), NotExist)
      ensures r.Success? ==> fresh(r.value) && r.value.Fresh(this, Key(name), store[Key(name)])
      ensures trace == old(trace) + [OpenFileCall(name, flag, perm, ErrorOf(r))]
    {
      r := Acquire(Key(name), flag);
      trace := trace + [OpenFileCall(name, flag, perm, ErrorOf(r))];
    }

    method Mkdir(name: string, perm: FileMode) returns (err: Option<Error>)
      requires Valid()
      modifies this`store, this`trace
      ensures Valid()
      ensures var key := Key(name);
        && err == (if key in old(store) then Some(PathError("mkdir", key, Exist))
                   else if key in faults.mkdir then Some(PathError("mkdir", key, Injected))
                   else None)
        && store == if err == None then old(store)[key := Node(true, [], [])] else old(store)
      ensures trace == old(trace) + [MkdirCall(name, perm, err)]
    {
      var key := Key(name);
      if key in store {
        err := Some(PathError("mkdir", key, Exist));
      } else if key in faults.mkdir {
        err := Some(PathError("mkdir", key, Injected));
      } else {
        store := store[key := Node(true, [], [])];
        err := None;
      }
      trace := trace + [MkdirCall(name, perm, err)];
    }

    method Remove(name: string) returns (err: Option<Error>)
      requires Valid()
      modifies this`store, this`trace
      ensures Valid()
      ensures var key := Key(name);
        && err == (if key !in old(store) then Some(PathError("remove", key, NotExist))
                   else if key in faults.remove then Some(PathError("remove", key, Injected))
                   else None)
        && store == if err == None then old(store) - {key} else old(store)
      ensures trace == old(trace) + [RemoveCall(name, err)]
    {
      var key := Key(name);
      if key !in store {
        err := Some(PathError("remove", key, NotExist));
      } else if key in faults.remove {
        err := Some(PathError("remove", key, Injected));
      } else {
        store := store - {key};
        err := None;
      }
      trace := trace + [RemoveCall(name, err)];
    }

    /** What `Stat` reports of a name. */
    function StatOf(name: string): Result<Info, Error>
      reads this
    {
      var key := Key(name);
      if key !in store then Failure(PathError("stat", key, NotExist))
      else Success(Info(key, |store[key].content|, store[key].isDir))
    }

    method Stat(name: string) returns (r: Result<Info, Error>)
      modifies this`trace
      ensures r == StatOf(name)
      ensures trace == old(trace) + [StatCall(name, r)]
    {
      r := StatOf(name);
      trace := trace + [StatCall(name, r)];
    }

    /** The error of an operation that only needs its node to exist. */
    function Missing(op: string, name: string): Option<Error>
      reads this
    {
      if Key(name) in store then None else Some(PathError(op, Key(name), NotExist))
    }

    method Chmod(name: string, mode: FileMode) returns (err: Option<Error>)
      modifies this`trace
      ensures err == Missing("chmod", name)
      ensures trace == old(trace) + [ChmodCall(name, mode, err)]
    {
      err := Missing("chmod", name);
      trace := trace + [ChmodCall(name, mode, err)];
    }

    method Chtimes(name: string, atime: int, mtime: int) returns (err: Option<Error>)
      modifies this`trace
      ensures err == Missing("chtimes", name)
      ensures trace == old(trace) + [ChtimesCall(name, atime, mtime, err)]
    {
      err := Missing("chtimes", name);
      trace := trace + [ChtimesCall(name, atime, mtime, err)];
    }

    method Chown(name: string, uid: int, gid: int) returns (err: Option<Error>)
      modifies this`trace
      ensures err == Missing("chown", name)
      ensures trace == old(trace) + [ChownCall(name, uid, gid, err)]
    {
      err := Missing("chown", name);
      trace := trace + [ChownCall(name, uid, gid, err)];
    }

    // -------------------------------------------------------------------
    // The optional interfaces.

    /** A native `Open`: `OpenFile` read-only. */
    method Open(name: string) returns (r: Result<Handle, Error>)
      requires Valid() && caps.opener
      modifies this`store, this`trace
      ensures Valid() && store == old(store)
      ensures r.Failure? <==> Key(name) !in store
      ensures r.Failure? ==> r.error == PathError("open", Key(name), NotExist)
      ensures r.Success? ==> fresh(r.value) && r.value.Fresh(this, Key(name), store[Key(name)])
      ensures trace == old(trace) + [OpenCall(name, ErrorOf(r))]
    {
      r := Acquire(Key(name), O_RDONLY);
      trace := trace + [OpenCall(name, ErrorOf(r))];
    }

    /** A native `Create`: `OpenFile` creating and truncating. */
    method Create(name: string) returns (r: Result<Handle, Error>)
      requires Valid() && caps.creator
      modifies this`store, this`trace
      ensures Valid() && store == Opened(old(store), Key(name), O_CREATE + O_RDWR + O_TRUNC)
      ensures r.Success? && fresh(r.value) && r.value.Fresh(this, Key(name), store[Key(name)])
      ensures trace == old(trace) + [CreateCall(name, None)]
    {
      r := Acquire(Key(name), O_CREATE + O_RDWR + O_TRUNC);
      trace := trace + [CreateCall(name, ErrorOf(r))];
    }

    /** The keys `names` denote. */
    function KeysAt(names: seq<string>): set<string>
      reads this`cwd
      decreases |names|
    {
      if names == [] then {} else KeysAt(names[..|names| - 1]) + {Key(names[|names| - 1])}
    }

    /** `after` is `before` with an empty directory made at each of `keys`
        where nothing was and `Mkdir` is not refused; nothing else
        changes. */
    ghost predicate MadeAll(before: map<string, Node>, after: map<string, Node>, keys: set<string>)
    {
      && (forall key :: key in after <==> key in before || (key in keys && key !in faults.mkdir))
      && (forall key | key in after :: after[key] == if key in before then before[key] else Node(true, [], []))
    }

    /** `Mkdir` at one more key, its refusal ignored, keeps `MadeAll`. */
    lemma MadeStep(before: map<string, Node>, s: map<string, Node>, keys: set<string>, key: string)
      requires MadeAll(before, s, keys)
      ensures MadeAll(before, if key !in s && key !in faults.mkdir then s[key := Node(true, [], [])] else s,
                      keys + {key})
    {
    }

    /** A native `MkdirAll`, as in the test backend: the cleaned name and
        each of its ancestors below the root (or `.`), outermost first,
        is handed to `Mkdir` unless something is there; what `Mkdir`
        refuses is ignored, and the result is nil. */
    method MkdirAll(name: string, perm: FileMode) returns (err: Option<Error>)
      requires Valid() && caps.mkaller
      modifies this`store, this`trace
      ensures Valid() && err == None
      ensures MadeAll(old(store), store, KeysAt(Prefixes(IsAbs(name), Elements(name), 0)))
      ensures trace == old(trace) + [MkdirAllCall(name, perm, err)]
    {
      var rooted, es := IsAbs(name), Elements(name);
      assert Normal(rooted, es) by {
        CleanElements(name);
      }
      var parts := Lineage(Clean(name), rooted, es);
      MkdirEach(parts);
      err := None;
      trace := trace + [MkdirAllCall(name, perm, err)];
    }

    /** The second loop of the test backend's `MkdirAll`: `Mkdir` on each
        part where nothing is, its refusal ignored. */
    method MkdirEach(parts: seq<string>)
      requires Valid()
      modifies this`store
      ensures Valid() && MadeAll(old(store), store, KeysAt(parts))
    {
      for i := 0 to |parts|
        invariant Valid() && MadeAll(old(store), store, KeysAt(parts[..i]))
      {
        var key := Key(parts[i]);
        assert KeysAt(parts[..i + 1]) == KeysAt(parts[..i]) + {key} by {
          assert parts[..i + 1][..i] == parts[..i];
        }
        MadeStep(old(store), store, KeysAt(parts[..i]), key);
        if key !in store && key !in faults.mkdir {
          store := store[key := Node(true, [], [])];
        }
      }
      assert parts[..|parts|] == parts;
    }

    /** The parts the test backend's `MkdirAll` collects from the cleaned
        name `dir`, whose elements are `es`: `filepath.Dir` until the root
        or `.`, each part in front of the ones before it. `dir` holds the
        first `k` elements, and `Dir` drops the last one. */
    static method Lineage(dir: string, rooted: bool, es: seq<string>) returns (parts: seq<string>)
      requires Normal(rooted, es) && dir == Paths.Render(rooted, es)
      ensures parts == Prefixes(rooted, es, 0)
    {
      parts := [];
      var name := dir;
      var k := |es|;
      assert es[..k] == es;
      while name != "/" && name != "."
        invariant k <= |es| && name == Paths.Render(rooted, es[..k]) && parts == Prefixes(rooted, es, k)
        decreases k
      {
        RenderPrefix(rooted, es, k);
        parts := [name] + parts;
        k := k - 1;
        name := Paths.Render(rooted, es[..k]);
      }
      RenderPrefix(rooted, es, k);
    }

    /** A native `RemoveAll`: the node alone goes, as in the test backend. */
    method RemoveAll(name: string) returns (err: Option<Error>)
      requires Valid() && caps.remover
      modifies this`store, this`trace
      ensures Valid()
      ensures err == old(Missing("remove", name))
      ensures store == old(store) - {Key(name)}
      ensures trace == old(trace) + [RemoveAllCall(name, err)]
    {
      err := Missing("remove", name);
      store := store - {Key(name)};
      trace := trace + [RemoveAllCall(name, err)];
    }

    /** A native `Truncate`: the content is cut or zero-padded to `size`;
        a negative size slices out of range, as the test backend does
        unchecked. */
    method Truncate(name: string, size: int) returns (err: Option<Error>)
      requires Valid() && caps.truncater
      modifies this`store, this`trace
      ensures Valid()
      ensures var key := Key(name);
        && err == (if key !in old(store) then Some(PathError("truncate", key, NotExist))
                   else if size < 0 then Some(Panic("slice bounds out of range"))
                   else None)
        && store == if err == None then old(store)[key := old(store)[key].(content := Resize(old(store)[key].content, size))]
                    else old(store)
      ensures trace == old(trace) + [TruncateCall(name, size, err)]
    {
      var key := Key(name);
      if key !in store {
        err := Some(PathError("truncate", key, NotExist));
      } else if size < 0 {
        err := Some(Panic("slice bounds out of range"));
      } else {
        store := store[key := store[key].(content := Resize(store[key].content, size))];
        err := None;
      }
      trace := trace + [TruncateCall(name, size, err)];
    }

    /** A native `Chdir`: the backend's own working directory moves to an
        existing directory. */
    method Chdir(dir: string) returns (err: Option<Error>)
      requires caps.navigator
      modifies this`cwd, this`trace
      ensures var key := old(Key(dir));
        && err == (if key !in store then Some(PathError("chdir", key, NotExist))
                   else if !store[key].isDir then Some(PathError("chdir", key, Invalid))
                   else None)
        && cwd == if err == None then key else old(cwd)
      ensures trace == old(trace) + [ChdirCall(dir, err)]
    {
      var key := Key(dir);
      if key !in store {
        err := Some(PathError("chdir", key, NotExist));
      } else if !store[key].isDir {
        err := Some(PathError("chdir", key, Invalid));
      } else {
        cwd := key;
        err := None;
      }
      trace := trace + [ChdirCall(dir, err)];
    }

    method Getwd() returns (dir: string)
      requires caps.navigator
      modifies this`trace
      ensures dir == cwd
      ensures trace == old(trace) + [GetwdCall(dir)]
    {
      dir := cwd;
      trace := trace + [GetwdCall(dir)];
    }
  }

  /** A handle `OpenFile` returned: the node as it was when opened, a
      listing position and whether it is closed. Only what the wrapper
      asks of a handle is modelled: `Stat`, `Readdirnames`, `Truncate` and
      `Close`. */
  class Handle {
    const owner: Filer
    const key: string
    const node: Node
    var cursor: nat
    var closed: bool

    constructor (owner: Filer, key: string, node: Node)
      requires ValidNode(node)
      ensures Fresh(owner, key, node)
    {
      this.owner := owner;
      this.key := key;
      this.node := node;
      cursor := 0;
      closed := false;
    }

    /** Just opened on `key`, where `node` was. */
    ghost predicate Fresh(owner: Filer, key: string, node: Node)
      reads this
    {
      this.owner == owner && this.key == key && this.node == node && ValidNode(node)
      && cursor == 0 && !closed
    }

    ghost predicate Valid()
      reads this
    {
      ValidNode(node) && cursor <= |node.entries|
    }

    function StatResult(): Result<Info, Error>
      reads this
    {
      if closed then Failure(PathError("stat", key, Closed))
      else if key in owner.faults.stat then Failure(PathError("stat", key, Injected))
      else Success(Info(key, |node.content|, node.isDir))
    }

    method Stat() returns (r: Result<Info, Error>)
      modifies owner`trace
      ensures r == StatResult()
      ensures owner.trace == old(owner.trace) + [HandleStatCall(key, r)]
    {
      r := StatResult();
      owner.trace := owner.trace + [HandleStatCall(key, r)];
    }

    /** `Readdirnames(n)` as `os.File` has it (file.go:87-96): with
        `n > 0` the next at most `n` names, and once none are left an
        empty batch with `io.EOF`; with `n <= 0` all the names left. */
    method Readdirnames(n: int) returns (names: seq<string>, err: Option<Error>)
      requires Valid()
      modifies this, owner`trace
      ensures Valid() && closed == old(closed)
      ensures old(closed) ==> names == [] && err == Some(PathError("readdirnames", key, Closed)) && cursor == old(cursor)
      ensures !old(closed) && !node.isDir ==>
        names == [] && err == Some(PathError("readdirnames", key, NotADirectory)) && cursor == old(cursor)
      ensures !old(closed) && node.isDir && key in owner.faults.list ==>
        names == [] && err == Some(PathError("readdirnames", key, Injected)) && cursor == old(cursor)
      ensures !old(closed) && node.isDir && key !in owner.faults.list ==>
        && names == Batch(node.entries, old(cursor), n) && cursor == old(cursor) + |names|
        && err == if n > 0 && names == [] then Some(EOF) else None
      ensures owner.trace == old(owner.trace) + [HandleReaddirnamesCall(key, n, names, err)]
    {
      if closed {
        names, err := [], Some(PathError("readdirnames", key, Closed));
      } else if !node.isDir {
        names, err := [], Some(PathError("readdirnames", key, NotADirectory));
      } else if key in owner.faults.list {
        names, err := [], Some(PathError("readdirnames", key, Injected));
      } else {
        names := Batch(node.entries, cursor, n);
        cursor := cursor + |names|;
        err := if n > 0 && names == [] then Some(EOF) else None;
      }
      owner.trace := owner.trace + [HandleReaddirnamesCall(key, n, names, err)];
    }

    /** `Truncate(size)` on the handle: a negative size is refused, and
        otherwise the file is cut or zero-padded to `size`. A file no
        longer stored is resized where no one can see it, so the store
        stays as it is. */
    method Truncate(size: int) returns (err: Option<Error>)
      modifies owner`store, owner`trace
      ensures err == (if closed then Some(PathError("truncate", key, Closed))
                      else if size < 0 then Some(PathError("truncate", key, Invalid))
                      else None)
      ensures owner.store == if err == None && key in old(owner.store)
                             then old(owner.store)[key := old(owner.store)[key].(content := Resize(old(owner.store)[key].content, size))]
                             else old(owner.store)
      ensures owner.trace == old(owner.trace) + [HandleTruncateCall(key, size, err)]
    {
      if closed {
        err := Some(PathError("truncate", key, Closed));
      } else if size < 0 {
        err := Some(PathError("truncate", key, Invalid));
      } else {
        if key in owner.store {
          owner.store := owner.store[key := owner.store[key].(content := Resize(owner.store[key].content, size))];
        }
        err := None;
      }
      owner.trace := owner.trace + [HandleTruncateCall(key, size, err)];
    }

    /** What closing reports: a second close is refused, as `os.File`
        refuses it. */
    function CloseResult(): Option<Error>
      reads this
    {
      if closed then Some(PathError("close", key, Closed))
      else if key in owner.faults.close then Some(PathError("close", key, Injected))
      else None
    }

    method Close() returns (err: Option<Error>)
      modifies this, owner`trace
      ensures closed && cursor == old(cursor)
      ensures err == old(CloseResult())
      ensures owner.trace == old(owner.trace) + [HandleCloseCall(key, err)]
    {
      err := CloseResult();
      closed := true;
      owner.trace := owner.trace + [HandleCloseCall(key, err)];
    }
  }
}
