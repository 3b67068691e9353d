/** `InvalidFile` (invalidfile.go): the placeholder handle an opener
    returns together with its error. It holds only the path it was asked
    for; every operation but `Name` and `Close` fails with an
    `*os.PathError` carrying `EBADF`, and nothing is ever changed. */
module InvalidFiles {
  import opened Common

  datatype InvalidFile = InvalidFile(path: string)
  {
    function Name(): string { path }

    /** The error every failing operation reports, under its own name. */
    function BadHandle(op: string): Error
    {
      PathError(op, Name(), BadDescriptor)
    }

    function Read(p: seq<byte>): (nat, Error) { (0, BadHandle("read")) }
    function Write(p: seq<byte>): (nat, Error) { (0, BadHandle("write")) }
    function Close(): Option<Error> { None }
    function Sync(): Option<Error> { Some(BadHandle("sync")) }
    function Stat(): (Option<Info>, Error) { (None, BadHandle("stat")) }
    function Readdir(n: int): (Option<seq<Info>>, Error) { (None, BadHandle("readdir")) }
    function Seek(offset: int, whence: int): (int, Error) { (0, BadHandle("seek")) }
    function ReadAt(b: seq<byte>, off: int): (nat, Error) { (0, BadHandle("read")) }
    function WriteAt(b: seq<byte>, off: int): (nat, Error) { (0, BadHandle("write")) }
    function WriteString(s: string): (nat, Error) { (0, BadHandle("write")) }
    function Truncate(size: int): Option<Error> { Some(BadHandle("truncate")) }
    function Readdirnames(n: int): (Option<seq<string>>, Error) { (None, BadHandle("readdirnames")) }
  }

  /** What an `InvalidFile` does, whatever it is given: `Name` returns the
      path, `Close` succeeds, the byte operations report no progress and
      the rest return no value; every failure is `EBADF` on the handle's
      own path, under the name of the operation (reads as `read`, writes
      as `write`). */
  lemma InvalidFileRefusesAll(f: InvalidFile, p: seq<byte>, s: string, n: int, off: int, whence: int)
    ensures f.Name() == f.path && f.Close() == None
    ensures f.Read(p) == (0, PathError("read", f.path, BadDescriptor))
    ensures f.ReadAt(p, off) == (0, PathError("read", f.path, BadDescriptor))
    ensures f.Write(p) == (0, PathError("write", f.path, BadDescriptor))
    ensures f.WriteAt(p, off) == (0, PathError("write", f.path, BadDescriptor))
    ensures f.WriteString(s) == (0, PathError("write", f.path, BadDescriptor))
    ensures f.Seek(off, whence) == (0, PathError("seek", f.path, BadDescriptor))
    ensures f.Stat() == (None, PathError("stat", f.path, BadDescriptor))
    ensures f.Readdir(n) == (None, PathError("readdir", f.path, BadDescriptor))
    ensures f.Readdirnames(n) == (None, PathError("readdirnames", f.path, BadDescriptor))
    ensures f.Sync() == Some(PathError("sync", f.path, BadDescriptor))
    ensures f.Truncate(n) == Some(PathError("truncate", f.path, BadDescriptor))
  {
  }
}
