/** `fileadapter` (fileadapter.go:11-138): the same upgrade of a seekable
    handle to a full `File` as file.go's `file`, with three differences:
    `WriteString` always goes through `Write`, the truncation fallback
    writes chunks of 4096 bytes, and `Close` closes the handle. */
module Adapters {
  import opened Common
  import opened Streams
  import opened Files

  class FileAdapter {
    const sf: Stream

    constructor (sf: Stream)
      ensures this.sf == sf
    {
      this.sf := sf;
    }

    /** The handle's own name. */
    function Name(): (name: string)
      ensures name == sf.conf.name
    {
      sf.conf.name
    }

    /** The handle's `Readdir`: every entry of an open directory,
        whatever `n` is; a closed handle or a plain file is refused. */
    function Readdir(n: int): (r: Result<seq<Info>, Error>)
      reads sf
      ensures r.Failure? <==> sf.closed || !sf.conf.isDir
      ensures r.Success? ==> r.value == sf.conf.entries
    {
      ReaddirResult(sf.conf, sf.Snapshot(), n)
    }

    /** The handle's `Sync`: refused exactly when it is closed. */
    function Sync(): (err: Option<Error>)
      reads sf
      ensures err.Some? <==> sf.closed
    {
      SyncResult(sf.conf, sf.Snapshot())
    }

    /** The handle's `Stat`: refused exactly when it is closed, and
        otherwise the handle's name, its current size and its kind. */
    function Stat(): (r: Result<Info, Error>)
      reads sf
      ensures r.Failure? <==> sf.closed
      ensures r.Success? ==> r.value == Info(Name(), |sf.data|, sf.conf.isDir)
    {
      StatResult(sf.conf, sf.Snapshot())
    }

    method Read(n: nat) returns (got: seq<byte>, err: Option<Error>)
      modifies sf
      ensures (sf.Snapshot(), got, err) == ReadStep(sf.conf, old(sf.Snapshot()), n)
    {
      got, err := sf.Read(n);
    }

    method Seek(off: int, whence: int) returns (pos: int, err: Option<Error>)
      modifies sf
      ensures (sf.Snapshot(), pos, err) == SeekStep(sf.conf, old(sf.Snapshot()), off, whence)
    {
      pos, err := sf.Seek(off, whence);
    }

    method Write(p: seq<byte>) returns (n: nat, err: Option<Error>)
      modifies sf
      ensures (sf.Snapshot(), n, err) == WriteStep(sf.conf, old(sf.Snapshot()), p)
    {
      n, err := sf.Write(p);
    }

    method ReadAt(n: nat, off: int) returns (got: seq<byte>, err: Option<Error>)
      modifies sf
      ensures (sf.Snapshot(), got, err) == AtRead(sf.conf, old(sf.Snapshot()), n, off)
    {
      if sf.conf.caps.at {
        var r := ReadAtResult(sf.conf, sf.Snapshot(), n, off);
        return r.0, r.1;
      }
      var _, serr := sf.Seek(off, SeekStart);
      if serr.Some? {
        return [], serr;
      }
      got, err := sf.Read(n);
    }

    method WriteAt(p: seq<byte>, off: int) returns (n: nat, err: Option<Error>)
      modifies sf
      ensures (sf.Snapshot(), n, err) == AtWrite(sf.conf, old(sf.Snapshot()), p, off)
    {
      if sf.conf.caps.at {
        n, err := sf.WriteAt(p, off);
        return;
      }
      var _, serr := sf.Seek(off, SeekStart);
      if serr.Some? {
        return 0, serr;
      }
      n, err := sf.Write(p);
    }

    /** Always `Write`, even when the handle has its own `WriteString`. */
    method WriteString(s: seq<byte>) returns (n: nat, err: Option<Error>)
      modifies sf
      ensures (sf.Snapshot(), n, err) == WriteStep(sf.conf, old(sf.Snapshot()), s)
    {
      n, err := sf.Write(s);
    }

    /** The native `Truncate` when the handle has one; otherwise `size`
        zero bytes from the start in chunks of 4096. */
    method Truncate(size: int) returns (err: Option<Error>, ghost issued: seq<nat>)
      modifies sf
      ensures sf.conf.caps.truncater ==> (sf.Snapshot(), err) == TruncateStep(sf.conf, old(sf.Snapshot()), size)
      ensures !sf.conf.caps.truncater && old(sf.closed) ==> err.Some? && sf.Snapshot() == old(sf.Snapshot())
      ensures !sf.conf.caps.truncater && !old(sf.closed) ==>
        !sf.closed && ZeroFilled(sf.conf.name, sf.conf.limit, sf.data, sf.offset, old(sf.data), size, 4096, err, issued)
    {
      issued := [];
      if sf.conf.caps.truncater {
        err := sf.Truncate(size);
        return;
      }
      err, issued := ZeroFill(sf, size, 4096);
    }

    method Readdirnames(n: int) returns (r: Result<seq<string>, Error>)
      ensures r == DirNames(sf.conf, sf.Snapshot(), n)
    {
      r := ReadNames(sf, n);
    }

    /** Unlike `file`, closing the adapter closes the handle. */
    method Close() returns (err: Option<Error>)
      modifies sf
      ensures (sf.Snapshot(), err) == CloseStep(sf.conf, old(sf.Snapshot()))
    {
      err := sf.Close();
    }
  }

  /** The adapter's fallback truncation of an open handle of at most the
      limit, to a size that fits, writes `ceil(size / 4096)` chunks: all
      of 4096 bytes but a shorter last one, `size` bytes in all. */
  lemma AdapterTruncateChunks(name: string, limit: nat, data: seq<byte>, offset: nat, before: seq<byte>,
                              size: int, err: Option<Error>, issued: seq<nat>)
    requires ZeroFilled(name, limit, data, offset, before, size, 4096, err, issued)
    requires 0 <= size <= limit
    ensures err == None && Sum(issued) == size && offset == size
    ensures forall k | 0 <= k < |issued| - 1 :: issued[k] == 4096
    ensures forall k | 0 <= k < |issued| :: 0 < issued[k] <= 4096
  {
    ChunksCover(size, 4096);
  }
}
