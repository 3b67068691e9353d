/** The handle upgrade functions of file.go: `ExtendUnseekable` buffers a
    forward-only handle into a `seekbuffer`, and `ExtendSeekable` upgrades a
    seekable handle to a full `File` (the `file` wrapper), falling back on
    `Seek` with `Read`/`Write` where the handle lacks a native `ReadAt`,
    `WriteAt`, `Truncate` or `Readdirnames`. The fallbacks are shared with
    fileadapter.go, so they are stated once here. */
module Files {
  import opened Common
  import opened Streams

  // ---------------------------------------------------------------------
  // The fallbacks, as steps on the wrapped handle.

  /** `ReadAt`: the native one when the handle has `ater`; otherwise a seek
      to `off` from the start, whose error is returned with nothing read,
      then a `Read` (file.go:270-279, fileadapter.go:48-57). */
  function AtRead(c: Conf, s: State, n: nat, off: int): (State, seq<byte>, Option<Error>)
  {
    if c.caps.at then
      var (got, err) := ReadAtResult(c, s, n, off);
      (s, got, err)
    else
      var (s1, _, serr) := SeekStep(c, s, off, SeekStart);
      if serr.Some? then (s1, [], serr) else ReadStep(c, s1, n)
  }

  /** `WriteAt`, in the same way (file.go:285-294, fileadapter.go:67-76). */
  function AtWrite(c: Conf, s: State, p: seq<byte>, off: int): (State, nat, Option<Error>)
  {
    if c.caps.at then WriteAtStep(c, s, p, off)
    else
      var (s1, _, serr) := SeekStep(c, s, off, SeekStart);
      if serr.Some? then (s1, 0, serr) else WriteStep(c, s1, p)
  }

  /** `Readdirnames`: the native one when the handle has `dirnamer`;
      otherwise the names of what `Readdir` lists, in order, or its error
      (file.go:329-346, fileadapter.go:116-133). */
  function DirNames(c: Conf, s: State, n: int): Result<seq<string>, Error>
  {
    if c.caps.dirnamer then ReaddirnamesResult(c, s, n)
    else
      match ReaddirResult(c, s, n)
      case Failure(e) => Failure(e)
      case Success(infos) => Success(Names(infos))
  }

  /** The seek-and-read fallback reads what the native `ReadAt` reads, with
      the same error, and leaves the offset just past those bytes; only a
      zero-byte read at or past the end differs (the fallback says EOF). */
  lemma AtReadAgrees(c: Conf, s: State, n: nat, off: int)
    requires !c.caps.at && !s.closed && off >= 0 && (n > 0 || off < |s.data|)
    ensures var (s1, got, err) := AtRead(c, s, n, off);
      (got, err) == ReadAtResult(c, s, n, off)
      && s1 == s.(offset := off + |got|)
  {
  }

  /** The seek-and-write fallback leaves the bytes the native `WriteAt`
      leaves, with the same count and error; it also moves the offset past
      what it wrote. */
  lemma AtWriteAgrees(c: Conf, s: State, p: seq<byte>, off: int)
    requires !c.caps.at && !s.closed && off >= 0
    ensures var (s1, n, err) := AtWrite(c, s, p, off);
      var (s2, m, err2) := WriteAtStep(c, s, p, off);
      n == m && err == err2 && s1 == s2.(offset := off + n)
  {
  }

  /** A negative offset is refused either way, touching nothing. */
  lemma AtNegativeOffset(c: Conf, s: State, n: nat, p: seq<byte>, off: int)
    requires off < 0
    ensures var (s1, got, err) := AtRead(c, s, n, off); s1 == s && got == [] && err.Some?
    ensures var (s1, k, err) := AtWrite(c, s, p, off); s1 == s && k == 0 && err.Some?
  {
  }

  /** For an open directory the fallback lists the same names as a native
      `Readdirnames`. */
  lemma DirNamesAgree(c: Conf, s: State, n: int)
    requires !s.closed && c.isDir
    ensures DirNames(c, s, n) == ReaddirnamesResult(c, s, n)
  {
  }

  /** The truncation fallback never shrinks the bytes: it zeroes the first
      `size` of them (or as many as fit) and keeps the rest. */
  lemma FallbackNeverShrinks(name: string, limit: nat, data: seq<byte>, offset: nat, before: seq<byte>,
                             size: int, chunk: nat, err: Option<Error>, issued: seq<nat>)
    requires chunk > 0 && ZeroFilled(name, limit, data, offset, before, size, chunk, err, issued)
    ensures |data| >= |before| && |data| >= offset
    ensures forall i | 0 <= i < offset :: data[i] == 0
    ensures forall i | offset <= i < |data| :: data[i] == before[i]
  {
    SpliceContents(before, 0, Zeros(offset));
  }

  /** `Readdirnames`, filling the names one by one (file.go:339-345,
      fileadapter.go:127-131). */
  method ReadNames(sf: Stream, n: int) returns (r: Result<seq<string>, Error>)
    ensures r == DirNames(sf.conf, sf.Snapshot(), n)
  {
    if sf.conf.caps.dirnamer {
      return ReaddirnamesResult(sf.conf, sf.Snapshot(), n);
    }
    var listed := ReaddirResult(sf.conf, sf.Snapshot(), n);
    if listed.Failure? {
      return Failure(listed.error);
    }
    var infos := listed.value;
    var names := new string[|infos|];
    for i := 0 to |infos|
      invariant forall j | 0 <= j < i :: names[j] == infos[j].name
    {
      names[i] := infos[i].name;
    }
    assert names[..] == Names(infos);
    return Success(names[..]);
  }

  // ---------------------------------------------------------------------
  // seekbuffer (file.go:170-236)

  /** `data` lengthened with zeros to `n` bytes when shorter. */
  function Grow(data: seq<byte>, n: int): (r: seq<byte>)
    ensures |r| == Max(|data|, n) && r[..|data|] == data
  {
    if n > |data| then data + Zeros(n - |data|) else data
  }

  /** What a buffer write does to the bytes and the offset. At a negative
      offset the buffer is grown and the copy then panics. `advance` tells
      whether the offset moves past the bytes written: the source does not
      move it (file.go:189-197); `true` is the evident intent. */
  function BufferWrite(data: seq<byte>, offset: int, p: seq<byte>, advance: bool): (seq<byte>, int, nat, Option<Error>)
  {
    if offset < 0 then (Grow(data, |p| + offset), offset, 0, Some(Panic("slice bounds out of range")))
    else (Splice(data, offset, p), if advance then offset + |p| else offset, |p|, None)
  }

  /** As written, a second write lands on top of the first. */
  lemma BufferWritesOverlap(data: seq<byte>, offset: nat, p: seq<byte>, q: seq<byte>)
    ensures var (d1, o1, _, _) := BufferWrite(data, offset, p, false);
      var (d2, o2, _, _) := BufferWrite(d1, o1, q, false);
      o2 == offset && d2 == Splice(Splice(data, offset, p), offset, q)
  {
  }

  /** For instance two one-byte writes to an empty buffer leave one byte. */
  lemma BufferWritesOverlapExample()
    ensures var (d1, o1, _, _) := BufferWrite([], 0, [1], false);
      BufferWrite(d1, o1, [2], false).0 == [2]
  {
    assert Splice([], 0, [1]) == [1];
    assert Splice([1], 0, [2]) == [2];
  }

  /** With the offset moving, consecutive writes concatenate. */
  lemma BufferWritesConcatenate(data: seq<byte>, offset: nat, p: seq<byte>, q: seq<byte>)
    ensures var (d1, o1, _, _) := BufferWrite(data, offset, p, true);
      var (d2, o2, _, _) := BufferWrite(d1, o1, q, true);
      o2 == offset + |p| + |q| && d2 == Splice(data, offset, p + q)
  {
    var d1 := Splice(data, offset, p);
    var d2 := Splice(d1, offset + |p|, q);
    var e := Splice(data, offset, p + q);
    SpliceContents(data, offset, p);
    SpliceContents(d1, offset + |p|, q);
    SpliceContents(data, offset, p + q);
    assert |d2| == |e|;
    forall i | 0 <= i < |d2| ensures d2[i] == e[i] {
      if offset <= i < offset + |p| {
        assert e[i] == (p + q)[i - offset];
      } else if offset + |p| <= i < offset + |p| + |q| {
        assert e[i] == (p + q)[i - offset];
      }
    }
  }

  /** Where a buffer seek leaves the offset: an unknown `whence` leaves it
      alone, and nothing stops it from going negative. */
  function BufferSeek(offset: int, size: nat, off: int, whence: int): int
  {
    match SeekTarget(offset, size, off, whence)
    case Some(t) => t
    case None => offset
  }

  class SeekBuffer {
    var data: seq<byte>
    var offset: int
    const uf: Stream

    constructor (data: seq<byte>, uf: Stream)
      ensures this.data == data && offset == 0 && this.uf == uf
    {
      this.data := data;
      offset := 0;
      this.uf := uf;
    }

    /** The handle's own name. */
    function Name(): (name: string)
      ensures name == uf.conf.name
    {
      uf.conf.name
    }

    /** The handle's `Stat`: refused exactly when it is closed, and
        otherwise the handle's name, its current size and its kind. The
        size is the handle's, not the buffer's. */
    function Stat(): (r: Result<Info, Error>)
      reads uf
      ensures r.Failure? <==> uf.closed
      ensures r.Success? ==> r.value == Info(Name(), |uf.data|, uf.conf.isDir)
    {
      StatResult(uf.conf, uf.Snapshot())
    }

    /** The handle's `Readdir`: every entry of an open directory,
        whatever `n` is; a closed handle or a plain file is refused. */
    function Readdir(n: int): (r: Result<seq<Info>, Error>)
      reads uf
      ensures r.Failure? <==> uf.closed || !uf.conf.isDir
      ensures r.Success? ==> r.value == uf.conf.entries
    {
      ReaddirResult(uf.conf, uf.Snapshot(), n)
    }

    /** At or past the end: nothing and EOF. Otherwise the bytes from the
        offset, at most `n` of them, and the offset moves past them; a short
        read is not an error here. A negative offset panics. */
    method Read(n: nat) returns (got: seq<byte>, err: Option<Error>)
      modifies this
      ensures data == old(data)
      ensures old(offset) >= |data| ==> got == [] && err == Some(EOF) && offset == old(offset)
      ensures old(offset) < 0 ==> got == [] && err.Some? && err.value.Panic? && offset == old(offset)
      ensures 0 <= old(offset) < |data| ==>
        got == Window(data, old(offset), n) && offset == old(offset) + |got| && err == None
    {
      if offset >= |data| {
        return [], Some(EOF);
      }
      if offset < 0 {
        return [], Some(Panic("slice bounds out of range"));
      }
      var k := Min(n, |data| - offset);
      got := data[offset..offset + k];
      offset := offset + k;
      return got, None;
    }

    /** The write as the source has it: the bytes land at the offset, but
        the offset stays where it was. */
    method Write(p: seq<byte>) returns (n: nat, err: Option<Error>)
      modifies this
      ensures (data, offset, n, err) == BufferWrite(old(data), old(offset), p, false)
    {
      if |p| + offset > |data| {
        data := Grow(data, |p| + offset);
      }
      if offset < 0 {
        return 0, Some(Panic("slice bounds out of range"));
      }
      ghost var grown := data;
      data := data[..offset] + p + data[offset + |p|..];
      assert data == Splice(old(data), offset, p) by {
        SpliceContents(old(data), offset, p);
        assert |data| == |grown|;
      }
      return |p|, None;
    }

    /** The write with the offset moving past the bytes written. */
    method WriteAdvancing(p: seq<byte>) returns (n: nat, err: Option<Error>)
      modifies this
      ensures (data, offset, n, err) == BufferWrite(old(data), old(offset), p, true)
    {
      n, err := Write(p);
      if err == None {
        offset := offset + n;
      }
    }

    method Seek(off: int, whence: int) returns (pos: int, err: Option<Error>)
      modifies this
      ensures data == old(data) && offset == BufferSeek(old(offset), |data|, off, whence)
      ensures pos == offset && err == None
    {
      if whence == SeekStart {
        offset := off;
      } else if whence == SeekCurrent {
        offset := offset + off;
      } else if whence == SeekEnd {
        offset := |data| + off;
      }
      return offset, None;
    }

    /** Writes the whole buffer to the underlying handle, at wherever its
        offset is; a short write panics, else the handle's `Sync` answers. */
    method Sync() returns (err: Option<Error>)
      modifies uf
      ensures var (s1, n, _) := WriteStep(uf.conf, old(uf.Snapshot()), data);
        uf.Snapshot() == s1
        && err == if n != |data| then Some(Panic("something went wrong")) else SyncResult(uf.conf, s1)
    {
      var n, werr := uf.Write(data);
      if n != |data| {
        return Some(Panic("something went wrong"));
      }
      return SyncResult(uf.conf, uf.Snapshot());
    }

    /** `Sync`, then, unless that failed, the handle's `Close`. */
    method Close() returns (err: Option<Error>)
      modifies uf
      ensures var (s1, n, _) := WriteStep(uf.conf, old(uf.Snapshot()), data);
        if n != |data| then err == Some(Panic("something went wrong")) && uf.Snapshot() == s1
        else if SyncResult(uf.conf, s1).Some? then err == SyncResult(uf.conf, s1) && uf.Snapshot() == s1
        else (uf.Snapshot(), err) == CloseStep(uf.conf, s1)
    {
      err := Sync();
      if err.Some? {
        return err;
      }
      err := uf.Close();
    }
  }

  /** Reads the whole handle into a fresh buffer at offset 0; a read error
      is returned with no buffer (file.go:99-110). */
  method ExtendUnseekable(uf: Stream) returns (r: Result<SeekBuffer, Error>)
    modifies uf
    ensures var (s1, all) := ReadAllStep(uf.conf, old(uf.Snapshot()));
      uf.Snapshot() == s1
      && (all.Failure? ==> r == Failure(all.error))
      && (all.Success? ==>
            r.Success? && fresh(r.value) && r.value.data == all.value && r.value.offset == 0 && r.value.uf == uf)
  {
    var all := uf.ReadAll();
    if all.Failure? {
      return Failure(all.error);
    }
    var sb := new SeekBuffer(all.value, uf);
    return Success(sb);
  }

  /** What the buffer holds after `ExtendUnseekable`: every byte of an
      open handle from its offset on; and since that read leaves the
      handle at its end, a later `Sync` appends the buffer after it. */
  lemma BufferedThenSynced(c: Conf, s: State)
    requires !s.closed && s.offset <= |s.data| && |s.data| + (|s.data| - s.offset) <= c.limit
    ensures var (s1, all) := ReadAllStep(c, s);
      all == Success(s.data[s.offset..])
      && WriteStep(c, s1, all.value).0.data == s.data + s.data[s.offset..]
  {
    var (s1, all) := ReadAllStep(c, s);
    var p := s.data[s.offset..];
    assert s1.offset == |s.data|;
    assert p[..|p|] == p;
    assert Splice(s.data, |s.data|, p) == s.data + p;
  }

  // ---------------------------------------------------------------------
  // file (file.go:238-350)

  /** `ExtendSeekable` always wraps its argument anew (file.go:166-168),
      even when the argument is already a `File`: it has no type switch,
      so `ExtendSeekable(ExtendSeekable(h))` is a wrapper around a
      wrapper, not the first wrapper, whatever fileadapter_test.go:335-348
      expects. Only plain handles are wrapped here. */
  method ExtendSeekable(sf: Stream) returns (f: FileWrapper)
    ensures fresh(f) && f.sf == sf
  {
    f := new FileWrapper(sf);
  }

  class FileWrapper {
    const sf: Stream

    constructor (sf: Stream)
      ensures this.sf == sf
    {
      this.sf := sf;
    }

    /** The handle's own name. */
    function Name(): (name: string)
      ensures name == sf.conf.name
    {
      sf.conf.name
    }

    /** The handle's `Readdir`: every entry of an open directory,
        whatever `n` is; a closed handle or a plain file is refused. */
    function Readdir(n: int): (r: Result<seq<Info>, Error>)
      reads sf
      ensures r.Failure? <==> sf.closed || !sf.conf.isDir
      ensures r.Success? ==> r.value == sf.conf.entries
    {
      ReaddirResult(sf.conf, sf.Snapshot(), n)
    }

    /** The handle's `Sync`: refused exactly when it is closed. */
    function Sync(): (err: Option<Error>)
      reads sf
      ensures err.Some? <==> sf.closed
    {
      SyncResult(sf.conf, sf.Snapshot())
    }

    /** The handle's `Stat`: refused exactly when it is closed, and
        otherwise the handle's name, its current size and its kind. */
    function Stat(): (r: Result<Info, Error>)
      reads sf
      ensures r.Failure? <==> sf.closed
      ensures r.Success? ==> r.value == Info(Name(), |sf.data|, sf.conf.isDir)
    {
      StatResult(sf.conf, sf.Snapshot())
    }

    method Read(n: nat) returns (got: seq<byte>, err: Option<Error>)
      modifies sf
      ensures (sf.Snapshot(), got, err) == ReadStep(sf.conf, old(sf.Snapshot()), n)
    {
      got, err := sf.Read(n);
    }

    method Seek(off: int, whence: int) returns (pos: int, err: Option<Error>)
      modifies sf
      ensures (sf.Snapshot(), pos, err) == SeekStep(sf.conf, old(sf.Snapshot()), off, whence)
    {
      pos, err := sf.Seek(off, whence);
    }

    method Write(p: seq<byte>) returns (n: nat, err: Option<Error>)
      modifies sf
      ensures (sf.Snapshot(), n, err) == WriteStep(sf.conf, old(sf.Snapshot()), p)
    {
      n, err := sf.Write(p);
    }

    method ReadAt(n: nat, off: int) returns (got: seq<byte>, err: Option<Error>)
      modifies sf
      ensures (sf.Snapshot(), got, err) == AtRead(sf.conf, old(sf.Snapshot()), n, off)
    {
      if sf.conf.caps.at {
        var r := ReadAtResult(sf.conf, sf.Snapshot(), n, off);
        return r.0, r.1;
      }
      var _, serr := sf.Seek(off, SeekStart);
      if serr.Some? {
        return [], serr;
      }
      got, err := sf.Read(n);
    }

    method WriteAt(p: seq<byte>, off: int) returns (n: nat, err: Option<Error>)
      modifies sf
      ensures (sf.Snapshot(), n, err) == AtWrite(sf.conf, old(sf.Snapshot()), p, off)
    {
      if sf.conf.caps.at {
        n, err := sf.WriteAt(p, off);
        return;
      }
      var _, serr := sf.Seek(off, SeekStart);
      if serr.Some? {
        return 0, serr;
      }
      n, err := sf.Write(p);
    }

    /** The native `WriteString` when the handle has one, else `Write`;
        both write the bytes in the same way. */
    method WriteString(s: seq<byte>) returns (n: nat, err: Option<Error>)
      modifies sf
      ensures (sf.Snapshot(), n, err) == WriteStep(sf.conf, old(sf.Snapshot()), s)
    {
      if sf.conf.caps.stringWriter {
        n, err := sf.WriteString(s);
      } else {
        n, err := sf.Write(s);
      }
    }

    /** The native `Truncate` when the handle has one; otherwise `size`
        zero bytes from the start in chunks of 512. */
    method Truncate(size: int) returns (err: Option<Error>, ghost issued: seq<nat>)
      modifies sf
      ensures sf.conf.caps.truncater ==> (sf.Snapshot(), err) == TruncateStep(sf.conf, old(sf.Snapshot()), size)
      ensures !sf.conf.caps.truncater && old(sf.closed) ==> err.Some? && sf.Snapshot() == old(sf.Snapshot())
      ensures !sf.conf.caps.truncater && !old(sf.closed) ==>
        !sf.closed && ZeroFilled(sf.conf.name, sf.conf.limit, sf.data, sf.offset, old(sf.data), size, 512, err, issued)
    {
      issued := [];
      if sf.conf.caps.truncater {
        err := sf.Truncate(size);
        return;
      }
      err, issued := ZeroFill(sf, size, 512);
    }

    method Readdirnames(n: int) returns (r: Result<seq<string>, Error>)
      ensures r == DirNames(sf.conf, sf.Snapshot(), n)
    {
      r := ReadNames(sf, n);
    }

    /** Closing the wrapper does not close the handle. */
    method Close() returns (err: Option<Error>)
      ensures err == None
    {
      return None;
    }
  }
}
