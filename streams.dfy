/** The handles the upgrade functions of file.go and fileadapter.go wrap: an
    abstract `Seekable` (and, ignoring `Seek`, an `UnSeekable`) that keeps
    its bytes and a read/write offset. Its behaviour follows the
    package's own in-memory test handle (fileadapter_test.go:10-86),
    together with two traits of `os.File` that give the wrappers' error
    paths something to react to: a handle refuses every operation once
    closed, and it holds at most `limit` bytes, so a write reaching past
    that point is cut short with `ENOSPC`.

    Each operation is a pure step function from the handle's `State` to
    the next state and the results; the `Stream` class performs the steps
    in place. The wrappers are specified by the same step functions, which
    states that they forward a call unchanged. */
module Streams {
  import opened Common

  /** The optional interfaces a handle may implement (`ater`,
      `filetruncater`, `dirnamer`, `stringwriter`). */
  datatype StreamCaps = StreamCaps(at: bool, truncater: bool, dirnamer: bool, stringWriter: bool)

  /** What does not change over a handle's life. */
  datatype Conf = Conf(name: string, isDir: bool, entries: seq<Info>, limit: nat, caps: StreamCaps)

  /** What its operations change. */
  datatype State = State(data: seq<byte>, offset: nat, closed: bool)

  const SeekStart: int := 0     // io.SeekStart
  const SeekCurrent: int := 1   // io.SeekCurrent
  const SeekEnd: int := 2       // io.SeekEnd

  /** `data` after `p` is written at `off`: zero-filled up to `off` when it
      was shorter, and extended when `p` reaches past its end. */
  function Splice(data: seq<byte>, off: nat, p: seq<byte>): (r: seq<byte>)
    ensures |r| == Max(|data|, off + |p|)
  {
    if off <= |data| then
      data[..off] + p + (if off + |p| < |data| then data[off + |p|..] else [])
    else data + Zeros(off - |data|) + p
  }

  /** After the splice, `p` sits at `off`; every other byte is the old one,
      or zero where the data did not reach. */
  lemma SpliceContents(data: seq<byte>, off: nat, p: seq<byte>)
    ensures forall i | off <= i < off + |p| :: Splice(data, off, p)[i] == p[i - off]
    ensures forall i | 0 <= i < |Splice(data, off, p)| && !(off <= i < off + |p|) ::
      Splice(data, off, p)[i] == if i < |data| then data[i] else 0
  {
  }

  /** What a read of up to `n` bytes at `off` yields: the longest prefix of
      at most `n` bytes of what lies from `off` on. */
  function Window(data: seq<byte>, off: nat, n: nat): (w: seq<byte>)
    ensures |w| <= n
    ensures off + |w| <= |data| || w == []
    ensures off < |data| ==> w == data[off..off + |w|]
    ensures |w| < n ==> off + |w| >= |data|
  {
    if off >= |data| then [] else data[off..Min(off + n, |data|)]
  }

  /** The bytes from `off` to the end. */
  function Rest(data: seq<byte>, off: nat): seq<byte>
  {
    if off < |data| then data[off..] else []
  }

  /** How many of `len` bytes fit when writing at `off` below `limit`. */
  function Fit(off: nat, len: nat, limit: nat): (k: nat)
    ensures k <= len
    ensures k < len ==> off + k >= limit
    ensures k > 0 ==> off + k <= limit
  {
    if off + len <= limit then len
    else if off < limit then limit - off
    else 0
  }

  /** The offset `Seek(off, whence)` asks for; nothing for an unknown
      `whence`. */
  function SeekTarget(offset: int, size: nat, off: int, whence: int): Option<int>
  {
    if whence == SeekStart then Some(off)
    else if whence == SeekCurrent then Some(offset + off)
    else if whence == SeekEnd then Some(size + off)
    else None
  }

  /** The names of a directory listing, in order. */
  function Names(infos: seq<Info>): (names: seq<string>)
    ensures |names| == |infos| && forall i | 0 <= i < |infos| :: names[i] == infos[i].name
  {
    if infos == [] then [] else [infos[0].name] + Names(infos[1..])
  }

  // ---------------------------------------------------------------------
  // The operations, as steps.

  /** The error of any operation on a closed handle (`os.ErrClosed`). */
  function Refused(c: Conf, op: string): Error
  {
    PathError(op, c.name, Closed)
  }

  /** `Read` into a buffer of `n` bytes: nothing and EOF at or past the
      end; otherwise the bytes from the offset, which moves past them,
      and EOF when fewer than `n` were left. */
  function ReadStep(c: Conf, s: State, n: nat): (State, seq<byte>, Option<Error>)
  {
    if s.closed then (s, [], Some(Refused(c, "read")))
    else if s.offset >= |s.data| then (s, [], Some(EOF))
    else
      var got := Window(s.data, s.offset, n);
      (s.(offset := s.offset + |got|), got, if |got| < n then Some(EOF) else None)
  }

  /** `ioutil.ReadAll`: everything from the offset to the end. */
  function ReadAllStep(c: Conf, s: State): (State, Result<seq<byte>, Error>)
  {
    if s.closed then (s, Failure(Refused(c, "read")))
    else (s.(offset := Max(s.offset, |s.data|)), Success(Rest(s.data, s.offset)))
  }

  /** `Write`: the bytes that fit below the limit go in at the offset,
      which moves past them; a short write reports `ENOSPC`. */
  function WriteStep(c: Conf, s: State, p: seq<byte>): (State, nat, Option<Error>)
  {
    if s.closed then (s, 0, Some(Refused(c, "write")))
    else
      var n := Fit(s.offset, |p|, c.limit);
      (s.(data := Splice(s.data, s.offset, p[..n]), offset := s.offset + n), n,
       if n < |p| then Some(PathError("write", c.name, NoSpace)) else None)
  }

  /** `Seek`: an unknown `whence` or a negative target is refused. */
  function SeekStep(c: Conf, s: State, off: int, whence: int): (State, int, Option<Error>)
  {
    if s.closed then (s, 0, Some(Refused(c, "seek")))
    else
      var t := SeekTarget(s.offset, |s.data|, off, whence);
      if t.None? || t.value < 0 then (s, 0, Some(PathError("seek", c.name, Invalid)))
      else (s.(offset := t.value), t.value, None)
  }

  function CloseStep(c: Conf, s: State): (State, Option<Error>)
  {
    if s.closed then (s, Some(Refused(c, "close"))) else (s.(closed := true), None)
  }

  function SyncResult(c: Conf, s: State): Option<Error>
  {
    if s.closed then Some(Refused(c, "sync")) else None
  }

  function StatResult(c: Conf, s: State): Result<Info, Error>
  {
    if s.closed then Failure(Refused(c, "stat")) else Success(Info(c.name, |s.data|, c.isDir))
  }

  /** `Readdir` ignores its count and lists every entry. */
  function ReaddirResult(c: Conf, s: State, n: int): Result<seq<Info>, Error>
  {
    if s.closed then Failure(Refused(c, "readdir"))
    else if !c.isDir then Failure(PathError("readdir", c.name, Invalid))
    else Success(c.entries)
  }

  // The optional interfaces: a native `ReadAt`/`WriteAt` leaves the offset
  // alone; a native `Truncate` resizes, zero-filling when it grows.

  function ReadAtResult(c: Conf, s: State, n: nat, off: int): (seq<byte>, Option<Error>)
  {
    if s.closed then ([], Some(Refused(c, "read")))
    else if off < 0 then ([], Some(PathError("readat", c.name, Invalid)))
    else
      var w := Window(s.data, off, n);
      (w, if |w| < n then Some(EOF) else None)
  }

  function WriteAtStep(c: Conf, s: State, p: seq<byte>, off: int): (State, nat, Option<Error>)
  {
    if s.closed then (s, 0, Some(Refused(c, "write")))
    else if off < 0 then (s, 0, Some(PathError("writeat", c.name, Invalid)))
    else
      var n := Fit(off, |p|, c.limit);
      (s.(data := Splice(s.data, off, p[..n])), n,
       if n < |p| then Some(PathError("write", c.name, NoSpace)) else None)
  }

  function TruncateStep(c: Conf, s: State, size: int): (State, Option<Error>)
  {
    if s.closed then (s, Some(Refused(c, "truncate")))
    else if size < 0 then (s, Some(PathError("truncate", c.name, Invalid)))
    else if size > c.limit then (s, Some(PathError("truncate", c.name, NoSpace)))
    else
      var d := if size <= |s.data| then s.data[..size] else s.data + Zeros(size - |s.data|);
      (s.(data := d), None)
  }

  function ReaddirnamesResult(c: Conf, s: State, n: int): Result<seq<string>, Error>
  {
    if s.closed then Failure(Refused(c, "readdirnames"))
    else if !c.isDir then Failure(PathError("readdirnames", c.name, NotADirectory))
    else Success(Names(c.entries))
  }

  // ---------------------------------------------------------------------
  // What the steps promise.

  /** Bytes written at some offset are read back from it. */
  lemma WriteThenReadBack(c: Conf, s: State, p: seq<byte>)
    requires !s.closed && 0 < |p| && s.offset + |p| <= c.limit
    ensures var (s1, n, e1) := WriteStep(c, s, p);
      var (s2, pos, e2) := SeekStep(c, s1, s.offset, SeekStart);
      var (s3, got, e3) := ReadStep(c, s2, |p|);
      n == |p| && e1 == None && pos == s.offset && e2 == None && got == p && e3 == None
  {
    var (s1, n, e1) := WriteStep(c, s, p);
    assert p[..n] == p;
    SpliceContents(s.data, s.offset, p);
    assert s1.data[s.offset..s.offset + |p|] == p;
  }

  /** The bytes of a handle fit its limit. */
  predicate Fits(c: Conf, s: State)
  {
    |s.data| <= c.limit
  }

  /** Writes that start within the limit, and truncations, keep a handle's
      bytes within it. (A write starting past the limit still zero-fills
      the gap up to its offset, as the test handle does.) */
  lemma StepsKeepFitting(c: Conf, s: State, p: seq<byte>, off: int, size: int)
    requires Fits(c, s)
    ensures s.offset <= c.limit ==> Fits(c, WriteStep(c, s, p).0)
    ensures off <= c.limit ==> Fits(c, WriteAtStep(c, s, p, off).0)
    ensures Fits(c, TruncateStep(c, s, size).0)
  {
  }

  /** A read never changes the bytes, and moves the offset by exactly the
      number of bytes it returned. */
  lemma ReadMovesByCount(c: Conf, s: State, n: nat)
    ensures var (s1, got, err) := ReadStep(c, s, n);
      s1.data == s.data && s1.closed == s.closed && s1.offset == s.offset + |got| && |got| <= n
      && (err == None <==> !s.closed && |got| == n && (n > 0 || s.offset < |s.data|))
  {
  }

  class Stream {
    const conf: Conf
    var data: seq<byte>
    var offset: nat
    var closed: bool

    constructor (conf: Conf, data: seq<byte>)
      ensures this.conf == conf && Snapshot() == State(data, 0, false)
    {
      this.conf := conf;
      this.data := data;
      offset := 0;
      closed := false;
    }

    function Snapshot(): State
      reads this
    {
      State(data, offset, closed)
    }

    method Read(n: nat) returns (got: seq<byte>, err: Option<Error>)
      modifies this
      ensures (Snapshot(), got, err) == ReadStep(conf, old(Snapshot()), n)
    {
      if closed {
        return [], Some(Refused(conf, "read"));
      }
      if offset >= |data| {
        return [], Some(EOF);
      }
      got := Window(data, offset, n);
      offset := offset + |got|;
      err := if |got| < n then Some(EOF) else None;
    }

    method ReadAll() returns (r: Result<seq<byte>, Error>)
      modifies this
      ensures (Snapshot(), r) == ReadAllStep(conf, old(Snapshot()))
    {
      if closed {
        return Failure(Refused(conf, "read"));
      }
      r := Success(Rest(data, offset));
      offset := Max(offset, |data|);
    }

    method Write(p: seq<byte>) returns (n: nat, err: Option<Error>)
      modifies this
      ensures (Snapshot(), n, err) == WriteStep(conf, old(Snapshot()), p)
    {
      if closed {
        return 0, Some(Refused(conf, "write"));
      }
      n := Fit(offset, |p|, conf.limit);
      data := Splice(data, offset, p[..n]);
      offset := offset + n;
      err := if n < |p| then Some(PathError("write", conf.name, NoSpace)) else None;
    }

    method Seek(off: int, whence: int) returns (pos: int, err: Option<Error>)
      modifies this
      ensures (Snapshot(), pos, err) == SeekStep(conf, old(Snapshot()), off, whence)
    {
      if closed {
        return 0, Some(Refused(conf, "seek"));
      }
      var t := SeekTarget(offset, |data|, off, whence);
      if t.None? || t.value < 0 {
        return 0, Some(PathError("seek", conf.name, Invalid));
      }
      offset := t.value;
      return offset, None;
    }

    method Close() returns (err: Option<Error>)
      modifies this
      ensures (Snapshot(), err) == CloseStep(conf, old(Snapshot()))
    {
      if closed {
        return Some(Refused(conf, "close"));
      }
      closed := true;
      return None;
    }

    method WriteAt(p: seq<byte>, off: int) returns (n: nat, err: Option<Error>)
      modifies this
      ensures (Snapshot(), n, err) == WriteAtStep(conf, old(Snapshot()), p, off)
    {
      if closed {
        return 0, Some(Refused(conf, "write"));
      }
      if off < 0 {
        return 0, Some(PathError("writeat", conf.name, Invalid));
      }
      n := Fit(off, |p|, conf.limit);
      data := Splice(data, off, p[..n]);
      err := if n < |p| then Some(PathError("write", conf.name, NoSpace)) else None;
    }

    /** A native `WriteString` writes the string's bytes as `Write` does. */
    method WriteString(s: seq<byte>) returns (n: nat, err: Option<Error>)
      modifies this
      ensures (Snapshot(), n, err) == WriteStep(conf, old(Snapshot()), s)
    {
      n, err := Write(s);
    }

    method Truncate(size: int) returns (err: Option<Error>)
      modifies this
      ensures (Snapshot(), err) == TruncateStep(conf, old(Snapshot()), size)
    {
      if closed {
        return Some(Refused(conf, "truncate"));
      }
      if size < 0 {
        return Some(PathError("truncate", conf.name, Invalid));
      }
      if size > conf.limit {
        return Some(PathError("truncate", conf.name, NoSpace));
      }
      data := if size <= |data| then data[..size] else data + Zeros(size - |data|);
      return None;
    }
  }

  // ---------------------------------------------------------------------
  // The truncation fallback shared by `file` and `fileadapter`.

  /** The sizes of the zero-byte writes the truncation loop issues for the
      bytes from `i` to `size`, in chunks of `chunk`. */
  function ChunksFrom(size: nat, chunk: nat, i: nat): seq<nat>
    requires chunk > 0
    decreases size - i
  {
    if i >= size then [] else [Min(chunk, size - i)] + ChunksFrom(size, chunk, i + chunk)
  }

  function Chunks(size: nat, chunk: nat): seq<nat>
    requires chunk > 0
  {
    ChunksFrom(size, chunk, 0)
  }

  function Sum(s: seq<nat>): nat
  {
    if s == [] then 0 else s[0] + Sum(s[1..])
  }

  /** The chunks cover exactly the bytes from `i` to `size`; every one is
      non-empty and at most `chunk` bytes; there are just enough of them:
      all but the last are full. */
  lemma {:induction false} ChunksFromCover(size: nat, chunk: nat, i: nat)
    requires chunk > 0 && i <= size
    ensures Sum(ChunksFrom(size, chunk, i)) == size - i
    ensures forall k | 0 <= k < |ChunksFrom(size, chunk, i)| :: 0 < ChunksFrom(size, chunk, i)[k] <= chunk
    ensures forall k | 0 <= k < |ChunksFrom(size, chunk, i)| - 1 :: ChunksFrom(size, chunk, i)[k] == chunk
    decreases size - i
  {
    var cs := ChunksFrom(size, chunk, i);
    if i < size {
      if i + chunk <= size {
        ChunksFromCover(size, chunk, i + chunk);
        assert cs == [chunk] + ChunksFrom(size, chunk, i + chunk);
        assert cs[1..] == ChunksFrom(size, chunk, i + chunk);
      } else {
        assert ChunksFrom(size, chunk, i + chunk) == [];
        assert cs == [size - i];
      }
    }
  }

  /** The truncation writes of `file` (chunks of 512) and `fileadapter`
      (chunks of 4096) write `size` zero bytes in all, in
      writes of `chunk` bytes but for a shorter last one. */
  lemma ChunksCover(size: nat, chunk: nat)
    requires chunk > 0
    ensures Sum(Chunks(size, chunk)) == size
    ensures forall k | 0 <= k < |Chunks(size, chunk)| :: 0 < Chunks(size, chunk)[k] <= chunk
    ensures forall k | 0 <= k < |Chunks(size, chunk)| - 1 :: Chunks(size, chunk)[k] == chunk
  {
    ChunksFromCover(size, chunk, 0);
  }

  /** Writing zeros right after a zero-filled start extends it. */
  lemma SpliceZerosAgain(d: seq<byte>, a: nat, b: nat)
    ensures Splice(Splice(d, 0, Zeros(a)), a, Zeros(b)) == Splice(d, 0, Zeros(a + b))
  {
    var x, y := Splice(Splice(d, 0, Zeros(a)), a, Zeros(b)), Splice(d, 0, Zeros(a + b));
    SpliceContents(d, 0, Zeros(a));
    SpliceContents(Splice(d, 0, Zeros(a)), a, Zeros(b));
    SpliceContents(d, 0, Zeros(a + b));
    assert |x| == |y|;
    forall i | 0 <= i < |x| ensures x[i] == y[i] {
    }
  }

  /** Writing the first `n` of `bufsize` zero bytes at `i` extends the
      zero-filled start to `i + n`. */
  lemma ZeroStep(start: seq<byte>, i: nat, buf: seq<byte>, bufsize: nat, n: nat)
    requires buf == Zeros(|buf|) && n <= bufsize <= |buf|
    ensures Splice(Splice(start, 0, Zeros(i)), i, buf[..bufsize][..n]) == Splice(start, 0, Zeros(i + n))
  {
    assert buf[..bufsize][..n] == Zeros(n);
    SpliceZerosAgain(start, i, n);
  }

  /** One more chunk issued: the issued sizes stay a prefix of all. */
  lemma ChunksStep(total: nat, chunk: nat, i: nat, issued: seq<nat>)
    requires chunk > 0 && i < total
    requires issued + ChunksFrom(total, chunk, i) == Chunks(total, chunk)
    ensures issued + [Min(chunk, total - i)] + ChunksFrom(total, chunk, i + chunk) == Chunks(total, chunk)
    ensures |issued| < |Chunks(total, chunk)|
    ensures issued + [Min(chunk, total - i)] == Chunks(total, chunk)[..|issued| + 1]
  {
    assert ChunksFrom(total, chunk, i) == [Min(chunk, total - i)] + ChunksFrom(total, chunk, i + chunk);
    assert issued + [Min(chunk, total - i)] + ChunksFrom(total, chunk, i + chunk) == issued + ChunksFrom(total, chunk, i);
  }

  /** The truncation fallback (file.go:309-326 with `chunk` 512,
      fileadapter.go:92-109 with `chunk` 4096): seek to the start, then
      write `size` zero bytes a chunk at a time, stopping at the first
      error. `issued` records the size of every write. */
  method ZeroFill(sf: Stream, size: int, chunk: nat) returns (err: Option<Error>, ghost issued: seq<nat>)
    requires chunk > 0
    modifies sf
    ensures sf.closed == old(sf.closed)
    ensures old(sf.closed) ==> err.Some? && issued == [] && sf.data == old(sf.data) && sf.offset == old(sf.offset)
    ensures !old(sf.closed) ==> ZeroFilled(sf.conf.name, sf.conf.limit, sf.data, sf.offset, old(sf.data), size, chunk, err, issued)
  {
    issued := [];
    var _, serr := sf.Seek(0, SeekStart);
    if serr.Some? {
      return serr, issued;
    }
    err, issued := WriteZeros(sf, size, chunk);
  }

  /** The outcome of the truncation fallback on an open handle that held
      `before`: `size` zero bytes written from the start when they fit;
      otherwise the handle is full of zeros up to its limit, and the writes
      issued are the first of those that were planned. */
  ghost predicate ZeroFilled(name: string, limit: nat, data: seq<byte>, offset: nat,
                             before: seq<byte>, size: int, chunk: nat, err: Option<Error>, issued: seq<nat>)
    requires chunk > 0
  {
    var total := Max(size, 0);
    && (err == None <==> total <= limit)
    && (err == None ==>
          issued == Chunks(total, chunk) && data == Splice(before, 0, Zeros(total)) && offset == total)
    && (err != None ==>
          && err == Some(PathError("write", name, NoSpace))
          && 0 < |issued| <= |Chunks(total, chunk)| && issued == Chunks(total, chunk)[..|issued|]
          && data == Splice(before, 0, Zeros(limit)) && offset == limit)
  }

  /** Where the loop of the truncation fallback stops, started at chunk
      position `i` with the handle's offset at `offset`: the final offset,
      whether a write came up short, and the sizes of the writes issued.
      Each step writes the next chunk as `Stream.Write` does. */
  function FillFrom(limit: nat, offset: nat, size: int, chunk: nat, i: int, issued: seq<nat>): (nat, bool, seq<nat>)
    requires chunk > 0
    decreases size - i
  {
    if i >= size then (offset, false, issued)
    else
      var b := if size - i < chunk then size - i else chunk;
      var n := Fit(offset, b, limit);
      if n < b then (offset + n, true, issued + [b])
      else FillFrom(limit, offset + n, size, chunk, i + chunk, issued + [b])
  }

  /** From any point where the loop has written up to `Min(i, total)` and
      issued the chunks before `i`: it stops short exactly when the `total`
      bytes do not fit, at the limit and partway through the chunks, and
      otherwise at `total` with every chunk issued. */
  lemma {:induction false} FillFromOutcome(limit: nat, offset: nat, size: int, chunk: nat, i: nat, issued: seq<nat>)
    requires chunk > 0 && offset == Min(i, Max(size, 0)) && offset <= limit
    requires issued + ChunksFrom(Max(size, 0), chunk, i) == Chunks(Max(size, 0), chunk)
    ensures var r := FillFrom(limit, offset, size, chunk, i, issued);
      && (r.1 <==> limit < Max(size, 0))
      && (!r.1 ==> r.0 == Max(size, 0) && r.2 == Chunks(Max(size, 0), chunk))
      && (r.1 ==> r.0 == limit && 0 < |r.2| <= |Chunks(Max(size, 0), chunk)|
                  && r.2 == Chunks(Max(size, 0), chunk)[..|r.2|])
    decreases size - i
  {
    var total := Max(size, 0);
    if i >= size {
      assert ChunksFrom(total, chunk, i) == [];
    } else {
      var b := if size - i < chunk then size - i else chunk;
      var n := Fit(offset, b, limit);
      ChunksStep(total, chunk, i, issued);
      if n >= b {
        FillFromOutcome(limit, offset + n, size, chunk, i + chunk, issued + [b]);
      }
    }
  }

  /** The loop's outcome from the start, as `ZeroFilled` states it. */
  lemma FillOutcome(name: string, limit: nat, start: seq<byte>, size: int, chunk: nat, err: Option<Error>,
                    r: (nat, bool, seq<nat>))
    requires chunk > 0 && r == FillFrom(limit, 0, size, chunk, 0, [])
    requires err == if r.1 then Some(PathError("write", name, NoSpace)) else None
    ensures ZeroFilled(name, limit, Splice(start, 0, Zeros(r.0)), r.0, start, size, chunk, err, r.2)
  {
    FillFromOutcome(limit, 0, size, chunk, 0, []);
  }

  /** The loop of the truncation fallback, from offset 0. */
  method WriteZeros(sf: Stream, size: int, chunk: nat) returns (err: Option<Error>, ghost issued: seq<nat>)
    requires chunk > 0 && !sf.closed && sf.offset == 0
    modifies sf
    ensures !sf.closed
    ensures ZeroFilled(sf.conf.name, sf.conf.limit, sf.data, sf.offset, old(sf.data), size, chunk, err, issued)
  {
    issued := [];
    ghost var start := sf.data;
    ghost var goal := FillFrom(sf.conf.limit, 0, size, chunk, 0, []);
    assert Splice(start, 0, Zeros(0)) == start;
    var bufsize: nat := chunk;
    var buf := Zeros(chunk);
    var i := 0;
    while i < size
      invariant !sf.closed && sf.data == Splice(start, 0, Zeros(sf.offset))
      invariant FillFrom(sf.conf.limit, sf.offset, size, chunk, i, issued) == goal
      invariant bufsize == chunk || i >= size
      decreases size - i
    {
      if size - i < chunk {
        bufsize := size - i;
      }
      ghost var at := sf.offset;
      var n, werr := sf.Write(buf[..bufsize]);
      ZeroStep(start, at, buf, bufsize, n);
      if werr.Some? {
        assert goal == (sf.offset, true, issued + [bufsize]);
        FillOutcome(sf.conf.name, sf.conf.limit, start, size, chunk, werr, goal);
        return werr, issued + [bufsize];
      }
      assert goal == FillFrom(sf.conf.limit, sf.offset, size, chunk, i + chunk, issued + [bufsize]);
      issued := issued + [bufsize];
      i := i + chunk;
    }
    assert goal == (sf.offset, false, issued);
    FillOutcome(sf.conf.name, sf.conf.limit, start, size, chunk, None, goal);
    return None, issued;
  }
}
