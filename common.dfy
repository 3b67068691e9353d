/** Values shared by every part of the model: Go's nil-or-value results,
    bytes, and the error values the package produces or passes through. */
module Common {

  /** A Go value that may be nil (an error, a slice, an interface). */
  datatype Option<+T> = None | Some(value: T)

  /** A Go `(value, error)` pair in which exactly one side matters. */
  datatype Result<+T, +E> = Success(value: T) | Failure(error: E)

  type byte = bv8

  /** The underlying cause carried by an `*os.PathError`. */
  datatype Cause =
    | NotExist          // os.ErrNotExist
    | Exist             // os.ErrExist
    | NotADirectory     // errors.New("not a directory")
    | Invalid           // os.ErrInvalid
    | BadDescriptor     // syscall.EBADF
    | NoSpace           // syscall.ENOSPC, a handle that has run out of room
    | Closed            // os.ErrClosed, an operation on a closed handle
    | Injected          // any other failure a backend chooses to report

  datatype Error =
    | PathError(op: string, path: string, cause: Cause)
    | EOF                       // io.EOF, the end-of-stream signal
    | Panic(reason: string)     // a Go run-time panic, modelled as an outcome

  /** The part of `os.FileInfo` the package looks at. */
  datatype Info = Info(name: string, size: nat, isDir: bool)

  /** `n` zero bytes, as `make([]byte, n)` gives them. */
  function Zeros(n: nat): (z: seq<byte>)
    ensures |z| == n
    ensures forall i | 0 <= i < n :: z[i] == 0
  {
    if n == 0 then [] else Zeros(n - 1) + [0]
  }

  function Min(a: int, b: int): int { if a <= b then a else b }

  function Max(a: int, b: int): int { if a >= b then a else b }
}
