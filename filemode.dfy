/** The Unix mode-string parser of filemode.go, `ParseFileMode`, and the
    `OS_*` permission constants.

    Go's `os.FileMode` is a `uint32`; the package only ORs bits into it,
    so a mode is kept here as the set of positions of its one bits, as the
    open flags are. The type bits take the positions Go's `os` package
    gives them (`ModeDir` is bit 31, down to `ModeSticky` at bit 20) and
    the nine permission bits are 8 (user read) down to 0 (other execute).
    A mode string is read one character per byte, with ASCII case
    folding. */
module FileModes {
  import opened Common

  /** A bit position of a 32-bit integer. */
  type ModeBit = b: nat | b < 32

  /** A Go `os.FileMode` value, as the set of its one bits. */
  type FileMode = set<ModeBit>

  const ModeDir: FileMode := {31}
  const ModeAppend: FileMode := {30}
  const ModeExclusive: FileMode := {29}
  const ModeTemporary: FileMode := {28}
  const ModeSymlink: FileMode := {27}
  const ModeDevice: FileMode := {26}
  const ModeNamedPipe: FileMode := {25}
  const ModeSocket: FileMode := {24}
  const ModeSetuid: FileMode := {23}
  const ModeSetgid: FileMode := {22}
  const ModeCharDevice: FileMode := {21}
  const ModeSticky: FileMode := {20}

  // The permission constants of filemode.go:79-110, as bit positions:
  // `OS_READ` is 04, bit 2, and `OS_USER_R` is 04 << 6 = 0400, bit 8.
  const OS_READ: FileMode := {2}
  const OS_WRITE: FileMode := {1}
  const OS_EX: FileMode := {0}
  const OS_USER_SHIFT: nat := 6
  const OS_GROUP_SHIFT: nat := 3
  const OS_OTH_SHIFT: nat := 0

  const OS_USER_R: FileMode := {8}
  const OS_USER_W: FileMode := {7}
  const OS_USER_X: FileMode := {6}
  const OS_USER_RW: FileMode := OS_USER_R + OS_USER_W
  const OS_USER_RWX: FileMode := OS_USER_RW + OS_USER_X

  const OS_GROUP_R: FileMode := {5}
  const OS_GROUP_W: FileMode := {4}
  const OS_GROUP_X: FileMode := {3}
  const OS_GROUP_RW: FileMode := OS_GROUP_R + OS_GROUP_W
  const OS_GROUP_RWX: FileMode := OS_GROUP_RW + OS_GROUP_X

  const OS_OTH_R: FileMode := {2}
  const OS_OTH_W: FileMode := {1}
  const OS_OTH_X: FileMode := {0}
  const OS_OTH_RW: FileMode := OS_OTH_R + OS_OTH_W
  const OS_OTH_RWX: FileMode := OS_OTH_RW + OS_OTH_X

  const OS_ALL_R: FileMode := OS_USER_R + OS_GROUP_R + OS_OTH_R
  const OS_ALL_W: FileMode := OS_USER_W + OS_GROUP_W + OS_OTH_W
  const OS_ALL_X: FileMode := OS_USER_X + OS_GROUP_X + OS_OTH_X
  const OS_ALL_RW: FileMode := OS_ALL_R + OS_ALL_W
  const OS_ALL_RWX: FileMode := OS_ALL_RW + OS_ALL_X

  /** The nine permission bits, 0777. */
  const PermBits: FileMode := {0, 1, 2, 3, 4, 5, 6, 7, 8}

  lemma InPermBits(b: ModeBit)
    ensures b in PermBits <==> b < 9
  {
  }

  /** `f << n`: every bit moved up by `n`, those moved past bit 31 lost. */
  function Shl(f: FileMode, n: nat): (r: FileMode)
    ensures forall b: ModeBit :: b in r <==> b >= n && (b - n) in f
  {
    set b: ModeBit | b in f && b + n < 32 :: (b + n) as ModeBit
  }

  /** The user, group and other constants are the read, write and execute
      bits shifted into place, and all of them together are 0777. */
  lemma PermissionConstants()
    ensures OS_USER_R == Shl(OS_READ, OS_USER_SHIFT) && OS_USER_W == Shl(OS_WRITE, OS_USER_SHIFT)
    ensures OS_USER_X == Shl(OS_EX, OS_USER_SHIFT)
    ensures OS_GROUP_R == Shl(OS_READ, OS_GROUP_SHIFT) && OS_GROUP_W == Shl(OS_WRITE, OS_GROUP_SHIFT)
    ensures OS_GROUP_X == Shl(OS_EX, OS_GROUP_SHIFT)
    ensures OS_OTH_R == Shl(OS_READ, OS_OTH_SHIFT) && OS_OTH_W == Shl(OS_WRITE, OS_OTH_SHIFT)
    ensures OS_OTH_X == Shl(OS_EX, OS_OTH_SHIFT)
    ensures OS_ALL_RWX == PermBits
  {
    ShlOne(2, 6);
    ShlOne(1, 6);
    ShlOne(0, 6);
    ShlOne(2, 3);
    ShlOne(1, 3);
    ShlOne(0, 3);
    ShlOne(2, 0);
    ShlOne(1, 0);
    ShlOne(0, 0);
  }

  lemma ShlOne(b: ModeBit, n: nat)
    requires b + n < 32
    ensures Shl({b}, n) == {(b + n) as ModeBit}
  {
    var r := Shl({b}, n);
    forall c: ModeBit ensures c in r <==> c == b + n {
    }
  }

  /** Why `ParseFileMode` refuses its input; the source reports each as a
      formatted error message. A run-time panic of the source is the
      outcome `IndexOutOfRange`. */
  datatype ModeError =
    | TooShort(length: nat)
    | UnrecognizedType(c: char)
    | UnrecognizedPermission(c: char, at: nat)
    | IndexOutOfRange(index: nat)

  /** The type bits the first character selects (the switch at
      filemode.go:18-46): none for `-`, one `os.Mode*` bit for each of
      `dalTLDpSugct`, and no mode for any other character. */
  function TypeBits(c: char): Option<FileMode>
  {
    match c
    case '-' => Some({})
    case 'd' => Some(ModeDir)
    case 'a' => Some(ModeAppend)
    case 'l' => Some(ModeExclusive)
    case 'T' => Some(ModeTemporary)
    case 'L' => Some(ModeSymlink)
    case 'D' => Some(ModeDevice)
    case 'p' => Some(ModeNamedPipe)
    case 'S' => Some(ModeSocket)
    case 'u' => Some(ModeSetuid)
    case 'g' => Some(ModeSetgid)
    case 'c' => Some(ModeCharDevice)
    case 't' => Some(ModeSticky)
    case _ => None
  }

  /** The type letters in the order of their bits, from bit 31 down, with
      the bits they stand for. */
  const TypeLetters: seq<char> := ['d', 'a', 'l', 'T', 'L', 'D', 'p', 'S', 'u', 'g', 'c', 't']
  const TypeModes: seq<FileMode> := [ModeDir, ModeAppend, ModeExclusive, ModeTemporary,
    ModeSymlink, ModeDevice, ModeNamedPipe, ModeSocket, ModeSetuid, ModeSetgid,
    ModeCharDevice, ModeSticky]

  /** The table of `(character, bit)` pairs the permission loop checks
      position by position. */
  const Permissions: seq<(char, FileMode)> := [
    ('r', OS_USER_R), ('w', OS_USER_W), ('x', OS_USER_X),
    ('r', OS_GROUP_R), ('w', OS_GROUP_W), ('x', OS_GROUP_X),
    ('r', OS_OTH_R), ('w', OS_OTH_W), ('x', OS_OTH_X)]

  function LowerChar(c: char): char
  {
    if 'A' <= c <= 'Z' then (c as int + 32) as char else c
  }

  /** `strings.ToLower`, for ASCII letters. */
  function ToLower(s: string): (r: string)
    ensures |r| == |s| && forall i | 0 <= i < |s| :: r[i] == LowerChar(s[i])
  {
    seq(|s|, i requires 0 <= i < |s| => LowerChar(s[i]))
  }

  /** The permission loop from position `i` of the lower-cased `lower`,
      with `mode` gathered so far. A non-`-` character past the table
      indexes it out of range; `guarded` instead reports it as an
      unrecognized character (see `ParseFileModeGuarded`). */
  function PermFrom(input: string, lower: string, i: nat, mode: FileMode, guarded: bool)
    : Result<FileMode, ModeError>
    requires |lower| == |input| - 1 && i <= |lower|
    decreases |lower| - i
  {
    if i == |lower| then Success(mode)
    else if lower[i] == '-' then PermFrom(input, lower, i + 1, mode, guarded)
    else if i >= |Permissions| then
      if guarded then Failure(UnrecognizedPermission(input[i + 1], i + 1)) else Failure(IndexOutOfRange(i))
    else if lower[i] != Permissions[i].0 then Failure(UnrecognizedPermission(input[i + 1], i + 1))
    else PermFrom(input, lower, i + 1, mode + Permissions[i].1, guarded)
  }

  function ParseWith(input: string, guarded: bool): Result<FileMode, ModeError>
  {
    if |input| < 10 then Failure(TooShort(|input|))
    else match TypeBits(input[0])
      case None => Failure(UnrecognizedType(input[0]))
      case Some(t) => PermFrom(input, ToLower(input[1..]), 0, t, guarded)
  }

  /** What `ParseFileMode(input)` returns, as written. */
  function ParseMode(input: string): Result<FileMode, ModeError>
  {
    ParseWith(input, false)
  }

  /** `ParseFileMode` with a bound check on the permission table, so that
      a character past the tenth is refused like any other misplaced one. */
  function ParseModeGuarded(input: string): Result<FileMode, ModeError>
  {
    ParseWith(input, true)
  }

  /** `ParseFileMode` (filemode.go:11-76). */
  method ParseFileMode(input: string) returns (r: Result<FileMode, ModeError>)
    ensures r == ParseMode(input)
  {
    if |input| < 10 {
      return Failure(TooShort(|input|));
    }
    var mode: FileMode;
    match input[0] {
      case '-' => mode := {};
      case 'd' => mode := ModeDir;
      case 'a' => mode := ModeAppend;
      case 'l' => mode := ModeExclusive;
      case 'T' => mode := ModeTemporary;
      case 'L' => mode := ModeSymlink;
      case 'D' => mode := ModeDevice;
      case 'p' => mode := ModeNamedPipe;
      case 'S' => mode := ModeSocket;
      case 'u' => mode := ModeSetuid;
      case 'g' => mode := ModeSetgid;
      case 'c' => mode := ModeCharDevice;
      case 't' => mode := ModeSticky;
      case _ => return Failure(UnrecognizedType(input[0]));
    }
    var lower := ToLower(input[1..]);
    var i := 0;
    while i < |lower|
      invariant 0 <= i <= |lower|
      invariant PermFrom(input, lower, i, mode, false) == ParseMode(input)
    {
      var c := lower[i];
      if c == '-' {
        i := i + 1;
        continue;
      }
      if i >= |Permissions| {
        return Failure(IndexOutOfRange(i));
      }
      if c != Permissions[i].0 {
        return Failure(UnrecognizedPermission(input[i + 1], i + 1));
      }
      mode := mode + Permissions[i].1;
      i := i + 1;
    }
    return Success(mode);
  }

  // ---------------------------------------------------------------------
  // What a mode string means, described independently of the loop.

  /** Whether lower-cased character `c` may stand at permission position
      `i`: `-`, or the letter `rwx` has there. */
  predicate PermOk(c: char, i: nat)
  {
    c == '-' || (i < 9 && c == "rwx"[i % 3])
  }

  /** The permission bits a mode string names from position `i` on: bit
      `8 - j` for every position `j` of the nine that holds a letter. */
  function PermsFrom(lower: string, i: nat): (r: FileMode)
    ensures r <= PermBits
    decreases |lower| - i
  {
    if i >= |lower| || i >= 9 then {}
    else (if lower[i] != '-' then {(8 - i) as ModeBit} else {}) + PermsFrom(lower, i + 1)
  }

  lemma PermissionsTable(i: nat)
    requires i < |Permissions|
    ensures Permissions[i].0 == "rwx"[i % 3] && Permissions[i].1 == {(8 - i) as ModeBit}
  {
  }

  /** The loop succeeds exactly when every remaining position is allowed,
      and then adds exactly the bits of the letters it passes. */
  lemma {:induction false} PermFromMeaning(input: string, lower: string, i: nat, mode: FileMode, guarded: bool)
    requires |lower| == |input| - 1 && i <= |lower|
    ensures PermFrom(input, lower, i, mode, guarded).Success?
      <==> forall j | i <= j < |lower| :: PermOk(lower[j], j)
    ensures PermFrom(input, lower, i, mode, guarded).Success? ==>
      PermFrom(input, lower, i, mode, guarded).value == mode + PermsFrom(lower, i)
    decreases |lower| - i
  {
    if i < |lower| {
      if lower[i] == '-' {
        PermFromMeaning(input, lower, i + 1, mode, guarded);
      } else if i < |Permissions| {
        PermissionsTable(i);
        var bit := Permissions[i].1;
        PermFromMeaning(input, lower, i + 1, mode + bit, guarded);
        assert mode + bit + PermsFrom(lower, i + 1) == mode + PermsFrom(lower, i);
        if lower[i] != Permissions[i].0 {
          assert !PermOk(lower[i], i);
        }
      } else {
        assert !PermOk(lower[i], i);
      }
    }
  }

  /** `ParseFileMode` accepts a string exactly when it has at least ten
      characters, the first is a type letter or `-`, each of the next nine
      is `-` or the permission letter of its place (in either case), and
      any further character is `-`. */
  lemma ParseModeAccepts(input: string)
    ensures ParseMode(input).Success? <==>
      && |input| >= 10
      && TypeBits(input[0]).Some?
      && (var lower := ToLower(input[1..]); forall j | 0 <= j < |lower| :: PermOk(lower[j], j))
  {
    if |input| >= 10 && TypeBits(input[0]).Some? {
      var lower := ToLower(input[1..]);
      PermFromMeaning(input, lower, 0, TypeBits(input[0]).value, false);
    }
  }

  /** The type bits of a type character: none, or the one bit its letter
      stands for. */
  lemma TypeBitsOf(c: char)
    requires TypeBits(c).Some?
    ensures TypeBits(c).value == {}
      || exists j | 0 <= j < |TypeModes| :: TypeBits(c).value == TypeModes[j]
  {
    if c != '-' {
      assert c in TypeLetters;
      var j :| 0 <= j < |TypeLetters| && TypeLetters[j] == c;
      TypeTables(j);
    }
  }

  /** A parsed mode is the type bits of the first character together with
      the permission bits of the letters, so it holds at most one type bit
      and its permissions lie within 0777. */
  lemma ParseModeValue(input: string)
    requires ParseMode(input).Success?
    ensures var lower := ToLower(input[1..]);
      ParseMode(input).value == TypeBits(input[0]).value + PermsFrom(lower, 0)
    ensures ParseMode(input).value * PermBits == PermsFrom(ToLower(input[1..]), 0)
    ensures ParseMode(input).value - PermBits == TypeBits(input[0]).value
    ensures IsRenderable(ParseMode(input).value)
  {
    var lower := ToLower(input[1..]);
    var t, p := TypeBits(input[0]).value, PermsFrom(lower, 0);
    PermFromMeaning(input, lower, 0, t, false);
    TypeBitsOf(input[0]);
    if t != {} {
      var j :| 0 <= j < |TypeModes| && t == TypeModes[j];
      TypeTables(j);
    }
    assert t * PermBits == {};
    assert (t + p) * PermBits == p;
    assert (t + p) - PermBits == t;
  }

  /** The mode of the package's own documentation example, 0755 with the
      directory bit. */
  lemma ParseModeExample()
    ensures ParseMode("drwxr-xr-x") == Success(ModeDir + OS_USER_RWX + OS_GROUP_R + OS_GROUP_X + OS_OTH_R + OS_OTH_X)
  {
    var input := "drwxr-xr-x";
    var lower := input[1..];
    assert input[0] == 'd' && lower == "rwxr-xr-x";
    ExamplePermissions();
    LowerUnchanged(lower);
    ParseModeAccepts(input);
    ParseModeValue(input);
    var v := ParseMode(input).value;
    assert v == ModeDir + {8, 7, 6, 5, 3, 2, 0};
    assert ModeDir + OS_USER_RWX + OS_GROUP_R + OS_GROUP_X + OS_OTH_R + OS_OTH_X == v;
  }

  lemma ExamplePermissions()
    ensures forall j | 0 <= j < 9 :: PermOk("rwxr-xr-x"[j], j)
    ensures PermsFrom("rwxr-xr-x", 0) == {8, 7, 6, 5, 3, 2, 0}
    ensures forall i | 0 <= i < 9 :: !('A' <= "rwxr-xr-x"[i] <= 'Z')
  {
  }

  /** Lower-casing leaves a string without capitals as it is. */
  lemma LowerUnchanged(s: string)
    requires forall i | 0 <= i < |s| :: !('A' <= s[i] <= 'Z')
    ensures ToLower(s) == s
  {
  }

  // ---------------------------------------------------------------------
  // The mode-string renderer, the parser's partner.

  /** The letter of every type bit of `m`, from bit 31 down, as Go's
      `FileMode.String` writes them, or `-` when there is none. */
  function TypeString(m: FileMode): string
  {
    var s := TypeLettersFrom(m, 0);
    if s == [] then "-" else s
  }

  function TypeLettersFrom(m: FileMode, j: nat): string
    requires j <= |TypeLetters|
    decreases |TypeLetters| - j
  {
    if j == |TypeLetters| then []
    else (if TypeModes[j] <= m then [TypeLetters[j]] else []) + TypeLettersFrom(m, j + 1)
  }

  /** The nine permission letters of `m`, `-` for a missing bit. */
  function PermString(m: FileMode): (s: string)
    ensures |s| == 9
  {
    seq(9, i requires 0 <= i < 9 => if (8 - i) as ModeBit in m then "rwx"[i % 3] else '-')
  }

  /** A ten-character mode string for `m`, in the format `ParseFileMode`
      reads. */
  function Render(m: FileMode): string
  {
    TypeString(m) + PermString(m)
  }

  /** Modes with at most one type bit and nothing else outside 0777, the
      ones a ten-character string can name. */
  predicate IsRenderable(m: FileMode)
  {
    m - PermBits == {} || exists j | 0 <= j < |TypeModes| :: m - PermBits == TypeModes[j]
  }

  lemma TypeTables(j: nat)
    requires j < |TypeModes|
    ensures TypeModes[j] == {(31 - j) as ModeBit} && TypeBits(TypeLetters[j]) == Some(TypeModes[j])
  {
  }

  lemma {:induction false} TypeLettersOfOne(m: FileMode, j: nat, k: nat)
    requires k < |TypeModes| && m - PermBits == TypeModes[k] && j <= |TypeLetters|
    ensures TypeLettersFrom(m, j) == if j <= k then [TypeLetters[k]] else []
    decreases |TypeLetters| - j
  {
    if j < |TypeLetters| {
      TypeLettersOfOne(m, j + 1, k);
      TypeTables(j);
      TypeTables(k);
      var b := (31 - j) as ModeBit;
      InPermBits(b);
      assert TypeModes[j] <= m <==> b in m - PermBits;
    }
  }

  lemma {:induction false} TypeLettersOfNone(m: FileMode, j: nat)
    requires m - PermBits == {} && j <= |TypeLetters|
    ensures TypeLettersFrom(m, j) == []
    decreases |TypeLetters| - j
  {
    if j < |TypeLetters| {
      TypeLettersOfNone(m, j + 1);
      TypeTables(j);
      var b := (31 - j) as ModeBit;
      InPermBits(b);
      assert b !in m - PermBits;
    }
  }

  /** The type character of a renderable mode selects back its type bit. */
  lemma TypeStringOf(m: FileMode)
    requires IsRenderable(m)
    ensures |TypeString(m)| == 1 && TypeBits(TypeString(m)[0]) == Some(m - PermBits)
  {
    if m - PermBits == {} {
      TypeLettersOfNone(m, 0);
    } else {
      var k :| 0 <= k < |TypeModes| && m - PermBits == TypeModes[k];
      TypeLettersOfOne(m, 0, k);
      TypeTables(k);
    }
  }

  /** Rendering a mode and parsing the text gives the mode back. */
  lemma ParseRenderRoundTrip(m: FileMode)
    requires IsRenderable(m)
    ensures ParseMode(Render(m)) == Success(m)
  {
    var s := Render(m);
    TypeStringOf(m);
    var perms := PermString(m);
    assert s[1..] == perms;
    LowerUnchanged(perms);
    PermsOfPermString(m, 0);
    assert forall j | 0 <= j < |perms| :: PermOk(perms[j], j);
    ParseModeAccepts(s);
    ParseModeValue(s);
    assert Below(m, 9) == m * PermBits by {
      forall b: ModeBit ensures b in Below(m, 9) <==> b in m * PermBits {
        InPermBits(b);
      }
    }
    assert ParseMode(s).value == (m - PermBits) + m * PermBits == m;
  }

  /** The bits of `m` below `n`. */
  function Below(m: FileMode, n: nat): (r: FileMode)
    ensures r <= m
  {
    set b | b in m && b < n
  }

  lemma {:induction false} PermsOfPermString(m: FileMode, i: nat)
    requires i <= 9
    ensures PermsFrom(PermString(m), i) == Below(m, 9 - i)
    decreases 9 - i
  {
    if i < 9 {
      PermsOfPermString(m, i + 1);
      var b := (8 - i) as ModeBit;
      assert Below(m, 9 - i) == (if b in m then {b} else {}) + Below(m, 8 - i);
    } else {
      assert Below(m, 0) == {};
    }
  }

  // ---------------------------------------------------------------------
  // The permission loop past the tenth character.

  /** As written, a mode string of eleven characters whose last one is not
      `-` indexes the permission table out of range: the source panics. */
  lemma ParseModeLongInputPanics()
    ensures ParseMode("-rwxrwxrwxx") == Failure(IndexOutOfRange(9))
  {
    var input := "-rwxrwxrwxx";
    var lower := ToLower(input[1..]);
    assert lower == "rwxrwxrwxx";
    ParseModeAccepts(input);
    assert !PermOk(lower[9], 9);
  }

  predicate Panicked(r: Result<FileMode, ModeError>)
  {
    r.Failure? && r.error.IndexOutOfRange?
  }

  lemma {:induction false} GuardedPermFrom(input: string, lower: string, i: nat, mode: FileMode)
    requires |lower| == |input| - 1 && i <= |lower|
    ensures !Panicked(PermFrom(input, lower, i, mode, true))
    ensures |lower| <= |Permissions| ==> !Panicked(PermFrom(input, lower, i, mode, false))
    ensures !Panicked(PermFrom(input, lower, i, mode, false))
      ==> PermFrom(input, lower, i, mode, true) == PermFrom(input, lower, i, mode, false)
    decreases |lower| - i
  {
    if i < |lower| {
      if lower[i] == '-' {
        GuardedPermFrom(input, lower, i + 1, mode);
      } else if i < |Permissions| && lower[i] == Permissions[i].0 {
        GuardedPermFrom(input, lower, i + 1, mode + Permissions[i].1);
      }
    }
  }

  /** The guarded parser never panics, and agrees with the source on every
      input the source does not panic on, among them every input of ten
      characters. */
  lemma ParseModeGuardedAgrees(input: string)
    ensures !Panicked(ParseModeGuarded(input))
    ensures !Panicked(ParseMode(input)) ==> ParseModeGuarded(input) == ParseMode(input)
    ensures |input| == 10 ==> ParseModeGuarded(input) == ParseMode(input)
  {
    if |input| >= 10 && TypeBits(input[0]).Some? {
      GuardedPermFrom(input, ToLower(input[1..]), 0, TypeBits(input[0]).value);
    }
  }
}
