/** The open flags of flags.go: the `O_*` constants, the printer
    `Flags.String` and its inverse `ParseFlags`.

    The host is fixed as Linux on amd64, so the constants take the values
    Go's `os` package gives them there. `Flags` is Go's 64-bit `int`, and
    the package only ever combines flags with `|` and `&` and compares the
    results: a value is kept here as the set of positions of its one bits,
    so `|` is union, `&` is intersection and `0` is the empty set. */
module OpenFlags {
  import opened Common
  import opened Paths

  /** A bit position of a 64-bit integer. */
  type Bit = b: nat | b < 64

  /** A Go `Flags` value, as the set of its one bits. */
  type Flags = set<Bit>

  const O_ACCESS: Flags := {0, 1}      // 0x3
  const O_RDONLY: Flags := {}          // 0x0
  const O_WRONLY: Flags := {0}         // 0x1
  const O_RDWR: Flags := {1}           // 0x2
  const O_APPEND: Flags := {10}        // 0x400
  const O_CREATE: Flags := {6}         // 0x40
  const O_EXCL: Flags := {7}           // 0x80
  const O_SYNC: Flags := {12, 20}      // 0x101000
  const O_TRUNC: Flags := {9}          // 0x200

  /** The option flags in the order `String` prints them, with their names. */
  const OptionFlags: seq<Flags> := [O_APPEND, O_CREATE, O_EXCL, O_SYNC, O_TRUNC]
  const OptionNames: seq<string> := ["O_APPEND", "O_CREATE", "O_EXCL", "O_SYNC", "O_TRUNC"]

  /** The access-mode name `String` prints for `f`: none when both access
      bits are set. */
  function AccessTokens(f: Flags): seq<string>
  {
    var a := f * O_ACCESS;
    if a == O_RDONLY then ["O_RDONLY"]
    else if a == O_RDWR then ["O_RDWR"]
    else if a == O_WRONLY then ["O_WRONLY"]
    else []
  }

  /** The names of the first `k` option flags that share a bit with `f`. */
  function OptionTokens(f: Flags, k: nat): seq<string>
    requires k <= |OptionFlags|
  {
    if k == 0 then []
    else OptionTokens(f, k - 1) + (if OptionFlags[k - 1] * f != {} then [OptionNames[k - 1]] else [])
  }

  /** The tokens of `f.String()`, before they are joined with `|`. */
  function Tokens(f: Flags): seq<string>
  {
    AccessTokens(f) + OptionTokens(f, |OptionFlags|)
  }

  /** What `f.String()` returns. */
  function Show(f: Flags): string
  {
    JoinWith(Tokens(f), '|')
  }

  lemma OptionTokensNext(f: Flags, i: nat, head: seq<string>, out: seq<string>)
    requires i < |OptionFlags| && out == head + OptionTokens(f, i)
    ensures OptionFlags[i] * f != {} ==> out + [OptionNames[i]] == head + OptionTokens(f, i + 1)
    ensures OptionFlags[i] * f == {} ==> out == head + OptionTokens(f, i + 1)
  {
  }

  /** The access-mode token `String` starts with (flags.go:32-39). */
  method accessTokens(f: Flags) returns (out: seq<string>)
    ensures out == AccessTokens(f)
  {
    out := [];
    var a := f * O_ACCESS;
    if a == O_RDONLY {
      out := out + ["O_RDONLY"];
    } else if a == O_RDWR {
      out := out + ["O_RDWR"];
    } else if a == O_WRONLY {
      out := out + ["O_WRONLY"];
    }
  }

  /** `Flags.String` (flags.go:30-49). */
  method String(f: Flags) returns (s: string)
    ensures s == Show(f)
  {
    var out := accessTokens(f);
    ghost var head := out;
    var i := 0;
    while i < |OptionFlags|
      invariant 0 <= i <= |OptionFlags|
      invariant out == head + OptionTokens(f, i)
    {
      OptionTokensNext(f, i, head, out);
      if OptionFlags[i] * f != {} {
        out := out + [OptionNames[i]];
      }
      i := i + 1;
    }
    s := JoinWith(out, '|');
  }

  /** Why `ParseFlags` refuses its input; the source reports both as a
      formatted error message naming the tokens. */
  datatype FlagsError =
    | MultipleAccessModes(first: string, second: string)
    | UnrecognizedFlag(token: string)

  /** What a `|`-separated token names: the cases of the switch in
      `ParseFlags`. */
  datatype Token =
    | RdOnly | RdWr | WrOnly
    | Append | Create | Excl | Sync | Trunc
    | Unrecognized
  {
    predicate IsAccess() { this == RdOnly || this == RdWr || this == WrOnly }
  }

  function Classify(v: string): Token
  {
    if v == "O_RDONLY" then RdOnly
    else if v == "O_RDWR" then RdWr
    else if v == "O_WRONLY" then WrOnly
    else if v == "O_APPEND" then Append
    else if v == "O_CREATE" then Create
    else if v == "O_EXCL" then Excl
    else if v == "O_SYNC" then Sync
    else if v == "O_TRUNC" then Trunc
    else Unrecognized
  }

  lemma ClassifyNames()
    ensures Classify("O_RDONLY") == RdOnly && Classify("O_RDWR") == RdWr
    ensures Classify("O_WRONLY") == WrOnly && Classify("O_APPEND") == Append
    ensures Classify("O_CREATE") == Create && Classify("O_EXCL") == Excl
    ensures Classify("O_SYNC") == Sync && Classify("O_TRUNC") == Trunc
    ensures Classify("") == Unrecognized
  {
  }

  /** The bits the final switch of `ParseFlags` adds for the access token
      it has kept: none for `O_RDONLY` or when there is no such token. */
  function AccessBits(t: Token): Flags
  {
    if t == RdWr then O_RDWR
    else if t == WrOnly then O_WRONLY
    else O_RDONLY
  }

  /** The flag an option token ORs in; nothing for the other tokens. */
  function OptionBit(t: Token): Flags
  {
    match t
    case Append => O_APPEND
    case Create => O_CREATE
    case Excl => O_EXCL
    case Sync => O_SYNC
    case Trunc => O_TRUNC
    case _ => O_RDONLY
  }

  /** The token loop of `ParseFlags` and the switch after it, given the
      access token kept so far (`""` for none) and the flags gathered so
      far. */
  function ParseFrom(acc: string, out: Flags, toks: seq<string>): Result<Flags, FlagsError>
    decreases |toks|
  {
    if toks == [] then Success(out + AccessBits(Classify(acc)))
    else
      var v := toks[0];
      var t := Classify(v);
      if t.IsAccess() then
        if |acc| != 0 then Failure(MultipleAccessModes(acc, v)) else ParseFrom(v, out, toks[1..])
      else if t == Unrecognized then Failure(UnrecognizedFlag(v))
      else ParseFrom(acc, out + OptionBit(t), toks[1..])
  }

  /** What `ParseFlags(input)` returns. */
  function Parse(input: string): Result<Flags, FlagsError>
  {
    ParseFrom("", O_RDONLY, Split(input, '|'))
  }

  lemma ParseFromUnfold(acc: string, out: Flags, toks: seq<string>, i: nat)
    requires i < |toks|
    ensures var v, rest, t := toks[i], toks[i + 1..], Classify(toks[i]);
      ParseFrom(acc, out, toks[i..]) == (
        if t.IsAccess() then
          if |acc| != 0 then Failure(MultipleAccessModes(acc, v)) else ParseFrom(v, out, rest)
        else if t == Unrecognized then Failure(UnrecognizedFlag(v))
        else ParseFrom(acc, out + OptionBit(t), rest))
  {
    assert toks[i..][0] == toks[i] && toks[i..][1..] == toks[i + 1..];
  }

  /** One pass of the token loop, case by case as the switch in
      `ParseFlags` takes them. */
  lemma ParseFromNext(acc: string, out: Flags, toks: seq<string>, i: nat)
    requires i < |toks|
    ensures var v, rest, here := toks[i], toks[i + 1..], ParseFrom(acc, out, toks[i..]);
      && (v == "O_RDONLY" || v == "O_RDWR" || v == "O_WRONLY" ==>
           here == if |acc| != 0 then Failure(MultipleAccessModes(acc, v)) else ParseFrom(v, out, rest))
      && (v == "O_APPEND" ==> here == ParseFrom(acc, out + O_APPEND, rest))
      && (v == "O_CREATE" ==> here == ParseFrom(acc, out + O_CREATE, rest))
      && (v == "O_EXCL" ==> here == ParseFrom(acc, out + O_EXCL, rest))
      && (v == "O_SYNC" ==> here == ParseFrom(acc, out + O_SYNC, rest))
      && (v == "O_TRUNC" ==> here == ParseFrom(acc, out + O_TRUNC, rest))
      && (Classify(v) == Unrecognized ==> here == Failure(UnrecognizedFlag(v)))
  {
    ParseFromUnfold(acc, out, toks, i);
    ClassifyNames();
  }

  /** `ParseFlags` (flags.go:60-112). */
  method ParseFlags(input: string) returns (r: Result<Flags, FlagsError>)
    ensures r == Parse(input)
  {
    var toks := Split(input, '|');
    var acc := "";
    var out := O_RDONLY;
    var i := 0;
    ClassifyNames();
    while i < |toks|
      invariant 0 <= i <= |toks|
      invariant acc == "" || acc == "O_RDONLY" || acc == "O_RDWR" || acc == "O_WRONLY"
      invariant ParseFrom(acc, out, toks[i..]) == Parse(input)
    {
      var v := toks[i];
      ParseFromNext(acc, out, toks, i);
      if v == "O_RDONLY" || v == "O_RDWR" || v == "O_WRONLY" {
        if |acc| != 0 {
          return Failure(MultipleAccessModes(acc, v));
        }
        acc := v;
      } else if v == "O_APPEND" {
        out := out + O_APPEND;
      } else if v == "O_CREATE" {
        out := out + O_CREATE;
      } else if v == "O_EXCL" {
        out := out + O_EXCL;
      } else if v == "O_SYNC" {
        out := out + O_SYNC;
      } else if v == "O_TRUNC" {
        out := out + O_TRUNC;
      } else {
        return Failure(UnrecognizedFlag(v));
      }
      i := i + 1;
    }
    assert toks[i..] == [];
    if acc == "O_RDWR" {
      out := out + O_RDWR;
    } else if acc == "O_WRONLY" {
      out := out + O_WRONLY;
    } else {
      assert out + AccessBits(Classify(acc)) == out;
    }
    return Success(out);
  }

  // ---------------------------------------------------------------------
  // What a list of tokens means, described independently of the loop.

  /** The kind of each token, in order. */
  function Kinds(toks: seq<string>): seq<Token>
    decreases |toks|
  {
    if toks == [] then [] else [Classify(toks[0])] + Kinds(toks[1..])
  }

  /** How many tokens name an access mode. */
  function AccessCount(toks: seq<string>): nat
    decreases |toks|
  {
    if toks == [] then 0
    else (if Classify(toks[0]).IsAccess() then 1 else 0) + AccessCount(toks[1..])
  }

  /** The first token naming an access mode, or `""` when there is none. */
  function FirstAccess(toks: seq<string>): string
    decreases |toks|
  {
    if toks == [] then ""
    else if Classify(toks[0]).IsAccess() then toks[0]
    else FirstAccess(toks[1..])
  }

  function FlagIf(present: bool, f: Flags): Flags
  {
    if present then f else O_RDONLY
  }

  /** The union of the option flags named among `ks`: which options occur
      matters, not their order or repetition. */
  function OptionValue(ks: seq<Token>): Flags
  {
    FlagIf(Append in ks, O_APPEND) + FlagIf(Create in ks, O_CREATE) + FlagIf(Excl in ks, O_EXCL)
      + FlagIf(Sync in ks, O_SYNC) + FlagIf(Trunc in ks, O_TRUNC)
  }

  /** The union of the option flags that share a bit with `f`. */
  function OptionsOf(f: Flags): Flags
  {
    FlagIf(O_APPEND * f != {}, O_APPEND) + FlagIf(O_CREATE * f != {}, O_CREATE)
      + FlagIf(O_EXCL * f != {}, O_EXCL) + FlagIf(O_SYNC * f != {}, O_SYNC)
      + FlagIf(O_TRUNC * f != {}, O_TRUNC)
  }

  /** Flags made of one access mode and whole option flags, as callers of
      `OpenFile` build them. */
  predicate IsComposed(f: Flags)
  {
    f * O_ACCESS != O_ACCESS && f == f * O_ACCESS + OptionsOf(f)
  }

  /** The token loop succeeds exactly when every token is recognized and at
      most one access mode is named in all, counting one kept before. */
  lemma {:induction false} ParseFromAccepts(acc: string, out: Flags, toks: seq<string>)
    requires acc == "" || Classify(acc).IsAccess()
    ensures ParseFrom(acc, out, toks).Success?
      <==> (Unrecognized !in Kinds(toks) && AccessCount(toks) + (if acc == "" then 0 else 1) <= 1)
    decreases |toks|
  {
    if toks != [] {
      var v, rest := toks[0], toks[1..];
      var t := Classify(v);
      assert Kinds(toks) == [t] + Kinds(rest);
      if t.IsAccess() {
        assert AccessCount(toks) == 1 + AccessCount(rest);
        if acc == "" {
          assert ParseFrom(acc, out, toks) == ParseFrom(v, out, rest);
          ParseFromAccepts(v, out, rest);
        } else {
          assert ParseFrom(acc, out, toks).Failure?;
        }
      } else if t != Unrecognized {
        assert AccessCount(toks) == AccessCount(rest);
        assert ParseFrom(acc, out, toks) == ParseFrom(acc, out + OptionBit(t), rest);
        ParseFromAccepts(acc, out + OptionBit(t), rest);
      } else {
        assert ParseFrom(acc, out, toks).Failure?;
      }
    }
  }

  /** One more token in front adds its option flag. */
  lemma OptionValueCons(t: Token, ks: seq<Token>)
    ensures OptionValue([t] + ks) == OptionBit(t) + OptionValue(ks)
  {
  }

  /** When the token loop succeeds it yields the flags gathered before, the
      flags of every option named and those of the one access mode named. */
  lemma {:induction false} ParseFromValue(acc: string, out: Flags, toks: seq<string>)
    requires acc == "" || Classify(acc).IsAccess()
    requires ParseFrom(acc, out, toks).Success?
    ensures ParseFrom(acc, out, toks)
      == Success(out + OptionValue(Kinds(toks)) + AccessBits(Classify(if acc != "" then acc else FirstAccess(toks))))
    decreases |toks|
  {
    if toks == [] {
      assert Kinds(toks) == [] && OptionValue([]) == {};
      var a := AccessBits(Classify(acc));
      assert out + a == out + OptionValue(Kinds(toks)) + a;
    } else {
      var v, rest := toks[0], toks[1..];
      var t := Classify(v);
      assert Kinds(toks) == [t] + Kinds(rest);
      OptionValueCons(t, Kinds(rest));
      if t.IsAccess() {
        assert ParseFrom(acc, out, toks) == ParseFrom(v, out, rest);
        ParseFromValue(v, out, rest);
      } else {
        assert ParseFrom(acc, out, toks) == ParseFrom(acc, out + OptionBit(t), rest);
        ParseFromValue(acc, out + OptionBit(t), rest);
        var a := AccessBits(Classify(if acc != "" then acc else FirstAccess(rest)));
        assert out + OptionBit(t) + OptionValue(Kinds(rest)) + a == out + OptionValue(Kinds(toks)) + a;
      }
    }
  }

  /** `ParseFlags` succeeds exactly when every `|`-separated token is a
      flag name and at most one of them is an access mode; so a repeated
      access mode, an unknown name and an empty token (as in `""` or
      `"O_RDWR|"`) are all refused. */
  lemma ParseSucceedsIff(input: string)
    ensures Parse(input).Success?
      <==> (Unrecognized !in Kinds(Split(input, '|')) && AccessCount(Split(input, '|')) <= 1)
  {
    ParseFromAccepts("", O_RDONLY, Split(input, '|'));
  }

  lemma {:induction false} FirstAccessIn(toks: seq<string>)
    ensures FirstAccess(toks) == "" <==> AccessCount(toks) == 0
    ensures FirstAccess(toks) != "" ==> FirstAccess(toks) in toks && Classify(FirstAccess(toks)).IsAccess()
    decreases |toks|
  {
    if toks != [] {
      FirstAccessIn(toks[1..]);
    }
  }

  /** A successful parse yields exactly the option flags named together
      with the access mode named, and read-only access when none is. */
  lemma ParseValue(input: string)
    requires Parse(input).Success?
    ensures var toks := Split(input, '|');
      Parse(input).value == OptionValue(Kinds(toks)) + AccessBits(Classify(FirstAccess(toks)))
    ensures var toks := Split(input, '|');
      Parse(input).value * O_ACCESS == AccessBits(Classify(FirstAccess(toks)))
    ensures AccessCount(Split(input, '|')) == 0 ==> Parse(input).value * O_ACCESS == O_RDONLY
  {
    var toks := Split(input, '|');
    ParseFromValue("", O_RDONLY, toks);
    var o, a := OptionValue(Kinds(toks)), AccessBits(Classify(FirstAccess(toks)));
    OptionValueNoAccess(Kinds(toks));
    assert a <= O_ACCESS;
    assert (o + a) * O_ACCESS == a;
    FirstAccessIn(toks);
    ClassifyNames();
  }

  /** No option flag shares a bit with the access mode. */
  lemma OptionValueNoAccess(ks: seq<Token>)
    ensures OptionValue(ks) * O_ACCESS == {}
  {
  }

  lemma {:induction false} AccessCountIn(toks: seq<string>, v: string)
    requires v in toks && Classify(v).IsAccess()
    ensures AccessCount(toks) >= 1
    decreases |toks|
  {
    if toks[0] != v {
      AccessCountIn(toks[1..], v);
    }
  }

  lemma {:induction false} AccessOnlyFirst(toks: seq<string>, v: string)
    requires AccessCount(toks) <= 1 && v in toks && Classify(v).IsAccess()
    ensures FirstAccess(toks) == v
    decreases |toks|
  {
    if toks[0] != v {
      assert v in toks[1..];
      if Classify(toks[0]).IsAccess() {
        AccessCountIn(toks[1..], v);
      } else {
        AccessOnlyFirst(toks[1..], v);
      }
    }
  }

  lemma {:induction false} KindsHas(toks: seq<string>, k: Token)
    ensures k in Kinds(toks) <==> exists v :: v in toks && Classify(v) == k
    decreases |toks|
  {
    if toks != [] {
      KindsHas(toks[1..], k);
      assert forall v :: v in toks <==> v == toks[0] || v in toks[1..];
    }
  }

  /** Two inputs naming the same set of tokens, neither naming two access
      modes, are accepted alike and then yield the same flags: the order
      and repetition of tokens do not matter. */
  lemma ParseIgnoresOrderAndRepeats(a: string, b: string)
    requires forall v :: v in Split(a, '|') <==> v in Split(b, '|')
    requires AccessCount(Split(a, '|')) <= 1 && AccessCount(Split(b, '|')) <= 1
    ensures Parse(a).Success? <==> Parse(b).Success?
    ensures Parse(a).Success? ==> Parse(a) == Parse(b)
  {
    var ta, tb := Split(a, '|'), Split(b, '|');
    forall k: Token ensures k in Kinds(ta) <==> k in Kinds(tb) {
      KindsHas(ta, k);
      KindsHas(tb, k);
    }
    ParseSucceedsIff(a);
    ParseSucceedsIff(b);
    if Parse(a).Success? {
      ParseValue(a);
      ParseValue(b);
      FirstAccessIn(ta);
      FirstAccessIn(tb);
      if FirstAccess(ta) != "" {
        AccessOnlyFirst(tb, FirstAccess(ta));
      } else if FirstAccess(tb) != "" {
        AccessOnlyFirst(ta, FirstAccess(tb));
      }
    }
  }
  // ---------------------------------------------------------------------
  // Printing and parsing are inverse.

  /** A composed value prints exactly one access-mode name. */
  lemma AccessTokensOfComposed(f: Flags)
    requires IsComposed(f)
    ensures |AccessTokens(f)| == 1
    ensures AccessBits(Classify(AccessTokens(f)[0])) == f * O_ACCESS
  {
    ClassifyNames();
    var a := f * O_ACCESS;
    assert a <= {0, 1};
    if 0 in a {
      assert 1 !in a;
      assert a == O_WRONLY;
    } else if 1 in a {
      assert a == O_RDWR;
    } else {
      assert a == O_RDONLY;
    }
  }

  /** The options `String` prints are the option names of the option
      flags that share a bit with `f`. */
  lemma {:induction false} OptionTokensHas(f: Flags, k: nat, v: string)
    requires k <= |OptionFlags|
    ensures v in OptionTokens(f, k)
      <==> exists i :: 0 <= i < k && v == OptionNames[i] && OptionFlags[i] * f != {}
    decreases k
  {
    if k > 0 {
      OptionTokensHas(f, k - 1, v);
    }
  }

  /** Every token `String` prints is a flag name. */
  lemma TokensAreNames(f: Flags, v: string)
    requires v in Tokens(f)
    ensures v in OptionNames || v == "O_RDONLY" || v == "O_RDWR" || v == "O_WRONLY"
  {
    if v !in AccessTokens(f) {
      OptionTokensHas(f, |OptionFlags|, v);
    }
  }

  /** A flag name is recognized, holds no `|`, and names an access mode
      exactly when it is not an option name. */
  lemma NameFacts(v: string)
    requires v in OptionNames || v == "O_RDONLY" || v == "O_RDWR" || v == "O_WRONLY"
    ensures Classify(v) != Unrecognized && '|' !in v
    ensures Classify(v).IsAccess() <==> v !in OptionNames
  {
    ClassifyNames();
  }

  lemma {:induction false} AccessCountOfOptions(toks: seq<string>)
    requires forall v | v in toks :: v in OptionNames
    ensures AccessCount(toks) == 0
    decreases |toks|
  {
    if toks != [] {
      NameFacts(toks[0]);
      AccessCountOfOptions(toks[1..]);
    }
  }

  /** The text `String` prints splits back into its tokens. */
  lemma ShowSplits(f: Flags)
    requires |AccessTokens(f)| == 1
    ensures Split(Show(f), '|') == Tokens(f)
  {
    var toks := Tokens(f);
    forall i | 0 <= i < |toks| ensures '|' !in toks[i] {
      TokensAreNames(f, toks[i]);
      NameFacts(toks[i]);
    }
    SplitJoinWith(toks, '|');
  }

  /** The tokens of a composed value are all recognized, and exactly one
      of them, the first, names an access mode. */
  lemma TokensOfComposed(f: Flags)
    requires |AccessTokens(f)| == 1
    ensures Unrecognized !in Kinds(Tokens(f))
    ensures AccessCount(Tokens(f)) == 1 && FirstAccess(Tokens(f)) == AccessTokens(f)[0]
  {
    var toks := Tokens(f);
    var name, opts := AccessTokens(f)[0], OptionTokens(f, |OptionFlags|);
    assert toks == [name] + opts && toks[1..] == opts;
    KindsHas(toks, Unrecognized);
    forall v | v in toks ensures Classify(v) != Unrecognized {
      TokensAreNames(f, v);
      NameFacts(v);
    }
    forall v | v in opts ensures v in OptionNames {
      OptionTokensHas(f, |OptionFlags|, v);
    }
    AccessCountOfOptions(opts);
    assert name == "O_RDONLY" || name == "O_RDWR" || name == "O_WRONLY";
    NameFacts(name);
  }

  /** Only the flag's own name is classified as an option kind. */
  lemma ClassifyOption(v: string, i: nat)
    requires i < |OptionNames| && Classify(v) == Classify(OptionNames[i])
    ensures v == OptionNames[i]
  {
    ClassifyNames();
  }

  /** An option token is named by a printed value exactly when its flag
      shares a bit with the value. */
  lemma OptionKindInTokens(f: Flags, i: nat)
    requires i < |OptionNames|
    ensures Classify(OptionNames[i]) in Kinds(Tokens(f)) <==> OptionFlags[i] * f != {}
  {
    var toks, name := Tokens(f), OptionNames[i];
    var k := Classify(name);
    NameFacts(name);
    KindsHas(toks, k);
    OptionTokensHas(f, |OptionFlags|, name);
    if k in Kinds(toks) {
      var v :| v in toks && Classify(v) == k;
      ClassifyOption(v, i);
      AccessTokensAreAccess(f, v);
      assert v in OptionTokens(f, |OptionFlags|);
    }
  }

  lemma AccessTokensAreAccess(f: Flags, v: string)
    ensures v in AccessTokens(f) ==> Classify(v).IsAccess()
  {
    ClassifyNames();
  }

  lemma KindsOfTokens(f: Flags)
    ensures Append in Kinds(Tokens(f)) <==> O_APPEND * f != {}
    ensures Create in Kinds(Tokens(f)) <==> O_CREATE * f != {}
    ensures Excl in Kinds(Tokens(f)) <==> O_EXCL * f != {}
    ensures Sync in Kinds(Tokens(f)) <==> O_SYNC * f != {}
    ensures Trunc in Kinds(Tokens(f)) <==> O_TRUNC * f != {}
  {
    ClassifyNames();
    OptionKindInTokens(f, 0);
    OptionKindInTokens(f, 1);
    OptionKindInTokens(f, 2);
    OptionKindInTokens(f, 3);
    OptionKindInTokens(f, 4);
  }

  /** Printing a composed value and parsing the text gives the value back
      (the round trip the doc comment of `ParseFlags` promises). */
  lemma ParseShowRoundTrip(f: Flags)
    requires IsComposed(f)
    ensures Parse(Show(f)) == Success(f)
  {
    var toks := Tokens(f);
    AccessTokensOfComposed(f);
    ShowSplits(f);
    TokensOfComposed(f);
    ParseSucceedsIff(Show(f));
    var r := Parse(Show(f));
    assert r.Success?;
    ParseValue(Show(f));
    KindsOfTokens(f);
    var o, a := OptionValue(Kinds(toks)), AccessBits(Classify(FirstAccess(toks)));
    assert r.value == o + a;
    assert a == f * O_ACCESS;
    assert o == OptionsOf(f);
    assert o + a == a + o == f;
  }
}
