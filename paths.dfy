/** Lexical path handling on a Unix host, as Go's `strings.Split`,
    `filepath.IsAbs`, `filepath.Clean` and `filepath.Join` define it.

    `Clean` follows the rules of Pike's "Lexical File Names in Plan 9":
    collapse repeated separators, drop `.` elements, let `..` cancel the
    element before it (and vanish at the root of a rooted path), and
    render an empty result as `.` (or `/` when rooted). It is written as a
    left fold of one element at a time onto a stack of kept elements, so
    that cleaning a concatenation is cleaning its tail onto the cleaned
    head (`FoldAppend`). */
module Paths {

  /** Go's `strings.Split(s, string(sep))`: k separators give k + 1 parts,
      and `""` gives `[""]`. */
  function Split(s: string, sep: char): (parts: seq<string>)
    ensures |parts| >= 1
    ensures forall i | 0 <= i < |parts| :: sep !in parts[i]
  {
    if s == [] then [""]
    else
      var rest := Split(s[1..], sep);
      if s[0] == sep then [""] + rest
      else [[s[0]] + rest[0]] + rest[1..]
  }

  /** Go's `strings.Join(parts, string(sep))`. */
  function JoinWith(parts: seq<string>, sep: char): string
  {
    if |parts| == 0 then ""
    else if |parts| == 1 then parts[0]
    else parts[0] + [sep] + JoinWith(parts[1..], sep)
  }

  /** Joining the parts of a split gives back the string. */
  lemma {:induction false} JoinWithSplit(s: string, sep: char)
    ensures JoinWith(Split(s, sep), sep) == s
  {
    if s != [] {
      JoinWithSplit(s[1..], sep);
      var rest := Split(s[1..], sep);
      if s[0] != sep {
        if |rest| > 1 {
          assert JoinWith(rest, sep) == rest[0] + [sep] + JoinWith(rest[1..], sep);
        }
      }
    }
  }

  /** A string without a separator splits into itself alone. */
  lemma {:induction false} SplitWithoutSeparator(s: string, sep: char)
    requires sep !in s
    ensures Split(s, sep) == [s]
  {
    if s != [] {
      assert sep !in s[1..];
      SplitWithoutSeparator(s[1..], sep);
      assert [s[0]] + s[1..] == s;
    }
  }

  /** A separator between two strings splits them apart. */
  lemma {:induction false} SplitAround(x: string, y: string, sep: char)
    ensures Split(x + [sep] + y, sep) == Split(x, sep) + Split(y, sep)
  {
    var s := x + [sep] + y;
    if x == [] {
      assert s[1..] == y;
    } else {
      assert s[1..] == x[1..] + [sep] + y;
      SplitAround(x[1..], y, sep);
    }
  }

  /** Splitting a join of separator-free parts gives back the parts. */
  lemma {:induction false} SplitJoinWith(parts: seq<string>, sep: char)
    requires |parts| >= 1
    requires forall i | 0 <= i < |parts| :: sep !in parts[i]
    ensures Split(JoinWith(parts, sep), sep) == parts
  {
    if |parts| == 1 {
      SplitWithoutSeparator(parts[0], sep);
    } else {
      SplitJoinWith(parts[1..], sep);
      SplitWithoutSeparator(parts[0], sep);
      SplitAround(parts[0], JoinWith(parts[1..], sep), sep);
    }
  }

  /** `filepath.IsAbs` on Unix: a leading `/`. */
  predicate IsAbs(p: string)
  {
    |p| > 0 && p[0] == '/'
  }

  /** One element of a path pushed onto the stack of kept elements. */
  function Step(rooted: bool, stack: seq<string>, elem: string): seq<string>
  {
    if elem == "" || elem == "." then stack
    else if elem == ".." then
      if |stack| > 0 && stack[|stack| - 1] != ".." then stack[..|stack| - 1]
      else if rooted then stack
      else stack + [".."]
    else stack + [elem]
  }

  function Fold(rooted: bool, stack: seq<string>, elems: seq<string>): seq<string>
    decreases |elems|
  {
    if |elems| == 0 then stack
    else Fold(rooted, Step(rooted, stack, elems[0]), elems[1..])
  }

  function Render(rooted: bool, stack: seq<string>): string
  {
    if rooted then "/" + JoinWith(stack, '/')
    else if stack == [] then "."
    else JoinWith(stack, '/')
  }

  /** The kept elements of a path: its normal form. */
  function Elements(p: string): seq<string>
  {
    Fold(IsAbs(p), [], Split(p, '/'))
  }

  /** `filepath.Clean`. */
  function Clean(p: string): string
  {
    Render(IsAbs(p), Elements(p))
  }

  /** `filepath.Join(a, b)`: the empty elements are skipped, the rest
      joined with `/` and cleaned; two empty elements give `""`. */
  function Join(a: string, b: string): string
  {
    if a != "" then Clean(a + "/" + b)
    else if b != "" then Clean(b)
    else ""
  }

  /** The number of kept elements: how deep a path reaches. */
  function Depth(p: string): nat
  {
    |Elements(p)|
  }

  /** An element a clean path may keep. */
  predicate IsElem(s: string)
  {
    s != "" && s != "." && '/' !in s
  }

  /** A plain name: an element that is not `..`. */
  predicate IsName(s: string)
  {
    IsElem(s) && s != ".."
  }

  /** The stacks `Fold` builds: plain elements, the `..` ones (only when
      not rooted) all in front. */
  predicate Normal(rooted: bool, st: seq<string>)
  {
    && (forall i | 0 <= i < |st| :: IsElem(st[i]))
    && (forall i, j | 0 <= i < j < |st| && st[j] == ".." :: st[i] == "..")
    && (rooted ==> forall i | 0 <= i < |st| :: st[i] != "..")
  }

  lemma {:induction false} FoldAppend(r: bool, st: seq<string>, a: seq<string>, b: seq<string>)
    ensures Fold(r, st, a + b) == Fold(r, Fold(r, st, a), b)
    decreases |a|
  {
    if a == [] {
      assert a + b == b;
    } else {
      assert (a + b)[1..] == a[1..] + b;
      FoldAppend(r, Step(r, st, a[0]), a[1..], b);
    }
  }

  lemma FoldSnoc(r: bool, st: seq<string>, a: seq<string>, e: string)
    ensures Fold(r, st, a + [e]) == Step(r, Fold(r, st, a), e)
  {
    FoldAppend(r, st, a, [e]);
  }

  lemma StepKeepsNormal(r: bool, st: seq<string>, e: string)
    requires Normal(r, st)
    requires '/' !in e
    ensures Normal(r, Step(r, st, e))
  {
    if e == ".." && !(|st| > 0 && st[|st| - 1] != "..") && !r {
      var st' := st + [".."];
      forall i, j | 0 <= i < j < |st'| && st'[j] == ".."
        ensures st'[i] == ".."
      {
        if j == |st| {
          assert st[|st| - 1] == "..";
          assert st[i] == st'[i];
        }
      }
    }
  }

  lemma {:induction false} FoldKeepsNormal(r: bool, st: seq<string>, es: seq<string>)
    requires Normal(r, st)
    requires forall i | 0 <= i < |es| :: '/' !in es[i]
    ensures Normal(r, Fold(r, st, es))
    decreases |es|
  {
    if es != [] {
      StepKeepsNormal(r, st, es[0]);
      FoldKeepsNormal(r, Step(r, st, es[0]), es[1..]);
    }
  }

  /** Folding a normal stack onto a stack it extends changes nothing. */
  lemma {:induction false} FoldOfNormal(r: bool, st: seq<string>, ns: seq<string>)
    requires Normal(r, st + ns)
    ensures Fold(r, st, ns) == st + ns
    decreases |ns|
  {
    if ns != [] {
      var all := st + ns;
      assert all[|st|] == ns[0];
      if ns[0] == ".." && |st| > 0 {
        assert all[|st| - 1] == "..";
      }
      assert Step(r, st, ns[0]) == st + [ns[0]];
      assert (st + [ns[0]]) + ns[1..] == all;
      FoldOfNormal(r, st + [ns[0]], ns[1..]);
    }
  }

  /** A normal stack renders to a path that splits and folds back to it. */
  lemma RenderElements(r: bool, n: seq<string>)
    requires Normal(r, n)
    ensures IsAbs(Render(r, n)) == r
    ensures Fold(r, [], Split(Render(r, n), '/')) == n
  {
    var j := JoinWith(n, '/');
    if n != [] {
      SplitJoinWith(n, '/');
      FoldOfNormal(r, [], n);
      assert [] + n == n;
    }
    if r {
      assert "/" + j == [] + ['/'] + j;
      SplitAround([], j, '/');
      assert Split("/" + j, '/') == [""] + Split(j, '/');
      if n == [] {
        assert Split(j, '/') == [""];
        assert ["", ""][1..] == [""] && [""][1..] == [];
        assert Fold(r, [], ["", ""]) == Fold(r, [], [""]) == [];
      } else {
        assert ([""] + n)[1..] == n;
      }
    } else if n == [] {
      SplitWithoutSeparator(".", '/');
    } else {
      assert j[0] == n[0][0];
    }
  }

  /** Cleaning keeps rootedness and the kept elements, which are normal. */
  lemma CleanElements(p: string)
    ensures Normal(IsAbs(p), Elements(p))
    ensures IsAbs(Clean(p)) == IsAbs(p)
    ensures Elements(Clean(p)) == Elements(p)
  {
    FoldKeepsNormal(IsAbs(p), [], Split(p, '/'));
    RenderElements(IsAbs(p), Elements(p));
  }

  /** The paths `filepath.Dir` steps through from `Render(rooted, es)`
      until the root or `.`, outermost first, from the first `k + 1`
      elements on: `Render(rooted, es[..k + 1])`, ..., `Render(rooted, es)`. */
  function Prefixes(rooted: bool, es: seq<string>, k: nat): seq<string>
    decreases |es| - k
  {
    if k >= |es| then [] else [Render(rooted, es[..k + 1])] + Prefixes(rooted, es, k + 1)
  }

  /** `filepath.Dir` of a clean path with at least one element drops the
      last one; the root and `.` are exactly the paths with none left. */
  lemma RenderPrefix(rooted: bool, es: seq<string>, k: nat)
    requires Normal(rooted, es) && k <= |es|
    ensures Render(rooted, es[..k]) == "/" || Render(rooted, es[..k]) == "." <==> k == 0
  {
    var st := es[..k];
    if k > 0 {
      assert IsElem(st[0]);
      if rooted {
        assert JoinWith(st, '/')[0] == st[0][0];
      } else if |st| > 1 {
        assert |JoinWith(st, '/')| > 1;
      }
    }
  }

  /** A clean path is never empty. */
  lemma CleanNonEmpty(p: string)
    ensures Clean(p) != ""
  {
    CleanElements(p);
    var n := Elements(p);
    if !IsAbs(p) && n != [] {
      assert JoinWith(n, '/')[0] == n[0][0];
    }
  }

  /** Cleaning twice is cleaning once. */
  lemma CleanIdempotent(p: string)
    ensures Clean(Clean(p)) == Clean(p)
  {
    CleanElements(p);
  }

  /** The stacks an unrooted fold builds hold no empty or `.` element. */
  predicate NoDots(st: seq<string>)
  {
    forall i | 0 <= i < |st| :: st[i] != "" && st[i] != "."
  }

  lemma {:induction false} FoldKeepsNoDots(r: bool, st: seq<string>, es: seq<string>)
    requires NoDots(st)
    ensures NoDots(Fold(r, st, es))
    decreases |es|
  {
    if es != [] {
      FoldKeepsNoDots(r, Step(r, st, es[0]), es[1..]);
    }
  }

  /** A `..` folded after a name takes the name back off. */
  lemma PopAfterName(r: bool, st: seq<string>, n: seq<string>, x: string)
    requires x != "" && x != "." && x != ".."
    ensures Step(r, Fold(r, st, n + [x]), "..") == Fold(r, st, n)
  {
    FoldSnoc(r, st, n, x);
    var m := Fold(r, st, n);
    assert (m + [x])[..|m|] == m;
  }

  /** Folding a sequence of elements onto any stack is folding its own
      unrooted normal form there: `..` cancels the same element either way. */
  lemma {:induction false} FoldOfUnrootedFold(r: bool, st: seq<string>, a: seq<string>)
    ensures Fold(r, st, a) == Fold(r, st, Fold(false, [], a))
    decreases |a|
  {
    if a != [] {
      var a', e := a[..|a| - 1], a[|a| - 1];
      assert a == a' + [e];
      FoldOfUnrootedFold(r, st, a');
      var n := Fold(false, [], a');
      FoldSnoc(r, st, a', e);
      FoldSnoc(false, [], a', e);
      if e == ".." && |n| > 0 && n[|n| - 1] != ".." {
        FoldKeepsNoDots(false, [], a');
        assert n == n[..|n| - 1] + [n[|n| - 1]];
        PopAfterName(r, st, n[..|n| - 1], n[|n| - 1]);
      } else if e != "" && e != "." {
        FoldSnoc(r, st, n, e);
      }
    }
  }

  lemma ElementsOfEmpty()
    ensures Elements("") == []
  {
    assert Split("", '/') == [""];
  }

  /** `y` is `x` with one more element `n` at the end, up to cleaning. */
  predicate Extends(x: string, y: string, n: string)
  {
    IsAbs(y) == IsAbs(x) && Elements(y) == Elements(x) + [n]
  }

  lemma ExtendsDepth(x: string, y: string, n: string)
    requires Extends(x, y, n)
    ensures Depth(y) == Depth(x) + 1
  {
  }

  /** `p` is `root` or lies under it: rooted alike, with elements that
      begin with those of `root`. */
  predicate Below(root: string, p: string)
  {
    IsAbs(p) == IsAbs(root) && Elements(root) <= Elements(p)
  }

  /** What lies under a path extended by one element lies under the
      path. */
  lemma BelowParent(x: string, y: string, n: string, p: string)
    requires Extends(x, y, n) && Below(y, p)
    ensures Below(x, p)
  {
    var ex, ep := Elements(x), Elements(p);
    assert ep[..|ex|] == (ex + [n])[..|ex|] == ex;
  }

  /** Joining a plain name onto any path extends it by that name. */
  lemma JoinExtends(q: string, n: string)
    requires IsName(n)
    ensures Extends(q, Join(q, n), n)
  {
    SplitWithoutSeparator(n, '/');
    if q == "" {
      CleanElements(n);
      assert !IsAbs(n);
      assert Split(n, '/') == [n];
      assert [n][1..] == [];
      assert Fold(false, [], [n]) == Fold(false, [n], []);
      ElementsOfEmpty();
    } else {
      var s := q + "/" + n;
      CleanElements(s);
      assert s == q + ['/'] + n;
      SplitAround(q, n, '/');
      FoldSnoc(IsAbs(q), [], Split(q, '/'), n);
    }
  }

  lemma CleanExtends(x: string, y: string, n: string)
    requires Extends(x, y, n)
    ensures Extends(Clean(x), Clean(y), n)
  {
    CleanElements(x);
    CleanElements(y);
  }

  /** Joining a base onto both sides of a relative extension keeps it. */
  lemma JoinBaseExtends(b: string, x: string, y: string, n: string)
    requires Extends(x, y, n) && !IsAbs(x) && IsName(n)
    ensures Extends(Join(b, x), Join(b, y), n)
  {
    ElementsOfEmpty();
    if b == "" {
      if x == "" {
        CleanElements(y);
      } else {
        CleanExtends(x, y, n);
      }
    } else {
      var r := IsAbs(b);
      var st := Elements(b);
      var bx, bby := b + "/" + x, b + "/" + y;
      assert bx == b + ['/'] + x && bby == b + ['/'] + y;
      SplitAround(b, x, '/');
      SplitAround(b, y, '/');
      FoldAppend(r, [], Split(b, '/'), Split(x, '/'));
      FoldAppend(r, [], Split(b, '/'), Split(y, '/'));
      FoldOfUnrootedFold(r, st, Split(x, '/'));
      FoldOfUnrootedFold(r, st, Split(y, '/'));
      FoldSnoc(r, st, Elements(x), n);
      assert Extends(bx, bby, n);
      CleanExtends(bx, bby, n);
    }
  }

  /** How the wrapper resolves a name against its working directory
      (filesystem.go:97-101 and every method like it): an absolute name,
      or any name when the backend navigates directories itself, is passed
      on unchanged; a relative one becomes `Clean(Join(cwd, name))`. */
  function Resolve(backendNavigates: bool, cwd: string, name: string): (r: string)
    ensures IsAbs(r) <==> IsAbs(name) || (!backendNavigates && IsAbs(cwd))
    ensures !IsAbs(name) && !backendNavigates ==> Clean(r) == r
  {
    if !IsAbs(name) && !backendNavigates then
      var joined := if cwd != "" then cwd + "/" + name else name;
      assert cwd != "" ==> joined[0] == cwd[0];
      CleanElements(joined);
      CleanElements(Join(cwd, name));
      CleanIdempotent(Join(cwd, name));
      Clean(Join(cwd, name))
    else
      name
  }

  /** Against an absolute working directory, a relative name resolves to
      a clean absolute path: the name's elements applied, `..` by `..`,
      to the directory's own. */
  lemma ResolveRelative(cwd: string, name: string)
    requires IsAbs(cwd) && !IsAbs(name)
    ensures var r := Resolve(false, cwd, name);
      IsAbs(r) && Clean(r) == r && Elements(r) == Fold(true, Elements(cwd), Split(name, '/'))
  {
    var p := cwd + "/" + name;
    assert p == cwd + ['/'] + name;
    SplitAround(cwd, name, '/');
    FoldAppend(true, [], Split(cwd, '/'), Split(name, '/'));
    assert IsAbs(p);
    CleanElements(p);
    CleanIdempotent(p);
  }

  /** Resolution keeps a one-name extension: resolving `Join(p, n)` reaches
      one element deeper than resolving `p`. */
  lemma ResolveExtends(nav: bool, cwd: string, x: string, y: string, n: string)
    requires Extends(x, y, n) && IsName(n)
    ensures Extends(Resolve(nav, cwd, x), Resolve(nav, cwd, y), n)
  {
    if !IsAbs(x) && !nav {
      JoinBaseExtends(cwd, x, y, n);
      CleanExtends(Join(cwd, x), Join(cwd, y), n);
    }
  }

  /** A relative name resolves the same against a working directory and
      against its cleaned form. */
  lemma ResolveAgainstCleanedCwd(cwd: string, p: string)
    requires !IsAbs(p)
    ensures Clean(Join(Clean(cwd), p)) == Clean(Join(cwd, p))
  {
    var c := Clean(cwd);
    CleanNonEmpty(cwd);
    CleanElements(cwd);
    var cp := c + "/" + p;
    assert cp == c + ['/'] + p;
    SplitAround(c, p, '/');
    FoldAppend(IsAbs(cwd), [], Split(c, '/'), Split(p, '/'));
    CleanIdempotent(cp);
    if cwd != "" {
      var dp := cwd + "/" + p;
      assert dp == cwd + ['/'] + p;
      SplitAround(cwd, p, '/');
      FoldAppend(IsAbs(cwd), [], Split(cwd, '/'), Split(p, '/'));
      assert Elements(cp) == Elements(dp);
      CleanIdempotent(dp);
    } else {
      assert Elements(cwd) == [];
      assert Split(c, '/') == ["."];
      if p != "" {
        CleanIdempotent(p);
        assert Elements(cp) == Fold(false, [], Split(p, '/'));
      } else {
        assert Split(p, '/') == [""];
      }
    }
  }

  /** Joining a plain name onto a rendered rooted stack renders the longer
      stack. */
  lemma JoinRenderedChild(n: seq<string>, e: string)
    requires Normal(true, n) && IsName(e)
    ensures Join(Render(true, n), e) == Render(true, n + [e])
  {
    var p := Render(true, n);
    RenderElements(true, n);
    JoinExtends(p, e);
    var q := Join(p, e);
    assert Join(p, e) == Clean(p + "/" + e);
    CleanElements(p + "/" + e);
    assert Normal(true, n + [e]);
  }
}
