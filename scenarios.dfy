/** Concrete runs of the wrapper over a small backend with no optional
    interfaces: the situations the package's own tests set up
    (coverage_boost_test.go:117-135 and filesystem_test.go), with what the
    model says comes out. */
module Scenarios {
  import opened Common
  import opened Paths
  import opened Backends
  import opened FileSystems

  const NoCaps := Caps(false, false, false, false, false, false, false, false, false)
  const NoFaults := Faults({}, {}, {}, {}, {})

  /** `/` listing one plain file `f`. */
  const OneFile: map<string, Node> := map["/" := Node(true, [], ["f"]), "/f" := Node(false, [1, 2, 3], [])]

  /** `/` holding one empty directory `d`. */
  const OneDir: map<string, Node> := map["/" := Node(true, [], ["d"]), "/d" := Node(true, [], [])]

  lemma CleanOneFile()
    ensures Clean("/f") == "/f"
  {
    assert "/f"[1..] == "f" && "f"[1..] == "";
    SplitWithoutSeparator("f", '/');
    assert Split("/f", '/') == ["", "f"];
    assert Fold(true, [], ["", "f"]) == ["f"];
  }

  lemma CleanRoot()
    ensures Clean("/") == "/"
  {
    assert "/"[1..] == "";
    assert Split("/", '/') == ["", ""];
    assert Fold(true, [], ["", ""]) == [];
  }

  /** `RemoveAll("/f")` on a plain file: the file goes, but the call
      reports that `/f` does not exist, because the deferred removal finds
      it already removed. */
  method RemoveAllOnAFile() returns (err: Option<Error>, after: map<string, Node>)
    ensures err == Some(PathError("remove", "/f", NotExist)) && "/f" !in after && "/" in after
  {
    CleanOneFile();
    var filer := new Filer(NoCaps, NoFaults, '/', ':', "/tmp", OneFile);
    var fs := ExtendFiler(filer);
    assert fs.Resolved("/f") == "/f" && fs.OpenKey("/f") == "/f";
    ghost var failure, visited;
    err, failure, visited := fs.RemoveAll("/f");
    after := filer.store;
  }

  /** The corrected `RemoveAll("/f")` removes the file and reports
      success. */
  method RemoveAllIntendedOnAFile() returns (err: Option<Error>, after: map<string, Node>)
    ensures err == None && "/f" !in after && "/" in after
  {
    CleanOneFile();
    var filer := new Filer(NoCaps, NoFaults, '/', ':', "/tmp", OneFile);
    var fs := ExtendFiler(filer);
    assert fs.Resolved("/f") == "/f" && fs.OpenKey("/f") == "/f";
    ghost var failure, visited;
    err, failure, visited := fs.RemoveAllIntended("/f");
    after := filer.store;
  }

  /** `Truncate("/f", 2)` on a three-byte file: as written the file is
      emptied. */
  method TruncateToTwo() returns (err: Option<Error>, content: seq<byte>)
    ensures err == None && content == []
  {
    CleanOneFile();
    var filer := new Filer(NoCaps, NoFaults, '/', ':', "/tmp", OneFile);
    var fs := ExtendFiler(filer);
    err := fs.Truncate("/f", 2);
    content := filer.store["/f"].content;
  }

  /** The corrected `Truncate` keeps the first two bytes. */
  method TruncateIntendedToTwo() returns (err: Option<Error>, content: seq<byte>)
    ensures err == None && content == [1, 2]
  {
    CleanOneFile();
    var filer := new Filer(NoCaps, NoFaults, '/', ':', "/tmp", OneFile);
    var fs := ExtendFiler(filer);
    err := fs.TruncateIntended("/f", 2);
    assert [1, 2, 3][..2] == [1, 2];
    content := filer.store["/f"].content;
  }

  /** `Chdir` refuses a plain file and moves to a directory, after which
      `Getwd` reports it. */
  method ChdirAndGetwd() returns (fileErr: Option<Error>, stayed: string, dirErr: Option<Error>,
                                  dir: string, getwdErr: Option<Error>)
    ensures fileErr == Some(PathError("chdir", "/f", NotADirectory)) && stayed == "/"
    ensures dirErr == None && dir == "/" && getwdErr == None
  {
    CleanOneFile();
    CleanRoot();
    var filer := new Filer(NoCaps, NoFaults, '/', ':', "/tmp", OneFile);
    var fs := ExtendFiler(filer);
    fileErr := fs.Chdir("/f");
    stayed := fs.cwd;
    dirErr := fs.Chdir("/");
    dir, getwdErr := fs.Getwd();
  }

  lemma CleanDir()
    ensures Clean("d") == "d" && Clean("//d") == "/d" && Clean("/d") == "/d"
  {
    assert "d"[1..] == "" && "/d"[1..] == "d" && "//d"[1..] == "/d";
    SplitWithoutSeparator("d", '/');
    assert Split("/d", '/') == ["", "d"];
    assert Split("//d", '/') == ["", "", "d"];
    assert Fold(false, [], ["d"]) == ["d"];
    assert Fold(true, [], ["", "d"]) == ["d"];
    assert Fold(true, [], ["", "", "d"]) == ["d"];
  }

  /** Whatever the backend and the store, `removeAll("/a")` leaves a
      stored sibling `/b` in place. */
  lemma SiblingSurvives(fs: FS, before: map<string, Node>, after: map<string, Node>)
    requires fs.Within("/a", before, after) && "/b" in before
    ensures "/b" in after
  {
    assert "/a"[1..] == "a" && "/b"[1..] == "b";
    SplitWithoutSeparator("a", '/');
    SplitWithoutSeparator("b", '/');
    assert Split("/a", '/') == ["", "a"] && Split("/b", '/') == ["", "b"];
    assert Fold(true, [], ["", "a"]) == ["a"] && Fold(true, [], ["", "b"]) == ["b"];
    CleanElements("/a");
    assert fs.filer.Key("/a") == Clean("/a") && fs.Resolved("/a") == "/a";
    assert !Gone(before, after, "/b");
  }

  /** `Chdir("d")` from `/`: the directory `/d` is opened and checked, but
      as written the working directory becomes the relative `d`. */
  method ChdirRelative() returns (err: Option<Error>, dir: string)
    ensures err == None && dir == "d"
  {
    CleanDir();
    var filer := new Filer(NoCaps, NoFaults, '/', ':', "/tmp", OneDir);
    var fs := ExtendFiler(filer);
    assert "/" + "/" + "d" == "//d";
    assert fs.Resolved("d") == "/d" && fs.OpenKey("d") == "/d";
    err := fs.Chdir("d");
    dir := fs.cwd;
  }

  /** The corrected `Chdir` moves to `/d`. */
  method ChdirRelativeIntended() returns (err: Option<Error>, dir: string)
    ensures err == None && dir == "/d"
  {
    CleanDir();
    var filer := new Filer(NoCaps, NoFaults, '/', ':', "/tmp", OneDir);
    var fs := ExtendFiler(filer);
    assert "/" + "/" + "d" == "//d";
    assert fs.Resolved("d") == "/d" && fs.OpenKey("d") == "/d";
    err := fs.ChdirIntended("d");
    dir := fs.cwd;
  }
}
