/**
 * The image-tool runner: a small executable that loads the image tool's
 * library from its own directory (or by bare name), finds the tool's entry
 * point, and calls it with a command line whose program name is
 * `qemu-img`.
 *
 * `dirname` follows the C library of the target (musl), which implements
 * the POSIX `dirname()` rules.
 */
module QemuRunner {
  import opened Base

  const ImgLibrary := "libqemu-img.so"
  const ToolName := "qemu-img"

  // ---------------------------------------------------------------------
  // dirname

  /** The string without its trailing slashes. */
  function StripSlashes(s: string): (t: string)
    ensures |t| <= |s| && t == s[..|t|]
    ensures t == [] || t[|t| - 1] != '/'
  {
    if s != [] && s[|s| - 1] == '/' then StripSlashes(s[..|s| - 1]) else s
  }

  /** The string without its last path component (the trailing non-slash characters). */
  function StripName(s: string): (t: string)
    ensures |t| <= |s| && t == s[..|t|]
    ensures t == [] || t[|t| - 1] == '/'
  {
    if s != [] && s[|s| - 1] != '/' then StripName(s[..|s| - 1]) else s
  }

  /**
   * POSIX `dirname`: `.` for the empty string and for a bare name, `/` for
   * a string of slashes and for a name directly under the root, otherwise
   * the path without its last component and the slashes before it.
   */
  function DirnameSpec(s: string): string {
    if s == [] then "."
    else
      var a := StripSlashes(s);
      if a == [] then "/"
      else
        var b := StripName(a);
        if b == [] then "."
        else
          var c := StripSlashes(b);
          if c == [] then "/" else c
  }

  lemma StripSlashesStep(s: string, i: nat)
    requires i < |s| && s[i] == '/'
    ensures StripSlashes(s[..i + 1]) == StripSlashes(s[..i])
  {
    assert s[..i + 1][..i] == s[..i];
  }

  lemma StripNameStep(s: string, i: nat)
    requires i < |s| && s[i] != '/'
    ensures StripName(s[..i + 1]) == StripName(s[..i])
  {
    assert s[..i + 1][..i] == s[..i];
  }

  /**
   * Walks back from `i` over slashes. Either every character up to `i` is a
   * slash (`atStart`), or `j` is the last non-slash at or before `i`.
   */
  method BackOverSlashes(s: string, i: nat) returns (j: nat, atStart: bool)
    requires i < |s|
    ensures j <= i
    ensures atStart ==> StripSlashes(s[..i + 1]) == []
    ensures !atStart ==> s[j] != '/' && StripSlashes(s[..i + 1]) == s[..j + 1]
  {
    j := i;
    while s[j] == '/'
      invariant j <= i
      invariant StripSlashes(s[..i + 1]) == StripSlashes(s[..j + 1])
      decreases j
    {
      StripSlashesStep(s, j);
      if j == 0 {
        return 0, true;
      }
      j := j - 1;
    }
    atStart := false;
  }

  /**
   * Walks back from `i` over non-slashes. Either no character up to `i` is
   * a slash (`atStart`), or `j` is the last slash at or before `i`.
   */
  method BackOverName(s: string, i: nat) returns (j: nat, atStart: bool)
    requires i < |s|
    ensures j <= i
    ensures atStart ==> StripName(s[..i + 1]) == []
    ensures !atStart ==> s[j] == '/' && StripName(s[..i + 1]) == s[..j + 1]
  {
    j := i;
    while s[j] != '/'
      invariant j <= i
      invariant StripName(s[..i + 1]) == StripName(s[..j + 1])
      decreases j
    {
      StripNameStep(s, j);
      if j == 0 {
        return 0, true;
      }
      j := j - 1;
    }
    atStart := false;
  }

  /**
   * musl's `dirname`: walk back over trailing slashes, then over the last
   * name, then over the slashes before it, and cut the string there.
   */
  method Dirname(s: string) returns (d: string)
    ensures d == DirnameSpec(s)
  {
    if |s| == 0 {
      return ".";
    }
    assert s[..|s|] == s;
    var i, atStart := BackOverSlashes(s, |s| - 1);
    if atStart {
      return "/";
    }
    ghost var a := s[..i + 1];
    i, atStart := BackOverName(s, i);
    if atStart {
      return ".";
    }
    ghost var b := s[..i + 1];
    assert StripName(a) == b;
    i, atStart := BackOverSlashes(s, i);
    if atStart {
      return "/";
    }
    d := s[..i + 1];
  }

  lemma {:induction false} OnlySlashes(x: string)
    requires x != [] && StripSlashes(x) == []
    ensures x[0] == '/'
    decreases |x|
  {
    if |x| > 1 {
      OnlySlashes(x[..|x| - 1]);
    }
  }

  /** The directory name is never empty, and it is `.` or a prefix of the path. */
  lemma DirnameIsPrefix(s: string)
    ensures DirnameSpec(s) != []
    ensures DirnameSpec(s) == "." || (|DirnameSpec(s)| <= |s| && DirnameSpec(s) == s[..|DirnameSpec(s)|])
    ensures DirnameSpec(s) == "/" || DirnameSpec(s)[|DirnameSpec(s)| - 1] != '/'
  {
    if s != [] {
      var a := StripSlashes(s);
      if a == [] {
        OnlySlashes(s);
        assert s[..1] == "/";
      } else {
        var b := StripName(a);
        if b != [] {
          var c := StripSlashes(b);
          assert b == s[..|b|];
          if c == [] {
            OnlySlashes(b);
            assert s[..1] == "/";
          } else {
            assert c == s[..|c|];
          }
        }
      }
    }
  }

  lemma {:induction false} StripNameOfName(p: string, name: string)
    requires forall k :: 0 <= k < |name| ==> name[k] != '/'
    requires p == [] || p[|p| - 1] == '/'
    ensures StripName(p + name) == p
    decreases |name|
  {
    if name == [] {
      assert p + name == p;
    } else {
      var init := name[..|name| - 1];
      assert (p + name)[..|p + name| - 1] == p + init;
      StripNameOfName(p, init);
    }
  }

  /** Joining a directory and a file name and taking `dirname` gives the directory back. */
  lemma DirnameOfJoin(dir: string, name: string)
    requires dir != [] && dir[|dir| - 1] != '/'
    requires name != [] && forall k :: 0 <= k < |name| ==> name[k] != '/'
    ensures DirnameSpec(dir + "/" + name) == dir
  {
    var s := dir + "/" + name;
    assert StripSlashes(s) == s;
    StripNameOfName(dir + "/", name);
    assert (dir + "/")[..|dir|] == dir;
    assert StripSlashes(dir + "/") == StripSlashes(dir);
  }

  // ---------------------------------------------------------------------
  // main

  /**
   * The library path: next to the runner's own file when `dladdr` reports
   * it (`self`), else the bare name for the loader's search path.
   */
  function LibraryPath(self: Option<string>): string {
    match self
    case Some(path) => DirnameSpec(path) + "/" + ImgLibrary
    case None => ImgLibrary
  }

  /** When the runner's file is `dir/name`, the library is looked up as `dir/libqemu-img.so`. */
  lemma LibraryNextToRunner(dir: string, name: string)
    requires dir != [] && dir[|dir| - 1] != '/'
    requires name != [] && forall k :: 0 <= k < |name| ==> name[k] != '/'
    ensures LibraryPath(Some(dir + "/" + name)) == dir + "/" + ImgLibrary
  {
    DirnameOfJoin(dir, name);
  }

  /** The tool's command line: `qemu-img` in place of the runner's own name, then its arguments unchanged. */
  function ToolArgv(argv: seq<string>): seq<string> {
    [ToolName] + (if |argv| <= 1 then [] else argv[1..])
  }

  /** `qemu_argv`: built by `push_back`, `"qemu-img"` then `argv[1..argc)`. */
  method BuildToolArgv(argv: seq<string>) returns (toolArgv: seq<string>)
    ensures toolArgv == ToolArgv(argv)
  {
    toolArgv := [ToolName];
    var i := 1;
    while i < |argv|
      invariant 1 <= i <= Max(|argv|, 1)
      invariant |argv| <= 1 ==> toolArgv == [ToolName]
      invariant |argv| > 1 ==> toolArgv == [ToolName] + argv[1..i]
    {
      toolArgv := toolArgv + [argv[i]];
      i := i + 1;
    }
    if |argv| <= 1 {
      assert toolArgv == [ToolName];
    } else {
      assert argv[1..i] == argv[1..];
    }
  }

  /**
   * The tool's command line has `argc` entries (one, for an empty `argv`),
   * starts with `qemu-img`, and holds `argv[1..]` in order after it; the
   * runner's own name is not passed on.
   */
  lemma ToolArgvShape(argv: seq<string>)
    ensures |ToolArgv(argv)| == Max(|argv|, 1)
    ensures ToolArgv(argv)[0] == ToolName
    ensures forall i :: 1 <= i < |argv| ==> ToolArgv(argv)[i] == argv[i]
    ensures |argv| > 0 && argv[0] in ToolArgv(argv) ==> argv[0] == ToolName || argv[0] in argv[1..]
  {
    if |argv| > 0 && argv[0] in ToolArgv(argv) {
      var k :| 0 <= k < |ToolArgv(argv)| && ToolArgv(argv)[k] == argv[0];
      if k > 0 {
        assert argv[1..][k - 1] == argv[0];
      }
    }
  }

  /**
   * The loader the runner sees: `dlopen` succeeds for the paths in `libs`,
   * and `libs[path]` says whether `qemu_img_entry` is found in that library.
   * `dlerror` is the text `dlerror()` returns after the last failure.
   */
  datatype ImgLoader = ImgLoader(libs: map<string, bool>, dlerror: string)

  function LoadFailure(dlerror: string): string {
    "{\"error\": \"Failed to load libqemu-img.so: " + dlerror + "\"}\n"
  }

  const SymbolFailure := "{\"error\": \"Failed to find qemu_img_entry symbol\"}\n"

  /**
   * `main(argc, argv)`: try the library path, then the bare name once; on
   * a failed load or a missing entry symbol print a JSON error and return
   * 1; otherwise return what the entry point returns for the tool's
   * command line (`entry`, the library's function). `tried` lists the
   * paths passed to `dlopen`, in order.
   */
  method RunnerMain(argv: seq<string>, self: Option<string>, loader: ImgLoader, entry: seq<string> -> int)
    returns (exitCode: int, stderr: string, tried: seq<string>, toolArgv: Option<seq<string>>)
    ensures 1 <= |tried| <= 2 && tried[0] == LibraryPath(self)
    ensures tried == if LibraryPath(self) in loader.libs then [LibraryPath(self)] else [LibraryPath(self), ImgLibrary]
    ensures tried[|tried| - 1] !in loader.libs ==>
      exitCode == 1 && stderr == LoadFailure(loader.dlerror) && toolArgv == None
    ensures tried[|tried| - 1] in loader.libs && !loader.libs[tried[|tried| - 1]] ==>
      exitCode == 1 && stderr == SymbolFailure && toolArgv == None
    ensures tried[|tried| - 1] in loader.libs && loader.libs[tried[|tried| - 1]] ==>
      toolArgv == Some(ToolArgv(argv)) && exitCode == entry(ToolArgv(argv)) && stderr == ""
  {
    var libPath := ImgLibrary;
    if self.Some? {
      var dir := Dirname(self.value);
      libPath := dir + "/" + ImgLibrary;
    }
    tried := [libPath];
    var handle := libPath;
    if handle !in loader.libs {
      handle := ImgLibrary;
      tried := tried + [handle];
      if handle !in loader.libs {
        return 1, LoadFailure(loader.dlerror), tried, None;
      }
    }
    if !loader.libs[handle] {
      return 1, SymbolFailure, tried, None;
    }
    var args := BuildToolArgv(argv);
    return entry(args), "", tried, Some(args);
  }
}
