/** Which rc files a run targets: the fixed list of POSIX rc files in
    all-mode, the explicit file or the file of the detected shell in
    single-target mode, and the home-directory expansion of `~`.

    The program locates shells with `find_it`, which searches `PATH` on the
    real filesystem; here it is the parameter `findIt`.
 */
module Targets {
  import opened Faults
  import opened Text

  /** The rc files of bash, zsh, nsh and ksh, in the order all-mode visits them. */
  const PosixRcFiles: seq<string> := ["~/.bashrc", "~/.zshrc", "~/.nshrc", "~/.kshrc"]

  /** All-mode candidates: the POSIX rc files, then the explicit file if one was given. */
  function AllCandidates(file: string): (r: seq<string>)
    ensures |r| == |PosixRcFiles| + (if file == "" then 0 else 1)
    ensures forall k :: 0 <= k < |PosixRcFiles| ==> r[k] == PosixRcFiles[k]
    ensures file != "" ==> r[|PosixRcFiles|] == file
  {
    PosixRcFiles + (if file == "" then [] else [file])
  }

  /** The value of `HOME`, or the empty string when it is unset. */
  function HomeDir(home: Option<string>): (r: string)
    ensures home.Some? ==> r == home.value
    ensures home.None? ==> r == ""
  {
    match home
    case Some(h) => h
    case None => ""
  }

  /** `path.replace("~", home)`: every `~`, not only a leading one. */
  function ExpandHome(path: string, home: string): string {
    ReplaceAll(path, '~', home)
  }

  /** Expansion replaces each `~` wherever it stands: a path cut at any `~`
      expands piecewise, the `~` itself becoming the home directory. */
  lemma {:induction false} ExpandEveryTilde(a: string, b: string, home: string)
    ensures ExpandHome(a + "~" + b, home) == ExpandHome(a, home) + home + ExpandHome(b, home)
  {
    ReplaceAllConcat(a + "~", b, '~', home);
    ReplaceAllConcat(a, "~", '~', home);
    assert ReplaceAll("~", '~', home) == home + ReplaceAll("", '~', home);
  }

  /** Expansion leaves a path without `~` alone, and leaves no `~` behind
      when the home directory holds none. */
  lemma ExpandHomeTildeFree(path: string, home: string)
    ensures '~' !in path ==> ExpandHome(path, home) == path
    ensures '~' !in home ==> '~' !in ExpandHome(path, home)
  {
    if '~' !in path {
      ReplaceAllAbsent(path, '~', home);
    }
    if '~' !in home {
      ReplaceAllRemoves(path, '~', home);
    }
  }

  /** A path that starts with its only `~` expands to the home directory
      followed by the rest of the path. */
  lemma ExpandLeadingTilde(rest: string, home: string)
    requires '~' !in rest
    ensures ExpandHome("~" + rest, home) == home + rest
  {
    ExpandEveryTilde("", rest, home);
    ExpandHomeTildeFree(rest, home);
    assert "" + "~" + rest == "~" + rest;
  }

  /** Every candidate expanded. */
  function ExpandAll(paths: seq<string>, home: string): (r: seq<string>)
    ensures |r| == |paths|
    ensures forall k :: 0 <= k < |paths| ==> r[k] == ExpandHome(paths[k], home)
  {
    if |paths| == 0 then [] else [ExpandHome(paths[0], home)] + ExpandAll(paths[1..], home)
  }

  /** Each fixed rc file is `~` followed by a name without `~`. */
  lemma PosixRcFilesShape()
    ensures PosixRcFiles[0] == "~" + "/.bashrc" && '~' !in "/.bashrc"
    ensures PosixRcFiles[1] == "~" + "/.zshrc" && '~' !in "/.zshrc"
    ensures PosixRcFiles[2] == "~" + "/.nshrc" && '~' !in "/.nshrc"
    ensures PosixRcFiles[3] == "~" + "/.kshrc" && '~' !in "/.kshrc"
  {
  }

  /** All-mode targets: the four POSIX rc files inside the home directory,
      in order, then the explicit file with its own `~` expanded. */
  lemma AllTargets(file: string, home: string)
    ensures var t := ExpandAll(AllCandidates(file), home);
            && |t| == |PosixRcFiles| + (if file == "" then 0 else 1)
            && t[0] == home + "/.bashrc" && t[1] == home + "/.zshrc"
            && t[2] == home + "/.nshrc" && t[3] == home + "/.kshrc"
            && (file != "" ==> t[|PosixRcFiles|] == ExpandHome(file, home))
  {
    PosixRcFilesShape();
    ExpandLeadingTilde("/.bashrc", home);
    ExpandLeadingTilde("/.zshrc", home);
    ExpandLeadingTilde("/.nshrc", home);
    ExpandLeadingTilde("/.kshrc", home);
  }

  /** Shell executable name and the rc path it selects, in the order the
      program tries them.  The ion path is relative to the working
      directory, not to the home directory. */
  const ShellTable: seq<(string, string)> := [
    ("zsh", "~/.zshrc"),
    ("bash", "~/.bashrc"),
    ("nsh", "~/.nshrc"),
    ("ksh", "~/.kshrc"),
    ("fish", "~/.config/fish/config.fish"),
    ("ion", ".config/ion/initrc"),
    ("tcsh", "~/.cshrc")
  ]

  /** The rc path of the first table entry whose executable, as `findIt`
      resolves it, is exactly `shell`. */
  function ShellPathIn(table: seq<(string, string)>, shell: string, findIt: string -> string): (r: Option<string>)
    ensures r.None? <==> forall k :: 0 <= k < |table| ==> findIt(table[k].0) != shell
    ensures r.Some? ==> exists k :: 0 <= k < |table| && findIt(table[k].0) == shell && r.value == table[k].1
                                  && forall j :: 0 <= j < k ==> findIt(table[j].0) != shell
  {
    if |table| == 0 then None
    else if findIt(table[0].0) == shell then
      Some(table[0].1)
    else
      match ShellPathIn(table[1..], shell, findIt)
      case None => None
      case Some(p) =>
        var k :| 0 <= k < |table[1..]| && findIt(table[1..][k].0) == shell && p == table[1..][k].1
                 && forall j :: 0 <= j < k ==> findIt(table[1..][j].0) != shell;
        assert findIt(table[k + 1].0) == shell && p == table[k + 1].1
               && forall j :: 0 <= j < k + 1 ==> findIt(table[j].0) != shell;
        Some(p)
  }

  /** Single-target mode: `SHELL` must be set (even when a file was given);
      a non-empty explicit file wins; otherwise the shell table decides.
      The chosen path has its `~` expanded. */
  function SingleTarget(file: string, shell: Option<string>, home: string, findIt: string -> string): (r: Result<string>)
    ensures shell.None? ==> r == Err(ShellUnset)
    ensures shell.Some? && file != "" ==> r == Ok(ExpandHome(file, home))
    ensures shell.Some? && file == "" ==>
              (r.Err? <==> forall k :: 0 <= k < |ShellTable| ==> findIt(ShellTable[k].0) != shell.value)
    ensures shell.Some? && file == "" && r.Err? ==> r.fault == UnsupportedShell(shell.value)
    ensures shell.Some? && file == "" && r.Ok? ==>
              exists k :: 0 <= k < |ShellTable| && findIt(ShellTable[k].0) == shell.value
                       && r.value == ExpandHome(ShellTable[k].1, home)
                       && forall j :: 0 <= j < k ==> findIt(ShellTable[j].0) != shell.value
  {
    match shell
    case None => Err(ShellUnset)
    case Some(sh) =>
      if file != "" then Ok(ExpandHome(file, home))
      else
        match ShellPathIn(ShellTable, sh, findIt)
        case None => Err(UnsupportedShell(sh))
        case Some(p) => Ok(ExpandHome(p, home))
  }

  /** Matching is by equality with the resolved executable: when `zsh`
      is not on the search path `findIt` yields the empty string, so an
      empty `SHELL` selects the zsh rc file. */
  lemma EmptyShellSelectsZsh(findIt: string -> string, home: string)
    requires findIt("zsh") == ""
    ensures SingleTarget("", Some(""), home, findIt) == Ok(ExpandHome("~/.zshrc", home))
  {
    assert findIt(ShellTable[0].0) == "";
  }

  /** Strings with different prefixes differ. */
  lemma PrefixesDiffer(a: string, b: string)
    requires StartsWith(a, "/usr/") && StartsWith(b, "/bin/")
    ensures a != b
  {
    assert a[1] == "/usr/"[1];
    assert b[1] == "/bin/"[1];
  }

  /** Matching is by equality, not containment: a `SHELL` naming a shell by
      a path other than the one found on the search path is unsupported. */
  lemma PathMismatchUnsupported(findIt: string -> string, shell: string, home: string)
    requires forall name :: StartsWith(findIt(name), "/usr/")
    requires StartsWith(shell, "/bin/")
    ensures SingleTarget("", Some(shell), home, findIt) == Err(UnsupportedShell(shell))
  {
    forall k | 0 <= k < |ShellTable|
      ensures findIt(ShellTable[k].0) != shell
    {
      PrefixesDiffer(findIt(ShellTable[k].0), shell);
    }
  }
}
