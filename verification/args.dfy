/** The configuration record and the command-line parser (`SrapConfig`,
    `SrapConfig::new_default` and `parse_args` in src/main.rs).

    Flags are recognised by exact membership of the token list, except the
    filename, which is located by the first token that merely CONTAINS
    `-f`.  Only the token after it is removed: the flag token itself stays.
 */
module Args {
  import opened Faults
  import opened Text

  datatype SrapConfig = SrapConfig(all: bool, dryrun: bool, file: string, nocolor: bool, verbose: bool)

  /** Every switch off and no explicit file. */
  function NewDefault(): (c: SrapConfig)
    ensures !c.all && !c.dryrun && !c.nocolor && !c.verbose
    ensures c.file == ""
  {
    SrapConfig(false, false, "", false, false)
  }

  /** The configuration and the tokens that remain after parsing. */
  datatype Parsed = Parsed(config: SrapConfig, rest: seq<string>)

  /** The token list mentions either spelling of the filename flag. */
  predicate HasFileFlag(args: seq<string>) {
    "-f" in args || "--file" in args
  }

  /** The test `position` applies when looking for the filename flag. */
  predicate MentionsFileFlag(a: string) {
    Contains(a, "-f")
  }

  /** Both spellings of the filename flag contain `-f`, so whenever the
      flag is present the search for it succeeds: the `None` arm that
      panics with "You must provide a filename!" can never be taken. */
  lemma {:induction false} FileFlagLocated(args: seq<string>)
    requires HasFileFlag(args)
    ensures FirstIndex(args, MentionsFileFlag).Some?
  {
    var k :| 0 <= k < |args| && (args[k] == "-f" || args[k] == "--file");
    if args[k] == "-f" {
      assert StartsWith(args[k], "-f");
    } else {
      assert StartsWith(args[k][1..], "-f");
    }
    assert MentionsFileFlag(args[k]);
  }

  /** `parse_args`: the configuration and the token list after the
      filename has been removed. */
  function ParseArgs(args: seq<string>): (r: Result<Parsed>)
    // the three presence switches look at the original tokens
    ensures r.Ok? ==> r.value.config.all == ("-a" in args || "--all" in args)
    ensures r.Ok? ==> r.value.config.dryrun == ("-d" in args || "--dry-run" in args)
    ensures r.Ok? ==> r.value.config.verbose == ("-v" in args || "--verbose" in args)
    // `--no-color` is looked for only after the filename was removed
    ensures r.Ok? ==> r.value.config.nocolor == ("-n" in r.value.rest || "--no-color" in r.value.rest)
    // without a filename flag nothing is removed and the file stays empty
    ensures !HasFileFlag(args) ==> r.Ok? && r.value.rest == args && r.value.config.file == ""
    // with one, the token after the first token containing `-f` is the file
    ensures HasFileFlag(args) ==> exists i :: IsFirst(args, MentionsFileFlag, i)
    ensures forall i :: HasFileFlag(args) && IsFirst(args, MentionsFileFlag, i) ==>
              && (r.Err? <==> i + 1 == |args|)
              && (r.Err? ==> r.fault == FilenameMissing(i + 1))
              && (r.Ok? ==> (r.value.config.file == args[i + 1]
                             && r.value.rest == args[..i + 1] + args[i + 2..]))
  {
    var all := "-a" in args || "--all" in args;
    var dryrun := "-d" in args || "--dry-run" in args;
    var verbose := "-v" in args || "--verbose" in args;
    if !HasFileFlag(args) then
      var nocolor := "-n" in args || "--no-color" in args;
      Ok(Parsed(NewDefault().(all := all, dryrun := dryrun, nocolor := nocolor, verbose := verbose), args))
    else
      FileFlagLocated(args);
      var index := FirstIndex(args, MentionsFileFlag).value + 1;
      if index >= |args| then
        Err(FilenameMissing(index))
      else
        var rest := args[..index] + args[index + 1..];
        var nocolor := "-n" in rest || "--no-color" in rest;
        Ok(Parsed(NewDefault().(all := all, dryrun := dryrun, file := args[index], nocolor := nocolor, verbose := verbose), rest))
  }

  /** Removing the filename shrinks the list by exactly one token, and that
      token is the file: the remaining tokens plus the file are the input. */
  lemma RemovesOnlyFilename(args: seq<string>)
    requires HasFileFlag(args) && ParseArgs(args).Ok?
    ensures |ParseArgs(args).value.rest| + 1 == |args|
    ensures multiset(ParseArgs(args).value.rest) + multiset{ParseArgs(args).value.config.file} == multiset(args)
  {
    var i :| IsFirst(args, MentionsFileFlag, i);
    var p := ParseArgs(args).value;
    assert p.rest == args[..i + 1] + args[i + 2..];
    assert args == args[..i + 1] + [args[i + 1]] + args[i + 2..];
  }

  /** `-f myfile.txt echo hi`: the file is `myfile.txt` and the flag itself
      is left among the remaining tokens. */
  lemma ExampleFileFlagKept()
    ensures ParseArgs(["-f", "myfile.txt", "echo", "hi"])
         == Ok(Parsed(SrapConfig(false, false, "myfile.txt", false, false), ["-f", "echo", "hi"]))
  {
    var args := ["-f", "myfile.txt", "echo", "hi"];
    assert HasFileFlag(args) && IsFirst(args, MentionsFileFlag, 0) by {
      assert StartsWith(args[0], "-f");
    }
    assert args[..1] + args[2..] == ["-f", "echo", "hi"];
    assert !("-a" in args || "--all" in args || "-d" in args || "--dry-run" in args) by {
      assert "-a" != "-f" && "-d" != "-f" && "-a" != "hi" && "-d" != "hi";
    }
    assert !("-v" in args || "--verbose" in args) by {
      assert "-v" != "-f" && "-v" != "hi";
    }
    assert !("-n" in ["-f", "echo", "hi"] || "--no-color" in ["-f", "echo", "hi"]) by {
      assert "-n" != "-f" && "-n" != "hi";
    }
  }

  /** A token merely containing `-f` that precedes the real flag is taken
      for the flag: here `my-file` is, so the file becomes `-f` and `x`
      stays among the tokens. */
  lemma ExampleSubstringMatch()
    ensures ParseArgs(["my-file", "-f", "x"])
         == Ok(Parsed(SrapConfig(false, false, "-f", false, false), ["my-file", "x"]))
  {
    var args := ["my-file", "-f", "x"];
    assert HasFileFlag(args) && IsFirst(args, MentionsFileFlag, 0) by {
      assert StartsWith(args[0][2..], "-f");
      assert MentionsFileFlag(args[0]);
    }
    assert args[..1] + args[2..] == ["my-file", "x"];
    assert !("-a" in args || "--all" in args || "-d" in args || "--dry-run" in args) by {
      assert "-a" != "-f" && "-d" != "-f";
    }
    assert !("-v" in args || "--verbose" in args) by {
      assert "-v" != "-f";
    }
    assert !("-n" in ["my-file", "x"] || "--no-color" in ["my-file", "x"]);
  }
}
