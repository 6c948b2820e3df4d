/** One run of the program (`main` in src/main.rs): show the help, fail,
    or append the line to the targeted rc files.

    The environment (`HOME`, `SHELL`), the executable search of `find_it`
    and the filesystem are inputs; the run's effect on the files is its
    result.  Every failure the model can reach happens before the first
    write, so a failed run leaves every file as it was.
 */
module Srap {
  import opened Faults
  import opened Text
  import opened Args
  import opened LineBuild
  import opened Targets
  import opened Effects

  /** The environment variables a run reads. */
  datatype Env = Env(home: Option<string>, shell: Option<string>)

  /** What a run does: print the help, stop on a fault, or finish with the
      files in their new state. */
  datatype Outcome = Help | Failed(fault: Fault) | Done(files: FileMap)

  /** The decision `main` takes before touching any file. */
  datatype Plan = ShowHelp | Abort(fault: Fault) | Append(config: SrapConfig, line: string)

  /** No tokens, or a help flag anywhere among them. */
  predicate AsksForHelp(args: seq<string>) {
    |args| == 0 || "-h" in args || "--help" in args
  }

  /** Every token left after parsing begins with a dash. */
  predicate OnlyDashed(tokens: seq<string>) {
    forall k :: 0 <= k < |tokens| ==> StartsWith(tokens[k], "-")
  }

  /** Help check, parsing, line assembly and alias quoting. */
  function PlanRun(args: seq<string>): (p: Plan)
    ensures p.ShowHelp? <==>
              AsksForHelp(args) || (ParseArgs(args).Ok? && OnlyDashed(ParseArgs(args).value.rest))
    ensures p.Abort? ==> !AsksForHelp(args)
    ensures p.Abort? && ParseArgs(args).Ok? ==> p.fault.QuoteOffsetOutOfRange?
    ensures p.Append? ==> !AsksForHelp(args) && ParseArgs(args).Ok? && p.config == ParseArgs(args).value.config
    ensures p.Append? ==> exists i :: IsFirst(ParseArgs(args).value.rest, Undashed, i)
                                   && AutoQuote("\n" + Join(" ", ParseArgs(args).value.rest[i..])) == Ok(p.line)
    // a parse failure aborts the run with the parser's own fault
    ensures !AsksForHelp(args) && ParseArgs(args).Err? ==> p == Abort(ParseArgs(args).fault)
    // otherwise the line from the first undashed token on is quoted and planned
    ensures forall i :: !AsksForHelp(args) && ParseArgs(args).Ok? && IsFirst(ParseArgs(args).value.rest, Undashed, i) ==>
              var quoted := AutoQuote("\n" + Join(" ", ParseArgs(args).value.rest[i..]));
              && (quoted.Ok? ==> p == Append(ParseArgs(args).value.config, quoted.value))
              && (quoted.Err? ==> p == Abort(quoted.fault))
  {
    if AsksForHelp(args) then ShowHelp
    else match ParseArgs(args)
      case Err(f) => Abort(f)
      case Ok(parsed) =>
        match AssembleLine(parsed.rest)
        case None => ShowHelp
        case Some(raw) =>
          match AutoQuote(raw)
          case Err(f) => Abort(f)
          case Ok(line) => Append(parsed.config, line)
  }

  /** The whole run. */
  function Run(args: seq<string>, env: Env, findIt: string -> string, fs: FileMap): (o: Outcome)
    ensures o.Help? <==> PlanRun(args).ShowHelp?
    ensures o.Done? ==> o.files.Keys == fs.Keys
    ensures PlanRun(args).Abort? ==> o == Failed(PlanRun(args).fault)
    ensures PlanRun(args).Append? ==> o == Execute(PlanRun(args).config, PlanRun(args).line, env, findIt, fs)
  {
    match PlanRun(args)
    case ShowHelp => Help
    case Abort(f) => Failed(f)
    case Append(config, line) => Execute(config, line, env, findIt, fs)
  }

  /** The part of the run after the plan: choose the targets and append
      the line to them.  A dry run and an unset `SHELL` outside all-mode
      both leave every file as it was. */
  function Execute(config: SrapConfig, line: string, env: Env, findIt: string -> string, fs: FileMap): (o: Outcome)
    ensures !o.Help?
    ensures o.Done? ==> o.files.Keys == fs.Keys
    ensures o.Done? && config.dryrun ==> o.files == fs
    ensures config.all ==> o.Done?
    ensures !config.all && env.shell.None? ==> o == Failed(ShellUnset)
    // single-target mode: a selection failure is the run's failure; the
    // selected file must exist and is the only one that gains the line
    ensures var target := SingleTarget(config.file, env.shell, HomeDir(env.home), findIt);
            && (!config.all && target.Err? ==> o == Failed(target.fault))
            && (!config.all && target.Ok? ==>
                  o == if target.value !in fs then Failed(Unreadable(target.value))
                       else Done(if config.dryrun then fs else fs[target.value := fs[target.value] + line]))
  {
    var home := HomeDir(env.home);
    if config.all then
      Done(AppendEach(ExpandAll(AllCandidates(config.file), home), fs, line, config.dryrun))
    else
      match SingleTarget(config.file, env.shell, home, findIt)
      case Err(f) => Failed(f)
      case Ok(path) =>
        match AppendOne(path, fs, line, config.dryrun)
        case Err(f) => Failed(f)
        case Ok(files) => Done(files)
  }

  /** A dry run (`-d`/`--dry-run` anywhere among the tokens) changes no file. */
  lemma RunDryRunWritesNothing(args: seq<string>, env: Env, findIt: string -> string, fs: FileMap)
    requires "-d" in args || "--dry-run" in args
    ensures Run(args, env, findIt, fs).Done? ==> Run(args, env, findIt, fs).files == fs
  {
    var p := PlanRun(args);
    if p.Append? {
      assert p.config.dryrun;
      assert Run(args, env, findIt, fs) == Execute(p.config, p.line, env, findIt, fs);
    }
  }

  /** Without all-mode, an unset `SHELL` is fatal: the run shows the help
      or fails, and never writes a file. */
  lemma RunShellUnsetWritesNothing(args: seq<string>, home: Option<string>, findIt: string -> string, fs: FileMap)
    requires !("-a" in args || "--all" in args)
    ensures !Run(args, Env(home, None), findIt, fs).Done?
  {
    if PlanRun(args).Append? {
      assert !PlanRun(args).config.all;
    }
  }

  /** After the plan, appending never rewrites what was there. */
  lemma ExecuteAppendOnly(config: SrapConfig, line: string, env: Env, findIt: string -> string, fs: FileMap)
    requires Execute(config, line, env, findIt, fs).Done?
    ensures forall k :: k in fs ==> StartsWith(Execute(config, line, env, findIt, fs).files[k], fs[k])
  {
    var files := Execute(config, line, env, findIt, fs).files;
    forall k | k in fs
      ensures StartsWith(files[k], fs[k])
    {
      if files[k] == fs[k] {
        StartsWithConcat(fs[k], "");
        assert fs[k] + "" == fs[k];
      } else if config.all {
        var targets := ExpandAll(AllCandidates(config.file), HomeDir(env.home));
        StartsWithConcat(fs[k], Repeat(line, multiset(targets)[k]));
      } else {
        StartsWithConcat(fs[k], line);
      }
    }
  }

  /** Appending never rewrites what was there: every file's new contents
      begin with its old contents. */
  lemma RunAppendOnly(args: seq<string>, env: Env, findIt: string -> string, fs: FileMap)
    ensures Run(args, env, findIt, fs).Done? ==>
              forall k :: k in fs ==> StartsWith(Run(args, env, findIt, fs).files[k], fs[k])
  {
    var p := PlanRun(args);
    if p.Append? {
      assert Run(args, env, findIt, fs) == Execute(p.config, p.line, env, findIt, fs);
      if Execute(p.config, p.line, env, findIt, fs).Done? {
        ExecuteAppendOnly(p.config, p.line, env, findIt, fs);
      }
    }
  }

  /** An all-mode step always finishes: a dry run leaves every file as it
      was, and otherwise each existing candidate gains the line once per
      time it is listed while every other file keeps its contents. */
  lemma ExecuteAllMode(config: SrapConfig, line: string, env: Env, findIt: string -> string, fs: FileMap)
    requires config.all
    ensures var targets := ExpandAll(AllCandidates(config.file), HomeDir(env.home));
            && Execute(config, line, env, findIt, fs).Done?
            && forall k :: k in fs ==>
                 Execute(config, line, env, findIt, fs).files[k]
                 == if config.dryrun then fs[k] else fs[k] + Repeat(line, multiset(targets)[k])
  {
  }

  /** A planned all-mode run always finishes: a dry run leaves every file
      as it was, and otherwise each existing candidate gains the planned
      line once per time it is listed. */
  lemma RunAllMode(args: seq<string>, env: Env, findIt: string -> string, fs: FileMap)
    ensures var p := PlanRun(args);
            p.Append? && p.config.all ==>
              var targets := ExpandAll(AllCandidates(p.config.file), HomeDir(env.home));
              && Run(args, env, findIt, fs).Done?
              && forall k :: k in fs ==>
                   Run(args, env, findIt, fs).files[k]
                   == if p.config.dryrun then fs[k] else fs[k] + Repeat(p.line, multiset(targets)[k])
  {
    var p := PlanRun(args);
    if p.Append? && p.config.all {
      assert Run(args, env, findIt, fs) == Execute(p.config, p.line, env, findIt, fs);
      ExecuteAllMode(p.config, p.line, env, findIt, fs);
    }
  }

  /** In single-target mode, a step that is not a dry run appends the
      line to the selected file when it exists, and fails otherwise. */
  lemma ExecuteSingleTarget(config: SrapConfig, line: string, env: Env, findIt: string -> string, fs: FileMap)
    requires !config.all && !config.dryrun
    ensures var target := SingleTarget(config.file, env.shell, HomeDir(env.home), findIt);
            && (target.Err? ==> Execute(config, line, env, findIt, fs) == Failed(target.fault))
            && (target.Ok? && target.value !in fs ==>
                  Execute(config, line, env, findIt, fs) == Failed(Unreadable(target.value)))
            && (target.Ok? && target.value in fs ==>
                  Execute(config, line, env, findIt, fs) == Done(fs[target.value := fs[target.value] + line]))
  {
  }

  /** In single-target mode, a run that is not a dry run appends the
      planned line to the selected file when it exists, changing nothing
      else, and fails when no file is selected or the selected one is
      missing. */
  lemma RunSingleTarget(args: seq<string>, env: Env, findIt: string -> string, fs: FileMap)
    ensures var p := PlanRun(args);
            p.Append? && !p.config.all && !p.config.dryrun ==>
              var target := SingleTarget(p.config.file, env.shell, HomeDir(env.home), findIt);
              && (target.Err? ==> Run(args, env, findIt, fs) == Failed(target.fault))
              && (target.Ok? && target.value !in fs ==>
                    Run(args, env, findIt, fs) == Failed(Unreadable(target.value)))
              && (target.Ok? && target.value in fs ==>
                    Run(args, env, findIt, fs) == Done(fs[target.value := fs[target.value] + p.line]))
  {
    var p := PlanRun(args);
    if p.Append? && !p.config.all && !p.config.dryrun {
      ExecuteSingleTarget(p.config, p.line, env, findIt, fs);
    }
  }
}
