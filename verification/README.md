# srap — the Shell Rc APpender, modelled in Dafny

`srap` appends one line of text to shell startup files. It takes the
command-line tokens and turns them into a configuration (`-a/--all`,
`-d/--dry-run`, `-f/--file <name>`, `-n/--no-color`, `-v/--verbose`). It
builds the line from the first token that does not start with a dash,
auto-quotes simple `alias name=value` lines, and picks its targets. With
`--all` the targets are the bash, zsh, nsh and ksh rc files plus the explicit
file. Otherwise the target is the explicit file or the rc file of the shell
named by `SHELL`. It then appends the line to each target unless it is
dry-running.

The model is pure and functional:

- `faults.dfy` (`Faults`): `Option`, `Result` and one `Fault` per panic of the program.
- `text.dfy` (`Text`): the string operations the program uses from Rust's standard
  library: `contains`, `find`, `starts_with`, `position`, `join` and `replace`. Each
  comes with a declarative counterpart or an inverse: substring occurrence, `Split`,
  `Erase`.
- `args.dfy` (`Args`): `SrapConfig`, `new_default` and `parse_args`.
- `line.dfy` (`LineBuild`): the line to append and the alias auto-quoting.
- `targets.dfy` (`Targets`): the all-mode candidate list, `~` expansion, and the
  shell table of single-target mode.
- `effects.dfy` (`Effects`): the append step. The filesystem is a
  `map<string, string>`, and a path is a key exactly when it is a readable file.
- `srap.dfy` (`Srap`): `main` as `PlanRun` (everything before the first file
  access), `Execute` (the file step that follows) and `Run` (the whole run, returning `Help`, `Failed(fault)` or
  `Done(files)`).

`HOME` and `SHELL` are `Option<string>` inputs. `find_it`, which searches `PATH`
for an executable, is a function parameter `findIt: string -> string`.

Behaviour modelled as the code has it, where a plain reading of the tool's
description would suggest otherwise:

- Only the token after the filename flag is removed. The flag itself stays among
  the tokens. The flag is located as the first token that merely contains `-f`,
  so an earlier token such as `my-file` is taken for it (`Args.ExampleSubstringMatch`).
- `--no-color` is looked for after the filename was removed. The other switches
  are looked for in the original tokens.
- Shell detection compares `SHELL` for equality with `find_it(name)`, not by
  substring. Shells are tried in the order zsh, bash, nsh, ksh, fish, ion, tcsh.
- `replace("~", home)` replaces every `~`, not only a leading one. In
  single-target mode this also applies to an explicit file.
- In single-target mode `SHELL` is read first, so it is required even when
  `--file` is given.
- When an alias line has no `=`, the opening quote goes at the fixed offset 1993.
  A shorter line makes `String::insert` panic (`QuoteOffsetOutOfRange`).
- In all-mode a path listed twice gets the line twice. For example, `--file`
  may name `~/.bashrc`, and the second visit reads the already-written file.

## Model

| member | source | states |
|---|---|---|
| Args.NewDefault | src/main.rs:31-35 | the default configuration has every switch off and an empty file name |
| Args.ParseArgs | src/main.rs:39-74 | `all`, `dryrun` and `verbose` are set exactly when their flags occur in the input; `nocolor` is set exactly when `-n`/`--no-color` occurs after the removal; without `-f`/`--file` the tokens are unchanged and the file is empty; otherwise, for the first token containing `-f` at index i, failure happens exactly when i+1 is the length, and on success the file is token i+1 and the remaining tokens are the input without exactly that token |
| Args.FileFlagLocated | src/main.rs:54-59 | whenever `-f` or `--file` is present the `-f`-substring search succeeds, so the "You must provide a filename!" arm is unreachable |
| Args.RemovesOnlyFilename | src/main.rs:56-64 | parsing with a filename flag shrinks the token list by one, and the remaining tokens plus the file form the original multiset of tokens |
| Args.ExampleFileFlagKept | src/main.rs:54-64 | `-f myfile.txt echo hi` yields file `myfile.txt` and tokens `-f echo hi` |
| Args.ExampleSubstringMatch | src/main.rs:56-63 | in `my-file -f x` the first token is taken for the flag, so the file is `-f` |
| Text.ContainsIff | src/main.rs:149 | the scanning substring test holds exactly when the pattern occurs at some position |
| Text.IndexOf | src/main.rs:150 | `find` returns the first position of the character, and nothing exactly when it is absent |
| Text.FirstIndex | src/main.rs:136-139 | `position` returns the first index whose element satisfies the test, and nothing exactly when none does |
| Text.Join | src/main.rs:143 | a joined list begins with its first element and its length is the total length plus one separator between each pair of elements |
| Text.SplitJoin | src/main.rs:143 | splitting a space-joined list of space-free tokens at spaces gives the tokens back |
| Text.ReplaceAllConcat | src/main.rs:173 | `~` replacement distributes over concatenation |
| LineBuild.AssembleLine | src/main.rs:136-146 | there is no line exactly when every remaining token starts with a dash; otherwise the line is a newline followed by the space-join of all tokens from the first undashed one to the end |
| LineBuild.LineRecoversTokens | src/main.rs:136-143 | the line starts with a newline, and for space-free tokens the rest of it splits back into exactly the tokens from the first undashed one on, dashed ones included |
| LineBuild.QuoteAt | src/main.rs:151-152 | the two insertions put a quote before the given position and one at the end |
| LineBuild.AutoQuote | src/main.rs:149-153 | a line without `alias`, or one that already has a `"`, is unchanged; otherwise the first `=` is followed by a quote and the line ends with a quote; without `=` the quote goes at offset 1993, and the insertion fails exactly when the line is shorter than that, with the out-of-range fault naming the offset and the line length |
| LineBuild.QuoteAtCount | src/main.rs:151-152 | quoting a quote-free line yields exactly two quotes |
| LineBuild.QuoteAtErase | src/main.rs:151-152 | deleting the quotes from a quoted quote-free line gives the line back |
| LineBuild.QuotedShape | src/main.rs:149-153 | a successful auto-quote grows the line by two, holds exactly two quotes, ends with a quote, and erasing the quotes restores the line |
| LineBuild.ExampleAliasQuoted | src/main.rs:149-153 | `alias ll=ls` becomes `alias ll="ls"` |
| LineBuild.AliasQuotedAt | src/main.rs:149-153 | any line equal to `alias ll=ls` is quoted as `alias ll="ls"` |
| Targets.AllCandidates | src/main.rs:159-164 | the candidates are `~/.bashrc`, `~/.zshrc`, `~/.nshrc`, `~/.kshrc` in that order, followed by the explicit file exactly when it is non-empty |
| Targets.HomeDir | src/main.rs:167-170 | the home directory is `HOME`, or the empty string when it is unset |
| Targets.ExpandEveryTilde | src/main.rs:173 | every `~` in a path, wherever it stands, becomes the home directory |
| Targets.ExpandHomeTildeFree | src/main.rs:173 | a path without `~` is unchanged, and no `~` survives when the home directory has none |
| Targets.ExpandLeadingTilde | src/main.rs:173 | `~` followed by a `~`-free rest expands to the home directory followed by that rest |
| Targets.ExpandAll | src/main.rs:172-173 | each candidate is expanded in place and the order is kept |
| Targets.PosixRcFilesShape | src/main.rs:159-162 | each fixed rc file is `~` followed by a `~`-free name |
| Targets.AllTargets | src/main.rs:159-173 | the expanded all-mode targets are HOME`/.bashrc`, HOME`/.zshrc`, HOME`/.nshrc`, HOME`/.kshrc`, then the expanded explicit file |
| Targets.ShellPathIn | src/main.rs:227-243 | the chosen rc path belongs to the first table entry whose executable equals `SHELL`, and there is none exactly when no entry's executable equals it |
| Targets.SingleTarget | src/main.rs:210-244 | an unset `SHELL` fails even when a file is given; a non-empty file is used with `~` expanded; otherwise the first matching shell's rc path is used, and when no shell matches the run fails as unsupported |
| Targets.EmptyShellSelectsZsh | src/main.rs:227-228 | when zsh is not on the search path an empty `SHELL` equals the empty lookup result and selects the zsh rc file |
| Targets.PathMismatchUnsupported | src/main.rs:227-242 | a `SHELL` under `/bin/` is unsupported when every lookup yields a path under `/usr/`, even if it names the same shell |
| Effects.AppendEach | src/main.rs:172-207 | no file is created or deleted; a dry run leaves every file as it was; otherwise each file gets the line appended once per time its path string is listed, and unlisted or missing paths are skipped |
| Effects.AppendEachStep | src/main.rs:172-207 | one loop iteration followed by the rest of the loop appends the line once per listing of each file |
| Effects.AppendEachFrame | src/main.rs:172-207 | a file whose path is not listed keeps its contents |
| Effects.AppendEachOnce | src/main.rs:186-206 | a file listed once ends up as its old contents followed by the line |
| Effects.AppendOne | src/main.rs:248-266 | a missing target fails as unreadable; otherwise no file other than the target changes, and the target gets the line appended unless dry-running |
| Srap.PlanRun | src/main.rs:117-155 | the run shows the help exactly when there are no tokens, a help flag occurs, or parsing succeeds and every remaining token starts with a dash; otherwise a parse failure aborts with the parser's fault, and for the first undashed token the line from it on is auto-quoted: a successful quoting is planned as an append with the parsed configuration, and a failed one aborts with the quoting fault |
| Srap.Run | src/main.rs:117-267 | the run shows the help exactly when the plan says so, an aborted plan fails with the plan's fault, a planned append runs the file step, and a finished run has the same set of files as before |
| Srap.Execute | src/main.rs:157-267 | after the plan no help is shown, no file is created or deleted, and a dry run leaves every file as it was; all-mode always finishes; outside all-mode a failed target selection (unset `SHELL`, unsupported shell) is the run's failure, a selected file that does not exist fails as unreadable, and otherwise exactly the selected file gains the line unless dry-running |
| Srap.ExecuteAppendOnly | src/main.rs:157-267 | after the plan every file's new contents begin with its old contents |
| Srap.ExecuteAllMode | src/main.rs:157-207 | an all-mode step always finishes; a dry run leaves every file as it was, and otherwise each existing file gets the line once for each time it appears among the expanded candidates |
| Srap.ExecuteSingleTarget | src/main.rs:208-267 | outside all-mode and without dry run the step fails with the selection fault, fails as unreadable when the selected file is missing, and otherwise appends the line to the selected file and changes nothing else |
| Srap.RunDryRunWritesNothing | src/main.rs:200-206 | with `-d` or `--dry-run` among the tokens a finished run leaves every file as it was |
| Srap.RunShellUnsetWritesNothing | src/main.rs:208-213 | without all-mode an unset `SHELL` never lets the run finish with written files |
| Srap.RunAppendOnly | src/main.rs:198-198 | every file's new contents begin with its old contents |
| Srap.RunAllMode | src/main.rs:157-207 | a planned all-mode run always finishes; a dry run leaves every file as it was, and otherwise each existing file gets the planned line once for each time it appears among the expanded candidates |
| Srap.RunSingleTarget | src/main.rs:208-267 | for a planned append in single-target mode without dry run, the run fails with the selection fault, fails as unreadable when the selected file is missing, and otherwise appends the planned line to the selected file and changes nothing else |

## Left out

- `find_it` (src/main.rs:77-96) searches `PATH` on the real filesystem. It is the
  parameter `findIt`, so the model covers every possible search result.
- All printing is left out: the help text, colours, the dry-run notice, "not
  found" notices, verbose diagnostics and the final message. None of it changes
  state, so `nocolor` and `verbose` are parsed but used by nothing.
- `main` first drops the program name (`args.remove(0)`). The model takes the
  tokens after it. An empty argument vector would panic there and is not modelled.
- I/O failures on an existing file are not modelled: permissions, non-UTF-8
  contents, a directory in single-target mode, and a failed write. A key in the
  map is a readable regular file. So the model has no all-mode run that stops
  after some files were already written.
- Effects.AppendEach: paths are taken as canonical, one map key per file. The
  program works on files, and different strings can name the same file: a
  symlink such as `~/.zshrc` pointing at `~/.bashrc`, a `HOME` ending in `/`
  (`/home/u//.bashrc` next to `/home/u/.bashrc`), or a relative and an absolute
  spelling. In those cases the program appends twice to one file, while the
  model appends once to each of two independent keys. "Once per listing" holds
  per path string, not per file.
- An environment variable that is set but is not valid Unicode makes `env::var`
  fail. This is folded into "unset" (`None`).
- The "Please enter a line!" branch (src/main.rs:145) cannot be reached: the
  line index exists only when tokens remain. The model has no counterpart for it.
- LineBuild.AutoQuote: offsets are counted in characters, not UTF-8 bytes. With
  no `=`, a line holding non-ASCII characters compares its byte length, not its
  character count, against 1993. Such a line could also panic on a non-boundary
  offset. The model does not capture either effect.
