# mollusk: the line pipeline of a minimal shell

mollusk is a small interactive Unix shell. For every input line it does
three things:

1. **Tokenize.** `get_command_tokens` turns the line into whitespace-separated
   tokens.
2. **Parse.** `parse_cmd_tokens` groups the tokens into a `CommandChain`.
   A chain has three parallel vectors: command names, chain operators
   (`&&`, `||`), and one argument list per command.
3. **Dispatch.** A `for` loop in `main` walks the commands in order. It
   handles the built-ins `exit` and `cd` itself and spawns every other
   command as a child process. After each external command it decides
   from the operator that follows whether to go on to the next command.

`cd` goes through `change_dir`. That function expands a leading `~` with the
value of `HOME` (read by `get_home_dir`) and calls `set_current_dir`.

The model is split into five modules, one per file:

| file | module | models |
|---|---|---|
| `wrappers.dfy` | `Wrappers` | `Option` and `Vec::get` |
| `tokenizer.dfy` | `Tokenizer` | `get_command_tokens` with Rust's `trim`, `split_whitespace` and `char::is_whitespace` |
| `chainparser.dfy` | `ChainParser` | `CommandChain` and `parse_cmd_tokens` |
| `builtins.dfy` | `Builtins` | `get_home_dir`, `change_dir`, and Unix `PathBuf::push` |
| `dispatch.dfy` | `Dispatch` | the per-line dispatch loop |

How each part is modelled:

- **Tokenizer.** Whitespace is the Unicode `White_Space` property, which is
  what `char::is_whitespace` tests. `split_whitespace` is written as Rust
  defines it: split at every whitespace character, then drop the empty
  pieces.
- **Parser.** The parser is a left fold of one `Step` per token. `Step`
  mirrors the body of the `while let` loop: four branches and a one-token
  lookback (`prev_token`).
- **Dispatch.** The loop is a pure recursion, `RunFrom`, over the command
  indices.
- **The operating system.** Everything the OS answers is an input, held in a
  `World` value:
  - the environment, as a map;
  - whether spawning command `i` succeeded;
  - the exit status `wait` reports;
  - whether `set_current_dir` on a path succeeded.
- **Results.** Spawns and `set_current_dir` calls come back as a list of
  `Effect`s; `wait` and the HOME lookup do not. A line
  ends in one of four ways:
  - `Finished`: back to the prompt;
  - `ShortCircuited`: back to the prompt;
  - `ExitRequested`: `return` from `main`;
  - `Panicked`: a Rust panic.

Every `Tokenizer` and `ChainParser` operation is paired with an independent
definition and a lemma connecting the two:

- **Tokenizer.**
  - `Visible` gives the non-whitespace characters and `Collapse` the
    whitespace-normalised line.
  - Joining the tokens with single spaces gives the normalised line.
  - Tokenizing such a join gives the words back.
- **Parser.**
  - `RoleAt` says, token by token, what the parser does with the token.
  - `Render` writes a chain back as tokens.
  - On well-formed lines, parsing and rendering undo each other.
  - On every line, each token lands in exactly one place.

The dispatch walk is characterised by where it can stop, by the calls it
makes, and by what it ignores.

The code has several behaviours a reader of a conventional shell would not
expect. The model keeps each of them as written:

- **`cd` does not look at the operator after it.** The `cd` arm never reads
  `operators[i]`, whether or not the directory change succeeded. A failed
  `cd` in `cd /nope && ls` still runs `ls` (`CdFallsThrough`,
  `BuiltinIgnoresOperator`).
- **`cd` with no argument panics.** The code indexes `args[0]` without a
  check, so a bare `cd` ends the shell (`CdPanics`).
- **HOME is needed for every `cd`.** `change_dir` calls
  `get_home_dir().expect(...)` before it looks at the target. With HOME
  unset even `cd /tmp` panics (`Builtins.ChangeDir`).
- **Only the spawn decides success.** A command counts as successful when
  `spawn` succeeded. The exit status from `wait` is discarded, so a program
  that exits non-zero still counts as a success (`IgnoresStatuses`).
- **A short circuit ends the line.** A conventional shell runs `C` in
  `A && B || C` when `A` fails. Here `A`'s failure with `&&` is a `break`,
  and the rest of the line is dropped, `C` included
  (`ShortCircuitEndsLine`, `ExampleAndOr`).
- **Consecutive operators are all kept.** The code pushes every operator
  token, so after `a && || b` the operator list no longer has one entry
  per gap: `operators[i]` no longer sits after `commands[i]`
  (`ExampleConsecutiveOperators`).
- **The second token never opens a command.** The first token is pushed as
  a command without updating `prev_token`, so the second token never opens
  a command. A leading `&&` becomes a command name, and the non-operator
  tokens after it, up to the next operator, become its arguments (`RoleAt`,
  `ExampleLeadingOperator`).

## Model

| member | source | states |
|---|---|---|
| Wrappers.Get | src/main.rs:48 | `Vec::get`: `Some` exactly when the index is in range, holding the element at that index |
| Tokenizer.Trim | src/main.rs:120 | the trimmed string is a slice of the input with only whitespace before and after it; it starts and ends with a non-whitespace character and keeps every visible character of the input, in order |
| Tokenizer.Split | src/main.rs:120 | splitting at every whitespace character gives one more piece than there are whitespace characters; no piece contains whitespace, and the pieces together hold exactly the visible characters |
| Tokenizer.SplitWhitespace | src/main.rs:120 | `split_whitespace` yields non-empty words without whitespace whose concatenation is exactly the visible characters of the line |
| Tokenizer.TrimEach | src/main.rs:122-124 | the re-trim loop keeps the number of tokens and trims each one in place |
| Tokenizer.GetCommandTokens | src/main.rs:119-127 | the tokens are words; there are none exactly when the line is all whitespace; together they spell the visible characters of the line in order |
| Tokenizer.TrimKeepsWords | src/main.rs:120 | the `trim()` before `split_whitespace()` never changes the words |
| Tokenizer.RetrimIsIdentity | src/main.rs:122-124 | trimming each token again leaves every token unchanged |
| Tokenizer.TokensAreWords | src/main.rs:119-127 | the tokens are exactly the `split_whitespace` words of the raw line |
| Tokenizer.JoinNormalises | src/main.rs:119-127 | the tokens joined with single spaces are the line with its ends trimmed and each inner whitespace run replaced by one space, a normalisation defined character by character |
| Tokenizer.SplitJoinRoundTrip | src/main.rs:120 | splitting words that were joined with single spaces gives the same words back |
| Tokenizer.JoinRoundTrip | src/main.rs:119-127 | tokenizing words that were joined with single spaces gives the same words back |
| ChainParser.Step | src/main.rs:90-110 | one loop iteration keeps one argument list per command, never drops a command, keeps the first command, and leaves at least one command |
| ChainParser.Parse | src/main.rs:84-110 | after the loop, `prev_token` is the last token when there were at least two tokens and `""` otherwise; the first token is the first command; every recorded operator is `&&` or `\|\|` |
| ChainParser.ParseCmdTokens | src/main.rs:79-117 | no tokens give no commands and the one initial empty argument list; otherwise the first token is the first command and there is one argument list per command; the command, operator and argument counts add up to the token count; operators are operator literals |
| ChainParser.EveryTokenPlaced | src/main.rs:90-110 | the commands, operators and argument lists together hold exactly the input tokens, as a multiset |
| ChainParser.ParseFollowsRoles | src/main.rs:88-110 | the operators are the operator tokens in input order; reading the commands with their argument lists in order gives the other tokens in input order, each command name where `RoleAt` says a command opens |
| ChainParser.StepFollowsRole | src/main.rs:96-107 | one iteration on a non-empty chain appends an operator token to the operators, a token after an operator as a new command with an empty argument list, and any other token to the last argument list |
| ChainParser.RenderParse | src/main.rs:79-117 | a line with no leading, trailing or doubled operator parses into a chain with one operator between each pair of commands, which written out gives the line back |
| ChainParser.ParseRender | src/main.rs:79-117 | a chain with one operator between each pair of commands, written out and parsed, gives the same chain |
| ChainParser.ExampleChain | src/main.rs:79-117 | `ls -la && echo hi \|\| echo bye` parses to commands `ls, echo, echo`, operators `&&, \|\|`, arguments `[-la], [hi], [bye]` |
| ChainParser.ExampleConsecutiveOperators | src/main.rs:96-100 | in `a && \|\| b && c` both adjacent operators are kept, giving three operators for three commands |
| ChainParser.ExampleLeadingOperator | src/main.rs:91-94 | `&& ls -l` makes `&&` the command and `ls`, `-l` its arguments |
| Builtins.Push | src/builtins.rs:8-14 | `PathBuf::push` on Unix: an absolute path replaces the buffer; otherwise the result is the buffer, a `/` when the buffer is non-empty and does not already end in `/`, then the pushed path, so it starts with the buffer and ends with the path |
| Builtins.GetHomeDir | src/builtins.rs:20-30 | `Some` exactly when HOME is set, holding its value |
| Builtins.ResolveTarget | src/builtins.rs:5-15 | the path is: the target unchanged when it does not start with `~`; HOME for `~` alone; and HOME with everything after the second character pushed onto it for `~x...`; no path (a panic) exactly when the second character takes more than one byte |
| Builtins.TildeSubdirectory | src/builtins.rs:7-12 | `~/sub` resolves to HOME, a `/`, then `sub` |
| Builtins.TildeDropsSecondChar | src/builtins.rs:10-12 | the character after `~` is dropped whatever it is: `~xsub` resolves like `~/sub` |
| Builtins.ChangeDir | src/builtins.rs:3-18 | panics exactly when HOME is unset or the slice panics, even for targets without `~`; otherwise makes one `set_current_dir` call on the resolved path and returns its result unchanged |
| Dispatch.Continuation | src/main.rs:44-71 | the line stops after an external command exactly when the operator after it is `\|\|` and the spawn succeeded, or `&&` and the spawn failed; with no operator or any other operator it goes on |
| Dispatch.RunFrom | src/main.rs:27-75 | the loop reaches consecutive indices from where it starts; it stays within the chain; it reaches every index when it finishes normally; it reaches at least one command when there is one, and always before stopping early |
| Dispatch.Run | src/main.rs:27-75 | the loop over a chain visits the indices `0, 1, ...` in order, never past the last command |
| Dispatch.StopsOnlyWhere | src/main.rs:27-75 | the loop requests exit exactly when the last command reached is `exit`; a short circuit happens only after an external command whose continuation is to stop; the line panics exactly when the last command reached is a `cd` with no argument or one whose `change_dir` panics, so a `cd` that reached `set_current_dir` never ends the line with a panic; no `exit` comes before the last command reached |
| Dispatch.OneCallPerCommand | src/main.rs:30-42 | each command reached makes exactly one OS call, except the `exit` or panicking `cd` that stopped the line, which makes none |
| Dispatch.CallsInOrder | src/main.rs:28-42 | call `k` belongs to command `k`: a spawn of the external command with its own argument list, or a `set_current_dir` of `cd` on its first argument resolved against HOME |
| Dispatch.ContinuationDecides | src/main.rs:44-71 | after an external command that is not the last, the next command runs exactly when the continuation is to go on |
| Dispatch.ShortCircuitEndsLine | src/main.rs:48-68 | a short circuit ends the whole line: no later command runs and the line ends short-circuited |
| Dispatch.ExitEndsShell | src/main.rs:31 | reaching `exit` ends the shell; no later command of the chain runs |
| Dispatch.CdFallsThrough | src/main.rs:32-37 | a `cd` that reached `set_current_dir` lets the next command run, whether the call failed or not and whatever operator follows |
| Dispatch.FinalCdFinishes | src/main.rs:32-37 | a last `cd` that reached `set_current_dir` ends the line normally, whether the directory change failed or not |
| Dispatch.CdPanics | src/main.rs:32-37 | `cd` with no argument, or whose `change_dir` panics (HOME unset, or a multibyte character after a leading `~`), ends the shell with a panic and is the last command reached |
| Dispatch.IgnoresStatuses | src/main.rs:44-71 | two worlds that agree on the environment and on spawn success give the same walk: exit statuses and `set_current_dir` results are discarded |
| Dispatch.BuiltinIgnoresOperator | src/main.rs:30-37 | replacing the operator after an `exit` or `cd` changes nothing |
| Dispatch.BlankLineDoesNothing | src/main.rs:24-27 | a whitespace-only line makes no call and returns to the prompt |
| Dispatch.ExampleAndOr | src/main.rs:44-71 | in `a && b \|\| c`: when every spawn succeeds, `a` and `b` run and `c` does not; when spawning `a` fails, only `a` is reached |
| Dispatch.ExampleOr | src/main.rs:44-71 | in `a \|\| b`: `b` runs exactly when spawning `a` fails |

## Left out

- The outer `loop` of `main`, the prompt (`create_prompt`, `getcwd`, `USER`, `HOSTNAME`), and reading and printing on the terminal: one call of the model is one input line. A failure to read stdin is not modelled.
- Process creation, `wait` and `set_current_dir` are oracles in `World`. The model does not cover what the child does, or how the working directory carries over to later lines.
- The text of diagnostics printed with `eprintln!` is not modelled; only the control flow after an error is.
- `env::var("HOME")` failing because HOME is not valid Unicode is the same as HOME being unset here. The environment is a map from strings to strings.
- `PathBuf::push` is modelled with Unix semantics only (separator `/`, an absolute path replaces the buffer). Windows prefixes and separators are not modelled.
- Strings are sequences of Unicode scalar values. Byte lengths and byte slicing are modelled only where they decide an outcome: the slice `target_path[2..]` panics exactly when the character after `~` takes more than one byte in UTF-8.
- Dispatch.RunLine: states no contract of its own. It only composes `GetCommandTokens`, `ParseCmdTokens` and `Run`, whose contracts and lemmas state the properties.
