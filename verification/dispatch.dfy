/** The per-line dispatch loop of the shell (the `for` loop in `main`,
    src/main.rs:27-75), as a pure walk over the chain indices. Whatever the
    operating system answers is an input: whether spawning command `i`
    succeeded, the exit status `wait` reports for it, whether
    `set_current_dir` succeeded, and the environment. */
module Dispatch {
  import opened Wrappers
  import opened ChainParser
  import Builtins
  import Tokenizer

  /** The answers of the operating system for one line. `exitStatus` is
      what `wait` would report; the loop never reads it, because the code
      discards the result of `wait` (src/main.rs:46). */
  datatype World = World(
    env: map<string, string>,
    spawnOk: nat -> bool,
    exitStatus: nat -> int,
    setDirOk: string -> bool)

  /** An attempted call into the operating system. */
  datatype Effect =
    | Spawn(index: nat, program: string, args: seq<string>)
    | SetDir(index: nat, path: string)

  /** How the processing of a line ended. `Finished` and `ShortCircuited`
      return to the prompt; `ExitRequested` ends the shell normally;
      `Panicked` ends it with a Rust panic. */
  datatype LineEnd = Finished | ShortCircuited | ExitRequested | Panicked

  /** The indices the loop body ran for, the effects in order, and the end. */
  datatype LineResult = LineResult(visited: seq<nat>, effects: seq<Effect>, end: LineEnd)

  datatype Next = Continue | Break

  /** The decision after an external command (src/main.rs:44-71): the
      operator after it, if any, is looked up, and "success" only means that
      the spawn succeeded. */
  function Continuation(spawned: bool, op: Option<string>): (n: Next)
    ensures n == Break <==> op == Some(if spawned then OrOp else AndOp)
  {
    match op
    case None => Continue
    case Some(o) =>
      if spawned then
        if o == "&&" then Continue else if o == "||" then Break else Continue
      else
        if o == "&&" then Break else if o == "||" then Continue else Continue
  }

  predicate IsBuiltin(name: string) {
    name == "exit" || name == "cd"
  }

  /** The first `n` indices from `i` on are exactly `i, i + 1, ...`. */
  predicate Consecutive(vs: seq<nat>, i: nat) {
    forall k :: 0 <= k < |vs| ==> vs[k] == i + k
  }

  function Then(i: nat, e: Effect, r: LineResult): LineResult {
    LineResult([i] + r.visited, [e] + r.effects, r.end)
  }

  /** Effect `e` is the one call the loop makes for command `k`: the spawn of
      an external command with its own arguments, or the directory change of
      a `cd` to its resolved first argument. */
  predicate Performs(c: CommandChain, w: World, k: nat, e: Effect)
    requires k < |c.commands| <= |c.arguments|
  {
    match e
    case Spawn(j, program, args) =>
      j == k && !IsBuiltin(c.commands[k]) && program == c.commands[k] && args == c.arguments[k]
    case SetDir(j, path) =>
      && j == k && c.commands[k] == "cd" && |c.arguments[k]| > 0 && "HOME" in w.env
      && Builtins.ResolveTarget(w.env["HOME"], c.arguments[k][0]) == Some(path)
  }

  /** The loop from index `i` to the end of the chain. The indices it reaches
      are `i, i + 1, ...` with no gap, and it runs to the end of the chain
      unless something stops it (see `StopsOnlyWhere`). */
  function RunFrom(c: CommandChain, w: World, i: nat): (r: LineResult)
    requires |c.commands| <= |c.arguments|
    requires i <= |c.commands|
    ensures Consecutive(r.visited, i)
    ensures i + |r.visited| <= |c.commands|
    ensures r.end == Finished ==> i + |r.visited| == |c.commands|
    ensures i < |c.commands| ==> |r.visited| > 0
    ensures r.end != Finished ==> |r.visited| > 0
    decreases |c.commands| - i
  {
    if i == |c.commands| then
      LineResult([], [], Finished)
    else
      var cmd := c.commands[i];
      var args := c.arguments[i];
      if cmd == "exit" then
        LineResult([i], [], ExitRequested)
      else if cmd == "cd" then
        if |args| == 0 then
          LineResult([i], [], Panicked)
        else
          match Builtins.ChangeDir(w.env, args[0], w.setDirOk)
          case CdPanicked => LineResult([i], [], Panicked)
          case CdCalled(path, _) => Then(i, SetDir(i, path), RunFrom(c, w, i + 1))
      else
        var spawn := Spawn(i, cmd, args);
        match Continuation(w.spawnOk(i), Get(c.operators, i))
        case Continue => Then(i, spawn, RunFrom(c, w, i + 1))
        case Break => LineResult([i], [spawn], ShortCircuited)
  }

  /** Command `k` is a `cd` that panics: it has no argument, or
      `change_dir` panics on its first argument. */
  predicate CdPanicsAt(c: CommandChain, w: World, k: nat)
    requires k < |c.commands| <= |c.arguments|
  {
    && c.commands[k] == "cd"
    && (|c.arguments[k]| == 0 || Builtins.ChangeDir(w.env, c.arguments[k][0], w.setDirOk).CdPanicked?)
  }

  /** The loop stops early only at an `exit`, at a panicking `cd`, or after
      an external command whose continuation is `Break`; the command it
      stopped at is the last one it reached, and no `exit` came before it. */
  lemma {:induction false} StopsOnlyWhere(c: CommandChain, w: World, i: nat)
    requires |c.commands| <= |c.arguments|
    requires i <= |c.commands|
    ensures var r := RunFrom(c, w, i); var last := i + |r.visited| - 1;
      && (r.end == ExitRequested <==> |r.visited| > 0 && c.commands[last] == "exit")
      && (r.end == ShortCircuited ==>
            !IsBuiltin(c.commands[last]) && Continuation(w.spawnOk(last), Get(c.operators, last)) == Break)
      && (r.end == Panicked <==> |r.visited| > 0 && CdPanicsAt(c, w, last))
      && (forall k :: i <= k < last ==> c.commands[k] != "exit")
    decreases |c.commands| - i
  {
    if i < |c.commands| {
      var cmd := c.commands[i];
      if cmd != "exit" && (cmd != "cd" || (|c.arguments[i]| > 0
          && Builtins.ChangeDir(w.env, c.arguments[i][0], w.setDirOk).CdCalled?)) {
        StopsOnlyWhere(c, w, i + 1);
      }
    }
  }

  /** Every command the loop reached made exactly one call, except the
      `exit` or panicking `cd` it stopped at, which made none. */
  lemma {:induction false} OneCallPerCommand(c: CommandChain, w: World, i: nat)
    requires |c.commands| <= |c.arguments|
    requires i <= |c.commands|
    ensures var r := RunFrom(c, w, i);
      |r.effects| == |r.visited| - (if r.end in {ExitRequested, Panicked} then 1 else 0)
    decreases |c.commands| - i
  {
    if i < |c.commands| {
      var cmd := c.commands[i];
      if cmd != "exit" && (cmd != "cd" || (|c.arguments[i]| > 0
          && Builtins.ChangeDir(w.env, c.arguments[i][0], w.setDirOk).CdCalled?)) {
        OneCallPerCommand(c, w, i + 1);
      }
    }
  }

  /** Effect `k` of `es` is the call of command `i + k`. */
  predicate InOrder(c: CommandChain, w: World, i: nat, es: seq<Effect>)
    requires |c.commands| <= |c.arguments|
  {
    forall k :: 0 <= k < |es| ==> i + k < |c.commands| && Performs(c, w, i + k, es[k])
  }

  /** The calls are made in index order, and each is the call of its command:
      a spawn of an external command with its own arguments, or a directory
      change of a `cd` to its resolved first argument. */
  lemma {:induction false} CallsInOrder(c: CommandChain, w: World, i: nat)
    requires |c.commands| <= |c.arguments|
    requires i <= |c.commands|
    ensures InOrder(c, w, i, RunFrom(c, w, i).effects)
    decreases |c.commands| - i
  {
    if i < |c.commands| {
      var cmd := c.commands[i];
      var args := c.arguments[i];
      var rest := RunFrom(c, w, i + 1);
      CallsInOrder(c, w, i + 1);
      OneCallPerCommand(c, w, i + 1);
      if cmd == "exit" || (cmd == "cd" && |args| == 0) {
        assert RunFrom(c, w, i).effects == [];
      } else if cmd == "cd" {
        var o := Builtins.ChangeDir(w.env, args[0], w.setDirOk);
        if o.CdCalled? {
          assert RunFrom(c, w, i) == Then(i, SetDir(i, o.path), rest);
          assert Performs(c, w, i, SetDir(i, o.path));
          ShiftedCalls(c, w, i, SetDir(i, o.path), rest);
        } else {
          assert RunFrom(c, w, i).effects == [];
        }
      } else if Continuation(w.spawnOk(i), Get(c.operators, i)) == Continue {
        assert RunFrom(c, w, i) == Then(i, Spawn(i, cmd, args), rest);
        ShiftedCalls(c, w, i, Spawn(i, cmd, args), rest);
      } else {
        assert RunFrom(c, w, i).effects == [Spawn(i, cmd, args)];
      }
    }
  }

  lemma ShiftedCalls(c: CommandChain, w: World, i: nat, e: Effect, rest: LineResult)
    requires i < |c.commands| <= |c.arguments|
    requires i + 1 + |rest.effects| <= |c.commands|
    requires Performs(c, w, i, e)
    requires InOrder(c, w, i + 1, rest.effects)
    ensures InOrder(c, w, i, Then(i, e, rest).effects)
  {
    var r := Then(i, e, rest);
    forall k | 0 <= k < |r.effects| ensures i + k < |c.commands| && Performs(c, w, i + k, r.effects[k]) {
      if k > 0 {
        assert r.effects[k] == rest.effects[k - 1];
      }
    }
  }

  /** The loop over a whole chain. */
  function Run(c: CommandChain, w: World): (r: LineResult)
    requires |c.commands| <= |c.arguments|
    ensures Consecutive(r.visited, 0) && |r.visited| <= |c.commands|
  {
    RunFrom(c, w, 0)
  }

  /** One input line: tokenize, parse, dispatch (src/main.rs:24-75). */
  function RunLine(line: string, w: World): LineResult {
    var c := ParseCmdTokens(Tokenizer.GetCommandTokens(line));
    Run(c, w)
  }

  // ---------------------------------------------------------------------
  // Properties of the walk

  /** Past a command that let the loop go on, the walk is the walk from the
      next index. */
  lemma PassesThrough(c: CommandChain, w: World, i: nat)
    requires |c.commands| <= |c.arguments|
    requires i < |c.commands|
    requires |RunFrom(c, w, i).visited| >= 2
    ensures |RunFrom(c, w, i).visited| == 1 + |RunFrom(c, w, i + 1).visited|
    ensures RunFrom(c, w, i).end == RunFrom(c, w, i + 1).end
  {
  }

  /** Once the walk from `i` reaches `k`, it ends as the walk from `k` does. */
  lemma {:induction false} SameTail(c: CommandChain, w: World, i: nat, k: nat)
    requires |c.commands| <= |c.arguments|
    requires i <= |c.commands|
    requires i <= k < i + |RunFrom(c, w, i).visited|
    ensures i + |RunFrom(c, w, i).visited| == k + |RunFrom(c, w, k).visited|
    ensures RunFrom(c, w, i).end == RunFrom(c, w, k).end
    decreases k - i
  {
    if i < k {
      PassesThrough(c, w, i);
      SameTail(c, w, i + 1, k);
    }
  }

  /** After an external command the loop reached, the next command runs
      exactly when the continuation table says `Continue`: spawn success
      with `&&`, spawn failure with `||`, or no operator at that index. */
  lemma ContinuationDecides(c: CommandChain, w: World, k: nat)
    requires |c.commands| <= |c.arguments|
    requires k < |Run(c, w).visited| && k + 1 < |c.commands|
    requires !IsBuiltin(c.commands[k])
    ensures k + 1 < |Run(c, w).visited|
        <==> Continuation(w.spawnOk(k), Get(c.operators, k)) == Continue
  {
    SameTail(c, w, 0, k);
  }

  /** A short circuit ends the whole line: after `Break` at `k` no later
      command runs, so no command is skipped and resumed after. */
  lemma ShortCircuitEndsLine(c: CommandChain, w: World, k: nat)
    requires |c.commands| <= |c.arguments|
    requires k < |Run(c, w).visited|
    requires !IsBuiltin(c.commands[k])
    requires Continuation(w.spawnOk(k), Get(c.operators, k)) == Break
    ensures |Run(c, w).visited| == k + 1
    ensures Run(c, w).end == ShortCircuited
  {
    SameTail(c, w, 0, k);
  }

  /** Reaching `exit` ends the shell; no later command of the chain runs. */
  lemma ExitEndsShell(c: CommandChain, w: World, k: nat)
    requires |c.commands| <= |c.arguments|
    requires k < |Run(c, w).visited|
    requires c.commands[k] == "exit"
    ensures Run(c, w).end == ExitRequested
    ensures |Run(c, w).visited| == k + 1
  {
    SameTail(c, w, 0, k);
  }

  /** A `cd` that reached `set_current_dir` falls through to the next
      command, whether the directory change failed or not and whatever
      operator follows it. */
  lemma CdFallsThrough(c: CommandChain, w: World, k: nat)
    requires |c.commands| <= |c.arguments|
    requires k < |Run(c, w).visited| && k + 1 < |c.commands|
    requires c.commands[k] == "cd" && |c.arguments[k]| > 0
    requires Builtins.ChangeDir(w.env, c.arguments[k][0], w.setDirOk).CdCalled?
    ensures k + 1 < |Run(c, w).visited|
  {
    SameTail(c, w, 0, k);
  }

  /** A last `cd` that reached `set_current_dir` finishes the line normally,
      whether the call failed or not. */
  lemma FinalCdFinishes(c: CommandChain, w: World)
    requires |c.commands| <= |c.arguments|
    requires |Run(c, w).visited| == |c.commands| > 0
    requires c.commands[|c.commands| - 1] == "cd" && |c.arguments[|c.commands| - 1]| > 0
    requires Builtins.ChangeDir(w.env, c.arguments[|c.commands| - 1][0], w.setDirOk).CdCalled?
    ensures Run(c, w).end == Finished
  {
    SameTail(c, w, 0, |c.commands| - 1);
  }

  /** `cd` panics and ends the shell when it has no argument, when HOME is
      unset, or when the character after a leading `~` takes more than one
      byte. */
  lemma CdPanics(c: CommandChain, w: World, k: nat)
    requires |c.commands| <= |c.arguments|
    requires k < |Run(c, w).visited|
    requires c.commands[k] == "cd"
    requires |c.arguments[k]| == 0 || Builtins.ChangeDir(w.env, c.arguments[k][0], w.setDirOk).CdPanicked?
    ensures Run(c, w).end == Panicked
    ensures |Run(c, w).visited| == k + 1
  {
    SameTail(c, w, 0, k);
  }

  /** Only whether each spawn succeeded and the environment decide the walk:
      the exit status of a child and the result of `set_current_dir` are
      discarded. */
  lemma {:induction false} IgnoresStatuses(c: CommandChain, w1: World, w2: World, i: nat)
    requires |c.commands| <= |c.arguments|
    requires i <= |c.commands|
    requires w1.env == w2.env
    requires forall j: nat :: w1.spawnOk(j) == w2.spawnOk(j)
    ensures RunFrom(c, w1, i) == RunFrom(c, w2, i)
    decreases |c.commands| - i
  {
    if i < |c.commands| {
      IgnoresStatuses(c, w1, w2, i + 1);
      if c.commands[i] == "cd" && |c.arguments[i]| > 0 {
        var t := c.arguments[i][0];
        var o1 := Builtins.ChangeDir(w1.env, t, w1.setDirOk);
        var o2 := Builtins.ChangeDir(w2.env, t, w2.setDirOk);
        assert o1.CdCalled? <==> o2.CdCalled?;
        assert o1.CdCalled? ==> o1.path == o2.path;
      }
    }
  }

  /** The operator after a built-in is never consulted: replacing it changes
      nothing. */
  lemma {:induction false} BuiltinIgnoresOperator(c: CommandChain, w: World, k: nat, op: string, i: nat)
    requires |c.commands| <= |c.arguments|
    requires i <= |c.commands|
    requires k < |c.operators| && k < |c.commands| && IsBuiltin(c.commands[k])
    ensures RunFrom(c.(operators := c.operators[k := op]), w, i) == RunFrom(c, w, i)
    decreases |c.commands| - i
  {
    if i < |c.commands| {
      BuiltinIgnoresOperator(c, w, k, op, i + 1);
      var d := c.(operators := c.operators[k := op]);
      assert i != k ==> Get(d.operators, i) == Get(c.operators, i);
    }
  }

  /** A line of whitespace only does nothing and returns to the prompt. */
  lemma BlankLineDoesNothing(line: string, w: World)
    requires Tokenizer.AllWhitespace(line)
    ensures RunLine(line, w) == LineResult([], [], Finished)
  {
  }

  // ---------------------------------------------------------------------
  // Examples

  /** `a && b || c`: when every spawn succeeds, `b` runs and its `||` stops
      the line before `c`; when spawning `a` fails, its `&&` stops the line
      at once. */
  lemma ExampleAndOr()
    ensures var c := CommandChain(["a", "b", "c"], ["&&", "||"], [[], [], []]);
      && Run(c, World(map[], _ => true, _ => 1, _ => true)).visited == [0, 1]
      && Run(c, World(map[], j => j != 0, _ => 0, _ => true)).visited == [0]
  {
  }

  /** `a || b`: a failed spawn of `a` lets `b` run; a successful one stops. */
  lemma ExampleOr()
    ensures var c := CommandChain(["a", "b"], ["||"], [[], []]);
      && Run(c, World(map[], j => j != 0, _ => 0, _ => true)).visited == [0, 1]
      && Run(c, World(map[], _ => true, _ => 0, _ => true)).visited == [0]
  {
  }
}
