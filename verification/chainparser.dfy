/** The chain parser of the shell (`parse_cmd_tokens`, src/main.rs:79-117):
    one left-to-right pass over the tokens with a one-token lookback, filling
    three parallel vectors: command names, chain operators, and one argument
    list per command. */
module ChainParser {

  const AndOp: string := "&&"
  const OrOp: string := "||"

  /** `chain_ops.contains(token)` with `chain_ops = ["&&", "||"]`. */
  predicate IsChainOp(t: string) {
    t == AndOp || t == OrOp
  }

  /** `CommandChain<&str>` (src/main.rs:7-11). */
  datatype CommandChain = CommandChain(
    commands: seq<string>,
    operators: seq<string>,
    arguments: seq<seq<string>>)

  /** The loop state: the vectors built so far and `prev_token`. */
  datatype ParseState = ParseState(chain: CommandChain, prev: string)

  /** The shape the loop keeps: one argument list per command, and the one
      list of the initial `vec![vec![]]` while there is no command yet. */
  predicate Shaped(c: CommandChain) {
    |c.arguments| == if |c.commands| == 0 then 1 else |c.commands|
  }

  /** All argument lists, concatenated in order. */
  function Flatten(args: seq<seq<string>>): seq<string> {
    if |args| == 0 then [] else Flatten(args[..|args| - 1]) + args[|args| - 1]
  }

  /** Every token placed somewhere in the chain, as a multiset. */
  function Placed(c: CommandChain): multiset<string> {
    multiset(c.commands) + multiset(c.operators) + multiset(Flatten(c.arguments))
  }

  const Initial: ParseState := ParseState(CommandChain([], [], [[]]), "")

  /** One iteration of the `while let` loop (src/main.rs:90-110). */
  function Step(st: ParseState, token: string): (r: ParseState)
    requires Shaped(st.chain)
    ensures Shaped(r.chain)
    ensures |r.chain.commands| >= |st.chain.commands|
    ensures |st.chain.commands| > 0 ==> r.chain.commands[0] == st.chain.commands[0]
    ensures |r.chain.commands| > 0
  {
    var c := st.chain;
    if |c.commands| == 0 then
      ParseState(c.(commands := c.commands + [token]), st.prev)
    else if IsChainOp(token) then
      ParseState(c.(operators := c.operators + [token]), token)
    else if IsChainOp(st.prev) then
      ParseState(c.(commands := c.commands + [token], arguments := c.arguments + [[]]), token)
    else
      var last := |c.commands| - 1;
      ParseState(c.(arguments := c.arguments[last := c.arguments[last] + [token]]), token)
  }

  /** The loop run over all tokens, leftmost first. */
  function Parse(tokens: seq<string>): (st: ParseState)
    ensures Shaped(st.chain)
    ensures st.prev == if |tokens| >= 2 then tokens[|tokens| - 1] else ""
    ensures |tokens| > 0 ==> |st.chain.commands| > 0 && st.chain.commands[0] == tokens[0]
    ensures forall i :: 0 <= i < |st.chain.operators| ==> IsChainOp(st.chain.operators[i])
    decreases |tokens|
  {
    if |tokens| == 0 then
      Initial
    else
      var n := |tokens| - 1;
      assert tokens == tokens[..n] + [tokens[n]];
      Step(Parse(tokens[..n]), tokens[n])
  }

  /** `parse_cmd_tokens`. */
  function ParseCmdTokens(tokens: seq<string>): (r: CommandChain)
    ensures |tokens| == 0 ==> r == CommandChain([], [], [[]])
    ensures |tokens| > 0 ==> |r.commands| > 0 && r.commands[0] == tokens[0]
    ensures |tokens| > 0 ==> |r.arguments| == |r.commands|
    ensures |r.commands| + |r.operators| + |Flatten(r.arguments)| == |tokens|
    ensures forall i :: 0 <= i < |r.operators| ==> IsChainOp(r.operators[i])
  {
    var r := Parse(tokens).chain;
    EveryTokenPlaced(tokens);
    assert |multiset(r.commands) + multiset(r.operators) + multiset(Flatten(r.arguments))| == |multiset(tokens)|;
    r
  }

  /** Every token lands in exactly one of the three vectors: the commands,
      the operators and the argument lists together hold exactly the tokens. */
  lemma {:induction false} EveryTokenPlaced(tokens: seq<string>)
    ensures Placed(Parse(tokens).chain) == multiset(tokens)
    decreases |tokens|
  {
    if |tokens| > 0 {
      var n := |tokens| - 1;
      assert tokens == tokens[..n] + [tokens[n]];
      EveryTokenPlaced(tokens[..n]);
      StepPlacesToken(Parse(tokens[..n]), tokens[n]);
    }
  }

  lemma StepPlacesToken(st: ParseState, token: string)
    requires Shaped(st.chain)
    ensures Placed(Step(st, token).chain) == Placed(st.chain) + multiset{token}
  {
    var c := st.chain;
    if |c.commands| == 0 {
    } else if IsChainOp(token) {
    } else if IsChainOp(st.prev) {
      FlattenAppend(c.arguments, []);
    } else {
      FlattenGrowLast(c.arguments, token);
    }
  }

  lemma {:induction false} FlattenAppend(args: seq<seq<string>>, a: seq<string>)
    ensures Flatten(args + [a]) == Flatten(args) + a
  {
    assert (args + [a])[..|args|] == args;
  }

  lemma {:induction false} FlattenGrowLast(args: seq<seq<string>>, t: string)
    requires |args| > 0
    ensures Flatten(args[|args| - 1 := args[|args| - 1] + [t]]) == Flatten(args) + [t]
  {
    var n := |args| - 1;
    assert args[n := args[n] + [t]][..n] == args[..n];
  }

  // ---------------------------------------------------------------------
  // An independent description of where each token goes

  datatype Role = Name | Operator | Argument

  /** The role of the token at position `i`. The first token always names a
      command. Afterwards an operator literal is an operator; any other token
      opens a new command exactly when the token before it was an operator,
      except that the second token never does, because the first token does
      not update `prev_token`. */
  function RoleAt(tokens: seq<string>, i: nat): Role
    requires i < |tokens|
  {
    if i == 0 then Name
    else if IsChainOp(tokens[i]) then Operator
    else if i >= 2 && IsChainOp(tokens[i - 1]) then Name
    else Argument
  }

  /** A non-operator token tagged with whether it names a command. */
  datatype Slot = NameSlot(token: string) | ArgSlot(token: string)

  /** The slot a token with the given role takes: none for an operator. */
  function SlotFor(role: Role, token: string): seq<Slot> {
    match role
    case Name => [NameSlot(token)]
    case Argument => [ArgSlot(token)]
    case Operator => []
  }

  /** The command names and arguments in token order, each tagged. */
  function Placement(tokens: seq<string>): seq<Slot>
    decreases |tokens|
  {
    if |tokens| == 0 then []
    else
      var n := |tokens| - 1;
      Placement(tokens[..n]) + SlotFor(RoleAt(tokens, n), tokens[n])
  }

  /** The operator tokens, in order. */
  function OperatorTokens(tokens: seq<string>): seq<string>
    decreases |tokens|
  {
    if |tokens| == 0 then []
    else
      var n := |tokens| - 1;
      OperatorTokens(tokens[..n]) + (if RoleAt(tokens, n) == Operator then [tokens[n]] else [])
  }

  function ArgSlots(args: seq<string>): (r: seq<Slot>)
    ensures |r| == |args|
    ensures forall i :: 0 <= i < |args| ==> r[i] == ArgSlot(args[i])
  {
    if |args| == 0 then [] else ArgSlots(args[..|args| - 1]) + [ArgSlot(args[|args| - 1])]
  }

  /** The first `n` commands of a chain, each followed by its arguments. */
  function LayoutUpTo(c: CommandChain, n: nat): seq<Slot>
    requires n <= |c.commands| <= |c.arguments|
  {
    if n == 0 then []
    else LayoutUpTo(c, n - 1) + [NameSlot(c.commands[n - 1])] + ArgSlots(c.arguments[n - 1])
  }

  function Layout(c: CommandChain): seq<Slot>
    requires |c.commands| <= |c.arguments|
  {
    LayoutUpTo(c, |c.commands|)
  }

  lemma {:induction false} LayoutUpToSame(c: CommandChain, d: CommandChain, n: nat)
    requires n <= |c.commands| <= |c.arguments|
    requires n <= |d.commands| <= |d.arguments|
    requires c.commands[..n] == d.commands[..n] && c.arguments[..n] == d.arguments[..n]
    ensures LayoutUpTo(c, n) == LayoutUpTo(d, n)
  {
    if n > 0 {
      assert c.commands[..n - 1] == c.commands[..n][..n - 1];
      assert d.commands[..n - 1] == d.commands[..n][..n - 1];
      assert c.arguments[..n - 1] == c.arguments[..n][..n - 1];
      assert d.arguments[..n - 1] == d.arguments[..n][..n - 1];
      assert c.commands[n - 1] == c.commands[..n][n - 1];
      assert c.arguments[n - 1] == c.arguments[..n][n - 1];
      LayoutUpToSame(c, d, n - 1);
    }
  }

  /** The parser puts every token where its role says: the operators are the
      operator tokens in order, and the commands with their argument lists,
      read in order, are the remaining tokens, each command name opening its
      own group. Together with the count in `ParseCmdTokens`, every token lands
      in exactly one place and the original order is kept. */
  lemma {:induction false} ParseFollowsRoles(tokens: seq<string>)
    ensures Parse(tokens).chain.operators == OperatorTokens(tokens)
    ensures Layout(Parse(tokens).chain) == Placement(tokens)
    decreases |tokens|
  {
    if |tokens| > 0 {
      var n := |tokens| - 1;
      var p := tokens[..n];
      var x := tokens[n];
      ParseFollowsRoles(p);
      var st := Parse(p);
      assert Parse(tokens) == Step(st, x) by {
        assert tokens[..n] == p;
      }
      if n == 0 {
        assert Parse(tokens).chain == CommandChain([x], [], [[]]);
        assert LayoutUpTo(CommandChain([x], [], [[]]), 1) == [NameSlot(x)];
      } else {
        var role := RoleAt(tokens, n);
        assert OperatorTokens(tokens) == OperatorTokens(p) + (if role == Operator then [x] else []) by {
          assert tokens[..n] == p;
        }
        assert Placement(tokens) == Placement(p) + SlotFor(role, x) by {
          assert tokens[..n] == p;
        }
        assert role == if IsChainOp(x) then Operator else if IsChainOp(st.prev) then Name else Argument by {
          assert !IsChainOp("");
        }
        StepFollowsRole(st, x, role);
      }
    }
  }

  /** One step on a non-empty chain adds the token where its role says. */
  lemma StepFollowsRole(st: ParseState, x: string, role: Role)
    requires Shaped(st.chain) && |st.chain.commands| > 0
    requires role == if IsChainOp(x) then Operator else if IsChainOp(st.prev) then Name else Argument
    ensures Step(st, x).chain.operators == st.chain.operators + (if role == Operator then [x] else [])
    ensures Layout(Step(st, x).chain) == Layout(st.chain) + SlotFor(role, x)
  {
    var c := st.chain;
    var c' := Step(st, x).chain;
    if role == Operator {
      assert c'.commands[..|c.commands|] == c.commands[..|c.commands|];
      assert c'.arguments[..|c.commands|] == c.arguments[..|c.commands|];
      LayoutUpToSame(c, c', |c.commands|);
    } else if role == Name {
      LayoutAddCommand(c, x);
    } else {
      LayoutAddArgument(c, x);
    }
  }

  lemma LayoutAddCommand(c: CommandChain, x: string)
    requires |c.arguments| == |c.commands|
    ensures Layout(c.(commands := c.commands + [x], arguments := c.arguments + [[]]))
         == Layout(c) + [NameSlot(x)]
  {
    var d := c.(commands := c.commands + [x], arguments := c.arguments + [[]]);
    var m := |c.commands|;
    assert d.commands[..m] == c.commands[..m] && d.arguments[..m] == c.arguments[..m];
    LayoutUpToSame(c, d, m);
    assert ArgSlots(d.arguments[m]) == [];
  }

  lemma LayoutAddArgument(c: CommandChain, x: string)
    requires |c.commands| > 0 && |c.arguments| == |c.commands|
    ensures var m := |c.commands| - 1;
      Layout(c.(arguments := c.arguments[m := c.arguments[m] + [x]])) == Layout(c) + [ArgSlot(x)]
  {
    var m := |c.commands| - 1;
    var d := c.(arguments := c.arguments[m := c.arguments[m] + [x]]);
    assert d.commands[..m] == c.commands[..m] && d.arguments[..m] == c.arguments[..m];
    LayoutUpToSame(c, d, m);
    assert ArgSlots(d.arguments[m]) == ArgSlots(c.arguments[m]) + [ArgSlot(x)];
  }

  // ---------------------------------------------------------------------
  // Well-formed chains: the parser and the rendering are inverse

  /** A token sequence with no leading, trailing or consecutive operators. */
  predicate WellFormedTokens(tokens: seq<string>) {
    && OpenTokens(tokens)
    && !IsChainOp(tokens[|tokens| - 1])
  }

  /** A non-empty prefix of a well-formed token sequence: it may end with an
      operator. */
  predicate OpenTokens(tokens: seq<string>) {
    && |tokens| > 0
    && !IsChainOp(tokens[0])
    && forall i :: 0 < i < |tokens| ==> !(IsChainOp(tokens[i - 1]) && IsChainOp(tokens[i]))
  }

  /** Operators are operator literals and nothing else is. */
  predicate Literals(c: CommandChain) {
    && (forall i :: 0 <= i < |c.operators| ==> IsChainOp(c.operators[i]))
    && (forall i :: 0 <= i < |c.commands| ==> !IsChainOp(c.commands[i]))
    && (forall i, j :: 0 <= i < |c.arguments| && 0 <= j < |c.arguments[i]| ==> !IsChainOp(c.arguments[i][j]))
  }

  /** A chain in which `operators[i]` sits between `commands[i]` and
      `commands[i + 1]`. */
  predicate WellFormedChain(c: CommandChain) {
    && |c.commands| > 0
    && |c.arguments| == |c.commands|
    && |c.operators| == |c.commands| - 1
    && Literals(c)
  }

  /** A well-formed chain, or one with a trailing operator still waiting for
      its next command. */
  predicate OpenChain(c: CommandChain) {
    && |c.commands| > 0
    && |c.arguments| == |c.commands|
    && |c.commands| - 1 <= |c.operators| <= |c.commands|
    && Literals(c)
  }

  /** Command `j`, its arguments, and the operator after it if there is one. */
  function Group(c: CommandChain, j: nat): seq<string>
    requires j < |c.commands| <= |c.arguments|
  {
    [c.commands[j]] + c.arguments[j] + (if j < |c.operators| then [c.operators[j]] else [])
  }

  function RenderUpTo(c: CommandChain, n: nat): seq<string>
    requires n <= |c.commands| <= |c.arguments|
  {
    if n == 0 then [] else RenderUpTo(c, n - 1) + Group(c, n - 1)
  }

  /** The tokens a chain is written with: `ls -la && echo hi`. */
  function Render(c: CommandChain): seq<string>
    requires |c.commands| <= |c.arguments|
  {
    RenderUpTo(c, |c.commands|)
  }

  lemma {:induction false} RenderUpToSame(c: CommandChain, d: CommandChain, n: nat)
    requires n <= |c.commands| <= |c.arguments|
    requires n <= |d.commands| <= |d.arguments|
    requires forall j :: 0 <= j < n ==> Group(c, j) == Group(d, j)
    ensures RenderUpTo(c, n) == RenderUpTo(d, n)
  {
    if n > 0 {
      RenderUpToSame(c, d, n - 1);
    }
  }

  lemma RenderAddOperator(c: CommandChain, x: string)
    requires |c.commands| > 0 && |c.arguments| == |c.commands|
    requires |c.operators| == |c.commands| - 1
    ensures Render(c.(operators := c.operators + [x])) == Render(c) + [x]
    ensures OpenChain(c) && IsChainOp(x) ==> OpenChain(c.(operators := c.operators + [x]))
  {
    var d := c.(operators := c.operators + [x]);
    var m := |c.commands|;
    assert forall j :: 0 <= j < m - 1 ==> Group(c, j) == Group(d, j);
    RenderUpToSame(c, d, m - 1);
  }

  lemma RenderAddCommand(c: CommandChain, x: string)
    requires |c.arguments| == |c.commands|
    requires |c.operators| == |c.commands|
    ensures Render(c.(commands := c.commands + [x], arguments := c.arguments + [[]])) == Render(c) + [x]
    ensures OpenChain(c) && !IsChainOp(x)
        ==> OpenChain(c.(commands := c.commands + [x], arguments := c.arguments + [[]]))
  {
    var d := c.(commands := c.commands + [x], arguments := c.arguments + [[]]);
    var m := |c.commands|;
    assert forall j :: 0 <= j < m ==> Group(c, j) == Group(d, j);
    RenderUpToSame(c, d, m);
    if OpenChain(c) && !IsChainOp(x) {
      forall i, j | 0 <= i < |d.arguments| && 0 <= j < |d.arguments[i]|
        ensures !IsChainOp(d.arguments[i][j])
      {
        assert i < m && d.arguments[i] == c.arguments[i];
      }
    }
  }

  lemma RenderAddArgument(c: CommandChain, x: string)
    requires |c.commands| > 0 && |c.arguments| == |c.commands|
    requires |c.operators| == |c.commands| - 1
    ensures var m := |c.commands| - 1;
      Render(c.(arguments := c.arguments[m := c.arguments[m] + [x]])) == Render(c) + [x]
    ensures var m := |c.commands| - 1;
      OpenChain(c) && !IsChainOp(x) ==> OpenChain(c.(arguments := c.arguments[m := c.arguments[m] + [x]]))
  {
    var m := |c.commands| - 1;
    var d := c.(arguments := c.arguments[m := c.arguments[m] + [x]]);
    assert forall j :: 0 <= j < m ==> Group(c, j) == Group(d, j);
    RenderUpToSame(c, d, m);
    if OpenChain(c) && !IsChainOp(x) {
      forall i, j | 0 <= i < |d.arguments| && 0 <= j < |d.arguments[i]|
        ensures !IsChainOp(d.arguments[i][j])
      {
        if i == m && j == |c.arguments[m]| {
          assert d.arguments[i][j] == x;
        } else {
          assert d.arguments[i][j] == c.arguments[i][j];
        }
      }
    }
  }

  /** The last rendered token is an operator exactly when the chain has a
      trailing operator. */
  lemma RenderLast(c: CommandChain)
    requires OpenChain(c)
    ensures |Render(c)| > 0
    ensures IsChainOp(Render(c)[|Render(c)| - 1]) <==> |c.operators| == |c.commands|
  {
    var m := |c.commands|;
    var g := Group(c, m - 1);
    assert Render(c) == RenderUpTo(c, m - 1) + g;
    if |c.operators| == m {
      assert g[|g| - 1] == c.operators[m - 1];
    } else if |c.arguments[m - 1]| > 0 {
      var a := c.arguments[m - 1];
      assert g[|g| - 1] == a[|a| - 1];
    } else {
      assert g == [c.commands[m - 1]];
    }
  }

  /** Rendering undoes parsing on every prefix of a well-formed line. */
  lemma {:induction false} RenderParseOpen(tokens: seq<string>)
    requires OpenTokens(tokens)
    ensures OpenChain(Parse(tokens).chain)
    ensures Render(Parse(tokens).chain) == tokens
    ensures |Parse(tokens).chain.operators| == |Parse(tokens).chain.commands|
        <==> IsChainOp(tokens[|tokens| - 1])
    decreases |tokens|
  {
    var n := |tokens| - 1;
    var p := tokens[..n];
    var x := tokens[n];
    assert p + [x] == tokens;
    if n == 0 {
      RenderSingle(x);
    } else {
      OpenTokensPrefix(tokens);
      RenderParseOpen(p);
      assert !(IsChainOp(p[n - 1]) && IsChainOp(x)) by {
        assert p[n - 1] == tokens[n - 1];
      }
      ParsePrevIsOp(p);
      RenderStep(Parse(p), x);
      ParseSnoc(p, x);
    }
  }

  /** The remembered previous token is an operator exactly when the last
      token is, provided the first token is not one. */
  lemma ParsePrevIsOp(p: seq<string>)
    requires |p| > 0 && !IsChainOp(p[0])
    ensures IsChainOp(Parse(p).prev) <==> IsChainOp(p[|p| - 1])
  {
    if |p| == 1 {
      assert !IsChainOp("");
    }
  }

  lemma RenderSingle(x: string)
    requires !IsChainOp(x)
    ensures OpenChain(Parse([x]).chain)
    ensures Render(Parse([x]).chain) == [x]
    ensures |Parse([x]).chain.operators| != |Parse([x]).chain.commands|
  {
    var c := CommandChain([x], [], [[]]);
    assert [x][..0] == [];
    assert Parse([x]).chain == c;
    assert Render(c) == RenderUpTo(c, 0) + Group(c, 0);
  }

  lemma OpenTokensPrefix(tokens: seq<string>)
    requires OpenTokens(tokens) && |tokens| > 1
    ensures OpenTokens(tokens[..|tokens| - 1])
  {
    var p := tokens[..|tokens| - 1];
    forall i | 0 < i < |p| ensures !(IsChainOp(p[i - 1]) && IsChainOp(p[i])) {
      assert p[i - 1] == tokens[i - 1] && p[i] == tokens[i];
    }
  }

  /** One parser step on a well-formed prefix writes the token at the end. */
  lemma RenderStep(st: ParseState, x: string)
    requires OpenChain(st.chain)
    requires IsChainOp(st.prev) <==> |st.chain.operators| == |st.chain.commands|
    requires !(IsChainOp(st.prev) && IsChainOp(x))
    ensures OpenChain(Step(st, x).chain)
    ensures Render(Step(st, x).chain) == Render(st.chain) + [x]
    ensures |Step(st, x).chain.operators| == |Step(st, x).chain.commands| <==> IsChainOp(x)
  {
    var c := st.chain;
    if IsChainOp(x) {
      RenderAddOperator(c, x);
    } else if IsChainOp(st.prev) {
      RenderAddCommand(c, x);
    } else {
      RenderAddArgument(c, x);
    }
  }

  /** Rendering undoes parsing: a well-formed line parses into a well-formed
      chain that is written exactly as the line. */
  lemma RenderParse(tokens: seq<string>)
    requires WellFormedTokens(tokens)
    ensures WellFormedChain(ParseCmdTokens(tokens))
    ensures Render(ParseCmdTokens(tokens)) == tokens
  {
    RenderParseOpen(tokens);
  }

  /** Parsing undoes rendering, for every chain whose trailing operator (if
      any) still waits for its command. */
  lemma {:induction false} ParseRenderOpen(c: CommandChain)
    requires OpenChain(c)
    ensures Parse(Render(c)).chain == c
    decreases |Render(c)|
  {
    var m := |c.commands|;
    if |c.operators| == m {
      var x := c.operators[m - 1];
      var c0 := c.(operators := c.operators[..m - 1]);
      assert c0.operators + [x] == c.operators;
      RenderAddOperator(c0, x);
      ParseRenderOpen(c0);
      ParseAfterOperator(c0, x);
    } else if |c.arguments[m - 1]| > 0 {
      var a := c.arguments[m - 1];
      var x := a[|a| - 1];
      var c0 := c.(arguments := c.arguments[m - 1 := a[..|a| - 1]]);
      assert a[..|a| - 1] + [x] == a;
      assert c0.arguments[m - 1 := c0.arguments[m - 1] + [x]] == c.arguments;
      assert OpenChain(c0) by {
        forall i, j | 0 <= i < |c0.arguments| && 0 <= j < |c0.arguments[i]|
          ensures !IsChainOp(c0.arguments[i][j])
        {
          assert c0.arguments[i][j] == c.arguments[i][j];
        }
      }
      RenderAddArgument(c0, x);
      ParseRenderOpen(c0);
      ParseAfterArgument(c0, x);
    } else if m > 1 {
      var x := c.commands[m - 1];
      var c0 := c.(commands := c.commands[..m - 1], arguments := c.arguments[..m - 1]);
      assert c0.commands + [x] == c.commands;
      assert c0.arguments + [[]] == c.arguments;
      RenderAddCommand(c0, x);
      ParseRenderOpen(c0);
      ParseAfterCommand(c0, x);
    } else {
      assert Render(c) == RenderUpTo(c, 0) + Group(c, 0);
      assert c.arguments == [[]];
    }
  }

  lemma ParseAfterOperator(c0: CommandChain, x: string)
    requires OpenChain(c0) && |c0.operators| == |c0.commands| - 1
    requires Parse(Render(c0)).chain == c0
    requires IsChainOp(x)
    ensures Parse(Render(c0) + [x]).chain == c0.(operators := c0.operators + [x])
  {
    var t := Render(c0);
    assert (t + [x])[..|t|] == t;
  }

  lemma ParseAfterArgument(c0: CommandChain, x: string)
    requires OpenChain(c0) && |c0.operators| == |c0.commands| - 1
    requires Parse(Render(c0)).chain == c0
    requires !IsChainOp(x)
    ensures var m := |c0.commands| - 1;
      Parse(Render(c0) + [x]).chain == c0.(arguments := c0.arguments[m := c0.arguments[m] + [x]])
  {
    var t := Render(c0);
    assert (t + [x])[..|t|] == t;
    RenderLast(c0);
  }

  lemma ParseAfterCommand(c0: CommandChain, x: string)
    requires OpenChain(c0) && |c0.operators| == |c0.commands|
    requires Parse(Render(c0)).chain == c0
    requires !IsChainOp(x)
    ensures Parse(Render(c0) + [x]).chain
         == c0.(commands := c0.commands + [x], arguments := c0.arguments + [[]])
  {
    var t := Render(c0);
    assert (t + [x])[..|t|] == t;
    RenderLast(c0);
    var m := |c0.commands|;
    assert |t| >= 2 by {
      assert Group(c0, m - 1) == [c0.commands[m - 1]] + c0.arguments[m - 1] + [c0.operators[m - 1]];
      assert RenderUpTo(c0, m) == RenderUpTo(c0, m - 1) + Group(c0, m - 1);
    }
  }

  /** Parsing undoes rendering: a well-formed chain written out and parsed
      again is the same chain. */
  lemma ParseRender(c: CommandChain)
    requires WellFormedChain(c)
    ensures ParseCmdTokens(Render(c)) == c
  {
    ParseRenderOpen(c);
  }

  // ---------------------------------------------------------------------
  // Examples

  lemma ParseSnoc(p: seq<string>, x: string)
    ensures Parse(p + [x]) == Step(Parse(p), x)
  {
    assert (p + [x])[..|p|] == p;
  }

  /** `ls -la && echo hi || echo bye`. */
  lemma ExampleChain()
    ensures ParseCmdTokens(["ls", "-la", "&&", "echo", "hi", "||", "echo", "bye"])
         == CommandChain(["ls", "echo", "echo"], ["&&", "||"], [["-la"], ["hi"], ["bye"]])
  {
    var c := CommandChain(["ls", "echo", "echo"], ["&&", "||"], [["-la"], ["hi"], ["bye"]]);
    assert !IsChainOp("-la") && !IsChainOp("bye") && !IsChainOp("echo") && !IsChainOp("hi") && !IsChainOp("ls");
    assert WellFormedChain(c);
    assert Group(c, 0) == ["ls", "-la", "&&"];
    assert Group(c, 1) == ["echo", "hi", "||"];
    assert Group(c, 2) == ["echo", "bye"];
    assert RenderUpTo(c, 1) == ["ls", "-la", "&&"];
    assert RenderUpTo(c, 2) == ["ls", "-la", "&&", "echo", "hi", "||"];
    assert Render(c) == ["ls", "-la", "&&", "echo", "hi", "||", "echo", "bye"];
    ParseRender(c);
  }

  lemma ExampleConsecutiveOperatorsStart()
    ensures Parse(["a", "&&"]) == ParseState(CommandChain(["a"], ["&&"], [[]]), "&&")
  {
    assert !IsChainOp("") && IsChainOp("&&") && !IsChainOp("a");
    assert Parse(["a"]) == ParseState(CommandChain(["a"], [], [[]]), "") by {
      ParseSnoc([], "a");
      assert [] + ["a"] == ["a"];
    }
    assert Parse(["a", "&&"]) == ParseState(CommandChain(["a"], ["&&"], [[]]), "&&") by {
      ParseSnoc(["a"], "&&");
      assert ["a"] + ["&&"] == ["a", "&&"];
    }
  }

  lemma ExampleConsecutiveOperatorsMiddle()
    ensures Parse(["a", "&&", "||", "b"]) == ParseState(CommandChain(["a", "b"], ["&&", "||"], [[], []]), "b")
  {
    assert IsChainOp("&&") && !IsChainOp("b") && IsChainOp("||");
    ExampleConsecutiveOperatorsStart();
    assert Parse(["a", "&&", "||"]) == ParseState(CommandChain(["a"], ["&&", "||"], [[]]), "||") by {
      ParseSnoc(["a", "&&"], "||");
      assert ["a", "&&"] + ["||"] == ["a", "&&", "||"];
    }
    assert Parse(["a", "&&", "||", "b"]) == ParseState(CommandChain(["a", "b"], ["&&", "||"], [[], []]), "b") by {
      ParseSnoc(["a", "&&", "||"], "b");
      assert ["a", "&&", "||"] + ["b"] == ["a", "&&", "||", "b"];
    }
  }

  /** Consecutive operators are all kept, so `operators[i]` no longer sits
      between `commands[i]` and `commands[i + 1]`. */
  lemma ExampleConsecutiveOperators()
    ensures ParseCmdTokens(["a", "&&", "||", "b", "&&", "c"])
         == CommandChain(["a", "b", "c"], ["&&", "||", "&&"], [[], [], []])
  {
    assert IsChainOp("&&") && !IsChainOp("b") && !IsChainOp("c");
    ExampleConsecutiveOperatorsMiddle();
    assert Parse(["a", "&&", "||", "b", "&&"]) == ParseState(CommandChain(["a", "b"], ["&&", "||", "&&"], [[], []]), "&&") by {
      ParseSnoc(["a", "&&", "||", "b"], "&&");
      assert ["a", "&&", "||", "b"] + ["&&"] == ["a", "&&", "||", "b", "&&"];
    }
    assert Parse(["a", "&&", "||", "b", "&&", "c"]) == ParseState(CommandChain(["a", "b", "c"], ["&&", "||", "&&"], [[], [], []]), "c") by {
      ParseSnoc(["a", "&&", "||", "b", "&&"], "c");
      assert ["a", "&&", "||", "b", "&&"] + ["c"] == ["a", "&&", "||", "b", "&&", "c"];
    }
  }

  /** A leading operator becomes the first command, and the token after it
      one of its arguments. */
  lemma ExampleLeadingOperator()
    ensures ParseCmdTokens(["&&", "ls", "-l"])
         == CommandChain(["&&"], [], [["ls", "-l"]])
  {
    assert !IsChainOp("") && IsChainOp("&&") && !IsChainOp("-l") && !IsChainOp("ls");
    assert Parse(["&&"]) == ParseState(CommandChain(["&&"], [], [[]]), "") by {
      ParseSnoc([], "&&");
      assert [] + ["&&"] == ["&&"];
    }
    assert Parse(["&&", "ls"]) == ParseState(CommandChain(["&&"], [], [["ls"]]), "ls") by {
      ParseSnoc(["&&"], "ls");
      assert ["&&"] + ["ls"] == ["&&", "ls"];
      assert [] + ["ls"] == ["ls"];
    }
    assert Parse(["&&", "ls", "-l"]) == ParseState(CommandChain(["&&"], [], [["ls", "-l"]]), "-l") by {
      ParseSnoc(["&&", "ls"], "-l");
      assert ["&&", "ls"] + ["-l"] == ["&&", "ls", "-l"];
      assert ["ls"] + ["-l"] == ["ls", "-l"];
    }
  }
}
