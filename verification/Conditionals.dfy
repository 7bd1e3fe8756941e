/** The conditionals of a configuration file: a stack machine over lines, and nested blocks. */
module Conditionals {
  import opened Wrappers

  datatype Value = IsSet | Text(text: string)

  datatype Env = Env(variables: map<string, Value>, gvariables: map<string, Value>)

  datatype Action =
    | Set(name: string, value: Value)
    | Unset(name: string)
    | Gset(name: string, value: Value)
    | Gunset(name: string)
    | Other(text: string)

  datatype Cond = Defined(name: string) | Undefined(name: string)

  datatype Line =
    | IfLine(cond: Cond)
    | ElifLine(cond: Cond)
    | ElseLine
    | EndifLine
    | ActionLine(action: Action)

  predicate Holds(c: Cond, env: Env) {
    match c
    case Defined(name) => name in env.variables || name in env.gvariables
    case Undefined(name) => !(name in env.variables || name in env.gvariables)
  }

  function Executed(action: Action, env: Env): Env {
    match action
    case Set(name, value) => env.(variables := env.variables[name := value])
    case Unset(name) => env.(variables := env.variables - {name})
    case Gset(name, value) => env.(gvariables := env.gvariables[name := value])
    case Gunset(name) => env.(gvariables := env.gvariables - {name})
    case Other(text) => env
  }

  // ---- nested blocks ----

  datatype Items =
    | Nil
    | Do(action: Action, rest: Items)
    | If(cond: Cond, body: Items, more: Branches, rest: Items)

  // An else may be followed by further branches, which can then never be taken.
  datatype Branches =
    | NoMore
    | Elif(cond: Cond, body: Items, more: Branches)
    | Else(body: Items, more: Branches)

  function Flatten(items: Items): seq<Line> {
    match items
    case Nil => []
    case Do(action, rest) => [ActionLine(action)] + Flatten(rest)
    case If(cond, body, more, rest) => [IfLine(cond)] + Flatten(body) + FlattenBranches(more) + Flatten(rest)
  }

  function FlattenBranches(more: Branches): seq<Line> {
    match more
    case NoMore => [EndifLine]
    case Elif(cond, body, m) => [ElifLine(cond)] + Flatten(body) + FlattenBranches(m)
    case Else(body, m) => [ElseLine] + Flatten(body) + FlattenBranches(m)
  }

  // The actions executed so far and the variables they leave.
  datatype Effect = Effect(ran: seq<Action>, env: Env)

  function Interpret(items: Items, e: Effect): Effect {
    match items
    case Nil => e
    case Do(action, rest) => Interpret(rest, Effect(e.ran + [action], Executed(action, e.env)))
    case If(cond, body, more, rest) =>
      Interpret(rest, if Holds(cond, e.env) then Interpret(body, e) else InterpretBranches(more, e))
  }

  function InterpretBranches(more: Branches, e: Effect): Effect {
    match more
    case NoMore => e
    case Elif(cond, body, m) => if Holds(cond, e.env) then Interpret(body, e) else InterpretBranches(m, e)
    case Else(body, _) => Interpret(body, e)
  }

  // ---- the stack machine ----

  // Top of the stack: 0 unmatched, 1 matches, 2 done matching.
  datatype Machine = Machine(stack: seq<int>, e: Effect)

  predicate CanExecute(stack: seq<int>)
    requires stack != []
  {
    stack[|stack| - 1] == 1
  }

  function Started(stack: seq<int>): (s: seq<int>)
    requires stack != []
    ensures |s| == |stack| + 1
  {
    stack + [if CanExecute(stack) then 0 else 2]
  }

  function Matched(stack: seq<int>, matches: bool): (s: seq<int>)
    requires stack != []
    ensures |s| == |stack|
  {
    var top := stack[|stack| - 1];
    if top == 1 || (top == 0 && matches) then stack[..|stack| - 1] + [top + 1] else stack
  }

  // What one line does; None stands for the raised error.
  function Step(m: Machine, line: Line): (r: Option<Machine>)
    requires m.stack != []
    ensures r.Some? ==> r.value.stack != []
  {
    match line
    case IfLine(cond) => Some(m.(stack := Matched(Started(m.stack), Holds(cond, m.e.env))))
    case ElifLine(cond) => if |m.stack| == 1 then None else Some(m.(stack := Matched(m.stack, Holds(cond, m.e.env))))
    case ElseLine => if |m.stack| == 1 then None else Some(m.(stack := Matched(m.stack, true)))
    case EndifLine => if |m.stack| == 1 then None else Some(m.(stack := m.stack[..|m.stack| - 1]))
    case ActionLine(action) =>
      Some(if CanExecute(m.stack) then m.(e := Effect(m.e.ran + [action], Executed(action, m.e.env))) else m)
  }

  function RunLines(lines: seq<Line>, m: Machine): (r: Option<Machine>)
    requires m.stack != []
    ensures r.Some? ==> r.value.stack != []
  {
    if lines == [] then Some(m)
    else
      match Step(m, lines[0])
      case None => None
      case Some(m') => RunLines(lines[1..], m')
  }

  class IfStack {
    var stack: seq<int>

    constructor ()
      ensures stack == [1]
    {
      stack := [1];
    }

    method StartIf()
      requires stack != []
      modifies this
      ensures stack == Started(old(stack))
    {
      if stack[|stack| - 1] == 1 {
        stack := stack + [0];
      } else {
        stack := stack + [2];
      }
    }

    method SetMatch(matches: bool) returns (ok: bool)
      requires stack != []
      modifies this
      ensures ok <==> |old(stack)| != 1
      ensures stack == if ok then Matched(old(stack), matches) else old(stack)
    {
      if |stack| == 1 {
        return false;
      }
      var top := |stack| - 1;
      var state := stack[top];
      if state == 1 || (state == 0 && matches) {
        stack := stack[top := state + 1];
      }
      return true;
    }

    method EndIf() returns (ok: bool)
      requires stack != []
      modifies this
      ensures ok <==> |old(stack)| != 1
      ensures stack == old(stack)[..|old(stack)| - 1]
    {
      stack := stack[..|stack| - 1];
      ok := stack != [];
    }

    method Finish() returns (ok: bool)
      requires stack != []
      ensures ok <==> |stack| == 1
    {
      ok := |stack| == 1;
    }
  }

  // The conditional part of launch over the lines of a file.
  function Launched(lines: seq<Line>, env: Env): Option<Effect> {
    match RunLines(lines, Machine([1], Effect([], env)))
    case None => None
    case Some(m) => if |m.stack| == 1 then Some(m.e) else None
  }

  method Launch(lines: seq<Line>, env: Env) returns (r: Option<Effect>)
    ensures r.Some? <==> exists items :: Flatten(items) == lines
    ensures forall items :: Flatten(items) == lines ==> r == Some(Interpret(items, Effect([], env)))
  {
    hide *;
    FlatIsNested(lines, env);
    r := LaunchLines(lines, env);
  }

  method LaunchLines(lines: seq<Line>, env: Env) returns (r: Option<Effect>)
    ensures r == Launched(lines, env)
  {
    hide Matched, Started, Holds, Executed;
    var ifstack := new IfStack();
    var e := Effect([], env);
    for i := 0 to |lines|
      invariant ifstack.stack != [] && fresh(ifstack)
      invariant RunLines(lines, Machine([1], Effect([], env))) == RunLines(lines[i..], Machine(ifstack.stack, e))
    {
      var line, ok := lines[i], true;
      match line {
        case IfLine(cond) =>
          ifstack.StartIf();
          ok := ifstack.SetMatch(Holds(cond, e.env));
        case ElifLine(cond) =>
          ok := ifstack.SetMatch(Holds(cond, e.env));
        case ElseLine =>
          ok := ifstack.SetMatch(true);
        case EndifLine =>
          ok := ifstack.EndIf();
        case ActionLine(action) =>
          if CanExecute(ifstack.stack) {
            e := Effect(e.ran + [action], Executed(action, e.env));
          }
      }
      if !ok {
        return None;
      }
    }
    var finished := ifstack.Finish();
    r := if finished then Some(e) else None;
  }

  // ---- the machine follows the blocks ----

  // The run goes on with further lines, unless it has failed.
  function Then(r: Option<Machine>, lines: seq<Line>): Option<Machine>
    requires r.Some? ==> r.value.stack != []
  {
    if r.None? then None else RunLines(lines, r.value)
  }

  lemma {:induction false} RunAppend(a: seq<Line>, b: seq<Line>, m: Machine)
    requires m.stack != []
    ensures RunLines(a + b, m) == Then(RunLines(a, m), b)
  {
    if a == [] {
      assert a + b == b;
    } else {
      hide Step;
      assert (a + b)[1..] == a[1..] + b;
      match Step(m, a[0])
      case None =>
      case Some(m') => RunAppend(a[1..], b, m');
    }
  }

  lemma RunFirst(line: Line, lines: seq<Line>, m: Machine)
    requires m.stack != []
    ensures RunLines([line] + lines, m) == Then(Step(m, line), lines)
  {
    hide Step;
    assert ([line] + lines)[1..] == lines;
  }

  // Where the machine cannot execute, whole blocks leave no trace.
  lemma {:induction false} SkipItems(items: Items, m: Machine)
    requires m.stack != [] && !CanExecute(m.stack)
    ensures RunLines(Flatten(items), m) == Some(m)
  {
    match items
    case Nil =>
    case Do(action, rest) =>
      RunFirst(ActionLine(action), Flatten(rest), m);
      SkipItems(rest, m);
    case If(cond, body, more, rest) =>
      var inside := m.(stack := m.stack + [2]);
      FlatIf(items, m);
      assert Matched(Started(m.stack), Holds(cond, m.e.env)) == inside.stack;
      SkipItems(body, inside);
      SkipBranches(more, inside);
      assert inside.stack[..|inside.stack| - 1] == m.stack;
      SkipItems(rest, m);
  }

  // After a branch was taken, or where none may be, the others do nothing.
  lemma {:induction false} SkipBranches(more: Branches, m: Machine)
    requires |m.stack| > 1 && m.stack[|m.stack| - 1] in {1, 2}
    ensures RunLines(FlattenBranches(more), m) == Some(m.(stack := m.stack[..|m.stack| - 1]))
  {
    match more
    case NoMore =>
    case Elif(cond, body, next) =>
      var done := m.(stack := Matched(m.stack, Holds(cond, m.e.env)));
      FlatBranch(ElifLine(cond), body, next, m);
      SkipItems(body, done);
      SkipBranches(next, done);
    case Else(body, next) =>
      var done := m.(stack := Matched(m.stack, true));
      FlatBranch(ElseLine, body, next, m);
      SkipItems(body, done);
      SkipBranches(next, done);
  }

  lemma FlatIf(items: Items, m: Machine)
    requires m.stack != [] && items.If?
    ensures RunLines(Flatten(items), m) ==
      var first := m.(stack := Matched(Started(m.stack), Holds(items.cond, m.e.env)));
      Then(Then(RunLines(Flatten(items.body), first), FlattenBranches(items.more)), Flatten(items.rest))
  {
    hide RunLines, Matched, Started, Holds;
    var b, c, d := Flatten(items.body), FlattenBranches(items.more), Flatten(items.rest);
    assert Flatten(items) == [IfLine(items.cond)] + (b + c + d);
    RunFirst(IfLine(items.cond), b + c + d, m);
    var first := m.(stack := Matched(Started(m.stack), Holds(items.cond, m.e.env)));
    RunAppend(b + c, d, first);
    RunAppend(b, c, first);
  }

  lemma FlatBranch(line: Line, body: Items, more: Branches, m: Machine)
    requires |m.stack| > 1 && (line.ElifLine? || line.ElseLine?)
    ensures RunLines([line] + Flatten(body) + FlattenBranches(more), m) ==
      var first := m.(stack := Matched(m.stack, line.ElifLine? ==> Holds(line.cond, m.e.env)));
      Then(RunLines(Flatten(body), first), FlattenBranches(more))
  {
    hide RunLines, Matched, Holds, Flatten, FlattenBranches;
    var b, c := Flatten(body), FlattenBranches(more);
    assert [line] + b + c == [line] + (b + c);
    RunFirst(line, b + c, m);
    RunAppend(b, c, m.(stack := Matched(m.stack, line.ElifLine? ==> Holds(line.cond, m.e.env))));
  }

  // Where the machine can execute, it does what the blocks mean and restores the stack.
  lemma {:induction false} FollowItems(items: Items, m: Machine)
    requires m.stack != [] && CanExecute(m.stack)
    ensures RunLines(Flatten(items), m) == Some(m.(e := Interpret(items, m.e)))
  {
    match items
    case Nil =>
    case Do(action, rest) =>
      RunFirst(ActionLine(action), Flatten(rest), m);
      FollowItems(rest, m.(e := Effect(m.e.ran + [action], Executed(action, m.e.env))));
    case If(cond, body, more, rest) =>
      FlatIf(items, m);
      var inside := m.(stack := Matched(Started(m.stack), Holds(cond, m.e.env)));
      if Holds(cond, m.e.env) {
        FollowItems(body, inside);
        SkipBranches(more, inside.(e := Interpret(body, m.e)));
      } else {
        SkipItems(body, inside);
        FollowBranches(more, inside);
      }
      assert inside.stack[..|inside.stack| - 1] == m.stack;
      FollowItems(rest, m.(e := if Holds(cond, m.e.env) then Interpret(body, m.e) else InterpretBranches(more, m.e)));
  }

  lemma {:induction false} FollowBranches(more: Branches, m: Machine)
    requires |m.stack| > 1 && m.stack[|m.stack| - 1] == 0
    ensures RunLines(FlattenBranches(more), m) ==
      Some(Machine(m.stack[..|m.stack| - 1], InterpretBranches(more, m.e)))
  {
    match more
    case NoMore =>
    case Elif(cond, body, next) =>
      FlatBranch(ElifLine(cond), body, next, m);
      var inside := m.(stack := Matched(m.stack, Holds(cond, m.e.env)));
      if Holds(cond, m.e.env) {
        FollowItems(body, inside);
        SkipBranches(next, inside.(e := Interpret(body, m.e)));
      } else {
        SkipItems(body, inside);
        FollowBranches(next, inside);
      }
    case Else(body, next) =>
      FlatBranch(ElseLine, body, next, m);
      var inside := m.(stack := Matched(m.stack, true));
      FollowItems(body, inside);
      SkipBranches(next, inside.(e := Interpret(body, m.e)));
  }

  // ---- only nested files run through ----

  // The lines close d open blocks and every block they open.
  predicate Balanced(lines: seq<Line>, d: nat) {
    if lines == [] then d == 0
    else
      match lines[0]
      case IfLine(_) => Balanced(lines[1..], d + 1)
      case ActionLine(_) => Balanced(lines[1..], d)
      case EndifLine => d > 0 && Balanced(lines[1..], d - 1)
      case _ => d > 0 && Balanced(lines[1..], d)
  }

  lemma {:induction false} RunsIffBalanced(lines: seq<Line>, m: Machine)
    requires m.stack != []
    ensures var r := RunLines(lines, m);
      (r.Some? && |r.value.stack| == 1) <==> Balanced(lines, |m.stack| - 1)
  {
    hide Matched, Started, Holds, Executed, CanExecute;
    if lines != [] {
      var next := Step(m, lines[0]);
      if next.Some? {
        RunsIffBalanced(lines[1..], next.value);
      }
    }
  }

  predicate BranchHead(lines: seq<Line>) {
    lines != [] && (lines[0].ElifLine? || lines[0].ElseLine? || lines[0].EndifLine?)
  }

  lemma FlatIfFirst(cond: Cond, body: Items, more: Branches, tail: Items, rest: seq<Line>)
    ensures Flatten(If(cond, body, more, tail)) + rest
         == [IfLine(cond)] + (Flatten(body) + (FlattenBranches(more) + (Flatten(tail) + rest)))
  {
  }

  lemma FlatBranchFirst(line: Line, body: Items, more: Branches, rest: seq<Line>)
    requires line.ElifLine? || line.ElseLine?
    ensures var all := if line.ElifLine? then Elif(line.cond, body, more) else Else(body, more);
      FlattenBranches(all) + rest == [line] + (Flatten(body) + (FlattenBranches(more) + rest))
  {
  }

  lemma FlatDoFirst(action: Action, tail: Items, rest: seq<Line>)
    ensures Flatten(Do(action, tail)) + rest == [ActionLine(action)] + (Flatten(tail) + rest)
  {
  }

  lemma FlatEnds()
    ensures Flatten(Nil) == [] && FlattenBranches(NoMore) == [EndifLine]
  {
  }

  lemma {:induction false} ParseItems(lines: seq<Line>, d: nat) returns (items: Items, rest: seq<Line>)
    requires Balanced(lines, d)
    ensures lines == Flatten(items) + rest && Balanced(rest, d)
    ensures if d == 0 then rest == [] else BranchHead(rest)
    decreases |lines|, 1
  {
    hide Flatten, FlattenBranches;
    FlatEnds();
    if lines == [] || BranchHead(lines) {
      items, rest := Nil, lines;
    } else if lines[0].ActionLine? {
      var tail;
      tail, rest := ParseItems(lines[1..], d);
      items := Do(lines[0].action, tail);
      FlatDoFirst(lines[0].action, tail, rest);
      assert lines == [lines[0]] + lines[1..];
    } else {
      var body, afterBody := ParseItems(lines[1..], d + 1);
      var more, afterBlock := ParseBranches(afterBody, d + 1);
      var tail;
      tail, rest := ParseItems(afterBlock, d);
      items := If(lines[0].cond, body, more, tail);
      FlatIfFirst(lines[0].cond, body, more, tail, rest);
      assert lines == [lines[0]] + lines[1..];
    }
  }

  lemma {:induction false} ParseBranches(lines: seq<Line>, d: nat) returns (more: Branches, rest: seq<Line>)
    requires d > 0 && Balanced(lines, d) && BranchHead(lines)
    ensures lines == FlattenBranches(more) + rest && Balanced(rest, d - 1) && |rest| < |lines|
    decreases |lines|, 0
  {
    hide Flatten, FlattenBranches;
    FlatEnds();
    if lines[0].EndifLine? {
      more, rest := NoMore, lines[1..];
      assert lines == [lines[0]] + rest;
    } else {
      var body, afterBody := ParseItems(lines[1..], d);
      var next;
      next, rest := ParseBranches(afterBody, d);
      more := if lines[0].ElifLine? then Elif(lines[0].cond, body, next) else Else(body, next);
      FlatBranchFirst(lines[0], body, next, rest);
      assert lines == [lines[0]] + lines[1..];
    }
  }

  // A file runs through exactly if it is the text of nested blocks, and then it does what
  // they mean.
  lemma FlatIsNested(lines: seq<Line>, env: Env)
    ensures Launched(lines, env).Some? <==> exists items :: Flatten(items) == lines
    ensures forall items :: Flatten(items) == lines ==> Launched(lines, env) == Some(Interpret(items, Effect([], env)))
  {
    hide Flatten, Interpret, Step, RunLines, Balanced;
    var m := Machine([1], Effect([], env));
    forall items | Flatten(items) == lines
      ensures Launched(lines, env) == Some(Interpret(items, Effect([], env)))
    {
      FollowItems(items, m);
    }
    if Launched(lines, env).Some? {
      RunsIffBalanced(lines, m);
      var items, rest := ParseItems(lines, 0);
      assert Flatten(items) == lines;
    }
  }

  // ---- which branch is taken ----

  datatype Clause = Clause(cond: Option<Cond>, body: Items)

  function Clauses(more: Branches): seq<Clause> {
    match more
    case NoMore => []
    case Elif(cond, body, m) => [Clause(Some(cond), body)] + Clauses(m)
    case Else(body, m) => [Clause(None, body)] + Clauses(m)
  }

  predicate Known(name: string, env: Env) {
    name in env.variables || name in env.gvariables
  }

  // An else is open to all, the others to a variable that is set, or that is not.
  predicate Open(c: Option<Cond>, env: Env) {
    c.Some? ==> (c.value.Defined? <==> Known(c.value.name, env))
  }

  // The first branch that is open at the if is executed, and no other one.
  ghost predicate FirstOpenRuns(cs: seq<Clause>, e: Effect, r: Effect) {
    && ((forall k :: 0 <= k < |cs| ==> !Open(cs[k].cond, e.env)) ==> r == e)
    && forall i :: 0 <= i < |cs| && Open(cs[i].cond, e.env) && (forall k :: 0 <= k < i ==> !Open(cs[k].cond, e.env)) ==>
         r == Interpret(cs[i].body, e)
  }

  lemma {:induction false} BranchesTakeFirst(more: Branches, e: Effect)
    ensures FirstOpenRuns(Clauses(more), e, InterpretBranches(more, e))
  {
    hide Interpret;
    match more
    case NoMore =>
    case Elif(cond, body, m) =>
      BranchesTakeFirst(m, e);
      ClauseInFront(Clause(Some(cond), body), Clauses(m), e, InterpretBranches(m, e));
    case Else(body, m) =>
      ClauseInFront(Clause(None, body), Clauses(m), e, e);
  }

  lemma ClauseInFront(c: Clause, cs: seq<Clause>, e: Effect, r: Effect)
    requires Open(c.cond, e.env) || FirstOpenRuns(cs, e, r)
    ensures FirstOpenRuns([c] + cs, e, if Open(c.cond, e.env) then Interpret(c.body, e) else r)
  {
    hide Interpret, Open;
    var all := [c] + cs;
    assert all[0] == c && forall k :: 0 <= k < |cs| ==> all[k + 1] == cs[k];
    forall i | 0 <= i < |all| && Open(all[i].cond, e.env) && (forall k :: 0 <= k < i ==> !Open(all[k].cond, e.env))
      ensures Open(c.cond, e.env) ==> i == 0
      ensures !Open(c.cond, e.env) ==> r == Interpret(all[i].body, e)
    {
      if !Open(c.cond, e.env) {
        assert all[i] == cs[i - 1];
        assert forall k :: 0 <= k < i - 1 ==> cs[k] == all[k + 1];
      }
    }
    if forall k :: 0 <= k < |all| ==> !Open(all[k].cond, e.env) {
      assert forall k :: 0 <= k < |cs| ==> cs[k] == all[k + 1];
    }
  }

  lemma FirstOpenBranch(cond: Cond, body: Items, more: Branches, e: Effect)
    ensures FirstOpenRuns([Clause(Some(cond), body)] + Clauses(more), e, Interpret(If(cond, body, more, Nil), e))
  {
    hide FirstOpenRuns;
    BranchesTakeFirst(more, e);
    ClauseInFront(Clause(Some(cond), body), Clauses(more), e, InterpretBranches(more, e));
  }

  // ---- what a condition sees ----

  function ActionLines(acts: seq<Action>): seq<Line> {
    if acts == [] then [] else ActionLines(acts[..|acts| - 1]) + [ActionLine(acts[|acts| - 1])]
  }

  function EnvAfter(acts: seq<Action>, env: Env): Env {
    if acts == [] then env else Executed(acts[|acts| - 1], EnvAfter(acts[..|acts| - 1], env))
  }

  // Set at first or by one of these actions, and not unset since.
  ghost predicate StillSet(acts: seq<Action>, name: string, atFirst: bool) {
    || (atFirst && NeverUnset(acts, name, 0))
    || exists i :: 0 <= i < |acts| && acts[i].Set? && acts[i].name == name && NeverUnset(acts, name, i)
  }

  ghost predicate NeverUnset(acts: seq<Action>, name: string, from: int) {
    forall j :: from <= j < |acts| && 0 <= j ==> acts[j] != Unset(name)
  }

  ghost predicate StillGset(acts: seq<Action>, name: string, atFirst: bool) {
    || (atFirst && NeverGunset(acts, name, 0))
    || exists i :: 0 <= i < |acts| && acts[i].Gset? && acts[i].name == name && NeverGunset(acts, name, i)
  }

  ghost predicate NeverGunset(acts: seq<Action>, name: string, from: int) {
    forall j :: from <= j < |acts| && 0 <= j ==> acts[j] != Gunset(name)
  }

  lemma StillSetStep(acts: seq<Action>, act: Action, name: string, atFirst: bool)
    ensures StillSet(acts + [act], name, atFirst)
       <==> (act.Set? && act.name == name) || (StillSet(acts, name, atFirst) && act != Unset(name))
  {
    var longer, n := acts + [act], |acts|;
    assert forall i :: 0 <= i < n ==> longer[i] == acts[i];
    assert longer[n] == act;
    if act.Set? && act.name == name {
      assert NeverUnset(longer, name, n);
    }
    forall from | 0 <= from <= n
      ensures NeverUnset(longer, name, from) <==> NeverUnset(acts, name, from) && act != Unset(name)
    {
    }
  }

  lemma StillGsetStep(acts: seq<Action>, act: Action, name: string, atFirst: bool)
    ensures StillGset(acts + [act], name, atFirst)
       <==> (act.Gset? && act.name == name) || (StillGset(acts, name, atFirst) && act != Gunset(name))
  {
    var longer, n := acts + [act], |acts|;
    assert forall i :: 0 <= i < n ==> longer[i] == acts[i];
    assert longer[n] == act;
    if act.Gset? && act.name == name {
      assert NeverGunset(longer, name, n);
    }
    forall from | 0 <= from <= n
      ensures NeverGunset(longer, name, from) <==> NeverGunset(acts, name, from) && act != Gunset(name)
    {
    }
  }

  lemma {:induction false} KnownAfter(acts: seq<Action>, name: string, env: Env)
    ensures name in EnvAfter(acts, env).variables <==> StillSet(acts, name, name in env.variables)
    ensures name in EnvAfter(acts, env).gvariables <==> StillGset(acts, name, name in env.gvariables)
  {
    if acts != [] {
      hide StillSet, StillGset;
      var front, last := acts[..|acts| - 1], acts[|acts| - 1];
      assert acts == front + [last];
      KnownAfter(front, name, env);
      StillSetStep(front, last, name, name in env.variables);
      StillGsetStep(front, last, name, name in env.gvariables);
    }
  }

  // A variable has the value it was last set to.
  lemma {:induction false} ValueIsLast(acts: seq<Action>, i: nat, env: Env)
    requires i < |acts| && (acts[i].Set? || acts[i].Gset?)
    requires forall j :: i < j < |acts| ==>
               match acts[j]
               case Set(name, _) => acts[i].Gset? || name != acts[i].name
               case Unset(name) => acts[i].Gset? || name != acts[i].name
               case Gset(name, _) => acts[i].Set? || name != acts[i].name
               case Gunset(name) => acts[i].Set? || name != acts[i].name
               case Other(_) => true
    ensures var after := if acts[i].Set? then EnvAfter(acts, env).variables else EnvAfter(acts, env).gvariables;
      acts[i].name in after && after[acts[i].name] == acts[i].value
  {
    if i < |acts| - 1 {
      ValueIsLast(acts[..|acts| - 1], i, env);
    }
  }

  lemma {:induction false} ActionsRun(acts: seq<Action>, m: Machine)
    requires m.stack != [] && CanExecute(m.stack)
    ensures RunLines(ActionLines(acts), m)
         == Some(Machine(m.stack, Effect(m.e.ran + acts, EnvAfter(acts, m.e.env))))
  {
    if acts == [] {
      assert m.e.ran + [] == m.e.ran;
    } else {
      var front, last := acts[..|acts| - 1], acts[|acts| - 1];
      ActionsRun(front, m);
      RunAppend(ActionLines(front), [ActionLine(last)], m);
      assert m.e.ran + front + [last] == m.e.ran + acts;
      RunFirst(ActionLine(last), [], RunLines(ActionLines(front), m).value);
      assert [ActionLine(last)] + [] == [ActionLine(last)];
    }
  }

  lemma IfElse(cond: Cond, x: Action, y: Action, e: Effect)
    ensures var items := If(cond, Do(x, Nil), Else(Do(y, Nil), NoMore), Nil);
      && Flatten(items) == [IfLine(cond), ActionLine(x), ElseLine, ActionLine(y), EndifLine]
      && Interpret(items, e).ran == e.ran + [if Known(cond.name, e.env) <==> cond.Defined? then x else y]
  {
    FlatDo(x);
    FlatDo(y);
    assert FlattenBranches(Else(Do(y, Nil), NoMore)) == [ElseLine, ActionLine(y), EndifLine];
    assert Interpret(Do(x, Nil), e).ran == e.ran + [x];
    assert Interpret(Do(y, Nil), e).ran == e.ran + [y];
  }

  lemma FlatDo(x: Action)
    ensures Flatten(Do(x, Nil)) == [ActionLine(x)]
  {
    assert Flatten(Nil) == [];
  }

  // In a file of actions before an if with an else, the variable's last set or unset decides
  // which of the two is executed.
  lemma LastSetDecides(acts: seq<Action>, name: string, negated: bool, x: Action, y: Action, env: Env)
    ensures var cond := if negated then Undefined(name) else Defined(name);
      var r := Launched(ActionLines(acts) + [IfLine(cond), ActionLine(x), ElseLine, ActionLine(y), EndifLine], env);
      && r.Some?
      && var known := StillSet(acts, name, name in env.variables) || StillGset(acts, name, name in env.gvariables);
         r.value.ran == acts + [if known != negated then x else y]
  {
    hide StillSet, StillGset, Flatten, Interpret, RunLines;
    var cond := if negated then Undefined(name) else Defined(name);
    var block := [IfLine(cond), ActionLine(x), ElseLine, ActionLine(y), EndifLine];
    var m, after := Machine([1], Effect([], env)), Effect(acts, EnvAfter(acts, env));
    ActionsRun(acts, m);
    assert [] + acts == acts;
    RunAppend(ActionLines(acts), block, m);
    KnownAfter(acts, name, env);
    IfElse(cond, x, y, after);
    FollowItems(If(cond, Do(x, Nil), Else(Do(y, Nil), NoMore), Nil), Machine([1], after));
  }
}
