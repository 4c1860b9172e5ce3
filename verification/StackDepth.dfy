/** The static stack top at each operation. Emitting an operation moves it by what the operation
    does when it is executed, as if the operations were run through from the first to the last.
    At run time the cells of a frame are one more at and after each PopR, the second way out of a
    one-armed ifNil:, and never differ otherwise. */
module StackDepth {
  import opened Trees
  import opened Machine
  import opened Layout
  import opened Runs
  import opened Simulation

  /** What emitting an operation does to the static stack top. */
  function Effect(op: Op): int {
    match op
    case PushR => 1
    case PopR => -1
    case DropToS(count) => 0 - count
    case _ => 0
  }

  function Static(ops: seq<Op>): int {
    if ops == [] then 0 else Static(ops[..|ops| - 1]) + Effect(ops[|ops| - 1])
  }

  /** How many operations give the receiver of an ifNil: back. */
  function Pops(ops: seq<Op>): nat {
    if ops == [] then 0 else Pops(ops[..|ops| - 1]) + if ops[|ops| - 1].PopR? then 1 else 0
  }

  lemma StaticPush(ops: seq<Op>, op: Op)
    ensures Static(ops + [op]) == Static(ops) + Effect(op)
    ensures Pops(ops + [op]) == Pops(ops) + if op.PopR? then 1 else 0
  {
    assert (ops + [op])[..|ops|] == ops;
  }

  lemma {:induction false} StaticOtherTarget(ops: seq<Op>, k: nat, op: Op)
    requires k < |ops| && IsJump(ops[k]) && IsJump(op)
    ensures Static(ops[k := op]) == Static(ops)
  {
    var front, last := ops[..|ops| - 1], ops[|ops| - 1];
    if k < |front| {
      StaticOtherTarget(front, k, op);
      assert ops[k := op] == front[k := op] + [last];
    } else {
      assert ops[k := op] == front + [op];
    }
    StaticPush(front, op);
    assert ops == front + [last];
  }

  lemma {:induction false} NoPops(ops: seq<Op>)
    ensures Pops(ops) == 0 <==> forall op :: op in ops ==> !op.PopR?
  {
    if ops != [] {
      NoPops(ops[..|ops| - 1]);
      assert ops == ops[..|ops| - 1] + [ops[|ops| - 1]];
    }
  }

  // ---- levels of a whole code

  /** How far the cells stand above those of an empty stack, were there no second ways out. */
  function Level(code: seq<Op>, i: nat): int
    requires i <= |code|
  {
    Static(code[..i]) + Pops(code[..i])
  }

  lemma LevelNext(code: seq<Op>, i: nat)
    requires i < |code|
    ensures Level(code, i + 1) == Level(code, i) + if code[i].PopR? then 0 else Effect(code[i])
  {
    assert code[..i + 1] == code[..i] + [code[i]];
    StaticPush(code[..i], code[i]);
  }

  predicate PopAt(code: seq<Op>, i: nat) {
    i < |code| && code[i].PopR?
  }

  /** The cells above those of an empty stack when an operation is about to be executed. */
  function Depth(code: seq<Op>, i: nat): int
    requires i <= |code|
  {
    Level(code, i) + if PopAt(code, i) then 1 else 0
  }

  /** A jump goes where the depth is its own, and what is popped has been jumped to. */
  predicate InStep(code: seq<Op>, i: nat)
    requires i < |code|
  {
    && (IsJump(code[i]) ==> code[i].target <= |code| && Depth(code, code[i].target) == Level(code, i))
    && (PopAt(code, i + 1) ==> code[i].Jump?)
  }

  /** A stretch of code that moves the depth by `net`. */
  predicate Tidy(code: seq<Op>, from: nat, to: nat, net: int) {
    && from <= to <= |code| && Level(code, to) == Level(code, from) + net && !PopAt(code, from)
    && forall i :: from <= i < to ==> InStep(code, i)
  }

  lemma TidyNone(code: seq<Op>, pc: nat)
    requires pc <= |code| && !PopAt(code, pc)
    ensures Tidy(code, pc, pc, 0)
  {}

  lemma TidyAppend(code: seq<Op>, a: nat, b: nat, c: nat, first: int, second: int)
    requires Tidy(code, a, b, first) && Tidy(code, b, c, second)
    ensures Tidy(code, a, c, first + second)
  {
    hide InStep, Level;
  }

  /** An operation that goes on with the next one. */
  predicate Plain(op: Op) {
    !IsJump(op) && !op.PopR?
  }

  lemma TidyOne(code: seq<Op>, pc: nat, op: Op)
    requires At(code, pc, [op]) && Plain(op) && !PopAt(code, pc + 1)
    ensures Tidy(code, pc, pc + 1, Effect(op))
  {
    assert code[pc + 0] == [op][0];
    LevelNext(code, pc);
  }

  lemma TidyJump(code: seq<Op>, pc: nat, op: Op)
    requires At(code, pc, [op]) && IsJump(op)
    ensures pc < |code| && code[pc] == op && Level(code, pc + 1) == Level(code, pc)
  {
    assert code[pc + 0] == [op][0];
    LevelNext(code, pc);
  }

  lemma {:induction false} TidyOps(code: seq<Op>, pc: nat, ops: seq<Op>)
    requires At(code, pc, ops) && (forall op :: op in ops ==> Plain(op)) && !PopAt(code, pc + |ops|)
    ensures Tidy(code, pc, pc + |ops|, Static(ops))
    decreases |ops|
  {
    hide Level;
    if ops == [] {
      TidyNone(code, pc);
    } else {
      var front, last := ops[..|ops| - 1], ops[|ops| - 1];
      assert ops == front + [last];
      AtSplit(code, pc, front, [last]);
      TidyOne(code, pc + |front|, last);
      TidyOps(code, pc, front);
      TidyAppend(code, pc, pc + |front|, pc + |ops|, Static(front), Effect(last));
    }
  }

  lemma StaticSeven(load: Op, selector: Selector, arg: Op)
    requires Effect(load) == 0 && Effect(arg) == 0
    ensures Static([load, PushR, arg, PushR, LoadRfromStack(1), Dispatch(selector, false, 1), DropToS(2)]) == 0
  {
    hide Static;
    var ops := [load, PushR, arg, PushR, LoadRfromStack(1), Dispatch(selector, false, 1), DropToS(2)];
    NothingStatic();
    forall i | 0 <= i < 7
      ensures Static(ops[..i + 1]) == Static(ops[..i]) + Effect(ops[i])
    {
      assert ops[..i + 1] == ops[..i] + [ops[i]];
      StaticPush(ops[..i], ops[i]);
    }
    assert ops[..0] == [] && ops[..7] == ops;
    assert Static(ops[..1]) == 0 && Static(ops[..2]) == 1;
    assert Static(ops[..3]) == 1 && Static(ops[..4]) == 2;
    assert Static(ops[..5]) == 2 && Static(ops[..6]) == 2;
  }

  lemma {:induction false} StaticZero(ops: seq<Op>)
    requires forall op :: op in ops ==> Effect(op) == 0
    ensures Static(ops) == 0
  {
    if ops != [] {
      StaticZero(ops[..|ops| - 1]);
    }
  }

  lemma NothingStatic()
    ensures Static([]) == 0 && Pops([]) == 0
  {}

  lemma TidySeven(code: seq<Op>, pc: nat, load: Op, selector: Selector, arg: Op)
    requires At(code, pc, [load, PushR, arg, PushR, LoadRfromStack(1), Dispatch(selector, false, 1), DropToS(2)])
    requires Plain(load) && Plain(arg) && Effect(load) == 0 && Effect(arg) == 0 && !PopAt(code, pc + 7)
    ensures Tidy(code, pc, pc + 7, 0)
  {
    StaticSeven(load, selector, arg);
    TidyOps(code, pc, [load, PushR, arg, PushR, LoadRfromStack(1), Dispatch(selector, false, 1), DropToS(2)]);
  }

  // ---- the code of trees

  /** Every tree's code is tidy wherever it stands, if no PopR follows. */
  lemma {:induction false} TidyTree(code: seq<Op>, e: Expr, pc: nat, top: int, inBlock: bool)
    requires At(code, pc, Lin(e, pc, top, inBlock)) && !PopAt(code, pc + |Lin(e, pc, top, inBlock)|)
    ensures Tidy(code, pc, pc + |Lin(e, pc, top, inBlock)|, 0)
    decreases e, 2
  {
    hide At, Lin, Tidy;
    match e
    case Literal(_) => TidyLeaf(code, e, pc, top, inBlock);
    case Identifier(_) => TidyLeaf(code, e, pc, top, inBlock);
    case Closure(_, _, _) => TidyLeaf(code, e, pc, top, inBlock);
    case Assignment(_, _) => TidyLast(code, e, pc, top, inBlock);
    case Return(_, _) => TidyLast(code, e, pc, top, inBlock);
    case Send(_, _, _, _) => TidySend(code, e, pc, top, inBlock);
    case Cascade(_, _, _) => TidyCascade(code, e, pc, top, inBlock);
    case If(_, _, _) => TidyIf(code, e, pc, top, inBlock);
    case IfElse(_, _, _, _) => TidyIfElse(code, e, pc, top, inBlock);
    case IfNil(_, _, _) => TidyIfNil(code, e, pc, top, inBlock);
    case IfNilElse(_, _, _, _) => TidyIfNilElse(code, e, pc, top, inBlock);
    case WhileUnary(_, _) => TidyWhile(code, e, pc, top, inBlock);
    case While(_, _, _) => TidyWhile(code, e, pc, top, inBlock);
    case Repeat(_) => TidyWhile(code, e, pc, top, inBlock);
    case ToDo(_, _, _, _) => TidyToDo(code, e, pc, top, inBlock);
    case TimesRepeat(_, _) => TidyTimesRepeat(code, e, pc, top, inBlock);
    case And(_, _) => TidyLogic(code, e, pc, top, inBlock);
    case Or(_, _) => TidyLogic(code, e, pc, top, inBlock);
    case AndNot(_, _) => TidyNegated(code, e, pc, top, inBlock);
    case OrNot(_, _) => TidyNegated(code, e, pc, top, inBlock);
  }

  lemma TidyLeaf(code: seq<Op>, e: Expr, pc: nat, top: int, inBlock: bool)
    requires e.Literal? || e.Identifier? || e.Closure?
    requires At(code, pc, Lin(e, pc, top, inBlock)) && !PopAt(code, pc + |Lin(e, pc, top, inBlock)|)
    ensures Tidy(code, pc, pc + |Lin(e, pc, top, inBlock)|, 0)
  {
    hide At, Lin, Tidy;
    LinLeaf(e, pc, top, inBlock);
    TidyOne(code, pc, Lin(e, pc, top, inBlock)[0]);
  }

  lemma {:induction false} TidyLast(code: seq<Op>, e: Expr, pc: nat, top: int, inBlock: bool)
    requires e.Assignment? || e.Return?
    requires At(code, pc, Lin(e, pc, top, inBlock)) && !PopAt(code, pc + |Lin(e, pc, top, inBlock)|)
    ensures Tidy(code, pc, pc + |Lin(e, pc, top, inBlock)|, 0)
    decreases e, 1
  {
    hide At, Lin, Tidy;
    LinLeaf(e, pc, top, inBlock);
    var c := Lin(e.expression, pc, top, inBlock);
    var op := if e.Assignment? then Assign(e.assignees) else if e.local && !inBlock then ReturnOp else NonLocalReturn;
    AtSplit(code, pc, c, [op]);
    TidyOne(code, pc + |c|, op);
    TidyFrom(code, pc + |c|, pc + |c| + 1, Effect(op));
    TidyTree(code, e.expression, pc, top, inBlock);
    TidyAppend(code, pc, pc + |c|, pc + |c| + 1, 0, 0);
  }

  lemma TidyFrom(code: seq<Op>, from: nat, to: nat, net: int)
    requires Tidy(code, from, to, net)
    ensures !PopAt(code, from) && from <= to <= |code| && Level(code, to) == Level(code, from) + net
  {}

  lemma {:induction false} TidyArgs(code: seq<Op>, args: seq<Expr>, pc: nat, top: int, inBlock: bool)
    requires At(code, pc, LinArgs(args, pc, top, inBlock)) && !PopAt(code, pc + |LinArgs(args, pc, top, inBlock)|)
    ensures Tidy(code, pc, pc + |LinArgs(args, pc, top, inBlock)|, |args|)
    decreases args, 0
  {
    hide At, Lin, LinArgs, Tidy;
    if args == [] {
      NoArgs(pc, top, inBlock);
      AtWithin(code, pc, []);
      TidyNone(code, pc);
    } else {
      LinArgsCons(args, pc, top, inBlock);
      var c := Lin(args[0], pc, top, inBlock);
      var rest := LinArgs(args[1..], pc + |c| + 1, top - Skew(args[0]) + 1, inBlock);
      AtSplit3(code, pc, c, [PushR], rest);
      TidyArgs(code, args[1..], pc + |c| + 1, top - Skew(args[0]) + 1, inBlock);
      TidyFrom(code, pc + |c| + 1, pc + |c| + 1 + |rest|, |args| - 1);
      TidyOne(code, pc + |c|, PushR);
      TidyFrom(code, pc + |c|, pc + |c| + 1, 1);
      TidyTree(code, args[0], pc, top, inBlock);
      TidyAppend(code, pc, pc + |c|, pc + |c| + 1, 0, 1);
      TidyAppend(code, pc, pc + |c| + 1, pc + |c| + 1 + |rest|, 1, |args| - 1);
    }
  }

  lemma AtWithin(code: seq<Op>, pc: nat, ops: seq<Op>)
    requires At(code, pc, ops)
    ensures pc + |ops| <= |code|
  {}

  /** A dispatch with its receiver in the stack, and what is dropped after it. */
  lemma TidyDispatch(code: seq<Op>, pc: nat, selector: Selector, toSuper: bool, count: nat, tail: seq<Op>, drop: nat)
    requires tail == if drop == 0 then [] else [DropToS(drop)]
    requires At(code, pc, [LoadRfromStack(count), Dispatch(selector, toSuper, count)] + tail)
    requires !PopAt(code, pc + 2 + |tail|)
    ensures Tidy(code, pc, pc + 2 + |tail|, 0 - drop)
  {
    hide Static, Level;
    var second: seq<Op> := [LoadRfromStack(count), Dispatch(selector, toSuper, count)];
    StaticZero(second);
    if drop == 0 {
      assert second + tail == second;
    } else {
      StaticPush(second, DropToS(drop));
    }
    TidyOps(code, pc, second + tail);
  }

  lemma {:induction false} TidySend(code: seq<Op>, e: Expr, pc: nat, top: int, inBlock: bool)
    requires e.Send?
    requires At(code, pc, Lin(e, pc, top, inBlock)) && !PopAt(code, pc + |Lin(e, pc, top, inBlock)|)
    ensures Tidy(code, pc, pc + |Lin(e, pc, top, inBlock)|, 0)
    decreases e, 1
  {
    hide At, Lin, LinArgs, Tidy;
    LinSend(e, pc, top, inBlock);
    var c := Lin(e.receiver, pc, top, inBlock);
    var args := LinArgs(e.args, pc + |c| + 1, top - Skew(e.receiver) + 1, inBlock);
    SplitSend(code, pc, c, args, e.selector, e.toSuper, |e.args|);
    var start := pc + |c| + 1 + |args|;
    if e.args == [] {
      TidyOne(code, pc + |c|, Dispatch(e.selector, e.toSuper, 0));
      TidyFrom(code, pc + |c|, pc + |c| + 1, 0);
      TidyTree(code, e.receiver, pc, top, inBlock);
      TidyAppend(code, pc, pc + |c|, pc + |c| + 1, 0, 0);
    } else {
      TidyDispatch(code, start, e.selector, e.toSuper, |e.args|, [DropToS(|e.args| + 1)], |e.args| + 1);
      TidyFrom(code, start, start + 3, -(|e.args| + 1));
      TidyArgs(code, e.args, pc + |c| + 1, top - Skew(e.receiver) + 1, inBlock);
      TidyFrom(code, pc + |c| + 1, start, |e.args|);
      TidyOne(code, pc + |c|, PushR);
      TidyFrom(code, pc + |c|, pc + |c| + 1, 1);
      TidyTree(code, e.receiver, pc, top, inBlock);
      TidyAppend(code, pc, pc + |c|, pc + |c| + 1, 0, 1);
      TidyAppend(code, pc, pc + |c| + 1, start, 1, |e.args|);
      TidyAppend(code, pc, start, start + 3, 1 + |e.args|, -(|e.args| + 1));
    }
  }

  lemma {:induction false} TidyMessages(code: seq<Op>, messages: seq<Message>, toSuper: bool, pc: nat, top: int,
                                        inBlock: bool)
    requires At(code, pc, LinMessages(messages, toSuper, pc, top, inBlock))
    requires !PopAt(code, pc + |LinMessages(messages, toSuper, pc, top, inBlock)|)
    ensures Tidy(code, pc, pc + |LinMessages(messages, toSuper, pc, top, inBlock)|, 0)
    decreases messages, 0
  {
    hide At, LinArgs, LinMessages, Tidy;
    if messages == [] {
      NoMessages(toSuper, pc, top, inBlock);
      AtWithin(code, pc, []);
      TidyNone(code, pc);
    } else {
      LinMessagesCons(messages, toSuper, pc, top, inBlock);
      var h := messages[0];
      var args := LinArgs(h.args, pc, top, inBlock);
      var tail := if h.args == [] then [] else [DropToS(|h.args|)];
      var c := CascadedCode(args, h.selector, toSuper, |h.args|);
      var rest := LinMessages(messages[1..], toSuper, pc + |c|, top - SkewAll(h.args), inBlock);
      AtSplit(code, pc, c, rest);
      Assoc(args, [LoadRfromStack(|h.args|), Dispatch(h.selector, toSuper, |h.args|)], tail);
      AtSplit(code, pc, args, [LoadRfromStack(|h.args|), Dispatch(h.selector, toSuper, |h.args|)] + tail);
      TidyMessages(code, messages[1..], toSuper, pc + |c|, top - SkewAll(h.args), inBlock);
      TidyFrom(code, pc + |c|, pc + |c| + |rest|, 0);
      TidyDispatch(code, pc + |args|, h.selector, toSuper, |h.args|, tail, |h.args|);
      TidyFrom(code, pc + |args|, pc + |c|, -|h.args|);
      TidyArgs(code, h.args, pc, top, inBlock);
      TidyAppend(code, pc, pc + |args|, pc + |c|, |h.args|, -|h.args|);
      TidyAppend(code, pc, pc + |c|, pc + |c| + |rest|, 0, 0);
    }
  }

  lemma {:induction false} TidyCascade(code: seq<Op>, e: Expr, pc: nat, top: int, inBlock: bool)
    requires e.Cascade?
    requires At(code, pc, Lin(e, pc, top, inBlock)) && !PopAt(code, pc + |Lin(e, pc, top, inBlock)|)
    ensures Tidy(code, pc, pc + |Lin(e, pc, top, inBlock)|, 0)
    decreases e, 1
  {
    hide At, Lin, LinMessages, Tidy;
    LinCascade(e, pc, top, inBlock);
    var c := Lin(e.receiver, pc, top, inBlock);
    var start := pc + |c| + 1;
    var messages := LinMessages(e.messages, e.toSuper, start, top - Skew(e.receiver) + 1, inBlock);
    AtSplit4(code, pc, c, [PushR], messages, [DropToS(1)]);
    TidyOne(code, start + |messages|, DropToS(1));
    TidyFrom(code, start + |messages|, start + |messages| + 1, -1);
    TidyMessages(code, e.messages, e.toSuper, start, top - Skew(e.receiver) + 1, inBlock);
    TidyFrom(code, start, start + |messages|, 0);
    TidyOne(code, pc + |c|, PushR);
    TidyFrom(code, pc + |c|, start, 1);
    TidyTree(code, e.receiver, pc, top, inBlock);
    TidyAppend(code, pc, pc + |c|, start, 0, 1);
    TidyAppend(code, pc, start, start + |messages|, 1, 0);
    TidyAppend(code, pc, start + |messages|, start + |messages| + 1, 1, -1);
  }

  lemma {:induction false} TidyBody(code: seq<Op>, body: seq<Expr>, pc: nat, top: int, inBlock: bool)
    requires At(code, pc, LinBody(body, pc, top, inBlock)) && !PopAt(code, pc + |LinBody(body, pc, top, inBlock)|)
    ensures Tidy(code, pc, pc + |LinBody(body, pc, top, inBlock)|, 0)
    decreases body, 0
  {
    hide At, Lin, LinBody, Tidy;
    if body == [] {
      NoStatements(pc, top, inBlock);
      AtWithin(code, pc, []);
      TidyNone(code, pc);
    } else {
      LinBodyCons(body, pc, top, inBlock);
      var c := Lin(body[0], pc, top, inBlock);
      var rest := LinBody(body[1..], pc + |c|, top - Skew(body[0]), inBlock);
      AtSplit(code, pc, c, rest);
      TidyBody(code, body[1..], pc + |c|, top - Skew(body[0]), inBlock);
      TidyFrom(code, pc + |c|, pc + |c| + |rest|, 0);
      TidyTree(code, body[0], pc, top, inBlock);
      TidyAppend(code, pc, pc + |c|, pc + |c| + |rest|, 0, 0);
    }
  }

  lemma {:induction false} TidyArm(code: seq<Op>, arm: Arm, pc: nat, top: int, inBlock: bool)
    requires At(code, pc, LinArm(arm, pc, top, inBlock)) && !PopAt(code, pc + |LinArm(arm, pc, top, inBlock)|)
    ensures Tidy(code, pc, pc + |LinArm(arm, pc, top, inBlock)|, 0)
    decreases arm, 3
  {
    hide At, Lin, LinBody, Tidy;
    match arm
    case Inlined(_, statements) => TidyBody(code, statements, pc, top, inBlock);
    case Plain(e) => TidyTree(code, e, pc, top, inBlock);
  }

  /** A jump of which the target is known to be level with it. */
  lemma TidyTo(code: seq<Op>, pc: nat, op: Op)
    requires At(code, pc, [op]) && IsJump(op) && op.target <= |code| && Depth(code, op.target) == Level(code, pc)
    requires PopAt(code, pc + 1) ==> op.Jump?
    ensures Tidy(code, pc, pc + 1, 0)
  {
    TidyJump(code, pc, op);
  }

  /** One more operation, which may be the one jumped over. */
  lemma TidyExtend(code: seq<Op>, from: nat, to: nat, net: int)
    requires Tidy(code, from, to, net) && to < |code| && InStep(code, to)
    ensures Tidy(code, from, to + 1, net + Level(code, to + 1) - Level(code, to))
  {}

  lemma {:induction false} TidyIf(code: seq<Op>, e: Expr, pc: nat, top: int, inBlock: bool)
    requires e.If?
    requires At(code, pc, Lin(e, pc, top, inBlock)) && !PopAt(code, pc + |Lin(e, pc, top, inBlock)|)
    ensures Tidy(code, pc, pc + |Lin(e, pc, top, inBlock)|, 0)
    decreases e, 1
  {
    hide At, Lin, LinBody, Tidy, Level;
    LinIf(e, pc, top, inBlock);
    var c := Lin(e.receiver, pc, top, inBlock);
    var branch := pc + |c|;
    var b := LinBody(e.body, branch + 1, top - Skew(e.receiver), inBlock);
    var otherwise := branch + |b| + 2;
    SplitIf(code, pc, c, e.sense, b);
    TidyJump(code, branch, JumpIf(!e.sense, otherwise));
    TidyJump(code, otherwise - 1, Jump(otherwise + 1));
    TidyOne(code, otherwise, LoadRwithNil);
    TidyFrom(code, otherwise, otherwise + 1, 0);
    TidyTree(code, e.receiver, pc, top, inBlock);
    TidyFrom(code, pc, branch, 0);
    TidyBody(code, e.body, branch + 1, top - Skew(e.receiver), inBlock);
    TidyFrom(code, branch + 1, otherwise - 1, 0);
    TidyTo(code, branch, JumpIf(!e.sense, otherwise));
    TidyTo(code, otherwise - 1, Jump(otherwise + 1));
    TidyAppend(code, pc, branch, branch + 1, 0, 0);
    TidyAppend(code, pc, branch + 1, otherwise - 1, 0, 0);
    TidyAppend(code, pc, otherwise - 1, otherwise, 0, 0);
    TidyAppend(code, pc, otherwise, otherwise + 1, 0, 0);
  }

  /** The second of two branches, with the first jumping over it. */
  lemma TidyTwo(code: seq<Op>, pc: nat, branch: nat, otherwise: nat, end: nat, sense: bool, net: int)
    requires Tidy(code, pc, branch, net) && branch + 1 <= otherwise - 1
    requires At(code, branch, [JumpIf(sense, otherwise)]) && At(code, otherwise - 1, [Jump(end)])
    requires Tidy(code, branch + 1, otherwise - 1, 0) && Tidy(code, otherwise, end, 0) && !PopAt(code, end)
    ensures Tidy(code, pc, end, net)
  {
    hide At, Level;
    TidyJump(code, branch, JumpIf(sense, otherwise));
    TidyJump(code, otherwise - 1, Jump(end));
    TidyFrom(code, branch + 1, otherwise - 1, 0);
    TidyFrom(code, otherwise, end, 0);
    TidyTo(code, branch, JumpIf(sense, otherwise));
    TidyTo(code, otherwise - 1, Jump(end));
    TidyAppend(code, pc, branch, branch + 1, net, 0);
    TidyAppend(code, pc, branch + 1, otherwise - 1, net, 0);
    TidyAppend(code, pc, otherwise - 1, otherwise, net, 0);
    TidyAppend(code, pc, otherwise, end, net, 0);
  }

  lemma {:induction false} TidyIfElse(code: seq<Op>, e: Expr, pc: nat, top: int, inBlock: bool)
    requires e.IfElse?
    requires At(code, pc, Lin(e, pc, top, inBlock)) && !PopAt(code, pc + |Lin(e, pc, top, inBlock)|)
    ensures Tidy(code, pc, pc + |Lin(e, pc, top, inBlock)|, 0)
    decreases e, 1
  {
    hide At, Lin, LinBody, Tidy, Level;
    LinIfElse(e, pc, top, inBlock);
    var c := Lin(e.receiver, pc, top, inBlock);
    var top1 := top - Skew(e.receiver);
    var b1 := LinBody(e.first, pc + |c| + 1, top1, inBlock);
    var b2 := LinBody(e.second, pc + |c| + |b1| + 2, top1 - SkewAll(e.first), inBlock);
    var branch, otherwise := pc + |c|, pc + |c| + |b1| + 2;
    AtSplitIfElse(code, pc, c, e.sense, b1, b2);
    TidyJump(code, branch, JumpIf(!e.sense, otherwise));
    TidyJump(code, otherwise - 1, Jump(otherwise + |b2|));
    TidyTree(code, e.receiver, pc, top, inBlock);
    TidyBody(code, e.first, branch + 1, top1, inBlock);
    TidyBody(code, e.second, otherwise, top1 - SkewAll(e.first), inBlock);
    TidyTwo(code, pc, branch, otherwise, otherwise + |b2|, !e.sense, 0);
  }

  /** The receiver of a nil test is left on the stack. */
  lemma {:induction false} TidyNilHead(code: seq<Op>, r: Expr, bound: Arm, pc: nat, top: int, inBlock: bool)
    requires At(code, pc, NilCode(Lin(r, pc, top, inBlock), bound))
    requires !PopAt(code, pc + |NilCode(Lin(r, pc, top, inBlock), bound)|)
    ensures Tidy(code, pc, pc + |NilCode(Lin(r, pc, top, inBlock), bound)|, 1)
    decreases r, 3
  {
    hide At, Lin, Tidy, Level;
    var c := Lin(r, pc, top, inBlock);
    var bind := pc + |c|;
    var push := bind + |BindArm(bound)|;
    AtSplit4(code, pc, c, BindArm(bound), [PushR], NilTest());
    TidySeven(code, push + 1, LoadRfromStack(0), EqualsEquals, LoadLiteral(Nil));
    TidyFrom(code, push + 1, push + 8, 0);
    TidyOne(code, push, PushR);
    TidyFrom(code, push, push + 1, 1);
    StaticBind(bound);
    TidyOps(code, bind, BindArm(bound));
    TidyFrom(code, bind, push, 0);
    TidyTree(code, r, pc, top, inBlock);
    TidyAppend(code, pc, bind, push, 0, 0);
    TidyAppend(code, pc, push, push + 1, 0, 1);
    TidyAppend(code, pc, push + 1, push + 8, 1, 0);
  }

  lemma StaticBind(arm: Arm)
    ensures Static(BindArm(arm)) == 0 && forall op :: op in BindArm(arm) ==> Plain(op)
  {
    hide Static, ArmCell;
    StaticZero(BindArm(arm));
  }

  /** Of the two ways out of a one-armed nil test, the second is one cell deeper than the first. */
  lemma {:induction false} TidyIfNil(code: seq<Op>, e: Expr, pc: nat, top: int, inBlock: bool)
    requires e.IfNil?
    requires At(code, pc, Lin(e, pc, top, inBlock)) && !PopAt(code, pc + |Lin(e, pc, top, inBlock)|)
    ensures Tidy(code, pc, pc + |Lin(e, pc, top, inBlock)|, 0)
    decreases e, 1
  {
    hide At, Lin, LinArm, NilCode, Tidy, Level;
    LinIfNil(e, pc, top, inBlock);
    var c := NilCode(Lin(e.receiver, pc, top, inBlock), e.arm);
    var branch := pc + |c|;
    var b := LinArm(e.arm, branch + 1, top - Skew(e.receiver) + 1, inBlock);
    var otherwise := branch + |b| + 3;
    SplitIfNil(code, pc, c, e.sense, b);
    TidyJump(code, branch, JumpIf(!e.sense, otherwise));
    TidyJump(code, otherwise - 1, Jump(otherwise + 1));
    TidyPop(code, otherwise);
    TidyNilHead(code, e.receiver, e.arm, pc, top, inBlock);
    TidyFrom(code, pc, branch, 1);
    TidyOne(code, otherwise - 2, DropToS(1));
    TidyFrom(code, otherwise - 2, otherwise - 1, -1);
    TidyArm(code, e.arm, branch + 1, top - Skew(e.receiver) + 1, inBlock);
    TidyFrom(code, branch + 1, otherwise - 2, 0);
    TidyTo(code, branch, JumpIf(!e.sense, otherwise));
    TidyTo(code, otherwise - 1, Jump(otherwise + 1));
    TidyAppend(code, pc, branch, branch + 1, 1, 0);
    TidyAppend(code, pc, branch + 1, otherwise - 2, 1, 0);
    TidyAppend(code, pc, otherwise - 2, otherwise - 1, 1, -1);
    TidyAppend(code, pc, otherwise - 1, otherwise, 0, 0);
    TidyExtend(code, pc, otherwise, 0);
  }

  lemma TidyPop(code: seq<Op>, pc: nat)
    requires At(code, pc, [PopR])
    ensures pc < |code| && code[pc] == PopR && Level(code, pc + 1) == Level(code, pc)
  {
    assert code[pc + 0] == [PopR][0];
    LevelNext(code, pc);
  }

  lemma {:induction false} TidyIfNilElse(code: seq<Op>, e: Expr, pc: nat, top: int, inBlock: bool)
    requires e.IfNilElse?
    requires At(code, pc, Lin(e, pc, top, inBlock)) && !PopAt(code, pc + |Lin(e, pc, top, inBlock)|)
    ensures Tidy(code, pc, pc + |Lin(e, pc, top, inBlock)|, 0)
    decreases e, 1
  {
    hide At, Lin, LinArm, NilCode, Tidy, Level;
    LinIfNilElse(e, pc, top, inBlock);
    var bound := if e.sense then e.secondArm else e.firstArm;
    var c := NilCode(Lin(e.receiver, pc, top, inBlock), bound);
    var top1 := top - Skew(e.receiver) + 1;
    var b1 := LinArm(e.firstArm, pc + |c| + 1, top1, inBlock);
    var b2 := LinArm(e.secondArm, pc + |c| + |b1| + 2, top1 - SkewArm(e.firstArm), inBlock);
    var branch, otherwise := pc + |c|, pc + |c| + |b1| + 2;
    var end := otherwise + |b2|;
    AtSplit(code, pc, IfElseCode(pc, c, e.sense, b1, b2), [DropToS(1)]);
    AtSplitIfElse(code, pc, c, e.sense, b1, b2);
    TidyOne(code, end, DropToS(1));
    TidyFrom(code, end, end + 1, -1);
    TidyJump(code, branch, JumpIf(!e.sense, otherwise));
    TidyJump(code, otherwise - 1, Jump(end));
    TidyNilHead(code, e.receiver, bound, pc, top, inBlock);
    TidyArm(code, e.firstArm, branch + 1, top1, inBlock);
    TidyArm(code, e.secondArm, otherwise, top1 - SkewArm(e.firstArm), inBlock);
    TidyTwo(code, pc, branch, otherwise, end, !e.sense, 1);
    TidyAppend(code, pc, end, end + 1, 1, -1);
  }

  lemma {:induction false} TidyWhile(code: seq<Op>, e: Expr, pc: nat, top: int, inBlock: bool)
    requires e.WhileUnary? || e.While? || e.Repeat?
    requires At(code, pc, Lin(e, pc, top, inBlock)) && !PopAt(code, pc + |Lin(e, pc, top, inBlock)|)
    ensures Tidy(code, pc, pc + |Lin(e, pc, top, inBlock)|, 0)
    decreases e, 1
  {
    hide At, Lin, LinBody, Tidy, Level;
    LinWhile(e, pc, top, inBlock);
    if e.While? {
      var c := LinBody(e.condition, pc, top, inBlock);
      var branch := pc + |c|;
      var b := LinBody(e.body, branch + 1, top - SkewAll(e.condition), inBlock);
      var end := branch + |b| + 2;
      AtSplit4(code, pc, c, [JumpIf(!e.sense, end)], b, [Jump(pc)]);
      TidyJump(code, branch, JumpIf(!e.sense, end));
      TidyJump(code, end - 1, Jump(pc));
      TidyBody(code, e.condition, pc, top, inBlock);
      TidyFrom(code, pc, branch, 0);
      TidyBody(code, e.body, branch + 1, top - SkewAll(e.condition), inBlock);
      TidyFrom(code, branch + 1, end - 1, 0);
      TidyTo(code, branch, JumpIf(!e.sense, end));
      TidyTo(code, end - 1, Jump(pc));
      TidyAppend(code, pc, branch, branch + 1, 0, 0);
      TidyAppend(code, pc, branch + 1, end - 1, 0, 0);
      TidyAppend(code, pc, end - 1, end, 0, 0);
    } else {
      var body := if e.Repeat? then e.body else e.condition;
      var b := LinBody(body, pc, top, inBlock);
      var op := if e.Repeat? then Jump(pc) else JumpIf(e.sense, pc);
      AtSplit(code, pc, b, [op]);
      TidyJump(code, pc + |b|, op);
      TidyBody(code, body, pc, top, inBlock);
      TidyFrom(code, pc, pc + |b|, 0);
      TidyTo(code, pc + |b|, op);
      TidyAppend(code, pc, pc + |b|, pc + |b| + 1, 0, 0);
    }
  }

  /** A counted loop gives its hidden cells back. */
  lemma {:induction false} TidyLoop(code: seq<Op>, body: seq<Expr>, start: nat, cell: int, top: int, inBlock: bool,
                                    drop: nat)
    requires At(code, start, LoopCode(start, cell, top, LinBody(body, start + 8, top, inBlock), drop))
    requires !PopAt(code, start + |LinBody(body, start + 8, top, inBlock)| + 18)
    ensures Tidy(code, start, start + |LinBody(body, start + 8, top, inBlock)| + 18, 0 - drop)
    decreases body, 1
  {
    hide At, LinBody, Tidy, Level;
    var b := LinBody(body, start + 8, top, inBlock);
    var exit := start + |b| + 17;
    SplitLoop(code, start, cell, top, b, drop);
    TidyJump(code, start + 7, JumpIf(true, exit));
    TidyJump(code, exit - 1, Jump(start));
    TidyOne(code, exit, DropToS(drop));
    TidyFrom(code, exit, exit + 1, 0 - drop);
    TidyOne(code, exit - 2, StoreRintoFrame(cell));
    TidyFrom(code, exit - 2, exit - 1, 0);
    TidySeven(code, exit - 9, LoadRfromFrame(cell), Plus, LoadLiteral(Small(1)));
    TidyFrom(code, exit - 9, exit - 2, 0);
    TidyBody(code, body, start + 8, top, inBlock);
    TidyFrom(code, start + 8, exit - 9, 0);
    TidySeven(code, start, LoadRfromFrame(cell), GreaterThan, LoadRfromFrame(top));
    TidyFrom(code, start, start + 7, 0);
    TidyTo(code, start + 7, JumpIf(true, exit));
    TidyTo(code, exit - 1, Jump(start));
    TidyAppend(code, start, start + 7, start + 8, 0, 0);
    TidyAppend(code, start, start + 8, exit - 9, 0, 0);
    TidyAppend(code, start, exit - 9, exit - 2, 0, 0);
    TidyAppend(code, start, exit - 2, exit - 1, 0, 0);
    TidyAppend(code, start, exit - 1, exit, 0, 0);
    TidyAppend(code, start, exit, exit + 1, 0, 0 - drop);
  }

  lemma {:induction false} TidyToDo(code: seq<Op>, e: Expr, pc: nat, top: int, inBlock: bool)
    requires e.ToDo?
    requires At(code, pc, Lin(e, pc, top, inBlock)) && !PopAt(code, pc + |Lin(e, pc, top, inBlock)|)
    ensures Tidy(code, pc, pc + |Lin(e, pc, top, inBlock)|, 0)
    decreases e, 1
  {
    hide At, Lin, LinBody, LoopCode, Tidy, Level;
    LinToDo(e, pc, top, inBlock);
    var c := Lin(e.receiver, pc, top, inBlock);
    var head := c + [StoreRintoFrame(e.index)];
    var first := pc + |head|;
    var l := Lin(e.limit, first, top - Skew(e.receiver), inBlock);
    var start := first + |l| + 1;
    var top1 := top - Skew(e.receiver) - Skew(e.limit) + 1;
    var loop := LoopCode(start, e.index, top1, LinBody(e.body, start + 8, top1, inBlock), 1);
    LoopSize(start, e.index, top1, LinBody(e.body, start + 8, top1, inBlock), 1);
    AtSplit4(code, pc, head, l, [PushR], loop);
    AtSplit(code, pc, c, [StoreRintoFrame(e.index)]);
    TidyLoop(code, e.body, start, e.index, top1, inBlock, 1);
    TidyFrom(code, start, start + |loop|, -1);
    TidyOne(code, start - 1, PushR);
    TidyFrom(code, start - 1, start, 1);
    TidyTree(code, e.limit, first, top - Skew(e.receiver), inBlock);
    TidyFrom(code, first, start - 1, 0);
    TidyOne(code, first - 1, StoreRintoFrame(e.index));
    TidyFrom(code, first - 1, first, 0);
    TidyTree(code, e.receiver, pc, top, inBlock);
    TidyAppend(code, pc, first - 1, first, 0, 0);
    TidyAppend(code, pc, first, start - 1, 0, 0);
    TidyAppend(code, pc, start - 1, start, 0, 1);
    TidyAppend(code, pc, start, start + |loop|, 1, -1);
  }

  lemma {:induction false} TidyTimesRepeat(code: seq<Op>, e: Expr, pc: nat, top: int, inBlock: bool)
    requires e.TimesRepeat?
    requires At(code, pc, Lin(e, pc, top, inBlock)) && !PopAt(code, pc + |Lin(e, pc, top, inBlock)|)
    ensures Tidy(code, pc, pc + |Lin(e, pc, top, inBlock)|, 0)
    decreases e, 1
  {
    hide At, Lin, LinBody, LoopCode, Tidy, Level;
    LinTimesRepeat(e, pc, top, inBlock);
    var head := [LoadLiteral(Small(1)), PushR];
    var c := Lin(e.receiver, pc + 2, top + 1, inBlock);
    var start := pc + 2 + |c| + 1;
    var top1 := top - Skew(e.receiver) + 2;
    var loop := LoopCode(start, top + 1, top1, LinBody(e.body, start + 8, top1, inBlock), 2);
    LoopSize(start, top + 1, top1, LinBody(e.body, start + 8, top1, inBlock), 2);
    AtSplit4(code, pc, head, c, [PushR], loop);
    TidyLoop(code, e.body, start, top + 1, top1, inBlock, 2);
    TidyFrom(code, start, start + |loop|, -2);
    TidyOne(code, start - 1, PushR);
    TidyFrom(code, start - 1, start, 1);
    TidyTree(code, e.receiver, pc + 2, top + 1, inBlock);
    TidyFrom(code, pc + 2, start - 1, 0);
    assert head == [LoadLiteral(Small(1))] + [PushR];
    AtSplit(code, pc, [LoadLiteral(Small(1))], [PushR]);
    TidyOne(code, pc + 1, PushR);
    TidyFrom(code, pc + 1, pc + 2, 1);
    TidyOne(code, pc, LoadLiteral(Small(1)));
    TidyAppend(code, pc, pc + 1, pc + 2, 0, 1);
    TidyAppend(code, pc, pc + 2, start - 1, 1, 0);
    TidyAppend(code, pc, start - 1, start, 1, 1);
    TidyAppend(code, pc, start, start + |loop|, 2, -2);
  }

  lemma {:induction false} TidyChain(code: seq<Op>, stop: bool, blocks: seq<Block>, pc: nat, top: int, inBlock: bool,
                                     end: nat)
    requires At(code, pc, LinChain(stop, blocks, pc, top, inBlock, end)) && !PopAt(code, end)
    requires end == pc + |LinChain(stop, blocks, pc, top, inBlock, end)|
    ensures Tidy(code, pc, end, 0)
    decreases blocks, 0
  {
    hide At, LinBody, LinChain, Tidy, Level;
    if blocks == [] {
      NoBlocks(stop, pc, top, inBlock, end);
      AtWithin(code, pc, []);
      TidyNone(code, pc);
    } else {
      LinChainCons(stop, blocks, pc, top, inBlock, end);
      var body := blocks[0].statements;
      var b := LinBody(body, pc + 1, top, inBlock);
      var rest := LinChain(stop, blocks[1..], pc + 1 + |b|, top - SkewAll(body), inBlock, end);
      AtSplit3(code, pc, [JumpIf(stop, end)], b, rest);
      TidyChain(code, stop, blocks[1..], pc + 1 + |b|, top - SkewAll(body), inBlock, end);
      TidyFrom(code, pc + 1 + |b|, end, 0);
      TidyBody(code, body, pc + 1, top, inBlock);
      TidyFrom(code, pc + 1, pc + 1 + |b|, 0);
      TidyJump(code, pc, JumpIf(stop, end));
      TidyTo(code, pc, JumpIf(stop, end));
      TidyAppend(code, pc, pc + 1, pc + 1 + |b|, 0, 0);
      TidyAppend(code, pc, pc + 1 + |b|, end, 0, 0);
    }
  }

  lemma {:induction false} TidyLogic(code: seq<Op>, e: Expr, pc: nat, top: int, inBlock: bool)
    requires e.And? || e.Or?
    requires At(code, pc, Lin(e, pc, top, inBlock)) && !PopAt(code, pc + |Lin(e, pc, top, inBlock)|)
    ensures Tidy(code, pc, pc + |Lin(e, pc, top, inBlock)|, 0)
    decreases e, 1
  {
    hide At, Lin, LinChain, Tidy, Level;
    LinAndOr(e, pc, top, inBlock);
    var c := Lin(e.receiver, pc, top, inBlock);
    var top1 := top - Skew(e.receiver);
    var end := pc + |c| + |LinChain(e.Or?, e.blocks, pc + |c|, top1, inBlock, NO_TARGET)|;
    ChainSize(e.Or?, e.blocks, pc + |c|, top1, inBlock, NO_TARGET, end);
    AtSplit(code, pc, c, LinChain(e.Or?, e.blocks, pc + |c|, top1, inBlock, end));
    TidyChain(code, e.Or?, e.blocks, pc + |c|, top1, inBlock, end);
    TidyFrom(code, pc + |c|, end, 0);
    TidyTree(code, e.receiver, pc, top, inBlock);
    TidyAppend(code, pc, pc + |c|, end, 0, 0);
  }

  lemma {:induction false} TidyNegated(code: seq<Op>, e: Expr, pc: nat, top: int, inBlock: bool)
    requires e.AndNot? || e.OrNot?
    requires At(code, pc, Lin(e, pc, top, inBlock)) && !PopAt(code, pc + |Lin(e, pc, top, inBlock)|)
    ensures Tidy(code, pc, pc + |Lin(e, pc, top, inBlock)|, 0)
    decreases e, 1
  {
    hide At, Lin, LinBody, Tidy, Level;
    LinNegated(e, pc, top, inBlock);
    var c := Lin(e.receiver, pc, top, inBlock);
    var branch := pc + |c|;
    var b := LinBody(e.body, branch + 1, top - Skew(e.receiver), inBlock);
    var end := branch + |b| + 2;
    AtSplit4(code, pc, c, [JumpIf(e.OrNot?, end)], b, [Dispatch(Not, false, 0)]);
    TidyOne(code, end - 1, Dispatch(Not, false, 0));
    TidyFrom(code, end - 1, end, 0);
    TidyBody(code, e.body, branch + 1, top - Skew(e.receiver), inBlock);
    TidyFrom(code, branch + 1, end - 1, 0);
    TidyJump(code, branch, JumpIf(e.OrNot?, end));
    TidyTree(code, e.receiver, pc, top, inBlock);
    TidyFrom(code, pc, branch, 0);
    TidyTo(code, branch, JumpIf(e.OrNot?, end));
    TidyAppend(code, pc, branch, branch + 1, 0, 0);
    TidyAppend(code, pc, branch + 1, end - 1, 0, 0);
    TidyAppend(code, pc, end - 1, end, 0, 0);
  }

  // ---- whole scripts, at run time

  lemma TidyScript(body: seq<Expr>, tempCount: nat, inBlock: bool)
    ensures var code := Code(body, tempCount, inBlock);
      Tidy(code, 0, |code|, 0)
  {
    hide LinBody, Tidy, At, Static, Level;
    var code := Code(body, tempCount, inBlock);
    var b := LinBody(body, 0, tempCount, inBlock);
    var tail := if LastIsReturn(body) then []
      else if inBlock then (if body == [] then [LoadRwithNil, ReturnOp] else [ReturnOp])
      else [LoadRwithSelf, ReturnOp];
    assert code == b + tail;
    WholeCode(code);
    AtSplit(code, 0, b, tail);
    StaticTail(tail);
    TidyOps(code, |b|, tail);
    TidyFrom(code, |b|, |code|, 0);
    TidyBody(code, body, 0, tempCount, inBlock);
    TidyAppend(code, 0, |b|, |code|, 0, 0);
  }

  lemma StaticTail(tail: seq<Op>)
    requires tail == [] || tail == [ReturnOp] || tail == [LoadRwithNil, ReturnOp] || tail == [LoadRwithSelf, ReturnOp]
    ensures Static(tail) == 0 && forall op :: op in tail ==> Plain(op)
  {
    hide Static;
    StaticZero(tail);
  }

  /** The frame is as deep as the level of the operation about to be executed. */
  predicate Right(code: seq<Op>, tempCount: nat, m: Machine) {
    m.Running? && m.pc < |code| ==> |m.temps| == tempCount && Cells(m) == tempCount + Depth(code, m.pc)
  }

  lemma {:induction false} AssignKeepsCells(sem: Semantics, xs: seq<Variable>, m: Machine)
    requires m.Running?
    ensures var c := AssignAll(sem, xs, m);
      c.Running? ==> c.pc == m.pc && |c.temps| == |m.temps| && |c.operands| == |m.operands|
  {
    if xs != [] {
      match xs[0]
      case Stack(index) =>
        if HasFrameCell(m, index) {
          AssignKeepsCells(sem, xs[1..], SetFrameCell(m, index, m.r));
        }
      case Elsewhere(id) => AssignKeepsCells(sem, xs[1..], m.(world := sem.store(id, m.r, m.world)));
    }
  }

  lemma StepKeepsRight(sem: Semantics, code: seq<Op>, tempCount: nat, m: Machine)
    requires Tidy(code, 0, |code|, 0) && Right(code, tempCount, m)
    ensures Right(code, tempCount, Step(sem, code, m))
  {
    hide AssignAll, Level;
    if m.Running? && m.pc < |code| {
      var op := code[m.pc];
      LevelNext(code, m.pc);
      assert InStep(code, m.pc);
      if op.Assign? {
        AssignKeepsCells(sem, op.assignees, m.(pc := m.pc + 1));
      }
    }
  }

  /** Whatever tree, input and point of a run: the frame has as many cells as the static stack top
      says, and one more for each PopR up to the operation about to be executed. So the static
      stack top is right at exactly the operations with no such PopR, the code of a one-armed
      ifNil:, before them or at them. */
  lemma {:induction false} TopAtEachOp(sem: Semantics, body: seq<Expr>, inBlock: bool, m: Machine, n: nat)
    requires m.Running? && m.pc == 0 && m.operands == []
    ensures var code := Code(body, |m.temps|, inBlock);
      var c := Run(sem, code, m, n);
      c.Running? && c.pc < |code| ==>
        && Cells(c) == |m.temps| + Static(code[..c.pc]) + Pops(code[..c.pc + 1])
        && (Cells(c) == |m.temps| + Static(code[..c.pc]) <==> forall i :: 0 <= i <= c.pc ==> !code[i].PopR?)
  {
    hide Code, Step;
    var code := Code(body, |m.temps|, inBlock);
    TidyScript(body, |m.temps|, inBlock);
    RunKeepsRight(sem, code, m, n);
    var c := Run(sem, code, m, n);
    if c.Running? && c.pc < |code| {
      assert code[..c.pc + 1] == code[..c.pc] + [code[c.pc]];
      StaticPush(code[..c.pc], code[c.pc]);
      NoPops(code[..c.pc + 1]);
      assert forall i :: 0 <= i <= c.pc ==> code[..c.pc + 1][i] == code[i];
    }
  }

  lemma {:induction false} RunKeepsRight(sem: Semantics, code: seq<Op>, m: Machine, n: nat)
    requires m.Running? && m.pc == 0 && m.operands == [] && Tidy(code, 0, |code|, 0)
    ensures Right(code, |m.temps|, Run(sem, code, m, n))
  {
    hide Step;
    if n == 0 {
      assert code[..0] == [];
    } else {
      RunKeepsRight(sem, code, m, n - 1);
      StepKeepsRight(sem, code, |m.temps|, Run(sem, code, m, n - 1));
    }
  }
}
