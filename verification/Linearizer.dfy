/** The linearizer: walks a tree appending operations, keeps a static stack top, and fills in
    the targets of forward jumps once they are known. */
module Linearizer {
  import opened Trees
  import opened Machine
  import opened Layout
  import StackDepth

  function WithTarget(op: Op, target: nat): Op
    requires IsJump(op)
  {
    match op
    case Jump(_) => Jump(target)
    case JumpIf(sense, _) => JumpIf(sense, target)
  }

  /** The operations with the given branches going to a target. */
  function Patched(ops: seq<Op>, branches: seq<nat>, target: nat): (r: seq<Op>)
    requires forall b :: b in branches ==> b < |ops| && IsJump(ops[b])
    ensures |r| == |ops|
    ensures forall k :: 0 <= k < |ops| ==> r[k] == if k in branches then WithTarget(ops[k], target) else ops[k]
  {
    seq(|ops|, k requires 0 <= k < |ops| => if k in branches then WithTarget(ops[k], target) else ops[k])
  }

  class SExpressionLinearizer {
    var operations: seq<Op>
    var stackTop: int
    var inBlock: bool

    /** The static stack top less what the operations emitted so far do to it, one after the
        other: what it started from. */
    ghost function Frame(): int
      reads `operations, `stackTop
    {
      stackTop - StackDepth.Static(operations)
    }

    method Emit(op: Op)
      requires StackDepth.Effect(op) == 0
      modifies `operations
      ensures operations == old(operations) + [op] && Frame() == old(Frame())
    {
      StackDepth.StaticPush(operations, op);
      operations := operations + [op];
    }

    method PushR()
      modifies `operations, `stackTop
      ensures operations == old(operations) + [Op.PushR] && stackTop == old(stackTop) + 1
      ensures Frame() == old(Frame())
    {
      StackDepth.StaticPush(operations, Op.PushR);
      operations, stackTop := operations + [Op.PushR], stackTop + 1;
    }

    method PopR()
      modifies `operations, `stackTop
      ensures operations == old(operations) + [Op.PopR] && stackTop == old(stackTop) - 1
      ensures Frame() == old(Frame())
    {
      StackDepth.StaticPush(operations, Op.PopR);
      operations, stackTop := operations + [Op.PopR], stackTop - 1;
    }

    method DropToS(count: nat)
      modifies `operations, `stackTop
      ensures operations == old(operations) + [Op.DropToS(count)] && stackTop == old(stackTop) - count
      ensures Frame() == old(Frame())
    {
      StackDepth.StaticPush(operations, Op.DropToS(count));
      operations, stackTop := operations + [Op.DropToS(count)], stackTop - count;
    }

    method BranchIf(sense: bool) returns (branch: nat)
      modifies `operations
      ensures branch == |old(operations)| && operations == old(operations) + [JumpIf(sense, NO_TARGET)]
      ensures Frame() == old(Frame())
    {
      StackDepth.StaticPush(operations, JumpIf(sense, NO_TARGET));
      branch := |operations|;
      operations := operations + [JumpIf(sense, NO_TARGET)];
    }

    method Jump() returns (branch: nat)
      modifies `operations
      ensures branch == |old(operations)| && operations == old(operations) + [Op.Jump(NO_TARGET)]
      ensures Frame() == old(Frame())
    {
      StackDepth.StaticPush(operations, Op.Jump(NO_TARGET));
      branch := |operations|;
      operations := operations + [Op.Jump(NO_TARGET)];
    }

    /** The branch now goes to the next operation to be emitted. */
    method BranchTargetOf(branch: nat)
      requires branch < |operations| && IsJump(operations[branch])
      modifies `operations
      ensures operations == old(operations)[branch := WithTarget(old(operations)[branch], |old(operations)|)]
      ensures Frame() == old(Frame())
    {
      StackDepth.StaticOtherTarget(operations, branch, WithTarget(operations[branch], |operations|));
      operations := operations[branch := WithTarget(operations[branch], |operations|)];
    }

    /** A tree's operations go after the ones emitted so far. */
    method Visit(e: Expr)
      modifies `operations, `stackTop, `inBlock
      ensures operations == old(operations) + Lin(e, |old(operations)|, old(stackTop), old(inBlock))
      ensures stackTop == old(stackTop) - Skew(e) && inBlock == old(inBlock)
      ensures Frame() == old(Frame())
      decreases e, 2
    {
      hide Lin, Skew, SkewAll, LinBody, LinClosure, Frame, StackDepth.Static;
      LinLeaf(e, |operations|, stackTop, inBlock);
      match e
      case Literal(v) => Emit(LoadLiteral(v));
      case Identifier(x) => Emit(LoadVariable(x));
      case Closure(id, tempCount, body) => VisitBlock(e);
      case Assignment(xs, e1) =>
        Visit(e1);
        Emit(Assign(xs));
      case Send(_, _, _, _) => VisitMessage(e);
      case Cascade(_, _, _) => VisitCascade(e);
      case Return(local, e1) =>
        Visit(e1);
        Emit(if local && !inBlock then ReturnOp else NonLocalReturn);
      case If(_, _, _) => InlineIf(e);
      case IfElse(_, _, _, _) => InlineIfElse(e);
      case IfNil(_, _, _) => InlineIfNil(e);
      case IfNilElse(_, _, _, _) => InlineIfNilElse(e);
      case WhileUnary(_, _) => InlineWhile(e);
      case While(_, _, _) => InlineWhile(e);
      case Repeat(_) => InlineWhile(e);
      case ToDo(_, _, _, _) => InlineToDo(e);
      case TimesRepeat(_, _) => InlineTimesRepeat(e);
      case And(_, _) => InlineChain(e);
      case Or(_, _) => InlineChain(e);
      case AndNot(_, _) => InlineNegated(e);
      case OrNot(_, _) => InlineNegated(e);
    }

    method VisitStatements(body: seq<Expr>)
      modifies `operations, `stackTop, `inBlock
      ensures operations == old(operations) + LinBody(body, |old(operations)|, old(stackTop), old(inBlock))
      ensures stackTop == old(stackTop) - SkewAll(body) && inBlock == old(inBlock)
      ensures Frame() == old(Frame())
      decreases body, 0
    {
      hide Lin, LinBody, Skew, SkewAll, Frame, StackDepth.Static;
      if body == [] {
        NoStatements(|operations|, stackTop, inBlock);
      } else {
        LinBodyCons(body, |operations|, stackTop, inBlock);
        ghost var start, c := operations, Lin(body[0], |operations|, stackTop, inBlock);
        Visit(body[0]);
        ghost var rest := LinBody(body[1..], |operations|, stackTop, inBlock);
        VisitStatements(body[1..]);
        Assoc(start, c, rest);
      }
    }

    /** A real block: its code starts afresh, on its own frame, and is kept with the block. */
    method VisitBlock(e: Expr)
      requires e.Closure?
      modifies `operations, `stackTop, `inBlock
      ensures operations == old(operations) + Lin(e, |old(operations)|, old(stackTop), old(inBlock))
      ensures stackTop == old(stackTop) && inBlock == old(inBlock)
      ensures Frame() == old(Frame())
      decreases e, 0
    {
      hide Lin, LinBody, Skew, SkewAll, StackDepth.Static;
      LinLeaf(e, |operations|, stackTop, inBlock);
      var prevInBlock, prevOperations, prevStackTop := inBlock, operations, stackTop;
      stackTop, inBlock, operations := e.tempCount, true, [];
      VisitStatements(e.body);
      if e.body == [] {
        Emit(LoadRwithNil);
        Emit(ReturnOp);
      } else if !e.body[|e.body| - 1].Return? {
        Emit(ReturnOp);
      }
      var code := operations;
      assert code == LinClosure(e.body, e.tempCount);
      StackDepth.StaticPush(prevOperations, MakeClosure(e.id, e.tempCount, code));
      operations := prevOperations + [MakeClosure(e.id, e.tempCount, code)];
      stackTop, inBlock := prevStackTop, prevInBlock;
    }

    /** A method that names no primitive: its code answers self unless it ends in a return. */
    method VisitMethod(body: seq<Expr>, tempCount: nat)
      modifies `operations, `stackTop, `inBlock
      ensures operations == LinMethod(body, tempCount) && Frame() == tempCount
    {
      operations, inBlock, stackTop := [], false, tempCount;
      VisitStatements(body);
      if body == [] || !body[|body| - 1].Return? {
        Emit(LoadRwithSelf);
        Emit(ReturnOp);
      }
    }

    method VisitArgs(args: seq<Expr>)
      modifies `operations, `stackTop, `inBlock
      ensures operations == old(operations) + LinArgs(args, |old(operations)|, old(stackTop), old(inBlock))
      ensures stackTop == old(stackTop) - SkewAll(args) + |args| && inBlock == old(inBlock)
      ensures Frame() == old(Frame())
      decreases args, 0
    {
      hide Lin, LinArgs, Skew, SkewAll;
      hide Frame, StackDepth.Static;
      if args == [] {
        NoArgs(|operations|, stackTop, inBlock);
      } else {
        LinArgsCons(args, |operations|, stackTop, inBlock);
        ghost var start, c := operations, Lin(args[0], |operations|, stackTop, inBlock);
        Visit(args[0]);
        PushR();
        ghost var rest := LinArgs(args[1..], |operations|, stackTop, inBlock);
        VisitArgs(args[1..]);
        assert operations == start + (c + [Op.PushR] + rest);
      }
    }

    method VisitMessage(e: Expr)
      requires e.Send?
      modifies `operations, `stackTop, `inBlock
      ensures operations == old(operations) + Lin(e, |old(operations)|, old(stackTop), old(inBlock))
      ensures stackTop == old(stackTop) - Skew(e) && inBlock == old(inBlock)
      ensures Frame() == old(Frame())
      decreases e, 0
    {
      hide Lin, LinBody, LinArgs, LinArm, LinMessages, LinChain, LinWholeChain, LinToDoHead, LinClosure, Skew, SkewAll;
      hide SkewArm, SkewMessages, SkewBlocks;
      hide Frame, StackDepth.Static;
      ghost var start, c := operations, Lin(e.receiver, |operations|, stackTop, inBlock);
      LinSend(e, |operations|, stackTop, inBlock);
      Visit(e.receiver);
      ghost var args := LinArgs(e.args, |start| + |c| + 1, stackTop + 1, inBlock);
      if e.args != [] {
        PushR();
        VisitArgs(e.args);
        Emit(LoadRfromStack(|e.args|));
      } else {
        NoArgs(|operations|, stackTop, inBlock);
      }
      Emit(Dispatch(e.selector, e.toSuper, |e.args|));
      if e.args != [] {
        DropToS(|e.args| + 1);
      }
      assert operations == start + SendCode(c, args, e.selector, e.toSuper, |e.args|);
    }

    method VisitCascade(e: Expr)
      requires e.Cascade?
      modifies `operations, `stackTop, `inBlock
      ensures operations == old(operations) + Lin(e, |old(operations)|, old(stackTop), old(inBlock))
      ensures stackTop == old(stackTop) - Skew(e) && inBlock == old(inBlock)
      ensures Frame() == old(Frame())
      decreases e, 0
    {
      hide Lin, LinMessages, Skew, SkewMessages;
      hide Frame, StackDepth.Static;
      LinCascade(e, |operations|, stackTop, inBlock);
      ghost var start, c := operations, Lin(e.receiver, |operations|, stackTop, inBlock);
      Visit(e.receiver);
      PushR();
      ghost var messages := LinMessages(e.messages, e.toSuper, |operations|, stackTop, inBlock);
      VisitMessages(e.messages, e.toSuper);
      DropToS(1);
      assert operations == start + (c + [Op.PushR] + messages + [Op.DropToS(1)]);
    }

    method VisitMessages(messages: seq<Message>, toSuper: bool)
      modifies `operations, `stackTop, `inBlock
      ensures operations
        == old(operations) + LinMessages(messages, toSuper, |old(operations)|, old(stackTop), old(inBlock))
      ensures stackTop == old(stackTop) - SkewMessages(messages) && inBlock == old(inBlock)
      ensures Frame() == old(Frame())
      decreases messages, 1
    {
      hide LinMessages, SkewMessages, SkewAll, LinArgs, CascadedCode;
      hide Frame, StackDepth.Static;
      if messages == [] {
        NoMessages(toSuper, |operations|, stackTop, inBlock);
      } else {
        LinMessagesCons(messages, toSuper, |operations|, stackTop, inBlock);
        ghost var start, h := operations, messages[0];
        ghost var args := LinArgs(h.args, |operations|, stackTop, inBlock);
        ghost var c := CascadedCode(args, h.selector, toSuper, |h.args|);
        VisitCascaded(messages[0], toSuper);
        ghost var rest := LinMessages(messages[1..], toSuper, |operations|, stackTop, inBlock);
        VisitMessages(messages[1..], toSuper);
        assert operations == start + (c + rest);
      }
    }

    method VisitCascaded(m: Message, toSuper: bool)
      modifies `operations, `stackTop, `inBlock
      ensures operations == old(operations)
        + CascadedCode(LinArgs(m.args, |old(operations)|, old(stackTop), old(inBlock)), m.selector, toSuper, |m.args|)
      ensures stackTop == old(stackTop) - SkewAll(m.args) && inBlock == old(inBlock)
      ensures Frame() == old(Frame())
      decreases m, 0
    {
      hide LinArgs, SkewAll;
      hide Frame, StackDepth.Static;
      ghost var start, args := operations, LinArgs(m.args, |operations|, stackTop, inBlock);
      VisitArgs(m.args);
      Emit(LoadRfromStack(|m.args|));
      Emit(Dispatch(m.selector, toSuper, |m.args|));
      if m.args != [] {
        DropToS(|m.args|);
      }
      assert operations == start + CascadedCode(args, m.selector, toSuper, |m.args|);
    }

    /** A binary message whose receiver and argument are single operations. */
    method VisitBinary(receiver: Op, selector: Selector, arg: Op)
      requires StackDepth.Effect(receiver) == 0 && StackDepth.Effect(arg) == 0
      modifies `operations, `stackTop
      ensures operations == old(operations)
        + [receiver, Op.PushR, arg, Op.PushR, LoadRfromStack(1), Dispatch(selector, false, 1), Op.DropToS(2)]
      ensures stackTop == old(stackTop) && Frame() == old(Frame())
    {
      hide Frame, StackDepth.Static;
      Emit(receiver);
      PushR();
      Emit(arg);
      PushR();
      Emit(LoadRfromStack(1));
      Emit(Dispatch(selector, false, 1));
      DropToS(2);
    }

    method InlineIf(e: Expr)
      requires e.If?
      modifies `operations, `stackTop, `inBlock
      ensures operations == old(operations) + Lin(e, |old(operations)|, old(stackTop), old(inBlock))
      ensures stackTop == old(stackTop) - Skew(e) && inBlock == old(inBlock)
      ensures Frame() == old(Frame())
      decreases e, 0
    {
      hide Lin, LinBody, LinArgs, LinArm, LinMessages, LinChain, LinWholeChain, LinToDoHead, LinClosure, Skew, SkewAll;
      hide SkewArm, SkewMessages, SkewBlocks;
      hide Frame, StackDepth.Static;
      LinIf(e, |operations|, stackTop, inBlock);
      ghost var start, c := operations, Lin(e.receiver, |operations|, stackTop, inBlock);
      Visit(e.receiver);
      var branch := BranchIf(!e.sense);
      ghost var b := LinBody(e.body, |operations|, stackTop, inBlock);
      VisitStatements(e.body);
      var end := Jump();
      BranchTargetOf(branch);
      Emit(LoadRwithNil);
      BranchTargetOf(end);
      assert operations == start + IfCode(|start|, c, e.sense, b);
    }

    method InlineIfElse(e: Expr)
      requires e.IfElse?
      modifies `operations, `stackTop, `inBlock
      ensures operations == old(operations) + Lin(e, |old(operations)|, old(stackTop), old(inBlock))
      ensures stackTop == old(stackTop) - Skew(e) && inBlock == old(inBlock)
      ensures Frame() == old(Frame())
      decreases e, 0
    {
      hide Lin, LinBody, LinArgs, LinArm, LinMessages, LinChain, LinWholeChain, LinToDoHead, LinClosure, Skew, SkewAll;
      hide SkewArm, SkewMessages, SkewBlocks, IfElseCode, IfNilCode;
      hide Frame, StackDepth.Static;
      LinIfElse(e, |operations|, stackTop, inBlock);
      ghost var start, c := operations, Lin(e.receiver, |operations|, stackTop, inBlock);
      Visit(e.receiver);
      var branch := BranchIf(!e.sense);
      ghost var b1 := LinBody(e.first, |operations|, stackTop, inBlock);
      VisitStatements(e.first);
      var end := Jump();
      BranchTargetOf(branch);
      ghost var b2 := LinBody(e.second, |operations|, stackTop, inBlock);
      VisitStatements(e.second);
      BranchTargetOf(end);
      PatchIfElse(start, c, e.sense, b1, b2);
    }

    method StoreArgument(arm: Arm)
      modifies `operations
      ensures operations == old(operations) + BindArm(arm) && Frame() == old(Frame())
    {
      if arm.Inlined? && |arm.args| == 1 {
        Emit(StoreRintoFrame(arm.args[0]));
      }
    }

    method VisitArm(arm: Arm)
      modifies `operations, `stackTop, `inBlock
      ensures operations == old(operations) + LinArm(arm, |old(operations)|, old(stackTop), old(inBlock))
      ensures stackTop == old(stackTop) - SkewArm(arm) && inBlock == old(inBlock)
      ensures Frame() == old(Frame())
      decreases arm, 3
    {
      match arm
      case Inlined(_, statements) => VisitStatements(statements);
      case Plain(e) => Visit(e);
    }

    /** The receiver of an ifNil:, kept on the stack, and its test. */
    method VisitNilHead(receiver: Expr, bound: Arm)
      modifies `operations, `stackTop, `inBlock
      ensures operations
        == old(operations) + NilCode(Lin(receiver, |old(operations)|, old(stackTop), old(inBlock)), bound)
      ensures stackTop == old(stackTop) - Skew(receiver) + 1 && inBlock == old(inBlock)
      ensures Frame() == old(Frame())
      decreases receiver, 3
    {
      hide Lin, Skew, BindArm;
      hide Frame, StackDepth.Static;
      ghost var start, r := operations, Lin(receiver, |operations|, stackTop, inBlock);
      Visit(receiver);
      StoreArgument(bound);
      PushR();
      VisitBinary(LoadRfromStack(0), EqualsEquals, LoadLiteral(Nil));
      assert operations == start + NilCode(r, bound);
    }

    /** Both ways out lower the static stack top, though only one of them is taken. */
    method InlineIfNil(e: Expr)
      requires e.IfNil?
      modifies `operations, `stackTop, `inBlock
      ensures operations == old(operations) + Lin(e, |old(operations)|, old(stackTop), old(inBlock))
      ensures stackTop == old(stackTop) - Skew(e) && inBlock == old(inBlock)
      ensures Frame() == old(Frame())
      decreases e, 0
    {
      hide Lin, LinBody, LinArgs, LinArm, LinMessages, LinChain, LinWholeChain, LinToDoHead, LinClosure, Skew, SkewAll;
      hide SkewArm, SkewMessages, SkewBlocks, NilCode, IfElseCode, IfNilCode;
      hide Frame, StackDepth.Static;
      LinIfNil(e, |operations|, stackTop, inBlock);
      ghost var start, c := operations, NilCode(Lin(e.receiver, |operations|, stackTop, inBlock), e.arm);
      VisitNilHead(e.receiver, e.arm);
      var branch := BranchIf(!e.sense);
      ghost var b := LinArm(e.arm, |operations|, stackTop, inBlock);
      VisitArm(e.arm);
      DropToS(1);
      var end := Jump();
      BranchTargetOf(branch);
      PopR();
      BranchTargetOf(end);
      PatchIfNil(start, c, e.sense, b);
    }

    method InlineIfNilElse(e: Expr)
      requires e.IfNilElse?
      modifies `operations, `stackTop, `inBlock
      ensures operations == old(operations) + Lin(e, |old(operations)|, old(stackTop), old(inBlock))
      ensures stackTop == old(stackTop) - Skew(e) && inBlock == old(inBlock)
      ensures Frame() == old(Frame())
      decreases e, 0
    {
      hide Lin, LinBody, LinArgs, LinArm, LinMessages, LinChain, LinWholeChain, LinToDoHead, LinClosure, Skew, SkewAll;
      hide SkewArm, SkewMessages, SkewBlocks, NilCode, IfElseCode, IfNilCode;
      hide Frame, StackDepth.Static;
      LinIfNilElse(e, |operations|, stackTop, inBlock);
      ghost var bound := if e.sense then e.secondArm else e.firstArm;
      ghost var start, c := operations, NilCode(Lin(e.receiver, |operations|, stackTop, inBlock), bound);
      VisitNilHead(e.receiver, if e.sense then e.secondArm else e.firstArm);
      var branch := BranchIf(!e.sense);
      ghost var b1 := LinArm(e.firstArm, |operations|, stackTop, inBlock);
      VisitArm(e.firstArm);
      var end := Jump();
      BranchTargetOf(branch);
      ghost var b2 := LinArm(e.secondArm, |operations|, stackTop, inBlock);
      VisitArm(e.secondArm);
      BranchTargetOf(end);
      PatchIfElse(start, c, e.sense, b1, b2);
      DropToS(1);
      Assoc(start, IfElseCode(|start|, c, e.sense, b1, b2), [Op.DropToS(1)]);
    }

    method InlineWhile(e: Expr)
      requires e.WhileUnary? || e.While? || e.Repeat?
      modifies `operations, `stackTop, `inBlock
      ensures operations == old(operations) + Lin(e, |old(operations)|, old(stackTop), old(inBlock))
      ensures stackTop == old(stackTop) - Skew(e) && inBlock == old(inBlock)
      ensures Frame() == old(Frame())
      decreases e, 0
    {
      hide Lin, LinBody, LinArgs, LinArm, LinMessages, LinChain, LinWholeChain, LinToDoHead, LinClosure, Skew, SkewAll;
      hide SkewArm, SkewMessages, SkewBlocks;
      hide Frame, StackDepth.Static;
      LinWhile(e, |operations|, stackTop, inBlock);
      ghost var before := operations;
      var start := |operations|;
      match e
      case WhileUnary(sense, condition) =>
        VisitStatements(condition);
        Emit(JumpIf(sense, start));
      case While(sense, condition, body) =>
        ghost var c := LinBody(condition, |operations|, stackTop, inBlock);
        VisitStatements(condition);
        var end := BranchIf(!sense);
        ghost var b := LinBody(body, |operations|, stackTop, inBlock);
        VisitStatements(body);
        Emit(Op.Jump(start));
        BranchTargetOf(end);
        assert operations == before + WhileCode(start, c, sense, b);
      case Repeat(body) =>
        VisitStatements(body);
        Emit(Op.Jump(start));
    }

    /** The turns of a counted loop, once the limit is on the stack. */
    method VisitLoop(cell: int, body: seq<Expr>, drop: nat)
      modifies `operations, `stackTop, `inBlock
      ensures operations == old(operations) + LoopCode(|old(operations)|, cell, old(stackTop),
        LinBody(body, |old(operations)| + 8, old(stackTop), old(inBlock)), drop)
      ensures stackTop == old(stackTop) - SkewAll(body) - drop && inBlock == old(inBlock)
      ensures Frame() == old(Frame())
      decreases body, 1
    {
      hide Lin, LinBody, LinArgs, LinArm, LinMessages, LinChain, LinWholeChain, LinToDoHead, LinClosure, Skew, SkewAll;
      hide SkewArm, SkewMessages, SkewBlocks;
      hide Frame, StackDepth.Static;
      ghost var before := operations;
      var limit := LoadRfromFrame(stackTop);
      var start := |operations|;
      VisitBinary(LoadRfromFrame(cell), GreaterThan, limit);
      var end := BranchIf(true);
      ghost var b := LinBody(body, |operations|, stackTop, inBlock);
      VisitStatements(body);
      VisitBinary(LoadRfromFrame(cell), Plus, LoadLiteral(Small(1)));
      Emit(StoreRintoFrame(cell));
      Emit(Op.Jump(start));
      BranchTargetOf(end);
      DropToS(drop);
      assert operations == before + LoopCode(start, cell, old(stackTop), b, drop);
    }

    method VisitToDoHead(e: Expr)
      requires e.ToDo?
      modifies `operations, `stackTop, `inBlock
      ensures operations == old(operations) + LinToDoHead(e, |old(operations)|, old(stackTop), old(inBlock))
      ensures stackTop == old(stackTop) - Skew(e.receiver) - Skew(e.limit) + 1 && inBlock == old(inBlock)
      ensures Frame() == old(Frame())
      decreases e, 0
    {
      hide Lin, Skew;
      hide Frame, StackDepth.Static;
      ghost var start, r := operations, Lin(e.receiver, |operations|, stackTop, inBlock);
      Visit(e.receiver);
      Emit(StoreRintoFrame(e.index));
      ghost var l := Lin(e.limit, |operations|, stackTop, inBlock);
      Visit(e.limit);
      PushR();
      assert operations == start + (r + [StoreRintoFrame(e.index)] + l + [Op.PushR]);
    }

    method InlineToDo(e: Expr)
      requires e.ToDo?
      modifies `operations, `stackTop, `inBlock
      ensures operations == old(operations) + Lin(e, |old(operations)|, old(stackTop), old(inBlock))
      ensures stackTop == old(stackTop) - Skew(e) && inBlock == old(inBlock)
      ensures Frame() == old(Frame())
      decreases e, 1
    {
      hide Lin, LinBody, Skew, SkewAll, LoopCode, LinToDoHead;
      hide Frame, StackDepth.Static;
      LinToDo(e, |operations|, stackTop, inBlock);
      ghost var start, head := operations, LinToDoHead(e, |operations|, stackTop, inBlock);
      VisitToDoHead(e);
      ghost var body := LinBody(e.body, |operations| + 8, stackTop, inBlock);
      ghost var loop := LoopCode(|operations|, e.index, stackTop, body, 1);
      VisitLoop(e.index, e.body, 1);
      Assoc(start, head, loop);
    }

    method VisitTimesHead(receiver: Expr)
      modifies `operations, `stackTop, `inBlock
      ensures operations == old(operations)
        + ([LoadLiteral(Small(1)), Op.PushR] + Lin(receiver, |old(operations)| + 2, old(stackTop) + 1, old(inBlock))
          + [Op.PushR])
      ensures stackTop == old(stackTop) - Skew(receiver) + 2 && inBlock == old(inBlock)
      ensures Frame() == old(Frame())
      decreases receiver, 3
    {
      hide Lin, Skew;
      hide Frame, StackDepth.Static;
      ghost var start, r := operations, Lin(receiver, |operations| + 2, stackTop + 1, inBlock);
      Emit(LoadLiteral(Small(1)));
      PushR();
      Visit(receiver);
      PushR();
      assert operations == start + ([LoadLiteral(Small(1)), Op.PushR] + r + [Op.PushR]);
    }

    method InlineTimesRepeat(e: Expr)
      requires e.TimesRepeat?
      modifies `operations, `stackTop, `inBlock
      ensures operations == old(operations) + Lin(e, |old(operations)|, old(stackTop), old(inBlock))
      ensures stackTop == old(stackTop) - Skew(e) && inBlock == old(inBlock)
      ensures Frame() == old(Frame())
      decreases e, 0
    {
      hide Lin, LinBody, Skew, SkewAll, LoopCode;
      hide Frame, StackDepth.Static;
      LinTimesRepeat(e, |operations|, stackTop, inBlock);
      ghost var start, r := operations, Lin(e.receiver, |operations| + 2, stackTop + 1, inBlock);
      ghost var head := [LoadLiteral(Small(1)), Op.PushR] + r + [Op.PushR];
      var current := stackTop + 1;
      VisitTimesHead(e.receiver);
      ghost var body := LinBody(e.body, |operations| + 8, stackTop, inBlock);
      ghost var loop := LoopCode(|operations|, current, stackTop, body, 2);
      VisitLoop(current, e.body, 2);
      Assoc(start, head, loop);
    }

    method InlineNegated(e: Expr)
      requires e.AndNot? || e.OrNot?
      modifies `operations, `stackTop, `inBlock
      ensures operations == old(operations) + Lin(e, |old(operations)|, old(stackTop), old(inBlock))
      ensures stackTop == old(stackTop) - Skew(e) && inBlock == old(inBlock)
      ensures Frame() == old(Frame())
      decreases e, 0
    {
      hide Lin, LinBody, LinArgs, LinArm, LinMessages, LinChain, LinWholeChain, LinToDoHead, LinClosure, Skew, SkewAll;
      hide SkewArm, SkewMessages, SkewBlocks;
      hide Frame, StackDepth.Static;
      LinNegated(e, |operations|, stackTop, inBlock);
      ghost var start, c := operations, Lin(e.receiver, |operations|, stackTop, inBlock);
      Visit(e.receiver);
      var branch := BranchIf(e.OrNot?);
      ghost var b := LinBody(e.body, |operations|, stackTop, inBlock);
      VisitStatements(e.body);
      Emit(Dispatch(Not, false, 0));
      BranchTargetOf(branch);
      assert operations == start + NegatedCode(|start|, c, e.OrNot?, b);
    }

    /** The jumps of a chain all go to its end, so they are filled in last. */
    method InlineChain(e: Expr)
      requires e.And? || e.Or?
      modifies `operations, `stackTop, `inBlock
      ensures operations == old(operations) + Lin(e, |old(operations)|, old(stackTop), old(inBlock))
      ensures stackTop == old(stackTop) - Skew(e) && inBlock == old(inBlock)
      ensures Frame() == old(Frame())
      decreases e, 0
    {
      hide Lin, LinChain, Skew, SkewBlocks, Branches, Patched, LinWholeChain;
      hide Frame, StackDepth.Static;
      LinAndOr(e, |operations|, stackTop, inBlock);
      ghost var start, c := operations, Lin(e.receiver, |operations|, stackTop, inBlock);
      Visit(e.receiver);
      ghost var end := |operations| + |LinChain(e.Or?, e.blocks, |operations|, stackTop, inBlock, NO_TARGET)|;
      ghost var whole := LinChain(e.Or?, e.blocks, |operations|, stackTop, inBlock, end);
      var branches := VisitChain(e.Or?, e.blocks, end);
      FillIn(branches);
      Assoc(start, c, whole);
    }

    /** Makes every branch go to the next operation. */
    method FillIn(branches: seq<nat>)
      requires Branches(operations, branches)
      modifies `operations
      ensures operations == Patched(old(operations), branches, |old(operations)|) && Frame() == old(Frame())
    {
      hide Lin;
      ghost var before := operations;
      var i := 0;
      while i < |branches|
        invariant i <= |branches| && Branches(before, branches[..i])
        invariant operations == Patched(before, branches[..i], |before|) && Frame() == old(Frame())
      {
        assert branches[i] in branches;
        BranchTargetOf(branches[i]);
        assert branches[..i + 1] == branches[..i] + [branches[i]];
        i := i + 1;
      }
      assert branches[..i] == branches;
    }

    method VisitChain(stop: bool, blocks: seq<Block>, ghost end: nat) returns (branches: seq<nat>)
      modifies `operations, `stackTop, `inBlock
      ensures operations
        == old(operations) + LinChain(stop, blocks, |old(operations)|, old(stackTop), old(inBlock), NO_TARGET)
      ensures stackTop == old(stackTop) - SkewBlocks(blocks) && inBlock == old(inBlock)
      ensures Frame() == old(Frame())
      ensures Branches(operations, branches) && forall b :: b in branches ==> b >= |old(operations)|
      ensures Patched(operations, branches, end)
        == old(operations) + LinChain(stop, blocks, |old(operations)|, old(stackTop), old(inBlock), end)
      decreases blocks, 0
    {
      hide LinBody, LinChain, SkewAll, SkewBlocks, Branches, Patched;
      hide Frame, StackDepth.Static;
      branches := [];
      if blocks == [] {
        NoBlocks(stop, |operations|, stackTop, inBlock, end);
        NoBlocks(stop, |operations|, stackTop, inBlock, NO_TARGET);
        PatchNone(operations, end);
      } else {
        LinChainCons(stop, blocks, |operations|, stackTop, inBlock, end);
        LinChainCons(stop, blocks, |operations|, stackTop, inBlock, NO_TARGET);
        ghost var start := operations;
        var branch := BranchIf(stop);
        ghost var b := LinBody(blocks[0].statements, |operations|, stackTop, inBlock);
        VisitStatements(blocks[0].statements);
        ghost var tail := LinChain(stop, blocks[1..], |operations|, stackTop, inBlock, NO_TARGET);
        ghost var filled := LinChain(stop, blocks[1..], |operations|, stackTop, inBlock, end);
        var rest := VisitChain(stop, blocks[1..], end);
        branches := [branch] + rest;
        PatchFirst(start, stop, b, tail, filled, rest, end);
      }
    }
  }

  ghost predicate Branches(ops: seq<Op>, branches: seq<nat>) {
    forall b :: b in branches ==> b < |ops| && IsJump(ops[b])
  }

  lemma Assoc(a: seq<Op>, b: seq<Op>, c: seq<Op>)
    ensures a + b + c == a + (b + c)
  {}

  /** The two forward jumps of a two-armed conditional, filled in as their targets are reached. */
  lemma PatchIfElse(start: seq<Op>, c: seq<Op>, sense: bool, b1: seq<Op>, b2: seq<Op>)
    ensures var ops := start + c + [JumpIf(!sense, NO_TARGET)] + b1 + [Jump(NO_TARGET)];
      var branch, end := |start + c|, |start + c| + 1 + |b1|;
      var filled := ops[branch := JumpIf(!sense, |ops|)] + b2;
      filled[end := Jump(|filled|)] == start + IfElseCode(|start|, c, sense, b1, b2)
  {}

  lemma PatchIfNil(start: seq<Op>, c: seq<Op>, sense: bool, b: seq<Op>)
    ensures var ops := start + c + [JumpIf(!sense, NO_TARGET)] + b + [DropToS(1)] + [Jump(NO_TARGET)];
      var branch, end := |start + c|, |start + c| + 2 + |b|;
      var filled := ops[branch := JumpIf(!sense, |ops|)] + [PopR];
      filled[end := Jump(|filled|)] == start + IfNilCode(|start|, c, sense, b)
  {}

  lemma PatchNone(ops: seq<Op>, end: nat)
    ensures Branches(ops, []) && Patched(ops, [], end) == ops
  {}

  lemma PatchFirst(start: seq<Op>, stop: bool, b: seq<Op>, tail: seq<Op>, filled: seq<Op>, rest: seq<nat>, end: nat)
    requires var ops := start + [JumpIf(stop, NO_TARGET)] + b + tail;
      && Branches(ops, rest) && (forall k :: k in rest ==> k >= |start| + 1 + |b|)
      && Patched(ops, rest, end) == start + [JumpIf(stop, NO_TARGET)] + b + filled
    ensures var ops := start + [JumpIf(stop, NO_TARGET)] + b + tail;
      && ops == start + ([JumpIf(stop, NO_TARGET)] + b + tail)
      && Branches(ops, [|start|] + rest)
      && Patched(ops, [|start|] + rest, end) == start + ([JumpIf(stop, end)] + b + filled)
  {
    var ops := start + [JumpIf(stop, NO_TARGET)] + b + tail;
    var some, all := Patched(ops, rest, end), Patched(ops, [|start|] + rest, end);
    assert forall k :: 0 <= k < |ops| && k != |start| ==> all[k] == some[k];
    assert all == some[|start| := JumpIf(stop, end)];
  }
}
