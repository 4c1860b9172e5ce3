/** The operations of each tree, with every jump target in place: what the linearizer has
    emitted once it is done, as a function of the pc it started at and of its static stack top. */
module Layout {
  import opened Trees
  import opened Machine

  /** The target of a jump that has not been filled in. */
  const NO_TARGET: nat := 0xFFFFFFFF

  // ---- how much the static stack top falls short

  /** Each one-armed ifNil: lowers the static stack top once more than the real one. */
  function Skew(e: Expr): nat
    decreases e, 1
  {
    match e
    case Literal(_) => 0
    case Identifier(_) => 0
    case Closure(_, _, _) => 0
    case Assignment(_, e1) => Skew(e1)
    case Send(r, _, args, _) => Skew(r) + SkewAll(args)
    case Cascade(r, messages, _) => Skew(r) + SkewMessages(messages)
    case Return(_, e1) => Skew(e1)
    case If(r, _, body) => Skew(r) + SkewAll(body)
    case IfElse(r, _, first, second) => Skew(r) + SkewAll(first) + SkewAll(second)
    case IfNil(r, _, arm) => Skew(r) + SkewArm(arm) + 1
    case IfNilElse(r, _, firstArm, secondArm) => Skew(r) + SkewArm(firstArm) + SkewArm(secondArm)
    case WhileUnary(_, condition) => SkewAll(condition)
    case While(_, condition, body) => SkewAll(condition) + SkewAll(body)
    case Repeat(body) => SkewAll(body)
    case ToDo(_, r, limit, body) => Skew(r) + Skew(limit) + SkewAll(body)
    case TimesRepeat(r, body) => Skew(r) + SkewAll(body)
    case And(r, blocks) => Skew(r) + SkewBlocks(blocks)
    case Or(r, blocks) => Skew(r) + SkewBlocks(blocks)
    case AndNot(r, body) => Skew(r) + SkewAll(body)
    case OrNot(r, body) => Skew(r) + SkewAll(body)
  }

  function SkewAll(es: seq<Expr>): nat
    decreases es, 0
  {
    if es == [] then 0 else Skew(es[0]) + SkewAll(es[1..])
  }

  function SkewMessages(messages: seq<Message>): nat
    decreases messages, 0
  {
    if messages == [] then 0 else SkewAll(messages[0].args) + SkewMessages(messages[1..])
  }

  function SkewBlocks(blocks: seq<Block>): nat
    decreases blocks, 0
  {
    if blocks == [] then 0 else SkewAll(blocks[0].statements) + SkewBlocks(blocks[1..])
  }

  function SkewArm(arm: Arm): nat
    decreases arm, 2
  {
    match arm
    case Inlined(_, statements) => SkewAll(statements)
    case Plain(e) => Skew(e)
  }

  // ---- fixed sequences

  /** Sends a binary message to a frame cell. */
  function SendToCell(cell: int, selector: Selector, arg: Op): seq<Op> {
    [LoadRfromFrame(cell), PushR, arg, PushR, LoadRfromStack(1), Dispatch(selector, false, 1), DropToS(2)]
  }

  /** Compares the value on top of the stack with nil. */
  function NilTest(): seq<Op> {
    [LoadRfromStack(0), PushR, LoadLiteral(Nil), PushR, LoadRfromStack(1), Dispatch(EqualsEquals, false, 1), DropToS(2)]
  }

  function BindArm(arm: Arm): seq<Op> {
    match ArmCell(arm)
    case None => []
    case Some(index) => [StoreRintoFrame(index)]
  }

  function LastIsReturn(body: seq<Expr>): bool {
    body != [] && body[|body| - 1].Return?
  }

  // ---- control structures, put together from the code of their parts

  function SendCode(c: seq<Op>, args: seq<Op>, selector: Selector, toSuper: bool, count: nat): seq<Op> {
    if count == 0 then c + [Dispatch(selector, toSuper, 0)]
    else c + [PushR] + args + [LoadRfromStack(count), Dispatch(selector, toSuper, count), DropToS(count + 1)]
  }

  function CascadedCode(args: seq<Op>, selector: Selector, toSuper: bool, count: nat): seq<Op> {
    args + [LoadRfromStack(count), Dispatch(selector, toSuper, count)] + if count == 0 then [] else [DropToS(count)]
  }

  function IfCode(base: nat, c: seq<Op>, sense: bool, b: seq<Op>): seq<Op> {
    var otherwise := base + |c| + |b| + 2;
    c + [JumpIf(!sense, otherwise)] + b + [Jump(otherwise + 1), LoadRwithNil]
  }

  function IfElseCode(base: nat, c: seq<Op>, sense: bool, b1: seq<Op>, b2: seq<Op>): seq<Op> {
    var otherwise := base + |c| + |b1| + 2;
    c + [JumpIf(!sense, otherwise)] + b1 + [Jump(otherwise + |b2|)] + b2
  }

  /** The receiver of an ifNil:, its test against nil, and the receiver left on the stack. */
  function NilCode(c: seq<Op>, bound: Arm): seq<Op> {
    c + BindArm(bound) + [PushR] + NilTest()
  }

  function IfNilCode(base: nat, c: seq<Op>, sense: bool, b: seq<Op>): seq<Op> {
    var otherwise := base + |c| + |b| + 3;
    c + [JumpIf(!sense, otherwise)] + b + [DropToS(1), Jump(otherwise + 1), PopR]
  }

  function WhileCode(base: nat, c: seq<Op>, sense: bool, b: seq<Op>): seq<Op> {
    c + [JumpIf(!sense, base + |c| + |b| + 2)] + b + [Jump(base)]
  }

  /** A counted loop over a cell, once its limit is on the stack. */
  function LoopCode(start: nat, cell: int, limit: int, b: seq<Op>, drop: nat): seq<Op> {
    SendToCell(cell, GreaterThan, LoadRfromFrame(limit)) + [JumpIf(true, start + |b| + 17)] + b
    + SendToCell(cell, Plus, LoadLiteral(Small(1))) + [StoreRintoFrame(cell), Jump(start), DropToS(drop)]
  }

  function NegatedCode(base: nat, c: seq<Op>, stop: bool, b: seq<Op>): seq<Op> {
    c + [JumpIf(stop, base + |c| + |b| + 2)] + b + [Dispatch(Not, false, 0)]
  }

  // ---- the operations of a tree

  function Lin(e: Expr, base: nat, top: int, inBlock: bool): seq<Op>
    decreases e, 1
  {
    match e
    case Literal(v) => [LoadLiteral(v)]
    case Identifier(x) => [LoadVariable(x)]
    case Closure(id, tempCount, body) => [MakeClosure(id, tempCount, LinClosure(body, tempCount))]
    case Assignment(xs, e1) => Lin(e1, base, top, inBlock) + [Assign(xs)]
    case Send(r, selector, args, toSuper) =>
      var c := Lin(r, base, top, inBlock);
      SendCode(c, LinArgs(args, base + |c| + 1, top - Skew(r) + 1, inBlock), selector, toSuper, |args|)
    case Cascade(r, messages, toSuper) =>
      var c := Lin(r, base, top, inBlock);
      c + [PushR] + LinMessages(messages, toSuper, base + |c| + 1, top - Skew(r) + 1, inBlock) + [DropToS(1)]
    case Return(local, e1) =>
      Lin(e1, base, top, inBlock) + [if local && !inBlock then ReturnOp else NonLocalReturn]
    case If(r, sense, body) =>
      var c := Lin(r, base, top, inBlock);
      IfCode(base, c, sense, LinBody(body, base + |c| + 1, top - Skew(r), inBlock))
    case IfElse(r, sense, first, second) =>
      var c := Lin(r, base, top, inBlock);
      var b1 := LinBody(first, base + |c| + 1, top - Skew(r), inBlock);
      IfElseCode(base, c, sense, b1, LinBody(second, base + |c| + |b1| + 2, top - Skew(r) - SkewAll(first), inBlock))
    case IfNil(r, sense, arm) =>
      var c := NilCode(Lin(r, base, top, inBlock), arm);
      IfNilCode(base, c, sense, LinArm(arm, base + |c| + 1, top - Skew(r) + 1, inBlock))
    case IfNilElse(r, sense, firstArm, secondArm) =>
      var c := NilCode(Lin(r, base, top, inBlock), if sense then secondArm else firstArm);
      var b1 := LinArm(firstArm, base + |c| + 1, top - Skew(r) + 1, inBlock);
      IfElseCode(base, c, sense, b1,
        LinArm(secondArm, base + |c| + |b1| + 2, top - Skew(r) + 1 - SkewArm(firstArm), inBlock))
      + [DropToS(1)]
    case WhileUnary(sense, condition) =>
      LinBody(condition, base, top, inBlock) + [JumpIf(sense, base)]
    case While(sense, condition, body) =>
      var c := LinBody(condition, base, top, inBlock);
      WhileCode(base, c, sense, LinBody(body, base + |c| + 1, top - SkewAll(condition), inBlock))
    case Repeat(body) =>
      LinBody(body, base, top, inBlock) + [Jump(base)]
    case ToDo(index, r, limit, body) =>
      var l := LinToDoHead(e, base, top, inBlock);
      var top1 := top - Skew(r) - Skew(limit) + 1;
      l + LoopCode(base + |l|, index, top1, LinBody(body, base + |l| + 8, top1, inBlock), 1)
    case TimesRepeat(r, body) =>
      var l := [LoadLiteral(Small(1)), PushR] + Lin(r, base + 2, top + 1, inBlock) + [PushR];
      var top1 := top - Skew(r) + 2;
      l + LoopCode(base + |l|, top + 1, top1, LinBody(body, base + |l| + 8, top1, inBlock), 2)
    case And(r, blocks) =>
      var c := Lin(r, base, top, inBlock);
      c + LinWholeChain(false, blocks, base + |c|, top - Skew(r), inBlock)
    case Or(r, blocks) =>
      var c := Lin(r, base, top, inBlock);
      c + LinWholeChain(true, blocks, base + |c|, top - Skew(r), inBlock)
    case AndNot(r, body) =>
      var c := Lin(r, base, top, inBlock);
      NegatedCode(base, c, false, LinBody(body, base + |c| + 1, top - Skew(r), inBlock))
    case OrNot(r, body) =>
      var c := Lin(r, base, top, inBlock);
      NegatedCode(base, c, true, LinBody(body, base + |c| + 1, top - Skew(r), inBlock))
  }

  /** to:do: up to its loop: the first value goes to the cell, the limit to the stack. */
  function LinToDoHead(e: Expr, base: nat, top: int, inBlock: bool): seq<Op>
    requires e.ToDo?
    decreases e, 0
  {
    var c := Lin(e.receiver, base, top, inBlock) + [StoreRintoFrame(e.index)];
    c + Lin(e.limit, base + |c|, top - Skew(e.receiver), inBlock) + [PushR]
  }

  /** Each argument is evaluated and pushed. */
  function LinArgs(args: seq<Expr>, base: nat, top: int, inBlock: bool): seq<Op>
    decreases args, 0
  {
    if args == [] then [] else
    var c := Lin(args[0], base, top, inBlock);
    c + [PushR] + LinArgs(args[1..], base + |c| + 1, top - Skew(args[0]) + 1, inBlock)
  }

  function LinMessages(messages: seq<Message>, toSuper: bool, base: nat, top: int, inBlock: bool): seq<Op>
    decreases messages, 0
  {
    if messages == [] then [] else
    var m := messages[0];
    var c := CascadedCode(LinArgs(m.args, base, top, inBlock), m.selector, toSuper, |m.args|);
    c + LinMessages(messages[1..], toSuper, base + |c|, top - SkewAll(m.args), inBlock)
  }

  function LinBody(body: seq<Expr>, base: nat, top: int, inBlock: bool): seq<Op>
    decreases body, 0
  {
    if body == [] then [] else
    var c := Lin(body[0], base, top, inBlock);
    c + LinBody(body[1..], base + |c|, top - Skew(body[0]), inBlock)
  }

  function LinArm(arm: Arm, base: nat, top: int, inBlock: bool): seq<Op>
    decreases arm, 2
  {
    match arm
    case Inlined(_, statements) => LinBody(statements, base, top, inBlock)
    case Plain(e) => Lin(e, base, top, inBlock)
  }

  function LinWholeChain(stop: bool, blocks: seq<Block>, base: nat, top: int, inBlock: bool): seq<Op>
    decreases blocks, 1
  {
    LinChain(stop, blocks, base, top, inBlock, base + |LinChain(stop, blocks, base, top, inBlock, NO_TARGET)|)
  }

  /** Before each block, a jump to the end of the chain. */
  function LinChain(stop: bool, blocks: seq<Block>, base: nat, top: int, inBlock: bool, end: nat): seq<Op>
    decreases blocks, 0
  {
    if blocks == [] then [] else
    var b := LinBody(blocks[0].statements, base + 1, top, inBlock);
    [JumpIf(stop, end)] + b
    + LinChain(stop, blocks[1..], base + 1 + |b|, top - SkewAll(blocks[0].statements), inBlock, end)
  }

  /** The code of a real block: it has its own frame. */
  function LinClosure(body: seq<Expr>, tempCount: nat): seq<Op>
    decreases body, 1
  {
    LinBody(body, 0, tempCount, true)
    + if body == [] then [LoadRwithNil, ReturnOp] else if LastIsReturn(body) then [] else [ReturnOp]
  }

  function LinMethod(body: seq<Expr>, tempCount: nat): seq<Op> {
    LinBody(body, 0, tempCount, false) + if LastIsReturn(body) then [] else [LoadRwithSelf, ReturnOp]
  }

  /** The code of a script that is a method, or a real block. */
  function Code(body: seq<Expr>, tempCount: nat, inBlock: bool): seq<Op> {
    if inBlock then LinClosure(body, tempCount) else LinMethod(body, tempCount)
  }

  /** Where the chain ends does not change its size. */
  lemma {:induction false} ChainSize(stop: bool, blocks: seq<Block>, base: nat, top: int, inBlock: bool, end: nat,
                                     end': nat)
    ensures |LinChain(stop, blocks, base, top, inBlock, end)| == |LinChain(stop, blocks, base, top, inBlock, end')|
  {
    hide Lin, LinBody, SkewAll;
    if blocks != [] {
      var b := LinBody(blocks[0].statements, base + 1, top, inBlock);
      ChainSize(stop, blocks[1..], base + 1 + |b|, top - SkewAll(blocks[0].statements), inBlock, end, end');
    }
  }

  // ---- one level of `Lin`

  lemma LinLeaf(e: Expr, base: nat, top: int, inBlock: bool)
    ensures e.Literal? ==> Lin(e, base, top, inBlock) == [LoadLiteral(e.value)] && Skew(e) == 0
    ensures e.Identifier? ==> Lin(e, base, top, inBlock) == [LoadVariable(e.variable)] && Skew(e) == 0
    ensures e.Closure? ==>
      Lin(e, base, top, inBlock) == [MakeClosure(e.id, e.tempCount, LinClosure(e.body, e.tempCount))] && Skew(e) == 0
    ensures e.Assignment? ==>
      Lin(e, base, top, inBlock) == Lin(e.expression, base, top, inBlock) + [Assign(e.assignees)]
        && Skew(e) == Skew(e.expression)
    ensures e.Return? ==>
      Lin(e, base, top, inBlock)
      == Lin(e.expression, base, top, inBlock) + [if e.local && !inBlock then ReturnOp else NonLocalReturn]
      && Skew(e) == Skew(e.expression)
  {
    hide LinClosure, SkewAll;
  }

  lemma LinSend(e: Expr, base: nat, top: int, inBlock: bool)
    requires e.Send?
    ensures var c := Lin(e.receiver, base, top, inBlock);
      Lin(e, base, top, inBlock)
      == SendCode(c, LinArgs(e.args, base + |c| + 1, top - Skew(e.receiver) + 1, inBlock), e.selector, e.toSuper,
        |e.args|)
    ensures Skew(e) == Skew(e.receiver) + SkewAll(e.args)
  {
    hide LinArgs, SendCode, SkewAll;
  }

  lemma LinCascade(e: Expr, base: nat, top: int, inBlock: bool)
    requires e.Cascade?
    ensures var c := Lin(e.receiver, base, top, inBlock);
      Lin(e, base, top, inBlock)
      == c + [PushR] + LinMessages(e.messages, e.toSuper, base + |c| + 1, top - Skew(e.receiver) + 1, inBlock)
        + [DropToS(1)]
    ensures Skew(e) == Skew(e.receiver) + SkewMessages(e.messages)
  {
    hide LinMessages, SkewMessages;
  }

  lemma LinIf(e: Expr, base: nat, top: int, inBlock: bool)
    requires e.If?
    ensures var c := Lin(e.receiver, base, top, inBlock);
      Lin(e, base, top, inBlock)
      == IfCode(base, c, e.sense, LinBody(e.body, base + |c| + 1, top - Skew(e.receiver), inBlock))
    ensures Skew(e) == Skew(e.receiver) + SkewAll(e.body)
  {
    hide LinBody, IfCode, SkewAll;
  }

  lemma LinIfElse(e: Expr, base: nat, top: int, inBlock: bool)
    requires e.IfElse?
    ensures var c := Lin(e.receiver, base, top, inBlock);
      var b1 := LinBody(e.first, base + |c| + 1, top - Skew(e.receiver), inBlock);
      Lin(e, base, top, inBlock)
      == IfElseCode(base, c, e.sense, b1,
        LinBody(e.second, base + |c| + |b1| + 2, top - Skew(e.receiver) - SkewAll(e.first), inBlock))
    ensures Skew(e) == Skew(e.receiver) + SkewAll(e.first) + SkewAll(e.second)
  {
    hide LinBody, IfElseCode, SkewAll;
  }

  lemma LinIfNil(e: Expr, base: nat, top: int, inBlock: bool)
    requires e.IfNil?
    ensures var c := NilCode(Lin(e.receiver, base, top, inBlock), e.arm);
      Lin(e, base, top, inBlock)
      == IfNilCode(base, c, e.sense, LinArm(e.arm, base + |c| + 1, top - Skew(e.receiver) + 1, inBlock))
    ensures Skew(e) == Skew(e.receiver) + SkewArm(e.arm) + 1
  {
    hide LinArm, NilCode, IfNilCode, SkewArm;
  }

  lemma LinIfNilElse(e: Expr, base: nat, top: int, inBlock: bool)
    requires e.IfNilElse?
    ensures var c := NilCode(Lin(e.receiver, base, top, inBlock), if e.sense then e.secondArm else e.firstArm);
      var b1 := LinArm(e.firstArm, base + |c| + 1, top - Skew(e.receiver) + 1, inBlock);
      Lin(e, base, top, inBlock)
      == IfElseCode(base, c, e.sense, b1,
           LinArm(e.secondArm, base + |c| + |b1| + 2, top - Skew(e.receiver) + 1 - SkewArm(e.firstArm), inBlock))
             + [DropToS(1)]
    ensures Skew(e) == Skew(e.receiver) + SkewArm(e.firstArm) + SkewArm(e.secondArm)
  {
    hide LinArm, NilCode, IfElseCode, SkewArm;
  }

  lemma LinWhile(e: Expr, base: nat, top: int, inBlock: bool)
    ensures e.WhileUnary? ==>
      Lin(e, base, top, inBlock) == LinBody(e.condition, base, top, inBlock) + [JumpIf(e.sense, base)]
        && Skew(e) == SkewAll(e.condition)
    ensures e.While? ==>
      var c := LinBody(e.condition, base, top, inBlock);
      Lin(e, base, top, inBlock)
      == WhileCode(base, c, e.sense, LinBody(e.body, base + |c| + 1, top - SkewAll(e.condition), inBlock))
      && Skew(e) == SkewAll(e.condition) + SkewAll(e.body)
    ensures e.Repeat? ==>
      Lin(e, base, top, inBlock) == LinBody(e.body, base, top, inBlock) + [Jump(base)] && Skew(e) == SkewAll(e.body)
  {
    hide LinBody, WhileCode, SkewAll;
  }

  lemma LinToDo(e: Expr, base: nat, top: int, inBlock: bool)
    requires e.ToDo?
    ensures var l := LinToDoHead(e, base, top, inBlock);
      var top1 := top - Skew(e.receiver) - Skew(e.limit) + 1;
      Lin(e, base, top, inBlock)
      == l + LoopCode(base + |l|, e.index, top1, LinBody(e.body, base + |l| + 8, top1, inBlock), 1)
    ensures Skew(e) == Skew(e.receiver) + Skew(e.limit) + SkewAll(e.body)
  {
    hide LinToDoHead, LinBody, LoopCode, SkewAll;
  }

  lemma LinTimesRepeat(e: Expr, base: nat, top: int, inBlock: bool)
    requires e.TimesRepeat?
    ensures var l := [LoadLiteral(Small(1)), PushR] + Lin(e.receiver, base + 2, top + 1, inBlock) + [PushR];
      var top1 := top - Skew(e.receiver) + 2;
      Lin(e, base, top, inBlock)
      == l + LoopCode(base + |l|, top + 1, top1, LinBody(e.body, base + |l| + 8, top1, inBlock), 2)
    ensures Skew(e) == Skew(e.receiver) + SkewAll(e.body)
  {
    hide LinBody, LoopCode, SkewAll;
  }

  lemma LinAndOr(e: Expr, base: nat, top: int, inBlock: bool)
    requires e.And? || e.Or?
    ensures var c := Lin(e.receiver, base, top, inBlock);
      var end := base + |c| + |LinChain(e.Or?, e.blocks, base + |c|, top - Skew(e.receiver), inBlock, NO_TARGET)|;
      Lin(e, base, top, inBlock) == c + LinChain(e.Or?, e.blocks, base + |c|, top - Skew(e.receiver), inBlock, end)
    ensures Skew(e) == Skew(e.receiver) + SkewBlocks(e.blocks)
  {
    hide LinChain, SkewBlocks;
  }

  lemma LinNegated(e: Expr, base: nat, top: int, inBlock: bool)
    requires e.AndNot? || e.OrNot?
    ensures var c := Lin(e.receiver, base, top, inBlock);
      Lin(e, base, top, inBlock)
      == NegatedCode(base, c, e.OrNot?, LinBody(e.body, base + |c| + 1, top - Skew(e.receiver), inBlock))
    ensures Skew(e) == Skew(e.receiver) + SkewAll(e.body)
  {
    hide LinBody, NegatedCode, SkewAll;
  }

  lemma NoArgs(base: nat, top: int, inBlock: bool)
    ensures LinArgs([], base, top, inBlock) == [] && SkewAll([]) == 0
  {}

  lemma NoStatements(base: nat, top: int, inBlock: bool)
    ensures LinBody([], base, top, inBlock) == [] && SkewAll([]) == 0
  {}

  lemma LinBodyCons(body: seq<Expr>, base: nat, top: int, inBlock: bool)
    requires body != []
    ensures var c := Lin(body[0], base, top, inBlock);
      LinBody(body, base, top, inBlock) == c + LinBody(body[1..], base + |c|, top - Skew(body[0]), inBlock)
    ensures SkewAll(body) == Skew(body[0]) + SkewAll(body[1..])
  {
    hide Lin, Skew;
  }

  lemma LinArgsCons(args: seq<Expr>, base: nat, top: int, inBlock: bool)
    requires args != []
    ensures var c := Lin(args[0], base, top, inBlock);
      LinArgs(args, base, top, inBlock)
      == c + [PushR] + LinArgs(args[1..], base + |c| + 1, top - Skew(args[0]) + 1, inBlock)
    ensures SkewAll(args) == Skew(args[0]) + SkewAll(args[1..])
  {}

  lemma LinMessagesCons(messages: seq<Message>, toSuper: bool, base: nat, top: int, inBlock: bool)
    requires messages != []
    ensures var m := messages[0];
      var c := CascadedCode(LinArgs(m.args, base, top, inBlock), m.selector, toSuper, |m.args|);
      LinMessages(messages, toSuper, base, top, inBlock)
      == c + LinMessages(messages[1..], toSuper, base + |c|, top - SkewAll(m.args), inBlock)
    ensures SkewMessages(messages) == SkewAll(messages[0].args) + SkewMessages(messages[1..])
  {}

  lemma NoMessages(toSuper: bool, base: nat, top: int, inBlock: bool)
    ensures LinMessages([], toSuper, base, top, inBlock) == [] && SkewMessages([]) == 0
  {}

  lemma NoBlocks(stop: bool, base: nat, top: int, inBlock: bool, end: nat)
    ensures LinChain(stop, [], base, top, inBlock, end) == [] && SkewBlocks([]) == 0
  {}

  lemma LinChainCons(stop: bool, blocks: seq<Block>, base: nat, top: int, inBlock: bool, end: nat)
    requires blocks != []
    ensures var b := LinBody(blocks[0].statements, base + 1, top, inBlock);
      LinChain(stop, blocks, base, top, inBlock, end)
      == [JumpIf(stop, end)] + b + LinChain(stop, blocks[1..], base + 1 + |b|, top - SkewAll(blocks[0].statements),
        inBlock, end)
    ensures SkewBlocks(blocks) == SkewAll(blocks[0].statements) + SkewBlocks(blocks[1..])
  {}
}
