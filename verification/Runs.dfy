/** Runs through code in place, what a run owes to the outcome of a tree, and which trees the
    linearizer keeps the meaning of. */
module Runs {
  import opened Trees
  import opened Machine
  import opened Layout

  /** The running code, and whether it belongs to a real block. */
  datatype Script = Script(sem: Semantics, code: seq<Op>, inBlock: bool)

  // ---- which trees keep their meaning

  /** Trees whose operations can be trusted. Where the value of an inlined block is looked at,
      the block has statements, since an empty one leaves R as it was; the value of a loop is not
      looked at, since R then holds what its test answered; and no counted loop comes after a
      one-armed ifNil: (k of them so far), whose cells would not be the ones it pushed. */
  predicate Sound(e: Expr, k: nat, observed: bool)
    decreases e, 1
  {
    match e
    case Literal(_) => true
    case Identifier(_) => true
    case Closure(_, _, _) => true
    case Assignment(_, e1) => Sound(e1, k, true)
    case Send(r, _, args, _) => Sound(r, k, true) && SoundArgs(args, k + Skew(r))
    case Cascade(r, messages, _) => Sound(r, k, true) && SoundMessages(messages, k + Skew(r))
    case Return(_, e1) => Sound(e1, k, true)
    case If(r, _, body) => Sound(r, k, true) && SoundBody(body, k + Skew(r), observed)
    case IfElse(r, _, first, second) =>
      Sound(r, k, true) && SoundBody(first, k + Skew(r), observed)
        && SoundBody(second, k + Skew(r) + SkewAll(first), observed)
    case IfNil(r, _, arm) => Sound(r, k, true) && SoundArm(arm, k + Skew(r), observed)
    case IfNilElse(r, _, firstArm, secondArm) =>
      Sound(r, k, true) && SoundArm(firstArm, k + Skew(r), observed)
        && SoundArm(secondArm, k + Skew(r) + SkewArm(firstArm), observed)
    case WhileUnary(_, condition) => !observed && SoundBody(condition, k, true)
    case While(_, condition, body) => !observed && SoundBody(condition, k, true)
      && SoundBody(body, k + SkewAll(condition), false)
    case Repeat(body) => SoundBody(body, k, false)
    case ToDo(_, r, limit, body) =>
      && !observed && Sound(r, k, true) && Sound(limit, k + Skew(r), true)
      && k + Skew(r) + Skew(limit) == 0 && SoundBody(body, 0, false)
    case TimesRepeat(r, body) => !observed && Sound(r, k, true) && k + Skew(r) == 0 && SoundBody(body, 0, false)
    case And(r, blocks) => Sound(r, k, true) && SoundBlocks(blocks, k + Skew(r), observed)
    case Or(r, blocks) => Sound(r, k, true) && SoundBlocks(blocks, k + Skew(r), observed)
    case AndNot(r, body) => Sound(r, k, true) && SoundBody(body, k + Skew(r), true)
    case OrNot(r, body) => Sound(r, k, true) && SoundBody(body, k + Skew(r), true)
  }

  predicate SoundArgs(args: seq<Expr>, k: nat)
    decreases args, 0
  {
    args != [] ==> Sound(args[0], k, true) && SoundArgs(args[1..], k + Skew(args[0]))
  }

  predicate SoundMessages(messages: seq<Message>, k: nat)
    decreases messages, 0
  {
    messages != [] ==> SoundArgs(messages[0].args, k) && SoundMessages(messages[1..], k + SkewAll(messages[0].args))
  }

  /** Of a sequence of statements only the last value is ever looked at. */
  predicate SoundBody(body: seq<Expr>, k: nat, observed: bool)
    decreases body, 0
  {
    if body == [] then !observed
    else if |body| == 1 then Sound(body[0], k, observed)
    else Sound(body[0], k, false) && SoundBody(body[1..], k + Skew(body[0]), observed)
  }

  predicate SoundArm(arm: Arm, k: nat, observed: bool)
    decreases arm, 2
  {
    match arm
    case Inlined(_, statements) => SoundBody(statements, k, observed)
    case Plain(e) => Sound(e, k, observed)
  }

  predicate SoundBlocks(blocks: seq<Block>, k: nat, observed: bool)
    decreases blocks, 0
  {
    blocks != [] ==>
      && SoundBody(blocks[0].statements, k, observed || |blocks| > 1)
      && SoundBlocks(blocks[1..], k + SkewAll(blocks[0].statements), observed)
  }

  // ---- one level of `Sound`

  lemma SoundSend(e: Expr, k: nat, observed: bool)
    requires Sound(e, k, observed)
    ensures e.Send? ==> Sound(e.receiver, k, true) && SoundArgs(e.args, k + Skew(e.receiver))
    ensures e.Cascade? ==> Sound(e.receiver, k, true) && SoundMessages(e.messages, k + Skew(e.receiver))
  {}

  lemma SoundIf(e: Expr, k: nat, observed: bool)
    requires Sound(e, k, observed)
    ensures e.If? ==> Sound(e.receiver, k, true) && SoundBody(e.body, k + Skew(e.receiver), observed)
    ensures e.IfElse? ==>
      && Sound(e.receiver, k, true) && SoundBody(e.first, k + Skew(e.receiver), observed)
      && SoundBody(e.second, k + Skew(e.receiver) + SkewAll(e.first), observed)
  {}

  lemma SoundLoop(e: Expr, k: nat, observed: bool)
    requires Sound(e, k, observed)
    ensures e.WhileUnary? ==> !observed && SoundBody(e.condition, k, true)
    ensures e.While? ==>
      !observed && SoundBody(e.condition, k, true) && SoundBody(e.body, k + SkewAll(e.condition), false)
    ensures e.Repeat? ==> SoundBody(e.body, k, false)
  {}

  lemma SoundCounted(e: Expr, k: nat, observed: bool)
    requires Sound(e, k, observed) && (e.ToDo? || e.TimesRepeat?)
    ensures !observed && Sound(e.receiver, k, true) && SoundBody(e.body, 0, false)
    ensures e.ToDo? ==> Sound(e.limit, k + Skew(e.receiver), true) && k + Skew(e.receiver) + Skew(e.limit) == 0
    ensures e.TimesRepeat? ==> k + Skew(e.receiver) == 0
  {}

  lemma SoundNilTest(e: Expr, k: nat, observed: bool)
    requires Sound(e, k, observed)
    ensures e.IfNil? ==> Sound(e.receiver, k, true) && SoundArm(e.arm, k + Skew(e.receiver), observed)
    ensures e.IfNilElse? ==>
      && Sound(e.receiver, k, true) && SoundArm(e.firstArm, k + Skew(e.receiver), observed)
      && SoundArm(e.secondArm, k + Skew(e.receiver) + SkewArm(e.firstArm), observed)
  {}

  lemma SoundLogic(e: Expr, k: nat, observed: bool)
    requires Sound(e, k, observed)
    ensures e.And? || e.Or? ==> Sound(e.receiver, k, true) && SoundBlocks(e.blocks, k + Skew(e.receiver), observed)
    ensures e.AndNot? || e.OrNot? ==> Sound(e.receiver, k, true) && SoundBody(e.body, k + Skew(e.receiver), true)
  {}

  lemma SoundMessagesCons(messages: seq<Message>, k: nat)
    requires SoundMessages(messages, k) && messages != []
    ensures SoundArgs(messages[0].args, k) && SoundMessages(messages[1..], k + SkewAll(messages[0].args))
  {}

  lemma SoundBodyCons(body: seq<Expr>, k: nat, observed: bool)
    requires SoundBody(body, k, observed)
    ensures body == [] ==> !observed
    ensures |body| == 1 ==> Sound(body[0], k, observed)
    ensures |body| > 1 ==> Sound(body[0], k, false) && SoundBody(body[1..], k + Skew(body[0]), observed)
  {}

  lemma SoundBlocksCons(blocks: seq<Block>, k: nat, observed: bool)
    requires SoundBlocks(blocks, k, observed) && blocks != []
    ensures SoundBody(blocks[0].statements, k, observed || |blocks| > 1)
    ensures SoundBlocks(blocks[1..], k + SkewAll(blocks[0].statements), observed)
  {}

  // ---- code in place, and runs through it

  predicate At(code: seq<Op>, pc: nat, ops: seq<Op>) {
    pc + |ops| <= |code| && forall i :: 0 <= i < |ops| ==> code[pc + i] == ops[i]
  }

  lemma AtSplit(code: seq<Op>, pc: nat, a: seq<Op>, b: seq<Op>)
    requires At(code, pc, a + b)
    ensures At(code, pc, a) && At(code, pc + |a|, b)
  {
    assert forall i :: 0 <= i < |a| ==> a[i] == (a + b)[i];
    assert forall i :: 0 <= i < |b| ==> b[i] == (a + b)[|a| + i];
  }

  lemma WholeCode(code: seq<Op>)
    ensures At(code, 0, code)
  {}

  lemma AtSplit3(code: seq<Op>, pc: nat, a: seq<Op>, b: seq<Op>, c: seq<Op>)
    requires At(code, pc, a + b + c)
    ensures At(code, pc, a) && At(code, pc + |a|, b) && At(code, pc + |a| + |b|, c)
  {
    hide At;
    AtSplit(code, pc, a + b, c);
    AtSplit(code, pc, a, b);
  }

  lemma AtSplit4(code: seq<Op>, pc: nat, a: seq<Op>, b: seq<Op>, c: seq<Op>, d: seq<Op>)
    requires At(code, pc, a + b + c + d)
    ensures At(code, pc, a) && At(code, pc + |a|, b) && At(code, pc + |a| + |b|, c) && At(code, pc + |a| + |b| + |c|, d)
  {
    hide At;
    AtSplit(code, pc, a + b + c, d);
    AtSplit3(code, pc, a, b, c);
  }

  function StateOf(m: Machine): State
    requires m.Running?
  {
    State(m.temps, m.world)
  }

  function Cells(m: Machine): nat
    requires m.Running?
  {
    |m.temps| + |m.operands|
  }

  function Go(x: Script, m: Machine, n: nat): Machine {
    Run(x.sem, x.code, m, n)
  }

  /** One more operation. */
  lemma Next(x: Script, m: Machine, n: nat, pc: nat, op: Op)
    requires At(x.code, pc, [op])
    requires Go(x, m, n).Running? && Go(x, m, n).pc == pc
    ensures Go(x, m, n + 1) == Execute(x.sem, op, Go(x, m, n))
  {
    hide Execute;
    assert [op][0] == op;
    assert x.code[pc + 0] == op;
  }

  lemma GoOn(x: Script, m: Machine, a: nat, c: Machine, b: nat)
    requires Go(x, m, a) == c
    ensures Go(x, m, a + b) == Go(x, c, b)
  {
    hide Run;
    RunAdd(x.sem, x.code, m, a, b);
  }

  // ---- what a run owes to an outcome

  ghost predicate Arrived(c: Machine, s: State, end: nat, operands: seq<Oop>) {
    c.Running? && c.pc == end && c.temps == s.temps && c.world == s.world && c.operands == operands
  }

  /** After n steps from m: a value is in R if it is observed; a return has ended the script; and
      an evaluation that ran out of fuel is still going after that many steps. */
  ghost predicate Meets(x: Script, m: Machine, n: nat, o: Outcome, end: nat, operands: seq<Oop>, observed: bool,
                        fuel: nat) {
    var c := Go(x, m, n);
    match o
    case Value(v, s) => Arrived(c, s, end, operands) && (observed ==> c.r == v)
    case Returned(v, w, local) => c == Finished(v, w, local && !x.inBlock)
    case OutOfFuel => n >= fuel && c.Running?
    case Undefined => true
  }

  ghost predicate MeetsArgs(x: Script, m: Machine, n: nat, a: Arguments, end: nat, operands: seq<Oop>, fuel: nat) {
    match a
    case Values(vs, s) => Arrived(Go(x, m, n), s, end, operands + vs)
    case Stopped(o) => Meets(x, m, n, o, end, operands, true, fuel)
  }

  lemma MeetsAfter(x: Script, m: Machine, a: nat, n: nat, o: Outcome, end: nat, operands: seq<Oop>, observed: bool,
                   inner: nat, outer: nat)
    requires Meets(x, Go(x, m, a), n, o, end, operands, observed, inner) && outer <= inner + a
    ensures Meets(x, m, a + n, o, end, operands, observed, outer)
    ensures Go(x, m, a + n) == Go(x, Go(x, m, a), n)
  {
    hide Run;
    GoOn(x, m, a, Go(x, m, a), n);
  }

  lemma StoppedAfter(x: Script, m: Machine, a: nat, n: nat, o: Outcome, end: nat, operands: seq<Oop>, end': nat,
                     operands': seq<Oop>, observed: bool, fuel: nat)
    requires !o.Value? && Meets(x, Go(x, m, a), n, o, end, operands, true, fuel)
    ensures Meets(x, m, a + n, o, end', operands', observed, fuel)
  {
    hide Run;
    GoOn(x, m, a, Go(x, m, a), n);
  }

  /** The drop of one operand after an evaluation, if that gets so far. */
  lemma ThenDrop(x: Script, m: Machine, n: nat, o: Outcome, pc: nat, operands: seq<Oop>, dropped: Oop, observed: bool,
                 fuel: nat)
    returns (j: nat)
    requires Meets(x, m, n, o, pc, operands + [dropped], observed, fuel) && At(x.code, pc, [DropToS(1)])
    ensures Meets(x, m, j, o, pc + 1, operands, observed, fuel)
  {
    hide At, Run, Go;
    j := n;
    if o.Value? {
      Next(x, m, n, pc, DropToS(1));
      assert (operands + [dropped])[..|operands|] == operands;
      j := n + 1;
    }
  }

  /** A jump after an evaluation, if that gets so far. */
  lemma ThenJump(x: Script, m: Machine, n: nat, o: Outcome, pc: nat, end: nat, operands: seq<Oop>, observed: bool,
                 fuel: nat)
    returns (j: nat)
    requires Meets(x, m, n, o, pc, operands, observed, fuel) && At(x.code, pc, [Jump(end)])
    ensures Meets(x, m, j, o, end, operands, observed, fuel)
  {
    hide At, Run, Go;
    j := n;
    if o.Value? {
      Next(x, m, n, pc, Jump(end));
      j := n + 1;
    }
  }

  lemma GoNowhere(x: Script, m: Machine)
    ensures Go(x, m, 0) == m
  {}

  /** The machine c, n steps on from m, executes the i-th of the operations at m's pc. */
  lemma Fetch(x: Script, m: Machine, n: nat, c: Machine, ops: seq<Op>, i: nat)
    requires m.Running? && At(x.code, m.pc, ops) && i < |ops|
    requires Go(x, m, n) == c && c.Running? && c.pc == m.pc + i
    ensures Go(x, m, n + 1) == Execute(x.sem, ops[i], c)
  {
    hide Execute;
    assert x.code[m.pc + i] == ops[i];
  }

  /** The dispatch of a binary message with its receiver and argument on the stack. */
  lemma RunDispatch(x: Script, m: Machine, operands: seq<Oop>, selector: Selector, receiver: Oop, v: Oop)
    requires m.Running? && m.operands == operands + [receiver] + [v]
    requires At(x.code, m.pc, [LoadRfromStack(1), Dispatch(selector, false, 1), DropToS(2)])
    ensures match x.sem.send(selector, false, receiver, [v], m.world)
      case None => true
      case Some(p) => Go(x, m, 3) == m.(pc := m.pc + 3, r := p.0, operands := operands, world := p.1)
  {
    hide At, Run, Go;
    var ops := [LoadRfromStack(1), Dispatch(selector, false, 1), DropToS(2)];
    GoNowhere(x, m);
    Fetch(x, m, 0, m, ops, 0);
    var m1 := m.(pc := m.pc + 1, r := receiver);
    Fetch(x, m, 1, m1, ops, 1);
    assert m1.operands[|m1.operands| - 1..] == [v];
    match x.sem.send(selector, false, receiver, [v], m.world)
    case None =>
    case Some(p) =>
      var m2 := m1.(pc := m.pc + 2, r := p.0, world := p.1);
      Fetch(x, m, 2, m2, ops, 2);
      assert m2.operands[..|m2.operands| - 2] == operands;
  }

  /** A binary message whose receiver and argument are single operations. */
  lemma RunBinary(x: Script, m: Machine, load: Op, receiver: Oop, selector: Selector, arg: Op, v: Oop)
    requires m.Running?
    requires At(x.code, m.pc, [load, PushR, arg, PushR, LoadRfromStack(1), Dispatch(selector, false, 1), DropToS(2)])
    requires Execute(x.sem, load, m) == m.(pc := m.pc + 1, r := receiver)
    requires Execute(x.sem, arg, m.(pc := m.pc + 2, r := receiver, operands := m.operands + [receiver]))
      == m.(pc := m.pc + 3, r := v, operands := m.operands + [receiver])
    ensures match x.sem.send(selector, false, receiver, [v], m.world)
      case None => true
      case Some(p) => Go(x, m, 7) == m.(pc := m.pc + 7, r := p.0, world := p.1)
  {
    hide At, Run, Go;
    var ops := [load, PushR, arg, PushR, LoadRfromStack(1), Dispatch(selector, false, 1), DropToS(2)];
    GoNowhere(x, m);
    assert ops == ops[..4] + ops[4..];
    Fetch(x, m, 0, m, ops, 0);
    var m1 := m.(pc := m.pc + 1, r := receiver);
    Fetch(x, m, 1, m1, ops, 1);
    var m2 := m1.(pc := m.pc + 2, operands := m.operands + [receiver]);
    Fetch(x, m, 2, m2, ops, 2);
    var m3 := m2.(pc := m.pc + 3, r := v);
    Fetch(x, m, 3, m3, ops, 3);
    var m4 := m3.(pc := m.pc + 4, operands := m.operands + [receiver] + [v]);
    Fetch(x, m, 4, m4, ops, 4);
    AtSplit(x.code, m.pc, ops[..4], ops[4..]);
    RunDispatch(x, m4, m.operands, selector, receiver, v);
    if x.sem.send(selector, false, receiver, [v], m.world).Some? {
      GoOn(x, m, 4, m4, 3);
    }
  }

  /** The comparison of the value on top of the stack with nil. */
  lemma RunNilTest(x: Script, m: Machine, v: Oop)
    requires m.Running? && At(x.code, m.pc, NilTest()) && x.sem.IdentityIsNative()
    requires m.operands != [] && m.operands[|m.operands| - 1] == v
    ensures Go(x, m, 7) == m.(pc := m.pc + 7, r := Boolean(v == Nil))
  {
    hide At, Run;
    RunBinary(x, m, LoadRfromStack(0), v, EqualsEquals, LoadLiteral(Nil), Nil);
  }
}
