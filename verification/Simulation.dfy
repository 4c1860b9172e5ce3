/** The operations of a tree do what the tree means: running them reaches the same value, the
    same temporaries and the same world, with the operand stack as it was. */
module Simulation {
  import opened Trees
  import opened Machine
  import opened Layout
  import opened Runs

  /** Running the code of a tree does what the tree means. */
  lemma {:induction false} SimExpr(x: Script, e: Expr, m: Machine, k: nat, observed: bool, fuel: nat) returns (n: nat)
    requires m.Running? && x.sem.IdentityIsNative() && Sound(e, k, observed)
    requires At(x.code, m.pc, Lin(e, m.pc, Cells(m) - k, x.inBlock))
    ensures Meets(x, m, n, Eval(x.sem, e, StateOf(m), fuel), m.pc + |Lin(e, m.pc, Cells(m) - k, x.inBlock)|, m.operands,
      observed, fuel)
    decreases fuel, e, 2
  {
    hide At, Run, Go, Lin, Eval, Meets, Sound;
    match e
    case Literal(_) => n := SimLeaf(x, e, m, k, observed, fuel);
    case Identifier(_) => n := SimLeaf(x, e, m, k, observed, fuel);
    case Closure(_, _, _) => n := SimLeaf(x, e, m, k, observed, fuel);
    case Assignment(_, _) => n := SimAssignment(x, e, m, k, observed, fuel);
    case Send(_, _, _, _) => n := SimSend(x, e, m, k, observed, fuel);
    case Cascade(_, _, _) => n := SimCascade(x, e, m, k, observed, fuel);
    case Return(_, _) => n := SimReturn(x, e, m, k, observed, fuel);
    case If(_, _, _) => n := SimIf(x, e, m, k, observed, fuel);
    case IfElse(_, _, _, _) => n := SimIfElse(x, e, m, k, observed, fuel);
    case IfNil(_, _, _) => n := SimIfNil(x, e, m, k, observed, fuel);
    case IfNilElse(_, _, _, _) => n := SimIfNilElse(x, e, m, k, observed, fuel);
    case WhileUnary(_, _) => n := SimWhile(x, e, m, k, observed, fuel);
    case While(_, _, _) => n := SimWhile(x, e, m, k, observed, fuel);
    case Repeat(_) => n := SimWhile(x, e, m, k, observed, fuel);
    case ToDo(_, _, _, _) => n := SimToDo(x, e, m, k, observed, fuel);
    case TimesRepeat(_, _) => n := SimTimesRepeat(x, e, m, k, observed, fuel);
    case And(_, _) => n := SimLogic(x, e, m, k, observed, fuel);
    case Or(_, _) => n := SimLogic(x, e, m, k, observed, fuel);
    case AndNot(_, _) => n := SimNegated(x, e, m, k, observed, fuel);
    case OrNot(_, _) => n := SimNegated(x, e, m, k, observed, fuel);
  }

  lemma SimLeaf(x: Script, e: Expr, m: Machine, k: nat, observed: bool, fuel: nat) returns (n: nat)
    requires e.Literal? || e.Identifier? || e.Closure?
    requires m.Running? && At(x.code, m.pc, Lin(e, m.pc, Cells(m) - k, x.inBlock))
    ensures Meets(x, m, n, Eval(x.sem, e, StateOf(m), fuel), m.pc + |Lin(e, m.pc, Cells(m) - k, x.inBlock)|, m.operands,
      observed, fuel)
  {
    hide At, Run, Go, Lin, Eval;
    LinLeaf(e, m.pc, Cells(m) - k, x.inBlock);
    EvalLeaf(x.sem, e, StateOf(m), fuel);
    GoNowhere(x, m);
    Next(x, m, 0, m.pc, Lin(e, m.pc, Cells(m) - k, x.inBlock)[0]);
    n := 1;
  }

  /** An assignment to several variables does what one store after the other does. */
  lemma {:induction false} StoresAgree(sem: Semantics, xs: seq<Variable>, m: Machine)
    requires m.Running?
    ensures var o := StoreAll(sem, xs, m.r, StateOf(m));
      o.Value? ==> AssignAll(sem, xs, m) == m.(temps := o.state.temps, world := o.state.world)
  {
    if xs != [] {
      match xs[0]
      case Stack(index) =>
        if HasCell(StateOf(m), index) {
          StoresAgree(sem, xs[1..], SetFrameCell(m, index, m.r));
        }
      case Elsewhere(id) => StoresAgree(sem, xs[1..], m.(world := sem.store(id, m.r, m.world)));
    }
  }

  lemma {:induction false} SimAssignment(x: Script, e: Expr, m: Machine, k: nat, observed: bool, fuel: nat)
    returns (n: nat)
    requires e.Assignment? && m.Running? && x.sem.IdentityIsNative() && Sound(e, k, observed)
    requires At(x.code, m.pc, Lin(e, m.pc, Cells(m) - k, x.inBlock))
    ensures Meets(x, m, n, Eval(x.sem, e, StateOf(m), fuel), m.pc + |Lin(e, m.pc, Cells(m) - k, x.inBlock)|, m.operands,
      observed, fuel)
    decreases fuel, e, 1
  {
    hide At, Run, Go, Lin, Eval, AssignAll, StoreAll;
    LinLeaf(e, m.pc, Cells(m) - k, x.inBlock);
    EvalLeaf(x.sem, e, StateOf(m), fuel);
    var c := Lin(e.expression, m.pc, Cells(m) - k, x.inBlock);
    AtSplit(x.code, m.pc, c, [Assign(e.assignees)]);
    n := SimExpr(x, e.expression, m, k, true, fuel);
    if Eval(x.sem, e.expression, StateOf(m), fuel).Value? {
      Next(x, m, n, m.pc + |c|, Assign(e.assignees));
      var m1 := Go(x, m, n);
      StoresAgree(x.sem, e.assignees, m1.(pc := m1.pc + 1));
      n := n + 1;
    }
  }

  lemma {:induction false} SimReturn(x: Script, e: Expr, m: Machine, k: nat, observed: bool, fuel: nat) returns (n: nat)
    requires e.Return? && m.Running? && x.sem.IdentityIsNative() && Sound(e, k, observed)
    requires At(x.code, m.pc, Lin(e, m.pc, Cells(m) - k, x.inBlock))
    ensures Meets(x, m, n, Eval(x.sem, e, StateOf(m), fuel), m.pc + |Lin(e, m.pc, Cells(m) - k, x.inBlock)|, m.operands,
      observed, fuel)
    decreases fuel, e, 1
  {
    hide At, Run, Go, Lin, Eval;
    LinLeaf(e, m.pc, Cells(m) - k, x.inBlock);
    EvalLeaf(x.sem, e, StateOf(m), fuel);
    var c := Lin(e.expression, m.pc, Cells(m) - k, x.inBlock);
    var op := if e.local && !x.inBlock then ReturnOp else NonLocalReturn;
    AtSplit(x.code, m.pc, c, [op]);
    n := SimExpr(x, e.expression, m, k, true, fuel);
    if Eval(x.sem, e.expression, StateOf(m), fuel).Value? {
      Next(x, m, n, m.pc + |c|, op);
      n := n + 1;
    }
  }

  // ---- sends

  lemma {:induction false} SimArgs(x: Script, args: seq<Expr>, m: Machine, k: nat, fuel: nat) returns (n: nat)
    requires m.Running? && x.sem.IdentityIsNative() && SoundArgs(args, k)
    requires At(x.code, m.pc, LinArgs(args, m.pc, Cells(m) - k, x.inBlock))
    ensures MeetsArgs(x, m, n, EvalArgs(x.sem, args, StateOf(m), fuel),
      m.pc + |LinArgs(args, m.pc, Cells(m) - k, x.inBlock)|, m.operands, fuel)
    decreases fuel, args, 0
  {
    hide At, Run, Go, Lin, LinArgs, Eval;
    n := 0;
    if args == [] {
      NoArgs(m.pc, Cells(m) - k, x.inBlock);
      GoNowhere(x, m);
      assert m.operands + [] == m.operands;
    } else {
      LinArgsCons(args, m.pc, Cells(m) - k, x.inBlock);
      var c := Lin(args[0], m.pc, Cells(m) - k, x.inBlock);
      var rest := LinArgs(args[1..], m.pc + |c| + 1, Cells(m) - k - Skew(args[0]) + 1, x.inBlock);
      AtSplit3(x.code, m.pc, c, [PushR], rest);
      n := SimExpr(x, args[0], m, k, true, fuel);
      var o := Eval(x.sem, args[0], StateOf(m), fuel);
      if o.Value? {
        Next(x, m, n, m.pc + |c|, PushR);
        var m1 := Go(x, m, n + 1);
        var j := SimArgs(x, args[1..], m1, k + Skew(args[0]), fuel);
        ArgsAfter(x, m, n + 1, j, o.value, EvalArgs(x.sem, args[1..], o.state, fuel), m1.pc + |rest|, m.operands, fuel);
        n := n + 1 + j;
      }
    }
  }

  lemma ArgsAfter(x: Script, m: Machine, a: nat, n: nat, v: Oop, rest: Arguments, end: nat, operands: seq<Oop>,
                  fuel: nat)
    requires MeetsArgs(x, Go(x, m, a), n, rest, end, operands + [v], fuel)
    requires rest.Stopped? ==> !rest.outcome.Value?
    ensures MeetsArgs(x, m, a + n, if rest.Values? then Values([v] + rest.values, rest.state) else rest, end, operands,
      fuel)
  {
    hide Run, Go;
    GoOn(x, m, a, Go(x, m, a), n);
    match rest
    case Values(vs, _) => assert operands + [v] + vs == operands + ([v] + vs);
    case Stopped(o) => StoppedAfter(x, m, a, n, o, end, operands + [v], end, operands, true, fuel);
  }

  /** The dispatch of a message whose arguments are on the stack, above its receiver. */
  lemma RunCascaded(x: Script, m: Machine, n: nat, receiver: Oop, vs: seq<Oop>, operands: seq<Oop>, selector: Selector,
                    toSuper: bool, tail: seq<Op>, drop: nat)
    requires Go(x, m, n).Running? && Go(x, m, n).operands == operands + [receiver] + vs
    requires drop == |vs| || drop == |vs| + 1
    requires At(x.code, Go(x, m, n).pc, [LoadRfromStack(|vs|), Dispatch(selector, toSuper, |vs|)] + tail)
    requires tail == if drop == 0 then [] else [DropToS(drop)]
    ensures match x.sem.send(selector, toSuper, receiver, vs, Go(x, m, n).world)
      case None => true
      case Some(p) =>
        Go(x, m, n + 2 + |tail|)
        == Go(x, m, n).(pc := Go(x, m, n).pc + 2 + |tail|, r := p.0, world := p.1,
          operands := (operands + [receiver] + vs)[..|operands| + 1 + |vs| - drop])
  {
    hide At, Run, Go;
    var c := Go(x, m, n);
    var ops := [LoadRfromStack(|vs|), Dispatch(selector, toSuper, |vs|)] + tail;
    GoNowhere(x, c);
    Fetch(x, c, 0, c, ops, 0);
    var c1 := c.(pc := c.pc + 1, r := receiver);
    Fetch(x, c, 1, c1, ops, 1);
    assert c1.operands[|c1.operands| - |vs|..] == vs;
    match x.sem.send(selector, toSuper, receiver, vs, c.world)
    case None =>
    case Some(p) =>
      var c2 := c1.(pc := c.pc + 2, r := p.0, world := p.1);
      if drop != 0 {
        Fetch(x, c, 2, c2, ops, 2);
      } else {
        assert c.operands[..|c.operands|] == c.operands;
      }
      GoOn(x, m, n, c, 2 + |tail|);
  }

  lemma {:induction false} SimSend(x: Script, e: Expr, m: Machine, k: nat, observed: bool, fuel: nat) returns (n: nat)
    requires e.Send? && m.Running? && x.sem.IdentityIsNative() && Sound(e, k, observed)
    requires At(x.code, m.pc, Lin(e, m.pc, Cells(m) - k, x.inBlock))
    ensures Meets(x, m, n, Eval(x.sem, e, StateOf(m), fuel), m.pc + |Lin(e, m.pc, Cells(m) - k, x.inBlock)|, m.operands,
      observed, fuel)
    decreases fuel, e, 1
  {
    hide At, Run, Go, Lin, LinArgs, Eval, EvalArgs, Sound, Skew, SoundArgs;
    SoundSend(e, k, observed);
    LinSend(e, m.pc, Cells(m) - k, x.inBlock);
    EvalSend(x.sem, e, StateOf(m), fuel);
    var c := Lin(e.receiver, m.pc, Cells(m) - k, x.inBlock);
    var args := LinArgs(e.args, m.pc + |c| + 1, Cells(m) - k - Skew(e.receiver) + 1, x.inBlock);
    SplitSend(x.code, m.pc, c, args, e.selector, e.toSuper, |e.args|);
    n := SimExpr(x, e.receiver, m, k, true, fuel);
    var o := Eval(x.sem, e.receiver, StateOf(m), fuel);
    if o.Value? && e.args == [] {
      NoArguments(x.sem, o.state, fuel);
      Next(x, m, n, m.pc + |c|, Dispatch(e.selector, e.toSuper, 0));
      assert m.operands[|m.operands| - 0..] == [];
      n := n + 1;
    } else if o.Value? {
      Next(x, m, n, m.pc + |c|, PushR);
      var m1 := Go(x, m, n + 1);
      var j := SimArgs(x, e.args, m1, k + Skew(e.receiver), fuel);
      match EvalArgs(x.sem, e.args, o.state, fuel)
      case Stopped(o1) =>
        StoppedAfter(x, m, n + 1, j, o1, m1.pc + |args|, m1.operands, m.pc + |Lin(e, m.pc, Cells(m) - k, x.inBlock)|,
          m.operands, observed, fuel);
        n := n + 1 + j;
      case Values(vs, _) =>
        GoOn(x, m, n + 1, m1, j);
        RunCascaded(x, m, n + 1 + j, o.value, vs, m.operands, e.selector, e.toSuper, [DropToS(|vs| + 1)], |vs| + 1);
        assert (m.operands + [o.value] + vs)[..|m.operands|] == m.operands;
        n := n + 1 + j + 3;
    }
  }

  lemma NoArguments(sem: Semantics, s: State, fuel: nat)
    ensures EvalArgs(sem, [], s, fuel) == Values([], s)
  {}

  lemma SplitSend(code: seq<Op>, pc: nat, c: seq<Op>, args: seq<Op>, selector: Selector, toSuper: bool, count: nat)
    requires At(code, pc, SendCode(c, args, selector, toSuper, count))
    ensures At(code, pc, c)
    ensures count == 0 ==> At(code, pc + |c|, [Dispatch(selector, toSuper, 0)])
    ensures count != 0 ==>
      && At(code, pc + |c|, [PushR]) && At(code, pc + |c| + 1, args)
      && At(code, pc + |c| + 1 + |args|,
            [LoadRfromStack(count), Dispatch(selector, toSuper, count)] + [DropToS(count + 1)])
  {
    hide At;
    var tail := [LoadRfromStack(count), Dispatch(selector, toSuper, count), DropToS(count + 1)];
    if count == 0 {
      AtSplit(code, pc, c, [Dispatch(selector, toSuper, 0)]);
    } else {
      AtSplit4(code, pc, c, [PushR], args, tail);
      assert tail == [LoadRfromStack(count), Dispatch(selector, toSuper, count)] + [DropToS(count + 1)];
    }
  }

  lemma {:induction false} SimCascade(x: Script, e: Expr, m: Machine, k: nat, observed: bool, fuel: nat)
    returns (n: nat)
    requires e.Cascade? && m.Running? && x.sem.IdentityIsNative() && Sound(e, k, observed)
    requires At(x.code, m.pc, Lin(e, m.pc, Cells(m) - k, x.inBlock))
    ensures Meets(x, m, n, Eval(x.sem, e, StateOf(m), fuel), m.pc + |Lin(e, m.pc, Cells(m) - k, x.inBlock)|, m.operands,
      observed, fuel)
    decreases fuel, e, 1
  {
    hide At, Run, Go, Lin, LinMessages, Eval, EvalMessages, Sound, Skew, SoundMessages;
    SoundSend(e, k, observed);
    LinCascade(e, m.pc, Cells(m) - k, x.inBlock);
    EvalSend(x.sem, e, StateOf(m), fuel);
    var c := Lin(e.receiver, m.pc, Cells(m) - k, x.inBlock);
    var messages := LinMessages(e.messages, e.toSuper, m.pc + |c| + 1, Cells(m) - k - Skew(e.receiver) + 1, x.inBlock);
    AtSplit4(x.code, m.pc, c, [PushR], messages, [DropToS(1)]);
    n := SimExpr(x, e.receiver, m, k, true, fuel);
    var o := Eval(x.sem, e.receiver, StateOf(m), fuel);
    if o.Value? {
      Next(x, m, n, m.pc + |c|, PushR);
      var m1 := Go(x, m, n + 1);
      var j := SimMessages(x, e.messages, e.toSuper, m1, k + Skew(e.receiver), m.operands, o.value, fuel);
      var o1 := EvalMessages(x.sem, e.messages, e.toSuper, o.value, o.value, o.state, fuel);
      if o1.Value? {
        MeetsAfter(x, m, n + 1, j, o1, m1.pc + |messages|, m1.operands, true, fuel, fuel);
        Next(x, m, n + 1 + j, m1.pc + |messages|, DropToS(1));
        assert (m.operands + [o.value])[..|m.operands|] == m.operands;
        n := n + 1 + j + 1;
      } else {
        StoppedAfter(x, m, n + 1, j, o1, m1.pc + |messages|, m1.operands,
          m.pc + |Lin(e, m.pc, Cells(m) - k, x.inBlock)|, m.operands, observed, fuel);
        n := n + 1 + j;
      }
    }
  }

  /** What one message of a cascade comes to. */
  function EvalMessage(sem: Semantics, h: Message, toSuper: bool, receiver: Oop, s: State, fuel: nat): Outcome {
    match EvalArgs(sem, h.args, s, fuel)
    case Values(vs, s1) => Perform(sem, h.selector, toSuper, receiver, vs, s1)
    case Stopped(o) => o
  }

  lemma {:induction false} SimMessage(x: Script, h: Message, toSuper: bool, m: Machine, k: nat, operands: seq<Oop>,
                                      receiver: Oop, fuel: nat)
    returns (n: nat)
    requires m.Running? && x.sem.IdentityIsNative() && SoundArgs(h.args, k) && m.operands == operands + [receiver]
    requires At(x.code, m.pc,
               CascadedCode(LinArgs(h.args, m.pc, Cells(m) - k, x.inBlock), h.selector, toSuper, |h.args|))
    ensures Meets(x, m, n, EvalMessage(x.sem, h, toSuper, receiver, StateOf(m), fuel),
      m.pc + |CascadedCode(LinArgs(h.args, m.pc, Cells(m) - k, x.inBlock), h.selector, toSuper, |h.args|)|,
      m.operands, true, fuel)
    decreases fuel, h, 1
  {
    hide At, Run, Go, LinArgs, EvalArgs, SoundArgs;
    var args := LinArgs(h.args, m.pc, Cells(m) - k, x.inBlock);
    var tail := if h.args == [] then [] else [DropToS(|h.args|)];
    Assoc(args, [LoadRfromStack(|h.args|), Dispatch(h.selector, toSuper, |h.args|)], tail);
    AtSplit(x.code, m.pc, args, [LoadRfromStack(|h.args|), Dispatch(h.selector, toSuper, |h.args|)] + tail);
    n := SimArgs(x, h.args, m, k, fuel);
    match EvalArgs(x.sem, h.args, StateOf(m), fuel)
    case Stopped(o) =>
    case Values(vs, s) =>
      RunCascaded(x, m, n, receiver, vs, operands, h.selector, toSuper, tail, |vs|);
      assert (m.operands + vs)[..|m.operands|] == m.operands;
      n := n + 2 + |tail|;
  }

  /** The messages of a cascade leave their receiver on top of the stack. */
  lemma {:induction false} SimMessages(x: Script, messages: seq<Message>, toSuper: bool, m: Machine, k: nat,
                                       operands: seq<Oop>, receiver: Oop, fuel: nat)
    returns (n: nat)
    requires m.Running? && x.sem.IdentityIsNative() && SoundMessages(messages, k) && m.operands == operands + [receiver]
    requires At(x.code, m.pc, LinMessages(messages, toSuper, m.pc, Cells(m) - k, x.inBlock))
    ensures Meets(x, m, n, EvalMessages(x.sem, messages, toSuper, receiver, m.r, StateOf(m), fuel),
      m.pc + |LinMessages(messages, toSuper, m.pc, Cells(m) - k, x.inBlock)|, m.operands, true, fuel)
    decreases fuel, messages, 0
  {
    hide At, Run, Go, LinArgs, LinMessages, CascadedCode, EvalArgs, EvalMessages, SoundMessages, SoundArgs;
    hide Skew, SkewAll;
    EvalMessagesCons(x.sem, messages, toSuper, receiver, m.r, StateOf(m), fuel);
    n := 0;
    if messages == [] {
      NoMessages(toSuper, m.pc, Cells(m) - k, x.inBlock);
      GoNowhere(x, m);
    } else {
      LinMessagesCons(messages, toSuper, m.pc, Cells(m) - k, x.inBlock);
      SoundMessagesCons(messages, k);
      var h := messages[0];
      var c := CascadedCode(LinArgs(h.args, m.pc, Cells(m) - k, x.inBlock), h.selector, toSuper, |h.args|);
      var rest := LinMessages(messages[1..], toSuper, m.pc + |c|, Cells(m) - k - SkewAll(h.args), x.inBlock);
      AtSplit(x.code, m.pc, c, rest);
      n := SimMessage(x, h, toSuper, m, k, operands, receiver, fuel);
      var o := EvalMessage(x.sem, h, toSuper, receiver, StateOf(m), fuel);
      if o.Value? {
        var m1 := Go(x, m, n);
        var j := SimMessages(x, messages[1..], toSuper, m1, k + SkewAll(h.args), operands, receiver, fuel);
        MeetsAfter(x, m, n, j, EvalMessages(x.sem, messages[1..], toSuper, receiver, o.value, o.state, fuel),
          m1.pc + |rest|, m.operands, true, fuel, fuel);
        n := n + j;
      }
    }
  }

  lemma Assoc(a: seq<Op>, b: seq<Op>, c: seq<Op>)
    ensures a + b + c == a + (b + c)
  {}

  // ---- statements and conditionals

  lemma {:induction false} SimBody(x: Script, body: seq<Expr>, m: Machine, k: nat, observed: bool, fuel: nat)
    returns (n: nat)
    requires m.Running? && x.sem.IdentityIsNative() && SoundBody(body, k, observed)
    requires At(x.code, m.pc, LinBody(body, m.pc, Cells(m) - k, x.inBlock))
    ensures Meets(x, m, n, EvalBody(x.sem, body, StateOf(m), fuel),
      m.pc + |LinBody(body, m.pc, Cells(m) - k, x.inBlock)|, m.operands, observed, fuel)
    decreases fuel, body, 0
  {
    hide At, Run, Go, Lin, LinBody, Eval, Sound, Skew, SkewAll, SoundBody;
    SoundBodyCons(body, k, observed);
    n := 0;
    if body == [] {
      NoStatements(m.pc, Cells(m) - k, x.inBlock);
      GoNowhere(x, m);
    } else {
      LinBodyCons(body, m.pc, Cells(m) - k, x.inBlock);
      var c := Lin(body[0], m.pc, Cells(m) - k, x.inBlock);
      var rest := LinBody(body[1..], m.pc + |c|, Cells(m) - k - Skew(body[0]), x.inBlock);
      AtSplit(x.code, m.pc, c, rest);
      n := SimExpr(x, body[0], m, k, |body| == 1 && observed, fuel);
      var o := Eval(x.sem, body[0], StateOf(m), fuel);
      if |body| == 1 {
        assert body[1..] == [];
        NoStatements(m.pc + |c|, Cells(m) - k - Skew(body[0]), x.inBlock);
      } else if o.Value? {
        var m1 := Go(x, m, n);
        var j := SimBody(x, body[1..], m1, k + Skew(body[0]), observed, fuel);
        MeetsAfter(x, m, n, j, EvalBody(x.sem, body[1..], o.state, fuel), m1.pc + |rest|, m.operands, observed, fuel,
          fuel);
        n := n + j;
      }
    }
  }

  lemma {:induction false} SimArm(x: Script, arm: Arm, m: Machine, k: nat, observed: bool, fuel: nat) returns (n: nat)
    requires m.Running? && x.sem.IdentityIsNative() && SoundArm(arm, k, observed)
    requires At(x.code, m.pc, LinArm(arm, m.pc, Cells(m) - k, x.inBlock))
    ensures Meets(x, m, n, EvalArm(x.sem, arm, StateOf(m), fuel), m.pc + |LinArm(arm, m.pc, Cells(m) - k, x.inBlock)|,
      m.operands, observed, fuel)
    decreases fuel, arm, 3
  {
    hide At, Run, Go, Lin, LinBody, Eval, EvalBody, Meets;
    match arm
    case Inlined(_, statements) => n := SimBody(x, statements, m, k, observed, fuel);
    case Plain(e) => n := SimExpr(x, e, m, k, observed, fuel);
  }

  lemma {:induction false} SimIf(x: Script, e: Expr, m: Machine, k: nat, observed: bool, fuel: nat) returns (n: nat)
    requires e.If? && m.Running? && x.sem.IdentityIsNative() && Sound(e, k, observed)
    requires At(x.code, m.pc, Lin(e, m.pc, Cells(m) - k, x.inBlock))
    ensures Meets(x, m, n, Eval(x.sem, e, StateOf(m), fuel), m.pc + |Lin(e, m.pc, Cells(m) - k, x.inBlock)|, m.operands,
      observed, fuel)
    decreases fuel, e, 1
  {
    hide At, Run, Go, Lin, LinBody, Eval, EvalBody, Sound, Skew, SoundBody;
    SoundIf(e, k, observed);
    LinIf(e, m.pc, Cells(m) - k, x.inBlock);
    EvalIf(x.sem, e, StateOf(m), fuel);
    var c := Lin(e.receiver, m.pc, Cells(m) - k, x.inBlock);
    var b := LinBody(e.body, m.pc + |c| + 1, Cells(m) - k - Skew(e.receiver), x.inBlock);
    var otherwise := m.pc + |c| + |b| + 2;
    SplitIf(x.code, m.pc, c, e.sense, b);
    n := SimExpr(x, e.receiver, m, k, true, fuel);
    var o := Eval(x.sem, e.receiver, StateOf(m), fuel);
    if o.Value? && IsBoolean(o.value) {
      Next(x, m, n, m.pc + |c|, JumpIf(!e.sense, otherwise));
      if o.value == Boolean(e.sense) {
        var m1 := Go(x, m, n + 1);
        var j := SimBody(x, e.body, m1, k + Skew(e.receiver), observed, fuel);
        MeetsAfter(x, m, n + 1, j, EvalBody(x.sem, e.body, o.state, fuel), otherwise - 1, m.operands, observed, fuel,
          fuel);
        n := ThenJump(x, m, n + 1 + j, EvalBody(x.sem, e.body, o.state, fuel), otherwise - 1, otherwise + 1,
          m.operands, observed, fuel);
      } else {
        Next(x, m, n + 1, otherwise, LoadRwithNil);
        n := n + 2;
      }
    }
  }

  lemma SplitIf(code: seq<Op>, pc: nat, c: seq<Op>, sense: bool, b: seq<Op>)
    requires At(code, pc, IfCode(pc, c, sense, b))
    ensures var otherwise := pc + |c| + |b| + 2;
      && At(code, pc, c) && At(code, pc + |c|, [JumpIf(!sense, otherwise)]) && At(code, pc + |c| + 1, b)
      && At(code, otherwise - 1, [Jump(otherwise + 1)]) && At(code, otherwise, [LoadRwithNil])
  {
    hide At;
    var otherwise := pc + |c| + |b| + 2;
    AtSplit4(code, pc, c, [JumpIf(!sense, otherwise)], b, [Jump(otherwise + 1), LoadRwithNil]);
    assert [Jump(otherwise + 1), LoadRwithNil] == [Jump(otherwise + 1)] + [LoadRwithNil];
    AtSplit(code, otherwise - 1, [Jump(otherwise + 1)], [LoadRwithNil]);
  }

  lemma {:induction false} SimIfElse(x: Script, e: Expr, m: Machine, k: nat, observed: bool, fuel: nat) returns (n: nat)
    requires e.IfElse? && m.Running? && x.sem.IdentityIsNative() && Sound(e, k, observed)
    requires At(x.code, m.pc, Lin(e, m.pc, Cells(m) - k, x.inBlock))
    ensures Meets(x, m, n, Eval(x.sem, e, StateOf(m), fuel), m.pc + |Lin(e, m.pc, Cells(m) - k, x.inBlock)|, m.operands,
      observed, fuel)
    decreases fuel, e, 1
  {
    hide At, Run, Go, Lin, LinBody, Eval, EvalBody, Sound, Skew, SkewAll, SoundBody;
    SoundIf(e, k, observed);
    LinIfElse(e, m.pc, Cells(m) - k, x.inBlock);
    EvalIf(x.sem, e, StateOf(m), fuel);
    var c := Lin(e.receiver, m.pc, Cells(m) - k, x.inBlock);
    var b1 := LinBody(e.first, m.pc + |c| + 1, Cells(m) - k - Skew(e.receiver), x.inBlock);
    var b2 := LinBody(e.second, m.pc + |c| + |b1| + 2, Cells(m) - k - Skew(e.receiver) - SkewAll(e.first), x.inBlock);
    var otherwise := m.pc + |c| + |b1| + 2;
    AtSplitIfElse(x.code, m.pc, c, e.sense, b1, b2);
    n := SimExpr(x, e.receiver, m, k, true, fuel);
    var o := Eval(x.sem, e.receiver, StateOf(m), fuel);
    if o.Value? && IsBoolean(o.value) {
      Next(x, m, n, m.pc + |c|, JumpIf(!e.sense, otherwise));
      var m1 := Go(x, m, n + 1);
      if o.value == Boolean(e.sense) {
        var j := SimBody(x, e.first, m1, k + Skew(e.receiver), observed, fuel);
        MeetsAfter(x, m, n + 1, j, EvalBody(x.sem, e.first, o.state, fuel), otherwise - 1, m.operands, observed, fuel,
          fuel);
        n := ThenJump(x, m, n + 1 + j, EvalBody(x.sem, e.first, o.state, fuel), otherwise - 1, otherwise + |b2|,
          m.operands, observed, fuel);
      } else {
        var j := SimBody(x, e.second, m1, k + Skew(e.receiver) + SkewAll(e.first), observed, fuel);
        MeetsAfter(x, m, n + 1, j, EvalBody(x.sem, e.second, o.state, fuel), otherwise + |b2|, m.operands, observed,
          fuel, fuel);
        n := n + 1 + j;
      }
    }
  }

  lemma AtSplitIfElse(code: seq<Op>, pc: nat, c: seq<Op>, sense: bool, b1: seq<Op>, b2: seq<Op>)
    requires At(code, pc, IfElseCode(pc, c, sense, b1, b2))
    ensures var otherwise := pc + |c| + |b1| + 2;
      && At(code, pc, c) && At(code, pc + |c|, [JumpIf(!sense, otherwise)]) && At(code, pc + |c| + 1, b1)
      && At(code, otherwise - 1, [Jump(otherwise + |b2|)]) && At(code, otherwise, b2)
  {
    hide At;
    var otherwise := pc + |c| + |b1| + 2;
    AtSplit(code, pc, c + [JumpIf(!sense, otherwise)] + b1 + [Jump(otherwise + |b2|)], b2);
    AtSplit4(code, pc, c, [JumpIf(!sense, otherwise)], b1, [Jump(otherwise + |b2|)]);
  }

  /** The receiver of an ifNil: and its test: the receiver is on the stack, and in the cell of
      the arm's argument whether that arm runs or not. */
  lemma {:induction false} SimNilHead(x: Script, r: Expr, bound: Arm, m: Machine, k: nat, fuel: nat) returns (n: nat)
    requires m.Running? && x.sem.IdentityIsNative() && Sound(r, k, true)
    requires At(x.code, m.pc, NilCode(Lin(r, m.pc, Cells(m) - k, x.inBlock), bound))
    ensures var o := Eval(x.sem, r, StateOf(m), fuel);
      if !o.Value? then Meets(x, m, n, o, 0, [], true, fuel)
      else
        var b := Bind(bound, o.value, o.state);
        b.Value? ==>
          && Arrived(Go(x, m, n), b.state, m.pc + |NilCode(Lin(r, m.pc, Cells(m) - k, x.inBlock), bound)|,
            m.operands + [o.value])
          && Go(x, m, n).r == Boolean(o.value == Nil)
    decreases fuel, r, 3
  {
    hide At, Run, Go, Lin, Eval;
    var c := Lin(r, m.pc, Cells(m) - k, x.inBlock);
    AtSplit4(x.code, m.pc, c, BindArm(bound), [PushR], NilTest());
    n := SimExpr(x, r, m, k, true, fuel);
    var o := Eval(x.sem, r, StateOf(m), fuel);
    if o.Value? && Bind(bound, o.value, o.state).Value? {
      if ArmCell(bound).Some? {
        Next(x, m, n, m.pc + |c|, StoreRintoFrame(ArmCell(bound).value));
        n := n + 1;
      }
      Next(x, m, n, m.pc + |c| + |BindArm(bound)|, PushR);
      var m1 := Go(x, m, n + 1);
      RunNilTest(x, m1, o.value);
      GoOn(x, m, n + 1, m1, 7);
      n := n + 8;
    }
  }

  lemma {:induction false} SimIfNil(x: Script, e: Expr, m: Machine, k: nat, observed: bool, fuel: nat) returns (n: nat)
    requires e.IfNil? && m.Running? && x.sem.IdentityIsNative() && Sound(e, k, observed)
    requires At(x.code, m.pc, Lin(e, m.pc, Cells(m) - k, x.inBlock))
    ensures Meets(x, m, n, Eval(x.sem, e, StateOf(m), fuel), m.pc + |Lin(e, m.pc, Cells(m) - k, x.inBlock)|, m.operands,
      observed, fuel)
    decreases fuel, e, 1
  {
    hide At, Run, Go, Lin, LinArm, NilCode, Eval, EvalArm, Bind, Sound, Skew, SkewArm, SoundArm;
    SoundNilTest(e, k, observed);
    LinIfNil(e, m.pc, Cells(m) - k, x.inBlock);
    EvalIfNil(x.sem, e, StateOf(m), fuel);
    var c := NilCode(Lin(e.receiver, m.pc, Cells(m) - k, x.inBlock), e.arm);
    var b := LinArm(e.arm, m.pc + |c| + 1, Cells(m) - k - Skew(e.receiver) + 1, x.inBlock);
    var otherwise := m.pc + |c| + |b| + 3;
    SplitIfNil(x.code, m.pc, c, e.sense, b);
    n := SimNilHead(x, e.receiver, e.arm, m, k, fuel);
    var o := Eval(x.sem, e.receiver, StateOf(m), fuel);
    if o.Value? && Bind(e.arm, o.value, o.state).Value? {
      var s := Bind(e.arm, o.value, o.state).state;
      Next(x, m, n, m.pc + |c|, JumpIf(!e.sense, otherwise));
      var m1 := Go(x, m, n + 1);
      if (o.value == Nil) == e.sense {
        var j := SimArm(x, e.arm, m1, k + Skew(e.receiver), observed, fuel);
        MeetsAfter(x, m, n + 1, j, EvalArm(x.sem, e.arm, s, fuel), otherwise - 2, m1.operands, observed, fuel, fuel);
        n := ThenDrop(x, m, n + 1 + j, EvalArm(x.sem, e.arm, s, fuel), otherwise - 2, m.operands, o.value, observed,
          fuel);
        n := ThenJump(x, m, n, EvalArm(x.sem, e.arm, s, fuel), otherwise - 1, otherwise + 1, m.operands, observed,
          fuel);
      } else {
        Next(x, m, n + 1, otherwise, PopR);
        assert m1.operands[..|m1.operands| - 1] == m.operands;
        n := n + 2;
      }
    }
  }

  lemma SplitIfNil(code: seq<Op>, pc: nat, c: seq<Op>, sense: bool, b: seq<Op>)
    requires At(code, pc, IfNilCode(pc, c, sense, b))
    ensures var otherwise := pc + |c| + |b| + 3;
      && At(code, pc, c) && At(code, pc + |c|, [JumpIf(!sense, otherwise)]) && At(code, pc + |c| + 1, b)
      && At(code, otherwise - 2, [DropToS(1)]) && At(code, otherwise - 1, [Jump(otherwise + 1)])
      && At(code, otherwise, [PopR])
  {
    hide At;
    var otherwise := pc + |c| + |b| + 3;
    AtSplit4(code, pc, c, [JumpIf(!sense, otherwise)], b, [DropToS(1), Jump(otherwise + 1), PopR]);
    assert [DropToS(1), Jump(otherwise + 1), PopR] == [DropToS(1)] + [Jump(otherwise + 1)] + [PopR];
    AtSplit3(code, otherwise - 2, [DropToS(1)], [Jump(otherwise + 1)], [PopR]);
  }

  lemma {:induction false} SimIfNilElse(x: Script, e: Expr, m: Machine, k: nat, observed: bool, fuel: nat)
    returns (n: nat)
    requires e.IfNilElse? && m.Running? && x.sem.IdentityIsNative() && Sound(e, k, observed)
    requires At(x.code, m.pc, Lin(e, m.pc, Cells(m) - k, x.inBlock))
    ensures Meets(x, m, n, Eval(x.sem, e, StateOf(m), fuel), m.pc + |Lin(e, m.pc, Cells(m) - k, x.inBlock)|, m.operands,
      observed, fuel)
    decreases fuel, e, 1
  {
    hide At, Run, Go, Lin, LinArm, NilCode, Eval, EvalArm, Bind, Sound, Skew, SkewArm, SoundArm;
    SoundNilTest(e, k, observed);
    LinIfNilElse(e, m.pc, Cells(m) - k, x.inBlock);
    EvalIfNilElse(x.sem, e, StateOf(m), fuel);
    var bound := if e.sense then e.secondArm else e.firstArm;
    var c := NilCode(Lin(e.receiver, m.pc, Cells(m) - k, x.inBlock), bound);
    var b1 := LinArm(e.firstArm, m.pc + |c| + 1, Cells(m) - k - Skew(e.receiver) + 1, x.inBlock);
    var b2 := LinArm(e.secondArm, m.pc + |c| + |b1| + 2, Cells(m) - k - Skew(e.receiver) + 1 - SkewArm(e.firstArm),
      x.inBlock);
    var otherwise := m.pc + |c| + |b1| + 2;
    var end := otherwise + |b2|;
    AtSplit(x.code, m.pc, IfElseCode(m.pc, c, e.sense, b1, b2), [DropToS(1)]);
    AtSplitIfElse(x.code, m.pc, c, e.sense, b1, b2);
    n := SimNilHead(x, e.receiver, bound, m, k, fuel);
    var o := Eval(x.sem, e.receiver, StateOf(m), fuel);
    if o.Value? && Bind(bound, o.value, o.state).Value? {
      var s := Bind(bound, o.value, o.state).state;
      Next(x, m, n, m.pc + |c|, JumpIf(!e.sense, otherwise));
      var m1 := Go(x, m, n + 1);
      if (o.value == Nil) == e.sense {
        var j := SimArm(x, e.firstArm, m1, k + Skew(e.receiver), observed, fuel);
        MeetsAfter(x, m, n + 1, j, EvalArm(x.sem, e.firstArm, s, fuel), otherwise - 1, m1.operands, observed, fuel,
          fuel);
        n := ThenJump(x, m, n + 1 + j, EvalArm(x.sem, e.firstArm, s, fuel), otherwise - 1, end, m1.operands, observed,
          fuel);
        n := ThenDrop(x, m, n, EvalArm(x.sem, e.firstArm, s, fuel), end, m.operands, o.value, observed, fuel);
      } else {
        var j := SimArm(x, e.secondArm, m1, k + Skew(e.receiver) + SkewArm(e.firstArm), observed, fuel);
        MeetsAfter(x, m, n + 1, j, EvalArm(x.sem, e.secondArm, s, fuel), end, m1.operands, observed, fuel, fuel);
        n := ThenDrop(x, m, n + 1 + j, EvalArm(x.sem, e.secondArm, s, fuel), end, m.operands, o.value, observed, fuel);
      }
    }
  }

  // ---- loops

  lemma {:induction false} SimWhile(x: Script, e: Expr, m: Machine, k: nat, observed: bool, fuel: nat) returns (n: nat)
    requires (e.WhileUnary? || e.While? || e.Repeat?) && m.Running? && x.sem.IdentityIsNative() && Sound(e, k, observed)
    requires At(x.code, m.pc, Lin(e, m.pc, Cells(m) - k, x.inBlock))
    ensures Meets(x, m, n, Eval(x.sem, e, StateOf(m), fuel), m.pc + |Lin(e, m.pc, Cells(m) - k, x.inBlock)|, m.operands,
      observed, fuel)
    decreases fuel, e, 1
  {
    hide At, Run, Go, Lin, LinBody, Eval, EvalWhile, EvalBody, Meets;
    match e
    case WhileUnary(_, _) => n := SimWhileUnary(x, e, m, k, observed, fuel);
    case While(_, _, _) => n := SimWhileBinary(x, e, m, k, observed, fuel);
    case Repeat(_) => n := SimRepeat(x, e, m, k, observed, fuel);
  }

  lemma {:induction false} SimWhileUnary(x: Script, e: Expr, m: Machine, k: nat, observed: bool, fuel: nat)
    returns (n: nat)
    requires e.WhileUnary? && m.Running? && x.sem.IdentityIsNative() && Sound(e, k, observed)
    requires At(x.code, m.pc, Lin(e, m.pc, Cells(m) - k, x.inBlock))
    ensures Meets(x, m, n, Eval(x.sem, e, StateOf(m), fuel), m.pc + |Lin(e, m.pc, Cells(m) - k, x.inBlock)|, m.operands,
      observed, fuel)
    ensures Eval(x.sem, e, StateOf(m), fuel).Value? ==> Go(x, m, n).Running? && Go(x, m, n).r == Boolean(!e.sense)
    decreases fuel, e, 0
  {
    hide At, Run, Go, Lin, LinBody, Eval, EvalBody, Sound, SkewAll, SoundBody;
    SoundLoop(e, k, observed);
    n := 0;
    LinWhile(e, m.pc, Cells(m) - k, x.inBlock);
    EvalLoop(x.sem, e, StateOf(m), fuel);
    GoNowhere(x, m);
    if fuel > 0 {
      var c := LinBody(e.condition, m.pc, Cells(m) - k, x.inBlock);
      AtSplit(x.code, m.pc, c, [JumpIf(e.sense, m.pc)]);
      n := SimBody(x, e.condition, m, k, true, fuel);
      var o := EvalBody(x.sem, e.condition, StateOf(m), fuel);
      if o.Value? && IsBoolean(o.value) {
        Next(x, m, n, m.pc + |c|, JumpIf(e.sense, m.pc));
        if o.value == Boolean(e.sense) {
          var m1 := Go(x, m, n + 1);
          EvalLoop(x.sem, e, o.state, fuel - 1);
          var j := SimWhileUnary(x, e, m1, k, observed, fuel - 1);
          MeetsAfter(x, m, n + 1, j, Eval(x.sem, e, o.state, fuel - 1), m.pc + |c| + 1, m.operands, observed, fuel - 1,
            fuel);
          n := n + 1 + j;
        } else {
          n := n + 1;
        }
      }
    }
  }

  lemma {:induction false} SimWhileBinary(x: Script, e: Expr, m: Machine, k: nat, observed: bool, fuel: nat)
    returns (n: nat)
    requires e.While? && m.Running? && x.sem.IdentityIsNative() && Sound(e, k, observed)
    requires At(x.code, m.pc, Lin(e, m.pc, Cells(m) - k, x.inBlock))
    ensures Meets(x, m, n, Eval(x.sem, e, StateOf(m), fuel), m.pc + |Lin(e, m.pc, Cells(m) - k, x.inBlock)|, m.operands,
      observed, fuel)
    ensures Eval(x.sem, e, StateOf(m), fuel).Value? ==> Go(x, m, n).Running? && Go(x, m, n).r == Boolean(!e.sense)
    decreases fuel, e, 0
  {
    hide At, Run, Go, Lin, LinBody, Eval, EvalBody, Sound, SkewAll, SoundBody;
    SoundLoop(e, k, observed);
    n := 0;
    LinWhile(e, m.pc, Cells(m) - k, x.inBlock);
    EvalLoop(x.sem, e, StateOf(m), fuel);
    GoNowhere(x, m);
    if fuel > 0 {
      var c := LinBody(e.condition, m.pc, Cells(m) - k, x.inBlock);
      var b := LinBody(e.body, m.pc + |c| + 1, Cells(m) - k - SkewAll(e.condition), x.inBlock);
      var end := m.pc + |c| + |b| + 2;
      AtSplit4(x.code, m.pc, c, [JumpIf(!e.sense, end)], b, [Jump(m.pc)]);
      n := SimBody(x, e.condition, m, k, true, fuel);
      var o := EvalBody(x.sem, e.condition, StateOf(m), fuel);
      if o.Value? && IsBoolean(o.value) {
        Next(x, m, n, m.pc + |c|, JumpIf(!e.sense, end));
        n := n + 1;
        if o.value == Boolean(e.sense) {
          var m1 := Go(x, m, n);
          var j := SimBody(x, e.body, m1, k + SkewAll(e.condition), false, fuel);
          var o1 := EvalBody(x.sem, e.body, o.state, fuel);
          MeetsAfter(x, m, n, j, o1, end - 1, m.operands, false, fuel, fuel);
          n := n + j;
          if o1.Value? {
            Next(x, m, n, end - 1, Jump(m.pc));
            var m2 := Go(x, m, n + 1);
            EvalLoop(x.sem, e, o1.state, fuel - 1);
            var i := SimWhileBinary(x, e, m2, k, observed, fuel - 1);
            MeetsAfter(x, m, n + 1, i, Eval(x.sem, e, o1.state, fuel - 1), end, m.operands, observed, fuel - 1, fuel);
            n := n + 1 + i;
          }
        }
      }
    }
  }

  lemma {:induction false} SimRepeat(x: Script, e: Expr, m: Machine, k: nat, observed: bool, fuel: nat) returns (n: nat)
    requires e.Repeat? && m.Running? && x.sem.IdentityIsNative() && Sound(e, k, observed)
    requires At(x.code, m.pc, Lin(e, m.pc, Cells(m) - k, x.inBlock))
    ensures Meets(x, m, n, Eval(x.sem, e, StateOf(m), fuel), m.pc + |Lin(e, m.pc, Cells(m) - k, x.inBlock)|, m.operands,
      observed, fuel)
    decreases fuel, e, 0
  {
    hide At, Run, Go, Lin, LinBody, Eval, EvalBody, Sound, SoundBody;
    SoundLoop(e, k, observed);
    n := 0;
    LinWhile(e, m.pc, Cells(m) - k, x.inBlock);
    EvalLoop(x.sem, e, StateOf(m), fuel);
    GoNowhere(x, m);
    if fuel > 0 {
      var b := LinBody(e.body, m.pc, Cells(m) - k, x.inBlock);
      AtSplit(x.code, m.pc, b, [Jump(m.pc)]);
      n := SimBody(x, e.body, m, k, false, fuel);
      var o := EvalBody(x.sem, e.body, StateOf(m), fuel);
      if o.Value? {
        Next(x, m, n, m.pc + |b|, Jump(m.pc));
        var m1 := Go(x, m, n + 1);
        EvalLoop(x.sem, e, o.state, fuel - 1);
        var j := SimRepeat(x, e, m1, k, observed, fuel - 1);
        MeetsAfter(x, m, n + 1, j, Eval(x.sem, e, o.state, fuel - 1), m.pc + |b| + 1, m.operands, observed, fuel - 1,
          fuel);
        n := n + 1 + j;
      }
    }
  }

  /** A binary message to a frame cell, with a literal or another frame cell. */
  lemma RunSendToCell(x: Script, m: Machine, cell: int, selector: Selector, arg: Op, v: Oop)
    requires HasFrameCell(m, cell) && At(x.code, m.pc, SendToCell(cell, selector, arg))
    requires arg == LoadLiteral(v)
      || (arg.LoadRfromFrame? && HasFrameCell(m, arg.index) && FrameCell(m, arg.index) == v)
    ensures match x.sem.send(selector, false, FrameCell(m, cell), [v], m.world)
      case None => true
      case Some(p) => Go(x, m, 7) == m.(pc := m.pc + 7, r := p.0, world := p.1)
  {
    hide At, Run, Go;
    RunBinary(x, m, LoadRfromFrame(cell), FrameCell(m, cell), selector, arg, v);
  }

  lemma SplitLoop(code: seq<Op>, start: nat, cell: int, limit: int, b: seq<Op>, drop: nat)
    requires At(code, start, LoopCode(start, cell, limit, b, drop))
    ensures var exit := start + |b| + 17;
      && At(code, start, SendToCell(cell, GreaterThan, LoadRfromFrame(limit)))
      && At(code, start + 7, [JumpIf(true, exit)])
      && At(code, start + 8, b) && At(code, exit - 9, SendToCell(cell, Plus, LoadLiteral(Small(1))))
      && At(code, exit - 2, [StoreRintoFrame(cell)]) && At(code, exit - 1, [Jump(start)])
      && At(code, exit, [DropToS(drop)])
  {
    hide At;
    var exit := start + |b| + 17;
    var test, step := SendToCell(cell, GreaterThan, LoadRfromFrame(limit)),
      SendToCell(cell, Plus, LoadLiteral(Small(1)));
    var tail := [StoreRintoFrame(cell), Jump(start), DropToS(drop)];
    AtSplit(code, start, test + [JumpIf(true, exit)] + b + step, tail);
    AtSplit4(code, start, test, [JumpIf(true, exit)], b, step);
    assert tail == [StoreRintoFrame(cell)] + [Jump(start)] + [DropToS(drop)];
    AtSplit3(code, exit - 2, [StoreRintoFrame(cell)], [Jump(start)], [DropToS(drop)]);
  }

  /** The test of a counted loop: on its way out, or at the start of its body. */
  lemma RunLoopTest(x: Script, m: Machine, cell: int, b: seq<Op>, drop: nat, operands: seq<Oop>, last: Oop)
    requires HasFrameCell(m, cell) && drop <= |m.operands| && At(x.code, m.pc, LoopCode(m.pc, cell, Cells(m), b, drop))
    requires m.operands != [] && m.operands[|m.operands| - 1] == last && operands == m.operands[..|m.operands| - drop]
    ensures var o := Perform(x.sem, GreaterThan, false, FrameCell(m, cell), [last], StateOf(m));
      o.Value? && IsBoolean(o.value) ==>
        if o.value == True then Arrived(Go(x, m, 9), o.state, m.pc + |b| + 18, operands) && Go(x, m, 9).r == True
        else Arrived(Go(x, m, 8), o.state, m.pc + 8, m.operands)
  {
    hide At, Run, Go, SendToCell;
    SplitLoop(x.code, m.pc, cell, Cells(m), b, drop);
    RunSendToCell(x, m, cell, GreaterThan, LoadRfromFrame(Cells(m)), last);
    var o := Perform(x.sem, GreaterThan, false, FrameCell(m, cell), [last], StateOf(m));
    if o.Value? && IsBoolean(o.value) {
      Next(x, m, 7, m.pc + 7, JumpIf(true, m.pc + |b| + 17));
      if o.value == True {
        Next(x, m, 8, m.pc + |b| + 17, DropToS(drop));
      }
    }
  }

  /** The end of a turn of a counted loop: one is added to its cell. */
  lemma RunLoopStep(x: Script, m: Machine, start: nat, cell: int, limit: int, b: seq<Op>, drop: nat)
    requires HasFrameCell(m, cell) && m.pc == start + 8 + |b|
    requires At(x.code, start, LoopCode(start, cell, limit, b, drop))
    ensures match x.sem.send(Plus, false, FrameCell(m, cell), [Small(1)], m.world)
      case None => true
      case Some(p) => Go(x, m, 9) == SetFrameCell(m.(pc := start, r := p.0, world := p.1), cell, p.0)
  {
    hide At, Run, Go, SendToCell;
    SplitLoop(x.code, start, cell, limit, b, drop);
    RunSendToCell(x, m, cell, Plus, LoadLiteral(Small(1)), Small(1));
    match x.sem.send(Plus, false, FrameCell(m, cell), [Small(1)], m.world)
    case None =>
    case Some(p) =>
      Next(x, m, 7, m.pc + 7, StoreRintoFrame(cell));
      Next(x, m, 8, m.pc + 8, Jump(start));
  }

  /** The turns of to:do:, its limit on top of the stack, until the limit is dropped. */
  lemma {:induction false} SimToDoTurns(x: Script, e: Expr, m: Machine, operands: seq<Oop>, first: Oop, last: Oop,
                                        fuel: nat)
    returns (n: nat)
    requires e.ToDo? && m.Running? && x.sem.IdentityIsNative() && SoundBody(e.body, 0, false)
    requires m.operands == operands + [last] && HasCell(StateOf(m), e.index)
    requires At(x.code, m.pc, LoopCode(m.pc, e.index, Cells(m), LinBody(e.body, m.pc + 8, Cells(m), x.inBlock), 1))
    ensures Meets(x, m, n, EvalToDo(x.sem, e, first, last, StateOf(m), fuel),
      m.pc + |LinBody(e.body, m.pc + 8, Cells(m), x.inBlock)| + 18, operands, false, fuel)
    ensures EvalToDo(x.sem, e, first, last, StateOf(m), fuel).Value? ==> Go(x, m, n).Running? && Go(x, m, n).r == True
    decreases fuel, e, 0
  {
    hide At, Run, Go, LinBody, LoopCode, Eval, EvalBody, EvalToDo, Sound, Skew, SkewAll, SoundBody;
    EvalToDoTurn(x.sem, e, first, last, StateOf(m), fuel);
    n := 0;
    GoNowhere(x, m);
    if fuel > 0 {
      var b := LinBody(e.body, m.pc + 8, Cells(m), x.inBlock);
      var end := m.pc + |b| + 18;
      SplitLoop(x.code, m.pc, e.index, Cells(m), b, 1);
      assert operands == m.operands[..|m.operands| - 1];
      RunLoopTest(x, m, e.index, b, 1, operands, last);
      var o := Perform(x.sem, GreaterThan, false, m.temps[e.index - 1], [last], StateOf(m));
      if o.Value? && IsBoolean(o.value) {
        n := if o.value == True then 9 else 8;
        if o.value != True {
          var m1 := Go(x, m, 8);
          var j := SimBody(x, e.body, m1, 0, false, fuel);
          var o1 := EvalBody(x.sem, e.body, o.state, fuel);
          MeetsAfter(x, m, 8, j, o1, m.pc + 8 + |b|, m.operands, false, fuel, fuel);
          n := 8 + j;
          if o1.Value? {
            var m2 := Go(x, m, n);
            RunLoopStep(x, m2, m.pc, e.index, Cells(m), b, 1);
            var o2 := Perform(x.sem, Plus, false, m2.temps[e.index - 1], [Small(1)], o1.state);
            if o2.Value? {
              GoOn(x, m, n, m2, 9);
              var m3 := Go(x, m, n + 9);
              var i := SimToDoTurns(x, e, m3, operands, first, last, fuel - 1);
              MeetsAfter(x, m, n + 9, i, EvalToDo(x.sem, e, first, last, StateOf(m3), fuel - 1), end, operands, false,
                fuel - 1, fuel);
              n := n + 9 + i;
            }
          }
        }
      }
    }
  }

  lemma {:induction false} SimToDo(x: Script, e: Expr, m: Machine, k: nat, observed: bool, fuel: nat) returns (n: nat)
    requires e.ToDo? && m.Running? && x.sem.IdentityIsNative() && Sound(e, k, observed)
    requires At(x.code, m.pc, Lin(e, m.pc, Cells(m) - k, x.inBlock))
    ensures Meets(x, m, n, Eval(x.sem, e, StateOf(m), fuel), m.pc + |Lin(e, m.pc, Cells(m) - k, x.inBlock)|, m.operands,
      observed, fuel)
    ensures Eval(x.sem, e, StateOf(m), fuel).Value? ==> Go(x, m, n).Running? && Go(x, m, n).r == True
    decreases fuel, e, 1
  {
    hide At, Run, Go, Lin, LinBody, LoopCode, Eval, EvalToDo, Sound, Skew, SoundBody;
    SoundCounted(e, k, observed);
    LinToDo(e, m.pc, Cells(m) - k, x.inBlock);
    EvalCounted(x.sem, e, StateOf(m), fuel);
    var c := Lin(e.receiver, m.pc, Cells(m) - k, x.inBlock);
    var head := c + [StoreRintoFrame(e.index)];
    var l := Lin(e.limit, m.pc + |head|, Cells(m) - k - Skew(e.receiver), x.inBlock);
    var start := m.pc + |head| + |l| + 1;
    var loop := LoopCode(start, e.index, Cells(m) + 1, LinBody(e.body, start + 8, Cells(m) + 1, x.inBlock), 1);
    LoopSize(start, e.index, Cells(m) + 1, LinBody(e.body, start + 8, Cells(m) + 1, x.inBlock), 1);
    AtSplit4(x.code, m.pc, head, l, [PushR], loop);
    AtSplit(x.code, m.pc, c, [StoreRintoFrame(e.index)]);
    n := SimExpr(x, e.receiver, m, k, true, fuel);
    var o := Eval(x.sem, e.receiver, StateOf(m), fuel);
    if o.Value? && HasCell(o.state, e.index) {
      Next(x, m, n, m.pc + |c|, StoreRintoFrame(e.index));
      var m1 := Go(x, m, n + 1);
      var j := SimExpr(x, e.limit, m1, k + Skew(e.receiver), true, fuel);
      var o1 := Eval(x.sem, e.limit, SetCell(o.state, e.index, o.value), fuel);
      MeetsAfter(x, m, n + 1, j, o1, start - 1, m.operands, true, fuel, fuel);
      n := n + 1 + j;
      if o1.Value? {
        Next(x, m, n, start - 1, PushR);
        var m2 := Go(x, m, n + 1);
        var i := SimToDoTurns(x, e, m2, m.operands, o.value, o1.value, fuel);
        MeetsAfter(x, m, n + 1, i, EvalToDo(x.sem, e, o.value, o1.value, o1.state, fuel), start + |loop|, m.operands,
          false, fuel, fuel);
        n := n + 1 + i;
      }
    }
  }

  lemma LoopSize(start: nat, cell: int, limit: int, b: seq<Op>, drop: nat)
    ensures |LoopCode(start, cell, limit, b, drop)| == |b| + 18
  {}

  /** The turns of timesRepeat:, its count and limit on the stack, until both are dropped. */
  lemma {:induction false} SimTimesTurns(x: Script, e: Expr, m: Machine, operands: seq<Oop>, count: Oop, last: Oop,
                                         fuel: nat)
    returns (n: nat)
    requires e.TimesRepeat? && m.Running? && x.sem.IdentityIsNative() && SoundBody(e.body, 0, false)
    requires m.operands == operands + [count, last]
    requires At(x.code, m.pc, LoopCode(m.pc, Cells(m) - 1, Cells(m), LinBody(e.body, m.pc + 8, Cells(m), x.inBlock), 2))
    ensures Meets(x, m, n, EvalTimes(x.sem, e, count, last, StateOf(m), fuel),
      m.pc + |LinBody(e.body, m.pc + 8, Cells(m), x.inBlock)| + 18, operands, false, fuel)
    ensures EvalTimes(x.sem, e, count, last, StateOf(m), fuel).Value? ==> Go(x, m, n).Running? && Go(x, m, n).r == True
    decreases fuel, e, 0
  {
    hide At, Run, Go, LinBody, LoopCode, Eval, EvalBody, EvalTimes, Sound, Skew, SkewAll, SoundBody;
    EvalTimesTurn(x.sem, e, count, last, StateOf(m), fuel);
    n := 0;
    GoNowhere(x, m);
    if fuel > 0 {
      var b := LinBody(e.body, m.pc + 8, Cells(m), x.inBlock);
      var end := m.pc + |b| + 18;
      var cell := Cells(m) - 1;
      SplitLoop(x.code, m.pc, cell, Cells(m), b, 2);
      assert operands == m.operands[..|m.operands| - 2];
      RunLoopTest(x, m, cell, b, 2, operands, last);
      var o := Perform(x.sem, GreaterThan, false, count, [last], StateOf(m));
      if o.Value? && IsBoolean(o.value) {
        n := if o.value == True then 9 else 8;
        if o.value != True {
          var m1 := Go(x, m, 8);
          var j := SimBody(x, e.body, m1, 0, false, fuel);
          var o1 := EvalBody(x.sem, e.body, o.state, fuel);
          MeetsAfter(x, m, 8, j, o1, m.pc + 8 + |b|, m.operands, false, fuel, fuel);
          n := 8 + j;
          if o1.Value? {
            var m2 := Go(x, m, n);
            RunLoopStep(x, m2, m.pc, cell, Cells(m), b, 2);
            var o2 := Perform(x.sem, Plus, false, count, [Small(1)], o1.state);
            if o2.Value? {
              GoOn(x, m, n, m2, 9);
              var m3 := Go(x, m, n + 9);
              assert m3.operands == operands + [o2.value, last];
              var i := SimTimesTurns(x, e, m3, operands, o2.value, last, fuel - 1);
              MeetsAfter(x, m, n + 9, i, EvalTimes(x.sem, e, o2.value, last, StateOf(m3), fuel - 1), end, operands,
                false, fuel - 1, fuel);
              n := n + 9 + i;
            }
          }
        }
      }
    }
  }

  lemma {:induction false} SimTimesRepeat(x: Script, e: Expr, m: Machine, k: nat, observed: bool, fuel: nat)
    returns (n: nat)
    requires e.TimesRepeat? && m.Running? && x.sem.IdentityIsNative() && Sound(e, k, observed)
    requires At(x.code, m.pc, Lin(e, m.pc, Cells(m) - k, x.inBlock))
    ensures Meets(x, m, n, Eval(x.sem, e, StateOf(m), fuel), m.pc + |Lin(e, m.pc, Cells(m) - k, x.inBlock)|, m.operands,
      observed, fuel)
    ensures Eval(x.sem, e, StateOf(m), fuel).Value? ==> Go(x, m, n).Running? && Go(x, m, n).r == True
    decreases fuel, e, 1
  {
    hide At, Run, Go, Lin, LinBody, LoopCode, Eval, EvalTimes, Sound, Skew, SoundBody;
    SoundCounted(e, k, observed);
    LinTimesRepeat(e, m.pc, Cells(m) - k, x.inBlock);
    EvalCounted(x.sem, e, StateOf(m), fuel);
    var head := [LoadLiteral(Small(1)), PushR];
    var c := Lin(e.receiver, m.pc + 2, Cells(m) + 1, x.inBlock);
    var start := m.pc + 2 + |c| + 1;
    var loop := LoopCode(start, Cells(m) + 1, Cells(m) + 2, LinBody(e.body, start + 8, Cells(m) + 2, x.inBlock), 2);
    LoopSize(start, Cells(m) + 1, Cells(m) + 2, LinBody(e.body, start + 8, Cells(m) + 2, x.inBlock), 2);
    AtSplit4(x.code, m.pc, head, c, [PushR], loop);
    GoNowhere(x, m);
    Fetch(x, m, 0, m, head, 0);
    Fetch(x, m, 1, Go(x, m, 1), head, 1);
    var m1 := Go(x, m, 2);
    var j := SimExpr(x, e.receiver, m1, 0, true, fuel);
    var o := Eval(x.sem, e.receiver, StateOf(m), fuel);
    MeetsAfter(x, m, 2, j, o, start - 1, m1.operands, true, fuel, fuel);
    n := 2 + j;
    if o.Value? {
      Next(x, m, n, start - 1, PushR);
      var m2 := Go(x, m, n + 1);
      assert m2.operands == m.operands + [Small(1), o.value];
      var i := SimTimesTurns(x, e, m2, m.operands, Small(1), o.value, fuel);
      MeetsAfter(x, m, n + 1, i, EvalTimes(x.sem, e, Small(1), o.value, o.state, fuel), start + |loop|, m.operands,
        false, fuel, fuel);
      n := n + 1 + i;
    }
  }

  // ---- and:, or: and their negated forms

  lemma {:induction false} SimChain(x: Script, stop: bool, blocks: seq<Block>, m: Machine, k: nat, v: Oop,
                                    observed: bool, end: nat, fuel: nat)
    returns (n: nat)
    requires m.Running? && x.sem.IdentityIsNative() && SoundBlocks(blocks, k, observed)
    requires observed || blocks != [] ==> m.r == v
    requires At(x.code, m.pc, LinChain(stop, blocks, m.pc, Cells(m) - k, x.inBlock, end))
    requires end == m.pc + |LinChain(stop, blocks, m.pc, Cells(m) - k, x.inBlock, end)|
    ensures Meets(x, m, n, EvalChain(x.sem, Boolean(stop), v, blocks, StateOf(m), fuel), end, m.operands, observed,
      fuel)
    decreases fuel, blocks, 0
  {
    hide At, Run, Go, LinBody, LinChain, EvalBody, SoundBlocks, SoundBody, Skew, SkewAll;
    n := 0;
    GoNowhere(x, m);
    if blocks == [] {
      NoBlocks(stop, m.pc, Cells(m) - k, x.inBlock, end);
    } else if IsBoolean(v) {
      LinChainCons(stop, blocks, m.pc, Cells(m) - k, x.inBlock, end);
      SoundBlocksCons(blocks, k, observed);
      var body := blocks[0].statements;
      var b := LinBody(body, m.pc + 1, Cells(m) - k, x.inBlock);
      var rest := LinChain(stop, blocks[1..], m.pc + 1 + |b|, Cells(m) - k - SkewAll(body), x.inBlock, end);
      AtSplit3(x.code, m.pc, [JumpIf(stop, end)], b, rest);
      Next(x, m, 0, m.pc, JumpIf(stop, end));
      n := 1;
      if v != Boolean(stop) {
        var m1 := Go(x, m, 1);
        var j := SimBody(x, body, m1, k, observed || |blocks| > 1, fuel);
        var o := EvalBody(x.sem, body, StateOf(m), fuel);
        MeetsAfter(x, m, 1, j, o, m.pc + 1 + |b|, m.operands, observed || |blocks| > 1, fuel, fuel);
        n := 1 + j;
        if o.Value? {
          var m2 := Go(x, m, n);
          var i := SimChain(x, stop, blocks[1..], m2, k + SkewAll(body), o.value, observed, end, fuel);
          MeetsAfter(x, m, n, i, EvalChain(x.sem, Boolean(stop), o.value, blocks[1..], o.state, fuel), end, m.operands,
            observed, fuel, fuel);
          n := n + i;
        }
      }
    }
  }

  lemma {:induction false} SimLogic(x: Script, e: Expr, m: Machine, k: nat, observed: bool, fuel: nat) returns (n: nat)
    requires (e.And? || e.Or?) && m.Running? && x.sem.IdentityIsNative() && Sound(e, k, observed)
    requires At(x.code, m.pc, Lin(e, m.pc, Cells(m) - k, x.inBlock))
    ensures Meets(x, m, n, Eval(x.sem, e, StateOf(m), fuel), m.pc + |Lin(e, m.pc, Cells(m) - k, x.inBlock)|, m.operands,
      observed, fuel)
    decreases fuel, e, 1
  {
    hide At, Run, Go, Lin, LinChain, Eval, EvalChain, Sound, Skew, SoundBlocks;
    SoundLogic(e, k, observed);
    LinAndOr(e, m.pc, Cells(m) - k, x.inBlock);
    EvalLogic(x.sem, e, StateOf(m), fuel);
    var c := Lin(e.receiver, m.pc, Cells(m) - k, x.inBlock);
    var top := Cells(m) - k - Skew(e.receiver);
    var end := m.pc + |c| + |LinChain(e.Or?, e.blocks, m.pc + |c|, top, x.inBlock, NO_TARGET)|;
    ChainSize(e.Or?, e.blocks, m.pc + |c|, top, x.inBlock, NO_TARGET, end);
    AtSplit(x.code, m.pc, c, LinChain(e.Or?, e.blocks, m.pc + |c|, top, x.inBlock, end));
    n := SimExpr(x, e.receiver, m, k, true, fuel);
    var o := Eval(x.sem, e.receiver, StateOf(m), fuel);
    if o.Value? {
      var m1 := Go(x, m, n);
      var j := SimChain(x, e.Or?, e.blocks, m1, k + Skew(e.receiver), o.value, observed, end, fuel);
      MeetsAfter(x, m, n, j, EvalChain(x.sem, Boolean(e.Or?), o.value, e.blocks, o.state, fuel), end, m.operands,
        observed, fuel, fuel);
      n := n + j;
    }
  }

  lemma {:induction false} SimNegated(x: Script, e: Expr, m: Machine, k: nat, observed: bool, fuel: nat)
    returns (n: nat)
    requires (e.AndNot? || e.OrNot?) && m.Running? && x.sem.IdentityIsNative() && Sound(e, k, observed)
    requires At(x.code, m.pc, Lin(e, m.pc, Cells(m) - k, x.inBlock))
    ensures Meets(x, m, n, Eval(x.sem, e, StateOf(m), fuel), m.pc + |Lin(e, m.pc, Cells(m) - k, x.inBlock)|, m.operands,
      observed, fuel)
    decreases fuel, e, 1
  {
    hide At, Run, Go, Lin, LinBody, Eval, EvalBody, Sound, Skew, SkewAll, SoundBody;
    SoundLogic(e, k, observed);
    LinNegated(e, m.pc, Cells(m) - k, x.inBlock);
    EvalLogic(x.sem, e, StateOf(m), fuel);
    var c := Lin(e.receiver, m.pc, Cells(m) - k, x.inBlock);
    var b := LinBody(e.body, m.pc + |c| + 1, Cells(m) - k - Skew(e.receiver), x.inBlock);
    var end := m.pc + |c| + |b| + 2;
    AtSplit4(x.code, m.pc, c, [JumpIf(e.OrNot?, end)], b, [Dispatch(Not, false, 0)]);
    n := SimExpr(x, e.receiver, m, k, true, fuel);
    var o := Eval(x.sem, e.receiver, StateOf(m), fuel);
    if o.Value? && IsBoolean(o.value) {
      Next(x, m, n, m.pc + |c|, JumpIf(e.OrNot?, end));
      n := n + 1;
      if o.value != Boolean(e.OrNot?) {
        var m1 := Go(x, m, n);
        var j := SimBody(x, e.body, m1, k + Skew(e.receiver), true, fuel);
        var o1 := EvalBody(x.sem, e.body, o.state, fuel);
        MeetsAfter(x, m, n, j, o1, end - 1, m.operands, true, fuel, fuel);
        n := n + j;
        if o1.Value? {
          Next(x, m, n, end - 1, Dispatch(Not, false, 0));
          assert m.operands[|m.operands| - 0..] == [];
          n := n + 1;
        }
      }
    }
  }
}
