/** Whole scripts: the code of a method or of a block ends exactly as its tree does, or goes on
    for ever exactly when its tree does; and what goes wrong outside the sound trees. */
module Meaning {
  import opened Trees
  import opened Machine
  import opened Layout
  import opened Runs
  import opened Simulation

  function EvalScript(sem: Semantics, body: seq<Expr>, inBlock: bool, s: State, fuel: nat): Outcome {
    if inBlock then EvalBlock(sem, body, s, fuel) else EvalMethod(sem, body, s, fuel)
  }

  /** The value of a block's last statement is its answer; a method's is not looked at. */
  predicate SoundScript(body: seq<Expr>, inBlock: bool) {
    SoundBody(body, 0, inBlock && body != [])
  }

  /** A script about to start, on a frame of its own. */
  function Start(s: State, r: Oop): Machine {
    Running(0, r, s.temps, [], s.world)
  }

  /** A body whose last statement is a return never just ends. */
  lemma {:induction false} ReturnsLast(sem: Semantics, body: seq<Expr>, s: State, fuel: nat)
    requires LastIsReturn(body)
    ensures !EvalBody(sem, body, s, fuel).Value?
  {
    hide Eval;
    EvalLeaf(sem, body[0], s, fuel);
    var o := Eval(sem, body[0], s, fuel);
    if o.Value? && |body| > 1 {
      ReturnsLast(sem, body[1..], o.state, fuel);
    }
  }

  lemma ScriptMeans(sem: Semantics, body: seq<Expr>, inBlock: bool, s: State, r: Oop, fuel: nat) returns (n: nat)
    requires sem.IdentityIsNative() && SoundScript(body, inBlock)
    ensures var c := Run(sem, Code(body, |s.temps|, inBlock), Start(s, r), n);
      match EvalScript(sem, body, inBlock, s, fuel)
      case Returned(v, w, local) => c == Finished(v, w, local)
      case OutOfFuel => n >= fuel && c.Running?
      case Undefined => true
      case Value(_, _) => false
  {
    hide At, Run, LinBody, EvalBody;
    var code, m := Code(body, |s.temps|, inBlock), Start(s, r);
    var x := Script(sem, code, inBlock);
    var b := LinBody(body, 0, |s.temps|, inBlock);
    var tail := if LastIsReturn(body) then []
      else if inBlock then (if body == [] then [LoadRwithNil, ReturnOp] else [ReturnOp])
      else [LoadRwithSelf, ReturnOp];
    assert code == b + tail;
    WholeCode(code);
    AtSplit(code, 0, b, tail);
    n := SimBody(x, body, m, 0, inBlock && body != [], fuel);
    var o := EvalBody(sem, body, s, fuel);
    if o.Value? {
      if LastIsReturn(body) {
        ReturnsLast(sem, body, s, fuel);
      } else {
        RunTail(x, m, n, |b|, tail);
        NoValue(sem, s, fuel);
        n := n + |tail|;
      }
    }
  }

  lemma NoValue(sem: Semantics, s: State, fuel: nat)
    ensures EvalBody(sem, [], s, fuel) == Value(Nil, s)
  {}

  lemma RunTail(x: Script, m: Machine, n: nat, pc: nat, tail: seq<Op>)
    requires Go(x, m, n).Running? && Go(x, m, n).pc == pc && At(x.code, pc, tail)
    requires tail in [[ReturnOp], [LoadRwithNil, ReturnOp], [LoadRwithSelf, ReturnOp]]
    ensures var c := Go(x, m, n);
      Go(x, m, n + |tail|)
      == Finished(if tail[0] == LoadRwithNil then Nil else if tail[0] == LoadRwithSelf then x.sem.self_ else c.r,
                  c.world, true)
  {
    hide At, Run, Go;
    var c := Go(x, m, n);
    GoNowhere(x, c);
    Fetch(x, c, 0, c, tail, 0);
    if |tail| == 2 {
      Fetch(x, c, 1, Go(x, c, 1), tail, 1);
    }
    GoOn(x, m, n, c, |tail|);
  }

  // ---- both directions

  ghost predicate Ends(sem: Semantics, body: seq<Expr>, inBlock: bool, s: State, v: Oop, w: World, local: bool) {
    exists fuel :: EvalScript(sem, body, inBlock, s, fuel) == Returned(v, w, local)
  }

  ghost predicate Diverges(sem: Semantics, body: seq<Expr>, inBlock: bool, s: State) {
    forall fuel :: EvalScript(sem, body, inBlock, s, fuel).OutOfFuel?
  }

  ghost predicate Defined(sem: Semantics, body: seq<Expr>, inBlock: bool, s: State) {
    forall fuel :: !EvalScript(sem, body, inBlock, s, fuel).Undefined?
  }

  ghost predicate Finishes(sem: Semantics, code: seq<Op>, m: Machine, end: Machine) {
    !end.Running? && exists n :: Run(sem, code, m, n) == end
  }

  ghost predicate RunsForEver(sem: Semantics, code: seq<Op>, m: Machine) {
    forall n :: Run(sem, code, m, n).Running?
  }

  /** Code ends in one way at most. */
  lemma OneEnd(sem: Semantics, code: seq<Op>, m: Machine, a: nat, b: nat)
    requires !Run(sem, code, m, a).Running? && !Run(sem, code, m, b).Running?
    ensures Run(sem, code, m, a) == Run(sem, code, m, b)
  {
    hide Run;
    if a <= b {
      StaysStopped(sem, code, m, a, b);
    } else {
      StaysStopped(sem, code, m, b, a);
    }
  }

  /** A script's code ends with an answer exactly when its tree does, with the same one. */
  lemma SameEnd(sem: Semantics, body: seq<Expr>, inBlock: bool, s: State, r: Oop, v: Oop, w: World, local: bool)
    requires sem.IdentityIsNative() && SoundScript(body, inBlock) && Defined(sem, body, inBlock, s)
    ensures Ends(sem, body, inBlock, s, v, w, local)
      <==> Finishes(sem, Code(body, |s.temps|, inBlock), Start(s, r), Finished(v, w, local))
  {
    hide Run, EvalScript, Code;
    var code, m := Code(body, |s.temps|, inBlock), Start(s, r);
    if Ends(sem, body, inBlock, s, v, w, local) {
      var fuel :| EvalScript(sem, body, inBlock, s, fuel) == Returned(v, w, local);
      var n := ScriptMeans(sem, body, inBlock, s, r, fuel);
      assert Run(sem, code, m, n) == Finished(v, w, local);
    }
    if Finishes(sem, code, m, Finished(v, w, local)) {
      var a: nat :| Run(sem, code, m, a) == Finished(v, w, local);
      var n := ScriptMeans(sem, body, inBlock, s, r, a + 1);
      var o := EvalScript(sem, body, inBlock, s, a + 1);
      if o.OutOfFuel? {
        StaysStopped(sem, code, m, a, n);
        assert false;
      }
      OneEnd(sem, code, m, a, n);
      assert o == Returned(v, w, local);
    }
  }

  /** A script's code goes on for ever exactly when its tree does. */
  lemma SameDivergence(sem: Semantics, body: seq<Expr>, inBlock: bool, s: State, r: Oop)
    requires sem.IdentityIsNative() && SoundScript(body, inBlock) && Defined(sem, body, inBlock, s)
    ensures Diverges(sem, body, inBlock, s) <==> RunsForEver(sem, Code(body, |s.temps|, inBlock), Start(s, r))
  {
    hide Run, EvalScript, Code;
    var code, m := Code(body, |s.temps|, inBlock), Start(s, r);
    if Diverges(sem, body, inBlock, s) {
      forall n: nat ensures Run(sem, code, m, n).Running? {
        var a := ScriptMeans(sem, body, inBlock, s, r, n);
        if !Run(sem, code, m, n).Running? {
          StaysStopped(sem, code, m, n, a);
        }
      }
    }
    if RunsForEver(sem, code, m) {
      forall fuel: nat ensures EvalScript(sem, body, inBlock, s, fuel).OutOfFuel? {
        var n := ScriptMeans(sem, body, inBlock, s, r, fuel);
        assert Run(sem, code, m, n).Running?;
      }
    }
  }

  // ---- what the sound trees leave out

  /** A loop that ends leaves in R what its last test answered: never nil, which is what the tree
      of a while loop means, and for a counted loop true. */
  lemma LoopLeavesTest(x: Script, e: Expr, m: Machine, k: nat, fuel: nat) returns (n: nat)
    requires e.WhileUnary? || e.While? || e.ToDo? || e.TimesRepeat?
    requires m.Running? && x.sem.IdentityIsNative() && Sound(e, k, false)
    requires At(x.code, m.pc, Lin(e, m.pc, Cells(m) - k, x.inBlock))
    requires Eval(x.sem, e, StateOf(m), fuel).Value?
    ensures var c, o := Go(x, m, n), Eval(x.sem, e, StateOf(m), fuel);
      && Arrived(c, o.state, m.pc + |Lin(e, m.pc, Cells(m) - k, x.inBlock)|, m.operands)
      && c.r == (if e.WhileUnary? || e.While? then Boolean(!e.sense) else True)
      && (e.WhileUnary? || e.While? ==> o.value == Nil && c.r != o.value)
  {
    hide At, Run, Go, Lin, Eval, Sound;
    if e.WhileUnary? {
      n := SimWhileUnary(x, e, m, k, false, fuel);
      WhileMeansNil(x.sem, e, StateOf(m), fuel);
    } else if e.While? {
      n := SimWhileBinary(x, e, m, k, false, fuel);
      WhileMeansNil(x.sem, e, StateOf(m), fuel);
    } else if e.ToDo? {
      n := SimToDo(x, e, m, k, false, fuel);
    } else {
      n := SimTimesRepeat(x, e, m, k, false, fuel);
    }
  }

  lemma {:induction false} WhileMeansNil(sem: Semantics, e: Expr, s: State, fuel: nat)
    requires e.WhileUnary? || e.While?
    ensures Eval(sem, e, s, fuel).Value? ==> Eval(sem, e, s, fuel).value == Nil
    decreases fuel
  {
    hide EvalBody, Eval;
    EvalLoop(sem, e, s, fuel);
    if fuel > 0 && EvalBody(sem, e.condition, s, fuel).Value? {
      var o := EvalBody(sem, e.condition, s, fuel);
      if e.WhileUnary? {
        EvalLoop(sem, e, o.state, fuel - 1);
        WhileMeansNil(sem, e, o.state, fuel - 1);
      } else if EvalBody(sem, e.body, o.state, fuel).Value? {
        var o1 := EvalBody(sem, e.body, o.state, fuel);
        EvalLoop(sem, e, o1.state, fuel - 1);
        WhileMeansNil(sem, e, o1.state, fuel - 1);
      }
    }
  }

  /** Small integers that answer + and >, and identity. */
  function Integers(): Semantics {
    Semantics(
      (selector: Selector, toSuper: bool, receiver: Oop, args: seq<Oop>, w: World) =>
        if |args| != 1 then None
        else if selector == EqualsEquals then Some((Boolean(receiver == args[0]), w))
        else if !receiver.Small? || !args[0].Small? then None
        else if selector == Plus then Some((Small(receiver.n + args[0].n), w))
        else if selector == GreaterThan then Some((Boolean(receiver.n > args[0].n), w))
        else None,
      (id: nat, w: World) => Nil,
      (id: nat, v: Oop, w: World) => w,
      (id: nat, temps: seq<Oop>, w: World) => (Nil, w),
      Pointer(0))
  }

  /** The code of `r. loop`, a tree after another, for a script that falls off its end. */
  lemma TwoStatements(a: Expr, b: Expr, tempCount: nat)
    requires !b.Return?
    ensures var c := Lin(a, 0, tempCount, false);
      LinMethod([a, b], tempCount) == c + Lin(b, |c|, tempCount - Skew(a), false) + [LoadRwithSelf, ReturnOp]
  {
    hide Lin, Skew, LinBody;
    LinBodyCons([a, b], 0, tempCount, false);
    assert [a, b][1..] == [b];
    var c := Lin(a, 0, tempCount, false);
    OneStatement(b, |c|, tempCount - Skew(a), false);
  }

  lemma OneStatement(e: Expr, base: nat, top: int, inBlock: bool)
    ensures LinBody([e], base, top, inBlock) == Lin(e, base, top, inBlock) && SkewAll([e]) == Skew(e)
  {
    hide Lin, Skew, LinBody, SkewAll;
    LinBodyCons([e], base, top, inBlock);
    assert [e][1..] == [];
    NoStatements(base + |Lin(e, base, top, inBlock)|, top - Skew(e), inBlock);
  }

  /** `nil ifNil: [nil]`, and then `2 timesRepeat: [^1]`. */
  const NIL_IF_NIL := IfNil(Literal(Nil), true, Inlined([], [Literal(Nil)]))
  const TWICE_RETURN := TimesRepeat(Literal(Small(2)), [Return(true, Literal(Small(1)))])

  lemma EvalStatements(sem: Semantics, e: Expr, rest: seq<Expr>, s: State, fuel: nat)
    ensures var o := Eval(sem, e, s, fuel);
      EvalBody(sem, [e] + rest, s, fuel) == if o.Value? && rest != [] then EvalBody(sem, rest, o.state, fuel) else o
  {
    assert ([e] + rest)[1..] == rest;
  }

  lemma EvalOnly(sem: Semantics, e: Expr, s: State, fuel: nat)
    ensures EvalBody(sem, [e], s, fuel) == Eval(sem, e, s, fuel)
  {}

  lemma RepeatMeans(w: World)
    ensures EvalMethod(Integers(), [NIL_IF_NIL, TWICE_RETURN], State([Small(5)], w), 1) == Returned(Small(1), w, true)
  {
    hide Eval, EvalBody;
    var sem, s := Integers(), State([Small(5)], w);
    EvalLeaf(sem, Literal(Nil), s, 1);
    EvalOnly(sem, Literal(Nil), s, 1);
    EvalIfNil(sem, NIL_IF_NIL, s, 1);
    EvalLeaf(sem, Literal(Small(1)), s, 1);
    EvalLeaf(sem, Return(true, Literal(Small(1))), s, 1);
    EvalOnly(sem, Return(true, Literal(Small(1))), s, 1);
    EvalLeaf(sem, Literal(Small(2)), s, 1);
    EvalCounted(sem, TWICE_RETURN, s, 1);
    assert sem.send(GreaterThan, false, Small(1), [Small(2)], w) == Some((Boolean(1 > 2), w));
    assert Perform(sem, GreaterThan, false, Small(1), [Small(2)], s) == Value(False, s);
    assert Eval(sem, TWICE_RETURN, s, 1) == Returned(Small(1), w, true);
    EvalOnly(sem, TWICE_RETURN, s, 1);
    EvalStatements(sem, NIL_IF_NIL, [TWICE_RETURN], s, 1);
    assert [NIL_IF_NIL] + [TWICE_RETURN] == [NIL_IF_NIL, TWICE_RETURN];
  }

  lemma RepeatCode() returns (c: seq<Op>, b: seq<Op>)
    ensures c == Lin(NIL_IF_NIL, 0, 1, false)
    ensures var head := [LoadLiteral(Small(1)), PushR, LoadLiteral(Small(2)), PushR];
      LinMethod([NIL_IF_NIL, TWICE_RETURN], 1) == c + (head + LoopCode(|c| + 4, 1, 2, b, 2)) + [LoadRwithSelf, ReturnOp]
  {
    hide Lin, LinBody, LoopCode, LinMethod;
    c := Lin(NIL_IF_NIL, 0, 1, false);
    b := LinBody(TWICE_RETURN.body, |c| + 12, 2, false);
    LinIfNil(NIL_IF_NIL, 0, 1, false);
    LinLeaf(Literal(Nil), 0, 0, false);
    OneStatement(Literal(Nil), 0, 0, false);
    TwoStatements(NIL_IF_NIL, TWICE_RETURN, 1);
    LinTimesRepeat(TWICE_RETURN, |c|, 0, false);
    LinLeaf(Literal(Small(2)), |c| + 2, 1, false);
    assert [LoadLiteral(Small(1)), PushR] + [LoadLiteral(Small(2))] + [PushR]
      == [LoadLiteral(Small(1)), PushR, LoadLiteral(Small(2)), PushR];
  }

  lemma IfNilIsSound()
    ensures Sound(NIL_IF_NIL, 0, false)
  {}

  /** Not sound: after `nil ifNil: [nil]` the count and the limit of `2 timesRepeat: [^1]` are
      looked for one cell too low. With 5 in the only temporary the body never runs. */
  lemma RepeatAfterIfNil(w: World, r: Oop) returns (n: nat)
    ensures EvalMethod(Integers(), [NIL_IF_NIL, TWICE_RETURN], State([Small(5)], w), 1) == Returned(Small(1), w, true)
    ensures Run(Integers(), LinMethod([NIL_IF_NIL, TWICE_RETURN], 1), Start(State([Small(5)], w), r), n)
      == Finished(Pointer(0), w, true)
  {
    hide At, Run, LoopCode, LinMethod, Lin, Eval, EvalBody, EvalMethod, Sound;
    RepeatMeans(w);
    var code, s := LinMethod([NIL_IF_NIL, TWICE_RETURN], 1), State([Small(5)], w);
    var x, m := Script(Integers(), code, false), Start(s, r);
    var c, b := RepeatCode();
    var head := [LoadLiteral(Small(1)), PushR, LoadLiteral(Small(2)), PushR];
    LoopSize(|c| + 4, 1, 2, b, 2);
    WholeCode(code);
    AtSplit3(code, 0, c, head + LoopCode(|c| + 4, 1, 2, b, 2), [LoadRwithSelf, ReturnOp]);
    AtSplit(code, |c|, head, LoopCode(|c| + 4, 1, 2, b, 2));
    IfNilIsSound();
    n := SimExpr(x, NIL_IF_NIL, m, 0, false, 0);
    EvalLeaf(x.sem, Literal(Nil), s, 0);
    EvalOnly(x.sem, Literal(Nil), s, 0);
    EvalIfNil(x.sem, NIL_IF_NIL, s, 0);
    RunWrongTest(x, Go(x, m, n), head, b, w);
    GoOn(x, m, n, Go(x, m, n), 15);
    n := n + 15;
  }

  /** From the start of the loop's code to the end of the script. */
  lemma RunWrongTest(x: Script, m: Machine, head: seq<Op>, b: seq<Op>, w: World)
    requires x.sem == Integers() && m.Running? && m.temps == [Small(5)] && m.operands == [] && m.world == w
    requires head == [LoadLiteral(Small(1)), PushR, LoadLiteral(Small(2)), PushR] && At(x.code, m.pc, head)
    requires At(x.code, m.pc + 4, LoopCode(m.pc + 4, 1, 2, b, 2))
    requires At(x.code, m.pc + |b| + 22, [LoadRwithSelf, ReturnOp])
    ensures Go(x, m, 15) == Finished(Pointer(0), w, true)
  {
    hide At, Run, Go, LoopCode, SendToCell;
    GoNowhere(x, m);
    Fetch(x, m, 0, m, head, 0);
    Fetch(x, m, 1, Go(x, m, 1), head, 1);
    Fetch(x, m, 2, Go(x, m, 2), head, 2);
    Fetch(x, m, 3, Go(x, m, 3), head, 3);
    var m1 := Go(x, m, 4);
    assert m1.operands == [Small(1), Small(2)];
    SplitLoop(x.code, m1.pc, 1, 2, b, 2);
    RunSendToCell(x, m1, 1, GreaterThan, LoadRfromFrame(2), Small(1));
    GoOn(x, m, 4, m1, 7);
    Next(x, m, 11, m1.pc + 7, JumpIf(true, m1.pc + |b| + 17));
    Next(x, m, 12, m1.pc + |b| + 17, DropToS(2));
    assert [LoadRwithSelf, ReturnOp] == [LoadRwithSelf] + [ReturnOp];
    AtSplit(x.code, m.pc + |b| + 22, [LoadRwithSelf], [ReturnOp]);
    Next(x, m, 13, m.pc + |b| + 22, LoadRwithSelf);
    Next(x, m, 14, m.pc + |b| + 23, ReturnOp);
  }

  const WHILE_FALSE := While(true, [Literal(False)], [])

  /** The value of a loop is not the tree's: `^[false] whileTrue: []` answers false, not nil. */
  lemma LoopAnswersItsTest(s: State, r: Oop)
    ensures EvalMethod(Integers(), [Return(true, WHILE_FALSE)], s, 1) == Returned(Nil, s.world, true)
    ensures Run(Integers(), LinMethod([Return(true, WHILE_FALSE)], |s.temps|), Start(s, r), 3)
      == Finished(False, s.world, true)
  {
    hide Lin, LinBody, Eval, EvalBody;
    var sem, top := Integers(), |s.temps|;
    OneStatement(Literal(False), 0, top, false);
    LinLeaf(Literal(False), 0, top, false);
    NoStatements(2, top, false);
    LinWhile(WHILE_FALSE, 0, top, false);
    LinLeaf(Return(true, WHILE_FALSE), 0, top, false);
    OneStatement(Return(true, WHILE_FALSE), 0, top, false);
    EvalLeaf(sem, Literal(False), s, 1);
    EvalOnly(sem, Literal(False), s, 1);
    EvalLoop(sem, WHILE_FALSE, s, 1);
    EvalLeaf(sem, Return(true, WHILE_FALSE), s, 1);
    EvalOnly(sem, Return(true, WHILE_FALSE), s, 1);
    assert LinMethod([Return(true, WHILE_FALSE)], top) == [LoadLiteral(False), JumpIf(false, 3), Jump(0), ReturnOp];
    RunThree(s, r);
  }

  lemma RunThree(s: State, r: Oop)
    ensures Run(Integers(), [LoadLiteral(False), JumpIf(false, 3), Jump(0), ReturnOp], Start(s, r), 3)
      == Finished(False, s.world, true)
  {
    var code, m := [LoadLiteral(False), JumpIf(false, 3), Jump(0), ReturnOp], Start(s, r);
    assert Run(Integers(), code, m, 1) == m.(pc := 1, r := False);
    assert Run(Integers(), code, m, 2) == m.(pc := 3, r := False);
  }
}
