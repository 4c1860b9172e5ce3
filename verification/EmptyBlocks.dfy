/** Inlined blocks without statements: they leave R as it was where the tree means nil. Each kind
    of inlined conditional answers what its tree means exactly when no empty block answers. */
module EmptyBlocks {
  import opened Trees
  import opened Machine
  import opened Layout
  import opened Runs
  import opened Simulation

  /** As for sound trees, but the block may also be empty. */
  predicate LooseBody(body: seq<Expr>, k: nat) {
    SoundBody(body, k, body != [])
  }

  predicate IsEmpty(arm: Arm) {
    arm.Inlined? && arm.statements == []
  }

  predicate LooseArm(arm: Arm, k: nat) {
    SoundArm(arm, k, !IsEmpty(arm))
  }

  predicate LooseBlocks(blocks: seq<Block>, k: nat) {
    blocks != [] ==>
      LooseBody(blocks[0].statements, k) && LooseBlocks(blocks[1..], k + SkewAll(blocks[0].statements))
  }

  lemma LooseBodyRuns(x: Script, body: seq<Expr>, m: Machine, k: nat, fuel: nat) returns (n: nat)
    requires m.Running? && x.sem.IdentityIsNative() && LooseBody(body, k)
    requires At(x.code, m.pc, LinBody(body, m.pc, Cells(m) - k, x.inBlock))
    requires EvalBody(x.sem, body, StateOf(m), fuel).Value?
    ensures var o := EvalBody(x.sem, body, StateOf(m), fuel);
      && Arrived(Go(x, m, n), o.state, m.pc + |LinBody(body, m.pc, Cells(m) - k, x.inBlock)|, m.operands)
      && Go(x, m, n).r == (if body == [] then m.r else o.value)
      && (body == [] ==> o.value == Nil && o.state == StateOf(m))
  {
    hide At, Run, Go, Lin, LinBody, Eval;
    if body == [] {
      n := 0;
      NoStatements(m.pc, Cells(m) - k, x.inBlock);
      GoNowhere(x, m);
    } else {
      n := SimBody(x, body, m, k, true, fuel);
    }
  }

  lemma LooseArmRuns(x: Script, arm: Arm, m: Machine, k: nat, fuel: nat) returns (n: nat)
    requires m.Running? && x.sem.IdentityIsNative() && LooseArm(arm, k)
    requires At(x.code, m.pc, LinArm(arm, m.pc, Cells(m) - k, x.inBlock))
    requires EvalArm(x.sem, arm, StateOf(m), fuel).Value?
    ensures var o := EvalArm(x.sem, arm, StateOf(m), fuel);
      && Arrived(Go(x, m, n), o.state, m.pc + |LinArm(arm, m.pc, Cells(m) - k, x.inBlock)|, m.operands)
      && Go(x, m, n).r == (if IsEmpty(arm) then m.r else o.value)
      && (IsEmpty(arm) ==> o.value == Nil)
  {
    hide At, Run, Go, Lin, LinBody, Eval, EvalBody;
    if arm.Inlined? {
      n := LooseBodyRuns(x, arm.statements, m, k, fuel);
    } else {
      n := SimArm(x, arm, m, k, true, fuel);
    }
  }

  // ---- ifTrue:, ifFalse: and both

  /** A conditional with one block is right exactly when the block has statements or is not
      taken. */
  lemma IfAnswers(x: Script, e: Expr, m: Machine, k: nat, fuel: nat) returns (n: nat)
    requires e.If? && m.Running? && x.sem.IdentityIsNative()
    requires Sound(e.receiver, k, true) && LooseBody(e.body, k + Skew(e.receiver))
    requires At(x.code, m.pc, Lin(e, m.pc, Cells(m) - k, x.inBlock))
    requires Eval(x.sem, e, StateOf(m), fuel).Value?
    ensures var c, o := Go(x, m, n), Eval(x.sem, e, StateOf(m), fuel);
      var taken := Eval(x.sem, e.receiver, StateOf(m), fuel).value == Boolean(e.sense);
      && Arrived(c, o.state, m.pc + |Lin(e, m.pc, Cells(m) - k, x.inBlock)|, m.operands)
      && (c.r == o.value <==> !(taken && e.body == []))
  {
    hide At, Run, Go, Lin, LinBody, Eval, EvalBody, LooseBody;
    LinIf(e, m.pc, Cells(m) - k, x.inBlock);
    EvalIf(x.sem, e, StateOf(m), fuel);
    var c := Lin(e.receiver, m.pc, Cells(m) - k, x.inBlock);
    var b := LinBody(e.body, m.pc + |c| + 1, Cells(m) - k - Skew(e.receiver), x.inBlock);
    var otherwise := m.pc + |c| + |b| + 2;
    SplitIf(x.code, m.pc, c, e.sense, b);
    n := SimExpr(x, e.receiver, m, k, true, fuel);
    var o := Eval(x.sem, e.receiver, StateOf(m), fuel);
    Next(x, m, n, m.pc + |c|, JumpIf(!e.sense, otherwise));
    var m1 := Go(x, m, n + 1);
    if o.value == Boolean(e.sense) {
      var j := LooseBodyRuns(x, e.body, m1, k + Skew(e.receiver), fuel);
      GoOn(x, m, n + 1, m1, j);
      Next(x, m, n + 1 + j, otherwise - 1, Jump(otherwise + 1));
      n := n + 2 + j;
    } else {
      Next(x, m, n + 1, otherwise, LoadRwithNil);
      n := n + 2;
    }
  }

  /** With two blocks it is right exactly when the one taken has statements. */
  lemma IfElseAnswers(x: Script, e: Expr, m: Machine, k: nat, fuel: nat) returns (n: nat)
    requires e.IfElse? && m.Running? && x.sem.IdentityIsNative()
    requires Sound(e.receiver, k, true) && LooseBody(e.first, k + Skew(e.receiver))
    requires LooseBody(e.second, k + Skew(e.receiver) + SkewAll(e.first))
    requires At(x.code, m.pc, Lin(e, m.pc, Cells(m) - k, x.inBlock))
    requires Eval(x.sem, e, StateOf(m), fuel).Value?
    ensures var c, o := Go(x, m, n), Eval(x.sem, e, StateOf(m), fuel);
      var taken := if Eval(x.sem, e.receiver, StateOf(m), fuel).value == Boolean(e.sense) then e.first else e.second;
      && Arrived(c, o.state, m.pc + |Lin(e, m.pc, Cells(m) - k, x.inBlock)|, m.operands)
      && (c.r == o.value <==> taken != [])
  {
    hide At, Run, Go, Lin, LinBody, Eval, EvalBody, LooseBody;
    LinIfElse(e, m.pc, Cells(m) - k, x.inBlock);
    EvalIf(x.sem, e, StateOf(m), fuel);
    var c := Lin(e.receiver, m.pc, Cells(m) - k, x.inBlock);
    var top := Cells(m) - k - Skew(e.receiver);
    var b1 := LinBody(e.first, m.pc + |c| + 1, top, x.inBlock);
    var b2 := LinBody(e.second, m.pc + |c| + |b1| + 2, top - SkewAll(e.first), x.inBlock);
    var otherwise := m.pc + |c| + |b1| + 2;
    AtSplitIfElse(x.code, m.pc, c, e.sense, b1, b2);
    n := SimExpr(x, e.receiver, m, k, true, fuel);
    var o := Eval(x.sem, e.receiver, StateOf(m), fuel);
    Next(x, m, n, m.pc + |c|, JumpIf(!e.sense, otherwise));
    var m1 := Go(x, m, n + 1);
    if o.value == Boolean(e.sense) {
      var j := LooseBodyRuns(x, e.first, m1, k + Skew(e.receiver), fuel);
      GoOn(x, m, n + 1, m1, j);
      Next(x, m, n + 1 + j, otherwise - 1, Jump(otherwise + |b2|));
      n := n + 2 + j;
    } else {
      var j := LooseBodyRuns(x, e.second, m1, k + Skew(e.receiver) + SkewAll(e.first), fuel);
      GoOn(x, m, n + 1, m1, j);
      n := n + 1 + j;
    }
  }

  // ---- ifNil:, ifNotNil: and both

  /** A nil test with one arm is right exactly when the arm is not an empty block or is not
      taken. */
  lemma IfNilAnswers(x: Script, e: Expr, m: Machine, k: nat, fuel: nat) returns (n: nat)
    requires e.IfNil? && m.Running? && x.sem.IdentityIsNative()
    requires Sound(e.receiver, k, true) && LooseArm(e.arm, k + Skew(e.receiver))
    requires At(x.code, m.pc, Lin(e, m.pc, Cells(m) - k, x.inBlock))
    requires Eval(x.sem, e, StateOf(m), fuel).Value?
    ensures var c, o := Go(x, m, n), Eval(x.sem, e, StateOf(m), fuel);
      var taken := (Eval(x.sem, e.receiver, StateOf(m), fuel).value == Nil) == e.sense;
      && Arrived(c, o.state, m.pc + |Lin(e, m.pc, Cells(m) - k, x.inBlock)|, m.operands)
      && (c.r == o.value <==> !(taken && IsEmpty(e.arm)))
  {
    hide At, Run, Go, Lin, LinArm, NilCode, Eval, EvalArm, Bind, LooseArm;
    LinIfNil(e, m.pc, Cells(m) - k, x.inBlock);
    EvalIfNil(x.sem, e, StateOf(m), fuel);
    var c := NilCode(Lin(e.receiver, m.pc, Cells(m) - k, x.inBlock), e.arm);
    var b := LinArm(e.arm, m.pc + |c| + 1, Cells(m) - k - Skew(e.receiver) + 1, x.inBlock);
    var otherwise := m.pc + |c| + |b| + 3;
    SplitIfNil(x.code, m.pc, c, e.sense, b);
    n := SimNilHead(x, e.receiver, e.arm, m, k, fuel);
    var o := Eval(x.sem, e.receiver, StateOf(m), fuel);
    Next(x, m, n, m.pc + |c|, JumpIf(!e.sense, otherwise));
    var m1 := Go(x, m, n + 1);
    assert m1.operands[..|m1.operands| - 1] == m.operands;
    if (o.value == Nil) == e.sense {
      var j := LooseArmRuns(x, e.arm, m1, k + Skew(e.receiver), fuel);
      GoOn(x, m, n + 1, m1, j);
      Next(x, m, n + 1 + j, otherwise - 2, DropToS(1));
      Next(x, m, n + 2 + j, otherwise - 1, Jump(otherwise + 1));
      n := n + 3 + j;
    } else {
      Next(x, m, n + 1, otherwise, PopR);
      n := n + 2;
    }
  }

  /** With two arms it is right exactly when the one taken is not an empty block. */
  lemma IfNilElseAnswers(x: Script, e: Expr, m: Machine, k: nat, fuel: nat) returns (n: nat)
    requires e.IfNilElse? && m.Running? && x.sem.IdentityIsNative()
    requires Sound(e.receiver, k, true) && LooseArm(e.firstArm, k + Skew(e.receiver))
    requires LooseArm(e.secondArm, k + Skew(e.receiver) + SkewArm(e.firstArm))
    requires At(x.code, m.pc, Lin(e, m.pc, Cells(m) - k, x.inBlock))
    requires Eval(x.sem, e, StateOf(m), fuel).Value?
    ensures var c, o := Go(x, m, n), Eval(x.sem, e, StateOf(m), fuel);
      var first := (Eval(x.sem, e.receiver, StateOf(m), fuel).value == Nil) == e.sense;
      && Arrived(c, o.state, m.pc + |Lin(e, m.pc, Cells(m) - k, x.inBlock)|, m.operands)
      && (c.r == o.value <==> !IsEmpty(if first then e.firstArm else e.secondArm))
  {
    hide At, Run, Go, Lin, LinArm, NilCode, Eval, EvalArm, Bind, LooseArm;
    LinIfNilElse(e, m.pc, Cells(m) - k, x.inBlock);
    EvalIfNilElse(x.sem, e, StateOf(m), fuel);
    var bound := if e.sense then e.secondArm else e.firstArm;
    var c := NilCode(Lin(e.receiver, m.pc, Cells(m) - k, x.inBlock), bound);
    var top := Cells(m) - k - Skew(e.receiver) + 1;
    var b1 := LinArm(e.firstArm, m.pc + |c| + 1, top, x.inBlock);
    var b2 := LinArm(e.secondArm, m.pc + |c| + |b1| + 2, top - SkewArm(e.firstArm), x.inBlock);
    var otherwise := m.pc + |c| + |b1| + 2;
    AtSplit(x.code, m.pc, IfElseCode(m.pc, c, e.sense, b1, b2), [DropToS(1)]);
    AtSplitIfElse(x.code, m.pc, c, e.sense, b1, b2);
    n := SimNilHead(x, e.receiver, bound, m, k, fuel);
    var o := Eval(x.sem, e.receiver, StateOf(m), fuel);
    Next(x, m, n, m.pc + |c|, JumpIf(!e.sense, otherwise));
    var m1 := Go(x, m, n + 1);
    assert m1.operands[..|m1.operands| - 1] == m.operands;
    if (o.value == Nil) == e.sense {
      var j := LooseArmRuns(x, e.firstArm, m1, k + Skew(e.receiver), fuel);
      GoOn(x, m, n + 1, m1, j);
      Next(x, m, n + 1 + j, otherwise - 1, Jump(otherwise + |b2|));
      n := n + 2 + j;
    } else {
      var j := LooseArmRuns(x, e.secondArm, m1, k + Skew(e.receiver) + SkewArm(e.firstArm), fuel);
      GoOn(x, m, n + 1, m1, j);
      n := n + 1 + j;
    }
    Next(x, m, n, otherwise + |b2|, DropToS(1));
    n := n + 1;
  }

  // ---- and:, or: and their negated forms

  /** The last block of a chain is reached: those before it do not stop the chain. */
  predicate LastReached(sem: Semantics, stop: bool, v: Oop, blocks: seq<Block>, s: State, fuel: nat)
    requires blocks != []
  {
    var o := EvalChain(sem, Boolean(stop), v, blocks[..|blocks| - 1], s, fuel);
    o.Value? && o.value != Boolean(stop)
  }

  predicate LastIsEmpty(blocks: seq<Block>) {
    blocks != [] && blocks[|blocks| - 1].statements == []
  }

  /** A chain is right exactly when its last block has statements or is not reached. */
  lemma {:induction false} ChainAnswers(x: Script, stop: bool, blocks: seq<Block>, m: Machine, k: nat, end: nat,
                                        fuel: nat) returns (n: nat)
    requires m.Running? && x.sem.IdentityIsNative() && LooseBlocks(blocks, k)
    requires At(x.code, m.pc, LinChain(stop, blocks, m.pc, Cells(m) - k, x.inBlock, end))
    requires end == m.pc + |LinChain(stop, blocks, m.pc, Cells(m) - k, x.inBlock, end)|
    requires EvalChain(x.sem, Boolean(stop), m.r, blocks, StateOf(m), fuel).Value?
    ensures var c, o := Go(x, m, n), EvalChain(x.sem, Boolean(stop), m.r, blocks, StateOf(m), fuel);
      && Arrived(c, o.state, end, m.operands)
      && (c.r == o.value <==> !(LastIsEmpty(blocks) && LastReached(x.sem, stop, m.r, blocks, StateOf(m), fuel)))
    decreases |blocks|
  {
    hide At, Run, Go, LinBody, LinChain, EvalBody, LooseBody;
    GoNowhere(x, m);
    if blocks == [] {
      n := 0;
      NoBlocks(stop, m.pc, Cells(m) - k, x.inBlock, end);
    } else {
      LinChainCons(stop, blocks, m.pc, Cells(m) - k, x.inBlock, end);
      var body := blocks[0].statements;
      var b := LinBody(body, m.pc + 1, Cells(m) - k, x.inBlock);
      var rest := LinChain(stop, blocks[1..], m.pc + 1 + |b|, Cells(m) - k - SkewAll(body), x.inBlock, end);
      AtSplit3(x.code, m.pc, [JumpIf(stop, end)], b, rest);
      Next(x, m, 0, m.pc, JumpIf(stop, end));
      n := 1;
      ReachedLater(x.sem, stop, m.r, blocks, StateOf(m), fuel);
      if m.r != Boolean(stop) {
        var m1 := Go(x, m, 1);
        var j := LooseBodyRuns(x, body, m1, k, fuel);
        GoOn(x, m, 1, m1, j);
        var m2 := Go(x, m, 1 + j);
        n := 1 + j;
        if |blocks| == 1 {
          NoBlocks(stop, m2.pc, Cells(m2) - k - SkewAll(body), x.inBlock, end);
        } else {
          var i := ChainAnswers(x, stop, blocks[1..], m2, k + SkewAll(body), end, fuel);
          GoOn(x, m, n, m2, i);
          n := n + i;
        }
      }
    }
  }

  lemma ReachedLater(sem: Semantics, stop: bool, v: Oop, blocks: seq<Block>, s: State, fuel: nat)
    requires blocks != []
    ensures v == Boolean(stop) ==> !LastReached(sem, stop, v, blocks, s, fuel)
    ensures |blocks| == 1 ==> (LastReached(sem, stop, v, blocks, s, fuel) <==> v != Boolean(stop))
    ensures |blocks| > 1 && IsBoolean(v) && v != Boolean(stop) ==>
      var o := EvalBody(sem, blocks[0].statements, s, fuel);
      && LastIsEmpty(blocks) == LastIsEmpty(blocks[1..])
      && (o.Value? ==>
            LastReached(sem, stop, v, blocks, s, fuel) == LastReached(sem, stop, o.value, blocks[1..], o.state, fuel))
  {
    hide EvalBody;
    if |blocks| > 1 {
      assert blocks[..|blocks| - 1][1..] == blocks[1..][..|blocks[1..]| - 1];
      assert blocks[..|blocks| - 1][0] == blocks[0];
    }
  }

  lemma LogicAnswers(x: Script, e: Expr, m: Machine, k: nat, fuel: nat) returns (n: nat)
    requires (e.And? || e.Or?) && m.Running? && x.sem.IdentityIsNative()
    requires Sound(e.receiver, k, true) && LooseBlocks(e.blocks, k + Skew(e.receiver))
    requires At(x.code, m.pc, Lin(e, m.pc, Cells(m) - k, x.inBlock))
    requires Eval(x.sem, e, StateOf(m), fuel).Value?
    ensures var c, o := Go(x, m, n), Eval(x.sem, e, StateOf(m), fuel);
      var r := Eval(x.sem, e.receiver, StateOf(m), fuel);
      && Arrived(c, o.state, m.pc + |Lin(e, m.pc, Cells(m) - k, x.inBlock)|, m.operands) && r.Value?
      && (c.r == o.value
          <==> !(LastIsEmpty(e.blocks) && LastReached(x.sem, e.Or?, r.value, e.blocks, r.state, fuel)))
  {
    hide At, Run, Go, Lin, LinChain, Eval, EvalChain, LooseBlocks, LastReached;
    LinAndOr(e, m.pc, Cells(m) - k, x.inBlock);
    EvalLogic(x.sem, e, StateOf(m), fuel);
    var c := Lin(e.receiver, m.pc, Cells(m) - k, x.inBlock);
    var top := Cells(m) - k - Skew(e.receiver);
    var end := m.pc + |c| + |LinChain(e.Or?, e.blocks, m.pc + |c|, top, x.inBlock, NO_TARGET)|;
    ChainSize(e.Or?, e.blocks, m.pc + |c|, top, x.inBlock, NO_TARGET, end);
    AtSplit(x.code, m.pc, c, LinChain(e.Or?, e.blocks, m.pc + |c|, top, x.inBlock, end));
    n := SimExpr(x, e.receiver, m, k, true, fuel);
    var m1 := Go(x, m, n);
    var j := ChainAnswers(x, e.Or?, e.blocks, m1, k + Skew(e.receiver), end, fuel);
    GoOn(x, m, n, m1, j);
    n := n + j;
  }

  /** A negated form with an empty block sends not to its receiver, where the tree sends it to
      nil: it is right exactly when the block is not taken, or when both answer the same. */
  lemma NegatedAnswers(x: Script, e: Expr, m: Machine, k: nat, fuel: nat) returns (n: nat)
    requires (e.AndNot? || e.OrNot?) && e.body == [] && m.Running? && x.sem.IdentityIsNative()
    requires Sound(e.receiver, k, true) && At(x.code, m.pc, Lin(e, m.pc, Cells(m) - k, x.inBlock))
    requires Eval(x.sem, e, StateOf(m), fuel).Value?
    ensures var c, o := Go(x, m, n), Eval(x.sem, e, StateOf(m), fuel);
      var r := Eval(x.sem, e.receiver, StateOf(m), fuel);
      && r.Value?
      && (Arrived(c, o.state, m.pc + |Lin(e, m.pc, Cells(m) - k, x.inBlock)|, m.operands) && c.r == o.value
          <==> (r.value == Boolean(e.OrNot?)
                || x.sem.send(Not, false, Boolean(e.AndNot?), [], r.state.world)
                   == x.sem.send(Not, false, Nil, [], r.state.world)))
  {
    hide At, Run, Go, Lin, Eval;
    LinNegated(e, m.pc, Cells(m) - k, x.inBlock);
    EvalLogic(x.sem, e, StateOf(m), fuel);
    var c := Lin(e.receiver, m.pc, Cells(m) - k, x.inBlock);
    var end := m.pc + |c| + 2;
    NoStatements(m.pc + |c| + 1, Cells(m) - k - Skew(e.receiver), x.inBlock);
    AtSplit4(x.code, m.pc, c, [JumpIf(e.OrNot?, end)], [], [Dispatch(Not, false, 0)]);
    n := SimExpr(x, e.receiver, m, k, true, fuel);
    var o := Eval(x.sem, e.receiver, StateOf(m), fuel);
    Next(x, m, n, m.pc + |c|, JumpIf(e.OrNot?, end));
    n := n + 1;
    if o.value != Boolean(e.OrNot?) {
      Next(x, m, n, end - 1, Dispatch(Not, false, 0));
      assert m.operands[|m.operands| - 0..] == [];
      n := n + 1;
    }
  }
}
