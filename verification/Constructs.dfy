/** What the inlined messages come to, said of values and cells alone: which cell an ifNil: block's
    argument is, which values are true and false, how often a counted loop turns. */
module Constructs {
  import opened Trees
  import opened Machine
  import opened Layout
  import opened Runs
  import opened Simulation

  // ---- the arguments of ifNil: and its kin

  /** The temporaries once v has gone to the cell of a block's only argument. */
  function With(temps: seq<Oop>, args: seq<nat>, v: Oop): (r: seq<Oop>)
    requires |args| == 1 ==> 1 <= args[0] <= |temps|
    ensures |r| == |temps|
    ensures forall i :: 0 <= i < |temps| ==> r[i] == if |args| == 1 && i == args[0] - 1 then v else temps[i]
  {
    if |args| == 1 then temps[args[0] - 1 := v] else temps
  }

  /** The receiver of ifNil: or ifNotNil: goes to the cell of the block's argument if it has just
      one, whether the block runs or not; nothing else changes. */
  lemma IfNilGives(sem: Semantics, r: Expr, sense: bool, args: seq<nat>, body: seq<Expr>, s: State, fuel: nat)
    requires Eval(sem, r, s, fuel).Value?
    ensures var o := Eval(sem, r, s, fuel);
      Eval(sem, IfNil(r, sense, Inlined(args, body)), s, fuel)
      == if |args| == 1 && !(1 <= args[0] <= |o.state.temps|) then Undefined
         else
           var s1 := State(With(o.state.temps, args, o.value), o.state.world);
           if (o.value == Nil) == sense then EvalBody(sem, body, s1, fuel) else Value(o.value, s1)
  {
    EvalIfNil(sem, IfNil(r, sense, Inlined(args, body)), s, fuel);
  }

  /** An arm that is not a block leaves all the cells as they are. */
  lemma IfNilGivesPlain(sem: Semantics, r: Expr, sense: bool, e: Expr, s: State, fuel: nat)
    requires Eval(sem, r, s, fuel).Value?
    ensures var o := Eval(sem, r, s, fuel);
      Eval(sem, IfNil(r, sense, Plain(e)), s, fuel)
      == if (o.value == Nil) == sense then Eval(sem, e, o.state, fuel) else Value(o.value, o.state)
  {
    EvalIfNil(sem, IfNil(r, sense, Plain(e)), s, fuel);
  }

  function ArgsOf(arm: Arm): seq<nat> {
    if arm.Inlined? then arm.args else []
  }

  /** With two arms it is the one for values other than nil that may have an argument. */
  lemma IfNilElseGives(sem: Semantics, r: Expr, sense: bool, first: Arm, second: Arm, s: State, fuel: nat)
    requires Eval(sem, r, s, fuel).Value?
    ensures var o, args := Eval(sem, r, s, fuel), ArgsOf(if sense then second else first);
      Eval(sem, IfNilElse(r, sense, first, second), s, fuel)
      == if |args| == 1 && !(1 <= args[0] <= |o.state.temps|) then Undefined
         else
           var s1 := State(With(o.state.temps, args, o.value), o.state.world);
           EvalArm(sem, if (o.value == Nil) == sense then first else second, s1, fuel)
  {
    EvalIfNilElse(sem, IfNilElse(r, sense, first, second), s, fuel);
  }

  /** A run has the receiver in the cell, and on top of the stack, when it gets to the block. */
  lemma ReachesArm(x: Script, r: Expr, sense: bool, args: seq<nat>, body: seq<Expr>, m: Machine, k: nat, fuel: nat)
    returns (n: nat)
    requires m.Running? && x.sem.IdentityIsNative() && Sound(r, k, true)
    requires At(x.code, m.pc, Lin(IfNil(r, sense, Inlined(args, body)), m.pc, Cells(m) - k, x.inBlock))
    requires var o := Eval(x.sem, r, StateOf(m), fuel);
      o.Value? && (|args| == 1 ==> 1 <= args[0] <= |o.state.temps|) && (o.value == Nil) == sense
    ensures var c, o := Go(x, m, n), Eval(x.sem, r, StateOf(m), fuel);
      && c.Running? && c.temps == With(o.state.temps, args, o.value) && c.world == o.state.world
      && c.operands == m.operands + [o.value]
      && c.pc == m.pc + |Lin(r, m.pc, Cells(m) - k, x.inBlock)| + (if |args| == 1 then 10 else 9)
      && At(x.code, c.pc, LinBody(body, c.pc, Cells(m) - k - Skew(r) + 1, x.inBlock))
  {
    hide At, Run, Go, Lin, LinBody, Eval, Sound, Skew;
    var e := IfNil(r, sense, Inlined(args, body));
    LinIfNil(e, m.pc, Cells(m) - k, x.inBlock);
    var c := NilCode(Lin(r, m.pc, Cells(m) - k, x.inBlock), e.arm);
    var b := LinArm(e.arm, m.pc + |c| + 1, Cells(m) - k - Skew(r) + 1, x.inBlock);
    SplitIfNil(x.code, m.pc, c, sense, b);
    n := SimNilHead(x, r, e.arm, m, k, fuel);
    Next(x, m, n, m.pc + |c|, JumpIf(!sense, m.pc + |c| + |b| + 3));
    n := n + 1;
  }

  /** And with two arms, when it gets to the one chosen. */
  lemma ReachesChosenArm(x: Script, r: Expr, sense: bool, first: Arm, second: Arm, m: Machine, k: nat, fuel: nat)
    returns (n: nat)
    requires m.Running? && x.sem.IdentityIsNative() && Sound(r, k, true)
    requires At(x.code, m.pc, Lin(IfNilElse(r, sense, first, second), m.pc, Cells(m) - k, x.inBlock))
    requires var o, args := Eval(x.sem, r, StateOf(m), fuel), ArgsOf(if sense then second else first);
      o.Value? && (|args| == 1 ==> 1 <= args[0] <= |o.state.temps|)
    ensures var c, o := Go(x, m, n), Eval(x.sem, r, StateOf(m), fuel);
      var chosen := if (o.value == Nil) == sense then first else second;
      && c.Running? && c.temps == With(o.state.temps, ArgsOf(if sense then second else first), o.value)
      && c.world == o.state.world && c.operands == m.operands + [o.value]
      && exists top :: At(x.code, c.pc, LinArm(chosen, c.pc, top, x.inBlock))
  {
    hide At, Run, Go, Lin, LinArm, Eval, Sound, Skew, SkewArm;
    var e := IfNilElse(r, sense, first, second);
    LinIfNilElse(e, m.pc, Cells(m) - k, x.inBlock);
    var bound := if sense then second else first;
    var c := NilCode(Lin(r, m.pc, Cells(m) - k, x.inBlock), bound);
    var b1 := LinArm(first, m.pc + |c| + 1, Cells(m) - k - Skew(r) + 1, x.inBlock);
    var b2 := LinArm(second, m.pc + |c| + |b1| + 2, Cells(m) - k - Skew(r) + 1 - SkewArm(first), x.inBlock);
    AtSplit(x.code, m.pc, IfElseCode(m.pc, c, sense, b1, b2), [DropToS(1)]);
    AtSplitIfElse(x.code, m.pc, c, sense, b1, b2);
    n := SimNilHead(x, r, bound, m, k, fuel);
    Next(x, m, n, m.pc + |c|, JumpIf(!sense, m.pc + |c| + |b1| + 2));
    n := n + 1;
  }

  // ---- what is true and what is false

  /** A conditional decides by true and false, and on nothing else. */
  lemma IfGives(sem: Semantics, e: Expr, s: State, fuel: nat)
    requires (e.If? || e.IfElse?) && Eval(sem, e.receiver, s, fuel).Value?
    ensures var o := Eval(sem, e.receiver, s, fuel);
      Eval(sem, e, s, fuel)
      == if o.value != True && o.value != False then Undefined
         else if e.IfElse? then
           EvalBody(sem, if (o.value == True && e.sense) || (o.value == False && !e.sense) then e.first else e.second,
             o.state, fuel)
         else if (o.value == True && e.sense) || (o.value == False && !e.sense) then
           EvalBody(sem, e.body, o.state, fuel)
         else Value(Nil, o.state)
  {
    EvalIf(sem, e, s, fuel);
  }

  lemma JumpsOn(sem: Semantics, sense: bool, target: nat, m: Machine)
    requires m.Running?
    ensures Execute(sem, JumpIf(sense, target), m)
      == m.(pc := if (sense && m.r == True) || (!sense && m.r == False) then target else m.pc + 1)
  {}

  /** and: goes on with the next block on true, or: on false; the first that decides is the answer. */
  lemma {:induction false} ChainGives(sem: Semantics, e: Expr, s: State, fuel: nat)
    requires (e.And? || e.Or?) && Eval(sem, e.receiver, s, fuel).Value? && |e.blocks| == 1
    ensures var o := Eval(sem, e.receiver, s, fuel);
      Eval(sem, e, s, fuel)
      == if o.value != True && o.value != False then Undefined
         else if e.And? <==> o.value == True then EvalBody(sem, e.blocks[0].statements, o.state, fuel)
         else Value(o.value, o.state)
  {
    EvalLogic(sem, e, s, fuel);
    var o := EvalBody(sem, e.blocks[0].statements, Eval(sem, e.receiver, s, fuel).state, fuel);
    assert e.blocks[1..] == [];
    if o.Value? {
      assert EvalChain(sem, Boolean(e.Or?), o.value, e.blocks[1..], o.state, fuel) == o;
    }
  }

  /** With andNot: and orNot: a second value is negated by a message of its own. */
  lemma NegatedGives(sem: Semantics, e: Expr, s: State, fuel: nat)
    requires (e.AndNot? || e.OrNot?) && Eval(sem, e.receiver, s, fuel).Value?
    ensures var o := Eval(sem, e.receiver, s, fuel);
      var o1 := EvalBody(sem, e.body, o.state, fuel);
      Eval(sem, e, s, fuel)
      == if o.value != True && o.value != False then Undefined
         else if e.AndNot? <==> o.value == False then Value(o.value, o.state)
         else if o1.Value? then Perform(sem, Not, false, o1.value, [], o1.state)
         else o1
  {
    EvalLogic(sem, e, s, fuel);
  }

  /** A loop goes on while its test has the value it names, and answers nil. */
  lemma WhileGives(sem: Semantics, e: Expr, s: State, fuel: nat)
    requires (e.WhileUnary? || e.While?) && fuel > 0 && EvalBody(sem, e.condition, s, fuel).Value?
    ensures var o := EvalBody(sem, e.condition, s, fuel);
      var o1 := if e.While? then EvalBody(sem, e.body, o.state, fuel) else o;
      Eval(sem, e, s, fuel)
      == if o.value != True && o.value != False then Undefined
         else if (o.value == True && !e.sense) || (o.value == False && e.sense) then Value(Nil, o.state)
         else if o1.Value? then Eval(sem, e, o1.state, fuel - 1)
         else o1
  {
    var o := EvalBody(sem, e.condition, s, fuel);
    EvalLoop(sem, e, s, fuel);
    EvalLoop(sem, e, o.state, fuel - 1);
    if e.While? && EvalBody(sem, e.body, o.state, fuel).Value? {
      EvalLoop(sem, e, EvalBody(sem, e.body, o.state, fuel).state, fuel - 1);
    }
  }

  // ---- arguments and assignments

  /** Arguments are evaluated from the first to the last, each in the state the others left. */
  lemma {:induction false} ArgumentsInOrder(sem: Semantics, args: seq<Expr>, s: State, fuel: nat, i: nat)
    requires i < |args| && EvalArgs(sem, args, s, fuel).Values?
    ensures var before := EvalArgs(sem, args[..i], s, fuel);
      && before.Values?
      && Eval(sem, args[i], before.state, fuel).Value?
      && EvalArgs(sem, args, s, fuel).values[i] == Eval(sem, args[i], before.state, fuel).value
  {
    hide Eval;
    if i > 0 {
      var o := Eval(sem, args[0], s, fuel);
      ArgumentsInOrder(sem, args[1..], o.state, fuel, i - 1);
      assert args[1..][..i - 1] == args[..i][1..];
    }
  }

  /** An assignment gives its value to every variable of the frame it names, and to no other. */
  lemma {:induction false} StoresGive(sem: Semantics, xs: seq<Variable>, v: Oop, s: State, i: nat)
    requires StoreAll(sem, xs, v, s).Value? && 1 <= i <= |s.temps|
    ensures StoreAll(sem, xs, v, s).state.temps[i - 1] == if Stack(i) in xs then v else s.temps[i - 1]
  {
    if xs != [] {
      match xs[0]
      case Stack(index) => StoresGive(sem, xs[1..], v, SetCell(s, index, v), i);
      case Elsewhere(id) => StoresGive(sem, xs[1..], v, s.(world := sem.store(id, v, s.world)), i);
    }
  }

  /** A variable of the frame has the value in its cell, counted from 1. */
  lemma VariableGives(sem: Semantics, i: nat, s: State, fuel: nat)
    requires 1 <= i <= |s.temps|
    ensures Eval(sem, Identifier(Stack(i)), s, fuel) == Value(s.temps[i - 1], s)
  {
    EvalLeaf(sem, Identifier(Stack(i)), s, fuel);
  }

  /** Statements are evaluated in order, and the last one's value is the answer of a block; a method
      that comes to its end answers self. */
  lemma {:induction false} ScriptGives(sem: Semantics, body: seq<Expr>, last: Expr, s: State, fuel: nat)
    requires EvalBody(sem, body, s, fuel).Value?
    ensures var s1 := EvalBody(sem, body, s, fuel).state;
      var o := Eval(sem, last, s1, fuel);
      && EvalBody(sem, body + [last], s, fuel) == o
      && (o.Value? ==> EvalBlock(sem, body + [last], s, fuel) == Returned(o.value, o.state.world, true))
      && (o.Value? ==> EvalMethod(sem, body + [last], s, fuel) == Returned(sem.self_, o.state.world, true))
  {
    hide Eval;
    var all := body + [last];
    if body == [] {
      assert all == [last];
    } else {
      assert all[1..] == body[1..] + [last] && all[0] == body[0];
      var o := Eval(sem, body[0], s, fuel);
      if |body| > 1 {
        ScriptGives(sem, body[1..], last, o.state, fuel);
      } else {
        assert all[1..] == [last];
        assert EvalBody(sem, [last], o.state, fuel) == Eval(sem, last, o.state, fuel);
      }
    }
  }

  // ---- counted loops

  /** Small integers are added and compared as usual. */
  ghost predicate Arithmetic(sem: Semantics) {
    forall a: int, b: int, w: World ::
      && sem.send(Plus, false, Small(a), [Small(b)], w) == Some((Small(a + b), w))
      && sem.send(GreaterThan, false, Small(a), [Small(b)], w) == Some((if a > b then True else False, w))
  }

  /** A block evaluated a number of times; each turn takes one unit of fuel. */
  function Turns(sem: Semantics, body: seq<Expr>, count: nat, s: State, fuel: nat): Outcome
    decreases count
  {
    if count == 0 then Value(Nil, s)
    else if fuel == 0 then OutOfFuel
    else
      match EvalBody(sem, body, s, fuel)
      case Value(_, s1) => Turns(sem, body, count - 1, s1, fuel - 1)
      case o => o
  }

  lemma {:induction false} TimesLeft(sem: Semantics, e: Expr, i: int, n: int, s: State, fuel: nat)
    requires e.TimesRepeat? && Arithmetic(sem) && n - i + 1 < fuel && 0 < fuel
    ensures var t := Turns(sem, e.body, if i > n then 0 else n - i + 1, s, fuel);
      EvalTimes(sem, e, Small(i), Small(n), s, fuel) == if t.Value? then Value(Small(n), t.state) else t
    decreases n - i + 1
  {
    hide EvalBody;
    assert sem.send(GreaterThan, false, Small(i), [Small(n)], s.world)
      == Some((if i > n then True else False, s.world));
    if i <= n {
      var o := EvalBody(sem, e.body, s, fuel);
      if o.Value? {
        assert sem.send(Plus, false, Small(i), [Small(1)], o.state.world) == Some((Small(i + 1), o.state.world));
        TimesLeft(sem, e, i + 1, n, o.state, fuel - 1);
      }
    }
  }

  /** n timesRepeat: evaluates its block n times, none if n is negative, and answers n. */
  lemma TimesRepeatGives(sem: Semantics, r: Expr, body: seq<Expr>, n: int, s: State, s1: State, fuel: nat)
    requires Arithmetic(sem) && Eval(sem, r, s, fuel) == Value(Small(n), s1) && n < fuel && 0 < fuel
    ensures var t := Turns(sem, body, if n < 0 then 0 else n, s1, fuel);
      Eval(sem, TimesRepeat(r, body), s, fuel) == if t.Value? then Value(Small(n), t.state) else t
  {
    hide EvalTimes, EvalBody;
    EvalCounted(sem, TimesRepeat(r, body), s, fuel);
    TimesLeft(sem, TimesRepeat(r, body), 1, n, s1, fuel);
  }

  function InCell(s: State, k: nat, v: Oop): State
    requires 1 <= k <= |s.temps|
  {
    State(s.temps[k - 1 := v], s.world)
  }

  /** A block evaluated with one number after the other in a cell. */
  function ForEach(sem: Semantics, k: nat, body: seq<Expr>, a: int, b: int, s: State, fuel: nat): Outcome
    requires 1 <= k <= |s.temps|
    decreases b - a + 1
  {
    if a > b then Value(Nil, InCell(s, k, Small(a)))
    else if fuel == 0 then OutOfFuel
    else
      match EvalBody(sem, body, InCell(s, k, Small(a)), fuel)
      case Value(_, s1) => ForEach(sem, k, body, a + 1, b, s1, fuel - 1)
      case o => o
  }

  /** The block does not assign to the loop's variable. */
  ghost predicate LeavesAlone(sem: Semantics, body: seq<Expr>, k: nat) {
    forall s: State, fuel: nat ::
      var o := EvalBody(sem, body, s, fuel); o.Value? && 1 <= k <= |s.temps| ==> o.state.temps[k - 1] == s.temps[k - 1]
  }

  lemma {:induction false} ToDoLeft(sem: Semantics, e: Expr, first: Oop, i: int, b: int, s: State, fuel: nat)
    requires e.ToDo? && Arithmetic(sem) && 1 <= e.index <= |s.temps| && s.temps[e.index - 1] == Small(i)
    requires LeavesAlone(sem, e.body, e.index) && b - i + 1 < fuel && 0 < fuel
    ensures var t := ForEach(sem, e.index, e.body, i, b, s, fuel);
      EvalToDo(sem, e, first, Small(b), s, fuel) == if t.Value? then Value(first, t.state) else t
    decreases b - i + 1
  {
    hide EvalBody;
    assert InCell(s, e.index, Small(i)) == s;
    assert sem.send(GreaterThan, false, Small(i), [Small(b)], s.world)
      == Some((if i > b then True else False, s.world));
    EvalToDoTurn(sem, e, first, Small(b), s, fuel);
    hide EvalToDo;
    if i <= b {
      var o := EvalBody(sem, e.body, s, fuel);
      if o.Value? {
        assert sem.send(Plus, false, Small(i), [Small(1)], o.state.world) == Some((Small(i + 1), o.state.world));
        var s1 := SetCell(o.state, e.index, Small(i + 1));
        ToDoLeft(sem, e, first, i + 1, b, s1, fuel - 1);
        SameStart(sem, e.index, e.body, i + 1, b, o.state, fuel - 1);
      }
    }
  }

  /** Whatever was in the cell before. */
  lemma SameStart(sem: Semantics, k: nat, body: seq<Expr>, a: int, b: int, s: State, fuel: nat)
    requires 1 <= k <= |s.temps|
    ensures ForEach(sem, k, body, a, b, InCell(s, k, Small(a)), fuel) == ForEach(sem, k, body, a, b, s, fuel)
  {
    hide EvalBody;
    assert InCell(InCell(s, k, Small(a)), k, Small(a)) == InCell(s, k, Small(a));
  }

  /** a to: b do: evaluates its block with a, a + 1, ..., b in its variable's cell and answers a. */
  lemma ToDoGives(sem: Semantics, k: nat, r: Expr, limit: Expr, body: seq<Expr>, a: int, b: int, s: State, s1: State,
                  s2: State, fuel: nat)
    requires Arithmetic(sem) && LeavesAlone(sem, body, k) && b - a + 1 < fuel && 0 < fuel
    requires Eval(sem, r, s, fuel) == Value(Small(a), s1) && 1 <= k <= |s1.temps|
    requires Eval(sem, limit, InCell(s1, k, Small(a)), fuel) == Value(Small(b), s2) && s2.temps[k - 1] == Small(a)
    ensures 1 <= k <= |s2.temps|
    ensures var t := ForEach(sem, k, body, a, b, s2, fuel);
      Eval(sem, ToDo(k, r, limit, body), s, fuel) == if t.Value? then Value(Small(a), t.state) else t
  {
    hide EvalToDo, EvalBody, ForEach, LeavesAlone;
    var e := ToDo(k, r, limit, body);
    EvalCounted(sem, e, s, fuel);
    ToDoLeft(sem, e, Small(a), a, b, s2, fuel);
  }

  // ---- trees that are sound

  /** No inlined loops, no inlined block without statements, and no ifNil: with one arm. */
  predicate Simple(e: Expr)
    decreases e, 1
  {
    match e
    case Literal(_) => true
    case Identifier(_) => true
    case Closure(_, _, _) => true
    case Assignment(_, e1) => Simple(e1)
    case Send(r, _, args, _) => Simple(r) && AllSimple(args)
    case Cascade(r, messages, _) => Simple(r) && MessagesSimple(messages)
    case Return(_, e1) => Simple(e1)
    case If(r, _, body) => Simple(r) && body != [] && AllSimple(body)
    case IfElse(r, _, first, second) =>
      Simple(r) && first != [] && second != [] && AllSimple(first) && AllSimple(second)
    case IfNilElse(r, _, first, second) => Simple(r) && ArmSimple(first) && ArmSimple(second)
    case And(r, blocks) => Simple(r) && BlocksSimple(blocks)
    case Or(r, blocks) => Simple(r) && BlocksSimple(blocks)
    case AndNot(r, body) => Simple(r) && body != [] && AllSimple(body)
    case OrNot(r, body) => Simple(r) && body != [] && AllSimple(body)
    case _ => false
  }

  predicate AllSimple(es: seq<Expr>)
    decreases es, 0
  {
    es != [] ==> Simple(es[0]) && AllSimple(es[1..])
  }

  predicate MessagesSimple(messages: seq<Message>)
    decreases messages, 0
  {
    messages != [] ==> AllSimple(messages[0].args) && MessagesSimple(messages[1..])
  }

  predicate BlocksSimple(blocks: seq<Block>)
    decreases blocks, 0
  {
    blocks != [] ==> blocks[0].statements != [] && AllSimple(blocks[0].statements) && BlocksSimple(blocks[1..])
  }

  predicate ArmSimple(arm: Arm)
    decreases arm, 2
  {
    match arm
    case Inlined(_, statements) => statements != [] && AllSimple(statements)
    case Plain(e) => Simple(e)
  }

  /** Such trees are sound wherever they stand. */
  lemma {:induction false} SimpleIsSound(e: Expr, k: nat, observed: bool)
    requires Simple(e)
    ensures Sound(e, k, observed) && Skew(e) == 0
    decreases e, 1
  {
    match e
    case Literal(_) =>
    case Identifier(_) =>
    case Closure(_, _, _) =>
    case Assignment(_, e1) => SimpleIsSound(e1, k, true);
    case Send(r, _, args, _) =>
      SimpleIsSound(r, k, true);
      SimpleArgs(args, k);
    case Cascade(r, messages, _) =>
      SimpleIsSound(r, k, true);
      SimpleMessages(messages, k);
    case Return(_, e1) => SimpleIsSound(e1, k, true);
    case If(r, _, body) =>
      SimpleIsSound(r, k, true);
      SimpleBody(body, k, observed);
    case IfElse(r, _, first, second) =>
      SimpleIsSound(r, k, true);
      SimpleBody(first, k, observed);
      SimpleBody(second, k, observed);
    case IfNilElse(r, _, first, second) =>
      SimpleIsSound(r, k, true);
      SimpleArm(first, k, observed);
      SimpleArm(second, k, observed);
    case And(r, blocks) =>
      SimpleIsSound(r, k, true);
      SimpleBlocks(blocks, k, observed);
    case Or(r, blocks) =>
      SimpleIsSound(r, k, true);
      SimpleBlocks(blocks, k, observed);
    case AndNot(r, body) =>
      SimpleIsSound(r, k, true);
      SimpleBody(body, k, true);
    case OrNot(r, body) =>
      SimpleIsSound(r, k, true);
      SimpleBody(body, k, true);
  }

  lemma {:induction false} SimpleArgs(args: seq<Expr>, k: nat)
    requires AllSimple(args)
    ensures SoundArgs(args, k) && SkewAll(args) == 0
    decreases args, 0
  {
    hide Simple, Sound, Skew;
    if args != [] {
      SimpleIsSound(args[0], k, true);
      SimpleArgs(args[1..], k);
    }
  }

  lemma {:induction false} SimpleMessages(messages: seq<Message>, k: nat)
    requires MessagesSimple(messages)
    ensures SoundMessages(messages, k) && SkewMessages(messages) == 0
    decreases messages, 0
  {
    hide AllSimple, SoundArgs, SkewAll;
    if messages != [] {
      SimpleArgs(messages[0].args, k);
      SimpleMessages(messages[1..], k);
    }
  }

  lemma {:induction false} SimpleBody(body: seq<Expr>, k: nat, observed: bool)
    requires AllSimple(body) && (body != [] || !observed)
    ensures SoundBody(body, k, observed) && SkewAll(body) == 0
    decreases body, 0
  {
    hide Simple, Sound, Skew;
    if body != [] {
      SimpleIsSound(body[0], k, |body| == 1 && observed);
      SimpleBody(body[1..], k, |body| > 1 && observed);
    }
  }

  lemma {:induction false} SimpleBlocks(blocks: seq<Block>, k: nat, observed: bool)
    requires BlocksSimple(blocks)
    ensures SoundBlocks(blocks, k, observed) && SkewBlocks(blocks) == 0
    decreases blocks, 0
  {
    hide AllSimple, SoundBody, SkewAll;
    if blocks != [] {
      SimpleBody(blocks[0].statements, k, observed || |blocks| > 1);
      SimpleBlocks(blocks[1..], k, observed);
    }
  }

  lemma {:induction false} SimpleArm(arm: Arm, k: nat, observed: bool)
    requires ArmSimple(arm)
    ensures SoundArm(arm, k, observed) && SkewArm(arm) == 0
    decreases arm, 2
  {
    hide AllSimple, Simple, SoundBody, Sound, SkewAll, Skew;
    match arm
    case Inlined(_, statements) => SimpleBody(statements, k, observed);
    case Plain(e) => SimpleIsSound(e, k, observed);
  }

  /** And so is every kind of loop over them whose value is not looked at. */
  lemma SimpleLoops(e: Expr)
    requires match e
      case WhileUnary(_, condition) => condition != [] && AllSimple(condition)
      case While(_, condition, body) => condition != [] && AllSimple(condition) && AllSimple(body)
      case Repeat(body) => AllSimple(body)
      case ToDo(_, r, limit, body) => Simple(r) && Simple(limit) && AllSimple(body)
      case TimesRepeat(r, body) => Simple(r) && AllSimple(body)
      case _ => false
    ensures Sound(e, 0, false)
  {
    hide AllSimple, Simple, SoundBody, SkewAll, Skew;
    match e
    case WhileUnary(_, condition) => SimpleBody(condition, 0, true);
    case While(_, condition, body) =>
      SimpleBody(condition, 0, true);
      SimpleBody(body, 0, false);
    case Repeat(body) => SimpleBody(body, 0, false);
    case ToDo(_, r, limit, body) =>
      SimpleIsSound(r, 0, true);
      SimpleIsSound(limit, 0, true);
      SimpleBody(body, 0, false);
    case TimesRepeat(r, body) =>
      SimpleIsSound(r, 0, true);
      SimpleBody(body, 0, false);
  }
}
