/** Expression trees of a script, with the sends the compiler inlined told apart, and what the
    trees mean in Smalltalk. */
module Trees {

  datatype Option<+T> = None | Some(value: T)

  /** The state outside the running frame: objects, environments, globals. */
  type World(!new)

  datatype Oop = Nil | True | False | Small(n: int) | Pointer(id: nat)

  datatype Selector = Plus | GreaterThan | EqualsEquals | Not | Named(name: string)

  /** A variable in a cell of the frame (1-based), or anywhere else. */
  datatype Variable = Stack(index: nat) | Elsewhere(id: nat)

  datatype Message = Message(selector: Selector, args: seq<Expr>)

  datatype Block = Block(statements: seq<Expr>)

  /** An argument of ifNil: and its kin: an inlined block, or an expression that is not a block. */
  datatype Arm = Inlined(args: seq<nat>, statements: seq<Expr>) | Plain(expression: Expr)

  datatype Expr =
    | Literal(value: Oop)
    | Identifier(variable: Variable)
    | Closure(id: nat, tempCount: nat, body: seq<Expr>)
    | Assignment(assignees: seq<Variable>, expression: Expr)
    | Send(receiver: Expr, selector: Selector, args: seq<Expr>, toSuper: bool)
    | Cascade(receiver: Expr, messages: seq<Message>, toSuper: bool)
    | Return(local: bool, expression: Expr)
    | If(receiver: Expr, sense: bool, body: seq<Expr>)
    | IfElse(receiver: Expr, sense: bool, first: seq<Expr>, second: seq<Expr>)
    | IfNil(receiver: Expr, sense: bool, arm: Arm)
    | IfNilElse(receiver: Expr, sense: bool, firstArm: Arm, secondArm: Arm)
    | WhileUnary(sense: bool, condition: seq<Expr>)
    | While(sense: bool, condition: seq<Expr>, body: seq<Expr>)
    | Repeat(body: seq<Expr>)
    | ToDo(index: nat, receiver: Expr, limit: Expr, body: seq<Expr>)
    | TimesRepeat(receiver: Expr, body: seq<Expr>)
    | And(receiver: Expr, blocks: seq<Block>)
    | Or(receiver: Expr, blocks: seq<Block>)
    | AndNot(receiver: Expr, body: seq<Expr>)
    | OrNot(receiver: Expr, body: seq<Expr>)

  /** What is not decided by the tree: sends, variables outside the frame, closures, self.
      A send answers None when control does not come back to the sender. */
  datatype Semantics = Semantics(
    send: (Selector, bool, Oop, seq<Oop>, World) -> Option<(Oop, World)>,
    load: (nat, World) -> Oop,
    store: (nat, Oop, World) -> World,
    capture: (nat, seq<Oop>, World) -> (Oop, World),
    self_: Oop)
  {
    /** `== nil` answers identity and nothing else happens, whatever the receiver. */
    ghost predicate IdentityIsNative() {
      forall v: Oop, w: World :: send(EqualsEquals, false, v, [Nil], w) == Some((Boolean(v == Nil), w))
    }
  }

  function Boolean(b: bool): Oop {
    if b then True else False
  }

  predicate IsBoolean(v: Oop) {
    v.True? || v.False?
  }

  /** The running script's variables and the rest of the world. */
  datatype State = State(temps: seq<Oop>, world: World)

  /** How the evaluation of a tree ends: with a value; by returning from the script, locally or
      not; not within the fuel; or outside what the language defines (a condition that is not a
      boolean, a send that does not come back, a cell the frame does not have). */
  datatype Outcome =
    | Value(value: Oop, state: State)
    | Returned(value: Oop, world: World, local: bool)
    | OutOfFuel
    | Undefined

  datatype Arguments = Values(values: seq<Oop>, state: State) | Stopped(outcome: Outcome)

  predicate HasCell(s: State, index: nat) {
    1 <= index <= |s.temps|
  }

  function SetCell(s: State, index: nat, v: Oop): State
    requires HasCell(s, index)
  {
    s.(temps := s.temps[index - 1 := v])
  }

  function Load(sem: Semantics, x: Variable, s: State): Outcome {
    match x
    case Stack(index) => if HasCell(s, index) then Value(s.temps[index - 1], s) else Undefined
    case Elsewhere(id) => Value(sem.load(id, s.world), s)
  }

  function StoreAll(sem: Semantics, xs: seq<Variable>, v: Oop, s: State): (o: Outcome)
    ensures o.Value? ==> |o.state.temps| == |s.temps| && o.value == v
    ensures o.Value? || o.Undefined?
  {
    if xs == [] then Value(v, s) else
    match xs[0]
    case Stack(index) => if HasCell(s, index) then StoreAll(sem, xs[1..], v, SetCell(s, index, v)) else Undefined
    case Elsewhere(id) => StoreAll(sem, xs[1..], v, s.(world := sem.store(id, v, s.world)))
  }

  function Perform(sem: Semantics, selector: Selector, toSuper: bool, receiver: Oop, args: seq<Oop>,
                   s: State): (o: Outcome)
    ensures o.Value? ==> o.state.temps == s.temps
    ensures o.Value? || o.Undefined?
  {
    match sem.send(selector, toSuper, receiver, args, s.world)
    case None => Undefined
    case Some(p) => Value(p.0, s.(world := p.1))
  }

  /** The cell of an arm's argument, when the arm has exactly one. */
  function ArmCell(arm: Arm): Option<nat> {
    if arm.Inlined? && |arm.args| == 1 then Some(arm.args[0]) else None
  }

  function Bind(arm: Arm, v: Oop, s: State): (o: Outcome)
    ensures o.Value? ==> |o.state.temps| == |s.temps| && o.value == v
    ensures o.Value? || o.Undefined?
  {
    match ArmCell(arm)
    case None => Value(v, s)
    case Some(index) => if HasCell(s, index) then Value(v, SetCell(s, index, v)) else Undefined
  }

  /** The value of a tree. Loops take one unit of fuel for each turn. */
  function Eval(sem: Semantics, e: Expr, s: State, fuel: nat): (o: Outcome)
    ensures o.Value? ==> |o.state.temps| == |s.temps|
    decreases fuel, e, 2
  {
    match e
    case Literal(v) => Value(v, s)
    case Identifier(x) => Load(sem, x, s)
    case Closure(id, _, _) =>
      var (v, w) := sem.capture(id, s.temps, s.world);
      Value(v, s.(world := w))
    case Assignment(xs, e1) =>
      (match Eval(sem, e1, s, fuel)
       case Value(v, s1) => StoreAll(sem, xs, v, s1)
       case o => o)
    case Send(r, selector, args, toSuper) =>
      (match Eval(sem, r, s, fuel)
       case Value(v, s1) =>
         (match EvalArgs(sem, args, s1, fuel)
          case Values(vs, s2) => Perform(sem, selector, toSuper, v, vs, s2)
          case Stopped(o) => o)
       case o => o)
    case Cascade(r, messages, toSuper) =>
      (match Eval(sem, r, s, fuel)
       case Value(v, s1) => EvalMessages(sem, messages, toSuper, v, v, s1, fuel)
       case o => o)
    case Return(local, e1) =>
      (match Eval(sem, e1, s, fuel)
       case Value(v, s1) => Returned(v, s1.world, local)
       case o => o)
    case If(r, sense, body) =>
      (match Eval(sem, r, s, fuel)
       case Value(v, s1) =>
         if !IsBoolean(v) then Undefined
         else if v == Boolean(sense) then EvalBody(sem, body, s1, fuel)
         else Value(Nil, s1)
       case o => o)
    case IfElse(r, sense, first, second) =>
      (match Eval(sem, r, s, fuel)
       case Value(v, s1) =>
         if !IsBoolean(v) then Undefined
         else EvalBody(sem, if v == Boolean(sense) then first else second, s1, fuel)
       case o => o)
    case IfNil(r, sense, arm) =>
      (match Eval(sem, r, s, fuel)
       case Value(v, s1) =>
         (match Bind(arm, v, s1)
          case Value(_, s2) => if (v == Nil) == sense then EvalArm(sem, arm, s2, fuel) else Value(v, s2)
          case o => o)
       case o => o)
    case IfNilElse(r, sense, firstArm, secondArm) =>
      (match Eval(sem, r, s, fuel)
       case Value(v, s1) =>
         (match Bind(if sense then secondArm else firstArm, v, s1)
          case Value(_, s2) => EvalArm(sem, if (v == Nil) == sense then firstArm else secondArm, s2, fuel)
          case o => o)
       case o => o)
    case WhileUnary(_, _) => EvalWhile(sem, e, s, fuel)
    case While(_, _, _) => EvalWhile(sem, e, s, fuel)
    case Repeat(_) => EvalWhile(sem, e, s, fuel)
    case ToDo(index, r, limit, body) =>
      (match Eval(sem, r, s, fuel)
       case Value(v, s1) =>
         if !HasCell(s1, index) then Undefined else
         (match Eval(sem, limit, SetCell(s1, index, v), fuel)
          case Value(last, s2) => EvalToDo(sem, e, v, last, s2, fuel)
          case o => o)
       case o => o)
    case TimesRepeat(r, body) =>
      (match Eval(sem, r, s, fuel)
       case Value(v, s1) => EvalTimes(sem, e, Small(1), v, s1, fuel)
       case o => o)
    case And(r, blocks) =>
      (match Eval(sem, r, s, fuel)
       case Value(v, s1) => EvalChain(sem, False, v, blocks, s1, fuel)
       case o => o)
    case Or(r, blocks) =>
      (match Eval(sem, r, s, fuel)
       case Value(v, s1) => EvalChain(sem, True, v, blocks, s1, fuel)
       case o => o)
    case AndNot(r, body) =>
      (match Eval(sem, r, s, fuel)
       case Value(v, s1) => EvalNegated(sem, False, v, body, s1, fuel)
       case o => o)
    case OrNot(r, body) =>
      (match Eval(sem, r, s, fuel)
       case Value(v, s1) => EvalNegated(sem, True, v, body, s1, fuel)
       case o => o)
  }

  function EvalArgs(sem: Semantics, args: seq<Expr>, s: State, fuel: nat): (a: Arguments)
    ensures a.Values? ==> |a.values| == |args| && |a.state.temps| == |s.temps|
    ensures a.Stopped? ==> !a.outcome.Value?
    decreases fuel, args, 0
  {
    if args == [] then Values([], s) else
    match Eval(sem, args[0], s, fuel)
    case Value(v, s1) =>
      (match EvalArgs(sem, args[1..], s1, fuel)
       case Values(vs, s2) => Values([v] + vs, s2)
       case a => a)
    case o => Stopped(o)
  }

  /** The messages of a cascade, all to the same receiver; answers the value of the last one. */
  function EvalMessages(sem: Semantics, messages: seq<Message>, toSuper: bool, receiver: Oop, last: Oop, s: State,
                        fuel: nat): (o: Outcome)
    ensures o.Value? ==> |o.state.temps| == |s.temps|
    decreases fuel, messages, 0
  {
    if messages == [] then Value(last, s) else
    match EvalArgs(sem, messages[0].args, s, fuel)
    case Values(vs, s1) =>
      (match Perform(sem, messages[0].selector, toSuper, receiver, vs, s1)
       case Value(v, s2) => EvalMessages(sem, messages[1..], toSuper, receiver, v, s2, fuel)
       case o => o)
    case Stopped(o) => o
  }

  /** The statements of a block; an empty block answers nil. */
  function EvalBody(sem: Semantics, body: seq<Expr>, s: State, fuel: nat): (o: Outcome)
    ensures o.Value? ==> |o.state.temps| == |s.temps|
    decreases fuel, body, 0
  {
    if body == [] then Value(Nil, s) else
    match Eval(sem, body[0], s, fuel)
    case Value(v, s1) => if |body| == 1 then Value(v, s1) else EvalBody(sem, body[1..], s1, fuel)
    case o => o
  }

  function EvalArm(sem: Semantics, arm: Arm, s: State, fuel: nat): (o: Outcome)
    ensures o.Value? ==> |o.state.temps| == |s.temps|
    decreases fuel, arm, 3
  {
    match arm
    case Inlined(_, statements) => EvalBody(sem, statements, s, fuel)
    case Plain(expression) => Eval(sem, expression, s, fuel)
  }

  /** whileTrue, whileTrue: and their negative forms answer nil; repeat goes on until a return. */
  function EvalWhile(sem: Semantics, e: Expr, s: State, fuel: nat): (o: Outcome)
    requires e.WhileUnary? || e.While? || e.Repeat?
    ensures o.Value? ==> |o.state.temps| == |s.temps|
    decreases fuel, e, 1
  {
    if fuel == 0 then OutOfFuel else
    match e
    case WhileUnary(sense, condition) =>
      (match EvalBody(sem, condition, s, fuel)
       case Value(v, s1) =>
         if !IsBoolean(v) then Undefined
         else if v == Boolean(sense) then EvalWhile(sem, e, s1, fuel - 1)
         else Value(Nil, s1)
       case o => o)
    case While(sense, condition, body) =>
      (match EvalBody(sem, condition, s, fuel)
       case Value(v, s1) =>
         if !IsBoolean(v) then Undefined
         else if v == Boolean(sense) then
           (match EvalBody(sem, body, s1, fuel)
            case Value(_, s2) => EvalWhile(sem, e, s2, fuel - 1)
            case o => o)
         else Value(Nil, s1)
       case o => o)
    case Repeat(body) =>
      (match EvalBody(sem, body, s, fuel)
       case Value(_, s1) => EvalWhile(sem, e, s1, fuel - 1)
       case o => o)
  }

  /** The turns of to:do:, the loop variable in its cell; answers the receiver. */
  function EvalToDo(sem: Semantics, e: Expr, first: Oop, last: Oop, s: State, fuel: nat): (o: Outcome)
    requires e.ToDo? && HasCell(s, e.index)
    ensures o.Value? ==> |o.state.temps| == |s.temps|
    decreases fuel, e, 1
  {
    if fuel == 0 then OutOfFuel else
    match Perform(sem, GreaterThan, false, s.temps[e.index - 1], [last], s)
    case Value(v, s1) =>
      if !IsBoolean(v) then Undefined
      else if v == True then Value(first, s1)
      else
        (match EvalBody(sem, e.body, s1, fuel)
         case Value(_, s2) =>
           (match Perform(sem, Plus, false, s2.temps[e.index - 1], [Small(1)], s2)
            case Value(next, s3) => EvalToDo(sem, e, first, last, SetCell(s3, e.index, next), fuel - 1)
            case o => o)
         case o => o)
    case o => o
  }

  /** The turns of timesRepeat:, counting from one; answers the receiver. */
  function EvalTimes(sem: Semantics, e: Expr, count: Oop, last: Oop, s: State, fuel: nat): (o: Outcome)
    requires e.TimesRepeat?
    ensures o.Value? ==> |o.state.temps| == |s.temps|
    decreases fuel, e, 1
  {
    if fuel == 0 then OutOfFuel else
    match Perform(sem, GreaterThan, false, count, [last], s)
    case Value(v, s1) =>
      if !IsBoolean(v) then Undefined
      else if v == True then Value(last, s1)
      else
        (match EvalBody(sem, e.body, s1, fuel)
         case Value(_, s2) =>
           (match Perform(sem, Plus, false, count, [Small(1)], s2)
            case Value(next, s3) => EvalTimes(sem, e, next, last, s3, fuel - 1)
            case o => o)
         case o => o)
    case o => o
  }

  /** and: (stop at False) and or: (stop at True), one block after the other. */
  function EvalChain(sem: Semantics, stop: Oop, v: Oop, blocks: seq<Block>, s: State, fuel: nat): (o: Outcome)
    ensures o.Value? ==> |o.state.temps| == |s.temps|
    decreases fuel, blocks, 0
  {
    if blocks == [] then Value(v, s)
    else if !IsBoolean(v) then Undefined
    else if v == stop then Value(v, s)
    else
      match EvalBody(sem, blocks[0].statements, s, fuel)
      case Value(v1, s1) => EvalChain(sem, stop, v1, blocks[1..], s1, fuel)
      case o => o
  }

  /** andNot: and orNot:. */
  function EvalNegated(sem: Semantics, stop: Oop, v: Oop, body: seq<Expr>, s: State, fuel: nat): (o: Outcome)
    ensures o.Value? ==> |o.state.temps| == |s.temps|
    decreases fuel, body, 1
  {
    if !IsBoolean(v) then Undefined
    else if v == stop then Value(v, s)
    else
      match EvalBody(sem, body, s, fuel)
      case Value(v1, s1) => Perform(sem, Not, false, v1, [], s1)
      case o => o
  }

  /** A method: self unless a statement returns. */
  function EvalMethod(sem: Semantics, body: seq<Expr>, s: State, fuel: nat): Outcome {
    match EvalBody(sem, body, s, fuel)
    case Value(_, s1) => Returned(sem.self_, s1.world, true)
    case o => o
  }

  /** A closure: the value of its last statement; a return statement leaves the method. */
  function EvalBlock(sem: Semantics, body: seq<Expr>, s: State, fuel: nat): Outcome {
    match EvalBody(sem, body, s, fuel)
    case Value(v, s1) => Returned(v, s1.world, true)
    case Returned(v, w, _) => Returned(v, w, false)
    case o => o
  }

  // ---- one level of `Eval`

  lemma EvalLeaf(sem: Semantics, e: Expr, s: State, fuel: nat)
    ensures e.Literal? ==> Eval(sem, e, s, fuel) == Value(e.value, s)
    ensures e.Identifier? ==> Eval(sem, e, s, fuel) == Load(sem, e.variable, s)
    ensures e.Closure? ==>
      var p := sem.capture(e.id, s.temps, s.world);
      Eval(sem, e, s, fuel) == Value(p.0, s.(world := p.1))
    ensures e.Assignment? ==>
      var o := Eval(sem, e.expression, s, fuel);
      Eval(sem, e, s, fuel) == if o.Value? then StoreAll(sem, e.assignees, o.value, o.state) else o
    ensures e.Return? ==>
      var o := Eval(sem, e.expression, s, fuel);
      Eval(sem, e, s, fuel) == if o.Value? then Returned(o.value, o.state.world, e.local) else o
  {}

  lemma EvalSend(sem: Semantics, e: Expr, s: State, fuel: nat)
    requires e.Send? || e.Cascade?
    ensures var o := Eval(sem, e.receiver, s, fuel);
      if !o.Value? then Eval(sem, e, s, fuel) == o
      else if e.Cascade? then
        Eval(sem, e, s, fuel) == EvalMessages(sem, e.messages, e.toSuper, o.value, o.value, o.state, fuel)
      else
        var a := EvalArgs(sem, e.args, o.state, fuel);
        Eval(sem, e, s, fuel)
        == if a.Stopped? then a.outcome else Perform(sem, e.selector, e.toSuper, o.value, a.values, a.state)
  {}

  lemma EvalIf(sem: Semantics, e: Expr, s: State, fuel: nat)
    requires e.If? || e.IfElse?
    ensures var o := Eval(sem, e.receiver, s, fuel);
      if !o.Value? then Eval(sem, e, s, fuel) == o
      else if !IsBoolean(o.value) then Eval(sem, e, s, fuel) == Undefined
      else if e.If? then
        Eval(sem, e, s, fuel)
        == if o.value == Boolean(e.sense) then EvalBody(sem, e.body, o.state, fuel) else Value(Nil, o.state)
      else
        Eval(sem, e, s, fuel)
        == EvalBody(sem, if o.value == Boolean(e.sense) then e.first else e.second, o.state, fuel)
  {}

  lemma EvalIfNil(sem: Semantics, e: Expr, s: State, fuel: nat)
    requires e.IfNil?
    ensures var o := Eval(sem, e.receiver, s, fuel);
      if !o.Value? then Eval(sem, e, s, fuel) == o
      else
        var b := Bind(e.arm, o.value, o.state);
        Eval(sem, e, s, fuel)
        == if !b.Value? then b
           else if (o.value == Nil) == e.sense then EvalArm(sem, e.arm, b.state, fuel)
           else Value(o.value, b.state)
  {}

  lemma EvalIfNilElse(sem: Semantics, e: Expr, s: State, fuel: nat)
    requires e.IfNilElse?
    ensures var o := Eval(sem, e.receiver, s, fuel);
      if !o.Value? then Eval(sem, e, s, fuel) == o
      else
        var b := Bind(if e.sense then e.secondArm else e.firstArm, o.value, o.state);
        Eval(sem, e, s, fuel)
        == if !b.Value? then b
           else EvalArm(sem, if (o.value == Nil) == e.sense then e.firstArm else e.secondArm, b.state, fuel)
  {}

  lemma EvalLoop(sem: Semantics, e: Expr, s: State, fuel: nat)
    requires e.WhileUnary? || e.While? || e.Repeat?
    ensures Eval(sem, e, s, fuel) == EvalWhile(sem, e, s, fuel)
  {}

  lemma EvalCounted(sem: Semantics, e: Expr, s: State, fuel: nat)
    requires e.ToDo? || e.TimesRepeat?
    ensures var o := Eval(sem, e.receiver, s, fuel);
      if !o.Value? then Eval(sem, e, s, fuel) == o
      else if e.TimesRepeat? then Eval(sem, e, s, fuel) == EvalTimes(sem, e, Small(1), o.value, o.state, fuel)
      else if !HasCell(o.state, e.index) then Eval(sem, e, s, fuel) == Undefined
      else
        var l := Eval(sem, e.limit, SetCell(o.state, e.index, o.value), fuel);
        Eval(sem, e, s, fuel) == if !l.Value? then l else EvalToDo(sem, e, o.value, l.value, l.state, fuel)
  {}

  lemma EvalToDoTurn(sem: Semantics, e: Expr, first: Oop, last: Oop, s: State, fuel: nat)
    requires e.ToDo? && HasCell(s, e.index)
    ensures fuel == 0 ==> EvalToDo(sem, e, first, last, s, fuel) == OutOfFuel
    ensures fuel > 0 ==>
      var o := Perform(sem, GreaterThan, false, s.temps[e.index - 1], [last], s);
      if !o.Value? then EvalToDo(sem, e, first, last, s, fuel) == o
      else if !IsBoolean(o.value) then EvalToDo(sem, e, first, last, s, fuel) == Undefined
      else if o.value == True then EvalToDo(sem, e, first, last, s, fuel) == Value(first, o.state)
      else
        var o1 := EvalBody(sem, e.body, o.state, fuel);
        if !o1.Value? then EvalToDo(sem, e, first, last, s, fuel) == o1
        else
          var o2 := Perform(sem, Plus, false, o1.state.temps[e.index - 1], [Small(1)], o1.state);
          EvalToDo(sem, e, first, last, s, fuel)
          == if o2.Value? then EvalToDo(sem, e, first, last, SetCell(o2.state, e.index, o2.value), fuel - 1) else o2
  {}

  lemma EvalTimesTurn(sem: Semantics, e: Expr, count: Oop, last: Oop, s: State, fuel: nat)
    requires e.TimesRepeat?
    ensures fuel == 0 ==> EvalTimes(sem, e, count, last, s, fuel) == OutOfFuel
    ensures fuel > 0 ==>
      var o := Perform(sem, GreaterThan, false, count, [last], s);
      if !o.Value? then EvalTimes(sem, e, count, last, s, fuel) == o
      else if !IsBoolean(o.value) then EvalTimes(sem, e, count, last, s, fuel) == Undefined
      else if o.value == True then EvalTimes(sem, e, count, last, s, fuel) == Value(last, o.state)
      else
        var o1 := EvalBody(sem, e.body, o.state, fuel);
        if !o1.Value? then EvalTimes(sem, e, count, last, s, fuel) == o1
        else
          var o2 := Perform(sem, Plus, false, count, [Small(1)], o1.state);
          EvalTimes(sem, e, count, last, s, fuel)
          == if o2.Value? then EvalTimes(sem, e, o2.value, last, o2.state, fuel - 1) else o2
  {}

  lemma EvalMessagesCons(sem: Semantics, messages: seq<Message>, toSuper: bool, receiver: Oop, last: Oop, s: State,
                         fuel: nat)
    ensures messages == [] ==> EvalMessages(sem, messages, toSuper, receiver, last, s, fuel) == Value(last, s)
    ensures messages != [] ==>
      var a := EvalArgs(sem, messages[0].args, s, fuel);
      if a.Stopped? then EvalMessages(sem, messages, toSuper, receiver, last, s, fuel) == a.outcome
      else
        var o := Perform(sem, messages[0].selector, toSuper, receiver, a.values, a.state);
        EvalMessages(sem, messages, toSuper, receiver, last, s, fuel)
        == if o.Value? then EvalMessages(sem, messages[1..], toSuper, receiver, o.value, o.state, fuel) else o
  {}

  lemma EvalLogic(sem: Semantics, e: Expr, s: State, fuel: nat)
    requires e.And? || e.Or? || e.AndNot? || e.OrNot?
    ensures var o := Eval(sem, e.receiver, s, fuel);
      var stop := Boolean(e.Or? || e.OrNot?);
      if !o.Value? then Eval(sem, e, s, fuel) == o
      else if e.And? || e.Or? then Eval(sem, e, s, fuel) == EvalChain(sem, stop, o.value, e.blocks, o.state, fuel)
      else Eval(sem, e, s, fuel) == EvalNegated(sem, stop, o.value, e.body, o.state, fuel)
  {}
}
