/** The evaluator's operations and what each does to register R, the pc and the frame. */
module Machine {
  import opened Trees

  datatype Op =
    | LoadLiteral(value: Oop)
    | LoadVariable(variable: Variable)
    | MakeClosure(id: nat, tempCount: nat, code: seq<Op>)
    | Assign(assignees: seq<Variable>)
    | Dispatch(selector: Selector, toSuper: bool, count: nat)
    | DropToS(count: nat)
    | Jump(target: nat)
    | JumpIf(sense: bool, target: nat)
    | LoadRfromFrame(index: int)
    | LoadRfromStack(depth: nat)
    | LoadRwithNil
    | LoadRwithSelf
    | StoreRintoFrame(index: int)
    | PopR
    | PushR
    | ReturnOp
    | NonLocalReturn

  predicate IsJump(op: Op) {
    op.Jump? || op.JumpIf?
  }

  /** A running script: the frame's cells are the temporaries and then the operands, in the
      order they were pushed. */
  datatype Machine =
    | Running(pc: nat, r: Oop, temps: seq<Oop>, operands: seq<Oop>, world: World)
    | Finished(result: Oop, after: World, local: bool)
    | Stuck

  /** Frame cells are numbered from 1 and run on into the operands. */
  predicate HasFrameCell(m: Machine, index: int) {
    m.Running? && 1 <= index <= |m.temps| + |m.operands|
  }

  function FrameCell(m: Machine, index: int): Oop
    requires HasFrameCell(m, index)
  {
    if index <= |m.temps| then m.temps[index - 1] else m.operands[index - 1 - |m.temps|]
  }

  function SetFrameCell(m: Machine, index: int, v: Oop): Machine
    requires HasFrameCell(m, index)
  {
    if index <= |m.temps| then m.(temps := m.temps[index - 1 := v])
    else m.(operands := m.operands[index - 1 - |m.temps| := v])
  }

  function AssignAll(sem: Semantics, xs: seq<Variable>, m: Machine): Machine
    requires m.Running?
  {
    if xs == [] then m else
    match xs[0]
    case Stack(index) => if HasFrameCell(m, index) then AssignAll(sem, xs[1..], SetFrameCell(m, index, m.r)) else Stuck
    case Elsewhere(id) => AssignAll(sem, xs[1..], m.(world := sem.store(id, m.r, m.world)))
  }

  /** One operation. */
  function Execute(sem: Semantics, op: Op, m: Machine): Machine
    requires m.Running?
  {
    var next := m.(pc := m.pc + 1);
    match op
    case LoadLiteral(v) => next.(r := v)
    case LoadVariable(Stack(index)) => if HasFrameCell(m, index) then next.(r := FrameCell(m, index)) else Stuck
    case LoadVariable(Elsewhere(id)) => next.(r := sem.load(id, m.world))
    case MakeClosure(id, _, _) =>
      var (v, w) := sem.capture(id, m.temps, m.world);
      next.(r := v, world := w)
    case Assign(xs) => AssignAll(sem, xs, next)
    case Dispatch(selector, toSuper, count) =>
      if |m.operands| < count then Stuck else
      (match sem.send(selector, toSuper, m.r, m.operands[|m.operands| - count..], m.world)
       case None => Stuck
       case Some(p) => next.(r := p.0, world := p.1))
    case DropToS(count) => if |m.operands| < count then Stuck else next.(operands := m.operands[..|m.operands| - count])
    case Jump(target) => m.(pc := target)
    case JumpIf(sense, target) => if m.r == Boolean(sense) then m.(pc := target) else next
    case LoadRfromFrame(index) => if HasFrameCell(m, index) then next.(r := FrameCell(m, index)) else Stuck
    case LoadRfromStack(depth) =>
      if depth < |m.operands| then next.(r := m.operands[|m.operands| - 1 - depth]) else Stuck
    case LoadRwithNil => next.(r := Nil)
    case LoadRwithSelf => next.(r := sem.self_)
    case StoreRintoFrame(index) => if HasFrameCell(m, index) then SetFrameCell(next, index, m.r) else Stuck
    case PopR =>
      if m.operands == [] then Stuck
      else next.(r := m.operands[|m.operands| - 1], operands := m.operands[..|m.operands| - 1])
    case PushR => next.(operands := m.operands + [m.r])
    case ReturnOp => Finished(m.r, m.world, true)
    case NonLocalReturn => Finished(m.r, m.world, false)
  }

  function Step(sem: Semantics, code: seq<Op>, m: Machine): Machine {
    if !m.Running? then m
    else if m.pc >= |code| then Stuck
    else Execute(sem, code[m.pc], m)
  }

  /** The machine after a number of steps. */
  function Run(sem: Semantics, code: seq<Op>, m: Machine, n: nat): Machine {
    if n == 0 then m else Step(sem, code, Run(sem, code, m, n - 1))
  }

  lemma {:induction false} RunAdd(sem: Semantics, code: seq<Op>, m: Machine, a: nat, b: nat)
    ensures Run(sem, code, Run(sem, code, m, a), b) == Run(sem, code, m, a + b)
  {
    hide Step;
    if b != 0 {
      RunAdd(sem, code, m, a, b - 1);
    }
  }

  /** A machine that has stopped stays as it is. */
  lemma {:induction false} StaysStopped(sem: Semantics, code: seq<Op>, m: Machine, a: nat, b: nat)
    requires a <= b && !Run(sem, code, m, a).Running?
    ensures Run(sem, code, m, b) == Run(sem, code, m, a)
  {
    if a < b {
      StaysStopped(sem, code, m, a, b - 1);
    }
  }
}
