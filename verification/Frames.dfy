/** The evaluator's stack: frames built downwards in an array of words, each with the caller's pc
    and base in its first two cells. */
module Frames {

  type Oop = nat

  const NIL: Oop := 0

  /** The lowest base a frame may have. */
  const OVERFLOW_LIMIT := 100

  /** A word of the stack: an object, or a saved pc or base. */
  datatype Cell = Ref(oop: Oop) | Raw(word: nat)

  /** A frame: the caller's pc and environment register, what it runs, and its temporaries and
      operands in the order they were pushed. */
  datatype Frame = Frame(pc: nat, receiver: Oop, code: Oop, callerEnv: Oop, env: Oop, locals: seq<Oop>)

  function Refs(vs: seq<Oop>): (cs: seq<Cell>)
    ensures |cs| == |vs| && forall i :: 0 <= i < |vs| ==> cs[i] == Ref(vs[i])
  {
    seq(|vs|, i requires 0 <= i < |vs| => Ref(vs[i]))
  }

  function FrameCells(f: Frame, base: nat): seq<Cell> {
    [Raw(f.pc), Raw(base), Ref(f.receiver), Ref(f.code), Ref(f.callerEnv), Ref(f.env)] + Refs(f.locals)
  }

  function Outer(fs: seq<Frame>): seq<Frame>
    requires fs != []
  {
    fs[..|fs| - 1]
  }

  function Last(fs: seq<Frame>): Frame
    requires fs != []
  {
    fs[|fs| - 1]
  }

  /** How many cells the frames take. */
  function Depth(fs: seq<Frame>): nat {
    if fs == [] then 0 else Depth(Outer(fs)) + 6 + |Last(fs).locals|
  }

  /** The base of the innermost frame, in a stack of the given size; 0 if there is none. */
  function Base(fs: seq<Frame>, size: nat): (base: nat)
    requires Depth(fs) <= size
    ensures fs != [] ==> base == size - Depth(Outer(fs)) - 1 && 0 < base
    ensures fs == [] ==> base == 0
  {
    if fs == [] then 0 else size - Depth(Outer(fs)) - 1
  }

  /** The cells of a chain of frames, innermost last, in the order they were pushed. */
  function Cells(fs: seq<Frame>, size: nat): (cs: seq<Cell>)
    requires Depth(fs) <= size
    ensures |cs| == Depth(fs)
  {
    if fs == [] then [] else Cells(Outer(fs), size) + FrameCells(Last(fs), Base(Outer(fs), size))
  }

  /** The frames with the innermost one's locals replaced. */
  function WithLocals(fs: seq<Frame>, locals: seq<Oop>): (r: seq<Frame>)
    requires fs != []
    ensures r != [] && Outer(r) == Outer(fs) && Last(r) == Last(fs).(locals := locals)
    ensures Depth(r) == Depth(fs) - |Last(fs).locals| + |locals|
  {
    var r := Outer(fs) + [Last(fs).(locals := locals)];
    assert Outer(r) == Outer(fs);
    r
  }

  lemma CellsOfFrame(fs: seq<Frame>, f: Frame, size: nat)
    requires Depth(fs) + 6 + |f.locals| <= size
    ensures var r := fs + [f];
      && Outer(r) == fs && Last(r) == f && Depth(r) == Depth(fs) + 6 + |f.locals|
      && Cells(r, size) == Cells(fs, size) + FrameCells(f, Base(fs, size))
      && Base(r, size) == size - Depth(fs) - 1
  {
    assert Outer(fs + [f]) == fs;
  }

  lemma CellsOfPush(fs: seq<Frame>, v: Oop, size: nat)
    requires fs != [] && Depth(fs) < size
    ensures var r := WithLocals(fs, Last(fs).locals + [v]);
      Depth(r) == Depth(fs) + 1 && Cells(r, size) == Cells(fs, size) + [Ref(v)]
  {
    var f := Last(fs);
    assert Refs(f.locals + [v]) == Refs(f.locals) + [Ref(v)];
  }

  lemma CellsOfDrop(fs: seq<Frame>, count: nat, size: nat)
    requires fs != [] && Depth(fs) <= size && count <= |Last(fs).locals|
    ensures var r := WithLocals(fs, Last(fs).locals[..|Last(fs).locals| - count]);
      Depth(r) == Depth(fs) - count && Cells(r, size) == Cells(fs, size)[..Depth(r)]
  {
    var f := Last(fs);
    var n := |f.locals| - count;
    var cs := Cells(Outer(fs), size);
    var base := Base(Outer(fs), size);
    assert Refs(f.locals[..n]) == Refs(f.locals)[..n];
    assert FrameCells(f.(locals := f.locals[..n]), base) == FrameCells(f, base)[..6 + n];
    assert (cs + FrameCells(f, base))[..|cs| + 6 + n] == cs + FrameCells(f, base)[..6 + n];
  }

  lemma CellsOfStore(fs: seq<Frame>, index: nat, v: Oop, size: nat)
    requires fs != [] && Depth(fs) <= size && 1 <= index <= |Last(fs).locals|
    ensures var r := WithLocals(fs, Last(fs).locals[index - 1 := v]);
      var d := Depth(Outer(fs)) + 5 + index;
      Depth(r) == Depth(fs) && d < Depth(fs) && Cells(r, size) == Cells(fs, size)[d := Ref(v)]
  {
    var f := Last(fs);
    assert Refs(f.locals[index - 1 := v]) == Refs(f.locals)[index - 1 := Ref(v)];
  }

  /** What the header of the innermost frame holds. */
  lemma HeaderCells(fs: seq<Frame>, size: nat)
    requires fs != [] && Depth(fs) <= size
    ensures var d, f, cs := Depth(Outer(fs)), Last(fs), Cells(fs, size);
      && d + 6 <= |cs| && cs[..d] == Cells(Outer(fs), size)
      && cs[d] == Raw(f.pc) && cs[d + 1] == Raw(Base(Outer(fs), size))
      && cs[d + 2] == Ref(f.receiver) && cs[d + 3] == Ref(f.code)
      && cs[d + 4] == Ref(f.callerEnv) && cs[d + 5] == Ref(f.env)
    ensures forall i :: 0 <= i < |Last(fs).locals| ==>
      Cells(fs, size)[Depth(Outer(fs)) + 6 + i] == Ref(Last(fs).locals[i])
  {
    hide Cells, Depth, Base, FrameCells;
    CellsLevel(fs, size);
    HeaderOnTop(Cells(Outer(fs), size), Last(fs), Base(Outer(fs), size));
  }

  lemma HeaderOnTop(outer: seq<Cell>, f: Frame, base: nat)
    ensures var d, cs := |outer|, outer + FrameCells(f, base);
      && d + 6 <= |cs| && cs[..d] == outer && cs[d] == Raw(f.pc) && cs[d + 1] == Raw(base)
      && cs[d + 2] == Ref(f.receiver) && cs[d + 3] == Ref(f.code)
      && cs[d + 4] == Ref(f.callerEnv) && cs[d + 5] == Ref(f.env)
      && |cs| == d + 6 + |f.locals| && forall i :: 0 <= i < |f.locals| ==> cs[d + 6 + i] == Ref(f.locals[i])
  {
    var cs := FrameCells(f, base);
    assert forall i :: 0 <= i < |f.locals| ==> cs[6 + i] == Ref(f.locals[i]);
    assert forall i :: 0 <= i < |cs| ==> (outer + cs)[|outer| + i] == cs[i];
  }

  lemma CellsLevel(fs: seq<Frame>, size: nat)
    requires fs != [] && Depth(fs) <= size
    ensures Depth(fs) == Depth(Outer(fs)) + 6 + |Last(fs).locals|
    ensures Cells(fs, size) == Cells(Outer(fs), size) + FrameCells(Last(fs), Base(Outer(fs), size))
  {}

  /** Everything in a frame but its first two cells is an object. */
  lemma ObjectsOfFrame(fs: seq<Frame>, size: nat)
    requires fs != [] && Depth(fs) <= size
    ensures Depth(fs) == Depth(Outer(fs)) + 6 + |Last(fs).locals|
    ensures forall k :: Depth(Outer(fs)) + 2 <= k < Depth(fs) ==> Cells(fs, size)[k].Ref?
  {
    var d, cs := Depth(Outer(fs)), FrameCells(Last(fs), Base(Outer(fs), size));
    forall k | d + 2 <= k < Depth(fs) ensures Cells(fs, size)[k].Ref? {
      assert Cells(fs, size)[k] == cs[k - d];
    }
  }

  // ---- what the code of a frame can do to the stack

  /** Moves the pc; pushes, drops or stores; calls a method, whose code does a body and returns;
      lets a closure take the place of the method that evaluates it; or has the evaluator send
      a message, with a launch frame for the body that pushes the arguments and dispatches. */
  datatype Action =
    | Advance(pc: nat)
    | Push(v: Oop)
    | Drop(count: nat)
    | Store(index: nat, v: Oop)
    | Call(receiver: Oop, code: Oop, env: Oop, temps: nat, body: seq<Action>)
    | Activate(receiver: Oop, code: Oop, env: Oop, temps: nat)
    | SendTo(launcher: Oop, body: seq<Action>)

  /** The frames, the pc and the environment register. */
  datatype Context = Context(frames: seq<Frame>, pc: nat, e: Oop)

  function Enter(c: Context, receiver: Oop, code: Oop, env: Oop, temps: nat): Context {
    Context(c.frames + [Frame(c.pc, receiver, code, c.e, env, seq(temps, _ => NIL))], 0, env)
  }

  function Leave(c: Context): Context
    requires |c.frames| > 1
  {
    Context(Outer(c.frames), Last(c.frames).pc, Last(Outer(c.frames)).env)
  }

  /** An action stays within its frame. */
  predicate Allowed(a: Action, c: Context) {
    && (a.SendTo? || c.frames != [])
    && (a.Drop? ==> a.count <= |Last(c.frames).locals|)
    && (a.Store? ==> 1 <= a.index <= |Last(c.frames).locals|)
    && (a.Activate? ==> |c.frames| > 1)
  }

  /** What is left of an action once it is over. Whatever its body does, a call changes nothing
      but E, which is the frame's environment afterwards; after a send from the evaluator E is nil. */
  function Effect(a: Action, c: Context): Context
    requires Allowed(a, c)
  {
    match a
    case Advance(pc) => c.(pc := pc)
    case Push(v) => c.(frames := WithLocals(c.frames, Last(c.frames).locals + [v]))
    case Drop(count) => c.(frames := WithLocals(c.frames, Last(c.frames).locals[..|Last(c.frames).locals| - count]))
    case Store(index, v) => c.(frames := WithLocals(c.frames, Last(c.frames).locals[index - 1 := v]))
    case Call(_, _, _, _, _) => c.(e := Last(c.frames).env)
    case Activate(receiver, code, env, temps) => Enter(Leave(c), receiver, code, env, temps)
    case SendTo(_, _) => c.(e := NIL)
  }

  /** A new frame does not overflow the stack. */
  predicate HasRoom(fs: seq<Frame>, temps: nat, size: nat) {
    size - 1 - Depth(fs) > OVERFLOW_LIMIT && temps + 4 < size - 1 - Depth(fs)
  }

  /** An action stays within its frame and within the stack. */
  predicate Fits(a: Action, c: Context, size: nat): (yes: bool)
    ensures yes ==> Allowed(a, c)
    decreases a, 1
  {
    match a
    case Advance(_) => c.frames != []
    case Push(_) => c.frames != [] && Depth(c.frames) < size
    case Drop(count) => c.frames != [] && count <= |Last(c.frames).locals|
    case Store(index, _) => c.frames != [] && 1 <= index <= |Last(c.frames).locals|
    case Call(receiver, code, env, temps, body) =>
      c.frames != [] && HasRoom(c.frames, temps, size) && FitAll(body, Enter(c, receiver, code, env, temps), size)
    case Activate(_, _, _, temps) => |c.frames| > 1 && HasRoom(Outer(c.frames), temps, size)
    case SendTo(launcher, body) => HasRoom(c.frames, 0, size) && FitAll(body, Enter(c, NIL, launcher, NIL, 0), size)
  }

  predicate FitAll(body: seq<Action>, c: Context, size: nat)
    decreases body, 0
  {
    body != [] ==> Fits(body[0], c, size) && FitAll(body[1..], Effect(body[0], c), size)
  }

  function EffectOfAll(body: seq<Action>, c: Context, size: nat): Context
    requires FitAll(body, c, size)
  {
    if body == [] then c else EffectOfAll(body[1..], Effect(body[0], c), size)
  }

  /** Whatever runs in a frame, the frames around it stay as they are, and the pc to return to. */
  lemma {:induction false} OuterStays(body: seq<Action>, c: Context, size: nat)
    requires FitAll(body, c, size) && c.frames != []
    ensures var r := EffectOfAll(body, c, size);
      r.frames != [] && Outer(r.frames) == Outer(c.frames) && Last(r.frames).pc == Last(c.frames).pc
  {
    if body != [] {
      OuterOfEffect(body[0], c, size);
      OuterStays(body[1..], Effect(body[0], c), size);
    }
  }

  lemma OuterOfEffect(a: Action, c: Context, size: nat)
    requires Fits(a, c, size) && c.frames != []
    ensures var r := Effect(a, c);
      r.frames != [] && Outer(r.frames) == Outer(c.frames) && Last(r.frames).pc == Last(c.frames).pc
  {
    if a.Activate? {
      assert Outer(Effect(a, c).frames) == Outer(c.frames);
    }
  }

  /** A closure activated takes the frame of the method that evaluates it: there are as many frames,
      and it will return where that method would have. */
  lemma ActivationReplaces(a: Action, c: Context)
    requires a.Activate? && |c.frames| > 1
    ensures var r := Effect(a, c);
      && |r.frames| == |c.frames| && Outer(r.frames) == Outer(c.frames) && r.pc == 0 && r.e == a.env
      && Last(r.frames) == Frame(Last(c.frames).pc, a.receiver, a.code, Last(Outer(c.frames)).env, a.env,
                                 seq(a.temps, _ => NIL))
  {
    assert Outer(Effect(a, c).frames) == Outer(c.frames);
  }

  /** E is the innermost frame's environment. */
  predicate InTune(c: Context) {
    c.frames != [] && c.e == Last(c.frames).env
  }

  /** The last of the calls, activations and launches among a body's own actions is a launch. */
  predicate EndsLaunched(body: seq<Action>, launched: bool) {
    if body == [] then launched
    else EndsLaunched(body[1..], body[0].SendTo? || (launched && !body[0].Call? && !body[0].Activate?))
  }

  /** E follows the frames, except that it is nil from a launch to the next call or activation. */
  lemma {:induction false} EnvironmentAfter(body: seq<Action>, c: Context, size: nat, launched: bool)
    requires FitAll(body, c, size) && c.frames != []
    requires if launched then c.e == NIL else InTune(c)
    ensures var r := EffectOfAll(body, c, size);
      if EndsLaunched(body, launched) then r.e == NIL else InTune(r)
  {
    if body != [] {
      var next := body[0].SendTo? || (launched && !body[0].Call? && !body[0].Activate?);
      OuterOfEffect(body[0], c, size);
      EnvironmentAfter(body[1..], Effect(body[0], c), size, next);
    }
  }

  /** So E is right after a body exactly when no launch comes last, or the frame has no environment. */
  lemma RightEnvironment(body: seq<Action>, c: Context, size: nat)
    requires FitAll(body, c, size) && InTune(c)
    ensures var r := EffectOfAll(body, c, size);
      InTune(r) <==> !EndsLaunched(body, false) || (r.frames != [] && Last(r.frames).env == NIL)
  {
    EnvironmentAfter(body, c, size, false);
    OuterStays(body, c, size);
  }

  class EvaluationContext {
    const stack: array<Cell>
    var regSP: int
    var regBP: nat
    var regPC: nat
    var regE: Oop
    var regM: Oop
    var regS: Oop
    ghost var frames: seq<Frame>

    /** The cells in use, in the order they were pushed. */
    ghost predicate Holds(cells: seq<Cell>)
      reads `regSP, stack
    {
      && |cells| <= stack.Length && regSP == stack.Length + 1 - |cells|
      && forall d :: 0 <= d < |cells| ==> stack[stack.Length - 1 - d] == cells[d]
    }

    /** The stack holds the frames, and the base is the innermost one's. */
    ghost predicate Framed()
      reads `regSP, `regBP, `frames, stack
    {
      && Depth(frames) <= stack.Length
      && Holds(Cells(frames, stack.Length)) && regBP == Base(frames, stack.Length)
    }

    /** The registers E, M and S are those of the innermost frame. */
    ghost predicate InStep()
      reads `regE, `regM, `regS, `frames
    {
      frames != [] ==> regE == Last(frames).env && regM == Last(frames).code && regS == Last(frames).receiver
    }

    constructor (size: nat)
      ensures Framed() && frames == [] && stack.Length == size && fresh(stack)
      ensures regSP == size + 1 && regBP == 0 && regPC == 0 && regE == NIL
    {
      stack := new Cell[size](_ => Raw(0));
      regSP, regBP, regPC := size + 1, 0, 0;
      regE, regM, regS := NIL, NIL, NIL;
      frames := [];
    }

    method PushCell(c: Cell, ghost cells: seq<Cell>)
      requires Holds(cells) && 1 < regSP
      modifies `regSP, stack
      ensures Holds(cells + [c]) && regSP == old(regSP) - 1
    {
      regSP := regSP - 1;
      stack[regSP - 1] := c;
    }

    method PopCell(ghost cells: seq<Cell>) returns (c: Cell)
      requires Holds(cells) && cells != []
      modifies `regSP
      ensures Holds(cells[..|cells| - 1]) && regSP == old(regSP) + 1 && c == cells[|cells| - 1]
    {
      c := stack[regSP - 1];
      regSP := regSP + 1;
    }

    /** The header of a new frame. */
    method BuildHeader(receiver: Oop, code: Oop, env: Oop)
      requires Framed() && 6 < regSP
      modifies `regSP, `regBP, `regPC, `regE, `regM, `regS, `frames, stack
      ensures Framed() && InStep() && frames == old(frames) + [Frame(old(regPC), receiver, code, old(regE), env, [])]
      ensures regPC == 0 && regSP == old(regSP) - 6
    {
      hide Holds, Cells;
      ghost var c0 := Cells(frames, stack.Length);
      ghost var c1 := c0 + [Raw(regPC)];
      ghost var c2 := c1 + [Raw(regBP)];
      ghost var c3 := c2 + [Ref(receiver)];
      ghost var c4 := c3 + [Ref(code)];
      ghost var c5 := c4 + [Ref(regE)];
      ghost var header := FrameCells(Frame(regPC, receiver, code, regE, env, []), regBP);
      assert c0 + header == c5 + [Ref(env)];
      regS, regM := receiver, code;
      PushCell(Raw(regPC), c0);
      PushCell(Raw(regBP), c1);
      var base := regSP;
      PushCell(Ref(receiver), c2);
      PushCell(Ref(code), c3);
      PushCell(Ref(regE), c4);
      PushCell(Ref(env), c5);
      CellsOfFrame(frames, Frame(regPC, receiver, code, regE, env, []), stack.Length);
      frames := frames + [Frame(regPC, receiver, code, regE, env, [])];
      regE, regPC, regBP := env, 0, base;
    }

    method PushOperand(v: Oop)
      requires Framed() && frames != [] && 1 < regSP
      modifies `regSP, `frames, stack
      ensures Framed() && frames == WithLocals(old(frames), Last(old(frames)).locals + [v])
      ensures regSP == old(regSP) - 1
    {
      hide Holds, Cells;
      HoldsSize();
      CellsOfPush(frames, v, stack.Length);
      PushCell(Ref(v), Cells(frames, stack.Length));
      frames := WithLocals(frames, Last(frames).locals + [v]);
    }

    lemma HoldsSize()
      requires Framed()
      ensures regSP == stack.Length + 1 - Depth(frames)
    {}

    method DropOperands(count: nat)
      requires Framed() && frames != [] && count <= |Last(frames).locals|
      modifies `regSP, `frames
      ensures Framed()
      ensures frames == WithLocals(old(frames), Last(old(frames)).locals[..|Last(old(frames)).locals| - count])
    {
      hide Cells, FrameCells, Depth;
      CellsOfDrop(frames, count, stack.Length);
      regSP := regSP + count;
      frames := WithLocals(frames, Last(frames).locals[..|Last(frames).locals| - count]);
    }

    /** Temporaries are numbered from 1, below the four cells under the base. */
    method StackTemporaryAtPut(index: nat, v: Oop)
      requires Framed() && frames != [] && 1 <= index <= |Last(frames).locals|
      modifies `frames, stack
      ensures Framed() && frames == WithLocals(old(frames), Last(old(frames)).locals[index - 1 := v])
    {
      hide Cells, FrameCells;
      CellsOfStore(frames, index, v, stack.Length);
      stack[regBP - 4 - index - 1] := Ref(v);
      frames := WithLocals(frames, Last(frames).locals[index - 1 := v]);
    }

    /** False when the stack overflows, after which nothing runs. */
    method BuildFrame(receiver: Oop, code: Oop, env: Oop, temps: nat) returns (ok: bool)
      requires Framed()
      modifies `regSP, `regBP, `regPC, `regE, `regM, `regS, `frames, stack
      ensures ok <==> old(regSP) - 2 > 100 && temps + 4 < old(regSP) - 2
      ensures ok ==> Framed() && InStep() && regPC == 0
      ensures ok ==> frames == old(frames) + [Frame(old(regPC), receiver, code, old(regE), env, seq(temps, _ => NIL))]
    {
      ok := regSP - 2 > OVERFLOW_LIMIT && temps + 4 < regSP - 2;
      if ok {
        BuildHeader(receiver, code, env);
        var i := 0;
        assert seq(0, _ => NIL) == [];
        while i < temps
          invariant i <= temps && Framed() && InStep() && regPC == 0
          invariant frames == old(frames) + [Frame(old(regPC), receiver, code, old(regE), env, seq(i, _ => NIL))]
          invariant regSP == old(regSP) - 6 - i
        {
          PushOperand(NIL);
          assert seq(i, _ => NIL) + [NIL] == seq(i + 1, _ => NIL);
          i := i + 1;
        }
      }
    }

    /** The base and the pc go back to those of the caller. */
    method Unwind()
      requires Framed() && frames != []
      modifies `regSP, `regBP, `regPC, `frames
      ensures Framed() && frames == Outer(old(frames)) && regPC == Last(old(frames)).pc
    {
      hide Cells, FrameCells, Depth, Base;
      ghost var cs, d := Cells(frames, stack.Length), Depth(Outer(frames));
      HeaderCells(frames, stack.Length);
      regSP := regBP;
      assert Holds(cs[..d + 2]);
      hide Holds;
      assert cs[..d + 2][..d + 1] == cs[..d + 1] && cs[..d + 1][..d] == cs[..d];
      var base := PopCell(cs[..d + 2]);
      var pc := PopCell(cs[..d + 1]);
      regBP, regPC := base.word, pc.word;
      frames := Outer(frames);
    }

    /** The header of the innermost frame, below its base. */
    lemma HeaderBelowBase()
      requires Framed() && frames != []
      ensures regBP > 4 && regBP <= stack.Length
      ensures stack[regBP - 2] == Ref(Last(frames).receiver) && stack[regBP - 3] == Ref(Last(frames).code)
      ensures stack[regBP - 5] == Ref(Last(frames).env)
    {
      hide Cells, FrameCells, Depth;
      HeaderCells(frames, stack.Length);
      ghost var d := Depth(Outer(frames));
      assert stack[stack.Length - 1 - (d + 2)] == Cells(frames, stack.Length)[d + 2];
      assert stack[stack.Length - 1 - (d + 3)] == Cells(frames, stack.Length)[d + 3];
      assert stack[stack.Length - 1 - (d + 5)] == Cells(frames, stack.Length)[d + 5];
    }

    /** The frame goes, and the registers are again those of the frame below. */
    method PopFrame()
      requires Framed() && |frames| > 1
      modifies `regSP, `regBP, `regPC, `regE, `regM, `regS, `frames
      ensures Framed() && InStep() && frames == Outer(old(frames)) && regPC == Last(old(frames)).pc
    {
      Unwind();
      HeaderBelowBase();
      regE := stack[regBP - 4 - 1].oop;
      regM := stack[regBP - 2 - 1].oop;
      regS := stack[regBP - 1 - 1].oop;
    }

    /** The launch frame goes; E becomes what the caller says. */
    method PopLaunchFrame(prevRegE: Oop)
      requires Framed() && frames != []
      modifies `regSP, `regBP, `regPC, `regE, `regM, `regS, `frames
      ensures Framed() && frames == Outer(old(frames)) && regPC == Last(old(frames)).pc && regE == prevRegE
      ensures frames != [] ==> regM == Last(frames).code && regS == Last(frames).receiver
      ensures frames == [] ==> regM == old(regM) && regS == old(regS)
    {
      Unwind();
      regE := prevRegE;
      if regBP == 0 {
        return;
      }
      HeaderBelowBase();
      regM := stack[regBP - 2 - 1].oop;
      regS := stack[regBP - 1 - 1].oop;
    }

    /** The argument a frame was called with: counted from 1, it is the i-th of the values its
        caller pushed last. */
    method ArgumentAt(i: nat, argumentCount: Oop -> nat) returns (v: Oop)
      requires Framed() && |frames| > 1
      requires 1 <= i <= argumentCount(Last(frames).code) <= |Last(Outer(frames)).locals|
      ensures var pushed := Last(Outer(frames)).locals;
        v == pushed[|pushed| - argumentCount(Last(frames).code)..][i - 1]
    {
      HeaderBelowBase();
      ArgumentCell(argumentCount(Last(frames).code) - i);
      var code := stack[regBP - 2 - 1].oop;
      var count := argumentCount(code);
      v := stack[regBP + 1 + (count - i + 1) - 1].oop;
    }

    /** The cells above the saved pc are the caller's operands, the last one pushed first. */
    lemma ArgumentCell(k: nat)
      requires Framed() && |frames| > 1 && k < |Last(Outer(frames)).locals|
      ensures regBP + 1 + k < stack.Length
      ensures stack[regBP + 1 + k] == Ref(Last(Outer(frames)).locals[|Last(Outer(frames)).locals| - 1 - k])
    {
      hide Cells, FrameCells, Base;
      ghost var caller := Outer(frames);
      HeaderCells(frames, stack.Length);
      HeaderCells(caller, stack.Length);
      ghost var d := Depth(caller) - 1 - k;
      assert d == Depth(Outer(caller)) + 6 + (|Last(caller).locals| - 1 - k);
      assert Cells(frames, stack.Length)[d] == Cells(frames, stack.Length)[..Depth(caller)][d];
    }

    // ---- nested activations

    ghost function Now(): Context
      reads `frames, `regPC, `regE
    {
      Context(frames, regPC, regE)
    }

    /** M and S are those of the innermost frame. */
    ghost predicate Settled()
      reads `regM, `regS, `frames
    {
      frames != [] ==> regM == Last(frames).code && regS == Last(frames).receiver
    }

    /** One action, with everything that runs inside it. */
    method Perform(a: Action) returns (ok: bool)
      requires Framed() && Settled()
      modifies `regSP, `regBP, `regPC, `regE, `regM, `regS, `frames, stack
      ensures ok <==> Fits(a, old(Now()), stack.Length)
      ensures ok ==> Framed() && Settled() && Now() == Effect(a, old(Now()))
      decreases a, 2
    {
      hide Cells, Holds, FitAll, EffectOfAll;
      HoldsSize();
      match a
      case Advance(pc) =>
        ok := regBP != 0;
        if ok { regPC := pc; }
      case Push(v) =>
        ok := regBP != 0 && regSP > 1;
        if ok { PushOperand(v); }
      case Drop(count) =>
        ok := regBP != 0 && count <= regBP - 4 - regSP;
        if ok { DropOperands(count); }
      case Store(index, v) =>
        ok := regBP != 0 && 1 <= index <= regBP - 4 - regSP;
        if ok { StackTemporaryAtPut(index, v); }
      case Call(_, _, _, _, _) =>
        ok := Invoke(a);
      case Activate(_, _, _, _) =>
        ok := EvaluateClosure(a);
      case SendTo(_, _) =>
        ok := SendToWith(a);
    }

    method PerformAll(body: seq<Action>) returns (ok: bool)
      requires Framed() && Settled()
      modifies `regSP, `regBP, `regPC, `regE, `regM, `regS, `frames, stack
      ensures ok <==> FitAll(body, old(Now()), stack.Length)
      ensures ok ==> Framed() && Settled() && Now() == EffectOfAll(body, old(Now()), stack.Length)
      decreases body, 0
    {
      hide Framed, Fits, Effect;
      ok := true;
      if body != [] {
        ok := Perform(body[0]);
        if ok {
          ok := PerformAll(body[1..]);
        }
      }
    }

    /** A method is invoked and its code returns: SP, BP, PC, M and S are as before, and E is the
        caller's environment. */
    method Invoke(a: Action) returns (ok: bool)
      requires a.Call? && Framed() && Settled()
      modifies `regSP, `regBP, `regPC, `regE, `regM, `regS, `frames, stack
      ensures ok <==> Fits(a, old(Now()), stack.Length)
      ensures ok ==> Framed() && Settled() && Now() == Effect(a, old(Now()))
      ensures ok ==> regSP == old(regSP) && regBP == old(regBP) && regM == old(regM) && regS == old(regS)
      decreases a, 1
    {
      hide Holds, Cells, FitAll, EffectOfAll;
      HoldsSize();
      ok := regBP != 0;
      if ok {
        ok := BuildFrame(a.receiver, a.code, a.env, a.temps);
        if ok {
          ghost var entered := Now();
          ok := PerformAll(a.body);
          if ok {
            OuterStays(a.body, entered, stack.Length);
            assert Outer(entered.frames) == old(frames);
            PopFrame();
            HoldsSize();
          }
        }
      }
    }

    /** A closure takes the frame of the method that evaluates it. */
    method EvaluateClosure(a: Action) returns (ok: bool)
      requires a.Activate? && Framed() && Settled()
      modifies `regSP, `regBP, `regPC, `regE, `regM, `regS, `frames, stack
      ensures ok <==> Fits(a, old(Now()), stack.Length)
      ensures ok ==> Framed() && Settled() && Now() == Effect(a, old(Now()))
    {
      hide Holds, Cells;
      ok := HasCaller();
      if ok {
        PopFrame();
        HoldsSize();
        ok := BuildFrame(a.receiver, a.code, a.env, a.temps);
      }
    }

    /** The innermost frame is not the only one: its saved base is not 0. */
    method HasCaller() returns (yes: bool)
      requires Framed()
      ensures yes <==> |frames| > 1
    {
      hide Cells, FrameCells, Depth;
      yes := false;
      if regBP != 0 {
        HeaderCells(frames, stack.Length);
        ghost var d := Depth(Outer(frames));
        assert stack[stack.Length - 1 - (d + 1)] == Cells(frames, stack.Length)[d + 1];
        yes := stack[regBP - 1].word != 0;
      }
    }

    /** The evaluator sends a message. E is saved only once the launch frame has replaced it. */
    method SendToWith(a: Action) returns (ok: bool)
      requires a.SendTo? && Framed() && Settled()
      modifies `regSP, `regBP, `regPC, `regE, `regM, `regS, `frames, stack
      ensures ok <==> Fits(a, old(Now()), stack.Length)
      ensures ok ==> Framed() && Settled() && Now() == Effect(a, old(Now()))
      decreases a, 1
    {
      hide Holds, Cells, FitAll, EffectOfAll;
      HoldsSize();
      ok := BuildFrame(NIL, a.launcher, NIL, 0);
      if ok {
        var prevRegE := regE;
        ghost var entered := Now();
        ok := PerformAll(a.body);
        if ok {
          OuterStays(a.body, entered, stack.Length);
          assert Outer(entered.frames) == old(frames);
          PopLaunchFrame(prevRegE);
        }
      }
    }

    // ---- walking the frames

    /** The part of the stack that holds these frames, the outermost of the chain. */
    ghost predicate HoldsOuter(fs: seq<Frame>)
      reads stack
    {
      && Depth(fs) <= stack.Length
      && forall d :: 0 <= d < Depth(fs) ==> stack[stack.Length - 1 - d] == Cells(fs, stack.Length)[d]
    }

    /** The word at an address is an object. */
    ghost predicate IsObject(address: int)
      reads stack
    {
      1 <= address <= stack.Length && stack[address - 1].Ref?
    }

    lemma CellAt(fs: seq<Frame>, address: int)
      requires HoldsOuter(fs) && stack.Length + 1 - Depth(fs) <= address <= stack.Length
      ensures stack[address - 1] == Cells(fs, stack.Length)[stack.Length - address]
    {
      hide Cells, Depth;
      ghost var d := stack.Length - address;
      assert stack[stack.Length - 1 - d] == Cells(fs, stack.Length)[d];
    }

    /** One frame: the objects are between its top and its base, the base and the pc are not. */
    lemma FrameInPlace(fs: seq<Frame>)
      requires fs != [] && HoldsOuter(fs)
      ensures FrameAt(stack.Length + 1 - Depth(fs), Base(fs, stack.Length), Base(Outer(fs), stack.Length))
      ensures Base(fs, stack.Length) + 2 == stack.Length + 1 - Depth(Outer(fs))
    {
      hide Cells, FrameCells, Depth, HoldsOuter;
      SomeDepth(fs);
      HeaderCells(fs, stack.Length);
      ObjectsOfFrame(fs, stack.Length);
      var base := Base(fs, stack.Length);
      CellAt(fs, base);
      CellAt(fs, base + 1);
      forall a | stack.Length + 1 - Depth(fs) <= a < base ensures IsObject(a) {
        CellAt(fs, a);
      }
    }

    /** The frame between two addresses: nothing but objects, and then two words that are not. */
    ghost predicate FrameAt(top: int, base: int, next: nat)
      reads stack
    {
      && top <= base && 0 < base < stack.Length && stack[base - 1] == Raw(next)
      && !IsObject(base) && !IsObject(base + 1)
      && forall a :: top <= a < base ==> IsObject(a)
    }

    lemma SomeDepth(fs: seq<Frame>)
      requires HoldsOuter(fs)
      ensures Depth(fs) <= stack.Length
    {}

    lemma OuterInPlace(fs: seq<Frame>)
      requires fs != [] && HoldsOuter(fs)
      ensures HoldsOuter(Outer(fs))
    {
      hide Cells, FrameCells, Depth, Base;
      HeaderCells(fs, stack.Length);
      ObjectsOfFrame(fs, stack.Length);
      ghost var cs, d := Cells(fs, stack.Length), Depth(Outer(fs));
      forall k | 0 <= k < d ensures stack[stack.Length - 1 - k] == Cells(Outer(fs), stack.Length)[k] {
        assert cs[..d][k] == cs[k];
      }
    }

    static predicate Increasing(addresses: seq<int>) {
      forall i, j :: 0 <= i < j < |addresses| ==> addresses[i] < addresses[j]
    }

    static method ScanStackFrameObjects(start: int, size: nat, visited: seq<int>) returns (all: seq<int>)
      ensures all == visited + seq(size, i => start + i)
    {
      all := visited;
      var i := 0;
      while i < size
        invariant i <= size && all == visited + seq(i, k => start + k)
      {
        assert seq(i, k => start + k) + [start + i] == seq(i + 1, k => start + k);
        all := all + [start + i];
        i := i + 1;
      }
    }

    static lemma SpanIsIncreasing(visited: seq<int>, start: int, size: nat)
      requires Increasing(visited) && forall a :: a in visited ==> a < start
      ensures var all := visited + seq(size, i => start + i);
        && Increasing(all) && forall a :: a in all <==> a in visited || start <= a < start + size
    {
      var span := seq(size, i => start + i);
      forall i, j | 0 <= i < j < |visited + span| ensures (visited + span)[i] < (visited + span)[j] {
        if i < |visited| {
          assert visited[i] in visited;
        }
      }
      forall a | start <= a < start + size ensures a in span {
        assert span[a - start] == a;
      }
    }

    /** The addresses the collector scans, from the top of the stack outwards: each object's once,
        in order, and no saved pc or base. */
    method ScanStack() returns (visited: seq<int>)
      requires Framed()
      ensures Increasing(visited)
      ensures forall a :: a in visited <==> regSP <= a <= stack.Length && IsObject(a)
    {
      hide Cells, Depth, Base;
      HoldsSize();
      WholeStack();
      var start, end := regSP, regBP;
      visited := [];
      ghost var fs := frames;
      while end != 0
        invariant HoldsOuter(fs) && end == Base(fs, stack.Length) && start == stack.Length + 1 - Depth(fs)
        invariant regSP <= start && Increasing(visited)
        invariant forall a :: a in visited <==> regSP <= a < start && IsObject(a)
        decreases |fs|
      {
        FrameInPlace(fs);
        OuterInPlace(fs);
        assert forall a :: a in visited ==> a < start;
        SpanIsIncreasing(visited, start, end - start);
        visited := ScanStackFrameObjects(start, end - start, visited);
        start := end + 2;
        end := stack[end - 1].word;
        fs := Outer(fs);
      }
      NoDepth();
    }

    lemma WholeStack()
      requires Framed()
      ensures HoldsOuter(frames)
    {}

    static lemma NoDepth()
      ensures Depth([]) == 0
    {}

    /** The base of a frame, counting outwards from 1. */
    method BpForFrameAt(index: nat) returns (bp: nat)
      requires Framed() && 1 <= index <= |frames|
      ensures Depth(frames[..|frames| - index + 1]) <= stack.Length
      ensures bp == Base(frames[..|frames| - index + 1], stack.Length)
    {
      hide Cells, Depth, Base;
      WholeStack();
      bp := regBP;
      ghost var fs := frames;
      for i := 0 to index - 1
        invariant |fs| == |frames| - i && fs == frames[..|frames| - i]
        invariant HoldsOuter(fs) && bp == Base(fs, stack.Length)
      {
        FrameInPlace(fs);
        OuterInPlace(fs);
        bp := stack[bp - 1].word;
        fs := Outer(fs);
      }
    }
  }
}
