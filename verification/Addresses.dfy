/** What a closure takes from the frame that creates it, and where each reference then leads. */
module Addresses {
  import opened Scopes
  import opened Closures

  /** What a closure captures, by where its creator has it. */
  datatype Element =
    | SelfElement
    | EnvironmentElement
    | EnvironmentValue(index: nat)
    | LocalArgument(index: nat)
    | InlinedArgument(index: nat)

  /** A frame: self, the environment in E and its slots, the arguments and the stack cells. */
  datatype Frame = Frame(self_: Oop, env: Oop, slots: seq<Oop>, args: seq<Oop>, temps: seq<Oop>)

  function At(vs: seq<Oop>, index: nat): Option<Oop> {
    if 1 <= index <= |vs| then Some(vs[index - 1]) else None
  }

  function Taken(el: Element, f: Frame): Option<Oop> {
    match el
    case SelfElement => Some(f.self_)
    case EnvironmentElement => Some(f.env)
    case EnvironmentValue(j) => At(f.slots, j)
    case LocalArgument(j) => At(f.args, j)
    case InlinedArgument(j) => At(f.temps, j)
  }

  // ---- encoding

  function EnvironmentOf(p: Program, z: State, s: nat, e: nat): Element
    requires Shaped(p, z) && 0 < s < |p| && e in z.environments[s]
  {
    if e == RealParent(p, s) then EnvironmentElement else EnvironmentValue(EnvironmentIndex(p, z, s, e))
  }

  /** How the script around a block has an argument: its own or an inlined one, or a copy. */
  function ArgumentOf(p: Program, z: State, at: Positions, s: nat, x: Name): Element
    requires Shaped(p, z) && s < |p|
  {
    match Owner(p, z, s, x)
    case None => SelfElement
    case Some(o) =>
      if Defines(p, o, x) then
        var index := if (o, x) in at then at[(o, x)] else 0;
        if p[o].inlined then InlinedArgument(index) else LocalArgument(index)
      else EnvironmentValue(if x in CapturedArguments(p, z, o) then ArgumentSlot(p, z, o, x) else 0)
  }

  function IndexIn(el: Element): nat {
    match el
    case SelfElement => 1
    case EnvironmentElement => 1
    case EnvironmentValue(j) => j
    case LocalArgument(j) => j
    case InlinedArgument(j) => j
  }

  /** An element as it is written: its index cut to a byte. */
  function Written(el: Element): (r: Element)
    ensures IndexIn(el) < 256 ==> r == el
    ensures IndexIn(r) == IndexIn(el) % 256
  {
    match el
    case SelfElement => el
    case EnvironmentElement => el
    case EnvironmentValue(j) => EnvironmentValue(j % 256)
    case LocalArgument(j) => LocalArgument(j % 256)
    case InlinedArgument(j) => InlinedArgument(j % 256)
  }

  function EnvironmentElements(p: Program, z: State, s: nat, es: seq<nat>): (r: seq<Element>)
    requires Shaped(p, z) && 0 < s < |p| && forall e :: e in es ==> e in z.environments[s]
    ensures |r| == |es| && forall i :: 0 <= i < |es| ==> r[i] == Written(EnvironmentOf(p, z, s, es[i]))
  {
    if es == [] then [] else [Written(EnvironmentOf(p, z, s, es[0]))] + EnvironmentElements(p, z, s, es[1..])
  }

  function ArgumentElements(p: Program, z: State, at: Positions, s: nat, xs: seq<Name>): (r: seq<Element>)
    requires Shaped(p, z) && 0 < s < |p|
    ensures |r| == |xs| && forall i :: 0 <= i < |xs| ==> r[i] == Written(ArgumentOf(p, z, at, p[s].parent, xs[i]))
  {
    if xs == [] then []
    else [Written(ArgumentOf(p, z, at, p[s].parent, xs[0]))] + ArgumentElements(p, z, at, s, xs[1..])
  }

  /** The elements of a real block: self, environments, arguments. */
  function ClosureElements(p: Program, z: State, at: Positions, s: nat): (r: seq<Element>)
    requires Shaped(p, z) && 0 < s < |p|
    ensures |r| == CapturedSize(p, z, s)
  {
    (if z.selves[s] then [SelfElement] else [])
    + EnvironmentElements(p, z, s, z.environments[s])
    + ArgumentElements(p, z, at, s, CapturedArguments(p, z, s))
  }

  /** A captured environment, or argument, is the element with its number, as it is written. */
  lemma ElementOfEnvironment(p: Program, z: State, at: Positions, s: nat, e: nat)
    requires Shaped(p, z) && 0 < s < |p| && e in z.environments[s]
    ensures var i := EnvironmentIndex(p, z, s, e);
      1 <= i <= CapturedSize(p, z, s) && ClosureElements(p, z, at, s)[i - 1] == Written(EnvironmentOf(p, z, s, e))
  {
    hide EnvironmentOf, ArgumentOf, CapturedArguments;
    var first := if z.selves[s] then [SelfElement] else [];
    var es := z.environments[s];
    Middle(first, EnvironmentElements(p, z, s, es), ArgumentElements(p, z, at, s, CapturedArguments(p, z, s)),
      Place(es, e));
  }

  lemma Middle(a: seq<Element>, b: seq<Element>, c: seq<Element>, i: nat)
    requires i < |b|
    ensures (a + b + c)[|a| + i] == b[i]
  {}

  lemma ElementOfArgument(p: Program, z: State, at: Positions, s: nat, x: Name)
    requires Shaped(p, z) && 0 < s < |p| && x in CapturedArguments(p, z, s)
    ensures var i := ArgumentSlot(p, z, s, x);
      && 1 <= i <= CapturedSize(p, z, s)
      && ClosureElements(p, z, at, s)[i - 1] == Written(ArgumentOf(p, z, at, p[s].parent, x))
  {
    hide EnvironmentOf, ArgumentOf, CapturedArguments;
    var first := (if z.selves[s] then [SelfElement] else []) + EnvironmentElements(p, z, s, z.environments[s]);
    var xs := CapturedArguments(p, z, s);
    Middle(first, ArgumentElements(p, z, at, s, xs), [], Place(xs, x));
  }

  method EncodeClosureElements(p: Program, z: State, at: Positions, s: nat) returns (elements: seq<Element>)
    requires Shaped(p, z) && 0 < s < |p|
    ensures elements == ClosureElements(p, z, at, s)
  {
    hide EnvironmentIndex, ArgumentOf, CapturedArguments;
    elements := [];
    if z.selves[s] {
      elements := elements + [SelfElement];
    }
    elements := AddEnvironments(p, z, s, elements);
    elements := AddArguments(p, z, at, s, elements);
  }

  method AddEnvironments(p: Program, z: State, s: nat, first: seq<Element>) returns (elements: seq<Element>)
    requires Shaped(p, z) && 0 < s < |p|
    ensures elements == first + EnvironmentElements(p, z, s, z.environments[s])
  {
    hide EnvironmentOf, Written, EnvironmentElements;
    elements := first;
    var es := z.environments[s];
    for i := 0 to |es|
      invariant elements == first + EnvironmentElements(p, z, s, es)[..i]
    {
      elements := elements + [Written(EnvironmentOf(p, z, s, es[i]))];
    }
  }

  method AddArguments(p: Program, z: State, at: Positions, s: nat, first: seq<Element>) returns (elements: seq<Element>)
    requires Shaped(p, z) && 0 < s < |p|
    ensures elements == first + ArgumentElements(p, z, at, s, CapturedArguments(p, z, s))
  {
    hide ArgumentOf, CapturedArguments, Written, ArgumentElements;
    elements := first;
    var xs := CapturedArguments(p, z, s);
    for i := 0 to |xs|
      invariant elements == first + ArgumentElements(p, z, at, s, xs)[..i]
    {
      elements := elements + [Written(ArgumentOf(p, z, at, p[s].parent, xs[i]))];
    }
  }

  // ---- capturing

  /** The slots of a new closure are what its elements say of the creator's frame. */
  predicate Captures(elements: seq<Element>, creator: Frame, slots: seq<Oop>) {
    |elements| <= |slots| && forall i :: 0 <= i < |elements| ==> Taken(elements[i], creator) == Some(slots[i])
  }

  /** None when an element is not there to be taken. */
  method CaptureClosure(elements: seq<Element>, creator: Frame) returns (slots: Option<seq<Oop>>)
    ensures slots.Some? ==> |slots.value| == |elements| && Captures(elements, creator, slots.value)
    ensures slots.None? <==> exists i :: 0 <= i < |elements| && Taken(elements[i], creator).None?
  {
    var vs := [];
    slots := None;
    for i := 0 to |elements|
      invariant |vs| == i && forall k :: 0 <= k < i ==> Taken(elements[k], creator) == Some(vs[k])
    {
      var v := Taken(elements[i], creator);
      if v.None? {
        return;
      }
      vs := vs + [v.value];
    }
    slots := Some(vs);
  }

  /** The frames of a script and of the real scripts around it, each block's closure made in the
      frame of the script around. A block that captures self runs with the self it captured. */
  predicate Lexical(p: Program, z: State, at: Positions, frames: seq<Frame>, s: nat)
    requires Shaped(p, z) && s < |p| && |frames| == |p|
    decreases s
  {
    s == 0
    || (Captures(ClosureElements(p, z, at, s), frames[RealParent(p, s)], frames[s].slots)
        && (z.selves[s] ==> At(frames[s].slots, 1) == Some(frames[s].self_))
        && Lexical(p, z, at, frames, RealParent(p, s)))
  }

  // ---- what a slot really holds

  /** Something of a script's frame: its self, its environment, one of its arguments or stack
      cells, or a slot of its environment that is its own. */
  datatype Content =
    | SelfIn(script: nat)
    | EnvironmentIn(script: nat)
    | ArgumentIn(script: nat, index: nat)
    | CellIn(script: nat, index: nat)
    | OwnSlot(script: nat, index: nat)

  /** What a slot of a script's environment holds, following the encoded elements outwards: an
      environment taken from the creator's environment is whatever the creator has there. */
  function Held(p: Program, z: State, at: Positions, s: nat, i: nat): (c: Content)
    requires Shaped(p, z) && s < |p|
    ensures c.script < |p|
    decreases s
  {
    if s == 0 || i == 0 || i > CapturedSize(p, z, s) then OwnSlot(s, i)
    else
      var r := RealParent(p, s);
      match ClosureElements(p, z, at, s)[i - 1]
      case SelfElement => SelfIn(r)
      case EnvironmentElement => EnvironmentIn(r)
      case EnvironmentValue(j) => Held(p, z, at, r, j)
      case LocalArgument(j) => ArgumentIn(r, j)
      case InlinedArgument(j) => CellIn(r, j)
  }

  function ContentOf(frames: seq<Frame>, c: Content): Option<Oop>
    requires c.script < |frames|
  {
    var f := frames[c.script];
    match c
    case SelfIn(_) => Some(f.self_)
    case EnvironmentIn(_) => Some(f.env)
    case ArgumentIn(_, i) => At(f.args, i)
    case CellIn(_, i) => At(f.temps, i)
    case OwnSlot(_, i) => At(f.slots, i)
  }

  lemma {:induction false} SlotHolds(p: Program, z: State, at: Positions, frames: seq<Frame>, s: nat, i: nat)
    requires Shaped(p, z) && s < |p| && |frames| == |p| && Lexical(p, z, at, frames, s)
    ensures At(frames[s].slots, i) == ContentOf(frames, Held(p, z, at, s, i))
    decreases s
  {
    hide ClosureElements, CapturedSize;
    if s > 0 && 1 <= i <= CapturedSize(p, z, s) {
      var el := ClosureElements(p, z, at, s)[i - 1];
      assert Taken(el, frames[RealParent(p, s)]) == Some(frames[s].slots[i - 1]);
      if el.EnvironmentValue? {
        SlotHolds(p, z, at, frames, RealParent(p, s), el.index);
      }
    }
  }

  /** The slot meant for a captured environment has it. */
  predicate Holds(p: Program, z: State, at: Positions, s: nat, e: nat)
    requires Shaped(p, z) && s < |p| && e in z.environments[s]
  {
    Held(p, z, at, s, EnvironmentIndex(p, z, s, e)) == EnvironmentIn(e)
  }

  /** An environment is an object of its own: it is in no variable, and not a receiver. */
  predicate OwnEnvironments(p: Program, z: State, frames: seq<Frame>)
    requires Shaped(p, z) && |frames| == |p|
  {
    forall e, r :: 0 <= e < |p| && 0 <= r < |p| ==>
      && (frames[r].env == frames[e].env ==> r == e)
      && frames[r].self_ != frames[e].env && frames[e].env !in frames[r].args && frames[e].env !in frames[r].temps
      && forall i :: CapturedSize(p, z, r) <= i < |frames[r].slots| ==> frames[r].slots[i] != frames[e].env
  }

  /** The numbers that the scripts outwards give to one environment are the same, and each fits
      in a byte. */
  predicate AgreesOn(p: Program, z: State, s: nat, e: nat)
    requires Shaped(p, z) && s < |p| && e in z.environments[s]
    decreases s
  {
    0 < s && var r := RealParent(p, s);
    e == r
    || (e in z.environments[r] && EnvironmentIndex(p, z, s, e) == EnvironmentIndex(p, z, r, e) < 256
        && AgreesOn(p, z, r, e))
  }

  lemma {:induction false} AgreeingHolds(p: Program, z: State, at: Positions, s: nat, e: nat)
    requires Shaped(p, z) && s < |p| && e in z.environments[s] && AgreesOn(p, z, s, e)
    ensures Holds(p, z, at, s, e)
    decreases s
  {
    hide ClosureElements, CapturedSize, EnvironmentIndex;
    ElementOfEnvironment(p, z, at, s, e);
    if e != RealParent(p, s) {
      AgreeingHolds(p, z, at, RealParent(p, s), e);
    }
  }

  /** A captured environment is that of the script it is meant to be when, and among environments
      that are objects of their own only when, its slot holds it. */
  lemma EnvironmentReached(p: Program, z: State, at: Positions, frames: seq<Frame>, s: nat, e: nat)
    requires Invariant(p, z) && s < |p| && !p[s].inlined && |frames| == |p| && e in z.environments[s]
    requires Lexical(p, z, at, frames, s)
    ensures e < |p| && At(frames[s].slots, EnvironmentIndex(p, z, s, e)).Some?
    ensures var found := At(frames[s].slots, EnvironmentIndex(p, z, s, e)) == Some(frames[e].env);
      && (Holds(p, z, at, s, e) ==> found)
      && (OwnEnvironments(p, z, frames) ==> (found <==> Holds(p, z, at, s, e)))
  {
    hide ClosureElements, CapturedSize, EnvironmentIndex;
    assert EnvironmentsOk(p, z, s);
    ElementOfEnvironment(p, z, at, s, e);
    SlotHolds(p, z, at, frames, s, EnvironmentIndex(p, z, s, e));
    HeldElsewhere(p, z, at, s, EnvironmentIndex(p, z, s, e));
  }

  /** Own slots come after the captured ones. */
  lemma {:induction false} HeldElsewhere(p: Program, z: State, at: Positions, s: nat, i: nat)
    requires Shaped(p, z) && s < |p|
    ensures var c := Held(p, z, at, s, i);
      c.OwnSlot? ==> c.index == 0 || CapturedSize(p, z, c.script) < c.index
    decreases s
  {
    hide ClosureElements, RealParent;
    if s > 0 && 1 <= i <= CapturedSize(p, z, s) {
      var el := ClosureElements(p, z, at, s)[i - 1];
      if el.EnvironmentValue? {
        HeldElsewhere(p, z, at, RealParent(p, s), el.index);
      }
    }
  }

  // ---- frames for any layout

  function Largest(elements: seq<Element>): (n: nat)
    ensures forall el :: el in elements ==> IndexIn(el) <= n
  {
    if elements == [] then 0 else
    var n, i := Largest(elements[1..]), IndexIn(elements[0]);
    if n < i then i else n
  }

  function LargestUpTo(p: Program, z: State, at: Positions, s: nat): nat
    requires Shaped(p, z) && s <= |p|
  {
    if s <= 1 then 0 else
    var n, m := LargestUpTo(p, z, at, s - 1), Largest(ClosureElements(p, z, at, s - 1));
    if n < m then m else n
  }

  lemma {:induction false} LargestOfAll(p: Program, z: State, at: Positions, s: nat, k: nat)
    requires Shaped(p, z) && 0 < k < s <= |p|
    ensures Largest(ClosureElements(p, z, at, k)) <= LargestUpTo(p, z, at, s)
  {
    hide ClosureElements, Largest;
    if k < s - 1 {
      LargestOfAll(p, z, at, s - 1, k);
    }
  }

  /** No element of a block or of those around it is written with index 0, where there is nothing
      to be taken. */
  predicate Placed(p: Program, z: State, at: Positions, s: nat)
    requires Shaped(p, z) && s < |p|
    decreases s
  {
    s == 0
    || ((forall el :: el in ClosureElements(p, z, at, s) ==> 1 <= IndexIn(el)) && Placed(p, z, at, RealParent(p, s)))
  }

  /** 0 for self, a number for each environment, one for what is to stand out, and one for
      everything else. */
  function Token(p: Program, out: Content, c: Content): Oop {
    match c
    case SelfIn(_) => 0
    case EnvironmentIn(r) => r + 1
    case _ => if c == out then |p| + 2 else |p| + 1
  }

  /** How many arguments, cells and slots there have to be. */
  function SampleSize(p: Program, z: State, at: Positions, out: Content): (n: nat)
    requires Shaped(p, z)
    ensures LargestUpTo(p, z, at, |p|) <= n
    ensures out.ArgumentIn? || out.CellIn? ==> out.index <= n
  {
    LargestUpTo(p, z, at, |p|) + if out.ArgumentIn? || out.CellIn? then out.index else 0
  }

  function SampleFrame(p: Program, z: State, at: Positions, out: Content, s: nat): Frame
    requires Shaped(p, z) && s < |p|
  {
    hide ClosureElements, CapturedSize, Largest, LargestUpTo, Held, Token;
    var n := SampleSize(p, z, at, out);
    var args := seq(n, i requires i >= 0 => Token(p, out, ArgumentIn(s, i + 1)));
    var temps := seq(n, i requires i >= 0 => Token(p, out, CellIn(s, i + 1)));
    var slots := seq(CapturedSize(p, z, s) + n, i requires i >= 0 => Token(p, out, Held(p, z, at, s, i + 1)));
    Frame(0, s + 1, slots, args, temps)
  }

  lemma SampleCaptures(p: Program, z: State, at: Positions, out: Content, s: nat)
    requires Shaped(p, z) && 0 < s < |p| && forall el :: el in ClosureElements(p, z, at, s) ==> 1 <= IndexIn(el)
    ensures Captures(ClosureElements(p, z, at, s), SampleFrame(p, z, at, out, RealParent(p, s)),
      SampleFrame(p, z, at, out, s).slots)
  {
    hide ClosureElements, CapturedSize, RealParent, Largest, LargestUpTo, SampleSize, Token;
    var elements, f, r := ClosureElements(p, z, at, s), SampleFrame(p, z, at, out, s), RealParent(p, s);
    LargestOfAll(p, z, at, |p|, s);
    forall i | 0 <= i < |elements|
      ensures Taken(elements[i], SampleFrame(p, z, at, out, r)) == Some(f.slots[i])
    {
      assert 1 <= IndexIn(elements[i]) <= Largest(elements);
      assert f.slots[i] == Token(p, out, Held(p, z, at, s, i + 1));
      TokenOfSelf(p, out, r);
    }
  }

  lemma TokenOfSelf(p: Program, out: Content, r: nat)
    ensures Token(p, out, SelfIn(r)) == 0 && Token(p, out, EnvironmentIn(r)) == r + 1
  {}

  lemma {:induction false} SampleLexical(p: Program, z: State, at: Positions, out: Content, frames: seq<Frame>, s: nat)
    requires Shaped(p, z) && s < |p| && Placed(p, z, at, s) && |frames| == |p|
    requires forall k :: 0 <= k < |p| ==> frames[k] == SampleFrame(p, z, at, out, k)
    ensures Lexical(p, z, at, frames, s)
    decreases s
  {
    hide SampleFrame, CapturedSize, ClosureElements;
    if s > 0 {
      SampleCaptures(p, z, at, out, s);
      SampleLexical(p, z, at, out, frames, RealParent(p, s));
      if z.selves[s] {
        SampleSelf(p, z, at, out, s);
      }
    }
  }

  lemma SampleSelf(p: Program, z: State, at: Positions, out: Content, s: nat)
    requires Shaped(p, z) && 0 < s < |p| && z.selves[s]
    ensures At(SampleFrame(p, z, at, out, s).slots, 1) == Some(SampleFrame(p, z, at, out, s).self_)
  {
    hide ClosureElements, CapturedSize;
    FirstElement(p, z, at, s);
    assert Held(p, z, at, s, 1) == SelfIn(RealParent(p, s));
  }

  lemma FirstElement(p: Program, z: State, at: Positions, s: nat)
    requires Shaped(p, z) && 0 < s < |p| && z.selves[s]
    ensures 1 <= CapturedSize(p, z, s) && ClosureElements(p, z, at, s)[0] == SelfElement
  {
    hide EnvironmentElements, ArgumentElements, CapturedArguments;
  }

  /** When every element has a place to be taken from there are frames of which a layout's closures
      can be made, each environment an object of its own, and the value of any one argument or
      cell nowhere else. */
  lemma FramesExist(p: Program, z: State, at: Positions, out: Content, s: nat) returns (frames: seq<Frame>)
    requires Shaped(p, z) && s < |p| && Placed(p, z, at, s) && out.script < |p|
    ensures |frames| == |p| && Lexical(p, z, at, frames, s) && OwnEnvironments(p, z, frames)
    ensures (out.ArgumentIn? || out.CellIn?) && 1 <= out.index ==> OwnValue(p, z, frames, out)
  {
    hide SampleFrame, Lexical, Placed, OwnEnvironments, OwnValue;
    frames := seq(|p|, k requires 0 <= k < |p| => SampleFrame(p, z, at, out, k));
    SampleLexical(p, z, at, out, frames, s);
    SampleApart(p, z, at, out, frames);
    if (out.ArgumentIn? || out.CellIn?) && 1 <= out.index {
      SampleStandsOut(p, z, at, out, frames);
    }
  }

  lemma SampleApart(p: Program, z: State, at: Positions, out: Content, frames: seq<Frame>)
    requires Shaped(p, z) && |frames| == |p|
    requires forall k :: 0 <= k < |p| ==> frames[k] == SampleFrame(p, z, at, out, k)
    ensures OwnEnvironments(p, z, frames)
  {
    hide ClosureElements, CapturedSize, SampleSize, LargestUpTo;
    forall e, r, i | 0 <= e < |p| && 0 <= r < |p| && CapturedSize(p, z, r) <= i < |frames[r].slots|
      ensures frames[r].slots[i] != frames[e].env
    {
      assert frames[r].slots[i] == Token(p, out, Held(p, z, at, r, i + 1));
    }
  }

  lemma SampleStandsOut(p: Program, z: State, at: Positions, out: Content, frames: seq<Frame>)
    requires Shaped(p, z) && |frames| == |p| && out.script < |p| && (out.ArgumentIn? || out.CellIn?) && 1 <= out.index
    requires forall k :: 0 <= k < |p| ==> frames[k] == SampleFrame(p, z, at, out, k)
    ensures OwnValue(p, z, frames, out)
  {
    hide SampleFrame, CapturedSize, ContentOf, Token;
    SampleContent(p, z, at, out, frames, out);
    TokenStandsOut(p, out, out);
    forall c: Content |
      c.script < |p| && (c.OwnSlot? ==> CapturedSize(p, z, c.script) < c.index)
      && ContentOf(frames, c) == ContentOf(frames, out)
      ensures c == out
    {
      SampleContent(p, z, at, out, frames, c);
      TokenStandsOut(p, out, c);
    }
  }

  lemma TokenStandsOut(p: Program, out: Content, c: Content)
    requires c.script < |p| && (out.ArgumentIn? || out.CellIn?)
    ensures Token(p, out, c) == |p| + 2 <==> c == out
  {}

  lemma SampleContent(p: Program, z: State, at: Positions, out: Content, frames: seq<Frame>, c: Content)
    requires Shaped(p, z) && |frames| == |p| && c.script < |p|
    requires forall k :: 0 <= k < |p| ==> frames[k] == SampleFrame(p, z, at, out, k)
    requires c.OwnSlot? ==> CapturedSize(p, z, c.script) < c.index
    ensures ContentOf(frames, c).Some? ==> ContentOf(frames, c) == Some(Token(p, out, c))
    ensures c == out && (out.ArgumentIn? || out.CellIn?) && 1 <= out.index ==> ContentOf(frames, c).Some?
  {
    hide ClosureElements, CapturedSize, SampleSize;
  }

  /** And only then. */
  lemma {:induction false} FramesArePlaced(p: Program, z: State, at: Positions, frames: seq<Frame>, s: nat)
    requires Shaped(p, z) && s < |p| && |frames| == |p| && Lexical(p, z, at, frames, s)
    ensures Placed(p, z, at, s)
    decreases s
  {
    hide ClosureElements;
    if s > 0 {
      FramesArePlaced(p, z, at, frames, RealParent(p, s));
      var elements := ClosureElements(p, z, at, s);
      forall el | el in elements
        ensures 1 <= IndexIn(el)
      {
        var i :| 0 <= i < |elements| && elements[i] == el;
        assert Taken(elements[i], frames[RealParent(p, s)]).Some?;
      }
    }
  }

  /** The numbers of a real block's environments, and those by which the script around has the
      arguments it captures, are no multiples of 256. */
  predicate Numbered(p: Program, z: State, at: Positions, s: nat)
    requires Shaped(p, z) && 0 < s < |p|
  {
    && (forall e :: e in z.environments[s] ==> IndexIn(EnvironmentOf(p, z, s, e)) % 256 != 0)
    && (forall x :: x in CapturedArguments(p, z, s) ==> IndexIn(ArgumentOf(p, z, at, p[s].parent, x)) % 256 != 0)
  }

  /** That is all it takes. */
  lemma NumbersPlace(p: Program, z: State, at: Positions, s: nat)
    requires Shaped(p, z) && 0 < s < |p|
    ensures (forall el :: el in ClosureElements(p, z, at, s) ==> 1 <= IndexIn(el)) <==> Numbered(p, z, at, s)
  {
    hide EnvironmentOf, ArgumentOf, CapturedArguments, CapturedSize, EnvironmentIndex, ArgumentSlot, Written;
    var es, xs, elements := z.environments[s], CapturedArguments(p, z, s), ClosureElements(p, z, at, s);
    if forall el :: el in elements ==> 1 <= IndexIn(el) {
      forall e | e in es
        ensures IndexIn(EnvironmentOf(p, z, s, e)) % 256 != 0
      {
        ElementOfEnvironment(p, z, at, s, e);
      }
      forall x | x in xs
        ensures IndexIn(ArgumentOf(p, z, at, p[s].parent, x)) % 256 != 0
      {
        ElementOfArgument(p, z, at, s, x);
      }
    }
    if Numbered(p, z, at, s) {
      assert forall e :: e in es ==> IndexIn(Written(EnvironmentOf(p, z, s, e))) != 0;
      assert forall x :: x in xs ==> IndexIn(Written(ArgumentOf(p, z, at, p[s].parent, x))) != 0;
      forall el | el in elements
        ensures 1 <= IndexIn(el)
      {
        assert el == SelfElement || el in EnvironmentElements(p, z, s, es) || el in ArgumentElements(p, z, at, s, xs);
      }
    }
  }

  /** With every declaration at a position the numbers meant are never 0, so that there are no
      such multiples unless there are numbers above 255. */
  lemma PositionsPlace(p: Program, z: State, at: Positions, s: nat)
    requires Invariant(p, z) && 0 < s < |p| && forall l :: l in at ==> 1 <= at[l]
    requires forall d: nat, x: Name :: d < |p| && Defines(p, d, x) ==> (d, x) in at
    ensures forall e :: e in z.environments[s] ==> 1 <= IndexIn(EnvironmentOf(p, z, s, e))
    ensures forall x :: x in CapturedArguments(p, z, s) ==> 1 <= IndexIn(ArgumentOf(p, z, at, p[s].parent, x))
  {
    hide CapturedSize, EnvironmentIndex, ArgumentSlot, ArgumentOf, EnvironmentOf;
    forall e | e in z.environments[s]
      ensures 1 <= IndexIn(EnvironmentOf(p, z, s, e))
    {
      EnvironmentPlaced(p, z, s, e);
    }
    forall x | x in CapturedArguments(p, z, s)
      ensures 1 <= IndexIn(ArgumentOf(p, z, at, p[s].parent, x))
    {
      ArgumentPlaced(p, z, at, s, x);
    }
  }

  lemma EnvironmentPlaced(p: Program, z: State, s: nat, e: nat)
    requires Shaped(p, z) && 0 < s < |p| && e in z.environments[s]
    ensures 1 <= IndexIn(EnvironmentOf(p, z, s, e))
  {}

  lemma ArgumentPlaced(p: Program, z: State, at: Positions, s: nat, x: Name)
    requires Invariant(p, z) && 0 < s < |p| && x in CapturedArguments(p, z, s)
    requires forall l :: l in at ==> 1 <= at[l]
    requires forall d: nat, y: Name :: d < |p| && Defines(p, d, y) ==> (d, y) in at
    ensures 1 <= IndexIn(ArgumentOf(p, z, at, p[s].parent, x))
  {
    var parent := p[s].parent;
    assert CapturedOk(p, z, s);
    OwnerIs(p, z, parent, x);
    var o := Owner(p, z, parent, x).value;
    if !Defines(p, o, x) {
      CopyIsCaptured(p, z, parent, x);
    }
  }

  // ---- addresses

  /** -2 is the stack, -1 the cell of an inlined argument, 0 the environment in E, and otherwise
      the environment in that slot of E. */
  datatype Address = Address(index: nat, env: int)

  function AddressOf(p: Program, z: State, at: Positions, s: nat, x: Name): Address
    requires Shaped(p, z) && s < |p|
  {
    match (Owner(p, z, s, x), ScriptDefining(p, s, x))
    case (Some(o), Some(d)) =>
      var index := if (d, x) in at then at[(d, x)] else 0;
      if o == d then
        Address(index, if (d, x) in z.inArray then 0 else if p[d].inlined && !IsTemporary(p, d, x) then -1 else -2)
      else if IsTemporary(p, d, x) then
        var e := RealScript(p, d);
        Address(index, if e in z.environments[o] then EnvironmentIndex(p, z, o, e) else 0)
      else
        Address(if x in CapturedArguments(p, z, o) then ArgumentSlot(p, z, o, x) else 0, 0)
    case _ => Address(0, 0)
  }

  /** A cell of a frame, or a slot of an environment. */
  datatype Cell = StackCell(script: nat, index: nat) | Slot(env: Oop, index: nat)

  function CellOf(frames: seq<Frame>, r: nat, a: Address): Option<Cell>
    requires r < |frames|
  {
    if a.env < 0 then Some(StackCell(r, a.index))
    else if a.env == 0 then Some(Slot(frames[r].env, a.index))
    else
      match At(frames[r].slots, a.env)
      case None => None
      case Some(env) => Some(Slot(env, a.index))
  }

  /** Within the real script that declares it, or with its environment where it is meant to be. */
  predicate InReach(p: Program, z: State, at: Positions, s: nat, x: Name)
    requires Shaped(p, z) && s < |p| && ScriptDefining(p, s, x).Some?
  {
    var b, e := RealScript(p, s), RealScript(p, ScriptDefining(p, s, x).value);
    e == b || (e in z.environments[b] && Holds(p, z, at, b, e))
  }

  /** A reference finds a temporary in the cell of its declaration when the environment is where
      it is meant to be, and only then when environments are objects of their own. */
  lemma TemporaryReached(p: Program, z: State, at: Positions, frames: seq<Frame>, s: nat, x: Name)
    requires Invariant(p, z) && s < |p| && |frames| == |p| && ScriptDefining(p, s, x).Some?
    requires IsTemporary(p, ScriptDefining(p, s, x).value, x) && (Defines(p, s, x) || x in z.captured[s])
    requires Lexical(p, z, at, frames, RealScript(p, s))
    ensures var d := ScriptDefining(p, s, x).value;
      var here := CellOf(frames, RealScript(p, s), AddressOf(p, z, at, s, x));
      var there := CellOf(frames, RealScript(p, d), AddressOf(p, z, at, d, x));
      && here.Some? && there.Some?
      && (InReach(p, z, at, s, x) ==> here == there)
      && (OwnEnvironments(p, z, frames) ==> (here == there <==> InReach(p, z, at, s, x)))
  {
    hide EnvironmentIndex, Lexical, Holds, OwnEnvironments;
    var d := ScriptDefining(p, s, x).value;
    OwnerIs(p, z, s, x);
    OwnerIs(p, z, d, x);
    if RealScript(p, d) != RealScript(p, s) {
      assert TemporaryOk(p, z, s, x);
      EnvironmentReached(p, z, at, frames, RealScript(p, s), RealScript(p, d));
    }
  }

  /** Frames of the real script a place is in, and of those around it. */
  predicate Run(p: Program, z: State, at: Positions, frames: seq<Frame>, s: nat)
    requires Shaped(p, z) && s < |p|
  {
    |frames| == |p| && Lexical(p, z, at, frames, RealScript(p, s))
  }

  /** There are runs when every element has a place, and the reference finds it in all of them
      exactly when its environment is where it is meant to be. */
  lemma TemporaryAlwaysReached(p: Program, z: State, at: Positions, s: nat, x: Name)
    requires Invariant(p, z) && s < |p| && ScriptDefining(p, s, x).Some?
    requires IsTemporary(p, ScriptDefining(p, s, x).value, x) && (Defines(p, s, x) || x in z.captured[s])
    ensures (exists frames: seq<Frame> :: Run(p, z, at, frames, s)) <==> Placed(p, z, at, RealScript(p, s))
    ensures Placed(p, z, at, RealScript(p, s)) ==>
      ((forall frames: seq<Frame> :: Run(p, z, at, frames, s) ==>
          CellOf(frames, RealScript(p, s), AddressOf(p, z, at, s, x))
          == CellOf(frames, RealScript(p, ScriptDefining(p, s, x).value),
                    AddressOf(p, z, at, ScriptDefining(p, s, x).value, x)))
       <==> InReach(p, z, at, s, x))
  {
    hide Placed, OwnEnvironments, CellOf, AddressOf, Lexical, InReach;
    forall frames: seq<Frame> | Run(p, z, at, frames, s)
      ensures Placed(p, z, at, RealScript(p, s))
      ensures InReach(p, z, at, s, x) ==>
        CellOf(frames, RealScript(p, s), AddressOf(p, z, at, s, x))
        == CellOf(frames, RealScript(p, ScriptDefining(p, s, x).value),
                  AddressOf(p, z, at, ScriptDefining(p, s, x).value, x))
    {
      FramesArePlaced(p, z, at, frames, RealScript(p, s));
      TemporaryReached(p, z, at, frames, s, x);
    }
    if Placed(p, z, at, RealScript(p, s)) {
      var sample := FramesExist(p, z, at, SelfIn(0), RealScript(p, s));
      assert Run(p, z, at, sample, s);
      TemporaryReached(p, z, at, sample, s, x);
    }
  }

  /** Of a whole method, analysed: a reference to a temporary finds it in every run exactly when
      the environment is where it is meant to be, following the elements as they are written. */
  lemma AnalysedReferenceReached(p: Program, events: seq<Event>, at: Positions, s: nat, x: Name)
    requires (forall e :: e in events ==> Allowed(p, e)) && Local(s, x) in events && Allowed(p, Local(s, x))
    requires IsTemporary(p, ScriptDefining(p, s, x).value, x)
    ensures var z := AfterAll(p, Fresh(p), events);
      (exists frames: seq<Frame> :: Run(p, z, at, frames, s)) <==> Placed(p, z, at, RealScript(p, s))
    ensures var z := AfterAll(p, Fresh(p), events);
      Placed(p, z, at, RealScript(p, s)) ==>
      ((forall frames: seq<Frame> :: Run(p, z, at, frames, s) ==>
          CellOf(frames, RealScript(p, s), AddressOf(p, z, at, s, x))
          == CellOf(frames, RealScript(p, ScriptDefining(p, s, x).value),
                    AddressOf(p, z, at, ScriptDefining(p, s, x).value, x)))
       <==> InReach(p, z, at, s, x))
  {
    hide Placed, CellOf, AddressOf, Run, InReach, AfterAll, Invariant;
    var z := AfterAll(p, Fresh(p), events);
    MethodAnalysis(p, events);
    assert Reached(p, z, Local(s, x));
    TemporaryAlwaysReached(p, z, at, s, x);
  }

  /** A variable with a cell is in the frame or in the environment of its real script, at its
      position; in a block's environment that is past what the block captured. */
  lemma CellAt(p: Program, z: State, at: Positions, frames: seq<Frame>, stackSizes: seq<nat>, envSizes: seq<nat>,
               d: nat, x: Name)
    requires Invariant(p, z) && d < |p| == |frames| && Defines(p, d, x) && HasCell(p, d, x) && (d, x) in at
    requires |stackSizes| == |envSizes| == |p| && Apart(p, z, at, stackSizes, envSizes)
    ensures var r := RealScript(p, d);
      && CellOf(frames, r, AddressOf(p, z, at, d, x))
         == Some(if (d, x) in z.inArray then Slot(frames[r].env, at[(d, x)]) else StackCell(r, at[(d, x)]))
      && 1 <= at[(d, x)] && ((d, x) in z.inArray ==> CapturedSize(p, z, r) < at[(d, x)])
  {
    OwnerIs(p, z, d, x);
  }

  /** Two variables never share a cell, wherever they are declared. */
  lemma CellsApart(p: Program, z: State, at: Positions, frames: seq<Frame>, stackSizes: seq<nat>, envSizes: seq<nat>,
                   d: nat, x: Name, d': nat, x': Name)
    requires Invariant(p, z) && d < |p| == |frames| && Defines(p, d, x) && HasCell(p, d, x) && (d, x) in at
    requires d' < |p| && Defines(p, d', x') && HasCell(p, d', x') && (d', x') in at && (d, x) != (d', x')
    requires |stackSizes| == |envSizes| == |p| && Apart(p, z, at, stackSizes, envSizes)
    requires OwnEnvironments(p, z, frames)
    ensures CellOf(frames, RealScript(p, d), AddressOf(p, z, at, d, x))
         != CellOf(frames, RealScript(p, d'), AddressOf(p, z, at, d', x'))
  {
    hide AddressOf, CellOf, Invariant;
    CellAt(p, z, at, frames, stackSizes, envSizes, d, x);
    CellAt(p, z, at, frames, stackSizes, envSizes, d', x');
  }

  /** And so references to different temporaries, both within reach, lead to different cells. */
  lemma ReferencesApart(p: Program, z: State, at: Positions, frames: seq<Frame>, stackSizes: seq<nat>,
                        envSizes: seq<nat>, s: nat, x: Name, s': nat, x': Name)
    requires Invariant(p, z) && s < |p| == |frames| && s' < |p|
    requires ScriptDefining(p, s, x).Some? && ScriptDefining(p, s', x').Some?
    requires var d, d' := ScriptDefining(p, s, x).value, ScriptDefining(p, s', x').value;
      IsTemporary(p, d, x) && IsTemporary(p, d', x') && (d, x) in at && (d', x') in at && (d, x) != (d', x')
    requires (Defines(p, s, x) || x in z.captured[s]) && (Defines(p, s', x') || x' in z.captured[s'])
    requires InReach(p, z, at, s, x) && InReach(p, z, at, s', x') && OwnEnvironments(p, z, frames)
    requires Lexical(p, z, at, frames, RealScript(p, s)) && Lexical(p, z, at, frames, RealScript(p, s'))
    requires |stackSizes| == |envSizes| == |p| && Apart(p, z, at, stackSizes, envSizes)
    ensures CellOf(frames, RealScript(p, s), AddressOf(p, z, at, s, x))
         != CellOf(frames, RealScript(p, s'), AddressOf(p, z, at, s', x'))
  {
    hide AddressOf, CellOf, Lexical, InReach, Invariant, OwnEnvironments, Apart;
    TemporaryReached(p, z, at, frames, s, x);
    TemporaryReached(p, z, at, frames, s', x');
    CellsApart(p, z, at, frames, stackSizes, envSizes, ScriptDefining(p, s, x).value, x,
      ScriptDefining(p, s', x').value, x');
  }

  /** An argument of a real script is the one of that number that the caller pushed; one of an
      inlined block is in its cell of the frame. */
  lemma ArgumentAt(p: Program, z: State, at: Positions, f: Frame, d: nat, x: Name)
    requires Invariant(p, z) && d < |p| && Defines(p, d, x) && !IsTemporary(p, d, x) && (d, x) in at
    ensures ValueAt(f, AddressOf(p, z, at, d, x)) == At(if p[d].inlined then f.temps else f.args, at[(d, x)])
    ensures Declared(p, at, d, x)
      == if p[d].inlined then CellIn(RealScript(p, d), at[(d, x)]) else ArgumentIn(d, at[(d, x)])
  {
    OwnerIs(p, z, d, x);
  }

  /** The value of an argument in a frame: pushed by the caller, in a cell, or captured. */
  function ValueAt(f: Frame, a: Address): Option<Oop> {
    if a.env == -2 then At(f.args, a.index) else if a.env == -1 then At(f.temps, a.index) else At(f.slots, a.index)
  }

  lemma {:induction false} CopyIsCaptured(p: Program, z: State, s: nat, x: Name)
    requires Shaped(p, z) && s < |p| && Owner(p, z, s, x).Some? && !Defines(p, Owner(p, z, s, x).value, x)
    ensures var o := Owner(p, z, s, x).value;
      o > 0 && x in z.captured[o] && !p[o].inlined && ScriptDefining(p, o, x) == ScriptDefining(p, s, x)
    decreases s
  {
    if !(x in z.captured[s] && !p[s].inlined) {
      CopyIsCaptured(p, z, p[s].parent, x);
    }
  }

  /** What is taken for an argument is what its address leads to. */
  lemma TakenAtAddress(p: Program, z: State, at: Positions, s: nat, x: Name, f: Frame)
    requires Invariant(p, z) && s < |p| && ScriptDefining(p, s, x).Some?
    requires !IsTemporary(p, ScriptDefining(p, s, x).value, x) && (Defines(p, s, x) || x in z.captured[s])
    ensures Taken(ArgumentOf(p, z, at, s, x), f) == ValueAt(f, AddressOf(p, z, at, s, x))
  {
    OwnerIs(p, z, s, x);
    var o := Owner(p, z, s, x).value;
    if !Defines(p, o, x) {
      CopyIsCaptured(p, z, s, x);
    } else {
      Resolves(p, z, s, x);
    }
  }

  /** What an argument is where it is declared. */
  function Declared(p: Program, at: Positions, d: nat, x: Name): (c: Content)
    requires d < |p|
    ensures c.script < |p|
  {
    var index := if (d, x) in at then at[(d, x)] else 0;
    if p[d].inlined then CellIn(RealScript(p, d), index) else ArgumentIn(d, index)
  }

  /** What the address of an argument leads to. */
  function Reference(p: Program, z: State, at: Positions, s: nat, x: Name): (c: Content)
    requires Shaped(p, z) && s < |p| && ScriptDefining(p, s, x).Some?
    ensures c.script < |p|
  {
    var b, d := RealScript(p, s), ScriptDefining(p, s, x).value;
    if RealScript(p, d) == b then Declared(p, at, d, x)
    else Held(p, z, at, b, if x in CapturedArguments(p, z, b) then ArgumentSlot(p, z, b, x) else 0)
  }

  /** The value is there, and nowhere else. */
  ghost predicate OwnValue(p: Program, z: State, frames: seq<Frame>, c: Content)
    requires Shaped(p, z) && |frames| == |p| && c.script < |p|
  {
    && ContentOf(frames, c).Some?
    && forall c': Content {:trigger ContentOf(frames, c')} ::
      (c'.script < |p| && (c'.OwnSlot? ==> CapturedSize(p, z, c'.script) < c'.index)
        && ContentOf(frames, c') == ContentOf(frames, c)) ==> c' == c
  }

  /** A reference to an argument gets what following the elements outwards leads to: the value
      the argument has where it is declared if that is its declaration, and only then when the
      value is nowhere else. */
  lemma ArgumentReached(p: Program, z: State, at: Positions, frames: seq<Frame>, s: nat, x: Name)
    requires Invariant(p, z) && s < |p| && |frames| == |p| && ScriptDefining(p, s, x).Some?
    requires !IsTemporary(p, ScriptDefining(p, s, x).value, x) && (Defines(p, s, x) || x in z.captured[s])
    requires Lexical(p, z, at, frames, RealScript(p, s))
    ensures var d := ScriptDefining(p, s, x).value;
      var here := ValueAt(frames[RealScript(p, s)], AddressOf(p, z, at, s, x));
      var there := ValueAt(frames[RealScript(p, d)], AddressOf(p, z, at, d, x));
      var c := Declared(p, at, d, x);
      && here == ContentOf(frames, Reference(p, z, at, s, x)) && there == ContentOf(frames, c)
      && (Reference(p, z, at, s, x) == c ==> here == there)
      && (OwnValue(p, z, frames, c) ==> (here == there <==> Reference(p, z, at, s, x) == c))
  {
    var d := ScriptDefining(p, s, x).value;
    DeclaredAt(p, z, at, frames, d, x);
    ReferredTo(p, z, at, frames, s, x);
    hide Invariant, Lexical, AddressOf, Declared, Reference, CapturedSize, ValueAt;
  }

  /** In every run the reference gets the value the argument has where it is declared, exactly when
      it leads to the declaration. */
  lemma ArgumentAlwaysReached(p: Program, z: State, at: Positions, s: nat, x: Name)
    requires Invariant(p, z) && s < |p| && Placed(p, z, at, RealScript(p, s)) && ScriptDefining(p, s, x).Some?
    requires !IsTemporary(p, ScriptDefining(p, s, x).value, x) && (Defines(p, s, x) || x in z.captured[s])
    requires var l := (ScriptDefining(p, s, x).value, x); l in at && 1 <= at[l]
    ensures (forall frames: seq<Frame> :: Run(p, z, at, frames, s) ==>
        ValueAt(frames[RealScript(p, s)], AddressOf(p, z, at, s, x))
        == ValueAt(frames[RealScript(p, ScriptDefining(p, s, x).value)],
                   AddressOf(p, z, at, ScriptDefining(p, s, x).value, x)))
      <==> Reference(p, z, at, s, x) == Declared(p, at, ScriptDefining(p, s, x).value, x)
  {
    hide Placed, AddressOf, Lexical, ValueAt, Reference, OwnValue, OwnEnvironments;
    var c := Declared(p, at, ScriptDefining(p, s, x).value, x);
    forall frames: seq<Frame> | Run(p, z, at, frames, s)
      ensures Reference(p, z, at, s, x) == c ==>
        ValueAt(frames[RealScript(p, s)], AddressOf(p, z, at, s, x))
        == ValueAt(frames[RealScript(p, ScriptDefining(p, s, x).value)],
                   AddressOf(p, z, at, ScriptDefining(p, s, x).value, x))
    {
      ArgumentReached(p, z, at, frames, s, x);
    }
    var sample := FramesExist(p, z, at, c, RealScript(p, s));
    assert Run(p, z, at, sample, s);
    ArgumentReached(p, z, at, sample, s, x);
  }

  lemma ReferredTo(p: Program, z: State, at: Positions, frames: seq<Frame>, s: nat, x: Name)
    requires Invariant(p, z) && s < |p| && |frames| == |p| && ScriptDefining(p, s, x).Some?
    requires !IsTemporary(p, ScriptDefining(p, s, x).value, x) && (Defines(p, s, x) || x in z.captured[s])
    requires Lexical(p, z, at, frames, RealScript(p, s))
    ensures var c := Reference(p, z, at, s, x);
      && ValueAt(frames[RealScript(p, s)], AddressOf(p, z, at, s, x)) == ContentOf(frames, c)
      && (c.OwnSlot? ==> c.index == 0 || CapturedSize(p, z, c.script) < c.index)
  {
    var d, b := ScriptDefining(p, s, x).value, RealScript(p, s);
    if RealScript(p, d) == b {
      DeclaredAt(p, z, at, frames, d, x);
      SameAddress(p, z, at, s, x);
      hide Invariant, Lexical, AddressOf, CapturedSize;
    } else {
      CapturedByReal(p, z, s, x);
      CapturedAt(p, z, at, s, x);
      var slot := ArgumentSlot(p, z, b, x);
      SlotHolds(p, z, at, frames, b, slot);
      HeldElsewhere(p, z, at, b, slot);
      hide Invariant, Lexical, AddressOf, CapturedSize, ArgumentSlot, Held, Declared;
    }
  }

  lemma DeclaredAt(p: Program, z: State, at: Positions, frames: seq<Frame>, d: nat, x: Name)
    requires Invariant(p, z) && d < |p| == |frames| && Defines(p, d, x) && !IsTemporary(p, d, x)
    ensures ValueAt(frames[RealScript(p, d)], AddressOf(p, z, at, d, x)) == ContentOf(frames, Declared(p, at, d, x))
  {
    OwnerIs(p, z, d, x);
  }

  lemma SameAddress(p: Program, z: State, at: Positions, s: nat, x: Name)
    requires Invariant(p, z) && s < |p| && ScriptDefining(p, s, x).Some?
    requires Defines(p, s, x) || x in z.captured[s]
    requires RealScript(p, ScriptDefining(p, s, x).value) == RealScript(p, s)
    ensures AddressOf(p, z, at, s, x) == AddressOf(p, z, at, ScriptDefining(p, s, x).value, x)
  {
    OwnerIs(p, z, s, x);
    OwnerIs(p, z, ScriptDefining(p, s, x).value, x);
  }

  lemma CapturedAt(p: Program, z: State, at: Positions, s: nat, x: Name)
    requires Invariant(p, z) && s < |p| && ScriptDefining(p, s, x).Some?
    requires !IsTemporary(p, ScriptDefining(p, s, x).value, x) && (Defines(p, s, x) || x in z.captured[s])
    requires RealScript(p, ScriptDefining(p, s, x).value) != RealScript(p, s)
    requires x in CapturedArguments(p, z, RealScript(p, s))
    ensures AddressOf(p, z, at, s, x) == Address(ArgumentSlot(p, z, RealScript(p, s), x), 0)
  {
    OwnerIs(p, z, s, x);
  }

  /** An argument of a script further out is captured by the real script that refers to it. */
  lemma CapturedByReal(p: Program, z: State, s: nat, x: Name)
    requires Invariant(p, z) && s < |p| && ScriptDefining(p, s, x).Some?
    requires !IsTemporary(p, ScriptDefining(p, s, x).value, x) && (Defines(p, s, x) || x in z.captured[s])
    requires RealScript(p, ScriptDefining(p, s, x).value) != RealScript(p, s)
    ensures var b := RealScript(p, s);
      && 0 < b && x in CapturedArguments(p, z, b) && Owner(p, z, s, x) == Some(b)
      && ScriptDefining(p, b, x) == ScriptDefining(p, p[b].parent, x) == ScriptDefining(p, s, x)
      && (Defines(p, p[b].parent, x) || x in z.captured[p[b].parent])
  {
    OwnerIs(p, z, s, x);
    Resolves(p, z, s, x);
    CopyIsCaptured(p, z, s, x);
    assert CapturedOk(p, z, RealScript(p, s));
  }

  /** The indices by which the scripts outwards have an argument fit in a byte. */
  predicate ArgumentFits(p: Program, z: State, at: Positions, s: nat, x: Name)
    requires Shaped(p, z) && s < |p| && ScriptDefining(p, s, x).Some?
    decreases s
  {
    var b := RealScript(p, s);
    RealScript(p, ScriptDefining(p, s, x).value) == b
    || (0 < b && IndexIn(ArgumentOf(p, z, at, p[b].parent, x)) < 256
        && ScriptDefining(p, p[b].parent, x).Some? && ArgumentFits(p, z, at, p[b].parent, x))
  }

  /** Then a reference leads to the declaration. */
  lemma {:induction false} FittingArgumentReached(p: Program, z: State, at: Positions, s: nat, x: Name)
    requires Invariant(p, z) && s < |p| && ScriptDefining(p, s, x).Some?
    requires !IsTemporary(p, ScriptDefining(p, s, x).value, x) && (Defines(p, s, x) || x in z.captured[s])
    requires ArgumentFits(p, z, at, s, x)
    ensures Reference(p, z, at, s, x) == Declared(p, at, ScriptDefining(p, s, x).value, x)
    decreases s
  {
    hide ClosureElements, ArgumentSlot, EnvironmentsOk, CapturedSize;
    var d, b := ScriptDefining(p, s, x).value, RealScript(p, s);
    if RealScript(p, d) != b {
      CapturedByReal(p, z, s, x);
      ElementOfArgument(p, z, at, b, x);
      FittingArgumentReached(p, z, at, p[b].parent, x);
      OwnerIs(p, z, p[b].parent, x);
      if RealScript(p, d) != RealParent(p, b) {
        CapturedByReal(p, z, p[b].parent, x);
      }
    }
  }

  /** Out of one block the reference leads to the declaration exactly when its index fits. */
  lemma ReachedOutOfOneBlock(p: Program, z: State, at: Positions, s: nat, x: Name)
    requires Invariant(p, z) && s < |p| && ScriptDefining(p, s, x).Some?
    requires !IsTemporary(p, ScriptDefining(p, s, x).value, x) && (Defines(p, s, x) || x in z.captured[s])
    requires 0 < RealScript(p, s) && RealScript(p, ScriptDefining(p, s, x).value) == RealParent(p, RealScript(p, s))
    ensures var d := ScriptDefining(p, s, x).value;
      Reference(p, z, at, s, x) == Declared(p, at, d, x) <==> Declared(p, at, d, x).index < 256
  {
    hide ClosureElements, ArgumentSlot, EnvironmentsOk, CapturedSize;
    var b := RealScript(p, s);
    CapturedByReal(p, z, s, x);
    ElementOfArgument(p, z, at, b, x);
    OwnerIs(p, z, p[b].parent, x);
  }

  lemma {:induction false} SelfOfReal(p: Program, z: State, s: nat)
    requires Invariant(p, z) && s < |p| && z.selves[s]
    ensures z.selves[RealScript(p, s)]
    decreases s
  {
    if p[s].inlined && s > 0 {
      SelfOfReal(p, z, p[s].parent);
    }
  }

  /** Whoever captures self has the method's. */
  lemma {:induction false} SelfReached(p: Program, z: State, at: Positions, frames: seq<Frame>, s: nat)
    requires Invariant(p, z) && s < |p| && !p[s].inlined && |frames| == |p| && z.selves[s]
    requires Lexical(p, z, at, frames, s)
    ensures frames[s].self_ == frames[0].self_
    decreases s
  {
    if s > 0 {
      SelfOfReal(p, z, p[s].parent);
      assert ClosureElements(p, z, at, s)[0] == SelfElement;
      SelfReached(p, z, at, frames, RealParent(p, s));
    }
  }

  // ---- where the numbers do not agree

  /** A temporary t of a method, and the block `[self bar. [t := t + 1]]`: script 1 refers to
      self, script 2 inside it to t. */
  const NESTED: Program := [Script(0, false, [0], []), Script(0, false, [], []), Script(1, false, [], [])]
  const REFERENCES: seq<Event> := [Self(1), Local(2, 0)]

  lemma CaptureNothing(p: Program, z: State, s: nat)
    requires Shaped(p, z) && s < |p|
    ensures CaptureEnvironment(p, z, s, s) == z
  {}

  lemma CaptureStep(p: Program, z: State, s: nat, target: nat)
    requires Shaped(p, z) && 0 < s < |p| && s != target && target !in z.environments[s]
    ensures var z1 := CaptureEnvironment(p, z, RealParent(p, s), target);
      var es := z1.environments[s];
      CaptureEnvironment(p, z, s, target).environments
      == z1.environments[s := if target == 0 then [target] + es else es + [target]]
  {}

  lemma NestedScopes()
    ensures forall e :: e in REFERENCES ==> Allowed(NESTED, e)
    ensures var z := AfterAll(NESTED, Fresh(NESTED), REFERENCES);
      && z.environments == [[], [0], [0]] && z.selves == [true, true, false] && z.captured == [[], [0], [0]]
      && (0, 0) in z.inArray
  {
    var z0 := Fresh(NESTED);
    var z1 := After(NESTED, z0, Self(1));
    assert z1.selves == [true, true, false];
    assert RealScript(NESTED, 0) == 0 && RealScript(NESTED, 1) == 1 && RealScript(NESTED, 2) == 2;
    assert ScriptDefining(NESTED, 0, 0) == Some(0);
    assert ScriptDefining(NESTED, 1, 0) == Some(0);
    assert ScriptDefining(NESTED, 2, 0) == Some(0);
    assert z1.environments == [[], [], []];
    assert RealParent(NESTED, 1) == 0 && RealParent(NESTED, 2) == 1;
    CaptureNothing(NESTED, z1, 0);
    CaptureStep(NESTED, z1, 1, 0);
    CaptureStep(NESTED, z1, 2, 0);
    var a1 := CaptureEnvironment(NESTED, z1, 1, 0);
    var none: seq<nat> := [];
    assert [0] + none == [0];
    assert a1.environments == [[], [0], []];
    var a2 := CaptureEnvironment(NESTED, z1, 2, 0);
    assert a2.environments == [[], [0], [0]];
    var b1 := TransferLocal(NESTED, a2, 1, 0);
    assert b1.captured == [[], [0], []];
    var b2 := TransferLocal(NESTED, a2, 2, 0);
    assert b2.captured == [[], [0], [0]];
    var z2 := After(NESTED, z1, Local(2, 0));
    assert z2.environments == [[], [0], [0]];
    assert Owner(NESTED, z1, 0, 0) == Some(0);
    assert Owner(NESTED, z1, 1, 0) == Some(0);
    assert Owner(NESTED, z1, 2, 0) == Some(0) && Owner(NESTED, b2, 2, 0) == Some(2);
    assert z2 == CaptureTemporary(NESTED, z1, 2, 0) && (0, 0) in z2.inArray;
    assert REFERENCES[1..] == [Local(2, 0)];
  }

  /** The inner block has the receiver where it is meant to have the method's environment. */
  lemma NestedBlockTakesReceiver(at: Positions)
    requires forall e :: e in REFERENCES ==> Allowed(NESTED, e)
    ensures var z := AfterAll(NESTED, Fresh(NESTED), REFERENCES);
      && z.environments == [[], [0], [0]]
      && Held(NESTED, z, at, 1, EnvironmentIndex(NESTED, z, 1, 0)) == EnvironmentIn(0)
      && Held(NESTED, z, at, 2, EnvironmentIndex(NESTED, z, 2, 0)) == SelfIn(0)
  {
    hide AfterAll, ClosureElements, CapturedSize;
    NestedScopes();
    var z := AfterAll(NESTED, Fresh(NESTED), REFERENCES);
    assert RealParent(NESTED, 1) == 0 && RealParent(NESTED, 2) == 1;
    ElementOfEnvironment(NESTED, z, at, 2, 0);
    ElementOfEnvironment(NESTED, z, at, 1, 0);
    FirstElement(NESTED, z, at, 1);
  }

  /** Self is 7 and the method's environment 8; the outer block takes both with it, the inner one
      self alone, so that it looks for t in a slot of self. */
  const FRAMES: seq<Frame> := [
    Frame(7, 8, [0], [], []), Frame(7, 9, [7, 8], [], []), Frame(0, 10, [7], [], [])]

  lemma NestedFrames(at: Positions)
    requires at == map[(0, 0) := 1] && forall e :: e in REFERENCES ==> Allowed(NESTED, e)
    ensures var z := AfterAll(NESTED, Fresh(NESTED), REFERENCES);
      && Lexical(NESTED, z, at, FRAMES, 2)
      && CellOf(FRAMES, 0, AddressOf(NESTED, z, at, 0, 0)) == Some(Slot(8, 1))
      && CellOf(FRAMES, 1, AddressOf(NESTED, z, at, 1, 0)) == Some(Slot(8, 1))
      && CellOf(FRAMES, 2, AddressOf(NESTED, z, at, 2, 0)) == Some(Slot(7, 1))
  {
    hide AfterAll, ClosureElements;
    NestedScopes();
    NestedElements(AfterAll(NESTED, Fresh(NESTED), REFERENCES), at);
  }

  lemma NestedElements(z: State, at: Positions)
    requires Shaped(NESTED, z) && z.environments == [[], [0], [0]] && z.selves == [true, true, false]
    requires z.captured == [[], [0], [0]]
    ensures ClosureElements(NESTED, z, at, 1) == [SelfElement, EnvironmentElement]
    ensures ClosureElements(NESTED, z, at, 2) == [EnvironmentValue(1)]
  {
    assert RealParent(NESTED, 1) == 0 && RealParent(NESTED, 2) == 1;
    NestedEnvironment(z, 1);
    NestedEnvironment(z, 2);
    NestedArguments(z, 1);
    NestedArguments(z, 2);
    assert EnvironmentIndex(NESTED, z, 2, 0) == 1;
    hide EnvironmentElements, ArgumentElements, CapturedArguments, RealParent;
  }

  lemma NestedEnvironment(z: State, s: nat)
    requires Shaped(NESTED, z) && 1 <= s <= 2 && z.environments[s] == [0]
    ensures EnvironmentElements(NESTED, z, s, [0]) == [Written(EnvironmentOf(NESTED, z, s, 0))]
  {
    assert [0][1..] == [];
    hide EnvironmentOf, Written;
  }

  lemma NestedArguments(z: State, s: nat)
    requires Shaped(NESTED, z) && 1 <= s <= 2 && z.captured[s] == [0]
    ensures CapturedArguments(NESTED, z, s) == []
  {
    assert ScriptDefining(NESTED, 0, 0) == Some(0);
    assert ScriptDefining(NESTED, 1, 0) == Some(0);
    assert ScriptDefining(NESTED, s, 0) == Some(0);
    assert [0][1..] == [];
  }
}
