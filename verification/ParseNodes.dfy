/** The compiler's trees, once analysed, and the literal pool of a method. */
module ParseNodes {
  import opened TreecodeIntegers

  /** What a block literal says of its block. */
  datatype BlockInfo = BlockInfo(id: nat, argCount: nat, tempCount: nat, envCount: nat, capturesSelf: bool,
    capturesHome: bool)

  datatype Lit =
    | Integer(value: int)
    | LargeInteger(magnitude: seq<Byte>, negative: bool)
    | String(text: string)
    | Symbol(name: string)
    | Character(codePoint: nat)
    | Array(elements: seq<Lit>)
    | ByteArray(bytes: seq<Byte>)
    | Boolean(flag: bool)
    | Nil
    | Block(info: BlockInfo)

  /** What an identifier is bound to. The environment of a local is -2 for the stack, -1 for an
      inlined argument, 0 for the current one, and otherwise a slot of the current one. */
  datatype Reference =
    | NilRef
    | TrueRef
    | FalseRef
    | SelfRef
    | SuperRef
    | ArgumentRef(index: int, env: int)
    | TemporaryRef(index: int, env: int)
    | DynamicRef(name: string)

  datatype CascadeMessage = CascadeMessage(selector: string, args: seq<Node>)

  datatype Node =
    | LiteralNode(value: Lit)
    | IdentifierNode(reference: Reference)
    | AssignmentNode(assignees: seq<Reference>, expression: Node)
    | ReturnNode(expression: Node)
    | MessageNode(inlined: bool, selector: string, receiver: Node, args: seq<Node>)
    | CascadeNode(receiver: Node, messages: seq<CascadeMessage>)
    | InlinedBlockNode(cells: seq<nat>, statements: seq<Node>)
    | BlockNode(info: BlockInfo, captured: seq<Byte>, statements: seq<Node>)
    | BraceNode(elements: seq<Node>)

  /** A method; its pragma's name, if the pragma is used. */
  datatype MethodNode = MethodNode(pragma: Option<string>, statements: seq<Node>)

  datatype Option<+T> = None | Some(value: T)

  // ---- brace nodes stand for cascades

  function Weight(node: Node): (w: nat)
    ensures w > 0
    decreases node, 1
  {
    match node
    case LiteralNode(_) => 1
    case IdentifierNode(_) => 1
    case AssignmentNode(_, e) => 1 + Weight(e)
    case ReturnNode(e) => 1 + Weight(e)
    case MessageNode(_, _, r, args) => 1 + Weight(r) + WeightOfAll(args)
    case CascadeNode(r, messages) => 1 + Weight(r) + WeightOfMessages(messages)
    case InlinedBlockNode(_, statements) => 1 + WeightOfAll(statements)
    case BlockNode(_, _, statements) => 1 + WeightOfAll(statements)
    case BraceNode(elements) => 10 + 5 * WeightOfAll(elements)
  }

  function WeightOfAll(nodes: seq<Node>): nat
    decreases nodes, 0
  {
    if nodes == [] then 0 else 1 + Weight(nodes[0]) + WeightOfAll(nodes[1..])
  }

  function WeightOfMessages(messages: seq<CascadeMessage>): nat
    decreases messages, 0
  {
    if messages == [] then 0 else 1 + WeightOfAll(messages[0].args) + WeightOfMessages(messages[1..])
  }

  lemma WeightOfOne(node: Node)
    ensures WeightOfAll([node]) == 1 + Weight(node)
  {}

  lemma WeightOfPair(a: Node, b: Node)
    ensures WeightOfAll([a, b]) == 2 + Weight(a) + Weight(b)
  {
    assert [a, b][1..] == [b];
    WeightOfOne(b);
  }

  /** One at:put: for each element, counting from i, and a yourself. */
  function Puts(elements: seq<Node>, i: nat): (messages: seq<CascadeMessage>)
    ensures WeightOfMessages(messages) <= 1 + 4 * WeightOfAll(elements)
    ensures |messages| == |elements| + 1
  {
    if elements == [] then [CascadeMessage("yourself", [])]
    else
      var put := CascadeMessage("at:put:", [LiteralNode(Integer(i)), elements[0]]);
      WeightOfPair(LiteralNode(Integer(i)), elements[0]);
      var rest := Puts(elements[1..], i + 1);
      assert ([put] + rest)[1..] == rest;
      [put] + rest
  }

  /** `{a. b}` is `(Array new: 2) at: 1 put: a; at: 2 put: b; yourself`. */
  function Expanded(elements: seq<Node>): (cascade: Node)
    ensures cascade.CascadeNode? && Weight(cascade) < Weight(BraceNode(elements))
  {
    var newArray := MessageNode(false, "new:", IdentifierNode(DynamicRef("Array")), [LiteralNode(Integer(|elements|))]);
    WeightOfOne(LiteralNode(Integer(|elements|)));
    assert Weight(newArray) == 4;
    CascadeNode(newArray, Puts(elements, 1))
  }

  /** The k-th element goes to the k-th place, and the array is what the cascade answers. */
  lemma {:induction false} PutsInOrder(elements: seq<Node>, i: nat, k: nat)
    requires k <= |elements|
    ensures Puts(elements, i)[k] ==
      if k == |elements| then CascadeMessage("yourself", [])
      else CascadeMessage("at:put:", [LiteralNode(Integer(i + k)), elements[k]])
  {
    if k > 0 {
      PutsInOrder(elements[1..], i + 1, k - 1);
    }
  }

  // ---- the literal pool

  /** A number that goes into the treecode itself. */
  predicate IsSmall(value: Lit) {
    value.Integer? && -16384 <= value.value <= 16383
  }

  function MentionedByReference(x: Reference): seq<Lit> {
    match x
    case DynamicRef(name) => [Symbol(name)]
    case _ => []
  }

  /** What the cascade of a brace node needs. */
  function BraceSymbols(): seq<Lit> {
    [Symbol("Array"), Symbol("new:"), Symbol("at:put:"), Symbol("yourself")]
  }

  /** The literals of a tree in the order its nodes are visited, as often as they come up. */
  function Mentioned(node: Node): seq<Lit>
    decreases node, 1
  {
    match node
    case LiteralNode(value) => if IsSmall(value) then [] else [value]
    case IdentifierNode(x) => MentionedByReference(x)
    case AssignmentNode(xs, e) => MentionedByReferences(xs) + Mentioned(e)
    case ReturnNode(e) => Mentioned(e)
    case MessageNode(_, selector, r, args) => [Symbol(selector)] + Mentioned(r) + MentionedByAll(args)
    case CascadeNode(r, messages) => Mentioned(r) + MentionedByMessages(messages)
    case InlinedBlockNode(_, statements) => MentionedByAll(statements)
    case BlockNode(info, _, statements) => [Block(info)] + MentionedByAll(statements)
    case BraceNode(elements) => BraceSymbols() + MentionedByAll(elements)
  }

  function MentionedByAll(nodes: seq<Node>): seq<Lit>
    decreases nodes, 0
  {
    if nodes == [] then [] else Mentioned(nodes[0]) + MentionedByAll(nodes[1..])
  }

  function MentionedByReferences(xs: seq<Reference>): seq<Lit> {
    if xs == [] then [] else MentionedByReference(xs[0]) + MentionedByReferences(xs[1..])
  }

  function MentionedByMessages(messages: seq<CascadeMessage>): seq<Lit>
    decreases messages, 0
  {
    if messages == [] then []
    else [Symbol(messages[0].selector)] + MentionedByAll(messages[0].args) + MentionedByMessages(messages[1..])
  }

  function MentionedByMethod(m: MethodNode): seq<Lit> {
    (if m.pragma.Some? && m.pragma.value != "" then [Symbol(m.pragma.value)] else []) + MentionedByAll(m.statements)
  }

  /** Literals are the same if they are equal, and blocks already if they have the same number. */
  predicate Same(a: Lit, b: Lit) {
    if a.Block? && b.Block? then a.info.id == b.info.id else a == b
  }

  /** The place of a literal in a pool, counting from 1; 0 if it is not there. */
  function IndexOf(pool: seq<Lit>, value: Lit): (index: nat)
    ensures index <= |pool|
    ensures index > 0 ==> Same(pool[index - 1], value) && forall i :: 0 <= i < index - 1 ==> !Same(pool[i], value)
    ensures index == 0 ==> forall i :: 0 <= i < |pool| ==> !Same(pool[i], value)
  {
    IndexFrom(pool, value, 0)
  }

  function IndexFrom(pool: seq<Lit>, value: Lit, start: nat): (index: nat)
    requires start <= |pool|
    ensures index == 0 || start < index <= |pool|
    ensures index > 0 ==> Same(pool[index - 1], value) && forall i :: start <= i < index - 1 ==> !Same(pool[i], value)
    ensures index == 0 ==> forall i :: start <= i < |pool| ==> !Same(pool[i], value)
    decreases |pool| - start
  {
    if start == |pool| then 0
    else if Same(pool[start], value) then start + 1
    else IndexFrom(pool, value, start + 1)
  }

  /** A pool with more literals added, the first of each kept. */
  function Added(pool: seq<Lit>, values: seq<Lit>): seq<Lit> {
    if values == [] then pool else AddUnique(Added(pool, values[..|values| - 1]), values[|values| - 1])
  }

  /** The literals without repetitions. */
  function Unique(values: seq<Lit>): seq<Lit> {
    Added([], values)
  }

  lemma {:induction false} AddedInTurn(pool: seq<Lit>, a: seq<Lit>, b: seq<Lit>)
    ensures Added(pool, a + b) == Added(Added(pool, a), b)
  {
    if b == [] {
      assert a + b == a;
    } else {
      AddedInTurn(pool, a, b[..|b| - 1]);
      assert (a + b)[..|a + b| - 1] == a + b[..|b| - 1];
    }
  }

  function AddUnique(pool: seq<Lit>, value: Lit): seq<Lit> {
    if IndexOf(pool, value) != 0 then pool else pool + [value]
  }

  /** The pool of a method. */
  function Literals(m: MethodNode): seq<Lit> {
    Unique(MentionedByMethod(m))
  }

  /** A pool where the lookup of a literal finds that very literal. */
  predicate Finds(pool: seq<Lit>, value: Lit) {
    IndexOf(pool, value) != 0 && pool[IndexOf(pool, value) - 1] == value
  }

  /** No two of the literals are blocks with the same number that differ otherwise. */
  predicate OneBlockPerNumber(values: seq<Lit>) {
    forall a, b :: a in values && b in values && Same(a, b) ==> a == b
  }

  /** Everything that is mentioned is found in the pool; the pool mentions nothing else, and
      nothing twice. */
  lemma {:induction false} PoolIsComplete(values: seq<Lit>)
    ensures forall v :: v in Unique(values) ==> v in values
    ensures forall v :: v in values ==> IndexOf(Unique(values), v) != 0
    ensures forall i, j :: 0 <= i < j < |Unique(values)| ==> !Same(Unique(values)[i], Unique(values)[j])
  {
    if values != [] {
      var front, last := values[..|values| - 1], values[|values| - 1];
      PoolIsComplete(front);
      var pool, all := Unique(front), Unique(values);
      assert values == front + [last];
      forall v | v in values ensures IndexOf(all, v) != 0 {
        if v in front {
          assert Same(pool[IndexOf(pool, v) - 1], v);
          assert all[IndexOf(pool, v) - 1] == pool[IndexOf(pool, v) - 1];
        } else if IndexOf(pool, last) == 0 {
          assert all[|all| - 1] == last && Same(last, last);
        }
      }
    }
  }

  lemma PoolFinds(values: seq<Lit>, v: Lit)
    requires v in values && OneBlockPerNumber(values)
    ensures Finds(Unique(values), v)
  {
    PoolIsComplete(values);
    var pool := Unique(values);
    assert pool[IndexOf(pool, v) - 1] in pool;
  }

  // ---- and its construction

  class LiteralPool {
    var literals: seq<Lit>

    constructor ()
      ensures literals == []
    {
      literals := [];
    }

    method AddLiteral(value: Lit)
      modifies this
      ensures literals == AddUnique(old(literals), value)
    {
      var i := 0;
      while i < |literals|
        invariant i <= |literals| && literals == old(literals)
        invariant forall k :: 0 <= k < i ==> !Same(literals[k], value)
      {
        if Same(literals[i], value) {
          return;
        }
        i := i + 1;
      }
      literals := literals + [value];
    }

    method AddSymbol(name: string)
      modifies this
      ensures literals == Added(old(literals), [Symbol(name)])
    {
      AddLiteral(Symbol(name));
    }

    /** Visits the nodes of a tree. */
    method Visit(node: Node)
      modifies this
      ensures literals == Added(old(literals), Mentioned(node))
      decreases node, 1
    {
      match node
      case LiteralNode(value) =>
        if !IsSmall(value) { AddLiteral(value); }
      case IdentifierNode(x) => VisitReference(x);
      case AssignmentNode(xs, e) =>
        AddedInTurn(literals, MentionedByReferences(xs), Mentioned(e));
        VisitReferences(xs);
        Visit(e);
      case ReturnNode(e) => Visit(e);
      case MessageNode(_, selector, r, args) =>
        AddedInTurn(literals, [Symbol(selector)] + Mentioned(r), MentionedByAll(args));
        AddedInTurn(literals, [Symbol(selector)], Mentioned(r));
        AddSymbol(selector);
        Visit(r);
        VisitAll(args);
      case CascadeNode(r, messages) =>
        AddedInTurn(literals, Mentioned(r), MentionedByMessages(messages));
        Visit(r);
        VisitMessages(messages);
      case InlinedBlockNode(_, statements) => VisitAll(statements);
      case BlockNode(info, _, statements) =>
        AddedInTurn(literals, [Block(info)], MentionedByAll(statements));
        AddLiteral(Block(info));
        VisitAll(statements);
      case BraceNode(elements) =>
        AddedInTurn(literals, BraceSymbols(), MentionedByAll(elements));
        AddBraceSymbols();
        VisitAll(elements);
    }

    method AddBraceSymbols()
      modifies this
      ensures literals == Added(old(literals), BraceSymbols())
    {
      hide Added;
      var a, b, c, d := [Symbol("Array")], [Symbol("new:")], [Symbol("at:put:")], [Symbol("yourself")];
      assert a + b + c + d == BraceSymbols();
      AddedInTurn(literals, a + b + c, d);
      AddedInTurn(literals, a + b, c);
      AddedInTurn(literals, a, b);
      AddSymbol("Array");
      AddSymbol("new:");
      AddSymbol("at:put:");
      AddSymbol("yourself");
    }

    method VisitReference(x: Reference)
      modifies this
      ensures literals == Added(old(literals), MentionedByReference(x))
    {
      if x.DynamicRef? {
        AddSymbol(x.name);
      }
    }

    method VisitReferences(xs: seq<Reference>)
      modifies this
      ensures literals == Added(old(literals), MentionedByReferences(xs))
    {
      if xs != [] {
        AddedInTurn(literals, MentionedByReference(xs[0]), MentionedByReferences(xs[1..]));
        VisitReference(xs[0]);
        VisitReferences(xs[1..]);
      }
    }

    method VisitAll(nodes: seq<Node>)
      modifies this
      ensures literals == Added(old(literals), MentionedByAll(nodes))
      decreases nodes, 0
    {
      if nodes != [] {
        AddedInTurn(literals, Mentioned(nodes[0]), MentionedByAll(nodes[1..]));
        Visit(nodes[0]);
        VisitAll(nodes[1..]);
      }
    }

    method VisitMessages(messages: seq<CascadeMessage>)
      modifies this
      ensures literals == Added(old(literals), MentionedByMessages(messages))
      decreases messages, 0
    {
      if messages != [] {
        var selector, args := [Symbol(messages[0].selector)], MentionedByAll(messages[0].args);
        AddedInTurn(literals, selector + args, MentionedByMessages(messages[1..]));
        AddedInTurn(literals, selector, args);
        AddSymbol(messages[0].selector);
        VisitAll(messages[0].args);
        VisitMessages(messages[1..]);
      }
    }

    /** The pool of a method: its pragma's name first. */
    method Collect(m: MethodNode)
      modifies this
      ensures literals == Literals(m)
    {
      literals := [];
      if m.pragma.Some? && m.pragma.value != "" {
        AddedInTurn([], [Symbol(m.pragma.value)], MentionedByAll(m.statements));
        AddSymbol(m.pragma.value);
      } else {
        assert [] + MentionedByAll(m.statements) == MentionedByAll(m.statements);
      }
      VisitAll(m.statements);
    }
  }
}
