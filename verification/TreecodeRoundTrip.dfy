/** What the decoder reads off the treecodes of a tree is that tree, with its literals looked up
    in the method's own pool. */
module TreecodeRoundTrip {
  import opened TreecodeIntegers
  import P = ParseNodes
  import opened TreecodeEncoder
  import opened TreecodeDecoder

  // ---- the tree that is meant

  function CompiledReference(x: P.Reference): Binding {
    match x
    case NilRef => NilBinding
    case TrueRef => TrueBinding
    case FalseRef => FalseBinding
    case SelfRef => SelfBinding
    case SuperRef => SuperBinding
    case ArgumentRef(index, env) => ArgumentBinding(index, env)
    case TemporaryRef(index, env) => TemporaryBinding(index, env)
    case DynamicRef(name) => DynamicBinding(P.Symbol(name))
  }

  function CompiledReferences(xs: seq<P.Reference>): (bs: seq<Binding>)
    ensures |bs| == |xs|
  {
    if xs == [] then [] else [CompiledReference(xs[0])] + CompiledReferences(xs[1..])
  }

  /** Braces become cascades, and a return says whether its real script is the method. */
  function Compiled(node: P.Node, inMethod: bool): Tree
    decreases P.Weight(node), 1
  {
    match node
    case LiteralNode(value) => Literal(value)
    case IdentifierNode(x) => Identifier(CompiledReference(x))
    case AssignmentNode(xs, e) => Assignment(CompiledReferences(xs), Compiled(e, inMethod))
    case ReturnNode(e) => Return(inMethod, Compiled(e, inMethod))
    case MessageNode(inlined, selector, r, args) => Message(inlined, P.Symbol(selector), Compiled(r, inMethod),
      CompiledAll(args, inMethod))
    case CascadeNode(r, messages) => Cascade(Compiled(r, inMethod), CompiledMessages(messages, inMethod))
    case InlinedBlockNode(cells, statements) => InlinedBlock(cells, CompiledAll(statements, inMethod))
    case BlockNode(info, captured, statements) => Block(P.Block(info), captured, CompiledAll(statements, false))
    case BraceNode(elements) => Compiled(P.Expanded(elements), inMethod)
  }

  function CompiledAll(nodes: seq<P.Node>, inMethod: bool): (trees: seq<Tree>)
    ensures |trees| == |nodes|
    decreases P.WeightOfAll(nodes), 0
  {
    if nodes == [] then [] else [Compiled(nodes[0], inMethod)] + CompiledAll(nodes[1..], inMethod)
  }

  function CompiledMessages(messages: seq<P.CascadeMessage>, inMethod: bool): (ms: seq<CascadeMessage>)
    ensures |ms| == |messages|
    decreases P.WeightOfMessages(messages), 0
  {
    if messages == [] then [] else
    [CascadeMessage(P.Symbol(messages[0].selector), CompiledAll(messages[0].args, inMethod))]
    + CompiledMessages(messages[1..], inMethod)
  }

  function CompiledMethod(m: P.MethodNode): Method {
    Method(
      (match m.pragma
       case None => P.None
       case Some(name) => P.Some(if name != "" then P.Some(P.Symbol(name)) else P.None)),
      CompiledAll(m.statements, true))
  }

  // ---- what the format has room for

  predicate IsInt64(v: int) {
    -0x8000_0000_0000_0000 <= v < 0x8000_0000_0000_0000
  }

  predicate FitReference(x: P.Reference) {
    x.ArgumentRef? || x.TemporaryRef? ==> IsInt64(x.index) && IsInt64(x.env)
  }

  /** Numbers and sizes of at most 64 bits. */
  predicate Sized(node: P.Node)
    decreases P.Weight(node), 1
  {
    match node
    case LiteralNode(value) => value.Integer? ==> IsInt64(value.value)
    case IdentifierNode(x) => FitReference(x)
    case AssignmentNode(xs, e) => IsInt64(|xs|) && (forall x :: x in xs ==> FitReference(x)) && Sized(e)
    case ReturnNode(e) => Sized(e)
    case MessageNode(_, _, r, args) => Sized(r) && AllSized(args)
    case CascadeNode(r, messages) => Sized(r) && IsInt64(|messages|) && MessagesSized(messages)
    case InlinedBlockNode(cells, statements) => IsInt64(|cells|) && AllSized(statements)
    case BlockNode(_, captured, statements) => IsInt64(|captured|) && AllSized(statements)
    case BraceNode(elements) => Sized(P.Expanded(elements))
  }

  predicate AllSized(nodes: seq<P.Node>)
    decreases P.WeightOfAll(nodes), 0
  {
    IsInt64(|nodes|) && (nodes != [] ==> Sized(nodes[0]) && AllSized(nodes[1..]))
  }

  predicate MessagesSized(messages: seq<P.CascadeMessage>)
    decreases P.WeightOfMessages(messages), 0
  {
    messages != [] ==> AllSized(messages[0].args) && MessagesSized(messages[1..])
  }

  /** The cells of inlined blocks' arguments in a byte, and the place of each block in the pool
      in the seven bits that a byte read as an integer has. */
  predicate Kept(pool: seq<P.Lit>, node: P.Node)
    decreases P.Weight(node), 1
  {
    match node
    case LiteralNode(_) => true
    case IdentifierNode(_) => true
    case AssignmentNode(_, e) => Kept(pool, e)
    case ReturnNode(e) => Kept(pool, e)
    case MessageNode(_, _, r, args) => Kept(pool, r) && AllKept(pool, args)
    case CascadeNode(r, messages) => Kept(pool, r) && MessagesKept(pool, messages)
    case InlinedBlockNode(cells, statements) => (forall c :: c in cells ==> c < 256) && AllKept(pool, statements)
    case BlockNode(info, _, statements) => P.IndexOf(pool, P.Block(info)) <= 127 && AllKept(pool, statements)
    case BraceNode(elements) => Kept(pool, P.Expanded(elements))
  }

  predicate AllKept(pool: seq<P.Lit>, nodes: seq<P.Node>)
    decreases P.WeightOfAll(nodes), 0
  {
    nodes != [] ==> Kept(pool, nodes[0]) && AllKept(pool, nodes[1..])
  }

  predicate MessagesKept(pool: seq<P.Lit>, messages: seq<P.CascadeMessage>)
    decreases P.WeightOfMessages(messages), 0
  {
    messages != [] ==> AllKept(pool, messages[0].args) && MessagesKept(pool, messages[1..])
  }

  /** Of the literals only numbers can do without the pool. */
  predicate Covers(pool: seq<P.Lit>, values: seq<P.Lit>) {
    IsInt64(|pool|) && forall v :: v in values ==> v.Integer? || P.Finds(pool, v)
  }

  // ---- reading back

  lemma SymbolRoundTrip(pool: seq<P.Lit>, name: string, rest: seq<Byte>)
    requires IsInt64(|pool|) && P.Finds(pool, P.Symbol(name))
    ensures ParseSymbol(pool, SymbolBytes(pool, name) + rest) == Done(P.Symbol(name), rest)
  {
    IntegerRoundTrip(P.IndexOf(pool, P.Symbol(name)), rest);
  }

  lemma LiteralRoundTrip(pool: seq<P.Lit>, value: P.Lit, rest: seq<Byte>)
    requires IsInt64(|pool|) && ((value.Integer? && IsInt64(value.value)) || P.Finds(pool, value))
    ensures ParseExpression(pool, LiteralBytes(pool, value) + rest) == Done(Literal(value), rest)
  {
    hide IntegerBytes, ParseInteger;
    var index := P.IndexOf(pool, value);
    var v := if value.Integer? then value.value else 0;
    var bs := IntegerBytes(index);
    if index == 0 {
      assert (LiteralBytes(pool, value) + rest)[1..] == bs + (IntegerBytes(v) + rest);
      IntegerRoundTrip(index, IntegerBytes(v) + rest);
      IntegerRoundTrip(v, rest);
    } else {
      assert (LiteralBytes(pool, value) + rest)[1..] == bs + rest;
      IntegerRoundTrip(index, rest);
    }
  }

  lemma BindingRoundTrip(pool: seq<P.Lit>, x: P.Reference, rest: seq<Byte>)
    requires Covers(pool, P.MentionedByReference(x)) && FitReference(x)
    ensures ParseBinding(pool, BindingBytes(pool, x) + rest) == Done(CompiledReference(x), rest)
  {
    hide IntegerBytes, ParseInteger, SymbolBytes, ParseSymbol;
    var bs := BindingBytes(pool, x);
    SmallByte(bs[0], bs[1..] + rest);
    assert bs + rest == [bs[0]] + (bs[1..] + rest);
    match x
    case ArgumentRef(index, env) => LocalRoundTrip(true, index, env, rest);
    case TemporaryRef(index, env) => LocalRoundTrip(false, index, env, rest);
    case DynamicRef(name) =>
      assert P.Symbol(name) in P.MentionedByReference(x);
      assert bs[1..] == SymbolBytes(pool, name);
      SymbolRoundTrip(pool, name, rest);
    case _ => assert bs[1..] + rest == rest;
  }

  /** A small byte is a number. */
  lemma SmallByte(b: Byte, rest: seq<Byte>)
    requires b <= 127
    ensures ParseInteger([b] + rest) == Done(b, rest)
  {
    IntegerRoundTrip(b, rest);
  }

  lemma LocalRoundTrip(argument: bool, index: int, env: int, rest: seq<Byte>)
    requires IsInt64(index) && IsInt64(env)
    ensures var kind := if argument then ARGUMENT_ID else TEMPORARY_ID;
      ParseLocal(argument, LocalBytes(kind, index, env)[1..] + rest)
      == Done(if argument then ArgumentBinding(index, env) else TemporaryBinding(index, env), rest)
  {
    hide IntegerBytes, ParseInteger;
    var kind := if argument then ARGUMENT_ID else TEMPORARY_ID;
    assert LocalBytes(kind, index, env)[1..] + rest == IntegerBytes(index) + (IntegerBytes(env) + rest);
    IntegerRoundTrip(index, IntegerBytes(env) + rest);
    IntegerRoundTrip(env, rest);
  }

  lemma ReferenceRoundTrip(pool: seq<P.Lit>, x: P.Reference, rest: seq<Byte>)
    requires Covers(pool, P.MentionedByReference(x)) && FitReference(x)
    ensures ParseExpression(pool, ReferenceBytes(pool, x) + rest) == Done(Identifier(CompiledReference(x)), rest)
  {
    hide BindingBytes, ParseBinding;
    assert (ReferenceBytes(pool, x) + rest)[1..] == BindingBytes(pool, x) + rest;
    BindingRoundTrip(pool, x, rest);
  }

  lemma {:induction false} ReferencesRoundTrip(pool: seq<P.Lit>, xs: seq<P.Reference>, rest: seq<Byte>)
    returns (trees: seq<Tree>)
    requires Covers(pool, P.MentionedByReferences(xs)) && forall x :: x in xs ==> FitReference(x)
    ensures ParseExpressions(pool, |xs|, ReferencesBytes(pool, xs) + rest) == Done(trees, rest)
    ensures (forall t :: t in trees ==> t.Identifier?) && BindingsOf(trees) == CompiledReferences(xs)
  {
    hide ReferenceBytes, ParseExpression, CompiledReference, FitReference, P.MentionedByReference;
    trees := [];
    if xs == [] {
      assert ReferencesBytes(pool, xs) + rest == rest;
    } else {
      var tail := ReferencesBytes(pool, xs[1..]) + rest;
      assert ReferencesBytes(pool, xs) + rest == ReferenceBytes(pool, xs[0]) + tail;
      ReferenceRoundTrip(pool, xs[0], tail);
      var others := ReferencesRoundTrip(pool, xs[1..], rest);
      trees := [Identifier(CompiledReference(xs[0]))] + others;
      assert BindingsOf(trees) == [CompiledReference(xs[0])] + BindingsOf(others);
    }
  }

  /** Reading back what was encoded gives the tree that is meant, and stops where it ends. */
  lemma {:induction false} RoundTrip(pool: seq<P.Lit>, node: P.Node, inMethod: bool, rest: seq<Byte>)
    requires Covers(pool, P.Mentioned(node)) && Sized(node) && Kept(pool, node)
    ensures ParseExpression(pool, Encode(pool, node, inMethod) + rest) == Done(Compiled(node, inMethod), rest)
    decreases P.Weight(node), 2
  {
    hide ParseExpression, Covers, LiteralBytes, ReferenceBytes;
    match node
    case LiteralNode(value) => LiteralCase(pool, node, inMethod, rest);
    case IdentifierNode(x) => ReferenceRoundTrip(pool, x, rest);
    case AssignmentNode(_, _) => AssignmentCase(pool, node, inMethod, rest);
    case ReturnNode(_) => ReturnCase(pool, node, inMethod, rest);
    case MessageNode(_, _, _, _) => MessageCase(pool, node, inMethod, rest);
    case CascadeNode(_, _) => CascadeCase(pool, node, inMethod, rest);
    case InlinedBlockNode(_, _) => InlinedBlockCase(pool, node, inMethod, rest);
    case BlockNode(_, _, _) => BlockCase(pool, node, inMethod, rest);
    case BraceNode(elements) =>
      BraceCovers(pool, elements);
      RoundTrip(pool, P.Expanded(elements), inMethod, rest);
  }

  lemma LiteralCase(pool: seq<P.Lit>, node: P.Node, inMethod: bool, rest: seq<Byte>)
    requires node.LiteralNode? && Covers(pool, P.Mentioned(node)) && Sized(node) && Kept(pool, node)
    ensures ParseExpression(pool, Encode(pool, node, inMethod) + rest) == Done(Compiled(node, inMethod), rest)
  {
    hide ParseExpression, LiteralBytes;
    if !node.value.Integer? {
      assert node.value in P.Mentioned(node);
    }
    LiteralRoundTrip(pool, node.value, rest);
  }

  /** The pool has what the cascade of a brace node needs. */
  lemma BraceCovers(pool: seq<P.Lit>, elements: seq<P.Node>)
    requires Covers(pool, P.Mentioned(P.BraceNode(elements)))
    ensures Covers(pool, P.Mentioned(P.Expanded(elements)))
  {
    hide P.Puts;
    var values := P.Mentioned(P.BraceNode(elements));
    assert forall v :: v in P.BraceSymbols() ==> v in values;
    PutsMention(elements, 1);
    var messages := P.Puts(elements, 1);
    forall v | v in P.Mentioned(P.Expanded(elements)) ensures v.Integer? || v in values {
      if !v.Integer? && v !in P.MentionedByMessages(messages) {
        NewArrayMentions(|elements|, v);
      }
    }
  }

  lemma MentionedByOne(a: P.Node)
    ensures P.MentionedByAll([a]) == P.Mentioned(a)
  {
    hide P.Mentioned;
    assert P.Mentioned(a) + [] == P.Mentioned(a);
  }

  lemma MentionedByTwo(a: P.Node, b: P.Node)
    ensures P.MentionedByAll([a, b]) == P.Mentioned(a) + P.Mentioned(b)
  {
    hide P.Mentioned;
    assert [a, b][1..] == [b];
    MentionedByOne(b);
  }

  lemma NewArrayMentions(count: nat, v: P.Lit)
    requires v in P.Mentioned(P.MessageNode(false, "new:", P.IdentifierNode(P.DynamicRef("Array")),
      [P.LiteralNode(P.Integer(count))]))
    ensures v.Integer? || v in P.BraceSymbols()
  {
    MentionedByOne(P.LiteralNode(P.Integer(count)));
    assert P.BraceSymbols()[0] == P.Symbol("Array") && P.BraceSymbols()[1] == P.Symbol("new:");
  }

  lemma {:induction false} PutsMention(elements: seq<P.Node>, i: nat)
    ensures forall v :: v in P.MentionedByMessages(P.Puts(elements, i)) ==>
      v.Integer? || v in P.BraceSymbols() || v in P.MentionedByAll(elements)
  {
    var messages := P.Puts(elements, i);
    assert P.BraceSymbols()[2] == P.Symbol("at:put:") && P.BraceSymbols()[3] == P.Symbol("yourself");
    if elements == [] {
      assert messages[1..] == [];
    } else {
      PutsMention(elements[1..], i + 1);
      assert messages[1..] == P.Puts(elements[1..], i + 1);
      MentionedByTwo(P.LiteralNode(P.Integer(i)), elements[0]);
    }
  }

  lemma ParseKind(pool: seq<P.Lit>, bs: seq<Byte>)
    requires bs != []
    ensures bs[0] == ASSIGNMENT_ID ==> ParseExpression(pool, bs) == ParseAssignment(pool, bs[1..])
    ensures bs[0] == RETURN_ID ==> ParseExpression(pool, bs) == ParseReturn(pool, bs[1..])
    ensures bs[0] == MESSAGE_ID ==> ParseExpression(pool, bs) == ParseMessage(pool, bs[1..])
    ensures bs[0] == CASCADE_ID ==> ParseExpression(pool, bs) == ParseCascade(pool, bs[1..])
  {}

  lemma AssignmentLevel(pool: seq<P.Lit>, node: P.Node, inMethod: bool)
    requires node.AssignmentNode?
    ensures P.Mentioned(node) == P.MentionedByReferences(node.assignees) + P.Mentioned(node.expression)
    ensures Sized(node) ==>
      IsInt64(|node.assignees|) && (forall x :: x in node.assignees ==> FitReference(x)) && Sized(node.expression)
    ensures Kept(pool, node) == Kept(pool, node.expression)
    ensures Encode(pool, node, inMethod)
      == [ASSIGNMENT_ID] + IntegerBytes(|node.assignees|) + ReferencesBytes(pool, node.assignees)
         + Encode(pool, node.expression, inMethod)
    ensures Compiled(node, inMethod)
      == Assignment(CompiledReferences(node.assignees), Compiled(node.expression, inMethod))
    ensures P.Weight(node.expression) < P.Weight(node)
  {}

  lemma {:induction false} AssignmentCase(pool: seq<P.Lit>, node: P.Node, inMethod: bool, rest: seq<Byte>)
    requires node.AssignmentNode? && Covers(pool, P.Mentioned(node)) && Sized(node) && Kept(pool, node)
    ensures ParseExpression(pool, Encode(pool, node, inMethod) + rest) == Done(Compiled(node, inMethod), rest)
    decreases P.Weight(node), 1
  {
    hide ParseInteger, IntegerBytes, ParseExpressions, ParseExpression, ReferencesBytes, CompiledReferences;
    hide Encode, Compiled, Sized, Kept, P.Mentioned, P.MentionedByReferences, P.Weight, FitReference;
    AssignmentLevel(pool, node, inMethod);
    var xs, e := node.assignees, Encode(pool, node.expression, inMethod) + rest;
    var bs := Encode(pool, node, inMethod) + rest;
    assert bs[1..] == IntegerBytes(|xs|) + (ReferencesBytes(pool, xs) + e);
    ParseKind(pool, bs);
    IntegerRoundTrip(|xs|, ReferencesBytes(pool, xs) + e);
    var trees := ReferencesRoundTrip(pool, xs, e);
    RoundTrip(pool, node.expression, inMethod, rest);
  }

  lemma ReturnLevel(pool: seq<P.Lit>, node: P.Node, inMethod: bool)
    requires node.ReturnNode?
    ensures P.Mentioned(node) == P.Mentioned(node.expression)
    ensures (Sized(node) && Kept(pool, node)) == (Sized(node.expression) && Kept(pool, node.expression))
    ensures Encode(pool, node, inMethod) == [RETURN_ID, BooleanByte(inMethod)] + Encode(pool, node.expression, inMethod)
    ensures Compiled(node, inMethod) == Return(inMethod, Compiled(node.expression, inMethod))
    ensures P.Weight(node.expression) < P.Weight(node)
  {}

  lemma {:induction false} ReturnCase(pool: seq<P.Lit>, node: P.Node, inMethod: bool, rest: seq<Byte>)
    requires node.ReturnNode? && Covers(pool, P.Mentioned(node)) && Sized(node) && Kept(pool, node)
    ensures ParseExpression(pool, Encode(pool, node, inMethod) + rest) == Done(Compiled(node, inMethod), rest)
    decreases P.Weight(node), 1
  {
    hide ParseExpression, Encode, Compiled, Sized, Kept, Covers, P.Mentioned, P.Weight;
    ReturnLevel(pool, node, inMethod);
    var bs := Encode(pool, node, inMethod) + rest;
    assert bs[1..][1..] == Encode(pool, node.expression, inMethod) + rest;
    ParseKind(pool, bs);
    RoundTrip(pool, node.expression, inMethod, rest);
  }

  lemma {:induction false} AllRoundTrip(pool: seq<P.Lit>, nodes: seq<P.Node>, inMethod: bool, rest: seq<Byte>)
    requires Covers(pool, P.MentionedByAll(nodes)) && AllSized(nodes) && AllKept(pool, nodes)
    ensures ParseExpressions(pool, |nodes|, EncodeAll(pool, nodes, inMethod) + rest)
      == Done(CompiledAll(nodes, inMethod), rest)
    decreases P.WeightOfAll(nodes), 3
  {
    hide ParseExpression, Encode, Compiled;
    if nodes == [] {
      assert EncodeAll(pool, nodes, inMethod) + rest == rest;
    } else {
      var tail := EncodeAll(pool, nodes[1..], inMethod) + rest;
      assert EncodeAll(pool, nodes, inMethod) + rest == Encode(pool, nodes[0], inMethod) + tail;
      RoundTrip(pool, nodes[0], inMethod, tail);
      AllRoundTrip(pool, nodes[1..], inMethod, rest);
    }
  }

  lemma {:induction false} ArrayRoundTrip(pool: seq<P.Lit>, nodes: seq<P.Node>, inMethod: bool, rest: seq<Byte>)
    requires Covers(pool, P.MentionedByAll(nodes)) && AllSized(nodes) && AllKept(pool, nodes)
    ensures ParseExpressionArray(pool, EncodeArray(pool, nodes, inMethod) + rest)
      == Done(CompiledAll(nodes, inMethod), rest)
    decreases P.WeightOfAll(nodes), 4
  {
    hide ParseInteger, IntegerBytes, ParseExpressions, EncodeAll, CompiledAll, Covers;
    var tail := EncodeAll(pool, nodes, inMethod) + rest;
    assert EncodeArray(pool, nodes, inMethod) + rest == IntegerBytes(|nodes|) + tail;
    IntegerRoundTrip(|nodes|, tail);
    AllRoundTrip(pool, nodes, inMethod, rest);
  }

  lemma SplitMessage(inlined: Byte, selector: seq<Byte>, receiver: seq<Byte>, args: seq<Byte>, rest: seq<Byte>)
    ensures var bs := [MESSAGE_ID, inlined] + selector + receiver + args + rest;
      bs[0] == MESSAGE_ID && bs[1..][0] == inlined && bs[1..][1..] == selector + (receiver + (args + rest))
  {}

  lemma MessageLevel(pool: seq<P.Lit>, node: P.Node, inMethod: bool)
    requires node.MessageNode?
    ensures Covers(pool, P.Mentioned(node)) ==>
      && IsInt64(|pool|) && P.Finds(pool, P.Symbol(node.selector))
      && Covers(pool, P.Mentioned(node.receiver)) && Covers(pool, P.MentionedByAll(node.args))
    ensures Sized(node) == (Sized(node.receiver) && AllSized(node.args))
    ensures Kept(pool, node) == (Kept(pool, node.receiver) && AllKept(pool, node.args))
    ensures Encode(pool, node, inMethod)
      == [MESSAGE_ID, BooleanByte(node.inlined)] + SymbolBytes(pool, node.selector) + Encode(pool, node.receiver,
        inMethod)
        + EncodeArray(pool, node.args, inMethod)
    ensures Compiled(node, inMethod)
      == Message(node.inlined, P.Symbol(node.selector), Compiled(node.receiver, inMethod),
        CompiledAll(node.args, inMethod))
    ensures P.Weight(node.receiver) < P.Weight(node) && P.WeightOfAll(node.args) < P.Weight(node)
  {
    hide P.Finds, SymbolBytes, EncodeArray, AllSized, AllKept, CompiledAll, P.MentionedByAll, P.WeightOfAll;
    assert P.Symbol(node.selector) in P.Mentioned(node);
  }

  lemma {:induction false} MessageCase(pool: seq<P.Lit>, node: P.Node, inMethod: bool, rest: seq<Byte>)
    requires node.MessageNode? && Covers(pool, P.Mentioned(node)) && Sized(node) && Kept(pool, node)
    ensures ParseExpression(pool, Encode(pool, node, inMethod) + rest) == Done(Compiled(node, inMethod), rest)
    decreases P.Weight(node), 1
  {
    hide ParseSymbol, SymbolBytes, EncodeArray, ParseExpressionArray, ParseExpression, CompiledAll, AllSized, AllKept;
    hide P.MentionedByAll, P.Finds;
    hide Encode, Compiled, Sized, Kept, Covers, P.Mentioned, P.Weight, P.WeightOfAll;
    MessageLevel(pool, node, inMethod);
    var args := EncodeArray(pool, node.args, inMethod) + rest;
    var receiver := Encode(pool, node.receiver, inMethod) + args;
    SplitMessage(BooleanByte(node.inlined), SymbolBytes(pool, node.selector), Encode(pool, node.receiver, inMethod),
      EncodeArray(pool, node.args, inMethod), rest);
    ParseKind(pool, Encode(pool, node, inMethod) + rest);
    SymbolRoundTrip(pool, node.selector, receiver);
    RoundTrip(pool, node.receiver, inMethod, args);
    ArrayRoundTrip(pool, node.args, inMethod, rest);
  }

  lemma {:induction false} MessagesRoundTrip(pool: seq<P.Lit>, messages: seq<P.CascadeMessage>, inMethod: bool,
                                             rest: seq<Byte>)
    requires Covers(pool, P.MentionedByMessages(messages)) && MessagesSized(messages) && MessagesKept(pool, messages)
    ensures ParseCascadeMessages(pool, |messages|, EncodeMessages(pool, messages, inMethod) + rest)
      == Done(CompiledMessages(messages, inMethod), rest)
    decreases P.WeightOfMessages(messages), 3
  {
    hide ParseSymbol, SymbolBytes, EncodeArray, ParseExpressionArray, CompiledAll;
    if messages == [] {
      assert EncodeMessages(pool, messages, inMethod) + rest == rest;
    } else {
      var h := messages[0];
      assert P.Symbol(h.selector) in P.MentionedByMessages(messages);
      var others := EncodeMessages(pool, messages[1..], inMethod) + rest;
      var args := EncodeArray(pool, h.args, inMethod) + others;
      assert EncodeMessages(pool, messages, inMethod) + rest == SymbolBytes(pool, h.selector) + args;
      SymbolRoundTrip(pool, h.selector, args);
      ArrayRoundTrip(pool, h.args, inMethod, others);
      MessagesRoundTrip(pool, messages[1..], inMethod, rest);
    }
  }

  lemma CascadeLevel(pool: seq<P.Lit>, node: P.Node, inMethod: bool)
    requires node.CascadeNode?
    ensures P.Mentioned(node) == P.Mentioned(node.receiver) + P.MentionedByMessages(node.messages)
    ensures Sized(node) ==> Sized(node.receiver) && IsInt64(|node.messages|) && MessagesSized(node.messages)
    ensures Kept(pool, node) ==> Kept(pool, node.receiver) && MessagesKept(pool, node.messages)
    ensures Encode(pool, node, inMethod)
      == [CASCADE_ID] + Encode(pool, node.receiver, inMethod) + IntegerBytes(|node.messages|)
         + EncodeMessages(pool, node.messages, inMethod)
    ensures Compiled(node, inMethod)
      == Cascade(Compiled(node.receiver, inMethod), CompiledMessages(node.messages, inMethod))
    ensures P.Weight(node.receiver) < P.Weight(node) && P.WeightOfMessages(node.messages) < P.Weight(node)
  {}

  lemma {:induction false} CascadeCase(pool: seq<P.Lit>, node: P.Node, inMethod: bool, rest: seq<Byte>)
    requires node.CascadeNode? && Covers(pool, P.Mentioned(node)) && Sized(node) && Kept(pool, node)
    ensures ParseExpression(pool, Encode(pool, node, inMethod) + rest) == Done(Compiled(node, inMethod), rest)
    decreases P.Weight(node), 1
  {
    hide ParseInteger, IntegerBytes, EncodeMessages, ParseCascadeMessages, CompiledMessages, ParseExpression;
    hide Encode, Compiled, Sized, Kept, MessagesSized, MessagesKept, P.Mentioned, P.MentionedByMessages, P.Weight;
    CascadeLevel(pool, node, inMethod);
    var messages := EncodeMessages(pool, node.messages, inMethod) + rest;
    var count := IntegerBytes(|node.messages|) + messages;
    var bs := Encode(pool, node, inMethod) + rest;
    assert bs[1..] == Encode(pool, node.receiver, inMethod) + count;
    ParseKind(pool, bs);
    RoundTrip(pool, node.receiver, inMethod, count);
    IntegerRoundTrip(|node.messages|, messages);
    MessagesRoundTrip(pool, node.messages, inMethod, rest);
  }

  lemma BytesRoundTrip(bs: seq<Byte>, rest: seq<Byte>)
    requires IsInt64(|bs|)
    ensures ParseArray(ArrayBytes(bs) + rest) == Done(bs, rest)
  {
    hide ParseInteger, IntegerBytes;
    assert ArrayBytes(bs) + rest == IntegerBytes(|bs|) + (bs + rest);
    IntegerRoundTrip(|bs|, bs + rest);
    assert (bs + rest)[..|bs|] == bs && (bs + rest)[|bs|..] == rest;
  }

  /** Cells written as bytes are kept exactly when they are less than 256. */
  lemma CellsKept(cells: seq<nat>)
    ensures LowBytes(cells) == cells <==> forall c :: c in cells ==> c < 256
  {
    if LowBytes(cells) == cells {
      forall c | c in cells ensures c < 256 {
        var i :| 0 <= i < |cells| && cells[i] == c;
        assert LowBytes(cells)[i] == c;
      }
    } else {
      var i :| 0 <= i < |cells| && LowBytes(cells)[i] != cells[i];
      assert cells[i] in cells;
    }
  }

  lemma {:induction false} InlinedBlockCase(pool: seq<P.Lit>, node: P.Node, inMethod: bool, rest: seq<Byte>)
    requires node.InlinedBlockNode? && Covers(pool, P.Mentioned(node)) && Sized(node) && Kept(pool, node)
    ensures ParseExpression(pool, Encode(pool, node, inMethod) + rest) == Done(Compiled(node, inMethod), rest)
    decreases P.Weight(node), 1
  {
    hide ParseArray, ArrayBytes, EncodeArray, ParseExpressionArray;
    var statements := EncodeArray(pool, node.statements, inMethod) + rest;
    var bs := Encode(pool, node, inMethod) + rest;
    assert bs[1..][1..] == ArrayBytes(LowBytes(node.cells)) + statements;
    CellsKept(node.cells);
    BytesRoundTrip(LowBytes(node.cells), statements);
    ArrayRoundTrip(pool, node.statements, inMethod, rest);
  }

  lemma {:induction false} BlockCase(pool: seq<P.Lit>, node: P.Node, inMethod: bool, rest: seq<Byte>)
    requires node.BlockNode? && Covers(pool, P.Mentioned(node)) && Sized(node) && Kept(pool, node)
    ensures ParseExpression(pool, Encode(pool, node, inMethod) + rest) == Done(Compiled(node, inMethod), rest)
    decreases P.Weight(node), 1
  {
    hide ParseInteger, ParseArray, ArrayBytes, EncodeArray, ParseExpressionArray;
    var code := P.Block(node.info);
    assert code in P.Mentioned(node);
    var statements := EncodeArray(pool, node.statements, false) + rest;
    var captured := ArrayBytes(node.captured) + statements;
    var bs := Encode(pool, node, inMethod) + rest;
    assert bs[1..][1..] == [P.IndexOf(pool, code)] + captured;
    RawByteAsInteger(P.IndexOf(pool, code), captured);
    BytesRoundTrip(node.captured, statements);
    ArrayRoundTrip(pool, node.statements, false, rest);
  }
}
