/** The treecodes of an analysed tree, and the encoder that puts them on its stream. */
module TreecodeEncoder {
  import opened TreecodeIntegers
  import opened ParseNodes

  const METHOD_ID: Byte := 101
  const BLOCK_ID: Byte := 102
  const IDENTIFIER_ID: Byte := 103
  const LITERAL_ID: Byte := 104
  const MESSAGE_ID: Byte := 105
  const CASCADE_ID: Byte := 106
  const ASSIGNMENT_ID: Byte := 108
  const RETURN_ID: Byte := 109
  const PRAGMA_ID: Byte := 110

  const NIL_ID: Byte := 1
  const TRUE_ID: Byte := 2
  const FALSE_ID: Byte := 3
  const ARGUMENT_ID: Byte := 4
  const TEMPORARY_ID: Byte := 5
  const SELF_ID: Byte := 6
  const SUPER_ID: Byte := 7
  const DYNAMIC_VAR_ID: Byte := 14

  function BooleanByte(b: bool): Byte {
    if b then 1 else 0
  }

  function SymbolBytes(pool: seq<Lit>, name: string): seq<Byte> {
    IntegerBytes(IndexOf(pool, Symbol(name)))
  }

  /** A literal that is not in the pool goes in as a number. */
  function LiteralBytes(pool: seq<Lit>, value: Lit): seq<Byte> {
    [LITERAL_ID] + IntegerBytes(IndexOf(pool, value))
    + if IndexOf(pool, value) == 0 then IntegerBytes(if value.Integer? then value.value else 0) else []
  }

  function LocalBytes(kind: Byte, index: int, env: int): seq<Byte> {
    [kind] + IntegerBytes(index) + IntegerBytes(env)
  }

  function BindingBytes(pool: seq<Lit>, x: Reference): seq<Byte> {
    match x
    case NilRef => [NIL_ID]
    case TrueRef => [TRUE_ID]
    case FalseRef => [FALSE_ID]
    case SelfRef => [SELF_ID]
    case SuperRef => [SUPER_ID]
    case ArgumentRef(index, env) => LocalBytes(ARGUMENT_ID, index, env)
    case TemporaryRef(index, env) => LocalBytes(TEMPORARY_ID, index, env)
    case DynamicRef(name) => [DYNAMIC_VAR_ID] + SymbolBytes(pool, name)
  }

  function ReferenceBytes(pool: seq<Lit>, x: Reference): seq<Byte> {
    [IDENTIFIER_ID] + BindingBytes(pool, x)
  }

  function ReferencesBytes(pool: seq<Lit>, xs: seq<Reference>): seq<Byte> {
    if xs == [] then [] else ReferenceBytes(pool, xs[0]) + ReferencesBytes(pool, xs[1..])
  }

  function ArrayBytes(bs: seq<Byte>): seq<Byte> {
    IntegerBytes(|bs|) + bs
  }

  function LowBytes(ns: seq<nat>): (bs: seq<Byte>)
    ensures |bs| == |ns| && forall i :: 0 <= i < |ns| ==> bs[i] == ns[i] % 256
  {
    seq(|ns|, i requires 0 <= i < |ns| => ns[i] % 256)
  }

  function MessageHead(pool: seq<Lit>, inlined: bool, selector: string): seq<Byte> {
    [MESSAGE_ID, BooleanByte(inlined)] + SymbolBytes(pool, selector)
  }

  function BlockHead(pool: seq<Lit>, info: BlockInfo, captured: seq<Byte>): seq<Byte> {
    [BLOCK_ID, BooleanByte(false), IndexOf(pool, Block(info)) % 256] + ArrayBytes(captured)
  }

  function Encode(pool: seq<Lit>, node: Node, inMethod: bool): seq<Byte>
    decreases Weight(node), 1
  {
    match node
    case LiteralNode(value) => LiteralBytes(pool, value)
    case IdentifierNode(x) => ReferenceBytes(pool, x)
    case AssignmentNode(xs, e) =>
      [ASSIGNMENT_ID] + IntegerBytes(|xs|) + ReferencesBytes(pool, xs) + Encode(pool, e, inMethod)
    case ReturnNode(e) => [RETURN_ID, BooleanByte(inMethod)] + Encode(pool, e, inMethod)
    case MessageNode(inlined, selector, r, args) =>
      MessageHead(pool, inlined, selector) + Encode(pool, r, inMethod) + EncodeArray(pool, args, inMethod)
    case CascadeNode(r, messages) =>
      [CASCADE_ID] + Encode(pool, r, inMethod) + IntegerBytes(|messages|) + EncodeMessages(pool, messages, inMethod)
    case InlinedBlockNode(cells, statements) =>
      [BLOCK_ID, BooleanByte(true)] + ArrayBytes(LowBytes(cells)) + EncodeArray(pool, statements, inMethod)
    case BlockNode(info, captured, statements) => BlockHead(pool, info, captured) + EncodeArray(pool, statements, false)
    case BraceNode(elements) => Encode(pool, Expanded(elements), inMethod)
  }

  /** How many there are, and each of them. */
  function EncodeArray(pool: seq<Lit>, nodes: seq<Node>, inMethod: bool): seq<Byte>
    decreases WeightOfAll(nodes), 1
  {
    IntegerBytes(|nodes|) + EncodeAll(pool, nodes, inMethod)
  }

  function EncodeAll(pool: seq<Lit>, nodes: seq<Node>, inMethod: bool): seq<Byte>
    decreases WeightOfAll(nodes), 0
  {
    if nodes == [] then [] else Encode(pool, nodes[0], inMethod) + EncodeAll(pool, nodes[1..], inMethod)
  }

  function EncodeMessages(pool: seq<Lit>, messages: seq<CascadeMessage>, inMethod: bool): seq<Byte>
    decreases WeightOfMessages(messages), 0
  {
    if messages == [] then [] else
    SymbolBytes(pool, messages[0].selector) + EncodeArray(pool, messages[0].args, inMethod)
    + EncodeMessages(pool, messages[1..], inMethod)
  }

  function PragmaBytes(pool: seq<Lit>, pragma: Option<string>): seq<Byte> {
    match pragma
    case None => []
    case Some(name) => [PRAGMA_ID] + if name != "" then SymbolBytes(pool, name) else [0]
  }

  function EncodeMethod(pool: seq<Lit>, m: MethodNode): seq<Byte> {
    [METHOD_ID] + PragmaBytes(pool, m.pragma) + EncodeArray(pool, m.statements, true)
  }

  lemma Assoc(a: seq<Byte>, b: seq<Byte>, c: seq<Byte>)
    ensures a + b + c == a + (b + c)
  {}

  lemma Assoc4(a: seq<Byte>, b: seq<Byte>, c: seq<Byte>, d: seq<Byte>)
    ensures a + b + c + d == a + (b + c + d)
  {}

  lemma Assoc5(a: seq<Byte>, b: seq<Byte>, c: seq<Byte>, d: seq<Byte>, e: seq<Byte>)
    ensures a + b + c + d + e == a + (b + c + d + e)
  {}

  class Encoder {
    const pool: seq<Lit>
    var stream: seq<Byte>
    var inMethod: bool

    constructor (pool: seq<Lit>)
      ensures this.pool == pool && stream == [] && inMethod
    {
      this.pool, stream, inMethod := pool, [], true;
    }

    method NextPut(b: Byte)
      modifies `stream
      ensures stream == old(stream) + [b]
    {
      stream := stream + [b];
    }

    method NextBooleanPut(b: bool)
      modifies `stream
      ensures stream == old(stream) + [BooleanByte(b)]
    {
      NextPut(if b then 1 else 0);
    }

    method NextBigIntegerPut(v: int)
      modifies `stream
      ensures stream == old(stream) + ([BIG] + BigEndian(v, 8))
    {
      NextPut(BIG);
      var i := 8;
      while i > 0
        invariant 0 <= i <= 8
        invariant stream + BigEndian(v, i) == old(stream) + ([BIG] + BigEndian(v, 8))
      {
        i := i - 1;
        ghost var before := stream;
        NextPut(Shifted(v, i) % 256);
        Assoc(before, [Shifted(v, i) % 256], BigEndian(v, i));
      }
      assert stream + [] == stream;
    }

    method NextIntegerPut(v: int)
      modifies `stream
      ensures stream == old(stream) + IntegerBytes(v)
    {
      if v > 127 || v < -127 {
        NextBigIntegerPut(v);
        return;
      }
      NextPut(if v >= 0 then v else v + 0x100);
    }

    method NextSymbolPut(name: string)
      modifies `stream
      ensures stream == old(stream) + SymbolBytes(pool, name)
    {
      NextIntegerPut(IndexOf(pool, Symbol(name)));
    }

    method NextPutAll(bs: seq<Byte>)
      modifies `stream
      ensures stream == old(stream) + ArrayBytes(bs)
    {
      NextIntegerPut(|bs|);
      stream := stream + bs;
      Assoc(old(stream), IntegerBytes(|bs|), bs);
    }

    method VisitLiteral(value: Lit)
      modifies `stream
      ensures stream == old(stream) + LiteralBytes(pool, value)
    {
      var index := IndexOf(pool, value);
      NextPut(LITERAL_ID);
      NextIntegerPut(index);
      if index == 0 {
        NextIntegerPut(if value.Integer? then value.value else 0);
        Assoc4(old(stream), [LITERAL_ID], IntegerBytes(index), IntegerBytes(if value.Integer? then value.value else 0));
      } else {
        Assoc(old(stream), [LITERAL_ID], IntegerBytes(index));
      }
    }

    method EncodeLocal(kind: Byte, index: int, env: int)
      modifies `stream
      ensures stream == old(stream) + LocalBytes(kind, index, env)
    {
      NextPut(kind);
      NextIntegerPut(index);
      NextIntegerPut(env);
      Assoc4(old(stream), [kind], IntegerBytes(index), IntegerBytes(env));
    }

    method EncodeBinding(x: Reference)
      modifies `stream
      ensures stream == old(stream) + BindingBytes(pool, x)
    {
      match x
      case NilRef => NextPut(NIL_ID);
      case TrueRef => NextPut(TRUE_ID);
      case FalseRef => NextPut(FALSE_ID);
      case SelfRef => NextPut(SELF_ID);
      case SuperRef => NextPut(SUPER_ID);
      case ArgumentRef(index, env) => EncodeLocal(ARGUMENT_ID, index, env);
      case TemporaryRef(index, env) => EncodeLocal(TEMPORARY_ID, index, env);
      case DynamicRef(name) =>
        NextPut(DYNAMIC_VAR_ID);
        NextSymbolPut(name);
        Assoc(old(stream), [DYNAMIC_VAR_ID], SymbolBytes(pool, name));
    }

    method VisitIdentifier(x: Reference)
      modifies `stream
      ensures stream == old(stream) + ReferenceBytes(pool, x)
    {
      NextPut(IDENTIFIER_ID);
      EncodeBinding(x);
      Assoc(old(stream), [IDENTIFIER_ID], BindingBytes(pool, x));
    }

    method VisitIdentifiers(xs: seq<Reference>)
      modifies `stream
      ensures stream == old(stream) + ReferencesBytes(pool, xs)
    {
      if xs != [] {
        VisitIdentifier(xs[0]);
        VisitIdentifiers(xs[1..]);
        Assoc(old(stream), ReferenceBytes(pool, xs[0]), ReferencesBytes(pool, xs[1..]));
      }
    }

    method Visit(node: Node)
      modifies `stream, `inMethod
      ensures stream == old(stream) + Encode(pool, node, old(inMethod)) && inMethod == old(inMethod)
      decreases Weight(node), 2
    {
      hide LiteralBytes, ReferenceBytes;
      match node
      case LiteralNode(value) => VisitLiteral(value);
      case IdentifierNode(x) => VisitIdentifier(x);
      case AssignmentNode(_, _) => VisitAssignment(node);
      case ReturnNode(_) => VisitReturn(node);
      case MessageNode(_, _, _, _) => VisitMessage(node);
      case CascadeNode(_, _) => VisitCascade(node);
      case InlinedBlockNode(_, _) => VisitBlock(node);
      case BlockNode(_, _, _) => VisitBlock(node);
      case BraceNode(elements) => VisitCascade(Expanded(elements));
    }

    method VisitAll(nodes: seq<Node>)
      modifies `stream, `inMethod
      ensures stream == old(stream) + EncodeAll(pool, nodes, old(inMethod)) && inMethod == old(inMethod)
      decreases WeightOfAll(nodes), 0
    {
      hide Encode;
      if nodes != [] {
        Visit(nodes[0]);
        VisitAll(nodes[1..]);
        Assoc(old(stream), Encode(pool, nodes[0], inMethod), EncodeAll(pool, nodes[1..], inMethod));
      }
    }

    method VisitArray(nodes: seq<Node>)
      modifies `stream, `inMethod
      ensures stream == old(stream) + EncodeArray(pool, nodes, old(inMethod)) && inMethod == old(inMethod)
      decreases WeightOfAll(nodes), 1
    {
      hide EncodeAll;
      NextIntegerPut(|nodes|);
      VisitAll(nodes);
      Assoc(old(stream), IntegerBytes(|nodes|), EncodeAll(pool, nodes, inMethod));
    }

    method VisitAssignment(node: Node)
      requires node.AssignmentNode?
      modifies `stream, `inMethod
      ensures stream == old(stream) + Encode(pool, node, old(inMethod)) && inMethod == old(inMethod)
      decreases Weight(node), 1
    {
      NextPut(ASSIGNMENT_ID);
      NextIntegerPut(|node.assignees|);
      VisitIdentifiers(node.assignees);
      Visit(node.expression);
      Assoc5(old(stream), [ASSIGNMENT_ID], IntegerBytes(|node.assignees|), ReferencesBytes(pool, node.assignees),
        Encode(pool, node.expression, inMethod));
    }

    method VisitReturn(node: Node)
      requires node.ReturnNode?
      modifies `stream, `inMethod
      ensures stream == old(stream) + Encode(pool, node, old(inMethod)) && inMethod == old(inMethod)
      decreases Weight(node), 1
    {
      NextPut(RETURN_ID);
      NextBooleanPut(inMethod);
      assert stream == old(stream) + [RETURN_ID, BooleanByte(inMethod)];
      Visit(node.expression);
      Assoc(old(stream), [RETURN_ID, BooleanByte(inMethod)], Encode(pool, node.expression, inMethod));
    }

    method VisitMessage(node: Node)
      requires node.MessageNode?
      modifies `stream, `inMethod
      ensures stream == old(stream) + Encode(pool, node, old(inMethod)) && inMethod == old(inMethod)
      decreases Weight(node), 1
    {
      hide EncodeArray, SymbolBytes;
      NextPut(MESSAGE_ID);
      NextBooleanPut(node.inlined);
      assert stream == old(stream) + [MESSAGE_ID, BooleanByte(node.inlined)];
      NextSymbolPut(node.selector);
      Assoc(old(stream), [MESSAGE_ID, BooleanByte(node.inlined)], SymbolBytes(pool, node.selector));
      Visit(node.receiver);
      VisitArray(node.args);
      Assoc4(old(stream), MessageHead(pool, node.inlined, node.selector), Encode(pool, node.receiver, inMethod),
        EncodeArray(pool, node.args, inMethod));
    }

    method VisitCascade(node: Node)
      requires node.CascadeNode?
      modifies `stream, `inMethod
      ensures stream == old(stream) + Encode(pool, node, old(inMethod)) && inMethod == old(inMethod)
      decreases Weight(node), 1
    {
      hide EncodeMessages;
      NextPut(CASCADE_ID);
      Visit(node.receiver);
      NextIntegerPut(|node.messages|);
      VisitMessages(node.messages);
      Assoc5(old(stream), [CASCADE_ID], Encode(pool, node.receiver, inMethod), IntegerBytes(|node.messages|),
        EncodeMessages(pool, node.messages, inMethod));
    }

    method VisitMessages(messages: seq<CascadeMessage>)
      modifies `stream, `inMethod
      ensures stream == old(stream) + EncodeMessages(pool, messages, old(inMethod)) && inMethod == old(inMethod)
      decreases WeightOfMessages(messages), 0
    {
      hide EncodeArray, SymbolBytes;
      if messages != [] {
        NextSymbolPut(messages[0].selector);
        VisitArray(messages[0].args);
        VisitMessages(messages[1..]);
        Assoc4(old(stream), SymbolBytes(pool, messages[0].selector), EncodeArray(pool, messages[0].args, inMethod),
          EncodeMessages(pool, messages[1..], inMethod));
      }
    }

    /** The statements of a real block are not a method's; those of an inlined one are whatever
        the script around it is. */
    method VisitBlock(node: Node)
      requires node.BlockNode? || node.InlinedBlockNode?
      modifies `stream, `inMethod
      ensures stream == old(stream) + Encode(pool, node, old(inMethod)) && inMethod == old(inMethod)
      decreases Weight(node), 1
    {
      hide EncodeArray, ArrayBytes;
      NextPut(BLOCK_ID);
      NextBooleanPut(node.InlinedBlockNode?);
      if node.InlinedBlockNode? {
        assert stream == old(stream) + [BLOCK_ID, BooleanByte(true)];
        NextPutAll(LowBytes(node.cells));
        VisitArray(node.statements);
        Assoc4(old(stream), [BLOCK_ID, BooleanByte(true)], ArrayBytes(LowBytes(node.cells)),
          EncodeArray(pool, node.statements, inMethod));
      } else {
        NextPut(IndexOf(pool, Block(node.info)) % 256);
        ghost var head := [BLOCK_ID, BooleanByte(false), IndexOf(pool, Block(node.info)) % 256];
        assert stream == old(stream) + head;
        NextPutAll(node.captured);
        Assoc(old(stream), head, ArrayBytes(node.captured));
        var prev := inMethod;
        inMethod := false;
        VisitArray(node.statements);
        inMethod := prev;
        Assoc(old(stream), BlockHead(pool, node.info, node.captured), EncodeArray(pool, node.statements, false));
      }
    }

    method EncodeMethodNode(m: MethodNode)
      modifies `stream, `inMethod
      ensures stream == EncodeMethod(pool, m)
    {
      hide EncodeArray;
      stream := [];
      inMethod := true;
      NextPut(METHOD_ID);
      if m.pragma.Some? {
        NextPut(PRAGMA_ID);
        if m.pragma.value != "" {
          NextSymbolPut(m.pragma.value);
        } else {
          NextPut(0);
        }
      }
      assert stream == [METHOD_ID] + PragmaBytes(pool, m.pragma);
      VisitArray(m.statements);
    }
  }

  /** The pool of a method and its treecodes. */
  method BuildMethod(m: MethodNode) returns (literals: seq<Lit>, treecodes: seq<Byte>)
    ensures literals == Literals(m) && treecodes == EncodeMethod(literals, m)
  {
    var pool := new LiteralPool();
    pool.Collect(m);
    literals := pool.literals;
    var encoder := new Encoder(literals);
    encoder.EncodeMethodNode(m);
    treecodes := encoder.stream;
  }
}
