/** What the treecodes of each kind of node look like, byte for byte, and that the tree meant has
    the parts of the node in their places. */
module TreecodeFormat {
  import opened TreecodeIntegers
  import P = ParseNodes
  import opened TreecodeEncoder
  import opened TreecodeDecoder
  import opened TreecodeRoundTrip
  import opened TreecodeMethods

  // ---- bytes

  const POOL: seq<P.Lit> := [P.Symbol("foo:"), P.Symbol("X"), P.Block(P.BlockInfo(9, 0, 0, 0, false, false))]

  lemma ReferenceFormat(inMethod: bool)
    ensures Encode(POOL, P.IdentifierNode(P.NilRef), inMethod) == [103, 1]
    ensures Encode(POOL, P.IdentifierNode(P.TrueRef), inMethod) == [103, 2]
    ensures Encode(POOL, P.IdentifierNode(P.FalseRef), inMethod) == [103, 3]
    ensures Encode(POOL, P.IdentifierNode(P.ArgumentRef(1, -2)), inMethod) == [103, 4, 1, 254]
    ensures Encode(POOL, P.IdentifierNode(P.TemporaryRef(2, 0)), inMethod) == [103, 5, 2, 0]
    ensures Encode(POOL, P.IdentifierNode(P.SelfRef), inMethod) == [103, 6]
    ensures Encode(POOL, P.IdentifierNode(P.SuperRef), inMethod) == [103, 7]
    ensures Encode(POOL, P.IdentifierNode(P.DynamicRef("X")), inMethod) == [103, 14, 2]
  {}

  lemma Places()
    ensures P.IndexOf(POOL, P.Symbol("foo:")) == 1 && P.IndexOf(POOL, P.Symbol("X")) == 2
    ensures P.IndexOf(POOL, POOL[2]) == 3 && forall v :: P.IndexOf(POOL, P.Integer(v)) == 0
  {}

  lemma LiteralFormat(inMethod: bool)
    ensures Encode(POOL, P.LiteralNode(P.Symbol("X")), inMethod) == [104, 2]
    ensures Encode(POOL, P.LiteralNode(P.Integer(-127)), inMethod) == [104, 0, 129]
    ensures Encode(POOL, P.LiteralNode(P.Integer(127)), inMethod) == [104, 0, 127]
    ensures Encode(POOL, P.LiteralNode(P.Integer(300)), inMethod) == [104, 0, 128, 0, 0, 0, 0, 0, 0, 1, 44]
    ensures Encode(POOL, P.LiteralNode(P.Integer(-128)), inMethod)
      == [104, 0, 128, 255, 255, 255, 255, 255, 255, 255, 128]
  {
    Places();
    BigBytes();
    hide P.IndexOf, BigEndian;
  }

  lemma BigBytes()
    ensures BigEndian(300, 8) == [0, 0, 0, 0, 0, 0, 1, 44]
    ensures BigEndian(-128, 8) == [255, 255, 255, 255, 255, 255, 255, 128]
  {
    assert Shifted(300, 1) == 1 && Shifted(300, 2) == 0 && Shifted(300, 3) == 0 && Shifted(300, 4) == 0;
    assert Shifted(300, 5) == 0 && Shifted(300, 6) == 0 && Shifted(300, 7) == 0;
    assert Shifted(-128, 1) == -1 && Shifted(-128, 2) == -1 && Shifted(-128, 3) == -1 && Shifted(-128, 4) == -1;
    assert Shifted(-128, 5) == -1 && Shifted(-128, 6) == -1 && Shifted(-128, 7) == -1;
  }

  lemma StatementFormat()
    ensures Encode(POOL, P.AssignmentNode([P.TemporaryRef(1, -2)], P.IdentifierNode(P.NilRef)), true)
      == [108, 1, 103, 5, 1, 254, 103, 1]
    ensures Encode(POOL, P.ReturnNode(P.IdentifierNode(P.SelfRef)), true) == [109, 1, 103, 6]
    ensures Encode(POOL, P.ReturnNode(P.IdentifierNode(P.SelfRef)), false) == [109, 0, 103, 6]
  {}

  lemma MessageFormat(inlined: bool)
    ensures Encode(POOL,
        P.MessageNode(inlined, "foo:", P.IdentifierNode(P.SelfRef), [P.IdentifierNode(P.NilRef)]), true)
      == [105, if inlined then 1 else 0, 1, 103, 6, 1, 103, 1]
    ensures Encode(POOL, P.CascadeNode(P.IdentifierNode(P.SelfRef),
        [P.CascadeMessage("foo:", [P.IdentifierNode(P.NilRef)])]), true)
      == [106, 103, 6, 1, 1, 1, 103, 1]
  {
    Places();
    hide P.IndexOf;
    OneNode(P.NilRef);
  }

  lemma OneNode(x: P.Reference)
    ensures EncodeAll(POOL, [P.IdentifierNode(x)], true) == Encode(POOL, P.IdentifierNode(x), true)
  {
    assert [P.IdentifierNode(x)][1..] == [];
  }

  lemma BlockFormat()
    ensures Encode(POOL, P.InlinedBlockNode([3], []), true) == [102, 1, 1, 3, 0]
    ensures Encode(POOL, P.BlockNode(POOL[2].info, [2, 0], [P.ReturnNode(P.IdentifierNode(P.SelfRef))]), true)
      == [102, 0, 3, 2, 2, 0, 1, 109, 0, 103, 6]
  {
    Places();
    hide P.IndexOf;
    StatementFormat();
    var node := P.ReturnNode(P.IdentifierNode(P.SelfRef));
    assert [node][1..] == [];
    assert EncodeAll(POOL, [node], false) == Encode(POOL, node, false);
    assert LowBytes([3]) == [3];
  }

  lemma MethodFormat()
    ensures EncodeMethod(POOL, P.MethodNode(P.None, [])) == [101, 0]
    ensures EncodeMethod(POOL, P.MethodNode(P.Some("X"), [])) == [101, 110, 2, 0]
    ensures EncodeMethod(POOL, P.MethodNode(P.Some(""), [])) == [101, 110, 0, 0]
  {}

  // ---- parts

  lemma {:induction false} AllInOrder(nodes: seq<P.Node>, inMethod: bool, k: nat)
    requires k < |nodes|
    ensures CompiledAll(nodes, inMethod)[k] == Compiled(nodes[k], inMethod)
  {
    hide Compiled;
    if k > 0 {
      AllInOrder(nodes[1..], inMethod, k - 1);
    }
  }

  lemma {:induction false} MessagesInOrder(messages: seq<P.CascadeMessage>, inMethod: bool, k: nat)
    requires k < |messages|
    ensures CompiledMessages(messages, inMethod)[k]
      == CascadeMessage(P.Symbol(messages[k].selector), CompiledAll(messages[k].args, inMethod))
  {
    hide CompiledAll;
    if k > 0 {
      MessagesInOrder(messages[1..], inMethod, k - 1);
    }
  }

  lemma {:induction false} ReferencesInOrder(xs: seq<P.Reference>, k: nat)
    requires k < |xs|
    ensures CompiledReferences(xs)[k] == CompiledReference(xs[k])
  {
    if k > 0 {
      ReferencesInOrder(xs[1..], k - 1);
    }
  }

  /** The returns of a script: those in its inlined blocks are its own, those in real blocks are
      never local. */
  predicate Returns(tree: Tree, local: bool)
    decreases tree, 1
  {
    match tree
    case Return(l, e) => l == local && Returns(e, local)
    case Assignment(_, e) => Returns(e, local)
    case Message(_, _, r, args) => Returns(r, local) && AllReturn(args, local)
    case Cascade(r, messages) => Returns(r, local) && MessagesReturn(messages, local)
    case InlinedBlock(_, statements) => AllReturn(statements, local)
    case Block(_, _, statements) => AllReturn(statements, false)
    case _ => true
  }

  predicate AllReturn(trees: seq<Tree>, local: bool)
    decreases trees, 0
  {
    trees != [] ==> Returns(trees[0], local) && AllReturn(trees[1..], local)
  }

  predicate MessagesReturn(messages: seq<CascadeMessage>, local: bool)
    decreases messages, 0
  {
    messages != [] ==> AllReturn(messages[0].args, local) && MessagesReturn(messages[1..], local)
  }

  /** A return is local exactly when the real script around it is the method. */
  lemma {:induction false} ReturnsOfScript(node: P.Node, inMethod: bool)
    ensures Returns(Compiled(node, inMethod), inMethod)
    decreases P.Weight(node), 1
  {
    match node
    case LiteralNode(_) =>
    case IdentifierNode(_) =>
    case AssignmentNode(_, e) => ReturnsOfScript(e, inMethod);
    case ReturnNode(e) => ReturnsOfScript(e, inMethod);
    case MessageNode(_, _, r, args) =>
      ReturnsOfScript(r, inMethod);
      ReturnsOfAll(args, inMethod);
    case CascadeNode(r, messages) =>
      ReturnsOfScript(r, inMethod);
      ReturnsOfMessages(messages, inMethod);
    case InlinedBlockNode(_, statements) => ReturnsOfAll(statements, inMethod);
    case BlockNode(_, _, statements) => ReturnsOfAll(statements, false);
    case BraceNode(elements) => ReturnsOfScript(P.Expanded(elements), inMethod);
  }

  lemma {:induction false} ReturnsOfAll(nodes: seq<P.Node>, inMethod: bool)
    ensures AllReturn(CompiledAll(nodes, inMethod), inMethod)
    decreases P.WeightOfAll(nodes), 0
  {
    hide Compiled, Returns;
    if nodes != [] {
      ReturnsOfScript(nodes[0], inMethod);
      ReturnsOfAll(nodes[1..], inMethod);
    }
  }

  lemma {:induction false} ReturnsOfMessages(messages: seq<P.CascadeMessage>, inMethod: bool)
    ensures MessagesReturn(CompiledMessages(messages, inMethod), inMethod)
    decreases P.WeightOfMessages(messages), 0
  {
    hide CompiledAll, AllReturn;
    if messages != [] {
      ReturnsOfAll(messages[0].args, inMethod);
      ReturnsOfMessages(messages[1..], inMethod);
    }
  }

  lemma ReturnsOfMethod(m: P.MethodNode)
    ensures AllReturn(CompiledMethod(m).statements, true)
  {
    hide CompiledAll, AllReturn;
    ReturnsOfAll(m.statements, true);
  }

  // ---- sizes

  /** Whatever has parts that fit and as many of them as fit in 64 bits, fits. */
  lemma SizedComposes(node: P.Node)
    requires match node
      case LiteralNode(value) => value.Integer? ==> -0x8000_0000_0000_0000 <= value.value <= 0x7FFF_FFFF_FFFF_FFFF
      case IdentifierNode(x) => SizedReference(x)
      case AssignmentNode(xs, e) =>
        |xs| < 0x8000_0000_0000_0000 && (forall x :: x in xs ==> SizedReference(x)) && Sized(e)
      case ReturnNode(e) => Sized(e)
      case MessageNode(_, _, r, args) =>
        Sized(r) && |args| < 0x8000_0000_0000_0000 && forall a :: a in args ==> Sized(a)
      case CascadeNode(r, messages) =>
        && Sized(r) && |messages| < 0x8000_0000_0000_0000
        && forall m :: m in messages ==> |m.args| < 0x8000_0000_0000_0000 && forall a :: a in m.args ==> Sized(a)
      case InlinedBlockNode(cells, statements) =>
        && |cells| < 0x8000_0000_0000_0000
        && |statements| < 0x8000_0000_0000_0000 && forall a :: a in statements ==> Sized(a)
      case BlockNode(_, captured, statements) =>
        && |captured| < 0x8000_0000_0000_0000
        && |statements| < 0x8000_0000_0000_0000 && forall a :: a in statements ==> Sized(a)
      case BraceNode(elements) => |elements| < 0x7FFF_FFFF_FFFF_FFFF && forall a :: a in elements ==> Sized(a)
    ensures Sized(node)
  {
    match node
    case MessageNode(_, _, _, args) => AllCompose(args);
    case CascadeNode(_, messages) => MessagesCompose(messages);
    case InlinedBlockNode(_, statements) => AllCompose(statements);
    case BlockNode(_, _, statements) => AllCompose(statements);
    case BraceNode(elements) =>
      PutsCompose(elements, 1);
      var size := P.LiteralNode(P.Integer(|elements|));
      assert Sized(size);
      AllCompose([size]);
      var newArray := P.MessageNode(false, "new:", P.IdentifierNode(P.DynamicRef("Array")), [size]);
      assert P.Expanded(elements) == P.CascadeNode(newArray, P.Puts(elements, 1));
      assert Sized(newArray);
      CascadeSized(P.Expanded(elements));
    case _ =>
  }

  lemma CascadeSized(node: P.Node)
    requires node.CascadeNode? && Sized(node.receiver) && |node.messages| < 0x8000_0000_0000_0000
    requires MessagesSized(node.messages)
    ensures Sized(node)
  {}

  predicate SizedReference(x: P.Reference) {
    x.ArgumentRef? || x.TemporaryRef? ==>
      && -0x8000_0000_0000_0000 <= x.index <= 0x7FFF_FFFF_FFFF_FFFF
      && -0x8000_0000_0000_0000 <= x.env <= 0x7FFF_FFFF_FFFF_FFFF
  }

  lemma {:induction false} AllCompose(nodes: seq<P.Node>)
    requires |nodes| < 0x8000_0000_0000_0000 && forall a :: a in nodes ==> Sized(a)
    ensures AllSized(nodes)
  {
    hide Sized;
    if nodes != [] {
      assert nodes[0] in nodes && forall a :: a in nodes[1..] ==> a in nodes;
      AllCompose(nodes[1..]);
    }
  }

  lemma {:induction false} MessagesCompose(messages: seq<P.CascadeMessage>)
    requires forall m :: m in messages ==> |m.args| < 0x8000_0000_0000_0000 && forall a :: a in m.args ==> Sized(a)
    ensures MessagesSized(messages)
  {
    hide Sized, AllSized;
    if messages != [] {
      assert messages[0] in messages && forall m :: m in messages[1..] ==> m in messages;
      AllCompose(messages[0].args);
      MessagesCompose(messages[1..]);
    }
  }

  lemma {:induction false} PutsCompose(elements: seq<P.Node>, i: nat)
    requires i + |elements| < 0x8000_0000_0000_0000 && forall a :: a in elements ==> Sized(a)
    ensures MessagesSized(P.Puts(elements, i))
  {
    if elements != [] {
      assert elements[0] in elements && forall a :: a in elements[1..] ==> a in elements;
      var index := P.LiteralNode(P.Integer(i));
      assert Sized(index);
      AllCompose([index, elements[0]]);
      PutsCompose(elements[1..], i + 1);
      assert P.Puts(elements, i)[1..] == P.Puts(elements[1..], i + 1);
    }
  }

  // ---- the pool

  /** A number is in the pool of a method that mentions it alone exactly when it does not fit in
      fifteen bits. */
  lemma NumbersInPool(n: int)
    ensures var literals := P.Literals(P.MethodNode(P.None, [P.LiteralNode(P.Integer(n))]));
      literals == if -16384 <= n <= 16383 then [] else [P.Integer(n)]
  {
    var node := P.LiteralNode(P.Integer(n));
    assert [node][1..] == [];
    assert P.MentionedByAll([node]) == P.Mentioned(node);
    assert P.Added([], []) == [];
    if !(-16384 <= n <= 16383) {
      assert P.MentionedByAll([node]) == [P.Integer(n)];
      assert [P.Integer(n)][..0] == [];
    }
  }

  /** What a method mentions, with one of everything: its pragma, selectors, literals, variables
      outside and what a brace node stands for, in the order they are met. */
  lemma MentionFormat()
    ensures P.MentionedByMethod(P.MethodNode(P.Some("p"), [
        P.MessageNode(false, "foo", P.IdentifierNode(P.DynamicRef("X")), [P.LiteralNode(P.String("s"))]),
        P.ReturnNode(P.BraceNode([P.LiteralNode(P.Integer(7)), P.IdentifierNode(P.DynamicRef("X"))]))]))
      == [P.Symbol("p"), P.Symbol("foo"), P.Symbol("X"), P.String("s"), P.Symbol("Array"), P.Symbol("new:"),
          P.Symbol("at:put:"), P.Symbol("yourself"), P.Symbol("X")]
  {
    var x, lit := P.IdentifierNode(P.DynamicRef("X")), P.LiteralNode(P.String("s"));
    var send := P.MessageNode(false, "foo", x, [lit]);
    var answer := P.ReturnNode(P.BraceNode([P.LiteralNode(P.Integer(7)), x]));
    Mentions([lit]);
    Mentions([P.LiteralNode(P.Integer(7)), x]);
    Mentions([x]);
    Mentions([send, answer]);
    Mentions([answer]);
    assert P.Mentioned(send) == [P.Symbol("foo")] + P.Mentioned(x) + P.MentionedByAll([lit]);
    assert P.Mentioned(answer) == P.BraceSymbols() + P.MentionedByAll([P.LiteralNode(P.Integer(7)), x]);
    assert P.Mentioned(x) == [P.Symbol("X")] && P.Mentioned(lit) == [P.String("s")];
    assert P.Mentioned(P.LiteralNode(P.Integer(7))) == [];
    hide P.Mentioned, P.MentionedByAll;
  }

  lemma Mentions(nodes: seq<P.Node>)
    ensures P.MentionedByAll(nodes)
      == if nodes == [] then [] else P.Mentioned(nodes[0]) + P.MentionedByAll(nodes[1..])
  {}

  /** Literals without repetitions are the pool as they come. */
  lemma {:induction false} AllNew(values: seq<P.Lit>)
    requires forall i, j :: 0 <= i < j < |values| ==> !P.Same(values[i], values[j])
    ensures P.Unique(values) == values
  {
    if values != [] {
      var front, last := values[..|values| - 1], values[|values| - 1];
      AllNew(front);
      assert P.Added([], values) == P.AddUnique(front, last);
      assert values == front + [last];
    }
  }
}
