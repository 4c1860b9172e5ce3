/** What treecodes lose: wherever the tree that is meant is read, at least as many bytes are read
    as the encoder writes for it, and more when it has a block whose place in the pool does not
    fit. So a tree with such a block is not read back from its own treecodes. */
module TreecodeLosses {
  import opened TreecodeIntegers
  import P = ParseNodes
  import opened TreecodeEncoder
  import opened TreecodeDecoder
  import opened TreecodeRoundTrip

  /** Numbers that go into the treecode itself are not in the pool. */
  predicate NoSmall(pool: seq<P.Lit>) {
    forall v :: v in pool ==> !P.IsSmall(v)
  }

  // ---- how much is read, at least

  lemma IntegerRead(v: int, bs: seq<Byte>, rest: seq<Byte>)
    requires ParseInteger(bs) == Done(v, rest)
    ensures |bs| >= |IntegerBytes(v)| + |rest|
  {}

  /** A literal is found in the pool no earlier than the encoder finds it. */
  lemma PlaceRead(pool: seq<P.Lit>, value: P.Lit, j: nat)
    requires 1 <= j <= |pool| && pool[j - 1] == value
    ensures 1 <= P.IndexOf(pool, value) <= j
    ensures |IntegerBytes(P.IndexOf(pool, value))| <= |IntegerBytes(j)|
  {
    assert P.Same(pool[j - 1], value);
  }

  lemma SymbolRead(pool: seq<P.Lit>, name: string, bs: seq<Byte>, rest: seq<Byte>)
    requires ParseSymbol(pool, bs) == Done(P.Symbol(name), rest)
    ensures |bs| >= |SymbolBytes(pool, name)| + |rest|
  {
    hide ParseInteger, IntegerBytes;
    var p := ParseInteger(bs);
    IntegerRead(p.value, bs, rest);
    PlaceRead(pool, P.Symbol(name), p.value);
  }

  lemma LiteralRead(pool: seq<P.Lit>, value: P.Lit, bs: seq<Byte>, rest: seq<Byte>)
    requires NoSmall(pool) && ParseLiteral(pool, bs) == Done(Literal(value), rest)
    ensures |bs| + 1 >= |LiteralBytes(pool, value)| + |rest|
  {
    var p := ParseInteger(bs);
    IntegerRead(p.value, bs, p.rest);
    if p.value != 0 {
      PlaceRead(pool, value, p.value);
    } else {
      IntegerRead(value.value, p.rest, rest);
      assert P.IndexOf(pool, value) != 0 ==> pool[P.IndexOf(pool, value) - 1] in pool;
    }
  }

  lemma BindingRead(pool: seq<P.Lit>, x: P.Reference, bs: seq<Byte>, rest: seq<Byte>)
    requires ParseBinding(pool, bs) == Done(CompiledReference(x), rest)
    ensures |bs| >= |BindingBytes(pool, x)| + |rest|
  {
    hide SymbolBytes, ParseSymbol, IntegerBytes, ParseInteger;
    var id := ParseInteger(bs);
    match x
    case ArgumentRef(index, env) => LocalRead(true, index, env, id.rest, rest);
    case TemporaryRef(index, env) => LocalRead(false, index, env, id.rest, rest);
    case DynamicRef(name) => SymbolRead(pool, name, id.rest, rest);
    case _ =>
  }

  lemma LocalRead(argument: bool, index: int, env: int, bs: seq<Byte>, rest: seq<Byte>)
    requires ParseLocal(argument, bs)
      == Done(if argument then ArgumentBinding(index, env) else TemporaryBinding(index, env), rest)
    ensures |bs| >= |IntegerBytes(index)| + |IntegerBytes(env)| + |rest|
  {
    hide IntegerBytes, ParseInteger;
    var first := ParseInteger(bs);
    IntegerRead(index, bs, first.rest);
    IntegerRead(env, first.rest, rest);
  }

  lemma ReferenceRead(pool: seq<P.Lit>, x: P.Reference, bs: seq<Byte>, rest: seq<Byte>)
    requires ParseExpression(pool, bs) == Done(Identifier(CompiledReference(x)), rest)
    ensures |bs| >= |ReferenceBytes(pool, x)| + |rest|
  {
    hide BindingBytes, ParseBinding, ParseLiteral;
    KindRead(pool, bs);
    BindingRead(pool, x, bs[1..], rest);
  }

  lemma {:induction false} ReferencesRead(pool: seq<P.Lit>, xs: seq<P.Reference>, bs: seq<Byte>, trees: seq<Tree>,
                                          rest: seq<Byte>)
    requires ParseExpressions(pool, |xs|, bs) == Done(trees, rest)
    requires (forall t :: t in trees ==> t.Identifier?) && BindingsOf(trees) == CompiledReferences(xs)
    ensures |bs| >= |ReferencesBytes(pool, xs)| + |rest|
  {
    hide ParseExpression, ReferenceBytes, CompiledReference;
    if xs != [] {
      var first := ParseExpression(pool, bs);
      var others := ParseExpressions(pool, |xs| - 1, first.rest);
      assert trees == [first.value] + others.value && trees[0] in trees;
      assert BindingsOf(trees)[0] == CompiledReferences(xs)[0];
      ReferenceRead(pool, xs[0], bs, first.rest);
      assert forall t :: t in others.value ==> t in trees;
      assert BindingsOf(others.value) == BindingsOf(trees)[1..];
      assert CompiledReferences(xs)[1..] == CompiledReferences(xs[1..]);
      ReferencesRead(pool, xs[1..], first.rest, others.value, rest);
    }
  }

  lemma BytesRead(values: seq<Byte>, bs: seq<Byte>, rest: seq<Byte>)
    requires ParseArray(bs) == Done(values, rest)
    ensures |bs| >= |ArrayBytes(values)| + |rest|
  {
    var count := ParseInteger(bs);
    IntegerRead(count.value, bs, count.rest);
    if count.value <= 0 {
      assert |ArrayBytes(values)| == 1;
    } else {
      assert |values| == count.value;
    }
  }

  /** The kind of node that is read tells by which rule. */
  lemma KindRead(pool: seq<P.Lit>, bs: seq<Byte>)
    requires ParseExpression(pool, bs).Done?
    ensures bs != []
    ensures var t := ParseExpression(pool, bs).value;
      && (t.Literal? ==> ParseExpression(pool, bs) == ParseLiteral(pool, bs[1..]))
      && (t.Identifier? ==>
            var b := ParseBinding(pool, bs[1..]);
            b.Done? && ParseExpression(pool, bs) == Done(Identifier(b.value), b.rest))
      && (t.Assignment? ==> ParseExpression(pool, bs) == ParseAssignment(pool, bs[1..]))
      && (t.Return? ==> ParseExpression(pool, bs) == ParseReturn(pool, bs[1..]))
      && (t.Message? ==> ParseExpression(pool, bs) == ParseMessage(pool, bs[1..]))
      && (t.Cascade? ==> ParseExpression(pool, bs) == ParseCascade(pool, bs[1..]))
      && (t.InlinedBlock? || t.Block? ==> ParseExpression(pool, bs) == ParseBlock(pool, bs[1..]))
  {
    hide ParseBinding, ParseInteger;
  }

  // ---- trees

  /** From so many bytes to so many: at least what a tree's treecodes take, and exactly as much
      only if they keep it. */
  predicate Spent(before: nat, size: nat, after: nat, kept: bool) {
    before >= size + after && (before == size + after ==> kept)
  }

  /** Wherever the tree that is meant is read, at least as much is read as is written for it, and
      more unless its treecodes keep it. */
  lemma {:induction false} TreeRead(pool: seq<P.Lit>, node: P.Node, inMethod: bool, bs: seq<Byte>, rest: seq<Byte>)
    requires NoSmall(pool) && ParseExpression(pool, bs) == Done(Compiled(node, inMethod), rest)
    ensures Spent(|bs|, |Encode(pool, node, inMethod)|, |rest|, Kept(pool, node))
    decreases P.Weight(node), 2
  {
    hide ParseExpression, NoSmall, LiteralBytes, ReferenceBytes, P.Weight, ParseLiteral;
    match node
    case LiteralNode(value) =>
      KindRead(pool, bs);
      LiteralRead(pool, value, bs[1..], rest);
    case IdentifierNode(x) => ReferenceRead(pool, x, bs, rest);
    case AssignmentNode(_, _) => AssignmentRead(pool, node, inMethod, bs, rest);
    case ReturnNode(_) => ReturnRead(pool, node, inMethod, bs, rest);
    case MessageNode(_, _, _, _) => MessageRead(pool, node, inMethod, bs, rest);
    case CascadeNode(_, _) => CascadeRead(pool, node, inMethod, bs, rest);
    case InlinedBlockNode(_, _) => InlinedBlockRead(pool, node, inMethod, bs, rest);
    case BlockNode(_, _, _) => BlockRead(pool, node, inMethod, bs, rest);
    case BraceNode(elements) => TreeRead(pool, P.Expanded(elements), inMethod, bs, rest);
  }

  lemma {:induction false} AssignmentRead(pool: seq<P.Lit>, node: P.Node, inMethod: bool, bs: seq<Byte>,
                                          rest: seq<Byte>)
    requires node.AssignmentNode? && NoSmall(pool) && ParseExpression(pool, bs) == Done(Compiled(node, inMethod), rest)
    ensures Spent(|bs|, |Encode(pool, node, inMethod)|, |rest|, Kept(pool, node))
    decreases P.Weight(node), 1
  {
    hide ParseExpression, ParseExpressions, ParseInteger, IntegerBytes, ReferencesBytes, CompiledReferences, NoSmall;
    hide BindingsOf;
    KindRead(pool, bs);
    var xs := node.assignees;
    var count := ParseInteger(bs[1..]);
    var assignees := ParseExpressions(pool, count.value, count.rest);
    assert BindingsOf(assignees.value) == CompiledReferences(xs);
    IntegerRead(count.value, bs[1..], count.rest);
    BindingsCount(assignees.value);
    ReferencesRead(pool, xs, count.rest, assignees.value, assignees.rest);
    TreeRead(pool, node.expression, inMethod, assignees.rest, rest);
  }

  lemma BindingsCount(trees: seq<Tree>)
    requires forall t :: t in trees ==> t.Identifier?
    ensures |BindingsOf(trees)| == |trees|
  {}

  lemma {:induction false} ReturnRead(pool: seq<P.Lit>, node: P.Node, inMethod: bool, bs: seq<Byte>, rest: seq<Byte>)
    requires node.ReturnNode? && NoSmall(pool) && ParseExpression(pool, bs) == Done(Compiled(node, inMethod), rest)
    ensures Spent(|bs|, |Encode(pool, node, inMethod)|, |rest|, Kept(pool, node))
    decreases P.Weight(node), 1
  {
    hide ParseExpression, NoSmall;
    KindRead(pool, bs);
    TreeRead(pool, node.expression, inMethod, bs[1..][1..], rest);
  }

  lemma {:induction false} AllRead(pool: seq<P.Lit>, nodes: seq<P.Node>, inMethod: bool, bs: seq<Byte>, rest: seq<Byte>)
    requires NoSmall(pool) && ParseExpressions(pool, |nodes|, bs) == Done(CompiledAll(nodes, inMethod), rest)
    ensures Spent(|bs|, |EncodeAll(pool, nodes, inMethod)|, |rest|, AllKept(pool, nodes))
    decreases P.WeightOfAll(nodes), 3
  {
    hide ParseExpression, Encode, Compiled, Kept, NoSmall;
    if nodes != [] {
      var first := ParseExpression(pool, bs);
      var others := ParseExpressions(pool, |nodes| - 1, first.rest);
      assert ([first.value] + others.value)[1..] == others.value;
      assert CompiledAll(nodes, inMethod)[1..] == CompiledAll(nodes[1..], inMethod);
      TreeRead(pool, nodes[0], inMethod, bs, first.rest);
      AllRead(pool, nodes[1..], inMethod, first.rest, rest);
    }
  }

  lemma {:induction false} ArrayRead(pool: seq<P.Lit>, nodes: seq<P.Node>, inMethod: bool, bs: seq<Byte>,
                                     rest: seq<Byte>)
    requires NoSmall(pool) && ParseExpressionArray(pool, bs) == Done(CompiledAll(nodes, inMethod), rest)
    ensures Spent(|bs|, |EncodeArray(pool, nodes, inMethod)|, |rest|, AllKept(pool, nodes))
    decreases P.WeightOfAll(nodes), 4
  {
    hide ParseExpressions, EncodeAll, CompiledAll, ParseInteger, IntegerBytes, AllKept, NoSmall;
    var count := ParseInteger(bs);
    IntegerRead(count.value, bs, count.rest);
    AllRead(pool, nodes, inMethod, count.rest, rest);
  }

  lemma {:induction false} MessageRead(pool: seq<P.Lit>, node: P.Node, inMethod: bool, bs: seq<Byte>, rest: seq<Byte>)
    requires node.MessageNode? && NoSmall(pool) && ParseExpression(pool, bs) == Done(Compiled(node, inMethod), rest)
    ensures Spent(|bs|, |Encode(pool, node, inMethod)|, |rest|, Kept(pool, node))
    decreases P.Weight(node), 1
  {
    hide ParseExpression, ParseSymbol, SymbolBytes, EncodeArray, ParseExpressionArray, CompiledAll, AllKept, NoSmall;
    KindRead(pool, bs);
    var selector := ParseSymbol(pool, bs[1..][1..]);
    var receiver := ParseExpression(pool, selector.rest);
    SymbolRead(pool, node.selector, bs[1..][1..], selector.rest);
    TreeRead(pool, node.receiver, inMethod, selector.rest, receiver.rest);
    ArrayRead(pool, node.args, inMethod, receiver.rest, rest);
  }

  lemma {:induction false} MessagesRead(pool: seq<P.Lit>, messages: seq<P.CascadeMessage>, inMethod: bool,
                                        bs: seq<Byte>, rest: seq<Byte>)
    requires NoSmall(pool)
    requires ParseCascadeMessages(pool, |messages|, bs) == Done(CompiledMessages(messages, inMethod), rest)
    ensures Spent(|bs|, |EncodeMessages(pool, messages, inMethod)|, |rest|, MessagesKept(pool, messages))
    decreases P.WeightOfMessages(messages), 3
  {
    hide ParseSymbol, SymbolBytes, EncodeArray, ParseExpressionArray, CompiledAll, AllKept, NoSmall;
    if messages != [] {
      var selector := ParseSymbol(pool, bs);
      var args := ParseExpressionArray(pool, selector.rest);
      var others := ParseCascadeMessages(pool, |messages| - 1, args.rest);
      var all := [CascadeMessage(selector.value, args.value)] + others.value;
      assert all[0] == CascadeMessage(selector.value, args.value) && all[1..] == others.value;
      assert CompiledMessages(messages, inMethod)[1..] == CompiledMessages(messages[1..], inMethod);
      SymbolRead(pool, messages[0].selector, bs, selector.rest);
      ArrayRead(pool, messages[0].args, inMethod, selector.rest, args.rest);
      MessagesRead(pool, messages[1..], inMethod, args.rest, rest);
    }
  }

  lemma {:induction false} CascadeRead(pool: seq<P.Lit>, node: P.Node, inMethod: bool, bs: seq<Byte>, rest: seq<Byte>)
    requires node.CascadeNode? && NoSmall(pool) && ParseExpression(pool, bs) == Done(Compiled(node, inMethod), rest)
    ensures Spent(|bs|, |Encode(pool, node, inMethod)|, |rest|, Kept(pool, node))
    decreases P.Weight(node), 1
  {
    hide ParseExpression, ParseInteger, IntegerBytes, EncodeMessages, ParseCascadeMessages, CompiledMessages;
    hide MessagesKept, NoSmall;
    KindRead(pool, bs);
    var receiver := ParseExpression(pool, bs[1..]);
    var count := ParseInteger(receiver.rest);
    MessageCount(pool, count.value, count.rest);
    TreeRead(pool, node.receiver, inMethod, bs[1..], receiver.rest);
    IntegerRead(count.value, receiver.rest, count.rest);
    MessagesRead(pool, node.messages, inMethod, count.rest, rest);
  }

  lemma {:induction false} MessageCount(pool: seq<P.Lit>, count: nat, bs: seq<Byte>)
    requires ParseCascadeMessages(pool, count, bs).Done?
    ensures |ParseCascadeMessages(pool, count, bs).value| == count
    decreases count
  {
    hide ParseSymbol, ParseExpressionArray;
    if count > 0 {
      var args := ParseExpressionArray(pool, ParseSymbol(pool, bs).rest);
      MessageCount(pool, count - 1, args.rest);
    }
  }

  lemma {:induction false} InlinedBlockRead(pool: seq<P.Lit>, node: P.Node, inMethod: bool, bs: seq<Byte>,
                                            rest: seq<Byte>)
    requires node.InlinedBlockNode? && NoSmall(pool)
    requires ParseExpression(pool, bs) == Done(Compiled(node, inMethod), rest)
    ensures Spent(|bs|, |Encode(pool, node, inMethod)|, |rest|, Kept(pool, node))
    decreases P.Weight(node), 1
  {
    hide ParseExpression, ParseArray, EncodeArray, ParseExpressionArray, AllKept, NoSmall, CompiledAll;
    KindRead(pool, bs);
    var cells := ParseArray(bs[1..][1..]);
    assert cells.value == node.cells;
    BytesRead(cells.value, bs[1..][1..], cells.rest);
    ArrayRead(pool, node.statements, inMethod, cells.rest, rest);
    assert |ArrayBytes(LowBytes(node.cells))| == |ArrayBytes(cells.value)|;
    assert forall c :: c in cells.value ==> c < 256;
  }

  /** A place past 127 takes nine bytes to read, where one was written. */
  lemma {:induction false} BlockRead(pool: seq<P.Lit>, node: P.Node, inMethod: bool, bs: seq<Byte>, rest: seq<Byte>)
    requires node.BlockNode? && NoSmall(pool) && ParseExpression(pool, bs) == Done(Compiled(node, inMethod), rest)
    ensures Spent(|bs|, |Encode(pool, node, inMethod)|, |rest|, Kept(pool, node))
    decreases P.Weight(node), 1
  {
    hide ParseExpression, ParseArray, ArrayBytes, EncodeArray, ParseExpressionArray, AllKept, NoSmall, CompiledAll;
    KindRead(pool, bs);
    var code := ParseSymbol(pool, bs[1..][1..]);
    var captured := ParseArray(code.rest);
    CodeRead(pool, node.info, bs[1..][1..], code.rest);
    BytesRead(node.captured, code.rest, captured.rest);
    ArrayRead(pool, node.statements, false, captured.rest, rest);
  }

  lemma CodeRead(pool: seq<P.Lit>, info: P.BlockInfo, bs: seq<Byte>, rest: seq<Byte>)
    requires ParseSymbol(pool, bs) == Done(P.Block(info), rest)
    ensures Spent(|bs|, 1, |rest|, P.IndexOf(pool, P.Block(info)) <= 127)
  {
    var p := ParseInteger(bs);
    IntegerRead(p.value, bs, rest);
    PlaceRead(pool, P.Block(info), p.value);
  }

  /** A tree whose numbers fit is read back from its treecodes exactly when the cells of its
      inlined blocks' arguments fit a byte and the place of each of its blocks in the pool is at
      most 127. */
  lemma RoundTripExactly(pool: seq<P.Lit>, node: P.Node, inMethod: bool, rest: seq<Byte>)
    requires NoSmall(pool) && Covers(pool, P.Mentioned(node)) && Sized(node)
    ensures ParseExpression(pool, Encode(pool, node, inMethod) + rest) == Done(Compiled(node, inMethod), rest)
      <==> Kept(pool, node)
  {
    hide ParseExpression, Encode, Compiled, Kept, Sized, Covers, NoSmall;
    if Kept(pool, node) {
      RoundTrip(pool, node, inMethod, rest);
    }
    if ParseExpression(pool, Encode(pool, node, inMethod) + rest) == Done(Compiled(node, inMethod), rest) {
      TreeRead(pool, node, inMethod, Encode(pool, node, inMethod) + rest, rest);
    }
  }

  /** A real block by itself: its place in the pool has to be at most 127. */
  lemma BlockRoundTrip(pool: seq<P.Lit>, node: P.Node, inMethod: bool, rest: seq<Byte>)
    requires node.BlockNode? && AllKept(pool, node.statements)
    requires NoSmall(pool) && Covers(pool, P.Mentioned(node)) && Sized(node)
    ensures ParseExpression(pool, Encode(pool, node, inMethod) + rest) == Done(Compiled(node, inMethod), rest)
      <==> P.IndexOf(pool, P.Block(node.info)) <= 127
  {
    hide ParseExpression, Encode, Compiled, Sized, Covers, NoSmall;
    RoundTripExactly(pool, node, inMethod, rest);
  }
}
