/** A whole method: its own literal pool, its pragma and its statements. */
module TreecodeMethods {
  import opened TreecodeIntegers
  import P = ParseNodes
  import opened TreecodeEncoder
  import opened TreecodeDecoder
  import opened TreecodeRoundTrip
  import opened TreecodeLosses

  lemma PragmaRoundTrip(pool: seq<P.Lit>, m: P.MethodNode, rest: seq<Byte>)
    requires Covers(pool, P.MentionedByMethod(m)) && (m.pragma.Some? || rest == [] || rest[0] != PRAGMA_ID)
    ensures ParsePragma(pool, PragmaBytes(pool, m.pragma) + rest) == Done(CompiledMethod(m).pragma, rest)
  {
    hide ParseInteger, SymbolBytes, CompiledAll;
    var bs := PragmaBytes(pool, m.pragma) + rest;
    match m.pragma
    case None => assert bs == rest;
    case Some(name) =>
      if name != "" {
        assert P.Symbol(name) in P.MentionedByMethod(m);
        assert bs[1..] == SymbolBytes(pool, name) + rest;
        NameRoundTrip(pool, name, rest);
      } else {
        assert bs[1..] == [0] + rest;
        SmallByte(0, rest);
      }
  }

  lemma NameRoundTrip(pool: seq<P.Lit>, name: string, rest: seq<Byte>)
    requires IsInt64(|pool|) && P.Finds(pool, P.Symbol(name))
    ensures ParseInteger(SymbolBytes(pool, name) + rest) == Done(P.IndexOf(pool, P.Symbol(name)), rest)
  {
    IntegerRoundTrip(P.IndexOf(pool, P.Symbol(name)), rest);
  }

  /** The pool of a method covers it. */
  lemma OwnPoolCovers(m: P.MethodNode)
    requires P.OneBlockPerNumber(P.MentionedByMethod(m)) && IsInt64(|P.Literals(m)|)
    ensures Covers(P.Literals(m), P.MentionedByMethod(m))
  {
    forall v | v in P.MentionedByMethod(m) ensures P.Finds(P.Literals(m), v) {
      P.PoolFinds(P.MentionedByMethod(m), v);
    }
  }

  /** The first byte of the statements' count is the pragma's number exactly when there are 110. */
  lemma CountByte(count: nat, rest: seq<Byte>)
    requires IsInt64(count)
    ensures (IntegerBytes(count) + rest)[0] == PRAGMA_ID <==> count == 110
  {}

  // ---- numbers that are not in the pool

  lemma {:induction false} NoSmallMentioned(node: P.Node)
    ensures forall v :: v in P.Mentioned(node) ==> !P.IsSmall(v)
    decreases node, 1
  {
    match node
    case LiteralNode(_) =>
    case IdentifierNode(_) =>
    case AssignmentNode(xs, e) =>
      SymbolsMentioned(xs);
      NoSmallMentioned(e);
    case ReturnNode(e) => NoSmallMentioned(e);
    case MessageNode(_, _, r, args) =>
      NoSmallMentioned(r);
      NoSmallInAll(args);
    case CascadeNode(r, messages) =>
      NoSmallMentioned(r);
      NoSmallInMessages(messages);
    case InlinedBlockNode(_, statements) => NoSmallInAll(statements);
    case BlockNode(_, _, statements) => NoSmallInAll(statements);
    case BraceNode(elements) => NoSmallInAll(elements);
  }

  lemma {:induction false} NoSmallInAll(nodes: seq<P.Node>)
    ensures forall v :: v in P.MentionedByAll(nodes) ==> !P.IsSmall(v)
    decreases nodes, 0
  {
    if nodes != [] {
      NoSmallMentioned(nodes[0]);
      NoSmallInAll(nodes[1..]);
    }
  }

  lemma {:induction false} NoSmallInMessages(messages: seq<P.CascadeMessage>)
    ensures forall v :: v in P.MentionedByMessages(messages) ==> !P.IsSmall(v)
    decreases messages, 0
  {
    if messages != [] {
      NoSmallInAll(messages[0].args);
      NoSmallInMessages(messages[1..]);
    }
  }

  lemma {:induction false} SymbolsMentioned(xs: seq<P.Reference>)
    ensures forall v :: v in P.MentionedByReferences(xs) ==> v.Symbol?
  {
    if xs != [] {
      SymbolsMentioned(xs[1..]);
    }
  }

  lemma OwnPoolHasNoSmall(m: P.MethodNode)
    ensures NoSmall(P.Literals(m))
  {
    P.PoolIsComplete(P.MentionedByMethod(m));
    NoSmallInAll(m.statements);
  }

  // ---- methods

  /** A method is decoded, with its own pool, to the tree that is meant, all its bytes used,
      exactly when it has a pragma or other than 110 statements, every block's place in the pool
      is at most 127 and every cell of an inlined block's argument is less than 256. */
  lemma MethodRoundTrip(m: P.MethodNode)
    requires P.OneBlockPerNumber(P.MentionedByMethod(m)) && IsInt64(|P.Literals(m)|) && AllSized(m.statements)
    ensures var pool := P.Literals(m);
      ParseMethod(pool, EncodeMethod(pool, m)) == Done(CompiledMethod(m), [])
      <==> (m.pragma.Some? || |m.statements| != 110) && AllKept(pool, m.statements)
  {
    hide ParseMethod, EncodeMethod, CompiledMethod, AllSized, AllKept, P.Literals, P.MentionedByMethod;
    hide P.OneBlockPerNumber, NoSmall, Covers;
    var pool := P.Literals(m);
    OwnPoolCovers(m);
    OwnPoolHasNoSmall(m);
    if m.pragma.None? && |m.statements| == 110 {
      MistakenForPragma(pool, m);
    } else if AllKept(pool, m.statements) {
      MethodReadBack(pool, m);
    } else if ParseMethod(pool, EncodeMethod(pool, m)) == Done(CompiledMethod(m), []) {
      MethodRead(pool, m);
    }
  }

  lemma PragmaRead(pool: seq<P.Lit>, m: P.MethodNode, bs: seq<Byte>, rest: seq<Byte>)
    requires ParsePragma(pool, bs) == Done(CompiledMethod(m).pragma, rest)
    ensures |bs| >= |PragmaBytes(pool, m.pragma)| + |rest|
  {
    hide IntegerBytes, ParseInteger, CompiledAll;
    if m.pragma.Some? {
      var p := ParseInteger(bs[1..]);
      IntegerRead(p.value, bs[1..], rest);
      if m.pragma.value != "" {
        PlaceRead(pool, P.Symbol(m.pragma.value), p.value);
      }
    }
  }

  lemma MethodRead(pool: seq<P.Lit>, m: P.MethodNode)
    requires NoSmall(pool) && ParseMethod(pool, EncodeMethod(pool, m)) == Done(CompiledMethod(m), [])
    ensures AllKept(pool, m.statements)
  {
    hide ParsePragma, PragmaBytes, ParseExpressionArray, CompiledAll, EncodeArray, AllKept, NoSmall;
    var bs := EncodeMethod(pool, m);
    var pragma := ParsePragma(pool, bs[1..]);
    PragmaRead(pool, m, bs[1..], pragma.rest);
    ArrayRead(pool, m.statements, true, pragma.rest, []);
  }

  lemma MethodReadBack(pool: seq<P.Lit>, m: P.MethodNode)
    requires Covers(pool, P.MentionedByMethod(m)) && AllSized(m.statements) && AllKept(pool, m.statements)
    requires m.pragma.Some? || |m.statements| != 110
    ensures ParseMethod(pool, EncodeMethod(pool, m)) == Done(CompiledMethod(m), [])
  {
    hide ParsePragma, PragmaBytes, ParseExpressionArray, CompiledAll, EncodeAll, IntegerBytes, Covers, AllSized;
    hide AllKept, P.MentionedByAll;
    var statements := EncodeArray(pool, m.statements, true);
    CountFits(m.statements);
    CountByte(|m.statements|, EncodeAll(pool, m.statements, true));
    assert EncodeMethod(pool, m)[1..] == PragmaBytes(pool, m.pragma) + statements;
    PragmaRoundTrip(pool, m, statements);
    StatementsCovered(pool, m);
    ArrayRoundTrip(pool, m.statements, true, []);
    assert statements + [] == statements;
  }

  /** The count of 110 statements is taken for a pragma. */
  lemma MistakenForPragma(pool: seq<P.Lit>, m: P.MethodNode)
    requires m.pragma.None? && |m.statements| == 110
    ensures ParseMethod(pool, EncodeMethod(pool, m)) != Done(CompiledMethod(m), [])
  {
    hide ParseInteger, ParseExpressionArray, CompiledAll, EncodeAll;
    var statements := EncodeArray(pool, m.statements, true);
    CountByte(110, EncodeAll(pool, m.statements, true));
    assert EncodeMethod(pool, m)[1..] == statements;
  }

  lemma CountFits(nodes: seq<P.Node>)
    requires AllSized(nodes)
    ensures IsInt64(|nodes|)
  {}

  lemma StatementsCovered(pool: seq<P.Lit>, m: P.MethodNode)
    requires Covers(pool, P.MentionedByMethod(m))
    ensures Covers(pool, P.MentionedByAll(m.statements))
  {}
}
