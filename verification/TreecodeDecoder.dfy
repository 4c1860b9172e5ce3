/** The evaluator's trees, and the decoder that reads them off treecodes and a literal pool. */
module TreecodeDecoder {
  import opened TreecodeIntegers
  import P = ParseNodes
  import opened TreecodeEncoder

  datatype Binding =
    | NilBinding
    | TrueBinding
    | FalseBinding
    | SelfBinding
    | SuperBinding
    | ArgumentBinding(index: int, env: int)
    | TemporaryBinding(index: int, env: int)
    | DynamicBinding(symbol: P.Lit)

  datatype CascadeMessage = CascadeMessage(selector: P.Lit, args: seq<Tree>)

  datatype Tree =
    | Literal(value: P.Lit)
    | Identifier(binding: Binding)
    | Assignment(assignees: seq<Binding>, expression: Tree)
    | Return(local: bool, expression: Tree)
    | Message(inlined: bool, selector: P.Lit, receiver: Tree, args: seq<Tree>)
    | Cascade(receiver: Tree, messages: seq<CascadeMessage>)
    | InlinedBlock(cells: seq<nat>, statements: seq<Tree>)
    | Block(code: P.Lit, captured: seq<Byte>, statements: seq<Tree>)

  /** A method, with the name of its pragma, if it has one; the name is nil if it is not given. */
  datatype Method = Method(pragma: P.Option<P.Option<P.Lit>>, statements: seq<Tree>)

  // ---- the grammar of treecodes; bytes that run out, an unknown kind of node or an index
  // ---- outside the pool fail

  function ParseByte(bs: seq<Byte>): (p: Parsed<Byte>)
    ensures p.Done? ==> |p.rest| < |bs|
  {
    if bs == [] then Failed else Done(bs[0], bs[1..])
  }

  function ParseSymbol(pool: seq<P.Lit>, bs: seq<Byte>): (p: Parsed<P.Lit>)
    ensures p.Done? ==> |p.rest| < |bs|
  {
    match ParseInteger(bs)
    case Failed => Failed
    case Done(index, rest) => if 1 <= index <= |pool| then Done(pool[index - 1], rest) else Failed
  }

  function ParseLiteral(pool: seq<P.Lit>, bs: seq<Byte>): (p: Parsed<Tree>)
    ensures p.Done? ==> |p.rest| < |bs|
  {
    match ParseInteger(bs)
    case Failed => Failed
    case Done(index, rest) =>
      if index != 0 then
        if 1 <= index <= |pool| then Done(Literal(pool[index - 1]), rest) else Failed
      else
        match ParseInteger(rest)
        case Failed => Failed
        case Done(v, rest1) => Done(Literal(P.Integer(v)), rest1)
  }

  function ParseLocal(argument: bool, bs: seq<Byte>): (p: Parsed<Binding>)
    ensures p.Done? ==> |p.rest| < |bs|
  {
    match ParseInteger(bs)
    case Failed => Failed
    case Done(index, rest) =>
      match ParseInteger(rest)
      case Failed => Failed
      case Done(env, rest1) =>
        Done(if argument then ArgumentBinding(index, env) else TemporaryBinding(index, env), rest1)
  }

  function ParseBinding(pool: seq<P.Lit>, bs: seq<Byte>): (p: Parsed<Binding>)
    ensures p.Done? ==> |p.rest| < |bs|
  {
    match ParseInteger(bs)
    case Failed => Failed
    case Done(id, rest) => BindingOf(pool, id, rest)
  }

  function BindingOf(pool: seq<P.Lit>, id: int, rest: seq<Byte>): (p: Parsed<Binding>)
    ensures p.Done? ==> |p.rest| <= |rest|
  {
    if id == NIL_ID then Done(NilBinding, rest)
    else if id == TRUE_ID then Done(TrueBinding, rest)
    else if id == FALSE_ID then Done(FalseBinding, rest)
    else if id == SELF_ID then Done(SelfBinding, rest)
    else if id == SUPER_ID then Done(SuperBinding, rest)
    else if id == ARGUMENT_ID then ParseLocal(true, rest)
    else if id == TEMPORARY_ID then ParseLocal(false, rest)
    else if id == DYNAMIC_VAR_ID then
      match ParseSymbol(pool, rest)
      case Failed => Failed
      case Done(symbol, rest1) => Done(DynamicBinding(symbol), rest1)
    else Failed
  }

  function ParseArray(bs: seq<Byte>): (p: Parsed<seq<Byte>>)
    ensures p.Done? ==> |p.rest| < |bs|
  {
    match ParseInteger(bs)
    case Failed => Failed
    case Done(count, rest) =>
      if count <= 0 then Done([], rest)
      else if count > |rest| then Failed
      else Done(rest[..count], rest[count..])
  }

  /** The node a kind announces. */
  function ParseExpression(pool: seq<P.Lit>, bs: seq<Byte>): (p: Parsed<Tree>)
    ensures p.Done? ==> |p.rest| < |bs|
    decreases |bs|, 0
  {
    if bs == [] then Failed
    else if bs[0] == ASSIGNMENT_ID then ParseAssignment(pool, bs[1..])
    else if bs[0] == BLOCK_ID then ParseBlock(pool, bs[1..])
    else if bs[0] == CASCADE_ID then ParseCascade(pool, bs[1..])
    else if bs[0] == LITERAL_ID then ParseLiteral(pool, bs[1..])
    else if bs[0] == IDENTIFIER_ID then
      match ParseBinding(pool, bs[1..])
      case Failed => Failed
      case Done(b, rest) => Done(Identifier(b), rest)
    else if bs[0] == MESSAGE_ID then ParseMessage(pool, bs[1..])
    else if bs[0] == RETURN_ID then ParseReturn(pool, bs[1..])
    else Failed
  }

  function ParseExpressions(pool: seq<P.Lit>, count: nat, bs: seq<Byte>): (p: Parsed<seq<Tree>>)
    ensures p.Done? ==> |p.rest| <= |bs| && |p.value| == count
    decreases |bs|, 1
  {
    if count == 0 then Done([], bs) else
    match ParseExpression(pool, bs)
    case Failed => Failed
    case Done(first, rest) =>
      match ParseExpressions(pool, count - 1, rest)
      case Failed => Failed
      case Done(others, rest1) => Done([first] + others, rest1)
  }

  function ParseExpressionArray(pool: seq<P.Lit>, bs: seq<Byte>): (p: Parsed<seq<Tree>>)
    ensures p.Done? ==> |p.rest| < |bs|
    decreases |bs|, 2
  {
    match ParseInteger(bs)
    case Failed => Failed
    case Done(count, rest) => if count < 0 then Failed else ParseExpressions(pool, count, rest)
  }

  function BindingsOf(trees: seq<Tree>): seq<Binding>
    requires forall t :: t in trees ==> t.Identifier?
  {
    seq(|trees|, i requires 0 <= i < |trees| => assert trees[i] in trees; trees[i].binding)
  }

  function ParseAssignment(pool: seq<P.Lit>, bs: seq<Byte>): (p: Parsed<Tree>)
    ensures p.Done? ==> |p.rest| < |bs|
    decreases |bs|, 3
  {
    match ParseExpressionArray(pool, bs)
    case Failed => Failed
    case Done(assignees, rest) =>
      match ParseExpression(pool, rest)
      case Failed => Failed
      case Done(e, rest1) =>
        if forall t :: t in assignees ==> t.Identifier? then
          Done(Assignment(BindingsOf(assignees), e), rest1)
        else Failed
  }

  function ParseReturn(pool: seq<P.Lit>, bs: seq<Byte>): (p: Parsed<Tree>)
    ensures p.Done? ==> |p.rest| < |bs|
    decreases |bs|, 3
  {
    if bs == [] then Failed else
    match ParseExpression(pool, bs[1..])
    case Failed => Failed
    case Done(e, rest) => Done(Return(bs[0] == 1, e), rest)
  }

  function ParseMessage(pool: seq<P.Lit>, bs: seq<Byte>): (p: Parsed<Tree>)
    ensures p.Done? ==> |p.rest| < |bs|
    decreases |bs|, 3
  {
    if bs == [] then Failed else
    match ParseSymbol(pool, bs[1..])
    case Failed => Failed
    case Done(selector, rest) =>
      match ParseExpression(pool, rest)
      case Failed => Failed
      case Done(receiver, rest1) =>
        match ParseExpressionArray(pool, rest1)
        case Failed => Failed
        case Done(args, rest2) => Done(Message(bs[0] == 1, selector, receiver, args), rest2)
  }

  function ParseCascadeMessages(pool: seq<P.Lit>, count: nat, bs: seq<Byte>): (p: Parsed<seq<CascadeMessage>>)
    ensures p.Done? ==> |p.rest| <= |bs|
    decreases |bs|, 3
  {
    if count == 0 then Done([], bs) else
    match ParseSymbol(pool, bs)
    case Failed => Failed
    case Done(selector, rest) =>
      match ParseExpressionArray(pool, rest)
      case Failed => Failed
      case Done(args, rest1) =>
        match ParseCascadeMessages(pool, count - 1, rest1)
        case Failed => Failed
        case Done(others, rest2) => Done([CascadeMessage(selector, args)] + others, rest2)
  }

  function ParseCascade(pool: seq<P.Lit>, bs: seq<Byte>): (p: Parsed<Tree>)
    ensures p.Done? ==> |p.rest| < |bs|
    decreases |bs|, 4
  {
    match ParseExpression(pool, bs)
    case Failed => Failed
    case Done(receiver, rest) =>
      match ParseInteger(rest)
      case Failed => Failed
      case Done(count, rest1) =>
        if count < 0 then Failed else
        match ParseCascadeMessages(pool, count, rest1)
        case Failed => Failed
        case Done(messages, rest2) => Done(Cascade(receiver, messages), rest2)
  }

  function ParseBlock(pool: seq<P.Lit>, bs: seq<Byte>): (p: Parsed<Tree>)
    ensures p.Done? ==> |p.rest| < |bs|
    decreases |bs|, 3
  {
    if bs == [] then Failed
    else if bs[0] == 1 then
      match ParseArray(bs[1..])
      case Failed => Failed
      case Done(cells, rest) =>
        match ParseExpressionArray(pool, rest)
        case Failed => Failed
        case Done(statements, rest1) => Done(InlinedBlock(cells, statements), rest1)
    else
      match ParseSymbol(pool, bs[1..])
      case Failed => Failed
      case Done(code, rest) =>
        match ParseArray(rest)
        case Failed => Failed
        case Done(captured, rest1) =>
          match ParseExpressionArray(pool, rest1)
          case Failed => Failed
          case Done(statements, rest2) => Done(Block(code, captured, statements), rest2)
  }

  /** A pragma's byte, peeked at. */
  function ParsePragma(pool: seq<P.Lit>, bs: seq<Byte>): (p: Parsed<P.Option<P.Option<P.Lit>>>)
    ensures p.Done? ==> |p.rest| <= |bs|
  {
    if bs == [] || bs[0] != PRAGMA_ID then Done(P.None, bs) else
    match ParseInteger(bs[1..])
    case Failed => Failed
    case Done(index, rest) =>
      if index == 0 then Done(P.Some(P.None), rest)
      else if 1 <= index <= |pool| then Done(P.Some(P.Some(pool[index - 1])), rest)
      else Failed
  }

  function ParseMethod(pool: seq<P.Lit>, bs: seq<Byte>): Parsed<Method> {
    if bs == [] || bs[0] != METHOD_ID then Failed else
    match ParsePragma(pool, bs[1..])
    case Failed => Failed
    case Done(pragma, rest) =>
      match ParseExpressionArray(pool, rest)
      case Failed => Failed
      case Done(statements, rest1) => Done(Method(pragma, statements), rest1)
  }

  // ---- the decoder

  /** What a method of the decoder owes to a rule of the grammar. */
  ghost predicate Reads<T(!new)>(p: Parsed<T>, result: P.Option<T>, rest: seq<Byte>) {
    match p
    case Failed => result.None?
    case Done(v, r) => result == P.Some(v) && rest == r
  }

  function Prefixed<T>(first: seq<T>, p: Parsed<seq<T>>): Parsed<seq<T>> {
    match p
    case Failed => Failed
    case Done(others, rest) => Done(first + others, rest)
  }

  lemma PrefixNone<T>(p: Parsed<seq<T>>)
    ensures Prefixed([], p) == p
  {
    if p.Done? {
      assert [] + p.value == p.value;
    }
  }

  lemma PrefixOne<T>(first: seq<T>, next: T, p: Parsed<seq<T>>)
    ensures Prefixed(first, Prefixed([next], p)) == Prefixed(first + [next], p)
  {
    if p.Done? {
      assert first + ([next] + p.value) == first + [next] + p.value;
    }
  }

  class Decoder {
    const pool: seq<P.Lit>
    var stream: seq<Byte>

    constructor (pool: seq<P.Lit>, bytes: seq<Byte>)
      ensures this.pool == pool && stream == bytes
    {
      this.pool, stream := pool, bytes;
    }

    method NextByte() returns (b: P.Option<Byte>)
      modifies this
      ensures Reads(ParseByte(old(stream)), b, stream)
    {
      b := P.None;
      if stream != [] {
        b := P.Some(stream[0]);
        stream := stream[1..];
      }
    }

    method NextInteger() returns (v: P.Option<int>)
      modifies this
      ensures Reads(ParseInteger(old(stream)), v, stream)
    {
      v := P.None;
      if stream != [] && stream[0] != BIG {
        var b: int := stream[0];
        v := P.Some(if b <= 127 then b else b - 256);
        stream := stream[1..];
      } else if |stream| >= 9 {
        WordBound(stream[1..9]);
        v := P.Some(Signed(FromBigEndian(stream[1..9])));
        stream := stream[9..];
      }
    }

    method NextSymbol() returns (symbol: P.Option<P.Lit>)
      modifies this
      ensures Reads(ParseSymbol(pool, old(stream)), symbol, stream)
    {
      symbol := P.None;
      var index := NextInteger();
      if index.Some? && 1 <= index.value <= |pool| {
        symbol := P.Some(pool[index.value - 1]);
      }
    }

    method NextArray() returns (elements: P.Option<seq<Byte>>)
      modifies this
      ensures Reads(ParseArray(old(stream)), elements, stream)
    {
      elements := P.None;
      var count := NextInteger();
      if count.None? {
        return;
      }
      ghost var rest := stream;
      var bs, i := [], 0;
      while i < count.value
        invariant 0 <= i <= |rest| && (i <= count.value || i == 0)
        invariant bs == rest[..i] && stream == rest[i..]
      {
        var b := NextByte();
        if b.None? {
          return;
        }
        bs, i := bs + [b.value], i + 1;
      }
      elements := P.Some(bs);
    }

    method NextExpression() returns (e: P.Option<Tree>)
      modifies this
      ensures Reads(ParseExpression(pool, old(stream)), e, stream)
      decreases |stream|, 0
    {
      hide ParseInteger, ParseSymbol, ParseArray, ParseLocal;
      e := P.None;
      var kind := NextByte();
      if kind.Some? {
        if kind.value == ASSIGNMENT_ID {
          e := DecodeAssignment();
        } else if kind.value == BLOCK_ID {
          e := DecodeBlock();
        } else if kind.value == CASCADE_ID {
          e := DecodeCascade();
        } else if kind.value == LITERAL_ID {
          e := DecodeLiteral();
        } else if kind.value == IDENTIFIER_ID {
          e := DecodeIdentifier();
        } else if kind.value == MESSAGE_ID {
          e := DecodeMessage();
        } else if kind.value == RETURN_ID {
          e := DecodeReturn();
        }
      }
    }

    method DecodeIdentifier() returns (e: P.Option<Tree>)
      modifies this
      ensures var p := ParseBinding(pool, old(stream));
        Reads(if p.Done? then Done(Identifier(p.value), p.rest) else Failed, e, stream)
    {
      e := P.None;
      var id := NextInteger();
      if id.Some? {
        var b := DecodeBinding(id.value);
        if b.Some? {
          e := P.Some(Identifier(b.value));
        }
      }
    }

    method DecodeBinding(id: int) returns (b: P.Option<Binding>)
      modifies this
      ensures Reads(BindingOf(pool, id, old(stream)), b, stream)
    {
      b := P.None;
      if id == NIL_ID {
        b := P.Some(NilBinding);
      } else if id == TRUE_ID {
        b := P.Some(TrueBinding);
      } else if id == FALSE_ID {
        b := P.Some(FalseBinding);
      } else if id == SELF_ID {
        b := P.Some(SelfBinding);
      } else if id == SUPER_ID {
        b := P.Some(SuperBinding);
      } else if id == ARGUMENT_ID || id == TEMPORARY_ID {
        var index := NextInteger();
        if index.Some? {
          var env := NextInteger();
          if env.Some? {
            b := P.Some(
              if id == ARGUMENT_ID then ArgumentBinding(index.value, env.value)
              else TemporaryBinding(index.value, env.value));
          }
        }
      } else if id == DYNAMIC_VAR_ID {
        var symbol := NextSymbol();
        if symbol.Some? {
          b := P.Some(DynamicBinding(symbol.value));
        }
      }
    }

    method DecodeLiteral() returns (e: P.Option<Tree>)
      modifies this
      ensures Reads(ParseLiteral(pool, old(stream)), e, stream)
    {
      e := P.None;
      var index := NextInteger();
      if index.Some? && index.value == 0 {
        var v := NextInteger();
        if v.Some? {
          e := P.Some(Literal(P.Integer(v.value)));
        }
      } else if index.Some? && 1 <= index.value <= |pool| {
        e := P.Some(Literal(pool[index.value - 1]));
      }
    }

    method NextExpressionArray() returns (es: P.Option<seq<Tree>>)
      modifies this
      ensures Reads(ParseExpressionArray(pool, old(stream)), es, stream)
      decreases |stream|, 2
    {
      hide ParseInteger, ParseExpression;
      es := P.None;
      ghost var all := stream;
      var count := NextInteger();
      if count.Some? && count.value >= 0 {
        ghost var start := stream;
        ghost var p := ParseExpressions(pool, count.value, start);
        var trees, i := [], 0;
        PrefixNone(p);
        while i < count.value
          invariant 0 <= i <= count.value && |stream| < |all|
          invariant p == Prefixed(trees, ParseExpressions(pool, count.value - i, stream))
        {
          var e := NextExpression();
          if e.None? {
            return;
          }
          PrefixOne(trees, e.value, ParseExpressions(pool, count.value - i - 1, stream));
          trees, i := trees + [e.value], i + 1;
        }
        es := P.Some(trees);
        assert trees + [] == trees;
      }
    }

    method DecodeAssignment() returns (e: P.Option<Tree>)
      modifies this
      ensures Reads(ParseAssignment(pool, old(stream)), e, stream)
      decreases |stream|, 3
    {
      hide ParseExpressionArray, ParseExpression;
      e := P.None;
      var assignees := NextExpressionArray();
      if assignees.Some? {
        var value := NextExpression();
        if value.Some? {
          var bindings, i := [], 0;
          while i < |assignees.value|
            invariant i <= |assignees.value| && |bindings| == i
            invariant forall k :: 0 <= k < i ==>
              assignees.value[k].Identifier? && bindings[k] == assignees.value[k].binding
          {
            assert assignees.value[i] in assignees.value;
            if !assignees.value[i].Identifier? {
              return;
            }
            bindings, i := bindings + [assignees.value[i].binding], i + 1;
          }
          e := P.Some(Assignment(bindings, value.value));
          assert forall t :: t in assignees.value ==> t.Identifier?;
          assert bindings == BindingsOf(assignees.value);
        }
      }
    }

    method DecodeReturn() returns (e: P.Option<Tree>)
      modifies this
      ensures Reads(ParseReturn(pool, old(stream)), e, stream)
      decreases |stream|, 3
    {
      hide ParseExpression;
      e := P.None;
      var local := NextByte();
      if local.Some? {
        var value := NextExpression();
        if value.Some? {
          e := P.Some(Return(local.value == 1, value.value));
        }
      }
    }

    method DecodeMessage() returns (e: P.Option<Tree>)
      modifies this
      ensures Reads(ParseMessage(pool, old(stream)), e, stream)
      decreases |stream|, 3
    {
      hide ParseExpression, ParseSymbol, ParseExpressionArray;
      e := P.None;
      var inlined := NextByte();
      if inlined.Some? {
        var selector := NextSymbol();
        if selector.Some? {
          var receiver := NextExpression();
          if receiver.Some? {
            var args := NextExpressionArray();
            if args.Some? {
              e := P.Some(Message(inlined.value == 1, selector.value, receiver.value, args.value));
            }
          }
        }
      }
    }

    method DecodeCascadeMessages(count: nat) returns (ms: P.Option<seq<CascadeMessage>>)
      modifies this
      ensures Reads(ParseCascadeMessages(pool, count, old(stream)), ms, stream)
      decreases |stream|, 3
    {
      hide ParseSymbol, ParseExpressionArray;
      ms := P.None;
      ghost var start := stream;
      var messages, i := [], 0;
      PrefixNone(ParseCascadeMessages(pool, count, start));
      while i < count
        invariant i <= count && |stream| <= |start|
        invariant ParseCascadeMessages(pool, count, start)
          == Prefixed(messages, ParseCascadeMessages(pool, count - i, stream))
      {
        var selector := NextSymbol();
        if selector.None? {
          return;
        }
        var args := NextExpressionArray();
        if args.None? {
          return;
        }
        PrefixOne(messages, CascadeMessage(selector.value, args.value),
          ParseCascadeMessages(pool, count - i - 1, stream));
        messages, i := messages + [CascadeMessage(selector.value, args.value)], i + 1;
      }
      ms := P.Some(messages);
      assert messages + [] == messages;
    }

    method DecodeCascade() returns (e: P.Option<Tree>)
      modifies this
      ensures Reads(ParseCascade(pool, old(stream)), e, stream)
      decreases |stream|, 4
    {
      hide ParseExpression, ParseInteger, ParseCascadeMessages;
      e := P.None;
      var receiver := NextExpression();
      if receiver.Some? {
        var count := NextInteger();
        if count.Some? && count.value >= 0 {
          var messages := DecodeCascadeMessages(count.value);
          if messages.Some? {
            e := P.Some(Cascade(receiver.value, messages.value));
          }
        }
      }
    }

    method DecodeBlock() returns (e: P.Option<Tree>)
      modifies this
      ensures Reads(ParseBlock(pool, old(stream)), e, stream)
      decreases |stream|, 3
    {
      hide ParseSymbol, ParseArray, ParseExpressionArray;
      e := P.None;
      var inlined := NextByte();
      if inlined.Some? && inlined.value == 1 {
        var cells := NextArray();
        if cells.Some? {
          var statements := NextExpressionArray();
          if statements.Some? {
            e := P.Some(InlinedBlock(cells.value, statements.value));
          }
        }
      } else if inlined.Some? {
        var code := NextSymbol();
        if code.Some? {
          var captured := NextArray();
          if captured.Some? {
            var statements := NextExpressionArray();
            if statements.Some? {
              e := P.Some(Block(code.value, captured.value, statements.value));
            }
          }
        }
      }
    }

    method DecodeMethod() returns (m: P.Option<Method>)
      modifies this
      ensures Reads(ParseMethod(pool, old(stream)), m, stream)
    {
      hide ParseInteger, ParseExpressionArray;
      m := P.None;
      var kind := NextByte();
      if kind.None? || kind.value != METHOD_ID {
        return;
      }
      var pragma := P.None;
      if stream != [] && stream[0] == PRAGMA_ID {
        stream := stream[1..];
        var index := NextInteger();
        if index.None? || !(0 <= index.value <= |pool|) {
          return;
        }
        pragma := P.Some(if index.value != 0 then P.Some(pool[index.value - 1]) else P.None);
      }
      var statements := NextExpressionArray();
      if statements.Some? {
        m := P.Some(Method(pragma, statements.value));
      }
    }
  }
}
