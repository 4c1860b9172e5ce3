/** What the cascade that stands for a brace node computes, with arrays as Smalltalk has them. */
module Braces {
  import opened ParseNodes

  /** How a node is evaluated: its value, and the state that leaves. */
  type Evaluation<!V, !S> = (Node, S) -> (V, S)

  /** Elements evaluated from the first to the last. */
  function InOrder<V, S>(eval: Evaluation<V, S>, elements: seq<Node>, s: S): (r: (seq<V>, S))
    ensures |r.0| == |elements|
  {
    if elements == [] then ([], s)
    else
      var (v, s1) := eval(elements[0], s);
      var (vs, s2) := InOrder(eval, elements[1..], s1);
      ([v] + vs, s2)
  }

  /** A new array has nil in every place. */
  function NewArray<V>(size: nat): seq<Option<V>> {
    seq(size, _ => None)
  }

  /** A message to an array: there is only `yourself` and `at:put:` with a place that the array has. */
  function Sent<V, S>(eval: Evaluation<V, S>, cells: seq<Option<V>>, s: S, m: CascadeMessage):
      Option<(seq<Option<V>>, S)>
  {
    if m.selector == "yourself" && m.args == [] then Some((cells, s))
    else if m.selector == "at:put:" && |m.args| == 2 && m.args[0].LiteralNode? && m.args[0].value.Integer?
      && 1 <= m.args[0].value.value <= |cells|
    then
      var (v, s1) := eval(m.args[1], s);
      Some((cells[m.args[0].value.value - 1 := Some(v)], s1))
    else None
  }

  function AllSent<V, S>(eval: Evaluation<V, S>, cells: seq<Option<V>>, s: S, messages: seq<CascadeMessage>):
      Option<(seq<Option<V>>, S)>
    decreases messages
  {
    if messages == [] then Some((cells, s))
    else
      match Sent(eval, cells, s, messages[0])
      case None => None
      case Some(p) => AllSent(eval, p.0, p.1, messages[1..])
  }

  /** The size of an array that `Array new:` makes. */
  function SizeOfNew(node: Node): Option<nat> {
    if node.MessageNode? && !node.inlined && node.selector == "new:"
      && node.receiver == IdentifierNode(DynamicRef("Array")) && |node.args| == 1
      && node.args[0].LiteralNode? && node.args[0].value.Integer? && node.args[0].value.value >= 0
    then Some(node.args[0].value.value) else None
  }

  /** A cascade on a new array, the last message being `yourself`, so that the array is the answer. */
  function Evaluated<V, S>(eval: Evaluation<V, S>, node: Node, s: S): Option<(seq<Option<V>>, S)> {
    if node.CascadeNode? && node.messages != []
      && node.messages[|node.messages| - 1] == CascadeMessage("yourself", [])
    then
      match SizeOfNew(node.receiver)
      case None => None
      case Some(size) => AllSent(eval, NewArray(size), s, node.messages)
    else None
  }

  /** What at:put: and yourself leave of an array whose first places are filled already. */
  lemma {:induction false} PutsFill<V, S>(eval: Evaluation<V, S>, filled: seq<V>, elements: seq<Node>, s: S)
    ensures var (vs, s1) := InOrder(eval, elements, s);
      AllSent(eval, Filled(filled, |elements|), s, Puts(elements, |filled| + 1)) == Some((Filled(filled + vs, 0), s1))
    decreases elements
  {
    hide Weight, WeightOfAll, WeightOfMessages;
    var messages := Puts(elements, |filled| + 1);
    var cells := Filled(filled, |elements|);
    if elements == [] {
      assert AllSent(eval, cells, s, messages[1..]) == Some((cells, s));
      assert filled + [] == filled;
    } else {
      var (v, s1) := eval(elements[0], s);
      var (vs, _) := InOrder(eval, elements[1..], s1);
      assert messages[1..] == Puts(elements[1..], |filled| + 2);
      assert cells[|filled| := Some(v)] == Filled(filled + [v], |elements| - 1);
      PutsFill(eval, filled + [v], elements[1..], s1);
      assert filled + [v] + vs == filled + ([v] + vs);
    }
  }

  /** An array with values in its first places and nil in the others. */
  function Filled<V>(values: seq<V>, more: nat): (r: seq<Option<V>>)
    ensures |r| == |values| + more
    ensures forall i :: 0 <= i < |r| ==> r[i] == if i < |values| then Some(values[i]) else None
  {
    seq(|values| + more, i requires 0 <= i => if i < |values| then Some(values[i]) else None)
  }

  /** The array of the elements, each evaluated once, from the first to the last. */
  lemma BraceAnswers<V, S>(eval: Evaluation<V, S>, elements: seq<Node>, s: S)
    ensures var (vs, s1) := InOrder(eval, elements, s);
      Evaluated(eval, Expanded(elements), s) == Some((seq(|vs|, i requires 0 <= i < |vs| => Some(vs[i])), s1))
  {
    hide Weight, WeightOfAll, WeightOfMessages, Puts, AllSent, InOrder;
    PutsFill(eval, [], elements, s);
    PutsInOrder(elements, 1, |elements|);
    assert NewArray<V>(|elements|) == Filled([], |elements|);
    var (vs, _) := InOrder(eval, elements, s);
    assert [] + vs == vs;
    assert Filled(vs, 0) == seq(|vs|, i requires 0 <= i < |vs| => Some(vs[i]));
  }
}
