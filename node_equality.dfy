/**
 * `Equals` and `GetHashCode` of the syntax-tree nodes.
 *
 * `Equals(a, b)` is `a.Equals(b)` for nodes of two separately built trees.
 * `ExpressionNode` and `ExponentNode` do not override `Equals`, so for them
 * it is reference identity, which two separately built nodes never share.
 * `BinaryNode` is the back ends' reading of the class `OperatorNode`, whose
 * `Equals` compares the operator kind only.
 *
 * `System.HashCode` mixes its inputs with a per-process random seed, so a
 * hash here is the symbolic record of what was fed to it. A class that does
 * not override `GetHashCode` hashes the object itself, so its record is
 * `ObjectHash` of the object's identity: the tree it was built in and its
 * position there. Two nodes get the same `HashValue` exactly when the
 * runtime is fed the same inputs, and then it returns the same `int`;
 * different records give different `int`s unless the hash collides.
 */
module NodeEquality {
  import opened Wrappers
  import opened SyntaxTree
  import Parsing

  datatype HashValue =
    | ValueHash(value: real)               // double.GetHashCode
    | StringHash(text: string)             // string.GetHashCode
    | OperatorHash(op: OperatorType)       // the enum's GetHashCode
    | Combined(parts: seq<HashValue>)      // HashCode.Add of each part, then ToHashCode
    | ObjectHash(identity: ObjectId)       // the default, per-object hash: not a function of the contents

  /**
   * Which object a node is: the number of the tree it was built in (each
   * `Parse` builds a new one) and the path of child positions from that
   * tree's root.
   */
  datatype ObjectId = ObjectId(tree: nat, path: seq<nat>)

  /** The identity of the `i`-th child of the object `id`. */
  function Child(id: ObjectId, i: nat): ObjectId {
    ObjectId(id.tree, id.path + [i])
  }

  /**
   * `a.Equals(b)`. Only nodes of the same class compare equal (the `obj is`
   * test of each override), and the two classes without an override never do.
   */
  function Equals(a: Node, b: Node): (r: bool)
    ensures r ==> KindName(a) == KindName(b)
    ensures a.ExpressionNode? || a.ExponentNode? ==> !r
    decreases a
  {
    match a
    case NumberNode(v) => b.NumberNode? && b.value == v
    case VariableNode(id) => b.VariableNode? && b.identifier == id
    case OperatorNode(op) => (b.OperatorNode? || b.BinaryNode?) && b.op == op
    case BinaryNode(op, _, _) => (b.OperatorNode? || b.BinaryNode?) && b.op == op
    case UnaryNode(op, child) => b.UnaryNode? && b.op == op && Equals(child, b.child)
    case FunctionNode(id, ps) =>
      && b.FunctionNode? && b.identifier == id && |ps| == |b.parameters|
      && forall i :: 0 <= i < |ps| ==> Equals(ps[i], b.parameters[i])
    case TermNode(cs) =>
      && b.TermNode? && |cs| == |b.children|
      && forall i :: 0 <= i < |cs| ==> Equals(cs[i], b.children[i])
    case ExpressionNode(_) => false
    case ExponentNode(_, _) => false
  }

  /** `GetHashCode` of the node whose identity is `self`. */
  function HashCode(n: Node, self: ObjectId): (h: HashValue)
    ensures h.ObjectHash? <==> n.ExpressionNode? || n.ExponentNode?
    ensures h.ObjectHash? ==> h.identity == self
    decreases n
  {
    match n
    case NumberNode(v) => ValueHash(v)
    case VariableNode(id) => StringHash(id)
    case OperatorNode(op) => OperatorHash(op)
    case BinaryNode(op, _, _) => OperatorHash(op)
    case UnaryNode(op, child) => Combined([OperatorHash(op), HashCode(child, Child(self, 0))])
    case FunctionNode(id, ps) => Combined([StringHash(id)] + HashCodes(ps, self))
    case TermNode(cs) => Combined(HashCodes(cs, self))
    case ExpressionNode(_) => ObjectHash(self)
    case ExponentNode(_, _) => ObjectHash(self)
  }

  /** The hashes of the children `ns` of the object `parent`, in order. */
  function HashCodes(ns: seq<Node>, parent: ObjectId): (r: seq<HashValue>)
    ensures |r| == |ns|
    ensures forall i :: 0 <= i < |ns| ==> r[i] == HashCode(ns[i], Child(parent, i))
    decreases ns
  {
    if ns == [] then []
    else HashCodes(ns[..|ns| - 1], parent) + [HashCode(ns[|ns| - 1], Child(parent, |ns| - 1))]
  }

  // ---------------------------------------------------------------------------
  // The loops of FunctionNode.Equals/TermNode.Equals and of their GetHashCode.

  /**
   * `Equals`, with the `equals &= ...` loop over the parameters or children:
   * it does not stop at the first difference, and it agrees with `Equals`.
   */
  method ComputeEquals(a: Node, b: Node) returns (r: bool)
    ensures r == Equals(a, b)
    decreases a
  {
    match a
    case UnaryNode(op, child) =>
      if !b.UnaryNode? || b.op != op {
        return false;
      }
      r := ComputeEquals(child, b.child);
    case FunctionNode(id, ps) =>
      if !b.FunctionNode? || b.identifier != id || |ps| != |b.parameters| {
        return false;
      }
      r := EqualsAll(a, ps, b.parameters);
    case TermNode(cs) =>
      if !b.TermNode? || |cs| != |b.children| {
        return false;
      }
      r := EqualsAll(a, cs, b.children);
    case _ =>
      r := Equals(a, b);
  }

  /** The loop itself: every position compared, the results and-ed together. */
  method EqualsAll(ghost parent: Node, xs: seq<Node>, ys: seq<Node>) returns (r: bool)
    requires |xs| == |ys|
    requires forall x :: x in xs ==> x < parent
    ensures r == forall i :: 0 <= i < |xs| ==> Equals(xs[i], ys[i])
    decreases parent, 0
  {
    var equals := true;
    for i := 0 to |xs|
      invariant equals == forall j :: 0 <= j < i ==> Equals(xs[j], ys[j])
    {
      assert xs[i] in xs;
      var e := ComputeEquals(xs[i], ys[i]);
      equals := equals && e;
    }
    return equals;
  }

  /** `GetHashCode`, with the `hash.Add` loop over the parameters or children. */
  method ComputeHashCode(n: Node, self: ObjectId) returns (h: HashValue)
    ensures h == HashCode(n, self)
    decreases n
  {
    match n
    case UnaryNode(op, child) =>
      var c := ComputeHashCode(child, Child(self, 0));
      h := Combined([OperatorHash(op), c]);
    case FunctionNode(id, ps) =>
      var parts := [StringHash(id)];
      for i := 0 to |ps|
        invariant parts == [StringHash(id)] + HashCodes(ps[..i], self)
      {
        var p := ComputeHashCode(ps[i], Child(self, i));
        HashCodesAppend(ps, i, self);
        parts := parts + [p];
      }
      assert ps[..|ps|] == ps;
      h := Combined(parts);
    case TermNode(cs) =>
      var parts := [];
      for i := 0 to |cs|
        invariant parts == HashCodes(cs[..i], self)
      {
        var p := ComputeHashCode(cs[i], Child(self, i));
        HashCodesAppend(cs, i, self);
        parts := parts + [p];
      }
      assert cs[..|cs|] == cs;
      h := Combined(parts);
    case _ =>
      h := HashCode(n, self);
  }

  /** Feeding one more child appends its hash. */
  lemma HashCodesAppend(ns: seq<Node>, i: nat, parent: ObjectId)
    requires i < |ns|
    ensures HashCodes(ns[..i + 1], parent) == HashCodes(ns[..i], parent) + [HashCode(ns[i], Child(parent, i))]
  {
    assert ns[..i + 1][..i] == ns[..i];
  }

  // ---------------------------------------------------------------------------
  // Properties.

  /**
   * The contract of `GetHashCode`: equal nodes hash equally, wherever they
   * sit. Equal nodes hold no node hashed by identity.
   */
  lemma {:induction false} EqualsImpliesSameHash(a: Node, b: Node, ida: ObjectId, idb: ObjectId)
    requires Equals(a, b)
    ensures HashCode(a, ida) == HashCode(b, idb)
    decreases a
  {
    match a
    case UnaryNode(_, child) =>
      EqualsImpliesSameHash(child, b.child, Child(ida, 0), Child(idb, 0));
    case FunctionNode(_, ps) =>
      EqualsAllSameHashes(a, ps, b.parameters, ida, idb);
    case TermNode(cs) =>
      EqualsAllSameHashes(a, cs, b.children, ida, idb);
    case _ =>
  }

  lemma {:induction false} EqualsAllSameHashes(parent: Node, xs: seq<Node>, ys: seq<Node>, ida: ObjectId, idb: ObjectId)
    requires |xs| == |ys| && forall i :: 0 <= i < |xs| ==> Equals(xs[i], ys[i])
    requires forall x :: x in xs ==> x < parent
    ensures HashCodes(xs, ida) == HashCodes(ys, idb)
    decreases parent, 0
  {
    forall i | 0 <= i < |xs|
      ensures HashCode(xs[i], Child(ida, i)) == HashCode(ys[i], Child(idb, i))
    {
      assert xs[i] in xs;
      EqualsImpliesSameHash(xs[i], ys[i], Child(ida, i), Child(idb, i));
    }
  }

  lemma {:induction false} EqualsSymmetric(a: Node, b: Node)
    ensures Equals(a, b) == Equals(b, a)
    decreases a
  {
    match a
    case UnaryNode(_, child) =>
      if b.UnaryNode? {
        EqualsSymmetric(child, b.child);
      }
    case FunctionNode(_, ps) =>
      if b.FunctionNode? && |ps| == |b.parameters| {
        forall i | 0 <= i < |ps|
          ensures Equals(ps[i], b.parameters[i]) == Equals(b.parameters[i], ps[i])
        {
          EqualsSymmetric(ps[i], b.parameters[i]);
        }
      }
    case TermNode(cs) =>
      if b.TermNode? && |cs| == |b.children| {
        forall i | 0 <= i < |cs|
          ensures Equals(cs[i], b.children[i]) == Equals(b.children[i], cs[i])
        {
          EqualsSymmetric(cs[i], b.children[i]);
        }
      }
    case _ =>
  }

  /**
   * The node classes whose `Equals` compares contents: no `ExpressionNode`,
   * no `ExponentNode`, and no `BinaryNode` (whose operands are ignored).
   */
  predicate ComparedByValue(n: Node) {
    match n
    case NumberNode(_) => true
    case VariableNode(_) => true
    case OperatorNode(_) => true
    case UnaryNode(_, child) => ComparedByValue(child)
    case FunctionNode(_, ps) => forall p :: p in ps ==> ComparedByValue(p)
    case TermNode(cs) => forall c :: c in cs ==> ComparedByValue(c)
    case _ => false
  }

  /** On trees of those classes, `Equals` is exactly equality of the trees. */
  lemma {:induction false} EqualsIsEquality(a: Node, b: Node)
    requires ComparedByValue(a) && ComparedByValue(b)
    ensures Equals(a, b) <==> a == b
    decreases a
  {
    match a
    case UnaryNode(_, child) =>
      if b.UnaryNode? {
        EqualsIsEquality(child, b.child);
      }
    case FunctionNode(_, ps) =>
      if b.FunctionNode? && |ps| == |b.parameters| {
        ListEquality(a, ps, b.parameters);
      }
    case TermNode(cs) =>
      if b.TermNode? && |cs| == |b.children| {
        ListEquality(a, cs, b.children);
      }
    case _ =>
  }

  lemma {:induction false} ListEquality(parent: Node, xs: seq<Node>, ys: seq<Node>)
    requires |xs| == |ys|
    requires forall x :: x in xs ==> x < parent && ComparedByValue(x)
    requires forall y :: y in ys ==> ComparedByValue(y)
    ensures (forall i :: 0 <= i < |xs| ==> Equals(xs[i], ys[i])) <==> xs == ys
    decreases parent, 0
  {
    forall i | 0 <= i < |xs|
      ensures Equals(xs[i], ys[i]) <==> xs[i] == ys[i]
    {
      assert xs[i] in xs;
      EqualsIsEquality(xs[i], ys[i]);
    }
    if forall i :: 0 <= i < |xs| ==> xs[i] == ys[i] {
      assert xs == ys;
    }
  }

  /** A count mismatch makes two calls unequal, whatever their parameters. */
  lemma CountMismatch(id: string, ps: seq<Node>, qs: seq<Node>)
    requires |ps| != |qs|
    ensures !Equals(FunctionNode(id, ps), FunctionNode(id, qs))
  {
  }

  // ---------------------------------------------------------------------------
  // The equality tests compare two parses of the same text. Every parse is an
  // `ExpressionNode`, which is compared by reference, so they never agree.

  /** Two parses, even of the same text, are never `Equals`. */
  lemma ParsesAreNeverEqual(first: string, second: string)
    requires Parsing.Parse(first).Success? && Parsing.Parse(second).Success?
    ensures !Equals(Parsing.Parse(first).value, Parsing.Parse(second).value)
  {
    Parsing.ParseShape(first);
  }

  /**
   * The hash tests hash two parses: two trees, built one after the other. The
   * root of each is an `ExpressionNode`, hashed as an object, so the two
   * records differ, even for the same text; only a collision of the
   * runtime's object hashes can make the two `int`s equal.
   */
  lemma SeparateParsesHashApart(first: string, second: string, one: nat, other: nat)
    requires Parsing.Parse(first).Success? && Parsing.Parse(second).Success?
    requires one != other
    ensures HashCode(Parsing.Parse(first).value, ObjectId(one, [])) == ObjectHash(ObjectId(one, []))
    ensures HashCode(Parsing.Parse(first).value, ObjectId(one, [])) != HashCode(Parsing.Parse(second).value, ObjectId(other, []))
  {
    Parsing.ParseShape(first);
    Parsing.ParseShape(second);
  }

  /**
   * The comparison the tests expect: `Equals`, with `ExpressionNode`
   * compared child by child like `TermNode`, and `ExponentNode` compared by
   * base and exponent.
   */
  function StructuralEquals(a: Node, b: Node): bool
    decreases a
  {
    match a
    case ExpressionNode(cs) =>
      && b.ExpressionNode? && |cs| == |b.children|
      && forall i :: 0 <= i < |cs| ==> StructuralEquals(cs[i], b.children[i])
    case ExponentNode(base, exponent) =>
      b.ExponentNode? && StructuralEquals(base, b.base) && StructuralEquals(exponent, b.exponent)
    case UnaryNode(op, child) => b.UnaryNode? && b.op == op && StructuralEquals(child, b.child)
    case FunctionNode(id, ps) =>
      && b.FunctionNode? && b.identifier == id && |ps| == |b.parameters|
      && forall i :: 0 <= i < |ps| ==> StructuralEquals(ps[i], b.parameters[i])
    case TermNode(cs) =>
      && b.TermNode? && |cs| == |b.children|
      && forall i :: 0 <= i < |cs| ==> StructuralEquals(cs[i], b.children[i])
    case _ => Equals(a, b)
  }

  /** Every tree is structurally equal to itself, so a text's parse equals any other parse of it. */
  lemma {:induction false} StructuralEqualsIsReflexive(n: Node)
    ensures StructuralEquals(n, n)
    decreases n
  {
    match n
    case ExpressionNode(cs) =>
      forall i | 0 <= i < |cs| ensures StructuralEquals(cs[i], cs[i]) {
        assert cs[i] in cs;
        StructuralEqualsIsReflexive(cs[i]);
      }
    case ExponentNode(base, exponent) =>
      StructuralEqualsIsReflexive(base);
      StructuralEqualsIsReflexive(exponent);
    case UnaryNode(_, child) =>
      StructuralEqualsIsReflexive(child);
    case FunctionNode(_, ps) =>
      forall i | 0 <= i < |ps| ensures StructuralEquals(ps[i], ps[i]) {
        assert ps[i] in ps;
        StructuralEqualsIsReflexive(ps[i]);
      }
    case TermNode(cs) =>
      forall i | 0 <= i < |cs| ensures StructuralEquals(cs[i], cs[i]) {
        assert cs[i] in cs;
        StructuralEqualsIsReflexive(cs[i]);
      }
    case _ =>
  }

  /** The first equality test, with the corrected comparison: "2 + 1 * 5" equals itself. */
  lemma RepeatedParsesAreStructurallyEqual(input: string)
    requires Parsing.Parse(input).Success?
    ensures StructuralEquals(Parsing.Parse(input).value, Parsing.Parse(input).value)
    ensures !Equals(Parsing.Parse(input).value, Parsing.Parse(input).value)
  {
    StructuralEqualsIsReflexive(Parsing.Parse(input).value);
    ParsesAreNeverEqual(input, input);
  }

  /** A tree without `BinaryNode`s, whose operands `Equals` would ignore. */
  predicate BinaryFree(n: Node) {
    match n
    case BinaryNode(_, _, _) => false
    case UnaryNode(_, child) => BinaryFree(child)
    case FunctionNode(_, ps) => forall p :: p in ps ==> BinaryFree(p)
    case TermNode(cs) => forall c :: c in cs ==> BinaryFree(c)
    case ExpressionNode(cs) => forall c :: c in cs ==> BinaryFree(c)
    case ExponentNode(base, exponent) => BinaryFree(base) && BinaryFree(exponent)
    case _ => true
  }

  /** On such trees the corrected comparison is exactly equality of the trees. */
  lemma {:induction false} StructuralEqualsIsEquality(a: Node, b: Node)
    requires BinaryFree(a) && BinaryFree(b)
    ensures StructuralEquals(a, b) <==> a == b
    decreases a
  {
    match a
    case ExpressionNode(cs) =>
      if b.ExpressionNode? && |cs| == |b.children| {
        StructuralListEquality(a, cs, b.children);
      }
    case ExponentNode(base, exponent) =>
      if b.ExponentNode? {
        StructuralEqualsIsEquality(base, b.base);
        StructuralEqualsIsEquality(exponent, b.exponent);
      }
    case UnaryNode(_, child) =>
      if b.UnaryNode? {
        StructuralEqualsIsEquality(child, b.child);
      }
    case FunctionNode(_, ps) =>
      if b.FunctionNode? && |ps| == |b.parameters| {
        StructuralListEquality(a, ps, b.parameters);
      }
    case TermNode(cs) =>
      if b.TermNode? && |cs| == |b.children| {
        StructuralListEquality(a, cs, b.children);
      }
    case _ =>
  }

  lemma {:induction false} StructuralListEquality(parent: Node, xs: seq<Node>, ys: seq<Node>)
    requires |xs| == |ys|
    requires forall x :: x in xs ==> x < parent && BinaryFree(x)
    requires forall y :: y in ys ==> BinaryFree(y)
    ensures (forall i :: 0 <= i < |xs| ==> StructuralEquals(xs[i], ys[i])) <==> xs == ys
    decreases parent, 0
  {
    forall i | 0 <= i < |xs|
      ensures StructuralEquals(xs[i], ys[i]) <==> xs[i] == ys[i]
    {
      assert xs[i] in xs && ys[i] in ys;
      StructuralEqualsIsEquality(xs[i], ys[i]);
    }
    if forall i :: 0 <= i < |xs| ==> xs[i] == ys[i] {
      assert xs == ys;
    }
  }

  /** Every tree the parser builds is free of `BinaryNode`s. */
  lemma ParsesAreBinaryFree(input: string)
    requires Parsing.Parse(input).Success?
    ensures BinaryFree(Parsing.Parse(input).value)
  {
    Parsing.ParseShape(input);
    ExpressionTreeIsBinaryFree(Parsing.Parse(input).value);
  }

  lemma {:induction false} ExpressionTreeIsBinaryFree(n: Node)
    requires Parsing.IsExpressionTree(n)
    ensures BinaryFree(n)
    decreases n, 1
  {
    forall c | c in n.children
      ensures BinaryFree(c)
    {
      var k :| 0 <= k < |n.children| && n.children[k] == c;
      if k % 2 == 0 {
        TermTreeIsBinaryFree(c);
      }
    }
  }

  lemma {:induction false} TermTreeIsBinaryFree(n: Node)
    requires Parsing.IsTermTree(n)
    ensures BinaryFree(n)
    decreases n, 0
  {
    forall c | c in n.children
      ensures BinaryFree(c)
    {
      var k :| 0 <= k < |n.children| && n.children[k] == c;
      if k % 2 == 0 {
        ExponentTreeIsBinaryFree(c);
      }
    }
  }

  lemma {:induction false} ExponentTreeIsBinaryFree(n: Node)
    requires Parsing.IsExponentTree(n)
    ensures BinaryFree(n)
    decreases n, 3
  {
    if Parsing.IsFactorTree(n) {
      FactorTreeIsBinaryFree(n);
    } else {
      FactorTreeIsBinaryFree(n.base);
      ExponentTreeIsBinaryFree(n.exponent);
    }
  }

  lemma {:induction false} FactorTreeIsBinaryFree(n: Node)
    requires Parsing.IsFactorTree(n)
    ensures BinaryFree(n)
    decreases n, 2
  {
    match n
    case FunctionNode(_, ps) =>
      forall q | q in ps
        ensures BinaryFree(q)
      {
        ExpressionTreeIsBinaryFree(q);
      }
    case UnaryNode(_, child) =>
      FactorTreeIsBinaryFree(child);
    case ExpressionNode(_) =>
      ExpressionTreeIsBinaryFree(n);
    case _ =>
  }

  /**
   * The inequality tests, with the corrected comparison: two parses are
   * structurally equal exactly when they are the same tree, so parses of
   * texts that differ in a number, a name or an operator differ.
   */
  lemma ParsesAreStructurallyEqualExactlyWhenSame(first: string, second: string)
    requires Parsing.Parse(first).Success? && Parsing.Parse(second).Success?
    ensures StructuralEquals(Parsing.Parse(first).value, Parsing.Parse(second).value)
        <==> Parsing.Parse(first).value == Parsing.Parse(second).value
  {
    ParsesAreBinaryFree(first);
    ParsesAreBinaryFree(second);
    StructuralEqualsIsEquality(Parsing.Parse(first).value, Parsing.Parse(second).value);
  }

  /** The hash that goes with `StructuralEquals`. */
  function StructuralHashCode(n: Node): HashValue
    decreases n
  {
    match n
    case ExpressionNode(cs) => Combined(StructuralHashCodes(cs))
    case ExponentNode(base, exponent) => Combined([StructuralHashCode(base), StructuralHashCode(exponent)])
    case UnaryNode(op, child) => Combined([OperatorHash(op), StructuralHashCode(child)])
    case FunctionNode(id, ps) => Combined([StringHash(id)] + StructuralHashCodes(ps))
    case TermNode(cs) => Combined(StructuralHashCodes(cs))
    case NumberNode(v) => ValueHash(v)
    case VariableNode(id) => StringHash(id)
    case OperatorNode(op) => OperatorHash(op)
    case BinaryNode(op, _, _) => OperatorHash(op)
  }

  function StructuralHashCodes(ns: seq<Node>): (r: seq<HashValue>)
    ensures |r| == |ns|
    ensures forall i :: 0 <= i < |ns| ==> r[i] == StructuralHashCode(ns[i])
    decreases ns
  {
    if ns == [] then [] else [StructuralHashCode(ns[0])] + StructuralHashCodes(ns[1..])
  }

  /** Structurally equal trees hash equally. */
  lemma {:induction false} StructuralEqualsImpliesSameHash(a: Node, b: Node)
    requires StructuralEquals(a, b)
    ensures StructuralHashCode(a) == StructuralHashCode(b)
    decreases a
  {
    match a
    case ExpressionNode(cs) =>
      forall i | 0 <= i < |cs| ensures StructuralHashCode(cs[i]) == StructuralHashCode(b.children[i]) {
        assert cs[i] in cs;
        StructuralEqualsImpliesSameHash(cs[i], b.children[i]);
      }
    case ExponentNode(base, exponent) =>
      StructuralEqualsImpliesSameHash(base, b.base);
      StructuralEqualsImpliesSameHash(exponent, b.exponent);
    case UnaryNode(_, child) =>
      StructuralEqualsImpliesSameHash(child, b.child);
    case FunctionNode(_, ps) =>
      forall i | 0 <= i < |ps| ensures StructuralHashCode(ps[i]) == StructuralHashCode(b.parameters[i]) {
        assert ps[i] in ps;
        StructuralEqualsImpliesSameHash(ps[i], b.parameters[i]);
      }
    case TermNode(cs) =>
      forall i | 0 <= i < |cs| ensures StructuralHashCode(cs[i]) == StructuralHashCode(b.children[i]) {
        assert cs[i] in cs;
        StructuralEqualsImpliesSameHash(cs[i], b.children[i]);
      }
    case _ =>
  }
}
