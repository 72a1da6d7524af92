/**
  Structural identity of statement nodes: `equals`, `hashCode` and `toString`.

  Java's `equals(Object)` receives a reference that may be null or may point to a
  node of another class; `ObjectEquals` takes an `Option<Stmt>` where `None`
  stands for null. Reference identity (`this == o`) has no counterpart for
  immutable values; it is covered by reflexivity.
 */
module Identity {
  import opened Ast

  datatype Option<T> = None | Some(value: T)

  /** Deep equality, written out kind by kind the way each node's `equals`
      compares its class and then its fields. A loop never equals a node of
      another kind, and equal nodes hash and print alike. */
  function Equals(a: Stmt, b: Stmt): (r: bool)
    ensures a.Loop? && !b.Loop? ==> !r
    ensures r ==> Hash(a) == Hash(b)
    ensures r ==> ToString(a) == ToString(b)
    decreases a
  {
    match (a, b)
    case (Loop(x), Loop(y)) => Equals(x, y)
    case (Exit, Exit) => true
    case (Fail(m), Fail(n)) => m == n
    case (Increment(x), Increment(y)) => x == y
    case (IfAtLeast(x, k, t), IfAtLeast(y, j, u)) => x == y && k == j && Equals(t, u)
    case (Sequence(a1, a2), Sequence(b1, b2)) => Equals(a1, b1) && Equals(a2, b2)
    case _ => false
  }

  /** `LoopNode.equals(Object)`: null and other classes are never equal; otherwise
      the bodies are compared. */
  function ObjectEquals(self: Stmt, o: Option<Stmt>): (r: bool)
    ensures o.None? ==> !r
    ensures self.Loop? && o.Some? && !o.value.Loop? ==> !r
  {
    match o
    case None => false
    case Some(other) => Equals(self, other)
  }

  /** Node equality is exactly structural (value) equality of the trees. */
  lemma {:induction false} EqualsIsStructural(a: Stmt, b: Stmt)
    ensures Equals(a, b) <==> a == b
    decreases a
  {
    match a
    case Loop(x) =>
      if b.Loop? {
        EqualsIsStructural(x, b.body);
      }
    case IfAtLeast(_, _, t) =>
      if b.IfAtLeast? {
        EqualsIsStructural(t, b.thenBranch);
      }
    case Sequence(x, y) =>
      if b.Sequence? {
        EqualsIsStructural(x, b.first);
        EqualsIsStructural(y, b.second);
      }
    case _ =>
  }

  /** Two loops are equal iff their bodies are equal. */
  lemma LoopEqualsIffBodiesEqual(a: Stmt, b: Stmt)
    ensures ObjectEquals(Loop(a), Some(Loop(b))) <==> a == b
  {
    EqualsIsStructural(a, b);
  }

  /** A loop is equal to itself (the `this == o` shortcut agrees with the field comparison). */
  lemma ObjectEqualsReflexive(s: Stmt)
    ensures ObjectEquals(s, Some(s))
  {
    EqualsIsStructural(s, s);
  }

  /** Equality is symmetric and transitive, as `Object.equals` requires. */
  lemma ObjectEqualsSymmetricTransitive(a: Stmt, b: Stmt, c: Stmt)
    ensures ObjectEquals(a, Some(b)) <==> ObjectEquals(b, Some(a))
    ensures ObjectEquals(a, Some(b)) && ObjectEquals(b, Some(c)) ==> ObjectEquals(a, Some(c))
  {
    EqualsIsStructural(a, b);
    EqualsIsStructural(b, a);
    EqualsIsStructural(b, c);
    EqualsIsStructural(a, c);
  }

  // ---------------------------------------------------------------------------
  // hashCode

  const TwoTo31: int := 0x8000_0000
  const TwoTo32: int := 0x1_0000_0000

  predicate IsInt32(x: int) {
    -TwoTo31 <= x < TwoTo31
  }

  /** Java `int` arithmetic: the value congruent to `x` modulo 2^32 in the int range. */
  function Wrap32(x: int): (r: int)
    ensures IsInt32(r)
    ensures (r - x) % TwoTo32 == 0
    ensures IsInt32(x) ==> r == x
  {
    (x + TwoTo31) % TwoTo32 - TwoTo31
  }

  /** `Objects.hash(fields...)`: start at 1 and fold `31 * result + hash(field)` in int arithmetic. */
  function ObjectsHash(hs: seq<int>): (r: int)
    ensures IsInt32(r)
  {
    if |hs| == 0 then 1
    else Wrap32(31 * ObjectsHash(hs[..|hs| - 1]) + hs[|hs| - 1])
  }

  /** A string hash in the manner of `String.hashCode`: start at 0 and fold
      `31 * h + c` in int arithmetic, over Unicode scalar values rather than
      UTF-16 code units. Only the stand-ins' hashes use it. */
  function StringHash(s: string): (r: int)
    ensures IsInt32(r)
  {
    if |s| == 0 then 0
    else Wrap32(31 * StringHash(s[..|s| - 1]) + s[|s| - 1] as int)
  }

  /** `hashCode` of each node: `Objects.hash` of its fields. */
  function Hash(s: Stmt): (r: int)
    ensures IsInt32(r)
  {
    match s
    case Loop(b) => ObjectsHash([Hash(b)])
    case Exit => ObjectsHash([])
    case Fail(m) => ObjectsHash([StringHash(m)])
    case Increment(x) => ObjectsHash([StringHash(x)])
    case IfAtLeast(x, k, t) => ObjectsHash([StringHash(x), Wrap32(k), Hash(t)])
    case Sequence(a, b) => ObjectsHash([Hash(a), Hash(b)])
  }

  /** A loop's hash is `Objects.hash(body)`, that is `31 + body.hashCode()` in int
      arithmetic: a function of the body alone. */
  lemma LoopHashOfBody(b: Stmt)
    ensures Hash(Loop(b)) == Wrap32(31 + Hash(b))
  {
    var hs := [Hash(b)];
    assert hs[..0] == [];
    assert ObjectsHash(hs[..0]) == 1;
    assert ObjectsHash(hs) == Wrap32(31 * 1 + Hash(b));
  }

  /** Equal nodes have equal hashes. */
  lemma HashConsistentWithEquals(a: Stmt, o: Option<Stmt>)
    ensures ObjectEquals(a, o) ==> Hash(a) == Hash(o.value)
  {
    if o.Some? {
      EqualsIsStructural(a, o.value);
    }
  }

  // ---------------------------------------------------------------------------
  // toString

  const LoopPrefix: string := "LoopNode{body="

  /** `toString` of each node. A loop prints "LoopNode{body=", the body's own
      printed form, and a closing brace; no other node's form starts that way. */
  function ToString(s: Stmt): (r: string)
    ensures s.Loop? ==> |r| == |LoopPrefix| + |ToString(s.body)| + 1
    ensures s.Loop? ==> LoopPrefix <= r && r[|LoopPrefix|..|r| - 1] == ToString(s.body) && r[|r| - 1] == '}'
    ensures !s.Loop? ==> !(LoopPrefix <= r)
  {
    match s
    case Loop(b) => LoopPrefix + ToString(b) + "}"
    case Exit =>
      var r := "LoopExitNode{}";
      assert r[4] != LoopPrefix[4];
      r
    case Fail(m) =>
      var r := "FailNode{message=" + m + "}";
      assert r[0] != LoopPrefix[0];
      r
    case Increment(x) =>
      var r := "IncrementNode{name=" + x + "}";
      assert r[0] != LoopPrefix[0];
      r
    case IfAtLeast(x, _, t) =>
      var r := "IfAtLeastNode{name=" + x + ", then=" + ToString(t) + "}";
      assert r[0] != LoopPrefix[0];
      r
    case Sequence(a, b) =>
      var r := "SequenceNode{first=" + ToString(a) + ", second=" + ToString(b) + "}";
      assert r[0] != LoopPrefix[0];
      r
  }

  /** The printed form of a loop wraps the body's printed form and nothing else:
      two loops print the same iff their bodies print the same. */
  lemma LoopToStringOnlyBody(a: Stmt, b: Stmt)
    ensures ToString(Loop(a)) == ToString(Loop(b)) <==> ToString(a) == ToString(b)
  {
    var sa, sb := ToString(a), ToString(b);
    if ToString(Loop(a)) == ToString(Loop(b)) {
      assert |sa| == |sb|;
      assert sa == (LoopPrefix + sa + "}")[|LoopPrefix|..|LoopPrefix| + |sa|];
      assert sb == (LoopPrefix + sb + "}")[|LoopPrefix|..|LoopPrefix| + |sb|];
    }
  }
}
