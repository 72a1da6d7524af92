/**
  The statement tree of Wordy, reduced to what the loop node needs.

  `Loop` is the node being modelled. The other variants are small stand-ins for
  sibling statement kinds that are not part of this model: `Exit` raises the
  loop-exit signal, `Fail` raises any other run-time failure, `Increment` changes
  the evaluation context, and `IfAtLeast` and `Sequence` let a loop body decide
  when to exit and do more than one thing.
 */
module Ast {

  datatype Stmt =
    | Loop(body: Stmt)
    | Exit
    | Fail(message: string)
    | Increment(name: string)
    | IfAtLeast(name: string, bound: int, thenBranch: Stmt)
    | Sequence(first: Stmt, second: Stmt)

  /** The child-enumeration view: child role name to the owned child node.
      Every child is strictly smaller than its parent, so the tree has no cycles. */
  function Children(s: Stmt): (m: map<string, Stmt>)
    ensures forall role :: role in m ==> m[role] < s
    ensures s.Loop? ==> m.Keys == {"body"}
  {
    match s
    case Loop(b) => map["body" := b]
    case IfAtLeast(_, _, t) => map["then" := t]
    case Sequence(a, b) => map["first" := a, "second" := b]
    case _ => map[]
  }

  /** A loop's children are exactly one entry, under "body", holding the body. */
  lemma LoopChildren(b: Stmt)
    ensures |Children(Loop(b))| == 1
    ensures "body" in Children(Loop(b)) && Children(Loop(b))["body"] == b
  {
  }

  /** The children of a loop determine its body and nothing else distinguishes two loops. */
  lemma LoopChildrenDetermineBody(a: Stmt, b: Stmt)
    ensures Children(Loop(a)) == Children(Loop(b)) <==> a == b
  {
    if Children(Loop(a)) == Children(Loop(b)) {
      assert Children(Loop(a))["body"] == a;
    }
  }
}
