/** include/utility/iplTree.h: a pre-order iterator that walks parent, child and next links and
    keeps no stack. It is proved equal to the recursive flattening of the tree. */
module Tree {

  class Node {
    var mpParent: Node?
    var mpChild: Node?
    var mpNext: Node?
    var mpPrev: Node?

    constructor ()
      ensures mpParent == null && mpChild == null && mpNext == null && mpPrev == null
    {
      mpParent, mpChild, mpNext, mpPrev := null, null, null, null;
    }
  }

  /** The shape the links describe: a row of siblings, each with a row of children. */
  datatype Row = End | Sibling(node: Node, children: Row, rest: Row)

  /** The recursive flattening. */
  ghost function Preorder(row: Row): seq<Node> {
    match row
    case End => []
    case Sibling(n, children, rest) => [n] + Preorder(children) + Preorder(rest)
  }

  ghost function Nodes(row: Row): set<Node> {
    match row
    case End => {}
    case Sibling(n, children, rest) => {n} + Nodes(children) + Nodes(rest)
  }

  /** The child, next and parent links starting at `first`, below `parent`, spell out `row`. */
  ghost predicate Linked(row: Row, first: Node?, parent: Node?)
    reads Nodes(row)
  {
    match row
    case End => first == null
    case Sibling(n, children, rest) =>
      first == n && n.mpParent == parent
      && Linked(children, n.mpChild, n)
      && Linked(rest, n.mpNext, parent)
  }

  /** The nodes of a row are pairwise different. */
  ghost predicate Distinct(row: Row) {
    match row
    case End => true
    case Sibling(n, children, rest) =>
      n !in Nodes(children) && n !in Nodes(rest) && Nodes(children) !! Nodes(rest)
      && Distinct(children) && Distinct(rest)
  }

  /** `above` lists the ancestors from `n` upwards, ending at a root. */
  ghost predicate Ancestors(n: Node?, above: seq<Node>)
    reads above
  {
    if above == [] then n == null
    else n == above[0] && Ancestors(above[0].mpParent, above[1..])
  }

  /** Where the climb from a finished row ends: the next sibling of the nearest ancestor that
      has one, or null. */
  ghost function Climb(above: seq<Node>): Node?
    reads above
  {
    if above == [] then null
    else if above[0].mpNext != null then above[0].mpNext
    else Climb(above[1..])
  }

  /** What one step of the iterator computes at n, whose ancestors are `above`. */
  ghost function Successor(n: Node, above: seq<Node>): Node?
    reads n, above
  {
    if n.mpChild != null then n.mpChild
    else if n.mpNext != null then n.mpNext
    else Climb(above)
  }

  class Iterator {
    var mPtr: Node?

    constructor (ptr: Node?)
      ensures mPtr == ptr
    {
      mPtr := ptr;
    }

    method Next(ghost above: seq<Node>)
      requires mPtr != null && Ancestors(mPtr.mpParent, above)
      modifies this
      ensures mPtr == old(Successor(mPtr, above))
    {
      if mPtr.mpChild != null {
        mPtr := mPtr.mpChild;
      } else {
        if mPtr.mpNext != null {
          mPtr := mPtr.mpNext;
        } else {
          ghost var rest := above;
          mPtr := mPtr.mpParent;
          while mPtr != null
            invariant Ancestors(mPtr, rest)
            invariant Climb(rest) == Climb(above)
            decreases |rest|
          {
            if mPtr.mpNext == null {
              rest := rest[1..];
              mPtr := mPtr.mpParent;
              continue;
            }
            mPtr := mPtr.mpNext;
            return;
          }
        }
      }
    }
  }

  class ReverseIterator {
    var mPtr: Node

    /** The constructor of the source runs reverse() at once. */
    constructor (root: Node, ghost children: Row)
      requires Linked(children, root.mpChild, root)
      ensures mPtr == LastOf(root, children)
    {
      mPtr := root;
      new;
      NotNodes(children, this);
      Reverse(children);
    }

    method Reverse(ghost children: Row)
      requires Linked(children, mPtr.mpChild, mPtr)
      modifies this
      ensures mPtr == LastOf(old(mPtr), children)
    {
      ghost var below := children;
      while mPtr.mpChild != null
        invariant Linked(below, mPtr.mpChild, mPtr)
        invariant LastOf(mPtr, below) == LastOf(old(mPtr), children)
        decreases below
      {
        mPtr := mPtr.mpChild;
        ghost var row := below;
        NotNodes(row, this);
        while mPtr.mpNext != null
          invariant row.Sibling? && Linked(row, mPtr, mPtr.mpParent)
          invariant row < below || row == below
          invariant Last(row) == LastOf(old(mPtr), children)
          decreases row
        {
          mPtr := mPtr.mpNext;
          row := row.rest;
          NotNodes(row, this);
        }
        below := row.children;
      }
    }
  }

  /** The last node, in pre-order, of a row that is not empty. */
  ghost function Last(row: Row): Node
    requires row.Sibling?
    ensures Preorder(row) != [] && Last(row) == Preorder(row)[|Preorder(row)| - 1]
    decreases row
  {
    if row.rest.Sibling? then Last(row.rest)
    else if row.children.Sibling? then Last(row.children)
    else row.node
  }

  /** The last node, in pre-order, of the tree with this root. */
  ghost function LastOf(root: Node, children: Row): Node
    ensures LastOf(root, children) == (Subtree(root, children))[|Subtree(root, children)| - 1]
  {
    if children.Sibling? then Last(children) else root
  }

  ghost function Subtree(root: Node, children: Row): (s: seq<Node>)
    ensures |s| > 0
  {
    [root] + Preorder(children)
  }

  lemma NotNodes(row: Row, it: ReverseIterator)
    ensures forall n :: n in Nodes(row) ==> n as object != it
  {
  }

  // ---------------------------------------------------------------- the walk is the flattening

  /** From the i-th node of a row in pre-order one step leads to the (i+1)-th, and from the last
      one to where the climb out of the row ends. */
  lemma {:induction false} StepFollowsPreorder(row: Row, first: Node?, parent: Node?, above: seq<Node>, i: nat)
      returns (path: seq<Node>)
    requires Linked(row, first, parent) && Ancestors(parent, above)
    requires i < |Preorder(row)|
    ensures StepsTo(Preorder(row)[i], path, At(Preorder(row), i + 1, Climb(above)))
    decreases row
  {
    var n, c, r := row.node, row.children, row.rest;
    var k := |Preorder(c)|;
    if i == 0 {
      path := above;
    } else if i <= k {
      assert ([n] + above)[1..] == above;
      assert Preorder(row)[i] == Preorder(c)[i - 1];
      path := StepFollowsPreorder(c, n.mpChild, n, [n] + above, i - 1);
    } else {
      assert Preorder(row)[i] == Preorder(r)[i - 1 - k];
      path := StepFollowsPreorder(r, n.mpNext, parent, above, i - 1 - k);
    }
  }

  /** One call of next() at n, whose ancestors are `above`, leads to `to`. */
  ghost predicate StepsTo(n: Node, above: seq<Node>, to: Node?)
    reads n, above
  {
    Ancestors(n.mpParent, above) && Successor(n, above) == to
  }

  /** The i-th element of a walk, or where the walk ends. */
  ghost function At(visited: seq<Node>, i: nat, end: Node?): Node? {
    if i < |visited| then visited[i] else end
  }

  /** The iterator visits `visited` one after the other and then arrives at `end`. */
  ghost predicate IsRun(visited: seq<Node>, paths: seq<seq<Node>>, end: Node?)
    reads visited, set i, j | 0 <= i < |paths| && 0 <= j < |paths[i]| :: paths[i][j]
  {
    |paths| == |visited|
    && forall i :: 0 <= i < |visited| ==> StepsTo(visited[i], paths[i], At(visited, i + 1, end))
  }

  lemma {:induction false} AncestorsUnique(n: Node?, p: seq<Node>, q: seq<Node>)
    requires Ancestors(n, p) && Ancestors(n, q)
    ensures p == q
  {
    if p != [] {
      AncestorsUnique(p[0].mpParent, p[1..], q[1..]);
      assert p == [p[0]] + p[1..] && q == [q[0]] + q[1..];
    }
  }

  /** Walking any row of siblings is its flattening; the walk goes on where the climb ends. */
  lemma RowRun(row: Row, first: Node?, parent: Node?, above: seq<Node>) returns (paths: seq<seq<Node>>)
    requires Linked(row, first, parent) && Ancestors(parent, above)
    ensures IsRun(Preorder(row), paths, Climb(above))
  {
    paths := [];
    while |paths| < |Preorder(row)|
      invariant |paths| <= |Preorder(row)|
      invariant forall i :: 0 <= i < |paths| ==>
                  StepsTo(Preorder(row)[i], paths[i], At(Preorder(row), i + 1, Climb(above)))
    {
      var path := StepFollowsPreorder(row, first, parent, above, |paths|);
      paths := paths + [path];
    }
  }

  /** Repeated next() from the root of a whole tree (no parent, no sibling) visits the nodes in
      pre-order, each exactly once, and then reaches null. */
  lemma TraversalIsPreorder(root: Node, children: Row) returns (paths: seq<seq<Node>>)
    requires root.mpParent == null && root.mpNext == null
    requires Linked(children, root.mpChild, root)
    requires root !in Nodes(children) && Distinct(children)
    ensures IsRun(Subtree(root, children), paths, null)
    ensures Enumerates(Subtree(root, children), {root} + Nodes(children))
  {
    var row := Sibling(root, children, End);
    assert Preorder(row) == Subtree(root, children);
    paths := RowRun(row, root, null, []);
    PreorderEnumerates(row);
    assert Nodes(row) == {root} + Nodes(children);
  }

  ghost predicate NoDuplicates(s: seq<Node>) {
    forall i, j :: 0 <= i < j < |s| ==> s[i] != s[j]
  }

  /** s lists the nodes of `all`, each once. */
  ghost predicate Enumerates(s: seq<Node>, all: set<Node>) {
    (forall i :: 0 <= i < |s| ==> s[i] in all)
    && (forall n :: n in all ==> n in s)
    && NoDuplicates(s)
  }

  lemma EnumerateBoth(s: seq<Node>, a: set<Node>, t: seq<Node>, b: set<Node>)
    requires Enumerates(s, a) && Enumerates(t, b) && a !! b
    ensures Enumerates(s + t, a + b)
  {
    var u := s + t;
    forall i | 0 <= i < |u|
      ensures u[i] in a + b
      ensures i < |s| ==> u[i] in a
      ensures |s| <= i ==> u[i] in b
    {
      assert u[i] == if i < |s| then s[i] else t[i - |s|];
    }
    forall i, j | 0 <= i < j < |u|
      ensures u[i] != u[j]
    {
      if j < |s| {
        assert s[i] != s[j];
      } else if |s| <= i {
        assert t[i - |s|] != t[j - |s|];
      }
    }
  }

  lemma {:induction false} PreorderEnumerates(row: Row)
    requires Distinct(row)
    ensures Enumerates(Preorder(row), Nodes(row))
  {
    match row
    case End =>
    case Sibling(n, c, r) =>
      PreorderEnumerates(c);
      PreorderEnumerates(r);
      EnumerateBoth([n], {n}, Preorder(c), Nodes(c));
      EnumerateBoth([n] + Preorder(c), {n} + Nodes(c), Preorder(r), Nodes(r));
  }

  /** No other sequence is a run from that root to null: the walk is determined by the links. */
  lemma {:induction false} RunIsUnique(a: seq<Node>, p: seq<seq<Node>>, b: seq<Node>, q: seq<seq<Node>>)
    requires a != [] && b != [] && a[0] == b[0]
    requires IsRun(a, p, null) && IsRun(b, q, null)
    ensures a == b
    decreases |a|
  {
    AncestorsUnique(a[0].mpParent, p[0], q[0]);
    assert At(a, 1, null) == At(b, 1, null);
    if |a| > 1 {
      RunTail(a, p);
      RunTail(b, q);
      RunIsUnique(a[1..], p[1..], b[1..], q[1..]);
    }
    assert a == [a[0]] + a[1..] && b == [b[0]] + b[1..];
  }

  lemma RunTail(a: seq<Node>, p: seq<seq<Node>>)
    requires a != [] && IsRun(a, p, null)
    ensures IsRun(a[1..], p[1..], null)
  {
    forall i | 0 <= i < |a| - 1
      ensures StepsTo(a[1..][i], p[1..][i], At(a[1..], i + 1, null))
    {
      assert StepsTo(a[i + 1], p[i + 1], At(a, i + 2, null));
    }
  }
}
