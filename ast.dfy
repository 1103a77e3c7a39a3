/** The parsed program the extractor inspects, reduced to what the extractor looks at:
    each node has a kind, the role it plays in its parent, the simple names of the types
    it references, and its children in the order the parser's scanner visits them.
    The extractor never changes a tree; it only selects nodes of it, and a node is
    identified by its path (child indices) from the root of the tree. */
module Ast {

  datatype Option<T> = None | Some(value: T)

  /** The role of a node in its parent; only the argument role is ever tested. */
  datatype Role = Argument | OtherRole

  datatype Kind =
    | Invocation(simpleName: string)    // a call; simpleName is the called executable's simple name
    | Lambda
    | VariableRead(text: string)        // a variable (or field) read; text is its printed form
    | ExecutableReference               // a method reference such as Foo::new or this::bar
    | ConstructorCall
    | Block
    | LocalVariable(varName: string)    // a local variable declaration
    | Method
    | Constructor
    | Class
    | Other

  datatype Node = Node(kind: Kind, role: Role, types: seq<string>, children: seq<Node>)

  /** Child indices leading from a root down to one of its nodes; [] is the root itself. */
  type Path = seq<nat>

  predicate ValidPath(n: Node, p: Path)
    decreases |p|
  {
    p == [] || (p[0] < |n.children| && ValidPath(n.children[p[0]], p[1..]))
  }

  /** The node that path p leads to. */
  function At(n: Node, p: Path): Node
    requires ValidPath(n, p)
    decreases |p|
  {
    if p == [] then n else At(n.children[p[0]], p[1..])
  }

  /** Following p and then q is following p + q. */
  lemma {:induction false} PathAppend(n: Node, p: Path, q: Path)
    requires ValidPath(n, p)
    ensures ValidPath(n, p + q) <==> ValidPath(At(n, p), q)
    ensures ValidPath(n, p + q) ==> At(n, p + q) == At(At(n, p), q)
    decreases |p|
  {
    if p == [] {
      assert p + q == q;
    } else {
      assert (p + q)[0] == p[0] && (p + q)[1..] == p[1..] + q;
      PathAppend(n.children[p[0]], p[1..], q);
    }
  }

  /** One step down: the i-th child of the node at p is at p + [i]. */
  lemma ChildPath(n: Node, p: Path, i: nat)
    requires ValidPath(n, p) && i < |At(n, p).children|
    ensures ValidPath(n, p + [i]) && At(n, p + [i]) == At(n, p).children[i]
  {
    PathAppend(n, p, [i]);
    assert ValidPath(At(n, p).children[i], []);
  }

  /** Every ancestor of a node is a node. */
  lemma {:induction false} PrefixValid(n: Node, p: Path, j: nat)
    requires ValidPath(n, p) && j <= |p|
    ensures ValidPath(n, p[..j])
    decreases |p|
  {
    if j > 0 {
      assert p[..j][0] == p[0] && p[..j][1..] == p[1..][..j - 1];
      PrefixValid(n.children[p[0]], p[1..], j - 1);
    }
  }

  // ---------------------------------------------------------------------------
  // Ancestors (the parser's getParent(K.class))

  /** The declaration kinds whose nearest enclosing occurrence the extractor asks for. */
  datatype Sort = LocalVariableSort | MethodSort | ConstructorSort

  predicate HasSort(k: Kind, s: Sort) {
    match s
    case LocalVariableSort => k.LocalVariable?
    case MethodSort => k.Method?
    case ConstructorSort => k.Constructor?
  }

  predicate SortAt(root: Node, p: Path, s: Sort) {
    ValidPath(root, p) && HasSort(At(root, p).kind, s)
  }

  /** The nearest strict ancestor of the node at p whose kind has sort s: walking up from
      the parent, the first one of that sort; None when the root is passed. */
  function NearestAncestor(root: Node, p: Path, s: Sort): (r: Option<Path>)
    requires ValidPath(root, p)
    ensures r.Some? ==> |r.value| < |p| && r.value == p[..|r.value|] && SortAt(root, r.value, s)
    ensures r.Some? ==> forall j :: |r.value| < j < |p| ==> !SortAt(root, p[..j], s)
    ensures r.None? ==> forall j :: 0 <= j < |p| ==> !SortAt(root, p[..j], s)
    decreases |p|
  {
    if p == [] then None
    else
      var q := p[..|p| - 1];
      PrefixValid(root, p, |p| - 1);
      assert forall j :: 0 <= j <= |q| ==> q[..j] == p[..j];
      if HasSort(At(root, q).kind, s) then Some(q)
      else NearestAncestor(root, q, s)
  }

  // ---------------------------------------------------------------------------
  // Pre-order traversal (the order the parser's getElements reports nodes in)

  function Rebase(base: Path, ps: seq<Path>): seq<Path> {
    seq(|ps|, k requires 0 <= k < |ps| => base + ps[k])
  }

  /** The paths of all nodes of n, relative to n: n itself first, then the subtree of
      each child in child order. */
  function PreOrder(n: Node): seq<Path>
    decreases n, 1
  {
    [[]] + SubtreesFrom(n, 0)
  }

  function SubtreesFrom(n: Node, i: nat): seq<Path>
    requires i <= |n.children|
    decreases n, 0, |n.children| - i
  {
    if i == |n.children| then []
    else Rebase([i], PreOrder(n.children[i])) + SubtreesFrom(n, i + 1)
  }

  /** The pre-order of n lists exactly the nodes of n. */
  lemma {:induction false} PreOrderMembers(n: Node, q: Path)
    ensures q in PreOrder(n) <==> ValidPath(n, q)
    decreases n, 1
  {
    SubtreesMembers(n, 0, q);
  }

  lemma {:induction false} SubtreesMembers(n: Node, i: nat, q: Path)
    requires i <= |n.children|
    ensures q in SubtreesFrom(n, i) <==>
              q != [] && i <= q[0] < |n.children| && ValidPath(n.children[q[0]], q[1..])
    decreases n, 0, |n.children| - i
  {
    if i < |n.children| {
      var sub := PreOrder(n.children[i]);
      var here := Rebase([i], sub);
      assert SubtreesFrom(n, i) == here + SubtreesFrom(n, i + 1);
      SubtreesMembers(n, i + 1, q);
      if q in here {
        var k :| 0 <= k < |here| && here[k] == q;
        assert q[0] == i && q[1..] == sub[k];
        PreOrderMembers(n.children[i], q[1..]);
      }
      if q != [] && q[0] == i && ValidPath(n.children[i], q[1..]) {
        PreOrderMembers(n.children[i], q[1..]);
        var k :| 0 <= k < |sub| && sub[k] == q[1..];
        assert here[k] == q;
      }
    }
  }

  predicate Distinct(ps: seq<Path>) {
    forall a, b :: 0 <= a < b < |ps| ==> ps[a] != ps[b]
  }

  lemma DistinctConcat(xs: seq<Path>, ys: seq<Path>)
    requires Distinct(xs) && Distinct(ys)
    requires forall x :: x in xs ==> x !in ys
    ensures Distinct(xs + ys)
  {
    forall a, b | 0 <= a < b < |xs + ys|
      ensures (xs + ys)[a] != (xs + ys)[b]
    {
      if a < |xs| && b >= |xs| {
        assert (xs + ys)[a] in xs && (xs + ys)[b] == ys[b - |xs|];
      }
    }
  }

  /** Distinct paths are as many as the set they form. */
  lemma {:induction false} DistinctCard(ps: seq<Path>)
    requires Distinct(ps)
    ensures |set x | x in ps| == |ps|
  {
    if ps != [] {
      DistinctCard(ps[1..]);
      assert (set x | x in ps) == {ps[0]} + (set x | x in ps[1..]);
      assert ps[0] !in ps[1..];
    }
  }

  lemma RebaseDistinct(base: Path, ps: seq<Path>)
    requires Distinct(ps)
    ensures Distinct(Rebase(base, ps))
  {
    var r := Rebase(base, ps);
    forall a, b | 0 <= a < b < |r|
      ensures r[a] != r[b]
    {
      assert r[a][|base|..] == ps[a] && r[b][|base|..] == ps[b];
    }
  }

  /** The pre-order visits every node once. */
  lemma {:induction false} PreOrderDistinct(n: Node)
    ensures Distinct(PreOrder(n))
    decreases n, 1
  {
    SubtreesDistinct(n, 0);
    forall q | q in SubtreesFrom(n, 0)
      ensures q != []
    {
      SubtreesMembers(n, 0, q);
    }
    DistinctConcat([[]], SubtreesFrom(n, 0));
  }

  lemma {:induction false} SubtreesDistinct(n: Node, i: nat)
    requires i <= |n.children|
    ensures Distinct(SubtreesFrom(n, i))
    decreases n, 0, |n.children| - i
  {
    if i < |n.children| {
      var here := Rebase([i], PreOrder(n.children[i]));
      var rest := SubtreesFrom(n, i + 1);
      PreOrderDistinct(n.children[i]);
      RebaseDistinct([i], PreOrder(n.children[i]));
      SubtreesDistinct(n, i + 1);
      forall x | x in here
        ensures x !in rest
      {
        var k :| 0 <= k < |here| && here[k] == x;
        assert x[0] == i;
        SubtreesMembers(n, i + 1, x);
      }
      DistinctConcat(here, rest);
    }
  }

  /** The absolute paths of the nodes of the subtree rooted at base, in pre-order. */
  function Within(root: Node, base: Path): seq<Path>
    requires ValidPath(root, base)
  {
    Rebase(base, PreOrder(At(root, base)))
  }

  /** The subtree at base holds exactly the nodes whose path extends base, each once,
      base itself first. */
  lemma WithinMembers(root: Node, base: Path, q: Path)
    requires ValidPath(root, base)
    ensures q in Within(root, base) <==> ValidPath(root, q) && |base| <= |q| && q[..|base|] == base
  {
    var ps := PreOrder(At(root, base));
    if q in Within(root, base) {
      var k :| 0 <= k < |ps| && Within(root, base)[k] == q;
      PreOrderMembers(At(root, base), ps[k]);
      PathAppend(root, base, ps[k]);
    }
    if ValidPath(root, q) && |base| <= |q| && q[..|base|] == base {
      var rel := q[|base|..];
      assert q == base + rel;
      PathAppend(root, base, rel);
      PreOrderMembers(At(root, base), rel);
      var k :| 0 <= k < |ps| && ps[k] == rel;
      assert Within(root, base)[k] == q;
    }
  }

  lemma WithinShape(root: Node, base: Path)
    requires ValidPath(root, base)
    ensures Distinct(Within(root, base))
    ensures |Within(root, base)| > 0 && Within(root, base)[0] == base
  {
    PreOrderDistinct(At(root, base));
    RebaseDistinct(base, PreOrder(At(root, base)));
    assert base + [] == base;
  }
}
