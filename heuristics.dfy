/** The pieces of command extraction that both versions of the extractor share: exact
    command-name membership, the node filters, first-match search in pre-order, the
    unwinding of nested invocations, the arity rule for the command supplier, and the
    lambda scanner, variable resolver and constructor-scope scanner (each parameterised
    by the warning its version logs when a lambda holds no command). */
module Heuristics {
  import opened Ast

  /** The outcome of one extraction call. The source prints the node it found or logs a
      warning; an exception it does not catch is a Crash. */
  datatype Outcome =
    | ConstructorCallMatch(call: Path)
    | MethodRefMatch(reference: Path)
    | BlockMatch(block: Path)
    | NullBlock                          // the anonymous-binder path prints null
    | Warning(message: string)
    | Crash(fault: Fault)

  /** The uncaught exceptions of the source. */
  datatype Fault =
    | EmptyChildren     // children.get(0) on an invocation without children
    | NullInvocation    // invoc still null: the outer invocation had no nested invocation
    | NoArgument        // args.get(0) on an empty argument list
    | NoLambda          // lambdaList.get(0) on an empty list of lambdas

  const UnresolvedVariable := "Impossible to identify command"
  const NoSingleLambda := "unable to identify command in lambda"

  /** Some referenced type's simple name is, exactly and case-sensitively, the simple
      name of a command class. */
  predicate MentionsCommand(commands: set<string>, types: seq<string>) {
    exists i :: 0 <= i < |types| && types[i] in commands
  }

  // ---------------------------------------------------------------------------
  // Filters and first-match search (the parser's getElements with a filter)

  /** The filters the extractor hands to getElements. */
  datatype Query =
    | CommandConstructorCall(commands: set<string>)     // a constructor call referencing a command type
    | LambdaBoundTo(name: string)                       // a lambda whose nearest local variable is `name`
    | CommandLambdaInConstructor(commands: set<string>) // a lambda inside a constructor referencing a command type
    | AnyLambda

  /** The nearest local-variable declaration enclosing the node at p is named `name`. */
  predicate BoundTo(root: Node, p: Path, name: string)
    requires ValidPath(root, p)
  {
    match NearestAncestor(root, p, LocalVariableSort)
    case None => false
    case Some(d) => At(root, d).kind.varName == name
  }

  predicate Matches(root: Node, p: Path, query: Query) {
    ValidPath(root, p) &&
    var n := At(root, p);
    match query
    case CommandConstructorCall(commands) =>
      n.kind.ConstructorCall? && MentionsCommand(commands, n.types)
    case LambdaBoundTo(name) =>
      n.kind.Lambda? && BoundTo(root, p, name)
    case CommandLambdaInConstructor(commands) =>
      n.kind.Lambda? && NearestAncestor(root, p, ConstructorSort).Some? && MentionsCommand(commands, n.types)
    case AnyLambda =>
      n.kind.Lambda?
  }

  /** The paths of ps that match, in the order of ps. */
  function Select(root: Node, query: Query, ps: seq<Path>): seq<Path> {
    if ps == [] then []
    else (if Matches(root, ps[0], query) then [ps[0]] else []) + Select(root, query, ps[1..])
  }

  /** getElements(filter) on the node at base: the matching nodes of its subtree in pre-order. */
  function Elements(root: Node, base: Path, query: Query): seq<Path>
    requires ValidPath(root, base)
  {
    Select(root, query, Within(root, base))
  }

  /** ps[k] matches and nothing before it does. */
  predicate FirstMatch(root: Node, ps: seq<Path>, k: int, query: Query) {
    0 <= k < |ps| && Matches(root, ps[k], query) &&
    forall j :: 0 <= j < k ==> !Matches(root, ps[j], query)
  }

  /** l is the one and only matching path of ps. */
  predicate UniqueMatch(root: Node, ps: seq<Path>, l: Path, query: Query) {
    l in ps && Matches(root, l, query) &&
    forall l2 :: l2 in ps && Matches(root, l2, query) ==> l2 == l
  }

  /** Select keeps exactly the matching paths, and its head is the first match. */
  lemma {:induction false} SelectFacts(root: Node, query: Query, ps: seq<Path>)
    ensures forall x :: x in Select(root, query, ps) <==> x in ps && Matches(root, x, query)
    ensures |Select(root, query, ps)| > 0 ==>
              exists k :: FirstMatch(root, ps, k, query) && ps[k] == Select(root, query, ps)[0]
    ensures Distinct(ps) ==> Distinct(Select(root, query, ps))
  {
    if ps != [] {
      var rest := Select(root, query, ps[1..]);
      SelectFacts(root, query, ps[1..]);
      assert ps == [ps[0]] + ps[1..];
      if Matches(root, ps[0], query) {
        assert FirstMatch(root, ps, 0, query);
        if Distinct(ps) {
          assert Distinct(ps[1..]);
          assert ps[0] !in ps[1..];
          DistinctConcat([ps[0]], rest);
        }
      } else if |rest| > 0 {
        var k :| FirstMatch(root, ps[1..], k, query) && ps[1..][k] == rest[0];
        assert FirstMatch(root, ps, k + 1, query);
      }
      if Distinct(ps) {
        assert Distinct(ps[1..]);
      }
    }
  }

  /** Over distinct paths, exactly one element is selected iff exactly one path matches. */
  lemma SelectOne(root: Node, query: Query, ps: seq<Path>)
    requires Distinct(ps)
    ensures |Select(root, query, ps)| == 1 ==> UniqueMatch(root, ps, Select(root, query, ps)[0], query)
    ensures (exists l :: UniqueMatch(root, ps, l, query)) ==> |Select(root, query, ps)| == 1
  {
    var s := Select(root, query, ps);
    SelectFacts(root, query, ps);
    if |s| == 1 {
      assert s[0] in s;
      forall l2 | l2 in ps && Matches(root, l2, query)
        ensures l2 == s[0]
      {
        assert l2 in s;
      }
    }
    if l :| UniqueMatch(root, ps, l, query) {
      assert l in s;
      DistinctCard(s);
      assert (set x | x in s) == {l};
    }
  }

  // ---------------------------------------------------------------------------
  // Unwinding nested invocations

  /** The path of k first-child steps. */
  function Zeros(k: nat): (z: Path)
    ensures |z| == k && forall i :: 0 <= i < k ==> z[i] == 0
  {
    seq(k, _ => 0)
  }

  predicate InvocationAt(n: Node, p: Path) {
    ValidPath(n, p) && At(n, p).kind.Invocation?
  }

  /** Where unwinding stops: a node whose first child exists and is no invocation. */
  predicate Terminal(n: Node) {
    |n.children| > 0 && !n.children[0].kind.Invocation?
  }

  /** How many times the unwinding loop descends into the first child from n before
      it stops; None when it reaches a node without children (the source's get(0) throws). */
  function Chain(n: Node): Option<nat> {
    if |n.children| == 0 then None
    else if !n.children[0].kind.Invocation? then Some(0)
    else match Chain(n.children[0])
      case None => None
      case Some(k) => Some(k + 1)
  }

  /** Unwinding descends only through invocations: on Some(k) every node 1..k first-child
      steps down is an invocation and the node k steps down is terminal; on None it met a
      childless node after passing only invocations. */
  lemma {:induction false} ChainFacts(n: Node)
    ensures Chain(n).Some? ==>
              ValidPath(n, Zeros(Chain(n).value)) && Terminal(At(n, Zeros(Chain(n).value)))
    ensures Chain(n).Some? ==> forall j :: 0 < j <= Chain(n).value ==> InvocationAt(n, Zeros(j))
    ensures Chain(n).None? ==>
              exists j: nat :: ValidPath(n, Zeros(j)) && |At(n, Zeros(j)).children| == 0 &&
                          forall i :: 0 < i <= j ==> InvocationAt(n, Zeros(i))
  {
    assert ValidPath(n, Zeros(0)) && At(n, Zeros(0)) == n;
    if |n.children| > 0 && n.children[0].kind.Invocation? {
      var c := n.children[0];
      ChainFacts(c);
      forall j: nat | j > 0
        ensures ValidPath(n, Zeros(j)) == ValidPath(c, Zeros(j - 1))
        ensures ValidPath(n, Zeros(j)) ==> At(n, Zeros(j)) == At(c, Zeros(j - 1))
      {
        assert Zeros(j) == [0] + Zeros(j - 1);
        PathAppend(n, [0], Zeros(j - 1));
        ChildPath(n, [], 0);
      }
      if Chain(c).None? {
        var j: nat :| ValidPath(c, Zeros(j)) && |At(c, Zeros(j)).children| == 0 &&
                 forall i :: 0 < i <= j ==> InvocationAt(c, Zeros(i));
        assert forall i :: 0 < i <= j + 1 ==> InvocationAt(n, Zeros(i)) by {
          forall i | 0 < i <= j + 1
            ensures InvocationAt(n, Zeros(i))
          {
            if i > 1 { assert InvocationAt(c, Zeros(i - 1)); }
          }
        }
        assert ValidPath(n, Zeros(j + 1)) && |At(n, Zeros(j + 1)).children| == 0;
      } else {
        var k := Chain(c).value;
        assert forall i :: 0 < i <= k + 1 ==> InvocationAt(n, Zeros(i)) by {
          forall i | 0 < i <= k + 1
            ensures InvocationAt(n, Zeros(i))
          {
            if i > 1 { assert InvocationAt(c, Zeros(i - 1)); }
          }
        }
      }
    }
  }

  datatype Unwound = NoChildren | Innermost(path: Path, depth: nat)

  /** The unwinding loop started at the invocation at inv, as absolute paths. */
  function Unwind(root: Node, inv: Path): (u: Unwound)
    requires ValidPath(root, inv)
    ensures u.Innermost? ==>
              u.path == inv + Zeros(u.depth) && ValidPath(root, u.path) && Terminal(At(root, u.path))
    ensures u.Innermost? && u.depth > 0 ==> At(root, u.path).kind.Invocation?
    ensures u.Innermost? ==> forall j :: 0 < j <= u.depth ==> InvocationAt(root, inv + Zeros(j))
  {
    var start := At(root, inv);
    ChainFacts(start);
    match Chain(start)
    case None => NoChildren
    case Some(k) =>
      PathAppend(root, inv, Zeros(k));
      assert k > 0 ==> InvocationAt(start, Zeros(k));
      assert forall j :: 0 < j <= k ==> InvocationAt(root, inv + Zeros(j)) by {
        forall j | 0 < j <= k
          ensures InvocationAt(root, inv + Zeros(j))
        {
          assert InvocationAt(start, Zeros(j));
          PathAppend(root, inv, Zeros(j));
        }
      }
      Innermost(inv + Zeros(k), k)
  }

  /** The unwinding loop both versions run: while the first child of the current node is
      an invocation, descend into it. */
  method FindInnermost(root: Node, invocation: Path) returns (u: Unwound)
    requires ValidPath(root, invocation)
    ensures u == Unwind(root, invocation)
  {
    var cur := invocation;
    var children := At(root, cur).children;
    var steps: nat := 0;
    while true
      invariant ValidPath(root, cur) && children == At(root, cur).children
      invariant cur == invocation + Zeros(steps)
      invariant Chain(At(root, invocation)) ==
                (match Chain(At(root, cur)) case None => None case Some(k) => Some(k + steps))
      decreases At(root, cur)
    {
      if |children| == 0 {
        // children.get(0) throws
        return NoChildren;
      }
      if !children[0].kind.Invocation? {
        break;
      }
      ChildPath(root, cur, 0);
      assert Zeros(steps + 1) == Zeros(steps) + [0];
      cur := cur + [0];
      children := children[0].children;
      steps := steps + 1;
    }
    u := Innermost(cur, steps);
  }

  // ---------------------------------------------------------------------------
  // Arguments and the arity rule

  /** The indices of the children among cs[..k] whose role is Argument, in order. */
  function ArgumentsUpTo(cs: seq<Node>, k: nat): (args: seq<nat>)
    requires k <= |cs|
    ensures forall j: nat :: j in args <==> j < k && cs[j].role == Argument
    ensures forall a, b :: 0 <= a < b < |args| ==> args[a] < args[b]
  {
    if k == 0 then []
    else
      var earlier := ArgumentsUpTo(cs, k - 1);
      assert forall a :: 0 <= a < |earlier| ==> earlier[a] in earlier;
      earlier + (if cs[k - 1].role == Argument then [k - 1] else [])
  }

  function Arguments(cs: seq<Node>): seq<nat> {
    ArgumentsUpTo(cs, |cs|)
  }

  /** The loop both versions run to collect the indices of the argument children. */
  method CollectArguments(children: seq<Node>) returns (args: seq<nat>)
    ensures args == Arguments(children)
  {
    args := [];
    for i := 0 to |children|
      invariant args == ArgumentsUpTo(children, i)
    {
      assert ArgumentsUpTo(children, i + 1) ==
             ArgumentsUpTo(children, i) + (if children[i].role == Argument then [i] else []);
      if children[i].role == Argument {
        args := args + [i];
      }
    }
  }

  /** The child that supplies the command: with exactly two arguments the second one,
      otherwise the first one. */
  function SupplierIndex(cs: seq<Node>): (i: nat)
    requires |Arguments(cs)| > 0
    ensures i < |cs| && cs[i].role == Argument
    ensures |Arguments(cs)| == 2 ==>
              exists j: nat :: j < i && cs[j].role == Argument &&
                          forall m: nat :: m < i && cs[m].role == Argument ==> m == j
    ensures |Arguments(cs)| != 2 ==> forall m: nat :: m < i ==> cs[m].role != Argument
  {
    var args := Arguments(cs);
    assert args[0] in args;
    if |args| == 2 then
      assert args[1] in args;
      assert forall m: nat :: m < args[1] && cs[m].role == Argument ==> m == args[0] by {
        forall m: nat | m < args[1] && cs[m].role == Argument
          ensures m == args[0]
        {
          assert m in args;
        }
      }
      args[1]
    else
      assert forall a :: 0 <= a < |args| ==> args[0] <= args[a];
      assert forall m: nat :: m < args[0] ==> m !in args;
      args[0]
  }

  // ---------------------------------------------------------------------------
  // The three scanners both versions share

  /** extractCommandLambda: the first constructor call in the lambda, in pre-order, that
      references a command type; `missing` is logged when there is none. */
  function LambdaOutcome(commands: set<string>, root: Node, lambda: Path, missing: string): Outcome
    requires ValidPath(root, lambda)
  {
    var calls := Elements(root, lambda, CommandConstructorCall(commands));
    if |calls| == 0 then Warning(missing) else ConstructorCallMatch(calls[0])
  }

  /** extractCommandVariable: in the enclosing method, the first lambda in pre-order whose
      nearest local variable declaration has the variable's printed name, then scanned. */
  function VariableOutcome(commands: set<string>, root: Node, variable: Path, missing: string): Outcome
    requires ValidPath(root, variable) && At(root, variable).kind.VariableRead?
  {
    match NearestAncestor(root, variable, MethodSort)
    case None => Warning(UnresolvedVariable)
    case Some(m) =>
      var lambdas := Elements(root, m, LambdaBoundTo(At(root, variable).kind.text));
      if |lambdas| == 0 then Warning(UnresolvedVariable)
      else
        SelectFacts(root, LambdaBoundTo(At(root, variable).kind.text), Within(root, m));
        assert lambdas[0] in lambdas;
        LambdaOutcome(commands, root, lambdas[0], missing)
  }

  /** extractCommand(CtClass): the lambdas of the class that lie inside a constructor and
      reference a command type; scanned only when there is exactly one. */
  function ClassOutcome(commands: set<string>, root: Node, clazz: Path, missing: string): Outcome
    requires ValidPath(root, clazz)
  {
    var lambdas := Elements(root, clazz, CommandLambdaInConstructor(commands));
    if |lambdas| == 1 then
      SelectFacts(root, CommandLambdaInConstructor(commands), Within(root, clazz));
      assert lambdas[0] in lambdas;
      LambdaOutcome(commands, root, lambdas[0], missing)
    else Warning(NoSingleLambda)
  }

  /** The lambda scanner reports the first command constructor call of the lambda's
      subtree in pre-order, never one that references no command type, and warns
      exactly when there is none. */
  lemma LambdaOutcomeFacts(commands: set<string>, root: Node, lambda: Path, missing: string)
    requires ValidPath(root, lambda)
    ensures var r := LambdaOutcome(commands, root, lambda, missing);
            && (r.ConstructorCallMatch? || r == Warning(missing))
            && (r == Warning(missing) <==>
                  forall q :: q in Within(root, lambda) ==> !Matches(root, q, CommandConstructorCall(commands)))
            && (r.ConstructorCallMatch? ==>
                  exists k :: FirstMatch(root, Within(root, lambda), k, CommandConstructorCall(commands)) &&
                              Within(root, lambda)[k] == r.call)
  {
    SelectFacts(root, CommandConstructorCall(commands), Within(root, lambda));
    var calls := Elements(root, lambda, CommandConstructorCall(commands));
    if |calls| > 0 {
      assert calls[0] in calls;
    }
  }

  /** A reported constructor call is a node of the lambda's subtree, a constructor call,
      and references a command type by its exact simple name. */
  lemma LambdaOutcomeSound(commands: set<string>, root: Node, lambda: Path, missing: string)
    requires ValidPath(root, lambda)
    ensures var r := LambdaOutcome(commands, root, lambda, missing);
            r.ConstructorCallMatch? ==>
              ValidPath(root, r.call) && |lambda| <= |r.call| && r.call[..|lambda|] == lambda &&
              At(root, r.call).kind.ConstructorCall? &&
              exists i :: 0 <= i < |At(root, r.call).types| && At(root, r.call).types[i] in commands
  {
    var r := LambdaOutcome(commands, root, lambda, missing);
    SelectFacts(root, CommandConstructorCall(commands), Within(root, lambda));
    if r.ConstructorCallMatch? {
      var calls := Elements(root, lambda, CommandConstructorCall(commands));
      assert calls[0] in calls;
      WithinMembers(root, lambda, r.call);
    }
  }

  /** The variable resolver warns when there is no enclosing method or no lambda of it is
      bound to the variable's name, and otherwise scans the first bound lambda. */
  lemma VariableOutcomeFacts(commands: set<string>, root: Node, variable: Path, missing: string)
    requires ValidPath(root, variable) && At(root, variable).kind.VariableRead?
    ensures var r := VariableOutcome(commands, root, variable, missing);
            var bound := LambdaBoundTo(At(root, variable).kind.text);
            && (NearestAncestor(root, variable, MethodSort).None? ==> r == Warning(UnresolvedVariable))
            && (NearestAncestor(root, variable, MethodSort).Some? ==>
                  var m := NearestAncestor(root, variable, MethodSort).value;
                  && ((forall q :: q in Within(root, m) ==> !Matches(root, q, bound)) ==>
                        r == Warning(UnresolvedVariable))
                  && (forall k :: FirstMatch(root, Within(root, m), k, bound) ==>
                        r == LambdaOutcome(commands, root, Within(root, m)[k], missing)))
  {
    var bound := LambdaBoundTo(At(root, variable).kind.text);
    if NearestAncestor(root, variable, MethodSort).Some? {
      var m := NearestAncestor(root, variable, MethodSort).value;
      var ps := Within(root, m);
      SelectFacts(root, bound, ps);
      var lambdas := Select(root, bound, ps);
      if |lambdas| > 0 {
        var k0 :| FirstMatch(root, ps, k0, bound) && ps[k0] == lambdas[0];
        forall k | FirstMatch(root, ps, k, bound)
          ensures ps[k] == lambdas[0]
        {
          assert k == k0;
        }
        assert lambdas[0] in lambdas;
      }
    }
  }

  /** The constructor-scope scanner scans a lambda only when it is the one and only
      lambda of the class that lies in a constructor and references a command type;
      with none or several it warns. */
  lemma ClassOutcomeFacts(commands: set<string>, root: Node, clazz: Path, missing: string)
    requires ValidPath(root, clazz)
    ensures var r := ClassOutcome(commands, root, clazz, missing);
            var query := CommandLambdaInConstructor(commands);
            && (forall l :: UniqueMatch(root, Within(root, clazz), l, query) ==>
                  r == LambdaOutcome(commands, root, l, missing))
            && ((forall l :: !UniqueMatch(root, Within(root, clazz), l, query)) ==>
                  r == Warning(NoSingleLambda))
  {
    var query := CommandLambdaInConstructor(commands);
    var ps := Within(root, clazz);
    WithinShape(root, clazz);
    SelectOne(root, query, ps);
    SelectFacts(root, query, ps);
    var lambdas := Select(root, query, ps);
    forall l | UniqueMatch(root, ps, l, query)
      ensures lambdas == [l]
    {
      assert lambdas[0] in lambdas;
    }
  }

  /** The variable resolver reports nothing but warnings and command constructor calls. */
  lemma VariableResolves(commands: set<string>, root: Node, variable: Path, missing: string)
    requires ValidPath(root, variable) && At(root, variable).kind.VariableRead?
    ensures var r := VariableOutcome(commands, root, variable, missing);
            && (r.ConstructorCallMatch? || r.Warning?)
            && (r.ConstructorCallMatch? ==> Matches(root, r.call, CommandConstructorCall(commands)))
  {
    match NearestAncestor(root, variable, MethodSort)
    case None =>
    case Some(m) =>
      var bound := LambdaBoundTo(At(root, variable).kind.text);
      var lambdas := Elements(root, m, bound);
      if |lambdas| > 0 {
        SelectFacts(root, bound, Within(root, m));
        assert lambdas[0] in lambdas;
        LambdaOutcomeFacts(commands, root, lambdas[0], missing);
        LambdaOutcomeSound(commands, root, lambdas[0], missing);
      }
  }
}
