/** The earlier CommandExtractor (package fr.inria.inspectorguidget). It handles lambda
    and variable suppliers only, and when the binder invocation has no nested invocation
    it takes the arguments of the binder invocation itself. */
module LegacyExtractor {
  import opened Ast
  import opened Heuristics
  import Extractor

  const UnknownSupplier := "not able to identify command"
  const NoCommandInLambda := "Problem identifying command of widget"

  // ---------------------------------------------------------------------------
  // Specification of each entry point as a function of the tree

  /** The dispatch on the kind of the supplier: lambdas and variable reads only. */
  function Dispatch(commands: set<string>, root: Node, supplier: Path): Outcome
    requires ValidPath(root, supplier)
  {
    match At(root, supplier).kind
    case Lambda => LambdaOutcome(commands, root, supplier, NoCommandInLambda)
    case VariableRead(_) => VariableOutcome(commands, root, supplier, NoCommandInLambda)
    case _ => Warning(UnknownSupplier)
  }

  /** extractCommand(CtInvocation): unwind, then dispatch the supplier chosen by the arity
      rule among the arguments of the innermost invocation, which is the binder invocation
      itself when it has no nested invocation. */
  function InvocationOutcome(commands: set<string>, root: Node, invocation: Path): Outcome
    requires InvocationAt(root, invocation)
  {
    match Unwind(root, invocation)
    case NoChildren => Crash(EmptyChildren)
    case Innermost(inner, _) =>
      var cs := At(root, inner).children;
      if |Arguments(cs)| == 0 then Crash(NoArgument)
      else
        ChildPath(root, inner, SupplierIndex(cs));
        Dispatch(commands, root, inner + [SupplierIndex(cs)])
  }

  // ---------------------------------------------------------------------------
  // The extractor object

  class CommandExtractor {
    /** The simple names of the command classes; set once, by the constructor. */
    const commandClass: set<string>

    constructor (commandClass: set<string>)
      ensures this.commandClass == commandClass
    {
      this.commandClass := commandClass;
    }

    method ExtractCommand(root: Node, invocation: Path) returns (r: Outcome)
      requires InvocationAt(root, invocation)
      ensures r == InvocationOutcome(commandClass, root, invocation)
    {
      // unwind to the innermost nested invocation; without one, the binder itself
      var u := FindInnermost(root, invocation);
      if u.NoChildren? {
        return Crash(EmptyChildren);
      }
      var cur := u.path;

      // the arguments of the binder
      var children := At(root, cur).children;
      var args := CollectArguments(children);
      if |args| == 0 {
        return Crash(NoArgument);
      }
      // the supplier of the command: the second of two arguments, else the first
      var index := if |args| == 2 then args[1] else args[0];
      assert index == SupplierIndex(children);
      ChildPath(root, cur, index);
      var supplier := cur + [index];
      assert InvocationOutcome(commandClass, root, invocation) == Dispatch(commandClass, root, supplier);

      match At(root, supplier).kind
      case Lambda =>
        r := ExtractCommandLambda(root, supplier);
      case VariableRead(_) =>
        r := ExtractCommandVariable(root, supplier);
      case _ =>
        r := Warning(UnknownSupplier);
    }

    method ExtractCommandLambda(root: Node, lambda: Path) returns (r: Outcome)
      requires ValidPath(root, lambda) && At(root, lambda).kind.Lambda?
      ensures r == LambdaOutcome(commandClass, root, lambda, NoCommandInLambda)
      ensures r.ConstructorCallMatch? || r == Warning(NoCommandInLambda)
      ensures r == Warning(NoCommandInLambda) <==>
                forall q :: q in Within(root, lambda) ==> !Matches(root, q, CommandConstructorCall(commandClass))
      ensures r.ConstructorCallMatch? ==>
                exists k :: FirstMatch(root, Within(root, lambda), k, CommandConstructorCall(commandClass)) &&
                            Within(root, lambda)[k] == r.call
      ensures r.ConstructorCallMatch? ==>
                |lambda| <= |r.call| && r.call[..|lambda|] == lambda &&
                Matches(root, r.call, CommandConstructorCall(commandClass))
    {
      LambdaOutcomeFacts(commandClass, root, lambda, NoCommandInLambda);
      LambdaOutcomeSound(commandClass, root, lambda, NoCommandInLambda);
      var commands := Elements(root, lambda, CommandConstructorCall(commandClass));
      if |commands| == 0 {
        // commands.get(0) throws and the handler logs the warning
        r := Warning(NoCommandInLambda);
      } else {
        r := ConstructorCallMatch(commands[0]);
      }
    }

    method ExtractCommandVariable(root: Node, variable: Path) returns (r: Outcome)
      requires ValidPath(root, variable) && At(root, variable).kind.VariableRead?
      ensures r == VariableOutcome(commandClass, root, variable, NoCommandInLambda)
      ensures r.ConstructorCallMatch? || r.Warning?
      ensures r.ConstructorCallMatch? ==> Matches(root, r.call, CommandConstructorCall(commandClass))
      ensures NearestAncestor(root, variable, MethodSort).None? ==> r == Warning(UnresolvedVariable)
      ensures NearestAncestor(root, variable, MethodSort).Some? ==>
                var m := NearestAncestor(root, variable, MethodSort).value;
                var bound := LambdaBoundTo(At(root, variable).kind.text);
                && ((forall q :: q in Within(root, m) ==> !Matches(root, q, bound)) ==>
                      r == Warning(UnresolvedVariable))
                && (forall k :: FirstMatch(root, Within(root, m), k, bound) ==>
                      r == LambdaOutcome(commandClass, root, Within(root, m)[k], NoCommandInLambda))
    {
      VariableOutcomeFacts(commandClass, root, variable, NoCommandInLambda);
      VariableResolves(commandClass, root, variable, NoCommandInLambda);
      var enclosing := NearestAncestor(root, variable, MethodSort);
      if enclosing.None? {
        // the search on a null method throws and the handler logs the warning
        return Warning(UnresolvedVariable);
      }
      var bound := LambdaBoundTo(At(root, variable).kind.text);
      var lambdas := Elements(root, enclosing.value, bound);
      if |lambdas| == 0 {
        return Warning(UnresolvedVariable);
      }
      SelectFacts(root, bound, Within(root, enclosing.value));
      assert lambdas[0] in lambdas;
      r := ExtractCommandLambda(root, lambdas[0]);
    }

    method IsInCommand(className: string) returns (found: bool)
      ensures found <==> className in commandClass
    {
      var remaining := commandClass;
      while remaining != {}
        invariant remaining <= commandClass
        invariant className !in commandClass - remaining
        decreases remaining
      {
        var c :| c in remaining;
        if c == className {
          return true;
        }
        remaining := remaining - {c};
      }
      return false;
    }

    /** The filter of the constructor-scope scanner, applied to one lambda, with its two
        flags: the lambda has a constructor ancestor, and it references a command type. */
    method MatchesConstructorLambda(root: Node, element: Path) returns (b: bool)
      requires ValidPath(root, element) && At(root, element).kind.Lambda?
      ensures b == Matches(root, element, CommandLambdaInConstructor(commandClass))
      ensures b <==> NearestAncestor(root, element, ConstructorSort).Some? &&
                     exists i :: 0 <= i < |At(root, element).types| && At(root, element).types[i] in commandClass
    {
      var construct := false;
      var enclosing := NearestAncestor(root, element, ConstructorSort);
      if enclosing.Some? {
        construct := true;
      }
      var types := At(root, element).types;
      var command := false;
      var i := 0;
      while i < |types|
        invariant 0 <= i <= |types|
        invariant !command && forall j :: 0 <= j < i ==> types[j] !in commandClass
      {
        var found := IsInCommand(types[i]);
        if found {
          command := true;
          break;
        }
        i := i + 1;
      }
      b := construct && command;
    }

    method ExtractCommandFromClass(root: Node, clazz: Path) returns (r: Outcome)
      requires ValidPath(root, clazz) && At(root, clazz).kind.Class?
      ensures r == ClassOutcome(commandClass, root, clazz, NoCommandInLambda)
      ensures forall l :: UniqueMatch(root, Within(root, clazz), l, CommandLambdaInConstructor(commandClass)) ==>
                r == LambdaOutcome(commandClass, root, l, NoCommandInLambda)
      ensures (forall l :: !UniqueMatch(root, Within(root, clazz), l, CommandLambdaInConstructor(commandClass))) ==>
                r == Warning(NoSingleLambda)
    {
      ClassOutcomeFacts(commandClass, root, clazz, NoCommandInLambda);
      var query := CommandLambdaInConstructor(commandClass);
      var lambdaList := Elements(root, clazz, query);
      if |lambdaList| == 1 {
        SelectFacts(root, query, Within(root, clazz));
        assert lambdaList[0] in lambdaList;
        r := ExtractCommandLambda(root, lambdaList[0]);
      } else {
        r := Warning(NoSingleLambda);
      }
    }
  }

  // ---------------------------------------------------------------------------
  // Properties

  /** Only lambda and variable suppliers are handled; a method reference, like every
      other kind, is the "not able to identify command" warning. */
  lemma DispatchFacts(commands: set<string>, root: Node, supplier: Path)
    requires ValidPath(root, supplier)
    ensures var r := Dispatch(commands, root, supplier);
            var k := At(root, supplier).kind;
            && (!k.Lambda? && !k.VariableRead? ==> r == Warning(UnknownSupplier))
            && (k.Lambda? ==> r.ConstructorCallMatch? || r == Warning(NoCommandInLambda))
            && (r.ConstructorCallMatch? ==>
                  (k.Lambda? || k.VariableRead?) && Matches(root, r.call, CommandConstructorCall(commands)))
            && (r.ConstructorCallMatch? || r.Warning?)
  {
    var k := At(root, supplier).kind;
    if k.Lambda? {
      LambdaOutcomeFacts(commands, root, supplier, NoCommandInLambda);
      LambdaOutcomeSound(commands, root, supplier, NoCommandInLambda);
    } else if k.VariableRead? {
      VariableResolves(commands, root, supplier, NoCommandInLambda);
    }
  }

  /** The outcomes of the earlier extractCommand(CtInvocation): it throws only on a
      childless invocation in the chain or on an innermost invocation without arguments;
      with no nested invocation the binder's own arguments are used; otherwise it
      dispatches the supplier the arity rule picks and reports only command constructor
      calls, never a method reference or a block. */
  lemma InvocationOutcomeFacts(commands: set<string>, root: Node, invocation: Path)
    requires InvocationAt(root, invocation)
    ensures var r := InvocationOutcome(commands, root, invocation);
            var u := Unwind(root, invocation);
            && (r == Crash(EmptyChildren) <==> u.NoChildren?)
            && (u.Innermost? && u.depth == 0 ==> u.path == invocation)
            && (u.Innermost? ==>
                  var inner := At(root, u.path);
                  && (r == Crash(NoArgument) <==>
                        forall c :: 0 <= c < |inner.children| ==> inner.children[c].role != Argument)
                  && (|Arguments(inner.children)| > 0 ==>
                        var supplier := u.path + [SupplierIndex(inner.children)];
                        ValidPath(root, supplier) && r == Dispatch(commands, root, supplier)))
            && (r.ConstructorCallMatch? || r.Warning? || r == Crash(EmptyChildren) || r == Crash(NoArgument))
            && (r.ConstructorCallMatch? ==> Matches(root, r.call, CommandConstructorCall(commands)))
  {
    var u := Unwind(root, invocation);
    if u.Innermost? {
      assert invocation + Zeros(0) == invocation;
      var inner := At(root, u.path);
      var args := Arguments(inner.children);
      if |args| > 0 {
        assert args[0] in args;
        ChildPath(root, u.path, SupplierIndex(inner.children));
        DispatchFacts(commands, root, u.path + [SupplierIndex(inner.children)]);
      } else {
        assert forall c :: 0 <= c < |inner.children| ==> c !in args;
      }
    }
  }

  /** Where both versions reach the arity rule (a nested invocation that is not the
      anonymous binder), the later version reports the same constructor call as the
      earlier one, and a method reference it reports is a warning in the earlier one. */
  lemma LaterVersionAgrees(commands: set<string>, root: Node, invocation: Path)
    requires InvocationAt(root, invocation)
    requires Unwind(root, invocation).Innermost? && Unwind(root, invocation).depth > 0
    requires At(root, Unwind(root, invocation).path).kind.simpleName != Extractor.AnonBinder
    ensures var earlier := InvocationOutcome(commands, root, invocation);
            var later := Extractor.InvocationOutcome(commands, root, invocation);
            && (earlier.ConstructorCallMatch? <==> later.ConstructorCallMatch?)
            && (earlier.ConstructorCallMatch? ==> earlier == later)
            && (later.MethodRefMatch? ==> earlier == Warning(UnknownSupplier))
            && (earlier.Crash? <==> later.Crash?)
  {
    var u := Unwind(root, invocation);
    var inner := At(root, u.path);
    if |Arguments(inner.children)| > 0 {
      var supplier := u.path + [SupplierIndex(inner.children)];
      ChildPath(root, u.path, SupplierIndex(inner.children));
      Extractor.DispatchFacts(commands, root, supplier);
      DispatchFacts(commands, root, supplier);
    }
  }

  /** A binder invocation whose first child is already its lambda argument, and which does
      not have exactly two arguments: the earlier version scans that lambda, the later one
      dereferences a null invocation. */
  lemma UnnestedBinder(commands: set<string>, root: Node, invocation: Path)
    requires InvocationAt(root, invocation)
    requires var cs := At(root, invocation).children;
             |cs| > 0 && cs[0].kind.Lambda? && cs[0].role == Argument && |Arguments(cs)| != 2
    ensures ValidPath(root, invocation + [0]) &&
            InvocationOutcome(commands, root, invocation) ==
            LambdaOutcome(commands, root, invocation + [0], NoCommandInLambda)
    ensures Extractor.InvocationOutcome(commands, root, invocation) == Crash(NullInvocation)
  {
    var cs := At(root, invocation).children;
    ChildPath(root, invocation, 0);
    assert Chain(At(root, invocation)) == Some(0);
    assert invocation + Zeros(0) == invocation;
    assert Unwind(root, invocation) == Innermost(invocation, 0);
    assert 0 in Arguments(cs);
    assert SupplierIndex(cs) == 0;
  }
}
