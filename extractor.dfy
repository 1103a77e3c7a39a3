/** The later CommandExtractor (package fr.inria.inspectorguidget.extractor). Next to the
    earlier version it also resolves method-reference suppliers and treats the
    anonymous command binder, whose command is the block of a lambda. */
module Extractor {
  import opened Ast
  import opened Heuristics

  /** The simple name of the anonymous command binder. */
  const AnonBinder := "anonCmdBinder"

  const UnknownSupplier := "not able to identify command"
  const NotCommandReference := "can't find command in expression"
  const NoCommandInLambda := "Cannot find command in lambda"

  // ---------------------------------------------------------------------------
  // Specification of each entry point as a function of the tree

  /** extractCommandExecutable: the method reference itself when one of its referenced
      types is a command. */
  function ExecutableOutcome(commands: set<string>, root: Node, reference: Path): Outcome
    requires ValidPath(root, reference)
  {
    if MentionsCommand(commands, At(root, reference).types) then MethodRefMatch(reference)
    else Warning(NotCommandReference)
  }

  /** The index of the first block among cs. */
  function FirstBlock(cs: seq<Node>): (r: Option<nat>)
    ensures r.Some? ==>
              r.value < |cs| && cs[r.value].kind.Block? &&
              forall j :: 0 <= j < r.value ==> !cs[j].kind.Block?
    ensures r.None? ==> forall j :: 0 <= j < |cs| ==> !cs[j].kind.Block?
  {
    if cs == [] then None
    else if cs[0].kind.Block? then Some(0)
    else match FirstBlock(cs[1..])
      case None => None
      case Some(i) => Some(i + 1)
  }

  /** extractAnonCmd: the first block child of the first lambda (in pre-order) of the
      invocation's subtree, with no look at command types. */
  function AnonymousOutcome(root: Node, invocation: Path): Outcome
    requires ValidPath(root, invocation)
  {
    var lambdas := Elements(root, invocation, AnyLambda);
    if |lambdas| == 0 then Crash(NoLambda)
    else
      SelectFacts(root, AnyLambda, Within(root, invocation));
      assert lambdas[0] in lambdas;
      match FirstBlock(At(root, lambdas[0]).children)
      case None => NullBlock
      case Some(i) => BlockMatch(lambdas[0] + [i])
  }

  /** The dispatch on the kind of the supplier. */
  function Dispatch(commands: set<string>, root: Node, supplier: Path): Outcome
    requires ValidPath(root, supplier)
  {
    match At(root, supplier).kind
    case Lambda => LambdaOutcome(commands, root, supplier, NoCommandInLambda)
    case VariableRead(_) => VariableOutcome(commands, root, supplier, NoCommandInLambda)
    case ExecutableReference => ExecutableOutcome(commands, root, supplier)
    case _ => Warning(UnknownSupplier)
  }

  /** extractCommand(CtInvocation): unwind, then the anonymous path for the anonymous
      binder and otherwise the supplier chosen by the arity rule, dispatched on its kind. */
  function InvocationOutcome(commands: set<string>, root: Node, invocation: Path): Outcome
    requires InvocationAt(root, invocation)
  {
    match Unwind(root, invocation)
    case NoChildren => Crash(EmptyChildren)
    case Innermost(inner, depth) =>
      if depth == 0 then Crash(NullInvocation)
      else if At(root, inner).kind.simpleName == AnonBinder then AnonymousOutcome(root, inner)
      else
        var cs := At(root, inner).children;
        if |Arguments(cs)| == 0 then Crash(NoArgument)
        else
          ChildPath(root, inner, SupplierIndex(cs));
          Dispatch(commands, root, inner + [SupplierIndex(cs)])
  }

  // ---------------------------------------------------------------------------
  // The extractor object

  class CommandExtractor {
    /** The simple names of the command classes; set once, by the constructor. */
    const commandClass: set<string>

    constructor (commandClass: set<string>)
      ensures this.commandClass == commandClass
    {
      this.commandClass := commandClass;
    }

    method ExtractCommand(root: Node, invocation: Path) returns (r: Outcome)
      requires InvocationAt(root, invocation)
      ensures r == InvocationOutcome(commandClass, root, invocation)
    {
      // unwind to the innermost nested invocation, invoc
      var u := FindInnermost(root, invocation);
      if u.NoChildren? {
        return Crash(EmptyChildren);
      }
      var invoc := u.path;
      if u.depth == 0 {
        // the loop body never ran and invoc is still null
        return Crash(NullInvocation);
      }
      if At(root, invoc).kind.simpleName == AnonBinder {
        r := ExtractAnonCmd(root, invoc);
        return;
      }

      // the arguments of the binder
      var children := At(root, invoc).children;
      var args := CollectArguments(children);
      if |args| == 0 {
        return Crash(NoArgument);
      }
      // the supplier of the command: the second of two arguments, else the first
      var index := if |args| == 2 then args[1] else args[0];
      assert index == SupplierIndex(children);
      ChildPath(root, invoc, index);
      var supplier := invoc + [index];
      assert InvocationOutcome(commandClass, root, invocation) == Dispatch(commandClass, root, supplier);

      match At(root, supplier).kind
      case Lambda =>
        r := ExtractCommandLambda(root, supplier);
      case VariableRead(_) =>
        r := ExtractCommandVariable(root, supplier);
      case ExecutableReference =>
        r := ExtractCommandExecutable(root, supplier);
      case _ =>
        r := Warning(UnknownSupplier);
    }

    method ExtractCommandExecutable(root: Node, expression: Path) returns (r: Outcome)
      requires ValidPath(root, expression) && At(root, expression).kind.ExecutableReference?
      ensures r == ExecutableOutcome(commandClass, root, expression)
      ensures r == MethodRefMatch(expression) <==>
                exists i :: 0 <= i < |At(root, expression).types| && At(root, expression).types[i] in commandClass
      ensures r != MethodRefMatch(expression) ==> r == Warning(NotCommandReference)
    {
      var isCommand := ReferencesCommand(At(root, expression).types);
      if isCommand {
        r := MethodRefMatch(expression);
      } else {
        r := Warning(NotCommandReference);
      }
    }

    method ExtractCommandLambda(root: Node, lambda: Path) returns (r: Outcome)
      requires ValidPath(root, lambda) && At(root, lambda).kind.Lambda?
      ensures r == LambdaOutcome(commandClass, root, lambda, NoCommandInLambda)
      ensures r.ConstructorCallMatch? || r == Warning(NoCommandInLambda)
      ensures r == Warning(NoCommandInLambda) <==>
                forall q :: q in Within(root, lambda) ==> !Matches(root, q, CommandConstructorCall(commandClass))
      ensures r.ConstructorCallMatch? ==>
                exists k :: FirstMatch(root, Within(root, lambda), k, CommandConstructorCall(commandClass)) &&
                            Within(root, lambda)[k] == r.call
      ensures r.ConstructorCallMatch? ==>
                |lambda| <= |r.call| && r.call[..|lambda|] == lambda &&
                Matches(root, r.call, CommandConstructorCall(commandClass))
    {
      LambdaOutcomeFacts(commandClass, root, lambda, NoCommandInLambda);
      LambdaOutcomeSound(commandClass, root, lambda, NoCommandInLambda);
      var commands := Elements(root, lambda, CommandConstructorCall(commandClass));
      if |commands| == 0 {
        // commands.get(0) throws and the handler logs the warning
        r := Warning(NoCommandInLambda);
      } else {
        r := ConstructorCallMatch(commands[0]);
      }
    }

    method ExtractCommandVariable(root: Node, variable: Path) returns (r: Outcome)
      requires ValidPath(root, variable) && At(root, variable).kind.VariableRead?
      ensures r == VariableOutcome(commandClass, root, variable, NoCommandInLambda)
      ensures r.ConstructorCallMatch? || r.Warning?
      ensures r.ConstructorCallMatch? ==> Matches(root, r.call, CommandConstructorCall(commandClass))
      ensures NearestAncestor(root, variable, MethodSort).None? ==> r == Warning(UnresolvedVariable)
      ensures NearestAncestor(root, variable, MethodSort).Some? ==>
                var m := NearestAncestor(root, variable, MethodSort).value;
                var bound := LambdaBoundTo(At(root, variable).kind.text);
                && ((forall q :: q in Within(root, m) ==> !Matches(root, q, bound)) ==>
                      r == Warning(UnresolvedVariable))
                && (forall k :: FirstMatch(root, Within(root, m), k, bound) ==>
                      r == LambdaOutcome(commandClass, root, Within(root, m)[k], NoCommandInLambda))
    {
      VariableOutcomeFacts(commandClass, root, variable, NoCommandInLambda);
      VariableResolves(commandClass, root, variable, NoCommandInLambda);
      var enclosing := NearestAncestor(root, variable, MethodSort);
      if enclosing.None? {
        // the search on a null method throws and the handler logs the warning
        return Warning(UnresolvedVariable);
      }
      var bound := LambdaBoundTo(At(root, variable).kind.text);
      var lambdas := Elements(root, enclosing.value, bound);
      if |lambdas| == 0 {
        return Warning(UnresolvedVariable);
      }
      SelectFacts(root, bound, Within(root, enclosing.value));
      assert lambdas[0] in lambdas;
      r := ExtractCommandLambda(root, lambdas[0]);
    }

    method IsInCommand(className: string) returns (found: bool)
      ensures found <==> className in commandClass
    {
      var remaining := commandClass;
      while remaining != {}
        invariant remaining <= commandClass
        invariant className !in commandClass - remaining
        decreases remaining
      {
        var c :| c in remaining;
        if c == className {
          return true;
        }
        remaining := remaining - {c};
      }
      return false;
    }

    /** The flag loop over referenced types that the method-reference check and the
        constructor filter run. */
    method ReferencesCommand(types: seq<string>) returns (isCommand: bool)
      ensures isCommand <==> exists i :: 0 <= i < |types| && types[i] in commandClass
    {
      isCommand := false;
      var i := 0;
      while i < |types|
        invariant 0 <= i <= |types|
        invariant forall j :: 0 <= j < i ==> types[j] !in commandClass
      {
        var b := IsInCommand(types[i]);
        if b {
          isCommand := true;
          break;
        }
        i := i + 1;
      }
    }

    /** The filter of the constructor-scope scanner, applied to one lambda. */
    method MatchesConstructorLambda(root: Node, element: Path) returns (b: bool)
      requires ValidPath(root, element) && At(root, element).kind.Lambda?
      ensures b == Matches(root, element, CommandLambdaInConstructor(commandClass))
      ensures b <==> NearestAncestor(root, element, ConstructorSort).Some? &&
                     exists i :: 0 <= i < |At(root, element).types| && At(root, element).types[i] in commandClass
    {
      var construct := false;
      var enclosing := NearestAncestor(root, element, ConstructorSort);
      if enclosing.Some? {
        construct := true;
      }
      var command := ReferencesCommand(At(root, element).types);
      b := construct && command;
    }

    method ExtractCommandFromClass(root: Node, clazz: Path) returns (r: Outcome)
      requires ValidPath(root, clazz) && At(root, clazz).kind.Class?
      ensures r == ClassOutcome(commandClass, root, clazz, NoCommandInLambda)
      ensures forall l :: UniqueMatch(root, Within(root, clazz), l, CommandLambdaInConstructor(commandClass)) ==>
                r == LambdaOutcome(commandClass, root, l, NoCommandInLambda)
      ensures (forall l :: !UniqueMatch(root, Within(root, clazz), l, CommandLambdaInConstructor(commandClass))) ==>
                r == Warning(NoSingleLambda)
    {
      ClassOutcomeFacts(commandClass, root, clazz, NoCommandInLambda);
      var query := CommandLambdaInConstructor(commandClass);
      var lambdaList := Elements(root, clazz, query);
      if |lambdaList| == 1 {
        SelectFacts(root, query, Within(root, clazz));
        assert lambdaList[0] in lambdaList;
        r := ExtractCommandLambda(root, lambdaList[0]);
      } else {
        r := Warning(NoSingleLambda);
      }
    }

    method ExtractAnonCmd(root: Node, invocation: Path) returns (r: Outcome)
      requires InvocationAt(root, invocation)
      ensures r == AnonymousOutcome(root, invocation)
    {
      var lambdaList := Elements(root, invocation, AnyLambda);
      if |lambdaList| == 0 {
        // lambdaList.get(0) throws
        return Crash(NoLambda);
      }
      SelectFacts(root, AnyLambda, Within(root, invocation));
      assert lambdaList[0] in lambdaList;
      var lambda := lambdaList[0];
      var command: Option<nat> := None;
      var children := At(root, lambda).children;
      for i := 0 to |children|
        invariant command.None? ==> forall j :: 0 <= j < i ==> !children[j].kind.Block?
        invariant command.Some? ==> command == FirstBlock(children)
      {
        if children[i].kind.Block? {
          command := Some(i);
          break;
        }
      }
      if command.None? {
        r := NullBlock;
      } else {
        r := BlockMatch(lambda + [command.value]);
      }
    }
  }

  // ---------------------------------------------------------------------------
  // Properties

  /** Every supplier kind goes to its own strategy: a constructor call is reported only
      for a lambda or a variable supplier and is a command constructor call; a method
      reference is reported, as itself, exactly when it references a command type; any
      other kind is the "not able to identify command" warning. */
  lemma DispatchFacts(commands: set<string>, root: Node, supplier: Path)
    requires ValidPath(root, supplier)
    ensures var r := Dispatch(commands, root, supplier);
            var k := At(root, supplier).kind;
            && (r.ConstructorCallMatch? ==>
                  (k.Lambda? || k.VariableRead?) && Matches(root, r.call, CommandConstructorCall(commands)))
            && (k.Lambda? ==> r.ConstructorCallMatch? || r == Warning(NoCommandInLambda))
            && (r.MethodRefMatch? <==> k.ExecutableReference? && MentionsCommand(commands, At(root, supplier).types))
            && (r.MethodRefMatch? ==> r.reference == supplier)
            && (!k.Lambda? && !k.VariableRead? && !k.ExecutableReference? ==> r == Warning(UnknownSupplier))
            && !r.BlockMatch? && !r.NullBlock? && !r.Crash?
  {
    var k := At(root, supplier).kind;
    if k.Lambda? {
      LambdaOutcomeFacts(commands, root, supplier, NoCommandInLambda);
      LambdaOutcomeSound(commands, root, supplier, NoCommandInLambda);
    } else if k.VariableRead? {
      VariableResolves(commands, root, supplier, NoCommandInLambda);
    }
  }

  /** The anonymous path fails only when the invocation holds no lambda; otherwise it
      reports the first block child of the first lambda in pre-order, or null when that
      lambda has no block child. */
  lemma AnonymousOutcomeFacts(root: Node, invocation: Path)
    requires ValidPath(root, invocation)
    ensures var r := AnonymousOutcome(root, invocation);
            var lambdas := Within(root, invocation);
            && (r.BlockMatch? || r.NullBlock? || r == Crash(NoLambda))
            && (r == Crash(NoLambda) <==> forall q :: q in lambdas ==> !Matches(root, q, AnyLambda))
            && (r.BlockMatch? ==> ValidPath(root, r.block) && At(root, r.block).kind.Block?)
            && (r.BlockMatch? ==>
                  exists k :: FirstMatch(root, lambdas, k, AnyLambda) &&
                              FirstBlock(At(root, lambdas[k]).children).Some? &&
                              r.block == lambdas[k] + [FirstBlock(At(root, lambdas[k]).children).value])
            && (r.NullBlock? ==>
                  exists k :: FirstMatch(root, lambdas, k, AnyLambda) &&
                              forall c :: c in At(root, lambdas[k]).children ==> !c.kind.Block?)
  {
    var ps := Within(root, invocation);
    SelectFacts(root, AnyLambda, ps);
    var found := Elements(root, invocation, AnyLambda);
    if |found| > 0 {
      assert found[0] in found;
      var l := found[0];
      var k :| FirstMatch(root, ps, k, AnyLambda) && ps[k] == l;
      match FirstBlock(At(root, l).children)
      case None =>
      case Some(i) =>
        ChildPath(root, l, i);
    }
  }

  /** The outcomes of extractCommand(CtInvocation), case by case: which shapes make the
      source throw, that the anonymous binder alone reaches the block path, that any other
      binder dispatches the supplier the arity rule picks, and that every reported
      constructor call or method reference is one that references a command type. */
  lemma InvocationOutcomeFacts(commands: set<string>, root: Node, invocation: Path)
    requires InvocationAt(root, invocation)
    ensures var r := InvocationOutcome(commands, root, invocation);
            var u := Unwind(root, invocation);
            && (r == Crash(EmptyChildren) <==> u.NoChildren?)
            && (r == Crash(NullInvocation) <==> u.Innermost? && u.depth == 0)
            && (u.Innermost? && u.depth > 0 ==>
                  var inner := At(root, u.path);
                  && (inner.kind.simpleName == AnonBinder ==> r == AnonymousOutcome(root, u.path))
                  && (inner.kind.simpleName != AnonBinder ==>
                        && (r == Crash(NoArgument) <==>
                              forall c :: 0 <= c < |inner.children| ==> inner.children[c].role != Argument)
                        && (|Arguments(inner.children)| > 0 ==>
                              var supplier := u.path + [SupplierIndex(inner.children)];
                              ValidPath(root, supplier) && r == Dispatch(commands, root, supplier))
                        && !r.BlockMatch? && !r.NullBlock? && r != Crash(NoLambda)))
            && (r.ConstructorCallMatch? ==> Matches(root, r.call, CommandConstructorCall(commands)))
            && (r.MethodRefMatch? ==>
                  ValidPath(root, r.reference) && At(root, r.reference).kind.ExecutableReference? &&
                  MentionsCommand(commands, At(root, r.reference).types))
  {
    var u := Unwind(root, invocation);
    if u.Innermost? && u.depth > 0 {
      var inner := At(root, u.path);
      if inner.kind.simpleName == AnonBinder {
        AnonymousOutcomeFacts(root, u.path);
      } else {
        var args := Arguments(inner.children);
        if |args| > 0 {
          assert args[0] in args;
          ChildPath(root, u.path, SupplierIndex(inner.children));
          DispatchFacts(commands, root, u.path + [SupplierIndex(inner.children)]);
        } else {
          assert forall c :: 0 <= c < |inner.children| ==> c !in args;
        }
      }
    }
  }

  /** The anonymous path takes no command type into account: the outcome for the
      anonymous binder is the same whatever the command classes are. */
  lemma AnonymousIgnoresCommands(commands: set<string>, others: set<string>, root: Node, invocation: Path)
    requires InvocationAt(root, invocation)
    requires Unwind(root, invocation).Innermost? && Unwind(root, invocation).depth > 0
    requires At(root, Unwind(root, invocation).path).kind.simpleName == AnonBinder
    ensures InvocationOutcome(commands, root, invocation) == InvocationOutcome(others, root, invocation)
    ensures InvocationOutcome(commands, root, invocation).BlockMatch? ||
            InvocationOutcome(commands, root, invocation).NullBlock? ||
            InvocationOutcome(commands, root, invocation) == Crash(NoLambda)
  {
    AnonymousOutcomeFacts(root, Unwind(root, invocation).path);
  }
}
