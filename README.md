# Command extraction in InspectorGuidget, modelled in Dafny

InspectorGuidget's `CommandExtractor` takes a call site that binds a UI widget to a
Command and finds the expression that supplies the Command. It does this by recognising
a few shapes in the parsed Java program.

The model covers both versions of the class:
- the earlier `fr.inria.inspectorguidget.CommandExtractor`;
- the later `fr.inria.inspectorguidget.extractor.CommandExtractor`, which adds
  method-reference suppliers and the `anonCmdBinder` block path.

The model works as follows:

- **The tree.** The parsed program is a finite tree, `Ast.Node`. Each node has a kind, the role it plays in its parent, the simple names of the types it references, and its children in order. A node is named by its `Path` of child indices from the root.
- **Tree queries.** `getElements` is the pre-order traversal `Ast.Within`, filtered by `Heuristics.Select`. The filters are the `Heuristics.Query` values, interpreted by `Heuristics.Matches`. `getParent(K.class)` is `Ast.NearestAncestor`.
- **Results.** What the code prints or logs becomes a `Heuristics.Outcome`:
  - a reported constructor call, method reference or block;
  - `NullBlock`, when `println(null)` runs;
  - a `Warning` carrying the logged text;
  - a `Crash` carrying the uncaught exception's cause.
- **Structure.** Each version is a class `CommandExtractor` with the source's methods and loops. A method's postcondition is a specification function from the tree to the outcome. The lemmas state what those functions guarantee. The parts both versions share are in the module `Heuristics`. These include the unwinding loop and the argument loop, which the two versions have word for word. The earlier class repeats the later one's lambda, variable, name-membership and class-scan methods, as the source does; they differ only in the lambda scanner's warning text.

The model keeps these behaviours of the code:
- **Anonymous binder.** The anonymous-block path gets the innermost invocation reached by unwinding, not the outer one. If that invocation's first lambda has no block child, the code prints `null` and does not fail. This is `NullBlock`.
- **Null invocation.** In the later version, an outer invocation with no nested invocation makes `invoc` null. Its dereference throws: `Crash(NullInvocation)`. The earlier version uses the outer invocation's own children instead.
- **No argument.** An innermost invocation without argument children makes `args.get(0)` throw. This is `Crash(NoArgument)`, not a soft "not found".
- **No lambda.** The anonymous path throws when there is no lambda at all: `Crash(NoLambda)`.
- **Childless node.** A node without children in the unwinding chain throws at `children.get(0)`: `Crash(EmptyChildren)`.
- **No depth bound.** The unwinding has no depth bound and no cycle detection. A finite tree makes them unnecessary.
- **Warning texts.** The texts are those of the code: "can't find command in expression" and "unable to identify command in lambda".

## Model

| member | source | states |
|---|---|---|
| `Ast.NearestAncestor` | src/main/java/fr/inria/inspectorguidget/extractor/CommandExtractor.java:110 | `getParent(K)`: the result is a strict ancestor of sort K with no ancestor of sort K closer to the node; None exactly when no ancestor has sort K |
| `Ast.PreOrderMembers` | src/main/java/fr/inria/inspectorguidget/extractor/CommandExtractor.java:90 | the traversal behind `getElements` lists a path exactly when it leads to a node of the subtree |
| `Ast.WithinMembers` | src/main/java/fr/inria/inspectorguidget/extractor/CommandExtractor.java:113 | the elements searched under a node are exactly the nodes whose path extends that node's path |
| `Ast.WithinShape` | src/main/java/fr/inria/inspectorguidget/extractor/CommandExtractor.java:141 | the traversal visits every node of the subtree once, the subtree's root first |
| `Heuristics.SelectFacts` | src/main/java/fr/inria/inspectorguidget/extractor/CommandExtractor.java:90-100 | `getElements(filter)` holds exactly the matching nodes, each once, and its first element is the first match in pre-order |
| `Heuristics.SelectOne` | src/main/java/fr/inria/inspectorguidget/extractor/CommandExtractor.java:163 | among distinct paths, the filtered list has size one exactly when one and only one node matches |
| `Heuristics.ChainFacts` | src/main/java/fr/inria/inspectorguidget/extractor/CommandExtractor.java:35-38 | unwinding passes only invocations; it stops at a node whose first child is not an invocation, or it meets a childless node |
| `Heuristics.Unwind` | src/main/java/fr/inria/inspectorguidget/extractor/CommandExtractor.java:32-38 | the innermost invocation is reached by first-child steps, is a node of the tree and is terminal; every node passed on the way, and the innermost one after at least one step, is an invocation |
| `Heuristics.FindInnermost` | src/main/java/fr/inria/inspectorguidget/CommandExtractor.java:36-42 | the unwinding loop of both versions reaches the innermost invocation `Heuristics.Unwind` describes, or the childless node where `get(0)` throws; it terminates on every tree |
| `Heuristics.ArgumentsUpTo` | src/main/java/fr/inria/inspectorguidget/extractor/CommandExtractor.java:46-51 | the argument list holds exactly the indices of the children with the argument role, in increasing child order |
| `Heuristics.CollectArguments` | src/main/java/fr/inria/inspectorguidget/CommandExtractor.java:45-50 | the argument loop of both versions collects exactly the indices `Heuristics.ArgumentsUpTo` describes for all children |
| `Heuristics.SupplierIndex` | src/main/java/fr/inria/inspectorguidget/extractor/CommandExtractor.java:54 | the supplier is an argument child: with two arguments it is the second one, otherwise it is the first one |
| `Heuristics.LambdaOutcomeFacts` | src/main/java/fr/inria/inspectorguidget/extractor/CommandExtractor.java:86-107 | the lambda scanner reports the first command constructor call in pre-order, and warns exactly when the lambda has none |
| `Heuristics.LambdaOutcomeSound` | src/main/java/fr/inria/inspectorguidget/extractor/CommandExtractor.java:92-99 | a reported call lies inside the lambda, is a constructor call, and has a referenced type whose simple name is exactly a command name |
| `Heuristics.VariableOutcomeFacts` | src/main/java/fr/inria/inspectorguidget/extractor/CommandExtractor.java:109-127 | no enclosing method, or no lambda in it bound to the variable's text, gives "Impossible to identify command"; otherwise the first bound lambda in pre-order is scanned |
| `Heuristics.ClassOutcomeFacts` | src/main/java/fr/inria/inspectorguidget/extractor/CommandExtractor.java:163-166 | a lambda is scanned exactly when it is the unique constructor lambda that references a command; otherwise "unable to identify command in lambda" |
| `Heuristics.VariableResolves` | src/main/java/fr/inria/inspectorguidget/extractor/CommandExtractor.java:109-127 | the variable resolver reports only command constructor calls or warnings |
| `Extractor.FirstBlock` | src/main/java/fr/inria/inspectorguidget/extractor/CommandExtractor.java:182-187 | the index of the first child that is a block; None exactly when no child is a block |
| `Extractor.CommandExtractor.constructor` | src/main/java/fr/inria/inspectorguidget/extractor/CommandExtractor.java:25-27 | the command classes are the given set |
| `Extractor.CommandExtractor.ExtractCommand` | src/main/java/fr/inria/inspectorguidget/extractor/CommandExtractor.java:29-68 | unwinding, the null dereference of `invoc` (`Crash(NullInvocation)`), the anonymous-binder test, the argument collection, the arity rule and the dispatch compute the outcome `Extractor.InvocationOutcome` specifies |
| `Extractor.CommandExtractor.ExtractCommandExecutable` | src/main/java/fr/inria/inspectorguidget/extractor/CommandExtractor.java:70-84 | the method reference is reported exactly when one of its referenced types is a command name; otherwise "can't find command in expression" |
| `Extractor.CommandExtractor.ExtractCommandLambda` | src/main/java/fr/inria/inspectorguidget/extractor/CommandExtractor.java:86-107 | a command constructor call or the warning "Cannot find command in lambda"; the warning exactly when no node of the lambda is a command constructor call; a reported call is the first one in pre-order, lies inside the lambda and references a command name |
| `Extractor.CommandExtractor.ExtractCommandVariable` | src/main/java/fr/inria/inspectorguidget/extractor/CommandExtractor.java:109-127 | only a command constructor call or a warning; "Impossible to identify command" without an enclosing method or when no lambda of that method is bound to the variable's text; otherwise the scan of the first bound lambda in pre-order |
| `Extractor.CommandExtractor.IsInCommand` | src/main/java/fr/inria/inspectorguidget/extractor/CommandExtractor.java:129-136 | true exactly when the name equals a command class's simple name |
| `Extractor.CommandExtractor.ReferencesCommand` | src/main/java/fr/inria/inspectorguidget/extractor/CommandExtractor.java:72-78 | the flag is set exactly when some referenced type name is a command name |
| `Extractor.CommandExtractor.MatchesConstructorLambda` | src/main/java/fr/inria/inspectorguidget/extractor/CommandExtractor.java:143-160 | the class filter holds exactly when the lambda has a constructor ancestor and references a command name |
| `Extractor.CommandExtractor.ExtractCommandFromClass` | src/main/java/fr/inria/inspectorguidget/extractor/CommandExtractor.java:138-167 | the scan of the lambda when it is the one and only constructor lambda referencing a command; otherwise, with none or several, "unable to identify command in lambda" |
| `Extractor.CommandExtractor.ExtractAnonCmd` | src/main/java/fr/inria/inspectorguidget/extractor/CommandExtractor.java:169-189 | the first lambda's first block child, found by the loop with its break, or null |
| `Extractor.DispatchFacts` | src/main/java/fr/inria/inspectorguidget/extractor/CommandExtractor.java:57-65 | lambdas and variables yield only command constructor calls or warnings; a method reference is reported as itself exactly when it references a command; any other kind gives "not able to identify command" |
| `Extractor.AnonymousOutcomeFacts` | src/main/java/fr/inria/inspectorguidget/extractor/CommandExtractor.java:169-189 | a crash exactly when the invocation holds no lambda; otherwise the first block child of the first lambda in pre-order, or null when it has none |
| `Extractor.InvocationOutcomeFacts` | src/main/java/fr/inria/inspectorguidget/extractor/CommandExtractor.java:29-68 | each crash (childless chain, null `invoc`, no argument) happens exactly on its shape; the anonymous binder alone takes the block path; otherwise the supplier the arity rule picks is dispatched; every report references a command |
| `Extractor.AnonymousIgnoresCommands` | src/main/java/fr/inria/inspectorguidget/extractor/CommandExtractor.java:41-43 | for the anonymous binder the outcome does not depend on the command classes and is a block, null or the no-lambda crash |
| `LegacyExtractor.CommandExtractor.constructor` | src/main/java/fr/inria/inspectorguidget/CommandExtractor.java:29-31 | the command classes are the given set |
| `LegacyExtractor.CommandExtractor.ExtractCommand` | src/main/java/fr/inria/inspectorguidget/CommandExtractor.java:33-65 | unwinding, the argument collection, the arity rule and the dispatch compute the outcome `LegacyExtractor.InvocationOutcome` specifies |
| `LegacyExtractor.CommandExtractor.ExtractCommandLambda` | src/main/java/fr/inria/inspectorguidget/CommandExtractor.java:67-91 | a command constructor call or the warning "Problem identifying command of widget"; the warning exactly when no node of the lambda is a command constructor call; a reported call is the first one in pre-order, lies inside the lambda and references a command name |
| `LegacyExtractor.CommandExtractor.ExtractCommandVariable` | src/main/java/fr/inria/inspectorguidget/CommandExtractor.java:93-111 | only a command constructor call or a warning; "Impossible to identify command" without an enclosing method or when no lambda of that method is bound to the variable's text; otherwise the scan of the first bound lambda in pre-order |
| `LegacyExtractor.CommandExtractor.IsInCommand` | src/main/java/fr/inria/inspectorguidget/CommandExtractor.java:113-120 | true exactly when the name equals a command class's simple name |
| `LegacyExtractor.CommandExtractor.MatchesConstructorLambda` | src/main/java/fr/inria/inspectorguidget/CommandExtractor.java:127-144 | the class filter with its two flags holds exactly when the lambda has a constructor ancestor and references a command name |
| `LegacyExtractor.CommandExtractor.ExtractCommandFromClass` | src/main/java/fr/inria/inspectorguidget/CommandExtractor.java:122-151 | the scan of the lambda when it is the one and only constructor lambda referencing a command; otherwise, with none or several, "unable to identify command in lambda" |
| `LegacyExtractor.DispatchFacts` | src/main/java/fr/inria/inspectorguidget/CommandExtractor.java:56-61 | only lambdas and variables are handled, and they yield command constructor calls or warnings; every other kind, method references included, gives "not able to identify command" |
| `LegacyExtractor.InvocationOutcomeFacts` | src/main/java/fr/inria/inspectorguidget/CommandExtractor.java:33-61 | crashes only on a childless chain or a missing argument; without a nested invocation the binder's own children are used; otherwise the arity rule's supplier is dispatched; only command constructor calls are reported |
| `LegacyExtractor.LaterVersionAgrees` | src/main/java/fr/inria/inspectorguidget/extractor/CommandExtractor.java:44-65 | for a nested, non-anonymous binder both versions report the same constructor call and crash on the same shapes; a method reference the later one reports is a warning in the earlier one |
| `LegacyExtractor.UnnestedBinder` | src/main/java/fr/inria/inspectorguidget/CommandExtractor.java:36-53 | on any binder whose first child is a lambda argument and which does not have exactly two arguments, the earlier version scans that lambda and the later one crashes on the null invocation |

## Left out

- Spoon is not modelled. The node kinds, roles, referenced types, `getElements`, `getParent`, `getDirectChildren` and `getExecutable().getSimpleName()` are replaced by the tree datatype and its traversal functions.
- `toString()` of a variable read is not modelled. It is the `text` field of `VariableRead`.
- `getReferencedTypes()` is a sequence of simple names. Duplicates and order do not affect any result.
- Logging and printing are not modelled, including the `"-------------"` separator of the earlier version. They become the returned `Outcome`.
- Java exception mechanics are not modelled. A caught exception is the warning its handler logs, and an uncaught one is a `Crash`. Nothing models the propagation to the caller.
- The filter callbacks are pure predicates (`Heuristics.Matches`), not objects. The lambda scanner's filter loop, which returns early, is the predicate `MentionsCommand`. The flag loops over referenced types are written as loops: in the later version `ReferencesCommand`, run by the method-reference check and by the constructor filter; in the earlier version the loop inside its constructor filter.
- Building the command-class set is not modelled, because it happens outside these classes. The set is a set of simple names.
- There is no concurrency, no depth bound and no cycle detection, because the code has none.

