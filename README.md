# Nuitka optimizer core in Dafny

This project models the part of the Nuitka Python compiler that rewrites
the node tree until nothing changes. It has six parts:

- **Fixed-point driver** (module `Optimization`). The per-module loop
  repeats `computeModule` until a pass leaves the global tag set empty. It
  adds `var_usage` for incomplete scopes, ignores `new_code`, and retries
  once at the start of each run of quiet passes in campaign pass 1. The campaign loop repeats whole-registry
  passes until no module changed, and prunes unused functions after each
  pass. The driver is a class (`Optimizer`) whose methods update the tag
  set, the pass counter and the registry in place. `computeModule` is an
  oracle that, per campaign pass and module, gives the `signalChange` calls
  of each pass and the modules it brought in.
- **Hard-module imports** (module `ImportNodes`):
  - the trust tables;
  - the attribute decision of `ExpressionImportModuleHard`;
  - the version-dependent "cannot import name" message;
  - `importlib.import_module` name resolution, as a loop method proved
    against a reference function;
  - `__import__` nodes. These are a class, because recursion is attempted
    only once.
- **Dict attribute specialisation** (module `AttributeNodes`):
  - generic fixed-name lookups become dict-typed lookups on exact dicts;
  - calls on those become dict operation nodes, with the arity chosen
    statically.
- **Subscript nodes** (module `SubscriptNodes`):
  - "children first, then delegate" dispatch;
  - folding of constant subscript checks, keeping side effects.
- **exec and eval** (module `ExecEvalNodes`):
  - the locals-dictionary predicates;
  - the child slots of the exec statement;
  - the memoised provided-variable registry of inline exec.
- **`with` reformulation** (module `WithStatements`). The statements built
  for `with` and `async with` are given a meaning by a small trace
  interpreter. In it the context expression, each lookup, the enter call,
  the awaits, the exit call and the target assignment may raise. This lets
  the model state the protocol the reformulation implements:
  - the source is stored first;
  - the version decides the lookup order;
  - a setup that raises never reaches exit, and the temporaries are still
    released;
  - once the setup completes, exit runs exactly once, with the exception
    exactly when the body raised;
  - the statement raises when exit raises, or when the body raised and
    exit answered false;
  - a body that leaves early by `return`, `break` or `continue` still
    calls exit once, without the exception, and the statement then leaves
    by the same exit;
  - the temporaries are released last;
  - several context managers open in source order, and each calls exit
    once.

`Common` holds the shared change tags, exception kinds and Python version
constants.

## Model

| member | source | states |
|---|---|---|
| Optimization.FirstStopFrom | nuitka/optimizations/Optimization.py:97-135 | the first pass at or after `i` where the loop stops, and no earlier one stops |
| Optimization.FirstStop | nuitka/optimizations/Optimization.py:97-135 | the per-module loop stops at the first stopping pass: a quiet pass that is not a retry; in campaign pass 1 the loop retries once at the start of each run of quiet passes |
| Optimization.KeepUsed | nuitka/optimizations/Optimization.py:333-337 | the kept functions are exactly those both present and used, and never more than before |
| Optimization.Pruned | nuitka/optimizations/Optimization.py:322-339 | pruning a module changes only its functions and their trace collections |
| Optimization.SignalledTagsAre | nuitka/optimizations/Optimization.py:60-76 | a tag is in the tag set iff some `signalChange` call of the pass carried it |
| Optimization.MessagesDoNotMatter | nuitka/optimizations/Optimization.py:62-76 | two call sequences with the same tags give the same tag set whatever their messages |
| Optimization.IncompleteScopesChange | nuitka/optimizations/Optimization.py:112-113 | a pass with incomplete scopes has `var_usage` and so counts as a change |
| Optimization.NewCodeAloneIsQuiet | nuitka/optimizations/Optimization.py:117-122 | a pass that signals only `new_code` is quiet |
| Optimization.StopsAtFirstQuietPass | nuitka/optimizations/Optimization.py:121-135 | outside campaign pass 1 the loop stops at the first quiet pass and every earlier pass had tags |
| Optimization.RetryInFirstCampaignPass | nuitka/optimizations/Optimization.py:122-130 | in campaign pass 1 the loop never stops at its first quiet pass; it stops on a second consecutive quiet pass |
| Optimization.TouchedIffMorePasses | nuitka/optimizations/Optimization.py:87-146 | a module reports a change iff its loop ran more passes than the fewest possible: two in campaign pass 1 (the retry after the first quiet pass), one otherwise |
| Optimization.TwoQuietPassesInFirstCampaignPass | nuitka/optimizations/Optimization.py:122-135 | in campaign pass 1, whenever the first two passes are quiet, the loop stops after exactly two passes and the module reports no change |
| Optimization.KeepUsedAppend | nuitka/optimizations/Optimization.py:333-337 | filtering the used functions distributes over concatenation, so order is kept |
| Optimization.KeepUsedAllUsed | nuitka/optimizations/Optimization.py:333-337 | a function list that is all used is kept unchanged |
| Optimization.PruneIdempotent | nuitka/optimizations/Optimization.py:322-339 | after pruning a compiled module holds only used functions, and pruning again changes nothing |
| Optimization.Optimizer.constructor | nuitka/optimizations/Optimization.py:215-216 | the driver starts with pass count 0, an empty tag set and the root modules pending |
| Optimization.Optimizer.SignalChange | nuitka/optimizations/Optimization.py:60-76 | the tags are added to the tag set, whether or not a message is given |
| Optimization.Optimizer.RunPass | nuitka/optimizations/Optimization.py:97-119 | one pass starts from an empty tag set and ends with the signalled tags, plus `var_usage` for incomplete scopes, minus `new_code` |
| Optimization.Optimizer.OptimizeCompiledPythonModule | nuitka/optimizations/Optimization.py:79-158 | the loop runs exactly up to the first stopping pass and returns whether any pass had tags |
| Optimization.Optimizer.OptimizeModule | nuitka/optimizations/Optimization.py:197-212 | only compiled modules can report a change; shared-library and uncompiled modules report none |
| Optimization.Optimizer.AddUsedModule | nuitka/nodes/ImportNodes.py:392-395 | a module reported as used becomes pending unless the registry already knows it; names stay distinct |
| Optimization.Optimizer.AddUsedModules | nuitka/nodes/ImportNodes.py:392-395 | afterwards the registry knows exactly the old modules plus every module brought in, and the ones it did not know are queued, in order, behind the old pending ones |
| Optimization.Optimizer.StartTraversal | nuitka/optimizations/Optimization.py:298 | a new traversal makes every done module pending again, in order |
| Optimization.Optimizer.PruneUnusedFunctions | nuitka/optimizations/Optimization.py:322-339 | every done module is pruned in place, and afterwards each compiled one holds only used functions |
| Optimization.Optimizer.ComputeModule | nuitka/optimizations/Optimization.py:311 | `optimizeModule` on the oracle's script reports a change iff the module is compiled and its loop touched it |
| Optimization.Optimizer.MoveToDone | nuitka/optimizations/Optimization.py:303-304 | the first pending module leaves the queue and its computed form is appended to the done list |
| Optimization.Optimizer.TakeNextModule | nuitka/optimizations/Optimization.py:303-313 | the first pending module is computed and becomes done holding its computation's functions and used functions; the change flag is that module's; the set of unvisited names shrinks |
| Optimization.Optimizer.VisitNextModule | nuitka/optimizations/Optimization.py:303-317 | one visit: the next pending module becomes done with its change flag as above, and every module its computation brought in becomes known, the unknown ones queued in order |
| Optimization.Optimizer.VisitAll | nuitka/optimizations/Optimization.py:302-317 | the visited modules are exactly those pending at the start plus those brought in on the way; each holds its computation's result; the result is true iff no visited module reported a change |
| Optimization.Optimizer.MakeOptimizationPass | nuitka/optimizations/Optimization.py:291-343 | the pass count grows by one; every known module and every module brought in is visited; the result is true iff none of them reported a change in this pass; afterwards each compiled module holds exactly the used functions of this pass, in the order its computation left them |
| Optimization.Optimizer.Optimize | nuitka/optimizations/Optimization.py:346-362 | passes repeat until one in which no module reported a change, each adding one to the pass count; no known module is lost; without convergence the fuel is used up |
| ImportNodes.TablesNeverStoreUndefined | nuitka/nodes/ImportNodes.py:104-145 | an attribute has a defined trust iff its module's table lists it, since no table stores `trust_undefined` |
| ImportNodes.NodeTrustHasFactory | nuitka/nodes/ImportNodes.py:485-488 | every node-producing attribute has a registered factory |
| ImportNodes.ImportNameError | nuitka/nodes/ImportNodes.py:409-422 | the parts of the message: quoted from 3.4; module from 3.7; location only outside standalone mode, `unknown location` without a file |
| ImportNodes.RenderShowsName | nuitka/nodes/ImportNodes.py:410-422 | the message starts with "cannot import name " followed by the name as shown, and ends with ")" when a location is given |
| ImportNodes.TrustLevelsByModule | nuitka/nodes/ImportNodes.py:102-146 | the tables: node-producing attributes are exactly `sys.version_info` from 2.7 on and `importlib.import_module`; importable ones are the `importlib` sub-packages; only `sys` has may-exist and not-exist entries; `__future__` trusts exactly its feature names; `os`, `types`, `site` and the frozen importlib modules have no table |
| ImportNodes.SysTrustDrivesLookups | nuitka/nodes/ImportNodes.py:108-127 | `sys.version_info` becomes the version-info node from 2.7 and a constant before; a missing `exc_*` attribute becomes a raise on Python 3 and is left alone with a `BaseException` escape on Python 2 |
| ImportNodes.HardImportEscapeMatchesAttribute | nuitka/nodes/ImportNodes.py:148-149 | a hard import may raise (`site` or a non-hard module, which gets no module object at :360-363 and :374-378) iff every attribute lookup on it is left alone with a `BaseException` escape (:427-429) |
| ImportNodes.HardImport.ModuleHard | nuitka/nodes/ImportNodes.py:355-378 | a new module import has found nothing yet, and may raise iff its module is not side-effect free |
| ImportNodes.HardImport.NameHard | nuitka/nodes/ImportNodes.py:528-535 | a new name import holds the table's trust, looked up without a default, and may raise iff the table has no entry (:566-570) |
| ImportNodes.HardImport.ComputeExpressionRaw | nuitka/nodes/ImportNodes.py:321-340 | the recursion is attempted on the first computation only, keeping the file only for a module `_considerImport` took; the module is reported as used iff its file is known (:386-395, :549-557); the node stays and records an escape iff it may raise, `BaseException` for a module import and `AttributeError` for a name import (:396-400, :559-563) |
| ImportNodes.ComputeExpressionAttribute | nuitka/nodes/ImportNodes.py:424-515 | the full trust decision: unknown-module escape, importable and may-exist left alone, missing attribute becomes a raise, undefined trust reported, constant, factory node, or name import |
| ImportNodes.CreatedNameImportsDoNotRaise | nuitka/nodes/ImportNodes.py:496-570 | the name imports the attribute decision creates never raise |
| ImportNodes.ImportModuleRefCall | nuitka/nodes/ImportNodes.py:593-604 | the call always records a `BaseException` escape and is tagged; it becomes the call node, with the matched arguments, iff they fit `(name, package=None)`; ImportModuleCascade shows where that node then leads |
| ImportNodes.ImportModuleCascade | nuitka/nodes/ImportNodes.py:485-490 | the whole `importlib.import_module` chain: the attribute lookup becomes the reference node (:709), which never raises (:566-570), a call of it with string arguments becomes the call node (:593-604), and that call becomes a fixed import of the name resolved against the actual package, or escapes when resolution fails (:667-705) |
| ImportNodes.LeadingDots | nuitka/nodes/ImportNodes.py:645-650 | the count of leading dots: all counted characters are dots and the next is not |
| ImportNodes.LastDot | nuitka/nodes/ImportNodes.py:652-657 | the index of the last dot, or none when there is no dot |
| ImportNodes.StripFailsBeyondTopLevel | nuitka/nodes/ImportNodes.py:652-657 | stripping `n` components fails iff the package has fewer than `n` dots |
| ImportNodes.ResolveImportLibArgs | nuitka/nodes/ImportNodes.py:634-665 | the loop method computes the reference resolution for every name and package |
| ImportNodes.RIndexDot | nuitka/nodes/ImportNodes.py:655 | `rindex(".", 0, end)` finds the last dot before `end`, or fails as the reference says |
| ImportNodes.ResolveSiblingModule | nuitka/nodes/ImportNodes.py:636-660 | one leading dot resolves to `package + "." + rest` |
| ImportNodes.ResolveParentModule | nuitka/nodes/ImportNodes.py:652-660 | two leading dots resolve within the parent package |
| ImportNodes.ResolveBeyondTopLevel | nuitka/nodes/ImportNodes.py:652-657 | a level beyond the top-level package gives no resolution |
| ImportNodes.ResolveAbsolute | nuitka/nodes/ImportNodes.py:662-665 | an absolute name is prefixed by a non-empty package, else returned unchanged |
| ImportNodes.ImportlibCallCompute | nuitka/nodes/ImportNodes.py:667-705 | the call is replaced iff it records no control-flow escape, and otherwise records both escapes; a non-string name, or a package that is neither a string nor None, escapes; a string name is resolved against the package the call actually has (none for a missing or None package) and becomes a fixed import of the result, or escapes when resolution fails |
| ImportNodes.BuiltinImport.constructor | nuitka/nodes/ImportNodes.py:788-821 | a new `__import__` node has attempted nothing and found nothing |
| ImportNodes.BuiltinImport.UsedModules | nuitka/nodes/ImportNodes.py:934-954 | the package modules are always reported, and last; the imported module comes first when the module was found; a module not found reports exactly its packages; a module is reported iff it is a package, or the module was found and it is the imported module or one of the from-list |
| ImportNodes.BuiltinImport.ApplyRecursion | nuitka/nodes/ImportNodes.py:845-932 | the finding and file are recorded, and the found from-list and package modules are appended |
| ImportNodes.BuiltinImport.ComputeExpression | nuitka/nodes/ImportNodes.py:956-1057 | a later computation changes nothing, reports the modules known so far and records `BaseException` if not found, else `RuntimeError`; a name that is not a constant changes nothing and may raise; a non-string constant name becomes a raise; a string name makes the one recursion attempt and records exactly what it found; it is lowered to a hard import iff it resolves to a hard module found in the standard library or built in; otherwise the node stays, reports the modules found, and records a `BaseException` escape unless built in, matching `mayRaiseException` (:1059-1060) |
| ImportNodes.BuiltinImport.ComputeStringName | nuitka/nodes/ImportNodes.py:978-1035 | the first computation with a string name: the recursion answer is recorded exactly; a lowered module is replaced with nothing reported; otherwise the built-in shape and module are remembered iff built in, and the modules found are reported |
| AttributeNodes.Registered | nuitka/nodes/AttributeNodesGenerated.py:67-108 | a registered name maps to the node pair of that very attribute |
| AttributeNodes.RegistryRoundTrip | nuitka/nodes/AttributeNodesGenerated.py:67-108 | every node pair is registered under its own attribute name |
| AttributeNodes.AttributeNamesDistinct | nuitka/nodes/AttributeNodesGenerated.py:28-29 | no two node pairs share a registry key |
| AttributeNodes.ComputeLookup | nuitka/nodes/AttributeNodesGenerated.py:41-85 | dict-typed lookups are fixed points; a generic lookup on an exact dict becomes the dict-typed one unless the attribute is Python-2-only and `str` is not `bytes` (:349); otherwise the source decides, asked with the fixed name; partners SpecialisationIsStable and UnspecialisedLookupDefersToSource |
| AttributeNodes.SpecialisationIsStable | nuitka/nodes/AttributeNodesGenerated.py:41-64 | specialising keeps the attribute and the looked-up dict, tags `new_expression`, leaves whether the lookup may raise unchanged (the dict-typed class inherits `mayRaiseException`), and the result is not specialised further (:84-85) |
| AttributeNodes.UnspecialisedLookupDefersToSource | nuitka/nodes/AttributeNodesGenerated.py:55-58 | a lookup on a value not known to be an exact dict, or a Python-2-only one (:346-364) on Python 3 even on an exact dict, is exactly the source's attribute computation for the fixed name |
| AttributeNodes.LookupMayRaise | nuitka/nodes/AttributeNodesGenerated.py:61-64 | whether a lookup may raise is the source's answer for the fixed attribute name, for both lookup kinds alike, so SpecialisationIsStable can show that specialising never changes it |
| AttributeNodes.ComputeDictCall | nuitka/nodes/AttributeNodesGenerated.py:87-105 | `fromkeys`, `popitem` and `update` have no call handling; the others record a `BaseException` escape and tag `new_expression`; no match leaves the call; a match builds, on the looked-up dict with the matched arguments, the operation node of the called method (the iterating one for `items`, `keys` and `values` where `str` is not `bytes`) that takes exactly that many arguments |
| AttributeNodes.OperationFor | nuitka/nodes/AttributeNodesGenerated.py:303-331 | the operation node computes the called method, and, for an argument count the parameter spec allows, takes exactly that many arguments; OperationsDistinct makes this pin down one node per attribute, dialect and count |
| AttributeNodes.DefaultSelectsArity | nuitka/nodes/AttributeNodesGenerated.py:303-331 | a given default selects `get`'s, `pop`'s or `setdefault`'s own 3-ary node, and a missing one its 2-ary node (also :884-916, :1031-1066) |
| AttributeNodes.ViewMethodsByDialect | nuitka/nodes/AttributeNodesGenerated.py:471-484 | `items`, `keys` and `values` give the list operations when `str is bytes`, else the iterating ones |
| AttributeNodes.CascadeReachesOperation | nuitka/nodes/AttributeNodesGenerated.py:41-105 | on an exact dict, a lookup followed by a matched call ends in the operation on that dict |
| SubscriptNodes.ComputeAssignSubscript | nuitka/nodes/SubscriptNodes.py:47-60 | a replacement from the children is returned as is; only an unchanged statement asks the subscribed expression, with the subscript and the assigned value; partner AssignSubscriptStages |
| SubscriptNodes.AssignSubscriptStages | nuitka/nodes/SubscriptNodes.py:47-60 | a children replacement is final whatever the subscribed expression would answer; the statement is handed back unchanged iff both stages keep it |
| SubscriptNodes.ComputeDelSubscript | nuitka/nodes/SubscriptNodes.py:79-91 | the same two stages for deletion, asking with the subscript only; partner DelSubscriptStages |
| SubscriptNodes.DelSubscriptStages | nuitka/nodes/SubscriptNodes.py:79-91 | a children replacement is final whatever the subscribed expression would answer; the deletion is handed back unchanged iff both stages keep it |
| SubscriptNodes.WrapWithSideEffects | nuitka/nodes/SubscriptNodes.py:166-167 | wrapping keeps the value and puts the replaced node's side effects first |
| SubscriptNodes.ComputeSubscriptCheck | nuitka/nodes/SubscriptNodes.py:147-173 | two constant operands fold to the `hasSubscript` answer, tagged and without escape, keeping the source's side effects; otherwise the node stays with a `BaseException` escape |
| SubscriptNodes.CheckEscapeVersusMayRaise | nuitka/nodes/SubscriptNodes.py:153-181 | a check records no escape iff both operands are constant, and is then replaced; a check left in place records a `BaseException` escape although `mayRaiseException` and `mayRaiseExceptionBool` answer no, a conservative record |
| SubscriptNodes.FoldedCheckIsReplaced | nuitka/nodes/SubscriptNodes.py:153-169 | a check with two constant operands is always replaced |
| ExecEvalNodes.CouldBeNoneKinds | nuitka/nodes/ExecEvalNodes.py:96-106 | `_couldBeNone` answers no exactly for make-dict, `globals()`, `locals()`, `dir()` and `vars()` nodes, and yes for no node, a `None` constant and unknown kinds |
| ExecEvalNodes.ExecWithoutLocalsDict | nuitka/nodes/ExecEvalNodes.py:96-138 | exec needs no locals dictionary iff globals is an explicit dictionary other than `locals()` and locals is not `locals()` |
| ExecEvalNodes.LocalsDictByForm | nuitka/nodes/ExecEvalNodes.py:73-92 | across the exec statement, inline exec (:206-207), builtin exec (Python 3) and execfile (Python 2): eval alone has no answer of its own, and the exec statement with an explicit dictionary other than `locals()` as globals and a locals that is not `locals()` is the only form that needs no locals dictionary |
| ExecEvalNodes.ConvertNoneConstantToNone | nuitka/nodes/ExecEvalNodes.py:125-127 | a `None` constant becomes no node, and anything else stays |
| ExecEvalNodes.ExecStatement.constructor | nuitka/nodes/ExecEvalNodes.py:113-123 | the three slots hold the given children |
| ExecEvalNodes.ExecStatement.SetChild | nuitka/nodes/ExecEvalNodes.py:125-129 | globals and locals turn a `None` constant into no node, source stores the value as given, and the other slots are unchanged |
| ExecEvalNodes.ExecStatement.NoLocalsDictIffExplicitDict | nuitka/nodes/ExecEvalNodes.py:135-138 | the statement's `needsLocalsDict` answers no iff its slots hold an explicit dictionary other than `locals()` as globals and a locals that is not `locals()` |
| ExecEvalNodes.NoneConstantsInSlots | nuitka/nodes/ExecEvalNodes.py:125-138 | a `None` constant as globals makes exec need a locals dictionary; as locals it acts as no locals |
| ExecEvalNodes.CreateProvidedVariable | nuitka/nodes/ExecEvalNodes.py:190-204 | in a module the module's variable, in a function a local of that function, with the asked name |
| ExecEvalNodes.ProvideIdempotent | nuitka/nodes/ExecEvalNodes.py:166-179 | asking twice gives the same variable and the same registry |
| ExecEvalNodes.ProvideKeepsNames | nuitka/nodes/ExecEvalNodes.py:166-179 | the registry stays keyed by variable name, and earlier entries are kept |
| ExecEvalNodes.ExecInlineStatement.constructor | nuitka/nodes/ExecEvalNodes.py:149-161 | inline exec starts with nothing provided and nothing registered |
| ExecEvalNodes.ExecInlineStatement.GetVariableForAssignment | nuitka/nodes/ExecEvalNodes.py:166-179 | a provided variable is returned without registering it again; a new one is created, provided and registered once |
| ExecEvalNodes.ExecInlineStatement.GetVariableForReference | nuitka/nodes/ExecEvalNodes.py:181-188 | a reference behaves as an assignment |
| WithStatements.NestedStep | nuitka/tree/ReformulationWithStatements.py:344-355 | each step of the reversed walk wraps the body built so far in the next context manager's `with` |
| WithStatements.BuildWithNode | nuitka/tree/ReformulationWithStatements.py:324-388 | for a non-empty item list with equal lengths, the reversed walk builds the nesting with the first context manager outermost and the body innermost |
| WithStatements.ExecSourceAssignment | nuitka/tree/ReformulationWithStatements.py:184-189 | storing the source evaluates the context once; it raises exactly when the context raises, and otherwise assigns the source temporary |
| WithStatements.ExecEnterAssignment | nuitka/tree/ReformulationWithStatements.py:191-202 | the enter assignment raises exactly when the enter lookup, the enter call or (for `async with` before 3.9) its immediate await raises; otherwise it records those steps and stores the entered value |
| WithStatements.ExecExitAssignment | nuitka/tree/ReformulationWithStatements.py:204-214 | the exit assignment raises exactly when the exit lookup raises; otherwise it stores the exit method |
| WithStatements.AttributesRun | nuitka/tree/ReformulationWithStatements.py:216-246 | in every version order the lookups raise exactly when a lookup, the enter call or the enter await raises; otherwise they record the version's order and leave the exit method stored |
| WithStatements.EnterThenExitRuns | nuitka/tree/ReformulationWithStatements.py:241-242 | enter then exit: raises exactly when either step raises; otherwise the enter events precede the exit lookup |
| WithStatements.ExitThenEnterRuns | nuitka/tree/ReformulationWithStatements.py:243-244 | exit then enter: raises exactly when either step raises; otherwise the exit lookup precedes the enter events |
| WithStatements.ExecEnterAwait | nuitka/tree/ReformulationWithStatements.py:221-234 | the late await of the entered value raises exactly when the await raises; otherwise it records one await and changes only the enter temporary |
| WithStatements.SetupRuns | nuitka/tree/ReformulationWithStatements.py:184-254 | the setup raises exactly when the context, an enter or exit lookup, the enter call or an enter await raises; otherwise it records the setup events and leaves the exit method and a set indicator |
| WithStatements.ExitCallRuns | nuitka/tree/ReformulationWithStatements.py:146-182 | the exit call is recorded once, with or without the exception, and awaited by `async with` unless the call raised; it raises exactly when the call or its await raises; otherwise, with an exception, its truth is exit's answer |
| WithStatements.HandlerRuns | nuitka/tree/ReformulationWithStatements.py:263-284 | the handler clears the indicator first and calls exit with the exception; it raises exactly when exit raises or answers false |
| WithStatements.FinalExitRuns | nuitka/tree/ReformulationWithStatements.py:288-301 | the final block calls exit without an exception exactly when the indicator is still set, and raises exactly when it calls exit and exit raises |
| WithStatements.GuardedRuns | nuitka/tree/ReformulationWithStatements.py:256-304 | after the `with` body exit runs once, with the exception exactly when the body raised; the guarded part raises exactly when exit raises, or the body raised and exit answers false, and otherwise leaves early exactly when the body did |
| WithStatements.ReleasesRun | nuitka/tree/ReformulationWithStatements.py:306-321 | the releases never raise and release source, enter and exit in that order |
| WithStatements.TargetBinding | nuitka/tree/ReformulationWithStatements.py:96-111 | the `with` body binds the target to the entered value, if there is a target; a raising binding skips the user body, and otherwise the user body runs from after the binding |
| WithStatements.WithSemantics | nuitka/tree/ReformulationWithStatements.py:72-321 | one `with` (`_buildWithNode`) whose setup completes: setup, `with` body, exactly one exit call (with the exception exactly when the body raised), then the releases; the statement raises exactly when exit raises, or the body raised and exit answered false, and otherwise leaves by `return`, `break` or `continue` exactly when the body did |
| WithStatements.WithSetupFails | nuitka/tree/ReformulationWithStatements.py:184-321 | one `with` whose context, lookups, enter call or enter await raises: exit is never called, the three temporaries are still released, and the statement raises |
| WithStatements.ExitRunsOnce | nuitka/tree/ReformulationWithStatements.py:248-301 | a `with` whose setup completes makes exactly one exit call beyond those of its `with` body, whether the body completed, raised or left early and whether exit raises or not |
| WithStatements.WithEarlyExit | nuitka/tree/ReformulationWithStatements.py:256-321 | a body that leaves by `return`, `break` or `continue`: the final block calls exit once without the exception, the temporaries are then released, and the statement leaves by the same exit unless exit raises |
| WithStatements.InnerKeepsScope | nuitka/tree/ReformulationWithStatements.py:79-94 | each item has a temporary scope of its own, so the inner items and a body that avoids the items' scopes leave an outer item's exit method and indicator as its setup left them |
| WithStatements.NestedExitsOnce | nuitka/tree/ReformulationWithStatements.py:344-357 | several context managers that all open, around a body without exit calls that avoids their scopes, make exactly one exit call each |
| WithStatements.LookupOrderByVersion | nuitka/tree/ReformulationWithStatements.py:216-244 | enter is looked up before exit for `with` from 3.6 and `async with` from 3.9; otherwise exit comes first |
| WithStatements.SourceAssignedFirst | nuitka/tree/ReformulationWithStatements.py:184-246 | the context is evaluated and stored before the first lookup |
| WithStatements.AsyncEnterAwaitPosition | nuitka/tree/ReformulationWithStatements.py:191-240 | from 3.9 `async with` awaits the entered value after the exit lookup; before 3.9 right after the enter call |
| WithStatements.SetupEvaluatesContext | nuitka/tree/ReformulationWithStatements.py:184-189 | the setup evaluates its own context expression and no other |
| WithStatements.WithRunsBodyFirst | nuitka/tree/ReformulationWithStatements.py:96-304 | for a setup that completes, what runs before the user body is the setup and the target binding, and the `with` body's run is a prefix of the statement's run |
| WithStatements.NestedOpensInOrder | nuitka/tree/ReformulationWithStatements.py:344-357 | when every item opens, a nested `with` first runs the setups of all its context managers, outermost first |
| WithStatements.OpeningEvaluatesInOrder | nuitka/tree/ReformulationWithStatements.py:344-357 | the context expressions are evaluated in source order |

## Left out

- Optimization.Optimizer.Optimize: the compiler repeats passes with no cap.
  The model bounds the further passes by `fuel` and promises convergence
  only when it is reached within that bound.
- Optimization.Optimizer.OptimizeCompiledPythonModule: it requires the
  oracle's report sequence to contain a stopping pass. The compiler's loop
  has no cap, and it would not end otherwise.
- Optimization.Optimizer.AddUsedModule: the module registry
  (`ModuleRegistry`) is not part of this model. It is modelled as a pending
  queue and a done list with distinct names. `startTraversal`, `nextModule`
  and `addUsedModule` are written as methods on those.
- `optimizeUncompiledPythonModule` and `optimizeShlibModule` are reduced to
  "no change". The model leaves out the used-module registration of
  uncompiled modules, the attempted recursion of shared libraries, and
  implicit imports from plugins (`Plugins.considerImplicitImports`).
- The driver has no progress bars, memory watching, logging, `Graphs`
  output or demotion of modules to bytecode.
- `computeModule` is an oracle. Its answer per campaign pass and module
  is the pass reports, the functions child and used functions it leaves,
  and the modules it brings in; the model registers those after the
  computation, where the compiler registers each as it is found, which
  gives the same queue. A compiled module's used functions are also taken
  to hold a trace collection afterwards.
- The `NuitkaForbiddenImportEncounter` handler that ends compilation
  (nuitka/optimizations/Optimization.py:103-104) is not modelled: the
  oracle's reports never raise.
- The bodies of `_attemptRecursion`, `findModule`, `_considerImport`,
  `decideRecursion`, `recurseTo` and `isStandardLibraryPath` are oracles
  too; their findings enter as a `Recursion` value.
- `resolveModuleName` (nuitka/importing/ImportResolving.py) is not part of
  this model. It enters `__import__`'s computation as the `resolve`
  parameter.
- ImportNodes.HardImport.ComputeExpressionRaw: it requires that a module
  whose recursion is still to be attempted is not reported as not found.
  The compiler asserts the same at nuitka/nodes/ImportNodes.py:330-331.
- `hard_modules_version`, the first version each hard module exists in, is
  not modelled: none of the modelled code reads it.
- The warning about a standard library module used from outside its path
  is not modelled (logging only).
- Host reflection enters as parameters: `hasattr`, `getattr`, `__file__`,
  `__import__`, `sys.builtin_module_names` and `hasSubscript`. The node
  type shapes are not modelled.
- Non-string constant `__import__` names are raised at compile time in the
  compiler. The model shows this as a `RaiseImportTypeError` node tagged
  `new_raise`, without the exception value.
- ImportNodes.Repr: a Python `repr` of a string is modelled as wrapping it
  in single quotes. This is exact only for names without quotes or
  backslashes.
- `extractBuiltinArgs` and the builtin parameter specs are not part of this
  model. Their argument matching is an input: the matched arguments, or no
  match.
- AttributeNodes.ComputeDictCall: it requires the matched argument count to
  fit the attribute's parameter spec. This is what `extractBuiltinArgs`
  ensures.
- The generic call handling of lookups without their own call handling is
  not part of this model. That covers `fromkeys`, `popitem`, `update` and
  the generic fixed-name lookups.
- `ExpressionSubscriptLookup` (nuitka/nodes/SubscriptNodes.py:110-119)
  makes no decision of its own: `computeExpression` is the subscribed
  expression's answer and `isKnownToBeIterable` is `None`. The functions
  SubscriptNodes.ComputeSubscriptLookup and LookupKnownToBeIterable model
  them and carry no contract, since nothing holds of them beyond that.
- `computeStatementSubExpressions` and the sub-expression answers are
  inputs. These are `computeExpressionSetSubscript`,
  `computeExpressionDelSubscript` and `computeExpressionSubscript`.
- The base class's `getProvidedVariable` and `registerProvidedVariable` are
  not part of this model. As a modelling choice, the first is taken to be a
  memo map from names to variables, and the calls of the second are recorded
  in the `registered` sequence, so that the contracts can say which
  variables were registered and how often.
- Eval's `needsLocalsDict` comes from its base class and is not part of
  this model.
- `CPythonExpressionBuiltinEval.computeNode` (nuitka/nodes/ExecEvalNodes.py:68-70)
  returns the node itself with no tag. Builtin exec and execfile inherit it.
  The model has no member for it, since it decides nothing.
- `with` reformulation leaves out several things:
  - source references and the `deepest` loop that picks the exit line
    number;
  - the full-compatibility option;
  - the caught exception tuple passed to exit;
  - the exception values themselves: the interpreter records only whether
    a statement raises.
- WithStatements.WithSemantics: for an arbitrary user body it assumes that
  the body leaves its own `with`'s exit temporary and indicator alone
  (`BodyKeepsScope`). In the compiler this holds because each `with`
  allocates a fresh temporary scope. InnerKeepsScope proves it for the
  bodies the nesting builds.
- WithStatements.NestedExitsOnce: it counts exit calls only when every item
  opens. When an inner item's setup or target raises, the outer items that
  opened still call exit once each. The model states this one level at a
  time (WithSetupFails, ExitRunsOnce), not as one count for the nesting.
- WithStatements.NestedOpensInOrder: it describes the opening only when
  every item opens. A raising setup cuts it short, as WithSetupFails states
  for that level.
- A raising step of the `with` interpreter is still recorded in the trace:
  an exit call that raises counts as a call.
- Two files are not part of this model: the PySide/PyQt plugin, which is
  packaging plumbing, and the numpy benchmark script.
