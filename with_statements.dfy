/** The reformulation of `with` and `async with` statements into temporary
    variables, a try/except that hands the exception to `__exit__`, and a
    try/finally that calls `__exit__` on the normal path and releases the
    temporaries.

    The built statements are given a meaning by a small interpreter that
    records what happens (the context evaluated, attributes looked up, calls,
    awaits, assignments, releases) as a trace. Which steps raise (the context
    expression, each lookup, call and await of a scope, the target
    assignment, a user body) and what `__exit__` answers when handed an
    exception are inputs of the interpreter (`World`). */
module WithStatements {
  import opened Common

  // ---------------------------------------------------------------------------
  // The statements a reformulated `with` is made of

  /** Each `with` allocates its own temporary scope with four variables. */
  datatype Role = SourceVar | EnterVar | ExitVar | IndicatorVar
  datatype TempVar = TempVar(scope: nat, role: Role)

  datatype Expr =
    | ContextExpr(id: nat)
    | TempRef(v: TempVar)
    /** An attribute lookup; `special` for the lookup of special methods that
        Python 2.7 and later use. */
    | AttributeLookup(expression: Expr, name: string, special: bool)
    | CallEmpty(called: Expr)
    /** A call of the exit method with the caught exception, or with
        `(None, None, None)`. */
    | CallExit(called: Expr, withException: bool)
    | AwaitEnter(awaited: Expr)
    | AwaitExit(awaited: Expr)
    | ConstBool(b: bool)
    /** `indicator is True`. */
    | IndicatorIsTrue(v: TempVar)

  datatype Stmt =
    | Assign(v: TempVar, e: Expr)
    /** The assignment to the `as` target, an opaque target of the parse tree. */
    | AssignTarget(target: nat, e: Expr)
    /** User code, an opaque statement of the parse tree. */
    | UserBody(id: nat)
    | Release(v: TempVar)
    | TryFinally(tried: seq<Stmt>, final: seq<Stmt>)
    /** A handler for `BaseException` that publishes the exception when
        `publish` holds. */
    | TryExcept(tried: seq<Stmt>, handler: seq<Stmt>, publish: bool)
    | If(cond: Expr, yes: seq<Stmt>, no: seq<Stmt>)
    | Reraise
    | ExprOnly(e: Expr)

  function EnterName(sync: bool): string
  {
    if sync then "__enter__" else "__aenter__"
  }

  function ExitName(sync: bool): string
  {
    if sync then "__exit__" else "__aexit__"
  }

  /** The value assigned to the enter temporary: the call of the enter method,
      awaited at once by `async with` before Python 3.9. */
  function EnterValue(scope: nat, sync: bool, version: Version): Expr
  {
    var call := CallEmpty(AttributeLookup(TempRef(TempVar(scope, SourceVar)), EnterName(sync), version >= Py27));
    if !sync && version < Py39 then AwaitEnter(call) else call
  }

  function EnterAssignment(scope: nat, sync: bool, version: Version): Stmt
  {
    Assign(TempVar(scope, EnterVar), EnterValue(scope, sync, version))
  }

  function ExitAssignment(scope: nat, sync: bool, version: Version): Stmt
  {
    Assign(TempVar(scope, ExitVar),
           AttributeLookup(TempRef(TempVar(scope, SourceVar)), ExitName(sync), version >= Py27))
  }

  /** The lookups of enter and exit, in the order the version prescribes. */
  function AttributeAssignments(scope: nat, sync: bool, version: Version): seq<Stmt>
  {
    if version >= Py39 && !sync then
      [EnterAssignment(scope, sync, version), ExitAssignment(scope, sync, version),
       Assign(TempVar(scope, EnterVar), AwaitEnter(TempRef(TempVar(scope, EnterVar))))]
    else if version >= Py36 && sync then
      [EnterAssignment(scope, sync, version), ExitAssignment(scope, sync, version)]
    else
      [ExitAssignment(scope, sync, version), EnterAssignment(scope, sync, version)]
  }

  /** The statements before the guarded part: the source first, then the
      lookups, then the indicator set to True. */
  function SetupStatements(scope: nat, ctx: nat, sync: bool, version: Version): seq<Stmt>
  {
    [Assign(TempVar(scope, SourceVar), ContextExpr(ctx))]
      + AttributeAssignments(scope, sync, version)
      + [Assign(TempVar(scope, IndicatorVar), ConstBool(true))]
  }

  /** The exit call; `async with` awaits it. */
  function ExitCall(scope: nat, sync: bool, withException: bool): Expr
  {
    var call := CallExit(TempRef(TempVar(scope, ExitVar)), withException);
    if sync then call else AwaitExit(call)
  }

  /** The `with` body: the assignment of the entered value to the target, if
      there is one, then the body. */
  function WithBody(scope: nat, target: Option<nat>, body: seq<Stmt>): seq<Stmt>
  {
    (if target.Some? then [AssignTarget(target.value, TempRef(TempVar(scope, EnterVar)))] else []) + body
  }

  /** The handler: clear the indicator, then re-raise unless exit answers true. */
  function Handler(scope: nat, sync: bool): seq<Stmt>
  {
    [Assign(TempVar(scope, IndicatorVar), ConstBool(false)),
     If(ExitCall(scope, sync, true), [], [Reraise])]
  }

  /** The final block: exit with `(None, None, None)` if the indicator is still set. */
  function FinalExit(scope: nat, sync: bool): seq<Stmt>
  {
    [If(IndicatorIsTrue(TempVar(scope, IndicatorVar)), [ExprOnly(ExitCall(scope, sync, false))], [])]
  }

  function Guarded(scope: nat, target: Option<nat>, body: seq<Stmt>, sync: bool, version: Version): Stmt
  {
    TryFinally([TryExcept(WithBody(scope, target, body), Handler(scope, sync), version >= Py27)],
               FinalExit(scope, sync))
  }

  function Releases(scope: nat): seq<Stmt>
  {
    [Release(TempVar(scope, SourceVar)), Release(TempVar(scope, EnterVar)), Release(TempVar(scope, ExitVar))]
  }

  /** `_buildWithNode` for one context manager, in temporary scope `scope`. */
  function WithNode(scope: nat, ctx: nat, target: Option<nat>, body: seq<Stmt>, sync: bool, version: Version): Stmt
  {
    TryFinally(SetupStatements(scope, ctx, sync, version) + [Guarded(scope, target, body, sync, version)],
               Releases(scope))
  }

  // ---------------------------------------------------------------------------
  // Several context managers

  /** The nesting of several context managers: the first is outermost and
      the body innermost. The scopes count up from the innermost one, in the
      order the builder allocates them. */
  function Nested(contexts: seq<nat>, targets: seq<Option<nat>>, body: seq<Stmt>, sync: bool, version: Version,
                  firstScope: nat): seq<Stmt>
    requires |contexts| == |targets|
  {
    if contexts == [] then body
    else [WithNode(firstScope + |contexts| - 1, contexts[0], targets[0],
                   Nested(contexts[1..], targets[1..], body, sync, version, firstScope), sync, version)]
  }

  /** The last `i + 1` items wrap the last `i` in one more `with`, whose
      scope is the `i`-th allocated. */
  lemma NestedStep(contexts: seq<nat>, targets: seq<Option<nat>>, body: seq<Stmt>, sync: bool, version: Version,
                   firstScope: nat, i: nat)
    requires |contexts| == |targets| && i < |contexts|
    ensures Nested(contexts[|contexts| - 1 - i..], targets[|contexts| - 1 - i..], body, sync, version, firstScope)
            == [WithNode(firstScope + i, contexts[|contexts| - 1 - i], targets[|contexts| - 1 - i],
                         Nested(contexts[|contexts| - i..], targets[|contexts| - i..], body, sync, version, firstScope),
                         sync, version)]
  {
    var k := |contexts| - 1 - i;
    assert contexts[k..][1..] == contexts[k + 1..];
    assert targets[k..][1..] == targets[k + 1..];
  }

  /** `buildWithNode` (`sync`) and `buildAsyncWithNode` (not `sync`): the item
      lists are walked in reverse, each step wrapping the body built so far.
      `firstScope` is the first temporary scope the walk allocates. */
  method BuildWithNode(contexts: seq<nat>, targets: seq<Option<nat>>, body: seq<Stmt>, sync: bool, version: Version,
                       firstScope: nat) returns (r: seq<Stmt>)
    requires |contexts| > 0 && |contexts| == |targets|
    ensures r == Nested(contexts, targets, body, sync, version, firstScope)
  {
    var n := |contexts|;
    r := body;
    var i := 0;
    while i < n
      invariant 0 <= i <= n
      invariant r == Nested(contexts[n - i..], targets[n - i..], body, sync, version, firstScope)
    {
      NestedStep(contexts, targets, body, sync, version, firstScope, i);
      r := [WithNode(firstScope + i, contexts[n - 1 - i], targets[n - 1 - i], r, sync, version)];
      i := i + 1;
    }
    assert contexts[0..] == contexts && targets[0..] == targets;
  }

  // ---------------------------------------------------------------------------
  // What the statements do

  datatype Val = Obj | Bool(b: bool) | Method(name: string)

  /** What happens. A step that raises is recorded, and nothing after it in
      the same statement runs. */
  datatype Event =
    | ContextEvaluated(id: nat)
    | Looked(name: string)
    | Called(name: string)
    | ExitCalled(name: string, withException: bool)
    | Awaited
    | Assigned(v: TempVar)
    | TargetBound(target: nat)
    | BodyRan(id: nat)
    | Released(v: TempVar)

  /** The steps of a scope that may raise: an attribute lookup, the enter
      call, the await of the entered value, the exit call and its await. */
  datatype Site = LookupSite(name: string) | EnterCallSite | EnterAwaitSite | ExitCallSite(withException: bool) | ExitAwaitSite

  /** Which steps raise, how each user body completes, and whether the exit
      method of a scope answers true when it is handed an exception. */
  datatype World = World(contextRaises: nat -> bool, raisesAt: (nat, Site) -> bool, targetRaises: nat -> bool,
                         bodyStatus: nat -> Status, exitSuppresses: nat -> bool)

  datatype State = State(vars: map<TempVar, Val>, trace: seq<Event>)

  /** How a statement completes: normally, by an exception, or by leaving
      early through `return`, `break` or `continue`. */
  datatype Status = Normal | Raising | Exiting

  function Log(st: State, e: Event): State
  {
    st.(trace := st.trace + [e])
  }

  function Truthy(v: Val): bool
  {
    match v
    case Bool(b) => b
    case _ => true
  }

  function NameOf(v: Val): string
  {
    if v.Method? then v.name else ""
  }

  /** The scope whose temporary an expression starts from. */
  function ScopeIn(e: Expr): nat
  {
    match e
    case TempRef(v) => v.scope
    case AttributeLookup(x, _, _) => ScopeIn(x)
    case CallEmpty(f) => ScopeIn(f)
    case CallExit(f, _) => ScopeIn(f)
    case AwaitEnter(x) => ScopeIn(x)
    case AwaitExit(x) => ScopeIn(x)
    case _ => 0
  }

  /** The value, the new state, and whether the evaluation raised. */
  function Eval(w: World, e: Expr, st: State): (Val, State, bool)
  {
    match e
    case ContextExpr(id) => (Obj, Log(st, ContextEvaluated(id)), w.contextRaises(id))
    case TempRef(v) => (if v in st.vars then st.vars[v] else Obj, st, false)
    case AttributeLookup(x, name, _) =>
      var (_, st1, r1) := Eval(w, x, st);
      if r1 then (Obj, st1, true)
      else (Method(name), Log(st1, Looked(name)), w.raisesAt(ScopeIn(x), LookupSite(name)))
    case CallEmpty(f) =>
      var (fv, st1, r1) := Eval(w, f, st);
      if r1 then (Obj, st1, true)
      else (Obj, Log(st1, Called(NameOf(fv))), w.raisesAt(ScopeIn(f), EnterCallSite))
    case CallExit(f, withException) =>
      var (fv, st1, r1) := Eval(w, f, st);
      if r1 then (Obj, st1, true)
      else (if withException then Bool(w.exitSuppresses(ScopeIn(f))) else Obj,
            Log(st1, ExitCalled(NameOf(fv), withException)), w.raisesAt(ScopeIn(f), ExitCallSite(withException)))
    case AwaitEnter(x) =>
      var (v, st1, r1) := Eval(w, x, st);
      if r1 then (Obj, st1, true) else (v, Log(st1, Awaited), w.raisesAt(ScopeIn(x), EnterAwaitSite))
    case AwaitExit(x) =>
      var (v, st1, r1) := Eval(w, x, st);
      if r1 then (Obj, st1, true) else (v, Log(st1, Awaited), w.raisesAt(ScopeIn(x), ExitAwaitSite))
    case ConstBool(b) => (Bool(b), st, false)
    case IndicatorIsTrue(v) => (Bool(v in st.vars && st.vars[v] == Bool(true)), st, false)
  }

  function Exec(w: World, s: Stmt, st: State): (State, Status)
    decreases s
  {
    match s
    case Assign(v, e) =>
      var (x, st1, r) := Eval(w, e, st);
      if r then (st1, Raising) else (State(st1.vars[v := x], st1.trace + [Assigned(v)]), Normal)
    case AssignTarget(t, e) =>
      var (_, st1, r) := Eval(w, e, st);
      if r then (st1, Raising) else (Log(st1, TargetBound(t)), if w.targetRaises(t) then Raising else Normal)
    case UserBody(id) => (Log(st, BodyRan(id)), w.bodyStatus(id))
    case Release(v) => (State(st.vars - {v}, st.trace + [Released(v)]), Normal)
    case TryFinally(tried, final) =>
      var (st1, s1) := ExecSeq(w, tried, st);
      var (st2, s2) := ExecSeq(w, final, st1);
      (st2, if s2 != Normal then s2 else s1)
    case TryExcept(tried, handler, _) =>
      var (st1, s1) := ExecSeq(w, tried, st);
      if s1 == Raising then ExecSeq(w, handler, st1) else (st1, s1)
    case If(c, yes, no) =>
      var (cv, st1, r) := Eval(w, c, st);
      if r then (st1, Raising) else if Truthy(cv) then ExecSeq(w, yes, st1) else ExecSeq(w, no, st1)
    case Reraise => (st, Raising)
    case ExprOnly(e) =>
      var (_, st1, r) := Eval(w, e, st);
      (st1, if r then Raising else Normal)
  }

  function ExecSeq(w: World, ss: seq<Stmt>, st: State): (State, Status)
    decreases ss
  {
    if ss == [] then (st, Normal)
    else
      var (st1, s1) := Exec(w, ss[0], st);
      if s1 != Normal then (st1, s1) else ExecSeq(w, ss[1..], st1)
  }

  lemma ExecSeqCons(w: World, s: Stmt, rest: seq<Stmt>, st: State)
    ensures ExecSeq(w, [s] + rest, st) ==
      if Exec(w, s, st).1 != Normal then Exec(w, s, st) else ExecSeq(w, rest, Exec(w, s, st).0)
  {
    assert ([s] + rest)[0] == s && ([s] + rest)[1..] == rest;
  }

  lemma {:induction false} ExecSeqAppend(w: World, a: seq<Stmt>, b: seq<Stmt>, st: State)
    ensures ExecSeq(w, a + b, st) ==
      if ExecSeq(w, a, st).1 != Normal then ExecSeq(w, a, st) else ExecSeq(w, b, ExecSeq(w, a, st).0)
  {
    if a == [] {
      assert a + b == b;
    } else {
      assert a + b == [a[0]] + (a[1..] + b);
      ExecSeqCons(w, a[0], a[1..] + b, st);
      ExecSeqCons(w, a[0], a[1..], st);
      assert [a[0]] + a[1..] == a;
      ExecSeqAppend(w, a[1..], b, Exec(w, a[0], st).0);
    }
  }

  lemma ExecSeqSingle(w: World, s: Stmt, st: State)
    ensures ExecSeq(w, [s], st) == Exec(w, s, st)
  {
    ExecSeqCons(w, s, [], st);
  }

  /** Two statements: the second runs only when the first completes. */
  lemma ExecSeqPair(w: World, first: Stmt, second: Stmt, st: State)
    ensures ExecSeq(w, [first, second], st) ==
      if Exec(w, first, st).1 != Normal then Exec(w, first, st) else Exec(w, second, Exec(w, first, st).0)
  {
    assert [first, second] == [first] + [second];
    ExecSeqCons(w, first, [second], st);
    ExecSeqSingle(w, second, Exec(w, first, st).0);
  }

  // ---------------------------------------------------------------------------
  // The setup part

  /** The events of the enter lookup and call, and of its immediate await,
      when none of them raises. */
  function EnterEvents(sync: bool, version: Version): seq<Event>
  {
    [Looked(EnterName(sync)), Called(EnterName(sync))] + (if !sync && version < Py39 then [Awaited] else [])
  }

  /** The events of the enter and exit lookups, in the version's order. */
  function LookupEvents(scope: nat, sync: bool, version: Version): seq<Event>
  {
    var enter := EnterEvents(sync, version) + [Assigned(TempVar(scope, EnterVar))];
    var exit := [Looked(ExitName(sync)), Assigned(TempVar(scope, ExitVar))];
    if version >= Py39 && !sync then enter + exit + [Awaited, Assigned(TempVar(scope, EnterVar))]
    else if version >= Py36 && sync then enter + exit
    else exit + enter
  }

  /** The events of a setup that completes. */
  function SetupEvents(scope: nat, ctx: nat, sync: bool, version: Version): seq<Event>
  {
    [ContextEvaluated(ctx), Assigned(TempVar(scope, SourceVar))]
      + LookupEvents(scope, sync, version)
      + [Assigned(TempVar(scope, IndicatorVar))]
  }

  /** The enter assignment raises: the lookup, the call, or the immediate
      await of `async with` before Python 3.9. */
  predicate EnterFails(w: World, scope: nat, sync: bool, version: Version)
  {
    w.raisesAt(scope, LookupSite(EnterName(sync))) || w.raisesAt(scope, EnterCallSite)
    || (!sync && version < Py39 && w.raisesAt(scope, EnterAwaitSite))
  }

  /** No step of the setup raises, in any version. */
  predicate SetupSucceeds(w: World, scope: nat, ctx: nat, sync: bool)
  {
    !w.contextRaises(ctx)
    && !w.raisesAt(scope, LookupSite(EnterName(sync))) && !w.raisesAt(scope, EnterCallSite)
    && (!sync ==> !w.raisesAt(scope, EnterAwaitSite))
    && !w.raisesAt(scope, LookupSite(ExitName(sync)))
  }

  lemma ExecEnterAssignment(w: World, scope: nat, sync: bool, version: Version, st: State)
    ensures Exec(w, EnterAssignment(scope, sync, version), st).1 ==
      if EnterFails(w, scope, sync, version) then Raising else Normal
    ensures !EnterFails(w, scope, sync, version) ==>
      Exec(w, EnterAssignment(scope, sync, version), st).0 ==
      State(st.vars[TempVar(scope, EnterVar) := Obj],
            st.trace + EnterEvents(sync, version) + [Assigned(TempVar(scope, EnterVar))])
  {
    var src := TempRef(TempVar(scope, SourceVar));
    var lookup := AttributeLookup(src, EnterName(sync), version >= Py27);
    var call := CallEmpty(lookup);
    var st1 := Log(st, Looked(EnterName(sync)));
    assert Eval(w, lookup, st) == (Method(EnterName(sync)), st1, w.raisesAt(scope, LookupSite(EnterName(sync))));
    var st2 := Log(st1, Called(EnterName(sync)));
    if w.raisesAt(scope, LookupSite(EnterName(sync))) {
      assert Eval(w, call, st) == (Obj, st1, true);
    } else {
      assert Eval(w, call, st) == (Obj, st2, w.raisesAt(scope, EnterCallSite));
      assert st2.trace == st.trace + [Looked(EnterName(sync)), Called(EnterName(sync))];
      if !sync && version < Py39 {
        if w.raisesAt(scope, EnterCallSite) {
          assert Eval(w, AwaitEnter(call), st) == (Obj, st2, true);
        } else {
          assert Eval(w, AwaitEnter(call), st) == (Obj, Log(st2, Awaited), w.raisesAt(scope, EnterAwaitSite));
          assert Log(st2, Awaited).trace == st.trace + EnterEvents(sync, version);
        }
      } else {
        assert st2.trace == st.trace + EnterEvents(sync, version);
      }
    }
  }

  lemma ExecExitAssignment(w: World, scope: nat, sync: bool, version: Version, st: State)
    ensures Exec(w, ExitAssignment(scope, sync, version), st).1 ==
      if w.raisesAt(scope, LookupSite(ExitName(sync))) then Raising else Normal
    ensures !w.raisesAt(scope, LookupSite(ExitName(sync))) ==>
      Exec(w, ExitAssignment(scope, sync, version), st).0 ==
      State(st.vars[TempVar(scope, ExitVar) := Method(ExitName(sync))],
            st.trace + [Looked(ExitName(sync)), Assigned(TempVar(scope, ExitVar))])
  {
    var st1 := Log(st, Looked(ExitName(sync)));
    assert Eval(w, ExitAssignment(scope, sync, version).e, st)
           == (Method(ExitName(sync)), st1, w.raisesAt(scope, LookupSite(ExitName(sync))));
    assert st1.trace + [Assigned(TempVar(scope, ExitVar))]
           == st.trace + [Looked(ExitName(sync)), Assigned(TempVar(scope, ExitVar))];
  }

  /** The values the setup leaves in the scope's temporaries. */
  predicate SetUp(vars: map<TempVar, Val>, scope: nat, sync: bool)
  {
    TempVar(scope, ExitVar) in vars && vars[TempVar(scope, ExitVar)] == Method(ExitName(sync))
    && TempVar(scope, IndicatorVar) in vars && vars[TempVar(scope, IndicatorVar)] == Bool(true)
  }

  predicate ExitSet(vars: map<TempVar, Val>, scope: nat, sync: bool)
  {
    TempVar(scope, ExitVar) in vars && vars[TempVar(scope, ExitVar)] == Method(ExitName(sync))
  }

  lemma ExecSourceAssignment(w: World, scope: nat, ctx: nat, st: State)
    ensures Exec(w, Assign(TempVar(scope, SourceVar), ContextExpr(ctx)), st).1 ==
      if w.contextRaises(ctx) then Raising else Normal
    ensures !w.contextRaises(ctx) ==>
      Exec(w, Assign(TempVar(scope, SourceVar), ContextExpr(ctx)), st).0 ==
      State(st.vars[TempVar(scope, SourceVar) := Obj],
            st.trace + [ContextEvaluated(ctx), Assigned(TempVar(scope, SourceVar))])
  {
    assert Log(st, ContextEvaluated(ctx)).trace + [Assigned(TempVar(scope, SourceVar))]
           == st.trace + [ContextEvaluated(ctx), Assigned(TempVar(scope, SourceVar))];
  }

  lemma TraceAssociates(t: seq<Event>, a: seq<Event>, b: seq<Event>, c: seq<Event>)
    ensures t + a + b + c == t + (a + b + c)
  {
  }

  /** The setup raises exactly when one of its steps does; when it completes
      it records the setup events and leaves the exit method and a set
      indicator in the scope's temporaries. */
  lemma SetupRuns(w: World, scope: nat, ctx: nat, sync: bool, version: Version, st: State) returns (s: State)
    ensures ExecSeq(w, SetupStatements(scope, ctx, sync, version), st).1 == Raising
            <==> !SetupSucceeds(w, scope, ctx, sync)
    ensures SetupSucceeds(w, scope, ctx, sync) ==>
      ExecSeq(w, SetupStatements(scope, ctx, sync, version), st) == (s, Normal)
      && s.trace == st.trace + SetupEvents(scope, ctx, sync, version)
      && SetUp(s.vars, scope, sync)
  {
    var srcAssign := Assign(TempVar(scope, SourceVar), ContextExpr(ctx));
    var indAssign := Assign(TempVar(scope, IndicatorVar), ConstBool(true));
    var attrs := AttributeAssignments(scope, sync, version);
    ExecSourceAssignment(w, scope, ctx, st);
    var st1 := Exec(w, srcAssign, st).0;
    var st2 := AttributesRun(w, scope, sync, version, st1);
    ExecSeqAppend(w, [srcAssign] + attrs, [indAssign], st);
    ExecSeqCons(w, srcAssign, attrs, st);
    ExecSeqSingle(w, indAssign, st2);
    s := Exec(w, indAssign, st2).0;
    if SetupSucceeds(w, scope, ctx, sync) {
      var head := [ContextEvaluated(ctx), Assigned(TempVar(scope, SourceVar))];
      var tail := [Assigned(TempVar(scope, IndicatorVar))];
      TraceAssociates(st.trace, head, st2.trace[|st1.trace|..], tail);
    }
  }

  /** Some lookup, call or await of the scope raises. */
  predicate AttributesFail(w: World, scope: nat, sync: bool)
  {
    w.raisesAt(scope, LookupSite(EnterName(sync))) || w.raisesAt(scope, EnterCallSite)
    || (!sync && w.raisesAt(scope, EnterAwaitSite)) || w.raisesAt(scope, LookupSite(ExitName(sync)))
  }

  /** The lookups raise exactly when one of their steps does; when they
      complete they record the lookup events and leave the exit method in its
      temporary. */
  lemma AttributesRun(w: World, scope: nat, sync: bool, version: Version, st: State) returns (st2: State)
    ensures ExecSeq(w, AttributeAssignments(scope, sync, version), st).1 == Raising <==> AttributesFail(w, scope, sync)
    ensures !AttributesFail(w, scope, sync) ==>
      ExecSeq(w, AttributeAssignments(scope, sync, version), st) == (st2, Normal)
      && st2.trace == st.trace + LookupEvents(scope, sync, version)
      && ExitSet(st2.vars, scope, sync)
  {
    var en := EnterAssignment(scope, sync, version);
    var ex := ExitAssignment(scope, sync, version);
    var enterEvents := EnterEvents(sync, version) + [Assigned(TempVar(scope, EnterVar))];
    var exitEvents := [Looked(ExitName(sync)), Assigned(TempVar(scope, ExitVar))];
    if version >= Py39 && !sync {
      var aw := Assign(TempVar(scope, EnterVar), AwaitEnter(TempRef(TempVar(scope, EnterVar))));
      var sb := EnterThenExitRuns(w, scope, sync, version, st);
      st2 := ExecEnterAwait(w, scope, ExecSeq(w, [en, ex], st).0);
      assert [en, ex, aw] == [en, ex] + [aw];
      ExecSeqAppend(w, [en, ex], [aw], st);
      ExecSeqSingle(w, aw, ExecSeq(w, [en, ex], st).0);
      if !AttributesFail(w, scope, sync) {
        TraceAssociates(st.trace, enterEvents, exitEvents, [Awaited, Assigned(TempVar(scope, EnterVar))]);
      }
    } else if version >= Py36 && sync {
      st2 := EnterThenExitRuns(w, scope, sync, version, st);
    } else {
      st2 := ExitThenEnterRuns(w, scope, sync, version, st);
    }
  }

  lemma EnterThenExitRuns(w: World, scope: nat, sync: bool, version: Version, st: State) returns (st2: State)
    ensures ExecSeq(w, [EnterAssignment(scope, sync, version), ExitAssignment(scope, sync, version)], st).1 == Raising
            <==> EnterFails(w, scope, sync, version) || w.raisesAt(scope, LookupSite(ExitName(sync)))
    ensures !EnterFails(w, scope, sync, version) && !w.raisesAt(scope, LookupSite(ExitName(sync))) ==>
      ExecSeq(w, [EnterAssignment(scope, sync, version), ExitAssignment(scope, sync, version)], st) == (st2, Normal)
      && st2.trace == st.trace + (EnterEvents(sync, version) + [Assigned(TempVar(scope, EnterVar))])
                      + [Looked(ExitName(sync)), Assigned(TempVar(scope, ExitVar))]
      && ExitSet(st2.vars, scope, sync)
  {
    var en := EnterAssignment(scope, sync, version);
    var ex := ExitAssignment(scope, sync, version);
    ExecEnterAssignment(w, scope, sync, version, st);
    var sa := Exec(w, en, st).0;
    ExecExitAssignment(w, scope, sync, version, sa);
    ExecSeqPair(w, en, ex, st);
    st2 := Exec(w, ex, sa).0;
  }

  lemma ExitThenEnterRuns(w: World, scope: nat, sync: bool, version: Version, st: State) returns (st2: State)
    ensures ExecSeq(w, [ExitAssignment(scope, sync, version), EnterAssignment(scope, sync, version)], st).1 == Raising
            <==> EnterFails(w, scope, sync, version) || w.raisesAt(scope, LookupSite(ExitName(sync)))
    ensures !EnterFails(w, scope, sync, version) && !w.raisesAt(scope, LookupSite(ExitName(sync))) ==>
      ExecSeq(w, [ExitAssignment(scope, sync, version), EnterAssignment(scope, sync, version)], st) == (st2, Normal)
      && st2.trace == st.trace + [Looked(ExitName(sync)), Assigned(TempVar(scope, ExitVar))]
                      + (EnterEvents(sync, version) + [Assigned(TempVar(scope, EnterVar))])
      && ExitSet(st2.vars, scope, sync)
  {
    var en := EnterAssignment(scope, sync, version);
    var ex := ExitAssignment(scope, sync, version);
    ExecExitAssignment(w, scope, sync, version, st);
    var sa := Exec(w, ex, st).0;
    ExecEnterAssignment(w, scope, sync, version, sa);
    ExecSeqPair(w, ex, en, st);
    st2 := Exec(w, en, sa).0;
  }

  /** From Python 3.9 on, `async with` awaits the entered value after the
      exit lookup; the await may raise. */
  lemma ExecEnterAwait(w: World, scope: nat, st: State) returns (st2: State)
    ensures Exec(w, Assign(TempVar(scope, EnterVar), AwaitEnter(TempRef(TempVar(scope, EnterVar)))), st).1 ==
      if w.raisesAt(scope, EnterAwaitSite) then Raising else Normal
    ensures Exec(w, Assign(TempVar(scope, EnterVar), AwaitEnter(TempRef(TempVar(scope, EnterVar)))), st).0 == st2
    ensures !w.raisesAt(scope, EnterAwaitSite) ==>
      st2.trace == st.trace + [Awaited, Assigned(TempVar(scope, EnterVar))]
      && st2.vars.Keys == st.vars.Keys + {TempVar(scope, EnterVar)}
      && forall v :: v in st.vars && v != TempVar(scope, EnterVar) ==> st2.vars[v] == st.vars[v]
  {
    var aw := Assign(TempVar(scope, EnterVar), AwaitEnter(TempRef(TempVar(scope, EnterVar))));
    st2 := Exec(w, aw, st).0;
    assert Eval(w, aw.e, st).1 == Log(st, Awaited);
    assert Eval(w, aw.e, st).2 == w.raisesAt(scope, EnterAwaitSite);
    if !w.raisesAt(scope, EnterAwaitSite) {
      assert st2.trace == st.trace + [Awaited] + [Assigned(TempVar(scope, EnterVar))];
    }
  }

  // ---------------------------------------------------------------------------
  // The whole `with`

  /** The state after the setup statements, whether they completed or not. */
  function SetupEnd(w: World, scope: nat, ctx: nat, sync: bool, version: Version, st: State): State
  {
    ExecSeq(w, SetupStatements(scope, ctx, sync, version), st).0
  }

  /** The state in which the user body starts: after the setup and the
      binding of the target. */
  function BodyStart(w: World, scope: nat, ctx: nat, target: Option<nat>, sync: bool, version: Version, st: State): State
  {
    var s1 := SetupEnd(w, scope, ctx, sync, version, st);
    if target.Some? then Log(s1, TargetBound(target.value)) else s1
  }

  /** The exit call raises, or its await does. */
  predicate ExitRaises(w: World, scope: nat, sync: bool, withException: bool)
  {
    w.raisesAt(scope, ExitCallSite(withException)) || (!sync && w.raisesAt(scope, ExitAwaitSite))
  }

  /** The events of the exit call: the call, then its await for `async with`
      unless the call itself raised. */
  function ExitCallEvents(w: World, scope: nat, sync: bool, withException: bool): seq<Event>
  {
    [ExitCalled(ExitName(sync), withException)]
      + (if sync || w.raisesAt(scope, ExitCallSite(withException)) then [] else [Awaited])
  }

  /** The events after the body: on an exception the indicator is cleared
      first; then the one exit call. */
  function ExitEvents(w: World, scope: nat, sync: bool, raised: bool): seq<Event>
  {
    (if raised then [Assigned(TempVar(scope, IndicatorVar))] else []) + ExitCallEvents(w, scope, sync, raised)
  }

  /** How a `with` completes once its body completed with `body`: it raises
      when exit raises, or when the body raised and exit answers false; an
      early exit of the body leaves the whole statement by that exit once
      the final exit call returned; otherwise it completes normally. */
  function Outcome(w: World, scope: nat, sync: bool, body: Status): Status
  {
    if ExitRaises(w, scope, sync, body == Raising) || (body == Raising && !w.exitSuppresses(scope)) then Raising
    else if body == Exiting then Exiting
    else Normal
  }

  function ReleaseEvents(scope: nat): seq<Event>
  {
    [Released(TempVar(scope, SourceVar)), Released(TempVar(scope, EnterVar)), Released(TempVar(scope, ExitVar))]
  }

  /** The `with` body leaves the scope's exit method and indicator alone. */
  predicate BodyKeepsScope(w: World, body: seq<Stmt>, start: State, scope: nat, sync: bool)
  {
    SetUp(start.vars, scope, sync) ==> SetUp(ExecSeq(w, body, start).0.vars, scope, sync)
  }

  /** The exit call is recorded once, raises exactly when its call or await
      raises, and otherwise answers true exactly when there is no exception
      or exit suppresses it. */
  lemma ExitCallRuns(w: World, scope: nat, sync: bool, withException: bool, st: State)
    requires ExitSet(st.vars, scope, sync)
    ensures Eval(w, ExitCall(scope, sync, withException), st).1 ==
      st.(trace := st.trace + ExitCallEvents(w, scope, sync, withException))
    ensures Eval(w, ExitCall(scope, sync, withException), st).2 == ExitRaises(w, scope, sync, withException)
    ensures !ExitRaises(w, scope, sync, withException) ==>
      (Truthy(Eval(w, ExitCall(scope, sync, withException), st).0) <==> !withException || w.exitSuppresses(scope))
  {
    var call := CallExit(TempRef(TempVar(scope, ExitVar)), withException);
    var st1 := Log(st, ExitCalled(ExitName(sync), withException));
    assert Eval(w, call, st) ==
      (if withException then Bool(w.exitSuppresses(scope)) else Obj, st1, w.raisesAt(scope, ExitCallSite(withException)));
    if sync || w.raisesAt(scope, ExitCallSite(withException)) {
      assert st1.trace == st.trace + ExitCallEvents(w, scope, sync, withException);
    }
  }

  /** The handler clears the indicator and calls exit with the exception; it
      raises when exit raises, and otherwise re-raises exactly when exit
      answers false. */
  lemma HandlerRuns(w: World, scope: nat, sync: bool, st: State)
    requires ExitSet(st.vars, scope, sync)
    ensures ExecSeq(w, Handler(scope, sync), st).0.trace == st.trace + ExitEvents(w, scope, sync, true)
    ensures ExecSeq(w, Handler(scope, sync), st).1 ==
      if ExitRaises(w, scope, sync, true) || !w.exitSuppresses(scope) then Raising else Normal
    ensures var vars := ExecSeq(w, Handler(scope, sync), st).0.vars;
      TempVar(scope, IndicatorVar) in vars && vars[TempVar(scope, IndicatorVar)] == Bool(false)
      && ExitSet(vars, scope, sync)
  {
    var clear := Assign(TempVar(scope, IndicatorVar), ConstBool(false));
    var test := If(ExitCall(scope, sync, true), [], [Reraise]);
    var sc := Exec(w, clear, st).0;
    assert sc.vars == st.vars[TempVar(scope, IndicatorVar) := Bool(false)];
    assert ExitSet(sc.vars, scope, sync);
    ExitCallRuns(w, scope, sync, true, sc);
    ExecSeqCons(w, clear, [test], st);
    ExecSeqSingle(w, test, sc);
    ExecSeqSingle(w, Reraise, Eval(w, ExitCall(scope, sync, true), sc).1);
    assert Handler(scope, sync) == [clear] + [test];
    assert sc.trace == st.trace + [Assigned(TempVar(scope, IndicatorVar))];
  }

  /** The final block calls exit without an exception exactly when the
      indicator is still set, and raises only when that call raises. */
  lemma FinalExitRuns(w: World, scope: nat, sync: bool, st: State)
    requires ExitSet(st.vars, scope, sync)
    ensures var isSet := TempVar(scope, IndicatorVar) in st.vars && st.vars[TempVar(scope, IndicatorVar)] == Bool(true);
      ExecSeq(w, FinalExit(scope, sync), st).1 == (if isSet && ExitRaises(w, scope, sync, false) then Raising else Normal)
      && ExecSeq(w, FinalExit(scope, sync), st).0.trace ==
         if isSet then st.trace + ExitEvents(w, scope, sync, false) else st.trace
  {
    var call := ExprOnly(ExitCall(scope, sync, false));
    ExecSeqSingle(w, FinalExit(scope, sync)[0], st);
    ExecSeqSingle(w, call, st);
    ExitCallRuns(w, scope, sync, false, st);
    assert ExitEvents(w, scope, sync, false) == ExitCallEvents(w, scope, sync, false);
  }

  /** The guarded part: after the `with` body, exit runs once, with the
      exception exactly when the body raised, and also when the body left
      early; the guarded part then completes as `Outcome` says. */
  lemma GuardedRuns(w: World, scope: nat, target: Option<nat>, body: seq<Stmt>, sync: bool, version: Version, s1: State)
    requires SetUp(ExecSeq(w, WithBody(scope, target, body), s1).0.vars, scope, sync)
    ensures var (stB, sB) := ExecSeq(w, WithBody(scope, target, body), s1);
      var (stG, sG) := Exec(w, Guarded(scope, target, body, sync, version), s1);
      stG.trace == stB.trace + ExitEvents(w, scope, sync, sB == Raising)
      && sG == Outcome(w, scope, sync, sB)
  {
    var (stB, sB) := ExecSeq(w, WithBody(scope, target, body), s1);
    var tryExcept := TryExcept(WithBody(scope, target, body), Handler(scope, sync), version >= Py27);
    ExecSeqSingle(w, tryExcept, s1);
    var (stE, sE) := Exec(w, tryExcept, s1);
    if sB == Raising {
      HandlerRuns(w, scope, sync, stB);
      FinalExitRuns(w, scope, sync, stE);
    } else {
      FinalExitRuns(w, scope, sync, stB);
    }
  }

  /** The releases never raise and record source, enter and exit in that order. */
  lemma ReleasesRun(w: World, scope: nat, st: State)
    ensures ExecSeq(w, Releases(scope), st).1 == Normal
    ensures ExecSeq(w, Releases(scope), st).0.trace == st.trace + ReleaseEvents(scope)
  {
    var rel := Releases(scope);
    var r1 := Exec(w, rel[0], st).0;
    var r2 := Exec(w, rel[1], r1).0;
    ExecSeqCons(w, rel[0], rel[1..], st);
    ExecSeqCons(w, rel[1], rel[2..], r1);
    ExecSeqSingle(w, rel[2], r2);
    assert rel == [rel[0]] + rel[1..] && rel[1..] == [rel[1]] + rel[2..] && rel[2..] == [rel[2]];
  }

  /** The `with` body binds the target, which may raise, and then runs the
      user body from the state after the binding. */
  lemma TargetBinding(w: World, scope: nat, target: Option<nat>, body: seq<Stmt>, s1: State)
    ensures ExecSeq(w, WithBody(scope, target, body), s1) ==
      if target.Some? && w.targetRaises(target.value) then (Log(s1, TargetBound(target.value)), Raising)
      else ExecSeq(w, body, if target.Some? then Log(s1, TargetBound(target.value)) else s1)
  {
    if target.Some? {
      var bind := AssignTarget(target.value, TempRef(TempVar(scope, EnterVar)));
      ExecSeqAppend(w, [bind], body, s1);
      ExecSeqSingle(w, bind, s1);
    } else {
      assert WithBody(scope, target, body) == body;
    }
  }

  /** The meaning of one reformulated `with` whose setup completes: after
      the setup and the `with` body, exit is called exactly once, with the
      exception if and only if the body raised; the statement raises exactly
      when exit raises or the body raised and exit answers false, leaves by
      the body's early exit otherwise, and the three temporaries are
      released last, source, enter, exit. */
  lemma WithSemantics(w: World, scope: nat, ctx: nat, target: Option<nat>, body: seq<Stmt>,
                      sync: bool, version: Version, st: State)
    requires SetupSucceeds(w, scope, ctx, sync)
    requires BodyKeepsScope(w, WithBody(scope, target, body), SetupEnd(w, scope, ctx, sync, version, st), scope, sync)
    ensures SetupEnd(w, scope, ctx, sync, version, st).trace == st.trace + SetupEvents(scope, ctx, sync, version)
    ensures var (stB, sB) := ExecSeq(w, WithBody(scope, target, body), SetupEnd(w, scope, ctx, sync, version, st));
      var (stW, sW) := Exec(w, WithNode(scope, ctx, target, body, sync, version), st);
      stW.trace == stB.trace + ExitEvents(w, scope, sync, sB == Raising) + ReleaseEvents(scope)
      && sW == Outcome(w, scope, sync, sB)
  {
    var setup := SetupStatements(scope, ctx, sync, version);
    var s1 := SetupRuns(w, scope, ctx, sync, version, st);
    var guarded := Guarded(scope, target, body, sync, version);
    GuardedRuns(w, scope, target, body, sync, version, s1);
    ExecSeqAppend(w, setup, [guarded], st);
    ExecSeqSingle(w, guarded, s1);
    ReleasesRun(w, scope, Exec(w, guarded, s1).0);
  }

  /** A `with` whose setup raises: exit is never called, the temporaries are
      still released, and the statement raises. */
  lemma WithSetupFails(w: World, scope: nat, ctx: nat, target: Option<nat>, body: seq<Stmt>,
                       sync: bool, version: Version, st: State)
    requires !SetupSucceeds(w, scope, ctx, sync)
    ensures var (stW, sW) := Exec(w, WithNode(scope, ctx, target, body, sync, version), st);
      sW == Raising
      && stW.trace == SetupEnd(w, scope, ctx, sync, version, st).trace + ReleaseEvents(scope)
      && CountExitCalls(stW.trace) == CountExitCalls(st.trace)
  {
    var setup := SetupStatements(scope, ctx, sync, version);
    var s1 := SetupRuns(w, scope, ctx, sync, version, st);
    var guarded := Guarded(scope, target, body, sync, version);
    ExecSeqAppend(w, setup, [guarded], st);
    var sEnd := SetupEnd(w, scope, ctx, sync, version, st);
    ReleasesRun(w, scope, sEnd);
    SetupExitFree(scope, ctx, sync, version);
    ExecSeqCount(w, setup, st);
    CountExitCallsAppend(sEnd.trace, ReleaseEvents(scope));
    NoExitCalls(ReleaseEvents(scope));
  }

  // ---------------------------------------------------------------------------
  // Counting exit calls

  function CountExitCalls(trace: seq<Event>): nat
  {
    if trace == [] then 0
    else CountExitCalls(trace[..|trace| - 1]) + (if trace[|trace| - 1].ExitCalled? then 1 else 0)
  }

  lemma {:induction false} CountExitCallsAppend(a: seq<Event>, b: seq<Event>)
    ensures CountExitCalls(a + b) == CountExitCalls(a) + CountExitCalls(b)
    decreases |b|
  {
    if b == [] {
      assert a + b == a;
    } else {
      assert (a + b)[..|a + b| - 1] == a + b[..|b| - 1];
      CountExitCallsAppend(a, b[..|b| - 1]);
    }
  }

  lemma {:induction false} NoExitCalls(t: seq<Event>)
    requires forall i :: 0 <= i < |t| ==> !t[i].ExitCalled?
    ensures CountExitCalls(t) == 0
    decreases |t|
  {
    if t != [] {
      NoExitCalls(t[..|t| - 1]);
    }
  }

  lemma CountLog(st: State, e: Event)
    ensures CountExitCalls(Log(st, e).trace) == CountExitCalls(st.trace) + (if e.ExitCalled? then 1 else 0)
  {
    assert Log(st, e).trace[..|Log(st, e).trace| - 1] == st.trace;
  }

  /** Code that calls no exit method. */
  predicate ExprExitFree(e: Expr)
  {
    match e
    case AttributeLookup(x, _, _) => ExprExitFree(x)
    case CallEmpty(f) => ExprExitFree(f)
    case CallExit(_, _) => false
    case AwaitEnter(x) => ExprExitFree(x)
    case AwaitExit(x) => ExprExitFree(x)
    case _ => true
  }

  predicate StmtExitFree(s: Stmt)
    decreases s
  {
    match s
    case Assign(_, e) => ExprExitFree(e)
    case AssignTarget(_, e) => ExprExitFree(e)
    case TryFinally(tried, final) => SeqExitFree(tried) && SeqExitFree(final)
    case TryExcept(tried, handler, _) => SeqExitFree(tried) && SeqExitFree(handler)
    case If(c, yes, no) => ExprExitFree(c) && SeqExitFree(yes) && SeqExitFree(no)
    case ExprOnly(e) => ExprExitFree(e)
    case _ => true
  }

  predicate SeqExitFree(ss: seq<Stmt>)
    decreases ss
  {
    forall i :: 0 <= i < |ss| ==> StmtExitFree(ss[i])
  }

  lemma {:induction false} EvalCount(w: World, e: Expr, st: State)
    requires ExprExitFree(e)
    ensures CountExitCalls(Eval(w, e, st).1.trace) == CountExitCalls(st.trace)
    decreases e
  {
    match e
    case ContextExpr(id) => CountLog(st, ContextEvaluated(id));
    case TempRef(_) =>
    case AttributeLookup(x, name, _) =>
      EvalCount(w, x, st);
      CountLog(Eval(w, x, st).1, Looked(name));
    case CallEmpty(f) =>
      EvalCount(w, f, st);
      CountLog(Eval(w, f, st).1, Called(NameOf(Eval(w, f, st).0)));
    case AwaitEnter(x) =>
      EvalCount(w, x, st);
      CountLog(Eval(w, x, st).1, Awaited);
    case AwaitExit(x) =>
      EvalCount(w, x, st);
      CountLog(Eval(w, x, st).1, Awaited);
    case ConstBool(_) =>
    case IndicatorIsTrue(_) =>
  }

  lemma {:induction false} ExecCount(w: World, s: Stmt, st: State)
    requires StmtExitFree(s)
    ensures CountExitCalls(Exec(w, s, st).0.trace) == CountExitCalls(st.trace)
    decreases s
  {
    match s
    case Assign(v, e) =>
      EvalCount(w, e, st);
      CountLog(Eval(w, e, st).1, Assigned(v));
    case AssignTarget(t, e) =>
      EvalCount(w, e, st);
      CountLog(Eval(w, e, st).1, TargetBound(t));
    case UserBody(id) => CountLog(st, BodyRan(id));
    case Release(v) => CountLog(st, Released(v));
    case TryFinally(tried, final) =>
      ExecSeqCount(w, tried, st);
      ExecSeqCount(w, final, ExecSeq(w, tried, st).0);
    case TryExcept(tried, handler, _) =>
      ExecSeqCount(w, tried, st);
      ExecSeqCount(w, handler, ExecSeq(w, tried, st).0);
    case If(c, yes, no) =>
      EvalCount(w, c, st);
      ExecSeqCount(w, yes, Eval(w, c, st).1);
      ExecSeqCount(w, no, Eval(w, c, st).1);
    case Reraise =>
    case ExprOnly(e) => EvalCount(w, e, st);
  }

  lemma {:induction false} ExecSeqCount(w: World, ss: seq<Stmt>, st: State)
    requires SeqExitFree(ss)
    ensures CountExitCalls(ExecSeq(w, ss, st).0.trace) == CountExitCalls(st.trace)
    decreases ss
  {
    if ss != [] {
      ExecCount(w, ss[0], st);
      ExecSeqCount(w, ss[1..], Exec(w, ss[0], st).0);
    }
  }

  /** The setup statements call no exit method. */
  lemma SetupExitFree(scope: nat, ctx: nat, sync: bool, version: Version)
    ensures SeqExitFree(SetupStatements(scope, ctx, sync, version))
  {
    var ss := SetupStatements(scope, ctx, sync, version);
    var lookup := AttributeLookup(TempRef(TempVar(scope, SourceVar)), EnterName(sync), version >= Py27);
    assert ExprExitFree(lookup);
    assert ExprExitFree(CallEmpty(lookup));
    assert StmtExitFree(EnterAssignment(scope, sync, version));
    assert StmtExitFree(ExitAssignment(scope, sync, version));
    forall i | 0 <= i < |ss|
      ensures StmtExitFree(ss[i])
    {
      if 0 < i < |ss| - 1 {
        assert ss[i] == AttributeAssignments(scope, sync, version)[i - 1];
      }
    }
  }

  /** The exit call's events hold exactly one exit call. */
  lemma ExitCallEventsCallOnce(w: World, scope: nat, sync: bool, withException: bool)
    ensures CountExitCalls(ExitCallEvents(w, scope, sync, withException)) == 1
  {
    var call := [ExitCalled(ExitName(sync), withException)];
    var post: seq<Event> := if sync || w.raisesAt(scope, ExitCallSite(withException)) then [] else [Awaited];
    CountExitCallsAppend(call, post);
    NoExitCalls(post);
    NoExitCalls(call[..0]);
  }

  /** The events after the body hold exactly one exit call, and the releases
      none. */
  lemma ExitEventsCallOnce(w: World, scope: nat, sync: bool, raised: bool)
    ensures CountExitCalls(ExitEvents(w, scope, sync, raised)) == 1
    ensures CountExitCalls(ReleaseEvents(scope)) == 0
  {
    var pre: seq<Event> := if raised then [Assigned(TempVar(scope, IndicatorVar))] else [];
    CountExitCallsAppend(pre, ExitCallEvents(w, scope, sync, raised));
    ExitCallEventsCallOnce(w, scope, sync, raised);
    NoExitCalls(pre);
    NoExitCalls(ReleaseEvents(scope));
  }

  /** Exit runs exactly once for each `with` whose setup completes, whether
      or not the body raised and whether or not exit itself raises, on top of
      whatever exit calls the body makes. */
  lemma ExitRunsOnce(w: World, scope: nat, ctx: nat, target: Option<nat>, body: seq<Stmt>,
                     sync: bool, version: Version, st: State)
    requires SetupSucceeds(w, scope, ctx, sync)
    requires BodyKeepsScope(w, WithBody(scope, target, body), SetupEnd(w, scope, ctx, sync, version, st), scope, sync)
    ensures var stB := ExecSeq(w, WithBody(scope, target, body), SetupEnd(w, scope, ctx, sync, version, st)).0;
      CountExitCalls(Exec(w, WithNode(scope, ctx, target, body, sync, version), st).0.trace)
      == CountExitCalls(stB.trace) + 1
  {
    WithSemantics(w, scope, ctx, target, body, sync, version, st);
    var (stB, sB) := ExecSeq(w, WithBody(scope, target, body), SetupEnd(w, scope, ctx, sync, version, st));
    var ev := ExitEvents(w, scope, sync, sB == Raising);
    CountExitCallsAppend(stB.trace + ev, ReleaseEvents(scope));
    CountExitCallsAppend(stB.trace, ev);
    ExitEventsCallOnce(w, scope, sync, sB == Raising);
  }

  /** A body that leaves early through `return`, `break` or `continue`:
      exit is still called exactly once, without the exception, the
      temporaries are released after it, and the statement leaves by the
      same exit unless exit itself raises. */
  lemma WithEarlyExit(w: World, scope: nat, ctx: nat, target: Option<nat>, body: seq<Stmt>,
                      sync: bool, version: Version, st: State)
    requires SetupSucceeds(w, scope, ctx, sync)
    requires BodyKeepsScope(w, WithBody(scope, target, body), SetupEnd(w, scope, ctx, sync, version, st), scope, sync)
    requires ExecSeq(w, WithBody(scope, target, body), SetupEnd(w, scope, ctx, sync, version, st)).1 == Exiting
    ensures var stB := ExecSeq(w, WithBody(scope, target, body), SetupEnd(w, scope, ctx, sync, version, st)).0;
      var (stW, sW) := Exec(w, WithNode(scope, ctx, target, body, sync, version), st);
      stW.trace == stB.trace + ExitCallEvents(w, scope, sync, false) + ReleaseEvents(scope)
      && CountExitCalls(stW.trace) == CountExitCalls(stB.trace) + 1
      && sW == (if ExitRaises(w, scope, sync, false) then Raising else Exiting)
  {
    WithSemantics(w, scope, ctx, target, body, sync, version, st);
    ExitRunsOnce(w, scope, ctx, target, body, sync, version, st);
  }

  // ---------------------------------------------------------------------------
  // Order of the lookups

  /** The names of the lookups, in the order they happen. */
  function LookupOrder(trace: seq<Event>): seq<string>
  {
    if trace == [] then []
    else LookupOrder(trace[..|trace| - 1]) + (if trace[|trace| - 1].Looked? then [trace[|trace| - 1].name] else [])
  }

  lemma {:induction false} LookupOrderAppend(a: seq<Event>, b: seq<Event>)
    ensures LookupOrder(a + b) == LookupOrder(a) + LookupOrder(b)
    decreases |b|
  {
    if b == [] {
      assert a + b == a;
    } else {
      assert (a + b)[..|a + b| - 1] == a + b[..|b| - 1];
      LookupOrderAppend(a, b[..|b| - 1]);
    }
  }

  lemma {:induction false} NoLookups(t: seq<Event>)
    requires forall i :: 0 <= i < |t| ==> !t[i].Looked?
    ensures LookupOrder(t) == []
    decreases |t|
  {
    if t != [] {
      NoLookups(t[..|t| - 1]);
    }
  }

  /** A lookup followed by events without lookups. */
  lemma OneLookup(name: string, rest: seq<Event>)
    requires forall i :: 0 <= i < |rest| ==> !rest[i].Looked?
    ensures LookupOrder([Looked(name)] + rest) == [name]
  {
    LookupOrderAppend([Looked(name)], rest);
    NoLookups(rest);
    NoLookups([Looked(name)][..0]);
  }

  lemma LookupOrderOfEnter(scope: nat, sync: bool, version: Version)
    ensures LookupOrder(EnterEvents(sync, version) + [Assigned(TempVar(scope, EnterVar))]) == [EnterName(sync)]
  {
    var rest := [Called(EnterName(sync))] + (if !sync && version < Py39 then [Awaited] else [])
                + [Assigned(TempVar(scope, EnterVar))];
    assert EnterEvents(sync, version) + [Assigned(TempVar(scope, EnterVar))] == [Looked(EnterName(sync))] + rest;
    OneLookup(EnterName(sync), rest);
  }

  lemma LookupOrderOfExit(scope: nat, sync: bool)
    ensures LookupOrder([Looked(ExitName(sync)), Assigned(TempVar(scope, ExitVar))]) == [ExitName(sync)]
  {
    assert [Looked(ExitName(sync)), Assigned(TempVar(scope, ExitVar))]
           == [Looked(ExitName(sync))] + [Assigned(TempVar(scope, ExitVar))];
    OneLookup(ExitName(sync), [Assigned(TempVar(scope, ExitVar))]);
  }

  /** Exit is looked up before enter, except for plain `with` from Python 3.6
      on and for `async with` from Python 3.9 on. */
  lemma LookupOrderByVersion(scope: nat, ctx: nat, sync: bool, version: Version)
    ensures LookupOrder(SetupEvents(scope, ctx, sync, version)) ==
      if (sync && version >= Py36) || (!sync && version >= Py39)
      then [EnterName(sync), ExitName(sync)]
      else [ExitName(sync), EnterName(sync)]
  {
    var enter := EnterEvents(sync, version) + [Assigned(TempVar(scope, EnterVar))];
    var exit := [Looked(ExitName(sync)), Assigned(TempVar(scope, ExitVar))];
    var head := [ContextEvaluated(ctx), Assigned(TempVar(scope, SourceVar))];
    var tail := [Assigned(TempVar(scope, IndicatorVar))];
    LookupOrderAppend(head + LookupEvents(scope, sync, version), tail);
    LookupOrderAppend(head, LookupEvents(scope, sync, version));
    NoLookups(head);
    NoLookups(tail);
    LookupOrderOfEnter(scope, sync, version);
    LookupOrderOfExit(scope, sync);
    if version >= Py39 && !sync {
      var awaitEnter := [Awaited, Assigned(TempVar(scope, EnterVar))];
      LookupOrderAppend(enter + exit, awaitEnter);
      LookupOrderAppend(enter, exit);
      NoLookups(awaitEnter);
    } else if version >= Py36 && sync {
      LookupOrderAppend(enter, exit);
    } else {
      LookupOrderAppend(exit, enter);
    }
  }

  /** The context is evaluated and stored in the source temporary before any
      lookup happens. */
  lemma SourceAssignedFirst(scope: nat, ctx: nat, sync: bool, version: Version)
    ensures SetupEvents(scope, ctx, sync, version)[..2] == [ContextEvaluated(ctx), Assigned(TempVar(scope, SourceVar))]
    ensures SetupEvents(scope, ctx, sync, version)[2] in {Looked(EnterName(sync)), Looked(ExitName(sync))}
  {
  }

  /** For `async with` from Python 3.9 on, the entered value is awaited only
      after the exit lookup; before 3.9 it is awaited right after the call. */
  lemma AsyncEnterAwaitPosition(scope: nat, ctx: nat, version: Version)
    ensures var ev := SetupEvents(scope, ctx, false, version);
      if version >= Py39 then ev[2..9] == [Looked("__aenter__"), Called("__aenter__"), Assigned(TempVar(scope, EnterVar)),
                                             Looked("__aexit__"), Assigned(TempVar(scope, ExitVar)),
                                             Awaited, Assigned(TempVar(scope, EnterVar))]
      else ev[2..8] == [Looked("__aexit__"), Assigned(TempVar(scope, ExitVar)),
                        Looked("__aenter__"), Called("__aenter__"), Awaited, Assigned(TempVar(scope, EnterVar))]
  {
  }

  // ---------------------------------------------------------------------------
  // Nesting

  /** Running code only ever adds to the trace. */
  lemma {:induction false} EvalExtends(w: World, e: Expr, st: State)
    ensures st.trace <= Eval(w, e, st).1.trace
    decreases e
  {
    match e
    case ContextExpr(_) =>
    case TempRef(_) =>
    case AttributeLookup(x, _, _) => EvalExtends(w, x, st);
    case CallEmpty(f) => EvalExtends(w, f, st);
    case CallExit(f, _) => EvalExtends(w, f, st);
    case AwaitEnter(x) => EvalExtends(w, x, st);
    case AwaitExit(x) => EvalExtends(w, x, st);
    case ConstBool(_) =>
    case IndicatorIsTrue(_) =>
  }

  lemma {:induction false} ExecExtends(w: World, s: Stmt, st: State)
    ensures st.trace <= Exec(w, s, st).0.trace
    decreases s
  {
    match s
    case Assign(_, e) => EvalExtends(w, e, st);
    case AssignTarget(_, e) => EvalExtends(w, e, st);
    case UserBody(_) =>
    case Release(_) =>
    case TryFinally(tried, final) =>
      ExecSeqExtends(w, tried, st);
      ExecSeqExtends(w, final, ExecSeq(w, tried, st).0);
    case TryExcept(tried, handler, _) =>
      ExecSeqExtends(w, tried, st);
      ExecSeqExtends(w, handler, ExecSeq(w, tried, st).0);
    case If(c, yes, no) =>
      EvalExtends(w, c, st);
      ExecSeqExtends(w, yes, Eval(w, c, st).1);
      ExecSeqExtends(w, no, Eval(w, c, st).1);
    case Reraise =>
    case ExprOnly(e) => EvalExtends(w, e, st);
  }

  lemma {:induction false} ExecSeqExtends(w: World, ss: seq<Stmt>, st: State)
    ensures st.trace <= ExecSeq(w, ss, st).0.trace
    decreases ss
  {
    if ss != [] {
      ExecExtends(w, ss[0], st);
      ExecSeqExtends(w, ss[1..], Exec(w, ss[0], st).0);
    }
  }

  /** Code that neither assigns nor releases the temporary `v`. */
  predicate StmtAvoids(s: Stmt, v: TempVar)
    decreases s
  {
    match s
    case Assign(x, _) => x != v
    case Release(x) => x != v
    case TryFinally(tried, final) => SeqAvoids(tried, v) && SeqAvoids(final, v)
    case TryExcept(tried, handler, _) => SeqAvoids(tried, v) && SeqAvoids(handler, v)
    case If(_, yes, no) => SeqAvoids(yes, v) && SeqAvoids(no, v)
    case _ => true
  }

  predicate SeqAvoids(ss: seq<Stmt>, v: TempVar)
    decreases ss
  {
    forall i :: 0 <= i < |ss| ==> StmtAvoids(ss[i], v)
  }

  /** Evaluating an expression never changes a temporary. */
  lemma {:induction false} EvalKeepsVars(w: World, e: Expr, st: State)
    ensures Eval(w, e, st).1.vars == st.vars
    decreases e
  {
    match e
    case ContextExpr(_) =>
    case TempRef(_) =>
    case AttributeLookup(x, _, _) => EvalKeepsVars(w, x, st);
    case CallEmpty(f) => EvalKeepsVars(w, f, st);
    case CallExit(f, _) => EvalKeepsVars(w, f, st);
    case AwaitEnter(x) => EvalKeepsVars(w, x, st);
    case AwaitExit(x) => EvalKeepsVars(w, x, st);
    case ConstBool(_) =>
    case IndicatorIsTrue(_) =>
  }

  /** Code that avoids a temporary leaves its value alone. */
  lemma {:induction false} ExecKeeps(w: World, s: Stmt, st: State, v: TempVar)
    requires StmtAvoids(s, v) && v in st.vars
    ensures v in Exec(w, s, st).0.vars && Exec(w, s, st).0.vars[v] == st.vars[v]
    decreases s
  {
    match s
    case Assign(_, e) => EvalKeepsVars(w, e, st);
    case AssignTarget(_, e) => EvalKeepsVars(w, e, st);
    case UserBody(_) =>
    case Release(_) =>
    case TryFinally(tried, final) =>
      ExecSeqKeeps(w, tried, st, v);
      ExecSeqKeeps(w, final, ExecSeq(w, tried, st).0, v);
    case TryExcept(tried, handler, _) =>
      ExecSeqKeeps(w, tried, st, v);
      ExecSeqKeeps(w, handler, ExecSeq(w, tried, st).0, v);
    case If(c, yes, no) =>
      EvalKeepsVars(w, c, st);
      ExecSeqKeeps(w, yes, Eval(w, c, st).1, v);
      ExecSeqKeeps(w, no, Eval(w, c, st).1, v);
    case Reraise =>
    case ExprOnly(e) => EvalKeepsVars(w, e, st);
  }

  lemma {:induction false} ExecSeqKeeps(w: World, ss: seq<Stmt>, st: State, v: TempVar)
    requires SeqAvoids(ss, v) && v in st.vars
    ensures v in ExecSeq(w, ss, st).0.vars && ExecSeq(w, ss, st).0.vars[v] == st.vars[v]
    decreases ss
  {
    if ss != [] {
      ExecKeeps(w, ss[0], st, v);
      ExecSeqKeeps(w, ss[1..], Exec(w, ss[0], st).0, v);
    }
  }

  /** A `with` in another scope avoids `v` when its body does. */
  lemma WithNodeAvoids(scope: nat, ctx: nat, target: Option<nat>, body: seq<Stmt>, sync: bool, version: Version,
                       v: TempVar)
    requires v.scope != scope && SeqAvoids(body, v)
    ensures StmtAvoids(WithNode(scope, ctx, target, body, sync, version), v)
  {
    var setup := SetupStatements(scope, ctx, sync, version);
    forall i | 0 <= i < |setup|
      ensures StmtAvoids(setup[i], v)
    {
      if 0 < i < |setup| - 1 {
        assert setup[i] == AttributeAssignments(scope, sync, version)[i - 1];
      }
    }
    var withBody := WithBody(scope, target, body);
    forall i | 0 <= i < |withBody|
      ensures StmtAvoids(withBody[i], v)
    {
      if target.Some? && i > 0 {
        assert withBody[i] == body[i - 1];
      }
    }
    var handler := Handler(scope, sync);
    assert StmtAvoids(handler[1], v);
    assert SeqAvoids(handler, v);
    assert StmtAvoids(FinalExit(scope, sync)[0], v);
    assert SeqAvoids(withBody, v);
    var tryExcept := TryExcept(withBody, handler, version >= Py27);
    assert StmtAvoids(tryExcept, v);
    assert SeqAvoids([tryExcept], v);
    var guarded := Guarded(scope, target, body, sync, version);
    assert StmtAvoids(guarded, v);
    assert SeqAvoids(setup + [guarded], v);
  }

  /** The nested statement avoids every temporary outside its scopes that
      the body avoids. */
  lemma {:induction false} NestedAvoids(contexts: seq<nat>, targets: seq<Option<nat>>, body: seq<Stmt>, sync: bool,
                                        version: Version, firstScope: nat, v: TempVar)
    requires |contexts| == |targets| && SeqAvoids(body, v)
    requires v.scope < firstScope || firstScope + |contexts| <= v.scope
    ensures SeqAvoids(Nested(contexts, targets, body, sync, version, firstScope), v)
    decreases |contexts|
  {
    if contexts != [] {
      var inner := Nested(contexts[1..], targets[1..], body, sync, version, firstScope);
      NestedAvoids(contexts[1..], targets[1..], body, sync, version, firstScope, v);
      WithNodeAvoids(firstScope + |contexts| - 1, contexts[0], targets[0], inner, sync, version, v);
    }
  }

  /** Each `with` item completes its setup and binds its target. */
  predicate OpensCleanly(w: World, contexts: seq<nat>, targets: seq<Option<nat>>, sync: bool, firstScope: nat)
    requires |contexts| == |targets|
  {
    contexts == []
    || (SetupSucceeds(w, firstScope + |contexts| - 1, contexts[0], sync)
        && (targets[0].Some? ==> !w.targetRaises(targets[0].value))
        && OpensCleanly(w, contexts[1..], targets[1..], sync, firstScope))
  }

  /** The `with` body of a nested statement keeps its scope set up when the
      user body avoids the scopes of the items. */
  lemma InnerKeepsScope(w: World, contexts: seq<nat>, targets: seq<Option<nat>>, body: seq<Stmt>, sync: bool,
                        version: Version, firstScope: nat, start: State)
    requires |contexts| == |targets| && contexts != []
    requires forall v: TempVar :: firstScope <= v.scope < firstScope + |contexts| ==> SeqAvoids(body, v)
    ensures var scope := firstScope + |contexts| - 1;
      BodyKeepsScope(w, WithBody(scope, targets[0], Nested(contexts[1..], targets[1..], body, sync, version, firstScope)),
                     start, scope, sync)
  {
    var scope := firstScope + |contexts| - 1;
    var inner := Nested(contexts[1..], targets[1..], body, sync, version, firstScope);
    var withBody := WithBody(scope, targets[0], inner);
    if SetUp(start.vars, scope, sync) {
      forall v: TempVar | v.scope == scope
        ensures SeqAvoids(withBody, v)
      {
        NestedAvoids(contexts[1..], targets[1..], body, sync, version, firstScope, v);
        forall i | 0 <= i < |withBody|
          ensures StmtAvoids(withBody[i], v)
        {
          if targets[0].Some? && i > 0 {
            assert withBody[i] == inner[i - 1];
          }
        }
      }
      ExecSeqKeeps(w, withBody, start, TempVar(scope, ExitVar));
      ExecSeqKeeps(w, withBody, start, TempVar(scope, IndicatorVar));
    }
  }

  /** A nested `with` whose items all open, around a body that calls no exit
      method and leaves the items' temporaries alone, calls exit exactly once
      per item. */
  lemma {:induction false} NestedExitsOnce(w: World, contexts: seq<nat>, targets: seq<Option<nat>>, body: seq<Stmt>,
                                           sync: bool, version: Version, firstScope: nat, st: State)
    requires |contexts| == |targets|
    requires OpensCleanly(w, contexts, targets, sync, firstScope)
    requires SeqExitFree(body)
    requires forall v: TempVar :: firstScope <= v.scope < firstScope + |contexts| ==> SeqAvoids(body, v)
    ensures CountExitCalls(ExecSeq(w, Nested(contexts, targets, body, sync, version, firstScope), st).0.trace)
            == CountExitCalls(st.trace) + |contexts|
    decreases |contexts|
  {
    if contexts == [] {
      ExecSeqCount(w, body, st);
    } else {
      var scope := firstScope + |contexts| - 1;
      var inner := Nested(contexts[1..], targets[1..], body, sync, version, firstScope);
      var s1 := SetupEnd(w, scope, contexts[0], sync, version, st);
      var start := BodyStart(w, scope, contexts[0], targets[0], sync, version, st);
      ExecSeqSingle(w, WithNode(scope, contexts[0], targets[0], inner, sync, version), st);
      InnerKeepsScope(w, contexts, targets, body, sync, version, firstScope, s1);
      ExitRunsOnce(w, scope, contexts[0], targets[0], inner, sync, version, st);
      TargetBinding(w, scope, targets[0], inner, s1);
      NestedExitsOnce(w, contexts[1..], targets[1..], body, sync, version, firstScope, start);
      SetupExitFree(scope, contexts[0], sync, version);
      ExecSeqCount(w, SetupStatements(scope, contexts[0], sync, version), st);
      if targets[0].Some? {
        CountLog(s1, TargetBound(targets[0].value));
      }
    }
  }

  /** The events of entering the nested context managers, outermost first. */
  function Opening(contexts: seq<nat>, targets: seq<Option<nat>>, sync: bool, version: Version, firstScope: nat): seq<Event>
    requires |contexts| == |targets|
  {
    if contexts == [] then []
    else SetupEvents(firstScope + |contexts| - 1, contexts[0], sync, version)
         + (if targets[0].Some? then [TargetBound(targets[0].value)] else [])
         + Opening(contexts[1..], targets[1..], sync, version, firstScope)
  }

  /** A `with` statement whose setup completes begins with its setup events
      and the target binding, and its trace extends that of its `with` body. */
  lemma WithRunsBodyFirst(w: World, scope: nat, ctx: nat, target: Option<nat>, body: seq<Stmt>,
                          sync: bool, version: Version, st: State)
    requires SetupSucceeds(w, scope, ctx, sync)
    ensures ExecSeq(w, WithBody(scope, target, body), SetupEnd(w, scope, ctx, sync, version, st)).0.trace
            <= Exec(w, WithNode(scope, ctx, target, body, sync, version), st).0.trace
    ensures BodyStart(w, scope, ctx, target, sync, version, st).trace
            == st.trace + SetupEvents(scope, ctx, sync, version)
               + (if target.Some? then [TargetBound(target.value)] else [])
  {
    var setup := SetupStatements(scope, ctx, sync, version);
    var s1 := SetupRuns(w, scope, ctx, sync, version, st);
    var guarded := Guarded(scope, target, body, sync, version);
    var tryExcept := TryExcept(WithBody(scope, target, body), Handler(scope, sync), version >= Py27);
    var tb := ExecSeq(w, WithBody(scope, target, body), s1).0;
    ExecSeqExtends(w, Handler(scope, sync), tb);
    ExecSeqSingle(w, tryExcept, s1);
    var te := Exec(w, tryExcept, s1).0;
    assert tb.trace <= te.trace;
    ExecSeqExtends(w, FinalExit(scope, sync), te);
    var tg := Exec(w, guarded, s1).0;
    assert te.trace <= tg.trace;
    ExecSeqAppend(w, setup, [guarded], st);
    ExecSeqSingle(w, guarded, s1);
    ExecSeqExtends(w, Releases(scope), tg);
  }

  /** When every item opens, running the nested statement starts with
      entering every context manager, outermost first, and only then runs
      the body. */
  lemma {:induction false} NestedOpensInOrder(w: World, contexts: seq<nat>, targets: seq<Option<nat>>, body: seq<Stmt>,
                                              sync: bool, version: Version, firstScope: nat, st: State)
    requires |contexts| == |targets|
    requires OpensCleanly(w, contexts, targets, sync, firstScope)
    ensures st.trace + Opening(contexts, targets, sync, version, firstScope)
            <= ExecSeq(w, Nested(contexts, targets, body, sync, version, firstScope), st).0.trace
    decreases |contexts|
  {
    if contexts == [] {
      ExecSeqExtends(w, body, st);
    } else {
      var scope := firstScope + |contexts| - 1;
      var inner := Nested(contexts[1..], targets[1..], body, sync, version, firstScope);
      var start := BodyStart(w, scope, contexts[0], targets[0], sync, version, st);
      ExecSeqSingle(w, WithNode(scope, contexts[0], targets[0], inner, sync, version), st);
      WithRunsBodyFirst(w, scope, contexts[0], targets[0], inner, sync, version, st);
      TargetBinding(w, scope, targets[0], inner, SetupEnd(w, scope, contexts[0], sync, version, st));
      NestedOpensInOrder(w, contexts[1..], targets[1..], body, sync, version, firstScope, start);
      var bound: seq<Event> := if targets[0].Some? then [TargetBound(targets[0].value)] else [];
      TraceAssociates(st.trace, SetupEvents(scope, contexts[0], sync, version), bound,
                      Opening(contexts[1..], targets[1..], sync, version, firstScope));
    }
  }

  /** The contexts evaluated, in order. */
  function ContextsEvaluated(trace: seq<Event>): seq<nat>
  {
    if trace == [] then []
    else (if trace[0].ContextEvaluated? then [trace[0].id] else []) + ContextsEvaluated(trace[1..])
  }

  lemma {:induction false} ContextsEvaluatedAppend(a: seq<Event>, b: seq<Event>)
    ensures ContextsEvaluated(a + b) == ContextsEvaluated(a) + ContextsEvaluated(b)
    decreases |a|
  {
    if a == [] {
      assert a + b == b;
    } else {
      var ab := a + b;
      assert ab[0] == a[0];
      assert ab[1..] == a[1..] + b;
      ContextsEvaluatedAppend(a[1..], b);
      var head: seq<nat> := if a[0].ContextEvaluated? then [a[0].id] else [];
      calc {
        ContextsEvaluated(ab);
        head + ContextsEvaluated(a[1..] + b);
        head + (ContextsEvaluated(a[1..]) + ContextsEvaluated(b));
        (head + ContextsEvaluated(a[1..])) + ContextsEvaluated(b);
      }
    }
  }

  lemma {:induction false} NoContexts(t: seq<Event>)
    requires forall i :: 0 <= i < |t| ==> !t[i].ContextEvaluated?
    ensures ContextsEvaluated(t) == []
    decreases |t|
  {
    if t != [] {
      NoContexts(t[1..]);
    }
  }

  /** The setup of a `with` evaluates its own context and no other. */
  lemma SetupEvaluatesContext(scope: nat, ctx: nat, sync: bool, version: Version)
    ensures ContextsEvaluated(SetupEvents(scope, ctx, sync, version)) == [ctx]
  {
    var rest := [Assigned(TempVar(scope, SourceVar))] + LookupEvents(scope, sync, version)
                + [Assigned(TempVar(scope, IndicatorVar))];
    assert SetupEvents(scope, ctx, sync, version) == [ContextEvaluated(ctx)] + rest;
    NoContexts(rest);
  }

  lemma ContextsOfPieces(setup: seq<Event>, bound: seq<Event>, rest: seq<Event>, ctx: nat)
    requires ContextsEvaluated(setup) == [ctx]
    requires forall i :: 0 <= i < |bound| ==> !bound[i].ContextEvaluated?
    ensures ContextsEvaluated(setup + bound + rest) == [ctx] + ContextsEvaluated(rest)
  {
    ContextsEvaluatedAppend(setup + bound, rest);
    ContextsEvaluatedAppend(setup, bound);
    NoContexts(bound);
  }

  /** Entering the nested context managers evaluates the contexts exactly in
      the order they are written: the first one is the outermost. */
  lemma {:induction false} OpeningEvaluatesInOrder(contexts: seq<nat>, targets: seq<Option<nat>>, sync: bool,
                                                   version: Version, firstScope: nat)
    requires |contexts| == |targets|
    ensures ContextsEvaluated(Opening(contexts, targets, sync, version, firstScope)) == contexts
    decreases |contexts|
  {
    if contexts != [] {
      var setup := SetupEvents(firstScope + |contexts| - 1, contexts[0], sync, version);
      var bound: seq<Event> := if targets[0].Some? then [TargetBound(targets[0].value)] else [];
      var rest := Opening(contexts[1..], targets[1..], sync, version, firstScope);
      assert Opening(contexts, targets, sync, version, firstScope) == setup + bound + rest;
      SetupEvaluatesContext(firstScope + |contexts| - 1, contexts[0], sync, version);
      ContextsOfPieces(setup, bound, rest, contexts[0]);
      OpeningEvaluatesInOrder(contexts[1..], targets[1..], sync, version, firstScope);
      calc {
        ContextsEvaluated(Opening(contexts, targets, sync, version, firstScope));
        [contexts[0]] + ContextsEvaluated(rest);
        [contexts[0]] + contexts[1..];
        contexts;
      }
    }
  }
}
