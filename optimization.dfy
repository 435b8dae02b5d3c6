/** The fixed-point driver of the optimizer: the per-module loop that repeats
    `computeModule` until a pass reports no change, and the campaign loop that
    repeats whole-registry passes until no module changed.

    `computeModule` is an oracle: for each campaign pass and module it yields a
    script of pass reports (the `signalChange` calls the pass makes and whether
    variable scopes were incomplete) and the modules the optimization brought
    into the registry. */
module Optimization {
  import opened Common

  type ModuleName = string
  type FunctionId = nat

  datatype ModuleKind = PythonShlib | CompiledPython | UncompiledPython

  /** One call of `signalChange(tags, source_ref, message)`. */
  datatype Signal = Signal(tags: set<Tag>, message: Option<string>)

  /** What one `computeModule` call does as seen by the driver. */
  datatype PassReport = PassReport(signals: seq<Signal>, scopesIncomplete: bool)

  /** A module in the registry: its kind, the functions child in order, the
      functions the last computation found used, and the functions that still
      hold a trace collection. */
  datatype Module = Module(
    name: ModuleName,
    kind: ModuleKind,
    functions: seq<FunctionId>,
    usedFunctions: set<FunctionId>,
    traced: set<FunctionId>)

  /** The oracle's answer for one module in one campaign pass: the reports of
      its passes, the functions child and used functions the computation
      leaves, and the modules it brought into the registry. */
  datatype ModuleScript = ModuleScript(
    reports: seq<PassReport>,
    functions: seq<FunctionId>,
    usedFunctions: set<FunctionId>,
    discovered: seq<Module>)

  // ---------------------------------------------------------------------------
  // Specification of the per-module loop

  /** The tags a sequence of `signalChange` calls adds to an empty tag set. */
  function SignalledTags(signals: seq<Signal>): set<Tag>
  {
    if signals == [] then {}
    else SignalledTags(signals[..|signals| - 1]) + signals[|signals| - 1].tags
  }

  /** The tag set at the end of one pass: what the pass signalled, plus
      `var_usage` for incomplete scopes, minus `new_code`. */
  function PassTags(r: PassReport): set<Tag>
  {
    (SignalledTags(r.signals) + (if r.scopesIncomplete then {VarUsage} else {})) - {NewCode}
  }

  predicate Quiet(r: PassReport)
  {
    PassTags(r) == {}
  }

  /** A retry: a quiet pass that is the first of a run of quiet passes,
      during campaign pass 1. */
  predicate Retries(reports: seq<PassReport>, k: nat, passCount: nat)
    requires k < |reports|
  {
    passCount == 1 && (k == 0 || !Quiet(reports[k - 1]))
  }

  /** The loop leaves after pass `k`. */
  predicate StopsAt(reports: seq<PassReport>, k: nat, passCount: nat)
  {
    k < |reports| && Quiet(reports[k]) && !Retries(reports, k, passCount)
  }

  /** The oracle's script lets the module loop end. */
  ghost predicate Terminates(reports: seq<PassReport>, passCount: nat)
  {
    exists k: nat :: StopsAt(reports, k, passCount)
  }

  /** The first pass at or after `i` after which the loop leaves. */
  function FirstStopFrom(reports: seq<PassReport>, passCount: nat, i: nat): (k: nat)
    requires exists k: nat :: i <= k && StopsAt(reports, k, passCount)
    ensures i <= k && StopsAt(reports, k, passCount)
    ensures forall j: nat :: i <= j < k ==> !StopsAt(reports, j, passCount)
    decreases |reports| - i
  {
    if StopsAt(reports, i, passCount) then i
    else FirstStopFrom(reports, passCount, i + 1)
  }

  function FirstStop(reports: seq<PassReport>, passCount: nat): (k: nat)
    requires Terminates(reports, passCount)
    ensures StopsAt(reports, k, passCount)
    ensures forall j: nat :: j < k ==> !StopsAt(reports, j, passCount)
  {
    FirstStopFrom(reports, passCount, 0)
  }

  /** Some pass among the first `n` left tags behind. */
  ghost predicate AnyTagged(reports: seq<PassReport>, n: nat)
    requires n <= |reports|
  {
    exists j: nat :: j < n && !Quiet(reports[j])
  }

  /** The value `optimizeCompiledPythonModule` returns. */
  ghost predicate ModuleTouched(reports: seq<PassReport>, passCount: nat)
    requires Terminates(reports, passCount)
  {
    AnyTagged(reports, FirstStop(reports, passCount) + 1)
  }

  // ---------------------------------------------------------------------------
  // Pruning of unused functions

  /** The functions child restricted to used functions, order kept. */
  function KeepUsed(functions: seq<FunctionId>, used: set<FunctionId>): (r: seq<FunctionId>)
    ensures |r| <= |functions|
    ensures forall f :: f in r <==> f in functions && f in used
  {
    if functions == [] then []
    else if functions[0] in used then [functions[0]] + KeepUsed(functions[1..], used)
    else KeepUsed(functions[1..], used)
  }

  function UnusedFunctions(m: Module): set<FunctionId>
  {
    set f | f in m.functions && f !in m.usedFunctions
  }

  /** A done module after the post-pass cleanup. */
  function Pruned(m: Module): (r: Module)
    ensures r.name == m.name && r.kind == m.kind && r.usedFunctions == m.usedFunctions
  {
    if m.kind == CompiledPython then
      m.(functions := KeepUsed(m.functions, m.usedFunctions), traced := m.traced - UnusedFunctions(m))
    else m
  }

  /** After the cleanup a compiled module lists only used functions. */
  predicate OnlyUsedFunctions(m: Module)
  {
    m.kind == CompiledPython ==> forall f :: f in m.functions ==> f in m.usedFunctions
  }

  function Names(ms: seq<Module>): set<ModuleName>
  {
    set i | 0 <= i < |ms| :: ms[i].name
  }

  /** Module names in the registry are distinct. */
  predicate DistinctNames(ms: seq<Module>)
  {
    forall i, j :: 0 <= i < j < |ms| ==> ms[i].name != ms[j].name
  }

  predicate ScriptWithin(s: ModuleScript, universe: set<ModuleName>)
  {
    forall m :: m in s.discovered ==> m.name in universe
  }

  /** The oracle never names a module outside the finite set of module files,
      and every script it gives ends the module loop. */
  ghost predicate OracleFits(oracle: (nat, ModuleName) -> ModuleScript, universe: set<ModuleName>)
  {
    forall p: nat, n: ModuleName ::
      ScriptWithin(oracle(p, n), universe) && Terminates(oracle(p, n).reports, p)
  }

  /** A module after `computeModule`: for a compiled module, the functions
      child and the used functions are those the computation left, and the
      used functions hold a trace collection. Other kinds are not computed. */
  function Computed(m: Module, s: ModuleScript): (r: Module)
    ensures r.name == m.name && r.kind == m.kind
  {
    if m.kind == CompiledPython then
      m.(functions := s.functions, usedFunctions := s.usedFunctions, traced := m.traced + s.usedFunctions)
    else m
  }

  /** What `optimizeModule` returns for `m` in campaign pass `p`. */
  ghost predicate Changes(oracle: (nat, ModuleName) -> ModuleScript, p: nat, m: Module)
  {
    m.kind == CompiledPython && Terminates(oracle(p, m.name).reports, p) && ModuleTouched(oracle(p, m.name).reports, p)
  }

  /** The names of the modules that computing the `visited` modules in
      campaign pass `p` brought into the registry. */
  function DiscoveredNames(oracle: (nat, ModuleName) -> ModuleScript, p: nat, visited: seq<Module>): set<ModuleName>
  {
    if visited == [] then {}
    else DiscoveredNames(oracle, p, visited[..|visited| - 1]) + Names(oracle(p, visited[|visited| - 1].name).discovered)
  }

  /** The modules of `ms` that `addUsedModule` queues, in order, when the
      registry knows the names `known`: those whose name is neither known
      nor taken by an earlier module of `ms`. */
  function Unknown(known: set<ModuleName>, ms: seq<Module>): seq<Module>
  {
    if ms == [] then []
    else
      var init := ms[..|ms| - 1];
      var m := ms[|ms| - 1];
      Unknown(known, init) + (if m.name in known + Names(init) then [] else [m])
  }

  // ---------------------------------------------------------------------------
  // Properties of the per-module loop

  /** `signalChange` adds exactly the tags of its calls; the message plays no part. */
  lemma {:induction false} SignalledTagsAre(signals: seq<Signal>, t: Tag)
    ensures t in SignalledTags(signals) <==> exists i :: 0 <= i < |signals| && t in signals[i].tags
  {
    if signals != [] {
      var init := signals[..|signals| - 1];
      SignalledTagsAre(init, t);
      if t in SignalledTags(init) {
        var i :| 0 <= i < |init| && t in init[i].tags;
        assert signals[i] == init[i];
      }
      if exists i :: 0 <= i < |signals| && t in signals[i].tags {
        var i :| 0 <= i < |signals| && t in signals[i].tags;
        if i < |init| {
          assert init[i] == signals[i];
        }
      }
    }
  }

  /** Two passes whose calls carry the same tags leave the same tag set,
      whatever messages accompany them. */
  lemma {:induction false} MessagesDoNotMatter(a: seq<Signal>, b: seq<Signal>)
    requires |a| == |b| && forall i :: 0 <= i < |a| ==> a[i].tags == b[i].tags
    ensures SignalledTags(a) == SignalledTags(b)
  {
    if a != [] {
      MessagesDoNotMatter(a[..|a| - 1], b[..|b| - 1]);
    }
  }

  /** Incomplete scopes count as a change: the pass is never quiet. */
  lemma IncompleteScopesChange(r: PassReport)
    requires r.scopesIncomplete
    ensures VarUsage in PassTags(r) && !Quiet(r)
  {
  }

  /** A pass that signalled nothing but `new_code`, with complete scopes, is quiet. */
  lemma NewCodeAloneIsQuiet(r: PassReport)
    requires !r.scopesIncomplete
    requires forall i :: 0 <= i < |r.signals| ==> r.signals[i].tags <= {NewCode}
    ensures Quiet(r)
  {
    forall t | t in SignalledTags(r.signals) ensures t == NewCode {
      SignalledTagsAre(r.signals, t);
    }
  }

  /** Outside campaign pass 1 the loop leaves after the first quiet pass. */
  lemma StopsAtFirstQuietPass(reports: seq<PassReport>, passCount: nat)
    requires passCount != 1 && Terminates(reports, passCount)
    ensures Quiet(reports[FirstStop(reports, passCount)])
    ensures forall j :: 0 <= j < FirstStop(reports, passCount) ==> !Quiet(reports[j])
  {
    var k := FirstStop(reports, passCount);
    forall j | 0 <= j < k ensures !Quiet(reports[j]) {
      assert !StopsAt(reports, j, passCount);
    }
  }

  /** In campaign pass 1 the first quiet pass of a run is retried once: the
      loop leaves only after two quiet passes in a row. */
  lemma RetryInFirstCampaignPass(reports: seq<PassReport>)
    requires Terminates(reports, 1)
    ensures 1 <= FirstStop(reports, 1)
    ensures Quiet(reports[FirstStop(reports, 1) - 1]) && Quiet(reports[FirstStop(reports, 1)])
  {
  }

  /** The fewest passes the loop can make: two in campaign pass 1, because
      of the retry after the first quiet pass, and one otherwise. */
  function MinPasses(passCount: nat): nat
  {
    if passCount == 1 then 2 else 1
  }

  /** The loop returns True exactly when it made more than the fewest
      passes: every pass beyond those is caused by a pass that left tags. */
  lemma TouchedIffMorePasses(reports: seq<PassReport>, passCount: nat)
    requires Terminates(reports, passCount)
    ensures ModuleTouched(reports, passCount) <==> FirstStop(reports, passCount) + 1 > MinPasses(passCount)
  {
    var k := FirstStop(reports, passCount);
    if passCount == 1 {
      RetryInFirstCampaignPass(reports);
      if k >= 2 {
        assert !StopsAt(reports, k - 1, passCount);
        assert !Quiet(reports[k - 2]);
      } else {
        assert forall j: nat :: j < k + 1 ==> Quiet(reports[j]);
      }
    } else if k > 0 {
      assert !StopsAt(reports, 0, passCount);
      assert !Quiet(reports[0]);
    }
  }

  /** A module whose first two passes in campaign pass 1 are quiet is
      computed exactly twice and reports no change. */
  lemma TwoQuietPassesInFirstCampaignPass(reports: seq<PassReport>)
    requires 2 <= |reports| && Quiet(reports[0]) && Quiet(reports[1])
    ensures Terminates(reports, 1)
    ensures FirstStop(reports, 1) == 1
    ensures !ModuleTouched(reports, 1)
  {
    assert StopsAt(reports, 1, 1);
    assert !StopsAt(reports, 0, 1);
  }

  /** Pruning keeps the used functions of both parts of a list, in order. */
  lemma {:induction false} KeepUsedAppend(a: seq<FunctionId>, b: seq<FunctionId>, used: set<FunctionId>)
    ensures KeepUsed(a + b, used) == KeepUsed(a, used) + KeepUsed(b, used)
  {
    if a != [] {
      assert (a + b)[0] == a[0] && (a + b)[1..] == a[1..] + b;
      KeepUsedAppend(a[1..], b, used);
      if a[0] in used {
        calc {
          KeepUsed(a + b, used);
          [a[0]] + KeepUsed(a[1..] + b, used);
          [a[0]] + (KeepUsed(a[1..], used) + KeepUsed(b, used));
          ([a[0]] + KeepUsed(a[1..], used)) + KeepUsed(b, used);
        }
      }
    } else {
      assert a + b == b;
    }
  }

  /** A list whose functions are all used is left as it is. */
  lemma {:induction false} KeepUsedAllUsed(functions: seq<FunctionId>, used: set<FunctionId>)
    requires forall f :: f in functions ==> f in used
    ensures KeepUsed(functions, used) == functions
  {
    if functions != [] {
      KeepUsedAllUsed(functions[1..], used);
    }
  }

  /** The cleanup leaves only used functions, and a second cleanup changes
      nothing. */
  lemma PruneIdempotent(m: Module)
    ensures OnlyUsedFunctions(Pruned(m))
    ensures Pruned(Pruned(m)) == Pruned(m)
  {
    if m.kind == CompiledPython {
      var p := Pruned(m);
      KeepUsedAllUsed(p.functions, p.usedFunctions);
      assert UnusedFunctions(p) == {};
    }
  }

  // ---------------------------------------------------------------------------
  // The driver state: the global tag set, the campaign pass counter and the
  // module registry (pending and done modules).

  class Optimizer {
    var tagSet: set<Tag>
    var passCount: nat
    var pending: seq<Module>
    var done: seq<Module>
    const universe: set<ModuleName>

    ghost predicate Valid()
      reads this
    {
      DistinctNames(done + pending) && Names(done + pending) <= universe
    }

    constructor (roots: seq<Module>, moduleFiles: set<ModuleName>)
      requires DistinctNames(roots) && Names(roots) <= moduleFiles
      ensures Valid()
      ensures pending == roots && done == [] && passCount == 0 && tagSet == {}
      ensures universe == moduleFiles
    {
      tagSet := {};
      passCount := 0;
      pending := roots;
      done := [];
      universe := moduleFiles;
      new;
      assert done + pending == roots;
    }

    /** `signalChange`: the tags are added whether or not a message is given. */
    method SignalChange(tags: set<Tag>, message: Option<string>)
      modifies this`tagSet
      ensures tagSet == old(tagSet) + tags
    {
      tagSet := tagSet + tags;
    }

    /** One `computeModule` call: clear the tag set, replay the pass's signals,
        then the driver's own adjustments. */
    method RunPass(r: PassReport)
      modifies this`tagSet
      ensures tagSet == PassTags(r)
    {
      tagSet := {};
      var s := 0;
      while s < |r.signals|
        invariant 0 <= s <= |r.signals|
        invariant tagSet == SignalledTags(r.signals[..s])
      {
        assert r.signals[..s + 1][..s] == r.signals[..s];
        SignalChange(r.signals[s].tags, r.signals[s].message);
        s := s + 1;
      }
      assert r.signals[..s] == r.signals;
      if r.scopesIncomplete {
        tagSet := tagSet + {VarUsage};
      }
      if NewCode in tagSet {
        tagSet := tagSet - {NewCode};
      }
    }

    /** `optimizeCompiledPythonModule`: repeat passes until the first quiet pass,
        retrying once at the start of each run of quiet passes during
        campaign pass 1. */
    method OptimizeCompiledPythonModule(reports: seq<PassReport>) returns (touched: bool, passes: nat)
      requires Terminates(reports, passCount)
      modifies this`tagSet
      ensures passes == FirstStop(reports, passCount) + 1
      ensures touched == ModuleTouched(reports, passCount)
      ensures tagSet == {}
    {
      ghost var k := FirstStop(reports, passCount);
      touched := false;
      var unchangedCount := 0;
      var i := 0;
      while true
        invariant 0 <= i <= k
        invariant unchangedCount == if i > 0 && Quiet(reports[i - 1]) then 1 else 0
        invariant touched == AnyTagged(reports, i)
        decreases k - i
      {
        RunPass(reports[i]);
        if tagSet == {} {
          unchangedCount := unchangedCount + 1;
          if unchangedCount == 1 && passCount == 1 {
            assert Retries(reports, i, passCount);
            i := i + 1;
            continue;
          }
          assert StopsAt(reports, i, passCount);
          passes := i + 1;
          assert touched == AnyTagged(reports, passes) by {
            if AnyTagged(reports, passes) {
              var j: nat :| j < passes && !Quiet(reports[j]);
              assert j < i;
            }
          }
          return;
        }
        unchangedCount := 0;
        touched := true;
        assert !Quiet(reports[i]);
        i := i + 1;
      }
    }

    /** `optimizeModule`: a fresh tag set, then only compiled modules are
        optimized; shared-library and uncompiled modules report no change. */
    method OptimizeModule(m: Module, reports: seq<PassReport>) returns (changed: bool)
      requires m.kind == CompiledPython ==> Terminates(reports, passCount)
      modifies this`tagSet
      ensures changed <==> m.kind == CompiledPython && ModuleTouched(reports, passCount)
    {
      tagSet := {};
      if m.kind == PythonShlib {
        changed := false;
      } else if m.kind == CompiledPython {
        var passes;
        changed, passes := OptimizeCompiledPythonModule(reports);
      } else {
        changed := false;
      }
    }

    /** `ModuleRegistry.addUsedModule`: a module not yet known becomes pending. */
    method AddUsedModule(m: Module)
      requires Valid() && m.name in universe
      modifies this`pending
      ensures Valid()
      ensures Names(done + pending) == old(Names(done + pending)) + {m.name}
      ensures pending == if m.name in old(Names(done + pending)) then old(pending) else old(pending) + [m]
    {
      NamesAppend(done, pending);
      if m.name !in Names(done) && m.name !in Names(pending) {
        pending := pending + [m];
        assert done + pending == (done + old(pending)) + [m];
        NamesAppend(done + old(pending), [m]);
        assert Names([m]) == {m.name} by { assert [m][0] == m; }
      } else {
        assert m.name in Names(done + pending);
      }
    }

    /** `ModuleRegistry.startTraversal`: done modules become pending again. */
    method StartTraversal()
      requires Valid()
      modifies this`pending, this`done
      ensures Valid()
      ensures pending == old(done) + old(pending) && done == []
    {
      pending := done + pending;
      done := [];
      assert done + pending == old(done) + old(pending);
    }

    /** The post-pass cleanup: every done compiled module keeps only its used
        functions, in order, and the unused ones lose their trace collection. */
    method PruneUnusedFunctions()
      requires Valid()
      modifies this`done
      ensures Valid()
      ensures |done| == |old(done)|
      ensures forall i :: 0 <= i < |done| ==> done[i] == Pruned(old(done)[i])
      ensures forall i :: 0 <= i < |done| ==> OnlyUsedFunctions(done[i])
    {
      ghost var before := done;
      for i := 0 to |done|
        invariant |done| == |before|
        invariant forall j :: 0 <= j < i ==> done[j] == Pruned(before[j])
        invariant forall j :: i <= j < |done| ==> done[j] == before[j]
      {
        var m := done[i];
        if m.kind == CompiledPython {
          done := done[i := m.(functions := KeepUsed(m.functions, m.usedFunctions),
                               traced := m.traced - UnusedFunctions(m))];
        }
      }
      assert forall j :: 0 <= j < |done + pending| ==> (done + pending)[j].name == (before + pending)[j].name;
      NamesEqual(done + pending, before + pending);
      forall j | 0 <= j < |done| ensures OnlyUsedFunctions(done[j]) {
        PruneIdempotent(before[j]);
      }
    }

    /** The modules an optimization brought into the game are added in turn:
        afterwards the registry knows every one of them, and the unknown ones
        are queued in order. */
    method AddUsedModules(ms: seq<Module>)
      requires Valid() && forall m :: m in ms ==> m.name in universe
      modifies this`pending
      ensures Valid()
      ensures Names(done + pending) == old(Names(done + pending)) + Names(ms)
      ensures pending == old(pending) + Unknown(old(Names(done + pending)), ms)
    {
      ghost var known := Names(done + pending);
      for d := 0 to |ms|
        invariant Valid()
        invariant Names(done + pending) == known + Names(ms[..d])
        invariant pending == old(pending) + Unknown(known, ms[..d])
      {
        assert ms[..d + 1][..d] == ms[..d] && ms[..d + 1][d] == ms[d];
        assert ms[..d + 1] == ms[..d] + [ms[d]];
        NamesAppend(ms[..d], [ms[d]]);
        assert Names([ms[d]]) == {ms[d].name} by { assert [ms[d]][0] == ms[d]; }
        assert ms[d] in ms;
        AddUsedModule(ms[d]);
      }
      assert ms[..|ms|] == ms;
    }

    /** `ModuleRegistry.nextModule` followed by `optimizeModule`: the first
        pending module is computed and becomes done. */
    method TakeNextModule(oracle: (nat, ModuleName) -> ModuleScript) returns (m: Module, changed: bool)
      requires Valid() && OracleFits(oracle, universe) && pending != []
      modifies this`pending, this`done, this`tagSet
      ensures Valid()
      ensures m == old(pending[0]) && pending == old(pending[1..])
      ensures done == old(done) + [Computed(m, oracle(passCount, m.name))]
      ensures |universe - Names(done)| < old(|universe - Names(done)|)
      ensures Names(done + pending) == old(Names(done + pending))
      ensures changed <==> Changes(oracle, passCount, m)
      ensures DiscoveredNames(oracle, passCount, done)
              == DiscoveredNames(oracle, passCount, old(done)) + Names(oracle(passCount, m.name).discovered)
      ensures NoneChanged(oracle, passCount, done) <==> NoneChanged(oracle, passCount, old(done)) && !changed
      ensures AllComputedIn(oracle, passCount, old(done)) ==> AllComputedIn(oracle, passCount, done)
    {
      m := pending[0];
      NextModuleFacts(oracle, passCount, universe, done, pending);
      changed := ComputeModule(oracle, m);
      MoveToDone(Computed(m, oracle(passCount, m.name)));
    }

    /** `optimizeModule` on a module with the oracle's script for it. */
    method ComputeModule(oracle: (nat, ModuleName) -> ModuleScript, m: Module) returns (changed: bool)
      requires OracleFits(oracle, universe)
      modifies this`tagSet
      ensures changed <==> Changes(oracle, passCount, m)
    {
      var script := oracle(passCount, m.name);
      assert Terminates(script.reports, passCount);
      changed := OptimizeModule(m, script.reports);
    }

    /** `nextModule` hands out the first pending module; once computed it is done. */
    method MoveToDone(computed: Module)
      requires pending != [] && computed.name == pending[0].name
      modifies this`pending, this`done
      ensures pending == old(pending[1..]) && done == old(done) + [computed]
    {
      pending := pending[1..];
      done := done + [computed];
    }

    /** One visit: the next module is computed, then the modules its
        computation brought in are registered. */
    method VisitNextModule(oracle: (nat, ModuleName) -> ModuleScript) returns (changed: bool)
      requires Valid() && OracleFits(oracle, universe) && pending != []
      modifies this`pending, this`done, this`tagSet
      ensures Valid()
      ensures done == old(done) + [Computed(old(pending[0]), oracle(passCount, old(pending[0].name)))]
      ensures |universe - Names(done)| < old(|universe - Names(done)|)
      ensures changed <==> Changes(oracle, passCount, old(pending[0]))
      ensures pending == old(pending[1..]) + Unknown(old(Names(done + pending)), oracle(passCount, old(pending[0].name)).discovered)
      ensures Names(done + pending) == old(Names(done + pending)) + Names(oracle(passCount, old(pending[0].name)).discovered)
      ensures DiscoveredNames(oracle, passCount, done)
              == DiscoveredNames(oracle, passCount, old(done)) + Names(oracle(passCount, old(pending[0].name)).discovered)
      ensures NoneChanged(oracle, passCount, done) <==> NoneChanged(oracle, passCount, old(done)) && !changed
      ensures AllComputedIn(oracle, passCount, old(done)) ==> AllComputedIn(oracle, passCount, done)
    {
      var m;
      m, changed := TakeNextModule(oracle);
      AddUsedModules(oracle(passCount, m.name).discovered);
    }

    /** The body of `makeOptimizationPass`: visit pending modules, including
        those discovered on the way, until none is left. Every module known at
        the start or brought in during the pass is visited, once, and the
        result is true iff no visit reported a change. */
    method VisitAll(oracle: (nat, ModuleName) -> ModuleScript) returns (finished: bool)
      requires Valid() && OracleFits(oracle, universe)
      requires done == []
      modifies this`pending, this`done, this`tagSet
      ensures Valid() && pending == []
      ensures finished <==> NoneChanged(oracle, passCount, done)
      ensures Names(done) == old(Names(pending)) + DiscoveredNames(oracle, passCount, done)
      ensures AllComputedIn(oracle, passCount, done)
    {
      ghost var known := Names(pending);
      assert done + pending == pending;
      finished := true;
      while pending != []
        invariant Valid()
        invariant PassSoFar(oracle, known, finished)
        decreases |universe - Names(done)|
      {
        finished := VisitStep(oracle, known, finished);
      }
      assert done + pending == done;
    }

    /** What a campaign pass has established after each visit, starting from
        the modules `known` at its start. */
    ghost predicate PassSoFar(oracle: (nat, ModuleName) -> ModuleScript, known: set<ModuleName>, finished: bool)
      reads this
    {
      && (finished <==> NoneChanged(oracle, passCount, done))
      && Names(done + pending) == known + DiscoveredNames(oracle, passCount, done)
      && AllComputedIn(oracle, passCount, done)
    }

    /** One iteration of the pass loop. */
    method VisitStep(oracle: (nat, ModuleName) -> ModuleScript, ghost known: set<ModuleName>, finished: bool)
      returns (finished': bool)
      requires Valid() && OracleFits(oracle, universe) && pending != []
      requires PassSoFar(oracle, known, finished)
      modifies this`pending, this`done, this`tagSet
      ensures Valid() && PassSoFar(oracle, known, finished')
      ensures |universe - Names(done)| < old(|universe - Names(done)|)
    {
      var changed := VisitNextModule(oracle);
      finished' := finished && !changed;
    }

    /** `makeOptimizationPass`: a new campaign pass over every module, then
        unused functions are pruned. Reports whether no visited module changed. */
    method MakeOptimizationPass(oracle: (nat, ModuleName) -> ModuleScript) returns (finished: bool)
      requires Valid() && OracleFits(oracle, universe)
      modifies this
      ensures Valid()
      ensures passCount == old(passCount) + 1
      ensures pending == []
      ensures finished <==> NoneChanged(oracle, passCount, done)
      ensures Names(done) == old(Names(done + pending)) + DiscoveredNames(oracle, passCount, done)
      ensures forall i :: 0 <= i < |done| ==> PrunedIn(oracle, passCount, done[i])
    {
      StartTraversal();
      passCount := passCount + 1;
      finished := VisitAll(oracle);
      ghost var visited := done;
      PruneUnusedFunctions();
      NamesEqual(done, visited);
      DiscoveredNamesEqual(oracle, passCount, done, visited);
      NoneChangedByNames(oracle, passCount, done, visited);
      forall i | 0 <= i < |done| ensures PrunedIn(oracle, passCount, done[i]) {
        AllComputedAt(oracle, passCount, visited, i);
      }
    }

    /** `optimize`: one pass, then further passes until one reports no change.
        The compiler has no cap on passes; `fuel` bounds the further passes. */
    method Optimize(oracle: (nat, ModuleName) -> ModuleScript, fuel: nat) returns (finished: bool, passes: nat)
      requires Valid() && OracleFits(oracle, universe)
      modifies this
      ensures Valid()
      ensures 1 <= passes <= fuel + 1
      ensures passCount == old(passCount) + passes
      ensures pending == []
      ensures finished <==> NoneChanged(oracle, passCount, done)
      ensures !finished ==> passes == fuel + 1
      ensures old(Names(done + pending)) <= Names(done)
    {
      finished := MakeOptimizationPass(oracle);
      passes := 1;
      while !finished && passes <= fuel
        invariant Valid() && pending == []
        invariant 1 <= passes <= fuel + 1
        invariant passCount == old(passCount) + passes
        invariant finished <==> NoneChanged(oracle, passCount, done)
        invariant old(Names(done + pending)) <= Names(done)
        decreases fuel + 1 - passes
      {
        assert done + pending == done;
        finished := MakeOptimizationPass(oracle);
        passes := passes + 1;
      }
    }
  }

  /** A compiled module holds the functions child and used functions its
      computation in campaign pass `p` left. */
  ghost predicate ComputedIn(oracle: (nat, ModuleName) -> ModuleScript, p: nat, m: Module)
  {
    m.kind == CompiledPython ==>
      m.functions == oracle(p, m.name).functions && m.usedFunctions == oracle(p, m.name).usedFunctions
  }

  /** After the cleanup of campaign pass `p`, a compiled module holds the used
      functions of that pass's computation, in the order it left them. */
  ghost predicate PrunedIn(oracle: (nat, ModuleName) -> ModuleScript, p: nat, m: Module)
  {
    m.kind == CompiledPython ==>
      m.usedFunctions == oracle(p, m.name).usedFunctions
      && m.functions == KeepUsed(oracle(p, m.name).functions, oracle(p, m.name).usedFunctions)
  }

  // ---------------------------------------------------------------------------
  // Helper lemmas about registry names

  lemma NamesAppend(a: seq<Module>, b: seq<Module>)
    ensures Names(a + b) == Names(a) + Names(b)
  {
    forall n | n in Names(a) + Names(b) ensures n in Names(a + b) {
      if n in Names(a) {
        var i :| 0 <= i < |a| && a[i].name == n;
        assert (a + b)[i] == a[i];
      } else {
        var i :| 0 <= i < |b| && b[i].name == n;
        assert (a + b)[|a| + i] == b[i];
      }
    }
  }

  lemma NamesEqual(a: seq<Module>, b: seq<Module>)
    requires |a| == |b|
    requires forall j :: 0 <= j < |a| ==> a[j].name == b[j].name
    ensures Names(a) == Names(b)
  {
  }

  lemma {:induction false} DiscoveredNamesEqual(oracle: (nat, ModuleName) -> ModuleScript, p: nat,
                                                a: seq<Module>, b: seq<Module>)
    requires |a| == |b|
    requires forall j :: 0 <= j < |a| ==> a[j].name == b[j].name
    ensures DiscoveredNames(oracle, p, a) == DiscoveredNames(oracle, p, b)
  {
    if a != [] {
      DiscoveredNamesEqual(oracle, p, a[..|a| - 1], b[..|b| - 1]);
    }
  }

  lemma DiscoveredNamesAppend(oracle: (nat, ModuleName) -> ModuleScript, p: nat, visited: seq<Module>, m: Module)
    ensures DiscoveredNames(oracle, p, visited + [m])
            == DiscoveredNames(oracle, p, visited) + Names(oracle(p, m.name).discovered)
  {
    assert (visited + [m])[..|visited|] == visited;
  }

  /** No module of `ms` reports a change in campaign pass `p`. */
  ghost predicate NoneChanged(oracle: (nat, ModuleName) -> ModuleScript, p: nat, ms: seq<Module>)
    decreases |ms|
  {
    ms != [] ==> NoneChanged(oracle, p, ms[..|ms| - 1]) && !Changes(oracle, p, ms[|ms| - 1])
  }

  /** Every module of `ms` holds what its computation in campaign pass `p` left. */
  ghost predicate AllComputedIn(oracle: (nat, ModuleName) -> ModuleScript, p: nat, ms: seq<Module>)
    decreases |ms|
  {
    ms != [] ==> AllComputedIn(oracle, p, ms[..|ms| - 1]) && ComputedIn(oracle, p, ms[|ms| - 1])
  }

  lemma {:induction false} AllComputedAt(oracle: (nat, ModuleName) -> ModuleScript, p: nat, ms: seq<Module>, i: nat)
    requires AllComputedIn(oracle, p, ms) && i < |ms|
    ensures ComputedIn(oracle, p, ms[i])
    decreases |ms|
  {
    if i < |ms| - 1 {
      AllComputedAt(oracle, p, ms[..|ms| - 1], i);
    }
  }

  lemma AllComputedAppend(oracle: (nat, ModuleName) -> ModuleScript, p: nat, ms: seq<Module>, m: Module)
    requires AllComputedIn(oracle, p, ms) && ComputedIn(oracle, p, m)
    ensures AllComputedIn(oracle, p, ms + [m])
  {
    assert (ms + [m])[..|ms|] == ms;
  }

  lemma NoneChangedAppend(oracle: (nat, ModuleName) -> ModuleScript, p: nat, ms: seq<Module>, m: Module)
    ensures NoneChanged(oracle, p, ms + [m]) <==> NoneChanged(oracle, p, ms) && !Changes(oracle, p, m)
  {
    assert (ms + [m])[..|ms|] == ms;
  }

  /** Whether a module reports a change depends only on its name and kind. */
  lemma ChangesByName(oracle: (nat, ModuleName) -> ModuleScript, p: nat, a: Module, b: Module)
    requires a.name == b.name && a.kind == b.kind
    ensures Changes(oracle, p, a) == Changes(oracle, p, b)
  {
  }

  lemma {:induction false} NoneChangedByNames(oracle: (nat, ModuleName) -> ModuleScript, p: nat, a: seq<Module>, b: seq<Module>)
    requires |a| == |b|
    requires forall j :: 0 <= j < |a| ==> a[j].name == b[j].name && a[j].kind == b[j].kind
    ensures NoneChanged(oracle, p, a) == NoneChanged(oracle, p, b)
    decreases |a|
  {
    if a != [] {
      NoneChangedByNames(oracle, p, a[..|a| - 1], b[..|b| - 1]);
      ChangesByName(oracle, p, a[|a| - 1], b[|b| - 1]);
    }
  }

  lemma ComputedIsIn(oracle: (nat, ModuleName) -> ModuleScript, p: nat, m: Module)
    ensures ComputedIn(oracle, p, Computed(m, oracle(p, m.name)))
  {
  }

  /** What moving the next pending module, computed, to the done list
      changes about the registry. */
  lemma NextModuleFacts(oracle: (nat, ModuleName) -> ModuleScript, p: nat, universe: set<ModuleName>,
                        done: seq<Module>, pending: seq<Module>)
    requires pending != [] && DistinctNames(done + pending) && Names(done + pending) <= universe
    ensures var c := Computed(pending[0], oracle(p, pending[0].name));
      && DistinctNames((done + [c]) + pending[1..])
      && Names((done + [c]) + pending[1..]) == Names(done + pending)
      && Names(done + [c]) == Names(done) + {pending[0].name}
      && |universe - Names(done + [c])| < |universe - Names(done)|
      && DiscoveredNames(oracle, p, done + [c]) == DiscoveredNames(oracle, p, done) + Names(oracle(p, pending[0].name).discovered)
      && (NoneChanged(oracle, p, done + [c]) <==> NoneChanged(oracle, p, done) && !Changes(oracle, p, pending[0]))
      && (AllComputedIn(oracle, p, done) ==> AllComputedIn(oracle, p, done + [c]))
  {
    var m := pending[0];
    var c := Computed(m, oracle(p, m.name));
    NextModuleMovesName(done, pending, c);
    assert m.name in universe by {
      assert (done + pending)[|done|] == m;
    }
    ShrinkUniverse(universe, Names(done), m.name);
    DiscoveredNamesAppend(oracle, p, done, c);
    NoneChangedAppend(oracle, p, done, c);
    ChangesByName(oracle, p, c, m);
    ComputedIsIn(oracle, p, m);
    if AllComputedIn(oracle, p, done) {
      AllComputedAppend(oracle, p, done, c);
    }
  }

  lemma NextModuleMovesName(done: seq<Module>, pending: seq<Module>, computed: Module)
    requires pending != [] && DistinctNames(done + pending) && computed.name == pending[0].name
    ensures DistinctNames((done + [computed]) + pending[1..])
    ensures Names((done + [computed]) + pending[1..]) == Names(done + pending)
    ensures pending[0].name !in Names(done)
    ensures Names(done + [computed]) == Names(done) + {computed.name}
  {
    var moved := (done + [computed]) + pending[1..];
    assert |moved| == |done + pending|;
    assert forall j :: 0 <= j < |moved| ==> moved[j].name == (done + pending)[j].name;
    NamesEqual(moved, done + pending);
    forall i | 0 <= i < |done| ensures done[i].name != pending[0].name {
      assert (done + pending)[i] == done[i] && (done + pending)[|done|] == pending[0];
    }
    NamesAppend(done, [computed]);
    assert Names([computed]) == {computed.name} by { assert [computed][0] == computed; }
  }

  lemma ShrinkUniverse(universe: set<ModuleName>, done: set<ModuleName>, n: ModuleName)
    requires n in universe && n !in done
    ensures |universe - (done + {n})| < |universe - done|
  {
    assert universe - (done + {n}) == (universe - done) - {n};
  }
}
