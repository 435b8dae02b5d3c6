/** The exec and eval nodes: whether an exec needs a locals dictionary, the
    child slots of the exec statement, and the variables an inline exec
    provides to the code it runs. */
module ExecEvalNodes {
  import opened Common

  /** The kinds of argument nodes the predicates tell apart. */
  datatype ArgKind =
    | ConstantNone
    | MakeDict
    | BuiltinGlobals
    | BuiltinLocals
    | BuiltinDir0
    | BuiltinVars
    | OtherExpression(id: nat)

  /** `_couldBeNone`: an absent argument and any kind not known to produce a
      dictionary could be `None`. */
  predicate CouldBeNone(node: Option<ArgKind>)
  {
    match node
    case None => true
    case Some(k) => !(k in {MakeDict, BuiltinGlobals, BuiltinLocals, BuiltinDir0, BuiltinVars})
  }

  /** `CPythonStatementExec.needsLocalsDict`. */
  predicate ExecNeedsLocalsDict(globals: Option<ArgKind>, locals: Option<ArgKind>)
  {
    CouldBeNone(globals)
    || globals == Some(BuiltinLocals)
    || (locals.Some? && locals.value == BuiltinLocals)
  }

  /** An exec statement gets by without a locals dictionary exactly when its
      globals is an explicit dictionary other than `locals()` and its locals is
      not `locals()`. */
  lemma ExecWithoutLocalsDict(globals: Option<ArgKind>, locals: Option<ArgKind>)
    ensures !ExecNeedsLocalsDict(globals, locals) <==>
      globals.Some? && globals.value in {MakeDict, BuiltinGlobals, BuiltinDir0, BuiltinVars}
      && locals != Some(BuiltinLocals)
  {
  }

  /** `_couldBeNone` answers no exactly for the nodes known to produce a
      dictionary; a `None` constant, an absent node and an unknown kind could
      be `None`. */
  lemma CouldBeNoneKinds(node: Option<ArgKind>)
    ensures CouldBeNone(node) <==>
      node.None? || node.value == ConstantNone || node.value.OtherExpression?
  {
  }

  /** The exec and eval node forms: the exec statement with its globals and
      locals, inline exec, and the builtin expressions. */
  datatype ExecForm =
    | StatementExec(globals: Option<ArgKind>, locals: Option<ArgKind>)
    | InlineExec
    | BuiltinEval
    | BuiltinExec
    | BuiltinExecfile

  /** The Python versions each builtin form exists in. */
  predicate Exists(f: ExecForm, version: Version)
  {
    match f
    case BuiltinExec => version >= Py30
    case BuiltinExecfile => version < Py30
    case _ => true
  }

  /** `needsLocalsDict` of each form; eval has no override, so no answer. */
  function FormNeedsLocalsDict(f: ExecForm): Option<bool>
  {
    match f
    case StatementExec(globals, locals) => Some(ExecNeedsLocalsDict(globals, locals))
    case BuiltinEval => None
    case _ => Some(true)
  }

  /** Over all forms that exist in a version: eval alone gives no answer,
      and the exec statement with an explicit dictionary other than
      `locals()` as globals, and a locals that is not `locals()`, is the only
      one that gets by without a locals dictionary. */
  lemma LocalsDictByForm(f: ExecForm, version: Version)
    requires Exists(f, version)
    ensures FormNeedsLocalsDict(f).None? <==> f == BuiltinEval
    ensures FormNeedsLocalsDict(f) == Some(false) <==>
      f.StatementExec? && f.globals.Some?
      && f.globals.value in {MakeDict, BuiltinGlobals, BuiltinDir0, BuiltinVars}
      && f.locals != Some(BuiltinLocals)
  {
    if f.StatementExec? {
      ExecWithoutLocalsDict(f.globals, f.locals);
    }
  }

  // ---------------------------------------------------------------------------
  // The exec statement

  datatype ChildName = SourceChild | GlobalsChild | LocalsChild

  /** `convertNoneConstantToNone`: a `None` constant becomes no node. */
  function ConvertNoneConstantToNone(value: Option<ArgKind>): (r: Option<ArgKind>)
    ensures r.None? <==> value.None? || value == Some(ConstantNone)
    ensures r.Some? ==> r == value
  {
    if value == Some(ConstantNone) then None else value
  }

  /** `CPythonStatementExec` with its three child slots. */
  class ExecStatement {
    var source: Option<ArgKind>
    var globals: Option<ArgKind>
    var locals: Option<ArgKind>

    constructor (sourceCode: Option<ArgKind>, globalsArg: Option<ArgKind>, localsArg: Option<ArgKind>)
      ensures source == sourceCode && globals == globalsArg && locals == localsArg
    {
      source := sourceCode;
      globals := globalsArg;
      locals := localsArg;
    }

    /** `needsLocalsDict`. */
    predicate NeedsLocalsDict()
      reads this
    {
      ExecNeedsLocalsDict(globals, locals)
    }

    /** The statement gets by without a locals dictionary exactly when its
        slots hold an explicit dictionary other than `locals()` as globals
        and a locals that is not `locals()`. */
    lemma NoLocalsDictIffExplicitDict()
      ensures !NeedsLocalsDict() <==>
        globals.Some? && globals.value in {MakeDict, BuiltinGlobals, BuiltinDir0, BuiltinVars}
        && locals != Some(BuiltinLocals)
    {
      ExecWithoutLocalsDict(globals, locals);
    }

    /** `setChild`: the globals and locals slots turn a `None` constant into no
        node; the source slot stores the value as given. */
    method SetChild(name: ChildName, value: Option<ArgKind>)
      modifies this
      ensures name == SourceChild ==> source == value && globals == old(globals) && locals == old(locals)
      ensures name == GlobalsChild ==>
        globals == ConvertNoneConstantToNone(value) && source == old(source) && locals == old(locals)
      ensures name == LocalsChild ==>
        locals == ConvertNoneConstantToNone(value) && source == old(source) && globals == old(globals)
    {
      match name
      case SourceChild => source := value;
      case GlobalsChild => globals := ConvertNoneConstantToNone(value);
      case LocalsChild => locals := ConvertNoneConstantToNone(value);
    }
  }

  /** Setting the globals slot to a `None` constant makes the statement need a
      locals dictionary; setting the locals slot to one is the same as no
      locals argument. */
  lemma NoneConstantsInSlots(locals: Option<ArgKind>, globals: Option<ArgKind>)
    ensures ExecNeedsLocalsDict(ConvertNoneConstantToNone(Some(ConstantNone)), locals)
    ensures ExecNeedsLocalsDict(globals, ConvertNoneConstantToNone(Some(ConstantNone)))
            == ExecNeedsLocalsDict(globals, None)
  {
  }

  // ---------------------------------------------------------------------------
  // Inline exec and the variables it provides

  /** Where an inline exec sits: directly in a module, or in some function. */
  datatype Provider = ModuleProvider(moduleName: string) | FunctionProvider(id: nat)

  datatype Variable =
    | ModuleVariable(moduleName: string, name: string)
    | LocalVariable(owner: nat, name: string)

  /** `createProvidedVariable`: in a module the module's own variable, else a
      fresh local variable of the enclosing function. */
  function CreateProvidedVariable(provider: Provider, name: string): (v: Variable)
    ensures v.name == name
    ensures v.ModuleVariable? <==> provider.ModuleProvider?
    ensures v.ModuleVariable? ==> v.moduleName == provider.moduleName
    ensures v.LocalVariable? ==> v.owner == provider.id
  {
    match provider
    case ModuleProvider(m) => ModuleVariable(m, name)
    case FunctionProvider(f) => LocalVariable(f, name)
  }

  /** The provided-variable registry after `getVariableForAssignment(name)`, and
      the variable it returns. */
  function Provide(providing: map<string, Variable>, provider: Provider, name: string): (map<string, Variable>, Variable)
  {
    if name in providing then (providing, providing[name])
    else var v := CreateProvidedVariable(provider, name); (providing[name := v], v)
  }

  /** Asking twice gives the same variable and leaves the registry as the
      first request left it. */
  lemma ProvideIdempotent(providing: map<string, Variable>, provider: Provider, name: string)
    ensures var (p1, v1) := Provide(providing, provider, name);
      var (p2, v2) := Provide(p1, provider, name);
      p2 == p1 && v2 == v1
  {
  }

  /** A registry keyed by variable name keeps that property. */
  lemma ProvideKeepsNames(providing: map<string, Variable>, provider: Provider, name: string)
    requires forall k :: k in providing ==> providing[k].name == k
    ensures var (p, v) := Provide(providing, provider, name);
      v.name == name && name in p && p[name] == v
      && (forall k :: k in p ==> p[k].name == k)
      && (forall k :: k in providing ==> k in p && p[k] == providing[k])
  {
  }

  /** `CPythonStatementExecInline`: the provided-variable registry and the log
      of `registerProvidedVariable` calls. */
  class ExecInlineStatement {
    const provider: Provider
    var providing: map<string, Variable>
    var registered: seq<Variable>

    ghost predicate Valid()
      reads this
    {
      forall k :: k in providing ==> providing[k].name == k
    }

    constructor (enclosing: Provider)
      ensures Valid() && provider == enclosing && providing == map[] && registered == []
    {
      provider := enclosing;
      providing := map[];
      registered := [];
    }

    /** `getVariableForAssignment`: an already provided variable is returned
        without registering it again; otherwise the variable is created,
        registered and returned. */
    method GetVariableForAssignment(name: string) returns (v: Variable)
      requires Valid()
      modifies this`providing, this`registered
      ensures Valid()
      ensures (providing, v) == Provide(old(providing), provider, name)
      ensures name in old(providing) ==> registered == old(registered)
      ensures name !in old(providing) ==> registered == old(registered) + [v]
    {
      if name in providing {
        return providing[name];
      }
      v := CreateProvidedVariable(provider, name);
      providing := providing[name := v];
      registered := registered + [v];
    }

    /** `getVariableForReference`: the same as for an assignment. */
    method GetVariableForReference(name: string) returns (v: Variable)
      requires Valid()
      modifies this`providing, this`registered
      ensures Valid()
      ensures (providing, v) == Provide(old(providing), provider, name)
      ensures name in old(providing) ==> registered == old(registered)
      ensures name !in old(providing) ==> registered == old(registered) + [v]
    {
      v := GetVariableForAssignment(name);
    }
  }
}
