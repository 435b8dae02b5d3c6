/** Hard-module imports and the import nodes' compute decisions.

    A "hard" module is one the code generator imports directly. For each hard
    module a static table says how far the optimizer may trust an attribute
    lookup on it; `ComputeExpressionAttribute` turns that trust into a
    replacement node, a change tag and an exception escape.

    The host Python the compiler runs under enters as a `Host` value: its
    version, the `__future__` feature names and the `importlib` sub-packages.
    Reflection on the imported module (`hasattr`, `__file__`) enters as
    parameters. */
module ImportNodes {
  import opened Common

  // ---------------------------------------------------------------------------
  // Trust tables

  /** The trust levels. `trust_future` is the same value as `trust_exist`. */
  datatype Trust =
    | TrustUndefined
    | TrustConstant
    | TrustExist
    | TrustImportable
    | TrustNode
    | TrustMayExist
    | TrustNotExist

  /** The facts about the running Python that the tables depend on. */
  datatype Host = Host(
    version: Version,
    futureKeys: set<string>,
    importlibSubPackages: set<string>,
    standalone: bool)

  const HardModules: set<string> := {
    "os", "sys", "types", "typing", "__future__", "site", "importlib",
    "_frozen_importlib", "_frozen_importlib_external", "pkgutil", "functools"
  }

  /** Hard modules other than `site` are imported without side effects. */
  predicate IsHardModuleWithoutSideEffect(moduleName: string)
  {
    moduleName in HardModules && moduleName != "site"
  }

  /** The trust of the `sys` attributes, which depends on the version. */
  function SysTrust(version: Version): map<string, Trust>
  {
    map[
      "version" := TrustConstant,
      "stdout" := TrustExist,
      "stderr" := TrustExist,
      "version_info" := if version < Py27 then TrustConstant else TrustNode,
      "exc_type" := if version < Py30 then TrustMayExist else TrustNotExist,
      "exc_value" := if version < Py30 then TrustMayExist else TrustNotExist,
      "exc_traceback" := if version < Py30 then TrustMayExist else TrustNotExist
    ]
  }

  /** `hard_modules_trust[moduleName]`, including the later registration of
      `importlib.import_module` as node-producing. */
  function ModuleTrust(host: Host, moduleName: string): map<string, Trust>
    requires moduleName in HardModules
  {
    if moduleName == "sys" then SysTrust(host.version)
    else if moduleName == "typing" then map["TYPE_CHECKING" := TrustConstant]
    else if moduleName == "__future__" then map k | k in host.futureKeys :: TrustExist
    else if moduleName == "importlib" then
      (map k | k in host.importlibSubPackages :: TrustImportable)["import_module" := TrustNode]
    else if moduleName == "pkgutil" then map["get_data" := TrustExist]
    else if moduleName == "functools" then map["partial" := TrustExist]
    else map[]
  }

  /** The trust lookup, which defaults to `trust_undefined`. */
  function TrustOf(host: Host, moduleName: string, attribute: string): Trust
    requires moduleName in HardModules
  {
    var table := ModuleTrust(host, moduleName);
    if attribute in table then table[attribute] else TrustUndefined
  }

  /** The nodes the import models produce. `Unchanged` is the node itself. */
  datatype ImportNode =
    | Unchanged
    | RaiseAttributeError(message: string)
    | RaiseImportTypeError
    | ConstantRef(moduleName: string, attribute: string)
    | SysVersionInfoRef
    | ImportlibImportModuleRef
    | ImportlibImportModuleCall(name: ArgValue, package: Option<ArgValue>)
    | ImportModuleNameHard(moduleName: string, attribute: string)
    | ImportModuleFixed(moduleName: string)
    | ImportModuleHard(moduleName: string)

  /** `trust_node_factory`: the node each node-producing attribute becomes. */
  function NodeFactory(version: Version): map<(string, string), ImportNode>
  {
    (if version < Py27 then map[] else map[("sys", "version_info") := SysVersionInfoRef])
      [("importlib", "import_module") := ImportlibImportModuleRef]
  }

  /** No table stores `trust_undefined` explicitly. */
  lemma TablesNeverStoreUndefined(host: Host, moduleName: string, attribute: string)
    requires moduleName in HardModules
    ensures attribute in ModuleTrust(host, moduleName) <==> TrustOf(host, moduleName, attribute) != TrustUndefined
  {
  }

  /** Every node-producing attribute has a registered factory, so the factory
      lookup of `computeExpressionAttribute` never fails. */
  lemma NodeTrustHasFactory(host: Host, moduleName: string, attribute: string)
    requires moduleName in HardModules
    requires TrustOf(host, moduleName, attribute) == TrustNode
    ensures (moduleName, attribute) in NodeFactory(host.version)
  {
  }

  /** Which trust levels the tables use: node-producing entries are exactly
      the two with a factory, importable entries are the `importlib`
      sub-packages, only `sys` has attributes that may or may not exist, and
      the modules without a table trust nothing. */
  lemma TrustLevelsByModule(host: Host, moduleName: string, attribute: string)
    requires moduleName in HardModules
    ensures TrustOf(host, moduleName, attribute) == TrustNode ==>
      (moduleName == "sys" && attribute == "version_info" && host.version >= Py27)
      || (moduleName == "importlib" && attribute == "import_module")
    ensures TrustOf(host, moduleName, attribute) == TrustImportable ==>
      moduleName == "importlib" && attribute in host.importlibSubPackages && attribute != "import_module"
    ensures TrustOf(host, moduleName, attribute) in {TrustMayExist, TrustNotExist} ==> moduleName == "sys"
    ensures moduleName == "__future__" ==> (TrustOf(host, moduleName, attribute) == TrustExist <==> attribute in host.futureKeys)
    ensures moduleName in {"os", "types", "site", "_frozen_importlib", "_frozen_importlib_external"} ==>
      TrustOf(host, moduleName, attribute) == TrustUndefined
  {
  }

  /** The version-dependent `sys` entries decide the lookups: `version_info`
      becomes the version-info node from 2.7 on and a constant before, and a
      missing `exc_*` attribute becomes a raise on Python 3 but is left alone
      on Python 2, where it may exist. */
  lemma SysTrustDrivesLookups(host: Host, attribute: string, moduleFile: Option<string>)
    requires attribute in {"exc_type", "exc_value", "exc_traceback"}
    ensures host.version >= Py27 ==>
      ComputeExpressionAttribute(host, "sys", "version_info", true, moduleFile) == Replace(SysVersionInfoRef, NewExpression)
    ensures host.version < Py27 ==>
      ComputeExpressionAttribute(host, "sys", "version_info", true, moduleFile)
      == Replace(ConstantRef("sys", "version_info"), NewConstant)
    ensures host.version >= Py30 ==>
      ComputeExpressionAttribute(host, "sys", attribute, false, moduleFile).node.RaiseAttributeError?
    ensures host.version < Py30 ==>
      ComputeExpressionAttribute(host, "sys", attribute, false, moduleFile) == Stay(BaseException)
  {
    assert host.version >= Py30 ==> TrustOf(host, "sys", attribute) == TrustNotExist;
  }

  // ---------------------------------------------------------------------------
  // The "cannot import name" message

  /** The parts of the message: the name, whether it is shown as a repr, the
      module it is imported from and the module's location. */
  datatype ImportNameMessage = ImportNameMessage(
    name: string,
    quoted: bool,
    from: Option<string>,
    location: Option<string>)

  /** `_getImportNameErrorString`: the parts each Python version shows. */
  function ImportNameError(version: Version, standalone: bool, moduleName: string, name: string,
                           moduleFile: Option<string>): (m: ImportNameMessage)
    ensures m.name == name
    ensures m.quoted <==> version >= Py34
    ensures m.from.Some? <==> version >= Py37
    ensures m.from.Some? ==> m.from.value == moduleName
    ensures m.location.Some? <==> version >= Py37 && !standalone
    ensures m.location == Some("unknown location") <==>
              version >= Py37 && !standalone && (moduleFile.None? || moduleFile == Some("unknown location"))
  {
    if version < Py34 then ImportNameMessage(name, false, None, None)
    else if version < Py37 then ImportNameMessage(name, true, None, None)
    else if standalone then ImportNameMessage(name, true, Some(moduleName), None)
    else
      ImportNameMessage(name, true, Some(moduleName),
                        Some(if moduleFile.Some? then moduleFile.value else "unknown location"))
  }

  /** Python's `%r` of a string, for names without quotes or backslashes. */
  function Repr(s: string): string
  {
    "'" + s + "'"
  }

  const CannotImportName: string := "cannot import name "

  /** The name as the message shows it. */
  function Shown(m: ImportNameMessage): string
  {
    if m.quoted then Repr(m.name) else m.name
  }

  function Render(m: ImportNameMessage): string
  {
    CannotImportName + Shown(m) + Details(m)
  }

  /** The module part and the location part of the message. */
  function Details(m: ImportNameMessage): string
  {
    (if m.from.Some? then " from " + Repr(m.from.value) else "")
      + (if m.location.Some? then " (" + m.location.value + ")" else "")
  }

  /** The rendered message starts with the fixed text followed by the name,
      and it closes with a parenthesis when the location is shown. */
  lemma RenderShowsName(m: ImportNameMessage)
    ensures |Render(m)| >= |CannotImportName| + |Shown(m)|
    ensures Render(m)[..|CannotImportName|] == CannotImportName
    ensures Render(m)[|CannotImportName|..|CannotImportName| + |Shown(m)|] == Shown(m)
    ensures m.location.Some? ==> Render(m)[|Render(m)| - 1] == ')'
  {
    var r := Render(m);
    var n := |CannotImportName|;
    assert r == CannotImportName + (Shown(m) + Details(m));
    assert r[..n] == CannotImportName;
    assert r[n..] == Shown(m) + Details(m);
    assert r[n..n + |Shown(m)|] == (Shown(m) + Details(m))[..|Shown(m)|];
    if m.location.Some? {
      var tail := " (" + m.location.value + ")";
      assert Details(m)[|Details(m)| - 1] == tail[|tail| - 1];
    }
  }

  // ---------------------------------------------------------------------------
  // Attribute lookups on hard modules

  /** What a compute step hands back, and what it recorded on the way: the
      exception escape, a control-flow escape and the missing-trust report. */
  datatype Outcome = Outcome(
    node: ImportNode,
    tag: Option<Tag>,
    escape: Option<ExcKind>,
    controlFlowEscape: bool,
    missingTrust: bool)

  /** A step that leaves the node alone and records one exception escape. */
  function Stay(escape: ExcKind): Outcome
  {
    Outcome(Unchanged, None, Some(escape), false, false)
  }

  function Replace(node: ImportNode, tag: Tag): Outcome
  {
    Outcome(node, Some(tag), None, false, false)
  }

  /** `ExpressionImportModuleHard.mayRaiseException`: a module with side
      effects is not imported at compile time and may raise. */
  predicate HardImportMayRaise(moduleName: string)
  {
    !IsHardModuleWithoutSideEffect(moduleName)
  }

  /** The attribute names a trust table has no entry for are never used up:
      there is always a string longer than every entry. */
  lemma {:induction false} LongerThanAll(names: set<string>) returns (s: string)
    ensures forall t :: t in names ==> |t| < |s|
    ensures s !in names
  {
    if names == {} {
      s := "";
    } else {
      var x :| x in names;
      var rest := LongerThanAll(names - {x});
      s := rest + x + "a";
    }
  }

  /** A hard import may raise exactly when attribute lookups on it can never
      be decided at compile time: without a module object every lookup is
      left alone with a `BaseException` escape, and with one, some attribute
      (one the table does not know) is reported as missing trust instead. */
  lemma HardImportEscapeMatchesAttribute(host: Host, moduleName: string)
    ensures HardImportMayRaise(moduleName) <==>
      forall attribute: string, attributeExists: bool, moduleFile: Option<string> ::
        ComputeExpressionAttribute(host, moduleName, attribute, attributeExists, moduleFile) == Stay(BaseException)
  {
    if !HardImportMayRaise(moduleName) {
      var attribute := LongerThanAll(ModuleTrust(host, moduleName).Keys);
      assert TrustOf(host, moduleName, attribute) == TrustUndefined;
      assert ComputeExpressionAttribute(host, moduleName, attribute, true, None).missingTrust;
    }
  }

  /** `ExpressionImportModuleHard.computeExpressionAttribute`. The module
      object exists only for side-effect-free hard modules; `attributeExists`
      is `hasattr(module, attribute)` and `moduleFile` its `__file__`. */
  function ComputeExpressionAttribute(host: Host, moduleName: string, attribute: string,
                                      attributeExists: bool, moduleFile: Option<string>): (o: Outcome)
    ensures !o.controlFlowEscape
    ensures o.tag.Some? <==> o.node != Unchanged
    ensures o.node == Unchanged ==> o.escape.Some?
    ensures o.escape.Some? ==> o.node == Unchanged || o.node.RaiseAttributeError?
    // no module object: only the escape
    ensures !IsHardModuleWithoutSideEffect(moduleName) ==> o == Stay(BaseException)
    ensures IsHardModuleWithoutSideEffect(moduleName) ==>
      var trust := TrustOf(host, moduleName, attribute);
      // importable and may-exist attributes are left alone
      ((trust == TrustImportable || trust == TrustMayExist) ==> o == Stay(BaseException))
      // a known-missing attribute becomes a raise
      && (o.node.RaiseAttributeError? <==>
            !attributeExists && trust !in {TrustUndefined, TrustImportable, TrustMayExist})
      && (o.node.RaiseAttributeError? ==>
            o.tag == Some(NewRaise) && o.escape == Some(ImportError)
            && o.node.message == Render(ImportNameError(host.version, host.standalone, moduleName, attribute, moduleFile)))
      // an undefined trust is reported and left alone
      && (o.missingTrust <==> trust == TrustUndefined)
      && (trust == TrustUndefined ==> o.node == Unchanged && o.escape == Some(ImportError))
      // the replacements of a present attribute
      && (o.node.ConstantRef? <==> attributeExists && trust == TrustConstant)
      && (o.node.ConstantRef? ==> o.tag == Some(NewConstant) && o.node == ConstantRef(moduleName, attribute))
      && (attributeExists && trust == TrustNode ==>
            o.node == NodeFactory(host.version)[(moduleName, attribute)] && o.tag == Some(NewExpression))
      && (o.node.ImportModuleNameHard? <==> attributeExists && trust in {TrustExist, TrustNotExist})
      && (o.node.ImportModuleNameHard? ==>
            o.tag == Some(NewExpression) && o.node == ImportModuleNameHard(moduleName, attribute))
  {
    if !IsHardModuleWithoutSideEffect(moduleName) then Stay(BaseException)
    else
      var trust := TrustOf(host, moduleName, attribute);
      if trust == TrustImportable then Stay(BaseException)
      else if trust == TrustMayExist then Stay(BaseException)
      else if !attributeExists && trust != TrustUndefined then
        var message := Render(ImportNameError(host.version, host.standalone, moduleName, attribute, moduleFile));
        Outcome(RaiseAttributeError(message), Some(NewRaise), Some(ImportError), false, false)
      else if trust == TrustUndefined then
        Outcome(Unchanged, None, Some(ImportError), false, true)
      else if trust == TrustConstant then
        // the attribute is there: the missing case was handled above
        assert attributeExists;
        Replace(ConstantRef(moduleName, attribute), NewConstant)
      else if trust == TrustNode then
        NodeTrustHasFactory(host, moduleName, attribute);
        Replace(NodeFactory(host.version)[(moduleName, attribute)], NewExpression)
      else
        Replace(ImportModuleNameHard(moduleName, attribute), NewExpression)
  }

  /** `ExpressionImportModuleNameHard.mayRaiseException`: its trust is looked
      up without a default, so only an attribute missing from the table may
      raise. */
  predicate NameHardMayRaise(host: Host, moduleName: string, attribute: string)
    requires moduleName in HardModules
  {
    attribute !in ModuleTrust(host, moduleName)
  }

  /** The name imports the attribute lookup creates never raise: they are only
      made for attributes the table trusts. */
  lemma CreatedNameImportsDoNotRaise(host: Host, moduleName: string, attribute: string,
                                     attributeExists: bool, moduleFile: Option<string>)
    requires ComputeExpressionAttribute(host, moduleName, attribute, attributeExists, moduleFile).node.ImportModuleNameHard?
    ensures moduleName in HardModules
    ensures !NameHardMayRaise(host, moduleName, attribute)
  {
    TablesNeverStoreUndefined(host, moduleName, attribute);
  }

  /** What `_attemptRecursion` of a hard import found, an input of the model:
      the finding and module file of `findModule`, and whether
      `_considerImport` took the module. */
  datatype HardRecursion = HardRecursion(finding: Finding, moduleFile: Option<string>, considered: bool)

  /** `ExpressionImportHardBase` in its two forms: `ExpressionImportModuleHard`
      (no import name) and `ExpressionImportModuleNameHard`. The recursion
      into the module is attempted on the first computation only. */
  class HardImport {
    const moduleName: string
    const importName: Option<string>
    /** The name import's trust; `None` when the table has no entry. */
    const trust: Option<Trust>
    var finding: Option<Finding>
    var moduleFilename: Option<string>

    constructor ModuleHard(moduleName: string)
      ensures this.moduleName == moduleName && importName.None? && trust.None?
      ensures finding.None? && moduleFilename.None?
      ensures MayRaise() <==> HardImportMayRaise(moduleName)
    {
      this.moduleName := moduleName;
      importName := None;
      trust := None;
      finding := None;
      moduleFilename := None;
    }

    /** The trust is looked up once, without a default. */
    constructor NameHard(host: Host, moduleName: string, importName: string)
      requires moduleName in HardModules
      ensures this.moduleName == moduleName && this.importName == Some(importName)
      ensures finding.None? && moduleFilename.None?
      ensures trust.Some? <==> importName in ModuleTrust(host, moduleName)
      ensures trust.Some? ==> trust.value == TrustOf(host, moduleName, importName)
      ensures MayRaise() <==> NameHardMayRaise(host, moduleName, importName)
    {
      this.moduleName := moduleName;
      this.importName := Some(importName);
      var table := ModuleTrust(host, moduleName);
      trust := if importName in table then Some(table[importName]) else None;
      finding := None;
      moduleFilename := None;
    }

    /** `mayRaiseException`: a module import without a module object, or a
        name import without trust. */
    predicate MayRaise()
    {
      if importName.None? then HardImportMayRaise(moduleName) else trust.None?
    }

    /** `computeExpressionRaw` of both forms. The source asserts that a hard
        module is found. */
    method ComputeExpressionRaw(r: HardRecursion) returns (o: Outcome, used: seq<string>)
      requires finding.None? ==> r.finding != NotFound
      modifies this`finding, this`moduleFilename
      // the recursion is attempted once; the file is kept only for a module taken
      ensures old(finding).None? ==>
        finding == Some(r.finding) && moduleFilename == (if r.considered then r.moduleFile else None)
      ensures old(finding).Some? ==> finding == old(finding) && moduleFilename == old(moduleFilename)
      // the module is reported as used exactly when its file is known
      ensures used == if moduleFilename.Some? then [moduleName] else []
      // the node stays, and records an escape exactly when it may raise
      ensures o.node == Unchanged && o.tag == None && !o.controlFlowEscape && !o.missingTrust
      ensures o.escape.Some? <==> MayRaise()
      ensures o.escape.Some? ==> o.escape.value == (if importName.None? then BaseException else AttributeError)
    {
      if finding.None? {
        finding := Some(r.finding);
        moduleFilename := r.moduleFile;
        if moduleFilename.Some? && !r.considered {
          moduleFilename := None;
        }
      }
      used := if moduleFilename.Some? then [moduleName] else [];
      if MayRaise() {
        o := Stay(if importName.None? then BaseException else AttributeError);
      } else {
        o := Outcome(Unchanged, None, None, false, false);
      }
    }
  }

  // ---------------------------------------------------------------------------
  // importlib.import_module

  /** The compile-time value of an argument node. */
  datatype ArgValue = NotConstant | ConstStr(s: string) | ConstNone | ConstOther

  /** `ExpressionImportlibImportModuleRef.computeExpressionCall`. The argument
      matching of `extractBuiltinArgs` is an input: the `name` and optional
      `package` argument it found, or `None` when the call does not fit the
      `(name, package=None)` signature and is left alone. */
  function ImportModuleRefCall(matched: Option<(ArgValue, Option<ArgValue>)>): (o: Outcome)
    ensures o.tag == Some(NewExpression) && o.escape == Some(BaseException)
    ensures matched.Some? <==> o.node.ImportlibImportModuleCall?
    ensures matched.Some? ==> o.node == ImportlibImportModuleCall(matched.value.0, matched.value.1)
  {
    var node := if matched.Some? then ImportlibImportModuleCall(matched.value.0, matched.value.1) else Unchanged;
    Outcome(node, Some(NewExpression), Some(BaseException), false, false)
  }

  /** The number of leading dots of a module name. */
  function LeadingDots(s: string): (n: nat)
    ensures n <= |s|
    ensures forall i :: 0 <= i < n ==> s[i] == '.'
    ensures n == |s| || s[n] != '.'
  {
    if s == [] || s[0] != '.' then 0 else 1 + LeadingDots(s[1..])
  }

  /** The index of the last dot of `s`, as `str.rindex` finds it. */
  function LastDot(s: string): (r: Option<nat>)
    ensures r.None? ==> forall i :: 0 <= i < |s| ==> s[i] != '.'
    ensures r.Some? ==> r.value < |s| && s[r.value] == '.'
    ensures r.Some? ==> forall i :: r.value < i < |s| ==> s[i] != '.'
  {
    if s == [] then None
    else if s[|s| - 1] == '.' then Some(|s| - 1)
    else LastDot(s[..|s| - 1])
  }

  /** `package` with its last `n` dotted components removed, or `None` when
      it has fewer than `n` dots. */
  function StripComponents(package: string, n: nat): Option<string>
  {
    if n == 0 then Some(package)
    else match LastDot(package)
      case None => None
      case Some(dot) => StripComponents(package[..dot], n - 1)
  }

  function Dots(s: string): nat
  {
    if s == [] then 0 else Dots(s[..|s| - 1]) + (if s[|s| - 1] == '.' then 1 else 0)
  }

  /** Stripping fails exactly when the package has too few components. */
  lemma {:induction false} StripFailsBeyondTopLevel(package: string, n: nat)
    ensures StripComponents(package, n).None? <==> Dots(package) < n
  {
    if n > 0 {
      match LastDot(package)
      case None =>
        NoDotsCounted(package);
      case Some(dot) =>
        DotsUpToLastDot(package, dot);
        StripFailsBeyondTopLevel(package[..dot], n - 1);
    }
  }

  lemma {:induction false} NoDotsCounted(s: string)
    requires forall i :: 0 <= i < |s| ==> s[i] != '.'
    ensures Dots(s) == 0
  {
    if s != [] {
      NoDotsCounted(s[..|s| - 1]);
    }
  }

  lemma {:induction false} DotsUpToLastDot(s: string, dot: nat)
    requires dot < |s| && s[dot] == '.'
    requires forall i :: dot < i < |s| ==> s[i] != '.'
    ensures Dots(s) == Dots(s[..dot]) + 1
    decreases |s|
  {
    if dot < |s| - 1 {
      var init := s[..|s| - 1];
      assert init[..dot] == s[..dot];
      DotsUpToLastDot(init, dot);
    } else {
      assert s[..|s| - 1] == s[..dot];
    }
  }

  /** `not package_name`: no package, or the empty string. */
  predicate NoPackage(package: Option<string>)
  {
    package.None? || package.value == ""
  }

  /** What `_resolveImportLibArgs` computes. */
  function ResolvedName(name: string, package: Option<string>): Option<string>
  {
    if |name| > 0 && name[0] == '.' then
      if NoPackage(package) then None
      else
        var level := LeadingDots(name);
        match StripComponents(package.value, level - 1)
        case None => None
        case Some(prefix) => Some(prefix + "." + name[level..])
    else if !NoPackage(package) then Some(package.value + "." + name)
    else Some(name)
  }

  /** `_resolveImportLibArgs`: count the leading dots, then find the dot that
      ends the package part to keep, one level at a time. */
  method ResolveImportLibArgs(name: string, package: Option<string>) returns (r: Option<string>)
    ensures r == ResolvedName(name, package)
  {
    if |name| > 0 && name[0] == '.' {
      if package.None? || package.value == "" {
        return None;
      }
      var pkg := package.value;
      var level := 0;
      while level < |name| && name[level] == '.'
        invariant 0 <= level <= |name|
        invariant forall i :: 0 <= i < level ==> name[i] == '.'
      {
        level := level + 1;
      }
      assert level == LeadingDots(name) by {
        LeadingDotsIsFirstNonDot(name, level);
      }
      var rest := name[level..];
      var dot: nat := |pkg|;
      var i := level;
      assert pkg[..dot] == pkg;
      while i > 1
        invariant 1 <= i <= level && dot <= |pkg|
        invariant StripComponents(pkg, level - 1) == StripComponents(pkg[..dot], i - 1)
      {
        var found := RIndexDot(pkg, dot);
        if found.None? {
          assert pkg[..dot][..|pkg[..dot]|] == pkg[..dot];
          return None;
        }
        assert pkg[..dot][..found.value] == pkg[..found.value];
        dot := found.value;
        i := i - 1;
      }
      return Some(pkg[..dot] + "." + rest);
    }
    if package.Some? && package.value != "" {
      return Some(package.value + "." + name);
    }
    return Some(name);
  }

  /** `package.rindex(".", 0, end)`: the last dot before `end`, or `None`
      where Python raises `ValueError`. */
  method RIndexDot(s: string, end: nat) returns (r: Option<nat>)
    requires end <= |s|
    ensures r == LastDot(s[..end])
  {
    var j := end;
    while j > 0 && s[j - 1] != '.'
      invariant 0 <= j <= end
      invariant LastDot(s[..end]) == LastDot(s[..j])
    {
      assert s[..j][..j - 1] == s[..j - 1];
      j := j - 1;
    }
    if j == 0 {
      return None;
    }
    return Some(j - 1);
  }

  lemma {:induction false} LeadingDotsIsFirstNonDot(s: string, n: nat)
    requires n <= |s|
    requires forall i :: 0 <= i < n ==> s[i] == '.'
    requires n == |s| || s[n] != '.'
    ensures LeadingDots(s) == n
  {
    if n > 0 {
      LeadingDotsIsFirstNonDot(s[1..], n - 1);
    }
  }

  /** One leading dot: the name lives in the package itself. */
  lemma ResolveSiblingModule(rest: string, package: string)
    requires package != "" && (rest == [] || rest[0] != '.')
    ensures ResolvedName("." + rest, Some(package)) == Some(package + "." + rest)
  {
    assert ("." + rest)[1..] == rest;
    assert LeadingDots("." + rest) == 1;
  }

  /** Two leading dots: the name lives in the package's parent. */
  lemma ResolveParentModule(rest: string, parent: string, last: string)
    requires rest == [] || rest[0] != '.'
    requires forall i :: 0 <= i < |last| ==> last[i] != '.'
    ensures ResolvedName(".." + rest, Some(parent + "." + last)) == Some(parent + "." + rest)
  {
    var name := ".." + rest;
    var pkg := parent + "." + last;
    assert name[1..] == "." + rest && name[1..][1..] == rest;
    assert LeadingDots(rest) == 0;
    assert LeadingDots(name) == 2;
    assert name[2..] == rest;
    LastDotOfSuffix(parent, last);
    assert pkg[..|parent|] == parent;
    assert StripComponents(pkg, 1) == Some(parent);
  }

  lemma {:induction false} LastDotOfSuffix(parent: string, last: string)
    requires forall i :: 0 <= i < |last| ==> last[i] != '.'
    ensures LastDot(parent + "." + last) == Some(|parent|)
    decreases |last|
  {
    var s := parent + "." + last;
    if last == [] {
      assert s[|s| - 1] == '.';
    } else {
      assert s[..|s| - 1] == parent + "." + last[..|last| - 1];
      LastDotOfSuffix(parent, last[..|last| - 1]);
    }
  }

  /** More levels than the package has components: no resolution. */
  lemma ResolveBeyondTopLevel(name: string, package: string)
    requires |name| > 0 && name[0] == '.' && package != ""
    requires Dots(package) < LeadingDots(name) - 1
    ensures ResolvedName(name, Some(package)).None?
  {
    StripFailsBeyondTopLevel(package, LeadingDots(name) - 1);
  }

  /** Absolute names: prefixed by the package if one is given. */
  lemma ResolveAbsolute(name: string, package: Option<string>)
    requires |name| == 0 || name[0] != '.'
    ensures ResolvedName(name, package) == Some(if NoPackage(package) then name else package.value + "." + name)
    ensures ResolvedName(name, package).Some?
  {
  }

  /** What an `import_module` call that is not resolved records: any code may
      run, and importing may raise. */
  const CallEscapes: Outcome := Outcome(Unchanged, None, Some(BaseException), true, false)

  /** `ExpressionImportlibImportModuleCall.computeExpression`: constant string
      arguments whose resolution succeeds become a fixed module import;
      everything else may run any code and raise. */
  function ImportlibCallCompute(name: ArgValue, package: Option<ArgValue>): (o: Outcome)
    // only a resolved call is replaced; the rest escape in both ways
    ensures o.node.ImportModuleFixed? <==> !o.controlFlowEscape
    ensures !o.node.ImportModuleFixed? ==> o == CallEscapes
    // a name that is not a constant string is never resolved
    ensures !name.ConstStr? ==> o == CallEscapes
    // nor is a package that is given but not a constant string or None
    ensures package.Some? && (package.value.NotConstant? || package.value.ConstOther?) ==> o == CallEscapes
    // without a package (or with None) the name is resolved on its own
    ensures name.ConstStr? && (package.None? || package == Some(ConstNone)) ==>
      o == match ResolvedName(name.s, None)
           case Some(resolved) => Replace(ImportModuleFixed(resolved), NewExpression)
           case None => CallEscapes
    // with a string package, against that package
    ensures name.ConstStr? && package.Some? && package.value.ConstStr? ==>
      o == match ResolvedName(name.s, Some(package.value.s))
           case Some(resolved) => Replace(ImportModuleFixed(resolved), NewExpression)
           case None => CallEscapes
  {
    var escape := CallEscapes;
    if !name.ConstStr? then escape
    else
      var pkg: Option<Option<string>> :=
        if package.None? || package.value == ConstNone then Some(None)
        else if package.value.ConstStr? then Some(Some(package.value.s))
        else None;
      if pkg.None? then escape
      else match ResolvedName(name.s, pkg.value)
        case None => escape
        case Some(resolved) => Replace(ImportModuleFixed(resolved), NewExpression)
  }

  /** The whole `importlib.import_module` cascade on a side-effect-free
      host: the attribute lookup becomes the reference node, which never
      raises; a call of it with a constant string name (and a constant string
      package, if any) becomes the call node, and that call becomes a fixed
      import of the resolved name whenever resolution succeeds. */
  lemma ImportModuleCascade(host: Host, moduleFile: Option<string>, name: string, package: Option<string>)
    ensures ComputeExpressionAttribute(host, "importlib", "import_module", true, moduleFile)
            == Replace(ImportlibImportModuleRef, NewExpression)
    ensures !NameHardMayRaise(host, "importlib", "import_module")
    ensures var packageArg := if package.Some? then Some(ConstStr(package.value)) else None;
      var call := ImportModuleRefCall(Some((ConstStr(name), packageArg)));
      call.node == ImportlibImportModuleCall(ConstStr(name), packageArg)
      && ImportlibCallCompute(call.node.name, call.node.package)
         == match ResolvedName(name, package)
            case Some(resolved) => Replace(ImportModuleFixed(resolved), NewExpression)
            case None => CallEscapes
  {
    assert TrustOf(host, "importlib", "import_module") == TrustNode;
  }

  // ---------------------------------------------------------------------------
  // __import__ calls

  datatype Finding = Absolute | Relative | BuiltIn | NotFound

  /** What `_attemptRecursion` found out, an input of the model: the finding,
      the module file, whether that file is in the standard library, and the
      modules it brought in (the imported module, the modules of the from-list
      and the packages of a dotted name). `None` is the early return when the
      level is not a constant integer. */
  datatype Recursion = Recursion(
    finding: Finding,
    moduleFile: Option<string>,
    inStandardLibrary: bool,
    importedModule: Option<string>,
    importListModules: seq<string>,
    packageModules: seq<string>)

  /** An `__import__` of `moduleName` is lowered to a hard import: a hard
      module found in the standard library, or built in. */
  predicate Lowered(moduleName: string, r: Option<Recursion>)
  {
    moduleName in HardModules && r.Some?
    && ((r.value.finding == Absolute && r.value.inStandardLibrary) || r.value.finding == BuiltIn)
  }

  /** `ExpressionBuiltinImport`: an `__import__` call whose recursion into the
      imported module is attempted at most once. */
  class BuiltinImport {
    var recurseAttempted: bool
    var finding: Option<Finding>
    var importedModule: Option<string>
    var importListModules: seq<string>
    var packageModules: Option<seq<string>>
    var builtinShape: bool
    var builtinModule: Option<string>
    var moduleFile: Option<string>

    /** Nothing is recorded before the recursion attempt. */
    ghost predicate Valid()
      reads this
    {
      !recurseAttempted ==>
        finding.None? && importedModule.None? && importListModules == [] && packageModules.None?
        && !builtinShape && builtinModule.None? && moduleFile.None?
    }

    constructor ()
      ensures Valid()
      ensures !recurseAttempted && finding == None && importedModule == None
      ensures importListModules == [] && packageModules == None
      ensures !builtinShape && builtinModule == None && moduleFile == None
    {
      recurseAttempted := false;
      finding := None;
      importedModule := None;
      importListModules := [];
      packageModules := None;
      builtinShape := false;
      builtinModule := None;
      moduleFile := None;
    }

    /** `mayRaiseException`: only a built-in module imports without error. */
    predicate MayRaise()
      reads this
    {
      finding != Some(BuiltIn)
    }

    /** `_addUsedModules`: the modules reported as used. The imported module
        comes first and the packages last; those of a module that was not
        found are skipped, the packages are reported in any case. */
    function UsedModules(): (used: seq<string>)
      reads this
      ensures var packages := if packageModules.Some? then packageModules.value else [];
        && |packages| <= |used|
        && used[|used| - |packages|..] == packages
        && (finding != Some(NotFound) && importedModule.Some? ==> 0 < |used| && used[0] == importedModule.value)
        && (finding == Some(NotFound) ==> used == packages)
        && (forall m :: m in used <==>
              m in packages
              || (finding != Some(NotFound) && (importedModule == Some(m) || m in importListModules)))
    {
      var packages := if packageModules.Some? then packageModules.value else [];
      var imported := if importedModule.Some? then [importedModule.value] else [];
      var found := if finding != Some(NotFound) then imported + importListModules else [];
      assert (found + packages)[|found|..] == packages;
      assert forall m :: m in found <==> finding != Some(NotFound) && (m in imported || m in importListModules);
      found + packages
    }

    /** Record what a recursion attempt found. */
    method ApplyRecursion(r: Option<Recursion>)
      modifies this`finding, this`moduleFile, this`importedModule, this`importListModules, this`packageModules
      ensures r.None? ==> finding == old(finding) && moduleFile == old(moduleFile)
                          && importedModule == old(importedModule)
                          && importListModules == old(importListModules)
                          && packageModules == old(packageModules)
      ensures r.Some? ==> finding == Some(r.value.finding) && moduleFile == r.value.moduleFile
                          && importedModule == (if r.value.importedModule.Some? then r.value.importedModule else old(importedModule))
                          && importListModules == old(importListModules) + r.value.importListModules
                          && packageModules == (if r.value.packageModules == [] then old(packageModules)
                                                else Some((if old(packageModules).Some? then old(packageModules).value else []) + r.value.packageModules))
    {
      if r.Some? {
        finding := Some(r.value.finding);
        moduleFile := r.value.moduleFile;
        if r.value.importedModule.Some? {
          importedModule := r.value.importedModule;
        }
        importListModules := importListModules + r.value.importListModules;
        if r.value.packageModules != [] {
          var known := if packageModules.Some? then packageModules.value else [];
          packageModules := Some(known + r.value.packageModules);
        }
      }
    }

    /** `computeExpression`. `name` is the compile-time value of the module
        name argument, `resolve` is `resolveModuleName` and `r` what the
        recursion attempt finds, used only when one is made. Returns the
        outcome and the modules reported as used. */
    method ComputeExpression(name: ArgValue, resolve: string -> string, r: Option<Recursion>)
      returns (o: Outcome, used: seq<string>)
      requires Valid()
      modifies this
      ensures Valid()
      // a second computation changes nothing and records an escape by finding
      ensures old(recurseAttempted) ==>
        o == Stay(if old(finding) == Some(NotFound) then BaseException else RuntimeError)
        && used == old(UsedModules()) && unchanged(this)
      // a name that is not a constant string leaves the state alone
      ensures !old(recurseAttempted) && !name.ConstStr? ==> unchanged(this) && used == []
      // a constant that is not a string makes `__import__` raise
      ensures !old(recurseAttempted) && (name.ConstNone? || name.ConstOther?) ==>
        o == Replace(RaiseImportTypeError, NewRaise)
      // an unknown name may raise
      ensures !old(recurseAttempted) && name.NotConstant? ==> o == Stay(BaseException)
      // a string name makes the one recursion attempt
      ensures !old(recurseAttempted) && name.ConstStr? ==> recurseAttempted && Recorded(r)
      // it is lowered to a hard import of the resolved name exactly for hard
      // modules from the standard library or built in
      ensures o.node.ImportModuleHard? <==>
        !old(recurseAttempted) && name.ConstStr? && Lowered(resolve(name.s), r)
      ensures !old(recurseAttempted) && name.ConstStr? ==> StringNameOutcome(resolve(name.s), r, o, used)
      // a node that stays records an escape exactly when it may raise
      ensures !old(recurseAttempted) && name.ConstStr? && !o.node.ImportModuleHard? ==> (o.escape.Some? <==> MayRaise())
    {
      if recurseAttempted {
        o := Stay(if finding == Some(NotFound) then BaseException else RuntimeError);
        used := UsedModules();
        return;
      }
      if name.ConstStr? {
        o, used := ComputeStringName(resolve(name.s), r);
      } else if name.ConstNone? || name.ConstOther? {
        o, used := Replace(RaiseImportTypeError, NewRaise), [];
      } else {
        o, used := Stay(BaseException), [];
      }
    }

    /** The state after the one recursion attempt: what `r` found, recorded
        on a node that had recorded nothing. */
    ghost predicate Recorded(r: Option<Recursion>)
      reads this
    {
      && finding == (if r.Some? then Some(r.value.finding) else None)
      && moduleFile == (if r.Some? then r.value.moduleFile else None)
      && importedModule == (if r.Some? then r.value.importedModule else None)
      && importListModules == (if r.Some? then r.value.importListModules else [])
      && packageModules == (if r.Some? && r.value.packageModules != [] then Some(r.value.packageModules) else None)
    }

    /** What the first computation with a string name gives, apart from the
        lowering: the node stays, reports the modules found, and records an
        escape unless the module is built in, which it remembers. */
    ghost predicate StringNameOutcome(moduleName: string, r: Option<Recursion>, o: Outcome, used: seq<string>)
      reads this
    {
      if Lowered(moduleName, r) then
        o == Replace(ImportModuleHard(moduleName), NewExpression) && used == []
        && !builtinShape && builtinModule.None?
      else
        o == (if finding == Some(BuiltIn) then Outcome(Unchanged, None, None, false, false) else Stay(BaseException))
        && used == UsedModules()
        && (builtinShape <==> finding == Some(BuiltIn))
        && builtinModule == (if finding == Some(BuiltIn) then Some(moduleName) else None)
    }

    /** The first computation with the string name `moduleName`, already
        passed through `resolveModuleName`. */
    method ComputeStringName(moduleName: string, r: Option<Recursion>) returns (o: Outcome, used: seq<string>)
      requires Valid() && !recurseAttempted
      modifies this
      ensures Valid() && recurseAttempted && Recorded(r)
      ensures StringNameOutcome(moduleName, r, o, used)
      ensures o.node.ImportModuleHard? <==> Lowered(moduleName, r)
    {
      ApplyRecursion(r);
      if r.Some? {
        assert importListModules == [] + r.value.importListModules == r.value.importListModules;
        assert [] + r.value.packageModules == r.value.packageModules;
      }
      recurseAttempted := true;
      if Lowered(moduleName, r) {
        return Replace(ImportModuleHard(moduleName), NewExpression), [];
      }
      if r.Some? && r.value.finding == BuiltIn {
        builtinShape := true;
        builtinModule := Some(moduleName);
      }
      used := UsedModules();
      if finding != Some(BuiltIn) {
        o := Stay(BaseException);
      } else {
        o := Outcome(Unchanged, None, None, false, false);
      }
    }
  }
}
