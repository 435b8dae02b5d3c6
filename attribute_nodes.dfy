/** The specialisation cascade of attribute lookups with a fixed name.

    A generic lookup `source.<name>` becomes a dict-typed lookup once the
    source is known to be exactly a dict; a call of a dict-typed lookup then
    becomes the matching dict operation node. The source expression's own
    answers (its attribute computation and whether a lookup may raise) are
    function parameters, and so is the argument matching of
    `extractBuiltinArgs`. */
module AttributeNodes {
  import opened Common

  /** The attribute names with a generated lookup node pair. */
  datatype DictAttr =
    | Clear | Copy | Fromkeys | Get | HasKey | Items | Iteritems | Iterkeys | Itervalues
    | Keys | Pop | Popitem | Setdefault | Update | Values | Viewitems | Viewkeys | Viewvalues

  function AttributeName(a: DictAttr): string
  {
    match a
    case Clear => "clear"
    case Copy => "copy"
    case Fromkeys => "fromkeys"
    case Get => "get"
    case HasKey => "has_key"
    case Items => "items"
    case Iteritems => "iteritems"
    case Iterkeys => "iterkeys"
    case Itervalues => "itervalues"
    case Keys => "keys"
    case Pop => "pop"
    case Popitem => "popitem"
    case Setdefault => "setdefault"
    case Update => "update"
    case Values => "values"
    case Viewitems => "viewitems"
    case Viewkeys => "viewkeys"
    case Viewvalues => "viewvalues"
  }

  /** `attribute_classes` and `attribute_typed_classes` both map each name to
      the node pair of that attribute; a name without a pair is absent. */
  function Registered(name: string): (r: Option<DictAttr>)
    ensures r.Some? ==> AttributeName(r.value) == name
  {
    if name == "clear" then Some(Clear)
    else if name == "copy" then Some(Copy)
    else if name == "fromkeys" then Some(Fromkeys)
    else if name == "get" then Some(Get)
    else if name == "has_key" then Some(HasKey)
    else if name == "items" then Some(Items)
    else if name == "iteritems" then Some(Iteritems)
    else if name == "iterkeys" then Some(Iterkeys)
    else if name == "itervalues" then Some(Itervalues)
    else if name == "keys" then Some(Keys)
    else if name == "pop" then Some(Pop)
    else if name == "popitem" then Some(Popitem)
    else if name == "setdefault" then Some(Setdefault)
    else if name == "update" then Some(Update)
    else if name == "values" then Some(Values)
    else if name == "viewitems" then Some(Viewitems)
    else if name == "viewkeys" then Some(Viewkeys)
    else if name == "viewvalues" then Some(Viewvalues)
    else None
  }

  /** Every node pair is registered under its own attribute name, so names
      and pairs correspond one to one. */
  lemma RegistryRoundTrip(a: DictAttr)
    ensures Registered(AttributeName(a)) == Some(a)
  {
  }

  lemma AttributeNamesDistinct(a: DictAttr, b: DictAttr)
    requires AttributeName(a) == AttributeName(b)
    ensures a == b
  {
    RegistryRoundTrip(a);
    RegistryRoundTrip(b);
  }

  /** Methods only Python 2 dicts have; they specialise only when `str is bytes`. */
  predicate Python2Only(a: DictAttr)
  {
    a in {HasKey, Iteritems, Iterkeys, Itervalues, Viewitems, Viewkeys, Viewvalues}
  }

  // ---------------------------------------------------------------------------
  // Lookup nodes

  /** The looked-up expression, as far as the cascade needs it. */
  datatype Source = Source(id: nat, dictExact: bool)

  datatype Lookup =
    | FixedLookup(attr: DictAttr, source: Source)
    | DictLookup(attr: DictAttr, source: Source)

  datatype DictOpKind =
    | OpClear | OpCopy | OpGet2 | OpGet3 | OpHasKey | OpItems | OpIteritems | OpIterkeys
    | OpItervalues | OpKeys | OpPop2 | OpPop3 | OpSetdefault2 | OpSetdefault3 | OpValues
    | OpViewitems | OpViewkeys | OpViewvalues

  /** The nodes a compute step can hand back. `Other` stands for a node the
      source expression's own attribute computation produced. */
  datatype Node =
    | LookupNode(lookup: Lookup)
    | DictOperation(op: DictOpKind, dict: Source, args: seq<nat>)
    | CallNode(id: nat)
    | Other(id: nat)

  datatype Step = Step(node: Node, tag: Option<Tag>, escape: Option<ExcKind>)

  /** `ExpressionAttributeLookupFixed<Name>.computeExpression` and, for the
      dict-typed node, `ExpressionAttributeLookupDict<Name>.computeExpression`.
      `sourceAttribute` is the source expression's `computeExpressionAttribute`. */
  function ComputeLookup(version: Version, l: Lookup, sourceAttribute: (Source, Lookup, string) -> Step): (s: Step)
    // dict-typed lookups are fixed points
    ensures l.DictLookup? ==> s == Step(LookupNode(l), None, None)
    // a generic lookup on an exact dict becomes the dict-typed lookup
    ensures l.FixedLookup? && l.source.dictExact && (StrIsBytes(version) || !Python2Only(l.attr)) ==>
      s == Step(LookupNode(DictLookup(l.attr, l.source)), Some(NewExpression), None)
    // otherwise the source decides, asked with the fixed attribute name
    ensures l.FixedLookup? && !(l.source.dictExact && (StrIsBytes(version) || !Python2Only(l.attr))) ==>
      s == sourceAttribute(l.source, l, AttributeName(l.attr))
  {
    match l
    case DictLookup(_, _) => Step(LookupNode(l), None, None)
    case FixedLookup(attr, source) =>
      if (!Python2Only(attr) || StrIsBytes(version)) && source.dictExact then
        Step(LookupNode(DictLookup(attr, source)), Some(NewExpression), None)
      else
        sourceAttribute(source, l, AttributeName(attr))
  }

  /** `mayRaiseException` of both lookup kinds: the source's answer for a
      lookup of the fixed name. */
  function LookupMayRaise(l: Lookup, sourceMayRaise: (Source, string) -> bool): (r: bool)
    ensures r == sourceMayRaise(l.source, AttributeName(l.attr))
  {
    match l
    case FixedLookup(attr, source) => sourceMayRaise(source, AttributeName(attr))
    case DictLookup(attr, source) => sourceMayRaise(source, AttributeName(attr))
  }

  /** The specialisation is a single step: the dict-typed lookup it produces
      keeps the attribute and the looked-up expression, answers whether it
      may raise as the generic lookup did, and computing it again changes
      nothing. */
  lemma SpecialisationIsStable(version: Version, attr: DictAttr, source: Source,
                               sourceAttribute: (Source, Lookup, string) -> Step,
                               sourceMayRaise: (Source, string) -> bool)
    requires source.dictExact && (StrIsBytes(version) || !Python2Only(attr))
    ensures var s := ComputeLookup(version, FixedLookup(attr, source), sourceAttribute);
      && s.node == LookupNode(DictLookup(attr, source)) && s.tag == Some(NewExpression)
      && LookupMayRaise(s.node.lookup, sourceMayRaise) == LookupMayRaise(FixedLookup(attr, source), sourceMayRaise)
      && ComputeLookup(version, s.node.lookup, sourceAttribute) == Step(s.node, None, None)
  {
  }

  /** A lookup the node itself does not specialise is exactly what the source
      expression makes of the attribute: the generic lookup leaves no trace
      of its own. This covers a Python-2-only attribute where `str` is not
      `bytes`, even on an exact dict. */
  lemma UnspecialisedLookupDefersToSource(version: Version, attr: DictAttr, source: Source,
                                          sourceAttribute: (Source, Lookup, string) -> Step)
    requires !source.dictExact || (!StrIsBytes(version) && Python2Only(attr))
    ensures ComputeLookup(version, FixedLookup(attr, source), sourceAttribute)
            == sourceAttribute(source, FixedLookup(attr, source), AttributeName(attr))
  {
  }

  // ---------------------------------------------------------------------------
  // Calls of dict-typed lookups

  /** Attributes whose dict operation node does not exist yet: their calls are
      left to the generic call handling. */
  predicate HasCallSpecialisation(a: DictAttr)
  {
    a !in {Fromkeys, Popitem, Update}
  }

  /** The parameter count of the builtin spec and how many have defaults. */
  function Params(a: DictAttr): nat
  {
    if a in {Get, Pop, Setdefault} then 2 else if a == HasKey then 1 else 0
  }

  function Defaults(a: DictAttr): nat
  {
    if a in {Get, Pop, Setdefault} then 1 else 0
  }

  /** What the argument matching of `extractBuiltinArgs` yields: the
      arguments present, in parameter order, or no match (the call is left as
      it is). */
  datatype Match = NoMatch | Matched(args: seq<nat>)

  predicate MatchFits(a: DictAttr, m: Match)
  {
    m.Matched? ==> Params(a) - Defaults(a) <= |m.args| <= Params(a)
  }

  /** The dict method an operation node computes. */
  function OpMethod(op: DictOpKind): DictAttr
  {
    match op
    case OpClear => Clear
    case OpCopy => Copy
    case OpGet2 => Get
    case OpGet3 => Get
    case OpHasKey => HasKey
    case OpItems => Items
    case OpIteritems => Iteritems
    case OpIterkeys => Iterkeys
    case OpItervalues => Itervalues
    case OpKeys => Keys
    case OpPop2 => Pop
    case OpPop3 => Pop
    case OpSetdefault2 => Setdefault
    case OpSetdefault3 => Setdefault
    case OpValues => Values
    case OpViewitems => Viewitems
    case OpViewkeys => Viewkeys
    case OpViewvalues => Viewvalues
  }

  /** How many arguments besides the dict an operation node takes. */
  function OpArity(op: DictOpKind): nat
  {
    match op
    case OpGet3 => 2
    case OpPop3 => 2
    case OpSetdefault3 => 2
    case OpGet2 => 1
    case OpPop2 => 1
    case OpSetdefault2 => 1
    case OpHasKey => 1
    case _ => 0
  }

  /** The method and the argument count identify an operation node. */
  lemma OperationsDistinct(p: DictOpKind, q: DictOpKind)
    requires OpMethod(p) == OpMethod(q) && OpArity(p) == OpArity(q)
    ensures p == q
  {
  }

  /** The method a call of `a` computes: the attribute itself, except that
      `items`, `keys` and `values` iterate where `str` is not `bytes`. */
  function CalledMethod(version: Version, a: DictAttr): DictAttr
  {
    if StrIsBytes(version) then a
    else match a
      case Items => Iteritems
      case Keys => Iterkeys
      case Values => Itervalues
      case _ => a
  }

  /** The operation node the wrapper builds, from the attribute, the dialect
      and how many arguments are present: the node of the called method that
      takes exactly those arguments. */
  function OperationFor(version: Version, a: DictAttr, argCount: nat): (op: DictOpKind)
    requires HasCallSpecialisation(a)
    ensures OpMethod(op) == CalledMethod(version, a)
    ensures Params(a) - Defaults(a) <= argCount <= Params(a) ==> OpArity(op) == argCount
  {
    match a
    case Clear => OpClear
    case Copy => OpCopy
    case Get => if argCount == 2 then OpGet3 else OpGet2
    case HasKey => OpHasKey
    case Items => if StrIsBytes(version) then OpItems else OpIteritems
    case Iteritems => OpIteritems
    case Iterkeys => OpIterkeys
    case Itervalues => OpItervalues
    case Keys => if StrIsBytes(version) then OpKeys else OpIterkeys
    case Pop => if argCount == 2 then OpPop3 else OpPop2
    case Setdefault => if argCount == 2 then OpSetdefault3 else OpSetdefault2
    case Values => if StrIsBytes(version) then OpValues else OpItervalues
    case Viewitems => OpViewitems
    case Viewkeys => OpViewkeys
    case Viewvalues => OpViewvalues
  }

  /** `ExpressionAttributeLookupDict<Name>.computeExpressionCall`; `None` for
      the attributes without one. */
  function ComputeDictCall(version: Version, attr: DictAttr, source: Source, callId: nat, m: Match): (r: Option<Step>)
    requires MatchFits(attr, m)
    ensures r.None? <==> !HasCallSpecialisation(attr)
    // the escape is recorded before matching, and the tag is always given
    ensures r.Some? ==> r.value.tag == Some(NewExpression) && r.value.escape == Some(BaseException)
    ensures r.Some? && m.NoMatch? ==> r.value.node == CallNode(callId)
    // a match builds the operation of the called method on the looked-up
    // dict, taking exactly the matched arguments
    ensures r.Some? && m.Matched? ==>
      r.value.node.DictOperation? && r.value.node.dict == source && r.value.node.args == m.args
      && OpMethod(r.value.node.op) == CalledMethod(version, attr)
      && OpArity(r.value.node.op) == |m.args|
  {
    if !HasCallSpecialisation(attr) then None
    else
      var node := match m
        case NoMatch => CallNode(callId)
        case Matched(args) => DictOperation(OperationFor(version, attr, |args|), source, args);
      Some(Step(node, Some(NewExpression), Some(BaseException)))
  }

  /** For `get`, `pop` and `setdefault`, a given default selects the 3-ary node
      of that method and a missing one its 2-ary node. */
  lemma DefaultSelectsArity(version: Version, attr: DictAttr, source: Source, callId: nat, key: nat, default: Option<nat>)
    requires attr in {Get, Pop, Setdefault}
    ensures var args := if default.Some? then [key, default.value] else [key];
      var r := ComputeDictCall(version, attr, source, callId, Matched(args));
      r.Some? && r.value.node.DictOperation?
      && r.value.node.op == match attr
        case Get => (if default.Some? then OpGet3 else OpGet2)
        case Pop => (if default.Some? then OpPop3 else OpPop2)
        case _ => (if default.Some? then OpSetdefault3 else OpSetdefault2)
  {
  }

  /** `items`, `keys` and `values` keep list semantics on Python 2 and become
      the iterating operations on Python 3. */
  lemma ViewMethodsByDialect(version: Version, attr: DictAttr, source: Source, callId: nat)
    requires attr in {Items, Keys, Values}
    ensures var r := ComputeDictCall(version, attr, source, callId, Matched([]));
      r.Some? && r.value.node.DictOperation?
      && (StrIsBytes(version) ==> r.value.node.op == (match attr case Items => OpItems case Keys => OpKeys case _ => OpValues))
      && (!StrIsBytes(version) ==> r.value.node.op == (match attr case Items => OpIteritems case Keys => OpIterkeys case _ => OpItervalues))
  {
  }

  /** The whole cascade: on an exact dict, a generic lookup followed by a
      matched call gives an operation on the looked-up dict, unless the
      attribute is Python-2-only under Python 3 or has no operation node. */
  lemma CascadeReachesOperation(version: Version, attr: DictAttr, source: Source, callId: nat, args: seq<nat>,
                                sourceAttribute: (Source, Lookup, string) -> Step)
    requires source.dictExact && MatchFits(attr, Matched(args))
    requires StrIsBytes(version) || !Python2Only(attr)
    requires HasCallSpecialisation(attr)
    ensures var s := ComputeLookup(version, FixedLookup(attr, source), sourceAttribute);
      s.node.LookupNode? && s.node.lookup.DictLookup?
      && var r := ComputeDictCall(version, s.node.lookup.attr, s.node.lookup.source, callId, Matched(args));
      r.Some? && r.value.node == DictOperation(OperationFor(version, attr, |args|), source, args)
  {
  }
}
