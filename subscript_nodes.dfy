/** Subscript assignment, deletion, lookup and the subscript check.

    These nodes first let their children compute; only a node whose children
    stayed put hands the decision to the subscribed expression. The answers of
    the subscribed expression (`computeExpressionSetSubscript`,
    `computeExpressionDelSubscript`, `computeExpressionSubscript`) and of the
    host's `value[subscript]` test are function parameters. */
module SubscriptNodes {
  import opened Common

  /** A child expression: its identity, its compile-time constant value if it
      has one, and the side effects `extractSideEffects` would keep. */
  datatype Operand = Operand(id: nat, constant: Option<nat>, sideEffects: seq<nat>)

  /** The nodes a compute step hands back. `Self` is the node itself and
      `Other` a node some other computation produced. */
  datatype Node =
    | Self
    | ConstBool(b: bool)
    | SideEffects(effects: seq<nat>, expression: Node)
    | Other(id: nat)

  datatype Step = Step(node: Node, tag: Option<Tag>, escape: Option<ExcKind>)

  datatype AssignSubscript = AssignSubscript(subscribed: Operand, subscript: Operand, source: Operand)
  datatype DelSubscript = DelSubscript(subscribed: Operand, subscript: Operand)
  datatype SubscriptLookup = SubscriptLookup(expression: Operand, subscript: Operand)
  datatype SubscriptCheck = SubscriptCheck(expression: Operand, subscript: Operand)

  /** `StatementAssignmentSubscript.computeStatement`. `children` is what
      computing the sub-expressions gave; `setSubscript` is the subscribed
      expression's answer, asked with the subscript and the assigned value. */
  function ComputeAssignSubscript(s: AssignSubscript, children: Step,
                                  setSubscript: (Operand, Operand, Operand) -> Step): (r: Step)
    ensures children.node != Self ==> r == children
    ensures children.node == Self ==> r == setSubscript(s.subscribed, s.subscript, s.source)
  {
    if children.node != Self then children
    else setSubscript(s.subscribed, s.subscript, s.source)
  }

  /** `StatementDelSubscript.computeStatement`: the same two stages, ending in
      the subscribed expression's `computeExpressionDelSubscript`. */
  function ComputeDelSubscript(s: DelSubscript, children: Step,
                               delSubscript: (Operand, Operand) -> Step): (r: Step)
    ensures children.node != Self ==> r == children
    ensures children.node == Self ==> r == delSubscript(s.subscribed, s.subscript)
  {
    if children.node != Self then children
    else delSubscript(s.subscribed, s.subscript)
  }

  /** The two stages of an assignment: a replacement from the children is
      final whatever the subscribed expression would answer, and the
      statement is handed back as it is only when both stages keep it. */
  lemma AssignSubscriptStages(s: AssignSubscript, children: Step, setSubscript: (Operand, Operand, Operand) -> Step)
    ensures children.node != Self ==>
      forall other: (Operand, Operand, Operand) -> Step :: ComputeAssignSubscript(s, children, other) == children
    ensures ComputeAssignSubscript(s, children, setSubscript).node == Self <==>
      children.node == Self && setSubscript(s.subscribed, s.subscript, s.source).node == Self
  {
  }

  /** The same two stages for a deletion. */
  lemma DelSubscriptStages(d: DelSubscript, children: Step, delSubscript: (Operand, Operand) -> Step)
    ensures children.node != Self ==>
      forall other: (Operand, Operand) -> Step :: ComputeDelSubscript(d, children, other) == children
    ensures ComputeDelSubscript(d, children, delSubscript).node == Self <==>
      children.node == Self && delSubscript(d.subscribed, d.subscript).node == Self
  {
  }

  /** `ExpressionSubscriptLookup.computeExpression`: always the subscribed
      expression's `computeExpressionSubscript`, without a children stage. */
  function ComputeSubscriptLookup(l: SubscriptLookup, subscript: (Operand, Operand) -> Step): Step
  {
    subscript(l.expression, l.subscript)
  }

  /** `ExpressionSubscriptLookup.isKnownToBeIterable`: no answer. */
  function LookupKnownToBeIterable(l: SubscriptLookup, count: nat): Option<bool>
  {
    None
  }

  // ---------------------------------------------------------------------------
  // The subscript check

  /** The value a folded node stands for. */
  function ValueOf(n: Node): Option<bool>
  {
    match n
    case ConstBool(b) => Some(b)
    case SideEffects(_, e) => ValueOf(e)
    case _ => None
  }

  /** The side effects a node evaluates before its value. */
  function EffectsOf(n: Node): seq<nat>
  {
    match n
    case SideEffects(effects, e) => effects + EffectsOf(e)
    case _ => []
  }

  /** `wrapExpressionWithNodeSideEffects`: the new node, preceded by the side
      effects of the node it replaces, if there are any. */
  function WrapWithSideEffects(newNode: Node, replaced: Operand): (r: Node)
    ensures ValueOf(r) == ValueOf(newNode)
    ensures EffectsOf(r) == replaced.sideEffects + EffectsOf(newNode)
  {
    if replaced.sideEffects == [] then
      assert [] + EffectsOf(newNode) == EffectsOf(newNode);
      newNode
    else SideEffects(replaced.sideEffects, newNode)
  }

  /** `ExpressionSubscriptCheck.computeExpression`. Two constant operands are
      folded to the answer of `hasSubscript`, which catches every exception and
      so never raises; the source's side effects are kept. Otherwise the node
      stays and records that it may raise. */
  function ComputeSubscriptCheck(c: SubscriptCheck, hasSubscript: (nat, nat) -> bool): (r: Step)
    ensures c.expression.constant.Some? && c.subscript.constant.Some? ==>
      r.tag == Some(NewConstant) && r.escape == None
      && ValueOf(r.node) == Some(hasSubscript(c.expression.constant.value, c.subscript.constant.value))
      && EffectsOf(r.node) == c.expression.sideEffects
    ensures !(c.expression.constant.Some? && c.subscript.constant.Some?) ==>
      r == Step(Self, None, Some(BaseException))
  {
    if c.expression.constant.Some? && c.subscript.constant.Some? then
      var folded := ConstBool(hasSubscript(c.expression.constant.value, c.subscript.constant.value));
      assert EffectsOf(folded) == [];
      Step(WrapWithSideEffects(folded, c.expression), Some(NewConstant), None)
    else
      Step(Self, None, Some(BaseException))
  }

  /** `ExpressionSubscriptCheck.mayRaiseException` and `mayRaiseExceptionBool`:
      the check never raises, whatever the exception type. */
  predicate SubscriptCheckMayRaise(c: SubscriptCheck, exceptionType: ExcKind)
  {
    false
  }

  /** The escape the check records against its `mayRaiseException` answer:
      a folded check records none, in agreement; only a check left in place
      records one, which the answer does not admit, so that record is a
      conservative over-approximation. */
  lemma CheckEscapeVersusMayRaise(c: SubscriptCheck, hasSubscript: (nat, nat) -> bool, exceptionType: ExcKind)
    ensures var r := ComputeSubscriptCheck(c, hasSubscript);
      && (r.escape.None? <==> c.expression.constant.Some? && c.subscript.constant.Some?)
      && (r.escape.None? ==> r.node != Self)
      && (r.escape.Some? ==> r.node == Self && !SubscriptCheckMayRaise(c, exceptionType))
  {
    if c.expression.constant.Some? && c.subscript.constant.Some? {
      FoldedCheckIsReplaced(c, hasSubscript);
    }
  }

  /** Two constant operands always replace the check: the node is never
      handed back as it is. */
  lemma FoldedCheckIsReplaced(c: SubscriptCheck, hasSubscript: (nat, nat) -> bool)
    requires c.expression.constant.Some? && c.subscript.constant.Some?
    ensures ComputeSubscriptCheck(c, hasSubscript).node != Self
  {
    var r := ComputeSubscriptCheck(c, hasSubscript);
    assert ValueOf(r.node).Some?;
  }
}
