/** Evaluating a rule on a reading: hysteresis, formulas and composite expressions. */
module AlarmEvaluation {
  import opened Prelude
  import opened AlarmRules

  /** A comparison without hysteresis, as the terms of a composite rule use it. */
  predicate Compares(cmp: Comparator, value: real, t: real, high: Option<real>) {
    match cmp
    case Gt => value > t
    case Gte => value >= t
    case Lt => value < t
    case Lte => value <= t
    case Eq => value == t
    case Ne => value != t
    case Between => high.Some? && t <= value <= high.value
    case Outside => high.Some? && (value < t || value > high.value)
    case BooleanTrue => value >= 0.5
    case BooleanFalse => value < 0.5
    case Unknown => false
  }

  /** A simple rule: an active one is released only beyond the hysteresis. */
  predicate EvaluateRule(rule: Rule, value: real, prev: bool) {
    var t, h := rule.threshold, rule.hysteresis;
    match rule.comparator
    case Gt => if prev then value > t - h else value > t
    case Gte => if prev then value >= t - h else value >= t
    case Lt => if prev then value < t + h else value < t
    case Lte => if prev then value <= t + h else value <= t
    case _ => Compares(rule.comparator, value, t, rule.high)
  }

  // ---- Hysteresis in closed form ----

  predicate OneSided(cmp: Comparator) {
    cmp.Gt? || cmp.Gte? || cmp.Lt? || cmp.Lte?
  }

  /** The reading is beyond the threshold, or beyond the threshold moved back by the hysteresis. */
  predicate Beyond(rule: Rule, value: real) {
    Compares(rule.comparator, value, rule.threshold, None)
  }

  predicate InReach(rule: Rule, value: real) {
    Compares(rule.comparator, value,
             if rule.comparator.Gt? || rule.comparator.Gte? then rule.threshold - rule.hysteresis
             else rule.threshold + rule.hysteresis, None)
  }

  /** The state after a series of readings, with each evaluation fed the state before it. */
  predicate Folded(rule: Rule, values: seq<real>) {
    values != [] && EvaluateRule(rule, values[|values| - 1], Folded(rule, values[..|values| - 1]))
  }

  /** Some reading went beyond the threshold and none since has left the reach. */
  predicate Standing(rule: Rule, values: seq<real>) {
    exists i | 0 <= i < |values| :: Beyond(rule, values[i]) && forall j | i < j < |values| :: InReach(rule, values[j])
  }

  lemma {:induction false} HysteresisClosedForm(rule: Rule, values: seq<real>)
    requires OneSided(rule.comparator) && rule.hysteresis >= 0.0
    ensures Folded(rule, values) <==> Standing(rule, values)
  {
    if values != [] {
      var n := |values| - 1;
      var before := values[..n];
      HysteresisClosedForm(rule, before);
      if Standing(rule, before) && InReach(rule, values[n]) {
        var i :| 0 <= i < n && Beyond(rule, before[i]) && forall j | i < j < n :: InReach(rule, before[j]);
        assert Beyond(rule, values[i]) && forall j | i < j < |values| :: InReach(rule, values[j]) by {
          forall j | i < j < |values|
            ensures InReach(rule, values[j])
          {
            assert j < n ==> values[j] == before[j];
          }
        }
      }
      if Standing(rule, values) && !Beyond(rule, values[n]) {
        var i :| 0 <= i < |values| && Beyond(rule, values[i]) && forall j | i < j < |values| :: InReach(rule, values[j]);
        assert Beyond(rule, before[i]) && InReach(rule, values[n]);
        assert forall j | i < j < n :: InReach(rule, before[j]) by {
          forall j | i < j < n
            ensures InReach(rule, before[j])
          {
            assert before[j] == values[j];
          }
        }
      }
    }
  }

  /** The closed form is right for every series exactly when the hysteresis is not negative. */
  lemma {:induction false} ClosedFormIff(rule: Rule)
    requires OneSided(rule.comparator)
    ensures rule.hysteresis >= 0.0 <==> forall values :: Folded(rule, values) <==> Standing(rule, values)
  {
    if rule.hysteresis >= 0.0 {
      forall values
        ensures Folded(rule, values) <==> Standing(rule, values)
      {
        HysteresisClosedForm(rule, values);
      }
    } else {
      // Twice a reading beyond the threshold but short of the negative reach: the second one releases the alarm.
      var up := rule.comparator.Gt? || rule.comparator.Gte?;
      var x := rule.threshold - (if up then rule.hysteresis else -rule.hysteresis) / 2.0;
      assert [x, x][..1] == [x] && [x][..0] == [];
      assert EvaluateRule(rule, x, false) && !EvaluateRule(rule, x, true);
      assert !Folded(rule, []) && Folded(rule, [x]);
      assert !Folded(rule, [x, x]);
      assert Beyond(rule, [x, x][1]);
      assert Standing(rule, [x, x]);
    }
  }

  /** A reading inside the band never changes the state. */
  lemma {:induction false} BandIsNeutral(rule: Rule, value: real, prev: bool)
    requires OneSided(rule.comparator) && !Beyond(rule, value) && InReach(rule, value)
    ensures EvaluateRule(rule, value, prev) == prev
  {
  }

  function Mirrored(rule: Rule): Rule
    requires rule.comparator.Lt? || rule.comparator.Lte?
  {
    rule.(comparator := if rule.comparator.Lt? then Gt else Gte, threshold := -rule.threshold)
  }

  function Negated(values: seq<real>): (negated: seq<real>)
    ensures |negated| == |values| && forall i | 0 <= i < |values| :: negated[i] == -values[i]
  {
    seq(|values|, i requires 0 <= i < |values| => -values[i])
  }

  /** A lower bound is the mirror image of an upper bound. */
  lemma {:induction false} LowerIsMirror(rule: Rule, values: seq<real>)
    requires rule.comparator.Lt? || rule.comparator.Lte?
    ensures Folded(rule, values) <==> Folded(Mirrored(rule), Negated(values))
  {
    if values != [] {
      var n := |values| - 1;
      LowerIsMirror(rule, values[..n]);
      assert Negated(values)[..n] == Negated(values[..n]);
    }
  }

  // ---- Formulas ----

  type Scope = map<string, real>

  /** The white list. */
  predicate Valid(f: Formula, names: set<string>) {
    match f
    case Num(_) => true
    case Name(name) => name in names
    case Bin(_, left, right) => Valid(left, names) && Valid(right, names)
    case Unary(_, operand) => Valid(operand, names)
    case Call(fn, args) => fn in {"min", "max", "abs"} && forall a | a in args :: Valid(a, names)
    case Other => false
  }

  function Apply(op: BinOp, left: real, right: real): Option<real> {
    match op
    case Add => Some(left + right)
    case Sub => Some(left - right)
    case Mult => Some(left * right)
    case Div => if right == 0.0 then None else Some(left / right)
    case FloorDiv => if right == 0.0 then None else Some((left / right).Floor as real)
    case Mod => if right == 0.0 then None else Some(left - right * (left / right).Floor as real)
  }

  function Least(values: seq<real>): real
    requires values != []
  {
    var n := |values| - 1;
    if n == 0 then values[0] else var m := Least(values[..n]); if values[n] < m then values[n] else m
  }

  function Greatest(values: seq<real>): real
    requires values != []
  {
    var n := |values| - 1;
    if n == 0 then values[0] else var m := Greatest(values[..n]); if values[n] > m then values[n] else m
  }

  function Evaluate(f: Formula, scope: Scope): Option<real> {
    match f
    case Num(value) => Some(value)
    case Name(name) => if name in scope then Some(scope[name]) else None
    case Bin(op, left, right) =>
      var l, r := Evaluate(left, scope), Evaluate(right, scope);
      if l.None? || r.None? then None else Apply(op, l.value, r.value)
    case Unary(minus, operand) =>
      var v := Evaluate(operand, scope);
      if v.None? then None else Some(if minus then -v.value else v.value)
    case Call(fn, args) =>
      var values := EvaluateAll(args, scope);
      if values.None? || values.value == [] then None
      else if fn == "min" then Some(Least(values.value))
      else if fn == "max" then Some(Greatest(values.value))
      else if fn == "abs" then Some(if values.value[0] < 0.0 then -values.value[0] else values.value[0])
      else None
    case Other => None
  }

  function EvaluateAll(args: seq<Formula>, scope: Scope): (values: Option<seq<real>>)
    ensures values.Some? ==> |values.value| == |args|
  {
    if |args| == 0 then Some([]) else
      var v := Evaluate(args[0], scope);
      var rest := EvaluateAll(args[1..], scope);
      if v.None? || rest.None? then None else Some([v.value] + rest.value)
  }

  /** No division, no remainder, no call without arguments. */
  predicate Total(f: Formula) {
    match f
    case Bin(op, left, right) => (op.Add? || op.Sub? || op.Mult?) && Total(left) && Total(right)
    case Unary(_, operand) => Total(operand)
    case Call(_, args) => args != [] && forall a | a in args :: Total(a)
    case _ => true
  }

  /** A formula that passed the white list is undefined only where it divides by zero or calls without arguments. */
  lemma {:induction false} ValidIsDefined(f: Formula, names: set<string>, scope: Scope)
    requires Valid(f, names) && names <= scope.Keys && Total(f)
    ensures Evaluate(f, scope).Some?
  {
    match f
    case Bin(_, left, right) =>
      ValidIsDefined(left, names, scope);
      ValidIsDefined(right, names, scope);
    case Unary(_, operand) => ValidIsDefined(operand, names, scope);
    case Call(_, args) => AllDefined(args, names, scope);
    case _ =>
  }

  lemma {:induction false} AllDefined(args: seq<Formula>, names: set<string>, scope: Scope)
    requires names <= scope.Keys && forall a | a in args :: Valid(a, names) && Total(a)
    ensures EvaluateAll(args, scope).Some?
  {
    if args != [] {
      ValidIsDefined(args[0], names, scope);
      AllDefined(args[1..], names, scope);
    }
  }

  // ---- Composite rules ----

  /** The two caches a composite rule reads. */
  type Live = (string, string) -> Option<real>

  type Aggregates = (string, string, AggFn, Window, real) -> Option<real>

  function Device(device: string, anchor: string): string {
    if device == "*" then anchor else device
  }

  function ScopeOf(vars: seq<FormulaVar>, anchor: string, live: Live): (scope: Option<Scope>)
    ensures scope.Some? ==> scope.value.Keys == set v | v in vars :: v.name
  {
    if |vars| == 0 then Some(map[]) else
      var n := |vars| - 1;
      var before := ScopeOf(vars[..n], anchor, live);
      var v := live(vars[n].signal, Device(vars[n].device, anchor));
      assert vars == vars[..n] + [vars[n]];
      if before.None? || v.None? then None else Some(before.value[vars[n].name := v.value])
  }

  method BuildScope(vars: seq<FormulaVar>, anchor: string, live: Live) returns (scope: Option<Scope>)
    ensures scope == ScopeOf(vars, anchor, live)
  {
    var values: Scope := map[];
    for i := 0 to |vars|
      invariant ScopeOf(vars[..i], anchor, live) == Some(values)
    {
      assert vars[..i + 1][..i] == vars[..i];
      var v := live(vars[i].signal, Device(vars[i].device, anchor));
      if v.None? {
        MissingStays(vars, i + 1, anchor, live);
        return None;
      }
      values := values[vars[i].name := v.value];
    }
    assert vars[..|vars|] == vars;
    return Some(values);
  }

  lemma {:induction false} MissingStays(vars: seq<FormulaVar>, i: nat, anchor: string, live: Live)
    requires i <= |vars| && ScopeOf(vars[..i], anchor, live).None?
    ensures ScopeOf(vars, anchor, live).None?
    decreases |vars| - i
  {
    if i == |vars| {
      assert vars[..i] == vars;
    } else {
      assert vars[..i + 1][..i] == vars[..i];
      MissingStays(vars, i + 1, anchor, live);
    }
  }

  /** The value a term compares, if all its data has arrived. */
  function TermValue(t: Term, anchor: string, live: Live, aggregates: Aggregates): Option<real> {
    match t.kind
    case Compare => live(t.signal, Device(t.device, anchor))
    case Agg(fn, window, arg) => aggregates(t.signal, Device(t.device, anchor), fn, window, arg)
    case Computed(formula, vars) =>
      var scope := ScopeOf(vars, anchor, live);
      if vars == [] || scope.None? || !Valid(formula, scope.value.Keys) then None else Evaluate(formula, scope.value)
  }

  /** The formula of an accepted rule passes the white list again on the names it finds. */
  lemma {:induction false} AcceptedStaysValid(t: Term, anchor: string, live: Live)
    requires t.kind.Computed? && Valid(t.kind.formula, set v | v in t.kind.vars :: v.name)
    requires forall v | v in t.kind.vars :: live(v.signal, Device(v.device, anchor)).Some?
    ensures ScopeOf(t.kind.vars, anchor, live).Some?
    ensures Valid(t.kind.formula, ScopeOf(t.kind.vars, anchor, live).value.Keys)
  {
    AllArrived(t.kind.vars, anchor, live);
  }

  lemma {:induction false} AllArrived(vars: seq<FormulaVar>, anchor: string, live: Live)
    requires forall v | v in vars :: live(v.signal, Device(v.device, anchor)).Some?
    ensures ScopeOf(vars, anchor, live).Some?
  {
    if vars != [] {
      AllArrived(vars[..|vars| - 1], anchor, live);
    }
  }

  method ValueOf(t: Term, anchor: string, live: Live, aggregates: Aggregates) returns (v: Option<real>)
    ensures v == TermValue(t, anchor, live, aggregates)
  {
    match t.kind
    case Compare => v := live(t.signal, Device(t.device, anchor));
    case Agg(fn, window, arg) => v := aggregates(t.signal, Device(t.device, anchor), fn, window, arg);
    case Computed(formula, vars) =>
      var scope := BuildScope(vars, anchor, live);
      if vars == [] || scope.None? || !Valid(formula, scope.value.Keys) {
        v := None;
      } else {
        v := Evaluate(formula, scope.value);
      }
  }

  predicate TermHolds(t: Term, value: real) {
    Compares(t.comparator, value, t.threshold, t.high)
  }

  /** A composite rule is undecided while any of its data is missing; it never decides on half of them. */
  ghost function Decision(e: Expression, anchor: string, live: Live, aggregates: Aggregates): Option<bool> {
    if e.terms == [] || exists t :: t in e.terms && TermValue(t, anchor, live, aggregates).None? then None
    else if e.conjunctive then Some(forall t | t in e.terms :: TermHolds(t, TermValue(t, anchor, live, aggregates).value))
    else Some(exists t :: t in e.terms && TermHolds(t, TermValue(t, anchor, live, aggregates).value))
  }

  method EvaluateComposite(e: Expression, anchor: string, live: Live, aggregates: Aggregates) returns (decision: Option<bool>)
    ensures decision == Decision(e, anchor, live, aggregates)
  {
    if e.terms == [] {
      return None;
    }
    var all, any := true, false;
    for i := 0 to |e.terms|
      invariant forall t | t in e.terms[..i] :: TermValue(t, anchor, live, aggregates).Some?
      invariant all <==> forall t | t in e.terms[..i] :: TermHolds(t, TermValue(t, anchor, live, aggregates).value)
      invariant any <==> exists t :: t in e.terms[..i] && TermHolds(t, TermValue(t, anchor, live, aggregates).value)
    {
      var term := e.terms[i];
      assert e.terms[..i + 1] == e.terms[..i] + [term];
      var v := ValueOf(term, anchor, live, aggregates);
      if v.None? {
        return None;
      }
      var holds := TermHolds(term, v.value);
      all, any := all && holds, any || holds;
    }
    assert e.terms[..|e.terms|] == e.terms;
    return Some(if e.conjunctive then all else any);
  }

  // ---- What comparators and operators return ----

  /** The comparators of a term, one by one; Between includes its ends, Outside does not. */
  lemma {:induction false} CompareMeans(v: real, t: real, h: real)
    ensures forall high ::
              && (Compares(Gt, v, t, high) <==> t < v) && (Compares(Gte, v, t, high) <==> t < v || t == v)
              && (Compares(Lt, v, t, high) <==> v < t) && (Compares(Lte, v, t, high) <==> v < t || t == v)
              && (Compares(Eq, v, t, high) <==> !(t < v) && !(v < t)) && (Compares(Ne, v, t, high) <==> t < v || v < t)
              && (Compares(BooleanTrue, v, t, high) <==> 2.0 * v >= 1.0)
              && (Compares(BooleanFalse, v, t, high) <==> !(2.0 * v >= 1.0))
              && !Compares(Unknown, v, t, high)
    ensures Compares(Between, v, t, Some(h)) <==> !(v < t) && !(v > h)
    ensures Compares(Outside, v, t, Some(h)) <==> v < t || v > h
    ensures !Compares(Between, v, t, None) && !Compares(Outside, v, t, None)
  {
  }

  /** The operators, by what their results satisfy; division by zero has none. */
  lemma {:induction false} OperatorsMean(left: real, right: real)
    ensures Apply(Add, left, right).Some? && Apply(Add, left, right).value - right == left
    ensures Apply(Sub, left, right).Some? && Apply(Sub, left, right).value + right == left
    ensures Apply(Mult, left, right).Some? && Apply(Mult, left, right).value == right * left
    ensures right == 0.0 ==>
              Apply(Div, left, right).None? && Apply(FloorDiv, left, right).None? && Apply(Mod, left, right).None?
    ensures right != 0.0 ==>
              && Apply(Div, left, right).Some? && Apply(Div, left, right).value * right == left
              && Apply(FloorDiv, left, right).Some? && Apply(Mod, left, right).Some?
              && var n, m := Apply(FloorDiv, left, right).value, Apply(Mod, left, right).value;
                 && n == n.Floor as real && n * right + m == left
                 && if right > 0.0 then 0.0 <= m < right else right < m <= 0.0
  {
    if right != 0.0 {
      QuotientMeans(left, right, left / right);
    }
  }

  lemma {:induction false} QuotientMeans(left: real, right: real, q: real)
    requires right != 0.0 && q == left / right
    ensures q * right == left
    ensures var m := left - right * q.Floor as real;
            if right > 0.0 then 0.0 <= m < right else right < m <= 0.0
  {
    var f := q - q.Floor as real;
    assert left - right * q.Floor as real == right * f;
    Scaled(f, right);
  }

  lemma {:induction false} Scaled(f: real, right: real)
    requires 0.0 <= f < 1.0 && right != 0.0
    ensures if right > 0.0 then 0.0 <= right * f < right else right < right * f <= 0.0
  {
    if right > 0.0 {
      assert right * (1.0 - f) > 0.0;
    } else {
      assert (-right) * (1.0 - f) > 0.0;
    }
  }

  /** Numbers and names stand for their values, a sign for the value or its opposite, an operator for what it makes of both
      sides; what is not there, or not admitted, makes the whole undefined. */
  lemma {:induction false} PartsMean(f: Formula, scope: Scope)
    ensures f.Num? ==> Evaluate(f, scope) == Some(f.value)
    ensures f.Name? ==> (Evaluate(f, scope).Some? <==> f.name in scope) && (f.name in scope ==> Evaluate(f, scope).value == scope[f.name])
    ensures f.Unary? ==>
              var v, operand := Evaluate(f, scope), Evaluate(f.operand, scope);
              && (v.Some? <==> operand.Some?)
              && (v.Some? ==> if f.minus then v.value + operand.value == 0.0 else v.value == operand.value)
    ensures f.Bin? ==>
              var left, right := Evaluate(f.left, scope), Evaluate(f.right, scope);
              Evaluate(f, scope) == if left.Some? && right.Some? then Apply(f.op, left.value, right.value) else None
    ensures f.Other? || (f.Call? && (f.args == [] || f.fn !in {"min", "max", "abs"} || EvaluateAll(f.args, scope).None?)) ==>
              Evaluate(f, scope).None?
  {
  }

  /** No later variable has the name. */
  predicate NamesLast(vars: seq<FormulaVar>, i: int) {
    0 <= i < |vars| && forall j | i < j < |vars| :: vars[j].name != vars[i].name
  }

  /** The value a variable names: of its own device, or for "*" of the one that reported. */
  function Seen(v: FormulaVar, anchor: string, live: Live): Option<real> {
    live(v.signal, if v.device == "*" then anchor else v.device)
  }

  /** A name stands for the value of the last variable with it. */
  ghost predicate Stands(vars: seq<FormulaVar>, anchor: string, live: Live, scope: Scope) {
    && scope.Keys == (set v | v in vars :: v.name)
    && forall i | NamesLast(vars, i) :: Seen(vars[i], anchor, live) == Some(scope[vars[i].name])
  }

  /** A formula sees the values its variables name. */
  lemma {:induction false} FormulaSeesValues(vars: seq<FormulaVar>, anchor: string, live: Live, scope: Scope)
    requires (forall v | v in vars :: Seen(v, anchor, live).Some?) && Stands(vars, anchor, live, scope)
    ensures ScopeOf(vars, anchor, live) == Some(scope)
  {
    AllSeen(vars, anchor, live);
    var found := ScopeOf(vars, anchor, live).value;
    forall name | name in scope
      ensures name in found && found[name] == scope[name]
    {
      NameStands(vars, anchor, live, scope, name);
    }
    assert found == scope;
  }

  lemma {:induction false} AllSeen(vars: seq<FormulaVar>, anchor: string, live: Live)
    requires forall v | v in vars :: Seen(v, anchor, live).Some?
    ensures ScopeOf(vars, anchor, live).Some?
  {
    if vars != [] {
      assert Seen(vars[|vars| - 1], anchor, live).Some?;
      AllSeen(vars[..|vars| - 1], anchor, live);
    }
  }

  lemma {:induction false} NameStands(vars: seq<FormulaVar>, anchor: string, live: Live, scope: Scope, name: string)
    requires ScopeOf(vars, anchor, live).Some? && Stands(vars, anchor, live, scope) && name in scope
    ensures name in ScopeOf(vars, anchor, live).value && ScopeOf(vars, anchor, live).value[name] == scope[name]
  {
    var i := LastNamed(vars, name);
    LastCounts(vars, anchor, live, i);
  }

  lemma {:induction false} NoneWithout(vars: seq<FormulaVar>, anchor: string, live: Live, v: FormulaVar)
    requires v in vars && Seen(v, anchor, live).None?
    ensures ScopeOf(vars, anchor, live).None?
  {
    AllButLast(vars);
    if v in vars[..|vars| - 1] {
      NoneWithout(vars[..|vars| - 1], anchor, live, v);
    }
  }

  lemma {:induction false} LastNamed(vars: seq<FormulaVar>, name: string) returns (i: nat)
    requires exists v :: v in vars && v.name == name
    ensures NamesLast(vars, i) && vars[i].name == name
  {
    i := |vars| - 1;
    if vars[i].name != name {
      AllButLast(vars);
      i := LastNamed(vars[..|vars| - 1], name);
    }
  }

  lemma {:induction false} LastCounts(vars: seq<FormulaVar>, anchor: string, live: Live, i: nat)
    requires ScopeOf(vars, anchor, live).Some? && NamesLast(vars, i)
    ensures vars[i].name in ScopeOf(vars, anchor, live).value
    ensures Seen(vars[i], anchor, live) == Some(ScopeOf(vars, anchor, live).value[vars[i].name])
  {
    if i < |vars| - 1 {
      LastCounts(vars[..|vars| - 1], anchor, live, i);
    }
  }

  /** min and max of their arguments, abs of the first one. */
  lemma {:induction false} CallsMean(args: seq<Formula>, scope: Scope)
    requires args != [] && EvaluateAll(args, scope).Some?
    ensures var values := EvaluateAll(args, scope).value;
            && |values| == |args|
            && (forall i | 0 <= i < |args| :: Evaluate(args[i], scope) == Some(values[i]))
            && var low, high, size := Evaluate(Call("min", args), scope), Evaluate(Call("max", args), scope), Evaluate(Call("abs", args), scope);
               && low.Some? && low.value in values && (forall v | v in values :: low.value <= v)
               && high.Some? && high.value in values && (forall v | v in values :: v <= high.value)
               && size.Some? && size.value >= 0.0 && (size.value == values[0] || size.value == -values[0])
  {
    var values := EvaluateAll(args, scope).value;
    EachEvaluates(args, scope);
    LeastMeans(values);
    GreatestMeans(values);
  }

  lemma {:induction false} EachEvaluates(args: seq<Formula>, scope: Scope)
    requires EvaluateAll(args, scope).Some?
    ensures forall i | 0 <= i < |args| :: Evaluate(args[i], scope) == Some(EvaluateAll(args, scope).value[i])
  {
    if args != [] {
      EachEvaluates(args[1..], scope);
    }
  }

  lemma {:induction false} LeastMeans(values: seq<real>)
    requires values != []
    ensures Least(values) in values && forall v | v in values :: Least(values) <= v
  {
    var n := |values| - 1;
    AllButLast(values);
    if n > 0 {
      LeastMeans(values[..n]);
    }
  }

  lemma {:induction false} GreatestMeans(values: seq<real>)
    requires values != []
    ensures Greatest(values) in values && forall v | v in values :: v <= Greatest(values)
  {
    var n := |values| - 1;
    AllButLast(values);
    if n > 0 {
      GreatestMeans(values[..n]);
    }
  }
}
