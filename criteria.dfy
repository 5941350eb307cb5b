/**
 * The criteria builders of SupportHibernateDao: the single-property switch over
 * MatchType, the Conditions list builder (which drops blank properties and
 * skipped values) and the PropertyFilter list builder (which keeps one entry per
 * filter and ORs multi-property filters).
 */
module Criteria {
  import opened Values

  /** The match types the switch names; `OtherMatchType` is any constant it has no case for. */
  datatype MatchType =
    | EQ | NE | ISN | INN | FL | LL | RL | LTE | LT | GTE | GT | IN | NIN | BW
    | OtherMatchType(name: string)

  /** Hibernate's MatchMode for like-restrictions. */
  datatype LikeMode = Anywhere | Start | End

  /**
   * A Hibernate Criterion as built here. The like-restriction receives
   * `"" + value` in the source; the model keeps the operand itself.
   * A Disjunction may hold null entries, hence `Option`.
   */
  datatype Criterion =
    | Eq(property: string, operand: Value)
    | Ne(property: string, operand: Value)
    | IsNull(property: string)
    | IsNotNull(property: string)
    | Like(property: string, operand: Value, mode: LikeMode)
    | Le(property: string, operand: Value)
    | Lt(property: string, operand: Value)
    | Ge(property: string, operand: Value)
    | Gt(property: string, operand: Value)
    | In(property: string, operands: seq<Value>)
    | Not(negated: Criterion)
    | Between(property: string, low: Value, high: Value)
    | Or(alternatives: seq<Option<Criterion>>)

  /** The match types whose case reads `propertyValue[0]` and skips it when blank. */
  predicate SkipsBlankOperand(m: MatchType) {
    m.EQ? || m.NE? || m.FL? || m.LL? || m.RL? || m.LTE? || m.LT? || m.GTE? || m.GT?
  }

  function LikeModeOf(m: MatchType): LikeMode
    requires m.FL? || m.LL? || m.RL?
  {
    if m.FL? then Anywhere else if m.LL? then Start else End
  }

  /**
   * buildCriterion(propertyName, matchType, propertyValue...): null is `Ok(None)`;
   * the property name must have text; reading `propertyValue[k]` past the end
   * of the varargs array throws.
   */
  function BuildCriterion(property: string, matchType: MatchType, values: seq<Value>): (r: Result<Option<Criterion>>)
    ensures IsBlankText(property) <==> r == Err(BlankPropertyName)
    ensures !IsBlankText(property) && SkipsBlankOperand(matchType) ==>
              if |values| == 0 then r == Err(IndexOutOfBounds(0))
              else r.Ok? && (r.value.None? <==> IsBlank(values[0]))
    ensures (!IsBlankText(property) && (matchType.FL? || matchType.LL? || matchType.RL?) && |values| > 0
             && !IsBlank(values[0])) ==> r == Ok(Some(Like(property, values[0], LikeModeOf(matchType))))
    ensures !IsBlankText(property) && |values| > 0 && !IsBlank(values[0]) ==>
              && (matchType.EQ? ==> r == Ok(Some(Eq(property, values[0]))))
              && (matchType.NE? ==> r == Ok(Some(Ne(property, values[0]))))
              && (matchType.LTE? ==> r == Ok(Some(Le(property, values[0]))))
              && (matchType.LT? ==> r == Ok(Some(Lt(property, values[0]))))
              && (matchType.GTE? ==> r == Ok(Some(Ge(property, values[0]))))
              && (matchType.GT? ==> r == Ok(Some(Gt(property, values[0]))))
    ensures !IsBlankText(property) && matchType.ISN? ==> r == Ok(Some(IsNull(property)))
    ensures !IsBlankText(property) && matchType.INN? ==> r == Ok(Some(IsNotNull(property)))
    ensures !IsBlankText(property) && matchType.IN? ==> r == Ok(Some(In(property, values)))
    ensures !IsBlankText(property) && matchType.NIN? ==> r == Ok(Some(Not(In(property, values))))
    ensures !IsBlankText(property) && matchType.BW? ==>
              && (r.Err? <==> |values| == 0 || (|values| == 1 && values[0] != Null))
              && (|values| == 0 ==> r == Err(IndexOutOfBounds(0)))
              && (|values| == 1 && values[0] != Null ==> r == Err(IndexOutOfBounds(1)))
              && (r.Ok? && r.value.Some? <==> |values| >= 2 && values[0] != Null && values[1] != Null)
              && (r.Ok? && r.value.Some? ==> r.value.value == Between(property, values[0], values[1]))
    ensures !IsBlankText(property) && matchType.OtherMatchType? ==> r == Ok(None)
  {
    if IsBlankText(property) then Err(BlankPropertyName)
    else
      match matchType
      case EQ => if |values| == 0 then Err(IndexOutOfBounds(0))
                 else if IsBlank(values[0]) then Ok(None) else Ok(Some(Eq(property, values[0])))
      case NE => if |values| == 0 then Err(IndexOutOfBounds(0))
                 else if IsBlank(values[0]) then Ok(None) else Ok(Some(Ne(property, values[0])))
      case ISN => Ok(Some(IsNull(property)))
      case INN => Ok(Some(IsNotNull(property)))
      case FL => if |values| == 0 then Err(IndexOutOfBounds(0))
                 else if IsBlank(values[0]) then Ok(None) else Ok(Some(Like(property, values[0], Anywhere)))
      case LL => if |values| == 0 then Err(IndexOutOfBounds(0))
                 else if IsBlank(values[0]) then Ok(None) else Ok(Some(Like(property, values[0], Start)))
      case RL => if |values| == 0 then Err(IndexOutOfBounds(0))
                 else if IsBlank(values[0]) then Ok(None) else Ok(Some(Like(property, values[0], End)))
      case LTE => if |values| == 0 then Err(IndexOutOfBounds(0))
                  else if IsBlank(values[0]) then Ok(None) else Ok(Some(Le(property, values[0])))
      case LT => if |values| == 0 then Err(IndexOutOfBounds(0))
                 else if IsBlank(values[0]) then Ok(None) else Ok(Some(Lt(property, values[0])))
      case GTE => if |values| == 0 then Err(IndexOutOfBounds(0))
                  else if IsBlank(values[0]) then Ok(None) else Ok(Some(Ge(property, values[0])))
      case GT => if |values| == 0 then Err(IndexOutOfBounds(0))
                 else if IsBlank(values[0]) then Ok(None) else Ok(Some(Gt(property, values[0])))
      case IN => Ok(Some(In(property, values)))
      case NIN => Ok(Some(Not(In(property, values))))
      case BW => if |values| == 0 then Err(IndexOutOfBounds(0))
                 else if values[0] == Null then Ok(None)
                 else if |values| == 1 then Err(IndexOutOfBounds(1))
                 else if values[1] == Null then Ok(None)
                 else Ok(Some(Between(property, values[0], values[1])))
      case OtherMatchType(_) => Ok(None)
  }

  // ---------------------------------------------------------------------------
  // buildCriterion(Conditions...)

  /** One entry of a Conditions array. */
  datatype Condition = Condition(property: string, matchType: MatchType, value: Value, anotherValue: Value)

  /**
   * The varargs a condition passes to the switch: both values for BW, the
   * elements of an Object[] or List value, or else the value alone.
   */
  function Arguments(c: Condition): seq<Value> {
    if c.matchType.BW? then [c.value, c.anotherValue]
    else if c.value.Items? then c.value.elements
    else [c.value]
  }

  /** What one condition contributes: nothing for a blank property, else the switch's result. */
  function ConditionCriterion(c: Condition): (r: Result<Option<Criterion>>)
    ensures IsBlankText(c.property) ==> r == Ok(None)
    ensures r.Err? <==> !IsBlankText(c.property) && !c.matchType.BW? && c.value == Items([])
                        && SkipsBlankOperand(c.matchType)
    ensures r.Err? ==> r.error == IndexOutOfBounds(0)
    ensures !IsBlankText(c.property) && !c.matchType.BW? && c.value.Items? ==>
              r == BuildCriterion(c.property, c.matchType, c.value.elements)
    ensures !IsBlankText(c.property) && !c.matchType.BW? && !c.value.Items? ==>
              r == BuildCriterion(c.property, c.matchType, [c.value])
    ensures !IsBlankText(c.property) && c.matchType.BW? ==>
              r == if c.value != Null && c.anotherValue != Null
                   then Ok(Some(Between(c.property, c.value, c.anotherValue))) else Ok(None)
  {
    if IsBlankText(c.property) then Ok(None)
    else BuildCriterion(c.property, c.matchType, Arguments(c))
  }

  /** The criteria array the loop builds, defined on the conditions read so far. */
  function ConditionCriteria(cs: seq<Condition>): Result<seq<Criterion>>
  {
    if cs == [] then Ok([])
    else
      match ConditionCriteria(cs[..|cs| - 1])
      case Err(e) => Err(e)
      case Ok(acc) =>
        match ConditionCriterion(cs[|cs| - 1])
        case Err(e) => Err(e)
        case Ok(None) => Ok(acc)
        case Ok(Some(c)) => Ok(acc + [c])
  }

  /** buildCriterion(Conditions... conditions). */
  method BuildCriteria(conditions: seq<Condition>) returns (r: Result<seq<Criterion>>)
    ensures r == ConditionCriteria(conditions)
  {
    var criteria: seq<Criterion> := [];
    if |conditions| == 0 {
      return Ok(criteria);
    }
    var i := 0;
    while i < |conditions|
      invariant 0 <= i <= |conditions|
      invariant ConditionCriteria(conditions[..i]) == Ok(criteria)
    {
      assert conditions[..i + 1][..i] == conditions[..i];
      var condition := conditions[i];
      if IsBlankText(condition.property) {
        i := i + 1;
        continue;
      }
      var criterion: Result<Option<Criterion>>;
      if condition.matchType.BW? {
        criterion := BuildCriterion(condition.property, condition.matchType, [condition.value, condition.anotherValue]);
      } else if condition.value.Items? {
        criterion := BuildCriterion(condition.property, condition.matchType, condition.value.elements);
      } else {
        criterion := BuildCriterion(condition.property, condition.matchType, [condition.value]);
      }
      assert criterion == ConditionCriterion(condition);
      if criterion.Err? {
        ConditionCriteriaErrPersists(conditions, i + 1);
        return Err(criterion.error);
      }
      if criterion.value.Some? {
        criteria := criteria + [criterion.value.value];
      }
      i := i + 1;
    }
    assert conditions[..i] == conditions;
    return Ok(criteria);
  }

  /** Once the conditions read so far have thrown, the whole array throws the same. */
  lemma {:induction false} ConditionCriteriaErrPersists(cs: seq<Condition>, n: nat)
    requires n <= |cs| && ConditionCriteria(cs[..n]).Err?
    ensures ConditionCriteria(cs) == ConditionCriteria(cs[..n])
    decreases |cs| - n
  {
    if n < |cs| {
      assert cs[..n + 1][..n] == cs[..n];
      ConditionCriteriaErrPersists(cs, n + 1);
    } else {
      assert cs[..n] == cs;
    }
  }

  /** The criteria among a list of switch results, nulls dropped, in order. */
  function NonNull(os: seq<Option<Criterion>>): (r: seq<Criterion>)
    ensures |r| <= |os|
    ensures forall c :: c in r ==> Some(c) in os
    ensures (forall k :: 0 <= k < |os| ==> os[k].Some?) ==> |r| == |os|
  {
    if os == [] then []
    else
      var init := os[..|os| - 1];
      assert forall k :: 0 <= k < |init| ==> init[k] == os[k];
      NonNull(init) + (if os[|os| - 1].Some? then [os[|os| - 1].value] else [])
  }

  /**
   * When no condition throws, and `os` lists what each condition yields, the
   * built array is the non-null criteria among them, in input order; hence it is
   * never longer than the input.
   */
  lemma {:induction false} ConditionCriteriaAreNonNull(cs: seq<Condition>, os: seq<Option<Criterion>>)
    requires |os| == |cs|
    requires forall i :: 0 <= i < |cs| ==> ConditionCriterion(cs[i]) == Ok(os[i])
    ensures ConditionCriteria(cs) == Ok(NonNull(os))
    ensures |ConditionCriteria(cs).value| <= |cs|
  {
    if cs != [] {
      var n := |cs| - 1;
      var init, prior := cs[..n], os[..n];
      assert forall i :: 0 <= i < n ==> init[i] == cs[i] && prior[i] == os[i];
      ConditionCriteriaAreNonNull(init, prior);
      ConditionCriteriaStep(cs, NonNull(prior), os[n]);
      NonNullStep(os);
    }
  }

  /** Dropping the nulls of a list: those of all but the last, then the last unless it is null. */
  lemma NonNullStep(os: seq<Option<Criterion>>)
    requires os != []
    ensures NonNull(os) == if os[|os| - 1].Some? then NonNull(os[..|os| - 1]) + [os[|os| - 1].value] else NonNull(os[..|os| - 1])
  {
    if os[|os| - 1].None? {
      assert NonNull(os[..|os| - 1]) + [] == NonNull(os[..|os| - 1]);
    }
  }

  /** One iteration of the loop: the last condition's criterion is appended unless it is null. */
  lemma ConditionCriteriaStep(cs: seq<Condition>, acc: seq<Criterion>, o: Option<Criterion>)
    requires cs != [] && ConditionCriteria(cs[..|cs| - 1]) == Ok(acc)
    requires ConditionCriterion(cs[|cs| - 1]) == Ok(o)
    ensures ConditionCriteria(cs) == Ok(if o.Some? then acc + [o.value] else acc)
  {
  }

  /**
   * The builder throws exactly when some condition with a property spreads an
   * empty criteria into a case that reads `propertyValue[0]`.
   */
  lemma {:induction false} ConditionCriteriaFails(cs: seq<Condition>)
    ensures ConditionCriteria(cs).Err? <==> exists i :: 0 <= i < |cs| && ConditionCriterion(cs[i]).Err?
    ensures ConditionCriteria(cs).Err? ==> ConditionCriteria(cs).error == IndexOutOfBounds(0)
  {
    if cs != [] {
      var init := cs[..|cs| - 1];
      ConditionCriteriaFails(init);
      if ConditionCriteria(init).Err? {
        var i :| 0 <= i < |init| && ConditionCriterion(init[i]).Err?;
        assert cs[i] == init[i];
      } else if !ConditionCriterion(cs[|cs| - 1]).Err? {
        forall i | 0 <= i < |cs| ensures !ConditionCriterion(cs[i]).Err? {
          if i < |cs| - 1 {
            assert cs[i] == init[i];
          }
        }
      }
    }
  }

  // ---------------------------------------------------------------------------
  // buildCriterionByPropertyFilter(List<PropertyFilter>)

  /**
   * A PropertyFilter: one or more property names (several mean "any of them"),
   * a match type and a single match value.
   */
  datatype PropertyFilter = PropertyFilter(propertyNames: seq<string>, matchType: MatchType, matchValue: Value)

  predicate HasMultiProperties(f: PropertyFilter) {
    |f.propertyNames| > 1
  }

  predicate WellFormed(f: PropertyFilter) {
    |f.propertyNames| >= 1
  }

  /** The alternatives of a multi-property filter, one per property name, nulls included. */
  function Disjuncts(names: seq<string>, matchType: MatchType, value: Value): Result<seq<Option<Criterion>>>
  {
    if names == [] then Ok([])
    else
      var init := names[..|names| - 1];
      match Disjuncts(init, matchType, value)
      case Err(e) => Err(e)
      case Ok(acc) =>
        match BuildCriterion(names[|names| - 1], matchType, [value])
        case Err(e) => Err(e)
        case Ok(c) => Ok(acc + [c])
  }

  /**
   * The alternatives are the switch's results for the property names, one per
   * name and in order, and they throw exactly when some name's switch throws.
   */
  lemma {:induction false} DisjunctsAreSwitchResults(names: seq<string>, matchType: MatchType, value: Value)
    ensures Disjuncts(names, matchType, value).Ok? ==> |Disjuncts(names, matchType, value).value| == |names|
    ensures Disjuncts(names, matchType, value).Ok? ==>
              forall k :: 0 <= k < |names| ==> BuildCriterion(names[k], matchType, [value]) == Ok(Disjuncts(names, matchType, value).value[k])
    ensures Disjuncts(names, matchType, value).Err? <==>
              exists k :: 0 <= k < |names| && BuildCriterion(names[k], matchType, [value]).Err?
  {
    if names != [] {
      var init := names[..|names| - 1];
      DisjunctsAreSwitchResults(init, matchType, value);
      assert forall k :: 0 <= k < |init| ==> init[k] == names[k];
    }
  }

  /**
   * The alternatives throw exactly when some property name is blank, or when
   * the match type is BW and the single value is not null.
   */
  lemma DisjunctsFail(names: seq<string>, matchType: MatchType, value: Value)
    ensures Disjuncts(names, matchType, value).Err? <==>
              (exists k :: 0 <= k < |names| && IsBlankText(names[k])) || (names != [] && matchType.BW? && value != Null)
  {
    DisjunctsAreSwitchResults(names, matchType, value);
    forall k | 0 <= k < |names|
      ensures BuildCriterion(names[k], matchType, [value]).Err? <==> IsBlankText(names[k]) || (matchType.BW? && value != Null)
    {
      SingleOperandFails(names[k], matchType, value);
    }
  }

  /**
   * The one entry a filter adds: the switch's result (null included), or an OR
   * with one alternative per property. It throws exactly when some property
   * name is blank or the match type is BW with a non-null value.
   */
  function FilterCriterion(f: PropertyFilter): (r: Result<Option<Criterion>>)
    requires WellFormed(f)
    ensures r.Err? <==> (exists k :: 0 <= k < |f.propertyNames| && IsBlankText(f.propertyNames[k]))
                        || (f.matchType.BW? && f.matchValue != Null)
    ensures !HasMultiProperties(f) ==> r == BuildCriterion(f.propertyNames[0], f.matchType, [f.matchValue])
    ensures HasMultiProperties(f) && r.Ok? ==>
              && r.value.Some? && r.value.value.Or? && |r.value.value.alternatives| == |f.propertyNames|
              && forall k :: 0 <= k < |f.propertyNames| ==>
                   BuildCriterion(f.propertyNames[k], f.matchType, [f.matchValue]) == Ok(r.value.value.alternatives[k])
  {
    if !HasMultiProperties(f) then
      SingleOperandFails(f.propertyNames[0], f.matchType, f.matchValue);
      BuildCriterion(f.propertyNames[0], f.matchType, [f.matchValue])
    else
      DisjunctsAreSwitchResults(f.propertyNames, f.matchType, f.matchValue);
      DisjunctsFail(f.propertyNames, f.matchType, f.matchValue);
      match Disjuncts(f.propertyNames, f.matchType, f.matchValue)
      case Err(e) => Err(e)
      case Ok(alternatives) => Ok(Some(Or(alternatives)))
  }

  /** The list the loop builds, defined on the filters read so far. */
  function FilterCriteria(fs: seq<PropertyFilter>): Result<seq<Option<Criterion>>>
    requires forall f :: f in fs ==> WellFormed(f)
  {
    if fs == [] then Ok([])
    else
      match FilterCriteria(fs[..|fs| - 1])
      case Err(e) => Err(e)
      case Ok(acc) =>
        match FilterCriterion(fs[|fs| - 1])
        case Err(e) => Err(e)
        case Ok(c) => Ok(acc + [c])
  }

  /** The inner loop of buildCriterionByPropertyFilter: one criterion per property name, stopping at the first throw. */
  method BuildDisjuncts(names: seq<string>, matchType: MatchType, value: Value) returns (r: Result<seq<Option<Criterion>>>)
    ensures r == Disjuncts(names, matchType, value)
  {
    var disjunction: seq<Option<Criterion>> := [];
    var j := 0;
    while j < |names|
      invariant 0 <= j <= |names|
      invariant Disjuncts(names[..j], matchType, value) == Ok(disjunction)
    {
      assert names[..j + 1][..j] == names[..j];
      var criterion := BuildCriterion(names[j], matchType, [value]);
      if criterion.Err? {
        DisjunctsErrPersists(names, j + 1, matchType, value);
        return Err(criterion.error);
      }
      disjunction := disjunction + [criterion.value];
      j := j + 1;
    }
    assert names[..j] == names;
    return Ok(disjunction);
  }

  /** buildCriterionByPropertyFilter(filters). */
  method BuildCriterionByPropertyFilter(filters: seq<PropertyFilter>) returns (r: Result<seq<Option<Criterion>>>)
    requires forall f :: f in filters ==> WellFormed(f)
    ensures r == FilterCriteria(filters)
  {
    var criterionList: seq<Option<Criterion>> := [];
    var i := 0;
    while i < |filters|
      invariant 0 <= i <= |filters|
      invariant FilterCriteria(filters[..i]) == Ok(criterionList)
    {
      assert filters[..i + 1][..i] == filters[..i];
      var filter := filters[i];
      assert filter in filters;
      if !HasMultiProperties(filter) {
        var criterion := BuildCriterion(filter.propertyNames[0], filter.matchType, [filter.matchValue]);
        if criterion.Err? {
          FilterCriteriaErrPersists(filters, i + 1);
          return Err(criterion.error);
        }
        criterionList := criterionList + [criterion.value];
      } else {
        var disjunction := BuildDisjuncts(filter.propertyNames, filter.matchType, filter.matchValue);
        if disjunction.Err? {
          FilterCriteriaErrPersists(filters, i + 1);
          return Err(disjunction.error);
        }
        criterionList := criterionList + [Some(Or(disjunction.value))];
      }
      i := i + 1;
    }
    assert filters[..i] == filters;
    return Ok(criterionList);
  }

  /** Once a property of a multi-property filter has thrown, the whole OR throws the same. */
  lemma {:induction false} DisjunctsErrPersists(names: seq<string>, n: nat, matchType: MatchType, value: Value)
    requires n <= |names| && Disjuncts(names[..n], matchType, value).Err?
    ensures Disjuncts(names, matchType, value) == Disjuncts(names[..n], matchType, value)
    decreases |names| - n
  {
    if n < |names| {
      assert names[..n + 1][..n] == names[..n];
      DisjunctsErrPersists(names, n + 1, matchType, value);
    } else {
      assert names[..n] == names;
    }
  }

  /** Once the filters read so far have thrown, the whole list throws the same. */
  lemma {:induction false} FilterCriteriaErrPersists(fs: seq<PropertyFilter>, n: nat)
    requires forall f :: f in fs ==> WellFormed(f)
    requires n <= |fs| && FilterCriteria(fs[..n]).Err?
    ensures FilterCriteria(fs) == FilterCriteria(fs[..n])
    decreases |fs| - n
  {
    if n < |fs| {
      assert fs[..n + 1][..n] == fs[..n];
      FilterCriteriaErrPersists(fs, n + 1);
    } else {
      assert fs[..n] == fs;
    }
  }

  /** Exactly one entry per filter, in order: the filter's own entry, even when it is null. */
  lemma {:induction false} FilterCriteriaOnePerFilter(fs: seq<PropertyFilter>)
    requires forall f :: f in fs ==> WellFormed(f)
    requires FilterCriteria(fs).Ok?
    ensures |FilterCriteria(fs).value| == |fs|
    ensures forall k :: 0 <= k < |fs| ==> FilterCriterion(fs[k]) == Ok(FilterCriteria(fs).value[k])
  {
    if fs != [] {
      var init := fs[..|fs| - 1];
      FilterCriteriaOnePerFilter(init);
      forall k | 0 <= k < |fs| ensures FilterCriterion(fs[k]) == Ok(FilterCriteria(fs).value[k]) {
        if k < |init| {
          assert fs[k] == init[k];
        }
      }
    }
  }

  /**
   * With the match value passed as a single vararg, the switch throws exactly
   * for a blank property name, or for BW with a non-null value (it then reads
   * `propertyValue[1]`).
   */
  lemma SingleOperandFails(property: string, matchType: MatchType, value: Value)
    ensures BuildCriterion(property, matchType, [value]).Err? <==> IsBlankText(property) || (matchType.BW? && value != Null)
  {
  }

  /** A PropertyFilter with match type BW never yields a between-restriction. */
  lemma {:induction false} FilterBetweenNeverBuilt(f: PropertyFilter)
    requires WellFormed(f) && f.matchType.BW?
    requires FilterCriterion(f).Ok?
    ensures FilterCriterion(f) == Ok(None) || FilterCriterion(f).value.value.Or?
    ensures FilterCriterion(f).value.Some? ==>
              forall a :: a in FilterCriterion(f).value.value.alternatives ==> a == None
  {
    if HasMultiProperties(f) {
      DisjunctsAreSwitchResults(f.propertyNames, f.matchType, f.matchValue);
      var alts := Disjuncts(f.propertyNames, f.matchType, f.matchValue).value;
      forall a | a in alts ensures a == None {
        var k :| 0 <= k < |alts| && alts[k] == a;
        SingleOperandFails(f.propertyNames[k], f.matchType, f.matchValue);
      }
    } else {
      SingleOperandFails(f.propertyNames[0], f.matchType, f.matchValue);
    }
  }

  /** The example of a two-property filter: `(a = 5 OR b = 5)`. */
  lemma TwoPropertyEqualsIsOr()
    ensures FilterCriterion(PropertyFilter(["a", "b"], EQ, Number(5)))
            == Ok(Some(Or([Some(Eq("a", Number(5))), Some(Eq("b", Number(5)))])))
  {
    var v := Number(5);
    var one: seq<string> := ["a"];
    var two: seq<string> := ["a", "b"];
    var ea, eb := Some(Eq("a", v)), Some(Eq("b", v));
    assert !IsWhitespace("a"[0]) && !IsWhitespace("b"[0]);
    assert BuildCriterion("a", EQ, [v]) == Ok(ea);
    assert BuildCriterion("b", EQ, [v]) == Ok(eb);
    assert two[..|two| - 1] == one && two[|two| - 1] == "b";
    assert one[..|one| - 1] == [] && one[|one| - 1] == "a";
    var none: seq<Option<Criterion>> := [];
    assert Disjuncts([], EQ, v) == Ok(none);
    assert none + [ea] == [ea] && [ea] + [eb] == [ea, eb];
    assert Disjuncts(one, EQ, v) == Ok(none + [ea]);
    assert Disjuncts(two, EQ, v) == Ok([ea] + [eb]);
  }
}
