/** Rewriting of rule operands: SEGMENT operands name segments and become their unique keys,
    DATETIME operands become epoch seconds, and every other condition is copied. */
module RuleCompiler {
  import opened Wrappers
  import opened Datetime
  import opened ToggleModel

  /** How a DATETIME operand becomes epoch seconds: `translateUnix`, passed in so that the
      compiler's proofs do not depend on the date grammar. None is a parse failure. */
  type Translator = string -> Option<string>

  /** `segments.get(key).getUniqueKey()`: a key the snapshot lacks is a null dereference. */
  function ResolveSegment(segments: map<string, Segment>, key: string): (r: Result<string, BuildError>)
    ensures r.Success? <==> key in segments
    ensures r.Success? ==> r.value == segments[key].uniqueKey
    ensures r.Failure? ==> r.error == UnresolvedSegment(key)
  {
    if key in segments then Success(segments[key].uniqueKey) else Failure(UnresolvedSegment(key))
  }

  /** A DATETIME operand as epoch seconds; an operand the translator cannot read is an error. */
  function NormalizeDatetime(translate: Translator, operand: string): (r: Result<string, BuildError>)
    ensures r.Success? <==> translate(operand).Some?
    ensures r.Success? ==> r.value == translate(operand).value
    ensures r.Failure? ==> r.error == MalformedDatetime(operand)
  {
    match translate(operand)
    case None => Failure(MalformedDatetime(operand))
    case Some(seconds) => Success(seconds)
  }

  /** Each SEGMENT operand looked up, one result per operand. */
  function ResolvedKeys(segments: map<string, Segment>, keys: seq<string>): (r: seq<Result<string, BuildError>>)
    ensures |r| == |keys|
    ensures forall i :: 0 <= i < |keys| ==> r[i] == ResolveSegment(segments, keys[i])
  {
    seq(|keys|, i requires 0 <= i < |keys| => ResolveSegment(segments, keys[i]))
  }

  /** `replaceSegmentKeyToUniqueKey`: every operand of a SEGMENT condition, in order. */
  function ReplaceSegmentKeys(segments: map<string, Segment>, keys: seq<string>): (r: Result<seq<string>, BuildError>)
    ensures r.Success? <==> forall i :: 0 <= i < |keys| ==> keys[i] in segments
    ensures r.Success? ==>
              |r.value| == |keys| && forall i :: 0 <= i < |keys| ==> r.value[i] == segments[keys[i]].uniqueKey
  {
    Sequence(ResolvedKeys(segments, keys))
  }

  /** The first key the snapshot lacks is the one reported. */
  lemma ReplaceSegmentKeysFirstFailure(segments: map<string, Segment>, keys: seq<string>, i: nat)
    requires i < |keys| && keys[i] !in segments
    requires forall j :: 0 <= j < i ==> keys[j] in segments
    ensures ReplaceSegmentKeys(segments, keys) == Failure(UnresolvedSegment(keys[i]))
  {
    SequenceFirstFailure(ResolvedKeys(segments, keys), i);
  }

  /** A failure reports one of the given keys, and one the snapshot lacks. */
  lemma ReplaceSegmentKeysFailure(segments: map<string, Segment>, keys: seq<string>)
    requires ReplaceSegmentKeys(segments, keys).Failure?
    ensures exists i :: 0 <= i < |keys| && keys[i] !in segments &&
              ReplaceSegmentKeys(segments, keys).error == UnresolvedSegment(keys[i])
  {
    var results := ResolvedKeys(segments, keys);
    SequenceFailure(results);
    var i :| 0 <= i < |results| && results[i] == Failure(Sequence(results).error);
    assert keys[i] !in segments;
  }

  /** Each DATETIME operand translated, one result per operand. */
  function TranslatedOperands(translate: Translator, operands: seq<string>): (r: seq<Result<string, BuildError>>)
    ensures |r| == |operands|
    ensures forall i :: 0 <= i < |operands| ==> r[i] == NormalizeDatetime(translate, operands[i])
  {
    seq(|operands|, i requires 0 <= i < |operands| => NormalizeDatetime(translate, operands[i]))
  }

  /** The operands of a DATETIME condition through `translateUnix`, in order. */
  function TranslateDatetimes(translate: Translator, operands: seq<string>): (r: Result<seq<string>, BuildError>)
    ensures r.Success? <==> forall i :: 0 <= i < |operands| ==> translate(operands[i]).Some?
    ensures r.Success? ==>
              |r.value| == |operands| &&
              forall i :: 0 <= i < |operands| ==> translate(operands[i]) == Some(r.value[i])
  {
    Sequence(TranslatedOperands(translate, operands))
  }

  /** The first operand that does not translate is the one reported. */
  lemma TranslateDatetimesFirstFailure(translate: Translator, operands: seq<string>, i: nat)
    requires i < |operands| && translate(operands[i]).None?
    requires forall j :: 0 <= j < i ==> translate(operands[j]).Some?
    ensures TranslateDatetimes(translate, operands) == Failure(MalformedDatetime(operands[i]))
  {
    SequenceFirstFailure(TranslatedOperands(translate, operands), i);
  }

  /** A failure reports one of the given operands, and one that does not translate. */
  lemma TranslateDatetimesFailure(translate: Translator, operands: seq<string>)
    requires TranslateDatetimes(translate, operands).Failure?
    ensures exists i :: 0 <= i < |operands| && translate(operands[i]).None? &&
              TranslateDatetimes(translate, operands).error == MalformedDatetime(operands[i])
  {
    var results := TranslatedOperands(translate, operands);
    SequenceFailure(results);
    var i :| 0 <= i < |results| && results[i] == Failure(Sequence(results).error);
    assert translate(operands[i]).None?;
  }

  /** The body of the per-condition loop: only the operand list can change. */
  function CompileCondition(segments: map<string, Segment>, translate: Translator, c: Condition): (r: Result<Condition, BuildError>)
    ensures r.Success? ==> r.value == c.(objects := r.value.objects)
  {
    match c.kind
    case SegmentType =>
      var objects :- ReplaceSegmentKeys(segments, c.objects);
      Success(c.(objects := objects))
    case DatetimeType =>
      var objects :- TranslateDatetimes(translate, c.objects);
      Success(c.(objects := objects))
    case OtherType(_) => Success(c)
  }

  /** Each condition of a rule compiled, one result per condition. */
  function CompiledConditions(segments: map<string, Segment>, translate: Translator, conditions: seq<Condition>)
    : (r: seq<Result<Condition, BuildError>>)
    ensures |r| == |conditions|
    ensures forall k :: 0 <= k < |conditions| ==> r[k] == CompileCondition(segments, translate, conditions[k])
  {
    seq(|conditions|, k requires 0 <= k < |conditions| => CompileCondition(segments, translate, conditions[k]))
  }

  /** The conditions of one rule compiled in order; the first that fails decides the error. */
  function CompileConditions(segments: map<string, Segment>, translate: Translator, conditions: seq<Condition>)
    : (r: Result<seq<Condition>, BuildError>)
    ensures r.Success? <==> forall k :: 0 <= k < |conditions| ==> CompileCondition(segments, translate, conditions[k]).Success?
    ensures r.Success? ==>
              |r.value| == |conditions| &&
              forall k :: 0 <= k < |conditions| ==> CompileCondition(segments, translate, conditions[k]) == Success(r.value[k])
  {
    Sequence(CompiledConditions(segments, translate, conditions))
  }

  /** One more condition: the inner loop of `setRules` either stops with that condition's error
      or extends the compiled prefix by the compiled condition. */
  lemma CompileConditionsStep(segments: map<string, Segment>, translate: Translator, conditions: seq<Condition>,
                              j: nat, compiled: seq<Condition>)
    requires j < |conditions| && CompileConditions(segments, translate, conditions[..j]) == Success(compiled)
    ensures CompileCondition(segments, translate, conditions[j]).Failure? ==>
              CompileConditions(segments, translate, conditions)
              == Failure(CompileCondition(segments, translate, conditions[j]).error)
    ensures CompileCondition(segments, translate, conditions[j]).Success? ==>
              CompileConditions(segments, translate, conditions[..j + 1])
              == Success(compiled + [CompileCondition(segments, translate, conditions[j]).value])
  {
    var results := CompiledConditions(segments, translate, conditions);
    assert CompiledConditions(segments, translate, conditions[..j]) == results[..j];
    assert CompiledConditions(segments, translate, conditions[..j + 1]) == results[..j + 1];
    SequenceStep(results, j, compiled);
  }

  /** The first condition that fails decides the error of the rule. */
  lemma CompileConditionsFirstFailure(segments: map<string, Segment>, translate: Translator,
                                      conditions: seq<Condition>, k: nat, e: BuildError)
    requires k < |conditions| && CompileCondition(segments, translate, conditions[k]) == Failure(e)
    requires forall j :: 0 <= j < k ==> CompileCondition(segments, translate, conditions[j]).Success?
    ensures CompileConditions(segments, translate, conditions) == Failure(e)
  {
    SequenceFirstFailure(CompiledConditions(segments, translate, conditions), k);
  }

  /** A failing rule fails at one of its own conditions, with that condition's error. */
  lemma CompileConditionsFailure(segments: map<string, Segment>, translate: Translator, conditions: seq<Condition>)
    requires CompileConditions(segments, translate, conditions).Failure?
    ensures exists k :: 0 <= k < |conditions| &&
              CompileCondition(segments, translate, conditions[k])
              == Failure(CompileConditions(segments, translate, conditions).error)
  {
    var results := CompiledConditions(segments, translate, conditions);
    SequenceFailure(results);
    var k :| 0 <= k < |results| && results[k] == Failure(Sequence(results).error);
    assert CompileCondition(segments, translate, conditions[k]) == results[k];
  }

  /** One rule: its conditions compiled in order, its serve kept. */
  function CompileRule(segments: map<string, Segment>, translate: Translator, rule: Rule): (r: Result<Rule, BuildError>)
    ensures r.Success? ==> r.value.serve == rule.serve && |r.value.conditions| == |rule.conditions|
  {
    var conditions :- CompileConditions(segments, translate, rule.conditions);
    Success(rule.(conditions := conditions))
  }

  /** Each rule of the list compiled, one result per rule. */
  function CompiledRules(segments: map<string, Segment>, translate: Translator, rules: seq<Rule>)
    : (r: seq<Result<Rule, BuildError>>)
    ensures |r| == |rules|
    ensures forall i :: 0 <= i < |rules| ==> r[i] == CompileRule(segments, translate, rules[i])
  {
    seq(|rules|, i requires 0 <= i < |rules| => CompileRule(segments, translate, rules[i]))
  }

  /** The whole rule list, rules in order; the first rule that fails decides the error. */
  function CompileRules(segments: map<string, Segment>, translate: Translator, rules: seq<Rule>): (r: Result<seq<Rule>, BuildError>)
    ensures r.Success? <==> forall i :: 0 <= i < |rules| ==> CompileRule(segments, translate, rules[i]).Success?
    ensures r.Success? ==>
              |r.value| == |rules| &&
              forall i :: 0 <= i < |rules| ==> CompileRule(segments, translate, rules[i]) == Success(r.value[i])
  {
    Sequence(CompiledRules(segments, translate, rules))
  }

  /** One more rule: the loop of `setRules` either stops with that rule's error or extends the
      compiled prefix by the compiled rule. */
  lemma CompileRulesStep(segments: map<string, Segment>, translate: Translator, rules: seq<Rule>, i: nat,
                         compiled: seq<Rule>)
    requires i < |rules| && CompileRules(segments, translate, rules[..i]) == Success(compiled)
    ensures CompileRule(segments, translate, rules[i]).Failure? ==>
              CompileRules(segments, translate, rules) == Failure(CompileRule(segments, translate, rules[i]).error)
    ensures CompileRule(segments, translate, rules[i]).Success? ==>
              CompileRules(segments, translate, rules[..i + 1])
              == Success(compiled + [CompileRule(segments, translate, rules[i]).value])
  {
    var results := CompiledRules(segments, translate, rules);
    assert CompiledRules(segments, translate, rules[..i]) == results[..i];
    assert CompiledRules(segments, translate, rules[..i + 1]) == results[..i + 1];
    SequenceStep(results, i, compiled);
  }

  /** The first rule that fails decides the error of the whole list. */
  lemma CompileRulesFirstFailure(segments: map<string, Segment>, translate: Translator,
                                 rules: seq<Rule>, i: nat, e: BuildError)
    requires i < |rules| && CompileRule(segments, translate, rules[i]) == Failure(e)
    requires forall j :: 0 <= j < i ==> CompileRule(segments, translate, rules[j]).Success?
    ensures CompileRules(segments, translate, rules) == Failure(e)
  {
    SequenceFirstFailure(CompiledRules(segments, translate, rules), i);
  }

  /** A failing list fails at one of its own rules, with that rule's error. */
  lemma CompileRulesFailure(segments: map<string, Segment>, translate: Translator, rules: seq<Rule>)
    requires CompileRules(segments, translate, rules).Failure?
    ensures exists i :: 0 <= i < |rules| &&
              CompileRule(segments, translate, rules[i]) == Failure(CompileRules(segments, translate, rules).error)
  {
    var results := CompiledRules(segments, translate, rules);
    SequenceFailure(results);
    var i :| 0 <= i < |results| && results[i] == Failure(Sequence(results).error);
    assert CompileRule(segments, translate, rules[i]) == results[i];
  }

  // Reference definition: what a compiled rule list is, operand by operand.

  /** The compiled operand `b` is what the source operand `a` becomes under a condition kind. */
  ghost predicate OperandRewritten(segments: map<string, Segment>, translate: Translator, kind: ConditionType, a: string, b: string)
  {
    match kind
    case SegmentType => a in segments && b == segments[a].uniqueKey
    case DatetimeType => translate(a) == Some(b)
    case OtherType(_) => b == a
  }

  ghost predicate ConditionCompiledFrom(segments: map<string, Segment>, translate: Translator, c: Condition, d: Condition)
  {
    d == c.(objects := d.objects) && |d.objects| == |c.objects| &&
    forall j :: 0 <= j < |c.objects| ==> OperandRewritten(segments, translate, c.kind, c.objects[j], d.objects[j])
  }

  ghost predicate RuleCompiledFrom(segments: map<string, Segment>, translate: Translator, rule: Rule, out: Rule)
  {
    out.serve == rule.serve && |out.conditions| == |rule.conditions| &&
    forall k :: 0 <= k < |rule.conditions| ==> ConditionCompiledFrom(segments, translate, rule.conditions[k], out.conditions[k])
  }

  /** Same number and order of rules, conditions and operands, each operand rewritten. */
  ghost predicate RulesCompiledFrom(segments: map<string, Segment>, translate: Translator, rules: seq<Rule>, out: seq<Rule>)
  {
    |out| == |rules| && forall i :: 0 <= i < |rules| ==> RuleCompiledFrom(segments, translate, rules[i], out[i])
  }

  /** An operand the compiler can rewrite: a SEGMENT key in the snapshot, a DATETIME operand
      `translateUnix` reads, or any operand of another kind. */
  ghost predicate Resolvable(segments: map<string, Segment>, translate: Translator, kind: ConditionType, a: string)
  {
    match kind
    case SegmentType => a in segments
    case DatetimeType => translate(a).Some?
    case OtherType(_) => true
  }

  ghost predicate ConditionResolvable(segments: map<string, Segment>, translate: Translator, c: Condition)
  {
    forall j :: 0 <= j < |c.objects| ==> Resolvable(segments, translate, c.kind, c.objects[j])
  }

  ghost predicate RuleResolvable(segments: map<string, Segment>, translate: Translator, rule: Rule)
  {
    forall k :: 0 <= k < |rule.conditions| ==> ConditionResolvable(segments, translate, rule.conditions[k])
  }

  /** The error names an operand that cannot be rewritten, under a condition of the matching kind. */
  ghost predicate BlamesOperand(segments: map<string, Segment>, translate: Translator, c: Condition, e: BuildError)
  {
    match e
    case UnresolvedSegment(key) => c.kind == SegmentType && key in c.objects && key !in segments
    case MalformedDatetime(operand) => c.kind == DatetimeType && operand in c.objects && translate(operand).None?
    case _ => false
  }

  ghost predicate RuleBlamesOperand(segments: map<string, Segment>, translate: Translator, rule: Rule, e: BuildError)
  {
    exists k :: 0 <= k < |rule.conditions| && BlamesOperand(segments, translate, rule.conditions[k], e)
  }

  // Lemmas: one condition.

  /** A condition compiles exactly when all its operands are resolvable, and then into the
      reference rewrite, which is unique. */
  lemma CompileConditionCorrect(segments: map<string, Segment>, translate: Translator, c: Condition, d: Condition)
    ensures CompileCondition(segments, translate, c).Success? <==> ConditionResolvable(segments, translate, c)
    ensures CompileCondition(segments, translate, c) == Success(d) <==> ConditionCompiledFrom(segments, translate, c, d)
  {
    if ConditionCompiledFrom(segments, translate, c, d) {
      match c.kind
      case SegmentType => assert d.objects == ReplaceSegmentKeys(segments, c.objects).value;
      case DatetimeType => assert d.objects == TranslateDatetimes(translate, c.objects).value;
      case OtherType(_) => assert d.objects == c.objects;
    }
  }

  /** A failing condition blames one of its own operands, of its own kind. */
  lemma CompileConditionBlame(segments: map<string, Segment>, translate: Translator, c: Condition)
    requires CompileCondition(segments, translate, c).Failure?
    ensures BlamesOperand(segments, translate, c, CompileCondition(segments, translate, c).error)
  {
    match c.kind
    case SegmentType =>
      ReplaceSegmentKeysFailure(segments, c.objects);
      var i :| 0 <= i < |c.objects| && c.objects[i] !in segments &&
               ReplaceSegmentKeys(segments, c.objects).error == UnresolvedSegment(c.objects[i]);
      assert c.objects[i] in c.objects;
    case DatetimeType =>
      TranslateDatetimesFailure(translate, c.objects);
      var i :| 0 <= i < |c.objects| && translate(c.objects[i]).None? &&
               TranslateDatetimes(translate, c.objects).error == MalformedDatetime(c.objects[i]);
      assert c.objects[i] in c.objects;
  }

  // Lemmas: one rule.

  lemma CompileRuleCorrect(segments: map<string, Segment>, translate: Translator, rule: Rule, out: Rule)
    ensures CompileRule(segments, translate, rule).Success? <==> RuleResolvable(segments, translate, rule)
    ensures CompileRule(segments, translate, rule) == Success(out) <==> RuleCompiledFrom(segments, translate, rule, out)
  {
    forall k | 0 <= k < |rule.conditions|
      ensures CompileCondition(segments, translate, rule.conditions[k]).Success? <==> ConditionResolvable(segments, translate, rule.conditions[k])
    {
      CompileConditionCorrect(segments, translate, rule.conditions[k], rule.conditions[k]);
    }
    if |out.conditions| == |rule.conditions| {
      forall k | 0 <= k < |rule.conditions|
        ensures CompileCondition(segments, translate, rule.conditions[k]) == Success(out.conditions[k])
                <==> ConditionCompiledFrom(segments, translate, rule.conditions[k], out.conditions[k])
      {
        CompileConditionCorrect(segments, translate, rule.conditions[k], out.conditions[k]);
      }
    }
    if RuleCompiledFrom(segments, translate, rule, out) {
      var compiled := CompileConditions(segments, translate, rule.conditions);
      assert compiled.Success?;
      assert compiled.value == out.conditions;
    }
  }

  lemma CompileRuleBlame(segments: map<string, Segment>, translate: Translator, rule: Rule)
    requires CompileRule(segments, translate, rule).Failure?
    ensures RuleBlamesOperand(segments, translate, rule, CompileRule(segments, translate, rule).error)
  {
    CompileConditionsFailure(segments, translate, rule.conditions);
    var k :| 0 <= k < |rule.conditions| &&
             CompileCondition(segments, translate, rule.conditions[k]) == Failure(CompileRule(segments, translate, rule).error);
    CompileConditionBlame(segments, translate, rule.conditions[k]);
  }

  // Lemmas: the rule list.

  /** Soundness and completeness against the reference: the compiler succeeds with `out`
      exactly when `out` keeps the number and order of rules, conditions and operands and
      rewrites every operand as its condition's kind says. */
  lemma CompileRulesCorrect(segments: map<string, Segment>, translate: Translator, rules: seq<Rule>, out: seq<Rule>)
    ensures CompileRules(segments, translate, rules) == Success(out) <==> RulesCompiledFrom(segments, translate, rules, out)
  {
    if |out| == |rules| {
      forall i | 0 <= i < |rules|
        ensures CompileRule(segments, translate, rules[i]) == Success(out[i]) <==> RuleCompiledFrom(segments, translate, rules[i], out[i])
      {
        CompileRuleCorrect(segments, translate, rules[i], out[i]);
      }
    }
    if RulesCompiledFrom(segments, translate, rules, out) {
      var compiled := CompileRules(segments, translate, rules);
      assert compiled.Success?;
      assert compiled.value == out;
    }
  }

  /** The compiler fails exactly when some operand cannot be rewritten: no operand is dropped. */
  lemma CompileRulesFailsExactly(segments: map<string, Segment>, translate: Translator, rules: seq<Rule>)
    ensures CompileRules(segments, translate, rules).Failure? <==>
            exists i :: 0 <= i < |rules| && !RuleResolvable(segments, translate, rules[i])
  {
    forall i | 0 <= i < |rules|
      ensures CompileRule(segments, translate, rules[i]).Success? <==> RuleResolvable(segments, translate, rules[i])
    {
      CompileRuleCorrect(segments, translate, rules[i], rules[i]);
    }
  }

  /** A failure names a real operand: a segment key of a SEGMENT condition that the snapshot
      lacks, or a DATETIME operand that does not parse, in one of the given rules. */
  lemma CompileRulesBlame(segments: map<string, Segment>, translate: Translator, rules: seq<Rule>)
    requires CompileRules(segments, translate, rules).Failure?
    ensures exists i :: 0 <= i < |rules| && RuleBlamesOperand(segments, translate, rules[i], CompileRules(segments, translate, rules).error)
  {
    CompileRulesFailure(segments, translate, rules);
    var i :| 0 <= i < |rules| && CompileRule(segments, translate, rules[i]) == Failure(CompileRules(segments, translate, rules).error);
    CompileRuleBlame(segments, translate, rules[i]);
  }

  /** With an empty snapshot (the builder's state when no segments were set) any SEGMENT operand fails the build. */
  lemma SegmentOperandNeedsSnapshot(translate: Translator, rules: seq<Rule>, i: nat, k: nat)
    requires i < |rules| && k < |rules[i].conditions|
    requires rules[i].conditions[k].kind == SegmentType && |rules[i].conditions[k].objects| > 0
    ensures CompileRules(map[], translate, rules).Failure?
  {
    CompileRulesFailsExactly(map[], translate, rules);
    assert !Resolvable(map[], translate, SegmentType, rules[i].conditions[k].objects[0]);
    assert !RuleResolvable(map[], translate, rules[i]);
  }

  /** A DATETIME condition's wall-clock operand becomes epoch seconds; nothing else changes. */
  lemma DatetimeConditionExample(segments: map<string, Segment>)
    ensures CompileCondition(segments, TranslateUnix, Condition(DatetimeType, "", "after", ["2023/01/02 10:00:00+00:00"]))
            == Success(Condition(DatetimeType, "", "after", ["1672653600"]))
  {
    TranslateUtcExample();
    var r := TranslateDatetimes(TranslateUnix, ["2023/01/02 10:00:00+00:00"]);
    assert r.Success? && |r.value| == 1 && r.value[0] == "1672653600";
    assert r.value == ["1672653600"];
  }

  lemma SingleRuleOfTwoConditions(segments: map<string, Segment>, translate: Translator, c1: Condition, c2: Condition,
                                  d1: Condition, d2: Condition, serve: Serve)
    requires CompileCondition(segments, translate, c1) == Success(d1)
    requires CompileCondition(segments, translate, c2) == Success(d2)
    ensures CompileRules(segments, translate, [Rule([c1, c2], serve)]) == Success([Rule([d1, d2], serve)])
  {
    var conditions := CompileConditions(segments, translate, [c1, c2]);
    assert conditions.Success? && conditions.value == [d1, d2];
    var rules := CompileRules(segments, translate, [Rule([c1, c2], serve)]);
    assert rules.Success? && rules.value == [Rule([d1, d2], serve)];
  }

  /** A rule with a SEGMENT condition and a DATETIME condition: the key becomes the segment's
      unique key, the wall-clock time becomes epoch seconds, and the serve is kept. */
  lemma CompileRulesExample()
    ensures CompileRules(
              map["seg-a" := Segment("seg-a", "uid-1")], TranslateUnix,
              [Rule([Condition(SegmentType, "user", "is in", ["seg-a"]),
                     Condition(DatetimeType, "", "after", ["2023/01/02 10:00:00+00:00"])], Select(0))])
            == Success([Rule([Condition(SegmentType, "user", "is in", ["uid-1"]),
                              Condition(DatetimeType, "", "after", ["1672653600"])], Select(0))])
  {
    var segments := map["seg-a" := Segment("seg-a", "uid-1")];
    var c1 := Condition(SegmentType, "user", "is in", ["seg-a"]);
    var d1 := Condition(SegmentType, "user", "is in", ["uid-1"]);
    assert ReplaceSegmentKeys(segments, ["seg-a"]).value == ["uid-1"];
    assert CompileCondition(segments, TranslateUnix, c1) == Success(d1);
    DatetimeConditionExample(segments);
    SingleRuleOfTwoConditions(segments, TranslateUnix, c1,
                              Condition(DatetimeType, "", "after", ["2023/01/02 10:00:00+00:00"]),
                              d1, Condition(DatetimeType, "", "after", ["1672653600"]), Select(0));
  }
}
