/** The fluent builder object: setters fill its fields, `Build` runs the four steps on the
    toggle it holds, each one writing the toggle or throwing. */
module Builder {
  import opened Wrappers
  import opened ToggleModel
  import opened Converters
  import opened Datetime
  import opened RuleCompiler
  import opened ToggleAssembly

  /** The outcome a step method reports for the step function that specifies it. */
  function OutcomeOf(r: Result<Toggle, BuildError>): (o: Outcome<BuildError>)
    ensures o.Pass? <==> r.Success?
    ensures o.Fail? ==> o.error == r.error
  {
    if r.Success? then Pass else Fail(r.error)
  }

  class ServerToggleBuilder {
    var toggle: Toggle
    var converter: Option<Converter>
    var targetingContent: Option<TargetingContent>
    /** The segment snapshot; a builder whose `Segments` was never called has none to offer. */
    var segments: map<string, Segment>
    /** The JSON library that reads `json` variation literals. */
    const parseJson: string -> Option<Json>

    /** `new ServerToggleBuilder().builder()`. */
    constructor (parseJson: string -> Option<Json>)
      ensures toggle == EmptyToggle && converter == None && targetingContent == None && segments == map[]
      ensures this.parseJson == parseJson
    {
      toggle := EmptyToggle;
      converter := None;
      targetingContent := None;
      segments := map[];
      this.parseJson := parseJson;
    }

    /** `builder()`: start over with a fresh toggle; the other fields are kept. */
    method Builder()
      modifies this
      ensures toggle == EmptyToggle
      ensures converter == old(converter) && targetingContent == old(targetingContent) && segments == old(segments)
    {
      toggle := EmptyToggle;
    }

    method Key(key: string)
      modifies this
      ensures toggle == old(toggle).(key := Some(key))
      ensures converter == old(converter) && targetingContent == old(targetingContent) && segments == old(segments)
    {
      toggle := toggle.(key := Some(key));
    }

    method Version(version: int)
      modifies this
      ensures toggle == old(toggle).(version := Some(version))
      ensures converter == old(converter) && targetingContent == old(targetingContent) && segments == old(segments)
    {
      toggle := toggle.(version := Some(version));
    }

    /** `disabled(d)` stores the negation as the toggle's enabled flag. */
    method Disabled(disabled: bool)
      modifies this
      ensures toggle == old(toggle).(enabled := Some(!disabled))
      ensures converter == old(converter) && targetingContent == old(targetingContent) && segments == old(segments)
    {
      toggle := toggle.(enabled := Some(!disabled));
    }

    method ForClient(forClient: bool)
      modifies this
      ensures toggle == old(toggle).(forClient := Some(forClient))
      ensures converter == old(converter) && targetingContent == old(targetingContent) && segments == old(segments)
    {
      toggle := toggle.(forClient := Some(forClient));
    }

    /** `rules(json)`, with the document already read. */
    method Rules(content: TargetingContent)
      modifies this
      ensures targetingContent == Some(content)
      ensures toggle == old(toggle) && converter == old(converter) && segments == old(segments)
    {
      targetingContent := Some(content);
    }

    method Segments(segments: map<string, Segment>)
      modifies this
      ensures this.segments == segments
      ensures toggle == old(toggle) && converter == old(converter) && targetingContent == old(targetingContent)
    {
      this.segments := segments;
    }

    /** `returnType(t)`: selects the converter, or throws and keeps the previous selection. */
    method ReturnType(returnType: string) returns (o: Outcome<BuildError>)
      modifies this
      ensures GetReturnTypeConverter(returnType).Success? ==>
                o == Pass && converter == Some(GetReturnTypeConverter(returnType).value)
      ensures GetReturnTypeConverter(returnType).Failure? ==>
                o == Fail(UnknownReturnType(returnType)) && converter == old(converter)
      ensures toggle == old(toggle) && targetingContent == old(targetingContent) && segments == old(segments)
    {
      var selected := GetReturnTypeConverter(returnType);
      if selected.Failure? {
        return Fail(selected.error);
      }
      converter := Some(selected.value);
      return Pass;
    }

    /** `build()`: the four steps in order; the first that throws ends the build, and the
        toggle keeps what the earlier steps wrote. */
    method Build() returns (r: Result<Toggle, BuildError>)
      modifies this
      ensures r == Compile(old(toggle), converter, targetingContent, segments, parseJson)
      ensures toggle == ToggleAfterBuild(old(toggle), converter, targetingContent, segments, parseJson)
      ensures converter == old(converter) && targetingContent == old(targetingContent) && segments == old(segments)
    {
      if targetingContent.None? {
        return Failure(TargetingContentNotSet);
      }
      var o := SetDisabledServe();
      if o.Fail? {
        return Failure(o.error);
      }
      o := SetDefaultServe();
      if o.Fail? {
        return Failure(o.error);
      }
      o := SetVariations();
      if o.Fail? {
        return Failure(o.error);
      }
      o := SetRules();
      if o.Fail? {
        return Failure(o.error);
      }
      return Success(toggle);
    }

    method SetDisabledServe() returns (o: Outcome<BuildError>)
      requires targetingContent.Some?
      modifies this
      ensures converter == old(converter) && targetingContent == old(targetingContent) && segments == old(segments)
      ensures o == OutcomeOf(DisabledServeStep(old(toggle), targetingContent.value))
      ensures toggle == Committed(old(toggle), DisabledServeStep(old(toggle), targetingContent.value))
    {
      var content := targetingContent.value;
      if content.disabledServe.None? {
        return Fail(MissingDisabledServe);
      }
      toggle := toggle.(disabledServe := content.disabledServe);
      return Pass;
    }

    /** The document's default serve; then, when the toggle still has none and is explicitly
        disabled, the disabled serve; then the check. */
    method SetDefaultServe() returns (o: Outcome<BuildError>)
      requires targetingContent.Some?
      modifies this
      ensures converter == old(converter) && targetingContent == old(targetingContent) && segments == old(segments)
      ensures o == OutcomeOf(DefaultServeStep(old(toggle), targetingContent.value))
      ensures toggle == Committed(old(toggle), DefaultServeStep(old(toggle), targetingContent.value))
    {
      var content := targetingContent.value;
      if content.defaultServe.Some? {
        toggle := toggle.(defaultServe := content.defaultServe);
      }
      if toggle.defaultServe.None? && toggle.enabled == Some(false) && content.disabledServe.Some? {
        toggle := toggle.(defaultServe := content.disabledServe);
      }
      if toggle.defaultServe.None? {
        return Fail(MissingDefaultServe);
      }
      return Pass;
    }

    method SetVariations() returns (o: Outcome<BuildError>)
      requires targetingContent.Some?
      modifies this
      ensures converter == old(converter) && targetingContent == old(targetingContent) && segments == old(segments)
      ensures o == OutcomeOf(VariationsStep(old(toggle), converter, targetingContent.value, parseJson))
      ensures toggle == Committed(old(toggle), VariationsStep(old(toggle), converter, targetingContent.value, parseJson))
    {
      if converter.None? {
        return Fail(MissingReturnTypeConverter);
      }
      var variations := ConvertVariations(converter.value, targetingContent.value.variations, parseJson);
      if variations.Failure? {
        return Fail(variations.error);
      }
      toggle := toggle.(variations := Some(variations.value));
      return Pass;
    }

    /** Every condition of every rule in turn: SEGMENT operands become unique keys, DATETIME
        operands epoch seconds. The rule list reaches the toggle only when all are rewritten. */
    method SetRules() returns (o: Outcome<BuildError>)
      requires targetingContent.Some?
      modifies this
      ensures converter == old(converter) && targetingContent == old(targetingContent) && segments == old(segments)
      ensures o == OutcomeOf(RulesStep(old(toggle), targetingContent.value, segments))
      ensures toggle == Committed(old(toggle), RulesStep(old(toggle), targetingContent.value, segments))
    {
      var content := targetingContent.value;
      if content.rules.None? || content.rules.value == [] {
        toggle := toggle.(rules := Some([]));
        return Pass;
      }
      var rules := RewriteRules(segments, TranslateUnix, content.rules.value);
      if rules.Failure? {
        return Fail(rules.error);
      }
      toggle := toggle.(rules := Some(rules.value));
      return Pass;
    }
  }

  /** The outer loop of `setRules`: each rule's conditions rewritten in turn; the first rule
      that throws ends the loop. */
  method RewriteRules(segments: map<string, Segment>, translate: Translator, source: seq<Rule>)
    returns (r: Result<seq<Rule>, BuildError>)
    ensures r == CompileRules(segments, translate, source)
  {
    var rules: seq<Rule> := [];
    var i := 0;
    while i < |source|
      invariant 0 <= i <= |source|
      invariant CompileRules(segments, translate, source[..i]) == Success(rules)
    {
      var rule := RewriteConditions(segments, translate, source[i]);
      CompileRulesStep(segments, translate, source, i, rules);
      if rule.Failure? {
        return Failure(rule.error);
      }
      rules := rules + [rule.value];
      i := i + 1;
    }
    assert source[..i] == source;
    return Success(rules);
  }

  /** The inner loop of `setRules` over one rule's conditions, against the segment snapshot. */
  method RewriteConditions(segments: map<string, Segment>, translate: Translator, rule: Rule)
    returns (r: Result<Rule, BuildError>)
    ensures r == CompileRule(segments, translate, rule)
  {
    var conditions: seq<Condition> := [];
    var j := 0;
    while j < |rule.conditions|
      invariant 0 <= j <= |rule.conditions|
      invariant CompileConditions(segments, translate, rule.conditions[..j]) == Success(conditions)
    {
      var condition := RewriteCondition(segments, translate, rule.conditions[j]);
      CompileConditionsStep(segments, translate, rule.conditions, j, conditions);
      if condition.Failure? {
        return Failure(condition.error);
      }
      conditions := conditions + [condition.value];
      j := j + 1;
    }
    assert rule.conditions[..j] == rule.conditions;
    return Success(rule.(conditions := conditions));
  }

  /** The body of the inner loop: a SEGMENT condition's keys are looked up, a DATETIME
      condition's operands translated, any other condition kept. */
  method RewriteCondition(segments: map<string, Segment>, translate: Translator, condition: Condition)
    returns (r: Result<Condition, BuildError>)
    ensures r == CompileCondition(segments, translate, condition)
  {
    if condition.kind == SegmentType {
      var objects := ReplaceSegmentKeys(segments, condition.objects);
      if objects.Failure? {
        return Failure(objects.error);
      }
      return Success(condition.(objects := objects.value));
    } else if condition.kind == DatetimeType {
      var objects := TranslateDatetimes(translate, condition.objects);
      if objects.Failure? {
        return Failure(objects.error);
      }
      return Success(condition.(objects := objects.value));
    }
    return Success(condition);
  }

  /** A disabled boolean toggle whose document has no default serve: it builds, serves its
      disabled serve by default, and converts "true"/"false" to booleans in order. */
  method DisabledToggleScenario(parseJson: string -> Option<Json>) returns (r: Result<Toggle, BuildError>)
    ensures r.Success?
    ensures r.value.key == Some("banner") && r.value.enabled == Some(false)
    ensures r.value.disabledServe == Some(Select(1)) && r.value.defaultServe == Some(Select(1))
    ensures r.value.variations == Some([BoolValue(true), BoolValue(false)])
    ensures r.value.rules == Some([])
  {
    var content := TargetingContent(Some(Select(1)), None, [Variation("true", "on"), Variation("false", "off")], None);
    var b := new ServerToggleBuilder(parseJson);
    b.Key("banner");
    b.Disabled(true);
    var selected := b.ReturnType("Boolean");
    ReturnTypeExamples();
    b.Rules(content);
    r := b.Build();
    BooleanRoundTrip(true, parseJson);
    BooleanRoundTrip(false, parseJson);
    CompileSuccessShape(EmptyToggle.(key := Some("banner"), enabled := Some(false)), Some(BooleanConverter),
                        Some(content), map[], parseJson);
    assert r.value.variations.value == [BoolValue(true), BoolValue(false)];
  }

  /** The same document on an enabled toggle: no default serve can be found, so the build throws
      "default serve is null" and returns no toggle. */
  method EnabledToggleScenario(parseJson: string -> Option<Json>) returns (r: Result<Toggle, BuildError>)
    ensures r == Failure(MissingDefaultServe)
    ensures Message(r.error) == Some("default serve is null")
  {
    var content := TargetingContent(Some(Select(1)), None, [Variation("true", "on"), Variation("false", "off")], None);
    var b := new ServerToggleBuilder(parseJson);
    b.Key("banner");
    b.Disabled(false);
    var selected := b.ReturnType("boolean");
    b.Rules(content);
    r := b.Build();
    EnabledWithoutDefaultFails(EmptyToggle.(key := Some("banner"), enabled := Some(true)), b.converter,
                               Some(content), map[], parseJson);
  }
}
