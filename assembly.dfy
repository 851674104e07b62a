/** What `build()` does to the toggle, as functions of the builder's state: four steps in a
    fixed order, each of which either throws or writes its fields. */
module ToggleAssembly {
  import opened Wrappers
  import opened ToggleModel
  import opened Converters
  import opened Datetime
  import opened RuleCompiler

  /** `setDisabledServe`: the document must have a disabled serve, which is copied. */
  function DisabledServeStep(t: Toggle, content: TargetingContent): (r: Result<Toggle, BuildError>)
    ensures r.Success? <==> content.disabledServe.Some?
    ensures r.Success? ==> r.value == t.(disabledServe := content.disabledServe)
    ensures r.Failure? ==> r.error == MissingDisabledServe
  {
    if content.disabledServe.None? then Failure(MissingDisabledServe)
    else Success(t.(disabledServe := content.disabledServe))
  }

  /** `setDefaultServe`: the document's default serve if it has one; else the toggle's current
      default serve; else, for a toggle explicitly disabled, the disabled serve. */
  function DefaultServeStep(t: Toggle, content: TargetingContent): (r: Result<Toggle, BuildError>)
    ensures r.Failure? ==> r.error == MissingDefaultServe
    ensures r.Success? ==> r.value.defaultServe.Some? && r.value == t.(defaultServe := r.value.defaultServe)
  {
    var explicit := if content.defaultServe.Some? then t.(defaultServe := content.defaultServe) else t;
    var fallback :=
      if explicit.defaultServe.None? && explicit.enabled == Some(false) && content.disabledServe.Some?
      then explicit.(defaultServe := content.disabledServe)
      else explicit;
    if fallback.defaultServe.None? then Failure(MissingDefaultServe) else Success(fallback)
  }

  /** `setVariations`: a converter must have been selected; the variation literals are then
      converted in order. */
  function VariationsStep(t: Toggle, converter: Option<Converter>, content: TargetingContent,
                          parseJson: string -> Option<Json>): (r: Result<Toggle, BuildError>)
    ensures converter.None? ==> r == Failure(MissingReturnTypeConverter)
    ensures r.Success? ==>
              r.value == t.(variations := r.value.variations) && r.value.variations.Some? &&
              |r.value.variations.value| == |content.variations|
  {
    if converter.None? then Failure(MissingReturnTypeConverter)
    else
      var variations :- ConvertVariations(converter.value, content.variations, parseJson);
      Success(t.(variations := Some(variations)))
  }

  /** `setRules`: an absent or empty rule list becomes the empty list; otherwise the compiled rules,
      DATETIME operands read by `translateUnix`. */
  function RulesStep(t: Toggle, content: TargetingContent, segments: map<string, Segment>): (r: Result<Toggle, BuildError>)
    ensures r.Success? ==>
              r.value == t.(rules := r.value.rules) && r.value.rules.Some? &&
              |r.value.rules.value| == |SourceRules(content)|
  {
    if content.rules.None? || content.rules.value == [] then Success(t.(rules := Some([])))
    else
      var rules :- CompileRules(segments, TranslateUnix, content.rules.value);
      Success(t.(rules := Some(rules)))
  }

  /** The document's rule list with null read as empty. */
  function SourceRules(content: TargetingContent): seq<Rule>
  {
    if content.rules.None? then [] else content.rules.value
  }

  /** `build()` from the toggle `t` the builder holds: the steps in order, the first failure
      is the build's failure. A missing document fails before any step writes. */
  function Compile(t: Toggle, converter: Option<Converter>, content: Option<TargetingContent>,
                   segments: map<string, Segment>, parseJson: string -> Option<Json>): (r: Result<Toggle, BuildError>)
    ensures content.None? ==> r == Failure(TargetingContentNotSet)
    ensures r.Success? ==>
              r.value.key == t.key && r.value.version == t.version &&
              r.value.enabled == t.enabled && r.value.forClient == t.forClient &&
              r.value.disabledServe.Some? && r.value.defaultServe.Some? &&
              r.value.variations.Some? && r.value.rules.Some?
  {
    if content.None? then Failure(TargetingContentNotSet)
    else
      var t1 :- DisabledServeStep(t, content.value);
      var t2 :- DefaultServeStep(t1, content.value);
      var t3 :- VariationsStep(t2, converter, content.value, parseJson);
      RulesStep(t3, content.value, segments)
  }

  /** The toggle after a step: what the step wrote, or the toggle unchanged when it threw. */
  function Committed(t: Toggle, r: Result<Toggle, BuildError>): (c: Toggle)
    ensures r.Failure? ==> c == t
    ensures r.Success? ==> c == r.value
  {
    if r.Success? then r.value else t
  }

  /** The toggle object the builder holds after `build()`: every step is all-or-nothing, so a
      failed build leaves what the steps before the failing one wrote. */
  function ToggleAfterBuild(t: Toggle, converter: Option<Converter>, content: Option<TargetingContent>,
                            segments: map<string, Segment>, parseJson: string -> Option<Json>): (a: Toggle)
    ensures a.key == t.key && a.version == t.version && a.enabled == t.enabled && a.forClient == t.forClient
  {
    if content.None? then t
    else
      var r1 := DisabledServeStep(t, content.value);
      if r1.Failure? then t
      else
        var r2 := DefaultServeStep(r1.value, content.value);
        if r2.Failure? then r1.value
        else
          var r3 := VariationsStep(r2.value, converter, content.value, parseJson);
          if r3.Failure? then r2.value
          else Committed(r3.value, RulesStep(r3.value, content.value, segments))
  }

  // Default serve.

  /** A default serve can be found exactly when the document has one, the toggle already has
      one, or the toggle is explicitly disabled and has a disabled serve. */
  ghost predicate DefaultServeAvailable(t: Toggle, content: TargetingContent)
  {
    content.defaultServe.Some? || t.defaultServe.Some? || (t.enabled == Some(false) && content.disabledServe.Some?)
  }

  lemma DefaultServeStepCorrect(t: Toggle, content: TargetingContent)
    ensures DefaultServeStep(t, content).Success? <==> DefaultServeAvailable(t, content)
    ensures DefaultServeStep(t, content).Failure? ==>
              DefaultServeStep(t, content).error == MissingDefaultServe
    ensures DefaultServeStep(t, content).Success? ==>
              DefaultServeStep(t, content).value.defaultServe.Some? &&
              DefaultServeStep(t, content).value == t.(defaultServe := DefaultServeStep(t, content).value.defaultServe)
    ensures content.defaultServe.Some? ==> DefaultServeStep(t, content) == Success(t.(defaultServe := content.defaultServe))
    ensures content.defaultServe.None? && t.defaultServe.Some? ==> DefaultServeStep(t, content) == Success(t)
    ensures content.defaultServe.None? && t.defaultServe.None? && t.enabled == Some(false) && content.disabledServe.Some? ==>
              DefaultServeStep(t, content) == Success(t.(defaultServe := content.disabledServe))
  {
  }

  // Rules.

  lemma RulesStepCorrect(t: Toggle, content: TargetingContent, segments: map<string, Segment>, out: seq<Rule>)
    ensures RulesStep(t, content, segments) == Success(t.(rules := Some(out))) <==>
            RulesCompiledFrom(segments, TranslateUnix, SourceRules(content), out)
    ensures RulesStep(t, content, segments).Success? ==>
              RulesStep(t, content, segments).value.rules.Some? &&
              RulesStep(t, content, segments).value == t.(rules := RulesStep(t, content, segments).value.rules)
  {
    CompileRulesCorrect(segments, TranslateUnix, SourceRules(content), out);
    if content.rules.None? || content.rules.value == [] {
      assert RulesCompiledFrom(segments, TranslateUnix, SourceRules(content), out) <==> out == [];
    }
  }

  /** A null or empty rule list gives an empty rule list, never null and never a failure. */
  lemma EmptyRules(t: Toggle, content: TargetingContent, segments: map<string, Segment>)
    requires content.rules == None || content.rules == Some([])
    ensures RulesStep(t, content, segments) == Success(t.(rules := Some([])))
  {
  }

  // The whole build.

  /** Every variation literal converts under the selected converter. */
  ghost predicate VariationsConvert(c: Converter, content: TargetingContent, parseJson: string -> Option<Json>)
  {
    forall i :: 0 <= i < |content.variations| ==> Convert(c, content.variations[i].value, parseJson).Success?
  }

  /** Every operand of every rule of the document can be rewritten. */
  ghost predicate RulesResolvable(segments: map<string, Segment>, content: TargetingContent)
  {
    forall i :: 0 <= i < |SourceRules(content)| ==> RuleResolvable(segments, TranslateUnix, SourceRules(content)[i])
  }

  lemma VariationsStepSucceeds(t: Toggle, converter: Option<Converter>, content: TargetingContent,
                               parseJson: string -> Option<Json>)
    ensures VariationsStep(t, converter, content, parseJson).Success? <==>
            converter.Some? && VariationsConvert(converter.value, content, parseJson)
  {
  }

  lemma RulesStepSucceeds(t: Toggle, content: TargetingContent, segments: map<string, Segment>)
    ensures RulesStep(t, content, segments).Success? <==> RulesResolvable(segments, content)
  {
    CompileRulesFailsExactly(segments, TranslateUnix, SourceRules(content));
  }

  /** The build succeeds exactly when every step's condition holds: a document is set, it has a
      disabled serve, a default serve is available, a return type was selected, every variation
      literal converts and every rule operand can be rewritten. */
  lemma CompileSucceedsExactly(t: Toggle, converter: Option<Converter>, content: Option<TargetingContent>,
                               segments: map<string, Segment>, parseJson: string -> Option<Json>)
    ensures Compile(t, converter, content, segments, parseJson).Success? <==>
            (content.Some? && content.value.disabledServe.Some? && DefaultServeAvailable(t, content.value) &&
             converter.Some? && VariationsConvert(converter.value, content.value, parseJson) &&
             RulesResolvable(segments, content.value))
  {
    if content.Some? && content.value.disabledServe.Some? {
      var c := content.value;
      var t1 := t.(disabledServe := c.disabledServe);
      DefaultServeStepCorrect(t1, c);
      assert DefaultServeAvailable(t1, c) <==> DefaultServeAvailable(t, c);
      if DefaultServeAvailable(t, c) {
        var t2 := DefaultServeStep(t1, c).value;
        VariationsStepSucceeds(t2, converter, c, parseJson);
        if converter.Some? && VariationsConvert(converter.value, c, parseJson) {
          RulesStepSucceeds(VariationsStep(t2, converter, c, parseJson).value, c, segments);
        }
      }
    }
  }

  /** What a successful build produces: the identity fields the setters wrote, the document's
      disabled serve, a default serve (the document's when it has one), the converted
      variations in order, and the rule list rewritten as the reference says. */
  lemma CompileSuccessShape(t: Toggle, converter: Option<Converter>, content: Option<TargetingContent>,
                            segments: map<string, Segment>, parseJson: string -> Option<Json>)
    requires Compile(t, converter, content, segments, parseJson).Success?
    ensures var r := Compile(t, converter, content, segments, parseJson).value;
            && content.Some? && converter.Some?
            && r.key == t.key && r.version == t.version && r.enabled == t.enabled && r.forClient == t.forClient
            && r.disabledServe == content.value.disabledServe && r.disabledServe.Some?
            && r.defaultServe.Some?
            && (content.value.defaultServe.Some? ==> r.defaultServe == content.value.defaultServe)
            && r.variations.Some? && |r.variations.value| == |content.value.variations|
            && (forall i :: 0 <= i < |content.value.variations| ==>
                  Convert(converter.value, content.value.variations[i].value, parseJson) == Success(r.variations.value[i]))
            && r.rules.Some? && RulesCompiledFrom(segments, TranslateUnix, SourceRules(content.value), r.rules.value)
  {
    var c := content.value;
    var t1 := DisabledServeStep(t, c).value;
    var t2 := DefaultServeStep(t1, c).value;
    DefaultServeStepCorrect(t1, c);
    var t3 := VariationsStep(t2, converter, c, parseJson).value;
    var t4 := RulesStep(t3, c, segments).value;
    RulesStepCorrect(t3, c, segments, t4.rules.value);
  }

  /** The steps run in order and the first one that fails decides the error. */
  lemma CompileErrorPrecedence(t: Toggle, converter: Option<Converter>, content: Option<TargetingContent>,
                               segments: map<string, Segment>, parseJson: string -> Option<Json>)
    ensures content.None? ==> Compile(t, converter, content, segments, parseJson) == Failure(TargetingContentNotSet)
    ensures content.Some? && content.value.disabledServe.None? ==>
              Compile(t, converter, content, segments, parseJson) == Failure(MissingDisabledServe)
    ensures content.Some? && content.value.disabledServe.Some? && !DefaultServeAvailable(t, content.value) ==>
              Compile(t, converter, content, segments, parseJson) == Failure(MissingDefaultServe)
    ensures content.Some? && content.value.disabledServe.Some? && DefaultServeAvailable(t, content.value) &&
            converter.None? ==>
              Compile(t, converter, content, segments, parseJson) == Failure(MissingReturnTypeConverter)
    ensures content.Some? && content.value.disabledServe.Some? && DefaultServeAvailable(t, content.value) &&
            converter.Some? && ConvertVariations(converter.value, content.value.variations, parseJson).Failure? ==>
              Compile(t, converter, content, segments, parseJson) ==
              Failure(ConvertVariations(converter.value, content.value.variations, parseJson).error)
    ensures content.Some? && content.value.disabledServe.Some? && DefaultServeAvailable(t, content.value) &&
            converter.Some? && ConvertVariations(converter.value, content.value.variations, parseJson).Success? &&
            CompileRules(segments, TranslateUnix, SourceRules(content.value)).Failure? ==>
              Compile(t, converter, content, segments, parseJson) ==
              Failure(CompileRules(segments, TranslateUnix, SourceRules(content.value)).error)
  {
    if content.Some? && content.value.disabledServe.Some? {
      var t1 := t.(disabledServe := content.value.disabledServe);
      DefaultServeStepCorrect(t1, content.value);
      assert DefaultServeAvailable(t1, content.value) <==> DefaultServeAvailable(t, content.value);
    }
  }

  /** An enabled toggle (or one whose state was never set) without any default serve never
      builds, whatever else the document holds: the fallback needs an explicit `disabled(true)`. */
  lemma EnabledWithoutDefaultFails(t: Toggle, converter: Option<Converter>, content: Option<TargetingContent>,
                                   segments: map<string, Segment>, parseJson: string -> Option<Json>)
    requires t.enabled != Some(false) && t.defaultServe.None?
    requires content.Some? && content.value.defaultServe.None?
    ensures Compile(t, converter, content, segments, parseJson).Failure?
    ensures content.value.disabledServe.Some? ==>
              Compile(t, converter, content, segments, parseJson) == Failure(MissingDefaultServe)
  {
    CompileErrorPrecedence(t, converter, content, segments, parseJson);
  }

  /** A disabled toggle whose document has no default serve serves its disabled serve by default. */
  lemma DisabledFallsBackToDisabledServe(t: Toggle, converter: Option<Converter>, content: Option<TargetingContent>,
                                         segments: map<string, Segment>, parseJson: string -> Option<Json>)
    requires t.enabled == Some(false) && t.defaultServe.None?
    requires content.Some? && content.value.defaultServe.None?
    requires Compile(t, converter, content, segments, parseJson).Success?
    ensures Compile(t, converter, content, segments, parseJson).value.defaultServe == content.value.disabledServe
  {
    var c := content.value;
    var t1 := DisabledServeStep(t, c).value;
    DefaultServeStepCorrect(t1, c);
  }

  /** After a successful build the builder holds the built toggle; after a failed one it holds a
      toggle whose rules were not touched, whose identity fields are unchanged, and which
      differs from `t` only in what the steps before the failure wrote. */
  lemma ToggleAfterBuildCorrect(t: Toggle, converter: Option<Converter>, content: Option<TargetingContent>,
                                segments: map<string, Segment>, parseJson: string -> Option<Json>)
    ensures Compile(t, converter, content, segments, parseJson).Success? ==>
              ToggleAfterBuild(t, converter, content, segments, parseJson) ==
              Compile(t, converter, content, segments, parseJson).value
    ensures Compile(t, converter, content, segments, parseJson).Failure? ==>
              var a := ToggleAfterBuild(t, converter, content, segments, parseJson);
              a.rules == t.rules && a.key == t.key && a.version == t.version &&
              a.enabled == t.enabled && a.forClient == t.forClient
    ensures content.None? || content.value.disabledServe.None? ==>
              ToggleAfterBuild(t, converter, content, segments, parseJson) == t
  {
    if content.Some? && content.value.disabledServe.Some? {
      var c := content.value;
      var t1 := DisabledServeStep(t, c).value;
      DefaultServeStepCorrect(t1, c);
    }
  }
}
