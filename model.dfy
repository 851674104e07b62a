/** The values the toggle compiler reads and writes: the stored targeting document, the
    segment snapshot, the runtime `Toggle` of the server SDK, and the ways a build can fail. */
module ToggleModel {
  import opened Wrappers
  import opened Decimals

  /** What a rule or a disabled toggle serves: one variation by index, or a weighted split.
      The compiler never looks inside a serve; it only copies it. */
  datatype Serve = Select(index: int) | Split(weights: seq<int>)

  /** The operand kinds the compiler tells apart; every other kind (string, number, semver,
      or none at all) is carried under its own name and left untouched. */
  datatype ConditionType = SegmentType | DatetimeType | OtherType(name: string)

  /** One rule condition: a subject, a predicate and the operand list `objects`. */
  datatype Condition = Condition(kind: ConditionType, subject: string, predicateName: string, objects: seq<string>)

  datatype Rule = Rule(conditions: seq<Condition>, serve: Serve)

  /** A variation of the document: its literal value is converted by the return type. */
  datatype Variation = Variation(value: string, name: string)

  /** The targeting document as stored by the console; absent serves and an absent rule list
      are the document's nulls. */
  datatype TargetingContent = TargetingContent(
    disabledServe: Option<Serve>,
    defaultServe: Option<Serve>,
    variations: seq<Variation>,
    rules: Option<seq<Rule>>)

  /** A stored segment: the compiler only uses its unique key. */
  datatype Segment = Segment(key: string, uniqueKey: string)

  /** A JSON value, as the `json` return type produces it. */
  datatype Json =
    | JNull
    | JBool(b: bool)
    | JNumber(n: Decimal)
    | JString(s: string)
    | JArray(items: seq<Json>)
    | JObject(members: seq<(string, Json)>)

  /** A converted variation value. */
  datatype Value =
    | StringValue(s: string)
    | BoolValue(b: bool)
    | JsonValue(j: Json)
    | NumberValue(d: Decimal)

  /** The runtime toggle; every field is a nullable Java object, so every field is optional. */
  datatype Toggle = Toggle(
    key: Option<string>,
    version: Option<int>,
    enabled: Option<bool>,
    forClient: Option<bool>,
    disabledServe: Option<Serve>,
    defaultServe: Option<Serve>,
    variations: Option<seq<Value>>,
    rules: Option<seq<Rule>>)

  /** `new Toggle()`: every field null. */
  const EmptyToggle: Toggle := Toggle(None, None, None, None, None, None, None, None)

  /** Why a build (or a return-type selection) throws. */
  datatype BuildError =
    | UnknownReturnType(returnType: string)
    | MissingDisabledServe
    | MissingDefaultServe
    | MissingReturnTypeConverter
    | TargetingContentNotSet
    | MalformedNumber(numberLiteral: string)
    | MalformedJson(jsonLiteral: string)
    | MalformedDatetime(datetime: string)
    | UnresolvedSegment(segmentKey: string)

  /** The message of the `ServerToggleBuildException` the builder throws itself; the other
      errors are library exceptions (a parse failure or a null dereference). */
  function Message(e: BuildError): (r: Option<string>)
    ensures r.Some? <==>
              e.UnknownReturnType? || e.MissingDisabledServe? || e.MissingDefaultServe? || e.MissingReturnTypeConverter?
    ensures e.UnknownReturnType? ==>
              r.Some? && |r.value| > |e.returnType| && r.value[|r.value| - |e.returnType|..] == e.returnType
  {
    match e
    case UnknownReturnType(t) => Some("return type is unknown:" + t)
    case MissingDisabledServe => Some("disabled serve is null")
    case MissingDefaultServe => Some("default serve is null")
    case MissingReturnTypeConverter => Some("return type not set")
    case _ => None
  }

  /** The builder's own messages tell its errors apart: equal messages come from equal errors. */
  lemma MessagesDistinguish(e1: BuildError, e2: BuildError)
    requires Message(e1).Some? && Message(e1) == Message(e2)
    ensures e1 == e2
  {
    var prefix := "return type is unknown:";
    if e1.UnknownReturnType? && e2.UnknownReturnType? {
      assert e1.returnType == Message(e1).value[|prefix|..];
      assert e2.returnType == Message(e2).value[|prefix|..];
    }
  }
}
