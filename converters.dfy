/** The closed table of return-type converters and the conversion of a document's variation
    literals into runtime values. */
module Converters {
  import opened Wrappers
  import opened Text
  import opened Decimals
  import opened ToggleModel

  datatype Converter = StringConverter | BooleanConverter | JsonConverter | NumberConverter

  /** The table filled once at class load, from lower-case identifier to converter. */
  const ConverterTable: map<string, Converter> :=
    map["string" := StringConverter, "boolean" := BooleanConverter,
        "json" := JsonConverter, "number" := NumberConverter]

  /** The identifier a converter is registered under. */
  function Name(c: Converter): (r: string)
    ensures r in ConverterTable && ConverterTable[r] == c
  {
    match c
    case StringConverter => "string"
    case BooleanConverter => "boolean"
    case JsonConverter => "json"
    case NumberConverter => "number"
  }

  /** Lower-case the identifier, then look it up; an unknown identifier is reported as given. */
  function GetReturnTypeConverter(returnType: string): (r: Result<Converter, BuildError>)
    ensures r.Success? <==> ToLower(returnType) in {"string", "boolean", "json", "number"}
    ensures r.Success? ==> Name(r.value) == ToLower(returnType)
    ensures r.Failure? ==> r.error == UnknownReturnType(returnType)
  {
    var lowered := ToLower(returnType);
    if lowered in ConverterTable then Success(ConverterTable[lowered])
    else Failure(UnknownReturnType(returnType))
  }

  /** `Boolean.valueOf(String)`: true exactly for "true" in any case, letter by letter. */
  predicate BooleanValueOf(literal: string): (b: bool)
    ensures b ==> |literal| == 4
    ensures b <==>
              |literal| == 4 && (literal[0] == 't' || literal[0] == 'T') && (literal[1] == 'r' || literal[1] == 'R') &&
              (literal[2] == 'u' || literal[2] == 'U') && (literal[3] == 'e' || literal[3] == 'E')
  {
    EqualsIgnoreCase(literal, "true")
  }

  /** One variation literal through the selected converter. JSON text is read by `parseJson`,
      which stands for the JSON library; None is a parse failure. */
  function Convert(c: Converter, literal: string, parseJson: string -> Option<Json>): (r: Result<Value, BuildError>)
    ensures c == StringConverter || c == BooleanConverter ==> r.Success?
    ensures r.Failure? ==> r.error == (if c == JsonConverter then MalformedJson(literal) else MalformedNumber(literal))
  {
    match c
    case StringConverter => Success(StringValue(literal))
    case BooleanConverter => Success(BoolValue(BooleanValueOf(literal)))
    case JsonConverter =>
      (match parseJson(literal)
       case Some(j) => if j.JObject? || j.JNull? then Success(JsonValue(j)) else Failure(MalformedJson(literal))
       case None => Failure(MalformedJson(literal)))
    case NumberConverter =>
      (match ParseDecimal(literal)
       case None => Failure(MalformedNumber(literal))
       case Some(d) => Success(NumberValue(d)))
  }

  /** Each variation literal through the converter, one result per variation. */
  function Converted(c: Converter, variations: seq<Variation>, parseJson: string -> Option<Json>)
    : (r: seq<Result<Value, BuildError>>)
    ensures |r| == |variations|
    ensures forall i :: 0 <= i < |variations| ==> r[i] == Convert(c, variations[i].value, parseJson)
  {
    seq(|variations|, i requires 0 <= i < |variations| => Convert(c, variations[i].value, parseJson))
  }

  /** The document's variations converted in order, as a sequential stream does. */
  function ConvertVariations(c: Converter, variations: seq<Variation>, parseJson: string -> Option<Json>)
    : (r: Result<seq<Value>, BuildError>)
    ensures r.Success? <==> forall i :: 0 <= i < |variations| ==> Convert(c, variations[i].value, parseJson).Success?
    ensures r.Success? ==>
              |r.value| == |variations| &&
              forall i :: 0 <= i < |variations| ==> Convert(c, variations[i].value, parseJson) == Success(r.value[i])
  {
    Sequence(Converted(c, variations, parseJson))
  }

  /** The first literal that does not convert decides the failure. */
  lemma ConvertVariationsFirstFailure(c: Converter, variations: seq<Variation>, parseJson: string -> Option<Json>,
                                      i: nat, e: BuildError)
    requires i < |variations| && Convert(c, variations[i].value, parseJson) == Failure(e)
    requires forall j :: 0 <= j < i ==> Convert(c, variations[j].value, parseJson).Success?
    ensures ConvertVariations(c, variations, parseJson) == Failure(e)
  {
    SequenceFirstFailure(Converted(c, variations, parseJson), i);
  }

  /** The table holds exactly the four lower-case identifiers, each under the name of its converter. */
  lemma ConverterTableKeys()
    ensures ConverterTable.Keys == {"string", "boolean", "json", "number"}
    ensures forall k :: k in ConverterTable ==> Name(ConverterTable[k]) == k && ToLower(k) == k
  {
    forall k | k in ConverterTable
      ensures ToLower(k) == k
    {
      assert forall i :: 0 <= i < |k| ==> !('A' <= k[i] <= 'Z');
    }
  }

  /** Every registered identifier selects its own converter: the table and `Name` are inverse. */
  lemma ReturnTypeRoundTrip(c: Converter)
    ensures GetReturnTypeConverter(Name(c)) == Success(c)
  {
    var n := Name(c);
    assert ToLower(n) == n by {
      assert forall i :: 0 <= i < |n| ==> !('A' <= n[i] <= 'Z');
    }
  }

  /** Lookup ignores case: identifiers equal up to case select the same converter or both fail. */
  lemma ReturnTypeIgnoresCase(a: string, b: string)
    requires EqualsIgnoreCase(a, b)
    ensures GetReturnTypeConverter(a).Success? <==> GetReturnTypeConverter(b).Success?
    ensures GetReturnTypeConverter(a).Success? ==> GetReturnTypeConverter(a).value == GetReturnTypeConverter(b).value
  {
  }

  lemma ReturnTypeExamples()
    ensures GetReturnTypeConverter("Boolean") == Success(BooleanConverter)
    ensures GetReturnTypeConverter("NUMBER") == Success(NumberConverter)
    ensures GetReturnTypeConverter("currency") == Failure(UnknownReturnType("currency"))
    ensures GetReturnTypeConverter("") == Failure(UnknownReturnType(""))
  {
    assert ToLower("Boolean") == "boolean";
    assert ToLower("NUMBER") == "number";
    assert ToLower("currency") == "currency";
  }

  /** The boolean converter never fails and yields true exactly for "true" ignoring case:
      "TRUE" and "True" are true; "yes", "1" and "" are false. */
  lemma BooleanConverterExamples(parseJson: string -> Option<Json>)
    ensures Convert(BooleanConverter, "TRUE", parseJson) == Success(BoolValue(true))
    ensures Convert(BooleanConverter, "True", parseJson) == Success(BoolValue(true))
    ensures Convert(BooleanConverter, "yes", parseJson) == Success(BoolValue(false))
    ensures Convert(BooleanConverter, "1", parseJson) == Success(BoolValue(false))
    ensures Convert(BooleanConverter, "", parseJson) == Success(BoolValue(false))
  {
    assert ToLower("TRUE") == "true";
    assert ToLower("True") == "true";
    assert ToLower("true") == "true";
    assert ToLower("yes") != "true" by { assert |ToLower("yes")| == 3; }
    assert ToLower("1") != "true" by { assert |ToLower("1")| == 1; }
  }

  /** The boolean converter never fails, and yields true exactly when the literal is "true" ignoring case. */
  lemma BooleanConverterTotal(literal: string, parseJson: string -> Option<Json>)
    ensures Convert(BooleanConverter, literal, parseJson) == Success(BoolValue(ToLower(literal) == "true"))
  {
    assert ToLower("true") == "true";
  }

  /** The boolean converter inverts rendering: "true" and "false" read back as the booleans. */
  lemma BooleanRoundTrip(b: bool, parseJson: string -> Option<Json>)
    ensures Convert(BooleanConverter, if b then "true" else "false", parseJson) == Success(BoolValue(b))
  {
    assert ToLower("true") == "true";
    assert ToLower("false") != "true" by { assert |ToLower("false")| == 5; }
  }

  /** The `json` converter reads the literal into a `Map`: only a JSON object, or `null`, is a
      value of that type. A text the library rejects, or one that holds an array, a string, a
      number or a boolean, fails and names the literal. */
  lemma JsonConverterReadsLibrary(literal: string, parseJson: string -> Option<Json>)
    ensures Convert(JsonConverter, literal, parseJson).Success? ==>
              Convert(JsonConverter, literal, parseJson).value.JsonValue? &&
              (Convert(JsonConverter, literal, parseJson).value.j.JObject? ||
               Convert(JsonConverter, literal, parseJson).value.j.JNull?)
    ensures Convert(JsonConverter, literal, parseJson).Success? <==>
              parseJson(literal).Some? && (parseJson(literal).value.JObject? || parseJson(literal).value.JNull?)
    ensures Convert(JsonConverter, literal, parseJson).Success? ==>
              Convert(JsonConverter, literal, parseJson) == Success(JsonValue(parseJson(literal).value))
    ensures Convert(JsonConverter, literal, parseJson).Failure? ==>
              Convert(JsonConverter, literal, parseJson) == Failure(MalformedJson(literal))
  {
  }

  /** An array literal is not a `Map`, even when the library reads it. */
  lemma JsonConverterRejectsArray(parseJson: string -> Option<Json>)
    requires parseJson("[1]") == Some(JArray([JNumber(Decimal(1, 0))]))
    ensures Convert(JsonConverter, "[1]", parseJson) == Failure(MalformedJson("[1]"))
  {
  }

  /** A number literal is kept as an exact decimal: "3.14" is 314 × 10^-2, and every scientific
      rendering of a decimal converts back to that decimal. */
  lemma NumberConverterExact(d: Decimal, parseJson: string -> Option<Json>)
    requires IntMin < d.scale <= IntMax
    ensures Convert(NumberConverter, "3.14", parseJson) == Success(NumberValue(Decimal(314, 2)))
    ensures Convert(NumberConverter, Scientific(d), parseJson) == Success(NumberValue(d))
  {
    ParseExactDecimal();
    ScientificRoundTrip(d);
  }

  lemma NumberConverterRejects(parseJson: string -> Option<Json>)
    ensures Convert(NumberConverter, "abc", parseJson) == Failure(MalformedNumber("abc"))
    ensures Convert(NumberConverter, "", parseJson) == Failure(MalformedNumber(""))
  {
    RejectMalformedDecimal();
  }

  /** Converting with the string converter returns the literals themselves, in order. */
  lemma StringVariationsIdentity(variations: seq<Variation>, parseJson: string -> Option<Json>)
    ensures ConvertVariations(StringConverter, variations, parseJson).Success?
    ensures forall i :: 0 <= i < |variations| ==>
              ConvertVariations(StringConverter, variations, parseJson).value[i] == StringValue(variations[i].value)
  {
  }
}
