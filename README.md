# FeatureProbe toggle compiler, modelled in Dafny

`ServerToggleBuilder` turns a feature flag as the console stores it into the `Toggle` that the
server SDK evaluates. The flag as stored has these parts:

- a key, a version, an enabled flag and a client flag;
- a return type;
- a targeting document made of a disabled serve, a default serve, variation literals and rules;
- a snapshot of segments.

The builder is fluent: setters fill its fields, and `build()` then runs four steps on the toggle
it holds, in a fixed order:
1. copy the disabled serve, which is required;
2. choose the default serve, falling back to the disabled serve for a disabled toggle;
3. convert the variation literals with the converter the return type selected;
4. rewrite the rule conditions. Each SEGMENT operand becomes the unique key of that segment. Each
   DATETIME operand `yyyy/MM/dd HH:mm:ss<offset>` becomes its epoch second as a decimal string.

The project has these modules:

- `Wrappers` holds `Option`, `Result` and `Outcome`. It also holds `Sequence`, the in-order
  collection of a stream whose elements can fail: the first failure wins.
- `Text` covers digits, `String.valueOf(long)` and its inverse, and ASCII lower-casing.
- `Decimals` covers `new BigDecimal(String)` as an exact unscaled value plus a 32-bit scale.
- `Datetime` covers `translateUnix`. The local part is read like `DateTimeFormatter` with the
  SMART resolver, which clamps the day of the month and reads 24:00:00 as the next midnight. The
  offset is read like `ZoneOffset.of`, in all its forms. Epoch days use the closed form of
  `LocalDate.toEpochDay`, and the model proves that it equals counting the days one at a time.
- `ToggleModel` holds the values the compiler reads and writes, and the ways a build fails.
- `Converters` holds the closed converter table, the return-type lookup and the variation
  conversion.
- `RuleCompiler` covers the condition rewrite. It is checked against a reference definition
  (`RulesCompiledFrom`): same rules, conditions and operands, in the same order, each operand
  rewritten as its kind says.
- `ToggleAssembly` holds the four steps as functions and `Compile`, the whole build as a
  function. Lemmas give the exact success condition, the error precedence, the shape of a built
  toggle and the toggle left behind by a failed build.
- `Builder` holds the class `ServerToggleBuilder`. Its fields are the ones the Java class keeps.
  Each setter is a method with a `modifies` clause. `Build` and the four step methods are proved
  against the step functions. The `forEach` loops of `setRules` are `while` loops, proved against
  `CompileRules`.

Where the code and its documented intent disagree, the model follows the code:

- When both serves are absent, the build fails with "disabled serve is null", not "default serve
  is null". `setDisabledServe` runs first (see `CompileErrorPrecedence`).
- The `boolean` converter is `Boolean.valueOf`. It never fails, and it yields false for any
  literal other than "true" in some case. It is not a strict true/false parse.
- A failed `build()` returns no toggle. The builder's own toggle object, however, keeps what the
  steps before the failure wrote (`ToggleAfterBuild`).
- `returnType` itself throws on an unknown identifier. The error does not wait for `build()`.
- `setDefaultServe` keeps a default serve the toggle already holds. A second `build()` on the same
  builder, after `disabled(false)`, succeeds with the first build's default serve even when the
  document has none (see `DefaultServeStepCorrect`).

## Model

| member | source | states |
|---|---|---|
| Wrappers.Sequence | src/main/java/com/featureprobe/api/model/ServerToggleBuilder.java:141-142 | a stream of fallible steps succeeds exactly when every element succeeds, and then yields each element's value at its own index |
| Wrappers.SequenceFirstFailure | src/main/java/com/featureprobe/api/model/ServerToggleBuilder.java:156-157 | the first element that fails decides the error of the whole stream |
| Wrappers.SequenceFailedPrefix | src/main/java/com/featureprobe/api/model/ServerToggleBuilder.java:156-157 | once a prefix fails, later elements cannot change the outcome |
| Wrappers.SequenceStep | src/main/java/com/featureprobe/api/model/ServerToggleBuilder.java:137-144 | one more element after a successful prefix either ends the stream with its error or appends its value |
| Wrappers.SequenceFailure | src/main/java/com/featureprobe/api/model/ServerToggleBuilder.java:156-157 | a failing stream fails with the error of one of its own elements |
| Text.NatToString | src/main/java/com/featureprobe/api/model/ServerToggleBuilder.java:152 | the rendering is a non-empty run of digits denoting the number, with no leading zero: zero is "0" alone |
| Text.IntToString | src/main/java/com/featureprobe/api/model/ServerToggleBuilder.java:152 | `String.valueOf(long)` has a leading '-' exactly for negative values, followed by a non-empty run of digits with no leading zero; with `IntToStringRoundTrip` this fixes the string |
| Text.IntToStringRoundTrip | src/main/java/com/featureprobe/api/model/ServerToggleBuilder.java:152 | reading the rendered integer back gives the integer |
| Text.ToLower | src/main/java/com/featureprobe/api/model/ServerToggleBuilder.java:85 | lower-casing keeps the length and maps each upper-case ASCII letter to its lower-case letter, leaving every other character as it was |
| Decimals.ParseUnsignedDecimal | src/main/java/com/featureprobe/api/model/ServerToggleBuilder.java:40 | an unsigned literal yields a non-negative unscaled value and a scale within 32 bits |
| Decimals.ParseDecimal | src/main/java/com/featureprobe/api/model/ServerToggleBuilder.java:40 | `new BigDecimal(s)` succeeds only with a scale within 32 bits |
| Decimals.ScientificRoundTrip | src/main/java/com/featureprobe/api/model/ServerToggleBuilder.java:40 | every decimal is read back exactly from its scientific rendering: no digit or scale is lost |
| Decimals.UnsignedScientific | src/main/java/com/featureprobe/api/model/ServerToggleBuilder.java:40 | digits, an exponent marker and a signed exponent read as those digits scaled by the negated exponent |
| Decimals.NegativeLiteral | src/main/java/com/featureprobe/api/model/ServerToggleBuilder.java:40 | a leading '-' negates the unscaled value of the literal after it and keeps its scale |
| Decimals.ParseUnsigned | src/main/java/com/featureprobe/api/model/ServerToggleBuilder.java:40 | a literal starting with a digit is read by the unsigned grammar |
| Decimals.PointedDecimal | src/main/java/com/featureprobe/api/model/ServerToggleBuilder.java:40 | digits with a point keep every digit, and the scale is the count of fraction digits |
| Decimals.UnsignedWithoutExponent | src/main/java/com/featureprobe/api/model/ServerToggleBuilder.java:40 | without an exponent the scale is the number of fraction digits |
| Decimals.ParseExactDecimal | src/main/java/com/featureprobe/api/model/ServerToggleBuilder.java:40 | "3.14" is exactly 314 × 10^-2 |
| Decimals.ParseNegativeDecimal | src/main/java/com/featureprobe/api/model/ServerToggleBuilder.java:40 | "-0.50" keeps its sign and trailing zero: unscaled -50, scale 2 |
| Decimals.RejectMalformedDecimal | src/main/java/com/featureprobe/api/model/ServerToggleBuilder.java:40 | "", "." and "abc" are rejected |
| Datetime.NextDay | src/main/java/com/featureprobe/api/model/ServerToggleBuilder.java:149-150 | the day after a valid date is a valid date |
| Datetime.JavaYearDaysCount | src/main/java/com/featureprobe/api/model/ServerToggleBuilder.java:151 | the closed-form year part of `toEpochDay` equals the days of the years before, counted one by one |
| Datetime.JavaYearDaysStep | src/main/java/com/featureprobe/api/model/ServerToggleBuilder.java:151 | one more year adds exactly that year's length to the closed form |
| Datetime.JavaMonthDaysCount | src/main/java/com/featureprobe/api/model/ServerToggleBuilder.java:151 | the closed-form month part equals the days of the months before, counted one by one |
| Datetime.EpochDay | src/main/java/com/featureprobe/api/model/ServerToggleBuilder.java:151 | days are numbered from 1970-01-01, which is day 0 |
| Datetime.EpochDayMatchesCount | src/main/java/com/featureprobe/api/model/ServerToggleBuilder.java:151 | `LocalDate.toEpochDay` equals the count of days from 1970-01-01, for every valid date |
| Datetime.CountedNextDay | src/main/java/com/featureprobe/api/model/ServerToggleBuilder.java:149-150 | the reference day count advances by one to the next calendar day |
| Datetime.NextDayAdvancesEpochDay | src/main/java/com/featureprobe/api/model/ServerToggleBuilder.java:149-151 | the epoch day of the next calendar day is one more |
| Datetime.LocalEpochSecondsMatchCount | src/main/java/com/featureprobe/api/model/ServerToggleBuilder.java:151 | the epoch seconds of a local date-time equal those from the reference day count |
| Datetime.LocalEpochSeconds | src/main/java/com/featureprobe/api/model/ServerToggleBuilder.java:151 | the local epoch second falls on the date's epoch day, at the second of the day its time names |
| Datetime.CountedEpochSeconds | src/main/java/com/featureprobe/api/model/ServerToggleBuilder.java:151 | the same split of the reference count into the day number and the second within the day |
| Datetime.ResolveSmart | src/main/java/com/featureprobe/api/model/ServerToggleBuilder.java:149-150 | SMART resolution only produces valid date-times |
| Datetime.ParseLocalDateTime | src/main/java/com/featureprobe/api/model/ServerToggleBuilder.java:149-150 | parsing `yyyy/MM/dd HH:mm:ss` only produces valid date-times |
| Datetime.ParseOffset | src/main/java/com/featureprobe/api/model/ServerToggleBuilder.java:151 | `ZoneOffset.of` yields an offset within ±18:00 |
| Datetime.TranslateUnix | src/main/java/com/featureprobe/api/model/ServerToggleBuilder.java:148-153 | succeeds exactly when the input has at least 19 characters, the first 19 parse as a date-time and the rest parses as an offset; a result starts with a digit or a minus sign |
| Datetime.ParseWrittenFields | src/main/java/com/featureprobe/api/model/ServerToggleBuilder.java:149-150 | parsing six written fields is SMART resolution of exactly those fields |
| Datetime.ParseFormattedLocalDateTime | src/main/java/com/featureprobe/api/model/ServerToggleBuilder.java:149-150 | every valid date-time of years 1 to 9999, once written, is parsed back to itself |
| Datetime.ParseHourMinuteOffset | src/main/java/com/featureprobe/api/model/ServerToggleBuilder.java:151 | a signed `hh:mm` within ±18:00 reads as ±(hh × 3600 + mm × 60) seconds |
| Datetime.ParseFormattedOffset | src/main/java/com/featureprobe/api/model/ServerToggleBuilder.java:151 | every whole-minute offset within ±18:00, once written as `±hh:mm`, is parsed back to itself |
| Datetime.TranslateParts | src/main/java/com/featureprobe/api/model/ServerToggleBuilder.java:148-153 | the result is the local epoch seconds minus the offset seconds, rendered |
| Datetime.TranslatePartsCounted | src/main/java/com/featureprobe/api/model/ServerToggleBuilder.java:148-153 | the same, with the epoch seconds from the independent day count |
| Datetime.TranslateFormatted | src/main/java/com/featureprobe/api/model/ServerToggleBuilder.java:148-153 | for every valid date-time and offset, translateUnix gives the counted epoch seconds minus the offset; the `/1000` loses nothing |
| Datetime.ExampleWallClock | src/main/java/com/featureprobe/api/model/ServerToggleBuilder.java:149-150 | 2023/01/02 10:00:00 parses, and is local epoch second 1672653600 |
| Datetime.TranslateUtcExample | src/main/java/com/featureprobe/api/model/ServerToggleBuilder.java:148-153 | "2023/01/02 10:00:00+00:00" gives "1672653600" |
| Datetime.TranslateEastExample | src/main/java/com/featureprobe/api/model/ServerToggleBuilder.java:148-153 | the same wall clock at +08:00 gives "1672624800", eight hours earlier |
| Datetime.TranslateZuluExample | src/main/java/com/featureprobe/api/model/ServerToggleBuilder.java:148-153 | "Z" names the zero offset |
| Datetime.TranslateUnixExamples | src/main/java/com/featureprobe/api/model/ServerToggleBuilder.java:148-153 | the three examples together |
| Datetime.EndOfDay | src/main/java/com/featureprobe/api/model/ServerToggleBuilder.java:149-150 | 24:00:00 is accepted only with zero minutes and seconds, and is exactly one day after 00:00:00 of the same date |
| Datetime.FebruaryClampExample | src/main/java/com/featureprobe/api/model/ServerToggleBuilder.java:149-150 | February 30 of 2023 is clamped to February 28 |
| Datetime.AprilClampExample | src/main/java/com/featureprobe/api/model/ServerToggleBuilder.java:149-150 | April 31 is clamped to April 30 |
| Datetime.EndOfYearExample | src/main/java/com/featureprobe/api/model/ServerToggleBuilder.java:149-150 | 2023/12/31 24:00:00 is midnight of 2024-01-01 |
| Datetime.SmartRejectionExamples | src/main/java/com/featureprobe/api/model/ServerToggleBuilder.java:149-150 | month 13, day 32 and year 0 are rejected |
| Datetime.OffsetExamples | src/main/java/com/featureprobe/api/model/ServerToggleBuilder.java:151 | the forms +h, ±hh, ±hhmm, ±hh:mm, ±hhmmss and ±hh:mm:ss, and the limit +18:00, are read |
| Datetime.OffsetRejectExamples | src/main/java/com/featureprobe/api/model/ServerToggleBuilder.java:151 | beyond ±18:00, a minute of 60, a missing sign, a lower-case "z" and the empty offset are rejected |
| Datetime.TranslateUnixRejects | src/main/java/com/featureprobe/api/model/ServerToggleBuilder.java:149-151 | an operand without an offset, or shorter than the pattern, is rejected |
| ToggleModel.Message | src/main/java/com/featureprobe/api/model/ServerToggleBuilder.java:88-123 | the builder's own four errors carry a message and the library errors none; the unknown-type message ends with the rejected type (the throws at lines 88, 101, 117 and 123) |
| ToggleModel.MessagesDistinguish | src/main/java/com/featureprobe/api/model/ServerToggleBuilder.java:88-123 | equal messages come from equal errors, so a message names its error |
| Converters.Name | src/main/java/com/featureprobe/api/model/ServerToggleBuilder.java:36-41 | each converter is registered under its identifier |
| Converters.ConverterTableKeys | src/main/java/com/featureprobe/api/model/ServerToggleBuilder.java:36-41 | the table holds exactly "string", "boolean", "json" and "number", each lower-case and under the name of its own converter |
| Converters.GetReturnTypeConverter | src/main/java/com/featureprobe/api/model/ServerToggleBuilder.java:84-89 | the lookup succeeds exactly when the lower-cased identifier is string, boolean, json or number, returns the converter registered under it, and otherwise fails naming the identifier as given |
| Converters.ReturnTypeRoundTrip | src/main/java/com/featureprobe/api/model/ServerToggleBuilder.java:36-41 | every registered identifier selects its own converter |
| Converters.ReturnTypeIgnoresCase | src/main/java/com/featureprobe/api/model/ServerToggleBuilder.java:85-86 | identifiers equal up to case select the same converter, or both fail |
| Converters.ReturnTypeExamples | src/main/java/com/featureprobe/api/model/ServerToggleBuilder.java:84-89 | "Boolean" and "NUMBER" are found; "currency" and "" fail with "return type is unknown" |
| Converters.Converted | src/main/java/com/featureprobe/api/model/ServerToggleBuilder.java:125 | one conversion per variation, at the variation's index |
| Converters.ConvertVariations | src/main/java/com/featureprobe/api/model/ServerToggleBuilder.java:125 | the variations convert exactly when each literal converts, and then into a list of the same length and order |
| Converters.ConvertVariationsFirstFailure | src/main/java/com/featureprobe/api/model/ServerToggleBuilder.java:125 | the first literal that does not convert decides the error |
| Converters.BooleanConverterExamples | src/main/java/com/featureprobe/api/model/ServerToggleBuilder.java:38 | "TRUE" and "True" are true; "yes", "1" and "" are false |
| Converters.BooleanConverterTotal | src/main/java/com/featureprobe/api/model/ServerToggleBuilder.java:38 | for every literal the boolean converter succeeds, with true exactly when the literal lower-cased is "true" |
| Converters.BooleanValueOf | src/main/java/com/featureprobe/api/model/ServerToggleBuilder.java:38 | true exactly for a four-letter literal spelling t, r, u, e, each letter in either case |
| Converters.Convert | src/main/java/com/featureprobe/api/model/ServerToggleBuilder.java:37-40 | the string and boolean converters never fail; a failure is "malformed json" for the json converter and "malformed number" otherwise, naming the literal |
| Converters.BooleanRoundTrip | src/main/java/com/featureprobe/api/model/ServerToggleBuilder.java:38 | "true" and "false" read back as the booleans |
| Converters.JsonConverterReadsLibrary | src/main/java/com/featureprobe/api/model/ServerToggleBuilder.java:39 | the json converter succeeds exactly when the JSON library reads the literal as an object or `null`, the only values of type `Map`, and yields that value; every other literal fails naming it |
| Converters.JsonConverterRejectsArray | src/main/java/com/featureprobe/api/model/ServerToggleBuilder.java:39 | a literal the library reads as an array is not a `Map`, and fails |
| Converters.NumberConverterExact | src/main/java/com/featureprobe/api/model/ServerToggleBuilder.java:40 | "3.14" converts to the exact decimal 3.14, and every scientific rendering converts back to its decimal |
| Converters.NumberConverterRejects | src/main/java/com/featureprobe/api/model/ServerToggleBuilder.java:40 | "abc" and "" fail as malformed numbers |
| Converters.StringVariationsIdentity | src/main/java/com/featureprobe/api/model/ServerToggleBuilder.java:37 | the string converter returns the literals themselves, in order, and never fails |
| RuleCompiler.ResolveSegment | src/main/java/com/featureprobe/api/model/ServerToggleBuilder.java:157 | a key present in the snapshot becomes that segment's unique key; an absent key fails with that key instead of being dropped |
| RuleCompiler.NormalizeDatetime | src/main/java/com/featureprobe/api/model/ServerToggleBuilder.java:141-142 | a DATETIME operand becomes its translation, and fails naming the operand when it has none |
| RuleCompiler.ResolvedKeys | src/main/java/com/featureprobe/api/model/ServerToggleBuilder.java:156-157 | one lookup per key, at the key's index |
| RuleCompiler.ReplaceSegmentKeys | src/main/java/com/featureprobe/api/model/ServerToggleBuilder.java:155-158 | succeeds exactly when every key is in the snapshot, and then yields each key's unique key, in order and of the same length |
| RuleCompiler.ReplaceSegmentKeysFirstFailure | src/main/java/com/featureprobe/api/model/ServerToggleBuilder.java:156-157 | the first absent key is the reported one |
| RuleCompiler.ReplaceSegmentKeysFailure | src/main/java/com/featureprobe/api/model/ServerToggleBuilder.java:156-157 | a failure names one of the given keys, and one the snapshot lacks |
| RuleCompiler.TranslatedOperands | src/main/java/com/featureprobe/api/model/ServerToggleBuilder.java:141-142 | one translation per operand, at the operand's index |
| RuleCompiler.TranslateDatetimes | src/main/java/com/featureprobe/api/model/ServerToggleBuilder.java:141-142 | succeeds exactly when every operand translates, and then yields each operand's translation, in order |
| RuleCompiler.TranslateDatetimesFirstFailure | src/main/java/com/featureprobe/api/model/ServerToggleBuilder.java:141-142 | the first operand that does not translate is the reported one |
| RuleCompiler.TranslateDatetimesFailure | src/main/java/com/featureprobe/api/model/ServerToggleBuilder.java:141-142 | a failure names one of the given operands, and one that does not translate |
| RuleCompiler.CompileCondition | src/main/java/com/featureprobe/api/model/ServerToggleBuilder.java:138-143 | compiling a condition changes at most its operand list |
| RuleCompiler.CompiledConditions | src/main/java/com/featureprobe/api/model/ServerToggleBuilder.java:137 | one compiled condition per condition, at its index |
| RuleCompiler.CompileConditions | src/main/java/com/featureprobe/api/model/ServerToggleBuilder.java:137-144 | a rule's conditions compile exactly when each does, into a list of the same length and order |
| RuleCompiler.CompileConditionsStep | src/main/java/com/featureprobe/api/model/ServerToggleBuilder.java:137-144 | one more condition either ends the rule with its error or extends the compiled prefix |
| RuleCompiler.CompileConditionsFirstFailure | src/main/java/com/featureprobe/api/model/ServerToggleBuilder.java:137-144 | the first condition that fails decides the error |
| RuleCompiler.CompileConditionsFailure | src/main/java/com/featureprobe/api/model/ServerToggleBuilder.java:137-144 | a failing rule fails with the error of one of its own conditions |
| RuleCompiler.CompiledRules | src/main/java/com/featureprobe/api/model/ServerToggleBuilder.java:137 | one compiled rule per rule, at its index |
| RuleCompiler.CompileRule | src/main/java/com/featureprobe/api/model/ServerToggleBuilder.java:138-143 | a compiled rule keeps its serve and has one condition per source condition |
| RuleCompiler.CompileRules | src/main/java/com/featureprobe/api/model/ServerToggleBuilder.java:137-144 | the rule list compiles exactly when each rule does, into a list of the same length and order |
| RuleCompiler.CompileRulesStep | src/main/java/com/featureprobe/api/model/ServerToggleBuilder.java:137-144 | one more rule either ends the list with its error or extends the compiled prefix |
| RuleCompiler.CompileRulesFirstFailure | src/main/java/com/featureprobe/api/model/ServerToggleBuilder.java:137-144 | the first rule that fails decides the error |
| RuleCompiler.CompileRulesFailure | src/main/java/com/featureprobe/api/model/ServerToggleBuilder.java:137-144 | a failing list fails with the error of one of its own rules |
| RuleCompiler.CompileConditionCorrect | src/main/java/com/featureprobe/api/model/ServerToggleBuilder.java:138-143 | a condition compiles exactly when every operand is resolvable. It compiles to `d` exactly when `d` is the reference rewrite: same kind, subject and predicate, same number of operands, each rewritten as the kind says |
| RuleCompiler.CompileConditionBlame | src/main/java/com/featureprobe/api/model/ServerToggleBuilder.java:138-143 | a failing condition names one of its own operands, of its own kind, that cannot be rewritten |
| RuleCompiler.CompileRuleCorrect | src/main/java/com/featureprobe/api/model/ServerToggleBuilder.java:137-144 | a rule compiles exactly when every operand in it is resolvable, and exactly into the reference rewrite with its serve kept |
| RuleCompiler.CompileRuleBlame | src/main/java/com/featureprobe/api/model/ServerToggleBuilder.java:137-144 | a failing rule names an operand of one of its conditions |
| RuleCompiler.CompileRulesCorrect | src/main/java/com/featureprobe/api/model/ServerToggleBuilder.java:135-145 | sound and complete against the reference: the compiler yields `out` exactly when `out` keeps the number and order of rules, conditions and operands and rewrites each operand |
| RuleCompiler.CompileRulesFailsExactly | src/main/java/com/featureprobe/api/model/ServerToggleBuilder.java:137-144 | the compiler fails exactly when some rule has an operand that cannot be rewritten |
| RuleCompiler.CompileRulesBlame | src/main/java/com/featureprobe/api/model/ServerToggleBuilder.java:137-144 | a failure names a real operand: an absent segment key or an unreadable date-time in one of the rules |
| RuleCompiler.SegmentOperandNeedsSnapshot | src/main/java/com/featureprobe/api/model/ServerToggleBuilder.java:157 | with no segment snapshot, any SEGMENT operand fails the compilation |
| RuleCompiler.DatetimeConditionExample | src/main/java/com/featureprobe/api/model/ServerToggleBuilder.java:140-142 | a DATETIME condition with "2023/01/02 10:00:00+00:00" becomes one with "1672653600" |
| RuleCompiler.SingleRuleOfTwoConditions | src/main/java/com/featureprobe/api/model/ServerToggleBuilder.java:137-144 | a one-rule list of two compiled conditions compiles to the rule of those conditions, in order, with its serve |
| RuleCompiler.CompileRulesExample | src/main/java/com/featureprobe/api/model/ServerToggleBuilder.java:135-145 | `[SEGMENT "seg-a", DATETIME "2023/01/02 10:00:00+00:00"]` with seg-a → uid-1 compiles to `["uid-1"]` and `["1672653600"]`, in order |
| ToggleAssembly.DisabledServeStep | src/main/java/com/featureprobe/api/model/ServerToggleBuilder.java:99-105 | succeeds exactly when the document has a disabled serve, copying it and nothing else, and otherwise fails with "disabled serve is null" |
| ToggleAssembly.DefaultServeStepCorrect | src/main/java/com/featureprobe/api/model/ServerToggleBuilder.java:107-119 | the step succeeds exactly when a default serve is available. An explicit serve wins. Otherwise an existing one is kept; otherwise a disabled toggle falls back to its disabled serve. Success always leaves a default serve and changes nothing else. Failure is "default serve is null" |
| ToggleAssembly.DefaultServeStep | src/main/java/com/featureprobe/api/model/ServerToggleBuilder.java:107-119 | a failure is "default serve is null"; success leaves a default serve and changes no other field |
| ToggleAssembly.VariationsStepSucceeds | src/main/java/com/featureprobe/api/model/ServerToggleBuilder.java:121-127 | the variations step succeeds exactly when a converter is selected and every literal converts |
| ToggleAssembly.VariationsStep | src/main/java/com/featureprobe/api/model/ServerToggleBuilder.java:121-127 | without a converter the step fails with `MissingReturnTypeConverter` ("return type not set"); success sets the variations, one per literal, and changes no other field |
| ToggleAssembly.RulesStepCorrect | src/main/java/com/featureprobe/api/model/ServerToggleBuilder.java:130-146 | the rules step yields `out` exactly when `out` is the reference rewrite of the document's rules (none for a null list), and changes only the rules |
| ToggleAssembly.EmptyRules | src/main/java/com/featureprobe/api/model/ServerToggleBuilder.java:131-133 | a null or empty rule list gives the empty list, never null, never a failure |
| ToggleAssembly.RulesStepSucceeds | src/main/java/com/featureprobe/api/model/ServerToggleBuilder.java:130-146 | the rules step succeeds exactly when every operand of every rule can be rewritten |
| ToggleAssembly.RulesStep | src/main/java/com/featureprobe/api/model/ServerToggleBuilder.java:130-146 | success sets the rules, one per source rule (none for an absent list), and changes no other field |
| ToggleAssembly.CompileSucceedsExactly | src/main/java/com/featureprobe/api/model/ServerToggleBuilder.java:91-97 | the build succeeds exactly when these all hold: a document is set, it has a disabled serve, a default serve is available, a return type was selected, every literal converts and every operand can be rewritten |
| ToggleAssembly.Compile | src/main/java/com/featureprobe/api/model/ServerToggleBuilder.java:91-97 | without a document the build fails with `TargetingContentNotSet` (a null dereference, with no message); a built toggle keeps its identity fields and has both serves, its variations and its rules set |
| ToggleAssembly.CompileSuccessShape | src/main/java/com/featureprobe/api/model/ServerToggleBuilder.java:91-97 | a built toggle keeps the identity fields and has the document's disabled serve. It has a default serve, the document's when given. Its variations are converted in order, and its rules are the reference rewrite |
| ToggleAssembly.CompileErrorPrecedence | src/main/java/com/featureprobe/api/model/ServerToggleBuilder.java:91-97 | the steps run in order, and the first failing one decides the error. With both serves absent the error is "disabled serve is null" |
| ToggleAssembly.EnabledWithoutDefaultFails | src/main/java/com/featureprobe/api/model/ServerToggleBuilder.java:107-119 | a toggle not explicitly disabled, with no default serve anywhere, never builds; with a disabled serve the error is "default serve is null" |
| ToggleAssembly.DisabledFallsBackToDisabledServe | src/main/java/com/featureprobe/api/model/ServerToggleBuilder.java:111-115 | a disabled toggle with no default serve builds with its disabled serve as default |
| ToggleAssembly.ToggleAfterBuildCorrect | src/main/java/com/featureprobe/api/model/ServerToggleBuilder.java:91-97 | after a successful build the builder holds the built toggle. After a failed one it holds a toggle whose rules and identity fields are unchanged. When the document or its disabled serve is missing, it holds the original toggle |
| ToggleAssembly.ToggleAfterBuild | src/main/java/com/featureprobe/api/model/ServerToggleBuilder.java:91-97 | whatever the outcome, the build never changes the key, version, enabled flag or client flag |
| ToggleAssembly.Committed | src/main/java/com/featureprobe/api/model/ServerToggleBuilder.java:99-105 | a step that throws leaves the toggle as it was; one that returns leaves what it wrote |
| Builder.OutcomeOf | src/main/java/com/featureprobe/api/model/ServerToggleBuilder.java:99-105 | a step method passes exactly when its step function succeeds, and reports the same error |
| Builder.ServerToggleBuilder.constructor | src/main/java/com/featureprobe/api/model/ServerToggleBuilder.java:43-46 | a new builder holds an empty toggle, no converter, no document and no segments |
| Builder.ServerToggleBuilder.Builder | src/main/java/com/featureprobe/api/model/ServerToggleBuilder.java:43-46 | `builder()` replaces the toggle by an empty one and keeps the other fields |
| Builder.ServerToggleBuilder.Key | src/main/java/com/featureprobe/api/model/ServerToggleBuilder.java:48-51 | sets the key and nothing else |
| Builder.ServerToggleBuilder.Version | src/main/java/com/featureprobe/api/model/ServerToggleBuilder.java:53-56 | sets the version and nothing else |
| Builder.ServerToggleBuilder.Disabled | src/main/java/com/featureprobe/api/model/ServerToggleBuilder.java:58-61 | stores the negation as the enabled flag, and nothing else |
| Builder.ServerToggleBuilder.ForClient | src/main/java/com/featureprobe/api/model/ServerToggleBuilder.java:64-67 | sets the client flag and nothing else |
| Builder.ServerToggleBuilder.Rules | src/main/java/com/featureprobe/api/model/ServerToggleBuilder.java:69-72 | stores the targeting document and nothing else |
| Builder.ServerToggleBuilder.Segments | src/main/java/com/featureprobe/api/model/ServerToggleBuilder.java:74-77 | stores the segment snapshot and nothing else |
| Builder.ServerToggleBuilder.ReturnType | src/main/java/com/featureprobe/api/model/ServerToggleBuilder.java:79-89 | selects the converter the lookup finds. For an unknown identifier it fails with "return type is unknown" and keeps the previous selection |
| Builder.ServerToggleBuilder.Build | src/main/java/com/featureprobe/api/model/ServerToggleBuilder.java:91-97 | returns exactly `Compile` of the held state, leaves the toggle `ToggleAfterBuild` describes, and changes no other field |
| Builder.ServerToggleBuilder.SetDisabledServe | src/main/java/com/featureprobe/api/model/ServerToggleBuilder.java:99-105 | reports and writes what `DisabledServeStep` says; no write on failure |
| Builder.ServerToggleBuilder.SetDefaultServe | src/main/java/com/featureprobe/api/model/ServerToggleBuilder.java:107-119 | reports and writes what `DefaultServeStep` says |
| Builder.ServerToggleBuilder.SetVariations | src/main/java/com/featureprobe/api/model/ServerToggleBuilder.java:121-127 | reports and writes what `VariationsStep` says; no write on failure |
| Builder.ServerToggleBuilder.SetRules | src/main/java/com/featureprobe/api/model/ServerToggleBuilder.java:130-146 | reports and writes what `RulesStep` says; the toggle's rules change only when every rule was rewritten |
| Builder.RewriteRules | src/main/java/com/featureprobe/api/model/ServerToggleBuilder.java:137-144 | the outer loop over the rules computes `CompileRules` |
| Builder.RewriteConditions | src/main/java/com/featureprobe/api/model/ServerToggleBuilder.java:137-144 | the inner loop over one rule's conditions computes `CompileRule` |
| Builder.RewriteCondition | src/main/java/com/featureprobe/api/model/ServerToggleBuilder.java:138-143 | the loop body computes `CompileCondition` |
| Builder.DisabledToggleScenario | src/main/java/com/featureprobe/api/model/ServerToggleBuilder.java:91-97 | a disabled boolean toggle without a default serve builds. It serves its disabled serve by default and converts "true"/"false" in order. Its rule list is empty |
| Builder.EnabledToggleScenario | src/main/java/com/featureprobe/api/model/ServerToggleBuilder.java:107-119 | the same document on an enabled toggle fails with "default serve is null" |

## Left out

- JSON reading (line 39 and line 70) is not modelled. The `json` converter uses a function `parseJson`, given to the builder's constructor, that stands for `JsonMapper.toObject(value, Map.class)`, including which texts it rejects. `JsonMapper` is not part of this model; reading a non-object text into `Map.class` is taken to fail, as Jackson's binding does. The targeting document is taken already read: `Rules` receives a `TargetingContent` value, not JSON text.
- `toServe()` and `toRule()` are not part of this model. The document holds the runtime serves and rules directly, so both are identities here.
- `getVariationObjectsByConverter` (line 125) is not part of this model. It is modelled as a sequential stream that converts every literal, in order, with the first failure ending it.
- The converter table (lines 33-41) is a fixed constant. Nothing registers further converters.
- Case mapping is ASCII only (`toLowerCase`, `equalsIgnoreCase`). Locale-dependent and non-ASCII case mappings are not modelled.
- Digits are ASCII only. `BigDecimal` reads digits with `Character.digit` and so also accepts other Unicode digits; those are not modelled. The date-time pattern and `ZoneOffset` read ASCII digits only, as the model does.
- Strings are sequences of characters, not UTF-16 code units.
- Null arguments to the setters are not modelled. A missing targeting document is modelled as the error `TargetingContentNotSet`, standing for the null dereference at line 100. A builder whose `segments` was never set behaves as one with an empty snapshot: in both, a SEGMENT operand fails. A null list of operands or conditions is not modelled.
- Calling a setter before `builder()` dereferences a null toggle in the source. Here the constructor already holds an empty toggle.
- The toggle, its rules and its conditions are values rebuilt on each change, not objects updated in place and shared by reference. Aliasing between the builder's toggle and the value `build()` returned is not captured. The partial writes of a failed build are captured by `ToggleAfterBuild`.
- The fluent `return this` is not modelled. Each setter is a method on the builder.
- The version is an unbounded integer, not a 64-bit `Long`. The builder only stores it.
- Datetime.TranslateFormatted: covers years 1 to 9999 and whole-minute offsets only. The pattern's `yyyy` would read a longer year, but `translateUnix` keeps only the first 19 characters as the date-time (ServerToggleBuilder.java:149), so the year has exactly four digits. Offsets with seconds are read by `ParseOffset`, but no round trip is stated for them.
- Decimals.ParseUnsignedDecimal: reads an exponent as an unbounded integer, then requires it to fit in 32 bits, which rejects what `BigDecimal` rejects. Java's early rejection of exponents of more than ten digits gives the same result.
- Converters.Convert: its own contract states only which converters can fail and with which error. The value each converter produces is stated, converter by converter, by `BooleanConverterTotal`, `BooleanRoundTrip`, `JsonConverterReadsLibrary`, `NumberConverterExact`, `NumberConverterRejects` and `StringVariationsIdentity`.
- `RuleCompiler.CompileRules` and the lemmas about it take the date-time translator as a parameter. The builder instantiates it with `TranslateUnix`.
- Exceptions are modelled as the `BuildError` values of a `Result`. `Message` gives the text of the exceptions the builder throws itself. Exception classes and stack traces are not modelled.
- The other files of the repository are not part of this model: `SegmentMapper` (a generated mapper), `VariationHistory` (an entity), `VariationHistoryRepository` (persistence) and `LoginSuccessHandler` (HTTP output).
