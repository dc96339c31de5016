# NKTimeIntervalTextTransformation, modelled in Dafny

NKTimeIntervalTextTransformation turns a time interval into a short phrase such as "a minute
ago", "in 2 hours" or "через 21 минуту". A configuration (`NKTextTimeIntervalConfiguration`)
holds a placeholder for a zero interval, a past and a future template with the keys `<VALUE>`
and `<TIME_COMPONENT>`, and a set of `NKDateComponent` cases. Each case is a unit (centuries,
years, months, weeks, days, hours, minutes, seconds) with a declension rule: a closure from
the absolute count to an optional pair of a label and a flag saying whether the numeral is
shown. To phrase an interval, the library looks for the coarsest configured unit whose count
is not zero. It asks that unit's rule for a label. The past template is used for a negative
interval and the future one otherwise. The keys are then replaced, double spaces collapsed and
one leading space stripped. English, Russian and Ukrainian presets fill a configuration.

The project has these modules:

- `Options`: the `Option` type.
- `Numerics`: Swift's truncating integer division.
- `DateComponent`: the enum, its `hashValue` and its comparison operators.
- `ComponentSet`: the `Set<NKDateComponent>` extension. A set is a map from unit to rule,
  because hashing and equality look only at the case.
- `Text` and `Phrase`: `replacingOccurrences`, decimal numerals and template rendering.
- `Presets`: the three languages' rules and templates.
- `Configuration`: the configuration class, `formatedString` and the preset installers.
- `FieldConfiguration`: the field-based variant of the preset installers.
- `Interval`: the unit counts of an interval and `stringRepresentation(by:)`.
- `CalendarComponents` and `DateComponents`: the calendar path's helpers.

Durations are whole seconds (`int`). A rule is a total Dafny function `nat -> Option<Form>`,
applied to the absolute count exactly as `formatedString` applies it. The calendar difference
that Foundation computes is a parameter: a partial map from calendar component to value.

The code is followed where its documentation says otherwise:

- When the chosen rule returns nil, `stringRepresentation` returns the zero placeholder, not
  nil. The same holds when no configured unit has a nonzero count but the set is not empty.
- An empty set gives nil even for a zero interval.
- The comment on `formatedString` says a value of 0 gives the placeholder. The code instead
  calls the rule with 0, and when the rule answers it renders the future template
  ("in 0 things"). On the `stringRepresentation` path this cannot happen, because a unit
  whose count is 0 is never chosen; the presets' rules also decline 0.

One more behaviour that is easy to miss: in `valueForGreatestDateComponent`, a missing (nil)
value counts as nonzero, so such a unit can be chosen and is paired with 0.

## Model

| member | source | states |
|---|---|---|
| DateComponent.Tag | NKTimeIntervalTextTransformation/Classes/NKDateComponent.swift:65-76 | the tag of a unit is its position in the order centuries, years, months, weeks, days, hours, minutes, seconds |
| DateComponent.TagOfOrder | NKTimeIntervalTextTransformation/Classes/NKDateComponent.swift:65-76 | position i of the order has tag i, so tags 0 to 7 name the eight units one to one |
| DateComponent.OrderComplete | NKTimeIntervalTextTransformation/Classes/NKDateComponent.swift:41-50 | the order lists every one of the eight cases |
| DateComponent.Make | NKTimeIntervalTextTransformation/Classes/NKDateComponent.swift:43-50 | the case built for a unit and a closure has that unit and carries that closure |
| DateComponent.NKDateComponent.HashValue | NKTimeIntervalTextTransformation/Classes/NKDateComponent.swift:65-76 | `hashValue` is 0 for centuries up to 7 for seconds: the position of the case in the order, whatever closure it carries |
| DateComponent.HashValueInjective | NKTimeIntervalTextTransformation/Classes/NKDateComponent.swift:65-76 | two values get the same `hashValue` exactly when they are the same case |
| DateComponent.RuleRoundTrip | NKTimeIntervalTextTransformation/Classes/NKDateComponent.swift:52-63 | `rule` returns exactly the closure stored in the case: case and rule rebuild the value |
| DateComponent.Eq | NKTimeIntervalTextTransformation/Classes/NKDateComponent.swift:78-80 | `==` holds exactly when both values are the same case, whatever their closures |
| DateComponent.Neq | NKTimeIntervalTextTransformation/Classes/NKDateComponent.swift:82-84 | `!=` is the negation of `==` |
| DateComponent.Less | NKTimeIntervalTextTransformation/Classes/NKDateComponent.swift:86-88 | `a < b` holds exactly when a's unit comes strictly before b's in the coarse-to-fine order |
| DateComponent.Greater | NKTimeIntervalTextTransformation/Classes/NKDateComponent.swift:90-92 | `a > b` holds exactly when `b < a` |
| DateComponent.LessStrictTotalOrder | NKTimeIntervalTextTransformation/Classes/NKDateComponent.swift:86-88 | `<` is irreflexive, transitive and total up to `==`, and `a < b` excludes both `a == b` and `b < a` |
| ComponentSet.Member | NKTimeIntervalTextTransformation/Classes/Set+NKDateComponentRule.swift:16-18 | the element of a set for a unit that is present is a member of that unit |
| ComponentSet.Insert | NKTimeIntervalTextTransformation/Classes/Extensions/NKTextTimeIntervalConfiguration+DefaultValues.swift:43-74 | `insert` adds the unit when absent with the given closure; a member already present keeps its own closure |
| ComponentSet.Filter | NKTimeIntervalTextTransformation/Classes/Set+NKDateComponentRule.swift:28-34 | `filter` keeps exactly the members satisfying the predicate, with their closures |
| ComponentSet.Equal | NKTimeIntervalTextTransformation/Classes/Set+NKDateComponentRule.swift:16-18 | `equal(to: c)` is the member of c's case when there is one (it is `==` to c) and nil otherwise; the second copy at `Extensions/Set+NKDateComponentRule.swift`:36-38 has the same body |
| ComponentSet.RemoveEqual | NKTimeIntervalTextTransformation/Classes/Set+NKDateComponentRule.swift:11-14 | `removeEqual(to: c)` removes exactly c's case, keeps every other member with its closure, and leaves a set without c's case unchanged; the second copy at `Extensions/Set+NKDateComponentRule.swift`:31-34 has the same body |
| ComponentSet.RemoveKeepsOthers | NKTimeIntervalTextTransformation/Classes/Set+NKDateComponentRule.swift:11-14 | removing c keeps every member of a different case, with its closure |
| ComponentSet.EqualAfterRemove | NKTimeIntervalTextTransformation/Classes/Set+NKDateComponentRule.swift:11-18 | after `removeEqual(to: c)` nothing `==` to c is found and every other case is found as before |
| ComponentSet.RemoveUndoesInsert | NKTimeIntervalTextTransformation/Classes/Set+NKDateComponentRule.swift:11-14 | inserting an absent case and then removing it gives back the original set |
| ComponentSet.Greatest | NKTimeIntervalTextTransformation/Classes/Set+NKDateComponentRule.swift:20-22 | `greatest()` is nil exactly for the empty set, and otherwise a member with the lowest tag (the coarsest unit); the second copy at `Extensions/Set+NKDateComponentRule.swift`:40-42 has the same body |
| ComponentSet.Smallest | NKTimeIntervalTextTransformation/Classes/Set+NKDateComponentRule.swift:24-26 | `smallest()` is nil exactly for the empty set, and otherwise a member with the highest tag (the finest unit); the second copy at `Extensions/Set+NKDateComponentRule.swift`:44-46 has the same body |
| ComponentSet.GreatestLessThan | NKTimeIntervalTextTransformation/Classes/Set+NKDateComponentRule.swift:28-30 | `greatest(lessThan: c)` is nil exactly when no member is finer than c, and otherwise the coarsest member strictly finer than c; the second copy at `Extensions/Set+NKDateComponentRule.swift`:48-50 has the same body |
| ComponentSet.SmallestGreaterThan | NKTimeIntervalTextTransformation/Classes/Set+NKDateComponentRule.swift:32-34 | `smallest(greaterThan: c)` is nil exactly when no member is coarser than c, and otherwise the finest member strictly coarser than c; the second copy at `Extensions/Set+NKDateComponentRule.swift`:52-54 has the same body |
| ComponentSet.InsertAll | NKTimeIntervalTextTransformation/Classes/Extensions/NKTextTimeIntervalConfiguration+DefaultValues.swift:43-74 | inserting a set of members one by one: the units of both, members already present keep their closures |
| ComponentSet.InsertAllIntoEmpty | NKTimeIntervalTextTransformation/Classes/NKTextTimeIntervalConfiguration+DefaultValues.swift:19-58 | inserting the preset members into a new, empty set gives exactly those members |
| ComponentSet.InsertAllIdempotent | NKTimeIntervalTextTransformation/Classes/Extensions/NKTextTimeIntervalConfiguration+DefaultValues.swift:36-76 | inserting the same members a second time changes nothing |
| Numerics.TruncDiv | NKTimeIntervalTextTransformation/Classes/TimeInterval+NKTimeIntervalDateComponents.swift:47-53 | `Int(self / k)` on whole seconds: the quotient truncated toward zero is 0 exactly below one divisor and has the sign of the dividend |
| Numerics.TruncDivBounds | NKTimeIntervalTextTransformation/Classes/TimeInterval+NKTimeIntervalDateComponents.swift:47-53 | the truncated quotient counts the whole divisors the dividend holds |
| Numerics.TruncDivNegative | NKTimeIntervalTextTransformation/Classes/TimeInterval+NKTimeIntervalDateComponents.swift:47 | -65 seconds are -1 minute, where Euclidean division would give -2 |
| Numerics.Abs | NKTimeIntervalTextTransformation/Classes/NKTextTimeIntervalConfiguration.swift:92 | `abs(value)` is the value or its negation, and never negative |
| Text.ReplaceAllAbsent | NKTimeIntervalTextTransformation/Classes/NKTextTimeIntervalConfiguration.swift:96-98 | `replacingOccurrences` leaves text without the pattern unchanged |
| Text.ReplaceAllSkip | NKTimeIntervalTextTransformation/Classes/NKTextTimeIntervalConfiguration.swift:96-98 | a prefix lacking the pattern's first character is copied and the scan goes on after it |
| Text.ReplaceAllSkipPrefix | NKTimeIntervalTextTransformation/Classes/NKTextTimeIntervalConfiguration.swift:96-98 | a prefix in which no occurrence can start is copied and the scan goes on after it |
| Text.ReplaceAllHead | NKTimeIntervalTextTransformation/Classes/NKTextTimeIntervalConfiguration.swift:96-98 | an occurrence at the front is replaced and the scan resumes after it, not inside the replacement |
| Text.ReplaceAllStep | NKTimeIntervalTextTransformation/Classes/NKTextTimeIntervalConfiguration.swift:96-98 | a first character that cannot begin an occurrence is copied |
| Text.ReplaceAll | NKTimeIntervalTextTransformation/Classes/NKTextTimeIntervalConfiguration.swift:96-98 | `replacingOccurrences(of:with:)`: one left-to-right pass over non-overlapping occurrences; the lemmas `ReplaceAllAbsent`, `ReplaceAllSkip`, `ReplaceAllHead`, `ReplaceAllSelf` and `ReplaceAllSameLength` state what it does |
| Text.ReplaceAllSelf | NKTimeIntervalTextTransformation/Classes/NKTextTimeIntervalConfiguration.swift:96-98 | replacing the pattern by itself gives the text back |
| Text.ReplaceAllSameLength | NKTimeIntervalTextTransformation/Classes/NKTextTimeIntervalConfiguration.swift:96-98 | a replacement as long as the pattern keeps the length of the text |
| Text.CollapseNoop | NKTimeIntervalTextTransformation/Classes/NKTextTimeIntervalConfiguration.swift:98 | the double-space pass leaves text without double spaces unchanged |
| Text.Decimal | NKTimeIntervalTextTransformation/Classes/NKTextTimeIntervalConfiguration.swift:97 | `String(abs(value))`: a nonempty string of decimal digits without a leading zero |
| Text.DecimalRoundTrip | NKTimeIntervalTextTransformation/Classes/NKTextTimeIntervalConfiguration.swift:97 | reading back the digits `String` writes gives the number |
| Text.DecimalPlain | NKTimeIntervalTextTransformation/Classes/NKTextTimeIntervalConfiguration.swift:97 | the numeral has no space and no `<`, so it brings no key and no double space |
| Phrase.NamedAfterNumberKey | NKTimeIntervalTextTransformation/Classes/NKTextTimeIntervalConfiguration.swift:96 | the unit-key pass copies a leading "<VALUE> " |
| Phrase.NamedKey | NKTimeIntervalTextTransformation/Classes/NKTextTimeIntervalConfiguration.swift:96 | the unit key followed by key-free text becomes the word followed by that text |
| Phrase.NumberedKey | NKTimeIntervalTextTransformation/Classes/NKTextTimeIntervalConfiguration.swift:97 | the number key followed by key-free text becomes the numeral followed by that text |
| Phrase.PastNamed | NKTimeIntervalTextTransformation/Classes/NKTextTimeIntervalConfiguration.swift:96 | the unit-key pass on "<VALUE> <TIME_COMPONENT> word" puts the label in place of the key |
| Phrase.FutureNamed | NKTimeIntervalTextTransformation/Classes/NKTextTimeIntervalConfiguration.swift:96 | the unit-key pass on "word <VALUE> <TIME_COMPONENT>" puts the label in place of the key |
| Phrase.FutureNumbered | NKTimeIntervalTextTransformation/Classes/NKTextTimeIntervalConfiguration.swift:97 | the number-key pass on "word <VALUE> label" puts the numeral in place of the key |
| Phrase.RenderPast | NKTimeIntervalTextTransformation/Classes/NKTextTimeIntervalConfiguration.swift:94-99 | a past template renders to "numeral label word" when the numeral is shown and "label word" when not; no double or leading space is left |
| Phrase.RenderFuture | NKTimeIntervalTextTransformation/Classes/NKTextTimeIntervalConfiguration.swift:94-99 | a future template renders to "word numeral label" when the numeral is shown and "word label" when not; the double space left by an empty numeral collapses |
| Phrase.RenderLiteral | NKTimeIntervalTextTransformation/Classes/NKTextTimeIntervalConfiguration.swift:96-99 | a template with no key, no double space and no leading space comes back unchanged |
| Phrase.CollapseIsSinglePass | NKTimeIntervalTextTransformation/Classes/NKTextTimeIntervalConfiguration.swift:98 | the collapse is one non-overlapping pass: three spaces become two |
| Phrase.WordIsScannedForNumberKey | NKTimeIntervalTextTransformation/Classes/NKTextTimeIntervalConfiguration.swift:96-97 | the unit key is replaced first, so a label containing "<VALUE>" receives the numeral |
| Phrase.Render | NKTimeIntervalTextTransformation/Classes/NKTextTimeIntervalConfiguration.swift:94-99 | the rewriting after the template is chosen: unit key, then number key, then the double-space pass, then one leading space dropped; `RenderPast`, `RenderFuture`, `RenderLiteral`, `CollapseIsSinglePass` and `WordIsScannedForNumberKey` state its results |
| Phrase.KeysDisjoint | NKTimeIntervalTextTransformation/Classes/NKTextTimeIntervalConfiguration.swift:35-40 | the keys `numberValueKey` "<VALUE>" and `timeComponentValueKey` "<TIME_COMPONENT>" both open with `<` and neither occurs inside the other |
| Phrase.PastTemplateSpelt | NKTimeIntervalTextTransformation/Classes/NKTextTimeIntervalConfiguration+DefaultValues.swift:21 | the past template shape is "<VALUE> <TIME_COMPONENT> " followed by the word, as the interpolation writes it |
| Phrase.FutureTemplateSpelt | NKTimeIntervalTextTransformation/Classes/NKTextTimeIntervalConfiguration+DefaultValues.swift:23 | the future template shape is the word followed by " <VALUE> <TIME_COMPONENT>" |
| Presets.InsertionOrder | NKTimeIntervalTextTransformation/Classes/NKTextTimeIntervalConfiguration+DefaultValues.swift:145-199 | the insertion order lists eight units and every unit appears in it, so each is inserted once |
| Presets.PresetComponents | NKTimeIntervalTextTransformation/Classes/NKTextTimeIntervalConfiguration+DefaultValues.swift:25-56 | a preset holds all eight units, each with its preset closure |
| Presets.SlavicRulesMatchCategory | NKTimeIntervalTextTransformation/Classes/NKTextTimeIntervalConfiguration+DefaultValues.swift:71-75 | `ruleLastOne` is the "ends in 1, not 11" category and `ruleLastTwoThreeFour` the "ends in 2 to 4, not 12 to 14" one; never both |
| Presets.SlavicFormByCategory | NKTimeIntervalTextTransformation/Classes/NKTextTimeIntervalConfiguration+DefaultValues.swift:77-124 | a Russian or Ukrainian closure is nil exactly at 0 and otherwise gives the word of the number's category, hiding the numeral only for exactly 1 (never for days) |
| Presets.PresetRuleShape | NKTimeIntervalTextTransformation/Classes/NKTextTimeIntervalConfiguration+DefaultValues.swift:25-56 | every preset closure is nil exactly at 0; English gives the singular without numeral at 1 and the plural with numeral otherwise; the Slavic closures show the numeral except at 1, and always for days |
| Presets.RussianMinutes | NKTimeIntervalTextTransformation/Classes/NKTextTimeIntervalConfiguration+DefaultValues.swift:113-118 | Russian minutes: 1 gives ("минуту", false), 21 ("минуту", true), 3 ("минуты", true), 5, 11 to 14 and 112 ("минут", true) |
| Presets.SlavicDayShowsOne | NKTimeIntervalTextTransformation/Classes/NKTextTimeIntervalConfiguration+DefaultValues.swift:101-106 | the Russian and Ukrainian day closures show the numeral for 1, unlike hours |
| Presets.UkrainianCenturyShared | NKTimeIntervalTextTransformation/Classes/NKTextTimeIntervalConfiguration+DefaultValues.swift:194-199 | Ukrainian centuries use "століття" after 1 and after 2 to 4, "століть" otherwise |
| Presets.UkrainianHours | NKTimeIntervalTextTransformation/Classes/Extensions/NKTextTimeIntervalConfiguration+Default.swift:164-169 | Ukrainian hours: "годину" after 1 (numeral only beyond 1), "години" after 2 to 4, "годин" for the teens and the rest |
| Presets.PresetRender | NKTimeIntervalTextTransformation/Classes/NKTextTimeIntervalConfiguration.swift:94-99 | with a preset's templates and closure, a nonzero magnitude renders to the preset phrase (`TemplatePhrase`): single spaces, no key left |
| Presets.LastOne | NKTimeIntervalTextTransformation/Classes/NKTextTimeIntervalConfiguration+DefaultValues.swift:71 | `ruleLastOne`: ends in 1 but not 11; `SlavicRulesMatchCategory` proves it is the "one" category and excludes `LastTwoThreeFour` |
| Presets.LastTwoThreeFour | NKTimeIntervalTextTransformation/Classes/NKTextTimeIntervalConfiguration+DefaultValues.swift:72-75 | `ruleLastTwoThreeFour`: ends in 2, 3 or 4 but not 12, 13 or 14; `SlavicRulesMatchCategory` proves it is the "few" category |
| Presets.EnglishForm | NKTimeIntervalTextTransformation/Classes/NKTextTimeIntervalConfiguration+DefaultValues.swift:25-56 | the English closures; `PresetRuleShape` proves nil exactly at 0, the singular without numeral at 1, the plural with numeral otherwise |
| Presets.SlavicForm | NKTimeIntervalTextTransformation/Classes/NKTextTimeIntervalConfiguration+DefaultValues.swift:77-124 | the Russian and Ukrainian closures; `SlavicFormByCategory` proves nil exactly at 0 and otherwise the word of the category, the numeral hidden only at 1 and never for days |
| Presets.PresetForm | NKTimeIntervalTextTransformation/Classes/NKTextTimeIntervalConfiguration+DefaultValues.swift:25-124 | the closure of each language and unit; `PresetRuleShape` states its shape |
| Presets.PresetRule | NKTimeIntervalTextTransformation/Classes/NKTextTimeIntervalConfiguration+DefaultValues.swift:25-124 | the closure a preset attaches to a unit; `PresetRuleShape` and `PresetRender` state what it yields and how it renders |
| Presets.Placeholder | NKTimeIntervalTextTransformation/Classes/NKTextTimeIntervalConfiguration+DefaultValues.swift:22 | the placeholder: "now", "сейчас" (line 68) and "зараз" (line 136); `Configuration.NKTextTimeIntervalConfiguration.Default` installs it |
| Presets.PastFormat | NKTimeIntervalTextTransformation/Classes/NKTextTimeIntervalConfiguration+DefaultValues.swift:21 | the past template, "<VALUE> <TIME_COMPONENT> ago" and its Russian (line 67) and Ukrainian (line 135) forms, as `PastTemplateSpelt` spells out |
| Presets.FutureFormat | NKTimeIntervalTextTransformation/Classes/NKTextTimeIntervalConfiguration+DefaultValues.swift:23 | the future template, "in <VALUE> <TIME_COMPONENT>" and its Russian (line 69) and Ukrainian (line 137) forms, as `FutureTemplateSpelt` spells out |
| Configuration.NKTextTimeIntervalConfiguration.constructor | NKTimeIntervalTextTransformation/Classes/NKTextTimeIntervalConfiguration.swift:22-68 | a fresh configuration has an empty placeholder, empty templates and no components |
| Configuration.NKTextTimeIntervalConfiguration.FormatedString | NKTimeIntervalTextTransformation/Classes/NKTextTimeIntervalConfiguration.swift:90-101 | `formatedString` is nil exactly when the rule is nil or the rule returns nil for the absolute value; otherwise it is the past template for a negative value and the future one for any other, rendered with the rule's form for the absolute value |
| Configuration.PresetFormatedString | NKTimeIntervalTextTransformation/Classes/NKTextTimeIntervalConfiguration.swift:90-102 | with a preset's templates and closure, `formatedString` is nil for 0 and otherwise the preset phrase, past for a negative value and future for a positive one |
| Configuration.FormatedStringInPresetTemplates | NKTimeIntervalTextTransformation/Classes/NKTextTimeIntervalConfiguration.swift:90-101 | with a preset's templates, any rule whose form has a plain word gives the preset phrase: past for a negative value, future for every other value, zero included |
| Configuration.ZeroTakesFutureTemplate | NKTimeIntervalTextTransformation/Classes/NKTextTimeIntervalConfiguration.swift:94 | a rule that answers for 0 takes the future template: 0 gives "in 0 things", not the placeholder |
| Configuration.NKTextTimeIntervalConfiguration.SetupDefault | NKTimeIntervalTextTransformation/Classes/Extensions/NKTextTimeIntervalConfiguration+DefaultValues.swift:36-76 | `setupDefault*` sets the preset placeholder and templates and inserts the eight preset units into the existing set |
| Configuration.NKTextTimeIntervalConfiguration.Default | NKTimeIntervalTextTransformation/Classes/NKTextTimeIntervalConfiguration+DefaultValues.swift:18-59 | `defaultEnglish()` and its siblings return a new configuration holding exactly the preset |
| FieldConfiguration.FieldConfiguration.SetupDefault | NKTimeIntervalTextTransformation/Classes/Extensions/NKTextTimeIntervalConfiguration+Default.swift:32-69 | the field-based `setupDefault*` sets the preset placeholder and templates and assigns every unit's field the preset closure |
| FieldConfiguration.FieldConfiguration.SetupRules | NKTimeIntervalTextTransformation/Classes/Extensions/NKTextTimeIntervalConfiguration+Default.swift:37-68 | the eight rule fields get the preset closures and the strings are left as they were |
| Interval.UnitSeconds | NKTimeIntervalTextTransformation/Classes/TimeInterval+NKTimeIntervalDateComponents.swift:46-53 | every unit is a positive number of seconds (the eight lengths themselves are the definition, from 1 for seconds to 3153600000 for centuries) |
| Interval.UnitsDecrease | NKTimeIntervalTextTransformation/Classes/TimeInterval+NKTimeIntervalDateComponents.swift:46-53 | a coarser unit is strictly longer than a finer one |
| Interval.Magnitude | NKTimeIntervalTextTransformation/Classes/TimeInterval+NKTimeIntervalDateComponents.swift:46-53 | a unit's magnitude is 0 exactly when the duration is shorter than the unit, and has the duration's sign |
| Interval.MagnitudeBounds | NKTimeIntervalTextTransformation/Classes/TimeInterval+NKTimeIntervalDateComponents.swift:46-53 | the magnitude counts the whole units the duration holds |
| Interval.FinerNonZero | NKTimeIntervalTextTransformation/Classes/TimeInterval+NKTimeIntervalDateComponents.swift:46-53 | when a coarser unit's magnitude is nonzero, so is every finer unit's |
| Interval.ZeroDuration | NKTimeIntervalTextTransformation/Classes/TimeInterval+NKTimeIntervalDateComponents.swift:46-53 | a zero duration has magnitude 0 in every unit |
| Interval.PastMinute | NKTimeIntervalTextTransformation/Classes/TimeInterval+NKTimeIntervalDateComponents.swift:46-48 | -65 seconds are -1 minute, -65 seconds and 0 hours |
| Interval.MonthIsFourWeeks | NKTimeIntervalTextTransformation/Classes/TimeInterval+NKTimeIntervalDateComponents.swift:51-52 | a month is four weeks, so one second short of a year is 13 months and 0 years |
| Interval.ValueFor | NKTimeIntervalTextTransformation/Classes/TimeInterval+NKTimeIntervalDateComponents.swift:69-80 | `value(for:)` is the magnitude of the component's own unit |
| Interval.SortedFrom | NKTimeIntervalTextTransformation/Classes/TimeInterval+NKTimeIntervalDateComponents.swift:59 | the members from a position of the order on, each once, in strictly increasing tag order |
| Interval.Sorted | NKTimeIntervalTextTransformation/Classes/TimeInterval+NKTimeIntervalDateComponents.swift:59 | `sorted(by: <)` lists every member once, coarsest first |
| Interval.FirstNonZero | NKTimeIntervalTextTransformation/Classes/TimeInterval+NKTimeIntervalDateComponents.swift:59 | `first(where:)`: every earlier entry has magnitude 0, and the found one does not |
| Interval.Selected | NKTimeIntervalTextTransformation/Classes/TimeInterval+NKTimeIntervalDateComponents.swift:59 | the chosen component is nil exactly when every member's magnitude is 0, and otherwise the member with the lowest tag among those with nonzero magnitude |
| Interval.FirstNonZeroIsCoarsest | NKTimeIntervalTextTransformation/Classes/TimeInterval+NKTimeIntervalDateComponents.swift:59 | in a list sorted coarsest first that holds every member, the first entry of nonzero magnitude is the coarsest such member |
| Interval.SelectedIs | NKTimeIntervalTextTransformation/Classes/TimeInterval+NKTimeIntervalDateComponents.swift:59 | a member with nonzero magnitude and only zero magnitudes above it is the one chosen |
| Interval.SelectedIsGreatestNonZero | NKTimeIntervalTextTransformation/Classes/TimeInterval+NKTimeIntervalDateComponents.swift:59 | the choice equals `greatest()` of the members whose magnitude is not 0 |
| Interval.SubsetKeepsSelection | NKTimeIntervalTextTransformation/Classes/TimeInterval+NKTimeIntervalDateComponents.swift:59 | a smaller set that keeps the chosen member keeps the choice |
| Interval.RemoveOtherKeepsSelection | NKTimeIntervalTextTransformation/Classes/TimeInterval+NKTimeIntervalDateComponents.swift:59 | `removeEqual` of any other case does not change the chosen component |
| Interval.StringRepresentation | NKTimeIntervalTextTransformation/Classes/TimeInterval+NKTimeIntervalDateComponents.swift:56-67 | nil exactly for an empty set; the zero placeholder when every magnitude is 0 or the chosen closure declines; otherwise the chosen closure's form rendered into the past template for a negative duration and the future one otherwise |
| Interval.ZeroIsPlaceholder | NKTimeIntervalTextTransformation/Classes/TimeInterval+NKTimeIntervalDateComponents.swift:62-64 | a zero duration gives the placeholder whenever components are configured |
| Interval.CoarsestReached | NKTimeIntervalTextTransformation/Classes/TimeInterval+NKTimeIntervalDateComponents.swift:46-53 | a nonzero duration has nonzero magnitude in its coarsest reached unit and zero in every coarser one |
| Interval.RepresentationInUnit | NKTimeIntervalTextTransformation/Classes/TimeInterval+NKTimeIntervalDateComponents.swift:56-67 | with a preset's templates and the chosen member carrying the preset closure, the result is the preset phrase in that unit |
| Interval.PresetRepresentation | NKTimeIntervalTextTransformation/Classes/TimeInterval+NKTimeIntervalDateComponents.swift:56-67 | a preset configuration phrases every nonzero duration in the coarsest unit it reaches, as `PresetPhrase` spells out |
| Interval.ScenarioUnits | NKTimeIntervalTextTransformation/Classes/TimeInterval+NKTimeIntervalDateComponents.swift:46-53 | the coarsest unit and magnitude of -65, 3600, 7200, 1260, -180, -720, 86400 and 60 seconds |
| Interval.EnglishMinuteAgo | NKTimeIntervalTextTransformation/Classes/NKTextTimeIntervalConfiguration+DefaultValues.swift:49-52 | English, -65 seconds: "a minute ago" |
| Interval.EnglishInAnHour | NKTimeIntervalTextTransformation/Classes/NKTextTimeIntervalConfiguration+DefaultValues.swift:45-48 | English, 3600 seconds: "in an hour" |
| Interval.EnglishInTwoHours | NKTimeIntervalTextTransformation/Classes/NKTextTimeIntervalConfiguration+DefaultValues.swift:45-48 | English, 7200 seconds: "in 2 hours" |
| Interval.RussianIn21Minutes | NKTimeIntervalTextTransformation/Classes/NKTextTimeIntervalConfiguration+DefaultValues.swift:113-118 | Russian, 1260 seconds: "через 21 минуту" |
| Interval.Russian3MinutesAgo | NKTimeIntervalTextTransformation/Classes/NKTextTimeIntervalConfiguration+DefaultValues.swift:113-118 | Russian, -180 seconds: "3 минуты назад" |
| Interval.Russian12MinutesAgo | NKTimeIntervalTextTransformation/Classes/NKTextTimeIntervalConfiguration+DefaultValues.swift:113-118 | Russian, -720 seconds: "12 минут назад" |
| Interval.RussianInOneDay | NKTimeIntervalTextTransformation/Classes/NKTextTimeIntervalConfiguration+DefaultValues.swift:101-106 | Russian, 86400 seconds: "через 1 день", the numeral kept for 1 |
| Interval.RussianInAMinute | NKTimeIntervalTextTransformation/Classes/NKTextTimeIntervalConfiguration+DefaultValues.swift:113-118 | Russian, 60 seconds: "через минуту", the numeral dropped for 1 |
| Interval.PresetExamples | NKTimeIntervalTextTransformation/Classes/TimeInterval+NKTimeIntervalDateComponents.swift:56-67 | preset configurations return "a minute ago", "in an hour", "now" for 0, "через 21 минуту" and "через 1 день" |
| Interval.FortyDays | NKTimeIntervalTextTransformation/Classes/TimeInterval+NKTimeIntervalDateComponents.swift:50-53 | forty days are 0 centuries, 0 years, 1 month and 5 weeks |
| Interval.InFiveWeeks | NKTimeIntervalTextTransformation/Classes/TimeInterval+NKTimeIntervalDateComponents.swift:50 | forty days ahead in English weeks: "in 5 weeks" |
| Interval.WeeksSelectedWithoutMonths | NKTimeIntervalTextTransformation/Classes/TimeInterval+NKTimeIntervalDateComponents.swift:59 | with months removed from the English preset, forty days choose the weeks member |
| Interval.WeeksWithoutMonths | NKTimeIntervalTextTransformation/Classes/TimeInterval+NKTimeIntervalDateComponents.swift:56-67 | with months removed from the English preset, forty days ahead read "in 5 weeks" |
| CalendarComponents.ComponentBy | NKTimeIntervalTextTransformation/Classes/Private/Calendar.Component+Extensions.swift:12-22 | `component(by:)` is nil exactly for weeks and centuries and otherwise the calendar component of the same unit |
| CalendarComponents.ComponentByOnto | NKTimeIntervalTextTransformation/Classes/Private/Calendar.Component+Extensions.swift:12-22 | each of .year, .month, .day, .hour, .minute and .second is the image of its unit |
| CalendarComponents.ComponentByInjective | NKTimeIntervalTextTransformation/Classes/Private/Calendar.Component+Extensions.swift:12-19 | two cases with the same calendar component are `==` |
| CalendarComponents.AvailableComponents | NKTimeIntervalTextTransformation/Classes/Private/Calendar.Component+Extensions.swift:28-30 | `availableComponents(by:)` is exactly the set of calendar components of the configured units that have one |
| CalendarComponents.AvailableEmpty | NKTimeIntervalTextTransformation/Classes/Private/Calendar.Component+Extensions.swift:28-30 | `availableComponents(by:)` is empty exactly when the set holds nothing but weeks and centuries |
| DateComponents.ValueFor | NKTimeIntervalTextTransformation/Classes/Private/DateComponents+Extensions.swift:21-30 | centuries are the year value over 100 and weeks the day value over 7, truncated toward zero with a missing value read as 0; the other six cases read their calendar component and are nil when it is missing |
| DateComponents.ValueForGreatestDateComponent | NKTimeIntervalTextTransformation/Classes/Private/DateComponents+Extensions.swift:11-18 | (nil, 0) exactly when every member's value is 0; otherwise the coarsest member whose value is not 0 (nil counts as not 0), paired with its value or 0 |
| DateComponents.RequestedValuesAreNonZero | NKTimeIntervalTextTransformation/Classes/Private/DateComponents+Extensions.swift:11-18 | when the difference holds every requested calendar component, a chosen member comes with a nonzero value |
| DateComponents.MissingValueIsSelected | NKTimeIntervalTextTransformation/Classes/Private/DateComponents+Extensions.swift:13-17 | a missing value counts as nonzero: with only a day value, years are chosen, paired with 0 |
| DateComponents.CenturiesNeedYears | NKTimeIntervalTextTransformation/Classes/Private/DateComponents+Extensions.swift:22-24 | without a year value the centuries value is 0 |
| DateComponents.WeeksFromDays | NKTimeIntervalTextTransformation/Classes/Private/DateComponents+Extensions.swift:25-27 | 20 days are 2 weeks and -20 days are -2 weeks |
| Options.Option.GetOr | NKTimeIntervalTextTransformation/Classes/Private/DateComponents+Extensions.swift:15 | Swift's `??`: the wrapped value, or the default for nil; `DateComponents.ValueFor` and `DateComponents.ValueForGreatestDateComponent` state it in use |

## Left out

- Date entry points: both `Date+NKTimeIntervalTextTransformable.swift` files read the clock (`Date()`), and the one in `Classes/` also reads Foundation's calendar (`Calendar.current.dateComponents`). They are not modelled. The calendar difference is a parameter of `DateComponents`, and `Calendar.dateComponents` is not part of this model.
- Numerics.Abs: Swift's `abs` traps for `Int.min`, whose negation does not fit in `Int`; the model's integers are unbounded, so `Abs` is total and this trap (reachable through `formatedString` at `NKTextTimeIntervalConfiguration.swift:92`) is not modelled.
- Interval.Magnitude: durations are whole seconds. `Int(self / k)` on a fractional or very large `Double`, and a trap on overflow, are not modelled.
- `Set.nkComponent(with:)` looks a member up by Foundation's hash value of the case. The model has only the hash value of `NKDateComponent` itself (`DateComponent.NKDateComponent.HashValue`), and a set keyed by unit, where `Member` is that lookup.
- FieldConfiguration.FieldConfiguration: the declaration of the field-based configuration type is not part of this model. Its fields are the ones the installers in `NKTextTimeIntervalConfiguration+Default.swift` assign. The installers' rule assignments are the method `SetupRules`.
- The set extension exists twice, in `Classes/` and `Classes/Extensions/`. Both copies have the same bodies and are modelled once; each `ComponentSet` row cites the first copy and names the lines of the second.
- The presets exist three times: as static constructors, as set-based mutating installers and as field-based installers. They have the same rules and templates, so they are modelled once in `Presets`, with `Configuration.NKTextTimeIntervalConfiguration.Default` and the two `SetupDefault` methods installing them.
- Configuration.NKTextTimeIntervalConfiguration.SetupDefault: the installers' eight `insert` calls are written as one loop over the preset's insertion order. The eight units are distinct and `insert` keeps a member already present, so the result is the same for every order.
- Configuration.NKTextTimeIntervalConfiguration: the Swift type is a struct, a value; the model makes it a class, so copies share state. No modelled operation copies a configuration, so no aliasing arises.
- ComponentSet.RemoveEqual: `removeEqual(to:)` mutates the set in place. It is modelled as a function from the old set to the new one; Swift sets are values, so no aliasing is lost.
- Text.ReplaceAll: strings are sequences of Unicode scalars. Foundation's grapheme-cluster and normalisation rules in `replacingOccurrences` are not modelled; the templates and labels use no combining characters.
- `NKTimeIntervalTextTransformable.swift` is the older cascade over the field-based configuration: it reads the clock (`Date()`, `timeIntervalSince`) and tries years, months, weeks, days, hours, minutes and seconds in turn through `config.string(for:with:)`, on `Double` counts. It is not modelled.
- `TimeInterval+DateComponents.swift` and `Extensions/TimeInterval+NKTimeIntervalDateComponents.swift` declare the `Double` getters `seconds` ... `centuries` that this cascade reads; they are left out with it.
- The example application is not part of the library and is not modelled.
