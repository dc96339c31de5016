/**
 * `TimeInterval` as `NKTimeIntervalDateComponents`: the duration in each unit, truncated toward
 * zero, and `stringRepresentation(by:)`, which phrases the duration in the coarsest configured
 * unit whose magnitude is not zero. Durations are whole seconds.
 */
module Interval {
  import opened Options
  import opened Numerics
  import opened DateComponent
  import opened ComponentSet
  import opened Text
  import opened Phrase
  import opened Presets
  import opened Configuration

  /** Seconds per unit as the getters write them: a month is four weeks, a year 365 days. */
  function UnitSeconds(k: Kind): (u: nat)
    ensures u > 0
  {
    match k
    case Century => 3600 * 24 * 365 * 100
    case Year => 3600 * 24 * 365
    case Month => 3600 * 24 * 7 * 4
    case Week => 3600 * 24 * 7
    case Day => 3600 * 24
    case Hour => 3600
    case Minute => 60
    case Second => 1
  }

  /** A coarser unit is strictly longer than a finer one. */
  lemma UnitsDecrease(a: Kind, b: Kind)
    requires Tag(a) < Tag(b)
    ensures UnitSeconds(b) < UnitSeconds(a)
  {
  }

  /**
   * `nkSeconds` ... `nkCenturies`: the duration divided by the unit and truncated toward zero.
   * The magnitude is zero exactly when the duration is shorter than one unit, has the
   * duration's sign, and counts the whole units the duration holds.
   */
  function Magnitude(d: int, k: Kind): (m: int)
    ensures m == 0 <==> Abs(d) < UnitSeconds(k)
    ensures m > 0 ==> d > 0
    ensures m < 0 ==> d < 0
  {
    TruncDiv(d, UnitSeconds(k))
  }

  /** The magnitude counts the whole units the duration holds. */
  lemma MagnitudeBounds(d: int, k: Kind)
    ensures Abs(Magnitude(d, k)) * UnitSeconds(k) <= Abs(d) < Abs(Magnitude(d, k)) * UnitSeconds(k) + UnitSeconds(k)
  {
    TruncDivBounds(d, UnitSeconds(k));
  }

  /** If a coarser unit's magnitude is not zero, neither is any finer unit's. */
  lemma {:induction false} FinerNonZero(d: int, a: Kind, b: Kind)
    requires Tag(a) <= Tag(b) && Magnitude(d, a) != 0
    ensures Magnitude(d, b) != 0
  {
    if Tag(a) < Tag(b) {
      UnitsDecrease(a, b);
    } else {
      assert Order[Tag(a)] == a && Order[Tag(b)] == b;
    }
  }

  /** A zero duration has magnitude zero in every unit. */
  lemma ZeroDuration(k: Kind)
    ensures Magnitude(0, k) == 0
  {
  }

  /** Sixty-five seconds ago is one minute ago, not two. */
  lemma PastMinute()
    ensures Magnitude(-65, Minute) == -1 && Magnitude(-65, Second) == -65 && Magnitude(-65, Hour) == 0
  {
  }

  /** A month is four weeks, so one second short of a year is thirteen months. */
  lemma MonthIsFourWeeks()
    ensures Magnitude(31535999, Year) == 0 && Magnitude(31535999, Month) == 13
  {
    assert 13 * 2419200 <= 31535999 < 14 * 2419200;
  }

  /** `value(for:)`: the magnitude belonging to the component's case. */
  function ValueFor(d: int, c: NKDateComponent): (v: int)
    ensures v == Magnitude(d, c.KindOf())
  {
    match c
    case Centuries(_) => Magnitude(d, Century)
    case Years(_) => Magnitude(d, Year)
    case Months(_) => Magnitude(d, Month)
    case Weeks(_) => Magnitude(d, Week)
    case Days(_) => Magnitude(d, Day)
    case Hours(_) => Magnitude(d, Hour)
    case Minutes(_) => Magnitude(d, Minute)
    case Seconds(_) => Magnitude(d, Second)
  }

  /** The kinds in `s` from position `i` of the order on, coarsest first. */
  function SortedFrom(s: set<Kind>, i: nat): (r: seq<Kind>)
    requires i <= |Order|
    ensures forall j :: 0 <= j < |r| ==> r[j] in s && i <= Tag(r[j])
    ensures forall j, l :: 0 <= j < l < |r| ==> Tag(r[j]) < Tag(r[l])
    ensures forall k :: k in s && i <= Tag(k) ==> k in r
    decreases |Order| - i
  {
    if i == |Order| then
      []
    else
      TagOfOrder(i);
      var rest := SortedFrom(s, i + 1);
      assert forall k :: Tag(k) == i ==> k == Order[i];
      if Order[i] in s then [Order[i]] + rest else rest
  }

  /**
   * `components.sorted(by: <)`: each member once, coarsest first. Members are listed by kind;
   * the member itself is `Member(s, k)`.
   */
  function Sorted(s: ComponentSet): (r: seq<Kind>)
    ensures forall j :: 0 <= j < |r| ==> r[j] in s
    ensures forall j, l :: 0 <= j < l < |r| ==> Tag(r[j]) < Tag(r[l])
    ensures forall k :: k in s ==> k in r
  {
    SortedFrom(s.Keys, 0)
  }

  /** `first(where: { value(for: $0) != 0 })`: the index of the first kind of nonzero magnitude, or `|ks|`. */
  function FirstNonZero(d: int, ks: seq<Kind>): (i: nat)
    ensures i <= |ks|
    ensures forall j :: 0 <= j < i ==> Magnitude(d, ks[j]) == 0
    ensures i < |ks| ==> Magnitude(d, ks[i]) != 0
    decreases |ks|
  {
    if ks == [] then 0
    else if Magnitude(d, ks[0]) != 0 then 0
    else 1 + FirstNonZero(d, ks[1..])
  }

  /**
   * The component `stringRepresentation` phrases: the coarsest member of `s` whose magnitude
   * is not zero, or none when every member's magnitude is zero.
   */
  function Selected(d: int, s: ComponentSet): (r: Option<NKDateComponent>)
    ensures r.None? <==> forall k :: k in s ==> Magnitude(d, k) == 0
    ensures r.Some? ==> IsMember(s, r.value) && ValueFor(d, r.value) != 0
    ensures r.Some? ==> forall k :: k in s && Magnitude(d, k) != 0 ==> Tag(r.value.KindOf()) <= Tag(k)
  {
    var ks := Sorted(s);
    var i := FirstNonZero(d, ks);
    if i < |ks| then
      FirstNonZeroIsCoarsest(d, s, ks, i);
      Some(Member(s, ks[i]))
    else
      assert forall k :: k in s ==> Magnitude(d, k) == 0 by {
        forall k | k in s ensures Magnitude(d, k) == 0 {
          var j :| 0 <= j < |ks| && ks[j] == k;
        }
      }
      None
  }

  /** In a list sorted coarsest first that holds every member of `s`, the first kind of nonzero magnitude is the coarsest such member. */
  lemma FirstNonZeroIsCoarsest(d: int, s: ComponentSet, ks: seq<Kind>, i: nat)
    requires forall j, l :: 0 <= j < l < |ks| ==> Tag(ks[j]) < Tag(ks[l])
    requires forall k :: k in s ==> k in ks
    requires i < |ks| && forall j :: 0 <= j < i ==> Magnitude(d, ks[j]) == 0
    ensures forall k :: k in s && Magnitude(d, k) != 0 ==> Tag(ks[i]) <= Tag(k)
  {
    forall k | k in s && Magnitude(d, k) != 0 ensures Tag(ks[i]) <= Tag(k) {
      var j :| 0 <= j < |ks| && ks[j] == k;
      if i < j {
        assert Tag(ks[i]) < Tag(ks[j]);
      } else if j < i {
        assert false;
      }
    }
  }

  /** A member of `s` with nonzero magnitude and only zero magnitudes above it is the one selected. */
  lemma SelectedIs(d: int, s: ComponentSet, k: Kind)
    requires k in s && Magnitude(d, k) != 0
    requires forall k' :: k' in s && Tag(k') < Tag(k) ==> Magnitude(d, k') == 0
    ensures Selected(d, s) == Some(Member(s, k))
  {
    var r := Selected(d, s);
    assert r.Some?;
    var c := r.value;
    assert Tag(c.KindOf()) <= Tag(k);
    assert c.KindOf() in s && Magnitude(d, c.KindOf()) != 0;
    assert Tag(c.KindOf()) == Tag(k);
    assert c.KindOf() == k by {
      assert Order[Tag(c.KindOf())] == c.KindOf() && Order[Tag(k)] == k;
    }
    RuleRoundTrip(c);
  }

  /** The selection agrees with the set query: the greatest of the members whose magnitude is not zero. */
  lemma SelectedIsGreatestNonZero(d: int, s: ComponentSet)
    ensures Selected(d, s) == Greatest(Filter(s, c => ValueFor(d, c) != 0))
  {
    var f := Filter(s, c => ValueFor(d, c) != 0);
    var g := Greatest(f);
    var r := Selected(d, s);
    if r.Some? {
      var k := r.value.KindOf();
      assert k in f;
      var gk := g.value.KindOf();
      assert Order[Tag(gk)] == gk && Order[Tag(k)] == k;
      RuleRoundTrip(r.value);
      RuleRoundTrip(g.value);
    }
  }

  /** A subset that keeps the selected member, with its rule, keeps the selection. */
  lemma SubsetKeepsSelection(d: int, s: ComponentSet, t: ComponentSet, k: Kind)
    requires Selected(d, s).Some? && Selected(d, s).value.KindOf() == k
    requires t.Keys <= s.Keys && k in t && t[k] == s[k]
    ensures Selected(d, t) == Selected(d, s)
  {
    forall k' | k' in t && Tag(k') < Tag(k) ensures Magnitude(d, k') == 0 {
      assert k' in s;
    }
    SelectedIs(d, s, k);
    SelectedIs(d, t, k);
  }

  /** Removing a member other than the selected one does not change the selection. */
  lemma RemoveOtherKeepsSelection(d: int, s: ComponentSet, c: NKDateComponent)
    requires Selected(d, s).Some? && !Eq(c, Selected(d, s).value)
    ensures Selected(d, RemoveEqual(s, c)) == Selected(d, s)
  {
    var k := Selected(d, s).value.KindOf();
    RemoveKeepsOthers(s, c, k);
    SubsetKeepsSelection(d, s, RemoveEqual(s, c), k);
  }

  /**
   * `stringRepresentation(by:)`: the chosen component's phrase; the zero placeholder when every
   * configured magnitude is zero or when the chosen rule declines; nil only without components.
   */
  function StringRepresentation(d: int, config: NKTextTimeIntervalConfiguration): (r: Option<string>)
    reads config
    ensures r.None? <==> config.components == map[]
    ensures config.components != map[] && (forall k :: k in config.components ==> Magnitude(d, k) == 0) ==>
              r == Some(config.zeroTimeIntervalPlaceholder)
    ensures Selected(d, config.components).Some? ==>
              var c := Selected(d, config.components).value;
              var v := ValueFor(d, c);
              match c.rule(Abs(v))
              case None => r == Some(config.zeroTimeIntervalPlaceholder)
              case Some(form) => r == Some(Render(if d < 0 then config.pastFormat else config.futureFormat, form, Abs(v)))
  {
    match Selected(d, config.components)
    case None =>
      if |config.components| > 0 then Some(config.zeroTimeIntervalPlaceholder) else None
    case Some(c) =>
      Some(config.FormatedString(Some(c.rule), ValueFor(d, c)).GetOr(config.zeroTimeIntervalPlaceholder))
  }

  /** A zero duration is the placeholder when components are configured. */
  lemma ZeroIsPlaceholder(config: NKTextTimeIntervalConfiguration)
    requires config.components != map[]
    ensures StringRepresentation(0, config) == Some(config.zeroTimeIntervalPlaceholder)
  {
  }

  /** The coarsest unit the duration reaches, by comparing it with each unit's length in turn. */
  function Coarsest(d: int): Kind {
    var a := Abs(d);
    if a >= 3153600000 then Century
    else if a >= 31536000 then Year
    else if a >= 2419200 then Month
    else if a >= 604800 then Week
    else if a >= 86400 then Day
    else if a >= 3600 then Hour
    else if a >= 60 then Minute
    else Second
  }

  /** A nonzero duration reaches its coarsest unit and no coarser one. */
  lemma {:induction false} CoarsestReached(d: int)
    requires d != 0
    ensures Magnitude(d, Coarsest(d)) != 0
    ensures forall k :: Tag(k) < Tag(Coarsest(d)) ==> Magnitude(d, k) == 0
  {
    var c := Coarsest(d);
    forall k | Tag(k) < Tag(c) ensures Magnitude(d, k) == 0 {
      assert Abs(d) < UnitSeconds(k);
    }
  }

  /** The phrase a preset gives for duration `d` in unit `k`, whose magnitude is not zero. */
  function UnitPhrase(lang: Language, d: int, k: Kind): string
    requires Magnitude(d, k) != 0
  {
    var n := Abs(Magnitude(d, k));
    PresetRuleShape(lang, k, n);
    TemplatePhrase(lang, PresetRule(lang, k)(n).value, n, d < 0)
  }

  /** The phrase a preset gives for a nonzero duration: the phrase in the coarsest unit the duration reaches. */
  function PresetPhrase(lang: Language, d: int): string
    requires d != 0
  {
    CoarsestReached(d);
    UnitPhrase(lang, d, Coarsest(d))
  }

  /**
   * With a preset's templates, when the selected member carries that preset's rule, the
   * representation is the preset's phrase in the selected unit.
   */
  lemma {:induction false} RepresentationInUnit(d: int, config: NKTextTimeIntervalConfiguration, lang: Language, k: Kind)
    requires config.pastFormat == PastFormat(lang) && config.futureFormat == FutureFormat(lang)
    requires Selected(d, config.components).Some? && Selected(d, config.components).value.KindOf() == k
    requires Selected(d, config.components).value.rule == PresetRule(lang, k)
    ensures Magnitude(d, k) != 0
    ensures StringRepresentation(d, config) == Some(UnitPhrase(lang, d, k))
  {
    PresetRender(lang, k, Abs(Magnitude(d, k)), d < 0);
  }

  /** A preset configuration phrases every nonzero duration in its coarsest unit, as `PresetPhrase` spells out. */
  lemma {:induction false} PresetRepresentation(d: int, config: NKTextTimeIntervalConfiguration, lang: Language)
    requires config.IsPreset(lang) && d != 0
    ensures StringRepresentation(d, config) == Some(PresetPhrase(lang, d))
  {
    var k := Coarsest(d);
    CoarsestReached(d);
    SelectedIs(d, config.components, k);
    RepresentationInUnit(d, config, lang, k);
  }

  /** The coarsest unit and its magnitude for the durations of the examples below. */
  lemma ScenarioUnits()
    ensures Coarsest(-65) == Minute && Magnitude(-65, Minute) == -1
    ensures Coarsest(3600) == Hour && Magnitude(3600, Hour) == 1
    ensures Coarsest(7200) == Hour && Magnitude(7200, Hour) == 2
    ensures Coarsest(1260) == Minute && Magnitude(1260, Minute) == 21
    ensures Coarsest(-180) == Minute && Magnitude(-180, Minute) == -3
    ensures Coarsest(-720) == Minute && Magnitude(-720, Minute) == -12
    ensures Coarsest(86400) == Day && Magnitude(86400, Day) == 1
    ensures Coarsest(60) == Minute && Magnitude(60, Minute) == 1
  {
  }

  /** English, sixty-five seconds ago: "a minute ago". */
  lemma EnglishMinuteAgo()
    ensures PresetPhrase(English, -65) == "a minute ago"
  {
    ScenarioUnits();
    assert PresetRule(English, Minute)(1) == Some(Form("a minute", false));
  }

  /** English, an hour ahead: "in an hour". */
  lemma EnglishInAnHour()
    ensures PresetPhrase(English, 3600) == "in an hour"
  {
    ScenarioUnits();
    assert PresetRule(English, Hour)(1) == Some(Form("an hour", false));
  }

  /** English, two hours ahead: "in 2 hours". */
  lemma EnglishInTwoHours()
    ensures PresetPhrase(English, 7200) == "in 2 hours"
  {
    ScenarioUnits();
    assert PresetRule(English, Hour)(2) == Some(Form("hours", true));
    assert Decimal(2) == "2";
  }

  /** Russian, 21 minutes ahead: "через 21 минуту". */
  lemma RussianIn21Minutes()
    ensures PresetPhrase(Russian, 1260) == "через 21 минуту"
  {
    ScenarioUnits();
    assert PresetRule(Russian, Minute)(21) == Some(Form("минуту", true));
    assert Decimal(21) == "21";
  }

  /** Russian, three minutes ago: "3 минуты назад". */
  lemma Russian3MinutesAgo()
    ensures PresetPhrase(Russian, -180) == "3 минуты назад"
  {
    ScenarioUnits();
    assert PresetRule(Russian, Minute)(3) == Some(Form("минуты", true));
    assert Decimal(3) == "3";
  }

  /** Russian, twelve minutes ago: "12 минут назад". */
  lemma Russian12MinutesAgo()
    ensures PresetPhrase(Russian, -720) == "12 минут назад"
  {
    ScenarioUnits();
    assert PresetRule(Russian, Minute)(12) == Some(Form("минут", true));
    assert Decimal(12) == "12";
  }

  /** Russian, one day ahead: "через 1 день", the numeral kept. */
  lemma RussianInOneDay()
    ensures PresetPhrase(Russian, 86400) == "через 1 день"
  {
    ScenarioUnits();
    assert PresetRule(Russian, Day)(1) == Some(Form("день", true));
    assert Decimal(1) == "1";
  }

  /** Russian, one minute ahead: "через минуту", the numeral dropped. */
  lemma RussianInAMinute()
    ensures PresetPhrase(Russian, 60) == "через минуту"
  {
    ScenarioUnits();
    assert PresetRule(Russian, Minute)(1) == Some(Form("минуту", false));
  }

  /** A preset configuration writes these phrases, and its placeholder for a zero duration. */
  lemma PresetExamples(english: NKTextTimeIntervalConfiguration, russian: NKTextTimeIntervalConfiguration)
    requires english.IsPreset(English) && russian.IsPreset(Russian)
    ensures StringRepresentation(-65, english) == Some("a minute ago")
    ensures StringRepresentation(3600, english) == Some("in an hour")
    ensures StringRepresentation(0, english) == Some("now")
    ensures StringRepresentation(1260, russian) == Some("через 21 минуту")
    ensures StringRepresentation(86400, russian) == Some("через 1 день")
  {
    PresetRepresentation(-65, english, English);
    EnglishMinuteAgo();
    PresetRepresentation(3600, english, English);
    EnglishInAnHour();
    ZeroIsPlaceholder(english);
    PresetRepresentation(1260, russian, Russian);
    RussianIn21Minutes();
    PresetRepresentation(86400, russian, Russian);
    RussianInOneDay();
  }

  /** Forty days reach no century, no year, one month and five weeks. */
  lemma FortyDays()
    ensures Magnitude(3456000, Century) == 0 && Magnitude(3456000, Year) == 0
    ensures Magnitude(3456000, Month) == 1 && Magnitude(3456000, Week) == 5
  {
  }

  /** Five weeks ahead, in English: "in 5 weeks". */
  lemma InFiveWeeks()
    ensures Magnitude(3456000, Week) == 5
    ensures UnitPhrase(English, 3456000, Week) == "in 5 weeks"
  {
    FortyDays();
    assert PresetRule(English, Week)(5) == Some(Form("weeks", true));
    assert Decimal(5) == "5";
  }

  /** Without months, forty days select the weeks member of the English preset. */
  lemma WeeksSelectedWithoutMonths(s: ComponentSet)
    requires s == RemoveEqual(PresetComponents(English), Months(PresetRule(English, Month)))
    ensures Selected(3456000, s).Some? && Selected(3456000, s).value.KindOf() == Week
    ensures Selected(3456000, s).value.rule == PresetRule(English, Week)
  {
    FortyDays();
    assert Month !in s && Week in s && s[Week] == PresetRule(English, Week);
    forall k | k in s && Tag(k) < Tag(Week) ensures Magnitude(3456000, k) == 0 {
      assert k == Century || k == Year;
    }
    SelectedIs(3456000, s, Week);
  }

  /** Without months, forty days ahead is counted in weeks: five of them. */
  lemma WeeksWithoutMonths(config: NKTextTimeIntervalConfiguration)
    requires config.pastFormat == PastFormat(English) && config.futureFormat == FutureFormat(English)
    requires config.components == RemoveEqual(PresetComponents(English), Months(PresetRule(English, Month)))
    ensures StringRepresentation(3456000, config) == Some("in 5 weeks")
  {
    WeeksSelectedWithoutMonths(config.components);
    RepresentationInUnit(3456000, config, English, Week);
    InFiveWeeks();
  }
}
