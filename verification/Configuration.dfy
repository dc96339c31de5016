/**
 * `NKTextTimeIntervalConfiguration`: the zero placeholder, the two templates and the set of
 * units with their declension rules, plus the preset installers. The type is a struct whose
 * `mutating` setters change its fields in place, so it is a class here.
 */
module Configuration {
  import opened Options
  import opened Numerics
  import opened DateComponent
  import opened ComponentSet
  import opened Text
  import opened Phrase
  import opened Presets

  class NKTextTimeIntervalConfiguration {
    var zeroTimeIntervalPlaceholder: string
    var pastFormat: string
    var futureFormat: string
    var components: ComponentSet

    /** `init()`: empty placeholder, empty templates, no units. */
    constructor()
      ensures zeroTimeIntervalPlaceholder == "" && pastFormat == "" && futureFormat == ""
      ensures components == map[]
    {
      zeroTimeIntervalPlaceholder := "";
      pastFormat := "";
      futureFormat := "";
      components := map[];
    }

    /** The configuration holds exactly what the preset for `lang` installs into an empty one. */
    ghost predicate IsPreset(lang: Language)
      reads this
    {
      zeroTimeIntervalPlaceholder == Placeholder(lang) && pastFormat == PastFormat(lang)
      && futureFormat == FutureFormat(lang) && components == PresetComponents(lang)
    }

    /**
     * `formatedString(for:with:)`: nil without a rule or when the rule declines the magnitude;
     * otherwise the past template for a negative value and the future template for any other,
     * rendered with the rule's form for the magnitude.
     */
    function FormatedString(rule: Option<Rule>, value: int): (r: Option<string>)
      reads this
      ensures r.None? <==> rule.None? || rule.value(Abs(value)).None?
      ensures r.Some? ==>
                r.value == Render(if value < 0 then pastFormat else futureFormat, rule.value(Abs(value)).value, Abs(value))
    {
      match rule
      case None => None
      case Some(declension) =>
        match declension(Abs(value))
        case None => None
        case Some(form) =>
          var format := if value < 0 then pastFormat else futureFormat;
          Some(Render(format, form, Abs(value)))
    }

    /**
     * `setupDefaultEnglish()`, `setupDefaultRussian()`, `setupDefaultUkrainian()`: set the
     * placeholder and templates, then `components.insert` each of the eight preset units in the
     * preset's order. A unit already present keeps its own rule, because inserting an element
     * equal to a member leaves a set as it was.
     */
    method SetupDefault(lang: Language)
      modifies this
      ensures zeroTimeIntervalPlaceholder == Placeholder(lang)
      ensures pastFormat == PastFormat(lang) && futureFormat == FutureFormat(lang)
      ensures components == InsertAll(old(components), PresetComponents(lang))
    {
      pastFormat := PastFormat(lang);
      zeroTimeIntervalPlaceholder := Placeholder(lang);
      futureFormat := FutureFormat(lang);
      ghost var s0 := components;
      var order := InsertionOrder(lang);
      for i := 0 to |order|
        modifies this`components
        invariant components == InsertAll(s0, PresetPart(lang, order[..i]))
      {
        InsertPresetStep(lang, s0, order, i);
        components := Insert(components, Make(order[i], PresetRule(lang, order[i])));
      }
      assert order[..|order|] == order;
      PresetPartComplete(lang, order);
    }

    /**
     * `defaultEnglish()`, `defaultRussian()`, `defaultUkrainian()`: a new configuration holding
     * exactly the preset.
     */
    static method Default(lang: Language) returns (config: NKTextTimeIntervalConfiguration)
      ensures fresh(config) && config.IsPreset(lang)
    {
      config := new NKTextTimeIntervalConfiguration();
      config.SetupDefault(lang);
      InsertAllIntoEmpty(PresetComponents(lang));
    }
  }

  /**
   * With a preset's templates and rule, `formatedString` is nil for a zero value (the preset
   * rules decline zero) and otherwise the preset's phrase: past for a negative value, future
   * for a positive one.
   */
  lemma PresetFormatedString(config: NKTextTimeIntervalConfiguration, lang: Language, k: Kind, value: int)
    requires config.pastFormat == PastFormat(lang) && config.futureFormat == FutureFormat(lang)
    ensures value == 0 ==> config.FormatedString(Some(PresetRule(lang, k)), value).None?
    ensures value != 0 ==>
              config.FormatedString(Some(PresetRule(lang, k)), value)
              == Some(TemplatePhrase(lang, PresetRule(lang, k)(Abs(value)).value, Abs(value), value < 0))
  {
    PresetRuleShape(lang, k, Abs(value));
    if value != 0 {
      PresetRender(lang, k, Abs(value), value < 0);
    }
  }

  /**
   * With a preset's templates, any rule whose form has a plain word gives that preset's phrase:
   * past for a negative value and future for every other value, zero included.
   */
  lemma FormatedStringInPresetTemplates(config: NKTextTimeIntervalConfiguration, lang: Language, rule: Rule, value: int)
    requires config.pastFormat == PastFormat(lang) && config.futureFormat == FutureFormat(lang)
    requires rule(Abs(value)).Some? && PlainWord(rule(Abs(value)).value.name)
    ensures config.FormatedString(Some(rule), value)
         == Some(TemplatePhrase(lang, rule(Abs(value)).value, Abs(value), value < 0))
  {
    TemplateWordsPlain(lang);
    if value < 0 {
      RenderPast(PastWord(lang), rule(Abs(value)).value, Abs(value));
    } else {
      RenderFuture(FutureWord(lang), rule(Abs(value)).value, Abs(value));
    }
  }

  /** A rule that answers for zero takes the future template: zero reads "in 0 things", not the placeholder. */
  lemma ZeroTakesFutureTemplate(config: NKTextTimeIntervalConfiguration, rule: Rule)
    requires config.pastFormat == PastFormat(English) && config.futureFormat == FutureFormat(English)
    requires rule(0) == Some(Form("things", true))
    ensures config.FormatedString(Some(rule), 0) == Some("in 0 things")
  {
    ThingsPhrase();
    FormatedStringInPresetTemplates(config, English, rule, 0);
  }

  /** "things" is a plain word, and the English future phrase for it at zero is "in 0 things". */
  lemma ThingsPhrase()
    ensures PlainWord("things")
    ensures TemplatePhrase(English, Form("things", true), 0, false) == "in 0 things"
  {
    assert Spaceless("things");
    NoSpacePlain("things");
    assert Decimal(0) == "0";
    assert Join("in", Join("0", "things")) == "in 0 things";
  }

  /** The preset rules of the kinds listed in `ks`. */
  function PresetPart(lang: Language, ks: seq<Kind>): (s: ComponentSet)
    ensures forall k :: k in s <==> k in ks
    ensures forall k :: k in s ==> s[k] == PresetRule(lang, k)
  {
    map k | k in ks :: PresetRule(lang, k)
  }

  /** Inserting the next preset unit of `ks` extends the part of the preset already inserted. */
  lemma InsertPresetStep(lang: Language, s0: ComponentSet, ks: seq<Kind>, i: nat)
    requires i < |ks|
    ensures Insert(InsertAll(s0, PresetPart(lang, ks[..i])), Make(ks[i], PresetRule(lang, ks[i])))
         == InsertAll(s0, PresetPart(lang, ks[..i + 1]))
  {
    assert ks[..i + 1] == ks[..i] + [ks[i]];
    var r := Insert(InsertAll(s0, PresetPart(lang, ks[..i])), Make(ks[i], PresetRule(lang, ks[i])));
    InsertAllPointwise(r, s0, PresetPart(lang, ks[..i + 1]));
  }

  /** A list of every kind yields the whole preset. */
  lemma PresetPartComplete(lang: Language, ks: seq<Kind>)
    requires forall k :: k in ks
    ensures PresetPart(lang, ks) == PresetComponents(lang)
  {
  }
}
