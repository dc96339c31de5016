/**
 * The field-based configuration: the same placeholder and templates, with the eight units as
 * separate optional rule fields (`seconds` ... `centuries`) instead of a set.
 */
module FieldConfiguration {
  import opened Options
  import opened DateComponent
  import opened Presets

  /**
   * The declaration of this type is not part of this model; its fields are the ones the
   * preset installers assign.
   */
  class FieldConfiguration {
    var zeroTimeIntervalPlaceholder: string
    var pastFormat: string
    var futureFormat: string
    var centuries: Option<Rule>
    var years: Option<Rule>
    var months: Option<Rule>
    var weeks: Option<Rule>
    var days: Option<Rule>
    var hours: Option<Rule>
    var minutes: Option<Rule>
    var seconds: Option<Rule>

    /** The field holding the rule of unit `k`. */
    function RuleFor(k: Kind): Option<Rule>
      reads this
    {
      match k
      case Century => centuries
      case Year => years
      case Month => months
      case Week => weeks
      case Day => days
      case Hour => hours
      case Minute => minutes
      case Second => seconds
    }

    /**
     * `setupDefaultEnglish()`, `setupDefaultRussian()`, `setupDefaultUkrainian()` of the
     * field-based type: set the placeholder and templates and overwrite all eight rules.
     */
    method SetupDefault(lang: Language)
      modifies this
      ensures zeroTimeIntervalPlaceholder == Placeholder(lang)
      ensures pastFormat == PastFormat(lang) && futureFormat == FutureFormat(lang)
      ensures forall k :: RuleFor(k) == Some(PresetRule(lang, k))
    {
      pastFormat := PastFormat(lang);
      zeroTimeIntervalPlaceholder := Placeholder(lang);
      futureFormat := FutureFormat(lang);
      SetupRules(lang);
    }

    /** The rule assignments of the preset installers, seconds first; the three strings stay. */
    method SetupRules(lang: Language)
      modifies this
      ensures zeroTimeIntervalPlaceholder == old(zeroTimeIntervalPlaceholder)
      ensures pastFormat == old(pastFormat) && futureFormat == old(futureFormat)
      ensures seconds == Some(PresetRule(lang, Second)) && minutes == Some(PresetRule(lang, Minute))
      ensures hours == Some(PresetRule(lang, Hour)) && days == Some(PresetRule(lang, Day))
      ensures weeks == Some(PresetRule(lang, Week)) && months == Some(PresetRule(lang, Month))
      ensures years == Some(PresetRule(lang, Year)) && centuries == Some(PresetRule(lang, Century))
    {
      seconds := Some(PresetRule(lang, Second));
      minutes := Some(PresetRule(lang, Minute));
      hours := Some(PresetRule(lang, Hour));
      days := Some(PresetRule(lang, Day));
      weeks := Some(PresetRule(lang, Week));
      months := Some(PresetRule(lang, Month));
      years := Some(PresetRule(lang, Year));
      centuries := Some(PresetRule(lang, Century));
    }
  }
}
