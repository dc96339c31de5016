/**
 * The language presets: the English, Russian and Ukrainian declension rules, templates and
 * zero placeholders. All three preset files of the library carry the same words, rules and
 * templates, so they are defined once here and the configuration types install them.
 */
module Presets {
  import opened Options
  import opened DateComponent
  import opened Text
  import opened Phrase

  datatype Language = English | Russian | Ukrainian

  /** `ruleLastOne`: the number ends in 1 but not in 11. */
  predicate LastOne(n: nat) {
    n % 10 == 1 && n % 100 != 11
  }

  /** `ruleLastTwoThreeFour`: the number ends in 2, 3 or 4 but not in 12, 13 or 14. */
  predicate LastTwoThreeFour(n: nat) {
    (n % 10 == 2 && n % 100 != 12) || (n % 10 == 3 && n % 100 != 13) || (n % 10 == 4 && n % 100 != 14)
  }

  /** The three Slavic word forms of a unit: after 1, after 2 to 4, and otherwise. */
  datatype Words = Words(one: string, few: string, many: string)

  /** The English words of a unit: the singular with its article, and the plural. */
  function EnglishWords(k: Kind): (string, string) {
    match k
    case Century => ("a century", "centuries")
    case Year => ("a year", "years")
    case Month => ("a month", "months")
    case Week => ("a week", "weeks")
    case Day => ("a day", "days")
    case Hour => ("an hour", "hours")
    case Minute => ("a minute", "minutes")
    case Second => ("a second", "seconds")
  }

  function RussianWords(k: Kind): Words {
    match k
    case Century => Words("век", "века", "веков")
    case Year => Words("год", "года", "лет")
    case Month => Words("месяц", "месяца", "месяцев")
    case Week => Words("неделю", "недели", "недель")
    case Day => Words("день", "дня", "дней")
    case Hour => Words("час", "часа", "часов")
    case Minute => Words("минуту", "минуты", "минут")
    case Second => Words("секунду", "секунды", "секунд")
  }

  function UkrainianWords(k: Kind): Words {
    match k
    case Century => Words("століття", "століття", "століть")
    case Year => Words("рік", "роки", "років")
    case Month => Words("місяць", "місяці", "місяців")
    case Week => Words("тиждень", "тижні", "тижнів")
    case Day => Words("день", "дні", "днів")
    case Hour => Words("годину", "години", "годин")
    case Minute => Words("хвилину", "хвилини", "хвилин")
    case Second => Words("секунду", "секунди", "секунд")
  }

  /** The English closure: nil at zero, the singular without a numeral at one, the plural with it otherwise. */
  function EnglishForm(singular: string, plural: string, n: nat): Option<Form> {
    if n == 0 then None
    else if n == 1 then Some(Form(singular, false))
    else Some(Form(plural, true))
  }

  /**
   * The Russian and Ukrainian closure: nil at zero, then the form chosen by the last digits.
   * The "one" form hides the numeral only for exactly one, except for days, whose closure
   * always writes it.
   */
  function SlavicForm(w: Words, alwaysNumeral: bool, n: nat): Option<Form> {
    if n == 0 then None
    else if LastOne(n) then Some(Form(w.one, alwaysNumeral || n != 1))
    else if LastTwoThreeFour(n) then Some(Form(w.few, true))
    else Some(Form(w.many, true))
  }

  /** What the closure a preset attaches to unit `k` yields for magnitude `n`. */
  function PresetForm(lang: Language, k: Kind, n: nat): Option<Form> {
    match lang
    case English => EnglishForm(EnglishWords(k).0, EnglishWords(k).1, n)
    case Russian => SlavicForm(RussianWords(k), k == Day, n)
    case Ukrainian => SlavicForm(UkrainianWords(k), k == Day, n)
  }

  /** The closure a preset attaches to unit `k`. */
  function PresetRule(lang: Language, k: Kind): Rule {
    (n: nat) => PresetForm(lang, k, n)
  }

  /** The word after the unit in the past template. */
  function PastWord(lang: Language): string {
    match lang
    case English => "ago"
    case Russian => "назад"
    case Ukrainian => "тому"
  }

  /** The word before the numeral in the future template. */
  function FutureWord(lang: Language): string {
    match lang
    case English => "in"
    case Russian => "через"
    case Ukrainian => "через"
  }

  /** `zeroTimeIntervalPlaceholder` of a preset. */
  function Placeholder(lang: Language): string {
    match lang
    case English => "now"
    case Russian => "сейчас"
    case Ukrainian => "зараз"
  }

  /** `pastFormat` of a preset: "<VALUE> <TIME_COMPONENT> ago" and its translations. */
  function PastFormat(lang: Language): string {
    PastTemplate(PastWord(lang))
  }

  /** `futureFormat` of a preset: "in <VALUE> <TIME_COMPONENT>" and its translations. */
  function FutureFormat(lang: Language): string {
    FutureTemplate(FutureWord(lang))
  }

  /** The order in which a preset inserts its eight components. */
  function InsertionOrder(lang: Language): (ks: seq<Kind>)
    ensures |ks| == |Order| && forall k :: k in ks
  {
    OrderComplete();
    match lang
    case English => Order
    case Russian => Order
    case Ukrainian =>
      var ks := [Second, Minute, Hour, Day, Week, Month, Year, Century];
      assert forall k :: k in ks by {
        forall k ensures k in ks {
          assert ks[|Order| - 1 - Tag(k)] == k;
        }
      }
      ks
  }

  /** The component set of a preset: every unit with its closure. */
  function PresetComponents(lang: Language): (s: map<Kind, Rule>)
    ensures forall k :: k in s && s[k] == PresetRule(lang, k)
  {
    OrderComplete();
    map k | k in Order :: PresetRule(lang, k)
  }

  /** The plural category of the Slavic rules, defined by the last two digits. */
  datatype Category = One | Few | Many

  /** Reference definition: 11 to 14 take the "many" form; otherwise the last digit decides. */
  function SlavicCategory(n: nat): Category {
    var t := n % 100;
    if 11 <= t <= 14 then Many
    else if t % 10 == 1 then One
    else if 2 <= t % 10 <= 4 then Few
    else Many
  }

  /** The word of a category. */
  function WordOf(w: Words, c: Category): string {
    match c
    case One => w.one
    case Few => w.few
    case Many => w.many
  }

  /** The last digit of a number is the last digit of its last two digits. */
  lemma LastDigitOfLastTwo(n: nat)
    ensures n % 10 == (n % 100) % 10
  {
    assert n == 100 * (n / 100) + n % 100;
  }

  /** `ruleLastOne` and `ruleLastTwoThreeFour` pick exactly the "one" and "few" categories, so never both. */
  lemma SlavicRulesMatchCategory(n: nat)
    ensures LastOne(n) <==> SlavicCategory(n) == One
    ensures LastTwoThreeFour(n) <==> SlavicCategory(n) == Few
    ensures !(LastOne(n) && LastTwoThreeFour(n))
  {
    LastDigitOfLastTwo(n);
  }

  /** A Slavic closure yields the word of the number's category; the numeral is hidden only for exactly one. */
  lemma {:induction false} SlavicFormByCategory(w: Words, alwaysNumeral: bool, n: nat)
    ensures SlavicForm(w, alwaysNumeral, n).None? <==> n == 0
    ensures n > 0 ==> SlavicForm(w, alwaysNumeral, n).value.name == WordOf(w, SlavicCategory(n))
    ensures n > 0 ==> (SlavicForm(w, alwaysNumeral, n).value.showNumeral <==> alwaysNumeral || n != 1)
  {
    SlavicRulesMatchCategory(n);
  }

  /**
   * Every preset closure is nil exactly at zero. English gives the singular without the numeral
   * at one and the plural with it otherwise; the Slavic closures hide the numeral only at one,
   * and never for days.
   */
  lemma {:induction false} PresetRuleShape(lang: Language, k: Kind, n: nat)
    ensures PresetRule(lang, k)(n).None? <==> n == 0
    ensures lang == English && n > 0 ==> (PresetRule(lang, k)(n).value.showNumeral <==> n != 1)
    ensures lang == English && n > 0 ==>
              PresetRule(lang, k)(n).value.name == if n == 1 then EnglishWords(k).0 else EnglishWords(k).1
    ensures lang != English && n > 0 ==> (PresetRule(lang, k)(n).value.showNumeral <==> k == Day || n != 1)
  {
    match lang
    case English =>
    case Russian => SlavicFormByCategory(RussianWords(k), k == Day, n);
    case Ukrainian => SlavicFormByCategory(UkrainianWords(k), k == Day, n);
  }

  /** Russian minutes: one without a numeral, then 21, 3, 5 and the teens take their proper forms. */
  lemma RussianMinutes()
    ensures PresetRule(Russian, Minute)(1) == Some(Form("минуту", false))
    ensures PresetRule(Russian, Minute)(21) == Some(Form("минуту", true))
    ensures PresetRule(Russian, Minute)(3) == Some(Form("минуты", true))
    ensures PresetRule(Russian, Minute)(5) == Some(Form("минут", true))
    ensures forall n | 11 <= n <= 14 :: PresetRule(Russian, Minute)(n) == Some(Form("минут", true))
    ensures PresetRule(Russian, Minute)(112) == Some(Form("минут", true))
  {
  }

  /** Days are the one Slavic unit that writes the numeral even for exactly one. */
  lemma SlavicDayShowsOne()
    ensures PresetRule(Russian, Day)(1) == Some(Form("день", true))
    ensures PresetRule(Ukrainian, Day)(1) == Some(Form("день", true))
    ensures PresetRule(Russian, Hour)(1) == Some(Form("час", false))
  {
  }

  /** Ukrainian hours: "годину" after 1 (the numeral only beyond 1), "години" after 2 to 4, "годин" for the teens and the rest. */
  lemma UkrainianHours()
    ensures PresetRule(Ukrainian, Hour)(1) == Some(Form("годину", false))
    ensures PresetRule(Ukrainian, Hour)(21) == Some(Form("годину", true))
    ensures PresetRule(Ukrainian, Hour)(22) == Some(Form("години", true))
    ensures PresetRule(Ukrainian, Hour)(12) == Some(Form("годин", true))
    ensures PresetRule(Ukrainian, Hour)(5) == Some(Form("годин", true))
  {
  }

  /** Ukrainian centuries use one word after 1 and after 2 to 4. */
  lemma UkrainianCenturyShared()
    ensures PresetRule(Ukrainian, Century)(1) == Some(Form("століття", false))
    ensures PresetRule(Ukrainian, Century)(3) == Some(Form("століття", true))
    ensures PresetRule(Ukrainian, Century)(5) == Some(Form("століть", true))
  {
  }

  /** A nonempty word with no space and no `<`. */
  predicate Spaceless(s: string) {
    |s| > 0 && ' ' !in s && '<' !in s
  }

  /** A spaceless word is plain. */
  lemma NoSpacePlain(s: string)
    requires Spaceless(s)
    ensures PlainWord(s)
  {
    assert s[0] in s && s[|s| - 1] in s;
    forall i: nat | i < |s| ensures !DoubleSpaceAt(s, i) {
      assert s[i] in s;
    }
  }

  /** Three spaceless forms give a plain word in every category. */
  lemma SlavicWordsPlain(w: Words)
    requires Spaceless(w.one) && Spaceless(w.few) && Spaceless(w.many)
    ensures forall c :: PlainWord(WordOf(w, c))
  {
    NoSpacePlain(w.one);
    NoSpacePlain(w.few);
    NoSpacePlain(w.many);
  }

  /** Every Russian form is spaceless. */
  lemma RussianWordsSpaceless(k: Kind)
    ensures Spaceless(RussianWords(k).one) && Spaceless(RussianWords(k).few) && Spaceless(RussianWords(k).many)
  {
    match k
    case Century => assert Spaceless("век") && Spaceless("века") && Spaceless("веков");
    case Year => assert Spaceless("год") && Spaceless("года") && Spaceless("лет");
    case Month => assert Spaceless("месяц") && Spaceless("месяца") && Spaceless("месяцев");
    case Week => assert Spaceless("неделю") && Spaceless("недели") && Spaceless("недель");
    case Day => assert Spaceless("день") && Spaceless("дня") && Spaceless("дней");
    case Hour => assert Spaceless("час") && Spaceless("часа") && Spaceless("часов");
    case Minute => assert Spaceless("минуту") && Spaceless("минуты") && Spaceless("минут");
    case Second => assert Spaceless("секунду") && Spaceless("секунды") && Spaceless("секунд");
  }

  /** Every Ukrainian form is spaceless. */
  lemma UkrainianWordsSpaceless(k: Kind)
    ensures Spaceless(UkrainianWords(k).one) && Spaceless(UkrainianWords(k).few) && Spaceless(UkrainianWords(k).many)
  {
    match k
    case Century => assert Spaceless("століття") && Spaceless("століття") && Spaceless("століть");
    case Year => assert Spaceless("рік") && Spaceless("роки") && Spaceless("років");
    case Month => assert Spaceless("місяць") && Spaceless("місяці") && Spaceless("місяців");
    case Week => assert Spaceless("тиждень") && Spaceless("тижні") && Spaceless("тижнів");
    case Day => assert Spaceless("день") && Spaceless("дні") && Spaceless("днів");
    case Hour => assert Spaceless("годину") && Spaceless("години") && Spaceless("годин");
    case Minute => assert Spaceless("хвилину") && Spaceless("хвилини") && Spaceless("хвилин");
    case Second => assert Spaceless("секунду") && Spaceless("секунди") && Spaceless("секунд");
  }

  /** An article, a space and a noun make a plain word. */
  lemma ArticleNounPlain(article: string, noun: string)
    requires Spaceless(article) && Spaceless(noun)
    ensures PlainWord(Join(article, noun))
  {
    NoSpacePlain(article);
    NoSpacePlain(noun);
    JoinPlain(article, noun);
  }

  /** Every English word is plain: the plural has no space and the singular is an article, a space and a noun. */
  lemma EnglishWordsPlain(k: Kind)
    ensures PlainWord(EnglishWords(k).0) && PlainWord(EnglishWords(k).1)
  {
    match k
    case Century =>
      assert Spaceless("a") && Spaceless("century") && Spaceless("centuries");
      NoSpacePlain("centuries");
      ArticleNounPlain("a", "century");
    case Year =>
      assert Spaceless("a") && Spaceless("year") && Spaceless("years");
      NoSpacePlain("years");
      ArticleNounPlain("a", "year");
    case Month =>
      assert Spaceless("a") && Spaceless("month") && Spaceless("months");
      NoSpacePlain("months");
      ArticleNounPlain("a", "month");
    case Week =>
      assert Spaceless("a") && Spaceless("week") && Spaceless("weeks");
      NoSpacePlain("weeks");
      ArticleNounPlain("a", "week");
    case Day =>
      assert Spaceless("a") && Spaceless("day") && Spaceless("days");
      NoSpacePlain("days");
      ArticleNounPlain("a", "day");
    case Hour =>
      assert Spaceless("an") && Spaceless("hour") && Spaceless("hours");
      NoSpacePlain("hours");
      ArticleNounPlain("an", "hour");
    case Minute =>
      assert Spaceless("a") && Spaceless("minute") && Spaceless("minutes");
      NoSpacePlain("minutes");
      ArticleNounPlain("a", "minute");
    case Second =>
      assert Spaceless("a") && Spaceless("second") && Spaceless("seconds");
      NoSpacePlain("seconds");
      ArticleNounPlain("a", "second");
  }

  /** The template words are plain and the future word has no space. */
  lemma TemplateWordsPlain(lang: Language)
    ensures PlainWord(PastWord(lang)) && PlainWord(FutureWord(lang)) && ' ' !in FutureWord(lang)
  {
    match lang
    case English => assert Spaceless("ago") && Spaceless("in");
    case Russian => assert Spaceless("назад") && Spaceless("через");
    case Ukrainian => assert Spaceless("тому") && Spaceless("через");
    NoSpacePlain(PastWord(lang));
    NoSpacePlain(FutureWord(lang));
  }

  /** Every word a preset closure yields is plain. */
  lemma {:induction false} PresetWordsPlain(lang: Language, k: Kind, n: nat)
    requires n > 0
    ensures PlainWord(PresetRule(lang, k)(n).value.name)
  {
    match lang
    case English =>
      EnglishWordsPlain(k);
    case Russian =>
      SlavicFormByCategory(RussianWords(k), k == Day, n);
      RussianWordsSpaceless(k);
      SlavicWordsPlain(RussianWords(k));
    case Ukrainian =>
      SlavicFormByCategory(UkrainianWords(k), k == Day, n);
      UkrainianWordsSpaceless(k);
      SlavicWordsPlain(UkrainianWords(k));
  }

  /**
   * The phrase a preset's templates give for `form` at count `n`: the word with or without the
   * numeral, before the past word or after the future word, single-spaced.
   */
  function TemplatePhrase(lang: Language, form: Form, n: nat, past: bool): string {
    if past then
      if form.showNumeral then Join(Decimal(n), Join(form.name, PastWord(lang))) else Join(form.name, PastWord(lang))
    else
      if form.showNumeral then Join(FutureWord(lang), Join(Decimal(n), form.name)) else Join(FutureWord(lang), form.name)
  }

  /**
   * For a nonzero count, a preset rule yields a form, and rewriting the preset's past or future
   * template with it leaves no key, double space or leading space: the result is `TemplatePhrase`.
   */
  lemma {:induction false} PresetRender(lang: Language, k: Kind, n: nat, past: bool)
    requires n > 0
    ensures PresetRule(lang, k)(n).Some?
    ensures Render(if past then PastFormat(lang) else FutureFormat(lang), PresetRule(lang, k)(n).value, n)
         == TemplatePhrase(lang, PresetRule(lang, k)(n).value, n, past)
  {
    PresetRuleShape(lang, k, n);
    PresetWordsPlain(lang, k, n);
    TemplateWordsPlain(lang);
    var form := PresetRule(lang, k)(n).value;
    if past {
      RenderPast(PastWord(lang), form, n);
    } else {
      RenderFuture(FutureWord(lang), form, n);
    }
  }
}
