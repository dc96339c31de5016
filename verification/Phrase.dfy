/**
 * The template side of `NKTextTimeIntervalConfiguration`: the two placeholder keys and the
 * rewriting `formatedString(for:with:)` applies to the chosen template.
 */
module Phrase {
  import opened Text
  import opened DateComponent

  /** `numberValueKey`: where the numeral goes. */
  const NumberValueKey: string := "<VALUE>"

  /** `timeComponentValueKey`: where the unit's word goes. */
  const TimeComponentValueKey: string := "<TIME_COMPONENT>"

  /** Both keys open with `<`, and neither occurs inside the other, so each pass finds only its own key. */
  lemma KeysDisjoint()
    ensures NumberValueKey[0] == '<' && TimeComponentValueKey[0] == '<'
    ensures Absent(NumberValueKey, TimeComponentValueKey) && Absent(TimeComponentValueKey, NumberValueKey)
  {
    forall i: nat | i <= |TimeComponentValueKey| ensures !OccursAt(TimeComponentValueKey, NumberValueKey, i) {
      if i + |NumberValueKey| <= |TimeComponentValueKey| {
        assert TimeComponentValueKey[i..i + |NumberValueKey|][|NumberValueKey| - 1] == TimeComponentValueKey[i + 6];
      }
    }
  }

  /** The numeral as substituted for the number key: the decimal magnitude, or nothing. */
  function NumeralText(form: Form, n: nat): string {
    if form.showNumeral then Decimal(n) else ""
  }

  /**
   * The rewriting of `formatedString` once the template is chosen: the unit key is
   * replaced by the word, then the number key by the numeral, then one pass turns each
   * double space into a single one, and finally one leading space is dropped.
   */
  function Render(template: string, form: Form, n: nat): string {
    var named := ReplaceAll(template, TimeComponentValueKey, form.name);
    var numbered := ReplaceAll(named, NumberValueKey, NumeralText(form, n));
    var collapsed := ReplaceAll(numbered, "  ", " ");
    if |collapsed| > 0 && collapsed[0] == ' ' then collapsed[1..] else collapsed
  }

  /** A word that survives rendering untouched: no key can start in it and it brings no stray space. */
  predicate PlainWord(s: string) {
    |s| > 0 && '<' !in s && DoubleSpaceFree(s) && s[0] != ' ' && s[|s| - 1] != ' '
  }

  /** Two pieces of text with one space between them. */
  function Join(a: string, b: string): string {
    a + (" " + b)
  }

  /** The shape of every preset's past template: "<VALUE> <TIME_COMPONENT> word". */
  function PastTemplate(word: string): string {
    Join(NumberValueKey, Join(TimeComponentValueKey, word))
  }

  /** The shape of every preset's future template: "word <VALUE> <TIME_COMPONENT>". */
  function FutureTemplate(word: string): string {
    Join(word, Join(NumberValueKey, TimeComponentValueKey))
  }

  /** The past template spelt out: "<VALUE> <TIME_COMPONENT> word". */
  lemma PastTemplateSpelt(word: string)
    ensures PastTemplate(word) == "<VALUE> <TIME_COMPONENT> " + word
  {
    assert NumberValueKey + " " + TimeComponentValueKey + " " == "<VALUE> <TIME_COMPONENT> ";
  }

  /** The future template spelt out: "word <VALUE> <TIME_COMPONENT>". */
  lemma FutureTemplateSpelt(word: string)
    ensures FutureTemplate(word) == word + " <VALUE> <TIME_COMPONENT>"
  {
    assert " " + NumberValueKey + " " + TimeComponentValueKey == " <VALUE> <TIME_COMPONENT>";
  }

  /** Joining two plain words gives a plain phrase that starts where the first word starts. */
  lemma JoinPlain(a: string, b: string)
    requires PlainWord(a) && PlainWord(b)
    ensures PlainWord(Join(a, b)) && Join(a, b)[0] == a[0]
  {
    var j := Join(a, b);
    DoubleSpaceFreeConcat(" ", b);
    DoubleSpaceFreeConcat(a, " " + b);
    assert forall i :: 0 <= i < |j| ==> j[i] in a || j[i] in b || j[i] == ' ';
  }

  /** The decimal numeral is a plain word. */
  lemma DecimalPlainWord(n: nat)
    ensures PlainWord(Decimal(n))
  {
    DecimalPlain(n);
    assert Decimal(n)[0] in Decimal(n);
    assert Decimal(n)[|Decimal(n)| - 1] in Decimal(n);
  }

  /** "<VALUE> " followed by anything: the unit key pass copies the "<VALUE> " prefix. */
  lemma NamedAfterNumberKey(rest: string, name: string)
    ensures ReplaceAll(Join(NumberValueKey, rest), TimeComponentValueKey, name)
         == Join(NumberValueKey, ReplaceAll(rest, TimeComponentValueKey, name))
  {
    var a := NumberValueKey + " ";
    assert a[1..] == "VALUE> ";
    ReplaceAllSkipPrefix(a, rest, TimeComponentValueKey, name);
    assert Join(NumberValueKey, rest) == a + rest;
    assert a + ReplaceAll(rest, TimeComponentValueKey, name) == Join(NumberValueKey, ReplaceAll(rest, TimeComponentValueKey, name));
  }

  /** The unit key followed by text without keys becomes the word followed by that text. */
  lemma NamedKey(rest: string, name: string)
    requires '<' !in rest
    ensures ReplaceAll(TimeComponentValueKey + rest, TimeComponentValueKey, name) == name + rest
  {
    ReplaceAllHead(rest, TimeComponentValueKey, name);
    ReplaceAllSkip(rest, [], TimeComponentValueKey, name);
    assert rest + [] == rest;
  }

  /** The number key followed by text without keys becomes the numeral followed by that text. */
  lemma NumberedKey(rest: string, num: string)
    requires '<' !in rest
    ensures ReplaceAll(NumberValueKey + rest, NumberValueKey, num) == num + rest
  {
    ReplaceAllHead(rest, NumberValueKey, num);
    ReplaceAllSkip(rest, [], NumberValueKey, num);
    assert rest + [] == rest;
  }

  /** The unit key pass on a past template puts the word in place of the key. */
  lemma PastNamed(word: string, name: string)
    requires '<' !in word
    ensures ReplaceAll(PastTemplate(word), TimeComponentValueKey, name) == Join(NumberValueKey, Join(name, word))
  {
    NamedKey(" " + word, name);
    NamedAfterNumberKey(Join(TimeComponentValueKey, word), name);
  }

  /**
   * A past-template phrase reads "numeral word past-word" when the rule shows the numeral and
   * "word past-word" when it does not: no double space and no leading space is left behind.
   */
  lemma RenderPast(word: string, form: Form, n: nat)
    requires PlainWord(word) && PlainWord(form.name)
    ensures Render(PastTemplate(word), form, n)
         == if form.showNumeral then Join(Decimal(n), Join(form.name, word)) else Join(form.name, word)
  {
    var name, num := form.name, NumeralText(form, n);
    var tail := Join(name, word);
    PastNamed(word, name);
    JoinPlain(name, word);
    NumberedKey(" " + tail, num);
    if form.showNumeral {
      DecimalPlainWord(n);
      JoinPlain(num, tail);
      CollapseNoop(Join(num, tail));
    } else {
      assert num + (" " + tail) == " " + tail;
      DoubleSpaceFreeConcat(" ", tail);
      CollapseNoop(" " + tail);
      assert (" " + tail)[1..] == tail;
    }
  }

  /** The unit key pass on a future template puts the word in place of the key. */
  lemma FutureNamed(word: string, name: string)
    requires '<' !in word
    ensures ReplaceAll(FutureTemplate(word), TimeComponentValueKey, name) == Join(word, Join(NumberValueKey, name))
  {
    NamedKey([], name);
    assert TimeComponentValueKey + [] == TimeComponentValueKey && name + [] == name;
    NamedAfterNumberKey(TimeComponentValueKey, name);
    var x := Join(NumberValueKey, TimeComponentValueKey);
    ReplaceAllSkip(" ", x, TimeComponentValueKey, name);
    ReplaceAllSkip(word, " " + x, TimeComponentValueKey, name);
  }

  /** The number key pass on "word <VALUE> name" puts the numeral in place of the key. */
  lemma FutureNumbered(word: string, name: string, num: string)
    requires '<' !in word && '<' !in name
    ensures ReplaceAll(Join(word, Join(NumberValueKey, name)), NumberValueKey, num) == word + (" " + (num + (" " + name)))
  {
    var x := Join(NumberValueKey, name);
    NumberedKey(" " + name, num);
    ReplaceAllSkip(" ", x, NumberValueKey, num);
    ReplaceAllSkip(word, " " + x, NumberValueKey, num);
  }

  /**
   * A future-template phrase reads "future-word numeral word" when the rule shows the numeral
   * and "future-word word" when it does not (the double space left by the empty numeral collapses).
   */
  lemma RenderFuture(word: string, form: Form, n: nat)
    requires PlainWord(word) && ' ' !in word && PlainWord(form.name)
    ensures Render(FutureTemplate(word), form, n)
         == if form.showNumeral then Join(word, Join(Decimal(n), form.name)) else Join(word, form.name)
  {
    var name, num := form.name, NumeralText(form, n);
    FutureNamed(word, name);
    FutureNumbered(word, name, num);
    if form.showNumeral {
      DecimalPlainWord(n);
      JoinPlain(num, name);
      JoinPlain(word, Join(num, name));
      CollapseNoop(Join(word, Join(num, name)));
    } else {
      assert word + (" " + (num + (" " + name))) == word + ("  " + name);
      ReplaceAllSkip(word, "  " + name, "  ", " ");
      ReplaceAllHead(name, "  ", " ");
      CollapseNoop(name);
      assert Join(word, name)[0] == word[0];
    }
  }

  /** A template with no key, no double space and no leading space comes back unchanged. */
  lemma {:induction false} RenderLiteral(template: string, form: Form, n: nat)
    requires '<' !in template && DoubleSpaceFree(template)
    requires template == [] || template[0] != ' '
    ensures Render(template, form, n) == template
  {
    ReplaceAllSkip(template, [], TimeComponentValueKey, form.name);
    ReplaceAllSkip(template, [], NumberValueKey, NumeralText(form, n));
    assert template + [] == template;
    CollapseNoop(template);
  }

  /** The double-space pass is a single pass: three spaces become two, not one. */
  lemma CollapseIsSinglePass()
    ensures ReplaceAll("   ", "  ", " ") == "  "
  {
    ReplaceAllHead(" ", "  ", " ");
    assert "  " + " " == "   ";
  }

  /** The unit key is replaced first, so a word that holds the number key receives the numeral. */
  lemma WordIsScannedForNumberKey()
    ensures Render(TimeComponentValueKey, Form(NumberValueKey, true), 5) == "5"
  {
    ReplaceAllHead([], TimeComponentValueKey, NumberValueKey);
    assert TimeComponentValueKey + [] == TimeComponentValueKey;
    ReplaceAllHead([], NumberValueKey, "5");
    assert NumberValueKey + [] == NumberValueKey;
    assert Decimal(5) == "5";
    CollapseNoop("5");
  }
}
