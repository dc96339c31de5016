/**
 * The `DateComponents` side of the calendar path: a calendar difference is a partial map from
 * calendar component to value, read per unit by `value(for:)` and searched by
 * `valueForGreatestDateComponent(in:)`.
 */
module DateComponents {
  import opened Options
  import opened Numerics
  import opened DateComponent
  import opened ComponentSet
  import CC = CalendarComponents

  /** The components a calendar difference holds, with their values; a missing key is nil. */
  type DateComponents = map<CC.Component, int>

  /** Foundation's `value(for:)`: the stored value, nil when the component is missing. */
  function Get(dc: DateComponents, x: CC.Component): Option<int> {
    if x in dc then Some(dc[x]) else None
  }

  /**
   * `value(for nkComponent:)`: centuries are the year value divided by 100 and weeks the day
   * value divided by 7, both truncated toward zero with a missing value read as 0; the other
   * six cases read their calendar component and are nil when it is missing.
   */
  function ValueFor(dc: DateComponents, c: NKDateComponent): (r: Option<int>)
    ensures r.None? <==> CC.ComponentBy(c).Some? && CC.ComponentBy(c).value !in dc
    ensures c.KindOf() == Century ==> r == Some(TruncDiv(Get(dc, CC.Year).GetOr(0), 100))
    ensures c.KindOf() == Week ==> r == Some(TruncDiv(Get(dc, CC.Day).GetOr(0), 7))
    ensures CC.ComponentBy(c).Some? ==> r == Get(dc, CC.ComponentBy(c).value)
  {
    if Eq(c, Centuries((_: nat) => None)) then
      Some(TruncDiv(Get(dc, CC.Year).GetOr(0), 100))
    else if Eq(c, Weeks((_: nat) => None)) then
      Some(TruncDiv(Get(dc, CC.Day).GetOr(0), 7))
    else
      match CC.ComponentBy(c)
      case None => None
      case Some(x) => Get(dc, x)
  }

  /**
   * `valueForGreatestDateComponent(in:)`: the coarsest member whose value is not 0 (a nil value
   * is not 0, so it qualifies), paired with its value or 0 when nil; `(nil, 0)` when every
   * member's value is 0.
   */
  function ValueForGreatestDateComponent(dc: DateComponents, s: ComponentSet): (r: (Option<NKDateComponent>, int))
    ensures r.0.None? <==> forall k :: k in s ==> ValueFor(dc, Member(s, k)) == Some(0)
    ensures r.0.None? ==> r.1 == 0
    ensures r.0.Some? ==> IsMember(s, r.0.value) && ValueFor(dc, r.0.value) != Some(0)
    ensures r.0.Some? ==> r.1 == ValueFor(dc, r.0.value).GetOr(0)
    ensures r.0.Some? ==> forall k :: k in s && ValueFor(dc, Member(s, k)) != Some(0) ==> Tag(r.0.value.KindOf()) <= Tag(k)
  {
    var nonZero := Filter(s, c => ValueFor(dc, c) != Some(0));
    match Greatest(nonZero)
    case None => (None, 0)
    case Some(g) =>
      assert g.KindOf() in nonZero;
      (Some(g), ValueFor(dc, g).GetOr(0))
  }

  /**
   * When the difference holds every calendar component the set asks for, as the calendar
   * returns it, a selected component always comes with a nonzero value.
   */
  lemma RequestedValuesAreNonZero(dc: DateComponents, s: ComponentSet)
    requires CC.AvailableComponents(s) <= dc.Keys
    ensures ValueForGreatestDateComponent(dc, s).0.Some? ==> ValueForGreatestDateComponent(dc, s).1 != 0
  {
    var r := ValueForGreatestDateComponent(dc, s);
    if r.0.Some? {
      var g := r.0.value;
      if CC.ComponentBy(g).Some? {
        assert CC.ComponentBy(g).value in CC.AvailableComponents(s);
      }
    }
  }

  /** A nil value counts as nonzero: with only a day value, the years member is chosen, paired with 0. */
  lemma MissingValueIsSelected(r1: Rule, r2: Rule)
    ensures ValueForGreatestDateComponent(map[CC.Day := 3], map[Year := r1, Day := r2]) == (Some(Years(r1)), 0)
  {
    var s := map[Year := r1, Day := r2];
    var r := ValueForGreatestDateComponent(map[CC.Day := 3], s);
    assert ValueFor(map[CC.Day := 3], Member(s, Year)) == None;
    assert Tag(r.0.value.KindOf()) <= Tag(Year);
    assert r.0.value.KindOf() == Year by {
      assert r.0.value.KindOf() in s;
    }
    RuleRoundTrip(r.0.value);
  }

  /** Centuries read the year value, which the calendar fills only when years are configured too. */
  lemma CenturiesNeedYears(dc: DateComponents, r: Rule)
    requires CC.Year !in dc
    ensures ValueFor(dc, Centuries(r)) == Some(0)
  {
  }

  /** Weeks read the day value: 20 days are 2 weeks, and -20 days are -2 weeks. */
  lemma WeeksFromDays(r: Rule)
    ensures ValueFor(map[CC.Day := 20], Weeks(r)) == Some(2)
    ensures ValueFor(map[CC.Day := -20], Weeks(r)) == Some(-2)
  {
  }
}
