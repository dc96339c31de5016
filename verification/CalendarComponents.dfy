/**
 * The bridge from `NKDateComponent` to Foundation's `Calendar.Component`: `component(by:)` and
 * `Set<Calendar.Component>.availableComponents(by:)`.
 */
module CalendarComponents {
  import opened Options
  import DC = DateComponent
  import CS = ComponentSet

  /** Foundation's `Calendar.Component` cases. */
  datatype Component =
    | Era | Year | Month | Day | Hour | Minute | Second | Weekday | WeekdayOrdinal
    | Quarter | WeekOfMonth | WeekOfYear | YearForWeekOfYear | Nanosecond | Calendar | TimeZone

  /** The unit a calendar component stands for, when it is one of the six the library uses. */
  function UnitOf(x: Component): Option<DC.Kind> {
    match x
    case Year => Some(DC.Year)
    case Month => Some(DC.Month)
    case Day => Some(DC.Day)
    case Hour => Some(DC.Hour)
    case Minute => Some(DC.Minute)
    case Second => Some(DC.Second)
    case _ => None
  }

  /**
   * `component(by:)`: years, months, days, hours, minutes and seconds map to the calendar
   * component of the same unit; weeks and centuries have none.
   */
  function ComponentBy(c: DC.NKDateComponent): (r: Option<Component>)
    ensures r.None? <==> c.KindOf() == DC.Week || c.KindOf() == DC.Century
    ensures r.Some? ==> UnitOf(r.value) == Some(c.KindOf())
  {
    match c
    case Years(_) => Some(Year)
    case Months(_) => Some(Month)
    case Days(_) => Some(Day)
    case Hours(_) => Some(Hour)
    case Minutes(_) => Some(Minute)
    case Seconds(_) => Some(Second)
    case Weeks(_) => None
    case Centuries(_) => None
  }

  /** Every calendar component that stands for a unit is the image of that unit. */
  lemma {:induction false} ComponentByOnto(x: Component, r: DC.Rule)
    requires UnitOf(x).Some?
    ensures ComponentBy(DC.Make(UnitOf(x).value, r)) == Some(x)
  {
    match x
    case Year =>
    case Month =>
    case Day =>
    case Hour =>
    case Minute =>
    case Second =>
  }

  /** Two cases with the same calendar component are the same case. */
  lemma ComponentByInjective(a: DC.NKDateComponent, b: DC.NKDateComponent)
    requires ComponentBy(a).Some? && ComponentBy(a) == ComponentBy(b)
    ensures DC.Eq(a, b)
  {
    assert UnitOf(ComponentBy(a).value) == Some(a.KindOf());
  }

  /** `availableComponents(by:)`: the calendar components of the members that have one. */
  function AvailableComponents(s: CS.ComponentSet): (r: set<Component>)
    ensures forall x :: x in r <==> UnitOf(x).Some? && UnitOf(x).value in s
  {
    var r := set k | k in s && ComponentBy(CS.Member(s, k)).Some? :: ComponentBy(CS.Member(s, k)).value;
    assert forall x :: UnitOf(x).Some? && UnitOf(x).value in s ==> x in r by {
      forall x | UnitOf(x).Some? && UnitOf(x).value in s ensures x in r {
        var k := UnitOf(x).value;
        ComponentByOnto(x, s[k]);
      }
    }
    r
  }

  /** No calendar component is requested exactly when the set holds nothing but weeks and centuries. */
  lemma AvailableEmpty(s: CS.ComponentSet)
    ensures AvailableComponents(s) == {} <==> forall k :: k in s ==> k == DC.Week || k == DC.Century
  {
    if AvailableComponents(s) == {} {
      forall k | k in s ensures k == DC.Week || k == DC.Century {
        assert ComponentBy(CS.Member(s, k)).None?;
      }
    } else {
      var x :| x in AvailableComponents(s);
      assert UnitOf(x).value in s;
    }
  }
}
