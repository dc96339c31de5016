/**
 * `NKDateComponent`: the eight time units a declension rule can be attached to.
 * Each case carries its rule; identity and order look only at the case, through a
 * synthetic tag (centuries = 0 ... seconds = 7), never at the rule.
 */
module DateComponent {
  import opened Options

  /** The case of an `NKDateComponent` without its rule. */
  datatype Kind = Century | Year | Month | Week | Day | Hour | Minute | Second

  /** Every kind, coarsest first. */
  const Order: seq<Kind> := [Century, Year, Month, Week, Day, Hour, Minute, Second]

  /** What a declension rule yields: the unit's word and whether the numeral is written. */
  datatype Form = Form(name: string, showNumeral: bool)

  /**
   * `NKTimeComponentDeclensionRule`. The source types the argument as `Double`, but every
   * call passes `abs` of an integer magnitude, so it is a natural number here.
   */
  type Rule = nat -> Option<Form>

  /** The synthetic tag of a kind: its position in the coarse-to-fine order. */
  function Tag(k: Kind): (t: nat)
    ensures t < |Order| && Order[t] == k
  {
    match k
    case Century => 0
    case Year => 1
    case Month => 2
    case Week => 3
    case Day => 4
    case Hour => 5
    case Minute => 6
    case Second => 7
  }

  /** The order lists each kind once, so a position determines its tag. */
  lemma TagOfOrder(i: nat)
    requires i < |Order|
    ensures Tag(Order[i]) == i
  {
    assert i == 0 || i == 1 || i == 2 || i == 3 || i == 4 || i == 5 || i == 6 || i == 7;
  }

  /** The order lists every kind. */
  lemma OrderComplete()
    ensures forall k :: k in Order
  {
    forall k ensures k in Order {
      assert Order[Tag(k)] == k;
    }
  }

  datatype NKDateComponent =
    | Centuries(rule: Rule)
    | Years(rule: Rule)
    | Months(rule: Rule)
    | Weeks(rule: Rule)
    | Days(rule: Rule)
    | Hours(rule: Rule)
    | Minutes(rule: Rule)
    | Seconds(rule: Rule)
  {
    /** The case of this value, forgetting its rule. */
    function KindOf(): Kind {
      match this
      case Centuries(_) => Century
      case Years(_) => Year
      case Months(_) => Month
      case Weeks(_) => Week
      case Days(_) => Day
      case Hours(_) => Hour
      case Minutes(_) => Minute
      case Seconds(_) => Second
    }

    /** `hashValue`: the position of the case in the coarse-to-fine order. */
    function HashValue(): (h: nat)
      ensures h < |Order| && Order[h] == KindOf()
    {
      Tag(KindOf())
    }
  }

  /** The case of kind `k` carrying rule `r`. */
  function Make(k: Kind, r: Rule): (c: NKDateComponent)
    ensures c.KindOf() == k && c.rule == r
  {
    match k
    case Century => Centuries(r)
    case Year => Years(r)
    case Month => Months(r)
    case Week => Weeks(r)
    case Day => Days(r)
    case Hour => Hours(r)
    case Minute => Minutes(r)
    case Second => Seconds(r)
  }

  /** `rule` hands back exactly the closure stored in the case: case and rule rebuild the value. */
  lemma {:induction false} RuleRoundTrip(c: NKDateComponent)
    ensures Make(c.KindOf(), c.rule) == c
  {
    match c
    case Centuries(_) =>
    case Years(_) =>
    case Months(_) =>
    case Weeks(_) =>
    case Days(_) =>
    case Hours(_) =>
    case Minutes(_) =>
    case Seconds(_) =>
  }

  /** Different cases get different hash values; the rule plays no part. */
  lemma HashValueInjective(a: NKDateComponent, b: NKDateComponent)
    ensures a.HashValue() == b.HashValue() <==> a.KindOf() == b.KindOf()
  {
  }

  /** `==`: compares the tags only. */
  function Eq(a: NKDateComponent, b: NKDateComponent): (r: bool)
    ensures r <==> a.KindOf() == b.KindOf()
  {
    a.HashValue() == b.HashValue()
  }

  /** `!=`: compares the tags only. */
  function Neq(a: NKDateComponent, b: NKDateComponent): (r: bool)
    ensures r <==> !Eq(a, b)
  {
    a.HashValue() != b.HashValue()
  }

  /** `<`: a coarser unit is smaller. */
  function Less(a: NKDateComponent, b: NKDateComponent): (r: bool)
    ensures r <==> exists i, j :: 0 <= i < j < |Order| && Order[i] == a.KindOf() && Order[j] == b.KindOf()
  {
    var r := a.HashValue() < b.HashValue();
    assert r ==> Order[a.HashValue()] == a.KindOf() && Order[b.HashValue()] == b.KindOf();
    assert forall i :: 0 <= i < |Order| ==> Tag(Order[i]) == i by {
      forall i | 0 <= i < |Order| {
        TagOfOrder(i);
      }
    }
    r
  }

  /** `>`: a finer unit is greater. */
  function Greater(a: NKDateComponent, b: NKDateComponent): (r: bool)
    ensures r <==> Less(b, a)
  {
    a.HashValue() > b.HashValue()
  }

  /** `<` is a strict total order on cases whose equivalence is `==`. */
  lemma {:induction false} LessStrictTotalOrder(a: NKDateComponent, b: NKDateComponent, c: NKDateComponent)
    ensures !Less(a, a)
    ensures Less(a, b) && Less(b, c) ==> Less(a, c)
    ensures Less(a, b) || Eq(a, b) || Less(b, a)
    ensures Less(a, b) ==> !Eq(a, b) && !Less(b, a)
  {
    assert Less(a, b) <==> Tag(a.KindOf()) < Tag(b.KindOf());
    assert Less(b, c) <==> Tag(b.KindOf()) < Tag(c.KindOf());
    assert Less(a, c) <==> Tag(a.KindOf()) < Tag(c.KindOf());
    assert Less(b, a) <==> Tag(b.KindOf()) < Tag(a.KindOf());
    assert Less(a, a) <==> Tag(a.KindOf()) < Tag(a.KindOf());
  }
}
