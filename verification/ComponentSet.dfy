/**
 * `Set<NKDateComponent>` and its query extension. Because `==` and `hashValue` of
 * `NKDateComponent` look only at the case, such a set holds at most one rule per kind:
 * it is a finite map from kind to rule.
 */
module ComponentSet {
  import opened Options
  import opened DateComponent

  type ComponentSet = map<Kind, Rule>

  /** `c` is an element of `s`: its case is present and carries the same rule. */
  ghost predicate IsMember(s: ComponentSet, c: NKDateComponent) {
    c.KindOf() in s && s[c.KindOf()] == c.rule
  }

  /** The element of `s` of kind `k`. */
  function Member(s: ComponentSet, k: Kind): (c: NKDateComponent)
    requires k in s
    ensures IsMember(s, c) && c.KindOf() == k
  {
    Make(k, s[k])
  }

  /** `Set.insert`: an element equal to one already present is not added; the present one stays. */
  function Insert(s: ComponentSet, c: NKDateComponent): (r: ComponentSet)
    ensures r.Keys == s.Keys + {c.KindOf()}
    ensures forall k :: k in s ==> r[k] == s[k]
    ensures c.KindOf() !in s ==> r[c.KindOf()] == c.rule
  {
    if c.KindOf() in s then s else s[c.KindOf() := c.rule]
  }

  /** The elements of `s` for which `keep` holds: Swift's `filter`. */
  function Filter(s: ComponentSet, keep: NKDateComponent -> bool): (r: ComponentSet)
    ensures r.Keys <= s.Keys
    ensures forall k :: k in r ==> r[k] == s[k]
    ensures forall k :: k in s ==> (k in r <==> keep(Member(s, k)))
  {
    map k | k in s && keep(Member(s, k)) :: s[k]
  }

  /** Index of the first kind of `ks` present in `s`, or `|ks|` when there is none. */
  function FirstIndex(s: ComponentSet, ks: seq<Kind>): (i: nat)
    ensures i <= |ks|
    ensures forall j :: 0 <= j < i ==> ks[j] !in s
    ensures i < |ks| ==> ks[i] in s
    decreases |ks|
  {
    if ks == [] then 0
    else if ks[0] in s then 0
    else 1 + FirstIndex(s, ks[1..])
  }

  /** Index of the last kind of `ks` present in `s`, or -1 when there is none. */
  function LastIndex(s: ComponentSet, ks: seq<Kind>): (i: int)
    ensures -1 <= i < |ks|
    ensures forall j :: i < j < |ks| ==> ks[j] !in s
    ensures 0 <= i ==> ks[i] in s
    decreases |ks|
  {
    if ks == [] then -1
    else if ks[|ks| - 1] in s then |ks| - 1
    else LastIndex(s, ks[..|ks| - 1])
  }

  /** Every kind of a nonempty set appears in the order. */
  lemma OrderCoversSet(s: ComponentSet)
    ensures s != map[] ==> exists j :: 0 <= j < |Order| && Order[j] in s
  {
    if s != map[] {
      var k :| k in s;
      assert Order[Tag(k)] in s;
    }
  }

  /** `equal(to:)`: the element of `s` that is `==` to `c`, if any. */
  function Equal(s: ComponentSet, c: NKDateComponent): (r: Option<NKDateComponent>)
    ensures r.Some? <==> c.KindOf() in s
    ensures r.Some? ==> IsMember(s, r.value) && Eq(r.value, c)
  {
    if c.KindOf() in s then Some(Member(s, c.KindOf())) else None
  }

  /** `removeEqual(to:)`: removes the element `==` to `c`; without one, `s` is unchanged. */
  function RemoveEqual(s: ComponentSet, c: NKDateComponent): (r: ComponentSet)
    ensures r.Keys == s.Keys - {c.KindOf()}
    ensures forall k :: k in r ==> r[k] == s[k]
    ensures c.KindOf() !in s ==> r == s
  {
    match Equal(s, c)
    case None => s
    case Some(e) => s - {e.KindOf()}
  }

  /** Removing `c` keeps every member of another kind, with its rule. */
  lemma RemoveKeepsOthers(s: ComponentSet, c: NKDateComponent, k: Kind)
    requires k in s && k != c.KindOf()
    ensures RemoveEqual(s, c).Keys <= s.Keys && k in RemoveEqual(s, c) && RemoveEqual(s, c)[k] == s[k]
  {
  }

  /** `greatest()`: the element with the lowest tag (the coarsest unit), nil for the empty set. */
  function Greatest(s: ComponentSet): (r: Option<NKDateComponent>)
    ensures r.None? <==> s == map[]
    ensures r.Some? ==> IsMember(s, r.value)
    ensures r.Some? ==> forall k :: k in s ==> Tag(r.value.KindOf()) <= Tag(k)
  {
    var i := FirstIndex(s, Order);
    if i == |Order| then
      OrderCoversSet(s);
      None
    else
      TagOfOrder(i);
      Some(Member(s, Order[i]))
  }

  /** `smallest()`: the element with the highest tag (the finest unit), nil for the empty set. */
  function Smallest(s: ComponentSet): (r: Option<NKDateComponent>)
    ensures r.None? <==> s == map[]
    ensures r.Some? ==> IsMember(s, r.value)
    ensures r.Some? ==> forall k :: k in s ==> Tag(k) <= Tag(r.value.KindOf())
  {
    var i := LastIndex(s, Order);
    if i < 0 then
      OrderCoversSet(s);
      None
    else
      TagOfOrder(i);
      Some(Member(s, Order[i]))
  }

  /** `greatest(lessThan:)`: the coarsest element strictly finer than `c`. */
  function GreatestLessThan(s: ComponentSet, c: NKDateComponent): (r: Option<NKDateComponent>)
    ensures r.None? <==> forall k :: k in s ==> Tag(k) <= Tag(c.KindOf())
    ensures r.Some? ==> IsMember(s, r.value) && Tag(c.KindOf()) < Tag(r.value.KindOf())
    ensures r.Some? ==> forall k :: k in s && Tag(c.KindOf()) < Tag(k) ==> Tag(r.value.KindOf()) <= Tag(k)
  {
    var finer := Filter(s, e => Greater(e, c));
    assert forall k :: k in s ==> (k in finer <==> Tag(c.KindOf()) < Tag(k)) by {
      forall k | k in s {
        LessStrictTotalOrder(c, Member(s, k), c);
      }
    }
    Greatest(finer)
  }

  /** `smallest(greaterThan:)`: the finest element strictly coarser than `c`. */
  function SmallestGreaterThan(s: ComponentSet, c: NKDateComponent): (r: Option<NKDateComponent>)
    ensures r.None? <==> forall k :: k in s ==> Tag(c.KindOf()) <= Tag(k)
    ensures r.Some? ==> IsMember(s, r.value) && Tag(r.value.KindOf()) < Tag(c.KindOf())
    ensures r.Some? ==> forall k :: k in s && Tag(k) < Tag(c.KindOf()) ==> Tag(k) <= Tag(r.value.KindOf())
  {
    var coarser := Filter(s, e => Less(e, c));
    assert forall k :: k in s ==> (k in coarser <==> Tag(k) < Tag(c.KindOf())) by {
      forall k | k in s {
        LessStrictTotalOrder(Member(s, k), c, c);
      }
    }
    Smallest(coarser)
  }

  /** Inserting every element of `t` into `s` one by one: members of `s` stay, the rest come from `t`. */
  function InsertAll(s: ComponentSet, t: ComponentSet): (r: ComponentSet)
    ensures r.Keys == s.Keys + t.Keys
    ensures forall k :: k in r ==> r[k] == if k in s then s[k] else t[k]
  {
    map k | k in s.Keys + t.Keys :: if k in s then s[k] else t[k]
  }

  /** A set with the members of `s` and `t`, preferring those of `s`, is `InsertAll(s, t)`. */
  lemma InsertAllPointwise(r: ComponentSet, s: ComponentSet, t: ComponentSet)
    requires forall k :: k in r <==> k in s || k in t
    requires forall k :: k in r ==> r[k] == if k in s then s[k] else t[k]
    ensures r == InsertAll(s, t)
  {
  }

  /** Inserting into the empty set gives the inserted set. */
  lemma InsertAllIntoEmpty(t: ComponentSet)
    ensures InsertAll(map[], t) == t
  {
  }

  /** Inserting the same elements a second time changes nothing. */
  lemma InsertAllIdempotent(s: ComponentSet, t: ComponentSet)
    ensures InsertAll(InsertAll(s, t), t) == InsertAll(s, t)
  {
  }

  /** After `removeEqual(to: c)`, nothing `==` to `c` is found, and every other case is found as before. */
  lemma {:induction false} EqualAfterRemove(s: ComponentSet, c: NKDateComponent, d: NKDateComponent)
    ensures Equal(RemoveEqual(s, c), d) == if Eq(c, d) then None else Equal(s, d)
  {
  }

  /** Inserting a case that is absent and then removing it gives back the original set. */
  lemma {:induction false} RemoveUndoesInsert(s: ComponentSet, c: NKDateComponent)
    requires c.KindOf() !in s
    ensures RemoveEqual(Insert(s, c), c) == s
  {
  }
}
