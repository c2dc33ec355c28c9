/**
  The Blorbo Lab page: an older gift engine that matches trait targets
  exactly and has no `show` kind, the sorting of each gift's result into
  positive and negative FXP and RXP buckets, and the magnitude-ordered gift
  lists built from those buckets.
 */
module BlorboLab {
  import opened Values
  import opened Data
  import opened Xp
  import opened Collections
  import opened Ordering
  import opened Numbers

  /** No entry of the modifier file is null. */
  predicate NoNull(mods: seq<Option<Modifier>>) {
    forall i :: 0 <= i < |mods| ==> mods[i].Some?
  }

  /** The modifiers themselves, once none is null. */
  function Present(mods: seq<Option<Modifier>>): (r: seq<Modifier>)
    requires NoNull(mods)
    ensures |r| == |mods|
    ensures forall i :: 0 <= i < |mods| ==> mods[i] == Some(r[i])
  {
    seq(|mods|, i requires 0 <= i < |mods| => mods[i].value)
  }

  /** `m.gift_name === gift.gift_name`, the filter of `computeGiftResult`. */
  function ForGift(g: Gift): Modifier -> bool {
    (m: Modifier) => m.giftName == g.giftName
  }

  /**
    Whether modifier `m` applies to character `c`: a `trait` target must be
    one of the character's traits exactly as written, a `character` target
    must be its command name, and no other kind applies.
   */
  predicate Matches(c: TraitsEntry, m: Modifier) {
    if m.kind == Some("trait") then m.target in TraitItems(c)
    else if m.kind == Some("character") then m.target == c.commandName
    else false
  }

  function Contribution(c: TraitsEntry, m: Modifier): Effect {
    if Matches(c, m) then Delta(m) else Zero
  }

  function ContributionTo(c: TraitsEntry): Modifier -> Effect {
    m => Contribution(c, m)
  }

  /**
    The `forEach` of `computeGiftResult`: the totals after visiting `mods` in
    order from `acc`, which are `acc` plus the deltas of those that match.
   */
  function Apply(c: TraitsEntry, acc: Effect, mods: seq<Modifier>): (r: Effect)
    ensures r == acc.Plus(Sum(mods, ContributionTo(c)))
  {
    if |mods| == 0 then acc
    else
      var before := Apply(c, acc, mods[..|mods| - 1]);
      var m := mods[|mods| - 1];
      if Matches(c, m) then before.Plus(Delta(m)) else before
  }

  /** What an entry of the modifier file adds to `g` for `c`, null entries and other gifts' modifiers adding nothing. */
  function RawContribution(g: Gift, c: TraitsEntry, om: Option<Modifier>): Effect {
    if om.Some? && om.value.giftName == g.giftName then Contribution(c, om.value) else Zero
  }

  function RawContributionTo(g: Gift, c: TraitsEntry): Option<Modifier> -> Effect {
    om => RawContribution(g, c, om)
  }

  /**
    `computeGiftResult(gift, character)`. Reading `gift_name` of a null
    modifier throws, and the filter visits every modifier, so the call fails
    exactly when some modifier is null; otherwise it returns the base values
    plus the deltas of the gift's modifiers that match the character.
   */
  function ComputeGiftResult(g: Gift, c: TraitsEntry, mods: seq<Option<Modifier>>): (r: Result<Effect>)
    ensures r.TypeError? <==> !NoNull(mods)
    ensures r.Ok? ==> r.value == Base(g).Plus(Sum(mods, RawContributionTo(g, c)))
  {
    if !NoNull(mods) then TypeError
    else
      FilteredSumIsRawSum(g, c, mods);
      Ok(Apply(c, Base(g), Filter(Present(mods), ForGift(g))))
  }

  lemma {:induction false} FilteredSumIsRawSum(g: Gift, c: TraitsEntry, mods: seq<Option<Modifier>>)
    requires NoNull(mods)
    ensures Sum(Filter(Present(mods), ForGift(g)), ContributionTo(c)) == Sum(mods, RawContributionTo(g, c))
  {
    if |mods| > 0 {
      var n := |mods| - 1;
      var ms := Present(mods);
      assert ms[..n] == Present(mods[..n]);
      FilteredSumIsRawSum(g, c, mods[..n]);
      var kept := Filter(ms[..n], ForGift(g));
      var tail := if ForGift(g)(ms[n]) then [ms[n]] else [];
      assert Filter(ms, ForGift(g)) == kept + tail;
      SumAppend(kept, tail, ContributionTo(c));
      if ForGift(g)(ms[n]) {
        assert tail[..0] == [];
      } else {
        PlusZero(Sum(kept, ContributionTo(c)), Sum(tail, ContributionTo(c)));
        PlusZero(Sum(mods[..n], RawContributionTo(g, c)), RawContribution(g, c, mods[n]));
      }
    }
  }

  /** Listing the modifiers in another order gives the same result. */
  lemma ReorderingModifiersKeepsResult(g: Gift, c: TraitsEntry, mods: seq<Option<Modifier>>, shuffled: seq<Option<Modifier>>)
    requires multiset(mods) == multiset(shuffled)
    ensures ComputeGiftResult(g, c, mods) == ComputeGiftResult(g, c, shuffled)
  {
    assert NoNull(mods) <==> None !in multiset(mods);
    assert NoNull(shuffled) <==> None !in multiset(shuffled);
    SumPermutation(mods, shuffled, RawContributionTo(g, c));
  }

  /** Modifiers of other gifts change nothing, wherever they are added. */
  lemma {:induction false} OtherGiftsModifiersIgnored(g: Gift, c: TraitsEntry, mods: seq<Option<Modifier>>, extra: seq<Option<Modifier>>)
    requires forall i :: 0 <= i < |extra| ==> extra[i].Some? && extra[i].value.giftName != g.giftName
    ensures ComputeGiftResult(g, c, mods + extra) == ComputeGiftResult(g, c, mods)
  {
    assert NoNull(mods + extra) <==> NoNull(mods) by {
      assert forall i :: 0 <= i < |mods| ==> (mods + extra)[i] == mods[i];
    }
    SumAppend(mods, extra, RawContributionTo(g, c));
    NothingFromOtherGifts(g, c, extra);
    PlusZero(Sum(mods, RawContributionTo(g, c)), Sum(extra, RawContributionTo(g, c)));
  }

  lemma {:induction false} NothingFromOtherGifts(g: Gift, c: TraitsEntry, extra: seq<Option<Modifier>>)
    requires forall i :: 0 <= i < |extra| ==> extra[i].Some? && extra[i].value.giftName != g.giftName
    ensures Sum(extra, RawContributionTo(g, c)) == Zero
  {
    if |extra| > 0 {
      NothingFromOtherGifts(g, c, extra[..|extra| - 1]);
    }
  }

  /**
    With no modifier for the gift, the result is the base values, a missing
    base counting as 0.
   */
  lemma NoModifiersGivesBase(g: Gift, c: TraitsEntry, mods: seq<Option<Modifier>>)
    requires forall i :: 0 <= i < |mods| ==> mods[i].Some? && mods[i].value.giftName != g.giftName
    ensures ComputeGiftResult(g, c, mods) == Ok(Base(g))
    ensures g.baseFxp.None? ==> ComputeGiftResult(g, c, mods).value.fxp == 0
    ensures g.baseRxp.None? ==> ComputeGiftResult(g, c, mods).value.rxp == 0
  {
    OtherGiftsModifiersIgnored(g, c, [], mods);
    assert [] + mods == mods;
  }

  /** The per-kind rules: exact trait membership, command name only, nothing for any other kind. */
  lemma ContributionByKind(c: TraitsEntry, m: Modifier)
    ensures m.kind == Some("trait") ==> Contribution(c, m) == (if m.target in TraitItems(c) then Delta(m) else Zero)
    ensures m.kind == Some("character") ==> Contribution(c, m) == (if m.target == c.commandName then Delta(m) else Zero)
    ensures m.kind != Some("trait") && m.kind != Some("character") ==> Contribution(c, m) == Zero
  {
  }

  /** A gift's name and one of its two values, as pushed into a bucket. */
  datatype Listed = Listed(name: Option<string>, value: int)

  /** The four lists `renderBlorbo` fills. */
  datatype Buckets = Buckets(fxpPos: seq<Listed>, fxpNeg: seq<Listed>, rxpPos: seq<Listed>, rxpNeg: seq<Listed>)

  /** The four `if` statements run for one gift's result. */
  function Push(b: Buckets, name: Option<string>, e: Effect): Buckets {
    Buckets(
      b.fxpPos + (if e.fxp > 0 then [Listed(name, e.fxp)] else []),
      b.fxpNeg + (if e.fxp < 0 then [Listed(name, e.fxp)] else []),
      b.rxpPos + (if e.rxp > 0 then [Listed(name, e.rxp)] else []),
      b.rxpNeg + (if e.rxp < 0 then [Listed(name, e.rxp)] else []))
  }

  /** The result for one gift, once no modifier is null. */
  function EffectOf(g: Gift, c: TraitsEntry, mods: seq<Option<Modifier>>): Effect
    requires NoNull(mods)
  {
    ComputeGiftResult(g, c, mods).value
  }

  /** The `gifts.forEach` of `renderBlorbo`, after the gifts in `gifts` have been visited. */
  function Fill(gifts: seq<Gift>, c: TraitsEntry, mods: seq<Option<Modifier>>): Buckets
    requires NoNull(mods)
  {
    if |gifts| == 0 then Buckets([], [], [], [])
    else
      var g := gifts[|gifts| - 1];
      Push(Fill(gifts[..|gifts| - 1], c, mods), g.displayName, EffectOf(g, c, mods))
  }

  /**
    The bucketing step of `renderBlorbo`: the first gift's computation throws
    when a modifier is null, so with no gifts nothing fails.
   */
  function Bucketize(gifts: seq<Gift>, c: TraitsEntry, mods: seq<Option<Modifier>>): (r: Result<Buckets>)
    ensures r.TypeError? <==> |gifts| > 0 && !NoNull(mods)
    ensures r.Ok? && |gifts| == 0 ==> r.value == Buckets([], [], [], [])
    ensures NoNull(mods) ==> r.Ok?
    ensures NoNull(mods) ==> r.value.fxpPos == Filter(Rows(gifts, c, mods, true), IsPositive)
    ensures NoNull(mods) ==> r.value.fxpNeg == Filter(Rows(gifts, c, mods, true), IsNegative)
    ensures NoNull(mods) ==> r.value.rxpPos == Filter(Rows(gifts, c, mods, false), IsPositive)
    ensures NoNull(mods) ==> r.value.rxpNeg == Filter(Rows(gifts, c, mods, false), IsNegative)
  {
    if |gifts| == 0 then Ok(Buckets([], [], [], []))
    else if !NoNull(mods) then TypeError
    else
      BucketsAreFilters(gifts, c, mods);
      Ok(Fill(gifts, c, mods))
  }

  /** Every gift's name with its FXP (`fxp` true) or RXP, in gift order. */
  function Rows(gifts: seq<Gift>, c: TraitsEntry, mods: seq<Option<Modifier>>, fxp: bool): (r: seq<Listed>)
    requires NoNull(mods)
    ensures |r| == |gifts|
    ensures forall i :: 0 <= i < |gifts| ==>
              r[i] == Listed(gifts[i].displayName, if fxp then EffectOf(gifts[i], c, mods).fxp else EffectOf(gifts[i], c, mods).rxp)
  {
    seq(|gifts|, i requires 0 <= i < |gifts| =>
      Listed(gifts[i].displayName, if fxp then EffectOf(gifts[i], c, mods).fxp else EffectOf(gifts[i], c, mods).rxp))
  }

  predicate IsPositive(l: Listed) {
    l.value > 0
  }

  predicate IsNegative(l: Listed) {
    l.value < 0
  }

  /**
    Each bucket is the gifts' rows of its kind filtered by sign, in gift
    order: the positive FXP bucket holds exactly the gifts with FXP above
    zero, and so on.
   */
  lemma {:induction false} BucketsAreFilters(gifts: seq<Gift>, c: TraitsEntry, mods: seq<Option<Modifier>>)
    requires NoNull(mods)
    ensures Fill(gifts, c, mods).fxpPos == Filter(Rows(gifts, c, mods, true), IsPositive)
    ensures Fill(gifts, c, mods).fxpNeg == Filter(Rows(gifts, c, mods, true), IsNegative)
    ensures Fill(gifts, c, mods).rxpPos == Filter(Rows(gifts, c, mods, false), IsPositive)
    ensures Fill(gifts, c, mods).rxpNeg == Filter(Rows(gifts, c, mods, false), IsNegative)
  {
    if |gifts| > 0 {
      var n := |gifts| - 1;
      BucketsAreFilters(gifts[..n], c, mods);
      assert Rows(gifts, c, mods, true)[..n] == Rows(gifts[..n], c, mods, true);
      assert Rows(gifts, c, mods, false)[..n] == Rows(gifts[..n], c, mods, false);
    }
  }

  /** Filters by two predicates that never both hold keep at most the whole sequence between them. */
  lemma {:induction false} DisjointFiltersFit<T>(s: seq<T>, p: T -> bool, q: T -> bool)
    requires forall i :: 0 <= i < |s| ==> !(p(s[i]) && q(s[i]))
    ensures |Filter(s, p)| + |Filter(s, q)| <= |s|
  {
    if |s| > 0 {
      DisjointFiltersFit(s[..|s| - 1], p, q);
    }
  }

  /**
    Bucketing by sign: a gift with positive FXP is listed under positive FXP,
    one with negative FXP under negative FXP, one with zero FXP in neither;
    each bucket holds only values of its sign, so no listing is in both, and
    the two FXP buckets together are no longer than the gift list. RXP is
    bucketed the same way.
   */
  lemma BucketsBySign(gifts: seq<Gift>, c: TraitsEntry, mods: seq<Option<Modifier>>, fxp: bool)
    requires NoNull(mods)
    ensures var b := Fill(gifts, c, mods);
            var pos := if fxp then b.fxpPos else b.rxpPos;
            var neg := if fxp then b.fxpNeg else b.rxpNeg;
            var rows := Rows(gifts, c, mods, fxp);
            && (forall i :: 0 <= i < |rows| && rows[i].value > 0 ==> rows[i] in pos)
            && (forall i :: 0 <= i < |rows| && rows[i].value < 0 ==> rows[i] in neg)
            && (forall i :: 0 <= i < |rows| && rows[i].value == 0 ==> rows[i] !in pos && rows[i] !in neg)
            && (forall i :: 0 <= i < |pos| ==> pos[i].value > 0 && pos[i] in rows)
            && (forall i :: 0 <= i < |neg| ==> neg[i].value < 0 && neg[i] in rows)
            && |pos| + |neg| <= |gifts|
  {
    BucketsAreFilters(gifts, c, mods);
    DisjointFiltersFit(Rows(gifts, c, mods, fxp), IsPositive, IsNegative);
  }

  /** `Math.abs(v)`. */
  function Abs(v: int): int {
    if v < 0 then -v else v
  }

  /** The comparator `Math.abs(b[1]) - Math.abs(a[1])`: larger magnitudes first. */
  function ByMagnitude(l: Listed): SortKey {
    SortKey(-Abs(l.value), "")
  }

  /** `arr.sort(...)` in `fillGiftList`: the listings by non-increasing magnitude. */
  function OrderByMagnitude(arr: seq<Listed>): (r: seq<Listed>)
    ensures multiset(r) == multiset(arr)
    ensures forall i, j :: 0 <= i < j < |r| ==> Abs(r[i].value) >= Abs(r[j].value)
  {
    var r := SortBy(arr, ByMagnitude);
    assert forall i, j :: 0 <= i < j < |r| ==> KeyLe(ByMagnitude(r[i]), ByMagnitude(r[j]));
    r
  }

  /** `${name} (${value > 0 ? "+" : ""}${value})`. */
  function EntryLabel(l: Listed): string {
    Text(l.name) + " (" + SignedText(l.value) + ")"
  }

  /**
    A label shows the gift's name and its value, with "+" only before a
    positive value and "-" only before a negative one.
   */
  lemma EntryLabelSpec(l: Listed)
    ensures exists t :: EntryLabel(l) == Text(l.name) + " (" + t + ")" && ParseSigned(t) == l.value && |t| > 0
                        && (t[0] == '+' <==> l.value > 0) && (t[0] == '-' <==> l.value < 0)
  {
    SignedTextRoundTrip(l.value);
    assert EntryLabel(l) == Text(l.name) + " (" + SignedText(l.value) + ")";
  }

  const NoneLine := "— none —"

  /**
    `fillGiftList(id, arr)`: a placeholder line for an empty bucket,
    otherwise one label per listing, largest magnitude first.
   */
  function GiftList(arr: seq<Listed>): (lines: seq<string>)
    ensures |arr| == 0 ==> lines == [NoneLine]
    ensures |arr| > 0 ==> |lines| == |arr|
    ensures |arr| > 0 ==> exists sorted :: IsMagnitudeOrder(arr, sorted) && forall i :: 0 <= i < |lines| ==> LabelAt(lines, sorted, i)
  {
    if |arr| == 0 then [NoneLine]
    else
      var sorted := OrderByMagnitude(arr);
      var lines := seq(|sorted|, i requires 0 <= i < |sorted| => EntryLabel(sorted[i]));
      assert IsMagnitudeOrder(arr, sorted);
      assert forall i :: 0 <= i < |lines| ==> LabelAt(lines, sorted, i);
      lines
  }

  /** `sorted` is `arr` rearranged by non-increasing magnitude. */
  predicate IsMagnitudeOrder(arr: seq<Listed>, sorted: seq<Listed>) {
    && multiset(sorted) == multiset(arr)
    && forall i, j :: 0 <= i < j < |sorted| ==> Abs(sorted[i].value) >= Abs(sorted[j].value)
  }

  predicate LabelAt(lines: seq<string>, sorted: seq<Listed>, i: int) {
    0 <= i < |lines| == |sorted| && lines[i] == EntryLabel(sorted[i])
  }

  /** The three gift lists the panel shows. */
  datatype GiftPanel = GiftPanel(fxpPos: seq<string>, fxpNeg: seq<string>, rxpPos: seq<string>)

  /**
    The gift half of `renderBlorbo`: the buckets, then one `fillGiftList`
    for each shown bucket. The negative RXP bucket is filled but not shown.
   */
  function RenderGifts(gifts: seq<Gift>, c: TraitsEntry, mods: seq<Option<Modifier>>): (r: Result<GiftPanel>)
    ensures r.TypeError? <==> |gifts| > 0 && !NoNull(mods)
    ensures |gifts| == 0 ==> r == Ok(GiftPanel([NoneLine], [NoneLine], [NoneLine]))
    ensures NoNull(mods) ==> r == Ok(GiftPanel(
              GiftList(Filter(Rows(gifts, c, mods, true), IsPositive)),
              GiftList(Filter(Rows(gifts, c, mods, true), IsNegative)),
              GiftList(Filter(Rows(gifts, c, mods, false), IsPositive))))
  {
    match Bucketize(gifts, c, mods)
    case TypeError => TypeError
    case Ok(b) => Ok(GiftPanel(GiftList(b.fxpPos), GiftList(b.fxpNeg), GiftList(b.rxpPos)))
  }
}
