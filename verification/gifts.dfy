/**
  The gift guide's rule engine: the lookup maps built once the data is
  loaded, and the fold of a gift's modifiers over its base FXP and RXP for
  one character. Trait targets match case-insensitively after trimming;
  `character` targets match the command name or the display name; `show`
  targets match the character's show; any other kind does nothing.
 */
module Gifts {
  import opened Values
  import opened Strings
  import opened Data
  import opened Xp
  import opened Collections
  import opened Ordering
  import opened Numbers

  /** The four lookup maps the page keeps. */
  datatype Lookups = Lookups(
    giftsByName: map<string, Gift>,
    traitsByCharacter: map<string, set<string>>,
    showByCommand: map<string, string>,
    modsByGift: map<string, seq<Modifier>>)

  /** `String(t).toLowerCase().trim()`. */
  function NormalizeTrait(t: string): string {
    Trim(Lower(t))
  }

  /**
    The character's trait set: the truthy entries of both lists, normalised,
    duplicates collapsed.
   */
  function NormalizedTraits(items: seq<Option<string>>): (r: set<string>)
    ensures forall x :: x in r <==> exists i :: 0 <= i < |items| && Truthy(items[i]) && NormalizeTrait(items[i].value) == x
  {
    var kept := Filter(items, (o: Option<string>) => Truthy(o));
    var normalized := seq(|kept|, i requires 0 <= i < |kept| => NormalizeTrait(kept[i].value));
    assert forall i :: 0 <= i < |items| && Truthy(items[i]) ==> NormalizeTrait(items[i].value) in normalized by {
      forall i | 0 <= i < |items| && Truthy(items[i])
        ensures NormalizeTrait(items[i].value) in normalized
      {
        assert items[i] in kept;
        var j :| 0 <= j < |kept| && kept[j] == items[i];
        assert normalized[j] == NormalizeTrait(items[i].value);
      }
    }
    set x | x in normalized
  }

  /** A name field that is truthy and equal to `k`. */
  predicate Named(name: Option<string>, k: string) {
    name == Some(k) && k != ""
  }

  function GiftEntry(g: Gift): Option<(string, Gift)> {
    if Truthy(g.giftName) then Some((g.giftName.value, g)) else None
  }

  function TraitsEntryOf(c: TraitsEntry): Option<(string, set<string>)> {
    if Truthy(c.commandName) then Some((c.commandName.value, NormalizedTraits(TraitItems(c)))) else None
  }

  function ShowEntry(c: CharacterEntry): Option<(string, string)> {
    if Truthy(c.commandName) && Truthy(c.show) then Some((c.commandName.value, c.show.value)) else None
  }

  /** A modifier is filed under gift `k` when it is not null and its truthy `gift_name` is `k`. */
  predicate FiledUnder(om: Option<Modifier>, k: string) {
    om.Some? && Truthy(om.value.giftName) && om.value.giftName.value == k
  }

  /** The modifiers filed under gift `k`, in input order. */
  function ModsFiledUnder(mods: seq<Option<Modifier>>, k: string): seq<Modifier> {
    if |mods| == 0 then []
    else
      var last := mods[|mods| - 1];
      ModsFiledUnder(mods[..|mods| - 1], k) + (if FiledUnder(last, k) then [last.value] else [])
  }

  /** The grouping loop: push each non-null modifier with a truthy `gift_name` onto its gift's list. */
  function GroupByGift(mods: seq<Option<Modifier>>): (m: map<string, seq<Modifier>>)
    ensures forall k :: k in m <==> ModsFiledUnder(mods, k) != []
    ensures forall k :: k in m ==> m[k] == ModsFiledUnder(mods, k)
  {
    if |mods| == 0 then map[]
    else
      var m := GroupByGift(mods[..|mods| - 1]);
      var last := mods[|mods| - 1];
      if last.Some? && Truthy(last.value.giftName) then
        var k := last.value.giftName.value;
        m[k := (if k in m then m[k] else []) + [last.value]]
      else m
  }

  /** `giftsByName`: every truthy gift name, holding the last gift of that name. */
  function GiftsByName(gifts: seq<Gift>): (m: map<string, Gift>)
    ensures forall k :: k in m <==> exists i :: 0 <= i < |gifts| && Named(gifts[i].giftName, k)
    ensures forall k, i :: LastWithKey(gifts, GiftEntry, k, i) ==> k in m && m[k] == gifts[i]
  {
    assert forall g, k :: HasKey(GiftEntry(g), k) <==> Named(g.giftName, k);
    IndexBy(gifts, GiftEntry)
  }

  /**
    `traitsByCharacter`: every truthy command name, holding the normalised
    trait set of the last entry with that name.
   */
  function TraitsByCharacter(traits: seq<TraitsEntry>): (m: map<string, set<string>>)
    ensures forall k :: k in m <==> exists i :: 0 <= i < |traits| && Named(traits[i].commandName, k)
    ensures forall k, i :: LastWithKey(traits, TraitsEntryOf, k, i) ==> k in m && m[k] == NormalizedTraits(TraitItems(traits[i]))
  {
    assert forall c, k :: HasKey(TraitsEntryOf(c), k) <==> Named(c.commandName, k);
    IndexBy(traits, TraitsEntryOf)
  }

  /** `showByCommand`: every truthy command name with a truthy show, holding the last such show. */
  function ShowByCommand(meta: seq<CharacterEntry>): (m: map<string, string>)
    ensures forall k :: k in m <==> exists i :: 0 <= i < |meta| && Named(meta[i].commandName, k) && Truthy(meta[i].show)
    ensures forall k, i :: LastWithKey(meta, ShowEntry, k, i) ==> k in m && m[k] == meta[i].show.value
  {
    assert forall c, k :: HasKey(ShowEntry(c), k) <==> Named(c.commandName, k) && Truthy(c.show);
    IndexBy(meta, ShowEntry)
  }

  /**
    `buildLookups()`: each map is keyed by exactly the truthy names its file
    supplies, the first three holding what the last entry of that name says
    and the modifier map every modifier filed under the gift, in file order.
   */
  function BuildLookups(
    gifts: seq<Gift>, traits: seq<TraitsEntry>, meta: seq<CharacterEntry>, mods: seq<Option<Modifier>>): (lk: Lookups)
    ensures forall k :: k in lk.giftsByName <==> exists i :: 0 <= i < |gifts| && Named(gifts[i].giftName, k)
    ensures forall k, i :: LastWithKey(gifts, GiftEntry, k, i) ==> k in lk.giftsByName && lk.giftsByName[k] == gifts[i]
    ensures forall k :: k in lk.traitsByCharacter <==> exists i :: 0 <= i < |traits| && Named(traits[i].commandName, k)
    ensures forall k, i :: LastWithKey(traits, TraitsEntryOf, k, i) ==>
              k in lk.traitsByCharacter && lk.traitsByCharacter[k] == NormalizedTraits(TraitItems(traits[i]))
    ensures forall k :: k in lk.showByCommand <==>
              exists i :: 0 <= i < |meta| && Named(meta[i].commandName, k) && Truthy(meta[i].show)
    ensures forall k, i :: LastWithKey(meta, ShowEntry, k, i) ==> k in lk.showByCommand && lk.showByCommand[k] == meta[i].show.value
    ensures forall k :: k in lk.modsByGift <==> ModsFiledUnder(mods, k) != []
    ensures forall k :: k in lk.modsByGift ==> lk.modsByGift[k] == ModsFiledUnder(mods, k)
  {
    Lookups(GiftsByName(gifts), TraitsByCharacter(traits), ShowByCommand(meta), GroupByGift(mods))
  }

  /** What `computeEffect` knows about the character, read from the lookup maps. */
  datatype Profile = Profile(
    commandName: Option<string>,
    displayName: Option<string>,
    traits: set<string>,
    show: Option<string>)

  /** The trait set (empty when unknown) and the show (null when unknown) filed under the character's command name. */
  function ProfileOf(lk: Lookups, c: TraitsEntry): Profile {
    var traits := if c.commandName.Some? && c.commandName.value in lk.traitsByCharacter
                  then lk.traitsByCharacter[c.commandName.value] else {};
    var show := if c.commandName.Some? && c.commandName.value in lk.showByCommand
                then Some(lk.showByCommand[c.commandName.value]) else None;
    Profile(c.commandName, c.displayName, traits, show)
  }

  /** Whether modifier `m` applies to the character `p` describes. */
  predicate Applies(p: Profile, m: Modifier) {
    if m.kind == Some("trait") then
      var target := NormalizeTrait(OrElse(m.target, ""));
      target != "" && target in p.traits
    else if m.kind == Some("character") then
      p.commandName == m.target || p.displayName == m.target
    else if m.kind == Some("show") then
      p.show.Some? && p.show == m.target
    else
      false
  }

  /** What one modifier adds to the running totals. */
  function Contribution(p: Profile, m: Modifier): Effect {
    if Applies(p, m) then Delta(m) else Zero
  }

  function ContributionTo(p: Profile): Modifier -> Effect {
    m => Contribution(p, m)
  }

  /**
    The loop of `computeEffect`: the totals after the modifiers in `mods`
    have been visited in order, starting from `acc`. They are `acc` plus the
    sum of the deltas of the modifiers that apply.
   */
  function Accumulate(p: Profile, acc: Effect, mods: seq<Modifier>): (r: Effect)
    ensures r == acc.Plus(Sum(mods, ContributionTo(p)))
  {
    if |mods| == 0 then acc
    else
      var before := Accumulate(p, acc, mods[..|mods| - 1]);
      var m := mods[|mods| - 1];
      if Applies(p, m) then before.Plus(Delta(m)) else before
  }

  /** `modsByGift.get(gift.gift_name) || []`. */
  function ModsFor(lk: Lookups, g: Gift): seq<Modifier> {
    if g.giftName.Some? && g.giftName.value in lk.modsByGift then lk.modsByGift[g.giftName.value] else []
  }

  /**
    `computeEffect(character, gift)`: the gift's base values plus the deltas
    of every modifier filed under the gift that applies to the character.
   */
  function ComputeEffect(lk: Lookups, c: TraitsEntry, g: Gift): (e: Effect)
    ensures e == Base(g).Plus(Sum(ModsFor(lk, g), ContributionTo(ProfileOf(lk, c))))
  {
    Accumulate(ProfileOf(lk, c), Base(g), ModsFor(lk, g))
  }

  lemma {:induction false} SumOfNoneApplying(p: Profile, mods: seq<Modifier>)
    requires forall i :: 0 <= i < |mods| ==> !Applies(p, mods[i])
    ensures Sum(mods, ContributionTo(p)) == Zero
  {
    if |mods| > 0 {
      SumOfNoneApplying(p, mods[..|mods| - 1]);
    }
  }

  /** No modifier of `mods` applies to `p`. */
  predicate NoneApplies(p: Profile, mods: seq<Modifier>) {
    forall i :: 0 <= i < |mods| ==> !Applies(p, mods[i])
  }

  /**
    With no applicable modifier the result is the base values, an absent or
    zero base counting as 0.
   */
  lemma NoApplicableModifierGivesBase(lk: Lookups, c: TraitsEntry, g: Gift)
    requires NoneApplies(ProfileOf(lk, c), ModsFor(lk, g))
    ensures ComputeEffect(lk, c, g) == Effect(g.baseFxp.GetOr(0), g.baseRxp.GetOr(0))
    ensures g.baseFxp.None? ==> ComputeEffect(lk, c, g).fxp == 0
    ensures g.baseRxp.None? ==> ComputeEffect(lk, c, g).rxp == 0
  {
    var p, mods := ProfileOf(lk, c), ModsFor(lk, g);
    SumOfNoneApplying(p, mods);
    PlusZero(Base(g), Sum(mods, ContributionTo(p)));
  }

  /** What a raw entry of the modifier list adds for gift name `name`. */
  function RawContribution(p: Profile, name: Option<string>, om: Option<Modifier>): Effect {
    if name.Some? && FiledUnder(om, name.value) then Contribution(p, om.value) else Zero
  }

  function RawContributionTo(p: Profile, name: Option<string>): Option<Modifier> -> Effect {
    om => RawContribution(p, name, om)
  }

  lemma {:induction false} FiledSumIsRawSum(p: Profile, name: string, mods: seq<Option<Modifier>>)
    ensures Sum(ModsFiledUnder(mods, name), ContributionTo(p)) == Sum(mods, RawContributionTo(p, Some(name)))
  {
    if |mods| > 0 {
      var prefix := mods[..|mods| - 1];
      FiledSumIsRawSum(p, name, prefix);
      var last := mods[|mods| - 1];
      if FiledUnder(last, name) {
        SumAppend(ModsFiledUnder(prefix, name), [last.value], ContributionTo(p));
        assert [last.value][..0] == [];
      } else {
        assert ModsFiledUnder(mods, name) == ModsFiledUnder(prefix, name);
        PlusZero(Sum(prefix, RawContributionTo(p, Some(name))), RawContributionTo(p, Some(name))(last));
      }
    }
  }

  lemma {:induction false} RawSumWithoutName(p: Profile, name: Option<string>, mods: seq<Option<Modifier>>)
    requires name.None? || name == Some("")
    ensures Sum(mods, RawContributionTo(p, name)) == Zero
  {
    if |mods| > 0 {
      RawSumWithoutName(p, name, mods[..|mods| - 1]);
    }
  }

  /** The modifiers `computeEffect` visits are those filed under the gift's truthy name. */
  lemma ModsForGrouped(lk: Lookups, mods: seq<Option<Modifier>>, g: Gift)
    requires lk.modsByGift == GroupByGift(mods)
    ensures ModsFor(lk, g) == if Truthy(g.giftName) then ModsFiledUnder(mods, g.giftName.value) else []
  {
    if g.giftName == Some("") {
      assert ModsFiledUnder(mods, "") == [] by {
        NothingFiledUnderEmpty(mods);
      }
    }
  }

  lemma {:induction false} NothingFiledUnderEmpty(mods: seq<Option<Modifier>>)
    ensures ModsFiledUnder(mods, "") == []
  {
    if |mods| > 0 {
      NothingFiledUnderEmpty(mods[..|mods| - 1]);
    }
  }

  /**
    Against the full modifier list: the effect is the base values plus the
    deltas of every entry that is filed under the gift's name and applies.
   */
  lemma EffectOverAllModifiers(lk: Lookups, mods: seq<Option<Modifier>>, c: TraitsEntry, g: Gift)
    requires lk.modsByGift == GroupByGift(mods)
    ensures ComputeEffect(lk, c, g) == Base(g).Plus(Sum(mods, RawContributionTo(ProfileOf(lk, c), g.giftName)))
  {
    var p := ProfileOf(lk, c);
    ModsForGrouped(lk, mods, g);
    if Truthy(g.giftName) {
      FiledSumIsRawSum(p, g.giftName.value, mods);
    } else {
      RawSumWithoutName(p, g.giftName, mods);
    }
  }

  /** Reordering the modifier list leaves every computed effect unchanged. */
  lemma ReorderingModifiersKeepsEffect(
    gifts: seq<Gift>, traits: seq<TraitsEntry>, meta: seq<CharacterEntry>,
    mods: seq<Option<Modifier>>, shuffled: seq<Option<Modifier>>, c: TraitsEntry, g: Gift)
    requires multiset(shuffled) == multiset(mods)
    ensures ComputeEffect(BuildLookups(gifts, traits, meta, mods), c, g)
         == ComputeEffect(BuildLookups(gifts, traits, meta, shuffled), c, g)
  {
    var lk1 := BuildLookups(gifts, traits, meta, mods);
    var lk2 := BuildLookups(gifts, traits, meta, shuffled);
    assert ProfileOf(lk1, c) == ProfileOf(lk2, c);
    EffectOverAllModifiers(lk1, mods, c, g);
    EffectOverAllModifiers(lk2, shuffled, c, g);
    SumPermutation(mods, shuffled, RawContributionTo(ProfileOf(lk1, c), g.giftName));
  }

  /**
    The per-kind rules. A `trait` target is compared after normalisation, so
    "SCAR " and "scar" behave alike and an empty target never applies. A
    `character` target adds its delta once when it names the command name or
    the display name, even if both do. A `show` target never applies to a
    character without a show entry. Any other kind adds nothing.
   */
  lemma ContributionByKind(p: Profile, m: Modifier)
    ensures m.kind == Some("trait") ==>
              (Contribution(p, m) == (if NormalizeTrait(OrElse(m.target, "")) in p.traits - {""} then Delta(m) else Zero))
    ensures m.kind == Some("trait") && NormalizeTrait(OrElse(m.target, "")) == "" ==> Contribution(p, m) == Zero
    ensures m.kind == Some("character") && (p.commandName == m.target || p.displayName == m.target) ==>
              Contribution(p, m) == Delta(m)
    ensures m.kind == Some("character") && p.commandName != m.target && p.displayName != m.target ==>
              Contribution(p, m) == Zero
    ensures m.kind == Some("show") && p.show.None? ==> Contribution(p, m) == Zero
    ensures m.kind == Some("show") && p.show.Some? ==> Contribution(p, m) == (if p.show == m.target then Delta(m) else Zero)
    ensures m.kind !in {Some("trait"), Some("character"), Some("show")} ==> Contribution(p, m) == Zero
  {
  }

  /** Two trait targets that normalise alike apply alike. */
  lemma TraitTargetsCompareNormalized(p: Profile, m1: Modifier, m2: Modifier)
    requires m1.kind == m2.kind == Some("trait")
    requires NormalizeTrait(OrElse(m1.target, "")) == NormalizeTrait(OrElse(m2.target, ""))
    ensures Applies(p, m1) <==> Applies(p, m2)
  {
  }

  /**
    A trait modifier applies to a character exactly when its normalised
    target is non-empty and equals the normalisation of some truthy trait,
    physical or personality, of the last traits entry with that command name.
   */
  lemma TraitModifierAgainstEntry(lk: Lookups, traits: seq<TraitsEntry>, c: TraitsEntry, i: int, m: Modifier)
    requires lk.traitsByCharacter == TraitsByCharacter(traits)
    requires c.commandName.Some? && LastWithKey(traits, TraitsEntryOf, c.commandName.value, i)
    requires m.kind == Some("trait")
    ensures Applies(ProfileOf(lk, c), m) <==>
              var target := NormalizeTrait(OrElse(m.target, ""));
              var items := TraitItems(traits[i]);
              target != "" && exists j :: 0 <= j < |items| && Truthy(items[j]) && NormalizeTrait(items[j].value) == target
  {
    assert ProfileOf(lk, c).traits == NormalizedTraits(TraitItems(traits[i]));
  }

  /** A character whose command name has no traits entry has an empty trait set, so no trait modifier applies. */
  lemma NoTraitsEntryNoTraitMatch(lk: Lookups, traits: seq<TraitsEntry>, c: TraitsEntry, m: Modifier)
    requires lk.traitsByCharacter == TraitsByCharacter(traits)
    requires forall i :: 0 <= i < |traits| ==> traits[i].commandName != c.commandName
    requires m.kind == Some("trait")
    ensures !Applies(ProfileOf(lk, c), m)
  {
    if c.commandName.Some? {
      assert forall i :: 0 <= i < |traits| ==> !Named(traits[i].commandName, c.commandName.value);
    }
  }

  function DeltaClass(v: int): string {
    if v > 0 then "delta-pos" else if v < 0 then "delta-neg" else ""
  }

  /** `formatDelta(v)`. */
  function FormatDelta(v: int): string {
    "<span class=\"" + DeltaClass(v) + "\">" + SignedText(v) + "</span>"
  }

  /**
    The delta cell is a span whose class and text follow the value's sign:
    the text reads back as the value itself, never clamped, with "+" only
    before a strictly positive value; the class is "delta-pos" or
    "delta-neg" by sign, and empty for zero.
   */
  lemma FormatDeltaSpec(v: int)
    ensures exists cls, text ::
              && FormatDelta(v) == "<span class=\"" + cls + "\">" + text + "</span>"
              && ParseSigned(text) == v && |text| > 0
              && (text[0] == '+' <==> v > 0)
              && (text[0] == '-' <==> v < 0)
              && (cls == "delta-pos" <==> v > 0)
              && (cls == "delta-neg" <==> v < 0)
              && (cls == "" <==> v == 0)
  {
    SignedTextRoundTrip(v);
    var cls, text := DeltaClass(v), SignedText(v);
    assert FormatDelta(v) == "<span class=\"" + cls + "\">" + text + "</span>";
  }

  /** A row of the gift-only table. */
  datatype CharacterRow = CharacterRow(character: TraitsEntry, effect: Effect)

  /** A row of the character-only table. */
  datatype GiftRow = GiftRow(gift: Gift, effect: Effect)

  function Total(e: Effect): int {
    e.fxp + e.rxp
  }

  function CharacterRows(lk: Lookups, chars: seq<TraitsEntry>, g: Gift): (r: seq<CharacterRow>)
    ensures |r| == |chars| && forall i :: 0 <= i < |chars| ==> r[i] == CharacterRow(chars[i], ComputeEffect(lk, chars[i], g))
  {
    seq(|chars|, i requires 0 <= i < |chars| => CharacterRow(chars[i], ComputeEffect(lk, chars[i], g)))
  }

  function GiftRows(lk: Lookups, gifts: seq<Gift>, c: TraitsEntry): (r: seq<GiftRow>)
    ensures |r| == |gifts| && forall i :: 0 <= i < |gifts| ==> r[i] == GiftRow(gifts[i], ComputeEffect(lk, c, gifts[i]))
  {
    seq(|gifts|, i requires 0 <= i < |gifts| => GiftRow(gifts[i], ComputeEffect(lk, c, gifts[i])))
  }

  /** `(b.fxp + b.rxp) - (a.fxp + a.rxp)`: the higher total comes first. */
  function CharacterRowKey(r: CharacterRow): SortKey {
    SortKey(-Total(r.effect), "")
  }

  function GiftRowKey(r: GiftRow): SortKey {
    SortKey(-Total(r.effect), "")
  }

  /**
    The gift-only view: every character with its effect for `g`, ordered by
    total XP (FXP + RXP), highest first.
   */
  function RankCharacters(lk: Lookups, chars: seq<TraitsEntry>, g: Gift): (rows: seq<CharacterRow>)
    ensures multiset(rows) == multiset(CharacterRows(lk, chars, g))
    ensures forall i, j :: 0 <= i < j < |rows| ==> Total(rows[i].effect) >= Total(rows[j].effect)
  {
    var unsorted := CharacterRows(lk, chars, g);
    var rows := SortBy(unsorted, CharacterRowKey);
    SameElements(rows, unsorted);
    assert forall i, j :: 0 <= i < j < |rows| ==> KeyLe(CharacterRowKey(rows[i]), CharacterRowKey(rows[j]));
    rows
  }

  /**
    The character-only view: every gift with its effect on `c`, ordered by
    total XP, highest first.
   */
  function RankGifts(lk: Lookups, gifts: seq<Gift>, c: TraitsEntry): (rows: seq<GiftRow>)
    ensures multiset(rows) == multiset(GiftRows(lk, gifts, c))
    ensures forall i, j :: 0 <= i < j < |rows| ==> Total(rows[i].effect) >= Total(rows[j].effect)
  {
    var unsorted := GiftRows(lk, gifts, c);
    var rows := SortBy(unsorted, GiftRowKey);
    SameElements(rows, unsorted);
    assert forall i, j :: 0 <= i < j < |rows| ==> KeyLe(GiftRowKey(rows[i]), GiftRowKey(rows[j]));
    rows
  }

  /** Each ranked row pairs a listed character with its effect for the gift, and every character has a row. */
  lemma RankedCharacterRows(lk: Lookups, chars: seq<TraitsEntry>, g: Gift)
    ensures |RankCharacters(lk, chars, g)| == |chars|
    ensures forall r :: r in RankCharacters(lk, chars, g) ==> r.character in chars && r.effect == ComputeEffect(lk, r.character, g)
    ensures forall i :: 0 <= i < |chars| ==> CharacterRow(chars[i], ComputeEffect(lk, chars[i], g)) in RankCharacters(lk, chars, g)
  {
    var rows, u := RankCharacters(lk, chars, g), CharacterRows(lk, chars, g);
    SameElements(rows, u);
    forall r | r in rows
      ensures r.character in chars && r.effect == ComputeEffect(lk, r.character, g)
    {
      var k :| 0 <= k < |u| && u[k] == r;
    }
    forall i | 0 <= i < |chars|
      ensures CharacterRow(chars[i], ComputeEffect(lk, chars[i], g)) in rows
    {
      assert u[i] in rows;
    }
  }

  /** Each ranked row pairs a listed gift with its effect on the character, and every gift has a row. */
  lemma RankedGiftRows(lk: Lookups, gifts: seq<Gift>, c: TraitsEntry)
    ensures |RankGifts(lk, gifts, c)| == |gifts|
    ensures forall r :: r in RankGifts(lk, gifts, c) ==> r.gift in gifts && r.effect == ComputeEffect(lk, c, r.gift)
    ensures forall i :: 0 <= i < |gifts| ==> GiftRow(gifts[i], ComputeEffect(lk, c, gifts[i])) in RankGifts(lk, gifts, c)
  {
    var rows, u := RankGifts(lk, gifts, c), GiftRows(lk, gifts, c);
    SameElements(rows, u);
    forall r | r in rows
      ensures r.gift in gifts && r.effect == ComputeEffect(lk, c, r.gift)
    {
      var k :| 0 <= k < |u| && u[k] == r;
    }
    forall i | 0 <= i < |gifts|
      ensures GiftRow(gifts[i], ComputeEffect(lk, c, gifts[i])) in rows
    {
      assert u[i] in rows;
    }
  }

  /** `charactersWithTraits.find(x => x.command_name === name)`: the first entry with that command name. */
  function FindByCommand(chars: seq<TraitsEntry>, name: string): (r: Option<TraitsEntry>)
    ensures r.None? <==> forall i :: 0 <= i < |chars| ==> chars[i].commandName != Some(name)
    ensures r.Some? ==> exists i :: 0 <= i < |chars| && chars[i] == r.value && chars[i].commandName == Some(name)
                                     && forall j :: 0 <= j < i ==> chars[j].commandName != Some(name)
  {
    if |chars| == 0 then None
    else if chars[0].commandName == Some(name) then Some(chars[0])
    else
      var r := FindByCommand(chars[1..], name);
      FindSkipsHead(chars, name, r);
      r
  }

  /** A search that skips a non-matching head finds what it finds in the tail, at a shifted position. */
  lemma FindSkipsHead(chars: seq<TraitsEntry>, name: string, r: Option<TraitsEntry>)
    requires |chars| > 0 && chars[0].commandName != Some(name)
    requires r.None? <==> forall i :: 0 <= i < |chars| - 1 ==> chars[1..][i].commandName != Some(name)
    requires r.Some? ==> exists i :: 0 <= i < |chars| - 1 && chars[1..][i] == r.value && chars[1..][i].commandName == Some(name)
                                       && forall j :: 0 <= j < i ==> chars[1..][j].commandName != Some(name)
    ensures r.None? <==> forall i :: 0 <= i < |chars| ==> chars[i].commandName != Some(name)
    ensures r.Some? ==> exists i :: 0 <= i < |chars| && chars[i] == r.value && chars[i].commandName == Some(name)
                                     && forall j :: 0 <= j < i ==> chars[j].commandName != Some(name)
  {
    assert forall i :: 1 <= i < |chars| ==> chars[i] == chars[1..][i - 1];
    if r.Some? {
      var i :| 0 <= i < |chars| - 1 && chars[1..][i] == r.value && chars[1..][i].commandName == Some(name)
               && forall j :: 0 <= j < i ==> chars[1..][j].commandName != Some(name);
      assert chars[i + 1] == r.value;
    }
  }

  /** What `render()` puts on the page. */
  datatype GuideView =
    | PickSomething
    | Missing(message: string)
    | Single(character: TraitsEntry, gift: Gift, effect: Effect)
    | CharactersFor(gift: Gift, characterRows: seq<CharacterRow>)
    | GiftsFor(character: TraitsEntry, giftRows: seq<GiftRow>)

  /**
    `render()` for the picked gift name and command name ("" when unset):
    the prompt when neither is picked, a not-found message when a picked one
    is unknown, else the single effect, or every character ranked for the
    gift, or every gift ranked for the character.
   */
  function Render(lk: Lookups, chars: seq<TraitsEntry>, gifts: seq<Gift>, giftName: string, charName: string): (v: GuideView)
    ensures v == PickSomething <==> giftName == "" && charName == ""
    ensures v.Missing? <==>
              (giftName != "" && giftName !in lk.giftsByName) || (charName != "" && FindByCommand(chars, charName).None?)
    ensures v.Missing? && giftName != "" && charName != "" ==> v.message == "Selection not found in data."
    ensures v.Missing? && charName == "" ==> v.message == "Gift not found."
    ensures v.Missing? && giftName == "" ==> v.message == "Character not found."
    ensures v.Single? ==> && giftName != "" && charName != ""
                          && v.gift == lk.giftsByName[giftName]
                          && v.character.commandName == Some(charName) && v.character in chars
                          && v.effect == ComputeEffect(lk, v.character, v.gift)
    ensures v.Single? ==> v.character == FindByCommand(chars, charName).value
    ensures v.CharactersFor? <==> giftName != "" && charName == "" && giftName in lk.giftsByName
    ensures v.CharactersFor? ==> v.gift == lk.giftsByName[giftName] && |v.characterRows| == |chars|
    ensures v.CharactersFor? ==> v.characterRows == RankCharacters(lk, chars, v.gift)
    ensures v.CharactersFor? ==> forall i, j :: 0 <= i < j < |v.characterRows| ==>
              Total(v.characterRows[i].effect) >= Total(v.characterRows[j].effect)
    ensures v.GiftsFor? <==> giftName == "" && charName != "" && FindByCommand(chars, charName).Some?
    ensures v.GiftsFor? ==> v.character.commandName == Some(charName) && |v.giftRows| == |gifts|
    ensures v.GiftsFor? ==> v.character == FindByCommand(chars, charName).value
    ensures v.GiftsFor? ==> v.giftRows == RankGifts(lk, gifts, v.character)
    ensures v.GiftsFor? ==> forall i, j :: 0 <= i < j < |v.giftRows| ==>
              Total(v.giftRows[i].effect) >= Total(v.giftRows[j].effect)
  {
    if giftName == "" && charName == "" then PickSomething
    else if giftName != "" && charName != "" then
      var c := FindByCommand(chars, charName);
      if giftName !in lk.giftsByName || c.None? then Missing("Selection not found in data.")
      else
        var g := lk.giftsByName[giftName];
        Single(c.value, g, ComputeEffect(lk, c.value, g))
    else if giftName != "" then
      if giftName !in lk.giftsByName then Missing("Gift not found.")
      else
        var g := lk.giftsByName[giftName];
        var rows := RankCharacters(lk, chars, g);
        assert |multiset(rows)| == |chars|;
        CharactersFor(g, rows)
    else
      var c := FindByCommand(chars, charName);
      if c.None? then Missing("Character not found.")
      else
        var rows := RankGifts(lk, gifts, c.value);
        assert |multiset(rows)| == |gifts|;
        GiftsFor(c.value, rows)
  }
}
