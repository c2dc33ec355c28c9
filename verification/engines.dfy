/**
  How the Blorbo Lab engine relates to the gift calculator's engine. Where
  the older engine finds a match, the calculator finds one too; the converse
  fails on trait case and padding, on display-name targets and on the `show`
  kind, which only the calculator knows.
 */
module Engines {
  import opened Values
  import opened Strings
  import opened Data
  import opened Xp
  import opened Collections
  import Gifts
  import BlorboLab

  /**
    A strict match is also a lenient one, for a character whose traits entry
    is the one the calculator files under its command name, as long as a
    trait target is a non-empty string that does not normalise to "".
   */
  lemma StrictMatchIsLenientMatch(lk: Gifts.Lookups, traits: seq<TraitsEntry>, i: int, m: Modifier)
    requires lk.traitsByCharacter == Gifts.TraitsByCharacter(traits)
    requires 0 <= i < |traits| && traits[i].commandName.Some?
    requires LastWithKey(traits, Gifts.TraitsEntryOf, traits[i].commandName.value, i)
    requires m.kind == Some("trait") ==> Truthy(m.target) && Gifts.NormalizeTrait(m.target.value) != ""
    requires BlorboLab.Matches(traits[i], m)
    ensures Gifts.Applies(Gifts.ProfileOf(lk, traits[i]), m)
  {
    var c := traits[i];
    if m.kind == Some("trait") {
      var items := TraitItems(c);
      var j :| 0 <= j < |items| && items[j] == m.target;
      Gifts.TraitModifierAgainstEntry(lk, traits, c, i, m);
      assert Truthy(items[j]) && Gifts.NormalizeTrait(items[j].value) == Gifts.NormalizeTrait(OrElse(m.target, ""));
    }
  }

  /**
    Trait case and padding: when a character's trait and a trait target
    differ as written but normalise to the same non-empty text, the
    calculator matches and Blorbo Lab does not.
   */
  lemma TraitCaseAndPaddingDiffer(lk: Gifts.Lookups, traits: seq<TraitsEntry>, i: int, m: Modifier, x: string, y: string)
    requires lk.traitsByCharacter == Gifts.TraitsByCharacter(traits)
    requires 0 <= i < |traits| && traits[i].commandName.Some?
    requires LastWithKey(traits, Gifts.TraitsEntryOf, traits[i].commandName.value, i)
    requires Some(x) in TraitItems(traits[i]) && Some(y) !in TraitItems(traits[i])
    requires Gifts.NormalizeTrait(x) == Gifts.NormalizeTrait(y) != ""
    requires m.kind == Some("trait") && m.target == Some(y)
    ensures Gifts.Applies(Gifts.ProfileOf(lk, traits[i]), m)
    ensures !BlorboLab.Matches(traits[i], m)
  {
    TraitTargetApplies(lk, traits, i, m, x);
  }

  /** The trait "Scar" and the target " scar " normalise alike. */
  lemma ScarNormalizes()
    ensures Gifts.NormalizeTrait("Scar") == Gifts.NormalizeTrait(" scar ") == "scar"
  {
    assert Lower("Scar") == "scar" by {
      assert LowerChar('S') == 's';
    }
    assert Lower(" scar ") == " " + "scar" + " ";
    assert !IsSpace('s') && !IsSpace('r');
    TrimPadding("scar");
  }

  /** So do the targets "scar" and "SCAR ". */
  lemma ScarTargetsNormalize()
    ensures Gifts.NormalizeTrait("scar") == Gifts.NormalizeTrait("SCAR ") == "scar"
  {
    assert Lower("SCAR ") == "scar" + " " by {
      assert LowerChar('S') == 's' && LowerChar('C') == 'c' && LowerChar('A') == 'a' && LowerChar('R') == 'r';
    }
    assert Lower("scar") == "scar";
    assert !IsSpace('s') && !IsSpace('r');
    TrimPadding("scar");
    TrimTrailingSpace("scar");
  }

  /** A trait target that normalises like one of the character's traits applies in the calculator. */
  lemma TraitTargetApplies(lk: Gifts.Lookups, traits: seq<TraitsEntry>, i: int, m: Modifier, x: string)
    requires lk.traitsByCharacter == Gifts.TraitsByCharacter(traits)
    requires 0 <= i < |traits| && traits[i].commandName.Some?
    requires LastWithKey(traits, Gifts.TraitsEntryOf, traits[i].commandName.value, i)
    requires Some(x) in TraitItems(traits[i])
    requires m.kind == Some("trait") && m.target.Some? && Gifts.NormalizeTrait(x) == Gifts.NormalizeTrait(m.target.value) != ""
    ensures Gifts.Applies(Gifts.ProfileOf(lk, traits[i]), m)
  {
    var items := TraitItems(traits[i]);
    var j :| 0 <= j < |items| && items[j] == Some(x);
    NormalizedNonEmpty(x);
    assert OrElse(m.target, "") == m.target.value;
    assert Truthy(items[j]) && Gifts.NormalizeTrait(items[j].value) == Gifts.NormalizeTrait(OrElse(m.target, ""));
    Gifts.TraitModifierAgainstEntry(lk, traits, traits[i], i, m);
  }

  /** Only a non-empty trait can normalise to something non-empty. */
  lemma NormalizedNonEmpty(t: string)
    ensures Gifts.NormalizeTrait(t) != "" ==> t != ""
  {
    if t == "" {
      assert Lower(t) == "";
    }
  }

  /** With two modifiers filed under a gift and both applying, the effect is the base plus both deltas. */
  lemma BothApplyingAdd(lk: Gifts.Lookups, c: TraitsEntry, g: Gift, m1: Modifier, m2: Modifier)
    requires Gifts.ModsFor(lk, g) == [m1, m2]
    requires Gifts.Applies(Gifts.ProfileOf(lk, c), m1) && Gifts.Applies(Gifts.ProfileOf(lk, c), m2)
    ensures Gifts.ComputeEffect(lk, c, g) == Base(g).Plus(Delta(m1)).Plus(Delta(m2))
  {
    var f := Gifts.ContributionTo(Gifts.ProfileOf(lk, c));
    assert [m1, m2][..1] == [m1];
    assert [m1][..0] == [];
    assert f(m1) == Delta(m1) && f(m2) == Delta(m2);
    assert Sum([m1], f) == Zero.Plus(Delta(m1));
  }

  /**
    The targets "scar" and "SCAR " both match a character whose trait is
    written "Scar": with both modifiers filed under a gift, the calculator
    adds both deltas to the gift's base.
   */
  lemma ScarVariantsBothCount(lk: Gifts.Lookups, traits: seq<TraitsEntry>, i: int, g: Gift, m1: Modifier, m2: Modifier)
    requires lk.traitsByCharacter == Gifts.TraitsByCharacter(traits)
    requires 0 <= i < |traits| && traits[i].commandName.Some?
    requires LastWithKey(traits, Gifts.TraitsEntryOf, traits[i].commandName.value, i)
    requires Some("Scar") in TraitItems(traits[i])
    requires m1.kind == Some("trait") && m1.target == Some("scar")
    requires m2.kind == Some("trait") && m2.target == Some("SCAR ")
    requires Gifts.ModsFor(lk, g) == [m1, m2]
    ensures Gifts.ComputeEffect(lk, traits[i], g) == Base(g).Plus(Delta(m1)).Plus(Delta(m2))
  {
    ScarNormalizes();
    ScarTargetsNormalize();
    TraitTargetApplies(lk, traits, i, m1, "Scar");
    TraitTargetApplies(lk, traits, i, m2, "Scar");
    BothApplyingAdd(lk, traits[i], g, m1, m2);
  }

  /**
    Display-name targets: the calculator matches a `character` modifier
    aimed at the display name, Blorbo Lab only at the command name.
   */
  lemma DisplayNameTargetDiffers(lk: Gifts.Lookups, c: TraitsEntry, m: Modifier)
    requires m.kind == Some("character") && m.target == c.displayName && c.displayName != c.commandName
    ensures Gifts.Applies(Gifts.ProfileOf(lk, c), m)
    ensures !BlorboLab.Matches(c, m)
  {
  }

  /**
    The `show` kind: Blorbo Lab ignores it; the calculator applies it to a
    character filed under that show.
   */
  lemma ShowKindDiffers(lk: Gifts.Lookups, c: TraitsEntry, m: Modifier)
    requires m.kind == Some("show")
    requires c.commandName.Some? && c.commandName.value in lk.showByCommand
    requires m.target == Some(lk.showByCommand[c.commandName.value])
    ensures Gifts.Applies(Gifts.ProfileOf(lk, c), m)
    ensures BlorboLab.Contribution(c, m) == Zero
  {
  }
}
