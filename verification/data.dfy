/**
  The JSON records the pages load. Every field the scripts read through a
  guard (`||`, a truthiness test, `Array.isArray`) is optional.
 */
module Data {
  import opened Values
  import opened Xp

  /** Where the site's portraits live, relative to a page. */
  const ImgBase := "../assets/images/"

  /** An entry of character_traits.json. */
  datatype TraitsEntry = TraitsEntry(
    commandName: Option<string>,
    displayName: Option<string>,
    physicalTraits: Option<seq<Option<string>>>,
    personalityTraits: Option<seq<Option<string>>>,
    show: Option<string>,
    image: Option<string>)

  /** An entry of characters.json. */
  datatype CharacterEntry = CharacterEntry(
    commandName: Option<string>,
    title: Option<string>,
    show: Option<string>,
    image: Option<string>,
    aka: Option<seq<Option<string>>>)

  /** An entry of gifts.json. */
  datatype Gift = Gift(
    giftName: Option<string>,
    displayName: Option<string>,
    baseFxp: Option<int>,
    baseRxp: Option<int>)

  /** An entry of gift_modifiers.json. */
  datatype Modifier = Modifier(
    giftName: Option<string>,
    kind: Option<string>,
    target: Option<string>,
    fxpDelta: Option<int>,
    rxpDelta: Option<int>)

  /** An entry of the `users` list of claims.json; ids are held as the text `String(id)` gives. */
  datatype User = User(userId: Option<string>, userName: Option<string>)

  /** An entry of the `blorbos` list of claims.json. */
  datatype Blorbo = Blorbo(commandName: Option<string>, displayName: Option<string>)

  /** An entry of the `children` list of children.json. */
  datatype Child = Child(
    userId: Option<string>,
    birthParentId: Option<string>,
    babyFull: Option<string>,
    babyFirst: Option<string>,
    babyMiddle: Option<string>,
    babyLast: Option<string>,
    adoptedOut: bool,
    stage: Option<string>,
    father: Option<string>,
    babyId: Option<string>)

  /** Physical then personality traits; a missing list counts as empty. */
  function TraitItems(c: TraitsEntry): seq<Option<string>> {
    c.physicalTraits.GetOr([]) + c.personalityTraits.GetOr([])
  }

  /** A gift's base values, `base_fxp || 0` and `base_rxp || 0`. */
  function Base(g: Gift): Effect {
    Effect(NumOrZero(g.baseFxp), NumOrZero(g.baseRxp))
  }

  /** A modifier's deltas, `fxp_modifier || 0` and `rxp_modifier || 0`. */
  function Delta(m: Modifier): Effect {
    Effect(NumOrZero(m.fxpDelta), NumOrZero(m.rxpDelta))
  }
}
