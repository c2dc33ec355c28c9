/**
  The traits page: the lookups by command name, the character picker, and
  what picking a character puts in the summary line and the trait card.
 */
module Traits {
  import opened Values
  import opened Strings
  import opened Data
  import opened Collections
  import opened Ordering
  import opened Shows
  import opened Html

  /** `traitsByCommand` files every non-null entry with a truthy command name under that name. */
  function TraitsKey(t: Option<TraitsEntry>): Option<(string, TraitsEntry)> {
    if t.Some? && Truthy(t.value.commandName) then Some((t.value.commandName.value, t.value)) else None
  }

  /** `metaByCommand` does the same for characters.json. */
  function MetaKey(c: Option<CharacterEntry>): Option<(string, CharacterEntry)> {
    if c.Some? && Truthy(c.value.commandName) then Some((c.value.commandName.value, c.value)) else None
  }

  datatype Lookups = Lookups(traitsByCommand: map<string, TraitsEntry>, metaByCommand: map<string, CharacterEntry>)

  /**
    `buildLookups()`: a name is a key exactly when some non-null entry
    carries it as a non-empty command name, and it holds the last such
    entry.
   */
  function BuildLookups(traitsList: seq<Option<TraitsEntry>>, meta: seq<Option<CharacterEntry>>): (lk: Lookups)
    ensures forall k :: k in lk.traitsByCommand <==>
              k != "" && exists i :: 0 <= i < |traitsList| && traitsList[i].Some? && traitsList[i].value.commandName == Some(k)
    ensures forall k, i :: LastWithKey(traitsList, TraitsKey, k, i) ==> lk.traitsByCommand[k] == traitsList[i].value
    ensures forall k :: k in lk.metaByCommand <==>
              k != "" && exists i :: 0 <= i < |meta| && meta[i].Some? && meta[i].value.commandName == Some(k)
    ensures forall k, i :: LastWithKey(meta, MetaKey, k, i) ==> lk.metaByCommand[k] == meta[i].value
  {
    var lk := Lookups(IndexBy(traitsList, TraitsKey), IndexBy(meta, MetaKey));
    assert forall i :: 0 <= i < |traitsList| ==> (TraitsKey(traitsList[i]).Some? <==> traitsList[i].Some? && Truthy(traitsList[i].value.commandName));
    lk
  }

  /** Each entry the lookups hold is filed under its own command name. */
  lemma LookupsFileByOwnName(traitsList: seq<Option<TraitsEntry>>, meta: seq<Option<CharacterEntry>>, k: string)
    ensures k in BuildLookups(traitsList, meta).traitsByCommand ==> BuildLookups(traitsList, meta).traitsByCommand[k].commandName == Some(k)
    ensures k in BuildLookups(traitsList, meta).metaByCommand ==> BuildLookups(traitsList, meta).metaByCommand[k].commandName == Some(k)
  {
    var lk := BuildLookups(traitsList, meta);
    if k in lk.traitsByCommand {
      IndexedKeyHasLast(traitsList, TraitsKey, k);
    }
    if k in lk.metaByCommand {
      IndexedKeyHasLast(meta, MetaKey, k);
    }
  }

  /** A picker entry: `opt.value` and `opt.textContent`. */
  datatype CharOption = CharOption(value: string, text: string)

  /** `t.display_name || t.command_name`, with a missing name shown as nothing. */
  function OptionText(t: TraitsEntry): string {
    OrElse(t.displayName, OrElse(t.commandName, ""))
  }

  /** An unset `command_name` becomes the option value "undefined". */
  function OptionFor(t: TraitsEntry): CharOption {
    CharOption(Text(t.commandName), OptionText(t))
  }

  function PickerKey(o: CharOption): SortKey {
    SortKey(0, Lower(o.text))
  }

  predicate NoNullEntry(traitsList: seq<Option<TraitsEntry>>) {
    forall i :: 0 <= i < |traitsList| ==> traitsList[i].Some?
  }

  function OptionList(traitsList: seq<Option<TraitsEntry>>): (r: seq<CharOption>)
    requires NoNullEntry(traitsList)
    ensures |r| == |traitsList| && forall i :: 0 <= i < |traitsList| ==> r[i] == OptionFor(traitsList[i].value)
  {
    seq(|traitsList|, i requires 0 <= i < |traitsList| => OptionFor(traitsList[i].value))
  }

  /**
    `buildPicker()`. A null entry throws: with two or more entries every one
    of them reaches the comparator, which reads `display_name` from both
    sides, and a lone entry reaches the loop's `t.command_name`. Otherwise
    there is one option per entry, ordered by lower-cased text.
   */
  function BuildPicker(traitsList: seq<Option<TraitsEntry>>): (r: Result<seq<CharOption>>)
    ensures r.TypeError? <==> !NoNullEntry(traitsList)
    ensures r.Ok? ==> multiset(r.value) == multiset(OptionList(traitsList))
    ensures r.Ok? ==> forall i, j :: 0 <= i < j < |r.value| ==> StrLe(Lower(r.value[i].text), Lower(r.value[j].text))
  {
    if !NoNullEntry(traitsList) then TypeError
    else
      var r := SortBy(OptionList(traitsList), PickerKey);
      assert forall i, j :: 0 <= i < j < |r| ==> KeyLe(PickerKey(r[i]), PickerKey(r[j]));
      Ok(r)
  }

  /** Every option whose entry has a command name selects an entry the lookups hold. */
  lemma PickedCharacterIsFound(traitsList: seq<Option<TraitsEntry>>, meta: seq<Option<CharacterEntry>>, o: CharOption)
    requires BuildPicker(traitsList).Ok? && o in BuildPicker(traitsList).value
    requires o.value != "" && o.value != "undefined"
    ensures o.value in BuildLookups(traitsList, meta).traitsByCommand
  {
    var u := OptionList(traitsList);
    SameElements(BuildPicker(traitsList).value, u);
    var i :| 0 <= i < |u| && u[i] == o;
    assert traitsList[i].value.commandName == Some(o.value);
  }

  const PickPrompt := "Pick a character from the menu above."
  const NotFoundMessage := "Character not found in trait data."

  datatype Portrait = Portrait(src: string, alt: string)

  /** A trait column: the escaped items, or the "No … traits listed." line. */
  datatype Column = Listed(items: seq<string>) | NoneListed

  datatype Card = Card(portrait: Option<Portrait>, heading: string, badge: Option<string>, physical: Column, personality: Column)

  /** The summary line's text and the card, if any. */
  datatype Screen = Screen(summary: string, card: Option<Card>)

  /** `metaByCommand.get(commandName) || {}`. */
  function MetaOf(lk: Lookups, cmd: string): CharacterEntry {
    if cmd in lk.metaByCommand then lk.metaByCommand[cmd] else CharacterEntry(None, None, None, None, None)
  }

  /** `t.display_name || meta.title || commandName`. */
  function NameOf(t: TraitsEntry, meta: CharacterEntry, cmd: string): (r: string)
    ensures cmd != "" ==> r != ""
    ensures Truthy(t.displayName) ==> r == t.displayName.value
    ensures !Truthy(t.displayName) && Truthy(meta.title) ==> r == meta.title.value
    ensures !Truthy(t.displayName) && !Truthy(meta.title) ==> r == cmd
  {
    OrElse(t.displayName, OrElse(meta.title, cmd))
  }

  /** `prettifyShow(meta.show || t.show)`, null when neither is set. */
  function ShowLabelOf(t: TraitsEntry, meta: CharacterEntry): (r: Option<string>)
    ensures r.None? <==> !Truthy(meta.show) && !Truthy(t.show)
    ensures r.Some? ==> r.value != ""
    ensures Truthy(meta.show) && meta.show.value in ShowLabel ==> r == Some(ShowLabel[meta.show.value])
    ensures Truthy(meta.show) ==> r == Some(Prettify(meta.show.value))
    ensures !Truthy(meta.show) && Truthy(t.show) ==> r == Some(Prettify(t.show.value))
  {
    var key := FirstTruthy(meta.show, t.show);
    if key.Some? then PrettifySpec(key.value); Some(Prettify(key.value)) else None
  }

  /** `t.image || meta.image`. */
  function ImageOf(t: TraitsEntry, meta: CharacterEntry): Option<string> {
    FirstTruthy(t.image, meta.image)
  }

  /** `escapeHtml(tr)` on a list item: a missing item prints as nothing. */
  function ItemText(tr: Option<string>): string {
    EscapeHtml(tr.GetOr(""))
  }

  function ColumnOf(traits: Option<seq<Option<string>>>): (r: Column)
    ensures r.NoneListed? <==> traits.None? || |traits.value| == 0
    ensures r.Listed? ==> |r.items| == |traits.value|
  {
    var items := traits.GetOr([]);
    if |items| == 0 then NoneListed else Listed(seq(|items|, i requires 0 <= i < |items| => ItemText(items[i])))
  }

  /** Each listed item reads back as the trait it shows. */
  lemma ColumnShowsTraits(traits: Option<seq<Option<string>>>, i: int)
    requires ColumnOf(traits).Listed? && 0 <= i < |traits.value|
    ensures UnescapeHtml(ColumnOf(traits).items[i]) == traits.value[i].GetOr("")
    ensures traits.value[i].Some? ==> UnescapeHtml(ColumnOf(traits).items[i]) == traits.value[i].value
  {
    EscapeRoundTrip(traits.value[i].GetOr(""));
  }

  /** `renderCharacter(commandName)`. */
  function RenderCharacter(lk: Lookups, cmd: string): (r: Screen)
    ensures r.card.None? <==> cmd !in lk.traitsByCommand
    ensures r.card.None? ==> r.summary == NotFoundMessage
  {
    if cmd !in lk.traitsByCommand then Screen(NotFoundMessage, None)
    else
      var t := lk.traitsByCommand[cmd];
      var meta := MetaOf(lk, cmd);
      var name := NameOf(t, meta, cmd);
      var showLabel := ShowLabelOf(t, meta);
      var img := ImageOf(t, meta);
      var summary := if Truthy(showLabel) then name + " · " + showLabel.value else name;
      var portrait := if img.Some? then Some(Portrait(EscapeHtml(ImgBase + img.value), EscapeHtml(name) + " thumbnail")) else None;
      var badge := if Truthy(showLabel) then Some(EscapeHtml(showLabel.value)) else None;
      Screen(summary, Some(Card(portrait, EscapeHtml(name), badge, ColumnOf(t.physicalTraits), ColumnOf(t.personalityTraits))))
  }

  /**
    What a found character's screen shows: the summary is the name, followed
    by the show's label when there is one; the heading reads back as the
    name, never empty; the badge as the show's label; the portrait's source
    as the trait image, else the characters.json image, under the image
    directory; and a column is the "none listed" line exactly when that list
    is missing or empty.
   */
  lemma RenderCharacterSpec(lk: Lookups, cmd: string)
    requires cmd in lk.traitsByCommand
    ensures var t := lk.traitsByCommand[cmd];
            var meta := MetaOf(lk, cmd);
            var r := RenderCharacter(lk, cmd);
            && r.card.Some?
            && (ShowLabelOf(t, meta).None? ==> r.summary == NameOf(t, meta, cmd))
            && (ShowLabelOf(t, meta).Some? ==> r.summary == NameOf(t, meta, cmd) + " · " + ShowLabelOf(t, meta).value)
            && UnescapeHtml(r.card.value.heading) == NameOf(t, meta, cmd)
            && (cmd != "" ==> r.card.value.heading != "")
            && (r.card.value.badge.Some? <==> ShowLabelOf(t, meta).Some?)
            && (r.card.value.badge.Some? ==> UnescapeHtml(r.card.value.badge.value) == ShowLabelOf(t, meta).value)
            && (r.card.value.portrait.None? <==> !Truthy(t.image) && !Truthy(meta.image))
            && (Truthy(t.image) ==> UnescapeHtml(r.card.value.portrait.value.src) == ImgBase + t.image.value)
            && (!Truthy(t.image) && Truthy(meta.image) ==> UnescapeHtml(r.card.value.portrait.value.src) == ImgBase + meta.image.value)
            && (r.card.value.physical.NoneListed? <==> t.physicalTraits.None? || |t.physicalTraits.value| == 0)
            && (r.card.value.personality.NoneListed? <==> t.personalityTraits.None? || |t.personalityTraits.value| == 0)
  {
    var t := lk.traitsByCommand[cmd];
    var meta := MetaOf(lk, cmd);
    var name := NameOf(t, meta, cmd);
    EscapeRoundTrip(name);
    var showLabel := ShowLabelOf(t, meta);
    if showLabel.Some? {
      EscapeRoundTrip(showLabel.value);
    }
    var img := ImageOf(t, meta);
    if img.Some? {
      EscapeRoundTrip(ImgBase + img.value);
    }
  }

  /**
    The picker's `change` handler: an empty value brings back the prompt
    and clears the card; anything else renders that character.
   */
  function OnPick(lk: Lookups, value: string): (r: Screen)
    ensures r.card.Some? <==> value != "" && value in lk.traitsByCommand
    ensures value == "" ==> r.summary == PickPrompt
    ensures value != "" && value !in lk.traitsByCommand ==> r.summary == NotFoundMessage
    ensures r.card.Some? ==>
              UnescapeHtml(r.card.value.heading) == NameOf(lk.traitsByCommand[value], MetaOf(lk, value), value)
  {
    if value == "" then Screen(PickPrompt, None)
    else if value in lk.traitsByCommand then
      RenderCharacterSpec(lk, value);
      RenderCharacter(lk, value)
    else RenderCharacter(lk, value)
  }

  /** Picking any option of a data set with no null entry and non-empty command names shows a card. */
  lemma PickingShowsCard(traitsList: seq<Option<TraitsEntry>>, meta: seq<Option<CharacterEntry>>, o: CharOption)
    requires BuildPicker(traitsList).Ok? && o in BuildPicker(traitsList).value
    requires forall i :: 0 <= i < |traitsList| ==> Truthy(traitsList[i].value.commandName)
    ensures OnPick(BuildLookups(traitsList, meta), o.value).card.Some?
  {
    var u := OptionList(traitsList);
    SameElements(BuildPicker(traitsList).value, u);
    var i :| 0 <= i < |u| && u[i] == o;
    assert traitsList[i].value.commandName == Some(o.value);
  }
}
