# war-boys page logic in Dafny

The war-boys site is a static fan site for a role-play community. Its page
scripts load JSON data files (gifts, gift modifiers, character traits,
character metadata, claims and children) and compute what each page
shows. This project models the parts of those scripts that are pure
logic once the data is loaded, and proves properties of them:

- **Gift guide** (`Gifts`): the lookup maps, the XP rule engine
  `computeEffect`, the delta formatting, the ranking of rows by total XP,
  and the choice of view in `render`.
- **Blorbo Lab** (`BlorboLab`): an older and stricter version of the same
  engine, the sign bucketing of its results, and the gift lists it prints.
  `Engines` states exactly where the two engines agree and differ.
- **Children page** (`Children`): user labels, the picker's id set and
  order, the preselected viewer, the "raising" and "adopted out" lists,
  full names and role badges.
- **Character list** (`CharacterList`): portrait paths, grouping by show,
  section order, the in-group sort and the search filter.
- **Claims page** (`Claims`): picker options for users and blorbos, their
  labels, their order and the filter box, as `buildOptions` and
  `renderPicker` are written. The script file as a whole does not parse,
  so the shipped page runs none of it (see "## Left out").
- **Traits page** (`Traits`): lookups, the character picker, and the name,
  show, image and trait columns of a character card.

Shared pieces have their own modules:

| module | holds |
|---|---|
| `Values` | optional fields and JavaScript truthiness |
| `Strings` | ASCII case mapping, `trim`, `includes`, `join(" ")`/`split(" ")` and the word-capitalising regex |
| `Ordering` | the string order standing in for `localeCompare`, and a proved insertion sort |
| `Collections` | `filter`, `Map` building with last-wins, `Set` insertion order, `indexOf` |
| `Xp` | FXP/RXP pairs and their sums |
| `Numbers` | decimal printing of integers |
| `Html` | `escapeHtml` and the decoding that inverts it |
| `Shows` | the show labels and show order |

JSON records are datatypes in `Data`. A field the scripts may find missing
is an `Option`, and null and absent are the same `None`; `adopted_out`,
which the scripts only use for its truthiness, is a `bool`. Most lists are
sequences of records. The lists whose `null` entries the scripts meet
are sequences of `Option`: the traits page's two lists, and the modifier
lists of the gift guide and Blorbo Lab. Where a modelled step throws a
`TypeError`, it is a `Result` whose error case says exactly when that
happens.

## Model

| member | source | states |
|---|---|---|
| Gifts.NormalizedTraits | docs/gifts/gifts.js:72-80 | a text is in a character's trait set exactly when some truthy physical or personality entry, lower-cased then trimmed, equals it |
| Gifts.GiftsByName | docs/gifts/gifts.js:60-64 | the keys are exactly the truthy gift names, and each holds the last gift of that name |
| Gifts.TraitsByCharacter | docs/gifts/gifts.js:67-81 | the keys are exactly the truthy command names, and each holds the normalised trait set of the last entry with that name |
| Gifts.ShowByCommand | docs/gifts/gifts.js:84-89 | a command name is a key exactly when some entry has it and a truthy show, and it holds the last such show |
| Gifts.BuildLookups | docs/gifts/gifts.js:58-98 | each lookup map is keyed by exactly the truthy names its file supplies: gift names, command names, command names with a truthy show, and gift names with a filed modifier; the first three hold what the last entry of that name says, the last every filed modifier in file order |
| Gifts.GroupByGift | docs/gifts/gifts.js:92-97 | a gift name is a key exactly when some modifier is filed under it; the key holds exactly the non-null modifiers with that truthy `gift_name`, in input order |
| Gifts.Accumulate | docs/gifts/gifts.js:252-285 | after visiting the modifiers, the running totals are the start values plus the deltas of the modifiers that apply |
| Gifts.ComputeEffect | docs/gifts/gifts.js:248-288 | the effect is the gift's base plus the sum of the deltas of the applicable modifiers filed under the gift |
| Gifts.NoApplicableModifierGivesBase | docs/gifts/gifts.js:249-253 | with no applicable modifier the effect is the base values, and a missing base counts as 0 |
| Gifts.ModsForGrouped | docs/gifts/gifts.js:257 | the modifiers visited are those filed under the gift's truthy name, and none when the name is falsy |
| Gifts.EffectOverAllModifiers | docs/gifts/gifts.js:255-287 | against the whole modifier file, the effect is the base plus the deltas of every entry that is filed under the gift and applies |
| Gifts.ReorderingModifiersKeepsEffect | docs/gifts/gifts.js:257-285 | any permutation of the modifier file gives the same effect for every character and gift |
| Gifts.ContributionByKind | docs/gifts/gifts.js:267-284 | the rules per kind: a trait target is normalised and an empty one never applies; a character target adds its delta once if it names the command or display name; a show target needs a show entry; other kinds add nothing |
| Gifts.TraitTargetsCompareNormalized | docs/gifts/gifts.js:268-269 | two trait targets that normalise to the same text apply alike |
| Gifts.TraitModifierAgainstEntry | docs/gifts/gifts.js:267-272 | a trait modifier applies exactly when its normalised target is non-empty and equals the normalisation of some truthy trait of the character's last traits entry |
| Gifts.NoTraitsEntryNoTraitMatch | docs/gifts/gifts.js:255 | a character without a traits entry has an empty trait set, so no trait modifier applies |
| Gifts.FormatDeltaSpec | docs/gifts/gifts.js:362-367 | the delta span's text reads back as the value, never clamped, with "+" only before positive values; the class is `delta-pos`, `delta-neg` or empty by sign |
| Gifts.RankCharacters | docs/gifts/gifts.js:213-216 | the gift-only rows are a permutation of one row per character, in non-increasing total XP |
| Gifts.RankedCharacterRows | docs/gifts/gifts.js:213-216 | every character has a row, and every row pairs a listed character with its computed effect |
| Gifts.RankGifts | docs/gifts/gifts.js:235-238 | the character-only rows are a permutation of one row per gift, in non-increasing total XP |
| Gifts.RankedGiftRows | docs/gifts/gifts.js:235-238 | every gift has a row, and every row pairs a listed gift with its computed effect |
| Gifts.FindByCommand | docs/gifts/gifts.js:166 | the result is the first entry with that command name, and nothing exactly when there is none |
| Gifts.Render | docs/gifts/gifts.js:152-244 | the prompt exactly when nothing is picked; a not-found message exactly when a picked gift or character is unknown, reading "Gift not found." or "Character not found." when only that one was picked and "Selection not found in data." when both were; otherwise the single effect for the first character with the picked command name, or the rows of `RankCharacters` for the picked gift (every character, by non-increasing total), or those of `RankGifts` for the first character with the picked command name (every gift, by non-increasing total) |
| Html.EscapeHtml | docs/gifts/gifts.js:369-373 | the output holds no raw `<`, `>`, `"` or `'` and is never shorter than the input |
| Html.EscapeRoundTrip | docs/gifts/gifts.js:369-373 | decoding the five entities gives the original text back, so nothing is lost |
| Html.EscapePlainText | docs/gifts/gifts.js:369-373 | text without special characters is left unchanged |
| Numbers.SignedTextRoundTrip | docs/gifts/gifts.js:365-366 | the signed text reads back as the value and starts with "+" exactly for positive and "-" exactly for negative values |
| Numbers.ParseNatText | docs/gifts/gifts.js:366 | the decimal digits printed for a natural number read back as that number |
| Shows.PrettifySpec | docs/traits/traits.js:147-153 | a known key gives its label; otherwise underscores become spaces, the first letter of each word is upper-cased and every other character is kept; the result is empty exactly for the empty key |
| Shows.ShowOrderCoversLabels | docs/characters/list.js:6-21 | the show order lists each labelled show exactly once |
| Strings.Trim | docs/claims/claims.js:42 | the result is a contiguous part of the input with only whitespace removed around it, has no whitespace at either end, and is empty exactly when the input is all whitespace |
| Strings.TrimPadding | docs/gifts/gifts.js:268 | text with no whitespace at either end is its own trim, also when padded by a space on each side |
| Strings.TrimTrailingSpace | docs/gifts/gifts.js:268 | such text followed by one space trims back to itself |
| Strings.TitleWordsOnlyChangesCase | docs/characters/list.js:78 | capitalising word starts changes only the case of word-initial characters |
| Strings.CollapseSpacesRun | docs/characters/list.js:28 | a run of whitespace after a word becomes a single `_`, and the word is kept |
| Strings.CollapseSpacesNoSpace | docs/characters/list.js:28 | a name without whitespace is left unchanged |
| Strings.SplitJoin | docs/children/children.js:36 | joining space-free words with single spaces and splitting on spaces gives the words back |
| Strings.JoinSpaceContainsPart | docs/characters/list.js:102 | the space-joined search text contains each of its fields |
| Strings.ContainsLower | docs/claims/claims.js:43 | lower-casing both sides keeps a substring a substring |
| Ordering.LocaleCompareIsStrLe | docs/claims/claims.js:27 | the comparator is non-positive exactly when the first string is ordered first, and zero exactly for equal strings |
| Ordering.SortBy | docs/claims/claims.js:36 | sorting gives a permutation of the input ordered by the key |
| Collections.IndexBy | docs/traits/traits.js:49-52 | a map filled in a loop has exactly the keys of the entries that have one, and each key holds the value of its last entry |
| Collections.IndexedKeyHasLast | docs/traits/traits.js:49-52 | every key of such a map has a last entry filed under it |
| Collections.Filter | docs/characters/list.js:98-104 | the kept elements are exactly the input elements that pass the test |
| Collections.FilterKeepsInOrder | docs/characters/list.js:98-104 | the k-th kept element is the input element at the k-th passing position, so order and repetitions follow the input |
| Collections.KeepsInOrderUnique | docs/characters/list.js:98-104 | that description fixes the result: two lists kept in order from the same input by the same test are equal |
| Collections.FilterAppend | docs/characters/list.js:98-104 | filtering a concatenation concatenates the filtered parts, so kept elements stay in input order |
| Collections.AppendNew | docs/children/children.js:90 | adding to an insertion-ordered set keeps the elements distinct and the earlier order, and adds the new element |
| Collections.TruthyValues | docs/children/children.js:36 | `filter(Boolean)` keeps exactly the non-empty strings present |
| Collections.TruthyValuesInOrder | docs/children/children.js:36 | the k-th kept string is the field at the k-th truthy position, so order and repetitions follow the input |
| Collections.TruthyValuesOfThree | docs/children/children.js:36 | on three fields, the result is each truthy field's text, in field order |
| Collections.IndexOf | docs/characters/list.js:68 | the result is -1 exactly when the element is absent, and otherwise its first position |
| BlorboLab.Apply | docs/chemistry/blorbo-lab.js:127-138 | the loop's totals are the start values plus the deltas of the matching modifiers |
| BlorboLab.ComputeGiftResult | docs/chemistry/blorbo-lab.js:118-141 | a null modifier makes the call throw; otherwise the result is the base plus the deltas of matching modifiers whose `gift_name` equals the gift's |
| BlorboLab.FilteredSumIsRawSum | docs/chemistry/blorbo-lab.js:127-128 | summing over the filtered list equals summing over the whole list with other gifts' modifiers counting zero |
| BlorboLab.ReorderingModifiersKeepsResult | docs/chemistry/blorbo-lab.js:127-140 | any permutation of the modifier list gives the same result |
| BlorboLab.OtherGiftsModifiersIgnored | docs/chemistry/blorbo-lab.js:127-128 | adding modifiers for other gifts changes nothing |
| BlorboLab.NoModifiersGivesBase | docs/chemistry/blorbo-lab.js:119-120 | without modifiers for the gift the result is the base, and a missing base counts as 0 |
| BlorboLab.ContributionByKind | docs/chemistry/blorbo-lab.js:130-137 | a trait target must be one of the traits exactly as written; a character target must equal the command name; other kinds add nothing |
| BlorboLab.Bucketize | docs/chemistry/blorbo-lab.js:70-76 | for a gift list without null entries, the bucketing throws exactly when there is a gift and a null modifier; with no gifts all buckets are empty; without null modifiers each bucket is the per-gift FXP or RXP rows, in gift order, kept by sign |
| BlorboLab.BucketsAreFilters | docs/chemistry/blorbo-lab.js:70-76 | each bucket is the list of all gifts' results, in gift order, filtered by the sign of FXP or RXP |
| BlorboLab.BucketsBySign | docs/chemistry/blorbo-lab.js:72-75 | a gift's entry is in the positive bucket exactly for a positive value and in the negative one exactly for a negative value, in neither for zero, so each gift is in at most one bucket per kind |
| BlorboLab.OrderByMagnitude | docs/chemistry/blorbo-lab.js:110 | the list is a permutation ordered by non-increasing absolute value |
| BlorboLab.EntryLabelSpec | docs/chemistry/blorbo-lab.js:113 | an entry reads "name (value)" where the value reads back exactly and has "+" only when positive |
| BlorboLab.GiftList | docs/chemistry/blorbo-lab.js:100-116 | an empty bucket shows the "— none —" line; otherwise one label per entry, in magnitude order |
| BlorboLab.RenderGifts | docs/chemistry/blorbo-lab.js:78-80 | for a gift list without null entries, the panel throws exactly when bucketing does; with no gifts every list shows "— none —"; otherwise the three lists are the printed positive-FXP, negative-FXP and positive-RXP buckets |
| Engines.StrictMatchIsLenientMatch | docs/chemistry/blorbo-lab.js:130-137 | whatever the Blorbo Lab engine matches, the gift guide's engine matches too, for a trait target that is not blank |
| Engines.TraitCaseAndPaddingDiffer | docs/chemistry/blorbo-lab.js:130 | a target that equals a trait only after case folding and trimming matches in the gift guide and not in Blorbo Lab |
| Engines.ScarNormalizes | docs/gifts/gifts.js:268 | "Scar" and " scar " normalise to the same trait |
| Engines.ScarTargetsNormalize | docs/gifts/gifts.js:268 | "scar" and "SCAR " normalise to the same trait |
| Engines.TraitTargetApplies | docs/gifts/gifts.js:267-272 | a trait target normalising like one of the character's traits applies |
| Engines.BothApplyingAdd | docs/gifts/gifts.js:252-287 | two modifiers filed under a gift that both apply add both deltas to the base |
| Engines.ScarVariantsBothCount | docs/gifts/gifts.js:267-272 | for a character with the trait "Scar", trait modifiers aimed at "scar" and at "SCAR " both apply, so the effect is the base plus both deltas |
| Engines.DisplayNameTargetDiffers | docs/chemistry/blorbo-lab.js:133 | a character target naming the display name matches only in the gift guide |
| Engines.ShowKindDiffers | docs/gifts/gifts.js:278-282 | a show target matches in the gift guide and adds nothing in Blorbo Lab |
| Children.NameMap | docs/children/children.js:32 | the keys are the users' ids as strings, and each holds the last such user's name, or the id when the name is falsy |
| Children.UidLabelSpec | docs/children/children.js:33 | a known id with a name gives the name; otherwise the label is the id itself |
| Children.UserIds | docs/children/children.js:88 | the users' ids, each once |
| Children.AddChildIds | docs/children/children.js:89-92 | every truthy `user_id` and `birth_parent_id` is added once, after the ids already present |
| Children.PickerIds | docs/children/children.js:88-92 | the picker's ids are exactly the users' ids plus the children's truthy ids, each once, the users' first |
| Children.SortedIds | docs/children/children.js:93 | the ids are a permutation of the id set, ordered by label |
| Children.InitialViewer | docs/children/children.js:101 | a non-empty requested id in the id set is preselected |
| Children.InitialViewerIsOffered | docs/children/children.js:93-101 | the viewer is always an offered id, or "" when there are none; when the request is not honoured it is an id with the least label |
| Children.Raising | docs/children/children.js:109 | exactly the children whose `user_id` is the viewer, in input order and with repetitions kept |
| Children.AdoptedOut | docs/children/children.js:117-120 | exactly the children born to the viewer whose `user_id` is someone else, in input order and with repetitions kept |
| Children.RaisingAndAdoptedOutSplit | docs/children/children.js:109-120 | the two lists are disjoint, and every child born to the viewer is in one of them |
| Children.FullNameSpec | docs/children/children.js:36 | `baby_full` if truthy; otherwise the non-empty name parts joined by single spaces, which split back into those parts; empty exactly when there is no name at all |
| Children.FullNameOrder | docs/children/children.js:36 | without `baby_full`, first, middle and last give "first middle last", and without a middle name "first last" |
| Children.BadgeRules | docs/children/children.js:40-82 | no badge when caregiver and birth parent are the same; one "Birth parent" badge for the caregiver of a child adopted elsewhere; one "Adopted by" badge for the birth parent; otherwise caregiver, then birth parent |
| Children.CardOf | docs/children/children.js:36-50 | the heading is `baby_full` when truthy, else the joined name parts, else "(unnamed baby)", so never empty; the badges are those of the badge rules |
| Children.BoxOf | docs/children/children.js:110-125 | the empty message exactly for no children; otherwise one card per child, in order |
| Children.Render | docs/children/children.js:103-126 | "No children found." exactly when the viewer raises no child and "None." exactly when no child of the viewer's is raised elsewhere; otherwise card k of each box is the card of the k-th listed child, labelled with the users' names |
| Children.RaisedChildShown | docs/children/children.js:108-113 | every child whose `user_id` is the viewer has its card in the first box |
| Children.AdoptedChildShown | docs/children/children.js:116-124 | every child born to the viewer and raised by someone else has its card in the second box |
| CharacterList.CharImgSpec | docs/characters/list.js:27-30 | the entry's own image if it has one; otherwise the lower-cased command name with each whitespace run collapsed, plus ".webp", under the image directory, with no whitespace left |
| CharacterList.CharImgWordRun | docs/characters/list.js:28 | a word followed by a whitespace run names the file as the lower-cased word, one `_`, then the name of the rest |
| CharacterList.CharImgTwoWords | docs/characters/list.js:28 | two words separated by any whitespace run give "word_word", lower-cased |
| CharacterList.GroupKeys | docs/characters/list.js:60-65 | the group keys are distinct, and a key is present exactly when some character falls under it |
| CharacterList.Groups | docs/characters/list.js:60-65 | each group holds exactly its characters, in input order |
| CharacterList.GroupByShow | docs/characters/list.js:60-65 | the key list and the group map have the same keys |
| CharacterList.MembersAreFilter | docs/characters/list.js:61-64 | a group is the input filtered by group key |
| CharacterList.MembersSpec | docs/characters/list.js:61-64 | a group holds only characters with its key, and every character with that key |
| CharacterList.GroupsPartition | docs/characters/list.js:60-65 | every character is in exactly the group of its own key, so the groups partition the input |
| CharacterList.ShowCompareAgrees | docs/characters/list.js:67-73 | the comparator as written agrees with the sort key: known shows by position, then unknown keys alphabetically |
| CharacterList.OrderSections | docs/characters/list.js:67-73 | the sections are a permutation of the keys; known shows come first, in show order, and unknown keys follow alphabetically |
| CharacterList.SortGroup | docs/characters/list.js:84-88 | the sort throws exactly when a group of two or more has an entry with neither title nor command name; otherwise a permutation ordered by lower-cased name |
| CharacterList.Sections | docs/characters/list.js:75-92 | one section per key, titled by the prettified key, holding one card per entry of that group's sorted list, in sorted order |
| CharacterList.Render | docs/characters/list.js:57-93 | rendering throws exactly when some group's sort does; otherwise the i-th section is that of the i-th key in section order, with its title and its sorted group's cards |
| CharacterList.Search | docs/characters/list.js:95-106 | a blank query keeps everything; otherwise exactly the characters whose lower-cased search text contains the query, in input order and with repetitions kept |
| CharacterList.BlankQueryKeepsAll | docs/characters/list.js:96-97 | a whitespace-only query keeps every character |
| CharacterList.NarrowingQueryNarrowsResult | docs/characters/list.js:98-104 | a query containing another finds no more characters than it |
| CharacterList.SearchFindsEveryName | docs/characters/list.js:99-103 | searching for any of a character's names finds that character |
| Claims.UserOptions | docs/claims/claims.js:25-27 | the user options are a permutation of one option per user, ordered by label |
| Claims.UserOptionsSpec | docs/claims/claims.js:25-27 | each option carries some user's id as key and name as label, and every user has one |
| Claims.BlorboOptionSpec | docs/claims/claims.js:29-35 | the key is the command name; the label is the display name when both names agree after trim and lower-case, and "display (command)" otherwise |
| Claims.BlorboOptions | docs/claims/claims.js:29-36 | the tab throws exactly when some blorbo has no command name; otherwise a permutation of one option per blorbo, ordered by label |
| Claims.FilterOptions | docs/claims/claims.js:42-43 | a blank filter keeps every option; otherwise exactly the options whose lower-cased label contains the filter, in option order and with repetitions kept |
| Claims.CommandNameFindsBlorbo | docs/claims/claims.js:29-43 | typing a blorbo's command name into the filter keeps that blorbo's option |
| Traits.BuildLookups | docs/traits/traits.js:47-58 | a name is a key exactly when a non-null entry has it as a non-empty command name, and it holds the last such entry |
| Traits.LookupsFileByOwnName | docs/traits/traits.js:49-57 | every entry held is filed under its own command name |
| Traits.BuildPicker | docs/traits/traits.js:61-79 | the picker throws exactly when an entry is null; otherwise a permutation of one option per entry, ordered by lower-cased text |
| Traits.PickedCharacterIsFound | docs/traits/traits.js:73-78 | an option with a real command name selects an entry the lookups hold |
| Traits.NameOf | docs/traits/traits.js:102 | the truthy display name, else the truthy title, else the command name, and never empty for a picked name |
| Traits.ShowLabelOf | docs/traits/traits.js:103-104 | no label exactly when neither record has a show; otherwise the prettified metadata show when truthy, else the prettified traits show: non-empty, the known label for a known key |
| Traits.ColumnOf | docs/traits/traits.js:106-107 | the "none listed" line exactly when the list is missing or empty, otherwise one item per trait |
| Traits.ColumnShowsTraits | docs/traits/traits.js:135-139 | each escaped item reads back as its trait, and a missing one as nothing |
| Traits.RenderCharacter | docs/traits/traits.js:93-100 | no card, with the not-found message, exactly when the name has no traits entry |
| Traits.RenderCharacterSpec | docs/traits/traits.js:102-144 | the summary is the name followed by the show label when there is one; the heading, badge and portrait read back as the name, the label and the image path (trait image first); each column is the "none listed" line exactly when its list is missing or empty |
| Traits.OnPick | docs/traits/traits.js:81-91 | a card exactly when the pick is a non-empty name the lookups hold, headed by that character's name; the prompt for an empty pick, the not-found message for an unknown one |
| Traits.PickingShowsCard | docs/traits/traits.js:61-100 | when every entry has a command name, every option in the picker leads to a card |

## Left out

- Fetching the data files and HTTP status checks are left out, because they are network I/O. The model starts from the parsed JSON.
- DOM construction, event listeners, `innerHTML` templates, `URLSearchParams` and `history.replaceState` are left out as page plumbing. The model keeps what they display: texts, lists, rows and cards as data.
- `Date` parsing and `toLocaleString` in docs/children/children.js:24,37 and docs/claims/claims.js:6 are left out, because they depend on the host's locale and clock.
- `localeCompare` is modelled as plain code-point order (`Ordering.StrLe`), not locale collation.
- Sort stability is not stated: every sort is shown to give a permutation in key order, but the relative order of equal keys is not claimed.
- `toLowerCase`, `toUpperCase` and the `\w` class are modelled for ASCII letters only. `trim` and `\s` use the JavaScript whitespace set.
- `Number()` of a non-numeric string (NaN) is not modelled: numeric fields are `Option<int>` and a missing value counts as 0.
- The `+=` in docs/chemistry/blorbo-lab.js:131 concatenates strings when a delta is a string; the model has integer deltas only.
- A `null` element in the gift, traits or metadata list of the gift guide (docs/gifts/gifts.js:62,69,86), in the character list (docs/characters/list.js:62), in the users or children lists (docs/children/children.js:32,88,90) in the claims lists (docs/claims/claims.js:26,31) or in Blorbo Lab's gift list (docs/chemistry/blorbo-lab.js:70-71,119) makes the script throw. Those lists are sequences of records here, so that throw is not modelled.
- Fields that hold a value of the wrong type (a non-array trait list, a numeric name) are not modelled. Ids are modelled as their string form.
- null and undefined are the same `None`. So the model cannot tell `null === undefined` (false in JavaScript) from a real match. It also takes `String(x)` of a missing id to be "undefined", even where the value is `null`.
- `SHOW_LABEL[key]` and the label map in docs/gifts/gifts.js:376-384 also find inherited object properties such as "constructor". The model looks keys up in a plain map.
- Claims.UserOptions: requires every user to have a `user_name`. Whether a missing name throws depends on which pairs the engine's sort compares, because only the left side of `localeCompare` is dereferenced.
- BlorboLab.Bucketize: the gift list is a sequence of records, so its error case covers null modifiers only; a null gift, which makes `computeGiftResult` throw at docs/chemistry/blorbo-lab.js:119, is not modelled.
- BlorboLab.RenderGifts: inherits the same limit, so a null gift's throw is not part of its error case.
- BlorboLab.OrderByMagnitude: states the order by magnitude and the permutation, not which of two equal magnitudes comes first.
- Sections already added to the page before a later group's sort throws stay on screen. The model reports the error for the whole render.
- Number formatting for magnitudes of 10^21 and more (exponent notation) is not modelled.
- The gift guide's picker construction in docs/gifts/gifts.js:100-140 is left out. It follows the same rule as the traits picker, which `Traits.BuildPicker` models.
- Blorbo Lab's `populateSelect` sort, its select handler, its image path and `fillList` in docs/chemistry/blorbo-lab.js:25-60,84-98 are left out as DOM and picker glue. The `rxpNeg` bucket is computed and modelled, but never displayed.
- docs/claims/claims.js as a whole does not parse. The `} else {` at docs/claims/claims.js:77 follows an if/else that is already complete, and the braces opened in `renderResult` are never closed before the closing `})();` at docs/claims/claims.js:108. A script that fails to parse runs none of its code, so the shipped claims page builds no options at all. `Claims` models `buildOptions` and `renderPicker` (docs/claims/claims.js:23-52) as their text reads. `renderResult` (docs/claims/claims.js:54-97) is left out, because its intended block structure cannot be read off the text.
- docs/character/character.js is not part of this model: it is a fetch, one lookup and DOM output, and its `charImg` is never called.
