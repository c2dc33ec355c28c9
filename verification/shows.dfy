/** The show keys the site knows, their display labels, and how an unknown key is prettified. */
module Shows {
  import opened Strings

  /** `SHOW_LABEL`. */
  const ShowLabel: map<string, string> := map[
    "band_of_brothers" := "Band of Brothers",
    "the_pacific" := "The Pacific",
    "masters_of_the_air" := "Masters of the Air",
    "generation_kill" := "Generation Kill",
    "preacher" := "Preacher",
    "ncis" := "NCIS"]

  /** `SHOW_ORDER`: the order of the known shows on the character list. */
  const ShowOrder: seq<string> := ["band_of_brothers", "the_pacific", "masters_of_the_air", "generation_kill", "preacher", "ncis"]

  /** Every show in the order has a label, no show is listed twice, and every labelled show is listed. */
  lemma ShowOrderCoversLabels()
    ensures forall i :: 0 <= i < |ShowOrder| ==> ShowOrder[i] in ShowLabel
    ensures forall i, j :: 0 <= i < j < |ShowOrder| ==> ShowOrder[i] != ShowOrder[j]
    ensures forall k :: k in ShowLabel ==> k in ShowOrder
  {
  }

  /**
    `prettifyShow(key)`, and the section title of the character list: the
    label of a known key; otherwise underscores become spaces and each word
    starts upper case.
   */
  function Prettify(key: string): string {
    if key in ShowLabel then ShowLabel[key] else TitleWords(ReplaceChar(key, '_', ' '))
  }

  /**
    An unknown key is only re-spelled: underscores become spaces, the first
    letter of each word is upper-cased, and every other character is kept as
    it is. A title is empty exactly when the key is.
   */
  lemma PrettifySpec(key: string)
    ensures key in ShowLabel ==> Prettify(key) == ShowLabel[key]
    ensures key !in ShowLabel ==> |Prettify(key)| == |key|
    ensures key !in ShowLabel ==> forall i :: 0 <= i < |key| ==> Prettify(key)[i] != '_'
    ensures key !in ShowLabel ==> Lower(Prettify(key)) == Lower(ReplaceChar(key, '_', ' '))
    ensures key !in ShowLabel ==> forall i :: 0 <= i < |key| && WordStart(ReplaceChar(key, '_', ' '), i) ==>
              Prettify(key)[i] == UpperChar(ReplaceChar(key, '_', ' ')[i])
    ensures key !in ShowLabel ==> forall i :: 0 <= i < |key| && !WordStart(ReplaceChar(key, '_', ' '), i) ==>
              Prettify(key)[i] == ReplaceChar(key, '_', ' ')[i]
    ensures Prettify(key) == "" <==> key == ""
  {
    if key !in ShowLabel {
      var spaced := ReplaceChar(key, '_', ' ');
      TitleWordsOnlyChangesCase(spaced);
      forall i | 0 <= i < |key|
        ensures Prettify(key)[i] != '_'
      {
        assert spaced[i] != '_';
        assert !WordStart(spaced, i) ==> Prettify(key)[i] == spaced[i];
      }
    }
  }
}
