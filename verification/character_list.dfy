/**
  The character list page: each card's image file and heading, the grouping
  of characters into sections by show, the order of the sections and of the
  cards inside each, and the search box.
 */
module CharacterList {
  import opened Values
  import opened Strings
  import opened Data
  import opened Collections
  import opened Ordering
  import opened Shows

  /** The file part of `charImg(entry)`. */
  function ImageFile(c: CharacterEntry): string {
    if Truthy(c.image) then c.image.value else CollapseSpaces(Lower(Text(c.commandName))) + ".webp"
  }

  /** `charImg(entry)`. */
  function CharImg(c: CharacterEntry): string {
    ImgBase + ImageFile(c)
  }

  /**
    The image is the entry's own file when it has one; otherwise it is named
    after the lower-cased command name, with no whitespace left in the name,
    and ends in ".webp". A command name without whitespace is only lower-cased.
   */
  lemma CharImgSpec(c: CharacterEntry)
    ensures Truthy(c.image) ==> CharImg(c) == ImgBase + c.image.value
    ensures !Truthy(c.image) ==>
              exists stem :: CharImg(c) == ImgBase + stem + ".webp" && |stem| <= |Text(c.commandName)|
                             && forall i :: 0 <= i < |stem| ==> !IsSpace(stem[i])
    ensures !Truthy(c.image) && (forall i :: 0 <= i < |Text(c.commandName)| ==> !IsSpace(Text(c.commandName)[i])) ==>
              CharImg(c) == ImgBase + Lower(Text(c.commandName)) + ".webp"
    ensures !Truthy(c.image) ==> CharImg(c) == ImgBase + CollapseSpaces(Lower(Text(c.commandName))) + ".webp"
  {
    var lowered := Lower(Text(c.commandName));
    if !Truthy(c.image) {
      assert CharImg(c) == ImgBase + CollapseSpaces(lowered) + ".webp";
      if forall i :: 0 <= i < |Text(c.commandName)| ==> !IsSpace(Text(c.commandName)[i]) {
        CollapseSpacesNoSpace(lowered);
      }
    }
  }

  /**
    A command name made of a word, a run of whitespace and the rest gives the
    lower-cased word, a single `_`, then the file stem of the rest.
   */
  lemma CharImgWordRun(c: CharacterEntry, a: string, w: string, q: string)
    requires !Truthy(c.image) && Text(c.commandName) == a + w + q
    requires forall i :: 0 <= i < |a| ==> !IsSpace(a[i])
    requires |w| > 0 && forall i :: 0 <= i < |w| ==> IsSpace(w[i])
    requires |q| == 0 || !IsSpace(q[0])
    ensures CharImg(c) == ImgBase + Lower(a) + "_" + CollapseSpaces(Lower(q)) + ".webp"
  {
    var la, lw, lq := Lower(a), Lower(w), Lower(q);
    LowerConcat(a, w, q);
    LowerKeepsSpace(a);
    LowerKeepsSpace(q);
    assert Lower(Text(c.commandName)) == la + lw + lq;
    CollapseSpacesRun(la, lw, lq);
    assert ImageFile(c) == la + "_" + CollapseSpaces(lq) + ".webp";
  }

  /** Two words separated by any run of whitespace give "word_word", lower-cased. */
  lemma CharImgTwoWords(c: CharacterEntry, a: string, w: string, b: string)
    requires !Truthy(c.image) && Text(c.commandName) == a + w + b
    requires forall i :: 0 <= i < |a| ==> !IsSpace(a[i])
    requires |w| > 0 && forall i :: 0 <= i < |w| ==> IsSpace(w[i])
    requires forall i :: 0 <= i < |b| ==> !IsSpace(b[i])
    ensures CharImg(c) == ImgBase + Lower(a) + "_" + Lower(b) + ".webp"
  {
    CharImgWordRun(c, a, w, b);
    CollapseSpacesNoSpace(Lower(b));
  }

  /** The section a character is grouped under: `(c.show || "other").toLowerCase()`. */
  function GroupKey(c: CharacterEntry): string {
    Lower(OrElse(c.show, "other"))
  }

  /** The items filed under key `k`, in input order. */
  function Members(items: seq<CharacterEntry>, k: string): seq<CharacterEntry> {
    if |items| == 0 then []
    else
      var c := items[|items| - 1];
      Members(items[..|items| - 1], k) + (if GroupKey(c) == k then [c] else [])
  }

  /** The `byShow` map: its keys in insertion order, and each key's list. */
  datatype Grouping = Grouping(keys: seq<string>, groups: map<string, seq<CharacterEntry>>)

  /** The keys of `byShow` in insertion order: each key once, where it first appears. */
  function GroupKeys(items: seq<CharacterEntry>): (keys: seq<string>)
    ensures Distinct(keys)
    ensures forall k :: k in keys <==> Members(items, k) != []
  {
    if |items| == 0 then []
    else AppendNew(GroupKeys(items[..|items| - 1]), GroupKey(items[|items| - 1]))
  }

  /**
    The lists of `byShow`: a key is present exactly when some item is filed
    under it, and holds the items filed under it.
   */
  function Groups(items: seq<CharacterEntry>): (m: map<string, seq<CharacterEntry>>)
    ensures forall k :: k in m <==> Members(items, k) != []
    ensures forall k :: k in m ==> m[k] == Members(items, k)
  {
    if |items| == 0 then map[]
    else
      var before := Groups(items[..|items| - 1]);
      var c := items[|items| - 1];
      var k := GroupKey(c);
      if k in before then before[k := before[k] + [c]] else before[k := [c]]
  }

  /** The grouping loop of `render(items)`. */
  function GroupByShow(items: seq<CharacterEntry>): (g: Grouping)
    ensures forall k :: k in g.keys <==> k in g.groups
  {
    Grouping(GroupKeys(items), Groups(items))
  }

  /** The members of a key are the items with that key, in input order. */
  lemma {:induction false} MembersAreFilter(items: seq<CharacterEntry>, k: string)
    ensures Members(items, k) == Filter(items, (c: CharacterEntry) => GroupKey(c) == k)
  {
    if |items| > 0 {
      MembersAreFilter(items[..|items| - 1], k);
    }
  }

  /** The members of a key are items with that key, and every item with that key is a member. */
  lemma {:induction false} MembersSpec(items: seq<CharacterEntry>, k: string)
    ensures forall j :: 0 <= j < |Members(items, k)| ==> GroupKey(Members(items, k)[j]) == k && Members(items, k)[j] in items
    ensures forall i :: 0 <= i < |items| && GroupKey(items[i]) == k ==> items[i] in Members(items, k)
  {
    if |items| > 0 {
      var prefix := items[..|items| - 1];
      MembersSpec(prefix, k);
      assert forall i :: 0 <= i < |prefix| ==> prefix[i] == items[i];
    }
  }

  /**
    The groups partition the items: a key is present exactly when some item
    has it, every item is in the group of its own key, and every group holds
    only items with its key.
   */
  lemma GroupsPartition(items: seq<CharacterEntry>)
    ensures var m := Groups(items);
            && (forall k :: k in m <==> exists i :: 0 <= i < |items| && GroupKey(items[i]) == k)
            && (forall i :: 0 <= i < |items| ==> GroupKey(items[i]) in m && items[i] in m[GroupKey(items[i])])
            && (forall k :: k in m ==> forall j :: 0 <= j < |m[k]| ==> GroupKey(m[k][j]) == k && m[k][j] in items)
  {
    var m := Groups(items);
    forall k
      ensures k in m <==> exists i :: 0 <= i < |items| && GroupKey(items[i]) == k
      ensures k in m ==> forall j :: 0 <= j < |m[k]| ==> GroupKey(m[k][j]) == k && m[k][j] in items
    {
      MembersSpec(items, k);
      if k in m {
        var f := Members(items, k);
        assert GroupKey(f[0]) == k && f[0] in items;
      }
    }
    forall i | 0 <= i < |items|
      ensures GroupKey(items[i]) in m && items[i] in m[GroupKey(items[i])]
    {
      MembersSpec(items, GroupKey(items[i]));
    }
  }

  /** A show's position in `SHOW_ORDER`, or -1. */
  function ShowIndex(k: string): int {
    IndexOf(ShowOrder, k)
  }

  /** The comparator of the section keys, as written. */
  function ShowCompare(a: string, b: string): int {
    var ia := ShowIndex(a);
    var ib := ShowIndex(b);
    if ia == -1 && ib == -1 then LocaleCompare(a, b)
    else if ia == -1 then 1
    else if ib == -1 then -1
    else ia - ib
  }

  /** The same order as a sort key: known shows by position, then unknown keys, alphabetically. */
  function SectionKey(k: string): SortKey {
    SortKey(if ShowIndex(k) == -1 then |ShowOrder| else ShowIndex(k), k)
  }

  /** The comparator puts `a` no later than `b` exactly when the sort key does. */
  lemma ShowCompareAgrees(a: string, b: string)
    ensures ShowCompare(a, b) <= 0 <==> KeyLe(SectionKey(a), SectionKey(b))
  {
    LocaleCompareIsStrLe(a, b);
    StrLeTotal(a, a);
  }

  /**
    The section keys in display order: known shows first, in `SHOW_ORDER`
    order, then the other keys alphabetically.
   */
  function OrderSections(keys: seq<string>): (r: seq<string>)
    ensures multiset(r) == multiset(keys)
    ensures forall i, j :: 0 <= i < j < |r| && r[j] in ShowOrder ==> r[i] in ShowOrder
    ensures forall i, j :: 0 <= i < j < |r| && r[i] in ShowOrder && r[j] in ShowOrder ==> ShowIndex(r[i]) <= ShowIndex(r[j])
    ensures forall i, j :: 0 <= i < j < |r| && r[i] !in ShowOrder && r[j] !in ShowOrder ==> StrLe(r[i], r[j])
  {
    var r := SortBy(keys, SectionKey);
    assert forall i, j :: 0 <= i < j < |r| ==> KeyLe(SectionKey(r[i]), SectionKey(r[j]));
    r
  }

  /** The text a card is sorted by, when it has one: `a.title || a.command_name`. */
  function NameKey(c: CharacterEntry): Option<string> {
    if Truthy(c.title) then c.title else c.commandName
  }

  function ByName(c: CharacterEntry): SortKey {
    SortKey(0, Lower(NameKey(c).GetOr("")))
  }

  /**
    The in-group sort. Its comparator lower-cases `title || command_name`,
    which throws for an entry with neither; the comparator runs only for a
    group of two or more, and then sees every entry.
   */
  function SortGroup(arr: seq<CharacterEntry>): (r: Result<seq<CharacterEntry>>)
    ensures r.TypeError? <==> |arr| >= 2 && exists i :: 0 <= i < |arr| && NameKey(arr[i]).None?
    ensures r.Ok? ==> multiset(r.value) == multiset(arr)
    ensures r.Ok? ==> forall i, j :: 0 <= i < j < |r.value| ==>
              StrLe(Lower(NameKey(r.value[i]).GetOr("")), Lower(NameKey(r.value[j]).GetOr("")))
  {
    if |arr| >= 2 && exists i :: 0 <= i < |arr| && NameKey(arr[i]).None? then TypeError
    else
      var r := SortBy(arr, ByName);
      assert forall i, j :: 0 <= i < j < |r| ==> KeyLe(ByName(r[i]), ByName(r[j]));
      Ok(r)
  }

  /** A card: its heading, `title || command_name` (an absent name shows as empty), and its image. */
  datatype CardView = CardView(heading: string, image: string)

  function CardOf(c: CharacterEntry): CardView {
    CardView(NameKey(c).GetOr(""), CharImg(c))
  }

  /** The cards of a group, one per entry, in the group's order. */
  function CardsOf(arr: seq<CharacterEntry>): (r: seq<CardView>)
    ensures |r| == |arr|
    ensures forall j :: 0 <= j < |arr| ==> r[j] == CardOf(arr[j])
  {
    seq(|arr|, j requires 0 <= j < |arr| => CardOf(arr[j]))
  }

  datatype Section = Section(title: string, cards: seq<CardView>)

  /** The sections for `keys`, in order, each titled by its prettified key. */
  function Sections(g: Grouping, keys: seq<string>): (r: Result<seq<Section>>)
    requires forall i :: 0 <= i < |keys| ==> keys[i] in g.groups
    ensures r.TypeError? <==> exists i :: 0 <= i < |keys| && SortGroup(g.groups[keys[i]]).TypeError?
    ensures r.Ok? ==> |r.value| == |keys|
    ensures r.Ok? ==> forall i :: 0 <= i < |keys| ==>
              && r.value[i].title == Prettify(keys[i])
              && SortGroup(g.groups[keys[i]]).Ok?
              && |r.value[i].cards| == |g.groups[keys[i]]|
              && r.value[i].cards == CardsOf(SortGroup(g.groups[keys[i]]).value)
  {
    if |keys| == 0 then Ok([])
    else
      var k := keys[|keys| - 1];
      assert forall i :: 0 <= i < |keys| - 1 ==> keys[..|keys| - 1][i] == keys[i];
      match Sections(g, keys[..|keys| - 1])
      case TypeError => TypeError
      case Ok(before) =>
        match SortGroup(g.groups[k])
        case TypeError => TypeError
        case Ok(arr) =>
          assert |arr| == |multiset(arr)| == |multiset(g.groups[k])| == |g.groups[k]|;
          Ok(before + [Section(Prettify(k), CardsOf(arr))])
  }

  /**
    `render(items)`: one section per show key, in section order. It fails
    when some group of two or more holds an entry with neither title nor
    command name.
   */
  function Render(items: seq<CharacterEntry>): (r: Result<seq<Section>>)
    ensures r.TypeError? <==> exists k :: k in GroupByShow(items).groups && SortGroup(GroupByShow(items).groups[k]).TypeError?
    ensures r.Ok? ==> |r.value| == |GroupByShow(items).keys|
    ensures r.Ok? ==>
              var g := GroupByShow(items);
              var keys := OrderSections(g.keys);
              && |keys| == |r.value|
              && forall i :: 0 <= i < |keys| ==>
                   && keys[i] in g.groups
                   && r.value[i].title == Prettify(keys[i])
                   && SortGroup(g.groups[keys[i]]).Ok?
                   && r.value[i].cards == CardsOf(SortGroup(g.groups[keys[i]]).value)
  {
    var g := GroupByShow(items);
    var keys := OrderSections(g.keys);
    SameElements(keys, g.keys);
    Sections(g, keys)
  }

  /** The fields searched: title, command name and every alias, the truthy ones only. */
  function SearchFields(c: CharacterEntry): seq<Option<string>> {
    [c.title, c.commandName] + c.aka.GetOr([])
  }

  /** The lower-cased, space-joined text a query is looked for in. */
  function SearchText(c: CharacterEntry): string {
    Lower(JoinSpace(TruthyValues(SearchFields(c))))
  }

  /** `(searchEl.value || "").trim().toLowerCase()`. */
  function NormalizeQuery(q: Option<string>): string {
    Lower(Trim(OrElse(q, "")))
  }

  /** An item whose search text contains the normalised query. */
  function Matching(nq: string): CharacterEntry -> bool {
    c => Contains(SearchText(c), nq)
  }

  /**
    `applySearch()`: every item for a blank query, otherwise, in order, the
    items whose search text contains the query.
   */
  function Search(all: seq<CharacterEntry>, q: Option<string>): (r: seq<CharacterEntry>)
    ensures NormalizeQuery(q) == "" ==> r == all
    ensures NormalizeQuery(q) != "" ==> forall i :: 0 <= i < |r| ==> r[i] in all && Contains(SearchText(r[i]), NormalizeQuery(q))
    ensures forall i :: 0 <= i < |all| && Contains(SearchText(all[i]), NormalizeQuery(q)) ==> all[i] in r
    ensures NormalizeQuery(q) != "" ==> KeepsInOrder(r, all, Matching(NormalizeQuery(q)))
  {
    var nq := NormalizeQuery(q);
    if nq == "" then
      assert forall i :: 0 <= i < |all| ==> OccursAt(SearchText(all[i]), nq, 0);
      all
    else
      QueryFilters(all, nq);
      Filter(all, Matching(nq))
  }

  /** Filtering by a query keeps, in order, the items whose search text contains it. */
  lemma QueryFilters(all: seq<CharacterEntry>, nq: string)
    ensures forall i :: 0 <= i < |Filter(all, Matching(nq))| ==>
              Filter(all, Matching(nq))[i] in all && Contains(SearchText(Filter(all, Matching(nq))[i]), nq)
    ensures forall i :: 0 <= i < |all| && Contains(SearchText(all[i]), nq) ==> all[i] in Filter(all, Matching(nq))
    ensures KeepsInOrder(Filter(all, Matching(nq)), all, Matching(nq))
  {
    FilterKeepsInOrder(all, Matching(nq));
  }

  /** An empty or all-whitespace query keeps every item. */
  lemma BlankQueryKeepsAll(all: seq<CharacterEntry>, q: Option<string>)
    requires forall i :: 0 <= i < |OrElse(q, "")| ==> IsSpace(OrElse(q, "")[i])
    ensures Search(all, q) == all
  {
  }

  /** Typing more narrows the result: a query containing another finds no item the other misses. */
  lemma NarrowingQueryNarrowsResult(all: seq<CharacterEntry>, q1: Option<string>, q2: Option<string>)
    requires Contains(NormalizeQuery(q1), NormalizeQuery(q2))
    ensures forall c :: c in Search(all, q1) ==> c in Search(all, q2)
  {
    var r1 := Search(all, q1);
    forall c | c in r1
      ensures c in Search(all, q2)
    {
      var i :| 0 <= i < |r1| && r1[i] == c;
      if NormalizeQuery(q1) == "" {
        ContainsEmpty(SearchText(c), NormalizeQuery(q2));
      } else {
        ContainsTransitive(SearchText(c), NormalizeQuery(q1), NormalizeQuery(q2));
      }
      var j :| 0 <= j < |all| && all[j] == c;
    }
  }

  lemma ContainsEmpty(hay: string, needle: string)
    requires Contains("", needle)
    ensures Contains(hay, needle)
  {
    assert OccursAt(hay, needle, 0);
  }

  /**
    Searching for one of an item's names, as written and without padding,
    finds the item.
   */
  lemma SearchFindsEveryName(all: seq<CharacterEntry>, c: CharacterEntry, j: int)
    requires c in all
    requires 0 <= j < |SearchFields(c)| && Truthy(SearchFields(c)[j])
    requires var name := SearchFields(c)[j].value; !IsSpace(name[0]) && !IsSpace(name[|name| - 1])
    ensures c in Search(all, SearchFields(c)[j])
  {
    var name := SearchFields(c)[j].value;
    TrimPadding(name);
    var parts := TruthyValues(SearchFields(c));
    assert name in parts;
    var k :| 0 <= k < |parts| && parts[k] == name;
    JoinSpaceContainsPart(parts, k);
    ContainsLower(JoinSpace(parts), name);
  }
}
