/**
  The children page: the user-id to name map and its labels, the picker's
  id list and initial choice, the "raising" and "adopted out" selections for
  a viewer, and each child's card with its name and role badges.
  Ids are compared as the text `String(id)` gives, so a missing id reads
  "undefined".
 */
module Children {
  import opened Values
  import opened Strings
  import opened Data
  import opened Collections
  import opened Ordering

  /** The `[String(user_id), user_name || String(user_id)]` pair of a user. */
  function UserEntry(u: User): Option<(string, string)> {
    Some((Text(u.userId), OrElse(u.userName, Text(u.userId))))
  }

  /** `nameMap`: every user's id, holding the name of the last user with that id. */
  function NameMap(users: seq<User>): (m: map<string, string>)
    ensures forall k :: k in m <==> exists i :: 0 <= i < |users| && Text(users[i].userId) == k
    ensures forall k, i :: LastWithKey(users, UserEntry, k, i) ==> k in m && m[k] == OrElse(users[i].userName, k)
  {
    assert forall u, k :: HasKey(UserEntry(u), k) <==> Text(u.userId) == k;
    IndexBy(users, UserEntry)
  }

  /** `uidLabel(uid)`: the name filed under the id, or the id itself. */
  function UidLabel(names: map<string, string>, uid: string): string {
    if uid in names && names[uid] != "" then names[uid] else uid
  }

  /**
    A label is the user's name when the id belongs to a user with a name,
    and the id itself when no user has it or the user has no name.
   */
  lemma UidLabelSpec(users: seq<User>, uid: string)
    ensures forall i :: LastWithKey(users, UserEntry, uid, i) && Truthy(users[i].userName) ==>
              UidLabel(NameMap(users), uid) == users[i].userName.value
    ensures forall i :: LastWithKey(users, UserEntry, uid, i) && !Truthy(users[i].userName) ==>
              UidLabel(NameMap(users), uid) == uid
    ensures (forall i :: 0 <= i < |users| ==> Text(users[i].userId) != uid) ==> UidLabel(NameMap(users), uid) == uid
  {
  }

  /** `new Set(users.map(u => String(u.user_id)))`. */
  function UserIds(users: seq<User>): (r: seq<string>)
    ensures Distinct(r)
    ensures forall x :: x in r <==> exists i :: 0 <= i < |users| && Text(users[i].userId) == x
  {
    if |users| == 0 then []
    else
      var before := UserIds(users[..|users| - 1]);
      assert forall i :: 0 <= i < |users| - 1 ==> users[..|users| - 1][i] == users[i];
      AppendNew(before, Text(users[|users| - 1].userId))
  }

  /** `x` is a truthy `user_id` or `birth_parent_id` of the child. */
  predicate ChildNames(ch: Child, x: string) {
    (Truthy(ch.userId) && ch.userId.value == x) || (Truthy(ch.birthParentId) && ch.birthParentId.value == x)
  }

  /** The loop adding each child's truthy `user_id`, then its truthy `birth_parent_id`. */
  function AddChildIds(ids: seq<string>, children: seq<Child>): (r: seq<string>)
    requires Distinct(ids)
    ensures Distinct(r)
    ensures forall x :: x in r <==> x in ids || exists i :: 0 <= i < |children| && ChildNames(children[i], x)
    ensures |ids| <= |r| && r[..|ids|] == ids
  {
    if |children| == 0 then ids
    else
      var before := AddChildIds(ids, children[..|children| - 1]);
      var ch := children[|children| - 1];
      assert forall i :: 0 <= i < |children| - 1 ==> children[..|children| - 1][i] == children[i];
      var withUser := if Truthy(ch.userId) then AppendNew(before, ch.userId.value) else before;
      if Truthy(ch.birthParentId) then AppendNew(withUser, ch.birthParentId.value) else withUser
  }

  /**
    The picker's id set, in insertion order: every user's id, then every
    truthy `user_id` and `birth_parent_id` of the children, each id once.
   */
  function PickerIds(users: seq<User>, children: seq<Child>): (r: seq<string>)
    ensures Distinct(r)
    ensures forall x :: x in r <==>
              (exists i :: 0 <= i < |users| && Text(users[i].userId) == x)
              || (exists i :: 0 <= i < |children| && ChildNames(children[i], x))
    ensures |UserIds(users)| <= |r| && r[..|UserIds(users)|] == UserIds(users)
  {
    AddChildIds(UserIds(users), children)
  }

  function ByLabel(names: map<string, string>): string -> SortKey {
    id => SortKey(0, UidLabel(names, id))
  }

  /** `sortedIds`: the picker's ids ordered by their labels. */
  function SortedIds(users: seq<User>, children: seq<Child>): (r: seq<string>)
    ensures multiset(r) == multiset(PickerIds(users, children))
    ensures forall i, j :: 0 <= i < j < |r| ==> StrLe(LabelOf(NameMap(users))(r[i]), LabelOf(NameMap(users))(r[j]))
  {
    var r := SortBy(PickerIds(users, children), ByLabel(NameMap(users)));
    assert forall i, j :: 0 <= i < j < |r| ==> KeyLe(ByLabel(NameMap(users))(r[i]), ByLabel(NameMap(users))(r[j]));
    r
  }

  /** `(qs.get("u") || "").trim()`. */
  function InitialUser(query: Option<string>): string {
    Trim(OrElse(query, ""))
  }

  /**
    The picker's value once the options are in: the requested user when it
    is non-empty and known, otherwise the first option, or "" when there are
    no options.
   */
  function InitialViewer(users: seq<User>, children: seq<Child>, query: Option<string>): (v: string)
    ensures var u := InitialUser(query);
            u != "" && u in PickerIds(users, children) ==> v == u
  {
    var u := InitialUser(query);
    var sorted := SortedIds(users, children);
    if u != "" && u in PickerIds(users, children) then u
    else if |sorted| > 0 then sorted[0]
    else ""
  }

  /**
    The initial viewer is always one of the offered ids, unless there are
    none; when the request is not honoured it is an id with the smallest
    label.
   */
  lemma InitialViewerIsOffered(users: seq<User>, children: seq<Child>, query: Option<string>)
    ensures var ids := PickerIds(users, children);
            var v := InitialViewer(users, children, query);
            && (|ids| > 0 ==> v in ids)
            && (|ids| == 0 ==> v == "")
            && (v != InitialUser(query) && |ids| > 0 ==>
                  forall x :: x in ids ==> StrLe(LabelOf(NameMap(users))(v), LabelOf(NameMap(users))(x)))
  {
    var ids := PickerIds(users, children);
    var sorted := SortedIds(users, children);
    var u := InitialUser(query);
    var v := InitialViewer(users, children, query);
    SameElements(sorted, ids);
    assert v == if u != "" && u in ids then u else if |sorted| > 0 then sorted[0] else "";
    if |ids| > 0 {
      FirstIsLeast(sorted, LabelOf(NameMap(users)));
    }
  }

  function LabelOf(names: map<string, string>): string -> string {
    id => UidLabel(names, id)
  }

  /** A child the viewer raises. */
  function RaisedBy(viewer: string): Child -> bool {
    (ch: Child) => Text(ch.userId) == viewer
  }

  /** A child born to the viewer and raised by someone else. */
  function GivenUpBy(viewer: string): Child -> bool {
    (ch: Child) => Text(ch.birthParentId) == viewer && Text(ch.userId) != viewer
  }

  /** `raising`: the children whose `user_id` is the viewer, in input order. */
  function Raising(children: seq<Child>, viewer: string): (r: seq<Child>)
    ensures forall i :: 0 <= i < |r| ==> r[i] in children && Text(r[i].userId) == viewer
    ensures forall i :: 0 <= i < |children| && Text(children[i].userId) == viewer ==> children[i] in r
    ensures KeepsInOrder(r, children, RaisedBy(viewer))
  {
    FilterKeepsInOrder(children, RaisedBy(viewer));
    Filter(children, RaisedBy(viewer))
  }

  /** `adoptedOut`: the children born to the viewer that someone else raises, in input order. */
  function AdoptedOut(children: seq<Child>, viewer: string): (r: seq<Child>)
    ensures forall i :: 0 <= i < |r| ==> r[i] in children && Text(r[i].birthParentId) == viewer && Text(r[i].userId) != viewer
    ensures forall i :: 0 <= i < |children| && Text(children[i].birthParentId) == viewer && Text(children[i].userId) != viewer ==>
              children[i] in r
    ensures KeepsInOrder(r, children, GivenUpBy(viewer))
  {
    FilterKeepsInOrder(children, GivenUpBy(viewer));
    Filter(children, GivenUpBy(viewer))
  }

  /**
    No child is both raised by the viewer and adopted out by the viewer, and
    every child born to the viewer is in one of the two lists.
   */
  lemma RaisingAndAdoptedOutSplit(children: seq<Child>, viewer: string)
    ensures forall ch :: ch in Raising(children, viewer) ==> ch !in AdoptedOut(children, viewer)
    ensures forall i :: 0 <= i < |children| && Text(children[i].birthParentId) == viewer ==>
              children[i] in Raising(children, viewer) || children[i] in AdoptedOut(children, viewer)
  {
  }

  /** The child's truthy first, middle and last names. */
  function NameParts(ch: Child): seq<string> {
    TruthyValues([ch.babyFirst, ch.babyMiddle, ch.babyLast])
  }

  /** `baby_full || [first, middle, last].filter(Boolean).join(" ")`. */
  function FullName(ch: Child): string {
    if Truthy(ch.babyFull) then ch.babyFull.value else JoinSpace(NameParts(ch))
  }

  /**
    A full name given outright is used as it is; otherwise the name is the
    present parts joined by single spaces, which split back into the parts
    when they hold no spaces themselves. It is empty only when there is no
    name at all.
   */
  lemma FullNameSpec(ch: Child)
    ensures Truthy(ch.babyFull) ==> FullName(ch) == ch.babyFull.value
    ensures !Truthy(ch.babyFull) && |NameParts(ch)| > 0 && (forall i :: 0 <= i < |NameParts(ch)| ==> NoSpaceChar(NameParts(ch)[i])) ==>
              SplitSpace(FullName(ch)) == NameParts(ch)
    ensures FullName(ch) == "" <==> !Truthy(ch.babyFull) && NameParts(ch) == []
  {
    JoinSpaceEmpty(NameParts(ch));
    if !Truthy(ch.babyFull) && |NameParts(ch)| > 0 && (forall i :: 0 <= i < |NameParts(ch)| ==> NoSpaceChar(NameParts(ch)[i])) {
      SplitJoin(NameParts(ch));
    }
  }

  /**
    Without `baby_full` the name parts keep first-middle-last order: all
    three give "first middle last", and a missing middle name leaves
    "first last".
   */
  lemma FullNameOrder(ch: Child)
    requires !Truthy(ch.babyFull) && Truthy(ch.babyFirst) && Truthy(ch.babyLast)
    ensures Truthy(ch.babyMiddle) ==>
              FullName(ch) == ch.babyFirst.value + " " + ch.babyMiddle.value + " " + ch.babyLast.value
    ensures !Truthy(ch.babyMiddle) ==> FullName(ch) == ch.babyFirst.value + " " + ch.babyLast.value
  {
    TruthyValuesOfThree(ch.babyFirst, ch.babyMiddle, ch.babyLast);
    var parts := NameParts(ch);
    if Truthy(ch.babyMiddle) {
      assert parts == [ch.babyFirst.value, ch.babyMiddle.value, ch.babyLast.value];
      assert parts[1..][1..] == [ch.babyLast.value];
      assert JoinSpace(parts[1..]) == ch.babyMiddle.value + " " + ch.babyLast.value;
    } else {
      assert parts == [ch.babyFirst.value, ch.babyLast.value];
      assert parts[1..] == [ch.babyLast.value];
      assert JoinSpace(parts[1..]) == ch.babyLast.value;
    }
    assert FullName(ch) == parts[0] + " " + JoinSpace(parts[1..]);
  }

  /** A role tag on a child's card. */
  datatype Badge = BirthParent(who: string) | AdoptedBy(who: string) | Caregiver(who: string)

  /** The badge rules of `card(child, viewerId)`. */
  function Badges(names: map<string, string>, ch: Child, viewer: string): seq<Badge> {
    var caregiver := Text(ch.userId);
    var birthParent := Text(ch.birthParentId);
    var viewerCares := viewer != "" && caregiver == viewer;
    var viewerBore := viewer != "" && birthParent == viewer;
    var adoptedElsewhere := ch.adoptedOut && caregiver != birthParent;
    if viewerCares && adoptedElsewhere then [BirthParent(UidLabel(names, birthParent))]
    else if viewerBore && adoptedElsewhere then [AdoptedBy(UidLabel(names, caregiver))]
    else if caregiver != birthParent then [Caregiver(UidLabel(names, caregiver)), BirthParent(UidLabel(names, birthParent))]
    else []
  }

  /**
    Badge selection. A child raised by its birth parent gets no badge. For
    an adoption, the caregiving viewer sees one birth-parent badge and the
    birth-parent viewer one adopted-by badge. Any other child whose two ids
    differ gets a caregiver badge then a birth-parent badge.
   */
  lemma BadgeRules(names: map<string, string>, ch: Child, viewer: string)
    ensures var b := Badges(names, ch, viewer);
            var caregiver := Text(ch.userId);
            var birthParent := Text(ch.birthParentId);
            var adoptedElsewhere := ch.adoptedOut && caregiver != birthParent;
            && (b == [] <==> caregiver == birthParent)
            && (viewer != "" && caregiver == viewer && adoptedElsewhere ==> b == [BirthParent(UidLabel(names, birthParent))])
            && (viewer != "" && birthParent == viewer && adoptedElsewhere ==> b == [AdoptedBy(UidLabel(names, caregiver))])
            && (caregiver != birthParent && !(viewer != "" && (caregiver == viewer || birthParent == viewer) && ch.adoptedOut) ==>
                  b == [Caregiver(UidLabel(names, caregiver)), BirthParent(UidLabel(names, birthParent))])
            && |b| <= 2
  {
  }

  /** What a child's card shows, apart from the birth date. */
  datatype Card = Card(heading: string, stage: string, father: string, idLine: Option<string>, badges: seq<Badge>)

  /**
    `card(child, viewerId)`: headed by the child's full name, or by
    "(unnamed baby)" when the child has no name at all, and carrying the
    badges the rules above choose.
   */
  function CardOf(names: map<string, string>, ch: Child, viewer: string): (c: Card)
    ensures c.heading != ""
    ensures !Truthy(ch.babyFull) && NameParts(ch) == [] ==> c.heading == "(unnamed baby)"
    ensures Truthy(ch.babyFull) ==> c.heading == ch.babyFull.value
    ensures !Truthy(ch.babyFull) && NameParts(ch) != [] ==> c.heading == JoinSpace(NameParts(ch))
    ensures c.badges == Badges(names, ch, viewer)
  {
    FullNameSpec(ch);
    var full := FullName(ch);
    Card(
      if full != "" then full else "(unnamed baby)",
      OrElse(ch.stage, "—"),
      OrElse(ch.father, "—"),
      if ch.babyId.Some? then Some("ID: " + ch.babyId.value) else None,
      Badges(names, ch, viewer))
  }

  /** One of the two boxes `render()` fills: a placeholder message or the cards. */
  datatype Box = Message(text: string) | Cards(cards: seq<Card>)

  function BoxOf(names: map<string, string>, children: seq<Child>, viewer: string, empty: string): (b: Box)
    ensures children == [] <==> b == Message(empty)
    ensures b.Cards? ==> |b.cards| == |children| && forall i :: 0 <= i < |children| ==> b.cards[i] == CardOf(names, children[i], viewer)
  {
    if |children| == 0 then Message(empty)
    else Cards(seq(|children|, i requires 0 <= i < |children| => CardOf(names, children[i], viewer)))
  }

  /**
    `render()`: the raising box, then the adopted-out box. Each shows its
    placeholder exactly when its list is empty, and otherwise the card of
    each listed child, in list order, labelled with the users' names.
   */
  function Render(users: seq<User>, children: seq<Child>, viewer: string): (r: (Box, Box))
    ensures r.0 == Message("No children found.") <==> Raising(children, viewer) == []
    ensures r.1 == Message("None.") <==> AdoptedOut(children, viewer) == []
    ensures r.0.Cards? ==> var raising := Raising(children, viewer);
              |r.0.cards| == |raising| && forall k :: 0 <= k < |raising| ==> r.0.cards[k] == CardOf(NameMap(users), raising[k], viewer)
    ensures r.1.Cards? ==> var adopted := AdoptedOut(children, viewer);
              |r.1.cards| == |adopted| && forall k :: 0 <= k < |adopted| ==> r.1.cards[k] == CardOf(NameMap(users), adopted[k], viewer)
  {
    var names := NameMap(users);
    (BoxOf(names, Raising(children, viewer), viewer, "No children found."),
     BoxOf(names, AdoptedOut(children, viewer), viewer, "None."))
  }

  /** Every child the viewer is raising has its card in the first box. */
  lemma RaisedChildShown(users: seq<User>, children: seq<Child>, viewer: string, i: int)
    requires 0 <= i < |children| && Text(children[i].userId) == viewer
    ensures Render(users, children, viewer).0.Cards?
    ensures CardOf(NameMap(users), children[i], viewer) in Render(users, children, viewer).0.cards
  {
    var raising := Raising(children, viewer);
    assert children[i] in raising;
    var k :| 0 <= k < |raising| && raising[k] == children[i];
    assert Render(users, children, viewer).0.cards[k] == CardOf(NameMap(users), children[i], viewer);
  }

  /** Every child born to the viewer and raised by someone else has its card in the second box. */
  lemma AdoptedChildShown(users: seq<User>, children: seq<Child>, viewer: string, i: int)
    requires 0 <= i < |children| && Text(children[i].birthParentId) == viewer && Text(children[i].userId) != viewer
    ensures Render(users, children, viewer).1.Cards?
    ensures CardOf(NameMap(users), children[i], viewer) in Render(users, children, viewer).1.cards
  {
    var adopted := AdoptedOut(children, viewer);
    assert children[i] in adopted;
    var k :| 0 <= k < |adopted| && adopted[k] == children[i];
    assert Render(users, children, viewer).1.cards[k] == CardOf(NameMap(users), children[i], viewer);
  }
}
