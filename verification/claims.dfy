/**
  The claims page's picker: the options of the users tab and of the blorbos
  tab, their order, and the filter the search box applies to them.
 */
module Claims {
  import opened Values
  import opened Strings
  import opened Data
  import opened Collections
  import opened Ordering

  /** A picker entry: the value it selects and the text it shows. */
  datatype PickerOption = PickerOption(key: Option<string>, text: string)

  function ByText(o: PickerOption): SortKey {
    SortKey(0, o.text)
  }

  /** Every user has a name to sort by. */
  predicate AllNamed(users: seq<User>) {
    forall i :: 0 <= i < |users| ==> users[i].userName.Some?
  }

  /** `{ key: u.user_id, label: u.user_name }`. */
  function UserOption(u: User): PickerOption
    requires u.userName.Some?
  {
    PickerOption(u.userId, u.userName.value)
  }

  function UserOptionList(users: seq<User>): (r: seq<PickerOption>)
    requires AllNamed(users)
    ensures |r| == |users| && forall i :: 0 <= i < |users| ==> r[i] == UserOption(users[i])
  {
    seq(|users|, i requires 0 <= i < |users| => UserOption(users[i]))
  }

  /** The users tab: one option per user, ordered by name. */
  function UserOptions(users: seq<User>): (r: seq<PickerOption>)
    requires AllNamed(users)
    ensures multiset(r) == multiset(UserOptionList(users))
    ensures forall i, j :: 0 <= i < j < |r| ==> StrLe(r[i].text, r[j].text)
  {
    var r := SortBy(UserOptionList(users), ByText);
    assert forall i, j :: 0 <= i < j < |r| ==> KeyLe(ByText(r[i]), ByText(r[j]));
    r
  }

  /** Every listed user option carries some user's id and name, and every user is listed. */
  lemma UserOptionsSpec(users: seq<User>)
    requires AllNamed(users)
    ensures |UserOptions(users)| == |users|
    ensures forall o :: o in UserOptions(users) ==> exists j :: 0 <= j < |users| && o.key == users[j].userId && Some(o.text) == users[j].userName
    ensures forall j :: 0 <= j < |users| ==> PickerOption(users[j].userId, users[j].userName.value) in UserOptions(users)
  {
    var r := UserOptions(users);
    var u := UserOptionList(users);
    SameElements(r, u);
    forall o | o in r
      ensures exists j :: 0 <= j < |users| && o.key == users[j].userId && Some(o.text) == users[j].userName
    {
      var j :| 0 <= j < |u| && u[j] == o;
    }
  }

  /** The text shown for a blorbo: `display_name || command_name`. */
  function Shown(b: Blorbo): string
    requires b.commandName.Some?
  {
    OrElse(b.displayName, b.commandName.value)
  }

  /** The two names agree once trimmed and lower-cased. */
  predicate SameName(b: Blorbo)
    requires b.commandName.Some?
  {
    Lower(Trim(Shown(b))) == Lower(Trim(b.commandName.value))
  }

  /** One blorbo's option: the display name alone when it matches the command name, else "display (command)". */
  function BlorboOption(b: Blorbo): PickerOption
    requires b.commandName.Some?
  {
    var disp := Shown(b);
    var cmd := b.commandName.value;
    PickerOption(b.commandName, if SameName(b) then disp else disp + " (" + cmd + ")")
  }

  /**
    The option's key is always the command name; its text starts with the
    shown name and adds the command name in parentheses exactly when the
    two names differ after trimming and lower-casing.
   */
  lemma BlorboOptionSpec(b: Blorbo)
    requires b.commandName.Some?
    ensures BlorboOption(b).key == b.commandName
    ensures SameName(b) ==> BlorboOption(b).text == Shown(b)
    ensures !SameName(b) ==> BlorboOption(b).text == Shown(b) + " (" + b.commandName.value + ")"
    ensures Truthy(b.displayName) && Lower(Trim(b.displayName.value)) != Lower(Trim(b.commandName.value)) ==>
              BlorboOption(b).text == b.displayName.value + " (" + b.commandName.value + ")"
    ensures !Truthy(b.displayName) ==> BlorboOption(b).text == b.commandName.value
  {
  }

  predicate AllCommanded(blorbos: seq<Blorbo>) {
    forall i :: 0 <= i < |blorbos| ==> blorbos[i].commandName.Some?
  }

  function BlorboOptionList(blorbos: seq<Blorbo>): (r: seq<PickerOption>)
    requires AllCommanded(blorbos)
    ensures |r| == |blorbos| && forall i :: 0 <= i < |blorbos| ==> r[i] == BlorboOption(blorbos[i])
  {
    seq(|blorbos|, i requires 0 <= i < |blorbos| => BlorboOption(blorbos[i]))
  }

  /**
    The blorbos tab: `trim()` on a missing command name throws, so the tab
    fails exactly when some blorbo has none; otherwise one option per
    blorbo, ordered by text.
   */
  function BlorboOptions(blorbos: seq<Blorbo>): (r: Result<seq<PickerOption>>)
    ensures r.TypeError? <==> !AllCommanded(blorbos)
    ensures r.Ok? ==> multiset(r.value) == multiset(BlorboOptionList(blorbos))
    ensures r.Ok? ==> forall i, j :: 0 <= i < j < |r.value| ==> StrLe(r.value[i].text, r.value[j].text)
  {
    if !AllCommanded(blorbos) then TypeError
    else
      var r := SortBy(BlorboOptionList(blorbos), ByText);
      assert forall i, j :: 0 <= i < j < |r| ==> KeyLe(ByText(r[i]), ByText(r[j]));
      Ok(r)
  }

  /** `filterText.trim().toLowerCase()`. */
  function NormalizeFilter(filterText: string): string {
    Lower(Trim(filterText))
  }

  /** An option whose lower-cased text contains the normalised filter. */
  function Matching(norm: string): PickerOption -> bool {
    (o: PickerOption) => Contains(Lower(o.text), norm)
  }

  /**
    The options `renderPicker(filterText)` lists: all of them for a blank
    filter, otherwise, in order, those whose lower-cased text contains it.
   */
  function FilterOptions(options: seq<PickerOption>, filterText: string): (r: seq<PickerOption>)
    ensures NormalizeFilter(filterText) == "" ==> r == options
    ensures forall i :: 0 <= i < |r| ==> r[i] in options && Contains(Lower(r[i].text), NormalizeFilter(filterText))
    ensures forall i :: 0 <= i < |options| && Contains(Lower(options[i].text), NormalizeFilter(filterText)) ==> options[i] in r
    ensures NormalizeFilter(filterText) != "" ==> KeepsInOrder(r, options, Matching(NormalizeFilter(filterText)))
  {
    var norm := NormalizeFilter(filterText);
    if norm == "" then
      assert forall i :: 0 <= i < |options| ==> OccursAt(Lower(options[i].text), norm, 0);
      options
    else
      FilterKeepsInOrder(options, Matching(norm));
      Filter(options, Matching(norm))
  }

  /** Typing a blorbo's command name into the filter keeps that blorbo's option. */
  lemma CommandNameFindsBlorbo(options: seq<PickerOption>, b: Blorbo)
    requires b.commandName.Some? && BlorboOption(b) in options
    ensures BlorboOption(b) in FilterOptions(options, b.commandName.value)
  {
    var o := BlorboOption(b);
    var cmd := b.commandName.value;
    var norm := NormalizeFilter(cmd);
    TrimContained(cmd);
    ContainsLower(cmd, Trim(cmd));
    if SameName(b) {
      TrimContained(Shown(b));
      ContainsLower(Shown(b), Trim(Shown(b)));
    } else {
      var s := Shown(b) + " (" + cmd + ")";
      ContainsSlice(s, |Shown(b)| + 2, |Shown(b)| + 2 + |cmd|);
      assert s[|Shown(b)| + 2..|Shown(b)| + 2 + |cmd|] == cmd;
      ContainsLower(s, cmd);
      ContainsTransitive(Lower(s), Lower(cmd), norm);
    }
    var k :| 0 <= k < |options| && options[k] == o;
  }

  lemma TrimContained(s: string)
    ensures Contains(s, Trim(s))
  {
    var a :| TrimmedAt(s, Trim(s), a);
    assert OccursAt(s, Trim(s), a);
  }
}
