/** The multi-select of the deal form (components/multi-select.tsx). It does not change the
    selection itself: each click hands a new list to `onChange`, so the handlers are functions
    from the current selection to the next. */
module MultiSelect {
  import opened Wrappers
  import opened Text

  /** No item occurs twice. */
  ghost predicate NoDuplicates(s: seq<string>) {
    forall i, j :: 0 <= i < j < |s| ==> s[i] != s[j]
  }

  function Other(item: string): string -> bool {
    i => i != item
  }

  /** `handleUnselect(item)`: the selection without any occurrence of `item`. */
  function Unselect(selected: seq<string>, item: string): (r: seq<string>)
    ensures item !in r
    ensures |r| <= |selected|
  {
    FilterMembers(selected, Other(item), item);
    Filter(selected, Other(item))
  }

  /** `handleSelect(item)`: a selected item is removed, any other appended at the end. The
      options offered are not consulted, so any string can be selected. */
  function Select(selected: seq<string>, item: string): (r: seq<string>)
    ensures item in selected ==> r == Unselect(selected, item)
    ensures item !in selected ==> r == selected + [item]
  {
    if item in selected then Unselect(selected, item) else selected + [item]
  }

  /** `selected.length === 0 && placeholder`: the placeholder text, "Select options" by default,
      shows exactly when nothing is selected. */
  function Placeholder(selected: seq<string>, placeholder: Option<string>): (shown: Option<string>)
    ensures shown.Some? <==> selected == []
    ensures shown.Some? ==> shown.value == placeholder.GetOr("Select options")
  {
    if |selected| == 0 then Some(placeholder.GetOr("Select options")) else None
  }

  /** Unselecting removes exactly the given item. */
  lemma UnselectMembers(selected: seq<string>, item: string, x: string)
    ensures x in Unselect(selected, item) <==> x in selected && x != item
  {
    FilterMembers(selected, Other(item), x);
  }

  /** Unselecting an item that is not selected changes nothing; the others keep their order. */
  lemma UnselectAbsent(selected: seq<string>, item: string)
    requires item !in selected
    ensures Unselect(selected, item) == selected
  {
    FilterKeepsAll(selected, Other(item));
  }

  /** Unselecting keeps a selection free of duplicates. */
  lemma {:induction false} UnselectNoDuplicates(selected: seq<string>, item: string)
    requires NoDuplicates(selected)
    ensures NoDuplicates(Unselect(selected, item))
  {
    if selected != [] {
      var head := selected[0];
      var rest := Unselect(selected[1..], item);
      assert NoDuplicates(selected[1..]);
      UnselectNoDuplicates(selected[1..], item);
      FilterCons(head, selected[1..], Other(item));
      assert [head] + selected[1..] == selected;
      if head != item {
        var r := [head] + rest;
        forall i, j | 0 <= i < j < |r|
          ensures r[i] != r[j]
        {
          if i == 0 {
            UnselectMembers(selected[1..], item, r[j]);
          } else {
            assert r[i] == rest[i - 1] && r[j] == rest[j - 1];
          }
        }
      }
    }
  }

  /** Selecting keeps a selection free of duplicates. */
  lemma SelectNoDuplicates(selected: seq<string>, item: string)
    requires NoDuplicates(selected)
    ensures NoDuplicates(Select(selected, item))
  {
    if item in selected {
      UnselectNoDuplicates(selected, item);
    }
  }

  /** Selecting an item twice gives the selection back, when the item was not selected. */
  lemma SelectTwice(selected: seq<string>, item: string)
    requires item !in selected
    ensures Select(Select(selected, item), item) == selected
  {
    FilterAppend(selected, [item], Other(item));
    FilterKeepsAll(selected, Other(item));
    assert Filter([item], Other(item)) == [];
  }
}
