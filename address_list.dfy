/** The list of address cards of the deal form (components/address-list.tsx): each card edits the
    form's `addresses.<index>` entry, cards are added and removed, and each card shows whether its
    duplicate check is running. */
module AddressList {
  import opened Text

  /** Strictly ascending, hence without duplicates. */
  ghost predicate Ascending(s: seq<int>) {
    forall i, j :: 0 <= i < j < |s| ==> s[i] < s[j]
  }

  /** `Math.max(...s)` of a non-empty list. */
  function MaxOf(s: seq<int>): (m: int)
    requires s != []
    ensures m in s
    ensures forall i :: 0 <= i < |s| ==> s[i] <= m
  {
    if |s| == 1 then s[0]
    else var rest := MaxOf(s[1..]); if s[0] < rest then rest else s[0]
  }

  /** The list after `addAddress`: one more index, one above the largest. */
  function Added(s: seq<int>): (r: seq<int>)
    requires s != []
    ensures |r| == |s| + 1 && r[..|s|] == s
    ensures r[|s|] !in s
    ensures Ascending(s) ==> Ascending(r)
  {
    s + [MaxOf(s) + 1]
  }

  function Keep(index: int): int -> bool {
    i => i != index
  }

  /** The list after `removeAddress(index)`: every other index, in order. */
  function Removed(s: seq<int>, index: int): seq<int> {
    Filter(s, Keep(index))
  }

  /** Removing deletes exactly the given index. */
  lemma RemovedMembers(s: seq<int>, index: int, x: int)
    ensures x in Removed(s, index) <==> x in s && x != index
  {
    FilterMembers(s, Keep(index), x);
  }

  /** Removing keeps the order of the other indices. */
  lemma {:induction false} RemovedAscending(s: seq<int>, index: int)
    requires Ascending(s)
    ensures Ascending(Removed(s, index))
  {
    if s != [] {
      var rest := Removed(s[1..], index);
      assert Ascending(s[1..]);
      RemovedAscending(s[1..], index);
      FilterCons(s[0], s[1..], Keep(index));
      assert [s[0]] + s[1..] == s;
      forall k | 0 <= k < |rest|
        ensures s[0] < rest[k]
      {
        RemovedMembers(s[1..], index, rest[k]);
      }
      if s[0] != index {
        var r := [s[0]] + rest;
        assert Removed(s, index) == r;
        forall i, j | 0 <= i < j < |r|
          ensures r[i] < r[j]
        {
          if i > 0 {
            assert r[i] == rest[i - 1] && r[j] == rest[j - 1];
          }
        }
      }
    }
  }

  /** With two entries or more, some index survives a removal. */
  lemma RemovedNonEmpty(s: seq<int>, index: int)
    requires |s| > 1 && Ascending(s)
    ensures Removed(s, index) != []
  {
    var x := if s[0] != index then s[0] else s[1];
    RemovedMembers(s, index, x);
  }

  /** Removing the largest index and adding again gives that index back when it sat right above
      the one before it, as it does after adds alone. */
  lemma RemoveLastThenAdd(s: seq<int>)
    requires |s| > 1 && Ascending(s)
    requires s[|s| - 2] + 1 == s[|s| - 1]
    ensures Added(Removed(s, s[|s| - 1])) == s
  {
    var init := s[..|s| - 1];
    RemovedLast(s);
    MaxOfAscending(init);
    assert init[|init| - 1] == s[|s| - 2];
    assert Added(init) == init + [s[|s| - 1]];
    assert init + [s[|s| - 1]] == s;
  }

  /** Removing the largest index of an ascending list drops its last entry. */
  lemma RemovedLast(s: seq<int>)
    requires s != [] && Ascending(s)
    ensures Removed(s, s[|s| - 1]) == s[..|s| - 1]
  {
    var last := s[|s| - 1];
    var init := s[..|s| - 1];
    assert s == init + [last];
    FilterAppend(init, [last], Keep(last));
    forall i | 0 <= i < |init|
      ensures Keep(last)(init[i])
    {
      assert init[i] == s[i] < last;
    }
    FilterKeepsAll(init, Keep(last));
    FilterCons(last, [], Keep(last));
    assert [last] + [] == [last];
  }

  /** The largest index of an ascending list is its last one. */
  lemma MaxOfAscending(s: seq<int>)
    requires s != [] && Ascending(s)
    ensures MaxOf(s) == s[|s| - 1]
  {
    var k :| 0 <= k < |s| && s[k] == MaxOf(s);
    if k < |s| - 1 {
      assert s[k] < s[|s| - 1];
    }
  }

  /** One address as the form holds it. */
  datatype AddressEntry = AddressEntry(street: string, city: string, state: string, zipCode: string)

  class AddressListState {
    /** The indices of the cards shown, in order. */
    var addresses: seq<int>
    /** `isChecking`; a missing key reads as `false`. */
    var isChecking: map<int, bool>
    /** The form's `addresses` entries; an entry set to `undefined` is absent. */
    var form: map<int, AddressEntry>

    ghost predicate Valid()
      reads this
    {
      addresses != [] && Ascending(addresses)
    }

    constructor (form: map<int, AddressEntry>)
      ensures addresses == [0] && isChecking == map[] && this.form == form
      ensures Valid()
    {
      addresses := [0];
      isChecking := map[];
      this.form := form;
    }

    /** `isChecking[index] || false`, what a card shows. */
    predicate Checking(index: int)
      reads this
    {
      index in isChecking && isChecking[index]
    }

    /** The remove button is rendered only when there are at least two cards. */
    predicate RemoveOffered()
      reads this
    {
      |addresses| > 1
    }

    /** `addAddress`. */
    method Add()
      requires Valid()
      modifies this
      ensures addresses == Added(old(addresses))
      ensures isChecking == old(isChecking) && form == old(form)
      ensures Valid()
    {
      addresses := addresses + [MaxOf(addresses) + 1];
    }

    /** `removeAddress(index)`, from the button of the card `index`. */
    method Remove(index: int)
      requires Valid() && RemoveOffered() && index in addresses
      modifies this
      ensures addresses == Removed(old(addresses), index)
      ensures form == old(form) - {index}
      ensures isChecking == old(isChecking)
      ensures Valid()
    {
      RemovedAscending(addresses, index);
      RemovedNonEmpty(addresses, index);
      addresses := Removed(addresses, index);
      form := form - {index};
    }

    /** The state update before the check is awaited. */
    method BeginCheck(index: int)
      modifies this
      ensures isChecking == old(isChecking)[index := true]
      ensures addresses == old(addresses) && form == old(form)
    {
      isChecking := isChecking[index := true];
    }

    /** The state update of the `finally` block, run whether the check succeeded or threw. */
    method EndCheck(index: int)
      modifies this
      ensures isChecking == old(isChecking)[index := false]
      ensures addresses == old(addresses) && form == old(form)
    {
      isChecking := isChecking[index := false];
    }

    /** `handleAddressCheck(index, street)`: the card shows a running check while the check is
        awaited and none afterwards; every other card keeps what it showed. */
    method HandleAddressCheck(index: int) returns (shownWhileChecking: bool)
      modifies this
      ensures shownWhileChecking && !Checking(index)
      ensures forall j :: j != index ==> (Checking(j) <==> old(Checking(j)))
      ensures addresses == old(addresses) && form == old(form)
    {
      BeginCheck(index);
      shownWhileChecking := Checking(index);
      EndCheck(index);
    }
  }

  /** The list starts as [0], two adds give [0, 1, 2], and removing the largest index and adding
      again reuses it. */
  method AddRemoveAdd() returns (afterAdds: seq<int>, afterRemove: seq<int>, afterReAdd: seq<int>)
    ensures afterAdds == [0, 1, 2]
    ensures afterRemove == [0, 1]
    ensures afterReAdd == [0, 1, 2]
  {
    var list := new AddressListState(map[]);
    list.Add();
    list.Add();
    afterAdds := list.addresses;
    RemoveLastThenAdd(afterAdds);
    list.Remove(2);
    afterRemove := list.addresses;
    assert afterRemove == afterAdds[..2];
    list.Add();
    afterReAdd := list.addresses;
  }
}
