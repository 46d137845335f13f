/** The address form of the Next.js application (components/address-form.tsx): choosing a place
    from the address autocomplete fills the street, city, state and ZIP code of one address of the
    form, and the duplicate check runs on the stored street. The Google Places widget is outside
    the model: a selection hands over the place's address components, if it has any. */
module AddressFormComponent {
  import opened Wrappers
  import opened Text
  import opened SvelteUtils

  /** The part of an address a component fills. */
  datatype Kind = NumberKind | RouteKind | CityKind | StateKind | ZipKind

  /** The `if ... else if` chain of `handlePlaceSelect`: any position of `types` counts, and a
      component with several of the five types fills only the first in this order. */
  function KindOf(c: AddressComponent): (k: Option<Kind>)
    ensures k.None? <==> StreetNumber !in c.types && Route !in c.types && Locality !in c.types
                         && AdminArea !in c.types && PostalCode !in c.types
    ensures StreetNumber in c.types ==> k == Some(NumberKind)
  {
    if StreetNumber in c.types then Some(NumberKind)
    else if Route in c.types then Some(RouteKind)
    else if Locality in c.types then Some(CityKind)
    else if AdminArea in c.types then Some(StateKind)
    else if PostalCode in c.types then Some(ZipKind)
    else None
  }

  /** The state takes the short name ("CA"), every other part the long name. */
  function NameFor(c: AddressComponent, k: Kind): string {
    if k == StateKind then c.short_name else c.long_name
  }

  /** The name of the last component of kind `k`, or "" when there is none. */
  function LastOfKind(cs: seq<AddressComponent>, k: Kind): (r: string)
    ensures (forall i :: 0 <= i < |cs| ==> KindOf(cs[i]) != Some(k)) ==> r == ""
  {
    if cs == [] then ""
    else if KindOf(cs[|cs| - 1]) == Some(k) then NameFor(cs[|cs| - 1], k)
    else LastOfKind(cs[..|cs| - 1], k)
  }

  /** A later component of a kind overwrites an earlier one; a component of another kind leaves
      the part alone. */
  lemma LastOfKindSnoc(cs: seq<AddressComponent>, c: AddressComponent, k: Kind)
    ensures LastOfKind(cs + [c], k) == if KindOf(c) == Some(k) then NameFor(c, k) else LastOfKind(cs, k)
  {
    assert (cs + [c])[..|cs|] == cs;
  }

  lemma SnocAllKinds(cs: seq<AddressComponent>, c: AddressComponent)
    ensures forall k: Kind :: LastOfKind(cs + [c], k) == if KindOf(c) == Some(k) then NameFor(c, k) else LastOfKind(cs, k)
  {
    forall k: Kind {
      LastOfKindSnoc(cs, c, k);
    }
  }

  /** The `forEach` of `handlePlaceSelect`: the name of the last component of each kind. */
  method ScanComponents(cs: seq<AddressComponent>)
    returns (streetNumber: string, streetName: string, newCity: string, newState: string, newZip: string)
    ensures streetNumber == LastOfKind(cs, NumberKind) && streetName == LastOfKind(cs, RouteKind)
    ensures newCity == LastOfKind(cs, CityKind) && newState == LastOfKind(cs, StateKind)
    ensures newZip == LastOfKind(cs, ZipKind)
  {
    streetNumber, streetName, newCity, newState, newZip := "", "", "", "", "";
    for i := 0 to |cs|
      invariant streetNumber == LastOfKind(cs[..i], NumberKind)
      invariant streetName == LastOfKind(cs[..i], RouteKind)
      invariant newCity == LastOfKind(cs[..i], CityKind)
      invariant newState == LastOfKind(cs[..i], StateKind)
      invariant newZip == LastOfKind(cs[..i], ZipKind)
    {
      var c := cs[i];
      SnocAllKinds(cs[..i], c);
      assert cs[..i + 1] == cs[..i] + [c];
      match KindOf(c) {
        case Some(NumberKind) => streetNumber := c.long_name;
        case Some(RouteKind) => streetName := c.long_name;
        case Some(CityKind) => newCity := c.long_name;
        case Some(StateKind) => newState := c.short_name;
        case Some(ZipKind) => newZip := c.long_name;
        case None =>
      }
    }
    assert cs[..|cs|] == cs;
  }

  /** The street the form receives: number and route joined by a space, trimmed. */
  function StreetOf(cs: seq<AddressComponent>): string {
    Trim(LastOfKind(cs, NumberKind) + " " + LastOfKind(cs, RouteKind))
  }

  /** The form values of one address, as `addresses.${index}.*`, and the `canCheck` state. */
  class AddressForm {
    var street: string
    var city: string
    var state: string
    var zipCode: string
    var canCheck: bool

    constructor (street: string, city: string, state: string, zipCode: string)
      ensures this.street == street && this.city == city && this.state == state && this.zipCode == zipCode
      ensures !canCheck
    {
      this.street, this.city, this.state, this.zipCode := street, city, state, zipCode;
      canCheck := false;
    }

    /** `handlePlaceSelect`: a place without components changes nothing; otherwise all four
        values are written, "" for a missing part, and the check is enabled exactly when the
        street is non-empty. */
    method HandlePlaceSelect(place: Option<seq<AddressComponent>>)
      modifies this
      ensures place.None? ==>
        street == old(street) && city == old(city) && state == old(state) && zipCode == old(zipCode) && canCheck == old(canCheck)
      ensures place.Some? ==> street == StreetOf(place.value)
      ensures place.Some? ==> city == LastOfKind(place.value, CityKind)
      ensures place.Some? ==> state == LastOfKind(place.value, StateKind)
      ensures place.Some? ==> zipCode == LastOfKind(place.value, ZipKind)
      ensures place.Some? ==> (canCheck <==> street != "")
    {
      if place.None? {
        return;
      }
      var streetNumber, streetName, newCity, newState, newZip := ScanComponents(place.value);
      street := Trim(streetNumber + " " + streetName);
      city, state, zipCode := newCity, newState, newZip;
      canCheck := street != "";
    }

    /** `handleAddressCheck`: the duplicate check runs, on the stored street, only when that
        street is non-empty. The street it is run on is returned. */
    method HandleAddressCheck() returns (checked: Option<string>)
      ensures checked.Some? <==> street != ""
      ensures checked.Some? ==> checked.value == street
    {
      if street != "" {
        checked := Some(street);
      } else {
        checked := None;
      }
    }
  }

  /** Without a street number the street is the route alone, with no leading space, as long as the
      route's own name has no white space at either end. */
  lemma MissingNumberNoLeadingSpace(cs: seq<AddressComponent>)
    requires forall i :: 0 <= i < |cs| ==> KindOf(cs[i]) != Some(NumberKind)
    requires var r := LastOfKind(cs, RouteKind); r == [] || (!IsSpace(r[0]) && !IsSpace(r[|r| - 1]))
    ensures StreetOf(cs) == LastOfKind(cs, RouteKind)
  {
    assert LastOfKind(cs, NumberKind) == "";
    SpaceThenTrimmed(LastOfKind(cs, RouteKind));
  }

  lemma SpaceThenTrimmed(r: string)
    requires r == [] || (!IsSpace(r[0]) && !IsSpace(r[|r| - 1]))
    ensures Trim("" + " " + r) == r
  {
    assert "" + " " + r == [' '] + r;
    TrimAfterSpace(' ', r);
    TrimOfTrimmed(r);
  }

  /** The two extractors disagree on a place with a route and a state but no street number: the
      SvelteKit one keeps a leading space and the long state name, this form neither. */
  lemma ExtractorsDiffer(route: string, stateLong: string, stateShort: string)
    requires route != [] && !IsSpace(route[0]) && !IsSpace(route[|route| - 1])
    ensures var cs := [AddressComponent(route, route, [Route]), AddressComponent(stateLong, stateShort, [AdminArea])];
      && ExpectedAddress(cs).address == " " + route
      && ExpectedAddress(cs).state == stateLong
      && StreetOf(cs) == route
      && LastOfKind(cs, StateKind) == stateShort
  {
    var r := AddressComponent(route, route, [Route]);
    var s := AddressComponent(stateLong, stateShort, [AdminArea]);
    MissingNumberLeavesLeadingSpace(route, s);
    assert [r, s] == [r] + [s];
    assert [r] == [] + [r];
    LastOfKindSnoc([r], s, NumberKind);
    LastOfKindSnoc([r], s, RouteKind);
    LastOfKindSnoc([r], s, StateKind);
    LastOfKindSnoc([], r, NumberKind);
    LastOfKindSnoc([], r, RouteKind);
    LastOfKindSnoc([], r, StateKind);
    MissingNumberNoLeadingSpace([r, s]);
  }

  /** Any position of `types` counts here: a component listed first as some other type still
      fills the route, where the SvelteKit extractor, reading the first type only, ignores it. */
  lemma LaterTypeCounts(cs: seq<AddressComponent>, other: string, name: string)
    requires other !in {StreetNumber, Route, Locality, AdminArea, PostalCode}
    ensures var c := AddressComponent(name, name, [other, Route]);
      && StreetOf(cs + [c]) == Trim(LastOfKind(cs, NumberKind) + " " + name)
      && ExpectedAddress(cs + [c]) == ExpectedAddress(cs)
  {
    var c := AddressComponent(name, name, [other, Route]);
    assert StreetNumber !in c.types;
    LastOfKindSnoc(cs, c, NumberKind);
    LastOfKindSnoc(cs, c, RouteKind);
    UnknownFirstTypeIgnored(cs, c);
  }
}
