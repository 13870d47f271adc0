/**
 * The Person model of the second application: the attributes it reads from
 * the data of its two enrichment providers (FullContact and Pipl), the
 * name built from them, and the cascade that removes a person's addresses
 * once the person is deleted.
 *
 * A provider relation is the stored provider row (`person_fullcontact_data`
 * or `person_pipl_data`) as a map of its columns, or `None` when the person
 * has no such row.
 */
module Persons {
  import opened Common

  type ProviderRow = map<string, Value>

  /** `$row->{$name}`: a column the row lacks reads as null. */
  function Field(row: ProviderRow, name: string): Value {
    if name in row then row[name] else Null
  }

  datatype Providers = Providers(fullcontact: Option<ProviderRow>, pipl: Option<ProviderRow>)

  /** `infoProviderList`: FullContact first, then Pipl. */
  function ProviderList(p: Providers): seq<Option<ProviderRow>> {
    [p.fullcontact, p.pipl]
  }

  /** The provider is present and holds a non-empty value for the column. */
  predicate Supplies(provider: Option<ProviderRow>, name: string) {
    provider.Some? && !IsEmpty(Field(provider.value, name))
  }

  // ---------------------------------------------------------------------------
  // Provider fallback

  /** The value of the first provider that supplies the column, or null when
    * none does. */
  function FirstSupplied(providers: seq<Option<ProviderRow>>, name: string): (v: Value)
    ensures v == Null || !IsEmpty(v)
    ensures v == Null <==> forall i :: 0 <= i < |providers| ==> !Supplies(providers[i], name)
    ensures forall i :: (0 <= i < |providers| && Supplies(providers[i], name)
                         && forall k :: 0 <= k < i ==> !Supplies(providers[k], name))
                        ==> v == Field(providers[i].value, name)
  {
    if providers == [] then Null
    else if Supplies(providers[0], name) then Field(providers[0].value, name)
    else
      var v := FirstSupplied(providers[1..], name);
      assert forall i :: 1 <= i < |providers| ==> providers[i] == providers[1..][i - 1];
      v
  }

  /** Looking through two lists in turn: the second is consulted only when
    * the first supplies nothing. */
  lemma {:induction false} FirstSuppliedAppend(a: seq<Option<ProviderRow>>, b: seq<Option<ProviderRow>>, name: string)
    ensures FirstSupplied(a + b, name) == if FirstSupplied(a, name) != Null then FirstSupplied(a, name) else FirstSupplied(b, name)
  {
    if a != [] {
      assert (a + b)[0] == a[0];
      assert (a + b)[1..] == a[1..] + b;
      FirstSuppliedAppend(a[1..], b, name);
    } else {
      assert a + b == b;
    }
  }

  /** `getAttributeFromInfoProviders`: the loop stops as soon as it holds a
    * non-empty value, and takes a provider's value only when that value is
    * non-empty. */
  method AttributeFromProviders(p: Providers, name: string) returns (value: Value)
    ensures value == FirstSupplied(ProviderList(p), name)
  {
    var providers := ProviderList(p);
    value := Null;
    var i := 0;
    while i < |providers|
      invariant 0 <= i <= |providers|
      invariant value == FirstSupplied(providers[..i], name)
    {
      if !IsEmpty(value) {
        break;
      }
      var provider := providers[i];
      FirstSuppliedAppend(providers[..i], [provider], name);
      assert providers[..i + 1] == providers[..i] + [provider];
      if provider.Some? && !IsEmpty(Field(provider.value, name)) {
        value := Field(provider.value, name);
      }
      i := i + 1;
    }
    FirstSuppliedAppend(providers[..i], providers[i..], name);
    assert providers[..i] + providers[i..] == providers;
  }

  /** The provider column behind each accessor (`getMobilePhoneAttribute`
    * reads `number`, `getProfileImageUrlAttribute` reads `profileImage`,
    * `getGeoLocationDataAttribute` reads `geo_location`, the others their
    * own name). */
  function ProviderColumn(attribute: string): (column: Option<string>)
    ensures attribute in {"first_name", "last_name", "gender", "birthday", "retirement_savings"} ==> column == Some(attribute)
    ensures attribute == "mobile_phone" ==> column == Some("number")
    ensures attribute == "profile_image_url" ==> column == Some("profileImage")
    ensures attribute == "geo_location_data" ==> column == Some("geo_location")
    ensures column.None? <==> attribute !in {"first_name", "last_name", "gender", "birthday", "retirement_savings",
                                               "mobile_phone", "profile_image_url", "geo_location_data"}
  {
    match attribute
    case "profile_image_url" => Some("profileImage")
    case "mobile_phone" => Some("number")
    case "geo_location_data" => Some("geo_location")
    case "first_name" => Some("first_name")
    case "last_name" => Some("last_name")
    case "gender" => Some("gender")
    case "birthday" => Some("birthday")
    case "retirement_savings" => Some("retirement_savings")
    case _ => None
  }

  /** FullContact wins whenever it supplies the column; Pipl is used only
    * when FullContact is missing or empty there; "0" counts as empty. */
  lemma ProviderPrecedence(p: Providers, name: string)
    ensures Supplies(p.fullcontact, name) ==> FirstSupplied(ProviderList(p), name) == Field(p.fullcontact.value, name)
    ensures !Supplies(p.fullcontact, name) && Supplies(p.pipl, name) ==>
      FirstSupplied(ProviderList(p), name) == Field(p.pipl.value, name)
    ensures !Supplies(p.fullcontact, name) && !Supplies(p.pipl, name) ==> FirstSupplied(ProviderList(p), name) == Null
    ensures p.fullcontact.Some? && Field(p.fullcontact.value, name) == Str("0") && p.pipl.None? ==>
      FirstSupplied(ProviderList(p), name) == Null
  {
    var list := ProviderList(p);
    assert list[0] == p.fullcontact && list[1] == p.pipl;
  }

  // ---------------------------------------------------------------------------
  // FullContact-only accessors

  /** `facebook_profile`, `linkedin_profile` and `linkedInBio` are read from
    * the FullContact row as stored (even when empty), and are null without
    * that row; Pipl is never consulted. */
  function FullcontactColumn(p: Providers, column: string): (v: Value)
    ensures p.fullcontact.None? ==> v == Null
    ensures p.fullcontact.Some? ==> v == Field(p.fullcontact.value, column)
  {
    if p.fullcontact.Some? then Field(p.fullcontact.value, column) else Null
  }

  /** The Pipl row has no say in the FullContact-only accessors. */
  lemma FullcontactIgnoresPipl(p: Providers, pipl: Option<ProviderRow>, column: string)
    ensures FullcontactColumn(p.(pipl := pipl), column) == FullcontactColumn(p, column)
  {
  }

  /** `getSummaryInfoAttribute` returns the LinkedIn bio. */
  function SummaryInfo(p: Providers): (v: Value)
    ensures v == FullcontactColumn(p, "linkedInBio")
  {
    FullcontactColumn(p, "linkedInBio")
  }

  // ---------------------------------------------------------------------------
  // Full name

  /** `getFullNameInfoAttribute`: first name, a space, last name, with a
    * missing part converted to "". */
  method FullNameInfo(p: Providers) returns (name: string)
    ensures name == AsString(FirstSupplied(ProviderList(p), "first_name")) + " "
                    + AsString(FirstSupplied(ProviderList(p), "last_name"))
  {
    var first := AttributeFromProviders(p, "first_name");
    var last := AttributeFromProviders(p, "last_name");
    name := AsString(first) + " " + AsString(last);
  }

  /** With no provider data the name is a single space; the space always
    * sits right after the first name. */
  lemma FullNameShape(p: Providers)
    ensures p.fullcontact.None? && p.pipl.None? ==>
      AsString(FirstSupplied(ProviderList(p), "first_name")) + " " + AsString(FirstSupplied(ProviderList(p), "last_name")) == " "
    ensures var first := AsString(FirstSupplied(ProviderList(p), "first_name"));
      var name := first + " " + AsString(FirstSupplied(ProviderList(p), "last_name"));
      |name| > |first| && name[|first|] == ' ' && name[..|first|] == first
  {
    ProviderPrecedence(p, "first_name");
    ProviderPrecedence(p, "last_name");
  }

  // ---------------------------------------------------------------------------
  // Address cascade

  /** A stored address; `addressable` is the morph relation. */
  datatype Address = Address(addressableType: string, addressableId: int, columns: map<string, string>)

  /** The morph type under which the addresses of a person are stored. */
  const PersonType: string := "App\\Person"

  predicate OwnedBy(a: Address, personId: int) {
    a.addressableType == PersonType && a.addressableId == personId
  }

  /** The address table once the person's addresses are gone: nothing of
    * the person is left, and every other address stays as it was. */
  function WithoutAddressesOf(addresses: map<int, Address>, personId: int): (r: map<int, Address>)
    ensures forall id :: id in r ==> id in addresses && r[id] == addresses[id] && !OwnedBy(r[id], personId)
    ensures forall id :: id in addresses && !OwnedBy(addresses[id], personId) ==> id in r
  {
    map id | id in addresses && !OwnedBy(addresses[id], personId) :: addresses[id]
  }

  /** Removing a person's addresses twice removes nothing more. */
  lemma WithoutAddressesIdempotent(addresses: map<int, Address>, personId: int)
    ensures WithoutAddressesOf(WithoutAddressesOf(addresses, personId), personId) == WithoutAddressesOf(addresses, personId)
  {
  }

  class AddressTable {
    var addresses: map<int, Address>

    constructor (rows: map<int, Address>)
      ensures addresses == rows
    {
      addresses := rows;
    }

    /** The `deleted` hook: each address of the person, in turn, is
      * deleted. `owned` is the `addresses` relation as loaded: the ids of
      * exactly the person's addresses. */
    method PersonDeleted(personId: int, owned: seq<int>)
      requires forall id :: id in owned <==> id in addresses && OwnedBy(addresses[id], personId)
      modifies this
      ensures addresses == WithoutAddressesOf(old(addresses), personId)
    {
      ghost var before := addresses;
      for i := 0 to |owned|
        invariant forall id :: id in addresses <==> id in before && id !in owned[..i]
        invariant forall id :: id in addresses ==> addresses[id] == before[id]
      {
        addresses := addresses - {owned[i]};
      }
      assert owned[..|owned|] == owned;
      var expected := WithoutAddressesOf(before, personId);
      assert forall id :: id in addresses <==> id in expected;
      assert addresses.Keys == expected.Keys;
      assert forall id :: id in addresses ==> addresses[id] == expected[id];
      assert addresses == expected;
    }
  }
}
