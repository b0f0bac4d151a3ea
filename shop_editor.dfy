/** `src/pages/ShopEditor.tsx`: the form that creates a shop or edits one.
    Editing loads the shop's fields (with defaults for the optional ones);
    the delivery-city list only ever gains a trimmed, non-empty city it does
    not already hold; saving requires a name and a slug and sends a create
    body (with slug and owner) or an edit body (without them). */
module ShopEditor {
  import opened Common
  import opened Seqs

  /** The shop fields the editor reads from `GET /api/shops/user/:userId`;
      the optional ones are `None` when missing. */
  datatype StoredShop = StoredShop(
    id: string,
    name: string,
    slug: string,
    description: string,
    isPublic: bool,
    ownerId: string,
    accessCode: Option<string>,
    shopStyle: Option<string>,
    deliveryCities: Option<seq<string>>)

  /** The editor's state fields. */
  datatype ShopForm = ShopForm(
    name: string,
    slug: string,
    description: string,
    isPublic: bool,
    accessCode: string,
    shopStyle: string,
    deliveryCities: seq<string>,
    newCity: string)

  /** The form before anything is loaded or typed. */
  const InitialForm := ShopForm("", "", "", false, "", "default", [], "")

  /** `shopId && shopId !== 'new'` */
  predicate IsEditing(shopId: Option<string>)
  {
    shopId.Some? && shopId.value != "" && shopId.value != "new"
  }

  // ---------------------------------------------------------------------
  // Loading

  /** `value || fallback` for an optional string. */
  function OrDefault(v: Option<string>, fallback: string): (r: string)
    ensures v.Some? && v.value != "" ==> r == v.value
    ensures v.None? || v.value == "" ==> r == fallback
  {
    if v.Some? && v.value != "" then v.value else fallback
  }

  /** `fetchShop`: the first listed shop with the edited id fills the form,
      a missing access code reading as `""`, a missing or empty style as
      `"default"` and missing cities as `[]`; without such a shop the form is left
      as it was. */
  function LoadShop(form: ShopForm, shops: seq<StoredShop>, shopId: string): (r: ShopForm)
    ensures (forall i :: 0 <= i < |shops| ==> shops[i].id != shopId) ==> r == form
    ensures r.newCity == form.newCity
    ensures r != form ==> exists i :: 0 <= i < |shops| && shops[i].id == shopId
    ensures forall i :: 0 <= i < |shops| && shops[i].id == shopId &&
                        (forall k :: 0 <= k < i ==> shops[k].id != shopId) ==>
              var s := shops[i];
              r.name == s.name && r.slug == s.slug && r.description == s.description &&
              r.isPublic == s.isPublic &&
              (s.accessCode.None? ==> r.accessCode == "") &&
              (s.accessCode.Some? ==> r.accessCode == s.accessCode.value) &&
              (s.shopStyle.None? || s.shopStyle.value == "" ==> r.shopStyle == "default") &&
              (s.shopStyle.Some? && s.shopStyle.value != "" ==> r.shopStyle == s.shopStyle.value) &&
              (s.deliveryCities.None? ==> r.deliveryCities == []) &&
              (s.deliveryCities.Some? ==> r.deliveryCities == s.deliveryCities.value)
  {
    if shops == [] then form
    else if shops[0].id == shopId then
      var s := shops[0];
      form.(name := s.name, slug := s.slug, description := s.description, isPublic := s.isPublic,
            accessCode := OrDefault(s.accessCode, ""), shopStyle := OrDefault(s.shopStyle, "default"),
            deliveryCities := if s.deliveryCities.Some? then s.deliveryCities.value else [])
    else
      var r := LoadShop(form, shops[1..], shopId);
      assert forall i :: 1 <= i < |shops| ==> shops[i] == shops[1..][i - 1];
      r
  }

  // ---------------------------------------------------------------------
  // Delivery cities

  /** The Add button and the Enter key: the trimmed city is appended and the
      input cleared when it is non-empty and not yet listed; otherwise
      nothing changes. */
  function AddCity(form: ShopForm): (r: ShopForm)
    ensures var t := Trim(form.newCity);
            if t != "" && t !in form.deliveryCities
            then r == form.(deliveryCities := form.deliveryCities + [t], newCity := "")
            else r == form
  {
    var t := Trim(form.newCity);
    if t != "" && t !in form.deliveryCities
    then form.(deliveryCities := form.deliveryCities + [t], newCity := "")
    else form
  }

  /** Every listed city is non-empty and has no surrounding white space. */
  predicate CleanCities(cities: seq<string>)
  {
    forall i :: 0 <= i < |cities| ==> cities[i] != "" && Trim(cities[i]) == cities[i]
  }

  /** Trimming twice trims nothing more. */
  lemma TrimTrimmed(s: string)
    ensures Trim(Trim(s)) == Trim(s)
  {
    var a := TrimStart(s);
    var r := TrimEnd(a);
    if r != [] {
      assert r[0] == a[0];
      assert TrimStart(r) == r;
      assert TrimEnd(r) == r;
    }
  }

  /** Adding a city keeps the list free of duplicates and of blank or
      untrimmed entries. */
  lemma AddCityKeepsCitiesClean(form: ShopForm)
    requires Distinct(form.deliveryCities) && CleanCities(form.deliveryCities)
    ensures Distinct(AddCity(form).deliveryCities) && CleanCities(AddCity(form).deliveryCities)
  {
    var t := Trim(form.newCity);
    if t != "" && t !in form.deliveryCities {
      TrimTrimmed(form.newCity);
      var cs := form.deliveryCities + [t];
      forall i, j | 0 <= i < j < |cs| ensures cs[i] != cs[j] {
        if j == |form.deliveryCities| {
          assert cs[i] in form.deliveryCities;
        }
      }
    }
  }

  /** Adding the same city twice lists it once. */
  lemma AddCityTwiceListsOnce(form: ShopForm, city: string)
    ensures var once := AddCity(form.(newCity := city));
            AddCity(once.(newCity := city)).deliveryCities == once.deliveryCities
  {
    var t := Trim(city);
    var once := AddCity(form.(newCity := city));
    if t != "" && t !in form.deliveryCities {
      assert once.deliveryCities[|form.deliveryCities|] == t;
    }
  }

  /** Clicking a city's badge: `cities.filter((_, i) => i !== index)`. */
  function RemoveCityAt(cities: seq<string>, index: int): (r: seq<string>)
    ensures 0 <= index < |cities| ==> r == cities[..index] + cities[index + 1..]
    ensures !(0 <= index < |cities|) ==> r == cities
  {
    if 0 <= index < |cities| then cities[..index] + cities[index + 1..] else cities
  }

  /** Removing one city leaves each other city listed as often as before and
      the removed one once less. */
  lemma RemoveCityAtCounts(cities: seq<string>, index: nat)
    requires index < |cities|
    ensures multiset(RemoveCityAt(cities, index)) == multiset(cities) - multiset{cities[index]}
    ensures Distinct(cities) ==> Distinct(RemoveCityAt(cities, index)) &&
                                 cities[index] !in RemoveCityAt(cities, index)
  {
    RemovedOnce(cities, index);
    if Distinct(cities) {
      RemovedDistinct(cities, index);
    }
  }

  lemma RemovedOnce(cities: seq<string>, index: nat)
    requires index < |cities|
    ensures multiset(cities[..index] + cities[index + 1..]) == multiset(cities) - multiset{cities[index]}
  {
    SplitAround(cities, index);
  }

  lemma RemovedDistinct(cities: seq<string>, index: nat)
    requires index < |cities| && Distinct(cities)
    ensures Distinct(cities[..index] + cities[index + 1..])
    ensures cities[index] !in cities[..index] + cities[index + 1..]
  {
    var r := cities[..index] + cities[index + 1..];
    forall i, j | 0 <= i < j < |r| ensures r[i] != r[j] {
      var i' := if i < index then i else i + 1;
      var j' := if j < index then j else j + 1;
      assert r[i] == cities[i'] && r[j] == cities[j'];
    }
    forall k | 0 <= k < |r| ensures r[k] != cities[index] {
      var k' := if k < index then k else k + 1;
      assert r[k] == cities[k'];
    }
  }

  // ---------------------------------------------------------------------
  // Saving

  /** A request `handleSave` sends. */
  datatype SaveRequest = SaveRequest(httpMethod: string, url: string, body: Record)

  /** The fields both bodies carry. */
  function CommonBody(form: ShopForm): Record
  {
    map["name" := Str(form.name), "description" := Str(form.description), "isPublic" := Bool(form.isPublic),
        "accessCode" := Str(form.accessCode), "shopStyle" := Str(form.shopStyle),
        "deliveryCities" := Arr(seq(|form.deliveryCities|, i requires 0 <= i < |form.deliveryCities| =>
                                      Str(form.deliveryCities[i])))]
  }

  /** `handleSave`: nothing is sent without a name and a slug. Editing puts
      the shop without its slug and owner; creating posts it with both, the
      owner being left out of the JSON when nobody is signed in. */
  function Save(form: ShopForm, shopId: Option<string>, userId: Option<string>): (r: Option<SaveRequest>)
    ensures r.None? <==> form.name == "" || form.slug == ""
    ensures r.Some? && IsEditing(shopId) ==>
              r.value.httpMethod == "PUT" && r.value.url == "http://localhost:3001/api/shops/" + shopId.value &&
              "slug" !in r.value.body && "ownerId" !in r.value.body
    ensures r.Some? && !IsEditing(shopId) ==>
              r.value.httpMethod == "POST" && r.value.url == "http://localhost:3001/api/shops" &&
              Get(r.value.body, "slug") == Str(form.slug) &&
              ("ownerId" in r.value.body <==> userId.Some?) &&
              (userId.Some? ==> r.value.body["ownerId"] == Str(userId.value))
    ensures r.Some? ==>
              forall k :: k in CommonBody(form) ==> k in r.value.body && r.value.body[k] == CommonBody(form)[k]
  {
    if form.name == "" || form.slug == "" then None
    else if IsEditing(shopId) then
      Some(SaveRequest("PUT", "http://localhost:3001/api/shops/" + shopId.value, CommonBody(form)))
    else
      var withSlug := CommonBody(form)["slug" := Str(form.slug)];
      Some(SaveRequest("POST", "http://localhost:3001/api/shops",
                       if userId.Some? then withSlug["ownerId" := Str(userId.value)] else withSlug))
  }

  /** The edit body carries exactly the six editable fields. */
  lemma EditBodyKeys(form: ShopForm, shopId: string, userId: Option<string>)
    requires form.name != "" && form.slug != ""
    requires IsEditing(Some(shopId))
    ensures Save(form, Some(shopId), userId).value.body.Keys ==
            {"name", "description", "isPublic", "accessCode", "shopStyle", "deliveryCities"}
  {
  }
}
