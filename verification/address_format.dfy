/**
 `formatarEnderecoExibicao(item)` of `js/app.js`: the short address shown for a geocoder
 result, `street[, number] - neighbourhood - city`, each part taken from a chain of
 address keys; when no part is found, the first three comma fields of the result's
 display name. The configured city name, read from the loaded configuration in the
 program, is a parameter here.
 */
module AddressFormat {
  import opened Wrappers
  import opened Text
  import opened Fields

  /** The address fields of a geocoder result. */
  type Address = map<String, String>

  /** A geocoder result: its address fields, if any, and its display name, if any. */
  datatype Item = Item(address: Option<Address>, displayName: Option<String>)

  /** `address.road || address.street || address.pedestrian || address.footway` */
  const StreetKeys: seq<String> := ["road", "street", "pedestrian", "footway"]

  /** `address.house_number` */
  const NumberKeys: seq<String> := ["house_number"]

  /** `address.suburb || address.neighbourhood || address.district` */
  const DistrictKeys: seq<String> := ["suburb", "neighbourhood", "district"]

  /** `address.city || address.town || address.municipality` */
  const CityKeys: seq<String> := ["city", "town", "municipality"]

  /** The separator between the parts. */
  const PartSeparator: String := " - "

  /** `item.address || {}`: an absent address has no fields. */
  function FieldsOf(item: Item): Address {
    item.address.GetOr(map[])
  }

  /** A part that is there when the value is. */
  function Part(v: Option<String>): (r: seq<String>)
    ensures |r| <= 1
  {
    match v
    case None => []
    case Some(x) => [x]
  }

  /** The street part: the street, and `, ` with the house number after it when the
      address has one. */
  function Street(a: Address): (r: Option<String>)
    ensures r.None? <==> NoneTruthy(a, StreetKeys)
  {
    match FirstPresent(a, StreetKeys)
    case None => None
    case Some(s) =>
      match FirstPresent(a, NumberKeys)
      case None => Some(s)
      case Some(n) => Some(s + ", " + n)
  }

  /** `cidade`: the first truthy city key, else the configured city name (which is not
      shown when it is empty). */
  function City(a: Address, cityName: String): (r: Option<String>)
    ensures r.None? <==> NoneTruthy(a, CityKeys) && cityName == []
    ensures r.Some? ==> r.value != []
  {
    match FirstPresent(a, CityKeys)
    case Some(c) => Some(c)
    case None => if cityName == [] then None else Some(cityName)
  }

  /** `partes`: the street part, the neighbourhood and the city, in that order, each only
      when present. */
  function Parts(a: Address, cityName: String): (parts: seq<String>)
    ensures |parts| <= 3
    ensures forall k :: 0 <= k < |parts| ==> parts[k] != []
    ensures |parts| == 0 <==>
              NoneTruthy(a, StreetKeys) && NoneTruthy(a, DistrictKeys) && City(a, cityName).None?
  {
    Part(Street(a)) + Part(FirstPresent(a, DistrictKeys)) + Part(City(a, cityName))
  }

  /** `display_name.split(',').slice(0, 3).join(',').trim()` */
  function ShortDisplayName(dn: String): String {
    Trim(Join(Take(Split(dn, ','), 3), ","))
  }

  /** `formatarEnderecoExibicao(item)`: the parts joined by ` - `; without any part, the
      shortened display name. Without parts and without a display name the program
      fails with a type error; that case is `None`. */
  function FormatarEnderecoExibicao(item: Item, cityName: String): (r: Option<String>)
    ensures r.None? <==>
              && item.displayName.None?
              && NoneTruthy(FieldsOf(item), StreetKeys)
              && NoneTruthy(FieldsOf(item), DistrictKeys)
              && City(FieldsOf(item), cityName).None?
    ensures r.Some? && Parts(FieldsOf(item), cityName) != [] ==> r.value != []
  {
    var parts := Parts(FieldsOf(item), cityName);
    if parts != [] then Some(Join(parts, PartSeparator))
    else match item.displayName
      case None => None
      case Some(dn) => Some(ShortDisplayName(dn))
  }

  // ---------------------------------------------------------------------------
  // Properties
  // ---------------------------------------------------------------------------

  /** With a non-empty configured city name the result always ends with a city, and the
      display name is never consulted. */
  lemma ConfiguredCityAlwaysShown(item: Item, cityName: String)
    requires cityName != []
    ensures var r := FormatarEnderecoExibicao(item, cityName);
            var city := City(FieldsOf(item), cityName);
            && r.Some? && city.Some?
            && |city.value| <= |r.value| && r.value[|r.value| - |city.value|..] == city.value
            && r == FormatarEnderecoExibicao(Item(item.address, None), cityName)
  {
    var parts := Parts(FieldsOf(item), cityName);
    JoinEndsWithLast(parts, PartSeparator);
  }

  /** The house number is shown only after a street: without one, changing or adding the
      number changes nothing. */
  lemma NumberNeedsStreet(a: Address, n: String, dn: Option<String>, cityName: String)
    requires NoneTruthy(a, StreetKeys)
    ensures FormatarEnderecoExibicao(Item(Some(a["house_number" := n]), dn), cityName)
            == FormatarEnderecoExibicao(Item(Some(a), dn), cityName)
  {
    var a2 := a["house_number" := n];
    UpdateElsewhere(a, StreetKeys, "house_number", n);
    UpdateElsewhere(a, DistrictKeys, "house_number", n);
    UpdateElsewhere(a, CityKeys, "house_number", n);
    assert Parts(a2, cityName) == Parts(a, cityName);
  }

  /** With every part present the text reads `street, number - neighbourhood - city`. */
  lemma FullAddress(a: Address, dn: Option<String>, cityName: String)
    requires !NoneTruthy(a, StreetKeys) && !NoneTruthy(a, NumberKeys)
    requires !NoneTruthy(a, DistrictKeys) && !NoneTruthy(a, CityKeys)
    ensures var street := FirstPresent(a, StreetKeys).value;
            var number := FirstPresent(a, NumberKeys).value;
            var district := FirstPresent(a, DistrictKeys).value;
            var city := FirstPresent(a, CityKeys).value;
            FormatarEnderecoExibicao(Item(Some(a), dn), cityName)
            == Some(street + ", " + number + " - " + district + " - " + city)
  {
    var parts := Parts(a, cityName);
    var s := Street(a).value;
    var b := FirstPresent(a, DistrictKeys).value;
    var c := City(a, cityName).value;
    assert parts == [s, b, c];
    JoinCons(parts, PartSeparator);
    assert parts[1..] == [b, c];
    JoinCons([b, c], PartSeparator);
    assert [b, c][1..] == [c];
    assert Join(parts, PartSeparator) == s + " - " + (b + " - " + c);
    assert s == FirstPresent(a, StreetKeys).value + ", " + FirstPresent(a, NumberKeys).value;
    assert c == FirstPresent(a, CityKeys).value;
    assert s + " - " + (b + " - " + c) == s + " - " + b + " - " + c;
    assert FormatarEnderecoExibicao(Item(Some(a), dn), cityName) == Some(Join(parts, PartSeparator));
  }

  /** The street part, when there is one, comes first. */
  lemma StreetFirst(item: Item, cityName: String)
    requires !NoneTruthy(FieldsOf(item), StreetKeys)
    ensures var r := FormatarEnderecoExibicao(item, cityName);
            r.Some? && FirstPresent(FieldsOf(item), StreetKeys).value <= r.value
  {
    var a := FieldsOf(item);
    var parts := Parts(a, cityName);
    assert parts[0] == Street(a).value;
    JoinStartsWithFirst(parts, PartSeparator);
  }

  /** A street without a house number is shown as the street alone. */
  lemma StreetWithoutNumber(a: Address)
    requires NoneTruthy(a, NumberKeys)
    ensures Street(a) == FirstPresent(a, StreetKeys)
  {
  }

  /** Two parts read `first - second`. */
  lemma JoinTwo(x: String, y: String)
    ensures Join([x, y], PartSeparator) == x + " - " + y
  {
    JoinCons([x, y], PartSeparator);
    assert [x, y][1..] == [y];
  }

  /** Whatever parts are present are shown in the order street, neighbourhood, city,
      separated by ` - `; a missing part leaves no separator behind. */
  lemma PresentPartsJoined(item: Item, cityName: String)
    ensures var a := FieldsOf(item);
            var s := Street(a);
            var d := FirstPresent(a, DistrictKeys);
            var c := City(a, cityName);
            var r := FormatarEnderecoExibicao(item, cityName);
            && (s.Some? && d.Some? && c.Some? ==> r == Some(s.value + " - " + d.value + " - " + c.value))
            && (s.Some? && d.None? && c.Some? ==> r == Some(s.value + " - " + c.value))
            && (s.Some? && d.Some? && c.None? ==> r == Some(s.value + " - " + d.value))
            && (s.None? && d.Some? && c.Some? ==> r == Some(d.value + " - " + c.value))
            && (s.Some? && d.None? && c.None? ==> r == s)
            && (s.None? && d.Some? && c.None? ==> r == d)
            && (s.None? && d.None? && c.Some? ==> r == c)
  {
    var a := FieldsOf(item);
    var s := Street(a);
    var d := FirstPresent(a, DistrictKeys);
    var c := City(a, cityName);
    var parts := Parts(a, cityName);
    if s.Some? && d.Some? && c.Some? {
      assert parts == [s.value, d.value, c.value];
      JoinCons(parts, PartSeparator);
      assert parts[1..] == [d.value, c.value];
      JoinTwo(d.value, c.value);
      assert s.value + " - " + (d.value + " - " + c.value) == s.value + " - " + d.value + " - " + c.value;
    } else if s.Some? && d.None? && c.Some? {
      assert parts == [s.value, c.value];
      JoinTwo(s.value, c.value);
    } else if s.Some? && d.Some? && c.None? {
      assert parts == [s.value, d.value];
      JoinTwo(s.value, d.value);
    } else if s.None? && d.Some? && c.Some? {
      assert parts == [d.value, c.value];
      JoinTwo(d.value, c.value);
    } else if s.Some? || d.Some? || c.Some? {
      assert |parts| == 1;
    }
  }

  /** The shortened display name is the trimmed text before its third comma, or the whole
      trimmed display name when it has at most two commas; its comma fields are the first
      three of the display name. */
  lemma ShortDisplayNameFields(dn: String)
    ensures exists q :: FieldPrefix(q, dn, ',') && ShortDisplayName(dn) == Trim(q)
                        && Split(q, ',') == Take(Split(dn, ','), 3)
  {
    var q := Join(Take(Split(dn, ','), 3), [',']);
    JoinTakeSplit(dn, ',', 3);
    var fields := Take(Split(dn, ','), 3);
    forall k | 0 <= k < |fields|
      ensures ',' !in fields[k]
    {
      assert fields[k] == Split(dn, ',')[k];
    }
    SplitJoin(fields, ',');
    assert "," == [','];
  }

  /** A display name with at most three comma fields is shown whole, trimmed. */
  lemma ShortDisplayNameKeepsFewFields(dn: String)
    requires |Split(dn, ',')| <= 3
    ensures ShortDisplayName(dn) == Trim(dn)
  {
    JoinSplit(dn, ',');
    assert "," == [','];
  }

  /** Without any part, the result is the shortened display name. */
  lemma FallbackToDisplayName(item: Item, cityName: String)
    requires Parts(FieldsOf(item), cityName) == [] && item.displayName.Some?
    ensures FormatarEnderecoExibicao(item, cityName) == Some(ShortDisplayName(item.displayName.value))
  {
  }
}
