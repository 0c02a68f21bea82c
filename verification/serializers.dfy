/** The customer and address serializers: how an address is represented (the nested city
    replaces the city id on reads) and how a customer with its addresses is created. */
module Serializers {
  import opened Base
  import opened Models

  const CityDetailKey := "city_detail"
  const CityField := "city"
  const Get := "GET"
  const KeyError := "KeyError: 'city_detail'"

  /** `AddressSerializer.to_representation` after the default field rendering: `verb` is
      the method of the request in the context, if there is one. */
  function ToRepresentation(data: map<string, Json>, verb: Option<string>): (r: Result<map<string, Json>>)
    // a read moves the nested city under `city`; popping a missing key raises
    ensures verb == Some(Get) ==> (r.Ok? <==> CityDetailKey in data)
    ensures verb == Some(Get) && r.Ok? ==>
      && CityField in r.value && r.value[CityField] == data[CityDetailKey]
      && (forall k :: k != CityField && k != CityDetailKey ==>
            (k in r.value <==> k in data) && (k in r.value ==> r.value[k] == data[k]))
    // anything else just drops it
    ensures verb != Some(Get) ==>
      r.Ok? && forall k :: k in r.value <==> k in data && k != CityDetailKey
    ensures verb != Some(Get) ==> forall k :: k in r.value ==> r.value[k] == data[k]
    ensures r.Ok? ==> CityDetailKey !in r.value
  {
    if verb == Some(Get) then
      if CityDetailKey in data then Ok((data - {CityDetailKey})[CityField := data[CityDetailKey]])
      else Err(KeyError)
    else
      Ok(data - {CityDetailKey})
  }

  function CountryJson(c: Country): Json
  {
    JObj(map["id" := JNum(c.id), "name" := JStr(c.name), "code" := JStr(c.code)])
  }

  /** `CitySerializer(obj.city).data`: all fields, with the state and its country nested. */
  function CityDetail(db: Db, c: City): Result<Json>
  {
    match Find(db.states, StateKey, c.state)
    case None => Err("DoesNotExist")
    case Some(s) =>
      match Find(db.countries, CountryKey, s.country)
      case None => Err("DoesNotExist")
      case Some(k) =>
        Ok(JObj(map["id" := JNum(c.id), "name" := JStr(c.name),
                    "state" := JObj(map["id" := JNum(s.id), "name" := JStr(s.name),
                                        "country" := CountryJson(k)])]))
  }

  function ZipJson(z: Option<string>): Json
  {
    match z
    case None => JNull
    case Some(t) => JStr(t)
  }

  /** The address as the framework renders its declared fields; `city` is write-only. */
  function Fields(db: Db, a: Address): Result<map<string, Json>>
  {
    match Find(db.cities, CityKey, a.city)
    case None => Err("DoesNotExist")
    case Some(c) =>
      match CityDetail(db, c)
      case Err(e) => Err(e)
      case Ok(detail) => Ok(map["street" := JStr(a.street), "zip_code" := ZipJson(a.zipCode), CityDetailKey := detail])
  }

  function Represent(db: Db, a: Address, verb: Option<string>): Result<map<string, Json>>
  {
    match Fields(db, a)
    case Err(e) => Err(e)
    case Ok(data) => ToRepresentation(data, verb)
  }

  /** In a linked store every address renders its fields, with the nested city of the
      address's city, state and country. */
  lemma FieldsOfLinked(db: Db, a: Address)
    requires Keyed(db) && Linked(db) && a in db.addresses
    ensures Find(db.cities, CityKey, a.city).Some?
    ensures var c := Find(db.cities, CityKey, a.city).value;
      var s := Find(db.states, StateKey, c.state);
      && s.Some? && Find(db.countries, CountryKey, s.value.country).Some?
      && Fields(db, a) == Ok(map["street" := JStr(a.street), "zip_code" := ZipJson(a.zipCode),
                                 CityDetailKey := CityDetail(db, c).value])
      && CityDetail(db, c).Ok?
  {
    var c := Find(db.cities, CityKey, a.city).value;
    assert c.state in StateIds(db);
    var s := Find(db.states, StateKey, c.state).value;
    assert s.country in CountryIds(db);
  }

  /** A read shows street, zip code and the nested city; any other request shows only
      street and zip code. */
  lemma RepresentationKeys(db: Db, a: Address, verb: Option<string>)
    requires Keyed(db) && Linked(db) && a in db.addresses
    ensures Represent(db, a, verb).Ok?
    ensures var r := Represent(db, a, verb).value;
      && "street" in r && r["street"] == JStr(a.street)
      && "zip_code" in r && r["zip_code"] == ZipJson(a.zipCode)
      && (verb == Some(Get) ==> r.Keys == {"street", "zip_code", CityField})
      && (verb != Some(Get) ==> r.Keys == {"street", "zip_code"})
  {
    FieldsOfLinked(db, a);
  }

  /** On a read, the path `city.state.country` of an address leads to the ids of its
      city, that city's state and that state's country. */
  lemma ReadNestsCity(db: Db, a: Address)
    requires Keyed(db) && Linked(db) && a in db.addresses
    ensures Represent(db, a, Some(Get)).Ok?
    ensures var city := Represent(db, a, Some(Get)).value[CityField];
      var c := Find(db.cities, CityKey, a.city).value;
      var s := Find(db.states, StateKey, c.state).value;
      && Member(city, "id") == Some(JNum(a.city))
      && Member(city, "state").Some?
      && Member(Member(city, "state").value, "id") == Some(JNum(c.state))
      && Member(Member(city, "state").value, "country").Some?
      && Member(Member(Member(city, "state").value, "country").value, "id") == Some(JNum(s.country))
  {
    FieldsOfLinked(db, a);
    RepresentationKeys(db, a, Some(Get));
  }

  // ---- create ----

  datatype AddressInput = AddressInput(street: string, city: int, zipCode: Option<string>)
  datatype CustomerInput = CustomerInput(name: string, email: string, phone: Option<string>, addresses: seq<AddressInput>)

  /** The `for address_data in addresses_data` loop of `create`. */
  function AddAll(db: Db, customer: int, entries: seq<AddressInput>): (r: Db)
    ensures r.customers == db.customers && r.countries == db.countries
    ensures r.states == db.states && r.cities == db.cities
    ensures r.next == db.next.(address := db.next.address + |entries|)
    ensures |r.addresses| == |db.addresses| + |entries|
    ensures r.addresses[..|db.addresses|] == db.addresses
    ensures forall i :: 0 <= i < |entries| ==>
      r.addresses[|db.addresses| + i] == Address(db.next.address + i, customer, entries[i].street, entries[i].city, entries[i].zipCode)
    decreases |entries|
  {
    if |entries| == 0 then db
    else
      var e := entries[0];
      var next := InsertAddress(db, customer, e.street, e.city, e.zipCode);
      var rest := AddAll(next, customer, entries[1..]);
      assert rest.addresses[..|db.addresses|] == rest.addresses[..|next.addresses|][..|db.addresses|];
      assert forall i :: 1 <= i < |entries| ==> entries[1..][i - 1] == entries[i];
      rest
  }

  /** `CustomerSerializer.create`: the customer from the validated data without its
      addresses, then one address per entry pointing at it; returns the store and the new id. */
  function Create(db: Db, input: CustomerInput): (r: (Db, int))
    ensures r.1 == db.next.customer
    ensures r.0.next == db.next.(customer := db.next.customer + 1, address := db.next.address + |input.addresses|)
    ensures r.0.customers == db.customers + [Customer(r.1, input.name, input.email, input.phone)]
    ensures r.0.countries == db.countries && r.0.states == db.states && r.0.cities == db.cities
    ensures |r.0.addresses| == |db.addresses| + |input.addresses|
    ensures r.0.addresses[..|db.addresses|] == db.addresses
    // one row per entry, in order, pointing at the new customer, numbered by the address sequence
    ensures forall i :: 0 <= i < |input.addresses| ==>
      r.0.addresses[|db.addresses| + i]
        == Address(db.next.address + i, r.1, input.addresses[i].street, input.addresses[i].city, input.addresses[i].zipCode)
  {
    var (withCustomer, id) := InsertCustomer(db, input.name, input.email, input.phone);
    var r := AddAll(withCustomer, id, input.addresses);
    assert |withCustomer.addresses| == |db.addresses| && withCustomer.next.address == db.next.address;
    assert forall i :: 0 <= i < |input.addresses| ==>
      r.addresses[|db.addresses| + i]
        == Address(db.next.address + i, id, input.addresses[i].street, input.addresses[i].city, input.addresses[i].zipCode);
    (r, id)
  }

  /** What the field validators guarantee before `create` runs. */
  predicate Validated(db: Db, input: CustomerInput)
  {
    && |input.name| <= CustomerNameMax && |input.email| <= EmailMax
    && (input.phone.Some? ==> |input.phone.value| <= PhoneMax)
    && (forall c :: c in db.customers ==> c.email != input.email)
    && (forall e :: e in input.addresses ==>
          |e.street| <= StreetMax && (e.zipCode.Some? ==> |e.zipCode.value| <= ZipMax) && e.city in CityIds(db))
  }

  /** Every address after `create` is an old one or the entry at its offset. */
  lemma CreatedRow(db: Db, input: CustomerInput, j: int)
    requires 0 <= j < |Create(db, input).0.addresses|
    ensures var r := Create(db, input).0;
      && (j < |db.addresses| ==> r.addresses[j] == db.addresses[j])
      && (j >= |db.addresses| ==>
            var e := input.addresses[j - |db.addresses|];
            r.addresses[j] == Address(db.next.address + (j - |db.addresses|), db.next.customer, e.street, e.city, e.zipCode))
  {
    var r := Create(db, input).0;
    if j < |db.addresses| {
      assert r.addresses[..|db.addresses|][j] == r.addresses[j];
    } else {
      var i := j - |db.addresses|;
      assert r.addresses[|db.addresses| + i] == r.addresses[j];
    }
  }

  lemma CreateKeepsKeys(db: Db, input: CustomerInput)
    requires Valid(db) && Validated(db, input)
    ensures Keyed(Create(db, input).0)
  {
    var r := Create(db, input).0;
    var n := |db.addresses|;
    forall i, j | 0 <= i < j < |r.customers|
      ensures r.customers[i].id != r.customers[j].id && r.customers[i].email != r.customers[j].email
    {
      if j == |db.customers| {
        assert r.customers[i] in db.customers;
      }
    }
    forall i, j | 0 <= i < j < |r.addresses| ensures r.addresses[i].id != r.addresses[j].id {
      CreatedRow(db, input, i);
      CreatedRow(db, input, j);
      if i < n && j < n {
        assert DistinctBy(db.addresses, AddressKey);
      } else if i < n {
        assert db.addresses[i] in db.addresses;
      }
    }
  }

  lemma CreateKeepsRows(db: Db, input: CustomerInput)
    requires Valid(db) && Validated(db, input)
    ensures Linked(Create(db, input).0) && Bounded(Create(db, input).0) && Fresh(Create(db, input).0)
  {
    var (r, id) := Create(db, input);
    var n := |db.addresses|;
    forall a | a in r.addresses
      ensures a.customer in CustomerIds(r) && a.city in CityIds(r)
      ensures |a.street| <= StreetMax && (a.zipCode.Some? ==> |a.zipCode.value| <= ZipMax)
      ensures a.id < r.next.address
    {
      var j :| 0 <= j < |r.addresses| && r.addresses[j] == a;
      CreatedRow(db, input, j);
      if j < n {
        assert a in db.addresses;
        var c :| c in db.customers && c.id == a.customer;
        assert c in r.customers;
      } else {
        assert input.addresses[j - n] in input.addresses;
        assert r.customers[|db.customers|].id == id;
      }
    }
  }

  /** Creating validated data keeps the store valid. */
  lemma CreateKeepsValid(db: Db, input: CustomerInput)
    requires Valid(db) && Validated(db, input)
    ensures Valid(Create(db, input).0)
  {
    CreateKeepsKeys(db, input);
    CreateKeepsRows(db, input);
  }
}
