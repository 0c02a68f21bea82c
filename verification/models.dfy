/** The relational store behind the API: customers with addresses, and the country →
    state → city hierarchy the addresses point into. Each table is a sequence of rows and
    has its own id sequence, as each model has its own auto-increment primary key. Deleting a country or a state cascades
    down the hierarchy and deleting a customer cascades to its addresses, while a city that
    any address references is protected: the whole deletion is refused. */
module Models {
  import opened Base

  datatype Customer = Customer(id: int, name: string, email: string, phone: Option<string>)
  datatype Country = Country(id: int, name: string, code: string)
  datatype State = State(id: int, name: string, country: int)
  datatype City = City(id: int, name: string, state: int)
  datatype Address = Address(id: int, customer: int, street: string, city: int, zipCode: Option<string>)

  /** The next value of each table's id sequence. */
  datatype Sequences = Sequences(customer: int, country: int, state: int, city: int, address: int)

  datatype Db = Db(
    customers: seq<Customer>,
    countries: seq<Country>,
    states: seq<State>,
    cities: seq<City>,
    addresses: seq<Address>,
    next: Sequences)

  // Column widths.
  const CustomerNameMax := 255
  const EmailMax := 254
  const PhoneMax := 20
  const PlaceNameMax := 100
  const CodeMax := 3
  const StreetMax := 255
  const ZipMax := 20

  const ProtectedError := "ProtectedError: the city is referenced by an address"

  const EmptyDb := Db([], [], [], [], [], Sequences(1, 1, 1, 1, 1))

  function CustomerKey(c: Customer): int { c.id }
  function CountryKey(c: Country): int { c.id }
  function StateKey(s: State): int { s.id }
  function CityKey(c: City): int { c.id }
  function AddressKey(a: Address): int { a.id }
  function EmailOf(c: Customer): string { c.email }
  function CountryName(c: Country): string { c.name }
  function CountryCode(c: Country): string { c.code }

  function CountryIds(db: Db): set<int> { set c | c in db.countries :: c.id }
  function StateIds(db: Db): set<int> { set s | s in db.states :: s.id }
  function CityIds(db: Db): set<int> { set c | c in db.cities :: c.id }
  function CustomerIds(db: Db): set<int> { set c | c in db.customers :: c.id }

  /** Primary keys are unique in every table; e-mail, country name and country code are unique too. */
  predicate Keyed(db: Db)
  {
    && DistinctBy(db.customers, CustomerKey)
    && DistinctBy(db.countries, CountryKey)
    && DistinctBy(db.states, StateKey)
    && DistinctBy(db.cities, CityKey)
    && DistinctBy(db.addresses, AddressKey)
    && DistinctBy(db.customers, EmailOf)
    && DistinctBy(db.countries, CountryName)
    && DistinctBy(db.countries, CountryCode)
  }

  /** Every foreign key points at an existing row. */
  predicate Linked(db: Db)
  {
    && (forall s :: s in db.states ==> s.country in CountryIds(db))
    && (forall c :: c in db.cities ==> c.state in StateIds(db))
    && (forall a :: a in db.addresses ==> a.customer in CustomerIds(db) && a.city in CityIds(db))
  }

  /** Every text column respects its width; phone and zip code may be null. */
  predicate Bounded(db: Db)
  {
    && (forall c :: c in db.customers ==>
          |c.name| <= CustomerNameMax && |c.email| <= EmailMax && (c.phone.Some? ==> |c.phone.value| <= PhoneMax))
    && (forall c :: c in db.countries ==> |c.name| <= PlaceNameMax && |c.code| <= CodeMax)
    && (forall s :: s in db.states ==> |s.name| <= PlaceNameMax)
    && (forall c :: c in db.cities ==> |c.name| <= PlaceNameMax)
    && (forall a :: a in db.addresses ==> |a.street| <= StreetMax && (a.zipCode.Some? ==> |a.zipCode.value| <= ZipMax))
  }

  /** Each table's id sequence is ahead of every id it handed out. */
  predicate Fresh(db: Db)
  {
    && (forall c :: c in db.customers ==> c.id < db.next.customer)
    && (forall c :: c in db.countries ==> c.id < db.next.country)
    && (forall s :: s in db.states ==> s.id < db.next.state)
    && (forall c :: c in db.cities ==> c.id < db.next.city)
    && (forall a :: a in db.addresses ==> a.id < db.next.address)
  }

  predicate Valid(db: Db)
  {
    Keyed(db) && Linked(db) && Bounded(db) && Fresh(db)
  }

  // ---- Deletion ----

  function StatesOf(db: Db, countries: set<int>): set<int> { set s | s in db.states && s.country in countries :: s.id }
  function CitiesOf(db: Db, states: set<int>): set<int> { set c | c in db.cities && c.state in states :: c.id }

  /** Some address points at one of `cities`. */
  predicate Referenced(db: Db, cities: set<int>)
  {
    exists a :: a in db.addresses && a.city in cities
  }

  function KeepCountry(gone: set<int>): Country -> bool { (c: Country) => c.id !in gone }
  function KeepState(gone: set<int>): State -> bool { (s: State) => s.id !in gone }
  function KeepCity(gone: set<int>): City -> bool { (c: City) => c.id !in gone }
  function KeepCustomer(gone: int): Customer -> bool { (c: Customer) => c.id != gone }
  function KeepAddressOf(gone: int): Address -> bool { (a: Address) => a.customer != gone }

  /** Removes the given countries, states and cities, unless an address protects one of the cities. */
  function Collect(db: Db, countries: set<int>, states: set<int>, cities: set<int>): (r: Result<Db>)
    ensures r.Err? <==> Referenced(db, cities)
    ensures r.Ok? ==>
      && r.value.customers == db.customers && r.value.addresses == db.addresses && r.value.next == db.next
      && (forall c :: c in r.value.countries <==> c in db.countries && c.id !in countries)
      && (forall s :: s in r.value.states <==> s in db.states && s.id !in states)
      && (forall c :: c in r.value.cities <==> c in db.cities && c.id !in cities)
    // a table with nothing to remove is left exactly as it was
    ensures r.Ok? && countries == {} ==> r.value.countries == db.countries
    ensures r.Ok? && states == {} ==> r.value.states == db.states
  {
    if Referenced(db, cities) then Err(ProtectedError)
    else
      FilterKeepsAll(db.countries, KeepCountry({}));
      FilterKeepsAll(db.states, KeepState({}));
      Ok(db.(countries := Filter(db.countries, KeepCountry(countries)),
             states := Filter(db.states, KeepState(states)),
             cities := Filter(db.cities, KeepCity(cities))))
  }

  /** `city.delete()`: refused when an address points at the city; otherwise only that
      city goes. */
  function DeleteCity(db: Db, id: int): (r: Result<Db>)
    ensures r.Err? <==> exists a :: a in db.addresses && a.city == id
    ensures r.Err? ==> r.error == ProtectedError
    ensures r.Ok? ==>
      && r.value.countries == db.countries && r.value.states == db.states
      && r.value.customers == db.customers && r.value.addresses == db.addresses && r.value.next == db.next
      && forall c :: c in r.value.cities <==> c in db.cities && c.id != id
  {
    Collect(db, {}, {}, {id})
  }

  /** `state.delete()`: its cities go with it, unless an address lies in one of them. */
  function DeleteState(db: Db, id: int): (r: Result<Db>)
    ensures r.Err? <==> exists a, c :: a in db.addresses && c in db.cities && a.city == c.id && c.state == id
    ensures r.Ok? ==>
      && r.value.countries == db.countries
      && r.value.customers == db.customers && r.value.addresses == db.addresses && r.value.next == db.next
      && (forall s :: s in r.value.states <==> s in db.states && s.id != id)
    // with unique city ids, exactly the cities of the state go
    ensures r.Ok? && DistinctBy(db.cities, CityKey) ==>
      forall c :: c in r.value.cities <==> c in db.cities && c.state != id
  {
    var r := Collect(db, {}, {id}, CitiesOf(db, {id}));
    if DistinctBy(db.cities, CityKey) then CitiesOfStates(db, {id}); r else r
  }

  /** With unique city ids, a city's id is among those of the cities of some states exactly
      when the city itself belongs to one of those states. */
  lemma CitiesOfStates(db: Db, states: set<int>)
    requires DistinctBy(db.cities, CityKey)
    ensures forall c :: c in db.cities ==> (c.id in CitiesOf(db, states) <==> c.state in states)
  {
    forall c | c in db.cities && c.id in CitiesOf(db, states) ensures c.state in states {
      var d :| d in db.cities && d.state in states && d.id == c.id;
      var i :| 0 <= i < |db.cities| && db.cities[i] == c;
      var j :| 0 <= j < |db.cities| && db.cities[j] == d;
      assert CityKey(db.cities[i]) == CityKey(db.cities[j]);
    }
  }

  /** `country.delete()`: its states and their cities go with it, unless an address lies
      in one of those cities. */
  function DeleteCountry(db: Db, id: int): (r: Result<Db>)
    ensures r.Err? <==> exists a, c, s :: a in db.addresses && c in db.cities && s in db.states
                                         && a.city == c.id && c.state == s.id && s.country == id
    ensures r.Ok? ==>
      && r.value.customers == db.customers && r.value.addresses == db.addresses && r.value.next == db.next
      && (forall k :: k in r.value.countries <==> k in db.countries && k.id != id)
    // with unique state ids, exactly the states of the country go
    ensures r.Ok? && DistinctBy(db.states, StateKey) ==>
      forall s :: s in r.value.states <==> s in db.states && s.country != id
    // with unique city ids, exactly the cities of those states go
    ensures r.Ok? && DistinctBy(db.cities, CityKey) ==>
      forall c :: c in r.value.cities <==> c in db.cities && c.state !in StatesOf(db, {id})
  {
    var r := Collect(db, {id}, StatesOf(db, {id}), CitiesOf(db, StatesOf(db, {id})));
    var r' := if DistinctBy(db.states, StateKey) then StatesOfCountry(db, id); r else r;
    if DistinctBy(db.cities, CityKey) then CitiesOfStates(db, StatesOf(db, {id})); r' else r'
  }

  /** With unique state ids, a state's id is among those of the states of a country
      exactly when the state itself belongs to that country. */
  lemma StatesOfCountry(db: Db, id: int)
    requires DistinctBy(db.states, StateKey)
    ensures forall s :: s in db.states ==> (s.id in StatesOf(db, {id}) <==> s.country == id)
  {
    forall s | s in db.states && s.id in StatesOf(db, {id}) ensures s.country == id {
      var t :| t in db.states && t.country == id && t.id == s.id;
      var i :| 0 <= i < |db.states| && db.states[i] == s;
      var j :| 0 <= j < |db.states| && db.states[j] == t;
      assert StateKey(db.states[i]) == StateKey(db.states[j]);
    }
  }

  /** `customer.delete()`: its addresses go with it; nothing protects a customer. */
  function DeleteCustomer(db: Db, id: int): (r: Db)
    ensures forall c :: c in r.customers <==> c in db.customers && c.id != id
    ensures forall a :: a in r.addresses <==> a in db.addresses && a.customer != id
    ensures r.countries == db.countries && r.states == db.states && r.cities == db.cities
  {
    db.(customers := Filter(db.customers, KeepCustomer(id)),
        addresses := Filter(db.addresses, KeepAddressOf(id)))
  }

  // ---- Insertion ----

  /** `Customer.objects.create(...)`. */
  function InsertCustomer(db: Db, name: string, email: string, phone: Option<string>): (r: (Db, int))
    ensures r.1 == db.next.customer && r.0.next == db.next.(customer := db.next.customer + 1)
    ensures r.0.customers == db.customers + [Customer(r.1, name, email, phone)]
    ensures r.0.countries == db.countries && r.0.states == db.states
    ensures r.0.cities == db.cities && r.0.addresses == db.addresses
  {
    var id := db.next.customer;
    (db.(customers := db.customers + [Customer(id, name, email, phone)], next := db.next.(customer := id + 1)), id)
  }

  /** `Address.objects.create(customer=..., ...)`. */
  function InsertAddress(db: Db, customer: int, street: string, city: int, zipCode: Option<string>): (r: Db)
    ensures r.next == db.next.(address := db.next.address + 1)
    ensures r.addresses == db.addresses + [Address(db.next.address, customer, street, city, zipCode)]
    ensures r.customers == db.customers && r.countries == db.countries
    ensures r.states == db.states && r.cities == db.cities
  {
    var id := db.next.address;
    db.(addresses := db.addresses + [Address(id, customer, street, city, zipCode)], next := db.next.(address := id + 1))
  }

  // ---- __str__ ----

  /** `str(state)`: its name and its country's name; following the foreign key fails
      when the row is missing. */
  function StateLabel(db: Db, s: State): (r: Result<string>)
    ensures r.Ok? <==> s.country in CountryIds(db)
    ensures r.Ok? ==> exists k :: k in db.countries && k.id == s.country && r.value == s.name + ", " + k.name
  {
    match Find(db.countries, CountryKey, s.country)
    case None => Err("DoesNotExist")
    case Some(c) => Ok(s.name + ", " + c.name)
  }

  /** `str(city)`: its name, its state's name and that state's country's name. */
  function CityLabel(db: Db, c: City): (r: Result<string>)
    ensures r.Ok? ==> exists s, k :: s in db.states && k in db.countries && s.id == c.state && k.id == s.country
                                     && r.value == c.name + ", " + s.name + ", " + k.name
    ensures Linked(db) && c in db.cities ==> r.Ok?
  {
    match Find(db.states, StateKey, c.state)
    case None => Err("DoesNotExist")
    case Some(s) =>
      match Find(db.countries, CountryKey, s.country)
      case None => Err("DoesNotExist")
      case Some(k) => Ok(c.name + ", " + s.name + ", " + k.name)
  }

  /** `str(address)`: its street, then its city's, state's and country's names. */
  function AddressLabel(db: Db, a: Address): (r: Result<string>)
    ensures r.Ok? ==> exists c, s, k :: c in db.cities && s in db.states && k in db.countries
                                        && c.id == a.city && s.id == c.state && k.id == s.country
                                        && r.value == a.street + ", " + c.name + ", " + s.name + ", " + k.name
    ensures Linked(db) && a in db.addresses ==> r.Ok?
  {
    match Find(db.cities, CityKey, a.city)
    case None => Err("DoesNotExist")
    case Some(c) =>
      match Find(db.states, StateKey, c.state)
      case None => Err("DoesNotExist")
      case Some(s) =>
        match Find(db.countries, CountryKey, s.country)
        case None => Err("DoesNotExist")
        case Some(k) => Ok(a.street + ", " + c.name + ", " + s.name + ", " + k.name)
  }

  // ---- Properties ----

  lemma EmptyDbValid()
    ensures Valid(EmptyDb)
  {
  }

  /** In a linked store the labels nest: a city's label is its name before its state's
      label, and an address's label is its street before its city's label. */
  lemma LabelsNest(db: Db, a: Address)
    requires Keyed(db) && Linked(db) && a in db.addresses
    ensures CityLabel(db, Find(db.cities, CityKey, a.city).value).Ok?
    ensures var c := Find(db.cities, CityKey, a.city).value;
      && AddressLabel(db, a) == Ok(a.street + ", " + CityLabel(db, c).value)
      && CityLabel(db, c) == Ok(c.name + ", " + StateLabel(db, Find(db.states, StateKey, c.state).value).value)
  {
    var c := Find(db.cities, CityKey, a.city).value;
    assert c.state in StateIds(db);
    var s := Find(db.states, StateKey, c.state).value;
    assert s.country in CountryIds(db);
    var k := Find(db.countries, CountryKey, s.country).value;
    assert StateLabel(db, s) == Ok(s.name + ", " + k.name);
    assert a.street + ", " + c.name + ", " + s.name + ", " + k.name
        == a.street + ", " + (c.name + ", " + s.name + ", " + k.name);
    assert c.name + ", " + s.name + ", " + k.name == c.name + ", " + (s.name + ", " + k.name);
  }

  /** A city referenced by an address cannot be deleted, and neither can anything above it. */
  lemma ProtectBlocksDeletion(db: Db, a: Address, s: State, c: City)
    requires a in db.addresses && c in db.cities && a.city == c.id && s in db.states && c.state == s.id
    ensures DeleteCity(db, c.id).Err?
    ensures DeleteState(db, s.id).Err?
    ensures DeleteCountry(db, s.country).Err?
  {
    assert c.id in CitiesOf(db, {s.id});
    assert s.id in StatesOf(db, {s.country});
    assert c.id in CitiesOf(db, StatesOf(db, {s.country}));
  }

  /** Deleting a country removes it with all its states and their cities. */
  lemma DeleteCountryCascades(db: Db, id: int)
    requires Linked(db) && DeleteCountry(db, id).Ok?
    ensures var r := DeleteCountry(db, id).value;
      && id !in CountryIds(r)
      && (forall s :: s in r.states ==> s.country != id)
      && (forall c :: c in r.cities ==> c.state in StateIds(r))
  {
    var r := DeleteCountry(db, id).value;
    forall c | c in r.cities ensures c.state in StateIds(r) {
      var s :| s in db.states && s.id == c.state;
      assert s.id in StatesOf(db, {id}) ==> c.id in CitiesOf(db, StatesOf(db, {id}));
      assert s in r.states;
    }
    forall s | s in r.states ensures s.country != id {
      assert s.country == id ==> s.id in StatesOf(db, {id});
    }
  }

  /** Deleting a state removes it with all its cities. */
  lemma DeleteStateCascades(db: Db, id: int)
    requires DeleteState(db, id).Ok?
    ensures var r := DeleteState(db, id).value;
      id !in StateIds(r) && forall c :: c in r.cities ==> c.state != id
  {
    var r := DeleteState(db, id).value;
    forall c | c in r.cities ensures c.state != id {
      assert c.state == id ==> c.id in CitiesOf(db, {id});
    }
  }

  lemma {:induction false} CollectKeepsValid(db: Db, countries: set<int>, states: set<int>, cities: set<int>)
    requires Valid(db) && Collect(db, countries, states, cities).Ok?
    requires forall s :: s in db.states && s.country in countries ==> s.id in states
    requires forall c :: c in db.cities && c.state in states ==> c.id in cities
    ensures Valid(Collect(db, countries, states, cities).value)
  {
    var r := Collect(db, countries, states, cities).value;
    FilterKeepsDistinctBy(db.countries, KeepCountry(countries), CountryKey);
    FilterKeepsDistinctBy(db.countries, KeepCountry(countries), CountryName);
    FilterKeepsDistinctBy(db.countries, KeepCountry(countries), CountryCode);
    FilterKeepsDistinctBy(db.states, KeepState(states), StateKey);
    FilterKeepsDistinctBy(db.cities, KeepCity(cities), CityKey);
    forall s | s in r.states ensures s.country in CountryIds(r) {
      var k :| k in db.countries && k.id == s.country;
      assert k in r.countries;
    }
    forall c | c in r.cities ensures c.state in StateIds(r) {
      var s :| s in db.states && s.id == c.state;
      assert s in r.states;
    }
    forall a | a in r.addresses ensures a.city in CityIds(r) {
      var c :| c in db.cities && c.id == a.city;
      assert c.id !in cities;
      assert c in r.cities;
    }
  }

  /** Every successful deletion leaves a valid store valid. */
  lemma DeletionsKeepValid(db: Db, id: int)
    requires Valid(db)
    ensures DeleteCity(db, id).Ok? ==> Valid(DeleteCity(db, id).value)
    ensures DeleteState(db, id).Ok? ==> Valid(DeleteState(db, id).value)
    ensures DeleteCountry(db, id).Ok? ==> Valid(DeleteCountry(db, id).value)
    ensures Valid(DeleteCustomer(db, id))
  {
    if DeleteCity(db, id).Ok? {
      CollectKeepsValid(db, {}, {}, {id});
    }
    if DeleteState(db, id).Ok? {
      CollectKeepsValid(db, {}, {id}, CitiesOf(db, {id}));
    }
    if DeleteCountry(db, id).Ok? {
      CollectKeepsValid(db, {id}, StatesOf(db, {id}), CitiesOf(db, StatesOf(db, {id})));
    }
    CustomerDeletionKeepsValid(db, id);
  }

  lemma {:induction false} CustomerDeletionKeepsValid(db: Db, id: int)
    requires Valid(db)
    ensures Valid(DeleteCustomer(db, id))
  {
    var r := DeleteCustomer(db, id);
    FilterKeepsDistinctBy(db.customers, KeepCustomer(id), CustomerKey);
    FilterKeepsDistinctBy(db.customers, KeepCustomer(id), EmailOf);
    FilterKeepsDistinctBy(db.addresses, KeepAddressOf(id), AddressKey);
    forall a | a in r.addresses ensures a.customer in CustomerIds(r) {
      var c :| c in db.customers && c.id == a.customer;
      assert c in r.customers;
    }
    assert CityIds(r) == CityIds(db);
  }
}
