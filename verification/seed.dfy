/** The `seed_data` command: a fixed list of countries with their states and cities,
    written with `get_or_create` so that rows already present are found, not duplicated.
    A country is found by name and code, a state by name and country, a city by name and
    state. */
module Seed {
  import opened Base
  import opened Models

  datatype StateSeed = StateSeed(name: string, cities: seq<string>)
  datatype Entry = Entry(name: string, code: string, states: seq<StateSeed>)

  const Data: seq<Entry> := [
    Entry("United States", "USA", [
      StateSeed("California", ["Los Angeles", "San Francisco", "San Diego"]),
      StateSeed("Texas", ["Houston", "Dallas", "Austin"])]),
    Entry("Dominican Republic", "DOM", [
      StateSeed("Distrito Nacional", ["Santo Domingo"]),
      StateSeed("Santiago", ["Santiago de los Caballeros"])])
  ]

  const MultipleObjects := "MultipleObjectsReturned"
  const IntegrityError := "IntegrityError: UNIQUE constraint failed"

  /** The lookup arguments of each `get_or_create`. */
  function CountryPair(c: Country): (string, string) { (c.name, c.code) }
  function StatePair(s: State): (string, int) { (s.name, s.country) }
  function CityPair(c: City): (string, int) { (c.name, c.state) }

  /** How many rows match a lookup. */
  function Count<T, K(==)>(rows: seq<T>, key: T -> K, k: K): (n: nat)
    ensures n <= |rows|
    ensures n == 0 <==> forall i :: 0 <= i < |rows| ==> key(rows[i]) != k
    ensures n != 0 ==> Find(rows, key, k).Some?
  {
    if |rows| == 0 then 0
    else
      var init := rows[..|rows| - 1];
      assert forall i :: 0 <= i < |init| ==> init[i] == rows[i];
      Count(init, key, k) + (if key(rows[|rows| - 1]) == k then 1 else 0)
  }

  lemma CountAppend<T, K>(rows: seq<T>, x: T, key: T -> K, k: K)
    ensures Count(rows + [x], key, k) == Count(rows, key, k) + (if key(x) == k then 1 else 0)
  {
    assert (rows + [x])[..|rows|] == rows;
  }

  /** Seeding only appends: customers and addresses are untouched, existing place rows stay
      where they are, and a lookup that matched before matches the same number of rows after. */
  ghost predicate Grows(db: Db, r: Db)
  {
    && r.customers == db.customers && r.addresses == db.addresses
    && r.next.customer == db.next.customer && r.next.address == db.next.address
    && db.next.country <= r.next.country && db.next.state <= r.next.state && db.next.city <= r.next.city
    && Extends(db.countries, r.countries) && Extends(db.states, r.states) && Extends(db.cities, r.cities)
    && (forall k :: Count(db.countries, CountryPair, k) != 0 ==> Count(r.countries, CountryPair, k) == Count(db.countries, CountryPair, k))
    && (forall k :: Count(db.states, StatePair, k) != 0 ==> Count(r.states, StatePair, k) == Count(db.states, StatePair, k))
    && (forall k :: Count(db.cities, CityPair, k) != 0 ==> Count(r.cities, CityPair, k) == Count(db.cities, CityPair, k))
  }

  lemma GrowsTransitive(a: Db, b: Db, c: Db)
    requires Grows(a, b) && Grows(b, c)
    ensures Grows(a, c)
  {
  }

  /** Appending a row whose lookup matched nothing makes that lookup match it alone. */
  lemma AppendCountry(db: Db, row: Country)
    requires Count(db.countries, CountryPair, CountryPair(row)) == 0 && db.next.country <= row.id
    ensures var r := db.(countries := db.countries + [row], next := db.next.(country := row.id + 1));
      && Grows(db, r)
      && Count(r.countries, CountryPair, CountryPair(row)) == 1
      && Find(r.countries, CountryPair, CountryPair(row)) == Some(row)
  {
    var r := db.(countries := db.countries + [row], next := db.next.(country := row.id + 1));
    forall k ensures Count(r.countries, CountryPair, k) == Count(db.countries, CountryPair, k) + (if k == CountryPair(row) then 1 else 0) {
      CountAppend(db.countries, row, CountryPair, k);
    }
  }

  lemma AppendState(db: Db, row: State)
    requires Count(db.states, StatePair, StatePair(row)) == 0 && db.next.state <= row.id
    ensures var r := db.(states := db.states + [row], next := db.next.(state := row.id + 1));
      && Grows(db, r)
      && Count(r.states, StatePair, StatePair(row)) == 1
      && Find(r.states, StatePair, StatePair(row)) == Some(row)
  {
    var r := db.(states := db.states + [row], next := db.next.(state := row.id + 1));
    forall k ensures Count(r.states, StatePair, k) == Count(db.states, StatePair, k) + (if k == StatePair(row) then 1 else 0) {
      CountAppend(db.states, row, StatePair, k);
    }
  }

  lemma AppendCity(db: Db, row: City)
    requires Count(db.cities, CityPair, CityPair(row)) == 0 && db.next.city <= row.id
    ensures var r := db.(cities := db.cities + [row], next := db.next.(city := row.id + 1));
      && Grows(db, r)
      && Count(r.cities, CityPair, CityPair(row)) == 1
  {
    var r := db.(cities := db.cities + [row], next := db.next.(city := row.id + 1));
    forall k ensures Count(r.cities, CityPair, k) == Count(db.cities, CityPair, k) + (if k == CityPair(row) then 1 else 0) {
      CountAppend(db.cities, row, CityPair, k);
    }
  }

  /** `Country.objects.get_or_create(name=..., code=...)`: the id of the single match, or a
      new row; a second match raises, and so does a new row clashing with a unique column. */
  function GetOrCreateCountry(db: Db, name: string, code: string): (r: Result<(Db, int)>)
    ensures Count(db.countries, CountryPair, (name, code)) > 1 ==> r == Err(MultipleObjects)
    ensures Count(db.countries, CountryPair, (name, code)) == 1 ==>
      r == Ok((db, Find(db.countries, CountryPair, (name, code)).value.id))
    ensures Count(db.countries, CountryPair, (name, code)) == 0 ==>
      (r.Err? <==> exists c :: c in db.countries && (c.name == name || c.code == code))
    ensures r.Ok? ==>
      && Grows(db, r.value.0)
      && Count(r.value.0.countries, CountryPair, (name, code)) == 1
      && Find(r.value.0.countries, CountryPair, (name, code)).value.id == r.value.1
  {
    var n := Count(db.countries, CountryPair, (name, code));
    if n > 1 then Err(MultipleObjects)
    else if n == 1 then Ok((db, Find(db.countries, CountryPair, (name, code)).value.id))
    else if exists c :: c in db.countries && (c.name == name || c.code == code) then Err(IntegrityError)
    else
      var row := Country(db.next.country, name, code);
      var r := db.(countries := db.countries + [row], next := db.next.(country := row.id + 1));
      AppendCountry(db, row);
      Ok((r, row.id))
  }

  /** `State.objects.get_or_create(name=..., country=country)`. */
  function GetOrCreateState(db: Db, name: string, country: int): (r: Result<(Db, int)>)
    ensures Count(db.states, StatePair, (name, country)) > 1 ==> r == Err(MultipleObjects)
    ensures Count(db.states, StatePair, (name, country)) == 1 ==>
      r == Ok((db, Find(db.states, StatePair, (name, country)).value.id))
    ensures Count(db.states, StatePair, (name, country)) == 0 ==>
      r.Ok? && r.value.0.states == db.states + [State(db.next.state, name, country)]
    ensures r.Ok? ==>
      && Grows(db, r.value.0)
      && Count(r.value.0.states, StatePair, (name, country)) == 1
      && Find(r.value.0.states, StatePair, (name, country)).value.id == r.value.1
  {
    var n := Count(db.states, StatePair, (name, country));
    if n > 1 then Err(MultipleObjects)
    else if n == 1 then Ok((db, Find(db.states, StatePair, (name, country)).value.id))
    else
      var row := State(db.next.state, name, country);
      var r := db.(states := db.states + [row], next := db.next.(state := row.id + 1));
      AppendState(db, row);
      Ok((r, row.id))
  }

  /** `City.objects.get_or_create(name=..., state=state)`. */
  function GetOrCreateCity(db: Db, name: string, state: int): (r: Result<Db>)
    ensures Count(db.cities, CityPair, (name, state)) > 1 ==> r == Err(MultipleObjects)
    ensures Count(db.cities, CityPair, (name, state)) == 1 ==> r == Ok(db)
    ensures Count(db.cities, CityPair, (name, state)) == 0 ==>
      r == Ok(db.(cities := db.cities + [City(db.next.city, name, state)], next := db.next.(city := db.next.city + 1)))
    ensures r.Ok? ==> Grows(db, r.value) && Count(r.value.cities, CityPair, (name, state)) == 1
  {
    var n := Count(db.cities, CityPair, (name, state));
    if n > 1 then Err(MultipleObjects)
    else if n == 1 then Ok(db)
    else
      var row := City(db.next.city, name, state);
      var r := db.(cities := db.cities + [row], next := db.next.(city := row.id + 1));
      AppendCity(db, row);
      Ok(r)
  }

  /** Where a run of `get_or_create` calls stopped: the store it reached and the exception
      that ended it, if any. `handle` opens no transaction, so the rows written before an
      exception stay. */
  datatype Run = Run(db: Db, error: Option<string>)

  /** `for city_name in state_data["cities"]`. */
  function SeedCities(db: Db, state: int, names: seq<string>): (r: Run)
    ensures Grows(db, r.db)
    decreases |names|
  {
    if |names| == 0 then Run(db, None)
    else
      match GetOrCreateCity(db, names[0], state)
      case Err(e) => Run(db, Some(e))
      case Ok(d) =>
        var r := SeedCities(d, state, names[1..]);
        GrowsTransitive(db, d, r.db); r
  }

  /** `for state_data in entry["states"]`. */
  function SeedStates(db: Db, country: int, seeds: seq<StateSeed>): (r: Run)
    ensures Grows(db, r.db)
    decreases |seeds|
  {
    if |seeds| == 0 then Run(db, None)
    else
      match GetOrCreateState(db, seeds[0].name, country)
      case Err(e) => Run(db, Some(e))
      case Ok((d, state)) =>
        var c := SeedCities(d, state, seeds[0].cities);
        GrowsTransitive(db, d, c.db);
        if c.error.Some? then c
        else
          var r := SeedStates(c.db, country, seeds[1..]);
          GrowsTransitive(db, c.db, r.db); r
  }

  /** `for entry in DATA`. */
  function SeedEntries(db: Db, entries: seq<Entry>): (r: Run)
    ensures Grows(db, r.db)
    decreases |entries|
  {
    if |entries| == 0 then Run(db, None)
    else
      match GetOrCreateCountry(db, entries[0].name, entries[0].code)
      case Err(e) => Run(db, Some(e))
      case Ok((d, country)) =>
        var s := SeedStates(d, country, entries[0].states);
        GrowsTransitive(db, d, s.db);
        if s.error.Some? then s
        else
          var r := SeedEntries(s.db, entries[1..]);
          GrowsTransitive(db, s.db, r.db); r
  }

  /** `Command.handle`; the progress messages are left out. */
  function Handle(db: Db): Run
  {
    SeedEntries(db, Data)
  }

  // ---- what a seeded store holds ----

  /** Every listed city exists exactly once under `state`. */
  predicate CitiesPresent(db: Db, state: int, names: seq<string>)
  {
    forall i :: 0 <= i < |names| ==> Count(db.cities, CityPair, (names[i], state)) == 1
  }

  /** Every listed state exists exactly once under `country`, with its cities. */
  predicate StatesPresent(db: Db, country: int, seeds: seq<StateSeed>)
  {
    forall i :: 0 <= i < |seeds| ==>
      && Count(db.states, StatePair, (seeds[i].name, country)) == 1
      && CitiesPresent(db, Find(db.states, StatePair, (seeds[i].name, country)).value.id, seeds[i].cities)
  }

  /** Every listed country exists exactly once, with its states and their cities. */
  predicate EntriesPresent(db: Db, entries: seq<Entry>)
  {
    forall i :: 0 <= i < |entries| ==>
      && Count(db.countries, CountryPair, (entries[i].name, entries[i].code)) == 1
      && StatesPresent(db, Find(db.countries, CountryPair, (entries[i].name, entries[i].code)).value.id, entries[i].states)
  }

  predicate Seeded(db: Db)
  {
    EntriesPresent(db, Data)
  }

  function StateTotal(entries: seq<Entry>): nat
  {
    if |entries| == 0 then 0 else |entries[0].states| + StateTotal(entries[1..])
  }

  function CitiesIn(seeds: seq<StateSeed>): nat
  {
    if |seeds| == 0 then 0 else |seeds[0].cities| + CitiesIn(seeds[1..])
  }

  function CityTotal(entries: seq<Entry>): nat
  {
    if |entries| == 0 then 0 else CitiesIn(entries[0].states) + CityTotal(entries[1..])
  }

  /** The list holds two countries, four states and eight cities, and no name repeats
      under the same parent. */
  lemma DataShape()
    ensures |Data| == 2 && StateTotal(Data) == 4 && CityTotal(Data) == 8
    ensures Data[0].name != Data[1].name && Data[0].code != Data[1].code
  {
    assert Data[0].code[0] != Data[1].code[0];
    assert Data[0].name[0] != Data[1].name[0];
  }

  // ---- growth keeps what is present ----

  lemma CitiesPresentGrow(db: Db, r: Db, state: int, names: seq<string>)
    requires Grows(db, r) && CitiesPresent(db, state, names)
    ensures CitiesPresent(r, state, names)
  {
    forall i | 0 <= i < |names| ensures Count(r.cities, CityPair, (names[i], state)) == 1 {
      assert Count(db.cities, CityPair, (names[i], state)) == 1;
    }
  }

  lemma StatesPresentGrow(db: Db, r: Db, country: int, seeds: seq<StateSeed>)
    requires Grows(db, r) && StatesPresent(db, country, seeds)
    ensures StatesPresent(r, country, seeds)
  {
    forall i | 0 <= i < |seeds|
      ensures Count(r.states, StatePair, (seeds[i].name, country)) == 1
      ensures CitiesPresent(r, Find(r.states, StatePair, (seeds[i].name, country)).value.id, seeds[i].cities)
    {
      var k := (seeds[i].name, country);
      assert Count(db.states, StatePair, k) == 1;
      FindExtends(db.states, r.states, StatePair, k);
      CitiesPresentGrow(db, r, Find(db.states, StatePair, k).value.id, seeds[i].cities);
    }
  }

  lemma EntriesPresentGrow(db: Db, r: Db, entries: seq<Entry>)
    requires Grows(db, r) && EntriesPresent(db, entries)
    ensures EntriesPresent(r, entries)
  {
    forall i | 0 <= i < |entries|
      ensures Count(r.countries, CountryPair, (entries[i].name, entries[i].code)) == 1
      ensures StatesPresent(r, Find(r.countries, CountryPair, (entries[i].name, entries[i].code)).value.id, entries[i].states)
    {
      var k := (entries[i].name, entries[i].code);
      assert Count(db.countries, CountryPair, k) == 1;
      FindExtends(db.countries, r.countries, CountryPair, k);
      StatesPresentGrow(db, r, Find(db.countries, CountryPair, k).value.id, entries[i].states);
    }
  }

  // ---- a successful run leaves everything present ----

  lemma {:induction false} SeedCitiesPresent(db: Db, state: int, names: seq<string>)
    requires SeedCities(db, state, names).error.None?
    ensures CitiesPresent(SeedCities(db, state, names).db, state, names)
    decreases |names|
  {
    if |names| > 0 {
      var d := GetOrCreateCity(db, names[0], state).value;
      var r := SeedCities(d, state, names[1..]).db;
      SeedCitiesPresent(d, state, names[1..]);
      forall i | 0 <= i < |names| ensures Count(r.cities, CityPair, (names[i], state)) == 1 {
        if i > 0 {
          assert names[i] == names[1..][i - 1];
        }
      }
    }
  }

  lemma {:induction false} SeedStatesPresent(db: Db, country: int, seeds: seq<StateSeed>)
    requires SeedStates(db, country, seeds).error.None?
    ensures StatesPresent(SeedStates(db, country, seeds).db, country, seeds)
    decreases |seeds|
  {
    if |seeds| > 0 {
      var (d, state) := GetOrCreateState(db, seeds[0].name, country).value;
      var d2 := SeedCities(d, state, seeds[0].cities).db;
      var r := SeedStates(d2, country, seeds[1..]).db;
      SeedStatesPresent(d2, country, seeds[1..]);
      SeedCitiesPresent(d, state, seeds[0].cities);
      CitiesPresentGrow(d2, r, state, seeds[0].cities);
      var k := (seeds[0].name, country);
      FindExtends(d.states, d2.states, StatePair, k);
      FindExtends(d2.states, r.states, StatePair, k);
      forall i | 0 <= i < |seeds|
        ensures Count(r.states, StatePair, (seeds[i].name, country)) == 1
        ensures CitiesPresent(r, Find(r.states, StatePair, (seeds[i].name, country)).value.id, seeds[i].cities)
      {
        if i > 0 {
          assert seeds[i] == seeds[1..][i - 1];
        }
      }
    }
  }

  lemma {:induction false} SeedEntriesPresent(db: Db, entries: seq<Entry>)
    requires SeedEntries(db, entries).error.None?
    ensures EntriesPresent(SeedEntries(db, entries).db, entries)
    decreases |entries|
  {
    if |entries| > 0 {
      var (d, country) := GetOrCreateCountry(db, entries[0].name, entries[0].code).value;
      var d2 := SeedStates(d, country, entries[0].states).db;
      var r := SeedEntries(d2, entries[1..]).db;
      SeedEntriesPresent(d2, entries[1..]);
      SeedStatesPresent(d, country, entries[0].states);
      StatesPresentGrow(d2, r, country, entries[0].states);
      var k := (entries[0].name, entries[0].code);
      FindExtends(d.countries, d2.countries, CountryPair, k);
      FindExtends(d2.countries, r.countries, CountryPair, k);
      forall i | 0 <= i < |entries|
        ensures Count(r.countries, CountryPair, (entries[i].name, entries[i].code)) == 1
        ensures StatesPresent(r, Find(r.countries, CountryPair, (entries[i].name, entries[i].code)).value.id, entries[i].states)
      {
        if i > 0 {
          assert entries[i] == entries[1..][i - 1];
        }
      }
    }
  }

  // ---- on a store where everything is present, seeding changes nothing ----

  lemma {:induction false} PresentCitiesUnchanged(db: Db, state: int, names: seq<string>)
    requires CitiesPresent(db, state, names)
    ensures SeedCities(db, state, names) == Run(db, None)
    decreases |names|
  {
    if |names| > 0 {
      assert Count(db.cities, CityPair, (names[0], state)) == 1;
      assert CitiesPresent(db, state, names[1..]) by {
        forall i | 0 <= i < |names[1..]| ensures Count(db.cities, CityPair, (names[1..][i], state)) == 1 {
          assert names[1..][i] == names[i + 1];
        }
      }
      PresentCitiesUnchanged(db, state, names[1..]);
    }
  }

  lemma {:induction false} PresentStatesUnchanged(db: Db, country: int, seeds: seq<StateSeed>)
    requires StatesPresent(db, country, seeds)
    ensures SeedStates(db, country, seeds) == Run(db, None)
    decreases |seeds|
  {
    if |seeds| > 0 {
      assert Count(db.states, StatePair, (seeds[0].name, country)) == 1;
      PresentCitiesUnchanged(db, Find(db.states, StatePair, (seeds[0].name, country)).value.id, seeds[0].cities);
      assert StatesPresent(db, country, seeds[1..]) by {
        forall i | 0 <= i < |seeds[1..]|
          ensures Count(db.states, StatePair, (seeds[1..][i].name, country)) == 1
          ensures CitiesPresent(db, Find(db.states, StatePair, (seeds[1..][i].name, country)).value.id, seeds[1..][i].cities)
        {
          assert seeds[1..][i] == seeds[i + 1];
        }
      }
      PresentStatesUnchanged(db, country, seeds[1..]);
    }
  }

  lemma {:induction false} PresentEntriesUnchanged(db: Db, entries: seq<Entry>)
    requires EntriesPresent(db, entries)
    ensures SeedEntries(db, entries) == Run(db, None)
    decreases |entries|
  {
    if |entries| > 0 {
      var k := (entries[0].name, entries[0].code);
      assert Count(db.countries, CountryPair, k) == 1;
      PresentStatesUnchanged(db, Find(db.countries, CountryPair, k).value.id, entries[0].states);
      assert EntriesPresent(db, entries[1..]) by {
        forall i | 0 <= i < |entries[1..]|
          ensures Count(db.countries, CountryPair, (entries[1..][i].name, entries[1..][i].code)) == 1
          ensures StatesPresent(db, Find(db.countries, CountryPair, (entries[1..][i].name, entries[1..][i].code)).value.id, entries[1..][i].states)
        {
          assert entries[1..][i] == entries[i + 1];
        }
      }
      PresentEntriesUnchanged(db, entries[1..]);
    }
  }

  // ---- rerunning from where a run stopped, on both paths ----

  /** Rerunning the city loop on the store it reached repeats the run exactly: every city
      it wrote is found, and it stops, if it stopped, at the same lookup with the same error. */
  lemma {:induction false} CitiesRerun(db: Db, state: int, names: seq<string>)
    ensures SeedCities(SeedCities(db, state, names).db, state, names) == SeedCities(db, state, names)
    decreases |names|
  {
    if |names| > 0 && GetOrCreateCity(db, names[0], state).Ok? {
      var d := GetOrCreateCity(db, names[0], state).value;
      var r := SeedCities(d, state, names[1..]);
      CitiesRerun(d, state, names[1..]);
      assert Count(r.db.cities, CityPair, (names[0], state)) == 1;
      assert GetOrCreateCity(r.db, names[0], state) == Ok(r.db);
    }
  }

  lemma {:induction false} StatesRerun(db: Db, country: int, seeds: seq<StateSeed>)
    ensures SeedStates(SeedStates(db, country, seeds).db, country, seeds) == SeedStates(db, country, seeds)
    decreases |seeds|
  {
    if |seeds| > 0 && GetOrCreateState(db, seeds[0].name, country).Ok? {
      var (d, state) := GetOrCreateState(db, seeds[0].name, country).value;
      var c := SeedCities(d, state, seeds[0].cities);
      var r := SeedStates(db, country, seeds);
      var k := (seeds[0].name, country);
      FindExtends(d.states, r.db.states, StatePair, k);
      assert GetOrCreateState(r.db, seeds[0].name, country) == Ok((r.db, state));
      if c.error.Some? {
        CitiesRerun(d, state, seeds[0].cities);
      } else {
        StatesRerun(c.db, country, seeds[1..]);
        SeedCitiesPresent(d, state, seeds[0].cities);
        CitiesPresentGrow(c.db, r.db, state, seeds[0].cities);
        PresentCitiesUnchanged(r.db, state, seeds[0].cities);
      }
    }
  }

  lemma {:induction false} EntriesRerun(db: Db, entries: seq<Entry>)
    ensures SeedEntries(SeedEntries(db, entries).db, entries) == SeedEntries(db, entries)
    decreases |entries|
  {
    if |entries| > 0 && GetOrCreateCountry(db, entries[0].name, entries[0].code).Ok? {
      var (d, country) := GetOrCreateCountry(db, entries[0].name, entries[0].code).value;
      var s := SeedStates(d, country, entries[0].states);
      var r := SeedEntries(db, entries);
      var k := (entries[0].name, entries[0].code);
      FindExtends(d.countries, r.db.countries, CountryPair, k);
      assert GetOrCreateCountry(r.db, entries[0].name, entries[0].code) == Ok((r.db, country));
      if s.error.Some? {
        StatesRerun(d, country, entries[0].states);
      } else {
        EntriesRerun(s.db, entries[1..]);
        SeedStatesPresent(d, country, entries[0].states);
        StatesPresentGrow(s.db, r.db, country, entries[0].states);
        PresentStatesUnchanged(r.db, country, entries[0].states);
      }
    }
  }

  // ---- the command ----

  /** Every run, failed or not, keeps every earlier row; a successful one leaves every
      listed country, state and city present exactly once under its listed parent. */
  lemma HandleSeeds(db: Db)
    ensures Grows(db, Handle(db).db)
    ensures Handle(db).error.None? ==> Seeded(Handle(db).db)
  {
    if Handle(db).error.None? {
      SeedEntriesPresent(db, Data);
    }
  }

  /** Running the command on a seeded store changes nothing. */
  lemma SeededIsFixed(db: Db)
    requires Seeded(db)
    ensures Handle(db) == Run(db, None)
  {
    PresentEntriesUnchanged(db, Data);
  }

  /** Running the command again on the store a run left behind, whether that run finished
      or stopped at an exception, gives the same store and the same outcome. */
  lemma HandleIdempotent(db: Db)
    ensures Handle(Handle(db).db) == Handle(db)
  {
    EntriesRerun(db, Data);
  }
}
