/** The customer form's state and its address-list editor: adding, removing and patching
    addresses, and the country → state → city selects, where choosing a parent clears its
    children and a child select is disabled until its parent holds a truthy id. */
module CustomerForm {
  import opened Base

  /** Address ids are JavaScript numbers computed by `Math.max(...ids) + 1`; with no ids
      at all `Math.max()` is -Infinity, and -Infinity + 1 is -Infinity again. */
  datatype AddressId = Id(n: int) | NegInfinity

  datatype Address = Address(
    id: AddressId,
    countryId: Option<int>,
    stateId: Option<int>,
    cityId: Option<int>,
    street: string,
    zipCode: Option<string>)

  datatype FormData = FormData(name: string, email: string, phone: string, addresses: seq<Address>)

  /** The argument pairs `updateFormField` is called with. */
  datatype Field =
    | NameField(name: string)
    | EmailField(email: string)
    | PhoneField(phone: string)
    | AddressesField(addresses: seq<Address>)

  /** A `Partial<Address>`: each present member overrides the address's own. */
  datatype Patch = Patch(
    id: Option<AddressId>,
    countryId: Option<Option<int>>,
    stateId: Option<Option<int>>,
    cityId: Option<Option<int>>,
    street: Option<string>,
    zipCode: Option<string>)

  /** The result of a removal request: the form and the error toast it raised, if any. */
  datatype Removal = Removal(form: FormData, error: Option<string>)

  const OneAddressRequired := "At least one address is required"

  const NoPatch := Patch(None, None, None, None, None, None)

  function IdOf(a: Address): AddressId
  {
    a.id
  }

  /** The list editor's invariant: at least one address, every id finite and distinct. */
  predicate Valid(addresses: seq<Address>)
  {
    && |addresses| > 0
    && DistinctBy(addresses, IdOf)
    && forall i :: 0 <= i < |addresses| ==> addresses[i].id.Id?
  }

  /** A city is only chosen under a state, and a state only under a country. */
  predicate Consistent(a: Address)
  {
    && (a.cityId.Some? ==> a.stateId.Some?)
    && (a.stateId.Some? ==> a.countryId.Some?)
  }

  predicate AllConsistent(addresses: seq<Address>)
  {
    forall i :: 0 <= i < |addresses| ==> Consistent(addresses[i])
  }

  /** The state select is enabled when the country id is truthy (set and not 0). */
  predicate StateSelectEnabled(a: Address)
  {
    a.countryId.Some? && a.countryId.value != 0
  }

  /** The city select is enabled when the state id is truthy. */
  predicate CitySelectEnabled(a: Address)
  {
    a.stateId.Some? && a.stateId.value != 0
  }

  /** `a` is no greater than `b` as JavaScript numbers. */
  predicate AtMost(a: AddressId, b: AddressId)
  {
    a.NegInfinity? || (b.Id? && a.n <= b.n)
  }

  function Max(a: AddressId, b: AddressId): AddressId
  {
    if AtMost(a, b) then b else a
  }

  /** `Math.max(...addresses.map((a) => a.id))`. */
  function MaxId(addresses: seq<Address>): (m: AddressId)
    ensures forall i :: 0 <= i < |addresses| ==> AtMost(addresses[i].id, m)
    ensures addresses == [] ==> m.NegInfinity?
    ensures addresses != [] ==> exists i :: 0 <= i < |addresses| && addresses[i].id == m
    ensures (exists i :: 0 <= i < |addresses| && addresses[i].id.Id?) ==> m.Id?
    decreases |addresses|
  {
    if addresses == [] then NegInfinity
    else
      var rest := MaxId(addresses[1..]);
      assert forall i :: 1 <= i < |addresses| ==> addresses[i] == addresses[1..][i - 1];
      Max(addresses[0].id, rest)
  }

  /** `id + 1` on a JavaScript number. */
  function Succ(id: AddressId): AddressId
  {
    match id
    case Id(n) => Id(n + 1)
    case NegInfinity => NegInfinity
  }

  function Blank(id: AddressId): Address
  {
    Address(id, None, None, None, "", Some(""))
  }

  /** `INITIAL_FORM_DATA`. */
  function InitialFormData(): (f: FormData)
    ensures f.name == "" && f.email == "" && f.phone == ""
    ensures |f.addresses| == 1 && f.addresses[0].id == Id(1)
    ensures f.addresses[0].countryId.None? && f.addresses[0].stateId.None? && f.addresses[0].cityId.None?
    ensures f.addresses[0].street == "" && f.addresses[0].zipCode == Some("")
    ensures Valid(f.addresses) && AllConsistent(f.addresses)
  {
    FormData("", "", "", [Blank(Id(1))])
  }

  /** `updateFormField(field, value)`: that field takes the value, the others stay. */
  function UpdateFormField(f: FormData, field: Field): (r: FormData)
    ensures r.name == (if field.NameField? then field.name else f.name)
    ensures r.email == (if field.EmailField? then field.email else f.email)
    ensures r.phone == (if field.PhoneField? then field.phone else f.phone)
    ensures r.addresses == (if field.AddressesField? then field.addresses else f.addresses)
  {
    match field
    case NameField(v) => f.(name := v)
    case EmailField(v) => f.(email := v)
    case PhoneField(v) => f.(phone := v)
    case AddressesField(v) => f.(addresses := v)
  }

  /** `addAddress`: one blank address appended under the next id. */
  function AddAddress(f: FormData): (r: FormData)
    ensures r.name == f.name && r.email == f.email && r.phone == f.phone
    ensures |r.addresses| == |f.addresses| + 1
    ensures r.addresses[..|f.addresses|] == f.addresses
    ensures var added := r.addresses[|f.addresses|];
      && added.countryId.None? && added.stateId.None? && added.cityId.None?
      && added.street == "" && added.zipCode == Some("")
    // the new id is `Math.max(...ids) + 1`
    ensures r.addresses[|f.addresses|].id == Succ(MaxId(f.addresses))
    // with a finite id present, the new id exceeds every existing one by at least one
    ensures (exists i :: 0 <= i < |f.addresses| && f.addresses[i].id.Id?) ==>
      && r.addresses[|f.addresses|].id.Id?
      && forall i :: 0 <= i < |f.addresses| ==> AtMost(Succ(f.addresses[i].id), r.addresses[|f.addresses|].id)
  {
    UpdateFormField(f, AddressesField(f.addresses + [Blank(Succ(MaxId(f.addresses)))]))
  }

  /** `removeAddress(id)`: refused with an error toast on a single address; otherwise every
      address carrying `id` is dropped. */
  function RemoveAddress(f: FormData, id: AddressId): (r: Removal)
    ensures r.form.name == f.name && r.form.email == f.email && r.form.phone == f.phone
    ensures |f.addresses| == 1 ==> r == Removal(f, Some(OneAddressRequired))
    ensures |f.addresses| != 1 ==> r.error.None?
    ensures |f.addresses| != 1 ==>
      forall a :: a in r.form.addresses <==> a in f.addresses && a.id != id
  {
    if |f.addresses| == 1 then Removal(f, Some(OneAddressRequired))
    else Removal(UpdateFormField(f, AddressesField(Filter(f.addresses, (a: Address) => a.id != id))), None)
  }

  function ApplyPatch(a: Address, p: Patch): Address
  {
    Address(
      if p.id.Some? then p.id.value else a.id,
      if p.countryId.Some? then p.countryId.value else a.countryId,
      if p.stateId.Some? then p.stateId.value else a.stateId,
      if p.cityId.Some? then p.cityId.value else a.cityId,
      if p.street.Some? then p.street.value else a.street,
      if p.zipCode.Some? then Some(p.zipCode.value) else a.zipCode)
  }

  /** `updateAddress(id, updates)`: the addresses carrying `id` are patched, the others kept. */
  function UpdateAddress(f: FormData, id: AddressId, p: Patch): (r: FormData)
    ensures r.name == f.name && r.email == f.email && r.phone == f.phone
    ensures |r.addresses| == |f.addresses|
    ensures forall i :: 0 <= i < |f.addresses| && f.addresses[i].id != id ==> r.addresses[i] == f.addresses[i]
    ensures forall i :: 0 <= i < |f.addresses| && f.addresses[i].id == id ==>
      r.addresses[i] == ApplyPatch(f.addresses[i], p)
  {
    UpdateFormField(f, AddressesField(
      seq(|f.addresses|, i requires 0 <= i < |f.addresses| =>
        if f.addresses[i].id == id then ApplyPatch(f.addresses[i], p) else f.addresses[i])))
  }

  /** The country select of row `row`: sets the country and clears state and city. */
  function ChooseCountry(f: FormData, row: nat, country: int): (r: FormData)
  {
    if row < |f.addresses| then
      UpdateAddress(f, f.addresses[row].id, NoPatch.(countryId := Some(Some(country)), stateId := Some(None), cityId := Some(None)))
    else f
  }

  /** The state select of row `row`; a disabled select fires no change. */
  function ChooseState(f: FormData, row: nat, state: int): (r: FormData)
  {
    if row < |f.addresses| && StateSelectEnabled(f.addresses[row]) then
      UpdateAddress(f, f.addresses[row].id, NoPatch.(stateId := Some(Some(state)), cityId := Some(None)))
    else f
  }

  /** The city select of row `row`; a disabled select fires no change. */
  function ChooseCity(f: FormData, row: nat, city: int): (r: FormData)
  {
    if row < |f.addresses| && CitySelectEnabled(f.addresses[row]) then
      UpdateAddress(f, f.addresses[row].id, NoPatch.(cityId := Some(Some(city))))
    else f
  }

  /** The street and postal code inputs of row `row`. */
  function TypeStreet(f: FormData, row: nat, street: string): FormData
  {
    if row < |f.addresses| then UpdateAddress(f, f.addresses[row].id, NoPatch.(street := Some(street))) else f
  }

  function TypeZip(f: FormData, row: nat, zip: string): FormData
  {
    if row < |f.addresses| then UpdateAddress(f, f.addresses[row].id, NoPatch.(zipCode := Some(zip))) else f
  }

  /** With distinct ids, only the chosen row changes: a new country clears state and city,
      a new state clears the city, a new city touches nothing else. */
  lemma {:induction false} CascadeResets(f: FormData, row: nat, choice: int)
    requires DistinctBy(f.addresses, IdOf) && row < |f.addresses|
    ensures var a := f.addresses[row];
      && ChooseCountry(f, row, choice).addresses == f.addresses[row := a.(countryId := Some(choice), stateId := None, cityId := None)]
      && (StateSelectEnabled(a) ==>
            ChooseState(f, row, choice).addresses == f.addresses[row := a.(stateId := Some(choice), cityId := None)])
      && (CitySelectEnabled(a) ==>
            ChooseCity(f, row, choice).addresses == f.addresses[row := a.(cityId := Some(choice))])
  {
    var a := f.addresses[row];
    forall i | 0 <= i < |f.addresses| && i != row ensures f.addresses[i].id != a.id {
      if i < row { assert IdOf(f.addresses[i]) != IdOf(f.addresses[row]); }
      else { assert IdOf(f.addresses[row]) != IdOf(f.addresses[i]); }
    }
  }

  /** Patching without touching ids keeps the ids, hence the invariant. */
  lemma UpdateKeepsValid(f: FormData, id: AddressId, p: Patch)
    requires Valid(f.addresses) && p.id.None?
    ensures Valid(UpdateAddress(f, id, p).addresses)
  {
    var r := UpdateAddress(f, id, p).addresses;
    assert forall i :: 0 <= i < |r| ==> IdOf(r[i]) == IdOf(f.addresses[i]);
  }

  lemma AddKeepsValid(f: FormData)
    requires Valid(f.addresses)
    ensures Valid(AddAddress(f).addresses)
  {
    var r := AddAddress(f).addresses;
    var n := |f.addresses|;
    assert f.addresses[0].id.Id?;
    forall i, j | 0 <= i < j < |r| ensures IdOf(r[i]) != IdOf(r[j]) {
      if j == n {
        assert r[i] == f.addresses[i];
        assert AtMost(Succ(f.addresses[i].id), r[n].id);
      } else {
        assert r[i] == f.addresses[i] && r[j] == f.addresses[j];
      }
    }
    forall i | 0 <= i < |r| ensures r[i].id.Id? {
      if i < n { assert r[i] == f.addresses[i]; }
    }
  }

  lemma {:induction false} RemoveKeepsValid(f: FormData, id: AddressId)
    requires Valid(f.addresses)
    ensures Valid(RemoveAddress(f, id).form.addresses)
  {
    if |f.addresses| != 1 {
      var keep := (a: Address) => a.id != id;
      var r := Filter(f.addresses, keep);
      assert RemoveAddress(f, id).form.addresses == r;
      FilterKeepsDistinctBy(f.addresses, keep, IdOf);
      assert IdOf(f.addresses[0]) != IdOf(f.addresses[1]);
      if f.addresses[0].id != id { assert f.addresses[0] in r; } else { assert f.addresses[1] in r; }
      forall i | 0 <= i < |r| ensures r[i].id.Id? {
        assert r[i] in f.addresses;
      }
    }
  }

  /** The addresses that survive a removal keep their original order. */
  lemma RemoveKeepsOrder(f: FormData, id: AddressId)
    requires |f.addresses| != 1
    ensures SubsequenceOf(RemoveAddress(f, id).form.addresses, f.addresses)
  {
    FilterIsSubsequence(f.addresses, (a: Address) => a.id != id);
  }

  lemma ReplaceKeepsConsistent(addresses: seq<Address>, row: nat, a: Address)
    requires AllConsistent(addresses) && row < |addresses| && Consistent(a)
    ensures AllConsistent(addresses[row := a])
  {
  }

  /** The three selects keep "city set ⇒ state set ⇒ country set" on a list with distinct ids. */
  lemma {:induction false} ChoicesKeepHierarchy(f: FormData, row: nat, choice: int)
    requires DistinctBy(f.addresses, IdOf) && AllConsistent(f.addresses)
    ensures AllConsistent(ChooseCountry(f, row, choice).addresses)
    ensures AllConsistent(ChooseState(f, row, choice).addresses)
    ensures AllConsistent(ChooseCity(f, row, choice).addresses)
  {
    if row < |f.addresses| {
      CascadeResets(f, row, choice);
      var a := f.addresses[row];
      ReplaceKeepsConsistent(f.addresses, row, a.(countryId := Some(choice), stateId := None, cityId := None));
      if StateSelectEnabled(a) {
        ReplaceKeepsConsistent(f.addresses, row, a.(stateId := Some(choice), cityId := None));
      }
      if CitySelectEnabled(a) {
        assert Consistent(a);
        ReplaceKeepsConsistent(f.addresses, row, a.(cityId := Some(choice)));
      }
    }
  }

  /** Typing a street or postal code, adding and removing addresses keep the hierarchy too. */
  lemma OtherEditsKeepHierarchy(f: FormData, row: nat, text: string, id: AddressId)
    requires AllConsistent(f.addresses)
    ensures AllConsistent(TypeStreet(f, row, text).addresses)
    ensures AllConsistent(TypeZip(f, row, text).addresses)
    ensures AllConsistent(AddAddress(f).addresses)
    ensures AllConsistent(RemoveAddress(f, id).form.addresses)
  {
    AddKeepsHierarchy(f);
    RemoveKeepsHierarchy(f, id);
  }

  lemma {:induction false} AddKeepsHierarchy(f: FormData)
    requires AllConsistent(f.addresses)
    ensures AllConsistent(AddAddress(f).addresses)
  {
    var added := AddAddress(f).addresses;
    forall i | 0 <= i < |added| ensures Consistent(added[i]) {
      if i < |f.addresses| {
        assert added[i] == added[..|f.addresses|][i];
      }
    }
  }

  lemma {:induction false} RemoveKeepsHierarchy(f: FormData, id: AddressId)
    requires AllConsistent(f.addresses)
    ensures AllConsistent(RemoveAddress(f, id).form.addresses)
  {
    if |f.addresses| != 1 {
      var r := RemoveAddress(f, id).form.addresses;
      forall i | 0 <= i < |r| ensures Consistent(r[i]) {
        assert r[i] in f.addresses;
      }
    }
  }

  /** Starting from no addresses, `addAddress` yields the id -Infinity, and a second call
      yields it again: the id invariant needs a non-empty list. */
  lemma EmptyListAddsDuplicateIds(f: FormData)
    requires f.addresses == []
    ensures var twice := AddAddress(AddAddress(f)).addresses;
      |twice| == 2 && twice[0].id == NegInfinity && twice[1].id == NegInfinity
  {
    var once := AddAddress(f).addresses;
    assert once == [Blank(NegInfinity)];
    assert MaxId(once) == NegInfinity by {
      assert MaxId(once[1..]) == NegInfinity;
    }
  }
}
