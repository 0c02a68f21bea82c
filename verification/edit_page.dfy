/** The update page: the fetched customer becomes the form's initial data, and the
    submitted form becomes the update request. */
module EditPage {
  import opened Base
  import opened CustomerForm
  import opened PageFlow
  import Interceptor

  /** The customer as the API returns it on GET: each address nests city → state → country. */
  datatype CountryRef = CountryRef(id: int, name: string, code: string)
  datatype StateRef = StateRef(id: int, name: string, country: CountryRef)
  datatype CityRef = CityRef(id: int, name: string, state: StateRef)
  datatype ApiAddress = ApiAddress(street: string, zipCode: Option<string>, city: CityRef)
  datatype ApiCustomer = ApiCustomer(name: string, email: string, phone: Option<string>, addresses: seq<ApiAddress>)

  /** How fetching by id ended: a customer-shaped body, or anything that throws on the way
      (a rejected call, or a resolved error body without `addresses`). */
  datatype FetchReply = Fetched(customer: ApiCustomer) | FetchFailed

  /** The fetch effect: the initial form data, its events, and `fetchLoading` afterwards. */
  datatype Fetch = Fetch(initialData: Option<FormData>, events: seq<Event>, fetchLoading: bool)

  const FetchError := "Error fetching customer data."
  const UpdatedTitle := "Customer updated successfully!"
  const UpdateError := "Error updating customer."
  const UpdateOk := 200

  function ToFormAddress(a: ApiAddress, index: nat): Address
  {
    Address(Id(index + 1), Some(a.city.state.country.id), Some(a.city.state.id), Some(a.city.id), a.street, a.zipCode)
  }

  /** The mapping in `fetchCustomer`. */
  function ToForm(c: ApiCustomer): (f: FormData)
    ensures f.name == c.name && f.email == c.email
    ensures f.phone == (if c.phone.Some? then c.phone.value else "")
    ensures |f.addresses| == |c.addresses|
    ensures forall i :: 0 <= i < |f.addresses| ==> f.addresses[i].id == Id(i + 1)
    ensures forall i :: 0 <= i < |f.addresses| ==>
      && f.addresses[i].countryId == Some(c.addresses[i].city.state.country.id)
      && f.addresses[i].stateId == Some(c.addresses[i].city.state.id)
      && f.addresses[i].cityId == Some(c.addresses[i].city.id)
      && f.addresses[i].street == c.addresses[i].street
      && f.addresses[i].zipCode == c.addresses[i].zipCode
  {
    FormData(c.name, c.email, if c.phone.Some? then c.phone.value else "",
             seq(|c.addresses|, i requires 0 <= i < |c.addresses| => ToFormAddress(c.addresses[i], i)))
  }

  /** `fetchCustomer`: with no route id it returns at once; `finally` clears `fetchLoading` on every path. */
  function FetchCustomer(routeId: Option<int>, reply: FetchReply): (r: Fetch)
    ensures !r.fetchLoading
    ensures r.initialData.Some? <==> routeId.Some? && reply.Fetched?
    ensures r.initialData.Some? ==> r.initialData.value == ToForm(reply.customer) && r.events == []
    ensures routeId.Some? && reply.FetchFailed? ==>
      r.events == [Toast(ErrorToast, Some(JStr(FetchError))), Navigate(CustomersPath)]
    ensures routeId.None? ==> r.events == []
  {
    if routeId.None? then Fetch(None, [], false)
    else match reply
      case Fetched(c) => Fetch(Some(ToForm(c)), [], false)
      case FetchFailed => Fetch(None, [Toast(ErrorToast, Some(JStr(FetchError))), Navigate(CustomersPath)], false)
  }

  /** The mapping in `handleSubmit`. */
  function ToRequest(f: FormData): (q: CustomerRequest)
    ensures q.name == f.name && q.email == f.email && q.phone == f.phone
    ensures |q.addresses| == |f.addresses|
    ensures forall i :: 0 <= i < |q.addresses| ==>
      q.addresses[i] == RequestAddress(f.addresses[i].cityId, f.addresses[i].street, f.addresses[i].zipCode)
  {
    CustomerRequest(f.name, f.email, f.phone,
      seq(|f.addresses|, i requires 0 <= i < |f.addresses| =>
        RequestAddress(f.addresses[i].cityId, f.addresses[i].street, f.addresses[i].zipCode)))
  }

  /** `handleSubmit`: `loading` is set first; without a route id it returns outside the
      `try`, so no request is sent and `loading` stays set. */
  function Submit(routeId: Option<int>, f: FormData, reply: Interceptor.Settled): (r: Submission)
    ensures routeId.None? ==> r == Submission(None, [], true)
    ensures routeId.Some? ==> r.request == Some(ToRequest(f)) && !r.loading
    ensures routeId.Some? ==> r.events == HandleReply(reply, UpdateOk, PlainToast, UpdatedTitle, UpdateError)
  {
    if routeId.None? then Submission(None, [], true)
    else Submission(Some(ToRequest(f)), HandleReply(reply, UpdateOk, PlainToast, UpdatedTitle, UpdateError), false)
  }

  /** Editing unchanged data sends back, per address, the city id, street and zip code the
      API returned, in the same order, with name and email kept and a missing phone as "". */
  lemma RoundTrip(c: ApiCustomer)
    ensures var q := ToRequest(ToForm(c));
      && q.name == c.name && q.email == c.email
      && q.phone == (if c.phone.Some? then c.phone.value else "")
      && |q.addresses| == |c.addresses|
      && forall i :: 0 <= i < |q.addresses| ==>
           q.addresses[i] == RequestAddress(Some(c.addresses[i].city.id), c.addresses[i].street, c.addresses[i].zipCode)
  {
  }

  /** The fetched form satisfies the editor's invariants whenever it has an address: ids
      1..n are distinct, and every address has its whole country → state → city chain. */
  lemma {:induction false} FetchedFormIsValid(c: ApiCustomer)
    requires |c.addresses| > 0
    ensures Valid(ToForm(c).addresses) && AllConsistent(ToForm(c).addresses)
  {
    var a := ToForm(c).addresses;
    forall i, j | 0 <= i < j < |a| ensures IdOf(a[i]) != IdOf(a[j]) {
      assert a[i].id == Id(i + 1) && a[j].id == Id(j + 1);
    }
  }
}
