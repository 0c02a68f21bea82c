/** What the create and edit pages share: the request payload they send and the way they
    turn the settled service call into toasts and navigations inside `try`/`finally`. */
module PageFlow {
  import opened Base
  import Interceptor
  import Storage

  /** `toaster.success`, `toaster.create` and `toaster.error`. */
  datatype ToastKind = SuccessToast | PlainToast | ErrorToast

  /** A toast's title is whatever value the page passes; None is `undefined`. */
  datatype Event = Toast(kind: ToastKind, title: Option<Json>) | Navigate(path: string)

  /** One address of the request body; a `zipCode` of None is sent as null or left out,
      which the backend stores alike (the column is nullable with no default). */
  datatype RequestAddress = RequestAddress(city: Option<int>, street: string, zipCode: Option<string>)

  datatype CustomerRequest = CustomerRequest(name: string, email: string, phone: string, addresses: seq<RequestAddress>)

  /** A submit handler's effect: the request it sent (if any), its events, and `loading` afterwards. */
  datatype Submission = Submission(request: Option<CustomerRequest>, events: seq<Event>, loading: bool)

  const BadRequest := 400
  const FillRequired := "Fill all the required fields"
  const CustomersPath := "/customers"

  /** `v[0]`: the first element of an array, the first character of a string, member "0" of an object. */
  function FirstOf(v: Json): Option<Json>
  {
    match v
    case JArr(items) => if |items| > 0 then Some(items[0]) else None
    case JStr(s) => if |s| > 0 then Some(JStr([s[0]])) else None
    case JObj(_) => Member(v, "0")
    case _ => None
  }

  /** The `try` body after the service call and its `catch`: the success status toasts and
      navigates to the list; 400 shows the first email error, or the generic message;
      any other status does nothing; a rejection, an undefined reply or null data
      (reading a member of them throws) shows the failure title. */
  function HandleReply(reply: Interceptor.Settled, okStatus: int, okKind: ToastKind, okTitle: string, failTitle: string): (events: seq<Event>)
    requires okStatus != BadRequest
    ensures reply.Rejects? || reply.response.None? ==> events == [Toast(ErrorToast, Some(JStr(failTitle)))]
    ensures reply.Resolves? && reply.response.Some? && reply.response.value.status == okStatus ==>
      events == [Toast(okKind, Some(JStr(okTitle))), Navigate(CustomersPath)]
    ensures reply.Resolves? && reply.response.Some? && reply.response.value.status == BadRequest
            && !reply.response.value.data.JNull? ==>
      var email := Member(reply.response.value.data, "email");
      if email.Some? && Truthy(email.value)
      then events == [Toast(ErrorToast, FirstOf(email.value))]
      else events == [Toast(ErrorToast, Some(JStr(FillRequired)))]
    // a 400 whose data is null throws when its `email` is read, into the failure toast
    ensures reply.Resolves? && reply.response.Some? && reply.response.value.status == BadRequest
            && reply.response.value.data.JNull? ==>
      events == [Toast(ErrorToast, Some(JStr(failTitle)))]
    ensures reply.Resolves? && reply.response.Some?
            && reply.response.value.status != okStatus && reply.response.value.status != BadRequest ==>
      events == []
    ensures Navigate(CustomersPath) in events <==>
      reply.Resolves? && reply.response.Some? && reply.response.value.status == okStatus
  {
    match reply
    case Rejects(_) => [Toast(ErrorToast, Some(JStr(failTitle)))]
    case Resolves(None) => [Toast(ErrorToast, Some(JStr(failTitle)))]
    case Resolves(Some(r)) =>
      if r.status == okStatus then [Toast(okKind, Some(JStr(okTitle))), Navigate(CustomersPath)]
      else if r.status == BadRequest then
        if r.data.JNull? then [Toast(ErrorToast, Some(JStr(failTitle)))]
        else
          var email := Member(r.data, "email");
          if email.Some? && Truthy(email.value) then [Toast(ErrorToast, FirstOf(email.value))]
          else [Toast(ErrorToast, Some(JStr(FillRequired)))]
      else []
  }

  /** A page submitted after the session's tokens are gone: the 401 finds no refresh token,
      the interceptor resolves it as it is, and the page shows nothing and stays put,
      since 401 is neither the success status nor 400. */
  lemma SignedOutSubmitShowsNothing(store: Storage.Store, config: Interceptor.Config,
                                    server: Interceptor.Config -> Interceptor.Reply, fuel: nat,
                                    okStatus: int, okKind: ToastKind, okTitle: string, failTitle: string)
    requires okStatus != BadRequest && okStatus != Interceptor.Unauthorized
    requires !config.retry && !Storage.Holds(store, Storage.RefreshKey)
    requires server(Interceptor.AttachBearer(store, config)).Rejected?
    requires server(Interceptor.AttachBearer(store, config)).failure.Some?
    requires server(Interceptor.AttachBearer(store, config)).failure.value.status == Interceptor.Unauthorized
    ensures var o := Interceptor.Dispatch(store, config, server, fuel);
      && o.Outcome? && o.refreshes == 0
      && o.store == Storage.ClearTokens(store)
      && HandleReply(o.result, okStatus, okKind, okTitle, failTitle) == []
  {
  }
}
