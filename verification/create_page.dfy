/** The create page: the submitted form becomes the create request. */
module CreatePage {
  import opened Base
  import opened CustomerForm
  import opened PageFlow
  import Interceptor
  import EditPage

  const CreatedTitle := "Customer created successfully!"
  const CreateError := "Error creating customer."
  const Created := 201

  /** The mapping in `handleSubmit`. The postal code is read from a `postalCode` member
      that the form's addresses do not have (they carry `zip_code`), so it is undefined
      and the request carries no zip code at all. */
  function ToRequest(f: FormData): (q: CustomerRequest)
    ensures q.name == f.name && q.email == f.email && q.phone == f.phone
    ensures |q.addresses| == |f.addresses|
    ensures forall i :: 0 <= i < |q.addresses| ==>
      && q.addresses[i].city == f.addresses[i].cityId
      && q.addresses[i].street == f.addresses[i].street
      && q.addresses[i].zipCode.None?
  {
    CustomerRequest(f.name, f.email, f.phone,
      seq(|f.addresses|, i requires 0 <= i < |f.addresses| =>
        RequestAddress(f.addresses[i].cityId, f.addresses[i].street, None)))
  }

  /** `handleSubmit`: always sends the request; 201 toasts success and navigates to the
      list, 400 shows the first email error or the generic message, a failure (including a
      400 without data) shows the error title, any other status shows nothing, and
      `loading` ends. */
  function Submit(f: FormData, reply: Interceptor.Settled): (r: Submission)
    ensures r.request == Some(ToRequest(f)) && !r.loading
    ensures reply.Resolves? && reply.response.Some? && reply.response.value.status == Created ==>
      r.events == [Toast(SuccessToast, Some(JStr(CreatedTitle))), Navigate(CustomersPath)]
    ensures reply.Resolves? && reply.response.Some? && reply.response.value.status == BadRequest
            && !reply.response.value.data.JNull? ==>
      var email := Member(reply.response.value.data, "email");
      if email.Some? && Truthy(email.value)
      then r.events == [Toast(ErrorToast, FirstOf(email.value))]
      else r.events == [Toast(ErrorToast, Some(JStr(FillRequired)))]
    // a 400 whose data is null throws when its `email` is read, into the catch
    ensures reply.Resolves? && reply.response.Some? && reply.response.value.status == BadRequest
            && reply.response.value.data.JNull? ==>
      r.events == [Toast(ErrorToast, Some(JStr(CreateError)))]
    ensures reply.Resolves? && reply.response.Some?
            && reply.response.value.status != Created && reply.response.value.status != BadRequest ==>
      r.events == []
    ensures reply.Rejects? || reply.response.None? ==> r.events == [Toast(ErrorToast, Some(JStr(CreateError)))]
    ensures Navigate(CustomersPath) in r.events <==>
      reply.Resolves? && reply.response.Some? && reply.response.value.status == Created
  {
    Submission(Some(ToRequest(f)), HandleReply(reply, Created, SuccessToast, CreatedTitle, CreateError), false)
  }

  /** Two forms that differ only in their postal codes give the same create request, while
      the update request tells them apart: the create page drops what the user typed. */
  lemma {:induction false} PostalCodeIsLost(f: FormData, row: nat, zip: string)
    requires row < |f.addresses| && f.addresses[row].zipCode != Some(zip)
    ensures var g := f.(addresses := f.addresses[row := f.addresses[row].(zipCode := Some(zip))]);
      && ToRequest(g) == ToRequest(f)
      && EditPage.ToRequest(g) != EditPage.ToRequest(f)
  {
    var g := f.(addresses := f.addresses[row := f.addresses[row].(zipCode := Some(zip))]);
    assert EditPage.ToRequest(g).addresses[row] != EditPage.ToRequest(f).addresses[row];
    assert ToRequest(g).addresses == ToRequest(f).addresses;
  }
}
