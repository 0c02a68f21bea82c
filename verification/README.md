# Customers CRUD app: a Dafny model

This project models the logic of a small customer-management app in Dafny and proves
properties of that model. The app has a React frontend and a Django REST backend.

The frontend parts modelled are:

- the axios instance: it attaches the bearer token, and on a 401 it posts the refresh token and replays the request with the new access token;
- the authentication context: `login`, `logout`, the mount-time restore, and `useAuth`;
- the customer form's address-list editor, with its country → state → city selects;
- the create and edit pages: how they map between the API shape, the form and the request, and how they react to each status;
- the customer table's selection;
- the home page's name/status filter.

The backend parts modelled are:

- the register, login and logout views, over a store of accounts and tokens;
- the address and customer serializers;
- the models, with their uniqueness, column-width, cascade and protect rules and `__str__` formats;
- the `seed_data` command.

I/O does not appear as effects:

- localStorage is a map from key to text;
- the database is a record of sequences;
- HTTP replies, the refresh call's outcome, `JSON.stringify`/`JSON.parse` and new token keys are inputs;
- toasts and navigations are an event log.

The modules follow the source files:

| module | file |
|---|---|
| `Base` | shared Option/Result/Json values and sequence helpers |
| `Storage` | the localStorage map |
| `Interceptor` | the axios interceptors |
| `AuthContext` | the authentication context |
| `CustomerForm` | the customer form |
| `PageFlow` | status handling shared by the two pages |
| `EditPage`, `CreatePage` | the edit and create pages |
| `CustomerTable` | the table |
| `Home` | the home page filter |
| `AuthViews` | the auth views |
| `Models` | the models |
| `Serializers` | the serializers |
| `Seed` | the seed command |

## Behaviour worth knowing

These follow from the code as written, and the model keeps them.

- **Each request refreshes on its own.** The interceptor keeps no shared refresh state, so concurrent 401s each post their own refresh.
- **A refused refresh token loops.** The refresh post goes through the same `api` instance. When the refresh endpoint answers 401, that post is itself a fresh 401, the refresh token is still stored, and the handler posts again, so the original call never settles (`Interceptor.RefusedRefreshNeverSettles`).
- **Refresh error replies.** A refresh refused with a status other than 401 resolves instead of rejecting. The interceptor then stores the text "undefined" as the access token and replays with `Bearer undefined`.
- **Malformed stored user.** If the stored user text is not valid JSON, `JSON.parse` throws inside the mount effect before `setLoading(false)`, so `loading` stays true.
- **Create page drops the postal code.** The create page reads `address.postalCode`, which the form's addresses do not have, so every create request carries no zip code.
- **Username normalisation.** `register` checks for a duplicate on the username as sent, but `create_user` stores its normalised form. A name that differs from a taken one only before normalisation passes the check and then fails on the unique column, which surfaces as a server error.

## Model

| member | source | states |
|---|---|---|
| Storage.ClearTokens | frontend/src/interceptor/axios.ts:30-31 | both token keys are gone, and every other key is kept with its value |
| Interceptor.AttachBearer | frontend/src/interceptor/axios.ts:7-14 | `Authorization: Bearer <token>` is set exactly when a non-empty access token is stored; otherwise the config is returned unchanged; other headers, url and `_retry` are untouched |
| Interceptor.OnError | frontend/src/interceptor/axios.ts:20-37 | the error handler up to its refresh call. A reply that is not a 401, or a 401 on an already-marked request, resolves as it is with the store untouched; a fresh 401 with no refresh token drops both tokens and resolves the 401 reply; a refresh is started exactly when the 401 is fresh and a refresh token is stored, and it posts that token for the request now marked `_retry` |
| Interceptor.Resume | frontend/src/interceptor/axios.ts:37-49 | after the refresh call: a rejection drops both tokens and rejects with its reason; a reply without readable data drops both tokens and rejects; a replay happens exactly when the data is readable, with its `access` stored and sent as the bearer on the otherwise unchanged request; it never starts another refresh |
| Interceptor.Dispatch | frontend/src/interceptor/axios.ts:18-53 | one or two attempts of the request itself, the first carrying the stored bearer and the second only as the marked replay of an unmarked request, after at least one refresh; the url never changes; the refresh token is never written, only removed; keys other than the tokens are preserved; a `_retry` request never refreshes and leaves the store alone; the call stays unsettled only when refresh posts, themselves passing through the handler, nest `fuel + 1` deep |
| Interceptor.SuccessPassesThrough | frontend/src/interceptor/axios.ts:19 | a fulfilled first attempt is returned unchanged, with no refresh and no store change |
| Interceptor.RefreshThenReplay | frontend/src/interceptor/axios.ts:37-42 | after a successful refresh, the request is replayed once with `Bearer <new access>`, the store holds the new access token and the old refresh token, one refresh happened, and a second 401 on the replay is returned without another refresh |
| Interceptor.ErrorBodyStoresUndefined | frontend/src/interceptor/axios.ts:37-42 | a refresh refused with an error other than 401 resolves through the handler; its body has no `access`, so "undefined" is stored and the replay carries `Bearer undefined` |
| Interceptor.RefusedRefreshNeverSettles | frontend/src/interceptor/axios.ts:23-37 | when the refresh endpoint answers 401, the refresh post re-enters the handler, finds the refresh token still stored and posts again: for every nesting bound the call is unsettled after `fuel + 1` refreshes and the store is untouched |
| Interceptor.ExpiredAccessScenario | frontend/src/interceptor/axios.ts:23-42 | with access A1 expired and refresh R1 exchanged for A2, the replayed list request succeeds and the store ends as {A2, R1} after exactly one refresh |
| AuthContext.Restore | frontend/src/context/AuthContext.tsx:27-36 | the user is restored exactly when an access token is stored and the stored user parses to a truthy value; `loading` ends on every path except a parse failure |
| AuthContext.MountThenRestore | frontend/src/context/AuthContext.tsx:23-36 | a mount followed by the restore step leaves the store as it was, sets the user exactly when an access token is stored and the stored user parses to a truthy value, and stays loading exactly when that parse fails |
| AuthContext.Login | frontend/src/context/AuthContext.tsx:38-44 | the access, refresh and user keys hold the token, the refresh token and the serialised user; other keys are kept; `user` is set; "/" is navigated to |
| AuthContext.Logout | frontend/src/context/AuthContext.tsx:46-52 | the three keys are absent, other keys are kept, no key is added, `user` is null, "/auth/sign-in" is navigated to |
| AuthContext.UseAuthSeesSession | frontend/src/context/AuthContext.tsx:59-65 | inside a provider `useAuth` reports the user `login` set and, after `logout`, no user; outside a provider it gives the provider error |
| AuthContext.LogoutIdempotent | frontend/src/context/AuthContext.tsx:46-52 | logging out twice leaves the same store and user as logging out once |
| AuthContext.LoginThenRemount | frontend/src/context/AuthContext.tsx:27-42 | a session written by `login` is restored by the next mount, given a non-empty access token and a codec that reads its own output back |
| AuthContext.LogoutThenRemount | frontend/src/context/AuthContext.tsx:27-50 | after logout the next mount restores nobody and finishes loading |
| AuthContext.LoginThenRequestCarriesBearer | frontend/src/context/AuthContext.tsx:38-40 | after login every request carries the new access token as its bearer |
| AuthContext.RefreshFailureThenRemount | frontend/src/interceptor/axios.ts:36-49 | a refresh call that fails without a reply makes the request reject after one refresh, reading its missing data being the error; the stored user key is kept, yet the next mount restores nobody |
| CustomerForm.MaxId | frontend/src/components/customer/CustomerForm.tsx:157 | `Math.max` over the address ids: an upper bound that is one of the ids; -Infinity for no addresses; finite when some id is |
| CustomerForm.InitialFormData | frontend/src/components/customer/CustomerForm.tsx:55-69 | empty name, email and phone; exactly one address, with id 1, no country, state or city, and empty street and zip; the list invariants hold |
| CustomerForm.UpdateFormField | frontend/src/components/customer/CustomerForm.tsx:146-151 | the named field takes the value and the others keep theirs |
| CustomerForm.AddAddress | frontend/src/components/customer/CustomerForm.tsx:153-165 | exactly one blank address is appended and the existing ones are unchanged; its id is `Math.max` of the existing ids plus one (-Infinity for an empty list), so with a finite id present it exceeds every existing id by at least one |
| CustomerForm.RemoveAddress | frontend/src/components/customer/CustomerForm.tsx:167-177 | a single address is refused with the error toast and the form is unchanged; otherwise exactly the addresses with that id are removed |
| CustomerForm.UpdateAddress | frontend/src/components/customer/CustomerForm.tsx:179-186 | the matching addresses are patched; length, order and every other entry are unchanged |
| CustomerForm.CascadeResets | frontend/src/components/customer/CustomerForm.tsx:276-282 | choosing a country clears state and city; choosing a state (when enabled) clears the city; choosing a city (when enabled) sets only the city; other rows are unchanged |
| CustomerForm.UpdateKeepsValid | frontend/src/components/customer/CustomerForm.tsx:179-186 | an update that does not touch ids keeps the list non-empty, with finite and distinct ids |
| CustomerForm.AddKeepsValid | frontend/src/components/customer/CustomerForm.tsx:153-165 | adding keeps the list non-empty, with finite and distinct ids |
| CustomerForm.RemoveKeepsValid | frontend/src/components/customer/CustomerForm.tsx:167-177 | removing keeps the list non-empty, with finite and distinct ids |
| CustomerForm.RemoveKeepsOrder | frontend/src/components/customer/CustomerForm.tsx:173-176 | the surviving addresses keep their original order |
| CustomerForm.ReplaceKeepsConsistent | frontend/src/components/customer/CustomerForm.tsx:182-183 | replacing one row by a consistent address keeps the whole list consistent |
| CustomerForm.ChoicesKeepHierarchy | frontend/src/components/customer/CustomerForm.tsx:313-321 | with the state and city selects disabled until their parent is truthy, "city set ⇒ state set ⇒ country set" survives every select |
| CustomerForm.OtherEditsKeepHierarchy | frontend/src/components/customer/CustomerForm.tsx:391 | typing a street or postal code, adding and removing keep the hierarchy |
| CustomerForm.EmptyListAddsDuplicateIds | frontend/src/components/customer/CustomerForm.tsx:157 | from an empty list, two additions both get the id -Infinity, so the distinct-id invariant needs a non-empty list |
| PageFlow.HandleReply | frontend/src/pages/customer/edit.tsx:79-92 | the success status toasts and navigates to the list; a 400 shows the first email error or "Fill all the required fields", and a 400 with null data throws into the failure toast; other statuses do nothing; a rejection or an unreadable reply shows the failure title; navigation happens exactly on success |
| PageFlow.SignedOutSubmitShowsNothing | frontend/src/pages/customer/edit.tsx:78-92 | a submit whose 401 finds no refresh token drops both tokens without a refresh, and the page shows no toast and does not navigate |
| EditPage.ToForm | frontend/src/pages/customer/edit.tsx:39-51 | name and email are copied and a missing phone becomes ""; the address at index i gets id i+1; country, state and city ids come from the nested city; street and zip are copied |
| EditPage.FetchCustomer | frontend/src/pages/customer/edit.tsx:33-58 | a fetched customer becomes the initial data; a failure toasts and navigates to the list; no route id does nothing; `fetchLoading` ends on every path |
| EditPage.ToRequest | frontend/src/pages/customer/edit.tsx:66-75 | name, email and phone are copied; each address becomes {city, street, zip_code}, preserving length and order |
| EditPage.Submit | frontend/src/pages/customer/edit.tsx:60-94 | without a route id nothing is sent and `loading` stays true; otherwise the request is sent, replies are handled with status 200, and `loading` ends |
| EditPage.RoundTrip | frontend/src/pages/customer/edit.tsx:39-75 | the request built from a fetched customer has, per address, the original city id, street and zip code, in order |
| EditPage.FetchedFormIsValid | frontend/src/pages/customer/edit.tsx:43-49 | a fetched customer with addresses yields distinct finite ids and a full country → state → city chain for every address |
| CreatePage.ToRequest | frontend/src/pages/customer/create.tsx:18-27 | name, email and phone are copied; addresses map one-to-one and in order, with city and street copied and no zip code |
| CreatePage.Submit | frontend/src/pages/customer/create.tsx:14-46 | the request is always sent; 201 toasts success and navigates; a 400 shows the email error or the generic message; a 400 with null data, a rejection or an unreadable reply shows "Error creating customer."; any other status shows nothing; navigation happens exactly on 201; `loading` ends |
| CreatePage.PostalCodeIsLost | frontend/src/pages/customer/create.tsx:25 | forms that differ only in a postal code give the same create request but different update requests |
| CustomerTable.CheckRow | frontend/src/components/customer/Table.tsx:35-38 | checking appends the id; unchecking removes every occurrence of it and keeps the rest in order |
| CustomerTable.SelectAllMarksEveryRow | frontend/src/components/customer/Table.tsx:60-63 | after select-all every row is checked and after unselect-all none is; the header checkbox is never partial; the action bar is open exactly after select-all of a non-empty list |
| CustomerTable.ActionBarMeansRowSelected | frontend/src/components/customer/Table.tsx:89 | for a selection limited to listed ids, the action bar is open exactly when some listed customer is shown as selected |
| CustomerTable.DetailMeansOneSelectedId | frontend/src/components/customer/Table.tsx:93 | for a selection limited to listed ids, "Go to Detail" is shown exactly when all selected rows share one id |
| CustomerTable.DateCell | frontend/src/components/customer/Table.tsx:46 | the date cell is a prefix of `created_at`, at most 10 characters long, and absent when `created_at` is |
| CustomerTable.DistinctCardinality | frontend/src/components/customer/Table.tsx:23 | a selection without repeats has as many members as entries |
| CustomerTable.IndeterminateMeansPartial | frontend/src/components/customer/Table.tsx:25-26 | with distinct ids and a well-formed selection, the header checkbox is partial exactly when something, but not every customer, is selected |
| CustomerTable.TogglingKeepsWellFormed | frontend/src/components/customer/Table.tsx:29-38 | clicking a row and select-all keep the selection free of repeats and limited to listed ids |
| CustomerTable.CheckThenUncheck | frontend/src/components/customer/Table.tsx:37 | checking and then unchecking a row restores a selection that did not hold it |
| CustomerTable.FilterAppendDropped | frontend/src/components/customer/Table.tsx:37 | unchecking an id just appended drops that copy too |
| Home.KeepsOrder | frontend/src/pages/Home.tsx:22 | the filtered list is a subsequence of the customers, in their original order |
| Home.LowerNormalises | frontend/src/pages/Home.tsx:24 | lower-casing leaves no letter A–Z, changes no other character, and is idempotent |
| Home.KeptExactlyWhenMatching | frontend/src/pages/Home.tsx:23-26 | a customer is kept exactly when its lower-cased name contains the lower-cased filter text and the status is empty or equal |
| Home.EmptyFiltersKeepAll | frontend/src/pages/Home.tsx:23-25 | empty filter text and empty status keep every customer |
| Home.FilterTwice | frontend/src/pages/Home.tsx:22-27 | filtering the filtered list again changes nothing |
| Home.EmailNotConsulted | frontend/src/pages/Home.tsx:24 | changing e-mails changes neither which rows are kept nor their order |
| AuthViews.GetOrCreateToken | backend/customers/views/auth.py:33 | the account's existing token, with the store unchanged; or a new token with the fresh key; other accounts' tokens are untouched |
| AuthViews.Register | backend/customers/views/auth.py:16-35 | a missing or empty username or password gives 400 "Username and password are required", checked before the duplicate test; an existing username gives 400 "Username already taken"; a name that collides only after normalisation gives a server error; all three leave the store unchanged; 201 exactly when both fields are present and neither the name nor its normal form is taken, adding one account under the normal form with a token; other accounts' tokens are untouched |
| AuthViews.Authenticate | backend/customers/views/auth.py:47 | an account is found exactly when one holds these credentials |
| AuthViews.Login | backend/customers/views/auth.py:43-56 | failed authentication gives 401 "Invalid credentials" and no change; success returns 200 with the account's token: its existing token with the store unchanged, or else the fresh key; other accounts' tokens are untouched |
| AuthViews.Logout | backend/customers/views/auth.py:64-68 | a known key is deleted with 200 "Logged out successfully", and every other token is kept; an unknown key gives 401; no credentials gives a server error; the failing cases leave the store unchanged |
| AuthViews.RegisterAll | backend/customers/views/auth.py:16-35 | a run of registrations only appends accounts, at most one per call |
| AuthViews.RegisterKeepsValid | backend/customers/views/auth.py:26-33 | given an unused key, registering keeps ids and usernames unique and token keys distinct |
| AuthViews.RegistrationsKeepUsernamesUnique | backend/customers/views/auth.py:26-32 | usernames stay unique across any sequence of register calls with distinct unused keys |
| AuthViews.LoginIsStable | backend/customers/views/auth.py:54-56 | logging in again returns the same token and changes nothing |
| AuthViews.LogoutRevokesLogin | backend/customers/views/auth.py:54-68 | logout revokes the login token: presenting it again gives 401, and the next login issues a new key |
| Models.Collect | backend/customers/models.py:27-51 | a deletion is refused exactly when an address references a doomed city; otherwise exactly the doomed rows go and nothing else changes |
| Models.DeleteCustomer | backend/customers/models.py:47-49 | the customer and exactly its addresses are removed; the place tables are unchanged |
| Models.DeleteCity | backend/customers/models.py:51 | refused with the protection error exactly when an address points at the city; otherwise exactly that city goes and every other table is unchanged |
| Models.DeleteState | backend/customers/models.py:37 | refused exactly when an address lies in one of its cities; otherwise exactly that state goes, and with unique city ids exactly its cities go; countries, customers and addresses are unchanged |
| Models.DeleteCountry | backend/customers/models.py:27-29 | refused exactly when an address lies in a city of one of its states; otherwise exactly that country goes, with unique state ids exactly its states go, and with unique city ids exactly the cities of those states go while every other city stays; customers and addresses are unchanged |
| Models.CitiesOfStates | backend/customers/models.py:37 | with unique city ids, a city is collected with a set of states exactly when it belongs to one of them |
| Models.StatesOfCountry | backend/customers/models.py:27-29 | with unique state ids, a state is collected for a country's deletion exactly when it belongs to that country |
| Models.StateLabel | backend/customers/models.py:31-32 | defined exactly when the state's country exists, and then "<name>, <country name>" |
| Models.CityLabel | backend/customers/models.py:42-43 | when defined, "<name>, <state name>, <country name>" along the foreign keys; always defined for a city of a linked store |
| Models.AddressLabel | backend/customers/models.py:58-59 | when defined, "<street>, <city>, <state>, <country>" along the foreign keys; always defined for an address of a linked store |
| Models.InsertCustomer | backend/customers/models.py:4-8 | one customer row is appended under the next customer id, and only the customer sequence advances |
| Models.InsertAddress | backend/customers/models.py:46-53 | one address row is appended under the next address id, and only the address sequence advances |
| Models.EmptyDbValid | backend/customers/models.py:4-59 | the empty store satisfies every key, link, width and freshness rule |
| Models.LabelsNest | backend/customers/models.py:31-59 | in a linked store the labels nest: a city's label is its name before its state's label, and an address's label is its street before its city's label |
| Models.ProtectBlocksDeletion | backend/customers/models.py:51 | a city referenced by an address cannot be deleted, and neither can its state or its country |
| Models.DeleteCountryCascades | backend/customers/models.py:27-29 | deleting a country removes it and all its states, and every surviving city keeps its state |
| Models.DeleteStateCascades | backend/customers/models.py:37 | deleting a state removes it and all its cities |
| Models.CollectKeepsValid | backend/customers/models.py:27-51 | a cascade deletion closed under the foreign keys keeps the store valid |
| Models.DeletionsKeepValid | backend/customers/models.py:27-51 | every successful deletion keeps the store valid |
| Models.CustomerDeletionKeepsValid | backend/customers/models.py:47-49 | deleting a customer keeps the store valid |
| Serializers.ToRepresentation | backend/customers/serializers.py:40-49 | on GET, `city` holds the former `city_detail`, which must be present; otherwise `city_detail` is dropped and every other key is kept; `city_detail` never appears in the output |
| Serializers.FieldsOfLinked | backend/customers/serializers.py:35-38 | in a linked store every address renders its street, its zip code and the nested city |
| Serializers.RepresentationKeys | backend/customers/serializers.py:35-49 | a read shows exactly street, zip_code and city; any other request shows exactly street and zip_code |
| Serializers.ReadNestsCity | backend/customers/serializers.py:5-24 | on a read, `city.state.country` leads to the ids of the address's city, its state and its country |
| Serializers.AddAll | backend/customers/serializers.py:62-63 | one address per entry, in order, linked to the customer, with the other tables unchanged |
| Serializers.Create | backend/customers/serializers.py:59-64 | the customer comes from the validated data minus its addresses, under the next customer id, which is returned; one address per entry, in order, each linked to the new customer and numbered from the next address id; only those two sequences advance |
| Serializers.CreatedRow | backend/customers/serializers.py:62-63 | after create, each address is an old one or the entry at its offset |
| Serializers.CreateKeepsKeys | backend/customers/serializers.py:59-64 | validated creation keeps ids and e-mails unique |
| Serializers.CreateKeepsRows | backend/customers/serializers.py:59-64 | validated creation keeps links, widths and id freshness |
| Serializers.CreateKeepsValid | backend/customers/serializers.py:59-64 | creating validated data keeps the store valid |
| Seed.Count | backend/customers/management/commands/seed_data.py:33 | the number of rows a lookup matches: zero exactly when none does, and a lookup finds a row whenever it is non-zero |
| Seed.GetOrCreateCountry | backend/customers/management/commands/seed_data.py:33-35 | a single match is returned unchanged; two or more raise; with no match, a new row is added unless its name or code is already taken; afterwards exactly one row matches |
| Seed.GetOrCreateState | backend/customers/management/commands/seed_data.py:38-40 | a state is identified by (name, country); it is found or appended, and afterwards exactly one row matches |
| Seed.GetOrCreateCity | backend/customers/management/commands/seed_data.py:43 | a city is identified by (name, state); it is found or appended, and afterwards exactly one row matches |
| Seed.SeedCities | backend/customers/management/commands/seed_data.py:42-43 | seeding only appends rows, on success and when a lookup raises part-way, and the rows written before the error are kept |
| Seed.SeedStates | backend/customers/management/commands/seed_data.py:37-43 | seeding only appends rows, on success and when a lookup raises part-way, and the rows written before the error are kept |
| Seed.SeedEntries | backend/customers/management/commands/seed_data.py:31-43 | seeding only appends rows on every path: existing rows are never removed or modified, and rows written before an error are kept |
| Seed.DataShape | backend/customers/management/commands/seed_data.py:4-22 | the list defines 2 countries, 4 states and 8 cities, and its two countries differ in name and code |
| Seed.SeedEntriesPresent | backend/customers/management/commands/seed_data.py:31-43 | after a successful run, every listed country, state and city exists exactly once under its listed parent |
| Seed.PresentEntriesUnchanged | backend/customers/management/commands/seed_data.py:31-43 | when everything listed is present once, seeding changes nothing |
| Seed.CitiesRerun | backend/customers/management/commands/seed_data.py:42-43 | seeding a state's cities again, on whatever the first run left, gives the same store and the same error |
| Seed.StatesRerun | backend/customers/management/commands/seed_data.py:37-43 | seeding a country's states again, on whatever the first run left, gives the same store and the same error |
| Seed.EntriesRerun | backend/customers/management/commands/seed_data.py:31-43 | seeding the whole list again, on whatever the first run left, gives the same store and the same error |
| Seed.HandleSeeds | backend/customers/management/commands/seed_data.py:28-45 | `handle` keeps every earlier row on every path, and when it raises no error the whole list is present |
| Seed.SeededIsFixed | backend/customers/management/commands/seed_data.py:28-45 | on a seeded store, `handle` changes nothing |
| Seed.HandleIdempotent | backend/customers/management/commands/seed_data.py:28-45 | running `handle` on what a first run left, whether it succeeded or raised, gives the same store and error as the first run |

## Left out

- The JSX, layout, toasts' appearance and the data-fetching helpers of the form (the country, state and city option lists). They are rendering or I/O.
- The request interceptor's error handler (`(error) => error.response`). Request configuration errors are not modelled.
- Concurrency between in-flight requests. Each call through `api` is modelled on its own, as the code has no shared refresh state.
- Interceptor.Dispatch: refresh posts nested more than `fuel` deep are reported as `Unsettled` rather than followed, because the code itself recurses without bound when the refresh endpoint keeps answering 401.
- Interceptor.Dispatch: the server is a function of the request, so it answers the same request the same way every time; replies that change over time are not modelled.
- AuthContext token key constants: the constants module is not part of this model. The keys are taken to be "access_token", "refresh_token" and "user", the first two as written literally in the interceptor.
- AuthContext.Restore: `JSON.parse` and `JSON.stringify` are an abstract codec. Only "null", the empty text and a truthy or failing parse are distinguished.
- Home.Lower: maps only A–Z. Unicode case mapping is not modelled.
- CustomerForm selects: `Number(value[0])` of a deselected select (NaN) is not modelled. A chosen id is an integer.
- Address ids are JavaScript numbers. The model uses unbounded integers plus -Infinity, so precision loss above 2^53 is not modelled.
- AuthViews.Authenticate: password hashing, inactive users and the authentication backends are reduced to an exact match on the stored credentials.
- AuthViews.Register: request fields are text or missing. Non-text JSON values are not modelled.
- AuthViews.Register: the username normalisation applied by `create_user` is a parameter; the NFKC algorithm itself is not modelled.
- AuthViews.Logout: the no-credentials case assumes the framework's default permission (allow any). Malformed `Authorization` headers are not modelled.
- Token keys are supplied by the caller. The random key generator is not modelled.
- `Customer.__str__` and `Country.__str__` (backend/customers/models.py:10-11, 21-22) return the name field as it is and are not modelled separately.
- The table's pagination component and its page count are rendering and are not modelled.
- Timestamps (`created_at`) on customers and addresses are not stored.
- Backend field validation (e-mail format, required fields, whether a city exists) is taken as the precondition `Serializers.Validated`, not modelled step by step.
- The views in `views/customer.py`, `views.py` and `urls.py` are framework wiring and are not modelled.
- Seed.Handle: the progress messages written to stdout are left out.
