# Movie booking front-end: seat selection, add-show form and navigation bar

A Dafny model of the client-side decision logic of a movie-ticket booking
web front-end. The rest of the application only sends requests to a remote
HTTP API and renders the replies. Every event handler is modelled as a pure
step function over immutable records:

- **SeatCatalog** (`seat_catalog.dfy`) covers `generateSeats`: the fixed
  10×10 layout with rows A–J and columns 1–10. Rows A and B cost 200 and the
  other rows cost 150.
- **Booking** (`booking.dfy`) covers the booking page:
  - the seat-click handler, over a selection sequence and a booked set that
    is given as an input;
  - the form-change handler, which enforces the six-ticket cap and clears the
    selection;
  - the local checks of the submit handler and the booking payload it builds;
  - the booked/selected/available colour of each seat.
- **ShowForm** (`show_form.dfy`) covers the admin add-show form:
  - the per-field checks of `validateForm`;
  - the field updates of `handleChange`, including the movie/theater name
    lookup and the clearing of that field's error;
  - the request built on submit, which is refused when validation fails;
  - the flattening of the server's per-field error lists.
- **Navbar** (`navbar.dfy`) covers which links and buttons are shown for a
  stored token and role, and what logging out clears.
- **Text** (`text.dfy`) holds `join` and `split` on a one-character
  separator, with the round-trip lemma. **Wrappers** (`wrappers.dfy`) holds
  `Option` and `Result`.

The model abstracts these parts of the JavaScript:
- `parseInt`, `parseFloat` and `isNaN` appear as already-parsed fields. A
  `NumberInput`/`CountInput` holds the raw text and `Option<int>`, with
  `None` standing for `NaN`. A `PriceInput` holds the raw text and
  `Option<real>`.
- JavaScript truthiness is kept. An empty string is falsy, and a comparison
  with `NaN` is false.
- The stored token is `Option<string>`. It counts only when it is present and
  non-empty.
- The clock (`new Date()`) is the parameter `now`, in milliseconds.

The selection stays disjoint from the booked set only while that set is
unchanged. Choosing another show (`movieapp/src/Pages/BookNow.jsx:89-96`)
keeps the selection, while the booked set is fetched again for the new show
(lines 51-63), so the two can overlap. `Booking.StaleSelectionAfterShowChange`
gives a concrete case, and `Booking.RunKeepsDisjoint` proves disjointness
while the booked set is fixed.

## Model

| member | source | states |
|---|---|---|
| SeatCatalog.GenerateSeats | movieapp/src/Pages/BookNow.jsx:8-24 | exactly 100 seats in row-major order: position k is row k/10, column k%10+1 |
| SeatCatalog.SeatShape | movieapp/src/Pages/BookNow.jsx:16-18 | a seat's row is its id's first character and the rest of the id is its column number; it costs 200 exactly in rows A and B and 150 otherwise |
| SeatCatalog.SeatIdsInjective | movieapp/src/Pages/BookNow.jsx:13-18 | two different (row, column) positions never get the same id |
| SeatCatalog.LayoutIds | movieapp/src/Pages/BookNow.jsx:13-21 | every two seats of the layout have distinct ids, and each seat's row equals the first character of its id |
| SeatCatalog.LayoutIdsCommaFree | movieapp/src/Pages/BookNow.jsx:16 | no seat id contains a comma |
| SeatCatalog.TierAt | movieapp/src/Pages/BookNow.jsx:17 | layout position k costs 200 exactly when k < 20, that is in rows A and B, and 150 otherwise |
| SeatCatalog.LayoutTiers | movieapp/src/Pages/BookNow.jsx:17 | the layout has exactly 20 seats at 200 and 80 at 150 |
| Booking.Initial | movieapp/src/Pages/BookNow.jsx:27-33 | the page opens with an empty show, an empty ticket count, no selection and no error |
| Booking.NoticeText | movieapp/src/Pages/BookNow.jsx:72-108 | plain data: the exact banner text of each error; the text is empty, so no banner is drawn (line 144), only when there is no error |
| Booking.Without | movieapp/src/Pages/BookNow.jsx:69 | the filtered selection holds exactly the old seats other than the clicked one, and it is shorter when that seat was there |
| Booking.WithoutAt | movieapp/src/Pages/BookNow.jsx:69 | on a duplicate-free selection, filtering removes just the one position holding the seat and keeps the others in order |
| Booking.WithoutNoDuplicates | movieapp/src/Pages/BookNow.jsx:69 | filtering keeps a selection duplicate-free |
| Booking.ClickSeat | movieapp/src/Pages/BookNow.jsx:65-77 | a booked seat leaves the state unchanged even when selected; a selected seat is dropped; another seat joins only while fewer than 6 are selected, else the seat-limit error is set; the form never changes |
| Booking.ClickSelectionShape | movieapp/src/Pages/BookNow.jsx:68-76 | deselecting removes the seat in place with the rest in order; selecting with room appends at the end; at 6 the selection is unchanged |
| Booking.ClickKeepsValid | movieapp/src/Pages/BookNow.jsx:65-77 | one click keeps the selection duplicate-free and at most 6 long |
| Booking.ClickTwiceRestores | movieapp/src/Pages/BookNow.jsx:65-77 | two clicks on a free, unselected seat with room restore the original state |
| Booking.Change | movieapp/src/Pages/BookNow.jsx:79-97 | a ticket count parsing above 6 is refused: form and selection unchanged, error set; any other edit clears the error and stores the field; a new ticket count empties the selection; a new show keeps it |
| Booking.StaleSelectionAfterShowChange | movieapp/src/Pages/BookNow.jsx:89-96 | a selection disjoint from one show's booked set survives a show change and can overlap the refreshed booked set |
| Booking.RunKeepsInvariant | movieapp/src/Pages/BookNow.jsx:65-97 | over any sequence of clicks and edits, a duplicate-free selection of at most 6 stays so, and no booked seat is ever added |
| Booking.RunKeepsDisjoint | movieapp/src/Pages/BookNow.jsx:65-77 | while the booked set is fixed, a selection disjoint from it stays disjoint |
| Booking.Submit | movieapp/src/Pages/BookNow.jsx:99-123 | refused with no booking exactly when token, show or ticket count is missing, the selection is empty, the selection length differs from the parsed count (each with its error), or the token cannot be decoded; otherwise the payload carries the show, the selection length as count, the ids joined by "," and the token's user id |
| Booking.SubmitStep | movieapp/src/Pages/BookNow.jsx:99-123 | a submit never changes the form or the selection; a failed check shows the error the submit chose; an undecodable token leaves the page unchanged; a booking is issued exactly when the submit succeeds, and it is the submit's payload |
| Booking.PayloadSeatsRoundTrip | movieapp/src/Pages/BookNow.jsx:121 | for seats from the layout, splitting the payload's seat list on commas gives back exactly the selection, in order |
| Text.Join | movieapp/src/Pages/BookNow.jsx:121 | joining nothing gives ""; two or more parts leave a separator; for separator-free parts the result has no separator exactly when there is at most one part |
| Text.SplitJoin | movieapp/src/Pages/BookNow.jsx:121 | splitting the join of a non-empty list of separator-free strings gives back the list |
| Booking.ViewOf | movieapp/src/Pages/BookNow.jsx:200-202 | a seat is shown booked exactly when it is in the booked set, even if selected; selected exactly when selected and not booked; available otherwise |
| Booking.Colour | movieapp/src/Pages/BookNow.jsx:202 | plain data: booked is red, selected green and available #ccc, each colour for one view only |
| Booking.ClickChangesView | movieapp/src/Pages/BookNow.jsx:199-207 | clicking a booked seat changes nothing; a selected seat becomes available; an available seat becomes selected when there is room, else stays available with the seat-limit error |
| ShowForm.Initial | movieapp/src/Pages/AddShow.jsx:34-44 | the form opens with 100 tickets and empty movie and theater ids and names |
| ShowForm.InitialValidation | movieapp/src/Pages/AddShow.jsx:34-44 | validating a fresh form flags movie, theater and price, and flags the show time only once the clock has passed the moment the form opened |
| ShowForm.Validate | movieapp/src/Pages/AddShow.jsx:101-128 | flags movieId iff empty; theaterId iff empty; price iff missing, non-numeric or not positive; showTime iff missing or earlier than now; ticketsRemaining iff missing or parsing to at most 0; reports valid iff no field is flagged; every flagged field has a message |
| ShowForm.NameOf | movieapp/src/Pages/AddShow.jsx:73-86 | the name of the first listing whose id equals the parsed id, or "" when none matches or the id does not parse |
| ShowForm.ClearError | movieapp/src/Pages/AddShow.jsx:91-93 | the edited field no longer shows an error; every other entry and the key set are unchanged |
| ShowForm.Change | movieapp/src/Pages/AddShow.jsx:71-94 | a movie or theater choice sets the id and looks up its name; other edits change only their field; the edited field's error is cleared and the other errors are kept |
| ShowForm.PickShowTime | movieapp/src/Pages/AddShow.jsx:251 | the date picker changes only the show time |
| ShowForm.EditThenValidate | movieapp/src/Pages/AddShow.jsx:71-124 | after an edit, the next validation flags the edited field exactly when its new value is invalid |
| ShowForm.Submit | movieapp/src/Pages/AddShow.jsx:130-158 | an invalid form issues no request and reports its non-empty error map; a valid one sends the form's fields with a show time not before now |
| ShowForm.FlattenServerErrors | movieapp/src/Pages/AddShow.jsx:163-168 | the same field keys as the server's map, each holding that field's messages joined with single spaces |
| ShowForm.FlattenedActive | movieapp/src/Pages/AddShow.jsx:163-168 | a flattened field shows an error unless the server sent it no messages or one empty message |
| Text.JoinEmpty | movieapp/src/Pages/AddShow.jsx:166 | a join is empty exactly when there is nothing to join or the one part is empty |
| Navbar.Visible | movieapp/src/Components/Navbar.jsx:15-44 | Home is always first and no entry is shown twice |
| Navbar.Target | movieapp/src/Components/Navbar.jsx:9-44 | plain data: each entry's route starts with "/", and exactly Login and the Logout button lead to /login |
| Navbar.VisibleItems | movieapp/src/Components/Navbar.jsx:19-44 | Home always; the five admin links iff signed in as Admin; My Tickets iff signed in as User; Login and Signup iff signed out; Logout iff signed in |
| Navbar.AdminAndUserExclusive | movieapp/src/Components/Navbar.jsx:21-33 | the admin links and My Tickets are never shown together |
| Navbar.LogOut | movieapp/src/Components/Navbar.jsx:9-13 | logging out leaves no token and no role |
| Navbar.LogOutHidesGatedItems | movieapp/src/Components/Navbar.jsx:9-44 | after logging out exactly Home, Login and Signup are shown |

## Left out

- HTTP calls, request interceptors and the backend's seat-conflict arbitration are not modelled. They are network plumbing, and the backend is outside this code.
- The asynchronous booked-seat fetch, its fallback to an empty set on error, and its stale-response race are not modelled. The booked set is an input to each step instead.
- Reading storage, decoding the token, payment redirects, file downloads and the delayed navigation after a successful booking or show creation are not modelled. They are foreign library calls and side effects. The result of decoding the token is an input: either it cannot be decoded, which aborts the submit, or it carries an optional `unique_name` claim used as the user id.
- String parsing by `parseInt`, `parseFloat` and `isNaN` is an input. `PriceInput.number` is one value for both `isNaN` and `parseFloat`, so strings where the two disagree (such as hexadecimal text) are not distinguished.
- `new Date()` is the `now` parameter. The show time's ISO rendering is not modelled: the request carries the time in milliseconds.
- `handleFileChange` is not modelled. It stores the chosen file, and the model only carries files through the request as optional references.
- The loading flags, success banners, generic failure messages and the message-only server-error branch of the add-show submit are not modelled. They only affect what is displayed.
- The CRUD and listing screens, the routing, the bootstrap, the seat legend, and all markup and styles are not modelled. They only post, fetch or render.
