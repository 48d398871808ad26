/** The add-show form of the admin screens (movieapp/src/Pages/AddShow.jsx):
    the field updates of `handleChange`, the per-field checks of
    `validateForm`, the request built on submit and the flattening of the
    server's per-field error lists. Parsing and the clock are inputs. */
module ShowForm {
  import opened Wrappers
  import Text

  /** The price field: its raw text and its numeric value when the text is
      numeric (`None` when `isNaN` holds of it). */
  datatype PriceInput = PriceInput(text: string, number: Option<real>)

  /** The tickets field: its raw text and what `parseInt` makes of it. */
  datatype CountInput = CountInput(text: string, value: Option<int>)

  /** A movie or theater as listed by the backend. */
  datatype Listing = Listing(id: int, name: string)

  /** An uploaded file, by name. */
  type FileRef = string

  /** The form state. `showTime` is in milliseconds; `None` when the date
      picker was cleared. */
  datatype ShowFields = ShowFields(
    movieId: string,
    movieName: string,
    price: PriceInput,
    showTime: Option<int>,
    theaterId: string,
    theaterName: string,
    ticketsRemaining: CountInput,
    moviePosterFile: Option<FileRef>,
    theaterImageFile: Option<FileRef>)

  /** Validation messages by field name; `None` is a message cleared to `null`. */
  type ErrorMap = map<string, Option<string>>

  /** A field shows an error when its entry holds a non-empty message. */
  predicate Active(errors: ErrorMap, field: string)
  {
    field in errors && errors[field].Some? && errors[field].value != ""
  }

  /** The form as the page opens at time `now`. */
  function Initial(now: int): (f: ShowFields)
    ensures f.ticketsRemaining.value == Some(100)
    ensures f.movieId == "" && f.theaterId == "" && f.movieName == "" && f.theaterName == ""
  {
    ShowFields("", "", PriceInput("", None), Some(now), "", "", CountInput("100", Some(100)), None, None)
  }

  predicate PriceInvalid(p: PriceInput)
  {
    p.text == "" || p.number.None? || p.number.value <= 0.0
  }

  predicate ShowTimeInvalid(t: Option<int>, now: int)
  {
    t.None? || t.value < now
  }

  /** `parseInt` giving `NaN` compares false with 0, so only an empty or a
      non-positive count is refused. */
  predicate TicketsInvalid(c: CountInput)
  {
    c.text == "" || (c.value.Some? && c.value.value <= 0)
  }

  /** Field names and messages of `validateForm`. */
  const MovieKey := "movieId"
  const TheaterKey := "theaterId"
  const PriceKey := "price"
  const ShowTimeKey := "showTime"
  const TicketsKey := "ticketsRemaining"

  /** `validateForm`: whether the form may be sent, and the fresh error map
      with one message per failing field. */
  function Validate(f: ShowFields, now: int): (res: (bool, ErrorMap))
    ensures res.0 <==> res.1 == map[]
    ensures MovieKey in res.1 <==> f.movieId == ""
    ensures TheaterKey in res.1 <==> f.theaterId == ""
    ensures PriceKey in res.1 <==> PriceInvalid(f.price)
    ensures ShowTimeKey in res.1 <==> ShowTimeInvalid(f.showTime, now)
    ensures TicketsKey in res.1 <==> TicketsInvalid(f.ticketsRemaining)
    ensures res.1.Keys <= {MovieKey, TheaterKey, PriceKey, ShowTimeKey, TicketsKey}
    ensures forall k :: k in res.1 ==> Active(res.1, k)
  {
    var e0: ErrorMap := map[];
    var e1 := if f.movieId == "" then e0[MovieKey := Some("Please select a movie")] else e0;
    var e2 := if f.theaterId == "" then e1[TheaterKey := Some("Please select a theater")] else e1;
    var e3 := if PriceInvalid(f.price) then e2[PriceKey := Some("Please enter a valid price")] else e2;
    var e4 := if ShowTimeInvalid(f.showTime, now) then e3[ShowTimeKey := Some("Please select a valid future date and time")] else e3;
    var e5 := if TicketsInvalid(f.ticketsRemaining) then e4[TicketsKey := Some("Please enter a valid number of tickets")] else e4;
    var ok := f.movieId != "" && f.theaterId != "" && !PriceInvalid(f.price)
      && !ShowTimeInvalid(f.showTime, now) && !TicketsInvalid(f.ticketsRemaining);
    assert !ok ==> MovieKey in e5 || TheaterKey in e5 || PriceKey in e5 || ShowTimeKey in e5 || TicketsKey in e5;
    (ok, e5)
  }

  /** A fresh form has no movie, theater or price yet, while the show time
      (the moment it opened) and the 100 tickets pass; the show time fails
      once the clock has moved past it. */
  lemma InitialValidation(openedAt: int, now: int)
    requires openedAt <= now
    ensures Validate(Initial(openedAt), now).1.Keys ==
      {MovieKey, TheaterKey, PriceKey} + (if openedAt < now then {ShowTimeKey} else {})
  {
  }

  /** `movies.find(m => m.id === parseInt(value))?.name`, or `""` when no
      entry has that id. */
  function NameOf(list: seq<Listing>, id: Option<int>): (name: string)
    ensures id.None? || (forall i :: 0 <= i < |list| ==> list[i].id != id.value) ==> name == ""
    ensures id.Some? && (exists i :: 0 <= i < |list| && list[i].id == id.value) ==>
      exists i :: 0 <= i < |list| && list[i].id == id.value && name == list[i].name
        && forall j :: 0 <= j < i ==> list[j].id != id.value
  {
    if id.None? || |list| == 0 then ""
    else if list[0].id == id.value then list[0].name
    else
      var rest := NameOf(list[1..], id);
      assert forall i :: 1 <= i < |list| ==> list[i] == list[1..][i - 1];
      rest
  }

  /** An edit routed through `handleChange`, with the parse of its value. */
  datatype FieldEdit =
    | SelectMovie(value: string, movieId: Option<int>)
    | SelectTheater(value: string, theaterId: Option<int>)
    | EditPrice(price: PriceInput)
    | EditTickets(count: CountInput)

  function FieldName(e: FieldEdit): string
  {
    match e
    case SelectMovie(_, _) => MovieKey
    case SelectTheater(_, _) => TheaterKey
    case EditPrice(_) => PriceKey
    case EditTickets(_) => TicketsKey
  }

  /** Stores an edit in the form; a movie or theater choice also fills in its
      name from the listing. */
  function ApplyEdit(f: ShowFields, e: FieldEdit, movies: seq<Listing>, theaters: seq<Listing>): ShowFields
  {
    match e
    case SelectMovie(v, id) => f.(movieId := v, movieName := NameOf(movies, id))
    case SelectTheater(v, id) => f.(theaterId := v, theaterName := NameOf(theaters, id))
    case EditPrice(p) => f.(price := p)
    case EditTickets(c) => f.(ticketsRemaining := c)
  }

  /** The error-map half of `handleChange`: a field's shown error is cleared
      to `null` when it is edited. */
  function ClearError(errors: ErrorMap, field: string): (r: ErrorMap)
    ensures !Active(r, field)
    ensures forall k :: k != field ==> (k in r <==> k in errors) && (k in r ==> r[k] == errors[k])
    ensures r.Keys == errors.Keys
  {
    if Active(errors, field) then errors[field := None] else errors
  }

  /** `handleChange`: the edited field (and, for a movie or theater, its name)
      changes and nothing else in the form; the edited field's error is
      cleared and every other entry is kept. */
  function Change(f: ShowFields, errors: ErrorMap, movies: seq<Listing>, theaters: seq<Listing>, e: FieldEdit): (r: (ShowFields, ErrorMap))
    ensures e.SelectMovie? ==> r.0 == f.(movieId := e.value, movieName := NameOf(movies, e.movieId))
    ensures e.SelectTheater? ==> r.0 == f.(theaterId := e.value, theaterName := NameOf(theaters, e.theaterId))
    ensures e.EditPrice? ==> r.0 == f.(price := e.price)
    ensures e.EditTickets? ==> r.0 == f.(ticketsRemaining := e.count)
    ensures !Active(r.1, FieldName(e))
    ensures forall k :: k != FieldName(e) ==> (k in r.1 <==> k in errors) && (k in r.1 ==> r.1[k] == errors[k])
  {
    (ApplyEdit(f, e, movies, theaters), ClearError(errors, FieldName(e)))
  }

  /** The date picker's own handler stores the new time and, unlike
      `handleChange`, leaves the error map alone. */
  function PickShowTime(f: ShowFields, t: Option<int>): (r: ShowFields)
    ensures r.showTime == t
    ensures r.(showTime := f.showTime) == f
  {
    f.(showTime := t)
  }

  /** After an edit and a fresh validation, the edited field's error reflects
      only its new value: a movie choice with a non-empty value passes. */
  lemma EditThenValidate(f: ShowFields, errors: ErrorMap, movies: seq<Listing>, theaters: seq<Listing>, e: FieldEdit, now: int)
    ensures var g := Change(f, errors, movies, theaters, e).0;
            var v := Validate(g, now).1;
            && (e.SelectMovie? ==> (MovieKey in v <==> e.value == ""))
            && (e.SelectTheater? ==> (TheaterKey in v <==> e.value == ""))
            && (e.EditPrice? ==> (PriceKey in v <==> PriceInvalid(e.price)))
            && (e.EditTickets? ==> (TicketsKey in v <==> TicketsInvalid(e.count)))
  {
  }

  /** The multipart request posted for a new show. */
  datatype ShowRequest = ShowRequest(
    movieId: string,
    movieName: string,
    price: string,
    showTime: int,
    theaterId: string,
    theaterName: string,
    ticketsRemaining: string,
    moviePosterFile: Option<FileRef>,
    theaterImageFile: Option<FileRef>)

  /** `handleSubmit` up to the network call: an invalid form is refused with
      its error map and no request; a valid one yields the request. */
  function Submit(f: ShowFields, now: int): (r: Result<ShowRequest, ErrorMap>)
    ensures r.Failure? <==> !Validate(f, now).0
    ensures r.Failure? ==> r.error == Validate(f, now).1 && |r.error| > 0
    ensures r.Success? ==>
      && r.value.movieId == f.movieId != ""
      && r.value.theaterId == f.theaterId != ""
      && r.value.movieName == f.movieName && r.value.theaterName == f.theaterName
      && r.value.price == f.price.text && r.value.ticketsRemaining == f.ticketsRemaining.text
      && Some(r.value.showTime) == f.showTime && r.value.showTime >= now
      && r.value.moviePosterFile == f.moviePosterFile && r.value.theaterImageFile == f.theaterImageFile
  {
    var (ok, errors) := Validate(f, now);
    if !ok then Failure(errors)
    else Success(ShowRequest(f.movieId, f.movieName, f.price.text, f.showTime.value,
                             f.theaterId, f.theaterName, f.ticketsRemaining.text,
                             f.moviePosterFile, f.theaterImageFile))
  }

  /** The server's field errors after a refused request: each field's list of
      messages joined with single spaces, the same fields throughout. */
  function FlattenServerErrors(server: map<string, seq<string>>): (r: ErrorMap)
    ensures r.Keys == server.Keys
    ensures forall k :: k in r ==> r[k] == Some(Text.Join(server[k], ' '))
  {
    map k | k in server :: Some(Text.Join(server[k], ' '))
  }

  /** A flattened field shows an error unless the server sent it no messages
      or a single empty one. */
  lemma FlattenedActive(server: map<string, seq<string>>, k: string)
    ensures Active(FlattenServerErrors(server), k) <==>
      k in server && |server[k]| > 0 && !(|server[k]| == 1 && server[k][0] == "")
  {
  }
}
