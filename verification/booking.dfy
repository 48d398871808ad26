/** The seat-selection and booking-intent flow of the booking page
    (movieapp/src/Pages/BookNow.jsx): seat clicks, form edits, the local
    checks before a booking is posted, and the colour a seat is drawn in.
    Each event handler is a pure step on an immutable page state; the set of
    seats already booked for the chosen show is an input. */
module Booking {
  import opened Wrappers
  import Text
  import SeatCatalog

  type SeatId = string

  /** Most seats one booking may select, and most tickets it may ask for. */
  const MaxSeats: nat := 6

  /** A number field: its raw text and what `parseInt` makes of it
      (`None` for `NaN`). */
  datatype NumberInput = NumberInput(text: string, value: Option<int>)

  /** The booking form: the chosen show and the requested ticket count. */
  datatype BookingForm = BookingForm(showId: string, noOfTickets: NumberInput)

  /** The page's error banner. */
  datatype Notice = NoNotice | SeatLimit | TicketLimit | IncompleteForm | CountMismatch

  /** Text shown for each notice; the banner is drawn only for non-empty text. */
  function NoticeText(n: Notice): (t: string)
    ensures t == "" <==> n == NoNotice
  {
    match n
    case NoNotice => ""
    case SeatLimit => "You can select a maximum of 6 seats."
    case TicketLimit => "Maximum 6 tickets allowed."
    case IncompleteForm => "Please fill all fields and select seats."
    case CountMismatch => "Number of selected seats must match ticket count."
  }

  /** The page state the handlers change: form, selected seat ids in click
      order, and the error banner. */
  datatype BookingState = BookingState(form: BookingForm, selected: seq<SeatId>, notice: Notice)

  /** The state the page opens with: empty form, nothing selected. */
  function Initial(): (s: BookingState)
    ensures s.selected == [] && s.notice == NoNotice
    ensures s.form.showId == "" && s.form.noOfTickets.text == ""
  {
    BookingState(BookingForm("", NumberInput("", None)), [], NoNotice)
  }

  predicate NoDuplicates(s: seq<SeatId>)
  {
    forall i, j :: 0 <= i < j < |s| ==> s[i] != s[j]
  }

  /** The invariant the selection keeps: no seat twice, at most six seats. */
  predicate ValidSelection(s: seq<SeatId>)
  {
    NoDuplicates(s) && |s| <= MaxSeats
  }

  /** `s.filter(x => x !== seat)`. */
  function Without(s: seq<SeatId>, seat: SeatId): (r: seq<SeatId>)
    ensures forall x :: x in r <==> x in s && x != seat
    ensures |r| <= |s|
    ensures seat in s ==> |r| < |s|
  {
    if |s| == 0 then []
    else (if s[0] == seat then [] else [s[0]]) + Without(s[1..], seat)
  }

  /** Filtering out a seat that is not there changes nothing. */
  lemma {:induction false} WithoutAbsent(s: seq<SeatId>, seat: SeatId)
    requires seat !in s
    ensures Without(s, seat) == s
  {
    if |s| > 0 {
      WithoutAbsent(s[1..], seat);
      assert [s[0]] + s[1..] == s;
    }
  }

  /** Filtering distributes over concatenation. */
  lemma {:induction false} WithoutAppend(a: seq<SeatId>, b: seq<SeatId>, seat: SeatId)
    ensures Without(a + b, seat) == Without(a, seat) + Without(b, seat)
  {
    if |a| > 0 {
      assert (a + b)[1..] == a[1..] + b;
      WithoutAppend(a[1..], b, seat);
    } else {
      assert a + b == b;
    }
  }

  /** Filtering a duplicate-free selection removes exactly the one position
      holding the seat and keeps the others in order. */
  lemma {:induction false} WithoutAt(s: seq<SeatId>, i: nat)
    requires NoDuplicates(s)
    requires i < |s|
    ensures Without(s, s[i]) == s[..i] + s[i + 1..]
  {
    if i == 0 {
      assert s[0] !in s[1..];
      WithoutAbsent(s[1..], s[0]);
    } else {
      assert NoDuplicates(s[1..]);
      assert s[1..][i - 1] == s[i];
      WithoutAt(s[1..], i - 1);
      assert s[1..][..i - 1] == s[1..i];
      assert s[1..][i..] == s[i + 1..];
      assert [s[0]] + s[1..i] == s[..i];
    }
  }

  /** Filtering keeps a selection free of duplicates. */
  lemma {:induction false} WithoutNoDuplicates(s: seq<SeatId>, seat: SeatId)
    requires NoDuplicates(s)
    ensures NoDuplicates(Without(s, seat))
  {
    if seat in s {
      var i :| 0 <= i < |s| && s[i] == seat;
      WithoutAt(s, i);
      var r := s[..i] + s[i + 1..];
      forall a, b | 0 <= a < b < |r| ensures r[a] != r[b] {
        var a' := if a < i then a else a + 1;
        var b' := if b < i then b else b + 1;
        assert r[a] == s[a'] && r[b] == s[b'];
      }
    } else {
      WithoutAbsent(s, seat);
    }
  }

  /** `handleSeatClick`: a booked seat is ignored; a selected seat is
      deselected; any other seat is appended while fewer than six are
      selected, and otherwise refused with the seat-limit notice. */
  function ClickSeat(st: BookingState, booked: set<SeatId>, seat: SeatId): (r: BookingState)
    ensures seat in booked ==> r == st
    ensures r.form == st.form
    ensures forall x :: x in r.selected <==>
      if seat in booked then x in st.selected
      else if seat in st.selected then x in st.selected && x != seat
      else x in st.selected || (x == seat && |st.selected| < MaxSeats)
    ensures r.notice == if seat !in booked && seat !in st.selected && |st.selected| >= MaxSeats then SeatLimit else st.notice
  {
    if seat in booked then st
    else if seat in st.selected then st.(selected := Without(st.selected, seat))
    else if |st.selected| >= MaxSeats then st.(notice := SeatLimit)
    else st.(selected := st.selected + [seat])
  }

  /** Deselecting keeps the remaining seats in their order; selecting with
      room appends at the end; the refused case leaves the selection alone. */
  lemma ClickSelectionShape(st: BookingState, booked: set<SeatId>, seat: SeatId)
    requires NoDuplicates(st.selected)
    requires seat !in booked
    ensures forall i :: 0 <= i < |st.selected| && st.selected[i] == seat ==>
      ClickSeat(st, booked, seat).selected == st.selected[..i] + st.selected[i + 1..]
    ensures seat !in st.selected && |st.selected| < MaxSeats ==>
      ClickSeat(st, booked, seat).selected == st.selected + [seat]
    ensures seat !in st.selected && |st.selected| >= MaxSeats ==>
      ClickSeat(st, booked, seat).selected == st.selected
  {
    forall i | 0 <= i < |st.selected| && st.selected[i] == seat
      ensures ClickSeat(st, booked, seat).selected == st.selected[..i] + st.selected[i + 1..]
    {
      WithoutAt(st.selected, i);
    }
  }

  /** A click keeps the selection duplicate-free and within six seats. */
  lemma ClickKeepsValid(st: BookingState, booked: set<SeatId>, seat: SeatId)
    requires ValidSelection(st.selected)
    ensures ValidSelection(ClickSeat(st, booked, seat).selected)
  {
    if seat !in booked && seat in st.selected {
      WithoutNoDuplicates(st.selected, seat);
    }
  }

  /** Two clicks on a free, unselected seat with room to add it restore the
      original state. */
  lemma ClickTwiceRestores(st: BookingState, booked: set<SeatId>, seat: SeatId)
    requires seat !in booked && seat !in st.selected
    requires |st.selected| < MaxSeats
    ensures ClickSeat(ClickSeat(st, booked, seat), booked, seat) == st
  {
    WithoutAppend(st.selected, [seat], seat);
    WithoutAbsent(st.selected, seat);
    assert st.selected + [] == st.selected;
  }

  /** An edit of the booking form: a show chosen, or a new ticket count typed. */
  datatype BookingEdit = EditShow(showId: string) | EditTickets(count: NumberInput)

  /** `handleChange`'s refusal condition: a ticket count that parses above six. */
  predicate OverTicketLimit(edit: BookingEdit)
  {
    edit.EditTickets? && edit.count.value.Some? && edit.count.value.value > MaxSeats
  }

  /** `handleChange`: a ticket count above six is refused with a notice and
      changes nothing else; any other edit clears the notice and stores the
      field, and a new ticket count also empties the selection. */
  function Change(st: BookingState, edit: BookingEdit): (r: BookingState)
    ensures OverTicketLimit(edit) ==> r == st.(notice := TicketLimit)
    ensures !OverTicketLimit(edit) ==> r.notice == NoNotice
    ensures edit.EditTickets? && !OverTicketLimit(edit) ==>
      r.selected == [] && r.form == st.form.(noOfTickets := edit.count)
    ensures edit.EditShow? ==> r.selected == st.selected && r.form == st.form.(showId := edit.showId)
  {
    if OverTicketLimit(edit) then st.(notice := TicketLimit)
    else
      match edit
      case EditShow(id) => st.(form := st.form.(showId := id), notice := NoNotice)
      case EditTickets(n) => st.(form := st.form.(noOfTickets := n), selected := [], notice := NoNotice)
  }

  /** No selected seat is in `booked`. */
  predicate DisjointFrom(selected: seq<SeatId>, booked: set<SeatId>)
  {
    forall x :: x in selected ==> x !in booked
  }

  /** Choosing another show keeps the selection while the booked set is
      refetched for the new show, so a selection disjoint from the old booked
      set can overlap the new one: disjointness is not an invariant across
      show changes. */
  lemma StaleSelectionAfterShowChange()
    ensures var st := Initial().(selected := ["C5"]);
            var after := Change(st, EditShow("2"));
            DisjointFrom(st.selected, {"A1"}) && !DisjointFrom(after.selected, {"C5"})
  {
  }

  /** A user event on the page. */
  datatype Event = Click(seat: SeatId) | Edit(edit: BookingEdit)

  function Step(st: BookingState, booked: set<SeatId>, e: Event): BookingState
  {
    match e
    case Click(seat) => ClickSeat(st, booked, seat)
    case Edit(edit) => Change(st, edit)
  }

  /** The state after a run of events against a fixed booked set. */
  function Run(st: BookingState, booked: set<SeatId>, events: seq<Event>): BookingState
    decreases |events|
  {
    if |events| == 0 then st else Run(Step(st, booked, events[0]), booked, events[1..])
  }

  /** Over any run of clicks and edits the selection stays duplicate-free and
      within six seats, and it never gains a booked seat. */
  lemma {:induction false} RunKeepsInvariant(st: BookingState, booked: set<SeatId>, events: seq<Event>)
    requires ValidSelection(st.selected)
    ensures ValidSelection(Run(st, booked, events).selected)
    ensures forall x :: x in Run(st, booked, events).selected ==> x in st.selected || x !in booked
    decreases |events|
  {
    if |events| > 0 {
      var next := Step(st, booked, events[0]);
      if events[0].Click? {
        ClickKeepsValid(st, booked, events[0].seat);
      }
      RunKeepsInvariant(next, booked, events[1..]);
    }
  }

  /** Hence, while the booked set stays the same, a selection disjoint from it
      stays disjoint. */
  lemma RunKeepsDisjoint(st: BookingState, booked: set<SeatId>, events: seq<Event>)
    requires ValidSelection(st.selected)
    requires DisjointFrom(st.selected, booked)
    ensures DisjointFrom(Run(st, booked, events).selected, booked)
  {
    RunKeepsInvariant(st, booked, events);
  }

  /** The booking payload posted to the ticket endpoint. */
  datatype BookingIntent = BookingIntent(showId: string, noOfTickets: nat, seatNos: string, userId: Option<string>)

  /** A token from storage counts only when present and non-empty. */
  predicate HasToken(token: Option<string>)
  {
    token.Some? && token.value != ""
  }

  /** The first check of `handleSubmit`: all fields filled and seats selected. */
  predicate Complete(st: BookingState, token: Option<string>)
  {
    HasToken(token) && st.form.showId != "" && st.form.noOfTickets.text != "" && |st.selected| > 0
  }

  /** What decoding the stored token gives: `jwtDecode` throws on a token it
      cannot read; otherwise its `unique_name` claim, which may be absent. */
  datatype Claims = Undecodable | Decoded(uniqueName: Option<string>)

  /** Why a submit posts nothing: a local check failed and its notice is
      shown, or decoding the token threw before the request was built. */
  datatype Refusal = Refused(notice: Notice) | TokenThrew

  /** The payload checks of `handleSubmit` failed. */
  predicate Rejected(st: BookingState, token: Option<string>)
  {
    !Complete(st, token) || st.form.noOfTickets.value != Some(|st.selected|)
  }

  /** `handleSubmit` up to the network call: the local checks in order, then
      decoding the token, then the payload. */
  function Submit(st: BookingState, token: Option<string>, claims: Claims): (r: Result<BookingIntent, Refusal>)
    ensures r.Failure? <==> Rejected(st, token) || claims.Undecodable?
    ensures Rejected(st, token) ==>
      r == Failure(Refused(if Complete(st, token) then CountMismatch else IncompleteForm))
    ensures !Rejected(st, token) && claims.Undecodable? ==> r == Failure(TokenThrew)
    ensures r.Success? ==>
      && r.value.showId == st.form.showId
      && r.value.noOfTickets == |st.selected| > 0
      && Some(r.value.noOfTickets) == st.form.noOfTickets.value
      && r.value.seatNos == Text.Join(st.selected, ',')
      && r.value.userId == claims.uniqueName
  {
    if !Complete(st, token) then Failure(Refused(IncompleteForm))
    else if st.form.noOfTickets.value != Some(|st.selected|) then Failure(Refused(CountMismatch))
    else if claims.Undecodable? then Failure(TokenThrew)
    else Success(BookingIntent(st.form.showId, |st.selected|, Text.Join(st.selected, ','), claims.uniqueName))
  }

  /** The state after a submit: a failed check shows its notice, a token that
      cannot be decoded leaves the page as it was, and an accepted submit
      posts the payload; form and selection are always kept. */
  function SubmitStep(st: BookingState, token: Option<string>, claims: Claims): (r: (BookingState, Option<BookingIntent>))
    ensures r.0.form == st.form && r.0.selected == st.selected
    ensures r.1.None? <==> Submit(st, token, claims).Failure?
    ensures Submit(st, token, claims).Failure? && Submit(st, token, claims).error.Refused? ==>
      r.0.notice == Submit(st, token, claims).error.notice
    ensures Submit(st, token, claims) == Failure(TokenThrew) ==> r == (st, None)
    ensures Submit(st, token, claims).Success? ==> r == (st, Some(Submit(st, token, claims).value))
  {
    match Submit(st, token, claims)
    case Failure(Refused(n)) => (st.(notice := n), None)
    case Failure(TokenThrew) => (st, None)
    case Success(intent) => (st, Some(intent))
  }

  /** When the selected ids come from the seat layout, the backend recovers
      exactly the selection, in order, by splitting the payload on commas. */
  lemma PayloadSeatsRoundTrip(st: BookingState, token: Option<string>, claims: Claims, layout: seq<SeatCatalog.Seat>)
    requires SeatCatalog.IsLayout(layout)
    requires forall x :: x in st.selected ==> exists k :: 0 <= k < |layout| && layout[k].id == x
    requires Submit(st, token, claims).Success?
    ensures Text.Split(Submit(st, token, claims).value.seatNos, ',') == st.selected
  {
    SeatCatalog.LayoutIdsCommaFree(layout);
    assert Text.FreeOf(st.selected, ',') by {
      forall i | 0 <= i < |st.selected| ensures ',' !in st.selected[i] {
        assert st.selected[i] in st.selected;
      }
    }
    Text.SplitJoin(st.selected, ',');
  }

  /** How a seat is drawn: red when booked, green when selected, grey otherwise. */
  datatype SeatView = BookedSeat | SelectedSeat | AvailableSeat

  function ViewOf(seat: SeatId, selected: seq<SeatId>, booked: set<SeatId>): (v: SeatView)
    ensures v == BookedSeat <==> seat in booked
    ensures v == SelectedSeat <==> seat in selected && seat !in booked
    ensures v == AvailableSeat <==> seat !in selected && seat !in booked
  {
    if seat in booked then BookedSeat
    else if seat in selected then SelectedSeat
    else AvailableSeat
  }

  /** The background of a seat in each view; the three are distinct. */
  function Colour(v: SeatView): (c: string)
    ensures c == "red" <==> v == BookedSeat
    ensures c == "green" <==> v == SelectedSeat
    ensures c == "#ccc" <==> v == AvailableSeat
  {
    match v
    case BookedSeat => "red"
    case SelectedSeat => "green"
    case AvailableSeat => "#ccc"
  }

  /** What a click does to the seat's own colour: red stays red with the
      state unchanged, green turns grey, and grey turns green when there is
      room (else stays grey with the seat-limit notice). */
  lemma ClickChangesView(st: BookingState, booked: set<SeatId>, seat: SeatId)
    ensures var before := ViewOf(seat, st.selected, booked);
            var r := ClickSeat(st, booked, seat);
            var after := ViewOf(seat, r.selected, booked);
            && (before == BookedSeat ==> r == st && after == BookedSeat)
            && (before == SelectedSeat ==> after == AvailableSeat)
            && (before == AvailableSeat && |st.selected| < MaxSeats ==> after == SelectedSeat)
            && (before == AvailableSeat && |st.selected| >= MaxSeats ==> after == AvailableSeat && r.notice == SeatLimit)
  {
  }
}
