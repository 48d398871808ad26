/** The fixed seat layout of the booking page (`generateSeats` in
    movieapp/src/Pages/BookNow.jsx): ten rows lettered A to J, ten seats per
    row numbered from 1, the two front rows sold at the premium price. */
module SeatCatalog {

  /** Row letters, front to back. */
  const Rows: string := "ABCDEFGHIJ"
  const SeatsPerRow: nat := 10
  const PremiumPrice: int := 200
  const StandardPrice: int := 150

  /** One seat of the layout: its id (row letter then column number), its
      price and its row letter. */
  datatype Seat = Seat(id: string, price: int, row: char)

  /** The decimal text of a column number, as a template literal prints it. */
  function ColumnLabel(c: nat): (s: string)
    requires 1 <= c <= SeatsPerRow
    ensures 1 <= |s| <= 2
    ensures forall k :: 0 <= k < |s| ==> '0' <= s[k] <= '9'
    ensures |s| == 1 <==> c < 10
  {
    if c < 10 then [('0' as int + c) as char] else "10"
  }

  /** The price tier of a row. */
  function RowPrice(row: char): int
  {
    if row == 'A' || row == 'B' then PremiumPrice else StandardPrice
  }

  /** The seat in row `r` (0-based) and column `c` (1-based). */
  function SeatAt(r: nat, c: nat): Seat
    requires r < |Rows| && 1 <= c <= SeatsPerRow
  {
    Seat([Rows[r]] + ColumnLabel(c), RowPrice(Rows[r]), Rows[r])
  }

  /** `seats` is the layout in row-major order: position `k` holds row
      `k / 10`, column `k % 10 + 1`. */
  ghost predicate IsLayout(seats: seq<Seat>)
  {
    && |seats| == |Rows| * SeatsPerRow
    && forall k :: 0 <= k < |seats| ==> seats[k] == SeatAt(k / SeatsPerRow, k % SeatsPerRow + 1)
  }

  /** The nested row/column enumeration of the source. */
  method GenerateSeats() returns (seats: seq<Seat>)
    ensures |seats| == 100
    ensures forall k :: 0 <= k < |seats| ==> seats[k] == SeatAt(k / SeatsPerRow, k % SeatsPerRow + 1)
  {
    seats := [];
    var i := 0;
    while i < |Rows|
      invariant 0 <= i <= |Rows|
      invariant |seats| == i * SeatsPerRow
      invariant forall k :: 0 <= k < |seats| ==> seats[k] == SeatAt(k / SeatsPerRow, k % SeatsPerRow + 1)
    {
      var j := 1;
      while j <= SeatsPerRow
        invariant 1 <= j <= SeatsPerRow + 1
        invariant |seats| == i * SeatsPerRow + (j - 1)
        invariant forall k :: 0 <= k < |seats| ==> seats[k] == SeatAt(k / SeatsPerRow, k % SeatsPerRow + 1)
      {
        ghost var k := |seats|;
        assert k / SeatsPerRow == i && k % SeatsPerRow == j - 1;
        seats := seats + [SeatAt(i, j)];
        j := j + 1;
      }
      i := i + 1;
    }
  }

  /** Row letters are pairwise distinct: letter `r` is the `r`-th letter after 'A'. */
  lemma RowLetter(r: nat)
    requires r < |Rows|
    ensures Rows[r] as int == 'A' as int + r
  {
  }

  /** Every seat's row is the first character of its id, the rest of the id
      is its column number, and it costs 200 exactly in rows A and B and 150
      elsewhere. */
  lemma SeatShape(r: nat, c: nat)
    requires r < |Rows| && 1 <= c <= SeatsPerRow
    ensures SeatAt(r, c).id[0] == SeatAt(r, c).row == Rows[r]
    ensures SeatAt(r, c).id[1..] == ColumnLabel(c)
    ensures SeatAt(r, c).price == 200 <==> r < 2
    ensures SeatAt(r, c).price == 150 <==> r >= 2
  {
  }

  /** Different positions of the layout carry different ids. */
  lemma SeatIdsInjective(r1: nat, c1: nat, r2: nat, c2: nat)
    requires r1 < |Rows| && 1 <= c1 <= SeatsPerRow
    requires r2 < |Rows| && 1 <= c2 <= SeatsPerRow
    requires (r1, c1) != (r2, c2)
    ensures SeatAt(r1, c1).id != SeatAt(r2, c2).id
  {
    var a, b := SeatAt(r1, c1).id, SeatAt(r2, c2).id;
    if r1 != r2 {
      RowLetter(r1);
      RowLetter(r2);
      assert a[0] != b[0];
    } else {
      assert a[1..] == ColumnLabel(c1) && b[1..] == ColumnLabel(c2);
      if c1 < 10 && c2 < 10 {
        assert ColumnLabel(c1)[0] != ColumnLabel(c2)[0];
      } else {
        assert |ColumnLabel(c1)| != |ColumnLabel(c2)|;
      }
    }
  }

  /** Seat ids are pairwise distinct, and each seat's row is its id's first
      character. */
  lemma {:induction false} LayoutIds(seats: seq<Seat>)
    requires IsLayout(seats)
    ensures forall a, b :: 0 <= a < b < |seats| ==> seats[a].id != seats[b].id
    ensures forall k :: 0 <= k < |seats| ==> |seats[k].id| >= 2 && seats[k].row == seats[k].id[0]
  {
    forall a, b | 0 <= a < b < |seats| ensures seats[a].id != seats[b].id {
      SeatIdsInjective(a / SeatsPerRow, a % SeatsPerRow + 1, b / SeatsPerRow, b % SeatsPerRow + 1);
    }
    forall k | 0 <= k < |seats| ensures |seats[k].id| >= 2 && seats[k].row == seats[k].id[0] {
      SeatShape(k / SeatsPerRow, k % SeatsPerRow + 1);
    }
  }

  /** Seat ids never contain a comma, so a comma-joined list of them can be
      split back apart. */
  lemma {:induction false} LayoutIdsCommaFree(seats: seq<Seat>)
    requires IsLayout(seats)
    ensures forall k :: 0 <= k < |seats| ==> ',' !in seats[k].id
  {
  }

  /** Number of seats in `seats` priced at `p`. */
  function CountPriced(seats: seq<Seat>, p: int): (n: nat)
    ensures n <= |seats|
  {
    if |seats| == 0 then 0
    else CountPriced(seats[..|seats| - 1], p) + (if seats[|seats| - 1].price == p then 1 else 0)
  }

  /** Position `k` of the layout is premium exactly when it lies in the
      first two rows. */
  lemma TierAt(k: nat)
    requires k < |Rows| * SeatsPerRow
    ensures SeatAt(k / SeatsPerRow, k % SeatsPerRow + 1).price == if k < 20 then PremiumPrice else StandardPrice
  {
    var r := k / SeatsPerRow;
    SeatShape(r, k % SeatsPerRow + 1);
    assert r < 2 <==> k < 20;
  }

  /** The first twenty seats are premium and the rest standard. */
  ghost predicate FrontRowsPremium(seats: seq<Seat>)
  {
    forall k :: 0 <= k < |seats| ==> seats[k].price == if k < 20 then PremiumPrice else StandardPrice
  }

  /** Of the first `n` seats of such a sequence, min(n, 20) are premium and
      the rest standard. */
  lemma {:induction false} PrefixTiers(seats: seq<Seat>, n: nat)
    requires FrontRowsPremium(seats)
    requires n <= |seats|
    ensures CountPriced(seats[..n], PremiumPrice) == if n <= 20 then n else 20
    ensures CountPriced(seats[..n], StandardPrice) == if n <= 20 then 0 else n - 20
  {
    if n > 0 {
      PrefixTiers(seats, n - 1);
      assert seats[..n][..n - 1] == seats[..n - 1];
      assert seats[..n][n - 1] == seats[n - 1];
    }
  }

  /** The layout has exactly 20 seats at 200 and 80 at 150. */
  lemma LayoutTiers(seats: seq<Seat>)
    requires IsLayout(seats)
    ensures CountPriced(seats, PremiumPrice) == 20
    ensures CountPriced(seats, StandardPrice) == 80
  {
    forall k | 0 <= k < |seats|
      ensures seats[k].price == if k < 20 then PremiumPrice else StandardPrice
    {
      TierAt(k);
    }
    PrefixTiers(seats, |seats|);
    assert seats[..|seats|] == seats;
  }
}
