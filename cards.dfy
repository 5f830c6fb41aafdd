// The card-count loops of renderContent in src/js/home.js and js/discover.js:
// up to eight rows of three cards, stopping as soon as the reported total or
// the received rows run out. A card is identified here by the index of the
// result row it shows; the card markup itself is not modelled.
module CardGrid {
  import Pagination

  const PerRow: nat := 3

  /** NUM_PER_PAGE / NUM_PER_ROW rows at most. */
  const MaxRows: nat := Pagination.PerPage / PerRow

  /** The indices first, first + 1, ..., last - 1. */
  function Indices(first: nat, last: nat): (r: seq<nat>)
    ensures |r| == if last <= first then 0 else last - first
    ensures forall k :: 0 <= k < |r| ==> r[k] == first + k
  {
    if last <= first then [] else seq(last - first, k requires 0 <= k => first + k)
  }

  /** Where the row holding card n - 1 starts. */
  function RowStart(n: nat): (r: nat)
    requires n > 0
    ensures r < n <= r + 3 && r % 3 == 0
  {
    (n - 1) / 3 * 3
  }

  /**
   * The cards 0..n-1 cut into rows of three, in order: row i holds the cards
   * from 3i up to the next multiple of three, or up to n for the last row.
   */
  function Grid(n: nat): seq<seq<nat>>
  {
    seq((n + PerRow - 1) / PerRow, i requires 0 <= i =>
      Indices(PerRow * i, Pagination.Min(PerRow * i + PerRow, n)))
  }

  /** How many cards are shown: the total, the rows received and one page bound it. */
  function CardCount(total: int, received: nat): (n: nat)
    ensures n <= Pagination.PerPage && n <= received && n <= (if total < 0 then 0 else total)
    ensures total > 0 ==> n == Pagination.PerPage || n == received || n == total
  {
    if total <= 0 then 0
    else Pagination.Min(Pagination.Min(total, received), Pagination.PerPage) as nat
  }

  /** Below the total, the rows received and the page size is below the card count. */
  lemma BelowCount(c: nat, total: int, received: nat)
    requires c < total && c < received && c < Pagination.PerPage
    ensures c < CardCount(total, received)
  {
  }

  /** Up to the card count and at the total or the rows received is at the card count. */
  lemma AtCount(c: nat, total: int, received: nat)
    requires c <= CardCount(total, received) && (c >= total || c >= received)
    ensures c == CardCount(total, received)
  {
  }

  /** A row started below the card count fits on the page. */
  lemma RowFits(done: nat, total: int, received: nat)
    requires done % 3 == 0 && done < CardCount(total, received)
    ensures done + PerRow <= Pagination.PerPage
  {
  }

  /** The row of the grid that the cards from 3i up to `last` make. */
  lemma GridRow(n: nat, i: nat, last: nat)
    requires 3 * i < last <= n && last <= 3 * i + 3 && (last < n ==> last == 3 * i + 3)
    ensures i < |Grid(n)| && Grid(n)[i] == Indices(3 * i, last)
  {
  }

  /** The grid of n cards has k rows when the last of them is the k-th. */
  lemma GridLength(n: nat, k: nat)
    requires n <= 3 * k < n + 3
    ensures |Grid(n)| == k
  {
  }

  lemma PrefixSnoc<T>(s: seq<T>, k: nat)
    requires k < |s|
    ensures s[..k + 1] == s[..k] + [s[k]]
  {
  }

  /** A full grid followed by one more row of up to three cards is the larger grid. */
  lemma GridStep(done: nat, n: nat)
    requires done % 3 == 0 && done < n <= done + 3
    ensures Grid(n) == Grid(done) + [Indices(done, n)]
  {
    var g, h := Grid(n), Grid(done);
    assert |g| == |h| + 1;
    forall i | 0 <= i < |h|
      ensures g[i] == h[i]
    {
      assert PerRow * i + PerRow <= done;
    }
  }

  /**
   * home.js: each row is appended at the end of the card container and
   * filled through its lastElementChild.
   */
  method HomeCardRows(total: int, received: nat) returns (rows: seq<seq<nat>>)
    ensures rows == Grid(CardCount(total, received))
  {
    ghost var n := CardCount(total, received);
    ghost var g := Grid(n);
    rows := [];
    var count: nat := 0;
    var rowIndex := 0;
    while rowIndex < MaxRows
      invariant 0 <= rowIndex <= MaxRows
      invariant count <= n && count <= 3 * rowIndex < count + 3
      invariant count < n ==> count == 3 * rowIndex
      invariant rowIndex <= |g| && rows == g[..rowIndex]
    {
      if count >= total || count >= received {
        AtCount(count, total, received);
        break;
      }
      BelowCount(count, total, received);
      var row;
      row, count := FillRow(count, total, received);
      GridRow(n, rowIndex, count);
      PrefixSnoc(g, rowIndex);
      rows := rows + [row];
      rowIndex := rowIndex + 1;
    }
    GridLength(n, rowIndex);
    assert g[..rowIndex] == g;
  }

  /** The inner loop of both pages: up to three cards, from `done` on, go into the new row. */
  method FillRow(done: nat, total: int, received: nat) returns (row: seq<nat>, count: nat)
    requires done % 3 == 0 && done < CardCount(total, received)
    ensures done < count <= done + PerRow && count <= CardCount(total, received)
    ensures count < CardCount(total, received) ==> count == done + PerRow
    ensures row == Indices(done, count)
  {
    ghost var n := CardCount(total, received);
    RowFits(done, total, received);
    row := [];
    count := done;
    var itemIndex := 0;
    while itemIndex < PerRow
      invariant 0 <= itemIndex <= PerRow && count == done + itemIndex <= n
      invariant row == Indices(done, count)
    {
      if count >= total || count >= received {
        AtCount(count, total, received);
        break;
      }
      BelowCount(count, total, received);
      row := row + [count];
      count := count + 1;
      itemIndex := itemIndex + 1;
    }
  }

  function Reverse<T>(s: seq<T>): (r: seq<T>)
    ensures |r| == |s|
    ensures forall k :: 0 <= k < |s| ==> r[k] == s[|s| - 1 - k]
  {
    if s == [] then [] else Reverse(s[1..]) + [s[0]]
  }

  /**
   * discover.js: each row is inserted at the front of the card container
   * ('afterbegin') and filled through its firstElementChild, so the rows come
   * out in reverse order while each row keeps its order.
   */
  method DiscoverCardRows(total: int, received: nat) returns (rows: seq<seq<nat>>)
    ensures rows == Reverse(Grid(CardCount(total, received)))
  {
    ghost var n := CardCount(total, received);
    ghost var g := Grid(n);
    rows := [];
    var count: nat := 0;
    var rowIndex := 0;
    while rowIndex < MaxRows
      invariant 0 <= rowIndex <= MaxRows
      invariant count <= n && count <= 3 * rowIndex < count + 3
      invariant count < n ==> count == 3 * rowIndex
      invariant rowIndex <= |g| && rows == Reverse(g[..rowIndex])
    {
      if count >= total || count >= received {
        AtCount(count, total, received);
        break;
      }
      BelowCount(count, total, received);
      var row;
      row, count := FillRow(count, total, received);
      GridRow(n, rowIndex, count);
      ReversePrefix(g, rowIndex);
      rows := [row] + rows;
      rowIndex := rowIndex + 1;
    }
    GridLength(n, rowIndex);
    assert g[..rowIndex] == g;
  }

  lemma ReverseSnoc<T>(s: seq<T>, x: T)
    ensures Reverse(s + [x]) == [x] + Reverse(s)
  {
  }

  /** Reversing one more element of a prefix puts that element in front. */
  lemma ReversePrefix<T>(s: seq<T>, k: nat)
    requires k < |s|
    ensures Reverse(s[..k + 1]) == [s[k]] + Reverse(s[..k])
  {
    PrefixSnoc(s, k);
    ReverseSnoc(s[..k], s[k]);
  }

  /** Consecutive runs of indices join into one run. */
  lemma IndicesAppend(a: nat, b: nat, c: nat)
    requires a <= b <= c
    ensures Indices(a, b) + Indices(b, c) == Indices(a, c)
  {
    var l, r := Indices(a, b), Indices(b, c);
    assert forall k :: 0 <= k < |l + r| ==> (l + r)[k] == a + k;
  }

  function Flatten(rows: seq<seq<nat>>): seq<nat>
  {
    if rows == [] then [] else Flatten(rows[..|rows| - 1]) + rows[|rows| - 1]
  }

  /**
   * Read row by row, the grid shows exactly the cards 0..n-1 in data order;
   * every row holds one to three cards and all rows but the last hold three.
   */
  lemma {:induction false} GridShape(n: nat)
    ensures Flatten(Grid(n)) == Indices(0, n)
    ensures forall i :: 0 <= i < |Grid(n)| ==> 1 <= |Grid(n)[i]| <= PerRow
    ensures forall i :: 0 <= i < |Grid(n)| - 1 ==> |Grid(n)[i]| == PerRow
    decreases n
  {
    if n > 0 {
      var r := RowStart(n);
      GridShape(r);
      GridStep(r, n);
      var g := Grid(n);
      assert Flatten(g) == Flatten(Grid(r)) + Indices(r, n) by {
        assert g[..|g| - 1] == Grid(r);
      }
      IndicesAppend(0, r, n);
    }
  }

  /** Both pages show the same number of cards: min(total, rows received, 24). */
  lemma CardsShown(total: int, received: nat)
    ensures |Flatten(Grid(CardCount(total, received)))| ==
      if total <= 0 then 0 else Pagination.Min(Pagination.Min(total, received), Pagination.PerPage)
  {
    GridShape(CardCount(total, received));
  }
}
