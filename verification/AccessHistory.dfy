/** Reading the history back in pages, with the 32-bit arithmetic of the service and the clamping of the controller. */
module AccessHistory {
  import opened Common
  import opened Domain
  import opened AccessLog
  import opened AccessJournal
  import opened AccessDurability
  import opened AccessTheorems

  type int32 = x: int | -0x8000_0000 <= x < 0x8000_0000

  const INT32_MAX := 0x7FFF_FFFF

  /** The last page whose offset fits in 32 bits at every admissible size. */
  const LAST_SAFE_PAGE := 21474837

  /** Unchecked arithmetic keeps the low 32 bits, read as a signed number. */
  function Wrap(x: int): int32 {
    (x + 0x8000_0000) % 0x1_0000_0000 - 0x8000_0000
  }

  function Min(a: int, b: int): int {
    if a < b then a else b
  }

  /** `Skip` then `Take`, on a sequence of any length. */
  function Window(rows: seq<Entry>, skip: nat, count: nat): seq<Entry> {
    rows[Min(skip, |rows|)..Min(skip + count, |rows|)]
  }

  /** The service's query; the database refuses a negative offset and an empty or negative fetch. */
  function GetLockAccesses(table: seq<Entry>, lockId: string, page: int32, count: int32): Option<seq<Entry>> {
    var skip := Wrap(Wrap(page - 1) * count);
    if skip < 0 || count <= 0 then None else Some(Window(Rows(table, lockId), skip, count))
  }

  /** Page `page` of `rows` as a reader means it, without a word size. */
  function PageOf(rows: seq<Entry>, page: int, count: int): seq<Entry>
    requires page >= 1 && count >= 1
  {
    PageIsNat(page, count);
    Window(rows, (page - 1) * count, count)
  }

  lemma PageIsNat(page: int, count: int)
    requires page >= 1 && count >= 1
    ensures (page - 1) * count >= 0
    ensures page * count == (page - 1) * count + count
  {
  }

  /** Pages 1 to `k`, one after another. */
  function Pages(rows: seq<Entry>, k: nat, count: int): seq<Entry>
    requires count >= 1
  {
    if k == 0 then [] else Pages(rows, k - 1, count) + PageOf(rows, k, count)
  }

  lemma {:induction false} PagesAreAPrefix(rows: seq<Entry>, k: nat, count: int)
    requires count >= 1
    ensures k * count >= 0 && Pages(rows, k, count) == rows[..Min(k * count, |rows|)]
  {
    if k > 0 {
      PagesAreAPrefix(rows, k - 1, count);
      PageIsNat(k, count);
      var from, to := Min((k - 1) * count, |rows|), Min(k * count, |rows|);
      assert PageOf(rows, k, count) == rows[from..to];
      assert rows[..to] == rows[..from] + rows[from..to];
    }
  }

  /** The pages up to the rounded-up count, read in order, are the lock's history. */
  lemma {:induction false} PagesTile(table: seq<Entry>, lockId: string, count: int)
    requires count >= 1
    ensures var rows := Rows(table, lockId);
      Pages(rows, (|rows| + count - 1) / count, count) == rows
  {
    var rows := Rows(table, lockId);
    var k := (|rows| + count - 1) / count;
    DivisionBounds(|rows| + count - 1, count);
    AllPages(rows, k, count);
  }

  lemma DivisionBounds(x: int, d: int)
    requires d >= 1
    ensures x - d < (x / d) * d <= x
  {
    assert x == (x / d) * d + x % d;
  }

  /** A page is full, partial or empty by where its end lies; row `i` is on page `i / count + 1` alone. */
  lemma {:induction false} PageSizes(rows: seq<Entry>, page: int, count: int)
    requires page >= 1 && count >= 1
    ensures |PageOf(rows, page, count)| == count <==> page * count <= |rows|
    ensures PageOf(rows, page, count) == [] <==> |rows| <= (page - 1) * count
  {
    PageIsNat(page, count);
  }

  lemma {:induction false} RowIsOnOnePage(rows: seq<Entry>, i: nat, page: int, count: int)
    requires i < |rows| && page >= 1 && count >= 1
    ensures (page - 1) * count <= i < (page - 1) * count + |PageOf(rows, page, count)| <==> page == i / count + 1
    ensures page == i / count + 1 ==> i % count < |PageOf(rows, page, count)|
                                      && PageOf(rows, page, count)[i % count] == rows[i]
  {
    PageIsNat(page, count);
    DivisionIs(i, page, count);
    if page == i / count + 1 {
      assert (page - 1) * count == i - i % count;
    }
  }

  /** The quotient by `d` is the one number whose multiple of `d` starts the stretch that holds `x`. */
  lemma DivisionIs(x: nat, page: int, d: int)
    requires page >= 1 && d >= 1
    ensures (page - 1) * d <= x < (page - 1) * d + d <==> page == x / d + 1
  {
    var q := x / d;
    assert x == q * d + x % d;
    if page - 1 < q {
      Monotone(page, q, d);
      assert page * d == (page - 1) * d + d;
    } else if page - 1 > q {
      Monotone(q + 1, page - 1, d);
      assert (q + 1) * d == q * d + d;
    }
  }

  lemma Monotone(a: int, b: int, c: int)
    requires a <= b && c >= 1
    ensures a * c <= b * c
  {
    assert b * c - a * c == (b - a) * c;
  }

  /** Once a page of a lock's history is full, no later step of any grain changes what it holds. */
  lemma {:induction false} FullPagesAreStable(s: State, run: seq<Step>, lockId: string, page: int, count: int)
    requires IsRun(s, run) && page >= 1 && count >= 1
    ensures var before, after := PageOf(Rows(s.table, lockId), page, count), PageOf(Rows(Exec(s, run).table, lockId), page, count);
      before <= after && (|before| == count ==> after == before)
  {
    TableOnlyGrows(s, run);
    var table := Exec(s, run).table;
    assert table == s.table + table[|s.table|..];
    RowsOfConcat(s.table, table[|s.table|..], lockId);
    PageIsNat(page, count);
    WindowGrows(Rows(s.table, lockId), Rows(table, lockId), (page - 1) * count, count);
  }

  /** A window of a longer history extends the window, and a full one is the same. */
  lemma WindowGrows(rows: seq<Entry>, more: seq<Entry>, skip: nat, count: nat)
    requires rows <= more
    ensures var before, after := Window(rows, skip, count), Window(more, skip, count);
      before <= after && (|before| == count ==> after == before)
  {
  }

  // ------------------------------------------------------------------------------------------
  // The 32-bit offset

  lemma WrapIsExact(x: int)
    ensures Wrap(x) == x <==> -0x8000_0000 <= x <= INT32_MAX
  {
  }

  /** The wrapped number is the one 32-bit number that differs by a multiple of 2 to the 32. */
  lemma WrapIs(x: int, y: int)
    ensures y == Wrap(x) <==> -0x8000_0000 <= y <= INT32_MAX && (x - y) % 0x1_0000_0000 == 0
  {
    var m, z := 0x1_0000_0000, x + 0x8000_0000;
    assert z == (z / m) * m + z % m;
    assert x - Wrap(x) == (z / m) * m;
    if -0x8000_0000 <= y <= INT32_MAX && (x - y) % m == 0 {
      assert x - y == ((x - y) / m) * m;
      assert Wrap(x) - y == ((x - y) / m - z / m) * m;
    }
  }

  /**
   * The service returns the page asked for if and only if the offset fits in 32 bits or wraps to an
   * offset past the end. (A table of 32-bit row ids holds no more than the int32 range.)
   */
  lemma {:induction false} ServiceIsExactIff(table: seq<Entry>, lockId: string, page: int32, count: int32)
    requires page >= 1 && count >= 1 && |Rows(table, lockId)| <= INT32_MAX
    ensures var rows, exact := Rows(table, lockId), (page - 1) * count;
      GetLockAccesses(table, lockId, page, count) == Some(PageOf(rows, page, count))
      <==> exact <= INT32_MAX || |rows| <= Wrap(exact)
  {
    var rows, exact := Rows(table, lockId), (page - 1) * count;
    PageIsNat(page, count);
    WrapIsExact(page - 1);
    WrapIsExact(exact);
    if exact > INT32_MAX {
      assert PageOf(rows, page, count) == [];
      if 0 <= Wrap(exact) < |rows| {
        assert |Window(rows, Wrap(exact), count)| > 0;
      }
    }
  }

  /** The service's 32-bit offset is the mathematical one. */
  predicate OffsetIsExact(page: int32, size: int32) {
    Wrap(Wrap(page - 1) * size) == (page - 1) * size
  }

  /** What a reader gets by fetching pages 1 to `k` from the service and putting them together. */
  function Fetched(table: seq<Entry>, lockId: string, k: int32, count: int32): Option<seq<Entry>>
    decreases if k < 0 then 0 else k
  {
    if k <= 0 then Some([])
    else
      match (Fetched(table, lockId, k - 1, count), GetLockAccesses(table, lockId, k, count))
      case (Some(earlier), Some(page)) => Some(earlier + page)
      case _ => None
  }

  lemma {:induction false} FetchedArePages(table: seq<Entry>, lockId: string, k: int32, count: int32)
    requires k >= 0 && count >= 1 && |Rows(table, lockId)| <= INT32_MAX
    requires k > 0 ==> (k - 1) * count <= |Rows(table, lockId)|
    ensures Fetched(table, lockId, k, count) == Some(Pages(Rows(table, lockId), k, count))
    decreases k
  {
    if k > 0 {
      if k > 1 {
        Monotone(k - 2, k - 1, count);
      }
      FetchedArePages(table, lockId, k - 1, count);
      ServiceIsExactIff(table, lockId, k, count);
    }
  }

  /** Reading a whole history page by page never meets the 32-bit limit, at any page size. */
  lemma {:induction false} WholeHistoryIsReadable(table: seq<Entry>, lockId: string, count: int32) returns (k: int32)
    requires count >= 1 && |Rows(table, lockId)| <= INT32_MAX
    ensures k >= 0 && Fetched(table, lockId, k, count) == Some(Rows(table, lockId))
  {
    var rows := Rows(table, lockId);
    k := LastPage(|rows|, count);
    FetchedArePages(table, lockId, k, count);
    AllPages(rows, k, count);
  }

  lemma {:induction false} AllPages(rows: seq<Entry>, k: nat, count: int)
    requires count >= 1 && |rows| <= k * count
    ensures Pages(rows, k, count) == rows
  {
    PagesAreAPrefix(rows, k, count);
    assert rows[..|rows|] == rows;
  }

  /**
   * From log to reader: the pages of a lock's history put together are, in order, exactly the accesses
   * its activations reached - if and only if no save commits after a false failure in its activation.
   */
  lemma {:induction false} ReaderSeesTheLog(s0: State, run: seq<Step>, id: string, count: int32) returns (k: int32)
    requires s0.live == map[] && Rows(s0.table, id) == [] && IsRun(s0, run)
    requires count >= 1 && |Rows(Exec(s0, run).table, id)| <= INT32_MAX
    ensures k >= 0 && Fetched(Exec(s0, run).table, id, k, count) == Some(Rows(Exec(s0, run).table, id))
    ensures NeverRecommits(s0, run, id) <==>
            Fetched(Exec(s0, run).table, id, k, count) == Some(ReachedOf(Epochs(s0, run, id)))
  {
    RowsAreTheReachedIff(s0, run, id);
    k := WholeHistoryIsReadable(Exec(s0, run).table, id, count);
  }

  /** The number of pages that hold `n` rows. */
  lemma {:induction false} LastPage(n: nat, count: int32) returns (k: int32)
    requires n <= INT32_MAX && count >= 1
    ensures k >= 0 && n <= k * count && (k > 0 ==> (k - 1) * count <= n)
  {
    if n == 0 {
      return 0;
    }
    var q := (n - 1) / count;
    DivisionBounds(n - 1, count);
    assert q <= n - 1 by {
      if q > n - 1 { Monotone(1, count, q); }
    }
    PageIsNat(q + 1, count);
    k := q + 1;
  }

  /** At every admissible size the offset is exact up to the last safe page, and only up to it. */
  lemma {:induction false} OffsetBoundIsTight(page: int32)
    requires page >= 1
    ensures (forall size: int32 | 10 <= size <= 100 :: OffsetIsExact(page, size))
            <==> page <= LAST_SAFE_PAGE
  {
    WrapIsExact(page - 1);
    forall size: int32 | 10 <= size <= 100
      ensures page <= LAST_SAFE_PAGE ==> OffsetIsExact(page, size)
    {
      PageIsNat(page, size);
      WrapIsExact((page - 1) * size);
      if page <= LAST_SAFE_PAGE {
        Monotone(page - 1, LAST_SAFE_PAGE - 1, size);
      }
    }
    if page > LAST_SAFE_PAGE {
      WrapIsExact((page - 1) * 100);
      assert !OffsetIsExact(page, 100);
    }
  }

  /** Beyond it the offset can wrap to zero: this page of any non-empty history is its first page again. */
  lemma {:induction false} OffsetCanWrapToTheFirstPage(table: seq<Entry>, lockId: string)
    requires 0 < |Rows(table, lockId)| <= INT32_MAX
    ensures GetLockAccesses(table, lockId, 67108865, 64) == Some(PageOf(Rows(table, lockId), 1, 64))
    ensures PageOf(Rows(table, lockId), 67108865, 64) == []
  {
    assert Wrap(67108864 * 64) == 0;
  }

  /** The controller's action: clamp page and size, then ask the service. */
  method GetHistory(table: seq<Entry>, id: string, page: int32, size: int32) returns (rows: Option<seq<Entry>>)
    ensures page <= LAST_SAFE_PAGE ==>
              rows == Some(PageOf(Rows(table, id), if page < 1 then 1 else page, if 10 <= size <= 100 then size else 10))
    ensures rows == GetLockAccesses(table, id, if page < 1 then 1 else page, if 10 <= size <= 100 then size else 10)
  {
    var p, n := page, size;
    if p < 1 {
      p := 1;
    }
    if n < 10 || n > 100 {
      n := 10;
    }
    PageIsNat(p, n);
    WrapIsExact(p - 1);
    if page <= LAST_SAFE_PAGE {
      OffsetBoundIsTight(p);
      assert OffsetIsExact(p, n);
    }
    rows := GetLockAccesses(table, id, p, n);
  }
}
