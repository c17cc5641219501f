/** Paging by page number: the v1alpha List call with its int32 arithmetic, and the command that reads all pages. */
module PagePaging {
  import opened Collections
  import opened SoftTable
  import opened GraphStoreV1Alpha
  import opened Reconciliation

  /**
   The rows that List reads from for modules, in the order in which the store returns them. The statement does not look
   at date_deleted, so deleted rows would be among them; it does not select k3 either, which is empty for modules.
   */
  ghost predicate ListsModules(t: GraphTable, rows: seq<GraphItem>) {
    && Distinct(rows)
    && forall item :: item in rows
         <==> item.key in t && item.key.itemType == ModuleType && t[item.key].data == item.data
  }

  function Int32(n: int): int {
    (n + 0x8000_0000) % 0x1_0000_0000 - 0x8000_0000
  }

  function Max(a: int, b: int): int { if a > b then a else b }

  function Min(a: int, b: int): int { if a < b then a else b }

  function ListPage(rows: seq<GraphItem>, page: int, count: int): seq<GraphItem> {
    var limit := Max(Min(count, 100), 10);
    Window(rows, limit, Int32((Max(page, 1) - 1) * limit))
  }

  /**
   The window of any page: between ten and a hundred rows, from an offset that is counted from the first page and wraps
   around as an int32. A negative offset counts as zero.
   */
  lemma ListPageIs(rows: seq<GraphItem>, page: int, count: int) returns (wraps: int, offset: int)
    ensures var limit := if count < 10 then 10 else if count > 100 then 100 else count;
      && offset == (if page < 1 then 0 else (page - 1) * limit) - 0x1_0000_0000 * wraps
      && -0x8000_0000 <= offset < 0x8000_0000
      && var first := if offset < 0 then 0 else if offset > |rows| then |rows| else offset;
      && ListPage(rows, page, count) == rows[first..if first + limit > |rows| then |rows| else first + limit]
  {
    var limit := Max(Min(count, 100), 10);
    var product := (Max(page, 1) - 1) * limit;
    wraps, offset := (product + 0x8000_0000) / 0x1_0000_0000, Int32(product);
  }

  /** The offset does not wrap around as long as it fits an int32. */
  lemma PageIs(rows: seq<GraphItem>, k: nat)
    requires 100 * k < 0x8000_0000
    ensures ListPage(rows, Int32(k + 1), 100) == rows[Min(100 * k, |rows|)..Min(100 * k + 100, |rows|)]
  {
  }

  /** The first page whose offset does not fit an int32 reads the first rows again. */
  lemma PageWraps(rows: seq<GraphItem>)
    requires |rows| >= 100
    ensures ListPage(rows, Int32(21474837 + 1), 100) == rows[..100]
  {
  }

  const ROW_LIMIT := 2147483700

  // ---- The pages that the command reads ----

  /** What the command has written after k pages. */
  function Output(rows: seq<GraphItem>, k: nat): seq<GraphItem> {
    if k == 0 then [] else Output(rows, k - 1) + ListPage(rows, Int32(k), 100)
  }

  predicate IsShort(rows: seq<GraphItem>, k: nat) {
    |ListPage(rows, Int32(k), 100)| < 100
  }

  /** The command stops after page k: the first short page. */
  ghost predicate StopsAfter(rows: seq<GraphItem>, k: nat) {
    k > 0 && IsShort(rows, k) && forall l :: 0 < l < k ==> !IsShort(rows, l)
  }

  lemma {:induction false} OutputIs(rows: seq<GraphItem>, k: nat)
    requires 100 * k <= ROW_LIMIT
    ensures Output(rows, k) == rows[..Min(100 * k, |rows|)]
  {
    if k > 0 {
      OutputIs(rows, k - 1);
      PageIs(rows, k - 1);
    }
  }

  lemma {:induction false} OutputGrows(rows: seq<GraphItem>, k: nat, l: nat)
    requires k <= l
    ensures Output(rows, k) <= Output(rows, l)
  {
    if k < l {
      OutputGrows(rows, k, l - 1);
    }
  }

  /** With fewer rows than the limit the command stops after one page more than there are full pages. */
  lemma StopsBelowLimit(rows: seq<GraphItem>)
    requires |rows| < ROW_LIMIT
    ensures StopsAfter(rows, |rows| / 100 + 1) && Output(rows, |rows| / 100 + 1) == rows
  {
    hide ListPage, Output, IsShort, Int32;
    var k := |rows| / 100;
    IsShortIs(rows, k);
    OutputIs(rows, k + 1);
    forall l | 0 < l < k + 1 ensures !IsShort(rows, l) { IsShortIs(rows, l - 1); }
    assert rows[..|rows|] == rows;
  }

  /** On the pages that the command reads then, neither the page number nor the offset wraps around. */
  lemma NothingWraps(rows: seq<GraphItem>, k: nat)
    requires |rows| < ROW_LIMIT && 0 < k <= |rows| / 100 + 1
    ensures Int32(k) == k && Int32((k - 1) * 100) == (k - 1) * 100
  {
  }

  lemma IsShortIs(rows: seq<GraphItem>, k: nat)
    requires 100 * k < 0x8000_0000
    ensures IsShort(rows, k + 1) <==> |rows| < 100 * k + 100
  {
    PageIs(rows, k);
  }

  lemma StopsOnce(rows: seq<GraphItem>, k: nat, l: nat)
    requires StopsAfter(rows, k) && StopsAfter(rows, l)
    ensures k == l
  {
  }

  lemma OutputStep(rows: seq<GraphItem>)
    ensures Output(rows, 21474838) == Output(rows, 21474837) + ListPage(rows, Int32(21474837 + 1), 100)
  {
  }

  lemma RepeatsAtLimit(rows: seq<GraphItem>, k: nat)
    requires Distinct(rows) && |rows| >= ROW_LIMIT && StopsAfter(rows, k)
    ensures Output(rows, k) != rows
  {
    hide ListPage, Output, IsShort;
    forall l: nat | 0 < l <= 21474837 ensures !IsShort(rows, l) { IsShortIs(rows, l - 1); }
    OutputStep(rows);
    PageWraps(rows);
    OutputIs(rows, 21474837);
    OutputGrows(rows, 21474838, k);
    assert Output(rows, 21474838) == rows[..ROW_LIMIT] + rows[..100];
    assert Output(rows, k)[0] == rows[0] && Output(rows, k)[ROW_LIMIT] == rows[0];
    if |rows| > ROW_LIMIT {
      assert rows[ROW_LIMIT] != rows[0];
    }
  }

  /**
   The command stops having written every row once, in order, if and only if there are fewer than 2147483700 rows:
   all that 21474837 pages can hold before the offset wraps around.
   */
  lemma CommandIsComplete(rows: seq<GraphItem>)
    requires Distinct(rows)
    ensures (exists k :: StopsAfter(rows, k) && Output(rows, k) == rows) <==> |rows| < ROW_LIMIT
  {
    if |rows| < ROW_LIMIT {
      StopsBelowLimit(rows);
    } else {
      forall k | StopsAfter(rows, k) ensures Output(rows, k) != rows { RepeatsAtLimit(rows, k); }
    }
  }

  /** What a command that lists the modules of a table is meant to write: the live ones, each once. */
  ghost predicate AreLiveModules(t: GraphTable, items: seq<GraphItem>) {
    && Distinct(items)
    && forall item :: item in items
         <==> Live(t, item.key) && item.key.itemType == ModuleType && t[item.key].data == item.data
  }

  /** The command writes the live modules if and only if no module of the table is deleted: List does not ask. */
  lemma WritesLiveIff(t: GraphTable, rows: seq<GraphItem>, k: nat)
    requires ListsModules(t, rows) && |rows| < ROW_LIMIT && StopsAfter(rows, k)
    ensures AreLiveModules(t, Output(rows, k)) <==> forall pk :: pk in t && pk.itemType == ModuleType ==> !t[pk].deleted
  {
    hide StopsAfter, Output;
    StopsBelowLimit(rows);
    StopsOnce(rows, k, |rows| / 100 + 1);
    if AreLiveModules(t, Output(rows, k)) {
      forall pk | pk in t && pk.itemType == ModuleType ensures !t[pk].deleted {
        var item: GraphItem := Item(pk, t[pk].data);
        assert item in rows;
      }
    }
  }

  /** In a store that Track runs produce, the command writes every live module once. */
  lemma WritesEveryModule(runs: seq<Run>, rows: seq<GraphItem>, k: nat)
    requires ListsModules(AfterRuns(map[], runs), rows) && |rows| < ROW_LIMIT && StopsAfter(rows, k)
    ensures AreLiveModules(AfterRuns(map[], runs), Output(rows, k))
  {
    hide StopsAfter, Output, AfterRuns;
    RunsKeepSound(runs);
    WritesLiveIff(AfterRuns(map[], runs), rows, k);
  }

  // ---- Whether the command stops at all ----

  /** Offsets are multiples of four, so the last rows that any page starts at are those from 2147483644 on. */
  lemma OffsetBound(page: int)
    ensures Int32((Max(page, 1) - 1) * 100) <= 2147483644
  {
    var quarter := 25 * (Max(page, 1) - 1) + 0x2000_0000;
    var wraps := (4 * quarter) / 0x1_0000_0000;
    assert 4 * quarter - 0x1_0000_0000 * wraps < 0x1_0000_0000;
    assert quarter - 0x4000_0000 * wraps < 0x4000_0000;
  }

  lemma NeverShort(rows: seq<GraphItem>, k: nat)
    requires |rows| >= 2147483744
    ensures !IsShort(rows, k)
  {
    OffsetBound(Int32(k));
  }

  lemma {:induction false} FirstShort(rows: seq<GraphItem>, k: nat)
    requires k > 0 && IsShort(rows, k)
    ensures exists l :: StopsAfter(rows, l)
  {
    hide IsShort;
    if !StopsAfter(rows, k) {
      var l :| 0 < l < k && IsShort(rows, l);
      FirstShort(rows, l);
    }
  }

  /** The command stops if and only if there are fewer than 2147483744 rows: every page of a larger store is full. */
  lemma CommandStops(rows: seq<GraphItem>)
    ensures (exists k :: StopsAfter(rows, k)) <==> |rows| < 2147483744
  {
    if |rows| < 2147483744 {
      assert Int32((493921240 - 1) * 100) == 2147483644;
      assert IsShort(rows, 493921240);
      FirstShort(rows, 493921240);
    } else {
      forall k ensures !StopsAfter(rows, k) { if k > 0 { NeverShort(rows, k); } }
    }
  }

  /** The command, on the stores on which it stops. */
  method ModulesCommand(rows: seq<GraphItem>) returns (written: seq<GraphItem>, pages: nat)
    requires |rows| < 2147483744
    ensures StopsAfter(rows, pages) && written == Output(rows, pages)
  {
    hide ListPage, Int32;
    var pageSize, i := 100, 1;
    written := [];
    CommandStops(rows);
    ghost var last: nat :| StopsAfter(rows, last);
    while true
      invariant 1 <= i <= last && written == Output(rows, i - 1)
      invariant forall l :: 0 < l < i ==> !IsShort(rows, l)
      decreases last - i
    {
      var response := ListPage(rows, Int32(i), pageSize);
      written := written + response;
      if |response| < pageSize {
        break;
      }
      i := i + 1;
    }
    pages := i;
  }
}
