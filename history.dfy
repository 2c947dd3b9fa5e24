/** `get_history_items` of main.py: messages.getHistory is asked for pages
    at offsets `offset`, `offset + count`, `offset + 2 * count`, ... until a
    page comes back empty; a call that raises ends the run. The API is the
    function `history` from an offset to the page it answers with. */
module History {
  import opened Types

  /** The default `count` of `get_history_items`. */
  const PAGE_SIZE := 200

  /** A page that ends the paging: the call raised, or no items came back. */
  predicate Stops(p: PageResult) {
    p.PageFailed? || p.items == []
  }

  /** The offset of the `n`-th request. */
  function OffsetAt(offset: int, count: int, n: nat): int {
    offset + n * count
  }

  function PageItems(p: PageResult): seq<HistoryItem> {
    if p.Page? then p.items else []
  }

  /** The messages of the first `k` pages, in the order they came. */
  function Collected(history: int -> PageResult, offset: int, count: int, k: nat): seq<HistoryItem> {
    if k == 0 then []
    else Collected(history, offset, count, k - 1) + PageItems(history(OffsetAt(offset, count, k - 1)))
  }

  /** Messages gathered earlier stay where they were as more pages arrive. */
  lemma {:induction false} CollectedPrefix(history: int -> PageResult, offset: int, count: int, j: nat, k: nat)
    requires j <= k
    ensures |Collected(history, offset, count, j)| <= |Collected(history, offset, count, k)|
    ensures Collected(history, offset, count, k)[..|Collected(history, offset, count, j)|]
            == Collected(history, offset, count, j)
    decreases k - j
  {
    if j < k {
      CollectedPrefix(history, offset, count, j, k - 1);
      var a := Collected(history, offset, count, k - 1);
      var b := PageItems(history(OffsetAt(offset, count, k - 1)));
      assert (a + b)[..|a|] == a;
    }
  }

  /** When every page before the `k`-th is full, `k` pages hold `k * count` messages. */
  lemma {:induction false} CollectedFullPages(history: int -> PageResult, offset: int, count: nat, k: nat)
    requires forall j: nat :: j < k ==> |PageItems(history(OffsetAt(offset, count, j)))| == count
    ensures |Collected(history, offset, count, k)| == k * count
  {
    if k > 0 {
      CollectedFullPages(history, offset, count, k - 1);
      assert (k - 1) * count + count == k * count;
    }
  }

  /** `get_history_items(peer_id, offset, count)`. `requested` lists the
      offsets asked for, in order. Paging stops at the first page that is
      empty or fails, which must exist for the loop to end. */
  method GetHistoryItems(history: int -> PageResult, offset: int, count: int)
    returns (r: Result<seq<HistoryItem>>, requested: seq<int>)
    requires exists n: nat :: Stops(history(OffsetAt(offset, count, n)))
    ensures |requested| >= 1
    ensures forall j :: 0 <= j < |requested| ==> requested[j] == OffsetAt(offset, count, j)
    ensures forall j :: 0 <= j < |requested| - 1 ==> !Stops(history(requested[j]))
    ensures Stops(history(requested[|requested| - 1]))
    ensures r.Ok? <==> history(requested[|requested| - 1]).Page?
    ensures r.Ok? ==> r.value == Collected(history, offset, count, |requested| - 1)
    ensures r.Err? ==> r.failure == HistoryFetchFailed
  {
    ghost var n: nat :| Stops(history(OffsetAt(offset, count, n)));
    var historyItems: seq<HistoryItem> := [];
    var off := offset;
    requested := [];
    while true
      invariant |requested| <= n
      invariant off == OffsetAt(offset, count, |requested|)
      invariant forall j :: 0 <= j < |requested| ==> requested[j] == OffsetAt(offset, count, j)
      invariant forall j :: 0 <= j < |requested| ==> !Stops(history(requested[j]))
      invariant historyItems == Collected(history, offset, count, |requested|)
      decreases n - |requested|
    {
      var response := history(off);
      requested := requested + [off];
      if response.PageFailed? {
        return Err(HistoryFetchFailed), requested;
      }
      if response.items == [] {
        return Ok(historyItems), requested;
      }
      historyItems := historyItems + response.items;
      assert OffsetAt(offset, count, |requested|) == off + count;
      off := off + count;
    }
  }
}
