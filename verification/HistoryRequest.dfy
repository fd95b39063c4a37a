/** The history request of coins with stored history: a page is taken in storage, and then a page of that
    page when the response is built. */
module HistoryRequest {
  import opened Paging
  import opened TxHistoryStorage

  type ShownDetails = Paging.Details<string, TxHistoryStorage.Details>

  function ForResponse(txs: seq<TxHistoryStorage.Details>): (r: seq<ShownDetails>)
    ensures |r| == |txs|
  {
    seq(|txs|, i requires 0 <= i < |txs| => Paging.Details(txs[i].internalId, txs[i].blockHeight, txs[i]))
  }

  /** What the request answers: both layers get the same paging options and the same limit. */
  function Answer(rows: seq<Row>, token: string, paging: PagingOptions<string>, limit: nat, currentBlock: nat)
    : Response<string, TxHistoryStorage.Details>
    requires paging.PageNumber? ==> paging.page >= 1
  {
    BuildResponse(ForResponse(History(rows, token, paging, limit).transactions), paging, limit, currentBlock)
  }

  /** A stored page is never longer than the limit. */
  lemma StoredPageFits(rows: seq<Row>, token: string, paging: PagingOptions<string>, limit: nat)
    requires paging.PageNumber? ==> paging.page >= 1
    ensures |History(rows, token, paging, limit).transactions| <= limit
  {
    hide Sorted, OfToken, RowNumber;
  }

  /** The second paging keeps a page only if it does not skip anything in it: the first page comes through
      whole, every later page comes out empty. */
  lemma PagedTwice(rows: seq<Row>, token: string, page: nat, limit: nat, currentBlock: nat)
    requires page >= 1
    ensures var stored := ForResponse(History(rows, token, PageNumber(page), limit).transactions);
            Answer(rows, token, PageNumber(page), limit, currentBlock).transactions ==
            if page == 1 then WithConfirmations(stored, currentBlock) else []
  {
    hide Sorted, OfToken, RowNumber, WithConfirmations, ForResponse, CalcTotalPages, History;
    StoredPageFits(rows, token, PageNumber(page), limit);
    var stored := ForResponse(History(rows, token, PageNumber(page), limit).transactions);
    NothingConfirmed<string, TxHistoryStorage.Details>(currentBlock);
    if page == 1 {
      assert Page(stored, 0, limit) == stored;
    } else {
      Multiples(page - 1, limit);
      assert (page - 1) * limit >= limit by { AtLeastOnce(page - 1, limit); }
      assert Page(stored, (page - 1) * limit, limit) == [];
    }
  }

  lemma AtLeastOnce(k: nat, limit: nat)
    requires k >= 1
    ensures k * limit >= limit
  {
  }

  /** Going on from an id: storage starts right behind it, so the id is not on the page and the second
      paging finds nothing. */
  lemma ContinuedTwice(rows: seq<Row>, token: string, id: string, limit: nat, currentBlock: nat)
    requires Table(rows)
    ensures Answer(rows, token, FromId(id), limit, currentBlock).transactions == []
  {
    var stored := History(rows, token, FromId(id), limit).transactions;
    forall i | 0 <= i < |stored| ensures stored[i].internalId != id {
      BehindId(rows, token, id, limit, i);
    }
    UnknownIdGivesNothing(ForResponse(stored), id, limit, currentBlock);
  }

  lemma BehindId(rows: seq<Row>, token: string, id: string, limit: nat, i: nat)
    requires Table(rows) && i < |History(rows, token, FromId(id), limit).transactions|
    ensures History(rows, token, FromId(id), limit).transactions[i].internalId != id
  {
    hide Sorted, OfToken, RowNumber, Ordered, KeysGrow, Agrees;
    var s := Sorted(OfToken(rows, token));
    HistoryOrder(rows, token);
    RowNumberIs(s, id);
    var k: nat :| k < |s| && s[k].internalId == id;
    AgreesIn(rows, s, k + 1 + i);
  }

  /** The answer shows the stored page exactly when that page is empty or the first one was asked for. */
  lemma ShowsStoredPageIff(rows: seq<Row>, token: string, paging: PagingOptions<string>, limit: nat, currentBlock: nat)
    requires Table(rows) && (paging.PageNumber? ==> paging.page >= 1)
    ensures var stored := History(rows, token, paging, limit).transactions;
            Answer(rows, token, paging, limit, currentBlock).transactions == WithConfirmations(ForResponse(stored), currentBlock) <==>
            stored == [] || paging == PageNumber(1)
    ensures paging == PageNumber(1) ==>
              var stored := History(rows, token, paging, limit).transactions;
              var shown := Answer(rows, token, paging, limit, currentBlock).transactions;
              && |shown| == |stored|
              && forall i :: 0 <= i < |shown| ==>
                   && shown[i].details.body == stored[i] && shown[i].details.internalId == stored[i].internalId
                   && (shown[i].confirmations > 0 <==> 1 <= stored[i].blockHeight <= currentBlock)
                   && (shown[i].confirmations > 0 ==> stored[i].blockHeight + shown[i].confirmations == currentBlock + 1)
  {
    hide Sorted, OfToken, RowNumber, CalcTotalPages, History, Answer, Table;
    var stored := ForResponse(History(rows, token, paging, limit).transactions);
    assert |WithConfirmations(stored, currentBlock)| == |stored|;
    match paging
    case PageNumber(page) => PagedTwice(rows, token, page, limit, currentBlock);
    case FromId(id) => ContinuedTwice(rows, token, id, limit, currentBlock);
  }

  /** The number of transactions it reports is that of the page. It is the whole history's exactly when
      there is none, or when the first page holds it all. */
  lemma ReportedTotal(rows: seq<Row>, token: string, paging: PagingOptions<string>, limit: nat, currentBlock: nat)
    requires Table(rows) && (paging.PageNumber? ==> paging.page >= 1)
    ensures var stored := History(rows, token, paging, limit);
            && Answer(rows, token, paging, limit, currentBlock).total == |stored.transactions|
            && (|stored.transactions| == stored.total <==> stored.total == 0 || (paging == PageNumber(1) && limit >= stored.total))
  {
    hide Sorted, OfToken, RowNumber, Ordered, Table, IdsUnique, Stores, WithConfirmations, CalcTotalPages;
    var s := Sorted(OfToken(rows, token));
    HistoryOrder(rows, token);
    match paging
    case PageNumber(page) =>
      if page > 1 {
        AtLeastOnce(page - 1, limit);
      }
      PageLength(s, (page - 1) * limit, limit);
    case FromId(id) =>
      RowNumberIs(s, id);
      RowNumberPositive(s, id);
      if RowNumber(s, id).Some? {
        PageLength(s, RowNumber(s, id).value, limit);
      }
  }

  lemma PageLength<T>(s: seq<T>, skipped: nat, limit: nat)
    ensures |Page(s, skipped, limit)| == |s| <==> |s| == 0 || (skipped == 0 && limit >= |s|)
  {
  }

  lemma RowNumberPositive(s: seq<Row>, id: string)
    ensures RowNumber(s, id).Some? ==> RowNumber(s, id).value >= 1
  {
  }
}
