/** Pages over a list, and the history response built from them. */
module Paging {
  import opened Options

  datatype PagingOptions<+Id> = FromId(id: Id) | PageNumber(page: nat)

  function CalcTotalPages(entries: nat, limit: nat): nat {
    if limit == 0 then 0
    else if entries % limit == 0 then entries / limit
    else entries / limit + 1
  }

  /** Skip, then take; both stop at the end of the list. */
  function Page<T>(s: seq<T>, skipped: nat, limit: nat): seq<T> {
    if skipped >= |s| then []
    else if skipped + limit >= |s| then s[skipped..]
    else s[skipped..skipped + limit]
  }

  /** The first `k` pages, one after the other. */
  function FirstPages<T>(s: seq<T>, limit: nat, k: nat): seq<T> {
    if k == 0 then [] else FirstPages(s, limit, k - 1) + Page(s, (k - 1) * limit, limit)
  }

  lemma {:induction false} FirstPagesArePrefix<T>(s: seq<T>, limit: nat, k: nat)
    ensures FirstPages(s, limit, k) == if k * limit <= |s| then s[..k * limit] else s
  {
    if k > 0 {
      FirstPagesArePrefix(s, limit, k - 1);
      Multiples(k, limit);
      PageContinues(s, (k - 1) * limit, limit);
    }
  }

  lemma Multiples(k: nat, limit: nat)
    requires k > 0
    ensures k * limit == (k - 1) * limit + limit
  {
  }

  lemma PageContinues<T>(s: seq<T>, skipped: nat, limit: nat)
    ensures (if skipped <= |s| then s[..skipped] else s) + Page(s, skipped, limit) ==
            if skipped + limit <= |s| then s[..skipped + limit] else s
  {
  }

  lemma TotalPagesCover(entries: nat, limit: nat)
    requires limit >= 1
    ensures CalcTotalPages(entries, limit) * limit >= entries
    ensures entries > 0 ==>
      CalcTotalPages(entries, limit) >= 1 && (CalcTotalPages(entries, limit) - 1) * limit < entries
  {
    var q, r := entries / limit, entries % limit;
    assert entries == q * limit + r;
    if r > 0 {
      Multiples(q + 1, limit);
    } else if q > 0 {
      Multiples(q, limit);
    }
  }

  /** Pages one to the last make up the whole list, and the last page is not empty. */
  lemma PagesTile<T>(s: seq<T>, limit: nat)
    requires limit >= 1
    ensures FirstPages(s, limit, CalcTotalPages(|s|, limit)) == s
    ensures s != [] ==>
      CalcTotalPages(|s|, limit) >= 1 && Page(s, (CalcTotalPages(|s|, limit) - 1) * limit, limit) != []
  {
    hide CalcTotalPages, FirstPages;
    var pages := CalcTotalPages(|s|, limit);
    TotalPagesCover(|s|, limit);
    FirstPagesArePrefix(s, limit, pages);
    if pages * limit == |s| {
      assert s[..pages * limit] == s;
    }
  }

  /** The page behind the last entry of page `k` is page `k + 1`. */
  lemma PageBehindLast<T>(s: seq<T>, k: nat, limit: nat)
    requires k >= 1 && Page(s, (k - 1) * limit, limit) != []
    ensures var page := Page(s, (k - 1) * limit, limit);
            var at := (k - 1) * limit + |page| - 1;
            at < |s| && page[|page| - 1] == s[at] && Page(s, at + 1, limit) == Page(s, (k + 1 - 1) * limit, limit)
  {
    Multiples(k, limit);
    var skipped := (k - 1) * limit;
    assert (k + 1 - 1) * limit == skipped + limit;
  }

  // ---- The response ----

  datatype Details<Id, Body> = Details(internalId: Id, blockHeight: nat, body: Body)

  datatype Entry<Id, Body> = Entry(confirmations: nat, details: Details<Id, Body>)

  datatype Response<Id, Body> = Response(transactions: seq<Entry<Id, Body>>, skipped: nat, total: nat, totalPages: nat)

  function Position<Id(==), Body>(history: seq<Details<Id, Body>>, id: Id): Option<nat> {
    if history == [] then None
    else if history[0].internalId == id then Some(0)
    else match Position(history[1..], id)
      case None => None
      case Some(i) => Some(i + 1)
  }

  function SkippedByPaging<Id(==), Body>(history: seq<Details<Id, Body>>, paging: PagingOptions<Id>, limit: nat): Option<nat>
    requires paging.PageNumber? ==> paging.page >= 1
  {
    match paging
    case FromId(id) =>
      (match Position(history, id)
       case None => None
       case Some(i) => Some(i + 1))
    case PageNumber(page) => Some((page - 1) * limit)
  }

  function Confirmations(height: nat, currentBlock: nat): nat {
    if height == 0 || height > currentBlock then 0 else currentBlock + 1 - height
  }

  function WithConfirmations<Id, Body>(page: seq<Details<Id, Body>>, currentBlock: nat): seq<Entry<Id, Body>> {
    seq(|page|, i requires 0 <= i < |page| => Entry(Confirmations(page[i].blockHeight, currentBlock), page[i]))
  }

  function BuildResponse<Id(==), Body>(history: seq<Details<Id, Body>>, paging: PagingOptions<Id>, limit: nat, currentBlock: nat): Response<Id, Body>
    requires paging.PageNumber? ==> paging.page >= 1
  {
    var total, pages := |history|, CalcTotalPages(|history|, limit);
    match SkippedByPaging(history, paging, limit)
    case Some(skipped) => Response(WithConfirmations(Page(history, skipped, limit), currentBlock), skipped, total, pages)
    case None => Response([], 0, total, pages)
  }

  ghost predicate UniqueIds<Id, Body>(history: seq<Details<Id, Body>>) {
    forall i, j :: 0 <= i < j < |history| ==> history[i].internalId != history[j].internalId
  }

  lemma {:induction false} PositionOf<Id, Body>(history: seq<Details<Id, Body>>, id: Id)
    ensures match Position(history, id)
            case None => forall i :: 0 <= i < |history| ==> history[i].internalId != id
            case Some(k) => k < |history| && history[k].internalId == id && forall i :: 0 <= i < k ==>
              history[i].internalId != id
  {
    if history != [] {
      PositionOf(history[1..], id);
      assert forall i :: 0 < i < |history| ==> history[i] == history[1..][i - 1];
    }
  }

  /** Going on from the last entry of a page is asking for the next page. */
  lemma FromIdContinues<Id, Body>(history: seq<Details<Id, Body>>, k: nat, limit: nat, currentBlock: nat)
    requires k >= 1 && UniqueIds(history)
    requires BuildResponse(history, PageNumber(k), limit, currentBlock).transactions != []
    ensures var page := BuildResponse(history, PageNumber(k), limit, currentBlock).transactions;
            var id := page[|page| - 1].details.internalId;
            BuildResponse(history, FromId(id), limit, currentBlock).transactions ==
            BuildResponse(history, PageNumber(k + 1), limit, currentBlock).transactions
  {
    hide Page, CalcTotalPages, Position;
    var page := Page(history, (k - 1) * limit, limit);
    var at := (k - 1) * limit + |page| - 1;
    PageBehindLast(history, k, limit);
    PositionUnique(history, at);
  }

  lemma PositionUnique<Id, Body>(history: seq<Details<Id, Body>>, at: nat)
    requires UniqueIds(history) && at < |history|
    ensures Position(history, history[at].internalId) == Some(at)
  {
    PositionOf(history, history[at].internalId);
  }

  /** An id that is not there gives nothing. */
  lemma UnknownIdGivesNothing<Id, Body>(history: seq<Details<Id, Body>>, id: Id, limit: nat, currentBlock: nat)
    requires forall i :: 0 <= i < |history| ==> history[i].internalId != id
    ensures BuildResponse(history, FromId(id), limit, currentBlock).transactions == []
  {
    PositionOf(history, id);
  }

  /** The transactions of pages one to `k`, as the responses give them. */
  ghost function Shown<Id, Body>(history: seq<Details<Id, Body>>, limit: nat, currentBlock: nat, k: nat): seq<Entry<Id, Body>> {
    if k == 0 then [] else
      Shown(history, limit, currentBlock, k - 1) + BuildResponse(history, PageNumber(k), limit, currentBlock).transactions
  }

  lemma {:induction false} ShownAreFirstPages<Id, Body>(history: seq<Details<Id, Body>>, limit: nat, currentBlock: nat,
                                                        k: nat)
    ensures Shown(history, limit, currentBlock, k) == WithConfirmations(FirstPages(history, limit, k), currentBlock)
  {
    hide WithConfirmations, Page, CalcTotalPages, Position;
    if k > 0 {
      ShownAreFirstPages(history, limit, currentBlock, k - 1);
      ConfirmationsConcat(FirstPages(history, limit, k - 1), Page(history, (k - 1) * limit, limit), currentBlock);
    } else {
      NothingConfirmed<Id, Body>(currentBlock);
    }
  }

  lemma NothingConfirmed<Id, Body>(currentBlock: nat)
    ensures WithConfirmations<Id, Body>([], currentBlock) == []
  {
  }

  lemma ConfirmationsConcat<Id, Body>(a: seq<Details<Id, Body>>, b: seq<Details<Id, Body>>, currentBlock: nat)
    ensures WithConfirmations(a + b, currentBlock) == WithConfirmations(a, currentBlock) + WithConfirmations(b, currentBlock)
  {
  }

  /** Every entry shown is the one of the history that many places behind the skipped ones, and its
      confirmations count the blocks from its own to the current one, both included; a transaction without
      a block, or above the current one, has none. */
  lemma EntriesShown<Id, Body>(history: seq<Details<Id, Body>>, paging: PagingOptions<Id>, limit: nat,
                               currentBlock: nat)
    requires paging.PageNumber? ==> paging.page >= 1
    ensures var r := BuildResponse(history, paging, limit, currentBlock);
            && r.total == |history|
            && forall i :: 0 <= i < |r.transactions| ==>
                 var entry := r.transactions[i];
                 && r.skipped + i < |history| && entry.details == history[r.skipped + i]
                 && (entry.confirmations > 0 <==> 1 <= entry.details.blockHeight <= currentBlock)
                 && (entry.confirmations > 0 ==> entry.details.blockHeight + entry.confirmations == currentBlock + 1)
  {
  }

  /** Asking for every page in turn shows every transaction once, in order, with its confirmations. */
  lemma ResponsesTile<Id, Body>(history: seq<Details<Id, Body>>, limit: nat, currentBlock: nat,
                                request: PagingOptions<Id>)
    requires limit >= 1 && (request.PageNumber? ==> request.page >= 1)
    ensures var pages := BuildResponse(history, request, limit, currentBlock).totalPages;
            var shown := Shown(history, limit, currentBlock, pages);
            && |shown| == |history|
            && forall i :: 0 <= i < |history| ==>
                 && shown[i].details == history[i]
                 && (shown[i].confirmations > 0 <==> 1 <= history[i].blockHeight <= currentBlock)
                 && (shown[i].confirmations > 0 ==> history[i].blockHeight + shown[i].confirmations == currentBlock + 1)
  {
    PagesTile(history, limit);
    ShownAreFirstPages(history, limit, currentBlock, CalcTotalPages(|history|, limit));
  }
}
