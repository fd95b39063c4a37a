/** The transaction history tables: what every run of inserts, updates and removals keeps, and how the
    stored rows are paged. */
module TxHistoryStorage {
  import opened Options
  import Paging

  datatype Details = Details(
    txHash: string, internalId: string, blockHeight: nat, token: Option<string>, txHex: string, more: string)

  /** A row of the history table; `id` is the integer primary key. */
  datatype Row = Row(
    id: nat, txHash: string, internalId: string, height: nat, status: nat, token: string, details: Details)

  function StatusOf(height: nat): nat {
    if height > 0 then 1 else 0
  }

  function TokenColumn(tx: Details): string {
    if tx.token.Some? then tx.token.value else ""
  }

  function RowFor(id: nat, tx: Details): Row {
    Row(id, tx.txHash, tx.internalId, tx.blockHeight, StatusOf(tx.blockHeight), TokenColumn(tx), tx)
  }

  /** The key a new row gets: one above the largest. */
  function NextId(rows: seq<Row>): nat {
    if rows == [] then 1 else rows[|rows| - 1].id + 1
  }

  predicate Stores(rows: seq<Row>, internalId: string) {
    exists i :: 0 <= i < |rows| && rows[i].internalId == internalId
  }

  // ---- What the history table always is ----

  ghost predicate KeysGrow(rows: seq<Row>) {
    forall i, j :: 0 <= i < j < |rows| ==> rows[i].id < rows[j].id
  }

  ghost predicate IdsUnique(rows: seq<Row>) {
    forall i, j :: 0 <= i < j < |rows| ==> rows[i].internalId != rows[j].internalId
  }

  /** The columns agree with the stored details. */
  ghost predicate Agrees(r: Row) {
    r.internalId == r.details.internalId && r.height == r.details.blockHeight && r.status == StatusOf(r.height)
  }

  ghost predicate Table(rows: seq<Row>) {
    KeysGrow(rows) && IdsUnique(rows) && forall i :: 0 <= i < |rows| ==> Agrees(rows[i])
  }

  /** The two columns an update never writes also agree with the stored details. */
  ghost predicate KeptColumnsAgree(rows: seq<Row>) {
    forall i :: 0 <= i < |rows| ==>
      rows[i].txHash == rows[i].details.txHash && rows[i].token == TokenColumn(rows[i].details)
  }

  // ---- Inserting ----

  function Appended(rows: seq<Row>, txs: seq<Details>): seq<Row> {
    if txs == [] then rows else
      var before := Appended(rows, txs[..|txs| - 1]);
      before + [RowFor(NextId(before), txs[|txs| - 1])]
  }

  /** The first bytes stored under a hash stay. */
  function Cached(cache: map<string, string>, txs: seq<Details>): map<string, string> {
    if txs == [] then cache else
      var before, tx := Cached(cache, txs[..|txs| - 1]), txs[|txs| - 1];
      if tx.txHash in before then before else before[tx.txHash := tx.txHex]
  }

  ghost predicate AllNew(rows: seq<Row>, txs: seq<Details>) {
    && (forall i, j :: 0 <= i < j < |txs| ==> txs[i].internalId != txs[j].internalId)
    && (forall i :: 0 <= i < |txs| ==> !Stores(rows, txs[i].internalId))
  }

  lemma {:induction false} StoredAfter(rows: seq<Row>, txs: seq<Details>, internalId: string)
    ensures Stores(Appended(rows, txs), internalId) <==>
            Stores(rows, internalId) || exists i :: 0 <= i < |txs| && txs[i].internalId == internalId
  {
    if txs != [] {
      var n := |txs| - 1;
      var before, all := Appended(rows, txs[..n]), Appended(rows, txs);
      StoredAfter(rows, txs[..n], internalId);
      assert all[|before|].internalId == txs[n].internalId;
      assert forall i :: 0 <= i < |before| ==> all[i] == before[i];
      if i :| 0 <= i < n && txs[..n][i].internalId == internalId {
        assert txs[i].internalId == internalId;
      }
      if i :| 0 <= i < |txs| && txs[i].internalId == internalId {
        assert i < n ==> txs[..n][i].internalId == internalId;
      }
      if Stores(before, internalId) {
        var i :| 0 <= i < |before| && before[i].internalId == internalId;
        assert all[i].internalId == internalId;
      }
    }
  }

  lemma TableAppend(rows: seq<Row>, tx: Details)
    requires Table(rows) && !Stores(rows, tx.internalId)
    ensures Table(rows + [RowFor(NextId(rows), tx)])
    ensures KeptColumnsAgree(rows) ==> KeptColumnsAgree(rows + [RowFor(NextId(rows), tx)])
  {
  }

  /** One more transaction is accepted exactly when its id is not among the rows so far. */
  lemma OneMore(rows: seq<Row>, txs: seq<Details>, i: nat)
    requires i < |txs| && AllNew(rows, txs[..i])
    ensures !Stores(Appended(rows, txs[..i]), txs[i].internalId) <==> AllNew(rows, txs[..i + 1])
  {
    StoredAfter(rows, txs[..i], txs[i].internalId);
    var a, b := txs[..i], txs[..i + 1];
    assert b == a + [txs[i]];
    if AllNew(rows, b) {
      assert !Stores(rows, b[i].internalId);
      forall k | 0 <= k < |a| ensures a[k].internalId != txs[i].internalId {
        assert b[k].internalId != b[i].internalId;
      }
    }
  }

  lemma PrefixNew(rows: seq<Row>, txs: seq<Details>, i: nat)
    requires i <= |txs| && AllNew(rows, txs)
    ensures AllNew(rows, txs[..i])
  {
    assert forall k :: 0 <= k < i ==> txs[..i][k] == txs[k];
  }

  lemma AppendedSnoc(rows: seq<Row>, cache: map<string, string>, txs: seq<Details>, i: nat)
    requires i < |txs|
    ensures var before := Appended(rows, txs[..i]); Appended(rows, txs[..i + 1]) == before + [RowFor(NextId(before), txs[i])]
    ensures var c := Cached(cache, txs[..i]);
            Cached(cache, txs[..i + 1]) == if txs[i].txHash in c then c else c[txs[i].txHash := txs[i].txHex]
  {
    assert txs[..i + 1][..i] == txs[..i];
  }

  /** The row of transaction `i` of a batch: its columns, read off the transaction, and its key. */
  lemma {:induction false} AppendedRow(rows: seq<Row>, txs: seq<Details>, i: nat)
    requires i < |txs|
    ensures |Appended(rows, txs)| == |rows| + |txs| && rows <= Appended(rows, txs)
    ensures var all, at := Appended(rows, txs), |rows| + i;
            var r := all[at];
            && r.details == txs[i] && r.txHash == txs[i].txHash && r.internalId == txs[i].internalId
            && r.height == txs[i].blockHeight && (r.status == 0 <==> r.height == 0) && r.status <= 1
            && (txs[i].token.None? ==> r.token == "") && (txs[i].token.Some? ==> r.token == txs[i].token.value)
            && r.id == if at == 0 then 1 else all[at - 1].id + 1
  {
    var n := |txs| - 1;
    var before := Appended(rows, txs[..n]);
    if n > 0 {
      AppendedRow(rows, txs[..n], if i < n then i else 0);
    }
    assert Appended(rows, txs) == before + [RowFor(NextId(before), txs[n])];
    if i < n {
      assert txs[..n][i] == txs[i];
    }
  }

  /** What was cached stays, and nothing is cached under a hash no transaction has. */
  lemma {:induction false} CachedStays(cache: map<string, string>, txs: seq<Details>, hash: string)
    ensures hash in cache ==> hash in Cached(cache, txs) && Cached(cache, txs)[hash] == cache[hash]
    ensures hash in Cached(cache, txs) ==> hash in cache || exists i :: 0 <= i < |txs| && txs[i].txHash == hash
  {
    if txs != [] {
      var n := |txs| - 1;
      CachedStays(cache, txs[..n], hash);
      if i :| 0 <= i < n && txs[..n][i].txHash == hash {
        assert txs[i].txHash == hash;
      }
    }
  }

  /** A new hash gets the bytes of the first transaction that has it. */
  lemma {:induction false} CachedFirst(cache: map<string, string>, txs: seq<Details>, i: nat)
    requires i < |txs| && txs[i].txHash !in cache && forall j :: 0 <= j < i ==> txs[j].txHash != txs[i].txHash
    ensures txs[i].txHash in Cached(cache, txs) && Cached(cache, txs)[txs[i].txHash] == txs[i].txHex
  {
    var n := |txs| - 1;
    assert forall j :: 0 <= j < n ==> txs[..n][j] == txs[j];
    if i < n {
      CachedFirst(cache, txs[..n], i);
    } else {
      CachedStays(cache, txs[..n], txs[i].txHash);
    }
  }

  // ---- Updating and removing ----

  function Update(r: Row, tx: Details): Row {
    if r.internalId == tx.internalId
    then r.(height := tx.blockHeight, status := StatusOf(tx.blockHeight), details := tx)
    else r
  }

  function Updated(rows: seq<Row>, tx: Details): (r: seq<Row>)
    ensures |r| == |rows|
  {
    seq(|rows|, i requires 0 <= i < |rows| => Update(rows[i], tx))
  }

  lemma UpdatedTable(rows: seq<Row>, tx: Details)
    requires Table(rows)
    ensures Table(Updated(rows, tx))
  {
    var after := Updated(rows, tx);
    assert forall i :: 0 <= i < |rows| ==> after[i].id == rows[i].id && after[i].internalId == rows[i].internalId;
  }

  /** The columns an update leaves alone stay right exactly when it keeps the hash and the token. */
  lemma UpdatedKeptColumns(rows: seq<Row>, tx: Details)
    requires Table(rows) && KeptColumnsAgree(rows)
    ensures KeptColumnsAgree(Updated(rows, tx)) <==>
            forall i :: 0 <= i < |rows| && rows[i].internalId == tx.internalId ==>
              rows[i].details.txHash == tx.txHash && TokenColumn(rows[i].details) == TokenColumn(tx)
  {
    var after := Updated(rows, tx);
    assert forall i :: 0 <= i < |rows| ==> after[i] == Update(rows[i], tx);
  }

  /** The rows a query selects, in table order. */
  function Select(rows: seq<Row>, where: Row -> bool): seq<Row> {
    if rows == [] then [] else
      var before, r := Select(rows[..|rows| - 1], where), rows[|rows| - 1];
      if where(r) then before + [r] else before
  }

  lemma {:induction false} SelectIs(rows: seq<Row>, where: Row -> bool)
    ensures forall r :: r in Select(rows, where) <==> r in rows && where(r)
  {
    if rows != [] {
      var n := |rows| - 1;
      SelectIs(rows[..n], where);
      assert rows == rows[..n] + [rows[n]];
    }
  }

  lemma {:induction false} SelectAll(rows: seq<Row>, where: Row -> bool)
    requires forall i :: 0 <= i < |rows| ==> where(rows[i])
    ensures Select(rows, where) == rows
  {
    if rows != [] {
      SelectAll(rows[..|rows| - 1], where);
    }
  }

  /** A selection is a table again. */
  lemma {:induction false} SelectTable(rows: seq<Row>, where: Row -> bool)
    requires Table(rows)
    ensures Table(Select(rows, where))
    ensures KeptColumnsAgree(rows) ==> KeptColumnsAgree(Select(rows, where))
  {
    SelectIs(rows, where);
    SelectGrows(rows, where);
    forall i | 0 <= i < |Select(rows, where)| ensures Select(rows, where)[i] in rows {
    }
  }

  lemma {:induction false} SelectGrows(rows: seq<Row>, where: Row -> bool)
    requires KeysGrow(rows) && IdsUnique(rows)
    ensures KeysGrow(Select(rows, where)) && IdsUnique(Select(rows, where))
  {
    if rows != [] {
      var n := |rows| - 1;
      var before := Select(rows[..n], where);
      SelectGrows(rows[..n], where);
      SelectIs(rows[..n], where);
      forall i | 0 <= i < |before| ensures before[i].id < rows[n].id && before[i].internalId != rows[n].internalId {
        InPrefix(rows, n, before[i]);
      }
    }
  }

  lemma InPrefix(rows: seq<Row>, n: nat, r: Row)
    requires KeysGrow(rows) && IdsUnique(rows) && n < |rows| && r in rows[..n]
    ensures r.id < rows[n].id && r.internalId != rows[n].internalId
  {
    var k :| 0 <= k < n && rows[k] == r;
  }

  function OtherThan(internalId: string): Row -> bool { (r: Row) => r.internalId != internalId }

  function HasToken(token: string): Row -> bool { (r: Row) => r.token == token }

  function NotConfirmed(): Row -> bool { (r: Row) => r.status == 0 }

  function Without(rows: seq<Row>, internalId: string): seq<Row> {
    Select(rows, OtherThan(internalId))
  }

  function OfToken(rows: seq<Row>, token: string): seq<Row> {
    Select(rows, HasToken(token))
  }

  function Unconfirmed(rows: seq<Row>): seq<Row> {
    Select(rows, NotConfirmed())
  }

  // ---- The order of the history ----

  /** Unconfirmed first, then higher blocks first, then older rows first. */
  predicate Before(a: Row, b: Row) {
    if a.status != b.status then a.status < b.status
    else if a.height != b.height then a.height > b.height
    else a.id < b.id
  }

  ghost predicate Ordered(s: seq<Row>) {
    forall i, j :: 0 <= i < j < |s| ==> Before(s[i], s[j])
  }

  function Insert(r: Row, s: seq<Row>): seq<Row> {
    if s == [] then [r]
    else if Before(r, s[0]) then [r] + s
    else [s[0]] + Insert(r, s[1..])
  }

  function Sorted(rows: seq<Row>): seq<Row> {
    if rows == [] then [] else Insert(rows[|rows| - 1], Sorted(rows[..|rows| - 1]))
  }

  lemma {:induction false} InsertBag(r: Row, s: seq<Row>)
    ensures multiset(Insert(r, s)) == multiset(s) + multiset{r}
  {
    if s != [] {
      InsertBag(r, s[1..]);
      assert s == [s[0]] + s[1..];
    }
  }

  lemma {:induction false} InsertOrdered(r: Row, s: seq<Row>)
    requires Ordered(s) && forall i :: 0 <= i < |s| ==> s[i].id != r.id
    ensures Ordered(Insert(r, s))
  {
    if s != [] && !Before(r, s[0]) {
      InsertOrdered(r, s[1..]);
      InsertBag(r, s[1..]);
      var rest := Insert(r, s[1..]);
      forall i | 0 <= i < |rest| ensures Before(s[0], rest[i]) {
        assert rest[i] in multiset(rest);
        assert rest[i] == r || rest[i] in s[1..];
      }
    }
  }

  lemma {:induction false} SortedIs(rows: seq<Row>)
    requires KeysGrow(rows)
    ensures Ordered(Sorted(rows)) && multiset(Sorted(rows)) == multiset(rows)
  {
    if rows != [] {
      var n := |rows| - 1;
      var s := Sorted(rows[..n]);
      SortedIs(rows[..n]);
      assert rows == rows[..n] + [rows[n]];
      forall i | 0 <= i < |s| ensures s[i].id != rows[n].id {
        assert s[i] in multiset(rows[..n]);
        var k :| 0 <= k < n && rows[k] == s[i];
      }
      InsertOrdered(rows[n], s);
      InsertBag(rows[n], s);
    }
  }

  /** There is only one such order. */
  lemma {:induction false} OrderUnique(a: seq<Row>, b: seq<Row>)
    requires Ordered(a) && Ordered(b) && multiset(a) == multiset(b)
    ensures a == b
    decreases |a|
  {
    assert |multiset(a)| == |a| && |multiset(b)| == |b|;
    if a != [] {
      SameFront(a, b);
      assert a == [a[0]] + a[1..] && b == [b[0]] + b[1..];
      assert multiset(a[1..]) == multiset(a) - multiset{a[0]};
      assert multiset(b[1..]) == multiset(b) - multiset{b[0]};
      OrderUnique(a[1..], b[1..]);
    }
  }

  lemma SameFront(a: seq<Row>, b: seq<Row>)
    requires Ordered(a) && Ordered(b) && multiset(a) == multiset(b) && a != [] && b != []
    ensures a[0] == b[0]
  {
    assert a[0] in multiset(b) && b[0] in multiset(a);
    var i :| 0 <= i < |b| && b[i] == a[0];
    var j :| 0 <= j < |a| && a[j] == b[0];
  }

  /** The order as the history shows it, by heights alone. */
  ghost predicate NewestFirst(s: seq<Row>) {
    forall i, j :: 0 <= i < j < |s| ==>
      if s[i].height == s[j].height then s[i].id < s[j].id
      else s[i].height == 0 || s[i].height > s[j].height > 0
  }

  /** The transactions of consecutive rows, `skipped` rows from the start. */
  ghost predicate ShownFrom(s: seq<Row>, skipped: nat, txs: seq<Details>) {
    forall i :: 0 <= i < |txs| ==> skipped + i < |s| && txs[i] == s[skipped + i].details
  }

  // ---- The storage ----

  datatype HistoryResult = HistoryResult(transactions: seq<Details>, skipped: nat, total: nat)

  function DetailsOf(rows: seq<Row>): seq<Details> {
    seq(|rows|, i requires 0 <= i < |rows| => rows[i].details)
  }

  /** One-based position of an id in an ordered selection. */
  function RowNumber(s: seq<Row>, internalId: string): Option<nat> {
    if s == [] then None
    else if s[0].internalId == internalId then Some(1)
    else match RowNumber(s[1..], internalId)
      case None => None
      case Some(i) => Some(i + 1)
  }

  function History(rows: seq<Row>, token: string, paging: Paging.PagingOptions<string>, limit: nat): HistoryResult
    requires paging.PageNumber? ==> paging.page >= 1
  {
    var s := Sorted(OfToken(rows, token));
    var offset := match paging
      case PageNumber(page) => Some((page - 1) * limit)
      case FromId(id) => RowNumber(s, id);
    match offset
    case Some(o) => HistoryResult(DetailsOf(Paging.Page(s, o, limit)), o, |OfToken(rows, token)|)
    case None => HistoryResult([], 0, |OfToken(rows, token)|)
  }

  class Storage {
    var history: seq<Row>
    var cache: map<string, string>

    ghost predicate Valid()
      reads this
    {
      Table(history)
    }

    constructor ()
      ensures Valid() && history == [] && cache == map[] && KeptColumnsAgree(history)
    {
      history, cache := [], map[];
    }

    /** Inserts a batch in one transaction: all of it, or, if an id is taken or repeated, nothing. */
    method AddTransactions(txs: seq<Details>) returns (ok: bool)
      requires Valid()
      modifies this
      ensures Valid() && (old(KeptColumnsAgree(history)) ==> KeptColumnsAgree(history))
      ensures ok <==> AllNew(old(history), txs)
      ensures ok ==> history == Appended(old(history), txs) && cache == Cached(old(cache), txs)
      ensures ok ==> |history| == |old(history)| + |txs| && old(history) <= history
      ensures ok ==> forall i :: 0 <= i < |txs| ==>
                var r, tx := history[|old(history)| + i], txs[i];
                && r.details == tx && r.txHash == tx.txHash && r.internalId == tx.internalId
                && r.height == tx.blockHeight && (r.status == 0 <==> tx.blockHeight == 0)
                && (tx.token.None? ==> r.token == "") && (tx.token.Some? ==> r.token == tx.token.value)
      ensures !ok ==> history == old(history) && cache == old(cache)
    {
      hide Stores, Appended, Cached, NextId, KeysGrow, IdsUnique, Agrees, StatusOf, TokenColumn;
      var rows, bytes := history, cache;
      NothingYet(history, cache, txs);
      var i := 0;
      while i < |txs|
        invariant history == old(history) && cache == old(cache)
        invariant i <= |txs| && AllNew(history, txs[..i]) && Table(rows)
        invariant rows == Appended(history, txs[..i]) && bytes == Cached(cache, txs[..i])
        invariant KeptColumnsAgree(history) ==> KeptColumnsAgree(rows)
      {
        var tx := txs[i];
        AppendedSnoc(history, cache, txs, i);
        OneMore(history, txs, i);
        if tx.txHash !in bytes {
          bytes := bytes[tx.txHash := tx.txHex];
        }
        if Stores(rows, tx.internalId) {
          DuplicateFails(history, txs, i);
          return false;
        }
        TableAppend(rows, tx);
        rows := rows + [RowFor(NextId(rows), tx)];
        i := i + 1;
      }
      assert txs[..i] == txs;
      BatchRows(history, txs);
      history, cache := rows, bytes;
      ok := true;
    }

    method RemoveTx(internalId: string) returns (removed: bool)
      requires Valid()
      modifies this`history
      ensures Valid() && (old(KeptColumnsAgree(history)) ==> KeptColumnsAgree(history))
      ensures removed <==> old(Stores(history, internalId))
      ensures !Stores(history, internalId)
      ensures forall r :: r in history <==> r in old(history) && r.internalId != internalId
      ensures !removed ==> history == old(history)
    {
      removed := Stores(history, internalId);
      WithoutIs(history, internalId);
      SelectTable(history, OtherThan(internalId));
      history := Without(history, internalId);
    }

    /** Rewrites height, status and details of the row with the transaction's id. Every other row, and the
        key, id, hash and token of that row, stay. */
    method UpdateTx(tx: Details)
      requires Valid()
      modifies this`history
      ensures Valid() && |history| == |old(history)|
      ensures forall i :: 0 <= i < |history| && old(history)[i].internalId != tx.internalId ==>
        history[i] == old(history)[i]
      ensures forall i :: 0 <= i < |history| && old(history)[i].internalId == tx.internalId ==>
                var r, before := history[i], old(history)[i];
                && r.details == tx && r.height == tx.blockHeight && (r.status == 0 <==> tx.blockHeight == 0)
                && r.id == before.id && r.internalId == before.internalId && r.txHash == before.txHash
                  && r.token == before.token
      ensures KeptColumnsAgree(old(history)) ==>
        (KeptColumnsAgree(history) <==>
           forall i :: 0 <= i < |history| && old(history)[i].internalId == tx.internalId ==>
             old(history)[i].txHash == tx.txHash && old(history)[i].token == TokenColumn(tx))
    {
      if KeptColumnsAgree(history) {
        UpdatedKeptColumns(history, tx);
      }
      UpdatedTable(history, tx);
      history := Updated(history, tx);
    }

    method GetTx(internalId: string) returns (found: Option<Details>)
      requires Valid()
      ensures found.Some? <==> Stores(history, internalId)
      ensures found.Some? ==> found.value.internalId == internalId
      ensures found.Some? ==> exists i :: 0 <= i < |history| && history[i].details == found.value
    {
      var i := 0;
      while i < |history|
        invariant i <= |history| && forall k :: 0 <= k < i ==> history[k].internalId != internalId
      {
        if history[i].internalId == internalId {
          assert Agrees(history[i]);
          return Some(history[i].details);
        }
        i := i + 1;
      }
      found := None;
    }

    /** The unconfirmed transactions are exactly those stored without a block. */
    method GetUnconfirmed() returns (txs: seq<Details>)
      requires Valid()
      ensures forall tx :: tx in txs <==>
                tx.blockHeight == 0 && exists i :: 0 <= i < |history| && history[i].details == tx
    {
      var rows := Unconfirmed(history);
      SelectIs(history, NotConfirmed());
      txs := DetailsOf(rows);
      UnconfirmedAre(history, txs);
    }

    /** A page of the token's rows in history order; going on from an id starts right behind its row. */
    method GetHistory(token: string, paging: Paging.PagingOptions<string>, limit: nat) returns (r: HistoryResult)
      requires Valid() && (paging.PageNumber? ==> paging.page >= 1)
      ensures r == History(history, token, paging, limit)
      ensures var s := Sorted(OfToken(history, token));
              && Ordered(s) && NewestFirst(s) && (forall row :: row in s <==> row in history && row.token == token)
                && r.total == |s|
              && ShownFrom(s, r.skipped, r.transactions)
              && (paging.PageNumber? ==> r.transactions == DetailsOf(Paging.Page(s, (paging.page - 1) * limit, limit)))
              && (paging.FromId? ==>
                    && (forall k :: 0 <= k < |s| && s[k].internalId == paging.id ==>
                          r.transactions == DetailsOf(Paging.Page(s, k + 1, limit)))
                    && (!Stores(s, paging.id) ==> r.transactions == []))
    {
      hide NewestFirst, ShownFrom, Sorted, OfToken, Ordered, Table, RowNumber, DetailsOf, Stores, IdsUnique,
           Paging.Page;
      HistoryOrder(history, token);
      if paging.FromId? {
        RowNumberIs(Sorted(OfToken(history, token)), paging.id);
      }
      HistoryNewestFirst(history, token);
      HistorySkips(history, token, paging, limit);
      r := History(history, token, paging, limit);
    }
  }

  lemma BatchRows(rows: seq<Row>, txs: seq<Details>)
    ensures |Appended(rows, txs)| == |rows| + |txs| && rows <= Appended(rows, txs)
    ensures forall i :: 0 <= i < |txs| ==>
              var r, tx := Appended(rows, txs)[|rows| + i], txs[i];
              && r.details == tx && r.txHash == tx.txHash && r.internalId == tx.internalId
              && r.height == tx.blockHeight && (r.status == 0 <==> tx.blockHeight == 0)
              && (tx.token.None? ==> r.token == "") && (tx.token.Some? ==> r.token == tx.token.value)
  {
    hide Appended, NextId;
    if txs == [] {
      assert txs[..0] == txs;
      NothingYet(rows, map[], txs);
    } else {
      AppendedRow(rows, txs, 0);
    }
    forall i | 0 <= i < |txs|
      ensures var r, tx := Appended(rows, txs)[|rows| + i], txs[i];
              && r.details == tx && r.txHash == tx.txHash && r.internalId == tx.internalId
              && r.height == tx.blockHeight && (r.status == 0 <==> tx.blockHeight == 0)
              && (tx.token.None? ==> r.token == "") && (tx.token.Some? ==> r.token == tx.token.value)
    {
      AppendedRow(rows, txs, i);
    }
  }

  lemma HistoryOrder(rows: seq<Row>, token: string)
    requires Table(rows)
    ensures var s := Sorted(OfToken(rows, token));
            && Ordered(s) && IdsUnique(s) && |s| == |OfToken(rows, token)|
            && forall row :: row in s <==> row in rows && row.token == token
  {
    var chosen := OfToken(rows, token);
    var s := Sorted(chosen);
    SelectIs(rows, HasToken(token));
    SelectTable(rows, HasToken(token));
    SortedIs(chosen);
    assert |multiset(s)| == |multiset(chosen)|;
    forall row: Row ensures row in s <==> row in chosen {
      assert row in multiset(s) <==> row in multiset(chosen);
    }
    UniqueStays(chosen, s);
  }

  /** In terms of heights: transactions without a block first, then the newest block first, then the oldest row. */
  lemma HistoryNewestFirst(rows: seq<Row>, token: string)
    requires Table(rows)
    ensures NewestFirst(Sorted(OfToken(rows, token)))
  {
    var s := Sorted(OfToken(rows, token));
    HistoryOrder(rows, token);
    hide Sorted, OfToken;
    forall i | 0 <= i < |s| ensures Agrees(s[i]) {
      assert s[i] in rows;
    }
    assert forall i, j :: 0 <= i < j < |s| ==> Before(s[i], s[j]);
  }

  /** Sorting keeps the ids unique: the keys tell equal rows apart. */
  lemma UniqueStays(rows: seq<Row>, s: seq<Row>)
    requires Ordered(s) && IdsUnique(rows) && forall row :: row in s ==> row in rows
    ensures IdsUnique(s)
  {
    forall i, j | 0 <= i < j < |s| ensures s[i].internalId != s[j].internalId {
      assert Before(s[i], s[j]);
      assert s[i] in rows && s[j] in rows;
      var a :| 0 <= a < |rows| && rows[a] == s[i];
      var b :| 0 <= b < |rows| && rows[b] == s[j];
    }
  }

  lemma HistorySkips(rows: seq<Row>, token: string, paging: Paging.PagingOptions<string>, limit: nat)
    requires paging.PageNumber? ==> paging.page >= 1
    ensures var r, s := History(rows, token, paging, limit), Sorted(OfToken(rows, token));
            ShownFrom(s, r.skipped, r.transactions)
  {
    hide Sorted, OfToken, RowNumber;
  }

  lemma {:induction false} RowNumberIs(s: seq<Row>, internalId: string)
    requires IdsUnique(s)
    ensures RowNumber(s, internalId).None? <==> !Stores(s, internalId)
    ensures forall k :: 0 <= k < |s| && s[k].internalId == internalId ==> RowNumber(s, internalId) == Some(k + 1)
  {
    if s != [] {
      var rest := s[1..];
      RowNumberIs(rest, internalId);
      assert forall k :: 0 < k < |s| ==> s[k] == rest[k - 1];
      if Stores(rest, internalId) {
        var k :| 0 <= k < |rest| && rest[k].internalId == internalId;
        assert s[k + 1].internalId == internalId;
      }
      if Stores(s, internalId) && s[0].internalId != internalId {
        var k :| 0 <= k < |s| && s[k].internalId == internalId;
        assert rest[k - 1].internalId == internalId;
      }
    }
  }

  // ---- Pages of the stored history ----

  /** The transactions of pages one to `k`. */
  ghost function StoredPages(rows: seq<Row>, token: string, limit: nat, k: nat): seq<Details> {
    if k == 0 then [] else
      StoredPages(rows, token, limit, k - 1) + History(rows, token, Paging.PageNumber(k), limit).transactions
  }

  lemma NoDetails()
    ensures DetailsOf([]) == []
  {
  }

  lemma DetailsConcat(a: seq<Row>, b: seq<Row>)
    ensures DetailsOf(a + b) == DetailsOf(a) + DetailsOf(b)
  {
  }

  lemma {:induction false} StoredPagesAre(rows: seq<Row>, token: string, limit: nat, k: nat)
    ensures StoredPages(rows, token, limit, k) == DetailsOf(Paging.FirstPages(Sorted(OfToken(rows, token)), limit, k))
  {
    hide Sorted, OfToken, DetailsOf, Paging.Page, RowNumber;
    var s := Sorted(OfToken(rows, token));
    if k == 0 {
      NoDetails();
    } else {
      StoredPagesAre(rows, token, limit, k - 1);
      DetailsConcat(Paging.FirstPages(s, limit, k - 1), Paging.Page(s, (k - 1) * limit, limit));
    }
  }

  /** Page after page shows every row of the token once, in history order. */
  lemma StoredPagesTile(rows: seq<Row>, token: string, limit: nat)
    requires Table(rows) && limit >= 1
    ensures var s := Sorted(OfToken(rows, token));
            StoredPages(rows, token, limit, Paging.CalcTotalPages(|s|, limit)) == DetailsOf(s)
  {
    hide Sorted, OfToken, Table;
    var s := Sorted(OfToken(rows, token));
    Paging.PagesTile(s, limit);
    StoredPagesAre(rows, token, limit, Paging.CalcTotalPages(|s|, limit));
  }

  /** Going on from the last transaction of a page gives the next page. */
  lemma StoredFromId(rows: seq<Row>, token: string, limit: nat, k: nat)
    requires Table(rows) && k >= 1 && History(rows, token, Paging.PageNumber(k), limit).transactions != []
    ensures var page := History(rows, token, Paging.PageNumber(k), limit).transactions;
            History(rows, token, Paging.FromId(page[|page| - 1].internalId), limit).transactions ==
            History(rows, token, Paging.PageNumber(k + 1), limit).transactions
  {
    hide Sorted, OfToken, RowNumber, Stores, IdsUnique, Agrees, KeysGrow, Ordered, Paging.Page;
    var s := Sorted(OfToken(rows, token));
    HistoryOrder(rows, token);
    var page := Paging.Page(s, (k - 1) * limit, limit);
    var at := (k - 1) * limit + |page| - 1;
    Paging.PageBehindLast(s, k, limit);
    AgreesIn(rows, s, at);
    RowNumberIs(s, s[at].internalId);
  }

  lemma AgreesIn(rows: seq<Row>, s: seq<Row>, at: nat)
    requires Table(rows) && at < |s| && forall row :: row in s ==> row in rows
    ensures s[at].internalId == s[at].details.internalId
  {
    assert s[at] in rows;
    var i :| 0 <= i < |rows| && rows[i] == s[at];
    assert Agrees(rows[i]);
  }

  lemma NothingYet(rows: seq<Row>, cache: map<string, string>, txs: seq<Details>)
    ensures AllNew(rows, txs[..0]) && Appended(rows, txs[..0]) == rows && Cached(cache, txs[..0]) == cache
  {
  }

  lemma DuplicateFails(rows: seq<Row>, txs: seq<Details>, i: nat)
    requires i < |txs| && AllNew(rows, txs[..i]) && Stores(Appended(rows, txs[..i]), txs[i].internalId)
    ensures !AllNew(rows, txs)
  {
    OneMore(rows, txs, i);
    if AllNew(rows, txs) {
      PrefixNew(rows, txs, i + 1);
    }
  }

  lemma WithoutIs(rows: seq<Row>, internalId: string)
    ensures forall r :: r in Without(rows, internalId) <==> r in rows && r.internalId != internalId
    ensures !Stores(Without(rows, internalId), internalId)
    ensures !Stores(rows, internalId) ==> Without(rows, internalId) == rows
  {
    SelectIs(rows, OtherThan(internalId));
    if !Stores(rows, internalId) {
      SelectAll(rows, OtherThan(internalId));
    }
  }

  lemma UnconfirmedAre(rows: seq<Row>, txs: seq<Details>)
    requires Table(rows) && txs == DetailsOf(Unconfirmed(rows))
    ensures forall tx :: tx in txs <==> tx.blockHeight == 0 && exists i :: 0 <= i < |rows| && rows[i].details == tx
  {
    var chosen := Unconfirmed(rows);
    SelectIs(rows, NotConfirmed());
    forall tx | tx in txs ensures tx.blockHeight == 0 && exists i :: 0 <= i < |rows| && rows[i].details == tx {
      var k :| 0 <= k < |chosen| && chosen[k].details == tx;
      assert chosen[k] in rows;
      var i :| 0 <= i < |rows| && rows[i] == chosen[k];
      assert Agrees(rows[i]);
    }
    forall i | 0 <= i < |rows| && rows[i].details.blockHeight == 0 ensures rows[i].details in txs {
      assert Agrees(rows[i]) && rows[i] in chosen;
      var k :| 0 <= k < |chosen| && chosen[k] == rows[i];
      assert txs[k] == rows[i].details;
    }
  }
}
