/** Matching a batch of JSON-RPC responses, in any order, to the requests they answer. */
module JsonRpcBatch {
  import opened Options

  type Id = string

  /** A JSON value; only being null or not matters here. */
  datatype Json = Null | Value(text: string)

  datatype Response = Response(id: Id, result: Json, error: Json)

  datatype ResponseEnum = Single(response: Response) | Batch(responses: seq<Response>)

  /** What the transport delivers. */
  datatype Delivery = Delivered(response: ResponseEnum) | TransportFailed(message: string)

  datatype ErrorType =
    | InvalidRequest
    | Transport(message: string)
    | WrongKind
    | WrongCount(expected: nat, found: nat)
    | MissingId(id: Id)
    | ResponseError(error: Json)
    | Undecodable(result: Json)

  datatype Result<+T> = Ok(value: T) | Err(error: ErrorType)

  predicate Unique(ids: seq<Id>) {
    forall i, j :: 0 <= i < j < |ids| ==> ids[i] != ids[j]
  }

  function IdSet(ids: seq<Id>): set<Id> {
    set id | id in ids
  }

  function Ids(batch: seq<Response>): seq<Id> {
    seq(|batch|, i requires 0 <= i < |batch| => batch[i].id)
  }

  /** The responses by id; among several with one id the last one counts. */
  function ById(batch: seq<Response>): map<Id, Response> {
    if batch == [] then map[] else ById(batch[..|batch| - 1])[batch[|batch| - 1].id := batch[|batch| - 1]]
  }

  predicate Good<T>(decode: Json -> Option<T>, r: Response) {
    r.error.Null? && decode(r.result).Some?
  }

  /** Every request has exactly one place in the answer, and every answer is good. */
  ghost predicate Succeeds<T>(ids: seq<Id>, all: map<Id, Response>, decode: Json -> Option<T>) {
    && Unique(ids) && IdSet(ids) == all.Keys
    && forall i :: 0 <= i < |ids| ==> ids[i] in all && Good(decode, all[ids[i]])
  }

  /** Result `i` decodes the answer to request `i`. */
  ghost predicate Answered<T>(ids: seq<Id>, all: map<Id, Response>, decode: Json -> Option<T>, values: seq<T>) {
    |values| == |ids| && forall i :: 0 <= i < |ids| ==> ids[i] in all && Some(values[i]) == decode(all[ids[i]].result)
  }

  /** What is reported when request `k` is the first one without a good answer of its own. */
  ghost predicate FirstFailure<T>(ids: seq<Id>, all: map<Id, Response>, decode: Json -> Option<T>, k: nat,
                                  error: ErrorType) {
    && k < |ids| && (forall j :: 0 <= j < k ==> ids[j] in all && Good(decode, all[ids[j]]))
    && match error
       case MissingId(id) => id == ids[k] && (id !in all || id in ids[..k])
       case ResponseError(e) => ids[k] in all && all[ids[k]].error == e && !e.Null?
       case Undecodable(v) => ids[k] in all && all[ids[k]].error.Null? && all[ids[k]].result == v && decode(v).None?
       case _ => false
  }

  lemma {:induction false} ByIdFinds(batch: seq<Response>, id: Id)
    ensures id in ById(batch) <==> id in Ids(batch)
    ensures id in ById(batch) ==> exists k :: 0 <= k < |batch| && batch[k] == ById(batch)[id] && batch[k].id == id
                                         && forall j :: k < j < |batch| ==> batch[j].id != id
  {
    if batch != [] {
      var n := |batch| - 1;
      var ids, before := Ids(batch), Ids(batch[..n]);
      ByIdFinds(batch[..n], id);
      assert ids == before + [batch[n].id];
      if batch[n].id == id {
        assert batch[n] == ById(batch)[id];
      } else if id in ById(batch) {
        var k :| 0 <= k < n && batch[..n][k] == ById(batch[..n])[id] && batch[..n][k].id == id
                && forall j :: k < j < n ==> batch[..n][j].id != id;
        assert batch[k] == ById(batch)[id];
        assert forall j :: k < j < n ==> batch[j] == batch[..n][j];
      }
    }
  }

  // ---- Counting ----

  lemma {:induction false} UniqueCount(ids: seq<Id>)
    requires Unique(ids)
    ensures |IdSet(ids)| == |ids|
  {
    if ids != [] {
      var n := |ids| - 1;
      UniqueCount(ids[..n]);
      assert IdSet(ids) == IdSet(ids[..n]) + {ids[n]};
      assert ids[n] !in ids[..n];
    }
  }

  /** After `i` removals. */
  ghost predicate Removed(ids: seq<Id>, i: nat, all: map<Id, Response>, left: map<Id, Response>) {
    && i <= |ids| && Unique(ids[..i]) && (forall id :: id in ids[..i] ==> id in all)
    && (forall id :: id in left <==> id in all && id !in ids[..i]) && (forall id :: id in left ==> left[id] == all[id])
    && |left| == |ids| - i
  }

  lemma RemoveCount(left: map<Id, Response>, id: Id)
    requires id in left
    ensures |left - {id}| == |left| - 1
  {
    assert (left - {id}).Keys == left.Keys - {id};
  }

  lemma RemoveOne(ids: seq<Id>, i: nat, all: map<Id, Response>, left: map<Id, Response>)
    requires Removed(ids, i, all, left) && i < |ids| && ids[i] in left
    ensures Removed(ids, i + 1, all, left - {ids[i]}) && ids[i] in all && all[ids[i]] == left[ids[i]]
  {
    RemoveCount(left, ids[i]);
    var a, b := ids[..i], ids[..i + 1];
    assert b == a + [ids[i]];
    assert forall id :: id in b <==> id in a || id == ids[i];
    assert Unique(b);
  }

  /** An id that is gone was asked for before or never answered: no success is possible. */
  lemma MissingFails<T>(ids: seq<Id>, i: nat, all: map<Id, Response>, left: map<Id, Response>,
                        decode: Json -> Option<T>)
    requires Removed(ids, i, all, left) && i < |ids| && ids[i] !in left
    ensures !Succeeds(ids, all, decode) && (ids[i] !in all || ids[i] in ids[..i])
  {
    if ids[i] in all {
      var j :| 0 <= j < i && ids[..i][j] == ids[i];
      assert ids[j] == ids[i];
    }
  }

  lemma AllRemoved(ids: seq<Id>, all: map<Id, Response>, left: map<Id, Response>)
    requires Removed(ids, |ids|, all, left)
    ensures Unique(ids) && IdSet(ids) == all.Keys
  {
    assert ids[..|ids|] == ids;
    assert left.Keys == {};
    forall id | id in all ensures id in ids {
      assert id !in left.Keys;
    }
  }

  lemma NoneRemoved(ids: seq<Id>, all: map<Id, Response>)
    requires |all| == |ids|
    ensures Removed(ids, 0, all, all)
  {
  }

  /** A different number of answers cannot match the requests one to one. */
  lemma WrongCountFails<T>(ids: seq<Id>, all: map<Id, Response>, decode: Json -> Option<T>)
    requires |all| != |ids|
    ensures !Succeeds(ids, all, decode)
  {
    if Unique(ids) {
      UniqueCount(ids);
      assert |all.Keys| == |all|;
    }
  }

  // ---- The client ----

  method AllUnique(ids: seq<Id>) returns (unique: bool)
    ensures unique <==> Unique(ids)
  {
    var seen: set<Id> := {};
    var i := 0;
    while i < |ids|
      invariant i <= |ids| && Unique(ids[..i]) && forall id :: id in seen <==> id in ids[..i]
    {
      if ids[i] in seen {
        var j :| 0 <= j < i && ids[..i][j] == ids[i];
        assert ids[j] == ids[i];
        return false;
      }
      assert ids[..i + 1] == ids[..i] + [ids[i]];
      seen := seen + {ids[i]};
      i := i + 1;
    }
    assert ids[..i] == ids;
    unique := true;
  }

  function ProcessSingleResponse<T>(decode: Json -> Option<T>, r: Response): Result<T> {
    if !r.error.Null? then Err(ResponseError(r.error)) else
      match decode(r.result)
      case Some(v) => Ok(v)
      case None => Err(Undecodable(r.result))
  }

  /** Takes the answers out of the map in the order of the requests. */
  method TakeInOrder<T>(ids: seq<Id>, all: map<Id, Response>, decode: Json -> Option<T>) returns (r: Result<seq<T>>)
    requires |all| == |ids|
    ensures r.Ok? <==> Succeeds(ids, all, decode)
    ensures r.Ok? ==> Answered(ids, all, decode, r.value)
    ensures r.Err? ==> exists k :: FirstFailure(ids, all, decode, k, r.error)
  {
    hide Removed, Unique, IdSet;
    var responses := all;
    var values: seq<T> := [];
    var i := 0;
    NoneRemoved(ids, all);
    while i < |ids|
      invariant Removed(ids, i, all, responses) && |values| == i <= |ids|
      invariant forall j :: 0 <= j < i ==>
        ids[j] in all && Good(decode, all[ids[j]]) && Some(values[j]) == decode(all[ids[j]].result)
    {
      if ids[i] !in responses {
        MissingFails(ids, i, all, responses, decode);
        assert FirstFailure(ids, all, decode, i, MissingId(ids[i]));
        return Err(MissingId(ids[i]));
      }
      RemoveOne(ids, i, all, responses);
      var single := ProcessSingleResponse(decode, responses[ids[i]]);
      responses := responses - {ids[i]};
      if single.Err? {
        assert FirstFailure(ids, all, decode, i, single.error);
        return Err(single.error);
      }
      values := values + [single.value];
      i := i + 1;
    }
    AllRemoved(ids, all, responses);
    r := Ok(values);
  }

  /** Turns a delivered batch into results in the order of the requests. */
  method ProcessTransportBatchResult<T>(delivery: Delivery, ids: seq<Id>, decode: Json -> Option<T>)
    returns (r: Result<seq<T>>)
    ensures r.Err? ==> !r.error.InvalidRequest?
    ensures delivery.TransportFailed? ==> r == Err(Transport(delivery.message))
    ensures delivery.Delivered? && delivery.response.Single? ==> r == Err(WrongKind)
    ensures delivery.Delivered? && delivery.response.Batch? ==>
      var all := ById(delivery.response.responses);
      && (r.Ok? <==> Succeeds(ids, all, decode)) && (r.Ok? ==> Answered(ids, all, decode, r.value))
      && (|all| != |ids| ==> r == Err(WrongCount(|ids|, |all|)))
      && (|all| == |ids| && r.Err? ==> exists k :: FirstFailure(ids, all, decode, k, r.error))
  {
    hide Succeeds, Answered;
    match delivery
    case TransportFailed(message) => return Err(Transport(message));
    case Delivered(Single(_)) => return Err(WrongKind);
    case Delivered(Batch(batch)) =>
      var responses: map<Id, Response> := map[];
      var k := 0;
      while k < |batch|
        invariant k <= |batch| && responses == ById(batch[..k])
      {
        assert batch[..k + 1][..k] == batch[..k];
        responses := responses[batch[k].id := batch[k]];
        k := k + 1;
      }
      assert batch[..k] == batch;
      if |responses| != |ids| {
        WrongCountFails(ids, responses, decode);
        return Err(WrongCount(|ids|, |responses|));
      }
      r := TakeInOrder(ids, responses, decode);
  }

  /** Validates the ids, then sends. Nothing is sent for repeated ids. */
  method SendBatchRequest<T>(ids: seq<Id>, delivery: Delivery, decode: Json -> Option<T>) returns (r: Result<seq<T>>)
    ensures !Unique(ids) <==> r == Err(InvalidRequest)
    ensures r.Ok? <==> (&& delivery.Delivered? && delivery.response.Batch?
                        && Succeeds(ids, ById(delivery.response.responses), decode))
    ensures r.Ok? ==> Answered(ids, ById(delivery.response.responses), decode, r.value)
  {
    var valid := AllUnique(ids);
    if !valid {
      return Err(InvalidRequest);
    }
    r := ProcessTransportBatchResult(delivery, ids, decode);
  }

  // ---- Order does not matter ----

  lemma {:induction false} ByIdDistinct(batch: seq<Response>, k: nat)
    requires Unique(Ids(batch)) && k < |batch|
    ensures batch[k].id in ById(batch) && ById(batch)[batch[k].id] == batch[k]
  {
    var n := |batch| - 1;
    if k < n {
      assert forall i :: 0 <= i < n ==> Ids(batch[..n])[i] == Ids(batch)[i];
      ByIdDistinct(batch[..n], k);
      assert Ids(batch)[k] != Ids(batch)[n];
    }
  }

  /** Any order of responses with distinct ids gives the same map, hence the same outcome. */
  lemma OrderIrrelevant(a: seq<Response>, b: seq<Response>)
    requires Unique(Ids(a)) && Unique(Ids(b)) && (forall r :: r in a <==> r in b)
    ensures ById(a) == ById(b)
  {
    forall id | id in ById(a) || id in ById(b) ensures id in ById(a) && id in ById(b) && ById(a)[id] == ById(b)[id] {
      var x, y := if id in ById(a) then a else b, if id in ById(a) then b else a;
      ByIdFinds(x, id);
      var k :| 0 <= k < |x| && x[k] == ById(x)[id] && x[k].id == id;
      assert x[k] in y;
      var l :| 0 <= l < |y| && y[l] == x[k];
      ByIdDistinct(y, l);
    }
  }

  lemma PermutationInvariant<T>(ids: seq<Id>, a: seq<Response>, b: seq<Response>, decode: Json -> Option<T>,
                                values: seq<T>)
    requires Unique(Ids(a)) && multiset(a) == multiset(b)
    ensures Succeeds(ids, ById(a), decode) <==> Succeeds(ids, ById(b), decode)
    ensures Answered(ids, ById(a), decode, values) <==> Answered(ids, ById(b), decode, values)
  {
    forall r: Response ensures r in a <==> r in b {
      assert r in multiset(a) <==> r in multiset(b);
    }
    UniqueInAnyOrder(a, b);
    OrderIrrelevant(a, b);
  }

  lemma UniqueInAnyOrder(a: seq<Response>, b: seq<Response>)
    requires Unique(Ids(a)) && multiset(a) == multiset(b)
    ensures Unique(Ids(b))
  {
    forall i, j | 0 <= i < j < |b| ensures b[i].id != b[j].id {
      TwoInBag(b, i, j);
      assert b[i] in multiset(a) && b[j] in multiset(a);
      var k :| 0 <= k < |a| && a[k] == b[i];
      var l :| 0 <= l < |a| && a[l] == b[j];
      OnceInBag(a, k);
      assert Ids(a)[k] == b[i].id && Ids(a)[l] == b[j].id;
    }
    assert forall i :: 0 <= i < |b| ==> Ids(b)[i] == b[i].id;
  }

  /** Two places with one value count twice. */
  lemma TwoInBag(b: seq<Response>, i: nat, j: nat)
    requires i < j < |b|
    ensures b[i] == b[j] ==> multiset(b)[b[i]] >= 2
  {
    assert b == b[..i] + [b[i]] + b[i + 1..j] + [b[j]] + b[j + 1..];
  }

  /** A response whose id is unique counts once. */
  lemma OnceInBag(a: seq<Response>, k: nat)
    requires Unique(Ids(a)) && k < |a|
    ensures multiset(a)[a[k]] == 1
  {
    var l, r := a[..k], a[k + 1..];
    assert a == l + [a[k]] + r;
    forall i | 0 <= i < |l| ensures l[i] != a[k] {
      assert Ids(a)[i] != Ids(a)[k];
    }
    forall i | 0 <= i < |r| ensures r[i] != a[k] {
      assert Ids(a)[k + 1 + i] != Ids(a)[k];
    }
  }
}
