/** Counting repeated neighbours, and the check on repeated characters built on it. */
module RunLength {
  import opened Options

  datatype Pair = Pair(head: char, count: nat)

  function Repeat(c: char, n: nat): (s: seq<char>)
    ensures |s| == n && forall i :: 0 <= i < n ==> s[i] == c
  {
    seq(n, _ => c)
  }

  function Expand(pairs: seq<Pair>): seq<char> {
    if pairs == [] then [] else Repeat(pairs[0].head, pairs[0].count) + Expand(pairs[1..])
  }

  /** Runs are never empty and never continue into the next one. */
  ghost predicate Maximal(pairs: seq<Pair>) {
    && (forall i :: 0 <= i < |pairs| ==> pairs[i].count >= 1)
    && (forall i :: 0 <= i < |pairs| - 1 ==> pairs[i].head != pairs[i + 1].head)
  }

  class SequentialCount {
    var rest: seq<char>

    constructor (entry: seq<char>)
      ensures rest == entry
    {
      rest := entry;
    }

    /** Takes one maximal run off the front. */
    method Next() returns (r: Option<Pair>)
      modifies this
      ensures r.None? <==> old(rest) == []
      ensures r.None? ==> rest == []
      ensures r.Some? ==> && r.value.count >= 1 && old(rest) == Repeat(r.value.head, r.value.count) + rest
                          && (rest != [] ==> rest[0] != r.value.head)
    {
      if rest == [] {
        return None;
      }
      var head := rest[0];
      var count := 1;
      rest := rest[1..];
      while rest != [] && rest[0] == head
        invariant count >= 1 && old(rest) == Repeat(head, count) + rest
        decreases |rest|
      {
        RepeatMore(head, count, rest);
        rest := rest[1..];
        count := count + 1;
      }
      r := Some(Pair(head, count));
    }
  }

  lemma RepeatMore(c: char, n: nat, rest: seq<char>)
    requires rest != [] && rest[0] == c
    ensures Repeat(c, n) + rest == Repeat(c, n + 1) + rest[1..]
  {
    assert rest == [c] + rest[1..];
    assert Repeat(c, n + 1) == Repeat(c, n) + [c];
  }

  lemma {:induction false} ExpandSnoc(pairs: seq<Pair>, p: Pair)
    ensures Expand(pairs + [p]) == Expand(pairs) + Repeat(p.head, p.count)
  {
    if pairs == [] {
      assert [p][1..] == [] && pairs + [p] == [p];
      assert Repeat(p.head, p.count) + [] == [] + Repeat(p.head, p.count);
    } else {
      ExpandSnoc(pairs[1..], p);
      assert (pairs + [p])[1..] == pairs[1..] + [p];
    }
  }

  lemma Regroup(a: seq<char>, b: seq<char>, c: seq<char>)
    ensures a + (b + c) == a + b + c
  {
  }

  /** All runs of an entry: they spell it again and none can be joined with its neighbour. */
  method Runs(entry: seq<char>) returns (pairs: seq<Pair>)
    ensures Expand(pairs) == entry && Maximal(pairs)
  {
    var counter := new SequentialCount(entry);
    pairs := [];
    while true
      invariant Expand(pairs) + counter.rest == entry && Maximal(pairs)
      invariant pairs != [] && counter.rest != [] ==> pairs[|pairs| - 1].head != counter.rest[0]
      decreases |counter.rest|
    {
      ghost var before := counter.rest;
      var next := counter.Next();
      if next.None? {
        break;
      }
      ExpandSnoc(pairs, next.value);
      Regroup(Expand(pairs), Repeat(next.value.head, next.value.count), counter.rest);
      pairs := pairs + [next.value];
    }
  }

  /** The runs of an entry are unique. */
  lemma {:induction false} RunsUnique(a: seq<Pair>, b: seq<Pair>)
    requires Maximal(a) && Maximal(b) && Expand(a) == Expand(b)
    ensures a == b
    decreases |a|
  {
    FirstRun(a);
    FirstRun(b);
    if a != [] && b != [] {
      SameFirst(a, b, Expand(a));
      SameRest(Repeat(a[0].head, a[0].count), Expand(a[1..]), Expand(b[1..]));
      RunsUnique(a[1..], b[1..]);
      assert a == [a[0]] + a[1..] && b == [b[0]] + b[1..];
    }
  }

  /** An expansion starts with its first run and goes on with something else. */
  lemma FirstRun(a: seq<Pair>)
    requires Maximal(a)
    ensures a == [] <==> Expand(a) == []
    ensures a != [] ==> var s, p := Expand(a), a[0];
                        && p.count <= |s| && (forall i :: 0 <= i < p.count ==> s[i] == p.head)
                        && (p.count < |s| ==> s[p.count] != p.head)
  {
    if |a| > 1 {
      var rest := Expand(a[1..]);
      assert a[1..][0] == a[1];
      assert rest[0] == a[1].head;
    }
  }

  lemma SameFirst(a: seq<Pair>, b: seq<Pair>, s: seq<char>)
    requires Maximal(a) && Maximal(b) && a != [] && b != [] && s == Expand(a) == Expand(b)
    ensures a[0] == b[0]
  {
    FirstRun(a);
    FirstRun(b);
    assert s[0] == a[0].head == b[0].head;
    OneCount(s, a[0].head, a[0].count, b[0].count);
  }

  lemma OneCount(s: seq<char>, c: char, m: nat, n: nat)
    requires m <= |s| && n <= |s| && (forall i :: 0 <= i < m ==> s[i] == c) && (forall i :: 0 <= i < n ==> s[i] == c)
    requires (m < |s| ==> s[m] != c) && (n < |s| ==> s[n] != c)
    ensures m == n
  {
  }

  lemma SameRest(p: seq<char>, a: seq<char>, b: seq<char>)
    requires p + a == p + b
    ensures a == b
  {
    assert a == (p + a)[|p|..] && b == (p + b)[|p|..];
  }

  // ---- Repeated characters ----

  /** `limit` equal characters in a row start at `i`. */
  predicate RunAt(s: seq<char>, i: nat, limit: nat) {
    i + limit <= |s| && forall j :: i <= j < i + limit ==> s[j] == s[i]
  }

  predicate HasRun(s: seq<char>, limit: nat) {
    exists i: nat :: i < |s| && RunAt(s, i, limit)
  }

  /** A short run behind a different character adds no long one. */
  lemma ShortRun(done: seq<char>, c: char, n: nat, limit: nat)
    requires !HasRun(done, limit) && n < limit && (done != [] ==> done[|done| - 1] != c)
    ensures !HasRun(done + Repeat(c, n), limit)
  {
    var s := done + Repeat(c, n);
    forall i: nat | i < |s| ensures !RunAt(s, i, limit) {
      if i + limit <= |done| {
        assert !RunAt(done, i, limit);
        assert forall j :: i <= j < i + limit ==> s[j] == done[j];
      } else if i < |done| && i + limit <= |s| {
        assert s[|done| - 1] != c && s[|done|] == c;
      }
    }
  }

  lemma LongRun(done: seq<char>, c: char, n: nat, rest: seq<char>, limit: nat)
    requires 1 <= limit <= n
    ensures HasRun(done + (Repeat(c, n) + rest), limit)
  {
    var s := done + (Repeat(c, n) + rest);
    assert forall j :: |done| <= j < |done| + limit ==> s[j] == c;
    assert RunAt(s, |done|, limit);
  }

  /** Accepted exactly when no character is repeated `limit` times in a row. With limit 0 even a
      single character is too many. */
  method IsAcceptable(entry: seq<char>, limit: nat) returns (ok: bool)
    ensures limit >= 1 ==> (ok <==> !HasRun(entry, limit))
    ensures limit == 0 ==> (ok <==> entry == [])
  {
    hide HasRun, RunAt;
    var counter := new SequentialCount(entry);
    ghost var done: seq<char> := [];
    NoRunInNothing(limit);
    while true
      invariant done + counter.rest == entry && !HasRun(done, limit)
      invariant done != [] && counter.rest != [] ==> done[|done| - 1] != counter.rest[0]
      invariant limit == 0 ==> done == []
      decreases |counter.rest|
    {
      var next := counter.Next();
      if next.None? {
        break;
      }
      var Pair(head, count) := next.value;
      if count >= limit {
        if limit >= 1 {
          LongRun(done, head, count, counter.rest, limit);
        }
        return false;
      }
      ShortRun(done, head, count, limit);
      Regroup(done, Repeat(head, count), counter.rest);
      done := done + Repeat(head, count);
    }
    assert done + [] == done;
    ok := true;
  }

  lemma NoRunInNothing(limit: nat)
    ensures !HasRun([], limit)
  {
  }
}
