/** Forwarding a stream into a sink as a polled state machine that gives the stream back on errors. */
module SendAlls {
  import opened Options

  type Item
  type Error

  /** What the stream answers to the next polls; a stream with no answer left stays pending. */
  datatype StreamEvent = Next(item: Item) | Pending | End | Broken(error: Error)

  /** What the sink answers to the next calls of any kind; a sink with no answer left stays busy. */
  datatype SinkAnswer = Done | Busy | Refused(error: Error)

  datatype Call = Start(item: Item) | Flush | Close

  datatype Fused = Fused(events: seq<StreamEvent>, ended: bool)

  /** A sink keeps every call made on it. */
  datatype Sink = Sink(answers: seq<SinkAnswer>, calls: seq<Call>, received: seq<Item>, closed: bool)

  datatype Origin = FromStream | FromStart | FromFlush

  datatype Poll =
    | NotReady
    | Ready(sink: Sink, stream: seq<StreamEvent>)
    | Failed(stream: seq<StreamEvent>, error: Error, origin: Origin)

  /** The items a stream has yet to yield before it ends. */
  function Items(events: seq<StreamEvent>): seq<Item> {
    if events == [] || events[0].End? then [] else
      (if events[0].Next? then [events[0].item] else []) + Items(events[1..])
  }

  function Rest(stream: Fused): seq<Item> {
    if stream.ended then [] else Items(stream.events)
  }

  function Held(buffered: Option<Item>): seq<Item> {
    if buffered.Some? then [buffered.value] else []
  }

  /** Nothing is lost, doubled or moved: what was taken is what the sink has, then the buffered item;
      with what the stream still holds it is the whole stream. */
  ghost predicate Even(received: seq<Item>, buffered: Option<Item>, rest: seq<Item>, taken: seq<Item>,
                       whole: seq<Item>) {
    taken == received + Held(buffered) && taken + rest == whole
  }

  lemma EvenSent(received: seq<Item>, item: Item, rest: seq<Item>, taken: seq<Item>, whole: seq<Item>)
    requires Even(received, Some(item), rest, taken, whole)
    ensures Even(received + [item], None, rest, taken, whole)
  {
    assert received + [item] + [] == received + [item];
  }

  lemma EvenTaken(received: seq<Item>, item: Item, before: seq<Item>, rest: seq<Item>, taken: seq<Item>,
                  whole: seq<Item>)
    requires Even(received, None, before, taken, whole) && before == [item] + rest
    ensures Even(received, Some(item), rest, taken + [item], whole)
  {
    assert taken + [item] + rest == taken + ([item] + rest);
    assert received + [] == received;
  }

  /** The stream yields item after item until it ends. */
  predicate Flowing(events: seq<StreamEvent>) {
    events != [] && (events[0].End? || (events[0].Next? && Flowing(events[1..])))
  }

  /** Nothing will stop the transfer: the stream flows, and the sink takes `pending` items, the rest and the close. */
  ghost predicate Clear(answers: seq<SinkAnswer>, pending: nat, stream: Fused) {
    && (stream.ended || Flowing(stream.events))
    && (forall i :: 0 <= i < |answers| ==> answers[i].Done?) && |answers| > pending + |Rest(stream)|
  }

  lemma ClearAsk(answers: seq<SinkAnswer>, pending: nat, stream: Fused)
    requires Clear(answers, pending, stream)
    ensures answers != [] && answers[0].Done?
    ensures pending > 0 ==> Clear(answers[1..], pending - 1, stream)
  {
  }

  lemma ClearPoll(answers: seq<SinkAnswer>, before: Fused, e: StreamEvent, after: Fused)
    requires Clear(answers, 0, before)
    requires if before.ended then e.End? && after == before
             else e == (if before.events == [] then Pending else before.events[0]) &&
                  after == (if before.events == [] then before else Fused(before.events[1..], e.End?))
    ensures e.Next? || e.End?
    ensures e.Next? ==> Clear(answers, 1, after)
    ensures e.End? ==> Clear(answers, 0, after)
  {
  }

  /** How much of a script has been used: `rest` is what is left of `script`, and `last` is the last
      answer given, or the one given when nothing is left. */
  ghost predicate Used<T>(script: seq<T>, rest: seq<T>, last: T, exhausted: T) {
    exists k: nat {:trigger script[k..]} :: k <= |script| && rest == script[k..] &&
      (if k > 0 then last == script[k - 1] || (rest == [] && last == exhausted) else rest == [] && last == exhausted)
  }

  ghost predicate Suffix<T>(script: seq<T>, rest: seq<T>) {
    exists k: nat {:trigger script[k..]} :: k <= |script| && rest == script[k..]
  }

  lemma SuffixWhole<T>(script: seq<T>)
    ensures Suffix(script, script)
  {
    assert script[0..] == script;
  }

  lemma UseOne<T>(script: seq<T>, rest: seq<T>, exhausted: T)
    requires true == Suffix(script, rest)
    ensures rest == [] ==> true == Used(script, rest, exhausted, exhausted)
    ensures rest != [] ==> true == Used(script, rest[1..], rest[0], exhausted) && true == Suffix(script, rest[1..])
  {
    var k: nat :| k <= |script| && rest == script[k..];
    if rest != [] {
      assert rest[1..] == script[k + 1..];
    }
  }

  function Starts(items: seq<Item>): seq<Call> {
    seq(|items|, i requires 0 <= i < |items| => Start(items[i]))
  }

  /** The calls of one poll: a start for every item handed over, in order, then `last`. */
  ghost predicate Asked(before: seq<Call>, after: seq<Call>, handed: seq<Item>, last: seq<Call>) {
    after == before + Starts(handed) + last
  }

  /** The items a poll hands over: the one it found buffered, then those it took. */
  ghost function Handed(buffered: Option<Item>, first: seq<Item>, taken: seq<Item>): seq<Item>
    requires first <= taken
  {
    Held(buffered) + taken[|first|..]
  }

  lemma AskedNothing(before: seq<Call>, buffered: Option<Item>, taken: seq<Item>)
    ensures buffered.None? ==> Asked(before, before, Handed(buffered, taken, taken), [])
    ensures buffered.Some? ==> Asked(before, before + [Start(buffered.value)], Handed(buffered, taken, taken), [])
  {
  }

  lemma AskedStart(before: seq<Call>, after: seq<Call>, buffered: Option<Item>, first: seq<Item>, taken: seq<Item>,
                   item: Item)
    requires first <= taken && Asked(before, after, Handed(buffered, first, taken), [])
    ensures Asked(before, after + [Start(item)], Handed(buffered, first, taken + [item]), [])
  {
    var handed := Handed(buffered, first, taken);
    assert Handed(buffered, first, taken + [item]) == handed + [item];
    assert Starts(handed + [item]) == Starts(handed) + [Start(item)];
  }

  lemma AskedLast(before: seq<Call>, after: seq<Call>, handed: seq<Item>, call: Call)
    requires Asked(before, after, handed, [])
    ensures Asked(before, after + [call], handed, [call])
  {
  }

  /** Why a poll stops: the answer behind each outcome was really given. */
  ghost predicate Reason(answers: seq<SinkAnswer>, answersLeft: seq<SinkAnswer>, events: seq<StreamEvent>,
                         eventsLeft: seq<StreamEvent>, flushing: bool, r: Poll) {
    match r
    case NotReady =>
      if flushing then
        && Used(events, eventsLeft, Pending, Pending)
        && (Used(answers, answersLeft, Done, Busy) || Used(answers, answersLeft, Busy, Busy))
      else Used(answers, answersLeft, Busy, Busy)
    case Ready(_, _) => Used(answers, answersLeft, Done, Busy)
    case Failed(_, error, origin) =>
      if origin == FromStream then Used(events, eventsLeft, Broken(error), Pending)
      else Used(answers, answersLeft, Refused(error), Busy)
  }

  /** What an error leaves behind: the item being handed over is missing exactly when the sink refused it. */
  ghost predicate Leftover(received: seq<Item>, rest: seq<Item>, taken: seq<Item>, whole: seq<Item>, origin: Origin) {
    && (if origin == FromStart then taken != [] && received == taken[..|taken| - 1] else received == taken)
    && (taken + rest == whole || (origin == FromFlush && taken == whole))
  }

  lemma EvenRefused(received: seq<Item>, item: Item, rest: seq<Item>, taken: seq<Item>, whole: seq<Item>)
    requires true == Even(received, Some(item), rest, taken, whole)
    ensures true == Leftover(received, rest, taken, whole, FromStart)
  {
  }

  lemma EvenStopped(received: seq<Item>, stream: Fused, taken: seq<Item>, whole: seq<Item>)
    requires true == Even(received, None, Rest(stream), taken, whole)
    ensures true == Leftover(received, Items(stream.events), taken, whole, FromFlush)
    ensures !stream.ended ==> true == Leftover(received, Items(stream.events), taken, whole, FromStream)
    ensures stream.ended ==> received == taken == whole
  {
    assert received + [] == received && taken + [] == taken;
  }

  class SendAll {
    var sink: Option<Sink>
    var stream: Option<Fused>
    var buffered: Option<Item>
    /** Everything the stream held at the start, and what has been taken from it so far. */
    ghost var whole: seq<Item>
    ghost var taken: seq<Item>

    ghost predicate Valid()
      reads this
    {
      && sink.Some? && stream.Some? && (buffered.Some? ==> !stream.value.ended)
      && Even(sink.value.received, buffered, Rest(stream.value), taken, whole)
    }

    constructor (answers: seq<SinkAnswer>, events: seq<StreamEvent>)
      ensures Valid() && whole == Items(events) && taken == [] && stream == Some(Fused(events, false))
    {
      sink, stream, buffered := Some(Sink(answers, [], [], false)), Some(Fused(events, false)), None;
      whole, taken := Items(events), [];
    }

    /** The sink's answer to a call, and the sink behind it. */
    method Ask(call: Call) returns (a: SinkAnswer)
      requires sink.Some?
      modifies this`sink
      ensures sink.Some? && sink.value.received == old(sink.value.received)
      ensures sink.value.calls == old(sink.value.calls) + [call]
      ensures sink.value.closed == old(sink.value.closed)
      ensures old(sink.value.answers) != [] ==>
        a == old(sink.value.answers)[0] && sink.value.answers == old(sink.value.answers)[1..]
      ensures old(sink.value.answers) == [] ==> a == Busy && sink.value.answers == []
    {
      a := Busy;
      sink := Some(sink.value.(calls := sink.value.calls + [call]));
      if sink.value.answers != [] {
        a := sink.value.answers[0];
        sink := Some(sink.value.(answers := sink.value.answers[1..]));
      }
    }

    /** Hands one item to the sink; a busy sink gives it back to be buffered. */
    method TryStartSend(item: Item) returns (a: SinkAnswer)
      requires sink.Some? && buffered.None?
      modifies this`sink, this`buffered
      ensures sink.Some? && sink.value.closed == old(sink.value.closed)
      ensures sink.value.calls == old(sink.value.calls) + [Start(item)]
      ensures old(sink.value.answers) != [] ==>
        a == old(sink.value.answers)[0] && sink.value.answers == old(sink.value.answers)[1..]
      ensures old(sink.value.answers) == [] ==> a == Busy && sink.value.answers == []
      ensures a.Done? ==> sink.value.received == old(sink.value.received) + [item] && buffered == None
      ensures a.Busy? ==> sink.value.received == old(sink.value.received) && buffered == Some(item)
      ensures a.Refused? ==> sink.value.received == old(sink.value.received) && buffered == None
    {
      a := Ask(Start(item));
      match a
      case Done => sink := Some(sink.value.(received := sink.value.received + [item]));
      case Busy => buffered := Some(item);
      case Refused(_) =>
    }

    /** Polls the stream; once it has ended it is not asked again. */
    method PollStream() returns (e: StreamEvent)
      requires stream.Some?
      modifies this`stream
      ensures stream.Some? && (stream.value.ended <==> old(stream.value.ended) || e.End?)
      ensures |stream.value.events| <= |old(stream.value.events)|
      ensures e.Next? ==> |stream.value.events| < |old(stream.value.events)|
      ensures e.Next? ==> Rest(old(stream.value)) == [e.item] + Rest(stream.value) && !stream.value.ended
      ensures !e.Next? ==> Rest(old(stream.value)) == Rest(stream.value) && stream.value.ended == e.End?
      ensures var before, after := old(stream.value), stream.value;
              if before.ended then e.End? && after == before
              else e == (if before.events == [] then Pending else before.events[0]) &&
                   after == (if before.events == [] then before else Fused(before.events[1..], e.End?))
    {
      var s := stream.value;
      if s.ended {
        return End;
      }
      e := Pending;
      if s.events != [] {
        e := s.events[0];
        stream := Some(Fused(s.events[1..], e.End?));
      }
    }

    /** One poll: forwards until something is not ready, the stream ends or something fails. The sink is
        asked to start every item in turn, then to flush if the stream is pending, to close if it ended. */
    method Poll() returns (r: Poll)
      requires Valid()
      modifies this
      ensures whole == old(whole) && old(taken) <= taken
      ensures r.NotReady? ==> Valid()
      ensures old(Clear(sink.value.answers, |Held(buffered)|, stream.value)) ==> r.Ready?
      ensures r.Ready? ==>
        sink == None && stream == None && buffered == None && r.sink.closed && r.sink.received == taken == whole
      ensures r.Failed? ==> && stream == None && buffered == None && sink.Some?
                            && Leftover(sink.value.received, Items(r.stream), taken, whole, r.origin)
      ensures Reason(old(sink.value.answers), if r.Ready? then r.sink.answers else sink.value.answers,
                     old(stream.value.events), if r.NotReady? then stream.value.events else r.stream,
                     r.NotReady? && buffered.None? && !stream.value.ended, r)
      ensures var calls, handed := old(sink.value.calls), Handed(old(buffered), old(taken), taken);
              match r
              case NotReady =>
                Asked(calls, sink.value.calls, handed,
                      if buffered.Some? then [] else if stream.value.ended then [Close] else [Flush])
              case Ready(sink', _) => Asked(calls, sink'.calls, handed, [Close])
              case Failed(_, _, origin) =>
                if origin == FromFlush
                then Asked(calls, sink.value.calls, handed, [Flush]) ||
                     (taken == whole && Asked(calls, sink.value.calls, handed, [Close]))
                else Asked(calls, sink.value.calls, handed, [])
    {
      hide Even, Items, Rest, Leftover, Clear, Used, Suffix, Asked, Starts, Handed;
      AskedNothing(sink.value.calls, buffered, taken);
      ghost var answers, events := sink.value.answers, stream.value.events;
      SuffixWhole(answers);
      SuffixWhole(events);
      ghost var clear := Clear(sink.value.answers, |Held(buffered)|, stream.value);
      if buffered.Some? {
        var item := buffered.value;
        buffered := None;
        EvenSent(sink.value.received, item, Rest(stream.value), taken, whole);
        EvenRefused(sink.value.received, item, Rest(stream.value), taken, whole);
        RestIsItems(stream.value);
        if clear { ClearAsk(sink.value.answers, 1, stream.value); }
        UseOne(answers, sink.value.answers, Busy);
        var a := TryStartSend(item);
        match a
        case Done =>
        case Busy => return NotReady;
        case Refused(e) =>
          r := Failed(stream.value.events, e, FromStart);
          stream := None;
          return;
      }
      while true
        invariant Valid() && buffered == None && whole == old(whole) && old(taken) <= taken
        invariant Asked(old(sink.value.calls), sink.value.calls, Handed(old(buffered), old(taken), taken), [])
        invariant clear ==> Clear(sink.value.answers, 0, stream.value)
        invariant Suffix(answers, sink.value.answers) && Suffix(events, stream.value.events)
        decreases |stream.value.events|
      {
        ghost var before := stream.value;
        UseOne(events, before.events, Pending);
        UseOne(answers, sink.value.answers, Busy);
        var e := PollStream();
        if clear {
          ClearPoll(sink.value.answers, before, e, stream.value);
          ClearAsk(sink.value.answers, if e.Next? then 1 else 0, stream.value);
        }
        match e
        case Next(item) =>
          EvenTaken(sink.value.received, item, Rest(before), Rest(stream.value), taken, whole);
          AskedStart(old(sink.value.calls), sink.value.calls, old(buffered), old(taken), taken, item);
          taken := taken + [item];
          EvenSent(sink.value.received, item, Rest(stream.value), taken, whole);
          EvenRefused(sink.value.received, item, Rest(stream.value), taken, whole);
          var a := TryStartSend(item);
          match a {
            case Done =>
            case Busy => return NotReady;
            case Refused(error) =>
              RestIsItems(stream.value);
              r := Failed(stream.value.events, error, FromStart);
              stream := None;
              return;
          }
        case End =>
          EvenStopped(sink.value.received, stream.value, taken, whole);
          AskedLast(old(sink.value.calls), sink.value.calls, Handed(old(buffered), old(taken), taken), Close);
          var a := Ask(Close);
          match a {
            case Done =>
              r := Ready(sink.value.(closed := true), stream.value.events);
              sink, stream := None, None;
              return;
            case Busy => return NotReady;
            case Refused(error) =>
              r := Failed(stream.value.events, error, FromFlush);
              stream := None;
              return;
          }
        case Pending =>
          EvenStopped(sink.value.received, stream.value, taken, whole);
          AskedLast(old(sink.value.calls), sink.value.calls, Handed(old(buffered), old(taken), taken), Flush);
          var a := Ask(Flush);
          match a {
            case Done => return NotReady;
            case Busy => return NotReady;
            case Refused(error) =>
              r := Failed(stream.value.events, error, FromFlush);
              stream := None;
              return;
          }
        case Broken(error) =>
          EvenStopped(sink.value.received, stream.value, taken, whole);
          r := Failed(stream.value.events, error, FromStream);
          stream := None;
          return;
      }
    }
  }

  lemma RestIsItems(stream: Fused)
    requires !stream.ended
    ensures Rest(stream) == Items(stream.events)
  {
  }
}
