/**
 The unbounded channel (utils/unbounded_channel.go) and the subscribers that feed it
 (broadcast/interface.go), as one transition system over all interleavings.
 */
module Channel {

  // ----- the goroutine -----

  /** The goroutine's variables, and what has gone in and out so far. */
  datatype State<T> = State(buffer: seq<T>, open: bool, input: seq<T>, output: seq<T>)

  /** The cases of the select statement. */
  datatype Event<T> = Receive(v: T) | Closed | Send

  predicate Enabled<T>(s: State<T>, e: Event<T>) {
    match e
    case Receive(_) => s.open
    case Closed => s.open
    case Send => s.buffer != []
  }

  function Apply<T>(s: State<T>, e: Event<T>): State<T>
    requires Enabled(s, e)
  {
    match e
    case Receive(v) => s.(buffer := s.buffer + [v], input := s.input + [v])
    case Closed => s.(open := false)
    case Send => s.(buffer := s.buffer[1..], output := s.output + [s.buffer[0]])
  }

  function Start<T>(): State<T> {
    State([], true, [], [])
  }

  /** The loop condition of the goroutine. */
  predicate Running<T>(s: State<T>) {
    |s.buffer| > 0 || s.open
  }

  predicate CanRun<T>(events: seq<Event<T>>)
    decreases |events|, 0
  {
    events != [] ==>
      var n := |events| - 1;
      CanRun(events[..n]) && Enabled(After(events[..n]), events[n])
  }

  function After<T>(events: seq<Event<T>>): State<T>
    requires CanRun(events)
    decreases |events|, 1
  {
    if events == [] then Start() else
    var n := |events| - 1;
    Apply(After(events[..n]), events[n])
  }

  /** In every interleaving, what went out followed by the buffer is what came in, in order. */
  lemma {:induction false} FirstInFirstOut<T>(events: seq<Event<T>>)
    requires CanRun(events)
    ensures var s := After(events); s.output + s.buffer == s.input
  {
    if events != [] {
      var n := |events| - 1;
      FirstInFirstOut(events[..n]);
      var s := After(events[..n]);
      match events[n]
      case Receive(v) => assert s.output + (s.buffer + [v]) == (s.output + s.buffer) + [v];
      case Closed =>
      case Send => assert (s.output + [s.buffer[0]]) + s.buffer[1..] == s.output + s.buffer;
    }
  }

  /** The input is open until it is closed, and nothing is received or closed after that. */
  lemma {:induction false} ClosedForGood<T(!new)>(events: seq<Event<T>>, i: nat, j: nat)
    requires CanRun(events)
    ensures After(events).open <==> Closed !in events
    ensures i < j < |events| && events[i].Closed? ==> events[j].Send?
    decreases |events|
  {
    if events != [] {
      var n := |events| - 1;
      assert events == events[..n] + [events[n]];
      ClosedForGood(events[..n], i, if j < n then j else 0);
    }
  }

  /** The goroutine stops only when everything received has been delivered. */
  lemma StopsEmpty<T>(events: seq<Event<T>>)
    requires CanRun(events) && !Running(After(events))
    ensures After(events).output == After(events).input
  {
    FirstInFirstOut(events);
    assert After(events).output + [] == After(events).output;
  }

  /** The goroutine is still running before each of its communications. */
  lemma RunsBefore<T>(events: seq<Event<T>>)
    requires CanRun(events)
    ensures forall i :: 0 <= i < |events| ==> CanRun(events[..i]) && Running(After(events[..i]))
  {
    forall i | 0 <= i < |events|
      ensures CanRun(events[..i]) && Running(After(events[..i]))
    {
      Prefix(events, i + 1);
      assert events[..i + 1][..i] == events[..i];
    }
  }

  /**
   The goroutine's loop, driven by the communications that happen; when there are no more it is
   blocked in the select. It has ended exactly when it would not run on.
   */
  method Goroutine<T>(events: seq<Event<T>>) returns (out: seq<T>, buffer: seq<T>, ended: bool)
    requires CanRun(events)
    ensures out == After(events).output && buffer == After(events).buffer
    ensures ended <==> !Running(After(events))
  {
    buffer, out := [], [];
    var open := true;
    var i := 0;
    RunsBefore(events);
    assert events[..0] == [];
    while |buffer| > 0 || open
      invariant 0 <= i <= |events| && CanRun(events[..i])
      invariant var s := After(events[..i]); s.buffer == buffer && s.output == out && s.open == open
      decreases |events| - i
    {
      if i == |events| {
        assert events[..i] == events;
        return out, buffer, false;
      }
      Prefix(events, i + 1);
      assert events[..i + 1][..i] == events[..i];
      match events[i] {
        case Receive(v) => buffer := buffer + [v];
        case Closed => open := false;
        case Send =>
          out := out + [buffer[0]];
          buffer := buffer[1..];
      }
      i := i + 1;
    }
    assert events[..|events|] == events;
    ended := true;
  }

  lemma {:induction false} Prefix<T>(events: seq<Event<T>>, i: nat)
    requires CanRun(events) && i <= |events|
    ensures CanRun(events[..i])
    decreases |events| - i
  {
    if i == |events| {
      assert events[..i] == events;
    } else {
      Prefix(events, i + 1);
      assert events[..i + 1][..i] == events[..i];
    }
  }

  // ----- the subscribers -----

  type Subscriber = string
  type Data = string

  /** One answer of Subscriber.Next: a batch of orders, or an error that is logged. */
  datatype Answer = Orders(items: seq<Data>) | Failed

  /** What a subscriber's goroutine sends for these answers, in order. */
  function Program(answers: seq<Answer>): seq<Data> {
    if answers == [] then [] else
    (if answers[0].Orders? then answers[0].items else []) + Program(answers[1..])
  }

  /** Answers are worked off one after the other; an error sends nothing. */
  lemma {:induction false} ProgramConcat(a: seq<Answer>, b: seq<Answer>, items: seq<Data>)
    ensures Program(a + b) == Program(a) + Program(b)
    ensures Program([Orders(items)]) == items && Program([Failed]) == []
  {
    assert [Orders(items)][1..] == [] && [Failed][1..] == [];
    if a == [] {
      assert a + b == b;
    } else {
      ProgramConcat(a[1..], b, items);
      assert (a + b)[1..] == a[1..] + b;
    }
  }

  /** A channel item with the subscriber that sent it. */
  datatype Item = Item(from: Subscriber, data: Data)

  /** The part of a list that came from one subscriber. */
  function From(items: seq<Item>, who: Subscriber): seq<Data> {
    if items == [] then [] else
    From(items[..|items| - 1], who) + (if items[|items| - 1].from == who then [items[|items| - 1].data] else [])
  }

  lemma {:induction false} FromConcat(a: seq<Item>, b: seq<Item>, who: Subscriber)
    ensures From(a + b, who) == From(a, who) + From(b, who)
  {
    if b == [] {
      assert a + b == a;
    } else {
      var n := |b| - 1;
      FromConcat(a, b[..n], who);
      assert (a + b)[..|a| + n] == a + b[..n];
      assert (a + b)[|a| + n] == b[n];
    }
  }

  /** Each subscriber sends the items of its own program in turn; the interleaving is arbitrary. */
  ghost predicate Feeds(events: seq<Event<Item>>, programs: map<Subscriber, seq<Answer>>)
    requires CanRun(events)
  {
    events != [] ==>
      var n := |events| - 1;
      && Feeds(events[..n], programs)
      && (events[n].Receive? ==>
            var item, sent := events[n].v, |From(After(events[..n]).input, events[n].v.from)|;
            && item.from in programs
            && sent < |Program(programs[item.from])| && item.data == Program(programs[item.from])[sent])
  }

  lemma {:induction false} InputIsPrograms(
    events: seq<Event<Item>>, programs: map<Subscriber, seq<Answer>>, who: Subscriber)
    requires CanRun(events) && Feeds(events, programs) && who in programs
    ensures From(After(events).input, who) <= Program(programs[who])
  {
    if events != [] {
      var n := |events| - 1;
      InputIsPrograms(events[..n], programs, who);
      if events[n].Receive? {
        var input := After(events[..n]).input;
        assert (input + [events[n].v])[..|input|] == input;
      }
    }
  }

  /**
   In every interleaving of subscribers and channel, what one subscriber's orders look like on the
   way out, followed by those still buffered, is an initial part of what that subscriber produced:
   nothing lost, repeated or reordered.
   */
  lemma SubscriberOrderKept(events: seq<Event<Item>>, programs: map<Subscriber, seq<Answer>>, who: Subscriber)
    requires CanRun(events) && Feeds(events, programs) && who in programs
    ensures var s := After(events);
            && From(s.output, who) + From(s.buffer, who) <= Program(programs[who])
            && From(s.output, who) <= Program(programs[who])
  {
    var s := After(events);
    FirstInFirstOut(events);
    FromConcat(s.output, s.buffer, who);
    InputIsPrograms(events, programs, who);
  }
}
