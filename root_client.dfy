/** `StompClient` of `client.js`, the older client at the repository root.
    Its stream is created in the constructor, `subscribe` takes only a
    callback, headers are never merged, and a MESSAGE for a destination
    without an entry throws. The log conventions are those of `LibClient`. */
module RootClient {
  import opened Js
  import opened Dict
  import opened Wire
  import LibClient

  type CallbackId = LibClient.CallbackId

  /** The client's changing state: the stream always exists. */
  datatype Session = Session(
    subscriptions: map<string, seq<CallbackId>>,
    sent: seq<Frame>,
    events: seq<LibClient.Event>)

  /** `subscribe(queue, callback)`: a new queue gets an empty list and a
      SUBSCRIBE carrying only its destination; the callback is appended. */
  function Subscribing(s: Session, queue: string, callback: CallbackId): (r: Session)
    ensures r.events == s.events
    ensures s.sent <= r.sent && |r.sent| == |s.sent| + (if queue in s.subscriptions then 0 else 1)
    ensures queue in r.subscriptions && |r.subscriptions[queue]| > 0
    ensures r.subscriptions[queue][|r.subscriptions[queue]| - 1] == callback
    ensures forall q :: q != queue ==> (q in r.subscriptions <==> q in s.subscriptions)
  {
    var s1 := if queue !in s.subscriptions
      then s.(subscriptions := s.subscriptions[queue := []],
              sent := s.sent + [Frame("SUBSCRIBE", [("destination", queue)], "")])
      else s;
    s1.(subscriptions := s1.subscriptions[queue := s1.subscriptions[queue] + [callback]])
  }

  /** `publish(queue, message)`: one SEND with only a destination header. */
  function Publishing(s: Session, queue: string, message: string): (r: Session)
    ensures r.subscriptions == s.subscriptions && r.events == s.events
    ensures |r.sent| == |s.sent| + 1 && r.sent[..|s.sent|] == s.sent
    ensures Keys(r.sent[|s.sent|].headers) == ["destination"] && r.sent[|s.sent|].body == message
    ensures r.sent[|s.sent|] == Frame("SEND", [("destination", queue)], message)
  {
    s.(sent := s.sent + [Frame("SEND", [("destination", queue)], message)])
  }

  /** The `frame` handler: a MESSAGE calls every callback of its
      destination, and with no entry `.map` of `undefined` throws; a
      CONNECTED emits `connect` with its `session`; anything else is
      ignored. */
  function FrameReceived(s: Session, f: Frame): (r: (Session, LibClient.Outcome))
    ensures r.0.subscriptions == s.subscriptions && r.0.sent == s.sent
    ensures r.1 != LibClient.Returned <==> f.command == "MESSAGE" && LibClient.DestinationKey(f.headers) !in s.subscriptions
    ensures r.1 != LibClient.Returned ==> r.0 == s
    ensures f.command != "MESSAGE" && f.command != "CONNECTED" ==> r.0 == s
  {
    if f.command == "MESSAGE" then
      var key := LibClient.DestinationKey(f.headers);
      if key in s.subscriptions then
        (s.(events := s.events + LibClient.Deliveries(s.subscriptions[key], f.body, f.headers)), LibClient.Returned)
      else (s, LibClient.Threw(LibClient.TypeError))
    else if f.command == "CONNECTED" then
      (s.(events := s.events + [LibClient.ConnectEmitted(Get(f.headers, "session"))]), LibClient.Returned)
    else (s, LibClient.Returned)
  }

  /** The first subscription to a queue writes one SUBSCRIBE whose only
      header is the destination; later ones write nothing. Either way the
      callback goes to the end of the queue's list and no other queue
      changes. */
  lemma SubscribeOnce(s: Session, queue: string, callback: CallbackId)
    ensures var r := Subscribing(s, queue, callback);
      && r.sent == (if queue in s.subscriptions then s.sent
                    else s.sent + [Frame("SUBSCRIBE", [("destination", queue)], "")])
      && r.subscriptions[queue] == (if queue in s.subscriptions then s.subscriptions[queue] else []) + [callback]
      && (forall q :: q != queue ==> (q in r.subscriptions <==> q in s.subscriptions))
      && (forall q :: q != queue && q in s.subscriptions ==> r.subscriptions[q] == s.subscriptions[q])
      && r.events == s.events
  {
  }

  /** A MESSAGE reaches the destination's callbacks in subscription order,
      and throws when the destination was never subscribed. */
  lemma MessageDispatch(s: Session, f: Frame)
    requires f.command == "MESSAGE"
    ensures var r := FrameReceived(s, f);
      var key := LibClient.DestinationKey(f.headers);
      && (key in s.subscriptions <==> r.1 == LibClient.Returned)
      && (key in s.subscriptions ==>
            && |r.0.events| == |s.events| + |s.subscriptions[key]|
            && r.0.events[..|s.events|] == s.events
            && forall i :: 0 <= i < |s.subscriptions[key]| ==>
                 r.0.events[|s.events| + i] == LibClient.Invoked(s.subscriptions[key][i], f.body, f.headers))
      && r.0.subscriptions == s.subscriptions && r.0.sent == s.sent
  {
  }

  /** The older client's SEND is the one the current client writes when
      given no headers. */
  lemma PublishAgreesWithLibClient(s: Session, l: LibClient.Session, queue: string, message: string)
    requires l.hasStream && l.sent == s.sent
    ensures LibClient.Publishing(l, queue, Some(message), LibClient.Absent).0.sent == Publishing(s, queue, message).sent
  {
    LibClient.PublishSends(l, queue, message);
  }

  /** The older client's SUBSCRIBE is the one the current client writes
      when given no headers. */
  lemma SubscribeAgreesWithLibClient(s: Session, l: LibClient.Session, queue: string, callback: CallbackId)
    requires l.hasStream && l.sent == s.sent && l.subscriptions == s.subscriptions
    ensures var r := LibClient.Subscribing(l, queue, LibClient.Absent, LibClient.Callback(callback));
      && r.1 == LibClient.Returned
      && r.0.sent == Subscribing(s, queue, callback).sent
      && r.0.subscriptions == Subscribing(s, queue, callback).subscriptions
  {
    if queue in l.subscriptions {
      LibClient.RepeatSubscribeAppends(l, queue, LibClient.Absent, callback);
    } else {
      LibClient.FirstSubscribeSends(l, queue, LibClient.Absent, callback);
      LibClient.OnlyDestination(queue);
      assert [] + [callback] == [callback];
    }
  }

  class StompClient {
    const user: string
    const pass: string
    var subscriptions: map<string, seq<CallbackId>>
    var sent: seq<Frame>
    var events: seq<LibClient.Event>

    function State(): Session
      reads this
    {
      Session(subscriptions, sent, events)
    }

    /** `new StompClient(address, port, user, pass)`: the address and port
        only reach the socket. */
    constructor (user: string, pass: string)
      ensures this.user == user && this.pass == pass
      ensures State() == Session(map[], [], [])
    {
      this.user, this.pass := user, pass;
      subscriptions, sent, events := map[], [], [];
    }

    /** The CONNECT frame `onConnect` writes: `login` and `passcode`, as
        the current client writes it. */
    method OnConnect()
      modifies this
      ensures State() == old(State()).(sent := old(sent) + [LibClient.ConnectFrame(user, pass)])
    {
      sent := sent + [Frame("CONNECT", [("login", user), ("passcode", pass)], "")];
    }

    method Subscribe(queue: string, callback: CallbackId)
      modifies this
      ensures State() == Subscribing(old(State()), queue, callback)
    {
      if queue !in subscriptions {
        subscriptions := subscriptions[queue := []];
        sent := sent + [Frame("SUBSCRIBE", [("destination", queue)], "")];
      }
      subscriptions := subscriptions[queue := subscriptions[queue] + [callback]];
    }

    method Publish(queue: string, message: string)
      modifies this
      ensures State() == Publishing(old(State()), queue, message)
    {
      sent := sent + [Frame("SEND", [("destination", queue)], message)];
    }

    /** The `frame` handler. */
    method OnFrame(frame: Frame) returns (outcome: LibClient.Outcome)
      modifies this
      ensures (State(), outcome) == FrameReceived(old(State()), frame)
    {
      if frame.command == "MESSAGE" {
        var key := LibClient.DestinationKey(frame.headers);
        if key !in subscriptions {
          return LibClient.Threw(LibClient.TypeError);
        }
        var subscribed := subscriptions[key];
        for i := 0 to |subscribed|
          invariant State() == old(State()).(events := old(events) + LibClient.Deliveries(subscribed[..i], frame.body, frame.headers))
        {
          assert subscribed[..i + 1][..i] == subscribed[..i];
          events := events + [LibClient.Invoked(subscribed[i], frame.body, frame.headers)];
        }
        assert subscribed[..|subscribed|] == subscribed;
      }
      if frame.command == "CONNECTED" {
        events := events + [LibClient.ConnectEmitted(Get(frame.headers, "session"))];
      }
      outcome := LibClient.Returned;
    }
  }
}
