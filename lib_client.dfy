/** `StompClient` of `lib/client.js`: the client's bookkeeping of
    subscriptions and what it writes to and hears from the broker. The
    socket is the log `sent` of the frames written to it (each written as
    `Wire.Encode` gives it) and `hasStream` (whether `connect` has created
    it); callbacks are opaque identities, and what they are called with is
    the log `events`. */
module LibClient {
  import opened Js
  import opened Dict
  import opened Wire
  import LibFrame

  /** A callback function, known only by its identity. */
  type CallbackId = nat

  /** An argument that the client inspects by type: absent (`undefined` or
      `null`), a function, or an object of string values (truthy even when
      empty). */
  datatype Arg = Absent | Callback(id: CallbackId) | Object(fields: Dict<string>)

  /** What `_extend(origin, add)` returns: `origin` itself unless `add` is
      an object, whose keys are then assigned from the last to the first. */
  function Extended(origin: Dict<string>, add: Arg): (r: Dict<string>)
    ensures !add.Object? ==> r == origin
    ensures Keys(origin) <= Keys(r)
    ensures forall k :: k in Keys(r) <==> k in Keys(origin) || (add.Object? && k in Keys(add.fields))
  {
    if add.Object? then
      ReversedKeys(add.fields);
      PutAll(origin, Reversed(add.fields))
    else origin
  }

  /** `_extend`, with its `while (i--)` loop. The i-th key of `add` and
      `add[keys[i]]` are the i-th pair of `add.fields`. */
  method Extend(origin: Dict<string>, add: Arg) returns (r: Dict<string>)
    ensures r == Extended(origin, add)
  {
    r := origin;
    if !add.Object? {
      return;
    }
    var keys := Keys(add.fields);
    var i := |keys|;
    while i > 0
      invariant 0 <= i <= |keys|
      invariant r == PutAll(origin, Reversed(add.fields[i..]))
    {
      i := i - 1;
      assert add.fields[i..][1..] == add.fields[i + 1..];
      PutAllSnoc(origin, Reversed(add.fields[i + 1..]), add.fields[i]);
      r := Put(r, keys[i], add.fields[i].1);
    }
    assert add.fields[0..] == add.fields;
  }

  /** Every key of `add` takes `add`'s value, and keys only in `origin`
      keep theirs; the result is a proper object again. */
  lemma ExtendedLookup(origin: Dict<string>, add: Arg, k: string)
    requires add.Object? ==> UniqueKeys(add.fields)
    ensures UniqueKeys(origin) ==> UniqueKeys(Extended(origin, add))
    ensures Get(Extended(origin, add), k)
         == if add.Object? && k in Keys(add.fields) then Get(add.fields, k) else Get(origin, k)
  {
    if add.Object? {
      ReversedKeys(add.fields);
      PutAllGet(origin, Reversed(add.fields), k);
    }
  }

  /** Into a fresh `{}`, `_extend` copies the object with its keys in the
      reverse order. */
  lemma ExtendedIntoEmpty(h: Dict<string>)
    requires UniqueKeys(h)
    ensures Extended([], Object(h)) == Reversed(h)
  {
    ReversedKeys(h);
    PutAllFresh([], Reversed(h));
    assert [] + Reversed(h) == Reversed(h);
  }

  /** The headers of an outbound SUBSCRIBE, UNSUBSCRIBE or SEND:
      `_extend({}, given)` with `destination` forced to the queue. */
  function WithDestination(given: Arg, queue: string): (r: Dict<string>)
    ensures Get(r, "destination") == Some(queue)
    ensures forall k :: k in Keys(r) <==> k == "destination" || (given.Object? && k in Keys(given.fields))
  {
    PutGet(Extended([], given), "destination", queue, "destination");
    Put(Extended([], given), "destination", queue)
  }

  /** The outbound headers are the caller's, except that `destination` is
      always the queue, whatever the caller gave. */
  lemma DestinationForced(given: Arg, queue: string, k: string)
    requires given.Object? ==> UniqueKeys(given.fields)
    ensures UniqueKeys(WithDestination(given, queue))
    ensures Get(WithDestination(given, queue), k)
         == if k == "destination" then Some(queue)
            else if given.Object? then Get(given.fields, k)
            else None
  {
    ExtendedLookup([], given, k);
    PutGet(Extended([], given), "destination", queue, k);
    PutUnique(Extended([], given), "destination", queue);
  }

  /** Without caller headers the only header is the destination. */
  lemma OnlyDestination(queue: string)
    ensures WithDestination(Absent, queue) == [("destination", queue)]
  {
  }

  /** `StompFrameCommands['1.0']`: for each command the broker may send,
      the rules its headers must satisfy. ERROR and RECEIPT have none. */
  const Commands10: Dict<Dict<LibFrame.Rule>> := [
    ("CONNECTED", [("session", LibFrame.Rule(true, None))]),
    ("MESSAGE", [("destination", LibFrame.Rule(true, None)), ("message-id", LibFrame.Rule(true, None))]),
    ("ERROR", []),
    ("RECEIPT", [])
  ]

  /** `StompFrameCommands[version]`: only "1.0" has a table. */
  function Commands(version: string): (r: Option<Dict<Dict<LibFrame.Rule>>>)
    ensures r.Some? <==> version == "1.0"
    ensures r.Some? ==> Keys(r.value) == ["CONNECTED", "MESSAGE", "ERROR", "RECEIPT"]
  {
    if version == "1.0" then Some(Commands10) else None
  }

  /** An inbound CONNECTED frame is accepted exactly when it carries
      `session`, and otherwise is refused with the missing-header message. */
  lemma ConnectedNeedsSession(headers: Dict<string>, json: string, matches: (string, string) -> bool)
    ensures Get(Commands10, "CONNECTED") == Some([("session", LibFrame.Rule(true, None))])
    ensures var v := LibFrame.Check(headers, Get(Commands10, "CONNECTED").value, json, matches);
      && (v == LibFrame.Valid <==> "session" in Keys(headers))
      && (v != LibFrame.Valid ==> v == LibFrame.Invalid(LibFrame.MissingMessage("session", json)))
  {
  }

  /** An inbound MESSAGE must carry `destination` and `message-id`; a
      missing `destination` is the one reported when both are missing. */
  lemma MessageNeedsDestinationAndId(headers: Dict<string>, json: string, matches: (string, string) -> bool)
    ensures var table := Get(Commands10, "MESSAGE").value;
      var v := LibFrame.Check(headers, table, json, matches);
      && (v == LibFrame.Valid <==> "destination" in Keys(headers) && "message-id" in Keys(headers))
      && ("destination" !in Keys(headers) ==> v == LibFrame.Invalid(LibFrame.MissingMessage("destination", json)))
  {
    var table := Get(Commands10, "MESSAGE").value;
    assert table == [("destination", LibFrame.Rule(true, None)), ("message-id", LibFrame.Rule(true, None))];
    LibFrame.CheckValidIff(headers, table, json, matches);
  }

  /** ERROR and RECEIPT frames are accepted whatever their headers. */
  lemma ErrorAndReceiptUnchecked(headers: Dict<string>, json: string, matches: (string, string) -> bool)
    ensures LibFrame.Check(headers, Get(Commands10, "ERROR").value, json, matches) == LibFrame.Valid
    ensures LibFrame.Check(headers, Get(Commands10, "RECEIPT").value, json, matches) == LibFrame.Valid
  {
  }

  /** The connection settings the constructor stores. */
  datatype Settings = Settings(user: string, pass: string, address: string, port: int, version: string)

  datatype Result<T> = Ok(value: T) | Failed(message: string)

  /** The constructor's defaults (`x || default`: an empty string and the
      port 0 are falsy) and its check that the version has a table. */
  function Configure(address: Option<string>, port: Option<int>, user: Option<string>, pass: Option<string>,
                     protocolVersion: Option<string>): (r: Result<Settings>)
    ensures r.Ok? <==> LibFrame.OrString(protocolVersion, "1.0") == "1.0"
    ensures r.Ok? ==> r.value.port != 0 && r.value.address != "" && r.value.version == "1.0"
    ensures r.Failed? ==> r.message == "STOMP version " + protocolVersion.value + " is not supported"
  {
    var version := LibFrame.OrString(protocolVersion, "1.0");
    if Commands(version).None? then
      Failed("STOMP version " + version + " is not supported")
    else
      Ok(Settings(LibFrame.OrString(user, ""), LibFrame.OrString(pass, ""), LibFrame.OrString(address, "127.0.0.1"),
                  if port.Some? && port.value != 0 then port.value else 61613, version))
  }

  /** With no argument the client talks STOMP 1.0 to 127.0.0.1:61613 with
      empty credentials. */
  lemma DefaultSettings()
    ensures Configure(None, None, None, None, None) == Ok(Settings("", "", "127.0.0.1", 61613, "1.0"))
  {
  }

  /** What a callback was called with, or an event the client emitted. */
  datatype Event =
    | Invoked(callback: CallbackId, body: string, headers: Dict<string>)
    | ConnectEmitted(session: Option<string>)

  datatype Error = AssertionError(message: string) | TypeError

  /** How a call ended: it returned, or it threw. */
  datatype Outcome = Returned | Threw(error: Error)

  /** The client's changing state. */
  datatype Session = Session(
    subscriptions: map<string, seq<CallbackId>>,
    hasStream: bool,
    sent: seq<Frame>,
    events: seq<Event>)

  /** `new StompFrame(f).send(this.stream)`: without a stream, `send`
      throws a TypeError before writing anything. */
  function Sent(s: Session, f: Frame): (r: (Session, Outcome))
    ensures r.1 == Returned <==> s.hasStream
    ensures r.1 != Returned ==> r == (s, Threw(TypeError))
    ensures r.0.subscriptions == s.subscriptions && r.0.events == s.events && r.0.hasStream == s.hasStream
    ensures r.0.sent == if s.hasStream then s.sent + [f] else s.sent
  {
    if s.hasStream then (s.(sent := s.sent + [f]), Returned) else (s, Threw(TypeError))
  }

  /** `subscribe`'s argument juggling: a function in either position is the
      callback (the last one wins) and is replaced by `null`; the headers
      are `_headers || _callback` after that. */
  function SubscribeArgs(headersArg: Arg, callbackArg: Arg): (r: (Option<CallbackId>, Arg))
    ensures r.0.Some? <==> headersArg.Callback? || callbackArg.Callback?
    ensures callbackArg.Callback? ==> r.0 == Some(callbackArg.id)
    ensures !r.1.Callback?
    ensures r.1.Object? ==> r.1 == headersArg || r.1 == callbackArg
  {
    var callback := if callbackArg.Callback? then Some(callbackArg.id)
                    else if headersArg.Callback? then Some(headersArg.id)
                    else None;
    var h := if headersArg.Callback? then Absent else headersArg;
    var c := if callbackArg.Callback? then Absent else callbackArg;
    (callback, if h != Absent then h else c)
  }

  /** `subscribe(queue, _headers, _callback)`. */
  function Subscribing(s: Session, queue: string, headersArg: Arg, callbackArg: Arg): (r: (Session, Outcome))
    ensures r.0.events == s.events && r.0.hasStream == s.hasStream
    ensures r.1 == Returned <==> SubscribeArgs(headersArg, callbackArg).0.Some? && (queue in s.subscriptions || s.hasStream)
    ensures r.1.Threw? && r.1.error.AssertionError? <==> SubscribeArgs(headersArg, callbackArg).0.None?
    ensures s.sent <= r.0.sent && |r.0.sent| <= |s.sent| + 1
    ensures |r.0.sent| > |s.sent| <==> r.1 == Returned && queue !in s.subscriptions
    ensures forall q :: q != queue ==> (q in r.0.subscriptions <==> q in s.subscriptions)
    ensures forall q :: q != queue && q in s.subscriptions ==> r.0.subscriptions[q] == s.subscriptions[q]
    ensures r.1 == Returned ==>
      queue in r.0.subscriptions &&
      r.0.subscriptions[queue] == (if queue in s.subscriptions then s.subscriptions[queue] else [])
                                  + [SubscribeArgs(headersArg, callbackArg).0.value]
  {
    var args := SubscribeArgs(headersArg, callbackArg);
    if args.0.None? then
      (s, Threw(AssertionError("callback is mandatory on subscribe")))
    else
      var step := if queue !in s.subscriptions
        then Sent(s.(subscriptions := s.subscriptions[queue := []]), Frame("SUBSCRIBE", WithDestination(args.1, queue), ""))
        else (s, Returned);
      if step.1.Threw? then step
      else
        var s1 := step.0;
        (s1.(subscriptions := s1.subscriptions[queue := s1.subscriptions[queue] + [args.0.value]]), Returned)
  }

  /** `unsubscribe(queue, headers)`: the UNSUBSCRIBE is sent first, then
      the queue's whole entry is deleted. */
  function Unsubscribing(s: Session, queue: string, headersArg: Arg): (r: (Session, Outcome))
    ensures r.1 == Returned <==> s.hasStream
    ensures r.1 != Returned ==> r.0 == s
    ensures r.1 == Returned ==>
      && r.0.subscriptions == s.subscriptions - {queue}
      && |r.0.sent| == |s.sent| + 1 && r.0.sent[..|s.sent|] == s.sent
      && r.0.sent[|s.sent|].command == "UNSUBSCRIBE"
      && Get(r.0.sent[|s.sent|].headers, "destination") == Some(queue)
    ensures r.0.events == s.events && r.0.hasStream == s.hasStream
  {
    var step := Sent(s, Frame("UNSUBSCRIBE", WithDestination(headersArg, queue), ""));
    if step.1.Threw? then step
    else (step.0.(subscriptions := step.0.subscriptions - {queue}), Returned)
  }

  /** `publish(queue, message, headers)`: one SEND with the message as its
      body (`message || ''`). */
  function Publishing(s: Session, queue: string, message: Option<string>, headersArg: Arg): (r: (Session, Outcome))
    ensures r.1 == Returned <==> s.hasStream
    ensures r.0.subscriptions == s.subscriptions && r.0.events == s.events && r.0.hasStream == s.hasStream
    ensures r.1 != Returned ==> r.0 == s
    ensures r.1 == Returned ==>
      && |r.0.sent| == |s.sent| + 1 && r.0.sent[..|s.sent|] == s.sent
      && r.0.sent[|s.sent|].command == "SEND"
      && Get(r.0.sent[|s.sent|].headers, "destination") == Some(queue)
      && (message.Some? ==> r.0.sent[|s.sent|].body == message.value)
    ensures r.1 == Returned ==>
      r.0.sent == s.sent + [Frame("SEND", WithDestination(headersArg, queue), LibFrame.OrString(message, ""))]
  {
    Sent(s, Frame("SEND", WithDestination(headersArg, queue), LibFrame.OrString(message, "")))
  }

  /** `disconnect()`: a DISCONNECT frame when there is a stream, nothing
      otherwise. */
  function Disconnecting(s: Session): (r: Session)
    ensures r.subscriptions == s.subscriptions && r.events == s.events && r.hasStream == s.hasStream
    ensures !s.hasStream ==> r == s
    ensures s.hasStream ==> r.sent == s.sent + [Frame("DISCONNECT", [], "")]
  {
    if s.hasStream then Sent(s, Frame("DISCONNECT", [], "")).0 else s
  }

  /** The frame `onConnect` sends: `login` and `passcode`, no body. */
  function ConnectFrame(user: string, pass: string): (f: Frame)
    ensures Keys(f.headers) == ["login", "passcode"] && f.body == ""
  {
    Frame("CONNECT", [("login", user), ("passcode", pass)], "")
  }

  /** The CONNECT frame on the wire: no `content-length` and no body. */
  lemma ConnectOnTheWire(user: string, pass: string)
    ensures Encode(ConnectFrame(user, pass)) == "CONNECT\nlogin:" + user + "\npasscode:" + pass + "\n\n\0"
  {
    TwoHeaderLines(("login", user), ("passcode", pass));
    EncodeEmptyBody(ConnectFrame(user, pass));
  }

  /** `frame.headers.destination` used as a property name: a missing
      header is `undefined`, which names the key "undefined". */
  function DestinationKey(headers: Dict<string>): (r: string)
    ensures "destination" in Keys(headers) ==> Get(headers, "destination") == Some(r)
    ensures "destination" !in Keys(headers) ==> r == "undefined"
  {
    match Get(headers, "destination")
    case Some(d) => d
    case None => "undefined"
  }

  /** One `callback(frame.body, frame.headers)` per callback, in order. */
  function Deliveries(callbacks: seq<CallbackId>, body: string, headers: Dict<string>): (r: seq<Event>)
    ensures |r| == |callbacks|
    ensures forall i :: 0 <= i < |callbacks| ==> r[i] == Invoked(callbacks[i], body, headers)
  {
    if callbacks == [] then []
    else Deliveries(callbacks[..|callbacks| - 1], body, headers) + [Invoked(callbacks[|callbacks| - 1], body, headers)]
  }

  /** The MESSAGE handler: the callbacks of the frame's destination, none
      when it has no entry. */
  function MessageReceived(s: Session, f: Frame): (r: Session)
    ensures r.subscriptions == s.subscriptions && r.sent == s.sent && r.hasStream == s.hasStream
    ensures |r.events| == |s.events| + (if DestinationKey(f.headers) in s.subscriptions
                                        then |s.subscriptions[DestinationKey(f.headers)]| else 0)
    ensures r.events[..|s.events|] == s.events
    ensures forall i :: |s.events| <= i < |r.events| ==>
      r.events[i].Invoked? && r.events[i].body == f.body && r.events[i].headers == f.headers
    ensures DestinationKey(f.headers) in s.subscriptions ==>
      forall i :: 0 <= i < |s.subscriptions[DestinationKey(f.headers)]| ==>
        r.events[|s.events| + i] == Invoked(s.subscriptions[DestinationKey(f.headers)][i], f.body, f.headers)
  {
    var key := DestinationKey(f.headers);
    if key in s.subscriptions then s.(events := s.events + Deliveries(s.subscriptions[key], f.body, f.headers))
    else s
  }

  /** The CONNECTED handler: emits `connect` with the `session` header. */
  function ConnectedReceived(s: Session, f: Frame): (r: Session)
    ensures r.subscriptions == s.subscriptions && r.sent == s.sent && r.hasStream == s.hasStream
    ensures |r.events| == |s.events| + 1 && r.events[..|s.events|] == s.events
    ensures r.events[|s.events|] == ConnectEmitted(Get(f.headers, "session"))
  {
    s.(events := s.events + [ConnectEmitted(Get(f.headers, "session"))])
  }

  /** The callback and headers may come in either order. */
  lemma SubscribeEitherOrder(s: Session, queue: string, h: Arg, c: CallbackId)
    requires !h.Callback?
    ensures Subscribing(s, queue, h, Callback(c)) == Subscribing(s, queue, Callback(c), h)
  {
  }

  /** Without a function argument nothing happens but the assertion error. */
  lemma SubscribeNeedsCallback(s: Session, queue: string, h: Arg, c: Arg)
    requires !h.Callback? && !c.Callback?
    ensures Subscribing(s, queue, h, c) == (s, Threw(AssertionError("callback is mandatory on subscribe")))
  {
  }

  /** The first subscription to a queue sends one SUBSCRIBE and starts the
      queue's list with the callback. */
  lemma FirstSubscribeSends(s: Session, queue: string, h: Arg, c: CallbackId)
    requires s.hasStream && queue !in s.subscriptions && !h.Callback?
    ensures Subscribing(s, queue, h, Callback(c))
         == (s.(subscriptions := s.subscriptions[queue := [c]],
                sent := s.sent + [Frame("SUBSCRIBE", WithDestination(h, queue), "")]), Returned)
  {
    assert [] + [c] == [c];
    assert s.subscriptions[queue := []][queue := [c]] == s.subscriptions[queue := [c]];
  }

  /** A further subscription to a queue sends nothing and appends the
      callback to the end of the list. */
  lemma RepeatSubscribeAppends(s: Session, queue: string, h: Arg, c: CallbackId)
    requires queue in s.subscriptions && !h.Callback?
    ensures Subscribing(s, queue, h, Callback(c))
         == (s.(subscriptions := s.subscriptions[queue := s.subscriptions[queue] + [c]]), Returned)
  {
  }

  /** Subscribing twice to a new queue writes one SUBSCRIBE, and a MESSAGE
      for the queue then reaches both callbacks in subscription order. */
  lemma SubscribeTwiceThenMessage(s: Session, queue: string, c1: CallbackId, c2: CallbackId, f: Frame)
    requires s.hasStream && queue !in s.subscriptions
    requires Get(f.headers, "destination") == Some(queue)
    ensures var s1 := Subscribing(s, queue, Absent, Callback(c1)).0;
      var s2 := Subscribing(s1, queue, Absent, Callback(c2)).0;
      && s2.sent == s.sent + [Frame("SUBSCRIBE", [("destination", queue)], "")]
      && MessageReceived(s2, f).events == s.events + [Invoked(c1, f.body, f.headers), Invoked(c2, f.body, f.headers)]
  {
    FirstSubscribeSends(s, queue, Absent, c1);
    var s1 := Subscribing(s, queue, Absent, Callback(c1)).0;
    RepeatSubscribeAppends(s1, queue, Absent, c2);
    var s2 := Subscribing(s1, queue, Absent, Callback(c2)).0;
    assert s2.subscriptions[queue] == [c1, c2];
    MessageToBoth(s2, queue, c1, c2, f);
  }

  /** A MESSAGE for a queue holding two callbacks calls both, in order. */
  lemma MessageToBoth(s: Session, queue: string, c1: CallbackId, c2: CallbackId, f: Frame)
    requires queue in s.subscriptions && s.subscriptions[queue] == [c1, c2]
    requires Get(f.headers, "destination") == Some(queue)
    ensures MessageReceived(s, f).events == s.events + [Invoked(c1, f.body, f.headers), Invoked(c2, f.body, f.headers)]
  {
    assert DestinationKey(f.headers) == queue;
    var d := Deliveries([c1, c2], f.body, f.headers);
    assert d == [Invoked(c1, f.body, f.headers), Invoked(c2, f.body, f.headers)];
  }

  /** Without a stream the first subscription throws after the queue's
      empty list is in place, so a later MESSAGE for it calls nothing. */
  lemma SubscribeWithoutStream(s: Session, queue: string, h: Arg, c: CallbackId)
    requires !s.hasStream && queue !in s.subscriptions && !h.Callback?
    ensures Subscribing(s, queue, h, Callback(c)) == (s.(subscriptions := s.subscriptions[queue := []]), Threw(TypeError))
  {
  }

  /** After `unsubscribe`, a MESSAGE for the queue calls nothing, and the
      other queues keep their callbacks. */
  lemma UnsubscribeSilences(s: Session, queue: string, h: Arg, f: Frame)
    requires s.hasStream && DestinationKey(f.headers) == queue
    ensures var r := Unsubscribing(s, queue, h);
      && r.1 == Returned
      && r.0.sent == s.sent + [Frame("UNSUBSCRIBE", WithDestination(h, queue), "")]
      && (forall q :: q != queue ==> (q in r.0.subscriptions <==> q in s.subscriptions))
      && (forall q :: q != queue && q in s.subscriptions ==> r.0.subscriptions[q] == s.subscriptions[q])
      && MessageReceived(r.0, f) == r.0
  {
  }

  /** Publishing writes one SEND and leaves the subscriptions alone; with
      no headers given its only header is the destination. */
  lemma PublishSends(s: Session, queue: string, message: string)
    requires s.hasStream
    ensures var r := Publishing(s, queue, Some(message), Absent);
      && r == (s.(sent := s.sent + [Frame("SEND", [("destination", queue)], message)]), Returned)
  {
    OnlyDestination(queue);
  }

  /** Whatever headers the caller gives, the SEND carries each of them with
      its value, except `destination`, which is always the queue; the body
      is the message, or empty without one. */
  lemma PublishCarriesHeaders(s: Session, queue: string, message: Option<string>, given: Arg, k: string)
    requires s.hasStream
    requires given.Object? ==> UniqueKeys(given.fields)
    ensures var f := Publishing(s, queue, message, given).0.sent[|s.sent|];
      && f.command == "SEND"
      && UniqueKeys(f.headers)
      && Get(f.headers, k) == (if k == "destination" then Some(queue)
                               else if given.Object? then Get(given.fields, k)
                               else None)
      && f.body == (if message.Some? then message.value else "")
  {
    DestinationForced(given, queue, k);
  }

  /** A MESSAGE for a destination with no entry, or with no `destination`
      header when "undefined" has no entry, changes nothing and throws
      nothing. */
  lemma UnsubscribedMessageIgnored(s: Session, f: Frame)
    requires DestinationKey(f.headers) !in s.subscriptions
    ensures MessageReceived(s, f) == s
  {
  }

  class StompClient {
    const user: string
    const pass: string
    const address: string
    const port: int
    const version: string
    var subscriptions: map<string, seq<CallbackId>>
    var hasStream: bool
    var sent: seq<Frame>
    var events: seq<Event>

    function State(): Session
      reads this
    {
      Session(subscriptions, hasStream, sent, events)
    }

    function Config(): Settings
    {
      Settings(user, pass, address, port, version)
    }

    /** The constructor after its version check passed. */
    constructor (settings: Settings)
      ensures Config() == settings
      ensures State() == Session(map[], false, [], [])
    {
      user, pass, address, port, version := settings.user, settings.pass, settings.address, settings.port, settings.version;
      subscriptions, hasStream, sent, events := map[], false, [], [];
    }

    /** `connect()`, as far as the client's state goes: the stream exists. */
    method Connect()
      modifies this
      ensures State() == old(State()).(hasStream := true)
    {
      hasStream := true;
    }

    method Subscribe(queue: string, headersArg: Arg, callbackArg: Arg) returns (outcome: Outcome)
      modifies this
      ensures (State(), outcome) == Subscribing(old(State()), queue, headersArg, callbackArg)
    {
      var callback: Option<CallbackId> := None;
      var headersGiven, callbackGiven := headersArg, callbackArg;
      if headersGiven.Callback? {
        callback := Some(headersGiven.id);
        headersGiven := Absent;
      }
      if callbackGiven.Callback? {
        callback := Some(callbackGiven.id);
        callbackGiven := Absent;
      }
      if callback.None? {
        return Threw(AssertionError("callback is mandatory on subscribe"));
      }
      var headers := Extend([], if headersGiven != Absent then headersGiven else callbackGiven);
      headers := Put(headers, "destination", queue);
      if queue !in subscriptions {
        subscriptions := subscriptions[queue := []];
        outcome := Send(Frame("SUBSCRIBE", headers, ""));
        if outcome.Threw? {
          return;
        }
      }
      subscriptions := subscriptions[queue := subscriptions[queue] + [callback.value]];
      outcome := Returned;
    }

    method Unsubscribe(queue: string, headersArg: Arg) returns (outcome: Outcome)
      modifies this
      ensures (State(), outcome) == Unsubscribing(old(State()), queue, headersArg)
    {
      var headers := Extend([], headersArg);
      headers := Put(headers, "destination", queue);
      outcome := Send(Frame("UNSUBSCRIBE", headers, ""));
      if outcome.Threw? {
        return;
      }
      subscriptions := subscriptions - {queue};
    }

    method Publish(queue: string, message: Option<string>, headersArg: Arg) returns (outcome: Outcome)
      modifies this
      ensures (State(), outcome) == Publishing(old(State()), queue, message, headersArg)
    {
      var headers := Extend([], headersArg);
      headers := Put(headers, "destination", queue);
      outcome := Send(Frame("SEND", headers, LibFrame.OrString(message, "")));
    }

    method Disconnect()
      modifies this
      ensures State() == Disconnecting(old(State()))
    {
      if hasStream {
        var _ := Send(Frame("DISCONNECT", [], ""));
      }
    }

    /** The CONNECT frame `onConnect` writes; it runs as the stream's
        `connect` handler, so the stream exists. */
    method OnConnect()
      requires hasStream
      modifies this
      ensures State() == old(State()).(sent := old(sent) + [ConnectFrame(user, pass)])
    {
      var _ := Send(Frame("CONNECT", [("login", user), ("passcode", pass)], ""));
    }

    /** The MESSAGE handler: `subscribed.map(callback => callback(body, headers))`. */
    method OnMessage(frame: Frame)
      modifies this
      ensures State() == MessageReceived(old(State()), frame)
    {
      var key := DestinationKey(frame.headers);
      if key in subscriptions {
        var subscribed := subscriptions[key];
        for i := 0 to |subscribed|
          invariant State() == old(State()).(events := old(events) + Deliveries(subscribed[..i], frame.body, frame.headers))
        {
          assert subscribed[..i + 1][..i] == subscribed[..i];
          events := events + [Invoked(subscribed[i], frame.body, frame.headers)];
        }
        assert subscribed[..|subscribed|] == subscribed;
      }
    }

    method OnConnected(frame: Frame)
      modifies this
      ensures State() == ConnectedReceived(old(State()), frame)
    {
      events := events + [ConnectEmitted(Get(frame.headers, "session"))];
    }

    /** `new StompFrame(f).send(this.stream)`. */
    method Send(f: Frame) returns (outcome: Outcome)
      modifies this
      ensures (State(), outcome) == Sent(old(State()), f)
    {
      if !hasStream {
        return Threw(TypeError);
      }
      sent := sent + [f];
      outcome := Returned;
    }
  }

  /** `new StompClient(address, port, user, pass, protocolVersion)`: the
      assertion on the version throws before the client can be used. */
  method NewStompClient(address: Option<string>, port: Option<int>, user: Option<string>, pass: Option<string>,
                        protocolVersion: Option<string>) returns (r: Result<StompClient>)
    ensures r.Ok? <==> Configure(address, port, user, pass, protocolVersion).Ok?
    ensures r.Ok? ==>
      && fresh(r.value)
      && r.value.Config() == Configure(address, port, user, pass, protocolVersion).value
      && r.value.State() == Session(map[], false, [], [])
    ensures r.Failed? ==> r.message == Configure(address, port, user, pass, protocolVersion).message
  {
    var settings := Configure(address, port, user, pass, protocolVersion);
    if settings.Failed? {
      return Failed(settings.message);
    }
    var client := new StompClient(settings.value);
    return Ok(client);
  }
}
