# node-stomp-broker in Dafny

A model of the STOMP framing and client bookkeeping of node-stomp-broker, with
proofs about it. It covers three pieces.

- **The broker's incremental frame parser** (`server.js`). `StompFrameBuffer`
  is a three-state machine (COMMAND, HEADERS, BODY) over a text buffer that
  grows one chunk at a time. It fills in a `Request`. The class methods
  (module `Server`) are proved to perform exactly the steps of pure functions
  on a value view of the parser (`CommandParsed`, `HeadersParsed`,
  `LengthTaken`, `NulScanned`, `BodyParsed`, `DataHandled`). Those functions
  carry their own guarantees:
  - the state stays in range;
  - the buffer only ever loses a prefix;
  - body and buffer together lose nothing but the terminating NUL;
  - the header step leaves HEADERS only just after a blank line;
  - while the body is within the announced length, the length-driven branch
    never takes it past that length, and it resets `contentLength` exactly
    when the length is reached.
- **The frame objects and their wire encoder.** These are `StompFrame` in
  `lib/frame.js` (module `LibFrame`) and in `frame.js` (module `RootFrame`),
  and `StompRequest` in `request.js` (module `RootRequest`). Each `send`
  writes to a `Wire.Stream` and is proved to write exactly `Wire.Encode` of
  the frame. `validate` is proved equal to the pure `LibFrame.Check`, which
  accepts exactly the frames satisfying every rule and names the first
  broken rule.
- **The two clients' subscription bookkeeping.** These are `lib/client.js`
  (module `LibClient`) and the older `client.js` (module `RootClient`).
  - The socket is modelled as the log of frames written to it.
  - Callbacks are opaque identities.
  - What the callbacks receive is a log of events.
  - The `while (i--)` loop of `_extend` is a method proved against
    `Dict.PutAll` over the reversed pairs.
  - Each client method is proved to perform one step function on the
    client's state, and lemmas relate the steps to one another.

Module `Decoding` connects the encoder to the parser. From the start of a
frame, one `handleData` call on the wire form of a frame yields:
- the frame's command;
- its headers, with the synthesised `content-length` added for a non-empty
  body;
- its body, which may then contain any character;
- the state back at COMMAND;
- whatever followed the NUL, still in the buffer.

Module `Chunking` shows that the same frame, cut anywhere before its NUL and
delivered in two `handleData` calls, is read exactly as in one call.

This holds when the command is a single line, header keys and values contain
no colon or newline, and no header is `content-length`-like. The request must
also hold no body and no announced length from an earlier frame, as on the
first frame of a connection. Headers from earlier frames stay, since the
decoded headers are assigned over the request's existing ones.

Headers are JavaScript objects. They are modelled as association lists
(`Dict.Dict`) in insertion order: assigning an existing key keeps its place,
and assigning a new key appends it. `contentLength` is `Js.Number`, an
integer or NaN.

The code departs from an idealised STOMP decoder, and the model follows the
code:
- leading blank lines are not skipped, and commands are not checked against
  any vocabulary (`Server.CommandParsed`);
- a repeated header overwrites the earlier value instead of the first one
  winning (`Server.RepeatedHeaderOverwrites`);
- a header value is cut at a second colon (`Js.SplitColon`);
- a line without a colon is stored with an `undefined` value rather than
  raising an error;
- after the announced length, the body keeps growing until a NUL;
- once a request's body is longer than its announced length (a stale
  request whose second frame announces a shorter body), the length branch
  never resets and the parser stays in BODY for ever
  (`Server.BodyPastLengthStalls`, `Chunking.StaleBodyNeverEnds`,
  `Decoding.ShorterSecondFrameStalls`);
- there is no loop back for a second frame in the same chunk
  (`Decoding.EncodedFrameDecodes` leaves it in the buffer);
- the request object is never replaced after a frame completes, so a second
  frame's body is appended to the first one's
  (`Decoding.SecondFrameAccumulates`);
- only protocol version "1.0" has a validation table.

The test suite expects the default port 2098, while the code uses 61613; the
model follows the code (`LibClient.DefaultSettings`).

## Model

| member | source | states |
|---|---|---|
| Js.IndexOf | server.js:53 | `indexOf` gives the first position of the character, or -1 exactly when it is absent |
| Js.Slice | server.js:88 | `slice(start, end)` is the plain subsequence for in-range bounds, the whole string for an end past it, and counts a negative end from the end of the string |
| Js.Substr | server.js:89 | `substr(start)` is the tail from an in-range start, empty past the end, counts a negative start from the end, and is always a suffix |
| Js.SliceSubstrTake | server.js:88-89 | `slice(0, k)` and `substr(k)` split the buffer in two for every `k`, negative ones included; for `k >= 0` the first part has at most `k` characters, and fewer only when the rest is empty |
| Js.IndexOfAppend | server.js:53 | the first position of a character in a longer text is its position in the first part when it occurs there, and otherwise is found in the second part or absent |
| Js.CutInFirst | server.js:88-89 | cutting a joined text within its first part cuts the first part and keeps the second behind it |
| Js.CutInSecond | server.js:88-89 | cutting a joined text within its second part takes all of the first part and cuts the second |
| Js.SplitColon | server.js:74 | `split(':', 2)` gives the text before the first colon and the text up to the second colon, or `undefined` when the line has no colon |
| Js.SplitColonPair | server.js:74 | a line `key:value` with no other colon splits back into exactly that key and value |
| Js.ToLowerCase | server.js:131 | lower-casing keeps the length and lowers each character |
| Js.ParseInt | server.js:132 | `parseInt` gives a number exactly when the text starts with a digit, and then a non-negative one; otherwise NaN |
| Js.NatToString | lib/frame.js:25 | the decimal rendering of a length is a non-empty run of digits |
| Js.ParseIntOfNatToString | lib/frame.js:25 | the decimal length that `send` writes parses back to that length |
| Dict.Get | lib/frame.js:68 | `o[k]` is `undefined` exactly when `k` is not a key, and otherwise a value stored under `k` |
| Dict.Put | server.js:130 | `o[k] = v` keeps the key order when `k` is present and appends `k` otherwise |
| Dict.PutGet | server.js:130 | after `o[k] = v`, `o[k]` is `v` and every other key reads as before |
| Dict.PutUnique | server.js:130 | assignment keeps the keys distinct |
| Dict.PutAll | lib/client.js:16-18 | a series of assignments keeps the old keys in their places and ends with exactly the old keys and the assigned ones |
| Dict.PutAllGet | lib/client.js:16-18 | after a series of assignments, a key holds its last assigned value, or its old value if never assigned |
| Dict.ReversedKeys | lib/client.js:14-18 | visiting the keys last to first visits the same keys with the same values |
| Wire.Encode | lib/frame.js:19-32 | the wire form starts with the command line and ends with a newline, the body and a NUL |
| Wire.EncodeEmptyBody | lib/frame.js:24-31 | an empty body gives no `content-length` line and no body bytes; the output ends in a blank line and a NUL |
| Wire.HeaderLinesAppend | lib/frame.js:21-23 | the header lines of two groups of headers are the lines of the first group followed by those of the second |
| Wire.Stream.Write | lib/frame.js:20 | a write appends its data to what the stream has received |
| LibFrame.OrString | lib/frame.js:5-7 | `x \|\| ''` keeps a non-empty string and otherwise gives the default |
| LibFrame.Initial | lib/frame.js:1-9 | the constructor takes command, headers and body from the argument, with falsy or missing ones replaced by `''`, `{}` and `''` |
| LibFrame.StompFrame.constructor | lib/frame.js:1-9 | a new frame is `Initial` of its argument, with `contentLength` -1 |
| LibFrame.StompFrame.Send | lib/frame.js:19-32 | the stream receives exactly `Encode` of the frame, after what it already held |
| LibFrame.StompFrame.SetCommand | lib/frame.js:34-36 | only the command changes |
| LibFrame.StompFrame.SetHeader | lib/frame.js:38-43 | the header is assigned, and `contentLength` becomes the parsed value exactly when the key is `content-length` in any case; otherwise it is unchanged |
| LibFrame.StompFrame.AppendToBody | lib/frame.js:45-47 | the body becomes the old body followed by the data; nothing else changes |
| LibFrame.StompFrame.Validate | lib/frame.js:49-78 | the loop with early returns answers `Check` for the table and changes nothing |
| LibFrame.Check | lib/frame.js:49-78 | a rejection only comes from a non-empty table, and always carries a non-empty message |
| LibFrame.CheckValidIff | lib/frame.js:49-78 | validation succeeds exactly when every rule holds: a required header is present, and a present header with a regex matches it |
| LibFrame.CheckReportsFirst | lib/frame.js:53-75 | a rejection carries the message for the first broken rule in table order |
| LibFrame.MissingIsReported | lib/frame.js:53-63 | when every earlier rule holds, a missing required header gives `Header "<h>" is required, and missing from frame: <frame>` |
| RootFrame.Initial | frame.js:6-28 | a field present in the argument is copied as given, even when falsy; a missing one defaults |
| RootFrame.AgreesWithLibFrame | frame.js:6-28 | for string fields the `in` test and the `\|\|` default of `lib/frame.js` pick the same frame |
| RootFrame.StompFrame.constructor | frame.js:1-32 | a new frame is `Initial` of its argument, with `contentLength` -1 |
| RootFrame.StompFrame.Send | frame.js:42-55 | the stream receives exactly `Encode` of the frame, the same layout as `lib/frame.js` |
| RootFrame.StompFrame.SetCommand | frame.js:57-59 | only the command changes |
| RootFrame.StompFrame.SetHeader | frame.js:61-66 | the header is assigned; `contentLength` changes only for a `content-length` key in any case |
| RootFrame.StompFrame.AppendToBody | frame.js:68-70 | the body becomes the old body followed by the data |
| RootRequest.StompRequest.constructor | request.js:1-6 | a new request has an empty command, no headers, an empty body and `contentLength` -1 |
| RootRequest.StompRequest.Send | request.js:16-29 | the stream receives exactly `Encode` of the request: a `content-length` line carrying the body length exactly when the body is non-empty |
| RootRequest.StompRequest.SetCommand | request.js:31-33 | only the command changes |
| RootRequest.StompRequest.SetHeader | request.js:35-40 | the header is assigned; `contentLength` changes only for a `content-length` key in any case |
| RootRequest.StompRequest.AppendToBody | request.js:42-44 | the body becomes the old body followed by the data |
| Server.NextState | server.js:28-35 | incrementing always changes the state and keeps it within COMMAND..BODY |
| Server.StateCycle | server.js:14-35 | the states cycle COMMAND, HEADERS, BODY, COMMAND |
| Server.WithHeader | server.js:129-134 | the header reads as the value given, and the key list either stays or gains the key at the end; `contentLength` becomes the parsed value exactly for a `content-length` key in any case, and is otherwise unchanged |
| Server.RepeatedHeaderOverwrites | server.js:129-130 | a repeated header overwrites the earlier value and keeps its place; other headers are untouched |
| Server.CommandParsed | server.js:52-59 | without a newline nothing changes; otherwise the text before the first newline becomes the command, the buffer loses that line, and the state advances |
| Server.HeadersParsed | server.js:61-83 | the buffer loses only a prefix; the state either stays, with no complete line left, or advances one state; command and body are untouched |
| Server.HeadersAdvancePastBlank | server.js:68-72 | the header step leaves HEADERS only when the text it consumed ends with a blank line: a newline preceded by a newline or nothing else |
| Server.BlankLineEndsHeaders | server.js:68-72 | in HEADERS an empty line consumes exactly its newline and moves to BODY |
| Server.IncompleteLineWaits | server.js:80-82 | an unterminated line leaves buffer, request and state as they were |
| Server.HeaderLineSets | server.js:73-77 | a complete header line sets the key before the first colon to the text up to the second colon, and is dropped from the buffer |
| Server.LengthTaken | server.js:86-96 | the length branch moves text from buffer to body without losing any; when the body was within the announced length, it stays within it |
| Server.NulScanned | server.js:97-107 | without a NUL the whole buffer joins the body; otherwise the text before the first NUL does, the buffer drops through the NUL, and the state advances |
| Server.BodyParsed | server.js:85-108 | body and buffer together lose nothing except the terminating NUL, which is lost exactly when the state advances |
| Server.BodyLengthReset | server.js:86-96 | for a body within the announced length, `contentLength` is reset to -1 exactly when body and buffer together reach the length; otherwise the length and the state stay and the buffer is emptied into the body |
| Server.BodyPastLengthStalls | server.js:86-96 | for a body already longer than the announced length, `parseBody` never resets the length nor leaves BODY, and the body never shrinks |
| Server.DataHandled | server.js:37-50 | after a chunk, the buffer is a suffix of the old buffer followed by the chunk, and the state stays in range |
| Server.Request.constructor | server.js:110-115 | a new request is empty, with `contentLength` -1 |
| Server.Request.SetCommand | server.js:125-127 | only the command changes |
| Server.Request.SetHeader | server.js:129-134 | the request becomes `WithHeader` of its old value |
| Server.Request.AppendToBody | server.js:136-138 | the body becomes the old body followed by the data |
| Server.StompFrameBuffer.constructor | server.js:20-26 | a new parser is in COMMAND with an empty buffer and a new empty request |
| Server.StompFrameBuffer.IncrementState | server.js:28-35 | the state becomes `NextState` of the old one; nothing else changes |
| Server.StompFrameBuffer.HandleData | server.js:37-50 | parser and request become `DataHandled` of their old values and the chunk |
| Server.StompFrameBuffer.ParseCommand | server.js:52-59 | parser and request become `CommandParsed` of their old values |
| Server.StompFrameBuffer.ParseHeaders | server.js:61-83 | the `while (true)` loop makes parser and request `HeadersParsed` of their old values |
| Server.StompFrameBuffer.ParseBody | server.js:85-108 | parser and request become `BodyParsed` of their old values |
| Server.StompFrameBuffer.ScanToNul | server.js:97-107 | parser and request become `NulScanned` of their old values |
| Decoding.HeaderBlock | server.js:61-83 | a block of plain header lines ended by a blank line is read whole: every pair is set in order, and the state advances past the blank line |
| Decoding.HeadersSetFacts | server.js:129-134 | setting plain pairs stores them in order; the command and body are untouched; `contentLength` stays unless one of the keys is `content-length` |
| Decoding.CommandLine | server.js:52-59 | a one-line command is read whole and the rest stays in the buffer |
| Decoding.BodyByLength | server.js:86-96 | a body of the announced length is taken whole, `contentLength` is reset to -1, and the NUL after it ends the frame |
| Decoding.BodyToNul | server.js:97-107 | with no length announced, the body runs to the first NUL and is appended to what the request held |
| Decoding.EncodedFrameDecodes | server.js:37-108 | parsing what `send` writes gives back the command, the headers (plus `content-length` for a non-empty body) and the body, and leaves whatever followed the NUL in the buffer |
| Decoding.FreshParserDecodes | server.js:20-26 | from a new parser, the headers come back in the order they were sent |
| Decoding.HeaderlessFrame | server.js:37-108 | with no header lines, the blank line after the command ends the headers, and the body runs to the NUL; a body starting with a newline keeps it |
| Decoding.SecondFrameAccumulates | server.js:23 | because the request is never replaced, a second frame's body is appended to the first one's |
| Decoding.ShorterSecondFrameStalls | server.js:23 | after a first frame without `content-length`, a second frame announcing a shorter body than the first one's leaves the parser in BODY with that length, for its body is already longer |
| Decoding.StaleRequestStalls | server.js:86-96 | a frame whose announced length is below the length of the body the request already holds leaves the parser in BODY |
| Chunking.CommandSplit | server.js:52-59 | a command line already complete is read the same with more text behind it, which stays in the buffer |
| Chunking.HeadersSplit | server.js:61-83 | with more text behind the buffer, the header step either finished within the first part and the rest waits, or a second run on the longer buffer does what one run on the whole does |
| Chunking.NulSplit | server.js:97-107 | the same two cases for the NUL scan |
| Chunking.LengthSplit | server.js:86-96 | the same two cases for the length branch, for a body within the length; when the length is not reached the whole buffer joins the body |
| Chunking.BodySplit | server.js:85-108 | the same two cases for `parseBody`, for a body within the length |
| Chunking.SplitDelivery | server.js:37-50 | two `handleData` calls do what one call on the joined text does when that call reads into the second piece, from any state with an empty body before BODY and a body within the length |
| Chunking.ChunkedFrameDecodes | server.js:37-108 | the wire form of a frame cut at any point before its NUL and delivered in two calls gives the same command, headers and body, and leaves the text after the NUL in the buffer |
| Chunking.StaleBodyNeverEnds | server.js:86-96 | once the body is past the announced length, no sequence of further chunks ends the frame |
| LibClient.Extended | lib/client.js:10-20 | a non-object `add` leaves `origin` as it is; otherwise `origin`'s keys keep their places and the keys are exactly those of `origin` and `add` |
| LibClient.Extend | lib/client.js:10-20 | the `while (i--)` loop returns `origin` untouched unless `add` is an object; otherwise it assigns the pairs of `add` from last to first |
| LibClient.ExtendedLookup | lib/client.js:10-20 | every key of `add` takes `add`'s value, keys only in `origin` keep theirs, and keys stay distinct |
| LibClient.ExtendedIntoEmpty | lib/client.js:14-18 | copied into `{}`, an object's keys come out in reverse order |
| LibClient.WithDestination | lib/client.js:181-182 | the outbound headers read `destination` as the queue and have exactly `destination` and the caller's keys |
| LibClient.DestinationForced | lib/client.js:181-182 | the outbound headers are the caller's, except that `destination` is always the queue |
| LibClient.OnlyDestination | lib/client.js:208-209 | without caller headers the only header is `destination` |
| LibClient.Commands | lib/client.js:23-37 | a table exists exactly for version "1.0", and it covers CONNECTED, MESSAGE, ERROR and RECEIPT |
| LibClient.ConnectedNeedsSession | lib/client.js:25-27 | a CONNECTED frame is accepted exactly when it has `session`, and otherwise rejected with the missing-header message for `session` |
| LibClient.MessageNeedsDestinationAndId | lib/client.js:28-33 | a MESSAGE frame is accepted exactly when it has both `destination` and `message-id`; a missing `destination` is reported first |
| LibClient.ErrorAndReceiptUnchecked | lib/client.js:34-35 | ERROR and RECEIPT frames are accepted with any headers |
| LibClient.Configure | lib/client.js:39-47 | construction succeeds exactly when the version (default "1.0") is "1.0"; otherwise it fails with `STOMP version <v> is not supported`; the port and address are never falsy |
| LibClient.DefaultSettings | lib/client.js:41-45 | the defaults are user `''`, pass `''`, address 127.0.0.1, port 61613 and version 1.0 |
| LibClient.NewStompClient | lib/client.js:39-49 | a client exists exactly when the settings are accepted; it starts with no subscriptions, no stream and empty logs |
| LibClient.StompClient.constructor | lib/client.js:39-49 | the client holds the settings and starts with no subscriptions, no stream and empty logs |
| LibClient.SubscribeArgs | lib/client.js:169-181 | there is a callback exactly when one argument is a function, and the one in third position wins; the headers come from the argument that is not a function |
| LibClient.Sent | lib/client.js:185-188 | a frame is written exactly when there is a stream, and is then appended to the log; without a stream a TypeError leaves everything as it was; subscriptions and events never change |
| LibClient.Subscribing | lib/client.js:166-192 | the call returns exactly when a callback was given and the queue is known or the stream exists; the assertion error is thrown exactly when no callback was given; at most one frame is written, exactly for a new queue on success; other queues keep their entries; on success the callback ends the queue's list |
| LibClient.SubscribeEitherOrder | lib/client.js:166-181 | headers and callback may be passed in either order |
| LibClient.SubscribeNeedsCallback | lib/client.js:179 | without a function argument, the state is unchanged and an assertion error names the missing callback |
| LibClient.FirstSubscribeSends | lib/client.js:183-190 | the first subscription to a queue sends one SUBSCRIBE and starts the queue's list with the callback |
| LibClient.RepeatSubscribeAppends | lib/client.js:183-190 | a further subscription sends nothing and appends the callback to the end of the list |
| LibClient.SubscribeTwiceThenMessage | lib/client.js:183-190 | two subscriptions to a new queue send one SUBSCRIBE, and a MESSAGE then reaches both callbacks in order |
| LibClient.SubscribeWithoutStream | lib/client.js:183-188 | before `connect`, a first subscription throws a TypeError and leaves the queue with an empty list |
| LibClient.UnsubscribeSilences | lib/client.js:196-205 | `unsubscribe` sends one UNSUBSCRIBE and removes only that queue's entry; a later MESSAGE for it calls nothing |
| LibClient.Unsubscribing | lib/client.js:196-205 | with a stream, one UNSUBSCRIBE for the queue is written and only that queue's entry is deleted; without one, a TypeError leaves everything as it was |
| LibClient.Publishing | lib/client.js:207-216 | with a stream, exactly one SEND is written whose headers are the caller's with `destination` forced to the queue, and whose body is the message or empty; without one, a TypeError leaves everything as it was; the subscriptions never change |
| LibClient.PublishCarriesHeaders | lib/client.js:207-216 | for any caller headers, the SEND reads every caller key with its value, except `destination`, which reads the queue; its keys are distinct and its body is the message or empty |
| LibClient.Disconnecting | lib/client.js:87-89 | with a stream one DISCONNECT frame without headers or body is written; without one nothing changes; subscriptions and events never change |
| LibClient.PublishSends | lib/client.js:207-216 | `publish` sends one SEND whose only header is `destination`, carrying the message, and leaves the subscriptions as they were |
| LibClient.DestinationKey | lib/client.js:123 | the key looked up is the `destination` header, or the name "undefined" when it is missing |
| LibClient.MessageReceived | lib/client.js:122-132 | a MESSAGE leaves subscriptions and the written frames alone, and adds one call per callback of its destination (none without an entry), each with the frame's body and headers; the i-th new call goes to the i-th callback in registration order |
| LibClient.ConnectedReceived | lib/client.js:134-136 | a CONNECTED frame adds exactly one `connect` event carrying its `session` header and changes nothing else |
| LibClient.UnsubscribedMessageIgnored | lib/client.js:122-132 | a MESSAGE for a destination with no entry changes nothing and throws nothing |
| LibClient.ConnectFrame | lib/client.js:157-163 | the CONNECT frame has exactly the headers `login` and `passcode`, and no body |
| LibClient.ConnectOnTheWire | lib/client.js:157-163 | the CONNECT frame is written with no `content-length` line and no body |
| LibClient.Deliveries | lib/client.js:128-130 | each callback is called once, in order, with the body and the headers |
| LibClient.StompClient.Connect | lib/client.js:60 | `connect` makes the stream exist and changes nothing else |
| LibClient.StompClient.Subscribe | lib/client.js:166-192 | the client's state and the outcome are those of `Subscribing` |
| LibClient.StompClient.Unsubscribe | lib/client.js:196-205 | the client's state and the outcome are those of `Unsubscribing` |
| LibClient.StompClient.Publish | lib/client.js:207-216 | the client's state and the outcome are those of `Publishing` |
| LibClient.StompClient.Disconnect | lib/client.js:76-89 | with a stream, one DISCONNECT frame is written; without one, nothing happens |
| LibClient.StompClient.OnConnect | lib/client.js:157-163 | the CONNECT frame with the client's login and passcode is written |
| LibClient.StompClient.OnMessage | lib/client.js:122-132 | the loop over the destination's callbacks logs one call per callback, in order |
| LibClient.StompClient.OnConnected | lib/client.js:134-136 | `connect` is emitted with the frame's `session` header |
| LibClient.StompClient.Send | lib/client.js:185-188 | the frame is appended to the stream's log, or a TypeError is thrown when there is no stream |
| RootClient.Subscribing | client.js:71-82 | only a new queue causes a frame to be written; the queue then has a list ending with the callback; no other queue appears or disappears |
| RootClient.Publishing | client.js:84-92 | exactly one frame is appended: a SEND whose only header is `destination`, set to the queue, and whose body is the message; nothing else changes |
| RootClient.FrameReceived | client.js:45-55 | subscriptions and written frames never change; the handler throws exactly for a MESSAGE whose destination has no entry, and then changes nothing; commands other than MESSAGE and CONNECTED are ignored |
| RootClient.SubscribeOnce | client.js:71-82 | only the first subscription to a queue sends SUBSCRIBE, with only `destination`; the callback goes to the end of the list; other queues are untouched |
| RootClient.MessageDispatch | client.js:47-51 | a MESSAGE calls every callback of its destination in order, and throws when the destination has no entry |
| RootClient.PublishAgreesWithLibClient | client.js:84-92 | the older client's SEND is the one the current client writes when given no headers |
| RootClient.SubscribeAgreesWithLibClient | client.js:71-82 | the older client's subscribe sends and records what the current client does when given no headers |
| RootClient.StompClient.constructor | client.js:16-26 | the client keeps its credentials and starts with no subscriptions and empty logs |
| RootClient.StompClient.OnConnect | client.js:62-68 | the same CONNECT frame as the current client's is written |
| RootClient.StompClient.Subscribe | client.js:71-82 | the client's state becomes `Subscribing` of the old one |
| RootClient.StompClient.Publish | client.js:84-92 | the client's state becomes `Publishing` of the old one |
| RootClient.StompClient.OnFrame | client.js:45-55 | the client's state and the outcome are those of `FrameReceived` |

## Left out

- Sockets and TLS are not modelled: `net.createServer`, `net.createConnection`, `setSecure`, credential files and stream event wiring. A client's stream is a flag plus a log of the frames written to it. `SecureStompClient` in both client files is not modelled.
- EventEmitter dispatch and `process.nextTick` timing are left out, including the `disconnect` listeners and `stream.end`. Only the DISCONNECT frame is recorded.
- The ERROR and `parseError` handlers of `lib/client.js` are not modelled. They build `Error` objects and destroy the stream.
- `lib/parser.js` (`StompFrameEmitter`) is not part of this model. The inbound frames the client handlers receive are taken as given.
- Regex matching in `validate` and `JSON.stringify` in `toString` are parameters (`matches`, `stringify`) and are not interpreted.
- Js.ParseInt: reads only a leading run of decimal digits. Leading whitespace, signs, hexadecimal prefixes and numeric overflow are not modelled.
- Js.ToLowerCase: lowers only ASCII letters. Other characters are left as they are; none of them lowers to a letter of `content-length`.
- Js.SplitColon: models only `split(':', 2)` as it is read back (`kv[0]`, `kv[1]`).
- Key order follows insertion order. JavaScript's reordering of integer-like keys ahead of other keys is not modelled.
- Header objects are copied as values. Aliasing of a headers object passed to the frame constructor is not modelled.
- Property lookups do not go through the prototype chain. In the source, `queue in this.subscriptions` and `StompFrameCommands[version]` would also find inherited names such as `toString`.
- Constructor and `publish` arguments are strings, objects or absent. Other falsy values (`0`, `null` bodies) and non-string bodies are not modelled. For `frame.js` this means an argument field explicitly set to `undefined` is treated as absent.
- A client's user and password are strings. An `undefined` one, which the source would write as `undefined`, is not modelled.
- LibClient.StompClient.OnConnect: requires the stream to exist, because `onConnect` only runs as the stream's `connect` handler. The handler registrations it makes are not modelled.
- The `isAuthenticated` and `frames` fields of `StompFrameBuffer` are left out; no code in `server.js` reads or writes them after construction. `Queue` and `QueueManager` are left out for the same reason.
- `console.log` calls are left out.
- Text is a sequence of Unicode scalar values. JavaScript strings are UTF-16: non-BMP characters, lone surrogates and the UTF-16 lengths that `length` and the written `content-length` count are not modelled, and chunks are taken as already-decoded text.
- Chunking.SplitDelivery: covers two calls where the first does not finish a frame. A chunk that finishes a frame leaves the rest of the text in the buffer until the next call (there is no loop back), so longer chunk sequences are not followed further.
- Decoding.EncodedFrameDecodes: covers frames whose command is one line and whose header keys and values contain no colon or newline, excluding `content-length`-like header keys, read from a request that holds no body and no announced length from an earlier frame; earlier headers stay. Other frames are not read back as written; this is the parser's behaviour (`Js.SplitColon`, `Server.WithHeader`, and a request that is never replaced, server.js:23), not a gap in the proof.
