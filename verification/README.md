# KoutenDB Go driver: a verified model

This project models the protocol state of the KoutenDB Go driver in Dafny and proves what the
driver's callers rely on: that an encrypted connection reads like the plain stream, that no caller
ever receives the reply to another request, that an insertion is sent at most once and never fails
silently after it was begun, that redirects and retries are bounded and end where they should, that
cancellation neither gets lost nor leaks into the next exchange, and that the embedded database is
linearizable and closed once.

`dafny verify dfyconfig.toml` checks everything.

## How the model is built

| module | models | form |
|---|---|---|
| `Text`, `Decimal`, `Ids` | byte strings, canonical numbers, record identities (`id.go`) | functions and lemmas; the scanning loop as a method, the overwritten receiver as a class |
| `Errors`, `Options` | error kinds with causes (`errors.go`), defaults and bounds (`options.go`) | datatype; methods with the source's loops |
| `Streams`, `Transparency`, `Authenticity` | line parser, SEC frames, the buffer of decrypted bytes (`wire.go`) | specification functions and simulation proofs |
| `Replies`, `Answers`, `Requests` | reply closures, what servers can say, request headers and bodies (`client.go`) | functions, round trips, alignment of a connection with its server |
| `Transport`, `Negotiation` | a connection: reading, exchanging, the handshake (`wire.go`) | class `Wire` whose methods are proved against `Streams` and `Replies` |
| `Reception` | what a server reads in the bytes of a negotiation (`wire.go`) | a reader of the wire format, round trips |
| `Redirects`, `Client` | the client: gate, pool, writes, reads (`client.go`) | reference semantics of redirects; class `Client` |
| `Cancellation` | the races of `exchange` with the context's callback and the deadlines | interleaved steps of one connection over any number of exchanges |
| `Gate` | any number of goroutines that use and close one client, down to the bytes of its connections | interleaved steps, invariant, safety of every run |
| `Worker` | the embedded database (`embedded/db.go`) | interleaved steps of callers, mutex, channel and worker thread |
| `Assumptions` | that the assumptions below can be met together | a box, a float printer and servers that meet them, and a run |

The world outside the driver is nondeterministic. Any write may be cut short or fail, any read may
end at any byte, a context may end whenever it is looked at, and a peer may send anything. Statements
differ in what they assume beyond this:

* Every run, with any server: what was handed over for which request and under which key, and that
  results are what was read. A request is recorded with the key of its connection, the bytes that
  `Write` took for it, and the stream in which its reply was looked for; success, server errors and
  completed handshake steps are stated through these.
* A server is `honest` when it answers each complete request with one complete reply, cut into frames
  in any way (empty frames included) and arriving in parts. Alignment and "this is the reply to my
  request" are proved for honest servers, under arbitrary failures and cancellations.
* The network is `calm` when in addition nothing fails and replies are given by a function of node,
  header and body, which may be another one for the next operation. "The result is what the chain of
  redirects ends with" is proved for calm networks.
* Nothing about sizes, at-most-once writes, which errors may follow a begun write, retries or closing
  assumes either of them.

A `Net` is what surrounds one client: its events are those of this client, and its open connections
are counted, so that closing the right ones is a matter of conservation (`Client.Client.Loose`).

Three foreign parts enter as parameters. `secretbox` is a `Box` that opens what it sealed and adds 16
bytes; opening anything else may give anything. Key derivation is an arbitrary function into such
boxes. Printing and parsing of floats is a pair of functions of which one law is used: a finite float
prints as at most 32 visible characters without a colon, and that text parses back to it. A float is
its IEEE 754 bit pattern, so finiteness and sign are computed.

A byte is a character below 256. Numbers are unbounded and every bound of the source is explicit: 32
and 64 bits, 8192 bytes of header, 64 MiB of frame, 40 bytes of overhead. 64 MiB and 8192 keep every
sum of the source far below the range of a Go `int`, so no wrap-around arises there.

## Findings

* `ErrServer` from an insertion does not by itself mean that the server rejected the insertion, or that
  it was sent. The last step of the handshake turns an ERR line into `ErrServer` as well
  (`wire.go:265`), so the condition is the guard of `client.go:90`: over a connection to node 0 that is
  in the pool, `ErrServer` is an honest server's answer to the insertion, which was sent in full; when
  one has to be dialed, it may come from a handshake. `Client.Client.PutCodec` states both halves, and
  `Assumptions.UnsentInsertion` is a run with honest servers and no faults: `Dial` succeeds, a malformed
  answer makes the first insertion indeterminate and empties the pool, and the second one fails with
  `ErrServer` without having been sent, because by then the server refuses the codec metadata.
* On a sealed connection an unsealed ERR line in place of a frame also gives `ErrServer` (`wire.go:86`),
  which takes no key: `Replies.UnsealedErrorIsBelieved` is the input, and `Streams.UnsealedRefusal` the
  exact condition.
* An error that is neither `ErrIndeterminateWrite` nor `ErrServer` does mean that no byte of the
  insertion was handed to any connection: what `Write` hands over is logged with the request it belongs
  to, and everything that an operation hands over is accounted for (`Negotiation.Continues`): requests
  of the handshake only when they are due, and others only to a node with which the whole negotiation
  has taken place since it was last dialed, under the key that this has led to. The exclusion of
  `ErrAuthentication` in `client.go:175` never applies: no failure after the first write is of that kind.
* A redirect without a node keeps the node that sent it, not the original one (`client.go:275-280`):
  `Client.AttemptFollows` says so of the requests themselves, on every run.
* The look at the context between `SetReadDeadline` and the reply (`wire.go:197-200`) is needed:
  `Cancellation.HastyLosesCancellation` is a run of the program without it in which a cancellation is
  lost.
* A reply whose line has at most 8192 bytes and whose body has at most the configured maximum is never
  refused for its size, however it is cut into frames. Pipelined replies have no such guarantee: with a
  limit of 2 bytes, a frame of one byte followed by a frame of 8195 is refused when two bytes are asked
  for, and would have been read on an unsealed connection
  (`Transparency.PipelinedFramesAreRefused`). The exact condition is that every frame fits beside what
  may be waiting when it is needed: for reads of at most m bytes, at most m - 1 of the bytes before it
  (`Transparency.TransparentIff`).

## Model

| member | source | states |
|---|---|---|
| Errors.IsLooksThroughCauses | errors.go:16-21 | an error is of a kind iff it or something in its chain of causes is, where closed also counts as connection |
| Errors.KindsAreApart | errors.go:16-33 | the kinds are told apart, with a closed client counting as a failed connection too, and an error with a cause is of its own kind and of its cause's; a context's error is of none |
| Decimal.UintField | id.go:28-42 | accepts a text iff it is the canonical decimal of a number below 2^bits, and then gives that number; the loop agrees with the specification `Parse` |
| Decimal.Bounded | id.go:43-49 | accepts exactly the canonical decimals of 0..max |
| Decimal.ParseExactly | id.go:28-49 | parsing and printing are mutual inverses: a text parses to n iff n is in range and the text is its print |
| Decimal.CanonicalIsPrint | id.go:28-42 | a canonical decimal is the print of its value, so leading zeros are the only redundancy refused |
| Ids.ColonRoundTrip | id.go:20-74 | every valid identity parses back from its printed form, bit for bit in all six fields |
| Ids.WireRoundTrip | client.go:250-252 | replacing colons by spaces gives the six fields joined by spaces, which split and parse back to the identity |
| Ids.ReparseIsStable | id.go:67-74 | whatever text was accepted, printing and parsing again gives the same identity |
| Ids.TextIsInjective | id.go:20-23 | neither printed form confuses two valid identities |
| Ids.AcceptedFields | id.go:50-66 | six fields are accepted as an identity iff the first three are the prints of its numbers, the others parse to its floats, these are finite and the period is positive |
| Ids.MarshalText | id.go:75-80 | exactly the valid identities have a text, which parses back to them |
| Ids.Cell.UnmarshalText | id.go:75-87 | overwrites the receiver iff the text parses, leaves it alone otherwise, and undoes MarshalText |
| Streams.RawLine | wire.go:48-75 | the parser consumes through the first newline and no further, or gives up on byte 8193, or runs out of input; stated by the position of the newline |
| Streams.AcceptedLines | wire.go:63-74 | a line is accepted iff it is non-empty and printable after removing at most one CR; its fields contain no blank and joined by blanks spell it out |
| Streams.LinesAreExact | wire.go:63-74 | a line has these fields iff it is their text, joined by blanks and printable, with at most one CR behind it |
| Streams.Expect | wire.go:133-144 | accepts exactly the tag with its number of fields; an ERR line is an authentication error where that is asked for and a server error elsewhere, and nothing else is; all other lines are protocol errors |
| Streams.FillFrame | wire.go:81-105 | an authentic frame is accepted iff its text fits beside what is buffered; then exactly that text is appended and exactly the frame is consumed |
| Streams.FillStub | wire.go:81-105 | a frame of which anything is missing is never accepted, nor taken for an error of the server |
| Streams.UnsealedRefusal | wire.go:81-88 | fill gives a server error exactly when the next raw line is acceptable and begins with ERR, whatever the key |
| Streams.TakeWithinCap | wire.go:100-120 | whatever the peer sends, `plain` stays within max + 8193 bytes |
| Streams.LineWithinCap | wire.go:121-132 | the same while a header is read |
| Streams.WireSimulatesFrames | wire.go:81-132 | reading bytes and decrypting does what a reader of whole frames does, up to an incomplete last frame |
| Streams.FramesSimulatePlain | wire.go:81-132 | reading frames does what reading the concatenated texts does, up to a frame refused for its size |
| Authenticity.FillExactly | wire.go:81-105 | a frame that has arrived whole, whoever sent it, is appended iff it opens and its text fits; one that does not open is a protocol error |
| Authenticity.FillOpens | wire.go:81-105 | and what fill accepts is always one such frame: a SEC line for at least 40 bytes that open to just what is appended |
| Authenticity.TakeOpens | wire.go:106-120 | on any input the bytes delivered have been waiting or come out of consumed frames that opened |
| Authenticity.DecodeOpens | wire.go:76-132 | on any input a reply read from a sealed connection is the one that an unsealed connection would have read from what the consumed frames open to |
| Authenticity.ForgeryIsRefused | wire.go:99-102 | no reply is read past a frame that does not open: it is a protocol error, whatever follows |
| Transparency.SecureIsTransparent | wire.go:76-132 | for every cut of a stream into frames and every sequence of header and bytes calls the answers are those of the plain reader, except that a refused frame ends them with the protocol error after a common prefix |
| Transparency.TransparentIff | wire.go:76-132 | exactly when a way of cutting is transparent to every sequence of reads of up to m bytes: iff each frame, beside at most m - 1 of the bytes before it, fits in the buffer |
| Transparency.PipelinedFramesAreRefused | wire.go:100-102 | two frames that a sealed connection refuses and a plain one would have read |
| Transparency.NeverRefused | wire.go:89-120 | two kinds of peers that meet the condition: all that is pending is at most one maximal reply, or every frame has at most 8194 bytes |
| Replies.ClassifyOutcomes | client.go:162-305 | a reply closure yields only results of its kind, with redirects to configured peers and valid identities, and only protocol or server errors |
| Replies.DecodeErrors | client.go:162-305 | reading a reply never gives an authentication error, on any input |
| Replies.DecodePart | client.go:259-305 | a proper part of a reply is never taken for a whole one |
| Replies.DecodeMore | wire.go:48-132 | a read that does not run out of input has the same result on any longer input, and what is behind the reply is left alone; so it does not matter how far a reply had arrived when reading began |
| Replies.SizeDecides | wire.go:89-102 | a complete reply that the size bound refuses is one that its reader rejects anyway |
| Replies.ReplyRead | client.go:259-305 | alignment of one reply: if it is all that is pending, a successful read returns its meaning and leaves nothing pending, whatever had arrived; if all of it had arrived the read gives its meaning; and a server error is its meaning |
| Replies.QuietReadsNothing | wire.go:81-132 | while nothing is pending no read succeeds, whatever empty frames or parts of frames have arrived |
| Replies.UnsealedErrorIsBelieved | wire.go:86-88 | on a sealed connection an unsealed ERR line is reported as a server error to every reader |
| Answers.AnswersAreUnderstood | client.go:162-305 | every answer a server can write in the wire format is read as what it means to the question asked, for insertions, health checks and reads, including refusals, foreign answers, redirects and limits |
| Answers.RecordsAreValues | client.go:284-303 | a record comes only from a value line spelled canonically for exactly the body that follows, from a configured peer and within the limit |
| Answers.RepliesAreExact | client.go:162-305 | which replies are accepted, and as what result, by the words of the line and the body alone; nothing else is accepted |
| Answers.RefusalsAreExact | client.go:167-217 | a reply is a server error iff its line is acceptable and begins with ERR |
| Requests.SendRoundTrip | wire.go:159-169 | every request that passes the check is received as its header and body, plain or sealed, by a receiver with the same limit |
| Requests.LimitIsExact | wire.go:89-102 | the frame limit is exact: a sealed text is accepted iff it has at most max + 8193 bytes |
| Requests.PutIsAcceptable | client.go:148-162 | an accepted insertion never fails the check of exchange |
| Requests.PutRoundTrip | client.go:159-162 | ring, data and codec of every accepted insertion are read back exactly from header and body |
| Requests.PutIsInjective | client.go:159-162 | no two accepted insertions are sent alike |
| Requests.FetchIsAcceptable | client.go:240-259 | an accepted read request never fails the check of exchange |
| Requests.FetchRoundTrip | client.go:250-256 | identity and selection of every accepted read are read back exactly |
| Requests.FetchIsInjective | client.go:250-256 | no two accepted reads are sent alike |
| Options.CheckPeers | options.go:46-55 | accepts iff there are 1 to 64 peers, all usable |
| Options.CheckTimeouts | options.go:56-63 | defaults the durations in place and accepts iff all are then within (0, 1 h] |
| Options.CheckField | options.go:77-86 | accepts exactly the fields of at most 1024 bytes without blanks, control bytes and DEL |
| Options.Normalize | options.go:45-111 | accepts iff the options with defaults filled in are normal, and returns those |
| Options.NormalIsStable | options.go:56-89 | normal options are unchanged by defaulting, so normalizing twice is normalizing once |
| Options.AcceptsExactly | options.go:56-91 | which options are accepted, in terms of what the caller passes: zero or bounded durations and limits, plain fields, and a token in place of username and password; without either no secret |
| Options.DefaultsAreDocumented | options.go:57-76 | zero means five seconds, 64 MiB and eight redirects, a token the password of user "token"; nothing else changes |
| Transport.Context.IoError | errors.go:35-44 | the context's error if it has ended, else a timeout exactly when the network error says it is one, else a connection failure |
| Transport.Context.Inherit | client.go:93-94 | a derived context is canceled only when the one it comes from has been |
| Transport.Wire.Close | wire.go:25-31 | the connection is closed, no key and no decrypted bytes are left in it, and the network has one open connection less, if it was open |
| Transport.Wire.ReadLine | wire.go:48-75 | the loop refines `Line` |
| Transport.Wire.RawBytes | wire.go:76-80 | n bytes, or an error and nothing left |
| Transport.Wire.FillBuffer | wire.go:81-105 | refines `Fill`: the same acceptance, errors, bytes consumed and bytes appended |
| Transport.Wire.TakeBytes | wire.go:106-120 | refines `SecureTake` or `RawTake`, delivers exactly n bytes, and ends |
| Transport.Wire.Header | wire.go:121-132 | refines the line reader of the channel |
| Transport.Wire.Receive | client.go:259-305 | refines `Decode`, keeps the buffer within its cap, and records the stream it was applied to |
| Transport.Wire.SendFrame | wire.go:180-193 | at every point what was handed over, and logged for this request, is a prefix of the frame; no error means all of it; not attempted means none; the request is begun at most once; a failed write is followed by a look at the context, whose error it becomes if that has ended |
| Transport.Wire.Prepare | wire.go:156-172 | exactly the requests with a header of at most 8192 bytes without CR, LF and NUL and a body within the limit pass, unless the context has ended or the network fails; and all others are refused as invalid |
| Transport.Wire.ReadReply | wire.go:201-208 | on every run the result is what the closure made of the stream that was read, up to errors of the network stack, which become context, timeout or connection errors, and exactly the rest is left; with an honest server a success leaves nothing pending and a server error is the server's; after an error of the network stack the context is looked at, and its error returned iff it has ended |
| Transport.Wire.Turn | wire.go:194-200 | passes only after another look at the context, which had not ended |
| Transport.Wire.Collect | wire.go:194-208 | on every run a success, a server error and a protocol error are what was read; with an honest server a success leaves nothing pending and a server error is the server's; a reply that arrives whole decides the result; nothing more is handed over |
| Transport.Wire.Exchange | wire.go:155-209 | exactly one request is added to what an observer sees, or none; the bytes handed over for it are a prefix of its frame under the key of the connection, all of it on success and on every reply error; on every run a success and a reply error are what was read, and exactly the rest is left; with an honest server they are the meaning of the reply to this request, and after a success the connection is aligned again; a reply that arrived whole decides the result; it fails with the context's error iff that was seen to have ended, and looks after whatever fails |
| Negotiation.HandshakeHeadersFit | wire.go:224-265 | for all normal options every fixed handshake header is within 8192 bytes and free of CR, LF and NUL |
| Negotiation.ResponseFits | wire.go:235-247 | so is the sealed response, for every challenge and nonce |
| Negotiation.AddedByExchange | wire.go:162-193 | one exchange adds one accounted request at most: a handshake request that was due, or another one on a ready node, and of it a prefix of its frame |
| Negotiation.ReadyLater | client.go:90-92 | a negotiation stays good until its node is dialed again, whatever happens on other nodes |
| Negotiation.KeyIsDetermined | wire.go:224-252 | what has been sent and read since a node was last dialed determines the key under which requests to it may go |
| Negotiation.Ack | wire.go:217-223 | requires that this header is due; hands over a prefix of one frame of it under the key of the connection and nothing else; success means that all of it was, that the expected fields were read in reply, and that this is the next step since the node was dialed; an error leaves no step or one whose reply was refused with just this error |
| Negotiation.SendPassword | wire.go:226-229 | username and password are handed over whole in the clear, and OK was read in reply; there is no key |
| Negotiation.ExchangeKeys | wire.go:230-251 | a challenge is asked for and answered, in the clear, and the key is the one that belongs to it; a challenge of another form is a protocol error |
| Negotiation.Authenticate | wire.go:224-252 | whichever of the two is configured, or neither; each failure is the one that what was read calls for, or the network's |
| Negotiation.SendResponse | wire.go:239-249 | hands over, in the clear, the credentials sealed for the challenge that was read, under a nonce of 24 bytes; success means that OK was read in reply |
| Negotiation.ProveIdentity | wire.go:235-250 | a challenge that is not 32 hexadecimal bytes is a protocol error and nothing is sent; otherwise the key is derived from it after the response is accepted |
| Negotiation.Greet | wire.go:253-257 | HELLO is handed over whole iff a galaxy is set, under the key of the challenge read iff a secret is set, and OK was read in reply |
| Negotiation.AgreeWire | wire.go:258-264 | WIREVER is handed over whole under that key, and version 1 was read in reply; no other step |
| Negotiation.AgreeCodecs | wire.go:265-271 | CODECMETA is handed over whole under that key, and codec-metadata was read in reply; no other step; an ERR here is a server error |
| Negotiation.AgreeVersion | wire.go:258-272 | both, in this order |
| Negotiation.Handshake | wire.go:210-273 | on every run each request handed over is the one that is due after the steps completed since the node was dialed, the authentication in the clear and the rest under the key of the challenge read; success means that the bytes handed over are exactly the configured steps in order, each whole and each with its accepted reply; without faults it succeeds with a cooperative server, and gives a server error with one that refuses the codec metadata; on every run an authentication, version, server or protocol error is the one that the last reply read calls for by its fields (an ERR line, another version, any other reply that is not welcome), and then no other error is returned; without such a reply a failure is the network's or the context's |
| Negotiation.Converse | wire.go:155-209 | after the handshake a successful exchange keeps the connection negotiated, keyed and aligned; its result follows from what was read and from the reply as `Tells` says; at most one frame of the request is handed over, under the key of the connection, and all of it on a success and on a reply error |
| Negotiation.TellsHeard | wire.go:201-208 | a success, a server error and a protocol error of an exchange are what the reader makes of the stream that was read, with any server |
| Reception.PasswordIsRead | wire.go:227 | a reader of the wire format gets username and password back from AUTH, in this order |
| Reception.ChallengeIsRead | wire.go:231 | and the username from AUTHCHAL |
| Reception.GalaxyIsRead | wire.go:254 | and the galaxy from HELLO |
| Reception.HexIsRead | wire.go:247 | decoding hexadecimal text gives back the bytes it was made of |
| Reception.HexIsExact | wire.go:235-238 | a challenge is accepted iff it can be decoded, to 32 bytes |
| Reception.ProofIsRead | wire.go:239-247 | a server with the secret decodes, splits and opens AUTHRESP and gets username, password and the challenge back |
| Reception.KeysAgree | wire.go:250 | driver and server derive the same key from challenge and secret |
| Reception.KeyTextIsInjective | wire.go:250 | what the key is derived from determines both |
| Reception.KeyTextsAreApart | wire.go:239-250 | and is never what the key for proofs is derived from |
| Reception.PasswordIsReceived | wire.go:224-229 | from the bytes of a complete negotiation without a secret a server reads username and password, and no key is set |
| Reception.ProofIsReceived | wire.go:230-251 | with a secret it reads who asks for a challenge and who answers which one, and both sides hold the key for it |
| Reception.AgendaIsReceived | wire.go:253-271 | and then the galaxy iff one is set, the version and the codecs, all under that key, with the replies that are needed and nothing more |
| Redirects.ShortChain | client.go:243-314 | a chain of at most limit redirects is followed to its end, asking exactly the places of the chain in order |
| Redirects.LongChain | client.go:267-313 | a longer chain is a protocol error after exactly limit + 1 requests |
| Redirects.FollowIsExact | client.go:243-314 | these two cases cover every cluster and start, so the result is determined by the chain's length against the limit |
| Redirects.CyclesEnd | client.go:243-314 | every cycle is a protocol error after exactly limit + 1 requests |
| Redirects.VisitsFollow | client.go:271-283 | each place asked after a redirect is the node it names, or if it names none the node that sent it, with the identity it gives |
| Redirects.VisitsArePeers | client.go:245-283 | every place asked is a configured peer with a valid identity |
| Client.LastOnlyStops | client.go:267-270 | the last round reads a reply like any other, except that a redirect is a protocol error |
| Client.HeardLastOnly | client.go:267-270 | the same for what was read, on every stream |
| Client.ClusterViewIsRecordView | client.go:259-305 | any function from requests to replies, read by read's closure, is a view to which the redirect theorems apply |
| Client.PutResultIsSound | client.go:162-179 | mapping a failed exchange to the caller's error never hides a begun write, and keeps what the reply means |
| Client.RejectedIffBegun | client.go:162-179 | with an honest server, a server error means that the server refused this insertion iff it was begun |
| Client.AttemptBound | client.go:202-259 | one attempt of a read sends at most limit + 1 requests and of a health check at most one, starts with the original request at node 0, and asks configured peers only |
| Client.AttemptStarts | client.go:244-257 | the first request asks node 0 for the record and the selection that the caller wants, as a server reads it |
| Client.AttemptFollows | client.go:271-283 | with any server each further request goes to the node named by the redirect that was read, or to the one that sent it if none is named, and asks for the identity that it gave with the same selection |
| Client.FindingIsRead | client.go:203-312 | the payload returned is that of the record read last, nil is returned for a MISS or GONE and nothing else, and a status is the text read |
| Client.RetryDiscipline | client.go:181-201 | a read sends at most 2 * (limit + 1) requests, half of that when retry is disabled; no second attempt after a success, a protocol, server, authentication or version error or an ended context; and one after every connection or timeout error with retry enabled and a live context |
| Client.Client.constructor | client.go:33-34 | a new client is open, has an empty pool and one token |
| Client.Client.Lock | client.go:41-62 | the token and an open client, or an error and the token back in the channel; a failure is the context's error iff that has ended; the context is looked at again with the token in hand |
| Client.Client.Unlock | client.go:63 | needs room for the token, and there is room at every call |
| Client.Client.Release | client.go:65-68 | one connection leaves the pool and is closed; the others stay open |
| Client.Client.Drop | client.go:64-69 | the pool is empty, every connection that was in it is closed, and no other one |
| Client.Client.Close | client.go:71-82 | closed, pool empty, all its connections closed and no other one, credentials cleared, token returned |
| Client.Client.HandshakeFailure | client.go:119-127 | the caller's context error if it has ended, else a timeout for an expired connect deadline, else the error unchanged |
| Client.Client.Connect | client.go:93-130 | a new connection has completed the negotiation, as seen from dialing on, and is keyed by it; no request proper is sent; a failure leaves no connection open; a failure is the end of the context if that was seen, or the error that what was read in the handshake calls for, or else the network's; a node that cannot be reached gives nothing but these last |
| Client.Client.Enlarge | client.go:93-130 | a new connection goes into the pool, and the others stay negotiated as of their own last dial; a failure leaves the pool as it was; failures as in Connect |
| Client.Client.Ensure | client.go:83-131 | the pooled connection, or a new one in the pool, for which dialing comes first; a failure leaves the pool as it was and no connection open outside it; a closed client never dials; failures as in Connect |
| Client.Client.Speak | client.go:162-172 | a successful exchange leaves the whole pool negotiated and aligned, and its result is what was read in reply to this request; what is handed over is a prefix of one frame of it under the key of the connection, all of it on success and on a server error, none if not attempted |
| Client.Client.Insert | client.go:159-179 | the exchange of an insertion: the outcome law, and after a failure, even one before the first write, the pool is empty and closed |
| Client.Client.PutLocked | client.go:155-179 | the law of PutCodec, between lock and unlock |
| Client.Client.PutCodec | client.go:144-180 | write outcomes: at most one insertion is begun and at most one frame of it handed over, under the key negotiated since node 0 was last dialed, all of it on success and on a server error, and nothing else but the handshake of a new connection; any other begun insertion ends in an indeterminate error; with any server success, server error and protocol error are what was read for this insertion, and with an honest one success and server error are what the reply to it means; a reply that arrived whole decides the result; over a pooled connection a server error implies that it was begun, and a server that refuses the codec metadata gives one for an insertion never sent; the pool is kept on success and emptied and closed after a failed exchange, and no connection is left open outside it; unusable input, and nothing else, is ErrInvalidInput; an indeterminate error carries its cause, which like any other failure is the end of the context if that was seen, or what was read calls for it, or else the network's |
| Client.Client.AskAt | client.go:246-260 | one round asks this place for this record, at most once; a success means that all of the request was handed over and is what was read in reply |
| Client.Client.Round | client.go:246-312 | one round adds its place to the walk; a redirect leads exactly where what was read in reply to this request says, and any other success is what was read; with honest servers both are what that reply means; without faults the round keeps to the chain |
| Client.Client.FetchOnce | client.go:243-314 | the places asked form a walk from the original place within the limit, in which what was read in reply to each request, handed over whole, sends the reader to the next place and what was read last is the result, on every run; with honest servers this is what the replies mean; without faults the loop refines `Follow` and asks the places of `Visits`; its trailing return is unreachable |
| Client.Client.StatusOnce | client.go:203-228 | one HEALTH request at node 0, and the status that was read in reply to it; without faults it is what node 0 answers |
| Client.Client.Run | client.go:188-189 | one run of either closure, with the requests and the finding of its kind |
| Client.Client.Attempt | client.go:187-192 | the same between two events that record how often the context had been looked at, how it stood, and how the attempt went; with an empty pool dialing node 0 comes first; a failed attempt failed with the end of its context, or with the error that what was read last calls for, or the network's |
| Client.Client.ReadLocked | client.go:187-200 | what the recorded events say: a second attempt exactly when the first failed with a connection or timeout error, retry is enabled and the context, looked at after the failure, had not ended; it dials node 0 first, so its pool was empty; nothing is handed over but the requests of the two attempts and handshakes; the result is the last attempt's or the context's error; after a failure the pool is empty and all of it closed; the return after the loop is unreachable; it fails with the context's error iff that has ended |
| Client.Client.ReadOperation | client.go:181-201 | the same with the gate, which is free again afterwards; a closed client starts no attempt |
| Client.Client.Health | client.go:202-229 | the same law for health checks, of which each attempt sends one; with any server the status is what was read last; without faults one request, and the status that node 0 answers |
| Client.Client.Read | client.go:236-315 | the same law for reads; with any server the walk follows the redirects that were read and the result is what was read last, and with honest servers this is what the replies mean; without faults exactly the requests and the result of following the chain; invalid input is the only cause of ErrInvalidInput |
| Client.Dial | client.go:24-40 | a client with normal options and one negotiated connection to node 0, or a failure and no connection left open; unusable input sends nothing, and otherwise nothing is sent but the handshake's requests, each when it is due; without faults a cooperative server makes unusable input the only failure, and one that refuses the codec metadata makes Dial fail; any other failure is the end of the context, the error that what was read in the handshake calls for, or the network's |
| Assumptions.FailedInsertion | client.go:155-179 | a run from Dial to an indeterminate insertion and an empty pool |
| Assumptions.UnsentInsertion | wire.go:265-268 | its continuation, with honest servers and no faults: the next insertion fails with a server error although it was never sent |
| Cancellation.InvariantIsKept | wire.go:153-209 | every step of the exchange, its callback and the context keeps the invariant |
| Cancellation.RunsAreSafe | wire.go:153-209 | in every interleaving over any number of exchanges: a callback that has run leaves the deadline in force expired; an expired deadline in force means the context has ended; no callback is pending or running between exchanges; stale deadlines are never in force; waiting for a callback ends |
| Cancellation.HastyLosesCancellation | wire.go:194-200 | without the last look at the context there is a run that reads with a future deadline after its cancellation was handled |
| Gate.InvariantIsKept | client.go:33-131 | every step of every goroutine and of the server keeps the invariant, and closed is never undone |
| Gate.GateIsSafe | client.go:41-63 | in every reachable state tokens plus holders is one, and unlock never blocks |
| Gate.UsableIsSettled | client.go:118-130 | a connection as the handshake leaves it is one that the model of the gate adds to the pool |
| Gate.FreeMeansAligned | client.go:144-201 | whenever the gate is free, every request on every pooled connection has been answered and no byte of any reply is left to be read |
| Gate.RepliesAreOwn | client.go:144-315 | every result given to any goroutine is what the reply to its own request means, over all cuts into frames, partial arrivals and failures; no request gives two results |
| Gate.HistoryIsKept | client.go:144-315 | requests, replies and results of a run are never revised |
| Gate.ClosedForGood | client.go:71-92 | once closed the client stays closed and its pool empty, and nobody dials, sends or reads |
| Gate.CloseCloses | client.go:71-82 | a goroutine that was in Close with the token and is no longer there has closed the client, for good and with an empty pool |
| Worker.ActIsSequential | embedded/db.go:227-329 | the check and the library call together are one operation of a sequential database |
| Worker.InvariantIsKept | embedded/db.go:142-191 | every step of callers and worker keeps the invariant |
| Worker.Linearizable | embedded/db.go:142-191 | completed calls, in mutex order, are a legal sequential run ending in the handle's store, whatever a failing library call does to it; each is one entry with its own command and result, taking effect between invocation and return |
| Worker.RealTime | embedded/db.go:163-176 | a call made after others had returned takes effect after them |
| Worker.AbsenceIsExact | embedded/db.go:227-329 | Get gives no payload, and Query, Update and Remove report absence, iff the record is absent when they take effect, and then nothing is changed |
| Worker.SuccessIsExact | embedded/db.go:154-318 | what a successful call has done, record by record, and that every other record is as it was |
| Worker.ReadsSeeTheLastWrite | embedded/db.go:142-318 | after an insertion or update a Get gives its data, and after a removal none, until the record is written again; for histories without failed library calls in between |
| Worker.ActingFindsItsRecord | embedded/db.go:269-318 | nothing slips in between the existence check and the action: the record of a Get, Query, Update or Remove is still there |
| Worker.ClosedOnce | embedded/db.go:142-191 | the handle is closed at most once, just when the worker ends; nobody is left at the channel |
| Worker.CloseRefusesTheRest | embedded/db.go:163-191 | once Close has taken effect the handle is closed and every later operation is refused |
| Worker.NothingAfterClose | embedded/db.go:142-151 | after that the worker stays gone, the store stays as it is and the handle is not closed again |
| Worker.OwnerCanMove | embedded/db.go:163-191 | nobody inside the mutex is stuck: a caller that waits has a worker with an enabled step, even if the library never fails |
| Worker.OwnerAdvances | embedded/db.go:163-191 | no other step delays it, and each of its own brings it closer to leaving, so the mutex is free after at most six |
| Worker.AbsentRecord | embedded/db.go:163-176 | a run in which a call for an absent record is made, served and returned |

## Left out

- Gate.RepliesAreOwn: a read is one step here, applied to what has arrived when it ends; the class `Wire` reads byte by byte and refines the same function, and by `Replies.DecodeMore` what arrives while it reads makes no difference to a read that succeeds.
- Transport.Wire.Exchange: deadlines are not durations; that reading may fail at any byte stands for an expired deadline, and module `Cancellation` models which deadline is in force.
- Transport.Wire.Close: does not model the overwriting of key and buffer memory, only that neither is left in the connection.
- Client.Client.Lock: waiting for the token is modelled in `Gate`; here the token is there, and giving up first is a choice.
- Client.Client.Close: does not model waiting for the current operation; `Gate` does.
- Worker.Linearizable: every library call returns; what one that fails does to the store is arbitrary.
- Worker.RealTime: stated for callers that are between calls, each caller making one call at a time.
- Fairness: which waiting caller gets the gate or the mutex next is arbitrary, so no caller is promised a turn.
- TLS, certificates, name resolution, dialing and the parsing of peer addresses: dialing succeeds or fails, and addresses are usable or not.
- Cryptography: secrecy, authenticity and randomness of nonces; only lengths and "opening undoes sealing" are used.
- Float formatting and parsing beyond the one law named above.
- Wall-clock time and durations of timeouts.
- Nil and zero-value receivers and nil contexts, which return `ErrClosed` or `ErrInvalidInput` at once.
- `PutJSON`, `GetJSON`, `QueryJSON`, redaction of printed values, `cmd/conformance` and the examples: wrappers around other libraries.
- The embedded database's C conversions, `OpenWithOptions`' opening of the handle, input checks, codec numbers, vectors and `ReadRing`.
- The server: placement, storage and its view of concurrent clients.
