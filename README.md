# goblin in Dafny

A model of the home-automation dashboard goblin, with proofs about it.
goblin talks to a Nexa hub and streams the hub's events to browsers.

The model covers the logic that runs once I/O has happened:

- **Digest authentication** (`auth/digest.go`). The client parses the hub's `WWW-Authenticate: Digest` challenge into a `DigestAuth` record. It then computes the request digest of section 3.2.2.1 of RFC 2617, with MD5 or with SHA-256 as section 3.4.1 of RFC 7616 allows. Finally it signs the request with an `Authorization` header, but only after a 401 probe.
- **Event frames.** There are two clients.
  - The `nexa` package (`nexa/nexa.go`) drops everything before the first `{` of a frame.
  - The older `main` package (`nexa.go`) strips one of three literal kind prefixes. Its consumer loop skips frames that do not decode.
- **REST post-processing** (`nexa/nexa.go`).
  - Every answer with a status other than 200 is refused before its body is decoded.
  - Each node's last events are stamped with the node's id.
  - Nodes are joined into rooms through a map from room id to index.
  - The typed value accessors are shared by events and messages.
- **Broadcasting** (`http/server.go`, and the same code in `routes.go`).
  - A registry of websocket subscribers.
  - The choice of template for a message.
  - A fan-out of the rendered text to every subscriber's queue.
  - The goroutine that pumps the hub's message stream into the fan-out.
- **Server options** (`http/server.go`). The name and port checks, then default resolution in `NewServer`.

Some parts are parameters of the model:

- The hash functions, as `Hash`.
- The clock reading that seeds the client nonce.
- The JSON decoder. It is an arbitrary function that rejects empty input.
- Template rendering. It is a list of template names plus an `execute` function that may fail.
- The HTTP responses: a status, or a transport error.

Go panics are modelled as error results. These are an index past the end of a split, `panic("no algorithm")`, and indexing an empty room list. A Go channel is modelled as a queue plus a closed flag (`Channels.Channel`).

Modules, one per file:

| file | module | source |
|---|---|---|
| results.dfy | Results | Option and Result |
| go_strings.dfy | GoStrings | the `strings` functions and `unicode.IsSpace` the source calls |
| hex_encoding.dfy | HexEncoding | the `%x` verb on byte slices |
| nexa_types.dfy | NexaTypes | the event value, `Message`, and the status check shared by nexa.go and nexa/nexa.go |
| auth.dfy | Auth | auth/digest.go |
| channels.dfy | Channels | Go channels, sequentially |
| nexa_api.dfy | NexaApi | nexa/nexa.go |
| nexa_main.dfy | NexaMain | nexa.go |
| broadcast.dfy | Broadcast | http/server.go and routes.go: registry, template choice, fan-out, pump |
| server_options.dfy | ServerOptions | http/server.go: options and `NewServer` |

routes.go holds a second copy of the broadcasting code for package `main`:

- `hasString` at routes.go:64-71.
- `HasTemplate` at routes.go:47-54.
- The add and remove methods at routes.go:112-124.
- `broadcast` at routes.go:171-196.
- The pump at routes.go:228-235.

The copies do what the http/server.go code does, so one Broadcast member models both. The table below cites the http/server.go lines. In the same way, nexa.go's `Nodes`, `Node` and `Rooms` make the status check of nexa/nexa.go (nexa.go:85-87, 120-122, 155-157), and `NexaTypes.CheckStatus` models both.

Three behaviours of the code that the model keeps as they are:

- **Unsupported or missing algorithm.** The code panics when a challenge leaves no supported algorithm recorded, and the model returns an error value (`NoAlgorithm`) in its place. The code ignores an unsupported `algorithm` value, so an algorithm set by an earlier directive still counts. Only a record that ends with no supported algorithm fails.
- **Frame prefixes.** Neither client records the kind of a frame. nexa.go strips one of three literal prefixes. nexa/nexa.go drops everything before the first `{`, whatever it is.
- **Malformed frames.** nexa.go's consumer skips a frame that does not parse. nexa/nexa.go's socket loop returns at the first such frame. That loop is network code and is not modelled, see below.

## Model

| member | source | states |
|---|---|---|
| GoStrings.TrimPrefix | auth/digest.go:36-39 | the "Digest " prefix is removed exactly when the value starts with it, and only once |
| GoStrings.IndexOf | auth/digest.go:41 | the position of the first `=` of a directive, or its length when there is none |
| GoStrings.Split | auth/digest.go:40-41 | a split always has at least one piece, and no piece contains the separator |
| GoStrings.SplitHead | auth/digest.go:41-44 | the first piece of a split is the text before the first separator; a second piece exists exactly when there is a separator |
| GoStrings.JoinSplit | auth/digest.go:40 | joining the pieces with the separator gives the value back |
| GoStrings.SplitJoin | auth/digest.go:100-101 | splitting the `, `-joined header directives on `,` gives each directive back, the later ones with one space in front |
| GoStrings.TrimSpace | auth/digest.go:41 | the trimmed directive neither starts nor ends with white space |
| GoStrings.TrimSpaceInfix | auth/digest.go:41 | the trimmed directive is a contiguous slice of the original, and every character removed before or after it is white space |
| GoStrings.TrimSpaceOfPadded | auth/digest.go:41 | leading white space in front of a directive without outer spaces is all that TrimSpace removes |
| GoStrings.Trim | auth/digest.go:44 | after trimming quotes the value neither starts nor ends with `"` |
| GoStrings.TrimInfix | auth/digest.go:44 | the trimmed value is a contiguous slice of the original, and every character removed before or after it is `"` |
| GoStrings.TrimQuoted | auth/digest.go:44 | a quoted value without quotes inside loses exactly its two quotes |
| HexEncoding.Hex | auth/digest.go:88-96 | `%x` writes two lower-case hex digits per byte |
| HexEncoding.UnhexHex | auth/digest.go:88-96 | the hex text of any byte string reads back as that byte string |
| HexEncoding.HexInjective | auth/digest.go:100-112 | different digests never print alike in the header |
| Auth.DirectiveMeaning | auth/digest.go:41-50 | a directive's key is its trimmed text up to the first `=`; it has a value exactly when it has an `=`; the value is the text up to any second `=`, with the quotes trimmed |
| Auth.ApplyDirective | auth/digest.go:42-63 | a known key without a value is an error (the index panic); an unknown key leaves the record alone |
| Auth.FirstDigest | auth/digest.go:35-38 | the index of the first value starting with "Digest "; every value before it lacks the prefix |
| Auth.ParseChallenge | auth/digest.go:33-70 | parsing without an error always leaves a supported algorithm recorded |
| Auth.OnlyFirstDigestParsed | auth/digest.go:35-65 | values without the prefix are skipped, and nothing after the first Digest value is read |
| Auth.NoDigestValue | auth/digest.go:35-69 | with no Digest value the record is untouched, and parsing fails unless an algorithm was already recorded |
| Auth.ApplyDirectivesSnoc | auth/digest.go:40-64 | the directives are read in order, one after the other |
| Auth.LastDirectiveWins | auth/digest.go:40-64 | after a successful pass, each of realm, nonce, opaque and qop holds the value of the last directive with its key; the algorithm is the last exactly-MD5 or exactly-SHA-256 value |
| Auth.HeaderParsed | auth/digest.go:100-112 | the emitted header, read with the challenge parser, gives back its ten directives in order, each with its key and its value, when the values contain none of `,` `=` `"` and qop no white space |
| Auth.HeaderVerifies | auth/digest.go:78-112 | the header is self-consistent: its `response` equals KD(hex H(username:realm:password), nonce:nc:cnonce:qop:hex H(method:uri)) recomputed from the password and the username, realm, nonce, uri, nc, cnonce and qop the same header carries (section 3.2.2 of RFC 2617), and it carries the username, path, realm and nonce it was built from |
| Auth.AuthorizationEchoesChallenge | auth/digest.go:100-112 | parsing the emitted header gives back exactly the realm, nonce, opaque, qop and algorithm it was built from, when those values contain none of the characters the parser splits on |
| Auth.DigestAuth.constructor | auth/digest.go:26-31 | stores the credentials, with an empty challenge record |
| Auth.DigestAuth.Parse | auth/digest.go:33-70 | the record's new fields and the error are those of ParseChallenge on the old record |
| Auth.DigestAuth.ReadDirective | auth/digest.go:41-63 | one directive read into the fields as ApplyDirective says; an error leaves the fields as they were |
| Auth.DigestAuth.Request | auth/digest.go:115-138 | a transport error is passed on; any status but 401 returns the request unsigned and the record unchanged; a 401 parses the challenge and adds the Authorization header, or fails with the parse error |
| NexaTypes.Value.BoolValue | nexa/nexa.go:88-94 | succeeds exactly on a stored bool and returns it; otherwise an "invalid bool value" error naming the value |
| NexaTypes.Value.FloatValue | nexa/nexa.go:96-102 | succeeds exactly on a stored float64 |
| NexaTypes.Value.IntValue | nexa/nexa.go:104-110 | succeeds exactly on a stored int |
| NexaTypes.Value.StringValue | nexa/nexa.go:112-114 | never fails; strings print as themselves, booleans as true/false, nil as `<nil>`, ints as decimal text that reads back as the int |
| NexaTypes.AccessorsExclusive | nexa/nexa.go:360-382 | at most one typed accessor succeeds on any value; none succeeds on nil or a string |
| NexaTypes.FormatIntRoundTrip | nexa/nexa.go:384-386 | the decimal text of an int reads back as that int |
| NexaTypes.MessageStringName | nexa/nexa.go:388-395 | `Name + " "` comes first only when the name is set, followed by `systemType.subtype: value` |
| NexaTypes.CheckStatus | nexa/nexa.go:156-167 | a transport error is passed on; any status but 200 is an error carrying the status line; only a 200 lets the decoded body or its decode error through |
| NexaTypes.StatusCheckedBeforeBody | nexa/nexa.go:234-236 | a non-200 answer is refused whatever its body would decode to |
| NexaApi.StripPreamble | nexa/nexa.go:398-399 | the longest leading run without `{` is removed: the rest is empty or starts with `{`, and is the untouched tail of the frame |
| NexaApi.StripPreambleIdempotent | nexa/nexa.go:398-399 | stripping twice is stripping once |
| NexaApi.ParseMessage | nexa/nexa.go:397-407 | a frame with no `{` at all gives an error and no message |
| NexaApi.ParseMessageIgnoresPreamble | nexa/nexa.go:397-401 | a frame decodes as its text from the first `{` on, whatever comes before |
| NexaApi.NexaEvent.constructor | nexa/nexa.go:76-82 | a decoded event, not yet stamped |
| NexaApi.NexaNode.constructor | nexa/nexa.go:68-74 | a decoded node with its events |
| NexaApi.StampEvents | nexa/nexa.go:209-211 | every event of the node carries the node's id; nothing else is written |
| NexaApi.StampAll | nexa/nexa.go:169-173 | every event carries the id of the last node in the list that holds it |
| NexaApi.StampedOwnEvents | nexa/nexa.go:169-173 | when no two nodes share an event, every event carries its own node's id |
| NexaApi.Nodes | nexa/nexa.go:156-174 | the status check decides the result; on success all events are stamped; on failure no event is touched |
| NexaApi.Node | nexa/nexa.go:196-212 | the status check decides the result; on success the node's events carry its id |
| NexaApi.RoomIndex | nexa/nexa.go:248-251 | the map holds exactly the room ids, each mapped to the position of the last room with that id |
| NexaApi.BuildRoomIndex | nexa/nexa.go:248-251 | the loop builds exactly RoomIndex of the room list |
| NexaApi.Slots | nexa/nexa.go:258-264 | a node goes to a room exactly when it has a room id and that id's slot is the room; the positions come in list order, each at most once |
| NexaApi.NodesForSlots | nexa/nexa.go:258-264 | the nodes a room receives are exactly the nodes at its slots, in order |
| NexaApi.UnknownRoomGoesFirst | nexa/nexa.go:262-263 | a node whose room id matches no room lands in room 0 and in no other |
| NexaApi.DuplicateRoomLastWins | nexa/nexa.go:248-263 | with a repeated room id, the nodes go to the last room with it and not to the earlier ones |
| NexaApi.TwoRoomsExample | nexa/nexa.go:258-264 | rooms r1 and r2 with nodes in r1 and in no room: r1 gets the first node, r2 nothing, and the roomless node is nowhere |
| NexaApi.RoomSlotInRange | nexa/nexa.go:262-263 | every slot is a valid position unless the room list is empty, when it is 0 |
| NexaApi.AppendNode | nexa/nexa.go:263 | one node appended to one room's list; no other room changes |
| NexaApi.AppendAll | nexa/nexa.go:258-264 | each room gets the nodes of its slots appended in order, or the loop stops at the first slot past the end |
| NexaApi.JoinRooms | nexa/nexa.go:248-264 | rooms keep their positions and fields and only gain their nodes; it fails exactly when the room list is empty and some node names a room |
| NexaApi.Rooms | nexa/nexa.go:234-266 | the rooms answer is checked first, then the nested nodes call; then the join happens in place, and its only failure is the index panic |
| NexaMain.KindsExclusive | nexa.go:255-262 | no frame starts with two different known prefixes |
| NexaMain.KindOf | nexa.go:255-262 | the unique known prefix a frame starts with |
| NexaMain.StripKind | nexa.go:255-262 | a known prefix is removed when the frame starts with it; any other frame, including other `kind:` prefixes, is unchanged |
| NexaMain.StripKindOnce | nexa.go:255-262 | at most one prefix is stripped, even when it repeats |
| NexaMain.ParseMessage | nexa.go:254-270 | the decoder sees the frame after its known prefix, or the frame itself |
| NexaMain.BarePrefixFails | nexa.go:264-268 | a frame that is only a prefix is an error |
| NexaMain.ParsedAllAppend | nexa.go:273-279 | consuming two runs of frames emits the first run's messages, then the second's |
| NexaMain.SkipsFailures | nexa.go:274-278 | a frame that fails to parse is skipped, and later frames are still consumed |
| NexaMain.DropsFailure | nexa.go:274-278 | a failing frame adds nothing to the output |
| NexaMain.ParsedAllCount | nexa.go:272-281 | as many messages as there are frames that parse; so never more messages than frames, and exactly as many when every frame parses |
| NexaMain.MessageConsumer | nexa.go:272-282 | the output receives the parsed messages in input order and is closed once the input is exhausted |
| Channels.Channel.constructor | nexa.go:272 | a new channel is open and empty |
| Channels.Channel.Send | nexa.go:279 | a send appends to the channel's queue |
| Channels.Channel.Close | nexa.go:281 | closing keeps pending values |
| Channels.Channel.Receive | nexa.go:273 | a range step yields the oldest value, or ends once the channel is closed and drained |
| Broadcast.HasString | http/server.go:70-77 | true exactly when the value occurs in the slice |
| Broadcast.TemplateHandler.HasTemplate | http/server.go:48-55 | true exactly when some template has that name |
| Broadcast.TemplateFor | http/server.go:174-179 | the capability when set; else the subtype for a "time" message; the empty name exactly when neither applies |
| Broadcast.Route | http/server.go:181-189 | a missing template means the message is ignored; a render error is returned; otherwise the rendered text is delivered |
| Broadcast.UntemplatedIgnored | http/server.go:174-184 | a message with no capability that is not a "time" message is dropped unless a template is named "" |
| Broadcast.DeliveriesAppend | http/server.go:303-310 | broadcasting a stream of messages is broadcasting each part in turn |
| Broadcast.Server.constructor | http/server.go:270-277 | a new server has no subscribers |
| Broadcast.Server.AddSubscriber | http/server.go:114-119 | the subscriber becomes a member; adding twice changes nothing; no other entry changes |
| Broadcast.Server.RemoveSubscriber | http/server.go:121-126 | the subscriber is no longer a member; removing an absent one changes nothing; no other entry changes |
| Broadcast.Server.Broadcast | http/server.go:173-198 | no template: no error and no queue changes; a render error: returned, no queue changes; otherwise every subscriber's queue gains the one rendered text once; the registry is unchanged |
| Broadcast.Server.Pump | http/server.go:302-311 | every message of the stream is broadcast in order; each subscriber's queue gains exactly the deliveries of the stream; broadcast errors do not stop it |
| ServerOptions.Utf8Length | http/server.go:211-214 | a name's `len` in bytes lies between its number of characters and four times that |
| ServerOptions.Rejection | http/server.go:209-237 | an option refuses its value exactly when the name is empty or over 128 bytes, or the port is outside 80 to 65535 |
| ServerOptions.Apply | http/server.go:209-237 | an accepted value is stored in its own setting and no other; a refused one gives the option's error |
| ServerOptions.ApplyAllSucceeds | http/server.go:241-245 | the options succeed exactly when each accepts its value |
| ServerOptions.ApplyAllLastWins | http/server.go:241-245 | options apply in order, so each setting holds the last value given for it |
| ServerOptions.LastOf | http/server.go:241-245 | the value of the last option of a kind, and no later option of that kind |
| ServerOptions.ApplyAllFirstError | http/server.go:241-245 | a failure reports the first option that refuses its value |
| ServerOptions.AsWrittenLosesName | http/server.go:256-261 | as written, a name given without a host is replaced by "localhost", and the host stays empty |
| ServerOptions.ResolveAsWritten | http/server.go:247-268 | as written: the port takes its option or 3000; with a host option the name and host take their options or defaults; without one the name becomes "localhost" and the host stays empty |
| ServerOptions.Resolve | http/server.go:247-268 | (corrected defaults, see Findings) each setting takes its option's value or its default: "goblin", "localhost" and 3000 |
| ServerOptions.ResolveNameIndependentOfHost | http/server.go:247-261 | with the correction, the name no longer depends on whether a host was given |
| ServerOptions.ConfiguredSettingsValid | http/server.go:209-268 | a configured server's name is 1 to 128 bytes and its port is within 80 to 65535 |
| ServerOptions.NewServer | http/server.go:239-277 | (corrected defaults, see Findings) a refused option ends construction with its error (log.Fatal); otherwise a fresh server with the resolved settings, its templates and no subscribers |

## Left out

- HTTP round trips, websocket dialling and reading (`InitSockets` in both clients), and UDP discovery (`IdentifyNexa`, `GetOutboundIP`): network I/O. Calls receive the response or the transport error as parameters.
- nexa/nexa.go `InitSockets` returns at the first frame that does not parse (lines 290-294). That is part of the socket loop, which is not modelled.
- MD5, SHA-256 and the stateful `hash.Hash` behind `HashSum`: foreign crypto calls, modelled as the function parameter `Hash`. The client nonce hashes the clock reading, and that reading is a parameter.
- JSON decoding: library code. The decoder is a parameter, and the only thing assumed of it is that empty input fails. Go's decoder turns JSON numbers into float64, so `IntValue` cannot succeed on a decoded event. Nothing in the model depends on that, because decoded values are inputs.
- Floating point: a float64 is kept as its bit pattern, and how `%v` prints it is a parameter.
- Go strings are byte strings. The model uses sequences of Unicode characters, so invalid UTF-8 is not represented. `len` is modelled as the UTF-8 length.
- Template parsing and rendering (`html/template`), the page and device handlers, and the `homeName` template function: rendering is the abstract `execute`.
- Locking, goroutines and blocking: the subscriber mutex, the per-subscriber write loop `subscribe` with its 3-second timeouts, and blocking channel sends. The model is sequential, and a send only appends to the queue.
- URL building for the REST calls, viper configuration (`NewNexaConfig`, `homeName`), sqlite and process wiring: configuration and storage, not core logic.
- The `Id()` getters on events and messages: plain field reads of `nodeId` and `sourceNode`.
- NexaApi.StampAll: a JSON `null` entry in `lastEvents` is a nil pointer, and stamping it panics. The model's map holds only events, so that panic is not modelled.
- Broadcast.Server.Broadcast: the delivery guarantee is stated only when every registered subscriber has its own queue, which is what `subscribe` sets up. Two registry entries that share a queue would put the message on it once per entry, and the model does not state that case.
- Broadcast.Server.Pump: the same single-queue condition as Broadcast. The hub's stream is taken as closed, because a range over a channel that is never closed does not end.
- NexaMain.MessageConsumer: the input is taken as closed for the same reason.
- Channels.Channel.Send: an unbuffered send blocks until a receiver takes the value. The model queues it instead.
- ServerOptions.Resolve: states the corrected defaults of the finding below, where a missing host becomes "localhost" and the name keeps its value. The code as written, modelled by ResolveAsWritten, sets the name to "localhost" and leaves the host empty.
- ServerOptions.NewServer: builds its settings with the corrected defaults of Resolve, not with ResolveAsWritten. For `NewServer([WithName("Home")])` it gives name "Home" and host "localhost", where the code gives "localhost" and "".

## Findings

| source | as written | input that shows it | evidently intended | confidence | as-written member | corrected member |
|---|---|---|---|---|---|---|
| http/server.go:256-261 | when no host option is given, the else branch sets `name = "localhost"` and leaves `host` empty | `NewServer(WithName("Home"))` runs with home name "localhost" and host "" | the default applies to the host (`host = "localhost"`), and the home name keeps the option's value or "goblin" | high, not executed | ServerOptions.AsWrittenLosesName | ServerOptions.Resolve |
