# STOMP 1.2 broker and client, modelled in Dafny

This project models the sequential core of a small STOMP 1.2 system: a Java
broker and a C++ client. Four pieces are modelled, and each piece's
behaviour is proved about the model.

- **Frame codec** (`Codec`, codec.dfy). The broker decodes one byte at a time into a
  growable buffer. A NUL byte ends the frame. The buffer is a capacity array
  plus a fill count, and the capacity doubles when it is full. Encoding
  appends one NUL.
- **Subscription registry** (`Connections`, connections.dfy). It holds
  - the live connection handlers;
  - the forward map channel → (connection → subscription id);
  - the reverse map connection → (subscription id → channel);
  - one outbox per connection. The outbox stands in for the handler's
    socket and records every frame handed to that connection.

  It supports point-to-point send, channel broadcast with a per-recipient
  rewrite of `subscription:0`, subscribe, unsubscribe by id, `isSubscribed`
  and disconnect.
- **Broker protocol** (`ServerFrames`, server_frames.dfy, and `ServerProtocol`, server_protocol.dfy).
  `Process` reads a frame's command, headers and body the way the Java code
  does. Reading uses `split("\n")`, `trim`, split on the first colon,
  last-duplicate-wins, and the first `"\n\n"`. `Process` then runs CONNECT,
  SUBSCRIBE, UNSUBSCRIBE, SEND, DISCONNECT, or the unknown-command error
  against the registry. The authentication service's answer is an input
  (`LoginStatus`), and its calls are an output (`AuthCall`). The clock
  reading used as message id is a parameter.
- **Client bookkeeping** (`ClientFrames`, client_frames.dfy, and `ClientProtocol`, client_protocol.dfy).
  This covers the `getline`-based split, header parsing and body
  extraction, and `std::stoi` and `std::to_string`. It also covers the
  frames built by login, join, exit and logout, with the two inverse
  subscription maps and the id counters. Then receipt-driven logout,
  MESSAGE filing by sender, and the last-write-wins aggregation of
  `summary`.

`Conversation` (conversation.dfy) connects the two sides. The client's
listener thread reads the socket up to each NUL, drops one trailing
newline and hands the text to the protocol (`ClientFrames.Received`). The
lemmas go through that step and prove the client reads the broker's
RECEIPT and MESSAGE frames back exactly. It
follows a join and a logout through the client, the broker and back.
`Text` and `Overwrite` hold the sequence and map facts both sides share.

Several behaviours of the code are modelled as written and proved:

- **Last duplicate wins.** When a header repeats, the broker and the client
  both keep the **last** value (`Overwrite.CollectLastWins`). Section
  "Repeated Header Entries" of STOMP 1.2 asks for the first.
- **Double terminator.** Every broker reply string already ends in NUL, and
  `encode` appends another. A reply therefore decodes as the reply followed
  by an empty frame (`Codec.DoubleTerminator`). The client's listener
  likewise reads an empty frame after every reply and passes over it
  (`Conversation.EmptyFrameIgnored`).
- **Forward and reverse maps can disagree.** They do not always mirror each
  other:
  - A second SUBSCRIBE of the same connection to the same channel under a
    new id breaks the mirror (`Connections.ResubscribeBreaksMirror`).
    Unsubscribing the old id then silently ends the live subscription
    (`Connections.ResubscribeThenUnsubscribeDropsLiveId`).
  - Reusing an id for a second channel leaves a stale forward entry. That
    entry survives `disconnect` (`Connections.ReusedIdSurvivesDisconnect`).

  The comment on the reverse map in `ConnectionsImpl.java` (lines 16-17)
  says it serves to unsubscribe by id and to clean up on disconnect, which
  presumes it mirrors the forward map. The model follows the code. It proves the mirror invariant only where the code keeps it: under
  a fresh-id, fresh-channel condition for subscribe.
- **SUBSCRIBE and UNSUBSCRIBE need no login.** Only SEND checks
  `currentUser`.
- **The client's NUL is lost.** The `"\0"` at the end of the client's C++
  string literals is dropped when the `std::string` is built. The client's
  frames are therefore modelled without it. The separate one-byte send
  belongs to the connection handler, which is outside the model.
- **Join adds a leading `/`.** `joinGame` subscribes to `"/" + game`.

## Model

| member | source | states |
|---|---|---|
| Codec.Fresh | server/src/main/java/bgu/spl/net/impl/stomp/StompEncoderDecoder.java:9-10 | a new decoder holds no bytes and has the initial 1 KiB capacity |
| Codec.CopyOf | server/src/main/java/bgu/spl/net/impl/stomp/StompEncoderDecoder.java:32 | `Arrays.copyOf` keeps the old bytes, pads with zeros and has exactly the requested length |
| Codec.Push | server/src/main/java/bgu/spl/net/impl/stomp/StompEncoderDecoder.java:30-36 | the buffered bytes are kept, the new byte lands at the old fill count, which grows by one; the capacity doubles exactly when the buffer was full and is unchanged otherwise |
| Codec.PushByte | server/src/main/java/bgu/spl/net/impl/stomp/StompEncoderDecoder.java:30-36 | the imperative copy-and-append loop produces the buffered bytes followed by the new byte, and agrees with `Push` |
| Codec.PopString | server/src/main/java/bgu/spl/net/impl/stomp/StompEncoderDecoder.java:38-42 | yields exactly the buffered bytes and leaves the buffer empty, keeping its array |
| Codec.DecodeNextByte | server/src/main/java/bgu/spl/net/impl/stomp/StompEncoderDecoder.java:13-22 | a NUL yields the bytes buffered since the last frame and resets the count to 0; any other byte yields no frame and is appended, the count growing by one |
| Codec.Encode | server/src/main/java/bgu/spl/net/impl/stomp/StompEncoderDecoder.java:25-28 | the message followed by exactly one NUL |
| Codec.FeedAppend | server/src/main/java/bgu/spl/net/impl/stomp/StompEncoderDecoder.java:13-22 | decoding is independent of chunking: feeding `a + b` gives the frames of `a` followed by those of `b` from the state `a` left |
| Codec.FeedNulFree | server/src/main/java/bgu/spl/net/impl/stomp/StompEncoderDecoder.java:16-21 | NUL-free input yields no frame and is buffered in full |
| Codec.FeedTerminator | server/src/main/java/bgu/spl/net/impl/stomp/StompEncoderDecoder.java:16-18 | a NUL yields whatever is buffered (the empty payload on an empty buffer) and empties the buffer |
| Codec.FeedEncoded | server/src/main/java/bgu/spl/net/impl/stomp/StompEncoderDecoder.java:13-28 | from any state, an encoded NUL-free message yields nothing before its last byte and the buffered prefix plus the message at it |
| Codec.RoundTrip | server/src/main/java/bgu/spl/net/impl/stomp/StompEncoderDecoder.java:13-28 | a fresh decoder fed `encode(m)` yields no frame before the last byte, then exactly `m`, and is left empty |
| Codec.MultiFrame | server/src/main/java/bgu/spl/net/impl/stomp/StompEncoderDecoder.java:13-22 | the concatenated encodings of NUL-free frames decode to those frames, in order, leaving the decoder empty |
| Codec.DoubleTerminator | server/src/main/java/bgu/spl/net/impl/stomp/StompEncoderDecoder.java:25-28 | a reply that already ends in NUL decodes to the reply and then an empty frame |
| Connections.AddConnection | server/src/main/java/bgu/spl/net/srv/ConnectionsImpl.java:94-96 | the handler of `c` is set, other connections and both subscription maps are untouched |
| Connections.Send | server/src/main/java/bgu/spl/net/srv/ConnectionsImpl.java:21-28 | returns true iff the connection is registered, and then appends the frame to its outbox only; otherwise nothing changes |
| Connections.AddThenSend | server/src/main/java/bgu/spl/net/srv/ConnectionsImpl.java:94-96 | after registering a handler, sending to that connection succeeds and delivers the frame |
| Connections.IsSubscribed | server/src/main/java/bgu/spl/net/srv/ConnectionsImpl.java:99-105 | true iff the channel's subscriber map lists the connection; false for a channel without subscriber map |
| Connections.Subscribe | server/src/main/java/bgu/spl/net/srv/ConnectionsImpl.java:63-71 | afterwards the connection is subscribed, the forward map gives the id and the reverse map the channel; every other forward and reverse entry is unchanged |
| Connections.Unsubscribe | server/src/main/java/bgu/spl/net/srv/ConnectionsImpl.java:74-89 | an id the reverse map binds loses that binding and its channel stops listing the connection; an unknown connection or id changes nothing |
| Connections.Disconnect | server/src/main/java/bgu/spl/net/srv/ConnectionsImpl.java:45-60 | the handler and the whole reverse map of `c` go, sending to `c` fails, and every channel the reverse map named stops listing `c`; other connections are untouched |
| Connections.Broadcast | server/src/main/java/bgu/spl/net/srv/ConnectionsImpl.java:31-42 | every live subscriber of the channel receives exactly one copy carrying its own subscription id, nobody else receives anything, and an unknown channel is a no-op |
| Connections.SendToChannel | server/src/main/java/bgu/spl/net/srv/ConnectionsImpl.java:36-40 | the loop over the subscribers, in any iteration order, computes `Broadcast` |
| Connections.EmptyMirror | server/src/main/java/bgu/spl/net/srv/ConnectionsImpl.java:10-18 | the empty registry's forward and reverse maps mirror each other |
| Connections.SubscribeKeepsMirror | server/src/main/java/bgu/spl/net/srv/ConnectionsImpl.java:63-71 | subscribing with an id and channel not yet used by the connection keeps the maps mirror images |
| Connections.UnsubscribeKeepsMirror | server/src/main/java/bgu/spl/net/srv/ConnectionsImpl.java:74-89 | unsubscribing keeps mirror images mirror images |
| Connections.DisconnectKeepsMirror | server/src/main/java/bgu/spl/net/srv/ConnectionsImpl.java:45-60 | disconnecting keeps mirror images mirror images |
| Connections.BroadcastKeepsMirror | server/src/main/java/bgu/spl/net/srv/ConnectionsImpl.java:31-42 | broadcasting does not touch the subscription maps |
| Connections.DisconnectComplete | server/src/main/java/bgu/spl/net/srv/ConnectionsImpl.java:45-60 | on mirrored maps, after disconnect no channel lists the connection and sending to it fails |
| Connections.ResubscribeBreaksMirror | server/src/main/java/bgu/spl/net/srv/ConnectionsImpl.java:63-71 | subscribing twice to one channel under two ids keeps only the second id forward but both ids in reverse, so the maps stop mirroring |
| Connections.ResubscribeThenUnsubscribeDropsLiveId | server/src/main/java/bgu/spl/net/srv/ConnectionsImpl.java:74-89 | after such a resubscription, unsubscribing the first id takes the connection off the channel although the second id still names it, so broadcasts there miss it |
| Connections.ReusedIdSurvivesDisconnect | server/src/main/java/bgu/spl/net/srv/ConnectionsImpl.java:45-60 | reusing an id for a second channel leaves the first channel listing the connection, and that entry survives disconnect |
| Overwrite.CollectLastWins | server/src/main/java/bgu/spl/net/impl/stomp/StompMessagingProtocolImpl.java:208-215 | a header key is present iff some line carries it, and its value is the one on the last such line |
| Overwrite.CollectAppend | server/src/main/java/bgu/spl/net/impl/stomp/StompMessagingProtocolImpl.java:208-215 | inserting two runs of headers in turn equals overriding the first run's map with the second's |
| Overwrite.OverlayLastWins | client/src/StompProtocol.cpp:395-405 | applying update maps in order: a key is present iff some update sets it, with the value of the latest one |
| Text.IndexOfFrom | server/src/main/java/bgu/spl/net/impl/stomp/StompMessagingProtocolImpl.java:220-221 | `indexOf` finds an occurrence with none before it, or reports that there is none |
| Text.ReplaceFirst | server/src/main/java/bgu/spl/net/srv/ConnectionsImpl.java:38 | without an occurrence the text is unchanged; otherwise the first occurrence, and only it, is replaced |
| Text.NatToString | server/src/main/java/bgu/spl/net/impl/stomp/StompMessagingProtocolImpl.java:155 | the decimal text of a message id consists of digits denoting that number, without leading zeros |
| ServerFrames.Trim | server/src/main/java/bgu/spl/net/impl/stomp/StompMessagingProtocolImpl.java:33 | `trim` leaves no character at or below the space at either end, and is empty exactly for all-blank text |
| ServerFrames.TrimSlice | server/src/main/java/bgu/spl/net/impl/stomp/StompMessagingProtocolImpl.java:33 | `trim` returns a slice of its input, and everything outside that slice is at or below the space |
| ServerFrames.TrimIdempotent | server/src/main/java/bgu/spl/net/impl/stomp/StompMessagingProtocolImpl.java:209-213 | trimming a trimmed key or value changes nothing |
| ServerFrames.SplitLines | server/src/main/java/bgu/spl/net/impl/stomp/StompMessagingProtocolImpl.java:30 | `split("\n")` yields the newline-separated pieces of the message in order, dropping only the empty pieces at the end; no line holds a newline, and a message without newline is its single line |
| ServerFrames.UntilBlank | server/src/main/java/bgu/spl/net/impl/stomp/StompMessagingProtocolImpl.java:208-210 | the header loop reads the leading lines that are not blank once trimmed and stops at the first blank one |
| ServerFrames.HeaderPair | server/src/main/java/bgu/spl/net/impl/stomp/StompMessagingProtocolImpl.java:209-213 | a trimmed line without a colon is skipped; otherwise the line splits at its first colon into the trimmed key and the trimmed value |
| ServerFrames.ParseHeaders | server/src/main/java/bgu/spl/net/impl/stomp/StompMessagingProtocolImpl.java:205-217 | a name is present exactly when some line of the header block carries it, and its value comes from the last such line |
| ServerFrames.CommandLine | server/src/main/java/bgu/spl/net/impl/stomp/StompMessagingProtocolImpl.java:30-33 | there is no command exactly when the message is non-empty and all newlines; the command is the trimmed first line, never spans a line, and is the whole trimmed message when there is no newline |
| ServerFrames.ExtractBody | server/src/main/java/bgu/spl/net/impl/stomp/StompMessagingProtocolImpl.java:219-223 | the text after the first `"\n\n"`, or empty when there is none |
| ServerFrames.UntilBlankPrefix | server/src/main/java/bgu/spl/net/impl/stomp/StompMessagingProtocolImpl.java:207-210 | the blank lines `split` drops at the end never change which headers are read |
| ServerFrames.PairsOfHeaders | server/src/main/java/bgu/spl/net/impl/stomp/StompMessagingProtocolImpl.java:211-213 | clean header lines read back as the very headers they were written from, in order |
| ServerFrames.FormattedLines | server/src/main/java/bgu/spl/net/impl/stomp/StompMessagingProtocolImpl.java:30 | a well-formed frame splits into its command, its header lines, a blank line and the body's lines, up to the empty lines `split` drops |
| ServerFrames.ParseFormattedCommand | server/src/main/java/bgu/spl/net/impl/stomp/StompMessagingProtocolImpl.java:30-33 | the command read from a well-formed frame is its trimmed first line |
| ServerFrames.ParseFormattedHeaders | server/src/main/java/bgu/spl/net/impl/stomp/StompMessagingProtocolImpl.java:205-217 | the headers read from a well-formed frame are its header list collected with last-duplicate-wins |
| ServerFrames.ParseFormattedBody | server/src/main/java/bgu/spl/net/impl/stomp/StompMessagingProtocolImpl.java:219-223 | the body read from a well-formed frame is the body it was written with |
| ServerProtocol.Start | server/src/main/java/bgu/spl/net/impl/stomp/StompMessagingProtocolImpl.java:13-22 | a new session is bound to its connection, with nobody logged in and no termination pending |
| ServerProtocol.ConnectedFrame | server/src/main/java/bgu/spl/net/impl/stomp/StompMessagingProtocolImpl.java:89-92 | the CONNECTED reply is the frame with the single header `version:1.2` and a NUL body |
| ServerProtocol.ReceiptFrame | server/src/main/java/bgu/spl/net/impl/stomp/StompMessagingProtocolImpl.java:183-186 | the RECEIPT reply is the frame with the single header `receipt-id` and a NUL body |
| ServerProtocol.ErrorHeaders | server/src/main/java/bgu/spl/net/impl/stomp/StompMessagingProtocolImpl.java:192-194 | an ERROR carries `message` first, and `receipt-id` exactly when the request had `receipt`, with its value |
| ServerProtocol.ErrorFrame | server/src/main/java/bgu/spl/net/impl/stomp/StompMessagingProtocolImpl.java:192-197 | the ERROR reply is the frame with those headers and the description, a newline and a NUL as body |
| ServerProtocol.MessageFrame | server/src/main/java/bgu/spl/net/impl/stomp/StompMessagingProtocolImpl.java:153-159 | the MESSAGE template is the frame with headers `subscription:0`, `message-id`, `destination` and body, newline and NUL as body |
| ServerProtocol.ReceiptIfNeeded | server/src/main/java/bgu/spl/net/impl/stomp/StompMessagingProtocolImpl.java:180-189 | a RECEIPT echoing the `receipt` value goes to this connection iff the request carried one; nothing else changes |
| ServerProtocol.SendError | server/src/main/java/bgu/spl/net/impl/stomp/StompMessagingProtocolImpl.java:191-203 | the ERROR goes to this connection only, then the session is marked to terminate and the connection leaves the registry and all its channels; every other connection keeps its handler, outbox and forward and reverse entries |
| ServerProtocol.HandleConnect | server/src/main/java/bgu/spl/net/impl/stomp/StompMessagingProtocolImpl.java:67-103 | a bad or missing version, then missing credentials, are Malformed Frame errors without asking the service; otherwise the service is asked once; acceptance records the user and answers CONNECTED to this connection alone, any other status is a Login Failed error |
| ServerProtocol.HandleSubscribe | server/src/main/java/bgu/spl/net/impl/stomp/StompMessagingProtocolImpl.java:105-118 | without `destination` and `id` a Malformed Frame error; otherwise both maps bind the id to the destination, logged in or not, every other forward and reverse entry is unchanged, and the receipt follows if asked |
| ServerProtocol.HandleUnsubscribe | server/src/main/java/bgu/spl/net/impl/stomp/StompMessagingProtocolImpl.java:120-132 | without `id` a Malformed Frame error; otherwise the id is unbound and its channel stops listing the connection, every other forward and reverse entry is unchanged, and the receipt follows if asked |
| ServerProtocol.HandleSend | server/src/main/java/bgu/spl/net/impl/stomp/StompMessagingProtocolImpl.java:134-164 | checks destination, then login, then subscription, each failure an error with no broadcast; on success every live subscriber gets its own MESSAGE copy and the sender then its receipt if asked |
| ServerProtocol.HandleDisconnect | server/src/main/java/bgu/spl/net/impl/stomp/StompMessagingProtocolImpl.java:166-176 | logs the user out, sends the receipt if asked while still registered, then terminates and leaves the registry; every other connection keeps its handler, outbox and forward and reverse entries |
| ServerProtocol.Process | server/src/main/java/bgu/spl/net/impl/stomp/StompMessagingProtocolImpl.java:29-58 | a frame with no line is ignored; termination is never undone; only CONNECT and DISCONNECT call the authentication service |
| ServerProtocol.Dispatch | server/src/main/java/bgu/spl/net/impl/stomp/StompMessagingProtocolImpl.java:38-57 | the command selects the handler; only CONNECT and DISCONNECT call the service, and termination is never undone |
| ServerProtocol.TerminationDisconnects | server/src/main/java/bgu/spl/net/impl/stomp/StompMessagingProtocolImpl.java:61-63 | a session ends only together with its connection, and no other, leaving the registry; a frame that does not end it leaves the set of live connections alone |
| ServerProtocol.ProcessFormatted | server/src/main/java/bgu/spl/net/impl/stomp/StompMessagingProtocolImpl.java:29-58 | a well-formed frame is dispatched on its own command with its collected headers and its body |
| ServerProtocol.ErrorFrameReadsBack | server/src/main/java/bgu/spl/net/impl/stomp/StompMessagingProtocolImpl.java:191-197 | the broker's own reader gets back the ERROR command, `message` and `receipt-id` headers and the description body |
| ServerProtocol.ReceiptFrameReadsBack | server/src/main/java/bgu/spl/net/impl/stomp/StompMessagingProtocolImpl.java:183-186 | the broker's own reader gets back the RECEIPT command and its `receipt-id` |
| ServerProtocol.ConnectedFrameReadsBack | server/src/main/java/bgu/spl/net/impl/stomp/StompMessagingProtocolImpl.java:89-92 | the broker's own reader gets back the CONNECTED command and `version:1.2` |
| ServerProtocol.PersonalizedMessage | server/src/main/java/bgu/spl/net/srv/ConnectionsImpl.java:37-39 | rewriting the template's first `subscription:0` gives the MESSAGE frame carrying the recipient's id and otherwise the same headers and body |
| ServerProtocol.ConnectAccepted | server/src/main/java/bgu/spl/net/impl/stomp/StompMessagingProtocolImpl.java:85-93 | a CONNECT with version 1.2 and credentials the service accepts logs the user in and is answered CONNECTED |
| ServerProtocol.SubscribeFrame | server/target/classes/bgu/spl/net/srv/tester.py:44-49 | a SUBSCRIBE without receipt binds the id to the destination in both maps and answers nothing |
| ServerProtocol.SendFrame | server/src/main/java/bgu/spl/net/impl/stomp/StompMessagingProtocolImpl.java:153-162 | a SEND from a logged-in subscriber gives every live subscriber one MESSAGE with its own subscription id, the destination, the clock reading and the body |
| ServerProtocol.SubscribeThenSend | server/target/classes/bgu/spl/net/srv/tester.py:47-69 | a client that subscribes and then sends gets its own message back under the id it chose |
| ServerProtocol.DisconnectFrame | server/target/classes/bgu/spl/net/srv/tester.py:85-93 | a DISCONNECT with a receipt request logs out, is answered by the matching RECEIPT, and ends the session |
| ServerProtocol.SendBeforeLogin | server/src/main/java/bgu/spl/net/impl/stomp/StompMessagingProtocolImpl.java:141-145 | a SEND before login is answered by an Unauthorized ERROR, ends the session and reaches nobody else |
| ClientFrames.Split | client/src/StompProtocol.cpp:139-147 | no token contains the delimiter, and only the empty string has no tokens |
| ClientFrames.SplitJoin | client/src/StompProtocol.cpp:139-147 | joining the tokens with the delimiter gives the string back, less one trailing delimiter |
| ClientFrames.StripCR | client/src/StompProtocol.cpp:165-167 | exactly one trailing carriage return is removed, and only if present |
| ClientFrames.CommandOf | client/src/StompProtocol.cpp:109-114 | the command never spans a line, and an empty frame has the empty command; `ClientFrames.ReadsFormatted` shows it is exactly the command of a broker frame |
| ClientFrames.Block | client/src/StompProtocol.cpp:159 | the header loop reads the leading lines up to the first empty line or lone carriage return |
| ClientFrames.ParseLine | client/src/StompProtocol.cpp:160-167 | a line without a colon is skipped; otherwise the key is colon-free |
| ClientFrames.Pairs | client/src/StompProtocol.cpp:159-169 | the header lines give at most one header each, and no header name holds a colon |
| ClientFrames.HeadersOfLastWins | client/src/StompProtocol.cpp:150-172 | a name is among the headers exactly when some line of the header block carries it, and its value comes from the last such line |
| ClientFrames.ParseLineOf | client/src/StompProtocol.cpp:160-168 | a colon-free key, a colon and a value read back as that key and the value less one carriage return |
| ClientFrames.BodyOf | client/src/StompProtocol.cpp:175-187 | the text after the first `"\n\n"`, else after the first `"\r\n\r\n"`, else empty |
| ClientFrames.ReadsFormatted | client/src/StompProtocol.cpp:108-117 | the client reads a broker frame's command, headers (last duplicate winning) and body exactly |
| ClientFrames.ReadsBodiless | client/src/StompProtocol.cpp:108-117 | a bodiless broker frame cut before its final newline still reads as its command and headers |
| ClientFrames.BeforeNul | client/src/StompClient.cpp:27 | reading up to the delimiter yields the text before the first NUL, which holds no NUL |
| ClientFrames.Received | client/src/StompClient.cpp:24-38 | nothing is handed on when no NUL arrives; otherwise the NUL-free text before the first NUL, less one trailing newline |
| ClientFrames.ReceivedLine | client/src/StompClient.cpp:27-36 | text, a newline and the NUL arrive as that text, whatever follows |
| ClientFrames.ReceivedFormatted | client/src/StompClient.cpp:27-36 | a broker frame whose body ends in newline and NUL arrives as the same frame with the body alone |
| ClientFrames.ReceivedBodiless | client/src/StompClient.cpp:27-36 | a broker frame whose body is the NUL arrives without the NUL and the final newline |
| ClientFrames.IntToString | client/src/StompProtocol.cpp:231 | `std::to_string` yields non-empty text with a minus sign exactly for negative numbers |
| ClientFrames.Stoi | client/src/StompProtocol.cpp:512 | a conversion that succeeds lies within the `int` range |
| ClientFrames.StoiIntToString | client/src/StompProtocol.cpp:512 | `std::stoi` reads back what `std::to_string` writes, for every `int` |
| ClientFrames.StoiNoDigits | client/src/StompProtocol.cpp:458-460 | text without a digit does not convert |
| ClientFrames.StoiSkipsSpace | client/src/StompProtocol.cpp:459 | leading white space does not change the conversion |
| ClientProtocol.InitValid | client/src/StompProtocol.cpp:7-19 | the constructed client satisfies the bookkeeping invariant and is neither connected nor terminating |
| ClientProtocol.Login | client/src/StompProtocol.cpp:192-209 | records the user name at once and sends the CONNECT frame; nothing else changes |
| ClientProtocol.JoinGame | client/src/StompProtocol.cpp:212-241 | a joined game is left alone; otherwise both maps bind the game to the next subscription id, the next receipt id remembers the join, both counters advance and the SUBSCRIBE frame is sent |
| ClientProtocol.ExitGame | client/src/StompProtocol.cpp:244-271 | an unknown game is left alone; otherwise both bindings go, the next receipt id remembers the exit and the UNSUBSCRIBE frame is sent |
| ClientProtocol.Logout | client/src/StompProtocol.cpp:274-291 | a no-op unless connected with no pending logout; otherwise the logout is requested, the next receipt id remembers it and DISCONNECT is sent |
| ClientProtocol.FirstUserLine | client/src/StompProtocol.cpp:479-490 | finds the first body line starting `user:`, or reports there is none |
| ClientProtocol.TrimEnd | client/src/StompProtocol.cpp:485-487 | removes exactly the trailing carriage returns, newlines and spaces |
| ClientProtocol.SenderNamed | client/src/StompProtocol.cpp:476-490 | the sender is the text after `user:` on the first line that starts with it, with only trailing carriage returns, newlines and spaces removed; nobody when no line starts with `user:` |
| ClientProtocol.SenderOfReport | client/src/StompProtocol.cpp:479-489 | a report body starting with its `user:` line names that user as sender |
| ClientProtocol.HandleMessage | client/src/StompProtocol.cpp:452-505 | a missing, non-numeric or unknown subscription, or a body naming no sender, changes nothing; otherwise the body is appended to exactly that game's and sender's reports |
| ClientProtocol.HandleReceipt | client/src/StompProtocol.cpp:508-534 | no receipt id: ignored; a non-numeric one escapes as an error; a known id is consumed, and the logout id also disconnects and closes; unknown ids are ignored |
| ClientProtocol.ProcessServerFrame | client/src/StompProtocol.cpp:108-134 | the reader stops exactly on ERROR, which disconnects; CONNECTED connects; the subscription state and counters never change |
| ClientProtocol.TerminationCause | client/src/StompProtocol.cpp:21-23 | the client stops only after asking to log out, and then only on an ERROR or on a receipt that closes the connection |
| ClientProtocol.JoinValid | client/src/StompProtocol.cpp:221-226 | joining keeps the two subscription maps exact inverses and every id below its counter |
| ClientProtocol.ExitValid | client/src/StompProtocol.cpp:254-260 | exiting keeps the two subscription maps exact inverses and every id below its counter |
| ClientProtocol.LogoutValid | client/src/StompProtocol.cpp:280-282 | logging out keeps the bookkeeping invariant |
| ClientProtocol.LoginValid | client/src/StompProtocol.cpp:194 | logging in keeps the bookkeeping invariant |
| ClientProtocol.ProcessValid | client/src/StompProtocol.cpp:108-134 | handling a server frame keeps the bookkeeping invariant |
| ClientProtocol.JoinThenExit | client/src/StompProtocol.cpp:212-271 | leaving a game just joined restores both maps, having used one subscription id and two receipt ids |
| ClientProtocol.JoinFresh | client/src/StompProtocol.cpp:221-222 | the ids a join draws are not in use yet |
| ClientProtocol.AggregateReports | client/src/StompProtocol.cpp:391-405 | the aggregation loop computes the in-order overlay of every report's updates |
| ClientProtocol.AggregateLastWins | client/src/StompProtocol.cpp:395-405 | for each kind of update, a key is in the summary iff some report sets it, with the value of the latest report that does |
| ClientProtocol.Summary | client/src/StompProtocol.cpp:369-379 | there is no summary exactly when no report of that user in that game is stored |
| Conversation.ReceiptReadsBack | client/src/StompProtocol.cpp:150-172 | the listener hands on the broker's RECEIPT, and the client reads it as RECEIPT with the id the client chose |
| Conversation.ReceiptHandled | client/src/StompProtocol.cpp:508-517 | a RECEIPT for any `int` id is handled as that very id |
| Conversation.EmptyFrameIgnored | client/src/StompClient.cpp:27-41 | after a reply, the listener reads the empty frame the extra NUL makes, and the client passes over it |
| Conversation.LogoutRoundTrip | client/src/StompProtocol.cpp:274-291 | logout, the broker's DISCONNECT handling and the returned receipt leave the client disconnected, closed and terminating |
| Conversation.JoinServerSide | server/src/main/java/bgu/spl/net/impl/stomp/StompMessagingProtocolImpl.java:105-118 | the broker binds the client's subscription id to `"/" + game` and answers the requested receipt |
| Conversation.JoinAcknowledged | client/src/StompProtocol.cpp:515-532 | the receipt for a join consumes exactly the join's pending action and keeps the client connected |
| Conversation.JoinRoundTrip | client/src/StompProtocol.cpp:212-241 | a join goes round: the broker subscribes under the client's id and the acknowledgement clears the pending action |
| Conversation.MessageReceived | client/src/StompClient.cpp:27-36 | a subscriber's copy of a broadcast arrives as the MESSAGE frame with its id, without the final newline and NUL |
| Conversation.MessageReadsBack | client/src/StompProtocol.cpp:150-187 | the client reads that copy as MESSAGE, with the subscription id the broker put in and the body unchanged |
| Conversation.MessageDelivered | client/src/StompProtocol.cpp:452-500 | a broadcast copy for one of the client's subscriptions, as the listener hands it on, is filed under that game and the body's sender |

## Left out

- Sockets, the reactor and both connection handlers are out of scope. This includes the selector loop, partial writes, the worker pool, and the client's `ConnectionHandler` with its `sendLine` and separate NUL byte. These are I/O and threads; the outboxes and the `frame` outcome stand in for them.
- Concurrency is not modelled: `ConcurrentHashMap` atomicity, interleavings of broadcast and disconnect, and the client's mutex. The registry and both protocols are sequential state machines.
- The authentication service (`Database`) is not part of this model. Its login answer is the `LoginStatus` input, and its login and logout calls are the `AuthCall` outputs.
- `System.currentTimeMillis()` is the `now` parameter.
- ClientFrames.BeforeNul: the client's `ConnectionHandler::getFrameAscii` is not part of this model. It is taken to return the characters before the delimiter and to drop the delimiter, and to fail when the connection ends first.
- UTF-8 is not modelled. The codec works on byte sequences and the protocols on character strings.
- Connections.Personalize: `replaceFirst` is modelled as literal first-occurrence replacement. Java reads the replacement as a regex template, so an id containing `$` or `\` would behave differently.
- Integer widths are not modelled. The broker's `len`, the buffer capacity and the client's id counters are unbounded. Join and logout round trips assume the counters are still within the `int` range, so `std::to_string` and `std::stoi` agree.
- `Event` and `parseEventsFile` are not part of this model. A stored report is its raw body, and `summary` takes the event parser as the `parse` argument.
- `sendReport`, the console output, `summary`'s file writing and `processKeyboardCommand`'s argument checks are left out. They are output formatting and argument parsing around the modelled commands.
- The bootstrap code (`StompServer`, `Server`), the Python database wrapper and the test scripts are left out. The test scripts only inform the scenario lemmas.
- ClientFrames.SplitJoin: the round trip is stated up to one trailing delimiter. `getline` drops that delimiter, so the exact round trip does not hold when the string ends with it.
- Connections.SubscribeKeepsMirror: holds only when the connection uses neither the id nor the channel yet. Without that condition the code breaks the mirror; the three counterexample lemmas show how.
- Connections.DisconnectComplete: needs mirrored maps. After an id is reused for a second channel, a stale channel entry survives disconnect (`Connections.ReusedIdSurvivesDisconnect`).
