/**
 * The broker's per-connection STOMP state machine. One call of `Process`
 * handles the text of one frame: it reads the command, headers and body,
 * checks what the command requires, updates the registry (whose outboxes
 * record the reply frames) and the session flags, and reports the calls it
 * made to the authentication service. The service's answer to a login is an
 * input, and so is the clock reading used as message id.
 */
module ServerProtocol {
  import opened Wrappers
  import opened Text
  import opened Overwrite
  import opened Connections
  import opened ServerFrames

  /** What the authentication service answers to a login attempt. */
  datatype LoginStatus =
    | AddedNewUser
    | LoggedInSuccessfully
    | WrongPassword
    | AlreadyLoggedIn
    | ClientAlreadyConnected
  {
    predicate Accepted() {
      this == AddedNewUser || this == LoggedInSuccessfully
    }
  }

  /** A call made to the authentication service. */
  datatype AuthCall =
    | Login(connection: ConnectionId, login: string, passcode: string)
    | Logout(connection: ConnectionId)

  /** The protocol object of one connection. */
  datatype Session = Session(connectionId: ConnectionId, currentUser: Option<string>, shouldTerminate: bool)

  /** The result of handling one frame. */
  datatype Step = Step(session: Session, registry: Registry, calls: seq<AuthCall>)

  type Headers = map<string, string>

  /** `start`: a fresh session for connection `c`, nobody logged in. */
  function Start(c: ConnectionId): (s: Session)
    ensures s.connectionId == c && s.currentUser.None? && !s.shouldTerminate
  {
    Session(c, None, false)
  }

  // ---- Reply frames ----

  /** The only protocol version the broker speaks. */
  const SupportedVersion := "1.2"

  /** The CONNECTED reply; like every reply it carries its own NUL. */
  function ConnectedFrame(): (f: Frame)
    ensures f == FormatFrame("CONNECTED", [("version", SupportedVersion)], "\0")
  {
    OneHeaderLayout("CONNECTED", "version", SupportedVersion, "\0");
    "CONNECTED\n" + "version:1.2\n" + "\n" + "\0"
  }

  function ReceiptFrame(receipt: string): (f: Frame)
    ensures f == FormatFrame("RECEIPT", [("receipt-id", receipt)], "\0")
  {
    OneHeaderLayout("RECEIPT", "receipt-id", receipt, "\0");
    "RECEIPT\n" + "receipt-id:" + receipt + "\n" + "\n" + "\0"
  }

  /** A frame with a single header, written out. */
  lemma OneHeaderLayout(command: string, key: string, value: string, body: string)
    ensures FormatFrame(command, [(key, value)], body)
         == command + "\n" + key + ":" + value + "\n" + "\n" + body
  {
    var hs := [(key, value)];
    assert hs[1..] == [];
    var line := HeaderLine(hs[0]);
    assert FrameTail(hs[1..], body) == "\n" + body;
    assert FrameTail(hs, body) == line + "\n" + ("\n" + body);
    var x := command + "\n";
    calc {
      FormatFrame(command, hs, body);
      x + ((line + "\n") + ("\n" + body));
      { AppendAssoc(x, line + "\n", "\n" + body); }
      (x + (line + "\n")) + ("\n" + body);
      { AppendAssoc(x, line, "\n"); }
      ((x + line) + "\n") + ("\n" + body);
      { AppendAssoc((x + line) + "\n", "\n", body); }
      (((x + line) + "\n") + "\n") + body;
      { AppendAssoc(x, key + ":", value); AppendAssoc(x, key, ":"); }
      command + "\n" + key + ":" + value + "\n" + "\n" + body;
    }
  }

  /** The headers of an ERROR reply: `message`, then `receipt-id` exactly
      when the request asked for a receipt. */
  function ErrorHeaders(headers: Headers, message: string): (hs: seq<(string, string)>)
    ensures 1 <= |hs| <= 2 && hs[0] == ("message", message)
    ensures |hs| == 2 <==> "receipt" in headers
    ensures |hs| == 2 ==> hs[1] == ("receipt-id", headers["receipt"])
  {
    [("message", message)] + (if "receipt" in headers then [("receipt-id", headers["receipt"])] else [])
  }

  function ErrorFrame(headers: Headers, message: string, description: string): (f: Frame)
    ensures f == FormatFrame("ERROR", ErrorHeaders(headers, message), description + "\n\0")
  {
    var receiptLine := if "receipt" in headers then "receipt-id:" + headers["receipt"] + "\n" else "";
    ErrorLayout(headers, message, description);
    "ERROR\n" + "message:" + message + "\n" + receiptLine + "\n" + description + "\n" + "\0"
  }

  lemma ErrorLayout(headers: Headers, message: string, description: string)
    ensures var receiptLine := if "receipt" in headers then "receipt-id:" + headers["receipt"] + "\n" else "";
      "ERROR\n" + "message:" + message + "\n" + receiptLine + "\n" + description + "\n" + "\0"
      == FormatFrame("ERROR", ErrorHeaders(headers, message), description + "\n\0")
  {
    var hs := ErrorHeaders(headers, message);
    var d := description + "\n\0";
    var head := "ERROR\n" + "message:" + message + "\n";
    var receiptLine := if "receipt" in headers then "receipt-id:" + headers["receipt"] + "\n" else "";
    assert FormatFrame("ERROR", hs, d) == "ERROR" + "\n" + FrameTail(hs, d);
    assert FrameTail(hs, d) == "message:" + message + "\n" + FrameTail(hs[1..], d);
    if "receipt" in headers {
      assert hs[1..][1..] == [];
      assert FrameTail(hs[1..], d) == receiptLine + ("\n" + d);
    } else {
      assert hs[1..] == [];
      assert FrameTail(hs[1..], d) == receiptLine + ("\n" + d);
    }
    var t := "ERROR\n";
    var m := "message:" + message;
    var x := (head + receiptLine) + "\n";
    calc {
      FormatFrame("ERROR", hs, d);
      t + ((m + "\n") + (receiptLine + ("\n" + d)));
      { AppendAssoc(t, m + "\n", receiptLine + ("\n" + d)); }
      (t + (m + "\n")) + (receiptLine + ("\n" + d));
      { AppendAssoc(t, m, "\n"); AppendAssoc(t, "message:", message); }
      head + (receiptLine + ("\n" + d));
      { AppendAssoc(head, receiptLine, "\n" + d); AppendAssoc(head + receiptLine, "\n", d); }
      x + d;
      { AppendAssoc(x, description, "\n\0"); AppendAssoc(x + description, "\n", "\0"); }
      x + description + "\n" + "\0";
    }
  }

  /** The MESSAGE frame a SEND broadcasts, before each recipient's copy gets
      its own subscription id. */
  function MessageFrame(destination: string, messageId: nat, body: string): (f: Frame)
    ensures f == FormatFrame("MESSAGE", MessageHeaders("0", destination, messageId), body + "\n\0")
  {
    MessageLayout("0", destination, messageId, body);
    "MESSAGE\n" + "subscription:0\n" + "message-id:" + NatToString(messageId) + "\n"
      + "destination:" + destination + "\n" + "\n" + body + "\n" + "\0"
  }

  function MessageHeaders(subscription: string, destination: string, messageId: nat): seq<(string, string)> {
    [("subscription", subscription), ("message-id", NatToString(messageId)), ("destination", destination)]
  }

  lemma MessageLayout(subscription: string, destination: string, messageId: nat, body: string)
    ensures "MESSAGE\n" + ("subscription:" + subscription + "\n") + "message-id:" + NatToString(messageId) + "\n"
              + "destination:" + destination + "\n" + "\n" + body + "\n" + "\0"
         == FormatFrame("MESSAGE", MessageHeaders(subscription, destination, messageId), body + "\n\0")
  {
    var hs := MessageHeaders(subscription, destination, messageId);
    var id := NatToString(messageId);
    var l1 := "subscription:" + subscription;
    var l2 := "message-id:" + id;
    var l3 := "destination:" + destination;
    var c, n, z := "MESSAGE", "\n", "\0";
    assert c + n == "MESSAGE\n" && n + z == "\n\0";
    var x := c + n + (l1 + n);
    calc {
      FormatFrame("MESSAGE", hs, body + "\n\0");
      c + n + FrameTail(hs, body + (n + z));
      { MessageTail(subscription, destination, messageId, body + (n + z)); }
      c + n + (l1 + n + (l2 + n + (l3 + n + (n + (body + (n + z))))));
      { Flatten(c, n, l1, l2, l3, body, z); }
      x + l2 + n + l3 + n + n + body + n + z;
      { AppendAssoc(x, "message-id:", id); AppendAssoc(x + l2 + n, "destination:", destination); }
      x + "message-id:" + id + n + "destination:" + destination + n + n + body + n + z;
    }
  }

  lemma MessageTail(subscription: string, destination: string, messageId: nat, d: string)
    ensures FrameTail(MessageHeaders(subscription, destination, messageId), d)
         == ("subscription:" + subscription) + "\n" + (("message-id:" + NatToString(messageId)) + "\n"
              + (("destination:" + destination) + "\n" + ("\n" + d)))
  {
    var hs := MessageHeaders(subscription, destination, messageId);
    assert hs[1..][1..][1..] == [];
    assert HeaderLine(hs[0]) == "subscription:" + subscription;
    assert HeaderLine(hs[1..][0]) == "message-id:" + NatToString(messageId);
    assert HeaderLine(hs[1..][1..][0]) == "destination:" + destination;
    assert FrameTail(hs[1..][1..], d) == HeaderLine(hs[1..][1..][0]) + "\n" + ("\n" + d);
    assert FrameTail(hs[1..], d) == HeaderLine(hs[1..][0]) + "\n" + FrameTail(hs[1..][1..], d);
  }

  /** Regrouping the concatenation of a three-header frame with text `b`
      followed by `z` as its body. */
  lemma Flatten(c: string, n: string, l1: string, l2: string, l3: string, b: string, z: string)
    ensures c + n + (l1 + n + (l2 + n + (l3 + n + (n + (b + (n + z))))))
         == c + n + (l1 + n) + l2 + n + l3 + n + n + b + n + z
  {
  }

  lemma LineShift(x: string, line: string, rest: string)
    ensures x + ((line + "\n") + rest) == ((x + line) + "\n") + rest
  {
    AppendAssoc(x, line + "\n", rest);
    AppendAssoc(x, line, "\n");
  }

  /** What failed login attempts report. */
  function FailureMessage(status: LoginStatus): string {
    match status
    case WrongPassword => "Wrong password"
    case AlreadyLoggedIn => "User already logged in"
    case ClientAlreadyConnected => "Client already connected"
    case _ => "Login failed"
  }

  // ---- Helpers shared by the commands ----

  /** `sendReceiptIfNeeded`: a RECEIPT echoing the `receipt` header, to this
      connection only, exactly when the request carried one. */
  function ReceiptIfNeeded(r: Registry, c: ConnectionId, headers: Headers): (r': Registry)
    ensures Outbox(r', c) == Outbox(r, c)
              + (if "receipt" in headers && c in r.handlers then [ReceiptFrame(headers["receipt"])] else [])
    ensures forall c' :: c' != c ==> Outbox(r', c') == Outbox(r, c')
    ensures r'.handlers == r.handlers
    ensures r'.channelSubscribers == r.channelSubscribers
    ensures r'.clientSubscriptions == r.clientSubscriptions
  {
    if "receipt" in headers then Send(r, c, ReceiptFrame(headers["receipt"])).0 else r
  }

  /** `sendError`: an ERROR frame to this connection, then the session is
      marked for termination and the connection leaves the registry. */
  function SendError(s: Session, r: Registry, headers: Headers, message: string, description: string): (st: Step)
    ensures st.session == s.(shouldTerminate := true) && st.calls == []
    ensures Outbox(st.registry, s.connectionId) == Outbox(r, s.connectionId)
              + (if s.connectionId in r.handlers then [ErrorFrame(headers, message, description)] else [])
    ensures forall c' :: c' != s.connectionId ==> Outbox(st.registry, c') == Outbox(r, c')
    ensures s.connectionId !in st.registry.handlers
    ensures forall ch :: ch in ChannelsOf(r, s.connectionId) ==> !IsSubscribed(st.registry, ch, s.connectionId)
    ensures forall c' :: c' != s.connectionId ==> (c' in st.registry.handlers <==> c' in r.handlers)
    ensures forall id :: Rev(st.registry, s.connectionId, id).None?
    ensures forall ch :: ch !in ChannelsOf(r, s.connectionId) ==> Fwd(st.registry, ch, s.connectionId) == Fwd(r, ch, s.connectionId)
    ensures forall ch, c' :: c' != s.connectionId ==> Fwd(st.registry, ch, c') == Fwd(r, ch, c')
    ensures forall c', id :: c' != s.connectionId ==> Rev(st.registry, c', id) == Rev(r, c', id)
  {
    var c := s.connectionId;
    var sent := Send(r, c, ErrorFrame(headers, message, description)).0;
    Step(s.(shouldTerminate := true), Disconnect(sent, c), [])
  }

  // ---- The commands ----

  predicate VersionAccepted(headers: Headers) {
    "accept-version" in headers && headers["accept-version"] == SupportedVersion
  }

  predicate HasCredentials(headers: Headers) {
    "login" in headers && "passcode" in headers
  }

  /** `handleConnect`: version first, then credentials, and only then the
      authentication service; an accepted login records the user and answers
      CONNECTED to this connection alone. */
  function HandleConnect(s: Session, r: Registry, headers: Headers, status: LoginStatus): (st: Step)
    ensures !VersionAccepted(headers) ==>
              st == SendError(s, r, headers, "Malformed Frame", "Supported version is 1.2")
    ensures VersionAccepted(headers) && !HasCredentials(headers) ==>
              st == SendError(s, r, headers, "Malformed Frame", "Missing login or passcode header")
    ensures st.calls != [] <==> VersionAccepted(headers) && HasCredentials(headers)
    ensures st.calls != [] ==>
              st.calls == [Login(s.connectionId, headers["login"], headers["passcode"])]
    ensures st.calls != [] && status.Accepted() ==>
              && st.session == s.(currentUser := Some(headers["login"]))
              && Outbox(st.registry, s.connectionId) == Outbox(r, s.connectionId)
                   + (if s.connectionId in r.handlers then [ConnectedFrame()] else [])
              && (forall c' :: c' != s.connectionId ==> Outbox(st.registry, c') == Outbox(r, c'))
              && st.registry.handlers == r.handlers
              && st.registry.channelSubscribers == r.channelSubscribers
              && st.registry.clientSubscriptions == r.clientSubscriptions
    ensures st.calls != [] && !status.Accepted() ==>
              var failed := SendError(s, r, headers, "Login Failed", FailureMessage(status));
              st.session == failed.session && st.registry == failed.registry
  {
    if !VersionAccepted(headers) then
      SendError(s, r, headers, "Malformed Frame", "Supported version is 1.2")
    else if !HasCredentials(headers) then
      SendError(s, r, headers, "Malformed Frame", "Missing login or passcode header")
    else
      var login := headers["login"];
      var call := Login(s.connectionId, login, headers["passcode"]);
      if status.Accepted() then
        Step(s.(currentUser := Some(login)), Send(r, s.connectionId, ConnectedFrame()).0, [call])
      else
        var failed := SendError(s, r, headers, "Login Failed", FailureMessage(status));
        failed.(calls := [call])
  }

  /** `handleSubscribe`: needs `destination` and `id`, not a login. */
  function HandleSubscribe(s: Session, r: Registry, headers: Headers): (st: Step)
    ensures !("destination" in headers && "id" in headers) ==>
              st == SendError(s, r, headers, "Malformed Frame", "Missing destination or id header")
    ensures "destination" in headers && "id" in headers ==>
              var c := s.connectionId;
              && st.session == s && st.calls == []
              && Fwd(st.registry, headers["destination"], c) == Some(headers["id"])
              && Rev(st.registry, c, headers["id"]) == Some(headers["destination"])
              && (forall ch, c' :: (ch, c') != (headers["destination"], c) ==> Fwd(st.registry, ch, c') == Fwd(r, ch, c'))
              && (forall c', id :: (c', id) != (c, headers["id"]) ==> Rev(st.registry, c', id) == Rev(r, c', id))
              && st.registry.handlers == r.handlers
              && Outbox(st.registry, c) == Outbox(r, c)
                   + (if "receipt" in headers && c in r.handlers then [ReceiptFrame(headers["receipt"])] else [])
              && (forall c' :: c' != c ==> Outbox(st.registry, c') == Outbox(r, c'))
  {
    if "destination" in headers && "id" in headers then
      var c := s.connectionId;
      Step(s, ReceiptIfNeeded(Subscribe(r, headers["destination"], c, headers["id"]), c, headers), [])
    else
      SendError(s, r, headers, "Malformed Frame", "Missing destination or id header")
  }

  /** `handleUnsubscribe`: needs `id`, not a login. */
  function HandleUnsubscribe(s: Session, r: Registry, headers: Headers): (st: Step)
    ensures "id" !in headers ==> st == SendError(s, r, headers, "Malformed Frame", "Missing id header")
    ensures "id" in headers ==>
              var c := s.connectionId;
              && st.session == s && st.calls == []
              && Rev(st.registry, c, headers["id"]).None?
              && (Rev(r, c, headers["id"]).Some? ==> !IsSubscribed(st.registry, Rev(r, c, headers["id"]).value, c))
              && (forall ch :: (Rev(r, c, headers["id"]).None? || ch != Rev(r, c, headers["id"]).value)
                    ==> Fwd(st.registry, ch, c) == Fwd(r, ch, c))
              && (forall ch, c' :: c' != c ==> Fwd(st.registry, ch, c') == Fwd(r, ch, c'))
              && (forall c', id :: (c', id) != (c, headers["id"]) ==> Rev(st.registry, c', id) == Rev(r, c', id))
              && st.registry.handlers == r.handlers
              && Outbox(st.registry, c) == Outbox(r, c)
                   + (if "receipt" in headers && c in r.handlers then [ReceiptFrame(headers["receipt"])] else [])
              && (forall c' :: c' != c ==> Outbox(st.registry, c') == Outbox(r, c'))
  {
    if "id" in headers then
      var c := s.connectionId;
      Step(s, ReceiptIfNeeded(Unsubscribe(r, headers["id"], c), c, headers), [])
    else
      SendError(s, r, headers, "Malformed Frame", "Missing id header")
  }

  /** `handleSend`: destination, then login, then subscription are checked in
      that order; only a frame passing all three is broadcast, and every
      subscriber of the destination gets its own copy. */
  function HandleSend(s: Session, r: Registry, headers: Headers, body: string, now: nat): (st: Step)
    ensures "destination" !in headers ==>
              st == SendError(s, r, headers, "Malformed Frame", "Missing destination header")
    ensures "destination" in headers && s.currentUser.None? ==>
              st == SendError(s, r, headers, "Unauthorized", "You must log in first")
    ensures "destination" in headers && s.currentUser.Some? && !IsSubscribed(r, headers["destination"], s.connectionId) ==>
              st == SendError(s, r, headers, "Unauthorized",
                              "User is not subscribed to topic " + headers["destination"])
    ensures "destination" in headers && s.currentUser.Some? && IsSubscribed(r, headers["destination"], s.connectionId) ==>
              var dest := headers["destination"];
              && st.session == s && st.calls == []
              && st.registry.handlers == r.handlers
              && st.registry.channelSubscribers == r.channelSubscribers
              && st.registry.clientSubscriptions == r.clientSubscriptions
              && forall c' :: Outbox(st.registry, c') == Outbox(r, c')
                   + (if IsSubscribed(r, dest, c') && c' in r.handlers
                      then [Personalize(MessageFrame(dest, now, body), Fwd(r, dest, c').value)] else [])
                   + (if c' == s.connectionId && "receipt" in headers && c' in r.handlers
                      then [ReceiptFrame(headers["receipt"])] else [])
  {
    if "destination" !in headers then
      SendError(s, r, headers, "Malformed Frame", "Missing destination header")
    else
      var dest := headers["destination"];
      if s.currentUser.None? then
        SendError(s, r, headers, "Unauthorized", "You must log in first")
      else if !IsSubscribed(r, dest, s.connectionId) then
        SendError(s, r, headers, "Unauthorized", "User is not subscribed to topic " + dest)
      else
        var sent := Broadcast(r, dest, MessageFrame(dest, now, body));
        Step(s, ReceiptIfNeeded(sent, s.connectionId, headers), [])
  }

  /** `handleDisconnect`: logs the user out, sends the receipt, and only then
      marks the session for termination and leaves the registry. */
  function HandleDisconnect(s: Session, r: Registry, headers: Headers): (st: Step)
    ensures st.calls == [Logout(s.connectionId)]
    ensures st.session == s.(shouldTerminate := true)
    ensures Outbox(st.registry, s.connectionId) == Outbox(r, s.connectionId)
              + (if "receipt" in headers && s.connectionId in r.handlers
                 then [ReceiptFrame(headers["receipt"])] else [])
    ensures forall c' :: c' != s.connectionId ==> Outbox(st.registry, c') == Outbox(r, c')
    ensures s.connectionId !in st.registry.handlers
    ensures forall ch :: ch in ChannelsOf(r, s.connectionId) ==> !IsSubscribed(st.registry, ch, s.connectionId)
    ensures forall c' :: c' != s.connectionId ==> (c' in st.registry.handlers <==> c' in r.handlers)
    ensures forall id :: Rev(st.registry, s.connectionId, id).None?
    ensures forall ch :: ch !in ChannelsOf(r, s.connectionId) ==> Fwd(st.registry, ch, s.connectionId) == Fwd(r, ch, s.connectionId)
    ensures forall ch, c' :: c' != s.connectionId ==> Fwd(st.registry, ch, c') == Fwd(r, ch, c')
    ensures forall c', id :: c' != s.connectionId ==> Rev(st.registry, c', id) == Rev(r, c', id)
  {
    var c := s.connectionId;
    Step(s.(shouldTerminate := true), Disconnect(ReceiptIfNeeded(r, c, headers), c), [Logout(c)])
  }

  predicate KnownCommand(command: string) {
    command in {"CONNECT", "SUBSCRIBE", "UNSUBSCRIBE", "SEND", "DISCONNECT"}
  }

  /** `process`: a frame `split` leaves no line of is ignored; otherwise the
      trimmed first line selects the handler, and an unknown command is an
      error. A terminated session stays terminated, only CONNECT and
      DISCONNECT call the authentication service, and only SEND reaches other
      connections. */
  function Process(s: Session, r: Registry, message: string, status: LoginStatus, now: nat): (st: Step)
    ensures st.session.connectionId == s.connectionId
    ensures s.shouldTerminate ==> st.session.shouldTerminate
    ensures CommandLine(message).None? ==> st == Step(s, r, [])
    ensures st.calls != [] ==> CommandLine(message) == Some("CONNECT") || CommandLine(message) == Some("DISCONNECT")
  {
    match CommandLine(message)
    case None => Step(s, r, [])
    case Some(command) => Dispatch(s, r, command, ParseHeaders(message), ExtractBody(message), status, now)
  }

  /** The `switch` on the command. */
  function Dispatch(s: Session, r: Registry, command: string, headers: Headers, body: string,
                    status: LoginStatus, now: nat): (st: Step)
    ensures st.session.connectionId == s.connectionId
    ensures s.shouldTerminate ==> st.session.shouldTerminate
    ensures st.calls != [] ==> command == "CONNECT" || command == "DISCONNECT"
  {
    if command == "CONNECT" then HandleConnect(s, r, headers, status)
    else if command == "SUBSCRIBE" then HandleSubscribe(s, r, headers)
    else if command == "UNSUBSCRIBE" then HandleUnsubscribe(s, r, headers)
    else if command == "SEND" then HandleSend(s, r, headers, body, now)
    else if command == "DISCONNECT" then HandleDisconnect(s, r, headers)
    else SendError(s, r, headers, "Unknown Command", "The command " + command + " is not recognized.")
  }

  /** `shouldTerminate`. */
  function ShouldTerminate(s: Session): bool {
    s.shouldTerminate
  }

  /** A step that ends the session takes its connection, and no other, out
      of the registry; a step that does not end it leaves the set of
      connections alone. */
  ghost predicate TerminationFrame(s: Session, r: Registry, st: Step) {
    && (ShouldTerminate(st.session) ==> s.connectionId !in st.registry.handlers)
    && (ShouldTerminate(st.session) ==>
          forall c' :: c' != s.connectionId ==> (c' in st.registry.handlers <==> c' in r.handlers))
    && (!ShouldTerminate(st.session) ==> st.registry.handlers == r.handlers)
  }

  /** A frame makes a live session terminate only together with taking its
      connection, and no other, out of the registry. */
  lemma TerminationDisconnects(s: Session, r: Registry, message: string, status: LoginStatus, now: nat)
    requires !ShouldTerminate(s)
    ensures TerminationFrame(s, r, Process(s, r, message, status, now))
  {
    match CommandLine(message)
    case None =>
    case Some(command) =>
      var headers := ParseHeaders(message);
      DispatchTerminates(s, r, command, headers, ExtractBody(message), status, now);
  }

  lemma DispatchTerminates(s: Session, r: Registry, command: string, headers: Headers, body: string,
                           status: LoginStatus, now: nat)
    requires !ShouldTerminate(s)
    ensures TerminationFrame(s, r, Dispatch(s, r, command, headers, body, status, now))
  {
    if command == "CONNECT" {
      ConnectTerminates(s, r, headers, status);
    } else if command == "SUBSCRIBE" {
      SubscribeTerminates(s, r, headers);
    } else if command == "UNSUBSCRIBE" {
      UnsubscribeTerminates(s, r, headers);
    } else if command == "SEND" {
      SendTerminates(s, r, headers, body, now);
    } else if command == "DISCONNECT" {
      DisconnectTerminates(s, r, headers);
    } else {
      ErrorTerminates(s, r, headers, "Unknown Command", "The command " + command + " is not recognized.");
    }
  }

  lemma ErrorTerminates(s: Session, r: Registry, headers: Headers, message: string, description: string)
    ensures TerminationFrame(s, r, SendError(s, r, headers, message, description))
  {
  }

  lemma ConnectTerminates(s: Session, r: Registry, headers: Headers, status: LoginStatus)
    requires !ShouldTerminate(s)
    ensures TerminationFrame(s, r, HandleConnect(s, r, headers, status))
  {
  }

  lemma SubscribeTerminates(s: Session, r: Registry, headers: Headers)
    requires !ShouldTerminate(s)
    ensures TerminationFrame(s, r, HandleSubscribe(s, r, headers))
  {
  }

  lemma UnsubscribeTerminates(s: Session, r: Registry, headers: Headers)
    requires !ShouldTerminate(s)
    ensures TerminationFrame(s, r, HandleUnsubscribe(s, r, headers))
  {
  }

  lemma SendTerminates(s: Session, r: Registry, headers: Headers, body: string, now: nat)
    requires !ShouldTerminate(s)
    ensures TerminationFrame(s, r, HandleSend(s, r, headers, body, now))
  {
  }

  lemma DisconnectTerminates(s: Session, r: Registry, headers: Headers)
    ensures TerminationFrame(s, r, HandleDisconnect(s, r, headers))
  {
  }

  // ---- Reading the replies back ----

  /** Small header lists collect into the evident maps. */
  lemma CollectPairs<V>(a: (string, V), b: (string, V), c: (string, V))
    ensures Collect([a]) == map[a.0 := a.1]
    ensures Collect([a, b]) == map[a.0 := a.1][b.0 := b.1]
    ensures Collect([a, b, c]) == map[a.0 := a.1][b.0 := b.1][c.0 := c.1]
  {
    assert [a][..0] == [];
    assert [a, b][..1] == [a];
    assert [a, b, c][..2] == [a, b];
  }

  /** Small lists of clean headers are clean. */
  lemma CleanPairs(a: (string, string), b: (string, string), c: (string, string))
    requires CleanHeader(a) && CleanHeader(b) && CleanHeader(c)
    ensures AllClean([a]) && AllClean([a, b]) && AllClean([a, b, c])
  {
    assert [a][1..] == [];
    assert [a, b][1..] == [b];
    assert [a, b, c][1..] == [b, c];
    assert AllClean([b, c]) by {
      assert [b, c][1..] == [c];
      assert [c][1..] == [];
    }
  }

  /** The text a receipt id or message may carry without being altered by
      the reader: no newline, and nothing trimmable at either end. */
  predicate CleanValue(v: string) {
    '\n' !in v && Trim(v) == v
  }

  /** A command or header name the reader keeps as it is: no newline, no
      colon, and nothing trimmable at either end. */
  predicate Name(w: string) {
    w != [] && !IsTrimmable(w[0]) && !IsTrimmable(w[|w| - 1]) && ':' !in w && '\n' !in w
  }

  lemma CommandNames()
    ensures Name("CONNECT") && Name("CONNECTED") && Name("SUBSCRIBE") && Name("UNSUBSCRIBE")
    ensures Name("SEND") && Name("DISCONNECT") && Name("MESSAGE") && Name("RECEIPT") && Name("ERROR")
  {
    ClientCommandNames();
    ServerCommandNames();
  }

  lemma ClientCommandNames()
    ensures Name("CONNECT") && Name("SUBSCRIBE") && Name("UNSUBSCRIBE") && Name("SEND") && Name("DISCONNECT")
  {
  }

  lemma ServerCommandNames()
    ensures Name("CONNECTED") && Name("MESSAGE") && Name("RECEIPT") && Name("ERROR")
  {
  }

  lemma HeaderNames()
    ensures Name("accept-version") && Name("login") && Name("passcode") && Name("version")
    ensures Name("destination") && Name("id") && Name("receipt") && Name("receipt-id") && Name("message")
  {
    ConnectHeaderNames();
    ReplyHeaderNames();
  }

  lemma ConnectHeaderNames()
    ensures Name("accept-version") && Name("login") && Name("passcode") && Name("version")
  {
  }

  lemma ReplyHeaderNames()
    ensures Name("destination") && Name("id") && Name("receipt") && Name("receipt-id") && Name("message")
  {
  }

  lemma NameClean(w: string)
    requires Name(w)
    ensures Trim(w) == w && '\n' !in w && ':' !in w && w != []
  {
    TrimClean(w);
  }

  /** A header whose key is a name and whose value is clean. */
  lemma KeyClean(key: string, value: string)
    requires Name(key) && CleanValue(value)
    ensures CleanHeader((key, value))
  {
    NameClean(key);
  }

  lemma ErrorHeadersClean(headers: Headers, message: string)
    requires CleanValue(message)
    requires "receipt" in headers ==> CleanValue(headers["receipt"])
    ensures AllClean(ErrorHeaders(headers, message))
  {
    CommandNames();
    HeaderNames();
    var hs := ErrorHeaders(headers, message);
    KeyClean("message", message);
    if "receipt" in headers {
      KeyClean("receipt-id", headers["receipt"]);
      CleanPairs(hs[0], hs[1], hs[1]);
      assert hs == [hs[0], hs[1]];
    } else {
      CleanPairs(hs[0], hs[0], hs[0]);
      assert hs == [hs[0]];
    }
  }

  lemma ErrorFrameReadsBack(headers: Headers, message: string, description: string)
    requires CleanValue(message)
    requires "receipt" in headers ==> CleanValue(headers["receipt"])
    ensures var f := ErrorFrame(headers, message, description);
      && CommandLine(f) == Some("ERROR")
      && ParseHeaders(f) == (if "receipt" in headers
                             then map["message" := message, "receipt-id" := headers["receipt"]]
                             else map["message" := message])
      && ExtractBody(f) == description + "\n\0"
  {
    CommandNames();
    HeaderNames();
    var hs := ErrorHeaders(headers, message);
    var d := description + "\n\0";
    NameClean("ERROR");
    ErrorHeadersClean(headers, message);
    if "receipt" in headers {
      assert hs == [hs[0], hs[1]];
      CollectPairs(hs[0], hs[1], hs[1]);
    } else {
      assert hs == [hs[0]];
      CollectPairs(hs[0], hs[0], hs[0]);
    }
    ParseFormattedCommand("ERROR", hs, d);
    ParseFormattedHeaders("ERROR", hs, d);
    ParseFormattedBody("ERROR", hs, d);
  }

  lemma ReceiptFrameReadsBack(receipt: string)
    requires CleanValue(receipt)
    ensures var f := ReceiptFrame(receipt);
      && CommandLine(f) == Some("RECEIPT")
      && ParseHeaders(f) == map["receipt-id" := receipt]
      && ExtractBody(f) == "\0"
  {
    CommandNames();
    HeaderNames();
    var hs := [("receipt-id", receipt)];
    NameClean("RECEIPT");
    KeyClean("receipt-id", receipt);
    CleanPairs(hs[0], hs[0], hs[0]);
    CollectPairs(hs[0], hs[0], hs[0]);
    ParseFormattedCommand("RECEIPT", hs, "\0");
    ParseFormattedHeaders("RECEIPT", hs, "\0");
    ParseFormattedBody("RECEIPT", hs, "\0");
  }

  lemma ConnectedFrameReadsBack()
    ensures var f := ConnectedFrame();
      && CommandLine(f) == Some("CONNECTED")
      && ParseHeaders(f) == map["version" := SupportedVersion]
      && ExtractBody(f) == "\0"
  {
    CommandNames();
    HeaderNames();
    var hs := [("version", SupportedVersion)];
    NameClean("CONNECTED");
    TrimClean(SupportedVersion);
    KeyClean("version", SupportedVersion);
    CleanPairs(hs[0], hs[0], hs[0]);
    CollectPairs(hs[0], hs[0], hs[0]);
    ParseFormattedCommand("CONNECTED", hs, "\0");
    ParseFormattedHeaders("CONNECTED", hs, "\0");
    ParseFormattedBody("CONNECTED", hs, "\0");
  }

  // ---- The per-recipient copy of a MESSAGE ----

  /** The part of a MESSAGE frame after its `subscription` value. */
  function MessageRest(destination: string, messageId: nat, body: string): string {
    "\n" + FrameTail([("message-id", NatToString(messageId)), ("destination", destination)], body)
  }

  lemma MessageSplit(subscription: string, destination: string, messageId: nat, body: string)
    ensures FormatFrame("MESSAGE", MessageHeaders(subscription, destination, messageId), body)
         == ("MESSAGE\n" + "subscription:") + (subscription + MessageRest(destination, messageId, body))
  {
    var hs := MessageHeaders(subscription, destination, messageId);
    var t := FrameTail(hs[1..], body);
    assert hs[1..] == [("message-id", NatToString(messageId)), ("destination", destination)];
    var p := "MESSAGE\n" + "subscription:";
    calc {
      FormatFrame("MESSAGE", hs, body);
      "MESSAGE\n" + ((("subscription" + ":") + subscription) + "\n" + t);
      { AppendAssoc("subscription:" + subscription, "\n", t); }
      "MESSAGE\n" + (("subscription:" + subscription) + ("\n" + t));
      { AppendAssoc("subscription:", subscription, "\n" + t); }
      "MESSAGE\n" + ("subscription:" + (subscription + ("\n" + t)));
      { AppendAssoc("MESSAGE\n", "subscription:", subscription + ("\n" + t)); }
      p + (subscription + ("\n" + t));
    }
  }

  /** The copy a subscriber receives names its own subscription id where
      the broadcast frame has `0`; the rest of the frame is untouched. */
  lemma PersonalizedMessage(destination: string, messageId: nat, body: string, id: SubscriptionId)
    ensures Personalize(MessageFrame(destination, messageId, body), id)
         == FormatFrame("MESSAGE", MessageHeaders(id, destination, messageId), body + "\n\0")
  {
    var d := body + "\n\0";
    var rest := MessageRest(destination, messageId, d);
    var p := "MESSAGE\n" + "subscription:";
    MessageSplit("0", destination, messageId, d);
    MessageSplit(id, destination, messageId, d);
    ReplaceSubscription(rest, id);
    AppendAssoc(p, id, rest);
  }

  /** In a MESSAGE frame whose first header is `subscription:0`, the first
      `subscription:0` is that header. */
  lemma ReplaceSubscription(rest: string, id: SubscriptionId)
    ensures ReplaceFirst(("MESSAGE\n" + "subscription:") + ("0" + rest), "subscription:0", "subscription:" + id)
         == (("MESSAGE\n" + "subscription:") + id) + rest
  {
    var p := "MESSAGE\n" + "subscription:";
    var f := p + ("0" + rest);
    var pat := "subscription:0";
    SubscriptionZeroAt(rest);
    assert f[..8] == "MESSAGE\n";
    assert f[22..] == rest;
    ReplaceAt(f, pat, "subscription:" + id, 8);
    AppendAssoc("MESSAGE\n", "subscription:", id);
  }

  lemma SubscriptionZeroAt(rest: string)
    ensures var f := ("MESSAGE\n" + "subscription:") + ("0" + rest);
      OccursAt(f, "subscription:0", 8) && forall j: nat :: j < 8 ==> !OccursAt(f, "subscription:0", j)
  {
    var p := "MESSAGE\n" + "subscription:";
    var u := "0" + rest;
    var f := p + u;
    var pat := "subscription:0";
    assert f[8..22] == pat by {
      forall k | 0 <= k < 14 ensures f[8 + k] == pat[k] {
        if k < 13 {
          assert f[8 + k] == p[8 + k];
        } else {
          assert f[21] == u[0];
        }
      }
    }
    forall j: nat | j < 8 ensures !OccursAt(f, pat, j) {
      assert f[j] == p[j];
      if j + 14 <= |f| {
        assert f[j..j + 14][0] == f[j];
      }
    }
  }

  // ---- Whole frames through `process` ----

  /** A well-formed frame is handled by its own command, with its headers
      and body read back exactly. */
  lemma ProcessFormatted(s: Session, r: Registry, command: string, hs: seq<(string, string)>, body: string,
                         status: LoginStatus, now: nat)
    requires Name(command)
    requires AllClean(hs)
    ensures Process(s, r, FormatFrame(command, hs, body), status, now)
         == Dispatch(s, r, command, Collect(hs), body, status, now)
  {
    NameClean(command);
    ParseFormattedCommand(command, hs, body);
    ParseFormattedHeaders(command, hs, body);
    ParseFormattedBody(command, hs, body);
  }

  /** The headers of a CONNECT frame. */
  function ConnectHeaders(login: string, passcode: string): seq<(string, string)> {
    [("accept-version", SupportedVersion), ("login", login), ("passcode", passcode)]
  }

  lemma ConnectHeadersRead(login: string, passcode: string)
    requires CleanValue(login) && CleanValue(passcode)
    ensures AllClean(ConnectHeaders(login, passcode))
    ensures var headers := Collect(ConnectHeaders(login, passcode));
      VersionAccepted(headers) && HasCredentials(headers)
      && headers["login"] == login && headers["passcode"] == passcode
  {
    HeaderNames();
    var hs := ConnectHeaders(login, passcode);
    TrimClean(SupportedVersion);
    KeyClean("accept-version", SupportedVersion);
    KeyClean("login", login);
    KeyClean("passcode", passcode);
    CleanPairs(hs[0], hs[1], hs[2]);
    CollectPairs(hs[0], hs[1], hs[2]);
  }

  /** A CONNECT with the supported version and credentials that the
      authentication service accepts logs the user in and is answered by
      CONNECTED. */
  lemma ConnectAccepted(s: Session, r: Registry, login: string, passcode: string, status: LoginStatus, now: nat)
    requires CleanValue(login) && CleanValue(passcode)
    requires status.Accepted()
    ensures var st := Process(s, r, FormatFrame("CONNECT", ConnectHeaders(login, passcode), ""), status, now);
      && st.calls == [Login(s.connectionId, login, passcode)]
      && st.session == s.(currentUser := Some(login))
      && Outbox(st.registry, s.connectionId)
         == Outbox(r, s.connectionId) + (if s.connectionId in r.handlers then [ConnectedFrame()] else [])
  {
    CommandNames();
    ConnectHeadersRead(login, passcode);
    ProcessFormatted(s, r, "CONNECT", ConnectHeaders(login, passcode), "", status, now);
  }

  function SubscribeHeaders(destination: string, id: SubscriptionId): seq<(string, string)> {
    [("destination", destination), ("id", id)]
  }

  lemma SubscribeHeadersRead(destination: string, id: SubscriptionId)
    requires CleanValue(destination) && CleanValue(id)
    ensures AllClean(SubscribeHeaders(destination, id))
    ensures Collect(SubscribeHeaders(destination, id)) == map["destination" := destination, "id" := id]
  {
    HeaderNames();
    var hs := SubscribeHeaders(destination, id);
    KeyClean("destination", destination);
    KeyClean("id", id);
    CleanPairs(hs[0], hs[1], hs[1]);
    CollectPairs(hs[0], hs[1], hs[1]);
  }

  /** A SUBSCRIBE without a receipt request binds the id to the destination
      in both registry maps and answers nothing, logged in or not. */
  lemma SubscribeFrame(s: Session, r: Registry, destination: string, id: SubscriptionId,
                       status: LoginStatus, now: nat)
    requires CleanValue(destination) && CleanValue(id)
    ensures var st := Process(s, r, FormatFrame("SUBSCRIBE", SubscribeHeaders(destination, id), ""), status, now);
      && st.session == s && st.calls == []
      && Fwd(st.registry, destination, s.connectionId) == Some(id)
      && Rev(st.registry, s.connectionId, id) == Some(destination)
      && st.registry.handlers == r.handlers
      && forall c' :: Outbox(st.registry, c') == Outbox(r, c')
  {
    SubscribeDispatched(s, r, destination, id, status, now);
    SubscribeMap(destination, id);
  }

  lemma SubscribeMap(destination: string, id: SubscriptionId)
    ensures var h := map["destination" := destination, "id" := id];
      && "destination" in h && "id" in h && h["destination"] == destination && h["id"] == id
      && "receipt" !in h
  {
  }

  lemma SubscribeDispatched(s: Session, r: Registry, destination: string, id: SubscriptionId,
                            status: LoginStatus, now: nat)
    requires CleanValue(destination) && CleanValue(id)
    ensures Process(s, r, FormatFrame("SUBSCRIBE", SubscribeHeaders(destination, id), ""), status, now)
         == HandleSubscribe(s, r, map["destination" := destination, "id" := id])
  {
    CommandNames();
    SubscribeHeadersRead(destination, id);
    ProcessFormatted(s, r, "SUBSCRIBE", SubscribeHeaders(destination, id), "", status, now);
  }

  function SendHeaders(destination: string): seq<(string, string)> {
    [("destination", destination)]
  }

  lemma SendHeadersRead(destination: string)
    requires CleanValue(destination)
    ensures AllClean(SendHeaders(destination))
    ensures Collect(SendHeaders(destination)) == map["destination" := destination]
  {
    HeaderNames();
    var hs := SendHeaders(destination);
    KeyClean("destination", destination);
    CleanPairs(hs[0], hs[0], hs[0]);
    CollectPairs(hs[0], hs[0], hs[0]);
  }

  /** A SEND from a logged-in subscriber, without a receipt request, hands
      every subscriber of the destination its own copy of the MESSAGE, the
      sender included. */
  lemma SendFrame(s: Session, r: Registry, destination: string, body: string, status: LoginStatus, now: nat)
    requires CleanValue(destination)
    requires s.currentUser.Some? && IsSubscribed(r, destination, s.connectionId)
    ensures var st := Process(s, r, FormatFrame("SEND", SendHeaders(destination), body), status, now);
      && st.session == s && st.calls == []
      && forall c' :: Outbox(st.registry, c') == Outbox(r, c')
           + (if IsSubscribed(r, destination, c') && c' in r.handlers
              then [FormatFrame("MESSAGE", MessageHeaders(Fwd(r, destination, c').value, destination, now),
                                body + "\n\0")]
              else [])
  {
    SendDispatched(s, r, destination, body, status, now);
    var headers := map["destination" := destination];
    assert "receipt" !in headers;
    forall c' | IsSubscribed(r, destination, c') && c' in r.handlers {
      PersonalizedMessage(destination, now, body, Fwd(r, destination, c').value);
    }
  }

  lemma SendDispatched(s: Session, r: Registry, destination: string, body: string, status: LoginStatus, now: nat)
    requires CleanValue(destination)
    ensures Process(s, r, FormatFrame("SEND", SendHeaders(destination), body), status, now)
         == HandleSend(s, r, map["destination" := destination], body, now)
  {
    CommandNames();
    SendHeadersRead(destination);
    ProcessFormatted(s, r, "SEND", SendHeaders(destination), body, status, now);
  }

  /** The broker echoes a subscriber's own message back to it, under the
      subscription id it chose. */
  lemma SubscribeThenSend(s: Session, r: Registry, destination: string, id: SubscriptionId, body: string,
                          status: LoginStatus, now: nat)
    requires CleanValue(destination) && CleanValue(id)
    requires s.currentUser.Some? && s.connectionId in r.handlers
    ensures var st1 := Process(s, r, FormatFrame("SUBSCRIBE", SubscribeHeaders(destination, id), ""), status, now);
      var st2 := Process(st1.session, st1.registry, FormatFrame("SEND", SendHeaders(destination), body), status, now);
      && st2.session == s
      && Outbox(st2.registry, s.connectionId)
         == Outbox(r, s.connectionId) + [FormatFrame("MESSAGE", MessageHeaders(id, destination, now), body + "\n\0")]
  {
    var st1 := Process(s, r, FormatFrame("SUBSCRIBE", SubscribeHeaders(destination, id), ""), status, now);
    SubscribeFrame(s, r, destination, id, status, now);
    SendFrame(st1.session, st1.registry, destination, body, status, now);
  }

  function DisconnectHeaders(receipt: string): seq<(string, string)> {
    [("receipt", receipt)]
  }

  lemma DisconnectHeadersRead(receipt: string)
    requires CleanValue(receipt)
    ensures AllClean(DisconnectHeaders(receipt))
    ensures Collect(DisconnectHeaders(receipt)) == map["receipt" := receipt]
  {
    HeaderNames();
    var hs := DisconnectHeaders(receipt);
    KeyClean("receipt", receipt);
    CleanPairs(hs[0], hs[0], hs[0]);
    CollectPairs(hs[0], hs[0], hs[0]);
  }

  /** A DISCONNECT with a receipt request logs the user out, acknowledges
      with the matching RECEIPT before leaving the registry, and ends the
      session. */
  lemma DisconnectFrame(s: Session, r: Registry, receipt: string, status: LoginStatus, now: nat)
    requires CleanValue(receipt)
    requires s.connectionId in r.handlers
    ensures var st := Process(s, r, FormatFrame("DISCONNECT", DisconnectHeaders(receipt), ""), status, now);
      && st.calls == [Logout(s.connectionId)]
      && ShouldTerminate(st.session)
      && Outbox(st.registry, s.connectionId) == Outbox(r, s.connectionId) + [ReceiptFrame(receipt)]
      && s.connectionId !in st.registry.handlers
  {
    CommandNames();
    DisconnectHeadersRead(receipt);
    ProcessFormatted(s, r, "DISCONNECT", DisconnectHeaders(receipt), "", status, now);
  }

  /** A SEND before login is refused with an ERROR frame and the connection
      is closed; nothing is delivered. */
  lemma SendBeforeLogin(s: Session, r: Registry, destination: string, body: string, status: LoginStatus, now: nat)
    requires CleanValue(destination)
    requires s.currentUser.None?
    ensures var st := Process(s, r, FormatFrame("SEND", SendHeaders(destination), body), status, now);
      && ShouldTerminate(st.session) && st.calls == []
      && (forall c' :: c' != s.connectionId ==> Outbox(st.registry, c') == Outbox(r, c'))
      && Outbox(st.registry, s.connectionId) == Outbox(r, s.connectionId)
         + (if s.connectionId in r.handlers
            then [ErrorFrame(map["destination" := destination], "Unauthorized", "You must log in first")]
            else [])
  {
    SendDispatched(s, r, destination, body, status, now);
  }
}
