/**
 * The client and the broker talking to each other: the frames the client
 * writes are the ones the broker understands, and the broker's replies are
 * the ones the client acts on. Each lemma follows one exchange from a
 * keyboard command to the reply's effect on the client.
 */
module Conversation {
  import opened Wrappers
  import opened Text
  import opened Overwrite
  import opened Connections
  import ServerFrames
  import SP = ServerProtocol
  import CF = ClientFrames
  import CP = ClientProtocol

  // ---- Values both sides read alike ----

  /** A decimal number survives the broker's trimming and holds no NUL. */
  lemma NumberClean(i: int)
    ensures SP.CleanValue(CF.IntToString(i))
    ensures '\0' !in CF.IntToString(i)
  {
    var d := NatToString(if i < 0 then -i else i);
    var r := CF.IntToString(i);
    assert !ServerFrames.IsTrimmable(d[0]) && !ServerFrames.IsTrimmable(d[|d| - 1]);
    if i < 0 {
      assert r == "-" + d;
      assert r[|r| - 1] == d[|d| - 1];
    }
    ServerFrames.TrimClean(r);
    assert forall k :: 0 <= k < |r| ==> r[k] == '-' || IsDigit(r[k]);
  }

  lemma MoreNames()
    ensures SP.Name("subscription") && SP.Name("message-id")
  {
  }

  /** A name is read by the client as it was written. */
  lemma NameEnd(w: string)
    requires SP.Name(w)
    ensures w != [] && '\n' !in w && w[|w| - 1] != '\r'
  {
  }

  // ---- The wire ----

  /** What the broker's `encode` puts on the socket for one reply: the reply
      string and one more NUL. */
  function Wire(reply: string): (w: string)
    ensures |w| == |reply| + 1 && w[..|reply|] == reply && w[|reply|] == '\0'
  {
    reply + "\0"
  }

  /** Every reply string already ends in a NUL, so after the listener has
      read a reply, its next turn reads an empty frame, which the client
      passes over. */
  lemma EmptyFrameIgnored(c: CP.Client, m: string)
    requires '\0' !in m
    ensures var w := Wire(m + "\0");
      && CF.BeforeNul(w) == m
      && CF.Received(w[|m| + 1..]) == Some("")
      && CP.ProcessServerFrame(c, "") == Success(CP.Reaction(c, true, false))
  {
    var w := Wire(m + "\0");
    assert w == m + "\0" + "\0";
    CF.BeforeNulPrefix(m, "\0");
    assert w[|m| + 1..] == "\0";
    assert CF.BeforeNul("\0") == "";
    assert CF.Lines("") == [];
  }

  lemma WordsNulFree()
    ensures '\0' !in "RECEIPT" && '\0' !in "MESSAGE" && '\0' !in "receipt-id"
    ensures '\0' !in "subscription" && '\0' !in "message-id" && '\0' !in "destination"
  {
  }

  // ---- The broker's receipts reach the client ----

  /** The client's listener reads the receipt id back out of the broker's
      RECEIPT. */
  lemma ReceiptReadsBack(id: int)
    ensures var f := CF.Received(Wire(SP.ReceiptFrame(CF.IntToString(id))));
      && f.Some?
      && CF.CommandOf(f.value) == "RECEIPT"
      && CF.HeadersOf(f.value) == map["receipt-id" := CF.IntToString(id)]
  {
    SP.CommandNames();
    SP.HeaderNames();
    NameEnd("RECEIPT");
    WordsNulFree();
    var hs := [("receipt-id", CF.IntToString(id))];
    NumberClean(id);
    SP.KeyClean(hs[0].0, hs[0].1);
    SP.CleanPairs(hs[0], hs[0], hs[0]);
    SP.CollectPairs(hs[0], hs[0], hs[0]);
    assert ServerFrames.FreeOf(hs, '\0');
    CF.ReceivedBodiless("RECEIPT", hs, "\0");
    CF.ReadsBodiless("RECEIPT", hs);
  }

  /** A RECEIPT for an id in range is handled as that id. */
  lemma ReceiptHandled(c: CP.Client, id: int)
    requires CF.IntMin <= id <= CF.IntMax
    ensures var f := CF.Received(Wire(SP.ReceiptFrame(CF.IntToString(id))));
      && f.Some?
      && CP.ProcessServerFrame(c, f.value) == CP.HandleReceipt(c, map["receipt-id" := CF.IntToString(id)])
    ensures CF.Stoi(map["receipt-id" := CF.IntToString(id)]["receipt-id"]) == Some(id)
  {
    ReceiptReadsBack(id);
    CF.StoiIntToString(id);
  }

  // ---- Logout ----

  /** A logout goes all the way round: the broker logs the user out, answers
      with the receipt the client asked for and drops the connection; that
      receipt closes the client's socket and lets it terminate. */
  lemma LogoutRoundTrip(c: CP.Client, s: SP.Session, r: Registry, status: SP.LoginStatus, now: nat)
    requires CP.Valid(c) && c.isConnected && !c.isLogoutRequested
    requires c.receiptIdCounter <= CF.IntMax
    requires s.connectionId in r.handlers
    ensures var o := CP.Logout(c);
      var receipt := CF.IntToString(c.receiptIdCounter);
      && o.frame.Some?
      && var st := SP.Process(s, r, o.frame.value, status, now);
      && st.calls == [SP.Logout(s.connectionId)]
      && s.connectionId !in st.registry.handlers
      && Outbox(st.registry, s.connectionId) == Outbox(r, s.connectionId) + [SP.ReceiptFrame(receipt)]
      && var f := CF.Received(Wire(SP.ReceiptFrame(receipt)));
      && f.Some?
      && var back := CP.ProcessServerFrame(o.client, f.value);
      && back.Success? && back.value.closed && CP.ShouldTerminate(back.value.client)
  {
    var id := c.receiptIdCounter;
    var receipt := CF.IntToString(id);
    NumberClean(id);
    SP.DisconnectFrame(s, r, receipt, status, now);
    assert CF.DisconnectFrame(id) == ServerFrames.FormatFrame("DISCONNECT", SP.DisconnectHeaders(receipt), "");
    ReceiptHandled(CP.Logout(c).client, id);
  }

  // ---- Joining a game ----

  function JoinHeaders(game: CP.GameName, sub: int, receipt: int): seq<(string, string)> {
    [("destination", "/" + game), ("id", CF.IntToString(sub)), ("receipt", CF.IntToString(receipt))]
  }

  lemma JoinHeadersRead(game: CP.GameName, sub: int, receipt: int)
    requires SP.CleanValue("/" + game)
    ensures ServerFrames.AllClean(JoinHeaders(game, sub, receipt))
    ensures Collect(JoinHeaders(game, sub, receipt))
         == map["destination" := "/" + game, "id" := CF.IntToString(sub), "receipt" := CF.IntToString(receipt)]
  {
    SP.HeaderNames();
    var hs := JoinHeaders(game, sub, receipt);
    NumberClean(sub);
    NumberClean(receipt);
    SP.KeyClean(hs[0].0, hs[0].1);
    SP.KeyClean(hs[1].0, hs[1].1);
    SP.KeyClean(hs[2].0, hs[2].1);
    SP.CleanPairs(hs[0], hs[1], hs[2]);
    SP.CollectPairs(hs[0], hs[1], hs[2]);
  }

  /** The broker hands the client's SUBSCRIBE to its subscribe handler with
      the headers the client wrote. */
  lemma JoinDispatched(s: SP.Session, r: Registry, game: CP.GameName, sub: int, receipt: int,
                       status: SP.LoginStatus, now: nat)
    requires SP.CleanValue("/" + game)
    ensures SP.Process(s, r, CF.SubscribeFrame(game, sub, receipt), status, now)
         == SP.HandleSubscribe(s, r, map["destination" := "/" + game, "id" := CF.IntToString(sub),
                                         "receipt" := CF.IntToString(receipt)])
  {
    SP.CommandNames();
    JoinHeadersRead(game, sub, receipt);
    SP.ProcessFormatted(s, r, "SUBSCRIBE", JoinHeaders(game, sub, receipt), "", status, now);
  }

  /** Joining a game goes all the way round: the broker subscribes the
      connection to the game's destination under the client's id and
      acknowledges; the acknowledgement consumes the join's receipt action
      and changes nothing else on the client. */
  lemma JoinRoundTrip(c: CP.Client, s: SP.Session, r: Registry, game: CP.GameName,
                      status: SP.LoginStatus, now: nat)
    requires CP.Valid(c) && game !in c.activeSubscriptions
    requires c.subscriptionIdCounter <= CF.IntMax && c.receiptIdCounter <= CF.IntMax
    requires SP.CleanValue("/" + game)
    requires s.connectionId in r.handlers
    ensures var o := CP.JoinGame(c, game);
      var sub := CF.IntToString(c.subscriptionIdCounter);
      var receipt := CF.IntToString(c.receiptIdCounter);
      && o.frame.Some?
      && var st := SP.Process(s, r, o.frame.value, status, now);
      && st.session == s && st.calls == []
      && Fwd(st.registry, "/" + game, s.connectionId) == Some(sub)
      && Rev(st.registry, s.connectionId, sub) == Some("/" + game)
      && Outbox(st.registry, s.connectionId) == Outbox(r, s.connectionId) + [SP.ReceiptFrame(receipt)]
      && var f := CF.Received(Wire(SP.ReceiptFrame(receipt)));
      && f.Some?
      && CP.ProcessServerFrame(o.client, f.value)
         == Success(CP.Reaction(o.client.(receiptActions := c.receiptActions), true, false))
  {
    var o := CP.JoinGame(c, game);
    JoinServerSide(s, r, game, c.subscriptionIdCounter, c.receiptIdCounter, status, now);
    JoinAcknowledged(c, game);
  }

  /** The broker's side of a join. */
  lemma JoinServerSide(s: SP.Session, r: Registry, game: CP.GameName, sub: int, receipt: int,
                       status: SP.LoginStatus, now: nat)
    requires SP.CleanValue("/" + game)
    requires s.connectionId in r.handlers
    ensures var st := SP.Process(s, r, CF.SubscribeFrame(game, sub, receipt), status, now);
      && st.session == s && st.calls == []
      && Fwd(st.registry, "/" + game, s.connectionId) == Some(CF.IntToString(sub))
      && Rev(st.registry, s.connectionId, CF.IntToString(sub)) == Some("/" + game)
      && Outbox(st.registry, s.connectionId) == Outbox(r, s.connectionId) + [SP.ReceiptFrame(CF.IntToString(receipt))]
  {
    JoinDispatched(s, r, game, sub, receipt, status, now);
  }

  /** The client's side: the acknowledgement of a join consumes exactly the
      join's receipt action. */
  lemma JoinAcknowledged(c: CP.Client, game: CP.GameName)
    requires CP.Valid(c) && game !in c.activeSubscriptions
    requires c.receiptIdCounter <= CF.IntMax
    ensures var o := CP.JoinGame(c, game);
      var f := CF.Received(Wire(SP.ReceiptFrame(CF.IntToString(c.receiptIdCounter))));
      && f.Some?
      && CP.ProcessServerFrame(o.client, f.value)
         == Success(CP.Reaction(o.client.(receiptActions := c.receiptActions), true, false))
  {
    var o := CP.JoinGame(c, game);
    var id := c.receiptIdCounter;
    var action := "Joined channel " + game;
    assert action[0] != CP.LoggedOut[0];
    assert id !in c.receiptActions;
    assert o.client.receiptActions == c.receiptActions[id := action];
    assert o.client.receiptActions - {id} == c.receiptActions;
    ReceiptHandled(o.client, id);
  }

  // ---- Receiving a report ----

  lemma MessageHeadersRead(sub: int, destination: string, messageId: nat)
    requires SP.CleanValue(destination)
    ensures ServerFrames.AllClean(SP.MessageHeaders(CF.IntToString(sub), destination, messageId))
    ensures Collect(SP.MessageHeaders(CF.IntToString(sub), destination, messageId))
         == map["subscription" := CF.IntToString(sub), "message-id" := NatToString(messageId),
                "destination" := destination]
  {
    SP.HeaderNames();
    MoreNames();
    var hs := SP.MessageHeaders(CF.IntToString(sub), destination, messageId);
    NumberClean(sub);
    NumberClean(messageId);
    assert CF.IntToString(messageId) == NatToString(messageId);
    SP.KeyClean(hs[0].0, hs[0].1);
    SP.KeyClean(hs[1].0, hs[1].1);
    SP.KeyClean(hs[2].0, hs[2].1);
    SP.CleanPairs(hs[0], hs[1], hs[2]);
    SP.CollectPairs(hs[0], hs[1], hs[2]);
  }

  /** The copy of a broadcast that a subscriber's listener receives reads
      as a MESSAGE for its subscription id, with the body as sent. Bodies
      and destinations hold no NUL: the broker's decoder ends every frame at
      the first one. */
  lemma MessageReadsBack(sub: int, destination: string, messageId: nat, body: string)
    requires SP.CleanValue(destination) && '\0' !in destination && '\0' !in body
    ensures var f := CF.Received(Wire(Personalize(SP.MessageFrame(destination, messageId, body), CF.IntToString(sub))));
      && f.Some?
      && CF.CommandOf(f.value) == "MESSAGE"
      && "subscription" in CF.HeadersOf(f.value) && CF.HeadersOf(f.value)["subscription"] == CF.IntToString(sub)
      && CF.BodyOf(f.value) == body
  {
    var id := CF.IntToString(sub);
    var hs := SP.MessageHeaders(id, destination, messageId);
    SP.CommandNames();
    NameEnd("MESSAGE");
    MessageHeadersRead(sub, destination, messageId);
    MessageReceived(sub, destination, messageId, body);
    CF.ReadsFormatted("MESSAGE", hs, body);
  }

  /** The listener hands the client the subscriber's copy without its
      final newline and NUL. */
  lemma MessageReceived(sub: int, destination: string, messageId: nat, body: string)
    requires '\0' !in destination && '\0' !in body
    ensures CF.Received(Wire(Personalize(SP.MessageFrame(destination, messageId, body), CF.IntToString(sub))))
         == Some(ServerFrames.FormatFrame("MESSAGE", SP.MessageHeaders(CF.IntToString(sub), destination, messageId), body))
  {
    var id := CF.IntToString(sub);
    WordsNulFree();
    MessageNulFree(sub, destination, messageId);
    SP.PersonalizedMessage(destination, messageId, body, id);
    CF.ReceivedFormatted("MESSAGE", SP.MessageHeaders(id, destination, messageId), body, "\0");
  }

  lemma MessageNulFree(sub: int, destination: string, messageId: nat)
    requires '\0' !in destination
    ensures ServerFrames.FreeOf(SP.MessageHeaders(CF.IntToString(sub), destination, messageId), '\0')
  {
    WordsNulFree();
    NumberClean(sub);
    NumberClean(messageId);
    assert CF.IntToString(messageId) == NatToString(messageId);
  }

  /** A MESSAGE the broker sends for one of the client's subscriptions is
      filed under that subscription's game and the sender the body names,
      and nowhere else. */
  lemma MessageDelivered(c: CP.Client, game: CP.GameName, destination: string, messageId: nat, body: string)
    requires CP.Valid(c) && game in c.activeSubscriptions
    requires c.activeSubscriptions[game] <= CF.IntMax
    requires SP.CleanValue(destination) && '\0' !in destination && '\0' !in body
    requires CP.Sender(body) != ""
    ensures var sub := CF.IntToString(c.activeSubscriptions[game]);
      var f := CF.Received(Wire(Personalize(SP.MessageFrame(destination, messageId, body), sub)));
      && f.Some?
      && var back := CP.ProcessServerFrame(c, f.value);
      && back.Success? && back.value.keepRunning
      && forall g, u :: CP.Reports(back.value.client, g, u)
           == CP.Reports(c, g, u) + (if g == game && u == CP.Sender(body) then [body] else [])
  {
    var id := c.activeSubscriptions[game];
    assert 0 <= id by {
      assert id in c.subscriptionIdToGameName;
    }
    var sub := CF.IntToString(id);
    MessageReadsBack(id, destination, messageId, body);
    var frame := CF.Received(Wire(Personalize(SP.MessageFrame(destination, messageId, body), sub))).value;
    var headers := CF.HeadersOf(frame);
    CF.StoiIntToString(id);
    assert CF.Stoi(headers["subscription"]) == Some(id);
    assert id in c.subscriptionIdToGameName && c.subscriptionIdToGameName[id] == game;
    assert CP.ProcessServerFrame(c, frame) == Success(CP.Reaction(CP.HandleMessage(c, headers, body), true, false));
  }
}
