/**
 * The client's protocol state: the login flags, the two id counters, the
 * game-to-subscription map and its inverse, the actions waiting for a
 * receipt, and the reports received per game and sender. Keyboard commands
 * produce at most one frame to send; frames from the server update the state
 * and say whether the client keeps running.
 */
module ClientProtocol {
  import opened Wrappers
  import opened Text
  import opened Overwrite
  import opened ClientFrames

  type GameName = string
  type User = string

  datatype Client = Client(
    isConnected: bool,
    isLogoutRequested: bool,
    currentUser: User,
    subscriptionIdCounter: nat,
    receiptIdCounter: nat,
    activeSubscriptions: map<GameName, int>,
    subscriptionIdToGameName: map<int, GameName>,
    receiptActions: map<int, string>,
    gameUpdates: map<GameName, map<User, seq<string>>>)

  /** A keyboard command's effect: the new state and the frame sent, if any. */
  datatype Outcome = Outcome(client: Client, frame: Option<string>)

  /** A server frame's effect: the new state, whether the reader keeps going,
      and whether the socket was closed. */
  datatype Reaction = Reaction(client: Client, keepRunning: bool, closed: bool)

  /** The constructor's state. */
  function Init(): Client {
    Client(false, false, "", 0, 0, map[], map[], map[], map[])
  }

  /** `shouldTerminate`: a requested logout that the server has confirmed. */
  predicate ShouldTerminate(c: Client) {
    c.isLogoutRequested && !c.isConnected
  }

  // ---- Invariant ----

  /** The two subscription maps are each other's inverse. */
  predicate Inverse(a: map<GameName, int>, b: map<int, GameName>) {
    && (forall g :: g in a ==> a[g] in b && b[a[g]] == g)
    && (forall i :: i in b ==> b[i] in a && a[b[i]] == i)
  }

  /** The maps are inverse and every id in use was drawn from its counter. */
  predicate Valid(c: Client) {
    && Inverse(c.activeSubscriptions, c.subscriptionIdToGameName)
    && (forall i :: i in c.subscriptionIdToGameName ==> 0 <= i < c.subscriptionIdCounter)
    && (forall i :: i in c.receiptActions ==> 0 <= i < c.receiptIdCounter)
  }

  lemma InitValid()
    ensures Valid(Init()) && !ShouldTerminate(Init()) && !Init().isConnected
  {
  }

  // ---- Keyboard commands ----

  /** `login`: the user name is recorded at once, the connection only when
      CONNECTED arrives. */
  function Login(c: Client, hostPort: string, username: string, password: string): (o: Outcome)
    ensures o.client == c.(currentUser := username)
    ensures o.frame == Some(ConnectFrame(hostPort, username, password))
  {
    Outcome(c.(currentUser := username), Some(ConnectFrame(hostPort, username, password)))
  }

  /** `joinGame`: a game already joined is left alone; otherwise the game is
      bound to the next subscription id in both maps and the next receipt id
      remembers the join. */
  function JoinGame(c: Client, game: GameName): (o: Outcome)
    ensures game in c.activeSubscriptions ==> o == Outcome(c, None)
    ensures game !in c.activeSubscriptions ==>
              var sub := c.subscriptionIdCounter;
              var receipt := c.receiptIdCounter;
              && o.frame == Some(SubscribeFrame(game, sub, receipt))
              && o.client.activeSubscriptions == c.activeSubscriptions[game := sub]
              && o.client.subscriptionIdToGameName == c.subscriptionIdToGameName[sub := game]
              && o.client.receiptActions == c.receiptActions[receipt := "Joined channel " + game]
              && o.client.subscriptionIdCounter == sub + 1
              && o.client.receiptIdCounter == receipt + 1
              && o.client.(activeSubscriptions := c.activeSubscriptions,
                           subscriptionIdToGameName := c.subscriptionIdToGameName,
                           receiptActions := c.receiptActions,
                           subscriptionIdCounter := sub, receiptIdCounter := receipt) == c
  {
    if game in c.activeSubscriptions then Outcome(c, None)
    else
      var sub := c.subscriptionIdCounter;
      var receipt := c.receiptIdCounter;
      var c' := c.(subscriptionIdCounter := sub + 1, receiptIdCounter := receipt + 1,
                   activeSubscriptions := c.activeSubscriptions[game := sub],
                   subscriptionIdToGameName := c.subscriptionIdToGameName[sub := game],
                   receiptActions := c.receiptActions[receipt := "Joined channel " + game]);
      Outcome(c', Some(SubscribeFrame(game, sub, receipt)))
  }

  /** `exitGame`: a game not joined is left alone; otherwise both bindings go
      and the next receipt id remembers the exit. */
  function ExitGame(c: Client, game: GameName): (o: Outcome)
    ensures game !in c.activeSubscriptions ==> o == Outcome(c, None)
    ensures game in c.activeSubscriptions ==>
              var sub := c.activeSubscriptions[game];
              var receipt := c.receiptIdCounter;
              && o.frame == Some(UnsubscribeFrame(sub, receipt))
              && o.client.activeSubscriptions == c.activeSubscriptions - {game}
              && o.client.subscriptionIdToGameName == c.subscriptionIdToGameName - {sub}
              && o.client.receiptActions == c.receiptActions[receipt := "Exited channel " + game]
              && o.client.receiptIdCounter == receipt + 1
              && o.client.(activeSubscriptions := c.activeSubscriptions,
                           subscriptionIdToGameName := c.subscriptionIdToGameName,
                           receiptActions := c.receiptActions, receiptIdCounter := receipt) == c
  {
    if game !in c.activeSubscriptions then Outcome(c, None)
    else
      var sub := c.activeSubscriptions[game];
      var receipt := c.receiptIdCounter;
      var c' := c.(receiptIdCounter := receipt + 1,
                   activeSubscriptions := c.activeSubscriptions - {game},
                   subscriptionIdToGameName := c.subscriptionIdToGameName - {sub},
                   receiptActions := c.receiptActions[receipt := "Exited channel " + game]);
      Outcome(c', Some(UnsubscribeFrame(sub, receipt)))
  }

  /** `logout`: only a connected client without a pending logout asks; the
      next receipt id then remembers the logout. */
  function Logout(c: Client): (o: Outcome)
    ensures !c.isConnected || c.isLogoutRequested ==> o == Outcome(c, None)
    ensures c.isConnected && !c.isLogoutRequested ==>
              var receipt := c.receiptIdCounter;
              && o.frame == Some(DisconnectFrame(receipt))
              && o.client == c.(isLogoutRequested := true, receiptIdCounter := receipt + 1,
                                receiptActions := c.receiptActions[receipt := LoggedOut])
  {
    if !c.isConnected || c.isLogoutRequested then Outcome(c, None)
    else
      var receipt := c.receiptIdCounter;
      Outcome(c.(isLogoutRequested := true, receiptIdCounter := receipt + 1,
                 receiptActions := c.receiptActions[receipt := LoggedOut]),
              Some(DisconnectFrame(receipt)))
  }

  /** The receipt action that marks a logout. */
  const LoggedOut := "Logged out"

  // ---- Frames from the server ----

  /** The reports stored for a game and a sender, none if there are none. */
  function Reports(c: Client, game: GameName, user: User): seq<string> {
    if game in c.gameUpdates && user in c.gameUpdates[game] then c.gameUpdates[game][user] else []
  }

  /** A body line naming the sender. */
  predicate IsUserLine(line: string) {
    |line| >= 5 && line[..5] == "user:"
  }

  /** The position of the first line naming the sender. */
  function FirstUserLine(lines: seq<string>): (r: Option<nat>)
    ensures r.Some? ==> r.value < |lines| && IsUserLine(lines[r.value])
    ensures r.Some? ==> forall k :: 0 <= k < r.value ==> !IsUserLine(lines[k])
    ensures r.None? ==> forall k :: 0 <= k < |lines| ==> !IsUserLine(lines[k])
  {
    if lines == [] then None
    else if IsUserLine(lines[0]) then Some(0)
    else match FirstUserLine(lines[1..]) case None => None case Some(i) => Some(i + 1)
  }

  predicate IsLineEndJunk(ch: char) {
    ch == '\r' || ch == '\n' || ch == ' '
  }

  /** Removes carriage returns, newlines and spaces from the end. */
  function TrimEnd(s: string): (r: string)
    ensures |r| <= |s| && r == s[..|r|]
    ensures forall k :: |r| <= k < |s| ==> IsLineEndJunk(s[k])
    ensures r != [] ==> !IsLineEndJunk(r[|r| - 1])
  {
    if s != [] && IsLineEndJunk(s[|s| - 1]) then TrimEnd(s[..|s| - 1]) else s
  }

  /** The sender named on the body's first `user:` line, or nobody. */
  function Sender(body: string): string
  {
    var lines := Lines(body);
    match FirstUserLine(lines)
    case None => ""
    case Some(i) => TrimEnd(lines[i][5..])
  }
  /** The sender is the text after `user:` on the body's first such line,
      with only line-end junk cut off; nobody when no line starts with
      `user:`. */
  lemma SenderNamed(body: string)
    ensures var lines := Lines(body); var sender := Sender(body);
      && ((forall k :: 0 <= k < |lines| ==> !IsUserLine(lines[k])) ==> sender == "")
      && forall i :: 0 <= i < |lines| && IsUserLine(lines[i]) && (forall k :: 0 <= k < i ==> !IsUserLine(lines[k])) ==>
           var named := lines[i][5..];
           && |sender| <= |named| && sender == named[..|sender|]
           && (forall k :: |sender| <= k < |named| ==> IsLineEndJunk(named[k]))
           && (sender != [] ==> !IsLineEndJunk(sender[|sender| - 1]))
  {
  }


  /** A report body starting with the `user:` line names its sender. */
  lemma SenderOfReport(user: User, rest: string)
    requires '\n' !in user && user != [] && !IsLineEndJunk(user[|user| - 1])
    ensures Sender("user:" + user + "\n" + rest) == user
  {
    var line := "user:" + user;
    assert '\n' !in line;
    SplitAllPrefix(line, rest, '\n');
    assert "user:" + user + "\n" + rest == line + ['\n'] + rest;
    var lines := Lines(line + ['\n'] + rest);
    assert lines[0] == line;
    assert line[..5] == "user:";
    assert line[5..] == user;
  }

  /** `handleMessage`: a message whose subscription header is missing, not a
      number or not one of ours, or whose body names no sender, is dropped;
      otherwise the body is appended to the reports of that game and sender. */
  function HandleMessage(c: Client, headers: map<string, string>, body: string): (c': Client)
    ensures c'.(gameUpdates := c.gameUpdates) == c
    ensures var sub := if "subscription" in headers then Stoi(headers["subscription"]) else None;
      && (sub.None? || sub.value !in c.subscriptionIdToGameName || Sender(body) == "" ==> c' == c)
      && (sub.Some? && sub.value in c.subscriptionIdToGameName && Sender(body) != "" ==>
            forall g, u :: Reports(c', g, u) == Reports(c, g, u)
              + (if g == c.subscriptionIdToGameName[sub.value] && u == Sender(body) then [body] else []))
  {
    if "subscription" !in headers then c
    else match Stoi(headers["subscription"])
      case None => c
      case Some(sub) =>
        if sub !in c.subscriptionIdToGameName then c
        else
          var game := c.subscriptionIdToGameName[sub];
          var sender := Sender(body);
          if sender == "" then c
          else
            var perGame := if game in c.gameUpdates then c.gameUpdates[game] else map[];
            var stored := Reports(c, game, sender);
            c.(gameUpdates := c.gameUpdates[game := perGame[sender := stored + [body]]])
  }

  /** `handleReceipt`: a RECEIPT without a receipt id is ignored; an id that is
      not a number escapes as an exception; an id waiting for an action is
      consumed, and the logout receipt also disconnects and closes the
      socket. */
  function HandleReceipt(c: Client, headers: map<string, string>): (r: Result<Reaction, string>)
    ensures "receipt-id" !in headers ==> r == Success(Reaction(c, true, false))
    ensures "receipt-id" in headers ==>
              match Stoi(headers["receipt-id"])
              case None => r.Failure?
              case Some(id) =>
                && r.Success? && r.value.keepRunning
                && (id !in c.receiptActions ==> r.value == Reaction(c, true, false))
                && (id in c.receiptActions ==>
                      var logout := c.receiptActions[id] == LoggedOut;
                      && r.value.client.receiptActions == c.receiptActions - {id}
                      && r.value.client.isConnected == (c.isConnected && !logout)
                      && r.value.closed == logout
                      && r.value.client.(receiptActions := c.receiptActions, isConnected := c.isConnected) == c)
  {
    if "receipt-id" !in headers then Success(Reaction(c, true, false))
    else match Stoi(headers["receipt-id"])
      case None => Failure("receipt-id is not a number")
      case Some(id) =>
        if id !in c.receiptActions then Success(Reaction(c, true, false))
        else if c.receiptActions[id] == LoggedOut then
          Success(Reaction(c.(isConnected := false, receiptActions := c.receiptActions - {id}), true, true))
        else
          Success(Reaction(c.(receiptActions := c.receiptActions - {id}), true, false))
  }

  /** `processServerFrame`: CONNECTED connects, MESSAGE and RECEIPT go to
      their handlers, ERROR disconnects and stops the reader, anything else
      is ignored. */
  function ProcessServerFrame(c: Client, frame: string): (r: Result<Reaction, string>)
    ensures r.Failure? ==> CommandOf(frame) == "RECEIPT"
    ensures r.Success? ==> (!r.value.keepRunning <==> CommandOf(frame) == "ERROR")
    ensures CommandOf(frame) == "ERROR" ==> r.Success? && !r.value.client.isConnected
    ensures CommandOf(frame) == "CONNECTED" ==> r.Success? && r.value.client.isConnected
    ensures r.Success? ==>
              var c' := r.value.client;
              && c'.isLogoutRequested == c.isLogoutRequested
              && c'.currentUser == c.currentUser
              && c'.subscriptionIdCounter == c.subscriptionIdCounter
              && c'.receiptIdCounter == c.receiptIdCounter
              && c'.activeSubscriptions == c.activeSubscriptions
              && c'.subscriptionIdToGameName == c.subscriptionIdToGameName
              && c'.receiptActions.Keys <= c.receiptActions.Keys
  {
    var command := CommandOf(frame);
    var headers := HeadersOf(frame);
    var body := BodyOf(frame);
    if command == "CONNECTED" then Success(Reaction(c.(isConnected := true), true, false))
    else if command == "MESSAGE" then Success(Reaction(HandleMessage(c, headers, body), true, false))
    else if command == "RECEIPT" then HandleReceipt(c, headers)
    else if command == "ERROR" then Success(Reaction(c.(isConnected := false), false, false))
    else Success(Reaction(c, true, false))
  }

  /** The reader stops for good only once a logout was asked for, and then
      only on an ERROR or on the logout's own receipt. */
  lemma TerminationCause(c: Client, frame: string)
    requires !ShouldTerminate(c)
    ensures var r := ProcessServerFrame(c, frame);
      r.Success? && ShouldTerminate(r.value.client) ==>
        && c.isLogoutRequested
        && (CommandOf(frame) == "ERROR" || (CommandOf(frame) == "RECEIPT" && r.value.closed))
  {
    var command := CommandOf(frame);
    var headers := HeadersOf(frame);
    if command == "MESSAGE" {
      assert ProcessServerFrame(c, frame).value.client == HandleMessage(c, headers, BodyOf(frame));
    } else if command == "RECEIPT" {
      assert ProcessServerFrame(c, frame) == HandleReceipt(c, headers);
    }
  }

  // ---- The invariant is kept ----

  lemma JoinValid(c: Client, game: GameName)
    requires Valid(c)
    ensures Valid(JoinGame(c, game).client)
  {
    var c' := JoinGame(c, game).client;
    if game !in c.activeSubscriptions {
      var sub := c.subscriptionIdCounter;
      assert sub !in c.subscriptionIdToGameName;
      forall i | i in c'.subscriptionIdToGameName
        ensures c'.subscriptionIdToGameName[i] in c'.activeSubscriptions
        ensures c'.activeSubscriptions[c'.subscriptionIdToGameName[i]] == i
      {
        if i != sub {
          assert c.subscriptionIdToGameName[i] != game;
        }
      }
    }
  }

  lemma ExitValid(c: Client, game: GameName)
    requires Valid(c)
    ensures Valid(ExitGame(c, game).client)
  {
    var c' := ExitGame(c, game).client;
    if game in c.activeSubscriptions {
      var sub := c.activeSubscriptions[game];
      forall g | g in c'.activeSubscriptions
        ensures c'.activeSubscriptions[g] in c'.subscriptionIdToGameName
        ensures c'.subscriptionIdToGameName[c'.activeSubscriptions[g]] == g
      {
        assert c.activeSubscriptions[g] != sub;
      }
    }
  }

  lemma LogoutValid(c: Client)
    requires Valid(c)
    ensures Valid(Logout(c).client)
  {
  }

  lemma LoginValid(c: Client, hostPort: string, username: string, password: string)
    requires Valid(c)
    ensures Valid(Login(c, hostPort, username, password).client)
  {
  }

  lemma ProcessValid(c: Client, frame: string)
    requires Valid(c)
    ensures ProcessServerFrame(c, frame).Success? ==> Valid(ProcessServerFrame(c, frame).value.client)
  {
  }

  /** Leaving a game just joined restores both subscription maps. */
  lemma JoinThenExit(c: Client, game: GameName)
    requires Valid(c)
    requires game !in c.activeSubscriptions
    ensures var c' := ExitGame(JoinGame(c, game).client, game).client;
      && c'.activeSubscriptions == c.activeSubscriptions
      && c'.subscriptionIdToGameName == c.subscriptionIdToGameName
      && c'.subscriptionIdCounter == c.subscriptionIdCounter + 1
      && c'.receiptIdCounter == c.receiptIdCounter + 2
  {
    var sub := c.subscriptionIdCounter;
    assert sub !in c.subscriptionIdToGameName;
    var c1 := JoinGame(c, game).client;
    assert c1.activeSubscriptions - {game} == c.activeSubscriptions;
    assert c1.subscriptionIdToGameName - {sub} == c.subscriptionIdToGameName;
  }

  /** Joining draws ids never used before: the new subscription id is bound
      to no game yet, and the new receipt id waits for nothing yet. */
  lemma JoinFresh(c: Client, game: GameName)
    requires Valid(c)
    requires game !in c.activeSubscriptions
    ensures c.subscriptionIdCounter !in c.subscriptionIdToGameName
    ensures c.receiptIdCounter !in c.receiptActions
    ensures forall g :: g in c.activeSubscriptions ==> c.activeSubscriptions[g] != c.subscriptionIdCounter
  {
  }

  // ---- Summary ----

  /** The updates one event report carries. */
  datatype Report = Report(general: map<string, string>, teamA: map<string, string>, teamB: map<string, string>)

  function Generals(rs: seq<Report>): (ms: seq<map<string, string>>)
    ensures |ms| == |rs| && forall j :: 0 <= j < |rs| ==> ms[j] == rs[j].general
  {
    if rs == [] then [] else Generals(rs[..|rs| - 1]) + [rs[|rs| - 1].general]
  }

  function TeamAs(rs: seq<Report>): (ms: seq<map<string, string>>)
    ensures |ms| == |rs| && forall j :: 0 <= j < |rs| ==> ms[j] == rs[j].teamA
  {
    if rs == [] then [] else TeamAs(rs[..|rs| - 1]) + [rs[|rs| - 1].teamA]
  }

  function TeamBs(rs: seq<Report>): (ms: seq<map<string, string>>)
    ensures |ms| == |rs| && forall j :: 0 <= j < |rs| ==> ms[j] == rs[j].teamB
  {
    if rs == [] then [] else TeamBs(rs[..|rs| - 1]) + [rs[|rs| - 1].teamB]
  }

  /** The statistics a summary shows: for each kind of update, every key with
      the value the latest report setting it gave. */
  function Aggregate(rs: seq<Report>): Report {
    Report(Overlay(Generals(rs)), Overlay(TeamAs(rs)), Overlay(TeamBs(rs)))
  }

  /** The aggregation loop of `summary`, one report at a time. */
  method AggregateReports(rs: seq<Report>) returns (total: Report)
    ensures total == Aggregate(rs)
  {
    total := Report(map[], map[], map[]);
    var i := 0;
    while i < |rs|
      invariant 0 <= i <= |rs|
      invariant total == Aggregate(rs[..i])
    {
      assert rs[..i + 1][..i] == rs[..i];
      total := Report(total.general + rs[i].general, total.teamA + rs[i].teamA, total.teamB + rs[i].teamB);
      i := i + 1;
    }
    assert rs[..|rs|] == rs;
  }

  /** The three kinds of update a report carries. */
  datatype Kind = General | TeamA | TeamB

  function Updates(r: Report, k: Kind): map<string, string> {
    match k
    case General => r.general
    case TeamA => r.teamA
    case TeamB => r.teamB
  }

  /** Report `j` sets `key` among its updates of kind `k`, and no later one does. */
  predicate LatestFor(rs: seq<Report>, k: Kind, key: string, j: int) {
    0 <= j < |rs| && key in Updates(rs[j], k) && forall l :: j < l < |rs| ==> key !in Updates(rs[l], k)
  }

  /** A key shows in the summary iff some report sets it, with the value of
      the latest report that does; the three kinds of update are aggregated
      independently. */
  lemma AggregateLastWins(rs: seq<Report>, key: string)
    ensures key in Aggregate(rs).general <==> exists j :: 0 <= j < |rs| && key in rs[j].general
    ensures key in Aggregate(rs).teamA <==> exists j :: 0 <= j < |rs| && key in rs[j].teamA
    ensures key in Aggregate(rs).teamB <==> exists j :: 0 <= j < |rs| && key in rs[j].teamB
    ensures forall j :: LatestFor(rs, General, key, j) ==> Aggregate(rs).general[key] == rs[j].general[key]
    ensures forall j :: LatestFor(rs, TeamA, key, j) ==> Aggregate(rs).teamA[key] == rs[j].teamA[key]
    ensures forall j :: LatestFor(rs, TeamB, key, j) ==> Aggregate(rs).teamB[key] == rs[j].teamB[key]
  {
    GeneralLastWins(rs, key);
    TeamALastWins(rs, key);
    TeamBLastWins(rs, key);
  }

  lemma GeneralLastWins(rs: seq<Report>, key: string)
    ensures key in Aggregate(rs).general <==> exists j :: 0 <= j < |rs| && key in rs[j].general
    ensures forall j :: LatestFor(rs, General, key, j) ==>
              key in Aggregate(rs).general && Aggregate(rs).general[key] == rs[j].general[key]
  {
    var ms := Generals(rs);
    OverlayLastWins(ms, key);
    forall j | LatestFor(rs, General, key, j) ensures LastSetting(ms, key, j) {
    }
  }

  lemma TeamALastWins(rs: seq<Report>, key: string)
    ensures key in Aggregate(rs).teamA <==> exists j :: 0 <= j < |rs| && key in rs[j].teamA
    ensures forall j :: LatestFor(rs, TeamA, key, j) ==>
              key in Aggregate(rs).teamA && Aggregate(rs).teamA[key] == rs[j].teamA[key]
  {
    var ms := TeamAs(rs);
    OverlayLastWins(ms, key);
    forall j | LatestFor(rs, TeamA, key, j) ensures LastSetting(ms, key, j) {
    }
  }

  lemma TeamBLastWins(rs: seq<Report>, key: string)
    ensures key in Aggregate(rs).teamB <==> exists j :: 0 <= j < |rs| && key in rs[j].teamB
    ensures forall j :: LatestFor(rs, TeamB, key, j) ==>
              key in Aggregate(rs).teamB && Aggregate(rs).teamB[key] == rs[j].teamB[key]
  {
    var ms := TeamBs(rs);
    OverlayLastWins(ms, key);
    forall j | LatestFor(rs, TeamB, key, j) ensures LastSetting(ms, key, j) {
    }
  }

  /** `summary`'s lookup: the reports of a sender in a game, read by `parse`
      (the event parser, outside this model) and aggregated; nothing when
      there are none. */
  function Summary(c: Client, game: GameName, user: User, parse: string -> Report): (r: Option<Report>)
    ensures r.None? <==> Reports(c, game, user) == []
  {
    var events := Reports(c, game, user);
    if events == [] then None
    else Some(Aggregate(seq(|events|, j requires 0 <= j < |events| => parse(events[j]))))
  }
}
