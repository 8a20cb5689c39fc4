/**
 * The broker's subscription registry, as a sequential state machine: live
 * connection handlers, the forward map channel -> (connection -> subscription
 * id), the reverse map connection -> (subscription id -> channel), and, in
 * place of the handlers' sockets, one outbox per connection id recording
 * every frame handed to that connection.
 */
module Connections {
  import opened Wrappers
  import opened Text

  type ConnectionId = int
  type Channel = string
  type SubscriptionId = string
  type Frame = string

  /** The transport behind a connection, identified abstractly. */
  datatype Handler = Handler(socket: nat)

  datatype Registry = Registry(
    handlers: map<ConnectionId, Handler>,
    channelSubscribers: map<Channel, map<ConnectionId, SubscriptionId>>,
    clientSubscriptions: map<ConnectionId, map<SubscriptionId, Channel>>,
    outbox: map<ConnectionId, seq<Frame>>)

  function Empty(): Registry {
    Registry(map[], map[], map[], map[])
  }

  /** Every frame delivered so far to connection `c`, oldest first. */
  function Outbox(r: Registry, c: ConnectionId): seq<Frame> {
    if c in r.outbox then r.outbox[c] else []
  }

  /** The subscription id the forward map holds for `c` on `ch`. */
  function Fwd(r: Registry, ch: Channel, c: ConnectionId): Option<SubscriptionId> {
    if ch in r.channelSubscribers && c in r.channelSubscribers[ch]
    then Some(r.channelSubscribers[ch][c]) else None
  }

  /** The channel the reverse map holds for subscription `s` of `c`. */
  function Rev(r: Registry, c: ConnectionId, s: SubscriptionId): Option<Channel> {
    if c in r.clientSubscriptions && s in r.clientSubscriptions[c]
    then Some(r.clientSubscriptions[c][s]) else None
  }

  predicate Bound(r: Registry, ch: Channel, c: ConnectionId, s: SubscriptionId) {
    Fwd(r, ch, c) == Some(s)
  }

  predicate Listed(r: Registry, c: ConnectionId, s: SubscriptionId, ch: Channel) {
    Rev(r, c, s) == Some(ch)
  }

  /** The two maps are mirror images of each other. */
  ghost predicate Mirror(r: Registry) {
    forall ch, c, s :: Bound(r, ch, c, s) <==> Listed(r, c, s, ch)
  }

  /** `addConnection`: registers (or replaces) the handler of `c`. */
  function AddConnection(r: Registry, c: ConnectionId, h: Handler): (r': Registry)
    ensures c in r'.handlers && r'.handlers[c] == h
    ensures forall c' :: c' != c ==> (c' in r'.handlers <==> c' in r.handlers)
    ensures r'.channelSubscribers == r.channelSubscribers
    ensures r'.clientSubscriptions == r.clientSubscriptions
    ensures r'.outbox == r.outbox
  {
    r.(handlers := r.handlers[c := h])
  }

  /** `send(connectionId, msg)`: delivered and true iff `c` is registered. */
  function Send(r: Registry, c: ConnectionId, msg: Frame): (res: (Registry, bool))
    ensures res.1 <==> c in r.handlers
    ensures !res.1 ==> res.0 == r
    ensures res.1 ==> Outbox(res.0, c) == Outbox(r, c) + [msg]
    ensures forall c' :: c' != c ==> Outbox(res.0, c') == Outbox(r, c')
    ensures res.0.handlers == r.handlers
    ensures res.0.channelSubscribers == r.channelSubscribers
    ensures res.0.clientSubscriptions == r.clientSubscriptions
  {
    if c in r.handlers then (r.(outbox := r.outbox[c := Outbox(r, c) + [msg]]), true)
    else (r, false)
  }

  /** `isSubscribed`: the forward map lists `c` under `ch`. */
  function IsSubscribed(r: Registry, ch: Channel, c: ConnectionId): (b: bool)
    ensures b <==> Fwd(r, ch, c).Some?
    ensures ch !in r.channelSubscribers ==> !b
  {
    ch in r.channelSubscribers && c in r.channelSubscribers[ch]
  }

  /** `subscribe`: binds `s` to `ch` in both maps, creating inner maps on
      demand; an earlier forward or reverse binding at the same key is
      overwritten, nothing else is touched. */
  function Subscribe(r: Registry, ch: Channel, c: ConnectionId, s: SubscriptionId): (r': Registry)
    ensures IsSubscribed(r', ch, c)
    ensures Fwd(r', ch, c) == Some(s) && Rev(r', c, s) == Some(ch)
    ensures forall ch', c' :: (ch', c') != (ch, c) ==> Fwd(r', ch', c') == Fwd(r, ch', c')
    ensures forall c', s' :: (c', s') != (c, s) ==> Rev(r', c', s') == Rev(r, c', s')
    ensures r'.handlers == r.handlers && r'.outbox == r.outbox
  {
    var subs := if ch in r.channelSubscribers then r.channelSubscribers[ch] else map[];
    var mine := if c in r.clientSubscriptions then r.clientSubscriptions[c] else map[];
    r.(channelSubscribers := r.channelSubscribers[ch := subs[c := s]],
       clientSubscriptions := r.clientSubscriptions[c := mine[s := ch]])
  }

  /** `unsubscribe`: looks `s` up in `c`'s reverse map; when bound to `ch`,
      drops that binding and drops `c` from `ch`'s subscribers. An unknown
      connection or subscription id changes nothing. */
  function Unsubscribe(r: Registry, s: SubscriptionId, c: ConnectionId): (r': Registry)
    ensures Rev(r, c, s).None? ==> r' == r
    ensures Rev(r, c, s).Some? ==>
              && Rev(r', c, s).None?
              && Fwd(r', Rev(r, c, s).value, c).None?
              && (forall ch' :: ch' != Rev(r, c, s).value ==> Fwd(r', ch', c) == Fwd(r, ch', c))
    ensures forall ch', c' :: c' != c ==> Fwd(r', ch', c') == Fwd(r, ch', c')
    ensures forall c', s' :: (c', s') != (c, s) ==> Rev(r', c', s') == Rev(r, c', s')
    ensures r'.handlers == r.handlers && r'.outbox == r.outbox
  {
    match Rev(r, c, s)
    case None => r
    case Some(ch) =>
      var fwd :=
        if ch in r.channelSubscribers
        then r.channelSubscribers[ch := r.channelSubscribers[ch] - {c}]
        else r.channelSubscribers;
      r.(channelSubscribers := fwd,
         clientSubscriptions := r.clientSubscriptions[c := r.clientSubscriptions[c] - {s}])
  }

  /** The channels `c`'s reverse map points at. */
  function ChannelsOf(r: Registry, c: ConnectionId): set<Channel> {
    if c in r.clientSubscriptions then r.clientSubscriptions[c].Values else {}
  }

  /** `disconnect`: forgets the handler and the reverse map of `c`, and drops
      `c` from every channel its reverse map names. */
  function Disconnect(r: Registry, c: ConnectionId): (r': Registry)
    ensures c !in r'.handlers && !Send(r', c, "").1
    ensures forall c' :: c' != c ==> (c' in r'.handlers <==> c' in r.handlers)
    ensures forall s :: Rev(r', c, s).None?
    ensures forall ch :: ch in ChannelsOf(r, c) ==> !IsSubscribed(r', ch, c)
    ensures forall ch :: ch !in ChannelsOf(r, c) ==> Fwd(r', ch, c) == Fwd(r, ch, c)
    ensures forall ch, c' :: c' != c ==> Fwd(r', ch, c') == Fwd(r, ch, c')
    ensures forall c', s :: c' != c ==> Rev(r', c', s) == Rev(r, c', s)
    ensures r'.outbox == r.outbox
  {
    var gone := ChannelsOf(r, c);
    var fwd := map ch | ch in r.channelSubscribers ::
                 if ch in gone then r.channelSubscribers[ch] - {c} else r.channelSubscribers[ch];
    r.(handlers := r.handlers - {c},
       channelSubscribers := fwd,
       clientSubscriptions := r.clientSubscriptions - {c})
  }

  /** The per-recipient copy of a broadcast frame: the first
      `subscription:0` becomes `subscription:<s>`. */
  function Personalize(msg: Frame, s: SubscriptionId): Frame {
    ReplaceFirst(msg, "subscription:0", "subscription:" + s)
  }

  /** The copy each live subscriber is due: the message with its own
      subscription id. */
  function Copies(r: Registry, subs: map<ConnectionId, SubscriptionId>, msg: Frame): (m: map<ConnectionId, Frame>)
    ensures forall c :: c in m <==> c in subs && c in r.handlers
  {
    map c | c in subs.Keys * r.handlers.Keys :: Personalize(msg, subs[c])
  }

  /** The outboxes after the connections in `done` have received their copy. */
  function AppendEach(o: map<ConnectionId, seq<Frame>>, copies: map<ConnectionId, Frame>,
                      done: set<ConnectionId>): map<ConnectionId, seq<Frame>>
  {
    map c | c in o.Keys + (done * copies.Keys) ::
      (if c in o then o[c] else []) + (if c in done && c in copies then [copies[c]] else [])
  }

  lemma AppendEachOneMore(o: map<ConnectionId, seq<Frame>>, copies: map<ConnectionId, Frame>,
                          done: set<ConnectionId>, c: ConnectionId)
    requires c in copies && c !in done
    ensures var a := AppendEach(o, copies, done);
      AppendEach(o, copies, done + {c}) == a[c := (if c in a then a[c] else []) + [copies[c]]]
  {
    var a := AppendEach(o, copies, done);
    var lhs := AppendEach(o, copies, done + {c});
    var rhs := a[c := (if c in a then a[c] else []) + [copies[c]]];
    assert lhs.Keys == rhs.Keys;
    forall k | k in lhs ensures lhs[k] == rhs[k] {
    }
  }

  lemma AppendEachSkip(o: map<ConnectionId, seq<Frame>>, copies: map<ConnectionId, Frame>,
                       done: set<ConnectionId>, c: ConnectionId)
    requires c !in copies
    ensures AppendEach(o, copies, done + {c}) == AppendEach(o, copies, done)
  {
    assert (done + {c}) * copies.Keys == done * copies.Keys;
  }

  lemma AppendEachNone(o: map<ConnectionId, seq<Frame>>, copies: map<ConnectionId, Frame>)
    ensures AppendEach(o, copies, {}) == o
  {
    var a := AppendEach(o, copies, {});
    assert a.Keys == o.Keys;
    forall k | k in a ensures a[k] == o[k] {
      assert a[k] == o[k] + [];
    }
  }

  /** Delivery of the personalized copies to the connections in `done`. */
  function DeliverTo(r: Registry, subs: map<ConnectionId, SubscriptionId>, msg: Frame,
                     done: set<ConnectionId>): Registry
  {
    r.(outbox := AppendEach(r.outbox, Copies(r, subs, msg), done))
  }

  /** `send(channel, msg)`: every subscriber of `channel` with a live handler
      receives exactly one copy carrying its own subscription id; everyone
      else receives nothing, and an unknown channel is a no-op. */
  function Broadcast(r: Registry, channel: Channel, msg: Frame): (r': Registry)
    ensures forall c :: Outbox(r', c) ==
              if IsSubscribed(r, channel, c) && c in r.handlers
              then Outbox(r, c) + [Personalize(msg, Fwd(r, channel, c).value)]
              else Outbox(r, c)
    ensures channel !in r.channelSubscribers ==> r' == r
    ensures r'.handlers == r.handlers
    ensures r'.channelSubscribers == r.channelSubscribers
    ensures r'.clientSubscriptions == r.clientSubscriptions
  {
    if channel !in r.channelSubscribers then r
    else
      var subs := r.channelSubscribers[channel];
      DeliverTo(r, subs, msg, subs.Keys)
  }

  /** One more recipient handled by the broadcast loop. */
  lemma DeliverOneMore(r: Registry, subs: map<ConnectionId, SubscriptionId>, msg: Frame,
                       done: set<ConnectionId>, c: ConnectionId)
    requires c in subs && c !in done
    ensures DeliverTo(r, subs, msg, done + {c})
         == Send(DeliverTo(r, subs, msg, done), c, Personalize(msg, subs[c])).0
  {
    var copies := Copies(r, subs, msg);
    if c in r.handlers {
      AppendEachOneMore(r.outbox, copies, done, c);
    } else {
      AppendEachSkip(r.outbox, copies, done, c);
    }
  }

  /** `order` lists the keys of `subs` once each: an iteration order of the
      subscriber map, which the source leaves unspecified. */
  predicate IterationOrder(order: seq<ConnectionId>, subs: map<ConnectionId, SubscriptionId>) {
    && (forall k :: 0 <= k < |order| ==> order[k] in subs)
    && (forall k, l :: 0 <= k < l < |order| ==> order[k] != order[l])
    && (forall c :: c in subs ==> c in order)
  }

  /** The connections among the first `i` entries of `order`. */
  function Seen(order: seq<ConnectionId>, i: nat): set<ConnectionId>
    requires i <= |order|
  {
    set k | 0 <= k < i :: order[k]
  }

  lemma SeenStep(order: seq<ConnectionId>, subs: map<ConnectionId, SubscriptionId>, i: nat)
    requires IterationOrder(order, subs) && i < |order|
    ensures order[i] !in Seen(order, i)
    ensures Seen(order, i + 1) == Seen(order, i) + {order[i]}
  {
  }

  lemma SeenAll(order: seq<ConnectionId>, subs: map<ConnectionId, SubscriptionId>)
    requires IterationOrder(order, subs)
    ensures Seen(order, |order|) == subs.Keys
  {
    forall c | c in subs
      ensures c in Seen(order, |order|)
    {
      var k :| 0 <= k < |order| && order[k] == c;
    }
  }

  /** The broadcast as the source runs it: one `send` per subscriber, in the
      given iteration order of the channel's subscriber map. */
  method SendToChannel(r: Registry, channel: Channel, msg: Frame, order: seq<ConnectionId>)
    returns (res: Registry)
    requires channel in r.channelSubscribers ==> IterationOrder(order, r.channelSubscribers[channel])
    ensures res == Broadcast(r, channel, msg)
  {
    if channel !in r.channelSubscribers {
      return r;
    }
    var subs := r.channelSubscribers[channel];
    res := r;
    AppendEachNone(r.outbox, Copies(r, subs, msg));
    var i := 0;
    while i < |order|
      invariant 0 <= i <= |order|
      invariant res == DeliverTo(r, subs, msg, Seen(order, i))
    {
      var c := order[i];
      SeenStep(order, subs, i);
      DeliverOneMore(r, subs, msg, Seen(order, i), c);
      res := Send(res, c, Personalize(msg, subs[c])).0;
      i := i + 1;
    }
    SeenAll(order, subs);
  }

  // ---- The mirror invariant ----

  lemma EmptyMirror()
    ensures Mirror(Empty())
  {
  }

  /** Subscribing with an id the connection has not used, to a channel it is
      not on, keeps the maps mirrored. */
  lemma SubscribeKeepsMirror(r: Registry, ch: Channel, c: ConnectionId, s: SubscriptionId)
    requires Mirror(r)
    requires Fwd(r, ch, c).None? && Rev(r, c, s).None?
    ensures Mirror(Subscribe(r, ch, c, s))
  {
    var r' := Subscribe(r, ch, c, s);
    forall ch', c', s' ensures Bound(r', ch', c', s') <==> Listed(r', c', s', ch') {
      assert Bound(r, ch', c', s') <==> Listed(r, c', s', ch');
    }
  }

  lemma UnsubscribeKeepsMirror(r: Registry, s: SubscriptionId, c: ConnectionId)
    requires Mirror(r)
    ensures Mirror(Unsubscribe(r, s, c))
  {
    var r' := Unsubscribe(r, s, c);
    forall ch', c', s' ensures Bound(r', ch', c', s') <==> Listed(r', c', s', ch') {
      assert Bound(r, ch', c', s') <==> Listed(r, c', s', ch');
      if Rev(r, c, s).Some? {
        var ch := Rev(r, c, s).value;
        assert Bound(r, ch, c, s) <==> Listed(r, c, s, ch);
      }
    }
  }

  lemma DisconnectKeepsMirror(r: Registry, c: ConnectionId)
    requires Mirror(r)
    ensures Mirror(Disconnect(r, c))
  {
    var r' := Disconnect(r, c);
    forall ch', c', s' ensures Bound(r', ch', c', s') <==> Listed(r', c', s', ch') {
      assert Bound(r, ch', c', s') <==> Listed(r, c', s', ch');
      if c' == c && Bound(r, ch', c, s') {
        assert r.clientSubscriptions[c][s'] == ch';
        assert ch' in ChannelsOf(r, c);
      }
    }
  }

  lemma BroadcastKeepsMirror(r: Registry, channel: Channel, msg: Frame)
    requires Mirror(r)
    ensures Mirror(Broadcast(r, channel, msg))
  {
    var r' := Broadcast(r, channel, msg);
    forall ch', c', s' ensures Bound(r', ch', c', s') <==> Listed(r', c', s', ch') {
      assert Bound(r, ch', c', s') <==> Listed(r, c', s', ch');
    }
  }

  /** With mirrored maps, a disconnected connection is on no channel at all
      and can no longer be sent to. */
  lemma DisconnectComplete(r: Registry, c: ConnectionId, ch: Channel)
    requires Mirror(r)
    ensures !IsSubscribed(Disconnect(r, c), ch, c)
    ensures !Send(Disconnect(r, c), c, "").1
  {
    if Fwd(r, ch, c).Some? {
      var s := Fwd(r, ch, c).value;
      assert Bound(r, ch, c, s) <==> Listed(r, c, s, ch);
      assert r.clientSubscriptions[c][s] == ch;
      assert ch in ChannelsOf(r, c);
    }
  }

  /** A connection registered with `addConnection` can be sent to. */
  lemma AddThenSend(r: Registry, c: ConnectionId, h: Handler, msg: Frame)
    ensures Send(AddConnection(r, c, h), c, msg).1
    ensures Outbox(Send(AddConnection(r, c, h), c, msg).0, c) == Outbox(r, c) + [msg]
  {
  }

  // ---- Where the maps stop mirroring each other ----

  /** Subscribing the same connection to the same channel under a second id
      keeps only the second id in the forward map but both in the reverse
      map, so the maps no longer mirror each other. */
  lemma ResubscribeBreaksMirror(r: Registry, ch: Channel, c: ConnectionId, s1: SubscriptionId, s2: SubscriptionId)
    requires s1 != s2
    ensures var r' := Subscribe(Subscribe(r, ch, c, s1), ch, c, s2);
      && Fwd(r', ch, c) == Some(s2)
      && Rev(r', c, s1) == Some(ch) && Rev(r', c, s2) == Some(ch)
      && !Mirror(r')
  {
    var r' := Subscribe(Subscribe(r, ch, c, s1), ch, c, s2);
    assert Listed(r', c, s1, ch) && !Bound(r', ch, c, s1);
  }

  /** After a resubscription, unsubscribing the first id takes the connection
      off the channel although its second id still names that channel, so a
      broadcast there no longer reaches it. */
  lemma ResubscribeThenUnsubscribeDropsLiveId(r: Registry, ch: Channel, c: ConnectionId,
                                              s1: SubscriptionId, s2: SubscriptionId, msg: Frame)
    requires s1 != s2
    ensures var r' := Unsubscribe(Subscribe(Subscribe(r, ch, c, s1), ch, c, s2), s1, c);
      && Rev(r', c, s2) == Some(ch)
      && !IsSubscribed(r', ch, c)
      && Outbox(Broadcast(r', ch, msg), c) == Outbox(r', c)
  {
  }

  /** Reusing a subscription id for a second channel overwrites the reverse
      entry but leaves the first channel listing the connection; after
      `disconnect` that stale entry survives, so the connection still counts
      as subscribed to the first channel. */
  lemma ReusedIdSurvivesDisconnect(r: Registry, a: Channel, b: Channel, c: ConnectionId, s: SubscriptionId)
    requires Mirror(r)
    requires a != b && Fwd(r, a, c).None?
    ensures var r1 := Subscribe(Subscribe(r, a, c, s), b, c, s);
      && Fwd(r1, a, c) == Some(s) && Rev(r1, c, s) == Some(b)
      && !Mirror(r1)
      && IsSubscribed(Disconnect(r1, c), a, c)
  {
    var r1 := Subscribe(Subscribe(r, a, c, s), b, c, s);
    assert Bound(r1, a, c, s) && !Listed(r1, c, s, a);
    if a in ChannelsOf(r1, c) {
      var s' :| s' in r1.clientSubscriptions[c] && r1.clientSubscriptions[c][s'] == a;
      assert s' != s;
      assert Listed(r, c, s', a);
      assert false;
    }
  }
}
