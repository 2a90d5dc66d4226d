/**
 * `WebSocketManager`: the registry of client sockets per task id, the set of
 * pub/sub channels it is subscribed to, and the listener's fan-out and
 * reconnect steps. Sockets are opaque values; what the outside world does
 * (whether a ping, subscribe, unsubscribe, publish or send succeeds) is an
 * input to each operation, and what the manager does to a socket (accept,
 * close, send) is appended to `socketLog`.
 */
module WebSocketManager {

  import opened Wrappers
  import opened Relay

  /** A client WebSocket, known only by identity. */
  datatype Conn = Conn(id: nat)

  /** What the manager does to a socket. */
  datatype SocketAction = Accepted(conn: Conn) | Closed(conn: Conn, code: int) | Sent(conn: Conn, message: Json)

  /** How `disconnect` ends: unknown task id (a warning), socket not in the set (`KeyError`), or removed. */
  datatype DisconnectResult = UnknownTask | NotRegistered | Removed

  /** A message handed to the pub/sub server. */
  datatype Publication = Publication(channel: string, payload: Json)

  /** The close code for an internal server error. */
  const InternalError := 1011

  /** The sends of `message` to the sockets of `order`, in order. */
  function Sends(order: seq<Conn>, message: Json): (r: seq<SocketAction>)
    ensures |r| == |order|
    ensures forall i :: 0 <= i < |order| ==> r[i] == Sent(order[i], message)
  {
    if order == [] then [] else [Sent(order[0], message)] + Sends(order[1..], message)
  }

  lemma SendsAppend(order: seq<Conn>, c: Conn, message: Json)
    ensures Sends(order + [c], message) == Sends(order, message) + [Sent(c, message)]
  {
    var a, b := Sends(order + [c], message), Sends(order, message) + [Sent(c, message)];
    assert |a| == |b|;
    forall i | 0 <= i < |a| ensures a[i] == b[i] {
      if i < |order| {
        assert (order + [c])[i] == order[i];
      }
    }
  }

  /** No socket occurs twice. */
  predicate Distinct(s: seq<Conn>)
  {
    forall i, j :: 0 <= i < j < |s| ==> s[i] != s[j]
  }

  /** The sockets of `order` whose send fails, in order: the `disconnected_clients` list. */
  function Failures(order: seq<Conn>, broken: set<Conn>): (r: seq<Conn>)
    ensures forall c :: c in r <==> c in order && c in broken
    ensures |r| <= |order|
  {
    if order == [] then []
    else (if order[0] in broken then [order[0]] else []) + Failures(order[1..], broken)
  }

  /** Without duplicates in `order`, the failures have none either. */
  lemma {:induction false} FailuresDistinct(order: seq<Conn>, broken: set<Conn>)
    requires Distinct(order)
    ensures Distinct(Failures(order, broken))
  {
    if order != [] {
      FailuresDistinct(order[1..], broken);
      var tail := Failures(order[1..], broken);
      assert order[0] !in order[1..];
      assert order[0] !in tail;
      if order[0] in broken {
        var r := Failures(order, broken);
        assert r == [order[0]] + tail;
        forall i, j | 0 <= i < j < |r| ensures r[i] != r[j] {
          assert r[j] == tail[j - 1];
          if i > 0 {
            assert r[i] == tail[i - 1];
          }
        }
      } else {
        assert Failures(order, broken) == tail;
      }
    }
  }

  /** The registry after the sockets `gone` of task `taskId` are disconnected one by one. */
  function AfterRemoval(m: map<string, set<Conn>>, taskId: string, gone: set<Conn>): map<string, set<Conn>>
    requires taskId in m
  {
    if m[taskId] * gone == {} then m
    else if m[taskId] - gone == {} then m - {taskId}
    else m[taskId := m[taskId] - gone]
  }

  /** Whether disconnecting `gone` empties the task's set, the moment `disconnect` unsubscribes. */
  predicate Empties(m: map<string, set<Conn>>, taskId: string, gone: set<Conn>)
    requires taskId in m
  {
    m[taskId] * gone != {} && m[taskId] - gone == {}
  }

  /** Only the failed sockets that are registered matter. */
  lemma BrokenOfSnapshot(m: map<string, set<Conn>>, taskId: string, broken: set<Conn>)
    requires taskId in m
    ensures AfterRemoval(m, taskId, m[taskId] * broken) == AfterRemoval(m, taskId, broken)
    ensures Empties(m, taskId, m[taskId] * broken) == Empties(m, taskId, broken)
  {
    assert m[taskId] * (m[taskId] * broken) == m[taskId] * broken;
    assert m[taskId] - m[taskId] * broken == m[taskId] - broken;
  }

  /** `list(s)`: the elements of a set, each once, in some order. */
  method Snapshot(s: set<Conn>) returns (order: seq<Conn>)
    ensures forall c :: c in order <==> c in s
    ensures Distinct(order)
    ensures |order| == |s|
  {
    order := [];
    var rest := s;
    while rest != {}
      invariant rest <= s
      invariant forall c :: c in order <==> c in s && c !in rest
      invariant forall i, j :: 0 <= i < j < |order| ==> order[i] != order[j]
      invariant |order| + |rest| == |s|
      decreases |rest|
    {
      var c :| c in rest;
      order := order + [c];
      rest := rest - {c};
    }
  }

  class Manager {
    /** `active_connections`: the sockets of each task id. */
    var activeConnections: map<string, set<Conn>>
    /** The channels of the current pub/sub connection. */
    var subscriptions: set<string>
    /** Whether `redis_client` and `pubsub` are set. */
    var initialized: bool
    /** Whether the listener loop is running. */
    var listening: bool
    /** Everything the manager has done to client sockets, in order. */
    var socketLog: seq<SocketAction>

    /**
     * Before initialization nothing is registered, subscribed or listening;
     * while the listener runs, every task id with at least one socket has its
     * channel subscribed.
     */
    ghost predicate Valid()
      reads this
    {
      && (!initialized ==> activeConnections == map[] && subscriptions == {} && !listening)
      && (listening ==> initialized)
      && (listening ==> forall t :: t in activeConnections && activeConnections[t] != {} ==>
            ChannelName(t) in subscriptions)
    }

    /** `__init__`: no sockets, no pub/sub client. */
    constructor ()
      ensures Valid()
      ensures activeConnections == map[] && subscriptions == {} && !initialized && !listening && socketLog == []
    {
      activeConnections := map[];
      subscriptions := {};
      initialized := false;
      listening := false;
      socketLog := [];
    }

    /**
     * `initialize`: on the first call, connect and ping; on success open an
     * empty pub/sub connection and start the listener, on failure stay
     * uninitialised and report the error. Later calls do nothing.
     */
    method Initialize(pingOk: bool) returns (ok: bool)
      requires Valid()
      modifies this
      ensures Valid()
      ensures ok == (old(initialized) || pingOk)
      ensures initialized == ok
      ensures old(initialized) ==> initialized == old(initialized) && listening == old(listening) && subscriptions == old(subscriptions)
      ensures !old(initialized) && pingOk ==> listening && subscriptions == {}
      ensures activeConnections == old(activeConnections) && socketLog == old(socketLog)
    {
      ok := true;
      if !initialized {
        if pingOk {
          initialized := true;
          subscriptions := {};
          listening := true;
        } else {
          ok := false;
        }
      }
    }

    /**
     * `connect`: refuse the socket (close 1011) when uninitialised; otherwise
     * accept it, subscribe the task's channel when the task has no sockets
     * yet, and register the socket. A failed subscription closes the socket
     * with 1011 and leaves the task mapped to an empty set.
     */
    method Connect(taskId: string, ws: Conn, subscribeOk: bool) returns (added: bool)
      requires Valid()
      modifies this
      ensures Valid()
      ensures initialized == old(initialized) && listening == old(listening)
      ensures var first := taskId !in old(activeConnections) || old(activeConnections)[taskId] == {};
        added == (old(initialized) && (!first || subscribeOk))
      ensures !old(initialized) ==>
        activeConnections == old(activeConnections) && subscriptions == old(subscriptions) &&
        socketLog == old(socketLog) + [Closed(ws, InternalError)]
      ensures old(initialized) && taskId in old(activeConnections) && old(activeConnections)[taskId] != {} ==>
        activeConnections == old(activeConnections)[taskId := old(activeConnections)[taskId] + {ws}] &&
        subscriptions == old(subscriptions) && socketLog == old(socketLog) + [Accepted(ws)]
      ensures old(initialized) && (taskId !in old(activeConnections) || old(activeConnections)[taskId] == {}) ==>
        if subscribeOk then
          activeConnections == old(activeConnections)[taskId := {ws}] &&
          subscriptions == old(subscriptions) + {ChannelName(taskId)} &&
          socketLog == old(socketLog) + [Accepted(ws)]
        else
          activeConnections == old(activeConnections)[taskId := {}] &&
          subscriptions == old(subscriptions) &&
          socketLog == old(socketLog) + [Accepted(ws), Closed(ws, InternalError)]
    {
      if !initialized {
        socketLog := socketLog + [Closed(ws, InternalError)];
        return false;
      }
      socketLog := socketLog + [Accepted(ws)];
      var channel := ChannelName(taskId);
      if taskId !in activeConnections || activeConnections[taskId] == {} {
        activeConnections := activeConnections[taskId := {}];
        if subscribeOk {
          subscriptions := subscriptions + {channel};
        } else {
          socketLog := socketLog + [Closed(ws, InternalError)];
          return false;
        }
      }
      assert activeConnections[taskId] + {ws} == if activeConnections[taskId] == {} then {ws} else activeConnections[taskId] + {ws};
      activeConnections := activeConnections[taskId := activeConnections[taskId] + {ws}];
      added := true;
    }

    /**
     * `disconnect`: remove the socket from its task; when the set becomes
     * empty, drop the task id and, with a pub/sub connection, unsubscribe its
     * channel (a failed unsubscribe is only logged). An unknown task id is a
     * no-op; a socket missing from a known task's set raises `KeyError`,
     * which changes nothing.
     */
    method Disconnect(taskId: string, ws: Conn, unsubscribeOk: bool) returns (r: DisconnectResult)
      requires Valid()
      modifies this
      ensures Valid()
      ensures initialized == old(initialized) && listening == old(listening) && socketLog == old(socketLog)
      ensures r == (if taskId !in old(activeConnections) then UnknownTask
                    else if ws !in old(activeConnections)[taskId] then NotRegistered
                    else Removed)
      ensures r != Removed ==> activeConnections == old(activeConnections) && subscriptions == old(subscriptions)
      ensures r == Removed ==>
        && activeConnections == AfterRemoval(old(activeConnections), taskId, {ws})
        && subscriptions == (if Empties(old(activeConnections), taskId, {ws}) && initialized && unsubscribeOk
                             then old(subscriptions) - {ChannelName(taskId)} else old(subscriptions))
    {
      if taskId !in activeConnections {
        return UnknownTask;
      }
      if ws !in activeConnections[taskId] {
        return NotRegistered;
      }
      var rest := activeConnections[taskId] - {ws};
      assert ws in activeConnections[taskId] * {ws};
      activeConnections := activeConnections[taskId := rest];
      r := Removed;
      if rest == {} {
        activeConnections := activeConnections - {taskId};
        if initialized {
          var channel := ChannelName(taskId);
          if unsubscribeOk {
            subscriptions := subscriptions - {channel};
            forall t | t in activeConnections && ChannelName(t) == channel
              ensures false
            {
              ChannelNameInjective(t, taskId);
            }
          }
        }
      }
    }

    /**
     * Removes the failed sockets `failed` of task `taskId`, each by
     * `disconnect` and only while it is still registered; `gone` is the set
     * of them.
     */
    method RemoveFailed(taskId: string, failed: seq<Conn>, ghost gone: set<Conn>, unsubscribeOk: bool)
      requires Valid()
      requires taskId in activeConnections && gone <= activeConnections[taskId]
      requires forall c :: c in failed <==> c in gone
      requires Distinct(failed)
      modifies this
      ensures Valid()
      ensures initialized == old(initialized) && listening == old(listening) && socketLog == old(socketLog)
      ensures activeConnections == AfterRemoval(old(activeConnections), taskId, gone)
      ensures subscriptions == (if Empties(old(activeConnections), taskId, gone) && initialized && unsubscribeOk
                                then old(subscriptions) - {ChannelName(taskId)} else old(subscriptions))
    {
      var i := 0;
      ghost var m := activeConnections;
      ghost var done: set<Conn> := {};
      while i < |failed|
        invariant 0 <= i <= |failed|
        invariant Valid()
        invariant initialized == old(initialized) && listening == old(listening) && socketLog == old(socketLog)
        invariant forall c :: c in done <==> c in failed[..i]
        invariant done <= gone
        invariant forall j :: i <= j < |failed| ==> failed[j] !in done
        invariant activeConnections == AfterRemoval(m, taskId, done)
        invariant subscriptions == (if Empties(m, taskId, done) && initialized && unsubscribeOk
                                    then old(subscriptions) - {ChannelName(taskId)} else old(subscriptions))
      {
        var ws := failed[i];
        assert ws in m[taskId] - done;
        assert taskId in activeConnections && activeConnections[taskId] == m[taskId] - done;
        var _ := Disconnect(taskId, ws, unsubscribeOk);
        assert failed[..i + 1] == failed[..i] + [ws];
        assert (m[taskId] - done) - {ws} == m[taskId] - (done + {ws});
        done := done + {ws};
        forall j | i + 1 <= j < |failed| ensures failed[j] !in done {
          assert failed[j] != failed[i];
        }
        i := i + 1;
      }
      assert failed[..i] == failed;
      assert done == gone;
    }

    /** `send_json` of `message` to each socket of `order`, in order, whatever each send's outcome. */
    method FanOut(order: seq<Conn>, message: Json)
      modifies this`socketLog
      ensures socketLog == old(socketLog) + Sends(order, message)
      ensures activeConnections == old(activeConnections) && subscriptions == old(subscriptions)
      ensures initialized == old(initialized) && listening == old(listening)
    {
      var i := 0;
      while i < |order|
        invariant 0 <= i <= |order|
        invariant socketLog == old(socketLog) + Sends(order[..i], message)
      {
        assert order[..i + 1] == order[..i] + [order[i]];
        SendsAppend(order[..i], order[i], message);
        socketLog := socketLog + [Sent(order[i], message)];
        i := i + 1;
      }
      assert order[..i] == order;
    }

    /**
     * One pass of the listener loop over a pub/sub message on `channel` with
     * decoded payload `payload`. A message that passes `Route` and whose task
     * has a socket set is sent to every socket of a snapshot of the set, in
     * `order`; the sockets in `broken` fail their send, and each is then
     * disconnected. Anything else is dropped.
     */
    method Relay(channel: string, payload: Option<Json>, broken: set<Conn>, unsubscribeOk: bool)
      returns (delivered: Option<Json>, order: seq<Conn>)
      requires Valid()
      modifies this
      ensures Valid()
      ensures initialized == old(initialized) && listening == old(listening)
      ensures delivered == (if TaskIdFromChannel(channel) in old(activeConnections) then Route(channel, payload) else None)
      ensures delivered.None? ==>
        activeConnections == old(activeConnections) && subscriptions == old(subscriptions) &&
        socketLog == old(socketLog) && order == []
      ensures delivered.Some? ==>
        var taskId := TaskIdFromChannel(channel);
        && (forall c :: c in order <==> c in old(activeConnections)[taskId])
        && |order| == |old(activeConnections)[taskId]|
        && socketLog == old(socketLog) + Sends(order, delivered.value)
        && activeConnections == AfterRemoval(old(activeConnections), taskId, broken)
        && subscriptions == (if Empties(old(activeConnections), taskId, broken) && initialized && unsubscribeOk
                             then old(subscriptions) - {ChannelName(taskId)} else old(subscriptions))
    {
      order := [];
      var message := Route(channel, payload);
      if message.None? {
        return None, [];
      }
      var taskId := TaskIdFromChannel(channel);
      if taskId !in activeConnections {
        return None, [];
      }
      var sockets := activeConnections[taskId];
      order := Snapshot(sockets);
      FanOut(order, message.value);
      var failed := Failures(order, broken);
      FailuresDistinct(order, broken);
      RemoveFailed(taskId, failed, sockets * broken, unsubscribeOk);
      assert Valid();
      BrokenOfSnapshot(old(activeConnections), taskId, broken);
      delivered := message;
    }

    /**
     * The listener's recovery from a pub/sub connection error: with a client,
     * open a fresh pub/sub connection and subscribe the channel of every
     * tracked task id, in `order`; a subscription that fails ends the
     * listener. Without a client the listener stops.
     */
    method Reconnect(subscribeOk: string -> bool) returns (order: seq<string>)
      requires Valid()
      modifies this
      ensures Valid()
      ensures activeConnections == old(activeConnections) && initialized == old(initialized)
      ensures socketLog == old(socketLog)
      ensures initialized ==> (forall t :: t in order <==> t in activeConnections) && |order| == |activeConnections|
      ensures initialized ==> subscriptions <= set t | t in activeConnections :: ChannelName(t)
      ensures initialized && (forall t :: t in activeConnections ==> subscribeOk(ChannelName(t))) ==>
        subscriptions == set t | t in activeConnections :: ChannelName(t)
      ensures listening == (old(listening) && initialized && forall t :: t in activeConnections ==> subscribeOk(ChannelName(t)))
      ensures initialized ==> exists i :: StoppedAt(order, subscribeOk, subscriptions, i)
      ensures !initialized ==> subscriptions == old(subscriptions)
    {
      order := [];
      if !initialized {
        listening := false;
        return;
      }
      order := Keys(activeConnections);
      var subscribed, ok := SubscribeEach(order, subscribeOk);
      subscriptions := subscribed;
      if !ok {
        listening := false;
      }
    }

    /**
     * `send_message_via_redis`: without a client nothing is published;
     * otherwise the `{task_id, message}` envelope goes to the task's channel,
     * unless the publish fails, which is only logged. What the listener then
     * does with a published envelope is `Route`'s verdict on it.
     */
    method SendMessageViaRedis(content: map<string, Json>, taskId: string, publishOk: bool)
      returns (published: Option<Publication>)
      ensures published.Some? <==> initialized && publishOk
      ensures published.Some? ==> published.value == Publication(ChannelName(taskId), Envelope(taskId, content))
      ensures published.Some? && ':' !in taskId ==>
        && TaskIdFromChannel(published.value.channel) == taskId
        && Route(published.value.channel, Some(published.value.payload)) ==
             (if content != map[] then Some(JObject(content)) else None)
    {
      if !initialized {
        return None;
      }
      var channel := ChannelName(taskId);
      var payload := Envelope(taskId, content);
      if !publishOk {
        return None;
      }
      published := Some(Publication(channel, payload));
      if ':' !in taskId {
        ChannelRoundTrip(taskId);
        EnvelopeRoundTrip(taskId, content);
      }
    }
  }

  /** `list(d.keys())`: the keys of a map, each once, in some order. */
  method Keys(m: map<string, set<Conn>>) returns (order: seq<string>)
    ensures forall t :: t in order <==> t in m
    ensures forall i, j :: 0 <= i < j < |order| ==> order[i] != order[j]
    ensures |order| == |m|
  {
    order := [];
    var rest := m.Keys;
    while rest != {}
      invariant rest <= m.Keys
      invariant forall t :: t in order <==> t in m && t !in rest
      invariant forall i, j :: 0 <= i < j < |order| ==> order[i] != order[j]
      invariant |order| + |rest| == |m|
      decreases |rest|
    {
      var t :| t in rest;
      order := order + [t];
      rest := rest - {t};
    }
  }

  /**
   * The channels `subscribed` are those of the first `i` task ids of `order`,
   * each of which subscribed, and the next task id, if there is one, failed.
   */
  ghost predicate StoppedAt(order: seq<string>, subscribeOk: string -> bool, subscribed: set<string>, i: nat)
  {
    && i <= |order|
    && subscribed == (set j | 0 <= j < i :: ChannelName(order[j]))
    && (forall j :: 0 <= j < i ==> subscribeOk(ChannelName(order[j])))
    && (i < |order| ==> !subscribeOk(ChannelName(order[i])))
  }

  /**
   * Subscribe, in `order`, the channel of each task id, stopping at the first
   * subscription that fails: the channels subscribed, and whether all were.
   */
  method SubscribeEach(order: seq<string>, subscribeOk: string -> bool) returns (subscribed: set<string>, ok: bool)
    ensures ok <==> forall j :: 0 <= j < |order| ==> subscribeOk(ChannelName(order[j]))
    ensures exists i :: StoppedAt(order, subscribeOk, subscribed, i)
    ensures subscribed <= set t | t in order :: ChannelName(t)
    ensures ok ==> subscribed == set t | t in order :: ChannelName(t)
  {
    subscribed := {};
    var i := 0;
    while i < |order|
      invariant 0 <= i <= |order|
      invariant subscribed == set j | 0 <= j < i :: ChannelName(order[j])
      invariant forall j :: 0 <= j < i ==> subscribeOk(ChannelName(order[j]))
    {
      var channel := ChannelName(order[i]);
      if !subscribeOk(channel) {
        ok := false;
        assert StoppedAt(order, subscribeOk, subscribed, i);
        return;
      }
      subscribed := subscribed + {channel};
      i := i + 1;
    }
    ok := true;
    assert StoppedAt(order, subscribeOk, subscribed, i);
    forall c | c in set t | t in order :: ChannelName(t)
      ensures c in subscribed
    {
      var t :| t in order && c == ChannelName(t);
      var j :| 0 <= j < |order| && order[j] == t;
    }
  }
}
