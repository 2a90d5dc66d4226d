/**
 * The pure half of the WebSocket relay: the pub/sub channel name of a task,
 * the task id the listener reads back from a channel name, the envelope that
 * `send_message_via_redis` publishes, and the listener's check that decides
 * whether a pub/sub message is forwarded to the task's sockets.
 *
 * Payloads are decoded JSON values; a payload that is not valid UTF-8 or not
 * valid JSON is `None`.
 */
module Relay {

  import opened Wrappers

  /** A decoded JSON value (numbers are integers here). */
  datatype Json =
    | JNull
    | JBool(b: bool)
    | JInt(n: int)
    | JString(s: string)
    | JArray(items: seq<Json>)
    | JObject(fields: map<string, Json>)

  /** Python truthiness of the decoded value: `None`, `False`, `0`, `""`, `[]` and `{}` are false. */
  predicate Truthy(j: Json)
  {
    match j
    case JNull => false
    case JBool(b) => b
    case JInt(n) => n != 0
    case JString(s) => s != ""
    case JArray(items) => items != []
    case JObject(fields) => fields != map[]
  }

  /** `dict.get(key)`: the value under `key`, or `None` (JSON null) when it is missing. */
  function Get(fields: map<string, Json>, key: string): Json
  {
    if key in fields then fields[key] else JNull
  }

  /** `_get_channel_name`: the pub/sub channel of a task. */
  function ChannelName(taskId: string): string
  {
    "ws:" + taskId
  }

  /**
   * `s.split(':')[-1]`: the longest suffix of `s` without a colon. It is all
   * of `s` when `s` has no colon, and otherwise starts right after the last one.
   */
  function LastSegment(s: string): (r: string)
    ensures |r| <= |s| && r == s[|s| - |r|..]
    ensures ':' !in r
    ensures |r| < |s| ==> s[|s| - |r| - 1] == ':'
  {
    if s == [] then []
    else if s[|s| - 1] == ':' then []
    else LastSegment(s[..|s| - 1]) + [s[|s| - 1]]
  }

  /** The task id the listener derives from a channel name. */
  function TaskIdFromChannel(channel: string): string
  {
    LastSegment(channel)
  }

  /**
   * The listener's routing of one pub/sub message: the client message to
   * forward to the sockets of `TaskIdFromChannel(channel)`, or `None` when the
   * message is dropped.
   */
  function Route(channel: string, payload: Option<Json>): Option<Json>
  {
    match payload
    case None => None
    case Some(j) =>
      if !j.JObject? then None
      else
        var message := Get(j.fields, "message");
        var taskId := Get(j.fields, "task_id");
        if !Truthy(message) || taskId != JString(TaskIdFromChannel(channel)) then None
        else Some(message)
  }

  /** The `{task_id, message}` payload `send_message_via_redis` publishes. */
  function Envelope(taskId: string, content: map<string, Json>): Json
  {
    JObject(map["task_id" := JString(taskId), "message" := JObject(content)])
  }

  // ---------------------------------------------------------------------------
  // Properties

  /** The listener reads back the task id of a channel whenever the id has no colon. */
  lemma ChannelRoundTrip(taskId: string)
    requires ':' !in taskId
    ensures TaskIdFromChannel(ChannelName(taskId)) == taskId
  {
    var c := ChannelName(taskId);
    assert c[|c| - |taskId|..] == taskId;
  }

  /** Different tasks have different channels. */
  lemma ChannelNameInjective(t: string, u: string)
    requires ChannelName(t) == ChannelName(u)
    ensures t == u
  {
    assert t == ChannelName(t)[3..] && u == ChannelName(u)[3..];
  }

  /** A task id with a colon is read back as its last segment only. */
  lemma ColonTaskIdReadBackShort()
    ensures TaskIdFromChannel(ChannelName("a:b")) == "b"
  {
    assert ChannelName("a:b") == "ws:a:b";
    assert "ws:a:b"[..5] == "ws:a:";
    assert LastSegment("ws:a:") == [];
  }

  /**
   * A message published by `send_message_via_redis` on the task's own channel
   * passes the listener's check exactly when its content is non-empty, and it
   * is then forwarded unchanged.
   */
  lemma EnvelopeRoundTrip(taskId: string, content: map<string, Json>)
    requires ':' !in taskId
    ensures Route(ChannelName(taskId), Some(Envelope(taskId, content))) ==
      if content != map[] then Some(JObject(content)) else None
  {
    ChannelRoundTrip(taskId);
    var fields := Envelope(taskId, content).fields;
    assert Get(fields, "message") == JObject(content);
    assert Get(fields, "task_id") == JString(taskId);
  }

  /**
   * A message forwarded on the channel of a task id without a colon carries a
   * `task_id` field naming exactly that task and a truthy `message` field, and
   * the message forwarded is that field.
   */
  lemma RoutedNamesOwnTask(taskId: string, payload: Option<Json>)
    requires ':' !in taskId
    requires Route(ChannelName(taskId), payload).Some?
    ensures payload.Some? && payload.value.JObject?
    ensures "task_id" in payload.value.fields && payload.value.fields["task_id"] == JString(taskId)
    ensures "message" in payload.value.fields && Truthy(payload.value.fields["message"])
    ensures Route(ChannelName(taskId), payload) == Some(payload.value.fields["message"])
  {
    ChannelRoundTrip(taskId);
  }

  /** An envelope for a task id with a colon is dropped, whatever its content. */
  lemma ColonTaskIdDropped(content: map<string, Json>)
    ensures Route(ChannelName("a:b"), Some(Envelope("a:b", content))) == None
  {
    ColonTaskIdReadBackShort();
    assert Get(Envelope("a:b", content).fields, "task_id") == JString("a:b");
  }
}
