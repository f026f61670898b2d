/** JSON values as the message parser delivers them. The parser itself is not modelled. */
module Json {

  datatype Value =
    | Null
    | Bool(b: bool)
    | Num(n: real)
    | Str(s: string)
    | Arr(items: seq<Value>)
    | Obj(fields: map<string, Value>)
}

/** The UDP listener's packet router: which registered callbacks a received packet reaches,
    in which order, and with which message. */
module Listener {
  import opened Json
  import opened Outcome

  /** A received datagram after JSON decoding: undecodable, or an object. */
  datatype Packet = Unparseable | Parsed(fields: map<string, Value>)

  /** Which of the four callbacks are registered (not None). */
  datatype Callbacks = Callbacks(generic: bool, summary: bool, gps: bool, bearing: bool)

  datatype Target = Generic | Summary | Gps | Bearing

  /** One callback invocation and the message it is handed. */
  datatype Call = Call(target: Target, message: map<string, Value>)

  /** The packet's "type" field names the given message type. */
  predicate IsType(t: Value, name: string)
  {
    t == Str(name)
  }

  /** Telemetry carrying a time string has it copied into "time". */
  function WithTime(fields: map<string, Value>): (m: map<string, Value>)
    ensures "time_string" in fields ==> m.Keys == fields.Keys + {"time"} && m["time"] == fields["time_string"]
    ensures "time_string" !in fields ==> m == fields
    ensures forall k :: k in fields && k != "time" ==> k in m && m[k] == fields[k]
  {
    if "time_string" in fields then fields["time" := fields["time_string"]] else fields
  }

  /** The chain of type tests after the generic callback, in the order written. Only the
      telemetry test changes the message, and it does so whether or not a callback is set. */
  function TypedCalls(cbs: Callbacks, fields: map<string, Value>): (calls: seq<Call>)
    requires "type" in fields
    ensures |calls| <= 1
    ensures forall c :: c in calls ==> c.target != Generic && Registered(cbs, c.target)
    ensures forall c :: c in calls ==> c.message.Keys >= fields.Keys
  {
    var t := fields["type"];
    var first := if IsType(t, "PAYLOAD_SUMMARY") && cbs.summary then [Call(Summary, fields)] else [];
    var m := if IsType(t, "PAYLOAD_TELEMETRY") then WithTime(fields) else fields;
    var second := if IsType(t, "PAYLOAD_TELEMETRY") && cbs.summary then [Call(Summary, m)] else [];
    var gps := if IsType(t, "GPS") && cbs.gps then [Call(Gps, m)] else [];
    var bearing := if IsType(t, "BEARING") && cbs.bearing then [Call(Bearing, m)] else [];
    var modem := if IsType(t, "MODEM_STATS") && cbs.summary then [Call(Summary, m)] else [];
    first + second + gps + bearing + modem
  }

  /** Route one packet. An unparseable packet reaches no callback (the exception is swallowed);
      a parsed one reaches the generic callback first, if registered, even without a "type"
      key, whose absence (a KeyError, swallowed) then stops all typed dispatch. At most one
      typed callback follows, and never the generic one again. */
  function HandleUdpPacket(cbs: Callbacks, p: Packet): (calls: seq<Call>)
    ensures p.Unparseable? ==> calls == []
    ensures |calls| <= 2
    ensures p.Parsed? && cbs.generic ==> |calls| >= 1 && calls[0] == Call(Generic, p.fields)
    ensures forall i :: 0 <= i < |calls| && calls[i].target == Generic ==> i == 0 && cbs.generic
    ensures p.Parsed? && "type" !in p.fields ==>
      calls == (if cbs.generic then [Call(Generic, p.fields)] else [])
  {
    match p
    case Unparseable => []
    case Parsed(fields) =>
      var generic := if cbs.generic then [Call(Generic, fields)] else [];
      if "type" !in fields then generic
      else generic + TypedCalls(cbs, fields)
  }

  /** Reference routing table: the callback each message type belongs to. */
  function Route(t: Value): Option<Target>
  {
    if t == Str("GPS") then Some(Gps)
    else if t == Str("BEARING") then Some(Bearing)
    else if t == Str("PAYLOAD_SUMMARY") || t == Str("PAYLOAD_TELEMETRY") || t == Str("MODEM_STATS") then Some(Summary)
    else None
  }

  function Registered(cbs: Callbacks, target: Target): bool
  {
    match target
    case Generic => cbs.generic
    case Summary => cbs.summary
    case Gps => cbs.gps
    case Bearing => cbs.bearing
  }

  /** The message a typed callback receives: telemetry gets its time copied, nothing else changes. */
  function Delivered(fields: map<string, Value>): map<string, Value>
    requires "type" in fields
  {
    if fields["type"] == Str("PAYLOAD_TELEMETRY") then WithTime(fields) else fields
  }

  /** The chain of tests agrees with the routing table: a packet with a type reaches the
      generic callback (if registered) and then exactly the registered callback the table
      names for its type, or none for a type the table does not know. */
  lemma RouterFollowsTable(cbs: Callbacks, fields: map<string, Value>)
    requires "type" in fields
    ensures HandleUdpPacket(cbs, Parsed(fields)) ==
      (if cbs.generic then [Call(Generic, fields)] else []) +
      (match Route(fields["type"])
       case Some(target) => if Registered(cbs, target) then [Call(target, Delivered(fields))] else []
       case None => [])
  {
  }
}
