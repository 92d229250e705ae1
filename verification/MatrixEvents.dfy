/** The parts of a sync response that the client looks at. */
module MatrixEvents {
  import opened Prelude

  datatype Json =
    | JNull | JBool(b: bool) | JInt(n: int) | JReal | JStr(s: string) | JArray | JObject(fields: map<string, Json>)
  {
    function Get(key: string): Option<Json> {
      if JObject? && key in fields then Some(fields[key]) else None
    }

    function AsStr(): Option<string> {
      if JStr? then Some(s) else None
    }

    /** An integer that fits into 64 bits without a sign. */
    function AsU64(): Option<nat> {
      if JInt? && 0 <= n < 0x1_0000_0000_0000_0000 then Some(n) else None
    }

    function GetStr(key: string): Option<string> {
      match Get(key) { case Some(j) => j.AsStr() case None => None }
    }
  }

  datatype Event = Event(sender: string, eventId: string, etype: string, stateKey: Option<string>, content: Json,
                         transactionId: Option<string>)

  datatype RoomSync = RoomSync(timeline: seq<Event>, state: seq<Event>)

  datatype SyncResponse = SyncResponse(nextBatch: string, join: map<string, RoomSync>)

  /** Every state event says what it is the state of; the client gives up on a server that sends another kind. */
  predicate ValidSync(sync: RoomSync) {
    AllState(sync.state)
  }

  predicate IsState(ev: Event) {
    ev.stateKey.Some?
  }

  predicate AllState(events: seq<Event>) {
    forall i :: 0 <= i < |events| ==> IsState(events[i])
  }

  /** The state changes of a sync, in the order in which they happened: the state, then the state in the timeline. */
  function StateEvents(sync: RoomSync): (events: seq<Event>)
    requires ValidSync(sync)
    ensures AllState(events)
  {
    sync.state + Filter(IsState, sync.timeline)
  }
}
