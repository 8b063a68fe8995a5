/**
 The records the pipeline passes along. JSON decoding, field validation and the
 revert phrases are not modelled: a payload already says what they made of it.
 */
module Events {
  import opened Common

  datatype CleanEvent = CleanEvent(
    eventId: string,
    wiki: string,
    title: string,
    kind: string,
    user: string,
    bot: bool,
    isRevert: bool,
    timeMs: int,
    logType: Option<string>,
    logAction: Option<string>,
    details: string)

  function PageKey(e: CleanEvent): string {
    e.wiki + ":" + e.title
  }

  /**
   A raw value: not a JSON object, a heartbeat, an object clean_event refuses, or a
   good event. The middle two may still carry a usable meta.id.
   */
  datatype Payload = Garbage | Canary(id: Option<string>) | Invalid(id: Option<string>) | Valid(event: CleanEvent)

  /** The id parse_raw and event_id_of find in a raw value. */
  function IdIn(p: Payload): Option<string> {
    match p
    case Garbage => None
    case Canary(id) => id
    case Invalid(id) => id
    case Valid(e) => Some(e.eventId)
  }

  datatype RawRecord = RawRecord(payload: Payload, timestamp: int)

  type RawLog = seq<RawRecord>
}

