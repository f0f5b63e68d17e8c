/**
 The lines of the day's record. Writers append them; the status report and the
 transcript read them back. A line carries the fields of both families, and the
 key that is set (uid or seat) says which family it belongs to.
 */
module Events {
  import opened Basics

  /** What one try of a bell came to; Word stands for any other text, "" included. */
  datatype Result = Rang | Refused | Suppressed | Failed | Held | Word(text: string)

  const NO_RESULT := Word("")

  datatype Status =
    | Sent | SendFailed | ReadBy
    | BellTry | BellGaveUp | BellFailed | QueueDeleted
    | Unknown(text: string)

  /** ts is the stamp in seconds, or None when it does not parse. */
  datatype Event = Event(
    uid: string, seat: string, status: Status, ts: Option<nat>,
    from: string, to: string, body: string, reader: string, reason: string,
    tryNo: nat, of: nat, result: Result,
    after: nat, rang: nat, last: Result)

  const BLANK := Event("", "", Unknown(""), None, "", "", "", "", "", 0, 0, NO_RESULT, 0, 0, NO_RESULT)

  function BellTryLine(seat: string, tryNo: nat, of: nat, result: Result, reason: string, at: nat): Event {
    BLANK.(seat := seat, status := BellTry, ts := Some(at), tryNo := tryNo, of := of,
           result := result, reason := reason)
  }

  function BellGaveUpLine(seat: string, after: nat, rang: nat, last: Result, at: nat): Event {
    BLANK.(seat := seat, status := BellGaveUp, ts := Some(at), after := after, rang := rang, last := last)
  }

  function SentLine(uid: string, from: string, to: string, body: string, at: nat): Event {
    BLANK.(uid := uid, status := Sent, ts := Some(at), from := from, to := to, body := body)
  }

  /** A refused message's line carries the reason and no body. */
  function FailedLine(uid: string, from: string, to: string, reason: string, at: nat): Event {
    BLANK.(uid := uid, status := SendFailed, ts := Some(at), from := from, to := to, reason := reason)
  }

  function ReadLine(uid: string, reader: string, at: nat): Event {
    BLANK.(uid := uid, status := ReadBy, ts := Some(at), reader := reader)
  }

  function QueueDeletedLine(seat: string, reason: string, at: nat): Event {
    BLANK.(seat := seat, status := QueueDeleted, ts := Some(at), reason := reason)
  }
}
