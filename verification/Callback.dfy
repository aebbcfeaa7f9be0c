/** What the protocol engine and its application callback tell each other. */
module Callback {
  import opened Machine

  /** Why the callback is called. */
  datatype AppFlags = AppFlags(
    acked: bool, newdata: bool, rexmit: bool, poll: bool, closed: bool, connected: bool, timedout: bool, aborted: bool)

  const NONE: AppFlags := AppFlags(false, false, false, false, false, false, false, false)

  /** What the callback did to the flow of incoming data. */
  datatype Flow = Keep | Halt | Resume

  datatype Verdict = GoOn | Shut | Abort

  /** `newdata` asks for an acknowledgement to go out; `data` is what the callback wants sent. */
  datatype Answer = Answer(flow: Flow, newdata: bool, verdict: Verdict, data: seq<byte>)
}
