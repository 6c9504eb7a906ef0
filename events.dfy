/**
 * What the patchers publish and what they call: payload values, the opaque host
 * entry points, and the effects recorded in order on the host's trace.
 */
module Events {

  /** A value carried by a payload field or held by a gesture attribute. */
  datatype Value =
    | Str(s: string)
    | Int(i: int)
    | Bool(b: bool)
    | StrList(items: seq<string>)
    | Opaque(token: nat)  // any other object: speech sequences, priorities, displays, scripts, ...
  {
    /** Python's `isinstance(v, (int, str, bool))`. */
    predicate IsScalar() {
      Str? || Int? || Bool?
    }
  }

  /** The keyword arguments of one `callCallbacks` call. */
  type Payload = map<string, Value>

  /**
   * A function the host can be made to call: one of its own entry points (an
   * opaque token), or the bound replacement method of a speech patcher.
   */
  datatype Callable =
    | Native(token: nat)
    | SpeakOf(owner: object)
    | PauseSpeechOf(owner: object)

  /** One observable step: an event handed to the subscribers, or a call into a host function. */
  datatype Effect =
    | Published(topic: string, payload: Payload)
    | Invoked(target: Callable, args: seq<Value>)

  const SetDisplayTopic: string := "set_display"
  const SpeakTopic: string := "speak"
  const PauseSpeechTopic: string := "pause_speech"
  const BrailleInputTopic: string := "braille_input"
}
