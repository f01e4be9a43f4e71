/** The fixed enumeration of participant kinds and the text each one is known by
    on the wire (heartbeat payloads carry this text). */
module ParticipantTypes {
  import opened Wrappers

  datatype ParticipantType =
    | HumiditySensor
    | HumidityController
    | TemperatureSensor
    | TemperatureController

  const AllTypes: set<ParticipantType> :=
    {HumiditySensor, HumidityController, TemperatureSensor, TemperatureController}

  /** The text of a participant type (its `toString`). */
  function Text(t: ParticipantType): string {
    match t
    case HumiditySensor => "humidity_sensor"
    case HumidityController => "humidity_controller"
    case TemperatureSensor => "temperature_sensor"
    case TemperatureController => "temperature_controller"
  }

  /** Parses a heartbeat payload (`toPartipantType`); `None` stands for the
      null the source returns for a text that names no type. */
  function Parse(s: string): (r: Option<ParticipantType>)
    ensures r.Some? ==> Text(r.value) == s
    ensures r.None? ==> forall t :: Text(t) != s
  {
    if s == Text(HumidityController) then Some(HumidityController)
    else if s == Text(HumiditySensor) then Some(HumiditySensor)
    else if s == Text(TemperatureController) then Some(TemperatureController)
    else if s == Text(TemperatureSensor) then Some(TemperatureSensor)
    else None
  }

  /** Every type is one of the four constants. */
  lemma AllTypesComplete()
    ensures forall t: ParticipantType :: t in AllTypes
  {
    forall t: ParticipantType
      ensures t in AllTypes
    {
      match t
      case HumiditySensor =>
      case HumidityController =>
      case TemperatureSensor =>
      case TemperatureController =>
    }
  }

  /** The four texts are pairwise distinct, so `Text` is injective. */
  lemma TextInjective(a: ParticipantType, b: ParticipantType)
    ensures Text(a) == Text(b) ==> a == b
  {
  }

  /** Parsing is the partial inverse of `Text`: the result is the type whose
      text is `s` if there is one, and nothing otherwise. */
  lemma ParseSpec(s: string)
    ensures forall t :: Parse(s) == Some(t) <==> Text(t) == s
    ensures Parse(s) == None <==> forall t :: Text(t) != s
  {
  }

  /** Printing a type and parsing the text gives the type back. */
  lemma ParseText(t: ParticipantType)
    ensures Parse(Text(t)) == Some(t)
  {
  }
}
