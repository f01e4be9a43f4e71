/** The message envelope exchanged through the bus. */
module Messages {

  /** A message: its kind, its text payload and, for inbound messages, the
      transport-assigned id of its sender. */
  datatype Message = Message(kind: int, payload: string, sender: int)
}
