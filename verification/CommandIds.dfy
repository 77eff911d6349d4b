/** Command identifiers, shared by the SwiftPaxos and Fast Paxos models. */
module CommandIds {
  type Int32 = i: int | -0x8000_0000 <= i < 0x8000_0000

  // The client's number and the client's own count of its commands.
  datatype CommandId = CommandId(client: Int32, seqnum: Int32)
}
