/** What travels between the sender and the receivers of a reliable multicast group. */
module RmpWire {

  import opened Bytes

  /** The application payload of one data datagram. */
  type Packet = seq<byte>

  datatype Datagram =
    | Data(seqNo: nat, payload: Packet)
    | Heartbeat(latest: nat, oldest: nat)
    | Nak(begin: nat, end: nat, id: nat)
    | Ack(ackNo: nat, id: nat)

  datatype Code = Suc | NoSpace | OdataReady
}
