/** The UDP responders: every datagram is answered with the responder's fixed reply. */
module Udp {
  import opened Bytes
  import opened Registry

  /** A datagram to send: its payload and its destination. */
  datatype Datagram = Datagram(payload: Bytes, dest: Peer)

  /** `datagram_received`: the reply to one datagram goes back to its sender; its content is ignored. */
  function DatagramReply(reply: Bytes, data: Bytes, sender: Peer): (d: Datagram)
    ensures d.payload == reply && d.dest == sender
  {
    Datagram(reply, sender)
  }

  /** The datagrams a responder sends for a sequence of received (payload, sender) pairs. */
  function Replies(reply: Bytes, received: seq<(Bytes, Peer)>): (sent: seq<Datagram>)
    ensures |sent| == |received|
  {
    if received == [] then []
    else [DatagramReply(reply, received[0].0, received[0].1)] + Replies(reply, received[1..])
  }

  /**
   * One reply per datagram, in order, each carrying exactly the configured
   * reply and addressed to that datagram's sender, whatever it contained.
   */
  lemma {:induction false} RepliesOnePerDatagram(reply: Bytes, received: seq<(Bytes, Peer)>)
    ensures |Replies(reply, received)| == |received|
    ensures forall k :: 0 <= k < |received| ==>
              Replies(reply, received)[k] == Datagram(reply, received[k].1)
  {
    if received != [] {
      RepliesOnePerDatagram(reply, received[1..]);
    }
  }

  /** Two senders who send different payloads get the same reply bytes. */
  lemma ReplyIgnoresContent(reply: Bytes, a: Bytes, b: Bytes, sender: Peer)
    ensures DatagramReply(reply, a, sender) == DatagramReply(reply, b, sender)
  {
  }
}
