/**
 * What the client's bank screens share: the account snapshot the screens
 * carry (`index::User`), the main screen (`Index`), the outcome of a button
 * press, and the peer's outbound channel the presses send on.
 */
module ClientBank {
  import opened Wire
  import ClientExt

  /** `index::User`: the snapshot the server last sent in a `menu` packet. */
  datatype User = User(id: u32, balance: u32, name: Bytes, phone: Bytes)

  /** `Index`: the main screen, showing one user. */
  datatype Index = Index(user: User)

  /** A button press: a packet to send, an error box to show, or nothing at all. */
  datatype Outcome = Send(packet: Bytes) | Complain(msg: Bytes) | Nothing

  /** The client peer's outbound channel: every packet handed to it, in order. */
  class Outbox {
    var sent: seq<Bytes>

    constructor ()
      ensures sent == []
    {
      sent := [];
    }

    /** `peer.sender.send(NetworkMessage::Rely(data))`. */
    method Send(data: Bytes)
      modifies this
      ensures sent == old(sent) + [data]
    {
      sent := sent + [data];
    }
  }

  /** What a press leaves in the outbox. */
  function SentBy(o: Outcome): (r: seq<Bytes>)
    ensures |r| <= 1 && (r != [] <==> o.Send?)
  {
    if o.Send? then [o.packet] else []
  }

  /** What a press shows in an error box. */
  function ShownBy(o: Outcome): (r: Option<Bytes>)
    ensures r.Some? <==> o.Complain?
  {
    if o.Complain? then Some(o.msg) else None
  }

  /** The history button of the main screen: the header and opcode 3, nothing else. */
  function HistoryRequest(): (r: Bytes)
    ensures |r| == 9 && r[..8] == Header() && r[8] == 3
  {
    Header() + [3]
  }

  method HistoryClick(out: Outbox)
    modifies out
    ensures out.sent == old(out.sent) + [HistoryRequest()]
  {
    var p := new ClientExt.Packet();
    p.AddHeader();
    p.PutU8(3);
    assert p.data == HistoryRequest();
    out.Send(p.data);
  }
}
