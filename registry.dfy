/**
 * The peer registry of `network/server.rs`: the accept loop keeps a map
 * from each remote address to its peer, and every peer carries a shared
 * `listening` flag that its own task clears when it stops. The loop body
 * inserts a newly accepted peer (retiring any older one at the same
 * address) and drops every entry whose flag is clear, after each accept and
 * on a periodic timer.
 */
module Registry {
  import opened Wire
  import opened Ledger
  import opened Sessions
  import opened Handlers
  import opened Connection

  /** `SocketAddr`: an IP address and a port. */
  datatype SocketAddr = SocketAddr(ip: seq<u8>, port: u16)

  /** `Peer`: the address, the advisory flag, the outbound channel and the connection serving it. */
  class Peer {
    var listening: bool
    const addr: SocketAddr
    const sender: Sender
    const handler: BankConnection

    /** `Peer::new`: a peer starts listening, with a fresh unbounded channel. */
    constructor (addr: SocketAddr, handler: BankConnection)
      ensures listening && this.addr == addr && this.handler == handler && fresh(sender) && sender.sent == []
    {
      listening := true;
      this.addr := addr;
      this.handler := handler;
      sender := new Sender();
    }
  }

  /** `retain(|_, p| p.listening)` as a value: the entries whose peer is listening now. */
  function Live(m: map<SocketAddr, Peer>): (r: map<SocketAddr, Peer>)
    reads m.Values
    ensures forall a :: a in r <==> a in m && m[a].listening
    ensures forall a :: a in r ==> r[a] == m[a]
  {
    map a | a in m && m[a].listening :: m[a]
  }

  /** Retaining twice removes nothing more than retaining once. */
  lemma LiveIdempotent(m: map<SocketAddr, Peer>)
    ensures Live(Live(m)) == Live(m)
  {
    var once := Live(m);
    assert forall a :: a in Live(once) <==> a in once;
  }

  /** One wake-up of the accept loop's `select!`. */
  datatype Event = Accepted(addr: SocketAddr) | AcceptFailed | Timer

  class Server {
    var peers: map<SocketAddr, Peer>
    const bank: Store

    /** Each entry is keyed by its own peer's address, so no peer sits under two keys. */
    ghost predicate Valid()
      reads this, peers.Values
    {
      forall a :: a in peers ==> peers[a].addr == a
    }

    /** All entries are listening. */
    ghost predicate AllListening()
      reads this, peers.Values
    {
      forall a :: a in peers ==> peers[a].listening
    }

    constructor (bank: Store)
      ensures peers == map[] && this.bank == bank && Valid()
    {
      peers := map[];
      this.bank := bank;
    }

    /** `write.retain(|_, p| p.listening.load(..))`: one pass over the entries, keeping the listening ones. */
    method Retain()
      modifies this
      ensures peers == Live(old(peers))
    {
      var kept: map<SocketAddr, Peer> := map[];
      var todo := peers.Keys;
      while todo != {}
        invariant todo <= peers.Keys
        invariant forall a :: a in kept <==> a in peers && a !in todo && peers[a].listening
        invariant forall a :: a in kept ==> kept[a] == peers[a]
        decreases |todo|
      {
        var a :| a in todo;
        if peers[a].listening {
          kept := kept[a := peers[a]];
        }
        todo := todo - {a};
      }
      assert kept == Live(peers);
      peers := kept;
    }

    /**
     * An accepted connection: a new peer, served by a fresh `BankConnection`,
     * replaces any older peer at the same address, whose flag is cleared;
     * then the non-listening entries are dropped.
     */
    method Accept(addr: SocketAddr) returns (peer: Peer)
      requires Valid()
      modifies this, if addr in peers then {peers[addr]} else {}
      ensures Valid() && AllListening()
      ensures fresh(peer) && peer.addr == addr && peer.listening && peer.handler.Current() == Unauth
      ensures addr in peers && peers[addr] == peer
      ensures addr in old(peers) ==> !old(peers)[addr].listening
      ensures peers == Live(old(peers)[addr := peer])
      ensures forall a :: a in old(peers) && a != addr ==> old(peers)[a].listening == old(peers[a].listening)
    {
      var connection := Generate(bank);
      peer := new Peer(addr, connection);
      if addr in peers {
        var evicted := peers[addr];
        peers := peers[addr := peer];
        evicted.listening := false;
      } else {
        peers := peers[addr := peer];
      }
      Retain();
    }

    /** The timer branch: drop the non-listening entries, insert nothing. */
    method Sweep()
      requires Valid()
      modifies this
      ensures Valid() && AllListening()
      ensures peers == Live(old(peers))
      ensures peers.Keys <= old(peers).Keys
    {
      Retain();
    }

    /** One iteration of the `while running` loop. */
    method HandleEvent(e: Event) returns (peer: Option<Peer>)
      requires Valid()
      modifies this, if e.Accepted? && e.addr in peers then {peers[e.addr]} else {}
      ensures Valid()
      ensures e.AcceptFailed? ==> peers == old(peers) && peer.None?
      ensures e.Timer? ==> peers == Live(old(peers)) && peer.None?
      ensures e.Accepted? ==>
        && peer.Some? && fresh(peer.value) && peers == Live(old(peers)[e.addr := peer.value])
        && e.addr in peers && peers[e.addr] == peer.value
    {
      match e
      case Accepted(addr) =>
        var p := Accept(addr);
        peer := Some(p);
      case AcceptFailed =>
        peer := None;
      case Timer =>
        Sweep();
        peer := None;
    }
  }

  /** A sweep right after a sweep, with no flag cleared in between, removes nothing. */
  lemma SweepIdempotent(m: map<SocketAddr, Peer>)
    requires forall a :: a in m ==> m[a].listening
    ensures Live(m) == m
  {
  }
}
