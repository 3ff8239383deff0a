/** The state of one HTTP client, the ownership of its packets, and its calls on the network and the packet pool. */
module HttpClient {
  import opened Bytes
  import opened Packets

  datatype Status =
    | NX_SUCCESS
    | NX_WEB_HTTP_GET_DONE
    | NX_NOT_FOUND
    | NX_INVALID_PACKET
    | NX_NOT_CONNECTED
    | NX_WEB_HTTP_ERROR
    | NX_WEB_HTTP_BAD_PACKET_LENGTH
    | NX_WEB_HTTP_REQUEST_UNSUCCESSFUL_CODE
    | StatusCode(code: nat)

  /** The status codes, by their three digits. */
  const STATUS_MAPS: map<seq<Byte>, nat> := map[
    [50, 48, 48] := 0, [49, 48, 48] := 0x3001A, [49, 48, 49] := 0x3001B,
    [50, 48, 49] := 0x3001C, [50, 48, 50] := 0x3001D, [50, 48, 51] := 0x3001E,
    [50, 48, 52] := 0x3001F, [50, 48, 53] := 0x30020, [50, 48, 54] := 0x30021,
    [51, 48, 48] := 0x30022, [51, 48, 49] := 0x30023, [51, 48, 50] := 0x30024,
    [51, 48, 51] := 0x30025, [51, 48, 52] := 0x30026, [51, 48, 53] := 0x30027,
    [51, 48, 55] := 0x30028, [52, 48, 48] := 0x30029, [52, 48, 49] := 0x3002A,
    [52, 48, 50] := 0x3002B, [52, 48, 51] := 0x3002C, [52, 48, 52] := 0x3002D,
    [52, 48, 53] := 0x3002E, [52, 48, 54] := 0x3002F, [52, 48, 55] := 0x30030,
    [52, 48, 56] := 0x30031, [52, 48, 57] := 0x30032, [52, 49, 48] := 0x30033,
    [52, 49, 49] := 0x30034, [52, 49, 50] := 0x30035, [52, 49, 51] := 0x30036,
    [52, 49, 52] := 0x30037, [52, 49, 53] := 0x30038, [52, 49, 54] := 0x30039,
    [52, 49, 55] := 0x3003A, [53, 48, 48] := 0x3003B, [53, 48, 49] := 0x3003C,
    [53, 48, 50] := 0x3003D, [53, 48, 51] := 0x3003E, [53, 48, 52] := 0x3003F,
    [53, 48, 53] := 0x30040
  ]

  /** The status that a code has; a code that is not known has none. */
  function StatusNumber(code: nat): int {
    if code == 200 then 0
    else if 100 <= code <= 101 then 0x3001A + code - 100
    else if 201 <= code <= 206 then 0x3001C + code - 201
    else if 300 <= code <= 305 then 0x30022 + code - 300
    else if code == 307 then 0x30028
    else if 400 <= code <= 417 then 0x30029 + code - 400
    else if 500 <= code <= 505 then 0x3003B + code - 500
    else -1
  }

  /** Exactly these codes are known, with these statuses. */
  lemma StatusTable(a: nat, b: nat, c: nat)
    requires a < 10 && b < 10 && c < 10
    ensures var digits, status := [48 + a, 48 + b, 48 + c], StatusNumber(100 * a + 10 * b + c);
      (digits in STATUS_MAPS <==> status >= 0) && (digits in STATUS_MAPS ==> STATUS_MAPS[digits] == status)
  {
    var digits := [48 + a, 48 + b, 48 + c];
    if digits in STATUS_MAPS {
      KnownStatus(a, b, c);
    } else if StatusNumber(100 * a + 10 * b + c) >= 0 {
      KnownCode(a, b, c);
    }
  }

  lemma KnownStatus(a: nat, b: nat, c: nat)
    requires a < 10 && b < 10 && c < 10 && [48 + a, 48 + b, 48 + c] in STATUS_MAPS
    ensures STATUS_MAPS[[48 + a, 48 + b, 48 + c]] == StatusNumber(100 * a + 10 * b + c)
  {
    var digits := [48 + a, 48 + b, 48 + c];
    assert digits[0] == 48 + a && digits[1] == 48 + b && digits[2] == 48 + c;
    if a == 4 {
      RequestFault(b, c);
    }
  }

  lemma RequestFault(b: nat, c: nat)
    requires b < 10 && c < 10 && [52, 48 + b, 48 + c] in STATUS_MAPS
    ensures STATUS_MAPS[[52, 48 + b, 48 + c]] == StatusNumber(400 + 10 * b + c)
  {
    var digits := [52, 48 + b, 48 + c];
    assert digits[0] == 52 && digits[1] == 48 + b && digits[2] == 48 + c;
  }

  lemma KnownCode(a: nat, b: nat, c: nat)
    requires a < 10 && b < 10 && c < 10 && StatusNumber(100 * a + 10 * b + c) >= 0
    ensures [48 + a, 48 + b, 48 + c] in STATUS_MAPS
  {
    var digits := [48 + a, 48 + b, 48 + c];
    assert a == 2 || a == 3 ==> b == 0;
    assert a == 1 || a == 5 ==> b == 0;
  }

  /** A field of a response header. */
  datatype Field = Field(name: seq<Byte>, value: seq<Byte>)

  class Client {
    var state: nat
    var connected: bool
    var keepAlive: bool
    var responseHeaderReceived: bool
    var responseChunked: bool
    var totalReceiveBytes: nat
    var actualBytesReceived: nat
    var remainingSize: nat         // unread bytes of the held chain
    var responsePacket: Packet?    // head of the held chain

    var responseCallback: bool     // whether the application asked for header fields
    var reported: seq<Field>       // the header fields the application was called with

    var network: seq<seq<seq<Byte>>>  // what will arrive: a list of chains, each a list of packet contents

    ghost var held: seq<Packet>    // the chain behind responsePacket
    ghost var arrived: set<Packet> // every packet received or allocated so far
    ghost var handed: set<Packet>  // those given to the caller
    ghost var released: set<Packet> // those given back to the pool

    /** A connected client without a request. */
    constructor (network: seq<seq<seq<Byte>>>)
      requires NetOk(network)
      ensures Connected(this, {}) && this.network == network && held == [] && responsePacket == null
        && remainingSize == 0
      ensures state == 1 && connected && !keepAlive && !responseHeaderReceived && !responseChunked && reported == []
    {
      state, connected, keepAlive, responseHeaderReceived, responseChunked := 1, true, false, false, false;
      totalReceiveBytes, actualBytesReceived, remainingSize, responsePacket := 0, 0, 0, null;
      responseCallback, reported := false, [];
      this.network := network;
      held, arrived, handed, released := [], {}, {}, {};
    }
  }

  /** A chain has at least one packet, and only its first one may be empty. */
  predicate NetOk(net: seq<seq<seq<Byte>>>) {
    forall i :: 0 <= i < |net| ==> net[i] != [] && forall j :: 1 <= j < |net[i]| ==> net[i][j] != []
  }

  /** All bytes that will arrive, in order. */
  function NetBytes(net: seq<seq<seq<Byte>>>): seq<Byte> {
    if net == [] then [] else Flatten(net[0]) + NetBytes(net[1..])
  }

  lemma {:induction false} NetBytesJoin(net: seq<seq<seq<Byte>>>, more: seq<seq<seq<Byte>>>)
    ensures NetBytes(net + more) == NetBytes(net) + NetBytes(more)
  {
    if net == [] {
      assert net + more == more;
    } else {
      assert (net + more)[1..] == net[1..] + more;
      NetBytesJoin(net[1..], more);
    }
  }

  lemma {:induction false} NetBytesOne(net: seq<seq<seq<Byte>>>, k: nat)
    requires k < |net|
    ensures NetBytes(net[..k + 1]) == NetBytes(net[..k]) + Flatten(net[k])
    ensures NetBytes(net[k..]) == Flatten(net[k]) + NetBytes(net[k + 1..])
  {
    var one := [net[k]];
    assert net[..k + 1] == net[..k] + one && one[1..] == [] && net[k..][1..] == net[k + 1..];
    assert NetBytes(one) == Flatten(net[k]) + NetBytes([]) == Flatten(net[k]);
    NetBytesJoin(net[..k], one);
  }

  /**
   Chains were taken from the front of the network, each of them only when it was needed: with `n` bytes left to be
   read, the last one taken was not all of them.
   */
  predicate Took(was: seq<seq<seq<Byte>>>, now: seq<seq<seq<Byte>>>, n: int) {
    && |now| <= |was| && now == was[|was| - |now|..]
    && (|now| < |was| ==> |NetBytes(was[|was| - |now| - 1..])| > n)
  }

  lemma TookNothing(net: seq<seq<seq<Byte>>>, n: int)
    ensures Took(net, net, n)
  {
  }

  lemma TookOne(net: seq<seq<seq<Byte>>>, n: int)
    requires net != [] && n < |NetBytes(net)|
    ensures Took(net, net[1..], n)
  {
    assert net[0..] == net;
  }

  lemma TookMore(a: seq<seq<seq<Byte>>>, b: seq<seq<seq<Byte>>>, c: seq<seq<seq<Byte>>>, n: int, m: int)
    requires Took(a, b, n) && Took(b, c, m) && m <= n
    ensures Took(a, c, m)
  {
    assert c == a[|a| - |c|..];
    if |c| < |b| {
      assert b[|b| - |c| - 1..] == a[|a| - |c| - 1..];
    }
  }

  /** What is still to come when no more chains are taken than must be, with `n` bytes left to be read. */
  function Untaken(net: seq<seq<seq<Byte>>>, n: nat): seq<seq<seq<Byte>>> {
    if |NetBytes(net)| <= n then net else Untaken(net[1..], n)
  }

  lemma {:induction false} TookIs(was: seq<seq<seq<Byte>>>, now: seq<seq<seq<Byte>>>, n: nat)
    requires Took(was, now, n) && |NetBytes(now)| <= n
    ensures now == Untaken(was, n)
    decreases |was|
  {
    if |now| < |was| {
      assert was[1..][|was| - 1 - |now|..] == now;
      NetBytesLess(was, |was| - |now| - 1);
      assert |now| < |was| - 1 ==> was[1..][|was| - 1 - |now| - 1..] == was[|was| - |now| - 1..];
      TookIs(was[1..], now, n);
    } else {
      assert now == was;
    }
  }

  lemma {:induction false} NetBytesLess(net: seq<seq<seq<Byte>>>, k: nat)
    requires k <= |net|
    ensures |NetBytes(net[k..])| <= |NetBytes(net)|
    decreases k
  {
    if k > 0 {
      NetBytesLess(net, k - 1);
      NetBytesOne(net, k - 1);
    } else {
      assert net[0..] == net;
    }
  }

  lemma {:induction false} UntakenAgain(net: seq<seq<seq<Byte>>>, n: nat, m: nat)
    requires m <= n
    ensures Untaken(Untaken(net, n), m) == Untaken(net, m)
  {
    if |NetBytes(net)| > n {
      UntakenAgain(net[1..], n, m);
    }
  }

  lemma {:induction false} UntakenFits(net: seq<seq<seq<Byte>>>, n: nat)
    ensures |NetBytes(Untaken(net, n))| <= n && |Untaken(net, n)| <= |net|
    ensures NetOk(net) ==> NetOk(Untaken(net, n))
  {
    if |NetBytes(net)| > n {
      UntakenFits(net[1..], n);
    }
  }

  /** Every packet that arrived is in one place: held, in the running call, with the caller, or released. */
  ghost predicate Partition(held: set<Packet>, transit: set<Packet>, handed: set<Packet>, released: set<Packet>,
      arrived: set<Packet>) {
    && held + transit + handed + released == arrived
    && held !! transit && held !! handed && held !! released
    && transit !! handed && transit !! released && handed !! released
  }

  ghost predicate Owned(c: Client, transit: set<Packet>)
    reads c`held, c`handed, c`released, c`arrived
  {
    Partition(Nodes(c.held), transit, c.handed, c.released, c.arrived)
  }

  lemma ReleaseTransit(held: set<Packet>, kept: set<Packet>, dropped: set<Packet>, handed: set<Packet>,
      released: set<Packet>, arrived: set<Packet>)
    requires Partition(held, kept + dropped, handed, released, arrived) && kept !! dropped
    ensures Partition(held, kept, handed, released + dropped, arrived)
    ensures dropped !! released + handed
  {
  }

  ghost predicate Holds(c: Client)
    reads c`responsePacket, c`held, c.held
  {
    && (c.responsePacket == null <==> c.held == [])
    && (c.held != [] ==> c.held[0] == c.responsePacket)
    && Linked(c.held)
  }

  /** What every operation on the connection keeps. */
  ghost predicate Connected(c: Client, transit: set<Packet>)
    reads c`responsePacket, c`held, c`handed, c`released, c`arrived, c`network, c.held
  {
    Holds(c) && NetOk(c.network) && Owned(c, transit)
  }

  /** The wait for a packet ends with the next chain, or with an error when the peer sends no more. */
  method Receive(c: Client) returns (status: Status, packet: Packet?, ghost chain: seq<Packet>)
    requires NetOk(c.network)
    modifies c`network, c`arrived
    ensures NetOk(c.network)
    ensures old(c.network) == [] ==>
      status == NX_NOT_CONNECTED && packet == null && chain == [] && c.network == [] && c.arrived == old(c.arrived)
    ensures old(c.network) != [] ==>
      && status == NX_SUCCESS && c.network == old(c.network)[1..] && c.arrived == old(c.arrived) + Nodes(chain)
      && fresh(chain) && Linked(chain) && chain != [] && packet == chain[0] && Full(chain[1..])
      && HoldsParts(chain, old(c.network)[0])
      && ChainBytes(chain) == Flatten(old(c.network)[0]) && packet.length == |ChainBytes(chain)|
  {
    if c.network == [] {
      status, packet, chain := NX_NOT_CONNECTED, null, [];
    } else {
      hide Linked, Full, ChainBytes, HoldsParts, Flatten;
      status := NX_SUCCESS;
      var parts := c.network[0];
      packet, chain := NewChain(parts);
      PartsBytes(chain, parts);
      PartsFull(chain, parts);
      c.network, c.arrived := c.network[1..], c.arrived + Nodes(chain);
    }
  }

  /** Gives a chain back to the pool; no packet may be given back twice or be in the caller's hands. */
  method Release(c: Client, packet: Packet, ghost chain: seq<Packet>)
    requires chain != [] && chain[0] == packet && Linked(chain)
    requires Nodes(chain) !! c.released + c.handed
    modifies c`released
    ensures c.released == old(c.released) + Nodes(chain)
  {
    c.released := c.released + Nodes(chain);
  }
}
