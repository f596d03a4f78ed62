/** The tracer: it sniffs packets and announces every TCP source port to the super server, once. */
module TracerProcess {
  import opened Basics
  import opened Descriptors

  type Port = p: int | 0 <= p < 0x1_0000

  datatype Source = NotTcp | Source(port: Port)

  const ETHERTYPE_IP := 0x0800
  const ETHER_HEADER := 14

  /** A big-endian 16-bit field. */
  function Field(packet: seq<Byte>, at: nat): Port
    requires at + 1 < |packet|
  {
    var high: int := packet[at];
    0x100 * high + packet[at + 1]
  }

  /** Length of the IP header, from the low four bits of its first byte. */
  function IpHeader(packet: seq<Byte>): nat
    requires ETHER_HEADER < |packet|
  {
    packet[ETHER_HEADER] % 16 * 4
  }

  /**
   * The capture is long enough for every field the handler looks at: the type in bytes 12 and 13,
   * the protocol in byte 23, and the port behind the IP header that begins at byte 14.
   */
  predicate Readable(packet: seq<Byte>) {
    && |packet| >= 14
    && (packet[12] == 8 && packet[13] == 0 ==>
          |packet| > 23 && (packet[23] == 6 ==> |packet| > 14 + packet[14] % 16 * 4 + 1))
  }

  /** Byte by byte, a TCP packet over IPv4 whose source port is `port`. */
  predicate ComesFrom(packet: seq<Byte>, port: int) {
    && |packet| > 23 && packet[12] == 8 && packet[13] == 0 && packet[23] == 6
    && var at := 14 + packet[14] % 16 * 4;
       |packet| > at + 1 && port == 256 * (packet[at] as int) + packet[at + 1]
  }

  function TcpSource(packet: seq<Byte>): Source
    requires Readable(packet)
  {
    if Field(packet, 12) == ETHERTYPE_IP && packet[ETHER_HEADER + 9] == 6
    then Source(Field(packet, ETHER_HEADER + IpHeader(packet)))
    else NotTcp
  }

  /** The once-only table and everything written to the FIFO. */
  datatype TracerState = TracerState(sent: seq<bool>, written: seq<Port>)

  predicate Sized(t: TracerState) {
    |t.sent| == 0x1_0000
  }

  function Announce(t: TracerState, port: Port): TracerState
    requires Sized(t)
  {
    if t.sent[port] then t else TracerState(t.sent[port := true], t.written + [port])
  }

  function Handle(t: TracerState, packet: seq<Byte>): TracerState
    requires Sized(t) && Readable(packet)
  {
    match TcpSource(packet)
    case NotTcp => t
    case Source(port) => Announce(t, port)
  }

  /** The table marks exactly the written ports, and nothing was written twice. */
  ghost predicate OnceOnly(t: TracerState) {
    Sized(t) && Distinct(t.written) && forall p: Port :: t.sent[p] <==> p in t.written
  }

  lemma AnnounceOnce(t: TracerState, port: Port)
    requires OnceOnly(t)
    ensures OnceOnly(Announce(t, port))
    ensures forall p: Port :: p in Announce(t, port).written <==> p in t.written || p == port
    ensures t.written <= Announce(t, port).written
  {
  }

  function HandleAll(t: TracerState, packets: seq<seq<Byte>>): (r: TracerState)
    requires Sized(t) && forall k :: 0 <= k < |packets| ==> Readable(packets[k])
    ensures Sized(r)
  {
    if packets == [] then t
    else Handle(HandleAll(t, packets[..|packets| - 1]), packets[|packets| - 1])
  }

  /** Over any capture the FIFO gets the source port of each TCP packet exactly once, and nothing else. */
  lemma {:induction false} AnnouncesOnce(packets: seq<seq<Byte>>)
    requires forall k :: 0 <= k < |packets| ==> Readable(packets[k])
    ensures var t := HandleAll(TracerState(seq(0x1_0000, _ => false), []), packets);
      && OnceOnly(t) && (forall i, j :: 0 <= i < j < |t.written| ==> t.written[i] != t.written[j])
      && forall p: Port :: p in t.written <==>
           exists k :: 0 <= k < |packets| && ComesFrom(packets[k], p)
  {
    if packets == [] {
    } else {
      var init, last := packets[..|packets| - 1], packets[|packets| - 1];
      var t := HandleAll(TracerState(seq(0x1_0000, _ => false), []), init);
      AnnouncesOnce(init);
      assert forall k :: 0 <= k < |init| ==> init[k] == packets[k];
      if TcpSource(last).Source? { AnnounceOnce(t, TcpSource(last).port); }
      forall p: Port
        ensures p in Handle(t, last).written <==>
          exists k :: 0 <= k < |packets| && ComesFrom(packets[k], p)
      {
        if ComesFrom(last, p) { assert packets[|packets| - 1] == last; }
        if k :| 0 <= k < |init| && ComesFrom(init[k], p) { assert packets[k] == init[k]; }
      }
    }
  }

  class Tracer {
    const sent: array<bool>
    var written: seq<Port>

    ghost function State(): TracerState
      reads this, sent
    {
      TracerState(sent[..], written)
    }

    constructor ()
      ensures sent.Length == 0x1_0000 && fresh(sent)
      ensures State() == TracerState(seq(0x1_0000, _ => false), [])
    {
      sent := new bool[0x1_0000](_ => false);
      written := [];
    }

    /** Announces the port of a TCP packet unless `sent` marks it, and marks it. */
    method PacketHandler(packet: seq<Byte>)
      requires sent.Length == 0x1_0000 && Readable(packet)
      modifies this, sent
      ensures State() == Handle(old(State()), packet)
      ensures forall port: Port :: ComesFrom(packet, port) ==>
        && written == old(written) + (if old(sent[port]) then [] else [port]) && sent[port]
        && forall p: Port :: p != port ==> sent[p] == old(sent[p])
      ensures !(|packet| > 23 && packet[12] == 8 && packet[13] == 0 && packet[23] == 6) ==>
        written == old(written) && sent[..] == old(sent[..])
    {
      forall port: Port ensures TcpSource(packet) == Source(port) <==> ComesFrom(packet, port) {
      }
      if Field(packet, 12) == ETHERTYPE_IP {
        if packet[ETHER_HEADER + 9] == 6 {
          var port := Field(packet, ETHER_HEADER + IpHeader(packet));
          if !sent[port] {
            written := written + [port];
            sent[port] := true;
          }
        }
      }
    }
  }
}
