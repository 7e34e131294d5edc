/** The platform layer as the engine sees it: a queue of received datagrams, a
    clock that never runs backwards, sends that may fail, and random numbers. */
module Platform {
  import opened Bytes

  /** A datagram handed to the network, and whether that succeeded. */
  datatype Datagram = Datagram(bytes: seq<byte>, ok: bool)

  class Pal {
    var inbox: seq<seq<byte>>
    var clock: nat
    ghost var sent: seq<Datagram>

    constructor (inbox: seq<seq<byte>>, clock: nat)
      ensures this.inbox == inbox && this.clock == clock && sent == []
    {
      this.inbox, this.clock, sent := inbox, clock, [];
    }

    method UdpRecv() returns (got: bool, d: seq<byte>)
      modifies this`inbox
      ensures got <==> old(inbox) != []
      ensures got ==> d == old(inbox)[0] && inbox == old(inbox)[1..]
      ensures !got ==> inbox == []
    {
      got, d := inbox != [], [];
      if got {
        d, inbox := inbox[0], inbox[1..];
      }
    }

    /** The caller learns whether the datagram was handed to the network. */
    method UdpSend(packet: seq<byte>) returns (ok: bool)
      modifies this`sent
      ensures sent == old(sent) + [Datagram(packet, ok)]
    {
      ok := *;
      sent := sent + [Datagram(packet, ok)];
    }

    method GetTime() returns (t: nat)
      modifies this`clock
      ensures t == clock >= old(clock)
    {
      var elapsed :| elapsed >= 0;
      clock := clock + elapsed;
      t := clock;
    }

    method Rand() returns (r: nat) {
      r :| r >= 0;
    }
  }
}
