/** What ssl_run_handshake does between two runs of a handshake machine. */
module HandshakeTransport {
  import opened Wrappers
  import opened Handshake

  /** What comes of settling a wait. */
  datatype Settled = Proceed | Again | Leave(ret: int, early: bool)

  predicate IsSuffix<T(==)>(part: seq<T>, whole: seq<T>) {
    |part| <= |whole| && part == whole[|whole| - |part|..]
  }

  // ---------------------------------------------------------------- settling a wait, on values

  /** One side's input and output: hs->wait, the pending flight, what has arrived, and how many
      messages of that have been read into the handshake buffer. */
  datatype Port = Port(wait: Wait, out: seq<Item>, inbox: seq<Item>, held: nat)

  predicate AllMessages(items: seq<Item>) {
    forall k :: 0 <= k < |items| ==> items[k].Hs?
  }

  /** How many items are flushed or read in one go. */
  function Portion(k: nat, available: nat): (n: nat)
    ensures n <= available && (available > 0 ==> n > 0)
  {
    if 0 < k <= available then k else available
  }

  /** The switch in ssl_run_handshake that settles what was waited for. Up to `k` items are
      flushed, or read, if the record brings that many messages. */
  function Resolve(p: Port, k: nat): Port {
    match p.wait
    case Flush =>
      var n := Portion(k, |p.out|);
      p.(out := p.out[n..], wait := if n == |p.out| then Ok else Flush)
    case ReadMessage =>
      if p.inbox == [] then p
      else if p.inbox[0].Ccs? then p.(wait := Error)
      else p.(held := if 0 < k <= |p.inbox| && AllMessages(p.inbox[..k]) then k else 1, wait := Ok)
    case ReadCcs =>
      if p.inbox == [] then p
      else if p.inbox[0].Hs? then p.(wait := Error)
      else p.(inbox := p.inbox[1..], wait := Ok)
    case Retry => p.(wait := Ok)
    case EarlyReturn => p.(wait := Ok)
    case Ok => p
    case Error => p
  }

  function Flushed(p: Port, k: nat): seq<Item> {
    if p.wait.Flush? then p.out[..Portion(k, |p.out|)] else []
  }

  // ---------------------------------------------------------------- the switch itself

  function HeldItems(held: seq<Msg>): (s: seq<Item>)
    ensures |s| == |held| && forall k :: 0 <= k < |held| ==> s[k] == Hs(held[k])
  {
    seq(|held|, k requires 0 <= k < |held| => Hs(held[k]))
  }

  /** hs->wait, the messages that have been read, the pending flight, and what has gone out and
      is still to come in. */
  class Transport {
    var wait: Wait
    var held: seq<Msg>
    var flight: seq<Item>
    var flushed: seq<Item>
    var net: seq<Item>

    function AsPort(): Port
      reads this`wait, this`flight, this`held, this`net
    {
      Port(wait, flight, HeldItems(held) + net, |held|)
    }

    constructor (net: seq<Item>)
      ensures this.net == net && wait == Ok && held == [] && flight == [] && flushed == []
    {
      this.net := net;
      wait, held, flight, flushed := Ok, [], [], [];
    }

    /** The switch at the top of ssl_run_handshake, which settles what was waited for: the machine
        may go on, or a record was passed over and the same is to be tried again, or the call
        returns. The flight goes out in part or whole; an item that does not fit is refused. What
        it settles it settles as Resolve does. */
    method Settle() returns (s: Settled)
      modifies this`wait, this`held, this`flight, this`flushed, this`net
      ensures IsSuffix(net, old(net))
      ensures old(flushed) <= flushed && old(flushed + flight) == flushed + flight
      ensures s.Proceed? ==> wait == old(wait) && (wait.Flush? || wait.Ok? || wait.ReadMessage? || wait.ReadCcs?)
      ensures s.Proceed? && wait.ReadMessage? ==>
                old(net) != [] && old(net)[0].Hs? && net == old(net)[1..] && held == old(held) + [old(net)[0].msg]
      ensures s.Proceed? && wait.ReadCcs? ==>
                old(net) != [] && old(net)[0].Ccs? && net == old(net)[1..] && held == old(held)
      ensures s.Proceed? && !wait.ReadMessage? && !wait.ReadCcs? ==> net == old(net) && held == old(held)
      ensures s.Proceed? && wait.Flush? ==> flight == []
      ensures s.Again? ==> wait == old(wait) && |net| < |old(net)| && held == old(held)
      ensures s.Leave? ==> held == old(held) && (s.ret == 1 <==> s.early) && (s.early ==> old(wait).EarlyReturn?)
      ensures s.Proceed? && (old(wait).Flush? || old(wait).Ok? || old(held) == []) ==>
                AsPort().(wait := Ok) == Resolve(old(AsPort()), 0)
                  && flushed == old(flushed) + Flushed(old(AsPort()), 0)
      ensures s.Leave? && (old(wait).Retry? || old(wait).EarlyReturn?) ==> AsPort() == Resolve(old(AsPort()), 0)
      ensures s.Leave? && old(wait).Flush? ==>
                var sent := |old(flight)| - |flight|;
                0 < |flight| && (sent > 0 ==>
                  AsPort() == Resolve(old(AsPort()), sent) && flushed == old(flushed) + Flushed(old(AsPort()), sent))
    {
      match wait {
        case Error =>
          return Leave(-1, false);
        case Flush =>
          var sent: nat :| sent <= |flight|;
          flushed, flight := flushed + flight[..sent], flight[sent..];
          return if flight != [] then Leave(-1, false) else Proceed;
        case ReadMessage =>
          var item, ret := Receive();
          if item == None {
            return if ret <= 0 then Leave(ret, false) else Again;
          }
          if item.value.Ccs? {
            return Leave(-1, false);
          }
          held := held + [item.value.msg];
          return Proceed;
        case ReadCcs =>
          var item, ret := Receive();
          if item == None {
            return if ret <= 0 then Leave(ret, false) else Again;
          }
          return if item.value.Hs? then Leave(-1, false) else Proceed;
        case Retry =>
          wait := Ok;
          return Leave(-1, false);
        case EarlyReturn =>
          wait := Ok;
          return Leave(1, true);
        case Ok =>
          return Proceed;
      }
    }

    /** Opens a record: what it brings; or nothing, with 1 if it is to be passed over and the
        next one tried, and 0 or less if the transport has nothing or the record is refused. */
    method Receive() returns (item: Option<Item>, ret: int)
      modifies this`net
      ensures item.Some? ==> old(net) != [] && net == old(net)[1..] && item.value == old(net)[0]
      ensures item == None && ret > 0 ==> old(net) != [] && net == old(net)[1..]
      ensures item == None && ret <= 0 ==> net == old(net) || (old(net) != [] && net == old(net)[1..])
    {
      if net == [] {
        return None, -1;
      }
      var next := net[0];
      var passedOver: bool, refused: bool := *, *;
      net := net[1..];
      if refused {
        return None, -1;
      }
      if passedOver {
        return None, 1;
      }
      return Some(next), 1;
    }
  }
}
