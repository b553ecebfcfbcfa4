/** The loops that drive the server's machine: ssl_server_handshake and ssl_run_handshake. */
module HandshakeServerLoop {
  import opened Wrappers
  import opened Handshake
  import opened HandshakeTransport
  import opened HandshakeServer

  /** The server's SSL_HANDSHAKE: the machine, its transport, and for the record every input and event. */
  class Connection {
    var hs: Server
    const io: Transport
    ghost const begin: Server
    ghost var inputs: seq<(Option<Msg>, Env, Choice)>
    ghost var log: seq<Event>

    /** The connection is where a run of the machine from its start has brought it. */
    ghost predicate Valid()
      reads this`hs, this`inputs, this`log
    {
      RunFrom(begin, inputs) == (hs, log) && Inv(hs, FactsOf(log))
    }

    constructor (needCertificate: bool, hint: bool, emptyTicket: bool, net: seq<Item>)
      ensures Valid() && fresh(io) && begin == Start(needCertificate, hint, emptyTicket) && hs == begin && log == []
      ensures io.net == net && io.wait == Ok && io.held == [] && io.flight == [] && io.flushed == []
    {
      hs := Start(needCertificate, hint, emptyTicket);
      io := new Transport(net);
      begin, inputs, log := Start(needCertificate, hint, emptyTicket), [], [];
      InvAtStart(needCertificate, hint, emptyTicket);
    }

    /** The loop over hs->state. It ends because every round but the last climbs. */
    method Handshake() returns (ret: Wait)
      requires Valid()
      modifies this, io`held, io`flight
      ensures Valid() && old(inputs) <= inputs && old(log) <= log && old(io.flight) <= io.flight
      ensures ret.Ok? ==> hs.state == Done && Safe(hs, log)
      ensures At(hs) >= old(At(hs)) && (ret.Flush? ==> At(hs) > old(At(hs)))
      ensures IsSuffix(io.held, old(io.held))
    {
      hide Inv, Step, At, Safe, RunFrom;
      while hs.state != Done
        invariant Valid() && old(inputs) <= inputs && old(log) <= log && old(io.flight) <= io.flight
                  && At(hs) >= old(At(hs))
        invariant IsSuffix(io.held, old(io.held))
        decreases 19 - At(hs)
      {
        var env: Env := *;
        var choice: Choice := *;
        var msg := if io.held == [] then None else Some(io.held[0]);
        var o := Step(hs, msg, env, choice);
        StepKeepsInv(hs, FactsOf(log), msg, env, choice);
        FactsGrow(log, o.news);
        RunOneMore(begin, inputs, (msg, env, choice));
        RankBound(o.m);
        hs, io.flight := o.m, io.flight + o.sent;
        inputs, log := inputs + [(msg, env, choice)], log + o.news.Listed();
        if o.taken && io.held != [] {
          io.held := io.held[1..];
        }
        if o.wait != Ok {
          return o.wait;
        }
      }
      InvIsSafe(hs, log);
      return Ok;
    }

    /** Settles what was waited for and runs the machine again, until something stops it. 1 without
        an early return means that the handshake is complete, and then it was safe. */
    method RunHandshake() returns (ret: int, early: bool)
      requires Valid()
      modifies this, io
      ensures Valid() && old(inputs) <= inputs && old(log) <= log && At(hs) >= old(At(hs))
      ensures ret == 1 && !early ==> hs.state == Done && Safe(hs, log)
      ensures IsSuffix(io.net, old(io.net)) && old(io.flushed) <= io.flushed
              && old(io.flushed + io.flight) <= io.flushed + io.flight
    {
      hide Inv, At, Safe, RunFrom, FactsOf;
      while true
        invariant Valid() && old(inputs) <= inputs && old(log) <= log && At(hs) >= old(At(hs))
        invariant IsSuffix(io.net, old(io.net)) && old(io.flushed) <= io.flushed
                  && old(io.flushed + io.flight) <= io.flushed + io.flight
        decreases |io.net|, 19 - At(hs), if io.wait.Flush? || io.wait.Ok? then 1 else 0
      {
        var s := io.Settle();
        match s {
          case Leave(r, e) =>
            return r, e;
          case Again =>
            continue;
          case Proceed =>
        }
        RankBound(hs);
        io.wait := Handshake();
        if io.wait == Error {
          return -1, false;
        }
        if io.wait == Ok {
          return 1, false;
        }
      }
    }
  }

  lemma RankBound(c: Server)
    ensures At(c) <= 19
  {
  }
}
