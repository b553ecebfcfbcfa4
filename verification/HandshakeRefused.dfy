/** A client without a certificate never gets past a server that demands one. */
module HandshakeRefused {
  import opened Wrappers
  import opened Handshake
  import opened HandshakeTransport
  import opened HandshakeCompose
  import Cl = HandshakeClient
  import Sv = HandshakeServer

  /** The server's choice makes it ask for a certificate. */
  predicate Asks(choice: Sv.Choice) {
    choice.certRequest && choice.params.certAuth && !choice.params.resumed
  }

  predicate Undecided(s: Sv.State) {
    s.StartAccept? || s.ReadClientHello? || s.SelectCertificate? || s.SelectParameters?
  }

  predicate Keyless(s: Sv.Server, choice: Sv.Choice) {
    !s.peerKey && s.needCertificate && (!Undecided(s.state) ==> s.certRequest == Asks(choice))
  }

  const SHOWN: Item := Hs(Certificate(false))

  /** No certificate has been sent or received. */
  ghost predicate NoneShown(y: System, choice: Sv.Choice) {
    !y.c.hasCertificate && Keyless(y.s, choice) && Sv.Shape(y.s) && SHOWN !in Upstream(y)
  }

  lemma {:induction false} ServerStaysKeyless(s: Sv.Server, msg: Option<Msg>, env: Env, choice: Sv.Choice)
    requires Keyless(s, choice) && msg != Some(Certificate(false))
    ensures Keyless(Sv.Step(s, msg, env, choice).m, choice)
  {
    hide Sv.DoSendServerHello, Sv.DoSendServerCertificate, Sv.DoSendServerKeyExchange, Sv.DoSendServerHelloDone,
      Sv.DoVerifyClientCertificate, Sv.DoReadClientKeyExchange, Sv.DoReadClientCertificateVerify, Sv.DoReadNextProto,
      Sv.DoReadChannelId, Sv.DoReadClientFinished, Sv.DoSendServerFinished, Sv.DoReadClientHello,
        Sv.DoSelectCertificate;
    Sv.StepMoves(s, Facts(false, false, false, false, false, false), msg, env, choice);
  }

  lemma LastFlightShowsNone(c: Cl.Client)
    ensures SHOWN !in Cl.LastFlight(c)
  {
  }

  /** The states in which the client works through the server's flight. */
  predicate Receives(s: Cl.State) {
    s.ReadServerHello? || s.ReadServerCertificate? || s.ReadCertificateStatus? || s.VerifyServerCertificate?
    || s.ReadServerKeyExchange? || s.ReadCertificateRequest? || s.ReadServerHelloDone?
  }

  lemma {:induction false} ReceivingShowsNone(c: Cl.Client, msg: Option<Msg>, env: Env)
    requires !c.hasCertificate && Receives(c.state)
    ensures !Cl.Step(c, msg, env).m.hasCertificate && SHOWN !in Cl.Step(c, msg, env).sent
  {
    hide Cl.LastFlight;
  }

  lemma {:induction false} SendingShowsNone(c: Cl.Client, msg: Option<Msg>, env: Env)
    requires !c.hasCertificate && !Receives(c.state)
    ensures !Cl.Step(c, msg, env).m.hasCertificate && SHOWN !in Cl.Step(c, msg, env).sent
  {
    hide Cl.LastFlight, Cl.DoReadServerHello, Cl.DoReadServerCertificate, Cl.DoReadCertificateStatus,
      Cl.DoVerifyServerCertificate,
      Cl.DoReadServerKeyExchange, Cl.DoReadCertificateRequest, Cl.DoReadServerHelloDone;
    LastFlightShowsNone(c);
  }

  lemma {:induction false} ClientShowsNone(c: Cl.Client, msg: Option<Msg>, env: Env)
    requires !c.hasCertificate
    ensures !Cl.Step(c, msg, env).m.hasCertificate && SHOWN !in Cl.Step(c, msg, env).sent
  {
    hide Cl.Step;
    if Receives(c.state) {
      ReceivingShowsNone(c, msg, env);
    } else {
      SendingShowsNone(c, msg, env);
    }
  }

  lemma {:induction false} TurnShowsNone(y: System, t: Turn, choice: Sv.Choice)
    requires NoneShown(y, choice)
    ensures NoneShown(Run(y, t, choice), choice)
  {
    hide Keyless, Cl.Step, Sv.Step, Sv.Shape, Message, Resolve;
    if t.client {
      ClientShowsNone(y.c, Message(y.cp), t.env);
      PortShowsNone(y.sp, y.cp, t.k);
    } else {
      MessageArrived(y.sp);
      ServerStaysKeyless(y.s, Message(y.sp), t.env, choice);
      Sv.StepClimbs(y.s, Message(y.sp), t.env, choice);
      TakesOnly(y.sp, t.k);
    }
  }

  lemma MessageArrived(p: Port)
    ensures Message(p).Some? ==> Hs(Message(p).value) in p.inbox
  {
  }

  /** Flushing moves items from one side to the other. */
  lemma PortShowsNone(q: Port, p: Port, k: nat)
    requires SHOWN !in q.inbox + p.out
    ensures SHOWN !in (q.inbox + Flushed(p, k)) + Resolve(p, k).out
  {
  }

  lemma TakesOnly(p: Port, k: nat)
    ensures forall x :: x in Resolve(p, k).inbox ==> x in p.inbox
  {
  }

  lemma {:induction false} RunShowsNone(y: System, turns: seq<Turn>, choice: Sv.Choice)
    requires NoneShown(y, choice)
    ensures NoneShown(RunAll(y, turns, choice), choice)
    decreases |turns|
  {
    hide NoneShown, Run;
    if turns != [] {
      TurnShowsNone(y, turns[0], choice);
      RunShowsNone(Run(y, turns[0], choice), turns[1..], choice);
    }
  }

  lemma BeginsKeyless(isDtls: bool, falseStart: bool, hint: bool, emptyTicket: bool, choice: Sv.Choice)
    ensures NoneShown(Begin(isDtls, false, falseStart, true, hint, emptyTicket), choice)
  {
  }

  lemma KeylessIsNotDone(y: System, choice: Sv.Choice)
    requires NoneShown(y, choice) && Asks(choice)
    ensures !y.s.state.Done?
  {
  }

  /** However long they run, and however the environment answers, the server is never done. */
  lemma {:induction false} NeverDone(isDtls: bool, falseStart: bool, hint: bool, emptyTicket: bool, choice: Sv.Choice,
                                     turns: seq<Turn>)
    requires Asks(choice)
    ensures !RunAll(Begin(isDtls, false, falseStart, true, hint, emptyTicket), turns, choice).s.state.Done?
  {
    hide RunAll, NoneShown, Asks, Begin;
    var y := Begin(isDtls, false, falseStart, true, hint, emptyTicket);
    BeginsKeyless(isDtls, falseStart, hint, emptyTicket, choice);
    RunShowsNone(y, turns, choice);
    KeylessIsNotDone(RunAll(y, turns, choice), choice);
  }
}
