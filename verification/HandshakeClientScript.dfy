/** A client whose environment lets it succeed follows the script. */
module HandshakeClientScript {
  import opened Wrappers
  import opened Handshake
  import opened HandshakeScript
  import opened HandshakeClient

  /** The place a client has come to. */
  function Place(c: Client, wait: Wait): nat {
    match c.state
    case StartConnect => 0
    case EnterEarlyData => 1
    case ReadHelloVerifyRequest => 1
    case ReadServerHello => 1
    case ReadServerCertificate => 2
    case ReadCertificateStatus => 3
    case VerifyServerCertificate => 4
    case ReadServerKeyExchange => 4
    case ReadCertificateRequest => 5
    case ReadServerHelloDone => 6
    case SendClientCertificate => 7
    case SendClientKeyExchange => 8
    case SendClientCertificateVerify => 9
    case SendClientFinished => 13
    case FinishFlight => 17
    case ReadSessionTicket => if c.p.resumed then 10 else 17
    case ProcessChangeCipherSpec => (if c.p.resumed then 11 else 18) + (if wait.ReadCcs? then 0 else 1)
    case ReadServerFinished => if c.p.resumed then 12 else 19
    case FinishClientHandshake => END
    case Done => END
  }

  /** The NewSessionTicket is still to come, or never comes. */
  predicate BeforeTicket(place: nat, resumed: bool) {
    if resumed then place <= 10 else place <= 17
  }

  /** The client forgets that a ticket was promised when an empty one comes. */
  predicate Knows(p: Params, q: Params) {
    && p.resumed == q.resumed && p.certAuth == q.certAuth && p.ecdhe == q.ecdhe
    && p.status == q.status && p.nextProto == q.nextProto && p.channelId == q.channelId
  }

  /** The client knows of the script what it must know at its place. */
  predicate Agrees(c: Client, g: Script) {
    var n := Place(c, Ok);
    && c.hasCertificate == g.hasCertificate
    && (n <= 1 ==> !c.p.resumed)
    && (n > 1 ==> Knows(c.p, g.p))
    && (n > 1 && BeforeTicket(n, g.p.resumed) ==> c.p.ticket == g.p.ticket)
    && (2 <= n <= 9 ==> !g.p.resumed)
    && (n <= 5 ==> !c.certRequest)
    && (6 <= n <= 9 ==> c.certRequest == g.certRequest)
  }

  /** States in which part of a flight may be waiting to be flushed. */
  predicate Unflushed(s: State) {
    s.SendClientKeyExchange? || s.SendClientCertificateVerify? || s.SendClientFinished?
  }

  /** What a step does when all goes well. */
  ghost predicate Follows(c: Client, g: Script, msg: Option<Msg>, env: Env, o: Outcome) {
    && !o.wait.Error? && Agrees(o.m, g) && (o.taken ==> msg.Some?)
    && Moved(g, true, Place(c, Ok), Place(o.m, o.wait), o.sent, TakenItem(msg, o.taken))
    && (o.wait.ReadMessage? ==> AwaitsMessage(g, true, Place(o.m, o.wait)))
    && (o.wait.ReadCcs? ==> AwaitsCcs(g, true, Place(o.m, o.wait)))
    && (Unflushed(c.state) || o.sent != [] ==> o.wait.Flush? || (Unflushed(o.m.state) && (o.wait.Ok? || o.wait.Retry?)))
    && (o.m == c ==>
          (o.wait.ReadMessage? && msg == None) || (o.wait.Retry? && !Prompt(env)) || (o.wait.Ok? && c.state.Done?))
    && (o.wait.ReadCcs? <==> o.m.state.ProcessChangeCipherSpec?)
  }

  ghost predicate Ready(c: Client, g: Script, msg: Option<Msg>, env: Env) {
    Good(g) && Agrees(c, g) && IsNext(g, true, Place(c, Ok), msg) && Succeeds(env)
  }

  lemma {:induction false} AwaitFollows(c: Client, g: Script, env: Env)
    requires Agrees(c, g) && AwaitsMessage(g, true, Place(c, Ok))
    requires !Unflushed(c.state) && !c.state.ProcessChangeCipherSpec?
    ensures Follows(c, g, None, env, Await(c))
  {
    hide Agrees, Moved, AwaitsMessage;
    PassNothing(g, true, Place(c, Ok), Place(c, Ok));
  }

  /** A callback that takes its time. */
  lemma {:induction false} LaterFollows(c: Client, g: Script, msg: Option<Msg>, env: Env)
    requires Agrees(c, g) && !Prompt(env) && !c.state.ProcessChangeCipherSpec?
    ensures Follows(c, g, msg, env, Outcome(c, Retry, [], false, Quiet))
  {
    hide Agrees, Moved, AwaitsMessage;
    PassNothing(g, true, Place(c, Ok), Place(c, Ok));
  }

  /** A step that adds to the flight, or ends it. */
  lemma {:induction false} SendFollows(c: Client, g: Script, msg: Option<Msg>, env: Env, o: Outcome)
    requires !o.taken && (o.wait == Flush || (o.wait == Ok && Unflushed(o.m.state)))
    requires o.m != c && Agrees(o.m, g) && !o.m.state.ProcessChangeCipherSpec?
    requires Moved(g, true, Place(c, Ok), Place(o.m, Ok), o.sent, [])
    ensures Follows(c, g, msg, env, o)
  {
    hide Agrees, Moved, AwaitsMessage;
  }

  /** A step that only changes the state. */
  lemma {:induction false} QuietFollows(c: Client, g: Script, msg: Option<Msg>, env: Env, o: Outcome)
    requires o.wait == Ok && o.sent == [] && !o.taken
    requires o.m != c && Agrees(o.m, g) && !o.m.state.ProcessChangeCipherSpec?
    requires Moved(g, true, Place(c, Ok), Place(o.m, Ok), [], []) && (Unflushed(c.state) ==> Unflushed(o.m.state))
    ensures Follows(c, g, msg, env, o)
  {
    hide Agrees, Moved, Place, AwaitsMessage;
  }

  /** A step that takes the message. */
  lemma {:induction false} TakeFollows(c: Client, g: Script, msg: Option<Msg>, env: Env, o: Outcome)
    requires o.wait == Ok && o.sent == [] && o.taken && msg.Some?
    requires o.m != c && Agrees(o.m, g) && !o.m.state.ProcessChangeCipherSpec?
    requires Moved(g, true, Place(c, Ok), Place(o.m, Ok), [], [Hs(msg.value)]) && !Unflushed(c.state)
    ensures Follows(c, g, msg, env, o)
  {
    hide Agrees, Moved, Place, AwaitsMessage;
  }

  lemma {:induction false} FollowStart(c: Client, g: Script, msg: Option<Msg>, env: Env)
    requires Ready(c, g, msg, env) && Place(c, Ok) <= 1 && !c.state.ReadServerHello?
    ensures Follows(c, g, msg, env, Step(c, msg, env))
  {
    hide Moved, IsNext, AwaitsMessage;
    PassOwn(g, true, 0, 1, 0);
    PassNothing(g, true, 1, 1);
    PeerPlace(g, true, 1, msg);
  }

  lemma {:induction false} FollowServerHello(c: Client, g: Script, msg: Option<Msg>, env: Env)
    requires Ready(c, g, msg, env) && c.state.ReadServerHello?
    ensures Follows(c, g, msg, env, DoReadServerHello(c, msg, env))
  {
    hide Moved, IsNext, AwaitsMessage, Follows;
    PeerPlace(g, true, 1, msg);
    if msg == None {
      AwaitFollows(c, g, env);
    } else {
      if g.p.resumed {
        PassTaken(g, true, 1, 10, 1);
      } else {
        PassTaken(g, true, 1, 2, 1);
      }
      TakeFollows(c, g, msg, env, DoReadServerHello(c, msg, env));
    }
  }

  lemma {:induction false} FollowServerCertificate(c: Client, g: Script, msg: Option<Msg>, env: Env)
    requires Ready(c, g, msg, env) && c.state.ReadServerCertificate?
    ensures Follows(c, g, msg, env, DoReadServerCertificate(c, msg, env))
  {
    hide Moved, IsNext, AwaitsMessage, Follows;
    PeerPlace(g, true, 2, msg);
    PassPeerPlace(g, true, 2);
    if !g.p.certAuth {
      QuietFollows(c, g, msg, env, Go(c, ReadCertificateStatus));
    } else if msg == None {
      AwaitFollows(c, g, env);
    } else {
      TakeFollows(c, g, msg, env, DoReadServerCertificate(c, msg, env));
    }
  }

  lemma {:induction false} FollowCertificateStatus(c: Client, g: Script, msg: Option<Msg>, env: Env)
    requires Ready(c, g, msg, env) && c.state.ReadCertificateStatus?
    ensures Follows(c, g, msg, env, DoReadCertificateStatus(c, msg, env))
  {
    hide Moved, IsNext, AwaitsMessage, Follows;
    PeerPlace(g, true, 3, msg);
    PassPeerPlace(g, true, 3);
    if !g.p.status {
      QuietFollows(c, g, msg, env, Go(c, VerifyServerCertificate));
    } else if msg == None {
      AwaitFollows(c, g, env);
    } else {
      TakeFollows(c, g, msg, env, DoReadCertificateStatus(c, msg, env));
    }
  }

  lemma {:induction false} FollowVerifyCertificate(c: Client, g: Script, msg: Option<Msg>, env: Env)
    requires Ready(c, g, msg, env) && c.state.VerifyServerCertificate?
    ensures Follows(c, g, msg, env, DoVerifyServerCertificate(c, env))
  {
    hide Moved, IsNext, AwaitsMessage, Follows;
    PassNothing(g, true, 4, 4);
    var o := DoVerifyServerCertificate(c, env);
    if o.wait.Retry? {
      LaterFollows(c, g, msg, env);
    } else {
      QuietFollows(c, g, msg, env, o);
    }
  }

  /** Without a ServerKeyExchange something else comes next. */
  lemma {:induction false} NoKeyExchange(g: Script, msg: Option<Msg>)
    requires !g.p.resumed && IsNext(g, true, 4, msg)
    ensures AwaitsMessage(g, true, 4) && (msg.Some? ==> (msg.value == ServerKeyExchange <==> g.keyExchange))
  {
    hide IsNext, AwaitsMessage;
    PeerPlace(g, true, 4, msg);
    PeerPlace(g, true, 5, msg);
    PeerPlace(g, true, 6, msg);
  }

  lemma {:induction false} FollowKeyExchange(c: Client, g: Script, msg: Option<Msg>, env: Env)
    requires Ready(c, g, msg, env) && c.state.ReadServerKeyExchange?
    ensures Follows(c, g, msg, env, DoReadServerKeyExchange(c, msg, env))
  {
    hide Moved, IsNext, AwaitsMessage, Follows;
    NoKeyExchange(g, msg);
    PassPeerPlace(g, true, 4);
    if msg == None {
      AwaitFollows(c, g, env);
    } else if !g.keyExchange {
      QuietFollows(c, g, msg, env, Go(c, ReadCertificateRequest));
    } else {
      TakeFollows(c, g, msg, env, DoReadServerKeyExchange(c, msg, env));
    }
  }

  lemma {:induction false} FollowCertificateRequest(c: Client, g: Script, msg: Option<Msg>, env: Env)
    requires Ready(c, g, msg, env) && c.state.ReadCertificateRequest?
    ensures Follows(c, g, msg, env, DoReadCertificateRequest(c, msg, env))
  {
    hide Moved, IsNext, AwaitsMessage, Follows;
    PeerPlace(g, true, 5, msg);
    PeerPlace(g, true, 6, msg);
    PassPeerPlace(g, true, 5);
    if msg == None && g.p.certAuth {
      AwaitFollows(c, g, env);
    } else if !g.certRequest {
      QuietFollows(c, g, msg, env, Go(c, ReadServerHelloDone));
    } else {
      TakeFollows(c, g, msg, env, DoReadCertificateRequest(c, msg, env));
    }
  }

  lemma {:induction false} FollowHelloDone(c: Client, g: Script, msg: Option<Msg>, env: Env)
    requires Ready(c, g, msg, env) && c.state.ReadServerHelloDone?
    ensures Follows(c, g, msg, env, DoReadServerHelloDone(c, msg, env))
  {
    hide Moved, IsNext, AwaitsMessage, Follows;
    PeerPlace(g, true, 6, msg);
    PassPeerPlace(g, true, 6);
    if msg == None {
      AwaitFollows(c, g, env);
    } else {
      TakeFollows(c, g, msg, env, DoReadServerHelloDone(c, msg, env));
    }
  }

  lemma {:induction false} FollowSendCertificate(c: Client, g: Script, msg: Option<Msg>, env: Env)
    requires Ready(c, g, msg, env) && c.state.SendClientCertificate?
    ensures Follows(c, g, msg, env, DoSendClientCertificate(c, env))
  {
    hide Moved, IsNext, AwaitsMessage, Follows;
    PassOwn(g, true, 7, 8, 7);
    var o := DoSendClientCertificate(c, env);
    if o.wait.Retry? {
      LaterFollows(c, g, msg, env);
    } else {
      SendFollows(c, g, msg, env, o);
    }
  }

  lemma {:induction false} FollowSendKeyExchange(c: Client, g: Script, msg: Option<Msg>, env: Env)
    requires Ready(c, g, msg, env) && c.state.SendClientKeyExchange?
    ensures Follows(c, g, msg, env, Step(c, msg, env))
  {
    hide Moved, IsNext, AwaitsMessage, Follows;
    PassOwn(g, true, 8, 9, 8);
    SendFollows(c, g, msg, env, Step(c, msg, env));
  }

  lemma {:induction false} FollowSendVerify(c: Client, g: Script, msg: Option<Msg>, env: Env)
    requires Ready(c, g, msg, env) && c.state.SendClientCertificateVerify?
    ensures Follows(c, g, msg, env, DoSendClientCertificateVerify(c, env))
  {
    hide Moved, IsNext, AwaitsMessage, Follows;
    PassOwn(g, true, 9, 13, 9);
    var o := DoSendClientCertificateVerify(c, env);
    if o.wait.Retry? {
      LaterFollows(c, g, msg, env);
    } else {
      SendFollows(c, g, msg, env, o);
    }
  }

  lemma LastFlightIs(c: Client, g: Script)
    requires c.p.nextProto == g.p.nextProto && c.p.channelId == g.p.channelId
    ensures LastFlight(c) == Slot(g, 13) + Slot(g, 14) + Slot(g, 15) + Slot(g, 16)
  {
  }

  lemma FinishAgrees(c: Client, g: Script)
    requires Agrees(c, g) && c.state.SendClientFinished?
    ensures Agrees(c.(state := FinishFlight), g) && Place(c, Ok) == 13 && Place(c.(state := FinishFlight), Ok) == 17
    ensures c.p.nextProto == g.p.nextProto && c.p.channelId == g.p.channelId
  {
  }

  lemma {:induction false} FollowSendFinished(c: Client, g: Script, msg: Option<Msg>, env: Env)
    requires Ready(c, g, msg, env) && c.state.SendClientFinished?
    ensures Follows(c, g, msg, env, DoSendClientFinished(c, env))
  {
    hide Moved, IsNext, AwaitsMessage, Follows, Agrees, Place, LastFlight, Slot;
    FinishAgrees(c, g);
    LastFlightIs(c, g);
    PassClientFinish(g);
    var o := DoSendClientFinished(c, env);
    if o.wait.Retry? {
      LaterFollows(c, g, msg, env);
    } else {
      SendFollows(c, g, msg, env, o);
    }
  }

  lemma {:induction false} FollowFlight(c: Client, g: Script, msg: Option<Msg>, env: Env)
    requires Ready(c, g, msg, env) && c.state.FinishFlight?
    ensures Follows(c, g, msg, env, DoFinishFlight(c, env))
  {
    hide Moved, IsNext, AwaitsMessage;
    if g.p.resumed {
      PassNothing(g, true, 17, END);
      QuietFollows(c, g, msg, env, Go(c, FinishClientHandshake));
    } else {
      PassNothing(g, true, 17, 17);
      var c' := c.(state := ReadSessionTicket);
      assert DoFinishFlight(c, env).m == c';
      assert Place(c', Ok) == 17 && Agrees(c', g);
    }
  }

  function TicketPlace(g: Script): nat {
    if g.p.resumed then 10 else 17
  }

  lemma TicketAgrees(c: Client, g: Script, c': Client)
    requires Agrees(c, g) && c.state.ReadSessionTicket? && c'.state.ProcessChangeCipherSpec?
    requires c' == c.(state := c'.state) || c' == c.(state := c'.state, p := c.p.(ticket := false))
    ensures Agrees(c', g) && Place(c', ReadCcs) == TicketPlace(g) + 1 && Place(c, Ok) == TicketPlace(g)
    ensures c.p.ticket == g.p.ticket
  {
  }

  /** The client is to wait for the ChangeCipherSpec. */
  lemma {:induction false} TicketFollows(c: Client, g: Script, msg: Option<Msg>, env: Env, o: Outcome)
    requires Agrees(c, g) && c.state.ReadSessionTicket? && o.m.state.ProcessChangeCipherSpec?
    requires o.m == c.(state := o.m.state) || o.m == c.(state := o.m.state, p := c.p.(ticket := false))
    requires o.wait == ReadCcs && o.sent == [] && (o.taken ==> msg.Some?)
    requires TakenItem(msg, o.taken) == Slot(g, TicketPlace(g))
    ensures Follows(c, g, msg, env, o)
  {
    hide Agrees, Moved, Place, AwaitsMessage;
    var n := TicketPlace(g);
    TicketAgrees(c, g, o.m);
    PassPeerPlace(g, true, n);
  }

  lemma {:induction false} FollowTicket(c: Client, g: Script, msg: Option<Msg>, env: Env)
    requires Ready(c, g, msg, env) && c.state.ReadSessionTicket?
    ensures Follows(c, g, msg, env, DoReadSessionTicket(c, msg, env))
  {
    hide Moved, IsNext, AwaitsMessage, Follows, Agrees, Place;
    TicketAgrees(c, g, c.(state := ProcessChangeCipherSpec));
    PeerPlace(g, true, TicketPlace(g), msg);
    if g.p.ticket && msg == None {
      AwaitFollows(c, g, env);
    } else {
      TicketFollows(c, g, msg, env, DoReadSessionTicket(c, msg, env));
    }
  }

  lemma {:induction false} FollowCipherSpec(c: Client, g: Script, msg: Option<Msg>, env: Env)
    requires Ready(c, g, msg, env) && c.state.ProcessChangeCipherSpec?
    ensures Follows(c, g, msg, env, Step(c, msg, env))
  {
    hide Moved, IsNext, AwaitsMessage, Follows;
    PassNothing(g, true, Place(c, Ok), Place(c, Ok));
    QuietFollows(c, g, msg, env, Step(c, msg, env));
  }

  function FinishedPlace(g: Script): nat {
    if g.p.resumed then 12 else 19
  }

  lemma {:induction false} FinishedTaken(c: Client, g: Script)
    requires Agrees(c, g) && c.state.ReadServerFinished?
    ensures var c' := c.(state := if c.p.resumed then SendClientFinished else FinishClientHandshake);
            && Agrees(c', g) && Place(c, Ok) == FinishedPlace(g)
            && Moved(g, true, FinishedPlace(g), Place(c', Ok), [], [Hs(Finished)])
  {
    hide Moved;
    PassPeerPlace(g, true, FinishedPlace(g));
  }

  lemma {:induction false} FollowServerFinished(c: Client, g: Script, msg: Option<Msg>, env: Env)
    requires Ready(c, g, msg, env) && c.state.ReadServerFinished?
    ensures Follows(c, g, msg, env, DoReadServerFinished(c, msg, env))
  {
    hide Moved, IsNext, AwaitsMessage, Follows, Agrees, Place;
    FinishedTaken(c, g);
    var n := FinishedPlace(g);
    assert n < END && !ByClient(n) && Slot(g, n) == [Hs(Finished)];
    hide Slot, FinishedPlace;
    PeerPlace(g, true, n, msg);
    if msg == None {
      AwaitFollows(c, g, env);
    } else {
      TakeFollows(c, g, msg, env, DoReadServerFinished(c, msg, env));
    }
  }

  lemma {:induction false} FollowLast(c: Client, g: Script, msg: Option<Msg>, env: Env)
    requires Ready(c, g, msg, env) && (c.state.FinishClientHandshake? || c.state.Done?)
    ensures Follows(c, g, msg, env, Step(c, msg, env))
  {
    hide Moved, IsNext, AwaitsMessage;
    PassNothing(g, true, END, END);
  }

  /** A client whose environment lets it succeed follows the script. */
  lemma {:induction false} StepFollows(c: Client, g: Script, msg: Option<Msg>, env: Env)
    requires Ready(c, g, msg, env)
    ensures Follows(c, g, msg, env, Step(c, msg, env))
  {
    hide Follows, Ready, Agrees, DoReadServerHello, DoReadServerCertificate, DoReadCertificateStatus,
      DoVerifyServerCertificate,
      DoReadServerKeyExchange, DoReadCertificateRequest, DoReadServerHelloDone, DoSendClientCertificate,
      DoSendClientCertificateVerify, DoSendClientFinished, DoFinishFlight, DoReadSessionTicket, DoReadServerFinished;
    match c.state
    case StartConnect => FollowStart(c, g, msg, env);
    case EnterEarlyData => FollowStart(c, g, msg, env);
    case ReadHelloVerifyRequest => FollowStart(c, g, msg, env);
    case ReadServerHello => FollowServerHello(c, g, msg, env);
    case ReadServerCertificate => FollowServerCertificate(c, g, msg, env);
    case ReadCertificateStatus => FollowCertificateStatus(c, g, msg, env);
    case VerifyServerCertificate => FollowVerifyCertificate(c, g, msg, env);
    case ReadServerKeyExchange => FollowKeyExchange(c, g, msg, env);
    case ReadCertificateRequest => FollowCertificateRequest(c, g, msg, env);
    case ReadServerHelloDone => FollowHelloDone(c, g, msg, env);
    case SendClientCertificate => FollowSendCertificate(c, g, msg, env);
    case SendClientKeyExchange => FollowSendKeyExchange(c, g, msg, env);
    case SendClientCertificateVerify => FollowSendVerify(c, g, msg, env);
    case SendClientFinished => FollowSendFinished(c, g, msg, env);
    case FinishFlight => FollowFlight(c, g, msg, env);
    case ReadSessionTicket => FollowTicket(c, g, msg, env);
    case ProcessChangeCipherSpec => FollowCipherSpec(c, g, msg, env);
    case ReadServerFinished => FollowServerFinished(c, g, msg, env);
    case FinishClientHandshake => FollowLast(c, g, msg, env);
    case Done => FollowLast(c, g, msg, env);
  }
}
