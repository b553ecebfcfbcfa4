/** A server whose environment lets it succeed follows the script. */
module HandshakeServerScript {
  import opened Wrappers
  import opened Handshake
  import opened HandshakeScript
  import opened HandshakeServer

  /** The place a server has come to. */
  function Place(c: Server, wait: Wait): nat {
    match c.state
    case StartAccept => 0
    case ReadClientHello => 0
    case SelectCertificate => 0
    case SelectParameters => 0
    case SendServerHello => 1
    case SendServerCertificate => 2
    case SendServerKeyExchange => 4
    case SendServerHelloDone => 5
    case ReadClientCertificate => 7
    case VerifyClientCertificate => 8
    case ReadClientKeyExchange => 8
    case ReadClientCertificateVerify => 9
    case ReadChangeCipherSpec => 13
    case ProcessChangeCipherSpec => if wait.ReadCcs? then 13 else 14
    case ReadNextProto => 14
    case ReadChannelId => 15
    case ReadClientFinished => 16
    case SendServerFinished => if c.p.resumed then 10 else 17
    case FinishServerHandshake => END
    case Done => END
  }

  /** The script that a server's choice leads to. */
  predicate Leads(hint: bool, choice: Choice, g: Script) {
    var p := choice.params;
    && Same(p.(channelId := p.channelId && p.ecdhe && (p.resumed ==> choice.hashes),
               status := p.status && p.certAuth && !p.resumed), g.p)
    && g.certRequest == (choice.certRequest && p.certAuth && !p.resumed)
    && g.keyExchange == (p.ecdhe || (!p.certAuth && hint))
  }

  predicate Same(p: Params, q: Params) {
    && p.resumed == q.resumed && p.certAuth == q.certAuth && p.ecdhe == q.ecdhe && p.ticket == q.ticket
    && p.status == q.status && p.nextProto == q.nextProto && p.channelId == q.channelId
  }

  /** The server knows of the script what it must know at its place. */
  predicate Agrees(c: Server, g: Script, choice: Choice) {
    var n := Place(c, Ok);
    && c.emptyTicket == g.emptyTicket && (c.needCertificate && g.certRequest ==> g.hasCertificate)
    && Leads(c.hint, choice, g)
    && (n == 0 ==> !c.p.resumed)
    && (n == 1 ==> Same(c.p, choice.params) && c.hashes == choice.hashes)
    && (n > 1 ==> Same(c.p, g.p))
    && (n > 0 ==> c.certRequest == g.certRequest)
    && (2 <= n <= 9 ==> !g.p.resumed)
    && (n <= 7 ==> !c.peerKey)
    && (8 <= n <= 9 ==> c.peerKey == (g.certRequest && g.hasCertificate))
  }

  /** States in which part of a flight may be waiting to be flushed. */
  predicate Unflushed(s: State) {
    s.SendServerCertificate? || s.SendServerKeyExchange? || s.SendServerHelloDone? || s.SendServerFinished?
  }

  /** What a step does when all goes well. */
  ghost predicate Follows(c: Server, g: Script, msg: Option<Msg>, env: Env, choice: Choice, o: Outcome) {
    && !o.wait.Error? && Agrees(o.m, g, choice) && (o.taken ==> msg.Some?)
    && Moved(g, false, Place(c, Ok), Place(o.m, o.wait), o.sent, TakenItem(msg, o.taken))
    && (o.wait.ReadMessage? ==> AwaitsMessage(g, false, Place(o.m, o.wait)))
    && (o.wait.ReadCcs? ==> AwaitsCcs(g, false, Place(o.m, o.wait)))
    && (Unflushed(c.state) || o.sent != [] ==> o.wait.Flush? || (Unflushed(o.m.state) && (o.wait.Ok? || o.wait.Retry?)))
    && (o.m == c ==>
          (o.wait.ReadMessage? && msg == None) || (o.wait.Retry? && !Prompt(env)) || (o.wait.Ok? && c.state.Done?))
    && (o.wait.ReadCcs? <==> o.m.state.ProcessChangeCipherSpec?)
  }

  ghost predicate Ready(c: Server, g: Script, msg: Option<Msg>, env: Env, choice: Choice) {
    Good(g) && Agrees(c, g, choice) && IsNext(g, false, Place(c, Ok), msg) && Succeeds(env)
  }

  lemma {:induction false} AwaitFollows(c: Server, g: Script, env: Env, choice: Choice)
    requires Agrees(c, g, choice) && AwaitsMessage(g, false, Place(c, Ok))
    requires !Unflushed(c.state) && !c.state.ProcessChangeCipherSpec?
    ensures Follows(c, g, None, env, choice, Await(c))
  {
    hide Agrees, Moved, AwaitsMessage;
    PassNothing(g, false, Place(c, Ok), Place(c, Ok));
  }

  /** A callback that takes its time. */
  lemma {:induction false} LaterFollows(c: Server, g: Script, msg: Option<Msg>, env: Env, choice: Choice)
    requires Agrees(c, g, choice) && !Prompt(env) && !c.state.ProcessChangeCipherSpec?
    ensures Follows(c, g, msg, env, choice, AskAgain(c))
  {
    hide Agrees, Moved, AwaitsMessage;
    PassNothing(g, false, Place(c, Ok), Place(c, Ok));
  }

  /** A step that only changes the state. */
  lemma {:induction false} QuietFollows(c: Server, g: Script, msg: Option<Msg>, env: Env, choice: Choice, o: Outcome)
    requires o.wait == Ok && o.sent == [] && !o.taken
    requires o.m != c && Agrees(o.m, g, choice) && !o.m.state.ProcessChangeCipherSpec?
    requires Moved(g, false, Place(c, Ok), Place(o.m, Ok), [], []) && (Unflushed(c.state) ==> Unflushed(o.m.state))
    ensures Follows(c, g, msg, env, choice, o)
  {
    hide Agrees, Moved, Place, AwaitsMessage;
  }

  /** A step that takes the message. */
  lemma {:induction false} TakeFollows(c: Server, g: Script, msg: Option<Msg>, env: Env, choice: Choice, o: Outcome)
    requires o.wait == Ok && o.sent == [] && o.taken && msg.Some?
    requires o.m != c && Agrees(o.m, g, choice) && !o.m.state.ProcessChangeCipherSpec?
    requires Moved(g, false, Place(c, Ok), Place(o.m, Ok), [], [Hs(msg.value)]) && !Unflushed(c.state)
    ensures Follows(c, g, msg, env, choice, o)
  {
    hide Agrees, Moved, Place, AwaitsMessage;
  }

  /** A step that adds to the flight, or ends it. */
  lemma {:induction false} SendFollows(c: Server, g: Script, msg: Option<Msg>, env: Env, choice: Choice, o: Outcome)
    requires !o.taken && (o.wait == Flush || (o.wait == Ok && Unflushed(o.m.state)))
    requires o.m != c && Agrees(o.m, g, choice) && !o.m.state.ProcessChangeCipherSpec?
    requires Moved(g, false, Place(c, Ok), Place(o.m, Ok), o.sent, [])
    ensures Follows(c, g, msg, env, choice, o)
  {
    hide Agrees, Moved, AwaitsMessage;
  }

  lemma {:induction false} FollowReadHello(c: Server, g: Script, msg: Option<Msg>, env: Env, choice: Choice)
    requires Ready(c, g, msg, env, choice) && (c.state.ReadClientHello? || c.state.SelectCertificate?)
    ensures Follows(c, g, msg, env, choice, Step(c, msg, env, choice))
  {
    hide Moved, IsNext, AwaitsMessage, Follows;
    PeerPlace(g, false, 0, msg);
    PassNothing(g, false, 0, 0);
    var o := Step(c, msg, env, choice);
    if msg == None {
      AwaitFollows(c, g, env, choice);
    } else if o.wait.Retry? {
      LaterFollows(c, g, msg, env, choice);
    } else {
      QuietFollows(c, g, msg, env, choice, o);
    }
  }

  lemma {:induction false} FollowSelectParameters(c: Server, g: Script, msg: Option<Msg>, env: Env, choice: Choice)
    requires Ready(c, g, msg, env, choice) && c.state.SelectParameters?
    ensures Follows(c, g, msg, env, choice, DoSelectParameters(c, msg, env, choice))
  {
    hide Moved, IsNext, AwaitsMessage, Follows;
    PeerPlace(g, false, 0, msg);
    PassPeerPlace(g, false, 0);
    var o := DoSelectParameters(c, msg, env, choice);
    if msg == None {
      AwaitFollows(c, g, env, choice);
    } else if o.wait.Retry? {
      LaterFollows(c, g, msg, env, choice);
    } else {
      TakeFollows(c, g, msg, env, choice, o);
    }
  }

  lemma HelloAgrees(c: Server, g: Script, choice: Choice)
    requires Agrees(c, g, choice) && c.state.SendServerHello?
    ensures HelloParams(c) == g.p
    ensures var c' := c.(p := g.p, state := if g.p.resumed then SendServerFinished else SendServerCertificate);
            Agrees(c', g, choice) && Place(c, Ok) == 1 && Place(c', Ok) == if g.p.resumed then 10 else 2
  {
    assert Same(HelloParams(c), g.p);
  }

  lemma {:induction false} FollowSendHello(c: Server, g: Script, msg: Option<Msg>, env: Env, choice: Choice)
    requires Ready(c, g, msg, env, choice) && c.state.SendServerHello?
    ensures Follows(c, g, msg, env, choice, DoSendServerHello(c, env))
  {
    hide Moved, IsNext, AwaitsMessage, Follows, Agrees, Place;
    HelloAgrees(c, g, choice);
    if g.p.resumed {
      PassOwn(g, false, 1, 10, 1);
    } else {
      PassOwn(g, false, 1, 2, 1);
    }
    var o := DoSendServerHello(c, env);
    SendFollows(c, g, msg, env, choice, o);
  }

  lemma {:induction false} FollowSendCertificate(c: Server, g: Script, msg: Option<Msg>, env: Env, choice: Choice)
    requires Ready(c, g, msg, env, choice) && c.state.SendServerCertificate?
    ensures Follows(c, g, msg, env, choice, DoSendServerCertificate(c, env))
  {
    hide Moved, IsNext, AwaitsMessage, Follows;
    PassTwo(g, false, 2);
    var o := DoSendServerCertificate(c, env);
    assert o.sent == Slot(g, 2) + Slot(g, 3);
    SendFollows(c, g, msg, env, choice, o);
  }

  lemma {:induction false} FollowSendKeyExchange(c: Server, g: Script, msg: Option<Msg>, env: Env, choice: Choice)
    requires Ready(c, g, msg, env, choice) && c.state.SendServerKeyExchange?
    ensures Follows(c, g, msg, env, choice, DoSendServerKeyExchange(c, env))
  {
    hide Moved, IsNext, AwaitsMessage, Follows;
    PassOwn(g, false, 4, 5, 4);
    var o := DoSendServerKeyExchange(c, env);
    if o.wait.Retry? {
      LaterFollows(c, g, msg, env, choice);
    } else {
      SendFollows(c, g, msg, env, choice, o);
    }
  }

  lemma {:induction false} FollowSendHelloDone(c: Server, g: Script, msg: Option<Msg>, env: Env, choice: Choice)
    requires Ready(c, g, msg, env, choice) && c.state.SendServerHelloDone?
    ensures Follows(c, g, msg, env, choice, DoSendServerHelloDone(c, env))
  {
    hide Moved, IsNext, AwaitsMessage, Follows;
    PassTwo(g, false, 5);
    var o := DoSendServerHelloDone(c, env);
    assert o.sent == Slot(g, 5) + Slot(g, 6);
    SendFollows(c, g, msg, env, choice, o);
  }

  lemma CertificateAgrees(c: Server, g: Script, choice: Choice)
    requires Agrees(c, g, choice) && c.state.ReadClientCertificate?
    ensures var c' := c.(state := VerifyClientCertificate, peerKey := g.certRequest && g.hasCertificate);
            Agrees(c', g, choice) && Place(c, Ok) == 7 && Place(c', Ok) == 8
    ensures c.certRequest == g.certRequest && !c.peerKey && (c.needCertificate && g.certRequest ==> g.hasCertificate)
  {
  }

  lemma {:induction false} FollowClientCertificate(c: Server, g: Script, msg: Option<Msg>, env: Env, choice: Choice)
    requires Ready(c, g, msg, env, choice) && c.state.ReadClientCertificate?
    ensures Follows(c, g, msg, env, choice, DoReadClientCertificate(c, msg, env))
  {
    hide Moved, IsNext, AwaitsMessage, Follows, Agrees, Place;
    CertificateAgrees(c, g, choice);
    PeerPlace(g, false, 7, msg);
    PassPeerPlace(g, false, 7);
    if !g.certRequest {
      QuietFollows(c, g, msg, env, choice, Go(c, VerifyClientCertificate));
    } else if msg == None {
      AwaitFollows(c, g, env, choice);
    } else {
      TakeFollows(c, g, msg, env, choice, DoReadClientCertificate(c, msg, env));
    }
  }

  lemma {:induction false} FollowVerifyCertificate(c: Server, g: Script, msg: Option<Msg>, env: Env, choice: Choice)
    requires Ready(c, g, msg, env, choice) && c.state.VerifyClientCertificate?
    ensures Follows(c, g, msg, env, choice, DoVerifyClientCertificate(c, env))
  {
    hide Moved, IsNext, AwaitsMessage, Follows;
    PassNothing(g, false, 8, 8);
    var o := DoVerifyClientCertificate(c, env);
    if o.wait.Retry? {
      LaterFollows(c, g, msg, env, choice);
    } else {
      QuietFollows(c, g, msg, env, choice, o);
    }
  }

  lemma {:induction false} FollowClientKeyExchange(c: Server, g: Script, msg: Option<Msg>, env: Env, choice: Choice)
    requires Ready(c, g, msg, env, choice) && c.state.ReadClientKeyExchange?
    ensures Follows(c, g, msg, env, choice, DoReadClientKeyExchange(c, msg, env))
  {
    hide Moved, IsNext, AwaitsMessage, Follows;
    PeerPlace(g, false, 8, msg);
    PassPeerPlace(g, false, 8);
    var o := DoReadClientKeyExchange(c, msg, env);
    if msg == None {
      AwaitFollows(c, g, env, choice);
    } else if o.wait.Retry? {
      LaterFollows(c, g, msg, env, choice);
    } else {
      TakeFollows(c, g, msg, env, choice, o);
    }
  }

  lemma {:induction false} FollowCertificateVerify(c: Server, g: Script, msg: Option<Msg>, env: Env, choice: Choice)
    requires Ready(c, g, msg, env, choice) && c.state.ReadClientCertificateVerify?
    ensures Follows(c, g, msg, env, choice, DoReadClientCertificateVerify(c, msg, env))
  {
    hide Moved, IsNext, AwaitsMessage, Follows;
    PeerPlace(g, false, 9, msg);
    if !c.peerKey {
      PassNothing(g, false, 9, 13);
      QuietFollows(c, g, msg, env, choice, Go(c, ReadChangeCipherSpec));
    } else if msg == None {
      AwaitFollows(c, g, env, choice);
    } else {
      PassTaken(g, false, 9, 13, 9);
      TakeFollows(c, g, msg, env, choice, DoReadClientCertificateVerify(c, msg, env));
    }
  }

  lemma {:induction false} FollowCipherSpec(c: Server, g: Script, msg: Option<Msg>, env: Env, choice: Choice)
    requires Ready(c, g, msg, env, choice) && (c.state.ReadChangeCipherSpec? || c.state.ProcessChangeCipherSpec?)
    ensures Follows(c, g, msg, env, choice, Step(c, msg, env, choice))
  {
    hide Moved, IsNext, AwaitsMessage, Agrees, Follows;
    CipherSpecAgrees(c, g, choice);
    if c.state.ReadChangeCipherSpec? {
      PassNothing(g, false, 13, 13);
      CipherSpecAwaited(c, g, msg, env, choice);
    } else {
      PassNothing(g, false, 14, 14);
      QuietFollows(c, g, msg, env, choice, Step(c, msg, env, choice));
    }
  }

  lemma CipherSpecAgrees(c: Server, g: Script, choice: Choice)
    requires Agrees(c, g, choice) && (c.state.ReadChangeCipherSpec? || c.state.ProcessChangeCipherSpec?)
    ensures Agrees(c.(state := ProcessChangeCipherSpec), g, choice) && Agrees(c.(state := ReadNextProto), g, choice)
  {
  }

  /** The machine goes on to wait for the ChangeCipherSpec. */
  lemma {:induction false} CipherSpecAwaited(c: Server, g: Script, msg: Option<Msg>, env: Env, choice: Choice)
    requires c.state.ReadChangeCipherSpec? && Agrees(c.(state := ProcessChangeCipherSpec), g, choice)
    requires Moved(g, false, 13, 13, [], [])
    ensures Follows(c, g, msg, env, choice, Send(c, ProcessChangeCipherSpec, [], ReadCcs))
  {
    hide Moved, IsNext, AwaitsMessage, Agrees;
  }

  lemma NextProtoAgrees(c: Server, g: Script, choice: Choice)
    requires Agrees(c, g, choice) && c.state.ReadNextProto?
    ensures var c' := c.(state := ReadChannelId);
            Agrees(c', g, choice) && Place(c, Ok) == 14 && Place(c', Ok) == 15 && c.p.nextProto == g.p.nextProto
  {
  }

  lemma {:induction false} FollowNextProto(c: Server, g: Script, msg: Option<Msg>, env: Env, choice: Choice)
    requires Ready(c, g, msg, env, choice) && c.state.ReadNextProto?
    ensures Follows(c, g, msg, env, choice, DoReadNextProto(c, msg, env))
  {
    hide Moved, IsNext, AwaitsMessage, Follows, Agrees, Place;
    NextProtoAgrees(c, g, choice);
    PeerPlace(g, false, 14, msg);
    PassPeerPlace(g, false, 14);
    if !g.p.nextProto {
      QuietFollows(c, g, msg, env, choice, Go(c, ReadChannelId));
    } else if msg == None {
      AwaitFollows(c, g, env, choice);
    } else {
      TakeFollows(c, g, msg, env, choice, DoReadNextProto(c, msg, env));
    }
  }

  lemma ChannelIdAgrees(c: Server, g: Script, choice: Choice)
    requires Agrees(c, g, choice) && c.state.ReadChannelId?
    ensures var c' := c.(state := ReadClientFinished);
            Agrees(c', g, choice) && Place(c, Ok) == 15 && Place(c', Ok) == 16 && c.p.channelId == g.p.channelId
  {
  }

  lemma {:induction false} FollowChannelId(c: Server, g: Script, msg: Option<Msg>, env: Env, choice: Choice)
    requires Ready(c, g, msg, env, choice) && c.state.ReadChannelId?
    ensures Follows(c, g, msg, env, choice, DoReadChannelId(c, msg, env))
  {
    hide Moved, IsNext, AwaitsMessage, Follows, Agrees, Place;
    ChannelIdAgrees(c, g, choice);
    PeerPlace(g, false, 15, msg);
    PassPeerPlace(g, false, 15);
    if !g.p.channelId {
      QuietFollows(c, g, msg, env, choice, Go(c, ReadClientFinished));
    } else if msg == None {
      AwaitFollows(c, g, env, choice);
    } else {
      TakeFollows(c, g, msg, env, choice, DoReadChannelId(c, msg, env));
    }
  }

  lemma {:induction false} FinishedTaken(c: Server, g: Script, choice: Choice)
    requires Agrees(c, g, choice) && c.state.ReadClientFinished?
    ensures var c' := c.(state := if c.p.resumed then FinishServerHandshake else SendServerFinished);
            Agrees(c', g, choice) && Place(c, Ok) == 16 && Moved(g, false, 16, Place(c', Ok), [], [Hs(Finished)])
  {
    hide Moved;
    if g.p.resumed {
      PassTaken(g, false, 16, END, 16);
    } else {
      PassTaken(g, false, 16, 17, 16);
    }
  }

  lemma {:induction false} FollowClientFinished(c: Server, g: Script, msg: Option<Msg>, env: Env, choice: Choice)
    requires Ready(c, g, msg, env, choice) && c.state.ReadClientFinished?
    ensures Follows(c, g, msg, env, choice, DoReadClientFinished(c, msg, env))
  {
    hide Moved, IsNext, AwaitsMessage, Follows, Agrees, Place;
    PeerPlace(g, false, 16, msg);
    FinishedTaken(c, g, choice);
    if msg == None {
      AwaitFollows(c, g, env, choice);
    } else {
      TakeFollows(c, g, msg, env, choice, DoReadClientFinished(c, msg, env));
    }
  }

  lemma FinishAgrees(c: Server, g: Script, choice: Choice)
    requires Agrees(c, g, choice) && c.state.SendServerFinished?
    ensures var c' := c.(state := if c.p.resumed then ReadChangeCipherSpec else FinishServerHandshake);
            Agrees(c', g, choice) && Place(c', Ok) == Place(c, Ok) + 3
    ensures Same(c.p, g.p) && c.emptyTicket == g.emptyTicket && Place(c, Ok) == if g.p.resumed then 10 else 17
  {
  }

  lemma {:induction false} FollowSendFinished(c: Server, g: Script, msg: Option<Msg>, env: Env, choice: Choice)
    requires Ready(c, g, msg, env, choice) && c.state.SendServerFinished?
    ensures Follows(c, g, msg, env, choice, DoSendServerFinished(c, env))
  {
    hide Moved, IsNext, AwaitsMessage, Follows, Agrees, Place;
    FinishAgrees(c, g, choice);
    var o := DoSendServerFinished(c, env);
    if g.p.resumed {
      PassServerFinish(g, 10);
      assert o.sent == Slot(g, 10) + Slot(g, 11) + Slot(g, 12);
    } else {
      PassServerFinish(g, 17);
      assert o.sent == Slot(g, 17) + Slot(g, 18) + Slot(g, 19);
    }
    SendFollows(c, g, msg, env, choice, o);
  }

  lemma {:induction false} FollowEnds(c: Server, g: Script, msg: Option<Msg>, env: Env, choice: Choice)
    requires Ready(c, g, msg, env, choice) && (c.state.StartAccept? || c.state.FinishServerHandshake? || c.state.Done?)
    ensures Follows(c, g, msg, env, choice, Step(c, msg, env, choice))
  {
    hide Moved, IsNext, AwaitsMessage, Agrees, Follows;
    PassNothing(g, false, Place(c, Ok), Place(c, Ok));
    if c.state.Done? {
      DoneFollows(c, g, msg, env, choice);
    } else {
      EndsAgree(c, g, choice);
      QuietFollows(c, g, msg, env, choice, Step(c, msg, env, choice));
    }
  }

  lemma EndsAgree(c: Server, g: Script, choice: Choice)
    requires Agrees(c, g, choice)
    ensures c.state.StartAccept? ==> Agrees(c.(state := ReadClientHello), g, choice)
    ensures c.state.FinishServerHandshake? ==> Agrees(c.(state := Done), g, choice)
  {
  }

  lemma {:induction false} DoneFollows(c: Server, g: Script, msg: Option<Msg>, env: Env, choice: Choice)
    requires Agrees(c, g, choice) && c.state.Done? && Moved(g, false, END, END, [], [])
    ensures Follows(c, g, msg, env, choice, Outcome(c, Ok, [], false, Quiet))
  {
    hide Moved, IsNext, AwaitsMessage, Agrees;
  }

  /** A server whose environment lets it succeed follows the script. */
  lemma {:induction false} StepFollows(c: Server, g: Script, msg: Option<Msg>, env: Env, choice: Choice)
    requires Ready(c, g, msg, env, choice)
    ensures Follows(c, g, msg, env, choice, Step(c, msg, env, choice))
  {
    hide Follows, Ready, Agrees, DoReadClientHello, DoSelectCertificate, DoSelectParameters, DoSendServerHello,
      DoSendServerCertificate, DoSendServerKeyExchange, DoSendServerHelloDone, DoReadClientCertificate,
      DoVerifyClientCertificate, DoReadClientKeyExchange, DoReadClientCertificateVerify, DoReadNextProto,
      DoReadChannelId, DoReadClientFinished, DoSendServerFinished;
    match c.state
    case StartAccept => FollowEnds(c, g, msg, env, choice);
    case ReadClientHello => FollowReadHello(c, g, msg, env, choice);
    case SelectCertificate => FollowReadHello(c, g, msg, env, choice);
    case SelectParameters => FollowSelectParameters(c, g, msg, env, choice);
    case SendServerHello => FollowSendHello(c, g, msg, env, choice);
    case SendServerCertificate => FollowSendCertificate(c, g, msg, env, choice);
    case SendServerKeyExchange => FollowSendKeyExchange(c, g, msg, env, choice);
    case SendServerHelloDone => FollowSendHelloDone(c, g, msg, env, choice);
    case ReadClientCertificate => FollowClientCertificate(c, g, msg, env, choice);
    case VerifyClientCertificate => FollowVerifyCertificate(c, g, msg, env, choice);
    case ReadClientKeyExchange => FollowClientKeyExchange(c, g, msg, env, choice);
    case ReadClientCertificateVerify => FollowCertificateVerify(c, g, msg, env, choice);
    case ReadChangeCipherSpec => FollowCipherSpec(c, g, msg, env, choice);
    case ProcessChangeCipherSpec => FollowCipherSpec(c, g, msg, env, choice);
    case ReadNextProto => FollowNextProto(c, g, msg, env, choice);
    case ReadChannelId => FollowChannelId(c, g, msg, env, choice);
    case ReadClientFinished => FollowClientFinished(c, g, msg, env, choice);
    case SendServerFinished => FollowSendFinished(c, g, msg, env, choice);
    case FinishServerHandshake => FollowEnds(c, g, msg, env, choice);
    case Done => FollowEnds(c, g, msg, env, choice);
  }
}
