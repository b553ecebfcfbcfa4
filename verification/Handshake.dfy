/** What the TLS handshake machines up to TLS 1.2 exchange and wait for (RFC 5246, section 7.3). */
module Handshake {
  import opened Wrappers

  /** What the ServerHello settles: resumption, the cipher's key exchange, and extensions. */
  datatype Params = Params(
    resumed: bool, certAuth: bool, ecdhe: bool,
    status: bool, ticket: bool, nextProto: bool, channelId: bool)

  datatype Msg =
    | ClientHello | HelloVerifyRequest | ServerHello(params: Params)
    | Certificate(empty: bool) | CertificateStatus | ServerKeyExchange | CertificateRequest | ServerHelloDone
    | ClientKeyExchange | CertificateVerify | NextProto | ChannelId
    | NewSessionTicket(emptyTicket: bool) | Finished

  /** What travels: handshake messages and ChangeCipherSpec records. */
  datatype Item = Hs(msg: Msg) | Ccs

  /** ssl_hs_wait_t. Retry stands for the callbacks that answer later (certificate, private key,
      Channel ID, session, certificate verification), after which the step is run again. */
  datatype Wait = Ok | Error | ReadMessage | ReadCcs | Flush | Retry | EarlyReturn

  /** What has happened on a connection, as far as its safety goes. */
  datatype Event =
    | Received(msg: Msg) | CertificateVerified | KeyExchangeSigned | CertificateVerifyChecked
    | ReadCipherOn | PeerFinished

  datatype Answer = Yes | No | Later

  /** How a step's environment answers: whether every check of the step other than those named
      passes, and what signatures, Finished, certificate verification and callbacks come to. */
  datatype Env = Env(checks: bool, signature: bool, finished: bool, verify: Answer, callback: Answer)

  /** What a log of events establishes; `finished` is PeerFinished after ReadCipherOn. */
  datatype Facts = Facts(cipherOn: bool, finished: bool, verified: bool, keyExchange: bool, signed: bool, checked: bool)

  function Note(f: Facts, e: Event): Facts {
    match e
    case ReadCipherOn => f.(cipherOn := true)
    case PeerFinished => f.(finished := f.finished || f.cipherOn)
    case CertificateVerified => f.(verified := true)
    case Received(ServerKeyExchange) => f.(keyExchange := true)
    case KeyExchangeSigned => f.(signed := true)
    case CertificateVerifyChecked => f.(checked := true)
    case _ => f
  }

  /** What one step adds to the log. */
  datatype News = Quiet | One(e: Event) | Two(first: Event, second: Event) {
    function Listed(): seq<Event> {
      match this case Quiet => [] case One(e) => [e] case Two(first, second) => [first, second]
    }
  }

  function NoteAll(f: Facts, news: News): Facts {
    match news
    case Quiet => f
    case One(e) => Note(f, e)
    case Two(first, second) => Note(Note(f, first), second)
  }

  function FactsOf(log: seq<Event>): Facts {
    if log == [] then Facts(false, false, false, false, false, false)
    else Note(FactsOf(log[..|log| - 1]), log[|log| - 1])
  }

  lemma FactsGrow(log: seq<Event>, news: News)
    ensures FactsOf(log + news.Listed()) == NoteAll(FactsOf(log), news)
  {
    match news
    case Quiet => assert log + [] == log;
    case One(e) => assert (log + [e])[..|log|] == log;
    case Two(first, second) =>
      assert (log + [first])[..|log|] == log;
      assert log + [first, second] == (log + [first]) + [second];
      assert (log + [first, second])[..|log| + 1] == log + [first];
  }

  /** ReadCipherOn happened, and PeerFinished after it. */
  ghost predicate FinishedUnderNewCipher(log: seq<Event>) {
    exists i, j :: 0 <= i < j < |log| && log[i] == ReadCipherOn && log[j] == PeerFinished
  }

  /** The facts mean what they say. */
  lemma {:induction false} FactsMean(log: seq<Event>)
    ensures FactsOf(log).cipherOn <==> ReadCipherOn in log
    ensures FactsOf(log).finished <==> FinishedUnderNewCipher(log)
    ensures FactsOf(log).verified <==> CertificateVerified in log
    ensures FactsOf(log).keyExchange <==> Received(ServerKeyExchange) in log
    ensures FactsOf(log).signed <==> KeyExchangeSigned in log
    ensures FactsOf(log).checked <==> CertificateVerifyChecked in log
  {
    hide FinishedUnderNewCipher;
    if log == [] {
      NothingFinished();
    } else {
      var n := |log| - 1;
      FactsMean(log[..n]);
      assert forall e :: e in log <==> e in log[..n] || e == log[n];
      FinishedLater(log);
    }
  }

  lemma NothingFinished()
    ensures !FinishedUnderNewCipher([])
  {
  }

  lemma FinishedLater(log: seq<Event>)
    requires log != []
    ensures FinishedUnderNewCipher(log) <==>
            FinishedUnderNewCipher(log[..|log| - 1]) ||
            (log[|log| - 1] == PeerFinished && ReadCipherOn in log[..|log| - 1])
  {
    var n := |log| - 1;
    var before := log[..n];
    if FinishedUnderNewCipher(before) {
      var i, j :| 0 <= i < j < |before| && before[i] == ReadCipherOn && before[j] == PeerFinished;
      assert log[i] == ReadCipherOn && log[j] == PeerFinished;
    }
    if log[n] == PeerFinished && ReadCipherOn in before {
      var i :| 0 <= i < |before| && before[i] == ReadCipherOn;
      assert log[i] == ReadCipherOn && log[n] == PeerFinished;
    }
    if FinishedUnderNewCipher(log) {
      var i, j :| 0 <= i < j < |log| && log[i] == ReadCipherOn && log[j] == PeerFinished;
      assert before[i] == ReadCipherOn;
      if j < n {
        assert before[j] == PeerFinished;
      }
    }
  }
}
