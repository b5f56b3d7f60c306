/** Two matching handshake drivers over two FIFO channels, in every interleaving. */
module HandshakeRuns {
  import opened Wrappers
  import opened Bytes
  import opened Frames
  import opened Session
  import opened PayloadCodec
  import opened Handshake

  /** A pinned remote identity survives any sequence of received messages, and identifying
      the remote means that its key was verified against the DH key of the session. */
  ghost predicate Heard(scheme: Scheme, k: Knowledge, events: seq<Received>, k': Knowledge)
    decreases |events|
  {
    if events == [] then k' == k
    else
      match HearIdentity(scheme, k, events[0])
      case Err(_) => false
      case Ok(next) => Heard(scheme, next, events[1..], k')
  }

  lemma {:induction false} PinnedIdentityKept(scheme: Scheme, k: Knowledge, events: seq<Received>, k': Knowledge)
    requires Heard(scheme, k, events, k')
    ensures k'.identity == k.identity && k'.sendIdentity == k.sendIdentity && k'.legacy == k.legacy
    ensures k.remote.Some? ==> k'.remote == k.remote
    ensures k'.signature == k.signature
         || exists i :: 0 <= i < |events| && SignatureFrom(events[i], k.legacy, k'.signature)
    decreases |events|
  {
    if events != [] {
      var next := HearIdentity(scheme, k, events[0]).value;
      PinnedIdentityKept(scheme, next, events[1..], k');
      if k'.signature != k.signature {
        if k'.signature == next.signature {
          assert SignatureFrom(events[0], k.legacy, k'.signature);
        } else {
          var i :| 0 <= i < |events[1..]| && SignatureFrom(events[1..][i], next.legacy, k'.signature);
          assert SignatureFrom(events[i + 1], k.legacy, k'.signature);
        }
      }
    }
  }

  /** The payload of the message carried this signature. */
  ghost predicate SignatureFrom(event: Received, legacy: LegacyConfig, signature: Option<bytes>) {
    && event.Some? && event.value.Ok?
    && ReceivePayload(event.value.value, legacy.recv).Some?
    && signature == Some(ReceivePayload(event.value.value, legacy.recv).value.identitySig)
  }

  /** Whatever was received from `Start` on: identifying the remote as `id` means that the
      DH key the session reports verifies under `id`, with keys linked or with a signature
      that came in one of the messages; and that `id` is the pinned identity if there is one. */
  lemma IdentifiedIsVerified(scheme: Scheme, identity: KeypairIdentity, exchange: IdentityExchange,
                             legacy: LegacyConfig, events: seq<Received>, k: Knowledge, remoteStatic: Option<bytes>,
                             complete: bool, id: IdentityKey)
    requires Heard(scheme, Start(identity, exchange, legacy), events, k)
    requires Conclude(scheme, k, remoteStatic, complete) == Ok(Identified(id))
    ensures complete && remoteStatic.Some? && scheme.parseDh(remoteStatic.value).Some?
    ensures var dh := scheme.parseDh(remoteStatic.value).value;
            || scheme.linked(id, dh)
            || exists i :: 0 <= i < |events| && SignatureFrom(events[i], legacy, k.signature)
                           && scheme.verifySignature(id, dh, k.signature.value)
    ensures exchange.SendTo? || exchange.NoExchange? ==> id == exchange.remote
  {
    PinnedIdentityKept(scheme, Start(identity, exchange, legacy), events, k);
  }

  /** The payload of a received message, if it is one that decodes. */
  function PayloadOf(event: Received, legacy: LegacyConfig): Option<Payload> {
    match event
    case Some(Ok(msg)) => ReceivePayload(msg, legacy.recv)
    case _ => None
  }

  /** The last signature in the payloads, if any carries one. */
  function LastSignature(events: seq<Received>, legacy: LegacyConfig): Option<bytes> {
    if events == [] then None
    else
      match PayloadOf(events[|events| - 1], legacy)
      case Some(p) => if p.identitySig != [] then Some(p.identitySig) else LastSignature(events[..|events| - 1], legacy)
      case None => LastSignature(events[..|events| - 1], legacy)
  }

  /** Some payload carries a key. */
  ghost predicate Announces(events: seq<Received>, legacy: LegacyConfig) {
    exists i :: 0 <= i < |events| && CarriesKey(events[i], legacy)
  }

  predicate CarriesKey(event: Received, legacy: LegacyConfig) {
    PayloadOf(event, legacy).Some? && PayloadOf(event, legacy).value.identityKey != []
  }

  /** A message is taken exactly if it arrives, decodes, and carries no key or a valid one that
      does not contradict the identity known so far; and otherwise each failure has its answer. */
  lemma MessageTaken(scheme: Scheme, k: Knowledge, event: Received)
    ensures var heard := HearIdentity(scheme, k, event);
            var p := PayloadOf(event, k.legacy);
      && (heard.Ok? <==>
            && p.Some?
            && (p.value.identityKey != [] ==>
                  var id := scheme.parseKey(p.value.identityKey);
                  id.Some? && (k.remote == None || k.remote == id)))
      && (event == None ==> heard == Err(Io(UnexpectedEof)))
      && (event.Some? && event.value.Err? ==> heard == Err(Io(event.value.error)))
      && (event.Some? && event.value.Ok? && p == None ==> heard == Err(InvalidPayload))
      && (p.Some? && heard.Err? ==> heard == Err(InvalidKey))
  {
  }

  /** What is known after any messages that were all taken: all keys in them are the same one, the
      pinned one if there is one, and that is the remote identity; the signature is the last one. */
  lemma {:induction false} AllHeard(scheme: Scheme, k: Knowledge, events: seq<Received>, k': Knowledge)
    requires Heard(scheme, k, events, k')
    ensures forall i | 0 <= i < |events| :: PayloadOf(events[i], k.legacy).Some?
    ensures forall i | 0 <= i < |events| && CarriesKey(events[i], k.legacy) ::
              k'.remote.Some? && scheme.parseKey(PayloadOf(events[i], k.legacy).value.identityKey) == k'.remote
    ensures k.remote.Some? ==> k'.remote == k.remote
    ensures !Announces(events, k.legacy) ==> k'.remote == k.remote
    ensures k'.signature ==
            if LastSignature(events, k.legacy).Some? then LastSignature(events, k.legacy) else k.signature
    ensures k'.legacy == k.legacy
    decreases |events|
  {
    if events != [] {
      var next := HearIdentity(scheme, k, events[0]).value;
      MessageTaken(scheme, k, events[0]);
      AllHeard(scheme, next, events[1..], k');
      FirstSignature(events, k.legacy);
      assert forall i | 1 <= i < |events| :: events[i] == events[1..][i - 1];
      assert forall i | 0 <= i < |events[1..]| :: events[1..][i] == events[i + 1];
    }
  }

  lemma {:induction false} FirstSignature(events: seq<Received>, legacy: LegacyConfig)
    requires events != []
    ensures LastSignature(events, legacy) ==
            if LastSignature(events[1..], legacy).Some? then LastSignature(events[1..], legacy)
            else LastSignature([events[0]], legacy)
    decreases |events|
  {
    var n := |events| - 1;
    if n > 0 {
      assert events[1..][|events[1..]| - 1] == events[n] && events[1..][..n - 1] == events[..n][1..];
      FirstSignature(events[..n], legacy);
    } else {
      assert events == [events[0]] && events[1..] == [];
    }
  }

  /** How a handshake ends, exactly, from `Start` on over any messages that were taken. With a
      valid DH key of a complete session: if an identity is pinned or announced, it is identified
      when the keys are linked or the last signature in the messages verifies, and the handshake
      fails when not; only if there is none, the remote is known by its DH key. */
  lemma FinishExactly(scheme: Scheme, identity: KeypairIdentity, exchange: IdentityExchange, legacy: LegacyConfig,
                      events: seq<Received>, k: Knowledge, remoteStatic: Option<bytes>, complete: bool)
    requires Heard(scheme, Start(identity, exchange, legacy), events, k)
    ensures var r := Conclude(scheme, k, remoteStatic, complete);
            var pinned := exchange.SendTo? || exchange.NoExchange?;
      && (remoteStatic.Some? && scheme.parseDh(remoteStatic.value) == None ==> r == Err(InvalidKey))
      && (!(remoteStatic.Some? && scheme.parseDh(remoteStatic.value) == None) && !complete ==> r == Err(Incomplete))
      && (complete && remoteStatic == None ==> r == Ok(Unknown))
      && (complete && remoteStatic.Some? && scheme.parseDh(remoteStatic.value).Some? ==>
            var dh := scheme.parseDh(remoteStatic.value).value;
            var signature := LastSignature(events, legacy);
            && (pinned || Announces(events, legacy) <==> k.remote.Some?)
            && (pinned ==> k.remote == Some(exchange.remote))
            && (k.remote.Some? ==>
                  var id := k.remote.value;
                  r == if scheme.linked(id, dh) || (signature.Some? && scheme.verifySignature(id, dh, signature.value))
                       then Ok(Identified(id)) else Err(InvalidKey))
            && (k.remote == None ==> r == Ok(StaticDhKey(dh))))
    ensures forall i | 0 <= i < |events| && CarriesKey(events[i], legacy) ::
              k.remote == scheme.parseKey(PayloadOf(events[i], legacy).value.identityKey)
  {
    hide PayloadOf, CarriesKey, Announces, LastSignature, Heard, Start;
    KnownExactly(scheme, identity, exchange, legacy, events, k);
  }

  /** What is known after any messages, in terms of their payloads. */
  lemma KnownExactly(scheme: Scheme, identity: KeypairIdentity, exchange: IdentityExchange, legacy: LegacyConfig,
                     events: seq<Received>, k: Knowledge)
    requires Heard(scheme, Start(identity, exchange, legacy), events, k)
    ensures var pinned := exchange.SendTo? || exchange.NoExchange?;
      && (pinned || Announces(events, legacy) <==> k.remote.Some?)
      && (pinned ==> k.remote == Some(exchange.remote))
    ensures k.signature == LastSignature(events, legacy)
    ensures forall i | 0 <= i < |events| && CarriesKey(events[i], legacy) ::
              k.remote == scheme.parseKey(PayloadOf(events[i], legacy).value.identityKey)
  {
    hide PayloadOf, CarriesKey;
    AllHeard(scheme, Start(identity, exchange, legacy), events, k);
    hide Heard, LastSignature;
    if Announces(events, legacy) {
      var i :| 0 <= i < |events| && CarriesKey(events[i], legacy);
      assert k.remote.Some?;
    }
  }

  /** What a side gives away: its key for the exchanges that send it and only for those, and its
      signature if it has one. */
  lemma IntroducedExactly(scheme: Scheme, identity: KeypairIdentity, exchange: IdentityExchange,
                          legacy: LegacyConfig, peer: LegacyConfig)
    requires scheme.Sound() && !legacy.send
    requires Fits64(Introduction(scheme, Start(identity, exchange, legacy)))
    ensures var msg: Received :=
              Some(Ok(SendPayload(Introduction(scheme, Start(identity, exchange, legacy)), legacy.send)));
      && PayloadOf(msg, peer).Some?
      && (CarriesKey(msg, peer) <==> exchange.Mutual? || exchange.SendTo?)
      && (CarriesKey(msg, peer) ==> scheme.parseKey(PayloadOf(msg, peer).value.identityKey) == Some(identity.public))
      && (identity.signature.Some? && identity.signature.value != [] ==>
            LastSignature([msg], peer) == identity.signature)
      && (identity.signature == None ==> LastSignature([msg], peer) == None)
  {
    PlainReceived(Introduction(scheme, Start(identity, exchange, legacy)), peer.recv);
    hide SendPayload, ReceivePayload, Introduction;
    hide Start;
    IntroductionFields(scheme, identity, exchange, legacy);
    var msg: Received := Some(Ok(SendPayload(Introduction(scheme, Start(identity, exchange, legacy)), legacy.send)));
    assert [msg][..0] == [];
  }

  lemma IntroductionFields(scheme: Scheme, identity: KeypairIdentity, exchange: IdentityExchange, legacy: LegacyConfig)
    requires scheme.Sound()
    ensures var p := Introduction(scheme, Start(identity, exchange, legacy));
      && (if exchange.Mutual? || exchange.SendTo?
          then p.identityKey != [] && scheme.parseKey(p.identityKey) == Some(identity.public) else p.identityKey == [])
      && p.identitySig == if identity.signature.Some? then identity.signature.value else []
  {
  }

  datatype Op = SendEmpty | SendId | RecvEmpty | RecvId

  const RT1_INITIATOR: seq<Op> := [SendId, RecvId]
  const RT1_RESPONDER: seq<Op> := [RecvId, SendId]
  const RT15_INITIATOR: seq<Op> := [SendEmpty, RecvId, SendId]
  const RT15_RESPONDER: seq<Op> := [RecvEmpty, SendId, RecvId]

  /** One side of a handshake: the operations its driver has left, its session, what it
      knows, and how it ended. `total` is the number of messages of the Noise pattern, and
      `remoteStatic` the DH key that the session reports at the end. */
  datatype Party = Party(
    ops: seq<Op>, session: Session, total: nat, remoteStatic: Option<bytes>,
    knows: Knowledge, outcome: Option<Result<RemoteIdentity, NoiseError>>)

  function Fail(p: Party, e: NoiseError): Party {
    p.(ops := [], outcome := Some(Err(e)))
  }

  /** The message an operation sends. */
  function Message(scheme: Scheme, knows: Knowledge, op: Op): bytes {
    if op == SendId then SendPayload(Introduction(scheme, knows), knows.legacy.send) else []
  }

  /** The next operation of a driver, or its end. `None` when the party has finished or waits
      for a message; otherwise the party afterwards and the message it sent, if any. A message
      above MAX_FRAME_LEN fails an assertion of `start_send`, so it has no successor either. */
  function Act(scheme: Scheme, p: Party, inbox: seq<bytes>): Option<(Party, seq<bytes>, seq<bytes>)> {
    if p.outcome.Some? then None
    else if p.ops == [] then
      var complete := p.session.sent + p.session.received == p.total;
      Some((p.(outcome := Some(Conclude(scheme, p.knows, p.remoteStatic, complete))), inbox, []))
    else if p.ops[0].SendId? || p.ops[0].SendEmpty? then
      var msg := Message(scheme, p.knows, p.ops[0]);
      if |msg| > MAX_FRAME_LEN then None
      else
        match p.session.outgoing.seal(p.session.sent, msg)
        case None => Some((Fail(p, Io(InvalidData)), inbox, []))
        case Some(c) =>
          var session := p.session.(sent := p.session.sent + 1);
          Some((p.(ops := p.ops[1..], session := session), inbox, [c]))
    else if inbox == [] then None
    else
      match p.session.incoming.open(p.session.received, inbox[0])
      case None => Some((Fail(p, Io(InvalidData)), inbox[1..], []))
      case Some(msg) =>
        var heard := if p.ops[0].RecvId? then HearIdentity(scheme, p.knows, Some(Ok(msg)))
                     else HearEmpty(p.knows, Some(Ok(msg)));
        match heard
        case Err(e) => Some((Fail(p, e), inbox[1..], []))
        case Ok(knows) =>
          var session := p.session.(received := p.session.received + 1);
          Some((p.(ops := p.ops[1..], session := session, knows := knows), inbox[1..], []))
  }

  // One driver against any peer and any network

  lemma EmptyTaken(k: Knowledge, event: Received)
    ensures HearEmpty(k, event).Ok? <==> event == Some(Ok([]))
    ensures HearEmpty(k, event).Ok? ==> HearEmpty(k, event) == Ok(k)
    ensures event == None ==> HearEmpty(k, event) == Err(Io(UnexpectedEof))
    ensures event.Some? && event.value.Err? ==> HearEmpty(k, event) == Err(Io(event.value.error))
    ensures event.Some? && event.value.Ok? && event.value.value != [] ==> HearEmpty(k, event) == Err(Io(InvalidData))
  {
  }

  /** The party again and again, each time with any inbox. */
  function ActAll(scheme: Scheme, p: Party, inboxes: seq<seq<bytes>>): Party
    decreases |inboxes|
  {
    if inboxes == [] then p
    else
      match Act(scheme, p, inboxes[0])
      case None => ActAll(scheme, p, inboxes[1..])
      case Some((q, _, _)) => ActAll(scheme, q, inboxes[1..])
  }

  /** The operation went well: it sent what the driver introduces itself with, or nothing; or a
      ciphertext opened to a message that was taken. */
  ghost predicate WentWell(scheme: Scheme, p: Party, q: Party, event: Received) {
    && p.ops != [] && p.outcome == None
    && q == p.(ops := p.ops[1..], session := q.session, knows := q.knows)
    && match p.ops[0]
       case SendId =>
         q.knows == p.knows && Sends(p, q, SendPayload(Introduction(scheme, p.knows), p.knows.legacy.send))
       case SendEmpty => q.knows == p.knows && Sends(p, q, [])
       case RecvId =>
         && event.Some? && event.value.Ok? && Receives(p, q, event.value.value)
         && HearIdentity(scheme, p.knows, event) == Ok(q.knows)
       case RecvEmpty => event == Some(Ok([])) && Receives(p, q, []) && q.knows == p.knows
  }

  ghost predicate Sends(p: Party, q: Party, msg: bytes) {
    && |msg| <= MAX_FRAME_LEN && p.session.outgoing.seal(p.session.sent, msg).Some?
    && q.session == p.session.(sent := p.session.sent + 1)
  }

  ghost predicate Receives(p: Party, q: Party, msg: bytes) {
    && (exists c :: p.session.incoming.open(p.session.received, c) == Some(msg))
    && q.session == p.session.(received := p.session.received + 1)
  }

  /** From `p` to `q` operations went well one after the other. `events` has one entry for each. */
  ghost predicate Performed(scheme: Scheme, p: Party, events: seq<Received>, q: Party)
    decreases |events|
  {
    if events == [] then q == p
    else exists next :: WentWell(scheme, p, next, events[0]) && Performed(scheme, next, events[1..], q)
  }

  /** The party stopped at `q` with an error, after operations that went well. */
  ghost predicate Stopped(scheme: Scheme, q: Party, p: Party) {
    q.outcome == None && q.ops != [] && exists e :: p == Fail(q, e)
  }

  ghost predicate Concluded(scheme: Scheme, q: Party, p: Party) {
    && q.outcome == None && q.ops == []
    && var complete := q.session.sent + q.session.received == q.total;
       p == q.(outcome := Some(Conclude(scheme, q.knows, q.remoteStatic, complete)))
  }

  lemma {:induction false} PerformedThen(scheme: Scheme, p: Party, events: seq<Received>, q: Party, r: Party,
                                         event: Received)
    requires Performed(scheme, p, events, q) && WentWell(scheme, q, r, event)
    ensures Performed(scheme, p, events + [event], r)
    decreases |events|
  {
    hide WentWell;
    if events == [] {
      assert ([] + [event])[0] == event && ([] + [event])[1..] == [];
      assert Performed(scheme, r, [], r);
    } else {
      var next :| WentWell(scheme, p, next, events[0]) && Performed(scheme, next, events[1..], q);
      PerformedThen(scheme, next, events[1..], q, r, event);
      assert (events + [event])[0] == events[0] && (events + [event])[1..] == events[1..] + [event];
    }
  }

  /** One action: an operation goes well, or the party ends, with an error or with its result. */
  lemma ActExactly(scheme: Scheme, p: Party, inbox: seq<bytes>) returns (event: Received)
    requires p.outcome == None
    ensures match Act(scheme, p, inbox)
            case None => true
            case Some((q, _, _)) => WentWell(scheme, p, q, event) || Stopped(scheme, p, q) || Concluded(scheme, p, q)
  {
    hide HearIdentity, SendPayload, Introduction, Conclude;
    event := None;
    if p.ops != [] && (p.ops[0].RecvId? || p.ops[0].RecvEmpty?) && inbox != [] {
      var plain := p.session.incoming.open(p.session.received, inbox[0]);
      if plain.Some? {
        event := Some(Ok(plain.value));
        EmptyTaken(p.knows, event);
      }
    }
  }

  /** Whatever a driver receives: all its operations up to some point went well, in order; it then
      still waits, or has stopped with an error before the last, or has come to its end, where the
      result is that of `Conclude`. So a result is never given with an operation left out. */
  lemma {:induction false} DriverRuns(scheme: Scheme, start: Party, events: seq<Received>, p: Party,
                                      inboxes: seq<seq<bytes>>)
    returns (all: seq<Received>, q: Party)
    requires p.outcome == None && Performed(scheme, start, events, p)
    ensures Performed(scheme, start, all, q) && q.outcome == None
    ensures var end := ActAll(scheme, p, inboxes); end == q || Stopped(scheme, q, end) || Concluded(scheme, q, end)
    decreases |inboxes|
  {
    hide Act, Performed, WentWell, Conclude;
    all, q := events, p;
    if inboxes != [] {
      var event := ActExactly(scheme, p, inboxes[0]);
      match Act(scheme, p, inboxes[0])
      case None => all, q := DriverRuns(scheme, start, events, p, inboxes[1..]);
      case Some((next, _, _)) =>
        if WentWell(scheme, p, next, event) {
          PerformedThen(scheme, start, events, p, next, event);
          StillRunning(scheme, p, next, event);
          all, q := DriverRuns(scheme, start, events + [event], next, inboxes[1..]);
        } else {
          EndedStays(scheme, next, inboxes[1..]);
        }
    }
  }

  /** Why an action stops the party: a message cannot be sealed or opened, one that should be
      empty is not, or the identity in it is not taken. */
  lemma ActStops(scheme: Scheme, p: Party, inbox: seq<bytes>, e: NoiseError)
    requires p.outcome == None && p.ops != []
    requires Act(scheme, p, inbox).Some? && Act(scheme, p, inbox).value.0 == Fail(p, e)
    ensures match p.ops[0]
            case SendId =>
              e == Io(InvalidData) && p.session.outgoing.seal(p.session.sent, Message(scheme, p.knows, SendId)) == None
            case SendEmpty => e == Io(InvalidData) && p.session.outgoing.seal(p.session.sent, []) == None
            case RecvId =>
              && inbox != []
              && (match p.session.incoming.open(p.session.received, inbox[0])
                  case None => e == Io(InvalidData)
                  case Some(msg) => HearIdentity(scheme, p.knows, Some(Ok(msg))) == Err(e))
            case RecvEmpty =>
              && inbox != [] && e == Io(InvalidData)
              && p.session.incoming.open(p.session.received, inbox[0]) != Some([])
  {
    hide HearIdentity, SendPayload, Introduction;
  }

  /** The messages of the operations that receive an identity. */
  function IdentityEvents(ops: seq<Op>, events: seq<Received>): seq<Received>
    decreases |events|
  {
    if ops == [] || events == [] then []
    else (if ops[0].RecvId? then [events[0]] else []) + IdentityEvents(ops[1..], events[1..])
  }

  lemma {:induction false} PerformedHeard(scheme: Scheme, p: Party, events: seq<Received>, q: Party)
    requires Performed(scheme, p, events, q)
    ensures Heard(scheme, p.knows, IdentityEvents(p.ops, events), q.knows)
    ensures |events| + |q.ops| == |p.ops| && q.remoteStatic == p.remoteStatic && q.total == p.total
    decreases |events|
  {
    hide HearIdentity, Sends, Receives;
    if events != [] {
      var next :| WentWell(scheme, p, next, events[0]) && Performed(scheme, next, events[1..], q);
      PerformedHeard(scheme, next, events[1..], q);
      var rest := IdentityEvents(next.ops, events[1..]);
      assert ([events[0]] + rest)[0] == events[0] && ([events[0]] + rest)[1..] == rest && [] + rest == rest;
    }
  }

  /** Against any peer and any network: a driver that ends well has performed all its operations,
      and if it ends with an identity, this is the pinned one if there is one, and it verifies for
      the DH key, by link or by the last signature received. */
  lemma DriverIdentifies(scheme: Scheme, identity: KeypairIdentity, exchange: IdentityExchange, legacy: LegacyConfig,
                         start: Party, inboxes: seq<seq<bytes>>, remote: RemoteIdentity) returns (all: seq<Received>)
    requires start.outcome == None && start.knows == Start(identity, exchange, legacy)
    requires ActAll(scheme, start, inboxes).outcome == Some(Ok(remote))
    ensures |all| == |start.ops|
    ensures remote.Identified? ==>
      && start.remoteStatic.Some? && scheme.parseDh(start.remoteStatic.value).Some?
      && (exchange.SendTo? || exchange.NoExchange? ==> remote.id == exchange.remote)
      && var dh := scheme.parseDh(start.remoteStatic.value).value;
         var signature := LastSignature(IdentityEvents(start.ops, all), legacy);
         scheme.linked(remote.id, dh) || (signature.Some? && scheme.verifySignature(remote.id, dh, signature.value))
    ensures remote.StaticDhKey? ==>
      !(exchange.SendTo? || exchange.NoExchange?) && !Announces(IdentityEvents(start.ops, all), legacy)
  {
    var q;
    all, q := DriverRuns(scheme, start, [], start, inboxes);
    PerformedHeard(scheme, start, all, q);
    hide Performed, ActAll, Heard, LastSignature, IdentityEvents, Announces, Conclude, Start;
    var events, complete := IdentityEvents(start.ops, all), q.session.sent + q.session.received == q.total;
    assert Concluded(scheme, q, ActAll(scheme, start, inboxes));
    FinishExactly(scheme, identity, exchange, legacy, events, q.knows, q.remoteStatic, complete);
  }

  lemma StillRunning(scheme: Scheme, p: Party, q: Party, event: Received)
    requires WentWell(scheme, p, q, event)
    ensures q.outcome == None
  {
  }

  lemma {:induction false} EndedStays(scheme: Scheme, p: Party, inboxes: seq<seq<bytes>>)
    requires p.outcome.Some?
    ensures ActAll(scheme, p, inboxes) == p
    decreases |inboxes|
  {
    if inboxes != [] {
      EndedStays(scheme, p, inboxes[1..]);
    }
  }

  /** Both parties and the messages between them. */
  datatype Net = Net(initiator: Party, responder: Party, toResponder: seq<bytes>, toInitiator: seq<bytes>)

  /** One party acts; nothing happens when it cannot. */
  function Step(scheme: Scheme, n: Net, initiatorActs: bool): Net {
    if initiatorActs then
      match Act(scheme, n.initiator, n.toInitiator)
      case None => n
      case Some((p, inbox, out)) => n.(initiator := p, toInitiator := inbox, toResponder := n.toResponder + out)
    else
      match Act(scheme, n.responder, n.toResponder)
      case None => n
      case Some((p, inbox, out)) => n.(responder := p, toResponder := inbox, toInitiator := n.toInitiator + out)
  }

  function Run(scheme: Scheme, n: Net, schedule: seq<bool>): Net
    decreases |schedule|
  {
    if schedule == [] then n else Run(scheme, Step(scheme, n, schedule[0]), schedule[1..])
  }

  ghost predicate Enabled(scheme: Scheme, n: Net, initiatorActs: bool) {
    if initiatorActs then Act(scheme, n.initiator, n.toInitiator).Some?
    else Act(scheme, n.responder, n.toResponder).Some?
  }

  /** What a side brings to a handshake. */
  datatype Side = Side(knows: Knowledge, dh: bytes)

  /** A handshake about to begin: `fromInitiator` and `fromResponder` protect the two directions. */
  datatype Setup = Setup(
    scheme: Scheme, roundTrip15: bool, initiator: Side, responder: Side,
    fromInitiator: Cipher, fromResponder: Cipher)

  function Ops(s: Setup, initiator: bool): seq<Op> {
    if s.roundTrip15 then if initiator then RT15_INITIATOR else RT15_RESPONDER
    else if initiator then RT1_INITIATOR else RT1_RESPONDER
  }

  function Total(s: Setup): nat {
    if s.roundTrip15 then 3 else 2
  }

  function SessionOf(s: Setup, initiator: bool, sent: nat, received: nat): Session {
    if initiator then Session(s.fromInitiator, s.fromResponder, sent, received)
    else Session(s.fromResponder, s.fromInitiator, sent, received)
  }

  function Self(s: Setup, initiator: bool): Side {
    if initiator then s.initiator else s.responder
  }

  function Begin(s: Setup): Net {
    Net(PartyAt(s, true, 0), PartyAt(s, false, 0), [], [])
  }

  /** The state of a party after the first `i` messages of the pattern. Message m is sent by
      the initiator exactly when m is even. */
  function PartyAt(s: Setup, initiator: bool, i: nat): Party
    requires i <= Total(s)
  {
    var evens, odds := (i + 1) / 2, i / 2;
    var session := if initiator then SessionOf(s, true, evens, odds) else SessionOf(s, false, odds, evens);
    Party(Ops(s, initiator)[i..], session, Total(s), Some(Self(s, !initiator).dh), KnowsAt(s, initiator, i), None)
  }

  /** The initiator hears the peer's identity in message 1, the responder in its last message. */
  function KnowsAt(s: Setup, initiator: bool, i: nat): Knowledge {
    if (if initiator then i >= 2 else i >= (if s.roundTrip15 then 3 else 1))
    then Introduced(Self(s, initiator).knows, Self(s, !initiator).knows)
    else Self(s, initiator).knows
  }

  /** `x` after hearing from `y`. */
  function Introduced(x: Knowledge, y: Knowledge): Knowledge {
    var signature := y.identity.signature;
    x.(remote := Some(y.identity.public),
       signature := if signature.Some? && signature.value != [] then signature else None)
  }

  /** `x` can take in the introduction of `y`, and ends up knowing and verifying it. */
  ghost predicate Compatible(scheme: Scheme, x: Side, y: Side) {
    var p := Introduction(scheme, y.knows);
    && |SendPayload(p, y.knows.legacy.send)| <= MAX_FRAME_LEN
    && (y.knows.legacy.send ==> x.knows.legacy.recv && p != DEFAULT && Decode(SendPayload(p, true)).None?)
    && x.knows.signature == None
    && (if x.knows.remote == None then y.knows.sendIdentity
        else x.knows.remote == Some(y.knows.identity.public))
    && scheme.parseDh(y.dh).Some?
    && scheme.Verify(y.knows.identity.public, scheme.parseDh(y.dh).value, Introduced(x.knows, y.knows).signature)
  }

  ghost predicate Matching(s: Setup) {
    && s.scheme.Sound()
    && s.fromInitiator.Sound() && s.fromResponder.Sound()
    && (forall k: nat, p: bytes ::
          |p| <= MAX_FRAME_LEN ==> s.fromInitiator.seal(k, p).Some? && s.fromResponder.seal(k, p).Some?)
    && Compatible(s.scheme, s.initiator, s.responder)
    && Compatible(s.scheme, s.responder, s.initiator)
  }

  /** Message m of the pattern, in the clear and sealed. */
  function MessageAt(s: Setup, m: nat): bytes
    requires m < Total(s)
  {
    var sender := m % 2 == 0;
    Message(s.scheme, Self(s, sender).knows, Ops(s, sender)[m])
  }

  function CipherAt(s: Setup, m: nat): bytes
    requires m < Total(s)
  {
    var cipher := if m % 2 == 0 then s.fromInitiator else s.fromResponder;
    match cipher.seal(m / 2, MessageAt(s, m))
    case Some(c) => c
    case None => []
  }

  lemma MessageFits(s: Setup, m: nat)
    requires Matching(s) && m < Total(s)
    ensures |MessageAt(s, m)| <= MAX_FRAME_LEN
    ensures var cipher := if m % 2 == 0 then s.fromInitiator else s.fromResponder;
            && cipher.seal(m / 2, MessageAt(s, m)) == Some(CipherAt(s, m))
            && cipher.open(m / 2, CipherAt(s, m)) == Some(MessageAt(s, m))
  {
    hide SendPayload;
    hide Introduction;
    var cipher := if m % 2 == 0 then s.fromInitiator else s.fromResponder;
    assert cipher.seal(m / 2, MessageAt(s, m)).Some?;
  }

  /** From one message of the pattern to the next. */
  lemma NextMessage(s: Setup, initiator: bool, i: nat)
    requires i < Total(s)
    ensures var p, q, sends := PartyAt(s, initiator, i), PartyAt(s, initiator, i + 1), i % 2 == 0 <==> initiator;
      && p.outcome == None && p.ops != [] && p.ops[0] == Ops(s, initiator)[i]
      && (sends <==> p.ops[0].SendId? || p.ops[0].SendEmpty?)
      && q == p.(ops := p.ops[1..], session := q.session, knows := q.knows)
      && (if sends then q.session == p.session.(sent := i / 2 + 1) && p.session.sent == i / 2
          else q.session == p.session.(received := i / 2 + 1) && p.session.received == i / 2)
      && p.session.outgoing == (if initiator then s.fromInitiator else s.fromResponder)
      && p.session.incoming == (if initiator then s.fromResponder else s.fromInitiator)
      && p.knows == KnowsAt(s, initiator, i) && q.knows == KnowsAt(s, initiator, i + 1)
  {
    hide KnowsAt;
    hide Ops;
    OpsOf(s, initiator, i);
    assert Ops(s, initiator)[i..][1..] == Ops(s, initiator)[i + 1..];
  }

  lemma OpsOf(s: Setup, initiator: bool, i: nat)
    requires i < Total(s)
    ensures |Ops(s, initiator)| == Total(s)
    ensures (i % 2 == 0 <==> initiator) <==> Ops(s, initiator)[i].SendId? || Ops(s, initiator)[i].SendEmpty?
  {
  }

  lemma PartySends(s: Setup, initiator: bool, i: nat)
    requires Matching(s) && i < Total(s) && (i % 2 == 0 <==> initiator)
    ensures Act(s.scheme, PartyAt(s, initiator, i), [])
         == Some((PartyAt(s, initiator, i + 1), [], [CipherAt(s, i)]))
  {
    hide *;
    MessageFits(s, i);
    KnowsSame(s, initiator, i);
    NextMessage(s, initiator, i);
    SentMessage(s, initiator, i);
    SendStep(s.scheme, PartyAt(s, initiator, i), CipherAt(s, i));
  }

  /** A send operation whose message fits and is sealed as `c`. */
  lemma SendStep(scheme: Scheme, p: Party, c: bytes)
    requires p.outcome == None && p.ops != [] && (p.ops[0].SendId? || p.ops[0].SendEmpty?)
    requires |Message(scheme, p.knows, p.ops[0])| <= MAX_FRAME_LEN
    requires p.session.outgoing.seal(p.session.sent, Message(scheme, p.knows, p.ops[0])) == Some(c)
    ensures var session := p.session.(sent := p.session.sent + 1);
            Act(scheme, p, []) == Some((p.(ops := p.ops[1..], session := session), [], [c]))
  {
    hide Message;
  }

  lemma SentMessage(s: Setup, initiator: bool, i: nat)
    requires i < Total(s) && (i % 2 == 0 <==> initiator)
    ensures MessageAt(s, i) == Message(s.scheme, KnowsAt(s, initiator, i), Ops(s, initiator)[i])
  {
    KnowsSame(s, initiator, i);
  }

  /** Sending teaches nothing, and what was learned does not change what is sent. */
  lemma KnowsSame(s: Setup, initiator: bool, i: nat)
    requires i < Total(s) && (i % 2 == 0 <==> initiator)
    ensures KnowsAt(s, initiator, i + 1) == KnowsAt(s, initiator, i)
    ensures forall op ::
      Message(s.scheme, KnowsAt(s, initiator, i), op) == Message(s.scheme, Self(s, initiator).knows, op)
  {
  }

  lemma Hears(scheme: Scheme, x: Side, y: Side)
    requires scheme.Sound() && Compatible(scheme, x, y)
    ensures var msg := SendPayload(Introduction(scheme, y.knows), y.knows.legacy.send);
            HearIdentity(scheme, x.knows, Some(Ok(msg))) == Ok(Introduced(x.knows, y.knows))
  {
    hide Encode;
    var p := Introduction(scheme, y.knows);
    FieldsFit(p);
    assert |Encode(p)| <= |SendPayload(p, y.knows.legacy.send)|;
    hide SendPayload;
    hide ReceivePayload;
    if y.knows.legacy.send {
      LegacyExact(p);
    } else {
      PlainReceived(p, x.knows.legacy.recv);
    }
  }

  lemma FieldsFit(p: Payload)
    ensures |p.identityKey| <= |Encode(p)| && |p.identitySig| <= |Encode(p)| && |p.data| <= |Encode(p)|
  {
  }

  lemma PartyReceives(s: Setup, initiator: bool, i: nat)
    requires Matching(s) && i < Total(s) && (i % 2 == 0 <==> !initiator)
    ensures Act(s.scheme, PartyAt(s, initiator, i), [CipherAt(s, i)])
         == Some((PartyAt(s, initiator, i + 1), [], []))
    ensures Act(s.scheme, PartyAt(s, initiator, i), []) == None
  {
    hide *;
    MessageFits(s, i);
    PeerHeard(s, initiator);
    NextMessage(s, initiator, i);
    ReceivedMessage(s, initiator, i);
    var p := PartyAt(s, initiator, i);
    ReceiveStep(s.scheme, p, CipherAt(s, i), MessageAt(s, i), KnowsAt(s, initiator, i + 1));
  }

  /** A receive operation whose message opens and teaches `knows`. */
  lemma ReceiveStep(scheme: Scheme, p: Party, c: bytes, msg: bytes, knows: Knowledge)
    requires p.outcome == None && p.ops != [] && (p.ops[0].RecvId? || p.ops[0].RecvEmpty?)
    requires p.session.incoming.open(p.session.received, c) == Some(msg)
    requires if p.ops[0].RecvId? then HearIdentity(scheme, p.knows, Some(Ok(msg))) == Ok(knows)
             else msg == [] && knows == p.knows
    ensures Act(scheme, p, []) == None
    ensures var session := p.session.(received := p.session.received + 1);
            Act(scheme, p, [c]) == Some((p.(ops := p.ops[1..], session := session, knows := knows), [], []))
  {
    hide HearIdentity;
    assert [c][1..] == [];
  }

  lemma PeerHeard(s: Setup, initiator: bool)
    requires Matching(s)
    ensures var x, y := Self(s, initiator).knows, Self(s, !initiator).knows;
            var msg := SendPayload(Introduction(s.scheme, y), y.legacy.send);
            HearIdentity(s.scheme, x, Some(Ok(msg))) == Ok(Introduced(x, y))
  {
    hide Compatible;
    hide HearIdentity;
    Hears(s.scheme, Self(s, initiator), Self(s, !initiator));
  }

  lemma ReceivedMessage(s: Setup, initiator: bool, i: nat)
    requires i < Total(s) && (i % 2 == 0 <==> !initiator)
    ensures var k, op := KnowsAt(s, initiator, i), Ops(s, initiator)[i];
            if op.RecvId? then
              && k == Self(s, initiator).knows
              && KnowsAt(s, initiator, i + 1) == Introduced(k, Self(s, !initiator).knows)
              && MessageAt(s, i) == SendPayload(Introduction(s.scheme, Self(s, !initiator).knows),
                                                Self(s, !initiator).knows.legacy.send)
            else MessageAt(s, i) == [] && KnowsAt(s, initiator, i + 1) == k
  {
    hide SendPayload;
    hide Introduction;
    hide Introduced;
  }

  lemma PartyFinishes(s: Setup, initiator: bool, inbox: seq<bytes>)
    requires Matching(s)
    ensures var p := PartyAt(s, initiator, Total(s));
            var peer := Self(s, !initiator).knows.identity.public;
            Act(s.scheme, p, inbox) == Some((p.(outcome := Some(Ok(Identified(peer)))), inbox, []))
  {
    assert Compatible(s.scheme, Self(s, initiator), Self(s, !initiator));
  }

  /** Where a run stands: how many messages of the pattern each party has dealt with, and
      whether it has finished. */
  datatype Position = Position(i: nat, j: nat, iDone: bool, jDone: bool)

  ghost predicate Consistent(s: Setup, pos: Position) {
    && pos.i <= Total(s) && pos.j <= Total(s)
    && (pos.i == pos.j || (pos.i == pos.j + 1 && pos.j % 2 == 0) || (pos.j == pos.i + 1 && pos.i % 2 == 1))
    && (pos.iDone ==> pos.i == Total(s)) && (pos.jDone ==> pos.j == Total(s))
  }

  function Remaining(s: Setup, pos: Position): int {
    2 * Total(s) - pos.i - pos.j + (if pos.iDone then 0 else 1) + (if pos.jDone then 0 else 1)
  }

  function Ended(s: Setup, initiator: bool, p: Party, done: bool): Party {
    if done then p.(outcome := Some(Ok(Identified(Self(s, !initiator).knows.identity.public)))) else p
  }

  ghost function At(s: Setup, pos: Position): Net
    requires Consistent(s, pos)
  {
    Net(Ended(s, true, PartyAt(s, true, pos.i), pos.iDone),
        Ended(s, false, PartyAt(s, false, pos.j), pos.jDone),
        if pos.i == pos.j + 1 then [CipherAt(s, pos.j)] else [],
        if pos.j == pos.i + 1 then [CipherAt(s, pos.i)] else [])
  }

  /** The position after one party is scheduled. */
  function Advance(s: Setup, pos: Position, initiatorActs: bool): Position {
    if initiatorActs then
      if pos.iDone then pos
      else if pos.i == Total(s) then pos.(iDone := true)
      else if pos.i % 2 == 0 || pos.j == pos.i + 1 then pos.(i := pos.i + 1)
      else pos
    else
      if pos.jDone then pos
      else if pos.j == Total(s) then pos.(jDone := true)
      else if pos.j % 2 == 1 || pos.i == pos.j + 1 then pos.(j := pos.j + 1)
      else pos
  }

  lemma AdvanceConsistent(s: Setup, pos: Position, initiatorActs: bool)
    requires Consistent(s, pos)
    ensures Consistent(s, Advance(s, pos, initiatorActs))
    ensures Advance(s, pos, initiatorActs) == pos
         || Remaining(s, Advance(s, pos, initiatorActs)) == Remaining(s, pos) - 1
  {
  }

  lemma StepAt(s: Setup, pos: Position, initiatorActs: bool)
    requires Matching(s) && Consistent(s, pos)
    ensures Consistent(s, Advance(s, pos, initiatorActs))
    ensures Step(s.scheme, At(s, pos), initiatorActs) == At(s, Advance(s, pos, initiatorActs))
    ensures Enabled(s.scheme, At(s, pos), initiatorActs) <==> Advance(s, pos, initiatorActs) != pos
  {
    hide PartyAt;
    hide CipherAt;
    hide Matching;
    hide Act;
    hide Remaining;
    AdvanceConsistent(s, pos, initiatorActs);
    var i := if initiatorActs then pos.i else pos.j;
    NotYetDone(s, initiatorActs, i);
    if i == Total(s) {
      PartyFinishes(s, initiatorActs, if initiatorActs then At(s, pos).toInitiator else At(s, pos).toResponder);
    } else if i % 2 == 0 <==> initiatorActs {
      PartySends(s, initiatorActs, i);
    } else {
      PartyReceives(s, initiatorActs, i);
    }
    Finished(s.scheme, if initiatorActs then At(s, pos).initiator else At(s, pos).responder);
  }

  lemma Finished(scheme: Scheme, p: Party)
    ensures p.outcome.Some? ==> forall inbox :: Act(scheme, p, inbox) == None
  {
  }

  lemma NotYetDone(s: Setup, initiator: bool, i: nat)
    requires i <= Total(s)
    ensures PartyAt(s, initiator, i).outcome == None
  {
  }

  const ORIGIN: Position := Position(0, 0, false, false)

  /** How many of the scheduled steps were enabled. */
  ghost function Effective(scheme: Scheme, n: Net, schedule: seq<bool>): nat
    decreases |schedule|
  {
    if schedule == [] then 0
    else (if Enabled(scheme, n, schedule[0]) then 1 else 0)
         + Effective(scheme, Step(scheme, n, schedule[0]), schedule[1..])
  }

  lemma {:induction false} RunFrom(s: Setup, pos: Position, schedule: seq<bool>) returns (end: Position)
    requires Matching(s) && Consistent(s, pos)
    ensures Consistent(s, end) && Run(s.scheme, At(s, pos), schedule) == At(s, end)
    ensures Effective(s.scheme, At(s, pos), schedule) == Remaining(s, pos) - Remaining(s, end)
    decreases |schedule|
  {
    hide Matching;
    hide At;
    hide Step;
    hide Enabled;
    if schedule == [] {
      end := pos;
    } else {
      var next := Advance(s, pos, schedule[0]);
      StepAt(s, pos, schedule[0]);
      AdvanceConsistent(s, pos, schedule[0]);
      hide Consistent;
      hide Advance;
      end := RunFrom(s, next, schedule[1..]);
    }
  }

  /** Whatever the interleaving: no party ever fails, a finished party has identified its
      peer, the pair never deadlocks, and it finishes after a fixed number of steps. */
  lemma HandshakeCompletes(s: Setup, schedule: seq<bool>)
    requires Matching(s)
    ensures var n := Run(s.scheme, Begin(s), schedule);
            var steps := Effective(s.scheme, Begin(s), schedule);
      && (n.initiator.outcome == None || n.initiator.outcome == Some(Ok(Identified(s.responder.knows.identity.public))))
      && (n.responder.outcome == None || n.responder.outcome == Some(Ok(Identified(s.initiator.knows.identity.public))))
      && (Enabled(s.scheme, n, true) || Enabled(s.scheme, n, false)
          || (n.initiator.outcome.Some? && n.responder.outcome.Some?))
      && steps <= 2 * Total(s) + 2
      && (steps == 2 * Total(s) + 2 <==> n.initiator.outcome.Some? && n.responder.outcome.Some?)
  {
    hide Matching;
    hide Act;
    assert Begin(s) == At(s, ORIGIN);
    var end := RunFrom(s, ORIGIN, schedule);
    StepAt(s, end, true);
    StepAt(s, end, false);
    NotYetDone(s, true, end.i);
    NotYetDone(s, false, end.j);
    hide PartyAt;
    SomeoneCanAct(s, end);
  }

  lemma SomeoneCanAct(s: Setup, pos: Position)
    requires Consistent(s, pos)
    ensures Advance(s, pos, true) != pos || Advance(s, pos, false) != pos || (pos.iDone && pos.jDone)
    ensures Remaining(s, pos) >= 0
    ensures Remaining(s, pos) == 0 <==> pos.iDone && pos.jDone
  {
  }

  /** The introduction fits a frame and, if it is sent as a legacy payload, can be recovered. */
  ghost predicate Introducible(scheme: Scheme, knows: Knowledge, peer: LegacyConfig) {
    var size := |Encode(Introduction(scheme, knows))|;
    && size <= MAX_FRAME_LEN
    && (knows.legacy.send ==> peer.recv && 1 <= size < 2048)
  }

  lemma IntroducibleReceived(scheme: Scheme, knows: Knowledge, peer: LegacyConfig)
    requires Introducible(scheme, knows, peer)
    ensures var p := Introduction(scheme, knows);
      && |SendPayload(p, knows.legacy.send)| <= MAX_FRAME_LEN
      && (knows.legacy.send ==> peer.recv && p != DEFAULT && Decode(SendPayload(p, true)).None?)
  {
    hide Decode;
    var p := Introduction(scheme, knows);
    FieldsFit(p);
    EncodeEmpty(p);
    hide Encode;
    if knows.legacy.send {
      LegacyReceived(p);
    }
  }

  /** The configurations of the crate: `Mutual` on both sides for XX and IX, and for IK an
      initiator that knows the responder's identity while the responder only receives. With
      authentic key pairs they match, also if a side sends legacy payloads, provided its payload
      is within the legacy limits and the other side supports them. */
  lemma ConfigurationsMatch(s: Setup, initiatorId: IdentityKeypair, responderId: IdentityKeypair,
                            ik: bool, legacyI: LegacyConfig, legacyR: LegacyConfig)
    requires s.scheme.Sound() && s.fromInitiator.Sound() && s.fromResponder.Sound()
    requires forall k: nat, p: bytes ::
      |p| <= MAX_FRAME_LEN ==> s.fromInitiator.seal(k, p).Some? && s.fromResponder.seal(k, p).Some?
    requires s.scheme.parseDh(s.initiator.dh) == Some(s.initiator.dh)
             && s.scheme.parseDh(s.responder.dh) == Some(s.responder.dh)
    requires var a := s.scheme.IntoAuthentic(s.initiator.dh, initiatorId);
             var exchange := if ik then SendTo(responderId.public) else Mutual;
             a.Some? && s.initiator.knows == Start(a.value, exchange, legacyI)
    requires var a := s.scheme.IntoAuthentic(s.responder.dh, responderId);
             var exchange := if ik then Receive else Mutual;
             a.Some? && s.responder.knows == Start(a.value, exchange, legacyR)
    requires Introducible(s.scheme, s.initiator.knows, legacyR) && Introducible(s.scheme, s.responder.knows, legacyI)
    ensures Matching(s)
  {
    hide Encode;
    IntroducibleReceived(s.scheme, s.initiator.knows, legacyR);
    IntroducibleReceived(s.scheme, s.responder.knows, legacyI);
    hide Introducible;
    hide SendPayload;
    hide Decode;
    assert s.scheme.signWith(initiatorId, s.initiator.dh).Some?;
    assert s.scheme.signWith(responderId, s.responder.dh).Some?;
    assert Compatible(s.scheme, s.initiator, s.responder);
    assert Compatible(s.scheme, s.responder, s.initiator);
  }

  // Setups that exist

  /** Keys are numbers in unary, every signature is the same, and every DH key is valid. */
  function ToyScheme(): Scheme {
    Scheme(
      (k: IdentityKey) => seq(k.name + 1, _ => 1 as byte),
      (b: bytes) => if b != [] then Some(IdentityKey(|b| - 1)) else None,
      (b: bytes) => Some(b),
      (k: IdentityKey, dh: DhKey) => false,
      (k: IdentityKey, dh: DhKey, signature: bytes) => signature == [7],
      (kp: IdentityKeypair, dh: DhKey) => Some([7]))
  }

  /** A ciphertext is its plaintext behind one byte. */
  function ToyCipher(): Cipher {
    Cipher((k: nat, p: bytes) => Some([0] + p), (k: nat, c: bytes) => if c != [] then Some(c[1..]) else None)
  }

  function ToySetup(roundTrip15: bool, ik: bool, legacy: LegacyConfig): Setup {
    var initiator, responder := KeypairIdentity(IdentityKey(1), Some([7])), KeypairIdentity(IdentityKey(2), Some([7]));
    Setup(
      ToyScheme(), roundTrip15,
      Side(Start(initiator, if ik then SendTo(IdentityKey(2)) else Mutual, legacy), []),
      Side(Start(responder, if ik then Receive else Mutual, legacy), []),
      ToyCipher(), ToyCipher())
  }

  lemma ToysAreSound()
    ensures ToyScheme().Sound() && ToyCipher().Sound()
  {
    var scheme := ToyScheme();
    forall k: IdentityKey ensures scheme.encodeKey(k) != [] && scheme.parseKey(scheme.encodeKey(k)) == Some(k) {
      assert |scheme.encodeKey(k)| == k.name + 1;
    }
    forall k: nat, p: bytes ensures ToyCipher().open(k, ToyCipher().seal(k, p).value) == Some(p) {
      assert ([0] + p)[1..] == p;
    }
  }

  /** The premises of `ConfigurationsMatch`, and so of `HandshakeCompletes`, can be met: by each
      pattern, with both kinds of configuration, plain and with legacy payloads. */
  lemma MatchingSetupExists(roundTrip15: bool, ik: bool, legacy: bool)
    ensures Matching(ToySetup(roundTrip15, ik, LegacyConfig(legacy, legacy)))
  {
    var config := LegacyConfig(legacy, legacy);
    var s := ToySetup(roundTrip15, ik, config);
    var a, b := IdentityKeypair(IdentityKey(1), 0), IdentityKeypair(IdentityKey(2), 0);
    ToysAreSound();
    ToyIntroductions(s.initiator.knows);
    ToyIntroductions(s.responder.knows);
    hide Matching, Introducible, Start;
    ConfigurationsMatch(s, a, b, ik, config, config);
  }

  lemma ToyIntroductions(knows: Knowledge)
    requires knows.identity.public.name <= 2 && knows.identity.signature == Some([7])
    ensures knows.legacy.send ==> Introducible(ToyScheme(), knows, LegacyConfig(true, true))
    ensures !knows.legacy.send ==> Introducible(ToyScheme(), knows, knows.legacy)
  {
    var p := Introduction(ToyScheme(), knows);
    assert |EncodeVarint(|p.identityKey|)| == 1;
    assert |EncodeVarint(|p.identitySig|)| == 1;
  }
}
