/** The handshake drivers: what each side sends and learns, message by message. */
module Handshake {
  import opened Wrappers
  import opened Bytes
  import opened Frames
  import opened PayloadCodec

  /** Public identity keys, DH keys and signatures stay abstract. */
  datatype IdentityKey = IdentityKey(name: nat)

  datatype IdentityKeypair = IdentityKeypair(public: IdentityKey, secret: nat)

  type DhKey = bytes

  datatype Scheme = Scheme(
    encodeKey: IdentityKey -> bytes,
    parseKey: bytes -> Option<IdentityKey>,
    parseDh: bytes -> Option<DhKey>,
    linked: (IdentityKey, DhKey) -> bool,
    verifySignature: (IdentityKey, DhKey, bytes) -> bool,
    signWith: (IdentityKeypair, DhKey) -> Option<bytes>)
  {
    ghost predicate Sound() {
      && (forall k :: encodeKey(k) != [] && parseKey(encodeKey(k)) == Some(k))
      && (forall kp: IdentityKeypair, dh: DhKey :: signWith(kp, dh).Some? ==>
            signWith(kp, dh).value != [] && verifySignature(kp.public, dh, signWith(kp, dh).value))
    }

    /** `Protocol::verify`. */
    predicate Verify(id: IdentityKey, dh: DhKey, signature: Option<bytes>) {
      linked(id, dh) || (signature.Some? && verifySignature(id, dh, signature.value))
    }

    /** `Keypair::into_authentic`. */
    function IntoAuthentic(dh: DhKey, id: IdentityKeypair): Option<KeypairIdentity> {
      match signWith(id, dh)
      case None => None
      case Some(signature) => Some(KeypairIdentity(id.public, Some(signature)))
    }
  }

  datatype KeypairIdentity = KeypairIdentity(public: IdentityKey, signature: Option<bytes>)

  datatype IdentityExchange =
    | Mutual
    | SendTo(remote: IdentityKey)
    | Receive
    | NoExchange(remote: IdentityKey)

  datatype RemoteIdentity = Unknown | StaticDhKey(dh: DhKey) | Identified(id: IdentityKey)

  datatype LegacyConfig = LegacyConfig(send: bool, recv: bool)

  datatype NoiseError = Io(error: IoError) | InvalidKey | InvalidPayload | Incomplete

  /** The fields of `State` besides the I/O resource. */
  datatype Knowledge = Knowledge(
    identity: KeypairIdentity,
    signature: Option<bytes>,
    remote: Option<IdentityKey>,
    sendIdentity: bool,
    legacy: LegacyConfig)

  /** `State::new`. */
  function Start(identity: KeypairIdentity, exchange: IdentityExchange, legacy: LegacyConfig): (k: Knowledge)
    ensures k.remote.Some? <==> exchange.SendTo? || exchange.NoExchange?
    ensures k.sendIdentity <==> exchange.Mutual? || exchange.SendTo?
    ensures k.signature == None
  {
    match exchange
    case Mutual => Knowledge(identity, None, None, true, legacy)
    case SendTo(remote) => Knowledge(identity, None, Some(remote), true, legacy)
    case Receive => Knowledge(identity, None, None, false, legacy)
    case NoExchange(remote) => Knowledge(identity, None, Some(remote), false, legacy)
  }

  function Introduction(scheme: Scheme, k: Knowledge): Payload {
    Payload(if k.sendIdentity then scheme.encodeKey(k.identity.public) else [],
            if k.identity.signature.Some? then k.identity.signature.value else [],
            [])
  }

  /** What a decoded payload teaches the receiver. */
  function Absorb(scheme: Scheme, k: Knowledge, p: Payload): Result<Knowledge, NoiseError> {
    var signature := if p.identitySig != [] then Some(p.identitySig) else k.signature;
    if p.identityKey == [] then Ok(k.(signature := signature))
    else
      match scheme.parseKey(p.identityKey)
      case None => Err(InvalidKey)
      case Some(id) =>
        if k.remote.Some? && k.remote.value != id then Err(InvalidKey)
        else Ok(k.(remote := Some(id), signature := signature))
  }

  /** The outcome of waiting for a handshake message: end of file, an error or a payload. */
  type Received = Option<Result<bytes, IoError>>

  function Recv(received: Received): Result<bytes, NoiseError> {
    match received
    case None => Err(Io(UnexpectedEof))
    case Some(Err(e)) => Err(Io(e))
    case Some(Ok(msg)) => Ok(msg)
  }

  function HearIdentity(scheme: Scheme, k: Knowledge, received: Received): Result<Knowledge, NoiseError> {
    match Recv(received)
    case Err(e) => Err(e)
    case Ok(msg) =>
      match ReceivePayload(msg, k.legacy.recv)
      case None => Err(InvalidPayload)
      case Some(p) => Absorb(scheme, k, p)
  }

  function HearEmpty(k: Knowledge, received: Received): Result<Knowledge, NoiseError> {
    match Recv(received)
    case Err(e) => Err(e)
    case Ok(msg) => if msg == [] then Ok(k) else Err(Io(InvalidData))
  }

  /** `State::finish`: `remoteStatic` is the DH key the session reports, if any, and
      `complete` says whether the session can enter transport mode. */
  function Conclude(scheme: Scheme, k: Knowledge, remoteStatic: Option<bytes>, complete: bool)
    : Result<RemoteIdentity, NoiseError>
  {
    if remoteStatic.Some? && scheme.parseDh(remoteStatic.value).None? then Err(InvalidKey)
    else if !complete then Err(Incomplete)
    else if remoteStatic.None? then Ok(Unknown)
    else
      var dh := scheme.parseDh(remoteStatic.value).value;
      match k.remote
      case None => Ok(StaticDhKey(dh))
      case Some(id) => if scheme.Verify(id, dh, k.signature) then Ok(Identified(id)) else Err(InvalidKey)
  }

  /** `State<T>` and the functions that update it. */
  class State {
    const scheme: Scheme
    var identity: KeypairIdentity
    var dhRemotePubkeySig: Option<bytes>
    var idRemotePubkey: Option<IdentityKey>
    var sendIdentity: bool
    var legacy: LegacyConfig

    constructor (scheme: Scheme, identity: KeypairIdentity, exchange: IdentityExchange, legacy: LegacyConfig)
      ensures this.scheme == scheme && Knows() == Start(identity, exchange, legacy)
    {
      this.scheme := scheme;
      this.identity, this.legacy, dhRemotePubkeySig := identity, legacy, None;
      match exchange {
        case Mutual => idRemotePubkey, sendIdentity := None, true;
        case SendTo(remote) => idRemotePubkey, sendIdentity := Some(remote), true;
        case Receive => idRemotePubkey, sendIdentity := None, false;
        case NoExchange(remote) => idRemotePubkey, sendIdentity := Some(remote), false;
      }
    }

    ghost function Knows(): Knowledge
      reads this
    {
      Knowledge(identity, dhRemotePubkeySig, idRemotePubkey, sendIdentity, legacy)
    }

    /** `recv_identity`. The state is left half updated by no error. */
    method RecvIdentity(received: Received) returns (r: Result<(), NoiseError>)
      modifies this
      ensures match HearIdentity(scheme, old(Knows()), received)
              case Ok(k) => r == Ok(()) && Knows() == k
              case Err(e) => r == Err(e) && Knows() == old(Knows())
    {
      var msg: bytes;
      match received {
        case None => return Err(Io(UnexpectedEof));
        case Some(Err(e)) => return Err(Io(e));
        case Some(Ok(m)) => msg := m;
      }
      var pb := Decode(msg);
      if pb.None? && legacy.recv {
        if |msg| > 2 {
          if FromBeBytes(msg[..2]) + 2 == |msg| {
            pb := Decode(msg[2..]);
          }
        }
      }
      if pb.None? {
        return Err(InvalidPayload);
      }
      if pb.value.identityKey != [] {
        var pk := scheme.parseKey(pb.value.identityKey);
        if pk.None? {
          return Err(InvalidKey);
        }
        if idRemotePubkey.Some? && idRemotePubkey.value != pk.value {
          return Err(InvalidKey);
        }
        idRemotePubkey := pk;
      }
      if pb.value.identitySig != [] {
        dhRemotePubkeySig := Some(pb.value.identitySig);
      }
      r := Ok(());
    }

    /** `send_identity`, up to handing the message to the framed connection. */
    method SendIdentity() returns (msg: bytes)
      ensures msg == SendPayload(Introduction(scheme, Knows()), legacy.send)
    {
      var pb := DEFAULT;
      if sendIdentity {
        pb := pb.(identityKey := scheme.encodeKey(identity.public));
      }
      if identity.signature.Some? {
        pb := pb.(identitySig := identity.signature.value);
      }
      msg := [];
      if legacy.send {
        msg := ToBeBytes(|Encode(pb)|);
      }
      msg := msg + Encode(pb);
    }
  }
}
