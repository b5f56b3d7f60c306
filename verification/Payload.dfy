/** `NoiseHandshakePayload` on the wire: Protocol Buffers with three `bytes` fields (sections
    "Base 128 Varints" and "Length-Delimited Records" of the Protocol Buffers Encoding guide),
    and the legacy form with a second length prefix. */
module PayloadCodec {
  import opened Wrappers
  import opened Bytes

  datatype Payload = Payload(identityKey: bytes, identitySig: bytes, data: bytes)

  const DEFAULT: Payload := Payload([], [], [])

  const LENGTH_DELIMITED: nat := 2

  const U64: nat := 0x1_0000_0000_0000_0000

  /** Base 128 varint, least significant group first. */
  function EncodeVarint(n: nat): (w: bytes)
    ensures w != []
  {
    if n < 128 then [n as byte] else [(n % 128 + 128) as byte] + EncodeVarint(n / 128)
  }

  /** Decodes a varint whose first `count` bytes have been read: at most ten bytes, and
      nothing that does not fit in 64 bits. */
  function DecodeVarintFrom(w: bytes, count: nat): (r: Option<(nat, bytes)>)
    ensures r.Some? ==> |r.value.1| < |w|
    decreases |w|
  {
    if w == [] || count >= 10 then None
    else if w[0] < 128 then
      if count == 9 && w[0] >= 2 then None else Some((w[0] as nat, w[1..]))
    else
      match DecodeVarintFrom(w[1..], count + 1)
      case None => None
      case Some((high, rest)) => Some(((w[0] - 128) as nat + 128 * high, rest))
  }

  function DecodeVarint(w: bytes): (r: Option<(nat, bytes)>)
    ensures r.Some? ==> |r.value.1| < |w|
  {
    DecodeVarintFrom(w, 0)
  }

  /** One field: key, length, content. */
  function EncodeField(tag: nat, content: bytes): bytes
    requires 1 <= tag <= 3
  {
    [(tag * 8 + LENGTH_DELIMITED) as byte] + EncodeVarint(|content|) + content
  }

  /** Fields with the default value are left out. */
  function EncodeOptional(tag: nat, content: bytes): bytes
    requires 1 <= tag <= 3
  {
    if content == [] then [] else EncodeField(tag, content)
  }

  function Encode(p: Payload): bytes {
    EncodeOptional(1, p.identityKey) + EncodeOptional(2, p.identitySig) + EncodeOptional(3, p.data)
  }

  datatype Key = Key(tag: nat, wireType: nat)

  /** A key is a 32-bit varint; tag 0 and wire types above 5 are invalid. */
  function DecodeKey(w: bytes): (r: Option<(Key, bytes)>)
    ensures r.Some? ==> |r.value.1| < |w|
  {
    match DecodeVarint(w)
    case None => None
    case Some((key, rest)) =>
      if key > 0xFFFF_FFFF || key % 8 > 5 || key / 8 < 1 then None
      else Some((Key(key / 8, key % 8), rest))
  }

  function DecodeContent(w: bytes): (r: Option<(bytes, bytes)>)
    ensures r.Some? ==> |r.value.1| < |w|
  {
    match DecodeVarint(w)
    case None => None
    case Some((len, rest)) => if len > |rest| then None else Some((rest[..len], rest[len..]))
  }

  function Drop(w: bytes, n: nat): (r: Option<bytes>)
    ensures r.Some? ==> |r.value| <= |w|
  {
    if n > |w| then None else Some(w[n..])
  }

  /** Skips the value of an unknown field. */
  function SkipField(key: Key, w: bytes): (r: Option<bytes>)
    ensures r.Some? ==> |r.value| <= |w|
    decreases |w|, 1
  {
    match key.wireType
    case 0 => (match DecodeVarint(w) case None => None case Some((_, rest)) => Some(rest))
    case 1 => Drop(w, 8)
    case 2 => (match DecodeContent(w) case None => None case Some((_, rest)) => Some(rest))
    case 3 => SkipGroup(key.tag, w)
    case 5 => Drop(w, 4)
    case _ => None
  }

  /** Skips fields up to the end of group `tag`. */
  function SkipGroup(tag: nat, w: bytes): (r: Option<bytes>)
    ensures r.Some? ==> |r.value| <= |w|
    decreases |w|, 0
  {
    match DecodeKey(w)
    case None => None
    case Some((key, rest)) =>
      if key.wireType == 4 then
        if key.tag == tag then Some(rest) else None
      else
        match SkipField(key, rest)
        case None => None
        case Some(rest') => SkipGroup(tag, rest')
  }

  function SetField(p: Payload, tag: nat, content: bytes): Payload
    requires 1 <= tag <= 3
  {
    if tag == 1 then p.(identityKey := content)
    else if tag == 2 then p.(identitySig := content)
    else p.(data := content)
  }

  /** Merges the fields in `w` into `p`; a repeated field overwrites, an unknown one is skipped. */
  function Merge(p: Payload, w: bytes): Option<Payload>
    decreases |w|
  {
    if w == [] then Some(p)
    else
      match DecodeKey(w)
      case None => None
      case Some((key, rest)) =>
        if 1 <= key.tag <= 3 then
          if key.wireType != LENGTH_DELIMITED then None
          else
            match DecodeContent(rest)
            case None => None
            case Some((content, rest')) => Merge(SetField(p, key.tag, content), rest')
        else
          match SkipField(key, rest)
          case None => None
          case Some(rest') => Merge(p, rest')
  }

  function Decode(w: bytes): Option<Payload> {
    Merge(DEFAULT, w)
  }

  ghost predicate Fits64(p: Payload) {
    |p.identityKey| < U64 && |p.identitySig| < U64 && |p.data| < U64
  }

  /** The values that still fit when `count` bytes of a varint are already read. */
  ghost function Cap(count: nat): nat
    decreases 10 - count
  {
    if count >= 9 then 2 else 128 * Cap(count + 1)
  }

  lemma {:induction false} VarintRoundTripFrom(n: nat, rest: bytes, count: nat)
    requires count <= 9 && n < Cap(count)
    ensures DecodeVarintFrom(EncodeVarint(n) + rest, count) == Some((n, rest))
    decreases n
  {
    hide EncodeVarint;
    hide DecodeVarintFrom;
    hide Cap;
    CapStep(count);
    EncodeStep(n);
    if n < 128 {
      LastGroup(n, rest, count);
    } else {
      VarintRoundTripFrom(n / 128, rest, count + 1);
      var low := (n % 128 + 128) as byte;
      MoreGroups(low, EncodeVarint(n / 128) + rest, count);
      assert EncodeVarint(n) + rest == [low] + (EncodeVarint(n / 128) + rest);
    }
  }

  lemma CapStep(count: nat)
    requires count <= 9
    ensures Cap(count) == if count == 9 then 2 else 128 * Cap(count + 1)
  {
  }

  lemma EncodeStep(n: nat)
    ensures EncodeVarint(n) == if n < 128 then [n as byte]
                               else [(n % 128 + 128) as byte] + EncodeVarint(n / 128)
  {
  }

  lemma LastGroup(n: nat, rest: bytes, count: nat)
    requires n < 128 && count <= 9 && (count == 9 ==> n < 2)
    ensures DecodeVarintFrom([n as byte] + rest, count) == Some((n, rest))
  {
    assert ([n as byte] + rest)[1..] == rest;
  }

  lemma MoreGroups(low: byte, w: bytes, count: nat)
    requires low >= 128 && count <= 9
    ensures DecodeVarintFrom([low] + w, count)
         == match DecodeVarintFrom(w, count + 1)
            case None => None
            case Some((high, rest)) => Some(((low - 128) as nat + 128 * high, rest))
  {
    assert ([low] + w)[1..] == w;
  }

  lemma VarintRoundTrip(n: nat, rest: bytes)
    requires n < U64
    ensures DecodeVarint(EncodeVarint(n) + rest) == Some((n, rest))
  {
    CapIs64Bit();
    VarintRoundTripFrom(n, rest, 0);
  }

  lemma KeyDecodes(key: nat, body: bytes)
    requires 8 <= key < 128 && key % 8 <= 5
    ensures DecodeKey([key as byte] + body) == Some((Key(key / 8, key % 8), body))
  {
    hide DecodeVarint;
    assert EncodeVarint(key) == [key as byte];
    VarintRoundTrip(key, body);
  }

  lemma ContentDecodes(content: bytes, rest: bytes)
    requires |content| < U64
    ensures DecodeContent(EncodeVarint(|content|) + (content + rest)) == Some((content, rest))
  {
    hide EncodeVarint;
    hide DecodeVarint;
    VarintRoundTrip(|content|, content + rest);
    assert (content + rest)[..|content|] == content && (content + rest)[|content|..] == rest;
  }

  /** Decoding a field sets it and goes on behind it. */
  lemma MergeField(p: Payload, tag: nat, content: bytes, rest: bytes)
    requires 1 <= tag <= 3 && |content| < U64
    ensures Merge(p, EncodeField(tag, content) + rest) == Merge(SetField(p, tag, content), rest)
  {
    hide EncodeVarint;
    hide DecodeKey;
    hide DecodeContent;
    var body := EncodeVarint(|content|) + (content + rest);
    assert EncodeField(tag, content) + rest == [(tag * 8 + LENGTH_DELIMITED) as byte] + body;
    KeyDecodes(tag * 8 + LENGTH_DELIMITED, body);
    ContentDecodes(content, rest);
  }

  // What the decoder skips and what it refuses

  /** A key on the wire: valid exactly for a tag in 29 bits, not 0, and one of the six wire types. */
  lemma KeyExactly(w: bytes)
    ensures DecodeKey(w).Some? <==>
      && DecodeVarint(w).Some?
      && var n := DecodeVarint(w).value.0;
         n < 0x1_0000_0000 && n % 8 <= 5 && n >= 8
    ensures DecodeKey(w).Some? ==>
      && DecodeKey(w).value.0.tag * 8 + DecodeKey(w).value.0.wireType == DecodeVarint(w).value.0
      && DecodeKey(w).value.1 == DecodeVarint(w).value.1
      && 1 <= DecodeKey(w).value.0.tag < 0x2000_0000 && DecodeKey(w).value.0.wireType <= 5
  {
  }

  /** No varint decodes to a number that does not fit in 64 bits, or is longer than ten bytes. */
  lemma {:induction false} VarintFits(w: bytes, count: nat)
    requires count <= 10
    ensures DecodeVarintFrom(w, count).Some? ==>
      && count < 10 && DecodeVarintFrom(w, count).value.0 < Cap(count)
      && |w| - |DecodeVarintFrom(w, count).value.1| <= 10 - count
    decreases |w|
  {
    if w != [] && count < 10 {
      CapStep(count);
      CapGrows(count);
      hide Cap;
      if w[0] >= 128 {
        VarintFits(w[1..], count + 1);
      }
    }
  }

  lemma {:induction false} CapGrows(count: nat)
    ensures Cap(count) >= if count >= 9 then 2 else 256
    decreases 10 - count
  {
    if count < 9 {
      CapGrows(count + 1);
    }
  }

  lemma VarintIs64Bit(w: bytes)
    ensures DecodeVarint(w).Some? ==> DecodeVarint(w).value.0 < U64 && |w| - |DecodeVarint(w).value.1| <= 10
  {
    VarintFits(w, 0);
    CapIs64Bit();
  }

  lemma CapIs64Bit()
    ensures Cap(0) == U64
  {
    assert Cap(9) == 2 && Cap(8) == 256 && Cap(7) == 128 * 256;
    assert Cap(5) == 128 * 128 * Cap(7);
    assert Cap(3) == 128 * 128 * Cap(5);
    assert Cap(1) == 128 * 128 * Cap(3);
    assert Cap(0) == 128 * Cap(1) == U64;
  }

  /** The bytes of a field that is none of the three: a varint, eight or four bytes, a string of
      bytes, or a group of such fields. */
  datatype Foreign =
    | Number(n: nat)
    | Eight(content: bytes)
    | Four(content: bytes)
    | Text(content: bytes)
    | Group(fields: Fields)

  datatype Fields = End | More(tag: nat, field: Foreign, others: Fields)

  ghost predicate WellFormedForeign(f: Foreign)
    decreases f
  {
    match f
    case Number(n) => n < U64
    case Eight(content) => |content| == 8
    case Four(content) => |content| == 4
    case Text(content) => |content| < U64
    case Group(fields) => WellFormedFields(fields)
  }

  ghost predicate WellFormedFields(fields: Fields)
    decreases fields
  {
    match fields
    case End => true
    case More(tag, field, others) => 1 <= tag < 0x2000_0000 && WellFormedForeign(field) && WellFormedFields(others)
  }

  function WireTypeOf(f: Foreign): nat {
    match f
    case Number(_) => 0
    case Eight(_) => 1
    case Text(_) => 2
    case Group(_) => 3
    case Four(_) => 5
  }

  /** A foreign field with its key, in front of `rest`. */
  function PutForeign(tag: nat, f: Foreign, rest: bytes): bytes
    decreases f, 1
  {
    EncodeVarint(tag * 8 + WireTypeOf(f)) + PutValue(tag, f, rest)
  }

  function PutValue(tag: nat, f: Foreign, rest: bytes): bytes
    decreases f, 0
  {
    match f
    case Number(n) => EncodeVarint(n) + rest
    case Eight(content) => content + rest
    case Four(content) => content + rest
    case Text(content) => EncodeVarint(|content|) + (content + rest)
    case Group(fields) => PutGroup(tag, fields, rest)
  }

  /** The fields of a group, and the key that ends it. */
  function PutGroup(tag: nat, fields: Fields, rest: bytes): bytes
    decreases fields, 0
  {
    match fields
    case End => EncodeVarint(tag * 8 + 4) + rest
    case More(t, field, others) => PutForeign(t, field, PutGroup(tag, others, rest))
  }

  lemma AnyKeyDecodes(tag: nat, wireType: nat, rest: bytes)
    requires 1 <= tag < 0x2000_0000 && wireType <= 5
    ensures DecodeKey(EncodeVarint(tag * 8 + wireType) + rest) == Some((Key(tag, wireType), rest))
  {
    hide EncodeVarint, DecodeVarint;
    VarintRoundTrip(tag * 8 + wireType, rest);
  }

  lemma {:induction false} ValueSkipped(tag: nat, f: Foreign, rest: bytes)
    requires 1 <= tag < 0x2000_0000 && WellFormedForeign(f)
    ensures SkipField(Key(tag, WireTypeOf(f)), PutValue(tag, f, rest)) == Some(rest)
    decreases f, 0
  {
    hide EncodeVarint, DecodeVarint, DecodeContent;
    match f
    case Number(n) => VarintRoundTrip(n, rest);
    case Eight(content) => assert (content + rest)[8..] == rest;
    case Four(content) => assert (content + rest)[4..] == rest;
    case Text(content) => ContentDecodes(content, rest);
    case Group(fields) => GroupSkipped(tag, fields, rest);
  }

  lemma {:induction false} GroupSkipped(tag: nat, fields: Fields, rest: bytes)
    requires 1 <= tag < 0x2000_0000 && WellFormedFields(fields)
    ensures SkipGroup(tag, PutGroup(tag, fields, rest)) == Some(rest)
    decreases fields, 0
  {
    hide EncodeVarint, DecodeKey, SkipField;
    match fields
    case End => AnyKeyDecodes(tag, 4, rest);
    case More(t, field, others) =>
      var behind := PutGroup(tag, others, rest);
      AnyKeyDecodes(t, WireTypeOf(field), PutValue(t, field, behind));
      ValueSkipped(t, field, behind);
      GroupSkipped(tag, others, rest);
  }

  /** Fields with other tags make no difference, of whatever kind they are. */
  lemma ForeignSkipped(p: Payload, tag: nat, f: Foreign, rest: bytes)
    requires 4 <= tag < 0x2000_0000 && WellFormedForeign(f)
    ensures Merge(p, PutForeign(tag, f, rest)) == Merge(p, rest)
  {
    hide EncodeVarint, DecodeKey, SkipField;
    AnyKeyDecodes(tag, WireTypeOf(f), PutValue(tag, f, rest));
    ValueSkipped(tag, f, rest);
    assert PutForeign(tag, f, rest) != [] by {
      assert EncodeVarint(tag * 8 + WireTypeOf(f)) != [];
    }
  }

  /** A field of the payload that is not a string of bytes, or is cut off, is refused. */
  lemma BrokenRefused(p: Payload, tag: nat, wireType: nat, rest: bytes)
    requires 1 <= tag <= 3 && wireType <= 5
    requires wireType != LENGTH_DELIMITED || DecodeContent(rest) == None
    ensures Merge(p, EncodeVarint(tag * 8 + wireType) + rest) == None
  {
    hide EncodeVarint, DecodeKey, DecodeContent;
    AnyKeyDecodes(tag, wireType, rest);
  }

  lemma MergeNothing(p: Payload)
    ensures Merge(p, []) == Some(p)
  {
  }

  lemma MergeOptional(p: Payload, tag: nat, content: bytes, rest: bytes)
    requires 1 <= tag <= 3 && |content| < U64
    requires SetField(p, tag, []) == p
    ensures Merge(p, EncodeOptional(tag, content) + rest) == Merge(SetField(p, tag, content), rest)
  {
    hide Merge;
    if content == [] {
      assert EncodeOptional(tag, content) + rest == rest;
    } else {
      MergeField(p, tag, content, rest);
    }
  }

  /** Every payload survives encoding and decoding, whatever its fields contain. */
  lemma RoundTrip(p: Payload)
    requires Fits64(p)
    ensures Decode(Encode(p)) == Some(p)
  {
    hide EncodeOptional;
    var e1, e2, e3 := EncodeOptional(1, p.identityKey), EncodeOptional(2, p.identitySig), EncodeOptional(3, p.data);
    assert Encode(p) == e1 + (e2 + (e3 + []));
    hide Merge;
    MergeNothing(p);
    MergeOptional(DEFAULT, 1, p.identityKey, e2 + (e3 + []));
    MergeOptional(Payload(p.identityKey, [], []), 2, p.identitySig, e3 + []);
    MergeOptional(Payload(p.identityKey, p.identitySig, []), 3, p.data, []);
  }

  lemma EncodeEmpty(p: Payload)
    ensures Encode(p) == [] <==> p == DEFAULT
  {
  }

  /** The message that `send_identity` builds. */
  function SendPayload(p: Payload, legacy: bool): bytes {
    var encoded := Encode(p);
    if legacy then ToBeBytes(|encoded|) + encoded else encoded
  }

  /** How `recv_identity` decodes a message: plainly, and with the legacy fallback if that fails. */
  function ReceivePayload(msg: bytes, legacy: bool): Option<Payload> {
    var plain := Decode(msg);
    if plain.None? && legacy && |msg| > 2 && FromBeBytes(msg[..2]) + 2 == |msg| then Decode(msg[2..])
    else plain
  }

  /** A plain message is recovered by every receiver. */
  lemma PlainReceived(p: Payload, legacy: bool)
    requires Fits64(p)
    ensures ReceivePayload(SendPayload(p, false), legacy) == Some(p)
  {
    RoundTrip(p);
  }

  /** For every length that the two bytes can hold: a legacy message that does not decode as a
      plain one is recovered exactly when the payload is not empty, and one that does decode as a
      plain one is taken for that. */
  lemma LegacyExact(p: Payload)
    requires |Encode(p)| < 0x1_0000 && Fits64(p)
    ensures var msg := SendPayload(p, true);
            ReceivePayload(msg, true) == if Decode(msg).None? && p != DEFAULT then Some(p) else Decode(msg)
    ensures var msg := SendPayload(p, true);
            ReceivePayload(msg, true) == Some(p) <==> Decode(msg) == Some(p) || (Decode(msg).None? && p != DEFAULT)
  {
    hide Encode;
    hide Decode;
    EncodeEmpty(p);
    var encoded := Encode(p);
    var msg := ToBeBytes(|encoded|) + encoded;
    BeBytesRoundTrip(|encoded|);
    assert msg[..2] == ToBeBytes(|encoded|) && msg[2..] == encoded;
    RoundTrip(p);
  }

  /** A first byte below 8 stands for tag 0. */
  lemma NoTag(w: bytes)
    requires w != [] && w[0] < 8
    ensures Decode(w) == None
  {
    assert DecodeVarint(w) == Some((w[0] as nat, w[1..]));
    KeyExactly(w);
  }

  /** Up to 2047 encoded bytes the first length byte stands for tag 0, so a legacy message
      never decodes as a plain one: it is recovered by a receiver with legacy support exactly
      when the encoding is not empty, and refused by any other receiver. This covers more
      than the 255 bytes the source claims, and shows the one exception, an empty payload. */
  lemma LegacyReceived(p: Payload)
    requires |Encode(p)| < 2048
    requires Fits64(p)
    ensures ReceivePayload(SendPayload(p, true), false) == None
    ensures ReceivePayload(SendPayload(p, true), true) == Some(p) <==> p != DEFAULT
    ensures p == DEFAULT ==> ReceivePayload(SendPayload(p, true), true) == None
  {
    LegacyExact(p);
    hide Encode, Decode;
    var msg := SendPayload(p, true);
    assert msg[0] < 8;
    NoTag(msg);
  }

  /** Longer legacy messages can be taken for plain ones: this one carries 2560 bytes in the place
      of the identity key, and decodes to another key with no error and no fallback. It is an
      input of the codec alone: an encoded public key does not start like this one, and the key
      decoded here is refused by `RecvIdentity` as invalid if `parseKey` refuses it. */
  lemma LegacyMisread()
    ensures var zeros := seq(2557, _ => 0 as byte);
            var p := Payload([0x1A, 0xFD, 0x13] + zeros, [], []);
            && |Encode(p)| == 2563
            && ReceivePayload(SendPayload(p, true), true) == Some(Payload([0x0A, 0x80, 0x14], [], zeros))
  {
    hide Merge;
    var zeros := seq(2557, _ => 0 as byte);
    MergeNothing(Payload([0x0A, 0x80, 0x14], [], zeros));
    var inner: bytes := [0x1A, 0xFD, 0x13];
    var p := Payload(inner + zeros, [], []);
    assert EncodeVarint(20) == [0x14] && EncodeVarint(2560) == [0x80, 0x14];
    assert EncodeVarint(19) == [0x13] && EncodeVarint(2557) == [0xFD, 0x13];
    var encoded: bytes := [0x0A, 0x80, 0x14] + (inner + zeros);
    assert Encode(p) == encoded;
    var stolen: bytes := [0x0A, 0x80, 0x14];
    assert ToBeBytes(2563) == [0x0A, 0x03];
    assert EncodeVarint(3) == [3];
    assert SendPayload(p, true) == EncodeField(1, stolen) + (EncodeField(3, zeros) + []);
    MergeField(DEFAULT, 1, stolen, EncodeField(3, zeros) + []);
    MergeField(SetField(DEFAULT, 1, stolen), 3, zeros, []);
  }
}
