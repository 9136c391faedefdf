/**
 The TMP client on a byte stream that the transport may cut anywhere: framing,
 the two sequence counters, and the request path through all three layers.
 */
module TmpStream {
  import opened Wrappers
  import opened ByteStrings
  import opened Packets

  // --------------------------------------------------------------- framing

  /** The first frame of a stream and the bytes after it; Raised when the stream ends inside it. */
  function ReadTslp(stream: Bytes): Result<(Tslp, Bytes)> {
    if |stream| < TSLP_HEADER_SIZE then Raised
    else
      var length := FromBigEndian(stream[4..8]);
      if |stream| < TSLP_HEADER_SIZE + length then Raised
      else
        var p :- DecodeTslp(stream[..TSLP_HEADER_SIZE + length]);
        Ok((p, stream[TSLP_HEADER_SIZE + length..]))
  }

  /** The receiving end of the connection; an empty buffer is a closed connection. */
  class Transport {
    var incoming: Bytes

    constructor (incoming: Bytes)
      ensures this.incoming == incoming
    {
      this.incoming := incoming;
    }

    /** `recv(limit)`: any non-empty piece of at most `limit` bytes, or nothing once closed. */
    method Recv(limit: nat) returns (chunk: Bytes)
      requires limit > 0
      modifies this
      ensures |chunk| <= limit && chunk + incoming == old(incoming)
      ensures chunk == [] <==> old(incoming) == []
    {
      if incoming == [] {
        return [];
      }
      var k :| 1 <= k <= limit && k <= |incoming|;
      chunk, incoming := incoming[..k], incoming[k..];
    }
  }

  /** One of the two reading loops of `_recv_tslp`. */
  method ReadExactly(t: Transport, n: nat) returns (res: Result<Bytes>)
    modifies t
    ensures |old(t.incoming)| >= n ==> res == Ok(old(t.incoming)[..n]) && t.incoming == old(t.incoming)[n..]
    ensures |old(t.incoming)| < n ==> res == Raised && t.incoming == []
  {
    var got: Bytes := [];
    while |got| < n
      invariant |got| <= n && got + t.incoming == old(t.incoming)
    {
      var chunk := t.Recv(n - |got|);
      if chunk == [] {
        return Raised;
      }
      assert got + (chunk + t.incoming) == (got + chunk) + t.incoming;
      got := got + chunk;
    }
    return Ok(got);
  }

  /** `_recv_tslp`: however the transport cuts the stream, the first frame and nothing more. */
  method RecvTslp(t: Transport) returns (res: Result<Tslp>)
    modifies t
    ensures match ReadTslp(old(t.incoming))
            case Ok(r) => res == Ok(r.0) && t.incoming == r.1
            case Raised => res == Raised && t.incoming == []
  {
    ghost var stream := t.incoming;
    var header := ReadExactly(t, TSLP_HEADER_SIZE);
    if header.Raised? {
      return Raised;
    }
    assert header.value[4..8] == stream[4..8];
    var length := FromBigEndian(header.value[4..8]);
    var payload := ReadExactly(t, length);
    if payload.Raised? {
      return Raised;
    }
    assert header.value + payload.value == stream[..TSLP_HEADER_SIZE + length];
    assert t.incoming == stream[TSLP_HEADER_SIZE + length..];
    res := DecodeTslp(header.value + payload.value);
  }

  /** `n` frames in a row. */
  function ReadMany(stream: Bytes, n: nat): Result<(seq<Tslp>, Bytes)> {
    if n == 0 then Ok(([], stream))
    else
      var first :- ReadTslp(stream);
      var rest :- ReadMany(first.1, n - 1);
      Ok(([first.0] + rest.0, rest.1))
  }

  /** An encoded packet at the head of a stream is read back and the rest is untouched. */
  lemma ReadEncoded(crc: Checksum, p: Tslp, rest: Bytes)
    requires EncodeTslp(crc, p).Ok? && FitsChannel(p.channel)
    ensures ReadTslp(EncodeTslp(crc, p).value + rest) == Ok((p, rest))
  {
    var e := EncodeTslp(crc, p).value;
    TslpDecodes(crc, p);
    TslpRoundTrip(crc, p);
    assert (e + rest)[4..8] == e[4..8];
    assert (e + rest)[..|e|] == e && (e + rest)[|e|..] == rest;
  }

  /** The concatenation of encoded packets. */
  function EncodeAll(crc: Checksum, ps: seq<Tslp>): Bytes
    requires forall p | p in ps :: EncodeTslp(crc, p).Ok?
  {
    if ps == [] then [] else EncodeTslp(crc, ps[0]).value + EncodeAll(crc, ps[1..])
  }

  lemma ReadManyCons(stream: Bytes, p: Tslp, rest: Bytes, n: nat, ps: seq<Tslp>, left: Bytes)
    requires ReadTslp(stream) == Ok((p, rest)) && ReadMany(rest, n) == Ok((ps, left))
    ensures ReadMany(stream, n + 1) == Ok(([p] + ps, left))
  {
  }

  /** A stream of any packets with storable channel names is read back packet by packet. */
  lemma {:induction false} StreamRoundTrip(crc: Checksum, ps: seq<Tslp>, rest: Bytes)
    requires forall p | p in ps :: EncodeTslp(crc, p).Ok? && FitsChannel(p.channel)
    ensures ReadMany(EncodeAll(crc, ps) + rest, |ps|) == Ok((ps, rest))
  {
    if ps == [] {
      assert [] + rest == rest;
    } else {
      var e, tail := EncodeTslp(crc, ps[0]).value, EncodeAll(crc, ps[1..]);
      ConcatAssociates(e, tail, rest);
      ReadEncoded(crc, ps[0], tail + rest);
      StreamRoundTrip(crc, ps[1..], rest);
      ReadManyCons(e + (tail + rest), ps[0], tail + rest, |ps| - 1, ps[1..], rest);
      assert ps == [ps[0]] + ps[1..];
    }
  }

  // -------------------------------------------------------------- requests

  /** The session cipher; None stands for an exception. */
  datatype Cipher = Plain | Sealing(enc: (Bytes, Bytes) -> Option<Bytes>, dec: (Bytes, Bytes) -> Option<Bytes>)

  /** Decryption undoes encryption, which adds an 8-byte tag. */
  ghost predicate Honest(cipher: Cipher) {
    cipher.Sealing? ==>
      forall nonce, m {:trigger cipher.enc(nonce, m)} ::
        cipher.enc(nonce, m).Some? ==>
          cipher.dec(nonce, cipher.enc(nonce, m).value) == Some(m) && |cipher.enc(nonce, m).value| == |m| + 8
  }

  /** The 13-byte nonce carrying the TMP sequence number. */
  function Nonce(sequence: nat): Bytes {
    [0, 0, 0, 0, 0, 0, 0, 0, 0] + PackWord(sequence)
  }

  /** Thirteen bytes that are read as this number, the most significant byte first. */
  ghost predicate ReadsAs(nonce: Bytes, k: nat) {
    |nonce| == 13 && FromBigEndian(nonce) == k
  }

  /** The nonce of a request is its counter value and nothing else. */
  lemma NonceIsCounter(k: nat, nonce: Bytes)
    requires IsWord(k)
    ensures nonce == Nonce(k) <==> ReadsAs(nonce, k)
  {
    LeadingZeros([0, 0, 0, 0, 0, 0, 0, 0, 0], PackWord(k));
    PackWordRoundTrip(k);
    if ReadsAs(nonce, k) {
      FromBigEndianInjective(nonce, Nonce(k));
    }
  }

  /** So no two requests of a session share a nonce. */
  lemma NoncesDiffer(j: nat, k: nat)
    requires IsWord(j) && IsWord(k) && j != k
    ensures Nonce(j) != Nonce(k)
  {
    NonceIsCounter(j, Nonce(j));
    NonceIsCounter(k, Nonce(j));
  }

  /** Encryption with its plaintext fallback. */
  function Seal(cipher: Cipher, sequence: nat, m: Bytes): Bytes {
    if cipher.Plain? then m
    else match cipher.enc(Nonce(sequence), m) case Some(c) => c case None => m
  }

  /** Decryption with its "may be plaintext" fallback. */
  function Unseal(cipher: Cipher, sequence: nat, c: Bytes): Bytes {
    if cipher.Plain? then c
    else match cipher.dec(Nonce(sequence), c) case Some(m) => m case None => c
  }

  /** If this message goes out in plaintext because it cannot be sealed, the reader does not take it for a sealed one. */
  predicate StaysPlain(cipher: Cipher, sequence: nat, m: Bytes) {
    cipher.Sealing? && cipher.enc(Nonce(sequence), m).None? ==> cipher.dec(Nonce(sequence), m).None?
  }

  /** The reader recovers what was sent unless it takes a plaintext for another message sealed. */
  lemma UnsealSeal(cipher: Cipher, sequence: nat, m: Bytes)
    requires Honest(cipher)
    ensures Unseal(cipher, sequence, Seal(cipher, sequence, m)) == m
            <==> StaysPlain(cipher, sequence, m) || cipher.dec(Nonce(sequence), m) == Some(m)
    ensures |Seal(cipher, sequence, m)| <= |m| + 8
  {
    if cipher.Sealing? {
      assert cipher.enc(Nonce(sequence), m).Some? || cipher.enc(Nonce(sequence), m).None?;
    }
  }

  /** The cipher seals exactly the messages up to this length. */
  ghost predicate SealsUpTo(cipher: Cipher, limit: nat) {
    cipher.Sealing? && forall nonce, m {:trigger cipher.enc(nonce, m)} :: cipher.enc(nonce, m).Some? <==> |m| <= limit
  }

  /** AES-CCM with the client's 13-byte nonce has two bytes for the length, and takes no longer message. */
  const CCM_LIMIT := 0x1_0000

  const TAG: Bytes := [0, 0, 0, 0, 0, 0, 0, 0]

  /** There are such ciphers, for any limit. */
  lemma LimitedCipher(limit: nat) returns (cipher: Cipher)
    ensures Honest(cipher) && SealsUpTo(cipher, limit)
  {
    cipher := Sealing((nonce: Bytes, m: Bytes) => if |m| <= limit then Some(m + TAG) else None,
                      (nonce: Bytes, c: Bytes) => if |c| < 8 || c[|c| - 8..] != TAG then None else Some(c[..|c| - 8]));
    forall m: Bytes
      ensures (m + TAG)[..|m + TAG| - 8] == m && (m + TAG)[|m + TAG| - 8..] == TAG
    {
    }
  }

  const TMP_CHANNEL: Bytes := [84, 77, 80]

  /** The TMP packet of a request and the frame that carries it. */
  function RequestTmp(payload: Bytes, tmpSequence: nat): Tmp {
    NewTmp(TMP_TYPE_DATA, [1, 0] + payload, tmpSequence, 0)
  }

  /** The TMP packet of the request is not mistaken for a sealed one. */
  predicate RequestStaysPlain(crc: Checksum, cipher: Cipher, payload: Bytes, tmpSequence: nat) {
    var tmp := EncodeTmp(crc, RequestTmp(payload, tmpSequence));
    tmp.Ok? ==> StaysPlain(cipher, tmpSequence, tmp.value)
  }

  /** Request `i` goes out under the `i`-th next counter value. */
  ghost predicate AllStayPlain(crc: Checksum, cipher: Cipher, payloads: seq<Bytes>, tmpSequence: nat) {
    forall i | 0 <= i < |payloads| :: RequestStaysPlain(crc, cipher, payloads[i], tmpSequence + i + 1)
  }

  /** Requests that fit the cipher are all sealed, so none goes out in plaintext. */
  lemma FittingRequestsStayPlain(crc: Checksum, cipher: Cipher, payloads: seq<Bytes>, tmpSequence: nat)
    requires SealsUpTo(cipher, CCM_LIMIT) && forall p | p in payloads :: |p| + 2 + TMP_HEADER_SIZE <= CCM_LIMIT
    ensures AllStayPlain(crc, cipher, payloads, tmpSequence)
  {
    forall i | 0 <= i < |payloads|
      ensures RequestStaysPlain(crc, cipher, payloads[i], tmpSequence + i + 1)
    {
      var t := RequestTmp(payloads[i], tmpSequence + i + 1);
      assert payloads[i] in payloads;
      if EncodeTmp(crc, t).Ok? {
        TmpDecodes(crc, t);
        assert cipher.enc(Nonce(tmpSequence + i + 1), EncodeTmp(crc, t).value).Some?;
      }
    }
  }

  function RequestFrame(crc: Checksum, cipher: Cipher, payload: Bytes, sequence: nat, tmpSequence: nat): Result<Tslp> {
    var tmp :- EncodeTmp(crc, RequestTmp(payload, tmpSequence));
    Ok(Tslp(TSLP_TYPE_REQUEST, TSLP_CHANNEL_BUSINESS, TMP_CHANNEL, sequence, Seal(cipher, tmpSequence, tmp)))
  }

  lemma ChannelReads()
    ensures var text := "TMP";
            |TMP_CHANNEL| == |text| && forall i | 0 <= i < |text| :: TMP_CHANNEL[i] == text[i] as int
  {
  }

  /** The bytes of a request's TMP packet: version 2.0, type 5, status 0, then the business header and the payload. */
  lemma RequestTmpLayout(crc: Checksum, payload: Bytes, k: nat)
    requires IsWord(k)
    ensures var head := [2, 0, 5, 0] + BigEndian((|payload| + 2) % 0x1_0000, 2) + [0, 0] + BigEndian(k, 4);
            var body := [1, 0] + payload;
            EncodeTmp(crc, RequestTmp(payload, k)) == Ok(head + BigEndian(crc(head + [0, 0, 0, 0] + body), 4) + body)
  {
    TmpLayout(crc, RequestTmp(payload, k));
  }

  /** The bytes of the next request when the counters stand at these values. */
  function RequestBytes(crc: Checksum, cipher: Cipher, payload: Bytes, sequence: nat, tmpSequence: nat): Result<Bytes> {
    var f :- RequestFrame(crc, cipher, payload, sequence + 1, tmpSequence + 1);
    EncodeTslp(crc, f)
  }

  /**
   What becomes of the coming `sendall` calls, in order: None delivers everything, a number
   raises after that many bytes, and calls beyond the list deliver everything.
   */
  type Link = seq<Option<nat>>

  /** What one or more sends leave behind: success, the bytes delivered, the sequence counter and the link. */
  datatype Sent = Sent(ok: bool, bytes: Bytes, sequence: int, link: Link)

  function Delivered(data: Bytes, sequence: int, link: Link): Sent {
    if link == [] then Sent(true, data, sequence, [])
    else if link[0].None? then Sent(true, data, sequence, link[1..])
    else Sent(false, Slice(data, 0, link[0].value), sequence, link[1..])
  }

  /** A packet that cannot be encoded raises before anything is sent. */
  function SentPacket(crc: Checksum, p: Tslp, link: Link): Sent {
    match EncodeTslp(crc, p)
    case Ok(data) => Delivered(data, p.sequence, link)
    case Raised => Sent(false, [], p.sequence, link)
  }

  function BusinessFrame(sequence: nat, payload: Bytes): Tslp {
    Tslp(TSLP_TYPE_REQUEST, TSLP_CHANNEL_BUSINESS, TMP_CHANNEL, sequence, payload)
  }

  function SentFrame(crc: Checksum, sequence: nat, payload: Bytes, link: Link): Sent {
    SentPacket(crc, BusinessFrame(sequence, payload), link)
  }

  /** The bytes of the frame around a TMP packet, sealed or not: version 1, a request, the business channel, its name. */
  lemma BusinessFrameLayout(crc: Checksum, sequence: nat, payload: Bytes)
    requires IsWord(sequence) && IsWord(|payload|)
    ensures var head := [1, 1, 2, 0] + BigEndian(|payload|, 4) + (TMP_CHANNEL + [0, 0, 0, 0, 0]) + BigEndian(sequence, 4);
            EncodeTslp(crc, BusinessFrame(sequence, payload))
              == Ok(head + BigEndian(crc(head + [0, 0, 0, 0] + payload), 4) + payload)
  {
    TslpLayout(crc, BusinessFrame(sequence, payload), TMP_CHANNEL + [0, 0, 0, 0, 0]);
  }

  predicate Encrypts(cipher: Cipher, tmpSequence: nat, tmp: Bytes) {
    cipher.Sealing? && cipher.enc(Nonce(tmpSequence), tmp).Some?
  }

  /**
   The handler around encryption also catches a frame that cannot be encoded and a send that
   fails, so the packet is then tried again in plaintext, under one more sequence number.
   */
  function SentTmp(crc: Checksum, cipher: Cipher, tmp: Bytes, sequence: nat, tmpSequence: nat, link: Link): (r: Sent)
    ensures r.sequence > sequence
  {
    var first := SentFrame(crc, sequence + 1, Seal(cipher, tmpSequence, tmp), link);
    if !first.ok && Encrypts(cipher, tmpSequence, tmp) then
      var second := SentFrame(crc, sequence + 2, tmp, first.link);
      second.(bytes := first.bytes + second.bytes)
    else first
  }

  function RequestSent(crc: Checksum, cipher: Cipher, payload: Bytes, sequence: nat, tmpSequence: nat, link: Link): (r: Sent)
    ensures r.sequence >= sequence
  {
    match EncodeTmp(crc, RequestTmp(payload, tmpSequence + 1))
    case Raised => Sent(false, [], sequence, link)
    case Ok(tmp) => SentTmp(crc, cipher, tmp, sequence, tmpSequence + 1, link)
  }

  /** On a working link, a request that can be framed goes out as that frame. */
  lemma FramedRequestIsSent(crc: Checksum, cipher: Cipher, payload: Bytes, sequence: nat, tmpSequence: nat)
    requires RequestBytes(crc, cipher, payload, sequence, tmpSequence).Ok?
    ensures RequestSent(crc, cipher, payload, sequence, tmpSequence, [])
         == Sent(true, RequestBytes(crc, cipher, payload, sequence, tmpSequence).value, sequence + 1, [])
  {
  }

  /**
   A request whose packet the cipher seals under its counter value: the sealed frame goes out alone if it
   can be encoded and delivered; otherwise, behind what was delivered of it, the same packet in plaintext.
   */
  lemma SealedRequestIsSent(crc: Checksum, cipher: Cipher, payload: Bytes, sequence: nat, tmpSequence: nat, link: Link,
                            nonce: Bytes, c: Bytes)
    requires IsWord(tmpSequence + 1) && ReadsAs(nonce, tmpSequence + 1)
    requires var tmp := EncodeTmp(crc, RequestTmp(payload, tmpSequence + 1));
             tmp.Ok? && cipher.Sealing? && cipher.enc(nonce, tmp.value) == Some(c)
    ensures var tmp := EncodeTmp(crc, RequestTmp(payload, tmpSequence + 1)).value;
            var sent := RequestSent(crc, cipher, payload, sequence, tmpSequence, link);
            match EncodeTslp(crc, BusinessFrame(sequence + 1, c))
            case Raised =>
              var again := SentFrame(crc, sequence + 2, tmp, link);
              sent == Sent(again.ok, again.bytes, sequence + 2, again.link)
            case Ok(data) =>
              if link == [] || link[0].None? then
                sent == Sent(true, data, sequence + 1, if link == [] then [] else link[1..])
              else
                var again := SentFrame(crc, sequence + 2, tmp, link[1..]);
                sent == Sent(again.ok, Slice(data, 0, link[0].value) + again.bytes, sequence + 2, again.link)
  {
    NonceIsCounter(tmpSequence + 1, nonce);
  }

  /** One that the cipher does not seal is sent once, in plaintext, whatever becomes of it. */
  lemma UnsealedRequestIsSent(crc: Checksum, cipher: Cipher, payload: Bytes, sequence: nat, tmpSequence: nat, link: Link,
                              nonce: Bytes)
    requires IsWord(tmpSequence + 1) && ReadsAs(nonce, tmpSequence + 1)
    requires var tmp := EncodeTmp(crc, RequestTmp(payload, tmpSequence + 1));
             tmp.Ok? && (cipher.Plain? || cipher.enc(nonce, tmp.value).None?)
    ensures var tmp := EncodeTmp(crc, RequestTmp(payload, tmpSequence + 1)).value;
            RequestSent(crc, cipher, payload, sequence, tmpSequence, link) == SentFrame(crc, sequence + 1, tmp, link)
  {
    NonceIsCounter(tmpSequence + 1, nonce);
  }

  // ------------------------------------------------------- failing links

  /** The link delivers this packet in full or not at all, whether or not it then raises. */
  predicate Whole(data: Bytes, link: Link) {
    link == [] || link[0].None? || link[0].value == 0 || link[0].value >= |data|
  }

  predicate SendsWhole(crc: Checksum, f: Tslp, link: Link) {
    EncodeTslp(crc, f).Ok? ==> Whole(EncodeTslp(crc, f).value, link)
  }

  /** The frames that one send puts on such a link: its own or none. */
  function FramesOut(crc: Checksum, f: Tslp, link: Link): seq<Tslp> {
    if EncodeTslp(crc, f).Ok? && (link == [] || link[0].None? || link[0].value > 0) then [f] else []
  }

  /** No attempt at this TMP packet is cut. */
  predicate Uncut(crc: Checksum, cipher: Cipher, tmp: Bytes, sequence: nat, tmpSequence: nat, link: Link) {
    var f := BusinessFrame(sequence + 1, Seal(cipher, tmpSequence, tmp));
    var first := SentFrame(crc, sequence + 1, Seal(cipher, tmpSequence, tmp), link);
    && SendsWhole(crc, f, link)
    && (!first.ok && Encrypts(cipher, tmpSequence, tmp) ==> SendsWhole(crc, BusinessFrame(sequence + 2, tmp), first.link))
  }

  /** The frames its attempts put on the link. */
  function TmpFrames(crc: Checksum, cipher: Cipher, tmp: Bytes, sequence: nat, tmpSequence: nat, link: Link): seq<Tslp> {
    var f := BusinessFrame(sequence + 1, Seal(cipher, tmpSequence, tmp));
    var first := SentFrame(crc, sequence + 1, Seal(cipher, tmpSequence, tmp), link);
    FramesOut(crc, f, link)
    + if !first.ok && Encrypts(cipher, tmpSequence, tmp) then FramesOut(crc, BusinessFrame(sequence + 2, tmp), first.link) else []
  }

  predicate Readable(crc: Checksum, fs: seq<Tslp>) {
    forall f | f in fs :: EncodeTslp(crc, f).Ok? && FitsChannel(f.channel)
  }

  lemma FramesOutAreSent(crc: Checksum, sequence: nat, payload: Bytes, link: Link)
    requires SendsWhole(crc, BusinessFrame(sequence, payload), link)
    ensures var fs := FramesOut(crc, BusinessFrame(sequence, payload), link);
            Readable(crc, fs) && SentFrame(crc, sequence, payload, link).bytes == EncodeAll(crc, fs)
  {
    var f := BusinessFrame(sequence, payload);
    if EncodeTslp(crc, f).Ok? {
      TslpDecodes(crc, f);
      assert EncodeAll(crc, [f]) == EncodeTslp(crc, f).value + [] == EncodeTslp(crc, f).value;
    }
  }

  lemma ReadableAppend(crc: Checksum, a: seq<Tslp>, b: seq<Tslp>)
    requires Readable(crc, a) && Readable(crc, b)
    ensures Readable(crc, a + b)
  {
  }

  lemma EncodeAllCons(crc: Checksum, f: Tslp, fs: seq<Tslp>)
    requires Readable(crc, [f] + fs)
    ensures Readable(crc, fs) && EncodeTslp(crc, f).Ok?
    ensures EncodeAll(crc, [f] + fs) == EncodeTslp(crc, f).value + EncodeAll(crc, fs)
  {
    assert ([f] + fs)[0] in [f] + fs && ([f] + fs)[1..] == fs;
    assert forall g | g in fs :: g in [f] + fs;
  }

  lemma {:induction false} EncodeAllAppend(crc: Checksum, a: seq<Tslp>, b: seq<Tslp>)
    requires Readable(crc, a) && Readable(crc, b)
    ensures Readable(crc, a + b) && EncodeAll(crc, a + b) == EncodeAll(crc, a) + EncodeAll(crc, b)
  {
    ReadableAppend(crc, a, b);
    if a == [] {
      assert a + b == b;
    } else {
      var f, rest := a[0], a[1..];
      assert a == [f] + rest && a + b == [f] + (rest + b);
      EncodeAllCons(crc, f, rest);
      EncodeAllCons(crc, f, rest + b);
      EncodeAllAppend(crc, rest, b);
      ConcatAssociates(EncodeTslp(crc, f).value, EncodeAll(crc, rest), EncodeAll(crc, b));
    }
  }

  lemma TmpFramesAreSent(crc: Checksum, cipher: Cipher, tmp: Bytes, sequence: nat, tmpSequence: nat, link: Link)
    requires Uncut(crc, cipher, tmp, sequence, tmpSequence, link)
    ensures var fs := TmpFrames(crc, cipher, tmp, sequence, tmpSequence, link);
            Readable(crc, fs) && SentTmp(crc, cipher, tmp, sequence, tmpSequence, link).bytes == EncodeAll(crc, fs)
  {
    var sealed := Seal(cipher, tmpSequence, tmp);
    var first := SentFrame(crc, sequence + 1, sealed, link);
    var a := FramesOut(crc, BusinessFrame(sequence + 1, sealed), link);
    FramesOutAreSent(crc, sequence + 1, sealed, link);
    if !first.ok && Encrypts(cipher, tmpSequence, tmp) {
      FramesOutAreSent(crc, sequence + 2, tmp, first.link);
      EncodeAllAppend(crc, a, FramesOut(crc, BusinessFrame(sequence + 2, tmp), first.link));
    } else {
      assert a + [] == a;
    }
  }

  /** What consecutive requests leave behind. */
  function RequestsSent(crc: Checksum, cipher: Cipher, payloads: seq<Bytes>, sequence: nat, tmpSequence: nat, link: Link): Sent {
    if payloads == [] then Sent(true, [], sequence, link)
    else
      var first := RequestSent(crc, cipher, payloads[0], sequence, tmpSequence, link);
      var rest := RequestsSent(crc, cipher, payloads[1..], first.sequence, tmpSequence + 1, first.link);
      rest.(ok := first.ok && rest.ok, bytes := first.bytes + rest.bytes)
  }

  /** No attempt at any of them is cut. */
  predicate AllUncut(crc: Checksum, cipher: Cipher, payloads: seq<Bytes>, sequence: nat, tmpSequence: nat, link: Link) {
    payloads == [] ||
    (var first, tmp := RequestSent(crc, cipher, payloads[0], sequence, tmpSequence, link),
                       EncodeTmp(crc, RequestTmp(payloads[0], tmpSequence + 1));
     && (tmp.Ok? ==> Uncut(crc, cipher, tmp.value, sequence, tmpSequence + 1, link))
     && AllUncut(crc, cipher, payloads[1..], first.sequence, tmpSequence + 1, first.link))
  }

  /** The frames of one request. */
  function RequestFrames(crc: Checksum, cipher: Cipher, payload: Bytes, sequence: nat, tmpSequence: nat, link: Link): seq<Tslp> {
    match EncodeTmp(crc, RequestTmp(payload, tmpSequence + 1))
    case Raised => []
    case Ok(tmp) => TmpFrames(crc, cipher, tmp, sequence, tmpSequence + 1, link)
  }

  function AllFrames(crc: Checksum, cipher: Cipher, payloads: seq<Bytes>, sequence: nat, tmpSequence: nat, link: Link): seq<Tslp> {
    if payloads == [] then []
    else
      var first := RequestSent(crc, cipher, payloads[0], sequence, tmpSequence, link);
      RequestFrames(crc, cipher, payloads[0], sequence, tmpSequence, link)
      + AllFrames(crc, cipher, payloads[1..], first.sequence, tmpSequence + 1, first.link)
  }

  lemma RequestFramesAreSent(crc: Checksum, cipher: Cipher, payload: Bytes, sequence: nat, tmpSequence: nat, link: Link)
    requires var tmp := EncodeTmp(crc, RequestTmp(payload, tmpSequence + 1));
             tmp.Ok? ==> Uncut(crc, cipher, tmp.value, sequence, tmpSequence + 1, link)
    ensures var fs := RequestFrames(crc, cipher, payload, sequence, tmpSequence, link);
            Readable(crc, fs) && RequestSent(crc, cipher, payload, sequence, tmpSequence, link).bytes == EncodeAll(crc, fs)
  {
    var tmp := EncodeTmp(crc, RequestTmp(payload, tmpSequence + 1));
    if tmp.Ok? {
      TmpFramesAreSent(crc, cipher, tmp.value, sequence, tmpSequence + 1, link);
    }
  }

  lemma {:induction false} AllFramesAreSent(crc: Checksum, cipher: Cipher, payloads: seq<Bytes>, sequence: nat, tmpSequence: nat, link: Link)
    requires AllUncut(crc, cipher, payloads, sequence, tmpSequence, link)
    ensures var fs := AllFrames(crc, cipher, payloads, sequence, tmpSequence, link);
            Readable(crc, fs) && RequestsSent(crc, cipher, payloads, sequence, tmpSequence, link).bytes == EncodeAll(crc, fs)
    decreases |payloads|
  {
    if payloads != [] {
      var first := RequestSent(crc, cipher, payloads[0], sequence, tmpSequence, link);
      RequestFramesAreSent(crc, cipher, payloads[0], sequence, tmpSequence, link);
      AllFramesAreSent(crc, cipher, payloads[1..], first.sequence, tmpSequence + 1, first.link);
      EncodeAllAppend(crc, RequestFrames(crc, cipher, payloads[0], sequence, tmpSequence, link),
                      AllFrames(crc, cipher, payloads[1..], first.sequence, tmpSequence + 1, first.link));
    }
  }

  /**
   However many sends of a list of requests fail, as long as each delivers its packet in full
   or not at all, the reader receives exactly the frames that were delivered, retries included.
   */
  lemma UncutLinkRoundTrip(crc: Checksum, cipher: Cipher, payloads: seq<Bytes>, sequence: nat, tmpSequence: nat, link: Link)
    requires AllUncut(crc, cipher, payloads, sequence, tmpSequence, link)
    ensures var fs := AllFrames(crc, cipher, payloads, sequence, tmpSequence, link);
            ReadMany(RequestsSent(crc, cipher, payloads, sequence, tmpSequence, link).bytes, |fs|) == Ok((fs, []))
  {
    var fs := AllFrames(crc, cipher, payloads, sequence, tmpSequence, link);
    AllFramesAreSent(crc, cipher, payloads, sequence, tmpSequence, link);
    StreamRoundTrip(crc, fs, []);
    assert EncodeAll(crc, fs) + [] == EncodeAll(crc, fs);
  }

  /** A decoder reads the payload bytes it is given behind an intact header. */
  lemma DecodesBehindHeader(e: Bytes, d: Bytes, f: Tslp)
    requires TSLP_HEADER_SIZE <= |e| == |d| && d[..TSLP_HEADER_SIZE] == e[..TSLP_HEADER_SIZE]
    requires DecodeTslp(e) == Ok(f) && FromBigEndian(e[4..8]) == |e| - TSLP_HEADER_SIZE
    ensures DecodeTslp(d) == Ok(f.(payload := d[TSLP_HEADER_SIZE..])) && f.payload == e[TSLP_HEADER_SIZE..]
  {
    var h := e[..TSLP_HEADER_SIZE];
    assert d[4..8] == h[4..8] == e[4..8] && d[8..16] == h[8..16] == e[8..16] && d[16..20] == h[16..20] == e[16..20];
    assert d[1] == h[1] == e[1] && d[2] == h[2] == e[2];
    assert Slice(d, TSLP_HEADER_SIZE, |d|) == d[TSLP_HEADER_SIZE..];
    assert Slice(e, TSLP_HEADER_SIZE, |e|) == e[TSLP_HEADER_SIZE..];
  }

  lemma ReadsFirst(stream: Bytes, d: Bytes, rest: Bytes, f: Tslp)
    requires stream == d + rest && |d| >= TSLP_HEADER_SIZE
    requires FromBigEndian(d[4..8]) == |d| - TSLP_HEADER_SIZE && DecodeTslp(d) == Ok(f)
    ensures ReadTslp(stream) == Ok((f, rest))
  {
    assert stream[4..8] == d[4..8] && stream[..|d|] == d && stream[|d|..] == rest;
  }

  lemma CutPayload(e: Bytes, n: nat, next: Bytes, h: nat)
    requires h <= n < |e| <= n + |next|
    ensures var d := e[..n] + next[..|e| - n];
            && |d| == |e| && d[..h] == e[..h] && d[h..] == e[h..][..n - h] + next[..|e| - n]
            && e[..n] + next == d + next[|e| - n..]
            && (d[h..] == e[h..] <==> next[..|e| - n] == e[n..])
  {
    var d := e[..n] + next[..|e| - n];
    assert e[h..] == e[h..][..n - h] + e[n..];
    assert d[n..] == next[..|e| - n];
    if d[h..] == e[h..] {
      assert d[n..] == d[h..][n - h..] == e[h..][n - h..] == e[n..];
    }
  }

  /**
   A frame cut behind its header swallows the start of what is sent next: the reader obtains it
   with the missing bytes taken from there, which is the frame that was sent if and only if
   those bytes happen to be the missing ones.
   */
  lemma CutFrame(crc: Checksum, f: Tslp, n: nat, next: Bytes)
    requires EncodeTslp(crc, f).Ok? && FitsChannel(f.channel)
    requires TSLP_HEADER_SIZE <= n < |EncodeTslp(crc, f).value| <= n + |next|
    ensures |EncodeTslp(crc, f).value| == TSLP_HEADER_SIZE + |f.payload|
    ensures var e := EncodeTslp(crc, f).value;
            var missing := |e| - n;
            var damaged := f.(payload := f.payload[..n - TSLP_HEADER_SIZE] + next[..missing]);
            && ReadTslp(e[..n] + next) == Ok((damaged, next[missing..]))
            && (damaged == f <==> next[..missing] == e[n..])
  {
    var e := EncodeTslp(crc, f).value;
    var d := e[..n] + next[..|e| - n];
    TslpDecodes(crc, f);
    TslpRoundTrip(crc, f);
    CutPayload(e, n, next, TSLP_HEADER_SIZE);
    DecodesBehindHeader(e, d, f);
    assert d[4..8] == e[4..8];
    ReadsFirst(e[..n] + next, d, next[|e| - n..], f.(payload := d[TSLP_HEADER_SIZE..]));
    var damaged := f.(payload := f.payload[..n - TSLP_HEADER_SIZE] + next[..|e| - n]);
    assert d[TSLP_HEADER_SIZE..] == damaged.payload;
    assert damaged == f <==> damaged.payload == f.payload;
  }

  /** What a reader of a frame's payload obtains (backend/tmp_client.py:659-678); None for the empty answer. */
  function OpenPayload(cipher: Cipher, tmpSequence: nat, data: Bytes): Result<Option<(Tmp, Business)>> {
    var tmp :- DecodeTmp(Unseal(cipher, tmpSequence, data));
    if tmp.kind == TMP_TYPE_DATA && tmp.payload != [] then
      var b :- DecodeBusiness(tmp.payload);
      Ok(Some((tmp, b)))
    else Ok(None)
  }

  /** The frame carries this payload and these counter values. */
  ghost predicate Carries(cipher: Cipher, f: Tslp, payload: Bytes, sequence: nat, tmpSequence: nat) {
    && f.kind == TSLP_TYPE_REQUEST && f.channelType == TSLP_CHANNEL_BUSINESS && f.channel == TMP_CHANNEL
    && f.sequence == sequence
    && OpenPayload(cipher, tmpSequence, f.payload) == Ok(Some((RequestTmp(payload, tmpSequence), Business(1, 0, payload))))
  }

  /** Once the TMP packet of a request is unsealed, the two inner layers open to it. */
  lemma UnsealedOpens(crc: Checksum, cipher: Cipher, payload: Bytes, tmpSequence: nat, data: Bytes)
    requires |payload| + 2 < 0x1_0000 && EncodeTmp(crc, RequestTmp(payload, tmpSequence)).Ok?
    requires Unseal(cipher, tmpSequence, data) == EncodeTmp(crc, RequestTmp(payload, tmpSequence)).value
    ensures OpenPayload(cipher, tmpSequence, data) == Ok(Some((RequestTmp(payload, tmpSequence), Business(1, 0, payload))))
  {
    TmpRoundTrip(crc, RequestTmp(payload, tmpSequence));
    BusinessRoundTrip(Business(1, 0, payload));
  }

  /** A request below the 16-bit limit can be framed, and its frame opens to it through all three layers. */
  lemma RequestRoundTrip(crc: Checksum, cipher: Cipher, payload: Bytes, sequence: nat, tmpSequence: nat)
    requires Honest(cipher) && |payload| + 2 < 0x1_0000 && IsWord(sequence) && IsWord(tmpSequence)
    requires RequestStaysPlain(crc, cipher, payload, tmpSequence)
    ensures var f := RequestFrame(crc, cipher, payload, sequence, tmpSequence);
            f.Ok? && EncodeTslp(crc, f.value).Ok? && Carries(cipher, f.value, payload, sequence, tmpSequence)
  {
    var p := RequestTmp(payload, tmpSequence);
    TmpDecodes(crc, p);
    UnsealSeal(cipher, tmpSequence, EncodeTmp(crc, p).value);
    UnsealedOpens(crc, cipher, payload, tmpSequence, Seal(cipher, tmpSequence, EncodeTmp(crc, p).value));
  }

  /**
   No plaintext that the attempts at this TMP packet send is taken for a sealed message: not the
   packet where it cannot be sealed, and not the retry where the first attempt failed.
   */
  predicate Unmistaken(crc: Checksum, cipher: Cipher, tmp: Bytes, sequence: nat, tmpSequence: nat, link: Link) {
    var first := SentFrame(crc, sequence + 1, Seal(cipher, tmpSequence, tmp), link);
    && StaysPlain(cipher, tmpSequence, tmp)
    && (!first.ok && Encrypts(cipher, tmpSequence, tmp) ==> cipher.dec(Nonce(tmpSequence), tmp).None?)
  }

  predicate AllUnmistaken(crc: Checksum, cipher: Cipher, payloads: seq<Bytes>, sequence: nat, tmpSequence: nat, link: Link) {
    payloads == [] ||
    (var first, tmp := RequestSent(crc, cipher, payloads[0], sequence, tmpSequence, link),
                       EncodeTmp(crc, RequestTmp(payloads[0], tmpSequence + 1));
     && (tmp.Ok? ==> Unmistaken(crc, cipher, tmp.value, sequence, tmpSequence + 1, link))
     && AllUnmistaken(crc, cipher, payloads[1..], first.sequence, tmpSequence + 1, first.link))
  }

  /** Every one of these frames carries this payload, whatever its own sequence number. */
  ghost predicate EachCarries(cipher: Cipher, fs: seq<Tslp>, payload: Bytes, tmpSequence: nat) {
    forall f | f in fs :: f.sequence >= 0 && Carries(cipher, f, payload, f.sequence, tmpSequence)
  }

  /** The frames fall into groups, one for each payload in order, and each frame carries the payload of its group. */
  ghost predicate CarryInTurn(cipher: Cipher, fs: seq<Tslp>, payloads: seq<Bytes>, tmpSequence: nat) {
    if payloads == [] then fs == []
    else exists n: nat :: n <= |fs| && n <= 2 && EachCarries(cipher, fs[..n], payloads[0], tmpSequence + 1)
                          && CarryInTurn(cipher, fs[n..], payloads[1..], tmpSequence + 1)
  }

  /** Whatever attempts were delivered, sealed or in plaintext, opens to the request. */
  lemma RequestFramesCarry(crc: Checksum, cipher: Cipher, payload: Bytes, sequence: nat, tmpSequence: nat, link: Link)
    requires Honest(cipher) && |payload| + 2 < 0x1_0000
    requires var tmp := EncodeTmp(crc, RequestTmp(payload, tmpSequence + 1));
             tmp.Ok? ==> Unmistaken(crc, cipher, tmp.value, sequence, tmpSequence + 1, link)
    ensures var fs := RequestFrames(crc, cipher, payload, sequence, tmpSequence, link);
            |fs| <= 2 && EachCarries(cipher, fs, payload, tmpSequence + 1)
  {
    var k := tmpSequence + 1;
    var tmp := EncodeTmp(crc, RequestTmp(payload, k));
    if tmp.Ok? {
      var sealed := Seal(cipher, k, tmp.value);
      UnsealSeal(cipher, k, tmp.value);
      UnsealedOpens(crc, cipher, payload, k, sealed);
      assert Carries(cipher, BusinessFrame(sequence + 1, sealed), payload, sequence + 1, k);
      var first := SentFrame(crc, sequence + 1, sealed, link);
      if !first.ok && Encrypts(cipher, k, tmp.value) {
        UnsealedOpens(crc, cipher, payload, k, tmp.value);
        assert Carries(cipher, BusinessFrame(sequence + 2, tmp.value), payload, sequence + 2, k);
      }
    }
  }

  /** Over a list of requests on a failing link, every delivered frame opens to the payload of its request, in order. */
  lemma {:induction false} DeliveredFramesCarry(crc: Checksum, cipher: Cipher, payloads: seq<Bytes>,
                                                sequence: nat, tmpSequence: nat, link: Link)
    requires Honest(cipher) && forall p | p in payloads :: |p| + 2 < 0x1_0000
    requires AllUnmistaken(crc, cipher, payloads, sequence, tmpSequence, link)
    ensures CarryInTurn(cipher, AllFrames(crc, cipher, payloads, sequence, tmpSequence, link), payloads, tmpSequence)
    decreases |payloads|
  {
    if payloads != [] {
      assert payloads[0] in payloads;
      var first := RequestSent(crc, cipher, payloads[0], sequence, tmpSequence, link);
      var a := RequestFrames(crc, cipher, payloads[0], sequence, tmpSequence, link);
      var rest := AllFrames(crc, cipher, payloads[1..], first.sequence, tmpSequence + 1, first.link);
      RequestFramesCarry(crc, cipher, payloads[0], sequence, tmpSequence, link);
      DeliveredFramesCarry(crc, cipher, payloads[1..], first.sequence, tmpSequence + 1, first.link);
      assert (a + rest)[..|a|] == a && (a + rest)[|a|..] == rest;
    }
  }

  /** The frames of consecutive requests from given counter values on, and their bytes on the wire. */
  function Frames(crc: Checksum, cipher: Cipher, payloads: seq<Bytes>, sequence: nat, tmpSequence: nat): Result<seq<Tslp>> {
    if payloads == [] then Ok([])
    else
      var first :- RequestFrame(crc, cipher, payloads[0], sequence + 1, tmpSequence + 1);
      var bytes :- EncodeTslp(crc, first);
      var rest :- Frames(crc, cipher, payloads[1..], sequence + 1, tmpSequence + 1);
      Ok([first] + rest)
  }

  lemma {:induction false} FramesEncodable(crc: Checksum, cipher: Cipher, payloads: seq<Bytes>, sequence: nat, tmpSequence: nat)
    requires Frames(crc, cipher, payloads, sequence, tmpSequence).Ok?
    ensures var fs := Frames(crc, cipher, payloads, sequence, tmpSequence).value;
            forall f | f in fs :: EncodeTslp(crc, f).Ok? && FitsChannel(f.channel)
  {
    if payloads != [] {
      FramesEncodable(crc, cipher, payloads[1..], sequence + 1, tmpSequence + 1);
    }
  }

  ghost function Wire(crc: Checksum, cipher: Cipher, payloads: seq<Bytes>, sequence: nat, tmpSequence: nat): Bytes
    requires Frames(crc, cipher, payloads, sequence, tmpSequence).Ok?
  {
    FramesEncodable(crc, cipher, payloads, sequence, tmpSequence);
    EncodeAll(crc, Frames(crc, cipher, payloads, sequence, tmpSequence).value)
  }

  /** Frame `i` carries payload `i` and the counters' next values. */
  ghost predicate CarriesAll(cipher: Cipher, fs: seq<Tslp>, payloads: seq<Bytes>, sequence: nat, tmpSequence: nat) {
    && |fs| == |payloads|
    && forall i | 0 <= i < |fs| :: Carries(cipher, fs[i], payloads[i], sequence + i + 1, tmpSequence + i + 1)
  }

  lemma CarriesCons(cipher: Cipher, f: Tslp, fs: seq<Tslp>, payloads: seq<Bytes>, sequence: nat, tmpSequence: nat)
    requires payloads != [] && Carries(cipher, f, payloads[0], sequence + 1, tmpSequence + 1)
    requires CarriesAll(cipher, fs, payloads[1..], sequence + 1, tmpSequence + 1)
    ensures CarriesAll(cipher, [f] + fs, payloads, sequence, tmpSequence)
  {
    forall i | 0 <= i < |fs| + 1
      ensures Carries(cipher, ([f] + fs)[i], payloads[i], sequence + i + 1, tmpSequence + i + 1)
    {
      if i > 0 {
        assert Carries(cipher, fs[i - 1], payloads[1..][i - 1], (sequence + 1) + (i - 1) + 1, (tmpSequence + 1) + (i - 1) + 1);
      }
    }
  }

  lemma FramesCarryStep(crc: Checksum, cipher: Cipher, payloads: seq<Bytes>, sequence: nat, tmpSequence: nat)
    requires Honest(cipher) && payloads != [] && |payloads[0]| + 2 < 0x1_0000
    requires IsWord(sequence + 1) && IsWord(tmpSequence + 1)
    requires RequestStaysPlain(crc, cipher, payloads[0], tmpSequence + 1)
    requires Frames(crc, cipher, payloads[1..], sequence + 1, tmpSequence + 1).Ok?
    requires CarriesAll(cipher, Frames(crc, cipher, payloads[1..], sequence + 1, tmpSequence + 1).value, payloads[1..],
                        sequence + 1, tmpSequence + 1)
    ensures Frames(crc, cipher, payloads, sequence, tmpSequence).Ok?
    ensures CarriesAll(cipher, Frames(crc, cipher, payloads, sequence, tmpSequence).value, payloads, sequence, tmpSequence)
  {
    var rest := Frames(crc, cipher, payloads[1..], sequence + 1, tmpSequence + 1).value;
    RequestRoundTrip(crc, cipher, payloads[0], sequence + 1, tmpSequence + 1);
    var f := RequestFrame(crc, cipher, payloads[0], sequence + 1, tmpSequence + 1).value;
    CarriesCons(cipher, f, rest, payloads, sequence, tmpSequence);
  }

  lemma StayPlainRest(crc: Checksum, cipher: Cipher, payloads: seq<Bytes>, tmpSequence: nat)
    requires payloads != [] && AllStayPlain(crc, cipher, payloads, tmpSequence)
    ensures AllStayPlain(crc, cipher, payloads[1..], tmpSequence + 1)
  {
    forall i | 0 <= i < |payloads| - 1
      ensures RequestStaysPlain(crc, cipher, payloads[1..][i], tmpSequence + 1 + i + 1)
    {
      assert RequestStaysPlain(crc, cipher, payloads[i + 1], tmpSequence + (i + 1) + 1);
    }
  }

  lemma {:induction false} FramesCarry(crc: Checksum, cipher: Cipher, payloads: seq<Bytes>, sequence: nat, tmpSequence: nat)
    requires Honest(cipher) && IsWord(sequence + |payloads|) && IsWord(tmpSequence + |payloads|)
    requires (forall p | p in payloads :: |p| + 2 < 0x1_0000) && AllStayPlain(crc, cipher, payloads, tmpSequence)
    ensures Frames(crc, cipher, payloads, sequence, tmpSequence).Ok?
    ensures CarriesAll(cipher, Frames(crc, cipher, payloads, sequence, tmpSequence).value, payloads, sequence, tmpSequence)
  {
    if payloads != [] {
      assert payloads[0] in payloads && RequestStaysPlain(crc, cipher, payloads[0], tmpSequence + 0 + 1);
      StayPlainRest(crc, cipher, payloads, tmpSequence);
      FramesCarry(crc, cipher, payloads[1..], sequence + 1, tmpSequence + 1);
      FramesCarryStep(crc, cipher, payloads, sequence, tmpSequence);
    }
  }

  /** The payload is the TMP packet of the request, sealed under its counter value where the cipher seals it. */
  ghost predicate SealedUnder(crc: Checksum, cipher: Cipher, f: Tslp, payload: Bytes, k: nat) {
    var tmp := EncodeTmp(crc, RequestTmp(payload, k));
    && tmp.Ok?
    && forall nonce | ReadsAs(nonce, k) ::
         f.payload == if cipher.Sealing? && cipher.enc(nonce, tmp.value).Some? then cipher.enc(nonce, tmp.value).value else tmp.value
  }

  lemma RequestFrameSealed(crc: Checksum, cipher: Cipher, payload: Bytes, sequence: nat, k: nat)
    requires IsWord(k) && RequestFrame(crc, cipher, payload, sequence, k).Ok?
    ensures SealedUnder(crc, cipher, RequestFrame(crc, cipher, payload, sequence, k).value, payload, k)
  {
    forall nonce | ReadsAs(nonce, k)
      ensures nonce == Nonce(k)
    {
      NonceIsCounter(k, nonce);
    }
  }

  ghost predicate AllSealed(crc: Checksum, cipher: Cipher, fs: seq<Tslp>, payloads: seq<Bytes>, tmpSequence: nat) {
    |fs| == |payloads| && forall i | 0 <= i < |fs| :: SealedUnder(crc, cipher, fs[i], payloads[i], tmpSequence + i + 1)
  }

  lemma SealedCons(crc: Checksum, cipher: Cipher, f: Tslp, fs: seq<Tslp>, payloads: seq<Bytes>, tmpSequence: nat)
    requires payloads != [] && SealedUnder(crc, cipher, f, payloads[0], tmpSequence + 1)
    requires AllSealed(crc, cipher, fs, payloads[1..], tmpSequence + 1)
    ensures AllSealed(crc, cipher, [f] + fs, payloads, tmpSequence)
  {
    forall i | 0 <= i < |fs| + 1
      ensures SealedUnder(crc, cipher, ([f] + fs)[i], payloads[i], tmpSequence + i + 1)
    {
      if i > 0 {
        assert SealedUnder(crc, cipher, fs[i - 1], payloads[1..][i - 1], tmpSequence + 1 + (i - 1) + 1);
      }
    }
  }

  lemma FramesCons(crc: Checksum, cipher: Cipher, payloads: seq<Bytes>, sequence: nat, tmpSequence: nat)
    requires payloads != [] && Frames(crc, cipher, payloads, sequence, tmpSequence).Ok?
    ensures RequestFrame(crc, cipher, payloads[0], sequence + 1, tmpSequence + 1).Ok?
    ensures Frames(crc, cipher, payloads[1..], sequence + 1, tmpSequence + 1).Ok?
    ensures Frames(crc, cipher, payloads, sequence, tmpSequence).value
         == [RequestFrame(crc, cipher, payloads[0], sequence + 1, tmpSequence + 1).value]
            + Frames(crc, cipher, payloads[1..], sequence + 1, tmpSequence + 1).value
  {
  }

  lemma {:induction false} FramesSealed(crc: Checksum, cipher: Cipher, payloads: seq<Bytes>, sequence: nat, tmpSequence: nat)
    requires IsWord(tmpSequence + |payloads|) && Frames(crc, cipher, payloads, sequence, tmpSequence).Ok?
    ensures AllSealed(crc, cipher, Frames(crc, cipher, payloads, sequence, tmpSequence).value, payloads, tmpSequence)
  {
    if payloads != [] {
      FramesCons(crc, cipher, payloads, sequence, tmpSequence);
      var rest := Frames(crc, cipher, payloads[1..], sequence + 1, tmpSequence + 1).value;
      var f := RequestFrame(crc, cipher, payloads[0], sequence + 1, tmpSequence + 1).value;
      RequestFrameSealed(crc, cipher, payloads[0], sequence + 1, tmpSequence + 1);
      FramesSealed(crc, cipher, payloads[1..], sequence + 1, tmpSequence + 1);
      SealedCons(crc, cipher, f, rest, payloads, tmpSequence);
    }
  }

  // ----------------------------------------------------- the client object

  class TmpClient {
    const crc: Checksum
    const cipher: Cipher
    const authenticated: bool
    var sequence: nat
    var tmpSequence: nat
    var outgoing: Bytes
    var link: Link

    /** A client before or after login, on a link of the given fate. */
    constructor (crc: Checksum, cipher: Cipher, authenticated: bool, link: Link)
      ensures this.crc == crc && this.cipher == cipher && this.authenticated == authenticated && this.link == link
      ensures sequence == 0 && tmpSequence == 0 && outgoing == []
    {
      this.crc, this.cipher, this.authenticated, this.link := crc, cipher, authenticated, link;
      sequence, tmpSequence, outgoing := 0, 0, [];
    }

    /** `sendall`. */
    method Deliver(data: Bytes) returns (ok: bool)
      modifies this`outgoing, this`link
      ensures var sent := Delivered(data, sequence, old(link));
              ok == sent.ok && link == sent.link && outgoing == old(outgoing) + sent.bytes
    {
      if link == [] || link[0].None? {
        outgoing := outgoing + data;
        ok := true;
      } else {
        outgoing := outgoing + Slice(data, 0, link[0].value);
        ok := false;
      }
      link := if link == [] then [] else link[1..];
    }

    /** `_send_tslp`: the counter moves even when the packet cannot be encoded or sent. */
    method SendTslp(channelType: int, channel: Bytes, payload: Bytes) returns (ok: bool)
      modifies this`sequence, this`outgoing, this`link
      ensures sequence == old(sequence) + 1
      ensures var sent := SentPacket(crc, Tslp(TSLP_TYPE_REQUEST, channelType, channel, sequence, payload), old(link));
              ok == sent.ok && link == sent.link && outgoing == old(outgoing) + sent.bytes
    {
      sequence := sequence + 1;
      var data := EncodeTslp(crc, Tslp(TSLP_TYPE_REQUEST, channelType, channel, sequence, payload));
      if data.Raised? {
        return false;
      }
      ok := Deliver(data.value);
    }

    /** Sealing and sending one encoded TMP packet, with the retry of the exception handler. */
    method SendTmp(tmp: Bytes) returns (ok: bool)
      modifies this`sequence, this`outgoing, this`link
      ensures var sent := SentTmp(crc, cipher, tmp, old(sequence), tmpSequence, old(link));
              && ok == sent.ok && sequence == sent.sequence && link == sent.link
              && outgoing == old(outgoing) + sent.bytes
    {
      ghost var first := SentFrame(crc, sequence + 1, Seal(cipher, tmpSequence, tmp), link);
      ok := SendTslp(TSLP_CHANNEL_BUSINESS, TMP_CHANNEL, Seal(cipher, tmpSequence, tmp));
      if !ok && Encrypts(cipher, tmpSequence, tmp) {
        ghost var second := SentFrame(crc, sequence + 1, tmp, link);
        ok := SendTslp(TSLP_CHANNEL_BUSINESS, TMP_CHANNEL, tmp);
        ConcatAssociates(old(outgoing), first.bytes, second.bytes);
      }
    }

    /** The sending half of `_send_tmp_business`: before login it raises at once. */
    method SendRequest(payload: Bytes) returns (ok: bool)
      modifies this
      ensures !authenticated ==> !ok && unchanged(this)
      ensures authenticated ==> tmpSequence == old(tmpSequence) + 1
      ensures authenticated ==>
                var sent := RequestSent(crc, cipher, payload, old(sequence), old(tmpSequence), old(link));
                && ok == sent.ok && sequence == sent.sequence && link == sent.link
                && outgoing == old(outgoing) + sent.bytes
    {
      if !authenticated {
        return false;
      }
      tmpSequence := tmpSequence + 1;
      var tmp := EncodeTmp(crc, RequestTmp(payload, tmpSequence));
      if tmp.Raised? {
        return false;
      }
      ok := SendTmp(tmp.value);
    }
  }

  lemma WireCons(crc: Checksum, cipher: Cipher, payloads: seq<Bytes>, sequence: nat, tmpSequence: nat)
    requires payloads != [] && Frames(crc, cipher, payloads, sequence, tmpSequence).Ok?
    ensures RequestBytes(crc, cipher, payloads[0], sequence, tmpSequence).Ok?
    ensures Frames(crc, cipher, payloads[1..], sequence + 1, tmpSequence + 1).Ok?
    ensures Wire(crc, cipher, payloads, sequence, tmpSequence)
         == RequestBytes(crc, cipher, payloads[0], sequence, tmpSequence).value
            + Wire(crc, cipher, payloads[1..], sequence + 1, tmpSequence + 1)
  {
    var fs := Frames(crc, cipher, payloads, sequence, tmpSequence).value;
    assert fs[1..] == Frames(crc, cipher, payloads[1..], sequence + 1, tmpSequence + 1).value;
  }

  /** What was sent and the frames still due make up `all`. */
  ghost predicate Remaining(crc: Checksum, cipher: Cipher, due: seq<Bytes>, sequence: nat, tmpSequence: nat, sent: Bytes, all: Bytes) {
    && Frames(crc, cipher, due, sequence, tmpSequence).Ok?
    && sent + Wire(crc, cipher, due, sequence, tmpSequence) == all
  }

  lemma RemainingStep(crc: Checksum, cipher: Cipher, due: seq<Bytes>, sequence: nat, tmpSequence: nat, sent: Bytes, all: Bytes)
    requires due != [] && Remaining(crc, cipher, due, sequence, tmpSequence, sent, all)
    ensures var first := RequestBytes(crc, cipher, due[0], sequence, tmpSequence);
            first.Ok? && Remaining(crc, cipher, due[1..], sequence + 1, tmpSequence + 1, sent + first.value, all)
  {
    WireCons(crc, cipher, due, sequence, tmpSequence);
    ConcatAssociates(sent, RequestBytes(crc, cipher, due[0], sequence, tmpSequence).value,
                     Wire(crc, cipher, due[1..], sequence + 1, tmpSequence + 1));
  }

  lemma NothingRemains(crc: Checksum, cipher: Cipher, due: seq<Bytes>, sequence: nat, tmpSequence: nat, sent: Bytes, all: Bytes)
    requires due == [] && Remaining(crc, cipher, due, sequence, tmpSequence, sent, all)
    ensures sent == all
  {
  }

  /** A request that can be framed, sent on a working link. */
  method SendFramed(client: TmpClient, payload: Bytes)
    requires client.authenticated && client.link == []
    requires RequestBytes(client.crc, client.cipher, payload, client.sequence, client.tmpSequence).Ok?
    modifies client
    ensures client.link == []
    ensures client.sequence == old(client.sequence) + 1 && client.tmpSequence == old(client.tmpSequence) + 1
    ensures client.outgoing == old(client.outgoing)
              + old(RequestBytes(client.crc, client.cipher, payload, client.sequence, client.tmpSequence)).value
  {
    FramedRequestIsSent(client.crc, client.cipher, payload, client.sequence, client.tmpSequence);
    var ok := client.SendRequest(payload);
  }

  /** A working client with these counters and these bytes sent. */
  ghost predicate Stands(client: TmpClient, sequence: nat, tmpSequence: nat, sent: Bytes)
    reads client
  {
    && client.authenticated && client.link == []
    && client.sequence == sequence && client.tmpSequence == tmpSequence && client.outgoing == sent
  }

  /** Sending the first of the requests still due. */
  method SendFirst(client: TmpClient, due: seq<Bytes>, ghost sequence: nat, ghost tmpSequence: nat, ghost sent: Bytes, ghost all: Bytes)
    requires due != [] && Stands(client, sequence, tmpSequence, sent)
    requires Remaining(client.crc, client.cipher, due, sequence, tmpSequence, sent, all)
    modifies client
    ensures Stands(client, sequence + 1, tmpSequence + 1, client.outgoing)
    ensures Remaining(client.crc, client.cipher, due[1..], sequence + 1, tmpSequence + 1, client.outgoing, all)
  {
    RemainingStep(client.crc, client.cipher, due, sequence, tmpSequence, sent, all);
    SendFramed(client, due[0]);
  }

  /** Requests sent one after the other on a working link put exactly their frames on the wire. */
  method SendAll(client: TmpClient, payloads: seq<Bytes>, ghost sequence: nat, ghost tmpSequence: nat, ghost sent: Bytes, ghost all: Bytes)
    requires Stands(client, sequence, tmpSequence, sent)
    requires Remaining(client.crc, client.cipher, payloads, sequence, tmpSequence, sent, all)
    modifies client
    ensures Stands(client, sequence + |payloads|, tmpSequence + |payloads|, all)
    decreases |payloads|
  {
    if payloads == [] {
      NothingRemains(client.crc, client.cipher, payloads, sequence, tmpSequence, sent, all);
    } else {
      SendFirst(client, payloads, sequence, tmpSequence, sent, all);
      SendAll(client, payloads[1..], sequence + 1, tmpSequence + 1, client.outgoing, all);
    }
  }

  /** `got` is what the first frames were, and `n` more are to be read from `left`. */
  ghost predicate Partway(stream: Bytes, total: nat, got: seq<Tslp>, left: Bytes, n: nat) {
    ReadMany(stream, total) == match ReadMany(left, n) {
                                 case Ok(r) => Ok((got + r.0, r.1))
                                 case Raised => Raised
                               }
  }

  lemma PartwayStep(stream: Bytes, total: nat, got: seq<Tslp>, left: Bytes, n: nat)
    requires n > 0 && Partway(stream, total, got, left, n)
    ensures ReadTslp(left).Raised? ==> ReadMany(stream, total).Raised?
    ensures ReadTslp(left).Ok? ==> Partway(stream, total, got + [ReadTslp(left).value.0], ReadTslp(left).value.1, n - 1)
  {
    if ReadTslp(left).Ok? {
      var p := ReadTslp(left).value;
      var rest := ReadMany(p.1, n - 1);
      if rest.Ok? {
        assert got + ([p.0] + rest.value.0) == (got + [p.0]) + rest.value.0;
      }
    }
  }

  /** Frames received one after the other. */
  method ReceiveAll(t: Transport, n: nat) returns (res: Result<seq<Tslp>>)
    modifies t
    ensures match ReadMany(old(t.incoming), n)
            case Ok(r) => res == Ok(r.0) && t.incoming == r.1
            case Raised => res == Raised
  {
    ghost var stream := t.incoming;
    var got: seq<Tslp> := [];
    assert Partway(stream, n, got, stream, n) by {
      if ReadMany(stream, n).Ok? {
        assert [] + ReadMany(stream, n).value.0 == ReadMany(stream, n).value.0;
      }
    }
    for i := 0 to n
      invariant Partway(stream, n, got, t.incoming, n - i)
    {
      PartwayStep(stream, n, got, t.incoming, n - i);
      var p := RecvTslp(t);
      if p.Raised? {
        return Raised;
      }
      got := got + [p.value];
    }
    assert got + [] == got;
    return Ok(got);
  }

  /**
   Any list of requests below the 16-bit limit, sent by one client and read from the wire in
   arbitrary pieces, arrives complete, in order, with consecutive sequence numbers, each sealed under
   its own counter value where the cipher seals it.
   */
  method Conversation(crc: Checksum, cipher: Cipher, payloads: seq<Bytes>) returns (got: seq<Tslp>)
    requires Honest(cipher) && IsWord(|payloads|)
    requires (forall p | p in payloads :: |p| + 2 < 0x1_0000) && AllStayPlain(crc, cipher, payloads, 0)
    ensures CarriesAll(cipher, got, payloads, 0, 0) && AllSealed(crc, cipher, got, payloads, 0)
  {
    FramesCarry(crc, cipher, payloads, 0, 0);
    FramesSealed(crc, cipher, payloads, 0, 0);
    var client := new TmpClient(crc, cipher, true, []);
    ghost var fs := Frames(crc, cipher, payloads, 0, 0).value;
    FramesEncodable(crc, cipher, payloads, 0, 0);
    SendAll(client, payloads, 0, 0, [], EncodeAll(crc, fs));
    StreamRoundTrip(crc, fs, []);
    var t := new Transport(client.outgoing);
    assert client.outgoing == EncodeAll(crc, fs) + [];
    var r := ReceiveAll(t, |payloads|);
    got := r.value;
  }
}
