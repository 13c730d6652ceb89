/**
 APDUs and the card client's secure channel. The card is the mirror peer: it runs the same
 functions on its own copy of the session.
 */
module SecureChannel {
  import opened Bits
  import opened Wrappers
  import opened Cbc

  // ---------------------------------------------------------------- APDUs

  datatype Command = Command(cla: byte, ins: byte, p1: byte, p2: byte, data: seq<byte>, le: Option<byte>)

  datatype Response = Response(data: seq<byte>, sw: nat)

  function Header(cmd: Command): (h: seq<byte>)
    ensures |h| == 4
  {
    [cmd.cla, cmd.ins, cmd.p1, cmd.p2]
  }

  // The length is cast to one byte.
  function Serialize(cmd: Command): seq<byte> {
    Header(cmd)
    + (if cmd.data == [] then [] else [|cmd.data| % 256] + cmd.data)
    + (match cmd.le { case None => [] case Some(le) => [le] })
  }

  method SerializeRaw(cmd: Command) returns (out: seq<byte>)
    ensures out == Serialize(cmd)
  {
    out := [cmd.cla, cmd.ins, cmd.p1, cmd.p2];
    if cmd.data != [] {
      out := out + [|cmd.data| % 256];
      out := out + cmd.data;
    }
    if cmd.le.Some? {
      out := out + [cmd.le.value];
    }
  }

  function ParseResponse(raw: seq<byte>): Response {
    var n := |raw|;
    if n < 2 then Response([], 0) else Response(raw[..n - 2], raw[n - 2] as int * 256 + raw[n - 1])
  }

  const SW_OK := 0x9000
  const BUFFER := 1024

  // ---------------------------------------------------------------- sessions

  // The keyed block ciphers of one secure channel and the chained IV.
  datatype Session = Session(enc: Cipher, mac: Cipher, iv: seq<byte>)

  ghost predicate IsSession(s: Session) {
    IsBlockCipher(s.enc) && IsBlockCipher(s.mac) && |s.iv| == 16
  }

  function MetaOf(head: seq<byte>): (m: seq<byte>)
    requires |head| <= 16
    ensures |m| == 16
  {
    head + seq(16 - |head|, i => 0)
  }

  // (len + 16) as u8
  function LengthByte(len: nat): byte {
    (len + 16) % 256
  }

  datatype Outcome = Done(resp: Response) | Failed(why: string) | Panicked

  // ---------------------------------------------------------------- the client

  // Encrypts and authenticates a command; the MAC becomes the IV.
  function Seal(s: Session, cmd: Command): (r: (Session, Command))
    requires IsSession(s)
    ensures IsSession(r.0) && r.0.enc == s.enc && r.0.mac == s.mac
  {
    var enc := EncryptData(s.enc, s.iv, cmd.data);
    var mac := Mac(s.mac, MetaOf(Header(cmd) + [LengthByte(|enc|)]), enc);
    (s.(iv := mac), cmd.(data := mac + enc))
  }

  // The MAC that response data must begin with.
  function ExpectedMac(s: Session, data: seq<byte>): (mac: seq<byte>)
    requires IsSession(s) && |data| >= 16
    ensures |mac| == 16
  {
    Mac(s.mac, MetaOf([|data| % 256]), data[16..])
  }

  lemma ExpectedMacMeaning(s: Session, data: seq<byte>)
    requires IsSession(s) && |data| >= 16 && |data| % 16 == 0
    ensures var meta := [|data| % 256, 0, 0, 0, 0, 0, 0, 0, 0, 0, 0, 0, 0, 0, 0, 0];
            ExpectedMac(s, data) == Chain(s.mac, seq(16, i => 0), meta + data[16..])
  {
    hide Mac, IsBlockCipher, Chain;
    var meta := [|data| % 256, 0, 0, 0, 0, 0, 0, 0, 0, 0, 0, 0, 0, 0, 0, 0];
    assert MetaOf([|data| % 256]) == meta;
    MacIsChain(s.mac, meta, data[16..]);
  }

  function Opened(s: Session, mac: seq<byte>, data: seq<byte>): (r: (Session, Outcome))
    requires IsSession(s) && |mac| == 16 && |data| % 16 == 0
    ensures IsSession(r.0) && r.0.enc == s.enc && r.0.mac == s.mac
  {
    (s.(iv := mac), Done(ParseResponse(DecryptData(s.enc, s.iv, data))))
  }

  // Checks and decrypts a response; its MAC becomes the IV.
  function Open(s: Session, resp: Response): (r: (Session, Outcome))
    requires IsSession(s)
    ensures IsSession(r.0) && r.0.enc == s.enc && r.0.mac == s.mac
  {
    if resp.sw != SW_OK then (s, Failed("secure channel outer SW"))
    else if |resp.data| < 16 || |resp.data| % 16 != 0 then (s, Panicked)
    else
      if ExpectedMac(s, resp.data) != resp.data[..16] then (s, Failed("invalid response MAC"))
      else Opened(s, resp.data[..16], resp.data[16..])
  }

  // A command is bytes: the four header bytes, the length of the data in one byte and the data
  // unless there are none, and Le if it is given.
  lemma SerializeMeaning(cmd: Command)
    ensures var head := [cmd.cla, cmd.ins, cmd.p1, cmd.p2];
            var body := if cmd.data == [] then head else head + [|cmd.data| % 256] + cmd.data;
            Serialize(cmd) == if cmd.le.Some? then body + [cmd.le.value] else body
  {
  }

  // The last two bytes are the status word, big-endian; fewer are no response.
  lemma ParseMeaning(data: seq<byte>, sw1: byte, sw2: byte)
    ensures ParseResponse(data + [sw1, sw2]) == Response(data, 256 * (sw1 as int) + sw2)
    ensures |data| < 2 ==> ParseResponse(data) == Response([], 0)
  {
    assert (data + [sw1, sw2])[..|data|] == data;
  }

  // What is sent: the MAC over header, length and eleven zeros, chained from the zero block through
  // the ciphertext; and then that ciphertext of the padded data under the current IV.
  lemma SealMeaning(s: Session, cmd: Command)
    requires IsSession(s)
    ensures var (sent, sealed) := Seal(s, cmd);
            var enc := EncryptData(s.enc, s.iv, cmd.data);
            var meta := [cmd.cla, cmd.ins, cmd.p1, cmd.p2, (|enc| + 16) % 256, 0, 0, 0, 0, 0, 0, 0, 0, 0, 0, 0];
            && sent == Session(s.enc, s.mac, Chain(s.mac, seq(16, i => 0), meta + enc))
            && sealed == cmd.(data := sent.iv + enc)
  {
    hide EncryptData, Mac, IsBlockCipher, Chain;
    var enc := EncryptData(s.enc, s.iv, cmd.data);
    var meta := [cmd.cla, cmd.ins, cmd.p1, cmd.p2, (|enc| + 16) % 256, 0, 0, 0, 0, 0, 0, 0, 0, 0, 0, 0];
    assert MetaOf(Header(cmd) + [LengthByte(|enc|)]) == meta;
    MacIsChain(s.mac, meta, enc);
  }

  // What is accepted: exactly a response with status 0x9000 whose first block is the MAC over its
  // length, fifteen zeros and the rest. Otherwise the session is left as it was.
  lemma OpenMeaning(s: Session, resp: Response)
    requires IsSession(s)
    ensures var (after, outcome) := Open(s, resp);
            if resp.sw != 0x9000 then after == s && outcome == Failed("secure channel outer SW")
            else if |resp.data| < 16 || |resp.data| % 16 != 0 then after == s && outcome == Panicked
            else
              var meta := [|resp.data| % 256, 0, 0, 0, 0, 0, 0, 0, 0, 0, 0, 0, 0, 0, 0, 0];
              if resp.data[..16] == Chain(s.mac, seq(16, i => 0), meta + resp.data[16..]) then
                && after == Session(s.enc, s.mac, resp.data[..16])
                && outcome == Done(ParseResponse(DecryptData(s.enc, s.iv, resp.data[16..])))
              else after == s && outcome == Failed("invalid response MAC")
  {
    hide DecryptData, ExpectedMac, IsBlockCipher, Chain, ParseResponse;
    if |resp.data| >= 16 && |resp.data| % 16 == 0 {
      ExpectedMacMeaning(s, resp.data);
    }
  }

  // One exchange over a link that returns the raw response, or fails.
  function Exchange(s: Session, cmd: Command, link: seq<byte> -> Option<seq<byte>>): (r: (Session, Outcome))
    requires IsSession(s)
    ensures IsSession(r.0)
  {
    var (sent, sealed) := Seal(s, cmd);
    match link(Serialize(sealed))
    case None => (sent, Failed("transmit"))
    case Some(raw) => if |raw| > BUFFER then (sent, Failed("transmit")) else Open(sent, ParseResponse(raw))
  }

  // What the client does with an answer before the channel opens.
  function Plain(cmd: Command, link: seq<byte> -> Option<seq<byte>>): Outcome {
    match link(Serialize(cmd))
    case None => Failed("transmit")
    case Some(raw) => if |raw| > BUFFER then Failed("transmit") else Done(ParseResponse(raw))
  }

  // ---------------------------------------------------------------- opening

  // AES-256 by key, and SHA-512.
  datatype Suite = Suite(aes: seq<byte> -> Cipher, sha512: seq<byte> -> seq<byte>)

  ghost predicate KeyedAt(suite: Suite, key: seq<byte>) {
    |key| == 32 ==> IsBlockCipher(suite.aes(key))
  }

  predicate DigestAt(suite: Suite, data: seq<byte>) {
    |suite.sha512(data)| == 64
  }

  ghost predicate IsSuite(suite: Suite) {
    && (forall key :: KeyedAt(suite, key))
    && (forall data :: DigestAt(suite, data))
  }

  // The session's keys and first IV.
  datatype Keys = Keys(enc: seq<byte>, mac: seq<byte>, iv: seq<byte>)

  predicate AreKeys(k: Keys) {
    |k.enc| == 32 && |k.mac| == 32 && |k.iv| == 16
  }

  // The card's data are a 32-byte salt and the IV; shorter data panic.
  function DeriveKeys(suite: Suite, secret: seq<byte>, pairingKey: seq<byte>, cardData: seq<byte>): (k: Option<Keys>)
    requires IsSuite(suite)
    ensures k.Some? ==> AreKeys(k.value)
  {
    if |cardData| < 48 then None
    else
      assert DigestAt(suite, secret + pairingKey + cardData[..32]);
      var d := suite.sha512(secret + pairingKey + cardData[..32]);
      Some(Keys(d[..32], d[32..64], cardData[32..48]))
  }

  // SHA-512 of the secret, the pairing key and the salt: its first half encrypts, its second half
  // authenticates; the IV follows the salt.
  lemma DeriveMeaning(suite: Suite, secret: seq<byte>, pairingKey: seq<byte>, salt: seq<byte>, iv: seq<byte>,
      rest: seq<byte>)
    requires IsSuite(suite) && |salt| == 32 && |iv| == 16
    ensures var k := DeriveKeys(suite, secret, pairingKey, salt + iv + rest);
            k.Some? && k.value.enc + k.value.mac == suite.sha512(secret + pairingKey + salt)
            && |k.value.enc| == 32 && k.value.iv == iv
  {
    var cardData := salt + iv + rest;
    assert cardData[..32] == salt && cardData[32..48] == iv;
    assert DigestAt(suite, secret + pairingKey + salt);
  }

  function SessionOf(suite: Suite, k: Keys): (s: Session)
    requires IsSuite(suite) && AreKeys(k)
    ensures IsSession(s)
  {
    assert KeyedAt(suite, k.enc) && KeyedAt(suite, k.mac);
    Session(suite.aes(k.enc), suite.aes(k.mac), k.iv)
  }

  function OpenCommand(pairingIndex: byte, ephPub: seq<byte>): Command {
    Command(0x80, 0x10, pairingIndex, 0, ephPub, None)
  }

  function AuthenticateCommand(challenge: seq<byte>): Command {
    Command(0x80, 0x11, 0, 0, challenge, None)
  }

  // The two commands of the opening, on the wire.
  lemma OpeningBytes(pairingIndex: byte, ephPub: seq<byte>, challenge: seq<byte>)
    requires ephPub != []
    ensures Serialize(OpenCommand(pairingIndex, ephPub)) == [0x80, 0x10, pairingIndex, 0x00, |ephPub| % 256] + ephPub
    ensures AuthenticateCommand(challenge) == Command(0x80, 0x11, 0x00, 0x00, challenge, None)
  {
    assert Header(OpenCommand(pairingIndex, ephPub)) == [0x80, 0x10, pairingIndex, 0x00];
  }

  // How an attempt to open ended, and the new session unless the card refused.
  datatype Opening = Opening(session: Option<Session>, outcome: Outcome)

  function OpeningWith(
    suite: Suite, secret: seq<byte>, pairingKey: seq<byte>, first: Outcome, challenge: seq<byte>,
    link: seq<byte> -> Option<seq<byte>>): (o: Opening)
    requires IsSuite(suite)
    ensures o.session.Some? ==> IsSession(o.session.value)
  {
    if !first.Done? then Opening(None, first)
    else if first.resp.sw != SW_OK then Opening(None, Failed("OPEN_SECURE_CHANNEL SW"))
    else
      match DeriveKeys(suite, secret, pairingKey, first.resp.data)
      case None => Opening(None, Panicked)
      case Some(k) =>
        var (s, r) := Exchange(SessionOf(suite, k), AuthenticateCommand(challenge), link);
        Opening(Some(s), if r.Done? && r.resp.sw != SW_OK then Failed("MUTUALLY_AUTHENTICATE SW") else r)
  }

  // The channel opens exactly when the card answers 0x9000 with 48 bytes or more; the attempt then
  // succeeds only if the card also answers the challenge with 0x9000 over the new session.
  lemma OpeningMeaning(
    suite: Suite, secret: seq<byte>, pairingKey: seq<byte>, first: Outcome, challenge: seq<byte>,
    link: seq<byte> -> Option<seq<byte>>)
    requires IsSuite(suite)
    ensures var o := OpeningWith(suite, secret, pairingKey, first, challenge, link);
            && (o.session.Some? <==> first.Done? && first.resp.sw == 0x9000 && |first.resp.data| >= 48)
            && (o.session.None? ==> !o.outcome.Done?)
            && (o.outcome.Done? ==> o.outcome.resp.sw == 0x9000)
            && (o.session.Some? ==>
                  var k := DeriveKeys(suite, secret, pairingKey, first.resp.data).value;
                  o.session.value == Exchange(SessionOf(suite, k), AuthenticateCommand(challenge), link).0)
  {
    hide Exchange, SessionOf, IsSuite;
  }

  class Keycard {
    const suite: Suite
    var isOpen: bool
    var secret: seq<byte>
    var ephPub: seq<byte>
    var encKey: seq<byte>
    var macKey: seq<byte>
    var iv: seq<byte>
    var pairingIndex: byte
    var pairingKey: seq<byte>

    ghost predicate Valid()
      reads this
    {
      IsSuite(suite) && AreKeys(Keys(encKey, macKey, iv))
    }

    ghost function View(): (s: Session)
      requires Valid()
      reads this
      ensures IsSession(s)
    {
      SessionOf(suite, Keys(encKey, macKey, iv))
    }

    // A connected card: closed, unpaired, with zero keys.
    constructor (suite: Suite)
      requires IsSuite(suite)
      ensures Valid() && !isOpen && this.suite == suite
      ensures encKey == macKey == secret == seq(32, i => 0) && iv == seq(16, i => 0)
      ensures ephPub == [] && pairingIndex == 0 && pairingKey == []
    {
      this.suite := suite;
      isOpen, secret, ephPub := false, seq(32, i => 0), [];
      encKey, macKey, iv := seq(32, i => 0), seq(32, i => 0), seq(16, i => 0);
      pairingIndex, pairingKey := 0, [];
    }

    // Selecting the application agrees on a new secret and closes the channel.
    method Select(secret: seq<byte>, ephPub: seq<byte>)
      requires Valid()
      modifies this`isOpen, this`secret, this`ephPub
      ensures Valid() && !isOpen && this.secret == secret && this.ephPub == ephPub
    {
      this.secret, this.ephPub, isOpen := secret, ephPub, false;
    }

    method Pair(index: byte, key: seq<byte>)
      requires Valid()
      modifies this`pairingIndex, this`pairingKey
      ensures Valid() && pairingIndex == index && pairingKey == key
    {
      pairingIndex, pairingKey := index, key;
    }

    method Transmit(cmd: Command, link: seq<byte> -> Option<seq<byte>>) returns (r: Option<Response>)
      ensures r == match link(Serialize(cmd))
                   case None => None
                   case Some(raw) => if |raw| > BUFFER then None else Some(ParseResponse(raw))
    {
      var sent := SerializeRaw(cmd);
      var raw := link(sent);
      if raw == None || |raw.value| > BUFFER {
        return None;
      }
      return Some(ParseResponse(raw.value));
    }

    // Before the channel opens the command goes out as it is; afterwards every step of the
    // exchange, with its effect on the IV even when it fails, is that of Exchange.
    method SendSc(command: Command, link: seq<byte> -> Option<seq<byte>>) returns (r: Outcome)
      requires Valid()
      modifies this`iv
      ensures Valid()
      ensures isOpen ==> (View(), r) == Exchange(old(View()), command, link)
      ensures !isOpen ==> View() == old(View()) && r == Plain(command, link)
    {
      hide Serialize, ParseResponse, Mac, EncryptData, DecryptData, IsBlockCipher, IsSuite;
      var cmd := command;
      var (enc, mac) := (suite.aes(encKey), suite.aes(macKey));
      ghost var before := View();
      assert IsSession(before) && before == Session(enc, mac, iv);
      if isOpen {
        var ct := EncryptDataRaw(enc, iv, cmd.data);
        iv := CalculateMac(mac, MetaOf(Header(cmd) + [LengthByte(|ct|)]), ct);
        cmd := cmd.(data := iv + ct);
      }
      var resp := Transmit(cmd, link);
      if resp == None {
        return Failed("transmit");
      }
      if !isOpen {
        return Done(resp.value);
      }
      var data := resp.value.data;
      if resp.value.sw != SW_OK {
        return Failed("secure channel outer SW");
      }
      if |data| < 16 || |data| % 16 != 0 {
        return Panicked;
      }
      var plain := DecryptDataRaw(enc, iv, data[16..]);
      var newIv := CalculateMac(mac, MetaOf([|data| % 256]), data[16..]);
      if newIv != data[..16] {
        return Failed("invalid response MAC");
      }
      iv := newIv;
      return Done(ParseResponse(plain));
    }

    // Opens the channel and authenticates; a refused attempt leaves the channel as it was.
    method OpenSecureChannel(
      challenge: seq<byte>, link: seq<byte> -> Option<seq<byte>>, authLink: seq<byte> -> Option<seq<byte>>)
      returns (r: Outcome)
      requires Valid()
      modifies this`isOpen, this`encKey, this`macKey, this`iv
      ensures Valid()
      ensures var first := Plain(OpenCommand(pairingIndex, ephPub), link);
              var o := OpeningWith(suite, secret, pairingKey, first, challenge, authLink);
              && r == o.outcome
              && if o.session.Some? then isOpen && View() == o.session.value
                 else isOpen == old(isOpen) && View() == old(View())
    {
      hide Serialize, ParseResponse, Exchange, IsSuite, IsBlockCipher;
      var resp := Transmit(OpenCommand(pairingIndex, ephPub), link);
      if resp == None {
        return Failed("transmit");
      }
      if resp.value.sw != SW_OK {
        return Failed("OPEN_SECURE_CHANNEL SW");
      }
      var keys := DeriveKeys(suite, secret, pairingKey, resp.value.data);
      if keys == None {
        return Panicked;
      }
      encKey, macKey, iv := keys.value.enc, keys.value.mac, keys.value.iv;
      isOpen := true;
      r := SendSc(AuthenticateCommand(challenge), authLink);
      if r.Done? && r.resp.sw != SW_OK {
        return Failed("MUTUALLY_AUTHENTICATE SW");
      }
    }
  }

  // ---------------------------------------------------------------- the mirror peer

  // What the card takes from the raw bytes: the length octet must be true and the MAC must match.
  function Receive(card: Session, raw: seq<byte>): (r: Option<(Session, Command)>)
    requires IsSession(card)
    ensures r.Some? ==> IsSession(r.value.0)
  {
    if |raw| < 21 || raw[4] != |raw| - 5 || (|raw| - 21) % 16 != 0 then None
    else
      var (mac, enc) := (raw[5..21], raw[21..]);
      if mac != Mac(card.mac, MetaOf(raw[..5]), enc) then None
      else Some((card.(iv := mac), Command(raw[0], raw[1], raw[2], raw[3], DecryptData(card.enc, card.iv, enc), None)))
  }

  // The card's answer carrying `payload`, data and inner status word.
  function Reply(card: Session, payload: seq<byte>): (r: (Session, seq<byte>))
    requires IsSession(card)
    ensures IsSession(r.0)
  {
    var enc := EncryptData(card.enc, card.iv, payload);
    var mac := Mac(card.mac, MetaOf([LengthByte(|enc|)]), enc);
    (card.(iv := mac), mac + enc + [0x90, 0x00])
  }

  function Answer(card: Session, raw: seq<byte>, payload: seq<byte>): (r: (Session, Option<Command>, seq<byte>))
    requires IsSession(card)
    ensures IsSession(r.0)
  {
    match Receive(card, raw)
    case None => (card, None, [0x69, 0x82])
    case Some((card', cmd)) =>
      var (card'', bytes) := Reply(card', payload);
      (card'', Some(cmd), bytes)
  }

  // The link to a card that will answer with `payload`.
  function LinkTo(card: Session, payload: seq<byte>): seq<byte> -> Option<seq<byte>>
    requires IsSession(card)
  {
    raw => Some(Answer(card, raw, payload).2)
  }

  lemma LinkAnswers(card: Session, payload: seq<byte>, raw: seq<byte>)
    requires IsSession(card)
    ensures LinkTo(card, payload)(raw) == Some(Answer(card, raw, payload).2)
  {
  }

  // ---------------------------------------------------------------- laws

  // The one-byte length that is MACed and sent is the true length exactly up to 223 plain bytes.
  lemma LengthByteExact(data: seq<byte>)
    ensures var n := |data| + 16 - |data| % 16;
            LengthByte(n) == n + 16 <==> |data| <= 223
  {
  }

  lemma SealedBytes(s: Session, cmd: Command)
    requires IsSession(s) && cmd.le == None
    ensures var (sent, sealed) := Seal(s, cmd);
            var enc := EncryptData(s.enc, s.iv, cmd.data);
            && |sealed.data| == 16 + |enc|
            && Serialize(sealed) == Header(cmd) + [LengthByte(|enc|)] + sent.iv + enc
  {
    hide EncryptData, Mac, IsBlockCipher;
    var (sent, sealed) := Seal(s, cmd);
    var enc := EncryptData(s.enc, s.iv, cmd.data);
    assert Header(sealed) == Header(cmd);
    assert |sealed.data| % 256 == LengthByte(|enc|);
    assert [LengthByte(|enc|)] + (sent.iv + enc) + [] == [LengthByte(|enc|)] + sent.iv + enc;
  }

  lemma SealedIv(s: Session, cmd: Command)
    requires IsSession(s)
    ensures var enc := EncryptData(s.enc, s.iv, cmd.data);
            Seal(s, cmd).0 == s.(iv := Mac(s.mac, MetaOf(Header(cmd) + [LengthByte(|enc|)]), enc))
  {
  }

  // The card reads a sealed command back exactly when the plaintext has at most 223 bytes.
  lemma CardReceives(s: Session, cmd: Command)
    requires IsSession(s) && cmd.le == None
    ensures var (sent, sealed) := Seal(s, cmd);
            Receive(s, Serialize(sealed)) == if |cmd.data| <= 223 then Some((sent, cmd)) else None
  {
    hide EncryptData, DecryptData, Mac, IsBlockCipher, Seal, Serialize;
    var (sent, sealed) := Seal(s, cmd);
    var enc := EncryptData(s.enc, s.iv, cmd.data);
    var raw := Serialize(sealed);
    SealedBytes(s, cmd);
    LengthByteExact(cmd.data);
    SealedIv(s, cmd);
    assert raw[..5] == Header(cmd) + [LengthByte(|enc|)];
    assert raw[5..21] == sent.iv && raw[21..] == enc;
    DataRoundTrip(s.enc, s.iv, cmd.data);
  }

  lemma ReplySize(n: nat)
    ensures 16 + (n + 16 - n % 16) + 2 <= BUFFER <==> n <= 991
  {
  }

  lemma ParseSuccess(data: seq<byte>)
    ensures ParseResponse(data + [0x90, 0x00]) == Response(data, SW_OK)
  {
    assert (data + [0x90, 0x00])[..|data|] == data;
  }

  lemma OpenGenuine(s: Session, data: seq<byte>)
    requires IsSession(s) && |data| >= 16 && |data| % 16 == 0 && ExpectedMac(s, data) == data[..16]
    ensures Open(s, Response(data, SW_OK)) == Opened(s, data[..16], data[16..])
  {
    hide Opened, ExpectedMac, IsBlockCipher;
  }

  lemma ReplyLength(mac: seq<byte>, enc: seq<byte>)
    requires |mac| == 16 && |enc| % 16 == 0
    ensures |mac + enc| % 256 == LengthByte(|enc|) && |mac + enc| % 16 == 0
  {
  }

  lemma OpenReply(s: Session, mac: seq<byte>, enc: seq<byte>)
    requires IsSession(s) && |enc| % 16 == 0 && |mac| == 16
    requires mac == Mac(s.mac, MetaOf([LengthByte(|enc|)]), enc)
    ensures Open(s, Response(mac + enc, SW_OK)) == (s.(iv := mac), Done(ParseResponse(DecryptData(s.enc, s.iv, enc))))
  {
    hide DecryptData, Mac, IsBlockCipher, ParseResponse, MetaOf, LengthByte, Open;
    ReplyLength(mac, enc);
    var data := mac + enc;
    assert data[..16] == mac && data[16..] == enc;
    OpenGenuine(s, data);
  }

  // The client opens whatever the mirror replies; the reply fits the transmit buffer exactly up
  // to 991 bytes.
  lemma ClientOpens(s: Session, payload: seq<byte>)
    requires IsSession(s)
    ensures var (card, raw) := Reply(s, payload);
            && (|raw| <= BUFFER <==> |payload| <= 991)
            && Open(s, ParseResponse(raw)) == (card, Done(ParseResponse(payload)))
  {
    hide EncryptData, DecryptData, Mac, IsBlockCipher, ParseResponse, Open, MetaOf, LengthByte;
    var enc := EncryptData(s.enc, s.iv, payload);
    var mac := Mac(s.mac, MetaOf([LengthByte(|enc|)]), enc);
    ReplySize(|payload|);
    ParseSuccess(mac + enc);
    OpenReply(s, mac, enc);
    DataRoundTrip(s.enc, s.iv, payload);
  }

  // A link that fails, or answers more than the buffer holds, ends the exchange with the IV already
  // advanced by the command.
  lemma TransmitMeaning(s: Session, cmd: Command, link: seq<byte> -> Option<seq<byte>>)
    requires IsSession(s)
    ensures var (sent, sealed) := Seal(s, cmd);
            var raw := link(Serialize(sealed));
            Exchange(s, cmd, link)
            == if raw.None? || |raw.value| > 1024 then (sent, Failed("transmit"))
                else Open(sent, ParseResponse(raw.value))
  {
    hide Seal, Open, Serialize, ParseResponse;
  }

  // One exchange with a synchronized mirror delivers both payloads and leaves the IVs equal
  // again exactly when the command has at most 223 bytes and the answer at most 991.
  lemma ExchangeSynchronized(s: Session, cmd: Command, payload: seq<byte>)
    requires IsSession(s) && cmd.le == None
    ensures var raw := Serialize(Seal(s, cmd).1);
            var (card, received, bytes) := Answer(s, raw, payload);
            received == Some(cmd) && Exchange(s, cmd, LinkTo(s, payload)) == (card, Done(ParseResponse(payload)))
            <==> |cmd.data| <= 223 && |payload| <= 991
  {
    hide Receive, Reply, Seal, Open, Serialize, ParseResponse, IsSession, LinkTo;
    LinkAnswers(s, payload, Serialize(Seal(s, cmd).1));
    CardReceives(s, cmd);
    ClientOpens(Seal(s, cmd).0, payload);
  }

  // A card that answers with a salt and an IV and derives the same keys opens the channel: the
  // client ends in the card's session.
  lemma OpensWithMirror(
    suite: Suite, secret: seq<byte>, pairingKey: seq<byte>, cardData: seq<byte>, challenge: seq<byte>,
    payload: seq<byte>)
    requires IsSuite(suite) && |cardData| == 48 && |challenge| == 32
    requires |payload| <= 991 && ParseResponse(payload).sw == SW_OK
    ensures var s := SessionOf(suite, DeriveKeys(suite, secret, pairingKey, cardData).value);
            var raw := Serialize(Seal(s, AuthenticateCommand(challenge)).1);
            var (card, received, _) := Answer(s, raw, payload);
            && received == Some(AuthenticateCommand(challenge))
            && OpeningWith(suite, secret, pairingKey, Done(Response(cardData, SW_OK)), challenge, LinkTo(s, payload))
               == Opening(Some(card), Done(ParseResponse(payload)))
  {
    hide Exchange, Answer, Seal, Serialize, ParseResponse, IsSession, LinkTo, SessionOf, IsSuite;
    var s := SessionOf(suite, DeriveKeys(suite, secret, pairingKey, cardData).value);
    ExchangeSynchronized(s, AuthenticateCommand(challenge), payload);
  }

  datatype Turn = Turn(cmd: Command, payload: seq<byte>)

  // What both sides have seen after a run.
  datatype History = History(client: Session, card: Session, received: seq<Option<Command>>, answers: seq<Outcome>)

  function Play(h: History, turn: Turn): (r: History)
    requires IsSession(h.client) && IsSession(h.card)
    ensures IsSession(r.client) && IsSession(r.card)
  {
    var (card, received, _) := Answer(h.card, Serialize(Seal(h.client, turn.cmd).1), turn.payload);
    var (client, outcome) := Exchange(h.client, turn.cmd, LinkTo(h.card, turn.payload));
    History(client, card, h.received + [received], h.answers + [outcome])
  }

  function Run(s: Session, turns: seq<Turn>): (h: History)
    requires IsSession(s)
    ensures IsSession(h.client) && IsSession(h.card)
  {
    if turns == [] then History(s, s, [], []) else
      Play(Run(s, turns[..|turns| - 1]), turns[|turns| - 1])
  }

  // The sides agree and every command and every payload has arrived as it was sent.
  ghost predicate Synchronized(h: History, turns: seq<Turn>) {
    && h.client == h.card
    && |h.received| == |h.answers| == |turns|
    && forall i :: 0 <= i < |turns| ==>
        h.received[i] == Some(turns[i].cmd) && h.answers[i] == Done(ParseResponse(turns[i].payload))
  }

  // What fits a one-byte length and the transmit buffer.
  predicate Deliverable(t: Turn) {
    t.cmd.le == None && |t.cmd.data| <= 223 && |t.payload| <= 991
  }

  lemma PlayAppends(h: History, t: Turn)
    requires IsSession(h.client) && h.client == h.card
    requires Deliverable(t)
    ensures var after := Play(h, t);
            && after.client == after.card
            && after.received == h.received + [Some(t.cmd)]
            && after.answers == h.answers + [Done(ParseResponse(t.payload))]
  {
    hide Exchange, Answer, Seal, Serialize, ParseResponse, IsSession, LinkTo;
    ExchangeSynchronized(h.client, t.cmd, t.payload);
  }

  // Over every run from a common session the two sides stay synchronized and every command and
  // every response arrives intact.
  lemma {:induction false} RunSynchronized(s: Session, turns: seq<Turn>)
    requires IsSession(s)
    requires forall i :: 0 <= i < |turns| ==> Deliverable(turns[i])
    ensures Synchronized(Run(s, turns), turns)
  {
    hide Exchange, Answer, Seal, Serialize, ParseResponse, IsSession, LinkTo, Play;
    if turns != [] {
      var n := |turns| - 1;
      var (init, t) := (turns[..n], turns[n]);
      RunSynchronized(s, init);
      var before := Run(s, init);
      PlayAppends(before, t);
    }
  }
}
