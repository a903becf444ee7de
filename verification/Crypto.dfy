/**
  SessionCrypto: mirrored session keys from a key exchange, and per-packet authenticated encryption.
  The primitives (X25519, HKDF-SHA256, ChaCha20-Poly1305) are parameters; `Laws` lists all that is
  assumed of them.
*/
module Crypto {
  import opened Wrappers
  import opened Bytes

  const KEY_SIZE: nat := 32
  const TAG_SIZE: nat := 16
  const NONCE_SIZE: nat := 12
  const SALT_SIZE: nat := 8

  type Key = k: seq<byte> | |k| == KEY_SIZE witness seq(KEY_SIZE, _ => 0)
  type Salt = s: seq<byte> | |s| == SALT_SIZE witness seq(SALT_SIZE, _ => 0)

  const ZERO_KEY: Key := seq(KEY_SIZE, _ => 0)
  const ZERO_SALT: Salt := seq(SALT_SIZE, _ => 0)

  datatype KeyPair = KeyPair(publicKey: Key, privateKey: Key)

  /** The foreign primitives; None is a failure code. */
  datatype Primitives = Primitives(
    publicOf: Key -> Key,                                              // private -> public
    sharedSecret: (Key, Key) -> Option<seq<byte>>,                     // private, peer's public
    extract: (seq<byte>, seq<byte>) -> Option<seq<byte>>,              // salt, secret
    expand: (seq<byte>, seq<byte>, nat) -> Option<seq<byte>>,          // prk, info, length
    seal: (Key, seq<byte>, seq<byte>, seq<byte>) -> Option<seq<byte>>, // key, nonce, aad, plaintext
    open: (Key, seq<byte>, seq<byte>, seq<byte>) -> Option<seq<byte>>) // key, nonce, aad, sealed
  {
    /** Section 6.1 of RFC 7748: both sides compute the same secret, or both fail. */
    ghost predicate ExchangeCommutes() {
      forall a: Key, b: Key :: sharedSecret(a, publicOf(b)) == sharedSecret(b, publicOf(a))
    }

    /** Section 2.3 of RFC 5869: the output has the requested length. */
    ghost predicate ExpandsToLength() {
      forall prk, info, n :: expand(prk, info, n).Some? ==> |expand(prk, info, n).value| == n
    }

    /** Section 2.8 of RFC 8439: opening undoes sealing, and the tag adds 16 bytes. */
    ghost predicate OpenInvertsSeal() {
      && (forall k: Key, n, aad, text :: seal(k, n, aad, text).Some? ==>
            && |seal(k, n, aad, text).value| == |text| + TAG_SIZE
            && open(k, n, aad, seal(k, n, aad, text).value) == Some(text))
      && (forall k: Key, n, aad, box :: open(k, n, aad, box).Some? ==>
            |open(k, n, aad, box).value| + TAG_SIZE == |box|)
    }

    ghost predicate Laws() {
      ExchangeCommutes() && ExpandsToLength() && OpenInvertsSeal()
    }
  }

  /** The four secrets of one peer. */
  datatype SessionKeys = SessionKeys(rxKey: Key, txKey: Key, rxSalt: Salt, txSalt: Salt)

  /** C's memcmp: the sign of the first differing byte. */
  function MemCmp(a: seq<byte>, b: seq<byte>): int
    requires |a| == |b|
  {
    if a == [] then 0
    else if a[0] != b[0] then a[0] - b[0]
    else MemCmp(a[1..], b[1..])
  }

  lemma {:induction false} MemCmpTotal(a: seq<byte>, b: seq<byte>)
    requires |a| == |b|
    ensures MemCmp(a, b) == -MemCmp(b, a)
    ensures MemCmp(a, b) == 0 <==> a == b
  {
    if a != [] && a[0] == b[0] {
      MemCmpTotal(a[1..], b[1..]);
      assert a == [a[0]] + a[1..] && b == [b[0]] + b[1..];
    }
  }

  /** Byte strings in lexicographic order. */
  ghost predicate NotAfter(a: seq<byte>, b: seq<byte>)
    requires |a| == |b|
  {
    a == b || exists i :: 0 <= i < |a| && a[..i] == b[..i] && a[i] < b[i]
  }

  lemma {:induction false} MemCmpOrders(a: seq<byte>, b: seq<byte>)
    requires |a| == |b|
    ensures MemCmp(a, b) <= 0 <==> NotAfter(a, b)
  {
    if a != [] {
      if a[0] == b[0] {
        MemCmpOrders(a[1..], b[1..]);
        NotAfterTail(a, b);
      } else {
        NotAfterHead(a, b);
      }
    }
  }

  lemma NotAfterHead(a: seq<byte>, b: seq<byte>)
    requires |a| == |b| > 0 && a[0] != b[0]
    ensures NotAfter(a, b) <==> a[0] < b[0]
  {
    assert a[..0] == b[..0];
    assert forall i :: 0 < i < |a| ==> a[..i][0] != b[..i][0];
  }

  lemma NotAfterTail(a: seq<byte>, b: seq<byte>)
    requires |a| == |b| > 0 && a[0] == b[0]
    ensures NotAfter(a[1..], b[1..]) <==> NotAfter(a, b)
  {
    var x, y := a[1..], b[1..];
    assert a == [a[0]] + x && b == [b[0]] + y;
    if i :| 0 <= i < |a| && a[..i] == b[..i] && a[i] < b[i] {
      assert x[..i - 1] == a[..i][1..] && y[..i - 1] == b[..i][1..] && x[i - 1] < y[i - 1];
    }
    if i :| 0 <= i < |x| && x[..i] == y[..i] && x[i] < y[i] {
      assert a[..i + 1] == [a[0]] + x[..i] && b[..i + 1] == [b[0]] + y[..i] && a[i + 1] < b[i + 1];
    }
  }

  /** Label and both public keys, smaller first: the transcript the keys are bound to. */
  function TranscriptInfo(purpose: seq<byte>, mine: Key, peers: Key): seq<byte> {
    var lo := if MemCmp(mine, peers) <= 0 then mine else peers;
    var hi := if MemCmp(mine, peers) <= 0 then peers else mine;
    purpose + lo + hi
  }

  function Ascii(s: string): seq<byte> {
    seq(|s|, i requires 0 <= i < |s| => s[i] as int % 256)
  }

  const KX_SALT: seq<byte> := Ascii("VeyraV1-session-kx")

  function Expand(p: Primitives, prk: seq<byte>, purpose: string, mine: Key, peers: Key, n: nat): Option<seq<byte>> {
    p.expand(prk, TranscriptInfo(Ascii(purpose), mine, peers), n)
  }

  /** The key schedule of one side; None when any primitive fails. */
  function Derive(p: Primitives, serverRole: bool, peers: Key, mine: Key, priv: Key): (r: Option<SessionKeys>)
    requires p.Laws()
  {
    var shared := p.sharedSecret(priv, peers);
    if shared.None? then None else
    var prk := p.extract(KX_SALT, shared.value);
    if prk.None? then None else
    var keyS2C := Expand(p, prk.value, "VeyraV1|s2c|", mine, peers, KEY_SIZE);
    var keyC2S := Expand(p, prk.value, "VeyraV1|c2s|", mine, peers, KEY_SIZE);
    var saltS2C := Expand(p, prk.value, "VeyraV1|ns2c|", mine, peers, SALT_SIZE);
    var saltC2S := Expand(p, prk.value, "VeyraV1|nc2s|", mine, peers, SALT_SIZE);
    if keyS2C.None? || keyC2S.None? || saltS2C.None? || saltC2S.None? then None
    else if serverRole then Some(SessionKeys(keyC2S.value, keyS2C.value, saltC2S.value, saltS2C.value))
    else Some(SessionKeys(keyS2C.value, keyC2S.value, saltS2C.value, saltC2S.value))
  }

  /** A media endpoint's crypto_ pointer: null, or an object that may or may not hold keys. */
  datatype Arming = Plain | Armed(keys: Option<SessionKeys>)

  /** What one peer transmits with is what the other receives with, in both directions. */
  ghost predicate Mirrored(a: SessionKeys, b: SessionKeys) {
    a.txKey == b.rxKey && a.rxKey == b.txKey && a.txSalt == b.rxSalt && a.rxSalt == b.txSalt
  }

  /** The transcript does not depend on which side builds it. */
  lemma TranscriptInfoSymmetric(purpose: seq<byte>, a: Key, b: Key)
    ensures TranscriptInfo(purpose, a, b) == TranscriptInfo(purpose, b, a)
  {
    MemCmpTotal(a, b);
  }

  /** The two roles of one exchange succeed together, and then hold mirrored keys. */
  lemma DeriveMirrored(p: Primitives, server: Key, client: Key)
    requires p.Laws()
    ensures var s := Derive(p, true, p.publicOf(client), p.publicOf(server), server);
            var c := Derive(p, false, p.publicOf(server), p.publicOf(client), client);
            && (s.Some? <==> c.Some?)
            && (s.Some? ==> Mirrored(s.value, c.value))
  {
    var ps, pc := p.publicOf(server), p.publicOf(client);
    assert p.sharedSecret(server, pc) == p.sharedSecret(client, ps);
    TranscriptInfoSymmetric(Ascii("VeyraV1|s2c|"), ps, pc);
    TranscriptInfoSymmetric(Ascii("VeyraV1|c2s|"), ps, pc);
    TranscriptInfoSymmetric(Ascii("VeyraV1|ns2c|"), ps, pc);
    TranscriptInfoSymmetric(Ascii("VeyraV1|nc2s|"), ps, pc);
  }

  // ---- What the keys depend on ----

  /** The label, then both keys in lexicographic order. */
  lemma InfoIsOrdered(purpose: seq<byte>, lo: Key, hi: Key)
    requires NotAfter(lo, hi)
    ensures TranscriptInfo(purpose, lo, hi) == TranscriptInfo(purpose, hi, lo) == purpose + lo + hi
  {
    MemCmpOrders(lo, hi);
    TranscriptInfoSymmetric(purpose, lo, hi);
  }

  /** Another label, or another pair of public keys, gives another info. */
  lemma InfoBinds(purpose: seq<byte>, a: Key, b: Key, purpose': seq<byte>, a': Key, b': Key)
    requires TranscriptInfo(purpose, a, b) == TranscriptInfo(purpose', a', b')
    ensures purpose == purpose' && {a, b} == {a', b'}
  {
    hide MemCmp;
    Parts(purpose, if MemCmp(a, b) <= 0 then a else b, if MemCmp(a, b) <= 0 then b else a);
    Parts(purpose', if MemCmp(a', b') <= 0 then a' else b', if MemCmp(a', b') <= 0 then b' else a');
    assert |purpose| == |purpose'|;
  }

  lemma Parts(purpose: seq<byte>, x: Key, y: Key)
    ensures var info, n := purpose + x + y, |purpose|;
      |info| == n + 2 * KEY_SIZE
      && info[..n] == purpose && info[n..n + KEY_SIZE] == x && info[n + KEY_SIZE..] == y
  {
  }

  /**
    The key schedule, spelt out: what the phone (the server) transmits with is expanded under the s2c labels, what
    the PC transmits with under the c2s labels, each with the public keys in lexicographic order.
  */
  ghost predicate Scheduled(p: Primitives, prk: seq<byte>, lo: Key, hi: Key, server: bool, k: SessionKeys) {
    var (phoneKey, pcKey) := if server then (k.txKey, k.rxKey) else (k.rxKey, k.txKey);
    var (phoneSalt, pcSalt) := if server then (k.txSalt, k.rxSalt) else (k.rxSalt, k.txSalt);
    && p.expand(prk, Ascii("VeyraV1|s2c|") + lo + hi, 32) == Some(phoneKey)
    && p.expand(prk, Ascii("VeyraV1|c2s|") + lo + hi, 32) == Some(pcKey)
    && p.expand(prk, Ascii("VeyraV1|ns2c|") + lo + hi, 8) == Some(phoneSalt)
    && p.expand(prk, Ascii("VeyraV1|nc2s|") + lo + hi, 8) == Some(pcSalt)
  }

  /** The secret that the schedule starts from, if the primitives give one. */
  function Extracted(p: Primitives, priv: Key, peers: Key): Option<seq<byte>> {
    var shared := p.sharedSecret(priv, peers);
    if shared.None? then None else p.extract(Ascii("VeyraV1-session-kx"), shared.value)
  }

  /** A derivation gives keys exactly when the schedule can be carried out, and then those of the schedule. */
  lemma DeriveIsScheduled(p: Primitives, server: bool, peers: Key, mine: Key, priv: Key, lo: Key, hi: Key)
    requires p.Laws() && NotAfter(lo, hi) && ((lo, hi) == (mine, peers) || (lo, hi) == (peers, mine))
    ensures forall k :: Derive(p, server, peers, mine, priv) == Some(k) <==>
      Extracted(p, priv, peers).Some? && Scheduled(p, Extracted(p, priv, peers).value, lo, hi, server, k)
  {
    hide Ascii, TranscriptInfo;
    InfoIsOrdered(Ascii("VeyraV1|s2c|"), lo, hi);
    InfoIsOrdered(Ascii("VeyraV1|c2s|"), lo, hi);
    InfoIsOrdered(Ascii("VeyraV1|ns2c|"), lo, hi);
    InfoIsOrdered(Ascii("VeyraV1|nc2s|"), lo, hi);
  }

  /** The four expansions of one exchange tell the directions apart. */
  ghost predicate Separates(p: Primitives, prk: seq<byte>, lo: Key, hi: Key) {
    && p.expand(prk, Ascii("VeyraV1|s2c|") + lo + hi, 32) != p.expand(prk, Ascii("VeyraV1|c2s|") + lo + hi, 32)
    && p.expand(prk, Ascii("VeyraV1|ns2c|") + lo + hi, 8) != p.expand(prk, Ascii("VeyraV1|nc2s|") + lo + hi, 8)
  }

  /** Then neither key nor salt is used in both directions, so no nonce of one direction meets a key of the other. */
  lemma DirectionsDiffer(p: Primitives, server: bool, peers: Key, mine: Key, priv: Key, lo: Key, hi: Key)
    requires p.Laws() && NotAfter(lo, hi) && ((lo, hi) == (mine, peers) || (lo, hi) == (peers, mine))
    requires Derive(p, server, peers, mine, priv).Some? && Separates(p, Extracted(p, priv, peers).value, lo, hi)
    ensures var k := Derive(p, server, peers, mine, priv).value;
      k.txKey != k.rxKey && k.txSalt != k.rxSalt
  {
    DeriveIsScheduled(p, server, peers, mine, priv, lo, hi);
    hide Derive, Ascii;
    assert Scheduled(p, Extracted(p, priv, peers).value, lo, hi, server, Derive(p, server, peers, mine, priv).value);
  }

  /** Direction salt, then the packet's sequence number, big-endian. */
  function Nonce(salt: Salt, sequence: uint32): (n: seq<byte>)
    ensures |n| == NONCE_SIZE
  {
    salt + BigEndian32(sequence)
  }

  /** Eight bytes of salt, then the number's four bytes, high byte first. */
  lemma NonceLayout(salt: Salt, sequence: uint32)
    ensures var n: seq<int> := Nonce(salt, sequence);
      && n[..8] == salt && |n| == 12
      && ((n[8] * 256 + n[9]) * 256 + n[10]) * 256 + n[11] == sequence
  {
    BigEndian32Value(sequence);
    hide BigEndian32;
    assert Nonce(salt, sequence)[8..] == BigEndian32(sequence);
  }

  lemma NonceInjective(salt: Salt, a: uint32, b: uint32)
    requires Nonce(salt, a) == Nonce(salt, b)
    ensures a == b
  {
    assert Nonce(salt, a)[SALT_SIZE..] == BigEndian32(a);
    assert Nonce(salt, b)[SALT_SIZE..] == BigEndian32(b);
    BigEndian32Injective(a, b);
  }

  function EncryptWith(p: Primitives, keys: Option<SessionKeys>, text: seq<byte>, sequence: uint32,
                       aad: seq<byte>): Option<seq<byte>>
  {
    if keys.None? then None
    else p.seal(keys.value.txKey, Nonce(keys.value.txSalt, sequence), aad, text)
  }

  function DecryptWith(p: Primitives, keys: Option<SessionKeys>, box: seq<byte>, sequence: uint32,
                       aad: seq<byte>): Option<seq<byte>>
  {
    if keys.None? || |box| < TAG_SIZE then None
    else p.open(keys.value.rxKey, Nonce(keys.value.rxSalt, sequence), aad, box)
  }

  /** A peer with mirrored keys opens exactly what was sealed, under the same sequence and header. */
  lemma DecryptInvertsEncrypt(p: Primitives, tx: SessionKeys, rx: SessionKeys, text: seq<byte>,
                              sequence: uint32, aad: seq<byte>)
    requires p.Laws() && Mirrored(tx, rx)
    ensures var box := EncryptWith(p, Some(tx), text, sequence, aad);
            box.Some? ==> |box.value| == |text| + TAG_SIZE
                          && DecryptWith(p, Some(rx), box.value, sequence, aad) == Some(text)
  {
    assert p.OpenInvertsSeal();
  }

  /** Primitives that hide nothing: an expansion is what follows "VeyraV1|" in its info. */
  const BARE: Primitives := Primitives(
    k => k,
    (a, b) => Some([]),
    (salt, secret) => Some(secret),
    (prk, info, n) => Some(BareExpansion(info, n)),
    (k, n, aad, text) => Some(text + ZERO_TAG),
    (k, n, aad, box) => if |box| < TAG_SIZE then None else Some(box[..|box| - TAG_SIZE]))

  const ZERO_TAG: seq<byte> := seq(TAG_SIZE, _ => 0)

  function BareExpansion(info: seq<byte>, n: nat): seq<byte> {
    seq(n, i => if 0 <= i && i + 8 < |info| then info[i + 8] else 0)
  }

  /** The laws can be met, together with the separation of directions and working keys: nothing holds vacuously. */
  lemma LawsAreConsistent()
    ensures BARE.Laws()
    ensures forall prk, lo, hi :: Separates(BARE, prk, lo, hi)
    ensures forall server, peers, mine, priv :: Derive(BARE, server, peers, mine, priv).Some?
  {
    BareMeetsLaws();
    forall prk, lo, hi ensures Separates(BARE, prk, lo, hi) {
      BareSeparates(prk, lo, hi);
    }
  }

  lemma BareMeetsLaws()
    ensures BARE.Laws()
  {
    forall text: seq<byte> ensures (text + ZERO_TAG)[..|text|] == text {
    }
    assert BARE.ExchangeCommutes();
    assert BARE.ExpandsToLength();
    assert BARE.OpenInvertsSeal();
  }

  lemma BareSeparates(prk: seq<byte>, lo: Key, hi: Key)
    ensures Separates(BARE, prk, lo, hi)
  {
    BareByte("VeyraV1|s2c|", lo, hi, 32, 0);
    BareByte("VeyraV1|c2s|", lo, hi, 32, 0);
    BareByte("VeyraV1|ns2c|", lo, hi, 8, 1);
    BareByte("VeyraV1|nc2s|", lo, hi, 8, 1);
    hide Ascii, BareExpansion;
  }

  lemma BareByte(purpose: string, lo: Key, hi: Key, n: nat, i: nat)
    requires i < n && i + 8 < |purpose|
    ensures BareExpansion(Ascii(purpose) + lo + hi, n)[i] == purpose[i + 8] as int % 256
  {
  }

  /** The key-holding object shared by packetizer and reassembler. */
  class SessionCrypto {
    const primitives: Primitives
    var rxKey: Key
    var txKey: Key
    var rxSalt: Salt
    var txSalt: Salt
    var hasKeys: bool

    constructor (p: Primitives)
      ensures primitives == p && Keys() == None
    {
      primitives := p;
      rxKey, txKey, rxSalt, txSalt, hasKeys := ZERO_KEY, ZERO_KEY, ZERO_SALT, ZERO_SALT, false;
    }

    /** The usable keys: none before a successful derivation and after a reset. */
    function Keys(): Option<SessionKeys>
      reads this
    {
      if hasKeys then Some(SessionKeys(rxKey, txKey, rxSalt, txSalt)) else None
    }

    method Reset()
      modifies this
      ensures Keys() == None
      ensures rxKey == txKey == ZERO_KEY && rxSalt == txSalt == ZERO_SALT
    {
      rxKey, txKey, rxSalt, txSalt := ZERO_KEY, ZERO_KEY, ZERO_SALT, ZERO_SALT;
      hasKeys := false;
    }

    /** Replaces the keys by those of this exchange; a failure leaves the object without keys. */
    method DeriveSessionKeys(serverRole: bool, peerPublicKey: Key, myPublicKey: Key, myPrivateKey: Key)
      returns (ok: bool)
      requires primitives.Laws()
      modifies this
      ensures Keys() == Derive(primitives, serverRole, peerPublicKey, myPublicKey, myPrivateKey)
      ensures ok <==> Keys().Some?
    {
      Reset();
      var shared := primitives.sharedSecret(myPrivateKey, peerPublicKey);
      if shared.None? { return false; }
      var prk := primitives.extract(KX_SALT, shared.value);
      if prk.None? { return false; }
      var keyS2C := Expand(primitives, prk.value, "VeyraV1|s2c|", myPublicKey, peerPublicKey, KEY_SIZE);
      var keyC2S := Expand(primitives, prk.value, "VeyraV1|c2s|", myPublicKey, peerPublicKey, KEY_SIZE);
      var saltS2C := Expand(primitives, prk.value, "VeyraV1|ns2c|", myPublicKey, peerPublicKey, SALT_SIZE);
      var saltC2S := Expand(primitives, prk.value, "VeyraV1|nc2s|", myPublicKey, peerPublicKey, SALT_SIZE);
      if keyS2C.None? || keyC2S.None? || saltS2C.None? || saltC2S.None? { return false; }
      if serverRole {
        txKey, rxKey := keyS2C.value, keyC2S.value;
        txSalt, rxSalt := saltS2C.value, saltC2S.value;
      } else {
        rxKey, txKey := keyS2C.value, keyC2S.value;
        rxSalt, txSalt := saltS2C.value, saltC2S.value;
      }
      hasKeys := true;
      ok := true;
    }

    method BuildNonce(sequence: uint32, tx: bool) returns (nonce: seq<byte>)
      ensures nonce == Nonce(if tx then txSalt else rxSalt, sequence)
    {
      var salt := if tx then txSalt else rxSalt;
      nonce := salt + BigEndian32(sequence);
    }

    /** Sealed bytes with the trailing tag, or None (the source's 0) on failure. */
    method Encrypt(plaintext: seq<byte>, sequence: uint32, aad: seq<byte>) returns (box: Option<seq<byte>>)
      ensures box == EncryptWith(primitives, Keys(), plaintext, sequence, aad)
    {
      if !hasKeys { return None; }
      var nonce := BuildNonce(sequence, true);
      box := primitives.seal(txKey, nonce, aad, plaintext);
    }

    /** Plaintext, or None (the source's size_t(-1)) when authentication fails. */
    method Decrypt(box: seq<byte>, sequence: uint32, aad: seq<byte>) returns (text: Option<seq<byte>>)
      ensures text == DecryptWith(primitives, Keys(), box, sequence, aad)
    {
      if !hasKeys || |box| < TAG_SIZE { return None; }
      var nonce := BuildNonce(sequence, false);
      text := primitives.open(rxKey, nonce, aad, box);
    }
  }
}
