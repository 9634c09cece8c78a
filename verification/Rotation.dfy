/** Re-encrypting stored secrets under a new key: the coding of one secret, and what a run makes of the rows. */
module Rotation {
  import opened Options
  import opened JsonValues
  import Base64

  type Bytes = seq<Base64.Byte>
  type Key = Bytes

  const PREFIX := "enc:v1:"
  const IV_BYTES := 12
  const AUTH_TAG_BYTES := 16

  type Iv = b: Bytes | |b| == IV_BYTES witness [0, 0, 0, 0, 0, 0, 0, 0, 0, 0, 0, 0]

  datatype Sealed = Sealed(tag: Bytes, body: Bytes)

  /** An authenticated cipher on text; opening fails when the tag does not match. */
  datatype Aead = Aead(seal: (Key, Iv, string) -> Sealed, open: (Key, Iv, Sealed) -> Option<string>)

  /** What is sealed opens again under the same key; text never seals to nothing, nor something to no text. */
  ghost predicate Lawful(a: Aead) {
    && (forall k: Key, iv: Iv, p: string | p != "" ::
          && |a.seal(k, iv, p).tag| == AUTH_TAG_BYTES && a.seal(k, iv, p).body != []
          && a.open(k, iv, a.seal(k, iv, p)) == Some(p))
    && (forall k: Key, iv: Iv, c: Sealed :: c.body != [] ==> a.open(k, iv, c) != Some(""))
  }

  datatype Error = Truncated | Unauthenticated | NullNode

  /** The cipher and the two keys of a run; they are the same when only plaintext is to be encrypted. */
  datatype Setup = Setup(aead: Aead, oldKey: Key, newKey: Key)

  /* ---- One secret ---- */

  predicate IsEncrypted(value: string) {
    PREFIX <= value
  }

  function Encrypt(a: Aead, key: Key, iv: Iv, plaintext: string): string {
    var s := a.seal(key, iv, plaintext);
    PREFIX + Base64.Encode(iv + s.tag + s.body)
  }

  function DecryptWith(a: Aead, value: string, key: Key): Result<string, Error>
    requires IsEncrypted(value)
  {
    var packed := Base64.Decode(value[|PREFIX|..]);
    if |packed| < IV_BYTES + AUTH_TAG_BYTES + 1 then Err(Truncated)
    else
      var tag := packed[IV_BYTES..IV_BYTES + AUTH_TAG_BYTES];
      match a.open(key, packed[..IV_BYTES], Sealed(tag, packed[IV_BYTES + AUTH_TAG_BYTES..]))
      case None => Err(Unauthenticated)
      case Some(p) => Ok(p)
  }

  /** The replacement of a secret, or none when it is current. */
  function Normalize(s: Setup, value: string, iv: Iv): Result<Option<string>, Error> {
    if value == "" then Ok(None)
    else if IsEncrypted(value) then
      if s.oldKey == s.newKey then Ok(None)
      else
        match DecryptWith(s.aead, value, s.oldKey)
        case Err(e) => Err(e)
        case Ok(p) => Ok(Some(Encrypt(s.aead, s.newKey, iv, p)))
    else Ok(Some(Encrypt(s.aead, s.newKey, iv, value)))
  }

  /** What a stored secret stands for under a key: itself when it is plaintext. */
  function Meaning(a: Aead, value: string, key: Key): Option<string> {
    if !IsEncrypted(value) then Some(value)
    else
      match DecryptWith(a, value, key)
      case Err(_) => None
      case Ok(p) => Some(p)
  }

  predicate NeedsRewrite(s: Setup, v: string) {
    v != "" && (!IsEncrypted(v) || s.oldKey != s.newKey)
  }

  /** The run stops at this secret: the old key does not open it to a text. */
  predicate Fails(s: Setup, v: string) {
    v != "" && IsEncrypted(v) && s.oldKey != s.newKey && DecryptWith(s.aead, v, s.oldKey).Err?
  }

  /** `w` replaces `v`: current values stay, others are ciphertext that means the same under the new key. */
  predicate Rekeyed(s: Setup, v: string, w: string) {
    if !NeedsRewrite(s, v) then w == v
    else
      && IsEncrypted(w) && Meaning(s.aead, v, s.oldKey).Some?
      && Meaning(s.aead, w, s.newKey) == Meaning(s.aead, v, s.oldKey)
  }

  /** Packing, base64 and slicing lose nothing. */
  lemma DecryptInvertsEncrypt(a: Aead, key: Key, iv: Iv, p: string)
    requires Lawful(a) && p != ""
    ensures IsEncrypted(Encrypt(a, key, iv, p)) && DecryptWith(a, Encrypt(a, key, iv, p), key) == Ok(p)
  {
    var s := a.seal(key, iv, p);
    var packed := iv + s.tag + s.body;
    Base64.RoundTrip(packed);
    assert Encrypt(a, key, iv, p)[|PREFIX|..] == Base64.Encode(packed);
    assert packed[..IV_BYTES] == iv && packed[IV_BYTES..IV_BYTES + AUTH_TAG_BYTES] == s.tag;
    assert packed[IV_BYTES + AUTH_TAG_BYTES..] == s.body;
  }

  /**
   The layout of an encrypted secret: the marker, then in base64 the 12 octets of the nonce, the 16 of the tag
   and the ciphertext.
   */
  lemma EnvelopeLayout(a: Aead, key: Key, iv: Iv, p: string)
    requires Lawful(a) && p != ""
    ensures var e := Encrypt(a, key, iv, p);
            && "enc:v1:" <= e && |Base64.Decode(e[7..])| >= 29 && Base64.Decode(e[7..])[..12] == iv
            && Base64.Decode(e[7..])[12..28] == a.seal(key, iv, p).tag
            && Base64.Decode(e[7..])[28..] == a.seal(key, iv, p).body
  {
    var s := a.seal(key, iv, p);
    Base64.RoundTrip(iv + s.tag + s.body);
    assert Encrypt(a, key, iv, p)[7..] == Base64.Encode(iv + s.tag + s.body);
  }

  /** A secret opens exactly when all parts of its envelope are there and the cipher opens them. */
  lemma OpensIff(a: Aead, key: Key, coded: string, p: string)
    ensures var packed := Base64.Decode(coded);
            && (DecryptWith(a, "enc:v1:" + coded, key) == Err(Truncated) <==> |packed| < 29)
            && (DecryptWith(a, "enc:v1:" + coded, key) == Ok(p) <==>
                  && |packed| >= 29
                  && a.open(key, packed[..12], Sealed(packed[12..28], packed[28..])) == Some(p))
  {
    assert ("enc:v1:" + coded)[7..] == coded;
  }

  /** Normalizing stops exactly on failing secrets, leaves current ones, and otherwise keeps the meaning. */
  lemma NormalizeRekeys(s: Setup, v: string, iv: Iv)
    requires Lawful(s.aead)
    ensures Normalize(s, v, iv).Err? <==> Fails(s, v)
    ensures Normalize(s, v, iv) == Ok(None) <==> !NeedsRewrite(s, v)
    ensures forall w :: Normalize(s, v, iv) == Ok(Some(w)) ==> Rekeyed(s, v, w)
  {
    hide Encrypt;
    if NeedsRewrite(s, v) && !Fails(s, v) {
      var p := if IsEncrypted(v) then DecryptWith(s.aead, v, s.oldKey).value else v;
      assert p != "";
      hide DecryptWith;
      DecryptInvertsEncrypt(s.aead, s.newKey, iv, p);
    }
  }

  /** What is rewritten starts with the nonce drawn for it. */
  lemma NonceIsTheOneDrawn(s: Setup, v: string, iv: Iv, w: string)
    requires Lawful(s.aead) && Normalize(s, v, iv) == Ok(Some(w))
    ensures "enc:v1:" <= w && iv <= Base64.Decode(w[7..])
  {
    hide Encrypt;
    var p := if IsEncrypted(v) then DecryptWith(s.aead, v, s.oldKey).value else v;
    assert p != "";
    EnvelopeLayout(s.aead, s.newKey, iv, p);
  }

  /* ---- A lawful cipher ---- */

  function CharBytes(c: char): Bytes {
    [c as int / 0x1_0000, c as int / 0x100 % 0x100, c as int % 0x100]
  }

  function TextBytes(p: string): Bytes {
    if p == "" then [] else CharBytes(p[0]) + TextBytes(p[1..])
  }

  /** The character of three octets, if they denote one. */
  function CharOf(x: Base64.Byte, y: Base64.Byte, z: Base64.Byte): Option<char> {
    var v := x as int * 0x1_0000 + y as int * 0x100 + z as int;
    if v >= 0x11_0000 || 0xD800 <= v < 0xE000 then None else Some(v as char)
  }

  function BytesText(b: Bytes): Option<string> {
    if b == [] then Some("")
    else if |b| < 3 || CharOf(b[0], b[1], b[2]).None? then None
    else
      match BytesText(b[3..])
      case None => None
      case Some(rest) => Some([CharOf(b[0], b[1], b[2]).value] + rest)
  }

  lemma CharReadsBack(c: char)
    ensures var b := CharBytes(c); |b| == 3 && CharOf(b[0], b[1], b[2]) == Some(c)
  {
    assert c as int / 0x1_0000 == c as int / 0x100 / 0x100;
  }

  lemma {:induction false} TextReadsBack(p: string)
    ensures BytesText(TextBytes(p)) == Some(p) && (p != "" ==> TextBytes(p) != [])
  {
    if p != "" {
      CharReadsBack(p[0]);
      hide CharBytes, CharOf;
      TextReadsBack(p[1..]);
      assert TextBytes(p)[3..] == TextBytes(p[1..]);
      assert p == [p[0]] + p[1..];
    }
  }

  /** A tag that depends on the key. */
  function KeyTag(k: Key): Bytes {
    seq(AUTH_TAG_BYTES, i requires 0 <= i < AUTH_TAG_BYTES => if i < |k| then k[i] else 0)
  }

  /** No secrecy, but tags and round trips: enough for the laws. */
  function PlainCipher(): Aead {
    Aead((k: Key, _, p) => Sealed(KeyTag(k), TextBytes(p)),
         (k, _, c: Sealed) => if c.tag == KeyTag(k) then BytesText(c.body) else None)
  }

  /** The laws can be met, by a cipher that refuses keys with another tag. */
  lemma LawfulCiphersExist()
    ensures exists a: Aead :: Lawful(a)
  {
    var a := PlainCipher();
    forall k: Key, iv: Iv, p: string | p != ""
      ensures |a.seal(k, iv, p).tag| == AUTH_TAG_BYTES && a.seal(k, iv, p).body != []
      ensures a.open(k, iv, a.seal(k, iv, p)) == Some(p)
    {
      TextReadsBack(p);
    }
    assert Lawful(a);
  }
}
