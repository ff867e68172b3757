/** The password check of the user controller. The broker stores the base64
    of a four-byte salt and the hash of salt and password; the hash function is
    a parameter, only its output length is known. */
module Password {
  import opened Wrappers
  import opened Base64

  type Hash = Bytes -> Bytes

  const SALT_LENGTH := 4

  /** isPasswordUpToDateSHA256 and isPasswordUpToDateSHA512, which differ in h only. */
  predicate IsUpToDate(h: Hash, password: Bytes, stored: string) {
    match Decode(stored)
    case None => false
    case Some(decoded) =>
      && |decoded| >= SALT_LENGTH
      && decoded[SALT_LENGTH..] == h(decoded[..SALT_LENGTH] + password)
  }

  /** What the broker stores for a password under a salt. */
  function Stored(h: Hash, salt: Bytes, password: Bytes): string {
    Encode(salt + h(salt + password))
  }

  /** The check accepts a stored text exactly when it decodes to some salt and
      the salted hash of the password. */
  lemma AcceptsIff(h: Hash, password: Bytes, stored: string)
    ensures IsUpToDate(h, password, stored)
       <==> exists salt: Bytes :: |salt| == SALT_LENGTH && Decode(stored) == Some(salt + h(salt + password))
  {
    if IsUpToDate(h, password, stored) {
      var d := Decode(stored).value;
      assert d == d[..SALT_LENGTH] + h(d[..SALT_LENGTH] + password);
      assert |d[..SALT_LENGTH]| == SALT_LENGTH;
    }
    forall salt: Bytes | |salt| == SALT_LENGTH && Decode(stored) == Some(salt + h(salt + password))
      ensures IsUpToDate(h, password, stored)
    {
      var d := salt + h(salt + password);
      assert d[..SALT_LENGTH] == salt && d[SALT_LENGTH..] == h(salt + password);
    }
  }

  /** Spelled out: the encoding of salt and salted hash, with line breaks
      anywhere and with any spare bits. */
  lemma AcceptsSpellingIff(h: Hash, password: Bytes, stored: string)
    ensures IsUpToDate(h, password, stored)
       <==> exists salt: Bytes :: |salt| == SALT_LENGTH && Spells(WithoutBreaks(stored), salt + h(salt + password))
  {
    AcceptsIff(h, password, stored);
    forall salt: Bytes
      ensures Decode(stored) == Some(salt + h(salt + password)) <==> Spells(WithoutBreaks(stored), salt + h(salt + password))
    {
      DecodeIff(stored, salt + h(salt + password));
    }
  }

  /** Against what the broker stored for q, p is accepted exactly when the
      salted hashes agree; in particular the same password always is. */
  lemma AcceptsStoredIff(h: Hash, salt: Bytes, p: Bytes, q: Bytes)
    requires |salt| == SALT_LENGTH
    ensures IsUpToDate(h, p, Stored(h, salt, q)) <==> h(salt + p) == h(salt + q)
  {
    var d := salt + h(salt + q);
    RoundTrip(d);
    assert d[..SALT_LENGTH] == salt && d[SALT_LENGTH..] == h(salt + q);
  }

  /** The two stored forms: 36 bytes in 48 characters without padding for a
      32-byte hash, 68 bytes in 92 characters ending in padding for a 64-byte hash. */
  lemma StoredForms(h: Hash, salt: Bytes, password: Bytes)
    requires |salt| == SALT_LENGTH
    ensures |h(salt + password)| == 32 ==> |Stored(h, salt, password)| == 48 && '=' !in Stored(h, salt, password)
    ensures |h(salt + password)| == 64 ==> |Stored(h, salt, password)| == 92 && Stored(h, salt, password)[91] == '='
  {
    var d := salt + h(salt + password);
    EncodedLength(d);
    EncodedPadding(d);
    assert |d| == 36 || |d| == 68 || (|h(salt + password)| != 32 && |h(salt + password)| != 64);
  }
}
