/** The header in front of an encrypted backup: what the writer records and the reader derives its key from. */
module BackupHeader {
  import opened Wrappers
  import opened BigEndian
  import opened BackupCrypt

  const THREADS: Byte := 1

  /** Key derivation from passphrase, salt, time, memory and threads, and the cipher under a key. */
  datatype Suite = Suite(kdf: (Bytes, Bytes, nat, nat, nat) -> Bytes, cipher: Bytes -> Aead)

  datatype OpenError = PassphraseRequired | InvalidArchive | NewerArchive

  function Header(time: nat, memory: nat, random: Bytes): Bytes {
    MAGIC + [VERSION] + Encode(time, 4) + Encode(memory, 4) + [THREADS] + random
  }

  function NewAead(suite: Suite, passphrase: Bytes, header: Bytes): Result<Aead, OpenError>
    requires |header| == HEADER
  {
    var time, memory := Decode(header[8..12]), Decode(header[12..16]);
    var threads, salt := header[16] as nat, header[17..17 + SALT];
    if time == 0 || time > MAX_KDF_TIME || memory == 0 || memory > MAX_KDF_MEMORY || threads == 0 then
      Err(InvalidArchive)
    else Ok(suite.cipher(suite.kdf(passphrase, salt, time, memory, threads)))
  }

  function NewSession(suite: Suite, passphrase: Bytes, header: Bytes): Result<Session, OpenError>
    requires |header| == HEADER
  {
    match NewAead(suite, passphrase, header)
    case Ok(aead) => Ok(Session(aead, header, header[HEADER - NONCE..]))
    case Err(e) => Err(e)
  }

  predicate IsEncrypted(file: Bytes) {
    MAGIC <= file
  }

  /** What newDecryptReader makes of a file: a session and the chunks after the header. */
  function NewReader(suite: Suite, passphrase: Bytes, file: Bytes): Result<(Session, Bytes), OpenError> {
    if passphrase == [] then Err(PassphraseRequired)
    else if |file| < HEADER then Err(InvalidArchive)
    else if file[|MAGIC|] != VERSION then Err(NewerArchive)
    else
      match NewSession(suite, passphrase, file[..HEADER])
      case Ok(s) => Ok((s, file[HEADER..]))
      case Err(e) => Err(e)
  }

  /** The fields of a written header, at the offsets the reader takes them from. */
  lemma HeaderFields(time: nat, memory: nat, random: Bytes)
    requires time < UINT32 && memory < UINT32 && |random| == SALT + NONCE
    ensures var h := Header(time, memory, random);
            && |h| == HEADER && MAGIC <= h && h[|MAGIC|] == VERSION
            && Decode(h[8..12]) == time && Decode(h[12..16]) == memory && h[16] == THREADS
            && h[17..17 + SALT] == random[..SALT] && h[HEADER - NONCE..] == random[SALT..]
  {
    var h := Header(time, memory, random);
    assert h[8..12] == Encode(time, 4);
    assert h[12..16] == Encode(memory, 4);
    DecodeEncode(time, 4);
    DecodeEncode(memory, 4);
    assert Pow256(4) == UINT32 by { assert Pow256(2) == 65536; }
    assert h[17..17 + SALT] == random[..SALT];
    assert h[HEADER - NONCE..] == random[SALT..];
  }

  /**
   End to end: a file the writer made opens again, under the passphrase it was made with,
   to its plaintext; the settings it refuses are exactly the ones the reader refuses.
   */
  lemma ArchiveRoundTrip(suite: Suite, passphrase: Bytes, time: nat, memory: nat, random: Bytes, plain: Bytes)
    requires time < UINT32 && memory < UINT32 && |random| == SALT + NONCE && passphrase != []
    requires forall key :: Correct(suite.cipher(key))
    ensures |Header(time, memory, random)| == HEADER
    ensures var made := NewSession(suite, passphrase, Header(time, memory, random));
            && (made.Ok? <==> 1 <= time <= MAX_KDF_TIME && 1 <= memory <= MAX_KDF_MEMORY)
            && (made.Err? ==> NewReader(suite, passphrase, Header(time, memory, random)) == Err(InvalidArchive))
    ensures var made := NewSession(suite, passphrase, Header(time, memory, random));
            made.Ok? ==>
              && |made.value.base| == NONCE
              && var body := Sealed(made.value, plain, 0);
                 && IsEncrypted(made.value.header + body)
                 && NewReader(suite, passphrase, made.value.header + body) == Ok((made.value, body))
                 && Opened(made.value, body, AtEof, 0) == Delivery(plain, EndOfFile)
  {
    HeaderFields(time, memory, random);
    var h := Header(time, memory, random);
    assert h[..HEADER] == h;
    var made := NewSession(suite, passphrase, h);
    if made.Ok? {
      var body := Sealed(made.value, plain, 0);
      RoundTrip(made.value, plain, 0);
      assert (h + body)[..HEADER] == h && (h + body)[HEADER..] == body;
    }
  }

  /** A reader gets the key of its passphrase and of the header's salt and costs, and the header's nonce. */
  lemma KeyIsDerived(suite: Suite, passphrase: Bytes, time: nat, memory: nat, random: Bytes)
    requires 1 <= time <= MAX_KDF_TIME && 1 <= memory <= MAX_KDF_MEMORY && |random| == SALT + NONCE
    ensures |Header(time, memory, random)| == HEADER
    ensures NewSession(suite, passphrase, Header(time, memory, random)) ==
            Ok(Session(suite.cipher(suite.kdf(passphrase, random[..SALT], time, memory, 1)),
                       Header(time, memory, random), random[SALT..]))
  {
    HeaderFields(time, memory, random);
  }

  /** One cipher opens nothing that the other sealed. */
  ghost predicate Foreign(mine: Aead, theirs: Aead) {
    forall nonce, text, aad, n, d :: mine.open(n, theirs.seal(nonce, text, aad), d).None?
  }

  /** A file read under another passphrase than it was made with, one whose key does not fit, gives nothing away. */
  lemma WrongPassphraseRefused(suite: Suite, p: Bytes, q: Bytes, time: nat, memory: nat, random: Bytes, plain: Bytes)
    requires 1 <= time <= MAX_KDF_TIME && 1 <= memory <= MAX_KDF_MEMORY && |random| == SALT + NONCE && q != []
    requires Correct(suite.cipher(suite.kdf(p, random[..SALT], time, memory, 1)))
    requires Foreign(suite.cipher(suite.kdf(q, random[..SALT], time, memory, 1)),
                     suite.cipher(suite.kdf(p, random[..SALT], time, memory, 1)))
    ensures |Header(time, memory, random)| == HEADER
    ensures var h := Header(time, memory, random);
            var made := NewSession(suite, p, h);
            && made.Ok? && |made.value.base| == NONCE
            && var body := Sealed(made.value, plain, 0);
               var read := NewReader(suite, q, h + body);
               && read.Ok? && read.value.1 == body && |read.value.0.base| == NONCE
               && Opened(read.value.0, body, AtEof, 0) == Delivery([], WrongPassphrase)
  {
    HeaderFields(time, memory, random);
    KeyIsDerived(suite, p, time, memory, random);
    KeyIsDerived(suite, q, time, memory, random);
    var h := Header(time, memory, random);
    var made, other := NewSession(suite, p, h).value, NewSession(suite, q, h).value;
    var body := Sealed(made, plain, 0);
    assert (h + body)[..HEADER] == h && (h + body)[HEADER..] == body;
    ForeignStream(made, other, plain);
  }

  lemma ForeignStream(made: Session, other: Session, plain: Bytes)
    requires |made.base| == NONCE && |other.base| == NONCE && Correct(made.aead) && Foreign(other.aead, made.aead)
    ensures Opened(other, Sealed(made, plain, 0), AtEof, 0) == Delivery([], WrongPassphrase)
  {
    var body := Sealed(made, plain, 0);
    if |plain| <= CHUNK {
      assert |body| == |plain| + TAG;
    } else {
      var first := SealChunk(made, plain[..CHUNK], 0, false);
      SealedLength(made, plain[CHUNK..], 1);
      assert |first| == CHUNK + TAG && body[..CHUNK + TAG] == first;
    }
  }

  /** Which error a file that cannot be read gives; the magic is looked for before, by `IsEncrypted`. */
  lemma ReaderErrors(suite: Suite, passphrase: Bytes, file: Bytes)
    ensures var r := NewReader(suite, passphrase, file);
            && (r == Err(PassphraseRequired) <==> passphrase == [])
            && (r == Err(NewerArchive) <==> passphrase != [] && |file| >= 45 && file[7] != 1)
            && (r == Err(InvalidArchive) <==>
                  passphrase != []
                  && (|file| < 45
                      || (file[7] == 1
                          && !(1 <= Decode(file[8..12]) <= 10
                               && 1 <= Decode(file[12..16]) <= 0x10_0000 && file[16] != 0))))
  {
    if |file| >= HEADER {
      assert file[..HEADER][8..12] == file[8..12] && file[..HEADER][12..16] == file[12..16];
    }
  }
}
