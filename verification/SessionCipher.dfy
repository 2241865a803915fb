/** encryptDecrypt.py: one ordered, authenticated direction of a session. */
module SessionCipher {
  import opened Bytes
  import opened Results

  // An authenticated cipher with associated data (RFC 5116, section 2):
  // key, nonce, text, associated data.
  datatype Aead = Aead(
    seal: (Bytes, Bytes, Bytes, Bytes) -> Bytes,
    open: (Bytes, Bytes, Bytes, Bytes) -> Option<Bytes>)
  {
    // Sixteen bytes of tag, and a text opens exactly when it is the sealing
    // of what it opens to.
    ghost predicate Law(k: Bytes, n: Bytes, p: Bytes, c: Bytes, a: Bytes) {
      && |seal(k, n, p, a)| == |p| + TAG_SIZE
      && (open(k, n, c, a) == Some(p) <==> c == seal(k, n, p, a))
    }

    ghost predicate Lawful() {
      forall k, n, p, c, a :: Law(k, n, p, c, a)
    }
  }

  const TAG_SIZE: nat := 16
  const NONCE_PREFIX: Bytes := [86, 80, 78, 49] // VPN1
  const AAD_LABEL: Bytes := [118, 112, 110, 45, 114, 101, 99, 111, 114, 100, 45, 118, 49] // vpn-record-v1

  lemma SomeAeadIsLawful() returns (aead: Aead)
    ensures aead.Lawful()
  {
    var tag: Bytes := seq(TAG_SIZE, _ => 0);
    aead := Aead(
      (k: Bytes, n: Bytes, p: Bytes, a: Bytes) => p + tag,
      (k: Bytes, n: Bytes, c: Bytes, a: Bytes) =>
        if |c| >= TAG_SIZE && c[|c| - TAG_SIZE..] == tag then Some(c[..|c| - TAG_SIZE]) else None);
    forall k, n, p, c, a ensures aead.Law(k, n, p, c, a) {
      if c == p + tag {
        assert c[|c| - TAG_SIZE..] == tag && c[..|c| - TAG_SIZE] == p;
      }
      if aead.open(k, n, c, a) == Some(p) {
        assert c == c[..|c| - TAG_SIZE] + c[|c| - TAG_SIZE..];
      }
    }
  }

  function Nonce(sequence: nat): Bytes {
    NONCE_PREFIX + BigEndian(sequence, 8)
  }

  function Aad(sequence: nat): Bytes {
    AAD_LABEL + BigEndian(sequence, 8)
  }

  // Every nonce of a direction is used for one sequence number only.
  lemma NoncesDistinct(i: nat, j: nat)
    requires i < TWO_64 && j < TWO_64
    requires Nonce(i) == Nonce(j)
    ensures i == j
  {
    PowerValues();
    assert Nonce(i)[4..] == BigEndian(i, 8) && Nonce(j)[4..] == BigEndian(j, 8);
    BigEndianInjective(i, j, 8);
  }

  datatype RecordError = TooShort | UnexpectedSequence | BadTag | CounterExhausted

  function Record(aead: Aead, key: Bytes, sequence: nat, plaintext: Bytes): Bytes {
    BigEndian(sequence, 8) + aead.seal(key, Nonce(sequence), plaintext, Aad(sequence))
  }

  function OpenRecord(aead: Aead, key: Bytes, expected: nat, record: Bytes): Result<Bytes, RecordError> {
    if |record| < 8 + TAG_SIZE then Failure(TooShort)
    else if FromBigEndian(record[..8]) != expected then Failure(UnexpectedSequence)
    else match aead.open(key, Nonce(expected), record[8..], Aad(expected))
      case None => Failure(BadTag)
      case Some(plaintext) => Success(plaintext)
  }

  lemma OpenOfRecord(aead: Aead, key: Bytes, expected: nat, sequence: nat, plaintext: Bytes)
    requires aead.Lawful() && sequence < TWO_64
    ensures OpenRecord(aead, key, expected, Record(aead, key, sequence, plaintext))
         == if expected == sequence then Success(plaintext) else Failure(UnexpectedSequence)
  {
    PowerValues();
    var sealed := aead.seal(key, Nonce(sequence), plaintext, Aad(sequence));
    var record := Record(aead, key, sequence, plaintext);
    assert aead.Law(key, Nonce(sequence), plaintext, sealed, Aad(sequence));
    assert record[..8] == BigEndian(sequence, 8) && record[8..] == sealed;
    BigEndianRoundTrip(sequence, 8);
  }

  // A record on the wire: its number in eight bytes, then the text sealed
  // under the nonce "VPN1" and that number, with "vpn-record-v1" and that
  // number as associated data.
  lemma RecordLayout(aead: Aead, key: Bytes, sequence: nat, plaintext: Bytes)
    requires aead.Lawful() && sequence < TWO_64
    ensures var record := Record(aead, key, sequence, plaintext);
            && |record| == |plaintext| + 24 && FromBigEndian(record[..8]) == sequence
            && aead.open(key, [86, 80, 78, 49] + record[..8], record[8..],
                         [118, 112, 110, 45, 114, 101, 99, 111, 114, 100, 45, 118, 49] + record[..8]) == Some(plaintext)
  {
    PowerValues();
    BigEndianRoundTrip(sequence, 8);
    var record := Record(aead, key, sequence, plaintext);
    var sealed := aead.seal(key, Nonce(sequence), plaintext, Aad(sequence));
    assert aead.Law(key, Nonce(sequence), plaintext, sealed, Aad(sequence));
    assert record[..8] == BigEndian(sequence, 8) && record[8..] == sealed;
  }

  // A record that opens is the record of what it opens to, so it is exactly
  // 24 bytes longer than its plaintext.
  lemma RecordOfOpen(aead: Aead, key: Bytes, expected: nat, record: Bytes)
    requires aead.Lawful() && OpenRecord(aead, key, expected, record).Success?
    ensures var plaintext := OpenRecord(aead, key, expected, record).value;
            && record == Record(aead, key, expected, plaintext)
            && |record| == |plaintext| + 24
  {
    var plaintext := OpenRecord(aead, key, expected, record).value;
    assert aead.Law(key, Nonce(expected), plaintext, record[8..], Aad(expected));
    BytesOfNumber(record[..8]);
    assert record == record[..8] + record[8..];
  }

  class SessionCipher {
    const aead: Aead
    const key: Bytes
    var sendSequence: nat
    var receiveSequence: nat

    constructor (aead: Aead, key: Bytes)
      requires |key| == 32
      ensures this.aead == aead && this.key == key
      ensures sendSequence == 0 && receiveSequence == 0
    {
      this.aead, this.key := aead, key;
      sendSequence, receiveSequence := 0, 0;
    }

    // The counter moves before the number is packed, so a number too large
    // for eight bytes is used up as well.
    method Encrypt(plaintext: Bytes) returns (r: Result<Bytes, RecordError>)
      modifies this`sendSequence
      ensures sendSequence == old(sendSequence) + 1
      ensures r == if old(sendSequence) < TWO_64
                   then Success(Record(aead, key, old(sendSequence), plaintext))
                   else Failure(CounterExhausted)
    {
      var sequence := sendSequence;
      sendSequence := sendSequence + 1;
      if sequence >= TWO_64 {
        return Failure(CounterExhausted);
      }
      var encrypted := aead.seal(key, Nonce(sequence), plaintext, Aad(sequence));
      return Success(BigEndian(sequence, 8) + encrypted);
    }

    method Decrypt(encrypted: Bytes) returns (r: Result<Bytes, RecordError>)
      modifies this`receiveSequence
      ensures r == OpenRecord(aead, key, old(receiveSequence), encrypted)
      ensures receiveSequence == old(receiveSequence) + (if r.Success? then 1 else 0)
    {
      if |encrypted| < 8 + TAG_SIZE {
        return Failure(TooShort);
      }
      var sequence := FromBigEndian(encrypted[..8]);
      if sequence != receiveSequence {
        return Failure(UnexpectedSequence);
      }
      var plaintext := aead.open(key, Nonce(sequence), encrypted[8..], Aad(sequence));
      if plaintext.None? {
        return Failure(BadTag);
      }
      receiveSequence := receiveSequence + 1;
      return Success(plaintext.value);
    }
  }

  // ---------------------------------------------------------------------
  // Replay and reordering
  // ---------------------------------------------------------------------

  // Feeding records one by one, a rejected record leaving the counter alone.
  function Accepted(aead: Aead, key: Bytes, from: nat, records: seq<Bytes>): seq<Bytes>
    decreases |records|
  {
    if records == [] then [] else
      match OpenRecord(aead, key, from, records[0])
      case Failure(_) => Accepted(aead, key, from, records[1..])
      case Success(p) => [p] + Accepted(aead, key, from + 1, records[1..])
  }

  // Ideal authenticity: whatever opens under this key, whichever nonce and
  // associated data it is presented with, was sealed by the sender for them.
  ghost predicate Unforged(aead: Aead, key: Bytes, sent: seq<Bytes>, records: seq<Bytes>) {
    forall r, n: nat | r in records && |r| >= 8 :: Authentic(aead, key, sent, r[8..], n)
  }

  ghost predicate Authentic(aead: Aead, key: Bytes, sent: seq<Bytes>, sealed: Bytes, n: nat) {
    aead.open(key, Nonce(n), sealed, Aad(n)).Some? ==>
      exists i :: 0 <= i < |sent| && SealedFor(aead, key, sent[i], i, n, sealed)
  }

  ghost predicate SealedFor(aead: Aead, key: Bytes, plaintext: Bytes, i: nat, n: nat, sealed: Bytes) {
    Nonce(i) == Nonce(n) && Aad(i) == Aad(n) && sealed == aead.seal(key, Nonce(i), plaintext, Aad(i))
  }

  // The number in the nonce is the tag.
  function NumberTag(nonce: Bytes): (tag: Bytes)
    ensures |tag| == TAG_SIZE
  {
    (if |nonce| == 12 then nonce[4..] else [0, 0, 0, 0, 0, 0, 0, 0]) + [0, 0, 0, 0, 0, 0, 0, 0]
  }

  function NumberedAead(): Aead {
    Aead(
      (k: Bytes, n: Bytes, p: Bytes, a: Bytes) => p + NumberTag(n),
      (k: Bytes, n: Bytes, c: Bytes, a: Bytes) =>
        if |c| >= TAG_SIZE && c[|c| - TAG_SIZE..] == NumberTag(n) then Some(c[..|c| - TAG_SIZE]) else None)
  }

  lemma NumberedLaw(k: Bytes, n: Bytes, p: Bytes, c: Bytes, a: Bytes)
    ensures NumberedAead().Law(k, n, p, c, a)
  {
    var tag := NumberTag(n);
    hide NumberTag;
    if c == p + tag {
      assert c[|c| - TAG_SIZE..] == tag && c[..|c| - TAG_SIZE] == p;
    }
    if NumberedAead().open(k, n, c, a) == Some(p) {
      assert c == c[..|c| - TAG_SIZE] + c[|c| - TAG_SIZE..];
    }
  }

  lemma NumberedSeal(key: Bytes, i: nat, n: nat, p: Bytes)
    ensures var sealed := NumberedAead().seal(key, Nonce(i), p, Aad(i));
            NumberedAead().open(key, Nonce(n), sealed, Aad(n)).Some? ==> Nonce(i) == Nonce(n) && Aad(i) == Aad(n)
  {
    hide BigEndian;
    var sealed := p + NumberTag(Nonce(i));
    assert sealed[|sealed| - TAG_SIZE..] == NumberTag(Nonce(i));
    assert NumberTag(Nonce(i))[..8] == BigEndian(i, 8) && NumberTag(Nonce(n))[..8] == BigEndian(n, 8);
  }

  ghost predicate Genuine(aead: Aead, key: Bytes, sent: seq<Bytes>, r: Bytes) {
    exists i: nat :: i < |sent| && r == Record(aead, key, i, sent[i])
  }

  // With some AEAD this is so for whatever the sender really sent, in any order
  // and number.
  lemma GenuineIsUnforged(key: Bytes, sent: seq<Bytes>, records: seq<Bytes>)
    requires |sent| <= TWO_64 && forall r :: r in records ==> Genuine(NumberedAead(), key, sent, r)
    ensures NumberedAead().Lawful() && Unforged(NumberedAead(), key, sent, records)
  {
    var aead := NumberedAead();
    forall k, n, p, c, a ensures aead.Law(k, n, p, c, a) {
      NumberedLaw(k, n, p, c, a);
    }
    forall r, n: nat | r in records && |r| >= 8 ensures Authentic(aead, key, sent, r[8..], n) {
      var i: nat :| i < |sent| && r == Record(aead, key, i, sent[i]);
      NumberedSeal(key, i, n, sent[i]);
      assert r[8..] == aead.seal(key, Nonce(i), sent[i], Aad(i));
      if aead.open(key, Nonce(n), r[8..], Aad(n)).Some? {
        assert SealedFor(aead, key, sent[i], i, n, r[8..]);
      }
    }
  }

  lemma GenuineAtItsNumber(aead: Aead, key: Bytes, sent: seq<Bytes>, from: nat, records: seq<Bytes>, r: Bytes)
    requires aead.Lawful() && |sent| <= TWO_64 && Unforged(aead, key, sent, records)
    requires r in records && OpenRecord(aead, key, from, r).Success?
    ensures from < |sent| && OpenRecord(aead, key, from, r).value == sent[from]
  {
    PowerValues();
    assert Authentic(aead, key, sent, r[8..], from);
    var i: nat :| i < |sent| && SealedFor(aead, key, sent[i], i, from, r[8..]);
    NoncesDistinct(i, from);
    assert aead.Law(key, Nonce(from), sent[from], r[8..], Aad(from));
  }

  // Duplicated, permuted, dropped or altered: what is accepted is always the
  // next part of what was sent.
  lemma {:induction false} AcceptedIsAPrefix(aead: Aead, key: Bytes, sent: seq<Bytes>, from: nat, records: seq<Bytes>)
    requires aead.Lawful() && from <= |sent| <= TWO_64
    requires Unforged(aead, key, sent, records)
    ensures Accepted(aead, key, from, records) <= sent[from..]
    decreases |records|
  {
    if records != [] {
      var tail := records[1..];
      assert Unforged(aead, key, sent, tail) by {
        assert forall r | r in tail :: r in records;
      }
      if OpenRecord(aead, key, from, records[0]).Success? {
        GenuineAtItsNumber(aead, key, sent, from, records, records[0]);
        AcceptedIsAPrefix(aead, key, sent, from + 1, tail);
        assert sent[from..] == [sent[from]] + sent[from + 1..];
      } else {
        AcceptedIsAPrefix(aead, key, sent, from, tail);
      }
    }
  }

  lemma FewerUnforged(aead: Aead, key: Bytes, sent: seq<Bytes>, records: seq<Bytes>)
    requires records != [] && Unforged(aead, key, sent, records)
    ensures Unforged(aead, key, sent, records[1..])
  {
    assert forall r | r in records[1..] :: r in records;
  }

  // The records of what was sent from some number on.
  function RecordsFrom(aead: Aead, key: Bytes, sent: seq<Bytes>, from: nat): seq<Bytes>
    requires from <= |sent|
    decreases |sent| - from
  {
    if from == |sent| then [] else [Record(aead, key, from, sent[from])] + RecordsFrom(aead, key, sent, from + 1)
  }

  // All of these occur among the others, one behind the other.
  predicate Among(wanted: seq<Bytes>, records: seq<Bytes>)
    decreases |records|
  {
    wanted == [] || (records != [] && Among(if wanted[0] == records[0] then wanted[1..] else wanted, records[1..]))
  }

  // And all of it, if the sent records are among those presented, whatever
  // else comes in between.
  lemma {:induction false} InOrderIsAccepted(aead: Aead, key: Bytes, sent: seq<Bytes>, from: nat, records: seq<Bytes>)
    requires aead.Lawful() && from <= |sent| <= TWO_64 && Unforged(aead, key, sent, records)
    requires Among(RecordsFrom(aead, key, sent, from), records)
    ensures Accepted(aead, key, from, records) == sent[from..]
    decreases |records|
  {
    hide Record, OpenRecord, Unforged;
    if from == |sent| {
      AcceptedIsAPrefix(aead, key, sent, from, records);
    } else {
      var first, tail := records[0], records[1..];
      FewerUnforged(aead, key, sent, records);
      var wanted := RecordsFrom(aead, key, sent, from);
      assert wanted[0] == Record(aead, key, from, sent[from]) && wanted[1..] == RecordsFrom(aead, key, sent, from + 1);
      if OpenRecord(aead, key, from, first).Success? {
        GenuineAtItsNumber(aead, key, sent, from, records, first);
        RecordOfOpen(aead, key, from, first);
        InOrderIsAccepted(aead, key, sent, from + 1, tail);
        assert sent[from..] == [sent[from]] + sent[from + 1..];
      } else {
        OpenOfRecord(aead, key, from, from, sent[from]);
        InOrderIsAccepted(aead, key, sent, from, tail);
      }
    }
  }
}
