/** _chain_digest of handshake.py: a label and a list of parts, each preceded
    by its length in two bytes, fed to one hash. */
module ChainDigest {
  import opened Bytes
  import opened Results

  // len(part).to_bytes(2, "big") raises for longer parts.
  const PART_LIMIT: nat := 0x1_0000

  predicate Short(parts: seq<Bytes>) {
    forall i :: 0 <= i < |parts| ==> |parts[i]| < PART_LIMIT
  }

  function PartsInput(parts: seq<Bytes>): Bytes {
    if parts == [] then [] else
      PartsInput(parts[..|parts| - 1]) + PartInput(parts[|parts| - 1])
  }

  function PartInput(part: Bytes): Bytes {
    BigEndian(|part|, 2) + part
  }

  // Reads the parts back.
  function ParseParts(b: Bytes): Option<seq<Bytes>>
    decreases |b|
  {
    if b == [] then Some([])
    else if |b| < 2 then None
    else
      var length := FromBigEndian(b[..2]);
      if |b| < 2 + length then None
      else match ParseParts(b[2 + length..])
        case None => None
        case Some(parts) => Some([b[2..2 + length]] + parts)
  }

  lemma {:induction false} PartsInputFront(part: Bytes, parts: seq<Bytes>)
    ensures PartsInput([part] + parts) == PartInput(part) + PartsInput(parts)
  {
    if parts == [] {
      var one: seq<Bytes> := [part];
      assert one + parts == one && one[..0] == [];
      assert [] + PartInput(part) == PartInput(part) + [];
    } else {
      hide PartInput;
      var front, last := parts[..|parts| - 1], parts[|parts| - 1];
      PartsInputFront(part, front);
      assert ([part] + parts)[..|parts|] == [part] + front;
      Regroup(PartInput(part), PartsInput(front), PartInput(last));
    }
  }

  lemma ParseFirst(part: Bytes, rest: Bytes)
    requires |part| < PART_LIMIT
    ensures ParseParts(PartInput(part) + rest)
         == match ParseParts(rest) case None => None case Some(parts) => Some([part] + parts)
  {
    PowerValues();
    BigEndianRoundTrip(|part|, 2);
    var b := PartInput(part) + rest;
    assert b[..2] == BigEndian(|part|, 2);
    assert b[2..2 + |part|] == part && b[2 + |part|..] == rest;
  }

  lemma {:induction false} ParseInvertsInput(parts: seq<Bytes>)
    requires Short(parts)
    ensures ParseParts(PartsInput(parts)) == Some(parts)
    decreases |parts|
  {
    if parts != [] {
      PartsInputFront(parts[0], parts[1..]);
      assert parts == [parts[0]] + parts[1..];
      ParseInvertsInput(parts[1..]);
      ParseFirst(parts[0], PartsInput(parts[1..]));
    }
  }

  // Different lists never give the hash the same bytes under one label.
  lemma InputInjective(context: Bytes, a: seq<Bytes>, b: seq<Bytes>)
    requires Short(a) && Short(b) && context + PartsInput(a) == context + PartsInput(b)
    ensures a == b
  {
    assert (context + PartsInput(a))[|context|..] == PartsInput(a);
    assert (context + PartsInput(b))[|context|..] == PartsInput(b);
    ParseInvertsInput(a);
    ParseInvertsInput(b);
  }

  function Digest(sha256: Bytes -> Bytes, parts: seq<Bytes>, context: Bytes): Option<Bytes> {
    if Short(parts) then Some(sha256(context + PartsInput(parts))) else None
  }

  method ComputeDigest(sha256: Bytes -> Bytes, parts: seq<Bytes>, context: Bytes) returns (r: Option<Bytes>)
    ensures r == Digest(sha256, parts, context)
  {
    var input := context;
    for i := 0 to |parts|
      invariant Short(parts[..i]) && input == context + PartsInput(parts[..i])
    {
      if |parts[i]| >= PART_LIMIT {
        return None;
      }
      assert parts[..i + 1][..i] == parts[..i];
      Regroup(context, PartsInput(parts[..i]), PartInput(parts[i]));
      input := input + (BigEndian(|parts[i]|, 2) + parts[i]);
    }
    assert parts[..|parts|] == parts;
    return Some(sha256(input));
  }
}
