/** Numbers as ASCII digits, and texts split at their last separator. */
module Texts {
  import opened Bytes
  import opened Results

  function Decimal(n: nat): (b: Bytes)
    ensures b != [] && forall i :: 0 <= i < |b| ==> 48 <= b[i] < 58
  {
    if n < 10 then [48 + n] else Decimal(n / 10) + [48 + n % 10]
  }

  // int(text) for texts of plain digits.
  function ParseDecimal(b: Bytes): Option<nat> {
    if b == [] then None
    else if !(48 <= b[|b| - 1] < 58) then None
    else if |b| == 1 then Some(b[0] - 48)
    else match ParseDecimal(b[..|b| - 1])
      case None => None
      case Some(high) => Some(high * 10 + b[|b| - 1] - 48)
  }

  lemma {:induction false} ParseInvertsDecimal(n: nat)
    ensures ParseDecimal(Decimal(n)) == Some(n)
  {
    if n >= 10 {
      ParseInvertsDecimal(n / 10);
      var b := Decimal(n);
      assert b[..|b| - 1] == Decimal(n / 10);
    }
  }

  // Nothing but digits, and at least one, is a number.
  lemma {:induction false} ParsesDigitsOnly(b: Bytes)
    ensures ParseDecimal(b).Some? <==> b != [] && forall i :: 0 <= i < |b| ==> 48 <= b[i] <= 57
  {
    if |b| > 1 {
      var front := b[..|b| - 1];
      ParsesDigitsOnly(front);
      assert b == front + [b[|b| - 1]];
    }
  }

  // rsplit(dot, 1)
  function SplitLast<T(==)>(s: seq<T>, dot: T): (r: Option<(seq<T>, seq<T>)>)
    ensures r.None? <==> dot !in s
    ensures r.Some? ==> s == r.value.0 + [dot] + r.value.1 && dot !in r.value.1
  {
    if s == [] then None
    else
      var front, last := s[..|s| - 1], s[|s| - 1];
      assert s == front + [last];
      if last == dot then Some((front, []))
      else match SplitLast(front, dot)
        case None => None
        case Some((before, after)) =>
          assert front == before + [dot] + after;
          Some((before, after + [last]))
  }

  lemma {:induction false} SplitIsUnique<T>(before: seq<T>, dot: T, after: seq<T>)
    requires dot !in after
    ensures SplitLast(before + [dot] + after, dot) == Some((before, after))
  {
    var s := before + [dot] + after;
    if after == [] {
      assert s[..|s| - 1] == before;
    } else {
      var front := after[..|after| - 1];
      assert dot !in front;
      SplitIsUnique(before, dot, front);
      assert s[..|s| - 1] == before + [dot] + front;
      assert front + [after[|after| - 1]] == after;
    }
  }
}
