/** _make_cookie and _cookie_tag of chat_service.py. */
module SessionCookie {
  import opened Bytes
  import opened Results
  import opened Base64
  import opened Texts

  const LIFETIME: nat := 86400
  const DOT: Byte := 46

  // ---------------------------------------------------------------------
  // The cookie
  // ---------------------------------------------------------------------

  // The keyed hash of the server, and which byte strings are UTF-8 text.
  datatype Service = Service(mac: string -> Bytes, isText: Bytes -> bool) {

    // A tag is given by its UTF-8 bytes.
    function Payload(tag: Bytes, expiry: nat): Bytes {
      tag + [DOT] + Decimal(expiry)
    }

    function Expiry(now: real): nat
      requires now >= 0.0
    {
      now.Floor + LIFETIME
    }

    function MakeCookie(tag: Bytes, now: real): string
      requires now >= 0.0
    {
      var encoded := Encode(Payload(tag, Expiry(now)));
      encoded + "." + Encode(mac(encoded))
    }

    function CookieTag(cookie: string, now: real): Verdict {
      match SplitLast(cookie, '.')
      case None => NoTag
      case Some((encoded, supplied)) =>
        var signature, raw := Decode(supplied), Decode(encoded);
        if signature.None? || raw.None? || !isText(raw.value) then NoTag
        else match SplitLast(raw.value, DOT)
          case None => NoTag
          case Some((tag, expiry)) =>
            if signature.value != mac(encoded) then NoTag
            else match ParseDecimal(expiry)
              case None => Raised
              case Some(end) => if end as real < now then NoTag else Tag(tag)
    }

    // A cookie names its tag for a day, up to the second it encodes, and
    // nothing after.
    lemma CookieRoundTrip(tag: Bytes, issued: real, now: real)
      requires issued >= 0.0 && isText(Payload(tag, Expiry(issued)))
      ensures var encoded := Encode(tag + [46] + Decimal(issued.Floor + 86_400));
              SplitLast(MakeCookie(tag, issued), '.') == Some((encoded, Encode(mac(encoded))))
      ensures CookieTag(MakeCookie(tag, issued), now)
           == if now <= (issued.Floor + 86_400) as real then Tag(tag) else NoTag
    {
      hide Encode, Decode, Decimal, ParseDecimal, SplitLast;
      var payload := Payload(tag, Expiry(issued));
      var encoded := Encode(payload);
      var signature := Encode(mac(encoded));
      EncodeHasNoDot(mac(encoded));
      SplitIsUnique(encoded, '.', signature);
      DecodeInvertsEncode(payload);
      DecodeInvertsEncode(mac(encoded));
      SplitIsUnique(tag, DOT, Decimal(Expiry(issued)));
      ParseInvertsDecimal(Expiry(issued));
    }

    // The text of a cookie whose signature is that of its payload, a text that
    // ends in a dot and these bytes.
    ghost predicate Authentic(cookie: string, tag: Bytes, expiry: Bytes) {
      exists encoded, supplied ::
        && cookie == encoded + "." + supplied && '.' !in supplied
        && Decode(supplied) == Some(mac(encoded))
        && Decode(encoded) == Some(tag + [46] + expiry) && 46 !in expiry && isText(tag + [46] + expiry)
    }

    // A cookie is accepted exactly if it is authentic and its expiry is a number
    // not yet past, and raises exactly if it is authentic and the expiry no number.
    lemma AcceptedExactly(cookie: string, now: real)
      ensures forall tag ::
                CookieTag(cookie, now) == Tag(tag) <==>
                  exists expiry :: Authentic(cookie, tag, expiry) && ParseDecimal(expiry).Some? && now <= ParseDecimal(expiry).value as real
      ensures CookieTag(cookie, now) == Raised <==> exists tag, expiry :: Authentic(cookie, tag, expiry) && ParseDecimal(expiry).None?
    {
      hide Decode, ParseDecimal, SplitLast;
      var (encoded, supplied) := if SplitLast(cookie, '.').Some? then SplitLast(cookie, '.').value else ("", "");
      forall tag, expiry ensures Authentic(cookie, tag, expiry) <==>
          SplitLast(cookie, '.').Some? && Decode(supplied) == Some(mac(encoded))
          && Decode(encoded).Some? && isText(Decode(encoded).value) && SplitLast(Decode(encoded).value, 46) == Some((tag, expiry))
      {
        AuthenticBySplits(cookie, tag, expiry);
      }
      if SplitLast(cookie, '.').Some? && Decode(encoded).Some? && SplitLast(Decode(encoded).value, 46).Some? {
        var (tag, expiry) := SplitLast(Decode(encoded).value, 46).value;
        assert CookieTag(cookie, now).Tag? ==> Authentic(cookie, tag, expiry);
        assert CookieTag(cookie, now).Raised? ==> Authentic(cookie, tag, expiry);
      }
    }

    lemma AuthenticBySplits(cookie: string, tag: Bytes, expiry: Bytes)
      ensures Authentic(cookie, tag, expiry) <==>
                && SplitLast(cookie, '.').Some?
                && var (encoded, supplied) := SplitLast(cookie, '.').value;
                   Decode(supplied) == Some(mac(encoded))
                   && Decode(encoded).Some? && isText(Decode(encoded).value) && SplitLast(Decode(encoded).value, 46) == Some((tag, expiry))
    {
      hide Decode, SplitLast;
      if Authentic(cookie, tag, expiry) {
        var encoded, supplied :|
          && cookie == encoded + "." + supplied && '.' !in supplied
          && Decode(supplied) == Some(mac(encoded))
          && Decode(encoded) == Some(tag + [46] + expiry) && 46 !in expiry && isText(tag + [46] + expiry);
        SplitIsUnique(encoded, '.', supplied);
        SplitIsUnique(tag, 46, expiry);
      }
      if SplitLast(cookie, '.').Some? {
        var (encoded, supplied) := SplitLast(cookie, '.').value;
        assert cookie == encoded + "." + supplied;
      }
    }

    // Whatever text of the signature is presented, an accepted cookie carries
    // the hash of its own payload; over a payload this service made for a tag it
    // stands for that tag, and only until that payload's expiry.
    lemma AcceptedPayloads(cookie: string, now: real, tag: Bytes, expiry: nat)
      requires CookieTag(cookie, now).Tag?
      ensures var (encoded, supplied) := SplitLast(cookie, '.').value;
              && Decode(supplied) == Some(mac(encoded))
              && (encoded == Encode(Payload(tag, expiry)) ==> CookieTag(cookie, now) == Tag(tag) && now <= expiry as real)
    {
      hide Encode, Decode, Decimal, ParseDecimal, SplitLast;
      DecodeInvertsEncode(Payload(tag, expiry));
      SplitIsUnique(tag, DOT, Decimal(expiry));
      ParseInvertsDecimal(expiry);
    }
  }

  // No tag, the tag, or an exception from int() on an authentic payload.
  datatype Verdict = NoTag | Tag(tag: Bytes) | Raised
}
