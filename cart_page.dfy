/**
  The `getCookie` helper of the cart page script: it reads the CSRF token
  from `document.cookie`, which is passed in, as is `decodeURIComponent`.
 */
module CartPage {
  import opened Wrappers
  import opened JsStrings
  import opened Cookies

  /**
    Scans the `;`-separated pieces in order, stops at the first one that,
    trimmed, starts with `name=`, and decodes the rest of that piece; a
    decoder failure escapes as the URIError.
   */
  method GetCookie(documentCookie: string, name: string, decode: string -> Option<string>) returns (r: Outcome)
    ensures r == GetCookieSpec(documentCookie, name, decode)
    ensures documentCookie == "" ==> r == Returned(None)
  {
    var cookieValue: Option<string> := None;
    if documentCookie != "" {
      var cookies := Split(documentCookie, ';');
      var i := 0;
      while i < |cookies|
        invariant 0 <= i <= |cookies|
        invariant cookieValue == None
        invariant Lookup(cookies, name, decode) == Lookup(cookies[i..], name, decode)
      {
        var cookie := Trim(cookies[i]);
        assert cookies[i..][0] == cookies[i];
        if Substring(cookie, 0, |name| + 1) == name + "=" {
          assert PieceMatches(cookies[i], name);
          assert Lookup(cookies[i..], name, decode) == DecodeRemainder(cookie, name, decode);
          var decoded := decode(SubstringFrom(cookie, |name| + 1));
          if decoded.None? {
            return ThrewUriError;
          }
          assert DecodeRemainder(cookie, name, decode) == Returned(decoded);
          cookieValue := decoded;
          break;
        }
        assert !PieceMatches(cookies[i], name);
        assert cookies[i..][1..] == cookies[i + 1..];
        i := i + 1;
      }
      if cookieValue.None? {
        assert cookies[i..] == [];
      }
    }
    return Returned(cookieValue);
  }
}
