/**
  The cookie lookup shared by the login and cart pages: split the cookie
  header on ';', trim each piece, take the first piece that starts with
  `name=`, and URI-decode the rest of it. The URI decoder is a parameter:
  it yields `None` where `decodeURIComponent` throws a URIError, and that
  exception escapes the lookup.
 */
module Cookies {
  import opened Wrappers
  import opened JsStrings

  /** How a lookup ends: it returns a string or null, or the decoder throws. */
  datatype Outcome = Returned(value: Option<string>) | ThrewUriError

  /** `cookie.substring(0, name.length + 1) === (name + '=')` */
  predicate StartsWithAssignment(cookie: string, name: string) {
    Substring(cookie, 0, |name| + 1) == name + "="
  }

  /** A piece of the split header is the sought cookie: once trimmed, it starts with `name=`. */
  predicate PieceMatches(piece: string, name: string) {
    StartsWithAssignment(Trim(piece), name)
  }

  /** What a matching piece yields: its decoded remainder after `name=`. */
  function DecodeRemainder(cookie: string, name: string, decode: string -> Option<string>): Outcome {
    match decode(SubstringFrom(cookie, |name| + 1))
    case Some(v) => Returned(Some(v))
    case None => ThrewUriError
  }

  /** The first-match scan over the split pieces. */
  function Lookup(pieces: seq<string>, name: string, decode: string -> Option<string>): Outcome {
    if pieces == [] then Returned(None)
    else if PieceMatches(pieces[0], name) then DecodeRemainder(Trim(pieces[0]), name, decode)
    else Lookup(pieces[1..], name, decode)
  }

  /** `getCookie(name)` with `document.cookie` given as `documentCookie`. */
  function GetCookieSpec(documentCookie: string, name: string, decode: string -> Option<string>): Outcome {
    if documentCookie == "" then Returned(None)
    else Lookup(Split(documentCookie, ';'), name, decode)
  }

  /** A piece matches exactly when it is `name`, then `=`, then anything. */
  lemma StartsWithAssignmentIff(cookie: string, name: string)
    ensures StartsWithAssignment(cookie, name) <==>
            |cookie| > |name| && cookie[..|name|] == name && cookie[|name|] == '='
  {
    if |cookie| > |name| && cookie[..|name|] == name && cookie[|name|] == '=' {
      assert Substring(cookie, 0, |name| + 1) == cookie[..|name| + 1];
      assert cookie[..|name| + 1] == cookie[..|name|] + [cookie[|name|]];
    }
    if StartsWithAssignment(cookie, name) {
      assert |Substring(cookie, 0, |name| + 1)| == |name| + 1;
      assert cookie[..|name|] == (name + "=")[..|name|];
    }
  }

  /**
    A cookie whose name only extends `name` (`csrftokenX=v` for `csrftoken`)
    is not taken for it: the character after `name` must be `=`.
   */
  lemma LongerNameDoesNotMatch(name: string, c: char, rest: string)
    requires c != '='
    ensures !StartsWithAssignment(name + [c] + rest, name)
  {
    StartsWithAssignmentIff(name + [c] + rest, name);
    assert (name + [c] + rest)[|name|] == c;
  }

  /** The first matching piece decides the outcome; later pieces are never looked at. */
  lemma {:induction false} LookupFirstMatch(pieces: seq<string>, name: string, decode: string -> Option<string>, i: nat)
    requires i < |pieces|
    requires PieceMatches(pieces[i], name)
    requires forall j :: 0 <= j < i ==> !PieceMatches(pieces[j], name)
    ensures Lookup(pieces, name, decode) == DecodeRemainder(Trim(pieces[i]), name, decode)
  {
    if i > 0 {
      LookupFirstMatch(pieces[1..], name, decode, i - 1);
    }
  }

  /** With no matching piece the lookup returns null. */
  lemma {:induction false} LookupNoMatch(pieces: seq<string>, name: string, decode: string -> Option<string>)
    requires forall j :: 0 <= j < |pieces| ==> !PieceMatches(pieces[j], name)
    ensures Lookup(pieces, name, decode) == Returned(None)
  {
    if pieces != [] {
      LookupNoMatch(pieces[1..], name, decode);
    }
  }

  /** No match among the first `i` pieces of the tail and none at the head: none among the first `i + 1`. */
  lemma NoMatchBeforeShift(pieces: seq<string>, name: string, i: nat)
    requires i < |pieces|
    requires !PieceMatches(pieces[0], name)
    requires forall j :: 0 <= j < i ==> !PieceMatches(pieces[1..][j], name)
    ensures forall j :: 0 <= j < i + 1 ==> !PieceMatches(pieces[j], name)
  {
    forall j | 1 <= j < i + 1
      ensures !PieceMatches(pieces[j], name)
    {
      assert pieces[j] == pieces[1..][j - 1];
    }
  }

  /** Any non-null outcome comes from a first matching piece. */
  lemma {:induction false} LookupNonNull(pieces: seq<string>, name: string, decode: string -> Option<string>)
    requires Lookup(pieces, name, decode) != Returned(None)
    ensures exists i :: 0 <= i < |pieces| && PieceMatches(pieces[i], name) &&
              (forall j :: 0 <= j < i ==> !PieceMatches(pieces[j], name)) &&
              Lookup(pieces, name, decode) == DecodeRemainder(Trim(pieces[i]), name, decode)
  {
    if !PieceMatches(pieces[0], name) {
      var tail := pieces[1..];
      LookupNonNull(tail, name, decode);
      var i :| 0 <= i < |tail| && PieceMatches(tail[i], name) &&
               (forall j :: 0 <= j < i ==> !PieceMatches(tail[j], name)) &&
               Lookup(tail, name, decode) == DecodeRemainder(Trim(tail[i]), name, decode);
      assert pieces[i + 1] == tail[i];
      NoMatchBeforeShift(pieces, name, i);
    }
  }

  /** A header whose pieces are given: the lookup over the header is the lookup over them. */
  lemma GetCookieOfJoin(pieces: seq<string>, name: string, decode: string -> Option<string>)
    requires |pieces| >= 1
    requires forall k :: 0 <= k < |pieces| ==> ';' !in pieces[k]
    requires Join(pieces, ';') != ""
    ensures GetCookieSpec(Join(pieces, ';'), name, decode) == Lookup(pieces, name, decode)
  {
    SplitJoin(pieces, ';');
  }

  /** A string with no whitespace at either end trims to itself. */
  lemma TrimUnpadded(s: string)
    requires |s| > 0 && !IsJsWhitespace(s[0]) && !IsJsWhitespace(s[|s| - 1])
    ensures Trim(s) == s
  {
  }

  /** One leading space is trimmed away. */
  lemma TrimLeadingSpace(s: string)
    requires |s| > 0 && !IsJsWhitespace(s[0]) && !IsJsWhitespace(s[|s| - 1])
    ensures Trim([' '] + s) == s
  {
    TrimPadded([' '], s, []);
    assert [' '] + s + [] == [' '] + s;
    TrimUnpadded(s);
  }

  /** `other; piece` is `other` and ` piece` joined by the separator. */
  lemma JoinWithSpace(other: string, piece: string)
    requires ';' !in other && ';' !in piece
    ensures Join([other, [' '] + piece], ';') == other + "; " + piece
    ensures forall k :: 0 <= k < 2 ==> ';' !in [other, [' '] + piece][k]
  {
    var pieces := [other, [' '] + piece];
    assert pieces[1..] == [[' '] + piece];
    assert "; " == [';'] + [' '];
  }

  /** `name=value` starts with the first character of `name` and ends with `=` or the last of `value`. */
  lemma AssignmentEdges(name: string, value: string)
    requires |name| > 0 && !IsJsWhitespace(name[0])
    requires value == [] || !IsJsWhitespace(value[|value| - 1])
    ensures var piece := name + "=" + value;
            |piece| > 0 && !IsJsWhitespace(piece[0]) && !IsJsWhitespace(piece[|piece| - 1]) &&
            (';' !in piece <==> ';' !in name && ';' !in value) &&
            StartsWithAssignment(piece, name)
  {
    var piece := name + "=" + value;
    assert piece[0] == name[0];
    assert piece[|piece| - 1] == if value == [] then '=' else value[|value| - 1];
    StartsWithAssignmentIff(piece, name);
    assert piece[..|name|] == name;
  }

  /**
    A space after the `;` does not hide a cookie (`a=1; csrftoken=v` yields
    the decoding of `v` for `csrftoken`): the piece is trimmed before it is
    compared.
   */
  lemma SpaceAfterSeparator(other: string, name: string, value: string, decode: string -> Option<string>)
    requires ';' !in other && ';' !in name && ';' !in value
    requires !PieceMatches(other, name)
    requires |name| > 0 && !IsJsWhitespace(name[0])
    requires value == [] || !IsJsWhitespace(value[|value| - 1])
    ensures GetCookieSpec(other + "; " + (name + "=" + value), name, decode) ==
            DecodeRemainder(name + "=" + value, name, decode)
  {
    var piece := name + "=" + value;
    AssignmentEdges(name, value);
    JoinWithSpace(other, piece);
    var pieces := [other, [' '] + piece];
    GetCookieOfJoin(pieces, name, decode);
    TrimLeadingSpace(piece);
    assert PieceMatches(pieces[1], name);
    assert !PieceMatches(pieces[0], name);
    LookupFirstMatch(pieces, name, decode, 1);
  }
}
