/** How the three cookie handlers fit together: the pair `api/login.js` sets is the one
    `api/map-data.js` looks for, and the pair `api/logout.js` writes over it is not. */
module Session {
  import opened Wrappers
  import opened Text
  import Login
  import Logout
  import MapData

  /** The pair written at login is the pair the map endpoint accepts, and the pair written
      at logout has the same cookie name with an empty value. */
  lemma PairsAgree()
    ensures Login.SessionPair == MapData.AuthPair
    ensures Logout.ClearedPair + "1" == Login.SessionPair
    ensures Logout.ClearedPair != MapData.AuthPair
  {
  }

  /** Both cookies carry the same attributes (so the clearing cookie replaces the session
      cookie) and differ in the value and in the lifetime. */
  lemma SameCookieAttributes()
    ensures |Login.SessionCookieParts()| == |Logout.ClearingCookieParts()| == 6
    ensures Login.SessionCookieParts()[1..5] == Logout.ClearingCookieParts()[1..5]
    ensures Login.SessionCookieParts()[0] != Logout.ClearingCookieParts()[0]
    ensures Login.SessionCookieParts()[5] != Logout.ClearingCookieParts()[5]
  {
    Login.SessionCookieParsed();
  }

  /** The map endpoint's parser recovers the parts of any `"; "`-joined cookie whose parts
      are trimmed and free of `;`. */
  lemma SegmentsOfJoin(parts: seq<string>)
    requires |parts| >= 1
    requires forall i :: 0 <= i < |parts| ==> ';' !in parts[i] && Trimmed(parts[i])
    ensures MapData.CookieSegments(Join(parts, "; ")) == parts
  {
    assert [] + Join(parts, "; ") == Join(parts, "; ");
    TrimmedPiecesOfJoin([], parts);
  }

  /** The trimmed `;`-pieces of the login cookie are its parts: reading the whole
      `Set-Cookie` value with the map endpoint's parser finds the session pair. */
  lemma SessionCookieSegments()
    ensures MapData.CookieSegments(Login.SessionCookie()) == Login.SessionCookieParts()
    ensures MapData.Authorised(Some(Login.SessionCookie()))
  {
    SessionPartsShape();
    SegmentsOfJoin(Login.SessionCookieParts());
    Login.SessionCookieParsed();
  }

  /** The same for the logout cookie, which never contains the session pair. */
  lemma ClearingCookieSegments()
    ensures MapData.CookieSegments(Logout.ClearingCookie()) == Logout.ClearingCookieParts()
    ensures !MapData.Authorised(Some(Logout.ClearingCookie()))
  {
    ClearingPartsShape();
    SegmentsOfJoin(Logout.ClearingCookieParts());
  }

  /** Every part of the login cookie is trimmed and free of `;`. */
  lemma SessionPartsShape()
    ensures forall i :: 0 <= i < |Login.SessionCookieParts()| ==>
      ';' !in Login.SessionCookieParts()[i] && Trimmed(Login.SessionCookieParts()[i])
  {
    Login.SessionCookieParsed();
    PartShape("equip_map_auth=1");
    PartShape("Path=/");
    PartShape("HttpOnly");
    PartShape("Secure");
    PartShape("SameSite=Lax");
    PartShape("Max-Age=28800");
  }

  /** Every part of the logout cookie is trimmed and free of `;`. */
  lemma ClearingPartsShape()
    ensures forall i :: 0 <= i < |Logout.ClearingCookieParts()| ==>
      ';' !in Logout.ClearingCookieParts()[i] && Trimmed(Logout.ClearingCookieParts()[i])
  {
    PartShape("equip_map_auth=");
    PartShape("Path=/");
    PartShape("HttpOnly");
    PartShape("Secure");
    PartShape("SameSite=Lax");
    PartShape("Max-Age=0");
  }

  /** A cookie attribute made of visible ASCII other than `;` is trimmed and free of `;`. */
  lemma PartShape(p: string)
    requires |p| > 0
    requires forall i :: 0 <= i < |p| ==> '!' <= p[i] <= '~' && p[i] != ';'
    ensures ';' !in p && Trimmed(p)
  {
    assert !IsSpace(p[0]) && !IsSpace(p[|p| - 1]);
  }

  /** A browser holding the session cookie is let in, whatever other cookies it sends. */
  lemma LoggedInBrowserAdmitted(others: string)
    ensures MapData.Authorised(Some(Login.SessionPair))
    ensures MapData.Authorised(Some(others + ";" + Login.SessionPair))
    ensures MapData.Authorised(Some(others + "; " + Login.SessionPair))
  {
    SinglePair(Login.SessionPair);
    MapData.AppendedCookie(others, Login.SessionPair);
    SpacedPair(others, Login.SessionPair);
    MapData.AppendedCookie(others, " " + Login.SessionPair);
  }

  /** A browser holding the cleared cookie is turned away unless another cookie already
      carries the session pair. */
  lemma LoggedOutBrowserRefused(others: string)
    ensures !MapData.Authorised(Some(Logout.ClearedPair))
    ensures MapData.Authorised(Some(others + ";" + Logout.ClearedPair)) <==> MapData.Authorised(Some(others))
    ensures MapData.Authorised(Some(others + "; " + Logout.ClearedPair)) <==> MapData.Authorised(Some(others))
  {
    SinglePair(Logout.ClearedPair);
    MapData.AppendedCookie(others, Logout.ClearedPair);
    SpacedPair(others, Logout.ClearedPair);
    MapData.AppendedCookie(others, " " + Logout.ClearedPair);
  }

  /** The space a browser puts after `;` is dropped again by the trim: the pair after
      "; " is the spaced cookie " " + pair, whose trim is the pair. */
  lemma SpacedPair(others: string, p: string)
    requires |p| > 0
    requires forall i :: 0 <= i < |p| ==> '!' <= p[i] <= '~' && p[i] != ';'
    ensures others + "; " + p == others + ";" + (" " + p)
    ensures ';' !in " " + p
    ensures Trim(" " + p) == p
  {
    PartShape(p);
    TrimOf(" ", p, []);
    assert " " + p + [] == " " + p;
    assert (" " + p)[0] == ' ';
    assert forall i :: 1 <= i < |" " + p| ==> (" " + p)[i] == p[i - 1];
  }

  /** A header made of one trimmed pair without `;` has that pair as its only segment. */
  lemma SinglePair(p: string)
    requires |p| > 0
    requires forall i :: 0 <= i < |p| ==> '!' <= p[i] <= '~' && p[i] != ';'
    ensures MapData.CookieSegments(p) == [p]
    ensures Trim(p) == p
  {
    PartShape(p);
    TrimmedSinglePiece([], p);
    assert [] + p == p;
  }
}
