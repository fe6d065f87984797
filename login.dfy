/** The passcode gate (`api/login.js`): a POST carrying a four-digit passcode that
    matches the configured `MAP_PASSCODE` earns an eight-hour session cookie. */
module Login {
  import opened Wrappers
  import opened Text
  import opened Http

  /** Eight hours, in seconds. */
  const SessionMaxAge: nat := 60 * 60 * 8

  /** The name/value pair the map endpoint looks for. */
  const SessionPair: string := "equip_map_auth=1"

  /** The pieces joined with "; " into the `Set-Cookie` value. */
  function SessionCookieParts(): seq<string> {
    [SessionPair, "Path=/", "HttpOnly", "Secure", "SameSite=Lax", "Max-Age=" + NatToString(SessionMaxAge)]
  }

  function SessionCookie(): string {
    Join(SessionCookieParts(), "; ")
  }

  /** The whole string is exactly four ASCII digits, nothing before or after. */
  predicate IsFourDigits(s: string)
    ensures IsFourDigits(s) ==> |s| == 4 && Trimmed(s)
  {
    |s| == 4 && forall i :: 0 <= i < 4 ==> '0' <= s[i] <= '9'
  }

  /** The supplied passcode as the handler compares it: absent becomes "", then trimmed. */
  function Supplied(passcode: Option<string>): string {
    Trim(passcode.GetOr(""))
  }

  /** The configured passcode as the handler compares it: unset becomes "", then trimmed. */
  function Expected(configured: Option<string>): string {
    Trim(configured.GetOr(""))
  }

  /** The handler. `verb` is the request method, `passcode` the body's passcode field
      (None when the body or the field is missing), and `configured` the
      `MAP_PASSCODE` environment variable. */
  function Handle(verb: string, passcode: Option<string>, configured: Option<string>): (r: Response<()>)
    ensures r.status in {200, 400, 401, 405, 500}
    ensures r.status == 200 <==>
      verb == "POST" && IsFourDigits(Supplied(passcode)) && Supplied(passcode) == Expected(configured)
    ensures r.setCookie.Some? <==> r.status == 200
    ensures r.status == 200 ==> r.setCookie == Some(SessionCookie()) && r.body == Success(())
    ensures r.status != 200 ==> r.body.Failure?
  {
    if verb != "POST" then Fail(405, "Method not allowed")
    else
      var supplied := Supplied(passcode);
      var expected := Expected(configured);
      if expected == "" then Fail(500, "MAP_PASSCODE not configured")
      else if !IsFourDigits(supplied) then Fail(400, "Passcode must be 4 digits")
      else if supplied != expected then Fail(401, "Invalid passcode")
      else Response(200, Some(SessionCookie()), Success(()))
  }

  /** Any method other than POST is refused before the passcode or configuration is looked at. */
  lemma MethodCheckedFirst(verb: string, passcode: Option<string>, configured: Option<string>)
    requires verb != "POST"
    ensures Handle(verb, passcode, configured) == Fail(405, "Method not allowed")
  {
  }

  /** A missing or blank `MAP_PASSCODE` is a configuration error, whatever was supplied. */
  lemma UnconfiguredFails(passcode: Option<string>, configured: Option<string>)
    requires Expected(configured) == ""
    ensures Handle("POST", passcode, configured) == Fail(500, "MAP_PASSCODE not configured")
  {
  }

  /** A configured gate rejects a passcode that is not four digits with 400. */
  lemma MalformedRejected(passcode: Option<string>, configured: Option<string>)
    requires Expected(configured) != ""
    requires !IsFourDigits(Supplied(passcode))
    ensures Handle("POST", passcode, configured) == Fail(400, "Passcode must be 4 digits")
  {
  }

  /** A well-formed but wrong passcode gets 401 and no cookie. */
  lemma MismatchRejected(passcode: Option<string>, configured: Option<string>)
    requires Expected(configured) != ""
    requires IsFourDigits(Supplied(passcode)) && Supplied(passcode) != Expected(configured)
    ensures Handle("POST", passcode, configured) == Fail(401, "Invalid passcode")
    ensures Handle("POST", passcode, configured).setCookie.None?
  {
  }

  /** When the configured value is not itself four digits, no request succeeds. */
  lemma NoSuccessWithMalformedExpected(verb: string, passcode: Option<string>, configured: Option<string>)
    requires !IsFourDigits(Expected(configured))
    ensures Handle(verb, passcode, configured).status != 200
  {
  }

  /** Whitespace around the supplied passcode does not change the outcome. */
  lemma SurroundingSpaceIrrelevant(verb: string, lead: string, passcode: string, trail: string, configured: Option<string>)
    requires AllSpace(lead) && AllSpace(trail)
    ensures Handle(verb, Some(lead + passcode + trail), configured) == Handle(verb, Some(passcode), configured)
  {
    TrimIgnoresSurroundingSpace(lead, passcode, trail);
    assert Supplied(Some(lead + passcode + trail)) == Supplied(Some(passcode));
  }

  lemma MaxAgeRendering()
    ensures NatToString(SessionMaxAge) == "28800"
  {
    assert NatToString(2) == "2";
    assert NatToString(28) == "28";
    assert NatToString(288) == "288";
    assert NatToString(2880) == "2880";
  }

  /** The cookie set on success, character for character. */
  lemma SessionCookieExact()
    ensures SessionCookie() == "equip_map_auth=1; Path=/; HttpOnly; Secure; SameSite=Lax; Max-Age=28800"
  {
    SessionCookieParsed();
    JoinSix(SessionPair, "Path=/", "HttpOnly", "Secure", "SameSite=Lax", "Max-Age=28800", "; ");
    SessionLiteral();
  }

  lemma SessionLiteral()
    ensures SessionPair + "; " + "Path=/" + "; " + "HttpOnly" + "; " + "Secure" + "; " + "SameSite=Lax" + "; " + "Max-Age=28800"
         == "equip_map_auth=1; Path=/; HttpOnly; Secure; SameSite=Lax; Max-Age=28800"
  {
    assert SessionPair + "; " + "Path=/" == "equip_map_auth=1; Path=/";
    assert "equip_map_auth=1; Path=/" + "; " + "HttpOnly" == "equip_map_auth=1; Path=/; HttpOnly";
    assert "equip_map_auth=1; Path=/; HttpOnly" + "; " + "Secure" == "equip_map_auth=1; Path=/; HttpOnly; Secure";
    assert "equip_map_auth=1; Path=/; HttpOnly; Secure" + "; " + "SameSite=Lax"
        == "equip_map_auth=1; Path=/; HttpOnly; Secure; SameSite=Lax";
    assert "equip_map_auth=1; Path=/; HttpOnly; Secure; SameSite=Lax" + "; " + "Max-Age=28800"
        == "equip_map_auth=1; Path=/; HttpOnly; Secure; SameSite=Lax; Max-Age=28800";
  }

  lemma SessionCookieParsed()
    ensures SessionCookieParts() == ["equip_map_auth=1", "Path=/", "HttpOnly", "Secure", "SameSite=Lax", "Max-Age=28800"]
  {
    MaxAgeRendering();
    assert "Max-Age=" + NatToString(SessionMaxAge) == "Max-Age=" + "28800" == "Max-Age=28800";
  }
}
