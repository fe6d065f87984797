/** Session revocation (`api/logout.js`): whatever the request, overwrite the session
    cookie with an empty, immediately-expiring one. */
module Logout {
  import opened Wrappers
  import opened Text
  import opened Http

  /** The name/value pair that replaces the session pair. */
  const ClearedPair: string := "equip_map_auth="

  function ClearingCookieParts(): seq<string> {
    [ClearedPair, "Path=/", "HttpOnly", "Secure", "SameSite=Lax", "Max-Age=0"]
  }

  function ClearingCookie(): string {
    Join(ClearingCookieParts(), "; ")
  }

  /** The handler. It reads nothing from the request: the request method `verb` is a
      parameter only so that the absence of a method check can be stated. */
  function Handle(verb: string): (r: Response<()>)
    ensures r.status == 200 && r.body == Success(())
    ensures r.setCookie == Some(ClearingCookie())
  {
    Response(200, Some(ClearingCookie()), Success(()))
  }

  /** Every request gets the same answer, so repeating a logout changes nothing. */
  lemma SameForEveryRequest(verb1: string, verb2: string)
    ensures Handle(verb1) == Handle(verb2)
  {
  }

  /** The clearing cookie, character for character. */
  lemma ClearingCookieExact()
    ensures ClearingCookie() == "equip_map_auth=; Path=/; HttpOnly; Secure; SameSite=Lax; Max-Age=0"
  {
    JoinSix(ClearedPair, "Path=/", "HttpOnly", "Secure", "SameSite=Lax", "Max-Age=0", "; ");
    ClearingLiteral();
  }

  lemma ClearingLiteral()
    ensures ClearedPair + "; " + "Path=/" + "; " + "HttpOnly" + "; " + "Secure" + "; " + "SameSite=Lax" + "; " + "Max-Age=0"
         == "equip_map_auth=; Path=/; HttpOnly; Secure; SameSite=Lax; Max-Age=0"
  {
    assert ClearedPair + "; " + "Path=/" == "equip_map_auth=; Path=/";
    assert "equip_map_auth=; Path=/" + "; " + "HttpOnly" == "equip_map_auth=; Path=/; HttpOnly";
    assert "equip_map_auth=; Path=/; HttpOnly" + "; " + "Secure" == "equip_map_auth=; Path=/; HttpOnly; Secure";
    assert "equip_map_auth=; Path=/; HttpOnly; Secure" + "; " + "SameSite=Lax"
        == "equip_map_auth=; Path=/; HttpOnly; Secure; SameSite=Lax";
    assert "equip_map_auth=; Path=/; HttpOnly; Secure; SameSite=Lax" + "; " + "Max-Age=0"
        == "equip_map_auth=; Path=/; HttpOnly; Secure; SameSite=Lax; Max-Age=0";
  }
}
