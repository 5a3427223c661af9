/** The session cookie configuration, parsed the same way by all three routes:
    split on ';', trim each piece, then split it on '='; the first part is the
    name and the other parts, joined again with '=', are the value. */
module Cookies {
  import opened Base
  import opened Strings

  datatype Cookie = Cookie(name: string, value: string, domain: string)

  const CookieDomain: string := ".streetfighter.com"

  /** One `;`-separated piece of the configuration as a cookie. */
  function ParseCookie(segment: string): Cookie {
    var parts := Split(Trim(segment), '=');
    Cookie(parts[0], Join(parts[1..], '='), CookieDomain)
  }

  /** `cookieString.split(';').map(...)`. */
  function ParseCookies(config: string): (r: seq<Cookie>)
    ensures |r| == |Split(config, ';')|
    ensures forall i :: 0 <= i < |r| ==> r[i] == ParseCookie(Split(config, ';')[i])
  {
    var segments := Split(config, ';');
    seq(|segments|, i requires 0 <= i < |segments| => ParseCookie(segments[i]))
  }

  /** The cookies of the SF6_COOKIE setting; None when it is unset or empty, which
      every route answers with status 500. */
  function CookieJar(env: Option<string>): (r: Option<seq<Cookie>>)
    ensures r.Some? <==> Given(env)
  {
    if Given(env) then Some(ParseCookies(env.value)) else None
  }

  /** The name is the text before the first '='; name, '=' and value give back the
      trimmed piece; a piece without '=' is all name with an empty value; the
      domain is always the site's. */
  lemma ParseCookieSpec(segment: string)
    ensures var c, t := ParseCookie(segment), Trim(segment);
      && c.domain == CookieDomain
      && '=' !in c.name
      && ('=' in t ==> c.name == t[..IndexOf(t, '=')] && c.name + "=" + c.value == t)
      && ('=' !in t ==> c.name == t && c.value == "")
  {
    var t := Trim(segment);
    var c := ParseCookie(segment);
    var parts := Split(t, '=');
    assert c == Cookie(parts[0], Join(parts[1..], '='), CookieDomain);
    if '=' in t {
      var i := IndexOf(t, '=');
      SplitHead(t, '=');
      JoinSplit(t[i + 1..], '=');
      assert c.name + "=" + c.value == t[..i] + "=" + t[i + 1..];
      Around(t, i);
    } else {
      SplitFirst(t, '=');
    }
  }

  /** There is one cookie per piece: one more than the ';' in the configuration. */
  lemma ParseCookiesCount(config: string)
    ensures |ParseCookies(config)| == Occurrences(config, ';') + 1
  {
    SplitCount(config, ';');
  }
}
