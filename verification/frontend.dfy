/**
 * The web frontend's pure helpers: the avatar colour and initials of a
 * student name, and the two route guards (the NextAuth proxy and the
 * access-token middleware) reduced to their redirect decision.
 */
module Frontend {
  import opened Wrappers
  import opened Text

  /** The dark gray used for "Unassigned", a missing name and an initial outside the ranges. */
  const Fallback: string := "#374151"

  /** A colour band: initials from `start` to `end` inclusive. */
  datatype Band = Band(start: char, end: char, colour: string)

  /** The thirteen two-letter bands in the order the loop tries them. */
  const Bands: seq<Band> := [
    Band('A', 'B', "#7f1d1d"), Band('C', 'D', "#78350f"), Band('E', 'F', "#064e3b"),
    Band('G', 'H', "#1e3a8a"), Band('I', 'J', "#4c1d95"), Band('K', 'L', "#0f766e"),
    Band('M', 'N', "#7c2d12"), Band('O', 'P', "#1e293b"), Band('Q', 'R', "#4338ca"),
    Band('S', 'T', "#701a75"), Band('U', 'V', "#365314"), Band('W', 'X', "#14532d"),
    Band('Y', 'Z', "#312e81")]

  predicate InBand(c: char, b: Band)
  {
    b.start <= c <= b.end
  }

  /** The colour of the first band holding `c`, if any. */
  function FirstBand(bands: seq<Band>, c: char): (r: Option<string>)
    ensures r.None? <==> forall k :: 0 <= k < |bands| ==> !InBand(c, bands[k])
    ensures r.Some? ==> exists k :: (0 <= k < |bands| && InBand(c, bands[k]) && r.value == bands[k].colour
                                    && forall m :: 0 <= m < k ==> !InBand(c, bands[m]))
  {
    if |bands| == 0 then None
    else if InBand(c, bands[0]) then
      Some(bands[0].colour)
    else
      var r := FirstBand(bands[1..], c);
      assert forall k :: 1 <= k < |bands| ==> bands[1..][k - 1] == bands[k];
      if r.Some? then
        var k :| 0 <= k < |bands| - 1 && InBand(c, bands[1..][k]) && r.value == bands[1..][k].colour
                 && forall m :: 0 <= m < k ==> !InBand(c, bands[1..][m]);
        assert InBand(c, bands[k + 1]) && forall m :: 0 <= m < k + 1 ==> !InBand(c, bands[m]);
        r
      else
        r
  }

  /** The upper-cased first character of a name; "" for a missing or empty name. */
  function Initial(name: Option<string>): (s: string)
    ensures |s| <= 1
    ensures s == [] <==> name.None? || name.value == []
    ensures s != [] ==> s[0] == UpperChar(name.value[0])
  {
    if name.None? || name.value == [] then [] else [UpperChar(name.value[0])]
  }

  /** `getBackgroundColor`: "Unassigned" and names without an initial are gray; otherwise the
      colour of the first band holding the upper-cased initial, gray when none does. */
  function BackgroundColor(firstName: Option<string>): (colour: string)
    ensures firstName == Some("Unassigned") ==> colour == Fallback
    ensures Initial(firstName) == [] ==> colour == Fallback
    ensures firstName != Some("Unassigned") && Initial(firstName) != [] ==>
              colour == FirstBand(Bands, Initial(firstName)[0]).GetOr(Fallback)
  {
    if firstName == Some("Unassigned") then Fallback
    else
      var letter := Initial(firstName);
      if letter == [] then Fallback else FirstBand(Bands, letter[0]).GetOr(Fallback)
  }

  /** The bands are disjoint and cover A to Z: each capital lies in exactly one band, band (c - 'A') / 2. */
  lemma {:induction false} BandsPartitionCapitals(c: char)
    requires 'A' <= c <= 'Z'
    ensures var k := (c as int - 'A' as int) / 2; (0 <= k < |Bands| && InBand(c, Bands[k]))
    ensures forall k :: 0 <= k < |Bands| && InBand(c, Bands[k]) ==> k == (c as int - 'A' as int) / 2
  {
    forall k | 0 <= k < |Bands|
      ensures Bands[k].start as int == 'A' as int + 2 * k && Bands[k].end as int == 'A' as int + 2 * k + 1
    {
    }
  }

  /** A name whose initial is an ASCII letter gets the colour of band (initial - 'A') / 2. */
  lemma {:induction false} LetterColour(firstName: string)
    requires firstName != "Unassigned" && |firstName| > 0
    requires 'A' <= UpperChar(firstName[0]) <= 'Z'
    ensures BackgroundColor(Some(firstName)) == Bands[(UpperChar(firstName[0]) as int - 'A' as int) / 2].colour
  {
    BandsPartitionCapitals(UpperChar(firstName[0]));
  }

  /** An initial outside A to Z after upper-casing (a digit, an accented capital) is gray. */
  lemma {:induction false} NonLetterIsGray(firstName: string)
    requires |firstName| > 0 && !('A' <= UpperChar(firstName[0]) <= 'Z')
    ensures BackgroundColor(Some(firstName)) == Fallback
  {
    var c := UpperChar(firstName[0]);
    forall k | 0 <= k < |Bands|
      ensures !InBand(c, Bands[k])
    {
      assert 'A' <= Bands[k].start && Bands[k].end <= 'Z';
    }
  }

  /** Two names other than "Unassigned" whose initials agree up to ASCII case get one colour. */
  lemma {:induction false} CaseInsensitiveColour(a: string, b: string)
    requires a != "Unassigned" && b != "Unassigned" && |a| > 0 && |b| > 0
    requires UpperChar(a[0]) == UpperChar(b[0])
    ensures BackgroundColor(Some(a)) == BackgroundColor(Some(b))
  {
  }

  /** `getFallbackText`: the two initials side by side; a missing name renders as "undefined"
      in the template literal, an empty one as "". */
  function FallbackText(firstName: Option<string>, lastName: Option<string>): (t: string)
    ensures firstName.Some? && lastName.Some? ==> t == Initial(firstName) + Initial(lastName)
    ensures firstName.Some? && lastName.Some? ==> |t| <= 2
    ensures firstName.None? ==> StartsWith(t, "undefined")
  {
    Rendered(firstName) + Rendered(lastName)
  }

  /** `${x}` of an optional upper-cased initial. */
  function Rendered(name: Option<string>): (s: string)
    ensures name.Some? ==> s == Initial(name)
    ensures name.None? ==> s == "undefined"
  {
    if name.None? then "undefined" else Initial(name)
  }

  /** The outcome of a route guard. */
  datatype Decision = Next | Redirect(target: string)

  /** The proxy's public paths: the landing page and everything under the NextAuth prefix, which
      is matched as a plain string prefix. */
  predicate IsPublic(path: string)
  {
    path == "/" || StartsWith(path, "/api/auth")
  }

  /** `proxy`: a non-public path without a session token goes to the landing page. */
  function Proxy(path: string, hasToken: bool): (d: Decision)
    ensures d.Redirect? <==> !IsPublic(path) && !hasToken
    ensures d.Redirect? ==> d.target == "/"
  {
    if !IsPublic(path) && !hasToken then Redirect("/") else Next
  }

  /** The proxy never redirects a signed-in user, never redirects a public path, and its redirect
      target itself passes, so it cannot loop. */
  lemma {:induction false} ProxyPasses(path: string, hasToken: bool)
    ensures hasToken ==> Proxy(path, hasToken) == Next
    ensures IsPublic(path) ==> Proxy(path, hasToken) == Next
    ensures Proxy(path, hasToken).Redirect? ==> Proxy(Proxy(path, hasToken).target, hasToken) == Next
  {
  }

  /** Prefix matching admits look-alike paths: "/api/authx" is public, "/dashboard" is not. */
  lemma {:induction false} PublicPrefixExamples()
    ensures IsPublic("/api/authx") && IsPublic("/api/auth/session")
    ensures !IsPublic("/dashboard") && !IsPublic("")
  {
    assert "/api/authx"[..9] == "/api/auth";
    assert "/api/auth/session"[..9] == "/api/auth";
    assert "/dashboard"[1] != "/api/auth"[1];
  }

  predicate IsSecure(path: string)
  {
    StartsWith(path, "/dashboard") || StartsWith(path, "/exams")
  }

  /** `middleware`: a secure route whose access_token cookie is missing or empty goes to the
      login page. */
  function Middleware(path: string, token: Option<string>): (d: Decision)
    ensures d.Redirect? <==> IsSecure(path) && (token.None? || token.value == "")
    ensures d.Redirect? ==> d.target == "/login"
  {
    if IsSecure(path) && (token.None? || token.value == "") then Redirect("/login") else Next
  }

  /** Non-secure routes and non-empty tokens always pass, and the login page is not secure. */
  lemma {:induction false} MiddlewarePasses(path: string, token: Option<string>)
    ensures !IsSecure(path) ==> Middleware(path, token) == Next
    ensures token.Some? && token.value != "" ==> Middleware(path, token) == Next
    ensures Middleware(path, token).Redirect? ==> Middleware(Middleware(path, token).target, token) == Next
  {
    assert "/login"[1] != "/dashboard"[1] && "/login"[1] != "/exams"[1];
  }
}
