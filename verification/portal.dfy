/** The HTTP side of main.py, with the network replaced by oracle answers:
    the connectivity probe (`check_internet_connection`), the captive-portal
    login (`login_to_portal`) and the short-circuiting `attempt_login`. */
module Portal {
  import opened Common
  import opened Text
  import opened CredentialStore

  /** `PORTAL_URL` of main.py. */
  const PortalUrl: string := "http://172.16.68.6:8090/httpclient.html"

  /** The endpoint path that replaces the portal page's last segment. */
  const LoginPath: string := "/login.xml"

  /** What the probe GET to the no-content endpoint produced, redirects not
      followed: a status code, or no reply at all (timeout, DNS, refused). */
  datatype ProbeReply = Status(code: int) | NoReply

  /** `check_internet_connection`: online exactly when the probe answered
      204. A redirect to the captive portal (redirects are not followed),
      any other status and a failed request all count as offline. */
  function HasInternet(reply: ProbeReply): (online: bool)
    ensures reply.NoReply? ==> !online
    ensures reply.Status? ==> (online <==> reply.code == 204)
  {
    reply == Status(204)
  }

  /** The oracle for one portal login: whether the POST raised (timeout,
      connection error) and what the probe answers after the settle delay. */
  datatype PortalOracle = PortalOracle(postRaises: bool, probeAfter: ProbeReply)

  /** The POST sent to the portal: target URL and form fields in order. */
  datatype PortalRequest = PortalRequest(url: string, form: seq<(string, string)>)

  datatype LoginOutcome = LoginOutcome(success: bool, request: PortalRequest)

  /** What `attempt_login` reports, and the POST it sent, if any. */
  datatype AttemptOutcome = AttemptOutcome(success: bool, sent: Option<PortalRequest>)

  // ---------------------------------------------------------------------------
  // Login URL: url.rsplit('/', 1)[0] + '/login.xml'
  // ---------------------------------------------------------------------------

  /** Index of the last occurrence of `c` in `s`. */
  function LastIndex(s: string, c: char): (r: Option<nat>)
    ensures r.Some? ==> r.value < |s| && s[r.value] == c && c !in s[r.value + 1..]
    ensures r.None? ==> c !in s
    decreases |s|
  {
    if |s| == 0 then None
    else if s[|s| - 1] == c then Some(|s| - 1)
    else
      var r := LastIndex(s[..|s| - 1], c);
      assert s == s[..|s| - 1] + [s[|s| - 1]];
      r
  }

  /** `url.rsplit('/', 1)[0]`: everything before the last slash, or the whole
      string when it has no slash. */
  function BeforeLastSlash(url: string): string {
    match LastIndex(url, '/')
    case Some(i) => url[..i]
    case None => url
  }

  /** The portal's login endpoint: the page URL with its last `/`-segment
      replaced by `login.xml`. */
  function LoginUrl(url: string): (r: string)
    ensures |r| >= |LoginPath| && r[|r| - |LoginPath|..] == LoginPath
    ensures var head := r[..|r| - |LoginPath|];
      && head <= url
      && ('/' in url ==> |head| < |url| && url[|head|] == '/' && '/' !in url[|head| + 1..])
      && ('/' !in url ==> head == url)
  {
    var head := BeforeLastSlash(url);
    var r := head + LoginPath;
    assert r[..|r| - |LoginPath|] == head;
    r
  }

  /** Whatever precedes the last slash is kept and the final segment is
      replaced: `LoginUrl(a + "/" + page) == a + "/login.xml"`. */
  lemma {:induction false} LoginUrlReplacesLastSegment(a: string, page: string)
    requires '/' !in page
    ensures LoginUrl(a + "/" + page) == a + LoginPath
    decreases |page|
  {
    LastSlashBeforeSegment(a, page);
    assert (a + "/" + page)[..|a|] == a;
  }

  lemma {:induction false} LastSlashBeforeSegment(a: string, page: string)
    requires '/' !in page
    ensures LastIndex(a + "/" + page, '/') == Some(|a|)
    decreases |page|
  {
    var s := a + "/" + page;
    if |page| > 0 {
      var shorter := page[..|page| - 1];
      assert s[..|s| - 1] == a + "/" + shorter;
      assert '/' !in shorter by { assert forall c :: c in shorter ==> c in page; }
      LastSlashBeforeSegment(a, shorter);
    }
  }

  /** The configured portal page is the page `httpclient.html` on host
      `http://172.16.68.6:8090`. */
  lemma PortalUrlShape(host: string, page: string)
    requires host == "http://172.16.68.6:8090" && page == "httpclient.html"
    ensures host + "/" + page == PortalUrl && '/' !in page
  {
  }

  /** On the portal host, whatever the page, the login endpoint is
      `http://172.16.68.6:8090/login.xml`. */
  lemma PortalLoginUrl(host: string, page: string)
    requires host == "http://172.16.68.6:8090" && '/' !in page
    ensures LoginUrl(host + "/" + page) == "http://172.16.68.6:8090/login.xml"
  {
    LoginUrlReplacesLastSegment(host, page);
    EndpointText(host, LoginUrl(host + "/" + page));
  }

  lemma EndpointText(host: string, url: string)
    requires host == "http://172.16.68.6:8090" && url == host + LoginPath
    ensures url == "http://172.16.68.6:8090/login.xml"
  {
  }

  // ---------------------------------------------------------------------------
  // Login form
  // ---------------------------------------------------------------------------

  /** `int(x)` on a float: truncation toward zero. */
  function Truncate(x: real): (r: int)
    ensures x >= 0.0 ==> r as real <= x < r as real + 1.0
    ensures x < 0.0 ==> r as real - 1.0 < x <= r as real
  {
    if x >= 0.0 then x.Floor else -((-x).Floor)
  }

  /** `str(int(time.time() * 1000))`: the millisecond nonce. */
  function Nonce(now: Timestamp): string {
    IntToDecimal(Truncate(now * 1000.0))
  }

  /** The value of the first field called `key`. */
  function FieldValue(form: seq<(string, string)>, key: string): (r: Option<string>)
    ensures r.Some? <==> exists k :: 0 <= k < |form| && form[k].0 == key
    ensures r.Some? ==> exists k :: 0 <= k < |form| && form[k] == (key, r.value)
    decreases |form|
  {
    if |form| == 0 then None
    else if form[0].0 == key then Some(form[0].1)
    else
      var r := FieldValue(form[1..], key);
      assert forall k :: 1 <= k < |form| ==> form[k] == form[1..][k - 1];
      assert r.Some? ==> exists k :: 0 <= k < |form| && form[k] == (key, r.value) by {
        if r.Some? {
          var k :| 0 <= k < |form[1..]| && form[1..][k] == (key, r.value);
          assert form[k + 1] == (key, r.value);
        }
      }
      r
  }

  /** The form `login_to_portal` posts, fields in dictionary order. */
  function LoginForm(c: Credentials, now: Timestamp): seq<(string, string)> {
    [("mode", "191"), ("username", c.username), ("password", c.password),
     ("a", Nonce(now)), ("producttype", "0")]
  }

  /** The five fields of the form and their values: the fixed protocol mode
      and product type, the credentials as given, and the nonce. */
  lemma LoginFormFields(c: Credentials, now: Timestamp)
    ensures FieldValue(LoginForm(c, now), "mode") == Some("191")
    ensures FieldValue(LoginForm(c, now), "username") == Some(c.username)
    ensures FieldValue(LoginForm(c, now), "password") == Some(c.password)
    ensures FieldValue(LoginForm(c, now), "a") == Some(Nonce(now))
    ensures FieldValue(LoginForm(c, now), "producttype") == Some("0")
  {
    var f0 := LoginForm(c, now);
    var f1 := [("username", c.username), ("password", c.password), ("a", Nonce(now)), ("producttype", "0")];
    var f2 := [("password", c.password), ("a", Nonce(now)), ("producttype", "0")];
    var f3 := [("a", Nonce(now)), ("producttype", "0")];
    var f4 := [("producttype", "0")];
    assert f0[1..] == f1 && f1[1..] == f2 && f2[1..] == f3 && f3[1..] == f4;
    assert "username" != "mode" && "password" != "mode" && "a" != "mode" && "producttype" != "mode";
    assert "password" != "username" && "a" != "username" && "producttype" != "username";
    assert "a" != "password" && "producttype" != "password" by { assert |"producttype"| != |"password"|; }
    assert "producttype" != "a";
    assert FieldValue(f0, "username") == FieldValue(f1, "username");
    assert FieldValue(f0, "password") == FieldValue(f1, "password") == FieldValue(f2, "password");
    assert FieldValue(f0, "a") == FieldValue(f1, "a") == FieldValue(f2, "a") == FieldValue(f3, "a");
    assert FieldValue(f0, "producttype") == FieldValue(f1, "producttype") == FieldValue(f2, "producttype")
      == FieldValue(f3, "producttype") == FieldValue(f4, "producttype");
  }

  /** The nonce is the clock reading in whole milliseconds, written in
      decimal: reading its digits back gives `int(now * 1000)`. */
  lemma NonceIsMilliseconds(now: Timestamp)
    requires now >= 0.0
    ensures forall k :: 0 <= k < |Nonce(now)| ==> IsDigit(Nonce(now)[k])
    ensures DigitsValue(Nonce(now)) == Truncate(now * 1000.0)
  {
    NatDigitsValue(Truncate(now * 1000.0));
  }

  // ---------------------------------------------------------------------------
  // Login and attempt
  // ---------------------------------------------------------------------------

  /** `login_to_portal`: the POST is built and sent; its reply is not trusted.
      The login counts as successful only if the POST did not raise and the
      probe after the settle delay reports connectivity. */
  function LoginToPortal(c: Credentials, now: Timestamp, portal: PortalOracle): (r: LoginOutcome)
    ensures r.request.url == "http://172.16.68.6:8090/login.xml"
    ensures r.request.form == LoginForm(c, now)
    ensures r.success <==> !portal.postRaises && HasInternet(portal.probeAfter)
  {
    PortalUrlShape("http://172.16.68.6:8090", "httpclient.html");
    PortalLoginUrl("http://172.16.68.6:8090", "httpclient.html");
    var request := PortalRequest(LoginUrl(PortalUrl), LoginForm(c, now));
    if portal.postRaises then LoginOutcome(false, request)
    else LoginOutcome(HasInternet(portal.probeAfter), request)
  }

  /** `attempt_login`: when the probe already reports connectivity the portal
      is never contacted and the attempt succeeds; otherwise exactly one POST
      goes out and the attempt reports the portal login's result. */
  function AttemptLogin(c: Credentials, now: Timestamp, probe: ProbeReply, portal: PortalOracle): (r: AttemptOutcome)
    ensures r.sent.None? <==> HasInternet(probe)
    ensures r.sent.None? ==> r.success
    ensures r.sent.Some? ==> r.sent.value.form == LoginForm(c, now)
    ensures r.sent.Some? ==> r.sent.value == LoginToPortal(c, now, portal).request
    ensures r.sent.Some? ==> (r.success <==> !portal.postRaises && HasInternet(portal.probeAfter))
  {
    if HasInternet(probe) then
      AttemptOutcome(true, None)
    else
      var login := LoginToPortal(c, now, portal);
      AttemptOutcome(login.success, Some(login.request))
  }
}
