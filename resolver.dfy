/**
 * qr/resolver.php: the QR-code resolver. An accession number is looked up in the
 * CollectiveAccess database it belongs to: `2222.1.<n>` numbers in the Unregistered Object
 * database (`uro`), every other number in the main curatorial database. A single hit is
 * answered with a 302 to the record's editor page; otherwise a 404 or 400 page is sent.
 *
 * The credentials file, the `accnum` request parameter, the first command-line argument, the
 * login reply and the find response are inputs. The HTTP response is modelled as what PHP
 * accumulates: a status, a Location header (each `header()` replaces the previous one) and
 * the echoed body.
 */
module Resolver {
  import opened Common
  import opened Records

  const CaHost: string := "test.numismatics.org/"
  const CaUrl: string := "https://" + CaHost
  const Uro: string := "uro"
  const MainDb: string := "collectiveaccess"
  const UroPrefix: string := "2222.1."

  /** json_encode of the bundle posted with the find request. */
  const BundleJson: string :=
    "{\"bundles\":{\"access\":{\"convertCodesToIdno\":true},\"type_id\":{\"convertCodesToIdno\":true}}}"

  const PageHead: string := "<html><head><title>ANS Object Resolver</title></head><body>"
  const PageTail: string := "</body></html>"
  const NoCredentials: string := "Unable to load CA credentials."
  const NoAccnum: string := "No accession number specified."
  const LoginFailure: string := "Unable to reach CollectiveAccess API.\n"

  /** The username and password read from ca_credentials.json. */
  datatype Credentials = Credentials(username: string, password: string)

  /** What the login request answered: its HTTP code and the authToken of its JSON, if any. */
  datatype LoginReply = LoginReply(code: int, token: Option<string>)

  /** The requests the resolver sends. */
  datatype Request = Login(url: string) | Find(url: string, body: string)

  /** The response PHP sends: status, Location header and body. */
  datatype Response = Response(status: int, location: Option<string>, body: string)

  /** Nothing set and nothing echoed: PHP answers 200 with an empty page. */
  const Blank: Response := Response(200, None, "")

  /** The `accnum` request parameter takes precedence over the first command-line argument. */
  function RequestedAccnum(get: Option<string>, argv: Option<string>): (a: Option<string>)
    ensures a.Some? <==> get.Some? || argv.Some?
    ensures get.Some? ==> a == get
    ensures get.None? ==> a == argv
  {
    if get.Some? then get else argv
  }

  /** The pattern `^2222\.1\.\d+`: the Unregistered Object series, followed by at least one digit. */
  predicate IsUroAccnum(a: string)
  {
    |a| > |UroPrefix| && a[..|UroPrefix|] == UroPrefix && IsDigit(a[|UroPrefix|])
  }

  /** The database an accession number is looked up in. */
  function DbFor(accnum: string): (db: string)
    ensures db == Uro || db == MainDb
    ensures db == Uro <==> IsUroAccnum(accnum)
  {
    if IsUroAccnum(accnum) then Uro else MainDb
  }

  /** Any `2222.1.<digits>` number goes to `uro`, whatever follows the digits. */
  lemma {:induction false} UroSeries(digits: string, rest: string)
    requires digits != [] && AllDigits(digits)
    ensures DbFor(UroPrefix + digits + rest) == Uro
  {
    var a := UroPrefix + digits + rest;
    assert a[..|UroPrefix|] == UroPrefix;
    assert a[|UroPrefix|] == digits[0];
  }

  /** Neighbouring series such as `2222.10` or `2222.1a` go to the main database. */
  lemma {:induction false} NeighbourSeries(c: char, rest: string)
    requires c != '.'
    ensures DbFor("2222.1" + [c] + rest) == MainDb
  {
    var a := "2222.1" + [c] + rest;
    assert a[6] == c;
    assert UroPrefix[6] == '.';
  }

  /** A number without the `2222.1.` series, or with nothing numeric after it, goes to the main database. */
  lemma {:induction false} SeriesWithoutNumber(rest: string)
    requires rest == [] || !IsDigit(rest[0])
    ensures DbFor(UroPrefix + rest) == MainDb
  {
    var a := UroPrefix + rest;
    if |a| > |UroPrefix| {
      assert a[|UroPrefix|] == rest[0];
    }
  }

  function Query(accnum: string): string
  {
    "idno:" + accnum
  }

  /** The find request for the query, authorised by the token. */
  function FindUrl(db: string, q: string, token: string): string
  {
    CaUrl + db + "/service.php/json/find/ca_objects?q=" + q + "&pretty=1&authToken=" + token
  }

  /** login_to_ca's URL: the credentials spliced into CA_URL by str_replace, then the auth service. */
  function LoginUrl(db: string, username: string, password: string): string
  {
    ReplaceAll(CaUrl, "https://", "https://" + username + ":" + password + "@") + db + "/service.php/json/auth/login"
  }

  lemma {:induction false} ReplaceAllAbsent(s: string, pat: string, rep: string)
    requires pat != [] && pat[0] !in s
    ensures ReplaceAll(s, pat, rep) == s
    decreases |s|
  {
    if s != [] {
      assert s[0] in s;
      assert !StartsWith(s, pat);
      assert forall k :: 0 <= k < |s[1..]| ==> s[1..][k] == s[k + 1];
      ReplaceAllAbsent(s[1..], pat, rep);
    }
  }

  /** CA_URL holds its scheme once, so the login URL is the host with the credentials in front of it. */
  lemma {:induction false} LoginUrlForm(db: string, username: string, password: string)
    ensures LoginUrl(db, username, password) ==
      "https://" + username + ":" + password + "@" + CaHost + db + "/service.php/json/auth/login"
  {
    var rep := "https://" + username + ":" + password + "@";
    assert CaUrl[..8] == "https://" && CaUrl[8..] == CaHost;
    assert 'h' !in CaHost;
    ReplaceAllAbsent(CaHost, "https://", rep);
  }

  /** The editor page of a record. */
  function RedirectUrl(db: string, id: string): string
  {
    CaUrl + db + "/index.php/editor/objects/ObjectEditor/Edit/object_id/" + id
  }

  /** A redirect names exactly one database and one record. */
  lemma {:induction false} RedirectUrlInjective(db1: string, id1: string, db2: string, id2: string)
    requires db1 in {Uro, MainDb} && db2 in {Uro, MainDb}
    requires RedirectUrl(db1, id1) == RedirectUrl(db2, id2)
    ensures db1 == db2 && id1 == id2
  {
    var path := "/index.php/editor/objects/ObjectEditor/Edit/object_id/";
    var u1 := RedirectUrl(db1, id1);
    var u2 := RedirectUrl(db2, id2);
    assert u1 == CaUrl + db1 + path + id1 && u2 == CaUrl + db2 + path + id2;
    assert u1[|CaUrl|] == db1[0] && u2[|CaUrl|] == db2[0];
    assert Uro[0] != MainDb[0];
    assert db1 == db2;
    assert id1 == u1[|CaUrl| + |db1| + |path|..];
    assert id2 == u2[|CaUrl| + |db2| + |path|..];
  }

  function ErrorPage(heading: string, message: string): string
  {
    PageHead + "<h1>" + heading + "</h1><p>" + message + "</p>" + PageTail
  }

  /** The message can be read back from the error page. */
  lemma {:induction false} ErrorPageInjective(heading: string, m1: string, m2: string)
    requires ErrorPage(heading, m1) == ErrorPage(heading, m2)
    ensures m1 == m2
  {
    var head := PageHead + "<h1>" + heading + "</h1><p>";
    var tail := "</p>" + PageTail;
    assert ErrorPage(heading, m1) == head + m1 + tail && ErrorPage(heading, m2) == head + m2 + tail;
    assert m1 == ErrorPage(heading, m1)[|head|..|head| + |m1|];
    assert m2 == ErrorPage(heading, m2)[|head|..|head| + |m2|];
  }

  /** http_error: a page for 404 and 400, nothing at all for any other code. */
  function HttpError(code: string, message: string): (r: Response)
    ensures r != Blank <==> code == "404" || code == "400"
    ensures r.location == None
    ensures code == "404" ==> r.status == 404
    ensures code == "400" ==> r.status == 400
  {
    if code == "404" then Response(404, None, ErrorPage("404 Not Found", message))
    else if code == "400" then Response(400, None, ErrorPage("400 Bad request", message))
    else Blank
  }

  function NotFound(db: string): string
  {
    "Accession number not found in " + db + " database."
  }

  function RedirectPage(url: string): string
  {
    PageHead + "<h1>302 Found</h1><p>This page should redirect to <a href=\"" + url + "\">" + url + "</a></p>" + PageTail
  }

  /** One pass of process_response's foreach: 302, the Location replaced, a page echoed. */
  function Redirected(resp: Response, url: string): Response
  {
    Response(302, Some(url), resp.body + RedirectPage(url))
  }

  /** The foreach over the results, from nothing sent. */
  function Redirects(db: string, results: seq<CaRecord>): Response
  {
    if results == [] then Blank
    else
      var n := |results| - 1;
      Redirected(Redirects(db, results[..n]), RedirectUrl(db, results[n].id))
  }

  /** process_response: the foreach when the response reports exactly one hit, a 404 otherwise. */
  function Processed(db: string, json: Option<FindResponse>): Response
  {
    if json.Some? && json.value.total == 1 then Redirects(db, json.value.results)
    else HttpError("404", NotFound(db))
  }

  method ProcessResponse(db: string, json: Option<FindResponse>) returns (resp: Response)
    ensures resp == Processed(db, json)
  {
    if json.Some? && json.value.total == 1 {
      var results := json.value.results;
      resp := Blank;
      for i := 0 to |results|
        invariant resp == Redirects(db, results[..i])
      {
        var record := results[i];
        var redirectUrl := RedirectUrl(db, record.id);
        RedirectsStep(db, results, i);
        resp := Response(302, Some(redirectUrl), resp.body + RedirectPage(redirectUrl));
      }
      assert results[..|results|] == results;
    } else {
      resp := HttpError("404", NotFound(db));
    }
  }

  /** One more result: one more pass of the foreach. */
  lemma {:induction false} RedirectsStep(db: string, results: seq<CaRecord>, i: nat)
    requires i < |results|
    ensures Redirects(db, results[..i + 1]) == Redirected(Redirects(db, results[..i]), RedirectUrl(db, results[i].id))
  {
    assert results[..i + 1][..i] == results[..i];
  }

  /**
   * A redirect is sent exactly when the results are not empty; it points at the last
   * result, while the first page echoed links to the first.
   */
  lemma {:induction false} RedirectsShape(db: string, results: seq<CaRecord>)
    ensures results == [] ==> Redirects(db, results) == Blank
    ensures results != [] ==>
      Redirects(db, results).status == 302 &&
      Redirects(db, results).location == Some(RedirectUrl(db, results[|results| - 1].id)) &&
      StartsWith(Redirects(db, results).body, RedirectPage(RedirectUrl(db, results[0].id)))
  {
    if results != [] {
      var n := |results| - 1;
      var init := results[..n];
      var prev := Redirects(db, init);
      var page := RedirectPage(RedirectUrl(db, results[n].id));
      assert Redirects(db, results) == Response(302, Some(RedirectUrl(db, results[n].id)), prev.body + page);
      if n > 0 {
        RedirectsShape(db, init);
        assert init[0] == results[0];
        StartsWithAppend(prev.body, page, RedirectPage(RedirectUrl(db, results[0].id)));
      } else {
        assert prev.body + page == page;
        StartsWithAppend(page, [], page);
        assert page + [] == page;
      }
    }
  }

  /** A single result gives the redirect and its one page, and nothing else. */
  lemma {:induction false} SingleHit(db: string, r: CaRecord)
    ensures Processed(db, Some(FindResponse(1, [r]))) ==
      Response(302, Some(RedirectUrl(db, r.id)), RedirectPage(RedirectUrl(db, r.id)))
  {
    assert [r][..0] == [];
    var url := RedirectUrl(db, r.id);
    assert Redirects(db, [r]) == Redirected(Blank, url);
    assert Blank.body + RedirectPage(url) == RedirectPage(url);
  }

  /** What one request to the resolver sends out and answers. */
  datatype Run = Run(requests: seq<Request>, response: Response)

  /** The whole script. */
  function Resolve(creds: Option<Credentials>, get: Option<string>, argv: Option<string>,
                   login: string -> LoginReply, find: string -> Option<FindResponse>): Run
  {
    if creds.None? then Run([], HttpError("400", NoCredentials))
    else match RequestedAccnum(get, argv)
      case None => Run([], HttpError("400", NoAccnum))
      case Some(accnum) =>
        var db := DbFor(accnum);
        var loginUrl := LoginUrl(db, creds.value.username, creds.value.password);
        var reply := login(loginUrl);
        if reply.code != 200 then Run([Login(loginUrl)], HttpError("400", LoginFailure))
        else match reply.token
          case None => Run([Login(loginUrl)], Blank)
          case Some(token) =>
            var url := FindUrl(db, Query(accnum), token);
            Run([Login(loginUrl), Find(url, BundleJson)], Processed(db, find(url)))
  }

  /** The login URL a request with these inputs uses, when it gets as far as logging in. */
  function LoginUrlOf(creds: Credentials, accnum: string): string
  {
    LoginUrl(DbFor(accnum), creds.username, creds.password)
  }

  /**
   * A 400 is answered exactly when the credentials cannot be read, no accession number was
   * given, or the login did not return 200; then no query is sent.
   */
  lemma {:induction false} BadRequest(creds: Option<Credentials>, get: Option<string>, argv: Option<string>,
                   login: string -> LoginReply, find: string -> Option<FindResponse>)
    ensures var run := Resolve(creds, get, argv, login, find);
      var a := RequestedAccnum(get, argv);
      (run.response.status == 400 <==>
        creds.None? || a.None? || login(LoginUrlOf(creds.value, a.value)).code != 200) &&
      (run.response.status == 400 ==> forall k :: 0 <= k < |run.requests| ==> run.requests[k].Login?)
  {
    var run := Resolve(creds, get, argv, login, find);
    var a := RequestedAccnum(get, argv);
    if creds.Some? && a.Some? && login(LoginUrlOf(creds.value, a.value)).code == 200 {
      var db := DbFor(a.value);
      var reply := login(LoginUrlOf(creds.value, a.value));
      if reply.token.Some? {
        var url := FindUrl(db, Query(a.value), reply.token.value);
        var json := find(url);
        if json.Some? && json.value.total == 1 {
          RedirectsShape(db, json.value.results);
        }
      }
    }
  }

  /**
   * A redirect is answered only for a login that returned a token and a find response with
   * exactly one hit, and it points at that response's last record in the accession
   * number's database.
   */
  lemma {:induction false} RedirectOnlyOnHit(creds: Option<Credentials>, get: Option<string>, argv: Option<string>,
                          login: string -> LoginReply, find: string -> Option<FindResponse>)
    requires Resolve(creds, get, argv, login, find).response.status == 302
    ensures creds.Some? && RequestedAccnum(get, argv).Some?
    ensures var a := RequestedAccnum(get, argv).value;
      var reply := login(LoginUrlOf(creds.value, a));
      reply.code == 200 && reply.token.Some? &&
      var json := find(FindUrl(DbFor(a), Query(a), reply.token.value));
      json.Some? && json.value.total == 1 && json.value.results != [] &&
      Resolve(creds, get, argv, login, find).response.location ==
        Some(RedirectUrl(DbFor(a), json.value.results[|json.value.results| - 1].id))
  {
    var a := RequestedAccnum(get, argv).value;
    var reply := login(LoginUrlOf(creds.value, a));
    var json := find(FindUrl(DbFor(a), Query(a), reply.token.value));
    RedirectsShape(DbFor(a), json.value.results);
  }

  /**
   * Once logged in, the query is `idno:<accnum>` in the accession number's database, and a
   * response other than exactly one hit is answered 404 naming that database.
   */
  lemma {:induction false} NotFoundAfterLogin(creds: Credentials, get: Option<string>, argv: Option<string>,
                           login: string -> LoginReply, find: string -> Option<FindResponse>)
    requires RequestedAccnum(get, argv).Some?
    requires var a := RequestedAccnum(get, argv).value;
      login(LoginUrlOf(creds, a)).code == 200 && login(LoginUrlOf(creds, a)).token.Some?
    ensures var a := RequestedAccnum(get, argv).value;
      var url := FindUrl(DbFor(a), Query(a), login(LoginUrlOf(creds, a)).token.value);
      var run := Resolve(Some(creds), get, argv, login, find);
      run.requests == [Login(LoginUrlOf(creds, a)), Find(url, BundleJson)] &&
      (find(url).None? || find(url).value.total != 1 <==> run.response == HttpError("404", NotFound(DbFor(a))))
  {
    var a := RequestedAccnum(get, argv).value;
    var url := FindUrl(DbFor(a), Query(a), login(LoginUrlOf(creds, a)).token.value);
    var json := find(url);
    if json.Some? && json.value.total == 1 {
      RedirectsShape(DbFor(a), json.value.results);
    }
  }
}
