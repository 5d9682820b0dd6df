/**
 * plugins/numishare/Numishare-Hoards.php: the CollectiveAccess information-service plugin
 * for Numishare hoard catalogues. It recognises service URLs, validates the service a user
 * picked, rewrites an `.../id/<x>` search into a record-id query, lists the Atom entries a
 * search returns keyed and sorted by title, and renders the JSON-LD of one hoard as display
 * lines.
 *
 * The Atom entries and the decoded JSON-LD document are inputs; so is the answer of the
 * framework's isURL() for the search text.
 */
module NumishareHoards {
  import opened Common
  import opened Assoc

  // ----- services -----

  const NumHost: string := "numismatics"
  const CoinHost: string := "coinhoards"
  const Org: string := "org/"
  const CoinHoards: string := "http://" + CoinHost + "." + Org
  const Chrr: string := "http://" + NumHost + "." + Org + "chrr/"

  /** `$services`: the two catalogues this plugin serves. */
  const Services: seq<string> := [CoinHoards, Chrr]

  /** validateService: strict membership in `$services`. */
  predicate ValidateService(service: string)
  {
    service in Services
  }

  predicate IsNameChar(c: char)
  {
    'A' <= c <= 'Z' || 'a' <= c <= 'z' || c == '_'
  }

  /** The end of the run of `[A-Za-z_]` characters starting at i. */
  function NameRunEnd(s: string, i: nat): (j: nat)
    requires i <= |s|
    ensures i <= j <= |s|
    ensures forall k :: i <= k < j ==> IsNameChar(s[k])
    ensures j < |s| ==> !IsNameChar(s[j])
    decreases |s| - i
  {
    if i < |s| && IsNameChar(s[i]) then NameRunEnd(s, i + 1) else i
  }

  /** The pattern's `.` before `org`: escaped it is a dot, unescaped any character but a line feed. */
  predicate DotMatches(c: char, escaped: bool)
  {
    if escaped then c == '.' else c != '\n'
  }

  /**
   * After the scheme: the length of `numismatics.org/<name>/` or of `coinhoards.org/` at
   * the start of r, the two host patterns of the plugin.
   */
  function HostLength(r: string, escaped: bool): (n: Option<nat>)
    ensures n.Some? ==> 1 <= n.value <= |r| && r[n.value - 1] == '/'
  {
    if |r| >= 16 && r[..11] == NumHost && DotMatches(r[11], escaped) && r[12..16] == Org then
      var j := NameRunEnd(r, 16);
      if j > 16 && j < |r| && r[j] == '/' then Some(j + 1) else None
    else if |r| >= 15 && r[..10] == CoinHost && DotMatches(r[10], escaped) && r[11..15] == Org then
      Some(15)
    else None
  }

  /** The prefix of s matched by `^(https?://<host pattern>)`. */
  function ServicePrefix(s: string, escaped: bool): (p: Option<string>)
    ensures p.Some? ==> StartsWith(s, p.value) && p.value != [] && p.value[|p.value| - 1] == '/'
  {
    match AfterScheme(s)
    case None => None
    case Some(r) =>
      match HostLength(r, escaped)
      case None => None
      case Some(n) =>
        var p := s[..|s| - |r| + n];
        assert p[|p| - 1] == r[n - 1];
        Some(p)
  }

  /** isServiceUrl: null for a missing or falsy text (`""`, `"0"`), else the matched service prefix. */
  function IsServiceUrl(uri: Option<string>): (service: Option<string>)
    ensures uri.None? || uri == Some("") || uri == Some("0") ==> service.None?
    ensures service.Some? ==>
      uri.Some? && StartsWith(uri.value, service.value) && service.value != [] &&
      service.value[|service.value| - 1] == '/'
  {
    match uri
    case None => None
    case Some(u) => if u == "" || u == "0" then None else ServicePrefix(u, false)
  }

  /** With a scheme in front, the service is the scheme and the host pattern's match. */
  lemma {:induction false} ServicePrefixOf(scheme: string, r: string, escaped: bool, n: nat)
    requires scheme == "http://" || scheme == "https://"
    requires HostLength(r, escaped) == Some(n)
    ensures ServicePrefix(scheme + r, escaped) == Some(scheme + r[..n])
  {
    var s := scheme + r;
    AfterSchemeOf(scheme, r);
    PrefixOfJoined(scheme, r, n);
    assert ServicePrefix(s, escaped) == Some(s[..|s| - |r| + n]);
  }

  lemma {:induction false} PrefixOfJoined(a: string, b: string, n: nat)
    requires n <= |b|
    ensures (a + b)[..|a + b| - |b| + n] == a + b[..n]
  {
    assert (a + b)[..|a| + n] == a + b[..n];
  }

  /** The host pattern of a `numismatics.org` catalogue runs up to the slash after the catalogue name. */
  lemma {:induction false} NumismaticsHost(c: char, name: string, rest: string, escaped: bool)
    requires DotMatches(c, escaped)
    requires name != [] && forall k :: 0 <= k < |name| ==> IsNameChar(name[k])
    ensures HostLength(NumHost + [c] + Org + name + "/" + rest, escaped) == Some(17 + |name|)
  {
    var r := NumHost + [c] + Org + name + "/" + rest;
    assert r[..11] == NumHost && r[11] == c && r[12..16] == Org;
    assert r[16..16 + |name|] == name && r[16 + |name|] == '/';
    NameRunOver(r, 16, |name|);
  }

  /** A `numismatics.org` catalogue URL is recognised, its service being everything up to the catalogue name's slash. */
  lemma {:induction false} NumismaticsService(scheme: string, c: char, name: string, rest: string, escaped: bool)
    requires scheme == "http://" || scheme == "https://"
    requires DotMatches(c, escaped)
    requires name != [] && forall k :: 0 <= k < |name| ==> IsNameChar(name[k])
    ensures ServicePrefix(scheme + NumHost + [c] + Org + name + "/" + rest, escaped) ==
      Some(scheme + NumHost + [c] + Org + name + "/")
  {
    var host := NumHost + [c] + Org + name + "/";
    var r := host + rest;
    NumismaticsHost(c, name, rest, escaped);
    ServicePrefixOf(scheme, r, escaped, |host|);
    assert r[..|host|] == host;
    ConcatAssoc(scheme, NumHost, [c]);
    ConcatAssoc(scheme, NumHost + [c], Org);
    ConcatAssoc(scheme, NumHost + [c] + Org, name);
    ConcatAssoc(scheme, NumHost + [c] + Org + name, "/");
    ConcatAssoc(scheme, host, rest);
  }


  lemma {:induction false} NameRunOver(s: string, i: nat, len: nat)
    requires i + len < |s|
    requires forall k :: i <= k < i + len ==> IsNameChar(s[k])
    requires !IsNameChar(s[i + len])
    ensures NameRunEnd(s, i) == i + len
    decreases len
  {
    if len > 0 {
      NameRunOver(s, i + 1, len - 1);
    }
  }

  /** A `coinhoards.org` URL is recognised as the CoinHoards service. */
  lemma {:induction false} CoinHoardsService(scheme: string, c: char, rest: string, escaped: bool)
    requires scheme == "http://" || scheme == "https://"
    requires DotMatches(c, escaped)
    ensures ServicePrefix(scheme + CoinHost + [c] + Org + rest, escaped) == Some(scheme + CoinHost + [c] + Org)
  {
    var host := CoinHost + [c] + Org;
    var r := host + rest;
    assert HostLength(r, escaped) == Some(15) by {
      assert r[..10] == CoinHost && r[10] == c && r[11..15] == Org;
      assert r[0] == 'c';
    }
    ServicePrefixOf(scheme, r, escaped, 15);
    assert r[..15] == host;
    ConcatAssoc(scheme, CoinHost, [c]);
    ConcatAssoc(scheme, CoinHost + [c], Org);
    ConcatAssoc(scheme, host, rest);
  }

  /** The CoinHoards service is recognised in any URL that starts with it, and passes validation. */
  lemma {:induction false} CoinHoardsRecognised(rest: string)
    ensures IsServiceUrl(Some(CoinHoards + rest)) == Some(CoinHoards) && ValidateService(CoinHoards)
  {
    CoinHoardsService("http://", '.', rest, false);
    assert "." == ['.'];
    assert CoinHoards + rest == "http://" + CoinHost + ['.'] + Org + rest;
    assert (CoinHoards + rest)[0] == 'h';
  }

  /** The CHRR service is recognised in any URL that starts with it, and passes validation. */
  lemma {:induction false} ChrrRecognised(rest: string)
    ensures IsServiceUrl(Some(Chrr + rest)) == Some(Chrr) && ValidateService(Chrr)
  {
    NumismaticsService("http://", '.', "chrr", rest, false);
    assert Chrr == "http://" + NumHost + ['.'] + Org + "chrr" + "/" by {
      assert "." == ['.'];
      ConcatAssoc("http://" + NumHost + ['.'] + Org, "chrr", "/");
    }
    assert (Chrr + rest)[0] == 'h';
  }

  /** A recognised prefix is not necessarily a valid service: the `https` form of CoinHoards is refused. */
  lemma {:induction false} HttpsNotValid(rest: string)
    ensures IsServiceUrl(Some("https://" + CoinHost + "." + Org + rest)) == Some("https://" + CoinHost + "." + Org)
    ensures !ValidateService("https://" + CoinHost + "." + Org)
  {
    CoinHoardsService("https://", '.', rest, false);
    assert "." == ['.'];
    var u := "https://" + CoinHost + "." + Org + rest;
    assert u == "https://" + CoinHost + ['.'] + Org + rest;
    assert u[0] == 'h';
    var p := "https://" + CoinHost + "." + Org;
    assert p[4] == 's' && CoinHoards[4] == ':' && Chrr[4] == ':';
  }

  // ----- the service drop-down -----

  /** One value getAdditionalFieldValues returns: the field key and the service, PHP's null being None. */
  type FieldValues = seq<(string, Option<string>)>

  /**
   * getAdditionalFieldValues as written: for a recognised URI the `<element>_service` entry
   * holds `$m[1]`, and `$m` is never set in that method, so the value is null.
   */
  function AdditionalFieldValuesAsWritten(elementId: string, uri: Option<string>): FieldValues
  {
    if IsServiceUrl(uri).Some? then [(elementId + "_service", None)] else []
  }

  /** getAdditionalFieldValues as intended: the entry holds the service the URI was recognised as. */
  function AdditionalFieldValues(elementId: string, uri: Option<string>): FieldValues
  {
    match IsServiceUrl(uri)
    case Some(service) => [(elementId + "_service", Some(service))]
    case None => []
  }

  /** As written, a stored CoinHoards URI gives the drop-down no service back. */
  lemma {:induction false} ServiceFieldLost(elementId: string, rest: string)
    ensures AdditionalFieldValuesAsWritten(elementId, Some(CoinHoards + rest)) == [(elementId + "_service", None)]
    ensures AdditionalFieldValues(elementId, Some(CoinHoards + rest)) == [(elementId + "_service", Some(CoinHoards))]
  {
    CoinHoardsRecognised(rest);
  }

  /** As intended, a URI of either configured service restores exactly that service, which passes validation. */
  lemma {:induction false} ServiceFieldRoundTrip(elementId: string, service: string, rest: string)
    requires ValidateService(service)
    ensures AdditionalFieldValues(elementId, Some(service + rest)) == [(elementId + "_service", Some(service))]
  {
    if service == CoinHoards {
      CoinHoardsRecognised(rest);
    } else {
      ChrrRecognised(rest);
    }
  }

  /** Without a recognised URI neither version returns anything. */
  lemma {:induction false} NoServiceNoField(elementId: string, uri: Option<string>)
    requires IsServiceUrl(uri).None?
    ensures AdditionalFieldValuesAsWritten(elementId, uri) == [] && AdditionalFieldValues(elementId, uri) == []
  {
  }

  // ----- lookup -----

  /** `(.+)$` after `[/]*id/`: the record id at position i of s, when the rest is one non-empty line. */
  function IdAt(s: string, i: nat): Option<string>
    requires i <= |s|
    decreases |s| - i
  {
    if i < |s| && s[i] == '/' then IdAt(s, i + 1)
    else if i + 3 <= |s| && s[i..i + 3] == "id/" then
      var x := Chomp(s[i + 3..]);
      if x != [] && '\n' !in x then Some(x) else None
    else None
  }

  /** The search actually sent: the record-id query, or the search text unchanged. */
  datatype Search = Search(service: Option<string>, q: string)

  /**
   * The rewrite of lookup: a URL of a recognised service (whatever the `service` parameter
   * said) becomes the service for the request, and `<service>[/]*id/<x>` becomes
   * `recordId:"<x>"`. Anything else keeps the request's service and the raw search.
   */
  function SearchFor(rawSearch: string, decoded: string, isUrl: bool, serviceParam: Option<string>): (r: Search)
    ensures !isUrl ==> r == Search(serviceParam, rawSearch)
  {
    if !isUrl then Search(serviceParam, rawSearch)
    else
      var service := IsServiceUrl(Some(decoded));
      if service.Some? then
        match IdAt(decoded, |service.value|)
        case Some(x) => Search(service, "recordId:\"" + x + "\"")
        case None => Search(service, rawSearch)
      else Search(service, rawSearch)
  }

  lemma {:induction false} IdAfterSlashes(s: string, i: nat, slashes: nat, x: string)
    requires i + slashes + 3 + |x| == |s|
    requires forall k :: i <= k < i + slashes ==> s[k] == '/'
    requires s[i + slashes..i + slashes + 3] == "id/" && s[i + slashes + 3..] == x
    requires x != [] && '\n' !in x
    ensures IdAt(s, i) == Some(x)
    decreases slashes
  {
    if slashes > 0 {
      IdAfterSlashes(s, i + 1, slashes - 1, x);
    } else {
      assert s[i] == 'i';
      assert x[|x| - 1] != '\n';
    }
  }

  /** A catalogue URL `<service>id/<x>` asks for the record `<x>` of that service. */
  lemma {:induction false} RecordIdRewrite(rawSearch: string, service: string, x: string, serviceParam: Option<string>)
    requires service in Services
    requires x != [] && '\n' !in x
    ensures SearchFor(rawSearch, service + "id/" + x, true, serviceParam) == Search(Some(service), "recordId:\"" + x + "\"")
  {
    var s := service + "id/" + x;
    assert s == service + ("id/" + x);
    if service == CoinHoards {
      CoinHoardsRecognised("id/" + x);
    } else {
      ChrrRecognised("id/" + x);
    }
    assert IsServiceUrl(Some(s)) == Some(service);
    IdAfterSlashes(s, |service|, 0, x);
  }

  /** One Atom entry: its title and its link without `rel`. */
  datatype Entry = Entry(title: string, url: string)

  /** One element of `results`. */
  datatype Item = Item(caption: string, idno: string, url: string)

  /** `$a[$i]` on a list: null outside 0..|a|-1, and in particular for -1, which PHP does not count from the end. */
  function ListIndex(a: seq<string>, i: int): (r: Option<string>)
    ensures r.Some? <==> 0 <= i < |a|
  {
    if 0 <= i < |a| then Some(a[i]) else None
  }

  /** `explode('/', $vs_url)[-1]` as written: null for every url, since the list has no key -1. */
  lemma {:induction false} IdnoNeverSet(url: string)
    ensures ListIndex(SplitOn(url, "/"), -1).None?
    ensures ListIndex(SplitOn(url, "/"), |SplitOn(url, "/")| - 1).Some?
  {
  }

  /** The last `/`-separated piece of a url: the record id each result is meant to carry. */
  function LastSegment(url: string): (r: string)
    ensures EndsWith(url, r) && '/' !in r
    ensures |r| < |url| ==> url[|url| - |r| - 1] == '/'
  {
    if url == [] || url[|url| - 1] == '/' then []
    else
      var init := url[..|url| - 1];
      var r := LastSegment(init);
      SuffixSnoc(url, |r|);
      r + [url[|url| - 1]]
  }

  /** A suffix one longer is the shorter suffix of the text without its last character, then that character. */
  lemma {:induction false} SuffixSnoc(s: string, k: nat)
    requires k < |s|
    ensures s[|s| - k - 1..] == s[..|s| - 1][|s| - 1 - k..] + [s[|s| - 1]]
  {
  }

  /** The id of a url ending in `/<x>`, such as a catalogue url `<service>id/<x>`, is `<x>`. */
  lemma {:induction false} CatalogueIdno(p: string, x: string)
    requires '/' !in x
    ensures LastSegment(p + "/" + x) == x
  {
    var u := p + "/" + x;
    var r := LastSegment(u);
    assert u[|p|] == '/';
    assert r == u[|u| - |r|..] && x == u[|u| - |x|..];
  }

  /** `$items`: title => url, a later entry with the same title replacing the url in place. */
  function ItemsOf(entries: seq<Entry>): Entries
  {
    if entries == [] then []
    else
      var e := entries[|entries| - 1];
      Put(ItemsOf(entries[..|entries| - 1]), e.title, e.url)
  }

  /**
   * `array_values($items)`: one result per title, in order, its id taken from the end of its
   * url. This is the corrected idno: the code as written reads key -1 of the exploded url,
   * which is always null (IdnoNeverSet).
   */
  function Listed(items: Entries): (results: seq<Item>)
    ensures |results| == |items|
    ensures forall i :: 0 <= i < |items| ==>
      results[i].caption == items[i].0 && results[i].url == items[i].1 && '/' !in results[i].idno &&
      EndsWith(results[i].url, results[i].idno)
  {
    seq(|items|, i requires 0 <= i < |items| => Item(items[i].0, LastSegment(items[i].1), items[i].1))
  }

  /**
   * lookup: an invalid non-empty `service` parameter gives no search and no results; so does
   * a negative `count` option, since `while($count <= $maxcount)` then never runs. Otherwise
   * the search is sent once (the loop breaks after one fetch, whatever `count` says) and its
   * entries come back keyed by title, in ksort order.
   */
  method Lookup(rawSearch: string, decoded: string, isUrl: bool, serviceParam: Option<string>, maxCount: int,
                entries: seq<Entry>)
    returns (search: Option<Search>, results: seq<Item>)
    ensures serviceParam.Some? && serviceParam.value != "" && !ValidateService(serviceParam.value) ==>
      search == None && results == []
    ensures maxCount < 0 ==> search == None && results == []
    ensures !(serviceParam.Some? && serviceParam.value != "" && !ValidateService(serviceParam.value)) && maxCount >= 0 ==>
      search == Some(SearchFor(rawSearch, decoded, isUrl, serviceParam)) && results == Listed(KSort(ItemsOf(entries)))
  {
    if serviceParam.Some? && |serviceParam.value| > 0 && !ValidateService(serviceParam.value) {
      return None, [];
    }
    var count := 0;
    if !(count <= maxCount) {
      return None, [];
    }
    search := Some(SearchFor(rawSearch, decoded, isUrl, serviceParam));
    var items: Entries := [];
    for i := 0 to |entries|
      invariant items == ItemsOf(entries[..i])
    {
      assert entries[..i + 1][..i] == entries[..i];
      items := Put(items, entries[i].title, entries[i].url);
    }
    assert entries[..|entries|] == entries;
    results := Listed(KSort(items));
  }

  /** The url of the last entry with a given title. */
  function LastUrl(entries: seq<Entry>, title: string): Option<string>
  {
    if entries == [] then None
    else if entries[|entries| - 1].title == title then Some(entries[|entries| - 1].url)
    else LastUrl(entries[..|entries| - 1], title)
  }

  lemma {:induction false} ItemsLastWins(entries: seq<Entry>, title: string)
    ensures UniqueKeys(ItemsOf(entries))
    ensures Get(ItemsOf(entries), title) == LastUrl(entries, title)
  {
    if entries != [] {
      var init := entries[..|entries| - 1];
      var e := entries[|entries| - 1];
      ItemsLastWins(init, title);
      PutUnique(ItemsOf(init), e.title, e.url);
      GetPut(ItemsOf(init), e.title, e.url, title);
    }
  }

  lemma {:induction false} LastUrlFinds(entries: seq<Entry>, i: nat)
    requires i < |entries|
    ensures LastUrl(entries, entries[i].title).Some?
  {
    var n := |entries| - 1;
    if entries[n].title != entries[i].title {
      assert entries[..n][i] == entries[i];
      LastUrlFinds(entries[..n], i);
    }
  }

  lemma {:induction false} LastUrlIndex(entries: seq<Entry>, title: string) returns (i: nat)
    requires LastUrl(entries, title).Some?
    ensures i < |entries| && entries[i].title == title && entries[i].url == LastUrl(entries, title).value
  {
    var n := |entries| - 1;
    if entries[n].title == title {
      i := n;
    } else {
      i := LastUrlIndex(entries[..n], title);
      assert entries[..n][i] == entries[i];
    }
  }

  /**
   * The results are in strictly increasing title order, and a title is listed, with the url
   * of the last entry carrying it, exactly when some entry carries it.
   */
  lemma {:induction false} ResultsSortedByTitle(entries: seq<Entry>, title: string, url: string)
    ensures var rs := Listed(KSort(ItemsOf(entries)));
      forall i, j :: 0 <= i < j < |rs| ==> Below(rs[i].caption, rs[j].caption)
    ensures (title, url) in KSort(ItemsOf(entries)) <==> LastUrl(entries, title) == Some(url)
    ensures (exists u :: (title, u) in KSort(ItemsOf(entries))) <==> exists i :: 0 <= i < |entries| && entries[i].title == title
  {
    var items := ItemsOf(entries);
    ItemsLastWins(entries, title);
    KSortCorrect(items);
    GetUnique(items, title, url);
    if exists i :: 0 <= i < |entries| && entries[i].title == title {
      var i :| 0 <= i < |entries| && entries[i].title == title;
      LastUrlFinds(entries, i);
      var u := LastUrl(entries, title).value;
      GetUnique(items, title, u);
      assert (title, u) in KSort(items);
    }
    if exists u :: (title, u) in KSort(items) {
      var u :| (title, u) in KSort(items);
      GetUnique(items, title, u);
      var i := LastUrlIndex(entries, title);
    }
  }

  // ----- getExtendedInformation -----

  /** A decoded JSON value: a scalar already in its PHP string form, or an array of key/value members. */
  datatype Value = Scalar(text: string) | Arr(members: seq<(string, Value)>)

  /** String interpolation of a value: arrays print as `Array`. */
  function Text(v: Value): string
  {
    match v
    case Scalar(t) => t
    case Arr(_) => "Array"
  }

  /** `foreach ($v as $vi)` after `if (!is_array($v)) $v = [$v]`. */
  function Values(v: Value): (vs: seq<Value>)
    ensures v.Scalar? ==> vs == [v]
    ensures v.Arr? ==> |vs| == |v.members|
  {
    match v
    case Scalar(_) => [v]
    case Arr(ms) => seq(|ms|, i requires 0 <= i < |ms| => ms[i].1)
  }

  /** The first member under key k. */
  function Member(ms: seq<(string, Value)>, k: string): Option<Value>
  {
    if ms == [] then None else if ms[0].0 == k then Some(ms[0].1) else Member(ms[1..], k)
  }

  function StripAt(k: string): string
  {
    ReplaceAll(k, "@", "")
  }

  /** The heading of a member: `@` removed, capitalised unless it is a prefixed name. */
  function KeyLabel(k: string): string
  {
    var k' := StripAt(k);
    if ':' in k' then k' else UcFirst(k')
  }

  const Indented: string := "<div style='margin-left: 10px;'><strong>"

  function LinkLine(url: string): string
  {
    "<strong>Link</strong>: <a href='" + url + "' target='_blank'>" + url + "</a><br/>"
  }

  function IdLine(v: Value): string
  {
    "<div><strong>ID</strong>: " + Text(v) + "</div>"
  }

  /** `$d`: the `<em>key</em>: value` pairs of an array value. */
  function PairTexts(ms: seq<(string, Value)>): (d: seq<string>)
    ensures |d| == |ms|
  {
    if ms == [] then []
    else
      var (kii, vii) := ms[|ms| - 1];
      PairTexts(ms[..|ms| - 1]) + ["<em>" + UcFirst(StripAt(kii)) + "</em>: " + Text(vii)]
  }

  function ValueLine(heading: string, vi: Value): string
  {
    match vi
    case Arr(ms) => Indented + heading + "</strong>: " + Join(PairTexts(ms), "; ") + "</div>"
    case Scalar(t) => Indented + heading + "</strong>: " + t + "</div>"
  }

  function ValueLines(heading: string, vs: seq<Value>): (lines: seq<string>)
    ensures |lines| == |vs|
  {
    if vs == [] then [] else ValueLines(heading, vs[..|vs| - 1]) + [ValueLine(heading, vs[|vs| - 1])]
  }

  /** The lines of one member of a graph node. */
  function MemberLines(k: string, v: Value): (lines: seq<string>)
    ensures |lines| == if k == "@id" then 1 else |Values(v)|
  {
    if k == "@id" then [IdLine(v)] else ValueLines(KeyLabel(k), Values(v))
  }

  function NodeLines(ms: seq<(string, Value)>): seq<string>
  {
    if ms == [] then []
    else
      var (k, v) := ms[|ms| - 1];
      NodeLines(ms[..|ms| - 1]) + MemberLines(k, v)
  }

  /** The lines of the `@graph` nodes; a node that is not an array is skipped. */
  function GraphLines(nodes: seq<Value>): seq<string>
  {
    if nodes == [] then []
    else
      var g := nodes[|nodes| - 1];
      GraphLines(nodes[..|nodes| - 1]) + (if g.Arr? then NodeLines(g.members) else [])
  }

  /** The lines of the graph grow node by node. */
  lemma {:induction false} GraphLinesStep(nodes: seq<Value>, i: nat)
    requires i < |nodes|
    ensures GraphLines(nodes[..i + 1]) == GraphLines(nodes[..i]) + (if nodes[i].Arr? then NodeLines(nodes[i].members) else [])
  {
    assert nodes[..i + 1][..i] == nodes[..i];
  }

  /** `$va_display`: the Link line, then the lines of `@graph` when it is an array. */
  function DisplayLines(url: string, root: seq<(string, Value)>): (lines: seq<string>)
    ensures |lines| >= 1 && lines[0] == LinkLine(url)
  {
    var graph := Member(root, "@graph");
    [LinkLine(url)] + (if graph.Some? && graph.value.Arr? then GraphLines(Values(graph.value)) else [])
  }

  /** The display of a value member: one line per value. */
  method RenderValues(heading: string, vs: seq<Value>) returns (lines: seq<string>)
    ensures lines == ValueLines(heading, vs)
  {
    lines := [];
    for i := 0 to |vs|
      invariant lines == ValueLines(heading, vs[..i])
    {
      assert vs[..i + 1][..i] == vs[..i];
      var vi := vs[i];
      if vi.Arr? {
        var d: seq<string> := [];
        for j := 0 to |vi.members|
          invariant d == PairTexts(vi.members[..j])
        {
          assert vi.members[..j + 1][..j] == vi.members[..j];
          var (kii, vii) := vi.members[j];
          d := d + ["<em>" + UcFirst(StripAt(kii)) + "</em>: " + Text(vii)];
        }
        assert vi.members[..|vi.members|] == vi.members;
        lines := lines + [Indented + heading + "</strong>: " + Join(d, "; ") + "</div>"];
      } else {
        lines := lines + [Indented + heading + "</strong>: " + vi.text + "</div>"];
      }
    }
    assert vs[..|vs|] == vs;
  }

  /** The foreach over the members of one graph node, with the switch on the key. */
  method RenderNode(ms: seq<(string, Value)>) returns (lines: seq<string>)
    ensures lines == NodeLines(ms)
  {
    lines := [];
    for i := 0 to |ms|
      invariant lines == NodeLines(ms[..i])
    {
      assert ms[..i + 1][..i] == ms[..i];
      var (k, v) := ms[i];
      if k == "@id" {
        lines := lines + [IdLine(v)];
      } else {
        var more := RenderValues(KeyLabel(k), Values(v));
        lines := lines + more;
      }
    }
    assert ms[..|ms|] == ms;
  }

  /** What getExtendedInformation returns: nothing, or a display text. */
  datatype Extended = NoInfo | Display(text: string)

  /** The service and id in `^(https?://numismatics\.org/[A-Za-z_]+/)id/(.*)` or the coinhoards.org pattern. */
  function ExtendedMatch(url: string): Option<(string, string)>
  {
    match ServicePrefix(url, true)
    case None => None
    case Some(service) =>
      var n := |service|;
      if n + 3 <= |url| && url[n..n + 3] == "id/" then Some((service, Before(url[n + 3..], '\n'))) else None
  }

  /** The JSON-LD document of a record. */
  function JsonLdUrl(service: string, id: string): string
  {
    service + "id/" + id + ".jsonld"
  }

  /**
   * getExtendedInformation. `fetched` is the decoded document, None when the request or
   * the decoding failed; the returned fetch is the request made, if any.
   */
  method ExtendedInformation(url: string, fetched: Option<Value>) returns (fetch: Option<string>, result: Extended)
    ensures ExtendedMatch(url).None? ==> fetch == None && result == NoInfo
    ensures ExtendedMatch(url).Some? && !ValidateService(ExtendedMatch(url).value.0) ==>
      fetch == None && result == Display("Invalid service: " + ExtendedMatch(url).value.0)
    ensures ExtendedMatch(url).Some? && ValidateService(ExtendedMatch(url).value.0) ==>
      fetch == Some(JsonLdUrl(ExtendedMatch(url).value.0, ExtendedMatch(url).value.1)) &&
      result == (if fetched.Some? && fetched.value.Arr? then Display(Join(DisplayLines(url, fetched.value.members), "<br/>\n")) else NoInfo)
  {
    var m := ExtendedMatch(url);
    if m.None? {
      return None, NoInfo;
    }
    var (service, id) := m.value;
    if !ValidateService(service) {
      return None, Display("Invalid service: " + service);
    }
    fetch := Some(JsonLdUrl(service, id));
    if fetched.None? || !fetched.value.Arr? {
      return fetch, NoInfo;
    }
    var root := fetched.value.members;
    var display := [LinkLine(url)];
    var graph := Member(root, "@graph");
    if graph.Some? && graph.value.Arr? {
      var nodes := Values(graph.value);
      var rest: seq<string> := [];
      for i := 0 to |nodes|
        invariant rest == GraphLines(nodes[..i])
      {
        GraphLinesStep(nodes, i);
        var g := nodes[i];
        if g.Arr? {
          var more := RenderNode(g.members);
          rest := rest + more;
        }
      }
      assert nodes[..|nodes|] == nodes;
      display := display + rest;
    }
    assert display == DisplayLines(url, root);
    result := Display(Join(display, "<br/>\n"));
  }

  /** The strict pattern of getExtendedInformation: a catalogue record URL gives its service and id. */
  lemma {:induction false} ExtendedMatchOf(scheme: string, name: string, id: string)
    requires scheme == "http://" || scheme == "https://"
    requires name != [] && forall k :: 0 <= k < |name| ==> IsNameChar(name[k])
    requires '\n' !in id
    ensures var service := scheme + NumHost + "." + Org + name + "/";
      ExtendedMatch(service + "id/" + id) == Some((service, id))
  {
    var service := scheme + NumHost + "." + Org + name + "/";
    assert "." == ['.'];
    NumismaticsService(scheme, '.', name, "id/" + id, true);
    var url := service + "id/" + id;
    assert url == scheme + NumHost + ['.'] + Org + name + "/" + ("id/" + id);
    assert url[|service|..|service| + 3] == "id/" && url[|service| + 3..] == id;
    BeforeNoChar(id, '\n');
  }

  lemma {:induction false} BeforeNoChar(s: string, c: char)
    requires c !in s
    ensures Before(s, c) == s
  {
    if s != [] {
      BeforeNoChar(s[1..], c);
      assert s == [s[0]] + s[1..];
    }
  }

  /** A valid record URL with a decoded document always displays, and its first line links the URL. */
  lemma {:induction false} DisplayStartsWithLink(url: string, root: seq<(string, Value)>)
    ensures var lines := DisplayLines(url, root);
      StartsWith(Join(lines, "<br/>\n"), LinkLine(url))
  {
    var lines := DisplayLines(url, root);
    if |lines| > 1 {
      assert lines == [lines[0]] + lines[1..];
      JoinCons(lines[0], lines[1..], "<br/>\n");
    }
    var j := Join(lines, "<br/>\n");
    assert j[..|LinkLine(url)|] == LinkLine(url);
  }
}
