/**
 * plugins/donum/Koha.php: the CollectiveAccess information-service plugin that looks up
 * bibliographic records in the Koha library system. `lookup` turns the search text into a
 * Koha JSON query, and turns each returned MARC record into a result keyed by its label:
 * `Author (Title)` built from the last names in fields 100/700 and subfields a/b/n/p of 245.
 *
 * The MARC records are inputs, already reduced to the subfield values the XPath queries
 * select, in document order. Whether a non-empty `service` parameter is valid is an input
 * too, since the check it calls is not defined in this plugin.
 */
module Koha {
  import opened Common
  import opened Assoc

  const Host: string := "numismatics"
  const LibraryPath: string := "org/library/"
  const LibraryUrl: string := "http://" + Host + "." + LibraryPath

  /**
   * The capture of `^https?://numismatics.org/library/(.+)$`. The unescaped `.` between
   * `numismatics` and `org` matches any character but a line feed, and `$` may stop before
   * one final line feed.
   */
  function LibraryId(s: string): Option<string>
  {
    match AfterScheme(s)
    case None => None
    case Some(r) =>
      if |r| >= 24 && r[..11] == Host && r[11] != '\n' && r[12..24] == LibraryPath then
        var x := Chomp(r[24..]);
        if x != [] && '\n' !in x then Some(x) else None
      else None
  }

  lemma {:induction false} LibraryIdRest(scheme: string, r: string, x: string)
    requires scheme == "http://" || scheme == "https://"
    requires |r| >= 24 && r[..11] == Host && r[11] != '\n' && r[12..24] == LibraryPath
    requires x != [] && '\n' !in x && (r[24..] == x || r[24..] == x + "\n")
    ensures LibraryId(scheme + r) == Some(x)
  {
    AfterSchemeOf(scheme, r);
    assert x[|x| - 1] != '\n';
    assert Chomp(r[24..]) == x;
  }

  /** Every library URL is recognised, whatever character stands between `numismatics` and `org`. */
  lemma {:induction false} LibraryIdOf(scheme: string, c: char, x: string)
    requires scheme == "http://" || scheme == "https://"
    requires c != '\n' && x != [] && '\n' !in x
    ensures LibraryId(scheme + Host + [c] + LibraryPath + x) == Some(x)
    ensures LibraryId(scheme + Host + [c] + LibraryPath + x + "\n") == Some(x)
  {
    var r := Host + [c] + LibraryPath + x;
    LibraryUrlPieces(c, x);
    LibraryIdRest(scheme, r, x);
    LibraryIdRest(scheme, r + "\n", x);
    SchemeRegrouped(scheme, c, x);
    ConcatAssoc(scheme, r, "\n");
  }

  /** The pieces of a library URL after its scheme, found again by slicing, with or without a line feed. */
  lemma {:induction false} LibraryUrlPieces(c: char, x: string)
    ensures var r := Host + [c] + LibraryPath + x;
      |r| >= 24 && r[..11] == Host && r[11] == c && r[12..24] == LibraryPath && r[24..] == x &&
      (r + "\n")[..24] == r[..24] && (r + "\n")[24..] == x + "\n"
  {
    var r := Host + [c] + LibraryPath + x;
    SlicesOfJoined(Host, c, LibraryPath, x);
    assert (r + "\n")[24..] == r[24..] + "\n";
  }

  lemma {:induction false} SchemeRegrouped(scheme: string, c: char, x: string)
    ensures scheme + Host + [c] + LibraryPath + x == scheme + (Host + [c] + LibraryPath + x)
  {
    ConcatAssoc(scheme, Host, [c]);
    ConcatAssoc(scheme, Host + [c], LibraryPath);
    ConcatAssoc(scheme, Host + [c] + LibraryPath, x);
  }

  /** A recognised id is one line of text that ends the search, before at most one line feed. */
  lemma {:induction false} LibraryIdSound(s: string)
    requires LibraryId(s).Some?
    ensures var x := LibraryId(s).value;
      x != [] && '\n' !in x && (StartsWith(s, "http://") || StartsWith(s, "https://")) &&
      (EndsWith(s, x) || EndsWith(s, x + "\n"))
  {
    var r := AfterScheme(s).value;
    var x := LibraryId(s).value;
    assert r == s[|s| - |r|..];
    assert r[24..] == x || r[24..] == x + "\n";
    assert r[24..] == s[|s| - |r[24..]|..];
  }

  /** The query for one biblio by its id. */
  function BiblioQuery(x: string): string
  {
    "{\"biblio_id\":\"" + x + "\"}"
  }

  /** The query for a title prefix and an author prefix together. */
  function AuthorTitleQuery(author: string, title: string): string
  {
    "{\"-and\": [{\"title\": {\"-like\": \"" + title + "%\"}},{\"author\": {\"-like\": \"" + author + "%\"}}]}"
  }

  /** The query for a title prefix alone. */
  function TitleQuery(s: string): string
  {
    "{\"title\": {\"-like\": \"" + s + "%\"}}"
  }

  /** The Koha JSON query for the (URL-decoded) search text. */
  function JsonQuery(s: string): string
  {
    match LibraryId(s)
    case Some(x) => BiblioQuery(x)
    case None =>
      if ':' in s then AuthorTitleQuery(Segment(s, ':', 0), Segment(s, ':', 1))
      else TitleQuery(s)
  }

  /** A library URL asks for that biblio by id. */
  lemma {:induction false} JsonQueryBiblio(scheme: string, x: string)
    requires scheme == "http://" || scheme == "https://"
    requires x != [] && '\n' !in x
    ensures JsonQuery(scheme + Host + "." + LibraryPath + x) == BiblioQuery(x)
  {
    LibraryIdOf(scheme, '.', x);
    assert "." == ['.'];
  }

  /**
   * `author:title[:...]` asks for both: the author is the text before the first colon, the
   * title the text between the first and the second.
   */
  lemma {:induction false} JsonQueryAuthorTitle(author: string, title: string, tail: string)
    requires ':' !in author && ':' !in title && (tail == [] || tail[0] == ':')
    requires LibraryId(author + ":" + title + tail).None?
    ensures JsonQuery(author + ":" + title + tail) == AuthorTitleQuery(author, title)
  {
    var s := author + ":" + title + tail;
    AuthorTitleSegments(author, title, tail);
    assert s[|author|] == ':';
  }

  /** The first two colon-separated segments of `author:title[:...]`. */
  lemma {:induction false} AuthorTitleSegments(author: string, title: string, tail: string)
    requires ':' !in author && ':' !in title && (tail == [] || tail[0] == ':')
    ensures Segment(author + ":" + title + tail, ':', 0) == author
    ensures Segment(author + ":" + title + tail, ':', 1) == title
  {
    var sep := [':'];
    var t := title + tail;
    var s := author + ":" + title + tail;
    assert ":" == sep;
    ConcatAssoc(author, sep, title);
    ConcatAssoc(author, sep + title, tail);
    ConcatAssoc(sep, title, tail);
    assert s == author + sep + t;
    FirstSegment(author, t, ':');
    var rest := SplitOn(t, sep);
    assert rest[0] == title by {
      SplitOnPrefix(title, tail, sep);
      if tail == [] {
        assert SplitOn(tail, sep) == [""];
      } else {
        assert StartsWith(tail, sep);
        assert SplitOn(tail, sep)[0] == "";
      }
      assert title + "" == title;
    }
    assert SplitOn(sep + t, sep) == [""] + rest by {
      assert StartsWith(sep + t, sep);
      assert (sep + t)[1..] == t;
    }
    SplitOnPrefix(author, sep + t, sep);
    ConcatAssoc(author, sep, t);
    assert SplitOn(s, sep)[1] == title;
  }

  /** Text with no colon and no library URL is a title prefix search. */
  lemma {:induction false} JsonQueryTitle(s: string)
    requires ':' !in s && LibraryId(s).None?
    ensures JsonQuery(s) == TitleQuery(s)
  {
  }

  /** One MARC record: the 999$c idno, the 245 a/b/n/p subfields and the 100/700 $a values. */
  datatype MarcRecord = MarcRecord(idno: string, titleParts: seq<string>, authorFields: seq<string>)

  /** One element of `results`. */
  datatype Item = Item(caption: string, idno: string, url: string)

  /** The display title: trimmed subfields joined by a space, every `/` a space, trimmed again. */
  function Title(parts: seq<string>): string
  {
    Trim(ReplaceAll(Join(TrimEach(parts), " "), "/", " "))
  }

  /** The foreach over the title subfields, and the title built from them. */
  method CollectTitle(parts: seq<string>) returns (title: string)
    ensures title == Title(parts)
  {
    var pieces: seq<string> := [];
    for i := 0 to |parts|
      invariant pieces == TrimEach(parts[..i])
    {
      assert parts[..i + 1][..i] == parts[..i];
      pieces := pieces + [Trim(parts[i])];
    }
    assert parts[..|parts|] == parts;
    title := Trim(ReplaceAll(Join(pieces, " "), "/", " "));
  }

  lemma {:induction false} ReplaceAllRemoves(s: string, c: char, rep: string)
    requires c !in rep
    ensures c !in ReplaceAll(s, [c], rep)
    decreases |s|
  {
    if StartsWith(s, [c]) {
      ReplaceAllRemoves(s[1..], c, rep);
    } else if s != [] {
      assert s[0] != c;
      ReplaceAllRemoves(s[1..], c, rep);
    }
  }

  /** A title holds no `/` and has no blank at either end. */
  lemma {:induction false} TitleClean(parts: seq<string>)
    ensures '/' !in Title(parts)
    ensures Title(parts) != [] ==> !IsTrimmed(Title(parts)[0]) && !IsTrimmed(Title(parts)[|Title(parts)| - 1])
  {
    var j := Join(TrimEach(parts), " ");
    var t := ReplaceAll(j, "/", " ");
    assert "/" == ['/'];
    ReplaceAllRemoves(j, '/', " ");
    TrimEnds(t);
    TrimAbsent(t, '/');
  }

  /** The last name in a 100/700 $a: the text before its first comma, when there is some. */
  function LastName(value: string): (name: Option<string>)
    ensures name.Some? ==> name.value != [] && ',' !in name.value
  {
    var t := Trim(value);
    var b := Before(t, ',');
    if b != t && b != [] then Some(b) else None
  }

  /** Before() stops at the first comma: a comma-free prefix followed by a comma is what it returns. */
  lemma {:induction false} BeforeComma(t: string, name: string)
    requires ',' !in name && StartsWith(t, name + ",")
    ensures Before(t, ',') == name
    decreases |name|
  {
    if name == [] {
      assert t[0] == ',';
    } else {
      assert t[0] == name[0] && name[0] != ',';
      assert t[1..][..|name[1..] + ","|] == name[1..] + ",";
      BeforeComma(t[1..], name[1..]);
      assert name == [name[0]] + name[1..];
    }
  }

  /** `^([^,]+),` on the trimmed value: a non-empty comma-free run followed by a comma. */
  lemma {:induction false} LastNameIff(value: string, name: string)
    ensures LastName(value) == Some(name) <==> name != [] && ',' !in name && StartsWith(Trim(value), name + ",")
  {
    var t := Trim(value);
    var b := Before(t, ',');
    if name != [] && ',' !in name && StartsWith(t, name + ",") {
      BeforeComma(t, name);
      assert |b| < |t|;
    }
    if LastName(value) == Some(name) {
      assert t[..|b|] == b && t[|b|] == ',';
      assert t[..|b| + 1] == b + ",";
    }
  }

  function LastNames(fields: seq<string>): (names: seq<string>)
    ensures forall i :: 0 <= i < |names| ==> names[i] != [] && ',' !in names[i]
  {
    if fields == [] then []
    else
      var prev := LastNames(fields[..|fields| - 1]);
      match LastName(fields[|fields| - 1])
      case Some(n) => prev + [n]
      case None => prev
  }

  /** The foreach over the author fields. */
  method CollectLastNames(fields: seq<string>) returns (names: seq<string>)
    ensures names == LastNames(fields)
  {
    names := [];
    for i := 0 to |fields|
      invariant names == LastNames(fields[..i])
    {
      assert fields[..i + 1][..i] == fields[..i];
      var m := LastName(fields[i]);
      if m.Some? {
        names := names + [m.value];
      }
    }
    assert fields[..|fields|] == fields;
  }

  /** The author text: `A`, `A and B`, or `A, B, and C` for three or more. */
  function AuthorText(names: seq<string>): string
    requires names != []
  {
    var n := |names|;
    if n == 1 then names[0]
    else if n == 2 then Join(names, " and ")
    else Join(names[..n - 1], ", ") + ", and " + names[n - 1]
  }

  /**
   * The chain on count($va_author). With no last names `$vs_author` keeps whatever an
   * earlier record of the same lookup left in it.
   */
  method CombineAuthors(names: seq<string>, prev: Option<string>) returns (author: Option<string>)
    ensures author == if names == [] then prev else Some(AuthorText(names))
  {
    author := prev;
    var n := |names|;
    if n == 1 {
      author := Some(names[0]);
    } else if n == 2 {
      author := Some(Join(names, " and "));
    } else if n > 2 {
      var s := "";
      for k := 0 to n
        invariant k < n ==> s == Join(names[..k], ", ")
        invariant k == n ==> s == Join(names[..n - 1], ", ") + ", and " + names[n - 1]
      {
        if k > 0 && k < n - 1 {
          JoinSnoc(names[..k], names[k], ", ");
          assert names[..k] + [names[k]] == names[..k + 1];
          s := s + ", ";
        } else if k == n - 1 {
          s := s + ", and ";
        } else {
          assert names[..1] == [names[0]];
        }
        s := s + names[k];
      }
      author := Some(s);
    }
  }

  /** With three or more authors, splitting the text on `, ` gives the names back, the last behind `and `. */
  lemma {:induction false} AuthorsSplit(names: seq<string>)
    requires |names| > 2
    requires forall i :: 0 <= i < |names| ==> ',' !in names[i]
    ensures SplitOn(AuthorText(names), ", ") == names[..|names| - 1] + ["and " + names[|names| - 1]]
  {
    var n := |names|;
    var parts := names[..n - 1] + ["and " + names[n - 1]];
    JoinSnoc(names[..n - 1], "and " + names[n - 1], ", ");
    assert AuthorText(names) == Join(parts, ", ");
    forall i | 0 <= i < |parts| ensures ", "[0] !in parts[i] {
      if i < n - 1 {
        assert parts[i] == names[i];
      } else {
        assert parts[i] == "and " + names[n - 1];
      }
    }
    SplitJoin(parts, ", ");
  }

  /** `$vs_author` after one more record: its author text, or the previous value when it has no last names. */
  function NextAuthor(prev: Option<string>, record: MarcRecord): Option<string>
  {
    var names := LastNames(record.authorFields);
    if names == [] then prev else Some(AuthorText(names))
  }

  /** `$vs_author` after a sequence of records: the author text of the last record that had last names. */
  function AuthorAt(records: seq<MarcRecord>): Option<string>
  {
    if records == [] then None
    else NextAuthor(AuthorAt(records[..|records| - 1]), records[|records| - 1])
  }

  /** `$label`: `Author (Title)` once an author has been set, the bare title before. */
  function Label(author: Option<string>, title: string): string
  {
    match author
    case Some(a) => a + " (" + title + ")"
    case None => title
  }

  /** The label the i-th record is filed under. */
  function LabelAt(records: seq<MarcRecord>, i: nat): string
    requires i < |records|
  {
    Label(AuthorAt(records[..i + 1]), Title(records[i].titleParts))
  }

  /** `$items`: label => idno in first-insertion order, a later record with the same label replacing the idno. */
  function ItemsOf(records: seq<MarcRecord>): Entries
  {
    if records == [] then []
    else
      var n := |records| - 1;
      Put(ItemsOf(records[..n]), LabelAt(records, n), records[n].idno)
  }

  /** array_values($items), each with its library URL. */
  function Listed(items: Entries): (results: seq<Item>)
    ensures |results| == |items|
    ensures forall i :: 0 <= i < |items| ==> results[i] == Item(items[i].0, items[i].1, LibraryUrl + items[i].1)
  {
    seq(|items|, i requires 0 <= i < |items| => Item(items[i].0, items[i].1, LibraryUrl + items[i].1))
  }

  /** The body of the foreach over the records: title, last names, author text and label of one record. */
  method FileRecord(record: MarcRecord, prev: Option<string>) returns (author: Option<string>, key: string)
    ensures author == NextAuthor(prev, record)
    ensures key == Label(author, Title(record.titleParts))
  {
    var title := CollectTitle(record.titleParts);
    var names := CollectLastNames(record.authorFields);
    author := CombineAuthors(names, prev);
    key := Label(author, title);
  }

  /** One pass of lookup's foreach: the i-th record filed into the items under its label. */
  method FileInto(records: seq<MarcRecord>, i: nat, items: Entries, author: Option<string>)
    returns (items': Entries, author': Option<string>)
    requires i < |records|
    requires author == AuthorAt(records[..i]) && items == ItemsOf(records[..i])
    ensures author' == AuthorAt(records[..i + 1]) && items' == ItemsOf(records[..i + 1])
  {
    var record := records[i];
    var key;
    author', key := FileRecord(record, author);
    FileStep(records, i);
    items' := Put(items, key, record.idno);
  }

  /** Reading the i-th record: the author carried on, and the record filed under its label. */
  lemma {:induction false} FileStep(records: seq<MarcRecord>, i: nat)
    requires i < |records|
    ensures AuthorAt(records[..i + 1]) == NextAuthor(AuthorAt(records[..i]), records[i])
    ensures ItemsOf(records[..i + 1]) == Put(ItemsOf(records[..i]), LabelAt(records, i), records[i].idno)
  {
    var prefix := records[..i + 1];
    assert prefix[..i] == records[..i];
    LabelAtPrefix(records, i + 1, i);
  }

  /**
   * lookup: with an invalid non-empty service nothing is queried and the results are empty;
   * a negative `count` option (`maxCount`) makes the paging loop run zero times, so no
   * request is sent either; otherwise the JSON query is sent once (the loop always breaks
   * after its first fetch) and the records become the keyed results.
   */
  method Lookup(search: string, service: string, serviceValid: bool, maxCount: int, records: seq<MarcRecord>)
    returns (query: Option<string>, results: seq<Item>)
    ensures |service| > 0 && !serviceValid ==> query == None && results == []
    ensures maxCount < 0 ==> query == None && results == []
    ensures !(|service| > 0 && !serviceValid) && maxCount >= 0 ==>
      query == Some(JsonQuery(search)) && results == Listed(ItemsOf(records))
  {
    if |service| > 0 && !serviceValid {
      return None, [];
    }
    var count := 0;
    if !(count <= maxCount) {
      return None, [];
    }
    query := Some(JsonQuery(search));
    var items: Entries := [];
    var author: Option<string> := None;
    for i := 0 to |records|
      invariant author == AuthorAt(records[..i])
      invariant items == ItemsOf(records[..i])
    {
      items, author := FileInto(records, i, items, author);
    }
    assert records[..|records|] == records;
    results := Listed(items);
  }

  /** Records with no parsable author after the i-th keep its author: `$vs_author` is never reset. */
  lemma {:induction false} AuthorCarried(records: seq<MarcRecord>, i: nat)
    requires i < |records|
    requires forall j :: i < j < |records| ==> LastNames(records[j].authorFields) == []
    ensures AuthorAt(records) == AuthorAt(records[..i + 1])
  {
    var n := |records| - 1;
    if n > i {
      var init := records[..n];
      forall j | i < j < |init| ensures LastNames(init[j].authorFields) == [] {
        assert init[j] == records[j];
      }
      AuthorCarried(init, i);
      assert init[..i + 1] == records[..i + 1];
      AuthorKept(records);
    } else {
      assert records[..i + 1] == records;
    }
  }

  /** A last record without last names leaves the author as it was. */
  lemma {:induction false} AuthorKept(records: seq<MarcRecord>)
    requires records != [] && LastNames(records[|records| - 1].authorFields) == []
    ensures AuthorAt(records) == AuthorAt(records[..|records| - 1])
  {
  }

  /** The idno under a label: that of the last record filed under it. */
  function LastWithLabel(records: seq<MarcRecord>, key: string): Option<string>
  {
    if records == [] then None
    else if LabelAt(records, |records| - 1) == key then Some(records[|records| - 1].idno)
    else LastWithLabel(records[..|records| - 1], key)
  }

  lemma {:induction false} LabelAtPrefix(records: seq<MarcRecord>, n: nat, i: nat)
    requires i < n <= |records|
    ensures LabelAt(records[..n], i) == LabelAt(records, i)
  {
    assert records[..n][..i + 1] == records[..i + 1];
  }

  /** Each label appears once, and later duplicates win. */
  lemma {:induction false} ItemsLastWins(records: seq<MarcRecord>, key: string)
    ensures UniqueKeys(ItemsOf(records))
    ensures Get(ItemsOf(records), key) == LastWithLabel(records, key)
  {
    if records != [] {
      var n := |records| - 1;
      var init := records[..n];
      ItemsLastWins(init, key);
      PutUnique(ItemsOf(init), LabelAt(records, n), records[n].idno);
      GetPut(ItemsOf(init), LabelAt(records, n), records[n].idno, key);
    }
  }

  lemma {:induction false} LastWithLabelFinds(records: seq<MarcRecord>, key: string, i: nat)
    requires i < |records| && LabelAt(records, i) == key
    ensures LastWithLabel(records, key).Some?
    decreases |records|
  {
    var n := |records| - 1;
    if i < n {
      LabelAtPrefix(records, n, i);
      LastWithLabelFinds(records[..n], key, i);
      LastWithLabelGrows(records, key);
    } else {
      LastWithLabelHere(records, key);
    }
  }

  lemma {:induction false} LastWithLabelHere(records: seq<MarcRecord>, key: string)
    requires records != [] && LabelAt(records, |records| - 1) == key
    ensures LastWithLabel(records, key) == Some(records[|records| - 1].idno)
  {
  }

  /** A label found among the earlier records stays found when one more record is read. */
  lemma {:induction false} LastWithLabelGrows(records: seq<MarcRecord>, key: string)
    requires records != [] && LastWithLabel(records[..|records| - 1], key).Some?
    ensures LastWithLabel(records, key).Some?
  {
  }

  lemma {:induction false} LastWithLabelIndex(records: seq<MarcRecord>, key: string) returns (i: nat)
    requires LastWithLabel(records, key).Some?
    ensures i < |records| && LabelAt(records, i) == key
  {
    var n := |records| - 1;
    if LabelAt(records, n) == key {
      i := n;
    } else {
      i := LastWithLabelIndex(records[..n], key);
      LabelAtPrefix(records, n, i);
    }
  }

  /** A label is a result exactly when some record is filed under it. */
  lemma {:induction false} ItemsKeys(records: seq<MarcRecord>, key: string)
    ensures key in Keys(ItemsOf(records)) <==> exists i :: 0 <= i < |records| && LabelAt(records, i) == key
  {
    ItemsLastWins(records, key);
    GetIsIn(ItemsOf(records), key);
    if exists i :: 0 <= i < |records| && LabelAt(records, i) == key {
      var i :| 0 <= i < |records| && LabelAt(records, i) == key;
      LastWithLabelFinds(records, key, i);
    }
    if LastWithLabel(records, key).Some? {
      var i := LastWithLabelIndex(records, key);
    }
  }

  /** A result's URL, searched for again, asks for the same biblio by its id. */
  lemma {:induction false} ResultUrlRoundTrip(idno: string)
    requires idno != [] && '\n' !in idno
    ensures LibraryId(LibraryUrl + idno) == Some(idno)
    ensures JsonQuery(LibraryUrl + idno) == BiblioQuery(idno)
  {
    LibraryIdOf("http://", '.', idno);
    assert "." == ['.'];
    assert LibraryUrl + idno == "http://" + Host + ['.'] + LibraryPath + idno;
  }

  /** getExtendedInformation: a paragraph holding a link to the URL, which opens in a new window. */
  function ExtendedInformation(url: string): string
  {
    "<p><a href='" + url + "' target='_blank'>" + url + "</a></p>"
  }

  /** The display names its URL: different URLs give different displays. */
  lemma {:induction false} ExtendedInformationInjective(a: string, b: string)
    requires ExtendedInformation(a) == ExtendedInformation(b)
    ensures a == b
  {
    var head := "<p><a href='";
    assert ExtendedInformation(a)[..|head|] == head;
    assert ExtendedInformation(a) == head + a + ("' target='_blank'>" + a + "</a></p>");
    assert ExtendedInformation(b) == head + b + ("' target='_blank'>" + b + "</a></p>");
    var mid, tail := "' target='_blank'>", "</a></p>";
    assert |a| == |b| by {
      assert |ExtendedInformation(a)| == |head| + |mid| + |tail| + 2 * |a|;
      assert |ExtendedInformation(b)| == |head| + |mid| + |tail| + 2 * |b|;
    }
    assert a == ExtendedInformation(a)[|head|..|head| + |a|];
    assert b == ExtendedInformation(b)[|head|..|head| + |b|];
  }
}
