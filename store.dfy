/**
 * Where a record lives in the eXist-db document store, and the staging file names that
 * carry records between the exporter and the importer.
 */
module Store {
  import opened Common

  const Mantis: string := "mantis"
  const XmlSuffix: string := ".xml"

  /**
   * The document URL used for both PUT and DELETE: the `mantis` collection files a record
   * under a directory named by the first four characters of its accession number, every
   * other collection is flat.
   */
  function StoreUrl(existUrl: string, collection: string, accnum: string): (url: string)
    ensures StartsWith(url, existUrl + collection + "/objects/")
    ensures EndsWith(url, accnum + XmlSuffix)
    ensures collection != Mantis ==> |url| == |existUrl + collection + "/objects/"| + |accnum| + 4
    ensures collection == Mantis ==>
      url[|existUrl + collection + "/objects/"|..] == Prefix(accnum, 4) + "/" + accnum + XmlSuffix
  {
    var base := existUrl + collection + "/objects/";
    var tail := if collection == Mantis then Prefix(accnum, 4) + "/" + accnum + XmlSuffix else accnum + XmlSuffix;
    var url := base + tail;
    assert url[..|base|] == base;
    assert url[|base|..] == tail;
    assert tail[|tail| - |accnum + XmlSuffix|..] == accnum + XmlSuffix;
    assert url[|url| - |accnum + XmlSuffix|..] == accnum + XmlSuffix;
    url
  }

  /** Two records of one collection never share a document URL. */
  lemma {:induction false} StoreUrlInjective(existUrl: string, collection: string, a: string, b: string)
    requires StoreUrl(existUrl, collection, a) == StoreUrl(existUrl, collection, b)
    ensures a == b
  {
    var base := existUrl + collection + "/objects/";
    var ua := StoreUrl(existUrl, collection, a);
    var ub := StoreUrl(existUrl, collection, b);
    if collection == Mantis {
      var ta := Prefix(a, 4) + "/" + a + XmlSuffix;
      var tb := Prefix(b, 4) + "/" + b + XmlSuffix;
      assert ta == ua[|base|..] == ub[|base|..] == tb;
      var pa := |Prefix(a, 4)|;
      var pb := |Prefix(b, 4)|;
      assert |ta| == pa + 1 + |a| + 4 && |tb| == pb + 1 + |b| + 4;
      assert pa == pb;
      assert a == ta[pa + 1..pa + 1 + |a|];
      assert b == tb[pb + 1..pb + 1 + |b|];
    } else {
      assert a == ua[|base|..|base| + |a|];
      assert b == ub[|base|..|base| + |b|];
    }
  }

  /** The staging file a record is written to: `<dir>/<accnum>.xml`. */
  function StagingPath(dir: string, accnum: string): (path: string)
    ensures path == dir + "/" + StagingName(accnum)
  {
    dir + "/" + accnum + XmlSuffix
  }

  /** The file name of a staged record inside its directory. */
  function StagingName(accnum: string): (name: string)
    ensures EndsWith(name, XmlSuffix) && StartsWith(name, accnum)
  {
    var name := accnum + XmlSuffix;
    assert name[..|accnum|] == accnum;
    assert name[|name| - 4..] == XmlSuffix;
    name
  }

  /** The importer's accession number for a staged file: the name with every `.xml` removed. */
  function AccnumOf(fileName: string): string
  {
    ReplaceAll(fileName, XmlSuffix, "")
  }

  /** A file name without `.xml` in it is taken as the accession number unchanged. */
  lemma {:induction false} AccnumOfPlain(s: string)
    requires !Contains(s, XmlSuffix)
    ensures AccnumOf(s) == s
    decreases |s|
  {
    if s != [] {
      assert !StartsWith(s, XmlSuffix);
      AccnumOfPlain(s[1..]);
      assert s == [s[0]] + s[1..];
    }
  }

  /**
   * Staging a record and reading its name back gives the accession number again, provided
   * the accession number does not itself contain `.xml`.
   */
  lemma {:induction false} AccnumOfStagingName(accnum: string)
    requires !Contains(accnum, XmlSuffix)
    ensures AccnumOf(StagingName(accnum)) == accnum
    decreases |accnum|
  {
    if accnum == [] {
      AccnumOfDropsSuffix([]);
      assert XmlSuffix + [] == XmlSuffix;
    } else {
      var s := accnum + XmlSuffix;
      StagedNotAtSuffix(accnum);
      AccnumOfSkipsHead(s);
      AccnumOfStagingName(accnum[1..]);
      assert s[1..] == accnum[1..] + XmlSuffix;
      assert s[0] == accnum[0];
      assert accnum == [accnum[0]] + accnum[1..];
    }
  }

  /** A name that does not start with `.xml` keeps its first character. */
  lemma {:induction false} AccnumOfSkipsHead(s: string)
    requires s != [] && !StartsWith(s, XmlSuffix)
    ensures AccnumOf(s) == [s[0]] + AccnumOf(s[1..])
  {
  }

  /** A non-empty accession number without `.xml` in it does not put `.xml` at the head of its staging name. */
  lemma {:induction false} StagedNotAtSuffix(accnum: string)
    requires accnum != [] && !Contains(accnum, XmlSuffix)
    ensures !StartsWith(accnum + XmlSuffix, XmlSuffix) && !Contains(accnum[1..], XmlSuffix)
  {
    var s := accnum + XmlSuffix;
    if |accnum| >= 4 {
      assert accnum[..4] == s[..4];
    } else {
      assert s[|accnum|] == '.';
    }
  }

  /** Removing `.xml` from a name that starts with it continues after it. */
  lemma {:induction false} AccnumOfDropsSuffix(s: string)
    ensures AccnumOf(XmlSuffix + s) == AccnumOf(s)
  {
    var n := XmlSuffix + s;
    assert n[..4] == XmlSuffix;
    assert n[4..] == s;
  }

  /** A character other than `.` at the head of a name is kept. */
  lemma {:induction false} AccnumOfKeepsHead(c: char, s: string)
    requires c != '.'
    ensures AccnumOf([c] + s) == [c] + AccnumOf(s)
  {
    var n := [c] + s;
    assert !StartsWith(n, XmlSuffix) by { assert n[0] == c; }
    assert n[1..] == s;
  }

  /** An accession number containing `.xml` does not survive the round trip: the importer would look up another record. */
  lemma {:induction false} AccnumOfLossy()
    ensures AccnumOf(StagingName("1.xml2")) == "12"
  {
    var tail := ['2'] + XmlSuffix;
    assert "1.xml2" + XmlSuffix == ['1'] + (XmlSuffix + tail);
    AccnumOfKeepsHead('1', XmlSuffix + tail);
    AccnumOfDropsSuffix(tail);
    AccnumOfKeepsHead('2', XmlSuffix);
    AccnumOfDropsSuffix([]);
    assert XmlSuffix + [] == XmlSuffix;
    assert ReplaceAll([], XmlSuffix, "") == [];
  }
}
