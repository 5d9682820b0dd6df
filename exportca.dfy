/**
 * exporters/export-ca.php: routes the records of a CollectiveAccess find response, exports
 * public ones to NUDS with their images, asks Numishare to delete the others, and re-queries
 * the accession numbers listed in `newImages.txt`.
 */
module ExportCa {
  import opened Common
  import opened Assoc
  import opened Records
  import opened Store
  import opened Inventory
  import opened Xml
  import opened Sanitizer
  import opened DigRep

  const Start: nat := 0
  const CaUtils: string := "/usr/local/projects/providence-2.0/support/bin/caUtils"
  const TmpNuds: string := "/tmp/nuds"
  const CaUrl: string := "https://test.numismatics.org/collectiveaccess/"

  /** How the script starts: it stops early, or it sends the first find request. */
  datatype Outcome = NoCredentials | LoginFailed | Queried(url: string)

  /**
   * Both credential files must be readable and the login must return a token; the query is
   * the first argument (see QueryFor).
   */
  function OutcomeOf(credentialsReadable: bool, arg: Option<string>, today: string, yesterday: string,
                     token: Option<string>): (o: Outcome)
    ensures o.Queried? <==> credentialsReadable && token.Some?
    ensures o.Queried? ==> o.url == FindUrl(CaUrl, QueryFor(arg, today, yesterday), token.value)
  {
    if !credentialsReadable then NoCredentials
    else if token.None? then LoginFailed
    else Queried(FindUrl(CaUrl, QueryFor(arg, today, yesterday), token.value))
  }

  /** A new image's record is found by the same request with an `idno:` query. */
  lemma {:induction false} NewImageFindUrl(accnum: string, token: string)
    ensures StartsWith(FindUrl(CaUrl, NewImageQuery(accnum), token), CaUrl + "service.php/json/find/ca_objects?q=idno:" + accnum)
  {
    assert CaUrl + "service.php/json/find/ca_objects?q=" + NewImageQuery(accnum) ==
      CaUrl + "service.php/json/find/ca_objects?q=idno:" + accnum;
  }

  /** What process_response does for one record. */
  datatype Action = ExportRecord(record: CaRecord) | DeleteFromNumishare(url: string)

  /** The action of one record once the START offset is passed. */
  function ActionOf(r: CaRecord): seq<Action>
  {
    match Classify(r)
    case Ignore => []
    case Publish => [ExportRecord(r)]
    case Withdraw => [DeleteFromNumishare(DeleteUrl(r.idno))]
  }

  /** The actions for the results, in order, skipping the positions below `start`. */
  function Actions(results: seq<CaRecord>, start: nat): seq<Action>
  {
    if results == [] then []
    else
      var n := |results| - 1;
      Actions(results[..n], start) + (if n >= start then ActionOf(results[n]) else [])
  }

  /** process_response: nothing unless the response reports a positive total. */
  method ProcessResponse(response: FindResponse, start: nat) returns (actions: seq<Action>)
    ensures actions == if response.total > 0 then Actions(response.results, start) else []
  {
    actions := [];
    if response.total > 0 {
      var results := response.results;
      var count := 0;
      while count < |results|
        invariant 0 <= count <= |results|
        invariant actions == Actions(results[..count], start)
      {
        var record := results[count];
        assert results[..count + 1][..count] == results[..count];
        if count >= start {
          if record.typeId != HoardType {
            if record.access == PublicAccess {
              actions := actions + [ExportRecord(record)];
            } else {
              actions := actions + [DeleteFromNumishare(DeleteUrl(record.idno))];
            }
          }
        }
        count := count + 1;
      }
      assert results[..|results|] == results;
    }
  }

  /** The positions below START contribute nothing: the run behaves as if the list began at START. */
  lemma {:induction false} ActionsSkip(results: seq<CaRecord>, start: nat)
    requires start <= |results|
    ensures Actions(results, start) == Actions(results[start..], 0)
  {
    if |results| == start {
      ActionsBelow(results, start);
    } else {
      var n := |results| - 1;
      ActionsSkip(results[..n], start);
      assert results[..n][start..] == results[start..][..|results[start..]| - 1];
    }
  }

  lemma {:induction false} ActionsBelow(results: seq<CaRecord>, start: nat)
    requires |results| <= start
    ensures Actions(results, start) == []
  {
    if results != [] {
      ActionsBelow(results[..|results| - 1], start);
    }
  }

  /** The record `r`, when it is no hoard and is public. */
  predicate ExportedAs(x: CaRecord, r: CaRecord)
  {
    x == r && r.typeId != HoardType && r.access == PublicAccess
  }

  /** A non-public, non-hoard record whose withdrawal calls `url`. */
  predicate DeletedAs(x: CaRecord, url: string)
  {
    x.typeId != HoardType && x.access != PublicAccess && url == DeleteUrl(x.idno)
  }

  /** A record is exported exactly when it sits at or after START, is no hoard and is public. */
  lemma {:induction false} ActionsExport(results: seq<CaRecord>, start: nat, r: CaRecord)
    ensures ExportRecord(r) in Actions(results, start) <==> exists i :: start <= i < |results| && ExportedAs(results[i], r)
  {
    if results != [] {
      var n := |results| - 1;
      var x := results[n];
      ActionsExport(results[..n], start, r);
      assert Actions(results, start) == Actions(results[..n], start) + (if n >= start then ActionOf(x) else []);
      assert ExportRecord(r) in ActionOf(x) <==> ExportedAs(x, r);
      ExistsSnoc(results, results[..n], start, y => ExportedAs(y, r));
    }
  }

  /** A deletion is requested exactly for the non-public, non-hoard records at or after START. */
  lemma {:induction false} ActionsDelete(results: seq<CaRecord>, start: nat, url: string)
    ensures DeleteFromNumishare(url) in Actions(results, start) <==> exists i :: start <= i < |results| && DeletedAs(results[i], url)
  {
    if results != [] {
      var n := |results| - 1;
      var x := results[n];
      ActionsDelete(results[..n], start, url);
      assert Actions(results, start) == Actions(results[..n], start) + (if n >= start then ActionOf(x) else []);
      assert DeleteFromNumishare(url) in ActionOf(x) <==> DeletedAs(x, url);
      ExistsSnoc(results, results[..n], start, y => DeletedAs(y, url));
    }
  }

  // ----- newImages.txt -----

  /** array_filter(): drops the values PHP reads as false, "" and "0". */
  function KeepTruthy(xs: seq<string>): seq<string>
  {
    if xs == [] then []
    else
      var a := xs[|xs| - 1];
      KeepTruthy(xs[..|xs| - 1]) + (if a != "" && a != "0" then [a] else [])
  }

  function NewImageAccnums(lines: seq<string>): seq<string>
  {
    KeepTruthy(TrimEach(lines))
  }

  /** Reads `newImages.txt` line by line, trimming each line, then filters the list. */
  method ReadNewImages(lines: seq<string>) returns (accnums: seq<string>)
    ensures accnums == NewImageAccnums(lines)
  {
    var trimmed: seq<string> := [];
    for i := 0 to |lines|
      invariant trimmed == TrimEach(lines[..i])
    {
      assert lines[..i + 1][..i] == lines[..i];
      trimmed := trimmed + [Trim(lines[i])];
    }
    assert lines[..|lines|] == lines;
    accnums := [];
    for i := 0 to |trimmed|
      invariant accnums == KeepTruthy(trimmed[..i])
    {
      assert trimmed[..i + 1][..i] == trimmed[..i];
      if trimmed[i] != "" && trimmed[i] != "0" {
        accnums := accnums + [trimmed[i]];
      }
    }
    assert trimmed[..|trimmed|] == trimmed;
  }

  /** The query re-run for a new image. */
  function NewImageQuery(accnum: string): string
  {
    "idno:" + accnum
  }

  lemma {:induction false} TrimIdempotent(s: string)
    ensures Trim(Trim(s)) == Trim(s)
  {
    TrimEnds(s);
    if Trim(s) != [] {
      TrimKeeps(Trim(s));
    }
  }

  /** array_filter keeps exactly the values other than "" and "0", in order. */
  lemma {:induction false} KeepTruthyExact(xs: seq<string>, a: string)
    ensures a in KeepTruthy(xs) <==> a in xs && a != "" && a != "0"
  {
    if xs != [] {
      var n := |xs| - 1;
      KeepTruthyExact(xs[..n], a);
      assert xs == xs[..n] + [xs[n]];
    }
  }

  /** Every queried accession number is a trimmed line other than "" and "0", and every such line is queried. */
  lemma {:induction false} NewImageAccnumsExact(lines: seq<string>, a: string)
    ensures a in NewImageAccnums(lines) <==> exists i :: 0 <= i < |lines| && a == Trim(lines[i]) && a != "" && a != "0"
    ensures a in NewImageAccnums(lines) ==> Trim(a) == a
  {
    var t := TrimEach(lines);
    KeepTruthyExact(t, a);
    if a in t {
      var i :| 0 <= i < |t| && t[i] == a;
      TrimEachAt(lines, i);
      TrimIdempotent(lines[i]);
    }
    if exists i :: 0 <= i < |lines| && a == Trim(lines[i]) && a != "" && a != "0" {
      var i :| 0 <= i < |lines| && a == Trim(lines[i]) && a != "" && a != "0";
      TrimEachAt(lines, i);
    }
  }

  // ----- export_record -----

  /** What export_record produces for one record. */
  datatype ExportOutcome = ExportOutcome(fileName: string, command: string, images: Entries, document: Node)

  function ExportFileName(accnum: string): string
  {
    StagingPath(TmpNuds, accnum)
  }

  /**
   * export_record: collect the images of the record, start caUtils in the background, then
   * clean the NUDS document caUtils wrote (given here as `nuds`) and, if there are images,
   * append the digRep section to its root.
   */
  method ExportRecordRun(imageFiles: seq<string>, record: CaRecord, nuds: Node) returns (out: ExportOutcome)
    requires nuds.Element?
    ensures out.fileName == StagingPath(TmpNuds, record.idno)
    ensures out.command == "nohup " + ExportCommand(CaUtils, record.id, out.fileName) + " 2>&1 &"
    ensures out.images == ImagesFor(imageFiles, record.idno)
    ensures out.images == [] ==> out.document == Sanitize(nuds, true)
    ensures out.images != [] ==> out.document == AppendChild(Sanitize(nuds, false), DigRepOf(record.idno, out.images))
  {
    var accnum := record.idno;
    var images := CollectImages(imageFiles, accnum);
    var fileName := ExportFileName(accnum);
    var cmd := ExportCommand(CaUtils, record.id, fileName);
    var document: Node;
    if |images| > 0 {
      var digRep := WriteDigRep(accnum, images);
      SanitizeShape(nuds, false);
      document := AppendChild(Sanitize(nuds, false), digRep);
    } else {
      document := Sanitize(nuds, true);
    }
    out := ExportOutcome(fileName, "nohup " + cmd + " 2>&1 &", images, document);
  }

  /**
   * With images, the stored document is the cleaned NUDS root with the digRep as its new last
   * child, holding one file group per side; the dates are cleaned only without images.
   */
  lemma {:induction false} ExportedDocument(imageFiles: seq<string>, accnum: string, nuds: Node)
    requires nuds.Element?
    requires ImagesFor(imageFiles, accnum) != []
    ensures var doc := AppendChild(Sanitize(nuds, false), DigRepOf(accnum, ImagesFor(imageFiles, accnum)));
      doc.name == nuds.name && |doc.children| == |nuds.children| + 1 &&
      doc.children[|nuds.children|].name == "digRep" &&
      |doc.children[|nuds.children|].children[0].children| == |ImagesFor(imageFiles, accnum)|
  {
    var images := ImagesFor(imageFiles, accnum);
    SanitizeShape(nuds, false);
    ImagesForLastWins(imageFiles, accnum, "");
    FileGroupsCount(accnum, images);
  }

  /** When the record has images and the files come from the inventory, its year is four digits, so it has a bucket unless it is 2050 or later. */
  lemma {:induction false} ExportYear(imageFiles: seq<string>, accnum: string)
    requires forall f :: f in imageFiles ==> IsImageName(f)
    requires ImagesFor(imageFiles, accnum) != []
    ensures |YearOf(accnum)| == 4 && AllDigits(YearOf(accnum))
    ensures YearBucket(YearOf(accnum)).Some? <==> DecimalValue(YearOf(accnum)) < 2050
  {
    var images := ImagesFor(imageFiles, accnum);
    var side := images[0].0;
    assert Keys(images)[0] == side;
    ImagesForKeys(imageFiles, accnum, side);
    var i :| 0 <= i < |imageFiles| && SideOf(accnum, imageFiles[i]) == Some(side);
    MatchedYearIsFourDigits(accnum, imageFiles[i]);
    YearBucketRange(YearOf(accnum));
  }
}
