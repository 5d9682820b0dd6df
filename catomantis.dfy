/**
 * exporters/ca-to-mantis.php: publishes the records of a CollectiveAccess find response
 * straight into a Numishare collection. A public record is exported with caUtils and PUT to
 * eXist-db; each one stored (status 201) joins the batch, and the batch is indexed into Solr
 * in jobs of 500. Any other non-hoard record is deleted from eXist-db and from Solr.
 *
 * The outcome of each PUT (the temporary file could not be opened, or the HTTP status) is an
 * input of the model, as is the date written into error lines.
 */
module CaToMantis {
  import opened Common
  import opened Records
  import opened Store
  import opened IndexBatch

  const IndexCount: nat := 500
  const CaUtils: string := "/usr/local/projects/providence-1.7.12/support/bin/caUtils"
  const SolrUrl: string := "http://localhost:8983/solr/numishare/update/"
  const NumishareUrl: string := "http://localhost:8080/orbeon/numishare/"
  const Commit: string := "<commit/>"
  const CaUrl: string := "http://localhost/collectiveaccess/"

  /** How the script starts: it stops early, or it sends a find request. */
  datatype Outcome = NoCredentials | MissingCollectionArgument | CollectionNotFound | LoginFailed | Queried(url: string)

  /**
   * The first argument names the collection, which must exist in eXist-db; the second is the
   * query (see QueryFor). The find request goes to the plain `service.php/find` endpoint.
   */
  function OutcomeOf(credentialsReadable: bool, collection: Option<string>, collectionFound: bool,
                     arg: Option<string>, today: string, yesterday: string, token: Option<string>): (o: Outcome)
    ensures o.Queried? <==> credentialsReadable && collection.Some? && collectionFound && token.Some?
    ensures o.Queried? ==>
      o.url == CaUrl + "service.php/find/ca_objects?q=" + QueryFor(arg, today, yesterday) + "&pretty=1&authToken=" + token.value
    ensures credentialsReadable && collection.None? ==> o == MissingCollectionArgument
  {
    if !credentialsReadable then NoCredentials
    else if collection.None? then MissingCollectionArgument
    else if !collectionFound then CollectionNotFound
    else if token.None? then LoginFailed
    else Queried(CaUrl + "service.php/find/ca_objects?q=" + QueryFor(arg, today, yesterday) + "&pretty=1&authToken=" + token.value)
  }

  /** The requests a run sends, in order. */
  datatype Request =
    | RunCaUtils(command: string)
    | PutDocument(url: string)
    | DeleteDocument(url: string)
    | PostSolr(url: string, body: string)

  /** What became of the PUT of one exported record. */
  datatype PutResult = Unopenable | Status(code: int)

  /** The temporary file caUtils writes a record to. */
  function TmpFile(accnum: string): string
  {
    StagingPath("/tmp", accnum)
  }

  /** Solr's delete-by-query for one record. */
  function SolrDeleteXml(accnum: string): string
  {
    "<delete><query>recordId:\"" + accnum + "\"</query></delete>"
  }

  /** The delete query names exactly one record id. */
  lemma {:induction false} SolrDeleteXmlInjective(a: string, b: string)
    requires SolrDeleteXml(a) == SolrDeleteXml(b)
    ensures a == b
  {
    var head := "<delete><query>recordId:\"";
    var tail := "\"</query></delete>";
    assert SolrDeleteXml(a) == head + a + tail && SolrDeleteXml(b) == head + b + tail;
    assert a == SolrDeleteXml(a)[|head|..|head| + |a|];
    assert b == SolrDeleteXml(b)[|head|..|head| + |b|];
  }

  /** update_record_in_numishare: export, then PUT unless the exported file cannot be opened. */
  function UpdateRequests(r: CaRecord, collection: string, existUrl: string, put: PutResult): seq<Request>
  {
    [RunCaUtils(ExportCommand(CaUtils, r.id, TmpFile(r.idno)))] +
    (if put.Unopenable? then [] else [PutDocument(StoreUrl(existUrl, collection, r.idno))])
  }

  /**
   * delete_record_from_numishare: DELETE from eXist-db, then the Solr delete and a commit.
   * curl_error() returns a string, never FALSE, so the Solr steps always follow.
   */
  function DeleteRequests(r: CaRecord, collection: string, existUrl: string): seq<Request>
  {
    [DeleteDocument(StoreUrl(existUrl, collection, r.idno)), PostSolr(SolrUrl, SolrDeleteXml(r.idno)), PostSolr(SolrUrl, Commit)]
  }

  /** PUT and DELETE of one record address the same document. */
  lemma {:induction false} SameDocument(r: CaRecord, collection: string, existUrl: string, put: PutResult)
    requires put.Status?
    ensures UpdateRequests(r, collection, existUrl, put)[1].url == DeleteRequests(r, collection, existUrl)[0].url
  {
  }

  function RecordRequests(r: CaRecord, collection: string, existUrl: string, put: PutResult): seq<Request>
  {
    match Classify(r)
    case Ignore => []
    case Publish => UpdateRequests(r, collection, existUrl, put)
    case Withdraw => DeleteRequests(r, collection, existUrl)
  }

  /** The ids a record adds to the batch: its own, when it is public and its PUT returned 201. */
  function StoredIds(r: CaRecord, put: PutResult): seq<string>
  {
    if Classify(r) == Publish && put == Status(201) then [r.idno] else []
  }

  /** The error lines a record adds: one, when it is public and its file could not be opened. */
  function OpenErrors(r: CaRecord, put: PutResult, date: string): seq<string>
  {
    if Classify(r) == Publish && put == Unopenable then [OpenFailure(r.idno, date)] else []
  }

  function Requests(results: seq<CaRecord>, collection: string, existUrl: string, put: CaRecord -> PutResult): seq<Request>
  {
    if results == [] then []
    else
      var r := results[|results| - 1];
      Requests(results[..|results| - 1], collection, existUrl, put) + RecordRequests(r, collection, existUrl, put(r))
  }

  /** The batch a response contributes: the stored public records, in result order. */
  function Stored(results: seq<CaRecord>, put: CaRecord -> PutResult): seq<string>
  {
    if results == [] then []
    else
      var r := results[|results| - 1];
      Stored(results[..|results| - 1], put) + StoredIds(r, put(r))
  }

  function Errors(results: seq<CaRecord>, put: CaRecord -> PutResult, date: string): seq<string>
  {
    if results == [] then []
    else
      var r := results[|results| - 1];
      Errors(results[..|results| - 1], put, date) + OpenErrors(r, put(r), date)
  }

  /** update_record_in_numishare for one public record. */
  method Update(state: RunState, r: CaRecord, collection: string, existUrl: string, put: PutResult, date: string)
    returns (reqs: seq<Request>)
    requires state.Valid() && Classify(r) == Publish
    modifies state
    ensures state.Valid()
    ensures reqs == UpdateRequests(r, collection, existUrl, put)
    ensures state.accnums == old(state.accnums) + StoredIds(r, put)
    ensures state.errors == old(state.errors) + OpenErrors(r, put, date)
  {
    var accnum := r.idno;
    var fileUrl := StoreUrl(existUrl, collection, accnum);
    var fileName := TmpFile(accnum);
    var cmd := ExportCommand(CaUtils, r.id, fileName);
    reqs := [RunCaUtils(cmd)];
    match put {
      case Unopenable =>
        state.AddError(OpenFailure(accnum, date));
      case Status(code) =>
        reqs := reqs + [PutDocument(fileUrl)];
        if code == 201 {
          state.Add(accnum);
        }
    }
  }

  /** One record of process_response: hoards are skipped, public records updated, the rest deleted. */
  method Handle(state: RunState, r: CaRecord, collection: string, existUrl: string, put: PutResult, date: string)
    returns (reqs: seq<Request>)
    requires state.Valid()
    modifies state
    ensures state.Valid()
    ensures reqs == RecordRequests(r, collection, existUrl, put)
    ensures state.accnums == old(state.accnums) + StoredIds(r, put)
    ensures state.errors == old(state.errors) + OpenErrors(r, put, date)
  {
    reqs := [];
    if r.typeId != HoardType {
      if r.access == PublicAccess {
        reqs := Update(state, r, collection, existUrl, put, date);
      } else {
        reqs := DeleteRequests(r, collection, existUrl);
      }
    }
  }

  /** Record `i` extends the requests of the records before it by its own. */
  lemma {:induction false} RequestsStep(results: seq<CaRecord>, i: nat, collection: string, existUrl: string,
                     put: CaRecord -> PutResult, reqs: seq<Request>, more: seq<Request>)
    requires i < |results| && reqs == Requests(results[..i], collection, existUrl, put)
    requires more == RecordRequests(results[i], collection, existUrl, put(results[i]))
    ensures reqs + more == Requests(results[..i + 1], collection, existUrl, put)
  {
    assert results[..i + 1][..i] == results[..i];
  }

  /** Record `i` extends the batch of the records before it by its stored id. */
  lemma {:induction false} StoredStep(results: seq<CaRecord>, i: nat, put: CaRecord -> PutResult, base: seq<string>, acc: seq<string>)
    requires i < |results| && acc == base + Stored(results[..i], put)
    ensures acc + StoredIds(results[i], put(results[i])) == base + Stored(results[..i + 1], put)
  {
    assert results[..i + 1][..i] == results[..i];
  }

  /** Record `i` extends the errors of the records before it by its own. */
  lemma {:induction false} ErrorsStep(results: seq<CaRecord>, i: nat, put: CaRecord -> PutResult, date: string, base: seq<string>, acc: seq<string>)
    requires i < |results| && acc == base + Errors(results[..i], put, date)
    ensures acc + OpenErrors(results[i], put(results[i]), date) == base + Errors(results[..i + 1], put, date)
  {
    assert results[..i + 1][..i] == results[..i];
  }

  /** process_response: the records in order, when the response reports a positive total. */
  method ProcessResponse(state: RunState, response: FindResponse, collection: string, existUrl: string,
                         put: CaRecord -> PutResult, date: string)
    returns (reqs: seq<Request>)
    requires state.Valid()
    modifies state
    ensures state.Valid()
    ensures response.total <= 0 ==> reqs == [] && state.accnums == old(state.accnums) && state.errors == old(state.errors)
    ensures response.total > 0 ==>
      reqs == Requests(response.results, collection, existUrl, put) &&
      state.accnums == old(state.accnums) + Stored(response.results, put) &&
      state.errors == old(state.errors) + Errors(response.results, put, date)
  {
    reqs := [];
    if response.total > 0 {
      var results := response.results;
      ghost var accnums0 := state.accnums;
      ghost var errors0 := state.errors;
      for i := 0 to |results|
        invariant state.Valid()
        invariant reqs == Requests(results[..i], collection, existUrl, put)
        invariant state.accnums == accnums0 + Stored(results[..i], put)
        invariant state.errors == errors0 + Errors(results[..i], put, date)
      {
        var record := results[i];
        StoredStep(results, i, put, accnums0, state.accnums);
        ErrorsStep(results, i, put, date, errors0, state.errors);
        var more := Handle(state, record, collection, existUrl, put(record), date);
        RequestsStep(results, i, collection, existUrl, put, reqs, more);
        reqs := reqs + more;
      }
      assert results[..|results|] == results;
    }
  }

  /**
   * The whole run for one response: a fresh batch, the records, then the final flush. The
   * jobs, concatenated, are exactly the stored records in result order.
   */
  method Run(response: FindResponse, collection: string, existUrl: string, put: CaRecord -> PutResult, date: string)
    returns (state: RunState, reqs: seq<Request>)
    ensures state.accnums == (if response.total > 0 then Stored(response.results, put) else [])
    ensures state.jobs == AllJobs(state.accnums, IndexCount)
    ensures Flatten(state.jobs) == state.accnums
  {
    state := new RunState(IndexCount);
    reqs := ProcessResponse(state, response, collection, existUrl, put, date);
    state.Finish();
  }

  /** The index script for one job; this script always ingests into the `mantis` collection. */
  function JobScript(job: seq<string>, uniqid: string): string
  {
    IndexScript(IngestUrl(NumishareUrl, Mantis, job), SolrUrl, uniqid)
  }

  /** A record whose id is `a`, that is public and no hoard, and whose PUT returned 201. */
  predicate StoredOn(r: CaRecord, put: CaRecord -> PutResult, a: string)
  {
    r.idno == a && r.typeId != HoardType && r.access == PublicAccess && put(r) == Status(201)
  }

  /** A record id is in the batch exactly when the record is public, no hoard, and its PUT returned 201. */
  lemma {:induction false} StoredExact(results: seq<CaRecord>, put: CaRecord -> PutResult, a: string)
    ensures a in Stored(results, put) <==> exists i :: 0 <= i < |results| && StoredOn(results[i], put, a)
  {
    if results != [] {
      var n := |results| - 1;
      var init := results[..n];
      var r := results[n];
      StoredExact(init, put, a);
      assert Stored(results, put) == Stored(init, put) + StoredIds(r, put(r));
      assert a in StoredIds(r, put(r)) <==> StoredOn(r, put, a);
      ExistsSnoc(results, init, 0, x => StoredOn(x, put, a));
    }
  }

  /** The error line of a public record whose exported file could not be opened. */
  predicate FailedOn(r: CaRecord, put: CaRecord -> PutResult, date: string, line: string)
  {
    r.typeId != HoardType && r.access == PublicAccess && put(r) == Unopenable && line == OpenFailure(r.idno, date)
  }

  /** The one record's share of the error lines. */
  lemma {:induction false} OpenErrorsOn(r: CaRecord, put: CaRecord -> PutResult, date: string, line: string)
    ensures line in OpenErrors(r, put(r), date) <==> FailedOn(r, put, date, line)
  {
  }

  /** Every error line comes from a public record whose exported file could not be opened. */
  lemma {:induction false} ErrorsExact(results: seq<CaRecord>, put: CaRecord -> PutResult, date: string, line: string)
    ensures line in Errors(results, put, date) <==> exists i :: 0 <= i < |results| && FailedOn(results[i], put, date, line)
  {
    if results != [] {
      var n := |results| - 1;
      var init := results[..n];
      ErrorsExact(init, put, date, line);
      var r := results[n];
      assert Errors(results, put, date) == Errors(init, put, date) + OpenErrors(r, put(r), date);
      OpenErrorsOn(r, put, date, line);
      ExistsSnoc(results, init, 0, x => FailedOn(x, put, date, line));
    }
  }
}
