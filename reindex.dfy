/**
 * exporters/reindex-query.php: re-indexes into the `mantis` collection the records a
 * CollectiveAccess query returns. Public records are batched straight away (nothing is
 * exported or stored first) and the batch is written out as index scripts in jobs of 500;
 * non-public records are withdrawn through the Numishare delete service. The batch is local
 * to one response.
 *
 * Whether the credential files are readable and the authToken a login returns are inputs.
 */
module Reindex {
  import opened Common
  import opened Records
  import opened Store
  import opened IndexBatch

  const IndexCount: nat := 500
  const Start: nat := 0
  const CaUrl: string := "https://test.numismatics.org/collectiveaccess/"
  const SolrUrl: string := "http://localhost:8983/solr/numishare/update/"
  const NumishareUrl: string := "http://localhost:8080/orbeon/numishare/"

  /** How the script starts: it stops early, or it sends a find request. */
  datatype Outcome = NoCredentials | NoQuery | LoginFailed | Queried(url: string)

  /**
   * The query is the first argument verbatim; without it nothing is queried, and there is
   * no default.
   */
  function OutcomeOf(credentialsReadable: bool, arg: Option<string>, token: Option<string>): (o: Outcome)
    ensures o.Queried? <==> credentialsReadable && arg.Some? && token.Some?
    ensures o.Queried? ==> o.url == FindUrl(CaUrl, arg.value, token.value)
    ensures credentialsReadable && arg.None? ==> o == NoQuery
  {
    if !credentialsReadable then NoCredentials
    else if arg.None? then NoQuery
    else if token.None? then LoginFailed
    else Queried(FindUrl(CaUrl, arg.value, token.value))
  }

  /** The ids the records at positions from `start` on add to the batch: every public non-hoard idno. */
  function Batch(results: seq<CaRecord>, start: nat): seq<string>
  {
    if results == [] then []
    else
      var n := |results| - 1;
      Batch(results[..n], start) + (if n >= start && Classify(results[n]) == Publish then [results[n].idno] else [])
  }

  /** The delete-service calls for the records at positions from `start` on. */
  function Deletes(results: seq<CaRecord>, start: nat): seq<string>
  {
    if results == [] then []
    else
      var n := |results| - 1;
      Deletes(results[..n], start) + (if n >= start && Classify(results[n]) == Withdraw then [DeleteUrl(results[n].idno)] else [])
  }

  /**
   * process_response: a fresh batch per response, filled while `$count` walks the results,
   * flushed every 500 ids and once more at the end when it is not empty. The batch starts
   * empty here; the script never assigns it before the first public record (FinalCountFails).
   */
  method ProcessResponse(response: FindResponse, start: nat) returns (batch: RunState, deletes: seq<string>)
    ensures batch.threshold == IndexCount && batch.errors == []
    ensures response.total > 0 ==>
      batch.accnums == Batch(response.results, start) &&
      deletes == Deletes(response.results, start) &&
      batch.jobs == AllJobs(batch.accnums, IndexCount)
    ensures response.total <= 0 ==> batch.accnums == [] && deletes == [] && batch.jobs == []
    ensures Flatten(batch.jobs) == batch.accnums
    ensures response.total > 0 && batch.accnums == [] ==> batch.jobs == [] && deletes == Deletes(response.results, start)
  {
    batch := new RunState(IndexCount);
    deletes := [];
    if response.total > 0 {
      var results := response.results;
      var count := 0;
      while count < |results|
        invariant 0 <= count <= |results|
        invariant batch.Valid() && batch.threshold == IndexCount && batch.errors == []
        invariant batch.accnums == Batch(results[..count], start)
        invariant deletes == Deletes(results[..count], start)
        modifies batch
      {
        var record := results[count];
        assert results[..count + 1][..count] == results[..count];
        assert results[..count + 1][count] == record;
        if count >= start {
          if record.typeId != HoardType {
            if record.access == PublicAccess {
              batch.Add(record.idno);
            } else {
              deletes := deletes + [DeleteUrl(record.idno)];
            }
          }
        }
        count := count + 1;
      }
      assert results[..|results|] == results;
      batch.Finish();
    }
  }

  /** The index script of one job: written for `mantis`, and left for an operator to run. */
  function JobScript(job: seq<string>, uniqid: string): string
  {
    IndexScript(IngestUrl(NumishareUrl, Mantis, job), SolrUrl, uniqid)
  }

  /** A public non-hoard record with idno `a`. */
  predicate BatchedAs(r: CaRecord, a: string)
  {
    Classify(r) == Publish && r.idno == a
  }

  /** A record's idno is batched exactly when it sits at or after `start` and is public and no hoard. */
  lemma {:induction false} BatchExact(results: seq<CaRecord>, start: nat, a: string)
    ensures a in Batch(results, start) <==> exists i :: start <= i < |results| && BatchedAs(results[i], a)
  {
    if results != [] {
      var n := |results| - 1;
      var init := results[..n];
      BatchExact(init, start, a);
      assert Batch(results, start) == Batch(init, start) + (if n >= start && Classify(results[n]) == Publish then [results[n].idno] else []);
      ExistsSnoc(results, init, start, x => BatchedAs(x, a));
    }
  }

  /** Every public non-hoard record adds one id: the batch is as long as there are such records. */
  lemma {:induction false} BatchCount(results: seq<CaRecord>, start: nat)
    ensures |Batch(results, start)| + |Deletes(results, start)| <= |results|
    ensures |Batch(results, start)| == |PublicFrom(results, start)|
  {
    if results != [] {
      var n := |results| - 1;
      var init := results[..n];
      BatchCount(init, start);
      PublicFromStep(results, start);
    }
  }

  /** The positions at or after `start` that hold public non-hoard records. */
  function PublicFrom(results: seq<CaRecord>, start: nat): set<nat>
  {
    set i: nat | start <= i < |results| && Classify(results[i]) == Publish
  }

  /** Reading one more record adds its position when it is public, no hoard, and at or after `start`. */
  lemma {:induction false} PublicFromStep(results: seq<CaRecord>, start: nat)
    requires results != []
    ensures var n := |results| - 1;
      PublicFrom(results, start) ==
        PublicFrom(results[..n], start) + (if n >= start && Classify(results[n]) == Publish then {n} else {})
    ensures |results| - 1 !in PublicFrom(results[..|results| - 1], start)
  {
    var n := |results| - 1;
    forall i: nat | i < n ensures results[i] == results[..n][i] { }
  }

  /**
   * As written, `$accnums` is local to process_response and first assigned when a record is
   * batched; the final `count($accnums)` reads it undefined, which PHP 8 answers with a
   * TypeError after the deletes were sent, exactly when a positive total brings no public
   * non-hoard record at or after `start`.
   */
  predicate FinalCountFails(response: FindResponse, start: nat)
  {
    response.total > 0 && forall i :: start <= i < |response.results| ==> Classify(response.results[i]) != Publish
  }

  /** The as-written failure strikes exactly the responses whose batch, started empty, stays empty. */
  lemma {:induction false} FinalCountFailsIff(response: FindResponse, start: nat)
    ensures FinalCountFails(response, start) <==> response.total > 0 && Batch(response.results, start) == []
  {
    var results := response.results;
    BatchCount(results, start);
    if Batch(results, start) == [] {
      assert PublicFrom(results, start) == {};
      forall i | start <= i < |results| ensures Classify(results[i]) != Publish {
        assert i !in PublicFrom(results, start);
      }
    } else {
      var i :| i in PublicFrom(results, start);
      assert start <= i < |results| && Classify(results[i]) == Publish;
    }
  }

  /** One non-public record at START = 0: the delete is sent, and then the final count fails. */
  lemma UndefinedBatchExample()
    ensures var r := CaRecord("1", "2020.1.1", "nmo:Coin", "restricted");
      FinalCountFails(FindResponse(1, [r]), 0) && Deletes([r], 0) == [DeleteUrl(r.idno)]
  {
    var r := CaRecord("1", "2020.1.1", "nmo:Coin", "restricted");
    assert [r][..0] == [];
  }

  /** A mid-run flush emits only full jobs: every job but the last holds exactly 500 ids. */
  lemma {:induction false} FullJobs(ids: seq<string>)
    ensures forall j :: 0 <= j < |AllJobs(ids, IndexCount)| - 1 ==> |AllJobs(ids, IndexCount)[j]| == IndexCount
  {
    ChunksSizes(ids, IndexCount);
    FinalJobSize(ids, IndexCount);
  }
}
