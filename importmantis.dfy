/**
 * exporters/import-mantis.php: publishes the NUDS files unzipped into `/tmp/nuds` into an
 * eXist-db collection named on the command line. Every listed file except `.` and `..` is
 * read back as an accession number, PUT to the collection, and joins the batch on status
 * 201; the batch is indexed in jobs of 250 into the same collection.
 *
 * The directory listing (in the ascending order `scandir` returns), whether the collection
 * exists, whether the upload could be unzipped, and the outcome of each PUT are inputs.
 */
module ImportMantis {
  import opened Common
  import opened Store
  import opened IndexBatch

  const IndexCount: nat := 250
  const SolrUrl: string := "http://localhost:8983/solr/numishare/update/"
  const NumishareUrl: string := "http://localhost:8080/orbeon/numishare/"
  const TmpNuds: string := "/tmp/nuds"

  /** What became of one staged file: it could not be opened, or the PUT answered with a status. */
  datatype PutResult = Unopenable | Status(code: int)

  /** The listing entries that name files: everything but `.` and `..`. */
  predicate IsFileEntry(file: string)
  {
    file != "." && file != ".."
  }

  /** The PUT request for one staged record, when its file could be opened. */
  function PutRequests(accnum: string, collection: string, existUrl: string, put: PutResult): seq<string>
  {
    if put.Unopenable? then [] else [StoreUrl(existUrl, collection, accnum)]
  }

  /** An entry that names a file whose PUT returned 201. */
  predicate Stores(file: string, put: string -> PutResult)
  {
    IsFileEntry(file) && put(AccnumOf(file)) == Status(201)
  }

  /** The ids an entry adds to the batch: its accession number, when the PUT returned 201. */
  function StoredIds(file: string, put: string -> PutResult): seq<string>
  {
    if Stores(file, put) then [AccnumOf(file)] else []
  }

  function OpenErrors(file: string, put: string -> PutResult, date: string): seq<string>
  {
    if IsFileEntry(file) && put(AccnumOf(file)) == Unopenable then [OpenFailure(AccnumOf(file), date)] else []
  }

  function EntryPuts(file: string, collection: string, existUrl: string, put: string -> PutResult): seq<string>
  {
    if IsFileEntry(file) then PutRequests(AccnumOf(file), collection, existUrl, put(AccnumOf(file))) else []
  }

  /** The document URLs PUT for a listing, in listing order. */
  function Puts(files: seq<string>, collection: string, existUrl: string, put: string -> PutResult): seq<string>
  {
    if files == [] then []
    else Puts(files[..|files| - 1], collection, existUrl, put) + EntryPuts(files[|files| - 1], collection, existUrl, put)
  }

  function Stored(files: seq<string>, put: string -> PutResult): seq<string>
  {
    if files == [] then []
    else Stored(files[..|files| - 1], put) + StoredIds(files[|files| - 1], put)
  }

  function Errors(files: seq<string>, put: string -> PutResult, date: string): seq<string>
  {
    if files == [] then []
    else Errors(files[..|files| - 1], put, date) + OpenErrors(files[|files| - 1], put, date)
  }

  /** update_record_in_numishare: open `/tmp/nuds/<accnum>.xml`, PUT it, and batch it on 201. */
  method Update(state: RunState, accnum: string, collection: string, existUrl: string, put: PutResult, date: string)
    returns (puts: seq<string>)
    requires state.Valid()
    modifies state
    ensures state.Valid()
    ensures puts == PutRequests(accnum, collection, existUrl, put)
    ensures state.accnums == old(state.accnums) + (if put == Status(201) then [accnum] else [])
    ensures state.errors == old(state.errors) + (if put == Unopenable then [OpenFailure(accnum, date)] else [])
  {
    var fileUrl := StoreUrl(existUrl, collection, accnum);
    var fileName := StagingPath(TmpNuds, accnum);
    puts := [];
    match put {
      case Unopenable =>
        state.AddError(OpenFailure(accnum, date));
      case Status(code) =>
        puts := [fileUrl];
        if code == 201 {
          state.Add(accnum);
        }
    }
  }

  /** The loop over the listing. */
  method ImportFiles(state: RunState, files: seq<string>, collection: string, existUrl: string,
                     put: string -> PutResult, date: string)
    returns (puts: seq<string>)
    requires state.Valid()
    modifies state
    ensures state.Valid()
    ensures puts == Puts(files, collection, existUrl, put)
    ensures state.accnums == old(state.accnums) + Stored(files, put)
    ensures state.errors == old(state.errors) + Errors(files, put, date)
  {
    puts := [];
    ghost var accnums0 := state.accnums;
    ghost var errors0 := state.errors;
    for i := 0 to |files|
      invariant state.Valid()
      invariant puts == Puts(files[..i], collection, existUrl, put)
      invariant state.accnums == accnums0 + Stored(files[..i], put)
      invariant state.errors == errors0 + Errors(files[..i], put, date)
    {
      var file := files[i];
      ListingStep(files, i, collection, existUrl, put, date, puts, accnums0, state.accnums, errors0, state.errors);
      if file != "." && file != ".." {
        var accnum := AccnumOf(file);
        var more := Update(state, accnum, collection, existUrl, put(accnum), date);
        puts := puts + more;
      }
    }
    assert files[..|files|] == files;
  }

  /** Entry `i` extends the PUTs, the batch and the errors of the entries before it by its own. */
  lemma {:induction false} ListingStep(files: seq<string>, i: nat, collection: string, existUrl: string, put: string -> PutResult,
                    date: string, puts: seq<string>, accnums0: seq<string>, accnums: seq<string>,
                    errors0: seq<string>, errors: seq<string>)
    requires i < |files| && puts == Puts(files[..i], collection, existUrl, put)
    requires accnums == accnums0 + Stored(files[..i], put) && errors == errors0 + Errors(files[..i], put, date)
    ensures puts + EntryPuts(files[i], collection, existUrl, put) == Puts(files[..i + 1], collection, existUrl, put)
    ensures accnums + StoredIds(files[i], put) == accnums0 + Stored(files[..i + 1], put)
    ensures errors + OpenErrors(files[i], put, date) == errors0 + Errors(files[..i + 1], put, date)
  {
    var prefix := files[..i + 1];
    assert prefix[..i] == files[..i] && prefix[i] == files[i];
    assert Puts(prefix, collection, existUrl, put) == puts + EntryPuts(files[i], collection, existUrl, put);
    assert Stored(prefix, put) == Stored(files[..i], put) + StoredIds(files[i], put);
    assert Errors(prefix, put, date) == Errors(files[..i], put, date) + OpenErrors(files[i], put, date);
  }


  /** Why a run stops before importing anything, or that it imported. */
  datatype Outcome = MissingCollectionArgument | CollectionNotFound | ZipUnreadable | Imported

  function OutcomeOf(collection: Option<string>, collectionFound: bool, zipOpened: bool): (o: Outcome)
    ensures o == Imported <==> collection.Some? && collectionFound && zipOpened
  {
    if collection.None? then MissingCollectionArgument
    else if !collectionFound then CollectionNotFound
    else if !zipOpened then ZipUnreadable
    else Imported
  }

  /**
   * The script: checks the collection argument, then imports the listing and flushes the
   * remainder. The jobs, concatenated, are exactly the batch.
   */
  method Run(collection: Option<string>, collectionFound: bool, zipOpened: bool, files: seq<string>,
             existUrl: string, put: string -> PutResult, date: string)
    returns (outcome: Outcome, state: RunState, puts: seq<string>)
    ensures outcome == OutcomeOf(collection, collectionFound, zipOpened)
    ensures outcome == Imported ==>
      puts == Puts(files, collection.value, existUrl, put) && state.accnums == Stored(files, put) &&
      state.errors == Errors(files, put, date) && state.jobs == AllJobs(state.accnums, IndexCount)
    ensures outcome != Imported ==> puts == [] && state.accnums == [] && state.jobs == []
    ensures Flatten(state.jobs) == state.accnums
  {
    outcome := OutcomeOf(collection, collectionFound, zipOpened);
    state := new RunState(IndexCount);
    puts := [];
    if outcome == Imported {
      puts := ImportFiles(state, files, collection.value, existUrl, put, date);
      state.Finish();
    }
  }

  /** The index script for one job; the ingest URL names the collection being imported. */
  function JobScript(collection: string, job: seq<string>, uniqid: string): string
  {
    IndexScript(IngestUrl(NumishareUrl, collection, job), SolrUrl, uniqid)
  }

  /**
   * The batch follows the listing: each id comes from a distinct entry, later ids from later
   * entries, and each of those entries was PUT with status 201.
   */
  lemma {:induction false} StoredInListingOrder(files: seq<string>, put: string -> PutResult)
    returns (idx: seq<nat>)
    ensures |idx| == |Stored(files, put)|
    ensures forall k :: 0 <= k < |idx| ==> idx[k] < |files|
    ensures forall k, l :: 0 <= k < l < |idx| ==> idx[k] < idx[l]
    ensures forall k :: 0 <= k < |idx| ==> Stores(files[idx[k]], put) && Stored(files, put)[k] == AccnumOf(files[idx[k]])
  {
    if files == [] {
      idx := [];
    } else {
      var n := |files| - 1;
      var init := files[..n];
      var prev := StoredInListingOrder(init, put);
      assert forall k :: 0 <= k < |prev| ==> files[prev[k]] == init[prev[k]];
      assert Stored(files, put) == Stored(init, put) + StoredIds(files[n], put);
      if Stores(files[n], put) {
        idx := prev + [n];
      } else {
        idx := prev;
      }
    }
  }

  /** An entry that is a file and whose PUT returned 201 has its accession number in the batch. */
  lemma {:induction false} StoredComplete(files: seq<string>, put: string -> PutResult, i: nat)
    requires i < |files| && Stores(files[i], put)
    ensures AccnumOf(files[i]) in Stored(files, put)
  {
    var n := |files| - 1;
    if i < n {
      assert files[..n][i] == files[i];
      StoredComplete(files[..n], put, i);
    }
  }

  /**
   * The importer reads back what the exporter wrote: a listing of staged names gives back
   * the accession numbers, for those without `.xml` inside them.
   */
  lemma {:induction false} StagedListing(accnum: string, collection: string, existUrl: string, put: string -> PutResult)
    requires !Contains(accnum, XmlSuffix) && put(accnum) == Status(201)
    ensures Stored([StagingName(accnum)], put) == [accnum]
    ensures Puts([StagingName(accnum)], collection, existUrl, put) == [StoreUrl(existUrl, collection, accnum)]
  {
    AccnumOfStagingName(accnum);
    var name := StagingName(accnum);
    assert name != "." && name != ".." by {
      assert |name| >= 4;
    }
    assert [name][..0] == [];
  }
}
