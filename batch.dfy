/**
 * The run-scoped Solr index batcher of the importers: a growing list of accession numbers
 * written to eXist-db, a flush of the last INDEX_COUNT of them whenever the list length
 * reaches a positive multiple of INDEX_COUNT, and a final flush of the remainder. Each
 * flush becomes an ingest URL and a five-line shell script.
 */
module IndexBatch {
  import opened Common

  // ----- integer division facts -----

  lemma {:induction false} MulNonneg(a: int, b: int)
    requires a >= 0 && b >= 0
    ensures a * b >= 0
  {
  }

  lemma {:induction false} MulMono(d: int, t: int)
    requires t > 0
    ensures d >= 1 ==> d * t >= t
    ensures d <= -1 ==> d * t <= -t
  {
    if d >= 1 {
      assert d * t == (d - 1) * t + t;
      MulNonneg(d - 1, t);
    }
    if d <= -1 {
      assert d * t == -((-d - 1) * t) - t;
      MulNonneg(-d - 1, t);
    }
  }

  /** Quotient and remainder are determined by a == q * t + r with 0 <= r < t. */
  lemma {:induction false} DivModUnique(a: int, t: int, q: int, r: int)
    requires t > 0 && 0 <= r < t && a == q * t + r
    ensures a % t == r && a / t == q
  {
    var q0, r0 := a / t, a % t;
    assert a == q0 * t + r0;
    var d := q - q0;
    assert d * t == q * t - q0 * t;
    assert d * t == r0 - r;
    MulMono(d, t);
  }

  /** floor(n / t) * t lies between n - t and n. */
  lemma {:induction false} FloorMultiple(n: nat, t: nat)
    requires t > 0
    ensures 0 <= (n / t) * t <= n
    ensures n - (n / t) * t == n % t
  {
    assert n == (n / t) * t + n % t;
    MulNonneg(n / t, t);
  }

  /** A positive multiple of t is at least t. */
  lemma {:induction false} MultipleAtLeast(n: nat, t: nat)
    requires t > 0 && n > 0 && n % t == 0
    ensures n >= t
  {
    FloorMultiple(n, t);
    MulMono(n / t, t);
  }

  /** How floor(n / t) moves when one id is added. */
  lemma {:induction false} DivStep(n: nat, t: nat)
    requires t > 0 && n > 0
    ensures n % t == 0 ==> (n - 1) / t == n / t - 1 && (n / t) * t == n
    ensures n % t != 0 ==> (n - 1) / t == n / t
  {
    var q, r := n / t, n % t;
    assert n == q * t + r;
    if r == 0 {
      assert n - 1 == (q - 1) * t + (t - 1);
      DivModUnique(n - 1, t, q - 1, t - 1);
    } else {
      assert n - 1 == q * t + (r - 1);
      DivModUnique(n - 1, t, q, r - 1);
    }
  }

  // ----- the jobs of a run -----

  /** The ids of a list of jobs, job after job. */
  function Flatten(jobs: seq<seq<string>>): seq<string>
  {
    if jobs == [] then [] else Flatten(jobs[..|jobs| - 1]) + jobs[|jobs| - 1]
  }

  lemma {:induction false} FlattenSnoc(jobs: seq<seq<string>>, job: seq<string>)
    ensures Flatten(jobs + [job]) == Flatten(jobs) + job
  {
    assert (jobs + [job])[..|jobs|] == jobs;
  }

  /**
   * The jobs flushed while the batch grows, one id at a time: whenever its length
   * becomes a positive multiple of t, the last t ids.
   */
  function Chunks(ids: seq<string>, t: nat): seq<seq<string>>
    requires t > 0
  {
    if ids == [] then []
    else
      var prev := Chunks(ids[..|ids| - 1], t);
      if |ids| % t == 0 then
        MultipleAtLeast(|ids|, t);
        prev + [ids[|ids| - t..]]
      else prev
  }

  /** The final flush: the ids from floor(n / t) * t to the end, when the batch is not empty. */
  function FinalJob(ids: seq<string>, t: nat): seq<seq<string>>
    requires t > 0
  {
    FloorMultiple(|ids|, t);
    if |ids| > 0 then [ids[(|ids| / t) * t..]] else []
  }

  /** Every job of a run: the threshold flushes, then the final one. */
  function AllJobs(ids: seq<string>, t: nat): seq<seq<string>>
    requires t > 0
  {
    Chunks(ids, t) + FinalJob(ids, t)
  }

  /** There are floor(n / t) threshold flushes, each of exactly t ids. */
  lemma {:induction false} ChunksSizes(ids: seq<string>, t: nat)
    requires t > 0
    ensures |Chunks(ids, t)| == |ids| / t
    ensures forall j :: 0 <= j < |Chunks(ids, t)| ==> |Chunks(ids, t)[j]| == t
  {
    if ids != [] {
      var n := |ids|;
      ChunksSizes(ids[..n - 1], t);
      DivStep(n, t);
    }
  }

  /** Where the threshold flushes end, before and after one more id. */
  lemma {:induction false} FlushedPrefixStep(n: nat, t: nat)
    requires t > 0 && n > 0
    ensures n % t == 0 ==> ((n - 1) / t) * t == n - t && (n / t) * t == n && n >= t
    ensures n % t != 0 ==> ((n - 1) / t) * t == (n / t) * t
  {
    DivStep(n, t);
    if n % t == 0 {
      MultipleAtLeast(n, t);
      var q := n / t;
      assert (q - 1) * t == q * t - t;
    }
  }

  /** Together the threshold flushes are the first floor(n / t) * t ids of the batch, in order. */
  lemma {:induction false} ChunksCover(ids: seq<string>, t: nat)
    requires t > 0
    ensures (|ids| / t) * t <= |ids|
    ensures Flatten(Chunks(ids, t)) == ids[..(|ids| / t) * t]
  {
    FloorMultiple(|ids|, t);
    if ids != [] {
      var n := |ids|;
      var k := (n / t) * t;
      var init := ids[..n - 1];
      ChunksCover(init, t);
      FlushedPrefixStep(n, t);
      var k0 := ((n - 1) / t) * t;
      assert Flatten(Chunks(init, t)) == ids[..k0];
      if n % t == 0 {
        assert Chunks(ids, t) == Chunks(init, t) + [ids[n - t..]];
        FlattenSnoc(Chunks(init, t), ids[n - t..]);
        assert ids[..n - t] + ids[n - t..] == ids[..k];
      } else {
        assert Chunks(ids, t) == Chunks(init, t);
      }
    }
  }

  lemma {:induction false} FlattenSplit(jobs: seq<seq<string>>, ids: seq<string>, k: nat)
    requires k <= |ids| && Flatten(jobs) == ids[..k]
    ensures Flatten(jobs + [ids[k..]]) == ids
  {
    FlattenSnoc(jobs, ids[k..]);
    assert ids[..k] + ids[k..] == ids;
  }

  /** The jobs of a run, concatenated, are the batch: every id is indexed once, in order. */
  lemma {:induction false} AllJobsCover(ids: seq<string>, t: nat)
    requires t > 0
    ensures Flatten(AllJobs(ids, t)) == ids
  {
    ChunksCover(ids, t);
    if ids != [] {
      var k := (|ids| / t) * t;
      var c := Chunks(ids, t);
      var f := FinalJob(ids, t);
      assert f == [ids[k..]];
      assert AllJobs(ids, t) == c + f;
      FlattenSplit(c, ids, k);
    }
  }

  /**
   * The final flush holds n mod t ids; so when the batch length is a positive multiple of t
   * the run ends with an empty job, and an empty batch gives no final job at all.
   */
  lemma {:induction false} FinalJobSize(ids: seq<string>, t: nat)
    requires t > 0
    ensures |ids| == 0 <==> FinalJob(ids, t) == []
    ensures |ids| > 0 ==> |FinalJob(ids, t)| == 1 && |FinalJob(ids, t)[0]| == |ids| % t
    ensures |ids| > 0 ==> (FinalJob(ids, t)[0] == [] <==> |ids| % t == 0)
  {
    FloorMultiple(|ids|, t);
  }

  /** No job of a run holds more than t ids. */
  lemma {:induction false} AllJobsBounded(ids: seq<string>, t: nat)
    requires t > 0
    ensures forall j :: 0 <= j < |AllJobs(ids, t)| ==> |AllJobs(ids, t)[j]| <= t
  {
    ChunksSizes(ids, t);
    FinalJobSize(ids, t);
  }

  // ----- the run state -----

  /** The error line logged when a staged file cannot be opened. */
  function OpenFailure(accnum: string, date: string): string
  {
    accnum + " failed to open" + " temporary file" + " (accnum likely" + " broken) at " + date + "\n"
  }

  /** The logged error line names the accession number first and ends the line. */
  lemma {:induction false} OpenFailureShape(accnum: string, date: string)
    ensures StartsWith(OpenFailure(accnum, date), accnum) && EndsWith(OpenFailure(accnum, date), "\n")
  {
    var line := OpenFailure(accnum, date);
    assert line[..|accnum|] == accnum;
  }

  /** The global `$accnums` and `$errors` of an importer run, and the jobs flushed so far. */
  class RunState {
    const threshold: nat
    var accnums: seq<string>
    var errors: seq<string>
    var jobs: seq<seq<string>>

    ghost predicate Valid()
      reads this
    {
      threshold > 0 && jobs == Chunks(accnums, threshold)
    }

    constructor (t: nat)
      requires t > 0
      ensures threshold == t && accnums == [] && errors == [] && jobs == []
      ensures Valid()
    {
      threshold := t;
      accnums := [];
      errors := [];
      jobs := [];
    }

    /** A record written with status 201 joins the batch; at each multiple of the threshold its last threshold ids are flushed. */
    method Add(accnum: string)
      requires Valid()
      modifies this
      ensures Valid()
      ensures accnums == old(accnums) + [accnum] && errors == old(errors)
      ensures |accnums| % threshold == 0 ==> jobs == old(jobs) + [accnums[|accnums| - threshold..]]
      ensures |accnums| % threshold != 0 ==> jobs == old(jobs)
    {
      accnums := accnums + [accnum];
      assert accnums[..|accnums| - 1] == old(accnums);
      if |accnums| > 0 && |accnums| % threshold == 0 {
        MultipleAtLeast(|accnums|, threshold);
        var start := |accnums| - threshold;
        assert accnums[start..start + threshold] == accnums[|accnums| - threshold..];
        jobs := jobs + [accnums[start..start + threshold]];
      }
    }

    /** A failure is logged; the batch and the jobs are untouched. */
    method AddError(line: string)
      requires Valid()
      modifies this
      ensures Valid()
      ensures errors == old(errors) + [line]
      ensures accnums == old(accnums) && jobs == old(jobs)
    {
      errors := errors + [line];
    }

    /** The flush after the last record: afterwards the jobs, concatenated, are exactly the batch. */
    method Finish()
      requires Valid()
      modifies this
      ensures jobs == AllJobs(accnums, threshold)
      ensures jobs == old(jobs) + FinalJob(accnums, threshold)
      ensures accnums == old(accnums) && errors == old(errors)
      ensures Flatten(jobs) == accnums
    {
      FloorMultiple(|accnums|, threshold);
      if |accnums| > 0 {
        var start := (|accnums| / threshold) * threshold;
        jobs := jobs + [accnums[start..]];
      }
      AllJobsCover(accnums, threshold);
    }
  }

  // ----- what a flush produces -----

  const IdSeparator: string := "%7C"

  /** The Numishare ingest URL for one job: the ids joined by an encoded `|`. */
  function IngestUrl(numishareUrl: string, collection: string, ids: seq<string>): string
  {
    numishareUrl + collection + "/ingest?identifiers=" + Join(ids, IdSeparator)
  }

  /** The ingest URL names exactly the ids of its job, when no id contains `%`. */
  lemma {:induction false} IngestUrlIds(numishareUrl: string, collection: string, ids: seq<string>)
    requires |ids| >= 1
    requires forall i :: 0 <= i < |ids| ==> '%' !in ids[i]
    ensures var head := numishareUrl + collection + "/ingest?identifiers=";
      StartsWith(IngestUrl(numishareUrl, collection, ids), head) &&
      SplitOn(IngestUrl(numishareUrl, collection, ids)[|head|..], IdSeparator) == ids
  {
    var head := numishareUrl + collection + "/ingest?identifiers=";
    var u := IngestUrl(numishareUrl, collection, ids);
    assert u == head + Join(ids, IdSeparator);
    assert u[..|head|] == head;
    assert u[|head|..] == Join(ids, IdSeparator);
    SplitJoin(ids, IdSeparator);
  }

  /** The content-type option of both Solr posts. */
  const XmlHeader: string := " -H 'Content-type:" + "text/xml; charset=utf-8'"

  /** The five commands of the script, in order: shebang, fetch, post, commit, clean-up. */
  function ScriptLines(ingestUrl: string, solrUrl: string, uniqid: string): seq<string>
  {
    [ "#!/bin/sh",
      "curl " + ingestUrl + " > /tmp/" + uniqid + ".xml",
      "curl " + solrUrl + " --data-binary @/tmp/" + uniqid + ".xml" + XmlHeader,
      "curl " + solrUrl + " --data-binary '<commit/>'" + XmlHeader,
      "rm /tmp/" + uniqid + ".xml" ]
  }

  /** The shell script written for one job: its commands, each followed by a line feed. */
  function IndexScript(ingestUrl: string, solrUrl: string, uniqid: string): string
  {
    Terminated(ScriptLines(ingestUrl, solrUrl, uniqid))
  }

  /** Lines each terminated by a line feed. */
  function Terminated(lines: seq<string>): string
  {
    if lines == [] then "" else lines[0] + "\n" + Terminated(lines[1..])
  }

  lemma {:induction false} TerminatedJoin(lines: seq<string>)
    ensures Terminated(lines) == Join(lines + [""], "\n")
  {
    if lines != [] {
      TerminatedJoin(lines[1..]);
      assert lines + [""] == [lines[0]] + (lines[1..] + [""]);
      JoinCons(lines[0], lines[1..] + [""], "\n");
    }
  }

  /** No command of the script contains a line feed when the inserted values do not. */
  lemma {:induction false} ScriptLinesOneLine(ingestUrl: string, solrUrl: string, uniqid: string)
    requires '\n' !in ingestUrl && '\n' !in solrUrl && '\n' !in uniqid
    ensures forall i :: 0 <= i < |ScriptLines(ingestUrl, solrUrl, uniqid)| ==> '\n' !in ScriptLines(ingestUrl, solrUrl, uniqid)[i]
  {
    XmlHeaderOneLine();
    var ls := ScriptLines(ingestUrl, solrUrl, uniqid);
    assert '\n' !in ls[0];
    assert '\n' !in ls[1];
    assert '\n' !in ls[2] by {
      assert '\n' !in " --data-binary @/tmp/";
    }
    assert '\n' !in ls[3] by {
      assert '\n' !in " --data-binary '<commit/>'";
    }
    assert '\n' !in ls[4];
  }

  lemma {:induction false} XmlHeaderOneLine()
    ensures '\n' !in XmlHeader
  {
    assert '\n' !in " -H 'Content-type:";
    assert '\n' !in "text/xml; charset=utf-8'";
  }

  /**
   * Read line by line, the script is exactly its five commands followed by the empty text
   * after the last line feed, provided none of the inserted values contains a line feed.
   */
  lemma {:induction false} IndexScriptLines(ingestUrl: string, solrUrl: string, uniqid: string)
    requires '\n' !in ingestUrl && '\n' !in solrUrl && '\n' !in uniqid
    ensures SplitOn(IndexScript(ingestUrl, solrUrl, uniqid), "\n") == ScriptLines(ingestUrl, solrUrl, uniqid) + [""]
    ensures |ScriptLines(ingestUrl, solrUrl, uniqid)| == 5
  {
    var ls := ScriptLines(ingestUrl, solrUrl, uniqid);
    TerminatedJoin(ls);
    var parts := ls + [""];
    assert "\n"[0] == '\n';
    ScriptLinesOneLine(ingestUrl, solrUrl, uniqid);
    assert forall i :: 0 <= i < |parts| ==> '\n' !in parts[i] by {
      forall i | 0 <= i < |parts| ensures '\n' !in parts[i] {
        if i < |ls| { assert parts[i] == ls[i]; }
      }
    }
    SplitJoin(parts, "\n");
  }
}
