/**
 * exporters/export_ca.php: the export-only variant. Public records are exported to
 * `/tmp/nuds` with caUtils; hoards and non-public records produce nothing, and no index job
 * is ever started.
 */
module ExportOnly {
  import opened Common
  import opened Records
  import opened Store

  const CaUtils: string := "/usr/local/projects" + "/providence-2.0" + "/support/bin" + "/caUtils"
  const TmpNuds: string := "/tmp/nuds"

  /** The file caUtils writes the record to. */
  function ExportTarget(accnum: string): string
  {
    StagingPath(TmpNuds, accnum)
  }

  /** The export file is `/tmp/nuds/<accnum>.xml`. */
  lemma {:induction false} ExportTargetPath(accnum: string)
    ensures ExportTarget(accnum) == "/tmp/nuds/" + accnum + ".xml"
  {
  }

  /** The caUtils command export_record runs for a record. */
  function ExportCommandFor(r: CaRecord): string
  {
    ExportCommand(CaUtils, r.id, ExportTarget(r.idno))
  }

  /** A public non-hoard record whose export is the command `cmd`. */
  predicate ExportedAs(r: CaRecord, cmd: string)
  {
    r.typeId != HoardType && r.access == PublicAccess && cmd == ExportCommandFor(r)
  }

  /** The commands run for the results, in order: one per public non-hoard record. */
  function Commands(results: seq<CaRecord>): seq<string>
  {
    Keep(results, Publishes, ExportCommandFor)
  }

  predicate Publishes(r: CaRecord)
  {
    Classify(r) == Publish
  }

  /** process_response: the loop over the results when the total is positive. */
  method ProcessResponse(response: FindResponse) returns (commands: seq<string>)
    ensures commands == if response.total > 0 then Commands(response.results) else []
  {
    commands := [];
    if response.total > 0 {
      var results := response.results;
      for i := 0 to |results|
        invariant commands == Commands(results[..i])
      {
        assert results[..i + 1][..i] == results[..i];
        var record := results[i];
        if record.typeId != HoardType {
          if record.access == PublicAccess {
            commands := commands + [ExportCommandFor(record)];
          }
        }
      }
      assert results[..|results|] == results;
    }
  }

  /** A command is run exactly for the public non-hoard records. */
  lemma {:induction false} CommandsExact(results: seq<CaRecord>, cmd: string)
    ensures cmd in Commands(results) <==> exists i :: 0 <= i < |results| && ExportedAs(results[i], cmd)
  {
    KeepExact(results, Publishes, ExportCommandFor, cmd);
  }

  /** Hoards and non-public records leave no trace: removing them from the response changes nothing. */
  lemma {:induction false} CommandsIgnoreOthers(results: seq<CaRecord>, r: CaRecord)
    requires Classify(r) != Publish
    ensures Commands(results + [r]) == Commands(results)
  {
    assert (results + [r])[..|results|] == results;
  }
}
