/**
 * The records the CollectiveAccess find service returns (with the `access` and `type_id`
 * bundles converted to their idno codes), the routing decision every exporter applies to
 * them, and the command-line query argument shared by the exporters.
 */
module Records {
  import opened Common

  /** One element of `$json->results`. */
  datatype CaRecord = CaRecord(id: string, idno: string, typeId: string, access: string)

  /** The decoded find response: `$json->total` and `$json->results`. */
  datatype FindResponse = FindResponse(total: int, results: seq<CaRecord>)

  const HoardType: string := "nmo:Hoard"
  const PublicAccess: string := "public_access"

  /** What an exporter does with a record: nothing, publish it, or withdraw it from Numishare. */
  datatype Route = Ignore | Publish | Withdraw

  /**
   * The fixed decision order of every exporter: a hoard is ignored whatever its access,
   * a public record is published, anything else is withdrawn.
   */
  function Classify(r: CaRecord): (route: Route)
    ensures route == Ignore <==> r.typeId == HoardType
    ensures route == Publish <==> r.typeId != HoardType && r.access == PublicAccess
    ensures route == Withdraw <==> r.typeId != HoardType && r.access != PublicAccess
  {
    if r.typeId != HoardType then
      (if r.access == PublicAccess then Publish else Withdraw)
    else Ignore
  }

  /** Only the type and the access level decide the route; for a hoard the access level is never looked at. */
  lemma {:induction false} ClassifyDependsOnTypeAndAccess(r: CaRecord, s: CaRecord)
    requires r.typeId == s.typeId
    requires r.typeId == HoardType || r.access == s.access
    ensures Classify(r) == Classify(s)
  {
  }

  /**
   * The Lucene query from the optional command-line argument: `yesterday` and `today` become
   * a `modified:` query on that date, any other value is used verbatim, and a missing
   * argument means yesterday. The two dates are given, since the clock is outside the model.
   */
  function QueryFor(arg: Option<string>, today: string, yesterday: string): (q: string)
    ensures arg.None? || arg == Some("yesterday") ==> q == "modified:" + yesterday
    ensures arg == Some("today") ==> q == "modified:" + today
    ensures arg.Some? && arg.value != "today" && arg.value != "yesterday" ==> q == arg.value
  {
    match arg
    case None => "modified:" + yesterday
    case Some(a) =>
      if a == "yesterday" then "modified:" + yesterday
      else if a == "today" then "modified:" + today
      else a
  }

  /** The find request the exporters send to a CollectiveAccess instance for query `q`, authorised by `token`. */
  function FindUrl(caUrl: string, q: string, token: string): (url: string)
    ensures StartsWith(url, caUrl + "service.php/json/find/ca_objects?q=" + q)
    ensures EndsWith(url, "&pretty=1&authToken=" + token)
  {
    var head := caUrl + "service.php/json/find/ca_objects?q=" + q;
    var url := head + "&pretty=1&authToken=" + token;
    assert url[..|head|] == head;
    assert url[|head|..] == "&pretty=1&authToken=" + token;
    url
  }

  /** The caUtils invocation that writes record `id` as NUDS to `fileName`. */
  function ExportCommand(caUtils: string, id: string, fileName: string): string
  {
    caUtils + " export-data -m nuds -i " + id + " -f " + fileName
  }

  /** The command runs caUtils' NUDS export for the record id and writes to the named file. */
  lemma {:induction false} ExportCommandShape(caUtils: string, id: string, fileName: string)
    ensures StartsWith(ExportCommand(caUtils, id, fileName), caUtils + " export-data -m nuds -i ")
    ensures EndsWith(ExportCommand(caUtils, id, fileName), " -f " + fileName)
  {
    var head := caUtils + " export-data -m nuds -i ";
    var cmd := ExportCommand(caUtils, id, fileName);
    assert cmd == head + id + " -f " + fileName;
    assert cmd[..|head|] == head;
    assert cmd[|cmd| - |" -f " + fileName|..] == " -f " + fileName;
  }

  const DeleteService: string := "http://numismatics.org/cgi-bin/deletefromnumishare.php?accnum="

  /** The Numishare service call that withdraws one record. */
  function DeleteUrl(accnum: string): string
  {
    DeleteService + accnum
  }

  /** The withdrawal call names the record: different accession numbers give different calls. */
  lemma {:induction false} DeleteUrlInjective(a: string, b: string)
    requires DeleteUrl(a) == DeleteUrl(b)
    ensures a == b
  {
    assert a == DeleteUrl(a)[|DeleteService|..];
    assert b == DeleteUrl(b)[|DeleteService|..];
  }
}
