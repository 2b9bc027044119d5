/** The poller that reads the timetable endpoint directly over HTTP. */
module BotTemp {
  import opened Wrappers
  import opened Timetable
  import opened Notify
  import opened Manager

  /** What the GET request on the endpoint yields: a transport failure, or a status code
      with the body decoded as JSON (None when the body does not decode). */
  datatype Response = NetworkError | Response(status: int, json: Option<seq<Program>>)

  /** The programs a cycle goes on with: those of a 200 response whose body decodes. */
  function FetchedPrograms(r: Response): (p: Option<seq<Program>>)
    ensures p.Some? <==> r.Response? && r.status == 200 && r.json.Some?
    ensures p.Some? ==> p == r.json
  {
    if r.Response? && r.status == 200 then r.json else None
  }

  /** One polling cycle. Without usable data nothing changes. Otherwise the detection loop
      updates the seen-list, one message per new record is sent in order, and the list is
      saved only when at least one record was new. */
  method CheckForNewTimetables(m: TimetableManager, response: Response, writeOk: bool)
    returns (sent: seq<string>)
    modifies m
    ensures FetchedPrograms(response).None? ==>
      sent == [] && m.sentTimetables == old(m.sentTimetables) && m.file == old(m.file)
    ensures FetchedPrograms(response).Some? ==>
      var d := Scan(Entries(FetchedPrograms(response).value), old(m.sentTimetables));
      && m.sentTimetables == old(m.sentTimetables) + d.appended
      && sent == Messages(d.emitted)
      && m.file == (if d.emitted != [] && writeOk then Saved(m.sentTimetables) else old(m.file))
  {
    sent := [];
    if response.NetworkError? || response.status != 200 || response.json.None? {
      return;
    }
    var data := response.json.value;
    var newTimetables := DetectNew(m, data);
    if |newTimetables| > 0 {
      sent := AnnounceAll(newTimetables);
      m.SaveSentTimetables(writeOk);
    }
  }
}
