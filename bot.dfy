/** The poller that renders the endpoint in a browser and reads the JSON out of the page. */
module Bot {
  import opened Wrappers
  import opened Strings
  import opened Timetable
  import opened Notify
  import opened Manager

  /** The fallback extraction of the first bracketed run, a greedy `\[.*\]` search with dots
      matching line breaks: from the first `[` of the page to its last `]`. There is none
      when no `]` follows a `[`. */
  function ExtractJsonArray(page: string): (r: Option<string>)
    ensures r.None? <==> forall i, j :: 0 <= i < j < |page| ==> !(page[i] == '[' && page[j] == ']')
    ensures r.Some? ==> exists i, j :: (0 <= i < j < |page| && page[i] == '[' && page[j] == ']'
      && '[' !in page[..i] && ']' !in page[j + 1..] && r.value == page[i..j + 1])
  {
    match IndexOf(page, '[')
    case None => None
    case Some(i) =>
      match LastIndexOf(page, ']')
      case None => None
      case Some(j) => if i < j then Some(page[i..j + 1]) else None
  }

  /** The programs a cycle goes on with: the page parsed whole, or else the extracted
      bracketed run parsed; None when both fail. `parse` stands for the JSON decoder. */
  function ParsePage(page: string, parse: string -> Option<seq<Program>>): (r: Option<seq<Program>>)
    ensures parse(page).Some? ==> r == parse(page)
    ensures parse(page).None? && ExtractJsonArray(page).None? ==> r.None?
    ensures parse(page).None? && ExtractJsonArray(page).Some? ==> r == parse(ExtractJsonArray(page).value)
  {
    if parse(page).Some? then parse(page)
    else
      match ExtractJsonArray(page)
      case None => None
      case Some(candidate) => parse(candidate)
  }

  /** One polling cycle. `page` is the rendered page source, None when the browser could not
      open the page. When no data can be read the cycle returns before the seen-list is
      looked at. Otherwise it proceeds as the HTTP poller does: detect, send one message
      per new record, and save only when something was new. */
  method CheckForNewTimetables(m: TimetableManager, page: Option<string>,
                               parse: string -> Option<seq<Program>>, writeOk: bool)
    returns (sent: seq<string>)
    modifies m
    ensures (page.None? || ParsePage(page.value, parse).None?) ==>
      sent == [] && m.sentTimetables == old(m.sentTimetables) && m.file == old(m.file)
    ensures page.Some? && ParsePage(page.value, parse).Some? ==>
      var d := Scan(Entries(ParsePage(page.value, parse).value), old(m.sentTimetables));
      && m.sentTimetables == old(m.sentTimetables) + d.appended
      && sent == Messages(d.emitted)
      && m.file == (if d.emitted != [] && writeOk then Saved(m.sentTimetables) else old(m.file))
  {
    sent := [];
    if page.None? {
      return;
    }
    var pageContent := page.value;
    var data: seq<Program>;
    var parsed := parse(pageContent);
    if parsed.Some? {
      data := parsed.value;
    } else {
      var jsonMatch := ExtractJsonArray(pageContent);
      if jsonMatch.Some? {
        var reparsed := parse(jsonMatch.value);
        if reparsed.None? {
          return;
        }
        data := reparsed.value;
      } else {
        return;
      }
    }
    var newTimetables := DetectNew(m, data);
    if |newTimetables| > 0 {
      sent := AnnounceAll(newTimetables);
      m.SaveSentTimetables(writeOk);
    }
  }
}
