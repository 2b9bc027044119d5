/** The notification for one new record, and the two delivery attempts made for it. */
module Notify {
  import opened Wrappers
  import opened Strings
  import opened Timetable

  const Header := "\U{1F4C5} <b>New Time Table Alert!</b>"
  const ProgramLabel := "\U{1F4DA} <b>Program:</b> "
  const TitleLabel := "\U{1F4D6} <b>Title:</b> "
  const SemesterLabel := "\U{1F4C6} <b>Semester:</b> "
  const LinkLabel := "\U{1F517} <b>Link:</b> "

  /** The clickable link: the url is both the target and the visible text. */
  function HtmlLink(url: string): (r: string)
    ensures |r| == 2 * |url| + 15
    ensures "<a href=\"" <= r
  {
    "<a href=\"" + url + "\">" + url + "</a>"
  }

  /** The url of a record as the message shows it; "N/A" when absent. */
  function LinkUrl(t: Record): (r: string)
    ensures t.url.Some? ==> r == t.url.value
    ensures t.url.None? ==> r == "N/A"
  {
    t.url.GetOr("N/A")
  }

  /** The lines of the alert for a record of program `programName`. Title, semester and url
      default to "N/A" here, unlike in the record's identity where they default to "". */
  function MessageLines(programName: string, t: Record): (r: seq<string>)
    ensures |r| == 6 && r[0] == Header && r[1] == ""
    ensures ProgramLabel <= r[2] && r[2][|ProgramLabel|..] == programName
    ensures TitleLabel <= r[3] && r[3][|TitleLabel|..] == t.title.GetOr("N/A")
    ensures SemesterLabel <= r[4] && r[4][|SemesterLabel|..] == t.semester.GetOr("N/A")
    ensures LinkLabel <= r[5] && r[5][|LinkLabel|..] == HtmlLink(LinkUrl(t))
  {
    [ Header,
      "",
      ProgramLabel + programName,
      TitleLabel + t.title.GetOr("N/A"),
      SemesterLabel + t.semester.GetOr("N/A"),
      LinkLabel + HtmlLink(LinkUrl(t)) ]
  }

  /** The HTML-formatted alert: its lines joined by line breaks. It starts with the alert
      header and ends with the link to the record's url. */
  function Message(programName: string, t: Record): (r: string)
    ensures Header <= r
    ensures var a := HtmlLink(LinkUrl(t)); |a| <= |r| && r[|r| - |a|..] == a
  {
    var ls := MessageLines(programName, t);
    JoinLinesFrame(ls);
    var m, a, last := JoinLines(ls), HtmlLink(LinkUrl(t)), ls[|ls| - 1];
    assert last == LinkLabel + a;
    assert m[|m| - |last|..][|LinkLabel|..] == a;
    m
  }

  /** One message per emitted record, in emission order. */
  function Messages(es: seq<Entry>): seq<string>
  {
    seq(|es|, k requires 0 <= k < |es| => Message(es[k].programName, es[k].timetable))
  }

  /** The notification loop: one message per new record, built and handed to the sender in
      the order the records were found. */
  method AnnounceAll(newTimetables: seq<Entry>) returns (sent: seq<string>)
    ensures sent == Messages(newTimetables)
  {
    sent := [];
    for k := 0 to |newTimetables|
      invariant sent == Messages(newTimetables[..k])
    {
      var entry := newTimetables[k];
      var message := Message(entry.programName, entry.timetable);
      assert Messages(newTimetables[..k + 1]) == Messages(newTimetables[..k]) + [message];
      sent := sent + [message];
    }
    assert newTimetables[..|newTimetables|] == newTimetables;
  }

  /** When no field contains a line break the message splits back into its six lines: the
      header, an empty line, then the program, the title, the semester and the link. */
  lemma MessageSplitsIntoLines(programName: string, t: Record)
    requires '\n' !in programName && '\n' !in t.title.GetOr("N/A")
    requires '\n' !in t.semester.GetOr("N/A") && '\n' !in LinkUrl(t)
    ensures Lines(Message(programName, t)) == MessageLines(programName, t)
  {
    var ls := MessageLines(programName, t);
    forall k | 0 <= k < |ls|
      ensures '\n' !in ls[k]
    {
    }
    LinesJoinLines(ls);
  }

  const AnchorOpen := "<a href=\""
  const AnchorMid := "\">"
  const AnchorClose := "</a>"

  /** Reads an anchor element `<a href="H">T</a>` back into its target H (which ends at the
      first double quote) and its text T. */
  function ParseAnchor(s: string): Option<(string, string)>
  {
    if |s| < |AnchorOpen| + |AnchorClose| || s[..|AnchorOpen|] != AnchorOpen
       || s[|s| - |AnchorClose|..] != AnchorClose
    then None
    else
      var inner := s[|AnchorOpen|..|s| - |AnchorClose|];
      match IndexOf(inner, '"')
      case None => None
      case Some(q) =>
        if q + |AnchorMid| <= |inner| && inner[q..q + |AnchorMid|] == AnchorMid then Some((inner[..q], inner[q + |AnchorMid|..]))
        else None
  }

  /** For a url without a double quote, the link reads back with that url as both its target
      and its text. */
  lemma {:induction false} HtmlLinkRoundTrip(url: string)
    requires '"' !in url
    ensures ParseAnchor(HtmlLink(url)) == Some((url, url))
  {
    var s := HtmlLink(url);
    assert s == AnchorOpen + (url + AnchorMid + url) + AnchorClose;
    var inner := url + AnchorMid + url;
    assert s[..|AnchorOpen|] == AnchorOpen;
    assert s[|s| - |AnchorClose|..] == AnchorClose;
    assert s[|AnchorOpen|..|s| - |AnchorClose|] == inner;
    assert inner[..|url|] == url;
    assert inner[|url|] == '"';
    assert IndexOf(inner, '"') == Some(|url|);
    assert inner[|url| + |AnchorMid|..] == url;
  }

  datatype ParseMode = Html | PlainText

  /** One call to the messaging service. */
  datatype Attempt = Attempt(text: string, mode: ParseMode)

  /** The calls made to deliver one message: a formatted one, and only when that call fails
      for any reason (a rejected format, a network error, ...), a second one with the same
      text and no formatting. A second failure is only logged. */
  function SendAttempts(message: string, firstAttemptFailed: bool): (r: seq<Attempt>)
    ensures 1 <= |r| <= 2 && r[0] == Attempt(message, Html)
    ensures |r| == 2 <==> firstAttemptFailed
    ensures |r| == 2 ==> r[1] == Attempt(message, PlainText)
  {
    if firstAttemptFailed then [Attempt(message, Html), Attempt(message, PlainText)]
    else [Attempt(message, Html)]
  }
}
