/** The seen-list holder shared by both pollers, its persistence, the detection loop that
    updates it in place, and the reset command that clears it. */
module Manager {
  import opened Wrappers
  import opened Timetable

  /** The persisted state file, as a load would find it: absent, present but not decodable,
      or holding a list of identities. */
  datatype StateFile = Missing | Undecodable | Saved(ids: seq<string>)

  /** Loading never fails: a missing or undecodable file gives an empty seen-list. */
  function LoadSentTimetables(f: StateFile): (r: seq<string>)
    ensures f.Saved? ==> r == f.ids
    ensures !f.Saved? ==> r == []
  {
    match f
    case Saved(ids) => ids
    case _ => []
  }

  class TimetableManager {
    /** Identities of every record already announced, oldest first. */
    var sentTimetables: seq<string>
    /** The state file the manager loads from and saves to. */
    var file: StateFile

    constructor (f: StateFile)
      ensures file == f
      ensures sentTimetables == LoadSentTimetables(f)
    {
      file := f;
      sentTimetables := LoadSentTimetables(f);
    }

    /** Overwrites the state file with the current seen-list. A failed write (`writeOk`
        false) is only logged: the file and the in-memory list stay as they were. */
    method SaveSentTimetables(writeOk: bool)
      modifies this`file
      ensures file == if writeOk then Saved(sentTimetables) else old(file)
      ensures writeOk ==> LoadSentTimetables(file) == sentTimetables
    {
      if writeOk {
        file := Saved(sentTimetables);
      }
    }
  }

  /** The detection loop: walks every record of every program, emits each record whose
      identity is not yet in the seen-list and appends that identity at once, so a repeat
      later in the same batch is suppressed. */
  method DetectNew(m: TimetableManager, data: seq<Program>) returns (newTimetables: seq<Entry>)
    modifies m`sentTimetables
    ensures newTimetables == Scan(Entries(data), old(m.sentTimetables)).emitted
    ensures m.sentTimetables == old(m.sentTimetables) + Scan(Entries(data), old(m.sentTimetables)).appended
    ensures old(m.sentTimetables) <= m.sentTimetables
    ensures |m.sentTimetables| == |old(m.sentTimetables)| + |newTimetables|
    ensures NoDuplicates(old(m.sentTimetables)) ==> NoDuplicates(m.sentTimetables)
    ensures forall k :: 0 <= k < |Entries(data)| ==> EntryId(Entries(data)[k]) in m.sentTimetables
  {
    ghost var seen := m.sentTimetables;
    newTimetables := [];
    for i := 0 to |data|
      invariant newTimetables == Scan(Entries(data[..i]), seen).emitted
      invariant m.sentTimetables == seen + Scan(Entries(data[..i]), seen).appended
    {
      var programName := data[i].programName.GetOr("N/A");
      var programDataList := data[i].programDataList.GetOr([]);
      EntriesSnoc(data, i);
      newTimetables := DetectInProgram(m, programName, programDataList, newTimetables, Entries(data[..i]), seen);
    }
    assert data[..|data|] == data;
    ScanSummary(Entries(data), seen);
  }

  /** The inner loop of `DetectNew`: the records of one program, examined in list order,
      continuing a pass that has already examined `before` starting from `seen`. */
  method DetectInProgram(m: TimetableManager, programName: string, programDataList: seq<Record>,
                         found: seq<Entry>, ghost before: seq<Entry>, ghost seen: seq<string>)
    returns (newTimetables: seq<Entry>)
    requires found == Scan(before, seen).emitted
    requires m.sentTimetables == seen + Scan(before, seen).appended
    modifies m`sentTimetables
    ensures newTimetables == Scan(before + Tagged(programName, programDataList), seen).emitted
    ensures m.sentTimetables == seen + Scan(before + Tagged(programName, programDataList), seen).appended
  {
    newTimetables := found;
    ghost var done := before;
    assert Tagged(programName, programDataList[..0]) == [];
    for j := 0 to |programDataList|
      invariant done == before + Tagged(programName, programDataList[..j])
      invariant newTimetables == Scan(done, seen).emitted
      invariant m.sentTimetables == seen + Scan(done, seen).appended
    {
      var timetable := programDataList[j];
      var uniqueId := UniqueId(programName, timetable);
      var e := Entry(programName, timetable);
      ScanSnoc(done, e, seen);
      if uniqueId !in m.sentTimetables {
        newTimetables := newTimetables + [e];
        m.sentTimetables := m.sentTimetables + [uniqueId];
      }
      TaggedSnoc(programName, programDataList, j);
      done := done + [e];
    }
    assert programDataList[..|programDataList|] == programDataList;
  }

  /** The reset command: empties the seen-list and saves it at once. */
  method ResetData(m: TimetableManager, writeOk: bool)
    modifies m
    ensures m.sentTimetables == []
    ensures m.file == if writeOk then Saved([]) else old(m.file)
  {
    m.sentTimetables := [];
    m.SaveSentTimetables(writeOk);
  }

  /** After a reset, a detection pass treats every record as new. `Saved([])` is the file
      `ResetData` writes when the write succeeds: reloading it gives an empty seen-list, and
      a pass from there emits the identity of each examined record. */
  lemma ResetThenEverythingIsNew(data: seq<Program>)
    ensures LoadSentTimetables(Saved([])) == []
    ensures
      var es := Entries(data);
      forall k :: 0 <= k < |es| ==> EntryId(es[k]) in Ids(Scan(es, LoadSentTimetables(Saved([]))).emitted)
  {
    ScanAfterReset(Entries(data));
  }
}
