/** The value side of the timetable poller: the records the endpoint delivers, the identity
    string of a record, and the specification of one detection pass over a batch. */
module Timetable {
  import opened Wrappers

  /** One element of a program's `programDataList`; any field may be missing. */
  datatype Record = Record(url: Option<string>, semester: Option<string>, title: Option<string>)

  /** One element of the endpoint's top-level array. */
  datatype Program = Program(programName: Option<string>, programDataList: Option<seq<Record>>)

  /** A record as the detection loop handles it, paired with the (defaulted) name of its
      program: the `(program_name, timetable)` pair collected in `new_timetables`. */
  datatype Entry = Entry(programName: string, timetable: Record)

  /** The program's name, "N/A" when the field is missing. */
  function ProgramNameOf(p: Program): (r: string)
    ensures p.programName.Some? ==> r == p.programName.value
    ensures p.programName.None? ==> r == "N/A"
  {
    p.programName.GetOr("N/A")
  }

  /** The program's records; none when the field is missing. */
  function RecordsOf(p: Program): (r: seq<Record>)
    ensures p.programDataList.Some? ==> r == p.programDataList.value
    ensures p.programDataList.None? ==> r == []
  {
    p.programDataList.GetOr([])
  }

  /** The identity of a record: `programName_semester_title_url`, where the record's own
      fields default to the empty string. */
  function UniqueId(programName: string, t: Record): (r: string)
    ensures |r| == |programName| + |t.semester.GetOr("")| + |t.title.GetOr("")| + |t.url.GetOr("")| + 3
  {
    programName + "_" + t.semester.GetOr("") + "_" + t.title.GetOr("") + "_" + t.url.GetOr("")
  }

  function EntryId(e: Entry): string
  {
    UniqueId(e.programName, e.timetable)
  }

  function Ids(es: seq<Entry>): seq<string>
  {
    seq(|es|, k requires 0 <= k < |es| => EntryId(es[k]))
  }

  /** The records of one program, in order, each paired with the program's name. */
  function Tagged(name: string, records: seq<Record>): seq<Entry>
  {
    seq(|records|, k requires 0 <= k < |records| => Entry(name, records[k]))
  }

  /** Every record the nested loop examines, in the order it examines them: program by
      program, and within a program in list order. A program without `programDataList`
      contributes nothing. */
  function Entries(data: seq<Program>): (r: seq<Entry>)
    ensures forall i, t :: 0 <= i < |data| && t in RecordsOf(data[i]) ==> Entry(ProgramNameOf(data[i]), t) in r
    ensures forall e :: e in r ==> exists i :: 0 <= i < |data| && e.programName == ProgramNameOf(data[i]) && e.timetable in RecordsOf(data[i])
  {
    if data == [] then []
    else
      var n := |data| - 1;
      var init, last := data[..n], data[n];
      var tagged := Tagged(ProgramNameOf(last), RecordsOf(last));
      assert forall t :: t in RecordsOf(last) ==> Entry(ProgramNameOf(last), t) in tagged by {
        forall t | t in RecordsOf(last) ensures Entry(ProgramNameOf(last), t) in tagged {
          var k :| 0 <= k < |RecordsOf(last)| && RecordsOf(last)[k] == t;
          assert tagged[k] == Entry(ProgramNameOf(last), t);
        }
      }
      assert forall i :: 0 <= i < n ==> init[i] == data[i];
      Entries(init) + tagged
  }

  predicate NoDuplicates(s: seq<string>)
  {
    forall i, j :: 0 <= i < j < |s| ==> s[i] != s[j]
  }

  /** What one detection pass produces: the records it emits, in order, and the
      identities it appends to the seen-list, in order. */
  datatype Delta = Delta(emitted: seq<Entry>, appended: seq<string>)

  /** The detection pass, one record at a time: a record is emitted exactly when its
      identity is absent from the seen-list as it stands when the record is examined,
      that is from `seen` followed by what the pass has appended so far. */
  function Scan(es: seq<Entry>, seen: seq<string>): (r: Delta)
    ensures |r.emitted| <= |es|
  {
    if es == [] then Delta([], [])
    else
      var d := Scan(es[..|es| - 1], seen);
      var e := es[|es| - 1];
      if EntryId(e) in seen + d.appended then d
      else Delta(d.emitted + [e], d.appended + [EntryId(e)])
  }

  /** The k-th examined record is new when its identity is neither already seen nor the
      identity of an earlier record of the same batch. */
  predicate IsFresh(es: seq<Entry>, seen: seq<string>, k: nat)
    requires k < |es|
  {
    EntryId(es[k]) !in seen && forall j :: 0 <= j < k ==> EntryId(es[j]) != EntryId(es[k])
  }

  /** A reference definition of the emitted records: the new ones, kept in source order. */
  function FreshEntries(es: seq<Entry>, seen: seq<string>): (r: seq<Entry>)
    ensures |r| <= |es|
    ensures forall e :: e in r ==> e in es && EntryId(e) !in seen
  {
    if es == [] then []
    else FreshEntries(es[..|es| - 1], seen) + (if IsFresh(es, seen, |es| - 1) then [es[|es| - 1]] else [])
  }

  // ---------------------------------------------------------------------------
  // Properties of a detection pass
  // ---------------------------------------------------------------------------

  /** The identities appended are exactly the identities of the emitted records, in the same
      order; so as many identities are appended as records are emitted. */
  lemma {:induction false} ScanAppendsEmittedIds(es: seq<Entry>, seen: seq<string>)
    ensures Scan(es, seen).appended == Ids(Scan(es, seen).emitted)
    ensures |Scan(es, seen).appended| == |Scan(es, seen).emitted|
  {
    if es != [] {
      ScanAppendsEmittedIds(es[..|es| - 1], seen);
    }
  }

  /** After the pass, the seen-list holds exactly what it held before plus the identity of
      every examined record. */
  lemma {:induction false} ScanCovers(es: seq<Entry>, seen: seq<string>)
    ensures forall x :: x in seen + Scan(es, seen).appended <==> x in seen || x in Ids(es)
  {
    if es != [] {
      var init := es[..|es| - 1];
      ScanCovers(init, seen);
      assert Ids(es) == Ids(init) + [EntryId(es[|es| - 1])];
    }
  }

  /** Emitted records are exactly the fresh ones, in source order. */
  lemma {:induction false} ScanEmitsFresh(es: seq<Entry>, seen: seq<string>)
    ensures Scan(es, seen).emitted == FreshEntries(es, seen)
  {
    if es != [] {
      var n := |es| - 1;
      var init := es[..n];
      ScanEmitsFresh(init, seen);
      ScanCovers(init, seen);
      var x := EntryId(es[n]);
      if x in seen + Scan(init, seen).appended {
        if x !in seen {
          var j :| 0 <= j < n && Ids(init)[j] == x;
          assert EntryId(es[j]) == x;
        }
        assert !IsFresh(es, seen, n);
      } else {
        forall j | 0 <= j < n
          ensures EntryId(es[j]) != x
        {
          assert Ids(init)[j] == EntryId(es[j]);
        }
        assert IsFresh(es, seen, n);
      }
    }
  }

  /** Appended identities are new: none was in the list before, and none is appended twice.
      Hence a seen-list without duplicates stays without duplicates. */
  lemma {:induction false} ScanAppendsDistinct(es: seq<Entry>, seen: seq<string>)
    ensures forall x :: x in Scan(es, seen).appended ==> x !in seen
    ensures NoDuplicates(Scan(es, seen).appended)
    ensures NoDuplicates(seen) ==> NoDuplicates(seen + Scan(es, seen).appended)
  {
    if es != [] {
      ScanAppendsDistinct(es[..|es| - 1], seen);
    }
    if NoDuplicates(seen) {
      NoDuplicatesConcat(seen, Scan(es, seen).appended);
    }
  }

  lemma NoDuplicatesConcat(a: seq<string>, b: seq<string>)
    requires NoDuplicates(a) && NoDuplicates(b)
    requires forall x :: x in b ==> x !in a
    ensures NoDuplicates(a + b)
  {
    forall i, j | 0 <= i < j < |a + b|
      ensures (a + b)[i] != (a + b)[j]
    {
      if j < |a| {
        assert (a + b)[i] == a[i] && (a + b)[j] == a[j];
      } else if i < |a| {
        assert (a + b)[i] == a[i] && (a + b)[j] == b[j - |a|];
        assert b[j - |a|] in b;
      } else {
        assert (a + b)[i] == b[i - |a|] && (a + b)[j] == b[j - |a|];
      }
    }
  }

  /** A pass over records that are all already seen emits nothing and appends nothing. */
  lemma {:induction false} ScanAllKnown(es: seq<Entry>, seen: seq<string>)
    requires forall k :: 0 <= k < |es| ==> EntryId(es[k]) in seen
    ensures Scan(es, seen) == Delta([], [])
  {
    if es != [] {
      ScanAllKnown(es[..|es| - 1], seen);
    }
  }

  /** Running the pass a second time over the same batch, on the seen-list the first pass
      left behind, emits nothing and leaves the seen-list unchanged. */
  lemma {:induction false} ScanIdempotent(es: seq<Entry>, seen: seq<string>)
    ensures Scan(es, seen + Scan(es, seen).appended) == Delta([], [])
  {
    var after := seen + Scan(es, seen).appended;
    ScanCovers(es, seen);
    forall k | 0 <= k < |es|
      ensures EntryId(es[k]) in after
    {
      assert Ids(es)[k] == EntryId(es[k]);
    }
    ScanAllKnown(es, after);
  }

  /** A pass emits something exactly when it appends something: with nothing new the
      seen-list is left exactly as it was. */
  lemma ScanNothingNew(es: seq<Entry>, seen: seq<string>)
    ensures Scan(es, seen).emitted == [] <==> Scan(es, seen).appended == []
    ensures Scan(es, seen).emitted == [] ==> seen + Scan(es, seen).appended == seen
  {
    ScanAppendsEmittedIds(es, seen);
  }

  /** After a reset (an empty seen-list) every examined record's identity is emitted. */
  lemma ScanAfterReset(es: seq<Entry>)
    ensures forall k :: 0 <= k < |es| ==> EntryId(es[k]) in Ids(Scan(es, []).emitted)
  {
    ScanCovers(es, []);
    ScanAppendsEmittedIds(es, []);
    forall k | 0 <= k < |es|
      ensures EntryId(es[k]) in Ids(Scan(es, []).emitted)
    {
      assert Ids(es)[k] == EntryId(es[k]);
    }
  }

  /** What a pass does to the seen-list, in one statement: it grows by one identity per
      emitted record, stays free of duplicates if it was, and ends up holding every examined
      record's identity. */
  lemma ScanSummary(es: seq<Entry>, seen: seq<string>)
    ensures var d := Scan(es, seen);
      && |d.appended| == |d.emitted|
      && (NoDuplicates(seen) ==> NoDuplicates(seen + d.appended))
      && forall k :: 0 <= k < |es| ==> EntryId(es[k]) in seen + d.appended
  {
    ScanAppendsEmittedIds(es, seen);
    ScanAppendsDistinct(es, seen);
    ScanCovers(es, seen);
    forall k | 0 <= k < |es|
      ensures EntryId(es[k]) in seen + Scan(es, seen).appended
    {
      assert Ids(es)[k] == EntryId(es[k]);
    }
  }

  // ---------------------------------------------------------------------------
  // Facts the detection loop needs
  // ---------------------------------------------------------------------------

  lemma ScanSnoc(es: seq<Entry>, e: Entry, seen: seq<string>)
    ensures Scan(es + [e], seen) ==
      var d := Scan(es, seen);
      if EntryId(e) in seen + d.appended then d
      else Delta(d.emitted + [e], d.appended + [EntryId(e)])
  {
    assert (es + [e])[..|es|] == es;
  }

  lemma EntriesSnoc(data: seq<Program>, i: nat)
    requires i < |data|
    ensures Entries(data[..i + 1]) == Entries(data[..i]) + Tagged(ProgramNameOf(data[i]), RecordsOf(data[i]))
  {
    assert data[..i + 1][..i] == data[..i];
  }

  lemma TaggedSnoc(name: string, records: seq<Record>, j: nat)
    requires j < |records|
    ensures Tagged(name, records[..j + 1]) == Tagged(name, records[..j]) + [Entry(name, records[j])]
  {
  }

  // ---------------------------------------------------------------------------
  // Identity
  // ---------------------------------------------------------------------------

  /** The separator does not make the identity injective: two records that differ in
      semester and title share one identity, so the second is never announced. */
  lemma IdentityCollision()
    ensures
      var a := Record(Some("http://x/a.pdf"), Some("5_a"), Some("b"));
      var b := Record(Some("http://x/a.pdf"), Some("5"), Some("a_b"));
      a != b && UniqueId("BTech", a) == UniqueId("BTech", b)
  {
    var a := Record(Some("http://x/a.pdf"), Some("5_a"), Some("b"));
    var b := Record(Some("http://x/a.pdf"), Some("5"), Some("a_b"));
    assert a.semester != b.semester;
  }

  lemma {:induction false} SplitAtSeparator(a: string, x: string, b: string, y: string)
    requires '_' !in a && '_' !in b
    requires a + "_" + x == b + "_" + y
    ensures a == b && x == y
  {
    var s := a + "_" + x;
    assert s == b + "_" + y;
    assert forall k :: 0 <= k < |a| ==> s[k] == a[k];
    assert forall k :: 0 <= k < |b| ==> s[k] == b[k];
    assert s[|a|] == '_' && s[|b|] == '_';
    assert |a| == |b|;
    assert a == s[..|a|] == b;
    assert x == s[|a| + 1..] == y;
  }

  /** Where each part sits in an identity: the program name, then after a separator the
      semester, then after another the title, then after a third the url to the end. */
  lemma UniqueIdLayout(programName: string, t: Record)
    ensures
      var r, n := UniqueId(programName, t), |programName|;
      var s, ti, u := t.semester.GetOr(""), t.title.GetOr(""), t.url.GetOr("");
      && r[..n] == programName && r[n] == '_'
      && r[n + 1..n + 1 + |s|] == s && r[n + 1 + |s|] == '_'
      && r[n + 2 + |s|..n + 2 + |s| + |ti|] == ti && r[n + 2 + |s| + |ti|] == '_'
      && r[n + 3 + |s| + |ti|..] == u
  {
    var s, ti, u := t.semester.GetOr(""), t.title.GetOr(""), t.url.GetOr("");
    var r, n := UniqueId(programName, t), |programName|;
    assert r == programName + "_" + s + "_" + ti + "_" + u;
  }

  /** When the program name, semester and title contain no underscore (the url may), equal
      identities mean equal program names and equal (defaulted) fields. */
  lemma UniqueIdInjective(n1: string, t1: Record, n2: string, t2: Record)
    requires '_' !in n1 && '_' !in t1.semester.GetOr("") && '_' !in t1.title.GetOr("")
    requires '_' !in n2 && '_' !in t2.semester.GetOr("") && '_' !in t2.title.GetOr("")
    requires UniqueId(n1, t1) == UniqueId(n2, t2)
    ensures n1 == n2
    ensures t1.semester.GetOr("") == t2.semester.GetOr("")
    ensures t1.title.GetOr("") == t2.title.GetOr("")
    ensures t1.url.GetOr("") == t2.url.GetOr("")
  {
    var s1, ti1, u1 := t1.semester.GetOr(""), t1.title.GetOr(""), t1.url.GetOr("");
    var s2, ti2, u2 := t2.semester.GetOr(""), t2.title.GetOr(""), t2.url.GetOr("");
    assert UniqueId(n1, t1) == n1 + "_" + (s1 + "_" + ti1 + "_" + u1);
    assert UniqueId(n2, t2) == n2 + "_" + (s2 + "_" + ti2 + "_" + u2);
    SplitAtSeparator(n1, s1 + "_" + ti1 + "_" + u1, n2, s2 + "_" + ti2 + "_" + u2);
    assert s1 + "_" + ti1 + "_" + u1 == s1 + "_" + (ti1 + "_" + u1);
    assert s2 + "_" + ti2 + "_" + u2 == s2 + "_" + (ti2 + "_" + u2);
    SplitAtSeparator(s1, ti1 + "_" + u1, s2, ti2 + "_" + u2);
    SplitAtSeparator(ti1, u1, ti2, u2);
  }

  /** The example batch: one program with one record, against an empty seen-list. */
  lemma SingleRecordExample()
    ensures
      var r := Record(Some("http://x/a.pdf"), Some("5"), Some("CS Timetable"));
      var data := [Program(Some("BTech"), Some([r]))];
      Scan(Entries(data), []) == Delta([Entry("BTech", r)], ["BTech_5_CS Timetable_http://x/a.pdf"])
  {
    var r := Record(Some("http://x/a.pdf"), Some("5"), Some("CS Timetable"));
    var data := [Program(Some("BTech"), Some([r]))];
    var e := Entry("BTech", r);
    assert data[..0] == [];
    assert Tagged("BTech", [r]) == [e];
    assert Entries(data) == [e];
    assert [e][..0] == [];
    assert Scan([e], []) == Delta([e], [EntryId(e)]);
    assert EntryId(e) == "BTech_5_CS Timetable_http://x/a.pdf";
  }
}
