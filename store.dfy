/**
 * The `meetings` collection: records kept in insertion order, looked up by
 * filename (`find_one`/`update_one` take the first match), by latest timestamp
 * (`find_one(sort=[('timestamp', -1)])`), and listed newest first.
 */
module Store {
  import opened Wrappers
  import opened Timestamps
  import opened Documents

  /** One stored meeting. `updatedAt` is absent until an update sets it; `meetingType` is absent on app.py's records. */
  datatype Meeting = Meeting(
    filename: string,
    summary: Value,
    transcript: Value,
    timestamp: DateTime,
    updatedAt: Option<DateTime>,
    meetingType: Option<Value>)

  function Time(m: Meeting): int
  {
    Instant(m.timestamp)
  }

  // ---------------------------------------------------------------------
  // Lookup

  /** The first record, in insertion order, with the given filename. */
  function FirstNamed(rs: seq<Meeting>, name: string): (r: Option<nat>)
    ensures r.Some? ==> (r.value < |rs| && rs[r.value].filename == name &&
      forall j :: 0 <= j < r.value ==> rs[j].filename != name)
    ensures r.None? ==> forall j :: 0 <= j < |rs| ==> rs[j].filename != name
    decreases |rs|
  {
    if rs == [] then None
    else if rs[0].filename == name then Some(0)
    else match FirstNamed(rs[1..], name)
      case None => None
      case Some(i) => Some(i + 1)
  }

  /** The first record, in insertion order, among those with the latest timestamp. */
  function LatestIndex(rs: seq<Meeting>): (r: Option<nat>)
    ensures r.None? <==> rs == []
    ensures r.Some? ==> (r.value < |rs| &&
      (forall j :: 0 <= j < |rs| ==> Time(rs[j]) <= Time(rs[r.value])) &&
      (forall j :: 0 <= j < r.value ==> Time(rs[j]) < Time(rs[r.value])))
    decreases |rs|
  {
    if rs == [] then None
    else
      var last := |rs| - 1;
      match LatestIndex(rs[..last])
      case None => Some(last)
      case Some(i) => if Time(rs[i]) < Time(rs[last]) then Some(last) else Some(i)
  }

  // ---------------------------------------------------------------------
  // Update by filename

  /** A `$set` of summary and transcript, and of `updated_at` when one is given. */
  function Amend(m: Meeting, summary: Value, transcript: Value, updatedAt: Option<DateTime>): Meeting
  {
    m.(summary := summary, transcript := transcript,
       updatedAt := if updatedAt.Some? then updatedAt else m.updatedAt)
  }

  /** The records after `update_one({'filename': name}, {'$set': ...})`. */
  function UpdatedByName(rs: seq<Meeting>, name: string, summary: Value, transcript: Value, updatedAt: Option<DateTime>): seq<Meeting>
  {
    match FirstNamed(rs, name)
    case None => rs
    case Some(i) => rs[i := Amend(rs[i], summary, transcript, updatedAt)]
  }

  /**
   * An update by filename never inserts or removes a record, never renames or re-dates one,
   * changes at most one record (the first with that name), and changes nothing when no record has the name.
   */
  lemma UpdateChangesAtMostOne(rs: seq<Meeting>, name: string, summary: Value, transcript: Value, updatedAt: Option<DateTime>)
    ensures var r := UpdatedByName(rs, name, summary, transcript, updatedAt);
      && |r| == |rs|
      && (forall i :: 0 <= i < |rs| ==> r[i].filename == rs[i].filename && r[i].timestamp == rs[i].timestamp)
      && (forall i, j :: 0 <= i < j < |rs| ==> r[i] == rs[i] || r[j] == rs[j])
      && (forall i :: 0 <= i < |rs| && r[i] != rs[i] ==> rs[i].filename == name)
      && ((forall i :: 0 <= i < |rs| ==> rs[i].filename != name) ==> r == rs)
  {
  }

  /** Repeating the same update changes nothing more. */
  lemma UpdateIdempotent(rs: seq<Meeting>, name: string, summary: Value, transcript: Value, updatedAt: Option<DateTime>)
    ensures var once := UpdatedByName(rs, name, summary, transcript, updatedAt);
      UpdatedByName(once, name, summary, transcript, updatedAt) == once
  {
    var once := UpdatedByName(rs, name, summary, transcript, updatedAt);
    match FirstNamed(rs, name)
    case None =>
    case Some(i) =>
      assert forall j :: 0 <= j < |rs| ==> once[j].filename == rs[j].filename;
      assert FirstNamed(once, name) == Some(i) by {
        FirstNamedSameNames(rs, once, name);
      }
  }

  /** Lookup by name depends on the names only. */
  lemma {:induction false} FirstNamedSameNames(a: seq<Meeting>, b: seq<Meeting>, name: string)
    requires |a| == |b| && forall j :: 0 <= j < |a| ==> a[j].filename == b[j].filename
    ensures FirstNamed(a, name) == FirstNamed(b, name)
    decreases |a|
  {
    if a != [] && a[0].filename != name {
      FirstNamedSameNames(a[1..], b[1..], name);
    }
  }

  // ---------------------------------------------------------------------
  // Newest first

  /** Inserts `m` after every record at least as new: a stable insertion into a newest-first list. */
  function InsertNewest(sorted: seq<Meeting>, m: Meeting): seq<Meeting>
    decreases |sorted|
  {
    if sorted == [] then [m]
    else if Time(sorted[0]) < Time(m) then [m] + sorted
    else [sorted[0]] + InsertNewest(sorted[1..], m)
  }

  /** `sort(key=timestamp, reverse=True)`, a stable sort, of the records in insertion order. */
  function NewestFirst(rs: seq<Meeting>): seq<Meeting>
    decreases |rs|
  {
    if rs == [] then [] else InsertNewest(NewestFirst(rs[..|rs| - 1]), rs[|rs| - 1])
  }

  ghost predicate SortedNewestFirst(s: seq<Meeting>)
  {
    forall i, j :: 0 <= i < j < |s| ==> Time(s[i]) >= Time(s[j])
  }

  /** The records with timestamp instant `t`, in their order in `s`. */
  function At(s: seq<Meeting>, t: int): seq<Meeting>
    decreases |s|
  {
    if s == [] then [] else (if Time(s[0]) == t then [s[0]] else []) + At(s[1..], t)
  }

  lemma {:induction false} AtSnoc(s: seq<Meeting>, m: Meeting, t: int)
    ensures At(s + [m], t) == At(s, t) + (if Time(m) == t then [m] else [])
    decreases |s|
  {
    if s != [] {
      assert (s + [m])[1..] == s[1..] + [m];
      AtSnoc(s[1..], m, t);
    }
  }

  lemma {:induction false} AtNone(s: seq<Meeting>, t: int)
    requires forall i :: 0 <= i < |s| ==> Time(s[i]) != t
    ensures At(s, t) == []
    decreases |s|
  {
    if s != [] {
      AtNone(s[1..], t);
    }
  }

  lemma {:induction false} InsertNewestMultiset(s: seq<Meeting>, m: Meeting)
    ensures multiset(InsertNewest(s, m)) == multiset(s) + multiset{m}
    decreases |s|
  {
    if s != [] && Time(s[0]) >= Time(m) {
      InsertNewestMultiset(s[1..], m);
      assert s == [s[0]] + s[1..];
    }
  }

  /** Inserting keeps every record at or below a bound that the list and the new record respect. */
  lemma {:induction false} InsertNewestBounded(s: seq<Meeting>, m: Meeting, bound: int)
    requires Time(m) <= bound && forall i :: 0 <= i < |s| ==> Time(s[i]) <= bound
    ensures forall i :: 0 <= i < |InsertNewest(s, m)| ==> Time(InsertNewest(s, m)[i]) <= bound
    decreases |s|
  {
    if s != [] && Time(s[0]) >= Time(m) {
      InsertNewestBounded(s[1..], m, bound);
      var r := [s[0]] + InsertNewest(s[1..], m);
      assert InsertNewest(s, m) == r;
      forall i | 0 <= i < |r| ensures Time(r[i]) <= bound {
        if i > 0 {
          assert r[i] == InsertNewest(s[1..], m)[i - 1];
        }
      }
    }
  }

  lemma {:induction false} InsertNewestSorted(s: seq<Meeting>, m: Meeting)
    requires SortedNewestFirst(s)
    ensures SortedNewestFirst(InsertNewest(s, m))
    decreases |s|
  {
    if s == [] {
    } else if Time(s[0]) < Time(m) {
      var r := [m] + s;
      assert InsertNewest(s, m) == r;
      forall i, j | 0 <= i < j < |r| ensures Time(r[i]) >= Time(r[j]) {
        assert r[j] == s[j - 1];
        if i > 0 {
          assert r[i] == s[i - 1];
        }
      }
    } else {
      var rest := InsertNewest(s[1..], m);
      InsertNewestSorted(s[1..], m);
      InsertNewestBounded(s[1..], m, Time(s[0]));
      var r := [s[0]] + rest;
      assert InsertNewest(s, m) == r;
      forall i, j | 0 <= i < j < |r| ensures Time(r[i]) >= Time(r[j]) {
        assert r[j] == rest[j - 1];
        if i > 0 {
          assert r[i] == rest[i - 1];
        }
      }
    }
  }

  lemma AtCons(x: Meeting, s: seq<Meeting>, t: int)
    ensures At([x] + s, t) == (if Time(x) == t then [x] else []) + At(s, t)
  {
    assert ([x] + s)[1..] == s;
  }

  /** Inserting keeps the records of every instant in their order, the new one last. */
  lemma {:induction false} InsertNewestAt(s: seq<Meeting>, m: Meeting, t: int)
    requires SortedNewestFirst(s)
    ensures At(InsertNewest(s, m), t) == At(s, t) + (if Time(m) == t then [m] else [])
    decreases |s|
  {
    if s == [] {
      AtCons(m, [], t);
    } else if Time(s[0]) < Time(m) {
      AtCons(m, s, t);
      if Time(m) == t {
        AtNone(s, t);
      }
    } else {
      var rest := InsertNewest(s[1..], m);
      assert InsertNewest(s, m) == [s[0]] + rest;
      SortedTail(s);
      InsertNewestAt(s[1..], m, t);
      AtCons(s[0], rest, t);
      AtCons(s[0], s[1..], t);
      assert s == [s[0]] + s[1..];
    }
  }

  lemma SortedTail(s: seq<Meeting>)
    requires s != [] && SortedNewestFirst(s)
    ensures SortedNewestFirst(s[1..])
  {
    var tail := s[1..];
    assert forall i :: 0 <= i < |tail| ==> tail[i] == s[i + 1];
  }

  /** Listing newest first keeps every record exactly once. */
  lemma {:induction false} NewestFirstPermutes(rs: seq<Meeting>)
    ensures multiset(NewestFirst(rs)) == multiset(rs)
    decreases |rs|
  {
    if rs != [] {
      NewestFirstPermutes(rs[..|rs| - 1]);
      NewestFirstLastMultiset(rs);
      LastMultiset(rs);
    }
  }

  lemma NewestFirstLastMultiset(rs: seq<Meeting>)
    requires rs != []
    ensures multiset(NewestFirst(rs)) == multiset(NewestFirst(rs[..|rs| - 1])) + multiset{rs[|rs| - 1]}
  {
    InsertNewestMultiset(NewestFirst(rs[..|rs| - 1]), rs[|rs| - 1]);
  }

  lemma LastMultiset(rs: seq<Meeting>)
    requires rs != []
    ensures multiset(rs) == multiset(rs[..|rs| - 1]) + multiset{rs[|rs| - 1]}
  {
    assert rs == rs[..|rs| - 1] + [rs[|rs| - 1]];
  }

  /** Listing newest first is ordered by timestamp, newest first, and keeps records of equal timestamp in insertion order. */
  lemma {:induction false} NewestFirstSortedStable(rs: seq<Meeting>)
    ensures SortedNewestFirst(NewestFirst(rs))
    ensures forall t :: At(NewestFirst(rs), t) == At(rs, t)
    decreases |rs|
  {
    if rs != [] {
      var init := rs[..|rs| - 1];
      var m := rs[|rs| - 1];
      NewestFirstSortedStable(init);
      InsertNewestSorted(NewestFirst(init), m);
      assert rs == init + [m];
      forall t ensures At(NewestFirst(rs), t) == At(rs, t) {
        InsertNewestAt(NewestFirst(init), m, t);
        AtSnoc(init, m, t);
      }
    }
  }

  /** The head of the newest-first listing is the record `find_one(sort=[('timestamp', -1)])` picks. */
  lemma {:induction false} NewestFirstHeadIsLatest(rs: seq<Meeting>)
    requires rs != []
    ensures |NewestFirst(rs)| == |rs| && NewestFirst(rs)[0] == rs[LatestIndex(rs).value]
    decreases |rs|
  {
    NewestFirstPermutes(rs);
    assert |NewestFirst(rs)| == |multiset(NewestFirst(rs))|;
    var last := |rs| - 1;
    var init := rs[..last];
    if init != [] {
      NewestFirstHeadIsLatest(init);
    }
  }

  // ---------------------------------------------------------------------
  // The collection

  class MeetingCollection {
    var records: seq<Meeting>

    constructor ()
      ensures records == []
    {
      records := [];
    }

    /** `insert_one(record)`. */
    method InsertOne(m: Meeting)
      modifies this
      ensures records == old(records) + [m]
    {
      records := records + [m];
    }

    /** `update_one({'filename': name}, {'$set': ...})`; the result is `matched_count > 0`. */
    method UpdateOne(name: string, summary: Value, transcript: Value, updatedAt: Option<DateTime>) returns (matched: bool)
      modifies this
      ensures matched <==> exists i :: 0 <= i < |old(records)| && old(records)[i].filename == name
      ensures records == UpdatedByName(old(records), name, summary, transcript, updatedAt)
    {
      var found := FirstNamed(records, name);
      matched := found.Some?;
      if found.Some? {
        var i := found.value;
        records := records[i := Amend(records[i], summary, transcript, updatedAt)];
      }
    }

    /** `update_one({'_id': id}, {'$set': ...})`, the record's position standing for its `_id`. */
    method UpdateOneAt(i: nat, summary: Value, transcript: Value) returns (matched: bool)
      modifies this
      ensures matched <==> i < |old(records)|
      ensures matched ==> records == old(records)[i := Amend(old(records)[i], summary, transcript, None)]
      ensures !matched ==> records == old(records)
    {
      matched := i < |records|;
      if matched {
        records := records[i := Amend(records[i], summary, transcript, None)];
      }
    }

    /** `find_one({'filename': name})`. */
    method FindOne(name: string) returns (r: Option<Meeting>)
      ensures r.Some? <==> exists i :: 0 <= i < |records| && records[i].filename == name
      ensures r.Some? ==> (r.value.filename == name &&
        exists i :: 0 <= i < |records| && records[i] == r.value &&
          forall j :: 0 <= j < i ==> records[j].filename != name)
    {
      r := match FirstNamed(records, name)
        case None => None
        case Some(i) => Some(records[i]);
    }
  }

  /** `get_meetings`: every record, newest first. */
  method GetMeetings(store: MeetingCollection) returns (meetings: seq<Meeting>)
    ensures multiset(meetings) == multiset(store.records)
    ensures SortedNewestFirst(meetings)
    ensures forall t :: At(meetings, t) == At(store.records, t)
  {
    meetings := NewestFirst(store.records);
    NewestFirstPermutes(store.records);
    NewestFirstSortedStable(store.records);
  }
}
