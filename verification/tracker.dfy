/** `PropertyTracker`: the persistent set of listing ids already notified about,
    kept in memory and mirrored to a JSON database file after every change. */
module Tracker {
  import opened Wrappers
  import opened Listings
  import Seqs

  /** What the database file holds, as far as the tracker reads it: nothing at
      the path, content that does not parse as JSON, or a JSON object with its
      `seen_ids` list and `last_updated` string, each of which may be missing. */
  datatype DbFile =
    | Missing
    | Unparsable
    | Stored(seenIds: Option<seq<string>>, lastUpdated: Option<string>)

  /** A tracker: its database path and its in-memory set of seen ids, listed in
      insertion order without repetition. */
  datatype Tracker = Tracker(path: string, ids: seq<string>)

  /** The result of `get_stats`. */
  datatype Stats = Stats(totalSeen: nat, databasePath: string, lastUpdated: string)

  /** The tracker's in-memory `seen_properties` set. */
  function Seen(t: Tracker): set<string> {
    Seqs.Elems(t.ids)
  }

  /** The ids a database file yields: its `seen_ids` list, or none when the file
      is missing, does not parse or lacks the key. */
  function FileIds(f: DbFile): set<string> {
    if f.Stored? && f.seenIds.Some? then Seqs.Elems(f.seenIds.value) else {}
  }

  /** `_load_seen_properties`: the list in the file collapsed to a set; a missing
      file, a parse error or a missing `seen_ids` key give the empty set. */
  function LoadSeen(f: DbFile): (ids: seq<string>)
    ensures Seqs.NoDups(ids)
    ensures Seqs.Elems(ids) == FileIds(f)
  {
    match f
    case Stored(Some(xs), _) => DistinctElems(xs); Seqs.Distinct(xs)
    case _ => []
  }

  /** `PropertyTracker(path)` on the file currently at `path`. */
  function Open(path: string, f: DbFile): (t: Tracker)
    ensures t.path == path && Seen(t) == FileIds(f) && Seqs.NoDups(t.ids)
  {
    Tracker(path, LoadSeen(f))
  }

  /** `_save_seen_properties` at clock reading `now`: the whole set and the time
      of writing replace the file. */
  function Save(t: Tracker, now: string): (f: DbFile)
    ensures FileIds(f) == Seen(t)
    ensures LastUpdated(f) == now
  {
    Stored(Some(t.ids), Some(now))
  }

  /** `_get_last_updated`: `"Never"` without a file, `"Unknown"` when it does not
      parse or lacks the key. */
  function LastUpdated(f: DbFile): string {
    match f
    case Missing => "Never"
    case Unparsable => "Unknown"
    case Stored(_, Some(s)) => s
    case Stored(_, None) => "Unknown"
  }

  /** `property_exists`. */
  function Exists(t: Tracker, id: string): (b: bool)
    ensures b <==> id in Seen(t)
  {
    id in t.ids
  }

  /** `set.add` on the id list. */
  function Insert(ids: seq<string>, id: string): (r: seq<string>)
    ensures Seqs.Elems(r) == Seqs.Elems(ids) + {id}
    ensures Seqs.NoDups(ids) ==> Seqs.NoDups(r)
    ensures |ids| <= |r| <= |ids| + 1
  {
    if id in ids then ids else ids + [id]
  }

  /** `set.update` on the id list, one id after the other. */
  function InsertAll(ids: seq<string>, xs: seq<string>): (r: seq<string>)
    ensures Seqs.Elems(r) == Seqs.Elems(ids) + Seqs.Elems(xs)
    ensures Seqs.NoDups(ids) ==> Seqs.NoDups(r)
  {
    if |xs| == 0 then ids
    else
      var r := Insert(InsertAll(ids, xs[..|xs| - 1]), xs[|xs| - 1]);
      assert xs == xs[..|xs| - 1] + [xs[|xs| - 1]];
      r
  }

  /** `add_property`: the id joins the set and the file is rewritten. */
  function Add(t: Tracker, id: string, now: string): (r: (Tracker, DbFile))
    ensures r.0.path == t.path
    ensures Seen(r.0) == Seen(t) + {id}
    ensures r.1 == Save(r.0, now)
  {
    var t' := t.(ids := Insert(t.ids, id));
    (t', Save(t', now))
  }

  /** `get_new_properties`: the rows whose id has not been seen, in row order. An
      empty table is returned as it is, which the filter does as well. */
  function GetNew(t: Tracker, rows: seq<Property>): (r: seq<Property>)
    ensures |r| <= |rows|
  {
    if |rows| == 0 then []
    else
      var p := rows[|rows| - 1];
      GetNew(t, rows[..|rows| - 1]) + (if p.listingId in Seen(t) then [] else [p])
  }

  /** `mark_properties_as_seen`: every id of a non-empty batch joins the set and
      the file is rewritten; an empty batch changes nothing and writes nothing. */
  function MarkSeen(t: Tracker, f: DbFile, rows: seq<Property>, now: string): (r: (Tracker, DbFile))
    ensures r.0.path == t.path
    ensures Seen(r.0) == Seen(t) + Seqs.Elems(Ids(rows))
    ensures |rows| == 0 ==> r == (t, f)
    ensures |rows| > 0 ==> r.1 == Save(r.0, now)
  {
    if |rows| == 0 then (t, f)
    else
      var t' := t.(ids := InsertAll(t.ids, Ids(rows)));
      (t', Save(t', now))
  }

  /** `get_stats` against the file currently at the tracker's path. */
  function GetStats(t: Tracker, f: DbFile): (s: Stats)
    ensures s.totalSeen == |Seen(t)|
    ensures s.databasePath == t.path
    ensures s.lastUpdated == LastUpdated(f)
  {
    Stats(|Seen(t)|, t.path, LastUpdated(f))
  }

  /** The file mirrors the tracker: the id list has no repetitions and reloading
      the file gives back the same set. */
  ghost predicate Synced(t: Tracker, f: DbFile) {
    Seqs.NoDups(t.ids) && FileIds(f) == Seen(t)
  }

  lemma {:induction false} DistinctElems(xs: seq<string>)
    ensures Seqs.Elems(Seqs.Distinct(xs)) == Seqs.Elems(xs)
  {
    var d := Seqs.Distinct(xs);
    forall x | x in Seqs.Elems(xs)
      ensures x in Seqs.Elems(d)
    {
      var i :| 0 <= i < |xs| && xs[i] == x;
    }
    forall x | x in Seqs.Elems(d)
      ensures x in Seqs.Elems(xs)
    {
      var i :| 0 <= i < |d| && d[i] == x;
    }
  }

  /** A set written to the file comes back unchanged when the file is read. */
  lemma SaveLoad(t: Tracker, now: string)
    ensures Seqs.Elems(LoadSeen(Save(t, now))) == Seen(t)
    ensures Seqs.NoDups(t.ids) ==> LoadSeen(Save(t, now)) == t.ids
  {
    if Seqs.NoDups(t.ids) {
      Seqs.DistinctOfNoDups(t.ids);
    }
  }

  /** A tracker opened on any file is in sync with it. */
  lemma OpenSynced(path: string, f: DbFile)
    ensures Synced(Open(path, f), f)
  {
  }

  /** Opening a missing, unparsable or key-less file gives an empty tracker. */
  lemma OpenEmpty(path: string, f: DbFile)
    requires !(f.Stored? && f.seenIds.Some?)
    ensures Seen(Open(path, f)) == {} && Open(path, f).ids == []
  {
  }

  /** `add_property` and `mark_properties_as_seen` keep the file in sync. */
  lemma AddSynced(t: Tracker, f: DbFile, id: string, now: string)
    requires Synced(t, f)
    ensures Synced(Add(t, id, now).0, Add(t, id, now).1)
  {
  }

  lemma MarkSeenSynced(t: Tracker, f: DbFile, rows: seq<Property>, now: string)
    requires Synced(t, f)
    ensures Synced(MarkSeen(t, f, rows, now).0, MarkSeen(t, f, rows, now).1)
  {
  }

  /** A tracker in sync with its file survives a restart: a fresh tracker opened
      on that file has the same set. In particular an id added in one run exists
      in the next. */
  lemma Reopen(t: Tracker, f: DbFile)
    requires Synced(t, f)
    ensures Seen(Open(t.path, f)) == Seen(t)
  {
  }

  lemma AddThenReopen(t: Tracker, f: DbFile, id: string, now: string)
    requires Synced(t, f)
    ensures Exists(Open(t.path, Add(t, id, now).1), id)
  {
    AddSynced(t, f, id, now);
  }

  /** Adding an id twice is the same as adding it once. */
  lemma AddIdempotent(t: Tracker, id: string, now: string)
    ensures Add(Add(t, id, now).0, id, now) == Add(t, id, now)
  {
  }

  /** `len(self.seen_properties)` is the length of the id list. */
  lemma {:induction false} TotalSeenIsLength(t: Tracker, f: DbFile)
    requires Seqs.NoDups(t.ids)
    ensures GetStats(t, f).totalSeen == |t.ids|
  {
    CardOfNoDups(t.ids);
  }

  lemma {:induction false} CardOfNoDups(s: seq<string>)
    requires Seqs.NoDups(s)
    ensures |Seqs.Elems(s)| == |s|
  {
    if |s| > 0 {
      var s' := s[..|s| - 1];
      var x := s[|s| - 1];
      assert s == s' + [x];
      assert Seqs.NoDups(s');
      CardOfNoDups(s');
      assert x !in Seqs.Elems(s');
      assert Seqs.Elems(s) == Seqs.Elems(s') + {x};
    }
  }

  /** `GetNew` keeps exactly the rows with an unseen id, in their order, every
      copy of a repeated row included. */
  lemma {:induction false} GetNewFilters(t: Tracker, rows: seq<Property>)
    ensures forall p | p in GetNew(t, rows) :: p in rows && p.listingId !in Seen(t)
    ensures forall i | 0 <= i < |rows| && rows[i].listingId !in Seen(t) :: rows[i] in GetNew(t, rows)
    ensures Seqs.IsSubsequence(GetNew(t, rows), rows)
    ensures forall p :: Seqs.Count(GetNew(t, rows), p) == if p.listingId in Seen(t) then 0 else Seqs.Count(rows, p)
  {
    if |rows| > 0 {
      var rows', p := rows[..|rows| - 1], rows[|rows| - 1];
      assert rows == rows' + [p];
      GetNewFilters(t, rows');
      var g' := GetNew(t, rows');
      Seqs.CountSnoc(rows', p);
      Seqs.CountSnoc(g', p);
      if p.listingId in Seen(t) {
        assert GetNew(t, rows) == g';
        Seqs.SubsequenceSnoc(g', rows', p, false);
      } else {
        assert GetNew(t, rows) == g' + [p];
        Seqs.SubsequenceSnoc(g', rows', p, true);
      }
    }
  }

  /** After a batch is marked as seen, nothing in it is new any more. */
  lemma MarkThenNothingNew(t: Tracker, f: DbFile, rows: seq<Property>, now: string)
    ensures GetNew(MarkSeen(t, f, rows, now).0, rows) == []
  {
    var t' := MarkSeen(t, f, rows, now).0;
    forall i | 0 <= i < |rows|
      ensures rows[i].listingId in Seen(t')
    {
      assert Ids(rows)[i] == rows[i].listingId;
    }
    GetNewAllSeen(t', rows);
  }

  lemma {:induction false} GetNewAllSeen(t: Tracker, rows: seq<Property>)
    requires forall i | 0 <= i < |rows| :: rows[i].listingId in Seen(t)
    ensures GetNew(t, rows) == []
  {
    if |rows| > 0 {
      GetNewAllSeen(t, rows[..|rows| - 1]);
    }
  }

  /** The calls a run makes on the tracker. */
  datatype TrackerCall = AddCall(id: string) | MarkCall(rows: seq<Property>)

  /** Replays `calls` from tracker `t` and file `f` at clock reading `now`. */
  function Run(t: Tracker, f: DbFile, calls: seq<TrackerCall>, now: string): (r: (Tracker, DbFile))
    ensures r.0.path == t.path
  {
    if |calls| == 0 then (t, f)
    else
      var (t', f') := Run(t, f, calls[..|calls| - 1], now);
      match calls[|calls| - 1]
      case AddCall(id) => Add(t', id, now)
      case MarkCall(rows) => MarkSeen(t', f', rows, now)
  }

  /** Along any sequence of calls the seen set only grows and the file stays in
      sync with it. */
  lemma {:induction false} RunMonotone(t: Tracker, f: DbFile, calls: seq<TrackerCall>, now: string)
    requires Synced(t, f)
    ensures Seen(t) <= Seen(Run(t, f, calls, now).0)
    ensures Synced(Run(t, f, calls, now).0, Run(t, f, calls, now).1)
  {
    if |calls| > 0 {
      RunMonotone(t, f, calls[..|calls| - 1], now);
      var (t', f') := Run(t, f, calls[..|calls| - 1], now);
      match calls[|calls| - 1]
      case AddCall(id) => AddSynced(t', f', id, now);
      case MarkCall(rows) => MarkSeenSynced(t', f', rows, now);
    }
  }
}
