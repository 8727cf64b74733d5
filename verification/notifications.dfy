/** `_handle_notifications`: which rows of a run count as new, and how the tracker
    records them. Formatting and sending messages belong to the notifier and are
    represented only by a delivery predicate. */
module Notifications {
  import opened Listings
  import Seqs
  import Tracker

  lemma IdsSnoc(rows: seq<Property>, p: Property)
    ensures Ids(rows + [p]) == Ids(rows) + [p.listingId]
    ensures Seqs.Elems(Ids(rows + [p])) == Seqs.Elems(Ids(rows)) + {p.listingId}
  {
    assert Ids(rows + [p]) == Ids(rows) + [p.listingId];
  }

  /** The rows the check-then-add loop reports as new, in row order: a row is new
      when its id is neither in `seen` nor the id of an earlier row. */
  function NewAsChecked(rows: seq<Property>, seen: set<string>): (r: seq<Property>)
    ensures Seqs.NoDups(Ids(r))
    ensures Seqs.Elems(Ids(r)) == Seqs.Elems(Ids(rows)) - seen
    ensures Seqs.IsSubsequence(r, rows)
  {
    if |rows| == 0 then []
    else
      var rows', p := rows[..|rows| - 1], rows[|rows| - 1];
      var prev := NewAsChecked(rows', seen);
      assert rows == rows' + [p];
      IdsSnoc(rows', p);
      if p.listingId in seen || p.listingId in Seqs.Elems(Ids(rows')) then
        Seqs.SubsequenceSnoc(prev, rows', p, false);
        prev
      else
        IdsSnoc(prev, p);
        Seqs.SubsequenceSnoc(prev, rows', p, true);
        prev + [p]
  }

  /** What the notification loop keeps after the first `i` rows, from tracker `t`
      and file `f` to tracker `t1` and file `f1`. */
  ghost predicate Handled(rows: seq<Property>, i: nat, t: Tracker.Tracker, f: Tracker.DbFile, now: string,
                          newRows: seq<Property>, t1: Tracker.Tracker, f1: Tracker.DbFile)
    requires i <= |rows|
  {
    && newRows == NewAsChecked(rows[..i], Tracker.Seen(t))
    && Tracker.Seen(t1) == Tracker.Seen(t) + Seqs.Elems(Ids(rows[..i]))
    && t1.path == t.path
    && (newRows == [] ==> t1 == t && f1 == f)
    && (newRows != [] ==> f1 == Tracker.Save(t1, now))
    && (Tracker.Synced(t, f) ==> Tracker.Synced(t1, f1))
  }

  /** A row whose id is already seen changes nothing but the count of rows handled. */
  lemma SeenStep(rows: seq<Property>, i: nat, t: Tracker.Tracker, f: Tracker.DbFile, now: string,
                 newRows: seq<Property>, t1: Tracker.Tracker, f1: Tracker.DbFile)
    requires i < |rows| && Handled(rows, i, t, f, now, newRows, t1, f1)
    requires Tracker.Exists(t1, rows[i].listingId)
    ensures Handled(rows, i + 1, t, f, now, newRows, t1, f1)
  {
    assert rows[..i + 1] == rows[..i] + [rows[i]];
    IdsSnoc(rows[..i], rows[i]);
  }

  /** A row with an unseen id is reported and added, and the file rewritten. */
  lemma NewStep(rows: seq<Property>, i: nat, t: Tracker.Tracker, f: Tracker.DbFile, now: string,
                newRows: seq<Property>, t1: Tracker.Tracker, f1: Tracker.DbFile)
    requires i < |rows| && Handled(rows, i, t, f, now, newRows, t1, f1)
    requires !Tracker.Exists(t1, rows[i].listingId)
    ensures var (t2, f2) := Tracker.Add(t1, rows[i].listingId, now);
            Handled(rows, i + 1, t, f, now, newRows + [rows[i]], t2, f2)
  {
    assert rows[..i + 1] == rows[..i] + [rows[i]];
    IdsSnoc(rows[..i], rows[i]);
    if Tracker.Synced(t1, f1) {
      Tracker.AddSynced(t1, f1, rows[i].listingId, now);
    }
  }

  /** The loop of `_handle_notifications` over the rows of the combined table,
      with the tracker `t` and its file `f`. `notifier` says whether a notifier is
      configured; without one the handler returns before looking at any row.
      `newRows` is the list of new rows. */
  method HandleNotifications(rows: seq<Property>, t: Tracker.Tracker, f: Tracker.DbFile, notifier: bool, now: string)
    returns (newRows: seq<Property>, t': Tracker.Tracker, f': Tracker.DbFile)
    ensures !notifier ==> newRows == [] && t' == t && f' == f
    ensures notifier ==> newRows == NewAsChecked(rows, Tracker.Seen(t))
    ensures notifier ==> Tracker.Seen(t') == Tracker.Seen(t) + Seqs.Elems(Ids(rows))
    ensures t'.path == t.path
    ensures newRows == [] ==> t' == t && f' == f
    ensures newRows != [] ==> f' == Tracker.Save(t', now)
    ensures Tracker.Synced(t, f) ==> Tracker.Synced(t', f')
  {
    newRows, t', f' := [], t, f;
    if !notifier {
      return;
    }
    var i := 0;
    while i < |rows|
      invariant 0 <= i <= |rows|
      invariant Handled(rows, i, t, f, now, newRows, t', f')
    {
      var p := rows[i];
      if !Tracker.Exists(t', p.listingId) {
        NewStep(rows, i, t, f, now, newRows, t', f');
        newRows := newRows + [p];
        t', f' := Tracker.Add(t', p.listingId, now).0, Tracker.Add(t', p.listingId, now).1;
      } else {
        SeenStep(rows, i, t, f, now, newRows, t', f');
      }
      i := i + 1;
    }
    assert rows[..i] == rows;
  }

  /** With distinct ids in the table, the loop finds exactly what
      `get_new_properties` would have returned before it ran. */
  lemma {:induction false} CheckedIsGetNew(rows: seq<Property>, t: Tracker.Tracker)
    requires Seqs.NoDups(Ids(rows))
    ensures NewAsChecked(rows, Tracker.Seen(t)) == Tracker.GetNew(t, rows)
  {
    if |rows| > 0 {
      var rows', p := rows[..|rows| - 1], rows[|rows| - 1];
      assert Ids(rows') == Ids(rows)[..|rows| - 1];
      CheckedIsGetNew(rows', t);
      assert p.listingId !in Seqs.Elems(Ids(rows')) by {
        assert Ids(rows)[|rows| - 1] == p.listingId;
      }
    }
  }

  /** Each reported row is the first row of the table carrying its id. */
  lemma {:induction false} NewAsCheckedFirstCopies(rows: seq<Property>, seen: set<string>)
    ensures forall k | 0 <= k < |NewAsChecked(rows, seen)| ::
              var id := NewAsChecked(rows, seen)[k].listingId;
              Seqs.IndexOf(Ids(rows), id) < |rows| && NewAsChecked(rows, seen)[k] == rows[Seqs.IndexOf(Ids(rows), id)]
  {
    if |rows| > 0 {
      var rows', p := rows[..|rows| - 1], rows[|rows| - 1];
      assert rows == rows' + [p];
      NewAsCheckedFirstCopies(rows', seen);
      IdsSnoc(rows', p);
      var prev, r := NewAsChecked(rows', seen), NewAsChecked(rows, seen);
      forall k | 0 <= k < |prev|
        ensures Seqs.IndexOf(Ids(rows), prev[k].listingId) < |rows| && prev[k] == rows[Seqs.IndexOf(Ids(rows), prev[k].listingId)]
      {
        var idx := Seqs.IndexOf(Ids(rows'), prev[k].listingId);
        assert idx < |rows'| && prev[k] == rows'[idx];
        Seqs.IndexOfPrefix(Ids(rows'), [p.listingId], prev[k].listingId);
        assert rows[idx] == rows'[idx];
      }
      if |r| > |prev| {
        assert r == prev + [p] && p.listingId !in Ids(rows');
        Seqs.IndexOfAppendAbsent(Ids(rows'), p.listingId);
      }
    }
  }

  /** A table that repeats an id at positions `i < j` reports that id at most
      once, and what it reports is a copy from no later than `i`: the copy at
      `j` is found by `property_exists` because an earlier one was added. */
  lemma RepeatedIdReportedOnce(rows: seq<Property>, seen: set<string>, i: nat, j: nat)
    requires i < j < |rows| && rows[i].listingId == rows[j].listingId
    ensures var r, id := NewAsChecked(rows, seen), rows[j].listingId;
            && (forall k, k' | 0 <= k < k' < |r| :: r[k].listingId != r[k'].listingId)
            && forall k | 0 <= k < |r| && r[k].listingId == id ::
                 Seqs.IndexOf(Ids(rows), id) <= i && r[k] == rows[Seqs.IndexOf(Ids(rows), id)]
  {
    var r := NewAsChecked(rows, seen);
    NewAsCheckedFirstCopies(rows, seen);
    assert Ids(rows)[i] == rows[j].listingId;
    forall k, k' | 0 <= k < k' < |r|
      ensures r[k].listingId != r[k'].listingId
    {
      assert Ids(r)[k] == r[k].listingId && Ids(r)[k'] == r[k'].listingId;
    }
  }

  /** Number of messages the notifier reports as delivered: one attempt per new
      row when `notify_on_new_properties` is set and any row is new. */
  function Delivered(newRows: seq<Property>, notifyOnNew: bool, send: Property -> bool): (n: nat)
    ensures n <= |newRows|
    ensures !notifyOnNew ==> n == 0
    ensures notifyOnNew && (forall i | 0 <= i < |newRows| :: send(newRows[i])) ==> n == |newRows|
  {
    if !notifyOnNew || |newRows| == 0 then 0
    else
      var n := Delivered(newRows[..|newRows| - 1], notifyOnNew, send);
      n + (if send(newRows[|newRows| - 1]) then 1 else 0)
  }
}
