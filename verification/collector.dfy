/** The snapshot selection of `collectGeminiSessions` (src/collector.ts):
    of the session files of the requested year, one snapshot per session
    id is kept, the most recently updated one. The files arrive as a
    sequence in which `None` stands for a file that could not be read or
    parsed. */
module Collector {
  import opened Wrappers
  import opened OrderedMaps
  import opened Sessions

  /** The file was read and its session started in `year`; an unparsable
      start time has no year and never matches. */
  predicate Accepted(f: Option<Snapshot>, year: int) {
    f.Some? && f.value.startYear == Some(year)
  }

  /** `new Date(a.lastUpdated) > new Date(b.lastUpdated)`: false as soon as
      either side is `NaN`. */
  predicate Newer(a: Snapshot, b: Snapshot) {
    a.lastUpdated.Some? && b.lastUpdated.Some? && a.lastUpdated.value > b.lastUpdated.value
  }

  /** A stored snapshot together with the index of the file it came from. */
  datatype Entry = Entry(index: nat, snapshot: Snapshot)

  /** One turn of the loop: the file at index `i` is stored unless it is
      rejected or an equally recent or newer snapshot of its id is stored. */
  function Offer(m: OrderedMap<string, Entry>, f: Option<Snapshot>, year: int, i: nat): (r: OrderedMap<string, Entry>)
    requires m.Valid()
    ensures r.Valid()
  {
    if !Accepted(f, year) then m
    else if f.value.sessionId !in m.entries || Newer(f.value, m.entries[f.value.sessionId].snapshot) then
      m.Set(f.value.sessionId, Entry(i, f.value))
    else m
  }

  /** The session map after the first `n` files. */
  function Select(files: seq<Option<Snapshot>>, year: int, n: nat): (m: OrderedMap<string, Entry>)
    requires n <= |files|
    ensures m.Valid()
  {
    if n == 0 then Empty() else Offer(Select(files, year, n - 1), files[n - 1], year, n - 1)
  }

  /** Each entry holds, unchanged, the snapshot of an accepted file read so
      far whose session id is the entry's key. */
  lemma {:induction false} SelectEntries(files: seq<Option<Snapshot>>, year: int, n: nat)
    requires n <= |files|
    ensures forall k :: k in Select(files, year, n).entries ==>
      var e := Select(files, year, n).entries[k];
      e.index < n && Accepted(files[e.index], year) && files[e.index] == Some(e.snapshot)
      && e.snapshot.sessionId == k
  {
    if n > 0 {
      SelectEntries(files, year, n - 1);
    }
  }

  /** `Array.from(sessionMap.values())` once every file has been read. */
  function Kept(files: seq<Option<Snapshot>>, year: int): seq<Snapshot> {
    var m := Select(files, year, |files|);
    seq(|m.keys|, i requires 0 <= i < |m.keys| => m.entries[m.keys[i]].snapshot)
  }

  /** The session ids of the accepted files among the first `n`, in file order. */
  function AcceptedIds(files: seq<Option<Snapshot>>, year: int, n: nat): seq<string>
    requires n <= |files|
  {
    if n == 0 then []
    else AcceptedIds(files, year, n - 1) + (if Accepted(files[n - 1], year) then [files[n - 1].value.sessionId] else [])
  }

  /** Every session id of an accepted file has an entry, and the entries
      are ordered by the file in which their id was first accepted: a
      replacement keeps its place. */
  lemma {:induction false} SelectOrder(files: seq<Option<Snapshot>>, year: int, n: nat)
    requires n <= |files|
    ensures Select(files, year, n).keys == Distinct(AcceptedIds(files, year, n))
    ensures forall k :: k in Select(files, year, n).entries <==> k in AcceptedIds(files, year, n)
  {
    if n > 0 {
      SelectOrder(files, year, n - 1);
      var ids0 := AcceptedIds(files, year, n - 1);
      var m0 := Select(files, year, n - 1);
      var f := files[n - 1];
      if Accepted(f, year) {
        var k := f.value.sessionId;
        var ids := ids0 + [k];
        assert AcceptedIds(files, year, n) == ids;
        assert ids[..|ids| - 1] == ids0;
        if k in m0.entries {
          assert Select(files, year, n).keys == m0.keys;
        } else {
          assert Select(files, year, n).keys == m0.keys + [k];
        }
      } else {
        assert AcceptedIds(files, year, n) == ids0;
      }
    }
  }

  /** No accepted file has a snapshot strictly newer than the one kept for
      its id; every file accepted for that id before the kept one is
      strictly older than it or has no valid `lastUpdated`, so the kept
      one has a valid `lastUpdated` unless it is the first of its id. */
  lemma {:induction false} SelectNewest(files: seq<Option<Snapshot>>, year: int, n: nat)
    requires n <= |files|
    ensures forall i :: 0 <= i < n && Accepted(files[i], year) ==>
      files[i].value.sessionId in Select(files, year, n).entries &&
      var e := Select(files, year, n).entries[files[i].value.sessionId];
      && !Newer(files[i].value, e.snapshot)
      && (i < e.index ==> e.snapshot.lastUpdated.Some?
                          && (files[i].value.lastUpdated.None? || Newer(e.snapshot, files[i].value)))
  {
    if n > 0 {
      SelectNewest(files, year, n - 1);
      SelectEntries(files, year, n - 1);
    }
  }

  /** On equal `lastUpdated` the first file read stays: the kept file comes
      no later than any accepted file of its id with the same `lastUpdated`. */
  lemma FirstWinsTies(files: seq<Option<Snapshot>>, year: int, i: nat)
    requires i < |files| && Accepted(files[i], year)
    ensures files[i].value.sessionId in Select(files, year, |files|).entries
    ensures var e := Select(files, year, |files|).entries[files[i].value.sessionId];
      e.snapshot.lastUpdated == files[i].value.lastUpdated ==> e.index <= i
  {
    SelectNewest(files, year, |files|);
  }

  /** A file that could not be read or parsed changes nothing: inserting
      one anywhere leaves the selection as it was. */
  lemma SkipUnreadable(files: seq<Option<Snapshot>>, year: int, p: nat)
    requires p <= |files|
    ensures Kept(files[..p] + [None] + files[p..], year) == Kept(files, year)
  {
    SelectShift(files, year, p, |files|);
  }

  /** Two session maps with the same keys in the same order, holding the
      same snapshots (possibly from files at other indices). */
  ghost predicate SameSnapshots(a: OrderedMap<string, Entry>, b: OrderedMap<string, Entry>) {
    && a.keys == b.keys
    && (forall k :: k in a.entries <==> k in b.entries)
    && (forall k :: k in a.entries ==> a.entries[k].snapshot == b.entries[k].snapshot)
  }

  /** Offering the same file to two maps holding the same snapshots keeps
      them so, whatever index it is recorded under. */
  lemma OfferSame(a: OrderedMap<string, Entry>, b: OrderedMap<string, Entry>, f: Option<Snapshot>, year: int, i: nat, j: nat)
    requires a.Valid() && b.Valid() && SameSnapshots(a, b)
    ensures SameSnapshots(Offer(a, f, year, i), Offer(b, f, year, j))
  {
  }

  /** Reading `files` with a `None` inserted at `p` ends in a map with the
      same keys, each holding the same snapshot. */
  lemma {:induction false} SelectShift(files: seq<Option<Snapshot>>, year: int, p: nat, n: nat)
    requires p <= n <= |files|
    ensures SameSnapshots(Select(files[..p] + [None] + files[p..], year, n + 1), Select(files, year, n))
  {
    if n == p {
      ShiftStart(files, year, p);
    } else {
      SelectShift(files, year, p, n - 1);
      var g := files[..p] + [None] + files[p..];
      assert g[n] == files[n - 1];
      ShiftStep(g, files, year, n);
    }
  }

  /** Up to the inserted `None` both readings agree, and it changes nothing. */
  lemma ShiftStart(files: seq<Option<Snapshot>>, year: int, p: nat)
    requires p <= |files|
    ensures SameSnapshots(Select(files[..p] + [None] + files[p..], year, p + 1), Select(files, year, p))
  {
    var g := files[..p] + [None] + files[p..];
    SelectPrefix(files, g, year, p);
    assert g[p] == None;
  }

  /** After the inserted `None`, file `n - 1` of `files` is read as file
      `n` of `g`. */
  lemma ShiftStep(g: seq<Option<Snapshot>>, files: seq<Option<Snapshot>>, year: int, n: nat)
    requires 0 < n <= |files| && |g| == |files| + 1 && g[n] == files[n - 1]
    requires SameSnapshots(Select(g, year, n), Select(files, year, n - 1))
    ensures SameSnapshots(Select(g, year, n + 1), Select(files, year, n))
  {
    OfferSame(Select(g, year, n), Select(files, year, n - 1), files[n - 1], year, n, n - 1);
  }

  /** The selection after `n` files depends on those files only. */
  lemma {:induction false} SelectPrefix(a: seq<Option<Snapshot>>, b: seq<Option<Snapshot>>, year: int, n: nat)
    requires n <= |a| && n <= |b| && a[..n] == b[..n]
    ensures Select(a, year, n) == Select(b, year, n)
  {
    if n > 0 {
      assert a[..n - 1] == b[..n - 1] by { assert a[..n - 1] == a[..n][..n - 1]; assert b[..n - 1] == b[..n][..n - 1]; }
      assert a[n - 1] == a[..n][n - 1] == b[..n][n - 1] == b[n - 1];
      SelectPrefix(a, b, year, n - 1);
    }
  }

  /** The method's map of snapshots follows the map of entries. */
  ghost predicate Mirrors(sm: OrderedMap<string, Snapshot>, sel: OrderedMap<string, Entry>) {
    && sm.keys == sel.keys
    && (forall k :: k in sm.entries <==> k in sel.entries)
    && (forall k :: k in sm.entries ==> sm.entries[k] == sel.entries[k].snapshot)
  }

  lemma MirrorSet(sm: OrderedMap<string, Snapshot>, sel: OrderedMap<string, Entry>, k: string, e: Entry)
    requires sm.Valid() && sel.Valid() && Mirrors(sm, sel)
    ensures Mirrors(sm.Set(k, e.snapshot), sel.Set(k, e))
  {
  }

  /** The selection loop of `collectGeminiSessions` over already parsed
      files: skip a file that failed or whose session started in another
      year, otherwise store it unless a snapshot of the same id is already
      stored and this one is not strictly newer. */
  method CollectSessions(files: seq<Option<Snapshot>>, year: int) returns (sessions: seq<Snapshot>)
    ensures sessions == Kept(files, year)
    ensures forall j, l :: 0 <= j < l < |sessions| ==> sessions[j].sessionId != sessions[l].sessionId
    ensures forall j :: 0 <= j < |sessions| ==> Some(sessions[j]) in files && sessions[j].startYear == Some(year)
    ensures forall i :: 0 <= i < |files| && Accepted(files[i], year) ==>
      exists j :: 0 <= j < |sessions| && sessions[j].sessionId == files[i].value.sessionId
                  && !Newer(files[i].value, sessions[j])
  {
    var sessionMap: OrderedMap<string, Snapshot> := Empty();
    for n := 0 to |files|
      invariant sessionMap.Valid() && Mirrors(sessionMap, Select(files, year, n))
    {
      match files[n]
      case None =>
      case Some(data) =>
        if data.startYear != Some(year) {
          continue;
        }
        var existing := sessionMap.Get(data.sessionId);
        if existing.None? || Newer(data, existing.value) {
          MirrorSet(sessionMap, Select(files, year, n), data.sessionId, Entry(n, data));
          sessionMap := sessionMap.Set(data.sessionId, data);
        }
    }
    sessions := sessionMap.Values();
    KeptFromFiles(files, year);
    KeptNewest(files, year);
  }

  /** The kept snapshots are snapshots of files of the requested year,
      one per session id. */
  lemma KeptFromFiles(files: seq<Option<Snapshot>>, year: int)
    ensures var r := Kept(files, year);
      && (forall j, l :: 0 <= j < l < |r| ==> r[j].sessionId != r[l].sessionId)
      && (forall j :: 0 <= j < |r| ==> Some(r[j]) in files && r[j].startYear == Some(year))
  {
    var m := Select(files, year, |files|);
    var r := Kept(files, year);
    SelectEntries(files, year, |files|);
    forall j | 0 <= j < |r| ensures Some(r[j]) in files && r[j].sessionId == m.keys[j] {
      assert files[m.entries[m.keys[j]].index] == Some(r[j]);
    }
  }

  /** Every accepted file's session is among the kept ones, and the one
      kept for it is not older. */
  lemma KeptNewest(files: seq<Option<Snapshot>>, year: int)
    ensures var r := Kept(files, year);
      forall i :: 0 <= i < |files| && Accepted(files[i], year) ==>
        exists j :: 0 <= j < |r| && r[j].sessionId == files[i].value.sessionId
                    && !Newer(files[i].value, r[j])
  {
    var m := Select(files, year, |files|);
    var r := Kept(files, year);
    SelectNewest(files, year, |files|);
    SelectEntries(files, year, |files|);
    forall i | 0 <= i < |files| && Accepted(files[i], year)
      ensures exists j :: 0 <= j < |r| && r[j].sessionId == files[i].value.sessionId
                          && !Newer(files[i].value, r[j])
    {
      var k := files[i].value.sessionId;
      var j :| 0 <= j < |m.keys| && m.keys[j] == k;
      assert r[j] == m.entries[k].snapshot;
    }
  }
}
