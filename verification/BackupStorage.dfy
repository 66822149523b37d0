/** The guardian's bounded backup table, compared with the unbounded history of all backups. */
module BackupStorage {
  import opened Wrappers

  datatype Backup = Backup(id: int, timestamp: int, data: string)

  /** The table, the next row id, and the bound. */
  datatype Table = Table(rows: seq<Backup>, nextId: int, maxBackups: nat)

  // ---------------------------------------------------------------- Statements

  /** A row no newer than any other. */
  function OldestIndex(rows: seq<Backup>): (i: nat)
    requires rows != []
    ensures i < |rows|
  {
    if |rows| == 1 then 0
    else
      var i := OldestIndex(rows[1..]);
      if rows[0].timestamp <= rows[1..][i].timestamp then 0 else i + 1
  }

  function RemoveAt(rows: seq<Backup>, i: nat): seq<Backup>
    requires i < |rows|
  {
    rows[..i] + rows[i + 1..]
  }

  /** `DELETE ... ORDER BY timestamp ASC LIMIT n`. */
  function DropOldest(rows: seq<Backup>, n: nat): seq<Backup>
    requires n <= |rows|
    decreases n
  {
    if n == 0 then rows
    else DropOldest(RemoveAt(rows, OldestIndex(rows)), n - 1)
  }

  /** `SELECT ... ORDER BY timestamp DESC LIMIT 1`. */
  function Latest(rows: seq<Backup>): Option<Backup> {
    if rows == [] then None
    else
      var rest := Latest(rows[1..]);
      if rest.Some? && rest.value.timestamp > rows[0].timestamp then rest else Some(rows[0])
  }

  function StoreRow(t: Table, timestamp: int, data: string): Table {
    var rows := t.rows + [Backup(t.nextId, timestamp, data)];
    t.(rows := if |rows| <= t.maxBackups then rows else DropOldest(rows, |rows| - t.maxBackups),
       nextId := t.nextId + 1)
  }

  // ---------------------------------------------------------------- What pruning keeps

  ghost predicate DistinctIds(rows: seq<Backup>) {
    forall i, j :: 0 <= i < j < |rows| ==> rows[i].id != rows[j].id
  }

  /** Everything in `all` but not in `kept` is no newer than anything kept. */
  ghost predicate NewestKept(all: seq<Backup>, kept: seq<Backup>) {
    && (forall b :: b in kept ==> b in all)
    && (forall b, k :: b in all && b !in kept && k in kept ==> b.timestamp <= k.timestamp)
  }

  lemma {:induction false} OldestIsOldest(rows: seq<Backup>)
    requires rows != []
    ensures forall i :: 0 <= i < |rows| ==> rows[OldestIndex(rows)].timestamp <= rows[i].timestamp
  {
    if |rows| > 1 {
      OldestIsOldest(rows[1..]);
      forall i | 0 <= i < |rows| ensures rows[OldestIndex(rows)].timestamp <= rows[i].timestamp {
        if i > 0 {
          assert rows[i] == rows[1..][i - 1];
        }
      }
    }
  }

  lemma RemoveAtKeeps(rows: seq<Backup>, i: nat)
    requires i < |rows| && DistinctIds(rows)
    requires forall j :: 0 <= j < |rows| ==> rows[i].timestamp <= rows[j].timestamp
    ensures DistinctIds(RemoveAt(rows, i)) && NewestKept(rows, RemoveAt(rows, i))
    ensures forall b :: b in rows ==> b == rows[i] || b in RemoveAt(rows, i)
  {
    var rest := RemoveAt(rows, i);
    forall b | b in rows ensures b == rows[i] || b in rest {
      var j :| 0 <= j < |rows| && rows[j] == b;
      if j != i {
        assert b == rest[if j < i then j else j - 1];
      }
    }
  }

  lemma {:induction false} DropOldestKeepsNewest(rows: seq<Backup>, n: nat)
    requires n <= |rows| && DistinctIds(rows)
    ensures |DropOldest(rows, n)| == |rows| - n
    ensures DistinctIds(DropOldest(rows, n)) && NewestKept(rows, DropOldest(rows, n))
    decreases n
  {
    if n == 0 {
    } else {
      OldestIsOldest(rows);
      var i := OldestIndex(rows);
      RemoveAtKeeps(rows, i);
      DropOldestKeepsNewest(RemoveAt(rows, i), n - 1);
    }
  }

  lemma {:induction false} LatestIsNewest(rows: seq<Backup>)
    ensures Latest(rows).Some? <==> rows != []
    ensures Latest(rows).Some? ==> Latest(rows).value in rows
    ensures forall b :: b in rows ==> b.timestamp <= Latest(rows).value.timestamp
  {
    if rows == [] {
    } else {
      LatestIsNewest(rows[1..]);
    }
  }

  // ---------------------------------------------------------------- Runs against the full history

  /** The arrivals in order, with the ids they were given. */
  function History(arrivals: seq<(int, string)>): seq<Backup> {
    seq(|arrivals|, i requires 0 <= i < |arrivals| => Backup(i + 1, arrivals[i].0, arrivals[i].1))
  }

  function StoreAll(maxBackups: nat, arrivals: seq<(int, string)>): Table {
    if arrivals == [] then Table([], 1, maxBackups)
    else
      var n := |arrivals| - 1;
      StoreRow(StoreAll(maxBackups, arrivals[..n]), arrivals[n].0, arrivals[n].1)
  }

  /**
   * The table holds as many of the stored backups as the bound allows, and every one it
   * dropped is no newer than every one it kept.
   */
  ghost predicate Refines(t: Table, all: seq<Backup>) {
    && t.nextId == |all| + 1
    && |t.rows| == (if |all| < t.maxBackups then |all| else t.maxBackups)
    && DistinctIds(t.rows)
    && NewestKept(all, t.rows)
    && (|all| <= t.maxBackups ==> forall b :: b in all ==> b in t.rows)
    && (forall b :: b in all ==> b.id < t.nextId)
  }

  lemma EmptyRefines(maxBackups: nat)
    ensures Refines(Table([], 1, maxBackups), [])
  {
  }

  lemma SubsetSize(a: set<Backup>, b: set<Backup>)
    requires a <= b
    ensures |a| <= |b|
  {
    assert b == a + (b - a);
  }

  lemma {:induction false} SetSize(rows: seq<Backup>)
    requires DistinctIds(rows)
    ensures |set x | x in rows| == |rows|
  {
    if rows == [] {
    } else {
      var n := |rows| - 1;
      SetSize(rows[..n]);
      assert rows == rows[..n] + [rows[n]];
      assert (set x | x in rows) == (set x | x in rows[..n]) + {rows[n]};
    }
  }

  lemma {:induction false} SetAtMost(rows: seq<Backup>)
    ensures |set x | x in rows| <= |rows|
  {
    if rows == [] {
    } else {
      var n := |rows| - 1;
      SetAtMost(rows[..n]);
      assert rows == rows[..n] + [rows[n]];
      assert (set x | x in rows) == (set x | x in rows[..n]) + {rows[n]};
    }
  }

  /** If the newcomer is kept, a row it displaced was dropped. */
  lemma Displaced(rows: seq<Backup>, b: Backup, kept: seq<Backup>) returns (r: Backup)
    requires b in kept && |kept| == |rows| && DistinctIds(rows + [b])
    ensures r in rows && r !in kept
  {
    if forall x :: x in rows ==> x in kept {
      SetSize(rows + [b]);
      SetAtMost(kept);
      var s, k := (set x | x in rows + [b]), (set x | x in kept);
      assert s <= k;
      SubsetSize(s, k);
      assert false;
    }
    r :| r in rows && r !in kept;
  }

  /** A backup dropped earlier is still no newer than what is kept now. */
  lemma OnceOverTwice(all: seq<Backup>, rows: seq<Backup>, b: Backup, kept: seq<Backup>)
    requires NewestKept(all, rows) && NewestKept(rows + [b], kept)
    requires |kept| == |rows| && DistinctIds(kept) && DistinctIds(rows + [b])
    ensures NewestKept(all + [b], kept)
  {
    forall x, k | x in all + [b] && x !in kept && k in kept ensures x.timestamp <= k.timestamp {
      if x !in rows + [b] && k == b {
        var r := Displaced(rows, b, kept);
      }
    }
  }

  /** One more arrival, in order of time or not. */
  lemma StoreOne(t: Table, all: seq<Backup>, timestamp: int, data: string)
    requires Refines(t, all)
    ensures Refines(StoreRow(t, timestamp, data), all + [Backup(t.nextId, timestamp, data)])
  {
    var b := Backup(t.nextId, timestamp, data);
    var rows, kept := t.rows + [b], StoreRow(t, timestamp, data).rows;
    assert DistinctIds(rows) by {
      forall i | 0 <= i < |t.rows| ensures t.rows[i].id < b.id {
        assert t.rows[i] in all;
      }
    }
    if |rows| > t.maxBackups {
      DropOldestKeepsNewest(rows, |rows| - t.maxBackups);
      OnceOverTwice(all, t.rows, b, kept);
    }
  }

  /** The bounded table refines the unbounded history, whatever the order of arrival. */
  lemma {:induction false} TableRefinesHistory(maxBackups: nat, arrivals: seq<(int, string)>)
    ensures StoreAll(maxBackups, arrivals).maxBackups == maxBackups
    ensures StoreAll(maxBackups, arrivals).nextId == |arrivals| + 1
    ensures Refines(StoreAll(maxBackups, arrivals), History(arrivals))
  {
    hide NewestKept, DistinctIds, DropOldest;
    if arrivals == [] {
      EmptyRefines(maxBackups);
    } else {
      var n := |arrivals| - 1;
      TableRefinesHistory(maxBackups, arrivals[..n]);
      StoreOne(StoreAll(maxBackups, arrivals[..n]), History(arrivals[..n]), arrivals[n].0, arrivals[n].1);
      assert History(arrivals) == History(arrivals[..n]) + [Backup(n + 1, arrivals[n].0, arrivals[n].1)];
    }
  }

  /** The greatest timestamp ever stored is the one served, if and only if one backup may be kept. */
  lemma LatestIsGreatestEver(maxBackups: nat, arrivals: seq<(int, string)>)
    ensures var latest := Latest(StoreAll(maxBackups, arrivals).rows);
      && (latest.Some? <==> maxBackups >= 1 && arrivals != [])
      && (latest.Some? ==> latest.value in History(arrivals)
                           && forall i :: 0 <= i < |arrivals| ==> arrivals[i].0 <= latest.value.timestamp)
  {
    var t, all := StoreAll(maxBackups, arrivals), History(arrivals);
    TableRefinesHistory(maxBackups, arrivals);
    LatestIsNewest(t.rows);
    forall i | 0 <= i < |arrivals| && t.rows != [] ensures arrivals[i].0 <= Latest(t.rows).value.timestamp {
      assert all[i] in all && all[i].timestamp == arrivals[i].0;
    }
  }

  // ---------------------------------------------------------------- The object

  class Storage {
    const maxBackups: nat
    var rows: seq<Backup>
    var nextId: int

    function Contents(): Table
      reads this
    {
      Table(rows, nextId, maxBackups)
    }

    constructor (maxBackups: nat)
      ensures Contents() == StoreAll(maxBackups, [])
    {
      this.maxBackups := maxBackups;
      rows, nextId := [], 1;
    }

    method Store(timestamp: int, data: string) returns (id: int)
      modifies this
      ensures Contents() == StoreRow(old(Contents()), timestamp, data)
      ensures id == old(nextId)
    {
      id := nextId;
      rows := rows + [Backup(id, timestamp, data)];
      nextId := nextId + 1;
      Prune();
    }

    method Prune()
      modifies this`rows
      ensures rows == if |old(rows)| <= maxBackups then old(rows) else DropOldest(old(rows), |old(rows)| - maxBackups)
      ensures DistinctIds(old(rows)) ==>
        && |rows| == (if |old(rows)| <= maxBackups then |old(rows)| else maxBackups)
        && DistinctIds(rows) && NewestKept(old(rows), rows)
    {
      var count := |rows|;
      if count <= maxBackups {
        return;
      }
      var excess := count - maxBackups;
      if DistinctIds(rows) {
        DropOldestKeepsNewest(rows, excess);
      }
      rows := DropOldest(rows, excess);
    }

    method GetLatest() returns (b: Option<Backup>)
      ensures b.None? <==> rows == []
      ensures b.Some? ==> b.value in rows && forall r :: r in rows ==> r.timestamp <= b.value.timestamp
    {
      LatestIsNewest(rows);
      b := Latest(rows);
    }
  }
}
