/** The keyset loop that classifies old messages (eyenet/incidents/backfill.py). */
module Backfill {
  import opened Wrappers
  import opened Sorting

  datatype Message = Message(id: int, body: string)

  // Messages in id order, each id once, as the storage query orders them.
  ghost predicate Ascending(messages: seq<Message>) {
    forall i, j :: 0 <= i < j < |messages| ==> messages[i].id < messages[j].id
  }

  predicate After(m: Message, cursor: Option<int>) {
    cursor.None? || m.id > cursor.value
  }

  // The messages a query may return: id order, no incident row, past the cursor.
  function Pending(messages: seq<Message>, incidents: seq<int>, cursor: Option<int>): (r: seq<Message>)
  {
    if messages == [] then []
    else
      var m, rest := messages[0], Pending(messages[1..], incidents, cursor);
      if m.id !in incidents && After(m, cursor) then [m] + rest else rest
  }

  // The ids of the rows that fire, in row order.
  function Firing(rows: seq<Message>, fires: Message -> bool): seq<int>
  {
    if rows == [] then []
    else
      var m := rows[|rows| - 1];
      Firing(rows[..|rows| - 1], fires) + if fires(m) then [m.id] else []
  }

  lemma {:induction false} PendingMembers(messages: seq<Message>, incidents: seq<int>, cursor: Option<int>, m: Message)
    ensures m in Pending(messages, incidents, cursor) <==> m in messages && m.id !in incidents && After(m, cursor)
  {
    if messages != [] {
      PendingMembers(messages[1..], incidents, cursor, m);
      assert messages == [messages[0]] + messages[1..];
    }
  }

  lemma {:induction false} PendingAscends(messages: seq<Message>, incidents: seq<int>, cursor: Option<int>)
    requires Ascending(messages)
    ensures Ascending(Pending(messages, incidents, cursor))
  {
    if messages != [] {
      var rest := messages[1..];
      assert forall i :: 0 <= i < |rest| ==> rest[i] == messages[i + 1];
      PendingAscends(rest, incidents, cursor);
      var r := Pending(rest, incidents, cursor);
      forall i | 0 <= i < |r| ensures messages[0].id < r[i].id {
        assert r[i] in r;
        PendingMembers(rest, incidents, cursor, r[i]);
        var k :| 0 <= k < |rest| && rest[k] == r[i];
      }
    }
  }

  // Ascending lists with the same members are the same list.
  lemma {:induction false} AscendingUnique(s: seq<Message>, t: seq<Message>)
    requires Ascending(s) && Ascending(t) && forall m :: m in s <==> m in t
    ensures s == t
  {
    if s == [] || t == [] {
      if s != [] { FirstIsMember(s); }
      if t != [] { FirstIsMember(t); }
    } else {
      assert s[0] in t && t[0] in s;
      assert s[0] == t[0];
      forall m ensures m in s[1..] <==> m in t[1..] {
        assert m in s[1..] <==> m in s && m != s[0];
        assert m in t[1..] <==> m in t && m != t[0];
      }
      assert forall i :: 0 <= i < |s[1..]| ==> s[1..][i] == s[i + 1];
      assert forall i :: 0 <= i < |t[1..]| ==> t[1..][i] == t[i + 1];
      AscendingUnique(s[1..], t[1..]);
      assert s == [s[0]] + s[1..] && t == [t[0]] + t[1..];
    }
  }

  function CursorAt(all: seq<Message>, k: nat): Option<int>
    requires k <= |all|
  {
    if k == 0 then None else Some(all[k - 1].id)
  }

  lemma {:induction false} FiringMembers(rows: seq<Message>, fires: Message -> bool, id: int)
    ensures id in Firing(rows, fires) <==> exists m :: m in rows && fires(m) && m.id == id
  {
    if rows != [] {
      var n := |rows| - 1;
      FiringMembers(rows[..n], fires, id);
      assert rows == rows[..n] + [rows[n]];
      assert forall m :: m in rows <==> m in rows[..n] || m == rows[n];
    }
  }

  lemma {:induction false} FiringOfPages(s: seq<Message>, t: seq<Message>, fires: Message -> bool)
    ensures Firing(s + t, fires) == Firing(s, fires) + Firing(t, fires)
  {
    if t == [] {
      assert s + t == s;
    } else {
      var n := |t| - 1;
      FiringOfPages(s, t[..n], fires);
      assert (s + t)[..|s + t| - 1] == s + t[..n];
    }
  }

  // The job after scanning the first k of the messages it has to look at.
  ghost predicate Progress(all: seq<Message>, start: seq<int>, incidents: seq<int>, fires: Message -> bool, k: nat, fired: nat) {
    k <= |all| && incidents == start + Firing(all[..k], fires) && fired == |Firing(all[..k], fires)|
  }

  // Whatever the job has classified so far, the query past its cursor yields exactly the rest of
  // the messages that were unclassified when it started.
  lemma QueryYieldsRest(messages: seq<Message>, start: seq<int>, incidents: seq<int>, fires: Message -> bool,
                        all: seq<Message>, k: nat, fired: nat)
    requires Ascending(messages) && all == Pending(messages, start, None) && Progress(all, start, incidents, fires, k, fired)
    ensures Pending(messages, incidents, CursorAt(all, k)) == all[k..] && Ascending(all)
  {
    PendingAscends(messages, start, None);
    PendingAscends(messages, incidents, CursorAt(all, k));
    var rest := Pending(messages, incidents, CursorAt(all, k));
    forall m ensures m in rest <==> m in all[k..] {
      PendingMembers(messages, start, None, m);
      PendingMembers(messages, incidents, CursorAt(all, k), m);
      FiringMembers(all[..k], fires, m.id);
      SplitMembers(all, k, m);
    }
    assert forall i :: 0 <= i < |all[k..]| ==> all[k..][i] == all[k + i];
    AscendingUnique(rest, all[k..]);
  }

  lemma SplitMembers(all: seq<Message>, k: nat, m: Message)
    requires Ascending(all) && k <= |all|
    ensures m in all[k..] <==> m in all && After(m, CursorAt(all, k))
    ensures m in all[k..] ==> forall x :: x in all[..k] ==> x.id < m.id
    ensures m in all && m !in all[k..] ==> m in all[..k]
  {
    if m in all {
      var i :| 0 <= i < |all| && all[i] == m;
      if i >= k { assert all[k..][i - k] == m; } else { assert all[..k][i] == m; }
    }
    if m in all[k..] {
      var i :| 0 <= i < |all[k..]| && all[k..][i] == m;
      assert all[k + i] == m;
    }
  }

  // How many messages a run may scan.
  function Quota(all: nat, batchSize: int, limit: Option<int>): nat {
    if batchSize <= 0 then 0
    else if limit.None? then all
    else if limit.value <= 0 then 0 else Least(all, limit.value)
  }

  class Storage {
    const messages: seq<Message>
    // Message ids of the incident rows, oldest row first.
    var incidents: seq<int>

    constructor (messages: seq<Message>, incidents: seq<int>)
      ensures this.messages == messages && this.incidents == incidents
    {
      this.messages := messages;
      this.incidents := incidents;
    }

    method MessagesWithoutIncidents(limit: nat, cursor: Option<int>) returns (rows: seq<Message>)
      ensures var all := Pending(messages, incidents, cursor); rows == all[..Least(|all|, limit)]
    {
      var all := Pending(messages, incidents, cursor);
      rows := all[..Least(|all|, limit)];
    }

    method PutIncidents(ids: seq<int>)
      modifies this
      ensures incidents == old(incidents) + ids
    {
      incidents := incidents + ids;
    }
  }

  // Classify one page: the ids of the rows that fire. looked records each row as it is classified.
  method ClassifyPage(rows: seq<Message>, fires: Message -> bool) returns (ids: seq<int>, ghost looked: seq<Message>)
    ensures ids == Firing(rows, fires) && looked == rows
  {
    ids, looked := [], [];
    for i := 0 to |rows|
      invariant ids == Firing(rows[..i], fires) && looked == rows[..i]
    {
      assert rows[..i + 1][..i] == rows[..i];
      looked := looked + [rows[i]];
      if fires(rows[i]) {
        ids := ids + [rows[i].id];
      }
    }
    assert rows[..|rows|] == rows;
  }

  lemma NextRows(all: seq<Message>, k: nat, rows: seq<Message>)
    requires k <= |all| && rows <= all[k..]
    ensures k + |rows| <= |all| && all[..k + |rows|] == all[..k] + rows
    ensures |rows| > 0 ==> Some(rows[|rows| - 1].id) == CursorAt(all, k + |rows|)
  {
    assert forall i :: 0 <= i < |rows| ==> rows[i] == all[k..][i] == all[k + i];
  }

  lemma NextSlice(all: seq<Message>, k: nat, rows: seq<Message>)
    requires k <= |all| && rows <= all[k..]
    ensures k + |rows| <= |all| && rows == all[k..k + |rows|]
  {
    assert forall i :: 0 <= i < |rows| ==> rows[i] == all[k..][i] == all[k + i];
  }

  // One page: what the query returns is the next stretch of the messages to look at.
  lemma PageAdvances(all: seq<Message>, start: seq<int>, incidents: seq<int>, fires: Message -> bool,
                     k: nat, fired: nat, rows: seq<Message>)
    requires Progress(all, start, incidents, fires, k, fired) && rows <= all[k..]
    ensures k + |rows| <= |all|
    ensures |rows| > 0 ==> Some(rows[|rows| - 1].id) == CursorAt(all, k + |rows|)
    ensures Progress(all, start, incidents + Firing(rows, fires), fires, k + |rows|, fired + |Firing(rows, fires)|)
  {
    NextRows(all, k, rows);
    var now, more := Firing(all[..k], fires), Firing(rows, fires);
    FiringOfPages(all[..k], rows, fires);
    assert (start + now) + more == start + (now + more);
  }

  // The loop body after the break tests: fetch a page past the cursor, classify it, store what fired.
  method ScanPage(storage: Storage, page: nat, cursor: Option<int>, fires: Message -> bool,
                  ghost all: seq<Message>, ghost start: seq<int>, ghost k: nat, ghost fired: nat)
    returns (rows: seq<Message>, count: nat, ghost looked: seq<Message>)
    requires Ascending(storage.messages) && all == Pending(storage.messages, start, None)
    requires Progress(all, start, storage.incidents, fires, k, fired) && cursor == CursorAt(all, k)
    modifies storage
    ensures |rows| == Least(|all| - k, page) && looked == rows == all[k..k + |rows|]
    ensures |rows| > 0 ==> Some(rows[|rows| - 1].id) == CursorAt(all, k + |rows|)
    ensures Progress(all, start, storage.incidents, fires, k + |rows|, fired + count)
  {
    rows := storage.MessagesWithoutIncidents(page, cursor);
    QueryYieldsRest(storage.messages, start, storage.incidents, fires, all, k, fired);
    NextSlice(all, k, rows);
    PageAdvances(all, start, storage.incidents, fires, k, fired, rows);
    var ids;
    ids, looked := ClassifyPage(rows, fires);
    count := |ids|;
    if |ids| > 0 {
      storage.PutIncidents(ids);
    }
  }

  // What one page may take, and that stopping happens exactly at the quota.
  lemma QuotaStep(all: nat, k: nat, batchSize: int, limit: Option<int>, page: int)
    requires k <= Quota(all, batchSize, limit)
    requires page == if limit.Some? then Least(batchSize, limit.value - k) else batchSize
    ensures page <= 0 ==> k == Quota(all, batchSize, limit)
    ensures page > 0 && Least(all - k, page) == 0 ==> k == Quota(all, batchSize, limit)
    ensures page > 0 ==> k + Least(all - k, page) <= Quota(all, batchSize, limit)
  {
  }

  /** run_backfill: it ends; the messages it classifies are, in order, the first of those that were
      unclassified at the start, in id order, each once, up to the limit; and it appends an incident
      for exactly those that fire. */
  method RunBackfill(storage: Storage, batchSize: int, limit: Option<int>, fires: Message -> bool)
    returns (scanned: nat, fired: nat, ghost seen: seq<Message>)
    requires Ascending(storage.messages)
    modifies storage
    ensures var all := Pending(storage.messages, old(storage.incidents), None);
            scanned == Quota(|all|, batchSize, limit) <= |all| && seen == all[..scanned]
            && Progress(all, old(storage.incidents), storage.incidents, fires, scanned, fired)
            && (batchSize > 0 && scanned < |all| ==> limit.Some? && scanned == if limit.value > 0 then limit.value else 0)
            && (limit.Some? ==> scanned <= if limit.value > 0 then limit.value else 0)
  {
    ghost var start := storage.incidents;
    ghost var all := Pending(storage.messages, start, None);
    var cursor := None;
    scanned, fired, seen := 0, 0, [];
    while true
      invariant Progress(all, start, storage.incidents, fires, scanned, fired) && cursor == CursorAt(all, scanned)
      invariant scanned <= Quota(|all|, batchSize, limit) && seen == all[..scanned]
      decreases |all| - scanned
    {
      var page := if limit.Some? then Least(batchSize, limit.value - scanned) else batchSize;
      QuotaStep(|all|, scanned, batchSize, limit, page);
      if page <= 0 { break; }
      var rows, count;
      ghost var looked;
      rows, count, looked := ScanPage(storage, page, cursor, fires, all, start, scanned, fired);
      if |rows| == 0 { break; }
      cursor := Some(rows[|rows| - 1].id);
      assert all[..scanned + |rows|] == all[..scanned] + all[scanned..scanned + |rows|];
      scanned, fired, seen := scanned + |rows|, fired + count, seen + looked;
    }
  }

  lemma {:induction false} NothingFires(rows: seq<Message>, fires: Message -> bool)
    requires forall m :: m in rows ==> !fires(m)
    ensures Firing(rows, fires) == []
  {
    if rows != [] {
      var n := |rows| - 1;
      assert rows[n] in rows;
      NothingFires(rows[..n], fires);
    }
  }

  /** After a run that scanned everything, what is left unclassified is exactly what does not fire, so
      another run with the same rules adds nothing. */
  lemma RerunAddsNothing(messages: seq<Message>, start: seq<int>, incidents: seq<int>, fires: Message -> bool,
                         all: seq<Message>, fired: nat, m: Message)
    requires Ascending(messages) && all == Pending(messages, start, None)
    requires Progress(all, start, incidents, fires, |all|, fired)
    ensures m in Pending(messages, incidents, None) <==> m in messages && m.id !in start && !fires(m)
    ensures Firing(Pending(messages, incidents, None), fires) == []
  {
    assert all[..|all|] == all;
    forall x ensures x in Pending(messages, incidents, None) <==> x in messages && x.id !in start && !fires(x) {
      PendingMembers(messages, incidents, None, x);
      PendingMembers(messages, start, None, x);
      FiringMembers(all, fires, x.id);
      if x in messages && x.id in Firing(all, fires) {
        var y :| y in all && fires(y) && y.id == x.id;
        PendingMembers(messages, start, None, y);
        SameMessage(messages, x, y);
      }
    }
    NothingFires(Pending(messages, incidents, None), fires);
  }

  lemma SameMessage(messages: seq<Message>, x: Message, y: Message)
    requires Ascending(messages) && x in messages && y in messages && x.id == y.id
    ensures x == y
  {
    var i :| 0 <= i < |messages| && messages[i] == x;
    var j :| 0 <= j < |messages| && messages[j] == y;
  }
}
