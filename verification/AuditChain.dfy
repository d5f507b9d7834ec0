/** Hash-chained logs: the forward walk of the audit log (eyenet/contracts/audit.py), for any kind of
    content and digest. */
module AuditChain {
  // One row. content stands for every other field that the hash covers.
  datatype Row<C, D> = Row(content: C, prevHash: D, selfHash: D)

  // How rows are hashed, and what the first row points at.
  datatype Chain<!C, !D> = Chain(hash: (C, D) -> D, genesis: D)

  function Zeros(n: nat): (r: string)
    ensures |r| == n && forall i :: 0 <= i < n ==> r[i] == '0'
  {
    if n == 0 then "" else Zeros(n - 1) + ['0']
  }

  const GENESIS: string := Zeros(64)

  // The audit log: content is the canonical text of the other fields, hash is sha256 over the text
  // of content and prev_hash.
  function AuditLog(hash: (string, string) -> string): Chain<string, string> {
    Chain(hash, GENESIS)
  }

  function ComputeSelfHash<C, D>(chain: Chain<C, D>, row: Row<C, D>): D {
    chain.hash(row.content, row.prevHash)
  }

  // The hash the next appended row has to point at.
  function Head<C, D>(chain: Chain<C, D>, rows: seq<Row<C, D>>): D {
    if |rows| == 0 then chain.genesis else rows[|rows| - 1].selfHash
  }

  predicate RowOk<C, D(==)>(chain: Chain<C, D>, rows: seq<Row<C, D>>, i: nat)
    requires i < |rows|
  {
    && rows[i].prevHash == Head(chain, rows[..i])
    && rows[i].selfHash == ComputeSelfHash(chain, rows[i])
  }

  ghost predicate Sound<C, D>(chain: Chain<C, D>, rows: seq<Row<C, D>>) {
    forall i :: 0 <= i < |rows| ==> RowOk(chain, rows, i)
  }

  datatype Verdict = Intact | BrokenAt(index: nat)

  /** verify_chain: intact exactly when every row checks out, else the first row that does not. */
  method VerifyChain<C, D(==)>(chain: Chain<C, D>, rows: seq<Row<C, D>>) returns (v: Verdict)
    ensures v.Intact? <==> Sound(chain, rows)
    ensures v.BrokenAt? ==>
              v.index < |rows| && !RowOk(chain, rows, v.index) && forall i :: 0 <= i < v.index ==> RowOk(chain, rows, i)
  {
    var expectedPrev := chain.genesis;
    for idx := 0 to |rows|
      invariant expectedPrev == Head(chain, rows[..idx])
      invariant forall i :: 0 <= i < idx ==> RowOk(chain, rows, i)
    {
      var row := rows[idx];
      if row.prevHash != expectedPrev {
        assert !RowOk(chain, rows, idx);
        return BrokenAt(idx);
      }
      if row.selfHash != ComputeSelfHash(chain, row) {
        assert !RowOk(chain, rows, idx);
        return BrokenAt(idx);
      }
      expectedPrev := row.selfHash;
    }
    v := Intact;
  }

  /** The first row of an audit log that checks out points at 64 zeros. */
  lemma FirstRowOfLog(hash: (string, string) -> string, rows: seq<Row<string, string>>)
    requires Sound(AuditLog(hash), rows) && rows != []
    ensures |rows[0].prevHash| == 64 && forall i :: 0 <= i < 64 ==> rows[0].prevHash[i] == '0'
    ensures rows[0].selfHash == hash(rows[0].content, rows[0].prevHash)
  {
    assert RowOk(AuditLog(hash), rows, 0);
  }

  /** Cutting rows off the end is never detected by the walk alone. */
  lemma TruncationPasses<C, D>(chain: Chain<C, D>, rows: seq<Row<C, D>>, n: nat)
    requires Sound(chain, rows) && n <= |rows|
    ensures Sound(chain, rows[..n])
  {
    forall i | 0 <= i < n ensures RowOk(chain, rows[..n], i) {
      assert RowOk(chain, rows, i);
      assert rows[..n][..i] == rows[..i];
    }
  }

  // ----- What a pinned head pins -----

  /** Why two histories can share a head: they are the same, two different rows hash alike, or a
      row hashes to the genesis marker. */
  datatype Witness<C, D> =
    | Same
    | Collision(left: Row<C, D>, right: Row<C, D>)
    | GenesisPreimage(row: Row<C, D>)

  ghost predicate Explains<C, D>(chain: Chain<C, D>, rows: seq<Row<C, D>>, other: seq<Row<C, D>>, w: Witness<C, D>) {
    match w
    case Same => rows == other
    case Collision(l, r) =>
      && l in rows && r in other
      && (l.content, l.prevHash) != (r.content, r.prevHash)
      && chain.hash(l.content, l.prevHash) == chain.hash(r.content, r.prevHash)
    case GenesisPreimage(row) => (row in rows || row in other) && chain.hash(row.content, row.prevHash) == chain.genesis
  }

  // Walk both chains back from their heads until they part.
  function Compare<C(==), D(==)>(rows: seq<Row<C, D>>, other: seq<Row<C, D>>): Witness<C, D> {
    if rows == [] && other == [] then Same
    else if rows == [] then GenesisPreimage(other[|other| - 1])
    else if other == [] then GenesisPreimage(rows[|rows| - 1])
    else
      var l, r := rows[|rows| - 1], other[|other| - 1];
      if (l.content, l.prevHash) != (r.content, r.prevHash) then Collision(l, r)
      else Compare(rows[..|rows| - 1], other[..|other| - 1])
  }

  /** A pinned head pins the whole history: two verified chains of any lengths with the same head
      are equal, or comparing them hands over a collision or a preimage of the genesis marker. */
  lemma {:induction false} PinnedHead<C, D>(chain: Chain<C, D>, rows: seq<Row<C, D>>, other: seq<Row<C, D>>)
    requires Sound(chain, rows) && Sound(chain, other) && Head(chain, rows) == Head(chain, other)
    ensures Explains(chain, rows, other, Compare(rows, other))
    decreases |rows|
  {
    if rows == [] && other != [] {
      assert RowOk(chain, other, |other| - 1);
    } else if rows != [] && other == [] {
      assert RowOk(chain, rows, |rows| - 1);
    } else if rows != [] {
      var m, n := |rows| - 1, |other| - 1;
      assert RowOk(chain, rows, m) && RowOk(chain, other, n);
      if (rows[m].content, rows[m].prevHash) == (other[n].content, other[n].prevHash) {
        TruncationPasses(chain, rows, m);
        TruncationPasses(chain, other, n);
        PinnedHead(chain, rows[..m], other[..n]);
        assert rows == rows[..m] + [rows[m]] && other == other[..n] + [other[n]];
      }
    }
  }

  // ----- What a forward walk alone detects -----

  // Rows appended after head, one for each content, each hashed as the store would hash it.
  function BuildFrom<C, D>(chain: Chain<C, D>, head: D, contents: seq<C>): seq<Row<C, D>>
    decreases |contents|
  {
    if contents == [] then []
    else
      var row := Row(contents[0], head, chain.hash(contents[0], head));
      [row] + BuildFrom(chain, row.selfHash, contents[1..])
  }

  function Contents<C, D>(rows: seq<Row<C, D>>): (c: seq<C>)
    ensures |c| == |rows|
  {
    if rows == [] then [] else Contents(rows[..|rows| - 1]) + [rows[|rows| - 1].content]
  }

  function Build<C, D>(chain: Chain<C, D>, contents: seq<C>): seq<Row<C, D>> {
    BuildFrom(chain, chain.genesis, contents)
  }

  // A chain that checks out stays so under any well-hashed continuation.
  lemma {:induction false} ContinuationPasses<C, D>(chain: Chain<C, D>, rows: seq<Row<C, D>>, contents: seq<C>)
    requires Sound(chain, rows)
    ensures Sound(chain, rows + BuildFrom(chain, Head(chain, rows), contents))
    decreases |contents|
  {
    if contents == [] {
      assert rows + [] == rows;
    } else {
      var row := Row(contents[0], Head(chain, rows), chain.hash(contents[0], Head(chain, rows)));
      var longer := rows + [row];
      forall i | 0 <= i < |longer| ensures RowOk(chain, longer, i) {
        if i < |rows| {
          assert RowOk(chain, rows, i);
          assert longer[..i] == rows[..i];
        } else {
          assert longer[..i] == rows;
        }
      }
      ContinuationPasses(chain, longer, contents[1..]);
      assert rows + BuildFrom(chain, Head(chain, rows), contents) == longer + BuildFrom(chain, row.selfHash, contents[1..]);
    }
  }

  lemma {:induction false} BuildOfMore<C, D>(chain: Chain<C, D>, head: D, contents: seq<C>, more: C)
    ensures var built := BuildFrom(chain, head, contents);
            var last := if built == [] then head else Head(chain, built);
            BuildFrom(chain, head, contents + [more]) == built + [Row(more, last, chain.hash(more, last))]
    decreases |contents|
  {
    if contents == [] {
      assert [] + [more] == [more] && [more][1..] == [];
    } else {
      var row := Row(contents[0], head, chain.hash(contents[0], head));
      var rest := BuildFrom(chain, row.selfHash, contents[1..]);
      BuildOfMore(chain, row.selfHash, contents[1..], more);
      assert (contents + [more])[1..] == contents[1..] + [more];
      assert rest != [] ==> ([row] + rest)[|rest|] == rest[|rest| - 1];
    }
  }

  /** The walk says nothing about what the rows hold: a log checks out exactly when it is what the
      store would have written for some contents, namely its own. */
  lemma {:induction false} SoundExactlyWhenBuilt<C, D>(chain: Chain<C, D>, rows: seq<Row<C, D>>)
    ensures Sound(chain, rows) <==> rows == Build(chain, Contents(rows))
  {
    if Sound(chain, rows) && rows != [] {
      var n := |rows| - 1;
      TruncationPasses(chain, rows, n);
      SoundExactlyWhenBuilt(chain, rows[..n]);
      BuildOfMore(chain, chain.genesis, Contents(rows[..n]), rows[n].content);
      assert RowOk(chain, rows, n);
      assert rows == rows[..n] + [rows[n]];
    }
    if rows == Build(chain, Contents(rows)) {
      ContinuationPasses(chain, [], Contents(rows));
      assert [] + Build(chain, Contents(rows)) == rows;
    }
  }

  /** So whatever well-hashed rows follow any row of a sound log, the log is still sound. */
  lemma RewrittenSuffixPasses<C, D>(chain: Chain<C, D>, rows: seq<Row<C, D>>, n: nat, contents: seq<C>)
    requires Sound(chain, rows) && n <= |rows|
    ensures Sound(chain, rows[..n] + BuildFrom(chain, Head(chain, rows[..n]), contents))
  {
    TruncationPasses(chain, rows, n);
    ContinuationPasses(chain, rows[..n], contents);
  }

  lemma SoundSuffixRows<C, D>(chain: Chain<C, D>, rows: seq<Row<C, D>>, other: seq<Row<C, D>>, i: nat, j: nat)
    requires 0 < i < |rows| && 0 < j < |other| && rows[i - 1].selfHash == other[j - 1].selfHash && rows[i] == other[j]
    ensures RowOk(chain, rows, i) <==> RowOk(chain, other, j)
  {
  }

  function Without<C, D>(rows: seq<Row<C, D>>, i: nat): seq<Row<C, D>>
    requires i < |rows|
  {
    rows[..i] + rows[i + 1..]
  }

  /** Deleting a row passes exactly when it was the last one or its hash is its own predecessor's. */
  lemma DeletionDetected<C, D>(chain: Chain<C, D>, rows: seq<Row<C, D>>, i: nat)
    requires Sound(chain, rows) && i < |rows|
    ensures Sound(chain, Without(rows, i)) <==> i + 1 == |rows| || rows[i].selfHash == rows[i].prevHash
  {
    var cut := Without(rows, i);
    assert RowOk(chain, rows, i);
    assert cut[..i] == rows[..i];
    if i + 1 == |rows| {
      assert cut == rows[..i];
      TruncationPasses(chain, rows, i);
    } else {
      assert RowOk(chain, rows, i + 1);
      assert cut[i] == rows[i + 1];
      if rows[i].selfHash == rows[i].prevHash {
        forall k | 0 <= k < |cut| ensures RowOk(chain, cut, k) {
          if k < i {
            assert RowOk(chain, rows, k);
            assert cut[..k] == rows[..k];
          } else if k > i {
            assert RowOk(chain, rows, k + 1);
            SoundSuffixRows(chain, cut, rows, k, k + 1);
          }
        }
      }
      if Sound(chain, cut) { assert RowOk(chain, cut, i); }
    }
  }

  /** Replacing a row passes exactly when the new row checks out in its place and, unless it is the
      last one, reproduces the old hash. */
  lemma EditDetected<C, D>(chain: Chain<C, D>, rows: seq<Row<C, D>>, i: nat, row: Row<C, D>)
    requires Sound(chain, rows) && i < |rows|
    ensures Sound(chain, rows[i := row]) <==>
            row.prevHash == rows[i].prevHash && row.selfHash == ComputeSelfHash(chain, row)
            && (i + 1 < |rows| ==> row.selfHash == rows[i].selfHash)
  {
    var edited := rows[i := row];
    assert RowOk(chain, rows, i);
    assert edited[..i] == rows[..i] && edited[..i + 1][i] == row;
    if i + 1 < |rows| { assert RowOk(chain, rows, i + 1); }
    if Sound(chain, edited) {
      assert RowOk(chain, edited, i);
      if i + 1 < |rows| { assert RowOk(chain, edited, i + 1); }
    }
    if row.prevHash == rows[i].prevHash && row.selfHash == ComputeSelfHash(chain, row)
       && (i + 1 < |rows| ==> row.selfHash == rows[i].selfHash) {
      forall k | 0 <= k < |edited| ensures RowOk(chain, edited, k) {
        assert RowOk(chain, rows, k);
        if k <= i {
          assert edited[..k] == rows[..k];
        } else {
          assert edited[..k][k - 1].selfHash == rows[..k][k - 1].selfHash;
        }
      }
    }
  }

  // Row i taken out and put back before what is then row j.
  function Moved<C, D>(rows: seq<Row<C, D>>, i: nat, j: nat): seq<Row<C, D>>
    requires i < |rows| && j < |rows|
  {
    With(Without(rows, i), j, rows[i])
  }

  // A row whose hash is not its predecessor's leaves a gap wherever it goes.
  lemma GapShows<C, D>(chain: Chain<C, D>, rows: seq<Row<C, D>>, i: nat, j: nat)
    requires Sound(chain, rows) && i + 1 < |rows| && j < |rows| && i != j && rows[i].selfHash != rows[i].prevHash
    ensures !Sound(chain, Moved(rows, i, j))
  {
    var cut, moved := Without(rows, i), Moved(rows, i, j);
    assert RowOk(chain, rows, i) && RowOk(chain, rows, i + 1);
    if i < j {
      assert moved[..i] == rows[..i] && moved[i] == rows[i + 1];
      assert !RowOk(chain, moved, i);
    } else {
      assert moved[i + 1] == cut[i] == rows[i + 1] && moved[i] == cut[i - 1] == rows[i - 1];
      assert rows[..i][i - 1] == rows[i - 1] && moved[..i + 1][i] == moved[i];
      assert !RowOk(chain, moved, i + 1);
    }
  }

  /** Moving a row passes exactly when its hash is its predecessor's, in its old place and in its new
      one. */
  lemma MoveDetected<C, D>(chain: Chain<C, D>, rows: seq<Row<C, D>>, i: nat, j: nat)
    requires Sound(chain, rows) && i < |rows| && j < |rows| && i != j
    ensures Sound(chain, Moved(rows, i, j)) <==>
            rows[i].selfHash == rows[i].prevHash && rows[i].prevHash == Head(chain, Without(rows, i)[..j])
  {
    assert RowOk(chain, rows, i);
    if i + 1 < |rows| && rows[i].selfHash != rows[i].prevHash {
      GapShows(chain, rows, i, j);
    } else {
      DeletionDetected(chain, rows, i);
      InsertionDetected(chain, Without(rows, i), j, rows[i]);
    }
  }

  /** So an edit in the middle that passes exhibits a hash collision. */
  lemma SilentEditIsCollision<C, D>(chain: Chain<C, D>, rows: seq<Row<C, D>>, i: nat, row: Row<C, D>)
    requires Sound(chain, rows) && i + 1 < |rows| && row != rows[i] && Sound(chain, rows[i := row])
    ensures (row.content, row.prevHash) != (rows[i].content, rows[i].prevHash)
    ensures ComputeSelfHash(chain, row) == ComputeSelfHash(chain, rows[i])
  {
    EditDetected(chain, rows, i, row);
    assert RowOk(chain, rows, i);
  }

  function With<C, D>(rows: seq<Row<C, D>>, i: nat, row: Row<C, D>): seq<Row<C, D>>
    requires i <= |rows|
  {
    rows[..i] + [row] + rows[i..]
  }

  /** Slipping a row in before an existing one passes only if it points at and hashes to the same
      predecessor; appending one passes whenever it is itself well formed. */
  lemma InsertionDetected<C, D>(chain: Chain<C, D>, rows: seq<Row<C, D>>, i: nat, row: Row<C, D>)
    requires Sound(chain, rows) && i <= |rows|
    ensures Sound(chain, With(rows, i, row)) <==>
            row.prevHash == Head(chain, rows[..i]) && row.selfHash == ComputeSelfHash(chain, row)
            && (i < |rows| ==> row.selfHash == row.prevHash)
  {
    var grown := With(rows, i, row);
    assert grown[..i] == rows[..i] && grown[i] == row;
    if i < |rows| {
      assert RowOk(chain, rows, i);
      assert grown[i + 1] == rows[i];
      assert grown[..i + 1] == rows[..i] + [row];
    }
    if Sound(chain, grown) {
      assert RowOk(chain, grown, i);
      if i < |rows| { assert RowOk(chain, grown, i + 1); }
    }
    if row.prevHash == Head(chain, rows[..i]) && row.selfHash == ComputeSelfHash(chain, row) && (i < |rows| ==> row.selfHash == row.prevHash) {
      forall k | 0 <= k < |grown| ensures RowOk(chain, grown, k) {
        if k < i {
          assert RowOk(chain, rows, k);
          assert grown[..k] == rows[..k];
        } else if k > i + 1 {
          assert RowOk(chain, rows, k - 1);
          SoundSuffixRows(chain, grown, rows, k, k - 1);
        }
      }
    }
  }
}
