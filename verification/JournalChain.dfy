/** The file-access journal (eyenet/storage/sqlmodel_repo/file_access.py): a hash chain over canonical
    bytes, and what its pinned head pins in terms of those bytes. */
module JournalChain {
  import opened Wrappers
  import opened Bytes
  import opened Frames
  import opened AuditChain

  type Digest = seq<byte>
  type JournalRow = Row<JournalArgs, Digest>

  // sha256 on actual bytes.
  type Sha = seq<byte> -> Digest

  function ZeroBytes(n: nat): (r: Digest)
    ensures |r| == n && forall i :: 0 <= i < n ==> r[i] == 0
  {
    if n == 0 then [] else ZeroBytes(n - 1) + [0]
  }

  const GENESIS_JOURNAL: Digest := ZeroBytes(32)

  // What self_hash feeds to sha256: the canonical row, then the previous hash without a frame.
  function Preimage(a: JournalArgs, prev: Digest): Option<seq<byte>> {
    var c := Canonical(RowRecord(a));
    if c.Some? then Some(c.value + prev) else None
  }

  // self_hash; a row that has no canonical form raises, and is read as hashing to nothing here.
  function SelfHash(sha: Sha, a: JournalArgs, prev: Digest): Digest {
    var bytes := Preimage(a, prev);
    if bytes.Some? then sha(bytes.value) else []
  }

  function Journal(sha: Sha): Chain<JournalArgs, Digest> {
    Chain((a, prev) => SelfHash(sha, a, prev), GENESIS_JOURNAL)
  }

  // The row has a canonical form and its optional ids are UUIDs.
  predicate RowFits(row: JournalRow) {
    && Canonical(RowRecord(row.content)).Some?
    && IsUuid(row.content.auditEventId) && IsUuid(row.content.grantId) && IsUuid(row.content.acknowledgmentId)
  }

  ghost predicate RowsFit(rows: seq<JournalRow>) {
    forall row :: row in rows ==> RowFits(row)
  }

  // What the walk finds at row i once every earlier row checks out: None when the row raises.
  function RowVerdict(sha: Sha, rows: seq<JournalRow>, i: nat): Option<bool>
    requires i < |rows|
  {
    if rows[i].prevHash != Head(Journal(sha), rows[..i]) then Some(false)
    else
      var bytes := Preimage(rows[i].content, rows[i].prevHash);
      if bytes.None? then None else Some(sha(bytes.value) == rows[i].selfHash)
  }

  ghost predicate PassesUpTo(sha: Sha, rows: seq<JournalRow>, n: nat)
    requires n <= |rows|
  {
    forall k :: 0 <= k < n ==> RowVerdict(sha, rows, k) == Some(true)
  }

  /** verify_file_access_chain: the verdict of the first row that does not check out, else true. */
  method VerifyFileAccessChain(sha: Sha, rows: seq<JournalRow>) returns (r: Option<bool>)
    ensures r == Some(true) <==> PassesUpTo(sha, rows, |rows|)
    ensures r != Some(true) ==> exists i :: 0 <= i < |rows| && PassesUpTo(sha, rows, i) && RowVerdict(sha, rows, i) == r
  {
    var expectedPrev := GENESIS_JOURNAL;
    for i := 0 to |rows|
      invariant expectedPrev == Head(Journal(sha), rows[..i])
      invariant PassesUpTo(sha, rows, i)
    {
      var row := rows[i];
      if row.prevHash != expectedPrev {
        assert RowVerdict(sha, rows, i) == Some(false);
        return Some(false);
      }
      var bytes := Preimage(row.content, expectedPrev);
      if bytes.None? {
        assert RowVerdict(sha, rows, i) == None;
        return None;
      }
      if sha(bytes.value) != row.selfHash {
        assert RowVerdict(sha, rows, i) == Some(false);
        return Some(false);
      }
      expectedPrev := row.selfHash;
    }
    r := Some(true);
  }

  /** On rows that have a canonical form the walk accepts exactly the sound chains. */
  lemma PassesExactlyWhenSound(sha: Sha, rows: seq<JournalRow>)
    requires RowsFit(rows)
    ensures PassesUpTo(sha, rows, |rows|) <==> Sound(Journal(sha), rows)
    ensures forall i :: 0 <= i < |rows| ==> RowVerdict(sha, rows, i).Some?
  {
    forall i | 0 <= i < |rows|
      ensures RowVerdict(sha, rows, i) == Some(RowOk(Journal(sha), rows, i))
    {
      assert RowFits(rows[i]);
    }
  }

  // The bytes a row's hash is taken over.
  function RowBytes(row: JournalRow): seq<byte>
    requires RowFits(row)
  {
    Preimage(row.content, row.prevHash).value
  }

  /** The unframed previous hash loses nothing: rows that hash the same bytes have the same content and
      the same previous hash, whatever lengths the stored hashes have. */
  lemma BytesDetermineRow(l: JournalRow, r: JournalRow)
    requires RowFits(l) && RowFits(r) && RowBytes(l) == RowBytes(r)
    ensures l.content == r.content && l.prevHash == r.prevHash
  {
    CanonicalPrefixFree(RowRecord(l.content), RowRecord(r.content), l.prevHash, r.prevHash);
    RowsWithUuidsInjective(l.content, r.content);
  }

  /** Why two journals can share a head, down to the bytes: they are equal, or two different byte
      strings have the same sha256, or some bytes hash to the genesis seed. */
  ghost predicate ExplainsBytes(sha: Sha, rows: seq<JournalRow>, other: seq<JournalRow>) {
    || rows == other
    || (exists l, r :: l in rows && r in other && Collides(sha, l, r))
    || (exists row :: (row in rows || row in other) && HashesTo(sha, row, GENESIS_JOURNAL))
  }

  ghost predicate Collides(sha: Sha, l: JournalRow, r: JournalRow) {
    RowFits(l) && RowFits(r) && RowBytes(l) != RowBytes(r) && sha(RowBytes(l)) == sha(RowBytes(r))
  }

  ghost predicate HashesTo(sha: Sha, row: JournalRow, d: Digest) {
    RowFits(row) && sha(RowBytes(row)) == d
  }

  /** A pinned head pins the whole journal: two journals of any lengths that check out and end in the
      same hash are equal, or exhibit a collision of actual bytes or a preimage of the genesis seed. */
  lemma JournalHeadPins(sha: Sha, rows: seq<JournalRow>, other: seq<JournalRow>)
    requires RowsFit(rows) && RowsFit(other) && Sound(Journal(sha), rows) && Sound(Journal(sha), other)
    requires Head(Journal(sha), rows) == Head(Journal(sha), other)
    ensures ExplainsBytes(sha, rows, other)
  {
    PinnedHead(Journal(sha), rows, other);
    var w := Compare(rows, other);
    if w.Collision? {
      if RowBytes(w.left) == RowBytes(w.right) { BytesDetermineRow(w.left, w.right); }
      assert Collides(sha, w.left, w.right);
    } else if w.GenesisPreimage? {
      assert HashesTo(sha, w.row, GENESIS_JOURNAL);
    }
  }

  /** The first row of an accepted journal points at 32 zero bytes, and its hash is over its own
      canonical bytes and those zeros. */
  lemma FirstRowOfJournal(sha: Sha, rows: seq<JournalRow>)
    requires PassesUpTo(sha, rows, |rows|) && rows != []
    ensures |rows[0].prevHash| == 32 && forall i :: 0 <= i < 32 ==> rows[0].prevHash[i] == 0
    ensures Canonical(RowRecord(rows[0].content)).Some?
    ensures rows[0].selfHash == sha(Canonical(RowRecord(rows[0].content)).value + rows[0].prevHash)
  {
    assert RowVerdict(sha, rows, 0) == Some(true);
  }
}
