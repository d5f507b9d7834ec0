/** Length-prefixed canonical byte strings and the five schemes built on them
    (eyenet/crypto/_file_access_signing.py, _exoneration_signing.py, _anchor_signing.py). */
module Frames {
  import opened Wrappers
  import opened Bytes
  import opened Decimal
  import Utf8

  const LIMIT: nat := 0x1_0000_0000

  // len(raw).to_bytes(4, "big")
  function LengthWord(n: nat): (r: seq<byte>)
    requires n < LIMIT
    ensures |r| == 4
  {
    [n / 0x100_0000, n / 0x1_0000 % 256, n / 256 % 256, n % 256]
  }

  // _frame_bytes; a string of 2^32 bytes or more does not fit the length word and raises.
  function FrameBytes(raw: seq<byte>): (r: Option<seq<byte>>) {
    if |raw| < LIMIT then Some(LengthWord(|raw|) + raw) else None
  }

  // The concatenation of framed elements.
  function FrameAll(fields: seq<seq<byte>>): (r: Option<seq<byte>>)
  {
    if fields == [] then Some([])
    else
      var first, rest := FrameBytes(fields[0]), FrameAll(fields[1..]);
      if first.Some? && rest.Some? then Some(first.value + rest.value) else None
  }

  lemma LengthWordInjective(m: nat, n: nat)
    requires m < LIMIT && n < LIMIT && LengthWord(m) == LengthWord(n)
    ensures m == n
  {
    var x, y := LengthWord(m), LengthWord(n);
    assert x[0] == y[0] && x[1] == y[1] && x[2] == y[2] && x[3] == y[3];
    Base256(m);
    Base256(n);
  }

  lemma Base256(n: nat)
    ensures n == n / 0x100_0000 * 0x100_0000 + n / 0x1_0000 % 256 * 0x1_0000 + n / 256 % 256 * 256 + n % 256
  {
    assert n == n / 256 * 256 + n % 256;
    assert n / 256 == n / 0x1_0000 * 256 + n / 256 % 256;
    assert n / 0x1_0000 == n / 0x100_0000 * 256 + n / 0x1_0000 % 256;
  }

  // The first frame and what follows it can be read off unambiguously.
  lemma FramePrefixFree(a: seq<byte>, b: seq<byte>, u: seq<byte>, v: seq<byte>)
    requires |a| < LIMIT && |b| < LIMIT && LengthWord(|a|) + a + u == LengthWord(|b|) + b + v
    ensures a == b && u == v
  {
    var x, y := LengthWord(|a|) + a + u, LengthWord(|b|) + b + v;
    assert x[..4] == LengthWord(|a|) && y[..4] == LengthWord(|b|);
    LengthWordInjective(|a|, |b|);
    assert x[4..4 + |a|] == a && y[4..4 + |b|] == b;
    assert x[4 + |a|..] == u && y[4 + |b|..] == v;
  }

  /** Framing is injective on lists of byte strings of any lengths. */
  lemma {:induction false} FrameAllInjective(s: seq<seq<byte>>, t: seq<seq<byte>>)
    requires FrameAll(s).Some? && FrameAll(s) == FrameAll(t)
    ensures s == t
  {
    if s != [] && t != [] {
      FramePrefixFree(s[0], t[0], FrameAll(s[1..]).value, FrameAll(t[1..]).value);
      FrameAllInjective(s[1..], t[1..]);
      assert s == [s[0]] + s[1..] && t == [t[0]] + t[1..];
    }
  }

  // The arguments of the five builders.
  datatype Record =
    | Request(method_: string, url: string, requestId: string, timestamp: string, bodyHash: string, contentHash: string)
    | JournalRow(accessId: seq<byte>, auditEventId: seq<byte>, userId: seq<byte>, grantId: seq<byte>, content: seq<byte>,
                 contentSize: int, contentMime: string, tier: string, servedAt: string, servedVia: string,
                 acknowledgmentId: seq<byte>, operatorSignature: seq<byte>, fingerprint: string)
    | KeyChallenge(nonce: string, publicKey: seq<byte>)
    | Exoneration(queryKind: string, queryContent: seq<byte>, queryUser: seq<byte>, since: string, until: string,
                  queryTime: string, journalHead: seq<byte>, accessIds: seq<seq<byte>>)
    | Anchor(deploymentId: seq<byte>, anchorSeq: int, anchoredAt: string, auditHead: string, anchoredJournal: string)

  function Text(s: string): seq<byte> { Utf8.Encode(s) }

  function Scheme(r: Record): string {
    match r
    case Request(_, _, _, _, _, _) => "EYENET-SIG-v1"
    case JournalRow(_, _, _, _, _, _, _, _, _, _, _, _, _) => "EYENET-FAJ-v1"
    case KeyChallenge(_, _) => "EYENET-SIGNING-KEY-CHALLENGE-v1"
    case Exoneration(_, _, _, _, _, _, _, _) => "EYENET-EXONERATION-v1"
    case Anchor(_, _, _, _, _) => "EYENET-ANCHOR-v1"
  }

  // The elements after the scheme tag, in the order each builder lists them.
  function Fields(r: Record): seq<seq<byte>> {
    match r
    case Request(m, url, id, ts, body, content) => [Text(m), Text(url), Text(id), Text(ts), Text(body), Text(content)]
    case JournalRow(id, ev, user, grant, content, size, mime, tier, at, via, ack, sig, fp) =>
      [id, ev, user, grant, content, Text(ToString(size)), Text(mime), Text(tier), Text(at), Text(via), ack, sig, Text(fp)]
    case KeyChallenge(nonce, key) => [Text(nonce), key]
    case Exoneration(kind, content, user, since, until, time, head, ids) =>
      [Text(kind), content, user, Text(since), Text(until), Text(time), head, Text(ToString(|ids|))] + ids
    case Anchor(dep, seqNo, at, audit, journal) => [dep, Text(ToString(seqNo)), Text(at), Text(audit), Text(journal)]
  }

  // build_canonical, build_journal_row_canonical, build_signing_key_challenge_canonical,
  // build_exoneration_canonical, build_anchor_canonical
  function Canonical(r: Record): (bytes: Option<seq<byte>>) {
    FrameAll([Text(Scheme(r))] + Fields(r))
  }

  lemma TextInjective(s: string, t: string)
    requires Text(s) == Text(t)
    ensures s == t
  {
    Utf8.EncodeInjective(s, t);
  }

  lemma NumberInjective(m: int, n: int)
    requires Text(ToString(m)) == Text(ToString(n))
    ensures m == n
  {
    TextInjective(ToString(m), ToString(n));
    ToStringInjective(m, n);
  }

  lemma SchemeNamesKind(r: Record, s: Record)
    requires Scheme(r) == Scheme(s)
    ensures r.Request? == s.Request? && r.JournalRow? == s.JournalRow? && r.KeyChallenge? == s.KeyChallenge?
    ensures r.Exoneration? == s.Exoneration? && r.Anchor? == s.Anchor?
  {
    assert |Scheme(r)| == |Scheme(s)|;
    assert Scheme(r)[7] == Scheme(s)[7];
  }

  lemma FieldsInjective(r: Record, s: Record)
    requires Scheme(r) == Scheme(s) && Fields(r) == Fields(s)
    ensures r == s
  {
    SchemeNamesKind(r, s);
    var f, g := Fields(r), Fields(s);
    assert forall i :: 0 <= i < |f| ==> f[i] == g[i];
    match r
    case Request(m, url, id, ts, body, content) =>
      assert f[0] == g[0] && f[1] == g[1] && f[2] == g[2] && f[3] == g[3] && f[4] == g[4] && f[5] == g[5];
      TextInjective(m, s.method_);
      TextInjective(url, s.url);
      TextInjective(id, s.requestId);
      TextInjective(ts, s.timestamp);
      TextInjective(body, s.bodyHash);
      TextInjective(content, s.contentHash);
    case JournalRow(_, _, _, _, _, size, mime, tier, at, via, _, _, fp) =>
      assert f[0] == g[0] && f[1] == g[1] && f[2] == g[2] && f[3] == g[3] && f[4] == g[4] && f[5] == g[5] && f[6] == g[6];
      assert f[7] == g[7] && f[8] == g[8] && f[9] == g[9] && f[10] == g[10] && f[11] == g[11] && f[12] == g[12];
      NumberInjective(size, s.contentSize);
      TextInjective(mime, s.contentMime);
      TextInjective(tier, s.tier);
      TextInjective(at, s.servedAt);
      TextInjective(via, s.servedVia);
      TextInjective(fp, s.fingerprint);
    case KeyChallenge(nonce, _) =>
      assert f[0] == g[0] && f[1] == g[1];
      TextInjective(nonce, s.nonce);
    case Exoneration(kind, _, _, since, until, time, _, ids) =>
      assert f[0] == g[0] && f[1] == g[1] && f[2] == g[2] && f[3] == g[3] && f[4] == g[4] && f[5] == g[5] && f[6] == g[6];
      assert f[8..] == ids && g[8..] == s.accessIds;
      TextInjective(kind, s.queryKind);
      TextInjective(since, s.since);
      TextInjective(until, s.until);
      TextInjective(time, s.queryTime);
    case Anchor(_, seqNo, at, audit, journal) =>
      assert f[0] == g[0] && f[1] == g[1] && f[2] == g[2] && f[3] == g[3] && f[4] == g[4];
      NumberInjective(seqNo, s.anchorSeq);
      TextInjective(at, s.anchoredAt);
      TextInjective(audit, s.auditHead);
      TextInjective(journal, s.anchoredJournal);
  }

  lemma {:induction false} FrameAllOfBoth(s: seq<seq<byte>>, t: seq<seq<byte>>)
    requires FrameAll(s + t).Some?
    ensures FrameAll(s).Some? && FrameAll(t).Some? && FrameAll(s + t).value == FrameAll(s).value + FrameAll(t).value
  {
    if s == [] {
      assert s + t == t;
    } else {
      assert (s + t)[0] == s[0] && (s + t)[1..] == s[1..] + t;
      FrameAllOfBoth(s[1..], t);
      var first, x, y := FrameBytes(s[0]).value, FrameAll(s[1..]).value, FrameAll(t).value;
      assert FrameAll(s + t).value == first + (x + y);
      assert FrameAll(s).value == first + x;
      assert first + (x + y) == first + x + y;
    }
  }

  // Equally many frames can be read off the front of any bytes unambiguously.
  lemma {:induction false} FrameAllPrefixFree(s: seq<seq<byte>>, t: seq<seq<byte>>, u: seq<byte>, v: seq<byte>)
    requires |s| == |t| && FrameAll(s).Some? && FrameAll(t).Some? && FrameAll(s).value + u == FrameAll(t).value + v
    ensures s == t && u == v
  {
    if s != [] {
      var x, y := FrameAll(s[1..]).value, FrameAll(t[1..]).value;
      assert FrameAll(s).value + u == LengthWord(|s[0]|) + s[0] + (x + u);
      assert FrameAll(t).value + v == LengthWord(|t[0]|) + t[0] + (y + v);
      FramePrefixFree(s[0], t[0], x + u, y + v);
      FrameAllPrefixFree(s[1..], t[1..], u, v);
      assert s == [s[0]] + s[1..] && t == [t[0]] + t[1..];
    } else {
      assert FrameAll(s).value + u == u && FrameAll(t).value + v == v;
    }
  }

  lemma FrontOf(f: seq<seq<byte>>, front: seq<seq<byte>>, back: seq<seq<byte>>, u: seq<byte>)
    requires f == front + back && FrameAll(f).Some?
    ensures FrameAll(front).Some? && FrameAll(back).Some?
    ensures FrameAll(f).value + u == FrameAll(front).value + (FrameAll(back).value + u)
  {
    FrameAllOfBoth(front, back);
    Regroup(FrameAll(front).value, FrameAll(back).value, u);
  }

  lemma Regroup(x: seq<byte>, y: seq<byte>, u: seq<byte>)
    ensures x + y + u == x + (y + u)
  {
  }

  // So can any number of them, however many follow.
  lemma FrontPrefixFree(f: seq<seq<byte>>, g: seq<seq<byte>>, n: nat, u: seq<byte>, v: seq<byte>)
    requires n <= |f| && n <= |g| && FrameAll(f).Some? && FrameAll(g).Some? && FrameAll(f).value + u == FrameAll(g).value + v
    ensures FrameAll(f[n..]).Some? && FrameAll(g[n..]).Some?
    ensures f[..n] == g[..n] && FrameAll(f[n..]).value + u == FrameAll(g[n..]).value + v
  {
    assert f == f[..n] + f[n..] && g == g[..n] + g[n..];
    FrontOf(f, f[..n], f[n..], u);
    FrontOf(g, g[..n], g[n..], v);
    FrameAllPrefixFree(f[..n], g[..n], FrameAll(f[n..]).value + u, FrameAll(g[n..]).value + v);
  }

  const EXONERATION_FIELDS: nat := 8

  // The eight fixed fields of an exoneration end in the number of ids that follow.
  lemma CountedIds(r: Record, s: Record)
    requires r.Exoneration? && s.Exoneration? && Fields(r)[..EXONERATION_FIELDS] == Fields(s)[..EXONERATION_FIELDS]
    ensures |Fields(r)| == |Fields(s)|
  {
    assert Fields(r)[..EXONERATION_FIELDS][7] == Text(ToString(|r.accessIds|));
    assert Fields(s)[..EXONERATION_FIELDS][7] == Text(ToString(|s.accessIds|));
    NumberInjective(|r.accessIds|, |s.accessIds|);
  }

  lemma SameScheme(r: Record, s: Record, u: seq<byte>, v: seq<byte>)
    requires Canonical(r).Some? && Canonical(s).Some? && Canonical(r).value + u == Canonical(s).value + v
    ensures Scheme(r) == Scheme(s) && FrameAll(Fields(r)).Some? && FrameAll(Fields(s)).Some?
    ensures FrameAll(Fields(r)).value + u == FrameAll(Fields(s)).value + v
  {
    var f, g := [Text(Scheme(r))] + Fields(r), [Text(Scheme(s))] + Fields(s);
    FrontPrefixFree(f, g, 1, u, v);
    assert f[0] == f[..1 as nat][0] && g[0] == g[..1 as nat][0];
    assert f[1..] == Fields(r) && g[1..] == Fields(s);
    TextInjective(Scheme(r), Scheme(s));
  }

  lemma SameNumberOfFields(r: Record, s: Record, u: seq<byte>, v: seq<byte>)
    requires Scheme(r) == Scheme(s) && FrameAll(Fields(r)).Some? && FrameAll(Fields(s)).Some?
    requires FrameAll(Fields(r)).value + u == FrameAll(Fields(s)).value + v
    ensures |Fields(r)| == |Fields(s)|
  {
    SchemeNamesKind(r, s);
    if r.Exoneration? {
      FrontPrefixFree(Fields(r), Fields(s), EXONERATION_FIELDS, u, v);
      CountedIds(r, s);
    }
  }

  /** No canonical form is the beginning of another: whatever follows it, the scheme and the arguments
      can be read off the front, for all five schemes together. */
  lemma CanonicalPrefixFree(r: Record, s: Record, u: seq<byte>, v: seq<byte>)
    requires Canonical(r).Some? && Canonical(s).Some? && Canonical(r).value + u == Canonical(s).value + v
    ensures r == s && u == v
  {
    SameScheme(r, s, u, v);
    SameNumberOfFields(r, s, u, v);
    FrameAllPrefixFree(Fields(r), Fields(s), u, v);
    FieldsInjective(r, s);
  }

  /** In particular they are one injective encoding: equal bytes mean the same scheme and the same
      arguments. */
  lemma CanonicalInjective(r: Record, s: Record)
    requires Canonical(r).Some? && Canonical(r) == Canonical(s)
    ensures r == s
  {
    CanonicalPrefixFree(r, s, [], []);
  }

  // ----- The journal row's optional ids -----

  // FileAccessJournalRow, whose three optional ids may be absent.
  datatype JournalArgs = JournalArgs(accessId: seq<byte>, auditEventId: Option<seq<byte>>, userId: seq<byte>,
                                     grantId: Option<seq<byte>>, content: seq<byte>, contentSize: int, contentMime: string,
                                     tier: string, servedAt: string, servedVia: string,
                                     acknowledgmentId: Option<seq<byte>>, operatorSignature: seq<byte>, fingerprint: string)

  // _uuid_bytes
  function IdBytes(id: Option<seq<byte>>): seq<byte> {
    if id.None? then [] else id.value
  }

  // canonical
  function RowRecord(a: JournalArgs): Record {
    JournalRow(a.accessId, IdBytes(a.auditEventId), a.userId, IdBytes(a.grantId), a.content, a.contentSize, a.contentMime,
               a.tier, a.servedAt, a.servedVia, IdBytes(a.acknowledgmentId), a.operatorSignature, a.fingerprint)
  }

  // A present but empty id, read as an absent one.
  function Blank(id: Option<seq<byte>>): Option<seq<byte>> {
    if id == Some([]) then None else id
  }

  function Blanked(a: JournalArgs): JournalArgs {
    a.(auditEventId := Blank(a.auditEventId), grantId := Blank(a.grantId), acknowledgmentId := Blank(a.acknowledgmentId))
  }

  /** The frame of an optional id confuses exactly the absent and the present-empty one. */
  lemma FrameConfusesExactly(x: Option<seq<byte>>, y: Option<seq<byte>>)
    requires FrameBytes(IdBytes(x)).Some?
    ensures FrameBytes(IdBytes(x)) == FrameBytes(IdBytes(y)) <==>
            x == y || (x == None && y == Some([])) || (x == Some([]) && y == None)
  {
    var a, b := IdBytes(x), IdBytes(y);
    if FrameBytes(a) == FrameBytes(b) {
      assert LengthWord(|a|) + a + [] == LengthWord(|a|) + a && LengthWord(|b|) + b + [] == LengthWord(|b|) + b;
      FramePrefixFree(a, b, [], []);
    }
  }

  /** Two journal rows have the same canonical bytes exactly when they are equal once present-empty ids
      are read as absent. */
  lemma RowsConfusedExactly(a: JournalArgs, b: JournalArgs)
    requires Canonical(RowRecord(a)).Some?
    ensures Canonical(RowRecord(a)) == Canonical(RowRecord(b)) <==> Blanked(a) == Blanked(b)
  {
    if Canonical(RowRecord(a)) == Canonical(RowRecord(b)) { CanonicalInjective(RowRecord(a), RowRecord(b)); }
    if Blanked(a) == Blanked(b) { assert RowRecord(a) == RowRecord(Blanked(a)) == RowRecord(b); }
  }

  predicate IsUuid(id: Option<seq<byte>>) {
    id.None? || |id.value| == 16
  }

  /** With ids that are absent or UUIDs, equal bytes mean equal rows. */
  lemma RowsWithUuidsInjective(a: JournalArgs, b: JournalArgs)
    requires IsUuid(a.auditEventId) && IsUuid(a.grantId) && IsUuid(a.acknowledgmentId)
    requires IsUuid(b.auditEventId) && IsUuid(b.grantId) && IsUuid(b.acknowledgmentId)
    requires Canonical(RowRecord(a)).Some? && Canonical(RowRecord(a)) == Canonical(RowRecord(b))
    ensures a == b
  {
    RowsConfusedExactly(a, b);
  }

  /** The builders fail exactly when some field is too long for its length word. */
  lemma {:induction false} FramesFailOnlyOnLength(fields: seq<seq<byte>>)
    ensures FrameAll(fields).Some? <==> forall i :: 0 <= i < |fields| ==> |fields[i]| < LIMIT
  {
    if fields != [] {
      FramesFailOnlyOnLength(fields[1..]);
      assert fields == [fields[0]] + fields[1..];
      if forall i :: 0 <= i < |fields[1..]| ==> |fields[1..][i]| < LIMIT {
        forall i | 1 <= i < |fields| ensures |fields[i]| < LIMIT { assert fields[i] == fields[1..][i - 1]; }
      }
    }
  }
}
