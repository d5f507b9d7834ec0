/** The canonical bytes as their reader sees them: a parser that knows nothing but the length words gets
    the scheme tag and the arguments back, in the order each scheme lists them. */
module CanonicalLayout {
  import opened Wrappers
  import opened Bytes
  import opened Decimal
  import opened Frames

  // A four-byte length, most significant byte first.
  function ReadLength(bytes: seq<byte>): nat
    requires |bytes| >= 4
  {
    0x100_0000 * bytes[0] as int + 0x1_0000 * bytes[1] as int + 0x100 * bytes[2] as int + bytes[3] as int
  }

  // Split bytes into the elements their length words announce.
  function Read(bytes: seq<byte>): Option<seq<seq<byte>>>
    decreases |bytes|
  {
    if bytes == [] then Some([])
    else if |bytes| < 4 || |bytes| < 4 + ReadLength(bytes) then None
    else
      var end := 4 + ReadLength(bytes);
      var rest := Read(bytes[end..]);
      if rest.None? then None else Some([bytes[4..end]] + rest.value)
  }

  /** One frame: four length bytes, most significant first, then the element. */
  lemma FrameLayout(raw: seq<byte>)
    requires FrameBytes(raw).Some?
    ensures var r := FrameBytes(raw).value;
            && |r| == 4 + |raw| && r[4..] == raw
            && |raw| == 0x100_0000 * r[0] as int + 0x1_0000 * r[1] as int + 0x100 * r[2] as int + r[3] as int
  {
    Base256(|raw|);
  }

  lemma LengthWordOf(b0: byte, b1: byte, b2: byte, b3: byte, n: nat)
    requires n == 0x100_0000 * b0 as int + 0x1_0000 * b1 as int + 0x100 * b2 as int + b3 as int
    ensures n < LIMIT && LengthWord(n) == [b0, b1, b2, b3]
  {
    var x0: int, x1: int, x2: int, x3: int := b0, b1, b2, b3;
    QuotientUnique(n, 256, x0 * 0x1_0000 + x1 * 0x100 + x2, x3);
    QuotientUnique(n, 0x1_0000, x0 * 0x100 + x1, x2 * 0x100 + x3);
    QuotientUnique(n, 0x100_0000, x0, x1 * 0x1_0000 + x2 * 0x100 + x3);
    QuotientUnique(x0 * 0x1_0000 + x1 * 0x100 + x2, 256, x0 * 0x100 + x1, x2);
    QuotientUnique(x0 * 0x100 + x1, 256, x0, x1);
  }

  lemma ReadFrame(raw: seq<byte>, rest: seq<byte>)
    requires FrameBytes(raw).Some?
    ensures var bytes := FrameBytes(raw).value + rest;
            |bytes| >= 4 + |raw| && ReadLength(bytes) == |raw| && bytes[4..4 + |raw|] == raw && bytes[4 + |raw|..] == rest
  {
    FrameLayout(raw);
    var r := FrameBytes(raw).value;
    assert (r + rest)[4..4 + |raw|] == r[4..];
  }

  lemma {:induction false} ReadOfFrames(fields: seq<seq<byte>>)
    requires FrameAll(fields).Some?
    ensures Read(FrameAll(fields).value) == Some(fields)
  {
    if fields != [] {
      ReadFrame(fields[0], FrameAll(fields[1..]).value);
      ReadOfFrames(fields[1..]);
      assert fields == [fields[0]] + fields[1..];
    }
  }

  lemma FrameOfRead(bytes: seq<byte>, n: nat)
    requires |bytes| >= 4 && n == ReadLength(bytes) && |bytes| >= 4 + n
    ensures FrameBytes(bytes[4..4 + n]) == Some(bytes[..4 + n])
  {
    LengthWordOf(bytes[0], bytes[1], bytes[2], bytes[3], n);
    assert bytes[..4 + n] == [bytes[0], bytes[1], bytes[2], bytes[3]] + bytes[4..4 + n];
  }

  lemma {:induction false} FramesOfRead(bytes: seq<byte>)
    requires Read(bytes).Some?
    ensures FrameAll(Read(bytes).value) == Some(bytes)
    decreases |bytes|
  {
    if bytes != [] {
      var end := 4 + ReadLength(bytes);
      FramesOfRead(bytes[end..]);
      FrameOfRead(bytes, end - 4);
      var fields := Read(bytes).value;
      assert fields[0] == bytes[4..end] && fields[1..] == Read(bytes[end..]).value;
      assert bytes == bytes[..end] + bytes[end..];
    }
  }

  /** Reading and framing are inverse: the reader accepts exactly the framed lists. */
  lemma ReadIsInverse(fields: seq<seq<byte>>, bytes: seq<byte>)
    ensures FrameAll(fields) == Some(bytes) <==> Read(bytes) == Some(fields)
  {
    if FrameAll(fields) == Some(bytes) { ReadOfFrames(fields); }
    if Read(bytes) == Some(fields) { FramesOfRead(bytes); }
  }

  // ----- The five schemes -----

  // The reader gets this tag and then these elements.
  ghost predicate Reads(r: Record, tag: string, elements: seq<seq<byte>>) {
    Canonical(r).Some? ==> Read(Canonical(r).value) == Some([Text(tag)] + elements)
  }

  lemma ReadsFields(r: Record, tag: string)
    requires tag == Scheme(r)
    ensures Reads(r, tag, Fields(r))
  {
    if Canonical(r).Some? { ReadOfFrames([Text(tag)] + Fields(r)); }
  }

  /** What an operator signs for a request. */
  lemma RequestReads(tag: string, verb: string, url: string, id: string, ts: string, body: string, content: string)
    requires tag == "EYENET-SIG-v1"
    ensures Reads(Request(verb, url, id, ts, body, content), tag,
                  [Text(verb), Text(url), Text(id), Text(ts), Text(body), Text(content)])
  {
    ReadsFields(Request(verb, url, id, ts, body, content), tag);
  }

  /** What a journal row hashes. */
  lemma JournalRowReads(tag: string, id: seq<byte>, ev: seq<byte>, user: seq<byte>, grant: seq<byte>, content: seq<byte>, size: int,
                        mime: string, tier: string, at: string, via: string, ack: seq<byte>, sig: seq<byte>, key: string)
    requires tag == "EYENET-FAJ-v1"
    ensures Reads(JournalRow(id, ev, user, grant, content, size, mime, tier, at, via, ack, sig, key), tag,
                  [id, ev, user, grant, content, Text(ToString(size)), Text(mime), Text(tier), Text(at), Text(via), ack, sig, Text(key)])
  {
    ReadsFields(JournalRow(id, ev, user, grant, content, size, mime, tier, at, via, ack, sig, key), tag);
  }

  /** What an operator signs to register a key. */
  lemma KeyChallengeReads(tag: string, nonce: string, key: seq<byte>)
    requires tag == "EYENET-SIGNING-KEY-CHALLENGE-v1"
    ensures Reads(KeyChallenge(nonce, key), tag, [Text(nonce), key])
  {
    ReadsFields(KeyChallenge(nonce, key), tag);
  }

  /** What an exoneration signs: the number of ids goes before the ids. */
  lemma ExonerationReads(tag: string, kind: string, content: seq<byte>, user: seq<byte>, since: string, until: string, time: string,
                         head: seq<byte>, ids: seq<seq<byte>>)
    requires tag == "EYENET-EXONERATION-v1"
    ensures Reads(Exoneration(kind, content, user, since, until, time, head, ids), tag,
                  [Text(kind), content, user, Text(since), Text(until), Text(time), head, Text(ToString(|ids|))] + ids)
  {
    ReadsFields(Exoneration(kind, content, user, since, until, time, head, ids), tag);
  }

  /** What an anchor signs. */
  lemma AnchorReads(tag: string, deployment: seq<byte>, number: int, at: string, audit: string, journal: string)
    requires tag == "EYENET-ANCHOR-v1"
    ensures Reads(Anchor(deployment, number, at, audit, journal), tag,
                  [deployment, Text(ToString(number)), Text(at), Text(audit), Text(journal)])
  {
    ReadsFields(Anchor(deployment, number, at, audit, journal), tag);
  }

  lemma FirstFrame(first: seq<byte>, fields: seq<seq<byte>>)
    requires FrameAll([first] + fields).Some?
    ensures FrameBytes(first).Some? && FrameBytes(first).value <= FrameAll([first] + fields).value
  {
    assert ([first] + fields)[1..] == fields;
  }

  // A one-byte length after three zeros.
  lemma ShortFrame(raw: seq<byte>)
    requires |raw| < 0x100
    ensures FrameBytes(raw) == Some([0, 0, 0, |raw|] + raw)
  {
  }

  /** The first bytes of every signed request: the length 13 and the tag. */
  lemma RequestBegins(r: Record, tag: string)
    requires r.Request? && Canonical(r).Some? && tag == "EYENET-SIG-v1"
    ensures [0, 0, 0, 13] + Text(tag) <= Canonical(r).value
  {
    TagBytes(tag);
    ShortFrame(Text(tag));
    FirstFrame(Text(tag), Fields(r));
  }

  // Seven-bit text is its own bytes.
  lemma {:induction false} TagBytes(s: string)
    requires forall i :: 0 <= i < |s| ==> s[i] as int < 0x80
    ensures |Text(s)| == |s| && forall i :: 0 <= i < |s| ==> Text(s)[i] == s[i] as int
  {
    if s != [] {
      TagBytes(s[1..]);
      assert Text(s) == [s[0] as int] + Text(s[1..]);
    }
  }

  /** The same in terms of the journal's own row: an absent id is an empty element. */
  lemma RowReads(tag: string, a: JournalArgs)
    requires tag == "EYENET-FAJ-v1"
    ensures Reads(RowRecord(a), tag,
                  [a.accessId, if a.auditEventId.Some? then a.auditEventId.value else [], a.userId,
                   if a.grantId.Some? then a.grantId.value else [], a.content, Text(ToString(a.contentSize)), Text(a.contentMime),
                   Text(a.tier), Text(a.servedAt), Text(a.servedVia),
                   if a.acknowledgmentId.Some? then a.acknowledgmentId.value else [], a.operatorSignature, Text(a.fingerprint)])
  {
    ReadsFields(RowRecord(a), tag);
  }
}
