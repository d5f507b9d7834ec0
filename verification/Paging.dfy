/** Offset cursors and the pages they walk (eyenet/api/deps_paging.py). */
module Paging {
  import opened Wrappers
  import opened Bytes
  import opened Decimal
  import opened Lists
  import Base64

  // str.encode("ascii")
  function Codes(s: string): (r: seq<byte>)
    requires IsAscii(s)
    ensures |r| == |s| && forall i :: 0 <= i < |s| ==> r[i] == s[i] as int
  {
    seq(|s|, i requires 0 <= i < |s| => s[i] as int)
  }

  predicate IsAscii(s: string) {
    forall i :: 0 <= i < |s| ==> s[i] as int < 128
  }

  // bytes.decode("ascii")
  function FromAscii(bytes: seq<int>): Option<string> {
    if forall i :: 0 <= i < |bytes| ==> 0 <= bytes[i] < 128
    then Some(seq(|bytes|, i requires 0 <= i < |bytes| => bytes[i] as char)) else None
  }

  predicate IsSpace(c: char) { c == ' ' || 9 <= c as int <= 13 }

  function TrimStart(s: string): string {
    if |s| > 0 && IsSpace(s[0]) then TrimStart(s[1..]) else s
  }

  function TrimEnd(s: string): string {
    if |s| > 0 && IsSpace(s[|s| - 1]) then TrimEnd(s[..|s| - 1]) else s
  }

  predicate IsDigit(c: char) { '0' <= c <= '9' }

  // Digits, with single underscores between them.
  predicate IsNumeral(s: string) {
    && |s| > 0 && IsDigit(s[0]) && IsDigit(s[|s| - 1])
    && (forall i :: 0 <= i < |s| ==> IsDigit(s[i]) || s[i] == '_')
    && (forall i :: 0 < i < |s| ==> IsDigit(s[i - 1]) || IsDigit(s[i]))
  }

  function OnlyDigits(s: string): (r: string)
    ensures forall i :: 0 <= i < |r| ==> IsDigit(r[i])
  {
    if |s| == 0 then ""
    else OnlyDigits(s[..|s| - 1]) + if IsDigit(s[|s| - 1]) then [s[|s| - 1]] else []
  }

  // int(s) for an ASCII string.
  function ParseInt(s: string): Option<int> {
    var t := TrimEnd(TrimStart(s));
    var signed := |t| > 0 && (t[0] == '+' || t[0] == '-');
    var body := if signed then t[1..] else t;
    if !IsNumeral(body) then None
    else Some(if signed && t[0] == '-' then 0 - Number(OnlyDigits(body)) else Number(OnlyDigits(body)))
  }

  function EncodeCursor(offset: nat): string {
    DigitsAreAscii(offset);
    Base64.Encode(Codes(Digits(offset)))
  }

  // None is the 422 answer to a malformed cursor.
  function DecodeCursor(cursor: Option<string>): (offset: Option<nat>)
  {
    if cursor.None? then Some(0)
    else if !IsAscii(cursor.value) then None
    else
      match Base64.Decode(cursor.value)
      case None => None
      case Some(bytes) =>
        match FromAscii(bytes)
        case None => None
        case Some(text) =>
          var n := ParseInt(text);
          if n.None? || n.value < 0 then None else Some(n.value)
  }

  lemma {:induction false} OnlyDigitsKeeps(s: string)
    requires forall i :: 0 <= i < |s| ==> IsDigit(s[i])
    ensures OnlyDigits(s) == s
  {
    if |s| > 0 {
      OnlyDigitsKeeps(s[..|s| - 1]);
      assert s == s[..|s| - 1] + [s[|s| - 1]];
    }
  }

  lemma DigitsAreNumeral(s: string)
    requires |s| > 0 && forall i :: 0 <= i < |s| ==> '0' <= s[i] <= '9'
    ensures IsNumeral(s) && !IsSpace(s[0]) && !IsSpace(s[|s| - 1])
  {
  }

  lemma NothingToTrim(s: string)
    requires |s| > 0 && !IsSpace(s[0]) && !IsSpace(s[|s| - 1])
    ensures TrimEnd(TrimStart(s)) == s
  {
  }

  lemma ParseOfNumeral(s: string)
    requires |s| > 0 && forall i :: 0 <= i < |s| ==> '0' <= s[i] <= '9'
    ensures ParseInt(s) == Some(Number(s))
  {
    DigitsAreNumeral(s);
    NothingToTrim(s);
    OnlyDigitsKeeps(s);
  }

  lemma DigitsAreAscii(n: nat)
    ensures IsAscii(Digits(n))
  {
  }

  lemma {:induction false} EncodingIsAscii(bytes: seq<byte>)
    ensures IsAscii(Base64.Encode(bytes))
  {
    if |bytes| >= 3 {
      EncodingIsAscii(bytes[3..]);
    }
  }

  lemma AsciiOfCodes(s: string)
    requires IsAscii(s)
    ensures FromAscii(Codes(s)) == Some(s)
  {
    var bytes := Codes(s);
    var t := seq(|bytes|, i requires 0 <= i < |bytes| => bytes[i] as char);
    assert t == s;
  }

  /** decode_cursor undoes encode_cursor. */
  lemma DecodeOfEncode(n: nat)
    ensures DecodeCursor(Some(EncodeCursor(n))) == Some(n)
  {
    var s := Digits(n);
    var bytes := Codes(s);
    EncodingIsAscii(bytes);
    Base64.ScanOfEncode(bytes, 0);
    AsciiOfCodes(s);
    ParseOfNumeral(s);
    NumberOfDigits(n);
  }

  // ----- Which accepted cursors are our own -----

  // Digits without a needless leading zero.
  predicate PlainNumber(t: string) {
    |t| > 0 && (forall i :: 0 <= i < |t| ==> IsDigit(t[i])) && (t[0] == '0' ==> |t| == 1)
  }

  lemma {:induction false} DigitsArePlain(n: nat)
    ensures PlainNumber(Digits(n)) && (n > 0 ==> Digits(n)[0] != '0')
  {
    if n >= 10 { DigitsArePlain(n / 10); }
  }

  lemma {:induction false} PlainIsPositive(t: string)
    requires PlainNumber(t) && t[0] != '0'
    ensures Number(t) > 0
  {
    var n := |t| - 1;
    if n > 0 {
      assert t[..n][0] == t[0];
      PlainIsPositive(t[..n]);
    } else {
      assert t[..0] == [];
    }
  }

  lemma OneDigit(t: string)
    requires PlainNumber(t) && |t| == 1
    ensures Digits(Number(t)) == t
  {
    assert t[..0] == [] && t == [t[0]];
  }

  lemma DigitCharOf(c: char)
    requires IsDigit(c)
    ensures 0 <= c as int - '0' as int < 10 && DigitChar(c as int - '0' as int) == c
  {
  }

  lemma AllButLast(t: string)
    requires PlainNumber(t) && |t| > 1
    ensures PlainNumber(t[..|t| - 1]) && t[..|t| - 1][0] == t[0] != '0'
    ensures t == t[..|t| - 1] + [t[|t| - 1]]
  {
  }

  lemma NumberOfMore(t: string)
    requires |t| > 1 && forall i :: 0 <= i < |t| ==> '0' <= t[i] <= '9'
    ensures Number(t) == Number(t[..|t| - 1]) * 10 + (t[|t| - 1] as int - '0' as int)
  {
  }

  lemma {:induction false} DigitsOfNumber(t: string)
    requires PlainNumber(t)
    ensures Digits(Number(t)) == t
  {
    if |t| == 1 {
      OneDigit(t);
    } else {
      AllButLast(t);
      NumberOfMore(t);
      DigitCharOf(t[|t| - 1]);
      var rest := t[..|t| - 1];
      PlainIsPositive(rest);
      DigitsOfNumber(rest);
      LastDigit(Number(rest), t[|t| - 1] as int - '0' as int);
    }
  }

  lemma LastDigit(m: nat, d: nat)
    requires m > 0 && d < 10
    ensures Digits(m * 10 + d) == Digits(m) + [DigitChar(d)]
  {
    assert (m * 10 + d) / 10 == m && (m * 10 + d) % 10 == d;
  }

  // The text an accepted cursor carries.
  function CursorText(s: string): string
    requires DecodeCursor(Some(s)).Some?
  {
    FromAscii(Base64.Decode(s).value).value
  }

  lemma CodesOfAscii(bytes: seq<int>)
    requires FromAscii(bytes).Some?
    ensures IsAscii(FromAscii(bytes).value) && Codes(FromAscii(bytes).value) == bytes
  {
  }

  lemma OwnCursorText(n: nat)
    ensures Base64.Decode(EncodeCursor(n)) == Some(Codes(Digits(n)))
    ensures FromAscii(Codes(Digits(n))) == Some(Digits(n)) && Base64.Canonical(EncodeCursor(n))
  {
    var codes := Codes(Digits(n));
    Base64.EncodingIsCanonical(codes);
    Base64.ScanOfEncode(codes, 0);
    AsciiOfCodes(Digits(n));
  }

  lemma PlainCursorIsOwn(s: string, bytes: seq<int>, t: string)
    requires Base64.Decode(s) == Some(bytes) && FromAscii(bytes) == Some(t) && Base64.Canonical(s) && PlainNumber(t)
    ensures s == EncodeCursor(Number(t))
  {
    CodesOfAscii(bytes);
    Base64.CanonicalExactlyWhen(s);
    DigitsOfNumber(t);
  }

  lemma AcceptedParts(s: string, n: nat) returns (bytes: seq<int>, t: string)
    requires DecodeCursor(Some(s)) == Some(n)
    ensures Base64.Decode(s) == Some(bytes) && FromAscii(bytes) == Some(t) && t == CursorText(s) && ParseInt(t) == Some(n)
  {
    bytes, t := Base64.Decode(s).value, CursorText(s);
  }

  /** An accepted cursor is the one encode_cursor writes for its offset exactly when it is canonical
      base64url of plain digits. */
  lemma OwnCursorExactlyWhen(s: string, n: nat)
    requires DecodeCursor(Some(s)) == Some(n)
    ensures s == EncodeCursor(n) <==> Base64.Canonical(s) && PlainNumber(CursorText(s))
  {
    var bytes, t := AcceptedParts(s, n);
    if s == EncodeCursor(n) {
      OwnCursorText(n);
      DigitsArePlain(n);
    }
    if Base64.Canonical(s) && PlainNumber(t) {
      PlainCursorIsOwn(s, bytes, t);
      ParseOfNumeral(t);
    }
  }

  lemma EncodedIsAscii(n: nat)
    ensures IsAscii(EncodeCursor(n))
  {
    EncodingIsAscii(Codes(Digits(n)));
  }

  // Any ASCII character outside the alphabet may be put in front; the cursor still decodes.
  lemma StrayCharacterAccepted(c: char, n: nat)
    requires c as int < 128 && Base64.Sextet(c).None? && c != '='
    ensures DecodeCursor(Some([c] + EncodeCursor(n))) == Some(n)
    ensures [c] + EncodeCursor(n) != EncodeCursor(n)
  {
    var s := [c] + EncodeCursor(n);
    DecodeOfEncode(n);
    EncodedIsAscii(n);
    Base64.UnknownSkipped("", c, EncodeCursor(n), 0, 0, 0);
    assert "" + [c] + EncodeCursor(n) == s && "" + EncodeCursor(n) == EncodeCursor(n);
    assert |s| == |EncodeCursor(n)| + 1;
  }

  /** "!Nw==" is malformed base64url, yet it is offset 7 and not a 422. */
  lemma MalformedCursorAccepted()
    ensures DecodeCursor(Some("!" + EncodeCursor(7))) == Some(7) && !Base64.Canonical("!" + EncodeCursor(7))
  {
    var stray := '!';
    StrayCharacterAccepted(stray, 7);
    OwnCursorExactlyWhen([stray] + EncodeCursor(7), 7);
    var s := "!" + EncodeCursor(7);
    assert s == [stray] + EncodeCursor(7) && s[0] == stray;
    assert |s| >= 4 ==> s[..4][0] == stray;
    assert |s| >= 3 ==> s[..3][0] == stray && s[..2][0] == stray;
  }

  datatype Page<T> = Page(items: seq<T>, next: Option<string>)

  // One request: the storage query over-fetches by one, the answer keeps limit rows.
  function Fetch<T>(rows: seq<T>, offset: nat, limit: nat): Page<T> {
    var from := Least(offset, |rows|);
    var fetched := rows[from..Least(from + limit + 1, |rows|)];
    Page(fetched[..Least(limit, |fetched|)],
         if |fetched| > limit then Some(EncodeCursor(offset + limit)) else None)
  }

  lemma NextPage<T>(rows: seq<T>, offset: nat, limit: nat)
    ensures var next := Fetch(rows, offset, limit).next;
            (next.Some? <==> offset + limit < |rows|) && (next.Some? ==> DecodeCursor(next) == Some(offset + limit))
  {
    DecodeOfEncode(offset + limit);
  }

  lemma FetchItems<T>(rows: seq<T>, offset: nat, limit: nat)
    requires limit >= 1
    ensures var items := Fetch(rows, offset, limit).items;
            if offset + limit < |rows| then |items| == limit && rows[offset..] == items + rows[offset + limit..]
            else items == rows[Least(offset, |rows|)..]
  {
  }

  function Left(rows: nat, cursor: Option<string>): nat {
    match DecodeCursor(cursor)
    case None => 0
    case Some(offset) => if offset < rows then rows - offset else 0
  }

  // A client that follows next_cursor until there is none.
  function Walk<T>(rows: seq<T>, cursor: Option<string>, limit: nat): (pages: seq<seq<T>>)
    requires limit >= 1
    decreases Left(|rows|, cursor)
  {
    match DecodeCursor(cursor)
    case None => []
    case Some(offset) =>
      var page := Fetch(rows, offset, limit);
      NextPage(rows, offset, limit);
      [page.items] + if page.next.Some? then Walk(rows, page.next, limit) else []
  }

  ghost predicate AllButLastFull<T>(pages: seq<seq<T>>, limit: nat) {
    |pages| >= 1 && (forall i :: 0 <= i < |pages| - 1 ==> |pages[i]| == limit) && |pages[|pages| - 1]| <= limit
  }

  lemma FullPageFirst<T>(page: seq<T>, more: seq<seq<T>>, limit: nat)
    requires |page| == limit && AllButLastFull(more, limit)
    ensures AllButLastFull([page] + more, limit) && Flatten([page] + more) == page + Flatten(more)
  {
    assert ([page] + more)[1..] == more;
  }

  /** The walk ends, its pages in order are exactly the rows from the cursor on, and every page but
      the last is full. */
  lemma {:induction false} WalkFrom<T>(rows: seq<T>, cursor: Option<string>, limit: nat)
    requires limit >= 1 && DecodeCursor(cursor).Some?
    ensures var pages := Walk(rows, cursor, limit);
            Flatten(pages) == rows[Least(DecodeCursor(cursor).value, |rows|)..] && AllButLastFull(pages, limit)
    decreases Left(|rows|, cursor)
  {
    var offset := DecodeCursor(cursor).value;
    var page := Fetch(rows, offset, limit);
    NextPage(rows, offset, limit);
    FetchItems(rows, offset, limit);
    if page.next.Some? {
      WalkFrom(rows, page.next, limit);
      FullPageFirst(page.items, Walk(rows, page.next, limit), limit);
    } else {
      assert [page.items][1..] == [];
    }
  }

  /** Starting without a cursor, the pages concatenate to the whole list. */
  lemma PagesConcatenateToList<T>(rows: seq<T>, limit: nat)
    requires limit >= 1
    ensures var pages := Walk(rows, None, limit);
            Flatten(pages) == rows && AllButLastFull(pages, limit)
  {
    WalkFrom(rows, None, limit);
    assert rows[0..] == rows;
  }

  /** Offset 7 is written as RFC 4648 writes the byte of the digit seven. */
  lemma SevenWritten(n: nat)
    requires n == 7
    ensures EncodeCursor(n) == ['N', 'w', '=', '=']
  {
    assert Digits(n) == ['7'];
    var bytes := Codes(Digits(n));
    assert bytes == [55];
    var v0, v1, _ := Base64.TailSpells(bytes);
    assert v0 == 13 && v1 == 48;
    SymbolsOfSeven(v0, v1);
  }

  lemma SymbolsOfSeven(v0: nat, v1: nat)
    requires v0 == 13 && v1 == 48
    ensures Base64.Symbol(v0) == 'N' && Base64.Symbol(v1) == 'w'
  {
    assert 'A' as int + v0 == 'N' as int && 'a' as int + (v1 - 26) == 'w' as int;
  }
}
