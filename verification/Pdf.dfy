/** UTF-8 text: it is written piece by piece, ASCII is itself, and what is written is read back. */
module Utf8 {
  import opened Common

  type Bytes = seq<nat>

  function OfChar(c: char): (b: Bytes)
    ensures |b| >= 1 && (c as int < 128 ==> b == [c as int])
  {
    var n := c as int;
    if n < 0x80 then [n]
    else if n < 0x800 then [0xc0 + n / 0x40, 0x80 + n % 0x40]
    else if n < 0x1_0000 then [0xe0 + n / 0x1000, 0x80 + n / 0x40 % 0x40, 0x80 + n % 0x40]
    else [0xf0 + n / 0x4_0000, 0x80 + n / 0x1000 % 0x40, 0x80 + n / 0x40 % 0x40, 0x80 + n % 0x40]
  }

  function Encode(s: string): Bytes {
    if s == [] then [] else OfChar(s[0]) + Encode(s[1..])
  }

  function ByteLength(s: string): nat {
    |Encode(s)|
  }

  lemma {:induction false} EncodeAppend(a: string, b: string)
    ensures Encode(a + b) == Encode(a) + Encode(b)
    ensures ByteLength(a + b) == ByteLength(a) + ByteLength(b)
    decreases |a|
  {
    if a == [] {
      assert a + b == b;
    } else {
      hide OfChar;
      assert (a + b)[1..] == a[1..] + b;
      EncodeAppend(a[1..], b);
    }
  }

  ghost predicate IsAscii(s: string) {
    forall i :: 0 <= i < |s| ==> s[i] as int < 128
  }

  function Codes(s: string): (b: Bytes)
    ensures |b| == |s|
  {
    seq(|s|, i requires 0 <= i < |s| => s[i] as int)
  }

  lemma {:induction false} EncodeAscii(s: string)
    requires IsAscii(s)
    ensures Encode(s) == Codes(s)
    decreases |s|
  {
    if s != [] {
      EncodeAscii(s[1..]);
      assert Codes(s) == [s[0] as int] + Codes(s[1..]);
    }
  }

  // ---- reading ----

  predicate Continues(b: nat) {
    0x80 <= b < 0xc0
  }

  predicate IsScalar(n: nat) {
    n < 0xd800 || 0xe000 <= n < 0x11_0000
  }

  datatype Decoded = Decoded(c: char, used: nat)

  /** The character the bytes begin with; longer forms than needed, surrogates and stray bytes are refused. */
  function DecodeChar(b: Bytes): (d: Option<Decoded>)
    requires b != []
    ensures d.Some? ==> 0 < d.value.used <= |b|
  {
    if b[0] < 0x80 then Some(Decoded(b[0] as char, 1))
    else if 0xc0 <= b[0] < 0xe0 && |b| >= 2 && Continues(b[1]) then
      var n := (b[0] - 0xc0) * 0x40 + (b[1] - 0x80);
      if n < 0x80 then None else Some(Decoded(n as char, 2))
    else if 0xe0 <= b[0] < 0xf0 && |b| >= 3 && Continues(b[1]) && Continues(b[2]) then
      var n := (b[0] - 0xe0) * 0x1000 + (b[1] - 0x80) * 0x40 + (b[2] - 0x80);
      if n < 0x800 || !IsScalar(n) then None else Some(Decoded(n as char, 3))
    else if 0xf0 <= b[0] < 0xf8 && |b| >= 4 && Continues(b[1]) && Continues(b[2]) && Continues(b[3]) then
      var n := (b[0] - 0xf0) * 0x4_0000 + (b[1] - 0x80) * 0x1000 + (b[2] - 0x80) * 0x40 + (b[3] - 0x80);
      if n < 0x1_0000 || !IsScalar(n) then None else Some(Decoded(n as char, 4))
    else None
  }

  function Decode(b: Bytes): Option<string> {
    if b == [] then Some("")
    else
      match DecodeChar(b)
      case None => None
      case Some(d) =>
        match Decode(b[d.used..])
        case None => None
        case Some(s) => Some([d.c] + s)
  }

  lemma ShortCharReads(c: char, rest: Bytes)
    requires c as int < 0x800
    ensures DecodeChar(OfChar(c) + rest) == Some(Decoded(c, |OfChar(c)|))
  {
    var b := OfChar(c) + rest;
    assert forall i :: 0 <= i < |OfChar(c)| ==> b[i] == OfChar(c)[i];
  }

  lemma ThreeByteCharReads(c: char, rest: Bytes)
    requires 0x800 <= c as int < 0x1_0000
    ensures DecodeChar(OfChar(c) + rest) == Some(Decoded(c, |OfChar(c)|))
  {
    var n, b := c as int, OfChar(c) + rest;
    assert forall i :: 0 <= i < |OfChar(c)| ==> b[i] == OfChar(c)[i];
    assert n / 0x40 == n / 0x1000 * 0x40 + n / 0x40 % 0x40;
  }

  lemma FourByteCharReads(c: char, rest: Bytes)
    requires 0x1_0000 <= c as int
    ensures DecodeChar(OfChar(c) + rest) == Some(Decoded(c, |OfChar(c)|))
  {
    var n, b := c as int, OfChar(c) + rest;
    assert forall i :: 0 <= i < |OfChar(c)| ==> b[i] == OfChar(c)[i];
    assert n / 0x40 == n / 0x1000 * 0x40 + n / 0x40 % 0x40;
    assert n / 0x1000 == n / 0x4_0000 * 0x40 + n / 0x1000 % 0x40;
  }

  lemma CharReads(c: char, rest: Bytes)
    ensures DecodeChar(OfChar(c) + rest) == Some(Decoded(c, |OfChar(c)|))
  {
    hide DecodeChar, OfChar;
    if c as int < 0x800 {
      ShortCharReads(c, rest);
    } else if c as int < 0x1_0000 {
      ThreeByteCharReads(c, rest);
    } else {
      FourByteCharReads(c, rest);
    }
  }

  /** Text is read back from its bytes. */
  lemma {:induction false} DecodeEncode(s: string)
    ensures Decode(Encode(s)) == Some(s)
    decreases |s|
  {
    if s != [] {
      hide OfChar, DecodeChar;
      var first, rest := OfChar(s[0]), Encode(s[1..]);
      CharReads(s[0], rest);
      DecodeEncode(s[1..]);
      assert (first + rest)[|first|..] == rest && (first + rest)[0] == first[0];
      assert [s[0]] + s[1..] == s;
    }
  }
}

/** The PDF writer of the report jobs: pages of lines, numbered objects, and the cross-reference table that finds them. */
module Pdf {
  import opened Common
  import opened Utf8
  import Decimal
  import Csv

  // ---- pages ----

  const LINES_PER_PAGE := 55

  function Pages(lines: seq<string>): seq<seq<string>>
    decreases |lines|
  {
    if lines == [] then []
    else
      var n := Min(LINES_PER_PAGE, |lines|);
      [lines[..n]] + Pages(lines[n..])
  }

  method PageLines(lines: seq<string>) returns (pageLines: seq<seq<string>>)
    ensures pageLines == Pages(lines)
  {
    pageLines := [];
    var index := 0;
    while index < |lines|
      invariant pageLines + Pages(lines[Min(index, |lines|)..]) == Pages(lines)
      decreases |lines| - index
    {
      var rest := lines[index..];
      var n := Min(LINES_PER_PAGE, |rest|);
      assert rest[..n] == lines[index..index + n] && rest[n..] == lines[index + n..];
      pageLines := pageLines + [lines[index..index + n]];
      index := index + LINES_PER_PAGE;
    }
    assert lines[Min(index, |lines|)..] == [];
  }

  function Flatten(pages: seq<seq<string>>): seq<string> {
    if pages == [] then [] else pages[0] + Flatten(pages[1..])
  }

  /** The pages hold all the lines in order; all but the last are full and none is empty. */
  lemma {:induction false} PagesPartition(lines: seq<string>)
    ensures Flatten(Pages(lines)) == lines
    ensures forall i :: 0 <= i < |Pages(lines)| ==> 0 < |Pages(lines)[i]| <= LINES_PER_PAGE
    ensures forall i :: 0 <= i < |Pages(lines)| - 1 ==> |Pages(lines)[i]| == LINES_PER_PAGE
    ensures lines != [] ==> Pages(lines) != []
    decreases |lines|
  {
    if lines != [] {
      var n := Min(LINES_PER_PAGE, |lines|);
      PagesPartition(lines[n..]);
      assert Pages(lines)[1..] == Pages(lines[n..]);
      assert lines == lines[..n] + lines[n..];
    }
  }

  // ---- literal strings (section 7.3.4.2 of ISO 32000-1) ----

  /** value.replace(/c/g, backslash and c) */
  function PutBackslash(s: string, c: char): string {
    if s == [] then [] else (if s[0] == c then ['\\', c] else [s[0]]) + PutBackslash(s[1..], c)
  }

  function PdfEscape(value: string): string {
    PutBackslash(PutBackslash(PutBackslash(value, '\\'), '('), ')')
  }

  /** What the three come to: each character is escaped once. */
  function Escape(s: string): string {
    if s == [] then []
    else Escaped(s[0]) + Escape(s[1..])
  }

  lemma {:induction false} PutBackslashCons(c: char, s: string, d: char)
    ensures PutBackslash([c] + s, d) == (if c == d then ['\\', d] else [c]) + PutBackslash(s, d)
  {
    assert ([c] + s)[1..] == s;
  }

  function Escaped(c: char): string {
    if c in {'\\', '(', ')'} then ['\\', c] else [c]
  }

  lemma {:induction false} PdfEscapeCons(c: char, s: string)
    ensures PdfEscape([c] + s) == Escaped(c) + PdfEscape(s)
  {
    var s1 := PutBackslash(s, '\\');
    var s2 := PutBackslash(s1, '(');
    PutBackslashCons(c, s, '\\');
    hide PutBackslash;
    if c == '\\' {
      BackslashThen(c, s1, '(');
      BackslashThen(c, s2, ')');
    } else {
      PutBackslashCons(c, s1, '(');
      if c == '(' {
        BackslashThen(c, s2, ')');
      } else {
        PutBackslashCons(c, s2, ')');
      }
    }
  }

  lemma {:induction false} BackslashThen(c: char, s: string, d: char)
    requires c != d && d != '\\'
    ensures PutBackslash(['\\', c] + s, d) == ['\\', c] + PutBackslash(s, d)
  {
    PutBackslashCons('\\', [c] + s, d);
    PutBackslashCons(c, s, d);
    assert ['\\', c] + s == ['\\'] + ([c] + s);
  }

  /** The three replacements, backslashes first, escape each character once. */
  lemma {:induction false} EscapedOnce(value: string)
    ensures PdfEscape(value) == Escape(value)
    decreases |value|
  {
    if value != [] {
      EscapedOnce(value[1..]);
      assert value == [value[0]] + value[1..];
      PdfEscapeCons(value[0], value[1..]);
    }
  }

  predicate IsOctal(c: char) {
    '0' <= c <= '7'
  }

  /** The characters one part of a literal stands for, and how much of the text it takes. */
  datatype Piece = Piece(text: string, used: nat)

  /** Up to three octal digits from position i on. */
  function OctalEnd(s: string, i: nat, most: nat): (j: nat)
    ensures i <= j <= Max(i, |s|)
    decreases most
  {
    if most == 0 || i >= |s| || !IsOctal(s[i]) then i else OctalEnd(s, i + 1, most - 1)
  }

  function OctalValue(s: string): nat
    requires forall i :: 0 <= i < |s| ==> IsOctal(s[i])
  {
    if s == [] then 0
    else
      assert IsOctal(s[|s| - 1]);
      8 * OctalValue(s[..|s| - 1]) + (s[|s| - 1] as int - '0' as int)
  }

  lemma {:induction false} OctalDigits(s: string, i: nat, most: nat)
    ensures forall k :: i <= k < OctalEnd(s, i, most) ==> IsOctal(s[k])
    decreases most
  {
    if most > 0 && i < |s| && IsOctal(s[i]) {
      OctalDigits(s, i + 1, most - 1);
    }
  }

  /** A backslash and what it escapes; before an end of line it stands for nothing. */
  function ReadEscape(s: string): (piece: Piece)
    requires s != [] && s[0] == '\\'
    ensures 0 < piece.used <= |s|
  {
    if |s| == 1 then Piece("", 1)
    else if s[1] == 'n' then Piece("\n", 2)
    else if s[1] == 'r' then Piece("\r", 2)
    else if s[1] == 't' then Piece("\t", 2)
    else if s[1] == 'b' then Piece([8 as char], 2)
    else if s[1] == 'f' then Piece([12 as char], 2)
    else if IsOctal(s[1]) then
      var end := OctalEnd(s, 1, 3);
      OctalDigits(s, 1, 3);
      Piece([(OctalValue(s[1..end]) % 256) as char], end)
    else if s[1] == '\r' && |s| > 2 && s[2] == '\n' then Piece("", 3)
    else if s[1] == '\r' || s[1] == '\n' then Piece("", 2)
    else Piece([s[1]], 2)
  }

  /** An end of line, CR, LF or both, stands for LF. */
  function ReadPiece(s: string): (piece: Piece)
    requires s != []
    ensures 0 < piece.used <= |s|
  {
    if s[0] == '\\' then ReadEscape(s)
    else if s[0] == '\r' then Piece("\n", if |s| > 1 && s[1] == '\n' then 2 else 1)
    else Piece([s[0]], 1)
  }

  /** Reads up to the parenthesis that closes the string; balanced parentheses may stand inside. */
  function ReadLiteral(s: string, depth: nat): Option<(string, string)>
    decreases |s|
  {
    if s == [] then None
    else if s[0] == ')' && depth == 0 then Some(("", s[1..]))
    else
      var piece := ReadPiece(s);
      match ReadLiteral(s[piece.used..], if s[0] == '(' then depth + 1 else if s[0] == ')' then depth - 1 else depth)
      case None => None
      case Some((text, after)) => Some((piece.text + text, after))
  }

  /** A text with each CR LF and each CR turned into LF. */
  function EndsOfLine(s: string): string {
    if s == [] then []
    else if s[0] == '\r' then ['\n'] + EndsOfLine(if |s| > 1 && s[1] == '\n' then s[2..] else s[1..])
    else [s[0]] + EndsOfLine(s[1..])
  }

  lemma {:induction false} NoReturnLeft(s: string)
    ensures '\r' !in EndsOfLine(s)
    ensures '\r' !in s ==> EndsOfLine(s) == s
    decreases |s|
  {
    if s != [] {
      NoReturnLeft(s[1..]);
      if s[0] == '\r' && |s| > 1 && s[1] == '\n' {
        NoReturnLeft(s[2..]);
      }
    }
  }

  /** A reader stops at a written line's own closing parenthesis and gets the line with its ends of line as LF: the
      line itself if and only if it holds no CR. */
  lemma LiteralRoundTrip(s: string, rest: string)
    ensures ReadLiteral(PdfEscape(s) + ")" + rest, 0) == Some((EndsOfLine(s), rest))
    ensures ReadLiteral(PdfEscape(s) + ")" + rest, 0) == Some((s, rest)) <==> '\r' !in s
  {
    EscapedOnce(s);
    EscapeReadBack(s, rest);
    NoReturnLeft(s);
  }

  lemma EscapedHead(s: string, rest: string)
    ensures var all := Escape(s) + ")" + rest;
      all[0] == if s == [] then ')' else if s[0] in {'\\', '(', ')'} then '\\' else s[0]
  {
  }

  /** One step of the reader. */
  lemma ReadOn(head: string, tail: string, text: string)
    requires head != [] && head[0] != ')' && head[0] != '('
    requires ReadPiece(head + tail) == Piece(text, |head|)
    ensures ReadLiteral(head + tail, 0) ==
      match ReadLiteral(tail, 0)
      case None => None
      case Some((more, after)) => Some((text + more, after))
  {
    assert (head + tail)[|head|..] == tail;
  }

  lemma EscapedPiece(c: char, tail: string)
    requires c in {'\\', '(', ')'}
    ensures ReadPiece(['\\', c] + tail) == Piece([c], 2)
  {
  }

  lemma PlainPiece(c: char, tail: string)
    requires c != '\\' && tail != [] && (c == '\r' ==> tail[0] != '\n')
    ensures ReadPiece([c] + tail) == Piece(if c == '\r' then "\n" else [c], 1)
  {
  }

  lemma ReturnNewlinePiece(tail: string)
    ensures ReadPiece(['\r', '\n'] + tail) == Piece("\n", 2)
  {
  }

  lemma EscapeCons(s: string)
    requires s != []
    ensures Escape(s) == Escaped(s[0]) + Escape(s[1..])
  {
  }

  /** The written text, one character taken off its front. */
  lemma EscapeSplits(s: string, rest: string)
    requires s != []
    ensures Escape(s) + ")" + rest == Escaped(s[0]) + (Escape(s[1..]) + ")" + rest)
  {
    hide *;
    EscapeCons(s);
    Regroup4(Escaped(s[0]), Escape(s[1..]), ")", rest);
  }

  lemma ReturnNewlineSplits(s: string, rest: string)
    requires |s| > 1 && s[0] == '\r' && s[1] == '\n'
    ensures Escape(s) + ")" + rest == ['\r', '\n'] + (Escape(s[2..]) + ")" + rest)
  {
    hide Escape;
    EscapeSplits(s, rest);
    EscapeSplits(s[1..], rest);
    assert s[1..][1..] == s[2..];
    TwoHeads('\r', '\n', Escape(s[2..]) + ")" + rest);
  }

  lemma TwoHeads(c: char, d: char, tail: string)
    ensures [c] + ([d] + tail) == [c, d] + tail
  {
  }

  lemma Regroup4(a: string, b: string, c: string, d: string)
    ensures a + b + c + d == a + (b + c + d)
  {
  }

  lemma {:induction false} EscapeReadBack(s: string, rest: string)
    ensures ReadLiteral(Escape(s) + ")" + rest, 0) == Some((EndsOfLine(s), rest))
    decreases |s|
  {
    if s == [] {
      assert Escape(s) + ")" + rest == ")" + rest && (")" + rest)[1..] == rest;
    } else {
      hide ReadLiteral, ReadPiece, Escape;
      var tail := Escape(s[1..]) + ")" + rest;
      EscapeSplits(s, rest);
      EscapedHead(s[1..], rest);
      if s[0] == '\r' && |s| > 1 && s[1] == '\n' {
        ReturnNewlineSplits(s, rest);
        var further := Escape(s[2..]) + ")" + rest;
        EscapeReadBack(s[2..], rest);
        ReturnNewlinePiece(further);
        ReadOn(['\r', '\n'], further, "\n");
      } else {
        EscapeReadBack(s[1..], rest);
        if s[0] in {'\\', '(', ')'} {
          EscapedPiece(s[0], tail);
          ReadOn(['\\', s[0]], tail, [s[0]]);
        } else {
          PlainPiece(s[0], tail);
          ReadOn([s[0]], tail, if s[0] == '\r' then "\n" else [s[0]]);
        }
      }
    }
  }

  // ---- objects ----

  function PageId(page: nat): nat {
    4 + page * 2
  }

  function Kids(pages: nat): seq<string> {
    if pages == 0 then [] else Kids(pages - 1) + [Decimal.Text(PageId(pages - 1)) + " 0 R"]
  }

  function LineCommand(line: string, index: nat): string {
    (if index != 0 then "T* " else "") + "(" + PdfEscape(line[..Min(150, |line|)]) + ") Tj"
  }

  function LineCommands(page: seq<string>): seq<string> {
    if page == [] then [] else LineCommands(page[..|page| - 1]) + [LineCommand(page[|page| - 1], |page| - 1)]
  }

  function Commands(page: seq<string>): string {
    Csv.Join(["BT", "/F1 6.5 Tf", "24 580 Td", "8 TL"] + LineCommands(page) + ["ET"], "\n")
  }

  const PAGE_PARENT := "<< /Type /Page /Parent 2 0 R "
  const PAGE_SIZE := "/MediaBox [0 0 792 612] "
  const PAGE_FONT := "/Resources << /Font << /F1 3 0 R >> >> "

  function PageObject(contentId: nat): string {
    PAGE_PARENT + PAGE_SIZE + PAGE_FONT + "/Contents " + Decimal.Text(contentId) + " 0 R >>"
  }

  function ContentObject(page: seq<string>): string {
    "<< /Length " + Decimal.Text(ByteLength(Commands(page))) + " >>" + "\nstream\n" + Commands(page) + "\nendstream"
  }

  function LastId(pages: seq<seq<string>>): nat {
    3 + 2 * |pages|
  }

  /** What stands under each object number. */
  function Body(pages: seq<seq<string>>, id: nat): string
    requires 1 <= id <= LastId(pages)
  {
    if id == 1 then "<< /Type /Catalog /Pages 2 0 R >>"
    else if id == 2 then
      "<< /Type /Pages /Kids [" + Csv.Join(Kids(|pages|), " ") + "] /Count " + Decimal.Text(|pages|) + " >>"
    else if id == 3 then "<< /Type /Font /Subtype /Type1 " + "/BaseFont /Courier >>"
    else
      var page := (id - 4) / 2;
      if id % 2 == 0 then PageObject(id + 1) else ContentObject(pages[page])
  }

  lemma PageBodies(pages: seq<seq<string>>, index: nat)
    requires index < |pages|
    ensures Body(pages, PageId(index)) == PageObject(PageId(index) + 1)
    ensures Body(pages, PageId(index) + 1) == ContentObject(pages[index])
  {
    hide PageObject, ContentObject;
  }

  /** Page and content numbers together fill 4 to the last number, each used once. */
  method Objects(pages: seq<seq<string>>) returns (objects: map<nat, string>)
    ensures forall id: nat :: id in objects <==> 1 <= id <= LastId(pages)
    ensures forall id: nat :: 1 <= id <= LastId(pages) ==> objects[id] == Body(pages, id)
  {
    hide Body, ContentObject, PageObject;
    objects := map[1 := Body(pages, 1), 2 := Body(pages, 2), 3 := Body(pages, 3)];
    for index := 0 to |pages|
      invariant forall id: nat :: id in objects <==> 1 <= id <= 3 + 2 * index
      invariant forall id: nat :: 1 <= id <= 3 + 2 * index ==> objects[id] == Body(pages, id)
    {
      var pageId := PageId(index);
      var contentId := pageId + 1;
      PageBodies(pages, index);
      objects := objects[pageId := PageObject(contentId)];
      objects := objects[contentId := ContentObject(pages[index])];
    }
  }

  // ---- the file ----

  const HEADER := "%PDF-1.4\n%Toko360\n"

  function ObjectText(id: nat, body: string): string {
    Decimal.Text(id) + " 0 obj\n" + body + "\nendobj\n"
  }

  /** The file up to and including object n. */
  function Upto(pages: seq<seq<string>>, n: nat): string
    requires n <= LastId(pages)
  {
    if n == 0 then HEADER else Upto(pages, n - 1) + ObjectText(n, Body(pages, n))
  }

  /** Where object id begins, in bytes. */
  function Offset(pages: seq<seq<string>>, id: nat): nat
    requires 1 <= id <= LastId(pages)
  {
    ByteLength(Upto(pages, id - 1))
  }

  function Zeros(n: nat): string {
    if n == 0 then "" else "0" + Zeros(n - 1)
  }

  function Pad10(n: nat): string {
    var t := Decimal.Text(n);
    Zeros(if |t| < 10 then 10 - |t| else 0) + t
  }

  function XrefEntry(offset: nat): string {
    Pad10(offset) + " 00000 n \n"
  }

  function XrefEntries(pages: seq<seq<string>>, n: nat): string
    requires n <= LastId(pages)
  {
    if n == 0 then "0000000000 65535 f \n" else XrefEntries(pages, n - 1) + XrefEntry(Offset(pages, n))
  }

  function XrefHead(pages: seq<seq<string>>): string {
    "xref\n0 " + Decimal.Text(LastId(pages) + 1) + "\n"
  }

  function TrailerHead(pages: seq<seq<string>>): string {
    "trailer\n<< /Size " + Decimal.Text(LastId(pages) + 1) + " /Root 1 0 R >>\n" + STARTXREF
  }

  const STARTXREF := "startxref\n"
  const TAIL := "\n%%EOF\n"

  function XrefOffset(pages: seq<seq<string>>): nat {
    ByteLength(Upto(pages, LastId(pages)))
  }

  function FileText(pages: seq<seq<string>>): string {
    Upto(pages, LastId(pages)) + XrefHead(pages) + XrefEntries(pages, LastId(pages)) + TrailerHead(pages)
      + Decimal.Text(XrefOffset(pages)) + TAIL
  }

  function JoinRows(rows: seq<Csv.Row>): seq<string> {
    if rows == [] then [] else [Csv.Join(rows[0], " | ")] + JoinRows(rows[1..])
  }

  function ReportLines(csv: string, title: string, generated: string): seq<string> {
    [title, "Generated: " + generated, ""] + JoinRows(Csv.Parse(csv))
  }

  method RenderPdf(csv: string, title: string, generated: string) returns (bytes: Bytes)
    ensures bytes == Encode(FileText(Pages(ReportLines(csv, title, generated))))
  {
    hide Encode, ByteLength, Csv.Parse, Csv.Join, JoinRows, Body, ObjectText, XrefEntry, Pages;
    var rows := Csv.ParseCsvRows(csv);
    var lines := [title, "Generated: " + generated, ""] + JoinRows(rows);
    var pages := PageLines(lines);
    var objects := Objects(pages);
    var maxId := LastId(pages);
    var pdf := HEADER;
    var offsets := new nat[maxId + 1];
    for id := 1 to maxId + 1
      invariant pdf == Upto(pages, id - 1)
      invariant forall k :: 1 <= k < id ==> offsets[k] == Offset(pages, k)
    {
      offsets[id] := ByteLength(pdf);
      pdf := pdf + ObjectText(id, objects[id]);
    }
    var xrefOffset := ByteLength(pdf);
    pdf := pdf + XrefHead(pages);
    var xref := "0000000000 65535 f \n";
    for id := 1 to maxId + 1
      invariant xref == XrefEntries(pages, id - 1)
    {
      xref := xref + XrefEntry(offsets[id]);
    }
    pdf := pdf + xref + TrailerHead(pages) + Decimal.Text(xrefOffset) + TAIL;
    bytes := Encode(pdf);
  }

  // ---- reading the file from its end (sections 7.5.4 and 7.5.5 of ISO 32000-1) ----

  predicate IsDigitByte(b: nat) {
    48 <= b <= 57
  }

  /** The number whose digits end the bytes, read back as far as the digits go. */
  function TrailingNumber(b: Bytes): nat {
    if b == [] || !IsDigitByte(b[|b| - 1]) then 0 else 10 * TrailingNumber(b[..|b| - 1]) + (b[|b| - 1] - 48)
  }

  function LeadingDigits(b: Bytes): nat
    ensures LeadingDigits(b) <= |b|
  {
    if b == [] || !IsDigitByte(b[0]) then 0 else 1 + LeadingDigits(b[1..])
  }

  predicate At(file: Bytes, offset: nat, piece: Bytes) {
    offset + |piece| <= |file| && file[offset..offset + |piece|] == piece
  }

  function TrailingDigits(b: Bytes): (n: nat)
    ensures n <= |b|
  {
    if b == [] || !IsDigitByte(b[|b| - 1]) then 0 else 1 + TrailingDigits(b[..|b| - 1])
  }

  /** The number between the word startxref and the end-of-file mark. */
  function ReadStart(file: Bytes): Option<nat> {
    var word, tail := Codes(STARTXREF), Codes(TAIL);
    if |file| < |tail| || !At(file, |file| - |tail|, tail) then None
    else
      var body := file[..|file| - |tail|];
      var digits := TrailingDigits(body);
      if digits == 0 || |body| - digits < |word| || !At(body, |body| - digits - |word|, word) then None
      else Some(TrailingNumber(body))
  }

  const XREF := "xref\n0 "
  const IN_USE := " 00000 n \n"

  /** Where the first 20-byte entry of the table at `start` begins. */
  function FirstEntry(file: Bytes, start: nat): Option<nat> {
    if !At(file, start, Codes(XREF)) then None
    else Some(start + |XREF| + LeadingDigits(file[start + |XREF|..]) + 1)
  }

  /** The byte position the table gives for an object in use. */
  function ReadOffset(file: Bytes, id: nat): Option<nat> {
    match ReadStart(file)
    case None => None
    case Some(start) =>
      match FirstEntry(file, start)
      case None => None
      case Some(first) =>
        var entry := first + 20 * id;
        if entry + 20 <= |file| && At(file, entry + 10, Codes(IN_USE)) then Some(TrailingNumber(file[entry..entry + 10]))
        else None
  }

  // ---- numbers in bytes ----

  lemma {:induction false} TrailingNumberSnoc(b: Bytes, digit: nat)
    requires IsDigitByte(digit)
    ensures TrailingNumber(b + [digit]) == 10 * TrailingNumber(b) + (digit - 48)
  {
    assert (b + [digit])[..|b|] == b;
  }

  lemma CodesSnoc(s: string)
    requires s != []
    ensures Codes(s) == Codes(s[..|s| - 1]) + [s[|s| - 1] as int]
  {
  }

  lemma {:induction false} TrailingNumberOfDigits(before: Bytes, s: string)
    requires Decimal.AllDigits(s)
    requires before == [] || !IsDigitByte(before[|before| - 1])
    ensures TrailingNumber(before + Codes(s)) == Decimal.Number(s)
    decreases |s|
  {
    if s == [] {
      assert before + Codes(s) == before;
    } else {
      hide Codes;
      CodesSnoc(s);
      var init, last := s[..|s| - 1], s[|s| - 1] as int;
      assert Decimal.IsDigit(s[|s| - 1]);
      TrailingNumberOfDigits(before, init);
      assert before + Codes(s) == before + Codes(init) + [last];
      hide TrailingNumber;
      TrailingNumberSnoc(before + Codes(init), last);
    }
  }

  lemma {:induction false} LeadingDigitsOfDigits(s: string, after: Bytes)
    requires Decimal.AllDigits(s)
    requires after == [] || !IsDigitByte(after[0])
    ensures LeadingDigits(Codes(s) + after) == |s|
    decreases |s|
  {
    var b := Codes(s) + after;
    if s == [] {
      assert b == after;
    } else {
      LeadingDigitsOfDigits(s[1..], after);
      assert b[1..] == Codes(s[1..]) + after;
    }
  }

  lemma {:induction false} ZerosAreNothing(n: nat, s: string)
    requires Decimal.AllDigits(s)
    ensures |Zeros(n)| == n && Decimal.AllDigits(Zeros(n) + s)
    ensures Decimal.Number(Zeros(n) + s) == Decimal.Number(s)
    decreases n, |s|
  {
    if s == [] {
      if n > 0 {
        ZerosAreNothing(n - 1, "");
        ZerosFromEnd(n);
        assert Zeros(n - 1) + "" == Zeros(n - 1);
      }
      assert Zeros(n) + s == Zeros(n);
    } else {
      ZerosAreNothing(n, s[..|s| - 1]);
      assert (Zeros(n) + s)[..n + |s| - 1] == Zeros(n) + s[..|s| - 1];
    }
  }

  lemma {:induction false} ZerosFromEnd(n: nat)
    requires n > 0
    ensures Zeros(n) == Zeros(n - 1) + "0"
  {
    if n > 1 {
      ZerosFromEnd(n - 1);
    }
  }

  function Power10(k: nat): nat {
    if k == 0 then 1 else 10 * Power10(k - 1)
  }

  lemma {:induction false} TextLength(n: nat, k: nat)
    requires k > 0
    ensures |Decimal.Text(n)| <= k <==> n < Power10(k)
    decreases k
  {
    if k == 1 {
      assert Power10(1) == 10;
    } else if n >= 10 {
      TextLength(n / 10, k - 1);
    } else {
      PowerGrows(k);
    }
  }

  lemma {:induction false} PowerGrows(k: nat)
    requires k > 0
    ensures Power10(k) >= 10
  {
    if k > 1 {
      PowerGrows(k - 1);
    }
  }

  const OFFSET_LIMIT := 100_0000_0000

  /** padStart(10, '0'): ten digits exactly below the limit of section 7.5.4, and the number is kept. */
  lemma Pad10Reads(n: nat)
    ensures |Pad10(n)| == 10 <==> n < OFFSET_LIMIT
    ensures Decimal.AllDigits(Pad10(n)) && Decimal.Number(Pad10(n)) == n
  {
    var t := Decimal.Text(n);
    Decimal.NumberOfText(n);
    ZerosAreNothing(if |t| < 10 then 10 - |t| else 0, t);
    TextLength(n, 10);
    assert Power10(10) == OFFSET_LIMIT by {
      assert Power10(4) == 1_0000;
      assert Power10(7) == 1000_0000;
    }
  }

  // ---- the layout in bytes ----

  lemma SliceOfParts(a: Bytes, b: Bytes, c: Bytes)
    ensures At(a + b + c, |a|, b)
  {
    assert (a + b + c)[|a|..|a| + |b|] == b;
  }

  lemma AtInside(file: Bytes, offset: nat, piece: Bytes, inner: nat, small: Bytes)
    requires At(file, offset, piece) && At(piece, inner, small)
    ensures At(file, offset + inner, small)
  {
    var there := file[offset + inner..offset + inner + |small|];
    assert |there| == |small|;
    forall i | 0 <= i < |small|
      ensures there[i] == small[i]
    {
      assert there[i] == file[offset + (inner + i)] == piece[inner + i];
      assert piece[inner..inner + |small|][i] == piece[inner + i];
    }
  }

  /** Every object written so far begins at the offset noted for it, and stays there. */
  lemma {:induction false} ObjectsStand(pages: seq<seq<string>>, n: nat, id: nat)
    requires 1 <= id <= n <= LastId(pages)
    ensures Offset(pages, id) <= ByteLength(Upto(pages, n))
    ensures At(Encode(Upto(pages, n)), Offset(pages, id), Encode(ObjectText(id, Body(pages, id))))
    decreases n
  {
    hide Body, ObjectText, Encode;
    var text := ObjectText(n, Body(pages, n));
    var before := Encode(Upto(pages, n - 1));
    EncodeAppend(Upto(pages, n - 1), text);
    if id < n {
      ObjectsStand(pages, n - 1, id);
      assert At(Encode(Upto(pages, n)), 0, before);
      AtInside(Encode(Upto(pages, n)), 0, before, Offset(pages, id), Encode(ObjectText(id, Body(pages, id))));
    } else {
      SliceOfParts(before, Encode(text), []);
      assert before + Encode(text) + [] == before + Encode(text);
    }
  }

  lemma EntryBytes(offset: nat)
    requires offset < OFFSET_LIMIT
    ensures Encode(XrefEntry(offset)) == Codes(Pad10(offset)) + Codes(IN_USE)
    ensures |Codes(Pad10(offset))| == 10 && |Codes(IN_USE)| == 10
  {
    hide Encode, Pad10;
    Pad10Reads(offset);
    EncodeAppend(Pad10(offset), IN_USE);
    EncodeAscii(Pad10(offset));
    EncodeAscii(IN_USE);
  }

  /** Entry k fills the 20 bytes at 20 * k, behind the free entry of object 0. */
  lemma {:induction false} EntriesStand(pages: seq<seq<string>>, n: nat, id: nat)
    requires 1 <= id <= n <= LastId(pages)
    requires ByteLength(Upto(pages, LastId(pages))) < OFFSET_LIMIT
    ensures ByteLength(XrefEntries(pages, n)) == 20 * (n + 1)
    ensures At(Encode(XrefEntries(pages, n)), 20 * id, Encode(XrefEntry(Offset(pages, id))))
    decreases n
  {
    hide Encode, XrefEntry, Offset, Upto, ObjectText, Body;
    var entry := Encode(XrefEntry(Offset(pages, n)));
    var before := Encode(XrefEntries(pages, n - 1));
    assert Offset(pages, n) < OFFSET_LIMIT by {
      ObjectsStand(pages, LastId(pages), n);
    }
    EntryBytes(Offset(pages, n));
    EncodeAppend(XrefEntries(pages, n - 1), XrefEntry(Offset(pages, n)));
    if n == 1 {
      EncodeAscii("0000000000 65535 f \n");
    } else {
      EntriesStand(pages, n - 1, if id < n then id else n - 1);
    }
    if id < n {
      assert At(Encode(XrefEntries(pages, n)), 0, before);
      AtInside(Encode(XrefEntries(pages, n)), 0, before, 20 * id, Encode(XrefEntry(Offset(pages, id))));
    } else {
      SliceOfParts(before, entry, []);
      assert before + entry + [] == before + entry;
    }
  }

  /** The file in its six parts. */
  lemma FileParts(pages: seq<seq<string>>)
    ensures Encode(FileText(pages)) ==
      Encode(Upto(pages, LastId(pages))) + Encode(XrefHead(pages)) + Encode(XrefEntries(pages, LastId(pages)))
        + Encode(TrailerHead(pages)) + Codes(Decimal.Text(XrefOffset(pages))) + Codes(TAIL)
  {
    hide Encode, Upto, XrefHead, XrefEntries, TrailerHead, XrefOffset;
    var n := LastId(pages);
    var t1 := Upto(pages, n) + XrefHead(pages);
    var t2 := t1 + XrefEntries(pages, n);
    var t3 := t2 + TrailerHead(pages);
    var number := Decimal.Text(XrefOffset(pages));
    EncodeAppend(Upto(pages, n), XrefHead(pages));
    EncodeAppend(t1, XrefEntries(pages, n));
    EncodeAppend(t2, TrailerHead(pages));
    EncodeAppend(t3, number);
    EncodeAppend(t3 + number, TAIL);
    EncodeAscii(number);
    EncodeAscii(TAIL);
  }

  lemma HeadBytes(pages: seq<seq<string>>)
    ensures Encode(XrefHead(pages)) == Codes(XREF) + Codes(Decimal.Text(LastId(pages) + 1)) + [10]
  {
    hide Encode;
    var number := Decimal.Text(LastId(pages) + 1);
    EncodeAppend(XREF + number, "\n");
    EncodeAppend(XREF, number);
    EncodeAscii(XREF);
    EncodeAscii(number);
    EncodeAscii("\n");
    assert Codes("\n") == [10];
  }

  lemma TrailerHeadEnds(pages: seq<seq<string>>) returns (before: Bytes)
    ensures Encode(TrailerHead(pages)) == before + Codes(STARTXREF)
  {
    hide Encode;
    var t := TrailerHead(pages);
    var head := t[..|t| - |STARTXREF|];
    assert t == head + STARTXREF;
    EncodeAppend(head, STARTXREF);
    EncodeAscii(STARTXREF);
    before := Encode(head);
  }

  lemma {:induction false} TrailingDigitsSnoc(b: Bytes, digit: nat)
    requires IsDigitByte(digit)
    ensures TrailingDigits(b + [digit]) == 1 + TrailingDigits(b)
  {
    assert (b + [digit])[..|b|] == b;
  }

  lemma {:induction false} TrailingDigitsOfText(before: Bytes, s: string)
    requires Decimal.AllDigits(s)
    requires before == [] || !IsDigitByte(before[|before| - 1])
    ensures TrailingDigits(before + Codes(s)) == |s|
    decreases |s|
  {
    if s == [] {
      assert before + Codes(s) == before;
    } else {
      hide Codes;
      CodesSnoc(s);
      var init, last := s[..|s| - 1], s[|s| - 1] as int;
      assert Decimal.IsDigit(s[|s| - 1]);
      TrailingDigitsOfText(before, init);
      assert before + Codes(s) == before + Codes(init) + [last];
      hide TrailingDigits;
      TrailingDigitsSnoc(before + Codes(init), last);
    }
  }

  lemma StartIsRead(body: Bytes)
    requires var digits, word := TrailingDigits(body), Codes(STARTXREF);
      0 < digits <= |body| - |word| && At(body, |body| - digits - |word|, word)
    ensures ReadStart(body + Codes(TAIL)) == Some(TrailingNumber(body))
  {
    hide Codes, At, TrailingDigits, TrailingNumber;
    var tail := Codes(TAIL);
    SliceOfParts(body, tail, []);
    assert body + tail + [] == body + tail && (body + tail)[..|body|] == body;
  }

  lemma StartWordEnds(a: Bytes)
    ensures var before := a + Codes(STARTXREF); before != [] && !IsDigitByte(before[|before| - 1])
  {
    assert Codes(STARTXREF)[|STARTXREF| - 1] == 10;
  }

  lemma StartIsFound(a: Bytes, number: nat)
    ensures ReadStart(a + Codes(STARTXREF) + Codes(Decimal.Text(number)) + Codes(TAIL)) == Some(number)
  {
    hide Codes, ReadStart, TrailingDigits, TrailingNumber;
    var before, text := a + Codes(STARTXREF), Decimal.Text(number);
    StartWordEnds(a);
    Decimal.NumberOfText(number);
    TrailingNumberOfDigits(before, text);
    TrailingDigitsOfText(before, text);
    SliceOfParts(a, Codes(STARTXREF), Codes(text));
    StartIsRead(before + Codes(text));
  }

  lemma EntryIsRead(file: Bytes, id: nat, start: nat, first: nat, offset: nat)
    requires ReadStart(file) == Some(start) && FirstEntry(file, start) == Some(first)
    requires offset < OFFSET_LIMIT && At(file, first + 20 * id, Encode(XrefEntry(offset)))
    ensures ReadOffset(file, id) == Some(offset)
  {
    hide Encode, XrefEntry, ReadStart, FirstEntry, Pad10;
    EntryBytes(offset);
    Pad10Reads(offset);
    var entry := first + 20 * id;
    var piece := Codes(Pad10(offset)) + Codes(IN_USE);
    assert piece[..10] == Codes(Pad10(offset)) && piece[10..] == Codes(IN_USE);
    assert file[entry..entry + 10] == file[entry..entry + 20][..10];
    assert file[entry + 10..entry + 20] == file[entry..entry + 20][10..];
    TrailingNumberOfDigits([], Pad10(offset));
    assert [] + Codes(Pad10(offset)) == Codes(Pad10(offset));
  }

  lemma FirstEntryIsFound(a: Bytes, number: string, c: Bytes)
    requires Decimal.AllDigits(number)
    ensures FirstEntry(a + (Codes(XREF) + Codes(number) + [10]) + c, |a|) == Some(|a| + |XREF| + |number| + 1)
  {
    hide At;
    var file := a + (Codes(XREF) + Codes(number) + [10]) + c;
    var after := [10] + c;
    assert file == a + Codes(XREF) + (Codes(number) + after);
    SliceOfParts(a, Codes(XREF), Codes(number) + after);
    assert file[|a| + |XREF|..] == Codes(number) + after;
    LeadingDigitsOfDigits(number, after);
  }

  /** Starting from the end of the file, a reader finds the cross-reference table, and through it every object
      where it begins. */
  lemma EveryObjectIsFound(pages: seq<seq<string>>, id: nat)
    requires 1 <= id <= LastId(pages)
    requires XrefOffset(pages) < OFFSET_LIMIT
    ensures var file := Encode(FileText(pages));
      && ReadStart(file) == Some(XrefOffset(pages))
      && At(file, XrefOffset(pages), Encode(XrefHead(pages)))
      && ReadOffset(file, id) == Some(Offset(pages, id))
      && At(file, Offset(pages, id), Encode(ObjectText(id, Body(pages, id))))
  {
    hide Encode, At, Upto, XrefHead, XrefEntries, XrefEntry, TrailerHead, FileText, ReadStart, FirstEntry, ReadOffset,
      ObjectText, Body, Offset, XrefOffset, ByteLength, Codes;
    var n := LastId(pages);
    var file := Encode(FileText(pages));
    var objects, head, entries := Encode(Upto(pages, n)), Encode(XrefHead(pages)), Encode(XrefEntries(pages, n));
    var trailer, number, tail := Encode(TrailerHead(pages)), Codes(Decimal.Text(XrefOffset(pages))), Codes(TAIL);
    ByteLengths(pages);
    FileParts(pages);
    Regroup(objects, head, entries, trailer, number, tail);
    HeadBytes(pages);
    var before := TrailerHeadEnds(pages);
    StartIsFound(objects + head + entries + before, XrefOffset(pages));
    assert objects + head + entries + (before + Codes(STARTXREF)) == objects + head + entries + before + Codes(STARTXREF);
    ObjectsStand(pages, n, id);
    EntriesStand(pages, n, id);

    var rest := entries + (trailer + number + tail);
    SliceOfParts(objects, head, rest);
    FirstEntryIsFound(objects, Decimal.Text(n + 1), rest);

    var first := |objects| + |head|;
    SliceOfParts(objects + head, entries, trailer + number + tail);
    AtInside(file, first, entries, 20 * id, Encode(XrefEntry(Offset(pages, id))));
    EntryIsRead(file, id, XrefOffset(pages), first, Offset(pages, id));

    SliceOfParts([], objects, head + rest);
    AtInside(file, 0, objects, Offset(pages, id), Encode(ObjectText(id, Body(pages, id))));
  }

  lemma Regroup(objects: Bytes, head: Bytes, entries: Bytes, trailer: Bytes, number: Bytes, tail: Bytes)
    ensures var file := objects + head + entries + trailer + number + tail;
      var rest := entries + (trailer + number + tail);
      && file == objects + head + rest
      && file == (objects + head) + entries + (trailer + number + tail)
      && file == [] + objects + (head + rest)
  {
  }

  lemma ByteLengths(pages: seq<seq<string>>)
    ensures XrefOffset(pages) == |Encode(Upto(pages, LastId(pages)))|
    ensures ByteLength(Upto(pages, LastId(pages))) == XrefOffset(pages)
    ensures forall id: nat :: 1 <= id <= LastId(pages) ==> Offset(pages, id) == |Encode(Upto(pages, id - 1))|
  {
  }
}
