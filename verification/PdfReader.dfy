/** An independent reader of PDF files after ISO 32000-1: from the end of the file through the cross-reference table and
    the page tree to the lines each page shows, and where. It knows nothing of the writer's numbering. */
module PdfReader {
  import opened Common
  import opened Utf8
  import opened Pdf
  import Decimal
  import Csv

  // ---- scanning text ----

  predicate Starts(s: string, word: string) {
    |word| <= |s| && s[..|word|] == word
  }

  /** What follows a word the text begins with. */
  function Skip(s: string, word: string): (rest: Option<string>)
    ensures rest.Some? ==> |rest.value| <= |s|
  {
    if Starts(s, word) then Some(s[|word|..]) else None
  }

  /** What follows the first occurrence of a word. */
  function Find(s: string, word: string): Option<string>
    decreases |s|
  {
    if Starts(s, word) then Some(s[|word|..]) else if s == [] then None else Find(s[1..], word)
  }

  function DigitCount(s: string): (n: nat)
    ensures n <= |s| && Decimal.AllDigits(s[..n])
  {
    if s == [] || !Decimal.IsDigit(s[0]) then 0
    else
      assert forall i :: 0 <= i < DigitCount(s[1..]) ==> s[i + 1] == s[1..][..DigitCount(s[1..])][i];
      1 + DigitCount(s[1..])
  }

  datatype Found<T> = Found(value: T, rest: string)

  function ReadNumber(s: string): (r: Option<Found<nat>>)
    ensures r.Some? ==> |r.value.rest| < |s|
  {
    var n := DigitCount(s);
    if n == 0 then None else Some(Found(Decimal.Number(s[..n]), s[n..]))
  }

  /** The text up to a space. */
  function ReadWord(s: string): (r: Found<string>)
    ensures s == r.value + r.rest
  {
    if s == [] || s[0] == ' ' then Found([], s)
    else
      var more := ReadWord(s[1..]);
      Found([s[0]] + more.value, more.rest)
  }

  /** A number, and the word after it. */
  function ReadNumberThen(s: string, word: string): (r: Option<Found<nat>>)
    ensures r.Some? ==> |r.value.rest| < |s|
  {
    match ReadNumber(s)
    case None => None
    case Some(Found(n, rest)) =>
      match Skip(rest, word)
      case None => None
      case Some(after) => Some(Found(n, after))
  }

  /** An indirect reference (section 7.3.10), generation 0. */
  function ReadRef(s: string): (r: Option<Found<nat>>)
    ensures r.Some? ==> |r.value.rest| < |s|
  {
    ReadNumberThen(s, " 0 R")
  }

  function NumberAfter(s: string, key: string): Option<nat> {
    match Find(s, key)
    case None => None
    case Some(value) =>
      match ReadNumber(value)
      case None => None
      case Some(found) => Some(found.value)
  }

  function RefAfter(s: string, key: string): Option<nat> {
    match Find(s, key)
    case None => None
    case Some(value) =>
      match ReadRef(value)
      case None => None
      case Some(found) => Some(found.value)
  }

  /** The first /Type of a dictionary is this one. */
  predicate IsOfType(dict: string, name: string) {
    var value := Find(dict, "/Type ");
    value.Some? && Starts(value.value, name + " ")
  }

  /** References up to the closing bracket. */
  function ReadRefs(s: string): Option<seq<nat>>
    decreases |s|
  {
    if Starts(s, "]") then Some([])
    else
      match ReadRef(s)
      case None => None
      case Some(Found(id, rest)) =>
        if Starts(rest, "]") then Some([id])
        else if !Starts(rest, " ") then None
        else
          match ReadRefs(rest[1..])
          case None => None
          case Some(ids) => Some([id] + ids)
  }

  // ---- objects ----

  function LineEnd(b: Bytes): (n: nat)
    ensures n <= |b|
  {
    if b == [] || b[0] == 10 then 0 else 1 + LineEnd(b[1..])
  }

  /** A dictionary that fills a line, and the bytes after that line. */
  datatype Object = Object(dict: string, after: Bytes)

  /** The object the table gives under a number (section 7.3.10); its dictionary stands in one line. */
  function ReadObject(file: Bytes, id: nat): Option<Object> {
    match ReadOffset(file, id)
    case None => None
    case Some(offset) =>
      var head := Codes(Decimal.Text(id) + " 0 obj\n");
      if !At(file, offset, head) then None
      else
        var body := file[offset + |head|..];
        var n := LineEnd(body);
        match Decode(body[..n])
        case None => None
        case Some(dict) =>
          if n < |body| && Starts(dict, "<< ") && Starts(dict[Max(0, |dict| - 3)..], " >>") then
            Some(Object(dict, body[n + 1..]))
          else None
  }

  /** An object that is nothing but a dictionary of a type. */
  function ReadDict(file: Bytes, id: nat, name: string): Option<string> {
    match ReadObject(file, id)
    case None => None
    case Some(Object(dict, after)) =>
      if At(after, 0, Codes("endobj\n")) && IsOfType(dict, name) then Some(dict) else None
  }

  /** The text of a stream: exactly as many bytes as its dictionary says (section 7.3.8). */
  function ReadStream(file: Bytes, id: nat): Option<string> {
    match ReadObject(file, id)
    case None => None
    case Some(Object(dict, after)) =>
      var word := Codes("stream\n");
      match NumberAfter(dict, "/Length ")
      case None => None
      case Some(n) =>
        if !At(after, 0, word) || !At(after, |word| + n, Codes("\nendstream\nendobj\n")) then None
        else Decode(after[|word|..|word| + n])
  }

  // ---- the trailer (section 7.5.5) ----

  /** The number of the catalogue. The table's count of entries is right, and so is the trailer's. */
  function ReadRoot(file: Bytes): Option<nat> {
    match ReadStart(file)
    case None => None
    case Some(start) =>
      if start > |file| then None
      else
        match Decode(file[start..])
        case None => None
        case Some(table) =>
          match Skip(table, "xref\n0 ")
          case None => None
          case Some(counted) =>
            match ReadNumberThen(counted, "\n")
            case None => None
            case Some(Found(count, entries)) =>
              if |entries| < 20 * count || !Starts(entries[20 * count..], "trailer\n<< ") then None
              else
                var trailer := entries[20 * count..];
                if NumberAfter(trailer, "/Size ") != Some(count) then None else RefAfter(trailer, "/Root ")
  }

  // ---- what a page shows (sections 9.4.2 and 9.4.3) ----

  /** A line of text and where it begins. */
  datatype Shown = Shown(x: int, y: int, text: string)

  /** Strings are shown at the start of the current line; T* goes to the next, the leading lower. */
  function ReadShown(s: string, x: int, y: int, leading: int): Option<seq<Shown>>
    decreases |s|
  {
    if s == "ET" then Some([])
    else if Starts(s, "T* ") then ReadShown(s[3..], x, y - leading, leading)
    else if !Starts(s, "(") then None
    else
      match ReadLiteral(s[1..], 0)
      case None => None
      case Some((text, rest)) =>
        if !Starts(rest, " Tj\n") || |rest| > |s| then None
        else
          match ReadShown(rest[4..], x, y, leading)
          case None => None
          case Some(more) => Some([Shown(x, y, text)] + more)
  }

  /** The font size, as it is written, and the lines. */
  datatype TextObject = TextObject(size: string, shown: seq<Shown>)

  /** A text object that sets a font, a place and a leading, and then shows lines. */
  function ReadText(s: string): Option<TextObject> {
    match Skip(s, "BT\n/F1 ")
    case None => None
    case Some(font) =>
      var size := ReadWord(font);
      match Skip(size.rest, " Tf\n")
      case None => None
      case Some(place) =>
        match ReadNumberThen(place, " ")
        case None => None
        case Some(Found(x, height)) =>
          match ReadNumberThen(height, " Td\n")
          case None => None
          case Some(Found(y, spacing)) =>
            match ReadNumberThen(spacing, " TL\n")
            case None => None
            case Some(Found(leading, lines)) =>
              match ReadShown(lines, x, y, leading)
              case None => None
              case Some(shown) => Some(TextObject(size.value, shown))
  }

  // ---- the page tree (sections 7.7.2 and 7.7.3) ----

  /** The size of the medium, the font and its size, and what is shown. */
  datatype Sheet = Sheet(width: nat, height: nat, font: string, text: TextObject)

  function ReadSize(dict: string): Option<(nat, nat)> {
    match Find(dict, "/MediaBox [0 0 ")
    case None => None
    case Some(box) =>
      match ReadNumberThen(box, " ")
      case None => None
      case Some(Found(width, rest)) =>
        match ReadNumberThen(rest, "]")
        case None => None
        case Some(Found(height, _)) => Some((width, height))
  }

  /** The name of a Type 1 font. */
  function ReadFont(file: Bytes, id: nat): Option<string> {
    match ReadDict(file, id, "/Font")
    case None => None
    case Some(dict) =>
      if Find(dict, "/Subtype /Type1 ").None? then None
      else
        match Find(dict, "/BaseFont /")
        case None => None
        case Some(name) => Some(ReadWord(name).value)
  }

  /** A page belongs to its parent and names its size, its font and its content. */
  function ReadSheet(file: Bytes, parent: nat, id: nat): Option<Sheet> {
    match ReadDict(file, id, "/Page")
    case None => None
    case Some(dict) =>
      var size, font, content := ReadSize(dict), RefAfter(dict, "/F1 "), RefAfter(dict, "/Contents ");
      if RefAfter(dict, "/Parent ") != Some(parent) || size.None? || font.None? || content.None? then None
      else
        var name, stream := ReadFont(file, font.value), ReadStream(file, content.value);
        if name.None? || stream.None? then None
        else
          match ReadText(stream.value)
          case None => None
          case Some(text) => Some(Sheet(size.value.0, size.value.1, name.value, text))
  }

  function ReadSheets(file: Bytes, parent: nat, ids: seq<nat>): Option<seq<Sheet>> {
    if ids == [] then Some([])
    else
      var first, rest := ReadSheet(file, parent, ids[0]), ReadSheets(file, parent, ids[1..]);
      if first.None? || rest.None? then None else Some([first.value] + rest.value)
  }

  function ReadSheetsOf(file: Bytes, parent: nat): Option<seq<Sheet>> {
    match ReadDict(file, parent, "/Pages")
    case None => None
    case Some(dict) =>
      match Find(dict, "/Kids [")
      case None => None
      case Some(kids) =>
        match ReadRefs(kids)
        case None => None
        case Some(ids) => if NumberAfter(dict, "/Count ") == Some(|ids|) then ReadSheets(file, parent, ids) else None
  }

  /** What a file of version 1.4 shows, page by page. */
  function ReadPages(file: Bytes): Option<seq<Sheet>> {
    match ReadRoot(file)
    case None => None
    case Some(root) =>
      if !At(file, 0, Codes("%PDF-1.4\n")) then None
      else
        match ReadDict(file, root, "/Catalog")
        case None => None
        case Some(catalog) =>
          match RefAfter(catalog, "/Pages ")
          case None => None
          case Some(parent) => ReadSheetsOf(file, parent)
  }
}
