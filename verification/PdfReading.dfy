/** What the reader of PDF files gets from the files the report jobs write. */
module PdfReading {
  import opened Common
  import opened Utf8
  import opened Pdf
  import opened PdfReader
  import Decimal
  import Csv

  // ---- scanning what was put together ----

  /** Wherever c stands, another character than d stands k places on, also within the text. */
  ghost predicate Free(s: string, c: char, k: nat, d: char) {
    forall i :: 0 <= i < |s| && s[i] == c ==> i + k < |s| && s[i + k] != d
  }

  lemma FreeAppend(a: string, b: string, c: char, k: nat, d: char)
    requires Free(a, c, k, d) && Free(b, c, k, d)
    ensures Free(a + b, c, k, d)
  {
    var s := a + b;
    forall i | 0 <= i < |s| && s[i] == c
      ensures i + k < |s| && s[i + k] != d
    {
      if i < |a| {
        assert a[i] == c;
      } else {
        assert b[i - |a|] == c;
      }
    }
  }

  /** Printable text: ASCII without an end of line. */
  ghost predicate Plain(s: string) {
    forall i :: 0 <= i < |s| ==> ' ' <= s[i] <= '~'
  }

  lemma PlainAppend(a: string, b: string)
    requires Plain(a) && Plain(b)
    ensures Plain(a + b)
  {
  }

  lemma DigitsArePlain(s: string, k: nat, d: char)
    requires Decimal.AllDigits(s)
    ensures Plain(s) && Free(s, '/', k, d)
  {
  }

  lemma StartsOf(word: string, rest: string)
    ensures Starts(word + rest, word) && (word + rest)[|word|..] == rest && Skip(word + rest, word) == Some(rest)
  {
  }

  lemma StartsSame(s: string, word: string)
    ensures forall i :: 0 <= i < |word| && Starts(s, word) ==> s[i] == word[i]
  {
    forall i | 0 <= i < |word| && Starts(s, word)
      ensures s[i] == word[i]
    {
      assert s[..|word|][i] == word[i];
    }
  }

  lemma {:induction false} FindOf(prefix: string, word: string, k: nat, rest: string)
    requires k < |word| && Free(prefix, word[0], k, word[k])
    ensures Find(prefix + word + rest, word) == Some(rest)
    decreases |prefix|
  {
    var s := prefix + word + rest;
    if prefix == [] {
      assert s == word + rest;
      StartsOf(word, rest);
    } else {
      assert s[0] == prefix[0] && (k < |prefix| ==> s[k] == prefix[k]);
      StartsSame(s, word);
      var tail := prefix[1..];
      assert s[1..] == tail + word + rest;
      assert Free(tail, word[0], k, word[k]) by {
        assert forall i :: 0 <= i < |tail| ==> tail[i] == prefix[i + 1];
      }
      FindOf(tail, word, k, rest);
    }
  }

  ghost predicate NoDigitFirst(s: string) {
    s == [] || !Decimal.IsDigit(s[0])
  }

  lemma {:induction false} DigitCountOf(s: string, rest: string)
    requires Decimal.AllDigits(s) && NoDigitFirst(rest)
    ensures DigitCount(s + rest) == |s|
    decreases |s|
  {
    if s == [] {
      assert s + rest == rest;
    } else {
      assert (s + rest)[1..] == s[1..] + rest;
      DigitCountOf(s[1..], rest);
    }
  }

  lemma NumberOf(n: nat, rest: string)
    requires NoDigitFirst(rest)
    ensures ReadNumber(Decimal.Text(n) + rest) == Some(Found(n, rest))
  {
    var s := Decimal.Text(n);
    hide Decimal.Text, DigitCount, Decimal.Number;
    DigitCountOf(s, rest);
    assert (s + rest)[..|s|] == s && (s + rest)[|s|..] == rest;
    Decimal.NumberOfText(n);
  }

  lemma NumberThenOf(n: nat, word: string, rest: string)
    requires word != [] && NoDigitFirst(word)
    ensures ReadNumberThen(Decimal.Text(n) + word + rest, word) == Some(Found(n, rest))
  {
    hide Decimal.Text, ReadNumber;
    assert Decimal.Text(n) + word + rest == Decimal.Text(n) + (word + rest);
    NumberOf(n, word + rest);
    StartsOf(word, rest);
  }

  lemma RefOf(n: nat, rest: string)
    ensures ReadRef(Decimal.Text(n) + " 0 R" + rest) == Some(Found(n, rest))
  {
    NumberThenOf(n, " 0 R", rest);
  }

  lemma RefAfterOf(dict: string, prefix: string, key: string, k: nat, n: nat, rest: string)
    requires k < |key| && Free(prefix, key[0], k, key[k])
    requires dict == prefix + key + (Decimal.Text(n) + " 0 R" + rest)
    ensures RefAfter(dict, key) == Some(n)
  {
    hide Find, ReadRef, Decimal.Text;
    FindOf(prefix, key, k, Decimal.Text(n) + " 0 R" + rest);
    RefOf(n, rest);
  }

  lemma NumberAfterOf(dict: string, prefix: string, key: string, k: nat, n: nat, rest: string)
    requires k < |key| && Free(prefix, key[0], k, key[k]) && NoDigitFirst(rest)
    requires dict == prefix + key + (Decimal.Text(n) + rest)
    ensures NumberAfter(dict, key) == Some(n)
  {
    hide Find, ReadNumber, Decimal.Text;
    FindOf(prefix, key, k, Decimal.Text(n) + rest);
    NumberOf(n, rest);
  }

  // ---- the references of a page tree ----

  function Refs(ids: seq<nat>): (refs: seq<string>)
    ensures |refs| == |ids|
  {
    if ids == [] then [] else [Decimal.Text(ids[0]) + " 0 R"] + Refs(ids[1..])
  }

  lemma DigitFirst(n: nat, rest: string)
    ensures !Starts(Decimal.Text(n) + rest, "]")
  {
    var s := Decimal.Text(n) + rest;
    assert Decimal.IsDigit(Decimal.Text(n)[0]) && s[0] == Decimal.Text(n)[0];
    StartsSame(s, "]");
  }

  lemma LastRef(id: nat, rest: string)
    ensures ReadRefs(Decimal.Text(id) + " 0 R" + ("]" + rest)) == Some([id])
  {
    hide Decimal.Text, ReadRef;
    assert Decimal.Text(id) + " 0 R" + ("]" + rest) == Decimal.Text(id) + (" 0 R" + ("]" + rest));
    DigitFirst(id, " 0 R" + ("]" + rest));
    RefOf(id, "]" + rest);
    StartsOf("]", rest);
  }

  lemma NextRef(id: nat, others: string, ids: seq<nat>)
    requires ReadRefs(others) == Some(ids)
    ensures ReadRefs(Decimal.Text(id) + " 0 R" + (" " + others)) == Some([id] + ids)
  {
    hide Decimal.Text, ReadRef;
    assert Decimal.Text(id) + " 0 R" + (" " + others) == Decimal.Text(id) + (" 0 R" + (" " + others));
    DigitFirst(id, " 0 R" + (" " + others));
    RefOf(id, " " + others);
    StartsOf(" ", others);
    StartsSame(" " + others, "]");
    assert (" " + others)[1..] == others;
  }

  lemma RefsCons(ids: seq<nat>)
    requires ids != []
    ensures var first := Decimal.Text(ids[0]) + " 0 R";
      Csv.Join(Refs(ids), " ") == if |ids| == 1 then first else first + " " + Csv.Join(Refs(ids[1..]), " ")
  {
    hide Decimal.Text;
    assert Refs(ids)[1..] == Refs(ids[1..]);
  }

  lemma LastTwo(a: string, b: string, c: string, d: string)
    ensures a + b + c + d == a + b + (c + d)
  {
  }

  lemma LastFour(a: string, b: string, c: string, d: string, e: string, f: string)
    ensures a + b + c + d + e + f == a + b + (c + (d + e + f))
  {
  }

  lemma LastRefReads(id: nat, rest: string)
    ensures ReadRefs(Decimal.Text(id) + " 0 R" + "]" + rest) == Some([id])
  {
    hide *;
    LastTwo(Decimal.Text(id), " 0 R", "]", rest);
    LastRef(id, rest);
  }

  lemma NextRefReads(id: nat, others: string, rest: string, ids: seq<nat>)
    requires ReadRefs(others + "]" + rest) == Some(ids)
    ensures ReadRefs(Decimal.Text(id) + " 0 R" + " " + others + "]" + rest) == Some([id] + ids)
  {
    hide *;
    LastFour(Decimal.Text(id), " 0 R", " ", others, "]", rest);
    NextRef(id, others + "]" + rest, ids);
  }

  lemma NoRefsRead(rest: string)
    ensures ReadRefs(Csv.Join(Refs([]), " ") + "]" + rest) == Some([])
  {
    assert Csv.Join(Refs([]), " ") + "]" + rest == "]" + rest;
    StartsOf("]", rest);
  }

  lemma {:induction false} RefsRead(ids: seq<nat>, rest: string)
    ensures ReadRefs(Csv.Join(Refs(ids), " ") + "]" + rest) == Some(ids)
    decreases |ids|
  {
    hide Decimal.Text, ReadRefs, Refs, Csv.Join;
    if ids == [] {
      NoRefsRead(rest);
    } else {
      RefsCons(ids);
      if |ids| == 1 {
        LastRefReads(ids[0], rest);
        assert [ids[0]] == ids;
      } else {
        RefsRead(ids[1..], rest);
        NextRefReads(ids[0], Csv.Join(Refs(ids[1..]), " "), rest, ids[1..]);
        assert [ids[0]] + ids[1..] == ids;
      }
    }
  }

  lemma RefPlain(id: nat, k: nat, d: char)
    requires d != '/'
    ensures var ref := Decimal.Text(id) + " 0 R"; Plain(ref) && Free(ref, '/', k, d) && Plain(ref + " ") && Free(ref + " ", '/', k, d)
  {
    var number := Decimal.Text(id);
    DigitsArePlain(number, k, d);
    assert Plain(" 0 R") && Free(" 0 R", '/', k, d) && Plain(" ") && Free(" ", '/', k, d);
    hide Plain, Free, Decimal.Text;
    PlainAppend(number, " 0 R");
    FreeAppend(number, " 0 R", '/', k, d);
    PlainAppend(number + " 0 R", " ");
    FreeAppend(number + " 0 R", " ", '/', k, d);
  }

  lemma {:induction false} RefsPlain(ids: seq<nat>, k: nat, d: char)
    requires d != '/'
    ensures Plain(Csv.Join(Refs(ids), " ")) && Free(Csv.Join(Refs(ids), " "), '/', k, d)
    decreases |ids|
  {
    if ids == [] {
      assert Csv.Join(Refs(ids), " ") == "";
    } else {
      hide Decimal.Text, Refs, Csv.Join, Plain, Free;
      RefsCons(ids);
      RefPlain(ids[0], k, d);
      if |ids| > 1 {
        RefsPlain(ids[1..], k, d);
        var ref, rest := Decimal.Text(ids[0]) + " 0 R", Csv.Join(Refs(ids[1..]), " ");
        PlainAppend(ref + " ", rest);
        FreeAppend(ref + " ", rest, '/', k, d);
      }
    }
  }

  // ---- objects ----

  lemma {:induction false} LineEndOf(line: Bytes, rest: Bytes)
    requires 10 !in line
    ensures LineEnd(line + [10] + rest) == |line|
    decreases |line|
  {
    var b := line + [10] + rest;
    if line != [] {
      assert b[0] == line[0] && line[0] in line;
      assert b[1..] == line[1..] + [10] + rest;
      LineEndOf(line[1..], rest);
    }
  }

  lemma PlainBytes(s: string)
    requires Plain(s)
    ensures Encode(s) == Codes(s) && 10 !in Codes(s)
  {
    EncodeAscii(s);
  }

  lemma NumberBytes(id: nat)
    ensures Encode(Decimal.Text(id) + " 0 obj\n") == Codes(Decimal.Text(id) + " 0 obj\n")
  {
    EncodeAscii(Decimal.Text(id) + " 0 obj\n");
  }

  ghost predicate IsDict(dict: string) {
    Plain(dict) && Starts(dict, "<< ") && Starts(dict[Max(0, |dict| - 3)..], " >>")
  }

  lemma NewlineBytes()
    ensures Encode("\n") == [10]
  {
  }

  /** An object's bytes, from its number on. */
  lemma ObjectBytes(id: nat, dict: string, tail: string)
    requires Plain(dict)
    ensures Encode(Decimal.Text(id) + " 0 obj\n" + dict + "\n" + tail) ==
      Codes(Decimal.Text(id) + " 0 obj\n") + (Codes(dict) + [10] + Encode(tail))
  {
    var head := Decimal.Text(id) + " 0 obj\n";
    hide Encode, Codes, Decimal.Text, Plain;
    EncodeAppend(head + dict + "\n", tail);
    EncodeAppend(head + dict, "\n");
    EncodeAppend(head, dict);
    NumberBytes(id);
    PlainBytes(dict);
    NewlineBytes();
    Bytes4(Codes(head), Codes(dict), [10], Encode(tail));
  }

  lemma Bytes4(a: Bytes, b: Bytes, c: Bytes, d: Bytes)
    ensures a + b + c + d == a + (b + c + d)
  {
  }

  lemma RestOf(file: Bytes, offset: nat, head: Bytes, body: Bytes) returns (more: Bytes)
    requires At(file, offset, head + body)
    ensures At(file, offset, head) && file[offset + |head|..] == body + more
  {
    more := file[offset + |head| + |body|..];
    var all := head + body;
    assert file[offset..offset + |all|] == all;
    assert file[offset..offset + |head|] == all[..|head|] == head;
    assert file[offset + |head|..offset + |all|] == all[|head|..] == body;
    assert file[offset + |head|..] == file[offset + |head|..offset + |all|] + more;
  }

  lemma LineParts(line: Bytes, tail: Bytes, more: Bytes)
    requires 10 !in line
    ensures var body := line + [10] + tail + more;
      LineEnd(body) == |line| && body[..|line|] == line && |line| < |body| && At(body[|line| + 1..], 0, tail)
  {
    var body := line + [10] + tail + more;
    assert body == line + [10] + (tail + more);
    LineEndOf(line, tail + more);
    assert body[|line| + 1..] == tail + more;
    assert (tail + more)[0..|tail|] == tail;
  }

  lemma ObjectReads(file: Bytes, id: nat, offset: nat, dict: string, tail: string)
    requires ReadOffset(file, id) == Some(offset) && IsDict(dict)
    requires At(file, offset, Encode(Decimal.Text(id) + " 0 obj\n" + dict + "\n" + tail))
    ensures var read := ReadObject(file, id);
      read.Some? && read.value.dict == dict && At(read.value.after, 0, Encode(tail))
  {
    hide Encode, Codes, Decimal.Text, At, LineEnd, Decode, ReadOffset;
    ObjectBytes(id, dict, tail);
    var more := RestOf(file, offset, Codes(Decimal.Text(id) + " 0 obj\n"), Codes(dict) + [10] + Encode(tail));
    PlainBytes(dict);
    LineParts(Codes(dict), Encode(tail), more);
    DecodeEncode(dict);
  }

  lemma EndBytes(end: string)
    requires forall i :: 0 <= i < |end| ==> end[i] as int < 128
    ensures Encode(end) == Codes(end)
  {
    EncodeAscii(end);
  }

  lemma DictReads(file: Bytes, id: nat, offset: nat, dict: string, name: string)
    requires ReadOffset(file, id) == Some(offset) && IsDict(dict) && IsOfType(dict, name)
    requires At(file, offset, Encode(ObjectText(id, dict)))
    ensures ReadDict(file, id, name) == Some(dict)
  {
    hide Encode, Codes, Decimal.Text, ReadObject, IsOfType, IsDict;
    assert Decimal.Text(id) + " 0 obj\n" + dict + "\nendobj\n" == Decimal.Text(id) + " 0 obj\n" + dict + "\n" + "endobj\n";
    ObjectReads(file, id, offset, dict, "endobj\n");
    EndBytes("endobj\n");
  }

  lemma TypeOf(dict: string, name: string, rest: string)
    requires dict == "<< " + "/Type " + (name + " " + rest)
    ensures IsOfType(dict, name)
  {
    hide Find;
    FindOf("<< ", "/Type ", 1, name + " " + rest);
    StartsOf(name + " ", rest);
  }

  lemma DictOf(inner: string)
    requires Plain(inner)
    ensures IsDict("<< " + inner + " >>")
  {
    var dict := "<< " + inner + " >>";
    assert Plain("<< ") && Plain(" >>");
    PlainAppend("<< ", inner);
    PlainAppend("<< " + inner, " >>");
    assert dict[..3] == "<< " && dict[|dict| - 3..] == " >>";
  }

  // ---- the dictionaries ----

  lemma SmallTexts()
    ensures Decimal.Text(1) == "1" && Decimal.Text(2) == "2" && Decimal.Text(3) == "3" && Decimal.Text(8) == "8"
    ensures Decimal.Text(24) == "24" && Decimal.Text(580) == "580" && Decimal.Text(792) == "792" && Decimal.Text(612) == "612"
  {
  }

  const CATALOG := "<< /Type /Catalog /Pages 2 0 R >>"

  lemma CatalogIsDict()
    ensures IsDict(CATALOG)
  {
    var inner := "/Type /Catalog /Pages 2 0 R";
    assert CATALOG == "<< " + inner + " >>";
    assert Plain(inner);
    hide Plain, IsDict, Starts;
    DictOf(inner);
  }

  lemma CatalogType()
    ensures IsOfType(CATALOG, "/Catalog")
  {
    hide IsOfType;
    assert CATALOG == "<< " + "/Type " + ("/Catalog" + " " + "/Pages 2 0 R >>");
    TypeOf(CATALOG, "/Catalog", "/Pages 2 0 R >>");
  }

  lemma CatalogPages()
    ensures RefAfter(CATALOG, "/Pages ") == Some(2)
  {
    var prefix := "<< /Type /Catalog ";
    SmallTexts();
    assert CATALOG == prefix + "/Pages " + ("2" + " 0 R" + " >>");
    assert Free(prefix, '/', 1, 'P');
    hide RefAfter, Free, Decimal.Text;
    RefAfterOf(CATALOG, prefix, "/Pages ", 1, 2, " >>");
  }

  const FONT := "<< /Type /Font /Subtype /Type1 "
  const BASE_FONT := "/BaseFont /Courier >>"

  lemma FontWords()
    ensures FONT == "<< " + "/Type /Font /Subtype /Type1 " && BASE_FONT == "/BaseFont /Courier" + " >>"
    ensures Plain("/Type /Font /Subtype /Type1 ") && Plain("/BaseFont /Courier")
  {
    FontWordsPlain();
  }

  lemma FontWordsPlain()
    ensures Plain("/Type /Font /Subtype /Type1 ") && Plain("/BaseFont /Courier")
  {
  }

  lemma FontIsDict()
    ensures IsDict(FONT + BASE_FONT)
  {
    var a, b := "/Type /Font /Subtype /Type1 ", "/BaseFont /Courier";
    FontWords();
    hide Plain, IsDict;
    PlainAppend(a, b);
    DictOf(a + b);
    Middle("<< ", a, b, " >>");
  }

  lemma Middle(a: string, b: string, c: string, d: string)
    ensures a + b + (c + d) == a + (b + c) + d
  {
  }

  lemma FontType()
    ensures IsOfType(FONT + BASE_FONT, "/Font")
  {
    var more := "/Subtype /Type1 ";
    assert FONT == "<< " + "/Type " + "/Font" + " " + more;
    hide IsOfType;
    DeepTail("<< ", "/Type ", "/Font", " ", more, BASE_FONT);
    TypeOf(FONT + BASE_FONT, "/Font", more + BASE_FONT);
  }

  lemma DeepTail(a: string, b: string, c: string, d: string, e: string, f: string)
    ensures a + b + c + d + e + f == a + b + (c + d + (e + f))
  {
  }

  lemma FontSubtype()
    ensures Find(FONT + BASE_FONT, "/Subtype /Type1 ").Some?
  {
    var prefix, key := "<< /Type /Font ", "/Subtype /Type1 ";
    assert FONT == prefix + key;
    assert Free(prefix, '/', 1, 'S');
    hide Find, Free;
    FindOf(prefix, key, 1, BASE_FONT);
  }

  lemma FontBase()
    ensures Find(FONT + BASE_FONT, "/BaseFont /") == Some("Courier >>")
  {
    var key := "/BaseFont /";
    assert BASE_FONT == key + "Courier >>";
    assert Free(FONT, '/', 1, 'B');
    hide Find, Free;
    assert FONT + (key + "Courier >>") == FONT + key + "Courier >>";
    FindOf(FONT, key, 1, "Courier >>");
  }

  lemma {:induction false} WordOf(word: string, rest: string)
    requires ' ' !in word && rest != [] && rest[0] == ' '
    ensures ReadWord(word + rest) == Found(word, rest)
    decreases |word|
  {
    if word == [] {
      assert word + rest == rest;
    } else {
      assert word[0] in word;
      assert (word + rest)[1..] == word[1..] + rest;
      WordOf(word[1..], rest);
      assert [word[0]] + word[1..] == word;
    }
  }

  lemma FontName()
    ensures ReadWord("Courier >>").value == "Courier"
  {
    assert "Courier >>" == "Courier" + " >>";
    WordOf("Courier", " >>");
  }

  function KidIds(n: nat): (ids: seq<nat>)
    ensures |ids| == n && forall i :: 0 <= i < n ==> ids[i] == 4 + 2 * i
  {
    seq(n, i => 4 + 2 * i)
  }

  lemma {:induction false} RefsSnoc(ids: seq<nat>, id: nat)
    ensures Refs(ids + [id]) == Refs(ids) + [Decimal.Text(id) + " 0 R"]
    decreases |ids|
  {
    hide Decimal.Text;
    if ids == [] {
      assert ids + [id] == [id] && [id][1..] == [];
    } else {
      assert (ids + [id])[1..] == ids[1..] + [id];
      RefsSnoc(ids[1..], id);
    }
  }

  lemma {:induction false} KidsAreRefs(n: nat)
    ensures Kids(n) == Refs(KidIds(n))
    decreases n
  {
    if n == 0 {
      assert KidIds(0) == [];
    } else {
      KidsAreRefs(n - 1);
      assert KidIds(n) == KidIds(n - 1) + [4 + 2 * (n - 1)];
      RefsSnoc(KidIds(n - 1), 4 + 2 * (n - 1));
    }
  }

  const TREE := "<< /Type /Pages /Kids ["

  lemma PagesDict(n: nat)
    ensures var dict := TREE + Csv.Join(Kids(n), " ") + "] /Count " + Decimal.Text(n) + " >>";
      && IsDict(dict) && IsOfType(dict, "/Pages")
      && (exists kids :: Find(dict, "/Kids [") == Some(kids) && ReadRefs(kids) == Some(KidIds(n)))
      && NumberAfter(dict, "/Count ") == Some(n)
  {
    hide IsOfType, IsDict, Find, ReadRefs, NumberAfter, Kids, Refs, Csv.Join, Decimal.Text, KidIds, Free, Plain;
    KidsAreRefs(n);
    var kids, count := Csv.Join(Refs(KidIds(n)), " "), Decimal.Text(n);
    var dict := TREE + kids + "] /Count " + count + " >>";
    RefsPlain(KidIds(n), 1, 'C');
    DigitsArePlain(count, 1, 'C');
    TreeParts(kids, count);
    PagesDictPlain(kids, count);
    TypeOf(dict, "/Pages", "/Kids [" + kids + "] /Count " + count + " >>");
    TreeFree();
    FindOf("<< /Type /Pages ", "/Kids [", 1, kids + "]" + (" /Count " + count + " >>"));
    RefsRead(KidIds(n), " /Count " + count + " >>");
    FreeAppend(TREE, kids, '/', 1, 'C');
    FreeAppend(TREE + kids, "] ", '/', 1, 'C');
    NumberAfterOf(dict, TREE + kids + "] ", "/Count ", 1, n, " >>");
  }

  lemma TreeFree()
    ensures Free("<< /Type /Pages ", '/', 1, 'K') && Free(TREE, '/', 1, 'C') && Free("] ", '/', 1, 'C')
  {
  }

  lemma PagesDictPlain(kids: string, count: string)
    requires Plain(kids) && Plain(count)
    ensures IsDict("<< " + ("/Type /Pages /Kids [" + kids + "] /Count " + count) + " >>")
  {
    var first := "/Type /Pages /Kids [";
    assert Plain(first) && Plain("] /Count ");
    PlainAppend(first, kids);
    PlainAppend(first + kids, "] /Count ");
    PlainAppend(first + kids + "] /Count ", count);
    DictOf(first + kids + "] /Count " + count);
  }

  lemma TreeLiterals()
    ensures TREE == "<< " + "/Type /Pages /Kids [" && TREE == "<< /Type /Pages " + "/Kids ["
    ensures TREE == "<< " + "/Type " + "/Pages" + " " + "/Kids ["
    ensures "] /Count " == "]" + " /Count " && "] /Count " == "] " + "/Count "
  {
  }

  lemma TreeParts(kids: string, count: string)
    ensures var dict := TREE + kids + "] /Count " + count + " >>";
      && dict == "<< " + ("/Type /Pages /Kids [" + kids + "] /Count " + count) + " >>"
      && dict == "<< " + "/Type " + ("/Pages" + " " + ("/Kids [" + kids + "] /Count " + count + " >>"))
      && dict == "<< /Type /Pages " + "/Kids [" + (kids + "]" + (" /Count " + count + " >>"))
      && dict == TREE + kids + "] " + "/Count " + (count + " >>")
  {
    TreeLiterals();
    TreeGroups("<< ", "/Type /Pages /Kids [", kids, "] /Count ", count, " >>");
    var rest := kids + "] /Count " + count + " >>";
    FromSecond(TREE, kids, "] /Count ", count, " >>");
    DeepTail("<< ", "/Type ", "/Pages", " ", "/Kids [", rest);
    FromSecond("/Kids [", kids, "] /Count ", count, " >>");
    KidsGroups("<< /Type /Pages ", "/Kids [", kids, "]", " /Count ", count, " >>");
    CountGroups(TREE, kids, "] ", "/Count ", count, " >>");
  }

  lemma FromSecond(a: string, b: string, c: string, d: string, e: string)
    ensures a + b + c + d + e == a + (b + c + d + e)
  {
  }

  lemma KidsGroups(a: string, b: string, c: string, d: string, e: string, f: string, g: string)
    ensures a + b + c + (d + e) + f + g == a + b + (c + d + (e + f + g))
  {
  }

  lemma CountGroups(a: string, b: string, c: string, d: string, e: string, f: string)
    ensures a + b + (c + d) + e + f == a + b + c + d + (e + f)
  {
  }

  lemma TreeGroups(open: string, inner: string, kids: string, key: string, count: string, close: string)
    ensures open + inner + kids + key + count + close == open + (inner + kids + key + count) + close
  {
  }

  // ---- a page's dictionary ----

  /** The dictionary from the second, third and fourth part on. */
  function FromSize(id: string): string {
    PAGE_SIZE + FromFont(id)
  }

  function FromFont(id: string): string {
    PAGE_FONT + FromContents(id)
  }

  function FromContents(id: string): string {
    "/Contents " + id + " 0 R >>"
  }

  lemma PageParts(id: string)
    ensures PAGE_PARENT + PAGE_SIZE + PAGE_FONT + "/Contents " + id + " 0 R >>" == PAGE_PARENT + FromSize(id)
  {
    PageGroups(PAGE_PARENT, PAGE_SIZE, PAGE_FONT, "/Contents ", id, " 0 R >>");
  }

  lemma PageGroups(a: string, b: string, c: string, d: string, e: string, f: string)
    ensures a + b + c + d + e + f == a + (b + (c + (d + e + f)))
  {
  }

  lemma ParentLiterals()
    ensures PAGE_PARENT == "<< " + "/Type " + "/Page" + " " + "/Parent 2 0 R "
    ensures PAGE_PARENT == "<< " + "/Type /Page /Parent 2 0 R "
    ensures Plain("/Type /Page /Parent 2 0 R ")
  {
    ParentWords();
    ParentPlain();
  }

  lemma ParentWords()
    ensures PAGE_PARENT == "<< " + "/Type " + "/Page" + " " + "/Parent 2 0 R "
  {
  }

  lemma ParentPlain()
    ensures Plain("/Type /Page /Parent 2 0 R ")
  {
  }

  lemma ParentReads(id: string)
    ensures RefAfter(PAGE_PARENT + FromSize(id), "/Parent ") == Some(2)
  {
    var prefix, rest := "<< /Type /Page ", FromSize(id);
    assert PAGE_PARENT == prefix + "/Parent " + "2" + " 0 R" + " ";
    assert Free(prefix, '/', 3, 'r');
    SmallTexts();
    hide RefAfter, Free, Decimal.Text, FromSize;
    DeepTail(prefix, "/Parent ", "2", " 0 R", " ", rest);
    RefGroups(prefix, "/Parent ", "2", " 0 R", " " + rest);
    RefAfterOf(PAGE_PARENT + rest, prefix, "/Parent ", 3, 2, " " + rest);
  }

  lemma RefGroups(a: string, b: string, c: string, d: string, e: string)
    ensures a + b + (c + d + e) == a + b + c + d + e
  {
  }

  lemma PlainLiterals()
    ensures Plain(PAGE_SIZE) && Plain(PAGE_FONT) && Plain("/Contents ") && Plain(" 0 R") && " 0 R >>" == " 0 R" + " >>"
  {
  }

  lemma PageIsDict(id: string)
    requires Plain(id)
    ensures IsDict(PAGE_PARENT + FromSize(id))
  {
    hide Plain, IsDict;
    var inner, rest := "/Type /Page /Parent 2 0 R ", PAGE_SIZE + (PAGE_FONT + ("/Contents " + id + " 0 R"));
    ParentLiterals();
    PlainLiterals();
    PlainAppend("/Contents ", id);
    PlainAppend("/Contents " + id, " 0 R");
    PlainAppend(PAGE_FONT, "/Contents " + id + " 0 R");
    PlainAppend(PAGE_SIZE, PAGE_FONT + ("/Contents " + id + " 0 R"));
    PlainAppend(inner, rest);
    DictOf(inner + rest);
    CloseGroups(PAGE_SIZE, PAGE_FONT, "/Contents ", id, " 0 R", " >>");
    Middle("<< ", inner, rest, " >>");
  }

  lemma CloseGroups(a: string, b: string, c: string, d: string, e: string, f: string)
    ensures a + (b + (c + d + (e + f))) == a + (b + (c + d + e)) + f
  {
  }

  lemma PageType(id: string)
    ensures IsOfType(PAGE_PARENT + FromSize(id), "/Page")
  {
    var more := "/Parent 2 0 R ";
    ParentLiterals();
    hide IsOfType, FromSize;
    DeepTail("<< ", "/Type ", "/Page", " ", more, FromSize(id));
    TypeOf(PAGE_PARENT + FromSize(id), "/Page", more + FromSize(id));
  }

  lemma SizeLiterals()
    ensures PAGE_SIZE == "/MediaBox [0 0 " + "792" + " " + "612" + "]" + " "
    ensures Free(PAGE_PARENT, '/', 1, 'M')
  {
  }

  lemma SizeReads(id: string)
    ensures ReadSize(PAGE_PARENT + FromSize(id)) == Some((792, 612))
  {
    var key, rest := "/MediaBox [0 0 ", FromFont(id);
    SizeLiterals();
    SmallTexts();
    hide Find, Free, ReadNumberThen, Decimal.Text, FromFont;
    SizeGroups(PAGE_PARENT, key, "792", " ", "612", "]", " ", rest);
    FindOf(PAGE_PARENT, key, 1, "792" + " " + ("612" + "]" + (" " + rest)));
    NumberThenOf(792, " ", "612" + "]" + (" " + rest));
    NumberThenOf(612, "]", " " + rest);
  }

  lemma SizeGroups(a: string, b: string, c: string, d: string, e: string, f: string, g: string, h: string)
    ensures a + (b + c + d + e + f + g + h) == a + b + (c + d + (e + f + (g + h)))
  {
  }

  lemma FontLiterals()
    ensures PAGE_FONT == "/Resources << /Font << " + "/F1 " + "3" + " 0 R" + " >> >> "
    ensures Free(PAGE_PARENT, '/', 2, '1') && Free(PAGE_SIZE, '/', 2, '1') && Free("/Resources << /Font << ", '/', 2, '1')
  {
  }

  lemma FontReads(id: string)
    ensures RefAfter(PAGE_PARENT + FromSize(id), "/F1 ") == Some(3)
  {
    var before, key, close, rest := "/Resources << /Font << ", "/F1 ", " >> >> ", FromContents(id);
    FontLiterals();
    SmallTexts();
    hide RefAfter, Free, Decimal.Text, FromContents;
    FreeAppend(PAGE_PARENT, PAGE_SIZE, '/', 2, '1');
    FreeAppend(PAGE_PARENT + PAGE_SIZE, before, '/', 2, '1');
    FontGroups(PAGE_PARENT, PAGE_SIZE, before, key, "3", " 0 R", close, rest);
    RefAfterOf(PAGE_PARENT + FromSize(id), PAGE_PARENT + PAGE_SIZE + before, key, 2, 3, close + rest);
  }

  lemma FontGroups(a: string, b: string, c: string, d: string, e: string, f: string, g: string, h: string)
    ensures a + (b + (c + d + e + f + g + h)) == a + b + c + d + (e + f + (g + h))
  {
  }

  lemma ContentsLiterals()
    ensures Free(PAGE_PARENT, '/', 1, 'C') && Free(PAGE_SIZE, '/', 1, 'C') && Free(PAGE_FONT, '/', 1, 'C')
    ensures " 0 R >>" == " 0 R" + " >>"
  {
  }

  lemma ContentsReads(id: nat)
    ensures RefAfter(PAGE_PARENT + FromSize(Decimal.Text(id)), "/Contents ") == Some(id)
  {
    var key, text := "/Contents ", Decimal.Text(id);
    ContentsLiterals();
    hide RefAfter, Free, Decimal.Text;
    FreeAppend(PAGE_PARENT, PAGE_SIZE, '/', 1, 'C');
    FreeAppend(PAGE_PARENT + PAGE_SIZE, PAGE_FONT, '/', 1, 'C');
    ContentsGroups(PAGE_PARENT, PAGE_SIZE, PAGE_FONT, key, text, " 0 R", " >>");
    RefAfterOf(PAGE_PARENT + FromSize(text), PAGE_PARENT + PAGE_SIZE + PAGE_FONT, key, 1, id, " >>");
  }

  lemma ContentsGroups(a: string, b: string, c: string, d: string, e: string, f: string, g: string)
    ensures a + (b + (c + (d + e + (f + g)))) == a + b + c + d + (e + f + g)
  {
  }

  /** All that the dictionary of a page says. */
  lemma PageDict(contentId: nat)
    ensures var dict := PageObject(contentId);
      && IsDict(dict) && IsOfType(dict, "/Page")
      && ReadSize(dict) == Some((792, 612)) && RefAfter(dict, "/Parent ") == Some(2)
      && RefAfter(dict, "/F1 ") == Some(3) && RefAfter(dict, "/Contents ") == Some(contentId)
  {
    hide IsDict, IsOfType, ReadSize, RefAfter, Decimal.Text, FromSize;
    var id := Decimal.Text(contentId);
    PageParts(id);
    DigitsArePlain(id, 1, 'C');
    PageIsDict(id);
    PageType(id);
    SizeReads(id);
    ParentReads(id);
    FontReads(id);
    ContentsReads(contentId);
  }

  // ---- streams ----

  lemma LengthDict(n: nat)
    ensures var dict := "<< /Length " + Decimal.Text(n) + " >>";
      IsDict(dict) && NumberAfter(dict, "/Length ") == Some(n)
  {
    var text := Decimal.Text(n);
    assert "<< /Length " == "<< " + "/Length " && Plain("/Length ") && Free("<< ", '/', 1, 'L');
    hide Decimal.Text, IsDict, NumberAfter, Plain, Free;
    DigitsArePlain(text, 1, 'L');
    PlainAppend("/Length ", text);
    DictOf("/Length " + text);
    assert "<< " + ("/Length " + text) + " >>" == "<< " + "/Length " + text + " >>";
    assert "<< " + "/Length " + text + " >>" == "<< " + "/Length " + (text + " >>");
    NumberAfterOf("<< /Length " + text + " >>", "<< ", "/Length ", 1, n, " >>");
  }

  lemma StreamParts(after: Bytes, word: Bytes, data: Bytes, end: Bytes)
    requires At(after, 0, word + data + end)
    ensures At(after, 0, word) && At(after, |word| + |data|, end) && after[|word|..|word| + |data|] == data
  {
    var all := word + data + end;
    assert after[..|all|] == all;
    assert after[..|word|] == all[..|word|] == word;
    assert after[|word|..|word| + |data|] == all[|word|..|word| + |data|] == data;
    assert after[|word| + |data|..|all|] == all[|word| + |data|..] == end;
  }

  lemma StreamReads(file: Bytes, id: nat, offset: nat, text: string)
    requires ReadOffset(file, id) == Some(offset)
    requires var dict := "<< /Length " + Decimal.Text(ByteLength(text)) + " >>";
      At(file, offset, Encode(ObjectText(id, dict + "\nstream\n" + text + "\nendstream")))
    ensures ReadStream(file, id) == Some(text)
  {
    hide Encode, Decode, Codes, At, Decimal.Text, ReadObject, IsDict, NumberAfter;
    var dict := "<< /Length " + Decimal.Text(ByteLength(text)) + " >>";
    var word, end := "stream\n", "\nendstream\nendobj\n";
    LengthDict(ByteLength(text));
    assert "\nstream\n" == "\n" + word && end == "\nendstream" + "\nendobj\n";
    StreamGroups(Decimal.Text(id) + " 0 obj\n", dict, "\n", word, text, "\nendstream", "\nendobj\n");
    ObjectReads(file, id, offset, dict, word + text + end);
    EncodeAppend(word + text, end);
    EncodeAppend(word, text);
    EndBytes(word);
    EndBytes(end);
    DecodeEncode(text);
    StreamParts(ReadObject(file, id).value.after, Codes(word), Encode(text), Codes(end));
  }

  lemma StreamGroups(a: string, b: string, c: string, d: string, e: string, f: string, g: string)
    ensures a + (b + (c + d) + e + f) + g == a + b + c + (d + e + (f + g))
  {
  }

  // ---- the text of a page ----

  /** A line as far as it is written, with its ends of line as LF. */
  function Written(line: string): string {
    EndsOfLine(line[..Min(150, |line|)])
  }

  /** What a page shows from line i on: line after line, 8 units apart, from the top left. */
  function ShownFrom(page: seq<string>, i: nat): (shown: seq<Shown>)
    requires i <= |page|
    ensures |shown| == |page| - i
    ensures forall k :: 0 <= k < |shown| ==> shown[k] == Shown(24, 580 - 8 * (i + k), Written(page[i + k]))
    decreases |page| - i
  {
    if i == |page| then [] else [Shown(24, 580 - 8 * i, Written(page[i]))] + ShownFrom(page, i + 1)
  }

  /** The commands from line i on. */
  function TextFrom(page: seq<string>, i: nat): string
    requires i <= |page|
    decreases |page| - i
  {
    if i == |page| then "ET" else LineCommand(page[i], i) + "\n" + TextFrom(page, i + 1)
  }

  lemma {:induction false} LineCommandsAt(page: seq<string>)
    ensures |LineCommands(page)| == |page|
    ensures forall i :: 0 <= i < |page| ==> LineCommands(page)[i] == LineCommand(page[i], i)
    decreases |page|
  {
    hide LineCommand;
    if page != [] {
      LineCommandsAt(page[..|page| - 1]);
    }
  }

  lemma JoinCons(first: string, rest: seq<string>, separator: string)
    requires rest != []
    ensures Csv.Join([first] + rest, separator) == first + separator + Csv.Join(rest, separator)
  {
    assert ([first] + rest)[1..] == rest;
  }

  lemma {:induction false} JoinFrom(page: seq<string>, i: nat)
    requires i <= |page| == |LineCommands(page)|
    ensures Csv.Join(LineCommands(page)[i..] + ["ET"], "\n") == TextFrom(page, i)
    decreases |page| - i
  {
    var commands := LineCommands(page);
    if i == |page| {
      assert commands[i..] + ["ET"] == ["ET"];
    } else {
      hide LineCommands, LineCommand, Csv.Join;
      LineCommandsAt(page);
      JoinFrom(page, i + 1);
      assert commands[i..] + ["ET"] == [commands[i]] + (commands[i + 1..] + ["ET"]);
      JoinCons(commands[i], commands[i + 1..] + ["ET"], "\n");
    }
  }

  const FONT_SIZE := "6.5"

  /** The commands as the reader takes them apart. */
  lemma CommandsParts(page: seq<string>)
    ensures Commands(page) ==
      "BT\n/F1 " + (FONT_SIZE + (" Tf\n" + ("24" + " " + ("580" + " Td\n" + ("8" + " TL\n" + TextFrom(page, 0))))))
  {
    hide LineCommands, Csv.Join, TextFrom;
    var rest := LineCommands(page) + ["ET"];
    LineCommandsAt(page);
    JoinFrom(page, 0);
    assert LineCommands(page)[0..] == LineCommands(page);
    JoinCons("8 TL", rest, "\n");
    JoinCons("24 580 Td", ["8 TL"] + rest, "\n");
    JoinCons("/F1 6.5 Tf", ["24 580 Td"] + (["8 TL"] + rest), "\n");
    JoinCons("BT", ["/F1 6.5 Tf"] + (["24 580 Td"] + (["8 TL"] + rest)), "\n");
    assert ["BT", "/F1 6.5 Tf", "24 580 Td", "8 TL"] + LineCommands(page) + ["ET"] ==
      ["BT"] + (["/F1 6.5 Tf"] + (["24 580 Td"] + (["8 TL"] + rest)));
    HeadGroups(TextFrom(page, 0));
  }

  lemma HeadGroups(rest: string)
    ensures "BT" + "\n" + ("/F1 6.5 Tf" + "\n" + ("24 580 Td" + "\n" + ("8 TL" + "\n" + rest))) ==
      "BT\n/F1 " + (FONT_SIZE + (" Tf\n" + ("24" + " " + ("580" + " Td\n" + ("8" + " TL\n" + rest)))))
  {
    HeadLiterals();
    HeadAssociates("BT", "\n", "/F1 ", FONT_SIZE, " Tf", "24" + " " + "580", " Td", "8", " TL", rest);
    var tail := "8" + (" TL" + "\n") + rest;
    assert "24" + " " + "580" + (" Td" + "\n") + tail == "24" + " " + ("580" + (" Td" + "\n") + tail);
  }

  lemma HeadLiterals()
    ensures "/F1 6.5 Tf" == "/F1 " + FONT_SIZE + " Tf" && "24 580 Td" == "24" + " " + "580" + " Td" && "8 TL" == "8" + " TL"
    ensures "BT\n/F1 " == "BT" + "\n" + "/F1 " && " Tf\n" == " Tf" + "\n" && " Td\n" == " Td" + "\n" && " TL\n" == " TL" + "\n"
  {
  }

  lemma HeadAssociates(a: string, n: string, b: string, c: string, d: string, e: string, f: string, g: string, h: string, rest: string)
    ensures a + n + (b + c + d + n + (e + f + n + (g + h + n + rest))) ==
      a + n + b + (c + (d + n + (e + (f + n) + (g + (h + n) + rest))))
  {
  }

  lemma ShownEnd(x: int, y: int, leading: int)
    ensures ReadShown("ET", x, y, leading) == Some([])
  {
  }

  /** A string shown, as the reader takes it. */
  lemma ShowsLine(escaped: string, text: string, rest: string, x: int, y: int, leading: int, more: seq<Shown>)
    requires ReadLiteral(escaped + ")" + (" Tj\n" + rest), 0) == Some((text, " Tj\n" + rest))
    requires ReadShown(rest, x, y, leading) == Some(more)
    ensures ReadShown("(" + (escaped + ")" + (" Tj\n" + rest)), x, y, leading) == Some([Shown(x, y, text)] + more)
  {
    hide ReadLiteral;
    var tail := escaped + ")" + (" Tj\n" + rest);
    StartsOf("(", tail);
    StartsSame("(" + tail, "T* ");
    StartsOf(" Tj\n", rest);
    assert ("(" + tail)[1..] == tail && ("(" + tail)[0] != "ET"[0];
  }

  lemma NextLine(s: string, x: int, y: int, leading: int)
    ensures ReadShown("T* " + s, x, y, leading) == ReadShown(s, x, y - leading, leading)
  {
    StartsOf("T* ", s);
    assert ("T* " + s)[1] != "ET"[1];
  }

  /** The commands of a line, but for the move to it, and all after them. */
  function LineAndRest(page: seq<string>, i: nat): string
    requires i < |page|
  {
    "(" + (PdfEscape(page[i][..Min(150, |page[i]|)]) + ")" + (" Tj\n" + TextFrom(page, i + 1)))
  }

  lemma TextFromLine(page: seq<string>, i: nat)
    requires i < |page|
    ensures TextFrom(page, i) == if i == 0 then LineAndRest(page, 0) else "T* " + LineAndRest(page, i)
  {
    hide PdfEscape;
    CommandGroups(if i != 0 then "T* " else "", PdfEscape(page[i][..Min(150, |page[i]|)]), TextFrom(page, i + 1));
    if i == 0 {
      assert "" + LineAndRest(page, 0) == LineAndRest(page, 0);
    }
  }

  lemma LineReads(page: seq<string>, i: nat)
    requires i < |page|
    requires ReadShown(TextFrom(page, i + 1), 24, 580 - 8 * i, 8) == Some(ShownFrom(page, i + 1))
    ensures ReadShown(LineAndRest(page, i), 24, 580 - 8 * i, 8) == Some(ShownFrom(page, i))
  {
    hide ReadLiteral, PdfEscape, ReadShown, TextFrom;
    var cut, rest := page[i][..Min(150, |page[i]|)], TextFrom(page, i + 1);
    LiteralRoundTrip(cut, " Tj\n" + rest);
    ShowsLine(PdfEscape(cut), Written(page[i]), rest, 24, 580 - 8 * i, 8, ShownFrom(page, i + 1));
  }

  lemma {:induction false} TextReads(page: seq<string>, i: nat)
    requires i <= |page|
    ensures ReadShown(TextFrom(page, i), 24, if i == 0 then 580 else 580 - 8 * (i - 1), 8) == Some(ShownFrom(page, i))
    decreases |page| - i
  {
    hide ReadShown, LineAndRest, LineCommand;
    if i == |page| {
      ShownEnd(24, if i == 0 then 580 else 580 - 8 * (i - 1), 8);
    } else {
      hide TextFrom, ShownFrom;
      TextReads(page, i + 1);
      LineReads(page, i);
      TextFromLine(page, i);
      if i != 0 {
        NextLine(LineAndRest(page, i), 24, 580 - 8 * (i - 1), 8);
      }
    }
  }

  lemma CommandGroups(move: string, escaped: string, rest: string)
    ensures move + "(" + escaped + ") Tj" + "\n" + rest == move + ("(" + (escaped + ")" + (" Tj\n" + rest)))
  {
    assert ") Tj" == ")" + " Tj" && " Tj\n" == " Tj" + "\n";
    MoveGroups(move, "(", escaped, ")", " Tj", "\n", rest);
  }

  lemma MoveGroups(a: string, b: string, c: string, d: string, e: string, f: string, g: string)
    ensures a + b + c + (d + e) + f + g == a + (b + (c + d + (e + f + g)))
  {
  }

  lemma CommandsRead(page: seq<string>)
    ensures ReadText(Commands(page)) == Some(TextObject(FONT_SIZE, ShownFrom(page, 0)))
  {
    hide Commands, ReadShown, ReadNumberThen, ReadWord, Skip, TextFrom, Decimal.Text;
    var lines := TextFrom(page, 0);
    var spacing := "8" + " TL\n" + lines;
    var height := "580" + " Td\n" + spacing;
    var place := "24" + " " + height;
    CommandsParts(page);
    SmallTexts();
    StartsOf("BT\n/F1 ", FONT_SIZE + (" Tf\n" + place));
    WordOf(FONT_SIZE, " Tf\n" + place);
    StartsOf(" Tf\n", place);
    NumberThenOf(24, " ", height);
    NumberThenOf(580, " Td\n", spacing);
    NumberThenOf(8, " TL\n", lines);
    TextReads(page, 0);
  }

  // ---- the trailer ----

  lemma {:induction false} EntriesLength(pages: seq<seq<string>>, n: nat)
    requires n <= LastId(pages) && XrefOffset(pages) < OFFSET_LIMIT
    ensures |XrefEntries(pages, n)| == 20 * (n + 1)
    decreases n
  {
    hide Pad10, Offset, Upto, ObjectText, Body, Encode;
    if n == 0 {
      assert |"0000000000 65535 f \n"| == 20;
    } else {
      EntriesLength(pages, n - 1);
      ObjectsStand(pages, LastId(pages), n);
      ByteLengths(pages);
      Pad10Reads(Offset(pages, n));
      assert |XrefEntry(Offset(pages, n))| == 20;
    }
  }

  lemma TrailerLiterals()
    ensures "trailer\n<< /Size " == "trailer\n<< " + "/Size " && " /Root 1 0 R >>\n" == " " + "/Root " + "1" + " 0 R" + " >>\n"
    ensures Free("trailer\n<< ", '/', 1, 'S') && Free("trailer\n<< /Size ", '/', 1, 'R') && Free(" ", '/', 1, 'R')
  {
  }

  lemma TrailerGroups(a: string, b: string, size: string, c: string, d: string, root: string, e: string, f: string, rest: string)
    ensures a + b + size + (c + d + root + e + f) + rest == a + b + (size + (c + d + root + e + f + rest))
    ensures a + b + size + (c + d + root + e + f) + rest == (a + b) + size + c + d + (root + e + (f + rest))
  {
  }

  lemma TrailerReads(count: nat, rest: string)
    ensures var trailer := "trailer\n<< /Size " + Decimal.Text(count) + " /Root 1 0 R >>\n" + rest;
      && Starts(trailer, "trailer\n<< ")
      && NumberAfter(trailer, "/Size ") == Some(count) && RefAfter(trailer, "/Root ") == Some(1)
  {
    var size := Decimal.Text(count);
    TrailerLiterals();
    SmallTexts();
    hide Decimal.Text, NumberAfter, RefAfter, Free;
    var trailer := "trailer\n<< /Size " + size + " /Root 1 0 R >>\n" + rest;
    var root := " " + "/Root " + "1" + " 0 R" + " >>\n" + rest;
    TrailerGroups("trailer\n<< ", "/Size ", size, " ", "/Root ", "1", " 0 R", " >>\n", rest);
    assert "trailer\n<< " + "/Size " + (size + root) == "trailer\n<< " + ("/Size " + (size + root));
    StartsOf("trailer\n<< ", "/Size " + (size + root));
    NumberAfterOf(trailer, "trailer\n<< ", "/Size ", 1, count, root);
    DigitsArePlain(size, 1, 'R');
    FreeAppend("trailer\n<< /Size ", size, '/', 1, 'R');
    FreeAppend("trailer\n<< /Size " + size, " ", '/', 1, 'R');
    RefAfterOf(trailer, "trailer\n<< /Size " + size + " ", "/Root ", 1, 1, " >>\n" + rest);
  }

  /** Everything from the table on. */
  function FromTable(pages: seq<seq<string>>): string {
    XrefHead(pages) + XrefEntries(pages, LastId(pages)) + TrailerHead(pages) + Decimal.Text(XrefOffset(pages)) + TAIL
  }

  lemma TableBytes(pages: seq<seq<string>>)
    ensures var file := Encode(FileText(pages));
      XrefOffset(pages) <= |file| && file[XrefOffset(pages)..] == Encode(FromTable(pages))
  {
    hide Encode, Upto, XrefHead, XrefEntries, TrailerHead, XrefOffset, Decimal.Text;
    var objects := Upto(pages, LastId(pages));
    SixParts(objects, XrefHead(pages), XrefEntries(pages, LastId(pages)), TrailerHead(pages), Decimal.Text(XrefOffset(pages)), TAIL);
    EncodeAppend(objects, FromTable(pages));
    ByteLengths(pages);
  }

  lemma SixParts(a: string, b: string, c: string, d: string, e: string, f: string)
    ensures a + b + c + d + e + f == a + (b + c + d + e + f)
  {
  }

  lemma TableGroups(a: string, count: string, b: string, entries: string, c: string, d: string, e: string, f: string, g: string)
    ensures a + count + b + entries + (c + count + d + e) + f + g ==
      a + (count + b + (entries + (c + count + d + (e + f + g))))
  {
  }

  lemma RootReads(pages: seq<seq<string>>)
    requires XrefOffset(pages) < OFFSET_LIMIT
    ensures ReadRoot(Encode(FileText(pages))) == Some(1)
  {
    hide Encode, Decode, FileText, Upto, XrefEntries, XrefOffset, Decimal.Text, ReadStart, ReadNumberThen, NumberAfter, RefAfter,
      Skip, Body, ObjectText, ReadOffset, Offset;
    var count := LastId(pages) + 1;
    var entries, end := XrefEntries(pages, LastId(pages)), STARTXREF + Decimal.Text(XrefOffset(pages)) + TAIL;
    var trailer := "trailer\n<< /Size " + Decimal.Text(count) + " /Root 1 0 R >>\n" + end;
    EveryObjectIsFound(pages, 1);
    TableBytes(pages);
    DecodeEncode(FromTable(pages));
    TableGroups("xref\n0 ", Decimal.Text(count), "\n", entries, "trailer\n<< /Size ", " /Root 1 0 R >>\n", STARTXREF,
                Decimal.Text(XrefOffset(pages)), TAIL);
    StartsOf("xref\n0 ", Decimal.Text(count) + "\n" + (entries + trailer));
    NumberThenOf(count, "\n", entries + trailer);
    EntriesLength(pages, LastId(pages));
    assert (entries + trailer)[20 * count..] == trailer;
    TrailerReads(count, end);
  }

  // ---- the pages ----

  /** Where and how an object is found. */
  lemma BodyFound(pages: seq<seq<string>>, id: nat)
    requires 1 <= id <= LastId(pages) && XrefOffset(pages) < OFFSET_LIMIT
    ensures var file := Encode(FileText(pages));
      ReadOffset(file, id).Some? && At(file, ReadOffset(file, id).value, Encode(ObjectText(id, Body(pages, id))))
  {
    hide *;
    EveryObjectIsFound(pages, id);
  }

  lemma FontIsRead(pages: seq<seq<string>>)
    requires XrefOffset(pages) < OFFSET_LIMIT
    ensures ReadFont(Encode(FileText(pages)), 3) == Some("Courier")
  {
    hide Encode, FileText, XrefOffset, ReadOffset, ObjectText, IsDict, IsOfType, Find, At, ReadDict, ReadWord;
    var file := Encode(FileText(pages));
    BodyFound(pages, 3);
    FontIsDict();
    FontType();
    DictReads(file, 3, ReadOffset(file, 3).value, FONT + BASE_FONT, "/Font");
    FontSubtype();
    FontBase();
    FontName();
  }

  lemma SheetReads(pages: seq<seq<string>>, k: nat)
    requires k < |pages| && XrefOffset(pages) < OFFSET_LIMIT
    ensures ReadSheet(Encode(FileText(pages)), 2, 4 + 2 * k) ==
      Some(Sheet(792, 612, "Courier", TextObject(FONT_SIZE, ShownFrom(pages[k], 0))))
  {
    hide Encode, FileText, XrefOffset, ReadOffset, ObjectText, IsDict, IsOfType, RefAfter, ReadSize, At, ReadDict, ReadStream, ReadText,
      ReadFont, PageObject, Commands, Body, ShownFrom;
    var file, id := Encode(FileText(pages)), 4 + 2 * k;
    PageBodies(pages, k);
    BodyFound(pages, id);
    PageDict(id + 1);
    DictReads(file, id, ReadOffset(file, id).value, PageObject(id + 1), "/Page");
    FontIsRead(pages);
    BodyFound(pages, id + 1);
    StreamReads(file, id + 1, ReadOffset(file, id + 1).value, Commands(pages[k]));
    CommandsRead(pages[k]);
  }

  lemma {:induction false} SheetsRead(file: Bytes, parent: nat, ids: seq<nat>, sheets: seq<Sheet>)
    requires |ids| == |sheets| && forall k :: 0 <= k < |ids| ==> ReadSheet(file, parent, ids[k]) == Some(sheets[k])
    ensures ReadSheets(file, parent, ids) == Some(sheets)
    decreases |ids|
  {
    hide ReadSheet;
    if ids != [] {
      SheetsRead(file, parent, ids[1..], sheets[1..]);
      assert [sheets[0]] + sheets[1..] == sheets;
    }
  }

  /** The page tree lists every page, and nothing else. */
  lemma TreeReads(pages: seq<seq<string>>, sheets: seq<Sheet>)
    requires XrefOffset(pages) < OFFSET_LIMIT && |sheets| == |pages|
    requires forall k :: 0 <= k < |pages| ==> ReadSheet(Encode(FileText(pages)), 2, 4 + 2 * k) == Some(sheets[k])
    ensures ReadSheetsOf(Encode(FileText(pages)), 2) == Some(sheets)
  {
    hide Encode, FileText, XrefOffset, ReadOffset, ObjectText, IsDict, IsOfType, NumberAfter, Find, At, ReadDict, ReadRefs, ReadSheets,
      ReadSheet, Kids, Csv.Join, Decimal.Text;
    var file := Encode(FileText(pages));
    BodyFound(pages, 2);
    PagesDict(|pages|);
    DictReads(file, 2, ReadOffset(file, 2).value, Body(pages, 2), "/Pages");
    SheetsRead(file, 2, KidIds(|pages|), sheets);
  }

  function SheetOf(page: seq<string>): Sheet {
    Sheet(792, 612, "Courier", TextObject(FONT_SIZE, ShownFrom(page, 0)))
  }

  function SheetsOf(pages: seq<seq<string>>): (sheets: seq<Sheet>)
    ensures |sheets| == |pages| && forall k :: 0 <= k < |pages| ==> sheets[k] == SheetOf(pages[k])
  {
    seq(|pages|, k requires 0 <= k < |pages| => SheetOf(pages[k]))
  }

  lemma VersionBytes()
    ensures Encode(HEADER) == Codes("%PDF-1.4\n") + Codes("%Toko360\n")
  {
    hide Encode, Codes;
    assert HEADER == "%PDF-1.4\n" + "%Toko360\n";
    EncodeAppend("%PDF-1.4\n", "%Toko360\n");
    EndBytes("%PDF-1.4\n");
    EndBytes("%Toko360\n");
  }

  lemma {:induction false} HeaderStands(pages: seq<seq<string>>, n: nat) returns (more: string)
    requires n <= LastId(pages)
    ensures Upto(pages, n) == HEADER + more
    decreases n
  {
    hide ObjectText, Body;
    if n == 0 {
      more := "";
      assert HEADER + "" == HEADER;
    } else {
      var before := HeaderStands(pages, n - 1);
      more := before + ObjectText(n, Body(pages, n));
      assert HEADER + before + ObjectText(n, Body(pages, n)) == HEADER + more;
    }
  }

  lemma VersionReads(pages: seq<seq<string>>)
    ensures At(Encode(FileText(pages)), 0, Codes("%PDF-1.4\n"))
  {
    hide Encode, Upto, XrefHead, XrefEntries, TrailerHead, XrefOffset, Decimal.Text, Codes;
    var objects := Upto(pages, LastId(pages));
    SixParts(objects, XrefHead(pages), XrefEntries(pages, LastId(pages)), TrailerHead(pages), Decimal.Text(XrefOffset(pages)), TAIL);
    var more := HeaderStands(pages, LastId(pages));
    assert HEADER + more + FromTable(pages) == HEADER + (more + FromTable(pages));
    EncodeAppend(HEADER, more + FromTable(pages));
    VersionBytes();
    var version, rest := Codes("%PDF-1.4\n"), Codes("%Toko360\n") + Encode(more + FromTable(pages));
    assert Encode(FileText(pages)) == version + rest;
    assert (version + rest)[0..|version|] == version;
  }

  lemma PagesRead(pages: seq<seq<string>>)
    requires XrefOffset(pages) < OFFSET_LIMIT
    ensures ReadPages(Encode(FileText(pages))) == Some(SheetsOf(pages))
  {
    hide Encode, FileText, XrefOffset, ReadOffset, ObjectText, IsDict, IsOfType, RefAfter, At, ReadDict, ReadRoot, ReadSheetsOf,
      ReadSheet, ShownFrom;
    var file := Encode(FileText(pages));
    RootReads(pages);
    VersionReads(pages);
    BodyFound(pages, 1);
    CatalogIsDict();
    CatalogType();
    CatalogPages();
    DictReads(file, 1, ReadOffset(file, 1).value, CATALOG, "/Catalog");
    forall k | 0 <= k < |pages|
      ensures ReadSheet(file, 2, 4 + 2 * k) == Some(SheetsOf(pages)[k])
    {
      SheetReads(pages, k);
    }
    TreeReads(pages, SheetsOf(pages));
  }

  /** A reader of the file finds one sheet of 792 by 612 for each page, in order, and on it the page's lines in Courier
      6.5, each cut to 150 characters and with its ends of line as LF, one below the other 8 units apart. */
  lemma PagesAreShown(pages: seq<seq<string>>)
    requires XrefOffset(pages) < OFFSET_LIMIT
    ensures var read := ReadPages(Encode(FileText(pages)));
      && read.Some? && |read.value| == |pages|
      && forall k :: 0 <= k < |pages| ==>
           var sheet, page := read.value[k], pages[k];
           && (sheet.width, sheet.height, sheet.font, sheet.text.size) == (792, 612, "Courier", "6.5")
           && |sheet.text.shown| == |page|
           && forall i :: 0 <= i < |page| ==>
                sheet.text.shown[i] == Shown(24, 580 - 8 * i, EndsOfLine(page[i][..Min(150, |page[i]|)]))
  {
    hide Encode, FileText, XrefOffset, ReadPages, EndsOfLine;
    PagesRead(pages);
  }

  // ---- the report ----

  /** All that is shown, page after page. */
  function AllShown(sheets: seq<Sheet>): seq<Shown> {
    if sheets == [] then [] else sheets[0].text.shown + AllShown(sheets[1..])
  }

  lemma {:induction false} ShownAreLines(pages: seq<seq<string>>)
    ensures var shown, lines := AllShown(SheetsOf(pages)), Flatten(pages);
      && |shown| == |lines|
      && forall i :: 0 <= i < |lines| ==> shown[i].text == Written(lines[i])
    decreases |pages|
  {
    hide Written;
    if pages != [] {
      ShownAreLines(pages[1..]);
      assert SheetsOf(pages)[1..] == SheetsOf(pages[1..]);
      var first: seq<Shown>, rest: seq<Shown> := ShownFrom(pages[0], 0), AllShown(SheetsOf(pages[1..]));
      assert AllShown(SheetsOf(pages)) == first + rest;
      forall i | 0 <= i < |pages[0]| + |rest|
        ensures (first + rest)[i].text == Written((pages[0] + Flatten(pages[1..]))[i])
      {
        if i >= |pages[0]| {
          assert (first + rest)[i] == rest[i - |pages[0]|];
        }
      }
    }
  }

  lemma {:induction false} JoinedRows(rows: seq<Csv.Row>)
    ensures |JoinRows(rows)| == |rows|
    ensures forall i :: 0 <= i < |rows| ==> JoinRows(rows)[i] == Csv.Join(rows[i], " | ")
    decreases |rows|
  {
    hide Csv.Join;
    if rows != [] {
      JoinedRows(rows[1..]);
    }
  }

  /** The whole report is shown, in order and inside the sheets: the title, the time, an empty line, and each row of the
      CSV text with bars between its cells. */
  lemma ReportIsShown(csv: string, title: string, generated: string)
    requires XrefOffset(Pages(ReportLines(csv, title, generated))) < OFFSET_LIMIT
    ensures var rows := Csv.Parse(csv);
      var read := ReadPages(Encode(FileText(Pages(ReportLines(csv, title, generated)))));
      && read.Some?
      && (forall k :: 0 <= k < |read.value| ==>
            forall i :: 0 <= i < |read.value[k].text.shown| ==>
              0 <= read.value[k].text.shown[i].x < read.value[k].width && 0 <= read.value[k].text.shown[i].y < read.value[k].height)
      && var shown := AllShown(read.value);
         && |shown| == 3 + |rows|
         && shown[0].text == Written(title) && shown[1].text == Written("Generated: " + generated) && shown[2].text == ""
         && forall i :: 0 <= i < |rows| ==> shown[3 + i].text == Written(Csv.Join(rows[i], " | "))
  {
    hide Encode, FileText, XrefOffset, ReadPages, Csv.Parse, Csv.Join, AllShown, JoinRows, Pages, Written, Flatten;
    var lines := ReportLines(csv, title, generated);
    var pages := Pages(lines);
    PagesRead(pages);
    PagesPartition(lines);
    ShownAreLines(pages);
    JoinedRows(Csv.Parse(csv));
    assert Written("") == "" by {
      NothingWritten();
    }
    forall k | 0 <= k < |pages|
      ensures |pages[k]| <= 55
    {
      assert |pages[k]| <= LINES_PER_PAGE;
    }
  }

  lemma NothingWritten()
    ensures Written("") == ""
  {
  }
}
