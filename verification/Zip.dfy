/** Byte buffers of little-endian 16-bit words, the unit every ZIP header field is made of. */
module LittleEndian {
  const LIMIT16 := 0x1_0000
  const LIMIT32 := 0x1_0000_0000

  function Power2(k: nat): nat {
    if k == 0 then 1 else 2 * Power2(k - 1)
  }

  /** The k low bits of a number, lowest first. */
  function BitsOf(n: nat, k: nat): (bits: seq<bool>)
    ensures |bits| == k
    decreases k
  {
    if k == 0 then [] else [n % 2 == 1] + BitsOf(n / 2, k - 1)
  }

  function BitSum(bits: seq<bool>): (n: nat)
    ensures n < Power2(|bits|)
    decreases |bits|
  {
    if bits == [] then 0 else (if bits[0] then 1 else 0) + 2 * BitSum(bits[1..])
  }

  lemma {:induction false} SumOfBits(n: nat, k: nat)
    requires n < Power2(k)
    ensures BitSum(BitsOf(n, k)) == n
    decreases k
  {
    if k > 0 {
      SumOfBits(n / 2, k - 1);
      assert BitsOf(n, k)[1..] == BitsOf(n / 2, k - 1);
    }
  }

  function Pack(b: seq<bool>): bv8
    requires |b| == 8
  {
    (if b[0] then 1 else 0) | (if b[1] then 2 else 0) | (if b[2] then 4 else 0) | (if b[3] then 8 else 0)
      | (if b[4] then 16 else 0) | (if b[5] then 32 else 0) | (if b[6] then 64 else 0) | (if b[7] then 128 else 0)
  }

  function Unpack(b: bv8): (bits: seq<bool>)
    ensures |bits| == 8
  {
    [b & 1 != 0, b & 2 != 0, b & 4 != 0, b & 8 != 0, b & 16 != 0, b & 32 != 0, b & 64 != 0, b & 128 != 0]
  }

  lemma PackUnpacks(b: seq<bool>)
    requires |b| == 8
    ensures Unpack(Pack(b)) == b
  {
  }

  lemma EightBits()
    ensures Power2(8) == 256
  {
    assert Power2(4) == 16;
  }

  /** n as bv8, put together from its bits: the solver is slow to convert integers. */
  function Byte(n: nat): (b: bv8)
    requires n < 256
  {
    Pack(BitsOf(n, 8))
  }

  function Value(b: bv8): (n: nat)
    ensures n < 256
  {
    EightBits();
    BitSum(Unpack(b))
  }

  lemma ByteValue(n: nat)
    requires n < 256
    ensures Value(Byte(n)) == n
  {
    hide Power2, BitSum, Unpack, Pack, BitsOf;
    EightBits();
    SumOfBits(n, 8);
    PackUnpacks(BitsOf(n, 8));
  }

  function Lo(n: nat): nat {
    n % LIMIT16
  }

  function Hi(n: nat): nat {
    n / LIMIT16
  }

  /** The bytes of a list of words, low byte first. */
  function Words(ws: seq<nat>): (b: seq<bv8>)
    ensures |b| == 2 * |ws|
  {
    if ws == [] then [] else Words(ws[..|ws| - 1]) + [Byte(ws[|ws| - 1] % 256), Byte(ws[|ws| - 1] / 256 % 256)]
  }

  function U16(z: seq<bv8>, p: nat): nat
    requires p + 2 <= |z|
  {
    Value(z[p]) + 256 * Value(z[p + 1])
  }

  function U32(z: seq<bv8>, p: nat): nat
    requires p + 4 <= |z|
  {
    U16(z, p) + LIMIT16 * U16(z, p + 2)
  }

  /** chunk stands in z at position p. */
  ghost predicate At(z: seq<bv8>, p: nat, chunk: seq<bv8>) {
    p + |chunk| <= |z| && z[p..p + |chunk|] == chunk
  }

  lemma AtSplit(z: seq<bv8>, p: nat, a: seq<bv8>, b: seq<bv8>)
    requires At(z, p, a + b)
    ensures At(z, p, a) && At(z, p + |a|, b)
  {
    var c := z[p..p + |a + b|];
    assert c[..|a|] == a && c[|a|..] == b;
  }

  lemma {:induction false} ReadWord(z: seq<bv8>, p: nat, ws: seq<nat>, k: nat)
    requires At(z, p, Words(ws)) && k < |ws| && ws[k] < LIMIT16
    ensures U16(z, p + 2 * k) == ws[k]
  {
    hide Byte, Value;
    var init := ws[..|ws| - 1];
    var w := ws[|ws| - 1];
    var last := [Byte(w % 256), Byte(w / 256 % 256)];
    AtSplit(z, p, Words(init), last);
    if k < |init| {
      ReadWord(z, p, init, k);
    } else {
      var q := p + 2 * k;
      assert z[q] == z[q..q + 2][0] && z[q + 1] == z[q..q + 2][1];
      ByteValue(w % 256);
      ByteValue(w / 256 % 256);
    }
  }

  /** A header under construction: Node's Buffer.alloc followed by writes at rising positions. */
  class Header {
    const bytes: array<bv8>
    ghost var words: seq<nat>

    ghost predicate Valid()
      reads this, bytes
    {
      2 * |words| <= bytes.Length && bytes[..2 * |words|] == Words(words)
    }

    constructor (size: nat)
      ensures Valid() && words == [] && bytes.Length == size && fresh(bytes)
    {
      bytes := new bv8[size];
      words := [];
    }

    lemma Finished()
      requires Valid() && 2 * |words| == bytes.Length
      ensures bytes[..] == Words(words)
    {
      assert bytes[..] == bytes[..2 * |words|];
    }

    method WriteUInt16LE(value: nat, p: nat)
      requires Valid() && p == 2 * |words| && p + 2 <= bytes.Length && value < LIMIT16
      modifies this, bytes
      ensures Valid() && words == old(words) + [value]
    {
      hide Byte;
      bytes[p], bytes[p + 1] := Byte(value % 256), Byte(value / 256 % 256);
      words := words + [value];
      assert words[..|words| - 1] == old(words);
      assert bytes[..p + 2] == bytes[..p] + [Byte(value % 256), Byte(value / 256 % 256)];
    }

    method WriteUInt32LE(value: nat, p: nat)
      requires Valid() && p == 2 * |words| && p + 4 <= bytes.Length && value < LIMIT32
      modifies this, bytes
      ensures Valid() && words == old(words) + [Lo(value), Hi(value)]
    {
      WriteUInt16LE(value % LIMIT16, p);
      WriteUInt16LE(value / LIMIT16, p + 2);
    }
  }
}

module Zip {
  import opened Common
  import opened LittleEndian
  import opened Crc32

  datatype Entry = Entry(name: seq<bv8>, data: seq<bv8>)

  const LOCAL_SIGNATURE := 0x04034b50
  const CENTRAL_SIGNATURE := 0x02014b50
  const END_SIGNATURE := 0x06054b50

  // ---- the records (sections 4.3.7, 4.3.12 and 4.3.16 of PKWARE APPNOTE.TXT) ----

  function Sum(e: Entry): (n: nat)
    ensures n < LIMIT32
  {
    Crc(e.data) as int
  }

  ghost predicate EntryFits(e: Entry) {
    |e.name| < LIMIT16 && |e.data| < LIMIT32
  }

  /** Checksum, both sizes and the name length: the stretch both headers share. */
  ghost function SizeWords(e: Entry): seq<nat> {
    [Lo(Sum(e)), Hi(Sum(e)), Lo(|e.data|), Hi(|e.data|), Lo(|e.data|), Hi(|e.data|), |e.name|]
  }

  method WriteSizes(header: Header, file: Entry, crc: nat, p: nat)
    requires header.Valid() && p == 2 * |header.words| && p + 14 <= header.bytes.Length
    requires EntryFits(file) && crc == Sum(file)
    modifies header, header.bytes
    ensures header.Valid() && header.words == old(header.words) + SizeWords(file)
  {
    hide Words, Header.Valid, Sum, Lo, Hi;
    header.WriteUInt32LE(crc, p);
    header.WriteUInt32LE(|file.data|, p + 4);
    header.WriteUInt32LE(|file.data|, p + 8);
    header.WriteUInt16LE(|file.name|, p + 12);
  }

  ghost function LocalWords(e: Entry): seq<nat> {
    [Lo(LOCAL_SIGNATURE), Hi(LOCAL_SIGNATURE), 20, 0, 0, 0, 0] + SizeWords(e) + [0]
  }

  method LocalHeader(file: Entry, crc: nat) returns (local: Header)
    requires EntryFits(file) && crc == Sum(file)
    ensures fresh(local) && fresh(local.bytes) && local.bytes.Length == 30 && local.bytes[..] == Words(LocalWords(file))
  {
    hide Words, Header.Valid, Sum, SizeWords, Lo, Hi;
    local := new Header(30);
    local.WriteUInt32LE(0x04034b50, 0);
    local.WriteUInt16LE(20, 4);
    local.WriteUInt16LE(0, 6);
    local.WriteUInt16LE(0, 8);
    local.WriteUInt16LE(0, 10);
    local.WriteUInt16LE(0, 12);
    SizeWordsLength(file);
    WriteSizes(local, file, crc, 14);
    local.WriteUInt16LE(0, 28);
    assert local.words == LocalWords(file);
    local.Finished();
  }

  lemma SizeWordsLength(e: Entry)
    ensures |SizeWords(e)| == 7
  {
  }

  ghost function CentralWords(e: Entry, offset: nat): seq<nat> {
    [Lo(CENTRAL_SIGNATURE), Hi(CENTRAL_SIGNATURE), 20, 20, 0, 0, 0, 0] + SizeWords(e)
      + [0, 0, 0, 0, Lo(0), Hi(0), Lo(offset), Hi(offset)]
  }

  method CentralHeader(file: Entry, crc: nat, offset: nat) returns (central: Header)
    requires EntryFits(file) && crc == Sum(file) && offset < LIMIT32
    ensures fresh(central) && fresh(central.bytes) && central.bytes.Length == 46
    ensures central.bytes[..] == Words(CentralWords(file, offset))
  {
    hide Words, Header.Valid, Sum, SizeWords, Lo, Hi;
    central := new Header(46);
    central.WriteUInt32LE(0x02014b50, 0);
    central.WriteUInt16LE(20, 4);
    central.WriteUInt16LE(20, 6);
    central.WriteUInt16LE(0, 8);
    central.WriteUInt16LE(0, 10);
    central.WriteUInt16LE(0, 12);
    central.WriteUInt16LE(0, 14);
    SizeWordsLength(file);
    WriteSizes(central, file, crc, 16);
    ghost var first := central.words;
    assert first == CentralWords(file, offset)[..15];
    central.WriteUInt16LE(0, 30);
    central.WriteUInt16LE(0, 32);
    central.WriteUInt16LE(0, 34);
    central.WriteUInt16LE(0, 36);
    central.WriteUInt32LE(0, 38);
    central.WriteUInt32LE(offset, 42);
    assert central.words == first + [0, 0, 0, 0, Lo(0), Hi(0), Lo(offset), Hi(offset)];
    central.Finished();
  }

  ghost function EndWords(count: nat, size: nat, offset: nat): seq<nat> {
    [Lo(END_SIGNATURE), Hi(END_SIGNATURE), 0, 0, count, count, Lo(size), Hi(size), Lo(offset), Hi(offset), 0]
  }

  method EndRecord(count: nat, size: nat, offset: nat) returns (end: Header)
    requires count < LIMIT16 && size < LIMIT32 && offset < LIMIT32
    ensures fresh(end) && fresh(end.bytes) && end.bytes.Length == 22 && end.bytes[..] == Words(EndWords(count, size, offset))
  {
    hide Words, Header.Valid, Lo, Hi;
    end := new Header(22);
    end.WriteUInt32LE(0x06054b50, 0);
    end.WriteUInt16LE(0, 4);
    end.WriteUInt16LE(0, 6);
    end.WriteUInt16LE(count, 8);
    end.WriteUInt16LE(count, 10);
    end.WriteUInt32LE(size, 12);
    end.WriteUInt32LE(offset, 16);
    end.WriteUInt16LE(0, 20);
    assert end.words == EndWords(count, size, offset);
    end.Finished();
  }

  // ---- the writer ----

  ghost function LocalRecord(e: Entry): seq<bv8> {
    Words(LocalWords(e)) + e.name + e.data
  }

  ghost function CentralRecord(e: Entry, offset: nat): seq<bv8> {
    Words(CentralWords(e, offset)) + e.name
  }

  function LocalSize(files: seq<Entry>): nat {
    if files == [] then 0
    else LocalSize(files[..|files| - 1]) + 30 + |files[|files| - 1].name| + |files[|files| - 1].data|
  }

  function CentralSize(files: seq<Entry>): nat {
    if files == [] then 0 else CentralSize(files[..|files| - 1]) + 46 + |files[|files| - 1].name|
  }

  ghost function Locals(files: seq<Entry>): (b: seq<bv8>)
    ensures |b| == LocalSize(files)
  {
    if files == [] then [] else Locals(files[..|files| - 1]) + LocalRecord(files[|files| - 1])
  }

  ghost function Centrals(files: seq<Entry>): (b: seq<bv8>)
    ensures |b| == CentralSize(files)
  {
    if files == [] then []
    else
      var init := files[..|files| - 1];
      Centrals(init) + CentralRecord(files[|files| - 1], LocalSize(init))
  }

  ghost function Archive(files: seq<Entry>): seq<bv8> {
    Locals(files) + Centrals(files) + Words(EndWords(|files|, CentralSize(files), LocalSize(files)))
  }

  /** What the 16- and 32-bit fields can hold: Node's buffer writes throw a RangeError on anything larger. */
  ghost predicate Fits(files: seq<Entry>) {
    && (forall e :: e in files ==> |e.name| < LIMIT16)
    && |files| < LIMIT16
    && LocalSize(files) < LIMIT32
    && CentralSize(files) < LIMIT32
  }

  datatype Result<T> = Ok(value: T) | RangeError

  lemma {:induction false} SizesGrow(files: seq<Entry>, i: nat)
    requires i < |files|
    ensures LocalSize(files[..i]) + |files[i].data| < LocalSize(files)
    decreases |files|
  {
    var init := files[..|files| - 1];
    if i < |init| {
      SizesGrow(init, i);
      assert init[..i] == files[..i];
    }
  }

  /** One turn of the loop appends exactly the next two records. */
  lemma RecordsGrow(files: seq<Entry>, i: nat)
    requires i < |files|
    ensures Locals(files[..i + 1]) == Locals(files[..i]) + LocalRecord(files[i])
    ensures Centrals(files[..i + 1]) == Centrals(files[..i]) + CentralRecord(files[i], LocalSize(files[..i]))
  {
    assert files[..i + 1][..i] == files[..i];
  }

  lemma NoRecords()
    ensures Locals([]) == [] && Centrals([]) == []
  {
  }

  method ZipStored(files: seq<Entry>) returns (r: Result<seq<bv8>>)
    ensures r.Ok? <==> Fits(files)
    ensures r.Ok? ==> r.value == Archive(files) && ReadZip(r.value) == Some(files)
  {
    hide Words, LocalWords, CentralWords, EndWords, Crc, Checksum.Valid, Locals, Centrals, CentralSize, ReadZip;
    NoRecords();
    var locals, centrals := [], [];
    var offset := 0;
    var engine := new Checksum();
    for i := 0 to |files|
      invariant engine.Valid() && fresh(engine) && (engine.crcTable != null ==> fresh(engine.crcTable))
      invariant locals == Locals(files[..i]) && centrals == Centrals(files[..i]) && offset == |locals|
      invariant forall k :: 0 <= k < i ==> |files[k].name| < LIMIT16
    {
      var file := files[i];
      RecordsGrow(files, i);
      SizesGrow(files, i);
      var crc := engine.Compute(file.data);
      if |file.data| >= LIMIT32 || |file.name| >= LIMIT16 || offset >= LIMIT32 {
        return RangeError;
      }
      var local := LocalHeader(file, crc as int);
      locals := locals + (local.bytes[..] + file.name + file.data);
      var central := CentralHeader(file, crc as int, offset);
      centrals := centrals + (central.bytes[..] + file.name);
      offset := offset + local.bytes.Length + |file.name| + |file.data|;
    }
    assert files[..|files|] == files;
    var centralSize := |centrals|;
    if |files| >= LIMIT16 || centralSize >= LIMIT32 || offset >= LIMIT32 {
      return RangeError;
    }
    var end := EndRecord(|files|, centralSize, offset);
    ReadBack(files);
    return Ok(locals + centrals + end.bytes[..]);
  }

  // ---- an independent reader ----

  /** A record begins with PK and its own two bytes. */
  predicate Signed(z: seq<bv8>, p: nat, c: bv8, d: bv8) {
    p + 4 <= |z| && z[p..p + 4] == [0x50, 0x4b, c, d]
  }

  predicate Zeros(z: seq<bv8>, p: nat, fields: nat)
    requires p + 2 * fields <= |z|
    decreases fields
  {
    fields == 0 || (U16(z, p) == 0 && Zeros(z, p + 2, fields - 1))
  }

  /** The data a local header at p leads to. It must agree with its central entry in every figure: a stored file that
      needs version 2.0, without flags, date or extra field. */
  function ReadLocal(z: seq<bv8>, p: nat, name: seq<bv8>, crc: nat, size: nat): Option<seq<bv8>> {
    if p + 30 > |z| || !Signed(z, p, 3, 4) || U16(z, p + 4) != 20 || !Zeros(z, p + 6, 4) then None
    else if U32(z, p + 14) != crc || U32(z, p + 18) != size || U32(z, p + 22) != size then None
    else if U16(z, p + 26) != |name| || U16(z, p + 28) != 0 then None
    else
      var start := p + 30 + |name|;
      if start + size > |z| || z[p + 30..start] != name then None
      else if Crc(z[start..start + size]) as int != crc then None
      else Some(z[start..start + size])
  }

  /** `count` central entries from position p on, up to the position `end`; both sizes of an entry agree, and it has
      neither extra field, comment nor attributes. */
  function ReadCentral(z: seq<bv8>, p: nat, count: nat, end: nat): Option<seq<Entry>>
    decreases count
  {
    if count == 0 then if p == end then Some([]) else None
    else if p + 46 > |z| || !Signed(z, p, 1, 2) || U16(z, p + 4) != 20 || U16(z, p + 6) != 20 || !Zeros(z, p + 8, 4) then None
    else if U32(z, p + 20) != U32(z, p + 24) || !Zeros(z, p + 30, 6) then None
    else
      var nameEnd := p + 46 + U16(z, p + 28);
      if nameEnd > |z| then None
      else
        var name := z[p + 46..nameEnd];
        match ReadLocal(z, U32(z, p + 42), name, U32(z, p + 16), U32(z, p + 20))
        case None => None
        case Some(data) =>
          match ReadCentral(z, nameEnd, count - 1, end)
          case None => None
          case Some(rest) => Some([Entry(name, data)] + rest)
  }

  /** Reads the end record, here without comment, the central directory it points to, and each local entry. The two
      counts agree, the archive has one disk, and the directory ends where the end record begins. */
  function ReadZip(z: seq<bv8>): Option<seq<Entry>> {
    if |z| < 22 then None
    else
      var e := |z| - 22;
      if !Signed(z, e, 5, 6) || !Zeros(z, e + 4, 2) || U16(z, e + 20) != 0 then None
      else if U16(z, e + 8) != U16(z, e + 10) || U32(z, e + 12) + U32(z, e + 16) != e then None
      else ReadCentral(z, U32(z, e + 16), U16(z, e + 10), e)
  }

  // ---- reading back what was written ----

  lemma JoinHalves(n: nat)
    ensures Lo(n) < LIMIT16 && Lo(n) + LIMIT16 * Hi(n) == n
    ensures n < LIMIT32 ==> Hi(n) < LIMIT16
  {
  }

  lemma ReadDouble(z: seq<bv8>, p: nat, ws: seq<nat>, k: nat, n: nat)
    requires At(z, p, Words(ws)) && k + 1 < |ws| && ws[k] == Lo(n) && ws[k + 1] == Hi(n) && n < LIMIT32
    ensures U32(z, p + 2 * k) == n
  {
    hide Words, Lo, Hi, U16;
    JoinHalves(n);
    ReadWord(z, p, ws, k);
    ReadWord(z, p, ws, k + 1);
  }

  lemma SignatureBytes()
    ensures Words([Lo(LOCAL_SIGNATURE), Hi(LOCAL_SIGNATURE)]) == [0x50, 0x4b, 3, 4]
    ensures Words([Lo(CENTRAL_SIGNATURE), Hi(CENTRAL_SIGNATURE)]) == [0x50, 0x4b, 1, 2]
    ensures Words([Lo(END_SIGNATURE), Hi(END_SIGNATURE)]) == [0x50, 0x4b, 5, 6]
  {
    hide Byte;
    PairBytes(0x4b50, 0x0403);
    PairBytes(0x4b50, 0x0201);
    PairBytes(0x4b50, 0x0605);
    KnownBytes();
  }

  lemma PairBytes(a: nat, b: nat)
    ensures Words([a, b]) == [Byte(a % 256), Byte(a / 256 % 256), Byte(b % 256), Byte(b / 256 % 256)]
  {
    hide Byte;
    assert [a, b][..1] == [a] && [a][..0] == [];
  }

  lemma KnownBytes()
    ensures Byte(0x50) == 0x50 && Byte(0x4b) == 0x4b
    ensures Byte(1) == 1 && Byte(2) == 2 && Byte(3) == 3 && Byte(4) == 4 && Byte(5) == 5 && Byte(6) == 6
  {
    hide BitsOf, Pack;
    LetterBits();
    SmallBits();
    Packed();
  }

  lemma LetterBits()
    ensures BitsOf(0x50, 8) == [false, false, false, false, true, false, true, false]
    ensures BitsOf(0x4b, 8) == [true, true, false, true, false, false, true, false]
  {
    BitsOfP();
    BitsOfK();
  }

  lemma BitsOfP()
    ensures BitsOf(0x50, 8) == [false, false, false, false, true, false, true, false]
  {
    assert BitsOf(5, 4) == [true, false, true, false];
  }

  lemma BitsOfK()
    ensures BitsOf(0x4b, 8) == [true, true, false, true, false, false, true, false]
  {
    assert BitsOf(4, 4) == [false, false, true, false];
  }

  function Low3(a: bool, b: bool, c: bool): seq<bool> {
    [a, b, c, false, false, false, false, false]
  }

  lemma SmallBits()
    ensures BitsOf(1, 8) == Low3(true, false, false) && BitsOf(2, 8) == Low3(false, true, false)
    ensures BitsOf(3, 8) == Low3(true, true, false) && BitsOf(4, 8) == Low3(false, false, true)
    ensures BitsOf(5, 8) == Low3(true, false, true) && BitsOf(6, 8) == Low3(false, true, true)
  {
    NoBits();
    assert BitsOf(0, 5) == [false, false, false, false, false];
  }

  lemma NoBits()
    ensures BitsOf(0, 5) == [false, false, false, false, false]
  {
  }

  lemma Packed()
    ensures Pack([false, false, false, false, true, false, true, false]) == 0x50
    ensures Pack([true, true, false, true, false, false, true, false]) == 0x4b
    ensures Pack(Low3(true, false, false)) == 1 && Pack(Low3(false, true, false)) == 2 && Pack(Low3(true, true, false)) == 3
    ensures Pack(Low3(false, false, true)) == 4 && Pack(Low3(true, false, true)) == 5 && Pack(Low3(false, true, true)) == 6
  {
  }

  lemma {:induction false} WordsFront(ws: seq<nat>)
    requires |ws| >= 2
    ensures Words(ws)[..4] == Words(ws[..2])
    decreases |ws|
  {
    if |ws| > 2 {
      WordsFront(ws[..|ws| - 1]);
      assert ws[..|ws| - 1][..2] == ws[..2];
    } else {
      assert ws[..2] == ws;
    }
  }

  lemma SignedAt(z: seq<bv8>, p: nat, ws: seq<nat>, signature: nat, c: bv8, d: bv8)
    requires At(z, p, Words(ws)) && |ws| >= 2 && ws[0] == Lo(signature) && ws[1] == Hi(signature)
    requires Words([Lo(signature), Hi(signature)]) == [0x50, 0x4b, c, d]
    ensures Signed(z, p, c, d)
  {
    hide Words, Lo, Hi;
    WordsFront(ws);
    assert ws[..2] == [Lo(signature), Hi(signature)];
    assert z[p..p + 4] == z[p..p + |Words(ws)|][..4];
  }

  lemma {:induction false} ZerosAt(z: seq<bv8>, p: nat, ws: seq<nat>, k: nat, fields: nat)
    requires At(z, p, Words(ws)) && k + fields <= |ws| && forall i :: k <= i < k + fields ==> ws[i] == 0
    ensures Zeros(z, p + 2 * k, fields)
    decreases fields
  {
    hide Words, U16;
    if fields > 0 {
      ReadWord(z, p, ws, k);
      ZerosAt(z, p, ws, k + 1, fields - 1);
    }
  }

  lemma LocalReads(z: seq<bv8>, p: nat, e: Entry)
    requires EntryFits(e) && At(z, p, LocalRecord(e))
    ensures ReadLocal(z, p, e.name, Sum(e), |e.data|) == Some(e.data)
  {
    hide Words, Lo, Hi, U16, U32, Crc, Signed, Zeros;
    var ws := LocalWords(e);
    AtSplit(z, p, Words(ws) + e.name, e.data);
    AtSplit(z, p, Words(ws), e.name);
    SignatureBytes();
    SignedAt(z, p, ws, LOCAL_SIGNATURE, 3, 4);
    ReadWord(z, p, ws, 2);
    ZerosAt(z, p, ws, 3, 4);
    ReadDouble(z, p, ws, 7, Sum(e));
    ReadDouble(z, p, ws, 9, |e.data|);
    ReadDouble(z, p, ws, 11, |e.data|);
    ReadWord(z, p, ws, 13);
    ReadWord(z, p, ws, 14);
  }

  lemma CentralReads(z: seq<bv8>, p: nat, e: Entry, offset: nat)
    requires EntryFits(e) && offset < LIMIT32 && At(z, p, CentralRecord(e, offset))
    ensures p + 46 + |e.name| <= |z| && z[p + 46..p + 46 + |e.name|] == e.name
    ensures Signed(z, p, 1, 2) && U16(z, p + 4) == U16(z, p + 6) == 20 && Zeros(z, p + 8, 4) && Zeros(z, p + 30, 6)
    ensures U32(z, p + 16) == Sum(e) && U32(z, p + 20) == U32(z, p + 24) == |e.data|
    ensures U16(z, p + 28) == |e.name| && U32(z, p + 42) == offset
  {
    hide Words, Lo, Hi, U16, U32, Sum, Signed, Zeros;
    var ws := CentralWords(e, offset);
    AtSplit(z, p, Words(ws), e.name);
    SignatureBytes();
    SignedAt(z, p, ws, CENTRAL_SIGNATURE, 1, 2);
    ReadWord(z, p, ws, 2);
    ReadWord(z, p, ws, 3);
    ZerosAt(z, p, ws, 4, 4);
    ReadDouble(z, p, ws, 8, Sum(e));
    ReadDouble(z, p, ws, 10, |e.data|);
    ReadDouble(z, p, ws, 12, |e.data|);
    ReadWord(z, p, ws, 14);
    JoinHalves(0);
    CentralZeros(e, offset);
    ZerosAt(z, p, ws, 15, 6);
    ReadDouble(z, p, ws, 21, offset);
  }

  lemma CentralZeros(e: Entry, offset: nat)
    ensures var ws := CentralWords(e, offset); |ws| == 23 && forall i :: 15 <= i < 21 ==> ws[i] == 0
  {
  }

  /** Where each record stands in a buffer that starts with all of them. */
  lemma {:induction false} RecordsAt(z: seq<bv8>, c: nat, files: seq<Entry>, i: nat)
    requires At(z, 0, Locals(files)) && At(z, c, Centrals(files)) && i < |files|
    ensures At(z, LocalSize(files[..i]), LocalRecord(files[i]))
    ensures At(z, c + CentralSize(files[..i]), CentralRecord(files[i], LocalSize(files[..i])))
    decreases |files|
  {
    hide LocalRecord, CentralRecord;
    var init, last := files[..|files| - 1], files[|files| - 1];
    AtSplit(z, 0, Locals(init), LocalRecord(last));
    AtSplit(z, c, Centrals(init), CentralRecord(last, LocalSize(init)));
    if i < |init| {
      RecordsAt(z, c, init, i);
      assert init[..i] == files[..i];
    }
  }

  /** One central entry and the local one it points to are read as their file. */
  lemma CentralStep(z: seq<bv8>, p: nat, count: nat, end: nat, e: Entry, offset: nat, rest: seq<Entry>)
    requires count > 0 && EntryFits(e) && offset < LIMIT32
    requires At(z, offset, LocalRecord(e)) && At(z, p, CentralRecord(e, offset))
    requires ReadCentral(z, p + 46 + |e.name|, count - 1, end) == Some(rest)
    ensures ReadCentral(z, p, count, end) == Some([e] + rest)
  {
    hide LocalRecord, CentralRecord, ReadLocal, U16, U32, Sum, Signed, Zeros;
    LocalReads(z, offset, e);
    CentralReads(z, p, e, offset);
  }

  lemma NoEntries(z: seq<bv8>, p: nat)
    ensures ReadCentral(z, p, 0, p) == Some([])
  {
  }

  lemma {:induction false} CentralDirectoryReads(z: seq<bv8>, c: nat, files: seq<Entry>, i: nat)
    requires Fits(files) && At(z, 0, Locals(files)) && At(z, c, Centrals(files)) && i <= |files|
    ensures ReadCentral(z, c + CentralSize(files[..i]), |files| - i, c + CentralSize(files)) == Some(files[i..])
    decreases |files| - i
  {
    hide LocalRecord, CentralRecord, ReadCentral, Sum, Locals, Centrals, LocalSize, At;
    if i < |files| {
      var e, offset := files[i], LocalSize(files[..i]);
      var p := c + CentralSize(files[..i]);
      assert CentralSize(files[..i + 1]) == CentralSize(files[..i]) + 46 + |e.name| by {
        assert files[..i + 1][..i] == files[..i];
      }
      assert EntryFits(e) && offset < LIMIT32 by {
        SizesGrow(files, i);
      }
      RecordsAt(z, c, files, i);
      CentralDirectoryReads(z, c, files, i + 1);
      CentralStep(z, p, |files| - i, c + CentralSize(files), e, offset, files[i + 1..]);
      assert files[i..] == [e] + files[i + 1..];
    } else {
      assert files[i..] == [] && files[..i] == files;
      NoEntries(z, c + CentralSize(files[..i]));
    }
  }

  /** Reading an archive recovers exactly the names and data it was made from, in order. */
  lemma ReadBack(files: seq<Entry>)
    requires Fits(files)
    ensures ReadZip(Archive(files)) == Some(files)
  {
    hide Words, Lo, Hi, U16, U32, Signed, Zeros, Locals, Centrals, LocalSize, CentralSize, ReadCentral;
    var z := Archive(files);
    var ls, cs := LocalSize(files), CentralSize(files);
    var ws := EndWords(|files|, cs, ls);
    var e := |z| - 22;
    assert At(z, 0, z);
    AtSplit(z, 0, Locals(files) + Centrals(files), Words(ws));
    AtSplit(z, 0, Locals(files), Centrals(files));
    SignatureBytes();
    SignedAt(z, e, ws, END_SIGNATURE, 5, 6);
    ZerosAt(z, e, ws, 2, 2);
    ReadWord(z, e, ws, 4);
    ReadWord(z, e, ws, 5);
    ReadDouble(z, e, ws, 6, cs);
    ReadDouble(z, e, ws, 8, ls);
    ReadWord(z, e, ws, 10);
    CentralDirectoryReads(z, ls, files, 0);
    assert files[..0] == [];
    assert CentralSize([]) == 0 by {
      EmptySize();
    }
  }

  lemma EmptySize()
    ensures CentralSize([]) == 0
  {
  }
}
