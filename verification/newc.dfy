/** The two writers of "newc" cpio archives, and a reader of the SVR4 format of cpio(5). */
module Newc {
  import opened Common

  type Byte = n: nat | n < 256
  type CodePoint = n: nat | n < 0x110000

  const WORD: nat := 0x1_0000_0000
  const HEADER_SIZE: nat := 110
  const MAGIC: seq<Byte> := [48, 55, 48, 55, 48, 49]                            // 070701
  const TRAILER: seq<Byte> := [84, 82, 65, 73, 76, 69, 82, 33, 33, 33]          // TRAILER!!!

  // ---- Eight-digit hexadecimal ----

  function HexDigit(d: nat): Byte
    requires d < 16
  {
    if d < 10 then 48 + d else 87 + d
  }

  function DigitValue(b: Byte): Option<nat> {
    if 48 <= b <= 57 then Some(b - 48)
    else if 97 <= b <= 102 then Some(b - 87)
    else if 65 <= b <= 70 then Some(b - 55)
    else None
  }

  /** The last `n` hexadecimal digits of `v`. */
  function Hex(v: nat, n: nat): (s: seq<Byte>)
    ensures |s| == n
  {
    if n == 0 then [] else Hex(v / 16, n - 1) + [HexDigit(v % 16)]
  }

  function FromHex(s: seq<Byte>): Option<nat> {
    if s == [] then Some(0)
    else
      var high, low := FromHex(s[..|s| - 1]), DigitValue(s[|s| - 1]);
      if high.None? || low.None? then None else Some(16 * high.value + low.value)
  }

  function Pow16(n: nat): nat {
    if n == 0 then 1 else 16 * Pow16(n - 1)
  }

  lemma {:induction false} HexRoundTrip(v: nat, n: nat)
    requires v < Pow16(n)
    ensures FromHex(Hex(v, n)) == Some(v)
  {
    if n > 0 {
      HexRoundTrip(v / 16, n - 1);
      assert Hex(v, n)[..n - 1] == Hex(v / 16, n - 1);
    }
  }

  /** `{v & 0xFFFFFFFF:08x}`. */
  function Field(v: int): (s: seq<Byte>)
    ensures |s| == 8
  {
    Hex(v % WORD, 8)
  }

  function Fields(vs: seq<int>): (s: seq<Byte>)
    ensures |s| == 8 * |vs|
  {
    if vs == [] then [] else Field(vs[0]) + Fields(vs[1..])
  }

  function ReadFields(s: seq<Byte>, n: nat): (r: Option<seq<nat>>)
    requires |s| == 8 * n
    ensures r.Some? ==> |r.value| == n
  {
    if n == 0 then Some([])
    else
      var v, rest := FromHex(s[..8]), ReadFields(s[8..], n - 1);
      if v.None? || rest.None? then None else Some([v.value] + rest.value)
  }

  function Masked(vs: seq<int>): seq<nat> {
    seq(|vs|, i requires 0 <= i < |vs| => vs[i] % WORD)
  }

  lemma {:induction false} FieldsRoundTrip(vs: seq<int>)
    ensures ReadFields(Fields(vs), |vs|) == Some(Masked(vs))
  {
    if vs == [] {
      assert Masked(vs) == [];
    } else {
      var s := Fields(vs);
      assert s[..8] == Field(vs[0]) && s[8..] == Fields(vs[1..]);
      WordIsPow16();
      HexRoundTrip(vs[0] % WORD, 8);
      FieldsRoundTrip(vs[1..]);
      assert Masked(vs) == [vs[0] % WORD] + Masked(vs[1..]);
    }
  }

  // ---- Records ----

  /** Numeric header fields other than the sizes. */
  datatype Meta = Meta(ino: int, mode: int, uid: int, gid: int, nlink: int, mtime: int,
                       devMajor: int, devMinor: int, rdevMajor: int, rdevMinor: int)

  datatype Entry = Entry(meta: Meta, name: seq<Byte>, data: seq<Byte>)

  function Numbers(m: Meta, filesize: int, namesize: int): (vs: seq<int>)
    ensures |vs| == 13
  {
    [m.ino, m.mode, m.uid, m.gid, m.nlink, m.mtime, filesize,
     m.devMajor, m.devMinor, m.rdevMajor, m.rdevMinor, namesize, 0]
  }

  function MetaOf(vs: seq<nat>): Meta
    requires |vs| == 13
  {
    Meta(vs[0], vs[1], vs[2], vs[3], vs[4], vs[5], vs[7], vs[8], vs[9], vs[10])
  }

  function MaskedMeta(m: Meta): Meta {
    Meta(m.ino % WORD, m.mode % WORD, m.uid % WORD, m.gid % WORD, m.nlink % WORD, m.mtime % WORD,
         m.devMajor % WORD, m.devMinor % WORD, m.rdevMajor % WORD, m.rdevMinor % WORD)
  }

  function Header(m: Meta, filesize: int, namesize: int): (s: seq<Byte>)
    ensures |s| == HEADER_SIZE
  {
    MAGIC + Fields(Numbers(m, filesize, namesize))
  }

  function Zeros(n: nat): (s: seq<Byte>)
    ensures |s| == n
  {
    seq(n, _ => 0)
  }

  /** Bytes to the next multiple of four. */
  function Pad(n: nat): (p: nat)
    ensures p < 4 && (n + p) % 4 == 0
  {
    (4 - n % 4) % 4
  }

  /** Header, name and first padding, both relative to the start of the record. */
  function Head(m: Meta, name: seq<Byte>, filesize: int): seq<Byte> {
    Header(m, filesize, |name| + 1) + name + [0] + Zeros(Pad(HEADER_SIZE + |name| + 1))
  }

  /** A record whose header declares `declared` bytes of data. */
  function Record(m: Meta, name: seq<Byte>, declared: nat, data: seq<Byte>): seq<Byte> {
    Head(m, name, declared) + data + Zeros(Pad(declared))
  }

  /** Records with the right size keep every record start at a multiple of four. */
  lemma RecordSize(m: Meta, name: seq<Byte>, data: seq<Byte>)
    ensures |Record(m, name, |data|, data)| % 4 == 0
  {
    assert |Head(m, name, |data|)| == HEADER_SIZE + |name| + 1 + Pad(HEADER_SIZE + |name| + 1);
  }

  // ---- The layout, offset by offset ----

  /** The bytes of an ASCII text. */
  predicate Spells(b: seq<Byte>, text: string) {
    |b| == |text| && forall i :: 0 <= i < |b| ==> b[i] == text[i] as nat
  }

  lemma MagicAndTrailer()
    ensures Spells(MAGIC, "070701") && Spells(TRAILER, "TRAILER!!!")
  {
  }

  /** Eight lower-case hexadecimal digits. */
  predicate LowerHex(s: seq<Byte>) {
    forall i :: 0 <= i < |s| ==> 48 <= s[i] <= 57 || 97 <= s[i] <= 102
  }

  lemma {:induction false} HexIsLower(v: nat, n: nat)
    ensures LowerHex(Hex(v, n))
  {
    if n > 0 {
      HexIsLower(v / 16, n - 1);
    }
  }

  lemma {:induction false} FieldsAt(vs: seq<int>, i: nat)
    requires i < |vs|
    ensures Fields(vs)[8 * i..8 * i + 8] == Field(vs[i])
  {
    if i == 0 {
      assert Fields(vs)[..8] == Field(vs[0]);
    } else {
      FieldsAt(vs[1..], i - 1);
      assert Fields(vs)[8 * i..8 * i + 8] == Fields(vs[1..])[8 * (i - 1)..8 * (i - 1) + 8];
    }
  }

  /** Where a header has its `i`-th number. */
  lemma HeaderAt(m: Meta, filesize: int, namesize: int, i: nat)
    requires i < 13
    ensures Header(m, filesize, namesize)[6 + 8 * i..14 + 8 * i] == Field(Numbers(m, filesize, namesize)[i])
  {
    var f := Fields(Numbers(m, filesize, namesize));
    FieldsAt(Numbers(m, filesize, namesize), i);
    assert Header(m, filesize, namesize)[6 + 8 * i..14 + 8 * i] == f[8 * i..8 * i + 8];
  }

  /** The header of cpio(5): after the magic text the fourteen fields at their fixed offsets. */
  lemma HeaderLayout(m: Meta, filesize: int, namesize: int)
    ensures var h := Header(m, filesize, namesize);
            && h[..6] == MAGIC
            && h[6..14] == Field(m.ino) && h[14..22] == Field(m.mode)
            && h[22..30] == Field(m.uid) && h[30..38] == Field(m.gid)
            && h[38..46] == Field(m.nlink) && h[46..54] == Field(m.mtime)
            && h[54..62] == Field(filesize)
            && h[62..70] == Field(m.devMajor) && h[70..78] == Field(m.devMinor)
            && h[78..86] == Field(m.rdevMajor) && h[86..94] == Field(m.rdevMinor)
            && h[94..102] == Field(namesize) && h[102..110] == Field(0)
  {
    HeaderLowAt(m, filesize, namesize);
    HeaderHighAt(m, filesize, namesize);
  }

  lemma HeaderLowAt(m: Meta, filesize: int, namesize: int)
    ensures var h := Header(m, filesize, namesize);
            && h[..6] == MAGIC
            && h[6..14] == Field(m.ino) && h[14..22] == Field(m.mode)
            && h[22..30] == Field(m.uid) && h[30..38] == Field(m.gid)
            && h[38..46] == Field(m.nlink) && h[46..54] == Field(m.mtime)
            && h[54..62] == Field(filesize)
  {
    HeaderAt(m, filesize, namesize, 0);
    HeaderAt(m, filesize, namesize, 1);
    HeaderAt(m, filesize, namesize, 2);
    HeaderAt(m, filesize, namesize, 3);
    HeaderAt(m, filesize, namesize, 4);
    HeaderAt(m, filesize, namesize, 5);
    HeaderAt(m, filesize, namesize, 6);
  }

  lemma HeaderHighAt(m: Meta, filesize: int, namesize: int)
    ensures var h := Header(m, filesize, namesize);
            && h[62..70] == Field(m.devMajor) && h[70..78] == Field(m.devMinor)
            && h[78..86] == Field(m.rdevMajor) && h[86..94] == Field(m.rdevMinor)
            && h[94..102] == Field(namesize) && h[102..110] == Field(0)
  {
    HeaderAt(m, filesize, namesize, 7);
    HeaderAt(m, filesize, namesize, 8);
    HeaderAt(m, filesize, namesize, 9);
    HeaderAt(m, filesize, namesize, 10);
    HeaderAt(m, filesize, namesize, 11);
    HeaderAt(m, filesize, namesize, 12);
  }

  /** Behind the header: the name, its terminator, zero padding, the data, zero padding. */
  lemma RecordLayout(m: Meta, name: seq<Byte>, data: seq<Byte>)
    ensures var r := Record(m, name, |data|, data);
            var nameEnd := HEADER_SIZE + |name|;
            var dataAt := nameEnd + 1 + Pad(nameEnd + 1);
            && |r| == dataAt + |data| + Pad(|data|)
            && r[..HEADER_SIZE] == Header(m, |data|, |name| + 1) && r[HEADER_SIZE..nameEnd] == name
            && (forall i :: nameEnd <= i < dataAt ==> r[i] == 0)
            && r[dataAt..dataAt + |data|] == data
            && (forall i :: dataAt + |data| <= i < |r| ==> r[i] == 0)
  {
    var h := Header(m, |data|, |name| + 1);
    var nameEnd := HEADER_SIZE + |name|;
    assert Record(m, name, |data|, data)
           == h + (name + ([0] + (Zeros(Pad(nameEnd + 1)) + (data + Zeros(Pad(|data|))))));
  }

  // ---- The absolute-offset writer ----

  function Digits(v: nat): nat {
    if v < 16 then 1 else 1 + Digits(v / 16)
  }

  /** `{v:08x}`: nothing is masked, a larger number takes more digits. */
  function WideField(v: nat): seq<Byte> {
    Hex(v, if Digits(v) < 8 then 8 else Digits(v))
  }

  function WideFields(vs: seq<nat>): seq<Byte> {
    if vs == [] then [] else WideField(vs[0]) + WideFields(vs[1..])
  }

  lemma {:induction false} DigitsFit(v: nat, n: nat)
    requires n > 0
    ensures Digits(v) <= n <==> v < Pow16(n)
  {
    if n == 1 {
      assert Pow16(1) == 16;
    } else if v >= 16 {
      DigitsFit(v / 16, n - 1);
    } else {
      assert Pow16(n) == 16 * Pow16(n - 1);
      PowPositive(n - 1);
    }
  }

  lemma {:induction false} PowPositive(n: nat)
    ensures Pow16(n) > 0
  {
    if n > 0 {
      PowPositive(n - 1);
    }
  }

  lemma WordIsPow16()
    ensures Pow16(8) == WORD
  {
    assert Pow16(4) == 0x1_0000;
  }

  lemma WideFieldSize(v: nat)
    ensures |WideField(v)| == if v < WORD then 8 else Digits(v)
    ensures v >= WORD ==> Digits(v) > 8
  {
    WordIsPow16();
    DigitsFit(v, 8);
  }

  lemma WideFieldIsField(v: nat)
    requires v < WORD
    ensures WideField(v) == Field(v)
  {
    WordIsPow16();
    DigitsFit(v, 8);
    NothingMasked(v);
  }

  lemma NothingMasked(v: nat)
    requires v < WORD
    ensures v % WORD == v
  {
  }

  predicate AllWords(vs: seq<nat>) {
    forall i :: 0 <= i < |vs| ==> vs[i] < WORD
  }

  lemma AllWordsFirst(vs: seq<nat>)
    requires vs != []
    ensures AllWords(vs) <==> vs[0] < WORD && AllWords(vs[1..])
  {
    assert forall i :: 0 < i < |vs| ==> vs[i] == vs[1..][i - 1];
  }

  lemma {:induction false} WideFieldsIff(vs: seq<nat>)
    ensures |WideFields(vs)| >= 8 * |vs|
    ensures |WideFields(vs)| == 8 * |vs| <==> AllWords(vs)
    ensures AllWords(vs) ==> WideFields(vs) == Fields(vs)
  {
    if vs != [] {
      WideFieldsIff(vs[1..]);
      WideFieldSize(vs[0]);
      if vs[0] < WORD {
        WideFieldIsField(vs[0]);
      }
      AllWordsFirst(vs);
    }
  }

  /** What this writer says about a file or directory. */
  function WriterMeta(mode: nat, nlink: nat): Meta {
    Meta(1, mode, 0, 0, nlink, 0, 0, 0, 0, 0)
  }

  function WideHeader(mode: nat, nlink: nat, filesize: nat, namesize: nat): seq<Byte> {
    MAGIC + WideFields([1, mode, 0, 0, nlink, 0, filesize, 0, 0, 0, 0, namesize, 0])
  }

  predicate FitsFields(mode: nat, nlink: nat, filesize: nat, namesize: nat) {
    mode < WORD && nlink < WORD && filesize < WORD && namesize < WORD
  }

  /** The masking and the unmasked writer print the same header exactly when every number has at
      most eight digits. */
  lemma HeadersAgreeIff(mode: nat, nlink: nat, filesize: nat, namesize: nat)
    ensures WideHeader(mode, nlink, filesize, namesize) == Header(WriterMeta(mode, nlink), filesize, namesize)
            <==> FitsFields(mode, nlink, filesize, namesize)
  {
    var vs := [1, mode, 0, 0, nlink, 0, filesize, 0, 0, 0, 0, namesize, 0];
    WideFieldsIff(vs);
    assert Numbers(WriterMeta(mode, nlink), filesize, namesize) == vs;
    assert |WideHeader(mode, nlink, filesize, namesize)| == 6 + |WideFields(vs)|;
    AllFit(vs, mode, nlink, filesize, namesize);
  }

  lemma AllFit(vs: seq<nat>, mode: nat, nlink: nat, filesize: nat, namesize: nat)
    requires vs == [1, mode, 0, 0, nlink, 0, filesize, 0, 0, 0, 0, namesize, 0]
    ensures AllWords(vs) <==> FitsFields(mode, nlink, filesize, namesize)
  {
    assert vs[1] == mode && vs[4] == nlink && vs[6] == filesize && vs[11] == namesize;
  }

  /** A record behind header `h` when the padding runs to a multiple of four of the whole stream. */
  function AbsoluteRecord(at: nat, h: seq<Byte>, name: seq<Byte>, data: seq<Byte>): seq<Byte> {
    var head := AbsoluteHead(at, h, name);
    if data == [] then head else head + (data + Zeros(Pad(at + |head| + |data|)))
  }

  function AbsoluteHead(at: nat, h: seq<Byte>, name: seq<Byte>): (s: seq<Byte>)
    ensures |s| == |h| + |name| + 1 + Pad(at + |h| + |name| + 1)
  {
    h + name + [0] + Zeros(Pad(at + |h| + |name| + 1))
  }

  lemma AbsoluteSize(at: nat, h: seq<Byte>, name: seq<Byte>, data: seq<Byte>)
    ensures (at + |AbsoluteRecord(at, h, name, data)|) % 4 == 0
  {
  }

  lemma PadShift(a: nat, b: nat)
    requires a % 4 == 0
    ensures Pad(a + b) == Pad(b)
  {
  }

  lemma HeadsAgree(at: nat, m: Meta, name: seq<Byte>, filesize: int)
    requires at % 4 == 0
    ensures AbsoluteHead(at, Header(m, filesize, |name| + 1), name) == Head(m, name, filesize)
    ensures |Head(m, name, filesize)| % 4 == 0
  {
    PadShift(at, HEADER_SIZE + |name| + 1);
  }

  lemma TailsAgree(head: seq<Byte>, data: seq<Byte>)
    ensures (if data == [] then head else head + (data + Zeros(Pad(|data|)))) == head + data + Zeros(Pad(|data|))
  {
    assert Pad(0) == 0;
  }

  lemma WritersAgree(at: nat, m: Meta, name: seq<Byte>, data: seq<Byte>)
    requires at % 4 == 0
    ensures AbsoluteRecord(at, Header(m, |data|, |name| + 1), name, data) == Record(m, name, |data|, data)
  {
    var head := Head(m, name, |data|);
    HeadsAgree(at, m, name, |data|);
    PadShift(at + |head|, |data|);
    TailsAgree(head, data);
  }

  /** The two writers agree byte for byte exactly at offsets that are multiples of four. */
  lemma WritersAgreeIff(at: nat, m: Meta, name: seq<Byte>, data: seq<Byte>)
    ensures AbsoluteRecord(at, Header(m, |data|, |name| + 1), name, data) == Record(m, name, |data|, data) <==> at % 4 == 0
  {
    var h := Header(m, |data|, |name| + 1);
    RecordSize(m, name, data);
    AbsoluteSize(at, h, name, data);
    SameSizeMeansAligned(at, |AbsoluteRecord(at, h, name, data)|);
    if at % 4 == 0 {
      WritersAgree(at, m, name, data);
    }
  }

  lemma SameSizeMeansAligned(at: nat, n: nat)
    ensures (at + n) % 4 == 0 && n % 4 == 0 ==> at % 4 == 0
  {
  }

  lemma RegroupHead(w: seq<Byte>, a: seq<Byte>, b: seq<Byte>, c: seq<Byte>, d: seq<Byte>)
    ensures w + a + b + c + d == w + (a + b + c + d)
  {
  }

  lemma RegroupPair(w: seq<Byte>, a: seq<Byte>, b: seq<Byte>, c: seq<Byte>)
    ensures w + a + b + c == w + (a + (b + c))
  {
  }

  lemma OneMoreZero(w: seq<Byte>, n: nat)
    ensures w + Zeros(n) + [0] == w + Zeros(n + 1)
  {
    assert Zeros(n) + [0] == Zeros(n + 1);
  }

  class Stream {
    var bytes: seq<Byte>

    constructor ()
      ensures bytes == []
    {
      bytes := [];
    }

    method PadToFour(ghost was: seq<Byte>)
      requires bytes == was
      modifies this
      ensures bytes == was + Zeros(Pad(|was|))
    {
      ghost var n: nat := 0;
      assert was + Zeros(0) == was;
      while |bytes| % 4 != 0
        invariant n <= Pad(|was|) && bytes == was + Zeros(n)
        decreases Pad(|was|) - n
      {
        bytes := bytes + [0];
        OneMoreZero(was, n);
        n := n + 1;
      }
    }

    /** `write_cpio_entry`.  Every call ends at a multiple of four; from there on a call whose numbers
        fit their eight digits writes the record of the other writer. */
    method WriteEntry(name: seq<Byte>, content: seq<Byte>, fileMode: nat, isDir: bool)
      modifies this
      ensures var data := if isDir then [] else content;
              var mode, nlink := if isDir then 0x41ed else fileMode, if isDir then 2 else 1;
              && bytes == old(bytes) + AbsoluteRecord(|old(bytes)|, WideHeader(mode, nlink, |data|, |name| + 1), name, data)
              && (|old(bytes)| % 4 == 0 && FitsFields(mode, nlink, |data|, |name| + 1) ==>
                    bytes == old(bytes) + Record(WriterMeta(mode, nlink), name, |data|, data))
      ensures |bytes| % 4 == 0
    {
      var data := if isDir then [] else content;
      var mode, nlink := if isDir then 0x41ed else fileMode, if isDir then 2 else 1;
      var header := WideHeader(mode, nlink, |data|, |name| + 1);
      HeadersAgreeIff(mode, nlink, |data|, |name| + 1);
      WriteRecord(header, name, data);
      AbsoluteSize(|old(bytes)|, header, name, data);
      WritersAgreeIff(|old(bytes)|, WriterMeta(mode, nlink), name, data);
    }

    method WriteRecord(header: seq<Byte>, name: seq<Byte>, data: seq<Byte>)
      modifies this
      ensures bytes == old(bytes) + AbsoluteRecord(|old(bytes)|, header, name, data)
    {
      ghost var was := bytes;
      ghost var head := AbsoluteHead(|was|, header, name);
      WriteHead(header, name);
      if data != [] {
        bytes := bytes + data;
        PadToFour(bytes);
        RegroupPair(was, head, data, Zeros(Pad(|was| + |head| + |data|)));
      }
    }

    method WriteHead(header: seq<Byte>, name: seq<Byte>)
      modifies this
      ensures bytes == old(bytes) + AbsoluteHead(|old(bytes)|, header, name)
    {
      bytes := bytes + header;
      bytes := bytes + name;
      bytes := bytes + [0];
      PadToFour(bytes);
      RegroupHead(old(bytes), header, name, [0], Zeros(Pad(|old(bytes)| + |header| + |name| + 1)));
    }
  }
}
