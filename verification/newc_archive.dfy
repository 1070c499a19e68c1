/** Whole archives: the directory-tree writer with its record-relative padding, read back. */
module NewcArchive {
  import opened Common
  import opened Newc

  // ---- Reading ----

  datatype Parsed = Parsed(entry: Entry, next: nat)

  /** One record at the start of `b`. */
  function ParseRecord(b: seq<Byte>): (r: Option<Parsed>)
    ensures r.Some? ==> HEADER_SIZE < r.value.next <= |b|
  {
    if |b| < HEADER_SIZE || b[..6] != MAGIC then None
    else
      var vs := ReadFields(b[6..HEADER_SIZE], 13);
      if vs.None? then None
      else
        var filesize, namesize := vs.value[6], vs.value[11];
        var nameEnd := HEADER_SIZE + namesize;
        var dataAt := nameEnd + Pad(nameEnd);
        var dataEnd := dataAt + filesize;
        var next := dataEnd + Pad(filesize);
        if namesize == 0 || next > |b| || b[nameEnd - 1] != 0 || 0 in b[HEADER_SIZE..nameEnd - 1] then None
        else Some(Parsed(Entry(MetaOf(vs.value), b[HEADER_SIZE..nameEnd - 1], b[dataAt..dataEnd]), next))
  }

  /** All records up to the trailer. */
  function Parse(b: seq<Byte>): Option<seq<Entry>>
    decreases |b|
  {
    var r := ParseRecord(b);
    if r.None? then None
    else if r.value.entry.name == TRAILER then Some([])
    else
      var rest := Parse(b[r.value.next..]);
      if rest.None? then None else Some([r.value.entry] + rest.value)
  }

  /** The pieces a reader cuts out of a record that is followed by anything. */
  lemma RecordPieces(m: Meta, name: seq<Byte>, declared: nat, data: seq<Byte>, tail: seq<Byte>)
    ensures var b := Record(m, name, declared, data) + tail;
            var nameEnd := HEADER_SIZE + |name| + 1;
            var dataAt := nameEnd + Pad(nameEnd);
            && |b| == dataAt + |data| + Pad(declared) + |tail|
            && b[..6] == MAGIC && b[6..HEADER_SIZE] == Fields(Numbers(m, declared, |name| + 1))
            && b[HEADER_SIZE..nameEnd - 1] == name && b[nameEnd - 1] == 0
            && b[dataAt..] == data + Zeros(Pad(declared)) + tail
  {
    var nameEnd := HEADER_SIZE + |name| + 1;
    var h := Header(m, declared, |name| + 1);
    var b := Record(m, name, declared, data) + tail;
    var dataAt := nameEnd + Pad(nameEnd);
    assert b == h + (name + ([0] + (Zeros(Pad(nameEnd)) + (data + Zeros(Pad(declared)) + tail))));
    assert b[..HEADER_SIZE] == h;
    assert h[..6] == MAGIC && h[6..] == Fields(Numbers(m, declared, |name| + 1));
    assert b[6..HEADER_SIZE] == b[..HEADER_SIZE][6..];
    assert b[..6] == b[..HEADER_SIZE][..6];
  }

  predicate PlainName(name: seq<Byte>) {
    0 !in name && |name| + 1 < WORD
  }

  /** A record followed by anything reads back as its masked fields, its name, and as many of the
      following bytes as its header declares. */
  lemma ReadRecord(m: Meta, name: seq<Byte>, declared: nat, data: seq<Byte>, tail: seq<Byte>)
    requires PlainName(name) && declared < WORD
    requires declared + Pad(declared) <= |data| + Pad(declared) + |tail|
    ensures var r := ParseRecord(Record(m, name, declared, data) + tail);
            var nameEnd := HEADER_SIZE + |name| + 1;
            && r.Some? && r.value.entry == Entry(MaskedMeta(m), name, (data + Zeros(Pad(declared)) + tail)[..declared])
            && r.value.next == nameEnd + Pad(nameEnd) + declared + Pad(declared)
  {
    RecordPieces(m, name, declared, data, tail);
    ParsePieces(Record(m, name, declared, data) + tail, m, name, declared, data + Zeros(Pad(declared)) + tail);
  }

  lemma NumbersReadBack(m: Meta, filesize: nat, namesize: nat)
    requires filesize < WORD && namesize < WORD
    ensures var vs := Masked(Numbers(m, filesize, namesize));
            |vs| == 13 && MetaOf(vs) == MaskedMeta(m) && vs[6] == filesize && vs[11] == namesize
  {
  }

  lemma SliceOfRest(b: seq<Byte>, at: nat, n: nat)
    requires at + n <= |b|
    ensures b[at..at + n] == b[at..][..n]
  {
  }

  lemma ParsePieces(b: seq<Byte>, m: Meta, name: seq<Byte>, declared: nat, after: seq<Byte>)
    requires PlainName(name) && declared < WORD && declared + Pad(declared) <= |after|
    requires var nameEnd := HEADER_SIZE + |name| + 1;
             var dataAt := nameEnd + Pad(nameEnd);
             && |b| == dataAt + |after|
             && b[..6] == MAGIC && b[6..HEADER_SIZE] == Fields(Numbers(m, declared, |name| + 1))
             && b[HEADER_SIZE..nameEnd - 1] == name && b[nameEnd - 1] == 0 && b[dataAt..] == after
    ensures var nameEnd := HEADER_SIZE + |name| + 1;
            ParseRecord(b) == Some(Parsed(Entry(MaskedMeta(m), name, after[..declared]),
                                          nameEnd + Pad(nameEnd) + declared + Pad(declared)))
  {
    FieldsRoundTrip(Numbers(m, declared, |name| + 1));
    NumbersReadBack(m, declared, |name| + 1);
    var nameEnd := HEADER_SIZE + |name| + 1;
    var dataAt := nameEnd + Pad(nameEnd);
    SliceOfRest(b, dataAt, declared);
  }

  lemma ReadExactRecord(m: Meta, name: seq<Byte>, data: seq<Byte>, tail: seq<Byte>)
    requires PlainName(name) && |data| < WORD
    ensures var b := Record(m, name, |data|, data) + tail;
            && ParseRecord(b) == Some(Parsed(Entry(MaskedMeta(m), name, data), |Record(m, name, |data|, data)|))
            && b[|Record(m, name, |data|, data)|..] == tail
  {
    ReadRecord(m, name, |data|, data, tail);
    assert (data + Zeros(Pad(|data|)) + tail)[..|data|] == data;
  }

  // ---- What the tree writer is given ----

  datatype Body = Regular(data: seq<Byte>) | Link(target: seq<CodePoint>) | Other

  /** One directory entry with what `lstat` says about it. */
  datatype Item = Item(name: seq<CodePoint>, mode: int, uid: int, gid: int, nlink: int, mtime: int, body: Body)

  predicate Ascii(s: seq<CodePoint>) {
    forall k :: 0 <= k < |s| ==> s[k] < 128
  }

  function AsciiBytes(s: seq<CodePoint>): (b: seq<Byte>)
    requires Ascii(s)
    ensures |b| == |s|
  {
    seq(|s|, k requires 0 <= k < |s| => s[k])
  }

  function Utf8Char(c: CodePoint): seq<Byte> {
    if c < 0x80 then [c]
    else if c < 0x800 then [0xC0 + c / 64, 0x80 + c % 64]
    else if c < 0x10000 then [0xE0 + c / 4096, 0x80 + c / 64 % 64, 0x80 + c % 64]
    else [0xF0 + c / 262144, 0x80 + c / 4096 % 64, 0x80 + c / 64 % 64, 0x80 + c % 64]
  }

  function Utf8(s: seq<CodePoint>): seq<Byte> {
    if s == [] then [] else Utf8Char(s[0]) + Utf8(s[1..])
  }

  /** Characters and bytes are as many exactly for ASCII strings. */
  lemma {:induction false} Utf8Length(s: seq<CodePoint>)
    ensures |Utf8(s)| >= |s| && (|Utf8(s)| == |s| <==> Ascii(s))
  {
    if s != [] {
      Utf8Length(s[1..]);
      assert Ascii(s) <==> s[0] < 128 && Ascii(s[1..]) by {
        if s[0] < 128 && Ascii(s[1..]) {
          forall k | 0 <= k < |s| ensures s[k] < 128 {
            if k > 0 { assert s[1..][k - 1] == s[k]; }
          }
        }
      }
    }
  }

  predicate Continues(b: Byte) {
    0x80 <= b < 0xC0
  }

  /** The low bits of a byte. */
  function Low(n: nat, m: nat): nat
    requires m > 0
  {
    n % m
  }

  datatype Decoded = Decoded(c: nat, size: nat)

  /** The code point at the start of UTF-8 text, by the ranges of its lead byte. */
  function DecodeChar(b: seq<Byte>): (r: Option<Decoded>)
    ensures r.Some? ==> 0 < r.value.size <= |b|
  {
    if b == [] then None
    else if b[0] < 0x80 then Some(Decoded(b[0], 1))
    else if 0xC0 <= b[0] < 0xE0 && |b| >= 2 && Continues(b[1]) then
      Some(Decoded(Low(b[0], 32) * 64 + Low(b[1], 64), 2))
    else if 0xE0 <= b[0] < 0xF0 && |b| >= 3 && Continues(b[1]) && Continues(b[2]) then
      Some(Decoded(Low(b[0], 16) * 4096 + Low(b[1], 64) * 64 + Low(b[2], 64), 3))
    else if 0xF0 <= b[0] < 0xF8 && |b| >= 4 && Continues(b[1]) && Continues(b[2]) && Continues(b[3]) then
      Some(Decoded(Low(b[0], 8) * 262144 + Low(b[1], 64) * 4096 + Low(b[2], 64) * 64 + Low(b[3], 64), 4))
    else None
  }

  function DecodeUtf8(b: seq<Byte>): Option<seq<nat>>
    decreases |b|
  {
    if b == [] then Some([])
    else
      var first := DecodeChar(b);
      if first.None? then None
      else
        var rest := DecodeUtf8(b[first.value.size..]);
        if rest.None? then None else Some([first.value.c] + rest.value)
  }

  lemma LowOf8(mark: nat, x: nat)
    requires x < 8 && mark in {0x80, 0xC0, 0xE0, 0xF0}
    ensures Low(mark + x, 8) == x
  {
  }

  lemma LowOf16(mark: nat, x: nat)
    requires x < 16 && mark in {0x80, 0xC0, 0xE0, 0xF0}
    ensures Low(mark + x, 16) == x
  {
  }

  lemma LowOf32(mark: nat, x: nat)
    requires x < 32 && mark in {0x80, 0xC0, 0xE0}
    ensures Low(mark + x, 32) == x
  {
  }

  lemma LowOf64(x: nat)
    requires x < 64
    ensures Low(0x80 + x, 64) == x
  {
  }

  lemma TwoBytes(a: nat, x: nat, tail: seq<Byte>)
    requires a < 32 && x < 64
    ensures DecodeChar([0xC0 + a, 0x80 + x] + tail) == Some(Decoded(a * 64 + x, 2))
  {
    LowOf32(0xC0, a);
    LowOf64(x);
  }

  lemma ThreeBytes(a: nat, x: nat, y: nat, tail: seq<Byte>)
    requires a < 16 && x < 64 && y < 64
    ensures DecodeChar([0xE0 + a, 0x80 + x, 0x80 + y] + tail) == Some(Decoded(a * 4096 + x * 64 + y, 3))
  {
    LowOf16(0xE0, a);
    LowOf64(x);
    LowOf64(y);
  }

  lemma FourBytes(a: nat, x: nat, y: nat, z: nat, tail: seq<Byte>)
    requires a < 8 && x < 64 && y < 64 && z < 64
    ensures DecodeChar([0xF0 + a, 0x80 + x, 0x80 + y, 0x80 + z] + tail)
            == Some(Decoded(a * 262144 + x * 4096 + y * 64 + z, 4))
  {
    LowOf8(0xF0, a);
    LowOf64(x);
    LowOf64(y);
    LowOf64(z);
  }

  lemma CharRoundTrip(c: CodePoint, tail: seq<Byte>)
    ensures DecodeChar(Utf8Char(c) + tail) == Some(Decoded(c, |Utf8Char(c)|))
  {
    SplitBy64(c);
    if c >= 0x10000 {
      FourBytes(c / 262144, c / 4096 % 64, c / 64 % 64, c % 64, tail);
    } else if c >= 0x800 {
      ThreeBytes(c / 4096, c / 64 % 64, c % 64, tail);
    } else if c >= 0x80 {
      TwoBytes(c / 64, c % 64, tail);
    }
  }

  lemma SplitBy64(c: nat)
    ensures c == c / 64 * 64 + c % 64
    ensures c == c / 4096 * 4096 + c / 64 % 64 * 64 + c % 64
    ensures c == c / 262144 * 262144 + c / 4096 % 64 * 4096 + c / 64 % 64 * 64 + c % 64
  {
    assert c / 64 / 64 == c / 4096;
    assert c / 4096 / 64 == c / 262144;
  }

  /** The bytes written for a link target are its UTF-8 encoding. */
  lemma {:induction false} Utf8RoundTrip(s: seq<CodePoint>)
    ensures DecodeUtf8(Utf8(s)) == Some(s)
  {
    if s != [] {
      CharRoundTrip(s[0], Utf8(s[1..]));
      Utf8RoundTrip(s[1..]);
      assert Utf8(s)[|Utf8Char(s[0])|..] == Utf8(s[1..]);
      assert s == [s[0]] + s[1..];
    }
  }

  function MetaFor(item: Item, ino: nat): Meta {
    Meta(ino, item.mode, item.uid, item.gid, item.nlink, item.mtime, 0, 0, 0, 0)
  }

  /** The bytes after the head, and the size the header declares: a link declares its characters
      and writes its UTF-8 bytes. */
  function Payload(body: Body): seq<Byte> {
    match body
    case Regular(data) => data
    case Link(target) => Utf8(target)
    case Other => []
  }

  function Declared(body: Body): nat {
    match body
    case Regular(data) => |data|
    case Link(target) => |target|
    case Other => 0
  }

  /** What one item adds to the file: a name that is not ASCII raises after the header has gone out. */
  function Emit(item: Item, ino: nat): seq<Byte> {
    var m := MetaFor(item, ino);
    if Ascii(item.name) then Record(m, AsciiBytes(item.name), Declared(item.body), Payload(item.body))
    else Header(m, Declared(item.body), |item.name| + 1)
  }

  /** Inode numbers count the items written so far. */
  function EmitAll(items: seq<Item>, ino: nat): seq<Byte> {
    if items == [] then []
    else Emit(items[0], ino) + EmitAll(items[1..], if Ascii(items[0].name) then ino + 1 else ino)
  }

  const TRAILER_META := Meta(0, 0, 0, 0, 1, 0, 0, 0, 0, 0)

  function Archive(items: seq<Item>): seq<Byte> {
    EmitAll(items, 1) + Record(TRAILER_META, TRAILER, 0, [])
  }

  class Writer {
    var out: seq<Byte>

    constructor ()
      ensures out == []
    {
      out := [];
    }

    /** `write_cpio_header`; false stands for the exception of `name.encode('ascii')`. */
    method WriteHeader(name: seq<CodePoint>, m: Meta, filesize: nat) returns (ok: bool)
      modifies this
      ensures ok <==> Ascii(name)
      ensures out == old(out) + if ok then Head(m, AsciiBytes(name), filesize) else Header(m, filesize, |name| + 1)
    {
      var namesize := |name| + 1;
      var header := Header(m, filesize, namesize);
      out := out + header;
      ok := Ascii(name);
      if ok {
        out := out + AsciiBytes(name);
        out := out + [0];
        var padding := (4 - (|header| + namesize) % 4) % 4;
        out := out + Zeros(padding);
        RegroupHead(old(out), header, AsciiBytes(name), [0], Zeros(padding));
      }
    }

    method WriteItem(item: Item, ino: nat) returns (ok: bool)
      modifies this
      ensures ok <==> Ascii(item.name)
      ensures out == old(out) + Emit(item, ino)
    {
      ok := WriteHeader(item.name, MetaFor(item, ino), Declared(item.body));
      if ok {
        ghost var head := Head(MetaFor(item, ino), AsciiBytes(item.name), Declared(item.body));
        match item.body {
          case Regular(data) =>
            out := out + data;
            out := out + Zeros((4 - |data| % 4) % 4);
          case Link(target) =>
            out := out + Utf8(target);
            out := out + Zeros((4 - |target| % 4) % 4);
          case Other =>
            assert Zeros(Pad(0)) == [];
        }
        RegroupRecord(old(out), head, Payload(item.body), Zeros(Pad(Declared(item.body))));
      }
    }

    method CreateArchive(items: seq<Item>)
      requires out == []
      modifies this
      ensures out == Archive(items)
    {
      var ino := 1;
      for i := 0 to |items|
        invariant out + EmitAll(items[i..], ino) == EmitAll(items, 1)
      {
        ghost var before := out;
        var ok := WriteItem(items[i], ino);
        assert items[i..][1..] == items[i + 1..];
        Regroup(before, Emit(items[i], ino), EmitAll(items[i + 1..], if ok then ino + 1 else ino));
        if ok {
          ino := ino + 1;
        }
      }
      assert out == EmitAll(items, 1);
      TrailerIsAscii();
      var _ := WriteHeader(TRAILER, TRAILER_META, 0);
      TailsAgree(Head(TRAILER_META, TRAILER, 0), []);
    }
  }

  lemma RegroupRecord(w: seq<Byte>, a: seq<Byte>, b: seq<Byte>, c: seq<Byte>)
    ensures w + a + b + c == w + (a + b + c)
  {
  }

  lemma TrailerIsAscii()
    ensures Ascii(TRAILER) && AsciiBytes(TRAILER) == TRAILER && PlainName(TRAILER)
  {
  }

  // ---- Reading an archive back ----

  /** A name and sizes the format can carry. */
  predicate Carried(item: Item) {
    && Ascii(item.name) && PlainName(AsciiBytes(item.name)) && AsciiBytes(item.name) != TRAILER
    && |Payload(item.body)| < WORD
  }

  predicate AsciiLink(item: Item) {
    item.body.Link? ==> Ascii(item.body.target)
  }

  /** What an item should read back as. */
  function EntryFor(item: Item, ino: nat): Entry
    requires Carried(item)
  {
    var m := Meta(ino % WORD, item.mode % WORD, item.uid % WORD, item.gid % WORD, item.nlink % WORD, item.mtime % WORD,
                  0, 0, 0, 0);
    var data := match item.body
                case Regular(data) => data
                case Link(target) => Utf8(target)
                case Other => [];
    Entry(m, AsciiBytes(item.name), data)
  }

  predicate AllCarried(items: seq<Item>) {
    forall k :: 0 <= k < |items| ==> Carried(items[k])
  }

  predicate AllAsciiLinks(items: seq<Item>) {
    forall k :: 0 <= k < |items| ==> AsciiLink(items[k])
  }

  function Expected(items: seq<Item>, ino: nat): seq<Entry>
    requires AllCarried(items)
  {
    if items == [] then []
    else
      assert Carried(items[0]);
      [EntryFor(items[0], ino)] + Expected(items[1..], ino + 1)
  }

  lemma DeclaredIff(item: Item)
    ensures Declared(item.body) <= |Payload(item.body)|
    ensures Declared(item.body) == |Payload(item.body)| <==> AsciiLink(item)
  {
    if item.body.Link? {
      Utf8Length(item.body.target);
    }
  }

  lemma ItemReadBack(item: Item, ino: nat, tail: seq<Byte>)
    requires Carried(item) && AsciiLink(item)
    ensures var b := Emit(item, ino) + tail;
            && ParseRecord(b) == Some(Parsed(EntryFor(item, ino), |Emit(item, ino)|))
            && b[|Emit(item, ino)|..] == tail
  {
    DeclaredIff(item);
    ReadExactRecord(MetaFor(item, ino), AsciiBytes(item.name), Payload(item.body), tail);
  }

  /** A link that is not ASCII reads back cut to as many bytes as it has characters. */
  lemma LinkCutShort(item: Item, ino: nat, tail: seq<Byte>)
    requires Carried(item) && !AsciiLink(item)
    ensures var r := ParseRecord(Emit(item, ino) + tail);
            && r.Some? && r.value.entry.name != TRAILER
            && |r.value.entry.data| == |item.body.target| < |EntryFor(item, ino).data|
  {
    DeclaredIff(item);
    ReadRecord(MetaFor(item, ino), AsciiBytes(item.name), Declared(item.body), Payload(item.body), tail);
  }

  lemma ParseStep(b: seq<Byte>, e: Entry, n: nat)
    requires ParseRecord(b) == Some(Parsed(e, n)) && e.name != TRAILER
    ensures Parse(b) == var rest := Parse(b[n..]); if rest.None? then None else Some([e] + rest.value)
  {
  }

  lemma ParseFirst(first: Item, ino: nat, rest: seq<Byte>, e: seq<Entry>)
    requires Carried(first)
    ensures Parse(Emit(first, ino) + rest) == Some([EntryFor(first, ino)] + e)
            <==> AsciiLink(first) && Parse(rest) == Some(e)
  {
    var b := Emit(first, ino) + rest;
    if AsciiLink(first) {
      ItemReadBack(first, ino, rest);
      ParseStep(b, EntryFor(first, ino), |Emit(first, ino)|);
      SameHead(EntryFor(first, ino), Parse(rest), e);
    } else {
      LinkCutShort(first, ino, rest);
      var r := ParseRecord(b).value;
      ParseStep(b, r.entry, r.next);
      OtherHead(r.entry, EntryFor(first, ino), Parse(b[r.next..]), e);
    }
  }

  lemma SameHead(x: Entry, r: Option<seq<Entry>>, e: seq<Entry>)
    ensures (if r.None? then None else Some([x] + r.value)) == Some([x] + e) <==> r == Some(e)
  {
    if r.Some? && [x] + r.value == [x] + e {
      assert ([x] + r.value)[1..] == r.value && ([x] + e)[1..] == e;
    }
  }

  lemma OtherHead(x: Entry, y: Entry, r: Option<seq<Entry>>, e: seq<Entry>)
    requires x != y
    ensures (if r.None? then None else Some([x] + r.value)) != Some([y] + e)
  {
    if r.Some? {
      assert ([x] + r.value)[0] != ([y] + e)[0];
    }
  }

  lemma AllAsciiLinksFirst(items: seq<Item>)
    requires items != []
    ensures AllAsciiLinks(items) <==> AsciiLink(items[0]) && AllAsciiLinks(items[1..])
  {
    assert forall k :: 0 < k < |items| ==> items[k] == items[1..][k - 1];
  }

  lemma EmitAllFirst(items: seq<Item>, ino: nat, end: seq<Byte>)
    requires items != [] && Ascii(items[0].name)
    ensures EmitAll(items, ino) + end == Emit(items[0], ino) + (EmitAll(items[1..], ino + 1) + end)
    ensures |EmitAll(items, ino)| == |Emit(items[0], ino)| + |EmitAll(items[1..], ino + 1)|
  {
    Regroup(Emit(items[0], ino), EmitAll(items[1..], ino + 1), end);
  }

  lemma ExpectedFirst(items: seq<Item>, ino: nat)
    requires items != [] && AllCarried(items)
    ensures Carried(items[0]) && Expected(items, ino) == [EntryFor(items[0], ino)] + Expected(items[1..], ino + 1)
  {
  }

  lemma HeadDecides(first: Item, ino: nat, rest: seq<Byte>, b: seq<Byte>, e: seq<Entry>, all: seq<Entry>)
    requires Carried(first) && b == Emit(first, ino) + rest && all == [EntryFor(first, ino)] + e
    ensures Parse(b) == Some(all) <==> AsciiLink(first) && Parse(rest) == Some(e)
  {
    ParseFirst(first, ino, rest, e);
  }

  lemma {:induction false} ReadBackIff(items: seq<Item>, ino: nat, end: seq<Byte>)
    requires AllCarried(items) && Parse(end) == Some([])
    ensures Parse(EmitAll(items, ino) + end) == Some(Expected(items, ino)) <==> AllAsciiLinks(items)
  {
    if items == [] {
      assert EmitAll(items, ino) + end == end;
    } else {
      ExpectedFirst(items, ino);
      EmitAllFirst(items, ino, end);
      HeadDecides(items[0], ino, EmitAll(items[1..], ino + 1) + end, EmitAll(items, ino) + end,
                  Expected(items[1..], ino + 1), Expected(items, ino));
      ReadBackIff(items[1..], ino + 1, end);
      AllAsciiLinksFirst(items);
    }
  }

  lemma TrailerEnds()
    ensures Parse(Record(TRAILER_META, TRAILER, 0, [])) == Some([])
  {
    TrailerIsAscii();
    NamedTrailerEnds(TRAILER_META, TRAILER, []);
  }

  lemma NamedTrailerEnds(m: Meta, name: seq<Byte>, data: seq<Byte>)
    requires name == TRAILER && PlainName(name) && |data| < WORD
    ensures Parse(Record(m, name, |data|, data)) == Some([])
  {
    var end := Record(m, name, |data|, data);
    ReadExactRecord(m, name, data, []);
    assert end + [] == end;
    ParseEnds(end);
  }

  lemma ParseEnds(b: seq<Byte>)
    requires ParseRecord(b).Some? && ParseRecord(b).value.entry.name == TRAILER
    ensures Parse(b) == Some([])
  {
  }

  /** Every entry comes back, in order, with 32-bit fields, exactly when all link targets are ASCII. */
  lemma ArchiveRoundTripIff(items: seq<Item>)
    requires AllCarried(items)
    ensures Parse(Archive(items)) == Some(Expected(items, 1)) <==> AllAsciiLinks(items)
  {
    TrailerEnds();
    ReadBackIff(items, 1, Record(TRAILER_META, TRAILER, 0, []));
  }

  lemma EmitAligned(item: Item, ino: nat)
    requires Carried(item) && AsciiLink(item)
    ensures |Emit(item, ino)| % 4 == 0
  {
    DeclaredIff(item);
    RecordSize(MetaFor(item, ino), AsciiBytes(item.name), Payload(item.body));
  }

  lemma AlignedFirst(items: seq<Item>, ino: nat)
    requires items != [] && Ascii(items[0].name)
    requires |Emit(items[0], ino)| % 4 == 0 && |EmitAll(items[1..], ino + 1)| % 4 == 0
    ensures |EmitAll(items, ino)| % 4 == 0
  {
    EmitAllFirst(items, ino, []);
    SumAligned(|Emit(items[0], ino)|, |EmitAll(items[1..], ino + 1)|);
  }

  lemma SumAligned(a: nat, b: nat)
    requires a % 4 == 0 && b % 4 == 0
    ensures (a + b) % 4 == 0
  {
  }

  /** Every record of such an archive starts at a multiple of four. */
  lemma {:induction false} RecordsStartAligned(items: seq<Item>, ino: nat)
    requires AllCarried(items) && AllAsciiLinks(items)
    ensures |EmitAll(items, ino)| % 4 == 0
  {
    if items != [] {
      assert Carried(items[0]);
      EmitAligned(items[0], ino);
      AllAsciiLinksFirst(items);
      RecordsStartAligned(items[1..], ino + 1);
      AlignedFirst(items, ino);
    }
  }

  // ---- Names that are not ASCII ----

  function Kept(items: seq<Item>): seq<Item> {
    if items == [] then []
    else if Ascii(items[0].name) then [items[0]] + Kept(items[1..])
    else Kept(items[1..])
  }

  function Skipped(items: seq<Item>): nat {
    if items == [] then 0 else (if Ascii(items[0].name) then 0 else 1) + Skipped(items[1..])
  }

  lemma {:induction false} StrayHeaders(items: seq<Item>, ino: nat)
    ensures |EmitAll(items, ino)| == |EmitAll(Kept(items), ino)| + HEADER_SIZE * Skipped(items)
    ensures Skipped(items) == 0 ==> EmitAll(items, ino) == EmitAll(Kept(items), ino)
  {
    if items != [] {
      var first := items[0];
      StrayHeaders(items[1..], if Ascii(first.name) then ino + 1 else ino);
      if Ascii(first.name) {
        assert Kept(items)[1..] == Kept(items[1..]);
      }
    }
  }

  lemma {:induction false} SkippedNone(items: seq<Item>)
    ensures Skipped(items) == 0 <==> forall k :: 0 <= k < |items| ==> Ascii(items[k].name)
  {
    if items != [] {
      SkippedNone(items[1..]);
      assert (forall k :: 0 <= k < |items| ==> Ascii(items[k].name))
             <==> Ascii(items[0].name) && forall k :: 0 <= k < |items[1..]| ==> Ascii(items[1..][k].name) by {
        assert forall k :: 0 < k < |items| ==> items[k] == items[1..][k - 1];
      }
    }
  }

  /** An entry reported as an error leaves no trace in the file exactly when there is no such entry:
      each leaves a stray header. */
  lemma SkippedCleanlyIff(items: seq<Item>)
    ensures Archive(items) == Archive(Kept(items)) <==> forall k :: 0 <= k < |items| ==> Ascii(items[k].name)
  {
    StrayHeaders(items, 1);
    SkippedNone(items);
  }

  // ---- Whole archives of the absolute-offset writer ----

  /** One call of `write_cpio_entry`. */
  datatype Call = Call(name: seq<Byte>, content: seq<Byte>, fileMode: nat, isDir: bool) {
    function Mode(): nat { if isDir then 0x41ed else fileMode }
    function Links(): nat { if isDir then 2 else 1 }
    function Data(): seq<Byte> { if isDir then [] else content }
  }

  const TRAILER_CALL := Call(TRAILER, [], 0x81a4, false)

  predicate Fits(c: Call) {
    FitsFields(c.Mode(), c.Links(), |c.Data()|, |c.name| + 1)
  }

  /** What a call adds to a stream of `at` bytes. */
  function CallBytes(at: nat, c: Call): seq<Byte> {
    AbsoluteRecord(at, WideHeader(c.Mode(), c.Links(), |c.Data()|, |c.name| + 1), c.name, c.Data())
  }

  /** The stream after a sequence of calls. */
  function StreamOf(calls: seq<Call>): seq<Byte> {
    if calls == [] then []
    else
      var before := StreamOf(calls[..|calls| - 1]);
      before + CallBytes(|before|, calls[|calls| - 1])
  }

  function RecordOf(c: Call): seq<Byte> {
    Record(WriterMeta(c.Mode(), c.Links()), c.name, |c.Data()|, c.Data())
  }

  function Records(calls: seq<Call>): seq<Byte> {
    if calls == [] then [] else RecordOf(calls[0]) + Records(calls[1..])
  }

  lemma CallIsRecord(at: nat, c: Call)
    requires at % 4 == 0 && Fits(c)
    ensures CallBytes(at, c) == RecordOf(c)
  {
    HeadersAgreeIff(c.Mode(), c.Links(), |c.Data()|, |c.name| + 1);
    WritersAgreeIff(at, WriterMeta(c.Mode(), c.Links()), c.name, c.Data());
  }

  /** Every call, fitting or not, ends at a multiple of four. */
  lemma StreamAligned(calls: seq<Call>)
    ensures |StreamOf(calls)| % 4 == 0
  {
    if calls != [] {
      var before, c := StreamOf(calls[..|calls| - 1]), calls[|calls| - 1];
      AbsoluteSize(|before|, WideHeader(c.Mode(), c.Links(), |c.Data()|, |c.name| + 1), c.name, c.Data());
    }
  }

  lemma {:induction false} RecordsPush(calls: seq<Call>, c: Call)
    ensures Records(calls + [c]) == Records(calls) + RecordOf(c)
  {
    if calls == [] {
      assert [c][1..] == [];
      assert Records([c]) == RecordOf(c) + [];
    } else {
      RecordsPush(calls[1..], c);
      assert (calls + [c])[1..] == calls[1..] + [c];
      Regroup(RecordOf(calls[0]), Records(calls[1..]), RecordOf(c));
    }
  }

  predicate AllCallsFit(calls: seq<Call>) {
    forall k :: 0 <= k < |calls| ==> Fits(calls[k])
  }

  /** Calls whose numbers fit leave the plain concatenation of their records. */
  lemma {:induction false} StreamIsRecords(calls: seq<Call>)
    requires AllCallsFit(calls)
    ensures StreamOf(calls) == Records(calls)
  {
    if calls != [] {
      var rest, c := calls[..|calls| - 1], calls[|calls| - 1];
      StreamIsRecords(rest);
      StreamAligned(rest);
      CallIsRecord(|StreamOf(rest)|, c);
      RecordsPush(rest, c);
      assert calls == rest + [c];
    }
  }

  /** The entry a call is for. */
  function EntryOf(c: Call): Entry {
    Entry(WriterMeta(c.Mode(), c.Links()), c.name, c.Data())
  }

  predicate Readable(c: Call) {
    Fits(c) && PlainName(c.name) && c.name != TRAILER
  }

  lemma NothingToMask(mode: nat, nlink: nat)
    requires mode < WORD && nlink < WORD
    ensures MaskedMeta(WriterMeta(mode, nlink)) == WriterMeta(mode, nlink)
  {
    NothingMasked(mode);
    NothingMasked(nlink);
  }

  lemma UnmaskedParsed(m: Meta, name: seq<Byte>, data: seq<Byte>, tail: seq<Byte>, rest: seq<Entry>)
    requires MaskedMeta(m) == m && PlainName(name) && name != TRAILER && |data| < WORD && Parse(tail) == Some(rest)
    ensures Parse(Record(m, name, |data|, data) + tail) == Some([Entry(m, name, data)] + rest)
  {
    ReadExactRecord(m, name, data, tail);
    ParseStep(Record(m, name, |data|, data) + tail, Entry(m, name, data), |Record(m, name, |data|, data)|);
  }

  lemma CallParsed(c: Call, tail: seq<Byte>, rest: seq<Entry>)
    requires Readable(c) && Parse(tail) == Some(rest)
    ensures Parse(RecordOf(c) + tail) == Some([EntryOf(c)] + rest)
  {
    NothingToMask(c.Mode(), c.Links());
    UnmaskedParsed(WriterMeta(c.Mode(), c.Links()), c.name, c.Data(), tail, rest);
  }

  function Entries(calls: seq<Call>): seq<Entry> {
    if calls == [] then [] else [EntryOf(calls[0])] + Entries(calls[1..])
  }

  lemma {:induction false} RecordsReadBack(calls: seq<Call>, end: seq<Byte>)
    requires Parse(end) == Some([]) && forall k :: 0 <= k < |calls| ==> Readable(calls[k])
    ensures Parse(Records(calls) + end) == Some(Entries(calls))
  {
    if calls == [] {
      assert Records(calls) + end == end;
    } else {
      RecordsReadBack(calls[1..], end);
      CallParsed(calls[0], Records(calls[1..]) + end, Entries(calls[1..]));
      Regroup(RecordOf(calls[0]), Records(calls[1..]), end);
    }
  }

  lemma TrailerCallEnds()
    ensures Fits(TRAILER_CALL) && Parse(RecordOf(TRAILER_CALL)) == Some([])
  {
    TrailerIsAscii();
    NamedTrailerEnds(WriterMeta(0x81a4, 1), TRAILER, []);
  }

  /** Any calls with names and numbers the format can carry, ended by the trailer, read back as
      exactly their entries, in order. */
  lemma StreamReadBack(calls: seq<Call>)
    requires forall k :: 0 <= k < |calls| ==> Readable(calls[k])
    ensures Parse(StreamOf(calls + [TRAILER_CALL])) == Some(Entries(calls))
  {
    TrailerCallEnds();
    EndedStreamReadBack(calls, TRAILER_CALL);
  }

  lemma EndedStreamReadBack(calls: seq<Call>, last: Call)
    requires forall k :: 0 <= k < |calls| ==> Readable(calls[k])
    requires Fits(last) && Parse(RecordOf(last)) == Some([])
    ensures Parse(StreamOf(calls + [last])) == Some(Entries(calls))
  {
    StreamIsRecords(calls + [last]);
    RecordsPush(calls, last);
    RecordsReadBack(calls, RecordOf(last));
  }

  /** The calls of `create_linux_initramfs`, one after the other, and the trailer. */
  method WriteInitramfs(calls: seq<Call>) returns (bytes: seq<Byte>)
    ensures bytes == StreamOf(calls + [TRAILER_CALL])
  {
    var all := calls + [TRAILER_CALL];
    var out := new Stream();
    for i := 0 to |all|
      invariant fresh(out) && out.bytes == StreamOf(all[..i])
    {
      out.WriteEntry(all[i].name, all[i].content, all[i].fileMode, all[i].isDir);
      assert all[..i + 1][..i] == all[..i];
    }
    assert all[..|all|] == all;
    bytes := out.bytes;
  }
}
