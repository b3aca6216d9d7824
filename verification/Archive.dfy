/** The archive of one action: a header and the named outputs. The second level of the cache is a file of archives
    laid end to end, found by offset. */
module Archive {
  import opened Bytes
  import opened L1Table

  const MAGIC := 0xA1C3CAC0
  const VERSION := 1
  const HEADER_SIZE := 64
  const OUTPUT_HEADER_SIZE := 16
  const TWO_32 := 0x1_0000_0000

  datatype Output = Output(name: seq<byte>, data: seq<byte>)

  /** What a reader restores before it stops, and whether it stops without error. */
  datatype Restored = Restored(outputs: seq<Output>, ok: bool)

  // ---------------------------------------------------------------- layout

  function Header(digest: Digest, count: nat, size: nat): (s: seq<byte>)
    ensures |s| == HEADER_SIZE
  {
    PutLE(MAGIC, 4) + PutLE(VERSION, 4) + digest + PutLE(count, 2) + Zeros(4) + PutLE(size, 4) + Zeros(14)
  }

  function EntryHeader(nameLen: nat, dataLen: nat): (s: seq<byte>)
    ensures |s| == OUTPUT_HEADER_SIZE
  {
    PutLE(nameLen, 2) + Zeros(2) + PutLE(dataLen, 4) + Zeros(8)
  }

  function EntryBytes(o: Output): (s: seq<byte>)
    ensures |s| == OUTPUT_HEADER_SIZE + |o.name| + |o.data|
  {
    EntryHeader(|o.name|, |o.data|) + o.name + o.data
  }

  function Body(outputs: seq<Output>): seq<byte> {
    if outputs == [] then [] else EntryBytes(outputs[0]) + Body(outputs[1..])
  }

  function Encode(digest: Digest, outputs: seq<Output>): seq<byte> {
    Header(digest, |outputs|, |Body(outputs)|) + Body(outputs)
  }

  lemma {:induction false} BodyAppend(outputs: seq<Output>, o: Output)
    ensures Body(outputs + [o]) == Body(outputs) + EntryBytes(o)
  {
    if outputs == [] {
      assert [o][1..] == [];
    } else {
      BodyAppend(outputs[1..], o);
      assert (outputs + [o])[1..] == outputs[1..] + [o];
    }
  }

  // ---------------------------------------------------------------- reading

  function ReadEntries(data: seq<byte>, pos: nat, count: nat): Restored
    decreases count
  {
    if count == 0 then Restored([], true)
    else if |data| < pos + OUTPUT_HEADER_SIZE then Restored([], false)
    else
      var nameAt := pos + OUTPUT_HEADER_SIZE;
      var dataAt := nameAt + Field(data, pos, 2);
      if |data| < dataAt then Restored([], false)
      else
        var end := dataAt + Field(data, pos + 4, 4);
        if |data| < end then Restored([], false)
        else
          var rest := ReadEntries(data, end, count - 1);
          Restored([Output(data[nameAt..dataAt], data[dataAt..end])] + rest.outputs, rest.ok)
  }

  function ReadArchive(data: seq<byte>): Restored {
    if |data| < HEADER_SIZE then Restored([], false) else ReadEntries(data, HEADER_SIZE, Field(data, 40, 2))
  }

  /** Reading the archive at an offset of the second level; the size of the record is a 32-bit sum. */
  function ReadRecord(log: seq<byte>, offset: nat): Restored {
    if |log| < offset + HEADER_SIZE then Restored([], false)
    else if Field(log, offset, 4) != MAGIC || Field(log, offset + 4, 4) != VERSION then Restored([], false)
    else
      var size := (HEADER_SIZE + Field(log, offset + 46, 4)) % TWO_32;
      if |log| - offset < size then Restored([], false) else ReadArchive(log[offset..offset + size])
  }

  /** The files after writing outputs in order. */
  function Apply(files: map<seq<byte>, seq<byte>>, outputs: seq<Output>): map<seq<byte>, seq<byte>>
    decreases |outputs|
  {
    if outputs == [] then files else Apply(files[outputs[0].name := outputs[0].data], outputs[1..])
  }

  class Disk {
    var files: map<seq<byte>, seq<byte>>

    constructor ()
      ensures files == map[]
    {
      files := map[];
    }

    /** Writes outputs one by one; on a malformed archive those before the fault stay written. */
    method RestoreOutputs(data: seq<byte>) returns (ok: bool)
      modifies this
      ensures ok == ReadArchive(data).ok
      ensures files == Apply(old(files), ReadArchive(data).outputs)
    {
      if |data| < HEADER_SIZE {
        return false;
      }
      var left: nat, pos: nat := Field(data, 40, 2), HEADER_SIZE;
      ghost var rest := ReadArchive(data);
      while left > 0
        invariant rest == ReadEntries(data, pos, left) && rest.ok == ReadArchive(data).ok
        invariant Apply(old(files), ReadArchive(data).outputs) == Apply(files, rest.outputs)
      {
        if |data| < pos + OUTPUT_HEADER_SIZE {
          return false;
        }
        var nameLen, dataLen := Field(data, pos, 2), Field(data, pos + 4, 4);
        pos := pos + OUTPUT_HEADER_SIZE;
        if |data| < pos + nameLen {
          return false;
        }
        var name := data[pos..pos + nameLen];
        pos := pos + nameLen;
        if |data| < pos + dataLen {
          return false;
        }
        files := files[name := data[pos..pos + dataLen]];
        pos := pos + dataLen;
        left := left - 1;
        ghost var tail := ReadEntries(data, pos, left);
        assert rest.outputs[1..] == tail.outputs;
        rest := tail;
      }
      return true;
    }
  }

  // ---------------------------------------------------------------- writing

  /** Overwrites `n` bytes between two parts that stay as they are. */
  method PutUint(a: array<byte>, from: nat, n: nat, v: nat, ghost pre: seq<byte>, ghost post: seq<byte>)
    requires |pre| == from && from + n <= a.Length && a[..from] == pre && a[from + n..] == post
    modifies a
    ensures a[..] == pre + PutLE(v, n) + post
  {
    var rest := v;
    for i := 0 to n
      invariant a[..from] == pre && a[from + n..] == post
      invariant PutLE(v, n) == a[from..from + i] + PutLE(rest, n - i)
    {
      a[from + i] := rest % 256;
      rest := rest / 256;
    }
    assert a[..] == a[..from] + a[from..from + n] + a[from + n..];
  }

  method HeaderBytes(digest: Digest, count: nat, size: nat) returns (header: array<byte>)
    ensures fresh(header) && header[..] == Header(digest, count, size)
  {
    header := new byte[HEADER_SIZE](_ => 0);
    PutUint(header, 0, 4, MAGIC, [], Zeros(60));
    ghost var done := PutLE(MAGIC, 4);
    PutUint(header, 4, 4, VERSION, done, Zeros(56));
    done := done + PutLE(VERSION, 4);
    assert header[..8] == done && header[40..] == Zeros(24);
    forall i | 0 <= i < 32 {
      header[8 + i] := digest[i];
    }
    done := done + digest;
    assert header[..40] == done && header[42..] == Zeros(22);
    PutUint(header, 40, 2, count, done, Zeros(22));
    done := done + PutLE(count, 2) + Zeros(4);
    assert header[..46] == done && header[50..] == Zeros(14);
    PutUint(header, 46, 4, size, done, Zeros(14));
  }

  method EntryHeaderBytes(nameLen: nat, dataLen: nat) returns (header: array<byte>)
    ensures fresh(header) && header[..] == EntryHeader(nameLen, dataLen)
  {
    header := new byte[OUTPUT_HEADER_SIZE](_ => 0);
    PutUint(header, 0, 2, nameLen, [], Zeros(14));
    ghost var done := PutLE(nameLen, 2) + Zeros(2);
    assert header[..4] == done && header[8..] == Zeros(8);
    PutUint(header, 4, 4, dataLen, done, Zeros(8));
  }

  /** Sizes first, then the header, then one output after the other. */
  method WriteArchive(digest: Digest, outputs: seq<Output>) returns (file: seq<byte>)
    ensures file == Encode(digest, outputs)
  {
    var recordSize := 0;
    assert outputs[..0] == [];
    for i := 0 to |outputs|
      invariant recordSize == |Body(outputs[..i])|
    {
      recordSize := recordSize + OUTPUT_HEADER_SIZE + |outputs[i].name| + |outputs[i].data|;
      BodyAppend(outputs[..i], outputs[i]);
      assert outputs[..i + 1] == outputs[..i] + [outputs[i]];
    }
    assert outputs[..|outputs|] == outputs;
    var header := HeaderBytes(digest, |outputs|, recordSize);
    file := header[..];
    for i := 0 to |outputs|
      invariant file == Header(digest, |outputs|, recordSize) + Body(outputs[..i])
    {
      var entryHeader := EntryHeaderBytes(|outputs[i].name|, |outputs[i].data|);
      ghost var before := file;
      file := file + entryHeader[..] + outputs[i].name + outputs[i].data;
      assert file == before + EntryBytes(outputs[i]);
      BodyAppend(outputs[..i], outputs[i]);
      assert outputs[..i + 1] == outputs[..i] + [outputs[i]];
    }
  }

  // ---------------------------------------------------------------- reading back what was written

  predicate SizesFit(outputs: seq<Output>) {
    forall i :: 0 <= i < |outputs| ==> |outputs[i].name| < 0x1_0000 && |outputs[i].data| < TWO_32
  }

  predicate Fits(outputs: seq<Output>) {
    |outputs| < 0x1_0000 && SizesFit(outputs)
  }

  lemma EntryHeaderFields(nameLen: nat, dataLen: nat)
    ensures var h := EntryHeader(nameLen, dataLen);
            Field(h, 0, 2) == nameLen % 0x1_0000 && Field(h, 4, 4) == dataLen % TWO_32
  {
    Sizes();
    var h, a := EntryHeader(nameLen, dataLen), PutLE(nameLen, 2) + Zeros(2);
    FieldBetween([], nameLen, 2, Zeros(2) + PutLE(dataLen, 4) + Zeros(8));
    assert h == [] + PutLE(nameLen, 2) + (Zeros(2) + PutLE(dataLen, 4) + Zeros(8));
    FieldBetween(a, dataLen, 4, Zeros(8));
  }

  lemma EntryFields(pre: seq<byte>, o: Output, post: seq<byte>)
    requires |o.name| < 0x1_0000 && |o.data| < TWO_32
    ensures var s := pre + EntryBytes(o) + post; var p := |pre|;
            && Field(s, p, 2) == |o.name| && Field(s, p + 4, 4) == |o.data|
            && s[p + 16..p + 16 + |o.name|] == o.name
            && s[p + 16 + |o.name|..p + |EntryBytes(o)|] == o.data
  {
    var e, h := EntryBytes(o), EntryHeader(|o.name|, |o.data|);
    EntryHeaderFields(|o.name|, |o.data|);
    assert e[0..2] == h[0..2] && e[4..8] == h[4..8];
    assert e[16..16 + |o.name|] == o.name && e[16 + |o.name|..|e|] == o.data;
    Within(pre, e, post, 0, 2);
    Within(pre, e, post, 4, 8);
    Within(pre, e, post, 16, 16 + |o.name|);
    Within(pre, e, post, 16 + |o.name|, |e|);
  }

  lemma ReadOne(data: seq<byte>, pos: nat, o: Output, count: nat)
    requires count > 0 && pos + |EntryBytes(o)| <= |data|
    requires Field(data, pos, 2) == |o.name| && Field(data, pos + 4, 4) == |o.data|
    requires data[pos + 16..pos + 16 + |o.name|] == o.name
    requires data[pos + 16 + |o.name|..pos + |EntryBytes(o)|] == o.data
    ensures var rest := ReadEntries(data, pos + |EntryBytes(o)|, count - 1);
            ReadEntries(data, pos, count) == Restored([o] + rest.outputs, rest.ok)
  {
  }

  lemma HeadReadBack(data: seq<byte>, pre: seq<byte>, o: Output, rest: seq<byte>, k: nat)
    requires k > 0 && |o.name| < 0x1_0000 && |o.data| < TWO_32
    requires data == pre + EntryBytes(o) + rest
    ensures var tail := ReadEntries(data, |pre + EntryBytes(o)|, k - 1);
            ReadEntries(data, |pre|, k) == Restored([o] + tail.outputs, tail.ok)
  {
    EntryFields(pre, o, rest);
    ReadOne(data, |pre|, o, k);
  }

  lemma HeadOfPrefix(outputs: seq<Output>, k: nat, all: Restored, tail: Restored)
    requires 0 < k <= |outputs| && tail == Restored(outputs[1..][..k - 1], true)
    requires all == Restored([outputs[0]] + tail.outputs, tail.ok)
    ensures all == Restored(outputs[..k], true)
  {
    assert outputs[..k] == [outputs[0]] + outputs[1..][..k - 1];
  }

  lemma {:induction false} EntriesReadBack(data: seq<byte>, pre: seq<byte>, outputs: seq<Output>, post: seq<byte>,
                                           k: nat)
    requires SizesFit(outputs) && k <= |outputs|
    requires data == pre + Body(outputs) + post
    ensures ReadEntries(data, |pre|, k) == Restored(outputs[..k], true)
    decreases k, 1
  {
    if k == 0 {
      assert outputs[..k] == [];
    } else {
      FirstReadBack(data, pre, outputs, post, k);
    }
  }

  lemma {:induction false} FirstReadBack(data: seq<byte>, pre: seq<byte>, outputs: seq<Output>, post: seq<byte>, k: nat)
    requires SizesFit(outputs) && 0 < k <= |outputs| && data == pre + Body(outputs) + post
    ensures ReadEntries(data, |pre|, k) == Restored(outputs[..k], true)
    decreases k, 0
  {
    var e, rest := EntryBytes(outputs[0]), outputs[1..];
    Regroup(pre, e, Body(rest), post);
    HeadReadBack(data, pre, outputs[0], Body(rest) + post, k);
    EntriesReadBack(data, pre + e, rest, post, k - 1);
    HeadOfPrefix(outputs, k, ReadEntries(data, |pre|, k), ReadEntries(data, |pre + e|, k - 1));
  }

  lemma Regroup(a: seq<byte>, b: seq<byte>, c: seq<byte>, d: seq<byte>)
    ensures a + (b + c) + d == a + b + (c + d) == (a + b) + c + d
  {
    assert a + (b + c) + d == a + b + (c + d);
    assert (a + b) + c + d == a + b + (c + d);
  }

  lemma HeaderParts(a: seq<byte>, b: seq<byte>, c: seq<byte>, d: seq<byte>, e: seq<byte>, f: seq<byte>, g: seq<byte>)
    requires |a| == |b| == |e| == |f| == 4 && |c| == 32 && |d| == 2
    ensures var h := a + b + c + d + e + f + g;
            h[0..4] == a && h[4..8] == b && h[8..40] == c && h[40..42] == d && h[46..50] == f
  {
  }

  lemma HeaderFields(digest: Digest, count: nat, size: nat)
    ensures var h := Header(digest, count, size);
            && Field(h, 0, 4) == MAGIC && Field(h, 4, 4) == VERSION
            && Field(h, 40, 2) == count % 0x1_0000 && Field(h, 46, 4) == size % TWO_32
  {
    Sizes();
    HeaderParts(PutLE(MAGIC, 4), PutLE(VERSION, 4), digest, PutLE(count, 2), Zeros(4), PutLE(size, 4), Zeros(14));
    GetPut(MAGIC, 4);
    GetPut(VERSION, 4);
    GetPut(count, 2);
    GetPut(size, 4);
  }

  /** The format, byte by byte: 64 bytes of header, then for each output 16 bytes with the lengths, its name and its
      contents. */
  lemma EncodedIs(digest: Digest, outputs: seq<Output>)
    ensures var f := Encode(digest, outputs);
      && |f| == 64 + |Body(outputs)| && f[64..] == Body(outputs)
      && Field(f, 0, 4) == 0xA1C3CAC0 && Field(f, 4, 4) == 1 && f[8..40] == digest
      && Field(f, 40, 2) == |outputs| % 0x1_0000 && Field(f, 46, 4) == |Body(outputs)| % 0x1_0000_0000
  {
    var h, body := Header(digest, |outputs|, |Body(outputs)|), Body(outputs);
    HeaderFields(digest, |outputs|, |body|);
    HeaderParts(PutLE(MAGIC, 4), PutLE(VERSION, 4), digest, PutLE(|outputs|, 2), Zeros(4), PutLE(|body|, 4), Zeros(14));
    assert [] + h + body == h + body;
    Within([], h, body, 0, 4);
    Within([], h, body, 4, 8);
    Within([], h, body, 8, 40);
    Within([], h, body, 40, 42);
    Within([], h, body, 46, 50);
  }

  lemma EntryIs(o: Output, rest: seq<Output>)
    ensures var b, n := Body([o] + rest), |o.name|;
      && b == b[..16 + n + |o.data|] + Body(rest)
      && Field(b, 0, 2) == n % 0x1_0000 && Field(b, 4, 4) == |o.data| % 0x1_0000_0000
      && b[16..16 + n] == o.name && b[16 + n..16 + n + |o.data|] == o.data
  {
    var e, b := EntryBytes(o), Body([o] + rest);
    assert ([o] + rest)[1..] == rest;
    assert b == e + Body(rest) && b[..|e|] == e;
    var h := EntryHeader(|o.name|, |o.data|);
    EntryHeaderFields(|o.name|, |o.data|);
    assert e[0..2] == h[0..2] && e[4..8] == h[4..8];
    assert b[0..2] == e[0..2] && b[4..8] == e[4..8];
    assert b[16..16 + |o.name|] == e[16..16 + |o.name|] == o.name;
    assert b[16 + |o.name|..|e|] == e[16 + |o.name|..|e|] == o.data;
  }

  lemma CountField(digest: Digest, outputs: seq<Output>, post: seq<byte>)
    ensures Field(Encode(digest, outputs) + post, 40, 2) == |outputs| % 0x1_0000
  {
    var h := Header(digest, |outputs|, |Body(outputs)|);
    HeaderFields(digest, |outputs|, |Body(outputs)|);
    Within([], h, Body(outputs) + post, 40, 42);
    assert [] + h + (Body(outputs) + post) == Encode(digest, outputs) + post;
  }

  /** When each name and each content fits its length field, reading gives the outputs back, as many as the 16-bit
      count still says. */
  lemma ArchiveReadsBack(digest: Digest, outputs: seq<Output>, post: seq<byte>)
    requires SizesFit(outputs)
    ensures ReadArchive(Encode(digest, outputs) + post) == Restored(outputs[..|outputs| % 0x1_0000], true)
  {
    CountField(digest, outputs, post);
    EntriesReadBack(Encode(digest, outputs) + post, Header(digest, |outputs|, |Body(outputs)|), outputs, post,
        |outputs| % 0x1_0000);
  }

  lemma {:induction false} EntriesReadFit(data: seq<byte>, pos: nat, count: nat)
    ensures SizesFit(ReadEntries(data, pos, count).outputs) && |ReadEntries(data, pos, count).outputs| <= count
    decreases count
  {
    if count > 0 && |data| >= pos + OUTPUT_HEADER_SIZE {
      Sizes();
      GetBound(data[pos..pos + 2]);
      GetBound(data[pos + 4..pos + 8]);
      var end := pos + OUTPUT_HEADER_SIZE + Field(data, pos, 2) + Field(data, pos + 4, 4);
      if |data| >= end {
        EntriesReadFit(data, end, count - 1);
      }
    }
  }

  /** Whatever the bytes, the outputs read fit the fields they were read from. */
  lemma ReadOutputsFit(data: seq<byte>)
    ensures Fits(ReadArchive(data).outputs)
  {
    if |data| >= HEADER_SIZE {
      Sizes();
      GetBound(data[40..42]);
      EntriesReadFit(data, HEADER_SIZE, Field(data, 40, 2));
    }
  }

  /** The round trip holds exactly for outputs that fit the fields of the format. */
  lemma RoundTripIffFits(digest: Digest, outputs: seq<Output>)
    ensures ReadArchive(Encode(digest, outputs)) == Restored(outputs, true) <==> Fits(outputs)
  {
    ReadOutputsFit(Encode(digest, outputs));
    if Fits(outputs) {
      FittingReadsBack(digest, outputs);
    }
  }

  lemma FittingReadsBack(digest: Digest, outputs: seq<Output>)
    requires Fits(outputs)
    ensures ReadArchive(Encode(digest, outputs)) == Restored(outputs, true)
  {
    var data := Encode(digest, outputs);
    ArchiveReadsBack(digest, outputs, []);
    assert data + [] == data && outputs[..|outputs|] == outputs;
  }

  lemma {:induction false} ReadingNeedsAll(data: seq<byte>, pos: nat, count: nat)
    requires pos <= |data| && ReadEntries(data, pos, count).ok
    ensures |data| >= pos + |Body(ReadEntries(data, pos, count).outputs)|
    decreases count
  {
    if count > 0 {
      var dataAt := pos + OUTPUT_HEADER_SIZE + Field(data, pos, 2);
      var end := dataAt + Field(data, pos + 4, 4);
      ReadingNeedsAll(data, end, count - 1);
      var all := ReadEntries(data, pos, count).outputs;
      assert all[1..] == ReadEntries(data, end, count - 1).outputs;
    }
  }

  lemma RecordFields(pre: seq<byte>, h: seq<byte>, post: seq<byte>)
    requires |h| == HEADER_SIZE
    ensures var log := pre + h + post;
            && Field(log, |pre|, 4) == Field(h, 0, 4) && Field(log, |pre| + 4, 4) == Field(h, 4, 4)
            && Field(log, |pre| + 46, 4) == Field(h, 46, 4)
  {
    Within(pre, h, post, 0, 4);
    Within(pre, h, post, 4, 8);
    Within(pre, h, post, 46, 50);
  }

  lemma WrappedSum(size: nat)
    ensures (HEADER_SIZE + size % TWO_32) % TWO_32 == (HEADER_SIZE + size) % TWO_32
  {
    var q, r := size / TWO_32, size % TWO_32;
    assert HEADER_SIZE + size == q * TWO_32 + (HEADER_SIZE + r);
    if HEADER_SIZE + r >= TWO_32 {
      ModUnique(HEADER_SIZE + size, q + 1, TWO_32, HEADER_SIZE + r - TWO_32);
    } else {
      ModUnique(HEADER_SIZE + size, q, TWO_32, HEADER_SIZE + r);
    }
  }

  /** What the reader of the second level finds at an archive made of a header and `body`. */
  ghost predicate RecordStarts(log: seq<byte>, offset: nat, size: nat) {
    && |log| >= offset + HEADER_SIZE
    && Field(log, offset, 4) == MAGIC && Field(log, offset + 4, 4) == VERSION
    && (HEADER_SIZE + Field(log, offset + 46, 4)) % TWO_32 == (HEADER_SIZE + size) % TWO_32
  }

  lemma RecordSizeField(pre: seq<byte>, digest: Digest, count: nat, body: seq<byte>, post: seq<byte>)
    ensures RecordStarts(pre + (Header(digest, count, |body|) + body) + post, |pre|, |body|)
  {
    var h := Header(digest, count, |body|);
    HeaderFields(digest, count, |body|);
    Regroup(pre, h, body, post);
    RecordFields(pre, h, body + post);
    WrappedSum(|body|);
  }

  /** A record of the second level gives its outputs back exactly when its whole size fits 32 bits, wherever it
      starts and whatever is appended later. */
  lemma RecordReadsBack(pre: seq<byte>, digest: Digest, outputs: seq<Output>, post: seq<byte>)
    requires Fits(outputs)
    ensures ReadRecord(pre + Encode(digest, outputs) + post, |pre|) == Restored(outputs, true) <==>
            |Encode(digest, outputs)| < TWO_32
  {
    var data := Encode(digest, outputs);
    var size := |data| % TWO_32;
    RecordIsPrefix(pre, digest, outputs, post, data);
    if |data| < TWO_32 {
      assert data[..size] == data;
      RoundTripIffFits(digest, outputs);
    } else {
      if size >= HEADER_SIZE && ReadArchive(data[..size]) == Restored(outputs, true) {
        ReadingNeedsAll(data[..size], HEADER_SIZE, Field(data[..size], 40, 2));
      }
    }
  }

  /** What comes back when the archive of these outputs is read; by `RoundTripIffFits` the outputs themselves if they
      fit the fields. */
  function Shown(digest: Digest, outputs: seq<Output>): seq<Output> {
    ReadArchive(Encode(digest, outputs)).outputs
  }

  /** Outputs that come back: they fit the fields of the archive, and their archive the size of a record. */
  ghost predicate Restorable(digest: Digest, outputs: seq<Output>) {
    Fits(outputs) && |Encode(digest, outputs)| < TWO_32
  }

  lemma PrefixSlice(data: seq<byte>, k: nat, i: nat, j: nat)
    requires i <= j <= k <= |data|
    ensures data[..k][i..j] == data[i..j]
  {
  }

  lemma PrefixOne(data: seq<byte>, k: nat, pos: nat)
    requires pos + OUTPUT_HEADER_SIZE <= k <= |data|
    ensures var part := data[..k];
            Field(part, pos, 2) == Field(data, pos, 2) && Field(part, pos + 4, 4) == Field(data, pos + 4, 4)
  {
    PrefixSlice(data, k, pos, pos + 2);
    PrefixSlice(data, k, pos + 4, pos + 8);
  }

  lemma {:induction false} PrefixEntries(data: seq<byte>, k: nat, pos: nat, count: nat)
    requires k <= |data|
    ensures ReadEntries(data[..k], pos, count).outputs <= ReadEntries(data, pos, count).outputs
    ensures ReadEntries(data[..k], pos, count).ok ==>
      ReadEntries(data, pos, count) == ReadEntries(data[..k], pos, count)
    decreases count
  {
    if count > 0 && pos + OUTPUT_HEADER_SIZE <= k {
      PrefixOne(data, k, pos);
      var nameAt := pos + OUTPUT_HEADER_SIZE;
      var dataAt := nameAt + Field(data, pos, 2);
      var end := dataAt + Field(data, pos + 4, 4);
      if end <= k {
        PrefixSlice(data, k, nameAt, dataAt);
        PrefixSlice(data, k, dataAt, end);
        PrefixEntries(data, k, end, count - 1);
      }
    }
  }

  /** What is read from the beginning of an archive is the beginning of what the whole of it gives, and without a fault
      it is all of that. */
  lemma PrefixArchive(data: seq<byte>, k: nat)
    requires k <= |data|
    ensures ReadArchive(data[..k]).outputs <= ReadArchive(data).outputs
    ensures ReadArchive(data[..k]).ok ==> ReadArchive(data) == ReadArchive(data[..k])
  {
    if k >= HEADER_SIZE {
      PrefixSlice(data, k, 40, 42);
      PrefixEntries(data, k, HEADER_SIZE, Field(data, 40, 2));
    }
  }

  lemma RecordIsPrefix(pre: seq<byte>, digest: Digest, outputs: seq<Output>, post: seq<byte>, data: seq<byte>)
    requires data == Encode(digest, outputs)
    ensures ReadRecord(pre + data + post, |pre|) == ReadArchive(data[..|data| % TWO_32])
  {
    RecordSizeField(pre, digest, |outputs|, Body(outputs), post);
    var size := |data| % TWO_32;
    Within(pre, data, post, 0, size);
    assert data[0..size] == data[..size];
  }

  /** Whatever their size: outputs read from the second level are those their archive gives, or the first of them if
      there was a fault; there is none if they are restorable, and then they are the outputs themselves. */
  lemma RecordNeverLies(pre: seq<byte>, digest: Digest, outputs: seq<Output>, post: seq<byte>)
    ensures var r := ReadRecord(pre + Encode(digest, outputs) + post, |pre|);
            && r.outputs <= Shown(digest, outputs) && (r.ok ==> r.outputs == Shown(digest, outputs))
            && (Restorable(digest, outputs) ==> r == Restored(outputs, true))
  {
    var data := Encode(digest, outputs);
    RecordIsPrefix(pre, digest, outputs, post, data);
    PrefixArchive(data, |data| % TWO_32);
    if Restorable(digest, outputs) {
      RecordReadsBack(pre, digest, outputs, post);
    }
  }
}
