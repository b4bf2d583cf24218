/** The AMPF container the device builder writes around a Max patcher
    (`wrap_ampf`): a 32-byte header, the 16-byte `mx@c` context, the patcher
    JSON followed by the embedded resources, and a `dlst` directory of
    `dire` entries that straddles the end of the content. The clock reading
    behind the `mdat` stamp is a parameter. */
module Ampf {
  import opened Wrappers
  import opened Bytes

  const HfsEpochOffset: int := 2082844800
  /** The size of the `mx@c` context, and so the offset of the patcher JSON. */
  const ContextSize: int := 0x10
  const MainFlags: int := 0x11
  /** The bytes `mx@c` declares as its own header, also the size of every
      fixed-width sub-chunk of a `dire` entry. */
  const SubChunkSize: int := 12
  /** The bytes of the `dlst` directory that sit inside the content. */
  const DlstInContent: int := 16

  const AmpfTag: bytes := Ascii("ampf")
  const MetaTag: bytes := Ascii("meta")
  const PtchTag: bytes := Ascii("ptch")
  const MxTag: bytes := Ascii("mx@c")
  const DlstTag: bytes := Ascii("dlst")
  const DireTag: bytes := Ascii("dire")
  const TypeTag: bytes := Ascii("type")
  const FnamTag: bytes := Ascii("fnam")
  const Sz32Tag: bytes := Ascii("sz32")
  const Of32Tag: bytes := Ascii("of32")
  const VersTag: bytes := Ascii("vers")
  const FlagTag: bytes := Ascii("flag")
  const MdatTag: bytes := Ascii("mdat")
  const JsonType: bytes := Ascii("JSON")
  const TextType: bytes := Ascii("TEXT")
  const MidiChunk: bytes := Ascii("mmmm")
  const InstrumentChunk: bytes := Ascii("iiii")
  const AudioChunk: bytes := Ascii("aaaa")

  /** The device-type chunk id; an unknown device type is treated as MIDI. */
  function ChunkId(deviceType: string): (r: bytes)
    ensures |r| == 4
  {
    if deviceType == "instrument" then InstrumentChunk
    else if deviceType == "audio" then AudioChunk
    else MidiChunk
  }

  /** The three device types get three different chunk ids, and every other
      device type gets the MIDI one. */
  lemma {:induction false} ChunkIdsDistinct(deviceType: string)
    ensures ChunkId("midi") != ChunkId("instrument") && ChunkId("instrument") != ChunkId("audio")
    ensures ChunkId("audio") != ChunkId("midi")
    ensures deviceType !in {"instrument", "audio"} <==> ChunkId(deviceType) == MidiChunk
  {
    assert MidiChunk[0] != InstrumentChunk[0] && InstrumentChunk[0] != AudioChunk[0];
    assert AudioChunk[0] != MidiChunk[0];
  }

  /** The `mdat` stamp: seconds since 1 January 1904, truncated to 32 bits.
      `now` is the integer part of the clock reading in Unix seconds. */
  function MdatStamp(now: int): (r: int)
    ensures 0 <= r < Two32
    ensures (r - (now + HfsEpochOffset)) % Two32 == 0
  {
    (now + HfsEpochOffset) % Two32
  }

  datatype Resource = Resource(name: string, data: bytes)

  /** What one `dire` entry records; `mdat` is shared by all entries. */
  datatype Entry = Entry(ftype: bytes, name: string, size: int, offset: int, flags: int)

  /** The `fnam` field: the ASCII name, a NUL, and zeros up to a multiple of
      four. */
  function NameField(name: string): (r: bytes)
    requires IsAscii(name)
    ensures |r| == NameLen(name)
  {
    Pad4(Ascii(name) + [0])
  }

  function NameLen(name: string): nat {
    Pad4Len(|name| + 1)
  }

  /** The length of a whole `dire` chunk: its own tag and size, the `type`
      and `fnam` sub-chunks and five word sub-chunks. */
  function DireLen(name: string): nat {
    8 + SubChunkSize + (8 + NameLen(name)) + 5 * SubChunkSize
  }

  predicate EntryOk(e: Entry) {
    |e.ftype| == 4 && IsAscii(e.name) && 0 <= e.size < Two32 && 0 <= e.offset < Two32
    && 0 <= e.flags < Two32 && DireLen(e.name) < Two32
  }

  /** A sub-chunk holding one 32-bit word. */
  function WordChunk(tag: bytes, v: int): (r: bytes)
    requires |tag| == 4 && 0 <= v < Two32
    ensures |r| == SubChunkSize
  {
    tag + BE32(SubChunkSize) + BE32(v)
  }

  function TypeChunk(ftype: bytes): (r: bytes)
    requires |ftype| == 4
    ensures |r| == SubChunkSize
  {
    TypeTag + BE32(SubChunkSize) + ftype
  }

  function FnamChunk(name: string): (r: bytes)
    requires IsAscii(name) && 8 + NameLen(name) < Two32
    ensures |r| == 8 + NameLen(name)
  {
    FnamTag + BE32(8 + NameLen(name)) + NameField(name)
  }

  /** The five word sub-chunks `sz32`, `of32`, `vers` (always 0), `flag`
      and `mdat`. */
  function WordChunks(e: Entry, mdat: int): (r: bytes)
    requires EntryOk(e) && 0 <= mdat < Two32
    ensures |r| == 5 * SubChunkSize
  {
    WordChunk(Sz32Tag, e.size) + WordChunk(Of32Tag, e.offset) + WordChunk(VersTag, 0)
    + WordChunk(FlagTag, e.flags) + WordChunk(MdatTag, mdat)
  }

  /** `_make_dire`: the payload of a `dire` entry. */
  function DirePayload(e: Entry, mdat: int): (r: bytes)
    requires EntryOk(e) && 0 <= mdat < Two32
    ensures |r| == DireLen(e.name) - 8
  {
    TypeChunk(e.ftype) + FnamChunk(e.name) + WordChunks(e, mdat)
  }

  /** A `dire` chunk: tag, the size of the whole chunk, the payload. */
  function DireChunk(e: Entry, mdat: int): (r: bytes)
    requires EntryOk(e) && 0 <= mdat < Two32
    ensures |r| == DireLen(e.name)
  {
    var p := DirePayload(e, mdat);
    DireTag + BE32(8 + |p|) + p
  }

  predicate AllEntriesOk(es: seq<Entry>) {
    forall k :: 0 <= k < |es| ==> EntryOk(es[k])
  }

  /** The summed length of the `dire` chunks of a directory. */
  function DiresLen(es: seq<Entry>): nat {
    if |es| == 0 then 0 else DireLen(es[0].name) + DiresLen(es[1..])
  }

  /** `all_dires`: the `dire` chunks one after another, in entry order. */
  function Dires(es: seq<Entry>, mdat: int): (r: bytes)
    requires AllEntriesOk(es) && 0 <= mdat < Two32
    ensures |r| == DiresLen(es)
  {
    if |es| == 0 then [] else DireChunk(es[0], mdat) + Dires(es[1..], mdat)
  }

  /** The summed length of the resource data. */
  function DataLen(rs: seq<Resource>): nat {
    if |rs| == 0 then 0 else |rs[0].data| + DataLen(rs[1..])
  }

  /** The resource data in input order. */
  function DataOf(rs: seq<Resource>): (r: bytes)
    ensures |r| == DataLen(rs)
  {
    if |rs| == 0 then [] else rs[0].data + DataOf(rs[1..])
  }

  /** The patcher JSON followed by every resource's data: the embedded part
      of the content. */
  function Embedded(json: bytes, rs: seq<Resource>): (r: bytes)
    ensures |r| == |json| + DataLen(rs)
  {
    json + DataOf(rs)
  }

  /** The main patcher entry. */
  function MainEntry(json: bytes, filename: string): Entry {
    Entry(JsonType, filename, |json|, ContextSize, MainFlags)
  }

  /** The resource entries, each typed TEXT, unflagged, and pointing at its
      data, which starts `offset` bytes into the payload for the first one
      and right after the previous resource's data for every later one. */
  function ResourceEntries(rs: seq<Resource>, offset: int): (r: seq<Entry>)
    ensures |r| == |rs|
  {
    if |rs| == 0 then []
    else [Entry(TextType, rs[0].name, |rs[0].data|, offset, 0)] + ResourceEntries(rs[1..], offset + |rs[0].data|)
  }

  /** Resource entry `k` records the `k`th resource, at the offset its
      predecessors' data puts it. */
  lemma {:induction false} ResourceEntryAt(rs: seq<Resource>, offset: int, k: int)
    requires 0 <= k < |rs|
    ensures ResourceEntries(rs, offset)[k] == Entry(TextType, rs[k].name, |rs[k].data|, offset + DataLen(rs[..k]), 0)
    decreases k
  {
    if k == 0 {
      assert DataLen(rs[..0]) == 0;
    } else {
      ResourceEntryAt(rs[1..], offset + |rs[0].data|, k - 1);
      assert rs[..k][1..] == rs[1..][..k - 1];
    }
  }

  lemma {:induction false} ResourceEntriesAt(rs: seq<Resource>, offset: int)
    ensures forall k :: 0 <= k < |rs| ==>
      ResourceEntries(rs, offset)[k] == Entry(TextType, rs[k].name, |rs[k].data|, offset + DataLen(rs[..k]), 0)
  {
    forall k | 0 <= k < |rs| {
      ResourceEntryAt(rs, offset, k);
    }
  }

  /** Every entry of the directory: the patcher first, then the resources
      in input order, the first resource right after the JSON. */
  function Entries(json: bytes, filename: string, rs: seq<Resource>): (r: seq<Entry>)
    ensures |r| == |rs| + 1 && r[0] == MainEntry(json, filename)
    ensures r[1..] == ResourceEntries(rs, ContextSize + |json|)
  {
    [MainEntry(json, filename)] + ResourceEntries(rs, ContextSize + |json|)
  }

  /** The length of the patch payload, computed from the sizes alone. */
  function PayloadSize(json: bytes, filename: string, rs: seq<Resource>): nat {
    ContextSize + |json| + DataLen(rs) + 8 + DiresLen(Entries(json, filename, rs))
  }

  predicate NamesAscii(filename: string, rs: seq<Resource>) {
    IsAscii(filename) && forall k :: 0 <= k < |rs| ==> IsAscii(rs[k].name)
  }

  /** When `wrap_ampf` raises: a name that does not encode as ASCII, or a
      value `struct.pack` cannot fit in 32 bits. Every packed value is at
      most the payload length, which is packed last, so the second is
      exactly a payload of 2^32 bytes or more. */
  predicate Fits(json: bytes, filename: string, rs: seq<Resource>) {
    NamesAscii(filename, rs) && PayloadSize(json, filename, rs) < Two32
  }

  /** `dlst_bytes`: tag, total size, every `dire` chunk. */
  function Dlst(es: seq<Entry>, mdat: int): (r: bytes)
    requires AllEntriesOk(es) && 0 <= mdat < Two32 && 8 + DiresLen(es) < Two32
    ensures |r| == 8 + DiresLen(es)
  {
    DlstTag + BE32(8 + DiresLen(es)) + Dires(es, mdat)
  }

  function MxContext(contentSize: int): (r: bytes)
    requires 0 <= contentSize < Two32
    ensures |r| == ContextSize
  {
    MxTag + BE32(ContextSize) + BE32(0) + BE32(contentSize)
  }

  function Header(chunk: bytes, payloadSize: int): (r: bytes)
    requires |chunk| == 4 && 0 <= payloadSize < Two32
    ensures |r| == 32
  {
    AmpfTag + LE32(4) + chunk + MetaTag + LE32(4) + LE32(7) + PtchTag + LE32(payloadSize)
  }

  /** Under `Fits`, every entry can be packed. */
  lemma {:induction false} EntriesOk(json: bytes, filename: string, rs: seq<Resource>)
    requires Fits(json, filename, rs)
    ensures AllEntriesOk(Entries(json, filename, rs))
  {
    var es := Entries(json, filename, rs);
    ResourceEntriesAt(rs, ContextSize + |json|);
    forall k | 0 <= k < |es| ensures EntryOk(es[k]) {
      DireLenBound(es, k);
      if k > 0 {
        DataLenSplit(rs, k);
        assert es[k] == ResourceEntries(rs, ContextSize + |json|)[k - 1];
        assert rs[..k][..k - 1] == rs[..k - 1];
        DataLenLast(rs[..k]);
      }
    }
  }

  lemma {:induction false} DireLenBound(es: seq<Entry>, k: int)
    requires 0 <= k < |es|
    ensures DireLen(es[k].name) <= DiresLen(es)
    decreases k
  {
    if k > 0 {
      DireLenBound(es[1..], k - 1);
    }
  }

  /** The data lengths add up over any split of the resources. */
  lemma {:induction false} DataLenSplit(rs: seq<Resource>, k: int)
    requires 0 <= k <= |rs|
    ensures DataLen(rs) == DataLen(rs[..k]) + DataLen(rs[k..])
    decreases k
  {
    if k > 0 {
      DataLenSplit(rs[1..], k - 1);
      assert rs[..k][1..] == rs[1..][..k - 1];
      assert rs[1..][k - 1..] == rs[k..];
    }
  }

  lemma {:induction false} DataLenLast(rs: seq<Resource>)
    requires |rs| > 0
    ensures DataLen(rs) == DataLen(rs[..|rs| - 1]) + |rs[|rs| - 1].data|
  {
    DataLenSplit(rs, |rs| - 1);
    assert rs[|rs| - 1..] == [rs[|rs| - 1]];
    assert DataLen([rs[|rs| - 1]]) == |rs[|rs| - 1].data| + DataLen([rs[|rs| - 1]][1..]);
  }

  /** The directory of a container whose values fit. */
  function DlstOf(json: bytes, filename: string, rs: seq<Resource>, mdat: int): (r: bytes)
    requires Fits(json, filename, rs) && 0 <= mdat < Two32
    ensures |r| == 8 + DiresLen(Entries(json, filename, rs)) && |r| >= 8 + DireLen(filename)
  {
    EntriesOk(json, filename, rs);
    Dlst(Entries(json, filename, rs), mdat)
  }

  /** The patch payload: the context, the content (embedded data and the
      first 16 bytes of the directory), then the rest of the directory. */
  function Payload(json: bytes, filename: string, rs: seq<Resource>, mdat: int): (r: bytes)
    requires Fits(json, filename, rs) && 0 <= mdat < Two32
    ensures |r| == PayloadSize(json, filename, rs)
  {
    var dlst := DlstOf(json, filename, rs, mdat);
    var content := Embedded(json, rs) + dlst[..DlstInContent];
    MxContext(|content|) + content + dlst[DlstInContent..]
  }

  /** `wrap_ampf`, with `now` the integer part of the clock reading. Both
      exceptions it can raise are the one error `Unpackable`. */
  function WrapAmpf(json: bytes, deviceType: string, filename: string, rs: seq<Resource>, now: int)
    : (r: Result<bytes, AmpfError>)
    ensures r.Ok? <==> Fits(json, filename, rs)
    ensures r.Ok? ==> |r.value| == 32 + PayloadSize(json, filename, rs)
  {
    if !Fits(json, filename, rs) then Err(Unpackable)
    else
      var payload := Payload(json, filename, rs, MdatStamp(now));
      Ok(Header(ChunkId(deviceType), |payload|) + payload)
  }

  datatype AmpfError = Unpackable

  /** The payload as one piece: the context, the embedded data, then the
      whole directory. */
  function Layout(json: bytes, filename: string, rs: seq<Resource>, mdat: int): (r: bytes)
    requires Fits(json, filename, rs) && 0 <= mdat < Two32
    ensures |r| == PayloadSize(json, filename, rs)
  {
    MxContext(|json| + DataLen(rs) + DlstInContent) + Embedded(json, rs) + DlstOf(json, filename, rs, mdat)
  }

  /** The two halves of the split directory join back up: the payload is
      the context, the embedded data and the whole directory, its first 16
      bytes closing the content. */
  lemma {:induction false} PayloadLayout(json: bytes, filename: string, rs: seq<Resource>, mdat: int)
    requires Fits(json, filename, rs) && 0 <= mdat < Two32
    ensures Payload(json, filename, rs, mdat) == Layout(json, filename, rs, mdat)
  {
    var dlst := DlstOf(json, filename, rs, mdat);
    var e := Embedded(json, rs);
    assert |e + dlst[..DlstInContent]| == |json| + DataLen(rs) + DlstInContent;
    SplitJoin(MxContext(|json| + DataLen(rs) + DlstInContent), e, dlst, DlstInContent);
  }

  lemma {:induction false} SplitJoin(m: bytes, e: bytes, d: bytes, k: int)
    requires 0 <= k <= |d|
    ensures m + (e + d[..k]) + d[k..] == m + e + d
  {
    assert d == d[..k] + d[k..];
  }

  /** The whole container: the header, then the payload as laid out above. */
  lemma {:induction false} WrapLayout(json: bytes, deviceType: string, filename: string, rs: seq<Resource>, now: int, out: bytes)
    requires WrapAmpf(json, deviceType, filename, rs, now) == Ok(out)
    ensures Fits(json, filename, rs)
    ensures out == Header(ChunkId(deviceType), PayloadSize(json, filename, rs)) + Layout(json, filename, rs, MdatStamp(now))
  {
    PayloadLayout(json, filename, rs, MdatStamp(now));
  }

  /** Each resource's data sits in the concatenation where its predecessors'
      lengths put it. */
  lemma {:induction false} DataOfSlice(rs: seq<Resource>, k: int)
    requires 0 <= k < |rs|
    ensures DataLen(rs[..k]) + |rs[k].data| <= DataLen(rs)
    ensures DataOf(rs)[DataLen(rs[..k])..DataLen(rs[..k]) + |rs[k].data|] == rs[k].data
    decreases k
  {
    if k == 0 {
      assert DataLen(rs[..0]) == 0;
    } else {
      DataOfSlice(rs[1..], k - 1);
      assert rs[..k][1..] == rs[1..][..k - 1];
      assert DataLen(rs[..k]) == |rs[0].data| + DataLen(rs[1..][..k - 1]);
    }
  }

  /** What an entry points at: the JSON for the patcher entry, the data of
      the resource for every other one. */
  function EntryData(json: bytes, rs: seq<Resource>, k: int): bytes
    requires 0 <= k <= |rs|
  {
    if k == 0 then json else rs[k - 1].data
  }

  /** Every entry's offset and size, counted from the start of `p`, pick out
      the matching element of `datas`. */
  predicate PointsAt(p: bytes, es: seq<Entry>, datas: seq<bytes>)
    requires |es| == |datas|
  {
    forall k :: 0 <= k < |es| ==>
      0 <= es[k].offset && 0 <= es[k].size && es[k].offset + es[k].size <= |p|
      && p[es[k].offset..es[k].offset + es[k].size] == datas[k]
  }

  /** The directory points at the data: every entry's `of32` and `sz32`,
      counted from the start of the patch payload, pick out exactly the
      bytes it describes. */
  lemma {:induction false} WrapOffsets(json: bytes, deviceType: string, filename: string, rs: seq<Resource>, now: int, out: bytes)
    requires WrapAmpf(json, deviceType, filename, rs, now) == Ok(out)
    ensures |out| >= 32 && PointsAt(out[32..], Entries(json, filename, rs), AllData(json, rs))
  {
    WrapLayout(json, deviceType, filename, rs, now, out);
    var h := Header(ChunkId(deviceType), PayloadSize(json, filename, rs));
    var m := MxContext(|json| + DataLen(rs) + DlstInContent);
    var d := DlstOf(json, filename, rs, MdatStamp(now));
    assert out == (h + m) + Embedded(json, rs) + d;
    LayoutOffsets(json, filename, rs, h + m, d, out);
  }

  lemma {:induction false} LayoutOffsets(json: bytes, filename: string, rs: seq<Resource>, front: bytes, d: bytes, out: bytes)
    requires |front| == 48 && out == front + Embedded(json, rs) + d
    ensures |out| >= 32 && PointsAt(out[32..], Entries(json, filename, rs), AllData(json, rs))
  {
    assert out == front + json + DataOf(rs) + d;
    ConcatParts(front, json, DataOf(rs), d, out);
    EmbeddedOffsets(json, filename, rs, out);
  }

  /** With the JSON 48 bytes in and the resource data right after it, every
      entry points at its data. */
  lemma {:induction false} EmbeddedOffsets(json: bytes, filename: string, rs: seq<Resource>, out: bytes)
    requires 48 + |json| + DataLen(rs) <= |out| && out[48..48 + |json|] == json
    requires out[48 + |json|..48 + |json| + DataLen(rs)] == DataOf(rs)
    ensures |out| >= 32 && PointsAt(out[32..], Entries(json, filename, rs), AllData(json, rs))
  {
    var es := Entries(json, filename, rs);
    var datas := AllData(json, rs);
    forall k | 0 <= k < |es|
      ensures 0 <= es[k].offset && 0 <= es[k].size && es[k].offset + es[k].size <= |out| - 32
      ensures out[32..][es[k].offset..es[k].offset + es[k].size] == datas[k]
    {
      EmbeddedOffset(json, filename, rs, out, k);
    }
  }

  lemma {:induction false} EmbeddedOffset(json: bytes, filename: string, rs: seq<Resource>, out: bytes, k: int)
    requires 48 + |json| + DataLen(rs) <= |out| && out[48..48 + |json|] == json
    requires out[48 + |json|..48 + |json| + DataLen(rs)] == DataOf(rs)
    requires 0 <= k <= |rs|
    ensures var e := Entries(json, filename, rs)[k];
      0 <= e.offset && 0 <= e.size && e.offset + e.size <= |out| - 32
      && out[32..][e.offset..e.offset + e.size] == EntryData(json, rs, k)
  {
    if k == 0 {
      DropSlice(out, 32, ContextSize, ContextSize + |json|);
    } else {
      ResourceOffset(json, filename, rs, out, k - 1);
    }
  }

  lemma {:induction false} ResourceOffset(json: bytes, filename: string, rs: seq<Resource>, out: bytes, j: int)
    requires 48 + |json| + DataLen(rs) <= |out| && out[48 + |json|..48 + |json| + DataLen(rs)] == DataOf(rs)
    requires 0 <= j < |rs|
    ensures var e := Entries(json, filename, rs)[j + 1];
      0 <= e.offset && e.size == |rs[j].data| && e.offset + e.size <= |out| - 32
      && out[32..][e.offset..e.offset + e.size] == rs[j].data
  {
    var lo := DataLen(rs[..j]);
    var e := Entry(TextType, rs[j].name, |rs[j].data|, ContextSize + |json| + lo, 0);
    ResourceEntryAt(rs, ContextSize + |json|, j);
    assert Entries(json, filename, rs)[j + 1] == ResourceEntries(rs, ContextSize + |json|)[j] == e;
    DataOfSlice(rs, j);
    SubSlice(out, 48 + |json|, DataLen(rs), lo, lo + |rs[j].data|);
    DropSlice(out, 32, e.offset, e.offset + e.size);
  }

  lemma {:induction false} DropSlice(s: bytes, base: int, lo: int, hi: int)
    requires 0 <= base && 0 <= lo <= hi && base + hi <= |s|
    ensures s[base..][lo..hi] == s[base + lo..base + hi]
  {
    var t := s[base..][lo..hi];
    assert forall i :: 0 <= i < hi - lo ==> t[i] == s[base + lo + i];
  }

  lemma {:induction false} SubSlice(s: bytes, base: int, n: int, lo: int, hi: int)
    requires 0 <= base && base + n <= |s| && 0 <= lo <= hi <= n
    ensures s[base..base + n][lo..hi] == s[base + lo..base + hi]
  {
    var t := s[base..base + n][lo..hi];
    assert forall i :: 0 <= i < hi - lo ==> t[i] == s[base + lo + i];
  }

  lemma {:induction false} ConcatParts(a: bytes, b: bytes, c: bytes, d: bytes, out: bytes)
    requires out == a + b + c + d
    ensures out[|a|..|a| + |b|] == b && out[|a| + |b|..|a| + |b| + |c|] == c
  {
  }

  // Reading a container back.

  predicate NoNul(s: string) {
    forall i :: 0 <= i < |s| ==> s[i] != 0 as char
  }

  /** The characters of a name field before its first NUL; nothing when the
      field has no NUL or a byte before it is not ASCII. */
  function NameOf(field: bytes): Option<string> {
    if |field| == 0 then None
    else if field[0] == 0 then Some("")
    else if field[0] >= 128 then None
    else match NameOf(field[1..])
      case None => None
      case Some(t) => Some([field[0] as char] + t)
  }

  lemma {:induction false} NameOfRoundTrip(name: string, z: bytes)
    requires IsAscii(name) && NoNul(name)
    ensures NameOf(Ascii(name) + [0] + z) == Some(name)
    decreases |name|
  {
    if |name| > 0 {
      var f := Ascii(name) + [0] + z;
      assert f[1..] == Ascii(name[1..]) + [0] + z;
      NameOfRoundTrip(name[1..], z);
      assert [f[0] as char] + name[1..] == name;
    }
  }

  /** A name without NUL characters reads back from its padded field. */
  lemma {:induction false} NameFieldRoundTrip(name: string)
    requires IsAscii(name) && NoNul(name)
    ensures NameOf(NameField(name)) == Some(name)
  {
    Pad4IsZeros(Ascii(name) + [0]);
    NameOfRoundTrip(name, Zeros(Pad4Len(|name| + 1) - (|name| + 1)));
  }

  /** A word sub-chunk with the expected tag and size 12, read back. */
  function ReadWord(tag: bytes, w: bytes): Option<int>
    requires |w| == SubChunkSize
  {
    if w[..4] == tag && ReadBE32(w[4..8]) == SubChunkSize then Some(ReadBE32(w[8..])) else None
  }

  lemma {:induction false} ReadWordChunk(tag: bytes, v: int)
    requires |tag| == 4 && 0 <= v < Two32
    ensures ReadWord(tag, WordChunk(tag, v)) == Some(v)
  {
    var w := WordChunk(tag, v);
    assert w[..4] == tag && w[4..8] == BE32(SubChunkSize) && w[8..] == BE32(v);
    BE32RoundTrip(SubChunkSize);
    BE32RoundTrip(v);
  }

  datatype Words = Words(size: int, offset: int, flags: int, mdat: int)

  /** The five word sub-chunks, in their fixed order, with `vers` 0. */
  function ReadWords(w: bytes): Option<Words>
    requires |w| == 5 * SubChunkSize
  {
    match (ReadWord(Sz32Tag, w[..12]), ReadWord(Of32Tag, w[12..24]), ReadWord(VersTag, w[24..36]),
           ReadWord(FlagTag, w[36..48]), ReadWord(MdatTag, w[48..]))
    case (Some(size), Some(offset), Some(vers), Some(flags), Some(mdat)) =>
      if vers == 0 then Some(Words(size, offset, flags, mdat)) else None
    case _ => None
  }

  lemma {:induction false} WordChunksParts(e: Entry, mdat: int)
    requires EntryOk(e) && 0 <= mdat < Two32
    ensures var w := WordChunks(e, mdat);
      w[..12] == WordChunk(Sz32Tag, e.size) && w[12..24] == WordChunk(Of32Tag, e.offset)
      && w[24..36] == WordChunk(VersTag, 0) && w[36..48] == WordChunk(FlagTag, e.flags)
      && w[48..] == WordChunk(MdatTag, mdat)
  {
  }

  lemma {:induction false} ReadWordsRoundTrip(e: Entry, mdat: int)
    requires EntryOk(e) && 0 <= mdat < Two32
    ensures ReadWords(WordChunks(e, mdat)) == Some(Words(e.size, e.offset, e.flags, mdat))
  {
    var w := WordChunks(e, mdat);
    WordChunksParts(e, mdat);
    ReadWordChunk(Sz32Tag, e.size);
    ReadWordChunk(Of32Tag, e.offset);
    ReadWordChunk(VersTag, 0);
    ReadWordChunk(FlagTag, e.flags);
    ReadWordChunk(MdatTag, mdat);
    ReadFiveWords(w, Some(e.size), Some(e.offset), Some(0), Some(e.flags), Some(mdat));
  }

  lemma {:induction false} ReadFiveWords(w: bytes, a: Option<int>, b: Option<int>, c: Option<int>, d: Option<int>, e: Option<int>)
    requires |w| == 5 * SubChunkSize
    requires ReadWord(Sz32Tag, w[..12]) == a && ReadWord(Of32Tag, w[12..24]) == b && ReadWord(VersTag, w[24..36]) == c
    requires ReadWord(FlagTag, w[36..48]) == d && ReadWord(MdatTag, w[48..]) == e
    requires a.Some? && b.Some? && c == Some(0) && d.Some? && e.Some?
    ensures ReadWords(w) == Some(Words(a.value, b.value, d.value, e.value))
  {
  }

  datatype Record = Record(entry: Entry, mdat: int)

  /** The payload of a `dire` entry: `type`, `fnam` and the five words. */
  function ReadDirePayload(p: bytes): Option<Record> {
    if |p| < 20 || p[..4] != TypeTag || ReadBE32(p[4..8]) != SubChunkSize || p[12..16] != FnamTag then None
    else
      var fnamSize := ReadBE32(p[16..20]);
      if fnamSize < 8 || SubChunkSize + fnamSize + 5 * SubChunkSize != |p| then None
      else match (NameOf(p[20..SubChunkSize + fnamSize]), ReadWords(p[SubChunkSize + fnamSize..]))
        case (Some(name), Some(w)) => Some(Record(Entry(p[8..12], name, w.size, w.offset, w.flags), w.mdat))
        case _ => None
  }

  lemma {:induction false} DirePayloadParts(e: Entry, mdat: int)
    requires EntryOk(e) && 0 <= mdat < Two32
    ensures var p := DirePayload(e, mdat);
      p[..4] == TypeTag && p[4..8] == BE32(SubChunkSize) && p[8..12] == e.ftype && p[12..16] == FnamTag
      && p[16..20] == BE32(8 + NameLen(e.name)) && p[20..20 + NameLen(e.name)] == NameField(e.name)
      && p[20 + NameLen(e.name)..] == WordChunks(e, mdat)
  {
    var t := TypeChunk(e.ftype);
    var f := FnamChunk(e.name);
    var p := DirePayload(e, mdat);
    assert p[..12] == t && p[12..20 + NameLen(e.name)] == f;
    assert p[..4] == t[..4] && p[4..8] == t[4..8] && p[8..12] == t[8..12];
    assert p[12..16] == f[..4] && p[16..20] == f[4..8] && p[20..20 + NameLen(e.name)] == f[8..];
  }

  /** `_make_dire` reads back to the entry it was made from, when the name
      has no NUL. */
  lemma {:induction false} DirePayloadRoundTrip(e: Entry, mdat: int)
    requires EntryOk(e) && NoNul(e.name) && 0 <= mdat < Two32
    ensures ReadDirePayload(DirePayload(e, mdat)) == Some(Record(e, mdat))
  {
    DirePayloadParts(e, mdat);
    BE32RoundTrip(SubChunkSize);
    BE32RoundTrip(8 + NameLen(e.name));
    NameFieldRoundTrip(e.name);
    ReadWordsRoundTrip(e, mdat);
  }

  /** The `dire` chunks of a directory, one after another until the bytes
      run out; each chunk's size word says where the next one starts. */
  function ReadDires(d: bytes): Option<seq<Record>>
    decreases |d|
  {
    if |d| == 0 then Some([])
    else if |d| < 8 || d[..4] != DireTag then None
    else
      var n := ReadBE32(d[4..8]);
      if n < 8 || n > |d| then None
      else match (ReadDirePayload(d[8..n]), ReadDires(d[n..]))
        case (Some(rec), Some(recs)) => Some([rec] + recs)
        case _ => None
  }

  /** The records a directory is made from: every entry with the shared stamp. */
  function Records(es: seq<Entry>, mdat: int): (r: seq<Record>)
    ensures |r| == |es|
  {
    if |es| == 0 then [] else [Record(es[0], mdat)] + Records(es[1..], mdat)
  }

  lemma {:induction false} RecordsAt(es: seq<Entry>, mdat: int)
    ensures forall k :: 0 <= k < |es| ==> Records(es, mdat)[k] == Record(es[k], mdat)
    decreases |es|
  {
    if |es| > 0 {
      RecordsAt(es[1..], mdat);
    }
  }

  predicate NamesNoNul(es: seq<Entry>) {
    forall k :: 0 <= k < |es| ==> NoNul(es[k].name)
  }

  lemma {:induction false} DireChunkParts(e: Entry, mdat: int, rest: bytes)
    requires EntryOk(e) && 0 <= mdat < Two32
    ensures var d := DireChunk(e, mdat) + rest;
      d[..4] == DireTag && d[4..8] == BE32(DireLen(e.name)) && d[8..DireLen(e.name)] == DirePayload(e, mdat)
      && d[DireLen(e.name)..] == rest
  {
    var c := DireChunk(e, mdat);
    var d := c + rest;
    assert d[..DireLen(e.name)] == c;
    assert d[..4] == c[..4] && d[4..8] == c[4..8] && d[8..DireLen(e.name)] == c[8..];
  }

  /** `all_dires` reads back entry by entry. */
  lemma {:induction false} DiresRoundTrip(es: seq<Entry>, mdat: int)
    requires AllEntriesOk(es) && NamesNoNul(es) && 0 <= mdat < Two32
    ensures ReadDires(Dires(es, mdat)) == Some(Records(es, mdat))
    decreases |es|
  {
    if |es| > 0 {
      DiresRoundTrip(es[1..], mdat);
      DireChunkRead(es[0], mdat, Dires(es[1..], mdat), Records(es[1..], mdat));
    }
  }

  /** One `dire` chunk in front of a readable directory reads back too. */
  lemma {:induction false} DireChunkRead(e: Entry, mdat: int, rest: bytes, recs: seq<Record>)
    requires EntryOk(e) && NoNul(e.name) && 0 <= mdat < Two32 && ReadDires(rest) == Some(recs)
    ensures ReadDires(DireChunk(e, mdat) + rest) == Some([Record(e, mdat)] + recs)
  {
    var n := DireLen(e.name);
    DireChunkParts(e, mdat, rest);
    BE32RoundTrip(n);
    DirePayloadRoundTrip(e, mdat);
    ReadDiresCons(DireChunk(e, mdat) + rest, n, Record(e, mdat), recs);
  }

  lemma {:induction false} ReadDiresCons(d: bytes, n: int, rec: Record, recs: seq<Record>)
    requires 8 <= n <= |d| && d[..4] == DireTag && ReadBE32(d[4..8]) == n
    requires ReadDirePayload(d[8..n]) == Some(rec) && ReadDires(d[n..]) == Some(recs)
    ensures ReadDires(d) == Some([rec] + recs)
  {
  }

  /** The device chunk and the payload of a container. */
  datatype Framed = Framed(chunk: bytes, payload: bytes)

  /** The header checks: magic, version 4, `meta` holding 7, and a `ptch`
      length equal to what follows the header. */
  function ReadHeader(out: bytes): Option<Framed> {
    if |out| < 32 || out[..4] != AmpfTag || ReadLE32(out[4..8]) != 4 || out[12..16] != MetaTag
       || ReadLE32(out[16..20]) != 4 || ReadLE32(out[20..24]) != 7 || out[24..28] != PtchTag
       || ReadLE32(out[28..32]) != |out| - 32
    then None
    else Some(Framed(out[8..12], out[32..]))
  }

  lemma {:induction false} HeaderParts(chunk: bytes, p: bytes)
    requires |chunk| == 4 && |p| < Two32
    ensures var out := Header(chunk, |p|) + p;
      out[..4] == AmpfTag && out[4..8] == LE32(4) && out[8..12] == chunk && out[12..16] == MetaTag
      && out[16..20] == LE32(4) && out[20..24] == LE32(7) && out[24..28] == PtchTag
      && out[28..32] == LE32(|p|) && out[32..] == p
  {
    var h := Header(chunk, |p|);
    var out := h + p;
    assert out[..32] == h;
    assert out[..4] == h[..4] && out[4..8] == h[4..8] && out[8..12] == h[8..12] && out[12..16] == h[12..16];
    assert out[16..20] == h[16..20] && out[20..24] == h[20..24] && out[24..28] == h[24..28] && out[28..32] == h[28..32];
  }

  /** The header reads back to its chunk id and the payload it frames. */
  lemma {:induction false} HeaderRoundTrip(chunk: bytes, p: bytes)
    requires |chunk| == 4 && |p| < Two32
    ensures ReadHeader(Header(chunk, |p|) + p) == Some(Framed(chunk, p))
  {
    HeaderParts(chunk, p);
    LE32RoundTrip(4);
    LE32RoundTrip(7);
    LE32RoundTrip(|p|);
  }

  /** The content size the context declares, once its tag, its own size
      and the zero word check out. */
  function ReadContext(p: bytes): Option<int> {
    if |p| < ContextSize || p[..4] != MxTag || ReadBE32(p[4..8]) != ContextSize || ReadBE32(p[8..12]) != 0 then None
    else Some(ReadBE32(p[12..16]))
  }

  lemma {:induction false} ContextParts(p: bytes, contentSize: int, rest: bytes)
    requires 0 <= contentSize < Two32 && p == MxContext(contentSize) + rest
    ensures |p| >= ContextSize && p[..4] == MxTag && p[4..8] == BE32(ContextSize) && p[8..12] == BE32(0)
    ensures p[12..16] == BE32(contentSize)
  {
    var m := MxContext(contentSize);
    assert p[..16] == m;
    assert p[..4] == m[..4] && p[4..8] == m[4..8] && p[8..12] == m[8..12] && p[12..16] == m[12..16];
  }

  lemma {:induction false} ContextRoundTrip(p: bytes, contentSize: int, rest: bytes)
    requires 0 <= contentSize < Two32 && p == MxContext(contentSize) + rest
    ensures ReadContext(p) == Some(contentSize)
  {
    ContextParts(p, contentSize, rest);
    BE32RoundTrip(ContextSize);
    BE32RoundTrip(0);
    BE32RoundTrip(contentSize);
  }

  /** A `dlst` chunk whose size word covers exactly the given bytes. */
  function ReadDlst(d: bytes): Option<seq<Record>> {
    if |d| < 8 || d[..4] != DlstTag || ReadBE32(d[4..8]) != |d| then None
    else ReadDires(d[8..])
  }

  lemma {:induction false} DlstRoundTrip(dl: bytes, dires: bytes)
    requires 8 + |dires| < Two32 && dl == DlstTag + BE32(8 + |dires|) + dires
    ensures ReadDlst(dl) == ReadDires(dires)
  {
    assert dl[..4] == DlstTag && dl[4..8] == BE32(8 + |dires|) && dl[8..] == dires;
    BE32RoundTrip(8 + |dires|);
  }


  /** The directory of a payload: the context's content size puts its start
      16 bytes before the end of the content, and its size word runs it to
      the end of the payload. */
  function ReadPayloadDir(p: bytes): Option<seq<Record>> {
    match ReadContext(p)
    case None => None
    case Some(contentSize) =>
      if contentSize < DlstInContent || ContextSize + contentSize > |p| then None
      else ReadDlst(p[ContextSize + contentSize - DlstInContent..])
  }

  lemma {:induction false} PayloadDirAt(p: bytes, m: bytes, e: bytes, dl: bytes)
    requires |m| == ContextSize && p == m + e + dl && |dl| >= DlstInContent
    requires ReadContext(p) == Some(|e| + DlstInContent)
    ensures ReadPayloadDir(p) == ReadDlst(dl)
  {
    assert p[ContextSize + |e|..] == dl;
  }

  /** The bytes every record points at, counted from the payload start;
      nothing when one points outside the payload. */
  function Slices(p: bytes, recs: seq<Record>): (r: Option<seq<bytes>>)
    ensures r.Some? ==> |r.value| == |recs|
  {
    if |recs| == 0 then Some([])
    else
      var e := recs[0].entry;
      if e.offset < 0 || e.size < 0 || e.offset + e.size > |p| then None
      else match Slices(p, recs[1..])
        case None => None
        case Some(rest) => Some([p[e.offset..e.offset + e.size]] + rest)
  }

  /** Entries that point at the data are read back by their slices. */
  lemma {:induction false} SlicesFound(p: bytes, es: seq<Entry>, mdat: int, datas: seq<bytes>)
    requires |es| == |datas| && PointsAt(p, es, datas)
    ensures Slices(p, Records(es, mdat)) == Some(datas)
    decreases |es|
  {
    if |es| > 0 {
      assert PointsAt(p, es[1..], datas[1..]) by {
        forall k | 0 <= k < |es| - 1
          ensures 0 <= es[1..][k].offset && 0 <= es[1..][k].size && es[1..][k].offset + es[1..][k].size <= |p|
          ensures p[es[1..][k].offset..es[1..][k].offset + es[1..][k].size] == datas[1..][k]
        {
          assert es[1..][k] == es[k + 1] && datas[1..][k] == datas[k + 1];
        }
      }
      SlicesFound(p, es[1..], mdat, datas[1..]);
      var recs := Records(es, mdat);
      assert recs[0] == Record(es[0], mdat) && recs[1..] == Records(es[1..], mdat);
      assert datas == [datas[0]] + datas[1..];
    }
  }

  /** What a container holds, as a reader recovers it. */
  datatype Unwrapped = Unwrapped(chunk: bytes, json: bytes, filename: string, resources: seq<Resource>, mdat: int)

  function ResourcesOf(recs: seq<Record>, datas: seq<bytes>): (r: seq<Resource>)
    requires |recs| == |datas|
    ensures |r| == |recs| && forall k :: 0 <= k < |recs| ==> r[k] == Resource(recs[k].entry.name, datas[k])
  {
    seq(|recs|, k requires 0 <= k < |recs| => Resource(recs[k].entry.name, datas[k]))
  }

  /** Reading a container: the header, the directory, then the bytes each
      entry points at; the first entry is the patcher. */
  function Unwrap(out: bytes): Option<Unwrapped> {
    match ReadHeader(out)
    case None => None
    case Some(f) =>
      match ReadPayloadDir(f.payload)
      case None => None
      case Some(recs) =>
        if |recs| == 0 then None
        else match Slices(f.payload, recs)
          case None => None
          case Some(datas) =>
            Some(Unwrapped(f.chunk, datas[0], recs[0].entry.name, ResourcesOf(recs[1..], datas[1..]), recs[0].mdat))
  }

  /** Everything the entries point at, in directory order. */
  function AllData(json: bytes, rs: seq<Resource>): (r: seq<bytes>)
    ensures |r| == |rs| + 1 && forall k :: 0 <= k <= |rs| ==> r[k] == EntryData(json, rs, k)
  {
    seq(|rs| + 1, k requires 0 <= k <= |rs| => EntryData(json, rs, k))
  }

  /** The directory of a container reads back to its entries. */
  lemma {:induction false} DlstOfRoundTrip(json: bytes, filename: string, rs: seq<Resource>, mdat: int)
    requires Fits(json, filename, rs) && NamesNoNul(Entries(json, filename, rs)) && 0 <= mdat < Two32
    ensures ReadDlst(DlstOf(json, filename, rs, mdat)) == Some(Records(Entries(json, filename, rs), mdat))
  {
    var es := Entries(json, filename, rs);
    EntriesOk(json, filename, rs);
    var dl := DlstOf(json, filename, rs, mdat);
    assert dl == Dlst(es, mdat);
    DlstRoundTrip(dl, Dires(es, mdat));
    DiresRoundTrip(es, mdat);
  }

  /** The directory of a payload reads back to its entries. */
  lemma {:induction false} PayloadDirOf(json: bytes, filename: string, rs: seq<Resource>, mdat: int)
    requires Fits(json, filename, rs) && NamesNoNul(Entries(json, filename, rs)) && 0 <= mdat < Two32
    ensures ReadPayloadDir(Layout(json, filename, rs, mdat)) == Some(Records(Entries(json, filename, rs), mdat))
  {
    DlstOfRoundTrip(json, filename, rs, mdat);
    LayoutDir(json, filename, rs, mdat);
  }

  /** The context of a payload leads a reader to its directory. */
  lemma {:induction false} LayoutDir(json: bytes, filename: string, rs: seq<Resource>, mdat: int)
    requires Fits(json, filename, rs) && 0 <= mdat < Two32
    ensures ReadPayloadDir(Layout(json, filename, rs, mdat)) == ReadDlst(DlstOf(json, filename, rs, mdat))
  {
    PayloadDirOfLayout(Layout(json, filename, rs, mdat), |json| + DataLen(rs) + DlstInContent,
                       MxContext(|json| + DataLen(rs) + DlstInContent), Embedded(json, rs), DlstOf(json, filename, rs, mdat));
  }

  lemma {:induction false} PayloadDirOfLayout(p: bytes, n: int, m: bytes, e: bytes, dl: bytes)
    requires n == |e| + DlstInContent && n < Two32 && m == MxContext(n) && |dl| >= DlstInContent
    requires p == m + e + dl
    ensures ReadPayloadDir(p) == ReadDlst(dl)
  {
    assert p == m + (e + dl);
    ContextRoundTrip(p, n, e + dl);
    PayloadDirAt(p, m, e, dl);
  }

  /** Every entry of a finished container points at the bytes it describes. */
  lemma {:induction false} WrapSlices(json: bytes, deviceType: string, filename: string, rs: seq<Resource>, now: int, out: bytes)
    requires WrapAmpf(json, deviceType, filename, rs, now) == Ok(out)
    ensures |out| >= 32 && Slices(out[32..], Records(Entries(json, filename, rs), MdatStamp(now))) == Some(AllData(json, rs))
  {
    WrapOffsets(json, deviceType, filename, rs, now, out);
    SlicesFound(out[32..], Entries(json, filename, rs), MdatStamp(now), AllData(json, rs));
  }

  /** Names without NUL characters give a directory without them. */
  lemma {:induction false} EntriesNoNul(json: bytes, filename: string, rs: seq<Resource>)
    requires NoNul(filename) && forall k :: 0 <= k < |rs| ==> NoNul(rs[k].name)
    ensures NamesNoNul(Entries(json, filename, rs))
  {
    var es := Entries(json, filename, rs);
    ResourceEntriesAt(rs, ContextSize + |json|);
    assert forall k :: 0 < k < |es| ==> es[k] == ResourceEntries(rs, ContextSize + |json|)[k - 1];
  }

  /** The records and the data of a container name the patcher first and
      then give back every resource. */
  lemma {:induction false} ResourcesBack(json: bytes, filename: string, rs: seq<Resource>, mdat: int)
    ensures var recs := Records(Entries(json, filename, rs), mdat);
      var datas := AllData(json, rs);
      |recs| == |datas| && datas[0] == json && recs[0] == Record(MainEntry(json, filename), mdat)
      && ResourcesOf(recs[1..], datas[1..]) == rs
  {
    var es := Entries(json, filename, rs);
    var recs := Records(es, mdat);
    var datas := AllData(json, rs);
    RecordsAt(es, mdat);
    ResourceEntriesAt(rs, ContextSize + |json|);
    var back := ResourcesOf(recs[1..], datas[1..]);
    forall k | 0 <= k < |rs| ensures back[k] == rs[k] {
      assert recs[1..][k] == Record(es[k + 1], mdat) && datas[1..][k] == rs[k].data;
      assert es[k + 1] == ResourceEntries(rs, ContextSize + |json|)[k];
    }
  }

  /** Reading succeeds once each stage does, and assembles what the stages
      found. */
  lemma {:induction false} UnwrapFrom(out: bytes, f: Framed, recs: seq<Record>, datas: seq<bytes>)
    requires ReadHeader(out) == Some(f) && ReadPayloadDir(f.payload) == Some(recs) && |recs| > 0
    requires Slices(f.payload, recs) == Some(datas)
    ensures |datas| == |recs|
    ensures Unwrap(out) == Some(Unwrapped(f.chunk, datas[0], recs[0].entry.name, ResourcesOf(recs[1..], datas[1..]), recs[0].mdat))
  {
  }

  /** `wrap_ampf` loses nothing: a reader gets back the device chunk id,
      the patcher JSON, the file name, every resource in order, and the
      stamp, provided no name holds a NUL character. */
  lemma {:induction false} UnwrapWrap(json: bytes, deviceType: string, filename: string, rs: seq<Resource>, now: int, out: bytes)
    requires WrapAmpf(json, deviceType, filename, rs, now) == Ok(out)
    requires NoNul(filename) && forall k :: 0 <= k < |rs| ==> NoNul(rs[k].name)
    ensures Unwrap(out) == Some(Unwrapped(ChunkId(deviceType), json, filename, rs, MdatStamp(now)))
  {
    var mdat := MdatStamp(now);
    var recs := Records(Entries(json, filename, rs), mdat);
    var layout := Layout(json, filename, rs, mdat);
    WrapLayout(json, deviceType, filename, rs, now, out);
    HeaderRoundTrip(ChunkId(deviceType), layout);
    EntriesNoNul(json, filename, rs);
    PayloadDirOf(json, filename, rs, mdat);
    WrapSlices(json, deviceType, filename, rs, now, out);
    assert out[32..] == layout;
    ResourcesBack(json, filename, rs, mdat);
    UnwrapFrom(out, Framed(ChunkId(deviceType), layout), recs, AllData(json, rs));
  }
}
