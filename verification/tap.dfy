/** SIMH tape images: what the readers make of what the writers write. */
module TapImages {
  import opened Blocks

  const EOM := 0xFFFF_FFFF
  const LIMIT := 0x1000_0000
  const PRIVATE := 0x7000_0000

  type Payload = seq<Byte>
  type TapeFile = seq<Payload>

  /** struct.pack("<I", n). */
  function Le32(n: nat): (b: seq<Byte>)
    requires n <= EOM
    ensures |b| == 4
  {
    [(n % 256) as Byte, (n / 256 % 256) as Byte, (n / 65536 % 256) as Byte, (n / 16777216) as Byte]
  }

  function Marker(b: seq<Byte>, at: nat): (n: nat)
    requires at + 4 <= |b|
    ensures n <= EOM
  {
    b[at] as nat + b[at + 1] as nat * 256 + b[at + 2] as nat * 65536 + b[at + 3] as nat * 16777216
  }

  /** A marker's bytes, least significant first. */
  lemma MarkerLayout(n: nat, b: seq<Byte>, at: nat)
    requires n <= EOM && at + 4 <= |b|
    ensures var m := Le32(n); m[0] == n % 256 && m[1] == n / 256 % 256 && m[2] == n / 65536 % 256 && m[3] == n / 16777216
    ensures Marker(b, at) == b[at] as int + 256 * (b[at + 1] as int + 256 * (b[at + 2] as int + 256 * b[at + 3] as int))
  {
  }

  lemma MarkerRead(b: seq<Byte>, at: nat, n: nat)
    requires n <= EOM && at + 4 <= |b| && b[at..at + 4] == Le32(n)
    ensures Marker(b, at) == n
  {
    var m := b[at..at + 4];
    assert m[0] == b[at] && m[1] == b[at + 1] && m[2] == b[at + 2] && m[3] == b[at + 3];
    Digits(n);
  }

  lemma Digits(n: nat)
    ensures n % 256 + n / 256 % 256 * 256 + n / 65536 % 256 * 65536 + n / 16777216 * 16777216 == n
  {
    assert n / 65536 == n / 256 / 256;
    assert n / 16777216 == n / 65536 / 256;
  }

  /** What stands at one place of an image. */
  datatype Token = Mark | End | Private(n: nat) | Record(payload: Payload) | Bad

  function Pad(n: nat): seq<Byte> {
    if n % 2 == 1 then [0] else []
  }

  /** write_record. */
  function WriteRecord(p: Payload): (b: seq<Byte>)
    requires |p| <= EOM
  {
    Le32(|p|) + p + Pad(|p|) + Le32(|p|)
  }

  /** The token at an offset and the offset after it, as both readers find it. */
  function Next(data: seq<Byte>, off: nat): (r: (Token, nat))
    requires off <= |data|
    ensures r.0 != Bad && r.0 != End ==> off < r.1 <= |data|
  {
    if off + 4 > |data| then (End, off)
    else
      var m := Marker(data, off);
      if m == EOM then (End, off + 4)
      else if m == 0 then (Mark, off + 4)
      else if m / LIMIT == PRIVATE / LIMIT then (Private(m % LIMIT), off + 4)
      else if m / LIMIT != 0 then (Bad, off)
      else
        var end := off + 4 + m;
        var tail := end + m % 2;
        if end > |data| || tail + 4 > |data| || Marker(data, tail) != m then (Bad, off)
        else (Record(data[off + 4..end]), tail + 4)
  }

  datatype Result<T> = Ok(value: T) | Error

  /** read_tap from an offset on, with the files and records read so far. */
  function Decode(data: seq<Byte>, off: nat, files: seq<TapeFile>, records: TapeFile): (r: Result<seq<TapeFile>>)
    requires off <= |data|
    decreases |data| - off
  {
    var (t, next) := Next(data, off);
    match t
    case End => if records == [] then Ok(files) else Error
    case Mark => Decode(data, next, files + [records], [])
    case Record(p) => Decode(data, next, files, records + [p])
    case _ => Error
  }

  method ReadTap(data: seq<Byte>) returns (r: Result<seq<TapeFile>>)
    ensures r == Decode(data, 0, [], [])
  {
    var files: seq<TapeFile>, records: TapeFile, off := [], [], 0;
    while true
      invariant off <= |data| && Decode(data, 0, [], []) == Decode(data, off, files, records)
      decreases |data| - off
    {
      var (t, next) := Next(data, off);
      match t {
        case End => return if records == [] then Ok(files) else Error;
        case Mark => files, records, off := files + [records], [], next;
        case Record(p) => records, off := records + [p], next;
        case _ => return Error;
      }
    }
  }

  function WriteFile(records: TapeFile): (b: seq<Byte>)
    requires forall i :: 0 <= i < |records| ==> |records[i]| <= EOM
  {
    if records == [] then Le32(0) else WriteRecord(records[0]) + WriteFile(records[1..])
  }

  ghost predicate Writable(files: seq<TapeFile>) {
    forall i :: 0 <= i < |files| ==> forall j :: 0 <= j < |files[i]| ==> |files[i][j]| <= EOM
  }

  /** write_tap. */
  function WriteTap(files: seq<TapeFile>): (b: seq<Byte>)
    requires Writable(files)
  {
    if files == [] then Le32(EOM) else WriteFile(files[0]) + WriteTap(files[1..])
  }

  /** Image data from an offset on is s and then whatever follows. */
  ghost predicate Holds(data: seq<Byte>, off: nat, s: seq<Byte>) {
    off + |s| <= |data| && data[off..off + |s|] == s
  }

  lemma HoldsParts(data: seq<Byte>, off: nat, a: seq<Byte>, b: seq<Byte>)
    requires Holds(data, off, a + b)
    ensures Holds(data, off, a) && Holds(data, off + |a|, b)
  {
    var s := data[off..off + |a + b|];
    assert s[..|a|] == a && s[|a|..] == b;
    assert data[off..off + |a|] == s[..|a|] && data[off + |a|..off + |a| + |b|] == s[|a|..];
  }

  lemma MarkNext(data: seq<Byte>, off: nat, m: nat)
    requires m <= EOM && Holds(data, off, Le32(m))
    ensures m == 0 ==> Next(data, off) == (Mark, off + 4)
    ensures m == EOM ==> Next(data, off).0 == End
    ensures m / LIMIT == 7 ==> Next(data, off) == (Private(m % LIMIT), off + 4)
    ensures m / LIMIT != 0 && m / LIMIT != 7 && m != EOM ==> Next(data, off).0 == Bad
  {
    hide Le32, Marker;
    MarkerRead(data, off, m);
  }

  lemma RecordParts(data: seq<Byte>, off: nat, p: Payload)
    requires |p| <= EOM && Holds(data, off, WriteRecord(p))
    ensures Holds(data, off, Le32(|p|)) && Holds(data, off + 4, p) && Holds(data, off + 4 + |p| + |p| % 2, Le32(|p|))
    ensures |WriteRecord(p)| == 8 + |p| + |p| % 2
  {
    hide Le32, Holds;
    var n := |p|;
    HoldsParts(data, off, Le32(n) + p + Pad(n), Le32(n));
    HoldsParts(data, off, Le32(n) + p, Pad(n));
    HoldsParts(data, off, Le32(n), p);
  }

  /** A record's bytes: its length, the payload, a zero after an odd one, and the length again. */
  lemma RecordLayout(p: Payload)
    requires |p| <= EOM
    ensures var b := WriteRecord(p);
      && |b| == 8 + |p| + |p| % 2 && b[..4] == Le32(|p|) && b[4..4 + |p|] == p && (|p| % 2 == 1 ==> b[4 + |p|] == 0)
      && b[|b| - 4..] == Le32(|p|)
  {
    hide Le32;
  }

  /** The bytes that end a file and a tape, and those that begin a track. */
  lemma MarksAre(tracks: seq<seq<TapeFile>>, from: nat)
    requires from < |tracks| <= 65536 && forall t :: 0 <= t < |tracks| ==> Writable(tracks[t])
    ensures WriteFile([]) == [0, 0, 0, 0] && WriteTap([]) == [255, 255, 255, 255]
    ensures |WriteSadie(tracks, from)| >= 4 && WriteSadie(tracks, from)[..4] == [from % 256, from / 256, 0, 112]
  {
    hide WriteFiles;
  }

  /** A record that is cut short, or whose lengths differ, is an error. */
  lemma RecordBad(data: seq<Byte>, off: nat)
    requires off + 4 <= |data| && 0 < Marker(data, off) < LIMIT
    ensures var m := Marker(data, off); var tail := off + 4 + m + m % 2;
      Next(data, off).0.Bad? <==> tail + 4 > |data| || Marker(data, tail) != m
  {
    hide Marker;
  }

  /** A record of 1 to 2^28 - 1 bytes, odd lengths included, is read back. */
  lemma RecordNext(data: seq<Byte>, off: nat, p: Payload)
    requires 0 < |p| < LIMIT && Holds(data, off, WriteRecord(p))
    ensures Next(data, off) == (Record(p), off + |WriteRecord(p)|)
  {
    hide Le32, Marker, WriteRecord;
    RecordParts(data, off, p);
    MarkerRead(data, off, |p|);
    MarkerRead(data, off + 4 + |p| + |p| % 2, |p|);
  }

  /** The records of a file that can be read back. */
  ghost predicate Readable(records: TapeFile) {
    forall j :: 0 <= j < |records| ==> 0 < |records[j]| < LIMIT
  }

  lemma {:induction false} FileDecoded(data: seq<Byte>, off: nat, records: TapeFile, files: seq<TapeFile>, done: TapeFile)
    requires Readable(records) && Holds(data, off, WriteFile(records))
    ensures off + |WriteFile(records)| <= |data|
    ensures Decode(data, off, files, done) == Decode(data, off + |WriteFile(records)|, files + [done + records], [])
    decreases |records|
  {
    hide Next, WriteRecord, Holds;
    if records == [] {
      MarkNext(data, off, 0);
      HoldsBound(data, off, WriteFile(records));
      assert done + records == done;
    } else {
      var p, rest := records[0], records[1..];
      HoldsParts(data, off, WriteRecord(p), WriteFile(rest));
      HoldsBound(data, off, WriteRecord(p));
      RecordNext(data, off, p);
      FileDecoded(data, off + |WriteRecord(p)|, rest, files, done + [p]);
      assert done + [p] + rest == done + records;
    }
  }

  lemma HoldsBound(data: seq<Byte>, off: nat, s: seq<Byte>)
    requires Holds(data, off, s)
    ensures off + |s| <= |data|
  {
  }

  lemma {:induction false} FilesDecoded(data: seq<Byte>, off: nat, fs: seq<TapeFile>, files: seq<TapeFile>)
    requires (forall i :: 0 <= i < |fs| ==> Readable(fs[i])) && Writable(fs) && Holds(data, off, WriteTap(fs))
    ensures off <= |data| && Decode(data, off, files, []) == Ok(files + fs)
    decreases |fs|
  {
    hide Next, WriteFile, Holds, Readable;
    HoldsBound(data, off, WriteTap(fs));
    if fs == [] {
      MarkNext(data, off, EOM);
      assert files + fs == files;
    } else {
      HoldsParts(data, off, WriteFile(fs[0]), WriteTap(fs[1..]));
      FileDecoded(data, off, fs[0], files, []);
      assert [] + fs[0] == fs[0];
      FilesDecoded(data, off + |WriteFile(fs[0])|, fs[1..], files + [fs[0]]);
      assert files + [fs[0]] + fs[1..] == files + fs;
    }
  }

  /** Files read so far stay. */
  lemma {:induction false} DecodeKeeps(data: seq<Byte>, off: nat, files: seq<TapeFile>, records: TapeFile)
    requires off <= |data| && Decode(data, off, files, records).Ok?
    ensures var r := Decode(data, off, files, records).value;
      |files| <= |r| && r[..|files|] == files
    decreases |data| - off
  {
    hide Next;
    var (t, next) := Next(data, off);
    if t.Mark? {
      DecodeKeeps(data, next, files + [records], []);
      var r := Decode(data, off, files, records).value;
      assert r[..|files|] == r[..|files| + 1][..|files|];
    } else if t.Record? {
      DecodeKeeps(data, next, files, records + [t.payload]);
    }
  }

  /** A record that cannot be read back spoils its file. */
  lemma {:induction false} FileSpoilt(data: seq<Byte>, off: nat, records: TapeFile, files: seq<TapeFile>, done: TapeFile)
    requires (forall j :: 0 <= j < |records| ==> |records[j]| <= EOM) && !Readable(records) && Holds(data, off, WriteFile(records))
    ensures off <= |data|
    ensures var r := Decode(data, off, files, done);
      r.Ok? ==> |r.value| <= |files| || r.value[|files|] != done + records
    decreases |records|
  {
    hide Next, WriteRecord, Holds;
    var p, rest := records[0], records[1..];
    HoldsParts(data, off, WriteRecord(p), WriteFile(rest));
    HoldsBound(data, off, WriteRecord(p));
    if 0 < |p| < LIMIT {
      RecordNext(data, off, p);
      FileSpoilt(data, off + |WriteRecord(p)|, rest, files, done + [p]);
      assert done + [p] + rest == done + records;
    } else {
      RecordParts(data, off, p);
      MarkNext(data, off, |p|);
      if p == [] {
        EmptySpoils(data, off, records, files, done);
      }
    }
  }

  lemma EmptySpoils(data: seq<Byte>, off: nat, records: TapeFile, files: seq<TapeFile>, done: TapeFile)
    requires off + 4 <= |data| && Next(data, off) == (Mark, off + 4) && records != []
    ensures var r := Decode(data, off, files, done);
      r.Ok? ==> |r.value| <= |files| || r.value[|files|] != done + records
  {
    var r := Decode(data, off, files, done);
    if r.Ok? {
      DecodeKeeps(data, off + 4, files + [done], []);
      assert r.value[|files|] == r.value[..|files| + 1][|files|] == done;
    }
  }

  lemma {:induction false} FilesSpoilt(data: seq<Byte>, off: nat, fs: seq<TapeFile>, files: seq<TapeFile>)
    requires Writable(fs) && !(forall i :: 0 <= i < |fs| ==> Readable(fs[i])) && Holds(data, off, WriteTap(fs))
    ensures off <= |data| && Decode(data, off, files, []) != Ok(files + fs)
    decreases |fs|
  {
    hide Next, WriteFile, Holds, Readable;
    HoldsBound(data, off, WriteTap(fs));
    HoldsParts(data, off, WriteFile(fs[0]), WriteTap(fs[1..]));
    if Readable(fs[0]) {
      FileDecoded(data, off, fs[0], files, []);
      assert [] + fs[0] == fs[0];
      FilesSpoilt(data, off + |WriteFile(fs[0])|, fs[1..], files + [fs[0]]);
      assert files + [fs[0]] + fs[1..] == files + fs;
    } else {
      FileSpoilt(data, off, fs[0], files, []);
      assert [] + fs[0] == fs[0] && (files + fs)[|files|] == fs[0];
    }
  }

  /** Reading back what write_tap wrote returns the same files if and only if every record has 1 to 2^28 - 1 bytes. */
  lemma RoundTrip(files: seq<TapeFile>)
    requires Writable(files)
    ensures Decode(WriteTap(files), 0, [], []) == Ok(files) <==> forall i :: 0 <= i < |files| ==> Readable(files[i])
  {
    hide Next, WriteFile, Readable, Decode;
    var data := WriteTap(files);
    assert Holds(data, 0, data) by { assert data[0..|data|] == data; }
    assert [] + files == files;
    if forall i :: 0 <= i < |files| ==> Readable(files[i]) {
      FilesDecoded(data, 0, files, []);
    } else {
      FilesSpoilt(data, 0, files, []);
    }
  }

  /** write_record, appending to the output. */
  method WriteRecordTo(out0: seq<Byte>, p: Payload) returns (out: seq<Byte>)
    requires |p| <= EOM
    ensures out == out0 + WriteRecord(p)
  {
    hide Le32;
    out := out0 + Le32(|p|);
    out := out + p;
    if |p| % 2 == 1 {
      out := out + [0];
    }
    out := out + Le32(|p|);
  }

  method WriteFileTo(out0: seq<Byte>, records: TapeFile) returns (out: seq<Byte>)
    requires forall i :: 0 <= i < |records| ==> |records[i]| <= EOM
    ensures out == out0 + WriteFile(records)
  {
    hide WriteRecord, Le32;
    out := out0;
    for j := 0 to |records|
      invariant out + WriteFile(records[j..]) == out0 + WriteFile(records)
    {
      assert records[j..][1..] == records[j + 1..];
      ghost var was := out;
      out := WriteRecordTo(out, records[j]);
      assert was + (WriteRecord(records[j]) + WriteFile(records[j + 1..])) == out + WriteFile(records[j + 1..]);
    }
    assert records[|records|..] == [];
    out := out + Le32(0);
  }

  /** write_tap. */
  method WriteTapTo(files: seq<TapeFile>) returns (out: seq<Byte>)
    requires Writable(files)
    ensures out == WriteTap(files)
  {
    hide WriteFile, Le32;
    out := [];
    for i := 0 to |files|
      invariant out + WriteTap(files[i..]) == WriteTap(files)
    {
      assert files[i..][1..] == files[i + 1..];
      ghost var was := out;
      out := WriteFileTo(out, files[i]);
      assert was + (WriteFile(files[i]) + WriteTap(files[i + 1..])) == out + WriteTap(files[i + 1..]);
    }
    assert files[|files|..] == [];
    out := out + Le32(EOM);
  }

  /** What read_sadie_tap keeps: the tracks finished, the current one (or -1), and its files and records. */
  datatype Sadie = Sadie(tracks: map<nat, seq<TapeFile>>, cur: int, files: seq<TapeFile>, records: TapeFile)

  /** The track numbers are 0, 1, and so on without a gap. */
  function Contiguous(tracks: map<nat, seq<TapeFile>>): Result<map<nat, seq<TapeFile>>> {
    if forall k :: k in tracks ==> k < |tracks| then Ok(tracks) else Error
  }

  function Filed(s: Sadie): map<nat, seq<TapeFile>> {
    if s.cur >= 0 then s.tracks[s.cur := s.files] else s.tracks
  }

  function DecodeSadie(data: seq<Byte>, off: nat, s: Sadie): (r: Result<map<nat, seq<TapeFile>>>)
    requires off <= |data|
    decreases |data| - off
  {
    if off + 4 > |data| then Contiguous(s.tracks)
    else
      var (t, next) := Next(data, off);
      match t
      case End => if s.cur < 0 || s.records != [] then Error else Contiguous(Filed(s))
      case Private(n) =>
        if s.records != [] || n in Filed(s) then Error
        else DecodeSadie(data, next, Sadie(Filed(s), n, [], []))
      case Mark => if s.cur < 0 then Error else DecodeSadie(data, next, Sadie(s.tracks, s.cur, s.files + [s.records], []))
      case Record(p) => if s.cur < 0 then Error else DecodeSadie(data, next, Sadie(s.tracks, s.cur, s.files, s.records + [p]))
      case Bad => Error
  }

  method ReadSadieTap(data: seq<Byte>) returns (r: Result<map<nat, seq<TapeFile>>>)
    ensures r == DecodeSadie(data, 0, Sadie(map[], -1, [], []))
  {
    var tracks: map<nat, seq<TapeFile>>, cur: int, files: seq<TapeFile>, records: TapeFile, off := map[], -1, [], [], 0;
    while off + 4 <= |data|
      invariant off <= |data|
      invariant DecodeSadie(data, 0, Sadie(map[], -1, [], [])) == DecodeSadie(data, off, Sadie(tracks, cur, files, records))
    {
      var (t, next) := Next(data, off);
      match t {
        case End =>
          if cur < 0 || records != [] {
            return Error;
          }
          return Contiguous(tracks[cur := files]);
        case Private(n) =>
          if records != [] {
            return Error;
          }
          if cur >= 0 {
            tracks := tracks[cur := files];
          }
          if n in tracks {
            return Error;
          }
          cur, files := n, [];
        case Mark =>
          if cur < 0 {
            return Error;
          }
          files, records := files + [records], [];
        case Record(p) =>
          if cur < 0 {
            return Error;
          }
          records := records + [p];
        case Bad => return Error;
      }
      off := next;
    }
    r := Contiguous(tracks);
  }

  function WriteFiles(fs: seq<TapeFile>): seq<Byte>
    requires Writable(fs)
  {
    if fs == [] then [] else WriteFile(fs[0]) + WriteFiles(fs[1..])
  }

  /** build_sadie: a marker for each track, its files, and the end of the medium. */
  function WriteSadie(tracks: seq<seq<TapeFile>>, from: nat): seq<Byte>
    requires from <= |tracks| <= LIMIT && forall t :: 0 <= t < |tracks| ==> Writable(tracks[t])
    decreases |tracks| - from
  {
    if from == |tracks| then Le32(EOM) else Le32(PRIVATE + from) + WriteFiles(tracks[from]) + WriteSadie(tracks, from + 1)
  }

  lemma {:induction false} SadieFile(data: seq<Byte>, off: nat, records: TapeFile, s: Sadie)
    requires Readable(records) && s.cur >= 0 && Holds(data, off, WriteFile(records))
    ensures off + |WriteFile(records)| <= |data|
    ensures DecodeSadie(data, off, s) == DecodeSadie(data, off + |WriteFile(records)|, Sadie(s.tracks, s.cur, s.files + [s.records + records], []))
    decreases |records|
  {
    hide Next, WriteRecord, Holds;
    HoldsBound(data, off, WriteFile(records));
    if records == [] {
      MarkNext(data, off, 0);
      assert s.records + records == s.records;
    } else {
      var p, rest := records[0], records[1..];
      HoldsParts(data, off, WriteRecord(p), WriteFile(rest));
      RecordNext(data, off, p);
      RecordParts(data, off, p);
      SadieFile(data, off + |WriteRecord(p)|, rest, s.(records := s.records + [p]));
      assert s.records + [p] + rest == s.records + records;
    }
  }

  lemma {:induction false} SadieFiles(data: seq<Byte>, off: nat, fs: seq<TapeFile>, s: Sadie)
    requires (forall i :: 0 <= i < |fs| ==> Readable(fs[i])) && Writable(fs) && s.cur >= 0 && s.records == [] && Holds(data, off, WriteFiles(fs))
    ensures off + |WriteFiles(fs)| <= |data|
    ensures DecodeSadie(data, off, s) == DecodeSadie(data, off + |WriteFiles(fs)|, Sadie(s.tracks, s.cur, s.files + fs, []))
    decreases |fs|
  {
    hide Next, WriteFile, Holds, Readable, DecodeSadie;
    HoldsBound(data, off, WriteFiles(fs));
    if fs == [] {
      assert s.files + fs == s.files;
    } else {
      HoldsParts(data, off, WriteFile(fs[0]), WriteFiles(fs[1..]));
      SadieFile(data, off, fs[0], s);
      assert [] + fs[0] == fs[0];
      SadieFiles(data, off + |WriteFile(fs[0])|, fs[1..], s.(files := s.files + [fs[0]]));
      assert s.files + [fs[0]] + fs[1..] == s.files + fs;
    }
  }

  ghost function Numbered(tracks: seq<seq<TapeFile>>, n: nat): (m: map<nat, seq<TapeFile>>)
    requires n <= |tracks|
    ensures |m| == n && forall k: nat :: k in m <==> k < n
  {
    if n == 0 then map[] else Numbered(tracks, n - 1)[n - 1 := tracks[n - 1]]
  }

  lemma {:induction false} NumberedAt(tracks: seq<seq<TapeFile>>, n: nat, k: nat)
    requires k < n <= |tracks|
    ensures Numbered(tracks, n)[k] == tracks[k]
  {
    if k < n - 1 {
      NumberedAt(tracks, n - 1, k);
    }
  }

  ghost predicate Track(fs: seq<TapeFile>) {
    forall i :: 0 <= i < |fs| ==> Readable(fs[i])
  }

  /** A track's marker and files. */
  lemma SadieTrack(data: seq<Byte>, off: nat, n: nat, fs: seq<TapeFile>, s: Sadie)
    requires n < LIMIT && Writable(fs) && Track(fs) && Holds(data, off, Le32(PRIVATE + n) + WriteFiles(fs)) && s.records == [] && n !in Filed(s)
    ensures off + 4 + |WriteFiles(fs)| <= |data|
    ensures DecodeSadie(data, off, s) == DecodeSadie(data, off + 4 + |WriteFiles(fs)|, Sadie(Filed(s), n, fs, []))
  {
    hide Next, WriteFiles, Holds, Readable, Writable, Le32;
    HoldsParts(data, off, Le32(PRIVATE + n), WriteFiles(fs));
    MarkNext(data, off, PRIVATE + n);
    HoldsBound(data, off, Le32(PRIVATE + n));
    SadieFiles(data, off + 4, fs, Sadie(Filed(s), n, [], []));
    assert [] + fs == fs;
  }

  lemma {:induction false} SadieDecoded(data: seq<Byte>, off: nat, tracks: seq<seq<TapeFile>>, from: nat, s: Sadie)
    requires from <= |tracks| <= LIMIT && (forall t :: 0 <= t < |tracks| ==> Writable(tracks[t])) && (forall t :: 0 <= t < |tracks| ==> Track(tracks[t]))
    requires Holds(data, off, WriteSadie(tracks, from)) && s.records == [] && Filed(s) == Numbered(tracks, from) && (s.cur >= 0 || from < |tracks|)
    ensures off <= |data| && DecodeSadie(data, off, s) == Ok(Numbered(tracks, |tracks|))
    decreases |tracks| - from
  {
    hide Next, WriteFiles, Holds, Readable, Writable, Le32, DecodeSadie, Contiguous, Numbered, Filed;
    HoldsBound(data, off, WriteSadie(tracks, from));
    if from == |tracks| {
      MarkNext(data, off, EOM);
      SadieEnd(data, off, s);
      AllNumbered(tracks);
    } else {
      NextNumbered(tracks, from, s);
      HoldsParts(data, off, Le32(PRIVATE + from) + WriteFiles(tracks[from]), WriteSadie(tracks, from + 1));
      SadieTrack(data, off, from, tracks[from], s);
      SadieDecoded(data, off + 4 + |WriteFiles(tracks[from])|, tracks, from + 1, Sadie(Filed(s), from, tracks[from], []));
    }
  }

  lemma AllNumbered(tracks: seq<seq<TapeFile>>)
    ensures Contiguous(Numbered(tracks, |tracks|)) == Ok(Numbered(tracks, |tracks|))
  {
  }

  lemma NextNumbered(tracks: seq<seq<TapeFile>>, n: nat, s: Sadie)
    requires n < |tracks| && Filed(s) == Numbered(tracks, n)
    ensures n !in Filed(s) && Filed(Sadie(Filed(s), n, tracks[n], [])) == Numbered(tracks, n + 1)
  {
  }

  lemma SadieEnd(data: seq<Byte>, off: nat, s: Sadie)
    requires off + 4 <= |data| && Next(data, off).0 == End && s.cur >= 0 && s.records == []
    ensures DecodeSadie(data, off, s) == Contiguous(Filed(s))
  {
    hide Next;
  }

  ghost function Nothing(): Sadie {
    Sadie(map[], -1, [], [])
  }

  /** A tape that does not begin with a track is refused. */
  lemma NoTrack(data: seq<Byte>, p: Payload)
    ensures Holds(data, 0, Le32(0)) || Holds(data, 0, Le32(EOM)) ==> DecodeSadie(data, 0, Nothing()) == Error
    ensures 0 < |p| < LIMIT && Holds(data, 0, WriteRecord(p)) ==> DecodeSadie(data, 0, Nothing()) == Error
  {
    hide Next, Holds, Le32, WriteRecord;
    if Holds(data, 0, Le32(0)) {
      MarkNext(data, 0, 0);
      HoldsBound(data, 0, Le32(0));
    }
    if Holds(data, 0, Le32(EOM)) {
      MarkNext(data, 0, EOM);
      HoldsBound(data, 0, Le32(EOM));
    }
    if 0 < |p| < LIMIT && Holds(data, 0, WriteRecord(p)) {
      RecordNext(data, 0, p);
      RecordParts(data, 0, p);
      HoldsBound(data, 0, Le32(|p|));
    }
  }

  /** A track that comes twice is refused; a single track is number 0; a record must be in a file that ends. */
  lemma OneTrack(data: seq<Byte>, n: nat, fs: seq<TapeFile>, p: Payload)
    requires n < LIMIT && Writable(fs) && Track(fs)
    ensures Holds(data, 0, Le32(PRIVATE + n) + WriteFiles(fs) + Le32(PRIVATE + n)) ==> DecodeSadie(data, 0, Nothing()) == Error
    ensures Holds(data, 0, Le32(PRIVATE + n) + WriteFiles(fs) + Le32(EOM)) ==> DecodeSadie(data, 0, Nothing()) == if n == 0 then Ok(map[0 := fs]) else Error
    ensures 0 < |p| < LIMIT && Holds(data, 0, Le32(PRIVATE + n) + WriteFiles(fs) + (WriteRecord(p) + Le32(EOM))) ==> DecodeSadie(data, 0, Nothing()) == Error
  {
    hide Next, Holds, Le32, WriteRecord, WriteFiles, Readable, Writable, DecodeSadie, Track;
    var head, s := Le32(PRIVATE + n) + WriteFiles(fs), Sadie(map[], n, fs, []);
    if Holds(data, 0, head + Le32(PRIVATE + n)) {
      HoldsParts(data, 0, head, Le32(PRIVATE + n));
      SadieTrack(data, 0, n, fs, Nothing());
      HoldsBound(data, |head|, Le32(PRIVATE + n));
      MarkNext(data, |head|, PRIVATE + n);
      TrackTwice(data, |head|, s);
    }
    if Holds(data, 0, head + Le32(EOM)) {
      HoldsParts(data, 0, head, Le32(EOM));
      SadieTrack(data, 0, n, fs, Nothing());
      HoldsBound(data, |head|, Le32(EOM));
      MarkNext(data, |head|, EOM);
      SadieEnd(data, |head|, s);
      SingleTrack(n, fs);
    }
    if 0 < |p| < LIMIT && Holds(data, 0, head + (WriteRecord(p) + Le32(EOM))) {
      HoldsParts(data, 0, head, WriteRecord(p) + Le32(EOM));
      SadieTrack(data, 0, n, fs, Nothing());
      HoldsParts(data, |head|, WriteRecord(p), Le32(EOM));
      RecordParts(data, |head|, p);
      RecordNext(data, |head|, p);
      HoldsBound(data, |head|, Le32(|p|));
      var end := |head| + |WriteRecord(p)|;
      MarkNext(data, end, EOM);
      HoldsBound(data, end, Le32(EOM));
      RecordCut(data, |head|, end, p, s);
    }
  }

  lemma TrackTwice(data: seq<Byte>, off: nat, s: Sadie)
    requires off + 4 <= |data| && s.cur >= 0 && Next(data, off).0 == Private(s.cur)
    ensures DecodeSadie(data, off, s) == Error
  {
    hide Next;
  }

  lemma SingleTrack(n: nat, fs: seq<TapeFile>)
    ensures Contiguous(Filed(Sadie(map[], n, fs, []))) == if n == 0 then Ok(map[0 := fs]) else Error
  {
    var m: map<nat, seq<TapeFile>> := map[n := fs];
    assert Filed(Sadie(map[], n, fs, [])) == m && |m| == 1 && n in m;
  }

  lemma RecordCut(data: seq<Byte>, off: nat, end: nat, p: Payload, s: Sadie)
    requires off + 4 <= |data| && end + 4 <= |data| && s.cur >= 0 && Next(data, off) == (Record(p), end) && Next(data, end).0 == End
    ensures DecodeSadie(data, off, s) == Error
  {
    hide Next;
  }

  /** Reading back what build_sadie wrote returns every track with its files and records. */
  lemma SadieRoundTrip(tracks: seq<seq<TapeFile>>)
    requires 0 < |tracks| <= LIMIT && (forall t :: 0 <= t < |tracks| ==> Writable(tracks[t])) && (forall t :: 0 <= t < |tracks| ==> Track(tracks[t]))
    ensures var r := DecodeSadie(WriteSadie(tracks, 0), 0, Sadie(map[], -1, [], []));
      r.Ok? && |r.value| == |tracks| && forall t :: 0 <= t < |tracks| ==> t in r.value && r.value[t] == tracks[t]
  {
    hide Next, WriteFile, Readable, DecodeSadie, Writable;
    var data := WriteSadie(tracks, 0);
    assert Holds(data, 0, data) by { assert data[0..|data|] == data; }
    SadieDecoded(data, 0, tracks, 0, Sadie(map[], -1, [], []));
    forall t | 0 <= t < |tracks|
      ensures Numbered(tracks, |tracks|)[t] == tracks[t]
    {
      NumberedAt(tracks, |tracks|, t);
    }
  }
}
