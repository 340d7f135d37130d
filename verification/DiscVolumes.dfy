/**
 * What an ISO9660 image says, without any limit on how much of it is read: the
 * primary volume descriptor, directory listings, and the boot setting.
 */
module DiscVolumes {
  import opened Common
  import opened Utf8Text
  import opened HttpPaths

  const SECTOR := 2048
  const MAX_DIRECTORY_BYTES := 1024 * 1024
  const MAX_CNF_BYTES := 16 * 1024
  const MAX_PATH_DEPTH := 8
  const FIRST_DESCRIPTOR := 16
  const LAST_DESCRIPTOR := 48
  /** "CD001" and version 1. */
  const STANDARD: Bytes := [67, 68, 48, 48, 49, 1]
  const ELF: Bytes := [127, 69, 76, 70]
  /** ";1", "SYSTEM.CNF", "BOOT2" and "CDROM0:". */
  const VERSION: Bytes := [59, 49]
  const SYSTEM_CNF: Bytes := [83, 89, 83, 84, 69, 77, 46, 67, 78, 70]
  const BOOT2: Bytes := [66, 79, 79, 84, 50]
  const DEVICE: Bytes := [67, 68, 82, 79, 77, 48, 58]

  datatype Failure = Invalid | Unsupported

  datatype Result<T> = Ok(value: T) | Err(failure: Failure)

  datatype Extent = Extent(origin: nat, size: nat)

  // ----- Fields -----

  function BigEndian(s: Bytes): nat {
    if s == [] then 0
    else
      var last: int := s[|s| - 1];
      256 * BigEndian(s[..|s| - 1]) + last
  }

  /** A field recorded in both byte orders; None when the two disagree. */
  function Both(s: Bytes): Option<nat> {
    var half := |s| / 2;
    if LittleEndian(s[..half]) == BigEndian(s[half..]) then Some(LittleEndian(s[..half])) else None
  }

  predicate IsDirectory(flags: Byte) { flags / 2 % 2 == 1 }

  /** The extent a directory record describes, as an offset and a size within the volume. */
  function ExtentOf(volume: nat, record: Bytes, directory: bool): (r: Result<Extent>)
    ensures r.Ok? ==> r.value.size >= 1 && r.value.origin + r.value.size <= volume
    ensures r.Ok? && directory ==> r.value.size <= MAX_DIRECTORY_BYTES
  {
    if |record| < 34 || record[0] != |record| || 33 + record[32] as int > |record| then Err(Invalid)
    else if IsDirectory(record[25]) != directory then Err(Invalid)
    else if record[1] != 0 || record[26] != 0 || record[27] != 0 || record[25] >= 128 then Err(Unsupported)
    else
      var lba, size := Both(record[2..10]), Both(record[10..18]);
      if lba.None? || size.None? then Err(Invalid)
      else if lba.value == 0 || size.value == 0 || lba.value * SECTOR + size.value > volume then Err(Invalid)
      else if directory && size.value > MAX_DIRECTORY_BYTES then Err(Unsupported)
      else Ok(Extent(lba.value * SECTOR, size.value))
  }

  // ----- The primary volume descriptor -----

  /** `sector` is where its descriptor lies. */
  datatype Volume = Volume(bytes: nat, root: Extent, sector: nat)

  /** What a primary descriptor says of an image of this size. */
  function PrimaryVolume(size: nat, sector: nat, descriptor: Bytes): (r: Result<Volume>)
    requires |descriptor| == SECTOR
    ensures r.Ok? ==> r.value.sector == sector
    ensures r.Ok? ==> r.value.bytes <= size
    ensures r.Ok? ==> r.value.root.size >= 1 && r.value.root.origin + r.value.root.size <= r.value.bytes
  {
    var block, blocks := Both(descriptor[128..132]), Both(descriptor[80..88]);
    if block.None? then Err(Invalid)
    else if block.value != SECTOR then Err(Unsupported)
    else if blocks.None? then Err(Invalid)
    else if !(17 * SECTOR <= blocks.value * SECTOR <= size) then Err(Invalid)
    else
      var length: int := descriptor[156];
      var root := ExtentOf(blocks.value * SECTOR, descriptor[156..156 + length], true);
      if root.Err? then Err(root.failure) else Ok(Volume(blocks.value * SECTOR, root.value, sector))
  }

  predicate Present(source: Bytes, size: nat, offset: nat, length: nat) {
    offset + length <= size && offset + length <= |source|
  }

  /** The first primary descriptor from this sector on; anything else than other descriptors before it is fatal. */
  function PrimaryFrom(source: Bytes, size: nat, sector: nat): (r: Option<Volume>)
    ensures r.Some? ==> r.value.bytes <= size && sector <= r.value.sector < LAST_DESCRIPTOR
    ensures r.Some? ==> r.value.root.size >= 1 && r.value.root.origin + r.value.root.size <= r.value.bytes
    decreases LAST_DESCRIPTOR - sector
  {
    if sector >= LAST_DESCRIPTOR || !Present(source, size, sector * SECTOR, SECTOR) then None
    else
      var descriptor := source[sector * SECTOR..sector * SECTOR + SECTOR];
      if descriptor[1..7] != STANDARD || descriptor[0] == 255 then None
      else if descriptor[0] != 1 then PrimaryFrom(source, size, sector + 1)
      else
        var volume := PrimaryVolume(size, sector, descriptor);
        if volume.Ok? then Some(volume.value) else None
  }

  // ----- Directories -----

  predicate WellFormedRecord(data: Bytes, pos: nat)
    requires pos < |data|
  {
    var length: int := data[pos];
    && 34 <= length && pos + length <= |data|
    && var nameLength: int := data[pos + 32]; 1 <= nameLength && 33 + nameLength <= length
  }

  function Prepend(records: seq<Bytes>, rest: Option<seq<Bytes>>): Option<seq<Bytes>> {
    if rest.None? then None else Some(records + rest.value)
  }

  predicate NamedRecord(record: Bytes) { |record| >= 34 && 33 + record[32] as int <= |record| }

  /** The records of one sector, which end at its end or at a zero length; None when one is malformed. */
  function SectorRecords(data: Bytes, pos: nat): (r: Option<seq<Bytes>>)
    ensures r.Some? ==> forall i | 0 <= i < |r.value| :: NamedRecord(r.value[i])
    decreases |data| - pos
  {
    if pos >= |data| || data[pos] == 0 then Some([])
    else if !WellFormedRecord(data, pos) then None
    else Prepend([data[pos..pos + data[pos] as int]], SectorRecords(data, pos + data[pos] as int))
  }

  function Minimum(a: nat, b: nat): nat { if a < b then a else b }

  /** The records of a directory from this offset on, sector by sector. */
  function Listing(source: Bytes, directory: Extent, offset: nat): (r: Option<seq<Bytes>>)
    ensures r.Some? ==> forall i | 0 <= i < |r.value| :: NamedRecord(r.value[i])
    decreases directory.size - offset
  {
    if offset >= directory.size then Some([])
    else
      var from, length := directory.origin + offset, Minimum(SECTOR, directory.size - offset);
      if from + length > |source| then None
      else
        var here := SectorRecords(source[from..from + length], 0);
        if here.None? then None else Prepend(here.value, Listing(source, directory, offset + SECTOR))
  }

  function UpperByte(b: Byte): Byte { if 97 <= b <= 122 then b - 32 else b }

  function Upper(s: Bytes): (r: Bytes)
    ensures |r| == |s| && forall i | 0 <= i < |s| :: r[i] == UpperByte(s[i])
  {
    seq(|s|, i requires 0 <= i < |s| => UpperByte(s[i]))
  }

  predicate IsAscii(s: Bytes) { forall i | 0 <= i < |s| :: s[i] < 128 }

  function NameOf(record: Bytes): Bytes
    requires NamedRecord(record)
  {
    record[33..33 + record[32] as int]
  }

  /** The name itself or its version 1, ignoring case; a name that is not ASCII matches nothing. */
  predicate Matches(record: Bytes, name: Bytes)
    requires NamedRecord(record)
  {
    IsAscii(NameOf(record)) && (Upper(NameOf(record)) == Upper(name) || Upper(NameOf(record)) == Upper(name) + VERSION)
  }

  function Matching(records: seq<Bytes>, name: Bytes): (r: seq<Bytes>)
    requires forall i | 0 <= i < |records| :: NamedRecord(records[i])
    ensures |r| <= |records|
  {
    if records == [] then []
    else
      Matching(records[..|records| - 1], name)
      + (if Matches(records[|records| - 1], name) then [records[|records| - 1]] else [])
  }

  datatype Entry = Bad | Absent | At(extent: Extent)

  /** A directory names an entry when exactly one of its records matches and describes a usable extent. */
  function EntryIn(source: Bytes, volume: nat, directory: Extent, name: Bytes, isDirectory: bool): (e: Entry)
    ensures e.At? ==> e.extent.size >= 1 && e.extent.origin + e.extent.size <= volume
  {
    var records := Listing(source, directory, 0);
    if records.None? then Bad
    else
      var found := Matching(records.value, name);
      if found == [] then Absent
      else if |found| > 1 || ExtentOf(volume, found[0], isDirectory).Err? then Bad
      else At(ExtentOf(volume, found[0], isDirectory).value)
  }

  /** Following a path's pieces from this one on; all but the last are directories. */
  function Walk(source: Bytes, volume: nat, from: Extent, pieces: seq<Bytes>, i: nat): (e: Entry)
    requires i < |pieces|
    ensures e.At? ==> e.extent.size >= 1 && e.extent.origin + e.extent.size <= volume
    decreases |pieces| - i
  {
    var e := EntryIn(source, volume, from, pieces[i], i + 1 < |pieces|);
    if !e.At? || i + 1 == |pieces| then e else Walk(source, volume, e.extent, pieces, i + 1)
  }

  // ----- The boot setting -----

  function SkipBlanks(s: Bytes): (r: Bytes)
    ensures |r| <= |s|
  {
    if s != [] && (s[0] == 32 || s[0] == 9) then SkipBlanks(s[1..]) else s
  }

  /** Up to a carriage return or line feed. */
  function LineValue(s: Bytes): (r: Bytes)
    ensures |r| <= |s|
  {
    if s == [] || s[0] == 13 || s[0] == 10 then [] else [s[0]] + LineValue(s[1..])
  }

  function StartsWith(s: Bytes, prefix: Bytes): bool { |prefix| <= |s| && Upper(s[..|prefix|]) == prefix }

  /** The value of a BOOT2 setting on the line that starts here. */
  function LineSetting(s: Bytes): Option<Bytes> {
    var name := SkipBlanks(s);
    if !StartsWith(name, BOOT2) then None
    else
      var equals := SkipBlanks(name[|BOOT2|..]);
      if equals == [] || equals[0] != 61 then None else Some(LineValue(SkipBlanks(equals[1..])))
  }

  function NextLine(s: Bytes): (r: Bytes)
    ensures s != [] ==> |r| < |s|
  {
    if s == [] then [] else if s[0] == 10 then s[1..] else NextLine(s[1..])
  }

  function Settings(s: Bytes): seq<Bytes>
    decreases |s|
  {
    if s == [] then []
    else (if LineSetting(s).Some? then [LineSetting(s).value] else []) + Settings(NextLine(s))
  }

  predicate IsSpace(b: Byte) { b == 32 || 9 <= b <= 13 || 28 <= b <= 31 }

  function Trimmed(s: Bytes): Bytes {
    if s != [] && IsSpace(s[0]) then Trimmed(s[1..])
    else if s != [] && IsSpace(s[|s| - 1]) then Trimmed(s[..|s| - 1])
    else s
  }

  predicate IsSeparator(b: Byte) { b == 92 || b == 47 }

  function SkipSeparators(s: Bytes): Bytes {
    if s != [] && IsSeparator(s[0]) then SkipSeparators(s[1..]) else s
  }

  /** Without white space and without a version. */
  predicate IsPlainPath(path: Bytes) {
    path != [] && forall i | 0 <= i < |path| :: path[i] != 59 && !IsSpace(path[i])
  }

  /** The path of "cdrom0:" settings, with an absent version or version 1. */
  function BootPath(setting: Bytes): Option<Bytes> {
    var s := Trimmed(setting);
    if !StartsWith(s, DEVICE) then None
    else
      var rest := SkipSeparators(s[|DEVICE|..]);
      var path := if |rest| >= 2 && rest[|rest| - 2..] == VERSION then rest[..|rest| - 2] else rest;
      if IsPlainPath(path) then Some(path) else None
  }

  function Slashed(s: Bytes): (r: Bytes)
    ensures |r| == |s| && forall i | 0 <= i < |s| :: r[i] == if s[i] == 92 then 47 else s[i]
  {
    seq(|s|, i requires 0 <= i < |s| => if s[i] == 92 then 47 else s[i])
  }

  function PieceBytes(parts: seq<Text>): (r: seq<Bytes>)
    requires forall i | 0 <= i < |parts| :: forall j | 0 <= j < |parts[i]| :: parts[i][j] < 128
    ensures |r| == |parts|
  {
    seq(|parts|, i requires 0 <= i < |parts| => AsBytes(parts[i]))
  }

  lemma {:induction false} SegmentsAscii(t: Text)
    requires forall i | 0 <= i < |t| :: t[i] < 128
    ensures forall i | 0 <= i < |Segments(t)| :: forall j | 0 <= j < |Segments(t)[i]| :: Segments(t)[i][j] < 128
  {
    if t != [] { SegmentsAscii(t[1..]); }
  }

  predicate UsablePiece(piece: Bytes) {
    && piece != [] && piece != [46] && piece != [46, 46] && |piece| <= 64
    && forall i | 0 <= i < |piece| :: piece[i] != 58
  }

  function Pieces(path: Bytes): (r: seq<Bytes>)
    requires IsAscii(path)
    ensures r != []
  {
    SegmentsAscii(AsText(Slashed(path)));
    PieceBytes(Segments(AsText(Slashed(path))))
  }

  predicate UsablePath(pieces: seq<Bytes>) {
    1 <= |pieces| <= MAX_PATH_DEPTH && forall i | 0 <= i < |pieces| :: UsablePiece(pieces[i])
  }

  /** The path pieces of the one BOOT2 setting, when there is one and it is usable. */
  function BootPieces(text: Bytes): (r: Option<seq<Bytes>>)
    ensures r.Some? ==> UsablePath(r.value)
  {
    var settings := Settings(text);
    if |settings| != 1 then None
    else
      var path := BootPath(settings[0]);
      if path.None? || !IsAscii(path.value) then None
      else if UsablePath(Pieces(path.value)) then Some(Pieces(path.value)) else None
  }

  /** Four letters, '_', three digits, '.', two digits. */
  predicate IsSerialName(s: Bytes) {
    && |s| == 11 && s[4] == 95 && s[8] == 46
    && (forall i | 0 <= i < 4 :: 65 <= UpperByte(s[i]) <= 90)
    && (forall i | 5 <= i < 11 && i != 8 :: 48 <= s[i] <= 57)
  }

  // ----- The identity of an image -----

  datatype Status = Verified | Unknown | Damaged

  datatype DiscIdentity = DiscIdentity(status: Status, serial: Bytes, path: seq<Bytes>)

  const UNKNOWN := DiscIdentity(Unknown, [], [])

  /** What the executable at the end of the boot path shows. */
  function ExecutableIdentity(source: Bytes, pieces: seq<Bytes>, exe: Extent): Option<DiscIdentity>
    requires pieces != []
  {
    var name := pieces[|pieces| - 1];
    if exe.size < 4 then Some(DiscIdentity(Damaged, [], pieces))
    else if exe.origin + 4 > |source| then None
    else if source[exe.origin..exe.origin + 4] != ELF then Some(DiscIdentity(Damaged, [], pieces))
    else if !IsSerialName(name) then Some(DiscIdentity(Unknown, [], pieces))
    else Some(DiscIdentity(Verified, Upper(name), pieces))
  }

  function BootIdentity(source: Bytes, volume: Volume, pieces: seq<Bytes>): Option<DiscIdentity>
    requires pieces != []
  {
    match Walk(source, volume.bytes, volume.root, pieces, 0)
    case Bad => None
    case Absent => Some(DiscIdentity(Damaged, [], pieces))
    case At(exe) => ExecutableIdentity(source, pieces, exe)
  }

  function ConfiguredIdentity(source: Bytes, volume: Volume, cnf: Extent): Option<DiscIdentity> {
    if cnf.size > MAX_CNF_BYTES || cnf.origin + cnf.size > |source| then None
    else
      var text := source[cnf.origin..cnf.origin + cnf.size];
      if !IsAscii(text) then None
      else if BootPieces(text).None? then Some(UNKNOWN)
      else BootIdentity(source, volume, BootPieces(text).value)
  }

  function VolumeIdentity(source: Bytes, volume: Volume): Option<DiscIdentity> {
    match EntryIn(source, volume.bytes, volume.root, SYSTEM_CNF, false)
    case Bad => None
    case Absent => Some(UNKNOWN)
    case At(cnf) => ConfiguredIdentity(source, volume, cnf)
  }

  /** The identity of an image; None when inspecting it fails. */
  function Identified(source: Bytes, size: nat): Option<DiscIdentity> {
    var volume := PrimaryFrom(source, size, FIRST_DESCRIPTOR);
    if volume.None? then None else VolumeIdentity(source, volume.value)
  }

  // ----- What answering takes -----

  /** Bytes read and directory records examined. */
  datatype Cost = Cost(bytes: nat, records: nat)
  {
    function Plus(more: Cost): Cost { Cost(bytes + more.bytes, records + more.records) }

    predicate Fits(most: Cost) { bytes <= most.bytes && records <= most.records }
  }

  /** A directory that is searched is read whole, and each of its records is examined. */
  function SearchCost(source: Bytes, directory: Extent): Cost {
    var records := Listing(source, directory, 0);
    Cost(directory.size, if records.Some? then |records.value| else 0)
  }

  /** Following a path searches one directory for each piece, up to the first that is missing. */
  function WalkCost(source: Bytes, volume: nat, from: Extent, pieces: seq<Bytes>, i: nat): Cost
    requires i < |pieces|
    decreases |pieces| - i
  {
    var e := EntryIn(source, volume, from, pieces[i], i + 1 < |pieces|);
    var here := SearchCost(source, from);
    if !e.At? || i + 1 == |pieces| then here else here.Plus(WalkCost(source, volume, e.extent, pieces, i + 1))
  }

  lemma WalkNext(source: Bytes, volume: nat, from: Extent, pieces: seq<Bytes>, i: nat)
    requires i + 1 < |pieces|
    ensures var e, here := EntryIn(source, volume, from, pieces[i], true), SearchCost(source, from);
      var entry, cost := Walk(source, volume, from, pieces, i), WalkCost(source, volume, from, pieces, i);
      if e.At? then
        && entry == Walk(source, volume, e.extent, pieces, i + 1)
        && cost == here.Plus(WalkCost(source, volume, e.extent, pieces, i + 1))
      else entry == e && cost == here
  {
    hide EntryIn, SearchCost;
  }

  lemma WalkEnds(source: Bytes, volume: nat, from: Extent, pieces: seq<Bytes>)
    requires pieces != []
    ensures Walk(source, volume, from, pieces, |pieces| - 1) == EntryIn(source, volume, from, pieces[|pieces| - 1], false)
    ensures WalkCost(source, volume, from, pieces, |pieces| - 1) == SearchCost(source, from)
  {
    hide EntryIn, SearchCost;
  }

  /** Following the boot path, and the signature of the executable it leads to. */
  function BootCost(source: Bytes, volume: Volume, pieces: seq<Bytes>): Cost
    requires pieces != []
  {
    var exe := Walk(source, volume.bytes, volume.root, pieces, 0);
    var path := WalkCost(source, volume.bytes, volume.root, pieces, 0);
    if exe.At? && exe.extent.size >= 4 then path.Plus(Cost(4, 0)) else path
  }

  function ConfiguredCost(source: Bytes, volume: Volume, cnf: Extent): Cost {
    if cnf.size > MAX_CNF_BYTES || cnf.origin + cnf.size > |source| then Cost(0, 0)
    else
      var text := source[cnf.origin..cnf.origin + cnf.size];
      if !IsAscii(text) || BootPieces(text).None? then Cost(cnf.size, 0)
      else Cost(cnf.size, 0).Plus(BootCost(source, volume, BootPieces(text).value))
  }

  function VolumeCost(source: Bytes, volume: Volume): Cost {
    var cnf := EntryIn(source, volume.bytes, volume.root, SYSTEM_CNF, false);
    var search := SearchCost(source, volume.root);
    if cnf.At? then search.Plus(ConfiguredCost(source, volume, cnf.extent)) else search
  }

  /** The descriptors up to the primary one, and what the volume takes. */
  function InspectionCost(source: Bytes, size: nat): Cost {
    var volume := PrimaryFrom(source, size, FIRST_DESCRIPTOR);
    if volume.None? then Cost(0, 0)
    else Cost((volume.value.sector + 1 - FIRST_DESCRIPTOR) * SECTOR, 0).Plus(VolumeCost(source, volume.value))
  }

  // ----- What a verified identity means -----

  /** Exactly one record of the directory has this name, and it describes this extent. */
  ghost predicate Sole(source: Bytes, volume: nat, directory: Extent, name: Bytes, isDirectory: bool, e: Extent) {
    var records := Listing(source, directory, 0);
    records.Some? &&
    exists i :: && 0 <= i < |records.value| && Matches(records.value[i], name)
                && ExtentOf(volume, records.value[i], isDirectory) == Ok(e)
                && forall j | 0 <= j < |records.value| && j != i :: !Matches(records.value[j], name)
  }

  lemma {:induction false} NoMatch(records: seq<Bytes>, name: Bytes)
    requires forall i | 0 <= i < |records| :: NamedRecord(records[i])
    ensures Matching(records, name) == [] <==> forall i | 0 <= i < |records| :: !Matches(records[i], name)
  {
    hide Matches;
    if records != [] { NoMatch(records[..|records| - 1], name); }
  }

  lemma {:induction false} OneMatch(records: seq<Bytes>, name: Bytes) returns (i: nat)
    requires forall i | 0 <= i < |records| :: NamedRecord(records[i])
    requires |Matching(records, name)| == 1
    ensures i < |records| && Matching(records, name) == [records[i]] && Matches(records[i], name)
    ensures forall j | 0 <= j < |records| && j != i :: !Matches(records[j], name)
  {
    hide Matches;
    var before, last := records[..|records| - 1], records[|records| - 1];
    if Matches(last, name) {
      assert Matching(before, name) == [];
      NoMatch(before, name);
      assert forall j | 0 <= j < |before| :: before[j] == records[j];
      i := |records| - 1;
    } else {
      assert Matching(records, name) == Matching(before, name);
      i := OneMatch(before, name);
      assert forall j | 0 <= j < |before| :: before[j] == records[j];
    }
  }

  lemma FoundIsSole(source: Bytes, volume: nat, directory: Extent, name: Bytes, isDirectory: bool)
    requires EntryIn(source, volume, directory, name, isDirectory).At?
    ensures Sole(source, volume, directory, name, isDirectory, EntryIn(source, volume, directory, name, isDirectory).extent)
  {
    hide Matches, ExtentOf, Listing;
    var records := Listing(source, directory, 0).value;
    var i := OneMatch(records, name);
  }

  /** The whole path, step by step: each piece is the one record of that name in the directory before it. */
  ghost predicate Path(source: Bytes, volume: nat, steps: seq<Extent>, pieces: seq<Bytes>) {
    && |steps| == |pieces| + 1
    && forall i | 0 <= i < |pieces| :: Sole(source, volume, steps[i], pieces[i], i < |pieces| - 1, steps[i + 1])
  }

  lemma {:induction false} WalkIsPath(source: Bytes, volume: nat, from: Extent, pieces: seq<Bytes>, i: nat)
    returns (steps: seq<Extent>)
    requires i < |pieces| && Walk(source, volume, from, pieces, i).At?
    ensures |steps| == |pieces| - i + 1 && steps[0] == from
    ensures steps[|pieces| - i] == Walk(source, volume, from, pieces, i).extent
    ensures forall k | i <= k < |pieces| ::
      Sole(source, volume, steps[k - i], pieces[k], k < |pieces| - 1, steps[k - i + 1])
    decreases |pieces| - i
  {
    hide EntryIn, Sole;
    FoundIsSole(source, volume, from, pieces[i], i + 1 < |pieces|);
    var next := EntryIn(source, volume, from, pieces[i], i + 1 < |pieces|).extent;
    if i + 1 == |pieces| {
      steps := [from, next];
    } else {
      var later := WalkIsPath(source, volume, next, pieces, i + 1);
      steps := [from] + later;
      forall k | i <= k < |pieces|
        ensures Sole(source, volume, steps[k - i], pieces[k], k < |pieces| - 1, steps[k - i + 1])
      {
        if k > i { assert steps[k - i] == later[k - i - 1] && steps[k - i + 1] == later[k - i]; }
      }
    }
  }

  /**
   * A verified image really has that executable: from the root of its first primary volume every
   * piece of the boot path is the only record of its name, the last is a file that begins with the
   * ELF signature, and the serial is that file's name.
   */
  lemma VerifiedMeansResolved(source: Bytes, size: nat) returns (volume: Volume, steps: seq<Extent>)
    requires Identified(source, size).Some? && Identified(source, size).value.status == Verified
    ensures var pieces := Identified(source, size).value.path;
      && PrimaryFrom(source, size, FIRST_DESCRIPTOR) == Some(volume) && volume.bytes <= size
      && UsablePath(pieces) && Path(source, volume.bytes, steps, pieces) && steps[0] == volume.root
      && var exe := steps[|pieces|];
         && exe.origin + 4 <= |source| && exe.origin + exe.size <= volume.bytes
         && source[exe.origin..exe.origin + 4] == ELF
         && IsSerialName(pieces[|pieces| - 1]) && Identified(source, size).value.serial == Upper(pieces[|pieces| - 1])
  {
    hide PrimaryFrom, EntryIn, Walk, BootPieces, IsSerialName, Upper, Sole, UsablePiece;
    volume := PrimaryFrom(source, size, FIRST_DESCRIPTOR).value;
    steps := WalkIsPath(source, volume.bytes, volume.root, Identified(source, size).value.path, 0);
  }

  // ----- What a disc writer records is read back -----

  function LittleBytes(n: nat, width: nat): (r: Bytes)
    ensures |r| == width
  {
    if width == 0 then [] else [n % 256] + LittleBytes(n / 256, width - 1)
  }

  function BigBytes(n: nat, width: nat): (r: Bytes)
    ensures |r| == width
  {
    if width == 0 then [] else BigBytes(n / 256, width - 1) + [n % 256]
  }

  function Capacity(width: nat): nat { if width == 0 then 1 else 256 * Capacity(width - 1) }

  lemma {:induction false} OrdersAgree(n: nat, width: nat)
    requires n < Capacity(width)
    ensures LittleEndian(LittleBytes(n, width)) == n && BigEndian(BigBytes(n, width)) == n
  {
    if width > 0 {
      OrdersAgree(n / 256, width - 1);
      assert LittleBytes(n, width)[1..] == LittleBytes(n / 256, width - 1);
      assert BigBytes(n, width)[..width - 1] == BigBytes(n / 256, width - 1);
    }
  }

  /** A number recorded in both byte orders is read back. */
  lemma BothRecovers(n: nat, width: nat)
    requires n < Capacity(width)
    ensures Both(LittleBytes(n, width) + BigBytes(n, width)) == Some(n)
  {
    OrdersAgree(n, width);
    var s := LittleBytes(n, width) + BigBytes(n, width);
    assert s[..width] == LittleBytes(n, width) && s[width..] == BigBytes(n, width);
  }

  /** Two fields that differ between the orders are refused, whatever they say. */
  lemma BothRefuses(n: nat, m: nat, width: nat)
    requires n < Capacity(width) && m < Capacity(width) && n != m
    ensures Both(LittleBytes(n, width) + BigBytes(m, width)) == None
  {
    OrdersAgree(n, width);
    OrdersAgree(m, width);
    var s := LittleBytes(n, width) + BigBytes(m, width);
    assert s[..width] == LittleBytes(n, width) && s[width..] == BigBytes(m, width);
  }

  /** A plain directory record: one extent in both byte orders, flags, and a name. */
  function PlainRecord(lba: nat, size: nat, directory: bool, name: Bytes): Bytes
    requires 1 <= |name| <= 200
  {
    [33 + |name|, 0] + (LittleBytes(lba, 4) + BigBytes(lba, 4)) + (LittleBytes(size, 4) + BigBytes(size, 4))
    + [0, 0, 0, 0, 0, 0, 0, if directory then 2 else 0, 0, 0, 0, 0, 0, 0, |name|] + name
  }

  lemma PlainRecordFields(lba: nat, size: nat, directory: bool, name: Bytes)
    requires 1 <= |name| <= 200
    ensures var r := PlainRecord(lba, size, directory, name);
      && |r| == 33 + |name| && r[0] == |r| && r[1] == 0 && r[26] == 0 && r[27] == 0 && r[32] == |name|
      && r[25] == (if directory then 2 else 0) && r[33..] == name
      && r[2..10] == LittleBytes(lba, 4) + BigBytes(lba, 4) && r[10..18] == LittleBytes(size, 4) + BigBytes(size, 4)
  {
    hide LittleBytes, BigBytes;
  }

  /** Such a record names its file and gives its extent, to a search for the right kind and no other. */
  lemma PlainRecordIsRead(volume: nat, lba: nat, size: nat, directory: bool, name: Bytes)
    requires 1 <= |name| <= 200 && IsAscii(name) && 1 <= lba < 0x1_0000_0000 && 1 <= size < 0x1_0000_0000
    requires lba * SECTOR + size <= volume && (directory ==> size <= MAX_DIRECTORY_BYTES)
    ensures var r := PlainRecord(lba, size, directory, name);
      && NamedRecord(r) && NameOf(r) == name && Matches(r, name) && Matches(r, Upper(name))
      && ExtentOf(volume, r, directory) == Ok(Extent(lba * SECTOR, size))
      && ExtentOf(volume, r, !directory) == Err(Invalid)
  {
    hide PlainRecord, LittleBytes, BigBytes, Both, Capacity;
    PlainRecordFields(lba, size, directory, name);
    FourByteCapacity();
    BothRecovers(lba, 4);
    BothRecovers(size, 4);
    var r := PlainRecord(lba, size, directory, name);
    assert NameOf(r) == r[33..];
    assert Upper(Upper(name)) == Upper(name);
  }

  lemma FourByteCapacity()
    ensures Capacity(4) == 0x1_0000_0000
  {
  }

  /** A path piece without separators, blanks, a colon or a version. */
  predicate PlainPiece(piece: Bytes) {
    && UsablePiece(piece) && IsAscii(piece)
    && forall i | 0 <= i < |piece| :: !IsSeparator(piece[i]) && piece[i] != 59 && !IsSpace(piece[i])
  }

  predicate PlainPieces(pieces: seq<Bytes>) {
    1 <= |pieces| <= MAX_PATH_DEPTH && forall i | 0 <= i < |pieces| :: PlainPiece(pieces[i])
  }

  function Backslashed(pieces: seq<Bytes>): Bytes {
    if pieces == [] then []
    else if |pieces| == 1 then pieces[0]
    else pieces[0] + [92] + Backslashed(pieces[1..])
  }

  /** "BOOT2 = ", and "cdrom0:" with a backslash after it. */
  const SETTING: Bytes := [66, 79, 79, 84, 50, 32, 61, 32]
  const DRIVE: Bytes := [99, 100, 114, 111, 109, 48, 58, 92]

  /** A SYSTEM.CNF that boots this path, with other settings after it. */
  function BootText(pieces: seq<Bytes>, rest: Bytes): Bytes {
    SETTING + (DRIVE + Backslashed(pieces) + VERSION) + [13, 10] + rest
  }

  predicate PathBytes(s: Bytes) {
    forall i | 0 <= i < |s| :: s[i] < 128 && s[i] != 59 && !IsSpace(s[i])
  }

  lemma {:induction false} BackslashedBytes(pieces: seq<Bytes>)
    requires pieces != [] && forall i | 0 <= i < |pieces| :: PlainPiece(pieces[i])
    ensures var s := Backslashed(pieces); s != [] && !IsSeparator(s[0]) && PathBytes(s)
  {
    assert PlainPiece(pieces[0]);
    if |pieces| > 1 { BackslashedBytes(pieces[1..]); }
  }

  lemma {:induction false} LineValueEnds(v: Bytes, after: Bytes)
    requires (forall i | 0 <= i < |v| :: v[i] != 13 && v[i] != 10) && after != [] && after[0] == 13
    ensures LineValue(v + after) == v
  {
    if v == [] {
      assert v + after == after;
    } else {
      assert (v + after)[1..] == v[1..] + after;
      LineValueEnds(v[1..], after);
      assert v == [v[0]] + v[1..];
    }
  }

  lemma {:induction false} NextLineBegins(v: Bytes, rest: Bytes)
    requires forall i | 0 <= i < |v| :: v[i] != 10
    ensures NextLine(v + [10] + rest) == rest
  {
    var s := v + [10] + rest;
    if v == [] {
      assert s[1..] == rest;
    } else {
      assert s[1..] == v[1..] + [10] + rest;
      NextLineBegins(v[1..], rest);
    }
  }

  lemma SettingIsRead(v: Bytes, after: Bytes)
    requires v != [] && v[0] != 32 && v[0] != 9
    requires (forall i | 0 <= i < |v| :: v[i] != 13 && v[i] != 10) && after != [] && after[0] == 13
    ensures LineSetting(SETTING + v + after) == Some(v)
  {
    var s := SETTING + v + after;
    assert SkipBlanks(s) == s;
    assert s[..5] == BOOT2 && Upper(BOOT2) == BOOT2;
    var equals := s[6..];
    assert s[5..][1..] == equals && SkipBlanks(equals) == equals;
    assert SkipBlanks(s[5..]) == equals;
    var value := v + after;
    assert equals[1..][1..] == value && SkipBlanks(value) == value;
    assert SkipBlanks(equals[1..]) == value;
    LineValueEnds(v, after);
  }

  lemma TrimmedAlready(s: Bytes)
    requires s != [] && !IsSpace(s[0]) && !IsSpace(s[|s| - 1])
    ensures Trimmed(s) == s
  {
  }

  lemma PathIsRead(path: Bytes)
    requires path != [] && !IsSeparator(path[0]) && PathBytes(path)
    ensures BootPath(DRIVE + path + VERSION) == Some(path)
  {
    var s := DRIVE + path + VERSION;
    TrimmedAlready(s);
    assert Upper(s[..7]) == DEVICE;
    var tail := path + VERSION;
    assert s[7..][1..] == tail && SkipSeparators(tail) == tail;
    assert SkipSeparators(s[7..]) == tail;
    assert tail[|tail| - 2..] == VERSION && tail[..|tail| - 2] == path;
  }

  function AllText(pieces: seq<Bytes>): seq<Text> { seq(|pieces|, i requires 0 <= i < |pieces| => AsText(pieces[i])) }

  lemma {:induction false} SlashedJoins(pieces: seq<Bytes>)
    requires pieces != [] && forall i | 0 <= i < |pieces| :: PlainPiece(pieces[i])
    ensures AsText(Slashed(Backslashed(pieces))) == Joined(AllText(pieces))
  {
    assert PlainPiece(pieces[0]);
    assert AsText(Slashed(pieces[0])) == AsText(pieces[0]);
    if |pieces| > 1 {
      SlashedJoins(pieces[1..]);
      assert AllText(pieces)[1..] == AllText(pieces[1..]);
      assert Slashed(Backslashed(pieces)) == Slashed(pieces[0]) + [47] + Slashed(Backslashed(pieces[1..]));
    }
  }

  lemma PiecesAreRead(pieces: seq<Bytes>)
    requires PlainPieces(pieces) && IsAscii(Backslashed(pieces))
    ensures Pieces(Backslashed(pieces)) == pieces
  {
    SlashedJoins(pieces);
    forall i | 0 <= i < |pieces|
      ensures NoSlash(AllText(pieces)[i])
    {
      assert PlainPiece(pieces[i]);
    }
    SegmentsOfJoined(AllText(pieces));
    forall i | 0 <= i < |pieces|
      ensures Pieces(Backslashed(pieces))[i] == pieces[i]
    {
      assert AllText(pieces)[i] == AsText(pieces[i]);
    }
  }

  /** The boot path written the usual way is the path that is inspected. */
  lemma BootPathIsRead(pieces: seq<Bytes>, rest: Bytes)
    requires PlainPieces(pieces) && Settings(rest) == []
    ensures BootPieces(BootText(pieces, rest)) == Some(pieces)
  {
    hide LineSetting, Trimmed, BootPath, Pieces, Backslashed, NextLine, UsablePiece;
    var path := Backslashed(pieces);
    BackslashedBytes(pieces);
    var v := DRIVE + path + VERSION;
    var text := BootText(pieces, rest);
    assert text == SETTING + v + ([13, 10] + rest);
    SettingIsRead(v, [13, 10] + rest);
    var line := SETTING + v + [13];
    assert text == line + [10] + rest;
    NextLineBegins(line, rest);
    assert Settings(text) == [v] + Settings(rest);
    PathIsRead(path);
    PiecesAreRead(pieces);
    PlainIsUsable(pieces);
  }

  lemma PlainIsUsable(pieces: seq<Bytes>)
    requires PlainPieces(pieces)
    ensures UsablePath(pieces)
  {
  }
}
