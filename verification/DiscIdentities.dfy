/**
 * Which identity an image has, exactly, by what is recorded on it; and that what a
 * writer of plain images records is what the inspector finds.
 */
module DiscIdentities {
  import opened Common
  import opened DiscVolumes

  // ----- Searching a directory -----

  /** The directory is readable and no record of it has this name. */
  ghost predicate Nameless(source: Bytes, directory: Extent, name: Bytes) {
    var records := Listing(source, directory, 0);
    records.Some? && forall i | 0 <= i < |records.value| :: !Matches(records.value[i], name)
  }

  lemma {:induction false} SoleMatch(records: seq<Bytes>, name: Bytes, i: nat)
    requires forall k | 0 <= k < |records| :: NamedRecord(records[k])
    requires i < |records| && Matches(records[i], name)
    requires forall j | 0 <= j < |records| && j != i :: !Matches(records[j], name)
    ensures Matching(records, name) == [records[i]]
  {
    hide Matches;
    var before := records[..|records| - 1];
    assert forall j | 0 <= j < |before| :: before[j] == records[j];
    if i == |records| - 1 {
      NoMatch(before, name);
    } else {
      SoleMatch(before, name, i);
    }
  }

  lemma SoleIsFound(source: Bytes, volume: nat, directory: Extent, name: Bytes, isDirectory: bool, e: Extent)
    requires Sole(source, volume, directory, name, isDirectory, e)
    ensures EntryIn(source, volume, directory, name, isDirectory) == At(e)
  {
    hide Matches, ExtentOf, Listing;
    var records := Listing(source, directory, 0).value;
    var i :| && 0 <= i < |records| && Matches(records[i], name) && ExtentOf(volume, records[i], isDirectory) == Ok(e)
             && forall j | 0 <= j < |records| && j != i :: !Matches(records[j], name);
    SoleMatch(records, name, i);
  }

  /**
   * A search ends at an extent exactly when one record has the name and describes it, and at nothing when none has
   * it.
   */
  lemma SearchIsDecided(source: Bytes, volume: nat, directory: Extent, name: Bytes, isDirectory: bool, e: Extent)
    ensures EntryIn(source, volume, directory, name, isDirectory) == At(e)
            <==> Sole(source, volume, directory, name, isDirectory, e)
    ensures EntryIn(source, volume, directory, name, isDirectory) == Absent <==> Nameless(source, directory, name)
  {
    hide Matches, ExtentOf, Listing;
    if EntryIn(source, volume, directory, name, isDirectory) == At(e) {
      FoundIsSole(source, volume, directory, name, isDirectory);
    }
    if Sole(source, volume, directory, name, isDirectory, e) {
      SoleIsFound(source, volume, directory, name, isDirectory, e);
    }
    if Listing(source, directory, 0).Some? { NoMatch(Listing(source, directory, 0).value, name); }
  }

  // ----- Following a path -----

  /** The first k pieces resolve to these directories, one after another. */
  ghost predicate Resolves(source: Bytes, volume: nat, steps: seq<Extent>, pieces: seq<Bytes>, k: nat) {
    && |steps| == k + 1 && k < |pieces|
    && forall i | 0 <= i < k :: Sole(source, volume, steps[i], pieces[i], true, steps[i + 1])
  }

  lemma {:induction false} WalkResolved(source: Bytes, volume: nat, steps: seq<Extent>, pieces: seq<Bytes>, k: nat, j: nat)
    requires Resolves(source, volume, steps, pieces, k) && j <= k
    ensures Walk(source, volume, steps[0], pieces, 0) == Walk(source, volume, steps[j], pieces, j)
  {
    hide Walk, EntryIn, Sole;
    if j > 0 {
      WalkResolved(source, volume, steps, pieces, k, j - 1);
      SoleIsFound(source, volume, steps[j - 1], pieces[j - 1], true, steps[j]);
      WalkNext(source, volume, steps[j - 1], pieces, j - 1);
    }
  }

  ghost predicate LeadsTo(source: Bytes, volume: Volume, pieces: seq<Bytes>, exe: Extent) {
    exists steps :: Path(source, volume.bytes, steps, pieces) && steps[0] == volume.root && steps[|pieces|] == exe
  }

  lemma PathIsWalked(source: Bytes, volume: nat, steps: seq<Extent>, pieces: seq<Bytes>)
    requires pieces != [] && Path(source, volume, steps, pieces)
    ensures Walk(source, volume, steps[0], pieces, 0) == At(steps[|pieces|])
  {
    hide Walk, EntryIn, Sole;
    var k := |pieces| - 1;
    WalkResolved(source, volume, steps[..|pieces|], pieces, k, k);
    WalkEnds(source, volume, steps[k], pieces);
    SoleIsFound(source, volume, steps[k], pieces[k], false, steps[k + 1]);
  }

  /** Some piece is not there, in the directory that the pieces before it lead to. */
  ghost predicate BreaksOff(source: Bytes, volume: Volume, pieces: seq<Bytes>) {
    exists steps: seq<Extent>, k: nat ::
      Resolves(source, volume.bytes, steps, pieces, k) && steps[0] == volume.root && Nameless(source, steps[k], pieces[k])
  }

  lemma {:induction false} WalkBreaksOff(source: Bytes, volume: nat, from: Extent, pieces: seq<Bytes>, i: nat)
    returns (steps: seq<Extent>, k: nat)
    requires i < |pieces| && Walk(source, volume, from, pieces, i) == Absent
    ensures i <= k < |pieces| && |steps| == k - i + 1 && steps[0] == from && Nameless(source, steps[k - i], pieces[k])
    ensures forall j | i <= j < k :: Sole(source, volume, steps[j - i], pieces[j], true, steps[j - i + 1])
    decreases |pieces| - i
  {
    hide EntryIn, Sole, Nameless;
    var e := EntryIn(source, volume, from, pieces[i], i + 1 < |pieces|);
    if e == Absent {
      SearchIsDecided(source, volume, from, pieces[i], i + 1 < |pieces|, from);
      steps, k := [from], i;
    } else {
      SearchIsDecided(source, volume, from, pieces[i], true, e.extent);
      var later;
      later, k := WalkBreaksOff(source, volume, e.extent, pieces, i + 1);
      steps := [from] + later;
      forall j | i <= j < k
        ensures Sole(source, volume, steps[j - i], pieces[j], true, steps[j - i + 1])
      {
        if j > i { assert steps[j - i] == later[j - i - 1] && steps[j - i + 1] == later[j - i]; }
      }
    }
  }

  lemma BrokenPathIsAbsent(source: Bytes, volume: nat, steps: seq<Extent>, pieces: seq<Bytes>, k: nat)
    requires Resolves(source, volume, steps, pieces, k) && Nameless(source, steps[k], pieces[k])
    ensures Walk(source, volume, steps[0], pieces, 0) == Absent
  {
    hide EntryIn, Sole, Nameless;
    WalkResolved(source, volume, steps, pieces, k, k);
    SearchIsDecided(source, volume, steps[k], pieces[k], k + 1 < |pieces|, steps[k]);
  }

  /** A path is followed to an extent exactly when it leads there, and to nothing exactly when it breaks off. */
  lemma WalkIsDecided(source: Bytes, volume: Volume, pieces: seq<Bytes>, exe: Extent)
    requires pieces != []
    ensures Walk(source, volume.bytes, volume.root, pieces, 0) == At(exe) <==> LeadsTo(source, volume, pieces, exe)
    ensures Walk(source, volume.bytes, volume.root, pieces, 0) == Absent <==> BreaksOff(source, volume, pieces)
  {
    hide Walk, Sole, Nameless;
    var walked := Walk(source, volume.bytes, volume.root, pieces, 0);
    if walked.At? {
      var steps := WalkIsPath(source, volume.bytes, volume.root, pieces, 0);
      assert Path(source, volume.bytes, steps, pieces);
    }
    if LeadsTo(source, volume, pieces, exe) {
      var steps :| Path(source, volume.bytes, steps, pieces) && steps[0] == volume.root && steps[|pieces|] == exe;
      PathIsWalked(source, volume.bytes, steps, pieces);
    }
    if walked == Absent {
      var steps, k := WalkBreaksOff(source, volume.bytes, volume.root, pieces, 0);
      assert Resolves(source, volume.bytes, steps, pieces, k);
    }
    if BreaksOff(source, volume, pieces) {
      var steps: seq<Extent>, k: nat :| Resolves(source, volume.bytes, steps, pieces, k) && steps[0] == volume.root
                                        && Nameless(source, steps[k], pieces[k]);
      BrokenPathIsAbsent(source, volume.bytes, steps, pieces, k);
    }
  }

  // ----- The identity -----

  /** SYSTEM.CNF is the sole record of its name, at most 16 KiB of ASCII, and this is its text. */
  ghost predicate Configures(source: Bytes, volume: Volume, text: Bytes) {
    exists cnf ::
      && Sole(source, volume.bytes, volume.root, SYSTEM_CNF, false, cnf)
      && cnf.size <= 16384 && cnf.origin + cnf.size <= |source|
      && text == source[cnf.origin..cnf.origin + cnf.size] && IsAscii(text)
  }

  /** That text has one usable BOOT2 setting, for this path. */
  ghost predicate Boots(source: Bytes, volume: Volume, pieces: seq<Bytes>) {
    exists text :: Configures(source, volume, text) && BootPieces(text) == Some(pieces)
  }

  /** Its first four bytes are there, and they are the ELF signature. */
  predicate IsElf(source: Bytes, exe: Extent) {
    exe.size >= 4 && exe.origin + 4 <= |source| && source[exe.origin..exe.origin + 4] == [0x7F, 0x45, 0x4C, 0x46]
  }

  /** It is too short for a signature, or begins with something else. */
  predicate IsNotElf(source: Bytes, exe: Extent) {
    exe.size < 4 || (exe.origin + 4 <= |source| && source[exe.origin..exe.origin + 4] != [0x7F, 0x45, 0x4C, 0x46])
  }

  /** Four letters, an underscore, three digits, a dot and two digits. */
  predicate IsSerial(s: Bytes) {
    && |s| == 11 && s[4] == 0x5F && s[8] == 0x2E
    && (forall i | 0 <= i < 4 :: 0x41 <= s[i] <= 0x5A || 0x61 <= s[i] <= 0x7A)
    && (forall i | 5 <= i < 8 :: 0x30 <= s[i] <= 0x39) && (forall i | 9 <= i < 11 :: 0x30 <= s[i] <= 0x39)
  }

  lemma SerialNames(s: Bytes)
    ensures IsSerialName(s) <==> IsSerial(s)
  {
    if IsSerialName(s) {
      forall i | 0 <= i < 4
        ensures 0x41 <= s[i] <= 0x5A || 0x61 <= s[i] <= 0x7A
      {
        assert 65 <= UpperByte(s[i]) <= 90;
      }
    }
  }

  /** At most one text configures a volume. */
  lemma ConfiguredText(source: Bytes, volume: Volume)
    ensures var e := EntryIn(source, volume.bytes, volume.root, SYSTEM_CNF, false);
      forall text ::
        Configures(source, volume, text) <==>
          && e.At? && e.extent.size <= MAX_CNF_BYTES && e.extent.origin + e.extent.size <= |source|
          && text == source[e.extent.origin..e.extent.origin + e.extent.size] && IsAscii(text)
  {
    hide Sole, EntryIn;
    forall cnf
      ensures EntryIn(source, volume.bytes, volume.root, SYSTEM_CNF, false) == At(cnf)
              <==> Sole(source, volume.bytes, volume.root, SYSTEM_CNF, false, cnf)
    {
      SearchIsDecided(source, volume.bytes, volume.root, SYSTEM_CNF, false, cnf);
    }
  }

  lemma BootsExactly(source: Bytes, size: nat, volume: Volume, pieces: seq<Bytes>)
    requires PrimaryFrom(source, size, FIRST_DESCRIPTOR) == Some(volume) && pieces != []
    ensures Boots(source, volume, pieces) ==> Identified(source, size) == BootIdentity(source, volume, pieces)
    ensures !Boots(source, volume, pieces) ==> Identified(source, size).None? || Identified(source, size).value.path != pieces
  {
    hide Configures, PrimaryFrom, EntryIn, BootPieces, Walk;
    ConfiguredText(source, volume);
    if Boots(source, volume, pieces) {
      var text :| Configures(source, volume, text) && BootPieces(text) == Some(pieces);
    }
  }

  /**
   * Verified, exactly: an image is verified with this serial and path if and only if its SYSTEM.CNF boots that path,
   * the path leads, each piece the sole record of its name, to a file that begins with the ELF signature, and
   * the last piece is a serial name, which in upper case is the serial.
   */
  lemma VerifiedExactly(source: Bytes, size: nat, volume: Volume, pieces: seq<Bytes>, serial: Bytes)
    requires PrimaryFrom(source, size, FIRST_DESCRIPTOR) == Some(volume) && pieces != []
    ensures Identified(source, size) == Some(DiscIdentity(Verified, serial, pieces)) <==>
      && Boots(source, volume, pieces)
      && (exists exe :: LeadsTo(source, volume, pieces, exe) && IsElf(source, exe))
      && IsSerial(pieces[|pieces| - 1]) && serial == Upper(pieces[|pieces| - 1])
  {
    hide Boots, PrimaryFrom, Walk, LeadsTo, Identified, IsSerial, IsSerialName, BreaksOff;
    BootsExactly(source, size, volume, pieces);
    SerialNames(pieces[|pieces| - 1]);
    forall exe
      ensures Walk(source, volume.bytes, volume.root, pieces, 0) == At(exe) <==> LeadsTo(source, volume, pieces, exe)
    {
      WalkIsDecided(source, volume, pieces, exe);
    }
    WalkIsDecided(source, volume, pieces, volume.root);
  }

  /** Damaged, exactly: the path it boots breaks off, or leads to a file without the signature. */
  lemma DamagedExactly(source: Bytes, size: nat, volume: Volume, pieces: seq<Bytes>)
    requires PrimaryFrom(source, size, FIRST_DESCRIPTOR) == Some(volume) && pieces != []
    ensures Identified(source, size) == Some(DiscIdentity(Damaged, [], pieces)) <==>
      && Boots(source, volume, pieces)
      && (BreaksOff(source, volume, pieces) || exists exe :: LeadsTo(source, volume, pieces, exe) && IsNotElf(source, exe))
  {
    hide Boots, PrimaryFrom, Walk, LeadsTo, Identified, IsSerialName, BreaksOff;
    BootsExactly(source, size, volume, pieces);
    forall exe
      ensures Walk(source, volume.bytes, volume.root, pieces, 0) == At(exe) <==> LeadsTo(source, volume, pieces, exe)
    {
      WalkIsDecided(source, volume, pieces, exe);
    }
    WalkIsDecided(source, volume, pieces, volume.root);
  }

  /**
   * Unknown, exactly: an executable under another kind of name; or, without a path, no SYSTEM.CNF at all or
   * one without exactly one usable BOOT2 setting.
   */
  lemma UnknownExactly(source: Bytes, size: nat, volume: Volume, pieces: seq<Bytes>)
    requires PrimaryFrom(source, size, FIRST_DESCRIPTOR) == Some(volume)
    ensures Identified(source, size) == Some(DiscIdentity(Unknown, [], pieces)) <==>
      if pieces == [] then
        || Nameless(source, volume.root, SYSTEM_CNF)
        || exists text :: Configures(source, volume, text) && BootPieces(text).None?
      else
        && Boots(source, volume, pieces)
        && (exists exe :: LeadsTo(source, volume, pieces, exe) && IsElf(source, exe))
        && !IsSerial(pieces[|pieces| - 1])
  {
    hide PrimaryFrom, Identified, Boots, LeadsTo, Nameless, Configures, BootPieces, IsElf, IsSerial;
    if pieces == [] {
      UnknownWithoutPath(source, size, volume);
    } else {
      UnknownWithPath(source, size, volume, pieces);
    }
  }

  lemma UnknownWithPath(source: Bytes, size: nat, volume: Volume, pieces: seq<Bytes>)
    requires PrimaryFrom(source, size, FIRST_DESCRIPTOR) == Some(volume) && pieces != []
    ensures Identified(source, size) == Some(DiscIdentity(Unknown, [], pieces)) <==>
      && Boots(source, volume, pieces)
      && (exists exe :: LeadsTo(source, volume, pieces, exe) && IsElf(source, exe))
      && !IsSerial(pieces[|pieces| - 1])
  {
    hide Boots, PrimaryFrom, Walk, LeadsTo, Identified, IsSerial, IsSerialName, BreaksOff;
    BootsExactly(source, size, volume, pieces);
    SerialNames(pieces[|pieces| - 1]);
    forall exe
      ensures Walk(source, volume.bytes, volume.root, pieces, 0) == At(exe) <==> LeadsTo(source, volume, pieces, exe)
    {
      WalkIsDecided(source, volume, pieces, exe);
    }
    WalkIsDecided(source, volume, pieces, volume.root);
  }

  lemma UnknownWithoutPath(source: Bytes, size: nat, volume: Volume)
    requires PrimaryFrom(source, size, FIRST_DESCRIPTOR) == Some(volume)
    ensures Identified(source, size) == Some(UNKNOWN) <==>
      || Nameless(source, volume.root, SYSTEM_CNF)
      || exists text :: Configures(source, volume, text) && BootPieces(text).None?
  {
    hide Configures, PrimaryFrom, EntryIn, BootPieces, Walk, Nameless;
    ConfiguredText(source, volume);
    SearchIsDecided(source, volume.bytes, volume.root, SYSTEM_CNF, false, volume.root);
    if exists text :: Configures(source, volume, text) && BootPieces(text).None? {
      var text :| Configures(source, volume, text) && BootPieces(text).None?;
    }
  }

  // ----- What it takes -----

  /** The bytes of these directories, and the records in them. */
  function Sizes(steps: seq<Extent>): nat { if steps == [] then 0 else steps[0].size + Sizes(steps[1..]) }

  function RecordsIn(source: Bytes, steps: seq<Extent>): nat {
    if steps == [] then 0
    else
      var records := Listing(source, steps[0], 0);
      (if records.Some? then |records.value| else 0) + RecordsIn(source, steps[1..])
  }

  lemma {:induction false} WalkCostsItsDirectories(source: Bytes, volume: nat, steps: seq<Extent>, pieces: seq<Bytes>, i: nat)
    requires pieces != [] && i < |pieces| && Path(source, volume, steps, pieces)
    ensures WalkCost(source, volume, steps[i], pieces, i)
            == Cost(Sizes(steps[i..|pieces|]), RecordsIn(source, steps[i..|pieces|]))
    decreases |pieces| - i
  {
    hide WalkCost, EntryIn, Sole, Listing;
    var rest := steps[i..|pieces|];
    assert rest[0] == steps[i] && rest[1..] == steps[i + 1..|pieces|];
    if i + 1 == |pieces| {
      WalkEnds(source, volume, steps[i], pieces);
      assert rest[1..] == [];
    } else {
      SoleIsFound(source, volume, steps[i], pieces[i], true, steps[i + 1]);
      WalkNext(source, volume, steps[i], pieces, i);
      WalkCostsItsDirectories(source, volume, steps, pieces, i + 1);
    }
  }

  /**
   * What inspecting a bootable image takes, exactly: the descriptors up to the primary one, the root for SYSTEM.CNF and
   * its text, each directory of the path once, and four bytes of the executable; and each of their records once.
   */
  lemma InspectionTakes(source: Bytes, size: nat, volume: Volume, cnf: Extent, pieces: seq<Bytes>, steps: seq<Extent>)
    requires PrimaryFrom(source, size, FIRST_DESCRIPTOR) == Some(volume) && pieces != []
    requires Sole(source, volume.bytes, volume.root, SYSTEM_CNF, false, cnf)
    requires cnf.size <= 16384 && cnf.origin + cnf.size <= |source|
    requires IsAscii(source[cnf.origin..cnf.origin + cnf.size])
    requires BootPieces(source[cnf.origin..cnf.origin + cnf.size]) == Some(pieces)
    requires Path(source, volume.bytes, steps, pieces) && steps[0] == volume.root && steps[|pieces|].size >= 4
    ensures InspectionCost(source, size) ==
      Cost((volume.sector - 15) * 2048 + volume.root.size + cnf.size + Sizes(steps[..|pieces|]) + 4,
           RecordsIn(source, [volume.root]) + RecordsIn(source, steps[..|pieces|]))
  {
    hide PrimaryFrom, EntryIn, Sole, BootPieces, Walk, WalkCost, Listing;
    SoleIsFound(source, volume.bytes, volume.root, SYSTEM_CNF, false, cnf);
    PathIsWalked(source, volume.bytes, steps, pieces);
    WalkCostsItsDirectories(source, volume.bytes, steps, pieces, 0);
    assert steps[0..|pieces|] == steps[..|pieces|];
    assert RecordsIn(source, [volume.root][1..]) == 0;
  }

  // ----- What a writer of plain images records -----

  /** A descriptor sector of this type. */
  predicate DescriptorAt(source: Bytes, size: nat, sector: nat, kind: Byte) {
    && Present(source, size, sector * SECTOR, SECTOR)
    && source[sector * SECTOR] == kind && source[sector * SECTOR + 1..sector * SECTOR + 7] == STANDARD
  }

  /** Neither a primary descriptor nor the terminator. */
  predicate OtherDescriptor(source: Bytes, size: nat, sector: nat) {
    && Present(source, size, sector * SECTOR, SECTOR)
    && DescriptorAt(source, size, sector, source[sector * SECTOR]) && source[sector * SECTOR] !in {1, 255}
  }

  predicate PrimaryAt(source: Bytes, size: nat, sector: nat, volume: Volume) {
    && DescriptorAt(source, size, sector, 1)
    && PrimaryVolume(size, sector, source[sector * SECTOR..sector * SECTOR + SECTOR]) == Result.Ok(volume)
  }

  /** The volume is that of the first primary descriptor in sectors 16 to 47, with only other descriptors before it. */
  lemma {:induction false} PrimaryExactly(source: Bytes, size: nat, from: nat, volume: Volume)
    requires from <= LAST_DESCRIPTOR
    ensures PrimaryFrom(source, size, from) == Some(volume) <==>
      && from <= volume.sector < LAST_DESCRIPTOR && PrimaryAt(source, size, volume.sector, volume)
      && forall k | from <= k < volume.sector :: OtherDescriptor(source, size, k)
    decreases LAST_DESCRIPTOR - from
  {
    hide PrimaryVolume;
    if from < LAST_DESCRIPTOR {
      var other := OtherDescriptor(source, size, from);
      if Present(source, size, from * SECTOR, SECTOR) {
        var descriptor := source[from * SECTOR..from * SECTOR + SECTOR];
        SliceOfSlice(source, from * SECTOR, 1, 7);
        PrimarySector(size, from, descriptor);
      }
      PrimaryExactly(source, size, from + 1, volume);
      if other {
        assert PrimaryFrom(source, size, from) == PrimaryFrom(source, size, from + 1);
      }
    }
  }

  lemma SliceOfSlice(s: Bytes, from: nat, i: nat, j: nat)
    requires from + SECTOR <= |s| && i <= j <= SECTOR
    ensures s[from..from + SECTOR][i..j] == s[from + i..from + j] && s[from..from + SECTOR][0] == s[from]
  {
    var d := s[from..from + SECTOR];
    forall k | 0 <= k < j - i
      ensures d[i..j][k] == s[from + i..from + j][k]
    {
      assert d[i..j][k] == d[i + k];
    }
  }

  lemma PrimarySector(size: nat, sector: nat, descriptor: Bytes)
    requires |descriptor| == SECTOR
    ensures PrimaryVolume(size, sector, descriptor).Ok? ==> PrimaryVolume(size, sector, descriptor).value.sector == sector
  {
  }

  /** A primary descriptor with blocks of 2048 bytes, so many blocks, and a plain record of the root directory. */
  predicate PlainDescriptor(d: Bytes, blocks: nat, lba: nat, bytes: nat) {
    && |d| == SECTOR
    && d[128..132] == LittleBytes(SECTOR, 2) + BigBytes(SECTOR, 2)
    && d[80..88] == LittleBytes(blocks, 4) + BigBytes(blocks, 4)
    && d[156..190] == PlainRecord(lba, bytes, true, [0])
  }

  /**
   * Such a descriptor gives volume and root when the image has that many blocks and the root lies in them, and is
   * refused otherwise.
   */
  lemma DescriptorIsRead(size: nat, sector: nat, d: Bytes, blocks: nat, lba: nat, bytes: nat)
    requires PlainDescriptor(d, blocks, lba, bytes)
    requires blocks < 0x1_0000_0000 && 1 <= lba < 0x1_0000_0000 && 1 <= bytes <= MAX_DIRECTORY_BYTES
    ensures PrimaryVolume(size, sector, d) ==
      if 17 <= blocks && blocks * 2048 <= size && lba * 2048 + bytes <= blocks * 2048
      then Result.Ok(Volume(blocks * 2048, Extent(lba * 2048, bytes), sector)) else Result.Err(Invalid)
  {
    hide LittleBytes, BigBytes, Both, Capacity, PlainRecord, ExtentOf;
    FourByteCapacity();
    TwoByteCapacity();
    BothRecovers(SECTOR, 2);
    BothRecovers(blocks, 4);
    var root := PlainRecord(lba, bytes, true, [0]);
    PlainRecordFields(lba, bytes, true, [0]);
    assert d[156] == d[156..190][0] == 34;
    PlainExtent(blocks * SECTOR, lba, bytes, true, [0]);
  }

  lemma TwoByteCapacity()
    ensures Capacity(2) == 0x1_0000
  {
  }

  /** The extent of a plain record, when it lies in the volume, and a refusal when it does not. */
  lemma PlainExtent(volume: nat, lba: nat, size: nat, directory: bool, name: Bytes)
    requires 1 <= |name| <= 200 && 1 <= lba < 0x1_0000_0000 && 1 <= size < 0x1_0000_0000
    requires directory ==> size <= MAX_DIRECTORY_BYTES
    ensures ExtentOf(volume, PlainRecord(lba, size, directory, name), directory) ==
      if lba * SECTOR + size <= volume then Result.Ok(Extent(lba * SECTOR, size)) else Result.Err(Invalid)
  {
    hide PlainRecord, LittleBytes, BigBytes, Both, Capacity;
    PlainRecordFields(lba, size, directory, name);
    FourByteCapacity();
    BothRecovers(lba, 4);
    BothRecovers(size, 4);
  }

  lemma {:induction false} LittleWasWritten(s: Bytes)
    ensures LittleEndian(s) < Capacity(|s|) && LittleBytes(LittleEndian(s), |s|) == s
  {
    if s != [] {
      LittleWasWritten(s[1..]);
      var first: int, later := s[0], LittleEndian(s[1..]);
      assert (first + 256 * later) % 256 == first && (first + 256 * later) / 256 == later;
      assert s == [s[0]] + s[1..];
    }
  }

  lemma {:induction false} BigWasWritten(s: Bytes)
    ensures BigEndian(s) < Capacity(|s|) && BigBytes(BigEndian(s), |s|) == s
  {
    if s != [] {
      var n := |s| - 1;
      BigWasWritten(s[..n]);
      var last: int, before := s[n], BigEndian(s[..n]);
      assert (256 * before + last) % 256 == last && (256 * before + last) / 256 == before;
      assert s == s[..n] + [s[n]];
    }
  }

  /** A field gives a number exactly when it records that number in both byte orders. */
  lemma BothExactly(s: Bytes, width: nat, n: nat)
    requires |s| == 2 * width
    ensures Both(s) == Some(n) <==> n < Capacity(width) && s == LittleBytes(n, width) + BigBytes(n, width)
  {
    hide LittleBytes, BigBytes, Capacity, LittleEndian, BigEndian;
    LittleWasWritten(s[..width]);
    BigWasWritten(s[width..]);
    assert s == s[..width] + s[width..];
    if n < Capacity(width) && s == LittleBytes(n, width) + BigBytes(n, width) { BothRecovers(n, width); }
  }

  /**
   * A record of one plain extent: its own length, a name inside it, the kind sought, and nothing extended,
   * interleaved or continued.
   */
  predicate IsOrdinary(record: Bytes, directory: bool) {
    && 34 <= |record| && record[0] as int == |record| && 33 + record[32] as int <= |record|
    && (record[25] / 2 % 2 == 1 <==> directory)
    && record[1] == 0 && record[26] == 0 && record[27] == 0 && record[25] < 128
  }

  /**
   * A record gives an extent, exactly: an ordinary one that records place and size in both orders, inside the
   * volume, a directory within 1 MiB.
   */
  lemma ExtentExactly(volume: nat, record: Bytes, directory: bool, lba: nat, size: nat)
    ensures ExtentOf(volume, record, directory) == Result.Ok(Extent(lba * 2048, size)) <==>
      && IsOrdinary(record, directory)
      && 1 <= lba < 0x1_0000_0000 && record[2..10] == LittleBytes(lba, 4) + BigBytes(lba, 4)
      && 1 <= size < 0x1_0000_0000 && record[10..18] == LittleBytes(size, 4) + BigBytes(size, 4)
      && lba * 2048 + size <= volume && (directory ==> size <= 0x10_0000)
  {
    hide LittleBytes, BigBytes, Both, Capacity;
    FourByteCapacity();
    if IsOrdinary(record, directory) {
      BothExactly(record[2..10], 4, lba);
      BothExactly(record[10..18], 4, size);
    }
  }

  /** A record that says its own length and has a name. */
  predicate Packable(record: Bytes) {
    && 34 <= |record| == record[0] as int
    && var nameLength: int := record[32]; 1 <= nameLength && 33 + nameLength <= |record|
  }

  predicate AllPackable(records: seq<Bytes>) { forall i | 0 <= i < |records| :: Packable(records[i]) }

  /** The rest of a sector behind its last record. */
  predicate IsPadding(pad: Bytes) { pad == [] || pad[0] == 0 }

  /** The records packed into a sector are read back, up to the padding. */
  lemma {:induction false} SectorIsRead(before: Bytes, records: seq<Bytes>, pad: Bytes)
    requires AllPackable(records) && IsPadding(pad)
    ensures SectorRecords(before + Join(records) + pad, |before|) == Some(records)
    decreases |records|
  {
    hide Packable, SectorRecords;
    var data := before + Join(records) + pad;
    if records == [] {
      assert data == before + pad;
      PaddingEnds(before, pad);
    } else {
      var first := records[0];
      var later := Join(records[1..]) + pad;
      assert data == before + first + later && data == before + first + Join(records[1..]) + pad;
      FirstRecord(before, first, later);
      SectorIsRead(before + first, records[1..], pad);
      assert records == [first] + records[1..];
    }
  }

  lemma PaddingEnds(before: Bytes, pad: Bytes)
    requires IsPadding(pad)
    ensures SectorRecords(before + pad, |before|) == Some([])
  {
  }

  lemma FirstRecord(before: Bytes, first: Bytes, later: Bytes)
    requires Packable(first)
    ensures var data := before + first + later;
      SectorRecords(data, |before|) == Prepend([first], SectorRecords(data, |before + first|))
  {
    var data := before + first + later;
    assert data[|before|] == first[0] && data[|before| + 32] == first[32];
    assert data[|before|..|before| + |first|] == first;
  }

  /** The bytes of a directory from sector k on. */
  predicate SectorHolds(source: Bytes, directory: Extent, k: nat, records: seq<Bytes>)
    requires k * SECTOR < directory.size
  {
    var from, length := directory.origin + k * SECTOR, Minimum(SECTOR, directory.size - k * SECTOR);
    && AllPackable(records) && from + length <= |source| && |Join(records)| <= length
    && source[from..from + |Join(records)|] == Join(records)
    && IsPadding(source[from + |Join(records)|..from + length])
  }

  function Flattened(sectors: seq<seq<Bytes>>): seq<Bytes> {
    if sectors == [] then [] else sectors[0] + Flattened(sectors[1..])
  }

  /** A directory that holds these records, sector by sector, lists exactly them, in order. */
  lemma {:induction false} DirectoryIsRead(source: Bytes, directory: Extent, sectors: seq<seq<Bytes>>, k: nat)
    requires k <= |sectors| && directory.size <= |sectors| * SECTOR < directory.size + SECTOR
    requires forall i: nat | i < |sectors| :: SectorHolds(source, directory, i, sectors[i])
    ensures Listing(source, directory, k * SECTOR) == Some(Flattened(sectors[k..]))
    decreases |sectors| - k
  {
    hide SectorRecords, SectorHolds;
    if k < |sectors| {
      assert SectorHolds(source, directory, k, sectors[k]);
      HeldSectorIsRead(source, directory, k, sectors[k]);
      DirectoryIsRead(source, directory, sectors, k + 1);
      assert sectors[k..][1..] == sectors[k + 1..];
    }
  }

  lemma HeldSectorIsRead(source: Bytes, directory: Extent, k: nat, records: seq<Bytes>)
    requires k * SECTOR < directory.size && SectorHolds(source, directory, k, records)
    ensures var from, length := directory.origin + k * SECTOR, Minimum(SECTOR, directory.size - k * SECTOR);
      from + length <= |source| && SectorRecords(source[from..from + length], 0) == Some(records)
  {
    hide SectorRecords, Packable;
    var from, length := directory.origin + k * SECTOR, Minimum(SECTOR, directory.size - k * SECTOR);
    var packed := Join(records);
    CutInTwo(source, from, |packed|, length);
    SectorIsRead([], records, source[from + |packed|..from + length]);
    assert [] + packed == packed;
  }

  lemma CutInTwo(s: Bytes, from: nat, middle: nat, length: nat)
    requires middle <= length && from + length <= |s|
    ensures s[from..from + length] == s[from..from + middle] + s[from + middle..from + length]
  {
  }
}
