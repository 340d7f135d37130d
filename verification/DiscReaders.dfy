/**
 * The inspector as it runs: one reader with a shared read budget, a record
 * count and a volume that narrows once the primary descriptor is known.
 */
module DiscReaders {
  import opened Common
  import opened DiscVolumes

  const MAX_READ_BYTES := 4 * 1024 * 1024
  const MAX_RECORDS := 8192

  /** One read, with the bounds of the volume at that moment. */
  datatype Span = Span(offset: nat, length: nat, volume: nat)

  function Total(spans: seq<Span>): nat {
    if spans == [] then 0 else Total(spans[..|spans| - 1]) + spans[|spans| - 1].length
  }

  predicate Inside(spans: seq<Span>, size: nat) {
    forall i | 0 <= i < |spans| :: spans[i].offset + spans[i].length <= spans[i].volume <= size
  }

  class IsoReader {
    const source: Bytes
    const size: nat
    var remaining: nat
    var records: nat
    var volumeBytes: nat
    /** Everything read so far. */
    ghost var spans: seq<Span>

    ghost predicate Valid()
      reads this
    {
      && Total(spans) + remaining == MAX_READ_BYTES
      && Inside(spans, size) && volumeBytes <= size && records <= MAX_RECORDS
    }

    /** What the two limits still allow. */
    ghost function Left(): Cost
      requires Valid()
      reads this
    {
      Cost(remaining, MAX_RECORDS - records)
    }

    /** This much was used up since. */
    twostate predicate Spent(cost: Cost)
      reads this
    {
      old(remaining) == remaining + cost.bytes && records == old(records) + cost.records
    }

    constructor (source: Bytes, size: nat)
      ensures Valid() && this.source == source && this.size == size
      ensures volumeBytes == size && Left() == Cost(MAX_READ_BYTES, MAX_RECORDS)
    {
      this.source, this.size := source, size;
      remaining, records, volumeBytes := MAX_READ_BYTES, 0, size;
      spans := [];
    }

    /** Exactly the bytes asked for, when they are in the volume, present, and within the budget. */
    method Read(offset: nat, length: nat) returns (r: Result<Bytes>)
      requires Valid()
      modifies this`remaining, this`spans
      ensures Valid()
      ensures r.Ok? <==> Present(source, volumeBytes, offset, length) && length <= old(remaining)
      ensures r.Ok? ==> r.value == source[offset..offset + length] && Spent(Cost(length, 0))
      ensures r.Err? && Present(source, volumeBytes, offset, length) ==> r.failure == Unsupported
    {
      if offset + length > volumeBytes { return Err(Invalid); }
      if length > remaining { return Err(Unsupported); }
      remaining := remaining - length;
      ghost var before := spans;
      spans := spans + [Span(offset, length, volumeBytes)];
      assert spans[..|spans| - 1] == before;
      if offset + length > |source| { return Err(Invalid); }
      return Ok(source[offset..offset + length]);
    }

    /** The root of the first primary volume; the volume narrows to what its descriptor says. */
    method Root() returns (r: Result<Extent>)
      requires Valid() && volumeBytes == size && remaining == MAX_READ_BYTES
      modifies this`remaining, this`spans, this`volumeBytes
      ensures Valid()
      ensures var volume := PrimaryFrom(source, size, FIRST_DESCRIPTOR);
        && (r.Ok? <==> volume.Some?)
        && (r.Ok? ==> volumeBytes == volume.value.bytes && r.value == volume.value.root
                      && Spent(Cost((volume.value.sector + 1 - FIRST_DESCRIPTOR) * SECTOR, 0)))
    {
      hide PrimaryVolume, Valid;
      for sector := FIRST_DESCRIPTOR to LAST_DESCRIPTOR
        invariant Valid() && volumeBytes == size
        invariant remaining == MAX_READ_BYTES - (sector - FIRST_DESCRIPTOR) * SECTOR
        invariant PrimaryFrom(source, size, FIRST_DESCRIPTOR) == PrimaryFrom(source, size, sector)
      {
        var read := Read(sector * SECTOR, SECTOR);
        if read.Err? { return Err(read.failure); }
        var descriptor := read.value;
        if descriptor[1..7] != STANDARD { return Err(Invalid); }
        if descriptor[0] == 255 { return Err(Invalid); }
        if descriptor[0] != 1 { continue; }
        var volume := PrimaryVolume(size, sector, descriptor);
        if volume.Err? { return Err(volume.failure); }
        Narrow(volume.value.bytes);
        return Ok(volume.value.root);
      }
      return Err(Unsupported);
    }

    method Narrow(bytes: nat)
      requires Valid() && bytes <= size
      modifies this`volumeBytes
      ensures Valid() && volumeBytes == bytes
    {
      volumeBytes := bytes;
    }

    /** The records of one sector, after those listed before it. */
    method FindInSector(data: Bytes, name: Bytes, isDirectory: bool, earlier: Option<Extent>, ghost listed: seq<Bytes>)
      returns (r: Result<Option<Extent>>)
      requires Valid() && AllNamed(listed) && FoundIn(volumeBytes, listed, name, isDirectory, earlier)
      modifies this`records
      ensures Valid()
      ensures var here := SectorRecords(data, 0);
        && (r.Ok? ==> here.Some? && FoundIn(volumeBytes, listed + here.value, name, isDirectory, r.value)
                      && Spent(Cost(0, |here.value|)))
        && (r.Err? ==> here.None? || old(records) + |here.value| > MAX_RECORDS
                       || Refused(volumeBytes, listed + here.value, name, isDirectory))
        && (r.Err? && here.Some? && !Refused(volumeBytes, listed + here.value, name, isDirectory) ==>
              r.failure == Unsupported)
    {
      hide WellFormedRecord, Matches, ExtentOf, Matching, NamedRecord;
      var found := earlier;
      var pos := 0;
      ghost var seen: seq<Bytes> := [];
      assert listed + seen == listed;
      PrependNothing(SectorRecords(data, 0));
      while pos < |data|
        invariant Valid() && AllNamed(seen) && records == old(records) + |seen|
        invariant SectorRecords(data, 0) == Prepend(seen, SectorRecords(data, pos))
        invariant FoundIn(volumeBytes, listed + seen, name, isDirectory, found)
        decreases |data| - pos
      {
        var length: int := data[pos];
        if length == 0 { break; }
        if records == MAX_RECORDS { return Err(Unsupported); }
        records := records + 1;
        if !WellFormedRecord(data, pos) { return Err(Invalid); }
        RecordLength(data, pos);
        var record := data[pos..pos + length];
        ghost var rest := SectorRecords(data, pos + length);
        RecordAdded(listed, seen, record, name);
        if Matches(record, name) {
          var extent := ExtentOf(volumeBytes, record, isDirectory);
          if found.Some? || extent.Err? {
            if rest.Some? {
              RefusedInSector(volumeBytes, listed, seen, record, rest.value, name, isDirectory);
            }
            return Err(if found.Some? then Invalid else extent.failure);
          }
          found := Some(extent.value);
        }
        PrependOne(seen, record, rest);
        seen := seen + [record];
        pos := pos + length;
      }
      assert SectorRecords(data, pos) == Some([]);
      assert seen + [] == seen;
      return Ok(found);
    }

    /** The extent of the directory's one record of this name, if it has one. */
    method Find(directory: Extent, name: Bytes, isDirectory: bool) returns (r: Result<Option<Extent>>)
      requires Valid() && directory.origin + directory.size <= volumeBytes
      modifies this`remaining, this`spans, this`records
      ensures Valid()
      ensures var entry := EntryIn(source, volumeBytes, directory, name, isDirectory);
        && (r.Ok? <==> entry != Bad && SearchCost(source, directory).Fits(old(Left())))
        && (r.Ok? ==> entry == (if r.value.Some? then At(r.value.value) else Absent) && Spent(SearchCost(source, directory)))
        && (r.Err? && entry != Bad ==> r.failure == Unsupported)
    {
      hide SectorRecords, ExtentOf, Matching, FoundIn, Refused, Total, Inside;
      var found: Option<Extent> := None;
      var offset := 0;
      ghost var listed: seq<Bytes> := [];
      NothingFound(volumeBytes, name, isDirectory);
      PrependNothing(Listing(source, directory, 0));
      while offset < directory.size
        invariant Valid() && AllNamed(listed)
        invariant remaining == old(remaining) - Minimum(offset, directory.size) && records == old(records) + |listed|
        invariant Listing(source, directory, 0) == Prepend(listed, Listing(source, directory, offset))
        invariant FoundIn(volumeBytes, listed, name, isDirectory, found)
        decreases directory.size - offset
      {
        var length := Minimum(SECTOR, directory.size - offset);
        var read := Read(directory.origin + offset, length);
        if read.Err? { return Err(read.failure); }
        ghost var sector, later := SectorRecords(read.value, 0), Listing(source, directory, offset + SECTOR);
        var here := FindInSector(read.value, name, isDirectory, found, listed);
        if here.Err? {
          if sector.Some? && later.Some? && Refused(volumeBytes, listed + sector.value, name, isDirectory) {
            RefusedInDirectory(source, volumeBytes, directory, listed, sector.value, later.value, name, isDirectory);
          }
          return Err(here.failure);
        }
        found := here.value;
        PrependMore(listed, sector.value, later);
        listed := listed + sector.value;
        offset := offset + SECTOR;
      }
      assert listed + [] == listed;
      FoundIsEntry(source, volumeBytes, directory, name, isDirectory, found);
      return Ok(found);
    }

    /** Following the boot path from the root directory. */
    method Follow(root: Extent, pieces: seq<Bytes>) returns (r: Result<Option<Extent>>)
      requires Valid() && pieces != [] && root.origin + root.size <= volumeBytes
      modifies this`remaining, this`spans, this`records
      ensures Valid()
      ensures var entry, cost := Walk(source, volumeBytes, root, pieces, 0), WalkCost(source, volumeBytes, root, pieces, 0);
        && (r.Ok? <==> entry != Bad && cost.Fits(old(Left())))
        && (r.Ok? ==> entry == (if r.value.Some? then At(r.value.value) else Absent) && Spent(cost))
        && (r.Err? && entry != Bad ==> r.failure == Unsupported)
    {
      hide EntryIn, SearchCost, Walk, WalkCost, Cost.Fits, Total, Inside, IsoReader.Valid;
      var current := root;
      ghost var spent := Cost(0, 0);
      for index := 0 to |pieces| - 1
        invariant Valid() && Spent(spent) && current.origin + current.size <= volumeBytes
        invariant Walk(source, volumeBytes, root, pieces, 0) == Walk(source, volumeBytes, current, pieces, index)
        invariant WalkCost(source, volumeBytes, root, pieces, 0)
                  == spent.Plus(WalkCost(source, volumeBytes, current, pieces, index))
        invariant WalkCost(source, volumeBytes, root, pieces, 0).Fits(old(Left()))
                  <==> WalkCost(source, volumeBytes, current, pieces, index).Fits(Left())
      {
        ghost var entry, search := EntryIn(source, volumeBytes, current, pieces[index], true), SearchCost(source, current);
        ghost var left := Left();
        WalkNext(source, volumeBytes, current, pieces, index);
        if entry.At? { MoreToPay(search, WalkCost(source, volumeBytes, entry.extent, pieces, index + 1), left); }
        var next := Find(current, pieces[index], true);
        if next.Err? { return Err(next.failure); }
        if next.value.None? { return Ok(None); }
        PaidAlready(search, WalkCost(source, volumeBytes, next.value.value, pieces, index + 1), left, Left());
        spent := spent.Plus(search);
        current := next.value.value;
      }
      WalkEnds(source, volumeBytes, current, pieces);
      r := Find(current, pieces[|pieces| - 1], false);
    }

    method InspectExecutable(exe: Extent, pieces: seq<Bytes>) returns (r: Result<DiscIdentity>)
      requires Valid() && pieces != [] && exe.origin + exe.size <= volumeBytes
      modifies this`remaining, this`spans
      ensures Valid()
      ensures var cost := Cost(if exe.size >= 4 then 4 else 0, 0);
        && (r.Ok? <==> ExecutableIdentity(source, pieces, exe).Some? && cost.Fits(old(Left())))
        && (r.Ok? ==> ExecutableIdentity(source, pieces, exe) == Some(r.value) && Spent(cost))
        && (r.Err? && ExecutableIdentity(source, pieces, exe).Some? ==> r.failure == Unsupported)
    {
      if exe.size < 4 { return Ok(DiscIdentity(Damaged, [], pieces)); }
      var magic := Read(exe.origin, 4);
      if magic.Err? { return Err(magic.failure); }
      if magic.value != ELF { return Ok(DiscIdentity(Damaged, [], pieces)); }
      var name := pieces[|pieces| - 1];
      if !IsSerialName(name) { return Ok(DiscIdentity(Unknown, [], pieces)); }
      return Ok(DiscIdentity(Verified, Upper(name), pieces));
    }

    method InspectBoot(ghost volume: Volume, root: Extent, pieces: seq<Bytes>) returns (r: Result<DiscIdentity>)
      requires Valid() && pieces != [] && root.origin + root.size <= volumeBytes
      requires volume.bytes == volumeBytes && volume.root == root
      modifies this`remaining, this`spans, this`records
      ensures Valid()
      ensures var identity, cost := BootIdentity(source, volume, pieces), BootCost(source, volume, pieces);
        && (r.Ok? <==> identity.Some? && cost.Fits(old(Left())))
        && (r.Ok? ==> identity == Some(r.value) && Spent(cost))
        && (r.Err? && identity.Some? ==> r.failure == Unsupported)
    {
      hide Walk, WalkCost, ExecutableIdentity;
      var exe := Follow(root, pieces);
      if exe.Err? { return Err(exe.failure); }
      if exe.value.None? { return Ok(DiscIdentity(Damaged, [], pieces)); }
      WalkStaysInside(source, volumeBytes, root, pieces);
      r := InspectExecutable(exe.value.value, pieces);
    }

    method InspectConfigured(ghost volume: Volume, root: Extent, cnf: Extent) returns (r: Result<DiscIdentity>)
      requires Valid() && root.origin + root.size <= volumeBytes && cnf.origin + cnf.size <= volumeBytes
      requires volume.bytes == volumeBytes && volume.root == root
      modifies this`remaining, this`spans, this`records
      ensures Valid()
      ensures var identity, cost := ConfiguredIdentity(source, volume, cnf), ConfiguredCost(source, volume, cnf);
        && (r.Ok? <==> identity.Some? && cost.Fits(old(Left())))
        && (r.Ok? ==> identity == Some(r.value) && Spent(cost))
        && (r.Err? && identity.Some? ==> r.failure == Unsupported)
    {
      hide BootIdentity, BootCost, BootPieces;
      if cnf.size > MAX_CNF_BYTES { return Err(Unsupported); }
      var text := Read(cnf.origin, cnf.size);
      if text.Err? { return Err(text.failure); }
      if !IsAscii(text.value) { return Err(Invalid); }
      var pieces := BootPieces(text.value);
      if pieces.None? { return Ok(UNKNOWN); }
      r := InspectBoot(volume, root, pieces.value);
    }

    /**
     * The bounded inspection answers precisely when the image has an identity and finding it takes no more
     * than 4 MiB of reads and 8192 records, and then it answers what the image says; an image that only costs
     * too much is unsupported, never invalid. Whatever happens, it reads no more than the budget and only inside
     * the volume of the moment.
     */
    method Inspect() returns (r: Result<DiscIdentity>)
      requires Valid() && volumeBytes == size && Left() == Cost(MAX_READ_BYTES, MAX_RECORDS)
      modifies this
      ensures r.Ok? <==> Identified(source, size).Some? && InspectionCost(source, size).Fits(Cost(4194304, 8192))
      ensures r.Ok? ==> Identified(source, size) == Some(r.value)
      ensures r.Err? && Identified(source, size).Some? ==> r.failure == Unsupported
      ensures Valid() && Total(spans) <= 4194304 && Inside(spans, size) && records <= 8192
      ensures r.Ok? ==> Cost(Total(spans), records) == InspectionCost(source, size)
    {
      hide PrimaryFrom, EntryIn, SearchCost, ConfiguredIdentity, ConfiguredCost;
      var root := Root();
      if root.Err? { return Err(root.failure); }
      ghost var volume := PrimaryFrom(source, size, FIRST_DESCRIPTOR).value;
      var cnf := Find(root.value, SYSTEM_CNF, false);
      if cnf.Err? { return Err(cnf.failure); }
      if cnf.value.None? { return Ok(UNKNOWN); }
      r := InspectConfigured(volume, root.value, cnf.value.value);
    }
  }

  // ----- Paying in parts -----

  lemma MoreToPay(now: Cost, later: Cost, left: Cost)
    ensures now.Plus(later).Fits(left) ==> now.Fits(left)
  {
  }

  lemma PaidAlready(now: Cost, later: Cost, before: Cost, left: Cost)
    requires before == left.Plus(now)
    ensures now.Plus(later).Fits(before) <==> later.Fits(left)
  {
  }

  // ----- Matches so far -----

  predicate AllNamed(records: seq<Bytes>) { forall i | 0 <= i < |records| :: NamedRecord(records[i]) }

  /** At most one record matches, and `found` is its extent. */
  predicate FoundIn(volume: nat, records: seq<Bytes>, name: Bytes, isDirectory: bool, found: Option<Extent>) {
    AllNamed(records) &&
    var matching := Matching(records, name);
    if found.None? then matching == [] else |matching| == 1 && ExtentOf(volume, matching[0], isDirectory) == Ok(found.value)
  }

  /** Two records match, or the only one has no usable extent. */
  predicate Refused(volume: nat, records: seq<Bytes>, name: Bytes, isDirectory: bool) {
    AllNamed(records) &&
    var matching := Matching(records, name);
    |matching| >= 1 && (|matching| > 1 || ExtentOf(volume, matching[0], isDirectory).Err?)
  }

  lemma PrependNothing(r: Option<seq<Bytes>>)
    ensures Prepend([], r) == r
  {
    assert r.Some? ==> [] + r.value == r.value;
  }

  lemma PrependOne(seen: seq<Bytes>, record: Bytes, rest: Option<seq<Bytes>>)
    ensures Prepend(seen, Prepend([record], rest)) == Prepend(seen + [record], rest)
  {
    assert rest.Some? ==> seen + ([record] + rest.value) == seen + [record] + rest.value;
  }

  lemma PrependMore(listed: seq<Bytes>, sector: seq<Bytes>, rest: Option<seq<Bytes>>)
    requires AllNamed(listed) && AllNamed(sector)
    ensures Prepend(listed, Prepend(sector, rest)) == Prepend(listed + sector, rest) && AllNamed(listed + sector)
  {
    assert rest.Some? ==> listed + (sector + rest.value) == listed + sector + rest.value;
  }

  lemma RecordLength(data: Bytes, pos: nat)
    requires pos < |data| && WellFormedRecord(data, pos)
    ensures data[pos] >= 34 && pos + data[pos] as int <= |data|
    ensures NamedRecord(data[pos..pos + data[pos] as int])
  {
  }

  lemma MatchingOneMore(records: seq<Bytes>, record: Bytes, name: Bytes)
    requires AllNamed(records) && NamedRecord(record)
    ensures AllNamed(records + [record])
    ensures Matching(records + [record], name) == Matching(records, name) + if Matches(record, name) then [record] else []
  {
    hide Matches;
    assert (records + [record])[..|records|] == records;
  }

  lemma {:induction false} RefusedStays(volume: nat, records: seq<Bytes>, more: seq<Bytes>, name: Bytes, isDirectory: bool)
    requires Refused(volume, records, name, isDirectory) && AllNamed(more)
    ensures Refused(volume, records + more, name, isDirectory)
  {
    hide Matches, ExtentOf;
    if more == [] {
      assert records + more == records;
    } else {
      var before := more[..|more| - 1];
      RefusedStays(volume, records, before, name, isDirectory);
      MatchingOneMore(records + before, more[|more| - 1], name);
      assert records + more == records + before + [more[|more| - 1]];
    }
  }

  lemma RecordAdded(listed: seq<Bytes>, seen: seq<Bytes>, record: Bytes, name: Bytes)
    requires AllNamed(listed) && AllNamed(seen) && NamedRecord(record)
    ensures AllNamed(seen + [record]) && AllNamed(listed + (seen + [record])) && AllNamed(listed + seen)
    ensures Matching(listed + (seen + [record]), name)
            == Matching(listed + seen, name) + if Matches(record, name) then [record] else []
  {
    hide Matches;
    assert listed + (seen + [record]) == listed + seen + [record];
    MatchingOneMore(listed + seen, record, name);
  }

  lemma RefusedInSector(volume: nat, listed: seq<Bytes>, seen: seq<Bytes>, record: Bytes, rest: seq<Bytes>, name: Bytes,
                        isDirectory: bool)
    requires Refused(volume, listed + (seen + [record]), name, isDirectory) && AllNamed(rest)
    ensures Refused(volume, listed + (seen + ([record] + rest)), name, isDirectory)
  {
    RefusedStays(volume, listed + (seen + [record]), rest, name, isDirectory);
    assert listed + (seen + ([record] + rest)) == listed + (seen + [record]) + rest;
  }

  lemma NothingFound(volume: nat, name: Bytes, isDirectory: bool)
    ensures FoundIn(volume, [], name, isDirectory, None)
  {
  }

  lemma FoundIsEntry(source: Bytes, volume: nat, directory: Extent, name: Bytes, isDirectory: bool, found: Option<Extent>)
    requires Listing(source, directory, 0).Some?
    requires FoundIn(volume, Listing(source, directory, 0).value, name, isDirectory, found)
    ensures EntryIn(source, volume, directory, name, isDirectory) == if found.Some? then At(found.value) else Absent
  {
  }

  lemma RefusedInDirectory(source: Bytes, volume: nat, directory: Extent, listed: seq<Bytes>, sector: seq<Bytes>,
                           later: seq<Bytes>, name: Bytes, isDirectory: bool)
    requires Listing(source, directory, 0) == Some(listed + (sector + later)) && AllNamed(later)
    requires Refused(volume, listed + sector, name, isDirectory)
    ensures EntryIn(source, volume, directory, name, isDirectory) == Bad
  {
    hide Refused, EntryIn, Listing;
    RefusedStays(volume, listed + sector, later, name, isDirectory);
    assert listed + (sector + later) == listed + sector + later;
    RefusedIsBad(source, volume, directory, name, isDirectory);
  }

  lemma RefusedIsBad(source: Bytes, volume: nat, directory: Extent, name: Bytes, isDirectory: bool)
    requires Listing(source, directory, 0).Some?
    requires Refused(volume, Listing(source, directory, 0).value, name, isDirectory)
    ensures EntryIn(source, volume, directory, name, isDirectory) == Bad
  {
  }

  lemma WalkStaysInside(source: Bytes, volume: nat, from: Extent, pieces: seq<Bytes>)
    requires pieces != [] && Walk(source, volume, from, pieces, 0).At?
    ensures var e := Walk(source, volume, from, pieces, 0).extent; e.origin + e.size <= volume
  {
  }
}
