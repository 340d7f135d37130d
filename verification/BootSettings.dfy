/**
 * SYSTEM.CNF as it is written in practice: which line sets BOOT2, in which spelling,
 * and which path a setting stands for, exactly.
 */
module BootSettings {
  import opened Common
  import opened HttpPaths
  import opened DiscVolumes

  // ----- The boot setting among others -----

  lemma {:induction false} BlanksSkipped(line: Bytes, after: Bytes)
    requires after != [] && after[0] == 10
    ensures SkipBlanks(line + after) == SkipBlanks(line) + after
  {
    if line != [] && (line[0] == 32 || line[0] == 9) {
      assert (line + after)[1..] == line[1..] + after;
      BlanksSkipped(line[1..], after);
    }
  }

  lemma {:induction false} ValueEndsWithLine(line: Bytes, after: Bytes)
    requires after != [] && after[0] == 10
    ensures LineValue(line + after) == LineValue(line)
  {
    if line != [] {
      assert (line + after)[1..] == line[1..] + after;
      ValueEndsWithLine(line[1..], after);
    } else {
      assert line + after == after;
    }
  }

  predicate OneLine(line: Bytes) { forall i | 0 <= i < |line| :: line[i] != 10 }

  lemma {:induction false} SkippedIsSuffix(s: Bytes)
    requires OneLine(s)
    ensures OneLine(SkipBlanks(s))
  {
    if s != [] { SkippedIsSuffix(s[1..]); }
  }

  lemma PrefixInLine(name: Bytes, after: Bytes)
    requires after != [] && after[0] == 10
    ensures StartsWith(name + after, BOOT2) <==> StartsWith(name, BOOT2)
  {
    var s := name + after;
    if |name| >= 5 {
      assert s[..5] == name[..5];
    } else if |s| >= 5 {
      assert s[..5][|name|] == 10;
      assert Upper(s[..5])[|name|] == 10;
    }
  }

  /** What a line sets does not depend on the lines after it. */
  lemma SettingInLine(line: Bytes, after: Bytes)
    requires after != [] && after[0] == 10
    ensures LineSetting(line + after) == LineSetting(line)
  {
    hide StartsWith, SkipBlanks, LineValue;
    BlanksSkipped(line, after);
    var name := SkipBlanks(line);
    PrefixInLine(name, after);
    if StartsWith(name, BOOT2) {
      StartsLong(name);
      assert (name + after)[5..] == name[5..] + after;
      BlanksSkipped(name[5..], after);
      var equals := SkipBlanks(name[5..]);
      if equals != [] {
        assert (equals + after)[1..] == equals[1..] + after;
        BlanksSkipped(equals[1..], after);
        ValueEndsWithLine(SkipBlanks(equals[1..]), after);
      }
    }
  }

  lemma StartsLong(name: Bytes)
    requires StartsWith(name, BOOT2)
    ensures |name| >= 5
  {
  }

  /** Every line that sets BOOT2 counts, in order, and no other. */
  lemma SettingsOfLine(line: Bytes, rest: Bytes)
    requires OneLine(line)
    ensures Settings(line + [10] + rest)
            == (if LineSetting(line).Some? then [LineSetting(line).value] else []) + Settings(rest)
  {
    hide LineSetting;
    assert line + [10] + rest == line + ([10] + rest);
    SettingInLine(line, [10] + rest);
    NextLineBegins(line, rest);
  }

  /** Lines, each with its line feed. */
  function Lined(lines: seq<Bytes>): Bytes { if lines == [] then [] else lines[0] + [10] + Lined(lines[1..]) }

  lemma {:induction false} OtherLinesSetNothing(lines: seq<Bytes>, rest: Bytes)
    requires forall i | 0 <= i < |lines| :: OneLine(lines[i]) && LineSetting(lines[i]).None?
    ensures Settings(Lined(lines) + rest) == Settings(rest)
  {
    hide LineSetting, Settings;
    if lines == [] {
      assert Lined(lines) + rest == rest;
    } else {
      OtherLinesSetNothing(lines[1..], rest);
      SettingsOfLine(lines[0], Lined(lines[1..]) + rest);
      assert Lined(lines) + rest == lines[0] + [10] + (Lined(lines[1..]) + rest);
    }
  }

  /** The boot path is found wherever its line stands among lines that do not set BOOT2. */
  lemma BootLineIsFound(lines: seq<Bytes>, pieces: seq<Bytes>, rest: Bytes)
    requires forall i | 0 <= i < |lines| :: OneLine(lines[i]) && LineSetting(lines[i]).None?
    requires PlainPieces(pieces) && Settings(rest) == []
    ensures BootPieces(Lined(lines) + BootText(pieces, rest)) == Some(pieces)
  {
    hide Settings, LineSetting, BootPath, Pieces, UsablePath, PlainPieces;
    OtherLinesSetNothing(lines, BootText(pieces, rest));
    BootPathIsRead(pieces, rest);
  }

  /** Two settings, the same or not, are as good as none. */
  lemma TwoSettingsBootNothing(lines: seq<Bytes>, first: Bytes, others: seq<Bytes>, second: Bytes, rest: Bytes)
    requires forall i | 0 <= i < |lines| :: OneLine(lines[i]) && LineSetting(lines[i]).None?
    requires forall i | 0 <= i < |others| :: OneLine(others[i]) && LineSetting(others[i]).None?
    requires OneLine(first) && LineSetting(first).Some? && OneLine(second) && LineSetting(second).Some?
    ensures BootPieces(Lined(lines) + (first + [10] + (Lined(others) + (second + [10] + rest)))) == None
  {
    hide Settings, LineSetting, BootPath, Pieces, UsablePath;
    OtherLinesSetNothing(lines, first + [10] + (Lined(others) + (second + [10] + rest)));
    SettingsOfLine(first, Lined(others) + (second + [10] + rest));
    OtherLinesSetNothing(others, second + [10] + rest);
    SettingsOfLine(second, rest);
  }

  // ----- How a setting may be spelled -----

  /** Spaces and tabs. */
  predicate AllBlank(s: Bytes) { forall i | 0 <= i < |s| :: s[i] == 32 || s[i] == 9 }

  lemma {:induction false} BlanksGo(blanks: Bytes, rest: Bytes)
    requires AllBlank(blanks) && (rest == [] || !(rest[0] == 32 || rest[0] == 9))
    ensures SkipBlanks(blanks + rest) == rest
  {
    if blanks == [] {
      assert blanks + rest == rest;
    } else {
      assert (blanks + rest)[1..] == blanks[1..] + rest;
      BlanksGo(blanks[1..], rest);
    }
  }

  lemma {:induction false} ValueIsWhole(v: Bytes, after: Bytes)
    requires (forall i | 0 <= i < |v| :: v[i] != 13 && v[i] != 10) && (after == [] || after[0] == 13 || after[0] == 10)
    ensures LineValue(v + after) == v
  {
    if v == [] {
      assert v + after == after;
    } else {
      assert (v + after)[1..] == v[1..] + after;
      ValueIsWhole(v[1..], after);
      assert v == [v[0]] + v[1..];
    }
  }

  /** A line sets BOOT2 in either case and with blanks wherever they may stand; its value is the rest of the line. */
  lemma SpacedSettingIsRead(a: Bytes, name: Bytes, b: Bytes, c: Bytes, v: Bytes, after: Bytes)
    requires AllBlank(a) && AllBlank(b) && AllBlank(c) && Upper(name) == BOOT2
    requires (forall i | 0 <= i < |v| :: v[i] != 13 && v[i] != 10) && (v != [] ==> v[0] != 32 && v[0] != 9)
    requires after == [] || after[0] == 13 || after[0] == 10
    ensures LineSetting(a + name + b + [61] + c + v + after) == Some(v)
  {
    hide SkipBlanks, LineValue, AllBlank;
    var value := v + after;
    var equals := [61] + (c + value);
    var named := name + (b + equals);
    assert a + name + b + [61] + c + v + after == a + named;
    NameBegins(name);
    assert named[0] == name[0];
    BlanksGo(a, named);
    assert named[..5] == name && named[5..] == b + equals;
    BlanksGo(b, equals);
    assert equals[1..] == c + value;
    assert value != [] ==> value[0] == if v != [] then v[0] else after[0];
    BlanksGo(c, value);
    ValueIsWhole(v, after);
  }

  lemma NameBegins(name: Bytes)
    requires Upper(name) == BOOT2
    ensures |name| == 5 && name[0] != 32 && name[0] != 9
  {
    assert UpperByte(name[0]) == BOOT2[0];
  }

  predicate AllSpace(s: Bytes) { forall i | 0 <= i < |s| :: IsSpace(s[i]) }

  predicate AllSeparators(s: Bytes) { forall i | 0 <= i < |s| :: IsSeparator(s[i]) }

  /** A path without blanks and semicolons that does not begin with a separator. */
  predicate IsBootPath(path: Bytes) {
    path != [] && !IsSeparator(path[0]) && forall i | 0 <= i < |path| :: path[i] != 59 && !IsSpace(path[i])
  }

  /** The spellings of a path: "cdrom0:" in any case, any separators, the path, perhaps ";1", and white space around it all. */
  ghost predicate Spells(setting: Bytes, path: Bytes) {
    exists lead, device, separators, version, trail ::
      && setting == lead + (device + separators + path + version) + trail
      && AllSpace(lead) && AllSpace(trail) && Upper(device) == DEVICE && AllSeparators(separators)
      && (version == [] || version == VERSION)
  }

  lemma {:induction false} TrimmedCore(lead: Bytes, core: Bytes, trail: Bytes)
    requires AllSpace(lead) && AllSpace(trail) && core != [] && !IsSpace(core[0]) && !IsSpace(core[|core| - 1])
    ensures Trimmed(lead + core + trail) == core
    decreases |lead| + |trail|
  {
    hide IsSpace;
    var s := lead + core + trail;
    if lead != [] {
      assert s[1..] == lead[1..] + core + trail;
      TrimmedCore(lead[1..], core, trail);
    } else if trail != [] {
      assert s[..|s| - 1] == lead + core + trail[..|trail| - 1];
      TrimmedCore(lead, core, trail[..|trail| - 1]);
    } else {
      assert s == core;
    }
  }

  lemma {:induction false} TrimmedSplits(s: Bytes) returns (lead: Bytes, trail: Bytes)
    ensures AllSpace(lead) && AllSpace(trail) && s == lead + Trimmed(s) + trail
    decreases |s|
  {
    hide IsSpace;
    lead, trail := [], [];
    if s != [] && IsSpace(s[0]) {
      lead, trail := TrimmedSplits(s[1..]);
      lead := [s[0]] + lead;
      assert s == [s[0]] + s[1..];
    } else if s != [] && IsSpace(s[|s| - 1]) {
      lead, trail := TrimmedSplits(s[..|s| - 1]);
      trail := trail + [s[|s| - 1]];
      assert s == s[..|s| - 1] + [s[|s| - 1]];
    } else {
      assert s == [] + s + [];
    }
  }

  lemma {:induction false} SeparatorsGo(separators: Bytes, rest: Bytes)
    requires AllSeparators(separators) && (rest == [] || !IsSeparator(rest[0]))
    ensures SkipSeparators(separators + rest) == rest
  {
    if separators == [] {
      assert separators + rest == rest;
    } else {
      assert (separators + rest)[1..] == separators[1..] + rest;
      SeparatorsGo(separators[1..], rest);
    }
  }

  lemma {:induction false} SeparatorsSplit(s: Bytes) returns (separators: Bytes)
    ensures AllSeparators(separators) && s == separators + SkipSeparators(s)
    ensures SkipSeparators(s) == [] || !IsSeparator(SkipSeparators(s)[0])
  {
    separators := [];
    if s != [] && IsSeparator(s[0]) {
      separators := SeparatorsSplit(s[1..]);
      separators := [s[0]] + separators;
      assert s == [s[0]] + s[1..];
    } else {
      assert s == [] + s;
    }
  }

  lemma DeviceBegins(device: Bytes)
    requires Upper(device) == DEVICE
    ensures |device| == 7 && !IsSpace(device[0])
  {
    assert UpperByte(device[0]) == DEVICE[0];
  }

  lemma SpelledIsRead(lead: Bytes, device: Bytes, separators: Bytes, path: Bytes, version: Bytes, trail: Bytes)
    requires AllSpace(lead) && AllSpace(trail) && Upper(device) == DEVICE && AllSeparators(separators)
    requires IsBootPath(path) && (version == [] || version == VERSION)
    ensures BootPath(lead + (device + separators + path + version) + trail) == Some(path)
  {
    hide Trimmed, SkipSeparators, AllSpace, AllSeparators;
    var core := device + separators + path + version;
    DeviceBegins(device);
    assert core[0] == device[0];
    assert core[|core| - 1] == if version == [] then path[|path| - 1] else 49;
    TrimmedCore(lead, core, trail);
    var rest := path + version;
    assert core[..7] == device && core[7..] == separators + rest;
    SeparatorsGo(separators, rest);
    VersionGoes(path, version);
  }

  lemma VersionGoes(path: Bytes, version: Bytes)
    requires IsBootPath(path) && (version == [] || version == VERSION)
    ensures var rest := path + version;
      (if |rest| >= 2 && rest[|rest| - 2..] == VERSION then rest[..|rest| - 2] else rest) == path
  {
    var rest := path + version;
    if version == VERSION {
      assert rest[|rest| - 2..] == VERSION && rest[..|rest| - 2] == path;
    } else {
      assert rest == path;
      if |rest| >= 2 { assert rest[|rest| - 2..][0] == path[|path| - 2]; }
    }
  }

  lemma ReadWasSpelled(setting: Bytes, path: Bytes)
    requires BootPath(setting) == Some(path)
    ensures IsBootPath(path) && Spells(setting, path)
  {
    hide Trimmed, SkipSeparators, AllSpace, AllSeparators, Upper;
    var lead, trail := TrimmedSplits(setting);
    var s := Trimmed(setting);
    var separators := SeparatorsSplit(s[7..]);
    var rest := SkipSeparators(s[7..]);
    var version := rest[|path|..];
    assert rest == path + version && (version == [] || version == VERSION);
    var device := s[..7];
    assert s == device + s[7..];
    assert s == device + separators + path + version;
    assert setting == lead + (device + separators + path + version) + trail;
    assert path != [] && path[0] == rest[0] && !IsSeparator(path[0]);
  }

  /** A setting stands for a path exactly when it spells it. */
  lemma BootPathExactly(setting: Bytes, path: Bytes)
    ensures BootPath(setting) == Some(path) <==> IsBootPath(path) && Spells(setting, path)
  {
    hide BootPath, IsBootPath;
    if BootPath(setting) == Some(path) { ReadWasSpelled(setting, path); }
    if IsBootPath(path) && Spells(setting, path) {
      var lead, device, separators, version, trail :|
        && setting == lead + (device + separators + path + version) + trail
        && AllSpace(lead) && AllSpace(trail) && Upper(device) == DEVICE && AllSeparators(separators)
        && (version == [] || version == VERSION);
      SpelledIsRead(lead, device, separators, path, version, trail);
    }
  }

  /** Both slashes part the pieces of a path. */
  lemma SlashesAreAlike(path: Bytes)
    requires IsAscii(path)
    ensures IsAscii(Slashed(path)) && Pieces(Slashed(path)) == Pieces(path)
  {
    assert Slashed(Slashed(path)) == Slashed(path);
  }

  /** A name that may be a directory or file of the path. */
  predicate IsPiece(piece: Bytes) {
    1 <= |piece| <= 64 && piece != [46] && piece != [46, 46] && 58 !in piece
  }

  /** The one setting, the path it spells, and the pieces of that. */
  ghost predicate IsBooted(text: Bytes, setting: Bytes, path: Bytes, pieces: seq<Bytes>) {
    && Settings(text) == [setting] && IsBootPath(path) && Spells(setting, path) && IsAscii(path)
    && pieces == Pieces(path) && |pieces| <= 8 && forall i | 0 <= i < |pieces| :: IsPiece(pieces[i])
  }

  lemma BootedPieces(text: Bytes, setting: Bytes, path: Bytes, pieces: seq<Bytes>)
    requires Settings(text) == [setting] && IsAscii(path)
    ensures BootPath(setting) == Some(path) ==>
      (BootPieces(text) == Some(pieces) <==>
         pieces == Pieces(path) && |pieces| <= 8 && forall i | 0 <= i < |pieces| :: IsPiece(pieces[i]))
  {
    hide Settings, BootPath, Pieces, UsablePiece, IsPiece;
    forall piece
      ensures UsablePiece(piece) <==> IsPiece(piece)
    {
      PieceMeans(piece);
    }
  }

  /** What is booted, exactly: by the only setting, one path of one to eight pieces. */
  lemma BootPiecesExactly(text: Bytes, pieces: seq<Bytes>)
    ensures BootPieces(text) == Some(pieces) <==> exists setting, path :: IsBooted(text, setting, path, pieces)
  {
    hide Settings, BootPath, Pieces, Spells, IsBootPath, IsPiece, UsablePath;
    if BootPieces(text) == Some(pieces) {
      var setting := Settings(text)[0];
      var path := BootPath(setting).value;
      assert Settings(text) == [setting];
      BootPathExactly(setting, path);
      BootedPieces(text, setting, path, pieces);
      assert IsBooted(text, setting, path, pieces);
    }
    if setting, path :| IsBooted(text, setting, path, pieces) {
      BootPathExactly(setting, path);
      BootedPieces(text, setting, path, pieces);
    }
  }

  lemma PieceMeans(piece: Bytes)
    ensures UsablePiece(piece) <==> IsPiece(piece)
  {
    if 58 in piece {
      var i :| 0 <= i < |piece| && piece[i] == 58;
    }
  }
}
