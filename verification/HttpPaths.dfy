/**
 * Request paths: percent-encoding as the console prints it (section 2.1 of
 * RFC 3986), the server's decoding, and path normalisation.
 */
module HttpPaths {
  import opened Common
  import opened Utf8Text

  const SLASH: Code := 47
  const PERCENT: Code := 37
  const QUESTION: Code := 63
  const HASH: Code := 35
  const DOT: Text := [46]
  const DOTDOT: Text := [46, 46]

  // ----- Percent-encoding -----

  /** Letters, digits, '-', '_', '.', '~' and '/'. */
  predicate Unreserved(c: Code) {
    || 65 <= c <= 90 || 97 <= c <= 122 || 48 <= c <= 57
    || c == 45 || c == 95 || c == 46 || c == 126 || c == SLASH
  }

  function HexDigit(n: int): Byte
    requires 0 <= n < 16
  {
    if n < 10 then 48 + n else 55 + n
  }

  function HexValue(c: Byte): Option<int> {
    var d: int := c;
    if 48 <= d <= 57 then Some(d - 48)
    else if 65 <= d <= 70 then Some(d - 55)
    else if 97 <= d <= 102 then Some(d - 87)
    else None
  }

  function Escaped(s: Bytes): Bytes {
    if s == [] then [] else [PERCENT, HexDigit(s[0] / 16), HexDigit(s[0] % 16)] + Escaped(s[1..])
  }

  /** The characters of an encoded path are all ASCII, so they are its bytes. */
  function PercentEncode(t: Text): Bytes {
    if t == [] then []
    else (if Unreserved(t[0]) then [t[0]] else Escaped(EncodeOne(t[0]))) + PercentEncode(t[1..])
  }

  /** Two hex digits after '%' make a byte; any other '%' stands for itself. */
  function UnquoteBytes(s: Bytes): Bytes
    decreases |s|
  {
    if s == [] then []
    else if s[0] == PERCENT && |s| >= 3 && HexValue(s[1]).Some? && HexValue(s[2]).Some? then
      [HexValue(s[1]).value * 16 + HexValue(s[2]).value] + UnquoteBytes(s[3..])
    else [s[0]] + UnquoteBytes(s[1..])
  }

  /** How many leading characters are ASCII. */
  function AsciiRun(t: Text): (n: nat)
    ensures n <= |t| && (forall i | 0 <= i < n :: t[i] < 128) && (n < |t| ==> t[n] >= 128)
  {
    if t == [] || t[0] >= 128 then 0 else 1 + AsciiRun(t[1..])
  }

  function AsBytes(t: Text): (r: Bytes)
    requires forall i | 0 <= i < |t| :: t[i] < 128
    ensures |r| == |t| && forall i | 0 <= i < |t| :: r[i] == t[i]
  {
    seq(|t|, i requires 0 <= i < |t| => t[i])
  }

  function AsText(s: Bytes): (r: Text)
    ensures |r| == |s| && forall i | 0 <= i < |s| :: r[i] == s[i]
  {
    seq(|s|, i requires 0 <= i < |s| => s[i])
  }

  /** Each ASCII run is unescaped and decoded as strict UTF-8; other characters stay as they are. */
  function Unquote(t: Text): Option<Text>
    decreases |t|
  {
    if t == [] then Some([])
    else
      var n := AsciiRun(t);
      var first := if n == 0 then Some([t[0]]) else Decode(UnquoteBytes(AsBytes(t[..n])));
      var rest := Unquote(t[if n == 0 then 1 else n..]);
      if first.None? || rest.None? then None else Some(first.value + rest.value)
  }

  lemma HexRoundTrip(b: Byte)
    ensures HexValue(HexDigit(b / 16)) == Some(b / 16) && HexValue(HexDigit(b % 16)) == Some(b % 16)
    ensures b / 16 * 16 + b % 16 == b
  {
  }

  lemma EscapeUnquotes(b: Byte, later: Bytes)
    ensures UnquoteBytes([PERCENT, HexDigit(b / 16), HexDigit(b % 16)] + later) == [b] + UnquoteBytes(later)
  {
    hide HexDigit, HexValue;
    HexRoundTrip(b);
    assert ([PERCENT, HexDigit(b / 16), HexDigit(b % 16)] + later)[3..] == later;
  }

  lemma {:induction false} EscapedUnquotes(s: Bytes, rest: Bytes)
    ensures UnquoteBytes(Escaped(s) + rest) == s + UnquoteBytes(rest)
    decreases |s|
  {
    hide HexDigit, UnquoteBytes;
    if s == [] {
      assert Escaped(s) + rest == rest;
    } else {
      EscapedUnquotes(s[1..], rest);
      EscapeUnquotes(s[0], Escaped(s[1..]) + rest);
      assert Escaped(s) + rest
             == [PERCENT, HexDigit(s[0] / 16), HexDigit(s[0] % 16)] + (Escaped(s[1..]) + rest);
      assert s == [s[0]] + s[1..];
    }
  }

  /** Unescaping an encoded path gives the UTF-8 form of the path. */
  lemma {:induction false} PercentUnquotes(t: Text)
    ensures UnquoteBytes(PercentEncode(t)) == Encode(t)
  {
    hide Escaped, EncodeOne, HexValue;
    if t != [] {
      PercentUnquotes(t[1..]);
      if Unreserved(t[0]) {
        var all := PercentEncode(t);
        assert all[1..] == PercentEncode(t[1..]);
        assert all[0] == t[0] != PERCENT;
      } else {
        EscapedUnquotes(EncodeOne(t[0]), PercentEncode(t[1..]));
      }
    }
  }

  predicate Plain(s: Bytes) { forall i | 0 <= i < |s| :: s[i] < 128 && s[i] != QUESTION && s[i] != HASH }

  lemma {:induction false} EscapedIsPlain(s: Bytes)
    ensures Plain(Escaped(s))
  {
    if s != [] { EscapedIsPlain(s[1..]); }
  }

  lemma {:induction false} PercentIsPlain(t: Text)
    ensures Plain(PercentEncode(t))
  {
    hide Escaped;
    if t != [] {
      EscapedIsPlain(EncodeOne(t[0]));
      PercentIsPlain(t[1..]);
    }
  }

  /** The server recovers any encodable text from its percent-encoded form. */
  lemma UnquoteRecovers(t: Text)
    requires Encodable(t)
    ensures Unquote(AsText(PercentEncode(t))) == Some(t)
  {
    hide PercentEncode, Decode, UnquoteBytes;
    PercentIsPlain(t);
    PercentUnquotes(t);
    TextRoundTrip(t);
    var raw := AsText(PercentEncode(t));
    if raw == [] {
      NothingEncoded(t);
    } else {
      assert AsciiRun(raw) == |raw|;
      assert AsBytes(raw[..|raw|]) == PercentEncode(t);
      assert raw[|raw|..] == [] && Unquote([]) == Some([]);
      assert Unquote(raw) == Some(t + []);
      assert t + [] == t;
    }
  }

  lemma NothingEncoded(t: Text)
    ensures PercentEncode(t) == [] <==> t == []
  {
  }

  // ----- Segments -----

  predicate NoSlash(t: Text) { forall i | 0 <= i < |t| :: t[i] != SLASH }

  function Segments(t: Text): (r: seq<Text>)
    ensures r != [] && forall i | 0 <= i < |r| :: NoSlash(r[i])
  {
    if t == [] then [[]]
    else
      var rest := Segments(t[1..]);
      if t[0] == SLASH then [[]] + rest else [[t[0]] + rest[0]] + rest[1..]
  }

  function Joined(parts: seq<Text>): Text {
    if parts == [] then []
    else if |parts| == 1 then parts[0]
    else parts[0] + [SLASH] + Joined(parts[1..])
  }

  lemma {:induction false} SegmentsOfOne(a: Text)
    requires NoSlash(a)
    ensures Segments(a) == [a]
  {
    if a != [] {
      SegmentsOfOne(a[1..]);
      assert [a[0]] + a[1..] == a;
    }
  }

  lemma {:induction false} SegmentsOfFirst(a: Text, rest: Text)
    requires NoSlash(a)
    ensures Segments(a) == [a]
    ensures Segments(a + [SLASH] + rest) == [a] + Segments(rest)
  {
    SegmentsOfOne(a);
    var all := a + [SLASH] + rest;
    if a == [] {
      assert all[1..] == rest;
    } else {
      SegmentsOfFirst(a[1..], rest);
      assert all[1..] == a[1..] + [SLASH] + rest;
      assert ([a[1..]] + Segments(rest))[1..] == Segments(rest);
      assert [a[0]] + a[1..] == a;
    }
  }

  /** Splitting undoes joining. */
  lemma {:induction false} SegmentsOfJoined(parts: seq<Text>)
    requires parts != [] && forall i | 0 <= i < |parts| :: NoSlash(parts[i])
    ensures Segments(Joined(parts)) == parts
  {
    SegmentsOfFirst(parts[0], Joined(parts[1..]));
    if |parts| > 1 {
      SegmentsOfJoined(parts[1..]);
    }
  }

  lemma {:induction false} JoinedSegments(t: Text)
    ensures Joined(Segments(t)) == t
  {
    if t != [] {
      JoinedSegments(t[1..]);
      var rest := Segments(t[1..]);
      if t[0] != SLASH {
        assert Segments(t)[1..] == rest[1..];
        assert Joined(Segments(t)) == [t[0]] + Joined(rest);
      } else {
        assert Segments(t)[1..] == rest;
      }
    }
  }

  // ----- Normalisation -----

  /** The component stack after the first n components. */
  function Reduced(parts: seq<Text>, rooted: bool, n: nat): seq<Text>
    requires n <= |parts|
  {
    if n == 0 then []
    else
      var kept, part := Reduced(parts, rooted, n - 1), parts[n - 1];
      if part == [] || part == DOT then kept
      else if part != DOTDOT || (!rooted && kept == []) || (kept != [] && kept[|kept| - 1] == DOTDOT) then kept + [part]
      else if kept != [] then kept[..|kept| - 1]
      else kept
  }

  /** Leading slashes that are kept: none, one, or exactly two. */
  function RootSlashes(t: Text): nat {
    if |t| == 0 || t[0] != SLASH then 0
    else if |t| >= 2 && t[1] == SLASH && !(|t| >= 3 && t[2] == SLASH) then 2
    else 1
  }

  function Slashes(n: nat): Text { seq(n, i => SLASH) }

  function NormPath(t: Text): Text {
    if t == [] then DOT
    else
      var root := RootSlashes(t);
      var parts := Segments(t);
      var normal := Slashes(root) + Joined(Reduced(parts, root > 0, |parts|));
      if normal == [] then DOT else normal
  }

  function WithoutLeadingSlashes(t: Text): Text {
    if t != [] && t[0] == SLASH then WithoutLeadingSlashes(t[1..]) else t
  }

  method ReduceComponents(parts: seq<Text>, rooted: bool) returns (kept: seq<Text>)
    ensures kept == Reduced(parts, rooted, |parts|)
  {
    kept := [];
    for i := 0 to |parts|
      invariant kept == Reduced(parts, rooted, i)
    {
      var part := parts[i];
      if part == [] || part == DOT { continue; }
      if part != DOTDOT || (!rooted && kept == []) || (kept != [] && kept[|kept| - 1] == DOTDOT) {
        kept := kept + [part];
      } else if kept != [] {
        kept := kept[..|kept| - 1];
      }
    }
  }

  method Normalise(t: Text) returns (normal: Text)
    ensures normal == NormPath(t)
  {
    hide Segments, Reduced, Joined;
    if t == [] { return DOT; }
    var root := RootSlashes(t);
    var kept := ReduceComponents(Segments(t), root > 0);
    normal := Slashes(root) + Joined(kept);
    if normal == [] { normal := DOT; }
  }

  /** A component that normalisation keeps. */
  predicate ProperSegment(s: Text) { s != [] && s != DOT && s != DOTDOT && NoSlash(s) }

  predicate Proper(parts: seq<Text>) { parts != [] && forall i | 0 <= i < |parts| :: ProperSegment(parts[i]) }

  lemma {:induction false} ProperIsKept(parts: seq<Text>, rooted: bool, n: nat)
    requires n <= |parts| && forall i | 0 <= i < |parts| :: ProperSegment(parts[i])
    ensures Reduced(parts, rooted, n) == parts[..n]
  {
    if n > 0 { ProperIsKept(parts, rooted, n - 1); }
  }

  lemma {:induction false} RootIsSkipped(parts: seq<Text>, n: nat)
    requires n <= |parts|
    ensures Reduced([[]] + parts, true, n + 1) == Reduced(parts, true, n)
  {
    var all := [[]] + parts;
    if n > 0 {
      RootIsSkipped(parts, n - 1);
      assert all[n] == parts[n - 1];
    } else {
      assert Reduced(all, true, 0) == [];
    }
  }

  lemma JoinedStart(parts: seq<Text>)
    requires Proper(parts)
    ensures Joined(parts) != [] && Joined(parts)[0] == parts[0][0] != SLASH
  {
    assert ProperSegment(parts[0]);
  }

  lemma SegmentsOfProper(parts: seq<Text>)
    requires Proper(parts)
    ensures Segments(Joined(parts)) == parts && Segments([SLASH] + Joined(parts)) == [[]] + parts
  {
    hide Joined, Segments;
    assert forall i | 0 <= i < |parts| :: ProperSegment(parts[i]);
    SegmentsOfJoined(parts);
    SegmentsOfFirst([], Joined(parts));
    assert [] + [SLASH] + Joined(parts) == [SLASH] + Joined(parts);
  }

  /** Normalising a relative path of proper segments changes nothing. */
  lemma ProperPathIsNormal(parts: seq<Text>)
    requires Proper(parts)
    ensures NormPath(Joined(parts)) == Joined(parts)
  {
    hide Joined, Reduced, Segments;
    JoinedStart(parts);
    SegmentsOfProper(parts);
    ProperIsKept(parts, false, |parts|);
    assert parts[..|parts|] == parts;
    assert Slashes(0) + Joined(parts) == Joined(parts);
  }

  /** Nor does a leading slash make a difference beyond itself. */
  lemma RootedPathIsNormal(parts: seq<Text>)
    requires Proper(parts)
    ensures NormPath([SLASH] + Joined(parts)) == [SLASH] + Joined(parts)
  {
    hide Joined, Reduced, Segments, Proper;
    JoinedStart(parts);
    SegmentsOfProper(parts);
    ProperIsKeptHere(parts);
    RootIsSkipped(parts, |parts|);
    var rooted := [SLASH] + Joined(parts);
    assert rooted[1] == Joined(parts)[0];
    assert RootSlashes(rooted) == 1;
    assert Slashes(1) == [SLASH];
  }

  lemma ProperIsKeptHere(parts: seq<Text>)
    requires Proper(parts)
    ensures Reduced(parts, true, |parts|) == parts
  {
    ProperIsKept(parts, true, |parts|);
    assert parts[..|parts|] == parts;
  }

  // ----- The requested name -----

  function CutAt(t: Text, stop: Code): (r: Text)
    ensures (forall i | 0 <= i < |t| :: t[i] != stop) ==> r == t
  {
    if t == [] || t[0] == stop then [] else [t[0]] + CutAt(t[1..], stop)
  }

  /** The name a request line asks for: query and fragment cut, decoded, normalised, made relative. */
  function NormalisedPath(raw: Text): Option<Text> {
    var decoded := Unquote(CutAt(CutAt(raw, QUESTION), HASH));
    if decoded.None? || 0 in decoded.value then None
    else Some(WithoutLeadingSlashes(NormPath(decoded.value)))
  }

  /** Requesting a path of proper segments, encoded the console's way, asks for that very path. */
  lemma EncodedRequestIsPath(parts: seq<Text>)
    requires Proper(parts) && Encodable(Joined(parts)) && 0 !in Joined(parts)
    ensures NormalisedPath([SLASH] + AsText(PercentEncode(Joined(parts)))) == Some(Joined(parts))
  {
    hide PercentEncode, Unquote, NormPath, Joined, Proper;
    var path := Joined(parts);
    var raw := [SLASH] + AsText(PercentEncode(path));
    EncodedRoot(path);
    assert raw == AsText(PercentEncode([SLASH] + path));
    PercentIsPlain([SLASH] + path);
    UnquoteRecovers([SLASH] + path);
    assert CutAt(CutAt(raw, QUESTION), HASH) == raw;
    RootedPathIsNormal(parts);
    JoinedStart(parts);
    assert ([SLASH] + path)[1..] == path;
    assert WithoutLeadingSlashes(path) == path;
  }

  lemma EncodedRoot(path: Text)
    ensures PercentEncode([SLASH] + path) == [SLASH] + PercentEncode(path)
  {
    assert ([SLASH] + path)[1..] == path;
  }

  // ----- What other spellings come to -----

  /** Two hex digits of either case after '%' stand for their byte, and any other '%' for itself. */
  lemma EscapesAreLoose(a: Byte, b: Byte, later: Bytes)
    ensures 48 <= a <= 57 && 48 <= b <= 57 ==>
      UnquoteBytes([PERCENT, a, b] + later) == [(a - 48) * 16 + (b - 48)] + UnquoteBytes(later)
    ensures 97 <= a <= 102 && 97 <= b <= 102 ==>
      UnquoteBytes([PERCENT, a, b] + later) == UnquoteBytes([PERCENT, a - 32, b - 32] + later)
    ensures 65 <= a <= 70 && 65 <= b <= 70 ==>
      UnquoteBytes([PERCENT, a, b] + later) == [(a - 55) * 16 + (b - 55)] + UnquoteBytes(later)
    ensures HexValue(a).None? || HexValue(b).None? ==>
      UnquoteBytes([PERCENT, a, b] + later) == [PERCENT] + UnquoteBytes([a, b] + later)
  {
    var s := [PERCENT, a, b] + later;
    assert s[3..] == later && s[1..] == [a, b] + later;
    if 97 <= a <= 102 && 97 <= b <= 102 {
      var upper: Bytes := [PERCENT, a - 32, b - 32] + later;
      assert upper[3..] == later;
    }
  }

  lemma {:induction false} CutAtStop(t: Text, stop: Code, rest: Text)
    requires forall i | 0 <= i < |t| :: t[i] != stop
    ensures CutAt(t + [stop] + rest, stop) == t
  {
    var s := t + [stop] + rest;
    if t != [] {
      assert s[1..] == t[1..] + [stop] + rest;
      CutAtStop(t[1..], stop, rest);
    }
  }

  lemma {:induction false} CutKeepsPrefix(t: Text, rest: Text, stop: Code)
    requires forall i | 0 <= i < |t| :: t[i] != stop
    ensures CutAt(t + rest, stop) == t + CutAt(rest, stop)
  {
    if t == [] {
      assert t + rest == rest;
    } else {
      assert (t + rest)[1..] == t[1..] + rest;
      CutKeepsPrefix(t[1..], rest, stop);
    }
  }

  /** A query and a fragment make no difference to what is asked for. */
  lemma QueryIsIgnored(raw: Text, rest: Text)
    requires forall i | 0 <= i < |raw| :: raw[i] != QUESTION && raw[i] != HASH
    ensures NormalisedPath(raw + [QUESTION] + rest) == NormalisedPath(raw)
    ensures NormalisedPath(raw + [HASH] + rest) == NormalisedPath(raw)
  {
    hide Unquote, NormPath, CutAt, WithoutLeadingSlashes;
    CutAtStop(raw, QUESTION, rest);
    FragmentIsCut(raw, rest);
  }

  lemma FragmentIsCut(raw: Text, rest: Text)
    requires forall i | 0 <= i < |raw| :: raw[i] != QUESTION && raw[i] != HASH
    ensures CutAt(CutAt(raw + [HASH] + rest, QUESTION), HASH) == raw
  {
    hide CutAt;
    var tail := CutAt([HASH] + rest, QUESTION);
    HashStays(rest);
    assert raw + [HASH] + rest == raw + ([HASH] + rest);
    CutKeepsPrefix(raw, [HASH] + rest, QUESTION);
    assert raw + tail == raw + [HASH] + tail[1..];
    CutAtStop(raw, HASH, tail[1..]);
  }

  lemma HashStays(rest: Text)
    ensures var tail := CutAt([HASH] + rest, QUESTION); tail != [] && tail == [HASH] + tail[1..]
  {
    assert ([HASH] + rest)[1..] == rest;
  }

  /** The components after a common beginning decide. */
  lemma {:induction false} ReducedOnwards(a: seq<Text>, b: seq<Text>, after: seq<Text>, rooted: bool)
    requires Reduced(a, rooted, |a|) == Reduced(b, rooted, |b|)
    ensures Reduced(a + after, rooted, |a + after|) == Reduced(b + after, rooted, |b + after|)
  {
    if after == [] {
      assert a + after == a && b + after == b;
    } else {
      var front, last := after[..|after| - 1], after[|after| - 1];
      ReducedOnwards(a, b, front, rooted);
      assert a + after == (a + front) + [last] && b + after == (b + front) + [last];
      OneMoreComponent(a + front, last, rooted);
      OneMoreComponent(b + front, last, rooted);
    }
  }

  lemma {:induction false} ReducedPrefix(a: seq<Text>, after: seq<Text>, rooted: bool, n: nat)
    requires n <= |a|
    ensures Reduced(a + after, rooted, n) == Reduced(a, rooted, n)
  {
    if n > 0 { ReducedPrefix(a, after, rooted, n - 1); }
  }

  lemma OneMoreComponent(a: seq<Text>, part: Text, rooted: bool)
    ensures var kept := Reduced(a, rooted, |a|);
      Reduced(a + [part], rooted, |a + [part]|) ==
      if part == [] || part == DOT then kept
      else if part != DOTDOT || (!rooted && kept == []) || (kept != [] && kept[|kept| - 1] == DOTDOT) then kept + [part]
      else if kept != [] then kept[..|kept| - 1]
      else kept
  {
    ReducedPrefix(a, [part], rooted, |a|);
  }

  /** Empty and "." components vanish, and ".." takes a proper component before it away, or nothing at the root. */
  lemma DotsAreResolved(before: seq<Text>, part: Text, after: seq<Text>, rooted: bool)
    ensures part == [] || part == DOT ==>
      Reduced(before + [part] + after, rooted, |before + [part] + after|)
      == Reduced(before + after, rooted, |before + after|)
    ensures ProperSegment(part) ==>
      Reduced(before + [part] + [DOTDOT] + after, rooted, |before + [part] + [DOTDOT] + after|)
      == Reduced(before + after, rooted, |before + after|)
    ensures rooted && before == [] ==>
      Reduced([DOTDOT] + after, true, |[DOTDOT] + after|) == Reduced(after, true, |after|)
  {
    OneMoreComponent(before, part, rooted);
    OneMoreComponent(before + [part], DOTDOT, rooted);
    if part == [] || part == DOT { ReducedOnwards(before + [part], before, after, rooted); }
    if ProperSegment(part) { ReducedOnwards(before + [part] + [DOTDOT], before, after, rooted); }
    if rooted && before == [] {
      OneMoreComponent([], DOTDOT, true);
      assert [] + [DOTDOT] == [DOTDOT] && [] + after == after;
      ReducedOnwards([DOTDOT], [], after, true);
    }
  }

  lemma {:induction false} ReducedNoSlash(parts: seq<Text>, rooted: bool, n: nat)
    requires n <= |parts| && forall i | 0 <= i < |parts| :: NoSlash(parts[i])
    ensures forall i | 0 <= i < |Reduced(parts, rooted, n)| :: NoSlash(Reduced(parts, rooted, n)[i])
  {
    if n > 0 { ReducedNoSlash(parts, rooted, n - 1); }
  }

  /** So a request whose components come to a path of proper segments asks for that path, however it is spelled. */
  lemma SpellingDoesNotMatter(parts: seq<Text>, path: seq<Text>)
    requires parts != [] && parts[0] != [] && forall i | 0 <= i < |parts| :: NoSlash(parts[i])
    requires Encodable(Joined(parts)) && 0 !in Joined(parts)
    requires Reduced(parts, true, |parts|) == path && Proper(path)
    ensures NormalisedPath([SLASH] + AsText(PercentEncode(Joined(parts)))) == Some(Joined(path))
  {
    hide PercentEncode, Unquote, Joined, Proper, Segments, Reduced;
    var asked := Joined(parts);
    var raw := [SLASH] + AsText(PercentEncode(asked));
    EncodedRoot(asked);
    assert raw == AsText(PercentEncode([SLASH] + asked));
    PercentIsPlain([SLASH] + asked);
    UnquoteRecovers([SLASH] + asked);
    assert CutAt(CutAt(raw, QUESTION), HASH) == raw;
    SegmentsOfJoined(parts);
    SegmentsOfFirst([], asked);
    assert [] + [SLASH] + asked == [SLASH] + asked;
    RootIsSkipped(parts, |parts|);
    JoinedBegins(parts);
    assert ([SLASH] + asked)[1] == asked[0];
    assert RootSlashes([SLASH] + asked) == 1;
    assert Slashes(1) == [SLASH];
    JoinedStart(path);
    assert ([SLASH] + Joined(path))[1..] == Joined(path);
    assert WithoutLeadingSlashes(Joined(path)) == Joined(path);
  }

  lemma JoinedBegins(parts: seq<Text>)
    requires parts != [] && parts[0] != [] && NoSlash(parts[0])
    ensures Joined(parts) != [] && Joined(parts)[0] != SLASH
  {
    assert parts[0][0] != SLASH;
  }
}
