/**
 * The RA15 datagram: a text header of fields, a padded serial, and a payload
 * that no byte of the header search may reach. The parser accepts exactly the
 * datagrams of one layout.
 */
module SnapshotParsing {
  import opened Common
  import opened SnapshotAssembly

  const MAX_DATAGRAM := 1472
  const MAX_HEADER := 191
  const SERIAL_WIDTH := 15

  const SPACE: Byte := 32
  const EQUALS: Byte := 61
  const TILDE: Byte := 126
  /** "RA15", and " id=" which ends the fields. */
  const MAGIC: Bytes := [82, 65, 49, 53]
  const MARKER: Bytes := [32, 105, 100, 61]
  const ID: Bytes := [105, 100]

  const SEQUENCE_FIELD: Bytes := [115, 113]
  const SIZE_FIELD: Bytes := [118, 98]
  const COUNT_FIELD: Bytes := [110]
  const INDEX_FIELD: Bytes := [112, 116]
  const PARTS_FIELD: Bytes := [110, 112]

  datatype Width = Width(name: Bytes, digits: nat)

  const WIDTHS: seq<Width> := [
    Width(SEQUENCE_FIELD, 6), Width(SIZE_FIELD, 4), Width(COUNT_FIELD, 4), Width(INDEX_FIELD, 1), Width(PARTS_FIELD, 1)]

  // ----- Character classes -----

  predicate IsDigit(b: Byte) { 48 <= b <= 57 }

  predicate IsLower(b: Byte) { 97 <= b <= 122 }

  predicate IsAlphanumeric(b: Byte) { IsDigit(b) || IsLower(b) || 65 <= b <= 90 }

  /** Letters, digits, '_', '.' and '-'. */
  predicate IsSerialByte(b: Byte) { IsAlphanumeric(b) || b == 95 || b == 46 || b == 45 }

  /** Letters, digits, '+', '.' and '-'. */
  predicate IsValueByte(b: Byte) { IsAlphanumeric(b) || b == 43 || b == 46 || b == 45 }

  predicate AllDigits(s: Bytes) { s != [] && forall i | 0 <= i < |s| :: IsDigit(s[i]) }

  predicate IsName(s: Bytes) { s != [] && forall i | 0 <= i < |s| :: IsLower(s[i]) }

  predicate IsValue(s: Bytes) { s != [] && forall i | 0 <= i < |s| :: IsValueByte(s[i]) }

  predicate IsSerial(s: Bytes) { s != [] && forall i | 0 <= i < |s| :: IsSerialByte(s[i]) }

  function Text(s: Bytes): (r: string)
    ensures |r| == |s| && forall i | 0 <= i < |s| :: r[i] == s[i] as char
  {
    seq(|s|, i requires 0 <= i < |s| => s[i] as char)
  }

  function Value(s: Bytes): nat
    requires forall i | 0 <= i < |s| :: IsDigit(s[i])
  {
    if s == [] then 0
    else
      assert IsDigit(s[|s| - 1]);
      var last: int := s[|s| - 1];
      Value(s[..|s| - 1]) * 10 + (last - 48)
  }

  // ----- Parsing -----

  predicate MarkerAt(s: Bytes, i: nat) {
    i + 4 <= |s| && s[i] == SPACE && s[i + 1] == 105 && s[i + 2] == 100 && s[i + 3] == EQUALS
  }

  /** The first marker at or after i that ends within `end` bytes. */
  function FindMarker(s: Bytes, i: nat, end: nat): (r: Option<nat>)
    ensures r.Some? ==> i <= r.value && MarkerAt(s, r.value) && r.value + 4 <= end
    ensures r.Some? ==> forall j | i <= j < r.value :: !MarkerAt(s, j)
    ensures r.None? ==> forall j | i <= j && j + 4 <= end :: !MarkerAt(s, j)
    decreases |s| - i
  {
    if i + 4 > end || i + 4 > |s| then None
    else if MarkerAt(s, i) then Some(i)
    else FindMarker(s, i + 1, end)
  }

  function Position(s: Bytes, b: Byte): (n: nat)
    ensures n <= |s| && (forall i | 0 <= i < n :: s[i] != b) && (n < |s| ==> s[n] == b)
  {
    if s == [] || s[0] == b then 0 else 1 + Position(s[1..], b)
  }

  function Words(s: Bytes): (r: seq<Bytes>)
    ensures r != []
    decreases |s|
  {
    var n := Position(s, SPACE);
    if n == |s| then [s] else [s[..n]] + Words(s[n + 1..])
  }

  datatype Field = Field(name: Bytes, value: Bytes)
  {
    predicate Valid() { IsName(name) && IsValue(value) }

    function Token(): Bytes { name + [EQUALS] + value }
  }

  function ParseField(token: Bytes): Option<Field> {
    var n := Position(token, EQUALS);
    if n < |token| && IsName(token[..n]) && IsValue(token[n + 1..])
    then Some(Field(token[..n], token[n + 1..]))
    else None
  }

  /** The fields of the first n tokens; None for an ill-formed or repeated one. */
  function Fields(tokens: seq<Bytes>, n: nat): Option<map<Bytes, Bytes>>
    requires n <= |tokens|
  {
    if n == 0 then Some(map[])
    else
      var before := Fields(tokens, n - 1);
      var field := ParseField(tokens[n - 1]);
      if before.None? || field.None? || field.value.name in before.value then None
      else Some(before.value[field.value.name := field.value.value])
  }

  /** A counter of exactly this many digits. */
  function Counter(fields: map<Bytes, Bytes>, w: Width): Option<nat> {
    if w.name in fields && |fields[w.name]| == w.digits && AllDigits(fields[w.name])
    then Some(Value(fields[w.name]))
    else None
  }

  function WithoutPadding(s: Bytes): (r: Bytes)
    ensures |r| <= |s| && r == s[..|r|]
    ensures r == [] || r[|r| - 1] != TILDE
    ensures forall i | |r| <= i < |s| :: s[i] == TILDE
  {
    if s != [] && s[|s| - 1] == TILDE then WithoutPadding(s[..|s| - 1]) else s
  }

  predicate Countable(fields: map<Bytes, Bytes>) {
    forall i | 0 <= i < |WIDTHS| :: Counter(fields, WIDTHS[i]).Some?
  }

  function Number(fields: map<Bytes, Bytes>, i: nat): nat
    requires Countable(fields) && i < |WIDTHS|
  {
    Counter(fields, WIDTHS[i]).value
  }

  /** Counters in range, and a payload of the announced size. */
  predicate Dimensioned(fields: map<Bytes, Bytes>, size: nat) {
    && Countable(fields)
    && Number(fields, 1) == size && size >= 1
    && 1 <= Number(fields, 2) <= 4096
    && Number(fields, 3) < Number(fields, 4) <= MAX_PARTS
  }

  function Pow10(n: nat): nat { if n == 0 then 1 else 10 * Pow10(n - 1) }

  lemma {:induction false} ValueBound(s: Bytes)
    requires forall i | 0 <= i < |s| :: IsDigit(s[i])
    ensures Value(s) < Pow10(|s|)
  {
    if s != [] { ValueBound(s[..|s| - 1]); }
  }

  lemma SequenceBound(fields: map<Bytes, Bytes>)
    requires Countable(fields)
    ensures Number(fields, 0) < SEQUENCE_MODULUS
  {
    assert Counter(fields, WIDTHS[0]).Some?;
    ValueBound(fields[SEQUENCE_FIELD]);
    assert Pow10(6) == SEQUENCE_MODULUS;
  }

  function Assembled(fields: map<Bytes, Bytes>, serial: Bytes, values: Bytes): Part
    requires Dimensioned(fields, |values|)
  {
    SequenceBound(fields);
    SnapshotPart(Text(serial), Number(fields, 0), Number(fields, 2), Number(fields, 3), Number(fields, 4), values)
  }

  function Parsed(packet: Bytes): Option<Part> {
    if !(1 <= |packet| <= MAX_DATAGRAM) || !(MAGIC + [SPACE] <= packet) then None
    else match FindMarker(packet, 0, MAX_HEADER)
      case None => None
      case Some(marker) =>
        var offset := marker + 4 + SERIAL_WIDTH + 1;
        if offset > MAX_HEADER || offset > |packet| || packet[offset - 1] != SPACE then None
        else
          var serial := WithoutPadding(packet[marker + 4..offset - 1]);
          var tokens := Words(if marker < 5 then [] else packet[5..marker]);
          var fields := Fields(tokens, |tokens|);
          if !IsSerial(serial) || fields.None? || !Dimensioned(fields.value, |packet| - offset) then None
          else Some(Assembled(fields.value, serial, packet[offset..]))
  }

  // ----- The layout a console sends -----

  function Prefixed(fields: seq<Field>): Bytes {
    if fields == [] then [] else [SPACE] + fields[0].Token() + Prefixed(fields[1..])
  }

  function Padding(n: nat): (r: Bytes)
    ensures |r| == n && forall i | 0 <= i < n :: r[i] == TILDE
  {
    seq(n, i => TILDE)
  }

  function Table(fields: seq<Field>): map<Bytes, Bytes> {
    if fields == [] then map[]
    else Table(fields[..|fields| - 1])[fields[|fields| - 1].name := fields[|fields| - 1].value]
  }

  datatype Layout = Layout(fields: seq<Field>, serial: Bytes, payload: Bytes)
  {
    function Header(): Bytes
      requires |serial| <= SERIAL_WIDTH
    {
      MAGIC + Prefixed(fields) + MARKER + (serial + Padding(SERIAL_WIDTH - |serial|)) + [SPACE]
    }

    function Render(): Bytes
      requires |serial| <= SERIAL_WIDTH
    {
      Header() + payload
    }

    /** Fields in any order, extra ones allowed, none repeated and none called "id". */
    ghost predicate Valid() {
      && fields != []
      && (forall i | 0 <= i < |fields| :: fields[i].Valid() && fields[i].name != ID)
      && (forall i, j | 0 <= i < j < |fields| :: fields[i].name != fields[j].name)
      && IsSerial(serial) && |serial| <= SERIAL_WIDTH
      && |Header()| <= MAX_HEADER && |Render()| <= MAX_DATAGRAM
      && Dimensioned(Table(fields), |payload|)
    }

    function Part(): Part
      requires Dimensioned(Table(fields), |payload|)
    {
      Assembled(Table(fields), serial, payload)
    }
  }

  // ----- Tokens -----

  lemma TokenRoundTrip(f: Field)
    requires f.Valid()
    ensures ParseField(f.Token()) == Some(f)
    ensures forall i | 0 <= i < |f.Token()| :: f.Token()[i] != SPACE
    ensures |f.Token()| >= 3
    ensures f.name != ID ==> !(f.Token()[0] == 105 && f.Token()[1] == 100 && f.Token()[2] == EQUALS)
  {
    var t := f.Token();
    assert t[|f.name|] == EQUALS;
    assert forall i | 0 <= i < |f.name| :: t[i] == f.name[i] && t[i] != EQUALS;
    assert Position(t, EQUALS) == |f.name|;
    assert t[..|f.name|] == f.name && t[|f.name| + 1..] == f.value;
    if t[0] == 105 && t[1] == 100 && t[2] == EQUALS {
      assert |f.name| == 2 && f.name[0] == 105 && f.name[1] == 100;
    }
  }

  lemma ParsedToken(token: Bytes)
    requires ParseField(token).Some?
    ensures ParseField(token).value.Valid() && ParseField(token).value.Token() == token
  {
  }

  function Tokens(fields: seq<Field>): seq<Bytes> {
    seq(|fields|, i requires 0 <= i < |fields| => fields[i].Token())
  }

  lemma {:induction false} SplitPrefixed(fields: seq<Field>)
    requires fields != [] && forall i | 0 <= i < |fields| :: fields[i].Valid()
    ensures Prefixed(fields) != [] && Words(Prefixed(fields)[1..]) == Tokens(fields)
  {
    hide Field.Valid, Field.Token, Words, Prefixed, Tokens;
    TokenRoundTrip(fields[0]);
    FirstPrefixed(fields);
    if |fields| == 1 {
      SplitWhole(fields[0].Token());
    } else {
      SplitPrefixed(fields[1..]);
      SplitFirst(fields[0].Token(), Prefixed(fields[1..])[1..]);
    }
  }

  lemma AfterSpace(s: Bytes, t: Bytes)
    ensures ([SPACE] + s + t)[1..] == s + t
  {
  }

  lemma TokensFirst(fields: seq<Field>)
    requires fields != []
    ensures Tokens(fields) == [fields[0].Token()] + Tokens(fields[1..])
  {
    hide Field.Token;
  }

  lemma FirstPrefixed(fields: seq<Field>)
    requires fields != []
    ensures Prefixed(fields) != [] && Tokens(fields) == [fields[0].Token()] + Tokens(fields[1..])
    ensures |fields| == 1 ==> Prefixed(fields)[1..] == fields[0].Token() && Tokens(fields) == [fields[0].Token()]
    ensures |fields| > 1 ==> Prefixed(fields[1..]) != []
                             && Prefixed(fields)[1..] == fields[0].Token() + [SPACE] + Prefixed(fields[1..])[1..]
  {
    hide Field.Token, Tokens;
    var token, later := fields[0].Token(), Prefixed(fields[1..]);
    TokensFirst(fields);
    AfterSpace(token, later);
    if |fields| == 1 {
      NoFields(fields[1..]);
      assert token + [] == token;
    } else {
      PrefixedStarts(fields[1..]);
      StartsWithSpace(token, later);
    }
  }

  lemma NoFields(fields: seq<Field>)
    requires fields == []
    ensures Prefixed(fields) == [] && Tokens(fields) == []
  {
  }

  lemma StartsWithSpace(token: Bytes, later: Bytes)
    requires later != [] && later[0] == SPACE
    ensures token + later == token + [SPACE] + later[1..]
  {
    assert later == [SPACE] + later[1..];
  }

  lemma SplitWhole(token: Bytes)
    requires forall i | 0 <= i < |token| :: token[i] != SPACE
    ensures Words(token) == [token]
  {
  }

  lemma SplitFirst(token: Bytes, rest: Bytes)
    requires forall i | 0 <= i < |token| :: token[i] != SPACE
    ensures Words(token + [SPACE] + rest) == [token] + Words(rest)
  {
    var s := token + [SPACE] + rest;
    assert s[|token|] == SPACE && forall i | 0 <= i < |token| :: s[i] == token[i];
    assert Position(s, SPACE) == |token|;
    assert s[..|token|] == token && s[|token| + 1..] == rest;
  }

  lemma PrefixedStarts(fields: seq<Field>)
    requires fields != []
    ensures Prefixed(fields) != [] && Prefixed(fields)[0] == SPACE
  {
  }

  lemma MarkerShift(front: Bytes, s: Bytes, i: nat)
    ensures MarkerAt(front + s, |front| + i) == MarkerAt(s, i)
  {
  }

  /** No marker begins inside the fields. */
  lemma {:induction false} NoMarkerInFields(fields: seq<Field>, rest: Bytes, i: nat)
    requires forall k | 0 <= k < |fields| :: fields[k].Valid() && fields[k].name != ID
    requires i < |Prefixed(fields)|
    ensures !MarkerAt(Prefixed(fields) + rest, i)
  {
    hide Field.Valid, Field.Token;
    var token, later := fields[0].Token(), Prefixed(fields[1..]) + rest;
    TokenRoundTrip(fields[0]);
    assert Prefixed(fields) + rest == [SPACE] + token + later;
    if i <= |token| {
      NoMarkerInToken(token, later, i);
    } else {
      NoMarkerInFields(fields[1..], rest, i - 1 - |token|);
      MarkerShift([SPACE] + token, later, i - 1 - |token|);
    }
  }

  lemma NoMarkerInToken(token: Bytes, later: Bytes, i: nat)
    requires i <= |token| && |token| >= 3 && forall k | 0 <= k < |token| :: token[k] != SPACE
    requires !(token[0] == 105 && token[1] == 100 && token[2] == EQUALS)
    ensures !MarkerAt([SPACE] + token + later, i)
  {
    var s := [SPACE] + token + later;
    assert forall k | 0 <= k < |token| :: s[k + 1] == token[k];
    if i > 0 { assert s[i] == token[i - 1]; }
  }

  /** What follows the fields in a laid-out datagram. */
  function Tail(l: Layout): Bytes
    requires |l.serial| <= SERIAL_WIDTH
  {
    MARKER + (l.serial + Padding(SERIAL_WIDTH - |l.serial|)) + [SPACE] + l.payload
  }

  lemma MarkerFound(l: Layout)
    requires l.Valid()
    ensures FindMarker(l.Render(), 0, MAX_HEADER) == Some(4 + |Prefixed(l.fields)|)
  {
    hide Prefixed, Field.Valid, Dimensioned;
    var s, body, at := l.Render(), Prefixed(l.fields) + Tail(l), 4 + |Prefixed(l.fields)|;
    assert s == MAGIC + body;
    MarkerShift(MAGIC + Prefixed(l.fields), Tail(l), 0);
    assert MAGIC + Prefixed(l.fields) + Tail(l) == s;
    forall i | 0 <= i < at
      ensures !MarkerAt(s, i)
    {
      if i >= 4 {
        NoMarkerInFields(l.fields, Tail(l), i - 4);
        MarkerShift(MAGIC, body, i - 4);
      }
    }
  }

  // ----- Fields -----

  lemma {:induction false} FieldsOfTokens(fields: seq<Field>, n: nat)
    requires n <= |fields| && forall i | 0 <= i < |fields| :: fields[i].Valid()
    requires forall i, j | 0 <= i < j < |fields| :: fields[i].name != fields[j].name
    ensures Fields(Tokens(fields), n) == Some(Table(fields[..n]))
    ensures Table(fields[..n]).Keys == set i: nat {:trigger fields[i]} | i < n :: fields[i].name
  {
    hide ParseField, Field.Token, Field.Valid;
    if n > 0 {
      FieldsOfTokens(fields, n - 1);
      TokenRoundTrip(fields[n - 1]);
      assert fields[..n][..n - 1] == fields[..n - 1];
    }
  }

  lemma {:induction false} TokensOfFields(tokens: seq<Bytes>, n: nat) returns (fields: seq<Field>)
    requires n <= |tokens| && Fields(tokens, n).Some?
    ensures |fields| == n && Tokens(fields) == tokens[..n]
    ensures Fields(tokens, n).value == Table(fields)
    ensures forall i | 0 <= i < n :: fields[i].Valid() && fields[i].name in Table(fields)
    ensures forall i, j | 0 <= i < j < n :: fields[i].name != fields[j].name
  {
    if n == 0 {
      fields := [];
    } else {
      var before := TokensOfFields(tokens, n - 1);
      ParsedToken(tokens[n - 1]);
      fields := before + [ParseField(tokens[n - 1]).value];
      assert fields[..n - 1] == before;
      assert Tokens(fields) == Tokens(before) + [tokens[n - 1]];
    }
  }

  lemma {:induction false} PrefixedTokens(s: Bytes, fields: seq<Field>)
    requires Words(s) == Tokens(fields) && |fields| == |Tokens(fields)|
    ensures Prefixed(fields) == [SPACE] + s
    decreases |s|
  {
    var n := Position(s, SPACE);
    assert Tokens(fields)[0] == fields[0].Token();
    if n == |s| {
      assert Words(s) == [s];
      assert Prefixed(fields[1..]) == [];
    } else {
      assert Words(s)[1..] == Words(s[n + 1..]);
      assert Tokens(fields)[1..] == Tokens(fields[1..]);
      PrefixedTokens(s[n + 1..], fields[1..]);
      assert s == s[..n] + [SPACE] + s[n + 1..];
    }
  }

  // ----- Accepted datagrams are exactly the laid-out ones -----

  /** Every datagram of the layout parses to the part it was made from. */
  lemma RenderedIsParsed(l: Layout)
    requires l.Valid()
    ensures Parsed(l.Render()) == Some(l.Part())
  {
    hide FindMarker, Fields, Words, Dimensioned, Table, Prefixed, IsName, IsValue, IsSerial, MarkerAt, Field.Valid;
    var s, at := l.Render(), 4 + |Prefixed(l.fields)|;
    SplitPrefixed(l.fields);
    MarkerFound(l);
    FieldsOfTokens(l.fields, |l.fields|);
    assert l.fields[..|l.fields|] == l.fields;
    assert s[..5] == MAGIC + [SPACE] by { PrefixedStarts(l.fields); }
    assert s[5..at] == Prefixed(l.fields)[1..];
    var field := l.serial + Padding(SERIAL_WIDTH - |l.serial|);
    assert s[at + 4..at + 19] == field;
    SerialRoundTrip(l.serial);
    assert s[at + 20..] == l.payload;
  }

  lemma SerialRoundTrip(serial: Bytes)
    requires IsSerial(serial) && |serial| <= SERIAL_WIDTH
    ensures WithoutPadding(serial + Padding(SERIAL_WIDTH - |serial|)) == serial
  {
    PaddingIsDropped(serial, SERIAL_WIDTH - |serial|);
  }

  lemma {:induction false} PaddingIsDropped(serial: Bytes, n: nat)
    requires IsSerial(serial)
    ensures WithoutPadding(serial + Padding(n)) == serial
  {
    var s := serial + Padding(n);
    if n == 0 {
      assert s == serial;
    } else {
      assert s[..|s| - 1] == serial + Padding(n - 1);
      PaddingIsDropped(serial, n - 1);
    }
  }

  /** Everything the parser accepts has the layout, and the part is the layout's. */
  lemma ParsedWasRendered(packet: Bytes) returns (l: Layout)
    requires Parsed(packet).Some?
    ensures l.Valid() && packet == l.Render() && Parsed(packet) == Some(l.Part())
  {
    hide FindMarker, Fields, Words, Dimensioned, Table, IsName, IsValue, Prefixed, IsSerial, MarkerAt, Field.Valid,
         Layout.Header, WithoutPadding, Tokens, Assembled;
    var marker := FindMarker(packet, 0, MAX_HEADER).value;
    var offset := marker + 20;
    EmptyIsNoField();
    assert marker >= 5;
    var tokens := Words(packet[5..marker]);
    var fields := TokensOfFields(tokens, |tokens|);
    assert tokens[..|tokens|] == tokens;
    l := Layout(fields, WithoutPadding(packet[marker + 4..offset - 1]), packet[offset..]);
    PrefixedTokens(packet[5..marker], fields);
    HeaderRestored(packet, marker, l);
    assert packet[4..marker] == [packet[4]] + packet[5..marker];
    NoFieldCalledId(packet, marker, fields);
  }

  lemma HeaderRestored(packet: Bytes, marker: nat, l: Layout)
    requires 5 <= marker && marker + 20 <= |packet| && MAGIC + [SPACE] <= packet
    requires MarkerAt(packet, marker) && packet[marker + 19] == SPACE
    requires Prefixed(l.fields) == [SPACE] + packet[5..marker]
    requires l.serial == WithoutPadding(packet[marker + 4..marker + 19]) && l.payload == packet[marker + 20..]
    ensures l.Header() == packet[..marker + 20] && l.Render() == packet && packet[4] == SPACE
  {
    hide Prefixed;
    var field := packet[marker + 4..marker + 19];
    assert field == l.serial + Padding(SERIAL_WIDTH - |l.serial|);
    SixPieces(packet, marker, marker + 20);
    assert packet[..5] == MAGIC + [SPACE];
    assert packet[marker..marker + 4] == MARKER && packet[marker + 19..marker + 20] == [SPACE];
    assert MAGIC + Prefixed(l.fields) == packet[..5] + packet[5..marker];
  }

  lemma EmptyIsNoField()
    ensures Words([]) == [[]] && Fields([[]], 1).None?
  {
  }

  lemma SixPieces(s: Bytes, marker: nat, offset: nat)
    requires 5 <= marker && marker + 4 < offset <= |s|
    ensures s == s[..offset] + s[offset..]
    ensures s[..offset] == s[..5] + s[5..marker] + s[marker..marker + 4] + s[marker + 4..offset - 1] + s[offset - 1..offset]
  {
    assert s[..offset] == s[..offset - 1] + s[offset - 1..offset];
    assert s[..offset - 1] == s[..marker + 4] + s[marker + 4..offset - 1];
    assert s[..marker + 4] == s[..marker] + s[marker..marker + 4];
    assert s[..marker] == s[..5] + s[5..marker];
  }

  lemma NoFieldCalledId(packet: Bytes, marker: nat, fields: seq<Field>)
    requires 5 <= marker < |packet| && packet[4] == SPACE && Prefixed(fields) == packet[4..marker]
    requires forall j | 0 <= j < marker :: !MarkerAt(packet, j)
    ensures forall i | 0 <= i < |fields| :: fields[i].Valid() ==> fields[i].name != ID
  {
    hide Prefixed, Field.Valid, MarkerAt;
    forall i | 0 <= i < |fields| && fields[i].Valid()
      ensures fields[i].name != ID
    {
      if fields[i].name == ID {
        var at := IdStartsMarker(fields, i);
        MarkerWithin(packet, marker, at);
        assert false;
      }
    }
  }

  lemma MarkerWithin(packet: Bytes, marker: nat, at: nat)
    requires 4 <= marker <= |packet| && MarkerAt(packet[4..marker], at)
    ensures MarkerAt(packet, 4 + at) && 4 + at < marker
  {
  }

  lemma {:induction false} IdStartsMarker(fields: seq<Field>, i: nat) returns (at: nat)
    requires i < |fields| && fields[i].name == ID && fields[i].Valid()
    ensures MarkerAt(Prefixed(fields), at)
  {
    if i == 0 {
      at := 0;
      assert Prefixed(fields) == [SPACE, 105, 100, EQUALS] + fields[0].value + Prefixed(fields[1..]);
    } else {
      hide MarkerAt, Field.Valid, Field.Token;
      var later := IdStartsMarker(fields[1..], i - 1);
      at := 1 + |fields[0].Token()| + later;
      MarkerShift([SPACE] + fields[0].Token(), Prefixed(fields[1..]), later);
    }
  }

  /**
   * Payload isolation: no payload, whatever bytes it imitates, changes how the header is read;
   * exchanging it for another of the same length exchanges the values and nothing else.
   */
  lemma PayloadIsIsolated(header: Bytes, payload: Bytes, other: Bytes)
    requires Parsed(header + payload).Some? && Parsed(header + payload).value.values == payload && |other| == |payload|
    ensures Parsed(header + other) == Some(Parsed(header + payload).value.(values := other))
  {
    hide Parsed, Dimensioned, Prefixed, Table;
    var l := ParsedWasRendered(header + payload);
    assert l.payload == payload;
    assert (header + payload)[..|header|] == header && l.Render()[..|l.Header()|] == l.Header();
    assert l.Header() == header;
    var m := l.(payload := other);
    assert m.Header() == l.Header();
    RenderedIsParsed(m);
    SamePart(l, other);
  }

  lemma SamePart(l: Layout, other: Bytes)
    requires Dimensioned(Table(l.fields), |l.payload|) && |other| == |l.payload|
    ensures l.(payload := other).Part() == l.Part().(values := other)
  {
  }

  // ----- The parser as it runs -----

  method FindMarkerIn(packet: Bytes) returns (at: Option<nat>)
    ensures at == FindMarker(packet, 0, MAX_HEADER)
  {
    var i := 0;
    while i + 4 <= MAX_HEADER && i + 4 <= |packet|
      invariant FindMarker(packet, 0, MAX_HEADER) == FindMarker(packet, i, MAX_HEADER)
    {
      if MarkerAt(packet, i) { return Some(i); }
      i := i + 1;
    }
    return None;
  }

  method SplitTokens(s: Bytes) returns (tokens: seq<Bytes>)
    ensures tokens == Words(s)
  {
    tokens := [];
    var rest, n := s, Position(s, SPACE);
    while n < |rest|
      invariant n == Position(rest, SPACE)
      invariant tokens + Words(rest) == Words(s)
      decreases |rest|
    {
      tokens := tokens + [rest[..n]];
      rest := rest[n + 1..];
      n := Position(rest, SPACE);
    }
    tokens := tokens + [rest];
  }

  method ReadFields(tokens: seq<Bytes>) returns (r: Option<map<Bytes, Bytes>>)
    ensures r == Fields(tokens, |tokens|)
  {
    var fields: map<Bytes, Bytes> := map[];
    for i := 0 to |tokens|
      invariant Fields(tokens, i) == Some(fields)
    {
      var field := ParseField(tokens[i]);
      if field.None? || field.value.name in fields {
        NoFieldsFrom(tokens, i + 1, |tokens|);
        return None;
      }
      fields := fields[field.value.name := field.value.value];
    }
    return Some(fields);
  }

  lemma {:induction false} NoFieldsFrom(tokens: seq<Bytes>, n: nat, m: nat)
    requires n <= m <= |tokens| && Fields(tokens, n).None?
    ensures Fields(tokens, m).None?
  {
    if n < m { NoFieldsFrom(tokens, n, m - 1); }
  }

  method ReadCounters(fields: map<Bytes, Bytes>) returns (r: Option<seq<nat>>)
    ensures r.Some? <==> Countable(fields)
    ensures r.Some? ==> |r.value| == |WIDTHS| && forall i | 0 <= i < |WIDTHS| :: r.value[i] == Number(fields, i)
  {
    var numbers: seq<nat> := [];
    for i := 0 to |WIDTHS|
      invariant |numbers| == i
      invariant forall j | 0 <= j < i :: Counter(fields, WIDTHS[j]) == Some(numbers[j])
    {
      var number := Counter(fields, WIDTHS[i]);
      if number.None? { return None; }
      numbers := numbers + [number.value];
    }
    return Some(numbers);
  }

  method ParseSnapshot(packet: Bytes) returns (part: Option<Part>)
    ensures part == Parsed(packet)
  {
    hide FindMarker, Words, Fields, Countable;
    if !(1 <= |packet| <= MAX_DATAGRAM) || !(MAGIC + [SPACE] <= packet) { return None; }
    var marker := FindMarkerIn(packet);
    if marker.None? { return None; }
    var at := marker.value;
    var offset := at + 4 + SERIAL_WIDTH + 1;
    if offset > MAX_HEADER || offset > |packet| || packet[offset - 1] != SPACE { return None; }
    var serial := WithoutPadding(packet[at + 4..offset - 1]);
    if !IsSerial(serial) { return None; }
    var tokens := SplitTokens(if at < 5 then [] else packet[5..at]);
    var fields := ReadFields(tokens);
    if fields.None? { return None; }
    var numbers := ReadCounters(fields.value);
    if numbers.None? { return None; }
    var size, count, index, parts := numbers.value[1], numbers.value[2], numbers.value[3], numbers.value[4];
    if !(1 <= count <= 4096) || !(1 <= parts <= MAX_PARTS) || index >= parts { return None; }
    if size < 1 || |packet| - offset != size { return None; }
    part := Some(Assembled(fields.value, serial, packet[offset..]));
  }
}
