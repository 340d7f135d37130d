/**
 * The datagram of a console, digit by digit: five decimal fields, the padded serial
 * and the payload; it parses to just the numbers that were printed.
 */
module SnapshotDatagrams {
  import opened Common
  import opened SnapshotAssembly
  import opened SnapshotParsing

  /** A number in decimal, with leading zeros. */
  function Decimal(n: nat, width: nat): (r: Bytes)
    ensures |r| == width && forall i | 0 <= i < width :: IsDigit(r[i])
  {
    if width == 0 then [] else Decimal(n / 10, width - 1) + [48 + n % 10]
  }

  lemma {:induction false} DecimalIsRead(n: nat, width: nat)
    requires n < Pow10(width)
    ensures Value(Decimal(n, width)) == n
  {
    if width > 0 {
      DecimalIsRead(n / 10, width - 1);
      assert Decimal(n, width)[..width - 1] == Decimal(n / 10, width - 1);
    }
  }

  /** "sq", "vb", "n", "pt" and "np", in the console's order. */
  function ConsoleFields(sequence: nat, size: nat, count: nat, index: nat, parts: nat): seq<Field> {
    [Field([115, 113], Decimal(sequence, 6)), Field([118, 98], Decimal(size, 4)), Field([110], Decimal(count, 4)),
     Field([112, 116], Decimal(index, 1)), Field([110, 112], Decimal(parts, 1))]
  }

  lemma DecimalIsValue(n: nat, width: nat)
    requires width >= 1
    ensures AllDigits(Decimal(n, width)) && IsValue(Decimal(n, width))
  {
    hide Decimal;
  }

  lemma Powers()
    ensures Pow10(1) == 10 && Pow10(4) == 10000 && Pow10(6) == 1000000
  {
    assert Pow10(2) == 100 && Pow10(3) == 1000 && Pow10(5) == 100000;
  }

  lemma FiveInTable(a: Field, b: Field, c: Field, d: Field, e: Field)
    ensures Table([a, b, c, d, e])
            == map[][a.name := a.value][b.name := b.value][c.name := c.value][d.name := d.value][e.name := e.value]
  {
    hide Table;
    TableOne([], a);
    TableOne([a], b);
    TableOne([a, b], c);
    TableOne([a, b, c], d);
    TableOne([a, b, c, d], e);
    assert [] + [a] == [a] && [a] + [b] == [a, b] && [a, b] + [c] == [a, b, c];
    assert [a, b, c] + [d] == [a, b, c, d] && [a, b, c, d] + [e] == [a, b, c, d, e];
  }

  lemma TableOne(fields: seq<Field>, last: Field)
    ensures Table(fields + [last]) == Table(fields)[last.name := last.value] && Table([]) == map[]
  {
    assert (fields + [last])[..|fields|] == fields;
  }

  lemma ConsoleTable(sequence: nat, size: nat, count: nat, index: nat, parts: nat)
    ensures var table := Table(ConsoleFields(sequence, size, count, index, parts));
      && SEQUENCE_FIELD in table && table[SEQUENCE_FIELD] == Decimal(sequence, 6)
      && SIZE_FIELD in table && table[SIZE_FIELD] == Decimal(size, 4)
      && COUNT_FIELD in table && table[COUNT_FIELD] == Decimal(count, 4)
      && INDEX_FIELD in table && table[INDEX_FIELD] == Decimal(index, 1)
      && PARTS_FIELD in table && table[PARTS_FIELD] == Decimal(parts, 1)
  {
    hide Decimal, Table;
    var fields := ConsoleFields(sequence, size, count, index, parts);
    FiveInTable(fields[0], fields[1], fields[2], fields[3], fields[4]);
    NamesDiffer();
  }

  lemma NamesDiffer()
    ensures SEQUENCE_FIELD != SIZE_FIELD && SEQUENCE_FIELD != COUNT_FIELD && SEQUENCE_FIELD != INDEX_FIELD
    ensures SEQUENCE_FIELD != PARTS_FIELD && SIZE_FIELD != COUNT_FIELD && SIZE_FIELD != INDEX_FIELD
    ensures SIZE_FIELD != PARTS_FIELD && COUNT_FIELD != INDEX_FIELD && COUNT_FIELD != PARTS_FIELD
    ensures INDEX_FIELD != PARTS_FIELD
    ensures ID !in {SEQUENCE_FIELD, SIZE_FIELD, COUNT_FIELD, INDEX_FIELD, PARTS_FIELD}
  {
    assert SEQUENCE_FIELD[0] == 115 && SIZE_FIELD[0] == 118 && INDEX_FIELD[1] == 116 && PARTS_FIELD[1] == 112;
  }

  lemma ConsoleNumbers(sequence: nat, size: nat, count: nat, index: nat, parts: nat)
    requires sequence < 1000000 && 1 <= size < 10000 && 1 <= count <= 4096 && index < parts <= 9
    ensures var table := Table(ConsoleFields(sequence, size, count, index, parts));
      && Dimensioned(table, size) && Number(table, 0) == sequence && Number(table, 2) == count
      && Number(table, 3) == index && Number(table, 4) == parts
  {
    hide Decimal, Table, Value, Pow10, AllDigits;
    ConsoleTable(sequence, size, count, index, parts);
    Powers();
    DecimalIsRead(sequence, 6);
    DecimalIsRead(size, 4);
    DecimalIsRead(count, 4);
    DecimalIsRead(index, 1);
    DecimalIsRead(parts, 1);
    DecimalIsValue(sequence, 6);
    DecimalIsValue(size, 4);
    DecimalIsValue(count, 4);
    DecimalIsValue(index, 1);
    DecimalIsValue(parts, 1);
    var table := Table(ConsoleFields(sequence, size, count, index, parts));
    assert Counter(table, WIDTHS[0]) == Some(sequence) && Counter(table, WIDTHS[1]) == Some(size);
    assert Counter(table, WIDTHS[2]) == Some(count) && Counter(table, WIDTHS[3]) == Some(index);
    assert Counter(table, WIDTHS[4]) == Some(parts);
    assert |WIDTHS| == 5;
  }

  /** Five fields take 35 bytes with the spaces before them. */
  lemma ConsolePrefix(sequence: nat, size: nat, count: nat, index: nat, parts: nat)
    ensures |Prefixed(ConsoleFields(sequence, size, count, index, parts))| == 35
  {
    hide Decimal;
    var fields := ConsoleFields(sequence, size, count, index, parts);
    assert fields[1..][0] == fields[1] && fields[1..][1..] == fields[2..];
    assert fields[2..][0] == fields[2] && fields[2..][1..] == fields[3..];
    assert fields[3..][0] == fields[3] && fields[3..][1..] == fields[4..];
    assert fields[4..][0] == fields[4] && fields[4..][1..] == [];
    PrefixedOne(fields);
    PrefixedOne(fields[1..]);
    PrefixedOne(fields[2..]);
    PrefixedOne(fields[3..]);
    PrefixedOne(fields[4..]);
  }

  lemma PrefixedOne(fields: seq<Field>)
    requires fields != []
    ensures |Prefixed(fields)| == 2 + |fields[0].name| + |fields[0].value| + |Prefixed(fields[1..])|
    ensures Prefixed([]) == []
  {
  }

  /**
   * What a console prints is what is parsed: sequence number, watch count, slot, part count and payload of any
   * part, for any serial and any payload that fits a datagram.
   */
  lemma PrintedIsParsed(sequence: nat, count: nat, index: nat, parts: nat, serial: Bytes, payload: Bytes)
    requires sequence < 1000000 && 1 <= count <= 4096 && index < parts <= 9 && 1 <= |payload| <= 1413
    requires IsSerial(serial) && |serial| <= 15
    ensures var datagram := Layout(ConsoleFields(sequence, |payload|, count, index, parts), serial, payload).Render();
      Parsed(datagram) == Some(SnapshotPart(Text(serial), sequence, count, index, parts, payload))
  {
    hide Decimal, Table, Prefixed, Parsed, IsSerial, Dimensioned, IsName, IsValue;
    var l := Layout(ConsoleFields(sequence, |payload|, count, index, parts), serial, payload);
    ConsoleNumbers(sequence, |payload|, count, index, parts);
    ConsolePrefix(sequence, |payload|, count, index, parts);
    ConsoleFieldsAreFields(sequence, |payload|, count, index, parts);
    RenderedIsParsed(l);
  }

  lemma ConsoleFieldsAreFields(sequence: nat, size: nat, count: nat, index: nat, parts: nat)
    ensures var fields := ConsoleFields(sequence, size, count, index, parts);
      && (forall i | 0 <= i < |fields| :: fields[i].Valid() && fields[i].name != ID)
      && (forall i, j | 0 <= i < j < |fields| :: fields[i].name != fields[j].name)
  {
    hide Decimal, AllDigits;
    NamesDiffer();
    DecimalIsValue(sequence, 6);
    DecimalIsValue(size, 4);
    DecimalIsValue(count, 4);
    DecimalIsValue(index, 1);
    DecimalIsValue(parts, 1);
  }
}
