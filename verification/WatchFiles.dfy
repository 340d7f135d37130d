/**
 * The watch-list files that validate are exactly those that a generator writes:
 * direct entries, and a tail of pointer nodes that read through what precedes them.
 */
module WatchFiles {
  import opened Common
  import opened WatchLists

  /** A node reads through a direct entry or an earlier node; `spare` are the bits that validation ignores. */
  datatype PointerNode = PointerNode(parent: nat, fromNode: bool, size: nat, spare: nat, offset: nat)
  {
    predicate Valid(count: nat, index: nat) {
      && IsReadSize(size) && parent < 0x1000 && parent < (if fromNode then index else count)
      && spare < 0x1_0000 && offset < 0x1_0000_0000
    }

    function Encoded(): nat { parent + 0x1000 * ((if fromNode then 1 else 0) + 2 * (size + 8 * spare)) }
  }

  function TailWords(nodes: seq<PointerNode>): (r: seq<nat>)
    ensures |r| == 2 * |nodes|
  {
    if nodes == [] then []
    else
      var last := nodes[|nodes| - 1];
      TailWords(nodes[..|nodes| - 1]) + [last.Encoded(), last.offset]
  }

  /** Header, entries, and with any nodes their own header and the nodes. */
  function WrittenWords(entries: seq<DirectEntry>, nodes: seq<PointerNode>): (r: seq<nat>)
    ensures |r| == 4 + |entries| + if nodes == [] then 0 else 2 + 2 * |nodes|
  {
    DirectList(entries) + if nodes == [] then [] else [RANL, |nodes|] + TailWords(nodes)
  }

  /** What a generator may write: any sound entries and nodes whose snapshots fit the protocol. */
  predicate Writable(entries: seq<DirectEntry>, nodes: seq<PointerNode>) {
    && 1 <= |entries| <= 4096 && (forall i | 0 <= i < |entries| :: entries[i].Valid())
    && |nodes| <= 128 && (forall i | 0 <= i < |nodes| :: nodes[i].Valid(|entries|, i))
    && TotalSize(entries) + 8 * |nodes| <= 11529
  }

  lemma NodeFields(n: PointerNode)
    requires n.parent < 0x1000 && n.size < 8 && n.spare < 0x1_0000
    ensures var word := n.Encoded();
      && word < 0x1_0000_0000 && word % 0x1000 == n.parent && word / 0x1000 % 2 == (if n.fromNode then 1 else 0)
      && word / 0x2000 % 8 == n.size
  {
    var word, flag := n.Encoded(), if n.fromNode then 1 else 0;
    assert word / 0x1000 == flag + 2 * (n.size + 8 * n.spare);
    assert word / 0x2000 == n.size + 8 * n.spare;
  }

  lemma {:induction false} TailWordsAt(nodes: seq<PointerNode>, i: nat)
    requires i < |nodes|
    ensures TailWords(nodes)[2 * i] == nodes[i].Encoded() && TailWords(nodes)[2 * i + 1] == nodes[i].offset
  {
    if i < |nodes| - 1 { TailWordsAt(nodes[..|nodes| - 1], i); }
  }

  lemma WrittenWordsAt(entries: seq<DirectEntry>, nodes: seq<PointerNode>)
    ensures var words := WrittenWords(entries, nodes);
      && words[0] == RAWL && words[1] == 1 && words[2] == |entries| && words[3] == TotalSize(entries)
      && (forall i | 0 <= i < |entries| :: words[4 + i] == entries[i].Encoded())
      && (nodes != [] ==> words[4 + |entries|] == RANL && words[5 + |entries|] == |nodes|)
      && (forall i | 0 <= i < |nodes| ::
            words[6 + |entries| + 2 * i] == nodes[i].Encoded() && words[7 + |entries| + 2 * i] == nodes[i].offset)
  {
    hide TailWords, TotalSize;
    var words, c := WrittenWords(entries, nodes), |entries|;
    assert forall i | 0 <= i < c :: DirectList(entries)[4 + i] == entries[i].Encoded();
    forall i | 0 <= i < |nodes|
      ensures words[6 + c + 2 * i] == nodes[i].Encoded() && words[7 + c + 2 * i] == nodes[i].offset
    {
      TailWordsAt(nodes, i);
      assert words[6 + c + 2 * i] == TailWords(nodes)[2 * i] && words[7 + c + 2 * i] == TailWords(nodes)[2 * i + 1];
    }
  }

  lemma WordsAreSmall(entries: seq<DirectEntry>, nodes: seq<PointerNode>)
    requires Writable(entries, nodes)
    ensures forall i | 0 <= i < |WrittenWords(entries, nodes)| :: WrittenWords(entries, nodes)[i] < 0x1_0000_0000
  {
    hide TotalSize, TailWords;
    var words, c := WrittenWords(entries, nodes), |entries|;
    WrittenWordsAt(entries, nodes);
    TailIsSmall(nodes, c);
    forall i | 0 <= i < |words|
      ensures words[i] < 0x1_0000_0000
    {
      if 4 <= i < 4 + c {
        assert words[4 + (i - 4)] == entries[i - 4].Encoded() && entries[i - 4].Valid();
      } else if i >= 6 + c {
        assert words[i] == TailWords(nodes)[i - 6 - c];
      }
    }
  }

  lemma {:induction false} TailIsSmall(nodes: seq<PointerNode>, count: nat)
    requires forall i | 0 <= i < |nodes| :: nodes[i].Valid(count, i)
    ensures forall k | 0 <= k < |TailWords(nodes)| :: TailWords(nodes)[k] < 0x1_0000_0000
  {
    hide PointerNode.Encoded;
    if nodes != [] {
      var last := nodes[|nodes| - 1];
      assert last.Valid(count, |nodes| - 1);
      NodeFields(last);
      TailIsSmall(nodes[..|nodes| - 1], count);
    }
  }

  /** The words of a file. */
  ghost predicate Reads(data: Bytes, words: seq<nat>) {
    |data| == 4 * |words| && forall i: nat | i < |words| :: Word(data, 4 * i) == words[i]
  }

  lemma WrittenIsRead(words: seq<nat>)
    requires forall i | 0 <= i < |words| :: words[i] < 0x1_0000_0000
    ensures Reads(AllWords(words), words)
  {
    hide Word, AllWords;
    forall i: nat | i < |words|
      ensures Word(AllWords(words), 4 * i) == words[i]
    {
      WordsRead(words, i);
    }
  }

  lemma EntriesValidate(entries: seq<DirectEntry>, nodes: seq<PointerNode>, data: Bytes)
    requires Writable(entries, nodes) && Reads(data, WrittenWords(entries, nodes))
    ensures ValidEntries(data, |entries|, TotalSize(entries))
    ensures forall i: nat {:trigger Word(data, 16 + 4 * i)} | i < |entries| ::
      && Word(data, 16 + 4 * i) / 0x10000000 == entries[i].size && Word(data, 16 + 4 * i) % 0x10000000 == entries[i].address
  {
    hide Word, TotalSize, WrittenWords, SumOfSizes;
    WrittenWordsAt(entries, nodes);
    var words := WrittenWords(entries, nodes);
    forall i: nat {:trigger Word(data, 16 + 4 * i)} | i < |entries|
      ensures Word(data, 16 + 4 * i) == entries[i].Encoded() && IsReadSize(Word(data, 16 + 4 * i) / 0x10000000)
      ensures Word(data, 16 + 4 * i) / 0x10000000 == entries[i].size && Word(data, 16 + 4 * i) % 0x10000000 == entries[i].address
    {
      assert Word(data, 4 * (4 + i)) == words[4 + i];
      assert entries[i].Valid();
    }
    SizesAddUp(entries, data, |entries|);
    assert entries[..|entries|] == entries;
  }

  lemma NodesValidate(entries: seq<DirectEntry>, nodes: seq<PointerNode>, data: Bytes)
    requires Writable(entries, nodes) && Reads(data, WrittenWords(entries, nodes))
    ensures TailNodes(data, |entries|) == Some(|nodes|)
    ensures forall i: nat | i < |nodes| ::
      Word(data, 24 + 4 * |entries| + 8 * i) == nodes[i].Encoded() && Word(data, 28 + 4 * |entries| + 8 * i) == nodes[i].offset
  {
    hide Word, TotalSize, WrittenWords, PointerNode.Encoded;
    WrittenWordsAt(entries, nodes);
    var words, c := WrittenWords(entries, nodes), |entries|;
    assert nodes != [] ==> Word(data, 4 * (4 + c)) == RANL && Word(data, 4 * (5 + c)) == |nodes|;
    forall i: nat | i < |nodes|
      ensures ValidNode(data, c, i)
      ensures Word(data, 24 + 4 * c + 8 * i) == nodes[i].Encoded() && Word(data, 28 + 4 * c + 8 * i) == nodes[i].offset
    {
      assert Word(data, 4 * (6 + c + 2 * i)) == words[6 + c + 2 * i];
      assert Word(data, 4 * (7 + c + 2 * i)) == words[7 + c + 2 * i];
      assert nodes[i].Valid(c, i);
      NodeFields(nodes[i]);
    }
  }

  /** Whatever a generator may write validates, with its own dimensions, addresses and sizes. */
  lemma WrittenListValidates(entries: seq<DirectEntry>, nodes: seq<PointerNode>)
    requires Writable(entries, nodes)
    ensures forall i | 0 <= i < |WrittenWords(entries, nodes)| :: WrittenWords(entries, nodes)[i] < 0x1_0000_0000
    ensures var data := AllWords(WrittenWords(entries, nodes));
      && Validated(data) == Some(WatchList(data, |entries|, TotalSize(entries), |nodes|))
      && var w := Validated(data).value;
         && (forall i: nat | i < |entries| :: EntryAddress(w, i) == entries[i].address && EntrySize(w, i) == entries[i].size)
         && (forall i: nat | i < |nodes| :: NodeSize(w, i) == nodes[i].size)
  {
    hide Word, AllWords, WrittenWords, TotalSize, ValidEntries, TailNodes, PointerNode.Encoded;
    TotalIsSmall(entries);
    WordsAreSmall(entries, nodes);
    WrittenWordsAt(entries, nodes);
    var words := WrittenWords(entries, nodes);
    WrittenIsRead(words);
    var data := AllWords(words);
    EntriesValidate(entries, nodes, data);
    NodesValidate(entries, nodes, data);
    assert Word(data, 4 * 0) == RAWL && Word(data, 4 * 1) == 1;
    assert Word(data, 4 * 2) == |entries| && Word(data, 4 * 3) == TotalSize(entries);
    forall i: nat | i < |nodes|
      ensures Word(data, 24 + 4 * |entries| + 8 * i) / 0x2000 % 8 == nodes[i].size
    {
      assert nodes[i].Valid(|entries|, i);
      NodeFields(nodes[i]);
    }
  }

  // ----- The converse -----

  lemma LittleWordRestores(s: Bytes)
    requires |s| == 4
    ensures LittleEndian(s) < 0x1_0000_0000 && LittleWord(LittleEndian(s)) == s
  {
    var a: int, b: int, c: int, d: int := s[0], s[1], s[2], s[3];
    FourBytes(s);
    Bytewise(a, b, c, d);
  }

  lemma FourBytes(s: Bytes)
    requires |s| == 4
    ensures var a: int, b: int, c: int, d: int := s[0], s[1], s[2], s[3]; LittleEndian(s) == a + 256 * (b + 256 * (c + 256 * d))
  {
    var a: int, b: int, c: int, d: int := s[0], s[1], s[2], s[3];
    assert s[3..][1..] == [] && s[2..][1..] == s[3..] && s[1..][1..] == s[2..];
    assert LittleEndian(s[3..]) == d;
    assert LittleEndian(s[2..]) == c + 256 * d;
    assert LittleEndian(s[1..]) == b + 256 * (c + 256 * d);
  }

  lemma Bytewise(a: nat, b: nat, c: nat, d: nat)
    requires a < 256 && b < 256 && c < 256 && d < 256
    ensures var n := a + 256 * (b + 256 * (c + 256 * d));
      n < 0x1_0000_0000 && n % 256 == a && n / 256 % 256 == b && n / 65536 % 256 == c && n / 16777216 == d
  {
    var n := a + 256 * (b + 256 * (c + 256 * d));
    assert n / 256 == b + 256 * (c + 256 * d);
    assert n / 65536 == c + 256 * d;
  }

  /** A file is determined by its words. */
  lemma {:induction false} WordsDetermine(data: Bytes, words: seq<nat>)
    requires Reads(data, words)
    ensures forall i | 0 <= i < |words| :: words[i] < 0x1_0000_0000
    ensures data == AllWords(words)
  {
    hide LittleEndian, LittleWord;
    if words != [] {
      var n := |words| - 1;
      var before, front := words[..n], data[..4 * n];
      forall i: nat | i < n
        ensures Word(front, 4 * i) == before[i]
      {
        assert front[4 * i..4 * i + 4] == data[4 * i..4 * i + 4];
        assert Word(data, 4 * i) == words[i];
      }
      WordsDetermine(front, before);
      assert Word(data, 4 * n) == words[n];
      LittleWordRestores(data[4 * n..4 * n + 4]);
      forall i | 0 <= i < |words|
        ensures words[i] < 0x1_0000_0000
      {
        if i < n { assert before[i] == words[i]; }
      }
      assert data == front + data[4 * n..4 * n + 4];
    }
  }

  lemma WordIsSmall(data: Bytes, at: nat)
    requires at + 4 <= |data|
    ensures Word(data, at) < 0x1_0000_0000
  {
    LittleWordRestores(data[at..at + 4]);
  }

  /** The entry and the node that a word stands for. */
  function EntryOf(word: nat): DirectEntry { DirectEntry(word % 0x1000_0000, word / 0x1000_0000) }

  function NodeOf(word: nat, offset: nat): PointerNode {
    PointerNode(word % 0x1000, word / 0x1000 % 2 == 1, word / 0x2000 % 8, word / 0x1_0000, offset)
  }

  lemma NodeOfRestores(word: nat, offset: nat)
    requires word < 0x1_0000_0000
    ensures NodeOf(word, offset).Encoded() == word && NodeOf(word, offset).spare < 0x1_0000
  {
    var q := word / 0x1000;
    assert word == q * 0x1000 + word % 0x1000;
    assert q / 2 == word / 0x2000 && q / 2 / 8 == word / 0x1_0000;
    assert q == q % 2 + 2 * (q / 2) && q / 2 == q / 2 % 8 + 8 * (q / 2 / 8);
  }

  function EntriesOf(data: Bytes, n: nat): (r: seq<DirectEntry>)
    requires 16 + 4 * n <= |data|
    ensures |r| == n && forall i: nat | i < n :: r[i] == EntryOf(Word(data, 16 + 4 * i))
  {
    if n == 0 then [] else EntriesOf(data, n - 1) + [EntryOf(Word(data, 16 + 4 * (n - 1)))]
  }

  function NodesOf(data: Bytes, count: nat, n: nat): (r: seq<PointerNode>)
    requires n > 0 ==> 24 + 4 * count + 8 * n <= |data|
    ensures |r| == n
    ensures forall i: nat | i < n ::
      r[i] == NodeOf(Word(data, 24 + 4 * count + 8 * i), Word(data, 28 + 4 * count + 8 * i))
  {
    if n == 0 then []
    else
      NodesOf(data, count, n - 1)
      + [NodeOf(Word(data, 24 + 4 * count + 8 * (n - 1)), Word(data, 28 + 4 * count + 8 * (n - 1)))]
  }

  lemma ValidatedFacts(data: Bytes)
    requires Validated(data).Some?
    ensures var w := Validated(data).value;
      && w.data == data && Word(data, 0) == RAWL && Word(data, 4) == 1 && Word(data, 8) == w.count && Word(data, 12) == w.directBytes
      && 1 <= w.count <= 4096 && 16 + 4 * w.count <= |data| && ValidEntries(data, w.count, w.directBytes)
      && TailNodes(data, w.count) == Some(w.nodes) && w.directBytes + w.nodes * 8 <= 11529
  {
    hide Word, ValidEntries, TailNodes;
  }

  lemma TailFacts(data: Bytes, count: nat, nodes: nat)
    requires 16 + 4 * count <= |data| && TailNodes(data, count) == Some(nodes)
    ensures nodes <= 128 && |data| == 16 + 4 * count + if nodes == 0 then 0 else 8 + 8 * nodes
    ensures nodes > 0 ==> Word(data, 16 + 4 * count) == RANL && Word(data, 20 + 4 * count) == nodes
    ensures forall i: nat | i < nodes :: ValidNode(data, count, i)
  {
    hide Word, ValidNode;
  }

  lemma EntriesAreValid(data: Bytes, count: nat, directBytes: nat)
    requires 16 + 4 * count <= |data| && ValidEntries(data, count, directBytes)
    ensures var entries := EntriesOf(data, count);
      && (forall i | 0 <= i < count :: entries[i].Valid() && entries[i].Encoded() == Word(data, 16 + 4 * i))
      && TotalSize(entries) == directBytes
  {
    hide Word, TotalSize, SumOfSizes;
    var entries := EntriesOf(data, count);
    forall i: nat {:trigger Word(data, 16 + 4 * i)} | i < count
      ensures entries[i].Valid() && entries[i].Encoded() == Word(data, 16 + 4 * i)
    {
      assert IsReadSize(Word(data, 16 + 4 * i) / 0x10000000);
    }
    SizesAddUp(entries, data, count);
    assert entries[..count] == entries;
  }

  lemma NodesAreValid(data: Bytes, count: nat, nodes: nat)
    requires 16 + 4 * count <= |data| && TailNodes(data, count) == Some(nodes)
    requires nodes > 0 ==> 24 + 4 * count + 8 * nodes <= |data|
    ensures var list := NodesOf(data, count, nodes);
      forall i: nat | i < nodes ::
        && list[i].Valid(count, i) && list[i].Encoded() == Word(data, 24 + 4 * count + 8 * i)
        && list[i].offset == Word(data, 28 + 4 * count + 8 * i)
  {
    hide Word, NodesOf, TailNodes, PointerNode.Encoded;
    TailFacts(data, count, nodes);
    var list := NodesOf(data, count, nodes);
    forall i: nat | i < nodes
      ensures list[i].Valid(count, i) && list[i].Encoded() == Word(data, 24 + 4 * count + 8 * i)
      ensures list[i].offset == Word(data, 28 + 4 * count + 8 * i)
    {
      WordIsSmall(data, 24 + 4 * count + 8 * i);
      WordIsSmall(data, 28 + 4 * count + 8 * i);
      NodeOfRestores(Word(data, 24 + 4 * count + 8 * i), Word(data, 28 + 4 * count + 8 * i));
      assert ValidNode(data, count, i);
    }
  }

  /** Whatever validates was written so. */
  lemma ValidatedWasWritten(data: Bytes) returns (entries: seq<DirectEntry>, nodes: seq<PointerNode>)
    requires Validated(data).Some?
    ensures Writable(entries, nodes)
    ensures forall i | 0 <= i < |WrittenWords(entries, nodes)| :: WrittenWords(entries, nodes)[i] < 0x1_0000_0000
    ensures data == AllWords(WrittenWords(entries, nodes))
  {
    hide Validated, AllWords, WrittenWords, Writable, Reads;
    ValidatedFacts(data);
    var w := Validated(data).value;
    TailFacts(data, w.count, w.nodes);
    entries, nodes := EntriesOf(data, w.count), NodesOf(data, w.count, w.nodes);
    RestoredIsWritable(data, w);
    WordsDetermine(data, WrittenWords(entries, nodes));
  }

  lemma RestoredIsWritable(data: Bytes, w: Watch)
    requires Validated(data) == Some(w)
    requires 16 + 4 * w.count <= |data| && (w.nodes > 0 ==> 24 + 4 * w.count + 8 * w.nodes <= |data|)
    ensures var entries, nodes := EntriesOf(data, w.count), NodesOf(data, w.count, w.nodes);
      Writable(entries, nodes) && Reads(data, WrittenWords(entries, nodes))
  {
    hide Word, Validated, WrittenWords, TotalSize, ValidEntries, TailNodes, EntriesOf, NodesOf, Reads, PointerNode.Encoded,
         DirectEntry.Encoded, PointerNode.Valid, DirectEntry.Valid, EntryOf, NodeOf;
    ValidatedFacts(data);
    TailFacts(data, w.count, w.nodes);
    EntriesAreValid(data, w.count, w.directBytes);
    NodesAreValid(data, w.count, w.nodes);
    FileReads(data, EntriesOf(data, w.count), NodesOf(data, w.count, w.nodes));
  }

  lemma FileReads(data: Bytes, entries: seq<DirectEntry>, nodes: seq<PointerNode>)
    requires |data| == 16 + 4 * |entries| + if nodes == [] then 0 else 8 + 8 * |nodes|
    requires Word(data, 0) == RAWL && Word(data, 4) == 1 && Word(data, 8) == |entries| && Word(data, 12) == TotalSize(entries)
    requires forall i | 0 <= i < |entries| :: entries[i].Encoded() == Word(data, 16 + 4 * i)
    requires nodes != [] ==> Word(data, 16 + 4 * |entries|) == RANL && Word(data, 20 + 4 * |entries|) == |nodes|
    requires forall i: nat | i < |nodes| ::
      nodes[i].Encoded() == Word(data, 24 + 4 * |entries| + 8 * i) && nodes[i].offset == Word(data, 28 + 4 * |entries| + 8 * i)
    ensures Reads(data, WrittenWords(entries, nodes))
  {
    hide Word, TotalSize, PointerNode.Encoded, WrittenWords;
    WrittenWordsAt(entries, nodes);
    var words, c := WrittenWords(entries, nodes), |entries|;
    forall i: nat | i < |words|
      ensures Word(data, 4 * i) == words[i]
    {
      if 4 <= i < 4 + c {
        assert words[4 + (i - 4)] == entries[i - 4].Encoded();
      } else if i >= 6 + c {
        var k := (i - 6 - c) / 2;
        assert i == 6 + c + 2 * k || i == 7 + c + 2 * k;
        assert words[6 + c + 2 * k] == nodes[k].Encoded() && words[7 + c + 2 * k] == nodes[k].offset;
      }
    }
  }
}
