/**
 * Watch-list files: direct entries, an optional tail of pointer nodes, the frame
 * sizes that follow from them, and their transfer in chunks.
 */
module WatchLists {
  import opened Common

  const RAWL := 0x4C574152
  const RANL := 0x4C4E4152
  const MAX_ENTRIES := 4096
  const MAX_NODES := 128
  const MAX_VALUES := 11529
  const CHUNK_BYTES := 896
  const MAX_WATCH_FILE := 17432

  /** A list file and the dimensions that follow from it. */
  datatype WatchList = WatchList(data: Bytes, count: nat, directBytes: nat, nodes: nat)
  {
    predicate Valid() {
      20 <= |data| <= MAX_WATCH_FILE && 1 <= count <= MAX_ENTRIES && 1 <= directBytes && nodes <= MAX_NODES
    }

    function Chunks(): nat { (|data| + CHUNK_BYTES - 1) / CHUNK_BYTES }

    function SnapshotSizes(): set<nat> { {directBytes, directBytes + nodes * 8} }

    function Chunk(index: nat): Bytes
      requires index < Chunks()
    {
      data[index * CHUNK_BYTES ..
           if (index + 1) * CHUNK_BYTES < |data| then (index + 1) * CHUNK_BYTES else |data|]
    }
  }

  type Watch = w: WatchList | w.Valid() witness WatchList(seq(20, _ => 0), 1, 1, 0)

  // ----- Layout -----

  function Word(data: Bytes, at: nat): nat
    requires at + 4 <= |data|
  {
    LittleEndian(data[at..at + 4])
  }

  function EntrySize(w: Watch, i: nat): nat
    requires 16 + 4 * i + 4 <= |w.data|
  {
    Word(w.data, 16 + 4 * i) / 0x10000000
  }

  function EntryAddress(w: Watch, i: nat): nat
    requires 16 + 4 * i + 4 <= |w.data|
  {
    Word(w.data, 16 + 4 * i) % 0x10000000
  }

  function NodeSize(w: Watch, i: nat): nat
    requires 24 + 4 * w.count + 8 * i + 4 <= |w.data|
  {
    (Word(w.data, 24 + 4 * w.count + 8 * i) / 0x2000) % 8
  }

  /** Bytes taken by the first n direct entries. */
  function EntryOffset(w: Watch, n: nat): nat
    requires 16 + 4 * n <= |w.data|
  {
    if n == 0 then 0 else EntryOffset(w, n - 1) + EntrySize(w, n - 1)
  }

  /** What list validation guarantees about the layout of entries and nodes. */
  predicate WellLaidOut(w: Watch) {
    && 16 + 4 * w.count + (if w.nodes > 0 then 8 + 8 * w.nodes else 0) == |w.data|
    && EntryOffset(w, w.count) == w.directBytes
    && forall i: nat | i < w.nodes :: NodeSize(w, i) <= 4
  }

  lemma {:induction false} OffsetsGrow(w: Watch, i: nat, n: nat)
    requires i <= n && 16 + 4 * n <= |w.data|
    ensures EntryOffset(w, i) <= EntryOffset(w, n)
  {
    if i < n { OffsetsGrow(w, i, n - 1); }
  }

  /** The chunks of a list, in index order, are the whole file. */
  lemma {:induction false} ChunksRestoreFile(w: Watch, n: nat)
    requires n <= w.Chunks()
    ensures Join(seq(n, i requires 0 <= i < n => w.Chunk(i)))
            == w.data[..if n * CHUNK_BYTES < |w.data| then n * CHUNK_BYTES else |w.data|]
  {
    if n > 0 {
      ChunksRestoreFile(w, n - 1);
      var before := seq(n - 1, i requires 0 <= i < n - 1 => w.Chunk(i));
      JoinAppend(before, w.Chunk(n - 1));
      assert seq(n, i requires 0 <= i < n => w.Chunk(i)) == before + [w.Chunk(n - 1)];
    }
  }

  // ----- Validation -----

  predicate IsReadSize(n: nat) { n in {1, 2, 4} }

  /** A node reads through a direct entry, or through a node before it. */
  predicate ValidNode(data: Bytes, count: nat, index: nat)
    requires 24 + 4 * count + 8 * index + 4 <= |data|
  {
    var word := Word(data, 24 + 4 * count + 8 * index);
    && IsReadSize(word / 0x2000 % 8)
    && word % 0x1000 < (if word / 0x1000 % 2 == 1 then index else count)
  }

  function SumOfSizes(data: Bytes, n: nat): nat
    requires 16 + 4 * n <= |data|
  {
    if n == 0 then 0 else SumOfSizes(data, n - 1) + Word(data, 16 + 4 * (n - 1)) / 0x10000000
  }

  predicate ValidEntries(data: Bytes, count: nat, directBytes: nat)
    requires 16 + 4 * count <= |data|
  {
    && (forall i: nat {:trigger Word(data, 16 + 4 * i)} | i < count :: IsReadSize(Word(data, 16 + 4 * i) / 0x10000000))
    && SumOfSizes(data, count) == directBytes
  }

  /** The nodes of the tail after the entries: none without a tail, None when the tail is malformed. */
  function TailNodes(data: Bytes, count: nat): Option<nat>
    requires 16 + 4 * count <= |data|
  {
    var end := 16 + 4 * count;
    if end == |data| then Some(0)
    else if |data| - end < 8 then None
    else
      var nodes := Word(data, end + 4);
      if Word(data, end) != RANL || !(1 <= nodes <= MAX_NODES) || end + 8 + nodes * 8 != |data| then None
      else if forall i: nat | i < nodes :: ValidNode(data, count, i) then Some(nodes)
      else None
  }

  function Validated(data: Bytes): (r: Option<Watch>) {
    if !(20 <= |data| <= MAX_WATCH_FILE) then None
    else
      var count, directBytes := Word(data, 8), Word(data, 12);
      if Word(data, 0) != RAWL || Word(data, 4) != 1 || !(1 <= count <= MAX_ENTRIES) then None
      else if 16 + 4 * count > |data| || !ValidEntries(data, count, directBytes) then None
      else
        var nodes := TailNodes(data, count);
        if nodes.None? || !(1 <= directBytes && directBytes + nodes.value * 8 <= MAX_VALUES) then None
        else Some(WatchList(data, count, directBytes, nodes.value))
  }

  /**
   * A validated file is laid out as the evaluator reads it, its reads have sizes the native runtime asks for,
   * no pointer refers forward, and both frame sizes fit the protocol.
   */
  lemma ValidatedIsWellLaidOut(data: Bytes)
    requires Validated(data).Some?
    ensures var w := Validated(data).value;
      && w.data == data && WellLaidOut(w)
      && (forall i: nat | i < w.count :: IsReadSize(EntrySize(w, i)))
      && (forall i: nat | i < w.nodes :: IsReadSize(NodeSize(w, i)) && ValidNode(data, w.count, i))
      && (forall s | s in w.SnapshotSizes() :: 1 <= s <= MAX_VALUES)
  {
    hide Word, LittleEndian;
    var w := Validated(data).value;
    OffsetIsSum(w, w.count);
    assert TailNodes(data, w.count) == Some(w.nodes);
    forall i: nat | i < w.nodes
      ensures NodeSize(w, i) <= 4 && IsReadSize(NodeSize(w, i)) && ValidNode(data, w.count, i)
    {
      assert ValidNode(data, w.count, i);
    }
    forall i: nat | i < w.count
      ensures IsReadSize(EntrySize(w, i))
    {
      assert IsReadSize(Word(data, 16 + 4 * i) / 0x10000000);
    }
  }

  lemma {:induction false} OffsetIsSum(w: Watch, n: nat)
    requires 16 + 4 * n <= |w.data|
    ensures EntryOffset(w, n) == SumOfSizes(w.data, n)
  {
    if n > 0 { OffsetIsSum(w, n - 1); }
  }

  /** The validation as it runs. */
  method Validate(data: Bytes) returns (list: Option<Watch>)
    ensures list == Validated(data)
  {
    hide LittleEndian;
    if !(20 <= |data| <= MAX_WATCH_FILE) { return None; }
    var count, directBytes := Word(data, 8), Word(data, 12);
    if Word(data, 0) != RAWL || Word(data, 4) != 1 || !(1 <= count <= MAX_ENTRIES) { return None; }
    var end := 16 + 4 * count;
    if end > |data| { return None; }
    var valid := CheckEntries(data, count, directBytes);
    if !valid { return None; }
    var nodes := 0;
    if end != |data| {
      if |data| - end < 8 { return None; }
      nodes := Word(data, end + 4);
      if Word(data, end) != RANL || !(1 <= nodes <= MAX_NODES) || end + 8 + nodes * 8 != |data| { return None; }
      for i := 0 to nodes
        invariant forall j: nat | j < i :: ValidNode(data, count, j)
      {
        if !ValidNode(data, count, i) { return None; }
      }
    }
    if !(1 <= directBytes && directBytes + nodes * 8 <= MAX_VALUES) { return None; }
    return Some(WatchList(data, count, directBytes, nodes));
  }

  method CheckEntries(data: Bytes, count: nat, directBytes: nat) returns (valid: bool)
    requires 16 + 4 * count <= |data|
    ensures valid == ValidEntries(data, count, directBytes)
  {
    hide LittleEndian, Word;
    var total := 0;
    for i := 0 to count
      invariant total == SumOfSizes(data, i)
      invariant forall j: nat {:trigger Word(data, 16 + 4 * j)} | j < i :: IsReadSize(Word(data, 16 + 4 * j) / 0x10000000)
    {
      var size := Word(data, 16 + 4 * i) / 0x10000000;
      if !IsReadSize(size) { return false; }
      total := total + size;
    }
    return total == directBytes;
  }

  // ----- What a generator writes validates -----

  /** The four bytes of a word, least significant first. */
  function LittleWord(n: nat): (r: Bytes)
    requires n < 0x1_0000_0000
    ensures |r| == 4
  {
    [n % 256, n / 256 % 256, n / 65536 % 256, n / 16777216]
  }

  lemma LittleWordRoundTrip(n: nat)
    requires n < 0x1_0000_0000
    ensures LittleEndian(LittleWord(n)) == n
  {
    var s := LittleWord(n);
    var h := n / 256;
    assert n / 65536 == h / 256 && n / 16777216 == h / 256 / 256;
    assert s[3..][1..] == [] && s[2..][1..] == s[3..] && s[1..][1..] == s[2..];
    var a: int, b: int, c: int, d: int := s[0], s[1], s[2], s[3];
    assert LittleEndian(s[3..]) == d;
    assert LittleEndian(s[2..]) == c + 256 * d;
    assert LittleEndian(s[1..]) == b + 256 * (c + 256 * d);
    assert LittleEndian(s) == a + 256 * (b + 256 * (c + 256 * d));
  }

  function AllWords(words: seq<nat>): (r: Bytes)
    requires forall i | 0 <= i < |words| :: words[i] < 0x1_0000_0000
    ensures |r| == 4 * |words|
  {
    if words == [] then [] else AllWords(words[..|words| - 1]) + LittleWord(words[|words| - 1])
  }

  lemma {:induction false} WordsRead(words: seq<nat>, i: nat)
    requires i < |words| && forall j | 0 <= j < |words| :: words[j] < 0x1_0000_0000
    ensures Word(AllWords(words), 4 * i) == words[i]
  {
    hide LittleEndian, LittleWord;
    var before, last := words[..|words| - 1], words[|words| - 1];
    if i == |words| - 1 {
      assert AllWords(words)[4 * i..4 * i + 4] == LittleWord(last);
      LittleWordRoundTrip(last);
    } else {
      WordsRead(before, i);
      assert AllWords(words)[4 * i..4 * i + 4] == AllWords(before)[4 * i..4 * i + 4];
    }
  }

  datatype DirectEntry = DirectEntry(address: nat, size: nat)
  {
    predicate Valid() { address < 0x1000_0000 && IsReadSize(size) }

    function Encoded(): nat { size * 0x1000_0000 + address }
  }

  function TotalSize(entries: seq<DirectEntry>): nat {
    if entries == [] then 0 else TotalSize(entries[..|entries| - 1]) + entries[|entries| - 1].size
  }

  /** A list of direct entries alone. */
  function DirectList(entries: seq<DirectEntry>): seq<nat> {
    [RAWL, 1, |entries|, TotalSize(entries)] + seq(|entries|, i requires 0 <= i < |entries| => entries[i].Encoded())
  }

  lemma {:induction false} SizesAddUp(entries: seq<DirectEntry>, data: Bytes, n: nat)
    requires n <= |entries| && 16 + 4 * |entries| <= |data| && forall i | 0 <= i < |entries| :: entries[i].Valid()
    requires forall i: nat {:trigger Word(data, 16 + 4 * i)} | i < |entries| :: Word(data, 16 + 4 * i) == entries[i].Encoded()
    ensures SumOfSizes(data, n) == TotalSize(entries[..n])
  {
    hide Word;
    if n > 0 {
      SizesAddUp(entries, data, n - 1);
      assert entries[..n][..n - 1] == entries[..n - 1];
      assert Word(data, 16 + 4 * (n - 1)) == entries[n - 1].Encoded() && entries[n - 1].Valid();
    }
  }

  lemma {:induction false} TotalIsSmall(entries: seq<DirectEntry>)
    requires forall i | 0 <= i < |entries| :: entries[i].Valid()
    ensures |entries| <= TotalSize(entries) <= 4 * |entries|
  {
    if entries != [] { TotalIsSmall(entries[..|entries| - 1]); }
  }

  /** Any list of up to 2882 valid direct entries is accepted with exactly its own dimensions and addresses. */
  lemma DirectListValidates(entries: seq<DirectEntry>)
    requires 1 <= |entries| <= 2882 && forall i | 0 <= i < |entries| :: entries[i].Valid()
    ensures forall i | 0 <= i < |DirectList(entries)| :: DirectList(entries)[i] < 0x1_0000_0000
    ensures var data := AllWords(DirectList(entries));
      && Validated(data) == Some(WatchList(data, |entries|, TotalSize(entries), 0))
      && forall i: nat | i < |entries| ::
           EntryAddress(Validated(data).value, i) == entries[i].address && EntrySize(Validated(data).value, i) == entries[i].size
  {
    hide LittleEndian, Word, AllWords;
    TotalIsSmall(entries);
    var words := DirectList(entries);
    forall i | 0 <= i < |words|
      ensures words[i] < 0x1_0000_0000
    {
      if i >= 4 { assert words[i] == entries[i - 4].Encoded() && entries[i - 4].Valid(); }
    }
    var data := AllWords(words);
    WordsRead(words, 0);
    WordsRead(words, 1);
    WordsRead(words, 2);
    WordsRead(words, 3);
    forall i: nat {:trigger Word(data, 16 + 4 * i)} | i < |entries|
      ensures Word(data, 16 + 4 * i) == entries[i].Encoded() && IsReadSize(Word(data, 16 + 4 * i) / 0x10000000)
      ensures Word(data, 16 + 4 * i) / 0x10000000 == entries[i].size && Word(data, 16 + 4 * i) % 0x10000000 == entries[i].address
    {
      WordsRead(words, 4 + i);
      assert entries[i].Valid();
    }
    SizesAddUp(entries, data, |entries|);
    assert entries[..|entries|] == entries;
  }
}
