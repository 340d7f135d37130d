/**
 * BOOTP messages with DHCP options (sections 2 of RFC 2131 and of RFC 2132):
 * the fixed header, the option walk, and the three messages the direct link
 * builds or looks for.
 */
module DhcpPackets {
  import opened Common
  import opened Subnets

  const HEADER_BYTES := 236
  const OPTIONS_AT := 240
  const MINIMUM_REPLY := 300
  const COOKIE: Bytes := [0x63, 0x82, 0x53, 0x63]

  const DISCOVER: Byte := 1
  const OFFER: Byte := 2
  const REQUEST: Byte := 3
  const DECLINE: Byte := 4
  const ACK: Byte := 5
  const NAK: Byte := 6
  const RELEASE: Byte := 7
  const INFORM: Byte := 8

  const MASK_OPTION: Byte := 1
  const ROUTER_OPTION: Byte := 3
  const REQUESTED_OPTION: Byte := 50
  const LEASE_OPTION: Byte := 51
  const TYPE_OPTION: Byte := 53
  const SERVER_OPTION: Byte := 54
  const PARAMETERS_OPTION: Byte := 55
  const END: Byte := 255

  type Half = n: int | 0 <= n < 0x1_0000

  // ----- Network byte order -----

  function WordBytes(n: Addr): (r: Bytes)
    ensures |r| == 4
  {
    [n / 0x100_0000, n / 0x1_0000 % 256, n / 256 % 256, n % 256]
  }

  function WordOf(s: Bytes): Addr
    requires |s| == 4
  {
    var a: int, b: int, c: int, d: int := s[0], s[1], s[2], s[3];
    ((a * 256 + b) * 256 + c) * 256 + d
  }

  function HalfBytes(n: Half): (r: Bytes)
    ensures |r| == 2
  {
    [n / 256, n % 256]
  }

  function HalfOf(s: Bytes): Half
    requires |s| == 2
  {
    var a: int, b: int := s[0], s[1];
    a * 256 + b
  }

  lemma WordRoundTrip(n: Addr)
    ensures WordOf(WordBytes(n)) == n
  {
    var h := n / 256;
    assert n / 0x1_0000 == h / 256 && n / 0x100_0000 == h / 256 / 256;
  }

  function Zeros(n: nat): (r: Bytes)
    ensures |r| == n
  {
    seq(n, i => 0)
  }

  /** A byte field of fixed width: cut, or filled up with zeros. */
  function Fixed(s: Bytes, n: nat): (r: Bytes)
    ensures |r| == n
  {
    if |s| >= n then s[..n] else s + Zeros(n - |s|)
  }

  // ----- The fixed header -----

  datatype BootHeader = BootHeader(
    op: Byte, htype: Byte, hlen: Byte, hops: Byte, xid: Addr, secs: Half, flags: Half,
    ciaddr: Addr, yiaddr: Addr, siaddr: Addr, giaddr: Addr, chaddr: Bytes, sname: Bytes, file: Bytes)
  {
    function Lead(): (r: Bytes)
      ensures |r| == 12
    {
      [op, htype, hlen, hops] + WordBytes(xid) + HalfBytes(secs) + HalfBytes(flags)
    }

    function Addresses(): (r: Bytes)
      ensures |r| == 16
    {
      WordBytes(ciaddr) + WordBytes(yiaddr) + WordBytes(siaddr) + WordBytes(giaddr)
    }

    function Pack(): (r: Bytes)
      ensures |r| == HEADER_BYTES
    {
      Lead() + Addresses() + Fixed(chaddr, 16) + Fixed(sname, 64) + Fixed(file, 128)
    }
  }

  function Unpack(s: Bytes): BootHeader
    requires |s| >= HEADER_BYTES
  {
    BootHeader(s[0], s[1], s[2], s[3], WordOf(s[4..8]), HalfOf(s[8..10]), HalfOf(s[10..12]),
               WordOf(s[12..16]), WordOf(s[16..20]), WordOf(s[20..24]), WordOf(s[24..28]),
               s[28..44], s[44..108], s[108..236])
  }

  lemma LeadFields(h: BootHeader, rest: Bytes)
    ensures var s := h.Lead() + rest;
      && s[0] == h.op && s[1] == h.htype && s[2] == h.hlen && s[3] == h.hops
      && WordOf(s[4..8]) == h.xid && HalfOf(s[8..10]) == h.secs && HalfOf(s[10..12]) == h.flags
  {
    hide WordOf, WordBytes;
    var s := h.Lead() + rest;
    WordRoundTrip(h.xid);
    assert s[4..8] == WordBytes(h.xid) && s[8..10] == HalfBytes(h.secs) && s[10..12] == HalfBytes(h.flags);
  }

  lemma AddressFields(h: BootHeader, rest: Bytes)
    ensures var s := h.Addresses() + rest;
      && WordOf(s[..4]) == h.ciaddr && WordOf(s[4..8]) == h.yiaddr
      && WordOf(s[8..12]) == h.siaddr && WordOf(s[12..16]) == h.giaddr
  {
    hide WordOf, WordBytes;
    var s := h.Addresses() + rest;
    WordRoundTrip(h.ciaddr);
    WordRoundTrip(h.yiaddr);
    WordRoundTrip(h.siaddr);
    WordRoundTrip(h.giaddr);
    assert s[..4] == WordBytes(h.ciaddr) && s[4..8] == WordBytes(h.yiaddr);
    assert s[8..12] == WordBytes(h.siaddr) && s[12..16] == WordBytes(h.giaddr);
  }

  /** Every header field is read back as it was packed, whatever follows. */
  lemma HeaderRoundTrip(h: BootHeader, rest: Bytes)
    ensures Unpack(h.Pack() + rest)
            == h.(chaddr := Fixed(h.chaddr, 16), sname := Fixed(h.sname, 64), file := Fixed(h.file, 128))
  {
    hide WordOf, HalfOf, BootHeader.Lead, BootHeader.Addresses, Fixed;
    var s := h.Pack() + rest;
    var chaddr, sname, file := Fixed(h.chaddr, 16), Fixed(h.sname, 64), Fixed(h.file, 128);
    var after := chaddr + sname + file + rest;
    assert s == h.Lead() + (h.Addresses() + after);
    LeadFields(h, h.Addresses() + after);
    var t := h.Addresses() + after;
    AddressFields(h, after);
    assert s[12..16] == t[..4] && s[16..20] == t[4..8] && s[20..24] == t[8..12] && s[24..28] == t[12..16];
    assert s[28..44] == chaddr && s[44..108] == sname && s[108..236] == file;
  }

  // ----- Options -----

  datatype Item = Item(tag: Byte, value: Bytes)

  /** Options from position i on; the walk ends at END, at the end of the data, or at a lone tag. */
  function Items(data: Bytes, i: nat): seq<Item>
    decreases |data| - i
  {
    if i >= |data| then []
    else if data[i] == 0 then Items(data, i + 1)
    else if data[i] == END || i + 1 >= |data| then []
    else
      var end := i + 2 + data[i + 1];
      [Item(data[i], data[i + 2..if end <= |data| then end else |data|])] + Items(data, end)
  }

  function LastWins(items: seq<Item>): map<Byte, Bytes> {
    if items == [] then map[]
    else LastWins(items[..|items| - 1])[items[|items| - 1].tag := items[|items| - 1].value]
  }

  method ReadOptions(data: Bytes) returns (options: map<Byte, Bytes>)
    ensures options == LastWins(Items(data, OPTIONS_AT))
  {
    hide LastWins;
    options := map[];
    ghost var read: seq<Item> := [];
    OneMoreWins([], Item(0, []));
    var i := OPTIONS_AT;
    while i < |data|
      invariant options == LastWins(read) && read + Items(data, i) == Items(data, OPTIONS_AT)
      decreases |data| - i
    {
      var tag := data[i];
      if tag == 0 {
        i := i + 1;
        continue;
      }
      if tag == END || i + 1 >= |data| { break; }
      var end := i + 2 + data[i + 1];
      var item := Item(tag, data[i + 2..if end <= |data| then end else |data|]);
      assert Items(data, i) == [item] + Items(data, end);
      assert read + Items(data, i) == read + [item] + Items(data, end);
      OneMoreWins(read, item);
      options := options[tag := item.value];
      read := read + [item];
      i := end;
    }
    assert Items(data, i) == [];
    assert read == Items(data, OPTIONS_AT);
  }

  lemma OneMoreWins(items: seq<Item>, item: Item)
    ensures LastWins([]) == map[] && LastWins(items + [item]) == LastWins(items)[item.tag := item.value]
  {
    assert (items + [item])[..|items|] == items;
  }

  datatype Entry = Filler | Opt(item: Item)
  {
    predicate Valid() { Opt? ==> 1 <= item.tag <= 254 && |item.value| <= 255 }

    function Encoded(): Bytes
      requires Valid()
    {
      match this
      case Filler => [0]
      case Opt(i) => [i.tag, |i.value|] + i.value
    }
  }

  predicate AllValid(entries: seq<Entry>) { forall i | 0 <= i < |entries| :: entries[i].Valid() }

  function EncodeAll(entries: seq<Entry>): Bytes
    requires AllValid(entries)
  {
    if entries == [] then [] else entries[0].Encoded() + EncodeAll(entries[1..])
  }

  function ItemsIn(entries: seq<Entry>): seq<Item> {
    if entries == [] then []
    else (if entries[0].Opt? then [entries[0].item] else []) + ItemsIn(entries[1..])
  }

  lemma FirstEntry(before: Bytes, e: Entry, after: Bytes)
    requires e.Valid()
    ensures var data := before + e.Encoded() + after;
      Items(data, |before|) == (if e.Opt? then [e.item] else []) + Items(data, |before + e.Encoded()|)
  {
    var data := before + e.Encoded() + after;
    assert data[|before|] == e.Encoded()[0];
    if e.Opt? {
      assert data[|before| + 1] == |e.item.value|;
      assert data[|before| + 2..|before| + 2 + |e.item.value|] == e.item.value;
    }
  }

  /**
   * The option walk recovers every well-formed option area: any options and fillers, in any order,
   * followed by END and anything else, or by nothing.
   */
  lemma {:induction false} WalkRecovers(before: Bytes, entries: seq<Entry>, after: Bytes)
    requires AllValid(entries) && (after == [] || after[0] == END)
    ensures Items(before + EncodeAll(entries) + after, |before|) == ItemsIn(entries)
    decreases |entries|
  {
    hide Entry.Encoded, Entry.Valid;
    var data := before + EncodeAll(entries) + after;
    if entries == [] {
      assert data == before + after;
    } else {
      var first := entries[0].Encoded();
      var later := EncodeAll(entries[1..]);
      assert data == before + first + (later + after) && data == before + first + later + after;
      FirstEntry(before, entries[0], later + after);
      WalkRecovers(before + first, entries[1..], after);
    }
  }

  /** The walk goes through any entries to what follows them. */
  lemma {:induction false} WalkGoesOn(before: Bytes, entries: seq<Entry>, after: Bytes)
    requires AllValid(entries)
    ensures var data := before + EncodeAll(entries) + after;
      Items(data, |before|) == ItemsIn(entries) + Items(data, |before + EncodeAll(entries)|)
    decreases |entries|
  {
    hide Entry.Encoded, Entry.Valid;
    var data := before + EncodeAll(entries) + after;
    if entries == [] {
      assert data == before + after && before + [] == before;
    } else {
      var first := entries[0].Encoded();
      var later := EncodeAll(entries[1..]);
      assert data == before + first + (later + after) && data == before + first + later + after;
      assert before + EncodeAll(entries) == before + first + later;
      FirstEntry(before, entries[0], later + after);
      WalkGoesOn(before + first, entries[1..], after);
    }
  }

  /** An option that the data ends in the middle of is cut to what is there, and a lone tag at the end is none. */
  lemma CutOptionIsRead(before: Bytes, entries: seq<Entry>, tag: Byte, length: Byte, value: Bytes)
    requires AllValid(entries) && 1 <= tag <= 254 && |value| <= length
    ensures Items(before + EncodeAll(entries) + ([tag, length] + value), |before|) == ItemsIn(entries) + [Item(tag, value)]
    ensures Items(before + EncodeAll(entries) + [tag], |before|) == ItemsIn(entries)
  {
    hide EncodeAll, ItemsIn;
    WalkGoesOn(before, entries, [tag, length] + value);
    LastOption(before + EncodeAll(entries), tag, length, value);
    WalkGoesOn(before, entries, [tag]);
    assert ItemsIn(entries) + [] == ItemsIn(entries);
  }

  lemma LastOption(before: Bytes, tag: Byte, length: Byte, value: Bytes)
    requires 1 <= tag <= 254 && |value| <= length
    ensures Items(before + ([tag, length] + value), |before|) == [Item(tag, value)]
    ensures Items(before + [tag], |before|) == []
  {
    var data := before + ([tag, length] + value);
    assert data[|before| + 2..|before| + 2 + |value|] == value;
    assert [Item(tag, value)] + [] == [Item(tag, value)];
  }

  lemma TagOfPrefix(before: seq<Item>, last: Item, tag: Byte)
    requires exists i :: 0 <= i < |before| && before[i].tag == tag
    ensures exists i :: 0 <= i < |before + [last]| && (before + [last])[i].tag == tag
  {
    var i :| 0 <= i < |before| && before[i].tag == tag;
    assert (before + [last])[i].tag == tag;
  }

  predicate DistinctTags(items: seq<Item>) { forall i, j | 0 <= i < j < |items| :: items[i].tag != items[j].tag }

  /** With distinct tags the table holds exactly the options that were written. */
  lemma {:induction false} DistinctOptionsKept(items: seq<Item>)
    requires DistinctTags(items)
    ensures forall i | 0 <= i < |items| ::
      items[i].tag in LastWins(items) && LastWins(items)[items[i].tag] == items[i].value
    ensures forall tag | tag in LastWins(items) :: exists i :: 0 <= i < |items| && items[i].tag == tag
  {
    if items != [] {
      var before := items[..|items| - 1];
      DistinctOptionsKept(before);
      forall i | 0 <= i < |items|
        ensures items[i].tag in LastWins(items) && LastWins(items)[items[i].tag] == items[i].value
      {
        if i < |before| { assert before[i] == items[i]; }
      }
      forall tag | tag in LastWins(items)
        ensures exists i :: 0 <= i < |items| && items[i].tag == tag
      {
        assert items[|items| - 1].tag == tag || tag in LastWins(before);
        if tag in LastWins(before) {
          TagOfPrefix(before, items[|items| - 1], tag);
          assert before + [items[|items| - 1]] == items;
        }
      }
    }
  }

  // ----- Requests -----

  datatype Request = Request(
    htype: Byte, hlen: Byte, xid: Addr, flags: Half, ciaddr: Addr, giaddr: Addr, mac: Bytes, chaddr: Bytes,
    options: map<Byte, Bytes>)

  predicate HasCookie(data: Bytes) { |data| >= OPTIONS_AT && data[HEADER_BYTES..OPTIONS_AT] == COOKIE }

  function ParsePacket(data: Bytes): (r: Option<Request>)
    ensures r.Some? ==> |r.value.chaddr| == 16
  {
    if !HasCookie(data) then None
    else
      var h := Unpack(data);
      if h.op != 1 then None
      else
        var macLength: int := if 1 <= h.hlen <= 16 then h.hlen else 6;
        Some(Request(h.htype, h.hlen, h.xid, h.flags, h.ciaddr, h.giaddr, h.chaddr[..macLength], h.chaddr,
                     LastWins(Items(data, OPTIONS_AT))))
  }

  method Parse(data: Bytes) returns (r: Option<Request>)
    ensures r == ParsePacket(data)
  {
    hide Items;
    if !HasCookie(data) { return None; }
    var h := Unpack(data);
    if h.op != 1 { return None; }
    var options := ReadOptions(data);
    var macLength: int := if 1 <= h.hlen <= 16 then h.hlen else 6;
    r := Some(Request(h.htype, h.hlen, h.xid, h.flags, h.ciaddr, h.giaddr, h.chaddr[..macLength], h.chaddr, options));
  }

  /** A whole message: header, cookie, options, and what follows them. */
  function Message(h: BootHeader, entries: seq<Entry>, after: Bytes): Bytes
    requires AllValid(entries)
  {
    h.Pack() + COOKIE + EncodeAll(entries) + after
  }

  lemma MessageRead(h: BootHeader, entries: seq<Entry>, after: Bytes)
    requires AllValid(entries) && (after == [] || after[0] == END)
    ensures var data := Message(h, entries, after);
      && HasCookie(data) && Items(data, OPTIONS_AT) == ItemsIn(entries)
      && Unpack(data) == h.(chaddr := Fixed(h.chaddr, 16), sname := Fixed(h.sname, 64), file := Fixed(h.file, 128))
  {
    hide Items, Unpack, BootHeader.Pack, EncodeAll, ItemsIn;
    var data := Message(h, entries, after);
    assert data == h.Pack() + (COOKIE + EncodeAll(entries) + after);
    HeaderRoundTrip(h, COOKIE + EncodeAll(entries) + after);
    WalkRecovers(h.Pack() + COOKIE, entries, after);
  }

  /** The table of these options: with distinct tags, DistinctOptionsKept says that it holds exactly them. */
  function TableOf(entries: seq<Entry>): map<Byte, Bytes> { LastWins(ItemsIn(entries)) }

  /**
   * Every well-formed BOOTREQUEST is read: all its fields, a MAC of the announced length or of six bytes, and its
   * options.
   */
  lemma RequestIsRead(h: BootHeader, entries: seq<Entry>, after: Bytes)
    requires AllValid(entries) && (after == [] || after[0] == END)
    ensures var r, chaddr := ParsePacket(Message(h, entries, after)), Fixed(h.chaddr, 16);
      if h.op != 1 then r.None?
      else
        r == Some(Request(h.htype, h.hlen, h.xid, h.flags, h.ciaddr, h.giaddr,
                          chaddr[..if 1 <= h.hlen <= 16 then h.hlen as int else 6], chaddr, TableOf(entries)))
  {
    hide Items, Unpack, Message, ItemsIn, LastWins, Fixed;
    MessageRead(h, entries, after);
  }

  function BuildDiscover(xid: Addr, mac: Bytes): Bytes
    requires |mac| <= 255
  {
    var chaddr := mac + Zeros(if |mac| <= 16 then 16 - |mac| else 0);
    var header := BootHeader(1, 1, |mac|, 0, xid, 0, 0x8000, 0, 0, 0, 0, chaddr, [], []);
    header.Pack() + COOKIE + ([TYPE_OPTION, 1, DISCOVER, PARAMETERS_OPTION, 1, 1] + [END])
  }

  // ----- Replies -----

  function ReplyOptions(kind: Byte, server: Addr, p: Prefix, lease: Addr): Bytes {
    [TYPE_OPTION, 1, kind, SERVER_OPTION, 4] + WordBytes(server)
    + (if kind != NAK then
         [LEASE_OPTION, 4] + WordBytes(lease) + ([MASK_OPTION, 4] + WordBytes(NetMask(p)))
         + ([ROUTER_OPTION, 4] + WordBytes(server))
       else [])
    + [END]
  }

  function ReplyHeader(r: Request, kind: Byte, server: Addr, client: Addr): BootHeader {
    BootHeader(2, r.htype, r.hlen, 0, r.xid, 0, r.flags,
               if kind == ACK then r.ciaddr else 0, if kind == OFFER || kind == ACK then client else 0,
               server, r.giaddr, r.chaddr, [], [])
  }

  function BuildReply(r: Request, kind: Byte, server: Addr, client: Addr, p: Prefix, lease: Addr): (reply: Bytes)
    ensures |reply| >= MINIMUM_REPLY
  {
    var reply := ReplyHeader(r, kind, server, client).Pack() + COOKIE + ReplyOptions(kind, server, p, lease);
    if |reply| < MINIMUM_REPLY then reply + Zeros(MINIMUM_REPLY - |reply|) else reply
  }

  function ReplyEntries(kind: Byte, server: Addr, p: Prefix, lease: Addr): seq<Entry> {
    [Opt(Item(TYPE_OPTION, [kind])), Opt(Item(SERVER_OPTION, WordBytes(server)))]
    + (if kind != NAK then
         [Opt(Item(LEASE_OPTION, WordBytes(lease))), Opt(Item(MASK_OPTION, WordBytes(NetMask(p)))),
          Opt(Item(ROUTER_OPTION, WordBytes(server)))]
       else [])
  }

  lemma EncodeOne(item: Item, entries: seq<Entry>)
    requires Opt(item).Valid() && AllValid(entries)
    ensures AllValid([Opt(item)] + entries)
    ensures EncodeAll([Opt(item)] + entries) == [item.tag, |item.value|] + item.value + EncodeAll(entries)
    ensures ItemsIn([Opt(item)] + entries) == [item] + ItemsIn(entries)
  {
    assert ([Opt(item)] + entries)[1..] == entries;
  }

  function GrantItems(server: Addr, p: Prefix, lease: Addr): (r: seq<Item>)
    ensures |r| == 3
  {
    [Item(LEASE_OPTION, WordBytes(lease)), Item(MASK_OPTION, WordBytes(NetMask(p))), Item(ROUTER_OPTION, WordBytes(server))]
  }

  /** The three address options of an OFFER or ACK. */
  lemma GrantEntries(server: Addr, p: Prefix, lease: Addr)
    ensures var entries := [Opt(Item(LEASE_OPTION, WordBytes(lease))), Opt(Item(MASK_OPTION, WordBytes(NetMask(p)))),
                            Opt(Item(ROUTER_OPTION, WordBytes(server)))];
      && AllValid(entries)
      && EncodeAll(entries) == [LEASE_OPTION, 4] + WordBytes(lease) + ([MASK_OPTION, 4] + WordBytes(NetMask(p)))
                               + ([ROUTER_OPTION, 4] + WordBytes(server))
      && ItemsIn(entries) == GrantItems(server, p, lease)
  {
    hide WordBytes, NetMask, EncodeAll, ItemsIn;
    var router, mask := Item(ROUTER_OPTION, WordBytes(server)), Item(MASK_OPTION, WordBytes(NetMask(p)));
    var grant := Item(LEASE_OPTION, WordBytes(lease));
    EncodeNothing();
    EncodeOne(router, []);
    assert [Opt(router)] + [] == [Opt(router)];
    EncodeOne(mask, [Opt(router)]);
    EncodeOne(grant, [Opt(mask), Opt(router)]);
    assert [Opt(mask)] + [Opt(router)] == [Opt(mask), Opt(router)];
    assert [Opt(grant)] + [Opt(mask), Opt(router)] == [Opt(grant), Opt(mask), Opt(router)];
  }

  /** All the options of a reply, as items. */
  function ReplyItems(kind: Byte, server: Addr, p: Prefix, lease: Addr): seq<Item> {
    [Item(TYPE_OPTION, [kind]), Item(SERVER_OPTION, WordBytes(server))]
    + (if kind != NAK then GrantItems(server, p, lease) else [])
  }

  lemma ReplyTagsDistinct(kind: Byte, server: Addr, p: Prefix, lease: Addr)
    ensures DistinctTags(ReplyItems(kind, server, p, lease))
  {
    hide WordBytes, NetMask;
  }

  lemma ReplyEncoded(kind: Byte, server: Addr, p: Prefix, lease: Addr)
    ensures var entries := ReplyEntries(kind, server, p, lease);
      && AllValid(entries) && ItemsIn(entries) == ReplyItems(kind, server, p, lease)
      && ReplyOptions(kind, server, p, lease) == EncodeAll(entries) + [END]
  {
    hide WordBytes, NetMask, EncodeAll, ItemsIn, GrantItems;
    if kind == NAK {
      EncodeNothing();
      TwoEncoded(kind, server, []);
      assert ReplyEntries(kind, server, p, lease)
        == [Opt(Item(TYPE_OPTION, [kind])), Opt(Item(SERVER_OPTION, WordBytes(server)))] + [];
    } else {
      GrantEntries(server, p, lease);
      TwoEncoded(kind, server, ReplyEntries(kind, server, p, lease)[2..]);
    }
  }

  /** The two options that every reply starts with. */
  lemma TwoEncoded(kind: Byte, server: Addr, grants: seq<Entry>)
    requires AllValid(grants)
    ensures var both := [Opt(Item(TYPE_OPTION, [kind])), Opt(Item(SERVER_OPTION, WordBytes(server)))];
      && AllValid(both + grants)
      && EncodeAll(both + grants) == [TYPE_OPTION, 1, kind] + ([SERVER_OPTION, 4] + WordBytes(server)) + EncodeAll(grants)
      && ItemsIn(both + grants) == [Item(TYPE_OPTION, [kind]), Item(SERVER_OPTION, WordBytes(server))] + ItemsIn(grants)
  {
    hide WordBytes, EncodeAll, ItemsIn;
    var first, named := Item(TYPE_OPTION, [kind]), Item(SERVER_OPTION, WordBytes(server));
    EncodeOne(named, grants);
    EncodeOne(first, [Opt(named)] + grants);
    assert [Opt(first), Opt(named)] + grants == [Opt(first)] + ([Opt(named)] + grants);
  }

  lemma ReplyIsMessage(r: Request, kind: Byte, server: Addr, client: Addr, p: Prefix, lease: Addr) returns (after: Bytes)
    ensures var entries := ReplyEntries(kind, server, p, lease);
      && AllValid(entries) && after != [] && after[0] == END
      && BuildReply(r, kind, server, client, p, lease) == Message(ReplyHeader(r, kind, server, client), entries, after)
      && ItemsIn(entries) == ReplyItems(kind, server, p, lease) && DistinctTags(ItemsIn(entries))
  {
    hide BootHeader.Pack, EncodeAll, ItemsIn, ReplyItems, ReplyEntries, ReplyOptions, DistinctTags, AllValid;
    ReplyEncoded(kind, server, p, lease);
    ReplyTagsDistinct(kind, server, p, lease);
    var plain := ReplyHeader(r, kind, server, client).Pack() + COOKIE + ReplyOptions(kind, server, p, lease);
    after := [END] + (if |plain| < MINIMUM_REPLY then Zeros(MINIMUM_REPLY - |plain|) else []);
  }

  lemma EncodeNothing()
    ensures EncodeAll([]) == [] && ItemsIn([]) == []
  {
  }

  /** The probe's own message is read back whole: transaction, MAC and both options. */
  lemma DiscoverIsParsed(xid: Addr, mac: Bytes)
    requires 1 <= |mac| <= 16
    ensures var r := ParsePacket(BuildDiscover(xid, mac));
      && r.Some? && r.value.xid == xid && r.value.mac == mac && r.value.hlen == |mac| && r.value.flags == 0x8000
      && r.value.options == map[TYPE_OPTION := [DISCOVER], PARAMETERS_OPTION := [1]]
  {
    hide Items, Unpack, BootHeader.Pack, EncodeAll, ItemsIn, LastWins;
    var chaddr := mac + Zeros(16 - |mac|);
    var h := BootHeader(1, 1, |mac|, 0, xid, 0, 0x8000, 0, 0, 0, 0, chaddr, [], []);
    var kind, parameters := Item(TYPE_OPTION, [DISCOVER]), Item(PARAMETERS_OPTION, [1]);
    EncodeNothing();
    EncodeOne(parameters, []);
    EncodeOne(kind, [Opt(parameters)] + []);
    var entries := [Opt(kind)] + ([Opt(parameters)] + []);
    MessageRead(h, entries, [END]);
    assert BuildDiscover(xid, mac) == Message(h, entries, [END]);
    assert ItemsIn(entries) == [kind, parameters];
    TwoOptions(kind, parameters);
  }

  lemma TwoOptions(a: Item, b: Item)
    ensures LastWins([a, b]) == map[a.tag := a.value][b.tag := b.value]
  {
    assert LastWins([a][..0]) == map[];
    assert LastWins([a]) == map[a.tag := a.value];
    assert [a, b][..1] == [a];
  }

  /** Who answered a probe. */
  datatype ServerIdentity = Named(server: Addr) | Unnamed

  function ForeignServer(data: Bytes, xid: Addr): Option<ServerIdentity> {
    if ParsePacket(data).Some? || !HasCookie(data) || data[0] != 2 || WordOf(data[4..8]) != xid then None
    else
      var options := LastWins(Items(data, OPTIONS_AT));
      if TYPE_OPTION !in options || options[TYPE_OPTION] == []
         || options[TYPE_OPTION][0] !in {OFFER, ACK, NAK} then None
      else if SERVER_OPTION in options && |options[SERVER_OPTION]| == 4 then Some(Named(WordOf(options[SERVER_OPTION])))
      else if WordOf(data[20..24]) != 0 then Some(Named(WordOf(data[20..24])))
      else Some(Unnamed)
  }

  /**
   * Any server's well-formed OFFER, ACK or NAK to the probe is noticed and named by its server
   * option; a well-formed reply to another transaction is not.
   */
  lemma WellFormedReplyIsNoticed(h: BootHeader, entries: seq<Entry>, after: Bytes, xid: Addr, i: nat)
    requires AllValid(entries) && (after == [] || after[0] == END) && h.op == 2 && DistinctTags(ItemsIn(entries))
    requires i < |ItemsIn(entries)| && ItemsIn(entries)[i].tag == TYPE_OPTION && ItemsIn(entries)[i].value != []
    requires ItemsIn(entries)[i].value[0] in {OFFER, ACK, NAK}
    ensures var found := ForeignServer(Message(h, entries, after), xid);
      && (found.Some? <==> h.xid == xid)
      && (found.Some? ==> forall j | 0 <= j < |ItemsIn(entries)| ::
            ItemsIn(entries)[j].tag == SERVER_OPTION && |ItemsIn(entries)[j].value| == 4
            ==> found == Some(Named(WordOf(ItemsIn(entries)[j].value))))
  {
    hide Items, ItemsIn, WordOf, LastWins, Message;
    MessageRead(h, entries, after);
    DistinctOptionsKept(ItemsIn(entries));
  }

  /**
   * Who is noticed, exactly: the sender of a reply to this transaction that is an OFFER, ACK or NAK, named by its
   * server option, or without one of four bytes by its server field, or by neither.
   */
  lemma ForeignServerExactly(h: BootHeader, entries: seq<Entry>, after: Bytes, xid: Addr)
    requires AllValid(entries) && (after == [] || after[0] == END)
    ensures var options := TableOf(entries);
      ForeignServer(Message(h, entries, after), xid) ==
      if !(h.op == 2 && h.xid == xid && 53 in options && options[53] != [] && options[53][0] in {2, 5, 6}) then None
      else if 54 in options && |options[54]| == 4 then Some(Named(WordOf(options[54])))
      else if h.siaddr != 0 then Some(Named(h.siaddr)) else Some(Unnamed)
  {
    hide Items, Message, ItemsIn, LastWins, WordOf, WordBytes;
    MessageRead(h, entries, after);
    RequestIsRead(h, entries, after);
    assert Unpack(Message(h, entries, after)).siaddr == h.siaddr;
  }

  /** The detector and the responder fit: every reply the responder can build names its server to a prober. */
  lemma OwnRepliesAreNoticed(r: Request, kind: Byte, server: Addr, client: Addr, p: Prefix, lease: Addr, xid: Addr)
    requires kind in {OFFER, ACK, NAK}
    ensures ForeignServer(BuildReply(r, kind, server, client, p, lease), xid)
            == if xid == r.xid then Some(Named(server)) else None
  {
    hide BuildReply, ForeignServer, Message, ItemsIn, WordOf, WordBytes, DistinctTags;
    var after := ReplyIsMessage(r, kind, server, client, p, lease);
    var entries := ReplyEntries(kind, server, p, lease);
    var items := ItemsIn(entries);
    assert items[0] == Item(TYPE_OPTION, [kind]) && items[1] == Item(SERVER_OPTION, WordBytes(server));
    WellFormedReplyIsNoticed(ReplyHeader(r, kind, server, client), entries, after, xid, 0);
    WordRoundTrip(server);
  }

  /** What a table says of one option. */
  predicate Says(options: map<Byte, Bytes>, tag: Byte, value: Bytes) { tag in options && options[tag] == value }

  /**
   * What a console reads in a reply: its own hardware address, transaction and relay, the leased address
   * exactly in OFFER and ACK, and this server as source, server and router with its mask and lease time;
   * a NAK grants nothing.
   */
  lemma ReplyIsRead(r: Request, kind: Byte, server: Addr, client: Addr, p: Prefix, lease: Addr)
    requires |r.chaddr| == 16
    ensures var data := BuildReply(r, kind, server, client, p, lease);
      && HasCookie(data) && ParsePacket(data).None?
      && Unpack(data) == BootHeader(2, r.htype, r.hlen, 0, r.xid, 0, r.flags, if kind == ACK then r.ciaddr else 0,
                                    if kind == OFFER || kind == ACK then client else 0, server, r.giaddr, r.chaddr,
                                    Zeros(64), Zeros(128))
      && Grants(LastWins(Items(data, OPTIONS_AT)), kind, server, p, lease)
  {
    hide Items, BuildReply, LastWins, Unpack, Message, ItemsIn, WordBytes, DistinctTags, Grants, Says;
    var after := ReplyIsMessage(r, kind, server, client, p, lease);
    var entries := ReplyEntries(kind, server, p, lease);
    MessageRead(ReplyHeader(r, kind, server, client), entries, after);
    ItemsGrant(ItemsIn(entries), kind, server, p, lease);
    assert Fixed([], 64) == Zeros(64) && Fixed([], 128) == Zeros(128);
  }

  predicate Grants(options: map<Byte, Bytes>, kind: Byte, server: Addr, p: Prefix, lease: Addr) {
    && Says(options, TYPE_OPTION, [kind]) && Says(options, SERVER_OPTION, WordBytes(server))
    && (kind != NAK ==>
          && Says(options, LEASE_OPTION, WordBytes(lease)) && Says(options, MASK_OPTION, WordBytes(NetMask(p)))
          && Says(options, ROUTER_OPTION, WordBytes(server)))
    && (kind == NAK ==> options.Keys == {TYPE_OPTION, SERVER_OPTION})
  }

  lemma ItemsGrant(items: seq<Item>, kind: Byte, server: Addr, p: Prefix, lease: Addr)
    requires items == ReplyItems(kind, server, p, lease)
    requires DistinctTags(items)
    ensures Grants(LastWins(items), kind, server, p, lease)
  {
    hide WordBytes, NetMask, LastWins;
    DistinctOptionsKept(items);
    assert items[0] == Item(TYPE_OPTION, [kind]) && items[1] == Item(SERVER_OPTION, WordBytes(server));
    if kind != NAK {
      assert items[2] == GrantItems(server, p, lease)[0] && items[3] == GrantItems(server, p, lease)[1]
             && items[4] == GrantItems(server, p, lease)[2];
    }
  }
}
