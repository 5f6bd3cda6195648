/**
 The RAM section of a migration stream (arch_init.c): how the sender lays out pages as bytes and
 how `ram_load` reads them back.
 */
module Wire {
  import opened Basics
  import opened Binary
  import opened Endian
  import Xbzrle

  type Page = p: seq<Byte> | |p| == PAGE_SIZE witness Filled(0)

  /** A page whose bytes are all `b`. */
  function Filled(b: Byte): (p: seq<Byte>)
    ensures |p| == PAGE_SIZE && forall k :: 0 <= k < |p| ==> p[k] == b
  {
    seq(PAGE_SIZE, _ => b)
  }

  const ZERO_PAGE: Page := Filled(0)

  /** A RAM block: its name, the page number of `block->offset`, and its length in pages. */
  datatype RamBlock = RamBlock(idstr: seq<Byte>, first: nat, pages: nat)

  /** 2^52: page numbers below it have 64-bit byte addresses. */
  const MAX_PAGES: nat := 0x10_0000_0000_0000

  /** What both sides know of a RAM list: named, non-empty, non-overlapping blocks. */
  ghost predicate ValidBlocks(blocks: seq<RamBlock>)
  {
    && |blocks| > 0
    && (forall b :: 0 <= b < |blocks| ==> ValidBlock(blocks[b]))
    && (forall b, c :: 0 <= b < |blocks| && 0 <= c < |blocks| && b != c ==> Apart(blocks[b], blocks[c]))
    && TotalPages(blocks) < MAX_PAGES
  }

  /** ram_bytes_total, in pages */
  function TotalPages(blocks: seq<RamBlock>): nat
  {
    if blocks == [] then 0 else blocks[0].pages + TotalPages(blocks[1..])
  }

  /** last_ram_offset, in pages */
  function RamEnd(blocks: seq<RamBlock>): (e: nat)
    ensures forall b :: 0 <= b < |blocks| ==> blocks[b].first + blocks[b].pages <= e
  {
    if blocks == [] then 0
    else
      var e := RamEnd(blocks[1..]);
      assert forall b :: 1 <= b < |blocks| ==> blocks[b] == blocks[1..][b - 1];
      Max(blocks[0].first + blocks[0].pages, e)
  }

  ghost predicate ValidBlock(b: RamBlock)
  {
    |b.idstr| < 256 && 0 !in b.idstr && 0 < b.pages && b.first + b.pages <= MAX_PAGES
  }

  ghost predicate Apart(b: RamBlock, c: RamBlock)
  {
    b.idstr != c.idstr && (b.first + b.pages <= c.first || c.first + c.pages <= b.first)
  }

  // ---------------------------------------------------------------- headers

  const COMPRESS: nat := 0x02
  const MEM_SIZE: nat := 0x04
  const PAGE: nat := 0x08
  const EOS: nat := 0x10
  const CONTINUE: nat := 0x20
  const XBZRLE: nat := 0x40

  /** `offset | cont | flag` */
  function HeaderWord(off: nat, cont: bool, flag: nat): nat
  {
    Or(Or(off * PAGE_SIZE, if cont then CONTINUE else 0), flag)
  }

  /** Flag bits live below the page offset: there `|` is `+`. */
  lemma FlagsDoNotCollide(off: nat, cont: bool, flag: nat)
    requires flag in {COMPRESS, MEM_SIZE, PAGE, EOS, XBZRLE}
    ensures HeaderWord(off, cont, flag) == off * PAGE_SIZE + (if cont then CONTINUE else 0) + flag
  {
    hide Or, Pow2, Shl;
    var c := if cont then CONTINUE else 0;
    PageBits();
    PageShift(off);
    OrLow(off, 0, c, 12);
    OrLow(off, c, flag, 12);
    FlagsApart(c, flag);
  }

  lemma FlagsApart(c: nat, flag: nat)
    requires c in {0, CONTINUE} && flag in {COMPRESS, MEM_SIZE, PAGE, EOS, XBZRLE}
    ensures Or(0, c) == c && Or(c, flag) == c + flag
  {
    hide Or;
    PageBits();
    assert Shl(0, 2) == 0 && Shl(0, 4) == 0 && Shl(1, 2) == 4 && Shl(1, 4) == 16;
    OrCommutes(0, c);
    OrZero(c);
    OrCommutes(0, flag);
    OrZero(flag);
    if flag < CONTINUE {
      OrLow(if c == 0 then 0 else 1, 0, flag, 5);
    } else {
      OrCommutes(c, flag);
      OrLow(1, 0, c, 6);
    }
  }

  lemma PageBits()
    ensures Pow2(12) == PAGE_SIZE && Pow2(5) == CONTINUE && Pow2(6) == XBZRLE
  {
    assert Pow2(4) == 16 && Pow2(8) == 256;
  }

  lemma PageShift(off: nat)
    ensures Shl(off, 12) == off * PAGE_SIZE
  {
    assert Shl(off, 1) == 2 * off;
    assert Shl(off, 2) == 4 * off;
    assert Shl(off, 4) == 16 * off;
    assert Shl(off, 6) == 64 * off;
    assert Shl(off, 8) == 256 * off;
    assert Shl(off, 10) == 1024 * off;
  }

  /** `addr & ~TARGET_PAGE_MASK` */
  function FlagsOf(word: nat): (flags: nat)
    ensures flags == word % PAGE_SIZE
  {
    PageBits();
    AndMask(word, 12);
    And(word, PAGE_SIZE - 1)
  }

  /** `flags & RAM_SAVE_FLAG_CONTINUE` */
  predicate Continued(flags: nat)
    ensures Continued(flags) <==> flags / CONTINUE % 2 == 1
  {
    PageBits();
    AndBit(flags, 5);
    And(flags, CONTINUE) != 0
  }

  /** save_block_hdr */
  function Header(block: RamBlock, off: nat, cont: bool, flag: nat): seq<Byte>
    requires |block.idstr| < 256
  {
    BigEndian(HeaderWord(off, cont, flag), 8) + if cont then [] else [|block.idstr|] + block.idstr
  }

  // ---------------------------------------------------------------- records

  /** What the sender says about a page. */
  datatype Payload = Zero | Full(data: Page) | Delta(enc: seq<Byte>)

  datatype Record = Record(block: nat, off: nat, cont: bool, payload: Payload)

  function Flag(p: Payload): nat
  {
    match p
    case Zero => COMPRESS
    case Full(_) => PAGE
    case Delta(_) => XBZRLE
  }

  /** The bytes after the header. */
  function Body(p: Payload): seq<Byte>
  {
    match p
    case Zero => [0]
    case Full(data) => data
    case Delta(enc) => [1] + BigEndian(|enc|, 2) + enc
  }

  ghost predicate ValidRecord(blocks: seq<RamBlock>, r: Record)
  {
    && r.block < |blocks| && r.off < blocks[r.block].pages
    && (r.payload.Delta? ==> |r.payload.enc| <= PAGE_SIZE)
  }

  function RecordBytes(blocks: seq<RamBlock>, r: Record): seq<Byte>
    requires r.block < |blocks| && |blocks[r.block].idstr| < 256
  {
    Header(blocks[r.block], r.off, r.cont, Flag(r.payload)) + Body(r.payload)
  }

  // ---------------------------------------------------------------- the receiver

  /** Destination RAM by page number, and the block remembered by host_from_stream_offset. */
  datatype Receiver = Receiver(ram: seq<Page>, block: Option<nat>)

  ghost predicate Fits(blocks: seq<RamBlock>, rx: Receiver)
  {
    && (forall b :: 0 <= b < |blocks| ==> blocks[b].first + blocks[b].pages <= |rx.ram|)
    && (rx.block.Some? ==> rx.block.value < |blocks|)
  }

  /** The new contents of a page, if the payload can be applied to the old ones. */
  function Patched(was: Page, p: Payload): (r: Option<Page>)
  {
    match p
    case Zero => Some(ZERO_PAGE)
    case Full(data) => Some(data)
    case Delta(enc) =>
      match Xbzrle.Decode(enc, 0, was, 0)
      case Some(s) => Some(s)
      case None => None
  }

  /** Applying a record to the destination. */
  function Apply(blocks: seq<RamBlock>, rx: Receiver, r: Record): Option<Receiver>
    requires r.block < |blocks| && blocks[r.block].first + r.off < |rx.ram|
  {
    var p := blocks[r.block].first + r.off;
    match Patched(rx.ram[p], r.payload)
    case Some(page) => Some(Receiver(rx.ram[p := page], Some(r.block)))
    case None => None
  }

  /** The C string in an id buffer. */
  function CString(s: seq<Byte>): seq<Byte>
  {
    if s == [] || s[0] == 0 then [] else [s[0]] + CString(s[1..])
  }

  lemma {:induction false} CStringWhole(s: seq<Byte>)
    requires 0 !in s
    ensures CString(s) == s
  {
    if s != [] {
      CStringWhole(s[1..]);
      assert s == [s[0]] + s[1..];
    }
  }

  /** The first block of that name at or after `k`. */
  function FindBlock(blocks: seq<RamBlock>, id: seq<Byte>, k: nat): (r: Option<nat>)
    requires k <= |blocks|
    ensures r.Some? ==> k <= r.value < |blocks| && blocks[r.value].idstr == id
    ensures r.None? ==> forall b :: k <= b < |blocks| ==> blocks[b].idstr != id
    decreases |blocks| - k
  {
    if k == |blocks| then None
    else if blocks[k].idstr == id then Some(k)
    else FindBlock(blocks, id, k + 1)
  }

  /** host_from_stream_offset: the block a header speaks about and where its body starts. */
  datatype Located = Located(block: Option<nat>, next: nat) | CutShort

  function Locate(blocks: seq<RamBlock>, bs: seq<Byte>, i: nat, cont: bool, block: Option<nat>): (r: Located)
    requires i <= |bs|
    ensures r.Located? ==> i <= r.next <= |bs|
    ensures r.Located? && r.block.Some? && !cont ==> r.block.value < |blocks|
  {
    if cont then Located(block, i)
    else if i == |bs| || i + 1 + bs[i] > |bs| then CutShort
    else Located(FindBlock(blocks, CString(bs[i + 1..i + 1 + bs[i]]), 0), i + 1 + bs[i])
  }

  datatype BodyRead = GoodBody(payload: Payload, next: nat) | BadBody

  /** The body of a page record; `flag` is one of COMPRESS, PAGE and XBZRLE. */
  function ReadBody(bs: seq<Byte>, i: nat, flag: nat): (r: BodyRead)
    requires i <= |bs|
    ensures r.GoodBody? ==> i <= r.next <= |bs|
  {
    if flag == COMPRESS then
      if i == |bs| then BadBody else GoodBody(if bs[i] == 0 then Zero else Full(Filled(bs[i])), i + 1)
    else if flag == PAGE then
      if i + PAGE_SIZE > |bs| then BadBody else GoodBody(Full(bs[i..i + PAGE_SIZE]), i + PAGE_SIZE)
    else if i + 3 > |bs| || bs[i] != 1 then BadBody
    else
      var len := FromBigEndian(bs[i + 1..i + 3]);
      if len > PAGE_SIZE || i + 3 + len > |bs| then BadBody
      else GoodBody(Delta(bs[i + 3..i + 3 + len]), i + 3 + len)
  }

  /**
   The block list of the setup section: every block is named with its length until `total` bytes
   are accounted for.  Returns where it ends, or None when a name or a length does not match.
   */
  function CheckBlocks(blocks: seq<RamBlock>, bs: seq<Byte>, i: nat, total: nat): (r: Option<nat>)
    requires i <= |bs|
    ensures r.Some? ==> i <= r.value <= |bs|
    decreases |bs| - i
  {
    if total == 0 then Some(i)
    else if i == |bs| || i + 1 + bs[i] + 8 > |bs| then None
    else
      var next := i + 1 + bs[i] + 8;
      var length := FromBigEndian(bs[next - 8..next]);
      var block := FindBlock(blocks, CString(bs[i + 1..next - 8]), 0);
      if block.None? || blocks[block.value].pages * PAGE_SIZE != length then None
      else CheckBlocks(blocks, bs, next, (total - length) % 0x1_0000_0000_0000_0000)
  }

  datatype Item = BadItem | EndItem(next: nat) | ListItem(next: nat) | PageItem(record: Record, next: nat)

  /**
   One turn of the loop of `ram_load`.  An unknown block, a CONTINUE header with no block before
   it and a malformed body all end the load with an error.
   */
  function ReadItem(blocks: seq<RamBlock>, bs: seq<Byte>, i: nat, block: Option<nat>): (r: Item)
    requires i <= |bs|
    ensures !r.BadItem? ==> i < r.next <= |bs|
    ensures r.PageItem? ==> r.record.block < |blocks| && r.record.off < blocks[r.record.block].pages
  {
    if i + 8 > |bs| then BadItem
    else
      var word := FromBigEndian(bs[i..i + 8]);
      var flags, off := FlagsOf(word), word / PAGE_SIZE;
      var cont := Continued(flags);
      var flag := if cont then flags - CONTINUE else flags;
      if flag == EOS then EndItem(i + 8)
      else if flag == MEM_SIZE then
        var next := CheckBlocks(blocks, bs, i + 8, off * PAGE_SIZE);
        if next.None? then BadItem else ListItem(next.value)
      else if flag != COMPRESS && flag != PAGE && flag != XBZRLE then BadItem
      else ReadPage(blocks, bs, i + 8, off, cont, flag, block)
  }

  function ReadPage(blocks: seq<RamBlock>, bs: seq<Byte>, i: nat, off: nat, cont: bool, flag: nat,
                    block: Option<nat>): (r: Item)
    requires i <= |bs|
    ensures r.BadItem? || (r.PageItem? && i <= r.next <= |bs|)
    ensures r.PageItem? ==> r.record.block < |blocks| && r.record.off < blocks[r.record.block].pages
  {
    var at := Locate(blocks, bs, i, cont, block);
    if at.CutShort? || at.block.None? || at.block.value >= |blocks| || off >= blocks[at.block.value].pages
    then BadItem
    else
      var body := ReadBody(bs, at.next, flag);
      if body.BadBody? then BadItem
      else PageItem(Record(at.block.value, off, cont, body.payload), body.next)
  }

  datatype Loaded = Failed | Loaded(rx: Receiver, next: nat)

  /** `ram_load` from byte `i` on: applies page records until the end of the section. */
  function Load(blocks: seq<RamBlock>, bs: seq<Byte>, i: nat, rx: Receiver): (r: Loaded)
    requires i <= |bs| && Fits(blocks, rx)
    ensures r.Loaded? ==> i < r.next <= |bs| && Fits(blocks, r.rx)
    decreases |bs| - i
  {
    match ReadItem(blocks, bs, i, rx.block)
    case BadItem => Failed
    case EndItem(next) => Loaded(rx, next)
    case ListItem(next) => Load(blocks, bs, next, rx)
    case PageItem(record, next) =>
      match Apply(blocks, rx, record)
      case None => Failed
      case Some(rx') => Load(blocks, bs, next, rx')
  }

  /** The whole incoming RAM stream, one `ram_load` per section. */
  function LoadStream(blocks: seq<RamBlock>, bs: seq<Byte>, i: nat, rx: Receiver): Option<Receiver>
    requires i <= |bs| && Fits(blocks, rx)
    decreases |bs| - i
  {
    if i == |bs| then Some(rx)
    else
      match Load(blocks, bs, i, rx)
      case Failed => None
      case Loaded(rx', next) => LoadStream(blocks, bs, next, rx')
  }

  /** `ram_load` as the loop it is. */
  method RamLoad(blocks: seq<RamBlock>, bs: seq<Byte>, start: nat, rx0: Receiver) returns (r: Loaded)
    requires start <= |bs| && Fits(blocks, rx0)
    ensures r == Load(blocks, bs, start, rx0)
  {
    var i, rx := start, rx0;
    while true
      invariant i <= |bs| && Fits(blocks, rx)
      invariant Load(blocks, bs, i, rx) == Load(blocks, bs, start, rx0)
      decreases |bs| - i
    {
      var item := ReadItem(blocks, bs, i, rx.block);
      match item {
        case BadItem => return Failed;
        case EndItem(next) => return Loaded(rx, next);
        case ListItem(next) => i := next;
        case PageItem(record, next) =>
          var applied := Apply(blocks, rx, record);
          if applied.None? { return Failed; }
          i, rx := next, applied.value;
      }
    }
  }

  // ---------------------------------------------------------------- reading back what was sent

  lemma HeaderWordParts(off: nat, cont: bool, flag: nat)
    requires flag in {COMPRESS, MEM_SIZE, PAGE, EOS, XBZRLE} && off < MAX_PAGES
    ensures var word := HeaderWord(off, cont, flag);
            && word < 0x1_0000_0000_0000_0000
            && word / PAGE_SIZE == off
            && word % PAGE_SIZE == (if cont then CONTINUE else 0) + flag
            && (word % PAGE_SIZE / CONTINUE % 2 == 1 <==> cont)
  {
    FlagsDoNotCollide(off, cont, flag);
    hide HeaderWord;
    var low := (if cont then CONTINUE else 0) + flag;
    assert low < PAGE_SIZE && HeaderWord(off, cont, flag) == off * PAGE_SIZE + low;
  }

  /** `part` is at `bs[i..]`. */
  ghost predicate At(bs: seq<Byte>, i: nat, part: seq<Byte>)
  {
    i + |part| <= |bs| && bs[i..i + |part|] == part
  }

  lemma AtSplit(bs: seq<Byte>, i: nat, a: seq<Byte>, b: seq<Byte>)
    requires At(bs, i, a + b)
    ensures At(bs, i, a) && At(bs, i + |a|, b)
  {
    var w := bs[i..i + |a + b|];
    assert bs[i..i + |a|] == w[..|a|] && bs[i + |a|..i + |a| + |b|] == w[|a|..];
  }

  /** A non-continued header names its block; a continued one relies on the remembered block. */
  lemma LocateBack(blocks: seq<RamBlock>, bs: seq<Byte>, i: nat, r: Record, block: Option<nat>)
    requires ValidBlocks(blocks) && ValidRecord(blocks, r)
    requires r.cont ==> block == Some(r.block)
    requires i <= |bs|
    requires !r.cont ==> At(bs, i, [|blocks[r.block].idstr|] + blocks[r.block].idstr)
    ensures Locate(blocks, bs, i, r.cont, block)
         == Located(Some(r.block), i + if r.cont then 0 else 1 + |blocks[r.block].idstr|)
  {
    if !r.cont {
      var id := blocks[r.block].idstr;
      AtSplit(bs, i, [|id|], id);
      assert bs[i] == bs[i..i + 1][0] == |id|;
      CStringWhole(id);
      assert bs[i + 1..i + 1 + bs[i]] == id;
      var found := FindBlock(blocks, id, 0);
      assert found.Some?;
    }
  }

  lemma ReadBodyBack(bs: seq<Byte>, i: nat, p: Payload)
    requires p.Delta? ==> |p.enc| <= PAGE_SIZE
    requires At(bs, i, Body(p))
    ensures ReadBody(bs, i, Flag(p)) == GoodBody(p, i + |Body(p)|)
  {
    match p
    case Zero =>
      assert bs[i] == bs[i..i + 1][0];
    case Full(_) =>
    case Delta(enc) =>
      Be16RoundTrip(|enc|);
      AtSplit(bs, i, [1] + BigEndian(|enc|, 2), enc);
      AtSplit(bs, i, [1], BigEndian(|enc|, 2));
      assert bs[i] == bs[i..i + 1][0];
  }

  lemma ReadPageBack(blocks: seq<RamBlock>, bs: seq<Byte>, i: nat, r: Record, block: Option<nat>)
    requires ValidBlocks(blocks) && ValidRecord(blocks, r)
    requires r.cont ==> block == Some(r.block)
    requires At(bs, i, (if r.cont then [] else [|blocks[r.block].idstr|] + blocks[r.block].idstr) + Body(r.payload))
    ensures ReadPage(blocks, bs, i, r.off, r.cont, Flag(r.payload), block)
         == PageItem(r, i + (if r.cont then 0 else 1 + |blocks[r.block].idstr|) + |Body(r.payload)|)
  {
    hide Locate, ReadBody, Body;
    var name := if r.cont then [] else [|blocks[r.block].idstr|] + blocks[r.block].idstr;
    AtSplit(bs, i, name, Body(r.payload));
    LocateBack(blocks, bs, i, r, block);
    ReadBodyBack(bs, i + |name|, r.payload);
  }

  /** The receiver resolves every record to the sender's block, offset and payload. */
  lemma ReadItemBack(blocks: seq<RamBlock>, bs: seq<Byte>, i: nat, r: Record, block: Option<nat>)
    requires ValidBlocks(blocks) && ValidRecord(blocks, r)
    requires r.cont ==> block == Some(r.block)
    requires At(bs, i, RecordBytes(blocks, r))
    ensures ReadItem(blocks, bs, i, block) == PageItem(r, i + |RecordBytes(blocks, r)|)
  {
    hide BigEndian, FromBigEndian, ReadPage, CheckBlocks, HeaderWord, FlagsOf, Continued, Body, ValidBlocks, At;
    OffsetFits(blocks, r);
    var b, flag := blocks[r.block], Flag(r.payload);
    var word := BigEndian(HeaderWord(r.off, r.cont, flag), 8);
    var name := if r.cont then [] else [|b.idstr|] + b.idstr;
    assert RecordBytes(blocks, r) == word + (name + Body(r.payload));
    AtSplit(bs, i, word, name + Body(r.payload));
    HeaderBack(bs, i, r.off, r.cont, flag);
    ReadPageBack(blocks, bs, i + 8, r, block);
  }

  lemma OffsetFits(blocks: seq<RamBlock>, r: Record)
    requires ValidBlocks(blocks) && ValidRecord(blocks, r)
    ensures r.off < MAX_PAGES && |blocks[r.block].idstr| < 256
  {
    assert ValidBlock(blocks[r.block]);
  }

  /** The header word is read back, and taken apart into page number and flags. */
  lemma HeaderBack(bs: seq<Byte>, i: nat, off: nat, cont: bool, flag: nat)
    requires flag in {COMPRESS, MEM_SIZE, PAGE, EOS, XBZRLE} && off < MAX_PAGES
    requires At(bs, i, BigEndian(HeaderWord(off, cont, flag), 8))
    ensures i + 8 <= |bs|
    ensures var word := FromBigEndian(bs[i..i + 8]);
            var flags := FlagsOf(word);
            word / PAGE_SIZE == off && (Continued(flags) <==> cont) && flags == (if cont then CONTINUE else 0) + flag
  {
    hide BigEndian, FromBigEndian, HeaderWord;
    HeaderWordParts(off, cont, flag);
    Be64RoundTrip(HeaderWord(off, cont, flag));
  }

  // ---------------------------------------------------------------- sections

  /** The receiver in state `rx` reads `r` as the sender meant it and can apply it. */
  ghost predicate Acceptable(blocks: seq<RamBlock>, rx: Receiver, r: Record)
    requires Fits(blocks, rx)
  {
    && ValidRecord(blocks, r)
    && (r.cont ==> rx.block == Some(r.block))
    && Apply(blocks, rx, r).Some?
  }

  /** The destination after some records; None as soon as one of them is not acceptable. */
  ghost function ApplyAll(blocks: seq<RamBlock>, rx: Receiver, rs: seq<Record>): (r: Option<Receiver>)
    requires Fits(blocks, rx)
    ensures r.Some? ==> Fits(blocks, r.value)
  {
    if rs == [] then Some(rx)
    else
      var rx' := ApplyAll(blocks, rx, rs[..|rs| - 1]);
      if rx'.None? || !Acceptable(blocks, rx'.value, rs[|rs| - 1]) then None
      else Apply(blocks, rx'.value, rs[|rs| - 1])
  }

  ghost function RecordsBytes(blocks: seq<RamBlock>, rs: seq<Record>): seq<Byte>
    requires ValidBlocks(blocks)
    requires forall k :: 0 <= k < |rs| ==> rs[k].block < |blocks|
  {
    if rs == [] then [] else RecordsBytes(blocks, rs[..|rs| - 1]) + RecordBytes(blocks, rs[|rs| - 1])
  }

  /** Sending one more record. */
  lemma RecordsAppend(blocks: seq<RamBlock>, base: Receiver, rs: seq<Record>, rx: Receiver, r: Record)
    requires ValidBlocks(blocks) && Fits(blocks, base) && Fits(blocks, rx) && NamesBlocks(blocks, rs)
    requires ApplyAll(blocks, base, rs) == Some(rx) && Acceptable(blocks, rx, r)
    ensures NamesBlocks(blocks, rs + [r]) && |blocks[r.block].idstr| < 256
    ensures ApplyAll(blocks, base, rs + [r]) == Apply(blocks, rx, r)
    ensures RecordsBytes(blocks, rs + [r]) == RecordsBytes(blocks, rs) + RecordBytes(blocks, r)
  {
    assert ValidBlock(blocks[r.block]);
    hide RecordBytes;
    hide Apply;
    assert (rs + [r])[..|rs + [r]| - 1] == rs;
  }

  /** Loading a run of acceptable records is applying them one after the other. */
  lemma {:induction false} LoadRecords(blocks: seq<RamBlock>, bs: seq<Byte>, i: nat, rx: Receiver, rs: seq<Record>)
    requires ValidBlocks(blocks) && Fits(blocks, rx) && ApplyAll(blocks, rx, rs).Some?
    requires forall k :: 0 <= k < |rs| ==> rs[k].block < |blocks|
    requires At(bs, i, RecordsBytes(blocks, rs))
    ensures Load(blocks, bs, i, rx)
         == Load(blocks, bs, i + |RecordsBytes(blocks, rs)|, ApplyAll(blocks, rx, rs).value)
  {
    hide *;
    RecordsCases(blocks, rx, rs);
    if rs != [] {
      var front, r := rs[..|rs| - 1], rs[|rs| - 1];
      var sent := RecordsBytes(blocks, front);
      AtSplit(bs, i, sent, RecordBytes(blocks, r));
      LoadRecords(blocks, bs, i, rx, front);
      LoadRecord(blocks, bs, i + |sent|, ApplyAll(blocks, rx, front).value, r);
    }
  }

  /** Unfolds the last of some acceptable records. */
  lemma RecordsCases(blocks: seq<RamBlock>, rx: Receiver, rs: seq<Record>)
    requires ValidBlocks(blocks) && Fits(blocks, rx) && ApplyAll(blocks, rx, rs).Some?
    requires forall k :: 0 <= k < |rs| ==> rs[k].block < |blocks|
    ensures rs == [] ==> ApplyAll(blocks, rx, rs) == Some(rx) && RecordsBytes(blocks, rs) == []
    ensures rs != [] ==>
              var front, r := rs[..|rs| - 1], rs[|rs| - 1];
              && |blocks[r.block].idstr| < 256
              && ApplyAll(blocks, rx, front).Some?
              && Acceptable(blocks, ApplyAll(blocks, rx, front).value, r)
              && ApplyAll(blocks, rx, rs) == Apply(blocks, ApplyAll(blocks, rx, front).value, r)
              && RecordsBytes(blocks, rs) == RecordsBytes(blocks, front) + RecordBytes(blocks, r)
  {
    hide Acceptable;
    hide Apply;
    hide RecordBytes;
  }

  lemma LoadRecord(blocks: seq<RamBlock>, bs: seq<Byte>, i: nat, rx: Receiver, r: Record)
    requires ValidBlocks(blocks) && Fits(blocks, rx) && Acceptable(blocks, rx, r)
    requires At(bs, i, RecordBytes(blocks, r))
    ensures Load(blocks, bs, i, rx)
         == Load(blocks, bs, i + |RecordBytes(blocks, r)|, Apply(blocks, rx, r).value)
  {
    hide Load;
    hide RecordBytes;
    hide ReadItem;
    hide Apply;
    ReadItemBack(blocks, bs, i, r, rx.block);
    LoadPage(blocks, bs, i, rx, r, i + |RecordBytes(blocks, r)|);
  }

  lemma LoadPage(blocks: seq<RamBlock>, bs: seq<Byte>, i: nat, rx: Receiver, r: Record, next: nat)
    requires i <= |bs| && Fits(blocks, rx) && ReadItem(blocks, bs, i, rx.block) == PageItem(r, next)
    requires Apply(blocks, rx, r).Some?
    ensures Load(blocks, bs, i, rx) == Load(blocks, bs, next, Apply(blocks, rx, r).value)
  {
    hide ReadItem;
    var rest := Load(blocks, bs, next, Apply(blocks, rx, r).value);
    assert Load(blocks, bs, i, rx) == rest;
  }

  const END: seq<Byte> := BigEndian(EOS, 8)

  lemma LoadEnd(blocks: seq<RamBlock>, bs: seq<Byte>, i: nat, rx: Receiver)
    requires Fits(blocks, rx) && At(bs, i, END)
    ensures Load(blocks, bs, i, rx) == Loaded(rx, i + 8)
  {
    HeaderWordParts(0, false, EOS);
    Be64RoundTrip(EOS);
  }

  // ---------------------------------------------------------------- the setup section

  function ListBytes(blocks: seq<RamBlock>): seq<Byte>
    requires forall b :: 0 <= b < |blocks| ==> |blocks[b].idstr| < 256
  {
    if blocks == [] then []
    else [|blocks[0].idstr|] + blocks[0].idstr + BigEndian(blocks[0].pages * PAGE_SIZE, 8) + ListBytes(blocks[1..])
  }

  /** What ram_save_setup sends: the total size, every block with its length, end of section. */
  function SetupBytes(blocks: seq<RamBlock>): seq<Byte>
    requires ValidBlocks(blocks)
  {
    BigEndian(HeaderWord(TotalPages(blocks), false, MEM_SIZE), 8) + ListBytes(blocks) + END
  }

  lemma {:induction false} CheckBlocksBack(blocks: seq<RamBlock>, k: nat, bs: seq<Byte>, i: nat)
    requires ValidBlocks(blocks) && k <= |blocks| && TotalPages(blocks[k..]) < MAX_PAGES
    requires At(bs, i, ListBytes(blocks[k..]))
    ensures CheckBlocks(blocks, bs, i, TotalPages(blocks[k..]) * PAGE_SIZE) == Some(i + |ListBytes(blocks[k..])|)
    decreases |blocks| - k
  {
    hide CheckBlocks;
    hide ListBytes;
    hide TotalPages;
    hide BigEndian;
    ListCases(blocks, k);
    if k == |blocks| {
      CheckNothing(blocks, bs, i);
    } else {
      var b := blocks[k];
      assert ValidBlock(b);
      var entry := [|b.idstr|] + b.idstr + BigEndian(b.pages * PAGE_SIZE, 8);
      AtSplit(bs, i, entry, ListBytes(blocks[k + 1..]));
      CheckBlock(blocks, k, bs, i, TotalPages(blocks[k..]) * PAGE_SIZE);
      CheckBlocksBack(blocks, k + 1, bs, i + |entry|);
    }
  }

  lemma ListCases(blocks: seq<RamBlock>, k: nat)
    requires ValidBlocks(blocks) && k <= |blocks|
    ensures k == |blocks| ==> ListBytes(blocks[k..]) == [] && TotalPages(blocks[k..]) == 0
    ensures k < |blocks| ==>
              && |blocks[k].idstr| < 256
              && ListBytes(blocks[k..]) == [|blocks[k].idstr|] + blocks[k].idstr
                   + BigEndian(blocks[k].pages * PAGE_SIZE, 8) + ListBytes(blocks[k + 1..])
              && TotalPages(blocks[k..]) == blocks[k].pages + TotalPages(blocks[k + 1..])
  {
    hide BigEndian;
    if k < |blocks| {
      assert ValidBlock(blocks[k]) && blocks[k..][0] == blocks[k] && blocks[k..][1..] == blocks[k + 1..];
    }
  }

  lemma CheckNothing(blocks: seq<RamBlock>, bs: seq<Byte>, i: nat)
    requires i <= |bs|
    ensures CheckBlocks(blocks, bs, i, 0) == Some(i)
  {
  }

  lemma CheckBlock(blocks: seq<RamBlock>, k: nat, bs: seq<Byte>, i: nat, total: nat)
    requires ValidBlocks(blocks) && k < |blocks|
    requires |blocks[k].idstr| < 256
    requires At(bs, i, [|blocks[k].idstr|] + blocks[k].idstr + BigEndian(blocks[k].pages * PAGE_SIZE, 8))
    requires blocks[k].pages * PAGE_SIZE <= total < MAX_PAGES * PAGE_SIZE
    ensures CheckBlocks(blocks, bs, i, total)
         == CheckBlocks(blocks, bs, i + 1 + |blocks[k].idstr| + 8, total - blocks[k].pages * PAGE_SIZE)
  {
    hide BigEndian;
    hide FromBigEndian;
    hide CString;
    hide FindBlock;
    EntryBack(blocks, k, bs, i);
    var rest := CheckBlocks(blocks, bs, i + 1 + |blocks[k].idstr| + 8, total - blocks[k].pages * PAGE_SIZE);
    assert CheckBlocks(blocks, bs, i, total) == rest;
  }

  lemma EntryBack(blocks: seq<RamBlock>, k: nat, bs: seq<Byte>, i: nat)
    requires ValidBlocks(blocks) && k < |blocks| && |blocks[k].idstr| < 256
    requires At(bs, i, [|blocks[k].idstr|] + blocks[k].idstr + BigEndian(blocks[k].pages * PAGE_SIZE, 8))
    ensures var next := i + 1 + |blocks[k].idstr| + 8;
            && next <= |bs| && bs[i] == |blocks[k].idstr|
            && FromBigEndian(bs[next - 8..next]) == blocks[k].pages * PAGE_SIZE
            && FindBlock(blocks, CString(bs[i + 1..next - 8]), 0) == Some(k)
  {
    hide BigEndian;
    hide FromBigEndian;
    hide CString;
    var b := blocks[k];
    assert ValidBlock(b);
    AtSplit(bs, i, [|b.idstr|] + b.idstr, BigEndian(b.pages * PAGE_SIZE, 8));
    AtSplit(bs, i, [|b.idstr|], b.idstr);
    assert bs[i] == bs[i..i + 1][0] == |b.idstr|;
    CStringWhole(b.idstr);
    Be64RoundTrip(b.pages * PAGE_SIZE);
    assert FindBlock(blocks, b.idstr, 0) == Some(k);
  }

  /** A receiver with the same RAM list accepts the setup section. */
  lemma LoadSetup(blocks: seq<RamBlock>, bs: seq<Byte>, i: nat, rx: Receiver)
    requires ValidBlocks(blocks) && Fits(blocks, rx) && At(bs, i, SetupBytes(blocks))
    ensures Load(blocks, bs, i, rx) == Loaded(rx, i + |SetupBytes(blocks)|)
  {
    hide *;
    SetupParts(blocks);
    var word := BigEndian(HeaderWord(TotalPages(blocks), false, MEM_SIZE), 8);
    var list := ListBytes(blocks);
    AtSplit(bs, i, word + list, END);
    AtSplit(bs, i, word, list);
    CheckBlocksBack(blocks, 0, bs, i + 8);
    ReadList(blocks, bs, i, TotalPages(blocks), rx.block, i + 8 + |list|);
    LoadList(blocks, bs, i, rx, i + 8 + |list|);
    LoadEnd(blocks, bs, i + 8 + |list|, rx);
  }

  lemma SetupParts(blocks: seq<RamBlock>)
    requires ValidBlocks(blocks)
    ensures |END| == 8 && blocks[0..] == blocks && TotalPages(blocks) < MAX_PAGES
    ensures forall b :: 0 <= b < |blocks| ==> |blocks[b].idstr| < 256
    ensures SetupBytes(blocks)
         == BigEndian(HeaderWord(TotalPages(blocks), false, MEM_SIZE), 8) + ListBytes(blocks) + END
  {
    hide ListBytes;
    hide BigEndian;
  }

  lemma ReadList(blocks: seq<RamBlock>, bs: seq<Byte>, i: nat, total: nat, block: Option<nat>, next: nat)
    requires total < MAX_PAGES && At(bs, i, BigEndian(HeaderWord(total, false, MEM_SIZE), 8))
    requires CheckBlocks(blocks, bs, i + 8, total * PAGE_SIZE) == Some(next)
    ensures ReadItem(blocks, bs, i, block) == ListItem(next)
  {
    HeaderWordParts(total, false, MEM_SIZE);
    Be64RoundTrip(HeaderWord(total, false, MEM_SIZE));
    hide CheckBlocks;
    hide BigEndian;
    hide FromBigEndian;
  }

  lemma LoadList(blocks: seq<RamBlock>, bs: seq<Byte>, i: nat, rx: Receiver, next: nat)
    requires i <= |bs| && Fits(blocks, rx) && ReadItem(blocks, bs, i, rx.block) == ListItem(next)
    ensures Load(blocks, bs, i, rx) == Load(blocks, bs, next, rx)
  {
    hide ReadItem;
    var rest := Load(blocks, bs, next, rx);
    assert Load(blocks, bs, i, rx) == rest;
  }

  // ---------------------------------------------------------------- whole streams

  /** The destination after whole sections. */
  ghost function ApplySections(blocks: seq<RamBlock>, rx: Receiver, sections: seq<seq<Record>>): (r: Option<Receiver>)
    requires Fits(blocks, rx)
    ensures r.Some? ==> Fits(blocks, r.value)
  {
    if sections == [] then Some(rx)
    else
      var rx' := ApplySections(blocks, rx, sections[..|sections| - 1]);
      if rx'.None? then None else ApplyAll(blocks, rx'.value, sections[|sections| - 1])
  }

  ghost predicate NamesBlocks(blocks: seq<RamBlock>, rs: seq<Record>)
  {
    forall k :: 0 <= k < |rs| ==> rs[k].block < |blocks|
  }

  /** The stream made of the setup section and then `sections`. */
  ghost function StreamBytes(blocks: seq<RamBlock>, sections: seq<seq<Record>>): seq<Byte>
    requires ValidBlocks(blocks)
    requires forall k :: 0 <= k < |sections| ==> NamesBlocks(blocks, sections[k])
  {
    if sections == [] then SetupBytes(blocks)
    else
      assert NamesBlocks(blocks, sections[|sections| - 1]);
      StreamBytes(blocks, sections[..|sections| - 1]) + (RecordsBytes(blocks, sections[|sections| - 1]) + END)
  }

  /** Closing the section being written. */
  lemma SectionsAppend(blocks: seq<RamBlock>, rx: Receiver, sections: seq<seq<Record>>, open: seq<Record>)
    requires ValidBlocks(blocks) && Fits(blocks, rx)
    requires forall k :: 0 <= k < |sections| ==> NamesBlocks(blocks, sections[k])
    requires NamesBlocks(blocks, open) && ApplySections(blocks, rx, sections).Some?
    ensures forall k :: 0 <= k <= |sections| ==> NamesBlocks(blocks, (sections + [open])[k])
    ensures ApplySections(blocks, rx, sections + [open])
         == ApplyAll(blocks, ApplySections(blocks, rx, sections).value, open)
    ensures StreamBytes(blocks, sections + [open])
         == StreamBytes(blocks, sections) + (RecordsBytes(blocks, open) + END)
  {
    hide ApplyAll;
    hide RecordsBytes;
    assert (sections + [open])[..|sections + [open]| - 1] == sections;
  }

  /** A stream whose records were all acceptable when sent loads to exactly their effect. */
  lemma StreamRoundTrip(blocks: seq<RamBlock>, rx: Receiver, sections: seq<seq<Record>>)
    requires ValidBlocks(blocks) && Fits(blocks, rx)
    requires forall k :: 0 <= k < |sections| ==> NamesBlocks(blocks, sections[k])
    requires ApplySections(blocks, rx, sections).Some?
    ensures LoadStream(blocks, StreamBytes(blocks, sections), 0, rx) == ApplySections(blocks, rx, sections)
  {
    var bs := StreamBytes(blocks, sections);
    assert At(bs, 0, bs);
    LoadStreamFrom(blocks, bs, rx, sections);
  }

  lemma {:induction false} LoadStreamFrom(blocks: seq<RamBlock>, bs: seq<Byte>, rx: Receiver, sections: seq<seq<Record>>)
    requires ValidBlocks(blocks) && Fits(blocks, rx)
    requires forall k :: 0 <= k < |sections| ==> NamesBlocks(blocks, sections[k])
    requires ApplySections(blocks, rx, sections).Some?
    requires At(bs, 0, StreamBytes(blocks, sections))
    ensures LoadStream(blocks, bs, 0, rx)
         == LoadStream(blocks, bs, |StreamBytes(blocks, sections)|, ApplySections(blocks, rx, sections).value)
  {
    hide *;
    StreamCases(blocks, rx, sections);
    if sections == [] {
      LoadSetup(blocks, bs, 0, rx);
      LoadStreamSection(blocks, bs, 0, rx, |SetupBytes(blocks)|, rx);
    } else {
      var front, last := sections[..|sections| - 1], sections[|sections| - 1];
      var rx' := ApplySections(blocks, rx, front).value;
      var done := ApplyAll(blocks, rx', last).value;
      var before, recs := StreamBytes(blocks, front), RecordsBytes(blocks, last);
      AtSplit(bs, 0, before, recs + END);
      AtSplit(bs, |before|, recs, END);
      LoadStreamFrom(blocks, bs, rx, front);
      LoadRecords(blocks, bs, |before|, rx', last);
      LoadEnd(blocks, bs, |before| + |recs|, done);
      LoadStreamSection(blocks, bs, |before|, rx', |before| + |recs| + 8, done);
    }
  }

  /** Unfolds the last section of a stream. */
  lemma StreamCases(blocks: seq<RamBlock>, rx: Receiver, sections: seq<seq<Record>>)
    requires ValidBlocks(blocks) && Fits(blocks, rx)
    requires forall k :: 0 <= k < |sections| ==> NamesBlocks(blocks, sections[k])
    requires ApplySections(blocks, rx, sections).Some?
    ensures |END| == 8
    ensures sections == [] ==>
              ApplySections(blocks, rx, sections) == Some(rx) &&
              StreamBytes(blocks, sections) == SetupBytes(blocks) && |SetupBytes(blocks)| > 0
    ensures sections != [] ==>
              var front, last := sections[..|sections| - 1], sections[|sections| - 1];
              && ApplySections(blocks, rx, front).Some?
              && ApplySections(blocks, rx, sections) == ApplyAll(blocks, ApplySections(blocks, rx, front).value, last)
              && (forall k :: 0 <= k < |last| ==> last[k].block < |blocks|)
              && StreamBytes(blocks, sections) == StreamBytes(blocks, front) + (RecordsBytes(blocks, last) + END)
  {
    hide ApplyAll;
    hide RecordsBytes;
    hide ListBytes;
    hide BigEndian;
    if sections != [] {
      assert NamesBlocks(blocks, sections[|sections| - 1]);
    }
  }

  lemma LoadStreamSection(blocks: seq<RamBlock>, bs: seq<Byte>, i: nat, rx: Receiver, next: nat, rx': Receiver)
    requires i < |bs| && Fits(blocks, rx) && Load(blocks, bs, i, rx) == Loaded(rx', next)
    ensures next <= |bs| && Fits(blocks, rx')
    ensures LoadStream(blocks, bs, i, rx) == LoadStream(blocks, bs, next, rx')
  {
    hide Load;
    var rest := LoadStream(blocks, bs, next, rx');
    assert LoadStream(blocks, bs, i, rx) == rest;
  }
}
