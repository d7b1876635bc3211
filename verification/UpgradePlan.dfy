/** The block plan of a firmware upgrade, the device's flash, and what a transfer log means for it. */
module UpgradePlan {
  import opened Words
  import opened Crc32
  import opened Text

  const BLOCK: nat := 0x10000

  /** A stretch of the upgrade file, to be written at the same address of the flash. */
  datatype Section = Section(start: int, length: int)

  /** The adjustment for one fixed old start address. */
  function Adjust(s: Section): Section {
    if s.start == 0x49030 then Section(0x49000, s.length + 0x30) else s
  }

  predicate In(s: Section, a: int) {
    s.start <= a < s.start + s.length
  }

  /** The addresses a listed section stands for: its own, and for the one at 0x49030 the 0x30 below it too. */
  predicate StandsFor(s: Section, a: int) {
    if s.start == 0x49030 then 0x49000 <= a < s.start + s.length else In(s, a)
  }

  lemma AdjustCovers(s: Section, a: int)
    ensures In(Adjust(s), a) <==> StandsFor(s, a)
  {}

  /** Adjusting adds at most the 0x30 addresses below 0x49030, and takes none away. */
  lemma AdjustAddsLittle(s: Section, a: int)
    ensures In(s, a) ==> StandsFor(s, a)
    ensures StandsFor(s, a) ==> In(s, a) || (s.start == 0x49030 && 0x49000 <= a < 0x49030)
    ensures s.length >= 0 && s.start == 0x49030 && 0x49000 <= a < 0x49030 ==> StandsFor(s, a)
  {}

  predicate InsideFile(s: Section, size: nat) {
    s.length > 0 ==> 0 <= s.start && s.start + s.length <= size
  }

  /** The addresses a section stands for end inside the file. The program never checks this; reading the
      file elsewhere is undefined. */
  predicate FitsFile(s: Section, size: nat) {
    if s.start == 0x49030 then s.start + s.length > 0x49000 ==> s.start + s.length <= size
    else InsideFile(s, size)
  }

  predicate AllInside(parts: seq<Section>, size: nat) {
    forall i :: 0 <= i < |parts| ==> FitsFile(parts[i], size)
  }

  datatype Block = Block(start: int, count: nat)

  function BlockSize(left: nat): nat {
    if BLOCK <= left then BLOCK else left
  }

  /** The blocks of one stretch, in order. */
  function Split(start: int, length: int): seq<Block>
    decreases if length > 0 then length else 0
  {
    if length <= 0 then []
    else
      var n := BlockSize(length);
      [Block(start, n)] + Split(start + n, length - n)
  }

  /** The blocks of all sections, adjusted, in order. */
  function Plan(parts: seq<Section>): seq<Block> {
    if parts == [] then []
    else Split(Adjust(parts[0]).start, Adjust(parts[0]).length) + Plan(parts[1..])
  }

  // ---------------------------------------------------------------- laws of the plan

  predicate Holds(b: Block, a: int) {
    b.start <= a < b.start + b.count
  }

  ghost predicate Covered(blocks: seq<Block>, a: int) {
    exists i :: 0 <= i < |blocks| && Holds(blocks[i], a)
  }

  /** The blocks of a stretch lie end to end, all but the last 0x10000 bytes long, and cover exactly the
      stretch. */
  lemma {:induction false} SplitTiles(start: int, length: nat)
    ensures var bs := Split(start, length);
            && (forall i :: 0 <= i < |bs| ==> 0 < bs[i].count <= 0x10000)
            && (forall i :: 0 <= i < |bs| - 1 ==> bs[i].count == 0x10000)
            && (length > 0 ==> |bs| > 0 && bs[0].start == start
                               && bs[|bs| - 1].start + bs[|bs| - 1].count == start + length)
            && (forall i :: 0 <= i < |bs| - 1 ==> bs[i].start + bs[i].count == bs[i + 1].start)
            && (forall i :: 0 <= i < |bs| ==> start <= bs[i].start && bs[i].start + bs[i].count <= start + length)
    decreases length
  {
    if length > 0 {
      var n := BlockSize(length);
      SplitTiles(start + n, length - n);
    }
  }

  lemma {:induction false} SplitCovers(start: int, length: nat, a: int)
    ensures Covered(Split(start, length), a) <==> start <= a < start + length
    decreases length
  {
    if length > 0 {
      var n := BlockSize(length);
      SplitCovers(start + n, length - n, a);
      CoveredConcat([Block(start, n)], Split(start + n, length - n), a);
      assert [Block(start, n)][0] == Block(start, n);
      assert Covered([Block(start, n)], a) <==> Holds(Block(start, n), a);
    }
  }

  lemma CoveredConcat(p: seq<Block>, q: seq<Block>, a: int)
    ensures Covered(p + q, a) <==> Covered(p, a) || Covered(q, a)
  {
    if Covered(p, a) {
      var i :| 0 <= i < |p| && Holds(p[i], a);
      assert (p + q)[i] == p[i];
    }
    if Covered(q, a) {
      var i :| 0 <= i < |q| && Holds(q[i], a);
      assert (p + q)[|p| + i] == q[i];
    }
  }

  ghost predicate OnPlan(parts: seq<Section>, a: int) {
    exists i :: 0 <= i < |parts| && StandsFor(parts[i], a)
  }

  ghost predicate Listed(parts: seq<Section>, a: int) {
    exists i :: 0 <= i < |parts| && In(parts[i], a)
  }

  /** What is on the plan is listed, or lies in the 0x30 addresses below a section listed at 0x49030. */
  lemma OnPlanIsListed(parts: seq<Section>, a: int)
    ensures Listed(parts, a) ==> OnPlan(parts, a)
    ensures OnPlan(parts, a) ==> Listed(parts, a) || 0x49000 <= a < 0x49030
    ensures OnPlan(parts, a) && !Listed(parts, a) ==> exists i :: 0 <= i < |parts| && parts[i].start == 0x49030
  {
    if i :| 0 <= i < |parts| && In(parts[i], a) {
      assert StandsFor(parts[i], a);
    }
    if i :| 0 <= i < |parts| && StandsFor(parts[i], a) {
      AdjustAddsLittle(parts[i], a);
    }
  }

  /** The plan covers exactly what the listed sections stand for. */
  lemma {:induction false} PlanCovers(parts: seq<Section>, a: int)
    ensures Covered(Plan(parts), a) <==> OnPlan(parts, a)
  {
    if parts != [] {
      var s := Adjust(parts[0]);
      PlanCovers(parts[1..], a);
      AdjustCovers(parts[0], a);
      CoveredConcat(Split(s.start, s.length), Plan(parts[1..]), a);
      if s.length > 0 {
        SplitCovers(s.start, s.length, a);
      }
      if i :| 0 <= i < |parts| && StandsFor(parts[i], a) {
        assert i == 0 || parts[i] == parts[1..][i - 1];
      }
      if i :| 0 <= i < |parts[1..]| && StandsFor(parts[1..][i], a) {
        assert parts[i + 1] == parts[1..][i];
      }
    }
  }

  lemma {:induction false} PlanConcat(p: seq<Section>, q: seq<Section>)
    ensures Plan(p + q) == Plan(p) + Plan(q)
  {
    if p == [] {
      assert p + q == q;
    } else {
      assert (p + q)[1..] == p[1..] + q;
      PlanConcat(p[1..], q);
    }
  }

  // ---------------------------------------------------------------- what goes over the line

  /** upgrade 0x%x 0x%x\n */
  function CommandText(start: nat, count: nat): string {
    "upgrade 0x" + HexText(start) + " 0x" + HexText(count) + "\n"
  }

  lemma CommandExample()
    ensures CommandText(0xabc, 0xdef) == "upgrade 0xabc 0xdef\n"
  {
    hide HexText;
    ThreeDigits(0xa, 0xb, 0xc);
    ThreeDigits(0xd, 0xe, 0xf);
    assert [HexDigit(0xa), HexDigit(0xb), HexDigit(0xc)] == "abc";
    assert [HexDigit(0xd), HexDigit(0xe), HexDigit(0xf)] == "def";
  }

  /** How a reader of the command gets start and count back. */
  function ParseCommand(s: string): (nat, nat) {
    if |s| < 10 then (0, 0)
    else
      var first := ReadHex(s[10..], 0);
      if |first.1| < 3 then (0, 0)
      else (first.0, ReadHex(first.1[3..], 0).0)
  }

  lemma CommandIsReadable(start: nat, count: nat)
    ensures ParseCommand(CommandText(start, count)) == (start, count)
  {
    hide HexText;
    var s := CommandText(start, count);
    var tail := " 0x" + HexText(count) + "\n";
    assert s[10..] == HexText(start) + tail;
    ReadHexText(start);
    ReadHexStops(HexText(start), tail, 0);
    assert tail[3..] == HexText(count) + "\n";
    ReadHexText(count);
    ReadHexStops(HexText(count), "\n", 0);
  }

  /** Command, data, checksum of the data. */
  function Packet(file: seq<byte>, b: Block): seq<byte>
    requires 0 <= b.start && b.start + b.count <= |file|
  {
    var data := file[b.start..b.start + b.count];
    Ascii(CommandText(b.start, b.count)) + data + Le32(Crc(0, data))
  }

  // ---------------------------------------------------------------- the transfer log

  /** One block as the transfer went: how often it was sent in full, whether the device wrote it at
      least once, whether it was acknowledged, and whether a send failed on one more attempt. */
  datatype Entry = Entry(block: Block, tries: nat, written: bool, acked: bool, torn: bool)

  /** The attempts made at one block. */
  function Attempts(e: Entry): nat { e.tries + if e.torn then 1 else 0 }

  /** The attempts made in all. */
  function Made(log: seq<Entry>): nat {
    if log == [] then 0 else Made(log[..|log| - 1]) + Attempts(log[|log| - 1])
  }

  function Blocks(log: seq<Entry>): seq<Block> {
    seq(|log|, i requires 0 <= i < |log| => log[i].block)
  }

  predicate InFile(log: seq<Entry>, size: nat) {
    forall i :: 0 <= i < |log| ==> 0 <= log[i].block.start && log[i].block.start + log[i].block.count <= size
  }

  /** Everything sent in full, in order. */
  function Sent(file: seq<byte>, log: seq<Entry>): seq<byte>
    requires InFile(log, |file|)
  {
    if log == [] then []
    else
      var e := log[|log| - 1];
      Sent(file, log[..|log| - 1]) + Repeat(Packet(file, e.block), e.tries)
  }

  function Repeat(s: seq<byte>, n: nat): seq<byte> {
    if n == 0 then [] else Repeat(s, n - 1) + s
  }

  /** The device writes the data it was sent at the address it was told. */
  function Write(flash: seq<byte>, file: seq<byte>, b: Block): seq<byte>
    requires 0 <= b.start && b.start + b.count <= |file| <= |flash|
  {
    flash[..b.start] + file[b.start..b.start + b.count] + flash[b.start + b.count..]
  }

  /** The flash behind a log: written blocks replaced by the file's bytes. */
  function Flashed(flash: seq<byte>, file: seq<byte>, log: seq<Entry>): (r: seq<byte>)
    requires |file| <= |flash| && InFile(log, |file|)
    ensures |r| == |flash|
  {
    if log == [] then flash
    else
      var e := log[|log| - 1];
      var before := Flashed(flash, file, log[..|log| - 1]);
      if e.written then Write(before, file, e.block) else before
  }

  /** Every block but perhaps the last is acknowledged after at most four attempts; an acknowledged block
      has been written. */
  predicate Disciplined(log: seq<Entry>) {
    forall i :: 0 <= i < |log| ==>
      && Attempts(log[i]) <= 4
      && (i < |log| - 1 ==> log[i].acked)
      && (log[i].acked ==> log[i].written && log[i].tries > 0 && !log[i].torn)
  }

  ghost predicate WrittenAt(log: seq<Entry>, a: int) {
    exists i :: 0 <= i < |log| && log[i].written && Holds(log[i].block, a)
  }

  /** Whatever was written, and however often: each address holds the file's byte where some block
      over it was written, and its old byte elsewhere. */
  lemma {:induction false} FlashContents(flash: seq<byte>, file: seq<byte>, log: seq<Entry>, a: nat)
    requires |file| <= |flash| && InFile(log, |file|) && a < |flash|
    ensures WrittenAt(log, a) ==> a < |file|
    ensures Flashed(flash, file, log)[a] == if WrittenAt(log, a) then file[a] else flash[a]
    decreases |log|
  {
    if log != [] {
      var n := |log| - 1;
      var init := log[..n];
      hide WrittenAt;
      FlashContents(flash, file, init, a);
      WrittenLast(log, a);
    }
  }

  lemma WrittenLast(log: seq<Entry>, a: nat)
    requires log != []
    ensures var e := log[|log| - 1];
            WrittenAt(log, a) <==> WrittenAt(log[..|log| - 1], a) || (e.written && Holds(e.block, a))
  {
    var n := |log| - 1;
    var init := log[..n];
    if i :| 0 <= i < |log| && log[i].written && Holds(log[i].block, a) {
      assert i == n || init[i] == log[i];
    }
    if i :| 0 <= i < n && init[i].written && Holds(init[i].block, a) {
      assert log[i] == init[i];
    }
  }

  /** A log that covers the whole plan with every block acknowledged. */
  predicate Complete(parts: seq<Section>, log: seq<Entry>) {
    Blocks(log) == Plan(parts) && forall i :: 0 <= i < |log| ==> log[i].acked
  }

  /** The flash after a successful upgrade: the file's byte at every address a listed section stands for,
      the old byte everywhere else. */
  ghost predicate Installed(before: seq<byte>, after: seq<byte>, file: seq<byte>, parts: seq<Section>) {
    && |after| == |before|
    && forall a :: 0 <= a < |after| ==>
         if OnPlan(parts, a) then a < |file| && after[a] == file[a] else after[a] == before[a]
  }

  /** The flash after any transfer: only addresses on the plan may have changed, and only to the file's byte. */
  ghost predicate Harmless(before: seq<byte>, after: seq<byte>, file: seq<byte>, parts: seq<Section>) {
    && |after| == |before|
    && forall a :: 0 <= a < |after| && after[a] != before[a] ==>
                     a < |file| && after[a] == file[a] && OnPlan(parts, a)
  }

  /** The refinement theorem: a complete transfer leaves the flash equal to the file on every section, as
      listed and as adjusted, and untouched outside the listed sections but for the 0x30 bytes below 0x49030,
      where it is equal to the file if a section is listed there. */
  lemma CompleteTransferInstallsFile(flash: seq<byte>, file: seq<byte>, parts: seq<Section>, log: seq<Entry>, a: nat)
    requires |file| <= |flash| && InFile(log, |file|) && a < |flash|
    requires Disciplined(log) && Complete(parts, log)
    ensures var after := Flashed(flash, file, log)[a];
            && (if OnPlan(parts, a) then a < |file| && after == file[a] else after == flash[a])
            && (Listed(parts, a) ==> a < |file| && after == file[a])
            && (!Listed(parts, a) && !(0x49000 <= a < 0x49030) ==> after == flash[a])
  {
    PlanCovers(parts, a);
    OnPlanIsListed(parts, a);
    FlashContents(flash, file, log, a);
    var bs := Blocks(log);
    assert WrittenAt(log, a) <==> Covered(bs, a) by {
      if i :| 0 <= i < |log| && log[i].written && Holds(log[i].block, a) {
        assert Holds(bs[i], a);
      }
      if i :| 0 <= i < |bs| && Holds(bs[i], a) {
        assert log[i].acked && log[i].written && Holds(log[i].block, a);
      }
    }
  }

  /** Even a transfer cut short has only ever put file bytes at their own addresses inside the plan. */
  lemma PartialTransferIsHarmless(flash: seq<byte>, file: seq<byte>, parts: seq<Section>, log: seq<Entry>, a: nat)
    requires |file| <= |flash| && InFile(log, |file|) && a < |flash|
    requires Blocks(log) <= Plan(parts)
    ensures var after := Flashed(flash, file, log)[a];
            after != flash[a] ==>
              a < |file| && after == file[a] && OnPlan(parts, a) && (Listed(parts, a) || 0x49000 <= a < 0x49030)
  {
    PlanCovers(parts, a);
    OnPlanIsListed(parts, a);
    FlashContents(flash, file, log, a);
    if i :| 0 <= i < |log| && log[i].written && Holds(log[i].block, a) {
      assert Blocks(log)[i] == Plan(parts)[i];
      assert Covered(Plan(parts), a);
    }
  }
}
