/**
  On-disk write-ahead-log entries and what their checksum protects.
 */
module Wal {
  import opened Basics
  import opened Bits
  import opened Crc32c
  import opened CrcBursts

  const CHECKED_BYTES: nat := 56

  datatype WalEntry = WalEntry(
    sequenceNumber: nat,
    blockId: seq<Byte>,
    dataOffset: nat,
    dataSize: nat,
    committed: Byte,
    pad: seq<Byte>,
    checksum: nat)
  {
    predicate WellFormed() {
      && sequenceNumber < 0x1_0000_0000_0000_0000 && dataOffset < 0x1_0000_0000_0000_0000
      && dataSize < 0x1_0000_0000 && checksum < 0x1_0000_0000
      && |blockId| == 32 && |pad| == 3
    }

    /** The bytes in memory before the checksum field, integers little-endian. */
    function CheckedBytes(): (bytes: seq<Byte>)
      requires WellFormed()
      ensures |bytes| == CHECKED_BYTES
    {
      LittleEndian(sequenceNumber, 8) + blockId + LittleEndian(dataOffset, 8) + LittleEndian(dataSize, 4)
          + [committed] + pad
    }

    predicate HasValidChecksum()
      requires WellFormed()
    {
      IsCrc32c(checksum, CheckedBytes())
    }

    method IsValid() returns (ok: bool)
      requires WellFormed()
      ensures ok <==> HasValidChecksum()
    {
      var crc := Checksum(CheckedBytes());
      if checksum != crc && HasValidChecksum() {
        CrcUnique(CheckedBytes(), crc);
        CrcUnique(CheckedBytes(), checksum);
      }
      ok := checksum == crc;
    }
  }

  function LittleEndian(x: nat, n: nat): (bytes: seq<Byte>)
    ensures |bytes| == n
    decreases n, x
  {
    if n == 0 then [] else [x % 256] + LittleEndian(x / 256, n - 1)
  }

  lemma {:induction false} LittleEndianInjective(x: nat, y: nat, n: nat)
    requires x < Pow2(8 * n) && y < Pow2(8 * n) && LittleEndian(x, n) == LittleEndian(y, n)
    ensures x == y
    decreases n
  {
    if n == 0 {
    } else {
      assert LittleEndian(x, n)[0] == x % 256 && LittleEndian(y, n)[0] == y % 256;
      assert LittleEndian(x, n)[1..] == LittleEndian(x / 256, n - 1);
      assert LittleEndian(y, n)[1..] == LittleEndian(y / 256, n - 1);
      ByteBound(0, 8);
      Pow2Add(8, 8 * (n - 1));
      LittleEndianInjective(x / 256, y / 256, n - 1);
    }
  }

  lemma ThreeParts(a: seq<Byte>, i: nat, j: nat)
    requires i <= j <= |a|
    ensures a == a[..i] + a[i..j] + a[j..]
  {
  }

  /** Two byte strings that differ, and only from offset i to offset j. */
  predicate DifferWithin(a: seq<Byte>, b: seq<Byte>, i: nat, j: nat) {
    i <= j <= |a| == |b| && a != b && a[..i] == b[..i] && a[j..] == b[j..]
  }

  /** A valid entry whose checked bytes change only within four consecutive positions is no longer valid. */
  lemma DamagedEntryInvalid(e: WalEntry, d: WalEntry, i: nat, j: nat)
    requires e.WellFormed() && d.WellFormed() && d.checksum == e.checksum && j <= i + 4
    ensures e.HasValidChecksum() && DifferWithin(e.CheckedBytes(), d.CheckedBytes(), i, j) ==> !d.HasValidChecksum()
  {
    var a, b := e.CheckedBytes(), d.CheckedBytes();
    if e.HasValidChecksum() && DifferWithin(a, b, i, j) {
      ThreeParts(a, i, j);
      ThreeParts(b, i, j);
      BurstDetected(a[..i], a[i..j], b[i..j], a[j..], e.checksum);
    }
  }

  /** Changing the size field of a valid entry, or its commit flag, always shows. */
  lemma SizeAndCommitProtected(e: WalEntry, size: nat, committed: Byte)
    requires e.WellFormed() && e.HasValidChecksum() && size < 0x1_0000_0000
    ensures size != e.dataSize ==> !e.(dataSize := size).HasValidChecksum()
    ensures committed != e.committed ==> !e.(committed := committed).HasValidChecksum()
  {
    if size != e.dataSize {
      SizeProtected(e, size);
    }
    if committed != e.committed {
      CommitProtected(e, committed);
    }
  }

  function BeforeSize(e: WalEntry): seq<Byte> {
    LittleEndian(e.sequenceNumber, 8) + e.blockId + LittleEndian(e.dataOffset, 8)
  }

  lemma SizeLayout(e: WalEntry, n: nat)
    requires e.WellFormed() && n == 4
    ensures e.CheckedBytes() == BeforeSize(e) + LittleEndian(e.dataSize, n) + ([e.committed] + e.pad)
  {
  }

  lemma SizeBytesDiffer(x: nat, y: nat, n: nat)
    requires n == 4 && x < 0x1_0000_0000 && y < 0x1_0000_0000 && x != y
    ensures LittleEndian(x, n) != LittleEndian(y, n)
  {
    if LittleEndian(x, n) == LittleEndian(y, n) {
      WordBound(8 * n);
      LittleEndianInjective(x, y, n);
    }
  }

  lemma SizeProtected(e: WalEntry, size: nat)
    requires e.WellFormed() && e.HasValidChecksum() && size < 0x1_0000_0000 && size != e.dataSize
    ensures !e.(dataSize := size).HasValidChecksum()
  {
    var d, n := e.(dataSize := size), 4;
    SizeLayout(e, n);
    SizeLayout(d, n);
    SizeBytesDiffer(e.dataSize, size, n);
    BurstDetected(BeforeSize(e), LittleEndian(e.dataSize, n), LittleEndian(size, n), [e.committed] + e.pad, e.checksum);
  }

  lemma CommitProtected(e: WalEntry, committed: Byte)
    requires e.WellFormed() && e.HasValidChecksum() && committed != e.committed
    ensures !e.(committed := committed).HasValidChecksum()
  {
    var before := LittleEndian(e.sequenceNumber, 8) + e.blockId + LittleEndian(e.dataOffset, 8)
        + LittleEndian(e.dataSize, 4);
    assert e.CheckedBytes() == before + [e.committed] + e.pad;
    assert e.(committed := committed).CheckedBytes() == before + [committed] + e.pad;
    assert [e.committed][0] != [committed][0];
    BurstDetected(before, [e.committed], [committed], e.pad, e.checksum);
  }
}
