/**
 * The blank FAT32 image that mksdcard writes (mksdcard.c). The sizing rule is that of Microsoft's
 * fatgen103, section "FAT Volume Initialization".
 */
module Mksdcard {

  const BYTES_PER_SECTOR := 512
  const RESERVED_SECTORS := 32
  const BACKUP_BOOT_SECTOR := 6
  const NUM_FATS := 2
  const MIN_DISK_SIZE := 9 * 1024 * 1024
  const MAX_DISK_SIZE := 0x7FFF_FFFF * 512
  const ENTRIES_PER_FAT_SECTOR := 128      // 32-bit entries
  const CHUNK := 256 * 1024

  /** A sector of the image; the boot sector with the fields that describe the layout. */
  datatype Sector =
    | Boot(sectorsPerCluster: int, reserved: int, fats: int, sectorsPerDisk: int, sectorsPerFat: int, backup: int)
    | Info(freeCount: int)
    | FatHead
    | Zero

  function SectorsPerCluster(diskSize: nat): (n: int)
    ensures n in {1, 4, 8, 16, 32}
  {
    var diskMB := diskSize / (1024 * 1024);
    if diskMB < 260 then 1
    else if diskMB < 8192 then 4
    else if diskMB < 16384 then 8
    else if diskMB < 32768 then 16
    else 32
  }

  function SectorsPerFat(diskSize: int, sectorsPerCluster: int): int
    requires sectorsPerCluster > 0 && diskSize >= RESERVED_SECTORS * BYTES_PER_SECTOR
  {
    var sectors := (diskSize - RESERVED_SECTORS * BYTES_PER_SECTOR) / BYTES_PER_SECTOR;
    var divider := (256 * sectorsPerCluster + NUM_FATS) / 2;
    (sectors + (divider - 1)) / divider
  }

  /** The numbers main works with. */
  datatype Sizes = Sizes(perCluster: int, perFat: int, perDisk: int)

  predicate Supported(diskSize: int) {
    MIN_DISK_SIZE <= diskSize <= MAX_DISK_SIZE
  }

  function SizesOf(diskSize: int): Sizes
    requires Supported(diskSize)
  {
    var c := SectorsPerCluster(diskSize);
    Sizes(c, SectorsPerFat(diskSize, c), diskSize / BYTES_PER_SECTOR)
  }

  /** The sectors behind the reserved ones and both tables. */
  function DataSectors(z: Sizes): int {
    z.perDisk - RESERVED_SECTORS - NUM_FATS * z.perFat
  }

  /** A table whose size is rounded up covers everything, with less than one sector to spare. */
  lemma RoundedUp(sectors: nat, divider: int)
    requires divider in {129, 513, 1025, 2049, 4097}
    ensures var fat := (sectors + (divider - 1)) / divider;
            sectors <= fat * divider < sectors + divider
  {}

  /**
   * Every supported size leaves a data area, and each table has an entry for every data cluster and for
   * the two reserved cluster numbers.
   */
  lemma TablesCoverData(diskSize: int)
    requires Supported(diskSize)
    ensures var z := SizesOf(diskSize);
            DataSectors(z) > 0 && z.perFat > 0 &&
            z.perFat * ENTRIES_PER_FAT_SECTOR >= DataSectors(z) / z.perCluster + 2
  {
    var z := SizesOf(diskSize);
    var sectors := diskSize / BYTES_PER_SECTOR - RESERVED_SECTORS;
    assert (diskSize - RESERVED_SECTORS * BYTES_PER_SECTOR) / BYTES_PER_SECTOR == sectors;
    RoundedUp(sectors, (256 * z.perCluster + NUM_FATS) / 2);
  }

  /** The info sector's count of free clusters counts sectors: right up to 260 MiB, too large above. */
  lemma FreeCountIff(diskSize: int)
    requires Supported(diskSize)
    ensures var z := SizesOf(diskSize);
            InfoOf(z) == Info(DataSectors(z) / z.perCluster) <==> diskSize < 260 * 1024 * 1024
  {
    TablesCoverData(diskSize);
  }

  // --- The image ------------------------------------------------------------------------------------

  function Zeros(n: int): (s: seq<Sector>)
    ensures |s| == if n < 0 then 0 else n
  {
    seq(if n < 0 then 0 else n, _ => Zero)
  }

  function BootOf(z: Sizes): Sector {
    Boot(z.perCluster, RESERVED_SECTORS, NUM_FATS, z.perDisk, z.perFat, BACKUP_BOOT_SECTOR)
  }

  function InfoOf(z: Sizes): Sector {
    Info(z.perDisk - 32 - 2 * z.perFat)
  }

  /** A reader of FAT32 finds each structure where the boot sector says it is. */
  ghost predicate IsVolume(image: seq<Sector>, z: Sizes) {
    |image| == z.perDisk &&
    forall i :: 0 <= i < |image| ==>
      image[i] ==
      if i == 0 || i == BACKUP_BOOT_SECTOR then BootOf(z)
      else if i == 1 || i == BACKUP_BOOT_SECTOR + 1 then InfoOf(z)
      else if i == RESERVED_SECTORS || i == RESERVED_SECTORS + z.perFat then FatHead
      else Zero
  }

  class ImageFile {
    var sectors: seq<Sector>

    constructor ()
      ensures sectors == []
    {
      sectors := [];
    }

    method WriteSector(s: Sector)
      modifies this
      ensures sectors == old(sectors) + [s]
    {
      sectors := sectors + [s];
    }

    /** write_empty, in chunks of 256 KiB; nothing for a negative count. */
    method WriteEmpty(count: int)
      modifies this
      ensures sectors == old(sectors) + Zeros(count)
    {
      var left := count * BYTES_PER_SECTOR;
      ghost var done := 0;
      while left > 0
        invariant left == (count - done) * BYTES_PER_SECTOR && 0 <= done && (done <= count || done == 0)
        invariant sectors == old(sectors) + Zeros(done)
      {
        var len := if CHUNK > left then left else CHUNK;
        ZerosAdd(old(sectors), done, len / BYTES_PER_SECTOR);
        sectors := sectors + Zeros(len / BYTES_PER_SECTOR);
        left := left - len;
        done := done + len / BYTES_PER_SECTOR;
      }
      assert Zeros(done) == Zeros(count);
    }

    static lemma ZerosAdd(s: seq<Sector>, m: nat, n: nat)
      ensures (s + Zeros(m)) + Zeros(n) == s + Zeros(m + n)
    {}

    /** The reserved sectors: boot and info sectors with their backups. */
    method WriteReserved(z: Sizes)
      modifies this
      ensures sectors == old(sectors) + Reserved(z)
    {
      WriteSector(BootOf(z));
      WriteSector(InfoOf(z));
      WriteEmpty(BACKUP_BOOT_SECTOR - 2);
      WriteSector(BootOf(z));
      WriteSector(InfoOf(z));
      WriteEmpty(RESERVED_SECTORS - 2 - BACKUP_BOOT_SECTOR);
      assert sectors == old(sectors) + Reserved(z);
    }

    method WriteFat(perFat: int)
      modifies this
      ensures sectors == old(sectors) + ([FatHead] + Zeros(perFat - 1))
    {
      WriteSector(FatHead);
      WriteEmpty(perFat - 1);
    }
  }

  function Reserved(z: Sizes): seq<Sector> {
    [BootOf(z), InfoOf(z)] + Zeros(BACKUP_BOOT_SECTOR - 2) + [BootOf(z), InfoOf(z)] +
    Zeros(RESERVED_SECTORS - 2 - BACKUP_BOOT_SECTOR)
  }

  /** main: false for a size that is too small or too large, else the whole volume. */
  method MakeImage(diskSize: int, file: ImageFile) returns (ok: bool)
    requires file.sectors == []
    modifies file
    ensures ok <==> Supported(diskSize)
    ensures ok ==> IsVolume(file.sectors, SizesOf(diskSize)) && |file.sectors| == diskSize / BYTES_PER_SECTOR
    ensures !ok ==> file.sectors == []
  {
    if diskSize < MIN_DISK_SIZE || diskSize > MAX_DISK_SIZE {
      return false;
    }
    var z := SizesOf(diskSize);
    TablesCoverData(diskSize);
    file.WriteReserved(z);
    file.WriteFat(z.perFat);
    file.WriteFat(z.perFat);
    file.WriteEmpty(z.perDisk - RESERVED_SECTORS - 2 * z.perFat);
    VolumeWritten(z, file.sectors);
    ok := true;
  }

  lemma VolumeWritten(z: Sizes, image: seq<Sector>)
    requires z.perFat > 0 && DataSectors(z) >= 0
    requires image == Reserved(z) + ([FatHead] + Zeros(z.perFat - 1)) + ([FatHead] + Zeros(z.perFat - 1)) + Zeros(DataSectors(z))
    ensures IsVolume(image, z)
  {
    var r, f := Reserved(z), [FatHead] + Zeros(z.perFat - 1);
    assert |r| == RESERVED_SECTORS;
    forall i | 0 <= i < |image|
      ensures image[i] == if i < 32 then r[i] else if i == 32 || i == 32 + z.perFat then FatHead else Zero
    {}
  }
}
