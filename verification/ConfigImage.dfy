/** The saved configuration: a header with magic and CRC-16, then the configuration as plain bytes. */
module ConfigImage {
  import opened Wrappers
  import opened Gf2
  import opened Crc

  /** sizeof(iot_config_t); the header is 4 bytes of magic, 2 of checksum and 2 of alignment. */
  const CONFIG_SIZE: nat := 528
  const HEADER_SIZE: nat := 8
  const MAGIC: seq<Byte> := [0x02, 0x09, 0x04, 0x13]
  const VERSION: seq<Byte> := [1, 0, 0, 0]

  type Config = c: seq<Byte> | |c| == CONFIG_SIZE witness seq(CONFIG_SIZE, _ => 0)

  datatype Error = Fail | InvalidCrc | InvalidVersion | NotFound | InvalidSize | NoMemory

  function Version(c: Config): seq<Byte> { c[..4] }

  /** The checksum as the processor stores it, low byte first. */
  function LittleEndian(c: bv16): (b: seq<Byte>)
    ensures |b| == 2
  {
    [(c & 0xFF) as bv8, (c >> 8) as bv8]
  }

  function FromLittleEndian(b: seq<Byte>): bv16
    requires |b| == 2
  {
    ((b[1] as bv16) << 8) | (b[0] as bv16)
  }

  lemma LittleEndianRoundTrip(c: bv16)
    ensures FromLittleEndian(LittleEndian(c)) == c
  {
  }

  /** The low byte comes first. */
  lemma LowByteFirst(c: bv16)
    ensures LittleEndian(c)[0] as bv16 == c % 0x100 && LittleEndian(c)[1] as bv16 == c / 0x100
  {
  }

  /** What save_config_to_spiffs writes; the alignment bytes are whatever the stack held. */
  function Image(c: Config, alignment: seq<Byte>): (file: seq<Byte>)
    requires |alignment| == 2
    ensures |file| == HEADER_SIZE + CONFIG_SIZE
  {
    MAGIC + LittleEndian(Crc16(c)) + alignment + c
  }

  /** load_config_from_spiffs: one fread of the structure, so bytes beyond it are never seen. */
  function Load(file: Option<seq<Byte>>): Result<Config, Error> {
    if file.None? then Failure(Fail)
    else
      var f := file.value;
      if |f| < HEADER_SIZE + CONFIG_SIZE then Failure(InvalidCrc)
      else
        var c: Config := f[HEADER_SIZE..HEADER_SIZE + CONFIG_SIZE];
        if f[..4] != MAGIC then Failure(InvalidCrc)
        else if FromLittleEndian(f[4..6]) != Crc16(c) then Failure(InvalidCrc)
        else if Version(c) != VERSION then Failure(InvalidVersion)
        else Success(c)
  }

  /** A saved configuration of the current version loads back exactly, whatever the alignment bytes. */
  lemma LoadSaved(c: Config, alignment: seq<Byte>)
    requires |alignment| == 2
    ensures Load(Some(Image(c, alignment))) ==
            if Version(c) == VERSION then Success(c) else Failure(InvalidVersion)
  {
    hide Crc16, LittleEndian, FromLittleEndian;
    var f := Image(c, alignment);
    assert f[..4] == MAGIC && f[4..6] == LittleEndian(Crc16(c));
    assert f[HEADER_SIZE..HEADER_SIZE + CONFIG_SIZE] == c;
    LittleEndianRoundTrip(Crc16(c));
  }

  /** The file begins with the saved image of the configuration, whatever its alignment bytes. */
  predicate BeginsWithImage(f: seq<Byte>, c: Config) {
    |f| >= HEADER_SIZE + CONFIG_SIZE && Image(c, f[6..8]) <= f
  }

  /**
   * A file loads exactly when it begins with the saved image of a configuration of the current version, and then
   * gives that configuration. So one that is too short, or whose first four bytes are not those of every image, is
   * refused. The errors tell apart a missing file, a sound image of another version, and anything else.
   */
  lemma LoadIffSaved(file: Option<seq<Byte>>)
    ensures forall c: Config :: Load(file) == Success(c) <==>
              file.Some? && BeginsWithImage(file.value, c) && Version(c) == VERSION
    ensures Load(file) == Failure(Fail) <==> file.None?
    ensures Load(file) == Failure(InvalidVersion) <==>
              file.Some? && exists c: Config :: BeginsWithImage(file.value, c) && Version(c) != VERSION
    ensures Load(file).Success? ==>
              file.Some? && forall c: Config ::
                |file.value| >= |Image(c, [0, 0])| && file.value[..4] == Image(c, [0, 0])[..4]
  {
    hide Crc16, LittleEndian, FromLittleEndian, Image, Version;
    if file.Some? && |file.value| >= HEADER_SIZE + CONFIG_SIZE {
      var f := file.value;
      forall c: Config
        ensures BeginsWithImage(f, c) <==>
                  f[..4] == MAGIC && f[HEADER_SIZE..HEADER_SIZE + CONFIG_SIZE] == c
                  && FromLittleEndian(f[4..6]) == Crc16(c)
      {
        ImageAtStart(f, c);
      }
      hide BeginsWithImage;
    }
    forall c: Config ensures Image(c, [0, 0])[..4] == MAGIC {
      ImageMagic(c);
    }
  }

  lemma ImageMagic(c: Config)
    ensures Image(c, [0, 0])[..4] == MAGIC
  {
    hide Crc16, LittleEndian;
  }

  lemma ImageAtStart(f: seq<Byte>, c: Config)
    requires |f| >= HEADER_SIZE + CONFIG_SIZE
    ensures BeginsWithImage(f, c) <==>
              f[..4] == MAGIC && f[HEADER_SIZE..HEADER_SIZE + CONFIG_SIZE] == c
              && FromLittleEndian(f[4..6]) == Crc16(c)
  {
    hide Crc16, LittleEndian, FromLittleEndian;
    LittleEndianRoundTrip(Crc16(c));
    LittleEndianBack(f[4..6]);
    var image := Image(c, f[6..8]);
    assert image[..4] == MAGIC && image[4..6] == LittleEndian(Crc16(c)) && image[HEADER_SIZE..] == c;
    assert image == image[..4] + image[4..6] + f[6..8] + image[HEADER_SIZE..];
    assert f[..HEADER_SIZE + CONFIG_SIZE]
           == f[..4] + f[4..6] + f[6..8] + f[HEADER_SIZE..HEADER_SIZE + CONFIG_SIZE];
    if image <= f {
      assert f[..4] == image[..4] && f[4..6] == image[4..6];
      assert f[HEADER_SIZE..HEADER_SIZE + CONFIG_SIZE] == image[HEADER_SIZE..];
    }
  }

  lemma LittleEndianBack(b: seq<Byte>)
    requires |b| == 2
    ensures LittleEndian(FromLittleEndian(b)) == b
  {
  }

  /** A burst of up to 16 bits anywhere in the body of a saved file is rejected, whatever it hits. */
  lemma {:induction false} BurstInBodyRejected(c: Config, c': Config, alignment: seq<Byte>, k: nat, n: nat)
    requires |alignment| == 2 && n <= 16 && c != c'
    requires DifferWithin(BitString(c), BitString(c'), k, n)
    ensures Load(Some(Image(c, alignment)[..HEADER_SIZE] + c')) == Failure(InvalidCrc)
  {
    hide Register16, LittleEndian, FromLittleEndian, BitString;
    var f := Image(c, alignment)[..HEADER_SIZE] + c';
    assert f[..4] == MAGIC && f[4..6] == LittleEndian(Crc16(c));
    assert f[HEADER_SIZE..HEADER_SIZE + CONFIG_SIZE] == c';
    LittleEndianRoundTrip(Crc16(c));
    Register16DetectsBurst(c, c', k, n);
  }
}
