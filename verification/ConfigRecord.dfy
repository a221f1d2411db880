/** The configuration as the firmware keeps it: the record of the parser, laid out as the bytes that are saved. */
module ConfigRecord {
  import opened Wrappers
  import opened Crc
  import opened ConfigImage
  import ConfigBoot
  import I = IniParser
  import IniPrinter

  predicate Bit(n: nat, weight: nat)
    requires weight > 0
  {
    n / weight % 2 == 1
  }

  /** The byte with the binary digits of the number. */
  function ToByte(n: nat): (b: Byte)
    requires n < 0x100
  {
    (if Bit(n, 128) then 0x80 else 0) | (if Bit(n, 64) then 0x40 else 0) | (if Bit(n, 32) then 0x20 else 0)
    | (if Bit(n, 16) then 0x10 else 0) | (if Bit(n, 8) then 0x08 else 0) | (if Bit(n, 4) then 0x04 else 0)
    | (if Bit(n, 2) then 0x02 else 0) | (if Bit(n, 1) then 0x01 else 0)
  }

  lemma DigitsOfByte(n: nat)
    requires n < 0x100
    ensures var b := ToByte(n);
            && Bit8(b, 0x80) == Bit(n, 128) && Bit8(b, 0x40) == Bit(n, 64) && Bit8(b, 0x20) == Bit(n, 32)
            && Bit8(b, 0x10) == Bit(n, 16) && Bit8(b, 0x08) == Bit(n, 8) && Bit8(b, 0x04) == Bit(n, 4)
            && Bit8(b, 0x02) == Bit(n, 2) && Bit8(b, 0x01) == Bit(n, 1)
  {
    hide Bit;
  }

  function Quotient(n: nat, weight: nat): nat
    requires weight > 0
  {
    n / weight
  }

  /** Each digit is what the next quotient does not determine. */
  lemma NextDigit(n: nat, weight: nat)
    requires weight in {1, 2, 4, 8, 16, 32, 64}
    ensures Quotient(n, weight) == 2 * Quotient(n, 2 * weight) + if Bit(n, weight) then 1 else 0
  {
    if weight == 1 { } else if weight == 2 { } else if weight == 4 { } else if weight == 8 { }
    else if weight == 16 { } else if weight == 32 { } else { }
  }

  lemma DigitsDetermine(m: nat, n: nat)
    requires m < 0x100 && n < 0x100
    requires Bit(m, 128) == Bit(n, 128) && Bit(m, 64) == Bit(n, 64) && Bit(m, 32) == Bit(n, 32)
    requires Bit(m, 16) == Bit(n, 16) && Bit(m, 8) == Bit(n, 8) && Bit(m, 4) == Bit(n, 4)
    requires Bit(m, 2) == Bit(n, 2) && Bit(m, 1) == Bit(n, 1)
    ensures m == n
  {
    assert Quotient(m, 128) == Quotient(n, 128);
    assert Quotient(m, 1) == m && Quotient(n, 1) == n;
    hide Bit, Quotient;
    SameQuotient(m, n, 64);
    SameQuotient(m, n, 32);
    SameQuotient(m, n, 16);
    SameQuotient(m, n, 8);
    SameQuotient(m, n, 4);
    SameQuotient(m, n, 2);
    SameQuotient(m, n, 1);
  }

  lemma SameQuotient(m: nat, n: nat, weight: nat)
    requires weight in {1, 2, 4, 8, 16, 32, 64}
    requires Bit(m, weight) == Bit(n, weight) && Quotient(m, 2 * weight) == Quotient(n, 2 * weight)
    ensures Quotient(m, weight) == Quotient(n, weight)
  {
    hide Bit, Quotient;
    NextDigit(m, weight);
    NextDigit(n, weight);
  }

  lemma ToByteInjective(m: nat, n: nat)
    requires m < 0x100 && n < 0x100
    ensures ToByte(m) == ToByte(n) <==> m == n
  {
    hide Bit, ToByte, Bit8;
    DigitsOfByte(m);
    DigitsOfByte(n);
    if ToByte(m) == ToByte(n) {
      DigitsDetermine(m, n);
    }
  }

  lemma ZeroByte(n: nat)
    requires n < 0x100
    ensures ToByte(n) == 0 <==> n == 0
  {
    ToByteInjective(n, 0);
    assert ToByte(0) == 0;
    hide ToByte;
  }

  /** An unsigned number, low byte first. */
  function Unsigned(n: nat, size: nat): (b: seq<Byte>)
    ensures |b| == size
    decreases size
  {
    if size == 0 then [] else [ToByte(n % 0x100)] + Unsigned(n / 0x100, size - 1)
  }

  function Power256(size: nat): nat { if size == 0 then 1 else 0x100 * Power256(size - 1) }

  lemma {:induction false} UnsignedInjective(m: nat, n: nat, size: nat)
    requires m < Power256(size) && n < Power256(size)
    ensures Unsigned(m, size) == Unsigned(n, size) <==> m == n
    decreases size
  {
    hide ToByte;
    if size > 0 {
      UnsignedInjective(m / 0x100, n / 0x100, size - 1);
      ToByteInjective(m % 0x100, n % 0x100);
      var a, b := Unsigned(m, size), Unsigned(n, size);
      assert a[1..] == Unsigned(m / 0x100, size - 1) && b[1..] == Unsigned(n / 0x100, size - 1);
      assert a[0] == ToByte(m % 0x100) && b[0] == ToByte(n % 0x100);
    }
  }

  /** The characters of a file are bytes. */
  predicate Plain(s: string) { forall c :: c in s ==> 0 < c as int < 0x100 }

  function Text(s: string): (b: seq<Byte>)
    requires Plain(s)
    ensures |b| == |s|
    ensures forall i :: 0 <= i < |s| ==> s[i] in s && b[i] == ToByte(s[i] as int)
  {
    seq(|s|, i requires 0 <= i < |s| => assert s[i] in s; ToByte(s[i] as int))
  }

  lemma TextInjective(s: string, t: string)
    requires Plain(s) && Plain(t)
    ensures Text(s) == Text(t) <==> s == t
  {
    hide Text, ToByte;
    if Text(s) == Text(t) {
      forall i | 0 <= i < |s| ensures s[i] == t[i] {
        assert Text(s)[i] == Text(t)[i] && t[i] in t;
        ToByteInjective(s[i] as int, t[i] as int);
      }
    }
  }

  lemma TextIsNotZero(s: string)
    requires Plain(s)
    ensures forall i :: 0 <= i < |s| ==> Text(s)[i] != 0
  {
    hide ToByte;
    forall i | 0 <= i < |s| ensures Text(s)[i] != 0 {
      assert s[i] in s;
      ZeroByte(s[i] as int);
    }
  }

  /** A character array: the string, and zeros behind it. */
  function Array(s: string, size: nat): (b: seq<Byte>)
    requires Plain(s) && |s| < size
    ensures |b| == size && ConfigBoot.CString(b) == Text(s)
  {
    TextIsNotZero(s);
    CStringOf(Text(s), size - |s|);
    Text(s) + seq(size - |s|, _ => 0)
  }

  lemma {:induction false} CStringOf(text: seq<Byte>, zeros: nat)
    requires zeros > 0 && forall i :: 0 <= i < |text| ==> text[i] != 0
    ensures ConfigBoot.CString(text + seq(zeros, _ => 0)) == text
    decreases |text|
  {
    var b := text + seq(zeros, _ => 0);
    if text != [] {
      assert b[0] == text[0];
      assert b[1..] == text[1..] + seq(zeros, _ => 0);
      CStringOf(text[1..], zeros);
    } else {
      assert b[0] == 0;
    }
  }

  // ----- the structure -----

  /** In range, with texts of byte characters. */
  ghost predicate Storable(c: I.Config) { forall f :: StorableValue(f, I.Get(c, f)) }

  ghost predicate StorableValue(f: I.Field, v: I.Value) { I.FieldInRange(f, v) && (v.Text? ==> Plain(v.s)) }

  const MEMBERS: nat := 18

  /** The members of iot_config_t in their order. */
  function Member(k: nat): I.Field
    requires k < MEMBERS
  {
    match k
    case 0 => I.Version
    case 1 => I.I2cPort
    case 2 => I.Brightness
    case 3 => I.Timeout
    case 4 => I.Ssid
    case 5 => I.WifiPassword
    case 6 => I.OtaCa
    case 7 => I.Port
    case 8 => I.KeepAlive
    case 9 => I.PublishFreq
    case 10 => I.Qos
    case 11 => I.Host
    case 12 => I.MqttCa
    case 13 => I.User
    case 14 => I.Password
    case 15 => I.ClientCert
    case 16 => I.ClientKey
    case _ => I.Topic
  }

  function IndexOf(f: I.Field): (k: nat)
    ensures k < MEMBERS && Member(k) == f
  {
    match f
    case Version => 0
    case I2cPort => 1
    case Brightness => 2
    case Timeout => 3
    case Ssid => 4
    case WifiPassword => 5
    case OtaCa => 6
    case Port => 7
    case KeepAlive => 8
    case PublishFreq => 9
    case Qos => 10
    case Host => 11
    case MqttCa => 12
    case User => 13
    case Password => 14
    case ClientCert => 15
    case ClientKey => 16
    case Topic => 17
  }

  /** sizeof the member. */
  function Width(f: I.Field): nat {
    match f
    case Version => 4
    case I2cPort | Brightness | Qos => 1
    case Timeout | Port | KeepAlive | PublishFreq => 2
    case _ => I.Size(f)
  }

  /** offsetof the member: the widths of those before it, since each is aligned where it is. */
  function Offset(k: nat): nat
    requires k <= MEMBERS
  {
    if k == 0 then 0 else Offset(k - 1) + Width(Member(k - 1))
  }

  function Encode(f: I.Field, v: I.Value): (b: seq<Byte>)
    requires StorableValue(f, v)
    ensures |b| == Width(f)
  {
    match v
    case Num(n) => Unsigned(n, Width(f))
    case Letter(c) => [ToByte(c as int)]
    case Text(s) => Array(s, Width(f))
  }

  /** The first k members. */
  function Laid(c: I.Config, k: nat): (b: seq<Byte>)
    requires Storable(c) && k <= MEMBERS
    ensures |b| == Offset(k)
  {
    if k == 0 then []
    else
      var f := Member(k - 1);
      assert StorableValue(f, I.Get(c, f));
      Laid(c, k - 1) + Encode(f, I.Get(c, f))
  }

  lemma SliceOfFront(a: seq<Byte>, b: seq<Byte>, i: nat, j: nat)
    requires i <= j <= |a|
    ensures (a + b)[i..j] == a[i..j]
  {
  }

  lemma SliceOfBack(a: seq<Byte>, b: seq<Byte>)
    ensures (a + b)[|a|..|a| + |b|] == b
  {
  }

  lemma {:induction false} MemberAt(c: I.Config, k: nat, n: nat)
    requires Storable(c) && k < n <= MEMBERS
    ensures StorableValue(Member(k), I.Get(c, Member(k)))
    ensures Offset(k) <= Offset(k + 1) <= Offset(n)
    ensures Laid(c, n)[Offset(k)..Offset(k + 1)] == Encode(Member(k), I.Get(c, Member(k)))
    decreases n
  {
    hide Encode, Width, Member, StorableValue, I.Get;
    var front, last := Laid(c, n - 1), Member(n - 1);
    assert StorableValue(last, I.Get(c, last));
    var back := Encode(last, I.Get(c, last));
    assert Laid(c, n) == front + back && Offset(n) == Offset(n - 1) + Width(last);
    hide Laid, Offset;
    if k + 1 < n {
      MemberAt(c, k, n - 1);
      SliceOfFront(front, back, Offset(k), Offset(k + 1));
    } else {
      SliceOfBack(front, back);
    }
  }

  /** Where the members are, by the sizes of those before them. */
  lemma Offsets()
    ensures Offset(IndexOf(I.Version)) == 0 && Offset(1) == 4
    ensures Offset(IndexOf(I.I2cPort)) == 4 && Offset(IndexOf(I.Brightness)) == 5 && Offset(IndexOf(I.Timeout)) == 6
    ensures Offset(IndexOf(I.Ssid)) == 8 && Offset(IndexOf(I.WifiPassword)) == 40 && Offset(IndexOf(I.OtaCa)) == 104
    ensures Offset(IndexOf(I.Port)) == 136 && Offset(IndexOf(I.KeepAlive)) == 138
    ensures Offset(IndexOf(I.PublishFreq)) == 140 && Offset(IndexOf(I.Qos)) == 142 && Offset(IndexOf(I.Host)) == 143
    ensures Offset(IndexOf(I.MqttCa)) == 271 && Offset(IndexOf(I.User)) == 303 && Offset(IndexOf(I.Password)) == 335
    ensures Offset(IndexOf(I.ClientCert)) == 399 && Offset(IndexOf(I.ClientKey)) == 431
    ensures Offset(IndexOf(I.Topic)) == 463 && Offset(18) == CONFIG_SIZE - 1
  {
    FrontOffsets();
    hide Offset;
    MqttOffsets();
    LastOffsets();
  }

  lemma FrontOffsets()
    ensures Offset(0) == 0 && Offset(1) == 4 && Offset(2) == 5 && Offset(3) == 6 && Offset(4) == 8 && Offset(5) == 40
    ensures Offset(6) == 104 && Offset(7) == 136
  {
  }

  lemma MqttOffsets()
    requires Offset(7) == 136
    ensures Offset(8) == 138 && Offset(9) == 140 && Offset(10) == 142 && Offset(11) == 143 && Offset(12) == 271
  {
  }

  lemma LastOffsets()
    requires Offset(12) == 271
    ensures Offset(13) == 303 && Offset(14) == 335 && Offset(15) == 399
    ensures Offset(16) == 431 && Offset(17) == 463 && Offset(18) == CONFIG_SIZE - 1
  {
    assert Offset(13) == 303 && Offset(14) == 335 && Offset(15) == 399;
    EndOffsets();
    hide Offset;
  }

  lemma EndOffsets()
    requires Offset(15) == 399
    ensures Offset(16) == 431 && Offset(17) == 463 && Offset(18) == CONFIG_SIZE - 1
  {
  }

  lemma TotalSize()
    ensures Offset(18) == CONFIG_SIZE - 1
  {
    Offsets();
  }

  lemma CertOffsets()
    ensures Offset(6) == 104 && Offset(12) == 271 && Offset(15) == 399 && Offset(16) == 431
  {
    Offsets();
  }

  /** The structure that parse_config_file fills: cleared before, with one byte of padding at its end. */
  function Record(c: I.Config): (b: Config)
    requires Storable(c)
  {
    TotalSize();
    Laid(c, MEMBERS) + [0]
  }

  /** The field that names a certificate. */
  function NameField(k: ConfigBoot.FlashFile): I.Field
    requires k != ConfigBoot.ConfigFile
  {
    match k
    case ClientCert => I.ClientCert
    case ClientKey => I.ClientKey
    case MqttCa => I.MqttCa
    case OtaCa => I.OtaCa
  }

  lemma {:induction false} RecordMember(c: I.Config, f: I.Field)
    requires Storable(c)
    ensures var k := IndexOf(f);
            && StorableValue(f, I.Get(c, f)) && Offset(k + 1) < CONFIG_SIZE
            && Record(c)[Offset(k)..Offset(k + 1)] == Encode(f, I.Get(c, f))
  {
    TotalSize();
    hide Encode, Width, Laid, IndexOf, Member, Storable, StorableValue, Offset;
    var k := IndexOf(f);
    MemberAt(c, k, MEMBERS);
    assert Record(c)[Offset(k)..Offset(k + 1)] == Laid(c, MEMBERS)[Offset(k)..Offset(k + 1)];
  }

  lemma {:induction false} NextOffset(f: I.Field)
    ensures Offset(IndexOf(f) + 1) == Offset(IndexOf(f)) + Width(f)
  {
    hide IndexOf, Member, Width;
  }

  lemma EncodedText(f: I.Field, v: I.Value)
    requires StorableValue(f, v) && v.Text?
    ensures ConfigBoot.CString(Encode(f, v)) == Text(v.s)
  {
    hide ConfigBoot.CString, Text;
  }

  /** The C string in a text member. */
  lemma {:induction false} NameAt(c: I.Config, f: I.Field, at: nat)
    requires Storable(c) && I.Get(c, f).Text? && Width(f) == 32 && Offset(IndexOf(f)) == at
    ensures at + 32 <= CONFIG_SIZE && StorableValue(f, I.Get(c, f))
    ensures ConfigBoot.CString(Record(c)[at..at + 32]) == Text(I.Get(c, f).s)
  {
    hide Offset, Record, Encode, Storable, StorableValue, Text, I.Get, IndexOf, ConfigBoot.CString, Member, Width;
    RecordMember(c, f);
    NextOffset(f);
    EncodedText(f, I.Get(c, f));
  }

  /** The names that staging and loading take from the structure are those that the parser has read. */
  lemma {:induction false} CertNameIsField(c: I.Config, k: ConfigBoot.FlashFile)
    requires Storable(c) && k != ConfigBoot.ConfigFile
    ensures StorableValue(NameField(k), I.Get(c, NameField(k)))
    ensures ConfigBoot.CertName(Record(c), k) == Text(I.Get(c, NameField(k)).s)
  {
    CertOffsets();
    hide Offset, Record, Storable, StorableValue, Text, ConfigBoot.CString;
    match k
    case OtaCa => NameAt(c, I.OtaCa, 104);
    case MqttCa => NameAt(c, I.MqttCa, 271);
    case ClientCert => NameAt(c, I.ClientCert, 399);
    case ClientKey => NameAt(c, I.ClientKey, 431);
  }

  lemma {:induction false} EncodeInjective(f: I.Field, v: I.Value, w: I.Value)
    requires StorableValue(f, v) && StorableValue(f, w)
    ensures Encode(f, v) == Encode(f, w) <==> v == w
  {
    assert Power256(1) == 0x100 && Power256(2) == 0x1_0000 && Power256(4) == 0x1_0000_0000;
    match v {
      case Num(n) =>
        hide Unsigned, Power256;
        UnsignedInjective(n, w.n, Width(f));
      case Letter(c) =>
        assert Encode(f, v)[0] == ToByte(c as int) && Encode(f, w)[0] == ToByte(w.c as int);
        hide ToByte;
        ToByteInjective(c as int, w.c as int);
      case Text(s) =>
        hide Array, Unsigned, Text, Power256;
        TextInjective(s, w.s);
    }
  }

  /** So comparing two structures byte by byte compares the configurations. */
  lemma {:induction false} RecordInjective(a: I.Config, b: I.Config)
    requires Storable(a) && Storable(b)
    ensures Record(a) == Record(b) <==> a == b
  {
    hide Record, Encode, I.Get, StorableValue, Offset, IndexOf;
    if Record(a) == Record(b) {
      forall f ensures I.Get(a, f) == I.Get(b, f) {
        RecordMember(a, f);
        RecordMember(b, f);
        EncodeInjective(f, I.Get(a, f), I.Get(b, f));
      }
      IniPrinter.GetDeterminesConfig(a, b);
    }
  }

  /** A card with its files, and what parsing its configuration file has given, None when there is no such file. */
  function CardOf(files: map<seq<Byte>, seq<Byte>>, parsed: Option<I.Config>): ConfigBoot.Card
    requires parsed.Some? ==> Storable(parsed.value)
  {
    ConfigBoot.Card(files,
                    if parsed.Some? && parsed.value.version == 1 then Some(Record(parsed.value)) else None)
  }

  /** A configuration is accepted exactly when the version in its bytes is the current one. */
  lemma {:induction false} CardOfIsValid(files: map<seq<Byte>, seq<Byte>>, parsed: Option<I.Config>)
    requires parsed.Some? ==> Storable(parsed.value)
    ensures CardOf(files, parsed).Valid()
    ensures parsed.Some? ==> (parsed.value.version == 1 <==> Version(Record(parsed.value)) == VERSION)
  {
    if parsed.Some? {
      var c := parsed.value;
      RecordMember(c, I.Version);
      FrontOffsets();
      assert Version(Record(c)) == Unsigned(c.version, 4);
      hide Record, Storable, StorableValue, Offset;
      assert Power256(4) == 0x1_0000_0000;
      UnsignedInjective(c.version, 1, 4);
      OneIsVersion();
    }
  }

  lemma SmallBytes()
    ensures ToByte(1) == 1 && ToByte(0) == 0
  {
  }

  lemma OneIsVersion()
    ensures Unsigned(1, 4) == VERSION
  {
    hide ToByte;
    SmallBytes();
    assert Unsigned(1, 4) == [ToByte(1)] + Unsigned(0, 3);
    assert Unsigned(0, 3) == [ToByte(0)] + Unsigned(0, 2) && Unsigned(0, 2) == [ToByte(0)] + Unsigned(0, 1);
    assert Unsigned(0, 1) == [ToByte(0)] + Unsigned(0, 0);
  }
}
