/** The one-pass configuration file parser. */
module IniParser {
  import opened Wrappers
  import opened IniText

  datatype Error = Fail | InvalidVersion

  datatype Config = Config(
    version: int, i2cPort: char, brightness: int, timeout: int,
    ssid: string, wifiPassword: string, otaCa: string,
    host: string, port: int, qos: int, keepAlive: int, mqttCa: string,
    user: string, password: string, clientCert: string, clientKey: string,
    topic: string, publishFreq: int)

  const DEFAULTS := Config(0, 'B', 40, 300, "", "", "", "", 8883, 0, 60, "", "", "", "", "", "iot/v1", 60)

  datatype Field =
    | Version | I2cPort | Brightness | Timeout | Ssid | WifiPassword | OtaCa
    | Host | Port | Qos | KeepAlive | MqttCa | User | Password | ClientCert | ClientKey | Topic | PublishFreq

  datatype Value = Num(n: int) | Letter(c: char) | Text(s: string)

  function Get(c: Config, f: Field): Value {
    match f
    case Version => Num(c.version)
    case I2cPort => Letter(c.i2cPort)
    case Brightness => Num(c.brightness)
    case Timeout => Num(c.timeout)
    case Ssid => Text(c.ssid)
    case WifiPassword => Text(c.wifiPassword)
    case OtaCa => Text(c.otaCa)
    case Host => Text(c.host)
    case Port => Num(c.port)
    case Qos => Num(c.qos)
    case KeepAlive => Num(c.keepAlive)
    case MqttCa => Text(c.mqttCa)
    case User => Text(c.user)
    case Password => Text(c.password)
    case ClientCert => Text(c.clientCert)
    case ClientKey => Text(c.clientKey)
    case Topic => Text(c.topic)
    case PublishFreq => Num(c.publishFreq)
  }

  function SectionOf(f: Field): string {
    match f
    case Version => "config"
    case I2cPort | Brightness | Timeout => "hardware"
    case Ssid | WifiPassword => "wifi"
    case OtaCa => "ota"
    case _ => "mqtt"
  }

  function KeyOf(f: Field): string {
    match f
    case Version => "version"
    case I2cPort => "i2c_port"
    case Brightness => "display_brightness"
    case Timeout => "display_timeout"
    case Ssid => "ssid"
    case WifiPassword | Password => "password"
    case OtaCa | MqttCa => "ca_cert"
    case Host => "host"
    case Port => "port"
    case Qos => "qos"
    case KeepAlive => "keep_alive"
    case User => "user"
    case ClientCert => "client_cert"
    case ClientKey => "client_key"
    case Topic => "topic"
    case PublishFreq => "publish_freq"
  }

  /** The buffer size of a text field. */
  function Size(f: Field): nat {
    match f
    case Host => 128
    case WifiPassword | Password | Topic => 64
    case _ => 32
  }

  /** strlcpy into a buffer of n bytes. */
  function Stored(s: string, n: nat): (r: string)
    requires n > 0
    ensures r <= s && |r| == if |s| < n then |s| else n - 1
  {
    if |s| < n then s else s[..n - 1]
  }

  function UnsignedInRange(v: string, modulus: nat, low: int, high: int): Option<Value>
    requires modulus > 0
  {
    var n := Atoi(v) % modulus;
    if low <= n <= high then Some(Num(n)) else None
  }

  /** What an assignment stores into the field, None when the value is refused. */
  function Accept(f: Field, v: string): Option<Value> {
    match f
    case Version => Some(Num(Strtoul(v)))
    case I2cPort => Some(Letter(if v != "" && v[0] == 'A' then 'A' else 'B'))
    case Brightness => UnsignedInRange(v, 0x100, 1, 100)
    case Qos => UnsignedInRange(v, 0x100, 0, 2)
    case Port => UnsignedInRange(v, 0x1_0000, 0, 0xFFFF)
    case Timeout | KeepAlive | PublishFreq => UnsignedInRange(v, 0x1_0000, 1, 0xFFFF)
    case _ => Some(Text(Stored(v, Size(f))))
  }

  // ----- one line -----

  datatype Line = Ignored | Header(name: string) | Assignment(key: string, value: string)

  const SECTION_SIZE: nat := 32

  function ParseLine(line: string): Line {
    var t := SkipBlanks(line);
    if t == "" || t[0] == ';' || t[0] == '\n' || t[0] == '\r' then Ignored
    else if t[0] == '[' then
      match IndexOf(t, ']')
      case None => Ignored
      case Some(end) => Header(Stored(t[1..end], SECTION_SIZE))
    else
      match IndexOf(t, '=')
      case None => Ignored
      case Some(eq) => Assignment(TrimRight(t[..eq]), TrimRight(CutEol(SkipBlanks(t[eq + 1..]))))
  }

  // ----- what each line is -----

  /** A key: blanks only inside, no equals sign, and not the beginning of another kind of line. */
  ghost predicate KeyText(key: string) {
    && key != "" && !IsBlank(key[0]) && !IsBlank(key[|key| - 1]) && '=' !in key
    && key[0] != ';' && key[0] != '[' && !IsEol(key[0])
  }

  /** The value without the blanks before and behind it, and without the line end. */
  lemma {:induction false} ValueTrimmed(before: string, value: string, behind: string, end: string)
    requires Blanks(before) && Clean(value) && Blanks(behind) && LineEnd(end)
    ensures TrimRight(CutEol(SkipBlanks(before + (value + (behind + end))))) == value
  {
    hide SkipBlanks, TrimRight, CutEol;
    assert end != "" ==> !IsBlank(end[0]);
    if value == "" {
      assert before + (value + (behind + end)) == (before + behind) + end;
      SkipBlanksOf(before + behind, end);
      CutEolOf("", end);
      assert "" + end == end;
      TrimRightOf("", "");
      assert "" + "" == "";
    } else {
      SkipBlanksOf(before, value + (behind + end));
      assert value + (behind + end) == (value + behind) + end;
      CutEolOf(value + behind, end);
      TrimRightOf(value, behind);
    }
  }

  /** An assignment, with blanks wherever they may be, is its key and its value. */
  lemma {:induction false} LineOfAssignment(indent: string, key: string, left: string, right: string, value: string,
                                            behind: string, end: string)
    requires Blanks(indent) && Blanks(left) && Blanks(right) && Blanks(behind) && LineEnd(end)
    requires KeyText(key) && Clean(value)
    ensures ParseLine(indent + ((key + left) + ("=" + (right + (value + (behind + end)))))) == Assignment(key, value)
  {
    hide SkipBlanks, TrimRight, CutEol, IndexOf, Clean;
    var rest := right + (value + (behind + end));
    var t := (key + left) + ("=" + rest);
    assert t[0] == key[0];
    SkipBlanksOf(indent, t);
    assert '=' !in left;
    IndexOfFirst(key + left, "=" + rest, '=');
    assert t[..|key + left|] == key + left && t[|key + left| + 1..] == rest;
    TrimRightOf(key, left);
    ValueTrimmed(right, value, behind, end);
  }

  /** A section header is its name up to the first bracket, whatever comes behind it. */
  lemma {:induction false} LineOfHeader(indent: string, name: string, rest: string)
    requires Blanks(indent) && ']' !in name
    ensures ParseLine(indent + (("[" + name) + ("]" + rest))) == Header(if |name| < 32 then name else name[..31])
  {
    hide SkipBlanks, IndexOf;
    var t := ("[" + name) + ("]" + rest);
    assert t[0] == '[';
    SkipBlanksOf(indent, t);
    IndexOfFirst("[" + name, "]" + rest, ']');
    assert t[1..|name| + 1] == name;
  }

  /** The lines passed over: blank ones, comments, and those without the bracket or the equals sign they need. */
  lemma {:induction false} IgnoredExactly(indent: string, t: string)
    requires Blanks(indent) && (t == "" || !IsBlank(t[0]))
    ensures ParseLine(indent + t) == Ignored <==>
              t == "" || t[0] == ';' || t[0] == '\r' || t[0] == '\n' || (if t[0] == '[' then ']' else '=') !in t
  {
    hide SkipBlanks, TrimRight, CutEol, Stored;
    SkipBlanksOf(indent, t);
  }

  // ----- the specification: which assignment counts -----

  /** The section in force after the lines. */
  function SectionAfter(lines: seq<string>): string {
    if lines == [] then ""
    else
      match ParseLine(lines[|lines| - 1])
      case Header(name) => name
      case _ => SectionAfter(lines[..|lines| - 1])
  }

  /** Line i assigns an acceptable value to the field. */
  function Assigned(lines: seq<string>, i: nat, f: Field): Option<Value>
    requires i < |lines|
  {
    match ParseLine(lines[i])
    case Assignment(key, value) =>
      if SectionAfter(lines[..i]) == SectionOf(f) && key == KeyOf(f) then Accept(f, value) else None
    case _ => None
  }

  /** The field has the value of the last line that assigns to it, or its default. */
  ghost predicate LastAssignmentWins(lines: seq<string>, f: Field, v: Value) {
    && ((forall i :: 0 <= i < |lines| ==> Assigned(lines, i, f).None?) ==> v == Get(DEFAULTS, f))
    && (forall i :: 0 <= i < |lines| && Assigned(lines, i, f).Some?
                    && (forall j :: i < j < |lines| ==> Assigned(lines, j, f).None?)
                    ==> v == Assigned(lines, i, f).value)
  }

  // ----- the parser -----

  function StoreHardware(c: Config, key: string, v: string): Config {
    if key == "i2c_port" then c.(i2cPort := if v != "" && v[0] == 'A' then 'A' else 'B')
    else if key == "display_brightness" then
      var b := Atoi(v) % 0x100; if 0 < b <= 100 then c.(brightness := b) else c
    else if key == "display_timeout" then
      var t := Atoi(v) % 0x1_0000; if t > 0 then c.(timeout := t) else c
    else c
  }

  function StoreMqtt(c: Config, key: string, v: string): Config {
    if key == "host" then c.(host := Stored(v, 128))
    else if key == "port" then c.(port := Atoi(v) % 0x1_0000)
    else if key == "qos" then
      var q := Atoi(v) % 0x100; if q <= 2 then c.(qos := q) else c
    else if key == "keep_alive" then
      var k := Atoi(v) % 0x1_0000; if k > 0 then c.(keepAlive := k) else c
    else if key == "ca_cert" then c.(mqttCa := Stored(v, 32))
    else if key == "user" then c.(user := Stored(v, 32))
    else if key == "password" then c.(password := Stored(v, 64))
    else if key == "client_cert" then c.(clientCert := Stored(v, 32))
    else if key == "client_key" then c.(clientKey := Stored(v, 32))
    else if key == "topic" then c.(topic := Stored(v, 64))
    else if key == "publish_freq" then
      var p := Atoi(v) % 0x1_0000; if p > 0 then c.(publishFreq := p) else c
    else c
  }

  function StoreWifi(c: Config, key: string, v: string): Config {
    if key == "ssid" then c.(ssid := Stored(v, 32))
    else if key == "password" then c.(wifiPassword := Stored(v, 64))
    else c
  }

  /** The assignment chain of the source. */
  function Store(c: Config, section: string, key: string, v: string): Config {
    if section == "config" && key == "version" then c.(version := Strtoul(v))
    else if section == "hardware" then StoreHardware(c, key, v)
    else if section == "wifi" then StoreWifi(c, key, v)
    else if section == "ota" then
      if key == "ca_cert" then c.(otaCa := Stored(v, 32)) else c
    else if section == "mqtt" then StoreMqtt(c, key, v)
    else c
  }

  function MqttField(key: string): Option<Field> {
    if key == "host" then Some(Host)
    else if key == "port" then Some(Port)
    else if key == "qos" then Some(Qos)
    else if key == "keep_alive" then Some(KeepAlive)
    else if key == "ca_cert" then Some(MqttCa)
    else if key == "user" then Some(User)
    else if key == "password" then Some(Password)
    else if key == "client_cert" then Some(ClientCert)
    else if key == "client_key" then Some(ClientKey)
    else if key == "topic" then Some(Topic)
    else if key == "publish_freq" then Some(PublishFreq)
    else None
  }

  function HardwareField(key: string): Option<Field> {
    if key == "i2c_port" then Some(I2cPort)
    else if key == "display_brightness" then Some(Brightness)
    else if key == "display_timeout" then Some(Timeout)
    else None
  }

  function WifiField(key: string): Option<Field> {
    if key == "ssid" then Some(Ssid) else if key == "password" then Some(WifiPassword) else None
  }

  /** The field that a section and a key name. */
  function FieldNamed(section: string, key: string): Option<Field> {
    if section == "config" && key == "version" then Some(Version)
    else if section == "hardware" then HardwareField(key)
    else if section == "wifi" then WifiField(key)
    else if section == "ota" then if key == "ca_cert" then Some(OtaCa) else None
    else if section == "mqtt" then MqttField(key)
    else None
  }

  function Put(c: Config, f: Field, v: Value): Config
    requires ValueFits(f, v)
  {
    match f
    case Version => c.(version := v.n)
    case I2cPort => c.(i2cPort := v.c)
    case Brightness => c.(brightness := v.n)
    case Timeout => c.(timeout := v.n)
    case Ssid => c.(ssid := v.s)
    case WifiPassword => c.(wifiPassword := v.s)
    case OtaCa => c.(otaCa := v.s)
    case Host => c.(host := v.s)
    case Port => c.(port := v.n)
    case Qos => c.(qos := v.n)
    case KeepAlive => c.(keepAlive := v.n)
    case MqttCa => c.(mqttCa := v.s)
    case User => c.(user := v.s)
    case Password => c.(password := v.s)
    case ClientCert => c.(clientCert := v.s)
    case ClientKey => c.(clientKey := v.s)
    case Topic => c.(topic := v.s)
    case PublishFreq => c.(publishFreq := v.n)
  }

  predicate ValueFits(f: Field, v: Value) {
    match f
    case Version | Brightness | Timeout | Port | Qos | KeepAlive | PublishFreq => v.Num?
    case I2cPort => v.Letter?
    case _ => v.Text?
  }

  lemma AcceptFits(f: Field, v: string)
    ensures Accept(f, v).Some? ==> ValueFits(f, Accept(f, v).value)
  {
  }

  lemma PutGet(c: Config, f: Field, v: Value, g: Field)
    requires ValueFits(f, v)
    ensures Get(Put(c, f, v), g) == if f == g then v else Get(c, g)
  {
  }

  /** Storing the value if the field accepts it. */
  function Update(c: Config, field: Option<Field>, v: string): Config {
    match field
    case None => c
    case Some(f) => if Accept(f, v).Some? then AcceptFits(f, v); Put(c, f, Accept(f, v).value) else c
  }

  /** What storing an acceptable value means for the number fields of the last section. */
  lemma MqttNumberUpdates(c: Config, v: string)
    ensures Update(c, Some(Port), v) == c.(port := Atoi(v) % 0x1_0000)
    ensures Update(c, Some(Qos), v) == if Atoi(v) % 0x100 <= 2 then c.(qos := Atoi(v) % 0x100) else c
    ensures Update(c, Some(KeepAlive), v) == if Atoi(v) % 0x1_0000 > 0 then c.(keepAlive := Atoi(v) % 0x1_0000) else c
    ensures Update(c, Some(PublishFreq), v)
            == if Atoi(v) % 0x1_0000 > 0 then c.(publishFreq := Atoi(v) % 0x1_0000) else c
    ensures Update(c, None, v) == c
  {
    hide Atoi, Strtoul, Stored;
  }

  /** ... and for its text fields. */
  lemma MqttTextUpdates(c: Config, v: string)
    ensures Update(c, Some(Host), v) == c.(host := Stored(v, 128))
    ensures Update(c, Some(MqttCa), v) == c.(mqttCa := Stored(v, 32))
    ensures Update(c, Some(User), v) == c.(user := Stored(v, 32))
    ensures Update(c, Some(Password), v) == c.(password := Stored(v, 64))
  {
    hide Atoi, Strtoul, Stored;
  }

  lemma MqttFileUpdates(c: Config, v: string)
    ensures Update(c, Some(ClientCert), v) == c.(clientCert := Stored(v, 32))
    ensures Update(c, Some(ClientKey), v) == c.(clientKey := Stored(v, 32))
    ensures Update(c, Some(Topic), v) == c.(topic := Stored(v, 64))
  {
    hide Atoi, Strtoul, Stored;
  }

  lemma StoreMqttIsUpdate(c: Config, key: string, v: string)
    ensures StoreMqtt(c, key, v) == Update(c, MqttField(key), v)
  {
    MqttNumberUpdates(c, v);
    MqttTextUpdates(c, v);
    MqttFileUpdates(c, v);
    hide Atoi, Strtoul, Stored, Update;
  }

  lemma StoreOthersAreUpdates(c: Config, key: string, v: string)
    ensures StoreHardware(c, key, v) == Update(c, HardwareField(key), v)
    ensures StoreWifi(c, key, v) == Update(c, WifiField(key), v)
  {
    hide Atoi, Strtoul, Stored;
  }

  lemma UpdateOfVersionAndOta(c: Config, v: string)
    ensures Update(c, Some(Version), v) == c.(version := Strtoul(v))
    ensures Update(c, Some(OtaCa), v) == c.(otaCa := Stored(v, 32))
    ensures Update(c, None, v) == c
  {
  }

  /** The chain stores an accepted value into the field that section and key name. */
  lemma StoreIsUpdate(c: Config, section: string, key: string, v: string)
    ensures Store(c, section, key, v) == Update(c, FieldNamed(section, key), v)
  {
    StoreOthersAreUpdates(c, key, v);
    StoreMqttIsUpdate(c, key, v);
    UpdateOfVersionAndOta(c, v);
    hide Update, StoreMqtt, MqttField, StoreHardware, HardwareField, StoreWifi, WifiField;
  }

  lemma SectionsDiffer()
    ensures "config" != "hardware" && "config" != "wifi" && "config" != "ota" && "config" != "mqtt"
    ensures "hardware" != "wifi" && "hardware" != "ota" && "hardware" != "mqtt"
    ensures "wifi" != "ota" && "wifi" != "mqtt" && "ota" != "mqtt"
  {
    assert "wifi"[0] != "mqtt"[0];
  }

  lemma KeyNames(f: Field)
    ensures FieldNamed(SectionOf(f), KeyOf(f)) == Some(f)
  {
    SectionsDiffer();
    assert "host"[0] != "port"[0] && "host"[0] != "user"[0] && "port"[0] != "user"[0];
    assert "i2c_port"[0] == 'i' && "password"[0] == 'p';
    assert "keep_alive"[0] != "client_key"[0];
  }

  lemma NamedField(section: string, key: string)
    ensures FieldNamed(section, key).Some? ==>
              SectionOf(FieldNamed(section, key).value) == section && KeyOf(FieldNamed(section, key).value) == key
  {
  }

  lemma FieldNamedExactly(section: string, key: string, f: Field)
    ensures FieldNamed(section, key) == Some(f) <==> section == SectionOf(f) && key == KeyOf(f)
  {
    KeyNames(f);
    NamedField(section, key);
    hide FieldNamed, SectionOf, KeyOf;
  }

  /** The chain treats each field by its own section and key, and touches no other. */
  lemma StoreGet(c: Config, section: string, key: string, v: string, f: Field)
    ensures Get(Store(c, section, key, v), f)
            == if section == SectionOf(f) && key == KeyOf(f) && Accept(f, v).Some? then Accept(f, v).value
               else Get(c, f)
  {
    StoreIsUpdate(c, section, key, v);
    var named := FieldNamed(section, key);
    FieldNamedExactly(section, key, f);
    hide Store, FieldNamed, Put, Get, Accept, SectionOf, KeyOf;
    if named.Some? && Accept(named.value, v).Some? {
      AcceptFits(named.value, v);
      PutGet(c, named.value, Accept(named.value, v).value, f);
    }
  }

  // ----- whole files -----

  datatype State = State(section: string, config: Config)

  const START := State("", DEFAULTS)

  function Step(st: State, line: string): State {
    match ParseLine(line)
    case Ignored => st
    case Header(name) => st.(section := name)
    case Assignment(key, v) => st.(config := Store(st.config, st.section, key, v))
  }

  function Run(st: State, lines: seq<string>): State {
    if lines == [] then st else Step(Run(st, lines[..|lines| - 1]), lines[|lines| - 1])
  }

  lemma {:induction false} RunSection(lines: seq<string>)
    ensures Run(START, lines).section == SectionAfter(lines)
    decreases |lines|
  {
    if lines != [] {
      RunSection(lines[..|lines| - 1]);
    }
  }

  lemma AssignedPrefix(lines: seq<string>, n: nat, i: nat, f: Field)
    requires i < n <= |lines|
    ensures Assigned(lines[..n], i, f) == Assigned(lines, i, f)
  {
    assert lines[..n][..i] == lines[..i];
  }

  /** What the last line does to a field. */
  lemma {:induction false} LastLine(lines: seq<string>, f: Field)
    requires lines != []
    ensures var n := |lines| - 1;
            Get(Run(START, lines).config, f)
            == if Assigned(lines, n, f).Some? then Assigned(lines, n, f).value
               else Get(Run(START, lines[..n]).config, f)
  {
    var n := |lines| - 1;
    RunSection(lines[..n]);
    var st := Run(START, lines[..n]);
    hide Store, Accept, Get, SectionOf, KeyOf, ParseLine;
    match ParseLine(lines[n]) {
      case Assignment(key, v) => StoreGet(st.config, st.section, key, v, f);
      case _ =>
    }
  }

  /** For every sequence of lines, each field ends with its last acceptable assignment, or its default. */
  lemma {:induction false} LastWins(lines: seq<string>, f: Field)
    ensures LastAssignmentWins(lines, f, Get(Run(START, lines).config, f))
    decreases |lines|
  {
    if lines != [] {
      var n := |lines| - 1;
      var front := lines[..n];
      LastWins(front, f);
      LastLine(lines, f);
      hide Run, Get, Assigned;
      forall i | 0 <= i < n ensures Assigned(front, i, f) == Assigned(lines, i, f) {
        AssignedPrefix(lines, n, i, f);
      }
      LastStep(lines, f, Get(Run(START, front).config, f), Get(Run(START, lines).config, f));
    }
  }

  /** No line assigns to the field, so none of the lines before the last does. */
  lemma NoneBefore(lines: seq<string>, f: Field)
    requires lines != [] && forall i :: 0 <= i < |lines| ==> Assigned(lines, i, f).None?
    requires forall i :: 0 <= i < |lines| - 1 ==> Assigned(lines[..|lines| - 1], i, f) == Assigned(lines, i, f)
    ensures Assigned(lines, |lines| - 1, f).None?
    ensures var front := lines[..|lines| - 1];
            forall i :: 0 <= i < |front| ==> Assigned(front, i, f).None?
  {
    hide Assigned;
    var front := lines[..|lines| - 1];
    forall i | 0 <= i < |front| ensures Assigned(front, i, f).None? {
      assert Assigned(lines, i, f).None?;
    }
  }

  /** Line i is the last one that assigns to the field, and not the last one, so it is that of the lines before. */
  lemma LatestBefore(lines: seq<string>, f: Field, i: nat)
    requires i < |lines| - 1 && Assigned(lines, i, f).Some?
    requires forall j :: i < j < |lines| ==> Assigned(lines, j, f).None?
    requires forall j :: 0 <= j < |lines| - 1 ==> Assigned(lines[..|lines| - 1], j, f) == Assigned(lines, j, f)
    ensures var front := lines[..|lines| - 1];
            && Assigned(lines, |lines| - 1, f).None?
            && Assigned(front, i, f) == Assigned(lines, i, f)
            && forall j :: i < j < |front| ==> Assigned(front, j, f).None?
  {
    hide Assigned;
    var front := lines[..|lines| - 1];
    assert Assigned(lines, |lines| - 1, f).None?;
    forall j | i < j < |front| ensures Assigned(front, j, f).None? {
      assert Assigned(lines, j, f).None?;
    }
  }

  lemma LastStep(lines: seq<string>, f: Field, before: Value, after: Value)
    requires lines != [] && LastAssignmentWins(lines[..|lines| - 1], f, before)
    requires forall i :: 0 <= i < |lines| - 1 ==> Assigned(lines[..|lines| - 1], i, f) == Assigned(lines, i, f)
    requires var last := Assigned(lines, |lines| - 1, f); after == if last.Some? then last.value else before
    ensures LastAssignmentWins(lines, f, after)
  {
    hide Assigned, Get, LastAssignmentWins;
    var front := lines[..|lines| - 1];
    if forall i :: 0 <= i < |lines| ==> Assigned(lines, i, f).None? {
      NoneBefore(lines, f);
      DefaultWins(front, f, before);
    }
    forall i | 0 <= i < |lines| && Assigned(lines, i, f).Some?
               && forall j :: i < j < |lines| ==> Assigned(lines, j, f).None?
      ensures after == Assigned(lines, i, f).value
    {
      if i < |lines| - 1 {
        LatestBefore(lines, f, i);
        LatestWins(front, f, before, i);
      }
    }
    WinsIntro(lines, f, after);
  }

  lemma DefaultWins(lines: seq<string>, f: Field, v: Value)
    requires LastAssignmentWins(lines, f, v) && forall i :: 0 <= i < |lines| ==> Assigned(lines, i, f).None?
    ensures v == Get(DEFAULTS, f)
  {
    hide Assigned, Get;
  }

  lemma LatestWins(lines: seq<string>, f: Field, v: Value, i: nat)
    requires LastAssignmentWins(lines, f, v) && i < |lines| && Assigned(lines, i, f).Some?
    requires forall j :: i < j < |lines| ==> Assigned(lines, j, f).None?
    ensures v == Assigned(lines, i, f).value
  {
    hide Assigned, Get;
  }

  lemma WinsIntro(lines: seq<string>, f: Field, v: Value)
    requires (forall i :: 0 <= i < |lines| ==> Assigned(lines, i, f).None?) ==> v == Get(DEFAULTS, f)
    requires forall i :: 0 <= i < |lines| && Assigned(lines, i, f).Some?
                         && (forall j :: i < j < |lines| ==> Assigned(lines, j, f).None?)
                         ==> v == Assigned(lines, i, f).value
    ensures LastAssignmentWins(lines, f, v)
  {
    hide Assigned, Get;
  }

  // ----- ranges -----

  /** The value fits the field's C type or buffer, and is positive where zero is refused. */
  predicate FieldInRange(f: Field, v: Value) {
    && ValueFits(f, v)
    && match f
       case Version => 0 <= v.n < 0x1_0000_0000
       case I2cPort => v.c == 'A' || v.c == 'B'
       case Brightness => 1 <= v.n <= 100
       case Qos => 0 <= v.n <= 2
       case Port => 0 <= v.n <= 0xFFFF
       case Timeout | KeepAlive | PublishFreq => 1 <= v.n <= 0xFFFF
       case _ => |v.s| < Size(f) && '\0' !in v.s
  }

  ghost predicate InRange(c: Config) {
    forall f :: FieldInRange(f, Get(c, f))
  }

  lemma AcceptInRange(f: Field, v: string)
    requires '\0' !in v
    ensures Accept(f, v).Some? ==> FieldInRange(f, Accept(f, v).value)
  {
    hide Signed, Atoi;
    assert '\0' !in Stored(v, Size(f));
  }

  /** The texts are the same as far as the field's type shows: modulo 2^8 or 2^16, or up to the buffer size. */
  predicate SameReading(f: Field, v: string, w: string) {
    match f
    case Version => Strtoul(v) == Strtoul(w)
    case I2cPort => (v != "" && v[0] == 'A') == (w != "" && w[0] == 'A')
    case Brightness | Qos => Atoi(v) % 0x100 == Atoi(w) % 0x100
    case Port | Timeout | KeepAlive | PublishFreq => Atoi(v) % 0x1_0000 == Atoi(w) % 0x1_0000
    case _ => Stored(v, Size(f)) == Stored(w, Size(f))
  }

  /** Such texts are stored alike or refused alike: a number is cut to the width of its field before it is tested. */
  lemma AcceptBySameReading(f: Field, v: string, w: string)
    requires SameReading(f, v, w)
    ensures Accept(f, v) == Accept(f, w)
  {
    hide Atoi, Strtoul, Stored;
  }

  lemma UpdateInRange(c: Config, field: Option<Field>, v: string)
    requires InRange(c) && '\0' !in v
    ensures InRange(Update(c, field, v))
  {
    hide Accept, Put, Get, FieldInRange;
    if field.Some? && Accept(field.value, v).Some? {
      AcceptFits(field.value, v);
      AcceptInRange(field.value, v);
      forall g ensures FieldInRange(g, Get(Update(c, field, v), g)) {
        PutGet(c, field.value, Accept(field.value, v).value, g);
      }
    }
  }

  lemma {:induction false} NoNulInside(s: string)
    requires '\0' !in s
    ensures '\0' !in SkipBlanks(s) && '\0' !in TrimRight(s) && '\0' !in CutEol(s)
    decreases |s|
  {
    if s != "" {
      NoNulInside(s[1..]);
      NoNulInside(s[..|s| - 1]);
    }
  }

  lemma {:induction false} RunInRange(lines: seq<string>)
    requires forall l :: l in lines ==> '\0' !in l
    ensures InRange(Run(START, lines).config)
    decreases |lines|
  {
    if lines != [] {
      var n := |lines| - 1;
      RunInRange(lines[..n]);
      var st := Run(START, lines[..n]);
      assert lines[n] in lines;
      ValueHasNoNul(lines[n]);
      hide InRange, ParseLine, Store, Update, FieldNamed;
      match ParseLine(lines[n]) {
        case Assignment(key, v) =>
          StoreIsUpdate(st.config, st.section, key, v);
          UpdateInRange(st.config, FieldNamed(st.section, key), v);
        case _ =>
      }
    }
  }

  lemma {:induction false} LinesHaveNoNul(s: string)
    ensures forall l :: l in Lines(s) ==> '\0' !in l
    decreases |s|
  {
    if s != "" {
      LinesHaveNoNul(s[|Chunk(s, LINE_SIZE - 1)|..]);
    }
  }

  lemma ValueHasNoNul(line: string)
    requires '\0' !in line
    ensures ParseLine(line).Assignment? ==> '\0' !in ParseLine(line).value
  {
    hide SkipBlanks, TrimRight, CutEol, IndexOf;
    NoNulInside(line);
    var t := SkipBlanks(line);
    var eq := IndexOf(t, '=');
    if eq.Some? {
      ValueOfNoNul(t, eq.value + 1);
    }
  }

  lemma ValueOfNoNul(t: string, i: nat)
    requires i <= |t| && '\0' !in t
    ensures '\0' !in TrimRight(CutEol(SkipBlanks(t[i..])))
  {
    hide SkipBlanks, TrimRight, CutEol;
    var value := t[i..];
    assert forall k :: 0 <= k < |value| ==> value[k] == t[i + k];
    NoNulInside(value);
    NoNulInside(SkipBlanks(value));
    NoNulInside(CutEol(SkipBlanks(value)));
  }

  lemma {:induction false} RunAppend(lines: seq<string>, line: string)
    ensures Run(START, []) == START
    ensures Run(START, lines + [line]) == Step(Run(START, lines), line)
  {
    assert (lines + [line])[..|lines|] == lines;
  }

  /** The first line of a text, and the lines of the rest. */
  lemma {:induction false} NextLine(s: string)
    ensures s == "" ==> Lines(s) == []
    ensures s != "" ==> var chunk := Chunk(s, LINE_SIZE - 1);
                        chunk != "" && Lines(s) == [CText(chunk)] + Lines(s[|chunk|..])
  {
  }

  // ----- the parser -----

  class Parser {
    var config: Config
    var section: string

    constructor ()
      ensures config == DEFAULTS && section == ""
    {
      config, section := DEFAULTS, "";
    }

    static method TrimEnd(s: string) returns (n: nat)
      ensures n <= |s| && s[..n] == TrimRight(s)
    {
      n := |s|;
      assert s[..n] == s;
      while n > 0 && IsBlank(s[n - 1])
        invariant n <= |s| && TrimRight(s[..n]) == TrimRight(s)
      {
        assert s[..n][..n - 1] == s[..n - 1];
        n := n - 1;
      }
    }

    static method TrimStart(s: string) returns (i: nat)
      ensures i <= |s| && s[i..] == SkipBlanks(s)
    {
      i := 0;
      while i < |s| && IsBlank(s[i])
        invariant i <= |s| && SkipBlanks(s[i..]) == SkipBlanks(s)
      {
        i := i + 1;
      }
    }

    /** One line: comments and lines without a bracket or an equals sign are passed over. */
    static method Classify(line: string) returns (r: Line)
      ensures r == ParseLine(line)
    {
      var start := TrimStart(line);
      var trim := line[start..];
      if trim == "" || trim[0] == ';' || trim[0] == '\n' || trim[0] == '\r' {
        return Ignored;
      }
      if trim[0] == '[' {
        var end := IndexOf(trim, ']');
        if end.Some? {
          return Header(Stored(trim[1..end.value], SECTION_SIZE));
        }
        return Ignored;
      }
      var eq := IndexOf(trim, '=');
      if eq.None? {
        return Ignored;
      }
      var key := trim[..eq.value];
      var rtrim := TrimEnd(key);
      key := key[..rtrim];
      var value := trim[eq.value + 1..];
      var skip := TrimStart(value);
      value := CutEol(value[skip..]);
      rtrim := TrimEnd(value);
      return Assignment(key, value[..rtrim]);
    }

    /** parse_config_file; None is a file that cannot be opened. */
    method ParseFile(content: Option<string>) returns (err: Option<Error>)
      modifies this
      ensures content.None? ==> err == Some(Fail) && config == old(config)
      ensures content.Some? ==>
                && config == Run(START, Lines(content.value)).config
                && (forall f :: LastAssignmentWins(Lines(content.value), f, Get(config, f)))
                && InRange(config)
                && err == if config.version != 1 then Some(InvalidVersion) else None
    {
      hide Store, ParseLine, Lines, Chunk, CText, Get, Run, LastAssignmentWins, InRange;
      if content.None? {
        return Some(Fail);
      }
      config, section := DEFAULTS, "";
      RunAppend([], "");
      NextLine(content.value);
      var rest := content.value;
      ghost var done: seq<string> := [];
      while rest != ""
        invariant State(section, config) == Run(START, done)
        invariant done + Lines(rest) == Lines(content.value)
        decreases |rest|
      {
        var chunk := Chunk(rest, LINE_SIZE - 1);
        var line := CText(chunk);
        NextLine(rest);
        RunAppend(done, line);
        var r := Classify(line);
        assert done + ([line] + Lines(rest[|chunk|..])) == (done + [line]) + Lines(rest[|chunk|..]);
        match r {
          case Ignored =>
          case Header(name) => section := name;
          case Assignment(key, value) => config := Store(config, section, key, value);
        }
        done := done + [line];
        rest := rest[|chunk|..];
      }
      NextLine("");
      assert done + [] == done;
      LinesHaveNoNul(content.value);
      RunInRange(done);
      forall f ensures LastAssignmentWins(Lines(content.value), f, Get(config, f)) {
        LastWins(done, f);
      }
      if config.version != 1 {
        return Some(InvalidVersion);
      }
      return None;
    }
  }
}
