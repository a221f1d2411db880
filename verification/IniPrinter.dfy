/** Writing a configuration as a file that parses back to it. */
module IniPrinter {
  import opened Wrappers
  import opened IniText
  import opened IniParser

  /** Values in range, and texts that survive trimming and line ends. */
  ghost predicate Printable(c: Config) {
    InRange(c) && forall f :: Get(c, f).Text? ==> Clean(Get(c, f).s)
  }

  function PrintValue(v: Value): string
  {
    match v
    case Num(n) => if n < 0 then "" else Decimal(n)
    case Letter(c) => [c]
    case Text(s) => s
  }

  lemma {:induction false} DecimalFits(n: nat)
    requires n < 0x1_0000_0000
    ensures |Decimal(n)| <= 10
  {
    assert Power10(4) == 10000;
    assert Power10(7) == 10000000;
    assert Power10(10) == 10000000000;
    DecimalShort(n, 10, 10000000000);
  }

  lemma {:induction false} RangeAccepted(n: nat, modulus: nat, low: int, high: int)
    requires modulus == 0x100 || modulus == 0x1_0000
    requires low <= n <= high < modulus
    ensures UnsignedInRange(Decimal(n), modulus, low, high) == Some(Num(n))
  {
    DecimalReadsBack(n);
    hide Atoi, Decimal, Clean, Strtoul;
    assert n % modulus == n by {
      if modulus == 0x100 { assert n % 0x100 == n; } else { assert n % 0x1_0000 == n; }
    }
  }

  lemma {:induction false} NumberAccepted(f: Field, n: int)
    requires FieldInRange(f, Num(n))
    ensures 0 <= n < 0x1_0000_0000 && Accept(f, Decimal(n)) == Some(Num(n))
  {
    hide UnsignedInRange, Strtoul, Decimal;
    match f {
      case Version => DecimalReadsBack(n);
      case Brightness => RangeAccepted(n, 0x100, 1, 100);
      case Qos => RangeAccepted(n, 0x100, 0, 2);
      case Port => RangeAccepted(n, 0x1_0000, 0, 0xFFFF);
      case Timeout | KeepAlive | PublishFreq => RangeAccepted(n, 0x1_0000, 1, 0xFFFF);
      case _ =>
    }
  }

  lemma PrintableValue(c: Config, f: Field)
    requires Printable(c)
    ensures Get(c, f).Num? ==> 0 <= Get(c, f).n
    ensures Clean(PrintValue(Get(c, f))) && |PrintValue(Get(c, f))| < 128
    ensures Accept(f, PrintValue(Get(c, f))) == Some(Get(c, f))
  {
    assert FieldInRange(f, Get(c, f));
    hide Get;
    match Get(c, f) {
      case Num(n) =>
        NumberAccepted(f, n);
        DecimalFits(n);
        DecimalReadsBack(n);
      case _ =>
        hide Atoi, Strtoul, Decimal;
    }
  }

  predicate IsWordChar(c: char) { 'a' <= c <= 'z' || '0' <= c <= '9' || c == '_' }

  ghost predicate Word(s: string) { 0 < |s| < 32 && forall c :: c in s ==> IsWordChar(c) }

  lemma NamesAreWords(f: Field)
    ensures Word(KeyOf(f)) && Word(SectionOf(f))
  {
    KeyIsWord(f);
    SectionIsWord(f);
    hide Word;
  }

  lemma KeyIsWord(f: Field)
    ensures Word(KeyOf(f))
  {
  }

  lemma SectionIsWord(f: Field)
    ensures Word(SectionOf(f))
  {
  }

  /**
   * How a field is laid out in the file: the lines passed over before it, the blanks around its key and its value,
   * and the line end.
   */
  datatype Layout = Layout(before: seq<string>, indent: string, left: string, right: string, behind: string,
                           end: string)

  function FieldLine(c: Config, f: Field, l: Layout): string
  {
    l.indent + ((KeyOf(f) + l.left) + ("=" + (l.right + (PrintValue(Get(c, f)) + (l.behind + l.end)))))
  }

  function HeaderLine(f: Field, l: Layout): string
  {
    l.indent + (("[" + SectionOf(f)) + ("]" + (l.behind + l.end)))
  }

  /** Blanks where they may be, a line end of either kind, and lines that fit the buffer. */
  ghost predicate Fits(c: Config, f: Field, l: Layout) {
    && Blanks(l.indent) && Blanks(l.left) && Blanks(l.right) && Blanks(l.behind) && (l.end == "\n" || l.end == "\r\n")
    && |FieldLine(c, f, l)| < LINE_SIZE && |HeaderLine(f, l)| < LINE_SIZE
    && forall x :: x in l.before ==> WholeLine(x) && ParseLine(x) == Ignored
  }

  predicate OneLine(s: string) { forall c :: c in s ==> c != '\n' && c != '\0' }

  lemma OneLineConcat(a: string, b: string)
    requires OneLine(a) && OneLine(b)
    ensures OneLine(a + b)
  {
  }

  lemma BlanksAreOneLine(b: string)
    requires Blanks(b)
    ensures OneLine(b)
  {
  }

  lemma LineIsWhole(front: string, end: string)
    requires end == "\n" || end == "\r\n"
    requires |front + end| < LINE_SIZE && OneLine(front)
    ensures WholeLine(front + end)
  {
    var line := front + end;
    assert line[..|line| - 1] == front + end[..|end| - 1];
  }

  lemma WordEnds(key: string)
    requires Word(key)
    ensures KeyText(key) && ']' !in key
  {
    assert key[0] in key && key[|key| - 1] in key;
  }

  /** The line of a field parses to its key and value. */
  lemma {:induction false} FieldLineParses(c: Config, f: Field, l: Layout)
    requires Printable(c) && Fits(c, f, l)
    ensures ParseLine(FieldLine(c, f, l)) == Assignment(KeyOf(f), PrintValue(Get(c, f)))
  {
    NamesAreWords(f);
    PrintableValue(c, f);
    hide ParseLine, KeyText, Word, Printable, Accept, PrintValue, Get, KeyOf, WholeLine;
    WordEnds(KeyOf(f));
    LineOfAssignment(l.indent, KeyOf(f), l.left, l.right, PrintValue(Get(c, f)), l.behind, l.end);
  }

  /** fgets reads the line in one piece. */
  lemma {:induction false} FieldLineIsWhole(c: Config, f: Field, l: Layout)
    requires Printable(c) && Fits(c, f, l)
    ensures WholeLine(FieldLine(c, f, l))
  {
    var key, value := KeyOf(f), PrintValue(Get(c, f));
    NamesAreWords(f);
    PrintableValue(c, f);
    assert OneLine(key) && OneLine(value) && OneLine("=");
    hide ParseLine, Word, Printable, WholeLine, Accept, PrintValue, Get, KeyOf, Clean, OneLine;
    BlanksAreOneLine(l.indent);
    BlanksAreOneLine(l.left);
    BlanksAreOneLine(l.right);
    BlanksAreOneLine(l.behind);
    hide Blanks;
    OneLineConcat(value, l.behind);
    OneLineConcat(l.right, value + l.behind);
    OneLineConcat("=", l.right + (value + l.behind));
    OneLineConcat(key, l.left);
    OneLineConcat(key + l.left, "=" + (l.right + (value + l.behind)));
    OneLineConcat(l.indent, (key + l.left) + ("=" + (l.right + (value + l.behind))));
    var front := l.indent + ((key + l.left) + ("=" + (l.right + (value + l.behind))));
    FrontAndEnd(l.indent, key + l.left, "=", l.right, value, l.behind, l.end);
    LineIsWhole(front, l.end);
  }

  lemma FrontAndEnd(a: string, b: string, c: string, d: string, e: string, f: string, end: string)
    ensures a + (b + (c + (d + (e + f)))) + end == a + (b + (c + (d + (e + (f + end)))))
  {
    assert (e + f) + end == e + (f + end);
    assert (d + (e + f)) + end == d + (e + (f + end));
    assert (c + (d + (e + f))) + end == c + (d + (e + (f + end)));
    assert (b + (c + (d + (e + f)))) + end == b + (c + (d + (e + (f + end))));
  }

  /** The line of a header parses to the name of the section. */
  lemma {:induction false} HeaderLineParses(c: Config, f: Field, l: Layout)
    requires Fits(c, f, l)
    ensures ParseLine(HeaderLine(f, l)) == Header(SectionOf(f))
  {
    NamesAreWords(f);
    assert Stored(SectionOf(f), SECTION_SIZE) == SectionOf(f);
    hide ParseLine, Word, SectionOf, KeyText, WholeLine, Stored;
    WordEnds(SectionOf(f));
    LineOfHeader(l.indent, SectionOf(f), l.behind + l.end);
  }

  lemma {:induction false} HeaderLineIsWhole(c: Config, f: Field, l: Layout)
    requires Fits(c, f, l)
    ensures WholeLine(HeaderLine(f, l))
  {
    var name := SectionOf(f);
    NamesAreWords(f);
    assert OneLine(name) && OneLine("[") && OneLine("]");
    hide ParseLine, Word, WholeLine, SectionOf, OneLine;
    BlanksAreOneLine(l.indent);
    BlanksAreOneLine(l.behind);
    hide Blanks;
    OneLineConcat("[", name);
    OneLineConcat("]", l.behind);
    OneLineConcat("[" + name, "]" + l.behind);
    OneLineConcat(l.indent, ("[" + name) + ("]" + l.behind));
    FrontAndEnd("", l.indent, "[" + name, "]", "", l.behind, l.end);
    var front := l.indent + (("[" + name) + ("]" + l.behind));
    assert HeaderLine(f, l) == front + l.end;
    LineIsWhole(front, l.end);
  }

  // ----- the file -----

  /** The lines for the fields, with a header where the section changes. */
  function PrintFields(c: Config, section: string, fs: seq<Field>, layout: Field -> Layout): seq<string>
    decreases |fs|
  {
    if fs == [] then []
    else
      var f, l := fs[0], layout(fs[0]);
      l.before + ((if SectionOf(f) == section then [] else [HeaderLine(f, l)])
                  + ([FieldLine(c, f, l)] + PrintFields(c, SectionOf(f), fs[1..], layout)))
  }

  lemma {:induction false} RunConcat(st: State, a: seq<string>, b: seq<string>)
    ensures Run(st, a + b) == Run(Run(st, a), b)
    decreases |b|
  {
    if b == [] {
      assert a + b == a;
    } else {
      var n := |b| - 1;
      assert (a + b)[..|a + b| - 1] == a + b[..n];
      RunConcat(st, a, b[..n]);
    }
  }

  lemma {:induction false} RunOne(st: State, line: string)
    ensures Run(st, [line]) == Step(st, line)
  {
    assert [line][..0] == [];
  }

  lemma {:induction false} RunIgnored(st: State, lines: seq<string>)
    requires forall x :: x in lines ==> ParseLine(x) == Ignored
    ensures Run(st, lines) == st
    decreases |lines|
  {
    if lines != [] {
      RunIgnored(st, lines[..|lines| - 1]);
      assert lines[|lines| - 1] in lines;
    }
  }

  /** The lines of one field: those passed over, the header if the section changes, and the assignment. */
  lemma {:induction false} RunField(c: Config, st: State, f: Field, l: Layout, rest: seq<string>)
    requires Printable(c) && Fits(c, f, l)
    ensures var header := if SectionOf(f) == st.section then [] else [HeaderLine(f, l)];
            var after := State(SectionOf(f), Store(st.config, SectionOf(f), KeyOf(f), PrintValue(Get(c, f))));
            Run(st, l.before + (header + ([FieldLine(c, f, l)] + rest))) == Run(after, rest)
  {
    var header := if SectionOf(f) == st.section then [] else [HeaderLine(f, l)];
    var line := FieldLine(c, f, l);
    RunIgnored(st, l.before);
    RunConcat(st, l.before, header + ([line] + rest));
    HeaderLineParses(c, f, l);
    FieldLineParses(c, f, l);
    hide ParseLine, Store, Printable, Fits, FieldLine, HeaderLine, SectionOf, KeyOf, PrintValue, Get;
    RunOne(st, HeaderLine(f, l));
    var st1 := Run(st, header);
    assert st1 == st.(section := SectionOf(f));
    RunOne(st1, line);
    RunConcat(st, header, [line] + rest);
    RunConcat(st1, [line], rest);
  }

  lemma {:induction false} WholeLines(c: Config, st: State, f: Field, l: Layout, rest: seq<string>)
    requires Printable(c) && Fits(c, f, l) && forall x :: x in rest ==> WholeLine(x)
    ensures var header := if SectionOf(f) == st.section then [] else [HeaderLine(f, l)];
            forall x :: x in l.before + (header + ([FieldLine(c, f, l)] + rest)) ==> WholeLine(x)
  {
    HeaderLineIsWhole(c, f, l);
    FieldLineIsWhole(c, f, l);
    hide WholeLine, FieldLine, HeaderLine, ParseLine, Printable;
  }

  /** Printed lines set their fields and leave the others. */
  lemma {:induction false} RunPrinted(c: Config, st: State, fs: seq<Field>, layout: Field -> Layout)
    requires Printable(c) && forall f :: Fits(c, f, layout(f))
    ensures forall l :: l in PrintFields(c, st.section, fs, layout) ==> WholeLine(l)
    ensures forall f :: Get(Run(st, PrintFields(c, st.section, fs, layout)).config, f)
                        == if f in fs then Get(c, f) else Get(st.config, f)
    decreases |fs|
  {
    if fs != [] {
      var f0, l := fs[0], layout(fs[0]);
      assert Fits(c, f0, l);
      PrintableValue(c, f0);
      var rest := PrintFields(c, SectionOf(f0), fs[1..], layout);
      var after := State(SectionOf(f0), Store(st.config, SectionOf(f0), KeyOf(f0), PrintValue(Get(c, f0))));
      RunField(c, st, f0, l, rest);
      RunPrinted(c, after, fs[1..], layout);
      WholeLines(c, st, f0, l, rest);
      hide ParseLine, Store, Accept, WholeLine, PrintValue, Printable, Fits, FieldLine, HeaderLine, Run;
      forall f ensures Get(Run(st, PrintFields(c, st.section, fs, layout)).config, f)
                       == if f in fs then Get(c, f) else Get(st.config, f)
      {
        StoreGet(st.config, SectionOf(f0), KeyOf(f0), PrintValue(Get(c, f0)), f);
        if SectionOf(f0) == SectionOf(f) && KeyOf(f0) == KeyOf(f) {
          KeyNames(f0);
          KeyNames(f);
        }
      }
    }
  }

  lemma SameFieldsFirst(a: Config, b: Config)
    requires forall f :: Get(a, f) == Get(b, f)
    ensures a.version == b.version && a.i2cPort == b.i2cPort && a.brightness == b.brightness
    ensures a.timeout == b.timeout && a.ssid == b.ssid && a.wifiPassword == b.wifiPassword
  {
    assert Get(a, Version) == Get(b, Version) && Get(a, I2cPort) == Get(b, I2cPort);
    assert Get(a, Brightness) == Get(b, Brightness);
    assert Get(a, Timeout) == Get(b, Timeout) && Get(a, Ssid) == Get(b, Ssid);
    assert Get(a, WifiPassword) == Get(b, WifiPassword);
  }

  lemma SameFieldsSecond(a: Config, b: Config)
    requires forall f :: Get(a, f) == Get(b, f)
    ensures a.otaCa == b.otaCa && a.host == b.host && a.port == b.port
    ensures a.qos == b.qos && a.keepAlive == b.keepAlive && a.mqttCa == b.mqttCa
  {
    assert Get(a, OtaCa) == Get(b, OtaCa) && Get(a, Host) == Get(b, Host) && Get(a, Port) == Get(b, Port);
    assert Get(a, Qos) == Get(b, Qos) && Get(a, KeepAlive) == Get(b, KeepAlive) && Get(a, MqttCa) == Get(b, MqttCa);
  }

  lemma SameFieldsThird(a: Config, b: Config)
    requires forall f :: Get(a, f) == Get(b, f)
    ensures a.user == b.user && a.password == b.password && a.clientCert == b.clientCert
    ensures a.clientKey == b.clientKey && a.topic == b.topic && a.publishFreq == b.publishFreq
  {
    assert Get(a, User) == Get(b, User) && Get(a, Password) == Get(b, Password);
    assert Get(a, ClientCert) == Get(b, ClientCert);
    assert Get(a, ClientKey) == Get(b, ClientKey) && Get(a, Topic) == Get(b, Topic);
    assert Get(a, PublishFreq) == Get(b, PublishFreq);
  }

  lemma GetDeterminesConfig(a: Config, b: Config)
    requires forall f :: Get(a, f) == Get(b, f)
    ensures a == b
  {
    hide Get;
    SameFieldsFirst(a, b);
    SameFieldsSecond(a, b);
    SameFieldsThird(a, b);
  }

  /** A file that gives the fields in some order, with a last line that may lack its line end. */
  function Print(c: Config, fs: seq<Field>, layout: Field -> Layout, last: string): string
  {
    Concat(PrintFields(c, "", fs, layout)) + last
  }

  /**
   * Every configuration in range, with clean texts that fit their buffers, is read back from its file, however the
   * file is laid out: the fields in any order, those with their default left out or not, blanks around keys, values
   * and headers, either line end, and comments and blank lines anywhere.
   */
  lemma PrintThenParse(c: Config, fs: seq<Field>, layout: Field -> Layout, last: string)
    requires Printable(c) && forall f :: Fits(c, f, layout(f))
    requires forall f :: f in fs || Get(c, f) == Get(DEFAULTS, f)
    requires |last| < LINE_SIZE && '\n' !in last && '\0' !in last && ParseLine(last) == Ignored
    ensures Run(START, Lines(Print(c, fs, layout, last))).config == c
  {
    hide Get, Run, Lines, PrintFields, Printable, DEFAULTS, WholeLine, Fits, ParseLine, Concat;
    var lines := PrintFields(c, "", fs, layout);
    var behind := if last == "" then [] else [last];
    RunPrinted(c, START, fs, layout);
    LinesOfConcat(lines, last);
    RunConcat(START, lines, behind);
    RunIgnored(Run(START, lines), behind);
    forall f ensures Get(Run(START, lines).config, f) == Get(c, f) {
      assert f in fs || Get(c, f) == Get(DEFAULTS, f);
    }
    GetDeterminesConfig(Run(START, lines).config, c);
  }
}
