/** C string handling as the INI parser uses it: trimming, searching, number conversion, fgets. */
module IniText {
  import opened Wrappers

  predicate IsBlank(c: char) { c == ' ' || c == '\t' }
  predicate IsEol(c: char) { c == '\r' || c == '\n' }
  predicate IsDigit(c: char) { '0' <= c <= '9' }
  /** isspace in the C locale. */
  predicate IsSpace(c: char) { c == ' ' || '\t' <= c <= '\r' }

  function SkipBlanks(s: string): (r: string)
    ensures |r| <= |s|
    ensures r != "" ==> !IsBlank(r[0])
  {
    if s != "" && IsBlank(s[0]) then SkipBlanks(s[1..]) else s
  }

  function TrimRight(s: string): (r: string)
    ensures |r| <= |s|
    ensures r != "" ==> !IsBlank(r[|r| - 1])
  {
    if s != "" && IsBlank(s[|s| - 1]) then TrimRight(s[..|s| - 1]) else s
  }

  /** strchr. */
  function IndexOf(s: string, c: char): (r: Option<nat>)
    ensures r.None? ==> c !in s
    ensures r.Some? ==> r.value < |s| && s[r.value] == c && c !in s[..r.value]
  {
    if s == "" then None
    else if s[0] == c then Some(0)
    else
      var r := IndexOf(s[1..], c);
      assert s == [s[0]] + s[1..];
      if r.None? then None
      else assert s[..r.value + 1] == [s[0]] + s[1..][..r.value]; Some(r.value + 1)
  }

  /** The string up to the first carriage return or newline. */
  function CutEol(s: string): (r: string)
    ensures r <= s
    ensures forall c :: c in r ==> !IsEol(c)
  {
    if s == "" || IsEol(s[0]) then "" else [s[0]] + CutEol(s[1..])
  }

  /** The C string in a buffer: everything before the first NUL. */
  function CText(s: string): (r: string)
    ensures '\0' !in r
  {
    if s == "" || s[0] == '\0' then "" else [s[0]] + CText(s[1..])
  }

  // ----- numbers -----

  function DigitsPrefix(s: string): (r: string)
    ensures forall c :: c in r ==> IsDigit(c)
  {
    if s == "" || !IsDigit(s[0]) then "" else [s[0]] + DigitsPrefix(s[1..])
  }

  function Number(digits: string): (n: nat)
    requires forall c :: c in digits ==> IsDigit(c)
  {
    if digits == "" then 0
    else
      assert IsDigit(digits[|digits| - 1]);
      Number(digits[..|digits| - 1]) * 10 + (digits[|digits| - 1] as int - '0' as int)
  }

  function SkipSpaces(s: string): string {
    if s != "" && IsSpace(s[0]) then SkipSpaces(s[1..]) else s
  }

  /** Sign and magnitude of the number a string begins with; zero if there is none. */
  function Signed(s: string): (bool, nat) {
    var t := SkipSpaces(s);
    if t != "" && (t[0] == '-' || t[0] == '+') then (t[0] == '-', Number(DigitsPrefix(t[1..])))
    else (false, Number(DigitsPrefix(t)))
  }

  /** atoi with a 32-bit long: out-of-range values saturate. */
  function Atoi(s: string): int {
    var (negative, n) := Signed(s);
    if negative then (if n > 0x8000_0000 then -0x8000_0000 else -(n as int))
    else if n >= 0x8000_0000 then 0x7FFF_FFFF else n
  }

  /** strtoul with a 32-bit unsigned long: a minus sign negates modulo 2^32. */
  function Strtoul(s: string): (r: int)
    ensures 0 <= r < 0x1_0000_0000
  {
    var (negative, n) := Signed(s);
    if n >= 0x1_0000_0000 then 0xFFFF_FFFF
    else if negative then (0x1_0000_0000 - n) % 0x1_0000_0000 else n
  }

  function Decimal(n: nat): (s: string)
    ensures s != "" && forall c :: c in s ==> IsDigit(c)
  {
    if n < 10 then [('0' as int + n) as char]
    else Decimal(n / 10) + [('0' as int + n % 10) as char]
  }

  lemma {:induction false} NumberOfDecimal(n: nat)
    ensures Number(Decimal(n)) == n
    decreases n
  {
    var s := Decimal(n);
    if n < 10 {
      assert s[..0] == "";
    } else {
      NumberOfDecimal(n / 10);
      assert s[..|s| - 1] == Decimal(n / 10);
    }
  }

  lemma {:induction false} DigitsPrefixOfDigits(s: string)
    requires forall c :: c in s ==> IsDigit(c)
    ensures DigitsPrefix(s) == s
    decreases |s|
  {
    if s != "" {
      DigitsPrefixOfDigits(s[1..]);
    }
  }

  lemma {:induction false} SignedDecimal(n: nat)
    ensures Signed(Decimal(n)) == (false, n)
  {
    var s := Decimal(n);
    assert IsDigit(s[0]);
    DigitsPrefixOfDigits(s);
    NumberOfDecimal(n);
    hide Decimal, Number, DigitsPrefix;
    assert SkipSpaces(s) == s;
  }

  lemma DigitsAreClean(s: string)
    requires s != "" && forall c :: c in s ==> IsDigit(c)
    ensures Clean(s)
  {
    assert s[0] in s && s[|s| - 1] in s;
  }

  /** A number printed in decimal reads back, and is a single trimmed word. */
  lemma {:induction false} DecimalReadsBack(n: nat)
    ensures n < 0x8000_0000 ==> Atoi(Decimal(n)) == n
    ensures n < 0x1_0000_0000 ==> Strtoul(Decimal(n)) == n
    ensures Clean(Decimal(n))
  {
    SignedDecimal(n);
    DigitsAreClean(Decimal(n));
    hide Signed, Decimal, Clean;
  }

  lemma {:induction false} DecimalShort(n: nat, width: nat, limit: nat)
    requires width > 0 && n < limit && limit == Power10(width)
    ensures |Decimal(n)| <= width
    decreases width
  {
    assert Power10(1) == 10 * Power10(0);
    if n >= 10 {
      DecimalShort(n / 10, width - 1, Power10(width - 1));
    }
  }

  function Power10(n: nat): nat {
    if n == 0 then 1 else 10 * Power10(n - 1)
  }

  // ----- text that survives printing -----

  /** No blank at either end, no line end and no NUL inside. */
  ghost predicate Clean(s: string) {
    && (s != "" ==> s[0] != ' ' && s[0] != '\t' && s[|s| - 1] != ' ' && s[|s| - 1] != '\t')
    && forall c :: c in s ==> c != '\r' && c != '\n' && c != '\0'
  }

  lemma {:induction false} CutEolOf(s: string, t: string)
    requires (forall c :: c in s ==> !IsEol(c)) && (t == "" || IsEol(t[0]))
    ensures CutEol(s + t) == s
    decreases |s|
  {
    if s == "" {
      assert s + t == t;
    } else {
      assert (s + t)[1..] == s[1..] + t;
      CutEolOf(s[1..], t);
    }
  }

  lemma {:induction false} IndexOfFirst(s: string, t: string, c: char)
    requires c !in s && t != "" && t[0] == c
    ensures IndexOf(s + t, c) == Some(|s|)
    decreases |s|
  {
    if s == "" {
      assert s + t == t;
    } else {
      assert (s + t)[1..] == s[1..] + t;
      IndexOfFirst(s[1..], t, c);
    }
  }

  lemma {:induction false} CTextOf(s: string)
    requires '\0' !in s
    ensures CText(s) == s
    decreases |s|
  {
    if s != "" {
      CTextOf(s[1..]);
    }
  }

  predicate Blanks(b: string) { forall i :: 0 <= i < |b| ==> b[i] == ' ' || b[i] == '\t' }

  /** What may follow the text of a line: nothing, or a line end and anything behind it. */
  predicate LineEnd(e: string) { e == "" || e[0] == '\r' || e[0] == '\n' }

  lemma {:induction false} SkipBlanksOf(b: string, s: string)
    requires Blanks(b) && (s == "" || !IsBlank(s[0]))
    ensures SkipBlanks(b + s) == s
    decreases |b|
  {
    if b == "" {
      assert b + s == s;
    } else {
      assert b[0] in b && (b + s)[1..] == b[1..] + s;
      SkipBlanksOf(b[1..], s);
    }
  }

  lemma {:induction false} TrimRightOf(s: string, b: string)
    requires Blanks(b) && (s == "" || !IsBlank(s[|s| - 1]))
    ensures TrimRight(s + b) == s
    decreases |b|
  {
    if b == "" {
      assert s + b == s;
    } else {
      var n := |b| - 1;
      assert b[n] in b && (s + b)[..|s + b| - 1] == s + b[..n];
      TrimRightOf(s, b[..n]);
    }
  }

  // ----- fgets -----

  /** The chunk fgets reads: up to and including a newline, at most n characters. */
  function Chunk(s: string, n: nat): (r: string)
    ensures |r| <= n && r <= s
    ensures s != "" && n > 0 ==> r != ""
    decreases n
  {
    if s == "" || n == 0 then ""
    else if s[0] == '\n' then "\n"
    else [s[0]] + Chunk(s[1..], n - 1)
  }

  const LINE_SIZE: nat := 256

  /** Successive reads into a buffer of LINE_SIZE bytes, each ending in a NUL. */
  function Lines(s: string): seq<string>
    decreases |s|
  {
    if s == "" then []
    else
      var l := Chunk(s, LINE_SIZE - 1);
      [CText(l)] + Lines(s[|l|..])
  }

  function Concat(lines: seq<string>): string {
    if lines == [] then "" else lines[0] + Concat(lines[1..])
  }

  /** A line that fgets reads in one piece. */
  ghost predicate WholeLine(l: string) {
    && 0 < |l| < LINE_SIZE && l[|l| - 1] == '\n'
    && '\n' !in l[..|l| - 1] && '\0' !in l
  }

  lemma {:induction false} ChunkOf(l: string, rest: string, n: nat)
    requires l != "" && l[|l| - 1] == '\n' && '\n' !in l[..|l| - 1] && |l| <= n
    ensures Chunk(l + rest, n) == l
    decreases |l|
  {
    if |l| > 1 {
      assert l[0] == l[..|l| - 1][0];
      assert (l + rest)[1..] == l[1..] + rest;
      assert l[1..][..|l| - 2] == l[..|l| - 1][1..];
      ChunkOf(l[1..], rest, n - 1);
    }
  }

  /** The rest of a text without a line end is one line, unless it is empty. */
  lemma {:induction false} LastLine(s: string)
    requires |s| < LINE_SIZE && '\n' !in s && '\0' !in s
    ensures Lines(s) == if s == "" then [] else [s]
  {
    if s != "" {
      ChunkOfAll(s, LINE_SIZE - 1);
      CTextOf(s);
      assert s[|s|..] == "" && Lines("") == [];
    }
  }

  lemma {:induction false} ChunkOfAll(s: string, n: nat)
    requires |s| <= n && '\n' !in s
    ensures Chunk(s, n) == s
    decreases |s|
  {
    if s != "" {
      assert s[0] in s;
      ChunkOfAll(s[1..], n - 1);
    }
  }

  /** Whole lines, and a last one that may have no line end, come back from the reads as they are. */
  lemma {:induction false} LinesOfConcat(lines: seq<string>, last: string)
    requires forall l :: l in lines ==> WholeLine(l)
    requires |last| < LINE_SIZE && '\n' !in last && '\0' !in last
    ensures Lines(Concat(lines) + last) == lines + if last == "" then [] else [last]
    decreases |lines|
  {
    hide Chunk, CText;
    if lines == [] {
      assert Concat(lines) + last == last;
      LastLine(last);
    } else {
      assert lines[0] in lines;
      var rest := Concat(lines[1..]) + last;
      assert Concat(lines) + last == lines[0] + rest;
      ChunkOf(lines[0], rest, LINE_SIZE - 1);
      CTextOf(lines[0]);
      assert (lines[0] + rest)[|lines[0]|..] == rest;
      LinesOfConcat(lines[1..], last);
    }
  }

  /** A longer line is cut: its first 255 characters are a line of their own, and the rest is read as the next one. */
  lemma {:induction false} LongLineSplits(front: string, rest: string)
    requires |front| == 255 && '\n' !in front
    ensures Lines(front + rest) == [CText(front)] + Lines(rest)
  {
    ChunkOfPart(front, rest, 255);
    assert (front + rest)[255..] == rest;
  }

  lemma {:induction false} ChunkOfPart(front: string, rest: string, n: nat)
    requires |front| == n && '\n' !in front
    ensures Chunk(front + rest, n) == front
    decreases n
  {
    if n > 0 {
      assert front[0] in front && (front + rest)[1..] == front[1..] + rest;
      ChunkOfPart(front[1..], rest, n - 1);
    }
  }

  /** A NUL in a line hides what follows it on the line. */
  lemma {:induction false} CTextEndsAtNul(s: string, rest: string)
    requires '\0' !in s
    ensures CText(s + ("\0" + rest)) == s
    decreases |s|
  {
    if s == "" {
      assert s + ("\0" + rest) == "\0" + rest;
    } else {
      assert (s + ("\0" + rest))[1..] == s[1..] + ("\0" + rest);
      CTextEndsAtNul(s[1..], rest);
    }
  }

  // ----- the text of a number -----

  lemma {:induction false} DigitsPrefixOf(digits: string, rest: string)
    requires (forall c :: c in digits ==> IsDigit(c)) && (rest == "" || !IsDigit(rest[0]))
    ensures DigitsPrefix(digits + rest) == digits
    decreases |digits|
  {
    if digits == "" {
      assert digits + rest == rest;
    } else {
      assert (digits + rest)[1..] == digits[1..] + rest;
      DigitsPrefixOf(digits[1..], rest);
    }
  }

  lemma {:induction false} SkipSpacesOf(spaces: string, s: string)
    requires (forall c :: c in spaces ==> IsSpace(c)) && (s == "" || !IsSpace(s[0]))
    ensures SkipSpaces(spaces + s) == s
    decreases |spaces|
  {
    if spaces == "" {
      assert spaces + s == s;
    } else {
      assert spaces[0] in spaces && (spaces + s)[1..] == spaces[1..] + s;
      SkipSpacesOf(spaces[1..], s);
    }
  }

  /** White space, an optional sign, the digits of a number, and whatever does not begin with a digit. */
  lemma {:induction false} SignedOf(spaces: string, sign: string, digits: string, rest: string)
    requires forall c :: c in spaces ==> IsSpace(c)
    requires sign == "" || sign == "+" || sign == "-"
    requires forall c :: c in digits ==> IsDigit(c)
    requires rest == "" || !IsDigit(rest[0])
    requires sign == "" && digits == "" ==> rest == "" || (!IsSpace(rest[0]) && rest[0] != '+' && rest[0] != '-')
    ensures Signed(spaces + (sign + (digits + rest))) == (sign == "-", Number(digits))
  {
    var t := sign + (digits + rest);
    hide Number, DigitsPrefix, SkipSpaces;
    assert digits != "" ==> digits[0] in digits;
    SkipSpacesOf(spaces, t);
    DigitsPrefixOf(digits, rest);
    if sign == "" {
      assert t == digits + rest;
    } else {
      assert t[1..] == digits + rest;
    }
  }

  /**
   * What atoi and strtoul make of such a text: the value of its digits with its sign, atoi inside the range of a
   * 32-bit long, strtoul modulo 2^32 unless the digits alone exceed it. Without digits it is zero.
   */
  lemma {:induction false} NumberOfText(spaces: string, sign: string, digits: string, rest: string)
    requires forall c :: c in spaces ==> IsSpace(c)
    requires sign == "" || sign == "+" || sign == "-"
    requires forall c :: c in digits ==> IsDigit(c)
    requires rest == "" || !IsDigit(rest[0])
    requires sign == "" && digits == "" ==> rest == "" || (!IsSpace(rest[0]) && rest[0] != '+' && rest[0] != '-')
    ensures var n: int := if sign == "-" then -(Number(digits) as int) else Number(digits);
            var a, u := Atoi(spaces + (sign + (digits + rest))), Strtoul(spaces + (sign + (digits + rest)));
            && (-0x8000_0000 <= n < 0x8000_0000 ==> a == n)
            && (n >= 0x8000_0000 ==> a == 0x7FFF_FFFF) && (n < -0x8000_0000 ==> a == -0x8000_0000)
            && (-0x1_0000_0000 < n < 0x1_0000_0000 ==> u == n % 0x1_0000_0000)
            && (n <= -0x1_0000_0000 || n >= 0x1_0000_0000 ==> u == 0xFFFF_FFFF)
  {
    SignedOf(spaces, sign, digits, rest);
    NumberOfSigned(spaces + (sign + (digits + rest)), sign == "-", Number(digits));
    hide Atoi, Strtoul, Signed, Number;
  }

  lemma {:induction false} NumberOfSigned(s: string, negative: bool, value: nat)
    requires Signed(s) == (negative, value)
    ensures var n: int := if negative then -(value as int) else value;
            && (-0x8000_0000 <= n < 0x8000_0000 ==> Atoi(s) == n)
            && (n >= 0x8000_0000 ==> Atoi(s) == 0x7FFF_FFFF) && (n < -0x8000_0000 ==> Atoi(s) == -0x8000_0000)
            && (-0x1_0000_0000 < n < 0x1_0000_0000 ==> Strtoul(s) == n % 0x1_0000_0000)
            && (n <= -0x1_0000_0000 || n >= 0x1_0000_0000 ==> Strtoul(s) == 0xFFFF_FFFF)
  {
    hide Signed;
  }
}
