/** Byte strings as the program reads and prints them: decimal numbers, separators, lines. */
module Text {
  import opened Base

  predicate IsDigit(c: char) {
    '0' <= c <= '9'
  }

  predicate AllDigits(s: string) {
    forall c <- s :: IsDigit(c)
  }

  /** std::to_string of an unsigned number. */
  function Decimal(n: nat): (s: string)
    ensures s != [] && AllDigits(s)
  {
    if n < 10 then [('0' as int + n) as char] else Decimal(n / 10) + [('0' as int + n % 10) as char]
  }

  function DigitsValue(ds: string): nat
    requires AllDigits(ds)
  {
    if ds == [] then 0
    else
      assert IsDigit(ds[|ds| - 1]);
      DigitsValue(ds[..|ds| - 1]) * 10 + (ds[|ds| - 1] as int - '0' as int)
  }

  lemma {:induction false} DigitsValueOfDecimal(n: nat)
    ensures DigitsValue(Decimal(n)) == n
  {
    if n < 10 {
    } else {
      DigitsValueOfDecimal(n / 10);
      assert Decimal(n)[..|Decimal(n)| - 1] == Decimal(n / 10);
    }
  }

  /** The decimal text of a number has a first digit that is zero only for zero itself. */
  lemma {:induction false} DecimalLeadingDigit(n: nat)
    ensures n > 0 ==> Decimal(n)[0] != '0'
    ensures n < 10 ==> |Decimal(n)| == 1
    ensures n < 100 ==> |Decimal(n)| <= 2
    ensures n < 1000 ==> |Decimal(n)| <= 3
  {
    if n < 10 {
    } else {
      DecimalLeadingDigit(n / 10);
      assert Decimal(n)[0] == Decimal(n / 10)[0];
    }
  }

  /** One digit more is ten times the value and the digit. */
  lemma LastDigit(ds: string, d: char)
    requires AllDigits(ds) && IsDigit(d)
    ensures AllDigits(ds + [d]) && DigitsValue(ds + [d]) == DigitsValue(ds) * 10 + (d as int - '0' as int)
  {
    assert (ds + [d])[..|ds|] == ds;
  }

  /** The decimal text is the one digit string of that value without needless zeros. */
  lemma {:induction false} DecimalUnique(ds: string)
    requires ds != [] && (forall c <- ds :: '0' <= c <= '9') && (|ds| > 1 ==> ds[0] != '0')
    ensures AllDigits(ds) && Decimal(DigitsValue(ds)) == ds
  {
    var front, last := ds[..|ds| - 1], ds[|ds| - 1];
    assert last in ds && forall c <- front :: c in ds;
    LastDigit(front, last);
    assert ds == front + [last];
    var d := last as int - '0' as int;
    if front == [] {
      assert DigitsValue(front) == 0;
      assert ds == [('0' as int + d) as char];
    } else {
      assert front[0] == ds[0];
      assert forall c <- front :: c in ds;
      DecimalUnique(front);
      var v := DigitsValue(front);
      NotZero(front);
      assert (v * 10 + d) / 10 == v && (v * 10 + d) % 10 == d;
    }
  }

  /** Digits that do not start with a zero have a positive value. */
  lemma {:induction false} NotZero(ds: string)
    requires ds != [] && AllDigits(ds) && ds[0] != '0'
    ensures DigitsValue(ds) > 0
  {
    var front, last := ds[..|ds| - 1], ds[|ds| - 1];
    assert last in ds && ds == front + [last];
    LastDigit(front, last);
    if front == [] {
      assert last > '0';
    } else {
      assert front[0] == ds[0];
      NotZero(front);
    }
  }

  /** isspace in the "C" locale, which the number parser skips. */
  predicate IsSpace(c: char) {
    c in {' ', '\t', '\n', '\U{000B}', '\U{000C}', '\r'}
  }

  function SkipSpace(s: string): string {
    if s != [] && IsSpace(s[0]) then SkipSpace(s[1..]) else s
  }

  function LeadingDigits(s: string): (ds: string)
    ensures AllDigits(ds)
  {
    if s != [] && IsDigit(s[0]) then [s[0]] + LeadingDigits(s[1..]) else []
  }

  lemma {:induction false} LeadingDigitsAll(ds: string)
    requires AllDigits(ds)
    ensures LeadingDigits(ds) == ds
  {
    if ds == [] {
    } else {
      LeadingDigitsAll(ds[1..]);
    }
  }

  /**
   * std::stoul and std::stoull with a 64-bit unsigned long: blanks, an optional sign (a minus
   * negates modulo 2^64), then digits; whatever follows the digits is ignored. None stands for
   * std::invalid_argument (no digits) and std::out_of_range (too large).
   */
  function Stoull(s: string): (r: Option<uint64>) {
    SignedNumber(SkipSpace(s))
  }

  function SignedNumber(t: string): (r: Option<uint64>) {
    var signed := t != [] && t[0] in {'-', '+'};
    var ds := LeadingDigits(if signed then t[1..] else t);
    if ds == [] then None
    else
      var v := DigitsValue(ds);
      if v >= U64_LIMIT then None
      else if signed && t[0] == '-' && v != 0 then Some(U64_LIMIT - v)
      else Some(v)
  }

  /** static_cast<uint32_t>(std::stoul(s)): the high half is dropped. */
  function StoulU32(s: string): (r: Option<uint32>) {
    Truncated(Stoull(s))
  }

  function Truncated(v: Option<uint64>): Option<uint32> {
    if v == None then None else Some(v.value % U32_LIMIT)
  }

  lemma {:induction false} SkipsSpace(blanks: string, s: string)
    requires forall c <- blanks :: c in " \t\n\U{000B}\U{000C}\r"
    requires s != [] ==> s[0] !in " \t\n\U{000B}\U{000C}\r"
    ensures SkipSpace(blanks + s) == s
  {
    if blanks == [] {
      assert blanks + s == s;
    } else {
      assert blanks[0] in blanks;
      SkipsSpace(blanks[1..], s);
      assert (blanks + s)[1..] == blanks[1..] + s;
    }
  }

  lemma {:induction false} DigitsUpTo(ds: string, rest: string)
    requires (forall c <- ds :: '0' <= c <= '9') && (rest != [] ==> !('0' <= rest[0] <= '9'))
    ensures LeadingDigits(ds + rest) == ds
  {
    if ds == [] {
      assert ds + rest == rest;
    } else {
      assert ds[0] in ds && forall c <- ds[1..] :: c in ds;
      DigitsUpTo(ds[1..], rest);
      assert (ds + rest)[1..] == ds[1..] + rest;
    }
  }

  /** A minus negates modulo 2^64; too large a number is refused, and so is none. */
  ghost function NumberOf(minus: bool, ds: string): Option<uint64>
    requires AllDigits(ds)
  {
    if ds == [] || DigitsValue(ds) >= 0x1_0000_0000_0000_0000 then None
    else if minus && DigitsValue(ds) != 0 then Some(0x1_0000_0000_0000_0000 - DigitsValue(ds))
    else Some(DigitsValue(ds))
  }

  /** What the number parser makes of blanks, digits and whatever follows them. */
  lemma UnsignedMeans(blanks: string, ds: string, rest: string)
    requires forall c <- blanks :: c in " \t\n\U{000B}\U{000C}\r"
    requires (forall c <- ds :: '0' <= c <= '9') && (rest != [] ==> !('0' <= rest[0] <= '9'))
    requires ds == [] && rest != [] ==> rest[0] !in " \t\n\U{000B}\U{000C}\r+-"
    ensures AllDigits(ds) && Stoull(blanks + (ds + rest)) == NumberOf(false, ds)
  {
    var t := ds + rest;
    if ds != [] {
      assert ds[0] in ds && t[0] == ds[0];
    }
    SkipsSpace(blanks, t);
    DigitsUpTo(ds, rest);
  }

  /** The same after a sign. */
  lemma SignedMeans(blanks: string, sign: char, ds: string, rest: string)
    requires (forall c <- blanks :: c in " \t\n\U{000B}\U{000C}\r") && (sign == '+' || sign == '-')
    requires (forall c <- ds :: '0' <= c <= '9') && (rest != [] ==> !('0' <= rest[0] <= '9'))
    ensures AllDigits(ds) && Stoull(blanks + ([sign] + (ds + rest))) == NumberOf(sign == '-', ds)
  {
    var t := [sign] + (ds + rest);
    assert t[0] == sign && t[1..] == ds + rest;
    SkipsSpace(blanks, t);
    DigitsUpTo(ds, rest);
  }

  /** Only the low 32 bits of the number count. */
  lemma StoulU32Means(s: string)
    ensures StoulU32(s) == if Stoull(s) == None then None else Some(Stoull(s).value % 0x1_0000_0000)
  {}

  lemma StoullOfDecimal(n: nat)
    requires n < U64_LIMIT
    ensures Stoull(Decimal(n)) == Some(n)
  {
    assert IsDigit(Decimal(n)[0]);
    LeadingDigitsAll(Decimal(n));
    DigitsValueOfDecimal(n);
  }

  lemma SmallModulo(n: uint32)
    ensures n % U32_LIMIT == n
  {}

  lemma StoulU32OfDecimal(n: uint32)
    ensures StoulU32(Decimal(n)) == Some(n)
  {
    assert Stoull(Decimal(n)) == Some(n) by {
      StoullOfDecimal(n);
    }
    SmallModulo(n);
  }

  /** Position of the first occurrence of a character, or the length when there is none. */
  function Find(s: string, c: char): (k: nat)
    ensures k <= |s| && c !in s[..k]
    ensures k < |s| ==> s[k] == c
  {
    if s == [] || s[0] == c then 0
    else
      assert s[..1 + Find(s[1..], c)] == [s[0]] + s[1..][..Find(s[1..], c)];
      1 + Find(s[1..], c)
  }

  lemma {:induction false} FindIn(a: string, c: char, rest: string)
    requires c !in a
    ensures Find(a + [c] + rest, c) == |a|
    ensures Find(a, c) == |a|
  {
    if a == [] {
      assert a + [c] + rest == [c] + rest;
    } else {
      FindIn(a[1..], c, rest);
      assert a[0] in a;
      assert (a + [c] + rest)[1..] == a[1..] + [c] + rest;
    }
  }

  /** The fields between occurrences of a separator; n separators give n + 1 fields. */
  function Split(s: string, sep: char): (fields: seq<string>)
    ensures fields != []
    decreases |s|
  {
    var k := Find(s, sep);
    if k == |s| then [s] else [s[..k]] + Split(s[k + 1..], sep)
  }

  lemma SplitCons(a: string, sep: char, rest: string)
    requires sep !in a
    ensures Split(a + [sep] + rest, sep) == [a] + Split(rest, sep)
  {
    FindIn(a, sep, rest);
    var s := a + [sep] + rest;
    assert s[..|a|] == a && s[|a| + 1..] == rest;
  }

  lemma SplitLast(a: string, sep: char)
    requires sep !in a
    ensures Split(a, sep) == [a]
  {
    FindIn(a, sep, []);
  }

  /** A field never contains the separator, nor a character the whole text does not contain. */
  lemma {:induction false} SplitClean(s: string, sep: char)
    ensures forall f <- Split(s, sep) :: sep !in f && (forall c <- f :: c in s)
    decreases |s|
  {
    var k := Find(s, sep);
    if k < |s| {
      SplitClean(s[k + 1..], sep);
    } else {
      assert s[..k] == s;
    }
  }

  /** The fields with the separator between them. */
  ghost function Joined(fields: seq<string>, sep: char): string
    requires fields != []
  {
    if |fields| == 1 then fields[0] else fields[0] + [sep] + Joined(fields[1..], sep)
  }

  /** Splitting is the one way to write a text as fields without the separator. */
  lemma {:induction false} SplitMeans(s: string, sep: char, fields: seq<string>)
    ensures Split(s, sep) == fields <==>
      fields != [] && Joined(fields, sep) == s && forall f <- fields :: sep !in f
  {
    SplitJoins(s, sep);
    SplitClean(s, sep);
    if fields != [] && Joined(fields, sep) == s && forall f <- fields :: sep !in f {
      JoinedSplits(fields, sep);
    }
  }

  lemma {:induction false} SplitJoins(s: string, sep: char)
    ensures Joined(Split(s, sep), sep) == s
    decreases |s|
  {
    var k := Find(s, sep);
    if k == |s| {
    } else {
      var first, rest := s[..k], s[k + 1..];
      SplitJoins(rest, sep);
      assert Split(s, sep) == [first] + Split(rest, sep);
      JoinedMore(first, Split(rest, sep), sep);
      assert s == first + [sep] + rest;
    }
  }

  lemma JoinedMore(first: string, fields: seq<string>, sep: char)
    requires fields != []
    ensures Joined([first] + fields, sep) == first + [sep] + Joined(fields, sep)
  {
    assert ([first] + fields)[1..] == fields;
  }

  lemma {:induction false} JoinedSplits(fields: seq<string>, sep: char)
    requires fields != [] && forall f <- fields :: sep !in f
    ensures Split(Joined(fields, sep), sep) == fields
  {
    if |fields| == 1 {
      SplitLast(fields[0], sep);
    } else {
      JoinedSplits(fields[1..], sep);
      SplitCons(fields[0], sep, Joined(fields[1..], sep));
    }
  }

  /** Four fields joined by dots. */
  function Quad(a: string, b: string, c: string, d: string): string {
    a + "." + (b + "." + (c + "." + d))
  }

  lemma QuadChars(a: string, b: string, c: string, d: string, ch: char)
    requires ch !in a && ch !in b && ch !in c && ch !in d && ch != '.'
    ensures ch !in Quad(a, b, c, d) && '.' in Quad(a, b, c, d)
  {
    assert Quad(a, b, c, d)[|a|] == '.';
  }

  lemma SplitMore(a: string, sep: char, rest: string, fields: seq<string>)
    requires sep !in a && Split(rest, sep) == fields
    ensures Split(a + [sep] + rest, sep) == [a] + fields
  {
    SplitCons(a, sep, rest);
  }

  lemma QuadSplits(a: string, b: string, c: string, d: string)
    requires '.' !in a && '.' !in b && '.' !in c && '.' !in d
    ensures Split(Quad(a, b, c, d), '.') == [a, b, c, d]
  {
    SplitLast(d, '.');
    SplitMore(c, '.', d, [d]);
    SplitMore(b, '.', c + "." + d, [c] + [d]);
    SplitMore(a, '.', b + "." + (c + "." + d), [b] + ([c] + [d]));
  }

  /** The lines std::getline delivers: a final newline does not open one more line. */
  function Lines(text: string): seq<string>
    decreases |text|
  {
    if text == [] then []
    else
      var k := Find(text, '\n');
      if k == |text| then [text] else [text[..k]] + Lines(text[k + 1..])
  }

  /** Printed lines, each closed by a newline. */
  function Unlines(lines: seq<string>): string {
    if lines == [] then [] else lines[0] + ['\n'] + Unlines(lines[1..])
  }

  lemma {:induction false} UnlinesAppend(a: seq<string>, b: seq<string>)
    ensures Unlines(a + b) == Unlines(a) + Unlines(b)
  {
    if a == [] {
      assert a + b == b;
    } else {
      assert (a + b)[1..] == a[1..] + b;
      UnlinesAppend(a[1..], b);
    }
  }

  lemma {:induction false} LinesOfUnlines(lines: seq<string>)
    requires forall l <- lines :: '\n' !in l
    ensures Lines(Unlines(lines)) == lines
  {
    if lines == [] {
    } else {
      var rest := Unlines(lines[1..]);
      var text := Unlines(lines);
      FindIn(lines[0], '\n', rest);
      assert text[..|lines[0]|] == lines[0] && text[|lines[0]| + 1..] == rest;
      LinesOfUnlines(lines[1..]);
    }
  }

  /** The last line needs no newline. */
  lemma {:induction false} LinesMean(lines: seq<string>, last: string)
    requires (forall l <- lines :: '\n' !in l) && '\n' !in last
    ensures Lines(Unlines(lines) + last) == if last == "" then lines else lines + [last]
  {
    if lines == [] {
      FindIn(last, '\n', []);
      assert Unlines(lines) + last == last;
    } else {
      var rest := Unlines(lines[1..]) + last;
      assert Unlines(lines) + last == lines[0] + ['\n'] + rest;
      FirstLine(lines[0], rest);
      LinesMean(lines[1..], last);
      assert lines == [lines[0]] + lines[1..];
    }
  }

  lemma FirstLine(line: string, rest: string)
    requires '\n' !in line
    ensures Lines(line + ['\n'] + rest) == [line] + Lines(rest)
  {
    var text := line + ['\n'] + rest;
    FindIn(line, '\n', rest);
    assert text[..|line|] == line && text[|line| + 1..] == rest;
  }

  /** Every text is such lines. */
  lemma {:induction false} EveryText(text: string) returns (lines: seq<string>, last: string)
    ensures text == Unlines(lines) + last && (forall l <- lines :: '\n' !in l) && '\n' !in last
    decreases |text|
  {
    var k := Find(text, '\n');
    if k == |text| {
      lines, last := [], text;
      assert text[..k] == text;
    } else {
      lines, last := EveryText(text[k + 1..]);
      lines := [text[..k]] + lines;
      assert text == text[..k] + ['\n'] + text[k + 1..];
    }
  }

  lemma {:induction false} LinesHaveNoNewline(text: string)
    ensures forall l <- Lines(text) :: '\n' !in l
    decreases |text|
  {
    if text == [] {
    } else {
      var k := Find(text, '\n');
      if k < |text| {
        LinesHaveNoNewline(text[k + 1..]);
      } else {
        assert text[..k] == text;
      }
    }
  }

  /** The blanks of the snapshot reader's trim. */
  predicate IsBlank(c: char) {
    c in {' ', '\t', '\r', '\n'}
  }

  function TrimLeft(s: string): string {
    if s != [] && IsBlank(s[0]) then TrimLeft(s[1..]) else s
  }

  function TrimRight(s: string): string {
    if s != [] && IsBlank(s[|s| - 1]) then TrimRight(s[..|s| - 1]) else s
  }

  function Trim(s: string): string {
    TrimRight(TrimLeft(s))
  }

  lemma {:induction false} TrimRightKeepsFirst(s: string)
    requires s != [] && !IsBlank(s[0])
    ensures TrimRight(s) != [] && TrimRight(s)[0] == s[0]
  {
    if !IsBlank(s[|s| - 1]) {
    } else {
      TrimRightKeepsFirst(s[..|s| - 1]);
    }
  }

  lemma {:induction false} TrimsLeft(blanks: string, s: string)
    requires forall c <- blanks :: c in " \t\r\n"
    requires s != [] ==> s[0] !in " \t\r\n"
    ensures TrimLeft(blanks + s) == s
  {
    if blanks == [] {
      assert blanks + s == s;
    } else {
      assert blanks[0] in blanks;
      TrimsLeft(blanks[1..], s);
      assert (blanks + s)[1..] == blanks[1..] + s;
    }
  }

  lemma {:induction false} TrimsRight(s: string, blanks: string)
    requires forall c <- blanks :: c in " \t\r\n"
    requires s != [] ==> s[|s| - 1] !in " \t\r\n"
    ensures TrimRight(s + blanks) == s
  {
    if blanks == [] {
      assert s + blanks == s;
    } else {
      assert blanks[|blanks| - 1] in blanks;
      TrimsRight(s, blanks[..|blanks| - 1]);
      assert (s + blanks)[..|s + blanks| - 1] == s + blanks[..|blanks| - 1];
    }
  }

  /** Blanks go at both ends and nowhere else. */
  lemma TrimMeans(before: string, s: string, after: string)
    requires (forall c <- before :: c in " \t\r\n") && (forall c <- after :: c in " \t\r\n")
    requires s != [] && s[0] !in " \t\r\n" && s[|s| - 1] !in " \t\r\n"
    ensures Trim(before + (s + after)) == s && Trim(before) == ""
  {
    TrimsLeft(before, s + after);
    TrimsRight(s, after);
    TrimsLeft(before, []);
    assert before + [] == before;
  }

  lemma {:induction false} StrLeTotal(a: string, b: string)
    ensures StrLe(a, b) || StrLe(b, a)
    ensures StrLe(a, b) && StrLe(b, a) ==> a == b
    ensures StrLe(a, a)
  {
    if a != [] && b != [] {
      StrLeTotal(a[1..], b[1..]);
      assert a == [a[0]] + a[1..] && b == [b[0]] + b[1..];
    }
    if a == [] {
    } else {
      StrLeTotal(a[1..], []);
    }
  }

  lemma {:induction false} StrLeTransitive(a: string, b: string, c: string)
    requires StrLe(a, b) && StrLe(b, c)
    ensures StrLe(a, c)
  {
    if a == [] || a[0] != b[0] || b[0] != c[0] {
    } else {
      StrLeTransitive(a[1..], b[1..], c[1..]);
    }
  }

  /** std::string's order: lexicographic by byte, a proper prefix first. */
  predicate StrLe(a: string, b: string) {
    a == [] || (b != [] && (a[0] < b[0] || (a[0] == b[0] && StrLe(a[1..], b[1..]))))
  }

  /** `a` is a proper beginning of `b`, or has the smaller byte where they first differ. */
  ghost predicate TextBefore(a: string, b: string) {
    exists k :: 0 <= k <= |a| && k < |b| && a[..k] == b[..k] && (k == |a| || a[k] < b[k])
  }

  lemma BeforeAtFirst(a: string, b: string)
    requires a != [] && b != [] && a[0] != b[0]
    ensures TextBefore(a, b) <==> a[0] < b[0]
  {
    if a[0] < b[0] {
      assert a[..0] == b[..0];
    }
    forall k | 0 < k <= |a| && k < |b| ensures a[..k] != b[..k] {
      assert a[..k][0] != b[..k][0];
    }
  }

  lemma BeforeInRest(a: string, b: string, k: nat)
    requires a != [] && b != [] && a[0] == b[0] && k < |a| && k + 1 < |b|
    ensures a[1..][..k] == b[1..][..k] <==> a[..k + 1] == b[..k + 1]
  {
    assert a[..k + 1] == [a[0]] + a[1..][..k] && b[..k + 1] == [b[0]] + b[1..][..k];
  }

  lemma BeforeAfterFirst(a: string, b: string)
    requires a != [] && b != [] && a[0] == b[0]
    ensures TextBefore(a, b) <==> TextBefore(a[1..], b[1..])
  {
    if TextBefore(a[1..], b[1..]) {
      var k: nat :| k <= |a[1..]| && k < |b[1..]| && a[1..][..k] == b[1..][..k] && (k == |a[1..]| || a[1..][k] < b[1..][k]);
      BeforeInRest(a, b, k);
      assert a[..k + 1] == b[..k + 1];
    }
    if TextBefore(a, b) {
      var k: nat :| k <= |a| && k < |b| && a[..k] == b[..k] && (k == |a| || a[k] < b[k]);
      assert k > 0;
      BeforeInRest(a, b, k - 1);
      assert a[1..][..k - 1] == b[1..][..k - 1];
    }
  }

  /** The comparison of texts is by the first byte in which they differ. */
  lemma {:induction false} StrLeMeans(a: string, b: string)
    ensures StrLe(a, b) <==> a == b || TextBefore(a, b)
  {
    if a == [] {
      if b != [] {
        assert a[..0] == b[..0];
      }
    } else if b == [] {
    } else if a[0] == b[0] {
      StrLeMeans(a[1..], b[1..]);
      BeforeAfterFirst(a, b);
      assert a == [a[0]] + a[1..] && b == [b[0]] + b[1..];
    } else {
      BeforeAtFirst(a, b);
    }
  }
}
