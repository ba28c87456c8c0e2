/** The text form of hierarchical deterministic derivation paths ("Path levels" section
    of BIP-44). */
module HdPaths {
  const HARDENED := 0x8000_0000
  const COMPONENT_LIMIT := 0x1_0000_0000

  type Path = seq<nat>

  const DEFAULT_ROOT: Path := [HARDENED + 44, HARDENED + 60, HARDENED, 0]

  datatype Error = EmptyPath | Ambiguous | InvalidComponent | OutOfRange

  datatype Result<+T> = Ok(value: T) | Failed(error: Error)

  ghost predicate InRange(path: Path) { forall i :: 0 <= i < |path| ==> path[i] < COMPONENT_LIMIT }

  // Numbers.

  /** What a character is worth as a digit, more than any base if it is none. */
  function Worth(c: char): nat {
    if '0' <= c <= '9' then c as int - '0' as int
    else if 'a' <= c <= 'f' then 10 + (c as int - 'a' as int)
    else if 'A' <= c <= 'F' then 10 + (c as int - 'A' as int)
    else 16
  }

  function Digit(d: nat): (c: char)
    requires d < 16
    ensures Worth(c) == d
  {
    if d < 10 then ('0' as int + d) as char else ('a' as int + (d - 10)) as char
  }

  predicate AllDigits(s: string, base: nat) {
    forall i :: 0 <= i < |s| ==> Worth(s[i]) < base
  }

  function Digits(n: nat, base: nat): (s: string)
    requires 2 <= base <= 16
    ensures s != [] && AllDigits(s, base)
  {
    Division(n, base);
    if n < base then [Digit(n)] else Digits(n / base, base) + [Digit(n % base)]
  }

  lemma Division(n: nat, base: nat)
    requires base >= 2
    ensures 0 <= n % base < base && n == base * (n / base) + n % base
    ensures n >= base ==> 0 < n / base < n
  {
    if n >= base {
      Doubles(n / base, base);
    }
  }

  lemma Doubles(k: nat, base: nat)
    requires base >= 2
    ensures base * k >= 2 * k && (k == 0 ==> base * k == 0)
  {
  }

  function Decimal(n: nat): string { Digits(n, 10) }

  /** The number that digits stand for. */
  function Number(s: string, base: nat): nat {
    if s == [] then 0 else base * Number(s[..|s| - 1], base) + Worth(s[|s| - 1])
  }

  lemma {:induction false} NumberRoundTrip(n: nat, base: nat)
    requires 2 <= base <= 16
    ensures Number(Digits(n, base), base) == n && (n > 0 ==> Worth(Digits(n, base)[0]) != 0)
    ensures n == 0 ==> |Digits(n, base)| == 1
  {
    Division(n, base);
    if n >= base {
      var k, d := n / base, n % base;
      NumberRoundTrip(k, base);
      NumberSnoc(Digits(k, base), Digit(d), base);
      assert Digits(n, base) == Digits(k, base) + [Digit(d)];
    } else {
      NumberSnoc([], Digit(n), base);
    }
  }

  lemma NumberSnoc(s: string, c: char, base: nat)
    ensures Number(s + [c], base) == base * Number(s, base) + Worth(c) && Number([], base) == 0
  {
    assert (s + [c])[..|s|] == s;
  }

  /** A number may be signed; it is hexadecimal after 0x, binary after 0b, octal after 0, and
      decimal otherwise. */
  function ParseNumber(s: string): Result<int> {
    if s != [] && s[0] == '-' then
      var n := ParseNatural(s[1..]);
      if n.Failed? then n else Ok(-n.value)
    else ParseNatural(if s != [] && s[0] == '+' then s[1..] else s)
  }

  function ParseNatural(s: string): (r: Result<int>)
    ensures r.Ok? ==> r.value >= 0
    ensures r.Failed? ==> r.error == InvalidComponent
  {
    if |s| < 2 || s[0] != '0' then ParseDigits(s, 10)
    else if s[1] in {'x', 'X'} then ParseDigits(s[2..], 16)
    else if s[1] in {'b', 'B'} then ParseDigits(s[2..], 2)
    else ParseDigits(s[1..], 8)
  }

  function ParseDigits(s: string, base: nat): Result<int> {
    if s != [] && AllDigits(s, base) then Ok(Number(s, base)) else Failed(InvalidComponent)
  }

  lemma DecimalRoundTrip(n: nat)
    ensures ParseNumber(Decimal(n)) == Ok(n)
  {
    hide Number, Digits;
    NumberRoundTrip(n, 10);
    assert Worth(Decimal(n)[0]) < 10;
  }

  /** Every notation of a number is read back, and a sign is minded. */
  lemma Notations(n: nat)
    ensures ParseNumber("0x" + Digits(n, 16)) == ParseNumber("0X" + Digits(n, 16)) == Ok(n)
    ensures ParseNumber("0b" + Digits(n, 2)) == ParseNumber("0" + Digits(n, 8)) == Ok(n)
    ensures ParseNumber("+" + Decimal(n)) == Ok(n)
    ensures ParseNumber("-" + Decimal(n)) == Ok(0 - n as int)
  {
    hide Number, Digits;
    NumberRoundTrip(n, 16);
    NumberRoundTrip(n, 2);
    NumberRoundTrip(n, 8);
    DecimalRoundTrip(n);
    var h, b, o, d := Digits(n, 16), Digits(n, 2), Digits(n, 8), Decimal(n);
    assert ("0x" + h)[2..] == h && ("0X" + h)[2..] == h && ("0b" + b)[2..] == b && ("0" + o)[1..] == o;
    assert ("+" + d)[1..] == d && ("-" + d)[1..] == d;
    assert Worth(o[0]) < 8 && Worth(d[0]) < 10;
  }

  function Upper(c: char): char { if 'a' <= c <= 'f' then (c as int - 0x20) as char else c }

  /** Upper-case hexadecimal digits are read like lower-case ones, and nothing else is a digit. */
  lemma UpperCase(s: string, t: string, base: nat)
    requires |t| == |s| && forall i :: 0 <= i < |s| ==> t[i] == Upper(s[i])
    ensures ParseDigits(t, base) == ParseDigits(s, base)
    ensures ParseDigits(s, 16).Ok? <==>
      s != [] && forall i :: 0 <= i < |s| ==> s[i] in "0123456789abcdefABCDEF"
  {
    forall i | 0 <= i < |s| ensures Worth(t[i]) == Worth(s[i]) {
    }
    SameNumber(s, t, base);
    forall i | 0 <= i < |s| ensures Worth(s[i]) < 16 <==> s[i] in "0123456789abcdefABCDEF" {
      HexDigit(s[i]);
    }
  }

  lemma HexDigit(c: char)
    ensures Worth(c) < 16 <==> c in "0123456789abcdefABCDEF"
  {
    var digits := "0123456789abcdefABCDEF";
    if '0' <= c <= '9' {
      assert digits[c as int - '0' as int] == c;
    } else if 'a' <= c <= 'f' {
      assert digits[10 + (c as int - 'a' as int)] == c;
    } else if 'A' <= c <= 'F' {
      assert digits[16 + (c as int - 'A' as int)] == c;
    }
  }

  lemma {:induction false} SameNumber(s: string, t: string, base: nat)
    requires |t| == |s| && forall i :: 0 <= i < |s| ==> Worth(t[i]) == Worth(s[i])
    ensures Number(t, base) == Number(s, base)
    decreases |s|
  {
    if s != [] {
      SameNumber(s[..|s| - 1], t[..|s| - 1], base);
    }
  }

  // Components.

  predicate IsSpace(c: char) {
    || 0x09 <= c as int <= 0x0d || 0x2000 <= c as int <= 0x200a
    || c as int in {0x20, 0x85, 0xa0, 0x1680, 0x2028, 0x2029, 0x202f, 0x205f, 0x3000}
  }

  function Trim(s: string): string {
    if s != [] && IsSpace(s[0]) then Trim(s[1..])
    else if s != [] && IsSpace(s[|s| - 1]) then Trim(s[..|s| - 1])
    else s
  }

  /** White space around a component is ignored; of the ASCII characters it is the blank and those
      from tab to carriage return. */
  lemma WhiteSpace(before: string, text: string, behind: string)
    requires forall c :: c in before || c in behind ==> IsSpace(c)
    ensures Trim(before + text + behind) == Trim(text)
    ensures ParseComponent(before + text + behind) == ParseComponent(text)
    ensures forall c: char :: c as int < 0x80 ==> (IsSpace(c) <==> c as int in {9, 10, 11, 12, 13, 32})
  {
    TrimFront(before, text + behind);
    assert before + (text + behind) == before + text + behind;
    TrimBack(text, behind);
  }

  lemma {:induction false} TrimFront(before: string, text: string)
    requires forall c :: c in before ==> IsSpace(c)
    ensures Trim(before + text) == Trim(text)
  {
    if before != [] {
      TrimFront(before[1..], text);
      assert (before + text)[1..] == before[1..] + text;
    } else {
      assert before + text == text;
    }
  }

  lemma {:induction false} TrimBack(text: string, behind: string)
    requires forall c :: c in behind ==> IsSpace(c)
    ensures Trim(text + behind) == Trim(text)
    decreases |text| + |behind|
  {
    if behind == [] {
      assert text + behind == text;
    } else if text == [] {
      TrimFront(behind, []);
      assert text + behind == behind + [];
    } else if IsSpace(text[0]) {
      TrimBack(text[1..], behind);
      assert (text + behind)[1..] == text[1..] + behind;
    } else {
      TrimBack(text, behind[..|behind| - 1]);
      assert (text + behind)[..|text + behind| - 1] == text + behind[..|behind| - 1];
    }
  }

  /** Nothing trimmed starts or ends with white space. */
  lemma {:induction false} Trimmed(s: string)
    ensures var t := Trim(s); t != [] ==> !IsSpace(t[0]) && !IsSpace(t[|t| - 1])
    decreases |s|
  {
    if s != [] && IsSpace(s[0]) {
      Trimmed(s[1..]);
    } else if s != [] && IsSpace(s[|s| - 1]) {
      Trimmed(s[..|s| - 1]);
    }
  }

  function ComponentText(c: nat): string {
    if c >= HARDENED then Decimal(c - HARDENED) + ['\''] else Decimal(c)
  }

  function ParseComponent(text: string): (r: Result<nat>)
    ensures r.Ok? ==> r.value < COMPONENT_LIMIT
  {
    var s := Trim(text);
    var hardened := s != [] && s[|s| - 1] == '\'';
    var base := if hardened then HARDENED else 0;
    var n := ParseNumber(if hardened then Trim(s[..|s| - 1]) else s);
    if n.Failed? then Failed(n.error)
    else if n.value < 0 || n.value > COMPONENT_LIMIT - 1 - base then Failed(OutOfRange)
    else Ok(base + n.value)
  }

  lemma TrimDigits(s: string)
    requires s != [] && Worth(s[0]) < 10 && (Worth(s[|s| - 1]) < 10 || s[|s| - 1] == '\'')
    ensures Trim(s) == s
  {
  }

  lemma ComponentRoundTrip(c: nat)
    requires c < COMPONENT_LIMIT
    ensures ParseComponent(ComponentText(c)) == Ok(c) && '/' !in ComponentText(c)
  {
    hide Digits, Number, Trim;
    var n := if c >= HARDENED then c - HARDENED else c;
    DecimalRoundTrip(n);
    TrimDigits(Decimal(n));
    TrimDigits(ComponentText(c));
    if c >= HARDENED {
      assert ComponentText(c)[..|ComponentText(c)| - 1] == Decimal(n);
    }
  }

  lemma ComponentTrims(c: nat)
    ensures Trim(ComponentText(c)) == ComponentText(c) != "" && ComponentText(c) != "m"
  {
    TrimDigits(ComponentText(c));
    assert Worth(ComponentText(c)[0]) < 10;
  }

  // Paths.

  function Split(s: string): (parts: seq<string>)
    ensures parts != []
  {
    if s == [] then [""]
    else
      var parts := Split(s[1..]);
      if s[0] == '/' then [""] + parts else [[s[0]] + parts[0]] + parts[1..]
  }

  /** The components of a path, each after a slash. */
  function Tail(path: Path): string {
    if path == [] then "" else "/" + ComponentText(path[0]) + Tail(path[1..])
  }

  function Text(path: Path): string { "m" + Tail(path) }

  function Texts(path: Path): (ts: seq<string>)
    ensures |ts| == |path| && forall i :: 0 <= i < |ts| ==> ts[i] == ComponentText(path[i])
  {
    if path == [] then [] else [ComponentText(path[0])] + Texts(path[1..])
  }

  lemma {:induction false} SplitFirst(first: string, rest: string)
    requires '/' !in first
    ensures Split(first + rest) == [first + Split(rest)[0]] + Split(rest)[1..]
  {
    hide Split;
    var parts := Split(rest);
    if first == [] {
      assert first + rest == rest && first + parts[0] == parts[0];
      assert parts == [parts[0]] + parts[1..];
    } else {
      SplitFirst(first[1..], rest);
      SplitChar(first[0], first[1..] + rest);
      assert first + rest == [first[0]] + (first[1..] + rest);
      assert [first[0]] + (first[1..] + parts[0]) == first + parts[0];
    }
  }

  lemma {:induction false} SplitChar(c: char, rest: string)
    requires c != '/'
    ensures Split([c] + rest) == [[c] + Split(rest)[0]] + Split(rest)[1..]
  {
    assert ([c] + rest)[1..] == rest;
  }

  lemma SplitSlash(rest: string)
    ensures Split("/" + rest) == [""] + Split(rest) && Split("") == [""]
  {
    assert ("/" + rest)[1..] == rest;
  }

  lemma {:induction false} SplitTail(first: string, path: Path)
    requires '/' !in first && InRange(path)
    ensures Split(first + Tail(path)) == [first] + Texts(path)
    decreases |path|
  {
    hide ComponentText, Split;
    SplitFirst(first, Tail(path));
    if path != [] {
      var text, rest := ComponentText(path[0]), Tail(path[1..]);
      ComponentRoundTrip(path[0]);
      SplitTail(text, path[1..]);
      SplitSlash(text + rest);
      assert "/" + text + rest == "/" + (text + rest);
      assert first + "" == first && ([""] + Split(text + rest))[1..] == Split(text + rest);
    } else {
      SplitSlash("");
      assert first + "" == first;
    }
  }

  /** The components in order, or the first error. */
  function ParseAll(parts: seq<string>, done: Path): Result<Path>
    decreases |parts|
  {
    if parts == [] then Ok(done)
    else
      var c := ParseComponent(parts[0]);
      if c.Failed? then Failed(c.error) else ParseAll(parts[1..], done + [c.value])
  }

  function ParsePath(s: string): Result<Path> {
    var parts := Split(s);
    var first := Trim(parts[0]);
    if first == "" then Failed(Ambiguous)
    else if first == "m" then (if |parts| == 1 then Failed(EmptyPath) else ParseAll(parts[1..], []))
    else ParseAll(parts, DEFAULT_ROOT)
  }

  lemma {:induction false} ParseTexts(path: Path, done: Path)
    requires InRange(path)
    ensures ParseAll(Texts(path), done) == Ok(done + path)
    decreases |path|
  {
    hide ComponentText, ParseComponent;
    if path != [] {
      ComponentRoundTrip(path[0]);
      ParseTexts(path[1..], done + [path[0]]);
      assert done + [path[0]] + path[1..] == done + path;
      assert Texts(path)[1..] == Texts(path[1..]);
    } else {
      assert done + path == done;
    }
  }

  /** Printing a path and parsing the text gives the path back, exactly when it is not
      empty. */
  lemma RoundTrip(path: Path)
    requires InRange(path)
    ensures ParsePath(Text(path)) == if path == [] then Failed(EmptyPath) else Ok(path)
  {
    SplitTail("m", path);
    if path != [] {
      ParseTexts(path, []);
      assert [] + path == path;
    }
  }

  /** Without the prefix the same components are relative to the default root. */
  lemma RelativeRoundTrip(path: Path)
    requires InRange(path) && path != []
    ensures ParsePath(Text(path)[2..]) == Ok(DEFAULT_ROOT + path)
  {
    hide ComponentText, ParseComponent, Trim;
    var c := ComponentText(path[0]);
    ComponentRoundTrip(path[0]);
    assert Text(path)[2..] == c + Tail(path[1..]);
    SplitTail(c, path[1..]);
    assert [c] + Texts(path[1..]) == Texts(path);
    ComponentTrims(path[0]);
    ParseTexts(path, DEFAULT_ROOT);
  }

  /** Whatever parses is a path with components of 32 bits. */
  lemma {:induction false} ParsedInRange(parts: seq<string>, done: Path)
    requires InRange(done)
    ensures var r := ParseAll(parts, done); r.Ok? ==> InRange(r.value) && |r.value| == |done| + |parts|
    decreases |parts|
  {
    if parts != [] && ParseComponent(parts[0]).Ok? {
      ParsedInRange(parts[1..], done + [ParseComponent(parts[0]).value]);
    }
  }

  lemma TailStep(text: string, path: Path, i: nat)
    requires i < |path|
    ensures text + Tail(path[i..]) == text + "/" + ComponentText(path[i]) + Tail(path[i + 1..])
  {
    hide ComponentText;
    assert path[i..][1..] == path[i + 1..];
  }

  method ToText(path: Path) returns (text: string)
    ensures text == Text(path)
  {
    hide ComponentText;
    text := "m";
    for i := 0 to |path|
      invariant text + Tail(path[i..]) == Text(path)
    {
      TailStep(text, path, i);
      text := text + "/" + ComponentText(path[i]);
    }
    assert path[|path|..] == [];
  }

  method ParseDerivationPath(s: string) returns (r: Result<Path>)
    ensures r == ParsePath(s)
  {
    var components, result := Split(s), [];
    var first := Trim(components[0]);
    if first == "" {
      return Failed(Ambiguous);
    } else if first == "m" {
      components := components[1..];
    } else {
      result := DEFAULT_ROOT;
    }
    if components == [] {
      return Failed(EmptyPath);
    }
    for i := 0 to |components|
      invariant ParseAll(components[i..], result) == ParsePath(s)
    {
      assert components[i..][1..] == components[i + 1..];
      var value := ParseComponent(components[i]);
      if value.Failed? {
        return Failed(value.error);
      }
      result := result + [value.value];
    }
    assert components[|components|..] == [];
    return Ok(result);
  }
}
