/** Hierarchical wallet paths: parsing what a user writes and printing the canonical form. */
module HdPaths {
  import opened Types

  type Uint32 = n: int | 0 <= n < 0x1_0000_0000

  const HARDENED: nat := 0x8000_0000
  const MAX_UINT32: nat := 0xFFFF_FFFF

  /** m/44'/60'/0'/0 */
  const DEFAULT_ROOT: seq<Uint32> := [HARDENED + 44, HARDENED + 60, HARDENED + 0, 0]

  datatype PathError = Ambiguous | Empty | InvalidComponent | ComponentOutOfRange

  datatype Parsed = Path(components: seq<Uint32>) | Failed(error: PathError)

  // ---------------------------------------------------------------------------------------------
  // Strings and numerals

  /** White space in Unicode's sense. */
  predicate IsSpace(c: char) {
    var n := c as int;
    || 9 <= n <= 13 || n == 32 || n == 0x85 || n == 0xA0 || n == 0x1680 || 0x2000 <= n <= 0x200A
    || n == 0x2028 || n == 0x2029 || n == 0x202F || n == 0x205F || n == 0x3000
  }

  function TrimLeft(s: string): string {
    if s != "" && IsSpace(s[0]) then TrimLeft(s[1..]) else s
  }

  function TrimRight(s: string): string {
    if s != "" && IsSpace(s[|s| - 1]) then TrimRight(s[..|s| - 1]) else s
  }

  function TrimSpace(s: string): string {
    TrimRight(TrimLeft(s))
  }

  /** The parts between slashes; there is always at least one. */
  function Split(s: string): (parts: seq<string>)
    ensures parts != []
  {
    if s == "" then [""]
    else
      var rest := Split(s[1..]);
      if s[0] == '/' then [""] + rest else [[s[0]] + rest[0]] + rest[1..]
  }

  lemma {:induction false} SplitPlain(s: string)
    requires '/' !in s
    ensures Split(s) == [s]
    decreases |s|
  {
    if s != "" {
      SplitPlain(s[1..]);
      assert [s[0]] + s[1..] == s;
    }
  }

  /** Appending a slash and a part without slashes appends that part. */
  lemma {:induction false} SplitAppend(s: string, part: string)
    requires '/' !in part
    ensures Split(s + "/" + part) == Split(s) + [part]
    decreases |s|
  {
    var whole := s + "/" + part;
    if s == "" {
      assert whole[1..] == part;
      SplitPlain(part);
    } else {
      assert whole[1..] == s[1..] + "/" + part;
      SplitAppend(s[1..], part);
    }
  }

  function DigitValue(c: char): nat {
    if '0' <= c <= '9' then c as int - '0' as int
    else if 'a' <= c <= 'z' then c as int - 'a' as int + 10
    else if 'A' <= c <= 'Z' then c as int - 'A' as int + 10
    else 99
  }

  /** The number that digits of a base write, if all are digits of it. */
  function Numeral(s: string, base: nat): Option<nat> {
    if s == "" then Some(0)
    else
      var init := Numeral(s[..|s| - 1], base);
      var d := DigitValue(s[|s| - 1]);
      if init.Some? && d < base then Some(init.value * base + d) else None
  }

  /** The magnitude: hexadecimal after 0x, binary after 0b, octal after a leading 0, else decimal. */
  function Magnitude(s: string): Option<nat> {
    if |s| > 1 && s[0] == '0' && (s[1] == 'x' || s[1] == 'X') then
      if |s| == 2 then None else Numeral(s[2..], 16)
    else if |s| > 1 && s[0] == '0' && (s[1] == 'b' || s[1] == 'B') then
      if |s| == 2 then None else Numeral(s[2..], 2)
    else if |s| > 1 && s[0] == '0' then Numeral(s[1..], 8)
    else if s == "" then None
    else Numeral(s, 10)
  }

  /** An integer with an optional sign. */
  function SetString(s: string): Option<int> {
    if s != "" && s[0] == '-' then
      var m := Magnitude(s[1..]);
      if m.Some? then Some(0 - m.value) else None
    else
      var m := Magnitude(if s != "" && s[0] == '+' then s[1..] else s);
      if m.Some? then Some(m.value) else None
  }

  function Digit(d: nat): char
    requires d < 10
  {
    ('0' as int + d) as char
  }

  function Decimal(n: nat): (s: string)
    ensures |s| > 0
  {
    if n < 10 then [Digit(n)] else Decimal(n / 10) + [Digit(n % 10)]
  }

  /** Decimal numerals hold digits only, start with 0 only if they are 0, and are read back as decimal. */
  lemma {:induction false} DecimalReads(n: nat)
    ensures Numeral(Decimal(n), 10) == Some(n)
    ensures forall c | c in Decimal(n) :: '0' <= c <= '9'
    ensures Decimal(n)[0] == '0' <==> n == 0
    ensures n == 0 ==> Decimal(n) == "0"
    decreases n
  {
    var s := Decimal(n);
    if n < 10 {
      assert s[..0] == "" && s[|s| - 1] == Digit(n);
    } else {
      DecimalReads(n / 10);
      assert s[..|s| - 1] == Decimal(n / 10) && s[|s| - 1] == Digit(n % 10);
      assert s[0] == Decimal(n / 10)[0];
    }
  }

  lemma DecimalIsSet(n: nat)
    ensures SetString(Decimal(n)) == Some(n)
  {
    DecimalReads(n);
    var s := Decimal(n);
    assert s[0] in s;
  }

  // ---------------------------------------------------------------------------------------------
  // Components

  /** What one component stands for: a number, counted from 2^31 if an apostrophe follows. */
  function ComponentOf(text: string): Parsed {
    var trimmed := TrimSpace(text);
    var hardened := trimmed != "" && trimmed[|trimmed| - 1] == '\'';
    var value := if hardened then HARDENED else 0;
    var number := SetString(if hardened then TrimSpace(trimmed[..|trimmed| - 1]) else trimmed);
    if number.None? then Failed(InvalidComponent)
    else if number.value < 0 || number.value > MAX_UINT32 - value then Failed(ComponentOutOfRange)
    else Path([value + number.value])
  }

  /** All components' numbers, or the first failure. */
  function ComponentsOf(texts: seq<string>): Parsed {
    if texts == [] then Path([])
    else
      var init := ComponentsOf(texts[..|texts| - 1]);
      if init.Failed? then init
      else
        var last := ComponentOf(texts[|texts| - 1]);
        if last.Failed? then last else Path(init.components + last.components)
  }

  /** The text of one component. */
  function ComponentText(c: Uint32): string {
    if c >= HARDENED then Decimal(c - HARDENED) + "'" else Decimal(c)
  }

  function Text(path: seq<Uint32>): string {
    if path == [] then "m" else Text(path[..|path| - 1]) + "/" + ComponentText(path[|path| - 1])
  }

  lemma NothingToTrim(s: string)
    requires s == "" || (!IsSpace(s[0]) && !IsSpace(s[|s| - 1]))
    ensures TrimSpace(s) == s
  {
  }

  predicate Blank(s: string) {
    forall c | c in s :: IsSpace(c)
  }

  /** Trimming takes the white space off both ends and nothing else. */
  lemma TrimmedIs(l: string, s: string, r: string)
    requires Blank(l) && Blank(r) && (s == "" || (!IsSpace(s[0]) && !IsSpace(s[|s| - 1])))
    ensures TrimSpace(l + s + r) == s
  {
    hide IsSpace;
    LeftTrimmed(l, s + r);
    assert l + (s + r) == l + s + r;
    if s == "" {
      LeftTrimmed(r, "");
      assert r + "" == r == s + r;
    } else {
      assert (s + r)[0] == s[0];
      RightTrimmed(s, r);
    }
  }

  lemma {:induction false} LeftTrimmed(l: string, s: string)
    requires Blank(l)
    ensures TrimLeft(l + s) == TrimLeft(s)
    decreases |l|
  {
    hide IsSpace;
    if l == "" {
      assert l + s == s;
    } else {
      assert l[0] in l && (l + s)[1..] == l[1..] + s;
      LeftTrimmed(l[1..], s);
    }
  }

  lemma {:induction false} RightTrimmed(s: string, r: string)
    requires Blank(r)
    ensures TrimRight(s + r) == TrimRight(s)
    decreases |r|
  {
    hide IsSpace;
    if r == "" {
      assert s + r == s;
    } else {
      assert r[|r| - 1] in r && (s + r)[..|s + r| - 1] == s + r[..|r| - 1];
      RightTrimmed(s, r[..|r| - 1]);
    }
  }

  /**
    A number stands for itself if it fits 32 bits, and with an apostrophe for 2^31 more if it fits 31 bits; white space
    around the number and around the apostrophe is ignored.
   */
  lemma ComponentIs(l: string, number: string, gap: string, r: string, n: int)
    requires Blank(l) && Blank(gap) && Blank(r) && SetString(number) == Some(n)
    requires number != "" && !IsSpace(number[0]) && !IsSpace(number[|number| - 1]) && number[|number| - 1] != '\''
    ensures ComponentOf(l + number + r) == if 0 <= n <= 0xFFFF_FFFF then Path([n]) else Failed(ComponentOutOfRange)
    ensures ComponentOf(l + (number + gap + "'") + r) ==
      if 0 <= n <= 0x7FFF_FFFF then Path([0x8000_0000 + n]) else Failed(ComponentOutOfRange)
  {
    hide TrimSpace, SetString, Blank;
    TrimmedIs(l, number, r);
    var hardened := number + gap + "'";
    TrimmedIs(l, hardened, r);
    NoBlanks();
    TrimmedIs("", number, gap);
    assert hardened[..|hardened| - 1] == "" + number + gap;
  }

  lemma NoBlanks()
    ensures Blank("")
  {
  }

  /** A component's text is read back as that component. */
  lemma ComponentReads(c: Uint32)
    ensures ComponentOf(ComponentText(c)) == Path([c]) && '/' !in ComponentText(c)
  {
    hide ComponentOf, SetString, Decimal;
    var n := if c >= HARDENED then c - HARDENED else c;
    var digits := Decimal(n);
    DecimalReads(n);
    DecimalIsSet(n);
    assert digits[0] in digits && digits[|digits| - 1] in digits;
    ComponentIs("", digits, "", "", n);
    assert "" + digits + "" == digits && "" + (digits + "" + "'") + "" == digits + "'";
  }

  lemma OneMoreComponent(texts: seq<string>, text: string, path: seq<Uint32>, c: Uint32)
    requires ComponentsOf(texts) == Path(path) && ComponentOf(text) == Path([c])
    ensures ComponentsOf(texts + [text]) == Path(path + [c])
  {
    hide ComponentOf;
    assert (texts + [text])[..|texts|] == texts;
  }

  lemma {:induction false} TextSplits(path: seq<Uint32>)
    ensures Split(Text(path))[0] == "m" && |Split(Text(path))| == |path| + 1
    ensures ComponentsOf(Split(Text(path))[1..]) == Path(path)
    decreases |path|
  {
    hide ComponentText, Split, ComponentOf;
    if path == [] {
      SplitPlain("m");
    } else {
      TextSplits(path[..|path| - 1]);
      TextSplitsNext(path);
    }
  }

  /** One more component in the path is one more part in its text. */
  lemma TextSplitsNext(path: seq<Uint32>)
    requires path != []
    requires var before := Split(Text(path[..|path| - 1]));
      before[0] == "m" && |before| == |path| && ComponentsOf(before[1..]) == Path(path[..|path| - 1])
    ensures Split(Text(path))[0] == "m" && |Split(Text(path))| == |path| + 1
    ensures ComponentsOf(Split(Text(path))[1..]) == Path(path)
  {
    hide ComponentText, Split, ComponentOf, ComponentsOf;
    var init, last := path[..|path| - 1], path[|path| - 1];
    ComponentReads(last);
    SplitAppend(Text(init), ComponentText(last));
    var before := Split(Text(init));
    assert Split(Text(path)) == before + [ComponentText(last)];
    assert (before + [ComponentText(last)])[1..] == before[1..] + [ComponentText(last)];
    OneMoreComponent(before[1..], ComponentText(last), init, last);
    assert init + [last] == path;
  }

  // ---------------------------------------------------------------------------------------------
  // Parsing and printing

  /** What a path stands for: absolute after `m`, otherwise below the default root; a leading slash is ambiguous. */
  function PathOf(text: string): Parsed {
    var parts := Split(text);
    var first := TrimSpace(parts[0]);
    if first == "" then Failed(Ambiguous)
    else if first == "m" then
      if |parts| == 1 then Failed(Empty) else ComponentsOf(parts[1..])
    else
      var relative := ComponentsOf(parts);
      if relative.Failed? then relative else Path(DEFAULT_ROOT + relative.components)
  }

  method ParseDerivationPath(path: string) returns (r: Parsed)
    ensures r == PathOf(path)
  {
    hide Split, TrimSpace, SetString;
    var result: seq<Uint32> := [];
    var components := Split(path);
    if TrimSpace(components[0]) == "" {
      return Failed(Ambiguous);
    }
    if TrimSpace(components[0]) == "m" {
      components := components[1..];
    } else {
      result := DEFAULT_ROOT;
    }
    if |components| == 0 {
      return Failed(Empty);
    }
    ghost var root := result;
    for i := 0 to |components|
      invariant ComponentsOf(components[..i]).Path? && result == root + ComponentsOf(components[..i]).components
    {
      assert components[..i + 1][..i] == components[..i];
      var component := TrimSpace(components[i]);
      var value: nat := 0;
      if |component| > 0 && component[|component| - 1] == '\'' {
        value := HARDENED;
        component := TrimSpace(component[..|component| - 1]);
      }
      var number := SetString(component);
      if number.None? {
        FailsAt(components, i);
        return Failed(InvalidComponent);
      }
      var max := MAX_UINT32 - value;
      if number.value < 0 || number.value > max {
        FailsAt(components, i);
        return Failed(ComponentOutOfRange);
      }
      value := value + number.value;
      result := result + [value];
    }
    assert components[..|components|] == components;
    return Path(result);
  }

  /** The first component that fails decides. */
  lemma {:induction false} FailsAt(texts: seq<string>, i: nat)
    requires i < |texts| && ComponentsOf(texts[..i]).Path? && ComponentOf(texts[i]).Failed?
    ensures ComponentsOf(texts) == ComponentOf(texts[i])
    decreases |texts|
  {
    hide ComponentOf;
    var n := |texts| - 1;
    if i < n {
      assert texts[..n][..i] == texts[..i];
      FailsAt(texts[..n], i);
    }
  }

  method ToString(path: seq<Uint32>) returns (r: string)
    ensures r == Text(path)
  {
    r := "m";
    for i := 0 to |path|
      invariant r == Text(path[..i])
    {
      assert path[..i + 1][..i] == path[..i];
      var component: nat := path[i];
      var hardened := false;
      if component >= HARDENED {
        component := component - HARDENED;
        hardened := true;
      }
      r := r + "/" + Decimal(component);
      if hardened {
        r := r + "'";
      }
    }
    assert path[..|path|] == path;
  }

  /** Every non-empty path is read back from its text; the empty path's text is refused. */
  lemma TextRoundTrip(path: seq<Uint32>)
    ensures PathOf(Text(path)) == if path == [] then Failed(Empty) else Path(path)
  {
    TextSplits(path);
    NothingToTrim("m");
  }

  lemma {:induction false} OneEach(texts: seq<string>)
    requires ComponentsOf(texts).Path?
    ensures |ComponentsOf(texts).components| == |texts|
    decreases |texts|
  {
    if texts != [] {
      OneEach(texts[..|texts| - 1]);
    }
  }

  /** Whatever is parsed is unchanged by printing and parsing it again. */
  lemma ReparsedUnchanged(text: string)
    requires PathOf(text).Path?
    ensures PathOf(Text(PathOf(text).components)) == PathOf(text)
  {
    var parts := Split(text);
    if TrimSpace(parts[0]) == "m" {
      OneEach(parts[1..]);
    } else {
      OneEach(parts);
    }
    TextRoundTrip(PathOf(text).components);
  }

  // ---------------------------------------------------------------------------------------------
  // Which texts mean the same

  /** A part without slashes before a slash is the first part. */
  lemma {:induction false} SplitPrefix(part: string, s: string)
    requires '/' !in part
    ensures Split(part + "/" + s) == [part] + Split(s)
    decreases |part|
  {
    var whole := part + "/" + s;
    if part == "" {
      assert whole[1..] == s;
    } else {
      assert whole[1..] == part[1..] + "/" + s;
      SplitPrefix(part[1..], s);
      assert [part[0]] + part[1..] == part;
    }
  }

  /** Components read one after the other are read together, up to the first failure. */
  lemma {:induction false} ComponentsJoin(xs: seq<string>, ys: seq<string>)
    requires ComponentsOf(xs).Path?
    ensures ComponentsOf(xs + ys) ==
      if ComponentsOf(ys).Failed? then ComponentsOf(ys) else Path(ComponentsOf(xs).components + ComponentsOf(ys).components)
    decreases |ys|
  {
    hide ComponentOf;
    if ys == [] {
      assert xs + ys == xs;
    } else {
      assert (xs + ys)[..|xs + ys| - 1] == xs + ys[..|ys| - 1];
      ComponentsJoin(xs, ys[..|ys| - 1]);
    }
  }

  lemma RootComponents()
    ensures ComponentOf("44'") == Path([0x8000_002C]) && ComponentOf("60'") == Path([0x8000_003C])
    ensures ComponentOf("0'") == Path([0x8000_0000]) && ComponentOf("0") == Path([0])
  {
    hide ComponentOf;
    assert Decimal(44) == Decimal(4) + [Digit(4)] && Decimal(60) == Decimal(6) + [Digit(0)];
    assert ComponentText(0x8000_002C) == "44'" && ComponentText(0x8000_003C) == "60'";
    assert ComponentText(0x8000_0000) == "0'" && ComponentText(0) == "0";
    ComponentReads(0x8000_002C);
    ComponentReads(0x8000_003C);
    ComponentReads(0x8000_0000);
    ComponentReads(0);
  }

  lemma NoComponents()
    ensures ComponentsOf([]) == Path([])
  {
  }

  lemma FourComponents(a: string, b: string, c: string, d: string, w: Uint32, x: Uint32, y: Uint32, z: Uint32)
    requires ComponentOf(a) == Path([w]) && ComponentOf(b) == Path([x])
    requires ComponentOf(c) == Path([y]) && ComponentOf(d) == Path([z])
    ensures ComponentsOf([a, b, c, d]) == Path([w, x, y, z])
  {
    hide ComponentOf, ComponentsOf;
    NoComponents();
    Appended([], a, [a], [], w, [w]);
    Appended([a], b, [a, b], [w], x, [w, x]);
    Appended([a, b], c, [a, b, c], [w, x], y, [w, x, y]);
    Appended([a, b, c], d, [a, b, c, d], [w, x, y], z, [w, x, y, z]);
  }

  lemma Appended(texts: seq<string>, text: string, more: seq<string>, path: seq<Uint32>, c: Uint32, longer: seq<Uint32>)
    requires ComponentsOf(texts) == Path(path) && ComponentOf(text) == Path([c])
    requires more == texts + [text] && longer == path + [c]
    ensures ComponentsOf(more) == Path(longer)
  {
    hide ComponentOf, ComponentsOf;
    OneMoreComponent(texts, text, path, c);
  }

  lemma RootRead()
    ensures ComponentsOf(["44'", "60'", "0'", "0"]) == Path([0x8000_002C, 0x8000_003C, 0x8000_0000, 0])
  {
    hide ComponentOf, ComponentsOf;
    RootComponents();
    FourComponents("44'", "60'", "0'", "0", 0x8000_002C, 0x8000_003C, 0x8000_0000, 0);
  }

  lemma RootSplits(text: string)
    ensures Split("m/44'/60'/0'/0/" + text) == ["m", "44'", "60'", "0'", "0"] + Split(text)
  {
    hide Split;
    SplitPrefix("0", text);
    SplitPrefix("0'", "0/" + text);
    SplitPrefix("60'", "0'/0/" + text);
    SplitPrefix("44'", "60'/0'/0/" + text);
    SplitPrefix("m", "44'/60'/0'/0/" + text);
    assert "0" + "/" + text == "0/" + text;
    assert "0'" + "/" + ("0/" + text) == "0'/0/" + text;
    assert "60'" + "/" + ("0'/0/" + text) == "60'/0'/0/" + text;
    assert "44'" + "/" + ("60'/0'/0/" + text) == "44'/60'/0'/0/" + text;
    assert "m" + "/" + ("44'/60'/0'/0/" + text) == "m/44'/60'/0'/0/" + text;
  }

  /** A relative path is the absolute one below m/44'/60'/0'/0. */
  lemma RelativeIsBelowRoot(text: string)
    requires TrimSpace(Split(text)[0]) != "" && TrimSpace(Split(text)[0]) != "m"
    ensures PathOf(text) == PathOf("m/44'/60'/0'/0/" + text)
  {
    hide Split, TrimSpace, ComponentsOf;
    var root, parts := ["44'", "60'", "0'", "0"], Split(text);
    RootSplits(text);
    RootRead();
    ComponentsJoin(root, parts);
    NothingToTrim("m");
    assert (["m", "44'", "60'", "0'", "0"] + parts)[1..] == root + parts;
  }

  /** After `m/` the path is what its components are; with nothing before the first slash it is refused. */
  lemma AbsoluteIs(text: string)
    ensures PathOf("m/" + text) == ComponentsOf(Split(text))
    ensures PathOf("/" + text) == Failed(Ambiguous)
    ensures PathOf("m") == Failed(Empty) && PathOf("") == Failed(Ambiguous)
  {
    hide ComponentsOf;
    SplitPrefix("m", text);
    SplitPrefix("", text);
    assert "m" + "/" + text == "m/" + text && "" + "/" + text == "/" + text;
    NothingToTrim("m");
    NothingToTrim("");
    SplitPlain("m");
    assert (["m"] + Split(text))[1..] == Split(text);
  }

  /** White space around the `m` is ignored, too. */
  lemma BlanksIgnored(l: string, r: string, text: string)
    requires Blank(l) && Blank(r)
    ensures PathOf(l + "m" + r + "/" + text) == PathOf("m/" + text)
  {
    hide ComponentsOf, TrimSpace;
    var part := l + "m" + r;
    assert !IsSpace('/') && !IsSpace('m');
    SplitPrefix(part, text);
    TrimmedIs(l, "m", r);
    AbsoluteIs(text);
    assert ([part] + Split(text))[1..] == Split(text);
  }

  /** The first path below the default root. */
  lemma FirstBelowRoot()
    ensures PathOf("0") == Path([0x8000_002C, 0x8000_003C, 0x8000_0000, 0, 0])
  {
    hide ComponentOf, Split, TrimSpace;
    SplitPlain("0");
    NothingToTrim("0");
    RootComponents();
    OneMoreComponent([], "0", [], 0);
    assert [] + ["0"] == ["0"];
  }

  /** Forty-four in every notation, and what is no number. */
  lemma Notations()
    ensures SetString("44") == SetString("+44") == SetString("054") == SetString("0x2C") == SetString("0X2c") == Some(44)
    ensures SetString("0b101100") == SetString("0B101100") == Some(44) && SetString("-44") == Some(-44)
    ensures SetString("") == SetString("0x") == SetString("0b") == SetString("08") == SetString("4x") == SetString("+") == None
  {
    assert "44"[..1] == "4" && "4"[..0] == "" && "+44"[1..] == "44" && "-44"[1..] == "44";
    assert "054"[1..] == "54" && "54"[..1] == "5" && "5"[..0] == "";
    assert "0x2C"[2..] == "2C" && "2C"[..1] == "2" && "2"[..0] == "" && "0X2c"[2..] == "2c" && "2c"[..1] == "2";
    BinaryReads();
    assert "08"[1..] == "8" && "4x"[..1] == "4" && "+"[1..] == "";
  }

  lemma BinaryReads()
    ensures Numeral("101100", 2) == Some(44)
    ensures "0b101100"[2..] == "0B101100"[2..] == "101100"
  {
    assert "101100"[..5] == "10110" && "10110"[..4] == "1011" && "1011"[..3] == "101" && "101"[..2] == "10";
    assert "10"[..1] == "1" && "1"[..0] == "";
    assert Numeral("10", 2) == Some(2);
    assert Numeral("101", 2) == Some(5);
    assert Numeral("1011", 2) == Some(11);
    assert Numeral("10110", 2) == Some(22);
  }
}
