/** Derivation paths of hierarchical wallets: their parser and their printer. */
module DerivationPaths {
  import opened Options

  const HARDENED: nat := 0x8000_0000
  const MAX_UINT32: nat := 0xFFFF_FFFF
  type uint32 = x: nat | x <= MAX_UINT32

  type Path = seq<uint32>

  const DEFAULT_ROOT: Path := [HARDENED + 44, HARDENED + 60, HARDENED, 0]

  // ----- text -----

  /** White space as in Unicode's property of that name. */
  predicate IsSpace(c: char) {
    var u := c as int;
    9 <= u <= 13 || u == 32 || u == 0x85 || u == 0xA0 || u == 0x1680 || 0x2000 <= u <= 0x200A
    || u == 0x2028 || u == 0x2029 || u == 0x202F || u == 0x205F || u == 0x3000
  }

  /** Tab to carriage return, space, next line, and the wider ones. */
  lemma SpacesAre(c: char)
    ensures IsSpace(c) <==>
              c as int in {9, 10, 11, 12, 13, 32, 133, 160, 5760, 8192, 8193, 8194, 8195, 8196, 8197, 8198, 8199, 8200,
                           8201, 8202, 8232, 8233, 8239, 8287, 12288}
  {
  }

  function TrimLeft(s: string): string {
    if s != [] && IsSpace(s[0]) then TrimLeft(s[1..]) else s
  }

  function TrimRight(s: string): string {
    if s != [] && IsSpace(s[|s| - 1]) then TrimRight(s[..|s| - 1]) else s
  }

  function Trim(s: string): string {
    TrimRight(TrimLeft(s))
  }

  /** The parts of a text between slashes. */
  function Split(s: string): (parts: seq<string>)
    ensures parts != []
  {
    if s == [] then [[]]
    else if s[0] == '/' then [[]] + Split(s[1..])
    else [[s[0]] + Split(s[1..])[0]] + Split(s[1..])[1..]
  }

  // ----- numerals -----

  datatype Prev = Nothing | Digit | Separator

  function DigitValue(c: char): nat {
    if '0' <= c <= '9' then c as int - '0' as int
    else if 'a' <= c <= 'z' then c as int - 'a' as int + 10
    else if 'A' <= c <= 'Z' then c as int - 'A' as int + 10
    else 99
  }

  /** Reads digits; an underscore may stand between a digit or a base prefix and a digit. */
  function Digits(s: string, base: nat, prev: Prev, seen: bool, value: nat): Option<nat> {
    if s == [] then if prev == Digit && seen then Some(value) else None
    else if s[0] == '_' then if prev == Digit then Digits(s[1..], base, Separator, seen, value) else None
    else if DigitValue(s[0]) < base then Digits(s[1..], base, Digit, true, value * base + DigitValue(s[0]))
    else None
  }

  function Unsigned(s: string): Option<nat> {
    if |s| >= 2 && s[0] == '0' then
      if s[1] == 'b' || s[1] == 'B' then Digits(s[2..], 2, Digit, false, 0)
      else if s[1] == 'o' || s[1] == 'O' then Digits(s[2..], 8, Digit, false, 0)
      else if s[1] == 'x' || s[1] == 'X' then Digits(s[2..], 16, Digit, false, 0)
      else Digits(s[1..], 8, Digit, false, 0)
    else Digits(s, 10, Nothing, false, 0)
  }

  /** The value of a numeral with optional sign and base prefix. */
  function Numeral(s: string): Option<int> {
    if s != [] && (s[0] == '-' || s[0] == '+') then
      match Unsigned(s[1..])
      case None => None
      case Some(n) => Some(if s[0] == '-' then 0 - n else n)
    else
      match Unsigned(s)
      case None => None
      case Some(n) => Some(n)
  }

  // ----- parsing -----

  datatype Error = EmptyPath | AmbiguousPath | InvalidComponent | OutOfRange(hardened: bool)
  datatype Result<T> = Ok(value: T) | Failed(error: Error)

  /** One component of a path; white space around it and before the mark of a hardened one is ignored. */
  function Component(text: string): Result<uint32> {
    var c := Trim(text);
    if c != [] && c[|c| - 1] == '\'' then InRange(Numeral(Trim(c[..|c| - 1])), true)
    else InRange(Numeral(c), false)
  }

  function InRange(n: Option<int>, hardened: bool): Result<uint32> {
    if n == None then Failed(InvalidComponent)
    else if n.value < 0 || n.value > MAX_UINT32 - (if hardened then HARDENED else 0) then Failed(OutOfRange(hardened))
    else Ok(n.value + if hardened then HARDENED else 0)
  }

  /** The components in order; the first bad one decides the error. */
  function Components(parts: seq<string>): Result<Path> {
    if parts == [] then Ok([])
    else
      match Components(parts[..|parts| - 1])
      case Failed(e) => Failed(e)
      case Ok(before) =>
        match Component(parts[|parts| - 1])
        case Failed(e) => Failed(e)
        case Ok(value) => Ok(before + [value])
  }

  /** A path with the prefix m is absolute; without it, it continues the default root. */
  function Parsed(path: string): Result<Path> {
    var parts := Split(path);
    var first := Trim(parts[0]);
    if first == "" then Failed(AmbiguousPath)
    else if first == "m" then if |parts| == 1 then Failed(EmptyPath) else Components(parts[1..])
    else
      match Components(parts)
      case Failed(e) => Failed(e)
      case Ok(rest) => Ok(DEFAULT_ROOT + rest)
  }

  method ParseDerivationPath(path: string) returns (r: Result<Path>)
    ensures r == Parsed(path)
  {
    var result: Path := [];
    var components := Split(path);
    if Trim(components[0]) == "" {
      return Failed(AmbiguousPath);
    } else if Trim(components[0]) == "m" {
      components := components[1..];
    } else {
      result := DEFAULT_ROOT;
    }
    if |components| == 0 {
      return Failed(EmptyPath);
    }
    hide Component;
    r := AppendComponents(result, components);
    if r.Ok? {
      assert [] + Components(components).value == Components(components).value;
    }
  }

  /** Fails with the error of the first bad component and otherwise collects all of them. */
  method AppendComponents(root: Path, components: seq<string>) returns (r: Result<Path>)
    ensures Components(components).Failed? ==> r == Failed(Components(components).error)
    ensures Components(components).Ok? ==> r == Ok(root + Components(components).value)
  {
    hide Component;
    var result := root;
    for k := 0 to |components|
      invariant Components(components[..k]).Ok? && result == root + Components(components[..k]).value
    {
      assert components[..k + 1][..k] == components[..k];
      var value := ParseComponent(components[k]);
      if value.Failed? {
        OneSpoilsAll(components, k + 1);
        return Failed(value.error);
      }
      result := result + [value.value];
    }
    assert components[..|components|] == components;
    r := Ok(result);
  }

  method ParseComponent(text: string) returns (r: Result<uint32>)
    ensures r == Component(text)
  {
    hide Trim, Numeral;
    var component := Trim(text);
    var value: uint32 := 0;
    if component != [] && component[|component| - 1] == '\'' {
      value := HARDENED;
      component := Trim(component[..|component| - 1]);
    }
    var bigval := Numeral(component);
    if bigval == None {
      return Failed(InvalidComponent);
    }
    var max := MAX_UINT32 - value;
    if bigval.value < 0 || bigval.value > max {
      return Failed(OutOfRange(value != 0));
    }
    r := Ok(value + bigval.value);
  }

  lemma {:induction false} OneSpoilsAll(parts: seq<string>, n: nat)
    requires n <= |parts| && Components(parts[..n]).Failed?
    ensures Components(parts) == Components(parts[..n])
    decreases |parts|
  {
    if n < |parts| {
      assert parts[..|parts| - 1][..n] == parts[..n];
      OneSpoilsAll(parts[..|parts| - 1], n);
    } else {
      assert parts[..n] == parts;
    }
  }

  // ----- printing -----

  function Decimal(n: nat): (s: string)
    ensures s != []
  {
    if n < 10 then [('0' as int + n) as char] else Decimal(n / 10) + [('0' as int + n % 10) as char]
  }

  function Item(c: uint32): string {
    if c >= HARDENED then Decimal(c - HARDENED) + "'" else Decimal(c)
  }

  function Printed(path: Path): string {
    if path == [] then "m" else Printed(path[..|path| - 1]) + "/" + Item(path[|path| - 1])
  }

  method String(path: Path) returns (r: string)
    ensures r == Printed(path)
  {
    r := "m";
    for i := 0 to |path|
      invariant r == Printed(path[..i])
    {
      assert path[..i + 1][..i] == path[..i];
      var component: nat := path[i];
      var hardened := false;
      if component >= HARDENED {
        component := component - HARDENED;
        hardened := true;
      }
      r := r + "/" + Decimal(component);
      if hardened {
        r := r + "'";
      }
      assert r == Printed(path[..i]) + "/" + Item(path[i]);
    }
    assert path[..|path|] == path;
  }

  // ----- round trips -----

  /** Only digits. */
  predicate AllDigits(s: string) {
    forall i :: 0 <= i < |s| ==> '0' <= s[i] <= '9'
  }

  lemma {:induction false} DecimalIsDigits(n: nat)
    ensures AllDigits(Decimal(n)) && (n > 0 ==> Decimal(n)[0] != '0') && (n == 0 ==> Decimal(n) == "0")
  {
    if n >= 10 {
      DecimalIsDigits(n / 10);
    }
  }

  lemma {:induction false} OneMoreDigit(s: string, base: nat, prev: Prev, seen: bool, value: nat, d: char)
    requires Digits(s, base, prev, seen, value).Some? && d != '_' && DigitValue(d) < base
    ensures Digits(s + [d], base, prev, seen, value) ==
              Some(Digits(s, base, prev, seen, value).value * base + DigitValue(d))
    decreases |s|
  {
    if s == [] {
      assert (s + [d])[1..] == [];
    } else {
      assert (s + [d])[1..] == s[1..] + [d];
      if s[0] == '_' {
        OneMoreDigit(s[1..], base, Separator, seen, value, d);
      } else {
        OneMoreDigit(s[1..], base, Digit, true, value * base + DigitValue(s[0]), d);
      }
    }
  }

  lemma {:induction false} DecimalIsRead(n: nat)
    ensures Digits(Decimal(n), 10, Nothing, false, 0) == Some(n)
  {
    if n >= 10 {
      DecimalIsRead(n / 10);
      OneMoreDigit(Decimal(n / 10), 10, Nothing, false, 0, ('0' as int + n % 10) as char);
    } else {
      assert Decimal(n)[1..] == [];
    }
  }

  /** The figure for a digit, in either case. */
  function Figure(d: nat, upper: bool): char
    requires d < 36
  {
    if d < 10 then ('0' as int + d) as char else ((if upper then 'A' as int else 'a' as int) + d - 10) as char
  }

  /** A number written in any base. */
  ghost function Written(n: nat, base: nat, upper: bool): (s: string)
    requires 2 <= base <= 36
    ensures s != []
    decreases n
  {
    if n < base then [Figure(n, upper)] else Written(n / base, base, upper) + [Figure(n % base, upper)]
  }

  lemma FigureIsRead(d: nat, upper: bool)
    requires d < 36
    ensures DigitValue(Figure(d, upper)) == d && Figure(d, upper) != '_'
  {
  }

  lemma OneFigure(d: nat, base: nat, upper: bool, prev: Prev)
    requires d < base <= 36
    ensures Digits([Figure(d, upper)], base, prev, false, 0) == Some(d)
  {
    FigureIsRead(d, upper);
    hide Figure, DigitValue;
    assert [Figure(d, upper)][1..] == [];
  }

  lemma Quotient(n: nat, base: nat)
    requires 2 <= base <= n
    ensures n / base < n && (n / base) * base + n % base == n
  {
  }

  lemma LastFigure(n: nat, base: nat, upper: bool)
    requires 2 <= base <= 36 && n >= base
    ensures Written(n, base, upper) == Written(n / base, base, upper) + [Figure(n % base, upper)]
  {
  }

  lemma {:induction false} WrittenIsRead(n: nat, base: nat, upper: bool, prev: Prev)
    requires 2 <= base <= 36
    ensures Digits(Written(n, base, upper), base, prev, false, 0) == Some(n)
    ensures DigitValue(Written(n, base, upper)[0]) < base
    decreases n
  {
    hide Digits, DigitValue, Figure;
    if n < base {
      OneFigure(n, base, upper, prev);
      FigureIsRead(n, upper);
    } else {
      Quotient(n, base);
      LastFigure(n, base, upper);
      hide Written;
      var more, d := n / base, n % base;
      WrittenIsRead(more, base, upper, prev);
      FigureIsRead(d, upper);
      OneMoreDigit(Written(more, base, upper), base, prev, false, 0, Figure(d, upper));
    }
  }

  /** The letter after a zero tells the base, in either case. */
  lemma PrefixIsRead(p: char, s: string)
    ensures p == 'b' || p == 'B' ==> Unsigned(['0', p] + s) == Digits(s, 2, Digit, false, 0)
    ensures p == 'o' || p == 'O' ==> Unsigned(['0', p] + s) == Digits(s, 8, Digit, false, 0)
    ensures p == 'x' || p == 'X' ==> Unsigned(['0', p] + s) == Digits(s, 16, Digit, false, 0)
  {
    hide Digits;
    assert (['0', p] + s)[2..] == s;
  }

  /** Without a letter, a leading zero stands for octal. */
  lemma ZeroIsRead(s: string)
    requires s != [] && DigitValue(s[0]) < 10
    ensures Unsigned(['0'] + s) == Digits(s, 8, Digit, false, 0)
  {
    hide Digits;
    assert (['0'] + s)[1..] == s;
  }

  /** Binary, octal and hexadecimal numerals mean the number they are written from. */
  lemma BasesAreRead(n: nat, upper: bool, p: char)
    ensures p == 'b' || p == 'B' ==> Unsigned(['0', p] + Written(n, 2, upper)) == Some(n)
    ensures p == 'o' || p == 'O' ==> Unsigned(['0', p] + Written(n, 8, upper)) == Some(n)
    ensures p == 'x' || p == 'X' ==> Unsigned(['0', p] + Written(n, 16, upper)) == Some(n)
    ensures Unsigned(['0'] + Written(n, 8, upper)) == Some(n)
  {
    hide Digits, Written, Unsigned, DigitValue;
    WrittenIsRead(n, 2, upper, Digit);
    WrittenIsRead(n, 8, upper, Digit);
    WrittenIsRead(n, 16, upper, Digit);
    PrefixIsRead(p, Written(n, 2, upper));
    PrefixIsRead(p, Written(n, 8, upper));
    PrefixIsRead(p, Written(n, 16, upper));
    ZeroIsRead(Written(n, 8, upper));
  }

  lemma SignsAreRead(s: string, n: nat)
    requires Unsigned(s) == Some(n)
    ensures Numeral("-" + s) == Some(0 - n) && Numeral("+" + s) == Some(n)
  {
    assert ("-" + s)[1..] == s && ("+" + s)[1..] == s;
  }

  /** Whether a figure of the base or an underscore can stand at `i`. */
  predicate Fits(s: string, i: nat, base: nat, prev: Prev)
    requires i < |s|
  {
    if s[i] != '_' then DigitValue(s[i]) < base
    else i + 1 < |s| && s[i + 1] != '_' && (i == 0 ==> prev == Digit)
  }

  ghost predicate AllFit(s: string, base: nat, prev: Prev) {
    forall i :: 0 <= i < |s| ==> Fits(s, i, base, prev)
  }

  lemma FitsStep(s: string, base: nat, prev: Prev)
    requires |s| > 1 && Fits(s, 0, base, prev)
    ensures AllFit(s, base, prev) <==> AllFit(s[1..], base, if s[0] == '_' then Separator else Digit)
  {
    hide DigitValue;
    var t, next := s[1..], if s[0] == '_' then Separator else Digit;
    assert t[0] == s[1];
    forall i | 0 < i < |s|
      ensures Fits(s, i, base, prev) <==> Fits(t, i - 1, base, next)
    {
      assert s[i] == t[i - 1] && (i + 1 < |s| ==> s[i + 1] == t[i]);
    }
    if AllFit(s, base, prev) {
      forall i | 0 <= i < |t|
        ensures Fits(t, i, base, next)
      {
        assert Fits(s, i + 1, base, prev);
      }
    }
  }

  /** Exactly figures of the base with single underscores between them or after a prefix are numerals. */
  lemma {:induction false} DigitsExactly(s: string, base: nat, prev: Prev, seen: bool, value: nat)
    requires s != [] && base <= 36
    ensures Digits(s, base, prev, seen, value).Some? <==> AllFit(s, base, prev)
    decreases |s|
  {
    if |s| == 1 {
      assert s[1..] == [];
      assert Fits(s, 0, base, prev) <==> AllFit(s, base, prev);
    } else if Fits(s, 0, base, prev) {
      FitsStep(s, base, prev);
      hide Fits, AllFit, DigitValue;
      if s[0] == '_' {
        DigitsExactly(s[1..], base, Separator, seen, value);
      } else {
        DigitsExactly(s[1..], base, Digit, true, value * base + DigitValue(s[0]));
      }
    } else if s[0] == '_' && prev == Digit {
      DigitsExactly(s[1..], base, Separator, seen, value);
      assert !Fits(s[1..], 0, base, Separator);
    }
  }

  lemma NumeralOfDecimal(n: nat)
    ensures Numeral(Decimal(n)) == Some(n)
  {
    DecimalIsDigits(n);
    DecimalIsRead(n);
  }

  lemma NothingToTrim(s: string)
    requires s != [] && !IsSpace(s[0]) && !IsSpace(s[|s| - 1])
    ensures Trim(s) == s
  {
  }

  /** Parsing a printed component gives it back. */
  lemma ComponentOfItem(c: uint32)
    ensures Component(Item(c)) == Ok(c) && '/' !in Item(c)
  {
    var n := if c >= HARDENED then c - HARDENED else c;
    DecimalIsDigits(n);
    NumeralOfDecimal(n);
    NothingToTrim(Decimal(n));
    NothingToTrim(Item(c));
    hide Decimal, Numeral, Trim;
    if c >= HARDENED {
      assert Item(c)[..|Item(c)| - 1] == Decimal(n);
    }
  }

  lemma {:induction false} SplitWhole(s: string)
    requires '/' !in s
    ensures Split(s) == [s]
  {
    if s != [] {
      SplitWhole(s[1..]);
      assert [s[0]] + s[1..] == s;
    }
  }

  lemma SplitAppends(s: string, part: string)
    requires '/' !in part
    ensures Split(s + "/" + part) == Split(s) + [part]
  {
    SplitJoins(s, part);
    SplitWhole(part);
  }

  function Items(path: Path): (r: seq<string>)
    ensures |r| == |path|
  {
    if path == [] then [] else Items(path[..|path| - 1]) + [Item(path[|path| - 1])]
  }

  lemma {:induction false} SplitPrinted(path: Path)
    ensures Split(Printed(path)) == ["m"] + Items(path)
  {
    if path == [] {
      SplitWhole("m");
    } else {
      SplitPrinted(path[..|path| - 1]);
      ComponentOfItem(path[|path| - 1]);
      SplitAppends(Printed(path[..|path| - 1]), Item(path[|path| - 1]));
    }
  }

  lemma {:induction false} ComponentsOfItems(path: Path)
    ensures Components(Items(path)) == Ok(path)
  {
    hide Component, Item;
    if path != [] {
      ComponentsOfItems(path[..|path| - 1]);
      ComponentOfItem(path[|path| - 1]);
      assert Items(path)[..|path| - 1] == Items(path[..|path| - 1]);
      assert path[..|path| - 1] + [path[|path| - 1]] == path;
    }
  }

  /** Parsing a printed path gives the path back. */
  lemma ParsePrinted(path: Path)
    requires path != []
    ensures Parsed(Printed(path)) == Ok(path)
  {
    SplitPrinted(path);
    ComponentsOfItems(path);
    NothingToTrim("m");
    hide Components, Split, Trim;
    assert (["m"] + Items(path))[1..] == Items(path);
  }

  lemma {:induction false} AsManyAsParts(parts: seq<string>)
    requires Components(parts).Ok?
    ensures |Components(parts).value| == |parts|
  {
    if parts != [] {
      AsManyAsParts(parts[..|parts| - 1]);
    }
  }

  /** Printing what any accepted text stands for and parsing it again changes nothing. */
  lemma ParsePrintParse(text: string)
    requires Parsed(text).Ok?
    ensures Parsed(text).value != [] && Parsed(Printed(Parsed(text).value)) == Parsed(text)
  {
    var parts := Split(text);
    if Trim(parts[0]) == "m" {
      AsManyAsParts(parts[1..]);
    }
    ParsePrinted(Parsed(text).value);
  }

  lemma {:induction false} SplitJoins(s: string, t: string)
    ensures Split(s + "/" + t) == Split(s) + Split(t)
  {
    hide Split;
    SplitStep(s + "/" + t);
    SplitStep(s);
    if s == [] {
      assert (s + "/" + t)[1..] == t;
    } else {
      SplitJoins(s[1..], t);
      assert (s + "/" + t)[1..] == s[1..] + "/" + t && (s + "/" + t)[0] == s[0];
      FrontOf(Split(s[1..]), Split(t));
    }
  }

  lemma SplitStep(s: string)
    ensures s == [] ==> Split(s) == [[]]
    ensures s != [] && s[0] == '/' ==> Split(s) == [[]] + Split(s[1..])
    ensures s != [] && s[0] != '/' ==> Split(s) == [[s[0]] + Split(s[1..])[0]] + Split(s[1..])[1..]
  {
  }

  lemma FrontOf(a: seq<string>, b: seq<string>)
    requires a != []
    ensures (a + b)[0] == a[0] && (a + b)[1..] == a[1..] + b
  {
  }

  lemma {:induction false} ComponentsJoin(a: seq<string>, b: seq<string>)
    requires Components(a).Ok?
    ensures Components(a + b) ==
              if Components(b).Ok? then Ok(Components(a).value + Components(b).value) else Components(b)
    decreases |b|
  {
    hide Component;
    if b == [] {
      assert a + b == a;
      assert Components(b) == Ok([]);
      assert Components(a).value + [] == Components(a).value;
    } else {
      var n := |b| - 1;
      ComponentsJoin(a, b[..n]);
      assert (a + b)[..|a + b| - 1] == a + b[..n];
      assert (a + b)[|a + b| - 1] == b[n];
      if Components(b).Ok? {
        var before, value := Components(b[..n]).value, Component(b[n]).value;
        assert Components(a).value + before + [value] == Components(a).value + (before + [value]);
      }
    }
  }

  lemma ParsedAbsolute(text: string, rest: seq<string>)
    requires Split(text) == ["m"] + rest && rest != []
    ensures Parsed(text) == Components(rest)
  {
    NothingToTrim("m");
    hide Components, Split, Trim;
    assert (["m"] + rest)[1..] == rest;
  }

  /** A relative path means the same as after the default root m/44'/60'/0'/0, in success and in failure. */
  lemma RelativeContinuesRoot(s: string)
    requires Trim(Split(s)[0]) != "" && Trim(Split(s)[0]) != "m"
    ensures Parsed(s) == Parsed(Printed([0x8000_002C, 0x8000_003C, 0x8000_0000, 0]) + "/" + s)
  {
    hide Components, Split, Trim, Printed, Items;
    var root: Path := [0x8000_002C, 0x8000_003C, 0x8000_0000, 0];
    SplitPrinted(root);
    SplitJoins(Printed(root), s);
    ComponentsOfItems(root);
    ComponentsJoin(Items(root), Split(s));
    assert ["m"] + Items(root) + Split(s) == ["m"] + (Items(root) + Split(s));
    ParsedAbsolute(Printed(root) + "/" + s, Items(root) + Split(s));
  }

  /** Distinct paths print differently. */
  lemma PrintedIsUnique(a: Path, b: Path)
    requires Printed(a) == Printed(b)
    ensures a == b
  {
    SplitPrinted(a);
    SplitPrinted(b);
    ComponentsOfItems(a);
    ComponentsOfItems(b);
    assert Items(a) == (["m"] + Items(a))[1..] == (["m"] + Items(b))[1..] == Items(b);
  }

  /** A number from 2^31 up is the hardened form of what is above 2^31, and is printed as such. */
  lemma LargeIsHardened(n: nat)
    requires HARDENED <= n <= MAX_UINT32
    ensures Component(Decimal(n)) == Component(Decimal(n - HARDENED) + "'") == Ok(n)
    ensures Item(n) == Decimal(n - HARDENED) + "'"
  {
    ComponentOfItem(n);
    DecimalIsDigits(n);
    NumeralOfDecimal(n);
    NothingToTrim(Decimal(n));
  }

  // ----- white space -----

  predicate Blank(s: string) {
    forall i :: 0 <= i < |s| ==> IsSpace(s[i])
  }

  lemma {:induction false} TrimLeftSkips(w: string, s: string)
    requires Blank(w)
    ensures TrimLeft(w + s) == TrimLeft(s)
  {
    if w == [] {
      assert w + s == s;
    } else {
      assert (w + s)[1..] == w[1..] + s;
      TrimLeftSkips(w[1..], s);
    }
  }

  lemma {:induction false} TrimRightSkips(s: string, w: string)
    requires Blank(w)
    ensures TrimRight(s + w) == TrimRight(s)
  {
    if w == [] {
      assert s + w == s;
    } else {
      assert (s + w)[..|s + w| - 1] == s + w[..|w| - 1];
      TrimRightSkips(s, w[..|w| - 1]);
    }
  }

  lemma {:induction false} TrimLeftAppends(s: string, w: string)
    requires Blank(w)
    ensures TrimLeft(s + w) == if Blank(s) then [] else TrimLeft(s) + w
  {
    if s == [] {
      assert s + w == w + [];
      TrimLeftSkips(w, []);
    } else if IsSpace(s[0]) {
      assert (s + w)[1..] == s[1..] + w;
      TrimLeftAppends(s[1..], w);
      assert Blank(s) <==> Blank(s[1..]);
    }
  }

  lemma BlankTrims(s: string)
    requires Blank(s)
    ensures TrimLeft(s) == []
  {
    assert s + [] == s;
    TrimLeftSkips(s, []);
  }

  /** White space around a component does not matter. */
  lemma WhiteSpaceIsIgnored(before: string, text: string, after: string)
    requires Blank(before) && Blank(after)
    ensures Component(before + text + after) == Component(text)
  {
    assert Trim(before + text + after) == Trim(text) by {
      assert before + text + after == before + (text + after);
      TrimLeftSkips(before, text + after);
      TrimLeftAppends(text, after);
      if Blank(text) {
        BlankTrims(text);
      } else {
        TrimRightSkips(TrimLeft(text), after);
      }
    }
  }
}
