// File names of the level manager: zero-padded decimal index and level, and the parser that reads them back.
module FileNames {
  import opened Bytes
  import opened Entries

  function Ten(width: nat): nat {
    if width == 0 then 1 else 10 * Ten(width - 1)
  }

  function Digit(d: nat): char
    requires d < 10
  {
    ['0', '1', '2', '3', '4', '5', '6', '7', '8', '9'][d]
  }

  /** Decimal representation without leading zeros. */
  function ToDecimal(n: nat): (s: string)
    ensures |s| > 0
  {
    if n < 10 then [Digit(n)] else ToDecimal(n / 10) + [Digit(n % 10)]
  }

  /** Zero-padded to `width`; the source asks for a negative number of zeros, and throws, when the number is too
      long. */
  function Padded(s: string, width: nat): Option<string> {
    if |s| <= width then Some(seq(width - |s|, i => '0') + s) else None
  }

  function FileName(index: nat, level: nat): Option<string> {
    var indexName, levelName := Padded(ToDecimal(index), 20), Padded(ToDecimal(level), 8);
    if indexName.None? || levelName.None? then None
    else Some(indexName.value + "-" + levelName.value + ".pbt")
  }

  predicate IsDigit(c: char) { '0' <= c <= '9' }

  predicate IsSpace(c: char) { c in [' ', '\t', '\n', '\r', 11 as char, 12 as char] }

  function DigitValue(c: char): nat
    requires IsDigit(c)
  {
    c as int - '0' as int
  }

  /** Length of the longest prefix of digits. */
  function DigitCount(s: string): (n: nat)
    ensures n <= |s|
  {
    if s == "" || !IsDigit(s[0]) then 0 else 1 + DigitCount(s[1..])
  }

  function DecimalValue(s: string): nat
    requires forall i :: 0 <= i < |s| ==> IsDigit(s[i])
  {
    if s == "" then 0 else 10 * DecimalValue(s[..|s| - 1]) + DigitValue(s[|s| - 1])
  }

  lemma {:induction false} DigitPrefix(s: string)
    ensures forall i :: 0 <= i < DigitCount(s) ==> IsDigit(s[i])
  {
    if s != "" && IsDigit(s[0]) {
      DigitPrefix(s[1..]);
    }
  }

  /** The digits in front; nothing when there are none or when the value needs more than 64 bits. */
  function Number(s: string): Option<nat> {
    DigitPrefix(s);
    var digits := s[..DigitCount(s)];
    if digits == "" || DecimalValue(digits) >= U64_LIMIT then None else Some(DecimalValue(digits))
  }

  /** `std::stoull`: leading white space, an optional sign (minus wraps around), digits, anything after them ignored. */
  function Stoull(s: string): Option<nat> {
    if s != "" && IsSpace(s[0]) then Stoull(s[1..])
    else if s != "" && s[0] == '-' then
      var n := Number(s[1..]);
      if n.None? then None else Some((U64_LIMIT - n.value) % U64_LIMIT)
    else if s != "" && s[0] == '+' then Number(s[1..])
    else Number(s)
  }

  /** Index and level of a file name; nothing where the source throws. */
  function ParseFileName(name: string): Option<(nat, nat)> {
    if |name| != 33 || name[20] != '-' then None else
      var index, level := Stoull(name[..20]), Stoull(name[21..29]);
      if index.None? || level.None? then None else Some((index.value, level.value))
  }

  // ---- Fixed-width view.

  function Fixed(n: nat, width: nat): (s: string)
    ensures |s| == width
  {
    if width == 0 then "" else Fixed(n / 10, width - 1) + [Digit(n % 10)]
  }

  lemma {:induction false} PaddedFixed(n: nat, width: nat)
    requires n < Ten(width) && width > 0
    ensures |ToDecimal(n)| <= width && Padded(ToDecimal(n), width) == Some(Fixed(n, width))
  {
    if n < 10 {
      FixedZero(width - 1);
      assert ToDecimal(n) == [Digit(n)];
    } else {
      assert Ten(1) == 10 * Ten(0);
      PaddedFixed(n / 10, width - 1);
      assert seq(width - |ToDecimal(n)|, i => '0') + ToDecimal(n)
          == (seq(width - 1 - |ToDecimal(n / 10)|, i => '0') + ToDecimal(n / 10)) + [Digit(n % 10)];
    }
  }

  lemma {:induction false} FixedZero(width: nat)
    ensures Fixed(0, width) == seq(width, i => '0')
  {
    if width > 0 {
      FixedZero(width - 1);
    }
  }

  lemma {:induction false} TooLong(n: nat, width: nat)
    requires n >= Ten(width)
    ensures |ToDecimal(n)| > width
  {
    if width > 0 {
      if n >= 10 {
        TooLong(n / 10, width - 1);
      } else {
        TenPositive(width - 1);
      }
    }
  }

  lemma {:induction false} TenPositive(width: nat)
    ensures Ten(width) > 0
  {
    if width > 0 { TenPositive(width - 1); }
  }

  /** A name exists exactly when both numbers fit their fields. */
  lemma FileNameExists(index: nat, level: nat)
    ensures FileName(index, level).Some? <==> index < Ten(20) && level < Ten(8)
    ensures FileName(index, level).Some? ==>
            FileName(index, level).value == Fixed(index, 20) + "-" + Fixed(level, 8) + ".pbt"
  {
    hide Ten, ToDecimal, Fixed;
    if index < Ten(20) { PaddedFixed(index, 20); } else { TooLong(index, 20); }
    if level < Ten(8) { PaddedFixed(level, 8); } else { TooLong(level, 8); }
  }

  lemma {:induction false} FixedDigits(n: nat, width: nat)
    ensures forall i :: 0 <= i < width ==> IsDigit(Fixed(n, width)[i])
    ensures n < Ten(width) ==> DecimalValue(Fixed(n, width)) == n
  {
    if width > 0 {
      FixedDigits(n / 10, width - 1);
      var s := Fixed(n, width);
      assert s[..|s| - 1] == Fixed(n / 10, width - 1);
    }
  }

  ghost predicate Digits(s: string) {
    forall i :: 0 <= i < |s| ==> IsDigit(s[i])
  }

  /** A name is index and level in decimal, zero-padded to 20 and 8 digits, with a dash between and the extension. */
  lemma NameForm(index: nat, level: nat)
    requires FileName(index, level).Some?
    ensures var name := FileName(index, level).value;
            && |name| == 33 && name[20] == '-' && name[29..] == ['.', 'p', 'b', 't']
            && Digits(name[..20]) && DecimalValue(name[..20]) == index
            && Digits(name[21..29]) && DecimalValue(name[21..29]) == level
  {
    hide Ten, Fixed, FileName, DecimalValue;
    FileNameExists(index, level);
    FixedDigits(index, 20);
    FixedDigits(level, 8);
    var name := FileName(index, level).value;
    assert name[..20] == Fixed(index, 20) && name[21..29] == Fixed(level, 8);
  }

  /** The longest prefix of digits ends where something else than a digit comes. */
  lemma {:induction false} DigitsCounted(digits: string, rest: string)
    requires Digits(digits) && (rest == "" || !IsDigit(rest[0]))
    ensures DigitCount(digits + rest) == |digits|
  {
    if digits != "" {
      assert (digits + rest)[1..] == digits[1..] + rest;
      DigitsCounted(digits[1..], rest);
    } else {
      assert digits + rest == rest;
    }
  }

  lemma StoullFixed(n: nat, width: nat)
    requires n < Ten(width) && n < U64_LIMIT && width > 0
    ensures Stoull(Fixed(n, width)) == Some(n)
  {
    hide Ten, U64_LIMIT, Fixed;
    var s := Fixed(n, width);
    FixedDigits(n, width);
    DigitsCounted(s, "");
    assert s + "" == s && s[..|s|] == s;
    assert IsDigit(s[0]);
  }

  // ---- What is parsed.

  ghost predicate Spaces(s: string) {
    forall i :: 0 <= i < |s| ==> IsSpace(s[i])
  }

  /** The text is white space, at most one sign, digits and then anything but a digit. */
  ghost predicate Numeral(s: string, spaces: string, sign: string, digits: string, rest: string) {
    && s == spaces + (sign + (digits + rest)) && Spaces(spaces) && sign in {"", "+", "-"}
    && digits != "" && Digits(digits) && (rest == "" || !IsDigit(rest[0]))
  }

  lemma NumberReads(digits: string, rest: string)
    requires digits != "" && Digits(digits) && (rest == "" || !IsDigit(rest[0]))
    ensures Number(digits + rest) == if DecimalValue(digits) < U64_LIMIT then Some(DecimalValue(digits)) else None
  {
    DigitsCounted(digits, rest);
    assert (digits + rest)[..|digits|] == digits;
  }

  /** Such a text is read as its number, negated within 64 bits after a minus sign, if 64 bits hold the number. */
  lemma {:induction false} NumeralReads(s: string, spaces: string, sign: string, digits: string, rest: string)
    requires Numeral(s, spaces, sign, digits, rest)
    ensures Stoull(s) ==
            if DecimalValue(digits) >= U64_LIMIT then None
            else Some(if sign == "-" then (U64_LIMIT - DecimalValue(digits)) % U64_LIMIT else DecimalValue(digits))
    decreases |spaces|
  {
    hide Number, DecimalValue, U64_LIMIT;
    if spaces != "" {
      assert s[0] == spaces[0] && s[1..] == spaces[1..] + (sign + (digits + rest));
      NumeralReads(s[1..], spaces[1..], sign, digits, rest);
    } else {
      assert s == sign + (digits + rest);
      NumberReads(digits, rest);
      if sign == "" {
        assert s == digits + rest && s[0] == digits[0] && IsDigit(s[0]);
      } else {
        assert s[1..] == digits + rest;
      }
    }
  }

  lemma {:induction false} CountEnds(s: string)
    ensures DigitCount(s) < |s| ==> !IsDigit(s[DigitCount(s)])
  {
    if s != "" && IsDigit(s[0]) {
      CountEnds(s[1..]);
    }
  }

  lemma NumberParts(s: string) returns (digits: string, rest: string)
    requires Number(s).Some?
    ensures s == digits + rest && digits != "" && Digits(digits) && (rest == "" || !IsDigit(rest[0]))
  {
    hide DecimalValue, DigitCount, IsDigit;
    DigitPrefix(s);
    CountEnds(s);
    digits, rest := s[..DigitCount(s)], s[DigitCount(s)..];
  }

  /** Nothing else is read. */
  lemma {:induction false} ReadsNumeral(s: string) returns (spaces: string, sign: string, digits: string, rest: string)
    requires Stoull(s).Some?
    ensures Numeral(s, spaces, sign, digits, rest)
  {
    hide Number, IsDigit, Digits;
    if s != "" && IsSpace(s[0]) {
      spaces, sign, digits, rest := ReadsNumeral(s[1..]);
      SpaceAhead(s, spaces, sign, digits, rest);
      spaces := [s[0]] + spaces;
    } else {
      spaces := "";
      sign := if s != "" && s[0] == '-' then "-" else if s != "" && s[0] == '+' then "+" else "";
      assert s == sign + s[|sign|..];
      digits, rest := NumberParts(s[|sign|..]);
      assert spaces + (sign + (digits + rest)) == sign + (digits + rest);
    }
  }

  lemma SpaceAhead(s: string, spaces: string, sign: string, digits: string, rest: string)
    requires s != "" && IsSpace(s[0]) && Numeral(s[1..], spaces, sign, digits, rest)
    ensures Numeral(s, [s[0]] + spaces, sign, digits, rest)
  {
    hide IsSpace, Digits, IsDigit;
    assert s == [s[0]] + s[1..];
    assert ([s[0]] + spaces) + (sign + (digits + rest)) == [s[0]] + (spaces + (sign + (digits + rest)));
  }

  ghost predicate SmallNumber(digits: string) {
    Digits(digits) && DecimalValue(digits) < U64_LIMIT
  }

  ghost predicate HoldsNumber(s: string) {
    exists spaces, sign, digits, rest :: Numeral(s, spaces, sign, digits, rest) && SmallNumber(digits)
  }

  lemma StoullIff(s: string)
    ensures Stoull(s).Some? <==> HoldsNumber(s)
  {
    hide Stoull, IsDigit, IsSpace, U64_LIMIT;
    if Stoull(s).Some? {
      var spaces, sign, digits, rest := ReadsNumeral(s);
      NumeralReads(s, spaces, sign, digits, rest);
      assert SmallNumber(digits);
    } else if HoldsNumber(s) {
      var spaces, sign, digits, rest :| Numeral(s, spaces, sign, digits, rest) && SmallNumber(digits);
      NumeralReads(s, spaces, sign, digits, rest);
    }
  }

  /** A name is accepted exactly when it has 33 characters, a dash behind the first 20, and both fields hold numbers of
      64 bits; its extension is not looked at. */
  lemma ParsesIff(name: string)
    ensures ParseFileName(name).Some? <==>
              |name| == 33 && name[20] == '-' && HoldsNumber(name[..20]) && HoldsNumber(name[21..29])
  {
    hide HoldsNumber, Stoull;
    if |name| == 33 {
      StoullIff(name[..20]);
      StoullIff(name[21..29]);
    }
  }

  /** Parsing inverts naming, for every index and level a name exists for and 64 bits hold. */
  lemma NameRoundTrip(index: nat, level: nat)
    requires index < U64_LIMIT && FileName(index, level).Some?
    ensures ParseFileName(FileName(index, level).value) == Some((index, level))
  {
    hide Stoull, Fixed, FileName, Ten;
    FileNameExists(index, level);
    TenEight();
    var name := FileName(index, level).value;
    assert name[..20] == Fixed(index, 20) && name[21..29] == Fixed(level, 8);
    StoullFixed(index, 20);
    StoullFixed(level, 8);
  }

  lemma TenEight()
    ensures Ten(8) == 100_000_000 && Ten(20) == 100_000_000_000_000_000_000 && Ten(8) < U64_LIMIT < Ten(20)
  {
    assert Ten(8) == 10000_0000 * Ten(0);
    assert Ten(20) == 1_0000_0000_0000 * Ten(8);
  }

  // ---- Order of names.

  function Codes(s: string): (c: seq<int>)
    ensures |c| == |s|
    ensures forall i :: 0 <= i < |s| ==> c[i] == s[i] as int
  {
    seq(|s|, i requires 0 <= i < |s| => s[i] as int)
  }

  predicate NameLess(a: string, b: string) {
    Less(Codes(a), Codes(b))
  }

  lemma {:induction false} LessAppend(a: seq<int>, x: seq<int>, b: seq<int>, y: seq<int>)
    requires |a| == |b|
    ensures Less(a + x, b + y) <==> Less(a, b) || (a == b && Less(x, y))
  {
    if a == [] {
      assert a + x == x && b + y == y;
    } else {
      assert (a + x)[1..] == a[1..] + x && (b + y)[1..] == b[1..] + y;
      LessAppend(a[1..], x, b[1..], y);
      assert a == [a[0]] + a[1..] && b == [b[0]] + b[1..];
    }
  }

  lemma CodesConcat(a: string, b: string)
    ensures Codes(a + b) == Codes(a) + Codes(b)
  {
  }

  /** Fixed-width decimals order as the numbers do. */
  lemma {:induction false} FixedOrder(a: nat, b: nat, width: nat)
    requires a < Ten(width) && b < Ten(width)
    ensures Less(Codes(Fixed(a, width)), Codes(Fixed(b, width))) <==> a < b
    ensures Codes(Fixed(a, width)) == Codes(Fixed(b, width)) <==> a == b
  {
    if width > 0 {
      FixedOrder(a / 10, b / 10, width - 1);
      var fa, fb := Codes(Fixed(a / 10, width - 1)), Codes(Fixed(b / 10, width - 1));
      CodesConcat(Fixed(a / 10, width - 1), [Digit(a % 10)]);
      CodesConcat(Fixed(b / 10, width - 1), [Digit(b % 10)]);
      LessAppend(fa, Codes([Digit(a % 10)]), fb, Codes([Digit(b % 10)]));
      LastDigit(a % 10, b % 10);
      assert a == 10 * (a / 10) + a % 10 && b == 10 * (b / 10) + b % 10;
      SplitLast(fa, Digit(a % 10) as int, fb, Digit(b % 10) as int);
    }
  }

  lemma SplitLast(a: seq<int>, x: int, b: seq<int>, y: int)
    ensures a + [x] == b + [y] <==> a == b && x == y
  {
    if a + [x] == b + [y] {
      assert (a + [x])[..|a|] == a && (b + [y])[..|b|] == b;
      assert (a + [x])[|a|] == x && (b + [y])[|b|] == y;
    }
  }

  lemma LastDigit(x: nat, y: nat)
    requires x < 10 && y < 10
    ensures Less(Codes([Digit(x)]), Codes([Digit(y)])) <==> x < y
    ensures Codes([Digit(x)]) == [Digit(x) as int] && Codes([Digit(y)]) == [Digit(y) as int]
    ensures Digit(x) as int == Digit(y) as int <==> x == y
  {
    assert Digit(x) as int == 48 + x && Digit(y) as int == 48 + y;
    var cx, cy := Codes([Digit(x)]), Codes([Digit(y)]);
    assert cx[1..] == [] && cy[1..] == [];
  }

  /** The map from (index, level) to names is increasing, hence injective: names sort as index, then level. */
  lemma NameOrder(i: nat, l: nat, j: nat, m: nat)
    requires FileName(i, l).Some? && FileName(j, m).Some?
    ensures NameLess(FileName(i, l).value, FileName(j, m).value) <==> i < j || (i == j && l < m)
    ensures FileName(i, l).value == FileName(j, m).value <==> i == j && l == m
  {
    hide Less, Ten, Fixed, FileName, Codes;
    FileNameExists(i, l);
    FileNameExists(j, m);
    var fi, fl, fj, fm := Fixed(i, 20), Fixed(l, 8), Fixed(j, 20), Fixed(m, 8);
    FixedOrder(i, j, 20);
    FixedOrder(l, m, 8);
    assert fi + "-" + fl + ".pbt" == fi + ("-" + (fl + ".pbt")) && fj + "-" + fm + ".pbt" == fj + ("-" + (fm + ".pbt"));
    CodesConcat(fi, "-" + (fl + ".pbt"));
    CodesConcat(fj, "-" + (fm + ".pbt"));
    CodesConcat("-", fl + ".pbt");
    CodesConcat("-", fm + ".pbt");
    CodesConcat(fl, ".pbt");
    CodesConcat(fm, ".pbt");
    LessAppend(Codes(fi), Codes("-" + (fl + ".pbt")), Codes(fj), Codes("-" + (fm + ".pbt")));
    LessAppend(Codes("-"), Codes(fl + ".pbt"), Codes("-"), Codes(fm + ".pbt"));
    LessAppend(Codes(fl), Codes(".pbt"), Codes(fm), Codes(".pbt"));
    LessIrreflexive(Codes("-"));
    LessIrreflexive(Codes(".pbt"));
    NameFields(fi, fl, fj, fm);
    CodesSame(fi, fj);
    CodesSame(fl, fm);
  }

  lemma CodesSame(a: string, b: string)
    ensures Codes(a) == Codes(b) <==> a == b
  {
    if Codes(a) == Codes(b) {
      forall i | 0 <= i < |a| ensures a[i] == b[i] {
        assert Codes(a)[i] == Codes(b)[i];
      }
    }
  }

  lemma NameFields(fi: string, fl: string, fj: string, fm: string)
    requires |fi| == |fj| && |fl| == |fm|
    ensures fi + "-" + fl + ".pbt" == fj + "-" + fm + ".pbt" <==> fi == fj && fl == fm
  {
    var a, b := fi + "-" + fl + ".pbt", fj + "-" + fm + ".pbt";
    if a == b {
      assert a[..|fi|] == fi && b[..|fj|] == fj;
      assert a[|fi| + 1..|fi| + 1 + |fl|] == fl && b[|fj| + 1..|fj| + 1 + |fm|] == fm;
    }
  }
}
