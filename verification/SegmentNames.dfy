/** File names of HLS segments: "seg_" + the number in at least five digits + ".ts". */
module SegmentNames {

  const MAX_INT: int := 0x7fff_ffff_ffff_ffff
  const MIN_INT: int := -0x8000_0000_0000_0000

  predicate IsDigit(c: char) {
    '0' <= c <= '9'
  }

  predicate AllDigits(s: string) {
    forall i | 0 <= i < |s| :: IsDigit(s[i])
  }

  function DigitChar(d: int): char
    requires 0 <= d < 10
  {
    '0' + d as char
  }

  function Decimal(n: nat): (s: string)
    ensures s != "" && AllDigits(s)
    ensures n > 0 ==> s[0] != '0'
    ensures n < 10 ==> |s| == 1
  {
    if n < 10 then [DigitChar(n)] else Decimal(n / 10) + [DigitChar(n % 10)]
  }

  function ZeroPad(s: string, width: nat): string {
    if |s| >= width then s else seq(width - |s|, _ => '0') + s
  }

  function Value(s: string): nat
    requires AllDigits(s)
  {
    if s == "" then 0 else 10 * Value(s[..|s| - 1]) + (s[|s| - 1] - '0') as int
  }

  /** strconv.Atoi with its error dropped: 0 for bad syntax, the nearest int64 when out of range. */
  function Atoi(s: string): int {
    var signed := s != "" && (s[0] == '-' || s[0] == '+');
    var digits := if signed then s[1..] else s;
    if digits == "" || !AllDigits(digits) then 0
    else if signed && s[0] == '-' then (if 0 - Value(digits) < MIN_INT then MIN_INT else 0 - Value(digits))
    else if Value(digits) > MAX_INT then MAX_INT
    else Value(digits)
  }

  predicate HasPrefix(s: string, p: string) {
    |p| <= |s| && s[..|p|] == p
  }

  predicate HasSuffix(s: string, p: string) {
    |p| <= |s| && s[|s| - |p|..] == p
  }

  /** The verb %05d: a minus sign counts towards the five columns. */
  function FiveColumns(n: int): string {
    if n >= 0 then ZeroPad(Decimal(n), 5) else "-" + ZeroPad(Decimal(-n), 4)
  }

  function FormatSegName(n: int): string {
    "seg_" + FiveColumns(n) + ".ts"
  }

  predicate IsValidSegmentName(name: string): (r: bool)
    ensures r ==> |name| > 7
  {
    if !HasPrefix(name, "seg_") || !HasSuffix(name, ".ts") then false
    else
      assert |name| >= 7 by { PrefixAndSuffixApart(name); }
      var inner := name[4..|name| - 3];
      AllDigits(inner) && |inner| > 0
  }

  function ParseSegmentNumber(name: string): int {
    var s := if HasPrefix(name, "seg_") then name[4..] else name;
    Atoi(if HasSuffix(s, ".ts") then s[..|s| - 3] else s)
  }

  /** The slice name[4 : len-3] taken after the prefix and suffix tests never panics. */
  lemma PrefixAndSuffixApart(name: string)
    requires HasPrefix(name, "seg_") && HasSuffix(name, ".ts")
    ensures |name| >= 7
  {
    assert name[..4][1] == 'e' && name[..4][2] == 'g' && name[..4][3] == '_';
    assert name[|name| - 3..][0] == '.';
    assert name[|name| - 3] == '.' && name[1] == 'e' && name[2] == 'g' && name[3] == '_';
  }

  // ---- decimal notation ----

  lemma {:induction false} ValueOfDecimal(n: nat)
    ensures Value(Decimal(n)) == n
  {
    if n < 10 {
    } else {
      ValueOfDecimal(n / 10);
      assert Decimal(n)[..|Decimal(n)| - 1] == Decimal(n / 10);
    }
  }

  lemma {:induction false} ValueOfZeroPad(s: string, width: nat)
    requires AllDigits(s)
    ensures AllDigits(ZeroPad(s, width)) && Value(ZeroPad(s, width)) == Value(s)
    decreases |s|
  {
    if |s| >= width {
    } else {
      var z := ZeroPad(s, width);
      if s == "" {
        ZerosAreZero(width);
        assert z == seq(width, _ => '0');
      } else {
        ValueOfZeroPad(s[..|s| - 1], width - 1);
        assert z[..|z| - 1] == ZeroPad(s[..|s| - 1], width - 1);
      }
    }
  }

  lemma {:induction false} ZerosAreZero(k: nat)
    ensures AllDigits(seq(k, _ => '0')) && Value(seq(k, _ => '0')) == 0
  {
    if k == 0 {
    } else {
      ZerosAreZero(k - 1);
      assert seq(k, _ => '0')[..k - 1] == seq(k - 1, _ => '0');
    }
  }

  /** Padding commutes with a digit at the end; padding nothing is padding a zero. */
  lemma PadOneMore(s: string, d: int, width: nat)
    requires 0 <= d < 10 && |s| <= width && width > 0
    ensures ZeroPad(s + [DigitChar(d)], width + 1) == ZeroPad(s, width) + [DigitChar(d)]
    ensures s == "" ==> ZeroPad(s, width) == ZeroPad("0", width)
  {
  }

  /** Writing a digit string's value back in as many columns restores the string. */
  lemma {:induction false} PadRestores(s: string)
    requires AllDigits(s) && s != ""
    ensures |Decimal(Value(s))| <= |s| && ZeroPad(Decimal(Value(s)), |s|) == s
    decreases |s|
  {
    var p, d := s[..|s| - 1], (s[|s| - 1] - '0') as int;
    assert s == p + [DigitChar(d)];
    if p == "" {
      assert Value(p) == 0;
    } else {
      PadRestores(p);
      if Value(p) == 0 {
        assert Decimal(0) == "0" && Decimal(d) == [DigitChar(d)];
        PadOneMore("", d, |p|);
      } else {
        assert Value(s) / 10 == Value(p) && Value(s) % 10 == d;
        PadOneMore(Decimal(Value(p)), d, |p|);
      }
    }
  }

  // ---- names ----

  lemma SplitName(inner: string)
    ensures var name := "seg_" + inner + ".ts";
            HasPrefix(name, "seg_") && HasSuffix(name, ".ts") && name[4..|name| - 3] == inner
    ensures ParseSegmentNumber("seg_" + inner + ".ts") == Atoi(inner)
  {
    var name := "seg_" + inner + ".ts";
    assert name[..4] == "seg_" && name[4..] == inner + ".ts" && name[|name| - 3..] == ".ts";
    assert (inner + ".ts")[|inner|..] == ".ts" && (inner + ".ts")[..|inner|] == inner;
  }

  /** A name is valid exactly when it is seg_, one or more digits, and .ts. */
  lemma ValidExactlyWhen(name: string)
    ensures IsValidSegmentName(name) <==>
              exists digits :: digits != "" && (forall i | 0 <= i < |digits| :: '0' <= digits[i] <= '9')
                               && name == "seg_" + digits + ".ts"
  {
    if IsValidSegmentName(name) {
      var inner := name[4..|name| - 3];
      assert forall i | 0 <= i < |inner| :: IsDigit(inner[i]);
      assert name == "seg_" + inner + ".ts";
    }
    if digits :| digits != "" && (forall i | 0 <= i < |digits| :: '0' <= digits[i] <= '9')
                 && name == "seg_" + digits + ".ts" {
      SplitName(digits);
    }
  }

  /** A number is written in at least five digits, with leading zeros up to five only. */
  lemma FormatWrites(n: nat) returns (digits: string)
    ensures FormatSegName(n) == "seg_" + digits + ".ts" && |digits| >= 5 && (|digits| > 5 ==> digits[0] != '0')
    ensures AllDigits(digits) && Value(digits) == n
  {
    digits := FiveColumns(n);
    ValueOfZeroPad(Decimal(n), 5);
    ValueOfDecimal(n);
  }

  /** Formatting gives a valid name exactly for non-negative numbers. */
  lemma FormatIsValid(n: int)
    ensures IsValidSegmentName(FormatSegName(n)) <==> n >= 0
  {
    SplitName(FiveColumns(n));
    if n < 0 {
      assert !IsDigit(FiveColumns(n)[0]);
    }
  }

  /** Parsing undoes formatting on every Go int, so formatting is injective. */
  lemma FormatThenParse(n: int)
    requires MIN_INT <= n <= MAX_INT
    ensures ParseSegmentNumber(FormatSegName(n)) == n
  {
    SplitName(FiveColumns(n));
    AtoiOfFiveColumns(n);
  }

  lemma AtoiOfFiveColumns(n: int)
    requires MIN_INT <= n <= MAX_INT
    ensures Atoi(FiveColumns(n)) == n
  {
    var m, width := if n >= 0 then n else -n, if n >= 0 then 5 else 4;
    var digits := ZeroPad(Decimal(m), width);
    ValueOfZeroPad(Decimal(m), width);
    ValueOfDecimal(m);
    AtoiOfSigned(digits, n < 0);
  }

  lemma AtoiOfSigned(digits: string, negative: bool)
    requires AllDigits(digits) && digits != "" && Value(digits) <= if negative then 0 - MIN_INT else MAX_INT
    ensures Atoi(if negative then "-" + digits else digits) == if negative then 0 - Value(digits) else Value(digits)
  {
    assert IsDigit(digits[0]);
    assert ("-" + digits)[1..] == digits;
  }

  lemma FormatInjective(m: int, n: int)
    requires MIN_INT <= m <= MAX_INT && MIN_INT <= n <= MAX_INT
    ensures FormatSegName(m) == FormatSegName(n) <==> m == n
  {
    FormatThenParse(m);
    FormatThenParse(n);
  }

  /** A valid name survives parse-then-format exactly when its number is an int64 written with
      at least five digits and no surplus leading zero. */
  lemma ParseThenFormat(name: string)
    requires IsValidSegmentName(name)
    ensures var inner := name[4..|name| - 3];
            FormatSegName(ParseSegmentNumber(name)) == name
            <==> |inner| >= 5 && (|inner| == 5 || inner[0] != '0') && Value(inner) <= MAX_INT
  {
    var inner := name[4..|name| - 3];
    assert name == "seg_" + inner + ".ts";
    SplitName(inner);
    var v := ParseSegmentNumber(name);
    assert v == if Value(inner) > MAX_INT then MAX_INT else Value(inner);
    SplitName(FiveColumns(v));
    assert FormatSegName(v) == name <==> FiveColumns(v) == inner;
    ColumnsRestored(inner, v);
  }

  lemma ColumnsRestored(inner: string, v: nat)
    requires AllDigits(inner) && inner != "" && v == if Value(inner) > MAX_INT then MAX_INT else Value(inner)
    ensures FiveColumns(v) == inner <==> |inner| >= 5 && (|inner| == 5 || inner[0] != '0') && Value(inner) <= MAX_INT
  {
    ValueOfZeroPad(Decimal(v), 5);
    ValueOfDecimal(v);
    PadRestores(inner);
    if Value(inner) <= MAX_INT && |inner| > 5 && inner[0] != '0' {
      assert |Decimal(v)| == |inner|;
    }
  }
}
