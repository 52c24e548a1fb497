/** Date prefixes of folder names: "2024.06.02-04 Trip", "2005.05 Term", "1984-1987 Various",
    "2004 Misc". */
module DatePrefixes {
  import opened Options
  import opened SegmentNames
  import opened Utf8

  // ---- the four patterns as regular expressions ----

  /** One: a character of the class written d, . or -.  Tail: a separator and one or more
      characters other than newlines, up to the end. */
  datatype Pattern = Tail | One(kind: char, next: Pattern) | Either(first: Pattern, second: Pattern)

  function Then(shape: string, next: Pattern): Pattern {
    if shape == "" then next else One(shape[0], Then(shape[1..], next))
  }

  const DAY_PATTERN := Then("dddd.dd.dd",
    Either(Then("-", Either(Then("dddd.dd.dd", Tail), Either(Then("dd.dd", Tail), Then("dd", Tail)))), Tail))
  const MONTH_PATTERN := Then("dddd.dd", Either(Then("-dd", Tail), Tail))
  const YEAR_RANGE_PATTERN := Then("dddd-dddd", Tail)
  const YEAR_PATTERN := Then("dddd", Tail)

  predicate IsKind(kind: char, c: char) {
    if kind == 'd' then IsDigit(c) else c == kind
  }

  /** The class [\s_]. */
  predicate IsSeparator(c: char) {
    c in "\t\n\U{000C}\r _"
  }

  predicate IsTail(s: string) {
    |s| >= 2 && IsSeparator(s[0]) && '\n' !in s[1..]
  }

  predicate Accepts(p: Pattern, s: string) {
    match p
    case Tail => IsTail(s)
    case One(kind, next) => s != "" && IsKind(kind, s[0]) && Accepts(next, s[1..])
    case Either(first, second) => Accepts(first, s) || Accepts(second, s)
  }

  // ---- the same patterns as shapes ----

  /** One constructor for each way through the patterns, in the order in which they are tried. */
  datatype Shape =
    | DateToDate | DateToMonthDay | DateToDay | SingleDate
    | MonthToMonth | SingleMonth
    | YearToYear
    | SingleYear

  function Text(shape: Shape): string {
    match shape
    case DateToDate => "dddd.dd.dd-dddd.dd.dd"
    case DateToMonthDay => "dddd.dd.dd-dd.dd"
    case DateToDay => "dddd.dd.dd-dd"
    case SingleDate => "dddd.dd.dd"
    case MonthToMonth => "dddd.dd-dd"
    case SingleMonth => "dddd.dd"
    case YearToYear => "dddd-dddd"
    case SingleYear => "dddd"
  }

  predicate IsDay(shape: Shape) {
    shape.DateToDate? || shape.DateToMonthDay? || shape.DateToDay? || shape.SingleDate?
  }

  predicate Fits(shape: string, s: string) {
    |s| == |shape| && forall i | 0 <= i < |s| :: IsKind(shape[i], s[i])
  }

  predicate BeginsWith(shape: string, name: string) {
    |shape| <= |name| && Fits(shape, name[..|shape|]) && IsTail(name[|shape|..])
  }

  predicate Matches(shape: Shape, name: string) {
    BeginsWith(Text(shape), name)
  }

  /** The shape that name begins with. */
  function Find(name: string): (r: Option<Shape>)
    ensures r == None <==> forall shape :: !Matches(shape, name)
    ensures r.Some? ==> Matches(r.value, name)
  {
    if Matches(DateToDate, name) then Some(DateToDate)
    else if Matches(DateToMonthDay, name) then Some(DateToMonthDay)
    else if Matches(DateToDay, name) then Some(DateToDay)
    else if Matches(SingleDate, name) then Some(SingleDate)
    else if Matches(MonthToMonth, name) then Some(MonthToMonth)
    else if Matches(SingleMonth, name) then Some(SingleMonth)
    else if Matches(YearToYear, name) then Some(YearToYear)
    else if Matches(SingleYear, name) then Some(SingleYear)
    else None
  }

  predicate OverAlphabet(shape: string) {
    forall c | c in shape :: c in "d.-"
  }

  lemma TextIsUnique(a: string, b: string, name: string)
    requires OverAlphabet(a) && OverAlphabet(b) && BeginsWith(a, name) && BeginsWith(b, name)
    ensures a == b
  {
    LongerDoesNotMatch(a, b, name);
    LongerDoesNotMatch(b, a, name);
    forall i | 0 <= i < |a|
      ensures a[i] == b[i]
    {
      assert a[i] in a && b[i] in b;
      assert IsKind(a[i], name[..|a|][i]) && IsKind(b[i], name[..|b|][i]);
    }
  }

  /** The separator after a shape fits no character of a longer one. */
  lemma LongerDoesNotMatch(a: string, b: string, name: string)
    requires OverAlphabet(b) && BeginsWith(a, name)
    ensures |a| < |b| ==> !BeginsWith(b, name)
  {
    if |a| < |b| <= |name| {
      assert b[|a|] in b;
      assert name[|a|..][0] == name[|a|] == name[..|b|][|a|];
      assert !IsKind(b[|a|], name[|a|]);
    }
  }

  /** No name has two shapes: neither the order of the patterns nor that of the alternatives in
      them matters. */
  lemma ShapeIsUnique(a: Shape, b: Shape, name: string)
    requires Matches(a, name) && Matches(b, name)
    ensures a == b
  {
    TextOverAlphabet(a);
    TextOverAlphabet(b);
    TextIsUnique(Text(a), Text(b), name);
    TextIsInjective(a, b);
  }

  lemma TextOverAlphabet(shape: Shape)
    ensures OverAlphabet(Text(shape))
  {
  }

  lemma TextIsInjective(a: Shape, b: Shape)
    requires Text(a) == Text(b)
    ensures a == b
  {
  }

  lemma {:induction false} AcceptsThen(shape: string, next: Pattern, s: string)
    ensures Accepts(Then(shape, next), s)
            <==> |shape| <= |s| && Fits(shape, s[..|shape|]) && Accepts(next, s[|shape|..])
    decreases |shape|
  {
    if shape == "" {
      assert s[0..] == s;
    } else if s != "" {
      AcceptsThen(shape[1..], next, s[1..]);
      AcceptsOne(shape[0], Then(shape[1..], next), s);
      if |shape| <= |s| {
        FitsStep(shape, s);
        assert s[1..][|shape| - 1..] == s[|shape|..];
      }
    }
  }

  lemma AcceptsOne(kind: char, next: Pattern, s: string)
    requires s != ""
    ensures Accepts(One(kind, next), s) <==> IsKind(kind, s[0]) && Accepts(next, s[1..])
  {
  }

  lemma FitsStep(shape: string, s: string)
    requires 0 < |shape| <= |s|
    ensures Fits(shape, s[..|shape|]) <==> IsKind(shape[0], s[0]) && Fits(shape[1..], s[1..][..|shape| - 1])
  {
    assert s[1..][..|shape| - 1] == s[..|shape|][1..];
    assert forall i | 0 < i < |shape| :: s[..|shape|][1..][i - 1] == s[i] && shape[1..][i - 1] == shape[i];
  }

  lemma {:induction false} ThenThen(a: string, b: string, next: Pattern)
    ensures Then(a, Then(b, next)) == Then(a + b, next)
    decreases |a|
  {
    if a == "" {
      assert a + b == b;
    } else {
      ThenThen(a[1..], b, next);
      assert (a + b)[1..] == a[1..] + b;
    }
  }

  /** Alternatives after a shape. */
  lemma ThenEither(shape: string, p: Pattern, q: Pattern, s: string)
    ensures Accepts(Then(shape, Either(p, q)), s) <==> Accepts(Then(shape, p), s) || Accepts(Then(shape, q), s)
  {
  }

  /** Each pattern accepts exactly the names that begin with one of its shapes. */
  lemma PatternsAreShapes(name: string)
    ensures Accepts(DAY_PATTERN, name) <==> exists shape :: IsDay(shape) && Matches(shape, name)
    ensures Accepts(MONTH_PATTERN, name) <==> Matches(MonthToMonth, name) || Matches(SingleMonth, name)
    ensures Accepts(YEAR_RANGE_PATTERN, name) <==> Matches(YearToYear, name)
    ensures Accepts(YEAR_PATTERN, name) <==> Matches(SingleYear, name)
  {
    DayPatternIsShapes(name);
    MonthPatternIsShapes(name);
    AcceptsThen(Text(YearToYear), Tail, name);
    AcceptsThen(Text(SingleYear), Tail, name);
  }

  /** At most one of the four patterns accepts a name. */
  lemma PatternsAreExclusive(name: string)
    ensures !(Accepts(DAY_PATTERN, name) && Accepts(MONTH_PATTERN, name))
    ensures !(Accepts(DAY_PATTERN, name) && Accepts(YEAR_RANGE_PATTERN, name))
    ensures !(Accepts(DAY_PATTERN, name) && Accepts(YEAR_PATTERN, name))
    ensures !(Accepts(MONTH_PATTERN, name) && Accepts(YEAR_RANGE_PATTERN, name))
    ensures !(Accepts(MONTH_PATTERN, name) && Accepts(YEAR_PATTERN, name))
    ensures !(Accepts(YEAR_RANGE_PATTERN, name) && Accepts(YEAR_PATTERN, name))
  {
    PatternsAreShapes(name);
    forall a, b | Matches(a, name) && Matches(b, name)
      ensures a == b
    {
      ShapeIsUnique(a, b, name);
    }
  }

  lemma MonthPatternIsShapes(name: string)
    ensures Accepts(MONTH_PATTERN, name) <==> Matches(MonthToMonth, name) || Matches(SingleMonth, name)
  {
    ThenEither("dddd.dd", Then("-dd", Tail), Tail, name);
    ThenThen("dddd.dd", "-dd", Tail);
    assert "dddd.dd" + "-dd" == Text(MonthToMonth);
    AcceptsThen(Text(MonthToMonth), Tail, name);
    AcceptsThen(Text(SingleMonth), Tail, name);
  }

  lemma DayPatternIsShapes(name: string)
    ensures Accepts(DAY_PATTERN, name) <==> exists shape :: IsDay(shape) && Matches(shape, name)
  {
    NestedEnds("dddd.dd.dd", "-", "dddd.dd.dd", "dd.dd", "dd", name);
    assert "dddd.dd.dd" + "-" + "dddd.dd.dd" == Text(DateToDate);
    assert "dddd.dd.dd" + "-" + "dd.dd" == Text(DateToMonthDay);
    assert "dddd.dd.dd" + "-" + "dd" == Text(DateToDay);
    assert "dddd.dd.dd" == Text(SingleDate);
    assert Accepts(DAY_PATTERN, name) <==>
           Matches(DateToDate, name) || Matches(DateToMonthDay, name) || Matches(DateToDay, name)
             || Matches(SingleDate, name);
  }

  lemma NestedEnds(start: string, dash: string, a: string, b: string, c: string, name: string)
    ensures Accepts(Then(start, Either(Then(dash, Either(Then(a, Tail), Either(Then(b, Tail), Then(c, Tail)))), Tail)),
                    name)
            <==> || BeginsWith(start + dash + a, name)
                 || BeginsWith(start + dash + b, name)
                 || BeginsWith(start + dash + c, name)
                 || BeginsWith(start, name)
  {
    var ends := Either(Then(a, Tail), Either(Then(b, Tail), Then(c, Tail)));
    ThenEither(start, Then(dash, ends), Tail, name);
    ThenThen(start, dash, ends);
    ThenEither(start + dash, ends.first, ends.second, name);
    ThenEither(start + dash, ends.second.first, ends.second.second, name);
    ThenThen(start + dash, a, Tail);
    ThenThen(start + dash, b, Tail);
    ThenThen(start + dash, c, Tail);
    AcceptsThen(start + dash + a, Tail, name);
    AcceptsThen(start + dash + b, Tail, name);
    AcceptsThen(start + dash + c, Tail, name);
    AcceptsThen(start, Tail, name);
  }

  // ---- dates and their labels ----

  /** Years, months and days as written; a single day or month ends where it starts. */
  datatype Date =
    | Days(year: int, month: int, day: int, endYear: int, endMonth: int, endDay: int)
    | Months(year: int, month: int, endMonth: int)
    | Years(year: int, endYear: int)
    | OneYear(year: int)

  const MONTH_NAMES := ["", "January", "February", "March", "April", "May", "June",
                        "July", "August", "September", "October", "November", "December"]

  /** The date written as d, which fits shape. */
  function DateOf(shape: Shape, d: string): Date
    requires |d| == |Text(shape)|
  {
    match shape
    case DateToDate => Days(Atoi(d[0..4]), Atoi(d[5..7]), Atoi(d[8..10]), Atoi(d[11..15]), Atoi(d[16..18]),
                            Atoi(d[19..21]))
    case DateToMonthDay => Days(Atoi(d[0..4]), Atoi(d[5..7]), Atoi(d[8..10]), Atoi(d[0..4]), Atoi(d[11..13]),
                                Atoi(d[14..16]))
    case DateToDay => Days(Atoi(d[0..4]), Atoi(d[5..7]), Atoi(d[8..10]), Atoi(d[0..4]), Atoi(d[5..7]), Atoi(d[11..13]))
    case SingleDate => Days(Atoi(d[0..4]), Atoi(d[5..7]), Atoi(d[8..10]), Atoi(d[0..4]), Atoi(d[5..7]), Atoi(d[8..10]))
    case MonthToMonth => Months(Atoi(d[0..4]), Atoi(d[5..7]), Atoi(d[8..10]))
    case SingleMonth => Months(Atoi(d[0..4]), Atoi(d[5..7]), Atoi(d[5..7]))
    case YearToYear => Years(Atoi(d[0..4]), Atoi(d[5..9]))
    case SingleYear => OneYear(Atoi(d[0..4]))
  }

  /** The verb %d. */
  function Decimals(n: int): string {
    if n >= 0 then Decimal(n) else "-" + Decimal(-n)
  }

  predicate HasName(month: int) {
    0 <= month < |MONTH_NAMES|
  }

  /** None: indexing the table of month names panics. */
  function Label(date: Date): (r: Option<string>)
    ensures r != Some("")
  {
    match date
    case Days(year, month, day, endYear, endMonth, endDay) =>
      if !HasName(month) || !HasName(endMonth) then None
      else if year == endYear && month == endMonth && day == endDay then
        Some(MONTH_NAMES[month] + " " + Decimals(day) + ", " + Decimals(year))
      else if year == endYear && month == endMonth then
        Some(MONTH_NAMES[month] + " " + Decimals(day) + " - " + Decimals(endDay) + ", " + Decimals(year))
      else if year == endYear then
        Some(MONTH_NAMES[month] + " " + Decimals(day) + " - " + MONTH_NAMES[endMonth] + " " + Decimals(endDay) + ", "
             + Decimals(year))
      else
        Some(MONTH_NAMES[month] + " " + Decimals(day) + ", " + Decimals(year) + " - "
             + MONTH_NAMES[endMonth] + " " + Decimals(endDay) + ", " + Decimals(endYear))
    case Months(year, month, endMonth) =>
      if !HasName(month) || !HasName(endMonth) then None
      else if month == endMonth then Some(MONTH_NAMES[month] + " " + Decimals(year))
      else Some(MONTH_NAMES[month] + " - " + MONTH_NAMES[endMonth] + ", " + Decimals(year))
    case Years(year, endYear) => Some(Decimals(year) + " - " + Decimals(endYear))
    case OneYear(year) => Some(Decimals(year))
  }

  // ---- trimming ----

  /** unicode.IsSpace. */
  predicate IsSpace(c: char) {
    || '\t' <= c <= '\r' || c == ' ' || c == '\U{0085}' || c == '\U{00A0}' || c == '\U{1680}'
    || '\U{2000}' <= c <= '\U{200A}' || '\U{2028}' <= c <= '\U{2029}'
    || c == '\U{202F}' || c == '\U{205F}' || c == '\U{3000}'
  }

  predicate IsBlankOrUnderscore(c: char) {
    c == ' ' || c == '_'
  }

  datatype Cutset = Spaces | BlanksAndUnderscores

  predicate IsCut(cutset: Cutset, c: char) {
    match cutset
    case Spaces => IsSpace(c)
    case BlanksAndUnderscores => IsBlankOrUnderscore(c)
  }

  function TrimRight(s: string, cutset: Cutset): (r: string)
    ensures |r| <= |s|
  {
    if s != "" && IsCut(cutset, s[|s| - 1]) then TrimRight(s[..|s| - 1], cutset) else s
  }

  function TrimLeft(s: string, cutset: Cutset): (r: string)
    ensures |r| <= |s|
  {
    if s != "" && IsCut(cutset, s[0]) then TrimLeft(s[1..], cutset) else s
  }

  lemma {:induction false} TrimRightCuts(s: string, cutset: Cutset)
    ensures var r := TrimRight(s, cutset);
            && r <= s && (r != "" ==> !IsCut(cutset, r[|r| - 1]))
            && forall i | |r| <= i < |s| :: IsCut(cutset, s[i])
  {
    if s == "" || !IsCut(cutset, s[|s| - 1]) {
    } else {
      TrimRightCuts(s[..|s| - 1], cutset);
    }
  }

  lemma {:induction false} TrimLeftCuts(s: string, cutset: Cutset)
    ensures var r := TrimLeft(s, cutset);
            && r == s[|s| - |r|..] && (r != "" ==> !IsCut(cutset, r[0]))
            && forall i | 0 <= i < |s| - |r| :: IsCut(cutset, s[i])
  {
    if s == "" || !IsCut(cutset, s[0]) {
    } else {
      TrimLeftCuts(s[1..], cutset);
    }
  }

  /** The characters that Unicode counts as white space. */
  const WHITE_SPACE: string :=
    "\t\n\U{000B}\U{000C}\r \U{0085}\U{00A0}\U{1680}\U{2000}\U{2001}\U{2002}\U{2003}\U{2004}\U{2005}\U{2006}\U{2007}" +
    "\U{2008}\U{2009}\U{200A}\U{2028}\U{2029}\U{202F}\U{205F}\U{3000}"

  lemma SpaceListed(c: char)
    ensures IsSpace(c) <==> c in WHITE_SPACE
  {
  }

  /** They are cut off on both sides, all of them and nothing else. */
  lemma TrimSpaceMeaning(s: string) returns (left: nat, right: nat)
    ensures left + |TrimSpace(s)| + right == |s| && TrimSpace(s) == s[left..|s| - right]
    ensures forall i | 0 <= i < |s| && (i < left || i >= |s| - right) :: s[i] in WHITE_SPACE
    ensures TrimSpace(s) != "" ==>
              TrimSpace(s)[0] !in WHITE_SPACE && TrimSpace(s)[|TrimSpace(s)| - 1] !in WHITE_SPACE
  {
    var rest := TrimLeft(s, Spaces);
    TrimLeftCuts(s, Spaces);
    TrimRightCuts(rest, Spaces);
    left, right := |s| - |rest|, |rest| - |TrimSpace(s)|;
    forall i | 0 <= i < |s| && (i < left || i >= |s| - right)
      ensures s[i] in WHITE_SPACE
    {
      assert i >= |s| - right ==> s[i] == rest[i - left];
      SpaceListed(s[i]);
    }
    if TrimSpace(s) != "" {
      SpaceListed(TrimSpace(s)[0]);
      SpaceListed(TrimSpace(s)[|TrimSpace(s)| - 1]);
    }
  }

  function TrimSpace(s: string): (r: string)
    ensures |r| <= |s|
  {
    TrimRight(TrimLeft(s, Spaces), Spaces)
  }

  // ---- the functions ----

  datatype Outcome<T> = Panic | Returns(value: T)

  datatype Parsed = Parsed(stripped: string, text: string)

  function WithLabel(stripped: string, text: Option<string>): Outcome<Parsed> {
    if text == None then Panic else Returns(Parsed(stripped, text.value))
  }

  function Rest(shape: Shape, name: string): string
    requires |Text(shape)| < |name|
  {
    name[|Text(shape)| + 1..]
  }

  /** The outcome for a name beginning with shape. */
  function Dated(shape: Shape, name: string): (r: Outcome<Parsed>)
    requires Matches(shape, name)
    ensures r.Returns? ==> |r.value.stripped| <= |name|
  {
    WithLabel(TrimSpace(Rest(shape, name)), Label(DateOf(shape, name[..|Text(shape)|])))
  }

  function ParseDatePrefix(name: string): (r: Outcome<Parsed>)
    ensures r.Returns? ==> |r.value.stripped| <= |name|
  {
    match Find(name)
    case Some(shape) => Dated(shape, name)
    case None => Returns(Parsed(name, ""))
  }

  function NonEmpty(s: string): Option<string> {
    if s == "" then None else Some(s)
  }

  datatype Extracted = Extracted(stripped: string, date: Option<string>)

  function ExtractDatePrefix(name: string): Outcome<Extracted> {
    match ParseDatePrefix(name)
    case Panic => Panic
    case Returns(p) => Returns(Extracted(p.stripped, NonEmpty(p.text)))
  }

  function ExtractDatePrefixStr(name: string): Outcome<Extracted> {
    match ParseDatePrefix(name)
    case Panic => Panic
    case Returns(p) =>
      Returns(Extracted(p.stripped,
                        if p.text == "" then None
                        else Some(StoredPrefix(name, p.stripped))))
  }

  /** The slice counts bytes, and the stripped name has been trimmed on both sides. */
  function StoredPrefix(name: string, stripped: string): string {
    TrimRight(ByteCut(name, Bytes(name) - Bytes(stripped)), BlanksAndUnderscores)
  }

  function ParseDateString(s: string): Outcome<Option<string>> {
    if s == "" then Returns(None)
    else
      match ParseDatePrefix(s + " x")
      case Panic => Panic
      case Returns(p) => Returns(NonEmpty(p.text))
  }

  // ---- their properties ----

  /** A name beginning with a shape is parsed by it, whichever pattern the shape belongs to. */
  lemma Recognised(shape: Shape, name: string)
    requires Matches(shape, name)
    ensures Find(name) == Some(shape) && ParseDatePrefix(name) == Dated(shape, name)
  {
    ShapeIsUnique(shape, Find(name).value, name);
  }

  lemma Unrecognised(name: string)
    requires Find(name) == None
    ensures ParseDatePrefix(name) == Returns(Parsed(name, ""))
  {
  }

  /** Whatever begins like name up to the separator, and goes on without newlines, begins with the date
      after trimming too. */
  lemma PrefixKeepsDate(shape: string, name: string, q: string)
    requires BeginsWith(shape, name) && shape != "" && IsDigit(name[|shape| - 1])
    requires |shape| < |q| && q[..|shape| + 1] == name[..|shape| + 1] && '\n' !in q[|shape| + 1..]
    ensures var p := TrimRight(q, BlanksAndUnderscores);
            |shape| <= |p| && p[..|shape|] == name[..|shape|] && BeginsWith(shape, p + " x")
  {
    var p := TrimRight(q, BlanksAndUnderscores);
    TrimRightCuts(q, BlanksAndUnderscores);
    assert q[|shape| - 1] == q[..|shape| + 1][|shape| - 1] == name[|shape| - 1];
    assert q[|shape|] == q[..|shape| + 1][|shape|] == name[|shape|];
    assert |shape| <= |p|;
    assert p == q[..|p|];
    assert p[..|shape|] == q[..|shape| + 1][..|shape|] == name[..|shape| + 1][..|shape|] == name[..|shape|];
    PaddedTail(shape, name, p, q);
  }

  lemma PaddedTail(shape: string, name: string, p: string, q: string)
    requires BeginsWith(shape, name) && |shape| <= |p| <= |q| && p == q[..|p|] && |shape| < |q|
    requires p[..|shape|] == name[..|shape|] && q[|shape|] == name[|shape|] && '\n' !in q[|shape| + 1..]
    ensures BeginsWith(shape, p + " x")
  {
    var t := (p + " x")[|shape|..];
    assert (p + " x")[..|shape|] == name[..|shape|];
    assert t == p[|shape|..] + " x";
    assert t[0] == if |p| == |shape| then ' ' else name[|shape|..][0];
    forall i | 0 < i < |t|
      ensures t[i] != '\n'
    {
      assert i < |p| - |shape| ==> t[i] == q[|shape| + 1..][i - 1];
    }
  }

  /** The bytes cut off for a stripped name never reach the date or the separator after it. */
  lemma CutKeepsDate(name: string, k: nat, stripped: string, q: string)
    requires k <= |name| && '\n' !in name[k..] && Bytes(stripped) <= Bytes(name[k..])
    requires q == ByteCut(name, Bytes(name) - Bytes(stripped))
    ensures k <= |q| && q[..k] == name[..k] && '\n' !in q[k..]
  {
    BytesSplit(name, k);
    CutBegins(name, k, Bytes(name) - Bytes(stripped));
    NoNewlines(name[k..], q, k);
  }

  lemma NoNewlines(rest: string, q: string, k: nat)
    requires '\n' !in rest && k <= |q| && forall i | k <= i < |q| :: q[i] == REPLACEMENT || q[i] in rest
    ensures '\n' !in q[k..]
  {
    forall i | k <= i < |q|
      ensures q[i] != '\n'
    {
    }
  }

  lemma TrimSpaceBytes(s: string)
    ensures Bytes(TrimSpace(s)) <= Bytes(s)
  {
    var left, t := TrimLeft(s, Spaces), TrimSpace(s);
    TrimLeftCuts(s, Spaces);
    TrimRightCuts(left, Spaces);
    BytesSplit(s, |s| - |left|);
    BytesSplit(left, |t|);
    assert left[..|t|] == t;
  }

  lemma DatesEndInDigits(shape: Shape, name: string)
    requires Matches(shape, name)
    ensures Text(shape) != "" && IsDigit(name[|Text(shape)| - 1])
  {
  }

  /** The stored prefix is shown with the label of the full name, for every name. */
  lemma LabelSurvivesStorage(name: string)
    ensures SameLabel(ExtractDatePrefix(name), ExtractDatePrefixStr(name))
  {
    if Find(name).Some? {
      StoredLabel(Find(name).value, name, ExtractDatePrefix(name), ExtractDatePrefixStr(name));
    } else {
      Unrecognised(name);
    }
  }

  predicate SameLabel(shown: Outcome<Extracted>, stored: Outcome<Extracted>) {
    && shown.Panic? == stored.Panic?
    && (shown.Returns? ==>
          && shown.value.stripped == stored.value.stripped
          && (shown.value.date == None <==> stored.value.date == None)
          && (stored.value.date.Some? ==> ParseDateString(stored.value.date.value) == Returns(shown.value.date)))
  }

  lemma ExtractedBy(shape: Shape, name: string, text: Option<string>, stripped: string)
    requires Matches(shape, name)
    requires text == Label(DateOf(shape, name[..|Text(shape)|])) && stripped == TrimSpace(Rest(shape, name))
    ensures ExtractDatePrefix(name) == if text == None then Panic else Returns(Extracted(stripped, text))
    ensures ExtractDatePrefixStr(name)
            == if text == None then Panic
              else Returns(Extracted(stripped, Some(StoredPrefix(name, stripped))))
  {
    Recognised(shape, name);
  }

  lemma ParsedBy(shape: Shape, p: string, text: Option<string>)
    requires Matches(shape, p + " x") && p != "" && text == Label(DateOf(shape, (p + " x")[..|Text(shape)|]))
    ensures ParseDateString(p) == if text == None then Panic else Returns(text)
  {
    Recognised(shape, p + " x");
  }

  lemma StoredBegins(shape: string, name: string, stripped: string, p: string)
    requires BeginsWith(shape, name) && shape != "" && IsDigit(name[|shape| - 1])
    requires stripped == TrimSpace(name[|shape| + 1..]) && p == StoredPrefix(name, stripped)
    ensures |shape| <= |p| && p[..|shape|] == name[..|shape|] && BeginsWith(shape, p + " x")
  {
    var q := ByteCut(name, Bytes(name) - Bytes(stripped));
    assert name[|shape|..][1..] == name[|shape| + 1..];
    TrimSpaceBytes(name[|shape| + 1..]);
    CutKeepsDate(name, |shape| + 1, stripped, q);
    PrefixKeepsDate(shape, name, q);
  }

  lemma PrefixParsed(shape: Shape, name: string, stripped: string, text: Option<string>)
    requires Matches(shape, name) && stripped == TrimSpace(Rest(shape, name))
    requires text == Label(DateOf(shape, name[..|Text(shape)|]))
    ensures ParseDateString(StoredPrefix(name, stripped)) == if text == None then Panic else Returns(text)
  {
    DatesEndInDigits(shape, name);
    var p := StoredPrefix(name, stripped);
    StoredBegins(Text(shape), name, stripped, p);
    assert (p + " x")[..|Text(shape)|] == name[..|Text(shape)|];
    ParsedBy(shape, p, text);
  }

  lemma SameLabelFrom(shown: Outcome<Extracted>, stored: Outcome<Extracted>, text: Option<string>, stripped: string,
                      p: string)
    requires shown == if text == None then Panic else Returns(Extracted(stripped, text))
    requires stored == if text == None then Panic else Returns(Extracted(stripped, Some(p)))
    requires text.Some? ==> ParseDateString(p) == Returns(text)
    ensures SameLabel(shown, stored)
  {
  }

  lemma StoredLabel(shape: Shape, name: string, shown: Outcome<Extracted>, stored: Outcome<Extracted>)
    requires Matches(shape, name) && shown == ExtractDatePrefix(name) && stored == ExtractDatePrefixStr(name)
    ensures SameLabel(shown, stored)
  {
    var text, stripped := Label(DateOf(shape, name[..|Text(shape)|])), TrimSpace(Rest(shape, name));
    ExtractedBy(shape, name, text, stripped);
    PrefixParsed(shape, name, stripped, text);
    SameLabelFrom(shown, stored, text, stripped, StoredPrefix(name, stripped));
  }

  /** The guard of the one failing branch: a month the table of names does not have. */
  predicate LateMonth(date: Date) {
    match date
    case Days(_, month, _, _, endMonth, _) => month > 12 || endMonth > 12
    case Months(_, month, endMonth) => month > 12 || endMonth > 12
    case _ => false
  }

  lemma FieldsAreDigits(text: string, name: string, from: nat, to: nat)
    requires BeginsWith(text, name) && from <= to <= |text| && forall i | from <= i < to :: text[i] == 'd'
    ensures Atoi(name[..|text|][from..to]) >= 0
  {
  }

  /** The columns of the months of a date. */
  function MonthColumn(shape: Shape): nat {
    match shape
    case DateToDate => 16
    case DateToMonthDay => 11
    case MonthToMonth => 8
    case _ => 5
  }

  lemma MonthsInColumns(shape: Shape, name: string, k: nat)
    requires Matches(shape, name) && !shape.YearToYear? && !shape.SingleYear? && (k == 5 || k == MonthColumn(shape))
    ensures k + 2 <= |Text(shape)| && Atoi(name[..|Text(shape)|][k..k + 2]) >= 0
  {
    FieldsAreDigits(Text(shape), name, k, k + 2);
  }

  lemma MonthsNotNegative(shape: Shape, name: string)
    requires Matches(shape, name)
    ensures var date := DateOf(shape, name[..|Text(shape)|]);
            (date.Days? || date.Months? ==> date.month >= 0 && date.endMonth >= 0)
  {
    if !shape.YearToYear? && !shape.SingleYear? {
      MonthsInColumns(shape, name, 5);
      MonthsInColumns(shape, name, MonthColumn(shape));
      MonthsOfDate(shape, name[..|Text(shape)|]);
    }
  }

  lemma MonthsOfDate(shape: Shape, d: string)
    requires |d| == |Text(shape)| && !shape.YearToYear? && !shape.SingleYear?
    ensures var date, k := DateOf(shape, d), MonthColumn(shape);
            k + 2 <= |d| && date.month == Atoi(d[5..7]) && date.endMonth == Atoi(d[k..k + 2])
  {
  }

  lemma PanicsByShape(shape: Shape, name: string)
    requires Matches(shape, name)
    ensures Label(DateOf(shape, name[..|Text(shape)|])) == None <==> LateMonth(DateOf(shape, name[..|Text(shape)|]))
  {
    MonthsNotNegative(shape, name);
  }

  /** The functions panic exactly on names whose date has a month above 12. */
  lemma PanicsOnLateMonths(name: string)
    ensures ExtractDatePrefix(name).Panic? <==>
              Find(name).Some? && LateMonth(DateOf(Find(name).value, name[..|Text(Find(name).value)|]))
  {
    if Find(name).Some? {
      PanicsByShape(Find(name).value, name);
    }
  }

  /** What is left after trimming ends the string exactly when nothing was trimmed on the right. */
  lemma TrimmedIsSuffix(s: string)
    requires s != ""
    ensures var t := TrimSpace(s); s[|s| - |t|..] == t <==> t == "" || !IsSpace(s[|s| - 1])
  {
    var left := TrimLeft(s, Spaces);
    var t := TrimSpace(s);
    TrimLeftCuts(s, Spaces);
    TrimRightCuts(left, Spaces);
    if !IsSpace(s[|s| - 1]) {
      assert left != "" && left[|left| - 1] == s[|s| - 1];
      assert t == left;
    } else if t != "" {
      assert s[|s| - |t|..][|t| - 1] == s[|s| - 1];
    }
  }

  lemma PartsOfShape(shape: Shape, name: string)
    requires Matches(shape, name)
    ensures RebuildsFrom(name, ExtractDatePrefixStr(name))
  {
    var text, stripped := Label(DateOf(shape, name[..|Text(shape)|])), TrimSpace(Rest(shape, name));
    ExtractedBy(shape, name, text, stripped);
    CutApart(name, |Text(shape)| + 1, stripped);
    RebuildsFromParts(name, ExtractDatePrefixStr(name), text, stripped, StoredPrefix(name, stripped));
  }

  lemma RebuildsFromParts(name: string, stored: Outcome<Extracted>, text: Option<string>, stripped: string, p: string)
    requires stored == if text == None then Panic else Returns(Extracted(stripped, Some(p)))
    requires PartsOf(name, stripped, p)
    ensures RebuildsFrom(name, stored)
  {
  }

  /** Prefix, some blanks or underscores, and the stripped name make up the name exactly when it has no
      trailing space or nothing but the date.  Otherwise the prefix reaches into the stripped name. */
  lemma PartsRebuildName(name: string)
    ensures RebuildsFrom(name, ExtractDatePrefixStr(name))
  {
    if Find(name).Some? {
      PartsOfShape(Find(name).value, name);
    } else {
      Unrecognised(name);
    }
  }

  ghost predicate RebuildsFrom(name: string, stored: Outcome<Extracted>) {
    stored.Returns? && stored.value.date.Some? ==> PartsOf(name, stored.value.stripped, stored.value.date.value)
  }

  ghost predicate PartsOf(name: string, stripped: string, prefix: string) {
    (exists gap :: Joins(name, prefix, gap, stripped)) <==> stripped == "" || (name != "" && !IsSpace(name[|name| - 1]))
  }

  predicate Joins(name: string, prefix: string, gap: string, stripped: string) {
    prefix + gap + stripped == name && forall c | c in gap :: c == ' ' || c == '_'
  }

  lemma CutApart(name: string, from: nat, stripped: string)
    requires from < |name| && stripped == TrimSpace(name[from..])
    ensures PartsOf(name, stripped, StoredPrefix(name, stripped))
  {
    TrimmedIsSuffix(name[from..]);
    assert name[from..][|name| - from - |stripped|..] == name[|name| - |stripped|..];
    assert name[from..][|name| - from - 1] == name[|name| - 1];
    if stripped == "" || !IsSpace(name[|name| - 1]) {
      CutAt(name, |name| - |stripped|, stripped);
    } else {
      NothingJoins(name, from, stripped, StoredPrefix(name, stripped));
    }
  }

  lemma CutAt(name: string, k: nat, stripped: string)
    requires k <= |name| && name[k..] == stripped
    ensures exists gap :: Joins(name, StoredPrefix(name, stripped), gap, stripped)
  {
    BytesSplit(name, k);
    CutAfter(name, k);
    TrimmedJoins(name, name[..k], stripped, StoredPrefix(name, stripped));
  }

  lemma TrimmedJoins(name: string, q: string, stripped: string, prefix: string)
    requires name == q + stripped && prefix == TrimRight(q, BlanksAndUnderscores)
    ensures exists gap :: Joins(name, prefix, gap, stripped)
  {
    TrimRightCuts(q, BlanksAndUnderscores);
    var gap := q[|prefix|..];
    assert prefix + gap == q;
    forall c | c in gap
      ensures IsBlankOrUnderscore(c)
    {
      var i :| |prefix| <= i < |q| && q[i] == c;
      assert IsCut(BlanksAndUnderscores, q[i]);
    }
    assert Joins(name, prefix, gap, stripped);
  }

  lemma NothingJoins(name: string, from: nat, stripped: string, prefix: string)
    requires from < |name| && stripped == TrimSpace(name[from..]) && stripped != "" && IsSpace(name[|name| - 1])
    ensures forall gap :: !Joins(name, prefix, gap, stripped)
  {
    TrimRightCuts(TrimLeft(name[from..], Spaces), Spaces);
    forall gap
      ensures !Joins(name, prefix, gap, stripped)
    {
      LastOfJoin(prefix + gap, stripped);
    }
  }

  lemma LastOfJoin(a: string, b: string)
    requires b != ""
    ensures (a + b)[|a + b| - 1] == b[|b| - 1]
  {
  }

  /** A date, alone or followed by a separator and anything without a newline. */
  predicate BeginsWithDate(shape: string, s: string) {
    && |shape| <= |s| && Fits(shape, s[..|shape|])
    && (|s| == |shape| || (IsSeparator(s[|shape|]) && '\n' !in s[|shape| + 1..]))
  }

  lemma LabelledWhenFound(s: string)
    ensures ParseDateString(s) != Returns(None) <==> s != "" && Find(s + " x").Some?
  {
  }

  lemma FoundExactlyWhen(s: string)
    ensures Find(s + " x").Some? <==> exists shape :: BeginsWithDate(Text(shape), s)
  {
    forall shape
      ensures Matches(shape, s + " x") <==> BeginsWithDate(Text(shape), s)
    {
      DatesEndInD(shape);
      MatchesPadded(Text(shape), s);
    }
  }

  /** Exactly the strings beginning with a date are taken for dates. */
  lemma LabelledDateStrings(s: string)
    ensures ParseDateString(s) != Returns(None) <==> exists shape :: BeginsWithDate(Text(shape), s)
  {
    FoundExactlyWhen(s);
    LabelledWhenFound(s);
    forall shape
      ensures BeginsWithDate(Text(shape), s) ==> s != ""
    {
      DatesEndInD(shape);
    }
  }

  lemma DatesEndInD(shape: Shape)
    ensures Text(shape) != "" && Text(shape)[|Text(shape)| - 1] == 'd'
  {
  }

  lemma MatchesPadded(shape: string, s: string)
    requires shape != "" && shape[|shape| - 1] == 'd'
    ensures BeginsWith(shape, s + " x") <==> BeginsWithDate(shape, s)
  {
    var padded := s + " x";
    if |shape| <= |s| {
      assert padded[..|shape|] == s[..|shape|];
      assert padded[|shape|..] == s[|shape|..] + " x";
      if |shape| < |s| {
        assert padded[|shape|..][1..] == s[|shape| + 1..] + " x";
      }
    } else if |shape| == |s| + 1 {
      assert padded[..|shape|][|shape| - 1] == ' ';
    }
  }

  // ---- dates as text ----

  /** The columns from..to of d are digits and write the number n. */
  predicate ShowsAt(d: string, from: nat, to: nat, n: int) {
    from <= to <= |d| && AllDigits(d[from..to]) && Value(d[from..to]) == n
  }

  predicate ShowsDay(d: string, from: nat, year: int, month: int, day: int) {
    ShowsAt(d, from, from + 4, year) && ShowsAt(d, from + 5, from + 7, month) && ShowsAt(d, from + 8, from + 10, day)
  }

  /** d is the date written in the given shape. */
  ghost predicate IsText(shape: Shape, date: Date, d: string) {
    && Fits(Text(shape), d)
    && match shape
       case DateToDate =>
         date.Days? && ShowsDay(d, 0, date.year, date.month, date.day)
           && ShowsDay(d, 11, date.endYear, date.endMonth, date.endDay)
       case DateToMonthDay =>
         && date.Days? && ShowsDay(d, 0, date.year, date.month, date.day) && date.endYear == date.year
         && ShowsAt(d, 11, 13, date.endMonth) && ShowsAt(d, 14, 16, date.endDay)
       case DateToDay =>
         && date.Days? && ShowsDay(d, 0, date.year, date.month, date.day)
         && date.endYear == date.year && date.endMonth == date.month && ShowsAt(d, 11, 13, date.endDay)
       case SingleDate =>
         && date.Days? && ShowsDay(d, 0, date.year, date.month, date.day)
         && date.endYear == date.year && date.endMonth == date.month && date.endDay == date.day
       case MonthToMonth =>
         date.Months? && ShowsAt(d, 0, 4, date.year) && ShowsAt(d, 5, 7, date.month) && ShowsAt(d, 8, 10, date.endMonth)
       case SingleMonth =>
         date.Months? && ShowsAt(d, 0, 4, date.year) && ShowsAt(d, 5, 7, date.month) && date.endMonth == date.month
       case YearToYear => date.Years? && ShowsAt(d, 0, 4, date.year) && ShowsAt(d, 5, 9, date.endYear)
       case SingleYear => date.OneYear? && ShowsAt(d, 0, 4, date.year)
  }

  /** A field of digits shows its number. */
  lemma FieldShown(text: string, d: string, from: nat, to: nat)
    requires Fits(text, d) && from < to <= |text| && to - from <= 4 && DigitsAt(text, from, to)
    ensures ShowsAt(d, from, to, Atoi(d[from..to]))
  {
    var field := d[from..to];
    forall i | 0 <= i < |field|
      ensures IsDigit(field[i])
    {
      assert IsKind(text[from + i], d[from + i]);
    }
    ValueBelow(field);
  }

  lemma {:induction false} ValueBelow(s: string)
    requires AllDigits(s) && |s| <= 4
    ensures Value(s) < 10000 && (|s| <= 3 ==> Value(s) < 1000) && (|s| <= 2 ==> Value(s) < 100)
            && (|s| <= 1 ==> Value(s) < 10)
    ensures s == "" ==> Value(s) == 0
  {
    if s == "" {
    } else {
      ValueBelow(s[..|s| - 1]);
    }
  }

  lemma DayShown(text: string, d: string, from: nat)
    requires Fits(text, d) && DayAt(text, from)
    ensures ShowsDay(d, from, Atoi(d[from..from + 4]), Atoi(d[from + 5..from + 7]), Atoi(d[from + 8..from + 10]))
  {
    FieldShown(text, d, from, from + 4);
    FieldShown(text, d, from + 5, from + 7);
    FieldShown(text, d, from + 8, from + 10);
  }

  predicate DigitsAt(text: string, from: nat, to: nat) {
    to <= |text| && forall i | from <= i < to :: text[i] == 'd'
  }

  predicate DayAt(text: string, from: nat) {
    DigitsAt(text, from, from + 4) && DigitsAt(text, from + 5, from + 7) && DigitsAt(text, from + 8, from + 10)
  }

  /** Where the digits of each shape are. */
  lemma Layout(shape: Shape)
    ensures IsDay(shape) ==> DayAt(Text(shape), 0)
    ensures shape.DateToDate? ==> DayAt(Text(shape), 11)
    ensures shape.DateToMonthDay? ==> DigitsAt(Text(shape), 11, 13) && DigitsAt(Text(shape), 14, 16)
    ensures shape.DateToDay? ==> DigitsAt(Text(shape), 11, 13)
    ensures DigitsAt(Text(shape), 0, 4)
    ensures shape.MonthToMonth? || shape.SingleMonth? ==> DigitsAt(Text(shape), 5, 7)
    ensures shape.MonthToMonth? ==> DigitsAt(Text(shape), 8, 10)
    ensures shape.YearToYear? ==> DigitsAt(Text(shape), 5, 9)
  {
  }

  /** Every text that fits a shape is the text of the date read from it: no field is lost, swapped
      or misread. */
  lemma ReadsItsText(shape: Shape, d: string)
    requires Fits(Text(shape), d)
    ensures IsText(shape, DateOf(shape, d), d)
  {
    if shape.DateToDate? {
      ReadsDateToDate(d);
    } else if shape.DateToMonthDay? {
      ReadsDateToMonthDay(d);
    } else if IsDay(shape) {
      ReadsDay(shape, d);
    } else {
      ReadsMonthOrYear(shape, d);
    }
  }

  lemma ReadsDateToDate(d: string)
    requires Fits(Text(DateToDate), d)
    ensures IsText(DateToDate, DateOf(DateToDate, d), d)
  {
    Layout(DateToDate);
    TwoDaysShown(Text(DateToDate), d);
  }

  lemma TwoDaysShown(text: string, d: string)
    requires Fits(text, d) && DayAt(text, 0) && DayAt(text, 11)
    ensures ShowsDay(d, 0, Atoi(d[0..4]), Atoi(d[5..7]), Atoi(d[8..10]))
    ensures ShowsDay(d, 11, Atoi(d[11..15]), Atoi(d[16..18]), Atoi(d[19..21]))
  {
    DayShown(text, d, 0);
    DayShown(text, d, 11);
  }

  lemma ReadsDateToMonthDay(d: string)
    requires Fits(Text(DateToMonthDay), d)
    ensures IsText(DateToMonthDay, DateOf(DateToMonthDay, d), d)
  {
    Layout(DateToMonthDay);
    DayShown(Text(DateToMonthDay), d, 0);
    FieldShown(Text(DateToMonthDay), d, 11, 13);
    FieldShown(Text(DateToMonthDay), d, 14, 16);
  }

  lemma ReadsDay(shape: Shape, d: string)
    requires Fits(Text(shape), d) && (shape.DateToDay? || shape.SingleDate?)
    ensures IsText(shape, DateOf(shape, d), d)
  {
    Layout(shape);
    DayShown(Text(shape), d, 0);
    if shape.DateToDay? {
      FieldShown(Text(shape), d, 11, 13);
    }
  }

  lemma ReadsMonthOrYear(shape: Shape, d: string)
    requires Fits(Text(shape), d) && !IsDay(shape)
    ensures IsText(shape, DateOf(shape, d), d)
  {
    Layout(shape);
    FieldShown(Text(shape), d, 0, 4);
    if shape.MonthToMonth? || shape.SingleMonth? {
      FieldShown(Text(shape), d, 5, 7);
    }
    if shape.MonthToMonth? {
      FieldShown(Text(shape), d, 8, 10);
    }
    if shape.YearToYear? {
      FieldShown(Text(shape), d, 5, 9);
    }
  }

  // ---- what is shown, in terms of the text ----

  /** name begins with a text of the form of shape, a separator, and more without newlines. */
  lemma RecognisedExactlyWhen(shape: Shape, name: string)
    ensures var form := match shape
              case DateToDate => "dddd.dd.dd-dddd.dd.dd"
              case DateToMonthDay => "dddd.dd.dd-dd.dd"
              case DateToDay => "dddd.dd.dd-dd"
              case SingleDate => "dddd.dd.dd"
              case MonthToMonth => "dddd.dd-dd"
              case SingleMonth => "dddd.dd"
              case YearToYear => "dddd-dddd"
              case SingleYear => "dddd";
            Find(name) == Some(shape) <==>
              && |form| + 1 < |name|
              && (forall i | 0 <= i < |form| :: if form[i] == 'd' then '0' <= name[i] <= '9' else name[i] == form[i])
              && name[|form|] in [' ', '_', '\t', '\n', '\U{000C}', '\r']
              && forall i | |form| < i < |name| :: name[i] != '\n'
  {
    if Find(name).Some? && Matches(shape, name) {
      ShapeIsUnique(shape, Find(name).value, name);
    }
    MatchesText(Text(shape), name);
  }

  lemma MatchesText(form: string, name: string)
    ensures BeginsWith(form, name) <==>
              && |form| + 1 < |name|
              && (forall i | 0 <= i < |form| :: if form[i] == 'd' then '0' <= name[i] <= '9' else name[i] == form[i])
              && name[|form|] in [' ', '_', '\t', '\n', '\U{000C}', '\r']
              && forall i | |form| < i < |name| :: name[i] != '\n'
  {
    if |form| + 1 < |name| {
      assert forall i | 0 <= i < |form| :: name[..|form|][i] == name[i];
      TailText(name, |form|, name[|form|..]);
    }
  }

  lemma TailText(name: string, k: nat, tail: string)
    requires k + 1 < |name| && tail == name[k..]
    ensures IsTail(tail) <==> name[k] in [' ', '_', '\t', '\n', '\U{000C}', '\r']
                              && forall i | k < i < |name| :: name[i] != '\n'
  {
    assert forall i | k < i < |name| :: tail[1..][i - k - 1] == name[i];
    assert forall i | 0 <= i < |tail| - 1 :: tail[1..][i] == name[k + 1 + i];
  }

  function MonthOf(mm: string): string {
    match mm
    case "01" => "January"
    case "02" => "February"
    case "03" => "March"
    case "04" => "April"
    case "05" => "May"
    case "06" => "June"
    case "07" => "July"
    case "08" => "August"
    case "09" => "September"
    case "10" => "October"
    case "11" => "November"
    case "12" => "December"
    case _ => ""
  }

  /** Two digits without a leading zero. */
  function Plain(dd: string): string {
    if |dd| == 2 && dd[0] == '0' then dd[1..] else dd
  }

  lemma TwoDigits(dd: string)
    requires |dd| == 2 && AllDigits(dd)
    ensures Value(dd) == 10 * (dd[0] - '0') as int + (dd[1] - '0') as int && Atoi(dd) == Value(dd)
  {
    assert dd[..1] == [dd[0]] && dd[..1][..0] == "";
    assert Value(dd[..1]) == (dd[0] - '0') as int;
  }

  /** A day or month of two digits is shown without its leading zero. */
  lemma PlainShown(dd: string)
    requires |dd| == 2 && AllDigits(dd)
    ensures Decimals(Atoi(dd)) == Plain(dd)
  {
    TwoDigits(dd);
    var a, b := (dd[0] - '0') as int, (dd[1] - '0') as int;
    assert dd == [DigitChar(a), DigitChar(b)];
    assert Decimal(b) == [DigitChar(b)];
    if a != 0 {
      assert Decimal(a) == [DigitChar(a)];
      assert (10 * a + b) / 10 == a && (10 * a + b) % 10 == b;
    }
  }

  /** A year of four digits, the first not zero, is shown as it is. */
  lemma YearShown(yyyy: string)
    requires |yyyy| == 4 && AllDigits(yyyy) && yyyy[0] != '0'
    ensures Decimals(Atoi(yyyy)) == yyyy
  {
    PadRestores(yyyy);
    ValueBelow(yyyy);
  }

  lemma MonthShown(mm: string)
    requires |mm| == 2 && AllDigits(mm) && Atoi(mm) <= 12
    ensures HasName(Atoi(mm)) && MONTH_NAMES[Atoi(mm)] == MonthOf(mm)
  {
    TwoDigits(mm);
    var a, b := mm[0], mm[1];
    assert mm == [a, b];
    assert a == '0' || a == '1';
    if a == '0' {
      MonthsBelowTen(b, mm);
    } else {
      assert b == '0' || b == '1' || b == '2';
    }
  }

  lemma MonthsBelowTen(b: char, mm: string)
    requires IsDigit(b) && mm == ['0', b]
    ensures MONTH_NAMES[(b - '0') as int] == MonthOf(mm)
  {
    assert b == '0' || b == '1' || b == '2' || b == '3' || b == '4' || b == '5' || b == '6' || b == '7' || b == '8'
           || b == '9';
  }

  /** The months of the text, and its years, have names and do not begin with zero. */
  predicate Nameable(shape: Shape, d: string)
    requires |d| == |Text(shape)|
  {
    && d[0] != '0' && !LateMonth(DateOf(shape, d))
    && (shape.YearToYear? ==> d[5] != '0') && (shape.DateToDate? ==> d[11] != '0')
  }

  /** What is shown for a name, in terms of its text. */
  lemma ShownAsWritten(shape: Shape, name: string, d: string)
    requires Matches(shape, name) && d == name[..|Text(shape)|] && Nameable(shape, d)
    ensures ExtractDatePrefix(name)
            == Returns(Extracted(TrimSpace(name[|d| + 1..]), Some(Shown(shape, d))))
  {
    LabelShown(shape, d);
    ExtractedBy(shape, name, Label(DateOf(shape, d)), TrimSpace(Rest(shape, name)));
  }

  function OneDay(d: string, k: nat): string
    requires k + 10 <= |d|
  {
    MonthOf(d[k + 5..k + 7]) + " " + Plain(d[k + 8..k + 10]) + ", " + d[k..k + 4]
  }

  function DaysShown(yyyy: string, mm: string, dd: string, mm': string, dd': string): string {
    if mm == mm' && dd == dd' then MonthOf(mm) + " " + Plain(dd) + ", " + yyyy
    else if mm == mm' then MonthOf(mm) + " " + Plain(dd) + " - " + Plain(dd') + ", " + yyyy
    else MonthOf(mm) + " " + Plain(dd) + " - " + MonthOf(mm') + " " + Plain(dd') + ", " + yyyy
  }

  function Shown(shape: Shape, d: string): string
    requires |d| == |Text(shape)|
  {
    match shape
    case SingleYear => d
    case YearToYear => d[0..4] + " - " + d[5..9]
    case SingleMonth => MonthOf(d[5..7]) + " " + d[0..4]
    case MonthToMonth =>
      if d[5..7] == d[8..10] then MonthOf(d[5..7]) + " " + d[0..4]
      else MonthOf(d[5..7]) + " - " + MonthOf(d[8..10]) + ", " + d[0..4]
    case SingleDate => OneDay(d, 0)
    case DateToDay => DaysShown(d[0..4], d[5..7], d[8..10], d[5..7], d[11..13])
    case DateToMonthDay => DaysShown(d[0..4], d[5..7], d[8..10], d[11..13], d[14..16])
    case DateToDate =>
      if d[0..4] == d[11..15] then DaysShown(d[0..4], d[5..7], d[8..10], d[16..18], d[19..21])
      else OneDay(d, 0) + " - " + OneDay(d, 11)
  }

  lemma SameNumber(a: string, b: string)
    requires |a| == |b| == 2 && AllDigits(a) && AllDigits(b)
    ensures Atoi(a) == Atoi(b) <==> a == b
  {
    TwoDigits(a);
    TwoDigits(b);
    assert a == [a[0], a[1]] && b == [b[0], b[1]];
  }

  lemma SameYear(a: string, b: string)
    requires |a| == |b| == 4 && AllDigits(a) && AllDigits(b) && a[0] != '0' && b[0] != '0'
    ensures Atoi(a) == Atoi(b) <==> a == b
  {
    YearShown(a);
    YearShown(b);
  }

  lemma DaysLabelled(y: string, m: string, d: string, m': string, d': string)
    requires |y| == 4 && |m| == |d| == |m'| == |d'| == 2 && y[0] != '0' && Atoi(m) <= 12 && Atoi(m') <= 12
    requires AllDigits(y) && AllDigits(m) && AllDigits(d) && AllDigits(m') && AllDigits(d')
    ensures Label(Days(Atoi(y), Atoi(m), Atoi(d), Atoi(y), Atoi(m'), Atoi(d'))) == Some(DaysShown(y, m, d, m', d'))
  {
    YearShown(y);
    MonthShown(m);
    MonthShown(m');
    PlainShown(d);
    PlainShown(d');
    SameNumber(m, m');
    SameNumber(d, d');
  }

  lemma YearsApartLabelled(y: string, m: string, d: string, y': string, m': string, d': string)
    requires |y| == |y'| == 4 && |m| == |d| == |m'| == |d'| == 2 && y[0] != '0' && y'[0] != '0' && y != y'
    requires Atoi(m) <= 12 && Atoi(m') <= 12
    requires AllDigits(y) && AllDigits(m) && AllDigits(d) && AllDigits(y') && AllDigits(m') && AllDigits(d')
    ensures Label(Days(Atoi(y), Atoi(m), Atoi(d), Atoi(y'), Atoi(m'), Atoi(d')))
            == Some((MonthOf(m) + " " + Plain(d) + ", " + y) + " - " + (MonthOf(m') + " " + Plain(d') + ", " + y'))
  {
    YearShown(y);
    YearShown(y');
    SameYear(y, y');
    MonthShown(m);
    MonthShown(m');
    PlainShown(d);
    PlainShown(d');
    LastFour(MonthOf(m) + " " + Plain(d) + ", " + y + " - ", MonthOf(m'), " ", Plain(d'), ", ", y');
  }

  lemma MonthsLabelled(y: string, m: string, m': string)
    requires |y| == 4 && |m| == |m'| == 2 && y[0] != '0' && Atoi(m) <= 12 && Atoi(m') <= 12
    requires AllDigits(y) && AllDigits(m) && AllDigits(m')
    ensures Label(Months(Atoi(y), Atoi(m), Atoi(m')))
            == Some(if m == m' then MonthOf(m) + " " + y else MonthOf(m) + " - " + MonthOf(m') + ", " + y)
  {
    YearShown(y);
    MonthShown(m);
    MonthShown(m');
    SameNumber(m, m');
  }

  lemma ColumnsAreDigits(text: string, d: string, from: nat, to: nat)
    requires Fits(text, d) && DigitsAt(text, from, to) && from <= to
    ensures AllDigits(d[from..to])
  {
  }

  lemma LabelShown(shape: Shape, d: string)
    requires Fits(Text(shape), d) && Nameable(shape, d)
    ensures Label(DateOf(shape, d)) == Some(Shown(shape, d))
  {
    Layout(shape);
    if shape.DateToDate? {
      LabelOfDateToDate(d);
    } else if IsDay(shape) {
      LabelOfDay(shape, d);
    } else {
      LabelOfMonthOrYear(shape, d);
    }
  }

  lemma LabelOfMonthOrYear(shape: Shape, d: string)
    requires Fits(Text(shape), d) && Nameable(shape, d) && !IsDay(shape)
    ensures Label(DateOf(shape, d)) == Some(Shown(shape, d))
  {
    Layout(shape);
    ColumnsAreDigits(Text(shape), d, 0, 4);
    YearShown(d[0..4]);
    if shape.YearToYear? {
      ColumnsAreDigits(Text(shape), d, 5, 9);
      YearShown(d[5..9]);
    } else if shape.SingleYear? {
      assert d[0..4] == d;
    } else {
      ColumnsAreDigits(Text(shape), d, 5, 7);
      if shape.MonthToMonth? {
        ColumnsAreDigits(Text(shape), d, 8, 10);
        MonthsLabelled(d[0..4], d[5..7], d[8..10]);
      } else {
        MonthsLabelled(d[0..4], d[5..7], d[5..7]);
      }
    }
  }

  lemma DayColumns(text: string, d: string, k: nat)
    requires Fits(text, d) && DayAt(text, k)
    ensures AllDigits(d[k..k + 4]) && AllDigits(d[k + 5..k + 7]) && AllDigits(d[k + 8..k + 10])
  {
  }

  lemma LabelOfDay(shape: Shape, d: string)
    requires Fits(Text(shape), d) && Nameable(shape, d) && IsDay(shape) && !shape.DateToDate?
    ensures Label(DateOf(shape, d)) == Some(Shown(shape, d))
  {
    Layout(shape);
    DayColumns(Text(shape), d, 0);
    if shape.SingleDate? {
      DaysLabelled(d[0..4], d[5..7], d[8..10], d[5..7], d[8..10]);
    } else if shape.DateToDay? {
      ColumnsAreDigits(Text(shape), d, 11, 13);
      DaysLabelled(d[0..4], d[5..7], d[8..10], d[5..7], d[11..13]);
    } else {
      ColumnsAreDigits(Text(shape), d, 11, 13);
      ColumnsAreDigits(Text(shape), d, 14, 16);
      DaysLabelled(d[0..4], d[5..7], d[8..10], d[11..13], d[14..16]);
    }
  }

  lemma LabelOfDateToDate(d: string)
    requires Fits(Text(DateToDate), d) && Nameable(DateToDate, d)
    ensures Label(DateOf(DateToDate, d)) == Some(Shown(DateToDate, d))
  {
    Layout(DateToDate);
    DayColumns(Text(DateToDate), d, 0);
    DayColumns(Text(DateToDate), d, 11);
    if d[0..4] == d[11..15] {
      DaysLabelled(d[0..4], d[5..7], d[8..10], d[16..18], d[19..21]);
    } else {
      YearsApartLabelled(d[0..4], d[5..7], d[8..10], d[11..15], d[16..18], d[19..21]);
    }
  }

  // ---- labels of ranges ----

  function Single(year: int, month: int, day: int): Date {
    Days(year, month, day, year, month, day)
  }

  /** A range across years reads as its first day, a dash and its last day. */
  lemma AcrossYears(date: Date)
    requires date.Days? && date.year != date.endYear && HasName(date.month) && HasName(date.endMonth)
    ensures Label(date) == Some(Label(Single(date.year, date.month, date.day)).value + " - "
                                + Label(Single(date.endYear, date.endMonth, date.endDay)).value)
  {
    var start := MONTH_NAMES[date.month] + " " + Decimals(date.day) + ", " + Decimals(date.year) + " - ";
    LastFour(start, MONTH_NAMES[date.endMonth], " ", Decimals(date.endDay), ", ", Decimals(date.endYear));
  }

  /** Within a year the start loses its year, and within a month the end its month as well. */
  lemma WithinYear(date: Date)
    requires date.Days? && date.year == date.endYear && HasName(date.month) && HasName(date.endMonth)
    requires date.month != date.endMonth || date.day != date.endDay
    ensures exists from, to :: WithinYearParts(date, from, to)
  {
    var from := MONTH_NAMES[date.month] + " " + Decimals(date.day);
    var to := Decimals(date.endDay) + ", " + Decimals(date.year);
    RestOfEnd(MONTH_NAMES[date.endMonth], " ", Decimals(date.endDay), ", ", Decimals(date.year));
    RestOfRange(from, " - ", MONTH_NAMES[date.endMonth], " ", Decimals(date.endDay), ", ", Decimals(date.year));
    assert WithinYearParts(date, from, to);
  }

  predicate WithinYearParts(date: Date, from: string, to: string)
    requires date.Days? && HasName(date.month) && HasName(date.endMonth)
  {
    && Label(Single(date.year, date.month, date.day)) == Some(from + ", " + Decimals(date.year))
    && Label(Single(date.year, date.endMonth, date.endDay)) == Some(MONTH_NAMES[date.endMonth] + " " + to)
    && Label(date) == Some(from + " - " + if date.month == date.endMonth then to
                           else MONTH_NAMES[date.endMonth] + " " + to)
  }

  lemma RestOfEnd(a: string, b: string, c: string, d: string, e: string)
    ensures a + b + c + d + e == a + b + (c + d + e)
  {
  }

  lemma RestOfRange(s: string, dash: string, a: string, b: string, c: string, d: string, e: string)
    ensures s + dash + c + d + e == s + dash + (c + d + e)
    ensures s + dash + a + b + c + d + e == s + dash + (a + b + (c + d + e))
  {
  }

  lemma LastFour(s: string, a: string, b: string, c: string, d: string, e: string)
    ensures s + a + b + c + d + e == s + (a + b + c + d + e)
  {
  }

  // ---- names on which the documentation is not met ----

  const THIRTEENTH: string := "2024.13.01 Trip"

  lemma ThirteenthHasShape()
    ensures Matches(SingleDate, THIRTEENTH)
  {
    assert THIRTEENTH[..10] == "2024.13.01" && THIRTEENTH[10..] == " Trip";
  }

  lemma ThirteenthMonth()
    ensures |THIRTEENTH| == 15 && Atoi(THIRTEENTH[..10][5..7]) == 13
  {
    assert THIRTEENTH[..10] == "2024.13.01";
    assert "2024.13.01"[5..7] == "13";
    assert Value("13") == 13 by { assert "13"[..1] == "1" && Value("1") == 1; }
  }

  lemma ThirteenthIsLate()
    ensures |THIRTEENTH| == 15 && LateMonth(DateOf(SingleDate, THIRTEENTH[..10]))
  {
    ThirteenthMonth();
  }

  lemma LateMonthPanics(shape: Shape, name: string, d: string)
    requires Matches(shape, name) && d == name[..|Text(shape)|] && LateMonth(DateOf(shape, d))
    ensures ExtractDatePrefix(name) == Panic
  {
    Recognised(shape, name);
    PanicsOnLateMonths(name);
  }

  /** A month above 12. */
  lemma PanicExample()
    ensures ExtractDatePrefix(THIRTEENTH) == Panic
  {
    ThirteenthHasShape();
    ThirteenthIsLate();
    LateMonthPanics(SingleDate, THIRTEENTH, THIRTEENTH[..10]);
  }

  /** Text after the date. */
  lemma TextAfterDateExample()
    ensures ParseDateString("2024 anything") != Returns(None)
  {
    AnythingAfterDate("2024 anything");
    LabelledDateStrings("2024 anything");
  }

  lemma AnythingAfterDate(s: string)
    requires s == "2024 anything"
    ensures BeginsWithDate(Text(SingleYear), s)
  {
    assert s[..4] == "2024" && s[4] == ' ' && s[5..] == "anything";
  }

  lemma CutNameStripped(name: string, stripped: string)
    requires name == "2004 \U{00E9}a " && stripped == "\U{00E9}a"
    ensures Matches(SingleYear, name) && stripped == TrimSpace(Rest(SingleYear, name))
  {
    assert name[..4] == "2004" && name[4..] == " \U{00E9}a ";
    assert Rest(SingleYear, name) == "\U{00E9}a ";
    assert TrimRight("\U{00E9}a ", Spaces) == stripped by { assert "\U{00E9}a "[..2] == stripped; }
  }

  lemma CutNameBytes(name: string, a: string, c: string, b: string)
    requires a == "2004 " && c == "\U{00E9}" && b == "a " && name == a + c + b
    ensures Bytes(name) - Bytes(c + b[..1]) == 6 && ByteCut(name, 6) == a + "\U{FFFD}"
  {
    AsciiBytes(a);
    AsciiBytes(b);
    AsciiBytes(b[..1]);
    BytesConcat(c, b[..1]);
    BytesConcat(a + c, b);
    BytesConcat(a, c);
    assert Bytes(c) == 2 by { assert c[1..] == ""; }
    assert name[..5] == a && name[5] == c[0];
    CutInside(name, 5, 6);
  }

  lemma CutNameCut(name: string, stripped: string, prefix: string)
    requires name == "2004 \U{00E9}a " && stripped == "\U{00E9}a" && prefix == "2004 \U{FFFD}"
    ensures prefix == ByteCut(name, Bytes(name) - Bytes(stripped))
  {
    assert name == "2004 " + "\U{00E9}" + "a " && stripped == "\U{00E9}" + "a "[..1] && prefix == "2004 " + "\U{FFFD}";
    CutNameBytes(name, "2004 ", "\U{00E9}", "a ");
  }

  /** A trailing space, and the stored prefix ends in half of the first character of the stripped name. */
  lemma HalfCharacterExample(name: string, stripped: string, prefix: string)
    requires name == "2004 \U{00E9}a " && stripped == "\U{00E9}a" && prefix == "2004 \U{FFFD}"
    ensures ExtractDatePrefixStr(name) == Returns(Extracted(stripped, Some(prefix)))
  {
    CutNameStripped(name, stripped);
    CutNameCut(name, stripped, prefix);
    YearStored(name, stripped, prefix);
  }

  lemma YearStored(name: string, stripped: string, q: string)
    requires Matches(SingleYear, name) && stripped == TrimSpace(Rest(SingleYear, name))
    requires q == ByteCut(name, Bytes(name) - Bytes(stripped)) && q != "" && !IsBlankOrUnderscore(q[|q| - 1])
    ensures ExtractDatePrefixStr(name) == Returns(Extracted(stripped, Some(q)))
  {
    StoredWhole(name, stripped, q);
    YearHasLabel(name);
    var text := Label(DateOf(SingleYear, name[..|Text(SingleYear)|]));
    StoredAs(SingleYear, name, text, stripped, q);
  }

  lemma YearHasLabel(name: string)
    requires Matches(SingleYear, name)
    ensures Label(DateOf(SingleYear, name[..|Text(SingleYear)|])).Some?
  {
  }

  lemma StoredWhole(name: string, stripped: string, q: string)
    requires q == ByteCut(name, Bytes(name) - Bytes(stripped)) && q != "" && !IsBlankOrUnderscore(q[|q| - 1])
    ensures StoredPrefix(name, stripped) == q
  {
  }

  lemma StoredAs(shape: Shape, name: string, text: Option<string>, stripped: string, p: string)
    requires Matches(shape, name) && text == Label(DateOf(shape, name[..|Text(shape)|])) && text.Some?
    requires stripped == TrimSpace(Rest(shape, name)) && p == StoredPrefix(name, stripped)
    ensures ExtractDatePrefixStr(name) == Returns(Extracted(stripped, Some(p)))
  {
    ExtractedBy(shape, name, text, stripped);
  }
}
