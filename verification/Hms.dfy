/** Race times as text: src/utils.rs. The `\d` of the regular expression matches every decimal digit of
    Unicode; `wide` says which characters beyond ASCII are decimal digits, whatever they are. */
module Hms {
  import opened Wrappers
  import opened Results

  /** `Overflow` is the case in which the arithmetic after the regular expression leaves the
      range of u32, which aborts the command in a build with overflow checks. */
  datatype ParseOutcome = Parsed(secs: nat) | NoParse | Overflow

  datatype ParseError = ParseFinishTimeError | Aborted

  // ----- decimal numbers

  function Digit(n: nat): char
    requires n < 10
  {
    '0' + n as char
  }

  predicate IsDigit(c: char) {
    '0' <= c <= '9'
  }

  function DigitValue(c: char): nat
    requires IsDigit(c)
  {
    (c - '0') as nat
  }

  predicate AllDigits(s: string) {
    forall c | c in s :: IsDigit(c)
  }

  function Decimal(n: nat): string {
    if n < 10 then [Digit(n)] else Decimal(n / 10) + [Digit(n % 10)]
  }

  function TwoDigits(n: nat): string
    requires n < 100
  {
    [Digit(n / 10), Digit(n % 10)]
  }

  function Value(s: string): nat
    requires AllDigits(s)
  {
    if s == "" then 0 else 10 * Value(s[..|s| - 1]) + DigitValue(s[|s| - 1])
  }

  lemma {:induction false} ValueOfDecimal(n: nat)
    ensures |Decimal(n)| >= 1 && AllDigits(Decimal(n)) && Value(Decimal(n)) == n
    ensures n >= 1 ==> Decimal(n)[0] != '0'
  {
    if n < 10 {
      assert Decimal(n)[..0] == "";
    } else {
      ValueOfDecimal(n / 10);
      var d := Decimal(n);
      assert d[..|d| - 1] == Decimal(n / 10);
    }
  }

  lemma DigitOfValue(c: char)
    requires IsDigit(c)
    ensures DigitValue(c) < 10 && Digit(DigitValue(c)) == c
    ensures c != '0' ==> DigitValue(c) >= 1
    ensures c < '6' ==> DigitValue(c) < 6
  {
  }

  lemma {:induction false} DecimalOfValue(s: string)
    requires |s| >= 1 && AllDigits(s) && s[0] != '0'
    ensures Value(s) >= 1 && Decimal(Value(s)) == s
  {
    var front, last := s[..|s| - 1], s[|s| - 1];
    assert s == front + [last];
    DigitOfValue(last);
    if |s| == 1 {
      assert front == "" && Value(front) == 0;
    } else {
      DecimalOfValue(front);
      assert Value(s) / 10 == Value(front) && Value(s) % 10 == DigitValue(last);
    }
  }

  lemma ValueOfTwoDigits(s: string)
    requires |s| == 2 && AllDigits(s) && s[0] < '6'
    ensures Value(s) < 60 && TwoDigits(Value(s)) == s
  {
    assert s[..1][..0] == "" && s[..1][0] == s[0];
    assert Value(s[..1]) == DigitValue(s[0]);
    DigitOfValue(s[0]);
    DigitOfValue(s[1]);
  }

  lemma TwoDigitsBelow60(n: nat)
    requires n < 60
    ensures var d := TwoDigits(n); IsDigit(d[0]) && IsDigit(d[1]) && d[0] < '6' && AllDigits(d) && Value(d) == n
  {
    var d := TwoDigits(n);
    assert d[..1][..0] == "" && d[..1][0] == d[0];
    assert Value(d[..1]) == n / 10;
  }

  // ----- printing and parsing

  function FormatHms(secs: nat): string {
    var mins := secs / 60;
    var hours := mins / 60;
    if hours > 0 then
      Decimal(hours) + ":" + TwoDigits(mins % 60) + ":" + TwoDigits(secs % 60 % 60)
    else
      TwoDigits(mins % 60) + ":" + TwoDigits(secs % 60 % 60)
  }

  /** `\d` matches the character. */
  predicate InClass(wide: char -> bool, c: char) {
    IsDigit(c) || (c > '\U{7F}' && wide(c))
  }

  /** The end of the run of digits that starts at `i`: the greedy match of `\d+`. */
  function DigitsEnd(wide: char -> bool, s: string, i: nat): (j: nat)
    requires i <= |s|
    ensures i <= j <= |s|
    ensures forall k | i <= k < j :: InClass(wide, s[k])
    ensures j < |s| ==> !InClass(wide, s[j])
    decreases |s| - i
  {
    if i < |s| && InClass(wide, s[i]) then DigitsEnd(wide, s, i + 1) else i
  }

  /** `:\d{2}:\d{2}` matches at `j`. */
  predicate TailAt(wide: char -> bool, s: string, j: nat) {
    j + 6 <= |s|
    && s[j] == ':' && InClass(wide, s[j + 1]) && InClass(wide, s[j + 2])
    && s[j + 3] == ':' && InClass(wide, s[j + 4]) && InClass(wide, s[j + 5])
  }

  predicate MatchAt(wide: char -> bool, s: string, i: nat)
    requires i <= |s|
  {
    i < |s| && InClass(wide, s[i]) && TailAt(wide, s, DigitsEnd(wide, s, i))
  }

  /** The leftmost match at or after `i`; the regular expression is not anchored. */
  function FirstMatch(wide: char -> bool, s: string, i: nat): (r: Option<nat>)
    requires i <= |s|
    ensures r.Some? ==> i <= r.value <= |s| && MatchAt(wide, s, r.value)
    ensures forall k | i <= k < (if r.Some? then r.value else |s|) :: !MatchAt(wide, s, k)
    decreases |s| - i
  {
    if MatchAt(wide, s, i) then Some(i) else if i == |s| then None else FirstMatch(wide, s, i + 1)
  }

  /** The conversion to a u32 takes ASCII digits only. */
  function ToU32(s: string): Option<nat> {
    if AllDigits(s) && Value(s) < U32_LIMIT then Some(Value(s)) else None
  }

  /** The three numbers of a match. */
  datatype Clock = Clock(h: nat, m: nat, s: nat) {
    function Secs(): nat {
      h * 60 * 60 + m * 60 + s
    }
  }

  /** The numbers of the match from `i` whose tail is at `j`, if they fit: each in a u32, and minutes and
      seconds below 60. */
  function ReadAt(s: string, i: nat, j: nat): Option<Clock>
    requires i <= j && j + 6 <= |s|
  {
    match (ToU32(s[i..j]), ToU32(s[j + 1..j + 3]), ToU32(s[j + 4..j + 6]))
    case (Some(h), Some(m), Some(sec)) => if m >= 60 || sec >= 60 then None else Some(Clock(h, m, sec))
    case _ => None
  }

  function ParseHms(wide: char -> bool, s: string): ParseOutcome {
    match FirstMatch(wide, s, 0)
    case None => NoParse
    case Some(i) =>
      match ReadAt(s, i, DigitsEnd(wide, s, i))
      case None => NoParse
      case Some(clock) => if clock.Secs() >= U32_LIMIT then Overflow else Parsed(clock.Secs())
  }

  function ParseRaceResult(wide: char -> bool, s: string): Result<PlayerResult, ParseError> {
    if s == "forfeit" then Success(Forfeit)
    else match ParseHms(wide, s)
      case Parsed(t) => Success(Finish(t))
      case NoParse => Failure(ParseFinishTimeError)
      case Overflow => Failure(Aborted)
  }

  function Display(r: PlayerResult): string {
    match r
    case Forfeit => "Forfeit"
    case Finish(t) => FormatHms(t)
  }

  // ----- what the parser makes of any text

  /** Digits from `i` to `j`, and from there two colons, each before two digits. */
  predicate RunAt(wide: char -> bool, s: string, i: int, j: int) {
    0 <= i < j && j + 6 <= |s|
    && forall k | i <= k < j + 6 :: if k == j || k == j + 3 then s[k] == ':' else InClass(wide, s[k])
  }

  /** No match starts before `i`. */
  ghost predicate Leftmost(wide: char -> bool, s: string, i: int, j: int) {
    RunAt(wide, s, i, j) && forall x, y | RunAt(wide, s, x, y) :: i <= x
  }

  function Zeros(n: nat): string {
    if n == 0 then "" else "0" + Zeros(n - 1)
  }

  /** The text is the number, written with any number of leading zeros. */
  ghost predicate Spells(s: string, n: nat) {
    exists z: nat | z <= |s| :: s == Zeros(z) + Decimal(n)
  }

  /** The digits from `i` to `j` and the two pairs of digits after the colons are written as this time. */
  ghost predicate SpelledAt(s: string, i: int, j: int, c: Clock)
    requires 0 <= i <= j && j + 6 <= |s|
  {
    && c.h < U32_LIMIT && c.m < 60 && c.s < 60
    && Spells(s[i..j], c.h) && s[j + 1..j + 3] == TwoDigits(c.m) && s[j + 4..j + 6] == TwoDigits(c.s)
  }

  /** The leftmost match is written as this time. */
  ghost predicate Reads(wide: char -> bool, s: string, c: Clock) {
    exists i, j :: Leftmost(wide, s, i, j) && SpelledAt(s, i, j, c)
  }

  lemma {:induction false} ValueOfZeros(z: nat, d: string)
    requires AllDigits(d)
    ensures AllDigits(Zeros(z) + d) && Value(Zeros(z) + d) == Value(d)
  {
    if z == 0 {
      assert Zeros(0) + d == d;
    } else {
      ValueOfZeros(z - 1, d);
      LeadingZero(Zeros(z - 1) + d);
      assert Zeros(z) + d == "0" + (Zeros(z - 1) + d);
    }
  }

  lemma {:induction false} LeadingZero(d: string)
    requires AllDigits(d)
    ensures AllDigits("0" + d) && Value("0" + d) == Value(d)
  {
    if d == "" {
      assert "0" + d == "0" && "0"[..0] == "";
      assert Value("0") == 10 * Value("") + DigitValue('0');
    } else {
      var n := |d| - 1;
      LeadingZero(d[..n]);
      assert ("0" + d)[..n + 1] == "0" + d[..n];
    }
  }

  /** A number written out is a text of digits with that value, and every text of digits is one. */
  lemma {:induction false} SpellsIff(s: string, n: nat)
    requires s != ""
    ensures Spells(s, n) <==> AllDigits(s) && Value(s) == n
  {
    if Spells(s, n) {
      var z: nat :| z <= |s| && s == Zeros(z) + Decimal(n);
      ValueOfDecimal(n);
      ValueOfZeros(z, Decimal(n));
    }
    if AllDigits(s) && Value(s) == n {
      DigitsAreSpelled(s);
    }
  }

  lemma {:induction false} DigitsAreSpelled(s: string)
    requires s != "" && AllDigits(s)
    ensures Spells(s, Value(s))
  {
    if s[0] != '0' {
      DecimalOfValue(s);
      assert s == Zeros(0) + Decimal(Value(s));
    } else if |s| == 1 {
      assert s == "0" && s[..0] == "";
      assert s == Zeros(0) + Decimal(0);
    } else {
      assert s == "0" + s[1..];
      DigitsAreSpelled(s[1..]);
      LeadingZero(s[1..]);
      var z: nat :| z <= |s[1..]| && s[1..] == Zeros(z) + Decimal(Value(s[1..]));
      assert s == Zeros(z + 1) + Decimal(Value(s));
    }
  }

  /** Below 60, two digits have one number, and a number has two digits. */
  lemma TwoDigitsIff(s: string, n: nat)
    requires |s| == 2 && n < 60
    ensures s == TwoDigits(n) <==> AllDigits(s) && Value(s) == n
  {
    TwoDigitsBelow60(n);
    if AllDigits(s) && Value(s) == n {
      assert s[..1][..0] == "" && s[..1][0] == s[0] && Value(s[..1]) == DigitValue(s[0]);
      DigitOfValue(s[0]);
      DigitOfValue(s[1]);
    }
  }

  lemma ReadAtIff(s: string, i: nat, j: nat, c: Clock)
    requires i < j && j + 6 <= |s|
    ensures ReadAt(s, i, j) == Some(c) <==> SpelledAt(s, i, j, c)
  {
    SpellsIff(s[i..j], c.h);
    if c.m < 60 {
      TwoDigitsIff(s[j + 1..j + 3], c.m);
    }
    if c.s < 60 {
      TwoDigitsIff(s[j + 4..j + 6], c.s);
    }
  }

  /** From 1193046:28:16 on. */
  predicate PastLimit(c: Clock) {
    c.h > 1193046 || (c.h == 1193046 && (c.m > 28 || (c.m == 28 && c.s >= 16)))
  }

  lemma LimitAsClock(c: Clock)
    requires c.m < 60 && c.s < 60
    ensures c.Secs() >= U32_LIMIT <==> PastLimit(c)
  {
  }

  lemma RunEnds(wide: char -> bool, s: string, i: nat, j: int)
    requires RunAt(wide, s, i, j)
    ensures MatchAt(wide, s, i) && j == DigitsEnd(wide, s, i)
  {
    var e := DigitsEnd(wide, s, i);
    assert !InClass(wide, s[j]);
  }

  /** The recursive search finds the leftmost match, and only that. */
  lemma FirstMatchIsLeftmost(wide: char -> bool, s: string, i: int, j: int)
    ensures Leftmost(wide, s, i, j) <==>
      var first := FirstMatch(wide, s, 0); first == Some(i) && j == DigitsEnd(wide, s, first.value)
  {
    var first := FirstMatch(wide, s, 0);
    if Leftmost(wide, s, i, j) {
      RunEnds(wide, s, i, j);
      assert RunAt(wide, s, first.value, DigitsEnd(wide, s, first.value));
    } else if first == Some(i) && j == DigitsEnd(wide, s, first.value) {
      assert RunAt(wide, s, i, j);
      forall x, y | RunAt(wide, s, x, y)
        ensures i <= x
      {
        RunEnds(wide, s, x, y);
      }
    }
  }

  /** The parser aborts exactly if the leftmost match reads as a time from 1193046:28:16 on, and gives
      `t` exactly if it reads as an earlier time, of `t` seconds; every other text does not parse. */
  lemma ParseExactly(wide: char -> bool, s: string, t: nat)
    ensures ParseHms(wide, s) == Overflow <==> exists c :: Reads(wide, s, c) && PastLimit(c)
    ensures ParseHms(wide, s) == Parsed(t) <==> exists c :: Reads(wide, s, c) && !PastLimit(c) && t == c.Secs()
  {
    match ReadingOf(wide, s)
    case None =>
      forall c
        ensures !Reads(wide, s, c)
      {
        ReadsIff(wide, s, c);
      }
    case Some(clock) =>
      LimitAsClock(clock);
      forall c
        ensures Reads(wide, s, c) <==> c == clock
      {
        ReadsIff(wide, s, c);
      }
  }

  /** What can be entered as a result: a forfeit by just that word, and a finish by any text whose
      leftmost match is written as an earlier time than the limit. A time past the limit aborts, and any
      other text is refused. */
  lemma ParseRaceResultExactly(wide: char -> bool, s: string, t: nat)
    ensures ParseRaceResult(wide, s) == Success(Forfeit) <==> s == "forfeit"
    ensures ParseRaceResult(wide, s) == Success(Finish(t)) <==>
      exists c :: Reads(wide, s, c) && !PastLimit(c) && t == c.h * 3600 + c.m * 60 + c.s
    ensures ParseRaceResult(wide, s) == Failure(Aborted) <==> exists c :: Reads(wide, s, c) && PastLimit(c)
    ensures ParseRaceResult(wide, s) == Failure(ParseFinishTimeError) <==> s != "forfeit" && !exists c :: Reads(wide, s, c)
  {
    if s == "forfeit" {
      NoDigitsNoReading(wide, s);
    } else {
      ParseExactly(wide, s, t);
      ReadingOfReads(wide, s);
    }
  }

  lemma NoDigitsNoReading(wide: char -> bool, s: string)
    requires forall c | c in s :: 'A' <= c <= 'z'
    ensures forall c :: !Reads(wide, s, c)
  {
    forall i, j
      ensures !RunAt(wide, s, i, j)
    {
      if 0 <= i < |s| {
        assert s[i] in s;
      }
    }
  }

  lemma ReadingOfReads(wide: char -> bool, s: string)
    ensures ReadingOf(wide, s).Some? <==> exists c :: Reads(wide, s, c)
  {
    match ReadingOf(wide, s)
    case None =>
      forall c
        ensures !Reads(wide, s, c)
      {
        ReadsIff(wide, s, c);
      }
    case Some(clock) => ReadsIff(wide, s, clock);
  }

  /** What the parser reads before it adds up. */
  function ReadingOf(wide: char -> bool, s: string): (r: Option<Clock>)
    ensures r.Some? ==> r.value.m < 60 && r.value.s < 60
    ensures ParseHms(wide, s) ==
      if r.None? then NoParse else if r.value.Secs() >= U32_LIMIT then Overflow else Parsed(r.value.Secs())
  {
    match FirstMatch(wide, s, 0)
    case None => None
    case Some(i) => ReadAt(s, i, DigitsEnd(wide, s, i))
  }

  lemma ReadsIff(wide: char -> bool, s: string, c: Clock)
    ensures Reads(wide, s, c) <==> ReadingOf(wide, s) == Some(c)
  {
    var first := FirstMatch(wide, s, 0);
    if i, j :| Leftmost(wide, s, i, j) && SpelledAt(s, i, j, c) {
      FirstMatchIsLeftmost(wide, s, i, j);
      ReadAtIff(s, i, j, c);
    }
    if first.Some? {
      var j := DigitsEnd(wide, s, first.value);
      FirstMatchIsLeftmost(wide, s, first.value, j);
      ReadAtIff(s, first.value, j, c);
    }
  }

  // ----- round trips

  /** `h:mm:ss` with at least one hour, no leading zero, and minutes and seconds below 60. */
  predicate Canonical(s: string) {
    var n := |s| - 6;
    && n >= 1
    && AllDigits(s[..n]) && s[0] != '0'
    && s[n] == ':' && AllDigits(s[n + 1..n + 3]) && s[n + 1] < '6'
    && s[n + 3] == ':' && AllDigits(s[n + 4..]) && s[n + 4] < '6'
  }

  /** The three numbers of a canonical string. */
  function Hours(s: string): nat
    requires Canonical(s)
  {
    Value(s[..|s| - 6])
  }

  function Minutes(s: string): nat
    requires Canonical(s)
  {
    Value(s[|s| - 5..|s| - 3])
  }

  function Seconds(s: string): nat
    requires Canonical(s)
  {
    Value(s[|s| - 2..])
  }

  lemma CanonicalMatchesAtStart(wide: char -> bool, s: string)
    requires Canonical(s)
    ensures FirstMatch(wide, s, 0) == Some(0) && DigitsEnd(wide, s, 0) == |s| - 6
  {
    var n := |s| - 6;
    assert forall k | 0 <= k < n :: s[k] == s[..n][k] && s[k] in s[..n];
    assert s[n + 1] in s[n + 1..n + 3] && s[n + 2] in s[n + 1..n + 3];
    assert s[n + 4] in s[n + 4..] && s[n + 5] in s[n + 4..];
    var j := DigitsEnd(wide, s, 0);
    assert j >= n;
    assert MatchAt(wide, s, 0);
  }

  lemma CanonicalIsJoined(s: string)
    requires Canonical(s)
    ensures Hours(s) >= 1 && Minutes(s) < 60 && Seconds(s) < 60
    ensures s == Decimal(Hours(s)) + ":" + TwoDigits(Minutes(s)) + ":" + TwoDigits(Seconds(s))
  {
    var n := |s| - 6;
    DecimalOfValue(s[..n]);
    ValueOfTwoDigits(s[n + 1..n + 3]);
    ValueOfTwoDigits(s[n + 4..]);
    assert s == s[..n] + [s[n]] + s[n + 1..n + 3] + [s[n + 3]] + s[n + 4..];
  }

  lemma SmallNumber(s: string)
    requires |s| == 2 && AllDigits(s) && s[0] < '6'
    ensures ToU32(s) == Some(Value(s)) && Value(s) < 60
  {
    ValueOfTwoDigits(s);
  }

  /** What the parser makes of a canonical string. */
  lemma ParseCanonical(wide: char -> bool, s: string)
    requires Canonical(s)
    ensures Hours(s) >= 1 && Minutes(s) < 60 && Seconds(s) < 60
    ensures var total := Hours(s) * 60 * 60 + Minutes(s) * 60 + Seconds(s);
      ParseHms(wide, s) == if Hours(s) >= U32_LIMIT then NoParse
                           else if total >= U32_LIMIT then Overflow else Parsed(total)
  {
    var n := |s| - 6;
    CanonicalMatchesAtStart(wide, s);
    CanonicalIsJoined(s);
    SmallNumber(s[n + 1..n + 3]);
    SmallNumber(s[n + 4..]);
    assert s[0..n] == s[..n];
    assert s[n + 4..n + 6] == s[n + 4..];
  }

  /** What the printer makes of a time of at least one hour. */
  lemma FormatCanonical(t: nat)
    requires t >= 3600
    ensures var s := FormatHms(t);
      Canonical(s) && Hours(s) == t / 3600 && Minutes(s) == t / 60 % 60 && Seconds(s) == t % 60
  {
    var h, m, s := t / 3600, t / 60 % 60, t % 60;
    FormatParts(t);
    ValueOfDecimal(h);
    TwoDigitsBelow60(m);
    TwoDigitsBelow60(s);
    CanonicalParts(Decimal(h), TwoDigits(m), TwoDigits(s));
  }

  lemma FormatParts(t: nat)
    requires t >= 3600
    ensures t / 3600 >= 1 && FormatHms(t) == Decimal(t / 3600) + ":" + TwoDigits(t / 60 % 60) + ":" + TwoDigits(t % 60)
  {
    DivideTwice(t);
  }

  lemma DivideTwice(t: nat)
    ensures t / 60 / 60 == t / 3600 && t % 60 % 60 == t % 60
  {
  }

  lemma CanonicalParts(d: string, mm: string, ss: string)
    requires d != "" && AllDigits(d) && d[0] != '0'
    requires |mm| == |ss| == 2 && AllDigits(mm) && AllDigits(ss) && mm[0] < '6' && ss[0] < '6'
    ensures var s := d + ":" + mm + ":" + ss;
      Canonical(s) && Hours(s) == Value(d) && Minutes(s) == Value(mm) && Seconds(s) == Value(ss)
  {
    JoinedParts(d, mm, ss);
  }

  lemma JoinedParts(d: string, mm: string, ss: string)
    requires |mm| == |ss| == 2
    ensures var s := d + ":" + mm + ":" + ss; var n := |d|;
      && |s| == n + 6 && s[..n] == d && s[n] == ':' && s[n + 1..n + 3] == mm && s[n + 3] == ':' && s[n + 4..] == ss
      && s[n + 1] == mm[0] && s[n + 4] == ss[0]
  {
  }

  /** Printing then parsing, for every time: the round trip works exactly from one hour up to the
      limit of u32. Shorter times do not parse at all, and longer ones abort or are refused. */
  lemma ParseOfFormat(wide: char -> bool, t: nat)
    ensures ParseHms(wide, FormatHms(t)) ==
      if t < 3600 then NoParse
      else if t < U32_LIMIT then Parsed(t)
      else if t / 3600 < U32_LIMIT then Overflow
      else NoParse
  {
    if t < 3600 {
      assert |FormatHms(t)| == 5;
    } else {
      FormatCanonical(t);
      ParseCanonical(wide, FormatHms(t));
      SplitTime(t);
    }
  }

  /** A time below one hour, which does not parse as it is printed, does once the hour is put before it. */
  lemma ParseOfShort(wide: char -> bool, t: nat)
    requires t < 3600
    ensures ParseHms(wide, "0:" + FormatHms(t)) == Parsed(t)
    ensures |FormatHms(t)| == 5
  {
    ShortParts(t);
    NoHours(wide, t / 60, t % 60);
  }

  lemma ShortParts(t: nat)
    requires t < 3600
    ensures FormatHms(t) == TwoDigits(t / 60) + ":" + TwoDigits(t % 60)
  {
    DivideTwice(t);
  }

  lemma NoHours(wide: char -> bool, m: nat, sec: nat)
    requires m < 60 && sec < 60
    ensures ParseHms(wide, "0:" + (TwoDigits(m) + ":" + TwoDigits(sec))) == Parsed(m * 60 + sec)
  {
    var s := "0" + ":" + TwoDigits(m) + ":" + TwoDigits(sec);
    TwoDigitsBelow60(m);
    TwoDigitsBelow60(sec);
    JoinedParts("0", TwoDigits(m), TwoDigits(sec));
    assert s == "0:" + (TwoDigits(m) + ":" + TwoDigits(sec));
    assert s[2] == TwoDigits(m)[0] && s[3] == TwoDigits(m)[1] && s[5] == TwoDigits(sec)[0] && s[6] == TwoDigits(sec)[1];
    assert DigitsEnd(wide, s, 0) == 1;
    assert FirstMatch(wide, s, 0) == Some(0);
    assert s[0..1] == Zeros(0) + Decimal(0);
    assert s[5..7] == s[5..];
    ReadAtIff(s, 0, 1, Clock(0, m, sec));
  }

  lemma SplitTime(t: nat)
    ensures t / 3600 * 60 * 60 + t / 60 % 60 * 60 + t % 60 == t
  {
  }

  lemma FormatJoined(h: nat, m: nat, s: nat)
    requires h >= 1 && m < 60 && s < 60
    ensures FormatHms(h * 60 * 60 + m * 60 + s) == Decimal(h) + ":" + TwoDigits(m) + ":" + TwoDigits(s)
  {
    var t := h * 60 * 60 + m * 60 + s;
    assert t / 60 == h * 60 + m;
    assert t / 60 / 60 == h && t / 60 % 60 == m && t % 60 % 60 == s;
  }

  /** What the parser accepts and the printer gives back was canonical. */
  lemma PrintedIsCanonical(wide: char -> bool, s: string, t: nat)
    requires ParseHms(wide, s) == Parsed(t) && FormatHms(t) == s
    ensures Canonical(s)
  {
    if t >= 3600 {
      FormatCanonical(t);
    } else {
      ParseOfFormat(wide, t);
    }
  }

  lemma CanonicalText(s: string, t: nat)
    requires Canonical(s) && t == Hours(s) * 60 * 60 + Minutes(s) * 60 + Seconds(s)
    ensures FormatHms(t) == s
  {
    CanonicalIsJoined(s);
    FormatJoined(Hours(s), Minutes(s), Seconds(s));
  }

  lemma CanonicalSecs(wide: char -> bool, s: string, t: nat)
    requires ParseHms(wide, s) == Parsed(t) && Canonical(s)
    ensures t == Hours(s) * 60 * 60 + Minutes(s) * 60 + Seconds(s)
  {
    ParseCanonical(wide, s);
  }

  lemma CanonicalIsPrinted(wide: char -> bool, s: string, t: nat)
    requires ParseHms(wide, s) == Parsed(t) && Canonical(s)
    ensures FormatHms(t) == s
  {
    CanonicalSecs(wide, s, t);
    CanonicalText(s, t);
  }

  /** Parsing then printing: the text comes back exactly when it was canonical. */
  lemma FormatOfParse(wide: char -> bool, s: string)
    requires ParseHms(wide, s).Parsed?
    ensures FormatHms(ParseHms(wide, s).secs) == s <==> Canonical(s)
  {
    var t := ParseHms(wide, s).secs;
    if Canonical(s) {
      CanonicalIsPrinted(wide, s, t);
    }
    if FormatHms(t) == s {
      PrintedIsCanonical(wide, s, t);
    }
  }

  /** A displayed result is read back as the same result exactly for finish times from one hour up
      to the limit of u32: a displayed forfeit is not accepted. */
  lemma ResultRoundTrip(wide: char -> bool, r: PlayerResult)
    ensures ParseRaceResult(wide, Display(r)) == Success(r) <==> r.Finish? && 3600 <= r.secs < U32_LIMIT
    ensures r.Forfeit? ==> ParseRaceResult(wide, Display(r)) == Failure(ParseFinishTimeError)
  {
    match r
    case Forfeit => ForfeitIsRefused(wide);
    case Finish(t) =>
      ParseOfFormat(wide, t);
      TimeIsNoForfeit(t);
  }

  lemma ForfeitIsRefused(wide: char -> bool)
    ensures ParseRaceResult(wide, "Forfeit") == Failure(ParseFinishTimeError)
  {
    var s := "Forfeit";
    assert forall k | 0 <= k < |s| :: !InClass(wide, s[k]);
    assert FirstMatch(wide, s, 0) == None;
  }

  lemma TimeIsNoForfeit(t: nat)
    ensures FormatHms(t) != "forfeit"
  {
    var s := FormatHms(t);
    if t >= 3600 {
      FormatCanonical(t);
      assert s[0] in s[..|s| - 6];
      assert s[0] != 'f';
    } else {
      assert |s| == 5;
    }
  }
}
