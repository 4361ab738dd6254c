/**
  The bookable weekdays of a location: printed as text when an administrator saves them, read back
  for display, checked on input, and enforced day by day when a booking is made.
 */
module Weekdays {
  import opened Wrappers
  import opened Calendar

  // ----- decimal text ------------------------------------------------------------------------

  const MIN_INT := -0x8000_0000_0000_0000
  const MAX_INT := 0x7FFF_FFFF_FFFF_FFFF

  predicate IsDigit(c: char) {
    '0' <= c <= '9'
  }

  function Digits(n: nat): (s: string)
    ensures |s| > 0 && forall c | c in s :: IsDigit(c)
  {
    var last := [(n % 10 + '0' as int) as char];
    if n < 10 then last else Digits(n / 10) + last
  }

  function DigitsValue(s: string): (n: nat)
    requires forall c | c in s :: IsDigit(c)
  {
    if s == [] then 0
    else
      assert IsDigit(s[|s| - 1]);
      DigitsValue(s[..|s| - 1]) * 10 + (s[|s| - 1] as int - '0' as int)
  }

  /** `strconv.Itoa`. */
  function Itoa(n: int): string {
    if n < 0 then "-" + Digits(-n) else Digits(n)
  }

  /** `strconv.Atoi`: an optional sign, at least one digit, and a value that fits 64 bits. */
  function Atoi(s: string): Option<int> {
    var signed := s != [] && (s[0] == '-' || s[0] == '+');
    var body := if signed then s[1..] else s;
    if body == [] || exists c | c in body :: !IsDigit(c) then None
    else
      var magnitude: int := DigitsValue(body);
      var n := if signed && s[0] == '-' then -magnitude else magnitude;
      if MIN_INT <= n <= MAX_INT then Some(n) else None
  }

  lemma {:induction false} DigitsRoundTrip(n: nat)
    ensures DigitsValue(Digits(n)) == n
  {
    if n >= 10 {
      DigitsRoundTrip(n / 10);
      var s := Digits(n);
      assert s[..|s| - 1] == Digits(n / 10);
    }
  }

  lemma AtoiItoa(n: int)
    requires MIN_INT <= n <= MAX_INT
    ensures Atoi(Itoa(n)) == Some(n)
    ensures ',' !in Itoa(n) && ' ' !in Itoa(n) && |Itoa(n)| > 0
  {
    if n < 0 {
      DigitsRoundTrip(-n);
      assert Itoa(n)[1..] == Digits(-n);
    } else {
      DigitsRoundTrip(n);
      assert IsDigit(Itoa(n)[0]);
    }
  }

  predicate AllDigits(s: string) {
    forall c | c in s :: IsDigit(c)
  }

  /** A sign is optional, leading zeros do not matter, and nothing but digits may follow. */
  lemma AtoiMeaning(digits: string)
    requires digits != "" && IsDigit(digits[0])
    ensures Atoi("+" + digits) == Atoi(digits)
    ensures Atoi(digits) ==
            if AllDigits(digits) && DigitsValue(digits) <= MAX_INT then Some(DigitsValue(digits)) else None
  {
    assert ("+" + digits)[1..] == digits;
  }

  lemma AtoiOfNegative(digits: string)
    requires digits != ""
    ensures Atoi("-" + digits) ==
            if AllDigits(digits) && DigitsValue(digits) <= -MIN_INT then Some(-(DigitsValue(digits) as int)) else None
  {
    assert ("-" + digits)[1..] == digits;
  }

  // ----- comma separated lists ---------------------------------------------------------------

  /** `strings.Join(parts, ",")`. */
  function Join(parts: seq<string>): string {
    if parts == [] then "" else if |parts| == 1 then parts[0] else parts[0] + "," + Join(parts[1..])
  }

  /** `strings.Split(s, ",")`: one part more than there are commas. */
  function Split(s: string): (parts: seq<string>)
    ensures |parts| > 0
  {
    if s == "" then [""]
    else
      var rest := Split(s[1..]);
      if s[0] == ',' then [""] + rest else [[s[0]] + rest[0]] + rest[1..]
  }

  lemma {:induction false} SplitPlain(s: string)
    requires ',' !in s
    ensures Split(s) == [s]
  {
    if s != "" {
      SplitPlain(s[1..]);
      assert s == [s[0]] + s[1..];
    }
  }

  lemma {:induction false} SplitAtComma(s: string, t: string)
    requires ',' !in s
    ensures Split(s + "," + t) == [s] + Split(t)
  {
    var whole := s + "," + t;
    if s == "" {
      assert whole[1..] == t;
    } else {
      SplitAtComma(s[1..], t);
      assert whole[1..] == s[1..] + "," + t;
      assert [s[0]] + s[1..] == s;
    }
  }

  lemma {:induction false} SplitJoin(parts: seq<string>)
    requires parts != []
    requires forall p | p in parts :: ',' !in p
    ensures Split(Join(parts)) == parts
  {
    if |parts| == 1 {
      SplitPlain(parts[0]);
    } else {
      SplitJoin(parts[1..]);
      SplitAtComma(parts[0], Join(parts[1..]));
      assert parts == [parts[0]] + parts[1..];
    }
  }

  // ----- sorting -----------------------------------------------------------------------------

  predicate Sorted(s: seq<int>) {
    forall i, j | 0 <= i < j < |s| :: s[i] <= s[j]
  }

  predicate Ascending(s: seq<int>) {
    forall i, j | 0 <= i < j < |s| :: s[i] < s[j]
  }

  predicate Distinct(s: seq<int>) {
    forall i, j | 0 <= i < j < |s| :: s[i] != s[j]
  }

  /** Puts `x` where it belongs in a sorted sequence. */
  function Insert(x: int, s: seq<int>): seq<int> {
    if s == [] || x <= s[0] then [x] + s else [s[0]] + Insert(x, s[1..])
  }

  /** `slices.Sort`. */
  function Sort(s: seq<int>): seq<int> {
    if s == [] then [] else Insert(s[0], Sort(s[1..]))
  }

  lemma {:induction false} InsertSorted(x: int, s: seq<int>)
    requires Sorted(s)
    ensures Sorted(Insert(x, s))
    ensures Insert(x, s) != [] && Insert(x, s)[0] == (if s == [] || x <= s[0] then x else s[0])
  {
    if s != [] && s[0] < x {
      InsertSorted(x, s[1..]);
    }
  }

  lemma {:induction false} InsertElements(x: int, s: seq<int>)
    ensures multiset(Insert(x, s)) == multiset{x} + multiset(s)
  {
    if s != [] && s[0] < x {
      InsertElements(x, s[1..]);
      assert s == [s[0]] + s[1..];
    }
  }

  lemma {:induction false} SortCorrect(s: seq<int>)
    ensures Sorted(Sort(s)) && multiset(Sort(s)) == multiset(s)
  {
    if s != [] {
      SortCorrect(s[1..]);
      InsertSorted(s[0], Sort(s[1..]));
      InsertElements(s[0], Sort(s[1..]));
      assert s == [s[0]] + s[1..];
    }
  }

  // ----- printing, reading and checking the list ----------------------------------------------

  predicate Fits64(days: seq<int>) {
    forall i | 0 <= i < |days| :: MIN_INT <= days[i] <= MAX_INT
  }

  function Texts(days: seq<int>): (parts: seq<string>)
    ensures |parts| == |days|
  {
    seq(|days|, i requires 0 <= i < |days| => Itoa(days[i]))
  }

  /** What `weekdaysToString` prints. */
  function Print(days: seq<int>): string {
    Join(Texts(Sort(days)))
  }

  function Numbers(parts: seq<string>): seq<int> {
    if parts == [] then []
    else
      match Atoi(parts[0])
      case Some(d) => [d] + Numbers(parts[1..])
      case None => Numbers(parts[1..])
  }

  /** What `weekdaysFromString` reads: parts that are not numbers are skipped. */
  function Parse(csv: string): seq<int> {
    if csv == "" then [] else Numbers(Split(csv))
  }

  predicate ValidTokens(tokens: seq<string>, prev: int) {
    tokens == [] ||
    match Atoi(tokens[0])
    case None => false
    case Some(d) => 0 <= d <= 6 && prev < d && ValidTokens(tokens[1..], d)
  }

  /** What `IsValidWeekdaysList` accepts. */
  predicate ValidList(s: string) {
    |s| <= 13 && ValidTokens(Split(s), -1)
  }

  method WeekdaysToString(days: seq<int>) returns (s: string)
    ensures s == Print(days)
  {
    SortCorrect(days);
    if |days| == 0 {
      return "";
    }
    var sorted := Sort(days);
    var parts: seq<string> := [];
    for i := 0 to |sorted|
      invariant parts == Texts(sorted)[..i]
    {
      parts := parts + [Itoa(sorted[i])];
    }
    assert parts == Texts(sorted);
    s := Join(parts);
  }

  method WeekdaysFromString(csv: string) returns (days: seq<int>)
    ensures days == Parse(csv)
  {
    days := [];
    if csv == "" {
      return;
    }
    var parts := Split(csv);
    for i := 0 to |parts|
      invariant days + Numbers(parts[i..]) == Numbers(parts)
    {
      match Atoi(parts[i]) {
        case Some(d) => days := days + [d];
        case None =>
      }
    }
  }

  method IsValidWeekdaysList(s: string) returns (ok: bool)
    ensures ok == ValidList(s)
  {
    if |s| > 13 {
      return false;
    }
    var tokens := Split(s);
    var prev := -1;
    for i := 0 to |tokens|
      invariant ValidTokens(tokens, -1) == ValidTokens(tokens[i..], prev)
    {
      match Atoi(tokens[i]) {
        case None => return false;
        case Some(weekday) =>
          if weekday < 0 || weekday > 6 || weekday <= prev {
            return false;
          }
          prev := weekday;
      }
    }
    ok := true;
  }

  lemma {:induction false} NumbersOfTexts(days: seq<int>)
    requires Fits64(days)
    ensures Numbers(Texts(days)) == days
  {
    if days != [] {
      var parts := Texts(days);
      assert Atoi(parts[0]) == Some(days[0]) by {
        AtoiItoa(days[0]);
      }
      assert parts[1..] == Texts(days[1..]);
      NumbersOfTexts(days[1..]);
    }
  }

  lemma SplitPrinted(days: seq<int>)
    requires Fits64(days) && days != []
    ensures Split(Join(Texts(days))) == Texts(days)
    ensures Join(Texts(days)) != ""
  {
    forall p | p in Texts(days)
      ensures ',' !in p
    {
      var i :| 0 <= i < |days| && p == Itoa(days[i]);
      AtoiItoa(days[i]);
    }
    SplitJoin(Texts(days));
    AtoiItoa(days[0]);
  }

  /** Sorting loses nothing: the members stay, and so does the length. */
  lemma SortKeepsMembers(days: seq<int>)
    ensures forall d :: d in Sort(days) <==> d in days
    ensures |Sort(days)| == |days|
    ensures Fits64(days) ==> Fits64(Sort(days))
    ensures AllWeekdays(Sort(days)) <==> AllWeekdays(days)
  {
    SortCorrect(days);
    assert forall d :: d in Sort(days) <==> d in multiset(Sort(days));
    assert forall d :: d in days <==> d in multiset(days);
    assert |multiset(Sort(days))| == |multiset(days)|;
    forall i | 0 <= i < |days| ensures days[i] in Sort(days) {
      assert days[i] in days;
    }
    assert forall i | 0 <= i < |days| :: Sort(days)[i] in days;
  }

  /** Reading back a printed list yields the days in order, each as often as it was given. */
  lemma RoundTrip(days: seq<int>)
    requires Fits64(days)
    ensures Parse(Print(days)) == Sort(days)
    ensures Sorted(Parse(Print(days))) && multiset(Parse(Print(days))) == multiset(days)
  {
    SortCorrect(days);
    SortKeepsMembers(days);
    if days != [] {
      SplitPrinted(Sort(days));
      NumbersOfTexts(Sort(days));
    }
  }

  lemma {:induction false} DistinctMultiset(s: seq<int>)
    ensures Distinct(s) <==> forall x :: multiset(s)[x] <= 1
  {
    if s != [] {
      DistinctMultiset(s[1..]);
      assert s == [s[0]] + s[1..];
      assert multiset(s) == multiset{s[0]} + multiset(s[1..]);
      assert s[0] in s[1..] <==> multiset(s[1..])[s[0]] >= 1;
      if Distinct(s) {
        assert Distinct(s[1..]);
        assert s[0] !in s[1..];
      }
      if forall x :: multiset(s)[x] <= 1 {
        forall x ensures multiset(s[1..])[x] <= 1 {
          assert multiset(s)[x] <= 1;
        }
        assert multiset(s)[s[0]] <= 1;
        assert s[0] !in s[1..];
        assert forall j | 1 <= j < |s| :: s[j] == s[1..][j - 1] && s[j] in s[1..];
      }
    }
  }

  lemma SortedDistinct(days: seq<int>)
    ensures Ascending(Sort(days)) <==> Distinct(days)
  {
    SortCorrect(days);
    DistinctMultiset(days);
    DistinctMultiset(Sort(days));
    if Distinct(Sort(days)) {
      assert Ascending(Sort(days));
    }
  }

  lemma {:induction false} ValidTokensAreNumbers(tokens: seq<string>, prev: int)
    ensures ValidTokens(tokens, prev) <==>
      && |Numbers(tokens)| == |tokens|
      && AllWeekdays(Numbers(tokens)) && Ascending(Numbers(tokens))
      && (tokens != [] ==> prev < Numbers(tokens)[0])
    ensures |Numbers(tokens)| <= |tokens|
    decreases |tokens|
  {
    if tokens != [] {
      var days := Numbers(tokens);
      if Atoi(tokens[0]).Some? {
        ValidTokensAreNumbers(tokens[1..], Atoi(tokens[0]).value);
        assert days[1..] == Numbers(tokens[1..]);
        AscendingFromHead(days);
        assert AllWeekdays(days) <==> 0 <= days[0] <= 6 && AllWeekdays(days[1..]) by {
          assert forall i | 1 <= i < |days| :: days[i] == days[1..][i - 1];
        }
      } else {
        ValidTokensAreNumbers(tokens[1..], prev);
      }
    }
  }

  /** Whatever the text: it is valid exactly if it is short and all its parts are weekdays, in strict order. */
  lemma ValidListMeaning(s: string)
    ensures ValidList(s) <==>
      && |s| <= 13 && |Numbers(Split(s))| == |Split(s)|
      && AllWeekdays(Numbers(Split(s))) && Ascending(Numbers(Split(s)))
  {
    ValidTokensAreNumbers(Split(s), -1);
  }

  predicate AllWeekdays(days: seq<int>) {
    forall i | 0 <= i < |days| :: 0 <= days[i] <= 6
  }

  lemma AscendingFromHead(days: seq<int>)
    requires days != []
    ensures Ascending(days) <==> Ascending(days[1..]) && (|days| > 1 ==> days[0] < days[1])
  {
    if Ascending(days[1..]) && (|days| > 1 ==> days[0] < days[1]) {
      forall i, j | 0 <= i < j < |days| ensures days[i] < days[j] {
        assert days[j] == days[1..][j - 1];
        assert i > 0 ==> days[i] == days[1..][i - 1];
        assert days[1] == days[1..][0];
      }
    }
  }

  lemma {:induction false} ValidTokensMeaning(days: seq<int>, prev: int)
    requires Fits64(days)
    ensures ValidTokens(Texts(days), prev) <==>
            AllWeekdays(days) && Ascending(days) && (days != [] ==> prev < days[0])
  {
    if days != [] {
      var parts := Texts(days);
      assert Atoi(parts[0]) == Some(days[0]) by {
        AtoiItoa(days[0]);
      }
      assert parts[1..] == Texts(days[1..]);
      ValidTokensMeaning(days[1..], days[0]);
      AscendingFromHead(days);
      assert AllWeekdays(days) <==> 0 <= days[0] <= 6 && AllWeekdays(days[1..]) by {
        assert forall i | 1 <= i < |days| :: days[i] == days[1..][i - 1];
      }
    }
  }

  lemma {:induction false} AscendingIsShort(days: seq<int>, low: int)
    requires AllWeekdays(days) && Ascending(days)
    requires 0 <= low <= 7 && (days != [] ==> low <= days[0])
    ensures |days| <= 7 - low
    ensures days != [] ==> |Join(Texts(days))| == 2 * |days| - 1
  {
    if days != [] {
      assert |Itoa(days[0])| == 1;
      AscendingIsShort(days[1..], days[0] + 1);
      assert Texts(days)[1..] == Texts(days[1..]);
    }
  }

  /**
    The check on the printed list accepts exactly the nonempty lists of weekdays without
    repetition, whatever integers the list holds.
   */
  lemma PrintedListAcceptedIff(days: seq<int>)
    requires Fits64(days)
    ensures ValidList(Print(days)) <==> days != [] && AllWeekdays(days) && Distinct(days)
  {
    SortKeepsMembers(days);
    SortedDistinct(days);
    if days == [] {
      assert Atoi("") == None;
    } else {
      SplitPrinted(Sort(days));
      ValidTokensMeaning(Sort(days), -1);
      if AllWeekdays(days) && Distinct(days) {
        AscendingIsShort(Sort(days), 0);
      }
    }
  }

  // ----- enforcing the list on a booking ------------------------------------------------------

  /** `unicode.IsSpace`. */
  predicate IsSpace(c: char) {
    || c == ' ' || '\U{9}' <= c <= '\U{D}' || c == '\U{85}' || c == '\U{A0}'
    || c == '\U{1680}' || '\U{2000}' <= c <= '\U{200A}' || c == '\U{2028}' || c == '\U{2029}'
    || c == '\U{202F}' || c == '\U{205F}' || c == '\U{3000}'
  }

  function TrimLeft(s: string): string {
    if s != "" && IsSpace(s[0]) then TrimLeft(s[1..]) else s
  }

  function TrimRight(s: string): string {
    if s != "" && IsSpace(s[|s| - 1]) then TrimRight(s[..|s| - 1]) else s
  }

  /** `strings.TrimSpace`. */
  function TrimSpace(s: string): string {
    TrimRight(TrimLeft(s))
  }

  predicate AllSpace(s: string) {
    forall c | c in s :: IsSpace(c)
  }

  lemma {:induction false} TrimLeftMeaning(s: string) returns (before: string)
    ensures s == before + TrimLeft(s) && AllSpace(before)
    ensures TrimLeft(s) != "" ==> !IsSpace(TrimLeft(s)[0])
  {
    if s != "" && IsSpace(s[0]) {
      var rest := TrimLeftMeaning(s[1..]);
      before := [s[0]] + rest;
      assert s == [s[0]] + s[1..];
    } else {
      before := "";
    }
  }

  lemma {:induction false} TrimRightMeaning(s: string) returns (after: string)
    ensures s == TrimRight(s) + after && AllSpace(after)
    ensures TrimRight(s) != "" ==> !IsSpace(TrimRight(s)[|TrimRight(s)| - 1])
  {
    if s != "" && IsSpace(s[|s| - 1]) {
      var rest := TrimRightMeaning(s[..|s| - 1]);
      after := rest + [s[|s| - 1]];
      assert s == s[..|s| - 1] + [s[|s| - 1]];
    } else {
      after := "";
      assert s + after == s;
    }
  }

  /** Trimming takes away white space at both ends, all of it and nothing else. */
  lemma TrimSpaceMeaning(s: string) returns (before: string, after: string)
    ensures s == before + TrimSpace(s) + after && AllSpace(before) && AllSpace(after)
    ensures TrimSpace(s) != "" ==> !IsSpace(TrimSpace(s)[0]) && !IsSpace(TrimSpace(s)[|TrimSpace(s)| - 1])
  {
    before := TrimLeftMeaning(s);
    after := TrimRightMeaning(TrimLeft(s));
    if TrimSpace(s) != "" {
      assert TrimSpace(s)[0] == TrimLeft(s)[0];
    }
  }

  /** The weekdays that a stored list allows. */
  function AllowedDays(text: string): set<int> {
    set part | part in Split(text) && Atoi(TrimSpace(part)).Some? :: Atoi(TrimSpace(part)).value
  }

  /** White space around the numbers of a stored list does not matter. */
  lemma SpacesDoNotMatter(parts: seq<string>, padded: seq<string>)
    requires parts != [] && |padded| == |parts|
    requires forall i | 0 <= i < |parts| :: ',' !in parts[i] && ',' !in padded[i]
    requires forall i | 0 <= i < |parts| :: TrimSpace(padded[i]) == parts[i]
    ensures forall w :: w in AllowedDays(Join(padded)) <==> exists i :: 0 <= i < |parts| && Atoi(parts[i]) == Some(w)
  {
    SplitJoin(padded);
    forall i | 0 <= i < |parts| && Atoi(parts[i]).Some?
      ensures Atoi(parts[i]).value in AllowedDays(Join(padded))
    {
      assert padded[i] in Split(Join(padded));
    }
    forall w | w in AllowedDays(Join(padded))
      ensures exists i :: 0 <= i < |parts| && Atoi(parts[i]) == Some(w)
    {
      var part :| part in padded && Atoi(TrimSpace(part)) == Some(w);
      var i :| 0 <= i < |padded| && padded[i] == part;
      assert Atoi(parts[i]) == Some(w);
    }
  }

  /** `exempt` stands for a space administrator of an organisation without admin restrictions. */
  predicate Bookable(text: string, exempt: bool, enter: int, leave: int) {
    text == "" || exempt ||
    forall day | DayOf(enter) <= day <= DayOf(leave - 1) :: Weekday(day) in AllowedDays(text)
  }

  method IsLocationWeekdayBookable(text: string, exempt: bool, enter: int, leave: int) returns (ok: bool)
    ensures ok == Bookable(text, exempt, enter, leave)
  {
    if text == "" || exempt {
      return true;
    }
    var allowed: set<int> := {};
    var parts := Split(text);
    for i := 0 to |parts|
      invariant allowed == set part | part in parts[..i] && Atoi(TrimSpace(part)).Some? :: Atoi(TrimSpace(part)).value
    {
      match Atoi(TrimSpace(parts[i])) {
        case Some(n) => allowed := allowed + {n};
        case None =>
      }
      assert parts[..i + 1] == parts[..i] + [parts[i]];
    }
    assert parts[..|parts|] == parts;
    // `leave` is exclusive: the last day is the one just before it
    var day, lastDay := DayOf(enter), DayOf(leave - 1);
    while day <= lastDay
      invariant DayOf(enter) <= day
      invariant forall d | DayOf(enter) <= d < day && d <= lastDay :: Weekday(d) in allowed
      decreases lastDay - day
    {
      if Weekday(day) !in allowed {
        return false;
      }
      day := day + 1;
    }
    ok := true;
  }

  /** The weekdays on which the restriction lets something happen. */
  predicate AllowedAt(text: string, t: int) {
    Weekday(DayOf(t)) in AllowedDays(text)
  }

  /** For a proper interval the loop decides whether every instant of it falls on an allowed weekday. */
  lemma BookableIffEveryInstantAllowed(text: string, enter: int, leave: int)
    requires text != "" && enter < leave
    ensures Bookable(text, false, enter, leave) <==>
            forall t | enter <= t < leave :: AllowedAt(text, t)
  {
    if forall t | enter <= t < leave :: AllowedAt(text, t) {
      forall day | DayOf(enter) <= day <= DayOf(leave - 1)
        ensures Weekday(day) in AllowedDays(text)
      {
        var t := if day == DayOf(enter) then enter else day * DAY;
        assert enter <= t < leave && DayOf(t) == day;
        assert AllowedAt(text, t);
      }
    }
  }

  /** A booking that touches seven or more days needs all seven weekdays. */
  lemma LongSpanNeedsWholeWeek(text: string, enter: int, leave: int)
    requires text != "" && DayOf(leave - 1) - DayOf(enter) >= 6
    ensures Bookable(text, false, enter, leave) <==> forall w | 0 <= w <= 6 :: w in AllowedDays(text)
  {
    if Bookable(text, false, enter, leave) {
      forall w | 0 <= w <= 6
        ensures w in AllowedDays(text)
      {
        var day := DayWithin(DayOf(enter), w);
      }
    }
  }

  /** Each weekday occurs among any seven days in a row. */
  lemma DayWithin(first: int, w: int) returns (day: int)
    requires 0 <= w <= 6
    ensures first <= day <= first + 6 && Weekday(day) == w
  {
    day := first + (w - Weekday(first)) % 7;
  }

  lemma {:induction false} TrimPlain(s: string)
    requires s != "" && !IsSpace(s[0]) && !IsSpace(s[|s| - 1])
    ensures TrimSpace(s) == s
  {
  }

  lemma ItoaPlain(n: int)
    ensures |Itoa(n)| > 0 && !IsSpace(Itoa(n)[0]) && !IsSpace(Itoa(n)[|Itoa(n)| - 1])
  {
    var digits := Digits(if n < 0 then -n else n);
    assert IsDigit(digits[0]) && IsDigit(digits[|digits| - 1]);
  }

  /** What is enforced is what the administrator listed. */
  lemma EnforcedDaysAreListedDays(days: seq<int>)
    requires Fits64(days)
    ensures AllowedDays(Print(days)) == set d | d in days
  {
    SortKeepsMembers(days);
    var sorted := Sort(days);
    if days == [] {
      assert Split("") == [""] && TrimSpace("") == "";
    } else {
      SplitPrinted(sorted);
      forall i | 0 <= i < |sorted|
        ensures Atoi(TrimSpace(Texts(sorted)[i])) == Some(sorted[i])
      {
        ItoaPlain(sorted[i]);
        TrimPlain(Itoa(sorted[i]));
        AtoiItoa(sorted[i]);
      }
      forall d | d in days
        ensures d in AllowedDays(Print(days))
      {
        var i :| 0 <= i < |sorted| && sorted[i] == d;
        assert Texts(sorted)[i] in Split(Print(days));
      }
      forall d | d in AllowedDays(Print(days))
        ensures d in days
      {
        var part :| part in Texts(sorted) && Atoi(TrimSpace(part)) == Some(d);
        var i :| 0 <= i < |sorted| && Texts(sorted)[i] == part;
        assert sorted[i] in sorted;
      }
    }
  }

  /**
    From the administrator's list to the decision on a booking: without an exemption a proper
    interval passes exactly if the list is empty or holds the weekday of each of its instants.
   */
  lemma ListToDecision(days: seq<int>, enter: int, leave: int)
    requires Fits64(days) && enter < leave
    ensures Bookable(Print(days), false, enter, leave) <==>
            days == [] || forall t | enter <= t < leave :: Weekday(DayOf(t)) in days
  {
    EnforcedDaysAreListedDays(days);
    SortKeepsMembers(days);
    if days != [] {
      SplitPrinted(Sort(days));
      BookableIffEveryInstantAllowed(Print(days), enter, leave);
      assert forall t :: AllowedAt(Print(days), t) <==> Weekday(DayOf(t)) in days;
    }
  }
}
