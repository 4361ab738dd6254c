/**
  One-time passwords of the second login factor, and the cache that keeps a used code from being
  accepted again (RFC 6238, section 5.2). Times are in nanoseconds since 1970.
 */
module Totp {
  import opened Domain
  import Weekdays

  const SECOND := 1_000_000_000
  const PERIOD := 30
  const SKEW := 1
  const RETENTION := 90 * SECOND

  /** The time step that an instant falls into. */
  function StepAt(t: int): int {
    t / SECOND / PERIOD
  }

  /** Six decimal digits. */
  predicate IsCode(s: string) {
    |s| == 6 && forall c | c in s :: Weekdays.IsDigit(c)
  }

  type Code = s: string | IsCode(s) witness "000000"

  /** The code of each user for each time step, which the shared secret determines. */
  type CodeBook = (UserId, int) -> Code

  /** A step counts from one period before it to one period after it. */
  predicate InWindow(step: int, t: int) {
    StepAt(t) - SKEW <= step <= StepAt(t) + SKEW
  }

  /** `totp.ValidateCustom`: but for white space around it, the code of one of the steps around `t`. */
  predicate ValidAt(book: CodeBook, user: UserId, text: string, t: int) {
    var code := Weekdays.TrimSpace(text);
    || book(user, StepAt(t)) == code
    || book(user, StepAt(t) + SKEW) == code
    || book(user, StepAt(t) - SKEW) == code
  }

  /** The text whose digest is the key of an entry; what was submitted enters it as it is. */
  function Key(user: UserId, text: string): string {
    user + ":" + text
  }

  type Entries = map<string, int>

  /** The entries after a code was marked at `marked` and the old ones were dropped at `now`. */
  function Marked(entries: Entries, key: string, marked: int, now: int): Entries {
    var added := entries[key := marked];
    map k | k in added && added[k] >= now - RETENTION :: added[k]
  }

  /** An attempt, with the three readings of the clock that it takes. */
  datatype Attempt = Attempt(user: UserId, text: string, validated: int, marked: int, cleaned: int)

  predicate Accepts(book: CodeBook, entries: Entries, a: Attempt) {
    Key(a.user, a.text) !in entries && ValidAt(book, a.user, a.text, a.validated)
  }

  function Next(book: CodeBook, entries: Entries, a: Attempt): Entries {
    if Accepts(book, entries, a) then Marked(entries, Key(a.user, a.text), a.marked, a.cleaned) else entries
  }

  class ReplayCache {
    const book: CodeBook
    var codes: Entries

    constructor (book: CodeBook)
      ensures this.book == book && codes == map[]
    {
      this.book := book;
      codes := map[];
    }

    method IsCodeUsed(user: UserId, code: string) returns (used: bool)
      ensures used == (Key(user, code) in codes)
    {
      used := Key(user, code) in codes;
    }

    /** Marks the code, then drops every entry older than 90 seconds and no younger one. */
    method MarkCodeAsUsed(user: UserId, code: string, marked: int, now: int)
      modifies this
      ensures codes == Marked(old(codes), Key(user, code), marked, now)
      ensures forall k | k in old(codes) && k != Key(user, code) && old(codes)[k] >= now - RETENTION :: k in codes
    {
      codes := codes[Key(user, code) := marked];
      var cutoff := now - RETENTION;
      ghost var added := codes;
      var rest := codes.Keys;
      while rest != {}
        invariant rest <= added.Keys
        invariant codes == map k | k in added && (k in rest || added[k] >= cutoff) :: added[k]
        decreases rest
      {
        var k :| k in rest;
        if codes[k] < cutoff {
          codes := codes - {k};
        }
        rest := rest - {k};
      }
    }

    /** The step of the password login that concerns the one-time password. */
    method CheckSecondFactor(a: Attempt) returns (accepted: bool)
      modifies this
      ensures accepted == Accepts(book, old(codes), a)
      ensures codes == Next(book, old(codes), a)
    {
      var used := IsCodeUsed(a.user, a.text);
      if used {
        return false;
      }
      if !ValidAt(book, a.user, a.text, a.validated) {
        return false;
      }
      MarkCodeAsUsed(a.user, a.text, a.marked, a.cleaned);
      accepted := true;
    }
  }

  // ----- no step is accepted twice --------------------------------------------------------------------

  function EntriesAfter(book: CodeBook, attempts: seq<Attempt>): Entries {
    if attempts == [] then map[]
    else Next(book, EntriesAfter(book, attempts[..|attempts| - 1]), attempts[|attempts| - 1])
  }

  /** The clock never runs backwards, within an attempt or from one to the next. */
  predicate ClockRuns(attempts: seq<Attempt>) {
    && (forall i | 0 <= i < |attempts| :: attempts[i].validated <= attempts[i].marked <= attempts[i].cleaned)
    && (forall i, j | 0 <= i < j < |attempts| :: attempts[i].cleaned <= attempts[j].validated)
  }

  /** A step is valid for exactly 90 seconds. */
  lemma WindowIsNinetySeconds(step: int, t: int)
    ensures InWindow(step, t) <==> 0 <= t - (step - 1) * 30_000_000_000 < 90_000_000_000
  {
  }

  /** Attempt `i` of the run was accepted for this step of this user. */
  predicate AcceptedFor(book: CodeBook, attempts: seq<Attempt>, i: nat, user: UserId, step: int)
    requires i < |attempts|
  {
    && attempts[i].user == user
    && Weekdays.TrimSpace(attempts[i].text) == book(user, step)
    && InWindow(step, attempts[i].validated)
    && Accepts(book, EntriesAfter(book, attempts[..i]), attempts[i])
  }

  /** Each accepted attempt is accepted for some step. */
  lemma AcceptedForSomeStep(book: CodeBook, attempts: seq<Attempt>, i: nat) returns (step: int)
    requires i < |attempts| && Accepts(book, EntriesAfter(book, attempts[..i]), attempts[i])
    ensures AcceptedFor(book, attempts, i, attempts[i].user, step)
  {
    var a := attempts[i];
    var now, code := StepAt(a.validated), Weekdays.TrimSpace(a.text);
    step := if book(a.user, now) == code then now
            else if book(a.user, now + SKEW) == code then now + SKEW
            else now - SKEW;
  }

  /** Between two instants at which a step is valid there are less than 90 seconds. */
  lemma StillYoung(step: int, t: int, u: int)
    requires InWindow(step, t) && InWindow(step, u)
    ensures t > u - RETENTION
  {
    WindowIsNinetySeconds(step, t);
    WindowIsNinetySeconds(step, u);
  }

  lemma InBetween(step: int, t: int, u: int, v: int)
    requires InWindow(step, t) && InWindow(step, v) && t <= u <= v
    ensures InWindow(step, u)
  {
    WindowIsNinetySeconds(step, t);
    WindowIsNinetySeconds(step, u);
    WindowIsNinetySeconds(step, v);
  }

  /** As long as the step is valid its entry stays, with a time no earlier than the acceptance. */
  lemma {:induction false} EntryStays(book: CodeBook, attempts: seq<Attempt>, i: nat, n: nat, user: UserId, step: int)
    requires i < n <= |attempts| && ClockRuns(attempts) && AcceptedFor(book, attempts, i, user, step)
    requires InWindow(step, attempts[n - 1].cleaned)
    ensures
      var entries := EntriesAfter(book, attempts[..n]);
      var key := Key(user, attempts[i].text);
      key in entries && entries[key] >= attempts[i].validated
    decreases n
  {
    var a := attempts[n - 1];
    assert attempts[..n][..n - 1] == attempts[..n - 1];
    StillYoung(step, attempts[i].validated, a.cleaned);
    if n - 1 > i {
      assert attempts[n - 2].cleaned <= a.validated;
      assert n - 2 > i ==> attempts[i].cleaned <= attempts[n - 2].validated;
      InBetween(step, attempts[i].validated, attempts[n - 2].cleaned, a.cleaned);
      EntryStays(book, attempts, i, n - 1, user, step);
    }
  }

  /** A time step of a user is accepted again only for a text that differs from the first one. */
  lemma NoTextAcceptedTwice(
      book: CodeBook, attempts: seq<Attempt>, i: nat, j: nat, user: UserId, step: int)
    requires i < j < |attempts| && ClockRuns(attempts)
    requires AcceptedFor(book, attempts, i, user, step) && AcceptedFor(book, attempts, j, user, step)
    ensures attempts[i].text != attempts[j].text
  {
    if attempts[i].text == attempts[j].text {
      var before := attempts[j - 1].cleaned;
      assert before <= attempts[j].validated;
      assert i < j - 1 ==> attempts[i].cleaned <= attempts[j - 1].validated;
      WindowIsNinetySeconds(step, attempts[i].validated);
      WindowIsNinetySeconds(step, attempts[j].validated);
      WindowIsNinetySeconds(step, before);
      EntryStays(book, attempts, i, j, user, step);
    }
  }

  /** What is remembered was submitted. */
  lemma {:induction false} EntriesWereSubmitted(book: CodeBook, attempts: seq<Attempt>, key: string)
    requires key in EntriesAfter(book, attempts)
    ensures exists i :: 0 <= i < |attempts| && Key(attempts[i].user, attempts[i].text) == key
    decreases |attempts|
  {
    var n := |attempts| - 1;
    if key in EntriesAfter(book, attempts[..n]) {
      EntriesWereSubmitted(book, attempts[..n], key);
      var i :| 0 <= i < n && Key(attempts[..n][i].user, attempts[..n][i].text) == key;
      assert attempts[i] == attempts[..n][i];
    } else {
      assert Key(attempts[n].user, attempts[n].text) == key;
    }
  }

  /** User ids have a fixed length. */
  lemma KeyTellsApart(user: UserId, text: string, user': UserId, text': string)
    requires |user| == |user'| && Key(user, text) == Key(user', text')
    ensures user == user' && text == text'
  {
    var key, key' := Key(user, text), Key(user', text');
    assert key[..|user|] == user && key'[..|user|] == user';
    assert key[|user| + 1..] == text && key'[|user| + 1..] == text';
  }

  /**
    A text that the user has not submitted yet is accepted exactly if, but for white space around it, it is
    the code of the present step, of the one before or of the one after.
   */
  lemma NewTextAcceptedIff(book: CodeBook, attempts: seq<Attempt>, j: nat)
    requires j < |attempts|
    requires forall i | 0 <= i < j ::
               && |attempts[i].user| == |attempts[j].user|
               && (attempts[i].user != attempts[j].user || attempts[i].text != attempts[j].text)
    ensures Accepts(book, EntriesAfter(book, attempts[..j]), attempts[j]) <==>
            exists step {:trigger InWindow(step, attempts[j].validated)} ::
              && InWindow(step, attempts[j].validated)
              && book(attempts[j].user, step) == Weekdays.TrimSpace(attempts[j].text)
  {
    var a, key := attempts[j], Key(attempts[j].user, attempts[j].text);
    if key in EntriesAfter(book, attempts[..j]) {
      EntriesWereSubmitted(book, attempts[..j], key);
      var i :| 0 <= i < j && Key(attempts[..j][i].user, attempts[..j][i].text) == key;
      KeyTellsApart(attempts[i].user, attempts[i].text, a.user, a.text);
    }
    var now := StepAt(a.validated);
    assert InWindow(now, a.validated) && InWindow(now + SKEW, a.validated) && InWindow(now - SKEW, a.validated);
  }

  // ----- which texts may be submitted -----------------------------------------------------------------

  /** A run over `texts` accepts this step of this user at `i` and again at `j`. */
  predicate AcceptedTwice(
      texts: iset<string>, book: CodeBook, attempts: seq<Attempt>, i: nat, j: nat, user: UserId, step: int)
  {
    && i < j < |attempts| && ClockRuns(attempts)
    && (forall k | 0 <= k < |attempts| :: attempts[k].text in texts)
    && AcceptedFor(book, attempts, i, user, step)
    && AcceptedFor(book, attempts, j, user, step)
  }

  /** Whatever the codes are, no run that submits only `texts` accepts a time step twice. */
  ghost predicate NoStepAcceptedTwice(texts: iset<string>) {
    forall book: CodeBook, attempts: seq<Attempt>, i: nat, j: nat, user: UserId, step: int ::
      !AcceptedTwice(texts, book, attempts, i, j, user, step)
  }

  /** No two of the texts are the same code but for white space around it. */
  ghost predicate OneTextPerCode(texts: iset<string>) {
    forall a, b | a in texts && b in texts && Weekdays.TrimSpace(a) == Weekdays.TrimSpace(b) ::
      IsCode(Weekdays.TrimSpace(a)) ==> a == b
  }

  /** Two texts for one code are accepted one after the other within a single second. */
  lemma TwoTextsAccepted(texts: iset<string>, a: string, b: string, user: UserId)
    requires a in texts && b in texts && a != b
    requires Weekdays.TrimSpace(a) == Weekdays.TrimSpace(b) && IsCode(Weekdays.TrimSpace(a))
    ensures !NoStepAcceptedTwice(texts)
  {
    var code: Code := Weekdays.TrimSpace(a);
    var book: CodeBook := (_, _) => code;
    var first, second := Attempt(user, a, 0, 0, 0), Attempt(user, b, 0, 0, 0);
    var attempts := [first, second];
    assert attempts[..0] == [] && attempts[..1] == [first] && [first][..0] == [];
    assert Key(user, a)[|user| + 1..] == a && Key(user, b)[|user| + 1..] == b;
    assert AcceptedFor(book, attempts, 0, user, 0);
    assert AcceptedFor(book, attempts, 1, user, 0);
    assert AcceptedTwice(texts, book, attempts, 0, 1, user, 0);
  }

  /**
    The cache remembers the text as submitted, but white space around a code is not compared. So the
    promise that no time step is accepted twice holds for exactly those sets of texts in which every
    code is written in one way only.
   */
  lemma NoStepAcceptedTwiceIff(texts: iset<string>)
    ensures NoStepAcceptedTwice(texts) <==> OneTextPerCode(texts)
  {
    if OneTextPerCode(texts) {
      forall book: CodeBook, attempts: seq<Attempt>, i: nat, j: nat, user: UserId, step: int
        ensures !AcceptedTwice(texts, book, attempts, i, j, user, step)
      {
        if AcceptedTwice(texts, book, attempts, i, j, user, step) {
          NoTextAcceptedTwice(book, attempts, i, j, user, step);
        }
      }
    } else {
      var a, b :| a in texts && b in texts && Weekdays.TrimSpace(a) == Weekdays.TrimSpace(b)
                  && IsCode(Weekdays.TrimSpace(a)) && a != b;
      TwoTextsAccepted(texts, a, b, "");
    }
  }

  /** Clients that send the six digits and nothing else are on the safe side. */
  lemma BareCodesAcceptedOnce()
    ensures NoStepAcceptedTwice(iset s: string | IsCode(s))
  {
    var codes := iset s: string | IsCode(s);
    forall a | a in codes
      ensures Weekdays.TrimSpace(a) == a
    {
      assert a[0] in a && a[5] in a;
      Weekdays.TrimPlain(a);
    }
    NoStepAcceptedTwiceIff(codes);
  }

  /** A code and the same code after a blank are both accepted. */
  lemma BlankMakesADifference()
    ensures !NoStepAcceptedTwice(iset{"000000", " 000000"})
  {
    Weekdays.TrimPlain("000000");
    assert " 000000"[1..] == "000000";
    assert Weekdays.TrimSpace(" 000000") == "000000";
    NoStepAcceptedTwiceIff(iset{"000000", " 000000"});
  }
}
