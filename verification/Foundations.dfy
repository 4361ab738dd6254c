/** Small vocabulary shared by every component. */
module Wrappers {
  datatype Option<+T> = None | Some(value: T)
}

/** Go's integer division and remainder truncate toward zero; Dafny's are Euclidean. */
module GoArithmetic {
  function Quot(a: int, b: int): int
    requires b > 0
  {
    if a >= 0 then a / b else -((-a) / b)
  }

  function Rem(a: int, b: int): int
    requires b > 0
  {
    a - b * Quot(a, b)
  }
}

/**
  Wall-clock time in whole seconds. A calendar day is the number of days since 1 January 1970,
  a Thursday; weekdays are numbered as in Go, Sunday being 0.
 */
module Calendar {
  const DAY := 86400

  function DayOf(t: int): int {
    t / DAY
  }

  function Weekday(day: int): (w: int)
    ensures 0 <= w <= 6
  {
    (day + 4) % 7
  }

  /** Days are 86400 seconds long, counted from one that is a Thursday; weekdays follow each other. */
  lemma CalendarIsAnchored(t: int, day: int)
    ensures DayOf(t) == day <==> 86400 * day <= t < 86400 * (day + 1)
    ensures Weekday(0) == 4 && Weekday(day + 1) == if Weekday(day) == 6 then 0 else Weekday(day) + 1
    ensures Week(day + 1) == Week(day) + if Weekday(day) == 6 then 1 else 0
  {
  }

  /** The number of the Sunday-based week that a day belongs to. */
  function Week(day: int): int {
    (day + 4) / 7
  }
}

/** Facts about finite sets that the counting arguments rely on. */
module FiniteSets {
  lemma SubsetSize<T>(a: set<T>, b: set<T>)
    requires a <= b
    ensures |a| <= |b|
  {
    if a != {} {
      var x :| x in a;
      SubsetSize(a - {x}, b - {x});
    }
  }
}
