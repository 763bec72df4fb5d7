/**
 * `checkEventOverlap`: the three-clause conflict rule on "HH:MM" strings,
 * compared the way JavaScript compares strings.
 */
module Overlap {
  import opened Types
  import opened Dates

  /** JavaScript's `a < b` on strings: the first differing character decides, and a proper prefix comes first. */
  predicate Less(a: string, b: string)
    decreases |a|
  {
    if a == [] then b != []
    else if b == [] then false
    else if a[0] != b[0] then a[0] < b[0]
    else Less(a[1..], b[1..])
  }

  lemma {:induction false} LessIrreflexive(a: string)
    ensures !Less(a, a)
    decreases |a|
  {
    if a != [] {
      LessIrreflexive(a[1..]);
    }
  }

  lemma {:induction false} LessTransitive(a: string, b: string, c: string)
    requires Less(a, b) && Less(b, c)
    ensures Less(a, c)
    decreases |a|
  {
    if a != [] && a[0] == b[0] && b[0] == c[0] {
      LessTransitive(a[1..], b[1..], c[1..]);
    }
  }

  lemma {:induction false} LessTotal(a: string, b: string)
    ensures a == b || Less(a, b) || Less(b, a)
    decreases |a|
  {
    if a != [] && b != [] && a[0] == b[0] {
      LessTotal(a[1..], b[1..]);
      if a[1..] == b[1..] {
        assert a == [a[0]] + a[1..] && b == [b[0]] + b[1..];
      }
    }
  }

  /** Less is a strict total order on strings. */
  lemma {:induction false} LessAsymmetric(a: string, b: string)
    requires Less(a, b)
    ensures !Less(b, a)
  {
    if Less(b, a) {
      LessTransitive(a, b, a);
      LessIrreflexive(a);
    }
  }

  /** The rule of the `.some` callback: `newEvent` against one existing event `e`. */
  predicate Conflicts(e: Event, c: Event) {
    (!Less(c.startTime, e.startTime) && Less(c.startTime, e.endTime)) ||
    (Less(e.startTime, c.endTime) && !Less(e.endTime, c.endTime)) ||
    (!Less(e.startTime, c.startTime) && !Less(c.endTime, e.endTime))
  }

  /** `checkEventOverlap(existing, c)`: some existing event conflicts with `c`. */
  function CheckEventOverlap(existing: seq<Event>, c: Event): (r: bool)
    ensures r <==> exists i :: 0 <= i < |existing| && Conflicts(existing[i], c)
  {
    if existing == [] then false
    else Conflicts(existing[0], c) || CheckEventOverlap(existing[1..], c)
  }

  /** The interval [start, end) is non-empty. */
  predicate Proper(e: Event) {
    Less(e.startTime, e.endTime)
  }

  /** Ordinary intersection of half-open intervals [start, end). */
  predicate Intersects(e: Event, c: Event) {
    Less(c.startTime, e.endTime) && Less(e.startTime, c.endTime)
  }

  /** On proper intervals, the three clauses together are exactly half-open interval intersection. */
  lemma ConflictsIffIntersects(e: Event, c: Event)
    requires Proper(e) && Proper(c)
    ensures Conflicts(e, c) <==> Intersects(e, c)
  {
    var cs, ce, es, ee := c.startTime, c.endTime, e.startTime, e.endTime;
    LessTotal(cs, es);
    LessTotal(ce, ee);
    LessTotal(cs, ee);
    LessTotal(es, ce);
    if !Less(cs, es) && Less(cs, ee) {
      if cs != es { LessTransitive(es, cs, ce); }
    }
    if Less(es, ce) && !Less(ee, ce) {
      if ce != ee { LessTransitive(cs, ce, ee); }
    }
    if !Less(es, cs) && !Less(ce, ee) {
      if cs != es { LessTransitive(cs, es, ee); }
      if ce != ee { LessTransitive(es, ee, ce); }
    }
    if Intersects(e, c) && Less(cs, es) && Less(ee, ce) {
      LessAsymmetric(cs, es);
      LessAsymmetric(ee, ce);
    }
  }

  /** Among proper intervals, an overlap is reported exactly when some interval intersects the candidate's. */
  lemma CheckEventOverlapIffIntersects(existing: seq<Event>, c: Event)
    requires Proper(c)
    requires forall i :: 0 <= i < |existing| ==> Proper(existing[i])
    ensures CheckEventOverlap(existing, c) <==> exists i :: 0 <= i < |existing| && Intersects(existing[i], c)
  {
    forall i | 0 <= i < |existing| {
      ConflictsIffIntersects(existing[i], c);
    }
  }

  /** Back-to-back events are not flagged: `e` ends no later than `c` starts, or starts no earlier than `c` ends. */
  lemma BackToBackNoOverlap(e: Event, c: Event)
    requires Proper(e) && Proper(c)
    requires !Less(c.startTime, e.endTime) || !Less(e.startTime, c.endTime)
    ensures !CheckEventOverlap([e], c)
  {
    ConflictsIffIntersects(e, c);
  }

  /** Events whose intervals share an instant are flagged. */
  lemma IntersectingOverlap(e: Event, c: Event)
    requires Proper(e) && Proper(c) && Intersects(e, c)
    ensures CheckEventOverlap([e], c)
  {
    ConflictsIffIntersects(e, c);
  }

  // ---- "HH:MM" strings and minutes ----

  /** A zero-padded 24-hour time "HH:MM", as the form's time inputs produce. */
  predicate IsClockTime(s: string) {
    |s| == 5 && IsDigit(s[0]) && IsDigit(s[1]) && s[2] == ':' && IsDigit(s[3]) && IsDigit(s[4]) &&
    10 * DigitValue(s[0]) + DigitValue(s[1]) < 24 && 10 * DigitValue(s[3]) + DigitValue(s[4]) < 60
  }

  function Minutes(s: string): (m: int)
    requires IsClockTime(s)
    ensures 0 <= m < 24 * 60
  {
    (10 * DigitValue(s[0]) + DigitValue(s[1])) * 60 + 10 * DigitValue(s[3]) + DigitValue(s[4])
  }

  /** Less on strings of equal length that agree on their first `k` characters compares what follows. */
  lemma {:induction false} LessSkip(a: string, b: string, k: nat)
    requires |a| == |b| && k <= |a| && a[..k] == b[..k]
    ensures Less(a, b) == Less(a[k..], b[k..])
    decreases k
  {
    if k > 0 {
      assert a[0] == a[..k][0] == b[..k][0] == b[0];
      assert a[1..][..k - 1] == a[1..k] == b[1..k] == b[1..][..k - 1];
      LessSkip(a[1..], b[1..], k - 1);
      assert a[1..][k - 1..] == a[k..] && b[1..][k - 1..] == b[k..];
    }
  }

  /** On zero-padded "HH:MM" strings, the string order is the order of the times they name. */
  lemma LessIsTimeOrder(a: string, b: string)
    requires IsClockTime(a) && IsClockTime(b)
    ensures Less(a, b) <==> Minutes(a) < Minutes(b)
  {
    if a[0] != b[0] {
      LessSkip(a, b, 0);
    } else if a[1] != b[1] {
      LessSkip(a, b, 1);
    } else if a[3] != b[3] {
      LessSkip(a, b, 3);
    } else if a[4] != b[4] {
      LessSkip(a, b, 4);
    } else {
      assert a == b;
      LessIrreflexive(a);
    }
  }
}
