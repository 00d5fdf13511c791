/**
 Lexicographic order on strings, as `std::string`'s relational operators
 define it: the first differing character decides, and a proper prefix is
 smaller than the string it prefixes. Characters compare by code point.
 */
module Lex {

  /** `a < b` on strings: a proper prefix is smaller, and no string is below itself. */
  predicate Less(a: string, b: string): (r: bool)
    ensures |a| < |b| && a == b[..|a|] ==> r
    ensures r ==> a != b
    decreases |a|
  {
    if |a| == 0 then |b| > 0
    else if |b| == 0 then false
    else if a[0] != b[0] then a[0] < b[0]
    else Less(a[1..], b[1..])
  }

  /** `a >= b` on strings is the negation of `a < b`. */
  predicate AtLeast(a: string, b: string)
  {
    !Less(a, b)
  }

  /**
   The order date test of the order pass: `start <= date < end`, written
   the way the program writes it, as `date >= start && date < end`.
   */
  predicate InWindow(date: string, start: string, end: string): (r: bool)
    ensures r ==> date != end
    ensures r ==> date == start || Less(start, date)
    ensures date == start ==> (r <==> Less(start, end))
  {
    LessTrichotomous(date, start);
    AtLeast(date, start) && Less(date, end)
  }

  /** Characterisation of `Less` by the first position where the strings differ. */
  ghost predicate LessAt(a: string, b: string, i: nat)
  {
    && i <= |a| && i <= |b|
    && a[..i] == b[..i]
    && ((i == |a| && i < |b|) || (i < |a| && i < |b| && a[i] < b[i]))
  }

  lemma {:induction false} LessIffDiffersAt(a: string, b: string)
    ensures Less(a, b) <==> exists i: nat :: LessAt(a, b, i)
    decreases |a|
  {
    if |a| == 0 || |b| == 0 {
      if Less(a, b) {
        assert LessAt(a, b, 0);
      }
    } else if a[0] != b[0] {
      if Less(a, b) {
        assert LessAt(a, b, 0);
      }
    } else {
      LessIffDiffersAt(a[1..], b[1..]);
      if Less(a, b) {
        var i: nat :| LessAt(a[1..], b[1..], i);
        assert a[..i + 1] == [a[0]] + a[1..][..i];
        assert b[..i + 1] == [b[0]] + b[1..][..i];
        assert LessAt(a, b, i + 1);
      }
      if exists i: nat :: LessAt(a, b, i) {
        var i: nat :| LessAt(a, b, i);
        assert i > 0;
        assert a[1..][..i - 1] == a[..i][1..];
        assert b[1..][..i - 1] == b[..i][1..];
        assert LessAt(a[1..], b[1..], i - 1);
      }
    }
  }

  lemma {:induction false} LessIrreflexive(a: string)
    ensures !Less(a, a)
    decreases |a|
  {
    if |a| > 0 {
      LessIrreflexive(a[1..]);
    }
  }

  lemma {:induction false} LessTransitive(a: string, b: string, c: string)
    requires Less(a, b) && Less(b, c)
    ensures Less(a, c)
    decreases |a|
  {
    if |a| > 0 && a[0] == b[0] && b[0] == c[0] {
      LessTransitive(a[1..], b[1..], c[1..]);
    }
  }

  lemma {:induction false} LessTrichotomous(a: string, b: string)
    ensures Less(a, b) || a == b || Less(b, a)
    decreases |a|
  {
    if |a| > 0 && |b| > 0 && a[0] == b[0] {
      LessTrichotomous(a[1..], b[1..]);
      if a[1..] == b[1..] {
        assert a == [a[0]] + a[1..] && b == [b[0]] + b[1..];
      }
    }
  }

  lemma LessAsymmetric(a: string, b: string)
    requires Less(a, b)
    ensures !Less(b, a)
  {
    if Less(b, a) {
      LessTransitive(a, b, a);
      LessIrreflexive(a);
    }
  }

  /** The window is half-open: its start is inside whenever the window is non-empty ... */
  lemma WindowIncludesStart(start: string, end: string)
    ensures InWindow(start, start, end) <==> Less(start, end)
  {
    LessIrreflexive(start);
  }

  /** ... and its end is never inside. */
  lemma WindowExcludesEnd(start: string, end: string)
    ensures !InWindow(end, start, end)
  {
    LessIrreflexive(end);
  }

  /** A date inside the window lies strictly before the end and not before the start. */
  lemma WindowBetween(date: string, start: string, end: string)
    requires InWindow(date, start, end)
    ensures start == date || Less(start, date)
    ensures Less(date, end) && date != end
  {
    LessTrichotomous(date, start);
    LessIrreflexive(end);
  }
}
