/** Ordering of text as the planner compares it: code point by code point,
    a proper prefix sorting before the longer text. */
module TextOrder {
  import opened TimeFormat

  /** `a < b` on text. */
  predicate StrLess(a: string, b: string)
    ensures StrLess(a, b) ==> a != b && |b| > 0
  {
    if |b| == 0 then false
    else if |a| == 0 then true
    else if a[0] != b[0] then a[0] < b[0]
    else StrLess(a[1..], b[1..])
  }

  /** Text order is a strict total order: of `a < b`, `a == b` and `b < a`
      exactly one holds. */
  lemma {:induction false} StrLessTrichotomy(a: string, b: string)
    ensures StrLess(a, b) || a == b || StrLess(b, a)
    ensures !(StrLess(a, b) && StrLess(b, a))
    ensures StrLess(a, b) ==> a != b
  {
    if |a| > 0 && |b| > 0 && a[0] == b[0] {
      StrLessTrichotomy(a[1..], b[1..]);
      if a[1..] == b[1..] {
        assert a == [a[0]] + a[1..] && b == [b[0]] + b[1..];
      }
    }
  }

  /** Text order is transitive (a property of the model beyond what the
      intake relies on). */
  lemma {:induction false} StrLessTransitive(a: string, b: string, c: string)
    requires StrLess(a, b) && StrLess(b, c)
    ensures StrLess(a, c)
  {
    if |a| > 0 && a[0] == b[0] && b[0] == c[0] {
      StrLessTransitive(a[1..], b[1..], c[1..]);
    }
  }

  /** The value of a five-character, two-digit-hour time read as one number
      with the colon ignored; it orders the same way as the minutes of day. */
  lemma PaddedTimeFields(s: string)
    requires ValidTime(s) && |s| == 5
    ensures s[2] == ':'
    ensures IsDigit(s[0]) && IsDigit(s[1]) && IsDigit(s[3]) && IsDigit(s[4])
    ensures DigitValue(s[3]) < 6
    ensures MinutesOfDay(s) == 600 * DigitValue(s[0]) + 60 * DigitValue(s[1]) + 10 * DigitValue(s[3]) + DigitValue(s[4])
  {
  }

  /** When both times carry a two-digit hour, text order is time order. */
  lemma PaddedTimesOrderAsTimes(s: string, t: string)
    requires ValidTime(s) && ValidTime(t) && |s| == 5 && |t| == 5
    ensures StrLess(s, t) <==> MinutesOfDay(s) < MinutesOfDay(t)
  {
    PaddedTimeFields(s);
    PaddedTimeFields(t);
    var s1, t1 := s[1..], t[1..];
    var s2, t2 := s1[1..], t1[1..];
    var s3, t3 := s2[1..], t2[1..];
    var s4, t4 := s3[1..], t3[1..];
    assert s1[0] == s[1] && s2[0] == s[2] && s3[0] == s[3] && s4[0] == s[4];
    assert t1[0] == t[1] && t2[0] == t[2] && t3[0] == t[3] && t4[0] == t[4];
    assert |s4| == 1 && |t4| == 1 && |s4[1..]| == 0 && |t4[1..]| == 0;
    if s[0] != t[0] {
      assert StrLess(s, t) == (s[0] < t[0]);
    } else if s[1] != t[1] {
      assert StrLess(s, t) == StrLess(s1, t1) == (s[1] < t[1]);
    } else if s[3] != t[3] {
      assert StrLess(s, t) == StrLess(s1, t1) == StrLess(s2, t2) == StrLess(s3, t3) == (s[3] < t[3]);
    } else {
      assert StrLess(s, t) == StrLess(s1, t1) == StrLess(s2, t2) == StrLess(s3, t3) == StrLess(s4, t4);
      assert StrLess(s4, t4) == (s[4] < t[4]);
    }
  }
}
