/**
 * String utilities shared by the model: an optional value, the
 * character-wise lexicographic order, and the position of the last
 * occurrence of a character. The order is Go's string comparison and
 * SQLite's default BINARY collation, which compare bytes; on UTF-8 text
 * byte order and character order agree. PostgreSQL compares text by the
 * database collation and a `date` column as dates; the model uses this
 * order only on `YYYY-MM-DD` days, where `Helper.FormatDateOrder` shows it
 * is date order.
 */
module Text {

  datatype Option<+T> = None | Some(value: T)

  /** `a` sorts strictly before `b`, comparing character by character. */
  predicate LexLess(a: string, b: string)
    decreases |a|
  {
    if a == [] then b != []
    else if b == [] then false
    else a[0] < b[0] || (a[0] == b[0] && LexLess(a[1..], b[1..]))
  }

  lemma {:induction false} LexLessIrreflexive(a: string)
    ensures !LexLess(a, a)
    decreases |a|
  {
    if a != [] {
      LexLessIrreflexive(a[1..]);
    }
  }

  /** Comparing two strings that start with prefixes of the same length
      compares the prefixes first and the rests only on a tie. */
  lemma {:induction false} LexLessConcat(a1: string, b1: string, a2: string, b2: string)
    requires |a1| == |a2|
    ensures LexLess(a1 + b1, a2 + b2) <==> LexLess(a1, a2) || (a1 == a2 && LexLess(b1, b2))
    decreases |a1|
  {
    if a1 == [] {
      assert a1 + b1 == b1 && a2 + b2 == b2;
    } else {
      assert (a1 + b1)[0] == a1[0] && (a2 + b2)[0] == a2[0];
      assert (a1 + b1)[1..] == a1[1..] + b1;
      assert (a2 + b2)[1..] == a2[1..] + b2;
      LexLessConcat(a1[1..], b1, a2[1..], b2);
      assert a1 == [a1[0]] + a1[1..] && a2 == [a2[0]] + a2[1..];
    }
  }

  /** Index of the last `c` in `s`, or -1 when `s` has none. */
  function LastIndexOf(s: string, c: char): (i: int)
    ensures -1 <= i < |s|
    ensures i >= 0 ==> s[i] == c
    ensures forall j :: i < j < |s| ==> s[j] != c
    decreases |s|
  {
    if s == [] then -1
    else if s[|s| - 1] == c then |s| - 1
    else LastIndexOf(s[..|s| - 1], c)
  }

  /** A string made of `x`, one `c` and a `c`-free tail splits back at that `c`. */
  lemma {:induction false} LastIndexOfSeparator(x: string, c: char, v: string)
    requires c !in v
    ensures LastIndexOf(x + [c] + v, c) == |x|
  {
    var s := x + [c] + v;
    var i := LastIndexOf(s, c);
    assert s[|x|] == c;
    forall j | |x| < j < |s|
      ensures s[j] != c
    {
      assert s[j] == v[j - |x| - 1];
    }
    assert |x| <= i;
  }
}
