/** String helpers shared by the translators, the rename model and the e-node printer. */
module Strings {

  /** `sep.join(parts)` in Python, `parts.join(sep)` in JavaScript. */
  function Join(parts: seq<string>, sep: string): (r: string)
    ensures parts == [] ==> r == ""
    ensures |parts| == 1 ==> r == parts[0]
  {
    if |parts| == 0 then ""
    else if |parts| == 1 then parts[0]
    else parts[0] + sep + Join(parts[1..], sep)
  }

  /** Appending one more part adds the separator and the part at the end. */
  lemma {:induction false} JoinSnoc(parts: seq<string>, last: string, sep: string)
    requires parts != []
    ensures Join(parts + [last], sep) == Join(parts, sep) + sep + last
  {
    if |parts| == 1 {
      assert parts + [last] == [parts[0], last];
    } else {
      assert (parts + [last])[1..] == parts[1..] + [last];
      JoinSnoc(parts[1..], last, sep);
    }
  }

  /** Every character of a join comes from a part or from a separator. */
  lemma {:induction false} JoinChars(parts: seq<string>, sep: string, ch: char)
    requires forall i | 0 <= i < |parts| :: ch !in parts[i]
    requires ch !in sep
    ensures ch !in Join(parts, sep)
  {
    if |parts| > 1 {
      JoinChars(parts[1..], sep, ch);
    }
  }

  /** `sub in s` for Python strings, `s.includes(sub)` in JavaScript. */
  predicate Contains(s: string, sub: string) {
    exists i | 0 <= i <= |s| :: OccursAt(s, sub, i)
  }

  /** `sub` occurs in `s` starting at index `i`. */
  predicate OccursAt(s: string, sub: string, i: int) {
    0 <= i <= |s| - |sub| && s[i..i + |sub|] == sub
  }

  /** A substring of a part is a substring of any concatenation containing that part. */
  lemma ContainsConcat(a: string, b: string, sub: string)
    ensures Contains(a, sub) ==> Contains(a + b, sub)
    ensures Contains(b, sub) ==> Contains(a + b, sub)
  {
    if Contains(a, sub) {
      var i :| 0 <= i <= |a| && OccursAt(a, sub, i);
      assert (a + b)[i..i + |sub|] == sub;
      assert OccursAt(a + b, sub, i);
    }
    if Contains(b, sub) {
      var i :| 0 <= i <= |b| && OccursAt(b, sub, i);
      var j := |a| + i;
      assert (a + b)[j..j + |sub|] == b[i..i + |sub|];
      assert OccursAt(a + b, sub, j);
    }
  }

  /** Decimal digits of a natural number, most significant first (`str(n)` for n >= 0). */
  function NatToString(n: nat): (r: string)
    ensures |r| >= 1
    ensures forall i | 0 <= i < |r| :: '0' <= r[i] <= '9'
    decreases n
  {
    if n < 10 then [Digit(n)] else NatToString(n / 10) + [Digit(n % 10)]
  }

  function Digit(d: nat): (c: char)
    requires d < 10
    ensures '0' <= c <= '9'
  {
    "0123456789"[d]
  }

  /** `str(i)` for a Python int. */
  function IntToString(i: int): (r: string)
    ensures i >= 0 ==> r == NatToString(i)
    ensures i < 0 ==> r == "-" + NatToString(-i)
  {
    if i >= 0 then NatToString(i) else "-" + NatToString(-i)
  }
}
