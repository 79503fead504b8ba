/**
 * String helpers that the tracker relies on: Python's `str.partition`,
 * the `between` helper built from it, decimal rendering of numbers
 * (`{}` and `{:02d}` formats), Python's code-point string ordering and
 * `list.index`.
 */
module Text {
  import opened Wrappers

  predicate StartsWith(s: string, prefix: string) {
    |prefix| <= |s| && s[..|prefix|] == prefix
  }

  /** `sep` occurs in `s` starting at index `i`. */
  predicate OccursAt(s: string, sep: string, i: int) {
    0 <= i && i + |sep| <= |s| && s[i..i + |sep|] == sep
  }

  /** First occurrence of `sep` in `s` at or after `from`. */
  function FindFrom(s: string, sep: string, from: nat): (r: Option<nat>)
    requires from <= |s|
    ensures r.Some? ==> from <= r.value && OccursAt(s, sep, r.value)
    ensures forall j :: from <= j && (r.None? || j < r.value) ==> !OccursAt(s, sep, j)
    decreases |s| - from
  {
    if from + |sep| > |s| then None
    else if s[from..from + |sep|] == sep then Some(from)
    else FindFrom(s, sep, from + 1)
  }

  function Find(s: string, sep: string): (r: Option<nat>)
    ensures r.Some? ==> OccursAt(s, sep, r.value)
    ensures forall j :: (r.None? || j < r.value) ==> !OccursAt(s, sep, j)
  {
    FindFrom(s, sep, 0)
  }

  /**
   * Python's `s.partition(sep)`: the text before the first occurrence of
   * `sep`, the separator itself and the text after it; `(s, "", "")` when
   * `sep` does not occur. Python raises ValueError for an empty separator.
   */
  function Partition(s: string, sep: string): (r: (string, string, string))
    requires sep != []
    ensures r.0 + r.1 + r.2 == s
    ensures r.1 == sep || (r.1 == [] && r.0 == s && r.2 == [])
    ensures r.1 == sep <==> exists i :: OccursAt(s, sep, i)
    ensures forall j :: 0 <= j && j + |sep| <= |r.0| ==> !OccursAt(r.0, sep, j)
    ensures r.1 == sep ==> Find(s, sep) == Some(|r.0|)
  {
    match Find(s, sep)
    case None => (s, [], [])
    case Some(i) =>
      assert s[..i] + sep + s[i + |sep|..] == s by {
        assert s == s[..i] + s[i..i + |sep|] + s[i + |sep|..];
      }
      forall j | 0 <= j && j + |sep| <= i ensures !OccursAt(s[..i], sep, j) {
        assert s[..i][j..j + |sep|] == s[j..j + |sep|];
        assert j < i && !OccursAt(s, sep, j);
      }
      (s[..i], sep, s[i + |sep|..])
  }

  /** `between(before, s, after)`: the text after the first `before` and up to the next `after`. */
  function Between(before: string, s: string, after: string): (r: string)
    requires before != [] && after != []
  {
    Partition(Partition(s, before).2, after).0
  }

  /**
   * When `before` occurs, `between` yields the text that follows its first
   * occurrence up to (not including) the first `after` after it, and that text
   * holds no `after`; when `before` does not occur it yields the empty string.
   */
  lemma BetweenSpec(before: string, s: string, after: string)
    requires before != [] && after != []
    ensures Find(s, before).None? ==> Between(before, s, after) == []
    ensures Find(s, before).Some? ==>
      var tail := s[Find(s, before).value + |before|..];
      var r := Between(before, s, after);
      && StartsWith(tail, r)
      && (Find(tail, after).Some? ==> |r| == Find(tail, after).value)
      && (Find(tail, after).None? ==> r == tail)
      && forall j :: 0 <= j && j + |after| <= |r| ==> !OccursAt(r, after, j)
  {
    match Find(s, before)
    case None =>
    case Some(i) =>
      var tail := s[i + |before|..];
      assert Partition(s, before).2 == tail;
      var r := Between(before, s, after);
      assert tail == r + Partition(tail, after).1 + Partition(tail, after).2;
      assert tail[..|r|] == r;
  }

  function DigitChar(d: nat): (c: char)
    requires d < 10
    ensures '0' <= c <= '9'
  {
    "0123456789"[d]
  }

  function DigitValue(c: char): (d: nat)
    requires '0' <= c <= '9'
    ensures d < 10 && DigitChar(d) == c
  {
    (c as int - '0' as int)
  }

  predicate IsDigits(s: string) {
    forall k :: 0 <= k < |s| ==> '0' <= s[k] <= '9'
  }

  /** Python's `"{}".format(n)` for a non-negative integer. */
  function NatToString(n: nat): (s: string)
    ensures s != [] && IsDigits(s)
    ensures |s| > 1 ==> s[0] != '0'
    decreases n
  {
    if n < 10 then [DigitChar(n)] else NatToString(n / 10) + [DigitChar(n % 10)]
  }

  /** The value of a string of decimal digits (leading zeros allowed). */
  function ParseDigits(s: string): (n: nat)
    requires IsDigits(s)
    decreases |s|
  {
    if s == [] then 0 else 10 * ParseDigits(s[..|s| - 1]) + DigitValue(s[|s| - 1])
  }

  /** Python's `int(s)` restricted to plain ASCII digit strings. */
  function ParseNat(s: string): (r: Option<nat>)
    ensures r.Some? <==> s != [] && IsDigits(s)
  {
    if s != [] && IsDigits(s) then Some(ParseDigits(s)) else None
  }

  lemma {:induction false} DigitValueOf(d: nat)
    requires d < 10
    ensures DigitValue(DigitChar(d)) == d
  {
    var c := DigitChar(d);
    assert c as int - '0' as int == d by {
      assert "0123456789"[d] as int == '0' as int + d by {
        if d == 0 {} else if d == 1 {} else if d == 2 {} else if d == 3 {} else if d == 4 {}
        else if d == 5 {} else if d == 6 {} else if d == 7 {} else if d == 8 {} else {}
      }
    }
  }

  /** Reading a rendered number back gives the number. */
  lemma {:induction false} ParseNatToString(n: nat)
    ensures ParseNat(NatToString(n)) == Some(n)
    decreases n
  {
    var s := NatToString(n);
    if n < 10 {
      DigitValueOf(n);
      assert s[..0] == [];
      assert ParseDigits(s) == 10 * ParseDigits([]) + DigitValue(DigitChar(n));
    } else {
      ParseNatToString(n / 10);
      DigitValueOf(n % 10);
      assert s[..|s| - 1] == NatToString(n / 10);
    }
  }

  lemma {:induction false} ParseDigitsZeroPrefix(s: string)
    requires IsDigits(s)
    ensures IsDigits("0" + s) && ParseDigits("0" + s) == ParseDigits(s)
    decreases |s|
  {
    var z := "0" + s;
    if s == [] {
      assert z[..0] == [];
      DigitValueOf(0);
    } else {
      assert z[..|z| - 1] == "0" + s[..|s| - 1];
      ParseDigitsZeroPrefix(s[..|s| - 1]);
    }
  }

  /** Python's `"{:02d}".format(n)` for a non-negative integer. */
  function Pad2(n: nat): (s: string)
    ensures |s| >= 2 && IsDigits(s)
  {
    if n < 10 then "0" + NatToString(n) else NatToString(n)
  }

  /** The zero-padded rendering still reads back as the number. */
  lemma Pad2Reads(n: nat)
    ensures ParseNat(Pad2(n)) == Some(n)
  {
    ParseNatToString(n);
    if n < 10 {
      ParseDigitsZeroPrefix(NatToString(n));
    }
  }

  /** Python's `a <= b` on strings: lexicographic order on code points. */
  predicate LessEq(a: string, b: string)
    decreases |a|
  {
    a == [] || (b != [] && (a[0] < b[0] || (a[0] == b[0] && LessEq(a[1..], b[1..]))))
  }

  lemma {:induction false} LessEqTotal(a: string, b: string)
    ensures LessEq(a, b) || LessEq(b, a)
    decreases |a|
  {
    if a != [] && b != [] && a[0] == b[0] {
      LessEqTotal(a[1..], b[1..]);
    }
  }

  /** Every string is in order with itself. */
  lemma {:induction false} LessEqRefl(a: string)
    ensures LessEq(a, a)
    decreases |a|
  {
    if a != [] {
      LessEqRefl(a[1..]);
    }
  }

  /** The name order is transitive. */
  lemma {:induction false} LessEqTrans(a: string, b: string, c: string)
    requires LessEq(a, b) && LessEq(b, c)
    ensures LessEq(a, c)
    decreases |a|
  {
    if a != [] && a[0] == b[0] && b[0] == c[0] {
      LessEqTrans(a[1..], b[1..], c[1..]);
    }
  }

  /** Python's `list.index(x)`: the first position of `x`, or ValueError (None here). */
  function IndexOf<T(==)>(s: seq<T>, x: T): (r: Option<nat>)
    ensures r.Some? ==> r.value < |s| && s[r.value] == x
    ensures forall k :: 0 <= k < |s| && (r.None? || k < r.value) ==> s[k] != x
  {
    if s == [] then None
    else if s[0] == x then Some(0)
    else match IndexOf(s[1..], x)
      case None => None
      case Some(k) => Some(k + 1)
  }

  /** `s` holds no occurrence of `sep`. */
  predicate Free(s: string, sep: string) {
    forall j :: 0 <= j && j + |sep| <= |s| ==> !OccursAt(s, sep, j)
  }

  /** `s.split(sep)`: the pieces between the occurrences of `sep`, left to right. */
  function Split(s: string, sep: string): (r: seq<string>)
    requires sep != []
    ensures |r| >= 1
    ensures forall k :: 0 <= k < |r| ==> Free(r[k], sep)
    ensures Find(s, sep).None? ==> r == [s]
    ensures Find(s, sep).Some? ==>
      var i := Find(s, sep).value;
      r[0] == s[..i] && r[1..] == Split(s[i + |sep|..], sep)
    decreases |s|
  {
    var (head, found, tail) := Partition(s, sep);
    if found == [] then [s] else [head] + Split(tail, sep)
  }

  /** `sep.join(pieces)`. */
  function Join(pieces: seq<string>, sep: string): string {
    if pieces == [] then []
    else if |pieces| == 1 then pieces[0]
    else pieces[0] + sep + Join(pieces[1..], sep)
  }

  /** Joining the pieces of a split with the same separator gives back the text. */
  lemma {:induction false} JoinSplit(s: string, sep: string)
    requires sep != []
    ensures Join(Split(s, sep), sep) == s
    decreases |s|
  {
    var (head, found, tail) := Partition(s, sep);
    if found != [] {
      JoinSplit(tail, sep);
      assert Split(s, sep) == [head] + Split(tail, sep);
      assert (|Split(tail, sep)| >= 1);
      assert Split(s, sep)[1..] == Split(tail, sep);
    }
  }
}
