/**
 * String operations the Go code takes from its standard library: the order of
 * `sort.Strings`, `strings.Join`, `strings.Split`, `strings.Replace` with n = -1,
 * and `%d` formatting. Strings are sequences of Unicode scalar values; comparing
 * them character by character orders them as Go orders their UTF-8 bytes.
 */
module Text {

  /** Go's `<` on strings: lexicographic by character code, a proper prefix first. */
  predicate Less(a: string, b: string)
    decreases |a|
  {
    if |a| == 0 then |b| > 0
    else if |b| == 0 then false
    else if a[0] != b[0] then a[0] < b[0]
    else Less(a[1..], b[1..])
  }

  lemma LessIrreflexive(a: string)
    ensures !Less(a, a)
  {
  }

  lemma LessTransitive(a: string, b: string, c: string)
    requires Less(a, b) && Less(b, c)
    ensures Less(a, c)
    decreases |a|
  {
    if |a| > 0 && |b| > 0 && |c| > 0 && a[0] == b[0] && b[0] == c[0] {
      LessTransitive(a[1..], b[1..], c[1..]);
    }
  }

  lemma LessTotal(a: string, b: string)
    ensures a == b || Less(a, b) || Less(b, a)
    decreases |a|
  {
    if |a| > 0 && |b| > 0 && a[0] == b[0] {
      LessTotal(a[1..], b[1..]);
      if a[1..] == b[1..] {
        assert a == [a[0]] + a[1..] && b == [b[0]] + b[1..];
      }
    }
  }

  lemma LessAsymmetric(a: string, b: string)
    requires Less(a, b)
    ensures !Less(b, a)
  {
    if Less(b, a) {
      LessTransitive(a, b, a);
      LessIrreflexive(a);
    }
  }

  /** `a <= b` and `b <= c` give `a <= c`, written with `!Less`. */
  lemma NotLessTransitive(a: string, b: string, c: string)
    requires !Less(b, a) && !Less(c, b)
    ensures !Less(c, a)
  {
    LessTotal(a, b);
    LessTotal(b, c);
    if a != b && b != c {
      LessTransitive(a, b, c);
      LessAsymmetric(a, c);
    }
  }

  function Elems<T>(s: seq<T>): set<T>
  {
    set x | x in s
  }

  ghost predicate Distinct<T>(s: seq<T>)
  {
    forall i, j :: 0 <= i < j < |s| ==> s[i] != s[j]
  }

  ghost predicate Sorted(s: seq<string>)
  {
    forall i, j :: 0 <= i < j < |s| ==> !Less(s[j], s[i])
  }

  ghost predicate StrictlySorted(s: seq<string>)
  {
    forall i, j :: 0 <= i < j < |s| ==> Less(s[i], s[j])
  }

  /** One step of an insertion sort: `x` goes before the first element not less than it. */
  function InsertSorted(s: seq<string>, x: string): (r: seq<string>)
    requires Sorted(s)
    ensures Sorted(r)
    ensures multiset(r) == multiset(s) + multiset{x}
    decreases |s|
  {
    if s == [] || !Less(s[0], x) then
      NotBelowFirst(s, x);
      SortedCons(x, s);
      [x] + s
    else
      var t := InsertSorted(s[1..], x);
      NotBelowHead(s, t, x);
      SortedCons(s[0], t);
      assert s == [s[0]] + s[1..];
      [s[0]] + t
  }

  /** Prepending an element no later element is less than keeps a sequence sorted. */
  lemma SortedCons(m: string, t: seq<string>)
    requires Sorted(t) && forall j :: 0 <= j < |t| ==> !Less(t[j], m)
    ensures Sorted([m] + t)
  {
    forall i, j | 0 <= i < j < |[m] + t| ensures !Less(([m] + t)[j], ([m] + t)[i]) {
      if i > 0 {
        assert ([m] + t)[i] == t[i - 1];
      }
      assert ([m] + t)[j] == t[j - 1];
    }
  }

  /** Nothing in a sorted sequence is less than `x` when its first element is not. */
  lemma NotBelowFirst(s: seq<string>, x: string)
    requires Sorted(s) && (s == [] || !Less(s[0], x))
    ensures forall j :: 0 <= j < |s| ==> !Less(s[j], x)
  {
    forall j | 0 <= j < |s| ensures !Less(s[j], x) {
      if 0 < j { NotLessTransitive(x, s[0], s[j]); }
    }
  }

  /** Nothing in the rest of a sorted sequence, nor an `x` above its head, is less than its head. */
  lemma NotBelowHead(s: seq<string>, t: seq<string>, x: string)
    requires Sorted(s) && s != [] && Less(s[0], x)
    requires multiset(t) == multiset(s[1..]) + multiset{x}
    ensures forall j :: 0 <= j < |t| ==> !Less(t[j], s[0])
  {
    forall j | 0 <= j < |t| ensures !Less(t[j], s[0]) {
      assert t[j] in multiset(t);
      if t[j] == x {
        LessAsymmetric(s[0], x);
      } else {
        assert t[j] in multiset(s[1..]);
        var k :| 0 <= k < |s[1..]| && s[1..][k] == t[j];
        assert s[k + 1] == t[j];
      }
    }
  }

  /** A sorted sequence without repetitions is strictly sorted. */
  lemma SortedDistinctIsStrict(s: seq<string>)
    requires Sorted(s) && Distinct(s)
    ensures StrictlySorted(s)
  {
    forall i, j | 0 <= i < j < |s| ensures Less(s[i], s[j]) {
      LessTotal(s[i], s[j]);
    }
  }

  lemma {:induction false} DistinctCount<T>(s: seq<T>, x: T)
    requires Distinct(s)
    ensures multiset(s)[x] <= 1
  {
    if s != [] {
      assert s == [s[0]] + s[1..];
      assert Distinct(s[1..]) by {
        forall i, j | 0 <= i < j < |s[1..]| ensures s[1..][i] != s[1..][j] {
          assert s[1..][i] == s[i + 1] && s[1..][j] == s[j + 1];
        }
      }
      DistinctCount(s[1..], x);
      if s[0] == x {
        assert x !in s[1..] by {
          forall k | 0 <= k < |s[1..]| ensures s[1..][k] != x {
            assert s[1..][k] == s[k + 1];
          }
        }
      }
    }
  }

  /** A permutation of a sequence without repetitions has none either. */
  lemma PermutationKeepsDistinct<T>(a: seq<T>, b: seq<T>)
    requires multiset(a) == multiset(b) && Distinct(a)
    ensures Distinct(b)
  {
    forall i, j | 0 <= i < j < |b| ensures b[i] != b[j] {
      if b[i] == b[j] {
        assert b == b[..j] + b[j..];
        assert b[i] in b[..j];
        assert b[j] in b[j..];
        assert multiset(b)[b[i]] == multiset(b[..j])[b[i]] + multiset(b[j..])[b[i]];
        DistinctCount(a, b[i]);
      }
    }
  }

  ghost predicate IsLeast(m: string, s: set<string>)
  {
    m in s && forall y :: y in s ==> y == m || Less(m, y)
  }

  lemma LeastExists(s: set<string>)
    requires s != {}
    ensures exists m :: IsLeast(m, s)
    decreases |s|
  {
    var x :| x in s;
    if s == {x} {
      assert IsLeast(x, s);
    } else {
      LeastExists(s - {x});
      var m :| IsLeast(m, s - {x});
      LessTotal(x, m);
      if Less(x, m) {
        forall y | y in s ensures y == x || Less(x, y) {
          if y != x && y != m {
            LessTransitive(x, m, y);
          }
        }
        assert IsLeast(x, s);
      } else {
        assert IsLeast(m, s);
      }
    }
  }

  /** The strictly ascending listing of a finite set of strings. */
  ghost function SortedSet(s: set<string>): (r: seq<string>)
    ensures StrictlySorted(r) && Elems(r) == s
    decreases |s|
  {
    if s == {} then []
    else
      LeastExists(s);
      var m :| IsLeast(m, s);
      var t := SortedSet(s - {m});
      LeastBelowRest(m, s, t);
      StrictlySortedCons(m, t);
      [m] + t
  }

  /** The least element of a set is less than every element of a listing of the rest, and completes it. */
  lemma LeastBelowRest(m: string, s: set<string>, t: seq<string>)
    requires IsLeast(m, s) && Elems(t) == s - {m}
    ensures forall j :: 0 <= j < |t| ==> Less(m, t[j])
    ensures Elems([m] + t) == s
  {
    forall j | 0 <= j < |t| ensures Less(m, t[j]) {
      assert t[j] in Elems(t);
    }
    assert Elems([m] + t) == {m} + Elems(t);
  }

  lemma StrictlySortedCons(m: string, t: seq<string>)
    requires StrictlySorted(t) && forall j :: 0 <= j < |t| ==> Less(m, t[j])
    ensures StrictlySorted([m] + t)
  {
    forall i, j | 0 <= i < j < |[m] + t| ensures Less(([m] + t)[i], ([m] + t)[j]) {
      if i > 0 {
        assert ([m] + t)[i] == t[i - 1];
      }
      assert ([m] + t)[j] == t[j - 1];
    }
  }

  lemma ElemsEmpty<T>(s: seq<T>)
    ensures Elems(s) == {} <==> s == []
  {
    if s != [] {
      assert s[0] in Elems(s);
    }
  }

  /** At most one strictly ascending sequence lists a given set. */
  lemma {:induction false} StrictlySortedUnique(a: seq<string>, b: seq<string>)
    requires StrictlySorted(a) && StrictlySorted(b) && Elems(a) == Elems(b)
    ensures a == b
    decreases |a|
  {
    ElemsEmpty(a);
    ElemsEmpty(b);
    if a != [] {
      assert a[0] in Elems(a);
      assert b != [];
      assert b[0] in Elems(b);
      if a[0] != b[0] {
        var k :| 0 <= k < |a| && a[k] == b[0];
        var l :| 0 <= l < |b| && b[l] == a[0];
        assert Less(a[0], b[0]);
        assert Less(b[0], a[0]);
        LessAsymmetric(a[0], b[0]);
      }
      forall i | 0 <= i < |a| - 1 ensures a[1..][i] != a[0] {
        assert Less(a[0], a[i + 1]);
        LessIrreflexive(a[0]);
      }
      forall i | 0 <= i < |b| - 1 ensures b[1..][i] != b[0] {
        assert Less(b[0], b[i + 1]);
        LessIrreflexive(b[0]);
      }
      assert Elems(a[1..]) == Elems(a) - {a[0]} by {
        assert a == [a[0]] + a[1..];
      }
      assert Elems(b[1..]) == Elems(b) - {b[0]} by {
        assert b == [b[0]] + b[1..];
      }
      StrictlySortedUnique(a[1..], b[1..]);
      assert a == [a[0]] + a[1..] && b == [b[0]] + b[1..];
    }
  }

  /** Go's strings.Join. */
  function Join(parts: seq<string>, sep: string): string
    decreases |parts|
  {
    if parts == [] then ""
    else if |parts| == 1 then parts[0]
    else parts[0] + sep + Join(parts[1..], sep)
  }

  /** Go's strings.Split with a one-character separator: n separators give n + 1 pieces. */
  function Split(s: string, sep: char): (pieces: seq<string>)
    ensures |pieces| >= 1
    decreases |s|
  {
    if s == [] then [""]
    else if s[0] == sep then [""] + Split(s[1..], sep)
    else
      var rest := Split(s[1..], sep);
      [[s[0]] + rest[0]] + rest[1..]
  }

  lemma {:induction false} SplitWithoutSeparator(s: string, sep: char)
    requires sep !in s
    ensures Split(s, sep) == [s]
    decreases |s|
  {
    if s != [] {
      SplitWithoutSeparator(s[1..], sep);
      assert s == [s[0]] + s[1..];
    }
  }

  /** The first piece is everything before the first separator. */
  lemma {:induction false} SplitAtFirst(a: string, sep: char, rest: string)
    requires sep !in a
    ensures Split(a + [sep] + rest, sep) == [a] + Split(rest, sep)
    decreases |a|
  {
    if a == [] {
      assert a + [sep] + rest == [sep] + rest;
    } else {
      SplitAtFirst(a[1..], sep, rest);
      assert (a + [sep] + rest)[1..] == a[1..] + [sep] + rest;
      assert a == [a[0]] + a[1..];
    }
  }

  /** There is a second piece exactly when the separator occurs. */
  lemma {:induction false} SplitHasSecond(s: string, sep: char)
    ensures |Split(s, sep)| >= 2 <==> sep in s
    decreases |s|
  {
    if s != [] {
      SplitHasSecond(s[1..], sep);
      assert sep in s <==> s[0] == sep || sep in s[1..];
    }
  }

  /** Joining the pieces with the separator gives back the string. */
  lemma {:induction false} JoinSplit(s: string, sep: char)
    ensures Join(Split(s, sep), [sep]) == s
    decreases |s|
  {
    if s != [] {
      JoinSplit(s[1..], sep);
      var rest := Split(s[1..], sep);
      if s[0] == sep {
        assert Split(s, sep) == [""] + rest;
        assert ([""] + rest)[1..] == rest;
      } else {
        var pieces := [[s[0]] + rest[0]] + rest[1..];
        assert pieces[1..] == rest[1..];
        if |rest| > 1 {
          assert Join(rest, [sep]) == rest[0] + [sep] + Join(rest[1..], [sep]);
        }
      }
      assert s == [s[0]] + s[1..];
    }
  }

  predicate StartsWith(s: string, t: string)
  {
    |t| <= |s| && s[..|t|] == t
  }

  ghost predicate Contains(s: string, t: string)
  {
    exists i :: 0 <= i <= |s| && StartsWith(s[i..], t)
  }

  /** Go's strings.Replace(s, target, replacement, -1): every occurrence, left to right. */
  function ReplaceAll(s: string, target: string, replacement: string): string
    requires target != []
    decreases |s|
  {
    if |s| < |target| then s
    else if StartsWith(s, target) then replacement + ReplaceAll(s[|target|..], target, replacement)
    else [s[0]] + ReplaceAll(s[1..], target, replacement)
  }

  /** A text without the target is passed through unchanged. */
  lemma {:induction false} ReplaceAllAbsent(s: string, target: string, replacement: string)
    requires target != [] && !Contains(s, target)
    ensures ReplaceAll(s, target, replacement) == s
    decreases |s|
  {
    if |s| >= |target| {
      assert s[0..] == s;
      assert !Contains(s[1..], target) by {
        forall i | 0 <= i <= |s[1..]| ensures !StartsWith(s[1..][i..], target) {
          assert s[1..][i..] == s[i + 1..];
        }
      }
      ReplaceAllAbsent(s[1..], target, replacement);
      assert s == [s[0]] + s[1..];
    }
  }

  /** An occurrence at the front is replaced. */
  lemma ReplaceAllAtFront(target: string, rest: string, replacement: string)
    requires target != []
    ensures ReplaceAll(target + rest, target, replacement) == replacement + ReplaceAll(rest, target, replacement)
  {
    assert (target + rest)[..|target|] == target;
    assert (target + rest)[|target|..] == rest;
  }

  /** Text free of the target's first character is copied as it is. */
  lemma {:induction false} ReplaceAllCopies(a: string, rest: string, target: string, replacement: string)
    requires target != [] && target[0] !in a
    ensures ReplaceAll(a + rest, target, replacement) == a + ReplaceAll(rest, target, replacement)
    decreases |a|
  {
    if a == [] {
      assert a + rest == rest;
    } else {
      assert a == [a[0]] + a[1..];
      var s := a + rest;
      assert s[0] == a[0];
      if |s| >= |target| {
        assert !StartsWith(s, target) by {
          assert s[..|target|][0] == s[0];
        }
        assert s[1..] == a[1..] + rest;
        assert ReplaceAll(s, target, replacement) == [a[0]] + ReplaceAll(a[1..] + rest, target, replacement);
        ReplaceAllCopies(a[1..], rest, target, replacement);
        assert [a[0]] + (a[1..] + ReplaceAll(rest, target, replacement)) == ([a[0]] + a[1..]) + ReplaceAll(rest, target, replacement);
      } else {
        assert |s| < |target|;
        assert ReplaceAll(rest, target, replacement) == rest;
      }
    }
  }

  predicate IsDigit(c: char)
  {
    '0' <= c <= '9'
  }

  /** `%d` of a natural number. */
  function Digits(n: nat): (r: string)
    ensures |r| >= 1 && forall k :: 0 <= k < |r| ==> IsDigit(r[k])
    decreases n
  {
    if n < 10 then ["0123456789"[n]]
    else Digits(n / 10) + ["0123456789"[n % 10]]
  }

  /** `%d` of an integer: a minus sign before negative numbers. */
  function Decimal(n: int): string
  {
    if n < 0 then "-" + Digits(-n) else Digits(n)
  }

  /** The number a string of digits denotes, read most significant digit first. */
  function DigitsValue(s: string): nat
    decreases |s|
  {
    if s == [] then 0
    else
      var d := s[|s| - 1] as int - '0' as int;
      DigitsValue(s[..|s| - 1]) * 10 + (if 0 <= d then d else 0)
  }

  /** The number a `%d` rendering denotes. */
  function DecimalValue(s: string): int
  {
    if s != [] && s[0] == '-' then -(DigitsValue(s[1..]) as int) else DigitsValue(s)
  }

  /** Reading the digits of `n` gives back `n`. */
  lemma {:induction false} DigitsRoundTrip(n: nat)
    ensures DigitsValue(Digits(n)) == n
    decreases n
  {
    var r := Digits(n);
    DigitValue(n % 10);
    if n >= 10 {
      DigitsRoundTrip(n / 10);
      assert r[..|r| - 1] == Digits(n / 10);
      assert r[|r| - 1] == "0123456789"[n % 10];
      assert DigitsValue(r) == DigitsValue(Digits(n / 10)) * 10 + n % 10;
    } else {
      assert r[..0] == [];
    }
  }

  /** The digit character for `d` stands for `d`. */
  lemma DigitValue(d: nat)
    requires d < 10
    ensures "0123456789"[d] as int - '0' as int == d
  {
  }

  /** Reading `%d` of `n` gives back `n`. */
  lemma DecimalRoundTrip(n: int)
    ensures DecimalValue(Decimal(n)) == n
  {
    if n < 0 {
      var d := Digits(-n);
      DigitsRoundTrip(-n);
      assert Decimal(n) == "-" + d;
      assert ("-" + d)[1..] == d;
      assert DecimalValue("-" + d) == -(DigitsValue(d) as int);
    } else {
      var d := Digits(n);
      DigitsRoundTrip(n);
      assert Decimal(n) == d;
      assert IsDigit(d[0]);
      assert DecimalValue(d) == DigitsValue(d);
    }
  }
}
