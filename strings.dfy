/**
 * The JavaScript string operations the worker relies on, over `seq<char>`:
 * `startsWith`, `includes`, `split` with a non-empty separator, `Array.join`,
 * and the decimal rendering of a non-negative integer in a template literal.
 */
module Strings {

  /** `s.startsWith(p)`: `s` is `p` followed by the rest of `s`. */
  predicate StartsWith(s: string, p: string)
    ensures StartsWith(s, p) ==> |p| <= |s| && s == p + s[|p|..] && OccursAt(s, p, 0)
  {
    assert |p| <= |s| ==> s == s[..|p|] + s[|p|..];
    |p| <= |s| && s[..|p|] == p
  }

  /** `s.endsWith(p)`. */
  predicate EndsWith(s: string, p: string) {
    |p| <= |s| && s[|s| - |p|..] == p
  }

  /** `t` occurs in `s` starting at index `i`. */
  predicate OccursAt(s: string, t: string, i: int) {
    0 <= i && i + |t| <= |s| && s[i..i + |t|] == t
  }

  /** `s.includes(t)`; as in JavaScript, every string includes the empty string. */
  predicate Contains(s: string, t: string)
    ensures Contains(s, t) ==> |t| <= |s|
    ensures t == "" ==> Contains(s, t)
  {
    assert t == "" ==> OccursAt(s, t, 0);
    exists i | 0 <= i <= |s| - |t| :: OccursAt(s, t, i)
  }

  /**
   * `s.split(sep)` for a non-empty string separator: scans left to right and
   * cuts at every non-overlapping occurrence of `sep`; the empty string
   * splits into one empty piece.
   */
  function Split(s: string, sep: string): (parts: seq<string>)
    requires sep != ""
    ensures |parts| >= 1
    decreases |s|
  {
    if |s| < |sep| then [s]
    else if s[..|sep|] == sep then [""] + Split(s[|sep|..], sep)
    else
      var rest := Split(s[1..], sep);
      [[s[0]] + rest[0]] + rest[1..]
  }

  /** `parts.join(sep)`; the empty array joins to the empty string. Every piece occurs in the result. */
  function Join(parts: seq<string>, sep: string): (r: string)
    ensures forall k :: 0 <= k < |parts| ==> Contains(r, parts[k])
    decreases |parts|
  {
    if |parts| == 0 then ""
    else if |parts| == 1 then
      assert OccursAt(parts[0], parts[0], 0);
      parts[0]
    else
      var rest := Join(parts[1..], sep);
      PiecesOccurInJoin(parts, sep, rest);
      parts[0] + sep + rest
  }

  lemma PiecesOccurInJoin(parts: seq<string>, sep: string, rest: string)
    requires |parts| >= 2
    requires forall k :: 0 <= k < |parts[1..]| ==> Contains(rest, parts[1..][k])
    ensures forall k :: 0 <= k < |parts| ==> Contains(parts[0] + sep + rest, parts[k])
  {
    OccursAtJoined("", parts[0], sep + rest);
    assert "" + parts[0] + (sep + rest) == parts[0] + sep + rest;
    forall k | 1 <= k < |parts| ensures Contains(parts[0] + sep + rest, parts[k]) {
      assert parts[k] == parts[1..][k - 1];
      ContainsExtended(parts[0] + sep, rest, parts[k]);
    }
  }

  // ---------------------------------------------------------------------------
  // Occurrences

  lemma OccursAtJoined(x: string, t: string, y: string)
    ensures OccursAt(x + t + y, t, |x|) && Contains(x + t + y, t)
  {
    assert (x + t + y)[|x|..|x| + |t|] == t;
    assert OccursAt(x + t + y, t, |x|);
  }

  /** An occurrence splits its string into what comes before, the occurrence, and what follows. */
  lemma OccurrenceSplits(s: string, t: string, i: int)
    requires OccursAt(s, t, i)
    ensures s == s[..i] + t + s[i + |t|..]
  {
    assert s == s[..i] + s[i..i + |t|] + s[i + |t|..];
  }

  lemma ContainsTail(s: string, t: string)
    requires |s| >= 1 && Contains(s[1..], t)
    ensures Contains(s, t)
  {
    var i :| 0 <= i <= |s[1..]| - |t| && OccursAt(s[1..], t, i);
    assert s[1..][i..i + |t|] == s[i + 1..i + 1 + |t|];
    assert OccursAt(s, t, i + 1);
  }

  /** Occurrences in a suffix `s[m..]` are the occurrences in `s` shifted by `m`. */
  lemma OccursShift(s: string, t: string, m: nat, j: nat)
    requires m <= |s|
    ensures OccursAt(s[m..], t, j) <==> OccursAt(s, t, m + j)
  {
    if j + |t| <= |s| - m {
      assert s[m..][j..j + |t|] == s[m + j..m + j + |t|];
    }
  }

  /** What occurs in an occurrence of `p` occurs in `s`. */
  lemma ContainsTransitive(s: string, p: string, t: string)
    requires Contains(s, p) && Contains(p, t)
    ensures Contains(s, t)
  {
    var i :| 0 <= i <= |s| - |p| && OccursAt(s, p, i);
    var j :| 0 <= j <= |p| - |t| && OccursAt(p, t, j);
    forall k | 0 <= k < |t| ensures s[i + j + k] == t[k] {
      assert s[i..i + |p|][j + k] == s[i + j + k];
      assert p[j..j + |t|][k] == p[j + k];
    }
    assert s[i + j..i + j + |t|] == t;
    assert OccursAt(s, t, i + j);
  }

  /** An occurrence stays an occurrence when text is put in front. */
  lemma ContainsExtended(x: string, s: string, t: string)
    requires Contains(s, t)
    ensures Contains(x + s, t)
  {
    var i :| 0 <= i <= |s| - |t| && OccursAt(s, t, i);
    assert (x + s)[|x| + i..|x| + i + |t|] == s[i..i + |t|];
    assert OccursAt(x + s, t, |x| + i);
  }

  /** A string that lacks the first character of `t` cannot contain `t`. */
  lemma NotContainsWithoutFirst(s: string, t: string)
    requires t != [] && t[0] !in s
    ensures !Contains(s, t)
  {
  }

  // ---------------------------------------------------------------------------
  // Split and Join

  /** Joining the pieces with the separator gives back the original string. */
  lemma {:induction false} JoinSplit(s: string, sep: string)
    requires sep != ""
    ensures Join(Split(s, sep), sep) == s
    decreases |s|
  {
    if |s| < |sep| {
    } else if s[..|sep|] == sep {
      var rest := Split(s[|sep|..], sep);
      JoinSplit(s[|sep|..], sep);
      assert ([""] + rest)[1..] == rest;
      assert s == sep + s[|sep|..];
    } else {
      var rest := Split(s[1..], sep);
      JoinSplit(s[1..], sep);
      JoinExtendFirst(rest, [s[0]], sep);
      assert s == [s[0]] + s[1..];
    }
  }

  /** Prepending `c` to the first piece prepends it to the joined string. */
  lemma JoinExtendFirst(parts: seq<string>, c: string, sep: string)
    requires |parts| >= 1
    ensures Join([c + parts[0]] + parts[1..], sep) == c + Join(parts, sep)
  {
    var q := [c + parts[0]] + parts[1..];
    assert q[1..] == parts[1..];
  }

  /** Joining two non-empty lists puts one separator between their joins. */
  lemma {:induction false} JoinAppend(a: seq<string>, b: seq<string>, sep: string)
    requires |a| >= 1 && |b| >= 1
    ensures Join(a + b, sep) == Join(a, sep) + sep + Join(b, sep)
    decreases |a|
  {
    if |a| == 1 {
      assert (a + b)[1..] == b;
    } else {
      JoinAppend(a[1..], b, sep);
      assert (a + b)[1..] == a[1..] + b;
    }
  }

  /** Joining with the empty separator is plain concatenation, and distributes over `+`. */
  lemma {:induction false} JoinConcat(a: seq<string>, b: seq<string>)
    ensures Join(a + b, "") == Join(a, "") + Join(b, "")
    decreases |a|
  {
    if |a| == 0 {
      assert a + b == b;
    } else if |b| == 0 {
      assert a + b == a;
    } else {
      JoinAppend(a, b, "");
    }
  }

  /** An empty-separator join is empty exactly when every piece is. */
  lemma {:induction false} JoinEmpty(parts: seq<string>)
    ensures Join(parts, "") == "" <==> forall i :: 0 <= i < |parts| ==> parts[i] == ""
    decreases |parts|
  {
    if |parts| >= 1 {
      JoinEmpty(parts[1..]);
      JoinConcat([parts[0]], parts[1..]);
      assert [parts[0]] + parts[1..] == parts;
      assert forall i :: 1 <= i < |parts| ==> parts[i] == parts[1..][i - 1];
    }
  }

  /** A string without the separator splits into itself alone. */
  lemma {:induction false} SplitWithoutSeparator(s: string, sep: string)
    requires sep != "" && !Contains(s, sep)
    ensures Split(s, sep) == [s]
    decreases |s|
  {
    if |s| >= |sep| {
      assert !OccursAt(s, sep, 0);
      assert s[..|sep|] != sep;
      if Contains(s[1..], sep) {
        ContainsTail(s, sep);
      }
      SplitWithoutSeparator(s[1..], sep);
      assert [s[0]] + s[1..] == s;
    }
  }

  /** The first piece ends at the first occurrence of the separator, and splitting resumes after it. */
  lemma {:induction false} SplitAtFirst(s: string, sep: string, i: nat)
    requires sep != "" && OccursAt(s, sep, i)
    requires forall j :: 0 <= j < i ==> !OccursAt(s, sep, j)
    ensures Split(s, sep) == [s[..i]] + Split(s[i + |sep|..], sep)
    decreases i
  {
    if i == 0 {
      assert s[..|sep|] == s[0..|sep|];
    } else {
      assert !OccursAt(s, sep, 0);
      assert s[..|sep|] != sep;
      var u := s[1..];
      OccursShift(s, sep, 1, i - 1);
      forall j | 0 <= j < i - 1 ensures !OccursAt(u, sep, j) {
        OccursShift(s, sep, 1, j);
      }
      SplitAtFirst(u, sep, i - 1);
      var rest := Split(u, sep);
      assert u[..i - 1] == s[1..i];
      assert u[i - 1 + |sep|..] == s[i + |sep|..];
      assert rest[1..] == Split(s[i + |sep|..], sep);
      assert [s[0]] + s[1..i] == s[..i];
    }
  }

  /** There is a second piece exactly when the separator occurs. */
  lemma {:induction false} SplitHasSecondPiece(s: string, sep: string)
    requires sep != ""
    ensures |Split(s, sep)| >= 2 <==> Contains(s, sep)
    decreases |s|
  {
    if |s| < |sep| {
      assert !Contains(s, sep);
    } else if s[..|sep|] == sep {
      assert OccursAt(s, sep, 0);
    } else {
      SplitHasSecondPiece(s[1..], sep);
      if Contains(s[1..], sep) {
        ContainsTail(s, sep);
      }
      if Contains(s, sep) {
        var i :| 0 <= i <= |s| - |sep| && OccursAt(s, sep, i);
        assert i != 0;
        assert s[1..][i - 1..i - 1 + |sep|] == s[i..i + |sep|];
        assert OccursAt(s[1..], sep, i - 1);
      }
    }
  }

  /** With a one-character separator, no piece contains that character. */
  lemma {:induction false} SplitPiecesLackSeparator(s: string, c: char)
    ensures forall i :: 0 <= i < |Split(s, [c])| ==> c !in Split(s, [c])[i]
    decreases |s|
  {
    if |s| >= 1 {
      SplitPiecesLackSeparator(s[1..], c);
      if s[..1] != [c] {
        var rest := Split(s[1..], [c]);
        assert forall i :: 1 <= i < |Split(s, [c])| ==> Split(s, [c])[i] == rest[i];
      }
    }
  }

  /** With a one-character separator, splitting distributes over a separator between two strings. */
  lemma {:induction false} SplitAround(x: string, c: char, y: string)
    ensures Split(x + [c] + y, [c]) == Split(x, [c]) + Split(y, [c])
    decreases |x|
  {
    var s := x + [c] + y;
    if |x| == 0 {
      assert s[..1] == [c];
      assert s[1..] == y;
    } else if x[0] == c {
      assert s[..1] == [c];
      assert s[1..] == x[1..] + [c] + y;
      assert x[..1] == [c];
      SplitAround(x[1..], c, y);
    } else {
      assert s[0] == x[0];
      assert s[..1] != [c];
      assert s[1..] == x[1..] + [c] + y;
      assert x[..1] != [c];
      SplitAround(x[1..], c, y);
      var left := Split(x[1..], [c]);
      assert Split(s[1..], [c]) == left + Split(y, [c]);
      assert (left + Split(y, [c]))[1..] == left[1..] + Split(y, [c]);
    }
  }

  // ---------------------------------------------------------------------------
  // Decimal rendering (a non-negative integer in a template literal)

  predicate IsDigit(ch: char) {
    '0' <= ch <= '9'
  }

  function Digit(d: nat): (ch: char)
    requires d < 10
    ensures IsDigit(ch) && ch as int - '0' as int == d
  {
    ('0' as int + d) as char
  }

  /** The decimal digits of `n`, without leading zeros. */
  function Decimal(n: nat): (s: string)
    ensures |s| >= 1
    ensures forall i :: 0 <= i < |s| ==> IsDigit(s[i])
    ensures s[0] == '0' ==> n == 0
    decreases n
  {
    if n < 10 then [Digit(n)] else Decimal(n / 10) + [Digit(n % 10)]
  }

  /** The number a string of decimal digits denotes. */
  function DecimalValue(s: string): nat
    requires forall i :: 0 <= i < |s| ==> IsDigit(s[i])
    decreases |s|
  {
    if s == [] then 0
    else
      assert IsDigit(s[|s| - 1]);
      DecimalValue(s[..|s| - 1]) * 10 + (s[|s| - 1] as int - '0' as int)
  }

  /** The rendering is read back as the same number. */
  lemma {:induction false} DecimalRoundTrip(n: nat)
    ensures DecimalValue(Decimal(n)) == n
    decreases n
  {
    if n >= 10 {
      DecimalRoundTrip(n / 10);
      var s := Decimal(n);
      assert s[..|s| - 1] == Decimal(n / 10);
    }
  }
}
