/**
 * The JavaScript string operations the scripts rely on, over `seq<char>`:
 * `split` and `join` with a one-character separator, `lastIndexOf`,
 * `substring`, `indexOf`, `slice(-n)` and the decimal rendering of a
 * non-negative integer (`'000' + n`).
 */
module Text {

  /** Number of occurrences of `c` in `s`. */
  function Count(s: string, c: char): nat
  {
    if s == [] then 0 else (if s[0] == c then 1 else 0) + Count(s[1..], c)
  }

  /**
   * `s.split(sep)`: the pieces of `s` between occurrences of `sep`, so an
   * empty string splits to `[""]` and a trailing separator yields a final "".
   */
  function Split(s: string, sep: char): (r: seq<string>)
    ensures |r| >= 1
    ensures |r| == Count(s, sep) + 1
    decreases |s|
  {
    if s == [] then [""]
    else
      var rest := Split(s[1..], sep);
      if s[0] == sep then [""] + rest
      else [[s[0]] + rest[0]] + rest[1..]
  }

  /** `parts.join(sep)`. */
  function Join(parts: seq<string>, sep: char): string
  {
    if |parts| == 0 then ""
    else if |parts| == 1 then parts[0]
    else parts[0] + [sep] + Join(parts[1..], sep)
  }

  /** No piece of `parts` contains `sep`. */
  predicate Separable(parts: seq<string>, sep: char)
  {
    forall i :: 0 <= i < |parts| ==> sep !in parts[i]
  }

  /** The pieces `Split` returns never contain the separator. */
  lemma {:induction false} SplitPiecesAreSeparable(s: string, sep: char)
    ensures Separable(Split(s, sep), sep)
    decreases |s|
  {
    if s != [] {
      SplitPiecesAreSeparable(s[1..], sep);
      var rest := Split(s[1..], sep);
      if s[0] != sep {
        var r := Split(s, sep);
        assert r == [[s[0]] + rest[0]] + rest[1..];
        forall i | 0 <= i < |r| ensures sep !in r[i] {
          if i == 0 {
            assert sep !in rest[0];
          } else {
            assert r[i] == rest[i];
          }
        }
      }
    }
  }

  /** Joining what `Split` returns gives the original string back. */
  lemma {:induction false} JoinSplit(s: string, sep: char)
    ensures Join(Split(s, sep), sep) == s
    decreases |s|
  {
    if s != [] {
      JoinSplit(s[1..], sep);
      var rest := Split(s[1..], sep);
      if s[0] == sep {
        assert Split(s, sep) == [""] + rest;
        assert ([""] + rest)[1..] == rest;
      } else {
        var r := Split(s, sep);
        assert r == [[s[0]] + rest[0]] + rest[1..];
        if |rest| > 1 {
          assert r[1..] == rest[1..];
          assert Join(rest, sep) == rest[0] + [sep] + Join(rest[1..], sep);
        }
      }
    }
  }

  /** Splitting a separator-free prefix glued to `t` extends Split(t)'s first piece. */
  lemma {:induction false} SplitFreePrefix(a: string, t: string, sep: char)
    requires sep !in a
    ensures Split(a + t, sep) == [a + Split(t, sep)[0]] + Split(t, sep)[1..]
    decreases |a|
  {
    var st := Split(t, sep);
    if a == [] {
      assert a + t == t && a + st[0] == st[0];
      assert [st[0]] + st[1..] == st;
    } else {
      var u := a[1..] + t;
      assert a + t == [a[0]] + u;
      SplitCons(a[0], u, sep);
      SplitFreePrefix(a[1..], t, sep);
      var su := Split(u, sep);
      assert su[0] == a[1..] + st[0] && su[1..] == st[1..];
      assert [a[0]] + su[0] == a + st[0];
    }
  }

  /** Splitting a string that starts with a non-separator extends the first piece. */
  lemma SplitCons(c: char, s: string, sep: char)
    requires c != sep
    ensures Split([c] + s, sep) == [[c] + Split(s, sep)[0]] + Split(s, sep)[1..]
  {
    assert ([c] + s)[1..] == s;
  }

  /** Splitting a join of separator-free pieces gives the pieces back. */
  lemma {:induction false} SplitJoin(parts: seq<string>, sep: char)
    requires |parts| >= 1 && Separable(parts, sep)
    ensures Split(Join(parts, sep), sep) == parts
    decreases |parts|
  {
    if |parts| == 1 {
      SplitFreePrefix(parts[0], "", sep);
      assert Split("", sep) == [""];
      assert parts[0] + "" == parts[0];
      assert Join(parts, sep) == parts[0];
    } else {
      var tail := parts[1..];
      assert Separable(tail, sep) by {
        forall i | 0 <= i < |tail| ensures sep !in tail[i] {
          assert tail[i] == parts[i + 1];
        }
      }
      SplitJoin(tail, sep);
      var t := [sep] + Join(tail, sep);
      assert Join(parts, sep) == parts[0] + t;
      SplitFreePrefix(parts[0], t, sep);
      assert t[1..] == Join(tail, sep);
      assert Split(t, sep) == [""] + tail;
      assert parts[0] + Split(t, sep)[0] == parts[0];
      assert Split(t, sep)[1..] == tail;
      assert [parts[0]] + tail == parts;
    }
  }

  /** `s.lastIndexOf(c)`: the last position holding `c`, or -1. */
  function LastIndexOf(s: string, c: char): (r: int)
    ensures -1 <= r < |s|
    ensures r >= 0 ==> s[r] == c
    ensures forall j :: r < j < |s| ==> s[j] != c
    decreases |s|
  {
    if s == [] then -1
    else if s[|s| - 1] == c then |s| - 1
    else LastIndexOf(s[..|s| - 1], c)
  }

  /**
   * `s.substring(start, end)`: both arguments are clamped to [0, |s|] and
   * swapped when the first is larger.
   */
  function Substring(s: string, start: int, end: int): (r: string)
    ensures |r| <= |s|
    ensures 0 <= start <= end <= |s| ==> r == s[start..end]
    ensures start <= 0 && end <= 0 ==> r == []
    ensures end >= |s| && 0 <= start <= |s| ==> r == s[start..]
  {
    var lo := if start < 0 then 0 else if start > |s| then |s| else start;
    var hi := if end < 0 then 0 else if end > |s| then |s| else end;
    if lo <= hi then s[lo..hi] else s[hi..lo]
  }


  /** `s.substring(0, s.lastIndexOf('/'))`: drops the last path segment. */
  function StripLastSegment(s: string): (r: string)
  {
    Substring(s, 0, LastIndexOf(s, '/'))
  }

  /**
   * Stripping the last segment keeps exactly what precedes the last '/',
   * and gives "" for a string with no '/' at all.
   */
  lemma {:induction false} StripLastSegmentOf(a: string, b: string)
    requires '/' !in b
    ensures StripLastSegment(a + "/" + b) == a
    ensures StripLastSegment(b) == ""
  {
    var s := a + "/" + b;
    assert s[|a|] == '/';
    forall j | |a| < j < |s| ensures s[j] != '/' {
      assert s[j] == b[j - |a| - 1];
    }
    assert LastIndexOf(s, '/') == |a|;
    assert s[..|a|] == a;
  }

  /** Stripping the last segment leaves a prefix. */
  lemma StripIsPrefix(s: string)
    ensures StripLastSegment(s) <= s
  {
    var i := LastIndexOf(s, '/');
    if i >= 0 {
      assert StripLastSegment(s) == s[..i];
    }
  }

  /** Stripping the last segment of a '/'-joined path drops its last piece. */
  lemma {:induction false} StripLastSegmentOfJoin(parts: seq<string>)
    requires |parts| >= 2 && '/' !in parts[|parts| - 1]
    ensures StripLastSegment(Join(parts, '/')) == Join(parts[..|parts| - 1], '/')
  {
    var n := |parts|;
    var front, last := parts[..n - 1], parts[n - 1];
    JoinSnoc(front, last, '/');
    assert front + [last] == parts;
    var j := Join(front, '/');
    assert Join(parts, '/') == j + "/" + last;
    StripLastSegmentOf(j, last);
  }

  /** Joining with one more piece appends the separator and that piece. */
  lemma {:induction false} JoinSnoc(parts: seq<string>, last: string, sep: char)
    requires |parts| >= 1
    ensures Join(parts + [last], sep) == Join(parts, sep) + [sep] + last
    decreases |parts|
  {
    if |parts| > 1 {
      assert (parts + [last])[1..] == parts[1..] + [last];
      JoinSnoc(parts[1..], last, sep);
    }
  }

  /** `p` occurs in `s` starting at position `j`. */
  predicate OccursAt(s: string, p: string, j: nat)
  {
    j + |p| <= |s| && s[j..j + |p|] == p
  }

  /** `s.indexOf(p)`: the first position at which `p` occurs in `s`, or -1. */
  function IndexOf(s: string, p: string): (r: int)
    ensures -1 <= r <= |s| - |p| || r == -1
    ensures r >= 0 ==> OccursAt(s, p, r) && forall j :: 0 <= j < r ==> !OccursAt(s, p, j)
    ensures r == -1 <==> forall j :: 0 <= j <= |s| ==> !OccursAt(s, p, j)
    ensures r == 0 <==> p <= s
  {
    IndexOfFrom(s, p, 0)
  }

  function IndexOfFrom(s: string, p: string, i: nat): (r: int)
    requires i <= |s|
    ensures r == -1 || i <= r <= |s| - |p|
    ensures r >= 0 ==> OccursAt(s, p, r) && forall j :: i <= j < r ==> !OccursAt(s, p, j)
    ensures r == -1 <==> forall j :: i <= j <= |s| ==> !OccursAt(s, p, j)
    ensures OccursAt(s, p, i) == (r == i)
    decreases |s| - i
  {
    if i + |p| > |s| then -1
    else if s[i..i + |p|] == p then i
    else if i == |s| then -1
    else IndexOfFrom(s, p, i + 1)
  }

  /**
   * `s.slice(-n)` for n >= 1: the last `n` characters of `s`, or all of it
   * when shorter (JavaScript's `slice(-0)` is the whole string; the model
   * gives "" there, a case the splitter never reaches).
   */
  function LastChars(s: string, n: nat): (r: string)
    ensures |r| == if |s| <= n then |s| else n
  {
    if |s| <= n then s else s[|s| - n..]
  }

  /** `slice(-n)` keeps the end of the string: its result is a suffix of `s`. */
  lemma LastCharsIsSuffix(s: string, n: nat)
    requires n >= 1
    ensures LastChars(s, n) == s[|s| - |LastChars(s, n)|..]
  {
  }

  /** The decimal digit character for `d`. */
  function Digit(d: nat): char
    requires d < 10
  {
    "0123456789"[d]
  }

  /** `String(n)` for a non-negative integer: its decimal digits, no leading zero. */
  function Decimal(n: nat): (r: string)
    ensures |r| >= 1
    ensures r[|r| - 1] == Digit(n % 10)
  {
    if n < 10 then [Digit(n)] else Decimal(n / 10) + [Digit(n % 10)]
  }

  /** The `k` lowest decimal digits of `n`, most significant first, zero-padded. */
  function LowDigits(n: nat, k: nat): (r: string)
    ensures |r| == k
  {
    if k == 0 then [] else LowDigits(n / 10, k - 1) + [Digit(n % 10)]
  }

  /**
   * `String(n)` is exactly the decimal rendering of `n`: its digits are the
   * `|String(n)|` low digits of `n`, and it has no leading zero beyond "0".
   */
  lemma {:induction false} DecimalIsCanonical(n: nat)
    ensures Decimal(n) == LowDigits(n, |Decimal(n)|)
    ensures n >= 1 ==> Decimal(n)[0] != '0'
    decreases n
  {
    if n >= 10 {
      DecimalIsCanonical(n / 10);
      var t := Decimal(n / 10);
      assert Decimal(n) == t + [Digit(n % 10)];
      assert (t + [Digit(n % 10)])[0] == t[0];
    }
  }

  /** `k` copies of the character '0'. */
  function Zeros(k: nat): (r: string)
    ensures |r| == k
  {
    if k == 0 then [] else Zeros(k - 1) + "0"
  }

  lemma {:induction false} LowDigitsOfZero(k: nat)
    ensures LowDigits(0, k) == Zeros(k)
  {
    if k > 0 {
      LowDigitsOfZero(k - 1);
    }
  }

  lemma {:induction false} LastCharsDropFront(c: string, x: string, k: nat)
    requires |x| >= k
    ensures LastChars(c + x, k) == LastChars(x, k)
  {
    assert (c + x)[|c + x| - k..] == x[|x| - k..];
  }

  lemma {:induction false} LastCharsSnoc(y: string, d: char, k: nat)
    requires |y| >= k
    ensures LastChars(y + [d], k + 1) == LastChars(y, k) + [d]
  {
    assert (y + [d])[|y| - k..] == y[|y| - k..] + [d];
  }

  /**
   * The last `k` characters of `k - 1` zeros followed by `String(n)` are the
   * `k` lowest decimal digits of `n`: zero padding for short numbers, the
   * low-order digits of long ones.
   */
  lemma {:induction false} PaddedSuffixIsLowDigits(n: nat, k: nat)
    requires k >= 1
    ensures LastChars(Zeros(k - 1) + Decimal(n), k) == LowDigits(n, k)
    decreases k, 1
  {
    if k == 1 {
      PaddedSuffixOne(n);
    } else if n < 10 {
      PaddedSuffixSmall(n, k);
    } else {
      PaddedSuffixStep(n, k);
    }
  }

  lemma PaddedSuffixOne(n: nat)
    ensures LastChars(Zeros(0) + Decimal(n), 1) == LowDigits(n, 1)
  {
    var s := Decimal(n);
    assert Zeros(0) + s == s;
    assert LastChars(s, 1) == [s[|s| - 1]];
    assert LowDigits(n, 1) == LowDigits(n / 10, 0) + [Digit(n % 10)];
  }

  lemma PaddedSuffixSmall(n: nat, k: nat)
    requires n < 10 && k >= 2
    ensures LastChars(Zeros(k - 1) + Decimal(n), k) == LowDigits(n, k)
  {
    var d := Digit(n % 10);
    LowDigitsOfZero(k - 1);
    assert n / 10 == 0 && n % 10 == n;
    assert Decimal(n) == [d];
    assert LowDigits(n, k) == LowDigits(0, k - 1) + [d];
    assert |Zeros(k - 1) + [d]| == k;
  }

  lemma {:induction false} PaddedSuffixStep(n: nat, k: nat)
    requires n >= 10 && k >= 2
    ensures LastChars(Zeros(k - 1) + Decimal(n), k) == LowDigits(n, k)
    decreases k, 0
  {
    var d := Digit(n % 10);
    var m := n / 10;
    var x := Zeros(k - 2) + Decimal(m);
    var y := Zeros(k - 1) + Decimal(m);
    calc {
      LastChars(Zeros(k - 1) + Decimal(n), k);
      { assert Decimal(n) == Decimal(m) + [d]; }
      LastChars(Zeros(k - 1) + (Decimal(m) + [d]), k);
      { AppendAssoc(Zeros(k - 1), Decimal(m), [d]); }
      LastChars(y + [d], k);
      { LastCharsSnoc(y, d, k - 1); }
      LastChars(y, k - 1) + [d];
      { ZerosCons(k - 1); assert y == "0" + x; LastCharsDropFront("0", x, k - 1); }
      LastChars(x, k - 1) + [d];
      { PaddedSuffixIsLowDigits(m, k - 1); }
      LowDigits(m, k - 1) + [d];
      LowDigits(n, k);
    }
  }

  lemma AppendAssoc(a: string, b: string, c: string)
    ensures a + (b + c) == (a + b) + c
  {
  }

  lemma {:induction false} ZerosCons(k: nat)
    requires k >= 1
    ensures Zeros(k) == "0" + Zeros(k - 1)
  {
    if k > 1 {
      ZerosCons(k - 1);
    }
  }
}
