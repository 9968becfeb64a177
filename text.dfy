/**
 * The handful of Python `str` operations that the client relies on, for
 * ASCII strings: `startswith`, slicing `s[k:]`, `find`, `split(sep)`,
 * `split()` with no separator, `strip()` and `int()` in base 10, and the
 * decimal rendering that `str.format` uses for a non-negative `int`.
 */
module Text {
  import opened Wrappers

  const CRLF: string := "\r\n"
  /** The delimiter between the header block and the body. */
  const HeadEnd: string := "\r\n\r\n"

  predicate StartsWith(s: string, p: string) {
    |p| <= |s| && s[..|p|] == p
  }

  /** Python's `s[k:]`, which is empty when `k` lies past the end. */
  function Drop(s: string, k: nat): (r: string)
    ensures |r| == if k <= |s| then |s| - k else 0
    ensures forall i :: 0 <= i < |r| ==> r[i] == s[k + i]
  {
    if k <= |s| then s[k..] else ""
  }

  /** `d` occurs in `s` at index `j`. */
  predicate MatchAt(s: string, d: string, j: int) {
    0 <= j && j + |d| <= |s| && s[j..j + |d|] == d
  }

  /** Python's `s.find(d)`: the first index at which `d` occurs, if any. */
  function Find(s: string, d: string): (r: Option<nat>)
    requires d != []
    ensures r.Some? ==> MatchAt(s, d, r.value)
    ensures r.Some? ==> forall j :: 0 <= j < r.value ==> !MatchAt(s, d, j)
    ensures r.None? ==> forall j :: !MatchAt(s, d, j)
    decreases |s|
  {
    if |s| < |d| then None
    else if s[..|d|] == d then Some(0)
    else
      var rest := Find(s[1..], d);
      ShiftMatch(s, d);
      match rest
      case None => None
      case Some(i) => Some(i + 1)
  }

  /** A match one position further into `s` is a match in `s[1..]`. */
  lemma ShiftMatch(s: string, d: string)
    requires s != []
    ensures forall j :: 1 <= j ==> (MatchAt(s, d, j) <==> MatchAt(s[1..], d, j - 1))
  {
    forall j | 1 <= j
      ensures MatchAt(s, d, j) <==> MatchAt(s[1..], d, j - 1)
    {
      if j + |d| <= |s| {
        var here, there := s[j..j + |d|], s[1..][j - 1..j - 1 + |d|];
        assert forall t :: 0 <= t < |d| ==> here[t] == there[t];
        assert here == there;
      }
    }
  }

  /** The first match is the one `Find` reports. */
  lemma FindIsFirst(s: string, d: string, k: nat)
    requires d != []
    requires MatchAt(s, d, k)
    requires forall j :: 0 <= j < k ==> !MatchAt(s, d, j)
    ensures Find(s, d) == Some(k)
  {
  }

  /** A match that fits inside a prefix is a match there, and back. */
  lemma MatchInPrefix(p: string, rest: string, d: string, j: int)
    requires j + |d| <= |p|
    ensures MatchAt(p + rest, d, j) <==> MatchAt(p, d, j)
  {
    if 0 <= j {
      assert (p + rest)[j..j + |d|] == p[j..j + |d|];
    }
  }

  /** A match that lies wholly inside a prefix is found there too. */
  lemma FindInPrefix(p: string, rest: string, d: string, k: nat)
    requires d != [] && Find(p + rest, d) == Some(k) && k + |d| <= |p|
    ensures Find(p, d) == Some(k)
  {
    MatchInPrefix(p, rest, d, k);
    forall j | 0 <= j < k
      ensures !MatchAt(p, d, j)
    {
      MatchInPrefix(p, rest, d, j);
    }
    FindIsFirst(p, d, k);
  }

  /** A prefix of a text without a match has none either. */
  lemma NoFindInPrefix(p: string, rest: string, d: string)
    requires d != [] && Find(p + rest, d) == None
    ensures Find(p, d) == None
  {
    if Find(p, d).Some? {
      MatchInPrefix(p, rest, d, Find(p, d).value);
    }
  }

  /** Python's `s.split(d)`: the pieces between the non-overlapping
      occurrences of `d`, scanned from the left. */
  function Split(s: string, d: string): (r: seq<string>)
    requires d != []
    ensures |r| >= 1
    decreases |s|
  {
    match Find(s, d)
    case None => [s]
    case Some(i) => [s[..i]] + Split(s[i + |d|..], d)
  }

  /** Python's `d.join(ls)` for a non-empty list. */
  function Join(ls: seq<string>, d: string): string
    requires |ls| >= 1
    decreases |ls|
  {
    if |ls| == 1 then ls[0] else ls[0] + d + Join(ls[1..], d)
  }

  /** Splitting what was joined gives the pieces back, when no piece holds
      the separator's first character. */
  lemma {:induction false} SplitJoin(ls: seq<string>, d: string)
    requires |ls| >= 1 && d != []
    requires forall i :: 0 <= i < |ls| ==> d[0] !in ls[i]
    ensures Split(Join(ls, d), d) == ls
    decreases |ls|
  {
    var l := ls[0];
    if |ls| == 1 {
      assert Find(l, d) == None by {
        forall j | 0 <= j < |l| ensures !MatchAt(l, d, j) {
          assert l[j] != d[0];
        }
      }
    } else {
      var s := Join(ls, d);
      var rest := Join(ls[1..], d);
      assert s == l + d + rest;
      assert s[|l|..|l| + |d|] == d;
      forall j | 0 <= j < |l| ensures !MatchAt(s, d, j) {
        assert s[j] == l[j] != d[0];
      }
      FindIsFirst(s, d, |l|);
      assert s[|l| + |d|..] == rest;
      assert s[..|l|] == l;
      SplitJoin(ls[1..], d);
      assert ls == [l] + ls[1..];
    }
  }

  /** The first blank line after a block of non-empty, CR-free lines is where
      that block ends. */
  lemma {:induction false} HeadEndAfterLines(ls: seq<string>, rest: string)
    requires |ls| >= 1
    requires forall i :: 0 <= i < |ls| ==> ls[i] != [] && '\r' !in ls[i]
    ensures Find(Join(ls, CRLF) + HeadEnd + rest, HeadEnd) == Some(|Join(ls, CRLF)|)
  {
    var s := Join(ls, CRLF) + HeadEnd + rest;
    NoHeadEndInLines(ls, rest);
    assert s[|Join(ls, CRLF)|..|Join(ls, CRLF)| + 4] == HeadEnd;
    FindIsFirst(s, HeadEnd, |Join(ls, CRLF)|);
  }

  lemma {:induction false} NoHeadEndInLines(ls: seq<string>, rest: string)
    requires |ls| >= 1
    requires forall i :: 0 <= i < |ls| ==> ls[i] != [] && '\r' !in ls[i]
    ensures forall j :: 0 <= j < |Join(ls, CRLF)| ==> !MatchAt(Join(ls, CRLF) + HeadEnd + rest, HeadEnd, j)
    decreases |ls|
  {
    var l := ls[0];
    var s := Join(ls, CRLF) + HeadEnd + rest;
    if |ls| == 1 {
      forall j | 0 <= j < |l| ensures !MatchAt(s, HeadEnd, j) {
        assert s[j] == l[j] != '\r';
      }
    } else {
      var tail := Join(ls[1..], CRLF);
      var s' := tail + HeadEnd + rest;
      assert s == l + CRLF + s';
      assert tail[0] == ls[1][0] by { JoinStart(ls[1..], CRLF); }
      NoHeadEndInLines(ls[1..], rest);
      forall j | 0 <= j < |Join(ls, CRLF)| ensures !MatchAt(s, HeadEnd, j) {
        if j < |l| {
          assert s[j] == l[j] != '\r';
        } else if j == |l| {
          assert s[j + 2] == tail[0] != '\r';
        } else if j == |l| + 1 {
          assert s[j] == '\n';
        } else {
          var k := j - |l| - 2;
          assert s[j..] == s'[k..];
          if MatchAt(s, HeadEnd, j) {
            assert s'[k..k + 4] == s[j..j + 4];
            assert MatchAt(s', HeadEnd, k);
          }
        }
      }
    }
  }

  lemma JoinStart(ls: seq<string>, d: string)
    requires |ls| >= 1 && ls[0] != []
    ensures Join(ls, d) != [] && Join(ls, d)[0] == ls[0][0]
  {
  }

  /** The characters Python's `str.split()` and `str.strip()` treat as
      white space, restricted to ASCII. */
  predicate IsSpace(c: char) {
    c == ' ' || 9 <= c as int <= 13 || 28 <= c as int <= 31
  }

  /** The longest prefix of `s` without white space. */
  function Word(s: string): (w: string)
    ensures |w| <= |s| && w == s[..|w|]
    ensures forall i :: 0 <= i < |w| ==> !IsSpace(w[i])
    ensures |w| < |s| ==> IsSpace(s[|w|])
    ensures s != [] && !IsSpace(s[0]) ==> |w| >= 1
  {
    if s == [] || IsSpace(s[0]) then [] else [s[0]] + Word(s[1..])
  }

  /** Python's `s.split()`: the maximal runs of non-white-space characters. */
  function Words(s: string): (r: seq<string>)
    ensures forall i :: 0 <= i < |r| ==> r[i] != []
    decreases |s|
  {
    if s == [] then []
    else if IsSpace(s[0]) then Words(s[1..])
    else
      var w := Word(s);
      [w] + Words(s[|w|..])
  }

  lemma {:induction false} WordOfPrefix(a: string, b: string)
    requires forall i :: 0 <= i < |a| ==> !IsSpace(a[i])
    requires b == [] || IsSpace(b[0])
    ensures Word(a + b) == a
    decreases |a|
  {
    if a != [] {
      assert (a + b)[1..] == a[1..] + b;
      WordOfPrefix(a[1..], b);
    } else {
      assert a + b == b;
    }
  }

  lemma WordsCons(a: string, b: string)
    requires a != [] && forall i :: 0 <= i < |a| ==> !IsSpace(a[i])
    requires b == [] || IsSpace(b[0])
    ensures Words(a + b) == [a] + Words(b)
  {
    WordOfPrefix(a, b);
    assert (a + b)[|a|..] == b;
  }

  lemma WordsSpace(b: string)
    ensures Words(" " + b) == Words(b)
  {
    assert (" " + b)[1..] == b;
  }

  /** The first two words of a status line `version SP code rest`. */
  lemma StatusWords(version: string, code: string, rest: string)
    requires version != [] && code != []
    requires forall i :: 0 <= i < |version| ==> !IsSpace(version[i])
    requires forall i :: 0 <= i < |code| ==> !IsSpace(code[i])
    requires rest == [] || IsSpace(rest[0])
    ensures |Words(version + " " + code + rest)| >= 2
    ensures Words(version + " " + code + rest)[0] == version
    ensures Words(version + " " + code + rest)[1] == code
  {
    var tail := " " + (code + rest);
    assert version + " " + code + rest == version + tail;
    WordsCons(version, tail);
    WordsSpace(code + rest);
    WordsCons(code, rest);
    assert Words(version + tail) == [version] + ([code] + Words(rest));
  }

  /** Python's `s.strip()`. */
  function TrimLeft(s: string): string {
    if s != [] && IsSpace(s[0]) then TrimLeft(s[1..]) else s
  }

  function TrimRight(s: string): string {
    if s != [] && IsSpace(s[|s| - 1]) then TrimRight(s[..|s| - 1]) else s
  }

  predicate IsDigit(c: char) {
    '0' <= c <= '9'
  }

  predicate AllDigits(s: string) {
    forall i :: 0 <= i < |s| ==> IsDigit(s[i])
  }

  function DigitsValue(s: string): nat
    requires AllDigits(s)
  {
    if s == [] then 0 else 10 * DigitsValue(s[..|s| - 1]) + (s[|s| - 1] as int - '0' as int)
  }

  /** Python's `int(s)` in base 10 (without `_` digit separators). */
  function ParseInt(s: string): Option<int> {
    var t := TrimRight(TrimLeft(s));
    if t == [] then None
    else
      var neg := t[0] == '-';
      var digits := if t[0] == '-' || t[0] == '+' then t[1..] else t;
      if digits != [] && AllDigits(digits) then
        var v: int := DigitsValue(digits);
        Some(if neg then -v else v)
      else None
  }

  function Digit(n: nat): char
    requires n < 10
  {
    ('0' as int + n) as char
  }

  /** The decimal text that `"{}".format(n)` gives for `n >= 0`. */
  function Decimal(n: nat): (r: string)
    ensures r != [] && AllDigits(r)
  {
    if n < 10 then [Digit(n)] else Decimal(n / 10) + [Digit(n % 10)]
  }

  lemma {:induction false} DecimalValue(n: nat)
    ensures DigitsValue(Decimal(n)) == n
  {
    if n >= 10 {
      var r := Decimal(n);
      assert r[..|r| - 1] == Decimal(n / 10);
      DecimalValue(n / 10);
    }
  }

  /** `int()` reads back what `str.format` wrote, after the one space that
      follows a header name's colon. */
  lemma ParseDecimal(n: nat)
    ensures ParseInt(" " + Decimal(n)) == Some(n)
  {
    var d := Decimal(n);
    assert (" " + d)[1..] == d;
    assert TrimLeft(d) == d by { assert !IsSpace(d[0]); }
    assert TrimRight(d) == d by { assert !IsSpace(d[|d| - 1]); }
    DecimalValue(n);
  }
}
