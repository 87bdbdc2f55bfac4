/**
 * The few PHP string built-ins whose behaviour the query builder depends on:
 * `implode`, `explode` on a one-character delimiter, `trim`, `strtolower`
 * (byte-wise ASCII, as in the default C locale), the `(int)` cast of a string
 * (PHP 5: optional leading white space and sign, then the leading digits),
 * string truthiness, and the decimal rendering of an integer id.
 */
module PhpString {

  /** `implode(sep, parts)` */
  function Join(sep: string, parts: seq<string>): string {
    if |parts| == 0 then ""
    else if |parts| == 1 then parts[0]
    else parts[0] + sep + Join(sep, parts[1..])
  }

  /** Joining one more part at the end adds the separator and the part. */
  lemma {:induction false} JoinSnoc(sep: string, parts: seq<string>, last: string)
    requires |parts| > 0
    ensures Join(sep, parts + [last]) == Join(sep, parts) + sep + last
  {
    if |parts| == 1 {
      assert parts + [last] == [parts[0], last];
    } else {
      assert (parts + [last])[1..] == parts[1..] + [last];
      JoinSnoc(sep, parts[1..], last);
    }
  }

  /** `explode(d, s)`: the pieces of `s` between occurrences of `d`; never empty. */
  function Split(s: string, d: char): (r: seq<string>)
    ensures |r| > 0
    ensures forall k :: 0 <= k < |r| ==> d !in r[k]
    decreases |s|
  {
    if |s| == 0 then [""]
    else
      var rest := Split(s[1..], d);
      if s[0] == d then [""] + rest
      else [[s[0]] + rest[0]] + rest[1..]
  }

  /** `implode` undoes `explode` on the same delimiter. */
  lemma {:induction false} JoinSplit(s: string, d: char)
    ensures Join([d], Split(s, d)) == s
    decreases |s|
  {
    if |s| > 0 {
      var rest := Split(s[1..], d);
      JoinSplit(s[1..], d);
      assert s == [s[0]] + s[1..];
      if s[0] == d {
        assert Split(s, d)[1..] == rest;
      } else if |rest| == 1 {
        assert Split(s, d) == [[s[0]] + rest[0]];
      } else {
        assert Split(s, d)[1..] == rest[1..];
        assert Join([d], rest) == rest[0] + [d] + Join([d], rest[1..]);
      }
    }
  }

  /** `explode` undoes `implode` when no part contains the delimiter. */
  lemma {:induction false} SplitJoin(parts: seq<string>, d: char)
    requires |parts| > 0
    requires forall k :: 0 <= k < |parts| ==> d !in parts[k]
    ensures Split(Join([d], parts), d) == parts
    decreases |parts|, |parts[0]|
  {
    if |parts| == 1 {
      SplitPlain(parts[0], d);
    } else if |parts[0]| == 0 {
      var tail := Join([d], parts[1..]);
      assert Join([d], parts) == [d] + tail;
      assert ([d] + tail)[1..] == tail;
      SplitJoin(parts[1..], d);
    } else {
      var head := parts[0];
      var shorter := [head[1..]] + parts[1..];
      assert shorter[1..] == parts[1..];
      assert Join([d], parts) == [head[0]] + Join([d], shorter);
      assert ([head[0]] + Join([d], shorter))[1..] == Join([d], shorter);
      assert d !in head[1..] by {
        assert forall c :: c in head[1..] ==> c in head;
      }
      SplitJoin(shorter, d);
      assert [head[0]] + head[1..] == head;
    }
  }

  /** A string without the delimiter explodes to itself. */
  lemma {:induction false} SplitPlain(s: string, d: char)
    requires d !in s
    ensures Split(s, d) == [s]
    decreases |s|
  {
    if |s| > 0 {
      assert d !in s[1..] by {
        assert forall c :: c in s[1..] ==> c in s;
      }
      SplitPlain(s[1..], d);
      assert [s[0]] + s[1..] == s;
    }
  }

  /** The characters PHP's `trim` removes by default. */
  predicate IsTrimmed(c: char) {
    c == ' ' || c == '\t' || c == '\n' || c == '\r' || c == '\0' || c == '\U{B}'
  }

  function TrimLeft(s: string): (r: string)
    ensures |r| <= |s|
    ensures r == s[|s| - |r|..]
    ensures |r| > 0 ==> !IsTrimmed(r[0])
  {
    if |s| > 0 && IsTrimmed(s[0]) then TrimLeft(s[1..]) else s
  }

  function TrimRight(s: string): (r: string)
    ensures |r| <= |s|
    ensures r == s[..|r|]
    ensures |r| > 0 ==> !IsTrimmed(r[|r| - 1])
  {
    if |s| > 0 && IsTrimmed(s[|s| - 1]) then TrimRight(s[..|s| - 1]) else s
  }

  /** `trim(s)`: a piece of `s` with no trimmable character at either end. */
  function Trim(s: string): (r: string)
    ensures |r| <= |s|
    ensures |r| > 0 ==> !IsTrimmed(r[0]) && !IsTrimmed(r[|r| - 1])
  {
    TrimRight(TrimLeft(s))
  }

  function LowerChar(c: char): (r: char)
    ensures 'A' <= c <= 'Z' ==> 'a' <= r <= 'z'
    ensures !('A' <= c <= 'Z') ==> r == c
  {
    if 'A' <= c <= 'Z' then (c as int + 32) as char else c
  }

  /** `strtolower(s)` in the default locale: only A-Z change. */
  function Lower(s: string): (r: string)
    ensures |r| == |s|
    ensures forall k :: 0 <= k < |s| ==> r[k] == LowerChar(s[k])
  {
    seq(|s|, k requires 0 <= k < |s| => LowerChar(s[k]))
  }

  /** Lower-casing twice is lower-casing once. */
  lemma LowerIdempotent(s: string)
    ensures Lower(Lower(s)) == Lower(s)
  {
    assert forall k :: 0 <= k < |s| ==> LowerChar(LowerChar(s[k])) == LowerChar(s[k]);
  }

  /** Lower-casing commutes with dropping the first character. */
  lemma LowerTail(s: string)
    requires |s| > 0
    ensures Lower(s)[1..] == Lower(s[1..])
  {
  }

  /** Lower-casing leaves white space in place, so skipping it commutes with lower-casing. */
  lemma {:induction false} SkipSpaceLower(s: string)
    ensures SkipSpace(Lower(s)) == Lower(SkipSpace(s))
    decreases |s|
  {
    if |s| > 0 {
      LowerTail(s);
      if IsSpace(s[0]) {
        SkipSpaceLower(s[1..]);
      }
    }
  }

  /** Lower-casing leaves digits in place, so the leading digit run is the same. */
  lemma {:induction false} DigitRunLower(s: string, acc: nat)
    ensures DigitRun(Lower(s), acc) == DigitRun(s, acc)
    decreases |s|
  {
    if |s| > 0 {
      LowerTail(s);
      if IsDigit(s[0]) {
        DigitRunLower(s[1..], acc * 10 + (s[0] as int - '0' as int));
      }
    }
  }

  /** `(int)` ignores letter case: letters end the number wherever they stand. */
  lemma IntValLower(s: string)
    ensures IntVal(Lower(s)) == IntVal(s)
  {
    var t := SkipSpace(s);
    SkipSpaceLower(s);
    var lt := Lower(t);
    assert SkipSpace(Lower(s)) == lt;
    if |t| > 0 && (t[0] == '-' || t[0] == '+') {
      assert lt[0] == t[0];
      LowerTail(t);
      DigitRunLower(t[1..], 0);
    } else {
      assert |lt| > 0 ==> lt[0] != '-' && lt[0] != '+';
      DigitRunLower(t, 0);
    }
  }

  /** PHP's truth test on a string: only "" and "0" are false. */
  predicate Truthy(s: string) {
    s != "" && s != "0"
  }

  predicate IsDigit(c: char) {
    '0' <= c <= '9'
  }

  /** The value of the run of digits that starts `s`, and its length. */
  function DigitRun(s: string, acc: nat): (r: (nat, nat))
    ensures r.1 <= |s|
    ensures forall k :: 0 <= k < r.1 ==> IsDigit(s[k])
    ensures r.1 < |s| ==> !IsDigit(s[r.1])
    ensures r.1 == 0 ==> r.0 == acc
  {
    if |s| > 0 && IsDigit(s[0]) then
      var rest := DigitRun(s[1..], acc * 10 + (s[0] as int - '0' as int));
      (rest.0, rest.1 + 1)
    else (acc, 0)
  }

  predicate IsSpace(c: char) {
    c == ' ' || c == '\t' || c == '\n' || c == '\r' || c == '\U{B}' || c == '\U{C}'
  }

  function SkipSpace(s: string): (r: string)
    ensures |r| <= |s| && r == s[|s| - |r|..]
    ensures |r| > 0 ==> !IsSpace(r[0])
  {
    if |s| > 0 && IsSpace(s[0]) then SkipSpace(s[1..]) else s
  }

  /**
   * `(int) s` as PHP 5 computes it: leading white space, an optional sign,
   * then the longest run of digits; 0 when there are no digits.
   * The model does not saturate at the platform's integer width.
   */
  function IntVal(s: string): (r: int)
    ensures SkipSpace(s) == "" ==> r == 0
    ensures |SkipSpace(s)| > 0 && !IsDigit(SkipSpace(s)[0]) && SkipSpace(s)[0] != '-' && SkipSpace(s)[0] != '+' ==> r == 0
  {
    var t := SkipSpace(s);
    if |t| > 0 && t[0] == '-' then -(DigitRun(t[1..], 0).0 as int)
    else if |t| > 0 && t[0] == '+' then DigitRun(t[1..], 0).0
    else DigitRun(t, 0).0
  }

  function DigitChar(d: nat): (c: char)
    requires d < 10
    ensures IsDigit(c)
  {
    ('0' as int + d) as char
  }

  /** The decimal rendering of a non-negative integer, with no leading zeros. */
  function NatToString(n: nat): (r: string)
    ensures |r| > 0
    ensures forall k :: 0 <= k < |r| ==> IsDigit(r[k])
    ensures |r| > 1 ==> r[0] != '0'
  {
    if n < 10 then [DigitChar(n)] else NatToString(n / 10) + [DigitChar(n % 10)]
  }
}
