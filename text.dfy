/** String helpers shared by the date stamp, the title sanitiser and the
    card scraper: decimal digits, filtering by a character class and
    trimming a character class from both ends. */
module Text {

  /** A decimal digit, `0` to `9`. */
  predicate IsDigit(c: char)
  {
    '0' <= c <= '9'
  }

  /** The value of a decimal digit. */
  function DigitValue(c: char): (v: nat)
    requires IsDigit(c)
    ensures v < 10
  {
    c as int - '0' as int
  }

  function Pow10(n: nat): (p: nat)
    ensures p >= 1
  {
    if n == 0 then 1 else 10 * Pow10(n - 1)
  }

  /** `n` written in decimal with exactly `width` digits, zero-padded on the left. */
  function Digits(n: nat, width: nat): (s: string)
    requires n < Pow10(width)
    ensures |s| == width
    ensures forall i :: 0 <= i < |s| ==> IsDigit(s[i])
  {
    if width == 0 then "" else Digits(n / 10, width - 1) + [('0' as int + n % 10) as char]
  }

  /** The two digits of a number below 100, read back. */
  lemma DigitsTwoValue(n: nat)
    requires n < 100
    ensures 10 * DigitValue(Digits(n, 2)[0]) + DigitValue(Digits(n, 2)[1]) == n
  {
    assert Digits(n, 2) == Digits(n / 10, 1) + [('0' as int + n % 10) as char];
    assert Digits(n / 10, 1) == [('0' as int + n / 10) as char];
  }

  /** The one digit of a number below 10, read back. */
  lemma DigitsOneValue(n: nat)
    requires n < 10
    ensures DigitValue(Digits(n, 1)[0]) == n
  {
    assert Digits(n, 1) == [('0' as int + n) as char];
  }

  /** Two digits, read as a number and written back, are themselves. */
  lemma DigitsOfTwo(a: char, b: char)
    requires IsDigit(a) && IsDigit(b)
    ensures Digits(10 * DigitValue(a) + DigitValue(b), 2) == [a, b]
  {
    var n := 10 * DigitValue(a) + DigitValue(b);
    assert n / 10 == DigitValue(a) && n % 10 == DigitValue(b);
    assert Digits(n / 10, 1) == [('0' as int + DigitValue(a)) as char];
  }

  /** One digit, read as a number and written back, is itself. */
  lemma DigitsOfOne(a: char)
    requires IsDigit(a)
    ensures Digits(DigitValue(a), 1) == [a]
  {
  }

  /** The characters of `s` that satisfy `keep`, in their original order. */
  function Filter(s: string, keep: char -> bool): (r: string)
    ensures |r| <= |s|
    ensures forall i :: 0 <= i < |r| ==> keep(r[i])
  {
    if s == [] then [] else (if keep(s[0]) then [s[0]] else []) + Filter(s[1..], keep)
  }

  lemma {:induction false} FilterAppend(a: string, b: string, keep: char -> bool)
    ensures Filter(a + b, keep) == Filter(a, keep) + Filter(b, keep)
  {
    if a == [] {
      assert a + b == b;
    } else {
      assert (a + b)[0] == a[0];
      assert (a + b)[1..] == a[1..] + b;
      FilterAppend(a[1..], b, keep);
    }
  }

  /** Filtering a string whose every character is kept changes nothing. */
  lemma {:induction false} FilterKeepsAll(s: string, keep: char -> bool)
    requires forall i :: 0 <= i < |s| ==> keep(s[i])
    ensures Filter(s, keep) == s
  {
    if s != [] {
      FilterKeepsAll(s[1..], keep);
    }
  }

  /** Filtering a string none of whose characters is kept leaves nothing. */
  lemma {:induction false} FilterDropsAll(s: string, keep: char -> bool)
    requires forall i :: 0 <= i < |s| ==> !keep(s[i])
    ensures Filter(s, keep) == []
  {
    if s != [] {
      FilterDropsAll(s[1..], keep);
    }
  }

  /** Filtering by a wider class first does not change what a narrower class selects. */
  lemma {:induction false} FilterNarrower(s: string, wide: char -> bool, narrow: char -> bool)
    requires forall c :: narrow(c) ==> wide(c)
    ensures Filter(Filter(s, wide), narrow) == Filter(s, narrow)
  {
    if s != [] {
      FilterNarrower(s[1..], wide, narrow);
      if wide(s[0]) {
        var rest := Filter(s[1..], wide);
        assert Filter(s, wide) == [s[0]] + rest;
        assert ([s[0]] + rest)[0] == s[0] && ([s[0]] + rest)[1..] == rest;
        assert Filter([s[0]] + rest, narrow) == (if narrow(s[0]) then [s[0]] else []) + Filter(rest, narrow);
      } else {
        assert Filter(s, wide) == [] + Filter(s[1..], wide) == Filter(s[1..], wide);
        assert Filter(s, narrow) == [] + Filter(s[1..], narrow);
      }
    }
  }

  /** `s` without its leading characters of class `isSpace`. */
  function TrimStart(s: string, isSpace: char -> bool): (r: string)
    ensures |r| <= |s|
    ensures r != [] ==> !isSpace(r[0])
    ensures s != [] && isSpace(s[0]) ==> |r| < |s|
  {
    if s != [] && isSpace(s[0]) then TrimStart(s[1..], isSpace) else s
  }

  /** What TrimStart removes is a prefix of blanks. */
  lemma {:induction false} TrimStartSplits(s: string, isSpace: char -> bool)
    ensures s == s[..|s| - |TrimStart(s, isSpace)|] + TrimStart(s, isSpace)
    ensures forall i :: 0 <= i < |s| - |TrimStart(s, isSpace)| ==> isSpace(s[i])
  {
    if s != [] && isSpace(s[0]) {
      TrimStartSplits(s[1..], isSpace);
      var k := |s| - |TrimStart(s, isSpace)|;
      assert s[1..][..k - 1] == s[1..k];
      assert s == [s[0]] + s[1..];
      forall i | 1 <= i < k
        ensures isSpace(s[i])
      {
        assert s[i] == s[1..][i - 1];
      }
    }
  }

  /** Trimming the front of `u + v` stops inside `u` when `u` is not all blanks. */
  lemma {:induction false} TrimStartAppend(u: string, v: string, isSpace: char -> bool)
    requires TrimStart(u, isSpace) != []
    ensures TrimStart(u + v, isSpace) == TrimStart(u, isSpace) + v
  {
    if isSpace(u[0]) {
      assert (u + v)[1..] == u[1..] + v;
      TrimStartAppend(u[1..], v, isSpace);
    }
  }

  /** A run of blanks in front of text that does not start with a blank is trimmed exactly. */
  lemma {:induction false} TrimStartRun(run: string, v: string, isSpace: char -> bool)
    requires forall i :: 0 <= i < |run| ==> isSpace(run[i])
    requires v == [] || !isSpace(v[0])
    ensures TrimStart(run + v, isSpace) == v
  {
    if run != [] {
      assert (run + v)[1..] == run[1..] + v;
      TrimStartRun(run[1..], v, isSpace);
    } else {
      assert run + v == v;
    }
  }

  /** `s` without its trailing characters of class `isSpace`. */
  function TrimEnd(s: string, isSpace: char -> bool): (r: string)
    ensures |r| <= |s|
    ensures r != [] ==> !isSpace(r[|r| - 1]) && r[0] == s[0]
  {
    if s != [] && isSpace(s[|s| - 1]) then TrimEnd(s[..|s| - 1], isSpace) else s
  }

  /** What TrimEnd removes is a suffix of blanks. */
  lemma {:induction false} TrimEndSplits(s: string, isSpace: char -> bool)
    ensures s == TrimEnd(s, isSpace) + s[|TrimEnd(s, isSpace)|..]
    ensures forall i :: |TrimEnd(s, isSpace)| <= i < |s| ==> isSpace(s[i])
  {
    if s != [] && isSpace(s[|s| - 1]) {
      var init := s[..|s| - 1];
      TrimEndSplits(init, isSpace);
      var m := |TrimEnd(s, isSpace)|;
      assert init[..m] == s[..m];
      assert s == init + [s[|s| - 1]];
      forall i | m <= i < |s| - 1
        ensures isSpace(s[i])
      {
        assert s[i] == init[i];
      }
    }
  }

  /** `s` without the characters of class `isSpace` at either end. */
  function Trim(s: string, isSpace: char -> bool): (r: string)
    ensures |r| <= |s|
    ensures r != [] ==> !isSpace(r[0]) && !isSpace(r[|r| - 1])
  {
    TrimEnd(TrimStart(s, isSpace), isSpace)
  }

  /** Trimming characters that `keep` rejects does not change what `keep` selects. */
  lemma {:induction false} FilterTrim(s: string, isSpace: char -> bool, keep: char -> bool)
    requires forall c :: isSpace(c) ==> !keep(c)
    ensures Filter(Trim(s, isSpace), keep) == Filter(s, keep)
  {
    FilterTrimStart(s, isSpace, keep);
    FilterTrimEnd(TrimStart(s, isSpace), isSpace, keep);
  }

  lemma {:induction false} FilterTrimStart(s: string, isSpace: char -> bool, keep: char -> bool)
    requires forall c :: isSpace(c) ==> !keep(c)
    ensures Filter(TrimStart(s, isSpace), keep) == Filter(s, keep)
  {
    if s != [] && isSpace(s[0]) {
      FilterTrimStart(s[1..], isSpace, keep);
    }
  }

  lemma {:induction false} FilterTrimEnd(s: string, isSpace: char -> bool, keep: char -> bool)
    requires forall c :: isSpace(c) ==> !keep(c)
    ensures Filter(TrimEnd(s, isSpace), keep) == Filter(s, keep)
  {
    if s != [] && isSpace(s[|s| - 1]) {
      var init := s[..|s| - 1];
      FilterTrimEnd(init, isSpace, keep);
      assert s == init + [s[|s| - 1]];
      FilterAppend(init, [s[|s| - 1]], keep);
      assert Filter([s[|s| - 1]], keep) == [] + Filter([], keep);
    }
  }

  /** Every character of the trimmed string satisfies what every character of the original does. */
  lemma TrimKeepsClass(s: string, isSpace: char -> bool, p: char -> bool)
    requires forall i :: 0 <= i < |s| ==> p(s[i])
    ensures forall i :: 0 <= i < |Trim(s, isSpace)| ==> p(Trim(s, isSpace)[i])
  {
    TrimStartKeepsClass(s, isSpace, p);
    TrimEndKeepsClass(TrimStart(s, isSpace), isSpace, p);
  }

  lemma TrimStartKeepsClass(s: string, isSpace: char -> bool, p: char -> bool)
    requires forall i :: 0 <= i < |s| ==> p(s[i])
    ensures forall i :: 0 <= i < |TrimStart(s, isSpace)| ==> p(TrimStart(s, isSpace)[i])
  {
    var t := TrimStart(s, isSpace);
    TrimStartSplits(s, isSpace);
    assert forall i :: 0 <= i < |t| ==> t[i] == s[|s| - |t| + i];
  }

  lemma TrimEndKeepsClass(s: string, isSpace: char -> bool, p: char -> bool)
    requires forall i :: 0 <= i < |s| ==> p(s[i])
    ensures forall i :: 0 <= i < |TrimEnd(s, isSpace)| ==> p(TrimEnd(s, isSpace)[i])
  {
    var r := TrimEnd(s, isSpace);
    TrimEndSplits(s, isSpace);
    assert forall i :: 0 <= i < |r| ==> r[i] == s[i];
  }

  /** A string that neither starts nor ends with a blank is its own trim. */
  lemma TrimUnchanged(s: string, isSpace: char -> bool)
    requires s != [] ==> !isSpace(s[0]) && !isSpace(s[|s| - 1])
    ensures Trim(s, isSpace) == s
  {
  }
}
