/** The file name a video is saved under (main.py `download_video`, lines 386-388):
    delete every character outside `[\w\s-]`, strip surrounding whitespace,
    replace each run of `-` and whitespace with one `_`, append `.mp4`.

    Character classes are those Python's `re` (Unicode patterns) and
    `str.strip` use, restricted to ASCII. */
module FileNames {
  import opened Text

  predicate IsAsciiLetter(c: char)
  {
    'a' <= c <= 'z' || 'A' <= c <= 'Z'
  }

  predicate IsAlnum(c: char)
  {
    IsAsciiLetter(c) || IsDigit(c)
  }

  /** `\w`: letters, digits and the underscore. */
  predicate IsWordChar(c: char)
  {
    IsAlnum(c) || c == '_'
  }

  /** `\s` and `str.isspace()` on ASCII: tab, line feed, vertical tab, form
      feed, carriage return (9-13), the separators 28-31, and space (32). */
  predicate IsSpace(c: char)
  {
    9 <= c as int <= 13 || 28 <= c as int <= 32
  }

  /** `[\w\s-]`: the characters the first substitution keeps. */
  predicate IsAllowed(c: char)
  {
    IsWordChar(c) || IsSpace(c) || c == '-'
  }

  /** `[-\s]`: the characters whose runs become one underscore. */
  predicate IsSeparator(c: char)
  {
    c == '-' || IsSpace(c)
  }

  const Extension: string := ".mp4"

  /** `re.sub(r'[-\s]+', '_', s)`: scanning left to right, each maximal run of
      separators is replaced by a single `_`; everything else is copied. */
  function Collapse(s: string): (r: string)
    ensures |r| <= |s|
    ensures forall i :: 0 <= i < |r| ==> !IsSeparator(r[i])
    decreases |s|
  {
    if s == [] then []
    else if IsSeparator(s[0]) then "_" + Collapse(TrimStart(s, IsSeparator))
    else [s[0]] + Collapse(s[1..])
  }

  /** Collapsing text made of `[\w\s-]` leaves only word characters. */
  lemma {:induction false} CollapseWordChars(s: string)
    requires forall i :: 0 <= i < |s| ==> IsAllowed(s[i])
    ensures forall i :: 0 <= i < |Collapse(s)| ==> IsWordChar(Collapse(s)[i])
    decreases |s|
  {
    if s != [] {
      if IsSeparator(s[0]) {
        var rest := TrimStart(s, IsSeparator);
        TrimStartSplits(s, IsSeparator);
        assert forall i :: 0 <= i < |rest| ==> rest[i] == s[|s| - |rest| + i];
        CollapseWordChars(rest);
      } else {
        CollapseWordChars(s[1..]);
      }
    }
  }

  /** The stem of the saved file name: the sanitised title. */
  function Stem(title: string): (r: string)
    ensures |r| <= |title|
    ensures forall i :: 0 <= i < |r| ==> IsWordChar(r[i])
  {
    var kept := Filter(title, IsAllowed);
    TrimKeepsClass(kept, IsSpace, IsAllowed);
    CollapseWordChars(Trim(kept, IsSpace));
    Collapse(Trim(kept, IsSpace))
  }

  /** `f"{safe_title}.mp4"`. */
  function FileName(title: string): (r: string)
    ensures |r| == |Stem(title)| + |Extension| && r[..|Stem(title)|] == Stem(title)
    ensures r[|r| - |Extension|..] == Extension
    ensures forall i :: 0 <= i < |r| - |Extension| ==> IsWordChar(r[i])
  {
    Stem(title) + Extension
  }

  /** Collapsing keeps the letters and digits, in their order. */
  lemma {:induction false} CollapseKeepsAlnums(s: string)
    ensures Filter(Collapse(s), IsAlnum) == Filter(s, IsAlnum)
    decreases |s|
  {
    if s != [] {
      if IsSeparator(s[0]) {
        var rest := TrimStart(s, IsSeparator);
        var k := |s| - |rest|;
        TrimStartSplits(s, IsSeparator);
        CollapseKeepsAlnums(rest);
        assert s == s[..k] + rest;
        FilterAppend(s[..k], rest, IsAlnum);
        FilterDropsAll(s[..k], IsAlnum);
        assert Filter("_" + Collapse(rest), IsAlnum) == [] + Filter(Collapse(rest), IsAlnum);
      } else {
        CollapseKeepsAlnums(s[1..]);
        var c := Collapse(s[1..]);
        assert ([s[0]] + c)[0] == s[0] && ([s[0]] + c)[1..] == c;
      }
    }
  }

  /** A string without separators is left as it is by the collapsing step. */
  lemma {:induction false} CollapseWithoutSeparators(s: string)
    requires forall i :: 0 <= i < |s| ==> !IsSeparator(s[i])
    ensures Collapse(s) == s
  {
    if s != [] {
      CollapseWithoutSeparators(s[1..]);
    }
  }

  /** Collapsing is local: a run of separators never reaches back across
      a character that is not a separator, so text cut after such a
      character collapses piece by piece. */
  lemma {:induction false} CollapseAppend(x: string, u: string)
    requires x == [] || !IsSeparator(x[|x| - 1])
    ensures Collapse(x + u) == Collapse(x) + Collapse(u)
    decreases |x|
  {
    if x == [] {
      assert x + u == u;
    } else if IsSeparator(x[0]) {
      var rest := TrimStart(x, IsSeparator);
      TrimStartSplits(x, IsSeparator);
      if rest == [] {
        assert false;
      }
      assert rest[|rest| - 1] == x[|x| - 1];
      TrimStartAppend(x, u, IsSeparator);
      assert (x + u)[0] == x[0];
      CollapseAppend(rest, u);
      assert "_" + (Collapse(rest) + Collapse(u)) == "_" + Collapse(rest) + Collapse(u);
    } else {
      var tail := x[1..];
      assert tail == [] || tail[|tail| - 1] == x[|x| - 1];
      CollapseAppend(tail, u);
      assert x == [x[0]] + tail && x + u == [x[0]] + (tail + u);
      CollapseCons(x[0], tail);
      CollapseCons(x[0], tail + u);
      assert [x[0]] + (Collapse(tail) + Collapse(u)) == [x[0]] + Collapse(tail) + Collapse(u);
    }
  }

  /** A character that is not a separator is copied. */
  lemma CollapseCons(c: char, t: string)
    requires !IsSeparator(c)
    ensures Collapse([c] + t) == [c] + Collapse(t)
  {
    assert ([c] + t)[0] == c && ([c] + t)[1..] == t;
  }

  /** A leading run of separators becomes one `_`. */
  lemma CollapseLeadingRun(sep: string, y: string)
    requires |sep| > 0 && forall i :: 0 <= i < |sep| ==> IsSeparator(sep[i])
    requires y == [] || !IsSeparator(y[0])
    ensures Collapse(sep + y) == "_" + Collapse(y)
  {
    assert (sep + y)[0] == sep[0];
    TrimStartRun(sep, y, IsSeparator);
  }

  /** Text cut before a piece that collapses to `_` + `cy`, after a
      character that is not a separator, collapses to its head followed by
      that underscore and `cy`. */
  lemma CollapseBeforeRun(x: string, u: string, cy: string)
    requires x == [] || !IsSeparator(x[|x| - 1])
    requires Collapse(u) == "_" + cy
    ensures Collapse(x + u) == Collapse(x) + "_" + cy
  {
    CollapseAppend(x, u);
    assert Collapse(x) + ("_" + cy) == Collapse(x) + "_" + cy;
  }

  /** Each maximal run of separators becomes exactly one `_`: text split
      around a run collapses as its two sides joined by a single
      underscore. With CollapseWithoutSeparators this determines `Collapse`. */
  lemma CollapseJoin(x: string, sep: string, y: string)
    requires x == [] || !IsSeparator(x[|x| - 1])
    requires |sep| > 0 && forall i :: 0 <= i < |sep| ==> IsSeparator(sep[i])
    requires y == [] || !IsSeparator(y[0])
    ensures Collapse(x + (sep + y)) == Collapse(x) + "_" + Collapse(y)
  {
    CollapseLeadingRun(sep, y);
    CollapseBeforeRun(x, sep + y, Collapse(y));
  }

  /** Two separator-free words around a run of separators are joined by one `_`. */
  lemma CollapseJoinWords(a: string, sep: string, b: string)
    requires forall i :: 0 <= i < |a| ==> !IsSeparator(a[i])
    requires |sep| > 0 && forall i :: 0 <= i < |sep| ==> IsSeparator(sep[i])
    requires forall i :: 0 <= i < |b| ==> !IsSeparator(b[i])
    ensures Collapse(a + (sep + b)) == a + "_" + b
  {
    CollapseJoin(a, sep, b);
    CollapseWithoutSeparators(a);
    CollapseWithoutSeparators(b);
  }

  /** Sanitising keeps every letter and digit of the title, in order, and
      adds none: only punctuation, whitespace and hyphens are dropped or
      rewritten. */
  lemma StemKeepsAlnums(title: string)
    ensures Filter(Stem(title), IsAlnum) == Filter(title, IsAlnum)
  {
    var kept := Filter(title, IsAllowed);
    var stripped := Trim(kept, IsSpace);
    CollapseKeepsAlnums(stripped);
    FilterTrim(kept, IsSpace, IsAlnum);
    FilterNarrower(title, IsAllowed, IsAlnum);
  }

  /** A title made of word characters only is its own stem. */
  lemma StemOfWordString(w: string)
    requires forall i :: 0 <= i < |w| ==> IsWordChar(w[i])
    ensures Stem(w) == w
  {
    assert forall i :: 0 <= i < |w| ==> IsAllowed(w[i]) && !IsSeparator(w[i]);
    FilterKeepsAll(w, IsAllowed);
    assert Filter(w, IsAllowed) == w;
    TrimUnchanged(w, IsSpace);
    assert Trim(w, IsSpace) == w;
    CollapseWithoutSeparators(w);
  }

  /** Sanitising is idempotent: the stem, sanitised again, is unchanged. */
  lemma StemIdempotent(title: string)
    ensures Stem(Stem(title)) == Stem(title)
  {
    StemOfWordString(Stem(title));
  }
}
