/** The video lister (main.py `get_video_links`, lines 292-372): the card
    scraping script run in the page, then the time-of-day filter.

    The page is given as the sequence of its `.card` elements, each reduced
    to what the script reads from it. */
module VideoList {
  import opened Wrappers
  import opened Text

  /** The card's `a.download.external` element: its `href` attribute (null
      when absent) and the `path` query parameter of that href, as
      `URLSearchParams.get('path')` returns it. */
  datatype Anchor = Anchor(href: Option<string>, path: Option<string>)

  /** One `.card`: its download anchor, the `textContent` of its
      `.product-name` element, and the `src` attribute of its `video`
      element (None when there is no video element or no `src`). */
  datatype Card = Card(download: Option<Anchor>, titleText: Option<string>, videoSrc: Option<string>)

  /** The object the script pushes for a kept card. */
  datatype VideoRecord = VideoRecord(
    title: string,
    downloadUrl: string,
    directUrl: Option<string>,
    videoSrc: Option<string>,
    index: nat)

  /** JavaScript truthiness of a string-or-null. */
  predicate Truthy(s: Option<string>)
  {
    s.Some? && s.value != ""
  }

  /** The characters `String.prototype.trim` removes: ECMAScript WhiteSpace
      and LineTerminator. */
  predicate IsJsSpace(c: char)
  {
    var n := c as int;
    9 <= n <= 13 || n == 0x20 || n == 0xA0 || n == 0x1680 || 0x2000 <= n <= 0x200A
    || n == 0x2028 || n == 0x2029 || n == 0x202F || n == 0x205F || n == 0x3000 || n == 0xFEFF
  }

  /** `if (downloadLink && titleElement)`. */
  predicate HasLinkAndTitle(c: Card)
  {
    c.download.Some? && c.titleText.Some?
  }

  /** The script throws on this card: `getAttribute('href')` gave null and
      `downloadUrl.split('?')` raises a TypeError. */
  function Throws(c: Card): (t: bool)
    ensures t ==> HasLinkAndTitle(c)
  {
    HasLinkAndTitle(c) && c.download.value.href.None?
  }

  /** The script pushes a record for this card: a card with a link and a
      title that does not throw, and has a `path` value or a video src. */
  function Yields(c: Card): (y: bool)
    ensures y ==> HasLinkAndTitle(c) && !Throws(c)
    ensures HasLinkAndTitle(c) && !Throws(c) ==> (y <==> Truthy(c.download.value.path) || Truthy(c.videoSrc))
  {
    HasLinkAndTitle(c) && c.download.value.href.Some?
    && (Truthy(c.download.value.path) || Truthy(c.videoSrc))
  }

  /** The record pushed for a card: its position, the href, the `path`
      value and video src as read, and the title without surrounding
      whitespace. */
  function RecordOf(c: Card, index: nat): (r: VideoRecord)
    requires Yields(c)
    ensures r.index == index && Some(r.downloadUrl) == c.download.value.href
    ensures r.directUrl == c.download.value.path && r.videoSrc == c.videoSrc
    ensures Truthy(r.directUrl) || Truthy(r.videoSrc)
    ensures |r.title| <= |c.titleText.value|
    ensures r.title != [] ==> !IsJsSpace(r.title[0]) && !IsJsSpace(r.title[|r.title| - 1])
  {
    VideoRecord(Trim(c.titleText.value, IsJsSpace), c.download.value.href.value,
                c.download.value.path, c.videoSrc, index)
  }

  /** The records the script returns when no card throws: one per card
      that yields, in card order (see ExtractedRecords). */
  function Extracted(cards: seq<Card>): (r: seq<VideoRecord>)
    ensures |r| <= |cards|
  {
    if cards == [] then []
    else
      var n := |cards| - 1;
      Extracted(cards[..n]) + (if Yields(cards[n]) then [RecordOf(cards[n], n)] else [])
  }

  /** A card yields a record exactly when it has a download anchor with an
      href, a title, and a non-empty `path` value or video src; each record
      is built from the card at its `index`, and the indices are strictly
      increasing card positions. */
  lemma {:induction false} ExtractedRecords(cards: seq<Card>)
    ensures forall k :: 0 <= k < |Extracted(cards)| ==>
              var v := Extracted(cards)[k];
              v.index < |cards| && Yields(cards[v.index]) && v == RecordOf(cards[v.index], v.index)
    ensures forall k, l :: 0 <= k < l < |Extracted(cards)| ==> Extracted(cards)[k].index < Extracted(cards)[l].index
    ensures forall i :: 0 <= i < |cards| && Yields(cards[i]) ==>
              exists k :: 0 <= k < |Extracted(cards)| && Extracted(cards)[k].index == i
  {
    if cards != [] {
      var n := |cards| - 1;
      var init := cards[..n];
      ExtractedRecords(init);
      var prev := Extracted(init);
      var r := Extracted(cards);
      assert forall i :: 0 <= i < n ==> init[i] == cards[i];
      assert forall k :: 0 <= k < |prev| ==> r[k] == prev[k];
      forall i | 0 <= i < |cards| && Yields(cards[i])
        ensures exists k :: 0 <= k < |r| && r[k].index == i
      {
        if i < n {
          assert Yields(init[i]);
          var k :| 0 <= k < |prev| && prev[k].index == i;
          assert r[k].index == i;
        } else {
          assert r[|prev|].index == i;
        }
      }
    }
  }

  /** The card script (main.py lines 306-339): walks the cards in order and
      pushes a record for each that yields. None when the script throws. */
  method ExtractCards(cards: seq<Card>) returns (r: Option<seq<VideoRecord>>)
    ensures r.None? <==> exists i :: 0 <= i < |cards| && Throws(cards[i])
    ensures r.Some? ==> r.value == Extracted(cards)
  {
    var videos: seq<VideoRecord> := [];
    var i := 0;
    while i < |cards|
      invariant 0 <= i <= |cards|
      invariant videos == Extracted(cards[..i])
      invariant forall j :: 0 <= j < i ==> !Throws(cards[j])
    {
      var card := cards[i];
      assert cards[..i + 1][..i] == cards[..i];
      if card.download.Some? && card.titleText.Some? {
        var href := card.download.value.href;
        if href.None? {
          return None;
        }
        if Truthy(card.download.value.path) || Truthy(card.videoSrc) {
          videos := videos + [RecordOf(card, i)];
        }
      }
      i := i + 1;
    }
    assert cards[..|cards|] == cards;
    return Some(videos);
  }

  // The time-of-day filter (main.py lines 341-368).

  const WindowStart: nat := 1200
  const WindowEnd: nat := 1330

  /** The two groups of `(\d{1,2})h(\d{2})`, as integers. */
  datatype Clock = Clock(hour: nat, minute: nat)

  /** `hour * 100 + minute`. */
  function ClockValue(c: Clock): nat
  {
    c.hour * 100 + c.minute
  }

  /** The match of `(\d{1,2})h(\d{2})` that starts at position `i`, if any.
      The hour is greedy: two digits are tried first, then one. */
  function MatchAt(s: string, i: nat): (m: Option<Clock>)
    ensures m.Some? ==> i < |s| && IsDigit(s[i]) && m.value.hour < 100 && m.value.minute < 100
  {
    if i + 5 <= |s| && IsDigit(s[i]) && IsDigit(s[i + 1]) && s[i + 2] == 'h'
       && IsDigit(s[i + 3]) && IsDigit(s[i + 4]) then
      Some(Clock(10 * DigitValue(s[i]) + DigitValue(s[i + 1]), 10 * DigitValue(s[i + 3]) + DigitValue(s[i + 4])))
    else if i + 4 <= |s| && IsDigit(s[i]) && s[i + 1] == 'h' && IsDigit(s[i + 2]) && IsDigit(s[i + 3]) then
      Some(Clock(DigitValue(s[i]), 10 * DigitValue(s[i + 2]) + DigitValue(s[i + 3])))
    else
      None
  }

  /** What a match reads is what the text says: the matched text is the
      hour in two digits (or one, for an hour below 10), `h`, and the minute
      in two digits. */
  lemma MatchAtReads(s: string, i: nat)
    requires MatchAt(s, i).Some?
    ensures var c := MatchAt(s, i).value;
            || (i + 5 <= |s| && s[i..i + 5] == Digits(c.hour, 2) + "h" + Digits(c.minute, 2))
            || (c.hour < 10 && i + 4 <= |s| && s[i..i + 4] == Digits(c.hour, 1) + "h" + Digits(c.minute, 2))
  {
    if i + 5 <= |s| && IsDigit(s[i]) && IsDigit(s[i + 1]) && s[i + 2] == 'h'
       && IsDigit(s[i + 3]) && IsDigit(s[i + 4]) {
      DigitsOfTwo(s[i], s[i + 1]);
      DigitsOfTwo(s[i + 3], s[i + 4]);
      assert s[i..i + 5] == [s[i], s[i + 1]] + "h" + [s[i + 3], s[i + 4]];
    } else {
      DigitsOfOne(s[i]);
      DigitsOfTwo(s[i + 2], s[i + 3]);
      assert s[i..i + 4] == [s[i]] + "h" + [s[i + 2], s[i + 3]];
    }
  }

  /** A time written `HHhMM` at position `i` is matched there and read as
      that hour and minute. */
  lemma MatchAtClock(s: string, i: nat, h: nat, m: nat)
    requires h < 100 && m < 100 && i + 5 <= |s|
    requires s[i..i + 5] == Digits(h, 2) + "h" + Digits(m, 2)
    ensures MatchAt(s, i) == Some(Clock(h, m))
  {
    DigitsTwoValue(h);
    DigitsTwoValue(m);
    var t := s[i..i + 5];
    assert s[i] == t[0] && s[i + 1] == t[1] && s[i + 2] == t[2] && s[i + 3] == t[3] && s[i + 4] == t[4];
  }

  /** A time written `HhMM` with a one-digit hour, at position `i`, is
      matched there and read as that hour and minute: the two-digit hour
      is tried first and fails on the `h`, so the one-digit reading is
      taken. */
  lemma MatchAtShortClock(s: string, i: nat, h: nat, m: nat)
    requires h < 10 && m < 100 && i + 4 <= |s|
    requires s[i..i + 4] == Digits(h, 1) + "h" + Digits(m, 2)
    ensures MatchAt(s, i) == Some(Clock(h, m))
  {
    DigitsOneValue(h);
    DigitsTwoValue(m);
    var t := s[i..i + 4];
    assert s[i] == t[0] && s[i + 1] == t[1] && s[i + 2] == t[2] && s[i + 3] == t[3];
  }

  /** `re.search` from position `from`: the leftmost position where a match starts. */
  function FindClock(s: string, from: nat): (r: Option<nat>)
    ensures r.Some? ==> from <= r.value < |s| && MatchAt(s, r.value).Some?
    ensures forall j :: from <= j < (if r.Some? then r.value else |s|) ==> MatchAt(s, j).None?
    decreases |s| - from
  {
    if from >= |s| then None
    else if MatchAt(s, from).Some? then Some(from)
    else FindClock(s, from + 1)
  }

  /** `hour * 100 + minute` of the leftmost match in the title, if there is one. */
  function TimeValue(title: string): Option<nat>
  {
    match FindClock(title, 0)
    case None => None
    case Some(i) => Some(ClockValue(MatchAt(title, i).value))
  }

  /** There is no time exactly when the pattern matches nowhere; otherwise
      the time is read from the leftmost match. */
  lemma TimeValueMeaning(title: string)
    ensures TimeValue(title).None? <==> forall i: nat :: MatchAt(title, i).None?
    ensures TimeValue(title).Some? ==>
              exists i: nat :: && MatchAt(title, i).Some?
                               && TimeValue(title).value == ClockValue(MatchAt(title, i).value)
                               && forall j: nat :: j < i ==> MatchAt(title, j).None?
  {
  }

  /** The filter's decision: a title whose time lies in [12:00, 13:30] is
      kept, and so is one with no time in it. */
  predicate InTimeWindow(title: string)
  {
    match TimeValue(title)
    case None => true
    case Some(v) => WindowStart <= v <= WindowEnd
  }

  /** The records the filter keeps, in their order. */
  function Filtered(videos: seq<VideoRecord>): (r: seq<VideoRecord>)
    ensures |r| <= |videos|
    ensures forall k :: 0 <= k < |r| ==> InTimeWindow(r[k].title)
  {
    if videos == [] then []
    else
      var n := |videos| - 1;
      Filtered(videos[..n]) + (if InTimeWindow(videos[n].title) then [videos[n]] else [])
  }

  /** The filter loop: appends each record whose title passes. */
  method FilterByTime(videos: seq<VideoRecord>) returns (kept: seq<VideoRecord>)
    ensures kept == Filtered(videos)
  {
    kept := [];
    var i := 0;
    while i < |videos|
      invariant 0 <= i <= |videos|
      invariant kept == Filtered(videos[..i])
    {
      var video := videos[i];
      assert videos[..i + 1][..i] == videos[..i];
      if InTimeWindow(video.title) {
        kept := kept + [video];
      }
      i := i + 1;
    }
    assert videos[..|videos|] == videos;
  }

  /** `get_video_links`: the scraped records that pass the filter; the empty
      list when the card script throws. */
  method ListVideos(cards: seq<Card>) returns (videos: seq<VideoRecord>)
    ensures (exists i :: 0 <= i < |cards| && Throws(cards[i])) ==> videos == []
    ensures (forall i :: 0 <= i < |cards| ==> !Throws(cards[i])) ==> videos == Filtered(Extracted(cards))
  {
    var extracted := ExtractCards(cards);
    if extracted.None? {
      return [];
    }
    videos := FilterByTime(extracted.value);
  }

  // Properties of the filter.

  /** `xs` is `ys` with some elements left out, the order kept: `idx` lists
      the positions in `ys` that `xs` takes. */
  ghost predicate SubsequenceAt(xs: seq<VideoRecord>, ys: seq<VideoRecord>, idx: seq<nat>)
  {
    && |idx| == |xs|
    && (forall k :: 0 <= k < |idx| ==> idx[k] < |ys| && xs[k] == ys[idx[k]])
    && (forall k, l :: 0 <= k < l < |idx| ==> idx[k] < idx[l])
  }

  /** The filtered list is an order-preserving subsequence of its input. */
  lemma {:induction false} FilteredIsSubsequence(videos: seq<VideoRecord>)
    ensures exists idx :: SubsequenceAt(Filtered(videos), videos, idx)
  {
    if videos == [] {
      assert SubsequenceAt(Filtered(videos), videos, []);
    } else {
      var n := |videos| - 1;
      var init, last := videos[..n], videos[n];
      assert videos == init + [last];
      FilteredIsSubsequence(init);
      var idx :| SubsequenceAt(Filtered(init), init, idx);
      SubsequenceExtend(Filtered(init), init, idx, last);
      if InTimeWindow(last.title) {
        assert Filtered(videos) == Filtered(init) + [last];
        assert SubsequenceAt(Filtered(videos), videos, idx + [n]);
      } else {
        assert Filtered(videos) == Filtered(init);
        assert SubsequenceAt(Filtered(videos), videos, idx);
      }
    }
  }

  /** A subsequence stays one when an element is added to the end of the
      sequence, with or without adding it to the subsequence too. */
  lemma SubsequenceExtend(xs: seq<VideoRecord>, ys: seq<VideoRecord>, idx: seq<nat>, y: VideoRecord)
    requires SubsequenceAt(xs, ys, idx)
    ensures SubsequenceAt(xs, ys + [y], idx)
    ensures SubsequenceAt(xs + [y], ys + [y], idx + [|ys|])
  {
  }

  /** A record survives the filter exactly when it is in the input and its title passes. */
  lemma {:induction false} FilteredMembers(videos: seq<VideoRecord>, v: VideoRecord)
    ensures v in Filtered(videos) <==> v in videos && InTimeWindow(v.title)
  {
    if videos != [] {
      var n := |videos| - 1;
      var init := videos[..n];
      FilteredMembers(init, v);
      assert videos == init + [videos[n]];
    }
  }

  /** Filtering twice is filtering once. */
  lemma {:induction false} FilteredIdempotent(videos: seq<VideoRecord>)
    ensures Filtered(Filtered(videos)) == Filtered(videos)
  {
    if videos != [] {
      var n := |videos| - 1;
      var init := videos[..n];
      FilteredIdempotent(init);
      var f := Filtered(videos);
      if InTimeWindow(videos[n].title) {
        assert f == Filtered(init) + [videos[n]];
        assert f[..|f| - 1] == Filtered(init);
        assert Filtered(f) == Filtered(f[..|f| - 1]) + [videos[n]];
      } else {
        assert f == Filtered(init);
      }
    }
  }

  /** Filtering keeps the records' card indices strictly increasing. */
  lemma FilteredKeepsIndexOrder(videos: seq<VideoRecord>)
    requires forall k, l :: 0 <= k < l < |videos| ==> videos[k].index < videos[l].index
    ensures forall k, l :: 0 <= k < l < |Filtered(videos)| ==> Filtered(videos)[k].index < Filtered(videos)[l].index
  {
    FilteredIsSubsequence(videos);
    var idx :| SubsequenceAt(Filtered(videos), videos, idx);
  }

  /** Every record `get_video_links` returns comes from a distinct card, in
      page order, passes the time filter and has a direct URL candidate. */
  lemma ListedVideosAreDownloadable(cards: seq<Card>)
    ensures forall k :: 0 <= k < |Filtered(Extracted(cards))| ==>
              var v := Filtered(Extracted(cards))[k];
              v.index < |cards| && InTimeWindow(v.title) && (Truthy(v.directUrl) || Truthy(v.videoSrc))
    ensures forall k, l :: 0 <= k < l < |Filtered(Extracted(cards))| ==>
              Filtered(Extracted(cards))[k].index < Filtered(Extracted(cards))[l].index
  {
    var e := Extracted(cards);
    ExtractedRecords(cards);
    FilteredKeepsIndexOrder(e);
    forall k | 0 <= k < |Filtered(e)|
      ensures Filtered(e)[k].index < |cards| && (Truthy(Filtered(e)[k].directUrl) || Truthy(Filtered(e)[k].videoSrc))
    {
      FilteredMembers(e, Filtered(e)[k]);
      var j :| 0 <= j < |e| && e[j] == Filtered(e)[k];
    }
  }

  // The window's boundaries.

  /** A title that opens with a two-digit hour and two-digit minute is
      judged by that time. */
  lemma LeadingClock(title: string)
    requires |title| >= 5 && IsDigit(title[0]) && IsDigit(title[1]) && title[2] == 'h'
             && IsDigit(title[3]) && IsDigit(title[4])
    ensures TimeValue(title) == Some(100 * (10 * DigitValue(title[0]) + DigitValue(title[1]))
                                     + 10 * DigitValue(title[3]) + DigitValue(title[4]))
  {
    assert MatchAt(title, 0).Some?;
  }

  lemma WindowBoundaries()
    ensures InTimeWindow("12h00") && InTimeWindow("13h30")
    ensures !InTimeWindow("11h59") && !InTimeWindow("13h31")
  {
    LeadingClock("12h00");
    LeadingClock("13h30");
    LeadingClock("11h59");
    LeadingClock("13h31");
  }

  /** A title in which `(\d{1,2})h(\d{2})` matches nowhere is kept. */
  lemma NoClockKept(title: string)
    requires forall i: nat :: MatchAt(title, i).None?
    ensures InTimeWindow(title)
  {
  }

  /** The filter keeps a title exactly when the pattern matches nowhere in
      it, or its leftmost match reads a time from 12:00 to 13:30. */
  lemma InTimeWindowMeaning(title: string)
    ensures InTimeWindow(title) <==>
              || (forall i: nat :: MatchAt(title, i).None?)
              || exists i: nat :: && MatchAt(title, i).Some?
                                  && (forall j: nat :: j < i ==> MatchAt(title, j).None?)
                                  && WindowStart <= ClockValue(MatchAt(title, i).value) <= WindowEnd
  {
    TimeValueMeaning(title);
    var t := TimeValue(title);
    if t.Some? {
      var i: nat :| MatchAt(title, i).Some? && t.value == ClockValue(MatchAt(title, i).value)
                    && forall j: nat :: j < i ==> MatchAt(title, j).None?;
    }
  }

  /** A title in the site's format, a `DD/MM/YYYY` date, a space and an
      `HHhMM` time, is judged by its time: the date never matches. */
  lemma DatedTitle(title: string)
    requires |title| >= 16 && title[2] == '/' && title[5] == '/' && title[10] == ' '
    requires forall k :: 0 <= k < 10 && k != 2 && k != 5 ==> IsDigit(title[k])
    requires IsDigit(title[11]) && IsDigit(title[12]) && title[13] == 'h' && IsDigit(title[14]) && IsDigit(title[15])
    ensures TimeValue(title) == Some(100 * (10 * DigitValue(title[11]) + DigitValue(title[12]))
                                     + 10 * DigitValue(title[14]) + DigitValue(title[15]))
  {
    assert MatchAt(title, 11).Some?;
    assert forall j :: 0 <= j < 11 ==> MatchAt(title, j).None? by {
      assert !IsDigit(title[2]) && !IsDigit(title[5]) && !IsDigit(title[10]);
    }
    FindClockSkips(title, 0, 11);
  }

  /** The search passes over positions where nothing matches. */
  lemma {:induction false} FindClockSkips(s: string, from: nat, at: nat)
    requires from <= at < |s| && MatchAt(s, at).Some?
    requires forall j :: from <= j < at ==> MatchAt(s, j).None?
    ensures FindClock(s, from) == Some(at)
    decreases at - from
  {
    if from < at {
      FindClockSkips(s, from + 1, at);
    }
  }

  /** A title in the site's own format: "14/06/2025 12h00" is kept and
      "14/06/2025 11h00" is dropped. */
  lemma DatedTitles()
    ensures InTimeWindow("14/06/2025 12h00")
    ensures !InTimeWindow("14/06/2025 11h00")
  {
    DatedTitle("14/06/2025 12h00");
    DatedTitle("14/06/2025 11h00");
  }

  lemma ExtractedSnoc(cards: seq<Card>, c: Card)
    ensures Extracted(cards + [c]) == Extracted(cards) + (if Yields(c) then [RecordOf(c, |cards|)] else [])
  {
    assert (cards + [c])[..|cards|] == cards;
  }

  lemma FilteredSnoc(videos: seq<VideoRecord>, v: VideoRecord)
    ensures Filtered(videos + [v]) == Filtered(videos) + (if InTimeWindow(v.title) then [v] else [])
  {
    assert (videos + [v])[..|videos|] == videos;
  }

  function CardWithTitle(a: Anchor, title: string): Card
  {
    Card(Some(a), Some(title), None)
  }

  /** Five cards that each yield a record become five records, in order. */
  lemma {:induction false} ExtractedFive(c0: Card, c1: Card, c2: Card, c3: Card, c4: Card)
    requires Yields(c0) && Yields(c1) && Yields(c2) && Yields(c3) && Yields(c4)
    ensures Extracted([c0, c1, c2, c3, c4])
            == [RecordOf(c0, 0), RecordOf(c1, 1), RecordOf(c2, 2), RecordOf(c3, 3), RecordOf(c4, 4)]
  {
    var r0, r1, r2, r3, r4 := RecordOf(c0, 0), RecordOf(c1, 1), RecordOf(c2, 2), RecordOf(c3, 3), RecordOf(c4, 4);
    assert Extracted([c0]) == [r0] by {
      ExtractedStep([], c0, []);
      assert [] + [c0] == [c0];
    }
    assert Extracted([c0, c1]) == [r0, r1] by {
      ExtractedStep([c0], c1, [r0]);
      assert [c0] + [c1] == [c0, c1];
    }
    assert Extracted([c0, c1, c2]) == [r0, r1, r2] by {
      ExtractedStep([c0, c1], c2, [r0, r1]);
      assert [c0, c1] + [c2] == [c0, c1, c2];
    }
    assert Extracted([c0, c1, c2, c3]) == [r0, r1, r2, r3] by {
      ExtractedStep([c0, c1, c2], c3, [r0, r1, r2]);
      assert [c0, c1, c2] + [c3] == [c0, c1, c2, c3];
    }
    ExtractedStep([c0, c1, c2, c3], c4, [r0, r1, r2, r3]);
    assert [c0, c1, c2, c3] + [c4] == [c0, c1, c2, c3, c4];
  }

  /** One more yielding card appends its record. */
  lemma ExtractedStep(cards: seq<Card>, c: Card, prev: seq<VideoRecord>)
    requires Extracted(cards) == prev && Yields(c)
    ensures Extracted(cards + [c]) == prev + [RecordOf(c, |cards|)]
  {
    ExtractedSnoc(cards, c);
  }

  /** Of five records, the filter keeps exactly the middle three when only
      their titles lie in the window. */
  lemma {:induction false} FilteredMiddleThree(r0: VideoRecord, r1: VideoRecord, r2: VideoRecord, r3: VideoRecord, r4: VideoRecord)
    requires !InTimeWindow(r0.title) && !InTimeWindow(r4.title)
    requires InTimeWindow(r1.title) && InTimeWindow(r2.title) && InTimeWindow(r3.title)
    ensures Filtered([r0, r1, r2, r3, r4]) == [r1, r2, r3]
  {
    var s1 := [] + [r0];
    var s2 := s1 + [r1];
    var s3 := s2 + [r2];
    var s4 := s3 + [r3];
    var s5 := s4 + [r4];
    FilteredSnoc([], r0);
    FilteredSnoc(s1, r1);
    FilteredSnoc(s2, r2);
    FilteredSnoc(s3, r3);
    FilteredSnoc(s4, r4);
    assert s5 == [r0, r1, r2, r3, r4];
  }

  /** Five cards with the same download anchor, of which the middle three
      have titles in the window: the middle three survive, in page order. */
  lemma MiddleThreeSurvive(a: Anchor, t0: string, t1: string, t2: string, t3: string, t4: string)
    requires a.href.Some? && Truthy(a.path)
    requires !InTimeWindow(Trim(t0, IsJsSpace)) && !InTimeWindow(Trim(t4, IsJsSpace))
    requires InTimeWindow(Trim(t1, IsJsSpace)) && InTimeWindow(Trim(t2, IsJsSpace)) && InTimeWindow(Trim(t3, IsJsSpace))
    ensures var cards := [CardWithTitle(a, t0), CardWithTitle(a, t1), CardWithTitle(a, t2),
                          CardWithTitle(a, t3), CardWithTitle(a, t4)];
            Filtered(Extracted(cards)) == [RecordOf(cards[1], 1), RecordOf(cards[2], 2), RecordOf(cards[3], 3)]
  {
    var c0, c1, c2, c3, c4 := CardWithTitle(a, t0), CardWithTitle(a, t1), CardWithTitle(a, t2),
                              CardWithTitle(a, t3), CardWithTitle(a, t4);
    ExtractedFive(c0, c1, c2, c3, c4);
    FilteredMiddleThree(RecordOf(c0, 0), RecordOf(c1, 1), RecordOf(c2, 2), RecordOf(c3, 3), RecordOf(c4, 4));
  }

  /** The titles are the times themselves; a title is its own trim when it
      neither starts nor ends with whitespace. */
  lemma ClockTitle(title: string)
    requires |title| == 5 && IsDigit(title[0]) && IsDigit(title[1]) && title[2] == 'h'
             && IsDigit(title[3]) && IsDigit(title[4])
    ensures Trim(title, IsJsSpace) == title
    ensures InTimeWindow(title) <==> WindowStart <= 100 * (10 * DigitValue(title[0]) + DigitValue(title[1]))
                                                    + 10 * DigitValue(title[3]) + DigitValue(title[4]) <= WindowEnd
  {
    TrimUnchanged(title, IsJsSpace);
    LeadingClock(title);
  }

  /** Cards titled 11h00, 12h00, 12h45, 13h15 and 14h00, each with a
      download link and a media path: 12h00, 12h45 and 13h15 survive. */
  lemma FiveCardScenario(a: Anchor)
    requires a.href.Some? && Truthy(a.path)
    ensures var cards := [CardWithTitle(a, "11h00"), CardWithTitle(a, "12h00"), CardWithTitle(a, "12h45"),
                          CardWithTitle(a, "13h15"), CardWithTitle(a, "14h00")];
            Filtered(Extracted(cards)) == [RecordOf(cards[1], 1), RecordOf(cards[2], 2), RecordOf(cards[3], 3)]
  {
    ClockTitle("11h00");
    ClockTitle("12h00");
    ClockTitle("12h45");
    ClockTitle("13h15");
    ClockTitle("14h00");
    MiddleThreeSurvive(a, "11h00", "12h00", "12h45", "13h15", "14h00");
  }
}
