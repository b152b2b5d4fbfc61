/** What the extractor promises about the sections it emits. */
module ProfileProperties {
  import opened Wrappers
  import opened Text
  import opened Patterns
  import opened Decimal
  import opened Profile

  /**
   * An open/close tag pair of the shape `<x>` / `</x>`: each begins with
   * the only '<' it contains, and the close tag does not begin with the
   * open tag.
   */
  predicate TagPair(open: string, close: string) {
    |open| > 1 && |close| > 1 && open[0] == '<' && close[0] == '<'
    && '<' !in open[1..] && '<' !in close[1..] && !At(close, open, 0)
  }

  lemma TagPairs()
    ensures TagPair(StringOpen, StringClose)
    ensures TagPair(DateOpen, DateClose)
    ensures TagPair(DataOpen, DataClose)
  {
    assert StringClose[..|StringOpen|] != StringOpen by { assert StringClose[1] != StringOpen[1]; }
    assert DateClose[..|DateOpen|] != DateOpen by { assert DateClose[1] != DateOpen[1]; }
    assert DataClose[..|DataOpen|] != DataOpen by { assert DataClose[1] != DataOpen[1]; }
  }

  /** A tag's close tag contains no open tag. */
  lemma CloseKeepsShape(open: string, close: string)
    requires TagPair(open, close)
    ensures RemoveAll(close, open) == close
  {
    assert close == [close[0]] + close[1..];
    RemoveAllSkipsPrefix(close[1..], [], open);
    assert close[1..] + [] == close[1..];
  }

  /** Removing the tags of an element whose content holds no '<' leaves the content. */
  lemma StripTags(open: string, close: string, content: string)
    requires TagPair(open, close) && '<' !in content
    ensures RemoveAll(RemoveAll(open + content + close, open), close) == content
  {
    var whole := open + content + close;
    assert RemoveAll(whole, open) == content + close by {
      assert At(whole, open, 0) by { assert whole[..|open|] == open; }
      assert whole[|open|..] == content + close;
      RemoveAllSkipsPrefix(content, close, open);
      CloseKeepsShape(open, close);
    }
    assert RemoveAll(content + close, close) == content by {
      RemoveAllSkipsPrefix(content, close, close);
      assert At(close, close, 0);
      assert close[|close|..] == [];
      assert content + [] == content;
    }
  }

  lemma FindFirst(s: string, p: string, i: int)
    requires FirstAt(s, p, i)
    ensures Find(s, p) == Some(i)
  {
    var f := Find(s, p);
    assert f.Some?;
    assert f.value <= i;
  }

  /** Slices spelling `open content close` at `b` make a one-line element match there. */
  lemma ElementAtSlices(text: string, open: string, close: string, b: nat, content: string)
    requires TagPair(open, close)
    requires b + |open| + |content| + |close| <= |text|
    requires text[b..b + |open|] == open
    requires text[b + |open|..b + |open| + |content|] == content && '<' !in content
    requires text[b + |open| + |content|..b + |open| + |content| + |close|] == close
    requires forall m :: 0 <= m < |content| ==> !IsLineTerminator(content[m])
    ensures ElementAt(text, open, close, b, b + |open| + |content| + |close|)
  {
    var q := b + |open|;
    var c := q + |content|;
    forall m | q <= m < c ensures !At(text, close, m) && !IsLineTerminator(text[m]) {
      assert text[m] == content[m - q];
      if At(text, close, m) { AtHead(text, close, m); }
    }
  }

  /** No element starts inside text that holds no '<'. */
  lemma NoElementInGap(text: string, open: string, close: string, j: nat, gap: string)
    requires TagPair(open, close)
    requires j + |gap| <= |text| && text[j..j + |gap|] == gap && '<' !in gap
    ensures forall b, e :: j <= b < j + |gap| ==> !ElementAt(text, open, close, b, e)
  {
    forall b, e | j <= b < j + |gap| ensures !ElementAt(text, open, close, b, e) {
      assert text[b] == gap[b - j];
      if At(text, open, b) { AtHead(text, open, b); }
    }
  }

  /** After `j`, untagged `gap` then `open content close` make the first element match. */
  lemma FirstElementAfterGap(text: string, open: string, close: string, j: nat, gap: string, content: string)
    requires TagPair(open, close)
    requires j + |gap| + |open| + |content| + |close| <= |text|
    requires text[j..j + |gap|] == gap && '<' !in gap
    requires text[j + |gap|..j + |gap| + |open|] == open
    requires text[j + |gap| + |open|..j + |gap| + |open| + |content|] == content && '<' !in content
    requires text[j + |gap| + |open| + |content|..j + |gap| + |open| + |content| + |close|] == close
    requires forall m :: 0 <= m < |content| ==> !IsLineTerminator(content[m])
    ensures FirstElement(text, open, close, j) == Some(Span(j + |gap|, j + |gap| + |open| + |content| + |close|))
  {
    var b := j + |gap|;
    var e := b + |open| + |content| + |close|;
    ElementAtSlices(text, open, close, b, content);
    NoElementInGap(text, open, close, j, gap);
    FirstElementIs(text, open, close, j, b, e);
  }

  lemma ElementTextOfParts(text: string, open: string, close: string, j: nat, m: Span, content: string)
    requires |open| > 0 && |close| > 0
    requires FirstElement(text, open, close, j) == Some(m)
    requires m.start <= m.end <= |text| && text[m.start..m.end] == open + content + close
    ensures ElementText(text, open, close, j) == Some(RemoveAll(RemoveAll(open + content + close, open), close))
  {
  }


  /** Where the four middle parts of `t == a + b + c + d + f + z` lie. */
  lemma EntryLayout(t: string, a: string, b: string, c: string, d: string, f: string, z: string)
    requires t == a + b + c + d + f + z
    ensures |a| + |b| + |c| + |d| + |f| <= |t|
    ensures t[|a|..|a| + |b|] == b
    ensures t[|a| + |b|..|a| + |b| + |c|] == c
    ensures t[|a| + |b| + |c|..|a| + |b| + |c| + |d|] == d
    ensures t[|a| + |b| + |c| + |d|..|a| + |b| + |c| + |d| + |f|] == f
  {
    assert t == a + (b + (c + (d + (f + z))));
  }

  /** A slice of a suffix is a slice of the whole. */
  lemma SuffixSlice(text: string, j: nat, x: nat, y: nat)
    requires j <= |text| && x <= y <= |text| - j
    ensures text[j..][x..y] == text[j + x..j + y]
  {
  }

  /** A one-line `open content close` element after untagged `gap`, located by slices: its text is `content`. */
  lemma ElementTextAt(text: string, open: string, close: string, j: nat, gap: string, content: string)
    requires TagPair(open, close)
    requires j + |gap| + |open| + |content| + |close| <= |text|
    requires text[j..j + |gap|] == gap && '<' !in gap
    requires text[j + |gap|..j + |gap| + |open|] == open
    requires text[j + |gap| + |open|..j + |gap| + |open| + |content|] == content && '<' !in content
    requires text[j + |gap| + |open| + |content|..j + |gap| + |open| + |content| + |close|] == close
    requires forall m :: 0 <= m < |content| ==> !IsLineTerminator(content[m])
    ensures ElementText(text, open, close, j) == Some(content)
  {
    var b := j + |gap|;
    var e := b + |open| + |content| + |close|;
    FirstElementAfterGap(text, open, close, j, gap, content);
    SliceJoin(text, b, b + |open|, b + |open| + |content|, e);
    ElementTextOfParts(text, open, close, j, Span(b, e), content);
    StripTags(open, close, content);
  }

  /** The same element, when `text` continues at `j` with `gap`, the element and `post`. */
  lemma ElementTextAfterGap(text: string, open: string, close: string, j: nat,
                            gap: string, content: string, post: string)
    requires TagPair(open, close)
    requires j <= |text| && text[j..] == gap + open + content + close + post
    requires '<' !in gap && '<' !in content
    requires forall m :: 0 <= m < |content| ==> !IsLineTerminator(content[m])
    ensures ElementText(text, open, close, j) == Some(content)
  {
    var t := text[j..];
    var g, o, c := |gap|, |open|, |content|;
    EntryLayout(t, [], gap, open, content, close, post);
    SuffixSlice(text, j, 0, g);
    SuffixSlice(text, j, g, g + o);
    SuffixSlice(text, j, g + o, g + o + c);
    SuffixSlice(text, j, g + o + c, g + o + c + |close|);
    ElementTextAt(text, open, close, j, gap, content);
  }

  /** A marker after `pre`, which holds none of it, is found there, and the text goes on with `rest`. */
  lemma MarkerAfter(text: string, mk: string, pre: string, rest: string)
    requires text == pre + mk + rest
    requires forall k :: 0 <= k < |pre| ==> !At(text, mk, k)
    ensures Find(text, mk) == Some(|pre|)
    ensures text[|pre| + |mk|..] == rest
  {
    assert text[|pre|..|pre| + |mk|] == mk;
    FindFirst(text, mk, |pre|);
  }


  /**
   * `text` is `pre`, the marker and `rest`, with no earlier marker in `pre`,
   * and `rest` is untagged `gap`, then `<tag>content</tag>` on one line
   * without '<', then `post`.
   */
  predicate Entry(text: string, mk: string, open: string, close: string,
                  pre: string, rest: string, gap: string, content: string, post: string)
  {
    && TagPair(open, close)
    && text == pre + mk + rest
    && rest == gap + open + content + close + post
    && (forall k :: 0 <= k < |pre| ==> !At(text, mk, k))
    && '<' !in gap && '<' !in content
    && (forall m :: 0 <= m < |content| ==> !IsLineTerminator(content[m]))
  }

  /**
   * The extraction of a well-formed entry: when the first occurrence of the
   * marker is followed by text without tags and then by an element whose
   * content is on one line and holds no '<', the tagged value is that content.
   */
  lemma TaggedValueOfEntry(text: string, mk: string, open: string, close: string,
                           pre: string, rest: string, gap: string, content: string, post: string)
    requires Entry(text, mk, open, close, pre, rest, gap, content, post)
    ensures TaggedValue(text, mk, open, close) == Some(content)
  {
    EntryParts(text, mk, open, close, pre, rest, gap, content, post);
    TaggedValueIs(text, mk, open, close, |pre|, content);
  }

  /** The marker is found after `pre`, and the element after it gives the content. */
  lemma EntryParts(text: string, mk: string, open: string, close: string,
                   pre: string, rest: string, gap: string, content: string, post: string)
    requires Entry(text, mk, open, close, pre, rest, gap, content, post)
    ensures Find(text, mk) == Some(|pre|)
    ensures ElementText(text, open, close, |pre| + |mk|) == Some(content)
  {
    EntryMarker(text, mk, open, close, pre, rest, gap, content, post);
    EntryElement(text, mk, open, close, pre, rest, gap, content, post);
  }

  lemma EntryMarker(text: string, mk: string, open: string, close: string,
                    pre: string, rest: string, gap: string, content: string, post: string)
    requires Entry(text, mk, open, close, pre, rest, gap, content, post)
    ensures Find(text, mk) == Some(|pre|)
    ensures text[|pre| + |mk|..] == gap + open + content + close + post
  {
    MarkerAfter(text, mk, pre, rest);
  }

  lemma EntryElement(text: string, mk: string, open: string, close: string,
                     pre: string, rest: string, gap: string, content: string, post: string)
    requires Entry(text, mk, open, close, pre, rest, gap, content, post)
    ensures ElementText(text, open, close, |pre| + |mk|) == Some(content)
  {
    EntryMarker(text, mk, open, close, pre, rest, gap, content, post);
    ElementTextAfterGap(text, open, close, |pre| + |mk|, gap, content, post);
  }

  lemma TaggedValueIs(text: string, mk: string, open: string, close: string, i: nat, v: string)
    requires |open| > 0 && |close| > 0
    requires Find(text, mk) == Some(i) && ElementText(text, open, close, i + |mk|) == Some(v)
    ensures TaggedValue(text, mk, open, close) == Some(v)
  {
    TaggedValueAfterMarker(text, mk, open, close, i);
  }

  /** A string field stored as `<key>K</key>…<string>V</string>` reads back as V, trimmed. */
  lemma FieldOfEntry(text: string, key: string, pre: string, gap: string, content: string, post: string)
    requires text == pre + KeyMarker(key) + gap + StringOpen + content + StringClose + post
    requires forall k :: 0 <= k < |pre| ==> !At(text, KeyMarker(key), k)
    requires '<' !in gap && '<' !in content
    requires forall m :: 0 <= m < |content| ==> !IsLineTerminator(content[m])
    ensures FieldSection(text, key) == Some(Section(DisplayTitle(key), Trim(content, WhitespacesAndNewlines), None))
  {
    TagPairs();
    TaggedValueOfEntry(text, KeyMarker(key), StringOpen, StringClose, pre, gap + StringOpen + content + StringClose + post, gap, content, post);
  }

  /** A date stored as `<key>K</key>…<date>D</date>` is parsed from exactly D. */
  lemma DateOfEntry(parse: string -> Option<Instant>, text: string, key: string,
                    pre: string, gap: string, content: string, post: string)
    requires text == pre + KeyMarker(key) + gap + DateOpen + content + DateClose + post
    requires forall k :: 0 <= k < |pre| ==> !At(text, KeyMarker(key), k)
    requires '<' !in gap && '<' !in content
    requires forall m :: 0 <= m < |content| ==> !IsLineTerminator(content[m])
    ensures ExtractDate(parse, key, text) == parse(content)
  {
    TagPairs();
    TaggedValueOfEntry(text, KeyMarker(key), DateOpen, DateClose, pre, gap + DateOpen + content + DateClose + post, gap, content, post);
  }

  /**
   * A marker yields a value exactly when it occurs and a one-line
   * element follows its first occurrence; otherwise nothing, and no error.
   */
  lemma TaggedValuePresence(text: string, mk: string, open: string, close: string)
    requires |open| > 0 && |close| > 0
    ensures TaggedValue(text, mk, open, close).Some?
            <==> exists i, b, e :: FirstAt(text, mk, i) && i + |mk| <= b && ElementAt(text, open, close, b, e)
  {
    if exists i, b, e :: FirstAt(text, mk, i) && i + |mk| <= b && ElementAt(text, open, close, b, e) {
      var i, b, e :| FirstAt(text, mk, i) && i + |mk| <= b && ElementAt(text, open, close, b, e);
      TaggedValueOfMatch(text, mk, open, close, i, b, e);
    }
    if TaggedValue(text, mk, open, close).Some? {
      TaggedValueMatch(text, mk, open, close);
    }
  }

  /** A value comes from the first marker and a match after it. */
  lemma TaggedValueMatch(text: string, mk: string, open: string, close: string)
    requires |open| > 0 && |close| > 0
    requires TaggedValue(text, mk, open, close).Some?
    ensures exists i, b, e :: FirstAt(text, mk, i) && i + |mk| <= b && ElementAt(text, open, close, b, e)
  {
    var i := Find(text, mk).value;
    var m := TaggedValueSpan(text, mk, open, close);
    FirstElementMatches(text, open, close, i + |mk|);
    assert FirstAt(text, mk, i) && i + |mk| <= m.start && ElementAt(text, open, close, m.start, m.end);
  }

  /** The match a value is taken from. */
  lemma TaggedValueSpan(text: string, mk: string, open: string, close: string) returns (m: Span)
    requires |open| > 0 && |close| > 0
    requires TaggedValue(text, mk, open, close).Some?
    ensures Find(text, mk).Some?
    ensures FirstElement(text, open, close, Find(text, mk).value + |mk|) == Some(m)
  {
    var i := Find(text, mk).value;
    TaggedValueAfterMarker(text, mk, open, close, i);
    m := FirstElement(text, open, close, i + |mk|).value;
  }

  /** A match after the first marker gives a value. */
  lemma TaggedValueOfMatch(text: string, mk: string, open: string, close: string, i: int, b: int, e: int)
    requires |open| > 0 && |close| > 0
    requires FirstAt(text, mk, i) && i + |mk| <= b && ElementAt(text, open, close, b, e)
    ensures TaggedValue(text, mk, open, close).Some?
  {
    FindFirst(text, mk, i);
    FirstElementFinds(text, open, close, i + |mk|, b, e);
    TaggedValueFromSpan(text, mk, open, close, i);
  }

  lemma TaggedValueFromSpan(text: string, mk: string, open: string, close: string, i: nat)
    requires |open| > 0 && |close| > 0
    requires Find(text, mk) == Some(i) && FirstElement(text, open, close, i + |mk|).Some?
    ensures TaggedValue(text, mk, open, close).Some?
  {
    TaggedValueAfterMarker(text, mk, open, close, i);
  }

  /** The value is the element text after the first marker. */
  lemma TaggedValueAfterMarker(text: string, mk: string, open: string, close: string, i: nat)
    requires |open| > 0 && |close| > 0
    requires Find(text, mk) == Some(i)
    ensures TaggedValue(text, mk, open, close) == ElementText(text, open, close, i + |mk|)
  {
  }

  lemma FieldSectionPresence(text: string, key: string)
    ensures FieldSection(text, key).Some?
            <==> exists i, b, e :: FirstAt(text, KeyMarker(key), i) && i + |KeyMarker(key)| <= b
                                   && ElementAt(text, StringOpen, StringClose, b, e)
  {
    TaggedValuePresence(text, KeyMarker(key), StringOpen, StringClose);
  }

  lemma ExtractDateAbsent(parse: string -> Option<Instant>, text: string, key: string)
    requires forall i :: !At(text, KeyMarker(key), i)
    ensures ExtractDate(parse, key, text) == None
  {
  }

  /** Sections of a list of keys are those of each part, in order. */
  lemma {:induction false} FieldSectionsSplit(text: string, a: seq<string>, b: seq<string>)
    ensures FieldSections(text, a + b) == FieldSections(text, a) + FieldSections(text, b)
  {
    if |b| == 0 {
      assert a + b == a;
    } else {
      var b' := b[..|b| - 1];
      assert (a + b)[..|a + b| - 1] == a + b';
      assert (a + b)[|a + b| - 1] == b[|b| - 1];
      FieldSectionsSplit(text, a, b');
    }
  }

  lemma FieldSectionsSingle(text: string, k: string)
    ensures FieldSections(text, [k]) == Emit(FieldSection(text, k))
  {
    assert [k][..0] == [];
  }

  /** The string-field sections follow the fixed key order. */
  lemma FieldSectionsInKeyOrder(text: string)
    ensures FieldSections(text, Keys)
            == Emit(FieldSection(text, "Name")) + Emit(FieldSection(text, "AppIDName"))
               + Emit(FieldSection(text, "application-identifier")) + Emit(FieldSection(text, "TeamName"))
               + Emit(FieldSection(text, "UUID"))
  {
    var k1, k2, k3, k4 := Keys[..1], Keys[..2], Keys[..3], Keys[..4];
    assert k2 == k1 + [Keys[1]] && k3 == k2 + [Keys[2]] && k4 == k3 + [Keys[3]] && Keys == k4 + [Keys[4]];
    FieldSectionsSingle(text, Keys[0]);
    assert k1 == [Keys[0]];
    FieldSectionsSplit(text, k1, [Keys[1]]);
    FieldSectionsSingle(text, Keys[1]);
    FieldSectionsSplit(text, k2, [Keys[2]]);
    FieldSectionsSingle(text, Keys[2]);
    FieldSectionsSplit(text, k3, [Keys[3]]);
    FieldSectionsSingle(text, Keys[3]);
    FieldSectionsSplit(text, k4, [Keys[4]]);
    FieldSectionsSingle(text, Keys[4]);
  }

  /** Only `application-identifier` is relabelled. */
  lemma DisplayTitles()
    ensures forall k :: k in Keys && k != AppIdKey ==> DisplayTitle(k) == k
    ensures DisplayTitle(AppIdKey) == "Application Identifier (Provisioning Profile)"
  {
  }

  /** The expiration section warns exactly when fewer than zero days are left. */
  lemma ExpirationFlag(env: Env, text: string, d: Instant)
    requires ExtractDate(env.parseIso8601, ExpirationKey, text) == Some(d)
    ensures ExpirationSection(env, text).Some?
    ensures ExpirationSection(env, text).value.isWarning == Some(true) <==> Days(env, env.now, d) < 0
    ensures ExpirationSection(env, text).value.isWarning == Some(false) <==> Days(env, env.now, d) >= 0
  {
  }

  /** The day count shown between " (" and the suffix reads back as the count. */
  lemma DaysTextReadsBack(dateLabel: string, days: int, suffix: string)
    ensures var t := DaysText(dateLabel, days, suffix);
            |dateLabel| + 2 <= |t| - |suffix|
            && t[..|dateLabel|] == dateLabel && t[|t| - |suffix|..] == suffix
            && t[|dateLabel| + 2..|t| - |suffix|] == IntToDecimal(days)
  {
  }

  /**
   * The creation section shows the date's label, then the whole days from the
   * creation date to now (0 when the calendar gives none), " days ago)"; the
   * count shown reads back as that difference.
   */
  lemma CreationContent(env: Env, text: string, d: Instant)
    requires ExtractDate(env.parseIso8601, CreationKey, text) == Some(d)
    ensures CreationSection(env, text) == Some(Section(CreationTitle,
              env.dateLabel(d) + " (" + IntToDecimal(env.dayDifference(d, env.now).GetOr(0)) + " days ago)", None))
    ensures var t := CreationSection(env, text).value.content;
            var n := t[|env.dateLabel(d)| + 2..|t| - |" days ago)"|];
            |n| > 0 && (if n[0] == '-' then AllDigits(n[1..]) else AllDigits(n))
            && SignedValue(n) == env.dayDifference(d, env.now).GetOr(0)
  {
    var days := env.dayDifference(d, env.now).GetOr(0);
    DaysTextReadsBack(env.dateLabel(d), days, " days ago)");
    IntToDecimalRoundTrip(days);
  }

  /**
   * The expiration section shows the date's label, then the whole days from
   * now to the expiration date (0 when the calendar gives none), " days left)";
   * the count shown reads back as that difference.
   */
  lemma ExpirationContent(env: Env, text: string, d: Instant)
    requires ExtractDate(env.parseIso8601, ExpirationKey, text) == Some(d)
    ensures ExpirationSection(env, text).Some?
    ensures ExpirationSection(env, text).value.content
            == env.dateLabel(d) + " (" + IntToDecimal(env.dayDifference(env.now, d).GetOr(0)) + " days left)"
    ensures var t := ExpirationSection(env, text).value.content;
            var n := t[|env.dateLabel(d)| + 2..|t| - |" days left)"|];
            |n| > 0 && (if n[0] == '-' then AllDigits(n[1..]) else AllDigits(n))
            && SignedValue(n) == env.dayDifference(env.now, d).GetOr(0)
  {
    var days := env.dayDifference(env.now, d).GetOr(0);
    DaysTextReadsBack(env.dateLabel(d), days, " days left)");
    IntToDecimalRoundTrip(days);
  }

  /** The sample day texts, spelt out. */
  lemma SampleDaysTexts(dateLabel: string)
    ensures DaysText(dateLabel, 10, " days ago)") == dateLabel + " (10 days ago)"
    ensures DaysText(dateLabel, -3, " days left)") == dateLabel + " (-3 days left)"
    ensures DaysText(dateLabel, 0, " days left)") == dateLabel + " (0 days left)"
  {
    SampleRenderings();
  }

  /** Ten calendar days from the creation date to now read "(10 days ago)". */
  lemma CreationTenDaysAgo(env: Env, text: string, d: Instant)
    requires ExtractDate(env.parseIso8601, CreationKey, text) == Some(d)
    requires env.dayDifference(d, env.now) == Some(10)
    ensures CreationSection(env, text).Some?
    ensures CreationSection(env, text).value.content == env.dateLabel(d) + " (10 days ago)"
  {
    CreationContent(env, text, d);
    var shown := DaysText(env.dateLabel(d), 10, " days ago)");
    assert CreationSection(env, text).value.content == shown;
    SampleDaysTexts(env.dateLabel(d));
  }

  /** Three days past the expiration date read "(-3 days left)" and warn. */
  lemma ExpiredThreeDaysAgo(env: Env, text: string, d: Instant)
    requires ExtractDate(env.parseIso8601, ExpirationKey, text) == Some(d)
    requires env.dayDifference(env.now, d) == Some(-3)
    ensures ExpirationSection(env, text).Some?
    ensures ExpirationSection(env, text).value.content == env.dateLabel(d) + " (-3 days left)"
    ensures ExpirationSection(env, text).value.isWarning == Some(true)
  {
    ExpirationContent(env, text, d);
    ExpirationFlag(env, text, d);
    var shown := DaysText(env.dateLabel(d), -3, " days left)");
    assert ExpirationSection(env, text).value.content == shown;
    SampleDaysTexts(env.dateLabel(d));
  }

  /** With no calendar difference the count is 0, which is no warning. */
  lemma ExpirationWithoutDifference(env: Env, text: string, d: Instant)
    requires ExtractDate(env.parseIso8601, ExpirationKey, text) == Some(d)
    requires env.dayDifference(env.now, d) == None
    ensures ExpirationSection(env, text).Some?
    ensures ExpirationSection(env, text).value.content == env.dateLabel(d) + " (0 days left)"
    ensures ExpirationSection(env, text).value.isWarning == Some(false)
  {
    ExpirationContent(env, text, d);
    ExpirationFlag(env, text, d);
    var shown := DaysText(env.dateLabel(d), 0, " days left)");
    assert ExpirationSection(env, text).value.content == shown;
    SampleDaysTexts(env.dateLabel(d));
  }

  lemma OnlyWarnsAsAppend(a: seq<Section>, b: seq<Section>, title: string)
    requires OnlyWarnsAs(a, title) && OnlyWarnsAs(b, title)
    ensures OnlyWarnsAs(a + b, title)
  {
    forall i | 0 <= i < |a + b| && (a + b)[i].isWarning != None ensures (a + b)[i].title == title {
      if i >= |a| { assert (a + b)[i] == b[i - |a|]; }
    }
  }

  /** Every section but the expiration date is informational. */
  lemma OnlyExpirationWarns(env: Env, rawXML: string)
    ensures OnlyWarnsAs(ProfileSections(env, rawXML), ExpirationTitle)
  {
    var f := FieldSections(rawXML, Keys);
    var c := Emit(CreationSection(env, rawXML));
    var x := Emit(ExpirationSection(env, rawXML));
    var d := Emit(CertificateSection(env, rawXML));
    var raw := [Section(RawTitle, rawXML, None)];
    assert OnlyWarnsAs(f, ExpirationTitle);
    OnlyWarnsAsAppend(f, c, ExpirationTitle);
    OnlyWarnsAsAppend(f + c, x, ExpirationTitle);
    OnlyWarnsAsAppend(f + c + x, d, ExpirationTitle);
    OnlyWarnsAsAppend(f + c + x + d, raw, ExpirationTitle);
  }

  /** The output ends with the raw text, verbatim, and has between 1 and 9 sections. */
  lemma ProfileSectionsShape(env: Env, rawXML: string)
    ensures var r := ProfileSections(env, rawXML);
            1 <= |r| <= 9 && r[|r| - 1] == Section(RawTitle, rawXML, None)
  {
  }

  /** A `<data>` match is its tags around content that holds no '<'. */
  lemma DataElementParts(text: string, b: int, e: int)
    requires DataElementAt(text, b, e)
    ensures var content := text[b + |DataOpen|..e - |DataClose|];
            '<' !in content && text[b..e] == DataOpen + content + DataClose
  {
    var content := text[b + |DataOpen|..e - |DataClose|];
    forall x | x in content ensures x != '<' {
      var k :| 0 <= k < |content| && content[k] == x;
      assert IsBase64OrLineBreak(text[b + |DataOpen| + k]);
    }
    assert text[b..e] == DataOpen + content + DataClose;
  }

  /** The certificate blob is the content of the first `<data>` match, without its `\n` characters. */
  lemma CertificateOfFirstBlock(text: string, b: int, e: int)
    requires DataElementAt(text, b, e)
    requires forall b', e' :: 0 <= b' < b ==> !DataElementAt(text, b', e')
    ensures CertificateBase64(text) == Some(Drop(text[b + |DataOpen|..e - |DataClose|], '\n'))
  {
    FirstDataElementIs(text, b, e);
    var content := text[b + |DataOpen|..e - |DataClose|];
    DataElementParts(text, b, e);
    TagPairs();
    StripTags(DataOpen, DataClose, content);
    RemoveCharIsDrop(content, '\n');
  }

  /** `\r` characters of the blob are kept. */
  lemma CarriageReturnsKept(text: string, b: int, e: int)
    requires DataElementAt(text, b, e)
    requires forall b', e' :: 0 <= b' < b ==> !DataElementAt(text, b', e')
    requires '\r' in text[b + |DataOpen|..e - |DataClose|]
    ensures CertificateBase64(text).Some? && '\r' in CertificateBase64(text).value
  {
    CertificateOfFirstBlock(text, b, e);
  }
}
