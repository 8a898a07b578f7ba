/** Text metrics for the preview pane: the word count of a Markdown/HTML text
    and the reading time derived from it. */
module TextUtils {
  import opened Wrappers
  import opened Strings

  /** Position of the first `c` in `s`, or `|s|` when there is none. */
  function FirstIndex(s: string, c: char): (k: nat)
    ensures k <= |s|
    ensures k < |s| ==> s[k] == c
    ensures forall j :: 0 <= j < k ==> s[j] != c
  {
    if s == [] then 0
    else if s[0] == c then 0
    else 1 + FirstIndex(s[1..], c)
  }

  /** `s.replace(/<[^>]*>/g, ' ')`: each `<` that has a `>` somewhere after
      it starts a tag running to the first such `>`, and the tag becomes one
      space; a `<` with no `>` after it is kept. No complete tag survives. */
  function StripTags(s: string): (r: string)
    ensures |r| <= |s|
  {
    if s == [] then ""
    else if s[0] == '<' && '>' in s[1..] then
      var k := FirstIndex(s[1..], '>');
      " " + StripTags(s[k + 2..])
    else
      [s[0]] + StripTags(s[1..])
  }

  /** No `<` in `r` is followed by a `>`. */
  predicate NoCloseAfterOpen(r: string)
  {
    forall i, j :: 0 <= i < j < |r| && r[i] == '<' ==> r[j] != '>'
  }

  /** Once tags are replaced, no `<` is followed by a `>`, and every `>` left
      was already in the text. */
  lemma {:induction false} StripTagsLeavesNoTag(s: string)
    ensures '>' in StripTags(s) ==> '>' in s
    ensures NoCloseAfterOpen(StripTags(s))
  {
    if s == [] {
    } else if s[0] == '<' && '>' in s[1..] {
      var k := FirstIndex(s[1..], '>');
      StripTagsLeavesNoTag(s[k + 2..]);
      assert '>' in StripTags(s[k + 2..]) ==> '>' in s[k + 2..];
      NoCloseAfterOpenCons(' ', StripTags(s[k + 2..]));
    } else {
      StripTagsLeavesNoTag(s[1..]);
      assert '>' in StripTags(s[1..]) ==> '>' in s[1..];
      NoCloseAfterOpenCons(s[0], StripTags(s[1..]));
    }
  }

  /** One character in front keeps `NoCloseAfterOpen` unless it opens a tag
      that the rest closes. */
  lemma NoCloseAfterOpenCons(c: char, rest: string)
    requires NoCloseAfterOpen(rest)
    requires c == '<' ==> '>' !in rest
    ensures NoCloseAfterOpen([c] + rest)
    ensures '>' in [c] + rest ==> c == '>' || '>' in rest
  {
    var r := [c] + rest;
    assert forall i :: 0 < i < |r| ==> r[i] == rest[i - 1];
  }

  /** A tag between plain text and the rest of the text becomes exactly one
      space: the text before it is kept as it is and the text after it is
      stripped on its own. */
  lemma StripTagsReplacesTag(a: string, t: string, b: string)
    requires '<' !in a && '>' !in t
    ensures StripTags(a + "<" + t + ">" + b) == a + " " + StripTags(b)
  {
    var tag := "<" + t + ">" + b;
    assert a + "<" + t + ">" + b == a + tag;
    StripTagsPlainPrefix(a, tag);
    StripTagsLeadingTag(t, b);
  }

  /** Text without `<` in front of the rest passes through unchanged. */
  lemma {:induction false} StripTagsPlainPrefix(a: string, rest: string)
    requires '<' !in a
    ensures StripTags(a + rest) == a + StripTags(rest)
  {
    if a == [] {
      assert a + rest == rest;
    } else {
      var tail := a[1..] + rest;
      assert a + rest == [a[0]] + tail;
      StripTagsCons(a[0], tail);
      StripTagsPlainPrefix(a[1..], rest);
      assert a == [a[0]] + a[1..];
    }
  }

  /** Text without `<` is left as it is. */
  lemma StripTagsKeepsPlainText(s: string)
    requires '<' !in s
    ensures StripTags(s) == s
  {
    StripTagsPlainPrefix(s, "");
    assert s + "" == s;
  }

  /** Text without `>` has no tag to close: every `<` in it is kept, and so
      is the rest of the text. */
  lemma {:induction false} StripTagsUnclosed(s: string)
    requires '>' !in s
    ensures StripTags(s) == s
  {
    if s != [] {
      assert '>' !in s[1..];
      StripTagsUnclosed(s[1..]);
      assert s == [s[0]] + s[1..];
    }
  }

  /** A character other than `<` in front is kept. */
  lemma StripTagsCons(c: char, rest: string)
    requires c != '<'
    ensures StripTags([c] + rest) == [c] + StripTags(rest)
  {
    var s := [c] + rest;
    assert s[0] == c && s[1..] == rest;
  }

  /** A leading tag becomes one space. */
  lemma StripTagsLeadingTag(t: string, b: string)
    requires '>' !in t
    ensures StripTags("<" + t + ">" + b) == " " + StripTags(b)
  {
    var s := "<" + t + ">" + b;
    var tail := s[1..];
    assert tail == t + ">" + b;
    assert tail[|t|] == '>';
    FirstIndexIs(tail, '>', |t|);
    assert s[|t| + 2..] == b;
  }

  /** `FirstIndex` is the position of a `c` with none before it. */
  lemma FirstIndexIs(s: string, c: char, k: nat)
    requires k < |s| && s[k] == c
    requires forall j :: 0 <= j < k ==> s[j] != c
    ensures FirstIndex(s, c) == k
  {
  }

  /** The Markdown punctuation the word count ignores. */
  predicate MarkdownChar(c: char) {
    c in "#*`~_=[]()>{}+-"
  }

  /** `s.replace(/[#*`~_=\[\]()>{}+-]/g, ' ')`. */
  function MaskMarkdown(s: string): (r: string)
    ensures |r| == |s|
    ensures forall k :: 0 <= k < |s| ==> r[k] == if MarkdownChar(s[k]) then ' ' else s[k]
  {
    if s == [] then "" else [if MarkdownChar(s[0]) then ' ' else s[0]] + MaskMarkdown(s[1..])
  }

  /** `s.replace(/\s+/g, ' ')`: each maximal run of white space becomes one
      space. */
  function Collapse(s: string): (r: string)
    decreases |s|
  {
    if s == [] then ""
    else if IsSpace(s[0]) then
      var t := TrimStart(s);
      " " + Collapse(t)
    else [s[0]] + Collapse(s[1..])
  }

  /** `s.split(/\s+/)`: the pieces between maximal runs of white space; a
      leading or trailing run gives an empty first or last piece. */
  function SplitOnSpace(s: string): (r: seq<string>)
    ensures |r| >= 1
    decreases |s|
  {
    if s == [] then [""]
    else if IsSpace(s[0]) then
      var t := TrimStart(s);
      [""] + SplitOnSpace(t)
    else
      var rest := SplitOnSpace(s[1..]);
      [[s[0]] + rest[0]] + rest[1..]
  }

  /** `pieces.filter(Boolean).length`. */
  function CountNonEmpty(pieces: seq<string>): (r: nat)
    ensures r <= |pieces|
  {
    if pieces == [] then 0
    else (if pieces[0] != "" then 1 else 0) + CountNonEmpty(pieces[1..])
  }

  /** The reference definition of a word count: the number of maximal runs
      of non-space characters, reading `s` after a word (`inWord`) or not. */
  function CountRuns(s: string, inWord: bool): (r: nat)
    ensures r <= |s|
  {
    if s == [] then 0
    else if IsSpace(s[0]) then CountRuns(s[1..], false)
    else (if inWord then 0 else 1) + CountRuns(s[1..], true)
  }

  /** `calculateWordCount`: 0 for a missing or empty text; otherwise tags
      and Markdown punctuation become spaces, white space is collapsed and
      trimmed, and the non-empty pieces of the split are counted. */
  function CalculateWordCount(text: Option<string>): (r: nat)
    ensures text.None? || text == Some("") ==> r == 0
  {
    if text.None? || text.value == "" then 0
    else
      var cleaned := Trim(Collapse(MaskMarkdown(StripTags(text.value))));
      if cleaned == "" then 0 else CountNonEmpty(SplitOnSpace(cleaned))
  }

  /** A string of white space only has no runs. */
  lemma {:induction false} AllSpaceNoRuns(s: string, inWord: bool)
    requires forall k :: 0 <= k < |s| ==> IsSpace(s[k])
    ensures CountRuns(s, inWord) == 0
  {
    if s != [] {
      AllSpaceNoRuns(s[1..], false);
    }
  }

  /** Leading white space ends any run in progress and adds none. */
  lemma {:induction false} SkipSpaces(s: string, inWord: bool)
    requires s != [] && IsSpace(s[0])
    ensures CountRuns(s, inWord) == CountRuns(TrimStart(s), false)
  {
    if s[1..] != [] && IsSpace(s[1]) {
      SkipSpaces(s[1..], false);
    }
  }

  /** Collapsing white space keeps every run. */
  lemma {:induction false} CollapseKeepsRuns(s: string, inWord: bool)
    ensures CountRuns(Collapse(s), inWord) == CountRuns(s, inWord)
    decreases |s|
  {
    if s != [] {
      if IsSpace(s[0]) {
        var t := TrimStart(s);
        CollapseKeepsRuns(t, false);
        SkipSpaces(s, inWord);
        assert (" " + Collapse(t))[1..] == Collapse(t);
      } else {
        CollapseKeepsRuns(s[1..], true);
        assert ([s[0]] + Collapse(s[1..]))[1..] == Collapse(s[1..]);
      }
    }
  }

  /** Trailing white space adds no run. */
  lemma {:induction false} DropTrailingSpaces(s: string, k: nat, inWord: bool)
    requires k <= |s|
    requires forall j :: k <= j < |s| ==> IsSpace(s[j])
    ensures CountRuns(s, inWord) == CountRuns(s[..k], inWord)
  {
    if k == 0 {
      AllSpaceNoRuns(s, inWord);
    } else {
      DropTrailingSpaces(s[1..], k - 1, !IsSpace(s[0]));
      assert s[1..][..k - 1] == s[..k][1..];
    }
  }

  /** Trimming keeps every run. */
  lemma TrimKeepsRuns(s: string)
    ensures CountRuns(Trim(s), false) == CountRuns(s, false)
  {
    var t := TrimStart(s);
    if s != [] && IsSpace(s[0]) {
      SkipSpaces(s, false);
    } else {
      assert t == s;
    }
    var u := TrimEnd(t);
    DropTrailingSpaces(t, |u|, false);
    assert t[..|u|] == u;
  }

  /** The non-empty pieces of a white-space split are exactly the runs. */
  lemma {:induction false} SplitCountsRuns(s: string)
    ensures CountNonEmpty(SplitOnSpace(s)) == CountRuns(s, false)
    ensures CountNonEmpty(SplitOnSpace(s)[1..]) == CountRuns(s, true)
    ensures SplitOnSpace(s)[0] != "" <==> s != [] && !IsSpace(s[0])
    decreases |s|
  {
    if s != [] {
      if IsSpace(s[0]) {
        var t := TrimStart(s);
        SplitCountsRuns(t);
        SkipSpaces(s, false);
        SkipSpaces(s, true);
        assert SplitOnSpace(s)[1..] == SplitOnSpace(t);
      } else {
        var rest := SplitOnSpace(s[1..]);
        SplitCountsRuns(s[1..]);
        assert SplitOnSpace(s)[1..] == rest[1..];
      }
    }
  }

  /** The word count is the number of runs of non-space characters in the
      text once tags and Markdown punctuation are blanked, and so never
      exceeds the text's length. */
  lemma WordCountCountsRuns(text: string)
    ensures CalculateWordCount(Some(text)) == CountRuns(MaskMarkdown(StripTags(text)), false)
    ensures CalculateWordCount(Some(text)) <= |text|
  {
    var masked := MaskMarkdown(StripTags(text));
    var cleaned := Trim(Collapse(masked));
    CollapseKeepsRuns(masked, false);
    TrimKeepsRuns(Collapse(masked));
    SplitCountsRuns(cleaned);
    if cleaned == "" {
      assert CountRuns(cleaned, false) == 0;
    }
  }

  /** The reading speed assumed when none is given. */
  const DefaultWordsPerMinute := 200

  /** `calculateReadingTime`: 0 for no words or a non-positive speed,
      otherwise the quotient rounded up. */
  function CalculateReadingTime(wordCount: int, wpm: int): (r: int)
    ensures wordCount == 0 || wpm <= 0 ==> r == 0
  {
    if wordCount == 0 then 0
    else if wpm <= 0 then 0
    else -((-wordCount) / wpm)
  }

  /** Rounding up: the reading time is the least number of minutes in which
      the words can be read. */
  lemma ReadingTimeIsCeiling(wordCount: int, wpm: int)
    requires wordCount != 0 && wpm > 0
    ensures var m := CalculateReadingTime(wordCount, wpm);
            m * wpm >= wordCount && (m - 1) * wpm < wordCount
  {
    var q, rem := (-wordCount) / wpm, (-wordCount) % wpm;
    assert -wordCount == q * wpm + rem && 0 <= rem < wpm;
    assert (-q) * wpm == wordCount + rem;
    assert (-q - 1) * wpm == wordCount + rem - wpm;
  }
}
