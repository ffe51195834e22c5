/** The card title of a cached question (`extractTitle`, identical in
    `app/components/QuestionCard.tsx` and `src/components/QuestionCard.tsx`):
    the markdown with its punctuation removed, cut at the first line break
    and shortened to 100 characters plus an ellipsis. */
module QuestionCard {
  const MaxTitle: nat := 100
  const Ellipsis: string := "..."

  /** The characters of `/[#*`_\[\]!]/`. */
  predicate IsMarkup(c: char) {
    c == '#' || c == '*' || c == '`' || c == '_' || c == '[' || c == ']' || c == '!'
  }

  predicate NoMarkup(s: string) {
    forall i :: 0 <= i < |s| ==> !IsMarkup(s[i])
  }

  /** `replace(/[#*`_\[\]!]/g, '')`: the other characters, in order. */
  function StripMarkup(s: string): (r: string)
    ensures |r| <= |s|
    ensures NoMarkup(r)
    ensures forall c :: c in r <==> c in s && !IsMarkup(c)
  {
    if s == [] then []
    else (if IsMarkup(s[0]) then [] else [s[0]]) + StripMarkup(s[1..])
  }

  /** The removal works character by character: it keeps every other
      character, drops markup, and keeps the order. */
  lemma {:induction false} StripMarkupAppend(a: string, b: string)
    ensures StripMarkup(a + b) == StripMarkup(a) + StripMarkup(b)
    ensures |a| == 1 ==> StripMarkup(a) == (if IsMarkup(a[0]) then [] else a)
  {
    if a != [] {
      assert (a + b)[0] == a[0] && (a + b)[1..] == a[1..] + b;
      StripMarkupAppend(a[1..], b);
    } else {
      assert a + b == b;
    }
  }

  /** Removing markup from text without any leaves it as it is. */
  lemma {:induction false} StripMarkupNoMarkup(s: string)
    requires NoMarkup(s)
    ensures StripMarkup(s) == s
  {
    if s != [] {
      StripMarkupNoMarkup(s[1..]);
    }
  }

  /** `split('\n')[0]`: the text before the first line break, or all of it. */
  function FirstLine(s: string): (r: string)
    ensures r <= s
    ensures '\n' !in r
    ensures r == s || s[|r|] == '\n'
  {
    if s == [] || s[0] == '\n' then []
    else [s[0]] + FirstLine(s[1..])
  }

  /** A text without a line break is its own first line. */
  lemma {:induction false} FirstLineWhole(s: string)
    requires '\n' !in s
    ensures FirstLine(s) == s
  {
    if s != [] {
      assert s[0] in s;
      FirstLineWhole(s[1..]);
    }
  }

  /** `extractTitle`. */
  function ExtractTitle(markdown: string): (r: string)
    ensures NoMarkup(r) && '\n' !in r
    ensures |r| <= MaxTitle + |Ellipsis|
    ensures var line := FirstLine(StripMarkup(markdown));
      && (|line| <= MaxTitle ==> r == line)
      && (|line| > MaxTitle ==> r == line[..MaxTitle] + Ellipsis)
  {
    var line := FirstLine(StripMarkup(markdown));
    assert NoMarkup(line) by {
      forall i | 0 <= i < |line| ensures !IsMarkup(line[i]) {
        assert line[i] == StripMarkup(markdown)[i];
      }
    }
    if |line| > MaxTitle then line[..MaxTitle] + Ellipsis else line
  }

  /** A title is its own title: markup and line breaks are gone, and a
      shortened title keeps its first 100 characters and its ellipsis. */
  lemma ExtractTitleIdempotent(markdown: string)
    ensures ExtractTitle(ExtractTitle(markdown)) == ExtractTitle(markdown)
  {
    var r := ExtractTitle(markdown);
    StripMarkupNoMarkup(r);
    FirstLineWhole(r);
    var line := FirstLine(StripMarkup(markdown));
    if |line| > MaxTitle {
      assert r[..MaxTitle] == line[..MaxTitle];
    }
  }
}
