/** Removal of the Markdown code fence the model may wrap its JSON in:
    `textOutput.replace(/^```json\n|\n```$|^```\n|\n```$/g, "").trim()`.
    The regular expression has the global flag but not the multiline one,
    so `^` matches only at the very start of the text and `$` only at its
    very end; the trimming happens after the fences are removed. */
module Fence {
  import opened JsString

  const JsonOpen := "```json\n"
  const PlainOpen := "```\n"
  const Close := "\n```"

  /** Length of the match of the alternation at position `i`, trying the
      alternatives in their written order; 0 when none matches (no
      alternative matches the empty string). The fourth alternative repeats
      the second, so it can never be the first to match and is left out. */
  function MatchAt(s: string, i: nat): (n: nat)
    requires i <= |s|
    ensures n <= |s| - i
    ensures n == 0 || n == 4 || n == 8
  {
    if i == 0 && JsonOpen <= s then |JsonOpen|
    else if s[i..] == Close then |Close|
    else if i == 0 && PlainOpen <= s then |PlainOpen|
    else 0
  }

  /** `String.prototype.replace` with a global regular expression and an
      empty replacement: scan from the left, drop each match and resume
      the search right after it, keep every other character. */
  function ReplaceAllFrom(s: string, i: nat): string
    requires i <= |s|
    decreases |s| - i
  {
    if i == |s| then []
    else
      var n := MatchAt(s, i);
      if n > 0 then ReplaceAllFrom(s, i + n) else [s[i]] + ReplaceAllFrom(s, i + 1)
  }

  /** The cleaned text handed to `JSON.parse` (line 89). */
  function Clean(raw: string): string {
    Trim(ReplaceAllFrom(raw, 0))
  }

  /** How many characters of opening fence the expression removes. */
  function OpeningLength(s: string): nat {
    if JsonOpen <= s then |JsonOpen| else if PlainOpen <= s then |PlainOpen| else 0
  }

  /** A direct statement of what the expression removes: one opening fence
      at the start, then one closing fence at the end provided it lies
      wholly after the opening fence. */
  function StripFences(s: string): (r: string)
    ensures |r| <= |s|
  {
    var body := s[OpeningLength(s)..];
    if EndsWith(body, Close) then body[..|body| - |Close|] else body
  }

  /** Away from the start only the closing fence can match, and only as
      the last four characters. */
  lemma {:induction false} ScanTail(s: string, i: nat)
    requires 0 < i <= |s|
    ensures ReplaceAllFrom(s, i) == if EndsWith(s[i..], Close) then s[i..|s| - |Close|] else s[i..]
    decreases |s| - i
  {
    if i < |s| {
      MatchAwayFromStart(s, i);
      if s[i..] == Close {
        assert ReplaceAllFrom(s, i) == ReplaceAllFrom(s, |s|);
        WholeSuffix(s, i, Close);
      } else {
        assert ReplaceAllFrom(s, i) == [s[i]] + ReplaceAllFrom(s, i + 1);
        ScanTail(s, i + 1);
        KeptBeforeSuffix(s, i, Close);
      }
    }
  }

  lemma MatchAwayFromStart(s: string, i: nat)
    requires 0 < i <= |s|
    ensures MatchAt(s, i) == if s[i..] == Close then |Close| else 0
  {
  }

  lemma WholeSuffix(s: string, i: nat, c: string)
    requires i <= |s| && s[i..] == c
    ensures EndsWith(s[i..], c) && s[i..|s| - |c|] == []
  {
  }

  /** Removing a final `c` from `s[i..]`, when `s[i..]` is not `c` itself,
      keeps `s[i]` in front of what removing it from `s[i + 1..]` gives. */
  lemma KeptBeforeSuffix(s: string, i: nat, c: string)
    requires i < |s| && s[i..] != c
    ensures (if EndsWith(s[i..], c) then s[i..|s| - |c|] else s[i..])
         == [s[i]] + (if EndsWith(s[i + 1..], c) then s[i + 1..|s| - |c|] else s[i + 1..])
  {
    if EndsWith(s[i..], c) {
      assert s[i + 1..][|s[i + 1..]| - |c|..] == s[i..][|s[i..]| - |c|..];
      assert [s[i]] + s[i + 1..|s| - |c|] == s[i..|s| - |c|];
    } else {
      assert !EndsWith(s[i + 1..], c);
      assert [s[i]] + s[i + 1..] == s[i..];
    }
  }

  /** The scan when an opening fence of `n` characters matches at the
      start. */
  lemma ScanAfterOpening(s: string, n: nat)
    requires n == MatchAt(s, 0) && n > 0 && s != Close
    ensures n == OpeningLength(s)
    ensures ReplaceAllFrom(s, 0) == StripFences(s)
  {
    assert s[0] == '`';
    ScanTail(s, n);
  }

  /** The scan when nothing matches at the start. */
  lemma ScanWithoutOpening(s: string)
    requires s != [] && MatchAt(s, 0) == 0
    ensures ReplaceAllFrom(s, 0) == StripFences(s)
  {
    assert OpeningLength(s) == 0 && s[0..] == s;
    assert ReplaceAllFrom(s, 0) == [s[0]] + ReplaceAllFrom(s, 1);
    ScanTail(s, 1);
    KeptBeforeSuffix(s, 0, Close);
  }

  /** The scan of the regular expression removes exactly what `StripFences`
      says. */
  lemma ReplaceAllIsStripFences(s: string)
    ensures ReplaceAllFrom(s, 0) == StripFences(s)
  {
    if s == Close {
      assert s[0] == '\n';
      assert OpeningLength(s) == 0;
    } else if s != [] {
      if MatchAt(s, 0) > 0 {
        ScanAfterOpening(s, MatchAt(s, 0));
      } else {
        ScanWithoutOpening(s);
      }
    }
  }

  /** A text with no fence at either end is only trimmed. */
  lemma CleanUnfenced(s: string)
    requires !(JsonOpen <= s) && !(PlainOpen <= s) && !EndsWith(s, Close)
    ensures Clean(s) == Trim(s)
  {
    ReplaceAllIsStripFences(s);
  }

  /** A body wrapped in a fence, with or without the `json` tag, cleans to
      the trimmed body. */
  lemma CleanFenced(b: string)
    ensures Clean(JsonOpen + b + Close) == Trim(b)
    ensures Clean(PlainOpen + b + Close) == Trim(b)
  {
    JsonFenceCleaned(b);
    PlainFenceCleaned(b);
  }

  lemma JsonFenceCleaned(b: string)
    ensures Clean(JsonOpen + b + Close) == Trim(b)
  {
    var s := JsonOpen + b + Close;
    assert JsonOpen <= s;
    FenceStripped(s, JsonOpen, b);
  }

  lemma PlainFenceCleaned(b: string)
    ensures Clean(PlainOpen + b + Close) == Trim(b)
  {
    var t := PlainOpen + b + Close;
    assert PlainOpen <= t && t[3] != JsonOpen[3];
    FenceStripped(t, PlainOpen, b);
  }

  /** What is left between an opening fence the expression removes and a
      closing fence. */
  lemma FenceStripped(s: string, o: string, b: string)
    requires s == o + b + Close && OpeningLength(s) == |o|
    ensures Clean(s) == Trim(b)
  {
    ReplaceAllIsStripFences(s);
    assert s[|o|..] == b + Close;
    EndsWithConcat(b, Close);
    assert (b + Close)[..|b|] == b;
  }

  /** So for a body with no fence of its own, the fence makes no difference
      to what `JSON.parse` receives. */
  lemma FenceTransparent(b: string)
    requires !(JsonOpen <= b) && !(PlainOpen <= b) && !EndsWith(b, Close)
    ensures Clean(JsonOpen + b + Close) == Clean(b)
    ensures Clean(PlainOpen + b + Close) == Clean(b)
  {
    CleanFenced(b);
    CleanUnfenced(b);
  }

  /** A text that does not start with an opening fence loses only its
      closing fence. */
  lemma CleanClosingOnly(s: string, x: string)
    requires !(JsonOpen <= s) && !(PlainOpen <= s) && s == x + Close
    ensures Clean(s) == Trim(x)
  {
    ReplaceAllIsStripFences(s);
    assert s[..|s| - |Close|] == x;
  }

  /** The two openings the expression removes: each starts with a
      backquote, ends with a line break, and has a character that is not
      whitespace right before that line break. */
  predicate IsOpening(o: string) {
    o == JsonOpen || o == PlainOpen
  }

  lemma OpeningShape(o: string)
    requires IsOpening(o)
    ensures |o| >= |PlainOpen| && o[..3] == "```" && o[|o| - 1] == '\n'
    ensures !IsWhitespace(o[0]) && !IsWhitespace(o[|o| - 2])
  {
    if o == JsonOpen {
      assert o[6] == 'n';
    } else {
      assert o[2] == '`';
    }
  }

  /** Either opening at the very start is removed whole. */
  lemma OpeningRemoved(o: string, x: string)
    requires IsOpening(o)
    ensures OpeningLength(o + x) == |o|
  {
    var s := o + x;
    if o == JsonOpen {
      assert JsonOpen <= s;
    } else {
      assert s[3] == '\n' && JsonOpen[3] == 'j';
      assert PlainOpen <= s;
    }
  }

  /** Whitespace before the opening fence keeps `^` from matching: the
      closing fence is still removed, and the opening one stays up to its
      line break. */
  lemma LeadingWhitespaceKeepsOpening(w: string, o: string, b: string)
    requires |w| > 0 && AllWhitespace(w) && IsOpening(o)
    ensures Clean(w + o + b + Close) == Trim(o + b)
    ensures o[..|o| - 1] <= Clean(w + o + b + Close)
  {
    OpeningShape(o);
    OpeningAfterWhitespaceKept(w, o, b, |o| - 2);
  }

  /** Any opening after whitespace stays, and only the closing fence goes. */
  lemma OpeningAfterWhitespaceKept(w: string, o: string, b: string, k: nat)
    requires |w| > 0 && AllWhitespace(w)
    requires k < |o| && !IsWhitespace(o[0]) && !IsWhitespace(o[k])
    ensures Clean(w + o + b + Close) == Trim(o + b)
    ensures o[..k + 1] <= Clean(w + o + b + Close)
  {
    LeadingWhitespaceCleaned(w, o, b);
    TrimKeepsOpening(o, b, k);
  }

  /** Any text after whitespace, with a closing fence after it, cleans to
      the trimmed text. */
  lemma LeadingWhitespaceCleaned(w: string, o: string, b: string)
    requires |w| > 0 && AllWhitespace(w)
    ensures Clean(w + o + b + Close) == Trim(o + b)
  {
    var s := w + o + b + Close;
    assert s == (w + (o + b)) + Close;
    assert s[0] == w[0] && IsWhitespace(w[0]);
    CleanClosingOnly(s, w + (o + b));
    TrimStartSkipsWhitespace(w, o + b);
  }

  /** Whitespace after the closing fence keeps `$` from matching: the
      opening fence is removed, the closing one stays. */
  lemma TrailingWhitespaceKeepsClosing(o: string, b: string, w: string)
    requires IsOpening(o) && |w| > 0 && AllWhitespace(w)
    ensures Clean(o + b + Close + w) == Trim(b + Close)
    ensures EndsWith(Clean(o + b + Close + w), "```")
  {
    WhitespaceAfterClosing(o, b, w);
    ClosedTextKeepsEnding(b);
    ClosingTail();
  }

  lemma ClosingTail()
    ensures Close[1..] == "```"
  {
  }

  lemma WhitespaceAfterClosing(o: string, b: string, w: string)
    requires IsOpening(o) && |w| > 0 && AllWhitespace(w)
    ensures Clean(o + b + Close + w) == Trim(b + Close)
  {
    assert IsWhitespace(w[|w| - 1]);
    OpeningKeptClosing(o, b, Close, w);
    TrimDropsTrailingWhitespace(b + Close, w);
  }

  /** `Trim` keeps the backquotes of a closing fence at the end. */
  lemma ClosedTextKeepsEnding(b: string)
    ensures EndsWith(Trim(b + Close), Close[1..])
  {
    var e := Close[1..];
    assert e[0] == '`' && e[|e| - 1] == '`';
    EndsWithConcat(b, Close);
    EndsWithSuffix(b + Close, Close, 1);
    TrimKeepsEnding(b + Close, e);
  }

  /** An opening fence followed by a text that does not end with a closing
      fence loses only the opening fence. */
  lemma OpeningKeptClosing(o: string, b: string, c: string, tail: string)
    requires IsOpening(o) && |tail| > 0 && tail[|tail| - 1] != '`'
    ensures Clean(o + b + c + tail) == Trim(b + c + tail)
  {
    var s, x := o + b + c + tail, b + c + tail;
    assert s == o + x;
    OpeningRemoved(o, x);
    ReplaceAllIsStripFences(s);
    assert s[|o|..] == x;
    assert !EndsWith(x, Close) by {
      assert x[|x| - 1] == tail[|tail| - 1];
    }
  }

  /** The tag is matched case-sensitively: an upper-case `JSON` tag leaves
      the opening fence in place. */
  lemma UpperCaseTagKeepsOpening(b: string)
    ensures Clean("```JSON\n" + b + Close) == Trim("```JSON\n" + b)
    ensures "```JSON" <= Clean("```JSON\n" + b + Close)
  {
    UpperCaseTag();
    UnknownOpeningKept("```JSON\n", b, 6);
  }

  lemma UpperCaseTag()
    ensures "```JSON\n"[..7] == "```JSON"
    ensures !IsWhitespace('`') && !IsWhitespace('N')
    ensures !(JsonOpen <= "```JSON\n") && !(PlainOpen <= "```JSON\n")
  {
    assert "```JSON\n"[3] == 'J';
  }

  /** An opening that is neither fence stays, and only the closing fence
      goes. */
  lemma UnknownOpeningKept(o: string, b: string, k: nat)
    requires |o| >= |JsonOpen| && !(JsonOpen <= o) && !(PlainOpen <= o)
    requires k < |o| && !IsWhitespace(o[0]) && !IsWhitespace(o[k])
    ensures Clean(o + b + Close) == Trim(o + b)
    ensures o[..k + 1] <= Clean(o + b + Close)
  {
    var s := o + b + Close;
    assert s == (o + b) + Close;
    assert s[..|JsonOpen|] == o[..|JsonOpen|];
    assert s[..|PlainOpen|] == o[..|PlainOpen|];
    CleanClosingOnly(s, o + b);
    TrimKeepsOpening(o, b, k);
  }
}
