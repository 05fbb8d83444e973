/** The few JavaScript string primitives that the analysis client relies on:
    `String.prototype.trim` and `String.prototype.includes`, together with
    the optional-value type used for JavaScript's `undefined`.
    A Dafny `char` is a Unicode scalar value. For text in the Basic
    Multilingual Plane without surrogates this is one UTF-16 code unit of a
    JavaScript string; other characters are two code units in JavaScript
    and one `char` here. */
module JsString {

  datatype Option<+T> = None | Some(value: T)

  /** The code points ECMAScript classes as WhiteSpace or LineTerminator,
      which are the ones `trim` removes. */
  predicate IsWhitespace(c: char) {
    || c == '\t' || c == '\n' || c == '\U{B}' || c == '\U{C}' || c == '\r'
    || c == ' ' || c == '\U{A0}' || c == '\U{1680}'
    || ('\U{2000}' <= c <= '\U{200A}')
    || c == '\U{2028}' || c == '\U{2029}' || c == '\U{202F}' || c == '\U{205F}'
    || c == '\U{3000}' || c == '\U{FEFF}'
  }

  predicate AllWhitespace(s: string) {
    forall i :: 0 <= i < |s| ==> IsWhitespace(s[i])
  }

  /** Leading whitespace removed (`String.prototype.trimStart`). */
  function TrimStart(s: string): string {
    if |s| > 0 && IsWhitespace(s[0]) then TrimStart(s[1..]) else s
  }

  /** Trailing whitespace removed (`String.prototype.trimEnd`). */
  function TrimEnd(s: string): string {
    if |s| > 0 && IsWhitespace(s[|s| - 1]) then TrimEnd(s[..|s| - 1]) else s
  }

  /** `TrimStart(s)` is the suffix of `s` that starts at its first
      character that is not whitespace. */
  lemma TrimStartFacts(s: string)
    ensures var r := TrimStart(s);
      && |r| <= |s| && r == s[|s| - |r|..]
      && (forall i :: 0 <= i < |s| - |r| ==> IsWhitespace(s[i]))
      && (r == [] || !IsWhitespace(r[0]))
  {
    TrimStartIsSuffix(s);
    TrimStartSkipped(s);
    TrimStartHead(s);
  }

  lemma {:induction false} TrimStartIsSuffix(s: string)
    ensures |TrimStart(s)| <= |s| && TrimStart(s) == s[|s| - |TrimStart(s)|..]
  {
    if |s| > 0 && IsWhitespace(s[0]) {
      TrimStartIsSuffix(s[1..]);
      var r := TrimStart(s[1..]);
      assert s[1..][|s[1..]| - |r|..] == s[|s| - |r|..];
    }
  }

  lemma {:induction false} TrimStartSkipped(s: string)
    ensures forall i :: 0 <= i < |s| - |TrimStart(s)| ==> IsWhitespace(s[i])
  {
    if |s| > 0 && IsWhitespace(s[0]) {
      TrimStartSkipped(s[1..]);
      var n := |s| - |TrimStart(s)|;
      forall i | 0 <= i < n ensures IsWhitespace(s[i]) {
        if i > 0 { assert s[i] == s[1..][i - 1]; }
      }
    }
  }

  lemma {:induction false} TrimStartHead(s: string)
    ensures TrimStart(s) == [] || !IsWhitespace(TrimStart(s)[0])
  {
    if |s| > 0 && IsWhitespace(s[0]) {
      TrimStartHead(s[1..]);
    }
  }

  /** `TrimEnd(s)` is the prefix of `s` that ends at its last character
      that is not whitespace. */
  lemma TrimEndFacts(s: string)
    ensures var r := TrimEnd(s);
      && |r| <= |s| && r == s[..|r|]
      && (forall i :: |r| <= i < |s| ==> IsWhitespace(s[i]))
      && (r == [] || !IsWhitespace(r[|r| - 1]))
  {
    TrimEndIsPrefix(s);
    TrimEndSkipped(s);
    TrimEndLast(s);
  }

  lemma {:induction false} TrimEndIsPrefix(s: string)
    ensures |TrimEnd(s)| <= |s| && TrimEnd(s) == s[..|TrimEnd(s)|]
  {
    if |s| > 0 && IsWhitespace(s[|s| - 1]) {
      TrimEndIsPrefix(s[..|s| - 1]);
      var r := TrimEnd(s[..|s| - 1]);
      assert s[..|s| - 1][..|r|] == s[..|r|];
    }
  }

  lemma {:induction false} TrimEndSkipped(s: string)
    ensures forall i :: |TrimEnd(s)| <= i < |s| ==> IsWhitespace(s[i])
  {
    if |s| > 0 && IsWhitespace(s[|s| - 1]) {
      TrimEndSkipped(s[..|s| - 1]);
      var n := |TrimEnd(s)|;
      forall i | n <= i < |s| ensures IsWhitespace(s[i]) {
        if i < |s| - 1 { assert s[i] == s[..|s| - 1][i]; }
      }
    }
  }

  lemma {:induction false} TrimEndLast(s: string)
    ensures TrimEnd(s) == [] || !IsWhitespace(TrimEnd(s)[|TrimEnd(s)| - 1])
  {
    if |s| > 0 && IsWhitespace(s[|s| - 1]) {
      TrimEndLast(s[..|s| - 1]);
    }
  }

  /** `String.prototype.trim` */
  function Trim(s: string): string {
    TrimEnd(TrimStart(s))
  }

  /** `s` is `mid` surrounded by whitespace, and `mid` neither starts nor
      ends with whitespace. */
  ghost predicate IsTrimmingOf(s: string, mid: string) {
    exists i, j :: SurroundedAt(s, mid, i, j)
  }

  /** `mid` sits at `s[i..j]` with only whitespace before and after it. */
  predicate SurroundedAt(s: string, mid: string, i: int, j: int) {
    && 0 <= i <= j <= |s| && s[i..j] == mid
    && (forall k :: 0 <= k < i ==> IsWhitespace(s[k]))
    && (forall k :: j <= k < |s| ==> IsWhitespace(s[k]))
    && (mid == [] || (!IsWhitespace(mid[0]) && !IsWhitespace(mid[|mid| - 1])))
  }

  lemma {:induction false} TrimStartSkipsWhitespace(pre: string, s: string)
    requires AllWhitespace(pre)
    ensures TrimStart(pre + s) == TrimStart(s)
  {
    if pre != [] {
      assert (pre + s)[0] == pre[0];
      assert (pre + s)[1..] == pre[1..] + s;
      TrimStartSkipsWhitespace(pre[1..], s);
    } else {
      assert pre + s == s;
    }
  }

  lemma {:induction false} TrimEndSkipsWhitespace(s: string, post: string)
    requires AllWhitespace(post)
    ensures TrimEnd(s + post) == TrimEnd(s)
  {
    if post != [] {
      var n := |post| - 1;
      assert (s + post)[|s + post| - 1] == post[n];
      assert (s + post)[..|s + post| - 1] == s + post[..n];
      TrimEndSkipsWhitespace(s, post[..n]);
    } else {
      assert s + post == s;
    }
  }

  /** `Trim(s)` is `s` with the whitespace around it removed. */
  lemma TrimIsTrimming(s: string)
    ensures IsTrimmingOf(s, Trim(s))
  {
    var t := TrimStart(s);
    var r := TrimEnd(t);
    assert r == Trim(s);
    TrimStartFacts(s);
    TrimEndFacts(t);
    SurroundedByParts(s, t, r);
  }

  /** A suffix `t` of `s` after whitespace, and a prefix `r` of `t` before
      whitespace, that neither starts nor ends with whitespace, is
      surrounded by whitespace in `s`. */
  lemma SurroundedByParts(s: string, t: string, r: string)
    requires |t| <= |s| && t == s[|s| - |t|..]
    requires forall k :: 0 <= k < |s| - |t| ==> IsWhitespace(s[k])
    requires t == [] || !IsWhitespace(t[0])
    requires |r| <= |t| && r == t[..|r|]
    requires forall k :: |r| <= k < |t| ==> IsWhitespace(t[k])
    requires r == [] || !IsWhitespace(r[|r| - 1])
    ensures IsTrimmingOf(s, r)
  {
    var i, j := |s| - |t|, |s| - |t| + |r|;
    assert forall k :: j <= k < |s| ==> s[k] == t[k - i];
    assert r != [] ==> r[0] == t[0];
    assert s[i..j] == r;
    assert SurroundedAt(s, r, i, j);
  }
  /** Only one string is `s` with the whitespace around it removed, and
      `Trim(s)` is that string. */
  lemma TrimmingIsTrim(s: string, mid: string)
    requires IsTrimmingOf(s, mid)
    ensures Trim(s) == mid
  {
    var i, j :| SurroundedAt(s, mid, i, j);
    var pre, post := s[..i], s[j..];
    SplitAround(s, mid, i, j);
    TrimStartSkipsWhitespace(pre, mid + post);
    if mid == [] {
      assert mid + post == post + [];
      TrimStartSkipsWhitespace(post, []);
    } else {
      assert TrimStart(mid + post) == mid + post;
      TrimEndSkipsWhitespace(mid, post);
    }
  }

  lemma SplitAround(s: string, mid: string, i: int, j: int)
    requires SurroundedAt(s, mid, i, j)
    ensures AllWhitespace(s[..i]) && AllWhitespace(s[j..])
    ensures s == s[..i] + (mid + s[j..])
  {
    forall k | 0 <= k < i ensures IsWhitespace(s[..i][k]) {
      assert s[..i][k] == s[k];
    }
    forall k | 0 <= k < |s| - j ensures IsWhitespace(s[j..][k]) {
      assert s[j..][k] == s[j + k];
    }
    assert s == s[..i] + s[i..j] + s[j..];
  }

  /** Whitespace appended to a text does not change what `Trim` gives. */
  lemma TrimDropsTrailingWhitespace(t: string, post: string)
    requires AllWhitespace(post)
    ensures Trim(t + post) == Trim(t)
  {
    TrimIsTrimming(t);
    var mid := Trim(t);
    var i, j :| SurroundedAt(t, mid, i, j);
    SurroundedExtended(t, mid, i, j, post);
    TrimmingIsTrim(t + post, mid);
  }

  lemma SurroundedExtended(t: string, mid: string, i: int, j: int, post: string)
    requires SurroundedAt(t, mid, i, j) && AllWhitespace(post)
    ensures SurroundedAt(t + post, mid, i, j)
  {
    var s := t + post;
    assert s[i..j] == t[i..j];
    forall k | j <= k < |s| ensures IsWhitespace(s[k]) {
      if k < |t| { assert s[k] == t[k]; } else { assert s[k] == post[k - |t|]; }
    }
  }

  lemma TrimCharacterization(s: string, mid: string)
    ensures Trim(s) == mid <==> IsTrimmingOf(s, mid)
  {
    TrimIsTrimming(s);
    if IsTrimmingOf(s, mid) {
      TrimmingIsTrim(s, mid);
    }
  }

  /** `TrimStart` stops at the first character that is not whitespace. */
  lemma TrimStartKeeps(s: string, a: nat)
    requires a < |s| && !IsWhitespace(s[a])
    ensures |s| - |TrimStart(s)| <= a
  {
    TrimStartFacts(s);
  }

  /** `TrimEnd` stops at the last character that is not whitespace. */
  lemma TrimEndKeeps(t: string, b: nat)
    requires b < |t| && !IsWhitespace(t[b])
    ensures b < |TrimEnd(t)|
  {
    TrimEndFacts(t);
  }

  /** When `s` starts with a character that is not whitespace, `Trim` keeps
      every character up to any later one that is not whitespace either. */
  lemma TrimKeepsHead(s: string, k: nat)
    requires k < |s| && !IsWhitespace(s[0]) && !IsWhitespace(s[k])
    ensures s[..k + 1] <= Trim(s)
  {
    assert TrimStart(s) == s;
    TrimEndFacts(s);
    TrimEndKeeps(s, k);
  }

  /** When `s` ends with a character that is not whitespace, `Trim` keeps
      every character after any earlier one that is not whitespace either. */
  lemma TrimKeepsTail(s: string, k: nat)
    requires k < |s| && !IsWhitespace(s[|s| - 1]) && !IsWhitespace(s[k])
    ensures |s| - k <= |Trim(s)| && Trim(s)[|Trim(s)| - (|s| - k)..] == s[k..]
  {
    var t := TrimStart(s);
    var m := |s| - |t|;
    TrimStartFacts(s);
    TrimStartKeeps(s, k);
    assert t == s[m..];
    assert t[|t| - 1] == s[|s| - 1];
    assert Trim(s) == t;
    assert |t| - (|s| - k) == k - m;
    assert t[k - m..] == s[k..];
  }

  /** `String.prototype.endsWith` */
  predicate EndsWith(s: string, t: string) {
    |t| <= |s| && s[|s| - |t|..] == t
  }

  lemma EndsWithConcat(pre: string, z: string)
    ensures EndsWith(pre + z, z)
  {
    assert (pre + z)[|pre|..] == z;
  }

  /** A text that ends with `t` ends with every suffix of `t`. */
  lemma EndsWithSuffix(s: string, t: string, k: nat)
    requires EndsWith(s, t) && k <= |t|
    ensures EndsWith(s, t[k..])
  {
    assert s[|s| - |t[k..]|..] == s[|s| - |t|..][k..];
  }

  /** `Trim` keeps an ending that neither starts nor ends with
      whitespace. */
  lemma TrimKeepsEnding(s: string, t: string)
    requires EndsWith(s, t) && t != [] && !IsWhitespace(t[0]) && !IsWhitespace(t[|t| - 1])
    ensures EndsWith(Trim(s), t)
  {
    var k := |s| - |t|;
    assert s[k] == t[0] && s[|s| - 1] == t[|t| - 1];
    TrimKeepsTail(s, k);
  }

  /** `Trim` keeps an opening that neither starts nor ends with
      whitespace. */
  lemma TrimKeepsOpening(o: string, b: string, k: nat)
    requires k < |o| && !IsWhitespace(o[0]) && !IsWhitespace(o[k])
    ensures o[..k + 1] <= Trim(o + b)
  {
    var s := o + b;
    assert s[0] == o[0] && s[k] == o[k];
    assert s[..k + 1] == o[..k + 1];
    TrimKeepsHead(s, k);
  }

  /** `p` occurs in `s` starting at position `i`. */
  predicate OccursAt(s: string, p: string, i: int) {
    0 <= i && i + |p| <= |s| && s[i..i + |p|] == p
  }

  /** `String.prototype.includes`: `p` occurs somewhere in `s`. */
  function Includes(s: string, p: string): (r: bool)
    ensures r <==> exists i :: OccursAt(s, p, i)
    decreases |s|
  {
    if |p| > |s| then false
    else if p <= s then
      assert OccursAt(s, p, 0);
      true
    else
      var r := Includes(s[1..], p);
      OccurrencesAfterHead(s, p);
      r
  }

  /** When `p` does not start `s`, it occurs in `s` exactly when it occurs
      in the rest of `s`. */
  lemma OccurrencesAfterHead(s: string, p: string)
    requires |p| <= |s| && !(p <= s)
    ensures (exists i :: OccursAt(s, p, i)) <==> (exists i :: OccursAt(s[1..], p, i))
  {
    if i :| OccursAt(s[1..], p, i) {
      OccursShifted(s, p, i);
    }
    if i :| OccursAt(s, p, i) {
      assert i != 0;
      assert s[1..][i - 1..i - 1 + |p|] == s[i..i + |p|];
      assert OccursAt(s[1..], p, i - 1);
    }
  }

  lemma OccursShifted(s: string, p: string, i: int)
    requires |s| > 0 && OccursAt(s[1..], p, i)
    ensures OccursAt(s, p, i + 1)
  {
    assert s[i + 1..i + 1 + |p|] == s[1..][i..i + |p|];
  }

  /** A witness for `includes`: `p` found at position `i`. */
  lemma IncludesAt(s: string, p: string, i: nat)
    requires OccursAt(s, p, i)
    ensures Includes(s, p)
  {
  }

  /** A text includes anything it is built around. */
  lemma IncludesBetween(a: string, p: string, b: string)
    ensures Includes(a + p + b, p)
  {
    assert (a + p + b)[|a|..|a| + |p|] == p;
    IncludesAt(a + p + b, p, |a|);
  }
}
