/**
 * The Python `str` operations the clause store relies on, on ASCII text:
 * `isspace`, `lower`, `strip`, `split()`, `split("\n")`, `join`, `rfind`,
 * `replace`, slicing, and `re.sub` of a phrase between word boundaries.
 */
module Text {

  /** Python's `str.isspace()` and the regex class `\s` on ASCII: space, \t \n \v \f \r and \x1c-\x1f. */
  predicate IsSpace(c: char) {
    c == ' ' || (9 <= c as int <= 13) || (28 <= c as int <= 31)
  }

  predicate NotSpace(c: char) { !IsSpace(c) }

  predicate IsUpper(c: char) { 'A' <= c <= 'Z' }

  predicate IsLower(c: char) { 'a' <= c <= 'z' }

  predicate IsDigit(c: char) { '0' <= c <= '9' }

  predicate IsLetter(c: char) { IsUpper(c) || IsLower(c) }

  /** The regex class `\w` on ASCII, which decides where `\b` holds. */
  predicate IsWordChar(c: char) { IsLetter(c) || IsDigit(c) || c == '_' }

  /** True when `s` has a character that is not whitespace (Python: `s.strip() != ""`). */
  predicate Visible(s: string) {
    exists i :: 0 <= i < |s| && !IsSpace(s[i])
  }

  /** A string that `strip()` leaves alone and that is not empty. */
  predicate Stripped(s: string) {
    |s| > 0 && !IsSpace(s[0]) && !IsSpace(s[|s| - 1])
  }

  /** One maximal run of `split()`: non-empty, no whitespace. */
  predicate IsToken(w: string) {
    |w| > 0 && forall i :: 0 <= i < |w| ==> !IsSpace(w[i])
  }

  function LowerChar(c: char): char {
    if IsUpper(c) then (c as int + 32) as char else c
  }

  predicate NoUpper(s: string) {
    forall i :: 0 <= i < |s| ==> !IsUpper(s[i])
  }

  /** Python's `s.lower()` on ASCII. */
  function Lower(s: string): string {
    seq(|s|, i requires 0 <= i < |s| => LowerChar(s[i]))
  }

  /** `lower()` keeps the length and leaves no capital. */
  lemma LowerNoUpper(s: string)
    ensures |Lower(s)| == |s| && NoUpper(Lower(s))
  {
  }

  /** Lower-casing a text without capitals changes nothing, so `lower()` is idempotent. */
  lemma LowerIdentity(s: string)
    requires NoUpper(s)
    ensures Lower(s) == s
  {
  }

  /** Python's `s[:n]`. */
  function Head(s: string, n: nat): string {
    if |s| <= n then s else s[..n]
  }

  /** `lit` occurs in `s` at index `i`. */
  predicate HasAt(s: string, i: nat, lit: string) {
    i + |lit| <= |s| && s[i..i + |lit|] == lit
  }

  /** `lit` (written in lower case) occurs in `s` at index `i`, ignoring ASCII case. */
  predicate HasAtIgnoreCase(s: string, i: nat, lit: string) {
    i + |lit| <= |s| && Lower(s[i..i + |lit|]) == lit
  }

  /** Python's `pat in s`. */
  predicate Occurs(s: string, pat: string) {
    exists i :: 0 <= i <= |s| && HasAt(s, i, pat)
  }

  /** The end of the longest run of characters satisfying `p` that starts at `i` (a greedy `p*`). */
  function RunEnd(s: string, i: nat, p: char -> bool): (j: nat)
    requires i <= |s|
    ensures i <= j <= |s|
    ensures forall k :: i <= k < j ==> p(s[k])
    ensures j < |s| ==> !p(s[j])
    decreases |s| - i
  {
    if i < |s| && p(s[i]) then RunEnd(s, i + 1, p) else i
  }

  // ---------------------------------------------------------------------------
  // strip()
  // ---------------------------------------------------------------------------

  function TrimLeft(s: string): (r: string)
    ensures |r| <= |s| && r == s[|s| - |r|..]
    ensures forall i :: 0 <= i < |s| - |r| ==> IsSpace(s[i])
    ensures r == [] || !IsSpace(r[0])
  {
    if |s| > 0 && IsSpace(s[0]) then TrimLeft(s[1..]) else s
  }

  function TrimRight(s: string): (r: string)
    ensures |r| <= |s| && r == s[..|r|]
    ensures forall i :: |r| <= i < |s| ==> IsSpace(s[i])
    ensures r == [] || !IsSpace(r[|r| - 1])
  {
    if |s| > 0 && IsSpace(s[|s| - 1]) then TrimRight(s[..|s| - 1]) else s
  }

  /** Python's `s.strip()`: the text without leading and trailing whitespace. */
  function Strip(s: string): (r: string)
    ensures r == [] || Stripped(r)
    ensures r == [] <==> !Visible(s)
    ensures Stripped(s) ==> r == s
  {
    TrimBothFacts(s);
    TrimRight(TrimLeft(s))
  }

  lemma TrimBothFacts(s: string)
    ensures var r := TrimRight(TrimLeft(s)); (r == [] || Stripped(r)) && (r == [] <==> !Visible(s))
  {
    if Visible(s) {
      TrimKeepsVisible(s);
    }
    TrimNonEmpty(s);
  }

  /** Trimming a visible text leaves something. */
  lemma TrimKeepsVisible(s: string)
    requires Visible(s)
    ensures TrimRight(TrimLeft(s)) != []
  {
    var l := TrimLeft(s);
    var i :| 0 <= i < |s| && !IsSpace(s[i]);
    var off := |s| - |l|;
    assert i >= off;
    assert l[i - off] == s[i];
    assert i - off < |TrimRight(l)|;
  }

  /** What trimming leaves, when anything, is stripped and comes from a visible text. */
  lemma TrimNonEmpty(s: string)
    ensures var r := TrimRight(TrimLeft(s)); r != [] ==> Stripped(r) && Visible(s)
  {
    var l := TrimLeft(s);
    var r := TrimRight(l);
    if r != [] {
      assert r[0] == l[0] && !IsSpace(r[0]);
      assert s[|s| - |l|] == l[0];
    }
  }

  /** Stripping a text that starts with a visible character keeps a prefix of it. */
  lemma StripKeepsFirst(w: string)
    requires |w| > 0 && !IsSpace(w[0])
    ensures |Strip(w)| > 0 && Strip(w) == w[..|Strip(w)|]
  {
    assert Visible(w);
    assert TrimLeft(w) == w;
  }

  lemma {:induction false} VisibleSlice(s: string, a: nat, b: nat)
    requires a <= b <= |s| && Visible(s[a..b])
    ensures Visible(s)
  {
    var i :| 0 <= i < b - a && !IsSpace(s[a..b][i]);
    assert s[a + i] == s[a..b][i];
  }

  // ---------------------------------------------------------------------------
  // split() and join
  // ---------------------------------------------------------------------------

  /** Length of the longest prefix of `s` without whitespace. */
  function TokenLen(s: string): (n: nat)
    ensures n <= |s|
    ensures forall i :: 0 <= i < n ==> !IsSpace(s[i])
    ensures n < |s| ==> IsSpace(s[n])
  {
    if |s| == 0 || IsSpace(s[0]) then 0 else 1 + TokenLen(s[1..])
  }

  lemma {:induction false} TokenLenUnique(s: string, m: nat)
    requires m <= |s|
    requires forall i :: 0 <= i < m ==> !IsSpace(s[i])
    requires m < |s| ==> IsSpace(s[m])
    ensures TokenLen(s) == m
  {
    var n := TokenLen(s);
    if m < |s| {
      assert IsSpace(s[m]);
    }
    if n < |s| {
      assert IsSpace(s[n]);
    }
  }

  /** Python's `s.split()` with no argument: the maximal runs of non-whitespace, in order. */
  function Words(s: string): (ws: seq<string>)
    ensures forall i :: 0 <= i < |ws| ==> IsToken(ws[i])
    decreases |s|
  {
    if |s| == 0 then []
    else if IsSpace(s[0]) then Words(s[1..])
    else
      var n := TokenLen(s);
      [s[..n]] + Words(s[n..])
  }

  /** `len(s.split())`. */
  function WordCount(s: string): nat {
    |Words(s)|
  }

  /** Python's `sep.join(parts)`. */
  function JoinWith(sep: string, parts: seq<string>): string {
    if |parts| == 0 then ""
    else if |parts| == 1 then parts[0]
    else parts[0] + sep + JoinWith(sep, parts[1..])
  }

  /** Python's `s.split(c)` for a one-character separator: the pieces between separators, never none. */
  function SplitOn(s: string, c: char): (r: seq<string>)
    ensures |r| >= 1
    ensures forall i :: 0 <= i < |r| ==> c !in r[i]
  {
    if |s| == 0 then [""]
    else
      var rest := SplitOn(s[1..], c);
      if s[0] == c then [""] + rest
      else [[s[0]] + rest[0]] + rest[1..]
  }

  lemma {:induction false} JoinSnoc(sep: string, parts: seq<string>, x: string)
    requires |parts| > 0
    ensures JoinWith(sep, parts + [x]) == JoinWith(sep, parts) + sep + x
    decreases |parts|
  {
    if |parts| == 1 {
      assert parts + [x] == [parts[0], x];
      assert [parts[0], x][1..] == [x];
    } else {
      assert (parts + [x])[1..] == parts[1..] + [x];
      JoinSnoc(sep, parts[1..], x);
    }
  }

  /** Splitting on a character and joining again with it gives the text back. */
  lemma {:induction false} SplitOnJoin(s: string, c: char)
    ensures JoinWith([c], SplitOn(s, c)) == s
    decreases |s|
  {
    if |s| > 0 {
      var rest := SplitOn(s[1..], c);
      SplitOnJoin(s[1..], c);
      if s[0] == c {
        assert ([""] + rest)[1..] == rest;
        assert s == [c] + s[1..];
      } else if |rest| == 1 {
        assert s == [s[0]] + s[1..];
      } else {
        var r := [[s[0]] + rest[0]] + rest[1..];
        assert r[1..] == rest[1..];
        assert s == [s[0]] + s[1..];
      }
    }
  }

  lemma {:induction false} WordsBlank(s: string)
    ensures Words(s) == [] <==> !Visible(s)
    decreases |s|
  {
    if |s| > 0 {
      if IsSpace(s[0]) {
        WordsBlank(s[1..]);
        if Visible(s[1..]) {
          assert s[1..|s|] == s[1..];
          VisibleSlice(s, 1, |s|);
        }
        if Visible(s) {
          var i :| 0 <= i < |s| && !IsSpace(s[i]);
          assert i > 0 && s[1..][i - 1] == s[i];
        }
      } else {
        assert !IsSpace(s[0]);
      }
    }
  }

  lemma {:induction false} WordsAppendBlank(s: string, t: string)
    requires !Visible(t)
    ensures Words(s + t) == Words(s)
    decreases |s|
  {
    if |s| == 0 {
      assert s + t == t;
      WordsBlank(t);
    } else if IsSpace(s[0]) {
      assert (s + t)[1..] == s[1..] + t;
      WordsAppendBlank(s[1..], t);
    } else {
      var n := TokenLen(s);
      if n == |s| && |t| > 0 {
        assert !Visible(t) ==> IsSpace(t[0]);
      }
      TokenLenUnique(s + t, n);
      assert (s + t)[..n] == s[..n];
      assert (s + t)[n..] == s[n..] + t;
      WordsAppendBlank(s[n..], t);
    }
  }

  lemma {:induction false} WordsTrimLeft(s: string)
    ensures Words(TrimLeft(s)) == Words(s)
    decreases |s|
  {
    if |s| > 0 && IsSpace(s[0]) {
      WordsTrimLeft(s[1..]);
    }
  }

  /** Stripping a text does not change its words. */
  lemma WordsStrip(s: string)
    ensures Words(Strip(s)) == Words(s)
  {
    var l := TrimLeft(s);
    WordsTrimLeft(s);
    TrimRightSplit(l);
    WordsAppendBlank(TrimRight(l), l[|TrimRight(l)|..]);
  }

  lemma TrimRightSplit(l: string)
    ensures l == TrimRight(l) + l[|TrimRight(l)|..]
    ensures !Visible(l[|TrimRight(l)|..])
  {
    var r := TrimRight(l);
    var tail := l[|r|..];
    forall i | 0 <= i < |tail| ensures IsSpace(tail[i]) {
      assert tail[i] == l[|r| + i];
    }
  }

  /** Words separated by one space are the words of both sides. */
  lemma {:induction false} WordsSpaceJoin(a: string, b: string)
    ensures Words(a + " " + b) == Words(a) + Words(b)
    decreases |a|
  {
    var s := a + " " + b;
    if |a| == 0 {
      assert s == " " + b && s[1..] == b;
    } else if IsSpace(a[0]) {
      assert s[1..] == a[1..] + " " + b;
      WordsSpaceJoin(a[1..], b);
    } else {
      var n := TokenLen(a);
      assert TokenLen(s) == n by {
        assert n < |s| && (n < |a| ==> s[n] == a[n]) && (n == |a| ==> s[n] == ' ');
        TokenLenUnique(s, n);
      }
      assert s[..n] == a[..n] && s[n..] == a[n..] + " " + b;
      calc {
        Words(s);
        [s[..n]] + Words(s[n..]);
        [a[..n]] + Words(a[n..] + " " + b);
        { WordsSpaceJoin(a[n..], b); }
        [a[..n]] + (Words(a[n..]) + Words(b));
        ([a[..n]] + Words(a[n..])) + Words(b);
        Words(a) + Words(b);
      }
    }
  }

  /** Joining tokens with single spaces and splitting again gives the tokens back. */
  lemma {:induction false} WordsJoinTokens(ws: seq<string>)
    requires forall i :: 0 <= i < |ws| ==> IsToken(ws[i])
    ensures Words(JoinWith(" ", ws)) == ws
    decreases |ws|
  {
    if |ws| == 1 {
      TokenLenUnique(ws[0], |ws[0]|);
      assert ws[0][..|ws[0]|] == ws[0];
    } else if |ws| > 1 {
      WordsSpaceJoin(ws[0], JoinWith(" ", ws[1..]));
      WordsJoinTokens([ws[0]]);
      WordsJoinTokens(ws[1..]);
    }
  }

  /** A prefix of a text never has more words than the text. */
  lemma {:induction false} WordsPrefix(s: string, k: nat)
    requires k <= |s|
    ensures |Words(s[..k])| <= |Words(s)|
    decreases |s|, 1
  {
    if k > 0 {
      if IsSpace(s[0]) {
        assert s[..k][1..] == s[1..][..k - 1];
        WordsPrefix(s[1..], k - 1);
      } else {
        WordsPrefixToken(s, k);
      }
    }
  }

  /** `WordsPrefix` when the text starts with a word: the prefix shares it or cuts it short. */
  lemma {:induction false} WordsPrefixToken(s: string, k: nat)
    requires 0 < k <= |s| && !IsSpace(s[0])
    ensures |Words(s[..k])| <= |Words(s)|
    decreases |s|, 0
  {
    var p := s[..k];
    var n := TokenLen(s);
    if k <= n {
      TokenLenUnique(p, k);
      assert p[k..] == [];
    } else {
      TokenLenUnique(p, n);
      assert p[n..] == s[n..][..k - n];
      WordsPrefix(s[n..], k - n);
    }
  }

  /** Gluing non-space characters to the last word does not add a word. */
  lemma {:induction false} WordsExtendLast(x: string, y: string)
    requires |x| > 0 && !IsSpace(x[|x| - 1])
    requires forall i :: 0 <= i < |y| ==> !IsSpace(y[i])
    ensures |Words(x + y)| == |Words(x)|
    decreases |x|
  {
    var s := x + y;
    if IsSpace(x[0]) {
      assert s[1..] == x[1..] + y;
      WordsExtendLast(x[1..], y);
    } else {
      var n := TokenLen(x);
      if n == |x| {
        TokenLenUnique(s, |s|);
        assert s[|s|..] == [] && x[n..] == [];
      } else {
        TokenLenUnique(s, n);
        assert s[n..] == x[n..] + y;
        WordsExtendLast(x[n..], y);
      }
    }
  }

  /** Tokens joined by single spaces need no stripping. */
  lemma {:induction false} JoinTokensStripped(ws: seq<string>)
    requires |ws| > 0
    requires forall i :: 0 <= i < |ws| ==> IsToken(ws[i])
    ensures Stripped(JoinWith(" ", ws))
    decreases |ws|
  {
    if |ws| > 1 {
      JoinTokensStripped(ws[1..]);
    }
  }

  // ---------------------------------------------------------------------------
  // rfind, replace and re.sub(r"\b...\b")
  // ---------------------------------------------------------------------------

  function RFindFrom(s: string, pat: string, i: int): (r: int)
    requires -1 <= i && i + |pat| <= |s|
    ensures -1 <= r <= i
    ensures r >= 0 ==> HasAt(s, r, pat)
    ensures forall j :: r < j <= i ==> !HasAt(s, j, pat)
    decreases i + 1
  {
    if i < 0 then -1
    else if s[i..i + |pat|] == pat then i
    else RFindFrom(s, pat, i - 1)
  }

  /** Python's `s.rfind(pat)`: the last index where `pat` occurs, or -1. */
  function RFind(s: string, pat: string): (r: int)
    ensures -1 <= r && (r >= 0 ==> r + |pat| <= |s|)
    ensures r >= 0 ==> HasAt(s, r, pat)
    ensures forall j: nat :: r < j ==> !HasAt(s, j, pat)
  {
    if |pat| > |s| then -1 else RFindFrom(s, pat, |s| - |pat|)
  }

  /** Python's `s.replace(target, repl)`: every non-overlapping occurrence, scanning left to right. */
  function Replace(s: string, target: string, repl: string): string
    requires |target| > 0
    decreases |s|
  {
    if |s| < |target| then s
    else if HasAt(s, 0, target) then repl + Replace(s[|target|..], target, repl)
    else [s[0]] + Replace(s[1..], target, repl)
  }

  /** A text in which `target` does not occur comes back unchanged. */
  lemma {:induction false} ReplaceAbsent(s: string, target: string, repl: string)
    requires |target| > 0 && !Occurs(s, target)
    ensures Replace(s, target, repl) == s
    decreases |s|
  {
    if |s| >= |target| {
      assert !HasAt(s, 0, target);
      OccursTail(s, target);
      ReplaceAbsent(s[1..], target, repl);
    }
  }

  /** An occurrence after the first character is an occurrence. */
  lemma OccursTail(s: string, lit: string)
    requires |s| > 0
    ensures Occurs(s[1..], lit) ==> Occurs(s, lit)
  {
    if Occurs(s[1..], lit) {
      var j :| 0 <= j <= |s[1..]| && HasAt(s[1..], j, lit);
      assert s[1..][j..j + |lit|] == s[j + 1..j + 1 + |lit|];
      assert HasAt(s, j + 1, lit);
    }
  }

  lemma ReplaceHit(s: string, target: string, repl: string)
    requires |target| > 0 && HasAt(s, 0, target)
    ensures Replace(s, target, repl) == repl + Replace(s[|target|..], target, repl)
  {
  }

  lemma ReplaceSkip(s: string, target: string, repl: string)
    requires |target| > 0 && |target| <= |s| && !HasAt(s, 0, target)
    ensures Replace(s, target, repl) == [s[0]] + Replace(s[1..], target, repl)
  {
  }

  /** `target` starts at no index before `i`. */
  predicate NoHitBefore(s: string, target: string, i: nat) {
    forall j: nat :: j < i ==> !HasAt(s, j, target)
  }

  /** The leftmost occurrence is the first one replaced; what precedes it is kept. */
  lemma ReplaceLeftmost(s: string, target: string, repl: string, i: nat)
    requires |target| > 0 && HasAt(s, i, target) && NoHitBefore(s, target, i)
    ensures Replace(s, target, repl) == s[..i] + repl + Replace(s[i + |target|..], target, repl)
  {
    ReplaceFrom(s, target, repl, 0, i);
    assert s[0..] == s && s[0..i] == s[..i];
  }

  /** `ReplaceLeftmost` on the suffix from `k`, by induction on the distance to `i`. */
  lemma {:induction false} ReplaceFrom(s: string, target: string, repl: string, k: nat, i: nat)
    requires |target| > 0 && k <= i && HasAt(s, i, target) && NoHitBefore(s, target, i)
    ensures Replace(s[k..], target, repl) == s[k..i] + repl + Replace(s[i + |target|..], target, repl)
    decreases i - k
  {
    if k == i {
      FromHit(s, target, repl, i);
    } else {
      ReplaceFrom(s, target, repl, k + 1, i);
      FromSkip(s, target, repl, k, i);
    }
  }

  /** The occurrence at `i` itself is replaced. */
  lemma FromHit(s: string, target: string, repl: string, i: nat)
    requires |target| > 0 && HasAt(s, i, target)
    ensures Replace(s[i..], target, repl) == s[i..i] + repl + Replace(s[i + |target|..], target, repl)
  {
    assert s[i..][0..|target|] == s[i..i + |target|];
    assert s[i..][|target|..] == s[i + |target|..];
    ReplaceHit(s[i..], target, repl);
    assert s[i..i] == [];
  }

  /** A character at `k` that starts no occurrence is kept in front. */
  lemma FromSkip(s: string, target: string, repl: string, k: nat, i: nat)
    requires |target| > 0 && k < i && i + |target| <= |s| && !HasAt(s, k, target)
    requires Replace(s[k + 1..], target, repl) == s[k + 1..i] + repl + Replace(s[i + |target|..], target, repl)
    ensures Replace(s[k..], target, repl) == s[k..i] + repl + Replace(s[i + |target|..], target, repl)
  {
    assert s[k..][0..|target|] == s[k..k + |target|];
    assert s[k..][1..] == s[k + 1..];
    ReplaceSkip(s[k..], target, repl);
    assert s[k..i] == [s[k]] + s[k + 1..i];
    ConcatRegroup([s[k]], s[k + 1..i], repl, Replace(s[i + |target|..], target, repl));
  }

  /** Regrouping a concatenation of four texts. */
  lemma ConcatRegroup(a: string, b: string, c: string, d: string)
    ensures a + (b + c + d) == (a + b) + c + d
  {
  }

  /** Replacing by a visible text keeps a visible text visible. */
  lemma {:induction false} ReplaceVisible(s: string, target: string, repl: string)
    requires |target| > 0 && Visible(s) && Visible(repl)
    ensures Visible(Replace(s, target, repl))
    decreases |s|
  {
    var r := Replace(s, target, repl);
    if |s| >= |target| {
      if s[..|target|] == target {
        var i :| 0 <= i < |repl| && !IsSpace(repl[i]);
        assert r[i] == repl[i];
      } else if !IsSpace(s[0]) {
        assert r[0] == s[0];
      } else {
        assert Visible(s[1..]) by {
          var i :| 0 <= i < |s| && !IsSpace(s[i]);
          assert i > 0 && s[1..][i - 1] == s[i];
        }
        ReplaceVisible(s[1..], target, repl);
        var rest := Replace(s[1..], target, repl);
        var i :| 0 <= i < |rest| && !IsSpace(rest[i]);
        assert r[i + 1] == rest[i];
      }
    }
  }

  /**
   * `re.sub(r"\b" + phrase + r"\b", rep, s)` for a phrase that begins and ends with a word
   * character; `prevWord` tells whether the character before `s` in the original text is one.
   */
  function ReplaceWordAfter(s: string, prevWord: bool, phrase: string, rep: string): string
    requires |phrase| > 0
    decreases |s|
  {
    if |s| < |phrase| then s
    else if !prevWord && HasAt(s, 0, phrase) && (|s| == |phrase| || !IsWordChar(s[|phrase|])) then
      rep + ReplaceWordAfter(s[|phrase|..], true, phrase, rep)
    else [s[0]] + ReplaceWordAfter(s[1..], IsWordChar(s[0]), phrase, rep)
  }

  function ReplaceWord(s: string, phrase: string, rep: string): string
    requires |phrase| > 0
  {
    ReplaceWordAfter(s, false, phrase, rep)
  }

  /** `phrase` occurs at `i` with `\b` on both sides: no word character touches it. */
  predicate WordHitAt(s: string, i: nat, phrase: string) {
    HasAt(s, i, phrase)
    && (i == 0 || !IsWordChar(s[i - 1]))
    && (i + |phrase| == |s| || !IsWordChar(s[i + |phrase|]))
  }

  /** No word-bounded occurrence of `phrase` starts before `i`. */
  predicate NoWordHitBefore(s: string, phrase: string, i: nat) {
    forall j: nat :: j < i ==> !WordHitAt(s, j, phrase)
  }

  /**
   * The leftmost word-bounded occurrence is the first one `re.sub` replaces: everything
   * before it is kept, including occurrences glued to a word character, and the rest is
   * processed after a word character.
   */
  lemma ReplaceWordLeftmost(s: string, phrase: string, rep: string, i: nat)
    requires |phrase| > 0 && WordHitAt(s, i, phrase) && NoWordHitBefore(s, phrase, i)
    ensures ReplaceWord(s, phrase, rep) == s[..i] + rep + ReplaceWordAfter(s[i + |phrase|..], true, phrase, rep)
  {
    WordFrom(s, phrase, rep, 0, i);
    assert s[0..] == s && s[0..i] == s[..i];
  }

  /** `ReplaceWordLeftmost` on the suffix from `k`, by induction on the distance to `i`. */
  lemma {:induction false} WordFrom(s: string, phrase: string, rep: string, k: nat, i: nat)
    requires |phrase| > 0 && k <= i && WordHitAt(s, i, phrase) && NoWordHitBefore(s, phrase, i)
    ensures ReplaceWordAfter(s[k..], k > 0 && IsWordChar(s[k - 1]), phrase, rep)
      == s[k..i] + rep + ReplaceWordAfter(s[i + |phrase|..], true, phrase, rep)
    decreases i - k
  {
    if k == i {
      WordFromHit(s, phrase, rep, i);
    } else {
      var rest := ReplaceWordAfter(s[i + |phrase|..], true, phrase, rep);
      assert ReplaceWordAfter(s[k + 1..], IsWordChar(s[k]), phrase, rep) == s[k + 1..i] + rep + rest by {
        WordFrom(s, phrase, rep, k + 1, i);
        assert s[k + 1 - 1] == s[k];
      }
      assert !WordHitAt(s, k, phrase) && i + |phrase| <= |s| by {
        assert k < i;
      }
      WordFromSkip(s, phrase, rep, k, i, rest);
    }
  }

  /** The word-bounded occurrence at `i` itself is replaced. */
  lemma WordFromHit(s: string, phrase: string, rep: string, i: nat)
    requires |phrase| > 0 && WordHitAt(s, i, phrase)
    ensures ReplaceWordAfter(s[i..], i > 0 && IsWordChar(s[i - 1]), phrase, rep)
      == s[i..i] + rep + ReplaceWordAfter(s[i + |phrase|..], true, phrase, rep)
  {
    assert s[i..][0..|phrase|] == s[i..i + |phrase|];
    assert s[i..][|phrase|..] == s[i + |phrase|..];
    assert |s[i..]| == |phrase| || s[i..][|phrase|] == s[i + |phrase|];
    assert s[i..i] == [];
  }

  /** A character at `k` that starts no word-bounded occurrence is kept in front. */
  lemma WordFromSkip(s: string, phrase: string, rep: string, k: nat, i: nat, rest: string)
    requires |phrase| > 0 && k < i && i + |phrase| <= |s| && !WordHitAt(s, k, phrase)
    requires ReplaceWordAfter(s[k + 1..], IsWordChar(s[k]), phrase, rep) == s[k + 1..i] + rep + rest
    ensures ReplaceWordAfter(s[k..], k > 0 && IsWordChar(s[k - 1]), phrase, rep) == s[k..i] + rep + rest
  {
    assert s[k..][0..|phrase|] == s[k..k + |phrase|];
    assert s[k..][1..] == s[k + 1..];
    assert k + |phrase| < |s| ==> s[k..][|phrase|] == s[k + |phrase|];
    assert s[k..i] == [s[k]] + s[k + 1..i];
    ConcatRegroup([s[k]], s[k + 1..i], rep, rest);
  }

  lemma {:induction false} ReplaceWordAbsent(s: string, prevWord: bool, phrase: string, rep: string)
    requires |phrase| > 0 && !Occurs(s, phrase)
    ensures ReplaceWordAfter(s, prevWord, phrase, rep) == s
    decreases |s|
  {
    if |s| >= |phrase| {
      assert !HasAt(s, 0, phrase);
      OccursTail(s, phrase);
      ReplaceWordAbsent(s[1..], IsWordChar(s[0]), phrase, rep);
    }
  }

  lemma {:induction false} ReplaceWordVisible(s: string, prevWord: bool, phrase: string, rep: string)
    requires |phrase| > 0 && Visible(s) && Visible(rep)
    ensures Visible(ReplaceWordAfter(s, prevWord, phrase, rep))
    decreases |s|
  {
    var r := ReplaceWordAfter(s, prevWord, phrase, rep);
    if |s| >= |phrase| {
      if !prevWord && HasAt(s, 0, phrase) && (|s| == |phrase| || !IsWordChar(s[|phrase|])) {
        var i :| 0 <= i < |rep| && !IsSpace(rep[i]);
        assert r[i] == rep[i];
      } else if !IsSpace(s[0]) {
        assert r[0] == s[0];
      } else {
        assert Visible(s[1..]) by {
          var i :| 0 <= i < |s| && !IsSpace(s[i]);
          assert i > 0 && s[1..][i - 1] == s[i];
        }
        ReplaceWordVisible(s[1..], IsWordChar(s[0]), phrase, rep);
        var rest := ReplaceWordAfter(s[1..], IsWordChar(s[0]), phrase, rep);
        var i :| 0 <= i < |rest| && !IsSpace(rest[i]);
        assert r[i + 1] == rest[i];
      }
    }
  }

  /** A visible pattern cannot occur in a blank text. */
  lemma BlankHasNoVisible(s: string, pat: string)
    requires !Visible(s) && Visible(pat)
    ensures !Occurs(s, pat)
  {
    forall i | 0 <= i <= |s| ensures !HasAt(s, i, pat) {
      if i + |pat| <= |s| {
        var k :| 0 <= k < |pat| && !IsSpace(pat[k]);
        assert IsSpace(s[i + k]);
        assert s[i..i + |pat|][k] != pat[k];
      }
    }
  }

  /** Whitespace in front of a stripped text is all that `strip()` removes. */
  lemma {:induction false} StripBlankPrefix(p: string, s: string)
    requires !Visible(p) && Stripped(s)
    ensures Strip(p + s) == s
    decreases |p|
  {
    if |p| == 0 {
      assert p + s == s;
    } else {
      assert IsSpace(p[0]);
      assert (p + s)[1..] == p[1..] + s;
      assert !Visible(p[1..]) by {
        forall i | 0 <= i < |p| - 1 ensures IsSpace(p[1..][i]) {
          assert p[1..][i] == p[i + 1];
        }
      }
      StripBlankPrefix(p[1..], s);
      assert TrimLeft(p + s) == TrimLeft(p[1..] + s);
    }
  }

  /** Two stripped texts around any separator form a stripped text. */
  lemma StrippedConcat(a: string, sep: string, b: string)
    requires Stripped(a) && Stripped(b)
    ensures Stripped(a + sep + b) && Strip(a + sep + b) == a + sep + b
  {
    var w := a + sep + b;
    assert w[0] == a[0] && w[|w| - 1] == b[|b| - 1];
  }

  /** The pieces of a blank text are blank. */
  lemma {:induction false} SplitOnBlank(s: string, c: char)
    requires !Visible(s)
    ensures forall i :: 0 <= i < |SplitOn(s, c)| ==> !Visible(SplitOn(s, c)[i])
    decreases |s|
  {
    if |s| > 0 {
      assert !Visible(s[1..]) by {
        forall i | 0 <= i < |s| - 1 ensures IsSpace(s[1..][i]) {
          assert s[1..][i] == s[i + 1];
        }
      }
      SplitOnBlank(s[1..], c);
      var rest := SplitOn(s[1..], c);
      assert IsSpace(s[0]);
      if s[0] != c {
        var x := [s[0]] + rest[0];
        assert !Visible(x) by {
          forall i | 0 <= i < |x| ensures IsSpace(x[i]) {
            if i > 0 { assert x[i] == rest[0][i - 1]; }
          }
        }
        assert forall i :: 1 <= i < |SplitOn(s, c)| ==> SplitOn(s, c)[i] == rest[i];
      } else {
        assert forall i :: 1 <= i < |SplitOn(s, c)| ==> SplitOn(s, c)[i] == rest[i - 1];
      }
    }
  }

  /** Blank parts joined with a blank separator give a blank text. */
  lemma {:induction false} JoinBlank(sep: string, parts: seq<string>)
    requires !Visible(sep)
    requires forall i :: 0 <= i < |parts| ==> !Visible(parts[i])
    ensures !Visible(JoinWith(sep, parts))
    decreases |parts|
  {
    if |parts| > 1 {
      JoinBlank(sep, parts[1..]);
      var rest := JoinWith(sep, parts[1..]);
      var w := parts[0] + sep + rest;
      forall i | 0 <= i < |w| ensures IsSpace(w[i]) {
        if i < |parts[0]| {
          assert w[i] == parts[0][i];
        } else if i < |parts[0]| + |sep| {
          assert w[i] == sep[i - |parts[0]|];
        } else {
          assert w[i] == rest[i - |parts[0]| - |sep|];
        }
      }
    }
  }

  /** `strip()` keeps a text free of capitals. */
  lemma StripNoUpper(s: string)
    requires NoUpper(s)
    ensures NoUpper(Strip(s))
  {
    var l := TrimLeft(s);
    var r := TrimRight(l);
    forall i | 0 <= i < |r| ensures !IsUpper(r[i]) {
      assert r[i] == l[i] == s[|s| - |l| + i];
    }
  }

  /** `s.replace(a, b)` for one character by one character: each `a` becomes `b`, the rest stays. */
  lemma {:induction false} ReplaceOneChar(s: string, a: char, b: char)
    ensures |Replace(s, [a], [b])| == |s|
    ensures forall i :: 0 <= i < |s| ==> Replace(s, [a], [b])[i] == (if s[i] == a then b else s[i])
    decreases |s|
  {
    if |s| > 0 {
      ReplaceOneChar(s[1..], a, b);
      var rest := Replace(s[1..], [a], [b]);
      assert s[..1] == [s[0]];
      var r := Replace(s, [a], [b]);
      assert r == [if s[0] == a then b else s[0]] + rest;
      forall i | 0 < i < |s| ensures r[i] == (if s[i] == a then b else s[i]) {
        assert r[i] == rest[i - 1] && s[1..][i - 1] == s[i];
      }
    }
  }

  /** A character that is not in `s` does not occur in it as a one-character string. */
  lemma CharAbsent(s: string, c: char)
    requires c !in s
    ensures !Occurs(s, [c])
  {
    if Occurs(s, [c]) {
      OccursChar(s, c);
    }
  }

  /** A one-character string that occurs in `s` is one of its characters. */
  lemma OccursChar(s: string, c: char)
    requires Occurs(s, [c])
    ensures c in s
  {
    var i :| 0 <= i <= |s| && HasAt(s, i, [c]);
    assert s[i..i + 1][0] == s[i];
  }
}
