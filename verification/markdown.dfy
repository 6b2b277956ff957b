/** The reply clean-up of the chat module: `_markdown_to_text` (apps/GPT/app.py)
    applies six regular-expression substitutions and a strip, and the answer
    path first collapses whitespace and afterwards removes double quotes.
    Each substitution is modelled as the left-to-right scan Python's `re.sub`
    performs, and each is proved to delete characters only. */
module Markdown {
  import opened Wrappers
  import opened Text

  predicate IsDigit(c: char) { '0' <= c <= '9' }
  predicate IsNewline(c: char) { c == '\n' }
  predicate IsQuote(c: char) { c == '"' }

  /** Characters the emphasis substitutions may delete: the delimiters. */
  predicate IsEmphasisMark(c: char) { c == '*' || c == '_' }

  /** Characters a list-marker or rule substitution may delete. */
  predicate IsLineMarkup(c: char) { IsSpace(c) || IsDigit(c) || c in "-*+_." }

  /** Everything `_markdown_to_text` may delete. */
  predicate IsMarkdownDeletable(c: char) { IsLineMarkup(c) || IsEmphasisMark(c) }

  /** Everything the whole reply clean-up may delete after the whitespace collapse. */
  predicate IsReplyDeletable(c: char) { IsMarkdownDeletable(c) || IsQuote(c) }

  // ---------------------------------------------------------------------------
  // Emphasis: (\*\*|__)(.*?)\1 -> \2, then (\*|_)(.*?)\1 -> \2

  /** Delimiter `d` occurs in `s` at index `m`. */
  predicate ClosesAt(s: string, m: nat, d: string)
  {
    m + |d| <= |s| && s[m..m + |d|] == d
  }

  /** No newline among `s[k..m]`. */
  predicate NoNewlineIn(s: string, k: nat, m: nat)
    requires k <= m <= |s|
  {
    forall q :: k <= q < m ==> s[q] != '\n'
  }

  /** The lazy `(.*?)\1` search: the first index `j >= k` at which delimiter `d`
      occurs, provided no newline (which `.` does not match) comes before it;
      None exactly when no occurrence is reachable without crossing a newline. */
  function FindClose(s: string, k: nat, d: string): (j: Option<nat>)
    requires |d| > 0 && k <= |s|
    ensures j.Some? ==> k <= j.value && ClosesAt(s, j.value, d) && s[j.value..j.value + |d|] == d
    ensures j.Some? ==> NoNewlineIn(s, k, j.value) && forall m {:trigger ClosesAt(s, m, d)} :: k <= m < j.value ==> !ClosesAt(s, m, d)
    ensures j.None? ==> forall m {:trigger ClosesAt(s, m, d)} :: k <= m <= |s| && NoNewlineIn(s, k, m) ==> !ClosesAt(s, m, d)
    decreases |s| - k
  {
    if k + |d| <= |s| && s[k..k + |d|] == d then Some(k)
    else if k < |s| && s[k] != '\n' then
      var j := FindClose(s, k + 1, d);
      forall m | k < m <= |s| && NoNewlineIn(s, k, m) && j.None?
        ensures !ClosesAt(s, m, d)
      {
        assert NoNewlineIn(s, k + 1, m);
      }
      j
    else None
  }

  /** The lazy search finds the first occurrence of `d` when nothing before it
      is a newline or an occurrence. */
  lemma FindCloseFirst(s: string, k: nat, d: string, j: nat)
    requires |d| > 0 && k <= j && ClosesAt(s, j, d)
    requires forall m :: k <= m < j ==> s[m] != '\n' && !ClosesAt(s, m, d)
    ensures FindClose(s, k, d) == Some(j)
  {
    assert NoNewlineIn(s, k, j);
  }

  /** The first alternative delimiter that opens at the start of `s` and has a
      closing occurrence: its length and the index of the closing delimiter. */
  function PairAt(s: string, alts: seq<string>): (m: Option<(nat, nat)>)
    requires forall a :: a in alts ==> |a| > 0
    ensures m.Some? ==> 0 < m.value.0 <= m.value.1 && m.value.1 + m.value.0 <= |s|
    ensures m.Some? ==> s[..m.value.0] in alts && s[m.value.1..m.value.1 + m.value.0] == s[..m.value.0]
    decreases |alts|
  {
    if |alts| == 0 then None
    else
      var d := alts[0];
      if |d| <= |s| && s[..|d|] == d && FindClose(s, |d|, d).Some? then
        Some((|d|, FindClose(s, |d|, d).value))
      else PairAt(s, alts[1..])
  }

  /** Delimiter alternatives: non-empty strings of emphasis marks. */
  predicate Delimiters(alts: seq<string>)
  {
    forall a :: a in alts ==> |a| > 0 && forall i :: 0 <= i < |a| ==> IsEmphasisMark(a[i])
  }

  /** An opening delimiter consists of emphasis marks. */
  lemma OpeningIsMarks(s: string, alts: seq<string>, n: nat)
    requires Delimiters(alts) && n <= |s| && s[..n] in alts
    ensures forall i :: 0 <= i < n ==> IsEmphasisMark(s[i])
  {
    var a := s[..n];
    assert forall i :: 0 <= i < n ==> a[i] == s[i];
  }

  /** One emphasis substitution: each delimited span is replaced by its content. */
  function StripEmphasis(s: string, alts: seq<string>): (r: string)
    requires Delimiters(alts)
    ensures Erases(r, s, IsEmphasisMark)
    ensures PairAt(s, alts).Some? ==>
      var n, j := PairAt(s, alts).value.0, PairAt(s, alts).value.1;
      Erases(r, s[n..j] + s[j + n..], IsEmphasisMark)
    decreases |s|
  {
    if |s| == 0 then ""
    else
      var m := PairAt(s, alts);
      if m.Some? then
        var n, j := m.value.0, m.value.1;
        var rest := StripEmphasis(s[j + n..], alts);
        OpeningIsMarks(s, alts, n);
        ErasePair(s, n, j, rest);
        ErasesRefl(s[n..j], IsEmphasisMark);
        ErasesConcat(s[n..j], s[n..j], rest, s[j + n..], IsEmphasisMark);
        s[n..j] + rest
      else
        var rest := StripEmphasis(s[1..], alts);
        ErasesCons(s[0], rest, s[1..], IsEmphasisMark);
        assert [s[0]] + s[1..] == s;
        [s[0]] + rest
  }

  /** Replacing a delimited span by its content deletes only the delimiters. */
  lemma ErasePair(s: string, n: nat, j: nat, rest: string)
    requires 0 < n <= j && j + n <= |s|
    requires forall i :: 0 <= i < n ==> IsEmphasisMark(s[i])
    requires s[j..j + n] == s[..n]
    requires Erases(rest, s[j + n..], IsEmphasisMark)
    ensures Erases(s[n..j] + rest, s, IsEmphasisMark)
  {
    var close := s[j..];
    assert Erases(rest, close, IsEmphasisMark) by {
      assert close[n..] == s[j + n..];
      assert forall i :: 0 <= i < n ==> close[i] == s[i];
      ErasesDropPrefix(close, n, rest, IsEmphasisMark);
    }
    var content := s[n..j];
    assert Erases(content + rest, s[n..], IsEmphasisMark) by {
      ErasesRefl(content, IsEmphasisMark);
      ErasesConcat(content, content, rest, close, IsEmphasisMark);
      assert content + close == s[n..];
    }
    ErasesDropPrefix(s, n, content + rest, IsEmphasisMark);
  }

  /** A string made only of deletable characters can be deleted entirely. */
  lemma {:induction false} DeletableErases(s: string, drop: char -> bool)
    requires forall i :: 0 <= i < |s| ==> drop(s[i])
    ensures Erases("", s, drop)
    decreases |s|
  {
    if |s| > 0 {
      DeletableErases(s[1..], drop);
    }
  }

  const StrongDelimiters: seq<string> := ["**", "__"]
  const WeakDelimiters: seq<string> := ["*", "_"]

  lemma DelimiterConstants()
    ensures Delimiters(StrongDelimiters) && Delimiters(WeakDelimiters)
  {
    assert forall a :: a in StrongDelimiters ==> a == "**" || a == "__";
    assert forall a :: a in WeakDelimiters ==> a == "*" || a == "_";
  }

  // ---------------------------------------------------------------------------
  // Line-anchored deletions (MULTILINE): ^\s*[-*+]\s+, ^\s*\d+\.\s+, ^[-*_]{3,}$

  datatype LinePattern = Bullet | Numbered | Rule

  predicate IsBulletMark(c: char) { c == '-' || c == '*' || c == '+' }
  predicate IsRuleMark(c: char) { c == '-' || c == '*' || c == '_' }

  predicate AllDigits(s: string) { forall i :: 0 <= i < |s| ==> IsDigit(s[i]) }
  predicate AllRuleMarks(s: string) { forall i :: 0 <= i < |s| ==> IsRuleMark(s[i]) }

  /** `^\s*[-*+]\s+` matches at the start of `s`: whitespace, a bullet mark,
      and at least one more whitespace character. */
  predicate BulletLine(s: string)
  {
    exists k :: 0 <= k < |s| && BulletAt(s, k)
  }

  /** A bullet marker read with `k` leading whitespace characters. */
  predicate BulletAt(s: string, k: int)
  {
    0 <= k && k + 1 < |s| && AllSpace(s[..k]) && IsBulletMark(s[k]) && IsSpace(s[k + 1])
  }

  /** `^\s*\d+\.\s+` matches at the start of `s`: whitespace, one or more
      digits, a full stop, and at least one whitespace character. */
  predicate NumberedLine(s: string)
  {
    exists k, d :: 0 <= k < d < |s| && NumberedAt(s, k, d)
  }

  /** A numbered marker read with `k` leading whitespace characters and its
      full stop at `d`. */
  predicate NumberedAt(s: string, k: int, d: int)
  {
    0 <= k < d && d + 1 < |s| && AllSpace(s[..k]) && AllDigits(s[k..d]) && s[d] == '.' && IsSpace(s[d + 1])
  }

  /** `^[-*_]{3,}$` matches at the start of `s`: three or more rule marks
      that reach the end of the line. */
  predicate RuleLine(s: string)
  {
    exists e :: 3 <= e <= |s| && RuleAt(s, e)
  }

  /** A rule read as the first `e` characters of the line. */
  predicate RuleAt(s: string, e: int)
  {
    3 <= e <= |s| && AllRuleMarks(s[..e]) && (e == |s| || s[e] == '\n')
  }

  predicate MarkerAt(s: string, p: LinePattern)
  {
    match p
    case Bullet => BulletLine(s)
    case Numbered => NumberedLine(s)
    case Rule => RuleLine(s)
  }

  /** A run end is determined by where the run stops. */
  lemma RunEndAt(s: string, k: nat, p: char -> bool, e: nat)
    requires k <= e <= |s| && (forall i :: k <= i < e ==> p(s[i])) && (e == |s| || !p(s[e]))
    ensures RunEnd(s, k, p) == e
  {
  }

  lemma SpacePrefix(s: string, k: nat)
    requires k <= |s| && AllSpace(s[..k])
    ensures forall i :: 0 <= i < k ==> IsSpace(s[i])
  {
    assert forall i :: 0 <= i < k ==> s[..k][i] == s[i];
  }

  lemma DigitSlice(s: string, k: nat, d: nat)
    requires k <= d <= |s| && AllDigits(s[k..d])
    ensures forall i :: k <= i < d ==> IsDigit(s[i])
  {
    assert forall i :: k <= i < d ==> s[k..d][i - k] == s[i];
  }

  lemma RuleMarkPrefix(s: string, e: nat)
    requires e <= |s| && AllRuleMarks(s[..e])
    ensures forall i :: 0 <= i < e ==> IsRuleMark(s[i])
  {
    assert forall i :: 0 <= i < e ==> s[..e][i] == s[i];
  }

  lemma BulletLineAt(s: string, k: nat)
    requires k == RunEnd(s, 0, IsSpace)
    ensures BulletLine(s) <==> k + 1 < |s| && IsBulletMark(s[k]) && IsSpace(s[k + 1])
  {
    if k + 1 < |s| && IsBulletMark(s[k]) && IsSpace(s[k + 1]) {
      BulletReading(s, k);
    }
    if BulletLine(s) {
      BulletWitness(s, k);
    }
  }

  /** The maximal whitespace run reads as a bullet marker. */
  lemma BulletReading(s: string, k: nat)
    requires k == RunEnd(s, 0, IsSpace)
    requires k + 1 < |s| && IsBulletMark(s[k]) && IsSpace(s[k + 1])
    ensures BulletAt(s, k)
  {
    assert forall i :: 0 <= i < k ==> s[..k][i] == s[i];
  }

  /** The only reading of a bullet marker is the maximal one. */
  lemma BulletWitness(s: string, k: nat)
    requires k == RunEnd(s, 0, IsSpace) && BulletLine(s)
    ensures k + 1 < |s| && IsBulletMark(s[k]) && IsSpace(s[k + 1])
  {
    var k' :| 0 <= k' < |s| && BulletAt(s, k');
    BulletRun(s, k');
  }

  lemma BulletRun(s: string, k: nat)
    requires BulletAt(s, k)
    ensures RunEnd(s, 0, IsSpace) == k
  {
    SpacePrefix(s, k);
    RunEndAt(s, 0, IsSpace, k);
  }

  lemma NumberedLineAt(s: string, k: nat, d: nat)
    requires k == RunEnd(s, 0, IsSpace) && d == RunEnd(s, k, IsDigit)
    ensures NumberedLine(s) <==> d > k && d + 1 < |s| && s[d] == '.' && IsSpace(s[d + 1])
  {
    if d > k && d + 1 < |s| && s[d] == '.' && IsSpace(s[d + 1]) {
      NumberedReading(s, k, d);
    }
    if NumberedLine(s) {
      NumberedWitness(s, k, d);
    }
  }

  /** The maximal runs read as a numbered marker. */
  lemma NumberedReading(s: string, k: nat, d: nat)
    requires k == RunEnd(s, 0, IsSpace) && d == RunEnd(s, k, IsDigit)
    requires d > k && d + 1 < |s| && s[d] == '.' && IsSpace(s[d + 1])
    ensures NumberedAt(s, k, d)
  {
    assert AllSpace(s[..k]) by {
      assert forall i :: 0 <= i < k ==> s[..k][i] == s[i];
    }
    assert AllDigits(s[k..d]) by {
      assert forall i :: 0 <= i < d - k ==> s[k..d][i] == s[k + i];
    }
  }

  /** The only reading of a numbered marker is the maximal one. */
  lemma NumberedWitness(s: string, k: nat, d: nat)
    requires k == RunEnd(s, 0, IsSpace) && d == RunEnd(s, k, IsDigit)
    requires NumberedLine(s)
    ensures d > k && d + 1 < |s| && s[d] == '.' && IsSpace(s[d + 1])
  {
    var k', d' :| 0 <= k' < d' < |s| && NumberedAt(s, k', d');
    NumberedRuns(s, k', d');
  }

  /** A numbered reading's whitespace and digits are the maximal runs. */
  lemma NumberedRuns(s: string, k: nat, d: nat)
    requires k < d < |s| && AllSpace(s[..k]) && AllDigits(s[k..d]) && s[d] == '.'
    ensures RunEnd(s, 0, IsSpace) == k && RunEnd(s, k, IsDigit) == d
  {
    SpacePrefix(s, k);
    DigitSlice(s, k, d);
    assert !IsSpace(s[k]) by {
      assert IsDigit(s[k]);
    }
    RunEndAt(s, 0, IsSpace, k);
    RunEndAt(s, k, IsDigit, d);
  }

  lemma RuleLineAt(s: string, e: nat)
    requires e == RunEnd(s, 0, IsRuleMark)
    ensures RuleLine(s) <==> e >= 3 && (e == |s| || s[e] == '\n')
  {
    if e >= 3 && (e == |s| || s[e] == '\n') {
      assert RuleAt(s, e) by {
        assert forall i :: 0 <= i < e ==> s[..e][i] == s[i];
      }
    }
    if RuleLine(s) {
      RuleWitness(s, e);
    }
  }

  /** The only reading of a rule is the maximal run of rule marks. */
  lemma RuleWitness(s: string, e: nat)
    requires e == RunEnd(s, 0, IsRuleMark) && RuleLine(s)
    ensures e >= 3 && (e == |s| || s[e] == '\n')
  {
    var e' :| 3 <= e' <= |s| && RuleAt(s, e');
    RuleMarkPrefix(s, e');
    RunEndAt(s, 0, IsRuleMark, e');
  }

  /** Where a match of `p` anchored at the start of `s` ends, if it matches:
      a match exists exactly when the pattern reads `s` that way, and it
      takes all whitespace after a list marker. */
  function MatchAt(s: string, p: LinePattern): (e: Option<nat>)
    ensures e.Some? <==> MarkerAt(s, p)
    ensures e.Some? ==> 0 < e.value <= |s| && forall i :: 0 <= i < e.value ==> IsLineMarkup(s[i])
    ensures e.Some? && p != Rule ==> e.value == |s| || !IsSpace(s[e.value])
    ensures e.Some? && p == Rule ==> e.value == |s| || s[e.value] == '\n'
  {
    match p
    case Bullet => MatchBullet(s)
    case Numbered => MatchNumbered(s)
    case Rule => MatchRule(s)
  }

  function MatchBullet(s: string): (e: Option<nat>)
    ensures e.Some? <==> BulletLine(s)
    ensures e.Some? ==> 0 < e.value <= |s| && forall i :: 0 <= i < e.value ==> IsLineMarkup(s[i])
    ensures e.Some? ==> e.value == |s| || !IsSpace(s[e.value])
  {
    var k := RunEnd(s, 0, IsSpace);
    BulletLineAt(s, k);
    if k < |s| && IsBulletMark(s[k]) then
      var e := RunEnd(s, k + 1, IsSpace);
      if e > k + 1 then Some(e) else None
    else None
  }

  function MatchNumbered(s: string): (e: Option<nat>)
    ensures e.Some? <==> NumberedLine(s)
    ensures e.Some? ==> 0 < e.value <= |s| && forall i :: 0 <= i < e.value ==> IsLineMarkup(s[i])
    ensures e.Some? ==> e.value == |s| || !IsSpace(s[e.value])
  {
    var k := RunEnd(s, 0, IsSpace);
    var d := RunEnd(s, k, IsDigit);
    NumberedLineAt(s, k, d);
    if d > k && d < |s| && s[d] == '.' then
      var e := RunEnd(s, d + 1, IsSpace);
      if e > d + 1 then Some(e) else None
    else None
  }

  function MatchRule(s: string): (e: Option<nat>)
    ensures e.Some? <==> RuleLine(s)
    ensures e.Some? ==> 0 < e.value <= |s| && forall i :: 0 <= i < e.value ==> IsLineMarkup(s[i])
    ensures e.Some? ==> e.value == |s| || s[e.value] == '\n'
  {
    var e := RunEnd(s, 0, IsRuleMark);
    RuleLineAt(s, e);
    if e >= 3 && (e == |s| || s[e] == '\n') then Some(e) else None
  }

  /** `re.sub(pattern, "", s, flags=re.MULTILINE)`: a match may only start at a
      line start (`atLineStart` says whether index 0 of `s` is one); scanning
      resumes at the end of each match. */
  function DeleteAtLineStarts(s: string, atLineStart: bool, p: LinePattern): (r: string)
    ensures Erases(r, s, IsLineMarkup)
    ensures atLineStart && MatchAt(s, p).Some? ==> Erases(r, s[MatchAt(s, p).value..], IsLineMarkup)
    decreases |s|
  {
    if |s| == 0 then ""
    else if atLineStart && MatchAt(s, p).Some? then
      var e := MatchAt(s, p).value;
      var rest := DeleteAtLineStarts(s[e..], s[e - 1] == '\n', p);
      ErasesDropPrefix(s, e, rest, IsLineMarkup);
      rest
    else
      var rest := DeleteAtLineStarts(s[1..], s[0] == '\n', p);
      ErasesCons(s[0], rest, s[1..], IsLineMarkup);
      assert [s[0]] + s[1..] == s;
      [s[0]] + rest
  }

  // ---------------------------------------------------------------------------
  // \n{2,} -> \n\n

  /** `re.sub(r"\n{2,}", "\n\n", s)`: runs of newlines are cut to two. */
  function CollapseNewlines(s: string): (r: string)
    ensures Erases(r, s, IsNewline)
    ensures forall i :: 0 <= i < |r| - 2 ==> !(r[i] == '\n' && r[i + 1] == '\n' && r[i + 2] == '\n')
    ensures |s| > 0 ==> |r| > 0 && r[0] == s[0]
    decreases |s|
  {
    if |s| >= 2 && s[0] == '\n' && s[1] == '\n' then
      var e := RunEnd(s, 2, IsNewline);
      var rest := CollapseNewlines(s[e..]);
      NewlineRunErases(s, e, rest);
      "\n\n" + rest
    else if |s| == 0 then ""
    else
      var rest := CollapseNewlines(s[1..]);
      ErasesCons(s[0], rest, s[1..], IsNewline);
      assert [s[0]] + s[1..] == s;
      [s[0]] + rest
  }

  lemma NewlineRunErases(s: string, e: nat, rest: string)
    requires 2 <= e <= |s| && s[0] == '\n' && s[1] == '\n'
    requires forall i :: 2 <= i < e ==> s[i] == '\n'
    requires Erases(rest, s[e..], IsNewline)
    ensures Erases("\n\n" + rest, s, IsNewline)
  {
    var t := s[2..];
    assert t[e - 2..] == s[e..];
    ErasesDropPrefix(t, e - 2, rest, IsNewline);
    ErasesCons('\n', rest, t, IsNewline);
    ErasesCons('\n', ['\n'] + rest, ['\n'] + t, IsNewline);
    assert ['\n'] + (['\n'] + t) == s;
    assert ['\n'] + (['\n'] + rest) == "\n\n" + rest;
  }

  // ---------------------------------------------------------------------------
  // The whole conversion

  /** `_markdown_to_text`: emphasis, list markers, rules, blank-line runs,
      strip. Every step deletes characters only, and only markup characters,
      so the plain text is a subsequence of the markdown; it neither begins
      nor ends with whitespace. */
  function MarkdownToText(s: string): (r: string)
    ensures Erases(r, s, IsMarkdownDeletable)
    ensures |r| > 0 ==> !IsSpace(r[0]) && !IsSpace(r[|r| - 1])
  {
    var b := EmphasisPasses(s);
    var e := LinePasses(b);
    var f := CollapseNewlines(e);
    assert Erases(e, s, IsMarkdownDeletable) by {
      ErasesWeaken(b, s, IsEmphasisMark, IsMarkdownDeletable);
      ErasesStep(e, b, s, IsLineMarkup, IsMarkdownDeletable);
    }
    assert Erases(f, s, IsMarkdownDeletable) by {
      ErasesStep(f, e, s, IsNewline, IsMarkdownDeletable);
    }
    StripErases(f);
    ErasesStep(Strip(f), f, s, IsSpace, IsMarkdownDeletable);
    Strip(f)
  }

  /** The two emphasis substitutions, strong delimiters first. */
  function EmphasisPasses(s: string): (r: string)
    ensures Erases(r, s, IsEmphasisMark)
  {
    DelimiterConstants();
    var a := StripEmphasis(s, StrongDelimiters);
    var b := StripEmphasis(a, WeakDelimiters);
    ErasesTrans(b, a, s, IsEmphasisMark);
    b
  }

  /** The three line-anchored substitutions: bullets, numbers, rules. */
  function LinePasses(s: string): (r: string)
    ensures Erases(r, s, IsLineMarkup)
  {
    var c := DeleteAtLineStarts(s, true, Bullet);
    var d := DeleteAtLineStarts(c, true, Numbered);
    var e := DeleteAtLineStarts(d, true, Rule);
    ErasesTrans(d, c, s, IsLineMarkup);
    ErasesTrans(e, d, s, IsLineMarkup);
    e
  }

  /** `s.replace('"', "")`. */
  function RemoveQuotes(s: string): (r: string)
    ensures Erases(r, s, IsQuote)
    ensures forall i :: 0 <= i < |r| ==> r[i] != '"'
    decreases |s|
  {
    if |s| == 0 then ""
    else if s[0] == '"' then RemoveQuotes(s[1..])
    else
      var rest := RemoveQuotes(s[1..]);
      ErasesCons(s[0], rest, s[1..], IsQuote);
      assert [s[0]] + s[1..] == s;
      [s[0]] + rest
  }

  lemma CleanTextErases(s: string)
    ensures Erases(RemoveQuotes(MarkdownToText(s)), s, IsReplyDeletable)
  {
    var text := MarkdownToText(s);
    ErasesWeaken(text, s, IsMarkdownDeletable, IsReplyDeletable);
    ErasesStep(RemoveQuotes(text), text, s, IsQuote, IsReplyDeletable);
  }

  /** The reply the chat module speaks for the model's raw answer `content`
      (apps/GPT/app.py:275-280): strip, collapse whitespace to single spaces,
      convert markdown, remove double quotes. The result has no double quote
      and no whitespace other than the plain space. */
  function CleanReply(content: string): (r: string)
    ensures forall i :: 0 <= i < |r| ==> r[i] != '"'
    ensures forall i :: 0 <= i < |r| && IsSpace(r[i]) ==> r[i] == ' '
  {
    var collapsed := CollapseSpaces(Strip(content));
    var r := RemoveQuotes(MarkdownToText(collapsed));
    CleanTextErases(collapsed);
    ErasesKeepsSpacing(r, collapsed, IsReplyDeletable);
    r
  }

  /** The cleaned reply is the whitespace-collapsed answer with some markup
      characters and quotes deleted: a subsequence that keeps every other
      character. */
  lemma CleanReplyErases(content: string)
    ensures Erases(CleanReply(content), CollapseSpaces(Strip(content)), IsReplyDeletable)
  {
    CleanTextErases(CollapseSpaces(Strip(content)));
  }

  // ---------------------------------------------------------------------------
  // What each substitution removes

  /** Text without emphasis marks or newlines: what a delimited span may hold
      for the lazy search to close at its end. */
  predicate SpanText(w: string)
  {
    forall i :: 0 <= i < |w| ==> !IsEmphasisMark(w[i]) && w[i] != '\n'
  }

  /** The closing delimiter of `d w d` is found right after `w`. */
  lemma FindCloseAround(d: string, w: string)
    requires |d| > 0 && IsEmphasisMark(d[0]) && SpanText(w)
    ensures FindClose(d + w + d, |d|, d) == Some(|d| + |w|)
  {
    var s := d + w + d;
    assert s[|d| + |w|..|d| + |w| + |d|] == d;
    forall m | |d| <= m < |d| + |w|
      ensures s[m] != '\n' && !ClosesAt(s, m, d)
    {
      assert s[m] == w[m - |d|];
      assert s[m..m + |d|][0] == s[m];
    }
    FindCloseFirst(s, |d|, d, |d| + |w|);
  }

  /** Where no span opens, the emphasis scan keeps the first character. */
  lemma StripEmphasisNoPair(s: string, alts: seq<string>)
    requires Delimiters(alts) && |s| > 0 && PairAt(s, alts).None?
    ensures StripEmphasis(s, alts) == [s[0]] + StripEmphasis(s[1..], alts)
  {
  }

  /** A character that is not an emphasis mark is kept by the emphasis scan. */
  lemma StripEmphasisCons(s: string, k: nat, alts: seq<string>)
    requires Delimiters(alts) && 0 < k <= |s| && !IsEmphasisMark(s[k - 1])
    ensures StripEmphasis(s[k - 1..], alts) == [s[k - 1]] + StripEmphasis(s[k..], alts)
  {
    var u := s[k - 1..];
    NoPairWithoutMark(u, alts);
    StripEmphasisNoPair(u, alts);
    assert u[1..] == s[k..];
  }

  /** A prefix without emphasis marks passes the emphasis scan unchanged. */
  lemma {:induction false} StripEmphasisPrefix(s: string, k: nat, alts: seq<string>)
    requires Delimiters(alts) && k <= |s|
    requires forall i :: 0 <= i < k ==> !IsEmphasisMark(s[i])
    ensures StripEmphasis(s, alts) == s[..k] + StripEmphasis(s[k..], alts)
    decreases k
  {
    if k == 0 {
      assert s[..0] == [] && s[0..] == s;
    } else {
      StripEmphasisPrefix(s, k - 1, alts);
      StripEmphasisCons(s, k, alts);
      SnocAssoc(s, k, StripEmphasis(s[k..], alts));
    }
  }

  /** `s[..k-1] + ([s[k-1]] + y)` is `s[..k] + y`. */
  lemma SnocAssoc(s: string, k: nat, y: string)
    requires 0 < k <= |s|
    ensures s[..k - 1] + ([s[k - 1]] + y) == s[..k] + y
  {
    assert s[..k] == s[..k - 1] + [s[k - 1]];
  }

  /** `PairAt` over two alternatives, tried in order. */
  lemma PairAtTwo(s: string, a: string, b: string)
    requires |a| > 0 && |b| > 0
    ensures PairAt(s, [a, b]) ==
      if |a| <= |s| && s[..|a|] == a && FindClose(s, |a|, a).Some? then Some((|a|, FindClose(s, |a|, a).value))
      else if |b| <= |s| && s[..|b|] == b && FindClose(s, |b|, b).Some? then Some((|b|, FindClose(s, |b|, b).value))
      else None
  {
    assert [a, b][1..] == [b];
    assert [b][1..] == [];
  }

  /** One emphasis substitution unwraps `d w d` when `d` is one of its
      delimiters: the span is the first pair, and what is left of it after
      deleting marks from `w` is `w` itself. */
  lemma UnwrapSpan(d: string, w: string, alts: seq<string>)
    requires alts == StrongDelimiters || alts == WeakDelimiters
    requires d in alts && SpanText(w)
    ensures StripEmphasis(d + w + d, alts) == w
  {
    DelimiterConstants();
    var s := d + w + d;
    PairAround(d, w, alts);
    var r := StripEmphasis(s, alts);
    assert s[|d|..|d| + |w|] + s[|d| + |w| + |d|..] == w;
    assert Erases(r, w, IsEmphasisMark);
    ErasesNothing(r, w, IsEmphasisMark);
  }

  /** A delimiter `d` around span text is the first pair of the scan. */
  lemma PairAround(d: string, w: string, alts: seq<string>)
    requires alts == StrongDelimiters || alts == WeakDelimiters
    requires d in alts && SpanText(w)
    ensures PairAt(d + w + d, alts) == Some((|d|, |d| + |w|))
  {
    var s := d + w + d;
    assert IsEmphasisMark(d[0]) by {
      DelimiterConstants();
    }
    FindCloseAround(d, w);
    assert s[..|d|] == d;
    PairAtTwo(s, alts[0], alts[1]);
    assert alts == [alts[0], alts[1]];
  }

  /** `**w**` and `__w__` become `w`. */
  lemma EmphasisUnwrapsStrong(d: string, w: string)
    requires d in StrongDelimiters && SpanText(w)
    ensures EmphasisPasses(d + w + d) == w
  {
    DelimiterConstants();
    var s := d + w + d;
    UnwrapSpan(d, w, StrongDelimiters);
    var a := StripEmphasis(s, StrongDelimiters);
    StripEmphasisIdentity(w, WeakDelimiters);
    assert EmphasisPasses(s) == StripEmphasis(a, WeakDelimiters);
  }

  /** No strong span opens at `*w*` or `_w_`. */
  lemma NoStrongPairAtWeak(d: string, w: string)
    requires d in WeakDelimiters && SpanText(w)
    ensures PairAt(d + w + d, StrongDelimiters).None?
  {
    var s := d + w + d;
    PairAtTwo(s, "**", "__");
    if |w| > 0 {
      assert s[..2] == [d[0], w[0]];
    } else {
      assert FindClose(s, 2, "**").None? && FindClose(s, 2, "__").None?;
    }
  }

  /** The strong pass leaves a single delimiter alone. */
  lemma StrongPassKeepsMark(d: string)
    requires d in WeakDelimiters
    ensures StripEmphasis(d, StrongDelimiters) == d
  {
    DelimiterConstants();
    PairAtTwo(d, "**", "__");
    StripEmphasisNoPair(d, StrongDelimiters);
    assert d[1..] == "";
  }

  /** The strong pass leaves `*w*` and `_w_` alone. */
  lemma StrongPassKeepsWeak(d: string, w: string)
    requires d in WeakDelimiters && SpanText(w)
    ensures StripEmphasis(d + w + d, StrongDelimiters) == d + w + d
  {
    DelimiterConstants();
    var s := d + w + d;
    NoStrongPairAtWeak(d, w);
    StripEmphasisNoPair(s, StrongDelimiters);
    WeakSplit(d, w);
    StrongPassKeepsTail(d, w);
  }

  lemma WeakSplit(d: string, w: string)
    requires |d| == 1
    ensures (d + w + d)[1..] == w + d && [(d + w + d)[0]] + (w + d) == d + w + d
  {
  }

  /** The strong pass leaves span text followed by a single delimiter alone. */
  lemma StrongPassKeepsTail(d: string, w: string)
    requires d in WeakDelimiters && SpanText(w)
    ensures StripEmphasis(w + d, StrongDelimiters) == w + d
  {
    DelimiterConstants();
    var u := w + d;
    assert u[..|w|] == w && u[|w|..] == d;
    StripEmphasisPrefix(u, |w|, StrongDelimiters);
    StrongPassKeepsMark(d);
  }

  /** `*w*` and `_w_` become `w`: the strong pass leaves them alone and the
      weak pass unwraps them. */
  lemma EmphasisUnwrapsWeak(d: string, w: string)
    requires d in WeakDelimiters && SpanText(w)
    ensures EmphasisPasses(d + w + d) == w
  {
    DelimiterConstants();
    var s := d + w + d;
    StrongPassKeepsWeak(d, w);
    UnwrapSpan(d, w, WeakDelimiters);
  }

  /** The rest of a line after a marker: no newline, and nothing a later
      line pass could take for a marker of its own. */
  predicate LineRest(w: string)
  {
    (forall i :: 0 <= i < |w| ==> w[i] != '\n') && (|w| > 0 ==> !IsLineMarkup(w[0]))
  }

  /** `- w`, `* w` and `+ w` become `w`. */
  lemma LinePassesBullet(c: char, w: string)
    requires IsBulletMark(c) && LineRest(w)
    ensures LinePasses([c, ' '] + w) == w
  {
    var s := [c, ' '] + w;
    RunEndAt(s, 0, IsSpace, 0);
    RunEndAt(s, 1, IsSpace, 2);
    assert MatchAt(s, Bullet) == Some(2);
    assert s[2..] == w;
    DeleteAtLineStartsIdentity(w, false, Bullet);
    DeleteAtLineStartsIdentity(w, true, Numbered);
    DeleteAtLineStartsIdentity(w, true, Rule);
  }

  /** A line-anchored pass that finds no marker at the start of a single
      line leaves it unchanged. */
  lemma DeleteNoMatch(s: string, p: LinePattern)
    requires |s| > 0 && MatchAt(s, p).None?
    requires forall i :: 0 <= i < |s| ==> s[i] != '\n'
    ensures DeleteAtLineStarts(s, true, p) == s
  {
    DeleteAtLineStartsIdentity(s[1..], false, p);
    assert [s[0]] + s[1..] == s;
  }

  /** A line-anchored pass that finds a marker ending inside the first line
      continues after it, not at a line start. */
  lemma DeleteMatch(s: string, p: LinePattern, e: nat)
    requires MatchAt(s, p) == Some(e) && s[e - 1] != '\n'
    ensures DeleteAtLineStarts(s, true, p) == DeleteAtLineStarts(s[e..], false, p)
  {
  }

  /** The characters of `12. w`. */
  lemma NumberedText(ds: string, w: string)
    requires |ds| > 0 && AllDigits(ds) && LineRest(w)
    ensures var s := ds + ". " + w;
      && (forall i :: 0 <= i < |ds| ==> IsDigit(s[i]))
      && s[|ds|] == '.' && s[|ds| + 1] == ' ' && s[|ds| + 2..] == w
      && (forall i :: 0 <= i < |s| ==> s[i] != '\n')
  {
    var s := ds + ". " + w;
    var n := |ds|;
    assert forall i :: 0 <= i < n ==> s[i] == ds[i];
    assert forall i :: n + 2 <= i < |s| ==> s[i] == w[i - n - 2];
  }

  /** On `12. w` the bullet pattern finds nothing and the numbered one
      takes `12. `. */
  lemma NumberedMarker(ds: string, w: string)
    requires |ds| > 0 && AllDigits(ds) && LineRest(w)
    ensures MatchAt(ds + ". " + w, Bullet).None?
    ensures MatchAt(ds + ". " + w, Numbered) == Some(|ds| + 2)
  {
    var s := ds + ". " + w;
    var n := |ds|;
    NumberedText(ds, w);
    RunEndAt(s, 0, IsSpace, 0);
    RunEndAt(s, 0, IsDigit, n);
    RunEndAt(s, n + 1, IsSpace, n + 2);
  }

  /** `12. w` becomes `w`. */
  lemma LinePassesNumbered(ds: string, w: string)
    requires |ds| > 0 && AllDigits(ds) && LineRest(w)
    ensures LinePasses(ds + ". " + w) == w
  {
    var s := ds + ". " + w;
    NumberedText(ds, w);
    NumberedMarker(ds, w);
    DeleteNoMatch(s, Bullet);
    DeleteMatch(s, Numbered, |ds| + 2);
    DeleteAtLineStartsIdentity(w, false, Numbered);
    DeleteAtLineStartsIdentity(w, true, Rule);
  }

  /** A horizontal rule line `---` (three or more of one rule mark set) is
      removed entirely. */
  lemma LinePassesRule(r: string)
    requires |r| >= 3 && AllRuleMarks(r)
    ensures LinePasses(r) == ""
  {
    assert forall i :: 0 <= i < |r| ==> r[i] != '\n' && !IsSpace(r[i]) && !IsDigit(r[i]);
    assert [r[0]] + r[1..] == r;
    RunEndAt(r, 0, IsSpace, 0);
    RunEndAt(r, 1, IsSpace, 1);
    assert MatchAt(r, Bullet).None?;
    DeleteAtLineStartsIdentity(r[1..], false, Bullet);
    assert DeleteAtLineStarts(r, true, Bullet) == r;
    RunEndAt(r, 0, IsDigit, 0);
    assert MatchAt(r, Numbered).None?;
    DeleteAtLineStartsIdentity(r[1..], false, Numbered);
    assert DeleteAtLineStarts(r, true, Numbered) == r;
    RunEndAt(r, 0, IsRuleMark, |r|);
    assert MatchAt(r, Rule) == Some(|r|);
  }

  /** A run of two or more newlines becomes exactly two. */
  lemma CollapseNewlinesRun(w: string, b: string)
    requires |w| >= 2 && forall i :: 0 <= i < |w| ==> w[i] == '\n'
    requires |b| == 0 || b[0] != '\n'
    ensures CollapseNewlines(w + b) == "\n\n" + CollapseNewlines(b)
  {
    var s := w + b;
    RunEndAt(s, 2, IsNewline, |w|);
    assert s[|w|..] == b;
  }

  /** Any other character, a lone newline included, is kept. */
  lemma CollapseNewlinesKeeps(c: char, b: string)
    requires c != '\n' || |b| == 0 || b[0] != '\n'
    ensures CollapseNewlines([c] + b) == [c] + CollapseNewlines(b)
  {
    assert ([c] + b)[1..] == b;
  }

  // ---------------------------------------------------------------------------
  // Plain text passes through unchanged

  /** Text with no markup for any pass to act on: no emphasis delimiter, quote
      or newline anywhere, whitespace only as single interior spaces, and a
      first character that cannot begin a list marker or a rule. */
  predicate PlainText(s: string)
  {
    && (forall i :: 0 <= i < |s| ==> !IsEmphasisMark(s[i]) && s[i] != '"' && s[i] != '\n')
    && (forall i :: 0 <= i < |s| && IsSpace(s[i]) ==> s[i] == ' ')
    && (forall i :: 0 <= i < |s| - 1 ==> !(s[i] == ' ' && s[i + 1] == ' '))
    && (|s| > 0 ==> !IsLineMarkup(s[0]) && !IsSpace(s[|s| - 1]))
  }

  lemma {:induction false} StripEmphasisIdentity(s: string, alts: seq<string>)
    requires Delimiters(alts)
    requires forall i :: 0 <= i < |s| ==> !IsEmphasisMark(s[i])
    ensures StripEmphasis(s, alts) == s
    decreases |s|
  {
    if |s| > 0 {
      NoPairWithoutMark(s, alts);
      StripEmphasisIdentity(s[1..], alts);
      assert [s[0]] + s[1..] == s;
    }
  }

  /** No delimiter opens at a character that is not a delimiter mark. */
  lemma NoPairWithoutMark(s: string, alts: seq<string>)
    requires Delimiters(alts)
    requires |s| > 0 && !IsEmphasisMark(s[0])
    ensures PairAt(s, alts).None?
  {
    var m := PairAt(s, alts);
    if m.Some? {
      OpeningIsMarks(s, alts, m.value.0);
    }
  }

  lemma {:induction false} DeleteAtLineStartsIdentity(s: string, atLineStart: bool, p: LinePattern)
    requires forall i :: 0 <= i < |s| ==> s[i] != '\n'
    requires atLineStart && |s| > 0 ==> !IsLineMarkup(s[0])
    ensures DeleteAtLineStarts(s, atLineStart, p) == s
    decreases |s|
  {
    if |s| > 0 {
      DeleteAtLineStartsIdentity(s[1..], false, p);
      assert [s[0]] + s[1..] == s;
    }
  }

  lemma {:induction false} CollapseNewlinesIdentity(s: string)
    requires forall i :: 0 <= i < |s| ==> s[i] != '\n'
    ensures CollapseNewlines(s) == s
    decreases |s|
  {
    if |s| > 0 {
      CollapseNewlinesIdentity(s[1..]);
      assert [s[0]] + s[1..] == s;
    }
  }

  lemma {:induction false} RemoveQuotesIdentity(s: string)
    requires forall i :: 0 <= i < |s| ==> s[i] != '"'
    ensures RemoveQuotes(s) == s
    decreases |s|
  {
    if |s| > 0 {
      RemoveQuotesIdentity(s[1..]);
      assert [s[0]] + s[1..] == s;
    }
  }

  lemma PlainEmphasisUnchanged(s: string)
    requires PlainText(s)
    ensures EmphasisPasses(s) == s
  {
    DelimiterConstants();
    StripEmphasisIdentity(s, StrongDelimiters);
    StripEmphasisIdentity(s, WeakDelimiters);
  }

  lemma PlainLinesUnchanged(s: string)
    requires PlainText(s)
    ensures LinePasses(s) == s
  {
    DeleteAtLineStartsIdentity(s, true, Bullet);
    DeleteAtLineStartsIdentity(s, true, Numbered);
    DeleteAtLineStartsIdentity(s, true, Rule);
  }

  /** Markdown conversion leaves plain text alone. */
  lemma PlainMarkdownUnchanged(s: string)
    requires PlainText(s)
    ensures MarkdownToText(s) == s
  {
    PlainEmphasisUnchanged(s);
    PlainLinesUnchanged(s);
    CollapseNewlinesIdentity(s);
    StripTrimmed(s);
  }

  lemma PlainStripUnchanged(s: string)
    requires PlainText(s)
    ensures Strip(s) == s
  {
    StripTrimmed(s);
  }

  lemma PlainCollapseUnchanged(s: string)
    requires PlainText(s)
    ensures CollapseSpaces(s) == s
  {
    CollapseSpacesIdentity(s);
  }

  lemma PlainQuotesUnchanged(s: string)
    requires PlainText(s)
    ensures RemoveQuotes(s) == s
  {
    RemoveQuotesIdentity(s);
  }

  /** A reply that is already plain text is spoken exactly as the model wrote it. */
  lemma CleanReplyPlain(s: string)
    requires PlainText(s)
    ensures CleanReply(s) == s
  {
    PlainStripUnchanged(s);
    PlainCollapseUnchanged(s);
    PlainMarkdownUnchanged(s);
    PlainQuotesUnchanged(s);
    assert CleanReply(s) == RemoveQuotes(MarkdownToText(CollapseSpaces(Strip(s))));
  }
}
