/** Character-level string operations the chat module applies to text:
    Python's whitespace class, `str.strip()`, `re.sub(r'\s+', ' ', s)`,
    `sep.join(words)`, and the deletion-only relation used to state what the
    markdown stripping may do to a reply. */
module Text {

  /** Python's whitespace class (`str.isspace`, and `\s` in a str pattern). */
  predicate IsSpace(c: char)
  {
    var n := c as int;
    || 9 <= n <= 13 || 28 <= n <= 32 || n == 0x85 || n == 0xA0 || n == 0x1680
    || 0x2000 <= n <= 0x200A || n == 0x2028 || n == 0x2029 || n == 0x202F
    || n == 0x205F || n == 0x3000
  }

  predicate AllSpace(s: string)
  {
    forall i :: 0 <= i < |s| ==> IsSpace(s[i])
  }

  /** The characters of `s` that `drop` does not select, in order. */
  function Retained(s: string, drop: char -> bool): string
    decreases |s|
  {
    if |s| == 0 then ""
    else if drop(s[0]) then Retained(s[1..], drop)
    else [s[0]] + Retained(s[1..], drop)
  }

  /** `r` is obtained from `s` by deleting some characters, each selected by
      `drop`: a subsequence of `s` that keeps every character `drop` rejects. */
  predicate Erases(r: string, s: string, drop: char -> bool)
    decreases |s|
  {
    if |s| == 0 then |r| == 0
    else
      || (|r| > 0 && r[0] == s[0] && Erases(r[1..], s[1..], drop))
      || (drop(s[0]) && Erases(r, s[1..], drop))
  }

  lemma {:induction false} ErasesRefl(s: string, drop: char -> bool)
    ensures Erases(s, s, drop)
    decreases |s|
  {
    if |s| > 0 {
      ErasesRefl(s[1..], drop);
    }
  }

  lemma {:induction false} ErasesConcat(r1: string, s1: string, r2: string, s2: string, drop: char -> bool)
    requires Erases(r1, s1, drop) && Erases(r2, s2, drop)
    ensures Erases(r1 + r2, s1 + s2, drop)
    decreases |s1|
  {
    if |s1| == 0 {
      assert r1 + r2 == r2 && s1 + s2 == s2;
    } else {
      assert (s1 + s2)[0] == s1[0] && (s1 + s2)[1..] == s1[1..] + s2;
      if |r1| > 0 && r1[0] == s1[0] && Erases(r1[1..], s1[1..], drop) {
        ErasesConcat(r1[1..], s1[1..], r2, s2, drop);
        assert (r1 + r2)[1..] == r1[1..] + r2;
      } else {
        ErasesConcat(r1, s1[1..], r2, s2, drop);
      }
    }
  }

  /** Deleting from a string none of whose characters may be deleted leaves
      it as it is. */
  lemma {:induction false} ErasesNothing(r: string, s: string, drop: char -> bool)
    requires Erases(r, s, drop)
    requires forall i :: 0 <= i < |s| ==> !drop(s[i])
    ensures r == s
    decreases |s|
  {
    if |s| > 0 {
      assert !drop(s[0]);
      assert forall i :: 0 <= i < |s| - 1 ==> s[1..][i] == s[i + 1];
      ErasesNothing(r[1..], s[1..], drop);
      assert r == [r[0]] + r[1..];
    }
  }

  /** A character kept in front of an erasure. */
  lemma ErasesCons(c: char, r: string, s: string, drop: char -> bool)
    requires Erases(r, s, drop)
    ensures Erases([c] + r, [c] + s, drop)
  {
    assert ([c] + r)[1..] == r && ([c] + s)[1..] == s;
  }

  /** A prefix made only of deletable characters deleted in front of an erasure. */
  lemma {:induction false} ErasesDropPrefix(s: string, e: nat, r: string, drop: char -> bool)
    requires e <= |s|
    requires forall i :: 0 <= i < e ==> drop(s[i])
    requires Erases(r, s[e..], drop)
    ensures Erases(r, s, drop)
    decreases e
  {
    if e > 0 {
      ErasesDropPrefix(s[1..], e - 1, r, drop);
      assert s[1..][e - 1..] == s[e..];
    }
  }

  /** One more erasure step, with a possibly smaller deletable class. */
  lemma ErasesStep(x: string, y: string, z: string, d: char -> bool, all: char -> bool)
    requires Erases(x, y, d) && Erases(y, z, all)
    requires forall c :: d(c) ==> all(c)
    ensures Erases(x, z, all)
  {
    ErasesWeaken(x, y, d, all);
    ErasesTrans(x, y, z, all);
  }

  /** Deletions compose: erasing from an erasure erases from the original. */
  lemma {:induction false} ErasesTrans(a: string, b: string, c: string, drop: char -> bool)
    requires Erases(a, b, drop) && Erases(b, c, drop)
    ensures Erases(a, c, drop)
    decreases |c|
  {
    if |c| > 0 {
      if |b| > 0 && b[0] == c[0] && Erases(b[1..], c[1..], drop) {
        if |a| > 0 && a[0] == b[0] && Erases(a[1..], b[1..], drop) {
          ErasesTrans(a[1..], b[1..], c[1..], drop);
        } else {
          ErasesTrans(a, b[1..], c[1..], drop);
        }
      } else {
        ErasesTrans(a, b, c[1..], drop);
      }
    }
  }

  /** Allowing more characters to be deleted keeps an erasure an erasure. */
  lemma {:induction false} ErasesWeaken(r: string, s: string, d1: char -> bool, d2: char -> bool)
    requires Erases(r, s, d1)
    requires forall c :: d1(c) ==> d2(c)
    ensures Erases(r, s, d2)
    decreases |s|
  {
    if |s| > 0 {
      if |r| > 0 && r[0] == s[0] && Erases(r[1..], s[1..], d1) {
        ErasesWeaken(r[1..], s[1..], d1, d2);
      } else {
        ErasesWeaken(r, s[1..], d1, d2);
      }
    }
  }

  /** An erasure keeps, in order, exactly the characters `drop` rejects. */
  lemma {:induction false} ErasesRetains(r: string, s: string, drop: char -> bool)
    requires Erases(r, s, drop)
    ensures Retained(r, drop) == Retained(s, drop)
    decreases |s|
  {
    if |s| > 0 {
      if |r| > 0 && r[0] == s[0] && Erases(r[1..], s[1..], drop) {
        ErasesRetains(r[1..], s[1..], drop);
      } else {
        ErasesRetains(r, s[1..], drop);
      }
    }
  }

  /** Every character of an erasure is a character of the original, so an
      erasure of text whose only whitespace is `' '` has no other whitespace. */
  lemma {:induction false} ErasesKeepsSpacing(r: string, s: string, drop: char -> bool)
    requires Erases(r, s, drop)
    requires forall i :: 0 <= i < |s| && IsSpace(s[i]) ==> s[i] == ' '
    ensures forall i :: 0 <= i < |r| && IsSpace(r[i]) ==> r[i] == ' '
    decreases |s|
  {
    if |s| > 0 {
      assert forall i :: 0 <= i < |s[1..]| ==> s[1..][i] == s[i + 1];
      if |r| > 0 && r[0] == s[0] && Erases(r[1..], s[1..], drop) {
        ErasesKeepsSpacing(r[1..], s[1..], drop);
        assert forall i :: 1 <= i < |r| ==> r[i] == r[1..][i - 1];
      } else {
        ErasesKeepsSpacing(r, s[1..], drop);
      }
    }
  }

  /** The end of the maximal run of characters satisfying `p` from index `k`. */
  function RunEnd(s: string, k: nat, p: char -> bool): (e: nat)
    requires k <= |s|
    ensures k <= e <= |s|
    ensures forall i :: k <= i < e ==> p(s[i])
    ensures e < |s| ==> !p(s[e])
    decreases |s| - k
  {
    if k < |s| && p(s[k]) then RunEnd(s, k + 1, p) else k
  }

  /** The start of the maximal run of characters satisfying `p` that ends at index `k`. */
  function RunStart(s: string, k: nat, p: char -> bool): (b: nat)
    requires k <= |s|
    ensures b <= k
    ensures forall i :: b <= i < k ==> p(s[i])
    ensures b > 0 ==> !p(s[b - 1])
    decreases k
  {
    if k > 0 && p(s[k - 1]) then RunStart(s, k - 1, p) else k
  }

  /** `s.lstrip()`: the suffix left after the maximal whitespace prefix. */
  function StripStart(s: string): (r: string)
    ensures |r| <= |s| && r == s[|s| - |r|..]
    ensures AllSpace(s[..|s| - |r|])
    ensures |r| > 0 ==> !IsSpace(r[0])
    ensures |s| > 0 && IsSpace(s[0]) ==> |r| < |s|
  {
    var e := RunEnd(s, 0, IsSpace);
    assert AllSpace(s[..e]) by {
      assert forall i :: 0 <= i < e ==> s[..e][i] == s[i];
    }
    s[e..]
  }

  /** `s.rstrip()`: the prefix left after the maximal whitespace suffix. */
  function StripEnd(s: string): (r: string)
    ensures |r| <= |s| && r == s[..|r|]
    ensures AllSpace(s[|r|..])
    ensures |r| > 0 ==> !IsSpace(r[|r| - 1])
  {
    var b := RunStart(s, |s|, IsSpace);
    assert AllSpace(s[b..]) by {
      assert forall i :: 0 <= i < |s| - b ==> s[b..][i] == s[b + i];
    }
    s[..b]
  }

  /** `s.strip()`: `s` is some whitespace, then `r`, then some whitespace, and
      `r` neither begins nor ends with whitespace. */
  function Strip(s: string): (r: string)
    ensures |r| > 0 ==> !IsSpace(r[0]) && !IsSpace(r[|r| - 1])
    ensures exists i :: 0 <= i <= |s| - |r| && s[i..i + |r|] == r && AllSpace(s[..i]) && AllSpace(s[i + |r|..])
  {
    var t := StripStart(s);
    var r := StripEnd(t);
    var i := |s| - |t|;
    assert s[i..i + |r|] == r;
    assert s[i + |r|..] == t[|r|..];
    r
  }

  /** Stripping removes whitespace only. */
  lemma StripErases(s: string)
    ensures Erases(Strip(s), s, IsSpace)
  {
    var t := StripStart(s);
    StripStartErases(s);
    var r := StripEnd(t);
    AllSpaceErases(t[|r|..]);
    ErasesRefl(r, IsSpace);
    ErasesConcat(r, r, "", t[|r|..], IsSpace);
    assert r + "" == r && r + t[|r|..] == t;
    ErasesTrans(r, t, s, IsSpace);
  }

  lemma StripStartErases(s: string)
    ensures Erases(StripStart(s), s, IsSpace)
  {
    var e := RunEnd(s, 0, IsSpace);
    ErasesRefl(s[e..], IsSpace);
    ErasesDropPrefix(s, e, s[e..], IsSpace);
  }

  /** A run of whitespace can be deleted entirely. */
  lemma {:induction false} AllSpaceErases(s: string)
    requires AllSpace(s)
    ensures Erases("", s, IsSpace)
    decreases |s|
  {
    if |s| > 0 {
      AllSpaceErases(s[1..]);
    }
  }

  /** Text without whitespace at either end is its own strip. */
  lemma StripTrimmed(s: string)
    requires |s| > 0 ==> !IsSpace(s[0]) && !IsSpace(s[|s| - 1])
    ensures Strip(s) == s
  {
  }

  /** `re.sub(r'\s+', ' ', s)`: every maximal whitespace run becomes one space. */
  function CollapseSpaces(s: string): (r: string)
    ensures forall i :: 0 <= i < |r| && IsSpace(r[i]) ==> r[i] == ' '
    ensures forall i :: 0 <= i < |r| - 1 ==> !(r[i] == ' ' && r[i + 1] == ' ')
    ensures Retained(r, IsSpace) == Retained(s, IsSpace)
    ensures |s| > 0 ==> |r| > 0 && (IsSpace(s[0]) <==> r[0] == ' ')
    ensures |r| <= |s|
    decreases |s|
  {
    if |s| == 0 then ""
    else if IsSpace(s[0]) then
      var t := StripStart(s);
      AllSpaceRetained(s[..|s| - |t|]);
      RetainedConcat(s[..|s| - |t|], t, IsSpace);
      assert s == s[..|s| - |t|] + t;
      var rest := CollapseSpaces(t);
      [' '] + rest
    else
      [s[0]] + CollapseSpaces(s[1..])
  }

  lemma {:induction false} AllSpaceRetained(s: string)
    requires AllSpace(s)
    ensures Retained(s, IsSpace) == ""
    decreases |s|
  {
    if |s| > 0 {
      AllSpaceRetained(s[1..]);
    }
  }

  lemma {:induction false} RetainedConcat(a: string, b: string, drop: char -> bool)
    ensures Retained(a + b, drop) == Retained(a, drop) + Retained(b, drop)
    decreases |a|
  {
    if |a| == 0 {
      assert a + b == b;
    } else {
      assert (a + b)[1..] == a[1..] + b;
      RetainedConcat(a[1..], b, drop);
    }
  }

  /** Text whose only whitespace is single interior spaces is unchanged by the
      whitespace collapse. */
  lemma {:induction false} CollapseSpacesIdentity(s: string)
    requires forall i :: 0 <= i < |s| && IsSpace(s[i]) ==> s[i] == ' '
    requires forall i :: 0 <= i < |s| - 1 ==> !(s[i] == ' ' && s[i + 1] == ' ')
    ensures CollapseSpaces(s) == s
    decreases |s|
  {
    if |s| > 0 {
      if IsSpace(s[0]) {
        assert StripStart(s) == s[1..] by {
          assert RunEnd(s, 1, IsSpace) == 1;
        }
      }
      CollapseSpacesIdentity(s[1..]);
    }
  }

  /** `sep.join(words)`. */
  function Join(words: seq<string>, sep: string): (r: string)
    ensures |words| == 1 ==> r == words[0]
    ensures |words| == 0 ==> r == ""
    decreases |words|
  {
    if |words| == 0 then ""
    else if |words| == 1 then words[0]
    else words[0] + sep + Join(words[1..], sep)
  }

  /** Joining two non-empty lists puts one separator between their joins. */
  lemma {:induction false} JoinAppend(a: seq<string>, b: seq<string>, sep: string)
    requires |a| > 0 && |b| > 0
    ensures Join(a + b, sep) == Join(a, sep) + sep + Join(b, sep)
    decreases |a|
  {
    if |a| == 1 {
      assert (a + b)[1..] == b;
    } else {
      assert (a + b)[1..] == a[1..] + b;
      JoinAppend(a[1..], b, sep);
    }
  }

  /** The left strip of `s` is the suffix from the first non-whitespace
      character. */
  lemma StripStartAt(s: string, k: nat)
    requires k <= |s| && AllSpace(s[..k]) && (k == |s| || !IsSpace(s[k]))
    ensures StripStart(s) == s[k..]
  {
    var r := StripStart(s);
    var e := |s| - |r|;
    if e < k {
      assert false;
    } else if e > k {
      assert false;
    }
  }

  /** A whitespace run at the front collapses to one space. */
  lemma CollapseSpacesRun(w: string, b: string)
    requires |w| > 0 && AllSpace(w) && (|b| == 0 || !IsSpace(b[0]))
    ensures CollapseSpaces(w + b) == " " + CollapseSpaces(b)
  {
    var s := w + b;
    assert s[..|w|] == w && s[|w|..] == b;
    StripStartAt(s, |w|);
    assert IsSpace(s[0]) by { assert s[0] == w[0] && w[..1][0] == w[0]; }
  }

  /** Left-stripping text that ends in a non-whitespace character strips
      only within it. */
  lemma StripStartConcat(a: string, b: string)
    requires |a| > 0 && !IsSpace(a[|a| - 1])
    ensures StripStart(a + b) == StripStart(a) + b
    ensures |StripStart(a)| > 0 && StripStart(a)[|StripStart(a)| - 1] == a[|a| - 1]
  {
    var t := StripStart(a);
    var k := |a| - |t|;
    if |t| == 0 {
      assert false;
    }
    assert (a + b)[..k] == a[..k] && (a + b)[k] == t[0];
    StripStartAt(a + b, k);
    assert (a + b)[k..] == t + b;
  }

  /** The collapse works run by run: text that ends in a non-whitespace
      character collapses independently of what follows it. */
  lemma {:induction false} CollapseSpacesConcat(a: string, b: string)
    requires |a| > 0 ==> !IsSpace(a[|a| - 1])
    ensures CollapseSpaces(a + b) == CollapseSpaces(a) + CollapseSpaces(b)
    decreases |a|
  {
    if |a| == 0 {
      assert a + b == b;
    } else if !IsSpace(a[0]) {
      CollapseSpacesConcat(a[1..], b);
      ConcatAfterWord(a, b);
    } else {
      StripStartConcat(a, b);
      CollapseSpacesConcat(StripStart(a), b);
      ConcatAfterRun(a, b);
    }
  }

  /** The inductive step of `CollapseSpacesConcat` at a non-whitespace character. */
  lemma ConcatAfterWord(a: string, b: string)
    requires |a| > 0 && !IsSpace(a[0])
    requires CollapseSpaces(a[1..] + b) == CollapseSpaces(a[1..]) + CollapseSpaces(b)
    ensures CollapseSpaces(a + b) == CollapseSpaces(a) + CollapseSpaces(b)
  {
    var s := a + b;
    assert s[0] == a[0] && s[1..] == a[1..] + b;
    CollapseSpacesWord(s);
    CollapseSpacesWord(a);
    ConsAssoc(a[0], CollapseSpaces(a[1..]), CollapseSpaces(b));
  }

  /** One step of the collapse at a non-whitespace character. */
  lemma CollapseSpacesWord(s: string)
    requires |s| > 0 && !IsSpace(s[0])
    ensures CollapseSpaces(s) == [s[0]] + CollapseSpaces(s[1..])
  {
  }

  lemma ConsAssoc(c: char, x: string, y: string)
    ensures [c] + (x + y) == ([c] + x) + y
  {
  }

  /** The inductive step of `CollapseSpacesConcat` at a whitespace run. */
  lemma ConcatAfterRun(a: string, b: string)
    requires |a| > 0 && IsSpace(a[0]) && StripStart(a + b) == StripStart(a) + b
    requires CollapseSpaces(StripStart(a) + b) == CollapseSpaces(StripStart(a)) + CollapseSpaces(b)
    ensures CollapseSpaces(a + b) == CollapseSpaces(a) + CollapseSpaces(b)
  {
    assert (a + b)[0] == a[0];
    assert CollapseSpaces(a + b) == [' '] + CollapseSpaces(StripStart(a) + b);
    assert CollapseSpaces(a) == [' '] + CollapseSpaces(StripStart(a));
    ConsAssoc(' ', CollapseSpaces(StripStart(a)), CollapseSpaces(b));
  }

  /** Each maximal whitespace run between two words becomes exactly one space. */
  lemma CollapseSpacesSplit(a: string, w: string, b: string)
    requires |a| > 0 ==> !IsSpace(a[|a| - 1])
    requires |w| > 0 && AllSpace(w) && (|b| == 0 || !IsSpace(b[0]))
    ensures CollapseSpaces(a + (w + b)) == CollapseSpaces(a) + " " + CollapseSpaces(b)
  {
    CollapseSpacesConcat(a, w + b);
    CollapseSpacesRun(w, b);
  }
}
