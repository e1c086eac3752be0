/** The description normaliser shared by both scraper versions.

    Python's regex `\s` (on str patterns) and `str.strip()` both use the same
    whitespace table, `IsSpace` below.  Each `re.sub` pass is written as the
    left-to-right scan the regex engine performs: at the current position the
    pattern either matches (greedily) and the match is replaced, or the current
    character is copied and the scan moves on.  None of the patterns can match
    the empty string, so this scan is exactly `re.sub`'s. */
module Text {

  /** Python's `str.isspace()`, which is also what `\s` matches. */
  predicate IsSpace(c: char) {
    || '\t' <= c <= '\r'
    || '\U{1C}' <= c <= '\U{1F}'
    || c == ' '
    || c == '\U{85}'
    || c == '\U{A0}'
    || c == '\U{1680}'
    || '\U{2000}' <= c <= '\U{200A}'
    || c == '\U{2028}'
    || c == '\U{2029}'
    || c == '\U{202F}'
    || c == '\U{205F}'
    || c == '\U{3000}'
  }

  const Nbsp: char := '\U{A0}'

  /** Members of the character class `[ \t]`. */
  predicate IsBlank(c: char) {
    c == ' ' || c == '\t'
  }

  predicate StartsWith(s: string, prefix: string) {
    |prefix| <= |s| && s[..|prefix|] == prefix
  }

  // ---------------------------------------------------------------------------
  // Run lengths

  /** Length of the longest all-whitespace prefix of `s`. */
  function SpaceRunLength(s: string): (k: nat)
    ensures k <= |s|
    ensures forall i :: 0 <= i < k ==> IsSpace(s[i])
    ensures k < |s| ==> !IsSpace(s[k])
    ensures s != [] && IsSpace(s[0]) ==> k > 0
  {
    if s == [] || !IsSpace(s[0]) then 0 else 1 + SpaceRunLength(s[1..])
  }

  /** Length of the longest prefix of `s` in `[ \t]`. */
  function BlankRunLength(s: string): (k: nat)
    ensures k <= |s|
    ensures forall i :: 0 <= i < k ==> IsBlank(s[i])
    ensures k < |s| ==> !IsBlank(s[k])
  {
    if s == [] || !IsBlank(s[0]) then 0 else 1 + BlankRunLength(s[1..])
  }

  /** Length of the longest prefix of `s` made of `\n`. */
  function NewlineRunLength(s: string): (k: nat)
    ensures k <= |s|
    ensures forall i :: 0 <= i < k ==> s[i] == '\n'
    ensures k < |s| ==> s[k] != '\n'
  {
    if s == [] || s[0] != '\n' then 0 else 1 + NewlineRunLength(s[1..])
  }

  /** Length of the longest all-whitespace suffix of `s`. */
  function TrailingSpaceLength(s: string): (k: nat)
    ensures k <= |s|
    ensures forall i :: |s| - k <= i < |s| ==> IsSpace(s[i])
    ensures k < |s| ==> !IsSpace(s[|s| - 1 - k])
  {
    if s == [] || !IsSpace(s[|s| - 1]) then 0 else 1 + TrailingSpaceLength(s[..|s| - 1])
  }

  // ---------------------------------------------------------------------------
  // Shape predicates on normalised text

  /** No newline touches another whitespace character. */
  ghost predicate NewlinesIsolated(s: string) {
    forall i, j :: 0 <= i && j == i + 1 && j < |s| ==> !(s[i] == '\n' && IsSpace(s[j])) && !(IsSpace(s[i]) && s[j] == '\n')
  }

  /** No two adjacent spaces. */
  ghost predicate NoDoubleSpace(s: string) {
    forall i, j :: 0 <= i && j == i + 1 && j < |s| ==> !(s[i] == ' ' && s[j] == ' ')
  }

  /** `s` neither starts nor ends with whitespace. */
  predicate IsStripped(s: string) {
    s == [] || (!IsSpace(s[0]) && !IsSpace(s[|s| - 1]))
  }

  /** The shape every output of `CleanDescription` has. */
  ghost predicate IsClean(s: string) {
    && '\t' !in s
    && Nbsp !in s
    && NoDoubleSpace(s)
    && NewlinesIsolated(s)
    && IsStripped(s)
  }

  lemma SliceKeepsShape(s: string, a: nat, b: nat)
    requires a <= b <= |s|
    ensures NoDoubleSpace(s) ==> NoDoubleSpace(s[a..b])
    ensures NewlinesIsolated(s) ==> NewlinesIsolated(s[a..b])
    ensures forall c :: c in s[a..b] ==> c in s
  {
    assert forall i :: 0 <= i < b - a ==> s[a..b][i] == s[a + i];
  }
  /** Putting one character in front keeps both shapes unless it forms a bad
      pair with the first character of `rest`. */
  lemma PrependKeepsShape(c: char, rest: string)
    ensures NoDoubleSpace(rest) && (rest == [] || !(c == ' ' && rest[0] == ' ')) ==> NoDoubleSpace([c] + rest)
    ensures NewlinesIsolated(rest) && (rest == [] || (!(c == '\n' && IsSpace(rest[0])) && !(IsSpace(c) && rest[0] == '\n'))) ==>
      NewlinesIsolated([c] + rest)
  {
    var t := [c] + rest;
    assert forall i :: 0 < i < |t| ==> t[i] == rest[i - 1];
  }

  // ---------------------------------------------------------------------------
  // The four passes and the final strip

  /** `text.replace("\xa0", " ").replace("\t", " ")`. */
  function ReplaceNbspAndTab(s: string): (r: string)
    ensures |r| == |s|
    ensures '\t' !in r && Nbsp !in r
    ensures forall i :: 0 <= i < |s| ==> r[i] == (if s[i] == Nbsp || s[i] == '\t' then ' ' else s[i])
  {
    seq(|s|, i requires 0 <= i < |s| => if s[i] == Nbsp || s[i] == '\t' then ' ' else s[i])
  }

  /** `re.sub(r"\s*\n\s*", "\n", s)`: from a whitespace position the pattern
      matches exactly when the whitespace run from there holds a newline, and the
      greedy match then spans that whole run. */
  function CollapseNewlineRuns(s: string): (r: string)
    decreases |s|
    ensures s == [] <==> r == []
    ensures s != [] && '\n' in s[..SpaceRunLength(s)] ==> r[0] == '\n'
    ensures s != [] && '\n' !in s[..SpaceRunLength(s)] ==> r[0] == s[0]
    ensures forall c :: c in r ==> c == '\n' || c in s
    ensures NewlinesIsolated(r)
  {
    if s == [] then []
    else
      var k := SpaceRunLength(s);
      if '\n' in s[..k] then
        var rest := CollapseNewlineRuns(s[k..]);
        assert rest != [] ==> !IsSpace(rest[0]) by {
          if rest != [] {
            assert SpaceRunLength(s[k..]) == 0;
            assert s[k..][..0] == [];
          }
        }
        PrependKeepsShape('\n', rest);
        "\n" + rest
      else
        var rest := CollapseNewlineRuns(s[1..]);
        assert s[0] != '\n' by { if IsSpace(s[0]) { assert s[0] == s[..k][0]; } }
        assert IsSpace(s[0]) && rest != [] ==> rest[0] != '\n' by {
          if IsSpace(s[0]) && rest != [] && IsSpace(s[1]) {
            assert SpaceRunLength(s[1..]) == k - 1;
            assert s[1..][..k - 1] == s[1..k];
            assert forall c :: c in s[1..k] ==> c in s[..k];
          }
        }
        PrependKeepsShape(s[0], rest);
        [s[0]] + rest
  }

  /** `re.sub(r"[ \t]+", " ", s)`. */
  function CollapseSpaceRuns(s: string): (r: string)
    decreases |s|
    ensures s == [] <==> r == []
    ensures s != [] ==> r[0] == (if s[0] == '\t' then ' ' else s[0])
    ensures forall c :: c in r ==> c == ' ' || c in s
    ensures NoDoubleSpace(r)
    ensures NewlinesIsolated(s) ==> NewlinesIsolated(r)
  {
    if s == [] then []
    else
      var k := BlankRunLength(s);
      if k > 0 then
        var rest := CollapseSpaceRuns(s[k..]);
        assert NewlinesIsolated(s) ==> NewlinesIsolated(s[k..]) by { SliceKeepsShape(s, k, |s|); }
        assert rest != [] ==> rest[0] == s[k];
        assert NewlinesIsolated(s) && rest != [] ==> rest[0] != '\n' by {
          if NewlinesIsolated(s) && rest != [] {
            assert IsSpace(s[k - 1]);
          }
        }
        PrependKeepsShape(' ', rest);
        " " + rest
      else
        var rest := CollapseSpaceRuns(s[1..]);
        assert NewlinesIsolated(s) ==> NewlinesIsolated(s[1..]) by { SliceKeepsShape(s, 1, |s|); }
        assert NewlinesIsolated(s) && rest != [] ==> !(s[0] == '\n' && IsSpace(rest[0])) && !(IsSpace(s[0]) && rest[0] == '\n');
        PrependKeepsShape(s[0], rest);
        [s[0]] + rest
  }

  /** No three newlines in a row. */
  ghost predicate NoTripleNewline(s: string) {
    forall i, j :: 0 <= i && j == i + 2 && j < |s| ==> !(s[i] == '\n' && s[i + 1] == '\n' && s[j] == '\n')
  }

  lemma PrependKeepsNoTriple(c: char, rest: string)
    requires NoTripleNewline(rest)
    requires |rest| >= 2 ==> !(c == '\n' && rest[0] == '\n' && rest[1] == '\n')
    ensures NoTripleNewline([c] + rest)
  {
    var t := [c] + rest;
    assert forall i :: 0 < i < |t| ==> t[i] == rest[i - 1];
  }

  /** `re.sub(r"\n{2,}", "\n\n", s)`: every run of two or more newlines
      becomes exactly two. */
  function CapNewlineRuns(s: string): (r: string)
    decreases |s|
    ensures s == [] <==> r == []
    ensures s != [] ==> r[0] == s[0]
    ensures NoTripleNewline(r)
  {
    if s == [] then []
    else
      var k := NewlineRunLength(s);
      if k >= 2 then
        var rest := CapNewlineRuns(s[k..]);
        PrependKeepsNoTriple('\n', rest);
        PrependKeepsNoTriple('\n', "\n" + rest);
        assert "\n\n" + rest == ['\n'] + (['\n'] + rest);
        "\n\n" + rest
      else
        var rest := CapNewlineRuns(s[1..]);
        PrependKeepsNoTriple(s[0], rest);
        [s[0]] + rest
  }

  /** Where `s.strip()` starts inside `s`: after the leading whitespace. */
  function StripStart(s: string): nat {
    SpaceRunLength(s)
  }

  /** Where `s.strip()` ends inside `s`. */
  function StripEnd(s: string): (b: nat)
    ensures StripStart(s) <= b <= |s|
  {
    |s| - TrailingSpaceLength(s[StripStart(s)..])
  }

  predicate AllSpace(s: string) {
    forall i :: 0 <= i < |s| ==> IsSpace(s[i])
  }

  /** `s[StripStart(s)..StripEnd(s)]` keeps everything between the leading and
      the trailing whitespace. */
  lemma StripBounds(s: string)
    ensures IsStripped(s[StripStart(s)..StripEnd(s)])
    ensures StripStart(s) == StripEnd(s) <==> forall i :: 0 <= i < |s| ==> IsSpace(s[i])
    ensures IsStripped(s) ==> StripStart(s) == 0 && StripEnd(s) == |s|
  {
    var a, b := StripStart(s), StripEnd(s);
    var t := s[a..];
    assert s[a..b] == t[..b - a];
    if a < |s| {
      assert !IsSpace(t[0]);
      assert b > a;
    }
  }

  /** What lies outside `s[StripStart(s)..StripEnd(s)]` is whitespace. */
  lemma StripMargins(s: string)
    ensures AllSpace(s[..StripStart(s)]) && AllSpace(s[StripEnd(s)..])
  {
    var a, b := StripStart(s), StripEnd(s);
    var t := s[a..];
    forall i | 0 <= i < a ensures IsSpace(s[..a][i]) {
      assert s[..a][i] == s[i];
    }
    forall i | 0 <= i < |s| - b ensures IsSpace(s[b..][i]) {
      assert s[b..][i] == t[b - a + i];
    }
  }

  /** `s.strip()`: drops the leading and the trailing whitespace and nothing
      else, so the result is a slice of `s` with only whitespace around it. */
  function Strip(s: string): (r: string)
    ensures IsStripped(r)
    ensures exists a, b :: 0 <= a <= b <= |s| && r == s[a..b] && AllSpace(s[..a]) && AllSpace(s[b..])
    ensures IsStripped(s) ==> r == s
    ensures r == [] <==> forall i :: 0 <= i < |s| ==> IsSpace(s[i])
    ensures NoDoubleSpace(s) ==> NoDoubleSpace(r)
    ensures NewlinesIsolated(s) ==> NewlinesIsolated(r)
    ensures forall c :: c in r ==> c in s
  {
    StripBounds(s);
    StripMargins(s);
    SliceKeepsShape(s, StripStart(s), StripEnd(s));
    s[StripStart(s)..StripEnd(s)]
  }

  lemma SpacesOnBothSides(s: string, a: nat)
    requires a <= |s| && AllSpace(s[..a]) && AllSpace(s[a..])
    ensures forall i :: 0 <= i < |s| ==> IsSpace(s[i])
  {
    forall i | 0 <= i < |s| ensures IsSpace(s[i]) {
      if i < a { assert s[i] == s[..a][i]; } else { assert s[i] == s[a..][i - a]; }
    }
  }

  lemma StartsAt(s: string, a: nat)
    requires a < |s| && AllSpace(s[..a]) && !IsSpace(s[a])
    ensures StripStart(s) == a
  {
    forall i | 0 <= i < a ensures IsSpace(s[i]) { assert s[i] == s[..a][i]; }
  }

  lemma EndsAt(t: string, m: nat)
    requires 0 < m <= |t| && !IsSpace(t[m - 1]) && AllSpace(t[m..])
    ensures TrailingSpaceLength(t) == |t| - m
  {
    forall i | m <= i < |t| ensures IsSpace(t[i]) { assert t[i] == t[m..][i - m]; }
  }

  lemma StripSliceUniqueEmpty(s: string, a: nat)
    requires a <= |s| && AllSpace(s[..a]) && AllSpace(s[a..])
    ensures s[StripStart(s)..StripEnd(s)] == []
  {
    SpacesOnBothSides(s, a);
    StripBounds(s);
  }

  lemma StripSliceUniqueNonEmpty(s: string, a: nat, b: nat)
    requires a < b <= |s| && AllSpace(s[..a]) && AllSpace(s[b..]) && IsStripped(s[a..b])
    ensures StripStart(s) == a && StripEnd(s) == b
  {
    assert s[a] == s[a..b][0] && s[b - 1] == s[a..b][b - a - 1];
    StartsAt(s, a);
    var t := s[a..];
    assert t[b - a..] == s[b..] && t[b - a - 1] == s[b - 1];
    EndsAt(t, b - a);
  }

  lemma StripSliceUnique(s: string, a: nat, b: nat)
    requires a <= b <= |s| && AllSpace(s[..a]) && AllSpace(s[b..]) && IsStripped(s[a..b])
    ensures s[StripStart(s)..StripEnd(s)] == s[a..b]
  {
    if a == b {
      StripSliceUniqueEmpty(s, a);
    } else {
      StripSliceUniqueNonEmpty(s, a, b);
    }
  }

  /** Only one slice fits that description: a stripped slice with only
      whitespace before and after it is `s.strip()`. */
  lemma StripUnique(s: string, a: nat, b: nat)
    requires a <= b <= |s| && AllSpace(s[..a]) && AllSpace(s[b..]) && IsStripped(s[a..b])
    ensures Strip(s) == s[a..b]
  {
    StripSliceUnique(s, a, b);
  }

  /** `clean_description` (written equivalently in `utils.py` and `utils2.py`). */
  function CleanDescription(text: string): (r: string)
    ensures text == [] ==> r == []
  {
    if text == [] then ""
    else Strip(CapNewlineRuns(CollapseSpaceRuns(CollapseNewlineRuns(ReplaceNbspAndTab(text)))))
  }

  // ---------------------------------------------------------------------------
  // Properties of the normaliser

  /** The `\n{2,}` pass never fires: no two newlines are adjacent once it runs. */
  lemma {:induction false} CapNewlineRunsNoOp(s: string)
    requires NewlinesIsolated(s)
    ensures CapNewlineRuns(s) == s
    decreases |s|
  {
    if s != [] {
      SliceKeepsShape(s, 1, |s|);
      assert NewlineRunLength(s) <= 1 by {
        if |s| > 1 && s[0] == '\n' { assert s[1] != '\n'; }
      }
      CapNewlineRunsNoOp(s[1..]);
      assert s == [s[0]] + s[1..];
    }
  }

  /** What the `\n{2,}` pass receives: the text after the first three passes. */
  function BeforeCap(text: string): (r: string)
    ensures '\t' !in r && Nbsp !in r
    ensures NoDoubleSpace(r) && NewlinesIsolated(r)
  {
    var s1 := ReplaceNbspAndTab(text);
    var s2 := CollapseNewlineRuns(s1);
    var s3 := CollapseSpaceRuns(s2);
    assert '\t' !in s3 && Nbsp !in s3 by {
      assert forall c :: c in s3 ==> c == ' ' || c == '\n' || c in s1;
    }
    s3
  }

  /** The `\n{2,}` rewrite of `clean_description` leaves its input unchanged. */
  lemma BlankLinePassIsIdentity(text: string)
    ensures CapNewlineRuns(BeforeCap(text)) == BeforeCap(text)
  {
    CapNewlineRunsNoOp(BeforeCap(text));
  }

  /** Every output of `clean_description` is in normal form: no tab, no NBSP,
      no two adjacent spaces, no newline next to any other whitespace (so no
      blank line and no space beside a newline), nothing to strip at either end. */
  lemma CleanDescriptionIsClean(text: string)
    ensures IsClean(CleanDescription(text))
  {
    if text != [] {
      var s3 := BeforeCap(text);
      CapNewlineRunsNoOp(s3);
      var r := Strip(s3);
      assert forall c :: c in r ==> c in s3;
    }
  }

  /** In text whose newlines are isolated, a whitespace run holds a newline
      only when it is that single newline. */
  lemma IsolatedRunHasNoInnerNewline(s: string)
    requires NewlinesIsolated(s) && s != []
    ensures s[0] == '\n' ==> SpaceRunLength(s) == 1
    ensures s[0] != '\n' ==> '\n' !in s[..SpaceRunLength(s)]
  {
    var k := SpaceRunLength(s);
    if s[0] == '\n' {
      if |s| > 1 { assert !IsSpace(s[1]); }
    } else {
      forall j | 0 < j < k ensures s[j] != '\n' {
        assert IsSpace(s[j - 1]);
      }
    }
  }

  lemma {:induction false} CollapseNewlineRunsNoOp(s: string)
    requires NewlinesIsolated(s)
    ensures CollapseNewlineRuns(s) == s
    decreases |s|
  {
    if s != [] {
      SliceKeepsShape(s, 1, |s|);
      CollapseNewlineRunsNoOp(s[1..]);
      IsolatedRunHasNoInnerNewline(s);
      var k := SpaceRunLength(s);
      if s[0] == '\n' {
        assert s[..k] == "\n";
        assert CollapseNewlineRuns(s) == "\n" + CollapseNewlineRuns(s[1..]);
        assert s == "\n" + s[1..];
      } else {
        assert '\n' !in s[..k];
        assert CollapseNewlineRuns(s) == [s[0]] + CollapseNewlineRuns(s[1..]);
        assert s == [s[0]] + s[1..];
      }
    }
  }

  lemma {:induction false} CollapseSpaceRunsNoOp(s: string)
    requires '\t' !in s && NoDoubleSpace(s)
    ensures CollapseSpaceRuns(s) == s
    decreases |s|
  {
    if s != [] {
      SliceKeepsShape(s, 1, |s|);
      CollapseSpaceRunsNoOp(s[1..]);
      var k := BlankRunLength(s);
      if k > 0 {
        assert k == 1 by {
          if |s| > 1 { assert s[0] == ' ' && s[1] != ' ' && s[1] != '\t'; }
        }
        assert s == " " + s[1..];
      } else {
        assert s == [s[0]] + s[1..];
      }
    }
  }

  /** Normal-form text is a fixed point of `clean_description`. */
  lemma CleanTextIsFixedPoint(s: string)
    requires IsClean(s)
    ensures CleanDescription(s) == s
  {
    if s != [] {
      assert ReplaceNbspAndTab(s) == s;
      CollapseNewlineRunsNoOp(s);
      CollapseSpaceRunsNoOp(s);
      CapNewlineRunsNoOp(s);
    }
  }

  /** `clean_description` is idempotent. */
  lemma CleanDescriptionIdempotent(text: string)
    ensures CleanDescription(CleanDescription(text)) == CleanDescription(text)
  {
    CleanDescriptionIsClean(text);
    CleanTextIsFixedPoint(CleanDescription(text));
  }

  // ---------------------------------------------------------------------------
  // The newline pass, run by run

  /** `re.sub(r"\s*\n\s*", "\n", s)` stated on whole whitespace runs: a
      maximal run that holds a newline becomes one `\n`; every other run, and
      every other character, is kept as it is. */
  ghost function NewlineRunsByRun(s: string): string
    decreases |s|
  {
    if s == [] then []
    else
      var k := SpaceRunLength(s);
      if k == 0 then [s[0]] + NewlineRunsByRun(s[1..])
      else if '\n' in s[..k] then "\n" + NewlineRunsByRun(s[k..])
      else s[..k] + NewlineRunsByRun(s[k..])
  }

  /** Putting a character back in front of a split sequence. */
  lemma ConsSplit(s: string, m: nat, whole: string, rest: string, tail: string)
    requires 0 < m <= |s|
    requires whole == [s[0]] + rest && rest == s[1..][..m - 1] + tail
    ensures whole == s[..m] + tail
  {
    assert s[..m] == [s[0]] + s[1..][..m - 1];
  }

  /** The run of `s[1..]` is the rest of the run of `s`. */
  lemma PlainRunShrinks(s: string)
    requires SpaceRunLength(s) > 0 && '\n' !in s[..SpaceRunLength(s)]
    ensures SpaceRunLength(s[1..]) == SpaceRunLength(s) - 1
    ensures '\n' !in s[1..][..SpaceRunLength(s[1..])]
  {
    var k := SpaceRunLength(s);
    assert s[1..][..k - 1] == s[1..k];
    assert forall c :: c in s[1..k] ==> c in s[..k];
  }

  lemma CollapsePlainStep(s: string)
    requires SpaceRunLength(s) > 0 && '\n' !in s[..SpaceRunLength(s)]
    ensures CollapseNewlineRuns(s) == [s[0]] + CollapseNewlineRuns(s[1..])
  {
  }

  /** A leading whitespace run without a newline is copied character by character. */
  lemma {:induction false} PlainRunCopied(s: string, m: nat)
    requires m <= SpaceRunLength(s) && '\n' !in s[..SpaceRunLength(s)]
    ensures CollapseNewlineRuns(s) == s[..m] + CollapseNewlineRuns(s[m..])
    decreases m
  {
    if m > 0 {
      PlainRunShrinks(s);
      CollapsePlainStep(s);
      PlainRunCopied(s[1..], m - 1);
      assert s[1..][m - 1..] == s[m..];
      ConsSplit(s, m, CollapseNewlineRuns(s), CollapseNewlineRuns(s[1..]), CollapseNewlineRuns(s[m..]));
    }
  }

  /** The scan of `CollapseNewlineRuns` rewrites exactly the runs that hold a newline. */
  lemma {:induction false} CollapseNewlineRunsByRun(s: string)
    ensures CollapseNewlineRuns(s) == NewlineRunsByRun(s)
    decreases |s|
  {
    if s != [] {
      var k := SpaceRunLength(s);
      if k == 0 {
        assert s[..0] == [];
        CollapseNewlineRunsByRun(s[1..]);
      } else if '\n' in s[..k] {
        CollapseNewlineRunsByRun(s[k..]);
      } else {
        PlainRunCopied(s, k);
        CollapseNewlineRunsByRun(s[k..]);
      }
    }
  }

  // ---------------------------------------------------------------------------
  // What survives: the non-whitespace text, in order

  /** The non-whitespace characters of `s`, in order. */
  ghost function NonSpace(s: string): string
    decreases |s|
  {
    if s == [] then [] else (if IsSpace(s[0]) then [] else [s[0]]) + NonSpace(s[1..])
  }

  lemma {:induction false} NonSpaceAppend(a: string, b: string)
    ensures NonSpace(a + b) == NonSpace(a) + NonSpace(b)
    decreases |a|
  {
    if a == [] {
      assert a + b == b;
    } else {
      assert (a + b)[1..] == a[1..] + b;
      NonSpaceAppend(a[1..], b);
    }
  }

  lemma {:induction false} NonSpaceOfSpaces(s: string)
    requires AllSpace(s)
    ensures NonSpace(s) == []
    decreases |s|
  {
    if s != [] {
      NonSpaceOfSpaces(s[1..]);
    }
  }

  /** Dropping a whitespace prefix of length `k` keeps the non-whitespace text. */
  lemma DropSpacesKeepsNonSpace(s: string, k: nat)
    requires k <= |s| && AllSpace(s[..k])
    ensures NonSpace(s) == NonSpace(s[k..])
  {
    assert s == s[..k] + s[k..];
    NonSpaceAppend(s[..k], s[k..]);
    NonSpaceOfSpaces(s[..k]);
  }

  lemma {:induction false} ReplaceNbspAndTabKeepsNonSpace(s: string)
    ensures NonSpace(ReplaceNbspAndTab(s)) == NonSpace(s)
    decreases |s|
  {
    if s != [] {
      assert ReplaceNbspAndTab(s)[1..] == ReplaceNbspAndTab(s[1..]);
      ReplaceNbspAndTabKeepsNonSpace(s[1..]);
    }
  }

  lemma {:induction false} CollapseNewlineRunsKeepsNonSpace(s: string)
    ensures NonSpace(CollapseNewlineRuns(s)) == NonSpace(s)
    decreases |s|
  {
    if s != [] {
      var k := SpaceRunLength(s);
      if '\n' in s[..k] {
        var rest := CollapseNewlineRuns(s[k..]);
        CollapseNewlineRunsKeepsNonSpace(s[k..]);
        DropSpacesKeepsNonSpace(s, k);
        assert ("\n" + rest)[1..] == rest;
      } else {
        var rest := CollapseNewlineRuns(s[1..]);
        CollapseNewlineRunsKeepsNonSpace(s[1..]);
        assert ([s[0]] + rest)[1..] == rest;
      }
    }
  }

  lemma {:induction false} CollapseSpaceRunsKeepsNonSpace(s: string)
    ensures NonSpace(CollapseSpaceRuns(s)) == NonSpace(s)
    decreases |s|
  {
    if s != [] {
      var k := BlankRunLength(s);
      if k > 0 {
        var rest := CollapseSpaceRuns(s[k..]);
        CollapseSpaceRunsKeepsNonSpace(s[k..]);
        DropSpacesKeepsNonSpace(s, k);
        assert (" " + rest)[1..] == rest;
      } else {
        var rest := CollapseSpaceRuns(s[1..]);
        CollapseSpaceRunsKeepsNonSpace(s[1..]);
        assert ([s[0]] + rest)[1..] == rest;
      }
    }
  }

  /** One capped run of newlines: neither side's non-whitespace text changes. */
  lemma CapRunKeepsNonSpace(s: string, k: nat)
    requires s != [] && k == NewlineRunLength(s) && k >= 2
    ensures NonSpace(CapNewlineRuns(s)) == NonSpace(CapNewlineRuns(s[k..]))
    ensures NonSpace(s) == NonSpace(s[k..])
  {
    var rest := CapNewlineRuns(s[k..]);
    assert CapNewlineRuns(s) == "\n\n" + rest;
    assert NonSpace(s) == NonSpace(s[k..]) by {
      forall i | 0 <= i < k ensures IsSpace(s[..k][i]) {
        assert s[..k][i] == s[i];
      }
      DropSpacesKeepsNonSpace(s, k);
    }
    assert NonSpace("\n\n" + rest) == NonSpace(rest) by {
      NonSpaceAppend("\n\n", rest);
      assert "\n\n"[1..] == "\n" && "\n"[1..] == [];
    }
  }

  lemma {:induction false} CapNewlineRunsKeepsNonSpace(s: string)
    ensures NonSpace(CapNewlineRuns(s)) == NonSpace(s)
    decreases |s|
  {
    if s != [] {
      var k := NewlineRunLength(s);
      if k >= 2 {
        CapNewlineRunsKeepsNonSpace(s[k..]);
        CapRunKeepsNonSpace(s, k);
      } else {
        var rest := CapNewlineRuns(s[1..]);
        assert CapNewlineRuns(s) == [s[0]] + rest;
        CapNewlineRunsKeepsNonSpace(s[1..]);
        assert ([s[0]] + rest)[1..] == rest;
      }
    }
  }

  lemma StrippedSliceKeepsNonSpace(s: string)
    ensures NonSpace(s[StripStart(s)..StripEnd(s)]) == NonSpace(s)
  {
    var a, b := StripStart(s), StripEnd(s);
    StripMargins(s);
    assert NonSpace(s) == NonSpace(s[a..]) by {
      DropSpacesKeepsNonSpace(s, a);
    }
    assert NonSpace(s[a..]) == NonSpace(s[a..b]) by {
      assert s[a..] == s[a..b] + s[b..];
      NonSpaceAppend(s[a..b], s[b..]);
      NonSpaceOfSpaces(s[b..]);
    }
  }

  lemma StripKeepsNonSpace(s: string)
    ensures NonSpace(Strip(s)) == NonSpace(s)
  {
    StrippedSliceKeepsNonSpace(s);
  }

  /** `clean_description` only ever rewrites whitespace: the text it returns
      holds exactly the input's non-whitespace characters, in order. */
  lemma CleanDescriptionKeepsNonSpace(text: string)
    ensures NonSpace(CleanDescription(text)) == NonSpace(text)
  {
    if text != [] {
      var s1 := ReplaceNbspAndTab(text);
      var s2 := CollapseNewlineRuns(s1);
      var s3 := CollapseSpaceRuns(s2);
      var s4 := CapNewlineRuns(s3);
      ReplaceNbspAndTabKeepsNonSpace(text);
      CollapseNewlineRunsKeepsNonSpace(s1);
      CollapseSpaceRunsKeepsNonSpace(s2);
      CapNewlineRunsKeepsNonSpace(s3);
      StripKeepsNonSpace(s4);
    }
  }

  // ---------------------------------------------------------------------------
  // What the `[ \t]+` pass keeps: everything but spaces and tabs, in order

  /** The characters of `s` outside `[ \t]`, newlines included, in order. */
  ghost function NonBlank(s: string): string
    decreases |s|
  {
    if s == [] then [] else (if IsBlank(s[0]) then [] else [s[0]]) + NonBlank(s[1..])
  }

  lemma {:induction false} NonBlankAppend(a: string, b: string)
    ensures NonBlank(a + b) == NonBlank(a) + NonBlank(b)
    decreases |a|
  {
    if a == [] {
      assert a + b == b;
    } else {
      assert (a + b)[1..] == a[1..] + b;
      NonBlankAppend(a[1..], b);
    }
  }

  lemma {:induction false} NonBlankOfBlanks(s: string)
    requires forall i :: 0 <= i < |s| ==> IsBlank(s[i])
    ensures NonBlank(s) == []
    decreases |s|
  {
    if s != [] {
      NonBlankOfBlanks(s[1..]);
    }
  }

  /** Dropping the leading `[ \t]` run keeps everything else. */
  lemma DropBlankRunKeepsNonBlank(s: string)
    ensures NonBlank(s) == NonBlank(s[BlankRunLength(s)..])
  {
    var k := BlankRunLength(s);
    assert s == s[..k] + s[k..];
    NonBlankAppend(s[..k], s[k..]);
    NonBlankOfBlanks(s[..k]);
  }

  /** `re.sub(r"[ \t]+", " ", s)` only rewrites spaces and tabs: newlines and
      every other character survive, in order. */
  lemma {:induction false} CollapseSpaceRunsKeepsNonBlank(s: string)
    ensures NonBlank(CollapseSpaceRuns(s)) == NonBlank(s)
    decreases |s|
  {
    if s != [] {
      var k := BlankRunLength(s);
      if k > 0 {
        var rest := CollapseSpaceRuns(s[k..]);
        CollapseSpaceRunsKeepsNonBlank(s[k..]);
        DropBlankRunKeepsNonBlank(s);
        assert (" " + rest)[1..] == rest;
      } else {
        var rest := CollapseSpaceRuns(s[1..]);
        CollapseSpaceRunsKeepsNonBlank(s[1..]);
        assert ([s[0]] + rest)[1..] == rest;
      }
    }
  }

  // ---------------------------------------------------------------------------
  // The `[ \t]+` pass, character by character

  /** Position `i` of `s` is a space or tab right after another one. */
  predicate ExtraBlank(s: string, i: int) {
    0 < i < |s| && IsBlank(s[i - 1]) && IsBlank(s[i])
  }

  /** `s[i..]` with every space or tab that follows another one dropped and
      every remaining one made a space: each `[ \t]+` run becomes " " in place. */
  ghost function BlanksToSpace(s: string, i: nat): string
    requires i <= |s|
    decreases |s| - i
  {
    if i == |s| then []
    else (if ExtraBlank(s, i) then [] else [if IsBlank(s[i]) then ' ' else s[i]]) + BlanksToSpace(s, i + 1)
  }

  lemma ExtraBlankShift(s: string, p: nat, j: nat)
    requires p <= j < |s|
    requires p == 0 || !IsBlank(s[p - 1]) || !IsBlank(s[p])
    ensures ExtraBlank(s, j) == ExtraBlank(s[p..], j - p)
  {
    var t := s[p..];
    if j - p >= 1 {
      assert t[j - p - 1] == s[j - 1] && t[j - p] == s[j];
    }
  }

  /** From a position not inside a blank run, the suffix alone decides the result. */
  lemma {:induction false} BlanksToSpaceShift(s: string, p: nat, j: nat)
    requires p <= j <= |s|
    requires p == 0 || p == |s| || !IsBlank(s[p - 1]) || !IsBlank(s[p])
    ensures BlanksToSpace(s, j) == BlanksToSpace(s[p..], j - p)
    decreases |s| - j
  {
    if j < |s| {
      var t := s[p..];
      ExtraBlankShift(s, p, j);
      assert t[j - p] == s[j];
      BlanksToSpaceShift(s, p, j + 1);
      assert BlanksToSpace(s, j) == (if ExtraBlank(s, j) then [] else [if IsBlank(s[j]) then ' ' else s[j]]) + BlanksToSpace(s, j + 1);
      assert BlanksToSpace(t, j - p) == (if ExtraBlank(t, j - p) then [] else [if IsBlank(t[j - p]) then ' ' else t[j - p]]) + BlanksToSpace(t, j - p + 1);
    }
  }

  /** Inside a leading blank run of length `k`, every position from 1 on is dropped. */
  lemma {:induction false} BlanksToSpaceInRun(s: string, j: nat, k: nat)
    requires 1 <= j <= k <= |s|
    requires forall i :: 0 <= i < k ==> IsBlank(s[i])
    ensures BlanksToSpace(s, j) == BlanksToSpace(s, k)
    decreases k - j
  {
    if j < k {
      assert ExtraBlank(s, j);
      BlanksToSpaceInRun(s, j + 1, k);
    }
  }

  /** A leading blank run becomes one space. */
  lemma BlankRunStep(s: string)
    requires BlankRunLength(s) > 0
    ensures BlanksToSpace(s, 0) == " " + BlanksToSpace(s[BlankRunLength(s)..], 0)
  {
    var k := BlankRunLength(s);
    assert !ExtraBlank(s, 0) && IsBlank(s[0]);
    BlanksToSpaceInRun(s, 1, k);
    BlanksToSpaceShift(s, k, k);
  }

  /** Any other first character is copied. */
  lemma NonBlankStep(s: string)
    requires s != [] && !IsBlank(s[0])
    ensures BlanksToSpace(s, 0) == [s[0]] + BlanksToSpace(s[1..], 0)
  {
    assert !ExtraBlank(s, 0);
    BlanksToSpaceShift(s, 1, 1);
  }

  /** The scan of `CollapseSpaceRuns` is the character-wise rule: a space or
      tab after another one is dropped, any other becomes a space, and every
      other character is copied. */
  lemma {:induction false} CollapseSpaceRunsBlanksToSpace(s: string)
    ensures CollapseSpaceRuns(s) == BlanksToSpace(s, 0)
    decreases |s|
  {
    if s != [] {
      var k := BlankRunLength(s);
      if k > 0 {
        CollapseSpaceRunsBlanksToSpace(s[k..]);
        BlankRunStep(s);
      } else {
        CollapseSpaceRunsBlanksToSpace(s[1..]);
        NonBlankStep(s);
      }
    }
  }

  // ---------------------------------------------------------------------------
  // The `\n{2,}` pass, character by character

  /** Position `i` of `s` is a newline with two newlines right before it. */
  predicate ThirdNewline(s: string, i: int) {
    2 <= i < |s| && s[i - 2] == '\n' && s[i - 1] == '\n' && s[i] == '\n'
  }

  /** `s[i..]` without the newlines that follow two newlines: what remains of
      every run of two or more newlines is exactly two. */
  ghost function DropThirdNewlines(s: string, i: nat): string
    requires i <= |s|
    decreases |s| - i
  {
    if i == |s| then [] else (if ThirdNewline(s, i) then [] else [s[i]]) + DropThirdNewlines(s, i + 1)
  }

  lemma ThirdNewlineShift(s: string, p: nat, j: nat)
    requires p <= j < |s|
    requires p == 0 || s[p - 1] != '\n' || s[p] != '\n'
    ensures ThirdNewline(s, j) == ThirdNewline(s[p..], j - p)
  {
    var t := s[p..];
    if j - p >= 2 {
      assert t[j - p - 2] == s[j - 2] && t[j - p - 1] == s[j - 1] && t[j - p] == s[j];
    }
  }

  /** From a position not inside a newline run, the suffix alone decides what is dropped. */
  lemma {:induction false} DropThirdNewlinesShift(s: string, p: nat, j: nat)
    requires p <= j <= |s|
    requires p == 0 || p == |s| || s[p - 1] != '\n' || s[p] != '\n'
    ensures DropThirdNewlines(s, j) == DropThirdNewlines(s[p..], j - p)
    decreases |s| - j
  {
    if j < |s| {
      var t := s[p..];
      ThirdNewlineShift(s, p, j);
      assert t[j - p] == s[j];
      DropThirdNewlinesShift(s, p, j + 1);
      assert DropThirdNewlines(s, j) == (if ThirdNewline(s, j) then [] else [s[j]]) + DropThirdNewlines(s, j + 1);
      assert DropThirdNewlines(t, j - p) == (if ThirdNewline(t, j - p) then [] else [t[j - p]]) + DropThirdNewlines(t, j - p + 1);
    }
  }

  /** Inside a leading run of `k` newlines, every position from 2 on is dropped. */
  lemma {:induction false} DropThirdNewlinesInRun(s: string, j: nat, k: nat)
    requires 2 <= j <= k <= |s|
    requires forall i :: 0 <= i < k ==> s[i] == '\n'
    ensures DropThirdNewlines(s, j) == DropThirdNewlines(s, k)
    decreases k - j
  {
    if j < k {
      assert ThirdNewline(s, j);
      DropThirdNewlinesInRun(s, j + 1, k);
    }
  }

  /** A leading run of two or more newlines keeps its first two. */
  lemma CapRunStep(s: string)
    requires NewlineRunLength(s) >= 2
    ensures DropThirdNewlines(s, 0) == "\n\n" + DropThirdNewlines(s[NewlineRunLength(s)..], 0)
  {
    var k := NewlineRunLength(s);
    assert !ThirdNewline(s, 0) && !ThirdNewline(s, 1);
    DropThirdNewlinesInRun(s, 2, k);
    DropThirdNewlinesShift(s, k, k);
  }

  /** Any other first character is copied. */
  lemma CopyStep(s: string)
    requires s != [] && NewlineRunLength(s) < 2
    ensures DropThirdNewlines(s, 0) == [s[0]] + DropThirdNewlines(s[1..], 0)
  {
    assert !ThirdNewline(s, 0);
    DropThirdNewlinesShift(s, 1, 1);
  }

  /** The scan of `CapNewlineRuns` is the character-wise rule: a newline is
      dropped exactly when the two characters before it are newlines. */
  lemma {:induction false} CapNewlineRunsDropsThirds(s: string)
    ensures CapNewlineRuns(s) == DropThirdNewlines(s, 0)
    decreases |s|
  {
    if s != [] {
      var k := NewlineRunLength(s);
      if k >= 2 {
        CapNewlineRunsDropsThirds(s[k..]);
        CapRunStep(s);
      } else {
        CapNewlineRunsDropsThirds(s[1..]);
        CopyStep(s);
      }
    }
  }

  // ---------------------------------------------------------------------------
  // The whole normaliser, run by run

  /** For non-empty text, `clean_description` turns NBSP and tabs into spaces,
      makes every whitespace run holding a newline one `\n`, collapses each
      `[ \t]+` run to one space, and strips; the `\n{2,}` pass contributes
      nothing. */
  lemma CleanDescriptionByRuns(text: string)
    requires text != []
    ensures CleanDescription(text) == Strip(BlanksToSpace(NewlineRunsByRun(ReplaceNbspAndTab(text)), 0))
  {
    CollapseNewlineRunsByRun(ReplaceNbspAndTab(text));
    CollapseSpaceRunsBlanksToSpace(CollapseNewlineRuns(ReplaceNbspAndTab(text)));
    BlankLinePassIsIdentity(text);
  }
}
