/**
 * Character classes and string routines shared by the fallback generators and the
 * backend parser, restricted to ASCII (plus the bullet character where Python's
 * `strip` is given it explicitly).
 */
module Text {

  /** JavaScript `\s` and `String.prototype.trim` whitespace, ASCII part. */
  predicate IsJsSpace(c: char) {
    c == ' ' || c == '\t' || c == '\n' || c == '\r' || c == '\U{000B}' || c == '\U{000C}'
  }

  /** Python `str.isspace` on ASCII: also the four separator controls 0x1C-0x1F. */
  predicate IsPySpace(c: char) {
    IsJsSpace(c) || ('\U{001C}' <= c <= '\U{001F}')
  }

  /** A sentence terminator of the character class `[.!?]`. */
  predicate IsTerminator(c: char) {
    c == '.' || c == '!' || c == '?'
  }

  /** The regular-expression word characters `[A-Za-z0-9_]`. */
  predicate IsWordChar(c: char) {
    ('a' <= c <= 'z') || ('A' <= c <= 'Z') || ('0' <= c <= '9') || c == '_'
  }

  predicate IsUpper(c: char) {
    'A' <= c <= 'Z'
  }

  /** `toLowerCase` of one character, ASCII part. */
  function LowerChar(c: char): (r: char)
    ensures !IsUpper(r)
    ensures IsUpper(c) ==> r as int == c as int + 32
    ensures !IsUpper(c) ==> r == c
  {
    if IsUpper(c) then (c as int + 32) as char else c
  }

  /** `toLowerCase`: every character mapped by LowerChar, nothing else changed. */
  function Lower(s: string): (r: string)
    ensures |r| == |s|
    ensures forall i :: 0 <= i < |s| ==> r[i] == LowerChar(s[i])
    ensures forall i :: 0 <= i < |r| ==> !IsUpper(r[i])
  {
    seq(|s|, i requires 0 <= i < |s| => LowerChar(s[i]))
  }

  /** `String.prototype.includes` / Python `in`: `sub` occurs in `s` at some offset. */
  predicate Contains(s: string, sub: string) {
    exists i | 0 <= i <= |s| - |sub| :: OccursAt(s, sub, i)
  }

  /** `sub` is the piece of `s` that starts at offset `i`. */
  predicate OccursAt(s: string, sub: string, i: int) {
    0 <= i && i + |sub| <= |s| && s[i..i + |sub|] == sub
  }

  /** Removes the longest prefix of characters satisfying `p`. */
  function StripLeft(s: string, p: char -> bool): (r: string)
    ensures |r| <= |s| && r == s[|s| - |r|..]
    ensures forall i :: 0 <= i < |s| - |r| ==> p(s[i])
    ensures r != [] ==> !p(r[0])
  {
    if |s| > 0 && p(s[0]) then
      var r := StripLeft(s[1..], p);
      assert forall i :: 1 <= i < |s| - |r| ==> s[i] == s[1..][i - 1];
      r
    else s
  }

  /** Removes the longest suffix of characters satisfying `p`. */
  function StripRight(s: string, p: char -> bool): (r: string)
    ensures |r| <= |s| && r == s[..|r|]
    ensures forall i :: |r| <= i < |s| ==> p(s[i])
    ensures r != [] ==> !p(r[|r| - 1])
  {
    if |s| > 0 && p(s[|s| - 1]) then StripRight(s[..|s| - 1], p) else s
  }

  /**
   * Strips both ends: `s` is `pre + r + post` where `pre` and `post` are made of
   * characters satisfying `p` and `r` neither starts nor ends with one.
   */
  function Strip(s: string, p: char -> bool): (r: string)
  {
    StripRight(StripLeft(s, p), p)
  }

  lemma StripShape(s: string, p: char -> bool) returns (k: nat, r: string)
    ensures r == Strip(s, p)
    ensures k + |r| <= |s| && r == s[k..k + |r|]
    ensures forall i :: 0 <= i < k ==> p(s[i])
    ensures forall i :: k + |r| <= i < |s| ==> p(s[i])
    ensures r != [] ==> !p(r[0]) && !p(r[|r| - 1])
  {
    var l := StripLeft(s, p);
    r := StripRight(l, p);
    k := |s| - |l|;
    CutBothEnds(s, p, k, l, r);
  }

  /** The shape of `r` cut from `l`, itself cut from `s`, stated on `s`. */
  lemma CutBothEnds(s: string, p: char -> bool, k: nat, l: string, r: string)
    requires k == |s| - |l| && l == s[k..]
    requires forall i :: 0 <= i < k ==> p(s[i])
    requires l != [] ==> !p(l[0])
    requires |r| <= |l| && r == l[..|r|]
    requires forall i :: |r| <= i < |l| ==> p(l[i])
    requires r != [] ==> !p(r[|r| - 1])
    ensures k + |r| <= |s| && r == s[k..k + |r|]
    ensures forall i :: k + |r| <= i < |s| ==> p(s[i])
    ensures r != [] ==> !p(r[0])
  {
    assert s[k..k + |r|] == l[..|r|];
    if r != [] {
      assert r[0] == l[0];
    }
    forall i | k + |r| <= i < |s| ensures p(s[i]) {
      assert s[i] == l[i - k];
    }
  }

  /** The stripped string is empty exactly when every character satisfies `p`. */
  lemma StripEmptyIff(s: string, p: char -> bool)
    ensures Strip(s, p) == [] <==> forall i :: 0 <= i < |s| ==> p(s[i])
  {
    var k, r := StripShape(s, p);
  }

  /** JavaScript `trim()`. */
  function Trim(s: string): string {
    Strip(s, IsJsSpace)
  }

  /** `s.trim().length > 0`. */
  predicate IsNonBlank(s: string) {
    |Trim(s)| > 0
  }

  lemma NonBlankIff(s: string)
    ensures IsNonBlank(s) <==> exists i :: 0 <= i < |s| && !IsJsSpace(s[i])
  {
    StripEmptyIff(s, IsJsSpace);
  }

  /** Drops the leading run of characters satisfying `p`. */
  function SkipRun(s: string, p: char -> bool): (r: string)
    ensures |r| <= |s| && r == s[|s| - |r|..]
    ensures r != [] ==> !p(r[0])
  {
    if |s| > 0 && p(s[0]) then
      var r := SkipRun(s[1..], p);
      assert s[1..][|s| - 1 - |r|..] == s[|s| - |r|..];
      r
    else s
  }

  /**
   * JavaScript `s.split(/[c]+/)` for the character class `p`: the pieces between
   * maximal runs of separator characters, an empty piece before a leading run and
   * after a trailing run. There is always at least one piece and no piece holds a
   * separator.
   */
  function SplitRuns(s: string, p: char -> bool): (r: seq<string>)
    ensures |r| >= 1
    ensures forall k, j :: 0 <= k < |r| && 0 <= j < |r[k]| ==> !p(r[k][j])
    decreases |s|
  {
    if |s| == 0 then [""]
    else if p(s[0]) then [""] + SplitRuns(SkipRun(s[1..], p), p)
    else
      var rest := SplitRuns(s[1..], p);
      [[s[0]] + rest[0]] + rest[1..]
  }

  /** Number of maximal runs of `p`-characters, counted one character at a time. */
  function RunCount(s: string, p: char -> bool, prevInRun: bool): nat
  {
    if |s| == 0 then 0
    else (if p(s[0]) && !prevInRun then 1 else 0) + RunCount(s[1..], p, p(s[0]))
  }

  /** Removes every character that satisfies `p`. */
  function RemoveAll(s: string, p: char -> bool): (r: string)
    ensures |r| <= |s|
    ensures forall j :: 0 <= j < |r| ==> !p(r[j])
  {
    if |s| == 0 then "" else (if p(s[0]) then "" else [s[0]]) + RemoveAll(s[1..], p)
  }

  function Concat(xs: seq<string>): string {
    if |xs| == 0 then "" else xs[0] + Concat(xs[1..])
  }

  lemma {:induction false} RunCountAfterRun(s: string, p: char -> bool)
    ensures RunCount(s, p, true) == RunCount(SkipRun(s, p), p, false)
    decreases |s|
  {
    if |s| > 0 && p(s[0]) {
      RunCountAfterRun(s[1..], p);
    }
  }

  /** The number of pieces is one more than the number of separator runs. */
  lemma {:induction false} SplitRunsCount(s: string, p: char -> bool)
    ensures |SplitRuns(s, p)| == 1 + RunCount(s, p, false)
    decreases |s|
  {
    if |s| > 0 {
      if p(s[0]) {
        RunCountAfterRun(s[1..], p);
        SplitRunsCount(SkipRun(s[1..], p), p);
      } else {
        SplitRunsCount(s[1..], p);
      }
    }
  }

  lemma {:induction false} RemoveAllSkipRun(s: string, p: char -> bool)
    ensures RemoveAll(SkipRun(s, p), p) == RemoveAll(s, p)
    decreases |s|
  {
    if |s| > 0 && p(s[0]) {
      RemoveAllSkipRun(s[1..], p);
    }
  }

  /** Splitting loses exactly the separator characters: the pieces concatenate to the rest. */
  lemma {:induction false} SplitRunsConcat(s: string, p: char -> bool)
    ensures Concat(SplitRuns(s, p)) == RemoveAll(s, p)
    decreases |s|
  {
    if |s| > 0 {
      if p(s[0]) {
        RemoveAllSkipRun(s[1..], p);
        SplitRunsConcat(SkipRun(s[1..], p), p);
      } else {
        var rest := SplitRuns(s[1..], p);
        SplitRunsConcat(s[1..], p);
        assert rest == [rest[0]] + rest[1..];
        assert Concat(rest) == rest[0] + Concat(rest[1..]);
        var r := SplitRuns(s, p);
        assert r[1..] == rest[1..];
      }
    }
  }

  /** `xs.filter((s) => s.trim().length > 0)`: the non-blank pieces, in order. */
  function NonBlank(xs: seq<string>): (r: seq<string>)
    ensures |r| <= |xs|
    ensures forall k :: 0 <= k < |r| ==> IsNonBlank(r[k])
    ensures forall x :: x in r ==> x in xs
  {
    if |xs| == 0 then []
    else
      var rest := NonBlank(xs[1..]);
      assert forall x :: x in xs[1..] ==> x in xs;
      if IsNonBlank(xs[0]) then [xs[0]] + rest else rest
  }

  /** Nothing is dropped when every piece is non-blank. */
  lemma {:induction false} NonBlankKeepsAll(xs: seq<string>)
    requires forall k :: 0 <= k < |xs| ==> IsNonBlank(xs[k])
    ensures NonBlank(xs) == xs
  {
    if |xs| > 0 {
      NonBlankKeepsAll(xs[1..]);
      assert [xs[0]] + xs[1..] == xs;
    }
  }

  /** `xs.join(sep)`. */
  function Join(xs: seq<string>, sep: string): string {
    if |xs| == 0 then ""
    else if |xs| == 1 then xs[0]
    else xs[0] + sep + Join(xs[1..], sep)
  }

  /** Joining one, two or three pieces. */
  lemma JoinSmall(xs: seq<string>, sep: string)
    ensures |xs| == 1 ==> Join(xs, sep) == xs[0]
    ensures |xs| == 2 ==> Join(xs, sep) == xs[0] + sep + xs[1]
    ensures |xs| == 3 ==> Join(xs, sep) == xs[0] + sep + xs[1] + sep + xs[2]
  {
    if |xs| == 3 {
      assert Join(xs[1..], sep) == xs[1] + sep + xs[2];
    }
  }

  /** Line-break characters of Python's `str.splitlines`, ASCII part. */
  predicate IsLineBreak(c: char) {
    c == '\n' || c == '\r' || c == '\U{000B}' || c == '\U{000C}'
      || c == '\U{001C}' || c == '\U{001D}' || c == '\U{001E}'
  }

  /** Index of the first line break in `s`, or `|s|` when there is none. */
  function LineEnd(s: string): (e: nat)
    ensures e <= |s|
    ensures forall j :: 0 <= j < e ==> !IsLineBreak(s[j])
    ensures e < |s| ==> IsLineBreak(s[e])
  {
    if |s| == 0 || IsLineBreak(s[0]) then 0 else 1 + LineEnd(s[1..])
  }

  /** Width of the line break at `e`: two for "\r\n", one otherwise, none at the end. */
  function BreakWidth(s: string, e: nat): (w: nat)
    requires e <= |s|
    ensures e + w <= |s|
    ensures e < |s| ==> w >= 1
  {
    if e == |s| then 0
    else if s[e] == '\r' && e + 1 < |s| && s[e + 1] == '\n' then 2
    else 1
  }

  /**
   * Python `s.splitlines()`: the lines without their breaks; "\r\n" is one break and a
   * final break does not start an empty last line.
   */
  function Lines(s: string): (r: seq<string>)
    ensures forall k, j :: 0 <= k < |r| && 0 <= j < |r[k]| ==> !IsLineBreak(r[k][j])
    ensures |r| <= |s|
    ensures s == [] <==> r == []
    decreases |s|
  {
    if |s| == 0 then []
    else
      var e := LineEnd(s);
      [s[..e]] + Lines(s[e + BreakWidth(s, e)..])
  }

  /** Joining lines back. */
  function JoinLines(xs: seq<string>): string {
    Join(xs, "\n")
  }

  /**
   * For text whose only breaks are "\n", splitting into lines and joining them with
   * "\n" gives back the text, up to one final "\n".
   */
  lemma {:induction false} LinesJoin(s: string)
    requires forall j :: 0 <= j < |s| ==> IsLineBreak(s[j]) ==> s[j] == '\n'
    ensures s == JoinLines(Lines(s)) || s == JoinLines(Lines(s)) + "\n"
    decreases |s|
  {
    if |s| > 0 {
      var e := LineEnd(s);
      if e == |s| {
        LinesWithoutBreak(s);
      } else {
        var t := LinesAtBreak(s);
        LinesJoin(t);
        JoinAfterBreak(s[..e], t, Lines(t));
      }
    }
  }

  lemma LinesWithoutBreak(s: string)
    requires |s| > 0 && LineEnd(s) == |s|
    ensures Lines(s) == [s]
  {
    assert s[..|s|] == s;
    assert s[|s|..] == [];
  }

  /** At a "\n" break the text is its first line, the break, and the rest's lines. */
  lemma LinesAtBreak(s: string) returns (t: string)
    requires forall j :: 0 <= j < |s| ==> IsLineBreak(s[j]) ==> s[j] == '\n'
    requires LineEnd(s) < |s|
    ensures |t| < |s|
    ensures s == s[..LineEnd(s)] + "\n" + t
    ensures Lines(s) == [s[..LineEnd(s)]] + Lines(t)
    ensures forall j :: 0 <= j < |t| ==> IsLineBreak(t[j]) ==> t[j] == '\n'
  {
    var e := LineEnd(s);
    assert s[e] == '\n' && BreakWidth(s, e) == 1;
    t := s[e + 1..];
    assert s == s[..e] + "\n" + t;
    forall j | 0 <= j < |t| && IsLineBreak(t[j]) ensures t[j] == '\n' {
      assert t[j] == s[e + 1 + j];
    }
  }

  lemma JoinAfterBreak(line: string, t: string, lt: seq<string>)
    requires lt == [] ==> t == []
    requires t == JoinLines(lt) || t == JoinLines(lt) + "\n"
    ensures line + "\n" + t == JoinLines([line] + lt) || line + "\n" + t == JoinLines([line] + lt) + "\n"
  {
    LinesJoinCons(line, lt);
    if lt != [] && t != JoinLines(lt) {
      assert line + "\n" + t == line + "\n" + JoinLines(lt) + "\n";
    }
  }

  lemma LinesJoinCons(line: string, rest: seq<string>)
    ensures rest == [] ==> JoinLines([line] + rest) == line
    ensures rest != [] ==> JoinLines([line] + rest) == line + "\n" + JoinLines(rest)
  {
    var xs := [line] + rest;
    assert xs[1..] == rest;
  }

  /** A line without breaks, then "\n", then the rest: that line comes first, then the rest's lines. */
  lemma LinesCons(line: string, rest: string)
    requires forall j :: 0 <= j < |line| ==> !IsLineBreak(line[j])
    ensures Lines(line + "\n" + rest) == [line] + Lines(rest)
  {
    var s := line + "\n" + rest;
    var e := LineEnd(s);
    assert s[|line|] == '\n';
    assert forall j :: 0 <= j < |line| ==> s[j] == line[j];
    assert e == |line|;
    assert BreakWidth(s, e) == 1;
    assert s[..e] == line;
    assert s[e + 1..] == rest;
  }
}
