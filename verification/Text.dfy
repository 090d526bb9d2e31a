/** The few string operations the source's host handling relies on, over ASCII text. */
module Text {
  predicate IsSpace(c: char) {
    c == ' ' || '\t' <= c <= '\r' || '\U{1C}' <= c <= '\U{1F}'
  }

  predicate IsBracket(c: char) {
    c == '[' || c == ']'
  }

  predicate IsDot(c: char) {
    c == '.'
  }

  function LowerChar(c: char): char {
    if 'A' <= c <= 'Z' then (c as int + 32) as char else c
  }

  function Lower(s: string): (r: string)
    ensures |r| == |s| && forall i | 0 <= i < |s| :: r[i] == LowerChar(s[i])
  {
    seq(|s|, i requires 0 <= i < |s| => LowerChar(s[i]))
  }

  function LStrip(s: string, p: char -> bool): string {
    if s != "" && p(s[0]) then LStrip(s[1..], p) else s
  }

  function RStrip(s: string, p: char -> bool): string {
    if s != "" && p(s[|s| - 1]) then RStrip(s[..|s| - 1], p) else s
  }

  function Strip(s: string, p: char -> bool): string {
    RStrip(LStrip(s, p), p)
  }

  predicate EndsWith(s: string, t: string) {
    |t| <= |s| && s[|s| - |t|..] == t
  }

  predicate HasNone(s: string, chars: string) {
    forall c | c in s :: c !in chars
  }

  /** The part of `s` before the first `c`; all of it when there is none. */
  function Before(s: string, c: char): string {
    if s == "" || s[0] == c then "" else [s[0]] + Before(s[1..], c)
  }

  /** The part of `s` after the first `c`; empty when there is none. */
  function After(s: string, c: char): (r: string)
    ensures s != "" ==> |r| < |s|
  {
    if s == "" then "" else if s[0] == c then s[1..] else After(s[1..], c)
  }

  /** Splitting at the first separator recovers both parts, whatever the second one holds. */
  lemma {:induction false} SplitJoined(a: string, c: char, b: string)
    requires c !in a
    ensures Before(a + [c] + b, c) == a && After(a + [c] + b, c) == b
  {
    if a == "" {
      assert a + [c] + b == [c] + b;
    } else {
      SplitJoined(a[1..], c, b);
      assert (a + [c] + b)[1..] == a[1..] + [c] + b;
    }
  }

  lemma {:induction false} JoinFirst(s: string, c: char)
    requires c in s
    ensures s == Before(s, c) + [c] + After(s, c) && c !in Before(s, c)
  {
    if s[0] != c {
      JoinFirst(s[1..], c);
      assert s == [s[0]] + s[1..];
    }
  }

  lemma {:induction false} LStripStops(a: string, c: char, b: string, p: char -> bool)
    requires !p(c)
    ensures LStrip(a + [c] + b, p) == LStrip(a, p) + [c] + b
  {
    if a == "" {
      assert a + [c] + b == [c] + b;
    } else {
      assert (a + [c] + b)[1..] == a[1..] + [c] + b;
      if p(a[0]) {
        LStripStops(a[1..], c, b, p);
      }
    }
  }

  lemma {:induction false} RStripStops(a: string, b: string, p: char -> bool)
    requires RStrip(b, p) != ""
    ensures RStrip(a + b, p) == a + RStrip(b, p)
    ensures RStrip(b, p)[0] == b[0]
    decreases |b|
  {
    assert (a + b)[..|a + b| - 1] == a + b[..|b| - 1];
    if p(b[|b| - 1]) {
      RStripStops(a, b[..|b| - 1], p);
    }
  }

  lemma {:induction false} RStripKeepsHead(b: string, p: char -> bool)
    requires b != "" && !p(b[0])
    ensures RStrip(b, p) != "" && RStrip(b, p)[0] == b[0]
    decreases |b|
  {
    if p(b[|b| - 1]) {
      RStripKeepsHead(b[..|b| - 1], p);
    }
  }

  /** What stripping takes off the front consists of stripped characters only. */
  lemma {:induction false} LStripSplits(s: string, p: char -> bool) returns (front: string)
    ensures s == front + LStrip(s, p) && forall c | c in front :: p(c)
    ensures s != "" && p(s[0]) ==> front != ""
  {
    front := "";
    if s != "" && p(s[0]) {
      var rest := LStripSplits(s[1..], p);
      front := [s[0]] + rest;
      assert s == [s[0]] + s[1..];
    }
  }

  lemma LowerConcat(a: string, b: string)
    ensures Lower(a + b) == Lower(a) + Lower(b)
  {
  }

  lemma EndsWithSplit(s: string, t: string)
    requires EndsWith(s, t)
    ensures s == s[..|s| - |t|] + t
  {
  }

  lemma LowerKeepsClean(s: string, chars: string)
    requires HasNone(s, chars) && forall c | c in chars :: !('a' <= c <= 'z')
    ensures HasNone(Lower(s), chars)
  {
    forall c | c in Lower(s) ensures c !in chars {
      var i :| 0 <= i < |s| && Lower(s)[i] == c;
      assert s[i] in s;
    }
  }

  lemma {:induction false} RStripIsPart(s: string, p: char -> bool)
    ensures forall c | c in RStrip(s, p) :: c in s
  {
    if s != "" && p(s[|s| - 1]) {
      RStripIsPart(s[..|s| - 1], p);
    }
  }

  lemma {:induction false} LStripIsPart(s: string, p: char -> bool)
    ensures forall c | c in LStrip(s, p) :: c in s
    ensures LStrip(s, p) != "" ==> !p(LStrip(s, p)[0])
  {
    if s != "" && p(s[0]) {
      LStripIsPart(s[1..], p);
    }
  }

  lemma StripIsPart(s: string, p: char -> bool)
    ensures forall c | c in Strip(s, p) :: c in s
    ensures Strip(s, p) != "" ==> !p(Strip(s, p)[0])
  {
    LStripIsPart(s, p);
    RStripIsPart(LStrip(s, p), p);
    if LStrip(s, p) != "" {
      RStripKeepsHead(LStrip(s, p), p);
    }
  }

  lemma {:induction false} RStripFront(s: string, p: char -> bool)
    requires RStrip(s, p) != ""
    ensures s != "" && RStrip(s, p)[0] == s[0]
  {
    if p(s[|s| - 1]) {
      RStripFront(s[..|s| - 1], p);
    }
  }

  lemma {:induction false} BeforeIsPart(s: string, c: char)
    ensures forall x | x in Before(s, c) :: x in s
  {
    if s != "" && s[0] != c {
      BeforeIsPart(s[1..], c);
    }
  }

  lemma NothingToStrip(s: string)
    requires s != "" && !IsSpace(s[0]) && !IsSpace(s[|s| - 1])
    ensures Strip(s, IsSpace) == s
  {
  }

  /** What counts as a blank. */
  lemma BlanksAre(c: char)
    ensures IsSpace(c) <==> c in [' ', '\t', '\n', '\U{0B}', '\U{0C}', '\r', '\U{1C}', '\U{1D}', '\U{1E}', '\U{1F}']
    ensures IsBracket(c) <==> c in "[]"
  {
  }

  const CAPITALS := "ABCDEFGHIJKLMNOPQRSTUVWXYZ"
  const SMALL_LETTERS := "abcdefghijklmnopqrstuvwxyz"

  /** Lower case replaces each capital by its small letter and leaves everything else. */
  lemma LowerReplaces(c: char)
    ensures Lower(CAPITALS) == SMALL_LETTERS
    ensures c !in CAPITALS ==> Lower([c]) == [c]
  {
    CapitalsRange(c);
  }

  lemma CapitalsRange(c: char)
    ensures c in CAPITALS <==> 'A' <= c <= 'Z'
  {
    assert forall i | 0 <= i < 26 :: CAPITALS[i] == (65 + i) as char;
    if 'A' <= c <= 'Z' {
      assert CAPITALS[c as int - 65] == c;
    }
  }

  /** Stripping leaves nothing exactly of texts that are all blanks. */
  lemma {:induction false} StripsToNothing(s: string, p: char -> bool)
    ensures Strip(s, p) == "" <==> forall c | c in s :: p(c)
  {
    LStripNothing(s, p);
    var rest := LStrip(s, p);
    if rest != "" {
      RStripKeepsHead(rest, p);
    }
  }

  lemma {:induction false} LStripNothing(s: string, p: char -> bool)
    ensures LStrip(s, p) == "" <==> forall c | c in s :: p(c)
    ensures LStrip(s, p) != "" ==> !p(LStrip(s, p)[0])
  {
    if s != "" {
      LStripNothing(s[1..], p);
      assert s == [s[0]] + s[1..];
    }
  }
}
