/**
  The two string operations the practice engines apply to a typed answer:
  JavaScript's `String.prototype.trim` and `toLowerCase`.

  `Trim` removes exactly the characters ECMAScript classes as WhiteSpace or
  LineTerminator. `Lower` maps the upper-case letters of Basic Latin and
  Latin-1 Supplement, plus the two upper-case French letters outside that
  block (Œ and Ÿ), to their lower-case forms, one character to one.
*/
module Text {

  /** ECMAScript WhiteSpace and LineTerminator code points. */
  predicate IsWhite(c: char) {
    c == '\t' || c == '\n' || c == '\U{000B}' || c == '\U{000C}' || c == '\r' || c == ' '
    || c == '\U{00A0}' || c == '\U{1680}' || ('\U{2000}' <= c <= '\U{200A}')
    || c == '\U{2028}' || c == '\U{2029}' || c == '\U{202F}' || c == '\U{205F}'
    || c == '\U{3000}' || c == '\U{FEFF}'
  }

  predicate AllWhite(s: string) {
    forall k :: 0 <= k < |s| ==> IsWhite(s[k])
  }

  /** Leading white space removed: a suffix of `s` that does not start with white space. */
  function TrimStart(s: string): (r: string)
    ensures |r| <= |s| && r == s[|s| - |r|..]
    ensures r == [] || !IsWhite(r[0])
  {
    if |s| > 0 && IsWhite(s[0]) then TrimStart(s[1..]) else s
  }

  /** All of the part `TrimStart` drops is white space. */
  lemma {:induction false} TrimStartDropsWhite(s: string)
    ensures AllWhite(s[..|s| - |TrimStart(s)|])
  {
    if |s| > 0 && IsWhite(s[0]) {
      var t := TrimStart(s[1..]);
      TrimStartDropsWhite(s[1..]);
      assert s[1..][..|s| - 1 - |t|] == s[1..|s| - |t|];
      assert s[..|s| - |t|] == [s[0]] + s[1..|s| - |t|];
    }
  }

  /** Trailing white space removed: a prefix of `s` that does not end with white space. */
  function TrimEnd(s: string): (r: string)
    ensures |r| <= |s| && r == s[..|r|]
    ensures r == [] || !IsWhite(r[|r| - 1])
  {
    if |s| > 0 && IsWhite(s[|s| - 1]) then TrimEnd(s[..|s| - 1]) else s
  }

  /** All of the part `TrimEnd` drops is white space. */
  lemma {:induction false} TrimEndDropsWhite(s: string)
    ensures AllWhite(s[|TrimEnd(s)|..])
  {
    if |s| > 0 && IsWhite(s[|s| - 1]) {
      var t := TrimEnd(s[..|s| - 1]);
      TrimEndDropsWhite(s[..|s| - 1]);
      assert s[|t|..] == s[..|s| - 1][|t|..] + [s[|s| - 1]];
    }
  }

  /** `String.prototype.trim`. */
  function Trim(s: string): (r: string)
    ensures |r| <= |s|
    ensures r == [] || (!IsWhite(r[0]) && !IsWhite(r[|r| - 1]))
  {
    var t := TrimStart(s);
    var r := TrimEnd(t);
    assert r != [] ==> r[0] == t[0];
    r
  }

  /** The trimmed string is the infix of `s` between a white prefix and a white suffix. */
  lemma TrimIsInfix(s: string)
    ensures exists i, j :: 0 <= i <= j <= |s| && Trim(s) == s[i..j]
                           && AllWhite(s[..i]) && AllWhite(s[j..])
  {
    var t := TrimStart(s);
    TrimStartDropsWhite(s);
    TrimEndDropsWhite(t);
    var i := |s| - |t|;
    var m := |TrimEnd(t)|;
    var j := i + m;
    assert t == s[i..];
    assert t[m..] == s[j..];
    assert TrimEnd(t) == t[..m] == s[i..j];
    assert AllWhite(s[..i]) && AllWhite(s[j..]);
    assert Trim(s) == s[i..j];
  }

  /** A string trims to nothing exactly when it is all white space. */
  lemma TrimEmptyIff(s: string)
    ensures Trim(s) == [] <==> AllWhite(s)
  {
    var t := TrimStart(s);
    TrimStartDropsWhite(s);
    TrimEndDropsWhite(t);
    if Trim(s) == [] {
      assert AllWhite(s[..|s| - |t|]);
      assert s[..|s|] == s;
    }
  }

  lemma TrimIdempotent(s: string)
    ensures Trim(Trim(s)) == Trim(s)
  {
  }

  /** Lower case of one character. */
  function LowerChar(c: char): char {
    if 'A' <= c <= 'Z' then (c as int + 32) as char
    else if '\U{00C0}' <= c <= '\U{00DE}' && c != '\U{00D7}' then (c as int + 32) as char
    else if c == '\U{0152}' then '\U{0153}'
    else if c == '\U{0178}' then '\U{00FF}'
    else c
  }

  /** `String.prototype.toLowerCase`, character by character. */
  function Lower(s: string): (r: string)
    ensures |r| == |s|
    ensures forall k :: 0 <= k < |s| ==> r[k] == LowerChar(s[k])
  {
    seq(|s|, k requires 0 <= k < |s| => LowerChar(s[k]))
  }

  lemma LowerIdempotent(s: string)
    ensures Lower(Lower(s)) == Lower(s)
  {
  }

  /** Case folding keeps white space white and everything else non-white. */
  lemma LowerKeepsWhite(c: char)
    ensures IsWhite(LowerChar(c)) <==> IsWhite(c)
  {
  }

  lemma {:induction false} TrimStartLower(s: string)
    ensures TrimStart(Lower(s)) == Lower(TrimStart(s))
    decreases |s|
  {
    if |s| > 0 {
      LowerKeepsWhite(s[0]);
      if IsWhite(s[0]) {
        assert Lower(s)[1..] == Lower(s[1..]);
        TrimStartLower(s[1..]);
      }
    }
  }

  lemma {:induction false} TrimEndLower(s: string)
    ensures TrimEnd(Lower(s)) == Lower(TrimEnd(s))
    decreases |s|
  {
    if |s| > 0 {
      var t := s[..|s| - 1];
      LowerKeepsWhite(s[|s| - 1]);
      assert Lower(s)[|s| - 1] == LowerChar(s[|s| - 1]);
      if IsWhite(s[|s| - 1]) {
        assert Lower(s)[..|s| - 1] == Lower(t);
        TrimEndLower(t);
        assert TrimEnd(Lower(s)) == TrimEnd(Lower(t));
      }
    }
  }

  /** Trimming and case folding commute, so the order the source applies them in does not matter. */
  lemma TrimLowerCommute(s: string)
    ensures Trim(Lower(s)) == Lower(Trim(s))
  {
    TrimStartLower(s);
    TrimEndLower(TrimStart(s));
  }

  /**
    The answer check of both practice engines: the typed input, lower-cased
    and then trimmed, equals the lower-cased target. The target is not trimmed.
  */
  predicate Matches(input: string, target: string): (b: bool)
    ensures b ==> |target| <= |input|
  {
    Trim(Lower(input)) == Lower(target)
  }

  /** The comparison read as "trim, fold, compare": input case and surrounding blanks are ignored. */
  lemma MatchesIff(input: string, target: string)
    ensures Matches(input, target) <==> Lower(Trim(input)) == Lower(target)
  {
    TrimLowerCommute(input);
  }

  /** A blank input never matches a non-empty target. */
  lemma BlankNeverMatches(input: string, target: string)
    requires AllWhite(input) && target != []
    ensures !Matches(input, target)
  {
    TrimLowerCommute(input);
    TrimEmptyIff(input);
  }

  /** Typing a target that carries no surrounding blanks is a match. */
  lemma TargetMatchesItself(target: string)
    requires Trim(target) == target
    ensures Matches(target, target)
  {
    TrimLowerCommute(target);
  }

  /** A word of plain lower-case letters is matched by itself. */
  lemma LowercaseWordMatchesItself(w: string)
    requires forall k :: 0 <= k < |w| ==> 'a' <= w[k] <= 'z'
    ensures Matches(w, w)
  {
    assert Lower(w) == w;
    if w != [] {
      assert TrimStart(w) == w;
      assert TrimEnd(w) == w;
    }
  }

  /** A target with a leading or trailing blank can never be matched. */
  lemma UntrimmedTargetNeverMatches(input: string, target: string)
    requires target != [] && (IsWhite(target[0]) || IsWhite(target[|target| - 1]))
    ensures !Matches(input, target)
  {
    var lt := Lower(target);
    var ti := Trim(Lower(input));
    var first, last := target[0], target[|target| - 1];
    assert lt[0] == LowerChar(first) && lt[|lt| - 1] == LowerChar(last);
    LowerKeepsWhite(first);
    LowerKeepsWhite(last);
    assert IsWhite(lt[0]) || IsWhite(lt[|lt| - 1]);
    assert ti == [] || (!IsWhite(ti[0]) && !IsWhite(ti[|ti| - 1]));
    assert ti != lt;
  }
}
