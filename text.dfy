/**
 * String primitives of JavaScript that the pages use: the white-space class
 * shared by `\s` and `String.prototype.trim`, `trim`, `replace(/\s+/g, c)`
 * and `toLowerCase` (restricted to ASCII letters).
 */
module Text {

  /** The characters `\s` matches and `trim` removes (ECMAScript WhiteSpace and LineTerminator). */
  predicate IsSpace(c: char) {
    c == '\t' || c == '\n' || c == '\U{B}' || c == '\U{C}' || c == '\r' || c == ' '
    || c == '\U{A0}' || c == '\U{1680}' || ('\U{2000}' <= c <= '\U{200A}')
    || c == '\U{2028}' || c == '\U{2029}' || c == '\U{202F}' || c == '\U{205F}'
    || c == '\U{3000}' || c == '\U{FEFF}'
  }

  predicate HasNoSpace(s: string) {
    forall i :: 0 <= i < |s| ==> !IsSpace(s[i])
  }

  /** A string made of white space only (the empty string included). */
  predicate IsBlank(s: string) {
    forall i :: 0 <= i < |s| ==> IsSpace(s[i])
  }

  /** Drops the leading white space: the result is a suffix of `s`, and only white space was dropped. */
  function TrimStart(s: string): (r: string)
    ensures |r| <= |s| && r == s[|s| - |r|..]
    ensures r == [] || !IsSpace(r[0])
    ensures forall i :: 0 <= i < |s| - |r| ==> IsSpace(s[i])
  {
    if s != [] && IsSpace(s[0]) then TrimStart(s[1..]) else s
  }

  /** Drops the trailing white space: the result is a prefix of `s`, and only white space was dropped. */
  function TrimEnd(s: string): (r: string)
    ensures |r| <= |s| && r == s[..|r|]
    ensures r == [] || !IsSpace(r[|r| - 1])
    ensures forall i :: |r| <= i < |s| ==> IsSpace(s[i])
  {
    if s != [] && IsSpace(s[|s| - 1]) then TrimEnd(s[..|s| - 1]) else s
  }

  /** `s.trim()`. */
  function Trim(s: string): (r: string)
    ensures |r| <= |s|
    ensures r == [] || (!IsSpace(r[0]) && !IsSpace(r[|r| - 1]))
    ensures r == [] <==> IsBlank(s)
    ensures HasNoSpace(s) ==> r == s
  {
    var t := TrimStart(s);
    var r := TrimEnd(t);
    assert HasNoSpace(s) ==> r == s by {
      if HasNoSpace(s) {
        assert |t| == |s|;
        assert |r| == |t|;
      }
    }
    r
  }

  /**
   * `s.replace(/\s+/g, [sub])`: every maximal run of white space becomes one `sub`.
   * The result is empty exactly when `s` is, never longer than `s`, free of white space
   * when `sub` is not white space, and equal to `s` when `s` has no white space.
   */
  function ReplaceSpaceRuns(s: string, sub: char): (r: string)
    ensures |r| <= |s|
    ensures (r == []) == (s == [])
    ensures !IsSpace(sub) ==> HasNoSpace(r)
    ensures HasNoSpace(s) ==> r == s
    decreases |s|
  {
    if s == [] then []
    else if IsSpace(s[0]) then [sub] + ReplaceSpaceRuns(TrimStart(s), sub)
    else
      var rest := ReplaceSpaceRuns(s[1..], sub);
      assert HasNoSpace(s) ==> HasNoSpace(s[1..]) by {
        if HasNoSpace(s) {
          forall i | 0 <= i < |s[1..]| ensures !IsSpace(s[1..][i]) {
            assert s[1..][i] == s[i + 1];
          }
        }
      }
      [s[0]] + rest
  }

  /** Every character of the replaced string is `sub` or a character of `s`. */
  lemma {:induction false} ReplaceSpaceRunsChars(s: string, sub: char)
    ensures forall i :: 0 <= i < |ReplaceSpaceRuns(s, sub)| ==>
      ReplaceSpaceRuns(s, sub)[i] == sub || ReplaceSpaceRuns(s, sub)[i] in s
    decreases |s|
  {
    if s != [] {
      var r := ReplaceSpaceRuns(s, sub);
      if IsSpace(s[0]) {
        var t := TrimStart(s);
        ReplaceSpaceRunsChars(t, sub);
        forall i | 0 <= i < |r| ensures r[i] == sub || r[i] in s {
          if i > 0 {
            assert r[i] == ReplaceSpaceRuns(t, sub)[i - 1];
            if r[i] in t {
              var j :| 0 <= j < |t| && t[j] == r[i];
              assert s[|s| - |t| + j] == r[i];
            }
          }
        }
      } else {
        ReplaceSpaceRunsChars(s[1..], sub);
        forall i | 0 <= i < |r| ensures r[i] == sub || r[i] in s {
          if i > 0 {
            assert r[i] == ReplaceSpaceRuns(s[1..], sub)[i - 1];
            if r[i] in s[1..] {
              var j :| 0 <= j < |s[1..]| && s[1..][j] == r[i];
              assert s[j + 1] == r[i];
            }
          }
        }
      }
    }
  }

  /** ASCII `toLowerCase` of one character. */
  function LowerChar(c: char): char {
    if 'A' <= c <= 'Z' then (c as int + 32) as char else c
  }

  /** `s.toLowerCase()`, on ASCII letters; every other character is kept. */
  function ToLower(s: string): (r: string)
    ensures |r| == |s|
    ensures forall i :: 0 <= i < |s| ==> r[i] == LowerChar(s[i])
  {
    seq(|s|, i requires 0 <= i < |s| => LowerChar(s[i]))
  }

  /** Lower-casing neither creates nor removes white space, and applying it twice changes nothing more. */
  lemma ToLowerKeepsSpace(s: string)
    ensures HasNoSpace(s) ==> HasNoSpace(ToLower(s))
    ensures ToLower(ToLower(s)) == ToLower(s)
  {
  }

  /** Trimming twice is trimming once. */
  lemma TrimIdempotent(s: string)
    ensures Trim(Trim(s)) == Trim(s)
  {
    var r := Trim(s);
    if r != [] {
      assert !IsSpace(r[0]);
      assert TrimStart(r) == r;
      assert TrimEnd(r) == r;
    }
  }
}
