/** The string operations the forms and the search box use: `trim`, `toLowerCase`
    (on ASCII letters) and `includes`. */
module Text {

  /** The WhiteSpace and LineTerminator code points that `String.prototype.trim`
      removes (ECMAScript, sections 12.2 and 12.3). */
  predicate IsWhiteSpace(c: char) {
    c == ' ' || c == '\t' || c == '\n' || c == '\r' || c == '\U{000B}' || c == '\U{000C}'
    || c == '\U{00A0}' || c == '\U{1680}' || ('\U{2000}' <= c <= '\U{200A}')
    || c == '\U{2028}' || c == '\U{2029}' || c == '\U{202F}' || c == '\U{205F}'
    || c == '\U{3000}' || c == '\U{FEFF}'
  }

  function TrimStart(s: string): string {
    if |s| > 0 && IsWhiteSpace(s[0]) then TrimStart(s[1..]) else s
  }

  function TrimEnd(s: string): string {
    if |s| > 0 && IsWhiteSpace(s[|s| - 1]) then TrimEnd(s[..|s| - 1]) else s
  }

  function Trim(s: string): string {
    TrimEnd(TrimStart(s))
  }

  /** `!s.trim()`: the string is empty once trimmed. */
  predicate IsBlank(s: string) {
    Trim(s) == ""
  }

  predicate AllWhiteSpace(s: string) {
    forall i :: 0 <= i < |s| ==> IsWhiteSpace(s[i])
  }

  /** Cutting `s` down to `s[i..j]` removes only white space. */
  predicate CutsWhiteSpace(s: string, i: int, j: int) {
    0 <= i <= j <= |s| && AllWhiteSpace(s[..i]) && AllWhiteSpace(s[j..])
  }

  predicate CutsLeadingWhiteSpace(s: string, i: int) {
    CutsWhiteSpace(s, i, |s|)
  }

  lemma {:induction false} TrimStartShape(s: string)
    ensures exists i :: CutsLeadingWhiteSpace(s, i) && TrimStart(s) == s[i..]
    ensures TrimStart(s) != "" ==> !IsWhiteSpace(TrimStart(s)[0])
  {
    if |s| > 0 && IsWhiteSpace(s[0]) {
      TrimStartShape(s[1..]);
      var i :| CutsLeadingWhiteSpace(s[1..], i) && TrimStart(s[1..]) == s[1..][i..];
      assert s[1..][i..] == s[i + 1..];
      assert TrimStart(s) == s[i + 1..];
      var w := s[..i + 1];
      forall k | 0 <= k < |w| ensures IsWhiteSpace(w[k]) {
        if k > 0 { assert w[k] == s[1..][..i][k - 1]; }
      }
      assert s[i + 1..][..0] == [];
      assert CutsLeadingWhiteSpace(s, i + 1);
    } else {
      assert TrimStart(s) == s[0..];
      assert CutsLeadingWhiteSpace(s, 0);
    }
  }

  lemma {:induction false} TrimEndShape(s: string)
    ensures exists j :: CutsWhiteSpace(s, 0, j) && TrimEnd(s) == s[..j]
    ensures TrimEnd(s) != "" ==> !IsWhiteSpace(TrimEnd(s)[|TrimEnd(s)| - 1])
  {
    if |s| > 0 && IsWhiteSpace(s[|s| - 1]) {
      var p := s[..|s| - 1];
      TrimEndShape(p);
      var j :| CutsWhiteSpace(p, 0, j) && TrimEnd(p) == p[..j];
      assert TrimEnd(s) == s[..j];
      assert AllWhiteSpace(s[j..]) by {
        forall k | 0 <= k < |s| - j ensures IsWhiteSpace(s[j..][k]) {
          if k < |p| - j { assert s[j..][k] == p[j..][k]; }
        }
      }
      assert CutsWhiteSpace(s, 0, j);
    } else {
      assert TrimEnd(s) == s[..|s|];
      assert CutsWhiteSpace(s, 0, |s|);
    }
  }

  /** `trim` removes white space at both ends and nothing else: the result is a
      contiguous piece of the input, everything cut off is white space, and the
      result neither starts nor ends with white space. */
  lemma TrimShape(s: string)
    ensures exists i, j :: CutsWhiteSpace(s, i, j) && Trim(s) == s[i..j]
    ensures Trim(s) != "" ==> !IsWhiteSpace(Trim(s)[0]) && !IsWhiteSpace(Trim(s)[|Trim(s)| - 1])
  {
    TrimStartShape(s);
    var i :| CutsLeadingWhiteSpace(s, i) && TrimStart(s) == s[i..];
    var t := s[i..];
    TrimEndShape(t);
    var j :| CutsWhiteSpace(t, 0, j) && TrimEnd(t) == t[..j];
    assert Trim(s) == s[i..i + j];
    assert s[i + j..] == t[j..];
    assert CutsWhiteSpace(s, i, i + j);
    if Trim(s) != "" {
      assert Trim(s)[0] == TrimStart(s)[0];
    }
  }

  /** A string is blank exactly when every character of it is white space. */
  lemma BlankIff(s: string)
    ensures IsBlank(s) <==> AllWhiteSpace(s)
  {
    TrimShape(s);
    var i, j :| CutsWhiteSpace(s, i, j) && Trim(s) == s[i..j];
    if IsBlank(s) {
      forall k | 0 <= k < |s| ensures IsWhiteSpace(s[k]) {
        if k < i { assert s[k] == s[..i][k]; } else { assert s[k] == s[j..][k - j]; }
      }
    }
  }

  /** `toLowerCase` on one character; letters outside ASCII are left as they are. */
  function LowerChar(c: char): char {
    if 'A' <= c <= 'Z' then (c as int + 32) as char else c
  }

  function ToLower(s: string): string {
    seq(|s|, i requires 0 <= i < |s| => LowerChar(s[i]))
  }

  lemma ToLowerIdempotent(s: string)
    ensures ToLower(ToLower(s)) == ToLower(s)
  {
  }

  predicate StartsWith(s: string, prefix: string) {
    |prefix| <= |s| && s[..|prefix|] == prefix
  }

  /** `s.includes(t)` */
  predicate Includes(s: string, t: string)
    decreases |s|
  {
    StartsWith(s, t) || (|s| > 0 && Includes(s[1..], t))
  }

  predicate OccursAt(s: string, t: string, i: int) {
    0 <= i <= |s| - |t| && s[i..i + |t|] == t
  }

  /** `includes` finds `t` at some position of `s`; the empty string is everywhere. */
  lemma {:induction false} IncludesIff(s: string, t: string)
    ensures Includes(s, t) <==> exists i :: OccursAt(s, t, i)
    decreases |s|
  {
    if StartsWith(s, t) {
      assert OccursAt(s, t, 0);
    } else if |s| > 0 {
      IncludesIff(s[1..], t);
      if exists i :: OccursAt(s, t, i) {
        var i :| OccursAt(s, t, i);
        assert i != 0;
        assert OccursAt(s[1..], t, i - 1);
      }
      if Includes(s[1..], t) {
        var i :| OccursAt(s[1..], t, i);
        assert OccursAt(s, t, i + 1);
      }
    }
  }

  lemma IncludesEmpty(s: string)
    ensures Includes(s, "")
  {
    assert StartsWith(s, "");
  }
}
