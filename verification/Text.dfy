/** White-space trimming as Go's `strings.TrimSpace` and Python's `str.strip` do it. */
module Text {

  /** Unicode White_Space, what `strings.TrimSpace` removes. */
  predicate IsGoSpace(c: char) {
    || '\t' <= c <= '\r' || c == ' ' || c == '\U{85}' || c == '\U{A0}' || c == '\U{1680}'
    || '\U{2000}' <= c <= '\U{200A}' || c == '\U{2028}' || c == '\U{2029}' || c == '\U{202F}'
    || c == '\U{205F}' || c == '\U{3000}'
  }

  /** What `str.strip` removes: the same and the four information separators. */
  predicate IsPythonSpace(c: char) {
    IsGoSpace(c) || '\U{1C}' <= c <= '\U{1F}'
  }

  function TrimLeft(s: string, space: char -> bool): string {
    if s != [] && space(s[0]) then TrimLeft(s[1..], space) else s
  }

  function TrimRight(s: string, space: char -> bool): string {
    if s != [] && space(s[|s| - 1]) then TrimRight(s[..|s| - 1], space) else s
  }

  function Trim(s: string, space: char -> bool): string {
    TrimRight(TrimLeft(s, space), space)
  }

  function GoTrim(s: string): string {
    Trim(s, IsGoSpace)
  }

  function PythonStrip(s: string): string {
    Trim(s, IsPythonSpace)
  }

  predicate AllSpace(s: string, space: char -> bool) {
    forall c | c in s :: space(c)
  }

  /** Neither end is a space. */
  predicate Tight(s: string, space: char -> bool) {
    s == [] || (!space(s[0]) && !space(s[|s| - 1]))
  }

  lemma {:induction false} TrimLeftShape(s: string, space: char -> bool)
    ensures var t := TrimLeft(s, space);
            && (t == [] || !space(t[0]))
            && |t| <= |s| && t == s[|s| - |t|..]
            && (t == [] <==> AllSpace(s, space))
  {
    if s != [] && space(s[0]) {
      TrimLeftShape(s[1..], space);
      var t := TrimLeft(s[1..], space);
      assert s[|s| - |t|..] == s[1..][|s[1..]| - |t|..];
      assert s == [s[0]] + s[1..];
    }
  }

  lemma {:induction false} TrimRightShape(s: string, space: char -> bool)
    ensures var t := TrimRight(s, space);
            && (t == [] || !space(t[|t| - 1]))
            && t <= s
            && (t == [] <==> AllSpace(s, space))
  {
    if s != [] && space(s[|s| - 1]) {
      TrimRightShape(s[..|s| - 1], space);
      assert s == s[..|s| - 1] + [s[|s| - 1]];
    }
  }

  /** Trimming leaves a tight string, nothing exactly from white space, and characters of the original. */
  lemma TrimShape(s: string, space: char -> bool)
    ensures var t := Trim(s, space);
            && Tight(t, space)
            && (t == [] <==> AllSpace(s, space))
            && (forall c | c in t :: c in s)
  {
    TrimLeftShape(s, space);
    var l := TrimLeft(s, space);
    TrimRightShape(l, space);
    var t := TrimRight(l, space);
    if t != [] { assert t[0] == l[0]; }
    assert l != [] ==> l[0] in l;
  }

  lemma TrimTight(s: string, space: char -> bool)
    ensures Trim(s, space) == s <==> Tight(s, space)
  {
    TrimShape(s, space);
  }
}
