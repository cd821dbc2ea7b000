/** String helpers shared by the models: the parts of Python's `str` that the modelled code relies on. */
module Text {

  /** The characters that `str.strip` removes: Python's Unicode white space. */
  predicate IsSpace(c: char) {
    || '\t' <= c <= '\r'
    || '\U{1c}' <= c <= ' '
    || c == '\U{85}' || c == '\U{a0}' || c == '\U{1680}'
    || '\U{2000}' <= c <= '\U{200a}'
    || c == '\U{2028}' || c == '\U{2029}' || c == '\U{202f}' || c == '\U{205f}' || c == '\U{3000}'
  }

  function StripLeft(s: string): string {
    if s != "" && IsSpace(s[0]) then StripLeft(s[1..]) else s
  }

  function StripRight(s: string): string {
    if s != "" && IsSpace(s[|s| - 1]) then StripRight(s[..|s| - 1]) else s
  }

  /** `str.strip()`. */
  function Strip(s: string): string {
    StripRight(StripLeft(s))
  }

  /** Nothing but white space. */
  predicate Blank(s: string) {
    forall i :: 0 <= i < |s| ==> IsSpace(s[i])
  }

  lemma {:induction false} StripLeftEmpty(s: string)
    ensures StripLeft(s) == "" <==> Blank(s)
    ensures StripLeft(s) != "" ==> !IsSpace(StripLeft(s)[0])
  {
    if s != "" && IsSpace(s[0]) {
      StripLeftEmpty(s[1..]);
      assert forall i :: 1 <= i < |s| ==> s[i] == s[1..][i - 1];
    }
  }

  lemma {:induction false} StripRightKeepsHead(s: string)
    requires s != "" && !IsSpace(s[0])
    ensures StripRight(s) != ""
  {
    if IsSpace(s[|s| - 1]) {
      StripRightKeepsHead(s[..|s| - 1]);
    }
  }

  /** The blank strings are those that stripping leaves empty. */
  lemma StripsToEmpty(s: string)
    ensures Strip(s) == "" <==> Blank(s)
  {
    StripLeftEmpty(s);
    if StripLeft(s) != "" {
      StripRightKeepsHead(StripLeft(s));
    }
  }

  /** `sep.join(parts)` for a one-character separator. */
  function Join(parts: seq<string>, sep: char): string {
    if parts == [] then ""
    else if |parts| == 1 then parts[0]
    else parts[0] + [sep] + Join(parts[1..], sep)
  }

  /** Joining is injective on lists of the same length whose parts avoid the separator. */
  lemma {:induction false} JoinInjective(a: seq<string>, b: seq<string>, sep: char)
    requires |a| == |b|
    requires forall s :: s in a ==> sep !in s
    requires forall s :: s in b ==> sep !in s
    requires Join(a, sep) == Join(b, sep)
    ensures a == b
  {
    if |a| <= 1 {
    } else {
      var s, t := Join(a[1..], sep), Join(b[1..], sep);
      SplitAtFirst(a[0], s, b[0], t, sep);
      JoinInjective(a[1..], b[1..], sep);
      assert a == [a[0]] + a[1..] && b == [b[0]] + b[1..];
    }
  }

  /** The first separator cuts a string in only one way. */
  lemma SplitAtFirst(x: string, s: string, y: string, t: string, sep: char)
    requires sep !in x && sep !in y
    requires x + [sep] + s == y + [sep] + t
    ensures x == y && s == t
  {
    var l, r := x + [sep] + s, y + [sep] + t;
    assert l[|x|] == sep && r[|y|] == sep;
    assert |x| >= |y| && |y| >= |x|;
    assert x == l[..|x|] && y == r[..|y|];
    assert s == l[|x| + 1..] && t == r[|y| + 1..];
  }
}
