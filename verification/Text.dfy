/** The string operations the configuration parsers share. */
module Text {
  /** White space, as str.strip and str.isspace see it. */
  predicate IsBlank(c: char) {
    var n := c as int;
    || 0x09 <= n <= 0x0d || 0x1c <= n <= 0x20 || n == 0x85 || n == 0xa0 || n == 0x1680
    || 0x2000 <= n <= 0x200a || n == 0x2028 || n == 0x2029 || n == 0x202f || n == 0x205f || n == 0x3000
  }

  function StripLeft(s: string): (t: string)
    ensures t == [] || !IsBlank(t[0])
  {
    if s != [] && IsBlank(s[0]) then StripLeft(s[1..]) else s
  }

  function StripRight(s: string): (t: string)
    ensures t <= s && (t == [] || !IsBlank(t[|t| - 1]))
  {
    if s != [] && IsBlank(s[|s| - 1]) then StripRight(s[..|s| - 1]) else s
  }

  function Strip(s: string): string {
    StripRight(StripLeft(s))
  }

  /** No blank at either end. */
  predicate Trimmed(s: string) {
    |s| == 0 || (!IsBlank(s[0]) && !IsBlank(s[|s| - 1]))
  }

  lemma {:induction false} StripTrims(s: string)
    ensures Trimmed(Strip(s))
    ensures Strip(s) == s <==> Trimmed(s)
  {
    if Trimmed(s) {
      assert StripLeft(s) == s;
    }
  }

  lemma {:induction false} StripLeftKeeps(s: string)
    ensures |StripLeft(s)| <= |s| && forall c | c in StripLeft(s) :: c in s
  {
    if s != [] && IsBlank(s[0]) {
      StripLeftKeeps(s[1..]);
    }
  }

  /** Nothing is added. */
  lemma {:induction false} StripKeeps(s: string)
    ensures |Strip(s)| <= |s| && forall c | c in Strip(s) :: c in s
  {
    var left := StripLeft(s);
    StripLeftKeeps(s);
    assert forall c | c in Strip(s) :: c in left;
  }

  lemma {:induction false} TrimmedStays(s: string)
    requires Trimmed(s)
    ensures Strip(s) == s
  {
    StripTrims(s);
  }

  /** The pieces between separators; one piece more than there are separators. */
  function Split(s: string, sep: char): (pieces: seq<string>)
    ensures pieces != []
  {
    if |s| == 0 then [""]
    else
      var rest := Split(s[1..], sep);
      if s[0] == sep then [""] + rest else [[s[0]] + rest[0]] + rest[1..]
  }

  function Join(pieces: seq<string>, sep: string): string {
    if |pieces| == 0 then ""
    else if |pieces| == 1 then pieces[0]
    else pieces[0] + sep + Join(pieces[1..], sep)
  }

  /** The pieces hold no separator, and put together with separators in between they are the text. */
  lemma {:induction false} SplitJoins(s: string, sep: char)
    ensures Join(Split(s, sep), [sep]) == s
    ensures forall piece | piece in Split(s, sep) :: sep !in piece
  {
    if s != [] {
      var rest := Split(s[1..], sep);
      SplitJoins(s[1..], sep);
      if s[0] == sep {
        assert Split(s, sep)[1..] == rest;
      } else {
        assert Split(s, sep)[1..] == rest[1..];
        assert s == [s[0]] + s[1..];
        assert rest[0] in rest;
      }
    }
  }
}
