/** What the texts of a firewall configuration say: numbers, port ranges and comments, character by character. */
module FirewallTexts {
  import opened Prelude
  import opened Text
  import opened FirewallConfig

  // ---- Blanks ----

  /** What is left is the text between the first and the last character that is no blank. */
  lemma {:induction false} StripMeans(s: string) returns (i: nat, j: nat)
    ensures i <= j <= |s| && Strip(s) == s[i..j] && Trimmed(Strip(s))
    ensures forall k | 0 <= k < |s| && !(i <= k < j) :: IsBlank(s[k])
  {
    StripTrims(s);
    i := StripLeftMeans(s);
    var k := StripRightMeans(s[i..]);
    j := i + k;
    forall m | j <= m < |s|
      ensures IsBlank(s[m])
    {
      assert s[m] == s[i..][m - i];
    }
  }

  lemma {:induction false} StripLeftMeans(s: string) returns (i: nat)
    ensures i <= |s| && StripLeft(s) == s[i..] && forall k | 0 <= k < i :: IsBlank(s[k])
  {
    i := 0;
    if s != [] && IsBlank(s[0]) {
      i := StripLeftMeans(s[1..]);
      i := i + 1;
    }
  }

  lemma {:induction false} StripRightMeans(s: string) returns (j: nat)
    ensures j <= |s| && StripRight(s) == s[..j] && forall k | j <= k < |s| :: IsBlank(s[k])
  {
    j := |s|;
    if s != [] && IsBlank(s[|s| - 1]) {
      j := StripRightMeans(s[..|s| - 1]);
    }
  }

  // ---- Numbers ----

  predicate Group(piece: string) {
    piece != "" && forall c | c in piece :: IsDigit(c)
  }

  predicate Groups(pieces: seq<string>) {
    forall piece | piece in pieces :: Group(piece)
  }

  /** Groups of digits with single underscores between them. */
  predicate Grouped(s: string) {
    Groups(Split(s, '_'))
  }

  /** The number that the digits write, read from the left. */
  function Number(s: string): nat {
    NumberAfter(0, s)
  }

  function NumberAfter(n: nat, s: string): nat
    decreases |s|
  {
    if |s| == 0 then n else NumberAfter(if IsDigit(s[0]) then 10 * n + ValueOf(s[0]) else n, s[1..])
  }

  lemma {:induction false} NumberSnoc(n: nat, s: string, c: char)
    ensures NumberAfter(n, s + [c]) == if IsDigit(c) then 10 * NumberAfter(n, s) + ValueOf(c) else NumberAfter(n, s)
    decreases |s|
  {
    if s == [] {
      assert (s + [c])[1..] == [];
    } else {
      assert (s + [c])[1..] == s[1..] + [c];
      NumberSnoc(if IsDigit(s[0]) then 10 * n + ValueOf(s[0]) else n, s[1..], c);
    }
  }

  /** The pieces of a text that has grown by a character at its end, or at its front. */
  function Longer(pieces: seq<string>, c: char, sep: char): seq<string>
    requires pieces != []
  {
    var n := |pieces| - 1;
    if c == sep then pieces + [""] else pieces[..n] + [pieces[n] + [c]]
  }

  function Led(d: char, pieces: seq<string>, sep: char): seq<string>
    requires pieces != []
  {
    if d == sep then [""] + pieces else [[d] + pieces[0]] + pieces[1..]
  }

  lemma {:induction false} LedLonger(d: char, pieces: seq<string>, c: char, sep: char)
    requires pieces != []
    ensures Longer(Led(d, pieces, sep), c, sep) == Led(d, Longer(pieces, c, sep), sep)
  {
    var n := |pieces| - 1;
    if d == sep {
      assert ([""] + pieces)[..n + 1] == [""] + pieces[..n];
    } else if n == 0 {
      assert [d] + (pieces[0] + [c]) == ([d] + pieces[0]) + [c];
    }
  }

  lemma {:induction false} SplitSnoc(s: string, c: char, sep: char)
    ensures Split(s + [c], sep) == Longer(Split(s, sep), c, sep)
    decreases |s|
  {
    if s == [] {
      assert (s + [c])[1..] == [] && s + [c] == [c];
      assert Split([c], sep) == Led(c, [""], sep);
      assert c != sep ==> [c] + "" == "" + [c];
    } else {
      assert (s + [c])[1..] == s[1..] + [c];
      SplitSnoc(s[1..], c, sep);
      LedLonger(s[0], Split(s[1..], sep), c, sep);
    }
  }

  lemma {:induction false} GroupsSnoc(pieces: seq<string>, last: string)
    ensures Groups(pieces + [last]) <==> Groups(pieces) && Group(last)
  {
    if Groups(pieces + [last]) {
      assert forall piece | piece in pieces :: piece in pieces + [last];
      assert last in pieces + [last];
    }
  }

  lemma {:induction false} GroupGrows(piece: string, c: char)
    ensures Group(piece + [c]) <==> IsDigit(c) && (piece == "" || Group(piece))
  {
    assert c in piece + [c];
    assert forall d :: d in piece + [c] <==> d in piece || d == c;
  }

  /** Only a digit can come last, alone, behind a digit, or behind an underscore that ends a group. */
  lemma {:induction false} GroupedSnoc(s: string, c: char)
    ensures Grouped(s + [c]) <==>
            IsDigit(c) && if s == "" then true else if s[|s| - 1] == '_' then Grouped(s[..|s| - 1]) else Grouped(s)
  {
    var pieces := Split(s, '_');
    var n := |pieces| - 1;
    SplitSnoc(s, c, '_');
    assert pieces == pieces[..n] + [pieces[n]];
    GroupsSnoc(pieces[..n], pieces[n]);
    GroupsSnoc(pieces[..n], pieces[n] + [c]);
    GroupGrows(pieces[n], c);
    GroupsSnoc(pieces, "");
    if s != "" {
      LastPiece(s);
    }
  }

  lemma {:induction false} LastPiece(s: string)
    requires s != ""
    ensures var pieces := Split(s, '_');
            var n := |pieces| - 1;
            && (pieces[n] == "" <==> s[|s| - 1] == '_')
            && (s[|s| - 1] == '_' ==> pieces[..n] == Split(s[..|s| - 1], '_'))
  {
    var n := |s| - 1;
    assert s == s[..n] + [s[n]];
    SplitSnoc(s[..n], s[n], '_');
  }

  /** Exactly the texts that are groups of digits are read, and as the number they write. */
  lemma {:induction false} DigitsMean(s: string)
    ensures Digits(s) == if Grouped(s) then Some(Number(s)) else None
    decreases |s|
  {
    if s == "" {
      assert "" in Split(s, '_');
    } else {
      var n := |s| - 1;
      var c := s[n];
      assert s == s[..n] + [c];
      GroupedSnoc(s[..n], c);
      NumberSnoc(0, s[..n], c);
      if n > 0 && IsDigit(c) {
        if s[n - 1] == '_' {
          assert s[..n] == s[..n - 1] + ['_'] && s[..n][..n - 1] == s[..n - 1];
          NumberSnoc(0, s[..n - 1], '_');
          DigitsMean(s[..n - 1]);
        } else {
          DigitsMean(s[..n]);
        }
      }
    }
  }

  predicate Signed(s: string, sign: string, body: string) {
    sign in {"", "+", "-"} && s == sign + body && Grouped(body)
  }

  function Value(sign: string, body: string): int {
    var n: int := Number(body);
    if sign == "-" then -n else n
  }

  /** The text writes `n`: blanks, a sign or none, groups of digits, blanks. */
  ghost predicate Writes(text: string, n: int) {
    exists sign, body :: Signed(Strip(text), sign, body) && n == Value(sign, body)
  }

  /** Exactly the texts that write a number are read as it. */
  lemma {:induction false} IntegerMeans(text: string, n: int)
    ensures Integer(text) == Some(n) <==> Writes(text, n)
  {
    var t := Strip(text);
    forall sign, body | Signed(t, sign, body)
      ensures Integer(text) == Some(Value(sign, body))
    {
      DigitsMean(body);
      assert body != "" && IsDigit(body[|body| - 1]) by {
        assert Digits(body).Some?;
      }
      GroupStartsWithDigit(body);
      assert (sign + body)[|sign|..] == body;
    }
    if Integer(text) == Some(n) {
      var signed := t[0] == '-' || t[0] == '+';
      var body := if signed then t[1..] else t;
      DigitsMean(body);
      assert t == (if signed then [t[0]] else "") + body;
      assert Signed(t, if signed then [t[0]] else "", body);
    }
  }

  lemma {:induction false} GroupStartsWithDigit(s: string)
    requires Grouped(s)
    ensures s != "" && IsDigit(s[0])
  {
    var first := Split(s, '_')[0];
    assert first in Split(s, '_');
    assert first[0] in first;
  }

  // ---- Port ranges ----

  predicate FirstSeparator(text: string, separator: char, i: int) {
    0 <= i < |text| && text[i] == separator && forall k | 0 <= k < i :: text[k] != separator
  }

  /** One number, or two around the first separator. */
  ghost predicate WritesRange(text: string, separator: char, low: int, high: int) {
    || (separator !in text && low == high && Writes(text, low))
    || exists i :: FirstSeparator(text, separator, i) && Writes(text[..i], low) && Writes(text[i + 1..], high)
  }

  lemma {:induction false} RangeMeans(text: string, separator: char, low: int, high: int)
    ensures Range(text, separator) == Some(Ports(low, high)) <==> WritesRange(text, separator, low, high)
  {
    var i := IndexOf(text, separator);
    FirstAt(text, separator);
    IntegerMeans(text[..i], low);
    if i < |text| {
      IntegerMeans(text[i + 1..], high);
      assert FirstSeparator(text, separator, i);
      OneFirst(text, separator, i);
    } else {
      assert text[..i] == text;
    }
  }

  lemma {:induction false} OneFirst(text: string, separator: char, i: int)
    requires FirstSeparator(text, separator, i)
    ensures separator in text && forall j | FirstSeparator(text, separator, j) :: j == i
  {
  }

  lemma {:induction false} FirstAt(s: string, c: char)
    ensures var i := IndexOf(s, c);
            (forall k | 0 <= k < i :: s[k] != c) && (i < |s| ==> s[i] == c) && (i == |s| <==> c !in s)
  {
    if s != [] && s[0] != c {
      FirstAt(s[1..], c);
      assert forall k | 0 < k < |s| :: s[k] == s[1..][k - 1];
    }
  }

  // ---- Comments ----

  /** The printable characters, in their order. */
  lemma {:induction false} KeptMeans(a: string, b: string, c: char, printable: char -> bool)
    ensures Kept(a + b, printable) == Kept(a, printable) + Kept(b, printable)
    ensures Kept([c], printable) == if printable(c) then [c] else []
    decreases |b|
  {
    assert [c][..0] == [];
    if b == [] {
      assert a + b == a;
    } else {
      var n := |b| - 1;
      KeptMeans(a, b[..n], c, printable);
      assert (a + b)[..|a + b| - 1] == a + b[..n];
      assert Kept(a, printable) + (Kept(b[..n], printable) + [b[n]]) == (Kept(a, printable) + Kept(b[..n], printable)) + [b[n]];
    }
  }

  /** What is kept of a comment: the printable characters between blanks, the first eighty of them; nothing of a comment
      without any. */
  lemma {:induction false} CommentMeans(text: string, printable: char -> bool)
    ensures CleanText(None, printable) == None
    ensures var all := Strip(Kept(text, printable));
            match CleanText(Some(text), printable)
            case None => all == ""
            case Some(comment) => comment != "" && comment <= all && |comment| == if |all| < 80 then |all| else 80
  {
  }
}
