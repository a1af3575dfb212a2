/** The two JavaScript string built-ins the CSV loader relies on:
    `String.prototype.trim` and `String.prototype.split` with a one-character
    separator, together with the join that undoes a split. */
module JsString {

  /** The characters `trim` removes: ECMAScript WhiteSpace (tab, vertical
      tab, form feed, byte-order mark and every space separator) and
      LineTerminator (line feed, carriage return, U+2028, U+2029). */
  predicate IsWhitespace(c: char) {
    || c == '\t' || c == '\n' || c == '\U{B}' || c == '\U{C}' || c == '\r'
    || c == ' ' || c == '\U{A0}' || c == '\U{1680}'
    || ('\U{2000}' <= c <= '\U{200A}')
    || c == '\U{2028}' || c == '\U{2029}' || c == '\U{202F}' || c == '\U{205F}'
    || c == '\U{3000}' || c == '\U{FEFF}'
  }

  predicate AllWhitespace(s: string) {
    forall k :: 0 <= k < |s| ==> IsWhitespace(s[k])
  }

  /** Neither end of `s` is whitespace. */
  predicate IsTrimmed(s: string) {
    s == [] || (!IsWhitespace(s[0]) && !IsWhitespace(s[|s| - 1]))
  }

  /** `s.trim()`: `s` without its leading and trailing whitespace. */
  function Trim(s: string): (r: string)
    ensures IsTrimmed(r)
  {
    if s != [] && IsWhitespace(s[0]) then Trim(s[1..])
    else if s != [] && IsWhitespace(s[|s| - 1]) then Trim(s[..|s| - 1])
    else s
  }

  /** A text with no whitespace at either end is its own trim, so trimming
      twice is trimming once. */
  lemma TrimIdempotent(s: string)
    ensures IsTrimmed(s) ==> Trim(s) == s
    ensures Trim(Trim(s)) == Trim(s)
  {
  }

  /** `r` sits at offset `i` of `s` with only whitespace around it. */
  predicate CoreAt(s: string, r: string, i: int) {
    0 <= i <= |s| - |r| && r == s[i..i + |r|]
    && AllWhitespace(s[..i]) && AllWhitespace(s[i + |r|..])
  }

  /** What `trim` removes is whitespace at either end and nothing else. */
  lemma {:induction false} TrimRemovesOnlyEndWhitespace(s: string)
    ensures exists i :: CoreAt(s, Trim(s), i)
  {
    var r := Trim(s);
    if s != [] && IsWhitespace(s[0]) {
      TrimRemovesOnlyEndWhitespace(s[1..]);
      var i :| CoreAt(s[1..], r, i);
      CoreAtFront(s, r, i);
    } else if s != [] && IsWhitespace(s[|s| - 1]) {
      TrimRemovesOnlyEndWhitespace(s[..|s| - 1]);
      var i :| CoreAt(s[..|s| - 1], r, i);
      CoreAtBack(s, r, i);
    } else {
      assert s[0..|r|] == s;
      assert CoreAt(s, r, 0);
    }
  }

  /** A whitespace character in front shifts the core by one. */
  lemma CoreAtFront(s: string, r: string, i: int)
    requires s != [] && IsWhitespace(s[0]) && CoreAt(s[1..], r, i)
    ensures CoreAt(s, r, i + 1)
  {
    var t := s[1..];
    assert s[i + 1..i + 1 + |r|] == t[i..i + |r|];
    assert s[..i + 1] == [s[0]] + t[..i];
    assert s[i + 1 + |r|..] == t[i + |r|..];
  }

  /** A whitespace character at the back leaves the core where it is. */
  lemma CoreAtBack(s: string, r: string, i: int)
    requires s != [] && IsWhitespace(s[|s| - 1]) && CoreAt(s[..|s| - 1], r, i)
    ensures CoreAt(s, r, i)
  {
    var t := s[..|s| - 1];
    assert s[i..i + |r|] == t[i..i + |r|];
    assert s[..i] == t[..i];
    assert s[i + |r|..] == t[i + |r|..] + [s[|s| - 1]];
  }

  /** Trimming adds no character. */
  lemma TrimKeepsOut(s: string, c: char)
    requires c !in s
    ensures c !in Trim(s)
  {
    if s != [] && IsWhitespace(s[0]) {
      TrimKeepsOut(s[1..], c);
    } else if s != [] && IsWhitespace(s[|s| - 1]) {
      TrimKeepsOut(s[..|s| - 1], c);
    }
  }

  /** How many times `c` occurs in `s`. */
  function CountChar(s: string, c: char): nat {
    if s == [] then 0
    else CountChar(s[..|s| - 1], c) + (if s[|s| - 1] == c then 1 else 0)
  }

  lemma {:induction false} CountCharAbsent(s: string, c: char)
    requires c !in s
    ensures CountChar(s, c) == 0
  {
    if s != [] {
      assert forall k :: 0 <= k < |s| - 1 ==> s[..|s| - 1][k] == s[k];
      CountCharAbsent(s[..|s| - 1], c);
    }
  }

  /** `parts.join(sep)` for a non-empty list of parts. */
  function Join(parts: seq<string>, sep: char): string
    requires |parts| >= 1
  {
    if |parts| == 1 then parts[0]
    else Join(parts[..|parts| - 1], sep) + [sep] + parts[|parts| - 1]
  }

  /** `s.split(sep)`: the pieces between occurrences of `sep`. There is
      always at least one piece, none contains `sep`, there is one piece
      more than there are separators, and joining them gives `s` back. */
  function Split(s: string, sep: char): (r: seq<string>)
    ensures |r| == CountChar(s, sep) + 1
    ensures forall k :: 0 <= k < |r| ==> sep !in r[k]
    ensures Join(r, sep) == s
  {
    if s == [] then [[]]
    else
      var p := Split(s[..|s| - 1], sep);
      var c := s[|s| - 1];
      assert s == s[..|s| - 1] + [c];
      if c == sep then
        var r := p + [[]];
        assert r[..|r| - 1] == p;
        r
      else
        var r := p[..|p| - 1] + [p[|p| - 1] + [c]];
        assert |p| > 1 ==> r[..|r| - 1] == p[..|p| - 1];
        r
  }

  /** Splitting inverts joining for pieces free of the separator. */
  lemma {:induction false} SplitJoin(parts: seq<string>, sep: char)
    requires |parts| >= 1
    requires forall k :: 0 <= k < |parts| ==> sep !in parts[k]
    ensures Split(Join(parts, sep), sep) == parts
  {
    if |parts| == 1 {
      SplitPiece(parts[0], sep);
    } else {
      var front, last := parts[..|parts| - 1], parts[|parts| - 1];
      assert parts == front + [last];
      JoinSnoc(front, last, sep);
      SplitJoin(front, sep);
      SplitAfterSeparator(Join(front, sep), last, sep);
    }
  }

  lemma JoinSnoc(front: seq<string>, last: string, sep: char)
    requires |front| >= 1
    ensures Join(front + [last], sep) == Join(front, sep) + [sep] + last
  {
    assert (front + [last])[..|front|] == front;
  }

  /** A separator-free text splits into itself alone. */
  lemma {:induction false} SplitPiece(x: string, sep: char)
    requires sep !in x
    ensures Split(x, sep) == [x]
  {
    if x != [] {
      var x' := x[..|x| - 1];
      assert x == x' + [x[|x| - 1]];
      SplitPiece(x', sep);
    }
  }

  /** Text after the last separator becomes the last piece. */
  lemma {:induction false} SplitAfterSeparator(s: string, x: string, sep: char)
    requires sep !in x
    ensures Split(s + [sep] + x, sep) == Split(s, sep) + [x]
    decreases |x|
  {
    if x == [] {
      assert s + [sep] + x == s + [sep];
      assert (s + [sep])[..|s|] == s;
    } else {
      var x', c := x[..|x| - 1], x[|x| - 1];
      assert x == x' + [c];
      SplitAfterSeparator(s, x', sep);
      var p := Split(s + [sep] + x', sep);
      assert (s + [sep] + x)[..|s + [sep] + x| - 1] == s + [sep] + x';
      assert p[..|p| - 1] == Split(s, sep);
    }
  }
}
