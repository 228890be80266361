/** Substrings and whitespace. */
module Text {
  /** What str.isspace and the pattern \s take for a space. */
  predicate Space(c: char) {
    var u := c as int;
    || 0x09 <= u <= 0x0D || 0x1C <= u <= 0x20 || u == 0x85 || u == 0xA0 || u == 0x1680
    || 0x2000 <= u <= 0x200A || u == 0x2028 || u == 0x2029 || u == 0x202F || u == 0x205F || u == 0x3000
  }

  lemma AsciiSpaces(c: char)
    requires c as int < 0x80
    ensures Space(c) <==> c == ' ' || c == '\t' || c == '\n' || c == '\r' || c as int in {0x0B, 0x0C, 0x1C, 0x1D, 0x1E, 0x1F}
  {
  }

  predicate At(s: string, i: int, f: string) {
    0 <= i && i + |f| <= |s| && s[i..i + |f|] == f
  }

  /** f in s, for strings. */
  predicate Occurs(f: string, s: string) {
    exists i | 0 <= i <= |s| :: At(s, i, f)
  }

  lemma OccursTail(f: string, s: string)
    requires s != [] && Occurs(f, s[1..])
    ensures Occurs(f, s)
  {
    var i :| 0 <= i <= |s[1..]| && At(s[1..], i, f);
    assert s[i + 1..i + 1 + |f|] == s[1..][i..i + |f|];
    assert At(s, i + 1, f);
  }

  /** An occurrence in a longer text whose characters all fall in the middle. */
  lemma OccursInside(f: string, a: string, b: string, c: string)
    requires Occurs(f, b)
    ensures Occurs(f, a + b + c)
  {
    var i :| 0 <= i <= |b| && At(b, i, f);
    var s := a + b + c;
    assert s[|a| + i..|a| + i + |f|] == b[i..i + |f|];
    assert At(s, |a| + i, f);
  }

  /** Position of the first c, or |s|. */
  function IndexOf(s: string, c: char): (i: nat)
    ensures i <= |s| && c !in s[..i] && (i < |s| ==> s[i] == c)
  {
    if s == [] || s[0] == c then 0
    else
      var rest := IndexOf(s[1..], c);
      assert s[..rest + 1] == [s[0]] + s[1..][..rest];
      rest + 1
  }

  /** The first c of a text that has none before the second part opens with one. */
  lemma {:induction false} FirstAt(a: string, b: string, c: char)
    requires c !in a && b != [] && b[0] == c
    ensures IndexOf(a + b, c) == |a|
  {
    if a == [] {
      assert a + b == b;
    } else {
      assert (a + b)[1..] == a[1..] + b;
      FirstAt(a[1..], b, c);
    }
  }

  /** str.split(c). */
  function SplitOn(s: string, c: char): (parts: seq<string>)
    ensures parts != [] && forall p | p in parts :: c !in p
    decreases |s|
  {
    var i := IndexOf(s, c);
    if i == |s| then (assert s[..i] == s; [s]) else [s[..i]] + SplitOn(s[i + 1..], c)
  }

  lemma SplitFirst(head: string, c: char, tail: string)
    requires c !in head
    ensures SplitOn(head + [c] + tail, c) == [head] + SplitOn(tail, c)
  {
    var s := head + [c] + tail;
    assert s == head + ([c] + tail);
    FirstAt(head, [c] + tail, c);
    assert s[..|head|] == head && s[|head| + 1..] == tail;
  }

  lemma {:induction false} SplitJoined(a: string, b: string, c: char)
    ensures SplitOn(a + [c] + b, c) == SplitOn(a, c) + SplitOn(b, c)
    decreases |a|
  {
    var i := IndexOf(a, c);
    if i == |a| {
      assert a[..i] == a;
      SplitFirst(a, c, b);
    } else {
      var head, tail := a[..i], a[i + 1..];
      assert a == head + [c] + tail;
      assert a + [c] + b == head + [c] + (tail + [c] + b);
      SplitFirst(head, c, tail + [c] + b);
      SplitJoined(tail, b, c);
    }
  }
}
