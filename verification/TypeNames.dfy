/**
 * Type names. The Postgres normalisation trims, lowers, drops parenthesised
 * groups and collapses white space; the names it can leave are described on
 * their own, as normal names, and shown to be its fixed points. A group put
 * after a name is ignored unless the name leaves a parenthesis open.
 *
 * The ClickHouse loop takes wrappers off a type until none is left; any
 * nesting of them has the base name of what they wrap.
 */
module TypeNames {
  import opened Text

  // ---- whitespace and case -----------------------------------------------

  function TrimStart(s: string): string {
    if s != [] && Space(s[0]) then TrimStart(s[1..]) else s
  }

  function TrimEnd(s: string): (t: string)
    ensures t <= s
    decreases |s|
  {
    if s != [] && Space(s[|s| - 1]) then TrimEnd(s[..|s| - 1]) else s
  }

  /** str.strip(). */
  function Trim(s: string): string { TrimEnd(TrimStart(s)) }

  function LowerChar(c: char): (l: char)
    ensures l as int == c as int + if 0x41 <= c as int <= 0x5A then 0x20 else 0
  {
    if 'A' <= c <= 'Z' then c - 'A' + 'a' else c
  }

  function Lower(s: string): (t: string)
    ensures |t| == |s| && forall i | 0 <= i < |s| :: t[i] == LowerChar(s[i])
  {
    seq(|s|, i requires 0 <= i < |s| => LowerChar(s[i]))
  }

  /** Every run of spaces becomes one space. */
  function Collapse(s: string): string
    decreases |s|
  {
    if s == [] then []
    else if !Space(s[0]) then [s[0]] + Collapse(s[1..])
    else (assert |TrimStart(s[1..])| <= |s[1..]| by { TrimStartSuffix(s[1..]); } " " + Collapse(TrimStart(s[1..])))
  }

  lemma {:induction false} TrimStartSuffix(s: string)
    ensures |TrimStart(s)| <= |s| && TrimStart(s) == s[|s| - |TrimStart(s)|..]
    ensures TrimStart(s) == [] || !Space(TrimStart(s)[0])
    ensures forall i | 0 <= i < |s| - |TrimStart(s)| :: Space(s[i])
  {
    if s != [] && Space(s[0]) {
      TrimStartSuffix(s[1..]);
      var k := |TrimStart(s[1..])|;
      assert s[|s| - k..] == s[1..][|s| - 1 - k..];
      forall i | 0 <= i < |s| - k ensures Space(s[i]) {
        assert i > 0 ==> s[i] == s[1..][i - 1];
      }
    }
  }

  // ---- parenthesised parts -----------------------------------------------

  /** Length of a match of \s*\([^)]*\) at the start of s; zero for none. */
  function ParenMatch(s: string): (n: nat)
    ensures n <= |s|
  {
    TrimStartSuffix(s);
    var t := TrimStart(s);
    if t == [] || t[0] != '(' then 0
    else
      var close := IndexOf(t, ')');
      if close == |t| then 0 else |s| - |t| + close + 1
  }

  /** re.sub of that pattern by nothing. */
  function StripParens(s: string): string
    decreases |s|
  {
    if s == [] then []
    else if ParenMatch(s) > 0 then StripParens(s[ParenMatch(s)..])
    else [s[0]] + StripParens(s[1..])
  }

  /** The normal form a Postgres type name is looked up by. */
  function Normalize(s: string): string { Trim(Collapse(StripParens(Lower(Trim(s))))) }

  /** Some opening parenthesis has no closing one after it. */
  predicate Unclosed(s: string) { exists i | 0 <= i < |s| :: OpenAt(s, i) }

  predicate OpenAt(s: string, i: nat) {
    i < |s| && s[i] == '(' && forall k | i <= k < |s| :: s[k] != ')'
  }

  // ---- the passes leave normal forms -------------------------------------

  predicate Trimmed(s: string) { s != [] ==> !Space(s[0]) && !Space(s[|s| - 1]) }

  predicate AllLower(s: string) { forall c | c in s :: LowerChar(c) == c }

  /** No opening parenthesis is followed by a closing one. */
  predicate NoGroup(s: string) {
    s == [] || ((s[0] == '(' ==> ')' !in s) && NoGroup(s[1..]))
  }

  /** Spaces are single and plain. */
  predicate Single(s: string) {
    s == [] || ((Space(s[0]) ==> s[0] == ' ' && (|s| > 1 ==> !Space(s[1]))) && Single(s[1..]))
  }

  predicate Normal(s: string) { Trimmed(s) && AllLower(s) && NoGroup(s) && Single(s) }

  lemma {:induction false} TrimEndPrefix(s: string)
    ensures TrimEnd(s) <= s && (TrimEnd(s) == [] || !Space(TrimEnd(s)[|TrimEnd(s)| - 1]))
    ensures forall i | |TrimEnd(s)| <= i < |s| :: Space(s[i])
    decreases |s|
  {
    if s != [] && Space(s[|s| - 1]) {
      TrimEndPrefix(s[..|s| - 1]);
    }
  }

  lemma {:induction false} TrimEndCons(c: char, s: string)
    ensures TrimEnd([c] + s) == if TrimEnd(s) == [] && Space(c) then [] else [c] + TrimEnd(s)
    decreases |s|
  {
    var t := [c] + s;
    if s != [] && Space(s[|s| - 1]) {
      assert t[..|t| - 1] == [c] + s[..|s| - 1];
      TrimEndCons(c, s[..|s| - 1]);
    } else if s == [] {
      assert t == [c] && t[..0] == [];
    }
  }

  /** Trimming cuts s down to i..j, and only spaces fall outside. */
  predicate IsTrimOf(s: string, i: int, j: int) {
    0 <= i <= j <= |s| && Trim(s) == s[i..j] && forall k | 0 <= k < |s| :: k < i || j <= k ==> Space(s[k])
  }

  lemma TrimIsTrimmed(s: string)
    ensures Trimmed(Trim(s))
  {
    var t := TrimStart(s);
    TrimStartSuffix(s);
    TrimEndPrefix(t);
    assert TrimEnd(t) != [] ==> TrimEnd(t)[0] == t[0];
  }

  lemma TrimTrims(s: string)
    ensures exists i, j | 0 <= i <= j <= |s| :: IsTrimOf(s, i, j)
  {
    var t := TrimStart(s);
    var u := TrimEnd(t);
    SpacesOutside(s, t, u);
    SliceOfSuffix(s, |s| - |t|, |u|);
    assert IsTrimOf(s, |s| - |t|, |s| - |t| + |u|);
  }

  lemma SpacesOutside(s: string, t: string, u: string)
    requires t == TrimStart(s) && u == TrimEnd(t)
    ensures |u| <= |t| <= |s| && t == s[|s| - |t|..] && u == t[..|u|]
    ensures forall k | 0 <= k < |s| :: k < |s| - |t| || |s| - |t| + |u| <= k ==> Space(s[k])
  {
    TrimStartSuffix(s);
    TrimEndPrefix(t);
    forall k | |s| - |t| + |u| <= k < |s| ensures Space(s[k]) {
      assert s[k] == t[k - (|s| - |t|)];
    }
  }

  lemma SliceOfSuffix(s: string, i: nat, n: nat)
    requires i + n <= |s|
    ensures s[i..][..n] == s[i..i + n]
  {
  }

  lemma TrimFixed(s: string)
    requires Trimmed(s)
    ensures Trim(s) == s
  {
  }

  lemma {:induction false} NoGroupSlice(s: string, i: nat, j: nat)
    requires NoGroup(s) && i <= j <= |s|
    ensures NoGroup(s[i..j])
    decreases |s|
  {
    if i > 0 {
      assert s[i..j] == s[1..][i - 1..j - 1];
      NoGroupSlice(s[1..], i - 1, j - 1);
    } else if j > 0 {
      assert s[..j][1..] == s[1..][..j - 1];
      NoGroupSlice(s[1..], 0, j - 1);
    }
  }

  lemma {:induction false} SingleSlice(s: string, i: nat, j: nat)
    requires Single(s) && i <= j <= |s|
    ensures Single(s[i..j])
    decreases |s|
  {
    if i > 0 {
      assert s[i..j] == s[1..][i - 1..j - 1];
      SingleSlice(s[1..], i - 1, j - 1);
    } else if j > 0 {
      assert s[..j][1..] == s[1..][..j - 1];
      SingleSlice(s[1..], 0, j - 1);
    }
  }

  lemma {:induction false} CollapseMembers(s: string, c: char)
    ensures !Space(c) ==> (c in Collapse(s) <==> c in s)
    ensures Space(c) && c in Collapse(s) ==> c == ' '
    decreases |s|
  {
    if s != [] {
      if !Space(s[0]) {
        CollapseMembers(s[1..], c);
      } else {
        TrimStartSuffix(s[1..]);
        CollapseMembers(TrimStart(s[1..]), c);
        var n := |s[1..]| - |TrimStart(s[1..])|;
        assert s == s[..n + 1] + TrimStart(s[1..]);
      }
    }
  }

  lemma {:induction false} CollapseIsSingle(s: string)
    ensures Single(Collapse(s))
    ensures s != [] && !Space(s[0]) ==> Collapse(s) != [] && Collapse(s)[0] == s[0]
    decreases |s|
  {
    if s != [] {
      if !Space(s[0]) {
        CollapseIsSingle(s[1..]);
      } else {
        var rest := TrimStart(s[1..]);
        TrimStartSuffix(s[1..]);
        CollapseIsSingle(rest);
        assert (" " + Collapse(rest))[1..] == Collapse(rest);
      }
    }
  }

  lemma {:induction false} CollapseNoGroup(s: string)
    requires NoGroup(s)
    ensures NoGroup(Collapse(s))
    decreases |s|
  {
    if s != [] {
      if !Space(s[0]) {
        CollapseNoGroup(s[1..]);
        CollapseMembers(s, ')');
      } else {
        var rest := TrimStart(s[1..]);
        TrimStartSuffix(s[1..]);
        NoGroupSlice(s[1..], |s[1..]| - |rest|, |s[1..]|);
        assert s[1..][|s[1..]| - |rest|..|s[1..]|] == rest;
        CollapseNoGroup(rest);
        assert (" " + Collapse(rest))[1..] == Collapse(rest);
      }
    }
  }

  lemma {:induction false} SingleIsFixed(s: string)
    requires Single(s)
    ensures Collapse(s) == s
    decreases |s|
  {
    if s != [] {
      SingleIsFixed(s[1..]);
      if Space(s[0]) {
        assert TrimStart(s[1..]) == s[1..];
      }
    }
  }

  lemma {:induction false} StripMembers(s: string, c: char)
    ensures c in StripParens(s) ==> c in s
    decreases |s|
  {
    if s != [] {
      StripMembers(s[if ParenMatch(s) > 0 then ParenMatch(s) else 1..], c);
    }
  }

  /** A match ends with its closing parenthesis; a parenthesis that opens no match has no closing one after it. */
  lemma MatchFacts(s: string)
    ensures ParenMatch(s) > 0 ==> s[ParenMatch(s) - 1] == ')'
    ensures ParenMatch(s) == 0 && s != [] && s[0] == '(' ==> ')' !in s
  {
    TrimStartSuffix(s);
    var t := TrimStart(s);
    if t != [] && t[0] == '(' {
      var close := IndexOf(t, ')');
      if close < |t| {
        assert s[|s| - |t| + close] == t[close];
      } else {
        assert t[..close] == t;
      }
    }
  }

  lemma {:induction false} StripLeavesNoGroup(s: string)
    ensures NoGroup(StripParens(s))
    decreases |s|
  {
    if s != [] {
      MatchFacts(s);
      if ParenMatch(s) > 0 {
        StripLeavesNoGroup(s[ParenMatch(s)..]);
      } else {
        StripLeavesNoGroup(s[1..]);
        StripMembers(s[1..], ')');
        assert StripParens(s)[1..] == StripParens(s[1..]);
      }
    }
  }

  lemma {:induction false} NoGroupIsFixed(s: string)
    requires NoGroup(s)
    ensures StripParens(s) == s
    decreases |s|
  {
    if s != [] {
      NoMatch(s);
      NoGroupIsFixed(s[1..]);
    }
  }

  lemma NoMatch(s: string)
    requires NoGroup(s)
    ensures ParenMatch(s) == 0
  {
    TrimStartSuffix(s);
    var t := TrimStart(s);
    NoGroupSlice(s, |s| - |t|, |s|);
    assert s[|s| - |t|..|s|] == t;
    IndexOfMember(t, ')');
  }

  lemma IndexOfMember(s: string, c: char)
    ensures IndexOf(s, c) < |s| <==> c in s
  {
    var i := IndexOf(s, c);
    assert i < |s| ==> s[i] in s;
    assert s == s[..i] + s[i..];
  }

  lemma LowerLowers(s: string)
    ensures AllLower(Lower(s)) && (AllLower(s) ==> Lower(s) == s)
  {
    forall c | c in Lower(s) ensures LowerChar(c) == c {
      var i :| 0 <= i < |s| && Lower(s)[i] == c;
    }
    if AllLower(s) {
      forall i | 0 <= i < |s| ensures Lower(s)[i] == s[i] {
        assert s[i] in s;
      }
    }
  }

  lemma NormalizeIsNormal(s: string)
    ensures Normal(Normalize(s))
  {
    var low := Lower(Trim(s));
    var stripped := StripParens(low);
    var single := Collapse(stripped);
    LowerLowers(Trim(s));
    StripLeavesNoGroup(low);
    CollapseIsSingle(stripped);
    CollapseNoGroup(stripped);
    TrimIsTrimmed(single);
    TrimTrims(single);
    var i, j :| 0 <= i <= j <= |single| && IsTrimOf(single, i, j);
    NoGroupSlice(single, i, j);
    SingleSlice(single, i, j);
    forall c | c in Trim(single) ensures LowerChar(c) == c {
      assert c in single;
      CollapseMembers(stripped, c);
      StripMembers(low, c);
    }
  }

  /** The fixed points of normalisation are exactly the normal names, so normalising twice is normalising once. */
  lemma FixedExactlyWhenNormal(s: string)
    ensures Normalize(s) == s <==> Normal(s)
    ensures Normalize(Normalize(s)) == Normalize(s)
  {
    NormalizeIsNormal(s);
    NormalIsFixed(Normalize(s));
    if Normal(s) {
      NormalIsFixed(s);
    }
  }

  lemma NormalIsFixed(s: string)
    requires Normal(s)
    ensures Normalize(s) == s
  {
    TrimFixed(s);
    LowerLowers(s);
    NoGroupIsFixed(s);
    SingleIsFixed(s);
  }

  // ---- a (...) suffix ----------------------------------------------------

  /** A parenthesised part: nothing in it closes it early. */
  predicate Group(g: string) {
    |g| >= 2 && g[0] == '(' && g[|g| - 1] == ')' && ')' !in g[..|g| - 1]
  }

  lemma GroupInput()
    ensures Group("()") && Group("(10, 2)")
  {
  }

  predicate Blank(s: string) { forall c | c in s :: Space(c) }

  lemma UnclosedFrom(s: string, n: nat)
    requires n <= |s| && Unclosed(s[n..])
    ensures Unclosed(s)
  {
    var i :| 0 <= i < |s[n..]| && OpenAt(s[n..], i);
    forall k | n + i <= k < |s| ensures s[k] != ')' {
      assert s[k] == s[n..][k - n];
    }
    assert OpenAt(s, n + i);
  }

  lemma {:induction false} TrimStartJoined(s: string, r: string)
    ensures TrimStart(s) != [] ==> TrimStart(s + r) == TrimStart(s) + r
    ensures TrimStart(s) == [] ==> TrimStart(s + r) == TrimStart(r)
  {
    if s == [] {
      assert s + r == r;
    } else if Space(s[0]) {
      assert (s + r)[1..] == s[1..] + r;
      TrimStartJoined(s[1..], r);
    }
  }

  lemma {:induction false} BlankIsTrimmed(s: string)
    ensures Blank(s) <==> TrimStart(s) == []
  {
    if s != [] {
      assert s[0] in s;
      BlankIsTrimmed(s[1..]);
      assert s == [s[0]] + s[1..];
    }
  }

  lemma {:induction false} IndexInFirst(s: string, r: string, c: char)
    ensures IndexOf(s, c) < |s| ==> IndexOf(s + r, c) == IndexOf(s, c)
  {
    if s != [] {
      assert (s + r)[1..] == s[1..] + r;
      IndexInFirst(s[1..], r, c);
    }
  }

  lemma MatchExtends(s: string, r: string)
    ensures ParenMatch(s) > 0 ==> ParenMatch(s + r) == ParenMatch(s)
    ensures TrimStart(s) != [] && TrimStart(s)[0] != '(' ==> ParenMatch(s + r) == 0
  {
    TrimStartJoined(s, r);
    IndexInFirst(TrimStart(s), r, ')');
  }

  lemma GroupMatches(w: string, g: string)
    requires Blank(w) && Group(g)
    ensures ParenMatch(w + g) == |w + g|
  {
    BlankIsTrimmed(w);
    TrimStartJoined(w, g);
    IndexOfMember(g[..|g| - 1], ')');
    FirstAt(g[..|g| - 1], [')'], ')');
    assert g == g[..|g| - 1] + [')'];
  }

  /** A parenthesis that opens the text, bar spaces, without opening a match is unclosed. */
  lemma UnmatchedIsOpen(s: string)
    requires ParenMatch(s) == 0 && TrimStart(s) != [] && TrimStart(s)[0] == '('
    ensures Unclosed(s)
  {
    TrimStartSuffix(s);
    var t := TrimStart(s);
    var at := |s| - |t|;
    assert t[..IndexOf(t, ')')] == t;
    forall k | at <= k < |s| ensures s[k] != ')' {
      assert s[k] == t[k - at] && t[k - at] in t;
    }
    assert OpenAt(s, at);
  }

  lemma {:induction false} BlankStrips(s: string)
    requires Blank(s)
    ensures StripParens(s) == s && TrimEnd(s) == []
    decreases |s|
  {
    BlankIsTrimmed(s);
    if s != [] {
      assert Blank(s[1..]) && s[0] in s;
      BlankStrips(s[1..]);
      TrimEndCons(s[0], s[1..]);
      assert s == [s[0]] + s[1..];
    }
  }

  /** Where every parenthesis is closed, stripping takes a further group, and the spaces before it, with it. */
  lemma {:induction false} StripTakesGroup(z: string, w: string, g: string)
    requires !Unclosed(z) && Blank(w) && Group(g)
    ensures TrimEnd(StripParens(z + (w + g))) == TrimEnd(StripParens(z))
    decreases |z|
  {
    var s := z + (w + g);
    if Blank(z) {
      assert s == (z + w) + g;
      GroupMatches(z + w, g);
      BlankStrips(z);
    } else {
      BlankIsTrimmed(z);
      MatchExtends(z, w + g);
      if ParenMatch(z) > 0 {
        var n := ParenMatch(z);
        assert s[n..] == z[n..] + (w + g);
        if Unclosed(z[n..]) {
          UnclosedFrom(z, n);
        }
        StripTakesGroup(z[n..], w, g);
      } else {
        if TrimStart(z)[0] == '(' {
          UnmatchedIsOpen(z);
        }
        assert s[1..] == z[1..] + (w + g);
        if Unclosed(z[1..]) {
          UnclosedFrom(z, 1);
        }
        StripTakesGroup(z[1..], w, g);
        TrimEndCons(z[0], StripParens(z[1..] + (w + g)));
        TrimEndCons(z[0], StripParens(z[1..]));
      }
    }
  }

  lemma {:induction false} TrimCommutes(s: string)
    ensures Trim(s) == TrimStart(TrimEnd(s))
  {
    if s != [] {
      TrimEndCons(s[0], s[1..]);
      assert s == [s[0]] + s[1..];
      if Space(s[0]) {
        TrimCommutes(s[1..]);
      }
    }
  }

  lemma {:induction false} CollapseBlankEnd(s: string, c: char)
    requires Space(c)
    ensures TrimEnd(Collapse(s + [c])) == TrimEnd(Collapse(s))
    decreases |s|
  {
    if s == [] {
      assert TrimStart([c][1..]) == [];
      TrimEndCons(' ', []);
      assert Collapse([c]) == " " + [];
    } else if !Space(s[0]) {
      assert (s + [c])[1..] == s[1..] + [c];
      CollapseBlankEnd(s[1..], c);
      TrimEndCons(s[0], Collapse(s[1..] + [c]));
      TrimEndCons(s[0], Collapse(s[1..]));
    } else {
      assert (s + [c])[1..] == s[1..] + [c];
      TrimStartJoined(s[1..], [c]);
      TrimStartSuffix(s[1..]);
      var rest := TrimStart(s[1..]);
      if rest != [] {
        CollapseBlankEnd(rest, c);
        TrimEndCons(' ', Collapse(rest + [c]));
        TrimEndCons(' ', Collapse(rest));
      }
    }
  }

  lemma {:induction false} CollapseOfTrimmed(s: string)
    ensures TrimEnd(Collapse(s)) == TrimEnd(Collapse(TrimEnd(s)))
    decreases |s|
  {
    if s != [] && Space(s[|s| - 1]) {
      CollapseOfTrimmed(s[..|s| - 1]);
      CollapseBlankEnd(s[..|s| - 1], s[|s| - 1]);
      assert s == s[..|s| - 1] + [s[|s| - 1]];
    }
  }

  /** Trailing spaces do not reach the normal form. */
  lemma SqueezeEnds(a: string, b: string)
    requires TrimEnd(a) == TrimEnd(b)
    ensures Trim(Collapse(a)) == Trim(Collapse(b))
  {
    CollapseOfTrimmed(a);
    CollapseOfTrimmed(b);
    TrimCommutes(Collapse(a));
    TrimCommutes(Collapse(b));
  }

  lemma LowerJoined(a: string, b: string)
    ensures Lower(a + b) == Lower(a) + Lower(b)
  {
  }

  lemma LowerMembers(s: string, c: char)
    requires !('A' <= c <= 'z')
    ensures c in Lower(s) <==> c in s
  {
    if c in s {
      var j :| 0 <= j < |s| && s[j] == c;
      assert Lower(s)[j] == c;
    }
    if c in Lower(s) {
      var j :| 0 <= j < |s| && Lower(s)[j] == c;
      assert s[j] == c;
    }
  }

  lemma LowerBlank(s: string)
    requires Blank(s)
    ensures Lower(s) == s
  {
    forall i | 0 <= i < |s| ensures Lower(s)[i] == s[i] {
      assert s[i] in s && Space(s[i]);
    }
  }

  lemma LowerGroup(g: string)
    requires Group(g)
    ensures Group(Lower(g))
  {
    LowerMembers(g[..|g| - 1], ')');
    assert Lower(g)[..|g| - 1] == Lower(g[..|g| - 1]);
  }

  /** Lower-casing moves no parenthesis. */
  lemma LowerUnclosed(s: string)
    ensures Unclosed(Lower(s)) <==> Unclosed(s)
  {
    forall i | 0 <= i < |s| ensures OpenAt(s, i) <==> OpenAt(Lower(s), i) {
      assert forall k | 0 <= k < |s| :: s[k] == ')' <==> Lower(s)[k] == ')';
    }
  }

  lemma TrimEndStops(s: string)
    requires s != [] && !Space(s[|s| - 1])
    ensures TrimEnd(s) == s
  {
  }

  lemma TrimEndBlank(t: string)
    ensures TrimEnd(t) + t[|TrimEnd(t)|..] == t && Blank(t[|TrimEnd(t)|..])
  {
    TrimEndPrefix(t);
    var w := t[|TrimEnd(t)|..];
    forall c | c in w ensures Space(c) {
      var i :| 0 <= i < |w| && w[i] == c;
      assert w[i] == t[|TrimEnd(t)| + i];
    }
  }

  /** Trimming a name with a group behind it leaves the trimmed name, its trailing spaces, and the group. */
  lemma TrimWithGroup(name: string, g: string)
    requires Group(g)
    ensures exists w :: Blank(w) && Trim(name + g) == Trim(name) + (w + g)
  {
    var t := TrimStart(name);
    TrimStartJoined(name, g);
    assert TrimStart(g) == g;
    assert t == [] ==> t + g == g;
    assert (t + g)[|t + g| - 1] == g[|g| - 1];
    TrimEndStops(t + g);
    TrimEndBlank(t);
    var w := t[|TrimEnd(t)|..];
    Reassociate(TrimEnd(t), w, g);
  }

  lemma Reassociate(a: string, b: string, c: string)
    ensures a + (b + c) == (a + b) + c
  {
  }

  /** Cutting off ends that hold no parenthesis leaves the unclosed ones unclosed. */
  lemma UnclosedOfSlice(s: string, i: nat, j: nat)
    requires i <= j <= |s|
    requires forall k | 0 <= k < |s| :: k < i || j <= k ==> s[k] != '(' && s[k] != ')'
    ensures Unclosed(s[i..j]) <==> Unclosed(s)
  {
    if Unclosed(s) {
      var k :| 0 <= k < |s| && OpenAt(s, k);
      assert OpenAt(s[i..j], k - i);
    }
    if Unclosed(s[i..j]) {
      var k :| 0 <= k < |s[i..j]| && OpenAt(s[i..j], k);
      OpenInSlice(s, i, j, k);
    }
  }

  lemma OpenInSlice(s: string, i: nat, j: nat, k: nat)
    requires i <= j <= |s| && OpenAt(s[i..j], k)
    requires forall m | j <= m < |s| :: s[m] != ')'
    ensures OpenAt(s, i + k)
  {
    forall m | i + k <= m < |s| ensures s[m] != ')' {
      if m < j {
        assert s[m] == s[i..j][m - i];
      }
    }
  }

  lemma UnclosedOfTrim(name: string)
    ensures Unclosed(Trim(name)) <==> Unclosed(name)
  {
    TrimTrims(name);
    var i, j :| 0 <= i <= j <= |name| && IsTrimOf(name, i, j);
    UnclosedOfSlice(name, i, j);
  }

  /** A parenthesis survives stripping exactly when it is unclosed. */
  lemma {:induction false} SurvivesExactly(s: string)
    ensures '(' in StripParens(s) <==> Unclosed(s)
    decreases |s|
  {
    if s != [] {
      MatchFacts(s);
      var n := if ParenMatch(s) > 0 then ParenMatch(s) else 1;
      SurvivesExactly(s[n..]);
      if Unclosed(s[n..]) {
        UnclosedFrom(s, n);
      }
      if ParenMatch(s) == 0 && s[0] == '(' {
        assert forall k | 0 <= k < |s| :: s[k] in s;
        assert OpenAt(s, 0);
      }
      if Unclosed(s) {
        var i :| 0 <= i < |s| && OpenAt(s, i);
        if i >= n {
          assert OpenAt(s[n..], i - n);
        }
      }
    }
  }

  lemma OpenInNormal(name: string)
    ensures '(' in Normalize(name) <==> Unclosed(name)
  {
    var low := Lower(Trim(name));
    UnclosedOfTrim(name);
    LowerUnclosed(Trim(name));
    SurvivesExactly(low);
    CollapseMembers(StripParens(low), '(');
    TrimTrims(Collapse(StripParens(low)));
    var c := Collapse(StripParens(low));
    var i, j :| 0 <= i <= j <= |c| && IsTrimOf(c, i, j);
    if '(' in c {
      var k :| 0 <= k < |c| && c[k] == '(';
      assert c[i..j][k - i] == '(';
    }
  }

  /**
   * A length or precision suffix is ignored exactly when the name before it
   * leaves no parenthesis open.
   */
  lemma SuffixIgnoredExactly(name: string, g: string)
    requires Group(g)
    ensures Normalize(name + g) == Normalize(name) <==> !Unclosed(name)
  {
    if Unclosed(name) {
      OpenInNormal(name);
      OpenInNormal(name + g);
      assert (name + g)[|name + g| - 1] == ')';
    } else {
      TrimWithGroup(name, g);
      var w :| Blank(w) && Trim(name + g) == Trim(name) + (w + g);
      UnclosedOfTrim(name);
      LowerUnclosed(Trim(name));
      LowerBlank(w);
      LowerGroup(g);
      LowerJoined(Trim(name), w + g);
      LowerJoined(w, g);
      StripTakesGroup(Lower(Trim(name)), w, Lower(g));
      SqueezeEnds(StripParens(Lower(Trim(name + g))), StripParens(Lower(Trim(name))));
    }
  }

  predicate IsArray(normal: string) { |normal| >= 2 && normal[|normal| - 2..] == "[]" }

  lemma ArrayOfNothing()
    ensures Normal("[]") && IsArray("[]")
  {
  }

  // ---- what normalising keeps --------------------------------------------

  lemma {:induction false} NoneOpenIsNoGroup(s: string)
    requires '(' !in s
    ensures NoGroup(s)
  {
    if s != [] {
      NoneOpenIsNoGroup(s[1..]);
    }
  }

  lemma NoneOpen(s: string)
    requires '(' !in s
    ensures StripParens(s) == s
  {
    NoneOpenIsNoGroup(s);
    NoGroupIsFixed(s);
  }

  lemma SolidStart(a: string)
    requires a != [] && '(' !in a && !Space(a[|a| - 1])
    ensures TrimStart(a) != [] && TrimStart(a)[0] != '('
  {
    TrimStartSuffix(a);
    BlankIsTrimmed(a);
    assert a[|a| - 1] in a;
    assert TrimStart(a)[0] == a[|a| - |TrimStart(a)|];
  }

  lemma StripStep(c: char, s: string)
    requires ParenMatch([c] + s) == 0
    ensures StripParens([c] + s) == [c] + StripParens(s)
  {
    assert ([c] + s)[1..] == s;
  }

  lemma OneByOne(a: string, s: string)
    requires a != []
    ensures a + s == [a[0]] + (a[1..] + s)
  {
  }

  /** Stripping copies text without an opening parenthesis, up to the spaces that end it. */
  lemma {:induction false} StripPast(a: string, s: string)
    requires '(' !in a && (a == [] || !Space(a[|a| - 1]))
    ensures StripParens(a + s) == a + StripParens(s)
  {
    if a == [] {
      assert a + s == s && a + StripParens(s) == StripParens(s);
    } else {
      SolidStart(a);
      MatchExtends(a, s);
      StripPast(a[1..], s);
      OneByOne(a, s);
      StripStep(a[0], a[1..] + s);
      OneByOne(a, StripParens(s));
    }
  }

  /** A group goes, with the spaces before it, and what follows closes up. */
  lemma StripGroup(a: string, w: string, g: string, b: string)
    requires '(' !in a && (a == [] || !Space(a[|a| - 1])) && Blank(w) && Group(g)
    ensures StripParens(a + ((w + g) + b)) == a + StripParens(b)
  {
    StripPast(a, (w + g) + b);
    GroupMatches(w, g);
    MatchExtends(w + g, b);
    assert ((w + g) + b)[|w + g|..] == b;
  }

  lemma LowerParts(a: string, w: string, g: string, b: string)
    requires Blank(w)
    ensures Lower(a + ((w + g) + b)) == Lower(a) + ((w + Lower(g)) + Lower(b))
  {
    LowerJoined(a, (w + g) + b);
    LowerJoined(w + g, b);
    LowerJoined(w, g);
    LowerBlank(w);
  }

  lemma SolidEnds(a: string, b: string)
    requires a != [] && Trimmed(a) && (b == [] || !Space(b[|b| - 1]))
    ensures Trimmed(a + b)
  {
  }

  lemma LowerTrimmed(s: string)
    requires Trimmed(s)
    ensures Trimmed(Lower(s))
  {
  }

  lemma CollapseOfSolid(s: string)
    requires Trimmed(s)
    ensures Trim(Collapse(s)) == Collapse(s)
  {
    CollapseTrim(s);
    TrimFixed(s);
  }

  /**
   * A name with one group in it: the text on either side is kept, in lower
   * case, with single spaces.
   */
  lemma NormalizeGroup(a: string, w: string, g: string, b: string)
    requires a != [] && Trimmed(a) && '(' !in a && Blank(w) && Group(g)
    requires '(' !in b && (b == [] || !Space(b[|b| - 1]))
    ensures Normalize(a + ((w + g) + b)) == Collapse(Lower(a + b))
  {
    SolidEnds(a, (w + g) + b);
    TrimFixed(a + ((w + g) + b));
    LowerParts(a, w, g, b);
    LowerGroup(g);
    LowerMembers(a, '(');
    LowerMembers(b, '(');
    StripGroup(Lower(a), w, Lower(g), Lower(b));
    NoneOpen(Lower(b));
    LowerJoined(a, b);
    SolidEnds(a, b);
    LowerTrimmed(a + b);
    CollapseOfSolid(Lower(a + b));
  }

  /** A name without a group: lower case, single spaces, none at either end. */
  lemma NormalizePlain(name: string)
    requires '(' !in name
    ensures Normalize(name) == Collapse(Lower(Trim(name)))
  {
    var t := Trim(name);
    TrimTrims(name);
    LowerMembers(t, '(');
    NoneOpen(Lower(t));
    TrimIsTrimmed(name);
    LowerTrimmed(t);
    CollapseOfSolid(Lower(t));
  }

  // ---- ClickHouse wrappers -----------------------------------------------

  const WRAPPERS := ["nullable(", "lowcardinality("]

  /** Length of the wrapper the expression opens with and closes, or zero. */
  function WrapperLength(expr: string): (n: nat)
    ensures n > 0 ==> 9 <= n < |expr|
  {
    var low := Lower(expr);
    if expr == [] || expr[|expr| - 1] != ')' then 0
    else if WRAPPERS[0] <= low then |WRAPPERS[0]|
    else if WRAPPERS[1] <= low then |WRAPPERS[1]|
    else 0
  }

  function Inner(expr: string): (t: string)
    requires WrapperLength(expr) > 0
    ensures |t| < |expr|
  {
    var body := expr[WrapperLength(expr)..|expr| - 1];
    TrimTrims(body);
    Trim(body)
  }

  /** The expression under every wrapper. */
  function Unwrapped(expr: string): string
    decreases |expr|
  {
    if WrapperLength(expr) == 0 then expr else Unwrapped(Inner(expr))
  }

  /** The unwrapping loop; it ends because each round leaves a shorter expression. */
  method UnwrapType(source: string) returns (expr: string)
    ensures expr == Unwrapped(Collapse(Trim(source)))
    ensures WrapperLength(expr) == 0
  {
    expr := Collapse(Trim(source));
    while WrapperLength(expr) > 0
      invariant Unwrapped(expr) == Unwrapped(Collapse(Trim(source)))
      decreases |expr|
    {
      expr := Inner(expr);
    }
  }

  /** The expression as the loop starts on it. */
  function Core(source: string): string { Collapse(Trim(Trim(source))) }

  /** expr.split("(", 1)[0].strip(). */
  function NameIn(expr: string): string { Trim(expr[..IndexOf(expr, '(')]) }

  /** The name before any parameters, under every wrapper. */
  function BaseName(source: string): string { NameIn(Unwrapped(Core(source))) }

  /** A wrapper's name in any case, with its parenthesis. */
  predicate Wrapper(w: string) { Lower(w) in WRAPPERS }

  lemma CollapseJoined(a: string, s: string)
    requires forall c | c in a :: !Space(c)
    ensures Collapse(a + s) == a + Collapse(s)
  {
    if a == [] {
      assert a + s == s;
    } else {
      assert (a + s)[1..] == a[1..] + s;
      CollapseJoined(a[1..], s);
    }
  }

  lemma {:induction false} CollapseBefore(s: string, c: char)
    requires !Space(c)
    ensures Collapse(s + [c]) == Collapse(s) + [c]
    decreases |s|
  {
    if s == [] {
      assert Collapse([c]) == [c] + Collapse([c][1..]);
    } else if !Space(s[0]) {
      assert (s + [c])[1..] == s[1..] + [c];
      CollapseBefore(s[1..], c);
    } else {
      assert (s + [c])[1..] == s[1..] + [c];
      TrimStartJoined(s[1..], [c]);
      TrimStartSuffix(s[1..]);
      if TrimStart(s[1..]) != [] {
        CollapseBefore(TrimStart(s[1..]), c);
      } else {
        assert Collapse([c]) == [c] + Collapse([c][1..]);
      }
    }
  }

  lemma CollapseTrimStart(s: string)
    ensures TrimStart(Collapse(s)) == Collapse(TrimStart(s))
  {
    TrimStartSuffix(s);
    if s != [] {
      if Space(s[0]) {
        TrimStartSuffix(s[1..]);
        var rest := TrimStart(s[1..]);
        CollapseIsSingle(rest);
        assert (" " + Collapse(rest))[1..] == Collapse(rest);
        assert rest == [] ==> Collapse(rest) == [];
      } else {
        CollapseIsSingle(s);
      }
    }
  }

  lemma EndsSolid(s: string, c: char)
    requires !Space(c)
    ensures TrimEnd(Collapse(s + [c])) == Collapse(s + [c])
  {
    CollapseBefore(s, c);
    TrimEndStops(Collapse(s) + [c]);
  }

  lemma SolidEnd(s: string)
    ensures TrimEnd(s) == [] || exists front, c :: !Space(c) && TrimEnd(s) == front + [c]
  {
    TrimEndPrefix(s);
    var u := TrimEnd(s);
    if u != [] {
      assert u == u[..|u| - 1] + [u[|u| - 1]];
    }
  }

  lemma CollapseTrimEnd(s: string)
    ensures TrimEnd(Collapse(s)) == Collapse(TrimEnd(s))
  {
    CollapseOfTrimmed(s);
    SolidEnd(s);
    if TrimEnd(s) != [] {
      var front, c :| !Space(c) && TrimEnd(s) == front + [c];
      EndsSolid(front, c);
    }
  }

  /** Collapsing and trimming commute. */
  lemma CollapseTrim(s: string)
    ensures Trim(Collapse(s)) == Collapse(Trim(s))
  {
    CollapseTrimStart(s);
    CollapseTrimEnd(TrimStart(s));
  }

  lemma WrapperShape(w: string)
    requires Wrapper(w)
    ensures 9 <= |w| && forall c | c in w :: !Space(c)
  {
    forall c | c in w ensures !Space(c) {
      var i :| 0 <= i < |w| && w[i] == c;
      assert Lower(w)[i] == LowerChar(c);
    }
  }

  lemma LowerPrefix(w: string, expr: string)
    requires w <= expr
    ensures Lower(w) <= Lower(expr)
  {
    assert Lower(expr)[..|w|] == Lower(w);
  }

  lemma OneWrapper(low: string)
    ensures WRAPPERS[1] <= low ==> !(WRAPPERS[0] <= low)
  {
    if WRAPPERS[1] <= low {
      assert low[0] == 'l' && WRAPPERS[0][0] == 'n';
    }
  }

  lemma WrapperMatches(w: string, expr: string)
    requires Wrapper(w) && w <= expr && |expr| > |w| && expr[|expr| - 1] == ')'
    ensures WrapperLength(expr) == |w|
  {
    LowerPrefix(w, expr);
    OneWrapper(Lower(expr));
  }

  lemma WrapperFound(w: string, body: string)
    requires Wrapper(w)
    ensures WrapperLength(w + (body + ")")) == |w| && Inner(w + (body + ")")) == Trim(body)
  {
    var expr := w + (body + ")");
    WrapperMatches(w, expr);
    assert expr[|w|..|expr| - 1] == body;
  }

  lemma TrimTwice(s: string)
    ensures Trim(Trim(s)) == Trim(s)
  {
    TrimIsTrimmed(s);
    TrimFixed(Trim(s));
  }

  lemma WrappedIsTrimmed(w: string, t: string)
    requires Wrapper(w)
    ensures Trim(w + (t + ")")) == w + (t + ")")
  {
    var s := w + (t + ")");
    WrapperShape(w);
    assert s[0] == w[0] && w[0] in w && s[|s| - 1] == ')';
    TrimFixed(s);
  }

  lemma CoreOfWrapped(w: string, t: string)
    requires Wrapper(w)
    ensures Core(w + (t + ")")) == w + (Collapse(t) + ")")
  {
    WrapperShape(w);
    WrappedIsTrimmed(w, t);
    CollapseJoined(w, t + ")");
    CollapseBefore(t, ')');
  }

  lemma CoreIsTrimmed(t: string)
    ensures Core(t) == Trim(Collapse(t))
  {
    TrimTwice(t);
    CollapseTrim(t);
  }

  lemma UnwrapOne(w: string, body: string)
    requires Wrapper(w)
    ensures Unwrapped(w + (body + ")")) == Unwrapped(Trim(body))
  {
    WrapperFound(w, body);
    WrapperShape(w);
  }

  /** Wrapping any type text, in any case, does not change its base. */
  lemma WrapperIsTransparent(w: string, t: string)
    requires Wrapper(w)
    ensures BaseName(w + (t + ")")) == BaseName(t)
  {
    CoreOfWrapped(w, t);
    UnwrapOne(w, Collapse(t));
    CoreIsTrimmed(t);
  }

  function Wrapped(wrappers: seq<string>, t: string): string {
    if wrappers == [] then t else wrappers[0] + (Wrapped(wrappers[1..], t) + ")")
  }

  /** Any nesting of the wrappers has the base of what they wrap. */
  lemma {:induction false} NestingIsTransparent(wrappers: seq<string>, t: string)
    requires forall w | w in wrappers :: Wrapper(w)
    ensures BaseName(Wrapped(wrappers, t)) == BaseName(t)
  {
    if wrappers != [] {
      NestingIsTransparent(wrappers[1..], t);
      WrapperIsTransparent(wrappers[0], Wrapped(wrappers[1..], t));
    }
  }

  /** What has no wrapper keeps its name, up to its own parenthesis. */
  lemma BaseNameKept(name: string, args: string)
    requires name != [] && Trimmed(name) && Single(name) && '(' !in name
    ensures BaseName(name) == name
    ensures !Wrapper(name + "(") ==> BaseName(name + ("(" + (args + ")"))) == name
  {
    NoWrapperIn(name);
    TrimFixed(name);
    SingleIsFixed(name);
    IndexOfMember(name, '(');
    assert name[..|name|] == name;
    if !Wrapper(name + "(") {
      var inner := Collapse(args) + ")";
      CoreOfCall(name, args);
      NoWrapperAt(name, inner);
      FirstAt(name, "(" + inner, '(');
      assert (name + ("(" + inner))[..|name|] == name;
    }
  }

  lemma WrapperPrefix(expr: string)
    requires WrapperLength(expr) > 0
    ensures Lower(expr[..WrapperLength(expr)]) == Lower(expr)[..WrapperLength(expr)]
    ensures Wrapper(expr[..WrapperLength(expr)])
  {
    var low := Lower(expr);
    var w := if WRAPPERS[0] <= low then WRAPPERS[0] else WRAPPERS[1];
    assert w <= low && |w| == WrapperLength(expr) && low[..|w|] == w && w in WRAPPERS;
    assert Lower(expr[..|w|]) == low[..|w|];
  }

  /** A wrapper opens an expression only as the whole of what stands before its first parenthesis. */
  lemma WrapperEndsAtOpening(expr: string)
    requires WrapperLength(expr) > 0
    ensures IndexOf(expr, '(') == WrapperLength(expr) - 1 && Wrapper(expr[..WrapperLength(expr)])
  {
    var n := WrapperLength(expr);
    var head := expr[..n];
    WrapperPrefix(expr);
    WrapperOpensLast(Lower(head));
    LowerMembers([head[n - 1]], '(');
    assert Lower([head[n - 1]]) == [Lower(head)[n - 1]];
    LowerMembers(head[..n - 1], '(');
    assert Lower(head[..n - 1]) == Lower(head)[..n - 1];
    FirstAt(head[..n - 1], expr[n - 1..], '(');
    assert expr == head[..n - 1] + expr[n - 1..];
  }

  lemma WrapperOpensLast(w: string)
    requires w in WRAPPERS
    ensures w[|w| - 1] == '(' && '(' !in w[..|w| - 1]
  {
  }

  lemma NoWrapperIn(name: string)
    requires '(' !in name
    ensures WrapperLength(name) == 0
  {
    IndexOfMember(name, '(');
    if WrapperLength(name) > 0 {
      WrapperEndsAtOpening(name);
    }
  }

  /** A wrapper that opens a call is the name called. */
  lemma NoWrapperAt(name: string, inner: string)
    requires '(' !in name && !Wrapper(name + "(")
    ensures WrapperLength(name + ("(" + inner)) == 0
  {
    var expr := name + ("(" + inner);
    FirstAt(name, "(" + inner, '(');
    assert expr[..|name| + 1] == name + "(";
    if WrapperLength(expr) > 0 {
      WrapperEndsAtOpening(expr);
    }
  }

  lemma CoreOfCall(name: string, args: string)
    requires name != [] && Trimmed(name) && Single(name)
    ensures Core(name + ("(" + (args + ")"))) == name + ("(" + (Collapse(args) + ")"))
  {
    var s := name + ("(" + (args + ")"));
    TrimFixed(s);
    CollapseSingle(name, "(" + (args + ")"));
    CollapseJoined("(", args + ")");
    CollapseBefore(args, ')');
  }

  lemma {:induction false} CollapseSingle(a: string, s: string)
    requires Single(a) && (a == [] || !Space(a[|a| - 1]))
    ensures Collapse(a + s) == a + Collapse(s)
  {
    if a == [] {
      assert a + s == s;
    } else {
      assert (a + s)[1..] == a[1..] + s;
      CollapseSingle(a[1..], s);
      assert Space(a[0]) ==> TrimStart(a[1..] + s) == a[1..] + s;
    }
  }

  /** The wrappers as ClickHouse writes them, and in one case throughout. */
  lemma TheWrappers(w: string)
    requires w in ["Nullable(", "nullable(", "NULLABLE(", "LowCardinality(", "lowcardinality(", "LOWCARDINALITY("]
    ensures Wrapper(w)
  {
    if |w| == 9 {
      assert Lower(w) == WRAPPERS[0];
    } else {
      assert Lower(w) == WRAPPERS[1];
    }
  }
}
