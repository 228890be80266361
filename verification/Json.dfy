/** Response and book documents, and the dotted-path lookup the engine does in them. */
module Json {
  import opened Cursor
  import opened Text

  datatype Json =
    | Null
    | Bool(b: bool)
    | Num(n: int)
    | Str(s: string)
    | Arr(items: seq<Json>)
    | Obj(fields: map<string, Json>)

  /** Python's truth of the value. */
  predicate Truthy(v: Json) {
    match v
    case Null => false
    case Bool(b) => b
    case Num(n) => n != 0
    case Str(s) => s != []
    case Arr(items) => items != []
    case Obj(fields) => fields != map[]
  }

  // ---- text of a path ----------------------------------------------------

  /** What str.partition(c) leaves after the first c. */
  function AfterFirst(s: string, c: char): (rest: string)
    ensures |rest| <= |s| && (s != [] ==> |rest| < |s|)
  {
    var i := IndexOf(s, c);
    if i == |s| then [] else s[i + 1..]
  }

  function BeforeFirst(s: string, c: char): string { s[..IndexOf(s, c)] }

  /** str.partition(c): the two parts around the first c, or the whole and nothing. */
  lemma PartitionedExactly(s: string, c: char, front: string, rest: string)
    ensures BeforeFirst(s, c) == front && AfterFirst(s, c) == rest
       <==> c !in front && (s == front + [c] + rest || (s == front && rest == []))
  {
    if c !in front && s == front + [c] + rest {
      assert s == front + ([c] + rest);
      FirstAt(front, [c] + rest, c);
    } else if c !in front && s == front {
      NoneBefore(s, c);
    }
  }

  function StripOpening(s: string): (t: string)
    ensures |t| <= |s|
  {
    if s != [] && s[0] == '[' then StripOpening(s[1..]) else s
  }

  // ---- the lookup --------------------------------------------------------

  /** An element of a list, counted from the end when negative; None is null. */
  function Item(v: Json, index: int): Json {
    if v.Arr? && -|v.items| <= index < |v.items|
    then v.items[if index < 0 then index + |v.items| else index] else Null
  }

  function Member(v: Json, name: string): Json {
    if v.Obj? && name in v.fields then v.fields[name] else Null
  }

  /** The [index] part of a segment. */
  function FollowIndexes(v: Json, rest: string): Json
    decreases |rest|
  {
    if rest == [] then v
    else
      match ParseInt(BeforeFirst(rest, ']'))
      case None => Null
      case Some(index) => FollowIndexes(Item(v, index), StripOpening(AfterFirst(rest, ']')))
  }

  function FollowSegment(v: Json, raw: string): Json {
    var name := BeforeFirst(raw, '[');
    FollowIndexes(if name == [] then v else Member(v, name), AfterFirst(raw, '['))
  }

  function FollowAll(v: Json, segments: seq<string>): Json
    decreases |segments|
  {
    if segments == [] then v else FollowAll(FollowSegment(v, segments[0]), segments[1..])
  }

  /** The value a path names; null stands for absence, as None does. */
  function Locate(doc: Json, path: string): Json { FollowAll(doc, SplitOn(path, '.')) }

  lemma {:induction false} NullHasNoItems(rest: string)
    ensures FollowIndexes(Null, rest) == Null
    decreases |rest|
  {
    if rest != [] {
      NullHasNoItems(StripOpening(AfterFirst(rest, ']')));
    }
  }

  lemma {:induction false} NullHasNoParts(segments: seq<string>)
    ensures FollowAll(Null, segments) == Null
  {
    if segments != [] {
      NullHasNoItems(AfterFirst(segments[0], '['));
      NullHasNoParts(segments[1..]);
    }
  }

  lemma {:induction false} FollowTwice(v: Json, a: seq<string>, b: seq<string>)
    ensures FollowAll(v, a + b) == FollowAll(FollowAll(v, a), b)
    decreases |a|
  {
    if a == [] {
      assert a + b == b;
    } else {
      assert (a + b)[1..] == a[1..] + b;
      FollowTwice(FollowSegment(v, a[0]), a[1..], b);
    }
  }

  /** Looking up a.b is looking up b in what a names, absence included. */
  lemma LocateComposes(doc: Json, a: string, b: string)
    ensures Locate(doc, a + "." + b) == Locate(Locate(doc, a), b)
  {
    SplitJoined(a, b, '.');
    FollowTwice(doc, SplitOn(a, '.'), SplitOn(b, '.'));
  }

  lemma {:induction false} NoneBefore(s: string, c: char)
    requires c !in s
    ensures IndexOf(s, c) == |s| && BeforeFirst(s, c) == s && AfterFirst(s, c) == []
    ensures SplitOn(s, c) == [s]
  {
    assert forall i | 0 <= i < |s| :: s[i] in s;
    assert s[..|s|] == s;
  }

  lemma FollowOne(v: Json, segment: string)
    ensures FollowAll(v, [segment]) == FollowSegment(v, segment)
  {
    assert [segment][1..] == [];
  }

  /** A path without dots or brackets names a member of an object, and nothing else. */
  lemma LocateMember(doc: Json, name: string)
    requires name != [] && '.' !in name && '[' !in name
    ensures Locate(doc, name) == if doc.Obj? && name in doc.fields then doc.fields[name] else Null
    ensures Locate(doc, "") == doc
  {
    NoneBefore(name, '.');
    NoneBefore(name, '[');
    NoneBefore("", '.');
    NoneBefore("", '[');
    FollowOne(doc, name);
    FollowOne(doc, "");
  }

  lemma BracketText(index: int)
    ensures var raw := "[" + IntText(index) + "]";
            && '.' !in raw && BeforeFirst(raw, '[') == [] && AfterFirst(raw, '[') == IntText(index) + "]"
            && BeforeFirst(IntText(index) + "]", ']') == IntText(index) && AfterFirst(IntText(index) + "]", ']') == []
  {
    IntRoundTrip(index);
    var digits := IntText(index);
    var raw := "[" + digits + "]";
    FirstAt(digits, "]", ']');
    assert (digits + "]")[..|digits|] == digits;
    assert raw[0] == '[' && raw[1..] == digits + "]";
  }

  /** A bracketed index names an element of a list, counted from the end when negative. */
  lemma LocateItem(doc: Json, index: int)
    ensures Locate(doc, "[" + IntText(index) + "]")
         == if doc.Arr? && 0 <= index < |doc.items| then doc.items[index]
            else if doc.Arr? && -|doc.items| <= index < 0 then doc.items[|doc.items| + index] else Null
  {
    var raw := "[" + IntText(index) + "]";
    BracketText(index);
    NoneBefore(raw, '.');
    IntRoundTrip(index);
    FollowOne(doc, raw);
    assert FollowIndexes(doc, IntText(index) + "]") == FollowIndexes(Item(doc, index), []);
  }

  /** A name followed by an index is that element of that member. */
  lemma LocateItemOf(doc: Json, name: string, index: int)
    requires name != [] && '.' !in name && '[' !in name
    ensures Locate(doc, name + ("[" + IntText(index) + "]"))
         == Locate(Locate(doc, name), "[" + IntText(index) + "]")
  {
    var tail: string := "[" + IntText(index) + "]";
    var raw: string := name + tail;
    LocateMember(doc, name);
    BracketText(index);
    NoneBefore(raw, '.');
    NoneBefore(tail, '.');
    FirstAt(name, tail, '[');
    assert raw[..|name|] == name && raw[|name| + 1..] == tail[1..];
    FollowOne(doc, raw);
    FollowOne(Locate(doc, name), tail);
  }

  lemma TextNext(digits: string, more: string)
    requires ']' !in digits && more != [] && more[0] != '['
    ensures BeforeFirst(digits + ("][" + more), ']') == digits
    ensures StripOpening(AfterFirst(digits + ("][" + more), ']')) == more
  {
    var bracketed: string := "[" + more;
    var tail: string := "]" + bracketed;
    FirstAt(digits, tail, ']');
    assert tail == "][" + more && tail[1..] == bracketed && bracketed[1..] == more;
    assert (digits + tail)[..|digits|] == digits && (digits + tail)[|digits| + 1..] == tail[1..];
  }

  lemma FollowStep(v: Json, rest: string)
    requires rest != [] && ParseInt(BeforeFirst(rest, ']')).Some?
    ensures FollowIndexes(v, rest)
         == FollowIndexes(Item(v, ParseInt(BeforeFirst(rest, ']')).value), StripOpening(AfterFirst(rest, ']')))
  {
  }

  lemma FollowNext(v: Json, index: int, more: string)
    requires more != [] && more[0] != '['
    ensures FollowIndexes(v, IntText(index) + ("][" + more)) == FollowIndexes(Item(v, index), more)
  {
    IntRoundTrip(index);
    TextNext(IntText(index), more);
    FollowStep(v, IntText(index) + ("][" + more));
  }

  /** Indexes in a row are followed one after the other. */
  lemma LocateNext(doc: Json, index: int, more: string)
    requires more != [] && more[0] != '[' && '.' !in more
    ensures Locate(doc, "[" + (IntText(index) + ("][" + more))) == Locate(Locate(doc, "[" + IntText(index) + "]"), "[" + more)
  {
    var digits := IntText(index);
    var raw, tail := "[" + (digits + ("][" + more)), "[" + more;
    IntRoundTrip(index);
    NoneBefore(raw, '.');
    NoneBefore(tail, '.');
    LocateItem(doc, index);
    FollowNext(doc, index, more);
    assert raw[0] == '[' && raw[1..] == digits + ("][" + more) && tail[0] == '[' && tail[1..] == more;
    FollowOne(doc, raw);
    FollowOne(Locate(doc, "[" + digits + "]"), tail);
  }

  /** The segment loop, which gives up at the first absent part. */
  method DottedGet(doc: Json, path: string) returns (v: Json)
    ensures v == Locate(doc, path)
  {
    var segments := SplitOn(path, '.');
    var current := doc;
    for k := 0 to |segments|
      invariant Locate(doc, path) == FollowAll(current, segments[k..])
    {
      var name, rest := BeforeFirst(segments[k], '['), AfterFirst(segments[k], '[');
      NullHasNoParts(segments[k + 1..]);
      NullHasNoItems(rest);
      assert segments[k..][1..] == segments[k + 1..];
      if name != [] {
        if !current.Obj? || name !in current.fields {
          return Null;
        }
        current := current.fields[name];
      }
      while rest != []
        invariant Locate(doc, path) == FollowAll(FollowIndexes(current, rest), segments[k + 1..])
        decreases |rest|
      {
        var index := ParseInt(BeforeFirst(rest, ']'));
        rest := StripOpening(AfterFirst(rest, ']'));
        NullHasNoItems(rest);
        if index.None? {
          return Null;
        }
        if !current.Arr? || !(-|current.items| <= index.value < |current.items|) {
          return Null;
        }
        current := current.items[if index.value < 0 then index.value + |current.items| else index.value];
      }
    }
    return current;
  }
}
