/**
 * Credential scrubbing: registered secrets in three forms are replaced, then
 * the values of registered parameters redacted, both in an order nobody chose.
 * What has to be gone is gone, whatever the text; nothing else is touched; and
 * scrubbing what is scrubbed changes nothing.
 */
module Scrub {
  import opened Util
  import opened Text

  const OPENING := '\U{AB}'
  const CLOSING := '\U{BB}'
  const WORD := "redacted"
  const REDACTED := [OPENING] + WORD + [CLOSING]

  lemma TheMarker()
    ensures REDACTED == "\U{AB}redacted\U{BB}"
  {
  }

  const MIN_SCRUBBABLE_LENGTH := 8

  // ---- URL encoding ------------------------------------------------------

  /** What quote leaves alone when nothing is declared safe. */
  predicate Unreserved(c: char): (b: bool)
    ensures !b <==>
      var u := c as int;
      u < 0x2D || u == 0x2F || 0x3A <= u < 0x41 || 0x5B <= u < 0x5F || u == 0x60 || 0x7B <= u < 0x7E || u > 0x7E
  {
    'a' <= c <= 'z' || 'A' <= c <= 'Z' || '0' <= c <= '9' || c in "_.-~"
  }

  function Hex(d: nat): (c: char)
    requires d < 16
    ensures c as int == d + if d < 0xA then 0x30 else 0x37
  {
    if d < 10 then '0' + d as char else 'A' + (d - 10) as char
  }

  type Byte = b: nat | b < 256

  function Percent(b: Byte): string { ['%', Hex(b / 16), Hex(b % 16)] }

  /** The UTF-8 bytes of a character, section 3 of RFC 3629. */
  function Utf8(c: char): (bytes: seq<Byte>)
    ensures 1 <= |bytes| <= 4
    ensures (|bytes| == 1 <==> c as int < 0x80) && (|bytes| <= 2 <==> c as int < 0x800)
    ensures |bytes| <= 3 <==> c as int < 0x1_0000
  {
    var u := c as int;
    if u < 0x80 then [u]
    else if u < 0x800 then [0xC0 + u / 0x40, 0x80 + u % 0x40]
    else if u < 0x1_0000 then [0xE0 + u / 0x1000, 0x80 + u / 0x40 % 0x40, 0x80 + u % 0x40]
    else [0xF0 + u / 0x4_0000, 0x80 + u / 0x1000 % 0x40, 0x80 + u / 0x40 % 0x40, 0x80 + u % 0x40]
  }

  /** Each byte as a percent triple. */
  function Percents(bytes: seq<Byte>): (s: string)
    ensures |s| == 3 * |bytes|
  {
    if bytes == [] then [] else Percent(bytes[0]) + Percents(bytes[1..])
  }

  function Encoded(c: char): string { Percents(Utf8(c)) }

  /** quote(s, safe=""), or quote_plus(s), which writes a space as a plus sign. */
  function Quote(s: string, plus: bool): (q: string)
    ensures |q| >= |s|
  {
    if s == [] then []
    else
      (if plus && s[0] == ' ' then "+" else if Unreserved(s[0]) then [s[0]] else Encoded(s[0])) + Quote(s[1..], plus)
  }

  /** Text that is searched for. */
  type Form = f: string | f != [] witness WORD

  function Forms(secret: Form): seq<Form> { [secret, Quote(secret, false), Quote(secret, true)] }

  // ---- the two passes ----------------------------------------------------

  /** str.replace: leftmost occurrences, none overlapping another. */
  function Replace(s: string, form: Form): string {
    if s == [] then []
    else if form <= s then REDACTED + Replace(s[|form|..], form)
    else [s[0]] + Replace(s[1..], form)
  }

  /** Where a parameter's value ends. */
  predicate Stops(c: char): (b: bool)
    ensures b <==> Space(c) || c == '&' || c == '"' || c == '\'' || c == ')' || c == ']'
  {
    Space(c) || c in "&\"')]"
  }

  function ValueLength(s: string): (n: nat)
    ensures n <= |s| && (forall i | 0 <= i < n :: !Stops(s[i])) && (n < |s| ==> Stops(s[n]))
  {
    if s == [] || Stops(s[0]) then 0 else 1 + ValueLength(s[1..])
  }

  predicate Separator(c: char) { c == '?' || c == '&' }

  /** s opens with a separator, the key and an equals sign. */
  predicate Opens(s: string, key: string) {
    s != [] && Separator(s[0]) && key + "=" <= s[1..]
  }

  /** Everything from the value on, when s opens with the key. */
  function Value(s: string, key: string): string
    requires Opens(s, key)
  {
    s[|key| + 2..]
  }

  /** What follows that value. */
  function AfterValue(s: string, key: string): string
    requires Opens(s, key)
  {
    Value(s, key)[ValueLength(Value(s, key))..]
  }

  /** The substitution of one parameter's values, left to right. */
  function RedactKey(s: string, key: string): string
    decreases |s|
  {
    if s == [] then []
    else if Opens(s, key) then
      [s[0]] + ((key + "=" + REDACTED) + RedactKey(AfterValue(s, key), key))
    else [s[0]] + RedactKey(s[1..], key)
  }

  function ReplaceForms(s: string, forms: seq<Form>): string
    decreases |forms|
  {
    if forms == [] then s else ReplaceForms(Replace(s, forms[0]), forms[1..])
  }

  function RedactKeys(s: string, keys: seq<string>): string
    decreases |keys|
  {
    if keys == [] then s else RedactKeys(RedactKey(s, keys[0]), keys[1..])
  }

  /** Every form of every secret, in the order the first pass takes them. */
  function AllForms(secrets: seq<Form>): (forms: seq<Form>)
    ensures forall f :: f in forms <==> exists s :: s in secrets && f in Forms(s)
  {
    if secrets == [] then [] else Forms(secrets[0]) + AllForms(secrets[1..])
  }

  /** One scrub, with the orders in which the two sets happened to be walked. */
  function Scrubbed(text: string, secrets: seq<Form>, keys: seq<string>): string {
    RedactKeys(ReplaceForms(text, AllForms(secrets)), keys)
  }

  // ---- what any redaction can bring forth --------------------------------

  /** t is s with some stretches, none overlapping another, replaced by the marker. */
  ghost predicate Redacts(s: string, t: string)
    decreases |t|
  {
    || (s == [] && t == [])
    || (s != [] && t != [] && s[0] == t[0] && Redacts(s[1..], t[1..]))
    || (REDACTED <= t && exists n | 0 <= n <= |s| :: Redacts(s[n..], t[|REDACTED|..]))
  }

  /** Laid over a marker that starts at d, f differs from it somewhere. */
  ghost predicate Clashes(f: string, d: int) {
    exists j :: 0 <= j < |f| && 0 <= j - d < |REDACTED| && f[j] != REDACTED[j - d]
  }

  /** f cannot share a stretch of text with a marker. */
  ghost predicate Apart(f: string) { forall d | -|REDACTED| < d < |f| :: Clashes(f, d) }

  lemma {:induction false} ReplaceRedacts(s: string, form: Form)
    ensures Redacts(s, Replace(s, form))
    decreases |s|
  {
    if s != [] {
      var t := Replace(s, form);
      if form <= s {
        ReplaceRedacts(s[|form|..], form);
        assert t[|REDACTED|..] == Replace(s[|form|..], form);
      } else {
        ReplaceRedacts(s[1..], form);
        assert t[1..] == Replace(s[1..], form);
      }
    }
  }

  lemma {:induction false} CopyRedacts(a: string, s: string, t: string)
    requires Redacts(s, t)
    ensures Redacts(a + s, a + t)
  {
    if a == [] {
      assert a + s == s && a + t == t;
    } else {
      CopyRedacts(a[1..], s, t);
      assert (a + s)[1..] == a[1..] + s && (a + t)[1..] == a[1..] + t;
    }
  }

  lemma SplitAtValue(s: string, key: string)
    requires Opens(s, key)
    ensures s == [s[0]] + ((key + "=") + Value(s, key))
  {
    assert s == [s[0]] + s[1..];
    assert s[1..] == s[1..][..|key| + 1] + s[1..][|key| + 1..];
    assert s[1..][|key| + 1..] == Value(s, key);
  }

  lemma MarkerRedacts(v: string, n: nat, t: string)
    requires n <= |v| && Redacts(v[n..], t)
    ensures Redacts(v, REDACTED + t)
  {
    assert (REDACTED + t)[|REDACTED|..] == t;
  }

  lemma {:induction false} KeyRedacts(s: string, key: string)
    ensures Redacts(s, RedactKey(s, key))
    decreases |s|
  {
    if s == [] {
    } else if Opens(s, key) {
      var v, rest := Value(s, key), RedactKey(AfterValue(s, key), key);
      KeyRedacts(AfterValue(s, key), key);
      MarkerRedacts(v, ValueLength(v), rest);
      SplitAtValue(s, key);
      CopyRedacts(key + "=", v, REDACTED + rest);
      CopyRedacts([s[0]], (key + "=") + v, (key + "=") + (REDACTED + rest));
      assert (key + "=") + (REDACTED + rest) == (key + "=" + REDACTED) + rest;
    } else {
      KeyRedacts(s[1..], key);
      assert RedactKey(s, key)[1..] == RedactKey(s[1..], key);
    }
  }

  /** What stands apart from the marker and opens the result already opened the text. */
  lemma {:induction false} PrefixWasThere(s: string, t: string, f: string, k: nat)
    requires Redacts(s, t) && Apart(f) && k <= |f| && f[k..] <= t
    ensures f[k..] <= s
    decreases |f| - k
  {
    if k < |f| {
      NoMarkerThere(t, f, k);
      assert t[0] == f[k];
      assert f[k + 1..] == f[k..][1..];
      PrefixWasThere(s[1..], t[1..], f, k + 1);
      assert s == [s[0]] + s[1..] && f[k..] == [f[k]] + f[k + 1..];
    }
  }

  lemma NoMarkerThere(t: string, f: string, k: nat)
    requires Apart(f) && k < |f| && f[k..] <= t
    ensures !(REDACTED <= t)
  {
    assert Clashes(f, k);
    var j :| 0 <= j < |f| && 0 <= j - k < |REDACTED| && f[j] != REDACTED[j - k];
    assert t[j - k] == f[k..][j - k] == f[j];
  }

  /** A redaction brings forth nothing that stands apart from the marker. */
  lemma {:induction false} OccurredBefore(s: string, t: string, f: string)
    requires Redacts(s, t) && Apart(f) && f != [] && Occurs(f, t)
    ensures Occurs(f, s)
    decreases |t|
  {
    var i :| 0 <= i <= |t| && At(t, i, f);
    if i == 0 {
      assert f[0..] == f;
      PrefixWasThere(s, t, f, 0);
      assert At(s, 0, f);
    } else if s != [] && s[0] == t[0] && Redacts(s[1..], t[1..]) {
      assert t[1..][i - 1..i - 1 + |f|] == f;
      assert At(t[1..], i - 1, f);
      OccurredBefore(s[1..], t[1..], f);
      OccursTail(f, s);
    } else {
      var n :| 0 <= n <= |s| && Redacts(s[n..], t[|REDACTED|..]);
      PastMarker(t, i, f);
      OccurredBefore(s[n..], t[|REDACTED|..], f);
      assert s == s[..n] + s[n..] + [];
      OccursInside(f, s[..n], s[n..], []);
    }
  }

  lemma NoMarkerBefore(t: string, i: int, f: string)
    requires Apart(f) && f != [] && At(t, i, f) && i < |REDACTED|
    ensures !(REDACTED <= t)
  {
    assert Clashes(f, -i);
    var j :| 0 <= j < |f| && 0 <= j + i < |REDACTED| && f[j] != REDACTED[j + i];
    assert t[i + j] == t[i..i + |f|][j] == f[j];
  }

  /** An occurrence in a text that opens with the marker lies past the marker. */
  lemma PastMarker(t: string, i: int, f: string)
    requires REDACTED <= t && At(t, i, f) && Apart(f) && f != []
    ensures i >= |REDACTED| && Occurs(f, t[|REDACTED|..])
  {
    if i < |REDACTED| {
      NoMarkerBefore(t, i, f);
      assert false;
    }
    assert t[|REDACTED|..][i - |REDACTED|..i - |REDACTED| + |f|] == f;
    assert At(t[|REDACTED|..], i - |REDACTED|, f);
  }

  // ---- secrets are gone --------------------------------------------------

  lemma {:induction false} ReplaceRemoves(s: string, f: Form)
    requires Apart(f)
    ensures !Occurs(f, Replace(s, f))
    decreases |s|
  {
    if Occurs(f, Replace(s, f)) {
      var t := Replace(s, f);
      var i :| 0 <= i <= |t| && At(t, i, f);
      if f <= s {
        PastMarker(t, i, f);
        assert t[|REDACTED|..] == Replace(s[|f|..], f);
        ReplaceRemoves(s[|f|..], f);
      } else if i == 0 {
        ReplaceRedacts(s, f);
        assert f[0..] == f;
        PrefixWasThere(s, t, f, 0);
      } else {
        assert t[1..][i - 1..i - 1 + |f|] == f;
        assert At(t[1..], i - 1, f);
        ReplaceRemoves(s[1..], f);
      }
    }
  }

  lemma {:induction false} FormsStayGone(s: string, forms: seq<Form>, f: Form)
    requires Apart(f)
    requires f in forms || !Occurs(f, s)
    ensures !Occurs(f, ReplaceForms(s, forms))
    decreases |forms|
  {
    if forms != [] {
      if forms[0] == f {
        ReplaceRemoves(s, f);
      } else if Occurs(f, Replace(s, forms[0])) && f !in forms {
        ReplaceRedacts(s, forms[0]);
        OccurredBefore(s, Replace(s, forms[0]), f);
      }
      FormsStayGone(Replace(s, forms[0]), forms[1..], f);
    }
  }

  lemma {:induction false} KeysKeepGone(s: string, keys: seq<string>, f: Form)
    requires Apart(f) && !Occurs(f, s)
    ensures !Occurs(f, RedactKeys(s, keys))
    decreases |keys|
  {
    if keys != [] {
      KeyRedacts(s, keys[0]);
      if Occurs(f, RedactKey(s, keys[0])) {
        OccurredBefore(s, RedactKey(s, keys[0]), f);
      }
      KeysKeepGone(RedactKey(s, keys[0]), keys[1..], f);
    }
  }

  ghost predicate Clean(secrets: seq<Form>, text: string) {
    forall s, f | s in secrets && f in Forms(s) :: !Occurs(f, text)
  }

  /**
   * Scrubbing removes: for every text and every order, no secret and no
   * encoded form of one is left, when none can share text with the marker.
   */
  lemma ScrubRemoves(text: string, secrets: seq<Form>, keys: seq<string>)
    requires forall f | f in AllForms(secrets) :: Apart(f)
    ensures Clean(secrets, Scrubbed(text, secrets, keys))
  {
    forall s, f | s in secrets && f in Forms(s) ensures !Occurs(f, Scrubbed(text, secrets, keys)) {
      assert f in AllForms(secrets);
      FormsStayGone(text, AllForms(secrets), f);
      KeysKeepGone(ReplaceForms(text, AllForms(secrets)), keys, f);
    }
  }

  /** Long enough to be registered, and free of the marker's own delimiters. */
  predicate Registrable(secret: string) {
    |secret| >= MIN_SCRUBBABLE_LENGTH && OPENING !in secret && CLOSING !in secret
  }

  /** At the length floor, only the marker's own word is not apart from the marker. */
  lemma PlainIsApart(f: string)
    requires Registrable(f)
    ensures Apart(f) <==> f != WORD
  {
    assert REDACTED[0] == OPENING && REDACTED[9] == CLOSING && REDACTED[1..9] == WORD;
    if f == WORD {
      assert !Clashes(f, -1);
    } else {
      forall d | -|REDACTED| < d < |f| ensures Clashes(f, d) {
        if d >= 0 {
          assert f[d] != REDACTED[d - d];
        } else if 9 + d < |f| {
          assert f[9 + d] != REDACTED[9 + d - d];
        } else {
          assert |f| == 8 && d == -1 && f != REDACTED[1..9];
          var j :| 0 <= j < 8 && f[j] != REDACTED[1..9][j];
          assert f[j] != REDACTED[j - d];
        }
      }
    }
  }

  lemma {:induction false} PercentsAreAscii(bytes: seq<Byte>)
    ensures OPENING !in Percents(bytes) && CLOSING !in Percents(bytes)
  {
    if bytes != [] {
      PercentsAreAscii(bytes[1..]);
    }
  }

  lemma EncodedIsAscii(c: char)
    ensures '%' in Encoded(c) && OPENING !in Encoded(c) && CLOSING !in Encoded(c)
  {
    PercentsAreAscii(Utf8(c));
    assert Encoded(c)[0] == '%';
  }

  lemma {:induction false} QuotePlain(s: string, plus: bool)
    ensures OPENING !in Quote(s, plus) && CLOSING !in Quote(s, plus)
    ensures Quote(s, plus) == s || '%' in Quote(s, plus) || '+' in Quote(s, plus)
  {
    if s != [] {
      QuotePlain(s[1..], plus);
      EncodedIsAscii(s[0]);
    }
  }

  lemma QuoteApart(secret: Form, plus: bool)
    requires Registrable(secret) && secret != WORD
    ensures Apart(Quote(secret, plus))
  {
    QuotePlain(secret, plus);
    PlainIsApart(Quote(secret, plus));
  }

  lemma FormsApart(secret: Form)
    requires Registrable(secret) && secret != WORD
    ensures forall f | f in Forms(secret) :: Apart(f)
  {
    PlainIsApart(secret);
    QuoteApart(secret, false);
    QuoteApart(secret, true);
  }

  /** A replacement that changes anything writes the marker's word. */
  lemma {:induction false} WordStays(s: string, form: Form)
    ensures Replace(s, form) == s || Occurs(WORD, Replace(s, form))
    decreases |s|
  {
    if s != [] {
      var t := Replace(s, form);
      if form <= s {
        assert t[1..9] == REDACTED[1..9] == WORD;
        assert At(t, 1, WORD);
      } else {
        WordStays(s[1..], form);
        assert t[1..] == Replace(s[1..], form);
        if Occurs(WORD, t[1..]) {
          OccursTail(WORD, t);
        }
      }
    }
  }

  lemma {:induction false} WordStaysThroughout(s: string, forms: seq<Form>)
    requires Occurs(WORD, s)
    ensures Occurs(WORD, ReplaceForms(s, forms))
    decreases |forms|
  {
    if forms != [] {
      WordStays(s, forms[0]);
      WordStaysThroughout(Replace(s, forms[0]), forms[1..]);
    }
  }

  /**
   * For secrets free of the marker's delimiters, scrubbing is clean on every
   * text exactly when the marker's own word is not among them.
   */
  lemma CleanExactly(secrets: seq<Form>)
    requires forall s | s in secrets :: Registrable(s)
    ensures (forall text, keys :: Clean(secrets, Scrubbed(text, secrets, keys))) <==> WORD !in secrets
  {
    if WORD in secrets {
      assert At(WORD, 0, WORD);
      WordStaysThroughout(WORD, AllForms(secrets));
      assert WORD in Forms(WORD);
      assert !Clean(secrets, Scrubbed(WORD, secrets, []));
    } else {
      forall f | f in AllForms(secrets) ensures Apart(f) {
        var s :| s in secrets && f in Forms(s);
        FormsApart(s);
      }
      forall text, keys ensures Clean(secrets, Scrubbed(text, secrets, keys)) {
        ScrubRemoves(text, secrets, keys);
      }
    }
  }

  // ---- parameters are redacted by name -----------------------------------

  /** A key that no separator, equals sign or marker character occurs in. */
  predicate PlainKey(key: string) {
    forall c | c in key :: !Separator(c) && c != '=' && c != OPENING && c != CLOSING
  }

  lemma PlainInput()
    ensures PlainKey("api_key") && Registrable("hunter2222")
  {
  }

  /** Every value of the key is the marker and nothing more. */
  ghost predicate Settled(s: string, key: string) {
    forall i | 0 <= i <= |s| && Opens(s[i..], key) ::
      REDACTED <= Value(s[i..], key) && ValueLength(Value(s[i..], key)) == |REDACTED|
  }

  lemma SettledFrom(s: string, key: string, n: nat)
    requires Settled(s, key) && n <= |s|
    ensures Settled(s[n..], key)
  {
    forall i | 0 <= i <= |s[n..]| && Opens(s[n..][i..], key)
      ensures REDACTED <= Value(s[n..][i..], key) && ValueLength(Value(s[n..][i..], key)) == |REDACTED|
    {
      assert s[n..][i..] == s[n + i..];
    }
  }

  lemma {:induction false} SettledPast(a: string, s: string, key: string)
    requires Settled(s, key) && forall c | c in a :: !Separator(c)
    ensures Settled(a + s, key)
  {
    forall i | 0 <= i <= |a + s| && Opens((a + s)[i..], key)
      ensures REDACTED <= Value((a + s)[i..], key) && ValueLength(Value((a + s)[i..], key)) == |REDACTED|
    {
      if i >= |a| {
        assert (a + s)[i..] == s[i - |a|..];
      }
    }
  }

  /** Settling a text with one more character in front asks only about that character. */
  lemma SettledCons(s: string, key: string)
    requires s != [] && Settled(s[1..], key)
    requires Opens(s, key) ==> REDACTED <= Value(s, key) && ValueLength(Value(s, key)) == |REDACTED|
    ensures Settled(s, key)
  {
    forall i | 0 <= i <= |s| && Opens(s[i..], key)
      ensures REDACTED <= Value(s[i..], key) && ValueLength(Value(s[i..], key)) == |REDACTED|
    {
      if i == 0 {
        assert s[0..] == s;
      } else {
        assert s[i..] == s[1..][i - 1..];
      }
    }
  }

  lemma {:induction false} ValueLengthIs(a: string, s: string)
    requires (forall c | c in a :: !Stops(c)) && (s == [] || Stops(s[0]))
    ensures ValueLength(a + s) == |a|
  {
    if a == [] {
      assert a + s == s;
    } else {
      assert (a + s)[1..] == a[1..] + s;
      ValueLengthIs(a[1..], s);
    }
  }

  /** The pass keeps the first character. */
  lemma SameFirst(s: string, key: string)
    ensures s == [] <==> RedactKey(s, key) == []
    ensures s != [] ==> RedactKey(s, key)[0] == s[0]
  {
  }

  /** Text without a separator is passed over. */
  lemma {:induction false} PassesOver(a: string, s: string, key: string)
    requires forall c | c in a :: !Separator(c)
    ensures RedactKey(a + s, key) == a + RedactKey(s, key)
  {
    if a == [] {
      assert a + s == s;
    } else {
      assert (a + s)[1..] == a[1..] + s;
      PassesOver(a[1..], s, key);
    }
  }

  lemma {:induction false} KeyIsApart(key: string)
    requires PlainKey(key)
    ensures Apart(key + "=")
  {
    var f := key + "=";
    assert forall c | c in f :: c != OPENING && c != CLOSING;
    assert REDACTED[0] == OPENING && REDACTED[9] == CLOSING;
    forall d | -|REDACTED| < d < |f| ensures Clashes(f, d) {
      if d >= 0 {
        assert f[d] in f && f[d] != REDACTED[d - d];
      } else if 9 + d < |f| {
        assert f[9 + d] in f && f[9 + d] != REDACTED[9 + d - d];
      } else {
        assert f[|f| - 1] == '=' && '=' !in REDACTED && 0 <= |f| - 1 - d < |REDACTED|;
        assert f[|f| - 1] != REDACTED[|f| - 1 - d];
      }
    }
  }

  /** The pass for one key opens no other, and no new place for its own. */
  lemma OpensBefore(s: string, other: string, key: string)
    requires s != [] && PlainKey(key) && Opens([s[0]] + RedactKey(s[1..], other), key)
    ensures Opens(s, key)
  {
    var f := key + "=";
    KeyIsApart(key);
    KeyRedacts(s[1..], other);
    assert f[0..] == f && ([s[0]] + RedactKey(s[1..], other))[1..] == RedactKey(s[1..], other);
    PrefixWasThere(s[1..], RedactKey(s[1..], other), f, 0);
  }

  lemma AfterMatch(c: char, key: string, t: string)
    requires PlainKey(key) && Settled(t, key) && (t == [] || Stops(t[0]))
    ensures Settled([c] + ((key + "=" + REDACTED) + t), key)
  {
    var a := key + "=" + REDACTED;
    SettledPast(a, t, key);
    var s := [c] + (a + t);
    assert s[1..] == a + t;
    assert s[|key| + 2..] == REDACTED + t;
    ValueLengthIs(REDACTED, t);
    SettledCons(s, key);
  }

  /** After its own pass, every value of a plain key is the marker. */
  lemma {:induction false} PassSettles(s: string, key: string)
    requires PlainKey(key)
    ensures Settled(RedactKey(s, key), key)
    decreases |s|
  {
    if s == [] {
    } else if Opens(s, key) {
      var rest := AfterValue(s, key);
      PassSettles(rest, key);
      SameFirst(rest, key);
      AfterMatch(s[0], key, RedactKey(rest, key));
    } else {
      PassSettles(s[1..], key);
      var t := [s[0]] + RedactKey(s[1..], key);
      assert t[1..] == RedactKey(s[1..], key);
      if Opens(t, key) {
        OpensBefore(s, key, key);
      }
      SettledCons(t, key);
    }
  }

  lemma SameKey(key: string, other: string, w: string)
    requires PlainKey(key) && PlainKey(other) && key + "=" <= other + "=" + w
    ensures key == other
  {
    var t := other + "=" + w;
    assert t[|key|] == (key + "=")[|key|] == '=' && t[|other|] == '=';
    assert forall i | 0 <= i < |key| :: (key + "=")[i] == key[i] == t[i] && key[i] in key;
    assert forall i | 0 <= i < |other| :: t[i] == other[i] && other[i] in other;
  }

  lemma Regroup(c: char, head: string, v: string, w: string)
    requires v == REDACTED + w
    ensures [c] + (head + v) == [c] + ((head + REDACTED) + w)
  {
    assert head + v == (head + REDACTED) + w;
  }

  /** A settled opening is the key, the marker, and then a stop. */
  lemma SettledOpening(s: string, key: string)
    requires Opens(s, key) && Settled(s, key)
    ensures s == [s[0]] + ((key + "=" + REDACTED) + AfterValue(s, key))
    ensures AfterValue(s, key) == [] || Stops(AfterValue(s, key)[0])
    ensures Settled(AfterValue(s, key), key)
  {
    var v := Value(s, key);
    assert REDACTED <= v && ValueLength(v) == |REDACTED| by {
      assert s[0..] == s;
    }
    SplitAtValue(s, key);
    Regroup(s[0], key + "=", v, AfterValue(s, key));
    assert AfterValue(s, key) == s[|key| + 2 + |REDACTED|..];
    SettledFrom(s, key, |key| + 2 + |REDACTED|);
  }

  lemma PassesOverOpening(c: char, a: string, w: string, other: string)
    requires !Opens([c] + (a + w), other) && forall x | x in a :: !Separator(x)
    ensures RedactKey([c] + (a + w), other) == [c] + (a + RedactKey(w, other))
  {
    assert ([c] + (a + w))[1..] == a + w;
    PassesOver(a, w, other);
  }

  /** Another key's pass writes over no settled value. */
  lemma PassKeepsOpening(c: char, w: string, other: string, key: string)
    requires PlainKey(key) && !Opens([c] + ((key + "=" + REDACTED) + w), other) && (w == [] || Stops(w[0]))
    requires Settled(RedactKey(w, other), key)
    ensures Settled(RedactKey([c] + ((key + "=" + REDACTED) + w), other), key)
  {
    PassesOverOpening(c, key + "=" + REDACTED, w, other);
    SameFirst(w, other);
    AfterMatch(c, key, RedactKey(w, other));
  }

  lemma OtherMatch(c: char, other: string, key: string, t: string)
    requires PlainKey(key) && PlainKey(other) && key != other && Settled(t, key)
    ensures Settled([c] + ((other + "=" + REDACTED) + t), key)
  {
    var a := other + "=" + REDACTED;
    SettledPast(a, t, key);
    var s := [c] + (a + t);
    assert s[1..] == a + t == other + "=" + (REDACTED + t);
    if Opens(s, key) {
      SameKey(key, other, REDACTED + t);
    }
    SettledCons(s, key);
  }

  lemma {:induction false} PassKeeps(s: string, other: string, key: string)
    requires PlainKey(key) && PlainKey(other) && key != other && Settled(s, key)
    ensures Settled(RedactKey(s, other), key)
    decreases |s|
  {
    if s == [] {
    } else if Opens(s, other) {
      var n := |other| + 2 + ValueLength(Value(s, other));
      assert AfterValue(s, other) == s[n..];
      SettledFrom(s, key, n);
      PassKeeps(AfterValue(s, other), other, key);
      OtherMatch(s[0], other, key, RedactKey(AfterValue(s, other), other));
    } else if Opens(s, key) {
      SettledOpening(s, key);
      PassKeeps(AfterValue(s, key), other, key);
      PassKeepsOpening(s[0], AfterValue(s, key), other, key);
    } else {
      SettledFrom(s, key, 1);
      PassKeeps(s[1..], other, key);
      var t := [s[0]] + RedactKey(s[1..], other);
      assert t[1..] == RedactKey(s[1..], other);
      if Opens(t, key) {
        OpensBefore(s, other, key);
      }
      SettledCons(t, key);
    }
  }

  /** After all passes, in whatever order, every value of every plain key is the marker. */
  lemma {:induction false} KeysSettle(s: string, keys: seq<string>, key: string)
    requires (forall k | k in keys :: PlainKey(k)) && PlainKey(key)
    requires key in keys || Settled(s, key)
    ensures Settled(RedactKeys(s, keys), key)
    decreases |keys|
  {
    if keys != [] {
      if keys[0] == key {
        PassSettles(s, key);
      } else if key !in keys[1..] {
        PassKeeps(s, keys[0], key);
      }
      KeysSettle(RedactKey(s, keys[0]), keys[1..], key);
    }
  }

  // ---- what is left standing ---------------------------------------------

  /**
   * From i on, t is s with some stretches replaced by the marker, each allowed
   * by hit, none overlapping another, and everything outside them in place.
   */
  ghost predicate Swaps(s: string, i: nat, t: string, hit: (nat, nat) -> bool)
    decreases |t|
  {
    || (i == |s| && t == [])
    || (i < |s| && t != [] && s[i] == t[0] && Swaps(s, i + 1, t[1..], hit))
    || (i <= |s| && REDACTED <= t && exists j | i <= j <= |s| :: hit(i, j) && Swaps(s, j, t[|REDACTED|..], hit))
  }

  /** The stretches of s that are one of the forms. */
  function FormHit(s: string, forms: seq<Form>): (nat, nat) -> bool {
    (i: nat, j: nat) => i <= j <= |s| && s[i..j] in forms
  }

  /** From i to j, s has the value of a parameter: after a separator, the key and an equals sign, up to a stop. */
  predicate IsValue(s: string, i: nat, j: nat, key: string) {
    && |key| + 2 <= i <= j <= |s|
    && (s[i - |key| - 2] == '?' || s[i - |key| - 2] == '&') && s[i - |key| - 1..i] == key + "="
    && (forall n | i <= n < j :: !Stops(s[n])) && (j < |s| ==> Stops(s[j]))
  }

  function ValueHit(s: string, keys: seq<string>): (nat, nat) -> bool {
    (i: nat, j: nat) => exists key | key in keys :: IsValue(s, i, j, key)
  }

  lemma {:induction false} UntouchedSwaps(s: string, i: nat, hit: (nat, nat) -> bool)
    requires i <= |s|
    ensures Swaps(s, i, s[i..], hit)
    decreases |s| - i
  {
    if i < |s| {
      UntouchedSwaps(s, i + 1, hit);
      assert s[i..][1..] == s[i + 1..];
    }
  }

  lemma {:induction false} CopySwaps(s: string, i: nat, a: string, t: string, hit: (nat, nat) -> bool)
    requires i + |a| <= |s| && s[i..i + |a|] == a && Swaps(s, i + |a|, t, hit)
    ensures Swaps(s, i, a + t, hit)
    decreases |a|
  {
    if a == [] {
      assert a + t == t;
    } else {
      assert s[i + 1..i + 1 + |a[1..]|] == s[i..i + |a|][1..];
      assert s[i] == s[i..i + |a|][0];
      CopySwaps(s, i + 1, a[1..], t, hit);
      assert (a + t)[1..] == a[1..] + t;
    }
  }

  lemma MarkerSwaps(s: string, i: nat, j: nat, t: string, hit: (nat, nat) -> bool)
    requires i <= j <= |s| && hit(i, j) && Swaps(s, j, t, hit)
    ensures Swaps(s, i, REDACTED + t, hit)
  {
    assert (REDACTED + t)[|REDACTED|..] == t;
  }

  /** What opens the result and stands apart from the marker is there in the text. */
  lemma {:induction false} KeptPrefix(s: string, i: nat, t: string, hit: (nat, nat) -> bool, f: string, k: nat)
    requires Swaps(s, i, t, hit) && Apart(f) && k <= |f| && f[k..] <= t && i <= |s|
    ensures i + |f| - k <= |s| && s[i..i + |f| - k] == f[k..] && Swaps(s, i + |f| - k, t[|f| - k..], hit)
    decreases |f| - k
  {
    if k == |f| {
      assert t[0..] == t;
    } else {
      NoMarkerThere(t, f, k);
      assert t[0] == f[k];
      assert f[k + 1..] == f[k..][1..];
      KeptPrefix(s, i + 1, t[1..], hit, f, k + 1);
      assert s[i..i + |f| - k] == [s[i]] + s[i + 1..i + |f| - k] && f[k..] == [f[k]] + f[k + 1..];
      assert t[1..][|f| - k - 1..] == t[|f| - k..];
    }
  }

  lemma NothingInFront(w: string)
    ensures [] + w == w
  {
  }

  lemma OneInFront(a: string, w: string)
    requires a != []
    ensures [a[0]] + (a[1..] + w) == a + w
  {
  }

  lemma NoneInMarker(t: string, f: Form, k: nat)
    requires REDACTED <= t && Apart(f) && k < |REDACTED|
    ensures !(f <= t[k..])
  {
    if f <= t[k..] {
      assert t[k..k + |f|] == t[k..][..|f|] == f;
      NoMarkerBefore(t, k, f);
    }
  }

  /** A replacement goes past a marker it cannot share text with. */
  lemma {:induction false} ReplacePast(t: string, f: Form, k: nat)
    requires REDACTED <= t && Apart(f) && k <= |REDACTED|
    ensures Replace(t[k..], f) == REDACTED[k..] + Replace(t[|REDACTED|..], f)
    decreases |REDACTED| - k
  {
    var rest := Replace(t[|REDACTED|..], f);
    if k == |REDACTED| {
      assert REDACTED[k..] == [];
      NothingInFront(rest);
    } else {
      NoneInMarker(t, f, k);
      ReplacePast(t, f, k + 1);
      assert t[k..][1..] == t[k + 1..] && t[k] == REDACTED[k] && REDACTED[k..][1..] == REDACTED[k + 1..];
      OneInFront(REDACTED[k..], rest);
    }
  }

  /** One more form's pass over a text already swapped. */
  lemma {:induction false} FormSwaps(s: string, i: nat, t: string, hit: (nat, nat) -> bool, f: Form)
    requires Swaps(s, i, t, hit) && i <= |s| && Apart(f)
    requires forall a: nat, b: nat | a <= b <= |s| && s[a..b] == f :: hit(a, b)
    ensures Swaps(s, i, Replace(t, f), hit)
    decreases |t|
  {
    if t == [] {
    } else if f <= t {
      assert f[0..] == f;
      KeptPrefix(s, i, t, hit, f, 0);
      FormSwaps(s, i + |f|, t[|f|..], hit, f);
      MarkerSwaps(s, i, i + |f|, Replace(t[|f|..], f), hit);
    } else if i < |s| && s[i] == t[0] && Swaps(s, i + 1, t[1..], hit) {
      FormSwaps(s, i + 1, t[1..], hit, f);
      assert Replace(t, f)[1..] == Replace(t[1..], f);
    } else {
      var j :| i <= j <= |s| && hit(i, j) && Swaps(s, j, t[|REDACTED|..], hit);
      FormSwaps(s, j, t[|REDACTED|..], hit, f);
      ReplacePast(t, f, 0);
      assert t[0..] == t && REDACTED[0..] == REDACTED;
      MarkerSwaps(s, i, j, Replace(t[|REDACTED|..], f), hit);
    }
  }

  lemma {:induction false} FormsSwap(s: string, t: string, hit: (nat, nat) -> bool, forms: seq<Form>)
    requires Swaps(s, 0, t, hit) && forall f | f in forms :: Apart(f)
    requires forall f, a: nat, b: nat | f in forms && a <= b <= |s| && s[a..b] == f :: hit(a, b)
    ensures Swaps(s, 0, ReplaceForms(t, forms), hit)
    decreases |forms|
  {
    if forms != [] {
      FormSwaps(s, 0, t, hit, forms[0]);
      forall f, a: nat, b: nat | f in forms[1..] && a <= b <= |s| && s[a..b] == f ensures hit(a, b) {
        assert f in forms;
      }
      FormsSwap(s, Replace(t, forms[0]), hit, forms[1..]);
    }
  }

  /** Stretches free of stops. */
  ghost predicate Unstopped(s: string, hit: (nat, nat) -> bool) {
    forall a: nat, b: nat | hit(a, b) :: a <= b <= |s| && forall n | a <= n < b :: !Stops(s[n])
  }

  /** The value that opens a swapped text goes back to a stretch of the text, up to a stop. */
  lemma {:induction false} ValueStretch(s: string, i: nat, v: string, hit: (nat, nat) -> bool) returns (j: nat)
    requires Swaps(s, i, v, hit) && i <= |s| && Unstopped(s, hit)
    ensures i <= j <= |s| && Swaps(s, j, v[ValueLength(v)..], hit)
    ensures (forall n | i <= n < j :: !Stops(s[n])) && (j < |s| ==> Stops(s[j]))
    decreases |v|
  {
    if v == [] || Stops(v[0]) {
      assert v[0..] == v;
      return i;
    }
    if i < |s| && s[i] == v[0] && Swaps(s, i + 1, v[1..], hit) {
      j := ValueStretch(s, i + 1, v[1..], hit);
      assert v[1..][ValueLength(v[1..])..] == v[ValueLength(v)..];
    } else {
      var from :| i <= from <= |s| && hit(i, from) && Swaps(s, from, v[|REDACTED|..], hit);
      j := ValueStretch(s, from, v[|REDACTED|..], hit);
      PastMarkerLength(v);
      assert v[|REDACTED|..][ValueLength(v[|REDACTED|..])..] == v[ValueLength(v)..];
    }
  }

  lemma {:induction false} LengthPast(a: string, s: string)
    requires forall c | c in a :: !Stops(c)
    ensures ValueLength(a + s) == |a| + ValueLength(s)
  {
    if a == [] {
      assert a + s == s;
    } else {
      assert (a + s)[1..] == a[1..] + s;
      LengthPast(a[1..], s);
    }
  }

  lemma PastMarkerLength(v: string)
    requires REDACTED <= v
    ensures ValueLength(v) == |REDACTED| + ValueLength(v[|REDACTED|..])
  {
    assert v == REDACTED + v[|REDACTED|..];
    LengthPast(REDACTED, v[|REDACTED|..]);
  }

  /** One more key's pass over a text already swapped. */
  lemma {:induction false} KeySwaps(s: string, i: nat, t: string, hit: (nat, nat) -> bool, key: string)
    requires Swaps(s, i, t, hit) && i <= |s| && PlainKey(key) && Unstopped(s, hit)
    requires forall a: nat, b: nat | IsValue(s, a, b, key) :: hit(a, b)
    ensures Swaps(s, i, RedactKey(t, key), hit)
    decreases |t|
  {
    if t == [] {
    } else if Opens(t, key) {
      OpeningSwaps(s, i, t, hit, key);
      var j := ValueStretch(s, i + |key| + 2, Value(t, key), hit);
      KeySwaps(s, j, AfterValue(t, key), hit, key);
      ValueSwaps(s, i, j, t[0], RedactKey(AfterValue(t, key), key), hit, key);
    } else if i < |s| && s[i] == t[0] && Swaps(s, i + 1, t[1..], hit) {
      KeySwaps(s, i + 1, t[1..], hit, key);
      assert RedactKey(t, key)[1..] == RedactKey(t[1..], key);
    } else {
      var j :| i <= j <= |s| && hit(i, j) && Swaps(s, j, t[|REDACTED|..], hit);
      KeySwaps(s, j, t[|REDACTED|..], hit, key);
      assert t == REDACTED + t[|REDACTED|..];
      PassesOver(REDACTED, t[|REDACTED|..], key);
      MarkerSwaps(s, i, j, RedactKey(t[|REDACTED|..], key), hit);
    }
  }

  lemma ValueSwaps(s: string, i: nat, j: nat, c: char, w: string, hit: (nat, nat) -> bool, key: string)
    requires i + |key| + 2 <= j <= |s| && Separator(c) && s[i..i + |key| + 2] == [c] + (key + "=")
    requires (forall n | i + |key| + 2 <= n < j :: !Stops(s[n])) && (j < |s| ==> Stops(s[j]))
    requires Swaps(s, j, w, hit) && (IsValue(s, i + |key| + 2, j, key) ==> hit(i + |key| + 2, j))
    ensures Swaps(s, i, [c] + ((key + "=" + REDACTED) + w), hit)
  {
    var from, head := i + |key| + 2, [c] + (key + "=");
    assert s[i] == s[i..from][0] && s[i + 1..from] == s[i..from][1..];
    assert IsValue(s, from, j, key);
    MarkerSwaps(s, from, j, w, hit);
    CopySwaps(s, i, head, REDACTED + w, hit);
    Regrouped(c, key + "=", w);
  }

  lemma Regrouped(c: char, head: string, w: string)
    ensures [c] + ((head + REDACTED) + w) == ([c] + head) + (REDACTED + w)
  {
  }

  /** A key that opens the result opens the text. */
  lemma OpeningSwaps(s: string, i: nat, t: string, hit: (nat, nat) -> bool, key: string)
    requires Swaps(s, i, t, hit) && i <= |s| && PlainKey(key) && Opens(t, key)
    ensures i + |key| + 2 <= |s| && s[i..i + |key| + 2] == [t[0]] + (key + "=")
    ensures Swaps(s, i + |key| + 2, Value(t, key), hit)
  {
    var f := key + "=";
    KeyIsApart(key);
    assert f[0..] == f;
    KeptPrefix(s, i + 1, t[1..], hit, f, 0);
    assert s[i..i + |key| + 2] == [s[i]] + s[i + 1..i + 1 + |f|];
    assert t[1..][|f|..] == Value(t, key);
  }

  lemma {:induction false} KeysSwap(s: string, t: string, hit: (nat, nat) -> bool, keys: seq<string>)
    requires Swaps(s, 0, t, hit) && Unstopped(s, hit) && forall k | k in keys :: PlainKey(k)
    requires forall k, a: nat, b: nat | k in keys && IsValue(s, a, b, k) :: hit(a, b)
    ensures Swaps(s, 0, RedactKeys(t, keys), hit)
    decreases |keys|
  {
    if keys != [] {
      KeySwaps(s, 0, t, hit, keys[0]);
      KeysSwap(s, RedactKey(t, keys[0]), hit, keys[1..]);
    }
  }

  /**
   * out is text with nothing but forms of the secrets replaced, and then with
   * nothing but values of the keys replaced.
   */
  ghost predicate OnlySwapped(text: string, out: string, secrets: seq<Form>, keys: seq<string>) {
    exists mid :: Swaps(text, 0, mid, FormHit(text, AllForms(secrets))) && Swaps(mid, 0, out, ValueHit(mid, keys))
  }

  /** No secret holds a delimiter of the marker or is its word, and every key is plain. */
  ghost predicate Tractable(secrets: set<Form>, keys: set<string>) {
    && (forall s | s in secrets :: OPENING !in s && CLOSING !in s && s != WORD)
    && forall k | k in keys :: PlainKey(k)
  }

  /** Nothing else is touched, in whatever orders the two passes go. */
  lemma ScrubKeepsTheRest(text: string, secrets: seq<Form>, keys: seq<string>)
    requires (forall f | f in AllForms(secrets) :: Apart(f)) && forall k | k in keys :: PlainKey(k)
    ensures OnlySwapped(text, Scrubbed(text, secrets, keys), secrets, keys)
  {
    var forms := AllForms(secrets);
    var mid := ReplaceForms(text, forms);
    UntouchedSwaps(text, 0, FormHit(text, forms));
    assert text[0..] == text;
    FormsSwap(text, text, FormHit(text, forms), forms);
    UntouchedSwaps(mid, 0, ValueHit(mid, keys));
    assert mid[0..] == mid;
    KeysSwap(mid, mid, ValueHit(mid, keys), keys);
  }

  lemma NotYet(a: string, w: string, form: Form)
    requires a != [] && forall i | 0 <= i < |a| :: !At(a + w, i, form)
    ensures Replace(a + w, form) == [a[0]] + Replace(a[1..] + w, form)
    ensures forall i | 0 <= i < |a[1..]| :: !At(a[1..] + w, i, form)
  {
    var s, rest := a + w, a[1..] + w;
    assert s[1..] == rest;
    if form <= s {
      assert At(s, 0, form);
    }
    forall i | 0 <= i < |a[1..]| ensures !At(rest, i, form) {
      assert s[i + 1..][..|rest| - i] == rest[i..];
      if At(rest, i, form) {
        assert s[i + 1..i + 1 + |form|] == rest[i..i + |form|];
        assert At(s, i + 1, form);
      }
    }
  }

  /** Any form at all: the first occurrence is replaced, and then those after it. */
  lemma {:induction false} ReplaceFirst(a: string, form: Form, b: string)
    requires forall i | 0 <= i < |a| :: !At(a + (form + b), i, form)
    ensures Replace(a + (form + b), form) == a + (REDACTED + Replace(b, form))
  {
    var w := form + b;
    if a == [] {
      assert a + w == w && w[|form|..] == b;
      NothingInFront(REDACTED + Replace(b, form));
    } else {
      NotYet(a, w, form);
      ReplaceFirst(a[1..], form, b);
      OneInFront(a, REDACTED + Replace(b, form));
    }
  }

  /** Any key at all: the first value is replaced, up to where it stops, and then those after it. */
  lemma {:induction false} RedactFirst(a: string, c: char, key: string, v: string, b: string)
    requires c == '?' || c == '&'
    requires (forall x | x in v :: !Stops(x)) && (b == [] || Stops(b[0]))
    requires forall i | 0 <= i < |a| :: !Opens((a + ([c] + ((key + "=") + (v + b))))[i..], key)
    ensures RedactKey(a + ([c] + ((key + "=") + (v + b))), key) == a + ([c] + ((key + "=" + REDACTED) + RedactKey(b, key)))
  {
    var tail := [c] + ((key + "=") + (v + b));
    var after := [c] + ((key + "=" + REDACTED) + RedactKey(b, key));
    if a == [] {
      assert a + tail == tail;
      RedactHere(c, key, v, b);
      NothingInFront(after);
    } else {
      NotOpened(a, tail, key);
      RedactFirst(a[1..], c, key, v, b);
      OneInFront(a, after);
    }
  }

  lemma RedactHere(c: char, key: string, v: string, b: string)
    requires Separator(c) && (forall x | x in v :: !Stops(x)) && (b == [] || Stops(b[0]))
    ensures RedactKey([c] + ((key + "=") + (v + b)), key) == [c] + ((key + "=" + REDACTED) + RedactKey(b, key))
  {
    var tail := [c] + ((key + "=") + (v + b));
    assert tail[1..] == (key + "=") + (v + b) && Value(tail, key) == v + b;
    ValueLengthIs(v, b);
    assert (v + b)[|v|..] == b;
  }

  lemma NotOpened(a: string, w: string, key: string)
    requires a != [] && forall i | 0 <= i < |a| :: !Opens((a + w)[i..], key)
    ensures RedactKey(a + w, key) == [a[0]] + RedactKey(a[1..] + w, key)
    ensures forall i | 0 <= i < |a[1..]| :: !Opens((a[1..] + w)[i..], key)
  {
    var s := a + w;
    assert s[0..] == s && s[1..] == a[1..] + w;
    forall i | 0 <= i < |a[1..]| ensures !Opens((a[1..] + w)[i..], key) {
      assert (a[1..] + w)[i..] == s[i + 1..];
    }
  }

  lemma {:induction false} RedactAbsent(s: string, key: string)
    requires forall i | 0 <= i < |s| :: !Opens(s[i..], key)
    ensures RedactKey(s, key) == s
  {
    if s != [] {
      assert s[0..] == s;
      forall i | 0 <= i < |s[1..]| ensures !Opens(s[1..][i..], key) {
        assert s[1..][i..] == s[i + 1..];
      }
      RedactAbsent(s[1..], key);
    }
  }

  // ---- twice is once -----------------------------------------------------

  lemma {:induction false} ReplaceAbsent(s: string, f: Form)
    requires !Occurs(f, s)
    ensures Replace(s, f) == s
    decreases |s|
  {
    if s != [] {
      if f <= s {
        assert At(s, 0, f);
      } else {
        if Occurs(f, s[1..]) {
          OccursTail(f, s);
        }
        ReplaceAbsent(s[1..], f);
      }
    }
  }

  lemma {:induction false} FormsAbsent(s: string, forms: seq<Form>)
    requires forall f | f in forms :: !Occurs(f, s)
    ensures ReplaceForms(s, forms) == s
    decreases |forms|
  {
    if forms != [] {
      ReplaceAbsent(s, forms[0]);
      FormsAbsent(s, forms[1..]);
    }
  }

  lemma {:induction false} SettledIsFixed(s: string, key: string)
    requires Settled(s, key)
    ensures RedactKey(s, key) == s
    decreases |s|
  {
    if s == [] {
    } else if Opens(s, key) {
      SettledOpening(s, key);
      SettledIsFixed(AfterValue(s, key), key);
    } else {
      SettledFrom(s, key, 1);
      SettledIsFixed(s[1..], key);
    }
  }

  lemma {:induction false} KeysFixed(s: string, keys: seq<string>)
    requires forall k | k in keys :: Settled(s, k)
    ensures RedactKeys(s, keys) == s
    decreases |keys|
  {
    if keys != [] {
      SettledIsFixed(s, keys[0]);
      KeysFixed(s, keys[1..]);
    }
  }

  /**
   * Scrubbing scrubbed text changes nothing, even when the second scrub walks
   * its sets in other orders.
   */
  lemma ScrubTwice(text: string, secrets: seq<Form>, keys: seq<string>, secrets': seq<Form>, keys': seq<string>)
    requires forall s | s in secrets :: Registrable(s) && s != WORD
    requires forall k | k in keys :: PlainKey(k)
    requires (forall s | s in secrets' :: s in secrets) && (forall k | k in keys' :: k in keys)
    ensures Scrubbed(Scrubbed(text, secrets, keys), secrets', keys') == Scrubbed(text, secrets, keys)
  {
    var once := Scrubbed(text, secrets, keys);
    CleanExactly(secrets);
    assert Clean(secrets, once);
    FormsAbsent(once, AllForms(secrets'));
    forall k | k in keys' ensures Settled(once, k) {
      KeysSettle(ReplaceForms(text, AllForms(secrets)), keys, k);
    }
    KeysFixed(once, keys');
  }

  // ---- the encoded forms decode ------------------------------------------

  function HexValue(c: char): (d: int)
    ensures d < 16
  {
    if '0' <= c <= '9' then c as int - '0' as int else if 'A' <= c <= 'F' then c as int - 'A' as int + 10 else -1
  }

  /** The bytes of the first n percent triples. */
  function Unpercent(s: string, n: nat): Option<seq<int>> {
    if n == 0 then Some([])
    else if |s| < 3 || s[0] != '%' || HexValue(s[1]) < 0 || HexValue(s[2]) < 0 then None
    else match Unpercent(s[3..], n - 1)
         case None => None
         case Some(rest) => Some([HexValue(s[1]) * 16 + HexValue(s[2])] + rest)
  }

  /** How many bytes a character takes, by its first. */
  function Width(lead: int): (n: nat)
    ensures 1 <= n <= 4
  {
    if lead < 0xC0 then 1 else if lead < 0xE0 then 2 else if lead < 0xF0 then 3 else 4
  }

  function CodePoint(b: seq<int>): int
    requires 1 <= |b| <= 4
  {
    match |b|
    case 1 => b[0]
    case 2 => (b[0] - 0xC0) * 0x40 + (b[1] - 0x80)
    case 3 => (b[0] - 0xE0) * 0x1000 + (b[1] - 0x80) * 0x40 + (b[2] - 0x80)
    case _ => (b[0] - 0xF0) * 0x4_0000 + (b[1] - 0x80) * 0x1000 + (b[2] - 0x80) * 0x40 + (b[3] - 0x80)
  }

  function AsChar(u: int): Option<char> {
    if 0 <= u < 0xD800 || 0xE000 <= u < 0x11_0000 then Some(u as char) else None
  }

  /** unquote, or unquote_plus; None on text neither would decode to characters. */
  function Unquote(s: string, plus: bool): Option<string>
    decreases |s|
  {
    if s == [] then Some([])
    else if s[0] != '%' then
      match Unquote(s[1..], plus)
      case None => None
      case Some(rest) => Some([if plus && s[0] == '+' then ' ' else s[0]] + rest)
    else
      match Unpercent(s, 1)
      case None => None
      case Some(lead) =>
        var n := Width(lead[0]);
        match Unpercent(s, n)
        case None => None
        case Some(bytes) =>
          if |bytes| != n || |s| < 3 * n then None
          else match (AsChar(CodePoint(bytes)), Unquote(s[3 * n..], plus))
               case (Some(c), Some(rest)) => Some([c] + rest)
               case (_, _) => None
  }

  lemma {:induction false} PercentsDecode(bytes: seq<Byte>, n: nat, rest: string)
    requires n <= |bytes|
    ensures Unpercent(Percents(bytes) + rest, n) == Some(bytes[..n])
  {
    if n > 0 {
      var s, tail := Percents(bytes) + rest, Percents(bytes[1..]) + rest;
      assert s == Percent(bytes[0]) + tail && s[3..] == tail;
      PercentsDecode(bytes[1..], n - 1, rest);
      assert bytes[..n] == [bytes[0]] + bytes[1..][..n - 1];
    }
  }

  lemma SixBits(u: nat)
    ensures u == u / 0x40 * 0x40 + u % 0x40 && u / 0x40 / 0x40 == u / 0x1000 && u / 0x1000 / 0x40 == u / 0x4_0000
  {
  }

  lemma CodePointOf(u: nat)
    ensures CodePoint([0xC0 + u / 0x40, 0x80 + u % 0x40]) == u
    ensures CodePoint([0xE0 + u / 0x1000, 0x80 + u / 0x40 % 0x40, 0x80 + u % 0x40]) == u
    ensures CodePoint([0xF0 + u / 0x4_0000, 0x80 + u / 0x1000 % 0x40, 0x80 + u / 0x40 % 0x40, 0x80 + u % 0x40]) == u
  {
    SixBits(u);
    SixBits(u / 0x40);
    SixBits(u / 0x1000);
  }

  lemma Utf8Decodes(c: char)
    ensures Width(Utf8(c)[0]) == |Utf8(c)| && CodePoint(Utf8(c)) == c as int && AsChar(c as int) == Some(c)
  {
    CodePointOf(c as int);
  }

  /** Both encoded forms decode to the secret, so no two secrets share one. */
  lemma {:induction false} QuoteRoundTrip(s: string, plus: bool)
    ensures Unquote(Quote(s, plus), plus) == Some(s)
  {
    if s != [] {
      var c, rest := s[0], Quote(s[1..], plus);
      QuoteRoundTrip(s[1..], plus);
      assert s == [c] + s[1..];
      if plus && c == ' ' {
        assert ("+" + rest)[1..] == rest;
      } else if Unreserved(c) {
        assert ([c] + rest)[1..] == rest;
      } else {
        EncodedDecodes(c, rest, plus);
      }
    }
  }

  /** Quoting goes character by character. */
  lemma {:induction false} QuoteInTwo(a: string, b: string, plus: bool)
    ensures Quote(a + b, plus) == Quote(a, plus) + Quote(b, plus)
  {
    if a == [] {
      assert a + b == b;
    } else {
      assert (a + b)[1..] == a[1..] + b;
      QuoteInTwo(a[1..], b, plus);
    }
  }

  /** What one character becomes. */
  lemma QuoteOne(c: char, plus: bool)
    ensures Quote([c], plus) == [c] <==> Unreserved(c)
    ensures Quote([c], plus) == "+" <==> plus && c == ' '
  {
    assert [c][1..] == [] && Quote([], plus) == [];
    EncodedIsAscii(c);
  }

  lemma EncodedDecodes(c: char, rest: string, plus: bool)
    requires Unquote(rest, plus).Some?
    ensures Unquote(Encoded(c) + rest, plus) == Some([c] + Unquote(rest, plus).value)
  {
    var bytes := Utf8(c);
    Utf8Decodes(c);
    PercentsDecode(bytes, 1, rest);
    PercentsDecode(bytes, |bytes|, rest);
    assert bytes[..|bytes|] == bytes;
    assert (Encoded(c) + rest)[3 * |bytes|..] == rest;
    assert Encoded(c)[0] == '%';
  }

  // ---- the scrubber ------------------------------------------------------

  /** order names, once each, the elements of whole that are no longer to do. */
  ghost predicate Walked<T(!new)>(order: seq<T>, whole: set<T>, todo: set<T>) {
    |order| + |todo| == |whole| && forall x :: x in order <==> x in whole && x !in todo
  }

  /** Taking x next. */
  lemma WalkOn<T(!new)>(order: seq<T>, whole: set<T>, todo: set<T>, x: T)
    requires Walked(order, whole, todo) && x in todo && todo <= whole
    ensures Walked(order + [x], whole, todo - {x}) && todo - {x} <= whole
  {
  }

  ghost predicate Lists<T(!new)>(order: seq<T>, whole: set<T>) { Walked(order, whole, {}) }

  class Scrubber {
    var secrets: set<Form>
    var authKeys: set<string>

    ghost predicate Valid()
      reads this
    {
      forall s | s in secrets :: |s| >= MIN_SCRUBBABLE_LENGTH
    }

    constructor ()
      ensures Valid() && secrets == {} && authKeys == {}
    {
      secrets, authKeys := {}, {};
    }

    /** Short secrets are not registered: replacing them would corrupt unrelated text. */
    method RegisterSecret(value: string)
      requires Valid()
      modifies this`secrets
      ensures Valid()
      ensures secrets == old(secrets) + if |value| >= 8 then {value} else {}
    {
      if |value| >= MIN_SCRUBBABLE_LENGTH {
        secrets := secrets + {value};
      }
    }

    method RegisterAuthKey(key: string)
      modifies this`authKeys
      ensures authKeys == old(authKeys) + if key != [] then {key} else {}
    {
      if key != [] {
        authKeys := authKeys + {key};
      }
    }

    /** Both sets are walked in whatever order they yield their elements. */
    method Scrub(text: string) returns (out: string)
      requires Valid()
      ensures exists ss, ks ::
        && Lists(ss, secrets) && Lists(ks, authKeys) && out == Scrubbed(text, ss, ks)
        && (Tractable(secrets, authKeys) ==> OnlySwapped(text, out, ss, ks))
      ensures (forall s | s in secrets :: OPENING !in s && CLOSING !in s && s != WORD) ==>
        forall s, f | s in secrets && f in Forms(s) :: !Occurs(f, out)
      ensures (forall k | k in authKeys :: PlainKey(k)) ==> forall k | k in authKeys :: Settled(out, k)
    {
      out := text;
      ghost var ss: seq<Form>, ks: seq<string> := [], [];
      var todo := secrets;
      while todo != {}
        invariant todo <= secrets && Walked(ss, secrets, todo)
        invariant out == ReplaceForms(text, AllForms(ss))
        decreases |todo|
      {
        var secret :| secret in todo;
        WalkOn(ss, secrets, todo, secret);
        todo := todo - {secret};
        out := Replace(out, secret);
        out := Replace(out, Quote(secret, false));
        out := Replace(out, Quote(secret, true));
        OneMoreSecret(text, ss, secret);
        ss := ss + [secret];
      }
      ghost var replaced := out;
      var keysTodo := authKeys;
      while keysTodo != {}
        invariant keysTodo <= authKeys && Walked(ks, authKeys, keysTodo)
        invariant out == RedactKeys(replaced, ks)
        decreases |keysTodo|
      {
        var key :| key in keysTodo;
        WalkOn(ks, authKeys, keysTodo, key);
        keysTodo := keysTodo - {key};
        out := RedactKey(out, key);
        OneMoreKey(replaced, ks, key);
        ks := ks + [key];
      }
      ScrubDone(text, out, secrets, authKeys, ss, ks);
    }
  }

  lemma {:induction false} FormsInTwo(s: string, a: seq<Form>, b: seq<Form>)
    ensures ReplaceForms(s, a + b) == ReplaceForms(ReplaceForms(s, a), b)
    decreases |a|
  {
    if a == [] {
      assert a + b == b;
    } else {
      assert (a + b)[1..] == a[1..] + b;
      FormsInTwo(Replace(s, a[0]), a[1..], b);
    }
  }

  lemma {:induction false} AllFormsAppend(secrets: seq<Form>, secret: Form)
    ensures AllForms(secrets + [secret]) == AllForms(secrets) + Forms(secret)
  {
    if secrets == [] {
      assert [secret][1..] == [];
    } else {
      assert (secrets + [secret])[1..] == secrets[1..] + [secret];
      AllFormsAppend(secrets[1..], secret);
    }
  }

  lemma ThreeForms(s: string, a: Form, b: Form, c: Form)
    ensures ReplaceForms(s, [a, b, c]) == Replace(Replace(Replace(s, a), b), c)
  {
    assert [a, b, c][1..] == [b, c] && [b, c][1..] == [c] && [c][1..] == [];
    assert ReplaceForms(s, [a, b, c]) == ReplaceForms(Replace(s, a), [b, c]);
    assert ReplaceForms(Replace(s, a), [b, c]) == ReplaceForms(Replace(Replace(s, a), b), [c]);
  }

  lemma OneMoreSecret(s: string, secrets: seq<Form>, secret: Form)
    ensures ReplaceForms(s, AllForms(secrets + [secret]))
         == Replace(Replace(Replace(ReplaceForms(s, AllForms(secrets)), secret), Quote(secret, false)), Quote(secret, true))
  {
    AllFormsAppend(secrets, secret);
    FormsInTwo(s, AllForms(secrets), Forms(secret));
    ThreeForms(ReplaceForms(s, AllForms(secrets)), secret, Quote(secret, false), Quote(secret, true));
  }

  lemma {:induction false} OneMoreKey(s: string, keys: seq<string>, key: string)
    ensures RedactKeys(s, keys + [key]) == RedactKey(RedactKeys(s, keys), key)
    decreases |keys|
  {
    if keys == [] {
      assert [key][1..] == [];
    } else {
      assert (keys + [key])[1..] == keys[1..] + [key];
      OneMoreKey(RedactKey(s, keys[0]), keys[1..], key);
    }
  }

  lemma WhatScrubbingKeeps(text: string, secrets: seq<Form>, keys: seq<string>)
    requires (forall s | s in secrets :: Registrable(s) && s != WORD) && forall k | k in keys :: PlainKey(k)
    ensures OnlySwapped(text, Scrubbed(text, secrets, keys), secrets, keys)
  {
    forall f | f in AllForms(secrets) ensures Apart(f) {
      var s :| s in secrets && f in Forms(s);
      FormsApart(s);
    }
    ScrubKeepsTheRest(text, secrets, keys);
  }

  lemma ScrubDone(text: string, out: string, secrets: set<Form>, keys: set<string>, ss: seq<Form>, ks: seq<string>)
    requires Lists(ss, secrets) && Lists(ks, keys) && out == Scrubbed(text, ss, ks)
    requires forall s | s in secrets :: |s| >= MIN_SCRUBBABLE_LENGTH
    ensures Tractable(secrets, keys) ==> OnlySwapped(text, out, ss, ks)
    ensures (forall s | s in secrets :: OPENING !in s && CLOSING !in s && s != WORD) ==>
      forall s, f | s in secrets && f in Forms(s) :: !Occurs(f, out)
    ensures (forall k | k in keys :: PlainKey(k)) ==> forall k | k in keys :: Settled(out, k)
  {
    WhatScrubbingDoes(text, ss, ks);
  }

  lemma WhatScrubbingDoes(text: string, secrets: seq<Form>, keys: seq<string>)
    ensures (forall s | s in secrets :: Registrable(s) && s != WORD) ==>
      Clean(secrets, Scrubbed(text, secrets, keys))
    ensures (forall k | k in keys :: PlainKey(k)) ==>
      forall k | k in keys :: Settled(Scrubbed(text, secrets, keys), k)
    ensures (forall s | s in secrets :: Registrable(s) && s != WORD) && (forall k | k in keys :: PlainKey(k)) ==>
      OnlySwapped(text, Scrubbed(text, secrets, keys), secrets, keys)
  {
    if (forall s | s in secrets :: Registrable(s) && s != WORD) && forall k | k in keys :: PlainKey(k) {
      WhatScrubbingKeeps(text, secrets, keys);
    }
    if forall s | s in secrets :: Registrable(s) && s != WORD {
      CleanExactly(secrets);
    }
    if forall k | k in keys :: PlainKey(k) {
      forall k | k in keys ensures Settled(Scrubbed(text, secrets, keys), k) {
        KeysSettle(ReplaceForms(text, AllForms(secrets)), keys, k);
      }
    }
  }
}
