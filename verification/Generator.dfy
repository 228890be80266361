/**
 * The scaffold generator as a small compiler: the text of the tables it emits,
 * a reader of that text, and the emitted dispatch beside the hand-built one.
 */
module Generator {
  import opened Util
  import opened Cursor
  import opened TypeNames

  // ---- Python's repr of a string -----------------------------------------

  function HexDigit(d: nat): char
    requires d < 16
  {
    if d < 10 then '0' + d as char else 'a' + (d - 10) as char
  }

  function HexText(v: nat, width: nat): (s: string)
    ensures |s| == width
  {
    if width == 0 then [] else HexText(v / 16, width - 1) + [HexDigit(v % 16)]
  }

  function HexValue(c: char): Option<nat> {
    if '0' <= c <= '9' then Some(c as int - '0' as int)
    else if 'a' <= c <= 'f' then Some(c as int - 'a' as int + 10)
    else None
  }

  function ReadHex(s: string): Option<nat> {
    if s == [] then Some(0)
    else match (ReadHex(s[..|s| - 1]), HexValue(s[|s| - 1]))
         case (Some(front), Some(d)) => Some(front * 16 + d)
         case (_, _) => None
  }

  function Pow16(n: nat): nat { if n == 0 then 1 else 16 * Pow16(n - 1) }

  lemma {:induction false} HexRoundTrip(v: nat, width: nat)
    requires v < Pow16(width)
    ensures ReadHex(HexText(v, width)) == Some(v)
  {
    if width > 0 {
      HexRoundTrip(v / 16, width - 1);
      assert HexText(v, width)[..width - 1] == HexText(v / 16, width - 1);
    }
  }

  /** Double quotes for a text with an apostrophe and no double quote; single ones otherwise. */
  function QuoteOf(s: string): (q: char)
    ensures q == '\'' || (q == '"' && '\'' in s)
    ensures q in s ==> '\'' in s && '"' in s
  {
    if '\'' in s && '"' !in s then '"' else '\''
  }

  /** How a character is written; wide says which of those beyond ASCII are printable. */
  function Escaped(c: char, quote: char, wide: char -> bool): string {
    var u := c as int;
    if c == quote || c == '\\' then ['\\', c]
    else if c == '\t' then "\\t"
    else if c == '\r' then "\\r"
    else if c == '\n' then "\\n"
    else if 0x20 <= u < 0x7F || (u > 0x7F && wide(c)) then [c]
    else if u < 0x100 then "\\x" + HexText(u, 2)
    else if u < 0x1_0000 then "\\u" + HexText(u, 4)
    else "\\U" + HexText(u, 8)
  }

  function EscapedAll(s: string, quote: char, wide: char -> bool): string {
    if s == [] then [] else Escaped(s[0], quote, wide) + EscapedAll(s[1..], quote, wide)
  }

  function Repr(s: string, wide: char -> bool): string {
    [QuoteOf(s)] + (EscapedAll(s, QuoteOf(s), wide) + [QuoteOf(s)])
  }

  // ---- reading a string literal ------------------------------------------

  function AsChar(u: nat): Option<char> {
    if u < 0xD800 || 0xE000 <= u < 0x11_0000 then Some(u as char) else None
  }

  /** One character of a literal, with how much text it took; None at a line end or a bad escape. */
  function ReadChar(s: string): Option<(char, nat)>
    requires s != []
  {
    if s[0] == '\n' || s[0] == '\r' then None
    else if s[0] != '\\' then Some((s[0], 1))
    else if |s| < 2 then None
    else if s[1] == '\\' || s[1] == '\'' || s[1] == '"' then Some((s[1], 2))
    else if s[1] == 't' then Some(('\t', 2))
    else if s[1] == 'r' then Some(('\r', 2))
    else if s[1] == 'n' then Some(('\n', 2))
    else
      var width := if s[1] == 'x' then 2 else if s[1] == 'u' then 4 else if s[1] == 'U' then 8 else 0;
      if width == 0 || |s| < width + 2 then None
      else match ReadHex(s[2..width + 2])
           case None => None
           case Some(u) => match AsChar(u) case None => None case Some(c) => Some((c, width + 2))
  }

  /** The value up to the closing quote, and what follows it. */
  function ReadBody(s: string, quote: char): Option<(string, string)>
    decreases |s|
  {
    if s == [] then None
    else if s[0] == quote then Some(([], s[1..]))
    else
      match ReadChar(s)
      case None => None
      case Some((c, n)) =>
        if n == 0 || n > |s| then None
        else match ReadBody(s[n..], quote)
             case None => None
             case Some((value, rest)) => Some(([c] + value, rest))
  }

  function ReadString(s: string): Option<(string, string)> {
    if s != [] && (s[0] == '\'' || s[0] == '"') then ReadBody(s[1..], s[0]) else None
  }

  lemma Joined(a: string, b: string, c: string)
    ensures (a + b) + c == a + (b + c)
  {
  }

  lemma Widths()
    ensures Pow16(2) == 0x100 && Pow16(4) == 0x1_0000 && Pow16(8) == 0x1_0000_0000
  {
    assert Pow16(1) == 16 && Pow16(3) == 0x1000;
    assert Pow16(5) == 0x10_0000 && Pow16(6) == 0x100_0000 && Pow16(7) == 0x1000_0000;
  }

  lemma HexEscape(mark: char, u: nat, width: nat, rest: string)
    requires (mark == 'x' && width == 2) || (mark == 'u' && width == 4) || (mark == 'U' && width == 8)
    requires u < Pow16(width) && AsChar(u).Some?
    ensures ReadChar(['\\', mark] + HexText(u, width) + rest) == Some((AsChar(u).value, width + 2))
  {
    var s := ['\\', mark] + HexText(u, width) + rest;
    HexRoundTrip(u, width);
    assert s[2..width + 2] == HexText(u, width);
  }

  /** What is written for a character reads back as it, is no closing quote, and ends no line. */
  lemma CharRoundTrip(c: char, quote: char, wide: char -> bool, rest: string)
    requires quote == '\'' || quote == '"'
    ensures var e := Escaped(c, quote, wide);
            && e != [] && e[0] != quote && ReadChar(e + rest) == Some((c, |e|))
  {
    Widths();
    var u := c as int;
    if |Escaped(c, quote, wide)| > 2 {
      if u < 0x100 {
        HexEscape('x', u, 2, rest);
        assert "\\x" == ['\\', 'x'];
      } else if u < 0x1_0000 {
        HexEscape('u', u, 4, rest);
        assert "\\u" == ['\\', 'u'];
      } else {
        HexEscape('U', u, 8, rest);
        assert "\\U" == ['\\', 'U'];
      }
    }
  }

  lemma ReadsOn(c: char, e: string, more: string, quote: char)
    requires e != [] && e[0] != quote && ReadChar(e + more) == Some((c, |e|)) && ReadBody(more, quote).Some?
    ensures var (value, rest) := ReadBody(more, quote).value;
            ReadBody(e + more, quote) == Some(([c] + value, rest))
  {
    assert (e + more)[|e|..] == more && (e + more)[0] == e[0];
  }

  lemma {:induction false} BodyRoundTrip(s: string, quote: char, wide: char -> bool, rest: string)
    requires quote == '\'' || quote == '"'
    ensures ReadBody(EscapedAll(s, quote, wide) + ([quote] + rest), quote) == Some((s, rest))
  {
    if s == [] {
      assert EscapedAll(s, quote, wide) + ([quote] + rest) == [quote] + rest;
    } else {
      var e, after := Escaped(s[0], quote, wide), EscapedAll(s[1..], quote, wide);
      Joined(e, after, [quote] + rest);
      CharRoundTrip(s[0], quote, wide, after + ([quote] + rest));
      BodyRoundTrip(s[1..], quote, wide, rest);
      ReadsOn(s[0], e, after + ([quote] + rest), quote);
      assert s == [s[0]] + s[1..];
    }
  }

  lemma ReadsQuoted(quote: char, body: string)
    requires quote == '\'' || quote == '"'
    ensures ReadString([quote] + body) == ReadBody(body, quote)
  {
    assert ([quote] + body)[1..] == body;
  }

  /** Every string's literal reads back as the string, whatever follows it. */
  lemma StringRoundTrip(s: string, wide: char -> bool, rest: string)
    ensures ReadString(Repr(s, wide) + rest) == Some((s, rest))
  {
    var q := QuoteOf(s);
    var escaped := EscapedAll(s, q, wide);
    BodyRoundTrip(s, q, wide, rest);
    Joined([q], escaped + [q], rest);
    Joined(escaped, [q], rest);
    ReadsQuoted(q, escaped + ([q] + rest));
  }

  predicate OneLine(s: string) { '\n' !in s && '\r' !in s }

  lemma {:induction false} HexIsOneLine(v: nat, width: nat)
    ensures OneLine(HexText(v, width))
  {
    if width > 0 {
      HexIsOneLine(v / 16, width - 1);
    }
  }

  lemma EscapedIsOneLine(c: char, quote: char, wide: char -> bool)
    requires quote == '\'' || quote == '"'
    ensures OneLine(Escaped(c, quote, wide))
  {
    var u := c as int;
    HexIsOneLine(u, 2);
    HexIsOneLine(u, 4);
    HexIsOneLine(u, 8);
  }

  lemma {:induction false} ReprIsOneLine(s: string, quote: char, wide: char -> bool)
    requires quote == '\'' || quote == '"'
    ensures OneLine(EscapedAll(s, quote, wide))
  {
    if s != [] {
      EscapedIsOneLine(s[0], quote, wide);
      ReprIsOneLine(s[1..], quote, wide);
    }
  }

  // ---- dict literals -----------------------------------------------------

  /** A dict of texts, in its own order. */
  type Table = seq<(string, string)>

  function ReprItem(item: (string, string), wide: char -> bool): string {
    Repr(item.0, wide) + (": " + Repr(item.1, wide))
  }

  function ReprItems(t: Table, wide: char -> bool): string {
    if t == [] then "}"
    else ReprItem(t[0], wide) + (if |t| == 1 then "}" else ", " + ReprItems(t[1..], wide))
  }

  function ReprDict(t: Table, wide: char -> bool): string { "{" + ReprItems(t, wide) }

  /** What follows a prefix. */
  function After(s: string, prefix: string): Option<string> {
    if StartsWith(s, prefix) then Some(s[|prefix|..]) else None
  }

  function ReadItem(s: string): Option<((string, string), string)> {
    match ReadString(s)
    case None => None
    case Some((key, rest)) =>
      match After(rest, ": ")
      case None => None
      case Some(rest) => match ReadString(rest) case None => None case Some((value, rest)) => Some(((key, value), rest))
  }

  /** Items up to the closing brace. */
  function ReadItems(s: string): Option<(Table, string)>
    decreases |s|
  {
    match ReadItem(s)
    case None => None
    case Some((item, rest)) =>
      if StartsWith(rest, "}") then Some(([item], rest[1..]))
      else if !StartsWith(rest, ", ") || |rest| > |s| then None
      else match ReadItems(rest[2..])
           case None => None
           case Some((items, rest)) => Some(([item] + items, rest))
  }

  function ReadDict(s: string): Option<(Table, string)> {
    match After(s, "{")
    case None => None
    case Some(rest) => if StartsWith(rest, "}") then Some(([], rest[1..])) else ReadItems(rest)
  }

  lemma PrefixAfter(prefix: string, rest: string)
    ensures StartsWith(prefix + rest, prefix) && After(prefix + rest, prefix) == Some(rest)
  {
  }

  lemma ItemRoundTrip(item: (string, string), wide: char -> bool, rest: string)
    ensures ReadItem(ReprItem(item, wide) + rest) == Some((item, rest))
  {
    var value := Repr(item.1, wide);
    Joined(Repr(item.0, wide), ": " + value, rest);
    Joined(": ", value, rest);
    StringRoundTrip(item.0, wide, ": " + (value + rest));
    PrefixAfter(": ", value + rest);
    StringRoundTrip(item.1, wide, rest);
  }

  lemma ReadsLast(item: (string, string), text: string, rest: string)
    requires ReadItem(text + ("}" + rest)) == Some((item, "}" + rest))
    ensures ReadItems(text + ("}" + rest)) == Some(([item], rest))
  {
    PrefixAfter("}", rest);
    assert ("}" + rest)[1..] == rest;
  }

  lemma ReadsMore(item: (string, string), text: string, more: string)
    requires ReadItem(text + (", " + more)) == Some((item, ", " + more)) && ReadItems(more).Some?
    ensures ReadItems(text + (", " + more)) == Some(([item] + ReadItems(more).value.0, ReadItems(more).value.1))
  {
    PrefixAfter(", ", more);
    assert (", " + more)[0] == ',' && (", " + more)[2..] == more;
  }

  lemma LastRoundTrip(item: (string, string), wide: char -> bool, rest: string)
    ensures ReadItems(ReprItem(item, wide) + "}" + rest) == Some(([item], rest))
  {
    Joined(ReprItem(item, wide), "}", rest);
    ItemRoundTrip(item, wide, "}" + rest);
    ReadsLast(item, ReprItem(item, wide), rest);
  }

  lemma NextRoundTrip(item: (string, string), wide: char -> bool, more: string, rest: string)
    requires ReadItems(more + rest).Some?
    ensures var (items, end) := ReadItems(more + rest).value;
            ReadItems(ReprItem(item, wide) + (", " + more) + rest) == Some(([item] + items, end))
  {
    Joined(ReprItem(item, wide), ", " + more, rest);
    Joined(", ", more, rest);
    ItemRoundTrip(item, wide, ", " + (more + rest));
    ReadsMore(item, ReprItem(item, wide), more + rest);
  }

  lemma {:induction false} ItemsRoundTrip(t: Table, wide: char -> bool, rest: string)
    requires t != []
    ensures ReadItems(ReprItems(t, wide) + rest) == Some((t, rest))
  {
    if |t| == 1 {
      LastRoundTrip(t[0], wide, rest);
      assert t == [t[0]];
    } else {
      ItemsRoundTrip(t[1..], wide, rest);
      NextRoundTrip(t[0], wide, ReprItems(t[1..], wide), rest);
      assert t == [t[0]] + t[1..];
    }
  }

  lemma ItemsDoNotClose(t: Table, wide: char -> bool, rest: string)
    requires t != []
    ensures !StartsWith(ReprItems(t, wide) + rest, "}")
  {
    assert (ReprItems(t, wide) + rest)[0] == QuoteOf(t[0].0);
  }

  /** Every dict's literal reads back as the dict, in order. */
  lemma DictRoundTrip(t: Table, wide: char -> bool, rest: string)
    ensures ReadDict(ReprDict(t, wide) + rest) == Some((t, rest))
  {
    Joined("{", ReprItems(t, wide), rest);
    PrefixAfter("{", ReprItems(t, wide) + rest);
    if t == [] {
      PrefixAfter("}", rest);
      assert ("}" + rest)[1..] == rest;
    } else {
      ItemsDoNotClose(t, wide, rest);
      ItemsRoundTrip(t, wide, rest);
    }
  }

  /** No literal, whatever it holds, breaks the line it is emitted on: removing the template's indent leaves it be. */
  lemma LiteralsAreOneLine(s: string, t: Table, wide: char -> bool)
    ensures OneLine(Repr(s, wide)) && OneLine(ReprDict(t, wide))
  {
    ReprIsOneLine(s, QuoteOf(s), wide);
    ItemsAreOneLine(t, wide);
  }

  lemma JoinedIsOneLine(a: string, b: string)
    requires OneLine(a) && OneLine(b)
    ensures OneLine(a + b)
  {
  }

  lemma ItemIsOneLine(item: (string, string), wide: char -> bool)
    ensures OneLine(ReprItem(item, wide))
  {
    ReprIsOneLine(item.0, QuoteOf(item.0), wide);
    ReprIsOneLine(item.1, QuoteOf(item.1), wide);
    JoinedIsOneLine(": ", Repr(item.1, wide));
    JoinedIsOneLine(Repr(item.0, wide), ": " + Repr(item.1, wide));
  }

  lemma {:induction false} ItemsAreOneLine(t: Table, wide: char -> bool)
    ensures OneLine(ReprItems(t, wide))
  {
    if t != [] {
      ItemIsOneLine(t[0], wide);
      ItemsAreOneLine(t[1..], wide);
      JoinedIsOneLine(", ", ReprItems(t[1..], wide));
      JoinedIsOneLine(ReprItem(t[0], wide), ", " + ReprItems(t[1..], wide));
      JoinedIsOneLine(ReprItem(t[0], wide), "}");
    }
  }

  // ---- the emitted tables ------------------------------------------------

  /** What the generator takes from a source's spec. */
  datatype Spec = Spec(typeMap: Table, coercerMap: Table, arrayDtype: string, unknownDtype: string, arrayCoercer: string)

  const TYPE_MAP := "TYPE_MAP: dict[str, str] = "
  const COERCER_MAP := "\nCOERCER_MAP: dict[str, str] = "
  const ARRAY_DTYPE := "\nARRAY_DTYPE = "
  const UNKNOWN_DTYPE := "\nUNKNOWN_DTYPE = "
  const ARRAY_COERCER := "\nARRAY_COERCER = "

  function EmitDict(name: string, t: Table, wide: char -> bool, rest: string): string {
    name + (ReprDict(t, wide) + rest)
  }

  function EmitText(name: string, s: string, wide: char -> bool, rest: string): string {
    name + (Repr(s, wide) + rest)
  }

  /** The five assignments of the emitted module, and the rest of it. */
  function EmitTables(spec: Spec, wide: char -> bool, rest: string): string {
    EmitDict(TYPE_MAP, spec.typeMap, wide,
      EmitDict(COERCER_MAP, spec.coercerMap, wide,
        EmitText(ARRAY_DTYPE, spec.arrayDtype, wide,
          EmitText(UNKNOWN_DTYPE, spec.unknownDtype, wide,
            EmitText(ARRAY_COERCER, spec.arrayCoercer, wide, rest)))))
  }

  function AssignedDict(text: string, name: string): Option<(Table, string)> {
    match After(text, name) case None => None case Some(value) => ReadDict(value)
  }

  function AssignedText(text: string, name: string): Option<(string, string)> {
    match After(text, name) case None => None case Some(value) => ReadString(value)
  }

  /** What the five assignments assign, and what follows them. */
  function ReadTables(text: string): Option<(Spec, string)> {
    match AssignedDict(text, TYPE_MAP)
    case None => None
    case Some((types, text)) =>
      match AssignedDict(text, COERCER_MAP)
      case None => None
      case Some((coercers, text)) =>
        match AssignedText(text, ARRAY_DTYPE)
        case None => None
        case Some((a, text)) =>
          match AssignedText(text, UNKNOWN_DTYPE)
          case None => None
          case Some((u, text)) =>
            match AssignedText(text, ARRAY_COERCER)
            case None => None
            case Some((c, text)) => Some((Spec(types, coercers, a, u, c), text))
  }

  lemma DictAssigned(name: string, t: Table, wide: char -> bool, rest: string)
    ensures AssignedDict(EmitDict(name, t, wide, rest), name) == Some((t, rest))
  {
    PrefixAfter(name, ReprDict(t, wide) + rest);
    DictRoundTrip(t, wide, rest);
  }

  lemma TextAssigned(name: string, s: string, wide: char -> bool, rest: string)
    ensures AssignedText(EmitText(name, s, wide, rest), name) == Some((s, rest))
  {
    PrefixAfter(name, Repr(s, wide) + rest);
    StringRoundTrip(s, wide, rest);
  }

  /** Reading the emitted tables gives back the spec's, for every text in them. */
  lemma TablesRoundTrip(spec: Spec, wide: char -> bool, rest: string)
    ensures ReadTables(EmitTables(spec, wide, rest)) == Some((spec, rest))
  {
    var last := EmitText(ARRAY_COERCER, spec.arrayCoercer, wide, rest);
    var texts := EmitText(UNKNOWN_DTYPE, spec.unknownDtype, wide, last);
    var more := EmitText(ARRAY_DTYPE, spec.arrayDtype, wide, texts);
    DictAssigned(TYPE_MAP, spec.typeMap, wide, EmitDict(COERCER_MAP, spec.coercerMap, wide, more));
    DictAssigned(COERCER_MAP, spec.coercerMap, wide, more);
    TextAssigned(ARRAY_DTYPE, spec.arrayDtype, wide, texts);
    TextAssigned(UNKNOWN_DTYPE, spec.unknownDtype, wide, last);
    TextAssigned(ARRAY_COERCER, spec.arrayCoercer, wide, rest);
  }

  // ---- dispatch ----------------------------------------------------------

  /** None, a float that is not a number, or any other value. */
  datatype Value = Nothing | NotANumber | Present(id: int)

  /** A coercer gives a value or raises an error of its own. */
  type Coercer = Value -> Result<Value, int>

  /** The canonical coercers by key, and str(). */
  datatype Registry = Registry(coercers: map<string, Coercer>, text: Coercer)

  datatype Outcome = Gives(value: Value) | Raises(error: int) | KeyError | ValueError

  /** What a dict binds the key to; the last binding wins. */
  function Find(t: Table, key: string): Option<string> {
    if t == [] then None
    else if Find(t[1..], key).Some? then Find(t[1..], key)
    else if t[0].0 == key then Some(t[0].1)
    else None
  }

  /** The i-th pair binds the key, and none after it does. */
  predicate BindsLast(t: Table, key: string, i: nat) {
    i < |t| && t[i].0 == key && forall j | i < j < |t| :: t[j].0 != key
  }

  lemma {:induction false} FindExactly(t: Table, key: string)
    ensures Find(t, key).None? <==> forall i | 0 <= i < |t| :: t[i].0 != key
    ensures forall i: nat | BindsLast(t, key, i) :: Find(t, key) == Some(t[i].1)
  {
    if t != [] {
      var rest := t[1..];
      FindExactly(rest, key);
      assert forall i | 0 < i < |t| :: t[i] == rest[i - 1];
      if Find(rest, key).Some? {
        var k :| 0 <= k < |rest| && rest[k].0 == key;
        assert t[k + 1].0 == key;
      }
      forall i: nat | BindsLast(t, key, i) ensures Find(t, key) == Some(t[i].1) {
        if i > 0 {
          assert BindsLast(rest, key, i - 1);
        }
      }
    }
  }

  function FindOr(t: Table, key: string, default: string): string {
    match Find(t, key) case None => default case Some(found) => found
  }

  function Called(f: Coercer, v: Value): Outcome { match f(v) case Ok(w) => Gives(w) case Err(e) => Raises(e) }

  /** Each module has its own copy of the normaliser; this is the hand-built driver's target dtype. */
  function HandDtype(norm: string -> string, types: Table, source: string): string {
    if IsArray(norm(source)) then "string"
    else match Find(types, norm(source)) case Some(dtype) => dtype case None => "string"
  }

  /** The hand-built driver's coercion: it indexes the registry. */
  function HandCoerce(norm: string -> string, reg: Registry, coercers: Table, v: Value, source: string): Outcome {
    if v.Nothing? || v.NotANumber? then Gives(Nothing)
    else if IsArray(norm(source)) then Indexed(reg, "array", v)
    else
      match Find(coercers, norm(source))
      case None => Called(reg.text, v)
      case Some(key) => Indexed(reg, key, v)
  }

  function Indexed(reg: Registry, key: string, v: Value): Outcome {
    if key in reg.coercers then Called(reg.coercers[key], v) else KeyError
  }

  /** The emitted module's target dtype, by the tables assigned in it. */
  function EmittedDtype(norm: string -> string, spec: Spec, source: string): string {
    if IsArray(norm(source)) then spec.arrayDtype
    else FindOr(spec.typeMap, norm(source), spec.unknownDtype)
  }

  /** The emitted module's coercion: it asks the registry, and checks the answer. */
  function EmittedCoerce(norm: string -> string, reg: Registry, spec: Spec, v: Value, source: string): Outcome {
    if v.Nothing? || v.NotANumber? then Gives(Nothing)
    else if IsArray(norm(source)) then Asked(reg, spec.arrayCoercer, v)
    else
      match Find(spec.coercerMap, norm(source))
      case None => Called(reg.text, v)
      case Some(key) => Asked(reg, key, v)
  }

  function Asked(reg: Registry, key: string, v: Value): Outcome {
    if key !in reg.coercers then ValueError else Called(reg.coercers[key], v)
  }

  function Letters(k: nat): string { seq(k, i => 'a') }

  /** A normaliser's names: it gives only such names and keeps each one; "[]" and any run of letters is one. */
  ghost predicate Normalizes(norm: string -> string, normal: string -> bool) {
    && (forall s :: normal(norm(s)))
    && (forall n | normal(n) :: norm(n) == n)
    && normal("[]") && forall k: nat :: normal(Letters(k))
  }

  lemma GivesNormal()
    ensures forall s :: Normal(Normalize(s))
  {
    forall s ensures Normal(Normalize(s)) {
      NormalizeIsNormal(s);
    }
  }

  lemma KeepsNormal()
    ensures forall n | Normal(n) :: Normalize(n) == n
  {
    forall n | Normal(n) ensures Normalize(n) == n {
      NormalIsFixed(n);
    }
  }

  lemma {:induction false} LettersAreNormal(k: nat)
    ensures Normal(Letters(k))
  {
    var s := Letters(k);
    assert forall c | c in s :: c == 'a';
    if k > 0 {
      LettersAreNormal(k - 1);
      assert s[1..] == Letters(k - 1);
    }
  }

  lemma NormalizeNormalizes()
    ensures Normalizes(Normalize, Normal)
  {
    GivesNormal();
    KeepsNormal();
    ArrayOfNothing();
    forall k: nat ensures Normal(Letters(k)) {
      LettersAreNormal(k);
    }
  }

  lemma LettersAreNoArray(k: nat)
    ensures !IsArray(Letters(k))
  {
    if k >= 2 {
      assert Letters(k)[k - 2..][1] == 'a';
    }
  }

  function Longest(t: Table): (k: nat)
    ensures forall i | 0 <= i < |t| :: |t[i].0| <= k
  {
    if t == [] then 0
    else var k := Longest(t[1..]); if |t[0].0| > k then |t[0].0| else k
  }

  lemma {:induction false} LongIsUnbound(t: Table, name: string)
    requires forall i | 0 <= i < |t| :: |t[i].0| < |name|
    ensures Find(t, name) == None
  {
    if t != [] {
      LongIsUnbound(t[1..], name);
    }
  }

  /** No two tables bind every name. */
  lemma UnboundName(a: Table, b: Table) returns (k: nat)
    ensures Find(a, Letters(k)) == None && Find(b, Letters(k)) == None
  {
    k := 1 + Longest(a) + Longest(b);
    LongIsUnbound(a, Letters(k));
    LongIsUnbound(b, Letters(k));
  }

  lemma ArrayDtypesAgree(norm: string -> string, types: Table, spec: Spec)
    requires norm("[]") == "[]" && HandDtype(norm, types, "[]") == EmittedDtype(norm, spec, "[]")
    ensures spec.arrayDtype == "string"
  {
  }

  lemma NamedDtypesAgree(norm: string -> string, types: Table, spec: Spec, n: string)
    requires norm(n) == n && !IsArray(n) && HandDtype(norm, types, n) == EmittedDtype(norm, spec, n)
    ensures FindOr(types, n, "string") == FindOr(spec.typeMap, n, spec.unknownDtype)
  {
  }

  lemma DtypesAgree(norm: string -> string, types: Table, spec: Spec, s: string)
    requires spec.arrayDtype == "string"
    requires !IsArray(norm(s)) ==>
      FindOr(types, norm(s), "string") == FindOr(spec.typeMap, norm(s), spec.unknownDtype)
    ensures HandDtype(norm, types, s) == EmittedDtype(norm, spec, s)
  {
  }

  lemma UnboundDtypesAgree(norm: string -> string, normal: string -> bool, types: Table, spec: Spec)
    requires Normalizes(norm, normal) && forall s :: HandDtype(norm, types, s) == EmittedDtype(norm, spec, s)
    ensures spec.unknownDtype == "string"
  {
    var k := UnboundName(types, spec.typeMap);
    LettersAreNoArray(k);
    assert normal(Letters(k));
    NamedDtypesAgree(norm, types, spec, Letters(k));
  }

  /** Each name that either table binds has the same dtype in both, where a name not bound is a string. */
  ghost predicate SameDtypes(normal: string -> bool, types: Table, typeMap: Table) {
    forall n | normal(n) && !IsArray(n) && (Find(types, n).Some? || Find(typeMap, n).Some?) ::
      FindOr(types, n, "string") == FindOr(typeMap, n, "string")
  }

  /**
   * The two dtypes agree on every type string exactly when arrays, unknown
   * types, and each name that either table binds get the same one.
   */
  lemma DtypeAgreesExactly(norm: string -> string, normal: string -> bool, types: Table, spec: Spec)
    requires Normalizes(norm, normal)
    ensures (forall s :: HandDtype(norm, types, s) == EmittedDtype(norm, spec, s))
       <==> (&& spec.arrayDtype == "string" && spec.unknownDtype == "string"
             && SameDtypes(normal, types, spec.typeMap))
  {
    if forall s :: HandDtype(norm, types, s) == EmittedDtype(norm, spec, s) {
      ArrayDtypesAgree(norm, types, spec);
      UnboundDtypesAgree(norm, normal, types, spec);
      forall n | normal(n) && !IsArray(n) ensures FindOr(types, n, "string") == FindOr(spec.typeMap, n, "string") {
        NamedDtypesAgree(norm, types, spec, n);
      }
    }
    if spec.arrayDtype == "string" && spec.unknownDtype == "string" && SameDtypes(normal, types, spec.typeMap) {
      forall s ensures HandDtype(norm, types, s) == EmittedDtype(norm, spec, s) {
        assert normal(norm(s));
        DtypesAgree(norm, types, spec, s);
      }
    }
  }

  ghost predicate SameCoercer(f: Coercer, g: Coercer) { forall id :: f(Present(id)) == g(Present(id)) }

  /** The registry holds the key, if one is named. */
  predicate Known(reg: Registry, key: Option<string>) { key.Some? ==> key.value in reg.coercers }

  /** The coercer of that key, or str() when none is named. */
  function CoercerOf(reg: Registry, key: Option<string>): Coercer
    requires Known(reg, key)
  {
    match key case None => reg.text case Some(k) => reg.coercers[k]
  }

  /** Two handlings of a name: nothing missing from the registry, and the same coercion of every present value. */
  ghost predicate Alike(reg: Registry, hand: Option<string>, emitted: Option<string>) {
    Known(reg, hand) && Known(reg, emitted) && SameCoercer(CoercerOf(reg, hand), CoercerOf(reg, emitted))
  }

  function ByHand(reg: Registry, key: Option<string>, v: Value): Outcome {
    match key case None => Called(reg.text, v) case Some(k) => Indexed(reg, k, v)
  }

  function ByTables(reg: Registry, key: Option<string>, v: Value): Outcome {
    match key case None => Called(reg.text, v) case Some(k) => Asked(reg, k, v)
  }

  lemma AlikeExactly(reg: Registry, hand: Option<string>, emitted: Option<string>)
    ensures Alike(reg, hand, emitted)
       <==> forall id :: ByHand(reg, hand, Present(id)) == ByTables(reg, emitted, Present(id))
  {
    if forall id :: ByHand(reg, hand, Present(id)) == ByTables(reg, emitted, Present(id)) {
      assert ByHand(reg, hand, Present(0)) == ByTables(reg, emitted, Present(0));
      forall id ensures CoercerOf(reg, hand)(Present(id)) == CoercerOf(reg, emitted)(Present(id)) {
        assert ByHand(reg, hand, Present(id)) == ByTables(reg, emitted, Present(id));
      }
    } else if Alike(reg, hand, emitted) {
      var id :| ByHand(reg, hand, Present(id)) != ByTables(reg, emitted, Present(id));
      assert CoercerOf(reg, hand)(Present(id)) == CoercerOf(reg, emitted)(Present(id));
    }
  }

  /** The key a type's values are coerced by; None for str(). */
  function KeyFor(coercers: Table, arrayKey: string, name: string): Option<string> {
    if IsArray(name) then Some(arrayKey) else Find(coercers, name)
  }

  /**
   * The two coercions agree on every value and type string exactly when their
   * handlings of each name are alike; a key the registry lacks raises one
   * error by hand and another in the emitted module.
   */
  lemma CoerceAgreesExactly(
      norm: string -> string, normal: string -> bool, reg: Registry, coercers: Table, spec: Spec)
    requires Normalizes(norm, normal)
    ensures (forall v, s :: HandCoerce(norm, reg, coercers, v, s) == EmittedCoerce(norm, reg, spec, v, s))
       <==> (forall n | normal(n) ::
               Alike(reg, KeyFor(coercers, "array", n), KeyFor(spec.coercerMap, spec.arrayCoercer, n)))
  {
    if forall v, s :: HandCoerce(norm, reg, coercers, v, s) == EmittedCoerce(norm, reg, spec, v, s) {
      forall n | normal(n)
        ensures Alike(reg, KeyFor(coercers, "array", n), KeyFor(spec.coercerMap, spec.arrayCoercer, n))
      {
        var hand, emitted := KeyFor(coercers, "array", n), KeyFor(spec.coercerMap, spec.arrayCoercer, n);
        forall id ensures ByHand(reg, hand, Present(id)) == ByTables(reg, emitted, Present(id)) {
          assert HandCoerce(norm, reg, coercers, Present(id), n) == EmittedCoerce(norm, reg, spec, Present(id), n);
        }
        AlikeExactly(reg, hand, emitted);
      }
    } else {
      var v, s :| HandCoerce(norm, reg, coercers, v, s) != EmittedCoerce(norm, reg, spec, v, s);
      var hand, emitted := KeyFor(coercers, "array", norm(s)), KeyFor(spec.coercerMap, spec.arrayCoercer, norm(s));
      AlikeExactly(reg, hand, emitted);
      assert normal(norm(s)) && v == Present(v.id);
      assert ByHand(reg, hand, Present(v.id)) != ByTables(reg, emitted, Present(v.id));
    }
  }

  /** The Postgres spec: the driver's own tables. */
  function PostgresSpec(types: Table, coercers: Table): Spec { Spec(types, coercers, "string", "string", "array") }

  /** A registry that has every key the driver can ask it for; a key bound to a name never asked for does not matter. */
  ghost predicate Complete(normal: string -> bool, reg: Registry, coercers: Table) {
    && "array" in reg.coercers
    && forall n | normal(n) && !IsArray(n) && Find(coercers, n).Some? :: Find(coercers, n).value in reg.coercers
  }

  lemma CompleteExactly(normal: string -> bool, reg: Registry, coercers: Table)
    requires normal("[]")
    ensures Complete(normal, reg, coercers)
       <==> forall n | normal(n) :: Known(reg, KeyFor(coercers, "array", n))
  {
    assert IsArray("[]");
    if forall n | normal(n) :: Known(reg, KeyFor(coercers, "array", n)) {
      assert Known(reg, KeyFor(coercers, "array", "[]"));
      forall n | normal(n) && !IsArray(n) && Find(coercers, n).Some? ensures Find(coercers, n).value in reg.coercers {
        assert Known(reg, KeyFor(coercers, "array", n));
      }
    }
  }

  lemma AlikeItself(reg: Registry, key: Option<string>)
    ensures Alike(reg, key, key) <==> Known(reg, key)
  {
  }

  lemma OwnCoercionAgrees(
      norm: string -> string, normal: string -> bool, types: Table, coercers: Table, reg: Registry)
    requires Normalizes(norm, normal)
    ensures var spec := PostgresSpec(types, coercers);
            ((forall v, s :: HandCoerce(norm, reg, coercers, v, s) == EmittedCoerce(norm, reg, spec, v, s))
             <==> Complete(normal, reg, coercers))
  {
    CoerceAgreesExactly(norm, normal, reg, coercers, PostgresSpec(types, coercers));
    forall n ensures Alike(reg, KeyFor(coercers, "array", n), KeyFor(coercers, "array", n))
                <==> Known(reg, KeyFor(coercers, "array", n))
    {
      AlikeItself(reg, KeyFor(coercers, "array", n));
    }
    CompleteExactly(normal, reg, coercers);
  }

  /**
   * Self-regeneration: the module emitted for the Postgres spec assigns the
   * driver's own tables, gives every type string its dtype, and coerces every
   * value alike if and only if the registry has each key it can be asked for.
   */
  lemma RegenerationPreserves(types: Table, coercers: Table, reg: Registry, wide: char -> bool, rest: string)
    ensures var read := ReadTables(EmitTables(PostgresSpec(types, coercers), wide, rest));
            && read.Some?
            && (forall s :: HandDtype(Normalize, types, s) == EmittedDtype(Normalize, read.value.0, s))
            && ((forall v, s :: HandCoerce(Normalize, reg, coercers, v, s)
                             == EmittedCoerce(Normalize, reg, read.value.0, v, s))
                <==> Complete(Normal, reg, coercers))
  {
    TablesRoundTrip(PostgresSpec(types, coercers), wide, rest);
    NormalizeNormalizes();
    DtypeAgreesExactly(Normalize, Normal, types, PostgresSpec(types, coercers));
    OwnCoercionAgrees(Normalize, Normal, types, coercers, reg);
  }
}
