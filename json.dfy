/** The part of Python's `json` module that the index files go through:
    `json.dumps` with its default settings (ensure_ascii, separators ", " and
    ": ") applied to flat dicts whose values are `str` or `int`, and
    `json.loads` applied to one line of such text. The decoder follows the
    strict scanner of CPython's json: raw control characters inside a string
    are refused, whitespace is space, tab, line feed and carriage return, a
    key given twice keeps its first place and takes the last value. */
module Json {
  import opened Wrappers

  datatype Value = Str(s: string) | Int(i: int)

  /** A Python dict of str keys, in insertion order */
  type Object = seq<(string, Value)>

  function Keys(o: Object): set<string> {
    set i | 0 <= i < |o| :: o[i].0
  }

  lemma KeysCons(m: (string, Value), o: Object)
    ensures Keys([m] + o) == {m.0} + Keys(o)
  {
    var s := [m] + o;
    forall k | k in Keys(o) ensures k in Keys(s) {
      var i :| 0 <= i < |o| && o[i].0 == k;
      assert s[i + 1] == o[i];
    }
    assert s[0] == m;
  }

  predicate DistinctKeys(o: Object) {
    forall i, j :: 0 <= i < j < |o| ==> o[i].0 != o[j].0
  }

  /** `d.get(k)` */
  function Get(o: Object, k: string): (r: Option<Value>)
    ensures r.Some? <==> k in Keys(o)
  {
    if o == [] then None
    else if o[0].0 == k then Some(o[0].1)
    else
      KeysCons(o[0], o[1..]);
      assert [o[0]] + o[1..] == o;
      Get(o[1..], k)
  }

  /** `d[k] = v`: a present key keeps its place and takes the new value,
      a new key goes to the end */
  function Put(o: Object, k: string, v: Value): (r: Object)
    ensures Keys(r) == Keys(o) + {k}
    ensures DistinctKeys(o) ==> DistinctKeys(r)
    ensures k !in Keys(o) ==> r == o + [(k, v)]
  {
    if o == [] then
      KeysCons((k, v), []);
      assert [(k, v)] + [] == [(k, v)];
      [(k, v)]
    else if o[0].0 == k then
      KeysCons(o[0], o[1..]);
      KeysCons((k, v), o[1..]);
      assert [o[0]] + o[1..] == o;
      [(k, v)] + o[1..]
    else
      var tail := Put(o[1..], k, v);
      KeysCons(o[0], o[1..]);
      KeysCons(o[0], tail);
      assert [o[0]] + o[1..] == o;
      assert DistinctKeys(o) ==> o[0].0 !in Keys(o[1..]);
      [o[0]] + tail
  }

  /** After d[k] = v, d[k] is v and every other key keeps its value */
  lemma {:induction false} PutGet(o: Object, k: string, v: Value, k': string)
    ensures Get(Put(o, k, v), k') == if k' == k then Some(v) else Get(o, k')
  {
    if o != [] && o[0].0 != k {
      PutGet(o[1..], k, v, k');
    }
  }

  // ---------------------------------------------------------------------
  // Encoding: json.dumps

  predicate Printable(s: string) {
    forall i :: 0 <= i < |s| ==> ' ' <= s[i] <= '~'
  }

  lemma PrintableConcat(a: string, b: string)
    requires Printable(a) && Printable(b)
    ensures Printable(a + b)
  {
    forall i | 0 <= i < |a + b| ensures ' ' <= (a + b)[i] <= '~' {
      if i >= |a| { assert (a + b)[i] == b[i - |a|]; }
    }
  }

  /** Lower-case hexadecimal digit, as format(n, '04x') writes it */
  function HexDigit(d: int): (c: char)
    requires 0 <= d < 16
    ensures '0' <= c <= '9' || 'a' <= c <= 'f'
  {
    if d < 10 then ('0' as int + d) as char else ('a' as int + d - 10) as char
  }

  function Hex2(n: int): (r: string)
    requires 0 <= n < 0x100
  {
    [HexDigit(n / 16), HexDigit(n % 16)]
  }

  /** Four lower-case hexadecimal digits of n */
  function Hex4(n: int): (r: string)
    requires 0 <= n < 0x1_0000
    ensures |r| == 4 && Printable(r)
  {
    Hex2(n / 0x100) + Hex2(n % 0x100)
  }

  /** How ensure_ascii writes one character of a str: quote, backslash and the
      five usual control characters get a short escape, printable ASCII stays
      as it is, every other character of the Basic Multilingual Plane becomes
      \uXXXX, and a character above it becomes a UTF-16 surrogate pair of two
      \uXXXX escapes. (0xD800 + n / 0x400 and 0xDC00 + n % 0x400 are the
      library's 0xd800 | ((n >> 10) & 0x3ff) and 0xdc00 | (n & 0x3ff).) */
  function EscapeChar(c: char): (r: string)
    ensures 2 <= |r| || r == [c]
    ensures Printable(r)
  {
    if c == '"' then "\\\""
    else if c == '\\' then "\\\\"
    else if c == '\n' then "\\n"
    else if c == '\r' then "\\r"
    else if c == '\t' then "\\t"
    else if c == 8 as char then "\\b"
    else if c == 12 as char then "\\f"
    else if ' ' <= c <= '~' then [c]
    else if (c as int) < 0x1_0000 then "\\u" + Hex4(c as int)
    else
      var n := c as int - 0x1_0000;
      PrintableConcat("\\u" + Hex4(0xD800 + n / 0x400), "\\u" + Hex4(0xDC00 + n % 0x400));
      "\\u" + Hex4(0xD800 + n / 0x400) + "\\u" + Hex4(0xDC00 + n % 0x400)
  }

  function EscapeString(s: string): (r: string)
    ensures Printable(r)
  {
    if s == [] then []
    else
      PrintableConcat(EscapeChar(s[0]), EscapeString(s[1..]));
      EscapeChar(s[0]) + EscapeString(s[1..])
  }

  /** json.dumps of a str */
  function QuoteString(s: string): (r: string)
    ensures Printable(r)
  {
    PrintableConcat("\"", EscapeString(s));
    PrintableConcat("\"" + EscapeString(s), "\"");
    "\"" + EscapeString(s) + "\""
  }

  predicate IsDigit(c: char) {
    '0' <= c <= '9'
  }

  predicate AllDigits(s: string) {
    forall i :: 0 <= i < |s| ==> IsDigit(s[i])
  }

  function DigitChar(d: int): (c: char)
    requires 0 <= d < 10
    ensures IsDigit(c)
  {
    ('0' as int + d) as char
  }

  /** Decimal digits of n, most significant first, no leading zero */
  function NatToString(n: nat): (r: string)
    ensures r != [] && AllDigits(r)
    ensures (r[0] == '0') <==> (n == 0)
    decreases n
  {
    if n < 10 then [DigitChar(n)] else NatToString(n / 10) + [DigitChar(n % 10)]
  }

  /** str(i) for a Python int, which is also what json.dumps writes for it */
  function IntToString(i: int): (r: string)
    ensures r != [] && Printable(r)
    ensures r[0] == '-' <==> i < 0
  {
    if i < 0 then "-" + NatToString(-i) else NatToString(i)
  }

  function DumpsValue(v: Value): (r: string)
    ensures r != [] && Printable(r)
    ensures (r[0] == '"') == v.Str?
  {
    match v
    case Str(s) => QuoteString(s)
    case Int(i) => IntToString(i)
  }

  function DumpsMember(m: (string, Value)): (r: string)
    ensures r != [] && r[0] == '"' && Printable(r)
  {
    PrintableConcat(QuoteString(m.0), ": ");
    PrintableConcat(QuoteString(m.0) + ": ", DumpsValue(m.1));
    QuoteString(m.0) + ": " + DumpsValue(m.1)
  }

  /** The members of a dict joined by ", " */
  function DumpsMembers(o: Object): (r: string)
    ensures Printable(r)
    ensures o != [] ==> r != [] && r[0] == '"'
  {
    if o == [] then ""
    else if |o| == 1 then DumpsMember(o[0])
    else
      PrintableConcat(DumpsMember(o[0]), ", ");
      PrintableConcat(DumpsMember(o[0]) + ", ", DumpsMembers(o[1..]));
      DumpsMember(o[0]) + ", " + DumpsMembers(o[1..])
  }

  /** json.dumps of a flat dict: one line of printable ASCII */
  function Dumps(o: Object): (r: string)
    ensures Printable(r) && r != [] && r[0] == '{'
  {
    PrintableConcat("{", DumpsMembers(o));
    PrintableConcat("{" + DumpsMembers(o), "}");
    "{" + DumpsMembers(o) + "}"
  }

  // ---------------------------------------------------------------------
  // Decoding: json.loads. Each parser takes the text still to be read and
  // gives back what it read and the text after it.

  predicate IsWs(c: char) {
    c == ' ' || c == '\t' || c == '\n' || c == '\r'
  }

  function SkipWs(s: string): (r: string)
    ensures |r| <= |s|
    ensures r == [] || !IsWs(r[0])
  {
    if s != [] && IsWs(s[0]) then SkipWs(s[1..]) else s
  }

  predicate IsHex(c: char) {
    '0' <= c <= '9' || 'a' <= c <= 'f' || 'A' <= c <= 'F'
  }

  function HexValue(c: char): (d: int)
    requires IsHex(c)
    ensures 0 <= d < 16
  {
    if '0' <= c <= '9' then c as int - '0' as int
    else if 'a' <= c <= 'f' then c as int - 'a' as int + 10
    else c as int - 'A' as int + 10
  }

  predicate StartsWithHex4(s: string) {
    |s| >= 4 && IsHex(s[0]) && IsHex(s[1]) && IsHex(s[2]) && IsHex(s[3])
  }

  /** The number written by the first four hexadecimal digits of s */
  function HexValue4(s: string): (n: int)
    requires StartsWithHex4(s)
    ensures 0 <= n < 0x1_0000
  {
    (HexValue(s[0]) * 16 + HexValue(s[1])) * 0x100 + HexValue(s[2]) * 16 + HexValue(s[3])
  }

  /** What follows "\u": four hexadecimal digits, and when they give a high
      surrogate, a second escape "\uXXXX" giving a low surrogate, the pair then
      standing for one character above the Basic Multilingual Plane. */
  function ParseUnicodeEscape(s: string): (r: Option<(char, string)>)
    ensures r.Some? ==> |r.value.1| < |s|
  {
    if !StartsWithHex4(s) then None
    else
      var hi := HexValue4(s);
      if 0xD800 <= hi < 0xDC00 then
        if |s| >= 10 && s[4] == '\\' && s[5] == 'u' && StartsWithHex4(s[6..])
           && 0xDC00 <= HexValue4(s[6..]) < 0xE000
        then
          var lo := HexValue4(s[6..]);
          Some(((0x1_0000 + (hi - 0xD800) * 0x400 + (lo - 0xDC00)) as char, s[10..]))
        else None
      else if 0xDC00 <= hi < 0xE000 then None
      else Some((hi as char, s[4..]))
  }

  /** What follows a backslash inside a string */
  function ParseEscape(s: string): (r: Option<(char, string)>)
    ensures r.Some? ==> |r.value.1| < |s|
  {
    if s == [] then None
    else if s[0] == '"' then Some(('"', s[1..]))
    else if s[0] == '\\' then Some(('\\', s[1..]))
    else if s[0] == '/' then Some(('/', s[1..]))
    else if s[0] == 'b' then Some((8 as char, s[1..]))
    else if s[0] == 'f' then Some((12 as char, s[1..]))
    else if s[0] == 'n' then Some(('\n', s[1..]))
    else if s[0] == 'r' then Some(('\r', s[1..]))
    else if s[0] == 't' then Some(('\t', s[1..]))
    else if s[0] == 'u' then ParseUnicodeEscape(s[1..])
    else None
  }

  /** One character of a string's body: an escape, or any character but a
      control character */
  function ParseChar(s: string): (r: Option<(char, string)>)
    requires s != []
    ensures r.Some? ==> |r.value.1| < |s|
  {
    if s[0] == '\\' then ParseEscape(s[1..])
    else if (s[0] as int) < 0x20 then None
    else Some((s[0], s[1..]))
  }

  /** The body of a string up to and including its closing quote */
  function ParseStringBody(s: string): (r: Option<(string, string)>)
    ensures r.Some? ==> |r.value.1| < |s|
    decreases |s|
  {
    if s == [] then None
    else if s[0] == '"' then Some(([], s[1..]))
    else
      match ParseChar(s)
      case None => None
      case Some((c, rest)) =>
        match ParseStringBody(rest)
        case None => None
        case Some((t, rest')) => Some(([c] + t, rest'))
  }

  /** The value of a run of decimal digits */
  function DigitsValue(s: string): nat
    requires AllDigits(s)
    decreases |s|
  {
    if s == [] then 0
    else DigitsValue(s[..|s| - 1]) * 10 + (s[|s| - 1] as int - '0' as int)
  }

  /** Length of the run of digits s starts with */
  function DigitRun(s: string): (k: nat)
    ensures k <= |s| && AllDigits(s[..k])
    ensures k == |s| || !IsDigit(s[k])
  {
    if s != [] && IsDigit(s[0]) then
      var k := 1 + DigitRun(s[1..]);
      assert s[..k] == [s[0]] + s[1..][..k - 1];
      k
    else 0
  }

  /** JSON's int grammar without the sign: 0, or a non-zero digit and more digits */
  function ParseNat(s: string): (r: Option<(int, string)>)
    ensures r.Some? ==> |r.value.1| < |s| && r.value.0 >= 0
  {
    if s == [] || !IsDigit(s[0]) then None
    else if s[0] == '0' then Some((0, s[1..]))
    else
      var k := DigitRun(s);
      Some((DigitsValue(s[..k]), s[k..]))
  }

  function ParseInt(s: string): (r: Option<(int, string)>)
    ensures r.Some? ==> |r.value.1| < |s|
  {
    if s != [] && s[0] == '-' then
      match ParseNat(s[1..])
      case None => None
      case Some((n, rest)) => Some((-n, rest))
    else ParseNat(s)
  }

  /** A value: a string or an int (no other kind of JSON value is read) */
  function ParseValue(s: string): (r: Option<(Value, string)>)
    ensures r.Some? ==> |r.value.1| < |s|
  {
    if s != [] && s[0] == '"' then
      match ParseStringBody(s[1..])
      case None => None
      case Some((t, rest)) => Some((Str(t), rest))
    else
      match ParseInt(s)
      case None => None
      case Some((i, rest)) => Some((Int(i), rest))
  }

  /** The members of an object from a key up to and including the closing
      brace, stored into `acc` one by one */
  function ParseMembers(s: string, acc: Object): (r: Option<(Object, string)>)
    ensures r.Some? ==> |r.value.1| < |s|
    ensures r.Some? && DistinctKeys(acc) ==> DistinctKeys(r.value.0)
    decreases |s|
  {
    if s == [] || s[0] != '"' then None
    else
      match ParseStringBody(s[1..])
      case None => None
      case Some((key, r1)) =>
        var r2 := SkipWs(r1);
        if r2 == [] || r2[0] != ':' then None
        else
          match ParseValue(SkipWs(r2[1..]))
          case None => None
          case Some((v, r3)) =>
            var r4 := SkipWs(r3);
            if r4 != [] && r4[0] == ',' then ParseMembers(SkipWs(r4[1..]), Put(acc, key, v))
            else if r4 != [] && r4[0] == '}' then Some((Put(acc, key, v), r4[1..]))
            else None
  }

  /** An object after its opening brace */
  function ParseObject(s: string): (r: Option<(Object, string)>)
    ensures r.Some? ==> |r.value.1| < |s| && DistinctKeys(r.value.0)
  {
    var t := SkipWs(s);
    if t != [] && t[0] == '}' then Some(([], t[1..]))
    else ParseMembers(t, [])
  }

  /** json.loads of text holding one object, with whitespace around it */
  function Loads(s: string): (r: Option<Object>)
    ensures r.Some? ==> DistinctKeys(r.value)
  {
    var t := SkipWs(s);
    if t != [] && t[0] == '{' then
      match ParseObject(t[1..])
      case None => None
      case Some((o, rest)) => if SkipWs(rest) == [] then Some(o) else None
    else None
  }

  // ---------------------------------------------------------------------
  // json.loads(json.dumps(d)) == d

  lemma HexRoundTrip(n: int, t: string)
    requires 0 <= n < 0x1_0000
    ensures StartsWithHex4(Hex4(n) + t) && HexValue4(Hex4(n) + t) == n
  {
    var s := Hex4(n) + t;
    var a, b := n / 0x100, n % 0x100;
    assert s[0] == HexDigit(a / 16) && s[1] == HexDigit(a % 16);
    assert s[2] == HexDigit(b / 16) && s[3] == HexDigit(b % 16);
    assert HexValue(s[0]) * 16 + HexValue(s[1]) == a;
    assert HexValue(s[2]) * 16 + HexValue(s[3]) == b;
  }

  lemma ShortEscapeRoundTrip(c: char, t: string)
    requires c == '"' || c == '\\' || c == '\n' || c == '\r' || c == '\t' || c == 8 as char || c == 12 as char
    ensures ParseChar(EscapeChar(c) + t) == Some((c, t))
  {
    var s := EscapeChar(c) + t;
    assert |EscapeChar(c)| == 2 && EscapeChar(c)[0] == '\\';
    assert s[0] == '\\' && s[1..] == [EscapeChar(c)[1]] + t;
  }

  lemma BmpEscapeRoundTrip(c: char, t: string)
    requires c as int < 0x1_0000 && EscapeChar(c) == "\\u" + Hex4(c as int)
    ensures ParseChar(EscapeChar(c) + t) == Some((c, t))
  {
    var s := EscapeChar(c) + t;
    var n := c as int;
    assert s[0] == '\\' && s[1..] == ['u'] + (Hex4(n) + t);
    HexRoundTrip(n, t);
    assert (Hex4(n) + t)[4..] == t;
    assert !(0xD800 <= n < 0xE000);
  }

  lemma AstralText(h: string, l: string, t: string)
    requires |h| == 4 && |l| == 4
    ensures var s := "\\u" + h + "\\u" + l + t;
            s[0] == '\\' && s[1..][0] == 'u' && s[1..][1..] == h + ("\\u" + l + t)
    ensures var u := h + ("\\u" + l + t);
            u[..4] == h && u[4] == '\\' && u[5] == 'u' && u[6..] == l + t && u[10..] == t
  {
    var u := h + ("\\u" + l + t);
    assert "\\u" + h + "\\u" + l + t == ['\\'] + (['u'] + u);
    assert u[6..] == l + t;
  }

  /** The surrogate pair json.dumps writes for a character above U+FFFF */
  lemma SurrogatePair(c: char)
    requires c as int >= 0x1_0000
    ensures var n := c as int - 0x1_0000;
            var hi, lo := 0xD800 + n / 0x400, 0xDC00 + n % 0x400;
            0xD800 <= hi < 0xDC00 && 0xDC00 <= lo < 0xE000 &&
            0x1_0000 + (hi - 0xD800) * 0x400 + (lo - 0xDC00) == c as int
  {
  }

  /** "\\uXXXX\\uYYYY" with a high and a low surrogate reads as one character */
  lemma ParsePairStep(s: string, hi: int, lo: int, t: string)
    requires StartsWithHex4(s) && HexValue4(s) == hi && 0xD800 <= hi < 0xDC00
    requires |s| >= 10 && s[4] == '\\' && s[5] == 'u'
    requires StartsWithHex4(s[6..]) && HexValue4(s[6..]) == lo && 0xDC00 <= lo < 0xE000
    requires s[10..] == t
    ensures ParseUnicodeEscape(s) == Some(((0x1_0000 + (hi - 0xD800) * 0x400 + (lo - 0xDC00)) as char, t))
  {
  }

  lemma ParseUnicodeStep(s: string)
    requires |s| >= 2 && s[0] == '\\' && s[1] == 'u'
    ensures ParseChar(s) == ParseUnicodeEscape(s[1..][1..])
  {
  }

  lemma AstralEscapeRoundTrip(c: char, t: string)
    requires c as int >= 0x1_0000
    ensures var n := c as int - 0x1_0000;
            ParseChar("\\u" + Hex4(0xD800 + n / 0x400) + "\\u" + Hex4(0xDC00 + n % 0x400) + t) == Some((c, t))
  {
    var n := c as int - 0x1_0000;
    var hi, lo := 0xD800 + n / 0x400, 0xDC00 + n % 0x400;
    var s := "\\u" + Hex4(hi) + "\\u" + Hex4(lo) + t;
    var u := Hex4(hi) + ("\\u" + Hex4(lo) + t);
    SurrogatePair(c);
    AstralText(Hex4(hi), Hex4(lo), t);
    HexRoundTrip(hi, "\\u" + Hex4(lo) + t);
    HexRoundTrip(lo, t);
    ParsePairStep(u, hi, lo, t);
    ParseUnicodeStep(s);
  }

  /** A character's escape reads back as that character */
  lemma EscapeCharRoundTrip(c: char, t: string)
    ensures EscapeChar(c) + t != [] && (EscapeChar(c) + t)[0] != '"'
    ensures ParseChar(EscapeChar(c) + t) == Some((c, t))
  {
    if c == '"' || c == '\\' || c == '\n' || c == '\r' || c == '\t' || c == 8 as char || c == 12 as char {
      ShortEscapeRoundTrip(c, t);
    } else if ' ' <= c <= '~' {
      assert EscapeChar(c) + t == [c] + t;
    } else if (c as int) < 0x1_0000 {
      BmpEscapeRoundTrip(c, t);
    } else {
      AstralEscapeRoundTrip(c, t);
    }
  }

  lemma ParseStringCons(s: string, c: char, rest: string, body: string, t: string)
    requires s != [] && s[0] != '"' && ParseChar(s) == Some((c, rest))
    requires ParseStringBody(rest) == Some((body, t))
    ensures ParseStringBody(s) == Some(([c] + body, t))
  {
  }

  lemma EscapeStringText(s: string, t: string)
    requires s != []
    ensures EscapeString(s) + "\"" + t == EscapeChar(s[0]) + (EscapeString(s[1..]) + "\"" + t)
  {
  }

  /** An escaped string body followed by its closing quote reads back as the string */
  lemma {:induction false} StringRoundTrip(s: string, t: string)
    ensures ParseStringBody(EscapeString(s) + "\"" + t) == Some((s, t))
  {
    if s == [] {
      assert EscapeString(s) + "\"" + t == "\"" + t;
    } else {
      var rest := EscapeString(s[1..]) + "\"" + t;
      EscapeStringText(s, t);
      EscapeCharRoundTrip(s[0], rest);
      StringRoundTrip(s[1..], t);
      ParseStringCons(EscapeChar(s[0]) + rest, s[0], rest, s[1..], t);
      assert [s[0]] + s[1..] == s;
    }
  }

  lemma {:induction false} DigitsValueOfNat(n: nat)
    ensures DigitsValue(NatToString(n)) == n
    decreases n
  {
    var r := NatToString(n);
    if n < 10 {
      assert r[..|r| - 1] == [];
    } else {
      DigitsValueOfNat(n / 10);
      assert r[..|r| - 1] == NatToString(n / 10);
    }
  }

  lemma {:induction false} DigitRunOfDigits(ds: string, t: string)
    requires AllDigits(ds)
    requires t == [] || !IsDigit(t[0])
    ensures DigitRun(ds + t) == |ds|
    decreases |ds|
  {
    if ds == [] {
      assert ds + t == t;
    } else {
      DigitRunOfDigits(ds[1..], t);
      assert (ds + t)[1..] == ds[1..] + t;
    }
  }

  lemma NatRoundTrip(n: nat, t: string)
    requires t == [] || !IsDigit(t[0])
    ensures ParseNat(NatToString(n) + t) == Some((n, t))
  {
    var ds := NatToString(n);
    var s := ds + t;
    if n == 0 {
      assert s == "0" + t;
    } else {
      DigitRunOfDigits(ds, t);
      assert s[..|ds|] == ds && s[|ds|..] == t;
      DigitsValueOfNat(n);
    }
  }

  lemma SignText(ds: string, t: string)
    ensures ("-" + ds + t) != [] && ("-" + ds + t)[0] == '-' && ("-" + ds + t)[1..] == ds + t
  {
    assert "-" + ds + t == ['-'] + (ds + t);
  }

  lemma ParseNegative(s: string, n: int, t: string)
    requires s != [] && s[0] == '-' && ParseNat(s[1..]) == Some((n, t))
    ensures ParseInt(s) == Some((-n, t))
  {
  }

  lemma ParseNonNegative(s: string)
    requires s == [] || s[0] != '-'
    ensures ParseInt(s) == ParseNat(s)
  {
  }

  lemma IntRoundTrip(i: int, t: string)
    requires t == [] || !IsDigit(t[0])
    ensures ParseInt(IntToString(i) + t) == Some((i, t))
  {
    if i < 0 {
      SignText(NatToString(-i), t);
      NatRoundTrip(-i, t);
      ParseNegative(IntToString(i) + t, -i, t);
    } else {
      NatRoundTrip(i, t);
      assert (NatToString(i) + t)[0] == NatToString(i)[0];
      ParseNonNegative(NatToString(i) + t);
    }
  }

  lemma QuotedText(e: string, t: string)
    ensures ("\"" + e + "\"" + t)[0] == '"'
    ensures ("\"" + e + "\"" + t)[1..] == e + "\"" + t
  {
    assert "\"" + e + "\"" + t == "\"" + (e + "\"" + t);
  }

  lemma ValueRoundTrip(v: Value, t: string)
    requires t == [] || !IsDigit(t[0])
    ensures ParseValue(DumpsValue(v) + t) == Some((v, t))
  {
    match v
    case Str(s) =>
      QuotedText(EscapeString(s), t);
      StringRoundTrip(s, t);
    case Int(i) =>
      IntRoundTrip(i, t);
  }

  lemma SkipOneSpace(t: string)
    requires t != [] && !IsWs(t[0])
    ensures SkipWs(" " + t) == t
  {
    assert (" " + t)[1..] == t;
  }

  lemma Reassoc(a: string, b: string, c: string, d: string, e: string)
    ensures (((a + b) + c) + d) + e == a + (b + ((c + d) + e))
  {
  }

  lemma ReassocMember(q: string, k: string, q': string, c: string, v: string, t: string)
    requires |q| == 1
    ensures ((((q + k) + q') + c) + v + t)[1..] == (k + q') + ((c + v) + t)
  {
    var x := (k + q') + ((c + v) + t);
    assert ((((q + k) + q') + c) + v + t) == q + x;
    assert (q + x)[1..] == x;
  }

  lemma MemberText(m: (string, Value), tail: string)
    ensures (DumpsMember(m) + tail)[1..] == EscapeString(m.0) + "\"" + (": " + DumpsValue(m.1) + tail)
  {
    ReassocMember("\"", EscapeString(m.0), "\"", ": ", DumpsValue(m.1), tail);
  }

  /** A member's key reads back, leaving the colon and the value */
  lemma MemberKeyRoundTrip(m: (string, Value), tail: string)
    ensures ParseStringBody((DumpsMember(m) + tail)[1..]) == Some((m.0, ": " + DumpsValue(m.1) + tail))
  {
    MemberText(m, tail);
    StringRoundTrip(m.0, ": " + DumpsValue(m.1) + tail);
  }

  lemma ColonText(v: string, tail: string)
    ensures (": " + v + tail)[1..] == " " + (v + tail)
  {
    assert ": " + v + tail == [':'] + (" " + (v + tail));
  }

  /** After the colon and its space, a member's value reads back */
  lemma MemberValueRoundTrip(m: (string, Value), tail: string)
    requires tail != [] && (tail[0] == ',' || tail[0] == '}')
    ensures ParseValue(SkipWs((": " + DumpsValue(m.1) + tail)[1..])) == Some((m.1, tail))
  {
    ColonText(DumpsValue(m.1), tail);
    SkipOneSpace(DumpsValue(m.1) + tail);
    ValueRoundTrip(m.1, tail);
  }

  /** One round of ParseMembers once its key and value are known, when a
      comma follows the value */
  lemma ParseMembersNext(s: string, acc: Object, key: string, r1: string, v: Value, tail: string)
    requires s != [] && s[0] == '"' && ParseStringBody(s[1..]) == Some((key, r1))
    requires r1 != [] && r1[0] == ':' && ParseValue(SkipWs(r1[1..])) == Some((v, tail))
    requires tail != [] && tail[0] == ','
    ensures ParseMembers(s, acc) == ParseMembers(SkipWs(tail[1..]), Put(acc, key, v))
  {
    assert SkipWs(r1) == r1;
    assert SkipWs(tail) == tail;
  }

  /** One round of ParseMembers once its key and value are known, when the
      closing brace follows the value */
  lemma ParseMembersLast(s: string, acc: Object, key: string, r1: string, v: Value, tail: string)
    requires s != [] && s[0] == '"' && ParseStringBody(s[1..]) == Some((key, r1))
    requires r1 != [] && r1[0] == ':' && ParseValue(SkipWs(r1[1..])) == Some((v, tail))
    requires tail != [] && tail[0] == '}'
    ensures ParseMembers(s, acc) == Some((Put(acc, key, v), tail[1..]))
  {
    assert SkipWs(r1) == r1;
    assert SkipWs(tail) == tail;
  }

  lemma DumpsMembersCons(o: Object)
    requires |o| > 1
    ensures DumpsMembers(o) == DumpsMember(o[0]) + ", " + DumpsMembers(o[1..])
  {
  }

  lemma ClosingText(d: string, rest: string)
    ensures d + "}" + rest == d + ("}" + rest) && ("}" + rest)[0] == '}' && ("}" + rest)[1..] == rest
  {
  }

  /** The last member and the closing brace */
  lemma LastMemberRoundTrip(o: Object, acc: Object, rest: string)
    requires |o| == 1
    requires Put(acc, o[0].0, o[0].1) == acc + o
    ensures ParseMembers(DumpsMembers(o) + "}" + rest, acc) == Some((acc + o, rest))
  {
    var m := o[0];
    var tail := "}" + rest;
    var s := DumpsMember(m) + tail;
    assert DumpsMembers(o) == DumpsMember(m);
    ClosingText(DumpsMember(m), rest);
    MemberKeyRoundTrip(m, tail);
    MemberValueRoundTrip(m, tail);
    ParseMembersLast(s, acc, m.0, ": " + DumpsValue(m.1) + tail, m.1, tail);
  }

  /** A member followed by ", " and text starting with the next key */
  lemma InnerMemberStep(m: (string, Value), more: string, acc: Object)
    requires more != [] && more[0] == '"'
    ensures ParseMembers(DumpsMember(m) + (", " + more), acc) == ParseMembers(more, Put(acc, m.0, m.1))
  {
    var tail := ", " + more;
    var s := DumpsMember(m) + tail;
    var r1 := ": " + DumpsValue(m.1) + tail;
    assert ParseStringBody(s[1..]) == Some((m.0, r1)) by {
      MemberKeyRoundTrip(m, tail);
    }
    assert ParseValue(SkipWs(r1[1..])) == Some((m.1, tail)) by {
      MemberValueRoundTrip(m, tail);
    }
    assert SkipWs(tail[1..]) == more by {
      assert tail[1..] == " " + more;
      SkipOneSpace(more);
    }
    ParseMembersNext(s, acc, m.0, r1, m.1, tail);
  }

  lemma InnerMembersText(o: Object, rest: string)
    requires |o| > 1
    ensures DumpsMembers(o) + "}" + rest == DumpsMember(o[0]) + (", " + (DumpsMembers(o[1..]) + "}" + rest))
  {
    DumpsMembersCons(o);
    Reassoc(DumpsMember(o[0]), ", ", DumpsMembers(o[1..]), "}", rest);
  }

  /** A member followed by ", " and more members */
  lemma InnerMemberRoundTrip(o: Object, acc: Object, rest: string)
    requires |o| > 1
    ensures ParseMembers(DumpsMembers(o) + "}" + rest, acc) ==
            ParseMembers(DumpsMembers(o[1..]) + "}" + rest, Put(acc, o[0].0, o[0].1))
  {
    InnerMembersText(o, rest);
    InnerMemberStep(o[0], DumpsMembers(o[1..]) + "}" + rest, acc);
  }

  lemma SplitFirst(acc: Object, o: Object)
    requires o != []
    ensures (acc + [o[0]]) + o[1..] == acc + o
  {
    assert [o[0]] + o[1..] == o;
  }

  lemma FreshFirstKey(o: Object, acc: Object)
    requires o != [] && DistinctKeys(acc + o)
    ensures Put(acc, o[0].0, o[0].1) == acc + [o[0]]
  {
    var m := o[0];
    var ao := acc + o;
    assert ao[|acc|] == m;
    assert m.0 !in Keys(acc) by {
      forall i | 0 <= i < |acc| ensures acc[i].0 != m.0 {
        assert ao[i] == acc[i];
        assert ao[i].0 != ao[|acc|].0;
      }
    }
  }

  /** The members json.dumps writes read back, stored after those of `acc` */
  lemma {:induction false} MembersRoundTrip(o: Object, acc: Object, rest: string)
    requires o != []
    requires DistinctKeys(acc + o)
    ensures ParseMembers(DumpsMembers(o) + "}" + rest, acc) == Some((acc + o, rest))
    decreases |o|
  {
    var m := o[0];
    var acc' := acc + [m];
    FreshFirstKey(o, acc);
    SplitFirst(acc, o);
    if |o| == 1 {
      assert acc' == acc + o;
      LastMemberRoundTrip(o, acc, rest);
    } else {
      InnerMemberRoundTrip(o, acc, rest);
      MembersRoundTrip(o[1..], acc', rest);
    }
  }

  /** An object's text after its opening brace reads back as the object */
  lemma ObjectRoundTrip(o: Object, rest: string)
    requires DistinctKeys(o)
    ensures ParseObject(DumpsMembers(o) + "}" + rest) == Some((o, rest))
  {
    var s := DumpsMembers(o) + "}" + rest;
    if o == [] {
      assert s == "}" + rest;
      assert SkipWs(s) == s;
    } else {
      assert SkipWs(s) == s;
      assert [] + o == o;
      MembersRoundTrip(o, [], rest);
    }
  }

  lemma LoadsStep(s: string, o: Object, rest: string)
    requires s != [] && s[0] == '{' && ParseObject(s[1..]) == Some((o, rest)) && SkipWs(rest) == []
    ensures Loads(s) == Some(o)
  {
    assert SkipWs(s) == s;
  }

  lemma ObjectText(d: string, rest: string)
    ensures ("{" + d + "}" + rest)[1..] == d + "}" + rest
  {
    assert "{" + d + "}" + rest == "{" + (d + "}" + rest);
  }

  /** json.loads(json.dumps(d) + "\n") == d for a dict with distinct keys:
      one line of an index file reads back as the entry written on it */
  lemma LoadsDumps(o: Object)
    requires DistinctKeys(o)
    ensures Loads(Dumps(o) + "\n") == Some(o)
  {
    ObjectText(DumpsMembers(o), "\n");
    ObjectRoundTrip(o, "\n");
    assert SkipWs("\n") == [];
    LoadsStep(Dumps(o) + "\n", o, "\n");
  }
}
