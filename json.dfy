/** The values that `json.loads` produces, Python dicts with string keys, and what an f-string
    hole prints for a value (Python's `str`). */
module Json {
  import opened Wrappers
  import opened Strings

  /** None, bool, int, float, str, list and dict. A float is carried with the text Python's
      `str` gives it. */
  datatype Json =
    | JNull
    | JBool(b: bool)
    | JInt(i: int)
    | JFloat(shown: string)
    | JStr(s: string)
    | JArr(items: seq<Json>)
    | JObj(members: Record)

  datatype Member = Member(key: string, value: Json)

  /** A dict, in insertion order (keys are distinct in every dict Python builds). */
  type Record = seq<Member>

  /** `list(d)`: the keys in insertion order. */
  function Keys(d: Record): (ks: seq<string>)
    ensures |ks| == |d|
    ensures forall i :: 0 <= i < |d| ==> ks[i] == d[i].key
  {
    if |d| == 0 then [] else [d[0].key] + Keys(d[1..])
  }

  /** `k in d`. */
  predicate Has(d: Record, k: string) {
    |d| > 0 && (d[0].key == k || Has(d[1..], k))
  }

  /** `k in d` holds exactly when some member of d has the key k. */
  lemma {:induction false} HasFindsKey(d: Record, k: string)
    ensures Has(d, k) <==> exists i :: 0 <= i < |d| && d[i].key == k
  {
    if |d| > 0 {
      HasFindsKey(d[1..], k);
      assert forall i :: 1 <= i < |d| ==> d[i] == d[1..][i - 1];
      if Has(d[1..], k) {
        var j :| 0 <= j < |d[1..]| && d[1..][j].key == k;
        assert d[j + 1].key == k;
      }
    }
  }

  /** `d.get(k)`: the value stored under k, or nothing when k is absent. */
  function Get(d: Record, k: string): (r: Option<Json>)
    ensures r.Some? <==> Has(d, k)
  {
    if |d| == 0 then None
    else if d[0].key == k then Some(d[0].value)
    else Get(d[1..], k)
  }

  /** The value found is the one at the first position holding the key. */
  lemma {:induction false} GetFirst(d: Record, i: nat, k: string)
    requires i < |d| && d[i].key == k
    requires forall j :: 0 <= j < i ==> d[j].key != k
    ensures Get(d, k) == Some(d[i].value)
  {
    if i > 0 {
      GetFirst(d[1..], i - 1, k);
    }
  }

  /** `d.get(k, dflt)`. */
  function GetOr(d: Record, k: string, dflt: Json): (v: Json)
    ensures Has(d, k) ==> Some(v) == Get(d, k)
    ensures !Has(d, k) ==> v == dflt
  {
    match Get(d, k)
    case Some(v) => v
    case None => dflt
  }

  /** `d[k] = v`: an existing key keeps its place and gets the new value; a new key goes last. */
  function Put(d: Record, k: string, v: Json): (r: Record)
    ensures Get(r, k) == Some(v)
    ensures forall k' :: k' != k ==> Get(r, k') == Get(d, k')
    ensures forall k' :: Has(r, k') <==> Has(d, k') || k' == k
    ensures Has(d, k) ==> Keys(r) == Keys(d)
    ensures !Has(d, k) ==> Keys(r) == Keys(d) + [k]
  {
    if |d| == 0 then [Member(k, v)]
    else
      assert d == [d[0]] + d[1..];
      ConsFacts(d[0], d[1..]);
      if d[0].key == k then
        ConsFacts(Member(k, v), d[1..]);
        [Member(k, v)] + d[1..]
      else
        var rest := Put(d[1..], k, v);
        ConsFacts(d[0], rest);
        [d[0]] + rest
  }

  /** Keys and lookups of a dict with one more member in front. */
  lemma ConsFacts(m: Member, d: Record)
    ensures Keys([m] + d) == [m.key] + Keys(d)
    ensures forall k :: Get([m] + d, k) == (if m.key == k then Some(m.value) else Get(d, k))
  {
    assert ([m] + d)[1..] == d;
  }

  predicate IsDigit(c: char) {
    '0' <= c <= '9'
  }

  predicate AllDigits(s: string) {
    forall k :: 0 <= k < |s| ==> IsDigit(s[k])
  }

  /** The number a run of decimal digits stands for, read most significant digit first. */
  function DecimalValue(s: string): nat
    requires AllDigits(s)
  {
    if |s| == 0 then 0 else 10 * DecimalValue(s[..|s| - 1]) + (s[|s| - 1] as int - '0' as int)
  }

  predicate IsHex(c: char) {
    '0' <= c <= '9' || 'a' <= c <= 'f'
  }

  function HexValue(c: char): (v: nat)
    requires IsHex(c)
    ensures v < 16
  {
    if c <= '9' then c as int - '0' as int else c as int - 'a' as int + 10
  }

  function Digit(d: nat): (c: char)
    requires d < 10
    ensures IsDigit(c) && c as int - '0' as int == d
  {
    ('0' as int + d) as char
  }

  function HexDigit(d: nat): (c: char)
    requires d < 16
    ensures IsHex(c) && HexValue(c) == d
  {
    if d < 10 then ('0' as int + d) as char else ('a' as int + d - 10) as char
  }

  /** `str(n)` of a non-negative int: decimal digits with no leading zero, reading back as n. */
  function NatToDecimal(n: nat): (r: string)
    ensures |r| > 0 && AllDigits(r) && DecimalValue(r) == n
    ensures |r| > 1 ==> r[0] != '0'
  {
    if n < 10 then [Digit(n)]
    else
      var t := NatToDecimal(n / 10);
      assert (t + [Digit(n % 10)])[..|t|] == t;
      t + [Digit(n % 10)]
  }

  /** The digits Python writes for a non-negative int: at least one, and no leading zero. */
  predicate Canonical(digits: string) {
    |digits| > 0 && AllDigits(digits) && (|digits| > 1 ==> digits[0] != '0')
  }

  /** r is how Python writes the int i: a minus sign for a negative i, then its digits. */
  predicate ShowsInt(r: string, i: int) {
    if i < 0 then |r| > 1 && r[0] == '-' && Canonical(r[1..]) && DecimalValue(r[1..]) == -i
    else Canonical(r) && DecimalValue(r) == i
  }

  lemma {:induction false} LeadingDigitPositive(c: string)
    requires |c| > 0 && AllDigits(c) && c[0] != '0'
    ensures DecimalValue(c) > 0
    decreases |c|
  {
    if |c| > 1 {
      var p := c[..|c| - 1];
      assert p[0] == c[0];
      LeadingDigitPositive(p);
    }
  }

  /** Two canonical digit strings with the same value are the same string. */
  lemma {:induction false} CanonicalUnique(a: string, b: string)
    requires Canonical(a) && Canonical(b) && DecimalValue(a) == DecimalValue(b)
    ensures a == b
    decreases |a|
  {
    var n, m := |a|, |b|;
    var pa, pb := a[..n - 1], b[..m - 1];
    if n > 1 {
      assert pa[0] == a[0];
      LeadingDigitPositive(pa);
    }
    if m > 1 {
      assert pb[0] == b[0];
      LeadingDigitPositive(pb);
    }
    if n > 1 && m > 1 {
      assert DecimalValue(pa) == DecimalValue(pb);
      CanonicalUnique(pa, pb);
      assert a == pa + [a[n - 1]] && b == pb + [b[m - 1]];
    }
  }

  /** Only one text shows a given int, so `ShowsInt` pins down `str(i)`. */
  lemma ShowsIntUnique(r: string, r': string, i: int)
    requires ShowsInt(r, i) && ShowsInt(r', i)
    ensures r == r'
  {
    if i < 0 {
      CanonicalUnique(r[1..], r'[1..]);
      assert r == [r[0]] + r[1..] && r' == [r'[0]] + r'[1..];
    } else {
      CanonicalUnique(r, r');
    }
  }

  function IntToDecimal(i: int): (r: string)
    ensures ShowsInt(r, i)
  {
    if i < 0 then
      var t := NatToDecimal(-i);
      assert ("-" + t)[1..] == t;
      "-" + t
    else NatToDecimal(i)
  }

  /** The quote `repr` chooses: double quotes only when s holds a single quote and no double quote. */
  function QuoteFor(s: string): (q: char)
    ensures q == '\'' || q == '"'
  {
    if '\'' in s && '"' !in s then '"' else '\''
  }

  /** A character `repr` prints as it is inside quotes q. */
  predicate Printable(c: char, q: char) {
    c != q && c != '\\' && 0x20 <= c as int && c as int != 0x7F
  }

  function EscapeChar(c: char, q: char): (r: string)
    ensures Printable(c, q) ==> r == [c]
    ensures !Printable(c, q) ==> |r| >= 2 && r[0] == '\\'
  {
    if c == q || c == '\\' then ['\\', c]
    else if c == '\t' then "\\t"
    else if c == '\n' then "\\n"
    else if c == '\r' then "\\r"
    else if c as int < 0x20 || c as int == 0x7F then "\\x" + [HexDigit(c as int / 16), HexDigit(c as int % 16)]
    else [c]
  }

  function Escape(s: string, q: char): (r: string)
    ensures |r| >= |s|
    ensures (forall k :: 0 <= k < |s| ==> Printable(s[k], q)) ==> r == s
  {
    if |s| == 0 then []
    else
      assert forall k :: 0 <= k < |s| - 1 ==> s[1..][k] == s[k + 1];
      assert s == [s[0]] + s[1..];
      EscapeChar(s[0], q) + Escape(s[1..], q)
  }

  /** How Python reads back the body of a string literal that `repr` wrote: the escapes `\t`,
      `\n`, `\r`, `\xhh`, and a backslash before a backslash or a quote, each stand for one
      character; any other text is read as it stands. */
  function Unescape(s: string): string
    decreases |s|
  {
    if |s| == 0 then []
    else if |s| >= 2 && s[0] == '\\' then
      if s[1] == 't' then "\t" + Unescape(s[2..])
      else if s[1] == 'n' then "\n" + Unescape(s[2..])
      else if s[1] == 'r' then "\r" + Unescape(s[2..])
      else if s[1] == 'x' && |s| >= 4 && IsHex(s[2]) && IsHex(s[3]) then
        [(16 * HexValue(s[2]) + HexValue(s[3])) as char] + Unescape(s[4..])
      else if s[1] == '\\' || s[1] == '\'' || s[1] == '"' then [s[1]] + Unescape(s[2..])
      else ['\\'] + Unescape(s[1..])
    else [s[0]] + Unescape(s[1..])
  }

  lemma UnescapeChar(c: char, q: char, rest: string)
    requires q == '\'' || q == '"'
    ensures Unescape(EscapeChar(c, q) + rest) == [c] + Unescape(rest)
  {
    var s := EscapeChar(c, q) + rest;
    if c == q || c == '\\' {
      assert s[0] == '\\' && s[1] == c && s[2..] == rest;
    } else if c == '\t' || c == '\n' || c == '\r' {
      assert s[0] == '\\' && s[2..] == rest;
    } else if c as int < 0x20 || c as int == 0x7F {
      var hi, lo := HexDigit(c as int / 16), HexDigit(c as int % 16);
      assert s[0] == '\\' && s[1] == 'x' && s[2] == hi && s[3] == lo && s[4..] == rest;
      assert 16 * HexValue(hi) + HexValue(lo) == c as int;
    } else {
      assert s[0] == c && s[1..] == rest;
    }
  }

  /** Reading an escaped string back gives the string. */
  lemma {:induction false} UnescapeEscape(s: string, q: char)
    requires q == '\'' || q == '"'
    ensures Unescape(Escape(s, q)) == s
  {
    if |s| > 0 {
      assert Escape(s, q) == EscapeChar(s[0], q) + Escape(s[1..], q);
      UnescapeChar(s[0], q, Escape(s[1..], q));
      UnescapeEscape(s[1..], q);
      assert [s[0]] + s[1..] == s;
    }
  }

  /** r is a quoted Python string literal that reads back as s. */
  predicate QuotedOf(r: string, s: string) {
    |r| >= 2 && r[0] == QuoteFor(s) && r[|r| - 1] == QuoteFor(s) && Unescape(r[1..|r| - 1]) == s
  }

  /** `repr(s)` of a str. */
  function QuoteString(s: string): (r: string)
    ensures QuotedOf(r, s)
  {
    var q := QuoteFor(s);
    UnescapeEscape(s, q);
    assert ([q] + Escape(s, q) + [q])[1..|Escape(s, q)| + 1] == Escape(s, q);
    [q] + Escape(s, q) + [q]
  }

  /** `repr(v)`, as used for the items of a list or dict. */
  function Repr(v: Json): (r: string)
    ensures v.JNull? ==> r == "None"
    ensures v.JBool? ==> r == (if v.b then "True" else "False")
    ensures v.JInt? ==> ShowsInt(r, v.i)
    ensures v.JFloat? ==> r == v.shown
    ensures v.JStr? ==> QuotedOf(r, v.s)
    ensures v.JArr? ==>
              var parts := seq(|v.items|, i requires 0 <= i < |v.items| => Repr(v.items[i]));
              && r == "[" + Join(", ", parts) + "]"
              && Embeds(r, parts)
    ensures v.JObj? ==>
              var parts := seq(|v.members|, i requires 0 <= i < |v.members| =>
                                 QuoteString(v.members[i].key) + ": " + Repr(v.members[i].value));
              && r == "{" + Join(", ", parts) + "}"
              && Embeds(r, parts)
  {
    match v
    case JNull => "None"
    case JBool(b) => if b then "True" else "False"
    case JInt(i) => IntToDecimal(i)
    case JFloat(shown) => shown
    case JStr(s) => QuoteString(s)
    case JArr(items) =>
      var parts := seq(|items|, i requires 0 <= i < |items| => Repr(items[i]));
      JoinEmbeds(", ", parts);
      Bracketed("[", Join(", ", parts), "]", parts);
      "[" + Join(", ", parts) + "]"
    case JObj(members) =>
      var parts := seq(|members|, i requires 0 <= i < |members| =>
                         QuoteString(members[i].key) + ": " + Repr(members[i].value));
      JoinEmbeds(", ", parts);
      Bracketed("{", Join(", ", parts), "}", parts);
      "{" + Join(", ", parts) + "}"
  }

  /** `str(v)`, which is what an f-string hole prints: a str prints as itself, everything else as its repr. */
  function Str(v: Json): (r: string)
    ensures v.JStr? ==> r == v.s
    ensures v.JInt? ==> ShowsInt(r, v.i)
    ensures v.JArr? ==> |r| >= 2 && r[0] == '[' && r[|r| - 1] == ']'
    ensures v.JObj? ==> |r| >= 2 && r[0] == '{' && r[|r| - 1] == '}'
    ensures !v.JStr? ==> r == Repr(v)
  {
    if v.JStr? then v.s else Repr(v)
  }
}
