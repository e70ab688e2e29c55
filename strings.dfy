/** The few operations of Python's `str` that the core relies on, with their exact index behaviour. */
module Strings {

  /** Python's `str.isspace()` on one character; it is also the class that `\s` matches in a str regex. */
  predicate IsSpace(c: char) {
    var n := c as int;
    (9 <= n <= 13) || (28 <= n <= 32) || n == 0x85 || n == 0xA0 || n == 0x1680
    || (0x2000 <= n <= 0x200A) || n == 0x2028 || n == 0x2029 || n == 0x202F
    || n == 0x205F || n == 0x3000
  }

  predicate StartsWith(s: string, prefix: string) {
    |prefix| <= |s| && s[..|prefix|] == prefix
  }

  predicate EndsWith(s: string, suffix: string) {
    |suffix| <= |s| && s[|s| - |suffix|..] == suffix
  }

  /** The number of characters in all of xs together. */
  function TotalLength(xs: seq<string>): nat {
    if |xs| == 0 then 0 else |xs[0]| + TotalLength(xs[1..])
  }

  /** `s.lstrip()`, and equally the greedy `\s*` of a regex: drops the leading run of whitespace. */
  function TrimStart(s: string): (r: string)
    ensures |r| <= |s| && r == s[|s| - |r|..]
    ensures forall k :: 0 <= k < |s| - |r| ==> IsSpace(s[k])
    ensures r == [] || !IsSpace(r[0])
  {
    if |s| > 0 && IsSpace(s[0]) then TrimStart(s[1..]) else s
  }

  /** Stripping leading whitespace keeps every non-space character, as often as it occurs. */
  lemma {:induction false} TrimStartKeepsChar(s: string, c: char)
    requires !IsSpace(c)
    ensures multiset(TrimStart(s))[c] == multiset(s)[c]
    decreases |s|
  {
    if |s| > 0 && IsSpace(s[0]) {
      assert s == [s[0]] + s[1..];
      TrimStartKeepsChar(s[1..], c);
    }
  }

  /** `s.rstrip()`: drops the trailing run of whitespace. */
  function TrimEnd(s: string): (r: string)
    ensures |r| <= |s| && r == s[..|r|]
    ensures forall k :: |r| <= k < |s| ==> IsSpace(s[k])
    ensures r == [] || !IsSpace(r[|r| - 1])
  {
    if |s| > 0 && IsSpace(s[|s| - 1]) then TrimEnd(s[..|s| - 1]) else s
  }

  /** x occurs in s at offset k. */
  predicate OccursAt(s: string, x: string, k: int) {
    0 <= k && k + |x| <= |s| && s[k..k + |x|] == x
  }

  /** `s.strip()`: what is left of s once the whitespace around it is gone; it neither starts
      nor ends with whitespace. */
  function Strip(s: string): (r: string)
    ensures exists i :: OccursAt(s, r, i)
                        && (forall k :: 0 <= k < i ==> IsSpace(s[k]))
                        && (forall k :: i + |r| <= k < |s| ==> IsSpace(s[k]))
    ensures r == [] || (!IsSpace(r[0]) && !IsSpace(r[|r| - 1]))
  {
    var t := TrimStart(s);
    var r := TrimEnd(t);
    StripWitness(s, t, r);
    r
  }

  lemma StripWitness(s: string, t: string, r: string)
    requires |t| <= |s| && t == s[|s| - |t|..]
    requires |r| <= |t| && r == t[..|r|]
    requires forall k :: |r| <= k < |t| ==> IsSpace(t[k])
    ensures OccursAt(s, r, |s| - |t|)
    ensures forall k :: |s| - |t| + |r| <= k < |s| ==> IsSpace(s[k])
  {
    var i := |s| - |t|;
    forall k | i + |r| <= k < |s|
      ensures IsSpace(s[k])
    {
      assert s[k] == t[k - i];
    }
  }

  /** `s.find(c)`: the first index holding c, or -1. */
  function Find(s: string, c: char): (i: int)
    ensures -1 <= i < |s|
    ensures i == -1 <==> c !in s
    ensures 0 <= i ==> s[i] == c && c !in s[..i]
  {
    if |s| == 0 then -1
    else if s[0] == c then 0
    else
      var k := Find(s[1..], c);
      assert s == [s[0]] + s[1..];
      if k == -1 then -1
      else
        assert s[..k + 1] == [s[0]] + s[1..][..k];
        k + 1
  }

  /** `s.rfind(c)`: the last index holding c, or -1. */
  function RFind(s: string, c: char): (i: int)
    ensures -1 <= i < |s|
    ensures i == -1 <==> c !in s
    ensures 0 <= i ==> s[i] == c && c !in s[i + 1..]
  {
    if |s| == 0 then -1
    else if s[|s| - 1] == c then |s| - 1
    else
      var k := RFind(s[..|s| - 1], c);
      RFindStep(s, c, k);
      k
  }

  /** The last c of s, when the final character is not c, is the last c of the rest. */
  lemma RFindStep(s: string, c: char, k: int)
    requires |s| > 0 && s[|s| - 1] != c && -1 <= k < |s| - 1
    requires k == -1 <==> c !in s[..|s| - 1]
    requires 0 <= k ==> s[k] == c && c !in s[..|s| - 1][k + 1..]
    ensures k == -1 <==> c !in s
    ensures 0 <= k ==> c !in s[k + 1..]
  {
    var init := s[..|s| - 1];
    assert s == init + [s[|s| - 1]];
    if 0 <= k {
      assert s[k + 1..] == init[k + 1..] + [s[|s| - 1]];
    }
  }

  /** A character found at or after a is in the suffix from a. */
  lemma InSuffix(t: string, c: char, a: int)
    requires 0 <= a <= |t|
    ensures forall j :: a <= j < |t| && t[j] == c ==> c in t[a..]
  {
    forall j | a <= j < |t| && t[j] == c
      ensures c in t[a..]
    {
      assert t[a..][j - a] == c;
    }
  }

  /** How Python reads one slice bound of a sequence of length n: negative counts from the end,
      and the result is clamped to 0..n. */
  function SliceBound(i: int, n: nat): (b: nat)
    ensures b <= n
    ensures 0 <= i <= n ==> b == i
    ensures i > n ==> b == n
    ensures i < 0 ==> b == if i + n < 0 then 0 else i + n
  {
    if i < 0 then (if i + n < 0 then 0 else i + n) else if i > n then n else i
  }

  /** `s[start:stop]`: never fails; a stop at or before start gives the empty string. */
  function Slice(s: string, start: int, stop: int): (r: string)
    ensures 0 <= start <= stop <= |s| ==> r == s[start..stop]
    ensures 0 <= stop <= start ==> r == []
  {
    var a, b := SliceBound(start, |s|), SliceBound(stop, |s|);
    if a < b then s[a..b] else []
  }

  /** `sep.join(xs)`: the parts in order, with sep between neighbours. */
  function Join(sep: string, xs: seq<string>): (r: string)
    ensures |xs| == 0 ==> r == []
    ensures |xs| == 1 ==> r == xs[0]
  {
    if |xs| == 0 then []
    else if |xs| == 1 then xs[0]
    else xs[0] + sep + Join(sep, xs[1..])
  }

  /** A join is as long as its parts together plus one separator between each two neighbours. */
  lemma {:induction false} JoinLength(sep: string, xs: seq<string>)
    requires |xs| > 0
    ensures |Join(sep, xs)| == TotalLength(xs) + (|xs| - 1) * |sep|
  {
    if |xs| > 1 {
      JoinLength(sep, xs[1..]);
    }
  }

  /** A join starts with its first part and ends with its last. */
  lemma {:induction false} JoinEnds(sep: string, xs: seq<string>)
    requires |xs| > 0
    ensures StartsWith(Join(sep, xs), xs[0]) && EndsWith(Join(sep, xs), xs[|xs| - 1])
  {
    var r := Join(sep, xs);
    if |xs| == 1 {
      assert r[..|xs[0]|] == xs[0] && r[0..] == xs[0];
    } else {
      var rest := Join(sep, xs[1..]);
      JoinEnds(sep, xs[1..]);
      assert r == xs[0] + sep + rest;
      assert r[..|xs[0]|] == xs[0];
      assert r[|r| - |xs[|xs| - 1]|..] == rest[|rest| - |xs[|xs| - 1]|..];
    }
  }

  /** Joining one more part adds a separator and that part at the end, so the parts come out
      left to right in list order. */
  lemma {:induction false} JoinAppend(sep: string, xs: seq<string>, y: string)
    requires |xs| >= 1
    ensures Join(sep, xs + [y]) == Join(sep, xs) + sep + y
  {
    if |xs| == 1 {
      assert xs + [y] == [xs[0], y];
      assert [xs[0], y][1..] == [y];
    } else {
      assert (xs + [y])[1..] == xs[1..] + [y];
      JoinAppend(sep, xs[1..], y);
    }
  }

  /** Python's f-string: text pieces with the values of the holes between them. */
  function Fill(texts: seq<string>, holes: seq<string>): (r: string)
    requires |texts| == |holes| + 1
    ensures |holes| == 0 ==> r == texts[0]
  {
    if |holes| == 0 then texts[0]
    else texts[0] + holes[0] + Fill(texts[1..], holes[1..])
  }

  /** One more hole and text piece go at the end: each value sits between the text pieces around
      it, so with the base case this fixes the whole f-string. */
  lemma {:induction false} FillAppend(texts: seq<string>, holes: seq<string>, h: string, t: string)
    requires |texts| == |holes| + 1
    ensures Fill(texts + [t], holes + [h]) == Fill(texts, holes) + h + t
    decreases |holes|
  {
    if |holes| == 0 {
      assert texts + [t] == [texts[0], t];
      assert holes + [h] == [h];
      assert [texts[0], t][1..] == [t] && [h][1..] == [];
    } else {
      var ts, hs := texts + [t], holes + [h];
      assert ts[0] == texts[0] && ts[1..] == texts[1..] + [t];
      assert hs[0] == holes[0] && hs[1..] == holes[1..] + [h];
      calc {
        Fill(ts, hs);
        texts[0] + holes[0] + Fill(texts[1..] + [t], holes[1..] + [h]);
        { FillAppend(texts[1..], holes[1..], h, t); }
        texts[0] + holes[0] + (Fill(texts[1..], holes[1..]) + h + t);
        Fill(texts, holes) + h + t;
      }
    }
  }

  /** A filled template is as long as its text pieces and hole values together. */
  lemma {:induction false} FillLength(texts: seq<string>, holes: seq<string>)
    requires |texts| == |holes| + 1
    ensures |Fill(texts, holes)| == TotalLength(texts) + TotalLength(holes)
  {
    if |holes| > 0 {
      FillLength(texts[1..], holes[1..]);
    }
  }

  /** A filled template starts with its first text piece and ends with its last. */
  lemma {:induction false} FillEnds(texts: seq<string>, holes: seq<string>)
    requires |texts| == |holes| + 1
    ensures StartsWith(Fill(texts, holes), texts[0])
    ensures EndsWith(Fill(texts, holes), texts[|texts| - 1])
  {
    var r := Fill(texts, holes);
    if |holes| == 0 {
      assert r[..|texts[0]|] == texts[0] && r[0..] == texts[0];
    } else {
      var rest := Fill(texts[1..], holes[1..]);
      FillEnds(texts[1..], holes[1..]);
      assert r == texts[0] + holes[0] + rest;
      assert r[..|texts[0]|] == texts[0];
      assert r[|r| - |texts[|texts| - 1]|..] == rest[|rest| - |texts[|texts| - 1]|..];
    }
  }

  /** s contains every string of xs, in order and without overlap. */
  ghost predicate Embeds(s: string, xs: seq<string>)
    decreases |xs|
  {
    |xs| == 0 ||
    exists k :: OccursAt(s, xs[0], k) && Embeds(s[k + |xs[0]|..], xs[1..])
  }

  lemma EmbedsAfter(a: string, rest: string, xs: seq<string>)
    requires Embeds(rest, xs)
    ensures Embeds(a + rest, xs)
  {
    if |xs| > 0 {
      var k :| OccursAt(rest, xs[0], k) && Embeds(rest[k + |xs[0]|..], xs[1..]);
      var s := a + rest;
      assert s[|a| + k..|a| + k + |xs[0]|] == rest[k..k + |xs[0]|];
      assert OccursAt(s, xs[0], |a| + k);
      assert s[|a| + k + |xs[0]|..] == rest[k + |xs[0]|..];
    }
  }

  lemma {:induction false} EmbedsBefore(s: string, b: string, xs: seq<string>)
    requires Embeds(s, xs)
    ensures Embeds(s + b, xs)
    decreases |xs|
  {
    if |xs| > 0 {
      var k :| OccursAt(s, xs[0], k) && Embeds(s[k + |xs[0]|..], xs[1..]);
      EmbedsBefore(s[k + |xs[0]|..], b, xs[1..]);
      assert (s + b)[k..k + |xs[0]|] == s[k..k + |xs[0]|];
      assert OccursAt(s + b, xs[0], k);
      assert (s + b)[k + |xs[0]|..] == s[k + |xs[0]|..] + b;
    }
  }

  /** Brackets around a text keep what it embeds. */
  lemma Bracketed(open: string, s: string, close: string, xs: seq<string>)
    requires Embeds(s, xs)
    ensures Embeds(open + s + close, xs)
  {
    EmbedsBefore(s, close, xs);
    EmbedsAfter(open, s + close, xs);
    assert open + s + close == open + (s + close);
  }

  lemma EmbedsCons(a: string, x: string, rest: string, xs: seq<string>)
    requires Embeds(rest, xs)
    ensures Embeds(a + x + rest, [x] + xs)
  {
    var s := a + x + rest;
    var ys := [x] + xs;
    assert s[|a|..|a| + |x|] == x;
    assert OccursAt(s, ys[0], |a|);
    assert s[|a| + |x|..] == rest;
    assert ys[1..] == xs;
  }

  /** Every part of a join appears in it, in list order. */
  lemma {:induction false} JoinEmbeds(sep: string, xs: seq<string>)
    ensures Embeds(Join(sep, xs), xs)
  {
    if |xs| == 1 {
      assert OccursAt(xs[0], xs[0], 0);
      assert Embeds(xs[0][|xs[0]|..], xs[1..]);
    } else if |xs| > 1 {
      var tail := Join(sep, xs[1..]);
      JoinEmbeds(sep, xs[1..]);
      EmbedsAfter(sep, tail, xs[1..]);
      EmbedsCons([], xs[0], sep + tail, xs[1..]);
      assert [] + xs[0] + (sep + tail) == xs[0] + sep + tail;
      assert [xs[0]] + xs[1..] == xs;
    }
  }

  /** Every hole value appears in the filled template, in order. */
  lemma {:induction false} FillEmbeds(texts: seq<string>, holes: seq<string>)
    requires |texts| == |holes| + 1
    ensures Embeds(Fill(texts, holes), holes)
  {
    if |holes| > 0 {
      FillEmbeds(texts[1..], holes[1..]);
      EmbedsCons(texts[0], holes[0], Fill(texts[1..], holes[1..]), holes[1..]);
      assert [holes[0]] + holes[1..] == holes;
    }
  }
}
