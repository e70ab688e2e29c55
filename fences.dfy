/** `parse_json`: strip markdown code fences from a model reply, trim it, and hand the text from the
    first `{` to the last `}` to the JSON parser. */
module Fences {
  import opened Wrappers
  import opened Strings
  import opened Json

  /** `json.loads`, which this model takes as given: it maps a text to a value or raises. */
  type Loader = string -> Result<Json, string>

  const Fence := "```"
  const JsonFence := "```json"

  predicate FenceAt(s: string, i: int) {
    0 <= i && i + 3 <= |s| && s[i] == '`' && s[i + 1] == '`' && s[i + 2] == '`'
  }

  /** No three backticks in a row anywhere in s. */
  predicate NoFence(s: string) {
    forall i :: 0 <= i < |s| ==> !FenceAt(s, i)
  }

  /** `re.sub(r'```json\s*|```', '', s)`: scanning left to right, each "```json" together with the
      whitespace after it, and each other "```", is deleted; every other character is kept. */
  function RemoveFences(s: string): (r: string)
    ensures |r| <= |s|
    decreases |s|
  {
    if |s| == 0 then []
    else if StartsWith(s, JsonFence) then RemoveFences(TrimStart(s[7..]))
    else if StartsWith(s, Fence) then RemoveFences(s[3..])
    else [s[0]] + RemoveFences(s[1..])
  }

  lemma HeadTick(s: string)
    requires |RemoveFences(s)| > 0 && RemoveFences(s)[0] == '`'
    ensures |s| > 0 && s[0] == '`'
  {
  }

  lemma TwoTicks(s: string)
    requires |RemoveFences(s)| > 1 && RemoveFences(s)[0] == '`' && RemoveFences(s)[1] == '`'
    ensures |s| > 1 && s[0] == '`' && s[1] == '`'
  {
    if StartsWith(s, JsonFence) {
      assert s[..7][0] == '`' && s[..7][1] == '`';
    } else if StartsWith(s, Fence) {
      assert s[..3][0] == '`' && s[..3][1] == '`';
    } else {
      assert RemoveFences(s) == [s[0]] + RemoveFences(s[1..]);
      HeadTick(s[1..]);
    }
  }

  lemma DropMarker(s: string, n: nat, c: char)
    requires n <= |s| && c !in s[..n]
    ensures multiset(s[n..])[c] == multiset(s)[c]
  {
    assert s == s[..n] + s[n..];
  }

  /** Deleting fences keeps every character that is neither whitespace nor part of "```json", as
      often as it occurs. */
  lemma {:induction false} RemoveFencesKeepsOtherChars(s: string, c: char)
    requires c !in JsonFence && !IsSpace(c)
    ensures multiset(RemoveFences(s))[c] == multiset(s)[c]
    decreases |s|
  {
    if |s| == 0 {
    } else if StartsWith(s, JsonFence) {
      DropMarker(s, 7, c);
      TrimStartKeepsChar(s[7..], c);
      RemoveFencesKeepsOtherChars(TrimStart(s[7..]), c);
    } else if StartsWith(s, Fence) {
      assert c != JsonFence[0];
      DropMarker(s, 3, c);
      RemoveFencesKeepsOtherChars(s[3..], c);
    } else {
      assert s == [s[0]] + s[1..];
      RemoveFencesKeepsOtherChars(s[1..], c);
    }
  }

  /** A first character that does not start "```" is kept, even a backtick, and the scan goes on
      after it. */
  lemma KeepHead(s: string)
    requires |s| > 0 && !StartsWith(s, Fence)
    ensures RemoveFences(s) == [s[0]] + RemoveFences(s[1..])
  {
    if |s| >= 7 {
      assert s[..7][..3] == s[..3];
    }
  }

  /** A backtick that is not followed by a second one is kept, in its place. */
  lemma LoneBacktick(rest: string)
    requires rest == [] || rest[0] != '`'
    ensures RemoveFences("`" + rest) == "`" + RemoveFences(rest)
  {
    var s := "`" + rest;
    if |s| >= 3 {
      assert s[..3][1] == s[1] == rest[0];
    }
    KeepHead(s);
    assert s[1..] == rest;
  }

  lemma LoneBacktickExample()
    ensures RemoveFences("`a```") == "`a"
  {
    LoneBacktick("a```");
    assert "`" + "a```" == "`a```";
    PlainPrefix("a", "```");
    assert "a" + "```" == "a```";
    ClosingFence();
  }

  /** Text without backticks passes through unchanged, in order, and the deletion goes on after it. */
  lemma {:induction false} PlainPrefix(a: string, b: string)
    requires '`' !in a
    ensures RemoveFences(a + b) == a + RemoveFences(b)
    decreases |a|
  {
    if |a| > 0 {
      var s := a + b;
      var tail := a[1..];
      assert s[0] == a[0];
      if |s| >= 3 {
        assert s[..3][0] == s[0];
      }
      KeepHead(s);
      assert s[1..] == tail + b;
      assert a == [a[0]] + tail;
      PlainPrefix(tail, b);
      calc {
        RemoveFences(s);
        [a[0]] + RemoveFences(tail + b);
        [a[0]] + (tail + RemoveFences(b));
        a + RemoveFences(b);
      }
    } else {
      assert a + b == b;
    }
  }

  lemma ClosingFence()
    ensures RemoveFences(Fence) == []
  {
    assert StartsWith(Fence, Fence) && !StartsWith(Fence, JsonFence);
    assert Fence[3..] == [];
  }

  lemma {:induction false} TrimSpaces(ws: string, t: string)
    requires forall k :: 0 <= k < |ws| ==> IsSpace(ws[k])
    requires t == [] || !IsSpace(t[0])
    ensures TrimStart(ws + t) == t
    decreases |ws|
  {
    if |ws| > 0 {
      assert (ws + t)[0] == ws[0];
      assert (ws + t)[1..] == ws[1..] + t;
      TrimSpaces(ws[1..], t);
    } else {
      assert ws + t == t;
    }
  }

  lemma DropJsonMarker(s: string, rest: string)
    requires s == JsonFence + rest
    ensures RemoveFences(s) == RemoveFences(TrimStart(rest))
  {
    assert s[..7] == JsonFence && s[7..] == rest;
  }

  lemma DropPlainMarker(s: string, rest: string)
    requires s == Fence + rest && !StartsWith(rest, "json")
    ensures RemoveFences(s) == RemoveFences(rest)
  {
    assert s[..3] == Fence && s[3..] == rest;
    if |s| >= 7 {
      assert s[3..7] == rest[..4];
      assert s[..7] != JsonFence;
    }
  }

  /** A body without backticks followed by the closing marker comes out as the body. */
  lemma BodyThenFence(body: string)
    requires '`' !in body
    ensures RemoveFences(body + Fence) == body
  {
    PlainPrefix(body, Fence);
    ClosingFence();
    assert body + [] == body;
  }

  lemma BodyThenFenceNotJson(body: string)
    requires !StartsWith(body, "json")
    ensures !StartsWith(body + Fence, "json")
  {
    var closed := body + Fence;
    if |body| >= 4 {
      assert closed[..4] == body[..4];
    } else if |closed| >= 4 {
      assert closed[|body|] == '`';
    }
  }

  /** A reply fenced as "```json", whitespace, a body without backticks, "```" comes out as exactly
      the body. */
  lemma FencedJsonReply(ws: string, body: string)
    requires forall k :: 0 <= k < |ws| ==> IsSpace(ws[k])
    requires '`' !in body
    requires body == [] || !IsSpace(body[0])
    ensures RemoveFences(JsonFence + ws + body + Fence) == body
  {
    var closed := body + Fence;
    calc {
      RemoveFences(JsonFence + ws + body + Fence);
      { assert JsonFence + ws + body + Fence == JsonFence + (ws + closed); }
      RemoveFences(JsonFence + (ws + closed));
      { DropJsonMarker(JsonFence + (ws + closed), ws + closed); }
      RemoveFences(TrimStart(ws + closed));
      { TrimSpaces(ws, closed); }
      RemoveFences(closed);
      { BodyThenFence(body); }
      body;
    }
  }

  /** A reply fenced as "```", a body without backticks that does not start with "json", "```"
      comes out as exactly the body. */
  lemma FencedPlainReply(body: string)
    requires '`' !in body
    requires !StartsWith(body, "json")
    ensures RemoveFences(Fence + body + Fence) == body
  {
    var closed := body + Fence;
    calc {
      RemoveFences(Fence + body + Fence);
      { assert Fence + body + Fence == Fence + closed; }
      RemoveFences(Fence + closed);
      { BodyThenFenceNotJson(body); DropPlainMarker(Fence + closed, closed); }
      RemoveFences(closed);
      { BodyThenFence(body); }
      body;
    }
  }

  /** A kept first character cannot start a fence with what follows it. */
  lemma FrontNoFence(s: string)
    requires |s| > 0 && !StartsWith(s, JsonFence) && !StartsWith(s, Fence)
    ensures !FenceAt([s[0]] + RemoveFences(s[1..]), 0)
  {
    var r := [s[0]] + RemoveFences(s[1..]);
    if |r| >= 3 && r[1] == '`' && r[2] == '`' {
      TwoTicks(s[1..]);
      assert s[..3] == [s[0], s[1], s[2]];
    }
  }

  /** Deleting the markers never leaves a "```" behind, not even one formed by the characters on
      either side of a deleted marker. */
  lemma {:induction false} RemoveFencesLeavesNoFence(s: string)
    ensures NoFence(RemoveFences(s))
    decreases |s|
  {
    if |s| == 0 {
    } else if StartsWith(s, JsonFence) {
      RemoveFencesLeavesNoFence(TrimStart(s[7..]));
    } else if StartsWith(s, Fence) {
      RemoveFencesLeavesNoFence(s[3..]);
    } else {
      var tail := RemoveFences(s[1..]);
      var r := [s[0]] + tail;
      RemoveFencesLeavesNoFence(s[1..]);
      FrontNoFence(s);
      forall i | 0 < i < |r|
        ensures !FenceAt(r, i)
      {
        assert FenceAt(r, i) ==> FenceAt(tail, i - 1);
      }
    }
  }

  /** A text without fences comes through unchanged. */
  lemma {:induction false} RemoveFencesKeepsPlainText(s: string)
    requires NoFence(s)
    ensures RemoveFences(s) == s
    decreases |s|
  {
    if |s| > 0 {
      assert !FenceAt(s, 0);
      assert !StartsWith(s, Fence) && !StartsWith(s, JsonFence);
      forall i
        ensures !FenceAt(s[1..], i)
      {
        assert FenceAt(s[1..], i) ==> FenceAt(s, i + 1);
      }
      RemoveFencesKeepsPlainText(s[1..]);
      assert [s[0]] + s[1..] == s;
    }
  }

  /** Cleaning twice is cleaning once. */
  lemma RemoveFencesIdempotent(s: string)
    ensures RemoveFences(RemoveFences(s)) == RemoveFences(s)
  {
    RemoveFencesLeavesNoFence(s);
    RemoveFencesKeepsPlainText(RemoveFences(s));
  }

  lemma NoFenceInfix(s: string, i: nat, t: string)
    requires NoFence(s) && OccursAt(s, t, i)
    ensures NoFence(t)
  {
    forall j | 0 <= j < |t|
      ensures !FenceAt(t, j)
    {
      assert FenceAt(t, j) ==> FenceAt(s, i + j);
    }
  }

  lemma StripKeepsNoFence(u: string)
    requires NoFence(u)
    ensures NoFence(Strip(u))
  {
    var i :| OccursAt(u, Strip(u), i);
    NoFenceInfix(u, i, Strip(u));
  }

  /** The text `parse_json` searches: fences deleted, then surrounding whitespace trimmed. */
  function Clean(text: string): (t: string)
    ensures NoFence(t)
    ensures exists i :: OccursAt(RemoveFences(text), t, i)
                        && (forall k :: 0 <= k < i ==> IsSpace(RemoveFences(text)[k]))
                        && (forall k :: i + |t| <= k < |RemoveFences(text)| ==> IsSpace(RemoveFences(text)[k]))
    ensures t == [] || (!IsSpace(t[0]) && !IsSpace(t[|t| - 1]))
  {
    RemoveFencesLeavesNoFence(text);
    StripKeepsNoFence(RemoveFences(text));
    Strip(RemoveFences(text))
  }

  /** r is what lies between the first `{` of t, at index i, and the last `}` after it, both
      included, or is empty when no `}` follows that `{`. */
  predicate BraceSliceAt(t: string, r: string, i: int) {
    0 <= i < |t| && t[i] == '{' && '{' !in t[..i]
    && (r == [] <==> '}' !in t[i..])
    && (r != [] ==> OccursAt(t, r, i) && r[|r| - 1] == '}' && '}' !in t[i + |r|..])
  }

  ghost predicate BraceSlice(t: string, r: string) {
    exists i :: BraceSliceAt(t, r, i)
  }

  lemma NotInSuffix(t: string, c: char, a: nat, b: nat)
    requires a <= b <= |t| && c !in t[a..]
    ensures c !in t[b..]
  {
    assert t[b..] == t[a..][b - a..];
  }

  lemma ClosedBraceSlice(t: string, start: nat, last: nat)
    requires start <= last < |t| && t[start] == '{' && '{' !in t[..start]
    requires t[last] == '}' && '}' !in t[last + 1..]
    ensures BraceSliceAt(t, t[start..last + 1], start)
  {
    var r := t[start..last + 1];
    assert t[start..][last - start] == '}';
    assert r[|r| - 1] == '}';
    assert t[start + |r|..] == t[last + 1..];
  }

  lemma OpenBraceSlice(t: string, start: nat, last: int)
    requires start < |t| && t[start] == '{' && '{' !in t[..start]
    requires -1 <= last < start && '}' !in t[last + 1..]
    ensures BraceSliceAt(t, [], start)
  {
    NotInSuffix(t, '}', last + 1, start);
  }

  lemma SliceIsBraceSlice(t: string)
    requires '{' in t
    ensures BraceSlice(t, Slice(t, Find(t, '{'), RFind(t, '}') + 1))
  {
    var start, last := Find(t, '{'), RFind(t, '}');
    if start <= last {
      assert Slice(t, start, last + 1) == t[start..last + 1];
      ClosedBraceSlice(t, start, last);
    } else {
      assert Slice(t, start, last + 1) == [];
      if last == -1 {
        assert t[last + 1..] == t;
      }
      OpenBraceSlice(t, start, last);
    }
  }

  lemma BraceSliceNoFence(t: string)
    requires NoFence(t) && '{' in t
    ensures BraceSlice(t, Slice(t, Find(t, '{'), RFind(t, '}') + 1))
    ensures NoFence(Slice(t, Find(t, '{'), RFind(t, '}') + 1))
  {
    var start := Find(t, '{');
    var r := Slice(t, start, RFind(t, '}') + 1);
    SliceIsBraceSlice(t);
    if r != [] {
      assert OccursAt(t, r, start);
      NoFenceInfix(t, start, r);
    }
  }

  /** What `parse_json` gives to `json.loads`: None when the cleaned text has no `{` (then the
      result is the empty dict); otherwise the slice `text[start:end]` with start the first `{`
      and end one past the last `}`. The guard `end != -1` can never fail, so a text with a `{`
      but no `}` after it yields the empty slice rather than the empty dict. */
  function ExtractObjectText(text: string): (r: Option<string>)
    ensures r.None? <==> '{' !in Clean(text)
    ensures r.Some? ==> BraceSlice(Clean(text), r.value) && NoFence(r.value)
  {
    var t := Clean(text);
    var start, end := Find(t, '{'), RFind(t, '}') + 1;
    if start != -1 && end != -1 then
      BraceSliceNoFence(t);
      Some(Slice(t, start, end))
    else
      None
  }

  /** A `{` with no `}` after it gives the empty slice. */
  lemma UnclosedBraceSlice(text: string)
    requires '{' in Clean(text) && '}' !in Clean(text)[Find(Clean(text), '{')..]
    ensures ExtractObjectText(text) == Some([])
  {
    var t := Clean(text);
    InSuffix(t, '}', Find(t, '{'));
  }

  /** `parse_json(text)`: the empty dict, or whatever `json.loads` makes of the extracted slice
      (including its failure). */
  function ParseJson(text: string, loads: Loader): (r: Result<Json, string>)
    ensures '{' !in Clean(text) ==> r == Ok(JObj([]))
    ensures '{' in Clean(text) ==> r == loads(ExtractObjectText(text).value)
  {
    match ExtractObjectText(text)
    case None => Ok(JObj([]))
    case Some(slice) => loads(slice)
  }
}
