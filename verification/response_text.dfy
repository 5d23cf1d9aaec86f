/**
 * Turning the raw text of an LLM completion into the candidate JSON text
 * (lib/openai.ts and lib/grok.ts hold the same three steps):
 * remove every "```json\n" and "\n```" (the global regular expression
 * /```json\n|\n```/g, scanned left to right, first alternative first),
 * trim, then take the greedy match of /{[\s\S]*}/: from the first `{` to the
 * last `}` after it.
 */
module ResponseText {
  import opened Common
  import opened JsText

  const OpenFence: string := "```json\n"
  const CloseFence: string := "\n```"

  // ---------------------------------------------------------------------------
  // Fence removal
  // ---------------------------------------------------------------------------

  /** `text.replace(/```json\n|\n```/g, "")`. */
  function StripFences(s: string): (r: string)
    ensures |r| <= |s|
    decreases |s|
  {
    if |s| == 0 then []
    else if OpenFence <= s then StripFences(s[|OpenFence|..])
    else if CloseFence <= s then StripFences(s[|CloseFence|..])
    else [s[0]] + StripFences(s[1..])
  }

  /** `a` is what is left of `b` after deleting some of its characters. */
  predicate IsSubsequence(a: string, b: string)
    decreases |b|
  {
    if |a| == 0 then true
    else if |b| == 0 then false
    else if a[0] == b[0] then IsSubsequence(a[1..], b[1..])
    else IsSubsequence(a, b[1..])
  }

  /** Dropping the first character of the longer text keeps a subsequence. */
  lemma {:induction false} SubsequenceWeaken(a: string, b: string)
    requires |b| > 0 && IsSubsequence(a, b[1..])
    ensures IsSubsequence(a, b)
    decreases |a| + |b|, 1
  {
    if |a| > 0 && a[0] == b[0] {
      SubsequenceDropHead(a, b[1..]);
    }
  }

  /** Dropping the first character of the shorter text keeps a subsequence. */
  lemma {:induction false} SubsequenceDropHead(a: string, b: string)
    requires |a| > 0 && IsSubsequence(a, b)
    ensures IsSubsequence(a[1..], b)
    decreases |a| + |b|, 0
  {
    if a[0] == b[0] {
      if |a[1..]| > 0 { SubsequenceWeaken(a[1..], b); }
    } else {
      SubsequenceDropHead(a, b[1..]);
      if |a[1..]| > 0 { SubsequenceWeaken(a[1..], b); }
    }
  }

  lemma {:induction false} SubsequenceOfSuffix(a: string, b: string, n: nat)
    requires n <= |b| && IsSubsequence(a, b[n..])
    ensures IsSubsequence(a, b)
    decreases n
  {
    if n > 0 {
      assert b[n..] == b[1..][n - 1..];
      SubsequenceOfSuffix(a, b[1..], n - 1);
      SubsequenceWeaken(a, b);
    }
  }

  /** Fence removal only deletes characters: everything kept stays in order. */
  lemma {:induction false} StripIsSubsequence(s: string)
    ensures IsSubsequence(StripFences(s), s)
    decreases |s|
  {
    if |s| == 0 {
    } else if OpenFence <= s {
      StripIsSubsequence(s[|OpenFence|..]);
      SubsequenceOfSuffix(StripFences(s), s, |OpenFence|);
    } else if CloseFence <= s {
      StripIsSubsequence(s[|CloseFence|..]);
      SubsequenceOfSuffix(StripFences(s), s, |CloseFence|);
    } else {
      StripIsSubsequence(s[1..]);
      var r := StripFences(s);
      assert r[0] == s[0] && r[1..] == StripFences(s[1..]);
    }
  }

  /** Neither fence occurs anywhere in `s`. */
  predicate NoFence(s: string) {
    forall k | 0 <= k <= |s| :: !OccursAt(s, OpenFence, k) && !OccursAt(s, CloseFence, k)
  }

  /** A text without fences has a tail without fences. */
  lemma NoFenceTail(s: string)
    requires |s| > 0 && NoFence(s)
    ensures NoFence(s[1..])
  {
    forall k | 0 <= k <= |s[1..]|
      ensures !OccursAt(s[1..], OpenFence, k) && !OccursAt(s[1..], CloseFence, k)
    {
      assert !OccursAt(s, OpenFence, k + 1) && !OccursAt(s, CloseFence, k + 1);
      assert k + |OpenFence| <= |s[1..]| ==> s[k + 1..k + 1 + |OpenFence|] == s[1..][k..k + |OpenFence|];
      assert k + |CloseFence| <= |s[1..]| ==> s[k + 1..k + 1 + |CloseFence|] == s[1..][k..k + |CloseFence|];
    }
  }

  /** Text without fences is left untouched. */
  lemma {:induction false} StripWithoutFences(s: string)
    requires NoFence(s)
    ensures StripFences(s) == s
    decreases |s|
  {
    if |s| > 0 {
      assert !OccursAt(s, OpenFence, 0) && !OccursAt(s, CloseFence, 0);
      assert |OpenFence| <= |s| ==> s[0..|OpenFence|] == s[..|OpenFence|];
      assert |CloseFence| <= |s| ==> s[0..|CloseFence|] == s[..|CloseFence|];
      assert StripFences(s) == [s[0]] + StripFences(s[1..]);
      NoFenceTail(s);
      StripWithoutFences(s[1..]);
    }
  }

  /** A prefix without backquotes passes through unchanged, unless it ends in a
      newline that the following text continues into a closing fence. */
  lemma {:induction false} StripPlainPrefix(a: string, t: string)
    requires '`' !in a
    requires a == [] || a[|a| - 1] != '\n' || t == [] || t[0] != '`'
    ensures StripFences(a + t) == a + StripFences(t)
    decreases |a|
  {
    if |a| > 0 {
      var s := a + t;
      assert s[0] == a[0] && s[0] != '`';
      assert |a| > 1 ==> s[1] == a[1] && s[1] != '`';
      assert |a| == 1 && |s| > 1 ==> s[1] == t[0];
      assert s[1..] == a[1..] + t;
      assert a + StripFences(t) == [a[0]] + (a[1..] + StripFences(t));
      StripPlainPrefix(a[1..], t);
    } else {
      assert a + t == t;
    }
  }

  /** A lone closing fence is removed entirely. */
  lemma StripCloseFence()
    ensures StripFences(CloseFence) == []
  {
    assert !(OpenFence <= CloseFence) by { assert OpenFence[0] != CloseFence[0]; }
    assert CloseFence[|CloseFence|..] == [];
  }

  /** An opening fence at the start is removed and the scan resumes after it. */
  lemma StripOpenFence(rest: string)
    ensures StripFences(OpenFence + rest) == StripFences(rest)
  {
    var t := OpenFence + rest;
    assert t[..|OpenFence|] == OpenFence;
    assert t[|OpenFence|..] == rest;
  }

  /** A fenced block after prose that does not end in a newline: the fences
      disappear and everything else is kept. */
  lemma FencedBlock(prose: string, body: string)
    requires '`' !in prose && '`' !in body
    requires prose == [] || prose[|prose| - 1] != '\n'
    ensures StripFences(prose + OpenFence + body + CloseFence) == prose + body
  {
    var t := OpenFence + (body + CloseFence);
    assert prose + OpenFence + body + CloseFence == prose + t;
    StripPlainPrefix(prose, t);
    StripOpenFence(body + CloseFence);
    StripPlainPrefix(body, CloseFence);
    StripCloseFence();
    assert body + [] == body;
  }

  /** A closing fence at the start is removed and the scan resumes after it. */
  lemma StripCloseFenceFirst(rest: string)
    ensures StripFences(CloseFence + rest) == StripFences(rest)
  {
    var t := CloseFence + rest;
    assert !(OpenFence <= t) by { assert OpenFence[0] != t[0]; }
    assert t[..|CloseFence|] == CloseFence;
    assert t[|CloseFence|..] == rest;
  }

  /** When the prose before the fence ends in a newline, that newline and the
      three backquotes match "\n```" first, so "json\n" survives. */
  lemma FenceAfterNewline(prose: string, body: string)
    requires '`' !in prose && '`' !in body
    ensures StripFences(prose + "\n" + OpenFence + body + CloseFence) == prose + "json\n" + body
  {
    var u := "json\n" + body;
    var t := CloseFence + (u + CloseFence);
    assert "\n" + OpenFence == CloseFence + "json\n";
    assert prose + "\n" + OpenFence + body + CloseFence == prose + t;
    assert t[0] == '\n';
    StripPlainPrefix(prose, t);
    StripCloseFenceFirst(u + CloseFence);
    assert '`' !in u;
    StripPlainPrefix(u, CloseFence);
    StripCloseFence();
    assert u + [] == u;
    assert prose + u == prose + "json\n" + body;
  }

  // ---------------------------------------------------------------------------
  // The `{...}` candidate
  // ---------------------------------------------------------------------------

  /** Index of the first `c` in `s`. */
  function FirstIndex(s: string, c: char): (r: Option<nat>)
    ensures r.Some? ==> r.value < |s| && s[r.value] == c && forall k :: 0 <= k < r.value ==> s[k] != c
    ensures r.None? ==> forall k :: 0 <= k < |s| ==> s[k] != c
  {
    if |s| == 0 then None
    else if s[0] == c then Some(0)
    else match FirstIndex(s[1..], c)
      case None => None
      case Some(i) => Some(i + 1)
  }

  /** Index of the last `c` in `s`. */
  function LastIndex(s: string, c: char): (r: Option<nat>)
    ensures r.Some? ==> r.value < |s| && s[r.value] == c && forall k :: r.value < k < |s| ==> s[k] != c
    ensures r.None? ==> forall k :: 0 <= k < |s| ==> s[k] != c
  {
    if |s| == 0 then None
    else if s[|s| - 1] == c then Some(|s| - 1)
    else LastIndex(s[..|s| - 1], c)
  }

  /** `s[i..j+1]` runs from the first `{` of `s` to its last `}`. */
  predicate IsObjectSpan(s: string, i: int, j: int) {
    && 0 <= i < j < |s| && s[i] == '{' && s[j] == '}'
    && (forall k | 0 <= k < i :: s[k] != '{')
    && (forall k | j < k < |s| :: s[k] != '}')
  }

  /** `s.match(/{[\s\S]*}/)`: present exactly when some `{` comes before some
      `}`, and then the text from the first `{` to the last `}`. */
  function ExtractObject(s: string): (r: Option<string>)
    ensures r.Some? ==> |r.value| >= 2 && r.value[0] == '{' && r.value[|r.value| - 1] == '}'
    ensures r.Some? <==> exists i, j | 0 <= i < j < |s| :: s[i] == '{' && s[j] == '}'
    ensures r.Some? ==> exists i, j :: IsObjectSpan(s, i, j) && r.value == s[i..j + 1]
    ensures forall i, j | IsObjectSpan(s, i, j) :: r == Some(s[i..j + 1])
  {
    match FirstIndex(s, '{')
    case None => None
    case Some(i) =>
      match LastIndex(s, '}')
      case None => None
      case Some(j) =>
        if i < j then
          assert IsObjectSpan(s, i, j);
          Some(s[i..j + 1])
        else None
  }

  /** Text that starts with `{` and ends with `}` is its own match. */
  lemma ExtractWholeObject(s: string)
    requires |s| >= 2 && s[0] == '{' && s[|s| - 1] == '}'
    ensures ExtractObject(s) == Some(s)
  {
    assert FirstIndex(s, '{') == Some(0);
    assert LastIndex(s, '}') == Some(|s| - 1);
    assert s[0..|s|] == s;
  }

  /** The candidate JSON text of a response: fences removed, trimmed, `{...}`. */
  function CandidateJson(content: string): (r: Option<string>)
    ensures r.Some? ==> |r.value| >= 2 && r.value[0] == '{' && r.value[|r.value| - 1] == '}'
  {
    var cleaned := Trim(StripFences(content));
    var r := ExtractObject(cleaned);
    assert r.Some? ==> |r.value| >= 2 && r.value[0] == '{' && r.value[|r.value| - 1] == '}';
    r
  }

  /** A response that is exactly one fenced JSON object yields that object. */
  lemma FencedObjectIsCandidate(body: string)
    requires '`' !in body && |body| >= 2 && body[0] == '{' && body[|body| - 1] == '}'
    ensures CandidateJson(OpenFence + body + CloseFence) == Some(body)
  {
    var content := OpenFence + body + CloseFence;
    assert [] + OpenFence + body + CloseFence == content;
    FencedBlock([], body);
    assert [] + body == body;
    TrimKeeps(body);
    assert Trim(StripFences(content)) == body;
    ExtractWholeObject(body);
  }
}
