/**
 * The JavaScript and Node.js string built-ins the core relies on, stated over
 * `string` (a sequence of Unicode scalar values; JavaScript counts UTF-16 units,
 * which differs only outside the Basic Multilingual Plane):
 * `indexOf`, `replace` with a string pattern, `Array.prototype.join`, `trim`,
 * decimal rendering of a non-negative integer, `path.basename` and
 * `encodeURIComponent`.
 */
module JsText {
  import opened Common

  // ---------------------------------------------------------------------------
  // Occurrences and indexOf
  // ---------------------------------------------------------------------------

  /** `pat` occurs in `s` starting at index `k`. */
  predicate OccursAt(s: string, pat: string, k: int) {
    0 <= k && k + |pat| <= |s| && s[k..k + |pat|] == pat
  }

  /** `pat` occurs somewhere in `s`. */
  predicate Contains(s: string, pat: string) {
    exists k | 0 <= k <= |s| :: OccursAt(s, pat, k)
  }

  /** `s.indexOf(pat, from)`: the first occurrence at or after `from`. */
  function IndexOfFrom(s: string, pat: string, from: nat): (r: Option<nat>)
    ensures r.Some? ==> from <= r.value && OccursAt(s, pat, r.value)
    ensures r.Some? ==> forall k :: from <= k < r.value ==> !OccursAt(s, pat, k)
    ensures r.None? ==> forall k :: from <= k ==> !OccursAt(s, pat, k)
    decreases |s| - from
  {
    if from + |pat| > |s| then None
    else if s[from..from + |pat|] == pat then Some(from)
    else IndexOfFrom(s, pat, from + 1)
  }

  /** `s.indexOf(pat)`. */
  function IndexOf(s: string, pat: string): (r: Option<nat>)
    ensures r.Some? ==> OccursAt(s, pat, r.value) && forall k :: 0 <= k < r.value ==> !OccursAt(s, pat, k)
    ensures r.None? <==> !Contains(s, pat)
  {
    IndexOfFrom(s, pat, 0)
  }

  /** If `pat` begins with a character that `prefix` never contains, the first
      occurrence of `pat` in `prefix + pat + rest` is right after `prefix`. */
  lemma {:induction false} IndexAfterPrefix(prefix: string, pat: string, rest: string)
    requires |pat| > 0 && pat[0] !in prefix
    ensures IndexOf(prefix + pat + rest, pat) == Some(|prefix|)
  {
    var s := prefix + pat + rest;
    assert OccursAt(s, pat, |prefix|) by {
      assert s[|prefix|..|prefix| + |pat|] == pat;
    }
    forall k | 0 <= k < |prefix|
      ensures !OccursAt(s, pat, k)
    {
      assert s[k] == prefix[k];
    }
  }

  // ---------------------------------------------------------------------------
  // String.prototype.replace with a string pattern and a string replacement
  // ---------------------------------------------------------------------------

  /** The replacement text actually inserted by `replace` for one match
      (GetSubstitution of ECMA-262 with no capture groups): `$$` gives `$`,
      `$&` the matched text, `` $` `` the text before the match, `$'` the text
      after it; every other character, including a `$` that starts none of
      these, is copied. */
  function Substitution(matched: string, before: string, after: string, rep: string): (r: string)
    ensures rep == "$$" ==> r == "$"
    ensures rep == "$&" ==> r == matched
    ensures rep == "$`" ==> r == before
    ensures rep == "$'" ==> r == after
    decreases |rep|
  {
    if |rep| == 0 then []
    else if rep[0] == '$' && |rep| >= 2 && rep[1] == '$' then "$" + Substitution(matched, before, after, rep[2..])
    else if rep[0] == '$' && |rep| >= 2 && rep[1] == '&' then matched + Substitution(matched, before, after, rep[2..])
    else if rep[0] == '$' && |rep| >= 2 && rep[1] == '`' then before + Substitution(matched, before, after, rep[2..])
    else if rep[0] == '$' && |rep| >= 2 && rep[1] == '\'' then after + Substitution(matched, before, after, rep[2..])
    else [rep[0]] + Substitution(matched, before, after, rep[1..])
  }

  /** A replacement without `$` is inserted verbatim. */
  lemma {:induction false} SubstitutionLiteral(matched: string, before: string, after: string, rep: string)
    requires '$' !in rep
    ensures Substitution(matched, before, after, rep) == rep
    decreases |rep|
  {
    if |rep| > 0 {
      assert '$' !in rep[1..];
      SubstitutionLiteral(matched, before, after, rep[1..]);
    }
  }

  /** `i` is where `pat` occurs in `s` for the first time. */
  predicate FirstOccurrence(s: string, pat: string, i: int) {
    OccursAt(s, pat, i) && forall k :: 0 <= k < i ==> !OccursAt(s, pat, k)
  }

  /** `s.replace(pat, rep)`: only the FIRST occurrence of `pat` is replaced. */
  function Replace(s: string, pat: string, rep: string): (r: string)
    ensures !Contains(s, pat) ==> r == s
    ensures forall i | FirstOccurrence(s, pat, i) ::
      r == s[..i] + Substitution(pat, s[..i], s[i + |pat|..], rep) + s[i + |pat|..]
  {
    match IndexOf(s, pat)
    case None => s
    case Some(i) =>
      assert forall j | FirstOccurrence(s, pat, j) :: j == i;
      s[..i] + Substitution(pat, s[..i], s[i + |pat|..], rep) + s[i + |pat|..]
  }

  /** Replacing the first `pat` after a prefix that cannot start it. */
  lemma ReplaceAfterPrefix(prefix: string, pat: string, rest: string, rep: string)
    requires |pat| > 0 && pat[0] !in prefix
    ensures Replace(prefix + pat + rest, pat, rep) == prefix + Substitution(pat, prefix, rest, rep) + rest
  {
    var s := prefix + pat + rest;
    IndexAfterPrefix(prefix, pat, rest);
    assert s[..|prefix|] == prefix;
    assert s[|prefix| + |pat|..] == rest;
  }

  /** `t` is a suffix of `s`. */
  predicate EndsWith(s: string, t: string) {
    |t| <= |s| && s[|s| - |t|..] == t
  }

  /** A prefix that cannot start `pat` survives `replace` untouched. */
  lemma ReplaceKeepsPrefix(prefix: string, rest: string, pat: string, rep: string)
    requires |pat| > 0 && pat[0] !in prefix
    ensures prefix <= Replace(prefix + rest, pat, rep)
  {
    var s := prefix + rest;
    match IndexOf(s, pat)
    case None =>
    case Some(i) =>
      assert FirstOccurrence(s, pat, i);
      assert s[..i][..|prefix|] == prefix;
  }

  /** A text that ends with `pat` and then `tail` still ends with `tail`
      after `replace`: the first occurrence is at the latest that one. */
  lemma ReplaceKeepsSuffix(head: string, pat: string, tail: string, rep: string)
    ensures EndsWith(Replace(head + pat + tail, pat, rep), tail)
  {
    var s := head + pat + tail;
    assert OccursAt(s, pat, |head|) by {
      assert s[|head|..|head| + |pat|] == pat;
    }
    FoundNoLater(s, pat, |head|);
    var i := IndexOf(s, pat).value;
    var after := s[i + |pat|..];
    ReplaceAt(s, pat, rep, i);
    TailSurvives(head + pat, tail, i + |pat|);
    EndsWithAppend(s[..i] + Substitution(pat, s[..i], after, rep), after, tail);
  }

  /** `indexOf` finds an occurrence at `j` or an earlier one. */
  lemma FoundNoLater(s: string, pat: string, j: nat)
    requires OccursAt(s, pat, j)
    ensures IndexOf(s, pat).Some? && IndexOf(s, pat).value <= j
  {
  }

  /** What `replace` builds once `indexOf` has found the match at `i`. */
  lemma ReplaceAt(s: string, pat: string, rep: string, i: nat)
    requires IndexOf(s, pat) == Some(i)
    ensures i + |pat| <= |s|
    ensures Replace(s, pat, rep) == s[..i] + Substitution(pat, s[..i], s[i + |pat|..], rep) + s[i + |pat|..]
  {
  }

  /** Every suffix of `front + tail` that starts within `front` ends with `tail`. */
  lemma TailSurvives(front: string, tail: string, k: nat)
    requires k <= |front|
    ensures EndsWith((front + tail)[k..], tail)
  {
    assert (front + tail)[k..] == front[k..] + tail;
  }

  /** Text put in front of `y` leaves its suffixes in place. */
  lemma EndsWithAppend(x: string, y: string, t: string)
    requires EndsWith(y, t)
    ensures EndsWith(x + y, t)
  {
    assert (x + y)[|x + y| - |t|..] == y[|y| - |t|..];
  }

  /** Filling the slot of a one-slot template, whatever the value: the text
      before and after the slot survives. */
  lemma SlotFrame(head: string, slot: string, tail: string, v: string)
    requires |slot| > 0 && slot[0] !in head
    ensures head <= Replace(head + slot + tail, slot, v)
    ensures EndsWith(Replace(head + slot + tail, slot, v), tail)
  {
    assert head + slot + tail == head + (slot + tail);
    ReplaceKeepsPrefix(head, slot + tail, slot, v);
    ReplaceKeepsSuffix(head, slot, tail, v);
  }

  /** Filling both slots of a two-slot template in turn, whatever the values:
      the text before the first slot and after the second survives. */
  lemma TwoSlotFrame(head: string, slot1: string, middle: string, slot2: string, tail: string, v1: string, v2: string)
    requires |slot1| > 0 && slot1[0] !in head && |slot2| > 0 && slot2[0] !in head
    ensures head <= Replace(Replace(head + slot1 + middle + slot2 + tail, slot1, v1), slot2, v2)
    ensures EndsWith(Replace(Replace(head + slot1 + middle + slot2 + tail, slot1, v1), slot2, v2), tail)
  {
    var rest := middle + slot2 + tail;
    var sub := Substitution(slot1, head, rest, v1);
    var g := head + sub + middle;
    var after := sub + middle + slot2 + tail;
    assert head + slot1 + middle + slot2 + tail == head + slot1 + rest;
    assert head + sub + rest == g + slot2 + tail;
    assert head + sub + rest == head + after;
    ReplaceAfterPrefix(head, slot1, rest, v1);
    ReplaceKeepsPrefix(head, after, slot2, v2);
    ReplaceKeepsSuffix(g, slot2, tail, v2);
  }

  /** A text contains every piece it is built from. */
  lemma ContainsMiddle(a: string, pat: string, b: string)
    ensures Contains(a + pat + b, pat)
  {
    var s := a + pat + b;
    assert s[|a|..|a| + |pat|] == pat;
    assert OccursAt(s, pat, |a|);
  }

  /** Filling the first slot of a two-slot template with anything leaves the
      second slot in place, so a second value without `$` always lands. */
  lemma {:induction false} SecondSlotLands(head: string, slot1: string, middle: string, slot2: string, tail: string,
                                           v1: string, v2: string)
    requires |slot1| > 0 && slot1[0] !in head && '$' !in v2
    ensures Contains(Replace(Replace(head + slot1 + middle + slot2 + tail, slot1, v1), slot2, v2), v2)
  {
    var t := head + slot1 + middle + slot2 + tail;
    var rest := middle + slot2 + tail;
    var g := head + Substitution(slot1, head, rest, v1) + middle;
    assert t == head + slot1 + rest;
    assert head + Substitution(slot1, head, rest, v1) + rest == g + slot2 + tail;
    ReplaceAfterPrefix(head, slot1, rest, v1);
    var f := Replace(t, slot1, v1);
    assert f == g + slot2 + tail;
    ContainsMiddle(g, slot2, tail);
    ReplaceInserts(f, slot2, v2);
  }

  /** A template with two slots, the first replaced and then the second,
      with values without `$` and no earlier occurrence of either slot:
      the values end up exactly where the slots were. */
  lemma {:induction false} FillTwoSlots(head: string, slot1: string, middle: string, slot2: string, tail: string,
                                        v1: string, v2: string)
    requires |slot1| > 0 && slot1[0] !in head && '$' !in v1
    requires |slot2| > 0 && slot2[0] !in head + v1 + middle && '$' !in v2
    ensures Replace(Replace(head + slot1 + middle + slot2 + tail, slot1, v1), slot2, v2)
      == head + v1 + middle + v2 + tail
  {
    var t := head + slot1 + middle + slot2 + tail;
    var rest := middle + slot2 + tail;
    var prefix := head + v1 + middle;
    assert t == head + slot1 + rest;
    assert head + v1 + rest == prefix + slot2 + tail;
    ReplaceAfterPrefix(head, slot1, rest, v1);
    SubstitutionLiteral(slot1, head, rest, v1);
    var f := Replace(t, slot1, v1);
    assert f == prefix + slot2 + tail;
    ReplaceAfterPrefix(prefix, slot2, tail, v2);
    SubstitutionLiteral(slot2, prefix, tail, v2);
    assert Replace(f, slot2, v2) == prefix + v2 + tail;
  }

  /** The replacement "$&" puts the matched text back: the text is unchanged. */
  lemma ReplaceWithMatch(prefix: string, pat: string, rest: string)
    requires |pat| > 0 && pat[0] !in prefix
    ensures Replace(prefix + pat + rest, pat, "$&") == prefix + pat + rest
  {
    ReplaceAfterPrefix(prefix, pat, rest, "$&");
    SubstitutionMatch(pat, prefix, rest);
  }

  /** "$&" stands for the matched text. */
  lemma SubstitutionMatch(matched: string, before: string, after: string)
    ensures Substitution(matched, before, after, "$&") == matched
  {
    var rep := "$&";
    assert rep[0] == '$' && rep[1] == '&' && rep[2..] == [];
    assert Substitution(matched, before, after, []) == [];
  }

  /** When `pat` occurs, a replacement without `$` ends up in the result. */
  lemma ReplaceInserts(s: string, pat: string, rep: string)
    requires Contains(s, pat) && '$' !in rep
    ensures Contains(Replace(s, pat, rep), rep)
  {
    var i := IndexOf(s, pat).value;
    ReplaceAt(s, pat, rep, i);
    SubstitutionLiteral(pat, s[..i], s[i + |pat|..], rep);
    var r := Replace(s, pat, rep);
    assert r == s[..i] + rep + s[i + |pat|..];
    assert r[i..i + |rep|] == rep;
    assert OccursAt(r, rep, i);
  }

  // ---------------------------------------------------------------------------
  // Array.prototype.join
  // ---------------------------------------------------------------------------

  /** `parts.join(sep)`. */
  function Join(parts: seq<string>, sep: string): (r: string)
    ensures |parts| == 0 ==> r == []
    ensures |parts| > 0 ==> parts[0] <= r
  {
    if |parts| == 0 then []
    else if |parts| == 1 then parts[0]
    else parts[0] + sep + Join(parts[1..], sep)
  }

  /** Where item `i` starts in `parts.join(sep)`: the items before it, each
      followed by one separator. */
  function Offset(parts: seq<string>, sep: string, i: nat): nat
    requires i <= |parts|
  {
    if i == 0 then 0 else Offset(parts, sep, i - 1) + |parts[i - 1]| + |sep|
  }

  /** Offsets counted past the first item and its separator. */
  lemma {:induction false} OffsetShift(parts: seq<string>, sep: string, i: nat)
    requires 0 < i <= |parts|
    ensures Offset(parts, sep, i) == |parts[0]| + |sep| + Offset(parts[1..], sep, i - 1)
    decreases i
  {
    if i > 1 {
      OffsetShift(parts, sep, i - 1);
      assert parts[1..][i - 2] == parts[i - 1];
    }
  }

  /** A slice of `t` is the same slice, shifted, of `front + t`. */
  lemma SliceAfterFront(front: string, t: string, lo: nat, hi: nat)
    requires lo <= hi <= |t|
    ensures (front + t)[|front| + lo..|front| + hi] == t[lo..hi]
  {
  }

  /** The joined text is as long as the items plus one separator between
      each neighbouring pair. */
  lemma {:induction false} JoinLength(parts: seq<string>, sep: string)
    requires |parts| > 0
    ensures |Join(parts, sep)| + |sep| == Offset(parts, sep, |parts|)
    decreases |parts|
  {
    if |parts| > 1 {
      JoinLength(parts[1..], sep);
      OffsetShift(parts, sep, |parts|);
    }
  }

  /** Item `i` sits at its offset in the joined text, followed by the
      separator unless it is the last. */
  predicate ItemAt(parts: seq<string>, sep: string, i: nat)
    requires i < |parts|
  {
    var r := Join(parts, sep);
    var o := Offset(parts, sep, i);
    && o + |parts[i]| <= |r|
    && r[o..o + |parts[i]|] == parts[i]
    && (i < |parts| - 1 ==> Offset(parts, sep, i + 1) <= |r| && r[o + |parts[i]|..Offset(parts, sep, i + 1)] == sep)
  }

  /** Every item of `parts.join(sep)` is where its offset says. */
  lemma {:induction false} JoinItem(parts: seq<string>, sep: string, i: nat)
    requires i < |parts|
    ensures ItemAt(parts, sep, i)
    decreases |parts|, 1
  {
    if i == 0 {
      JoinFirst(parts, sep);
    } else {
      JoinLater(parts, sep, i);
    }
  }

  lemma JoinFirst(parts: seq<string>, sep: string)
    requires |parts| > 0
    ensures ItemAt(parts, sep, 0)
  {
    var r := Join(parts, sep);
    var n := |parts[0]|;
    if |parts| > 1 {
      assert r == parts[0] + sep + Join(parts[1..], sep);
      assert Offset(parts, sep, 1) == n + |sep|;
      assert r[n..n + |sep|] == sep;
    }
    assert r[0..n] == parts[0];
  }

  lemma {:induction false} JoinLater(parts: seq<string>, sep: string, i: nat)
    requires 0 < i < |parts|
    ensures ItemAt(parts, sep, i)
    decreases |parts|, 0
  {
    var rest := parts[1..];
    var t := Join(rest, sep);
    assert Join(parts, sep) == parts[0] + sep + t;
    JoinItem(rest, sep, i - 1);
    OffsetShift(parts, sep, i);
    assert rest[i - 1] == parts[i];
    if i < |parts| - 1 {
      OffsetShift(parts, sep, i + 1);
    }
    ShiftItem(parts[0] + sep, t, Offset(rest, sep, i - 1), parts[i],
              if i < |parts| - 1 then Some(Offset(rest, sep, i)) else None, sep);
  }

  /** An item (and the separator after it) found in `t` is found again,
      shifted by `|front|`, in `front + t`. */
  lemma ShiftItem(front: string, t: string, q: nat, item: string, next: Option<nat>, sep: string)
    requires q + |item| <= |t| && t[q..q + |item|] == item
    requires next.Some? ==> q + |item| <= next.value <= |t| && t[q + |item|..next.value] == sep
    ensures |front| + q + |item| <= |front + t|
    ensures (front + t)[|front| + q..|front| + q + |item|] == item
    ensures next.Some? ==> (front + t)[|front| + q + |item|..|front| + next.value] == sep
  {
    SliceAfterFront(front, t, q, q + |item|);
    if next.Some? {
      SliceAfterFront(front, t, q + |item|, next.value);
    }
  }

  // ---------------------------------------------------------------------------
  // String.prototype.trim
  // ---------------------------------------------------------------------------

  /** ECMAScript WhiteSpace and LineTerminator code points. */
  predicate IsWhitespace(c: char): (ws: bool)
    ensures c == ' ' || c == '\t' || c == '\n' || c == '\r' ==> ws
    ensures ws ==> !('0' <= c <= '9') && !('a' <= c <= 'z') && !('A' <= c <= 'Z') && c != '{' && c != '}' && c != '"'
  {
    c == '\t' || c == '\n' || c == '\U{000B}' || c == '\U{000C}' || c == '\r' || c == ' '
    || c == '\U{00A0}' || c == '\U{1680}' || ('\U{2000}' <= c <= '\U{200A}')
    || c == '\U{2028}' || c == '\U{2029}' || c == '\U{202F}' || c == '\U{205F}'
    || c == '\U{3000}' || c == '\U{FEFF}'
  }

  /** The index of the first character at or after `from` that is not
      whitespace, or `|s|` when there is none. */
  function SkipWhitespace(s: string, from: nat): (i: nat)
    requires from <= |s|
    ensures from <= i <= |s|
    ensures forall k | from <= k < i :: IsWhitespace(s[k])
    ensures i == |s| || !IsWhitespace(s[i])
    decreases |s| - from
  {
    if from < |s| && IsWhitespace(s[from]) then SkipWhitespace(s, from + 1) else from
  }

  /** The end of `s[lo..hi]` once its trailing whitespace is dropped. */
  function DropTrailingWhitespace(s: string, lo: nat, hi: nat): (j: nat)
    requires lo <= hi <= |s|
    ensures lo <= j <= hi
    ensures forall k | j <= k < hi :: IsWhitespace(s[k])
    ensures j == lo || !IsWhitespace(s[j - 1])
    decreases hi
  {
    if hi > lo && IsWhitespace(s[hi - 1]) then DropTrailingWhitespace(s, lo, hi - 1) else hi
  }

  /** `s.trim()`: the slice of `s` between its leading and its trailing
      whitespace; the slice neither starts nor ends with whitespace. */
  function Trim(s: string): (r: string)
    ensures var i := SkipWhitespace(s, 0);
      var j := DropTrailingWhitespace(s, i, |s|);
      && r == s[i..j]
      && (forall k | 0 <= k < i :: IsWhitespace(s[k]))
      && (forall k | j <= k < |s| :: IsWhitespace(s[k]))
    ensures r == [] || (!IsWhitespace(r[0]) && !IsWhitespace(r[|r| - 1]))
  {
    var i := SkipWhitespace(s, 0);
    s[i..DropTrailingWhitespace(s, i, |s|)]
  }

  /** Trimming is idempotent. */
  lemma TrimIdempotent(s: string)
    ensures Trim(Trim(s)) == Trim(s)
  {
    TrimKeeps(Trim(s));
  }

  /** Text without leading or trailing whitespace is left as it is. */
  lemma TrimKeeps(s: string)
    requires s == [] || (!IsWhitespace(s[0]) && !IsWhitespace(s[|s| - 1]))
    ensures Trim(s) == s
  {
    assert SkipWhitespace(s, 0) == 0;
    assert DropTrailingWhitespace(s, 0, |s|) == |s|;
    assert s[0..|s|] == s;
  }

  // ---------------------------------------------------------------------------
  // Decimal rendering (`${n}` for a non-negative integer such as Date.now())
  // ---------------------------------------------------------------------------

  predicate IsDigit(c: char) { '0' <= c <= '9' }

  function DigitChar(d: nat): (c: char)
    requires d < 10
    ensures IsDigit(c) && c as int - '0' as int == d
  {
    ['0', '1', '2', '3', '4', '5', '6', '7', '8', '9'][d]
  }

  /** The shortest decimal numeral of `n`. */
  function Decimal(n: nat): (r: string)
    ensures |r| >= 1 && forall k :: 0 <= k < |r| ==> IsDigit(r[k])
    ensures r[0] == '0' ==> r == "0"
  {
    if n < 10 then [DigitChar(n)] else Decimal(n / 10) + [DigitChar(n % 10)]
  }

  /** The value of a numeral. */
  function DecimalValue(s: string): nat
    requires forall k :: 0 <= k < |s| ==> IsDigit(s[k])
  {
    if |s| == 0 then 0
    else
      assert IsDigit(s[|s| - 1]);
      10 * DecimalValue(s[..|s| - 1]) + (s[|s| - 1] as int - '0' as int)
  }

  /** Rendering a number and reading it back gives the number. */
  lemma {:induction false} DecimalRoundTrip(n: nat)
    ensures DecimalValue(Decimal(n)) == n
  {
    if n >= 10 {
      DecimalRoundTrip(n / 10);
      var s := Decimal(n);
      assert s[..|s| - 1] == Decimal(n / 10);
    }
  }

  // ---------------------------------------------------------------------------
  // path.basename (POSIX)
  // ---------------------------------------------------------------------------

  function StripTrailingSlashes(p: string): (r: string)
    ensures |r| <= |p| && r == p[..|r|] && (r == [] || r[|r| - 1] != '/')
    ensures forall k :: |r| <= k < |p| ==> p[k] == '/'
  {
    if |p| > 0 && p[|p| - 1] == '/' then StripTrailingSlashes(p[..|p| - 1]) else p
  }

  /** Index just after the last `/` of `p`, 0 when there is none. */
  function AfterLastSlash(p: string): (i: nat)
    ensures i <= |p| && (i > 0 ==> p[i - 1] == '/')
    ensures forall k :: i <= k < |p| ==> p[k] != '/'
  {
    if |p| == 0 then 0 else if p[|p| - 1] == '/' then |p| else AfterLastSlash(p[..|p| - 1])
  }

  /** `path.basename(p)`: the last non-empty segment of `p`. */
  function Basename(p: string): (r: string)
    ensures '/' !in r
  {
    var q := StripTrailingSlashes(p);
    q[AfterLastSlash(q)..]
  }

  /** The base name of `dir/name` is `name` when `name` is a non-empty file name. */
  lemma BasenameOfJoin(dir: string, name: string)
    requires name != [] && '/' !in name
    ensures Basename(dir + "/" + name) == name
  {
    var p := dir + "/" + name;
    assert p[|p| - 1] == name[|name| - 1];
    assert StripTrailingSlashes(p) == p;
    var i := AfterLastSlash(p);
    assert p[|dir|] == '/';
    assert forall k :: |dir| + 1 <= k < |p| ==> p[k] == name[k - |dir| - 1];
    assert i == |dir| + 1;
    assert p[i..] == name;
  }

  // ---------------------------------------------------------------------------
  // encodeURIComponent
  // ---------------------------------------------------------------------------

  /** Characters `encodeURIComponent` leaves as they are. */
  predicate IsUnreserved(c: char) {
    ('A' <= c <= 'Z') || ('a' <= c <= 'z') || ('0' <= c <= '9')
    || c == '-' || c == '_' || c == '.' || c == '!' || c == '~' || c == '*'
    || c == '\'' || c == '(' || c == ')'
  }

  predicate IsUpperHex(c: char) { ('0' <= c <= '9') || ('A' <= c <= 'F') }

  function HexDigit(d: nat): (c: char)
    requires d < 16
    ensures IsUpperHex(c)
  {
    ['0', '1', '2', '3', '4', '5', '6', '7', '8', '9', 'A', 'B', 'C', 'D', 'E', 'F'][d]
  }

  /** The UTF-8 encoding of one Unicode scalar value. */
  function Utf8(c: char): (r: seq<nat>)
    ensures 1 <= |r| <= 4 && forall k :: 0 <= k < |r| ==> r[k] < 256
  {
    var n := c as int;
    if n < 0x80 then [n]
    else if n < 0x800 then [0xC0 + n / 0x40, 0x80 + n % 0x40]
    else if n < 0x10000 then [0xE0 + n / 0x1000, 0x80 + (n / 0x40) % 0x40, 0x80 + n % 0x40]
    else [0xF0 + n / 0x40000, 0x80 + (n / 0x1000) % 0x40, 0x80 + (n / 0x40) % 0x40, 0x80 + n % 0x40]
  }

  /** `%XX` for every byte, upper-case hexadecimal. */
  function PercentBytes(bytes: seq<nat>): (r: string)
    requires forall k :: 0 <= k < |bytes| ==> bytes[k] < 256
    ensures |r| == 3 * |bytes|
    ensures forall k :: 0 <= k < |r| ==> r[k] == '%' || IsUpperHex(r[k])
  {
    if |bytes| == 0 then []
    else ['%', HexDigit(bytes[0] / 16), HexDigit(bytes[0] % 16)] + PercentBytes(bytes[1..])
  }

  function EncodeChar(c: char): (r: string)
    ensures IsUnreserved(c) ==> r == [c]
    ensures !IsUnreserved(c) ==> |r| >= 3 && r[0] == '%'
    ensures forall k :: 0 <= k < |r| ==> IsUnreserved(r[k]) || r[k] == '%'
  {
    if IsUnreserved(c) then [c] else PercentBytes(Utf8(c))
  }

  /** `encodeURIComponent(s)` (section 2.1 of RFC 3986 percent-encoding of the
      UTF-8 bytes of every character outside the unreserved set). */
  function EncodeUriComponent(s: string): (r: string)
    ensures |r| >= |s|
    ensures forall k :: 0 <= k < |r| ==> IsUnreserved(r[k]) || r[k] == '%'
  {
    if |s| == 0 then [] else EncodeChar(s[0]) + EncodeUriComponent(s[1..])
  }

  /** Encoding works character by character. */
  lemma {:induction false} EncodeConcat(a: string, b: string)
    ensures EncodeUriComponent(a + b) == EncodeUriComponent(a) + EncodeUriComponent(b)
    decreases |a|
  {
    if |a| > 0 {
      var c := EncodeChar(a[0]);
      assert (a + b)[0] == a[0] && (a + b)[1..] == a[1..] + b;
      assert EncodeUriComponent(a + b) == c + EncodeUriComponent(a[1..] + b);
      EncodeConcat(a[1..], b);
      assert c + (EncodeUriComponent(a[1..]) + EncodeUriComponent(b))
          == c + EncodeUriComponent(a[1..]) + EncodeUriComponent(b);
    } else {
      assert a + b == b;
    }
  }

  /** Text made only of unreserved characters is not changed. */
  lemma {:induction false} EncodeUnreserved(s: string)
    requires forall k :: 0 <= k < |s| ==> IsUnreserved(s[k])
    ensures EncodeUriComponent(s) == s
    decreases |s|
  {
    if |s| > 0 {
      EncodeUnreserved(s[1..]);
    }
  }

  /** `encodeURIComponent("/")` is "%2F". */
  lemma EncodeSlash()
    ensures EncodeUriComponent("/") == "%2F"
  {
    assert !IsUnreserved('/');
    assert Utf8('/') == [0x2F];
    assert PercentBytes([0x2F]) == ['%', HexDigit(2), HexDigit(15)] + PercentBytes([]);
    assert EncodeUriComponent("/") == EncodeChar('/') + EncodeUriComponent([]);
  }

  /** A two-segment absolute path of unreserved characters is encoded by
      encoding its two slashes. */
  lemma EncodeTwoSegments(a: string, b: string)
    requires forall k :: 0 <= k < |a| ==> IsUnreserved(a[k])
    requires forall k :: 0 <= k < |b| ==> IsUnreserved(b[k])
    ensures EncodeUriComponent("/" + a + "/" + b) == "%2F" + a + "%2F" + b
  {
    EncodeSlash();
    EncodeUnreserved(a);
    EncodeUnreserved(b);
    EncodeConcat("/", a);
    EncodeConcat("/" + a, "/");
    EncodeConcat("/" + a + "/", b);
  }
}
