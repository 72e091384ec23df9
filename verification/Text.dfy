/**
 * Text operations the sources borrow from the platform: case folding, trimming,
 * removal, joining and splitting on a separator, and code-unit order.
 */
module Text {
  import opened Prelude

  /** Case folding of the ASCII letters; other characters stand for themselves. */
  function Fold(c: char): char {
    if 'A' <= c <= 'Z' then (c as int - 'A' as int + 'a' as int) as char else c
  }

  /** `text.toLowerCase()` on the same letters. */
  function Lower(s: string): (r: string)
    ensures |r| == |s|
  {
    seq(|s|, i requires 0 <= i < |s| => Fold(s[i]))
  }

  /** White space and line terminators, as `trim` understands them. */
  predicate IsSpace(c: char) {
    c in {' ', '\t', '\n', '\r', '\U{000B}', '\U{000C}', '\U{00A0}', '\U{1680}', '\U{2028}', '\U{2029}', '\U{202F}',
          '\U{205F}', '\U{3000}', '\U{FEFF}'}
    || '\U{2000}' <= c <= '\U{200A}'
  }

  function TrimStart(s: string): string {
    if |s| > 0 && IsSpace(s[0]) then TrimStart(s[1..]) else s
  }

  function TrimEnd(s: string): string {
    if |s| > 0 && IsSpace(s[|s| - 1]) then TrimEnd(s[..|s| - 1]) else s
  }

  function Trim(s: string): string {
    TrimEnd(TrimStart(s))
  }

  predicate AllSpace(s: string) {
    forall i :: 0 <= i < |s| ==> IsSpace(s[i])
  }

  predicate Trimmed(s: string) {
    s == "" || (!IsSpace(s[0]) && !IsSpace(s[|s| - 1]))
  }

  /** Trimming cuts off white space at both ends, and all of it. */
  lemma {:induction false} TrimExactly(s: string) returns (before: string, after: string)
    ensures s == before + Trim(s) + after && AllSpace(before) && AllSpace(after) && Trimmed(Trim(s))
  {
    hide IsSpace;
    before := StartCut(s);
    var rest := TrimStart(s);
    after := EndCut(rest);
    assert Trim(s) != "" ==> Trim(s)[0] == rest[0];
    assert s == before + (Trim(s) + after) == before + Trim(s) + after;
  }

  lemma {:induction false} StartCut(s: string) returns (before: string)
    ensures s == before + TrimStart(s) && AllSpace(before)
    ensures TrimStart(s) != "" ==> !IsSpace(TrimStart(s)[0])
  {
    hide IsSpace;
    before := "";
    if s != "" && IsSpace(s[0]) {
      var more := StartCut(s[1..]);
      before := [s[0]] + more;
      assert s == [s[0]] + s[1..];
    }
  }

  lemma {:induction false} EndCut(s: string) returns (after: string)
    ensures s == TrimEnd(s) + after && AllSpace(after)
    ensures TrimEnd(s) != "" ==> !IsSpace(TrimEnd(s)[|TrimEnd(s)| - 1])
  {
    hide IsSpace;
    after := "";
    if s != "" && IsSpace(s[|s| - 1]) {
      var more := EndCut(s[..|s| - 1]);
      after := more + [s[|s| - 1]];
      assert s == s[..|s| - 1] + [s[|s| - 1]];
    }
  }

  /** `!text || text.trim() === ""`. */
  predicate Blank(s: string) {
    Trim(s) == ""
  }

  lemma {:induction false} BlankExactly(s: string)
    ensures Blank(s) <==> AllSpace(s)
  {
    var before, after := TrimExactly(s);
    if Trim(s) != "" {
      assert s[|before|] == Trim(s)[0];
    }
  }

  function RemoveChars(s: string, chars: set<char>): string {
    if s == "" then ""
    else if s[0] in chars then RemoveChars(s[1..], chars)
    else [s[0]] + RemoveChars(s[1..], chars)
  }

  lemma {:induction false} RemoveCharsNone(s: string, chars: set<char>)
    requires forall i :: 0 <= i < |s| ==> s[i] !in chars
    ensures RemoveChars(s, chars) == s
  {
    if s != "" {
      RemoveCharsNone(s[1..], chars);
      assert s == [s[0]] + s[1..];
    }
  }

  predicate MatchesAt(s: string, pattern: string, i: nat) {
    i + |pattern| <= |s| && forall k :: 0 <= k < |pattern| ==> Fold(s[i + k]) == Fold(pattern[k])
  }

  /** Leftmost case-insensitive occurrence of `pattern` at or after `from`. */
  function FirstMatch(s: string, pattern: string, from: nat): (r: Option<nat>)
    requires from <= |s|
    ensures r.Some? ==> from <= r.value && MatchesAt(s, pattern, r.value)
    ensures r.Some? ==> forall i :: from <= i < r.value ==> !MatchesAt(s, pattern, i)
    ensures r.None? ==> forall i :: from <= i <= |s| ==> !MatchesAt(s, pattern, i)
    decreases |s| - from
  {
    if MatchesAt(s, pattern, from) then Some(from)
    else if from == |s| then None
    else FirstMatch(s, pattern, from + 1)
  }

  /** `text.replace(new RegExp(pattern, "i"), "")` for a pattern without special characters. */
  function RemoveFirst(s: string, pattern: string): string {
    match FirstMatch(s, pattern, 0)
    case None => s
    case Some(i) => s[..i] + s[i + |pattern|..]
  }

  // ----- joining and splitting -----

  predicate Free(s: string, sep: char) {
    forall i :: 0 <= i < |s| ==> s[i] != sep
  }

  /** `parts.join(sep)`. */
  function Join(parts: seq<string>, sep: char): string {
    if |parts| == 0 then ""
    else if |parts| == 1 then parts[0]
    else parts[0] + [sep] + Join(parts[1..], sep)
  }

  /** Index of the first `sep`, or the length when there is none. */
  function IndexOf(s: string, sep: char): (i: nat)
    ensures i <= |s| && Free(s[..i], sep)
    ensures i < |s| ==> s[i] == sep
  {
    if s == "" || s[0] == sep then 0 else 1 + IndexOf(s[1..], sep)
  }

  lemma {:induction false} IndexOfAfterFree(a: string, rest: string, sep: char)
    requires Free(a, sep) && (rest == "" || rest[0] == sep)
    ensures IndexOf(a + rest, sep) == |a|
  {
    var i := IndexOf(a + rest, sep);
    assert forall k :: 0 <= k < |a| ==> (a + rest)[k] == a[k];
    assert rest != "" ==> (a + rest)[|a|] == rest[0];
  }

  /** `text.split(sep)`. */
  function Split(s: string, sep: char): (parts: seq<string>)
    ensures |parts| >= 1
    ensures forall k :: 0 <= k < |parts| ==> Free(parts[k], sep)
    decreases |s|
  {
    var i := IndexOf(s, sep);
    if i == |s| then [s] else [s[..i]] + Split(s[i + 1..], sep)
  }

  lemma {:induction false} SplitAt(s: string, i: nat, sep: char)
    requires i < |s| && s[i] == sep && Free(s[..i], sep)
    ensures Split(s, sep) == [s[..i]] + Split(s[i + 1..], sep)
  {
    assert s == s[..i] + s[i..];
    IndexOfAfterFree(s[..i], s[i..], sep);
  }

  /** Splitting undoes joining, piece by piece, whatever the pieces hold. */
  lemma {:induction false} SplitAppend(a: string, b: string, sep: char)
    ensures Split(a + [sep] + b, sep) == Split(a, sep) + Split(b, sep)
    decreases |a|
  {
    var i := IndexOf(a, sep);
    var whole := a + [sep] + b;
    assert whole[..i] == a[..i];
    SplitAt(whole, i, sep);
    if i == |a| {
      assert a[..i] == a && whole[i + 1..] == b;
    } else {
      var tail := a[i + 1..];
      assert whole[i + 1..] == tail + [sep] + b;
      SplitAppend(tail, b, sep);
      assert [a[..i]] + (Split(tail, sep) + Split(b, sep)) == ([a[..i]] + Split(tail, sep)) + Split(b, sep);
    }
  }

  lemma {:induction false} SplitJoin(parts: seq<string>, sep: char)
    requires |parts| > 0 && forall k :: 0 <= k < |parts| ==> Free(parts[k], sep)
    ensures Split(Join(parts, sep), sep) == parts
  {
    IndexOfAfterFree(parts[0], "", sep);
    assert parts[0] + "" == parts[0];
    assert parts[0][..|parts[0]|] == parts[0];
    if |parts| == 1 {
      assert parts == [parts[0]];
    } else {
      SplitJoin(parts[1..], sep);
      SplitAppend(parts[0], Join(parts[1..], sep), sep);
      assert parts == [parts[0]] + parts[1..];
    }
  }

  lemma {:induction false} SplitOne(s: string, sep: char)
    ensures |Split(s, sep)| == 1 <==> Free(s, sep)
  {
    var i := IndexOf(s, sep);
    if i == |s| {
      assert s[..i] == s;
    }
  }

  /** Joined pieces split into at least as many, and into just as many only when none held the separator. */
  lemma {:induction false} SplitCounts(parts: seq<string>, sep: char)
    requires |parts| > 0
    ensures |Split(Join(parts, sep), sep)| >= |parts|
    ensures |Split(Join(parts, sep), sep)| == |parts| <==> forall k :: 0 <= k < |parts| ==> Free(parts[k], sep)
  {
    hide Split, Free;
    SplitOne(parts[0], sep);
    if |parts| > 1 {
      SplitCounts(parts[1..], sep);
      SplitAppend(parts[0], Join(parts[1..], sep), sep);
      assert parts == [parts[0]] + parts[1..];
    }
  }

  lemma {:induction false} JoinCons(first: string, rest: seq<string>, sep: char)
    requires rest != []
    ensures Join([first] + rest, sep) == first + [sep] + Join(rest, sep)
  {
    assert ([first] + rest)[1..] == rest;
  }

  /** A separator inside a piece may as well lie inside the next one. */
  lemma {:induction false} JoinRegroups(pre: seq<string>, x: string, y: string, z: string, post: seq<string>, sep: char)
    ensures Join(pre + [x + [sep] + y, z] + post, sep) == Join(pre + [x, y + [sep] + z] + post, sep)
  {
    hide Join;
    if pre != [] {
      JoinRegroups(pre[1..], x, y, z, post, sep);
      assert pre + [x + [sep] + y, z] + post == [pre[0]] + (pre[1..] + [x + [sep] + y, z] + post);
      assert pre + [x, y + [sep] + z] + post == [pre[0]] + (pre[1..] + [x, y + [sep] + z] + post);
      JoinCons(pre[0], pre[1..] + [x + [sep] + y, z] + post, sep);
      JoinCons(pre[0], pre[1..] + [x, y + [sep] + z] + post, sep);
    } else {
      JoinPair(x, y, z, post, sep);
      assert [] + [x + [sep] + y, z] + post == [x + [sep] + y] + ([z] + post);
      assert [] + [x, y + [sep] + z] + post == [x] + ([y + [sep] + z] + post);
    }
  }

  lemma {:induction false} JoinPair(x: string, y: string, z: string, post: seq<string>, sep: char)
    ensures Join([x + [sep] + y] + ([z] + post), sep) == Join([x] + ([y + [sep] + z] + post), sep)
  {
    JoinCons(x + [sep] + y, [z] + post, sep);
    JoinCons(x, [y + [sep] + z] + post, sep);
    if post == [] {
      assert [z] + post == [z] && [y + [sep] + z] + post == [y + [sep] + z];
    } else {
      JoinCons(z, post, sep);
      JoinCons(y + [sep] + z, post, sep);
    }
    hide Join;
    var rest := if post == [] then z else z + [sep] + Join(post, sep);
    assert x + [sep] + y + [sep] + rest == x + [sep] + (y + [sep] + rest);
  }

  // ----- code-unit order, as `<` on strings and the default `sort` use it -----

  predicate Less(a: string, b: string) {
    b != "" && (a == "" || a[0] < b[0] || (a[0] == b[0] && Less(a[1..], b[1..])))
  }

  lemma {:induction false} LessTotal(a: string, b: string)
    ensures a == b || Less(a, b) || Less(b, a)
    ensures !(Less(a, b) && Less(b, a))
    decreases |a|
  {
    if a != "" && b != "" && a[0] == b[0] {
      LessTotal(a[1..], b[1..]);
      assert a == [a[0]] + a[1..] && b == [b[0]] + b[1..];
    }
  }

  lemma {:induction false} LessTransitive(a: string, b: string, c: string)
    requires Less(a, b) && Less(b, c)
    ensures Less(a, c)
  {
    if a != "" && a[0] == b[0] && b[0] == c[0] {
      LessTransitive(a[1..], b[1..], c[1..]);
    }
  }
}
