/** The JavaScript string operations the application relies on: `indexOf`,
    `split` with a non-empty separator, `join`, `trim`, a first-match regular
    expression capture up to the end of a line, and ASCII case folding. */
module Text {
  import opened Outcomes

  // ---------------------------------------------------------------------------
  // Character classes (ECMAScript LineTerminator and WhiteSpace)
  // ---------------------------------------------------------------------------

  /** The characters a regular-expression `.` does not match. */
  predicate IsLineTerminator(c: char) {
    c == '\n' || c == '\r' || c == '\U{2028}' || c == '\U{2029}'
  }

  /** The characters `String.prototype.trim` removes. */
  predicate IsWhiteSpace(c: char) {
    || IsLineTerminator(c)
    || c == '\t' || c == '\U{000B}' || c == '\U{000C}' || c == ' '
    || c == '\U{00A0}' || c == '\U{FEFF}' || c == '\U{1680}'
    || ('\U{2000}' <= c <= '\U{200A}')
    || c == '\U{202F}' || c == '\U{205F}' || c == '\U{3000}'
  }

  predicate NoLineTerminator(s: string) {
    forall i :: 0 <= i < |s| ==> !IsLineTerminator(s[i])
  }

  // ---------------------------------------------------------------------------
  // Occurrences and indexOf
  // ---------------------------------------------------------------------------

  predicate OccursAt(s: string, pat: string, i: int) {
    0 <= i && i + |pat| <= |s| && s[i..i + |pat|] == pat
  }

  predicate Contains(s: string, pat: string) {
    exists i | 0 <= i <= |s| :: OccursAt(s, pat, i)
  }

  /** `s.indexOf(pat, from)`, with `None` for -1. */
  function IndexOf(s: string, pat: string, from: nat): (r: Option<nat>)
    ensures r.Some? ==> from <= r.value && OccursAt(s, pat, r.value)
    ensures forall j :: from <= j && (r.None? || j < r.value) ==> !OccursAt(s, pat, j)
    decreases |s| - from
  {
    if from + |pat| > |s| then None
    else if s[from..from + |pat|] == pat then Some(from)
    else IndexOf(s, pat, from + 1)
  }

  // ---------------------------------------------------------------------------
  // split and join
  // ---------------------------------------------------------------------------

  /** `s.split(sep)` for a non-empty separator: the pieces between the
      successive leftmost non-overlapping occurrences of `sep`. */
  function Split(s: string, sep: string): (parts: seq<string>)
    requires sep != []
    ensures parts != []
    ensures |parts| == 1 <==> !Contains(s, sep)
    ensures !Contains(s, sep) ==> parts == [s]
    ensures |parts[0]| <= |s| && parts[0] == s[..|parts[0]|]
    ensures !Contains(parts[0], sep)
    decreases |s|
  {
    match IndexOf(s, sep, 0)
    case None => [s]
    case Some(i) =>
      assert !Contains(s[..i], sep) by {
        forall j | OccursAt(s[..i], sep, j) ensures false {
          assert s[j..j + |sep|] == s[..i][j..j + |sep|];
          assert OccursAt(s, sep, j);
        }
      }
      [s[..i]] + Split(s[i + |sep|..], sep)
  }

  /** `last` ends `s`, holds no `sep`, and, when `afterSep`, follows an
      occurrence of `sep`. */
  predicate EndPiece(s: string, sep: string, last: string, afterSep: bool) {
    && !Contains(last, sep)
    && |last| <= |s| && last == s[|s| - |last|..]
    && (afterSep ==> |last| + |sep| <= |s| && s[|s| - |last| - |sep|..|s| - |last|] == sep)
  }

  /** `s.split(sep).pop()`: the text after the last occurrence of `sep`
      (`LastPieceOfSplit` shows it is the last piece of `Split`). */
  function LastPiece(s: string, sep: string): string
    requires sep != []
    decreases |s|
  {
    match IndexOf(s, sep, 0)
    case None => s
    case Some(i) => LastPiece(s[i + |sep|..], sep)
  }

  /** `LastPiece` is the last element of the split. */
  lemma {:induction false} LastPieceOfSplit(s: string, sep: string)
    requires sep != []
    ensures LastPiece(s, sep) == Split(s, sep)[|Split(s, sep)| - 1]
    decreases |s|
  {
    match IndexOf(s, sep, 0)
    case None =>
    case Some(i) =>
      var tail := s[i + |sep|..];
      assert LastPiece(s, sep) == LastPiece(tail, sep);
      SplitUnfold(s, sep, i);
      LastPieceOfSplit(tail, sep);
      LastOfSplit(s[..i], Split(s, sep), Split(tail, sep));
  }

  lemma LastOfSplit(x: string, parts: seq<string>, rest: seq<string>)
    requires rest != [] && parts == [x] + rest
    ensures |parts| > 1 && parts[|parts| - 1] == rest[|rest| - 1]
  {
  }

  /** The last piece is the text after the last occurrence of the separator,
      or the whole string when there is none. */
  lemma {:induction false} SplitLast(s: string, sep: string)
    requires sep != []
    ensures EndPiece(s, sep, LastPiece(s, sep), IndexOf(s, sep, 0).Some?)
    decreases |s|
  {
    match IndexOf(s, sep, 0)
    case Some(i) =>
      var tail := s[i + |sep|..];
      SplitLast(tail, sep);
      EndPieceExtends(s, sep, i, LastPiece(tail, sep), IndexOf(tail, sep, 0).Some?);
    case None =>
      assert !Contains(s, sep);
      assert s[|s| - |s|..] == s;
  }

  lemma EndPieceExtends(s: string, sep: string, i: nat, last: string, many: bool)
    requires OccursAt(s, sep, i)
    requires EndPiece(s[i + |sep|..], sep, last, many)
    requires !many ==> last == s[i + |sep|..]
    ensures EndPiece(s, sep, last, true)
  {
    EndOfTail(s, i + |sep|, last, |sep|, many);
    if !many {
      assert s[|s| - |last| - |sep|..|s| - |last|] == s[i..i + |sep|];
    }
  }

  lemma SplitUnfold(s: string, sep: string, i: nat)
    requires sep != [] && IndexOf(s, sep, 0) == Some(i)
    ensures Split(s, sep) == [s[..i]] + Split(s[i + |sep|..], sep)
  {
  }

  /** A suffix of `s[k..]` is a suffix of `s`, and so is the piece of width
      `w` in front of it, when `s[k..]` had room for it. */
  lemma EndOfTail(s: string, k: nat, last: string, w: nat, roomInTail: bool)
    requires k <= |s| && |last| <= |s| - k && last == s[k..][|s| - k - |last|..]
    requires roomInTail ==> |last| + w <= |s| - k
    ensures last == s[|s| - |last|..]
    ensures roomInTail ==> s[k..][|s| - k - |last| - w..|s| - k - |last|] == s[|s| - |last| - w..|s| - |last|]
  {
  }

  /** `parts.join(sep)`. */
  function Join(parts: seq<string>, sep: string): string {
    if |parts| == 0 then ""
    else if |parts| == 1 then parts[0]
    else parts[0] + sep + Join(parts[1..], sep)
  }

  /** The first and last characters of joined non-empty pieces are those of the
      first and last pieces. */
  lemma {:induction false} JoinEnds(parts: seq<string>, sep: string)
    requires |parts| >= 1 && forall k :: 0 <= k < |parts| ==> parts[k] != []
    ensures var j := Join(parts, sep);
            j != [] && j[0] == parts[0][0] && j[|j| - 1] == parts[|parts| - 1][|parts[|parts| - 1]| - 1]
  {
    if |parts| > 1 {
      JoinEnds(parts[1..], sep);
    }
  }

  /** Splitting loses nothing: joining the pieces with the separator gives the
      original string back. */
  lemma {:induction false} JoinSplit(s: string, sep: string)
    requires sep != []
    ensures Join(Split(s, sep), sep) == s
    decreases |s|
  {
    var r := IndexOf(s, sep, 0);
    if r.Some? {
      var i := r.value;
      var tail := s[i + |sep|..];
      JoinSplit(tail, sep);
      JoinCons(s[..i], Split(tail, sep), sep);
      SplitAround(s, sep, i);
    }
  }

  lemma JoinCons(x: string, rest: seq<string>, sep: string)
    requires |rest| >= 1
    ensures Join([x] + rest, sep) == x + sep + Join(rest, sep)
  {
    assert ([x] + rest)[1..] == rest;
  }

  lemma SplitAround(s: string, sep: string, i: nat)
    requires OccursAt(s, sep, i)
    ensures s == s[..i] + sep + s[i + |sep|..]
  {
    assert s == s[..i] + s[i..i + |sep|] + s[i + |sep|..];
  }

  /** `(a + c + b).split(c)[0]` is `a` when `a` has no `c`. */
  lemma FirstPieceBeforeSeparator(a: string, c: char, b: string)
    requires c !in a
    ensures Split(a + [c] + b, [c])[0] == a
  {
    var s := a + [c] + b;
    assert OccursAt(s, [c], |a|) by {
      assert s[|a|..|a| + 1] == [c];
    }
    forall j | 0 <= j < |a| ensures !OccursAt(s, [c], j) {
      assert s[j..j + 1] == [a[j]];
      assert a[j] in a;
    }
    assert IndexOf(s, [c], 0) == Some(|a|);
    SplitUnfold(s, [c], |a|);
    assert s[..|a|] == a;
  }

  /** A character that no piece holds and that is not the separator is not in
      the joined string. */
  lemma CharNotInJoin(parts: seq<string>, sep: char, c: char)
    requires c != sep && forall k :: 0 <= k < |parts| ==> c !in parts[k]
    ensures c !in Join(parts, [sep])
  {
    forall k | 0 <= k < |parts| ensures !Contains(parts[k], [c]) {
      NoCharNoOccurrence(parts[k], [c]);
    }
    NoOccurrenceInJoin(parts, sep, [c]);
    var j := Join(parts, [sep]);
    forall i | 0 <= i < |j| ensures j[i] != c {
      assert !OccursAt(j, [c], i);
      assert j[i..i + 1] == [j[i]];
    }
  }

  /** Joining pieces that do not contain a one-character separator and
      splitting again gives the pieces back. */
  lemma {:induction false} SplitJoin(parts: seq<string>, c: char)
    requires |parts| >= 1
    requires forall k :: 0 <= k < |parts| ==> c !in parts[k]
    ensures Split(Join(parts, [c]), [c]) == parts
  {
    var s := Join(parts, [c]);
    if |parts| == 1 {
      NoCharNoOccurrence(parts[0], [c]);
    } else {
      var tail := Join(parts[1..], [c]);
      assert s == parts[0] + [c] + tail;
      assert OccursAt(s, [c], |parts[0]|) by {
        assert s[|parts[0]|..|parts[0]| + 1] == [c];
      }
      forall j | 0 <= j < |parts[0]| ensures !OccursAt(s, [c], j) {
        assert s[j] == parts[0][j];
      }
      assert IndexOf(s, [c], 0) == Some(|parts[0]|);
      assert s[..|parts[0]|] == parts[0];
      assert s[|parts[0]| + 1..] == tail;
      SplitJoin(parts[1..], c);
      assert parts == [parts[0]] + parts[1..];
    }
  }

  // ---------------------------------------------------------------------------
  // Facts about occurrences in concatenations
  // ---------------------------------------------------------------------------

  /** A pattern whose first character never appears in `s` does not occur in `s`. */
  /** A character occurs in a string exactly when the one-character string does. */
  lemma CharOccurs(s: string, c: char)
    ensures c in s <==> Contains(s, [c])
  {
    if c in s {
      var i :| 0 <= i < |s| && s[i] == c;
      assert s[i..i + 1] == [c];
      assert OccursAt(s, [c], i);
    }
    if Contains(s, [c]) {
      var i :| 0 <= i <= |s| && OccursAt(s, [c], i);
      assert s[i..i + 1][0] == s[i];
    }
  }

  lemma NoCharNoOccurrence(s: string, pat: string)
    requires pat != [] && pat[0] !in s
    ensures !Contains(s, pat)
  {
    forall j | 0 <= j <= |s| ensures !OccursAt(s, pat, j) {
      if j + |pat| <= |s| {
        assert s[j..j + |pat|][0] == s[j];
        assert s[j] in s;
      }
    }
  }

  /** In `a + [c] + b`, no occurrence of `pat` starts at or before the
      position of `c` when `a` has none and `c` is not a character of `pat`. */
  lemma NoOccurrenceUpToSeparator(a: string, c: char, b: string, pat: string, j: int)
    requires !Contains(a, pat) && c !in pat && j <= |a|
    ensures !OccursAt(a + [c] + b, pat, j)
  {
    var t := a + [c] + b;
    if 0 <= j && j + |pat| <= |a| {
      assert t[j..j + |pat|] == a[j..j + |pat|];
      assert !OccursAt(a, pat, j);
    } else if 0 <= j && j + |pat| <= |t| {
      assert t[j..j + |pat|][|a| - j] == t[|a|] == c;
      assert t[j..j + |pat|] != pat;
    }
  }

  /** A separator character that is foreign to `pat` keeps occurrences from
      straddling the two sides. */
  lemma NoOccurrenceAcross(a: string, c: char, b: string, pat: string)
    requires !Contains(a, pat) && !Contains(b, pat) && c !in pat
    ensures !Contains(a + [c] + b, pat)
  {
    var t := a + [c] + b;
    forall j | 0 <= j <= |t| ensures !OccursAt(t, pat, j) {
      if j <= |a| {
        NoOccurrenceUpToSeparator(a, c, b, pat, j);
      } else if j + |pat| <= |t| {
        assert t[j..j + |pat|] == b[j - |a| - 1..j - |a| - 1 + |pat|];
        assert !OccursAt(b, pat, j - |a| - 1);
      }
    }
  }

  /** A prefix that lacks the first character of `pat` adds no occurrence. */
  lemma NoOccurrenceAfterForeignPrefix(a: string, b: string, pat: string)
    requires pat != [] && pat[0] !in a && !Contains(b, pat)
    ensures !Contains(a + b, pat)
  {
    var t := a + b;
    forall j | 0 <= j <= |t| ensures !OccursAt(t, pat, j) {
      if j + |pat| > |t| {
      } else if j < |a| {
        assert t[j..j + |pat|][0] == a[j];
        assert a[j] in a;
      } else {
        assert t[j..j + |pat|] == b[j - |a|..j - |a| + |pat|];
        assert !OccursAt(b, pat, j - |a|);
      }
    }
  }

  /** Joined pieces that do not contain `pat` do not contain it either, when the
      one-character separator is foreign to `pat`. */
  lemma {:induction false} NoOccurrenceInJoin(parts: seq<string>, c: char, pat: string)
    requires pat != [] && c !in pat
    requires forall k :: 0 <= k < |parts| ==> !Contains(parts[k], pat)
    ensures !Contains(Join(parts, [c]), pat)
  {
    if |parts| == 0 {
      NoCharNoOccurrence("", pat);
    } else if |parts| > 1 {
      NoOccurrenceInJoin(parts[1..], c, pat);
      NoOccurrenceAcross(parts[0], c, Join(parts[1..], [c]), pat);
    }
  }

  /** Containment is transitive. */
  lemma ContainsTransitive(a: string, b: string, c: string)
    requires Contains(a, b) && Contains(b, c)
    ensures Contains(a, c)
  {
    var i :| 0 <= i <= |a| && OccursAt(a, b, i);
    var j :| 0 <= j <= |b| && OccursAt(b, c, j);
    assert b == a[i..i + |b|];
    forall k | 0 <= k < |c| ensures a[i + j + k] == c[k] {
      assert c[k] == b[j + k] == a[i + j + k];
    }
    assert a[i + j..i + j + |c|] == c;
    assert OccursAt(a, c, i + j);
  }

  lemma OccursAfterPrefix(a: string, b: string, pat: string)
    requires |pat| <= |b| && b[..|pat|] == pat
    ensures OccursAt(a + b, pat, |a|)
  {
    assert (a + b)[|a|..] == b;
    assert (a + b)[|a|..|a| + |pat|] == pat;
  }

  /** The first occurrence of `pat` in `a + [c] + b`, where `b` starts with
      `pat`, is the one right after `c`. */
  lemma FirstOccurrenceAfterSeparator(a: string, c: char, b: string, pat: string)
    requires !Contains(a, pat) && c !in pat
    requires |pat| <= |b| && b[..|pat|] == pat
    ensures IndexOf(a + [c] + b, pat, 0) == Some(|a| + 1)
  {
    var t := a + [c] + b;
    OccursAfterPrefix(a + [c], b, pat);
    var r := IndexOf(t, pat, 0);
    assert r.Some? && r.value <= |a| + 1;
    if r.value <= |a| {
      NoOccurrenceUpToSeparator(a, c, b, pat, r.value);
    }
  }

  // ---------------------------------------------------------------------------
  // trim
  // ---------------------------------------------------------------------------

  /** Drops the leading white space. */
  function TrimStart(s: string): (r: string)
    ensures |r| <= |s| && r == s[|s| - |r|..]
    ensures r == [] || !IsWhiteSpace(r[0])
    ensures forall i :: 0 <= i < |s| - |r| ==> IsWhiteSpace(s[i])
  {
    if |s| > 0 && IsWhiteSpace(s[0]) then TrimStart(s[1..]) else s
  }

  /** Drops the trailing white space. */
  function TrimEnd(s: string): (r: string)
    ensures |r| <= |s| && r == s[..|r|]
    ensures r == [] || !IsWhiteSpace(r[|r| - 1])
    ensures forall i :: |r| <= i < |s| ==> IsWhiteSpace(s[i])
  {
    if |s| > 0 && IsWhiteSpace(s[|s| - 1]) then TrimEnd(s[..|s| - 1]) else s
  }

  /** `s.trim()`. */
  function Trim(s: string): (r: string)
    ensures r == [] || (!IsWhiteSpace(r[0]) && !IsWhiteSpace(r[|r| - 1]))
    ensures Contains(s, r)
  {
    var t := TrimStart(s);
    var r := TrimEnd(t);
    assert OccursAt(s, r, |s| - |t|) by {
      assert r == t[..|r|] == s[|s| - |t|..|s| - |t| + |r|];
    }
    r
  }

  /** `trim` leaves alone a string that has no white space at either end. */
  lemma TrimNoop(s: string)
    requires s == [] || (!IsWhiteSpace(s[0]) && !IsWhiteSpace(s[|s| - 1]))
    ensures Trim(s) == s
  {
  }

  /** `trim` removes white space around a core that does not start or end with
      white space. */
  lemma {:induction false} TrimPadded(w1: string, core: string, w2: string)
    requires forall i :: 0 <= i < |w1| ==> IsWhiteSpace(w1[i])
    requires forall i :: 0 <= i < |w2| ==> IsWhiteSpace(w2[i])
    requires core != [] && !IsWhiteSpace(core[0]) && !IsWhiteSpace(core[|core| - 1])
    ensures Trim(w1 + core + w2) == core
  {
    TrimStartSkips(w1, core + w2);
    assert w1 + core + w2 == w1 + (core + w2);
    TrimEndSkips(core, w2);
  }

  lemma {:induction false} TrimStartSkips(w: string, t: string)
    requires forall i :: 0 <= i < |w| ==> IsWhiteSpace(w[i])
    requires t != [] && !IsWhiteSpace(t[0])
    ensures TrimStart(w + t) == t
  {
    if w != [] {
      assert (w + t)[1..] == w[1..] + t;
      TrimStartSkips(w[1..], t);
    }
  }

  lemma {:induction false} TrimEndSkips(t: string, w: string)
    requires forall i :: 0 <= i < |w| ==> IsWhiteSpace(w[i])
    requires t != [] && !IsWhiteSpace(t[|t| - 1])
    ensures TrimEnd(t + w) == t
    decreases |w|
  {
    if w != [] {
      assert (t + w)[..|t + w| - 1] == t + w[..|w| - 1];
      TrimEndSkips(t, w[..|w| - 1]);
    }
  }

  // ---------------------------------------------------------------------------
  // Regular-expression capture `/<marker>(.+)/`
  // ---------------------------------------------------------------------------

  /** The text up to, not including, the first line terminator. */
  function RestOfLine(t: string): (r: string)
    ensures |r| <= |t| && r == t[..|r|]
    ensures NoLineTerminator(r)
    ensures |r| == |t| || IsLineTerminator(t[|r|])
  {
    if t == [] || IsLineTerminator(t[0]) then [] else [t[0]] + RestOfLine(t[1..])
  }

  /** The regular expression `/<marker>(.+)/` matches at position `i`: the
      marker is there and at least one non-terminator follows it. */
  predicate MatchesAt(s: string, marker: string, i: int) {
    OccursAt(s, marker, i) && i + |marker| < |s| && !IsLineTerminator(s[i + |marker|])
  }

  /** `s.match(/<marker>(.+)/)?.[1]` searched from position `from`: the
      capture at the leftmost match, or `None` if there is no match. */
  function MatchFrom(s: string, marker: string, from: nat): (r: Option<string>)
    ensures r.Some? <==> exists i :: from <= i && MatchesAt(s, marker, i)
    ensures r.Some? ==> r.value != [] && NoLineTerminator(r.value)
    decreases |s| - from
  {
    if from + |marker| >= |s| then None
    else if MatchesAt(s, marker, from) then Some(RestOfLine(s[from + |marker|..]))
    else MatchFrom(s, marker, from + 1)
  }

  /** `s.match(/<marker>(.+)/)?.[1]`. */
  function MatchLineAfter(s: string, marker: string): (r: Option<string>)
    ensures r.None? <==> forall i :: !MatchesAt(s, marker, i)
  {
    MatchFrom(s, marker, 0)
  }

  /** The capture taken at a match position before which no match exists. */
  lemma MatchLineAfterAt(s: string, marker: string, i: nat)
    requires MatchesAt(s, marker, i)
    requires forall j :: 0 <= j < i ==> !MatchesAt(s, marker, j)
    ensures MatchLineAfter(s, marker) == Some(RestOfLine(s[i + |marker|..]))
  {
    MatchFromAt(s, marker, 0, i);
  }

  lemma {:induction false} MatchFromAt(s: string, marker: string, from: nat, i: nat)
    requires from <= i && MatchesAt(s, marker, i)
    requires forall j :: from <= j < i ==> !MatchesAt(s, marker, j)
    ensures MatchFrom(s, marker, from) == Some(RestOfLine(s[i + |marker|..]))
    decreases i - from
  {
    if from < i {
      assert !MatchesAt(s, marker, from);
      MatchFromAt(s, marker, from + 1, i);
    }
  }

  /** The line that follows a terminator-free text is that text. */
  lemma RestOfLineOf(a: string, c: char, b: string)
    requires NoLineTerminator(a) && IsLineTerminator(c)
    ensures RestOfLine(a + [c] + b) == a
  {
    var t := a + [c] + b;
    var r := RestOfLine(t);
    assert t[|a|] == c;
    assert t[..|a|] == a;
    assert forall i :: 0 <= i < |a| ==> t[i] == a[i];
    assert |r| == |a|;
  }

  lemma RestOfLineWhole(a: string)
    requires NoLineTerminator(a)
    ensures RestOfLine(a) == a
  {
  }

  // ---------------------------------------------------------------------------
  // ASCII case folding
  // ---------------------------------------------------------------------------

  function LowerChar(c: char): char {
    if 'A' <= c <= 'Z' then (c as int + 32) as char else c
  }

  function UpperChar(c: char): char {
    if 'a' <= c <= 'z' then (c as int - 32) as char else c
  }

  function Lower(s: string): (r: string)
    ensures |r| == |s| && forall i :: 0 <= i < |s| ==> r[i] == LowerChar(s[i])
  {
    seq(|s|, i requires 0 <= i < |s| => LowerChar(s[i]))
  }

  /** The string ends with `suffix`, comparing letters without regard to ASCII case. */
  predicate EndsWithIgnoreCase(s: string, suffix: string) {
    |suffix| <= |s| && Lower(s[|s| - |suffix|..]) == Lower(suffix)
  }
}
