/**
 * The handful of Python `str` operations the bot relies on, written out once:
 * substring search, `split` (full and with `maxsplit=1`), `join`, `replace`,
 * `strip` and ASCII `lower`.
 */
module Text {
  import opened Wrappers

  /** `sub` occurs in `s` starting at index `i`. */
  predicate OccursAt(s: string, sub: string, i: nat)
  {
    i + |sub| <= |s| && s[i..i + |sub|] == sub
  }

  predicate StartsWith(s: string, prefix: string)
  {
    OccursAt(s, prefix, 0)
  }

  lemma OccursShift(s: string, sub: string, j: nat)
    requires |s| > 0
    ensures OccursAt(s, sub, j + 1) <==> OccursAt(s[1..], sub, j)
  {
    if j + 1 + |sub| <= |s| {
      assert s[1..][j..j + |sub|] == s[j + 1..j + 1 + |sub|];
    }
  }

  /** Python's `s.find(sub)`: the first index where `sub` occurs, if any. */
  function IndexOf(s: string, sub: string): (r: Option<nat>)
    ensures r.Some? ==> OccursAt(s, sub, r.value)
    ensures r.Some? ==> forall j :: 0 <= j < r.value ==> !OccursAt(s, sub, j)
    ensures r.None? ==> forall j: nat :: !OccursAt(s, sub, j)
    decreases |s|
  {
    if |s| < |sub| then None
    else if s[..|sub|] == sub then Some(0)
    else
      assert !OccursAt(s, sub, 0);
      var rest := IndexOf(s[1..], sub);
      forall j: nat | 1 <= j ensures OccursAt(s, sub, j) <==> OccursAt(s[1..], sub, j - 1) {
        OccursShift(s, sub, j - 1);
      }
      match rest
      case None => None
      case Some(k) => Some(k + 1)
  }

  /** Python's `sub in s`. */
  predicate Contains(s: string, sub: string)
  {
    IndexOf(s, sub).Some?
  }

  lemma ContainsAt(s: string, sub: string, i: nat)
    requires OccursAt(s, sub, i)
    ensures Contains(s, sub)
  {
  }

  /** Python's `sep.join(parts)`. */
  function Join(parts: seq<string>, sep: string): string
  {
    if |parts| == 0 then []
    else if |parts| == 1 then parts[0]
    else parts[0] + sep + Join(parts[1..], sep)
  }

  /** Python's `"".join(parts)`: the parts one after another. */
  function Concat(parts: seq<string>): string
  {
    if parts == [] then []
    else Concat(parts[..|parts| - 1]) + parts[|parts| - 1]
  }

  /** Concatenating is joining with the empty separator. */
  lemma {:induction false} ConcatIsJoin(parts: seq<string>)
    ensures Concat(parts) == Join(parts, "")
  {
    if |parts| >= 2 {
      var front := parts[..|parts| - 1];
      ConcatIsJoin(front);
      JoinLast(parts, "");
    }
  }

  /** Python's `s.split(sep)` for a non-empty separator: cut at every occurrence, left to right. */
  function Split(s: string, sep: string): (parts: seq<string>)
    requires sep != []
    ensures |parts| >= 1
    decreases |s|
  {
    match IndexOf(s, sep)
    case None => [s]
    case Some(i) => [s[..i]] + Split(s[i + |sep|..], sep)
  }

  /** Joining the pieces of a split with the same separator gives back the original text. */
  lemma {:induction false} SplitJoin(s: string, sep: string)
    requires sep != []
    ensures Join(Split(s, sep), sep) == s
    decreases |s|
  {
    match IndexOf(s, sep)
    case None =>
    case Some(i) =>
      var rest := s[i + |sep|..];
      var tail := Split(rest, sep);
      SplitJoin(rest, sep);
      assert Split(s, sep) == [s[..i]] + tail;
      assert Join([s[..i]] + tail, sep) == s[..i] + sep + Join(tail, sep);
      assert s[i..i + |sep|] == sep;
      assert s == s[..i] + sep + rest;
  }

  /** A split yields more than one piece exactly when the separator occurs. */
  lemma SplitCount(s: string, sep: string)
    requires sep != []
    ensures |Split(s, sep)| == 1 <==> !Contains(s, sep)
  {
  }

  /** No piece of a split contains the separator. */
  lemma {:induction false} SplitPiecesFree(s: string, sep: string)
    requires sep != []
    ensures forall k :: 0 <= k < |Split(s, sep)| ==> !Contains(Split(s, sep)[k], sep)
    decreases |s|
  {
    match IndexOf(s, sep)
    case None =>
    case Some(i) =>
      var rest := s[i + |sep|..];
      SplitPiecesFree(rest, sep);
      var head := s[..i];
      if Contains(head, sep) {
        var j := IndexOf(head, sep).value;
        assert head[j..j + |sep|] == s[j..j + |sep|];
        assert OccursAt(s, sep, j);
        assert false;
      }
      assert Split(s, sep) == [head] + Split(rest, sep);
  }

  /** The last piece of a split. */
  function LastPiece(s: string, sep: string): string
    requires sep != []
  {
    var parts := Split(s, sep);
    parts[|parts| - 1]
  }

  /** The last piece of a split is a suffix of the text. */
  lemma LastPieceSuffix(s: string, sep: string)
    requires sep != []
    ensures |LastPiece(s, sep)| <= |s| && LastPiece(s, sep) == s[|s| - |LastPiece(s, sep)|..]
  {
    var parts := Split(s, sep);
    var last := parts[|parts| - 1];
    assert LastPiece(s, sep) == last;
    SplitJoin(s, sep);
    if |parts| >= 2 {
      JoinLast(parts, sep);
      var front := Join(parts[..|parts| - 1], sep) + sep;
      assert s == front + last;
      SuffixOfConcat(front, last);
    } else {
      assert parts == [last];
      assert s == last;
    }
  }

  lemma SuffixOfConcat(a: string, b: string)
    ensures (a + b)[|a + b| - |b|..] == b
  {
  }

  /** Joining at least two parts ends with the separator and the last part. */
  lemma {:induction false} JoinLast(parts: seq<string>, sep: string)
    requires |parts| >= 2
    ensures Join(parts, sep) == Join(parts[..|parts| - 1], sep) + sep + parts[|parts| - 1]
  {
    if |parts| > 2 {
      JoinLast(parts[1..], sep);
      assert parts[1..][..|parts| - 2] == parts[..|parts| - 1][1..];
    }
  }

  /** When the separator occurs, it occurs right before the last piece. */
  lemma LastPieceAfterSeparator(s: string, sep: string)
    requires sep != [] && Contains(s, sep)
    ensures |LastPiece(s, sep)| + |sep| <= |s|
    ensures OccursAt(s, sep, |s| - |LastPiece(s, sep)| - |sep|)
  {
    var parts := Split(s, sep);
    SplitCount(s, sep);
    SplitJoin(s, sep);
    JoinLast(parts, sep);
    var front := Join(parts[..|parts| - 1], sep);
    var v := parts[|parts| - 1];
    assert s == front + sep + v;
    assert s[|front|..|front| + |sep|] == sep;
  }

  /** The last piece of a split holds no separator. */
  lemma LastPieceFree(s: string, sep: string)
    requires sep != []
    ensures !Contains(LastPiece(s, sep), sep)
  {
    SplitPiecesFree(s, sep);
  }

  /** Every character of a piece of a split is a character of the text. */
  lemma {:induction false} SplitPiecesChars(s: string, sep: string)
    requires sep != []
    ensures forall k, c :: 0 <= k < |Split(s, sep)| && c in Split(s, sep)[k] ==> c in s
    decreases |s|
  {
    match IndexOf(s, sep)
    case None =>
    case Some(i) =>
      var rest := s[i + |sep|..];
      SplitPiecesChars(rest, sep);
      assert forall c :: c in s[..i] ==> c in s;
      assert forall c :: c in rest ==> c in s;
      assert Split(s, sep) == [s[..i]] + Split(rest, sep);
  }

  /** A joined text holds only characters of its parts and of the separator. */
  lemma {:induction false} JoinChars(parts: seq<string>, sep: string, c: char)
    requires c in Join(parts, sep)
    ensures c in sep || exists k :: 0 <= k < |parts| && c in parts[k]
  {
    if |parts| > 1 {
      if c !in parts[0] && c !in sep {
        JoinChars(parts[1..], sep, c);
        var k :| 0 <= k < |parts[1..]| && c in parts[1..][k];
        assert c in parts[k + 1];
      }
    }
  }

  /** A text without the separator's last character holds no occurrence of it. */
  lemma NoOccurrenceWithoutLast(p: string, sep: string)
    requires sep != [] && sep[|sep| - 1] !in p
    ensures IndexOf(p, sep).None?
  {
    forall j: nat ensures !OccursAt(p, sep, j) {
      if j + |sep| <= |p| {
        assert p[j..j + |sep|][|sep| - 1] == p[j + |sep| - 1];
      }
    }
  }

  /** In `p + sep + rest`, the first occurrence of `sep` is the one right after `p`,
      when the separator's last character is neither in `p` nor earlier in `sep`. */
  lemma FirstOccurrenceAfter(p: string, sep: string, rest: string)
    requires sep != [] && sep[|sep| - 1] !in p
    requires sep[|sep| - 1] !in sep[..|sep| - 1]
    ensures IndexOf(p + sep + rest, sep) == Some(|p|)
  {
    var s := p + sep + rest;
    assert s[|p|..|p| + |sep|] == sep;
    forall j | 0 <= j < |p| ensures !OccursAt(s, sep, j) {
      if j + |sep| <= |s| {
        var e := j + |sep| - 1;
        if e < |p| {
          assert s[j..j + |sep|][|sep| - 1] == p[e];
        } else {
          assert s[j..j + |sep|][|sep| - 1] == sep[e - |p|];
          assert sep[..|sep| - 1][e - |p|] == sep[e - |p|];
        }
      }
    }
    assert OccursAt(s, sep, |p|);
  }

  /** Splitting text made of separator-free pieces gives the pieces back, when the
      separator's last character appears nowhere else in the pieces or the separator. */
  lemma {:induction false} JoinSplit(parts: seq<string>, sep: string)
    requires sep != [] && |parts| >= 1
    requires forall k :: 0 <= k < |parts| ==> sep[|sep| - 1] !in parts[k]
    requires sep[|sep| - 1] !in sep[..|sep| - 1]
    ensures Split(Join(parts, sep), sep) == parts
  {
    var s := Join(parts, sep);
    var p := parts[0];
    if |parts| == 1 {
      NoOccurrenceWithoutLast(p, sep);
    } else {
      var rest := Join(parts[1..], sep);
      assert s == p + sep + rest;
      FirstOccurrenceAfter(p, sep, rest);
      assert s[|p| + |sep|..] == rest;
      assert s[..|p|] == p;
      JoinSplit(parts[1..], sep);
    }
  }

  /** Python's `s.split(sep, 1)` seen as a pair, or `None` when `sep` does not occur. */
  function SplitOnce(s: string, sep: string): (r: Option<(string, string)>)
    requires sep != []
    ensures r.None? <==> !Contains(s, sep)
    ensures r.Some? ==> r.value.0 + sep + r.value.1 == s && !Contains(r.value.0, sep)
  {
    match IndexOf(s, sep)
    case None => None
    case Some(i) =>
      assert IndexOf(s, sep) == Some(i);
      var head := s[..i];
      assert forall k: nat :: !OccursAt(head, sep, k) by {
        forall k: nat ensures !OccursAt(head, sep, k) {
          if k + |sep| <= |head| {
            assert k < i && !OccursAt(s, sep, k);
            assert head[k..k + |sep|] == s[k..k + |sep|];
          }
        }
      }
      assert head + sep + s[i + |sep|..] == s;
      Some((head, s[i + |sep|..]))
  }

  /** Python's `s.replace(pattern, replacement)` for a non-empty pattern. */
  function ReplaceAll(s: string, pattern: string, replacement: string): string
    requires pattern != []
  {
    Join(Split(s, pattern), replacement)
  }

  /**
   * `replace` cuts the text at every occurrence of the pattern into pattern-free pieces
   * that join back to the text, and puts the replacement between them.
   */
  lemma ReplacePieces(s: string, pattern: string, replacement: string)
    requires pattern != []
    ensures Join(Split(s, pattern), pattern) == s
    ensures forall k :: 0 <= k < |Split(s, pattern)| ==> !Contains(Split(s, pattern)[k], pattern)
    ensures ReplaceAll(s, pattern, replacement) == Join(Split(s, pattern), replacement)
  {
    SplitJoin(s, pattern);
    SplitPiecesFree(s, pattern);
  }

  /** Removing a pattern the text starts with, when it does not occur again, leaves the rest. */
  lemma ReplaceLeading(m: string, x: string)
    requires m != [] && !Contains(x, m)
    ensures ReplaceAll(m + x, m, "") == x
  {
    assert OccursAt(m + x, m, 0);
    assert IndexOf(m + x, m) == Some(0);
    assert (m + x)[|m|..] == x;
    assert Split(m + x, m) == [""] + Split(x, m);
    assert Split(x, m) == [x];
    assert Join(["", x], "") == x;
  }

  /**
   * A pattern of two or more characters does not occur in `m + x` when it does not occur
   * in `x` and no character of `m` can start it: either it differs from the pattern's
   * first character or the next character of `m` differs from the pattern's second.
   */
  lemma AbsentInConcat(m: string, x: string, p: string)
    requires |p| >= 2 && !Contains(x, p)
    requires forall k :: 0 <= k < |m| ==> m[k] != p[0] || (k + 1 < |m| && m[k + 1] != p[1])
    ensures !Contains(m + x, p)
  {
    forall k: nat ensures !OccursAt(m + x, p, k) {
      if k + |p| <= |m + x| {
        if k >= |m| {
          var i: nat := k - |m|;
          assert (m + x)[k..k + |p|] == x[i..i + |p|];
          assert !OccursAt(x, p, i);
        } else {
          assert m[k] != p[0] || (k + 1 < |m| && m[k + 1] != p[1]);
          assert (m + x)[k..k + |p|][0] == m[k];
          if k + 1 < |m| {
            assert (m + x)[k..k + |p|][1] == m[k + 1];
          }
        }
      }
    }
  }

  /** A text that is exactly the pattern is replaced as a whole. */
  lemma ReplaceWhole(pattern: string, replacement: string)
    requires pattern != []
    ensures ReplaceAll(pattern, pattern, replacement) == replacement
  {
    assert OccursAt(pattern, pattern, 0);
    assert IndexOf(pattern, pattern) == Some(0);
    assert pattern[|pattern|..] == "";
    assert Split("", pattern) == [""];
    assert Split(pattern, pattern) == ["", ""];
    assert Join(["", ""], replacement) == "" + replacement + "";
  }

  /** A joined text starts with its first part. */
  lemma JoinFirst(parts: seq<string>, sep: string)
    requires |parts| >= 1
    ensures |parts[0]| <= |Join(parts, sep)| && Join(parts, sep)[..|parts[0]|] == parts[0]
  {
    if |parts| > 1 {
      assert Join(parts, sep) == parts[0] + (sep + Join(parts[1..], sep));
    }
  }

  /** Replacing a pattern that does not occur changes nothing. */
  lemma ReplaceAbsent(s: string, pattern: string, replacement: string)
    requires pattern != [] && !Contains(s, pattern)
    ensures ReplaceAll(s, pattern, replacement) == s
  {
    SplitCount(s, pattern);
  }

  /** Replacing a pattern by itself changes nothing. */
  lemma ReplaceWithItself(s: string, pattern: string)
    requires pattern != []
    ensures ReplaceAll(s, pattern, pattern) == s
  {
    SplitJoin(s, pattern);
  }

  /** Replacing a single character by the empty string leaves no copy of it. */
  lemma ReplaceCharRemoves(s: string, c: char)
    ensures c !in ReplaceAll(s, [c], "")
  {
    var parts := Split(s, [c]);
    SplitPiecesFree(s, [c]);
    if c in ReplaceAll(s, [c], "") {
      JoinChars(parts, "", c);
      var k :| 0 <= k < |parts| && c in parts[k];
      var i :| 0 <= i < |parts[k]| && parts[k][i] == c;
      assert OccursAt(parts[k], [c], i);
    }
  }

  /** Every character of a replacement's result comes from the text or the replacement. */
  lemma ReplaceChars(s: string, pattern: string, replacement: string, c: char)
    requires pattern != [] && c in ReplaceAll(s, pattern, replacement)
    ensures c in s || c in replacement
  {
    JoinChars(Split(s, pattern), replacement, c);
    SplitPiecesChars(s, pattern);
  }

  /** The whitespace characters of Python's `str.isspace()` within ASCII. */
  predicate IsSpace(c: char)
  {
    c == ' ' || c == '\t' || c == '\n' || c == '\r' || c == '\U{B}' || c == '\U{C}'
    || ('\U{1C}' <= c <= '\U{1F}')
  }

  /** How many whitespace characters `s` starts with. */
  function LeadingSpaces(s: string): (n: nat)
    ensures n <= |s|
    ensures forall i :: 0 <= i < n ==> IsSpace(s[i])
    ensures n < |s| ==> !IsSpace(s[n])
  {
    if s != [] && IsSpace(s[0]) then
      var n := 1 + LeadingSpaces(s[1..]);
      assert forall i :: 1 <= i < n ==> s[i] == s[1..][i - 1];
      n
    else 0
  }

  /** How many whitespace characters `s` ends with. */
  function TrailingSpaces(s: string): (n: nat)
    ensures n <= |s|
    ensures forall i :: |s| - n <= i < |s| ==> IsSpace(s[i])
    ensures n < |s| ==> !IsSpace(s[|s| - n - 1])
  {
    if s != [] && IsSpace(s[|s| - 1]) then
      var n := 1 + TrailingSpaces(s[..|s| - 1]);
      assert forall i :: |s| - n <= i < |s| - 1 ==> s[i] == s[..|s| - 1][i];
      n
    else 0
  }

  /** Python's `s.lstrip()`. */
  function LStrip(s: string): (r: string)
    ensures |r| <= |s| && r == s[|s| - |r|..]
    ensures r == [] || !IsSpace(r[0])
    ensures forall i :: 0 <= i < |s| - |r| ==> IsSpace(s[i])
  {
    s[LeadingSpaces(s)..]
  }

  /** Python's `s.rstrip()`. */
  function RStrip(s: string): (r: string)
    ensures |r| <= |s| && r == s[..|r|]
    ensures r == [] || !IsSpace(r[|r| - 1])
    ensures forall i :: |r| <= i < |s| ==> IsSpace(s[i])
  {
    s[..|s| - TrailingSpaces(s)]
  }

  /** Python's `s.strip()`: the text without its leading and trailing whitespace. */
  function Strip(s: string): (r: string)
    ensures r == [] || (!IsSpace(r[0]) && !IsSpace(r[|r| - 1]))
    ensures exists i: nat :: OccursAt(s, r, i)
    ensures OccursAt(s, r, LeadingSpaces(s))
    ensures forall j :: 0 <= j < LeadingSpaces(s) ==> IsSpace(s[j])
    ensures forall j :: LeadingSpaces(s) + |r| <= j < |s| ==> IsSpace(s[j])
  {
    var l := LStrip(s);
    var r := RStrip(l);
    assert l[..|r|] == s[|s| - |l|..|s| - |l| + |r|];
    assert OccursAt(s, r, |s| - |l|);
    assert forall j :: LeadingSpaces(s) + |r| <= j < |s| ==> s[j] == l[j - LeadingSpaces(s)];
    r
  }

  predicate IsStripped(s: string)
  {
    s == [] || (!IsSpace(s[0]) && !IsSpace(s[|s| - 1]))
  }

  lemma StrippedIsFixpoint(s: string)
    requires IsStripped(s)
    ensures Strip(s) == s
  {
  }

  /** Every character of a stripped text is a character of the text. */
  lemma StripChars(s: string, c: char)
    requires c in Strip(s)
    ensures c in s
  {
    var r := Strip(s);
    var i: nat :| OccursAt(s, r, i);
    var k :| 0 <= k < |r| && r[k] == c;
    assert s[i..i + |r|][k] == s[i + k];
  }

  /** ASCII lower-casing of one character. */
  function LowerChar(c: char): char
  {
    if 'A' <= c <= 'Z' then (c as int + 32) as char else c
  }

  /** Python's `s.lower()` restricted to ASCII letters. */
  function Lower(s: string): (r: string)
    ensures |r| == |s|
    ensures forall i :: 0 <= i < |s| ==> r[i] == LowerChar(s[i])
  {
    seq(|s|, i requires 0 <= i < |s| => LowerChar(s[i]))
  }

  lemma LowerAppend(a: string, b: string)
    ensures Lower(a + b) == Lower(a) + Lower(b)
  {
  }
}
