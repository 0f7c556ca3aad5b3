/**
  The JavaScript string primitives the filtering engine relies on: `startsWith`,
  `endsWith`, `includes`, `indexOf` of one character, `split` on one character,
  `join`, `trim` and `toLowerCase`. Strings are sequences of characters.
 */
module Text {

  /** The code points `String.prototype.trim` removes (WhiteSpace and LineTerminator). */
  predicate IsSpace(c: char)
  {
    c == ' ' || c == '\t' || c == '\n' || c == '\r' || c == '\U{B}' || c == '\U{C}'
    || c == '\U{A0}' || c == '\U{1680}' || ('\U{2000}' <= c <= '\U{200A}')
    || c == '\U{2028}' || c == '\U{2029}' || c == '\U{202F}' || c == '\U{205F}'
    || c == '\U{3000}' || c == '\U{FEFF}'
  }

  predicate StartsWith(s: string, p: string)
  {
    p <= s
  }

  /** `s.endsWith(p)`, stated position by position. */
  predicate EndsWith(s: string, p: string)
  {
    |p| <= |s| && forall k :: 0 <= k < |p| ==> s[|s| - |p| + k] == p[k]
  }

  /** `s.includes(p)`: `p` occurs somewhere in `s` (the empty string occurs everywhere). */
  predicate Contains(s: string, p: string)
    ensures p == [] ==> Contains(s, p)
    ensures Contains(s, p) ==> |p| <= |s|
    decreases |s|
  {
    StartsWith(s, p) || (s != [] && Contains(s[1..], p))
  }

  /** `s.indexOf(c)`: the first position of `c`, or -1. */
  function IndexOf(s: string, c: char): (i: int)
    ensures -1 <= i < |s|
    ensures 0 <= i ==> s[i] == c
    ensures forall k :: 0 <= k < |s| && (i < 0 || k < i) ==> s[k] != c
    decreases |s|
  {
    if s == [] then -1
    else if s[0] == c then 0
    else
      var j := IndexOf(s[1..], c);
      if j < 0 then -1 else 1 + j
  }

  /** `s.substring(s.indexOf(c) + 1)` when `c` occurs: what follows the first `c`. */
  function AfterFirst(s: string, c: char): (r: string)
    ensures s == [] || |r| < |s|
    decreases |s|
  {
    if s == [] then [] else if s[0] == c then s[1..] else AfterFirst(s[1..], c)
  }

  /** `s.split(sep)` for a one-character separator. */
  function Split(s: string, sep: char): (parts: seq<string>)
    ensures |parts| >= 1
    decreases |s|
  {
    var i := IndexOf(s, sep);
    if i < 0 then [s] else [s[..i]] + Split(AfterFirst(s, sep), sep)
  }

  /** `parts.join(sep)`. */
  function Join(parts: seq<string>, sep: char): string
  {
    if parts == [] then ""
    else if |parts| == 1 then parts[0]
    else parts[0] + [sep] + Join(parts[1..], sep)
  }

  /** How many white-space characters open `s`. */
  function LeadingSpaces(s: string): (n: nat)
    ensures n <= |s|
    ensures forall k :: 0 <= k < n ==> IsSpace(s[k])
    ensures n < |s| ==> !IsSpace(s[n])
    decreases |s|
  {
    if s != [] && IsSpace(s[0]) then 1 + LeadingSpaces(s[1..]) else 0
  }

  /** How many white-space characters close `s`. */
  function TrailingSpaces(s: string): (n: nat)
    ensures n <= |s|
    ensures forall k :: |s| - n <= k < |s| ==> IsSpace(s[k])
    ensures n < |s| ==> !IsSpace(s[|s| - 1 - n])
    decreases |s|
  {
    if s != [] && IsSpace(s[|s| - 1]) then 1 + TrailingSpaces(s[..|s| - 1]) else 0
  }

  /** `s.trimStart()`. */
  function TrimStart(s: string): string
    decreases |s|
  {
    if s != [] && IsSpace(s[0]) then TrimStart(s[1..]) else s
  }

  /** `s.trimEnd()`. */
  function TrimEnd(s: string): string
  {
    s[..|s| - TrailingSpaces(s)]
  }

  /** `s.trim()`. */
  function Trim(s: string): string
  {
    TrimEnd(TrimStart(s))
  }

  /** No white space at either end: what `trim` leaves. */
  predicate IsTrimmed(s: string)
  {
    s == [] || (!IsSpace(s[0]) && !IsSpace(s[|s| - 1]))
  }

  function LowerChar(c: char): char
  {
    if 'A' <= c <= 'Z' then (c as int + 32) as char else c
  }

  /** `s.toLowerCase()`, restricted to the ASCII letters. */
  function ToLower(s: string): (r: string)
    ensures |r| == |s| && forall k :: 0 <= k < |s| ==> r[k] == LowerChar(s[k])
  {
    if s == [] then [] else [LowerChar(s[0])] + ToLower(s[1..])
  }

  predicate IsLower(s: string)
  {
    forall k :: 0 <= k < |s| ==> !('A' <= s[k] <= 'Z')
  }

  // ---------------------------------------------------------------------
  // Facts about the primitives
  // ---------------------------------------------------------------------

  /** `indexOf` finds `c` exactly when `c` occurs. */
  lemma IndexOfFound(s: string, c: char)
    ensures IndexOf(s, c) >= 0 <==> c in s
    ensures IndexOf(s, c) >= 0 ==> c !in s[..IndexOf(s, c)]
  {
  }

  /** A position with `c` and no earlier `c` is the one `indexOf` reports. */
  lemma IndexOfAt(s: string, c: char, i: nat)
    requires i < |s| && s[i] == c && c !in s[..i]
    ensures IndexOf(s, c) == i
  {
  }

  /** What follows the first `c` is the suffix after the position `indexOf` reports. */
  lemma {:induction false} AfterFirstAt(s: string, c: char)
    requires c in s
    ensures AfterFirst(s, c) == s[IndexOf(s, c) + 1..]
    decreases |s|
  {
    if s[0] != c {
      assert c in s[1..];
      AfterFirstAt(s[1..], c);
      assert s[1..][IndexOf(s[1..], c) + 1..] == s[IndexOf(s, c) + 1..];
    }
  }

  /** One piece when the separator is absent, several when it occurs. */
  lemma SplitCount(s: string, sep: char)
    ensures sep !in s ==> Split(s, sep) == [s]
    ensures sep in s ==> |Split(s, sep)| >= 2
  {
    IndexOfFound(s, sep);
  }

  /** No piece of a split contains the separator. */
  lemma {:induction false} SplitPieces(s: string, sep: char)
    ensures forall k :: 0 <= k < |Split(s, sep)| ==> sep !in Split(s, sep)[k]
    decreases |s|
  {
    var i := IndexOf(s, sep);
    IndexOfFound(s, sep);
    if i >= 0 {
      AfterFirstAt(s, sep);
      SplitPieces(s[i + 1..], sep);
    }
  }

  /** A character absent from `s` is absent from every piece of a split of `s`. */
  lemma {:induction false} SplitPiecesAvoid(s: string, sep: char, c: char)
    requires c !in s
    ensures forall k :: 0 <= k < |Split(s, sep)| ==> c !in Split(s, sep)[k]
    decreases |s|
  {
    var i := IndexOf(s, sep);
    IndexOfFound(s, sep);
    if i >= 0 {
      AfterFirstAt(s, sep);
      SliceAvoid(s, 0, i, c);
      SliceAvoid(s, i + 1, |s|, c);
      SplitPiecesAvoid(s[i + 1..], sep, c);
    }
  }

  /** A slice holds only elements of the whole. */
  lemma SliceAvoid<T>(s: seq<T>, i: nat, j: nat, c: T)
    requires i <= j <= |s| && c !in s
    ensures c !in s[i..j]
  {
    assert forall m :: 0 <= m < j - i ==> s[i..j][m] == s[i + m];
  }

  /** Trimming removes characters, it never adds one. */
  lemma TrimAvoid(s: string, c: char)
    requires c !in s
    ensures c !in Trim(s)
  {
    var a := TrimStart(s);
    TrimStartDrops(s);
    SliceAvoid(s, LeadingSpaces(s), |s|, c);
    assert a == s[LeadingSpaces(s)..|s|];
    SliceAvoid(a, 0, |a| - TrailingSpaces(a), c);
    assert TrimEnd(a) == a[0..|a| - TrailingSpaces(a)];
  }

  /** `includes` of a one-character string is membership. */
  lemma {:induction false} ContainsChar(s: string, c: char)
    ensures Contains(s, [c]) <==> c in s
    decreases |s|
  {
    if s != [] {
      ContainsChar(s[1..], c);
      assert s == [s[0]] + s[1..];
    }
  }

  /** A non-empty needle's first character occurs in any string containing it. */
  lemma {:induction false} ContainsFirstChar(s: string, p: string)
    requires p != [] && Contains(s, p)
    ensures p[0] in s
    decreases |s|
  {
    if !StartsWith(s, p) {
      ContainsFirstChar(s[1..], p);
      assert s == [s[0]] + s[1..];
    } else {
      assert s[0] == p[0];
    }
  }

  /** A character of a suffix is a character of the whole string. */
  lemma EndsWithKeepsChar(s: string, p: string, c: char)
    requires EndsWith(s, p) && c in p
    ensures c in s
  {
    var i :| 0 <= i < |p| && p[i] == c;
    assert s[|s| - |p| + i] == c;
  }

  /** `prefix + s` ends with `c` followed by `s` exactly when `prefix` ends with `c`. */
  lemma EndsWithCharThen(prefix: string, c: char, s: string)
    ensures EndsWith(prefix + s, [c] + s) <==> (prefix != [] && prefix[|prefix| - 1] == c)
  {
    var whole := prefix + s;
    if EndsWith(whole, [c] + s) {
      assert whole[|whole| - |s| - 1] == ([c] + s)[0];
    }
    if prefix != [] && prefix[|prefix| - 1] == c {
      assert whole[|whole| - |s| - 1..] == [c] + s;
    }
  }

  lemma Associative<T>(x: seq<T>, y: seq<T>, z: seq<T>)
    ensures x + (y + z) == (x + y) + z
  {
  }

  lemma Around<T>(s: seq<T>, i: nat)
    requires i < |s|
    ensures s == s[..i] + [s[i]] + s[i + 1..]
  {
  }

  /** Dropping the last element of a concatenation with a non-empty back part. */
  lemma DropLastAppend<T>(a: seq<T>, b: seq<T>)
    requires b != []
    ensures (a + b)[..|a + b| - 1] == a + b[..|b| - 1]
  {
  }

  /** `endsWith` is the test that the last `|p|` characters are `p`. */
  lemma EndsWithSlice(s: string, p: string)
    ensures EndsWith(s, p) <==> |p| <= |s| && s[|s| - |p|..] == p
  {
    if |p| <= |s| && s[|s| - |p|..] == p {
      forall k | 0 <= k < |p| ensures s[|s| - |p| + k] == p[k] {
        assert s[|s| - |p|..][k] == p[k];
      }
    }
  }

  /** A string ending in `x + p` ends in `p`. */
  lemma EndsWithDrop(s: string, x: string, p: string)
    ensures EndsWith(s, x + p) ==> EndsWith(s, p)
  {
    if EndsWith(s, x + p) {
      forall k | 0 <= k < |p| ensures s[|s| - |p| + k] == p[k] {
        assert s[|s| - |x + p| + (|x| + k)] == (x + p)[|x| + k];
      }
    }
  }

  /** A suffix stays a suffix when something is put in front. */
  lemma EndsWithPrepend(x: string, s: string, p: string)
    requires EndsWith(s, p)
    ensures EndsWith(x + s, p)
  {
    forall k | 0 <= k < |p| ensures (x + s)[|x + s| - |p| + k] == p[k] {
      assert (x + s)[|x + s| - |p| + k] == s[|s| - |p| + k];
    }
  }

  /** `trimStart` removes exactly the leading white space. */
  lemma {:induction false} TrimStartDrops(s: string)
    ensures TrimStart(s) == s[LeadingSpaces(s)..]
    decreases |s|
  {
    if s != [] && IsSpace(s[0]) {
      TrimStartDrops(s[1..]);
      assert s[1..][LeadingSpaces(s[1..])..] == s[LeadingSpaces(s)..];
    }
  }

  /** The first separator cuts off the first piece. */
  lemma SplitAtFirst(s: string, sep: char, i: nat)
    requires i < |s| && s[i] == sep && sep !in s[..i]
    ensures Split(s, sep) == [s[..i]] + Split(s[i + 1..], sep)
  {
    IndexOfAt(s, sep, i);
    AfterFirstAt(s, sep);
  }

  /** With no separator before it, the inserted separator ends the first piece. */
  lemma SplitAtInserted(a: string, sep: char, b: string)
    requires sep !in a
    ensures Split(a + [sep] + b, sep) == [a] + Split(b, sep)
  {
    var s := a + [sep] + b;
    assert s[..|a|] == a && s[|a|] == sep && s[|a| + 1..] == b;
    SplitAtFirst(s, sep, |a|);
  }

  /** A separator inside `a` ends the first piece before the inserted one. */
  lemma SplitBeforeInserted(a: string, sep: char, b: string, i: nat)
    requires i < |a| && a[i] == sep && sep !in a[..i]
    ensures Split(a + [sep] + b, sep) == [a[..i]] + Split(a[i + 1..] + [sep] + b, sep)
  {
    var s := a + [sep] + b;
    assert s[..i] == a[..i] && s[i] == sep;
    assert s[i + 1..] == a[i + 1..] + [sep] + b;
    SplitAtFirst(s, sep, i);
  }

  /** Splitting at a separator concatenates the pieces of both sides. */
  lemma {:induction false} SplitAtSeparator(a: string, sep: char, b: string)
    ensures Split(a + [sep] + b, sep) == Split(a, sep) + Split(b, sep)
    decreases |a|
  {
    if sep !in a {
      SplitAtInserted(a, sep, b);
      SplitCount(a, sep);
    } else {
      var i := IndexOf(a, sep);
      IndexOfFound(a, sep);
      SplitBeforeInserted(a, sep, b, i);
      SplitAtFirst(a, sep, i);
      SplitAtSeparator(a[i + 1..], sep, b);
      Associative([a[..i]], Split(a[i + 1..], sep), Split(b, sep));
    }
  }

  /** Two separator-free pieces joined by the separator split back into those two. */
  lemma SplitTwo(a: string, sep: char, b: string)
    requires sep !in a && sep !in b
    ensures Split(a + [sep] + b, sep) == [a, b]
  {
    SplitAtSeparator(a, sep, b);
    SplitCount(a, sep);
    SplitCount(b, sep);
  }

  /** The first two pieces of a split, as `split(sep, 2)` returns them. */
  lemma SplitFirstTwo(a: string, sep: char, b: string, tail: string)
    requires sep !in a && sep !in b
    requires tail == [] || tail[0] == sep
    ensures |Split(a + [sep] + b + tail, sep)| >= 2
    ensures Split(a + [sep] + b + tail, sep)[0] == a
    ensures Split(a + [sep] + b + tail, sep)[1] == b
  {
    assert a + [sep] + b + tail == a + [sep] + (b + tail);
    SplitAtInserted(a, sep, b + tail);
    var rest := Split(b + tail, sep);
    if tail == [] {
      assert b + tail == b;
      SplitCount(b, sep);
    } else {
      assert b + tail == b + [sep] + tail[1..];
      SplitAtInserted(b, sep, tail[1..]);
    }
    assert rest[0] == b;
  }

  /** Joining the pieces of a split gives the string back. */
  lemma {:induction false} JoinSplit(s: string, sep: char)
    ensures Join(Split(s, sep), sep) == s
    decreases |s|
  {
    var i := IndexOf(s, sep);
    IndexOfFound(s, sep);
    if i >= 0 {
      AfterFirstAt(s, sep);
      var rest := Split(s[i + 1..], sep);
      JoinSplit(s[i + 1..], sep);
      var parts := [s[..i]] + rest;
      assert parts[1..] == rest;
      assert s == s[..i] + [sep] + s[i + 1..];
    }
  }

  /** Splitting a join of separator-free pieces gives the pieces back. */
  lemma {:induction false} SplitJoin(parts: seq<string>, sep: char)
    requires |parts| >= 1
    requires forall k :: 0 <= k < |parts| ==> sep !in parts[k]
    ensures Split(Join(parts, sep), sep) == parts
    decreases |parts|
  {
    SplitCount(parts[0], sep);
    if |parts| > 1 {
      var rest := Join(parts[1..], sep);
      assert Join(parts, sep) == parts[0] + [sep] + rest;
      SplitJoin(parts[1..], sep);
      SplitAtSeparator(parts[0], sep, rest);
      assert parts == [parts[0]] + parts[1..];
    }
  }

  /** The last piece of a join is a suffix of it, preceded by the separator when there are several pieces. */
  lemma {:induction false} JoinEndsWithLastTwo(parts: seq<string>, sep: char)
    requires |parts| >= 2
    ensures EndsWith(Join(parts, sep), parts[|parts| - 2] + [sep] + parts[|parts| - 1])
    ensures var j := Join(parts, sep); var t := parts[|parts| - 2] + [sep] + parts[|parts| - 1];
      |j| == |t| || j[|j| - |t| - 1] == sep
    decreases |parts|
  {
    var t := parts[|parts| - 2] + [sep] + parts[|parts| - 1];
    if |parts| > 2 {
      JoinEndsWithLastTwo(parts[1..], sep);
      EndsWithPrepend(parts[0] + [sep], Join(parts[1..], sep), t);
      assert Join(parts, sep) == parts[0] + [sep] + Join(parts[1..], sep);
    } else {
      assert Join(parts, sep) == t;
    }
  }

  /** What `trim` returns is trimmed, so trimming twice changes nothing. */
  lemma TrimIsTrimmed(s: string)
    ensures IsTrimmed(Trim(s))
    ensures Trim(Trim(s)) == Trim(s)
  {
    var a := TrimStart(s);
    TrimStartDrops(s);
    var r := TrimEnd(a);
    TrimStartDrops(r);
    if r != [] {
      assert r[0] == a[0];
    }
  }

  /** `trim` yields the empty string exactly when every character is white space. */
  lemma TrimEmpty(s: string)
    ensures Trim(s) == [] <==> forall k :: 0 <= k < |s| ==> IsSpace(s[k])
  {
    TrimStartDrops(s);
  }

  /** `toLowerCase` leaves no upper-case letter, and is the identity on lower-case strings. */
  lemma ToLowerIsLower(s: string)
    ensures IsLower(ToLower(s))
    ensures ToLower(ToLower(s)) == ToLower(s)
    ensures IsLower(s) ==> ToLower(s) == s
  {
  }
}
