/**
 The few operations of Go's `strings` and `strconv` packages that labels, patterns,
 output paths and resource identities rely on, with the facts about them.
 A string is the sequence of its bytes.
 */
module Strings {
  import opened Results

  predicate HasPrefix(s: string, prefix: string) {
    prefix <= s
  }

  /** Position of the first `c`, or the length of `s` when there is none. */
  function IndexOf(s: string, c: char): (i: nat)
    ensures i <= |s|
    ensures i < |s| ==> s[i] == c
    ensures c !in s[..i]
    ensures i == |s| <==> c !in s
  {
    if s == "" then 0 else if s[0] == c then 0 else 1 + IndexOf(s[1..], c)
  }

  datatype Cut = Cut(before: string, after: string, found: bool)

  function CutAt(s: string, c: char): Cut {
    var i := IndexOf(s, c);
    if i < |s| then Cut(s[..i], s[i + 1..], true) else Cut(s, "", false)
  }

  lemma {:induction false} IndexOfFirst(before: string, c: char, after: string)
    requires c !in before
    ensures IndexOf(before + [c] + after, c) == |before|
  {
    if before != "" {
      IndexOfFirst(before[1..], c, after);
      assert (before + [c] + after)[1..] == before[1..] + [c] + after;
    }
  }

  lemma {:induction false} IndexOfInPrefix(prefix: string, s: string, c: char)
    requires prefix <= s && c in prefix
    ensures IndexOf(s, c) == IndexOf(prefix, c) < |prefix|
  {
    if prefix[0] != c {
      IndexOfInPrefix(prefix[1..], s[1..], c);
    }
  }

  lemma CutAtFirst(before: string, c: char, after: string)
    requires c !in before
    ensures CutAt(before + [c] + after, c) == Cut(before, after, true)
  {
    IndexOfFirst(before, c, after);
  }

  /** The pieces of `s` between separators; never empty, as in Go for a non-empty separator. */
  function Split(s: string, c: char): (parts: seq<string>)
    ensures |parts| >= 1
    decreases |s|
  {
    var i := IndexOf(s, c);
    if i < |s| then [s[..i]] + Split(s[i + 1..], c) else [s]
  }

  function Join(parts: seq<string>, c: char): string {
    if |parts| == 0 then ""
    else if |parts| == 1 then parts[0]
    else parts[0] + [c] + Join(parts[1..], c)
  }

  lemma AroundIndex(s: string, i: nat)
    requires i < |s|
    ensures s == s[..i] + [s[i]] + s[i + 1..]
  {
  }

  lemma {:induction false} JoinSplit(s: string, c: char)
    ensures Join(Split(s, c), c) == s
    decreases |s|
  {
    var i := IndexOf(s, c);
    if i < |s| {
      var head, rest := s[..i], s[i + 1..];
      var tail := Split(rest, c);
      JoinSplit(rest, c);
      assert Split(s, c) == [head] + tail;
      JoinFirst(head, tail, c);
      AroundIndex(s, i);
    }
  }

  lemma JoinFirst(head: string, rest: seq<string>, c: char)
    requires |rest| >= 1
    ensures Join([head] + rest, c) == head + [c] + Join(rest, c)
  {
    assert ([head] + rest)[1..] == rest;
  }

  lemma SplitFirst(before: string, c: char, after: string)
    requires c !in before
    ensures Split(before + [c] + after, c) == [before] + Split(after, c)
  {
    var s := before + [c] + after;
    IndexOfFirst(before, c, after);
    assert s[..|before|] == before && s[|before| + 1..] == after;
  }

  lemma ConcatAssociative<T>(a: seq<T>, b: seq<T>, c: seq<T>)
    ensures a + (b + c) == (a + b) + c
  {
  }

  lemma {:induction false} SplitConcat(a: string, c: char, b: string)
    ensures Split(a + [c] + b, c) == Split(a, c) + Split(b, c)
    decreases |a|
  {
    var i := IndexOf(a, c);
    if i < |a| {
      var head, tail := a[..i], a[i + 1..];
      calc {
        Split(a + [c] + b, c);
        { assert a + [c] + b == head + [c] + (tail + [c] + b); }
        Split(head + [c] + (tail + [c] + b), c);
        { SplitFirst(head, c, tail + [c] + b); }
        [head] + Split(tail + [c] + b, c);
        { SplitConcat(tail, c, b); }
        [head] + (Split(tail, c) + Split(b, c));
        { ConcatAssociative([head], Split(tail, c), Split(b, c)); }
        ([head] + Split(tail, c)) + Split(b, c);
        Split(a, c) + Split(b, c);
      }
    } else {
      SplitFirst(a, c, b);
    }
  }

  lemma {:induction false} JoinConcat(a: seq<string>, b: seq<string>, c: char)
    requires |a| >= 1 && |b| >= 1
    ensures Join(a + b, c) == Join(a, c) + [c] + Join(b, c)
  {
    if |a| == 1 {
      assert (a + b)[1..] == b;
    } else {
      assert (a + b)[1..] == a[1..] + b;
      JoinConcat(a[1..], b, c);
    }
  }

  /**
   A string equals `dir` or continues it after a separator exactly when its pieces
   extend the pieces of `dir`.
   */
  lemma PrefixAtSeparator(path: string, dir: string, c: char)
    ensures path == dir || HasPrefix(path, dir + [c]) <==> Split(dir, c) <= Split(path, c)
  {
    if HasPrefix(path, dir + [c]) {
      SplitOfExtension(path, dir, c);
    }
    if Split(dir, c) <= Split(path, c) {
      ExtensionOfSplit(path, dir, c);
    }
  }

  lemma SplitOfExtension(path: string, dir: string, c: char)
    requires HasPrefix(path, dir + [c])
    ensures Split(dir, c) <= Split(path, c)
  {
    var rest := path[|dir| + 1..];
    assert path == dir + [c] + rest;
    SplitConcat(dir, c, rest);
  }

  lemma ExtensionOfSplit(path: string, dir: string, c: char)
    requires Split(dir, c) <= Split(path, c)
    ensures path == dir || HasPrefix(path, dir + [c])
  {
    var pathParts, dirParts := Split(path, c), Split(dir, c);
    assert Join(pathParts, c) == path && Join(dirParts, c) == dir by {
      JoinSplit(path, c);
      JoinSplit(dir, c);
    }
    JoinOfExtension(pathParts, dirParts, c);
  }

  lemma JoinOfExtension(pathParts: seq<string>, dirParts: seq<string>, c: char)
    requires |dirParts| >= 1 && dirParts <= pathParts
    ensures Join(pathParts, c) == Join(dirParts, c) || HasPrefix(Join(pathParts, c), Join(dirParts, c) + [c])
  {
    var rest := pathParts[|dirParts|..];
    assert pathParts == dirParts + rest;
    if |rest| > 0 {
      JoinConcat(dirParts, rest, c);
    }
  }

  /** Position of the first "..." , or the length of `s` when there is none. */
  function EllipsisIndex(s: string): (i: nat)
    ensures i <= |s|
    ensures i < |s| ==> HasPrefix(s[i..], "...")
    ensures forall j :: 0 <= j < i ==> !HasPrefix(s[j..], "...")
  {
    if s == "" then 0
    else if HasPrefix(s, "...") then 0
    else
      var i := 1 + EllipsisIndex(s[1..]);
      assert forall j :: 1 <= j < i ==> s[j..] == s[1..][j - 1..];
      assert s[0..] == s;
      i
  }

  lemma EllipsisAt(s: string, j: nat)
    requires j <= |s|
    ensures HasPrefix(s[j..], "...") <==> j + 3 <= |s| && s[j] == '.' && s[j + 1] == '.' && s[j + 2] == '.'
  {
    if j + 3 <= |s| {
      assert s[j..][0] == s[j] && s[j..][1] == s[j + 1] && s[j..][2] == s[j + 2];
    }
  }

  predicate HasEllipsis(s: string) {
    EllipsisIndex(s) < |s|
  }

  lemma EllipsisInPrefix(prefix: string, s: string)
    requires prefix <= s && HasEllipsis(prefix)
    ensures EllipsisIndex(s) <= EllipsisIndex(prefix)
  {
    var i := EllipsisIndex(prefix);
    assert s[i..] == prefix[i..] + s[|prefix|..];
    assert HasPrefix(s[i..], "...");
  }

  lemma NoDots(s: string)
    requires '.' !in s
    ensures !HasEllipsis(s)
  {
    var i := EllipsisIndex(s);
    EllipsisAt(s, i);
  }

  lemma EllipsisUnique(s: string, i: nat)
    requires i < |s| && HasPrefix(s[i..], "...")
    requires forall j :: 0 <= j < i ==> !HasPrefix(s[j..], "...")
    ensures EllipsisIndex(s) == i
  {
  }

  // Decimal numerals -----------------------------------------------------------

  const DIGITS: string := "0123456789"

  function Digit(d: nat): (c: char)
    requires d < 10
    ensures c != ':'
  {
    DIGITS[d]
  }

  /** strconv.Itoa on a length or a count, which is never negative. */
  function Itoa(n: nat): (s: string)
    ensures |s| >= 1 && ':' !in s
  {
    if n < 10 then [Digit(n)] else Itoa(n / 10) + [Digit(n % 10)]
  }

  function DigitValue(c: char): Option<nat> {
    if '0' <= c <= '9' then Some(c as int - '0' as int) else None
  }

  function Atoi(s: string): Option<nat> {
    if s == "" then None
    else match DigitValue(s[|s| - 1])
      case None => None
      case Some(d) =>
        if |s| == 1 then Some(d)
        else match Atoi(s[..|s| - 1])
          case None => None
          case Some(high) => Some(10 * high + d)
  }

  lemma {:induction false} AtoiItoa(n: nat)
    ensures Atoi(Itoa(n)) == Some(n)
  {
    DigitRoundTrip(n % 10);
    if n >= 10 {
      AtoiItoa(n / 10);
      assert Itoa(n)[..|Itoa(n)| - 1] == Itoa(n / 10);
    }
  }

  lemma DigitRoundTrip(d: nat)
    requires d < 10
    ensures DigitValue(Digit(d)) == Some(d)
  {
    assert DIGITS[0] == '0' && DIGITS[1] == '1' && DIGITS[2] == '2' && DIGITS[3] == '3' && DIGITS[4] == '4';
    assert DIGITS[5] == '5' && DIGITS[6] == '6' && DIGITS[7] == '7' && DIGITS[8] == '8' && DIGITS[9] == '9';
  }
}
