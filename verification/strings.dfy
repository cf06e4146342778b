/**
 * The Python `str` operations the bot applies to message text, for the
 * one-character arguments it uses: `sep in s`, `s.split(sep)`,
 * `s.strip()` and `s.replace(a, b)`.
 */
module Strings {

  /** Number of occurrences of `c` in `s`. */
  function Count(s: string, c: char): (k: nat)
    ensures k <= |s|
    ensures k == 0 <==> c !in s
  {
    if s == [] then 0 else (if s[0] == c then 1 else 0) + Count(s[1..], c)
  }

  /**
   * `s.split(sep)`: cut at every occurrence of `sep`, keeping empty pieces,
   * so that `"".split(sep) == [""]` and `"a||b".split("|") == ["a", "", "b"]`.
   */
  function Split(s: string, sep: char): (parts: seq<string>)
    ensures |parts| >= 1
  {
    if s == [] then
      [[]]
    else
      var rest := Split(s[1..], sep);
      if s[0] == sep then [[]] + rest else [[s[0]] + rest[0]] + rest[1..]
  }

  /** `sep.join(parts)`. */
  function Join(parts: seq<string>, sep: char): string
    requires |parts| >= 1
  {
    if |parts| == 1 then parts[0] else parts[0] + [sep] + Join(parts[1..], sep)
  }

  /** Splitting yields one more piece than there are separators. */
  lemma {:induction false} SplitCount(s: string, sep: char)
    ensures |Split(s, sep)| == Count(s, sep) + 1
  {
    if s != [] {
      SplitCount(s[1..], sep);
    }
  }

  /** No piece holds the separator. */
  lemma {:induction false} SplitPiecesFree(s: string, sep: char)
    ensures forall i :: 0 <= i < |Split(s, sep)| ==> sep !in Split(s, sep)[i]
  {
    if s != [] {
      SplitPiecesFree(s[1..], sep);
    }
  }

  /** Joining the pieces with the separator gives back the text. */
  lemma {:induction false} JoinSplit(s: string, sep: char)
    ensures Join(Split(s, sep), sep) == s
  {
    if s != [] {
      var c, q := s[0], Split(s[1..], sep);
      JoinSplit(s[1..], sep);
      assert s == [c] + s[1..];
      SplitCons(c, s[1..], sep);
      JoinCons(c, q, sep);
    }
  }

  /** Joining after one step of the split puts the first character back in front. */
  lemma JoinCons(c: char, q: seq<string>, sep: char)
    requires |q| >= 1
    ensures Join(if c == sep then [[]] + q else [[c] + q[0]] + q[1..], sep) == [c] + Join(q, sep)
  {
    var p := if c == sep then [[]] + q else [[c] + q[0]] + q[1..];
    if c == sep {
      assert p[1..] == q;
    } else {
      assert p[1..] == q[1..];
      if |q| > 1 {
        assert [c] + q[0] + [sep] + Join(q[1..], sep) == [c] + (q[0] + [sep] + Join(q[1..], sep));
      }
    }
  }

  /** A piece that holds no separator is not cut. */
  lemma {:induction false} SplitNoSep(s: string, sep: char)
    requires sep !in s
    ensures Split(s, sep) == [s]
  {
    if s != [] {
      SplitNoSep(s[1..], sep);
      assert [s[0]] + s[1..] == s;
    }
  }

  /** One step of the split: the first character either cuts or joins the first piece. */
  lemma SplitCons(c: char, s: string, sep: char)
    ensures var rest := Split(s, sep);
            Split([c] + s, sep) == if c == sep then [[]] + rest else [[c] + rest[0]] + rest[1..]
  {
    assert ([c] + s)[0] == c && ([c] + s)[1..] == s;
  }

  lemma ConsAppend<T>(c: T, a: seq<T>, m: seq<T>, b: seq<T>)
    ensures [c] + a + m + b == [c] + (a + m + b)
  {
  }

  lemma HeadTailAppend<T>(x: seq<T>, y: seq<T>)
    requires |x| >= 1
    ensures (x + y)[0] == x[0] && (x + y)[1..] == x[1..] + y
  {
  }

  /** The step of `Split` commutes with appending further pieces. */
  lemma StepAppend(c: char, sep: char, p: seq<string>, q: seq<string>, r: seq<string>)
    requires |q| >= 1 && p == q + r
    ensures (if c == sep then [[]] + p else [[c] + p[0]] + p[1..])
         == (if c == sep then [[]] + q else [[c] + q[0]] + q[1..]) + r
  {
    if c != sep {
      HeadTailAppend(q, r);
    }
  }

  /** Splitting `[c] + x` extends the first piece of `x`, or starts a new one. */
  lemma SplitConsAppend(c: char, x: string, b: string, sep: char)
    requires Split(x + [sep] + b, sep) == Split(x, sep) + Split(b, sep)
    ensures Split([c] + x + [sep] + b, sep) == Split([c] + x, sep) + Split(b, sep)
  {
    ConsAppend(c, x, [sep], b);
    SplitCons(c, x + [sep] + b, sep);
    SplitCons(c, x, sep);
    StepAppend(c, sep, Split(x + [sep] + b, sep), Split(x, sep), Split(b, sep));
  }

  /** Splitting distributes over a separator occurrence. */
  lemma {:induction false} SplitConcat(a: string, b: string, sep: char)
    ensures Split(a + [sep] + b, sep) == Split(a, sep) + Split(b, sep)
  {
    if a == [] {
      assert a + [sep] + b == [sep] + b;
      SplitCons(sep, b, sep);
    } else {
      assert a == [a[0]] + a[1..];
      SplitConcat(a[1..], b, sep);
      SplitConsAppend(a[0], a[1..], b, sep);
    }
  }

  /**
   * Splitting undoes joining when no piece holds the separator, so that
   * `Split` and `Join` are inverse bijections.
   */
  lemma {:induction false} SplitJoin(parts: seq<string>, sep: char)
    requires |parts| >= 1
    requires forall i :: 0 <= i < |parts| ==> sep !in parts[i]
    ensures Split(Join(parts, sep), sep) == parts
  {
    SplitNoSep(parts[0], sep);
    if |parts| > 1 {
      SplitJoin(parts[1..], sep);
      SplitConcat(parts[0], Join(parts[1..], sep), sep);
    }
  }

  /** Python's `str.isspace` for one character (ASCII and Unicode white space). */
  predicate IsSpace(c: char) {
    var k := c as int;
    (9 <= k <= 13) || (28 <= k <= 32) || k == 0x85 || k == 0xA0 || k == 0x1680
    || (0x2000 <= k <= 0x200A) || k == 0x2028 || k == 0x2029 || k == 0x202F
    || k == 0x205F || k == 0x3000
  }

  predicate AllSpace(s: string) {
    forall i :: 0 <= i < |s| ==> IsSpace(s[i])
  }

  /** `s.lstrip()`: a suffix of `s` after a run of white space. */
  function TrimLeft(s: string): (r: string)
    ensures |r| <= |s| && r == s[|s| - |r|..]
    ensures forall i :: 0 <= i < |s| - |r| ==> IsSpace(s[i])
    ensures r != [] ==> !IsSpace(r[0])
  {
    if s != [] && IsSpace(s[0]) then TrimLeft(s[1..]) else s
  }

  /** `s.rstrip()`: a prefix of `s` before a run of white space. */
  function TrimRight(s: string): (r: string)
    ensures |r| <= |s| && r == s[..|r|]
    ensures forall i :: |r| <= i < |s| ==> IsSpace(s[i])
    ensures r != [] ==> !IsSpace(r[|r| - 1])
  {
    if s != [] && IsSpace(s[|s| - 1]) then TrimRight(s[..|s| - 1]) else s
  }

  /** Where the stripped text starts inside `s`. */
  function StripStart(s: string): (k: nat)
    ensures k <= |s|
  {
    |s| - |TrimLeft(s)|
  }

  /**
   * `s.strip()`: white space removed at both ends; empty exactly when `s`
   * is all white space.
   */
  function Strip(s: string): (r: string)
    ensures r == [] <==> AllSpace(s)
    ensures r != [] ==> !IsSpace(r[0]) && !IsSpace(r[|r| - 1])
  {
    TrimRight(TrimLeft(s))
  }

  /**
   * The stripped text is the infix of `s` between a leading and a trailing
   * run of white space.
   */
  lemma StripInfix(s: string)
    ensures StripStart(s) + |Strip(s)| <= |s|
    ensures Strip(s) == s[StripStart(s)..StripStart(s) + |Strip(s)|]
    ensures forall i :: 0 <= i < StripStart(s) ==> IsSpace(s[i])
    ensures forall i :: StripStart(s) + |Strip(s)| <= i < |s| ==> IsSpace(s[i])
  {
    var t := TrimLeft(s);
    var k := StripStart(s);
    var r := TrimRight(t);
    assert Strip(s) == r;
    InfixOfSuffix(s, k, t, r);
  }

  /** A white-space-trimmed prefix of a suffix of `s` is an infix of `s`. */
  lemma InfixOfSuffix(s: string, k: nat, t: string, r: string)
    requires k <= |s| && t == s[k..] && |r| <= |t| && r == t[..|r|]
    requires forall j :: |r| <= j < |t| ==> IsSpace(t[j])
    ensures k + |r| <= |s| && r == s[k..k + |r|]
    ensures forall i :: k + |r| <= i < |s| ==> IsSpace(s[i])
  {
    SliceOfSlice(s, k, |r|);
    TailSpaces(s, k, t, |r|);
  }

  /** White space at the end of a suffix is white space at the end of the whole. */
  lemma TailSpaces(s: string, k: nat, t: string, m: nat)
    requires k <= |s| && t == s[k..] && m <= |t|
    requires forall j :: m <= j < |t| ==> IsSpace(t[j])
    ensures forall i :: k + m <= i < |s| ==> IsSpace(s[i])
  {
    forall i | k + m <= i < |s|
      ensures IsSpace(s[i])
    {
      assert s[i] == t[i - k];
    }
  }

  lemma SliceOfSlice<T>(s: seq<T>, k: nat, m: nat)
    requires k + m <= |s|
    ensures s[k..][..m] == s[k..k + m]
    ensures forall i :: k <= i < |s| ==> s[k..][i - k] == s[i]
  {
  }

  /** `s.replace(a, b)` for single characters: every `a` becomes `b`. */
  function Replace(s: string, a: char, b: char): (r: string)
    ensures |r| == |s|
    ensures forall i :: 0 <= i < |s| ==> r[i] == if s[i] == a then b else s[i]
  {
    seq(|s|, i requires 0 <= i < |s| => if s[i] == a then b else s[i])
  }

  /** `s` with every occurrence of `c` deleted, the rest kept in order. */
  function Remove(s: string, c: char): (r: string)
    ensures c !in r
  {
    if s == [] then [] else (if s[0] == c then [] else [s[0]]) + Remove(s[1..], c)
  }

  lemma {:induction false} RemoveAppend(a: string, b: string, c: char)
    ensures Remove(a + b, c) == Remove(a, c) + Remove(b, c)
  {
    if a == [] {
      assert a + b == b;
    } else {
      RemoveAppend(a[1..], b, c);
      HeadTailAppend(a, b);
      var h := if a[0] == c then [] else [a[0]];
      AppendAssoc(h, Remove(a[1..], c), Remove(b, c));
    }
  }

  lemma AppendAssoc<T>(x: seq<T>, y: seq<T>, z: seq<T>)
    ensures x + (y + z) == (x + y) + z
  {
  }

  /** Deleting a character that does not occur changes nothing. */
  lemma {:induction false} RemoveAbsent(s: string, c: char)
    requires c !in s
    ensures Remove(s, c) == s
  {
    if s != [] {
      RemoveAbsent(s[1..], c);
    }
  }
}
