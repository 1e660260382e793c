/**
 * The string operations the candidate parser and the archive walk use, with
 * the semantics of Go's strings.Trim(s, "\n"), strings.Split(s, "\n"),
 * strings.Join(xs, "\n") and strings.Contains.
 */
module Text {

  /** Every character of `s` is a newline. */
  predicate AllNewlines(s: string) {
    forall i :: 0 <= i < |s| ==> s[i] == '\n'
  }

  /** The index of the first character at or after i that is not a newline
      (|s| if there is none). */
  function SkipNewlines(s: string, i: nat): (n: nat)
    requires i <= |s|
    ensures i <= n <= |s|
    ensures forall k :: i <= k < n ==> s[k] == '\n'
    ensures n < |s| ==> s[n] != '\n'
    decreases |s| - i
  {
    if i < |s| && s[i] == '\n' then SkipNewlines(s, i + 1) else i
  }

  /** The index just after the last character before j, and at or after lo,
      that is not a newline (lo if there is none). */
  function BackOverNewlines(s: string, lo: nat, j: nat): (n: nat)
    requires lo <= j <= |s|
    ensures lo <= n <= j
    ensures forall k :: n <= k < j ==> s[k] == '\n'
    ensures n > lo ==> s[n - 1] != '\n'
    decreases j
  {
    if j > lo && s[j - 1] == '\n' then BackOverNewlines(s, lo, j - 1) else j
  }

  /** strings.Trim(s, "\n"): the part of `s` between its leading and its
      trailing newlines. */
  function Trim(s: string): string {
    var i := SkipNewlines(s, 0);
    s[i..BackOverNewlines(s, i, |s|)]
  }

  /** `r` sits in `s` at position i with nothing but newlines before and
      after it. */
  predicate NewlineFramedAt(s: string, r: string, i: nat) {
    i + |r| <= |s| && r == s[i..i + |r|] &&
    (forall k :: 0 <= k < i ==> s[k] == '\n') &&
    (forall k :: i + |r| <= k < |s| ==> s[k] == '\n')
  }

  /** Trim's result neither starts nor ends with a newline, it is a slice of
      `s`, and all that is cut off on either side of it is newlines. */
  lemma TrimIsInnerPart(s: string)
    ensures var r := Trim(s);
            r != "" ==> r[0] != '\n' && r[|r| - 1] != '\n'
    ensures exists i: nat :: NewlineFramedAt(s, Trim(s), i)
  {
    var r := Trim(s);
    var i := SkipNewlines(s, 0);
    var j := BackOverNewlines(s, i, |s|);
    assert r == s[i..j];
    assert |r| == j - i;
    assert NewlineFramedAt(s, r, i);
  }

  /** strings.Split(s, "\n"): the pieces of `s` between newlines; the empty
      string splits into one empty piece. */
  function Split(s: string): (r: seq<string>)
    ensures |r| >= 1
    ensures forall k :: 0 <= k < |r| ==> '\n' !in r[k]
    decreases |s|
  {
    if s == "" then [""]
    else if s[0] == '\n' then [""] + Split(s[1..])
    else
      var rest := Split(s[1..]);
      [[s[0]] + rest[0]] + rest[1..]
  }

  /** strings.Join(xs, "\n"). */
  function Join(xs: seq<string>): string
    decreases |xs|
  {
    if |xs| == 0 then ""
    else if |xs| == 1 then xs[0]
    else xs[0] + "\n" + Join(xs[1..])
  }

  /** strings.Contains(s, sub): `sub` occurs somewhere in `s`. */
  predicate Contains(s: string, sub: string)
    decreases |s|
  {
    sub <= s || (s != "" && Contains(s[1..], sub))
  }

  /** `sub` occurs in `s` starting at position i. */
  predicate OccursAt(s: string, sub: string, i: nat) {
    i + |sub| <= |s| && s[i..i + |sub|] == sub
  }

  /** A substring that Contains finds occurs at some position. */
  lemma {:induction false} ContainsHasOccurrence(s: string, sub: string)
    requires Contains(s, sub)
    ensures exists i: nat :: OccursAt(s, sub, i)
    decreases |s|
  {
    if sub <= s {
      assert s[0..|sub|] == sub;
      assert OccursAt(s, sub, 0);
    } else {
      assert s != "" && Contains(s[1..], sub);
      ContainsHasOccurrence(s[1..], sub);
      var i: nat :| OccursAt(s[1..], sub, i);
      assert s[i + 1..i + 1 + |sub|] == s[1..][i..i + |sub|];
      assert OccursAt(s, sub, i + 1);
    }
  }

  /** An occurrence at any position is found by Contains. */
  lemma {:induction false} OccurrenceIsContained(s: string, sub: string, i: nat)
    requires OccursAt(s, sub, i)
    ensures Contains(s, sub)
    decreases i
  {
    if i == 0 {
      assert sub == s[..|sub|];
      assert sub <= s;
    } else {
      assert s != "";
      assert s[1..][i - 1..i - 1 + |sub|] == s[i..i + |sub|];
      assert OccursAt(s[1..], sub, i - 1);
      OccurrenceIsContained(s[1..], sub, i - 1);
    }
  }

  /** Contains means `sub` occurs in `s` at some position. */
  lemma ContainsIff(s: string, sub: string)
    ensures Contains(s, sub) <==> exists i: nat :: OccursAt(s, sub, i)
  {
    if Contains(s, sub) {
      ContainsHasOccurrence(s, sub);
    }
    if exists i: nat :: OccursAt(s, sub, i) {
      var i: nat :| OccursAt(s, sub, i);
      OccurrenceIsContained(s, sub, i);
    }
  }

  /** Join of a list with a known head. */
  lemma JoinCons(x: string, ys: seq<string>)
    ensures Join([x] + ys) == if ys == [] then x else x + "\n" + Join(ys)
  {
    assert ([x] + ys)[1..] == ys;
  }

  /** Prefixing a character to the first piece prefixes it to the join. */
  lemma {:induction false} JoinPrefixFirst(c: char, xs: seq<string>)
    requires |xs| >= 1
    ensures Join([[c] + xs[0]] + xs[1..]) == [c] + Join(xs)
  {
    JoinCons([c] + xs[0], xs[1..]);
    JoinCons(xs[0], xs[1..]);
    assert xs == [xs[0]] + xs[1..];
  }

  /** Joining the pieces with newlines gives back the split string. */
  lemma {:induction false} JoinSplit(s: string)
    ensures Join(Split(s)) == s
    decreases |s|
  {
    if s == "" {
    } else {
      JoinSplit(s[1..]);
      var rest := Split(s[1..]);
      assert s == [s[0]] + s[1..];
      if s[0] == '\n' {
        JoinCons("", rest);
        assert Join(Split(s)) == "" + "\n" + Join(rest);
      } else {
        JoinPrefixFirst(s[0], rest);
      }
    }
  }

  /** A newline-free string is one piece, and it heads the split of anything
      that follows it after a newline. */
  lemma {:induction false} SplitOfPiece(a: string, rest: string)
    requires '\n' !in a
    ensures Split(a) == [a]
    ensures Split(a + "\n" + rest) == [a] + Split(rest)
    decreases |a|
  {
    if a == "" {
      assert a + "\n" + rest == "\n" + rest;
      assert ("\n" + rest)[1..] == rest;
    } else {
      SplitOfPiece(a[1..], rest);
      assert (a + "\n" + rest)[1..] == a[1..] + "\n" + rest;
      assert (a + "\n" + rest)[0] == a[0];
      assert [a[0]] + a[1..] == a;
    }
  }

  /** Splitting a newline-joined list of newline-free pieces gives the list
      back: Split and Join are inverse on that domain. */
  lemma {:induction false} SplitJoin(xs: seq<string>)
    requires |xs| >= 1
    requires forall k :: 0 <= k < |xs| ==> '\n' !in xs[k]
    ensures Split(Join(xs)) == xs
    decreases |xs|
  {
    if |xs| == 1 {
      SplitOfPiece(xs[0], "");
    } else {
      SplitJoin(xs[1..]);
      SplitOfPiece(xs[0], Join(xs[1..]));
      assert xs == [xs[0]] + xs[1..];
    }
  }
}
