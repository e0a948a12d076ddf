/**
  The string operations of Rust's `str` that the program relies on, on strings as
  sequences of characters: `starts_with`, `ends_with`, `contains`, `trim_end_matches`,
  `split` on a character, `join`, and decimal rendering of integers (`format!("{}")`).
 */
module Text {
  import opened Outcomes

  /** `s.starts_with(p)` */
  predicate StartsWith(s: string, p: string) {
    |p| <= |s| && s[..|p|] == p
  }

  /** `s.ends_with(p)` */
  predicate EndsWith(s: string, p: string) {
    |p| <= |s| && s[|s| - |p|..] == p
  }

  /** `s.contains(p)`: some suffix of `s` starts with `p`. */
  predicate Contains(s: string, p: string)
    decreases |s|
  {
    StartsWith(s, p) || (|s| > 0 && Contains(s[1..], p))
  }

  /** An occurrence of `p` at position `i` of `s` makes `s` contain `p`. */
  lemma {:induction false} ContainsAt(s: string, p: string, i: nat)
    requires i + |p| <= |s| && s[i..i + |p|] == p
    ensures Contains(s, p)
  {
    if i > 0 {
      assert s[1..][i - 1..i - 1 + |p|] == s[i..i + |p|];
      ContainsAt(s[1..], p, i - 1);
    }
  }

  /** Every containment has a position. */
  lemma {:induction false} ContainsWitness(s: string, p: string) returns (i: nat)
    requires Contains(s, p)
    ensures i + |p| <= |s| && s[i..i + |p|] == p
    decreases |s|
  {
    if StartsWith(s, p) {
      i := 0;
    } else {
      var j := ContainsWitness(s[1..], p);
      assert s[1..][j..j + |p|] == s[j + 1..j + 1 + |p|];
      i := j + 1;
    }
  }

  /** Appending `tail` cannot create an occurrence of `p` when the last character
      of `p` does not occur in `tail`. */
  lemma ContainsBeforeTail(s: string, tail: string, p: string)
    requires |p| > 0 && p[|p| - 1] !in tail
    requires Contains(s + tail, p)
    ensures Contains(s, p)
  {
    var i := ContainsWitness(s + tail, p);
    if i + |p| <= |s| {
      assert s[i..i + |p|] == (s + tail)[i..i + |p|];
      ContainsAt(s, p, i);
    } else {
      assert false;
    }
  }

  /** Text around an occurrence keeps it. */
  lemma ContainsInside(s: string, t: string, u: string, p: string)
    requires Contains(t, p)
    ensures Contains(s + t + u, p)
  {
    var i := ContainsWitness(t, p);
    assert (s + t + u)[|s| + i..|s| + i + |p|] == t[i..i + |p|];
    ContainsAt(s + t + u, p, |s| + i);
  }

  /** `s.trim_end_matches(p)`: strips `p` from the end as often as it occurs there. */
  function TrimEndMatches(s: string, p: string): (r: string)
    ensures StartsWith(s, r)
    ensures |p| > 0 ==> !EndsWith(r, p)
    decreases |s|
  {
    if |p| > 0 && EndsWith(s, p) then TrimEndMatches(s[..|s| - |p|], p) else s
  }

  /** One more trailing copy of `p` is trimmed away like the others. */
  lemma TrimEndMatchesAppend(s: string, p: string)
    requires |p| > 0
    ensures TrimEndMatches(s + p, p) == TrimEndMatches(s, p)
  {
    assert EndsWith(s + p, p);
    assert (s + p)[..|s + p| - |p|] == s;
  }

  /** A string that does not end with `p` is left as it is. */
  lemma TrimEndMatchesNoSuffix(s: string, p: string)
    requires !EndsWith(s, p)
    ensures TrimEndMatches(s, p) == s
  {
  }

  /** Trimming keeps an occurrence of `q` whose last character does not occur in `p`. */
  lemma {:induction false} TrimEndMatchesKeepsContains(s: string, p: string, q: string)
    requires |q| > 0 && q[|q| - 1] !in p
    requires Contains(s, q)
    ensures Contains(TrimEndMatches(s, p), q)
    decreases |s|
  {
    if |p| > 0 && EndsWith(s, p) {
      var front := s[..|s| - |p|];
      assert front + p == s;
      ContainsBeforeTail(front, p, q);
      TrimEndMatchesKeepsContains(front, p, q);
    }
  }

  /** `s.split(c).collect()`: the maximal pieces between occurrences of `c`
      (one piece more than `c` occurs; the empty string gives one empty piece). */
  function Split(s: string, c: char): (parts: seq<string>)
    ensures |parts| >= 1
    ensures forall i :: 0 <= i < |parts| ==> c !in parts[i]
    decreases |s|
  {
    if s == [] then [[]]
    else
      var rest := Split(s[1..], c);
      if s[0] == c then [[]] + rest
      else [[s[0]] + rest[0]] + rest[1..]
  }

  /** The last piece: `s.split(c).last()`, which always exists. */
  function LastPiece(s: string, c: char): (r: string)
    ensures c !in r
  {
    var parts := Split(s, c);
    parts[|parts| - 1]
  }

  /** `parts.join(sep)` */
  function Join(parts: seq<string>, sep: string): string
    decreases |parts|
  {
    if |parts| == 0 then []
    else if |parts| == 1 then parts[0]
    else parts[0] + sep + Join(parts[1..], sep)
  }

  /** Every part occurs in the join. */
  lemma {:induction false} JoinContainsParts(parts: seq<string>, sep: string, i: nat)
    requires i < |parts|
    ensures Contains(Join(parts, sep), parts[i])
    decreases |parts|
  {
    ContainsAt(parts[i], parts[i], 0);
    if |parts| > 1 {
      if i == 0 {
        ContainsInside([], parts[0], sep + Join(parts[1..], sep), parts[0]);
        assert [] + parts[0] + (sep + Join(parts[1..], sep)) == Join(parts, sep);
      } else {
        JoinContainsParts(parts[1..], sep, i - 1);
        ContainsInside(parts[0] + sep, Join(parts[1..], sep), [], parts[i]);
        assert parts[0] + sep + Join(parts[1..], sep) + [] == Join(parts, sep);
      }
    }
  }

  /** Appending a part to a non-empty join adds the separator and the part. */
  lemma {:induction false} JoinSnoc(parts: seq<string>, x: string, sep: string)
    requires |parts| > 0
    ensures Join(parts + [x], sep) == Join(parts, sep) + sep + x
    decreases |parts|
  {
    if |parts| == 1 {
      assert (parts + [x])[1..] == [x];
    } else {
      JoinSnoc(parts[1..], x, sep);
      assert (parts + [x])[1..] == parts[1..] + [x];
    }
  }

  /** A character absent from a string is absent from every piece of its split. */
  lemma {:induction false} SplitPiecesWithout(s: string, c: char, d: char)
    requires d !in s
    ensures forall i :: 0 <= i < |Split(s, c)| ==> d !in Split(s, c)[i]
    decreases |s|
  {
    if s != [] {
      assert forall x :: x in s[1..] ==> x in s;
      SplitPiecesWithout(s[1..], c, d);
    }
  }

  /** A string free of `c` is one piece. */
  lemma {:induction false} SplitWithout(s: string, c: char)
    requires c !in s
    ensures Split(s, c) == [s]
    decreases |s|
  {
    if s != [] {
      SplitWithout(s[1..], c);
      assert [s[0]] + s[1..] == s;
    }
  }

  /** Splitting at an occurrence of `c` concatenates the pieces of both sides. */
  lemma {:induction false} SplitAround(a: string, c: char, b: string)
    ensures Split(a + [c] + b, c) == Split(a, c) + Split(b, c)
    decreases |a|
  {
    var s := a + [c] + b;
    if a == [] {
      assert s[1..] == b;
    } else {
      assert s[1..] == a[1..] + [c] + b;
      SplitAround(a[1..], c, b);
    }
  }

  /** There are at least two pieces exactly when the separator occurs. */
  lemma {:induction false} SplitHasTwoPieces(s: string, c: char)
    ensures |Split(s, c)| >= 2 <==> c in s
    decreases |s|
  {
    if s != [] {
      SplitHasTwoPieces(s[1..], c);
      assert c in s <==> s[0] == c || c in s[1..];
    }
  }

  /** Joining the pieces with the separator gives back the string. */
  lemma {:induction false} JoinSplit(s: string, c: char)
    ensures Join(Split(s, c), [c]) == s
    decreases |s|
  {
    if s != [] {
      var rest := Split(s[1..], c);
      JoinSplit(s[1..], c);
      if s[0] == c {
        calc {
          Join(Split(s, c), [c]);
          Join([[]] + rest, [c]);
          { assert ([[]] + rest)[1..] == rest; }
          [] + [c] + Join(rest, [c]);
          [c] + s[1..];
          s;
        }
      } else if |rest| == 1 {
        assert Split(s, c) == [[s[0]] + rest[0]];
        assert [s[0]] + s[1..] == s;
      } else {
        var parts := [[s[0]] + rest[0]] + rest[1..];
        assert parts[1..] == rest[1..];
        assert Join(rest, [c]) == rest[0] + [c] + Join(rest[1..], [c]);
        assert [s[0]] + s[1..] == s;
      }
    }
  }

  /** Splitting a join of separator-free pieces gives back the pieces. */
  lemma {:induction false} SplitJoin(parts: seq<string>, c: char)
    requires |parts| >= 1
    requires forall i :: 0 <= i < |parts| ==> c !in parts[i]
    ensures Split(Join(parts, [c]), c) == parts
    decreases |parts|
  {
    SplitWithout(parts[0], c);
    if |parts| > 1 {
      SplitJoin(parts[1..], c);
      SplitAround(parts[0], c, Join(parts[1..], [c]));
      assert [parts[0]] + parts[1..] == parts;
    }
  }

  // ---- decimal rendering ----

  predicate IsDigit(ch: char) {
    '0' <= ch <= '9'
  }

  function DigitChar(d: nat): (ch: char)
    requires d < 10
    ensures IsDigit(ch) && ch as int - '0' as int == d
  {
    ('0' as int + d) as char
  }

  /** `format!("{}", n)` for a non-negative integer. */
  function NatToString(n: nat): (r: string)
    ensures |r| >= 1 && forall i :: 0 <= i < |r| ==> IsDigit(r[i])
    decreases n
  {
    if n < 10 then [DigitChar(n)] else NatToString(n / 10) + [DigitChar(n % 10)]
  }

  /** `format!("{}", i)` for an integer of either sign. */
  function IntToString(i: int): (r: string)
    ensures |r| >= 1
  {
    if i < 0 then "-" + NatToString(-i) else NatToString(i)
  }

  predicate IsDigits(s: string) {
    forall i :: 0 <= i < |s| ==> IsDigit(s[i])
  }

  /** The value of a string of decimal digits. */
  function DigitsValue(s: string): nat
    requires IsDigits(s)
    decreases |s|
  {
    if s == [] then 0 else DigitsValue(s[..|s| - 1]) * 10 + (s[|s| - 1] as int - '0' as int)
  }

  /** Reading a decimal integer with an optional leading minus, as `str::parse::<i64>`
      does without its width limit. */
  function ParseInt(s: string): Option<int> {
    if |s| >= 2 && s[0] == '-' && IsDigits(s[1..]) then Some(0 - DigitsValue(s[1..]))
    else if |s| >= 1 && IsDigits(s) then Some(DigitsValue(s))
    else None
  }

  /** Decimal rendering of naturals is read back exactly. */
  lemma {:induction false} NatToStringRoundTrip(n: nat)
    ensures DigitsValue(NatToString(n)) == n
    decreases n
  {
    if n >= 10 {
      NatToStringRoundTrip(n / 10);
      var s := NatToString(n);
      assert s[..|s| - 1] == NatToString(n / 10);
    }
  }

  /** Decimal rendering of integers is read back exactly. */
  lemma IntToStringRoundTrip(i: int)
    ensures ParseInt(IntToString(i)) == Some(i)
  {
    var s := IntToString(i);
    if i < 0 {
      var digits := NatToString(-i);
      assert s[0] == '-' && s[1..] == digits;
      assert IsDigits(s[1..]);
      NatToStringRoundTrip(-i);
    } else {
      assert IsDigits(s);
      assert IsDigit(s[0]);
      NatToStringRoundTrip(i);
    }
  }

  /** Distinct naturals render differently. */
  lemma NatToStringInjective(m: nat, n: nat)
    requires NatToString(m) == NatToString(n)
    ensures m == n
  {
    NatToStringRoundTrip(m);
    NatToStringRoundTrip(n);
  }
}
