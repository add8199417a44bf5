/** String operations that the literature-clock and weather-card scripts take from
    Python's `str`: `replace`, `split`, `count`, ASCII case folding and decimal
    rendering of integers. */
module TextOps {

  /** The pattern `p` occurs in `s` starting at index `i`. */
  predicate OccursAt(s: string, p: string, i: int)
  {
    0 <= i && i + |p| <= |s| && s[i..i + |p|] == p
  }

  /** The pattern `p` occurs somewhere in `s`. */
  predicate Occurs(s: string, p: string)
  {
    exists i :: 0 <= i <= |s| && OccursAt(s, p, i)
  }

  lemma CharOccurs(s: string, c: char)
    ensures c in s <==> Occurs(s, [c])
  {
    if c in s {
      var i :| 0 <= i < |s| && s[i] == c;
      assert OccursAt(s, [c], i);
    }
    if Occurs(s, [c]) {
      var i :| 0 <= i <= |s| && OccursAt(s, [c], i);
      assert s[i..i + 1] == [c];
      assert s[i] == c;
    }
  }

  /** `s.replace(pat, rep)`: scans `s` from the left and replaces every
      non-overlapping occurrence of `pat` by `rep`. */
  function ReplaceAll(s: string, pat: string, rep: string): (r: string)
    requires |pat| > 0
    ensures |rep| == |pat| ==> |r| == |s|
    decreases |s|
  {
    if |s| < |pat| then s
    else if s[..|pat|] == pat then rep + ReplaceAll(s[|pat|..], pat, rep)
    else [s[0]] + ReplaceAll(s[1..], pat, rep)
  }

  lemma NotOccursTail(s: string, p: string, k: nat)
    requires k <= |s|
    requires !Occurs(s, p)
    ensures !Occurs(s[k..], p)
  {
    forall i | OccursAt(s[k..], p, i)
      ensures false
    {
      assert s[k..][i..i + |p|] == s[k + i..k + i + |p|];
      assert OccursAt(s, p, k + i);
    }
  }

  /** Replacing a pattern that does not occur leaves the string as it is. */
  lemma {:induction false} ReplaceAllAbsent(s: string, pat: string, rep: string)
    requires |pat| > 0
    requires !Occurs(s, pat)
    ensures ReplaceAll(s, pat, rep) == s
  {
    if |s| >= |pat| {
      assert !OccursAt(s, pat, 0);
      NotOccursTail(s, pat, 1);
      ReplaceAllAbsent(s[1..], pat, rep);
      assert [s[0]] + s[1..] == s;
    }
  }

  /** A prefix of the result made only of characters from `chars` was copied
      unchanged from the input, as long as the replacement starts outside `chars`. */
  lemma {:induction false} ReplaceAllCopiedPrefix(t: string, pat: string, rep: string, chars: set<char>, k: nat)
    requires |pat| > 0 && |rep| > 0 && rep[0] !in chars
    requires k <= |ReplaceAll(t, pat, rep)|
    requires forall j :: 0 <= j < k ==> ReplaceAll(t, pat, rep)[j] in chars
    ensures k <= |t| && ReplaceAll(t, pat, rep)[..k] == t[..k]
  {
    if |t| >= |pat| && k > 0 {
      var r := ReplaceAll(t, pat, rep);
      assert r[0] in chars;
      if t[..|pat|] == pat {
        // r would start with rep[0], which is outside chars.
        assert false;
      } else {
        var r' := ReplaceAll(t[1..], pat, rep);
        assert r == [t[0]] + r';
        forall j | 0 <= j < k - 1
          ensures r'[j] in chars
        {
          assert r'[j] == r[j + 1];
        }
        ReplaceAllCopiedPrefix(t[1..], pat, rep, chars, k - 1);
        assert r[..k] == [t[0]] + r'[..k - 1];
        assert t[..k] == [t[0]] + t[1..][..k - 1];
      }
    }
  }

  /** Putting `rep` in front keeps `q` absent when `rep` does not contain the
      first character of `q`. */
  lemma PrependNoOccur(rep: string, r: string, q: string)
    requires |q| > 0 && q[0] !in rep
    requires !Occurs(r, q)
    ensures !Occurs(rep + r, q)
  {
    var t := rep + r;
    forall i | 0 <= i <= |t| && OccursAt(t, q, i)
      ensures false
    {
      if i >= |rep| {
        assert t[i..i + |q|] == r[i - |rep|..i - |rep| + |q|];
        assert OccursAt(r, q, i - |rep|);
      }
    }
  }

  /** After a match of `q` at the start of `[x] + r`, the start of `r` holds
      only characters of `q`. */
  lemma TailInChars(x: char, r: string, q: string, chars: set<char>)
    requires chars == set c | c in q
    requires OccursAt([x] + r, q, 0)
    ensures forall j :: 0 <= j < |q| - 1 ==> r[j] in chars
  {
    forall j | 0 <= j < |q| - 1
      ensures r[j] in chars
    {
      assert r[j] == ([x] + r)[j + 1] == q[j + 1];
    }
  }

  /** A match at the start of `[s[0]] + r` whose tail was copied from `s` is a
      match at the start of `s`. */
  lemma HeadThenCopied(s: string, r: string, q: string)
    requires |s| > 0 && |q| > 0 && OccursAt([s[0]] + r, q, 0)
    requires |q| - 1 <= |s| - 1 && r[..|q| - 1] == s[1..][..|q| - 1]
    ensures OccursAt(s, q, 0)
  {
    assert ([s[0]] + r)[..|q|] == [s[0]] + r[..|q| - 1];
    assert s[..|q|] == [s[0]] + s[1..][..|q| - 1];
  }

  /** An occurrence of `q` at the start of a result whose first character was
      copied from `s` was already at the start of `s`. */
  lemma CopiedHeadOccurs(s: string, pat: string, rep: string, q: string)
    requires |pat| > 0 && |rep| > 0 && |q| > 0 && |s| > 0
    requires forall c :: c in rep ==> c !in q
    requires OccursAt([s[0]] + ReplaceAll(s[1..], pat, rep), q, 0)
    ensures OccursAt(s, q, 0)
  {
    var r := ReplaceAll(s[1..], pat, rep);
    var chars := set c | c in q;
    assert rep[0] !in chars;
    TailInChars(s[0], r, q, chars);
    ReplaceAllCopiedPrefix(s[1..], pat, rep, chars, |q| - 1);
    HeadThenCopied(s, r, q);
  }

  /** A first character copied from `s` does not begin an occurrence of `q` in
      the result, unless `q` already occurred at the start of `s`. */
  lemma CopiedHeadNoOccur(s: string, pat: string, rep: string, q: string)
    requires |pat| > 0 && |rep| > 0 && |q| > 0
    requires forall c :: c in rep ==> c !in q
    requires |s| >= |pat| && s[..|pat|] != pat
    requires !OccursAt(s, q, 0)
    ensures !OccursAt([s[0]] + ReplaceAll(s[1..], pat, rep), q, 0)
  {
    if OccursAt([s[0]] + ReplaceAll(s[1..], pat, rep), q, 0) {
      CopiedHeadOccurs(s, pat, rep, q);
    }
  }

  /** An occurrence in `[x] + r` that is not at the start is one in `r`. */
  lemma ConsNoOccur(x: char, r: string, q: string)
    requires !Occurs(r, q)
    requires !OccursAt([x] + r, q, 0)
    ensures !Occurs([x] + r, q)
  {
    var t := [x] + r;
    forall i | 0 < i <= |t| && OccursAt(t, q, i)
      ensures false
    {
      assert t[i..i + |q|] == r[i - 1..i - 1 + |q|];
      assert OccursAt(r, q, i - 1);
    }
  }

  /** Every occurrence is gone afterwards when the replacement is non-empty and
      shares no character with the pattern. (Without that condition Python's
      `replace` can leave one: "{{ab}b}".replace("{ab}", "a") is "{ab}".) */
  lemma {:induction false} ReplaceAllRemoves(s: string, pat: string, rep: string)
    requires |pat| > 0 && |rep| > 0
    requires forall c :: c in rep ==> c !in pat
    ensures !Occurs(ReplaceAll(s, pat, rep), pat)
  {
    if |s| < |pat| {
      assert !Occurs(s, pat);
    } else if s[..|pat|] == pat {
      ReplaceAllRemoves(s[|pat|..], pat, rep);
      PrependNoOccur(rep, ReplaceAll(s[|pat|..], pat, rep), pat);
    } else {
      ReplaceAllRemoves(s[1..], pat, rep);
      CopiedHeadNoOccur(s, pat, rep, pat);
      ConsNoOccur(s[0], ReplaceAll(s[1..], pat, rep), pat);
    }
  }

  /** Replacing one pattern cannot create an occurrence of another pattern `q`
      that was absent, when the replacement is non-empty and shares no character
      with `q`. */
  lemma {:induction false} ReplaceAllKeepsAbsent(s: string, pat: string, rep: string, q: string)
    requires |pat| > 0 && |rep| > 0 && |q| > 0
    requires forall c :: c in rep ==> c !in q
    requires !Occurs(s, q)
    ensures !Occurs(ReplaceAll(s, pat, rep), q)
  {
    if |s| < |pat| {
    } else if s[..|pat|] == pat {
      NotOccursTail(s, q, |pat|);
      ReplaceAllKeepsAbsent(s[|pat|..], pat, rep, q);
      PrependNoOccur(rep, ReplaceAll(s[|pat|..], pat, rep), q);
    } else {
      NotOccursTail(s, q, 1);
      ReplaceAllKeepsAbsent(s[1..], pat, rep, q);
      assert !OccursAt(s, q, 0);
      CopiedHeadNoOccur(s, pat, rep, q);
      ConsNoOccur(s[0], ReplaceAll(s[1..], pat, rep), q);
    }
  }

  /** Replacing one character by a text without it leaves none of it, and
      changes nothing when it was not there. */
  lemma ReplaceCharGone(s: string, c: char, rep: string)
    requires |rep| > 0 && c !in rep
    ensures c !in ReplaceAll(s, [c], rep)
    ensures c !in s ==> ReplaceAll(s, [c], rep) == s
  {
    ReplaceAllRemoves(s, [c], rep);
    CharOccurs(ReplaceAll(s, [c], rep), c);
    CharOccurs(s, c);
    if c !in s {
      ReplaceAllAbsent(s, [c], rep);
    }
  }

  /** `s.count(c)` for a single character. */
  function Count(s: string, c: char): (n: nat)
    ensures n <= |s|
    ensures n == 0 <==> c !in s
  {
    if s == [] then 0 else (if s[0] == c then 1 else 0) + Count(s[1..], c)
  }

  /** `s.split(c)` for a single separator character. */
  function Split(s: string, c: char): (parts: seq<string>)
    ensures |parts| == Count(s, c) + 1
    ensures forall i :: 0 <= i < |parts| ==> c !in parts[i]
  {
    if s == [] then [""]
    else
      var rest := Split(s[1..], c);
      if s[0] == c then [""] + rest else [[s[0]] + rest[0]] + rest[1..]
  }

  /** Counting distributes over concatenation. */
  lemma {:induction false} CountAppend(a: string, b: string, c: char)
    ensures Count(a + b, c) == Count(a, c) + Count(b, c)
  {
    if a == [] {
      assert a + b == b;
    } else {
      assert (a + b)[1..] == a[1..] + b;
      CountAppend(a[1..], b, c);
    }
  }

  /** A string without the separator is a single part. */
  lemma {:induction false} SplitFree(a: string, c: char)
    requires c !in a
    ensures Split(a, c) == [a]
  {
    if a != [] {
      SplitFree(a[1..], c);
      assert a == [a[0]] + a[1..];
    }
  }

  /** The first separator ends the first part. */
  lemma {:induction false} SplitAt(a: string, b: string, c: char)
    requires c !in a
    ensures Split(a + [c] + b, c) == [a] + Split(b, c)
  {
    var s := a + [c] + b;
    if a == [] {
      assert s[0] == c && s[1..] == b;
    } else {
      assert s[0] == a[0] && s[1..] == a[1..] + [c] + b;
      SplitAt(a[1..], b, c);
      var rest := Split(s[1..], c);
      assert rest == [a[1..]] + Split(b, c);
      assert rest[0] == a[1..] && rest[1..] == Split(b, c);
      assert [s[0]] + rest[0] == a;
    }
  }

  /** `c.join(parts)`. */
  function Join(parts: seq<string>, c: char): string
    requires |parts| > 0
  {
    if |parts| == 1 then parts[0] else parts[0] + [c] + Join(parts[1..], c)
  }

  /** Concatenation of all parts, `"".join(parts)`. */
  function Concat(parts: seq<string>): string
  {
    if parts == [] then "" else parts[0] + Concat(parts[1..])
  }

  /** Joining after an empty first part starts with the separator. */
  lemma JoinSep(rest: seq<string>, c: char)
    requires |rest| > 0
    ensures Join([""] + rest, c) == [c] + Join(rest, c)
  {
    var parts := [""] + rest;
    assert parts[1..] == rest;
    assert Join(parts, c) == "" + [c] + Join(rest, c);
  }

  /** Joining after a character is put in front of the first part. */
  lemma JoinCons(x: char, rest: seq<string>, c: char)
    requires |rest| > 0
    ensures Join([[x] + rest[0]] + rest[1..], c) == [x] + Join(rest, c)
  {
    var parts := [[x] + rest[0]] + rest[1..];
    if |rest| > 1 {
      assert parts[1..] == rest[1..];
      assert Join(parts, c) == [x] + rest[0] + [c] + Join(rest[1..], c);
    }
  }

  /** Splitting and joining again on the same separator gives back the string. */
  lemma {:induction false} JoinSplit(s: string, c: char)
    ensures Join(Split(s, c), c) == s
  {
    if s != [] {
      var rest := Split(s[1..], c);
      JoinSplit(s[1..], c);
      if s[0] == c {
        JoinSep(rest, c);
      } else {
        JoinCons(s[0], rest, c);
      }
      assert s == [s[0]] + s[1..];
    }
  }

  /** The split parts, put together without separators, are the string with
      every separator removed: `"".join(s.split(c)) == s.replace(c, "")`. */
  lemma {:induction false} ConcatSplit(s: string, c: char)
    ensures Concat(Split(s, c)) == ReplaceAll(s, [c], "")
  {
    if s != [] {
      var rest := Split(s[1..], c);
      ConcatSplit(s[1..], c);
      assert s[..1] == [s[0]];
      if s[0] == c {
        assert Split(s, c)[1..] == rest;
      } else {
        var parts := Split(s, c);
        assert parts[1..] == rest[1..];
        assert Concat(rest) == rest[0] + Concat(rest[1..]);
        assert Concat(parts) == [s[0]] + rest[0] + Concat(rest[1..]);
      }
    }
  }

  /** ASCII lower-casing of one character. */
  function LowerChar(c: char): (l: char)
    ensures 'A' <= c <= 'Z' ==> l as int == c as int + 32
    ensures !('A' <= c <= 'Z') ==> l == c
  {
    if 'A' <= c <= 'Z' then (c as int + 32) as char else c
  }

  /** ASCII lower-casing of a string. */
  function Lower(s: string): (r: string)
    ensures |r| == |s|
    ensures forall i :: 0 <= i < |s| ==> r[i] == LowerChar(s[i])
  {
    seq(|s|, i requires 0 <= i < |s| => LowerChar(s[i]))
  }

  predicate IsDigit(c: char)
  {
    '0' <= c <= '9'
  }

  function DigitValue(c: char): (d: nat)
    requires IsDigit(c)
    ensures d < 10
  {
    c as int - '0' as int
  }

  function DigitChar(d: int): (c: char)
    requires 0 <= d < 10
    ensures IsDigit(c) && DigitValue(c) == d
  {
    ('0' as int + d) as char
  }

  /** `str(n)` for a non-negative integer: decimal digits, no leading zeros. */
  function NatToString(n: nat): (s: string)
    ensures |s| > 0
    ensures forall i :: 0 <= i < |s| ==> IsDigit(s[i])
  {
    if n < 10 then [DigitChar(n)] else NatToString(n / 10) + [DigitChar(n % 10)]
  }

  /** The value of a string of decimal digits. */
  function ParseDecimal(s: string): nat
    requires forall i :: 0 <= i < |s| ==> IsDigit(s[i])
  {
    if s == [] then 0 else ParseDecimal(s[..|s| - 1]) * 10 + DigitValue(s[|s| - 1])
  }

  lemma {:induction false} ParseNatToString(n: nat)
    ensures ParseDecimal(NatToString(n)) == n
  {
    if n >= 10 {
      var s := NatToString(n);
      assert s[..|s| - 1] == NatToString(n / 10);
      ParseNatToString(n / 10);
    }
  }

  /** Different numbers render differently, so numbered placeholders never collide. */
  lemma NatToStringInjective(a: nat, b: nat)
    ensures NatToString(a) == NatToString(b) ==> a == b
  {
    ParseNatToString(a);
    ParseNatToString(b);
  }
}
