/**
 * The JavaScript string operations the application relies on, over
 * `seq<char>`: `startsWith`, `endsWith`, `includes`, `indexOf`, `replace`
 * with a string pattern (first occurrence only), `replaceAll`, `split` on a
 * one-character separator, `join`, ASCII `toLowerCase`/`toUpperCase` and
 * `trim`.
 */
module Strings {

  predicate StartsWith(s: string, p: string) {
    |p| <= |s| && s[..|p|] == p
  }

  predicate EndsWith(s: string, p: string) {
    |p| <= |s| && s[|s| - |p|..] == p
  }

  /** `s.includes(p)`: `p` starts at some position of `s`. */
  predicate Contains(s: string, p: string)
    decreases |s|
  {
    StartsWith(s, p) || (|s| > 0 && Contains(s[1..], p))
  }

  /** `s.indexOf(p)`: the first position where `p` starts, or -1. */
  function IndexOf(s: string, p: string): (r: int)
    ensures -1 <= r <= |s|
    ensures r == -1 <==> !Contains(s, p)
    ensures r >= 0 ==> StartsWith(s[r..], p)
    ensures r >= 0 ==> forall k :: 0 <= k < r ==> !StartsWith(s[k..], p)
    decreases |s|
  {
    if StartsWith(s, p) then 0
    else if |s| == 0 then -1
    else
      var k := IndexOf(s[1..], p);
      assert forall j :: 1 <= j <= |s| ==> s[1..][j - 1..] == s[j..];
      if k == -1 then -1 else k + 1
  }

  /** `a.indexOf(x)` on an array: the first index holding `x`, or -1. */
  function IndexOfItem<T(==)>(a: seq<T>, x: T): (r: int)
    ensures -1 <= r < |a|
    ensures r == -1 <==> x !in a
    ensures r >= 0 ==> a[r] == x && x !in a[..r]
    decreases |a|
  {
    if |a| == 0 then -1
    else if a[0] == x then 0
    else
      var k := IndexOfItem(a[1..], x);
      assert k >= 0 ==> a[..k + 1] == [a[0]] + a[1..][..k];
      if k == -1 then -1 else k + 1
  }

  /** The first occurrence is the one with none before it. */
  lemma FirstIndex<T>(a: seq<T>, x: T, k: int)
    requires 0 <= k < |a| && a[k] == x && x !in a[..k]
    ensures IndexOfItem(a, x) == k
  {
    assert a[..k + 1][k] == x;
  }

  /** `s.replace(p, r)` with a string pattern and a replacement holding no
      "$": only the first occurrence, replaced by `r` as it is (`Replace`
      is the general case). */
  function ReplaceFirst(s: string, p: string, r: string): string
    decreases |s|
  {
    if StartsWith(s, p) then r + s[|p|..]
    else if |s| == 0 then s
    else [s[0]] + ReplaceFirst(s[1..], p, r)
  }

  /** The replacement patterns of `replace` with a string pattern, where
      there are no capture groups: "$$" gives "$", "$&" the matched text,
      "$`" the text before the match and "$'" the text after it; every
      other character, any other "$" included, stays as it is. */
  function Substitution(r: string, matched: string, before: string, after: string): (t: string)
    ensures '$' !in r ==> t == r
    decreases |r|
  {
    if |r| >= 2 && r[0] == '$' && r[1] == '$' then "$" + Substitution(r[2..], matched, before, after)
    else if |r| >= 2 && r[0] == '$' && r[1] == '&' then matched + Substitution(r[2..], matched, before, after)
    else if |r| >= 2 && r[0] == '$' && r[1] == '`' then before + Substitution(r[2..], matched, before, after)
    else if |r| >= 2 && r[0] == '$' && r[1] == '\'' then after + Substitution(r[2..], matched, before, after)
    else if |r| == 0 then ""
    else
      assert '$' !in r ==> '$' !in r[1..] by {
        assert forall i :: 0 <= i < |r[1..]| ==> r[1..][i] == r[i + 1];
      }
      [r[0]] + Substitution(r[1..], matched, before, after)
  }

  /** The scan of `Replace` past the text `before` already passed. */
  function ReplaceFrom(s: string, p: string, r: string, before: string): (t: string)
    ensures !Contains(s, p) ==> t == s
    ensures '$' !in r ==> t == ReplaceFirst(s, p, r)
    decreases |s|
  {
    if StartsWith(s, p) then Substitution(r, p, before, s[|p|..]) + s[|p|..]
    else if |s| == 0 then s
    else
      assert [s[0]] + s[1..] == s;
      [s[0]] + ReplaceFrom(s[1..], p, r, before + [s[0]])
  }

  /** `s.replace(p, r)` with a string pattern: the first occurrence of `p`
      is replaced by `r` with its replacement patterns expanded. */
  function Replace(s: string, p: string, r: string): (t: string)
    ensures !Contains(s, p) ==> t == s
    ensures '$' !in r ==> t == ReplaceFirst(s, p, r)
    ensures StartsWith(s, p) ==> t == Substitution(r, p, "", s[|p|..]) + s[|p|..]
  {
    ReplaceFrom(s, p, r, "")
  }

  /** `s.replaceAll(p, r)`: every occurrence, scanning left to right. */
  function ReplaceAll(s: string, p: string, r: string): string
    requires |p| > 0
    decreases |s|
  {
    if StartsWith(s, p) then r + ReplaceAll(s[|p|..], p, r)
    else if |s| == 0 then s
    else [s[0]] + ReplaceAll(s[1..], p, r)
  }

  /** `s.split(c)` on a one-character separator. */
  function Split(s: string, c: char): (r: seq<string>)
    ensures |r| >= 1
    decreases |s|
  {
    if |s| == 0 then [""]
    else
      var rest := Split(s[1..], c);
      if s[0] == c then [""] + rest
      else [[s[0]] + rest[0]] + rest[1..]
  }

  /** `parts.join(sep)`. */
  function Join(parts: seq<string>, sep: string): string
    decreases |parts|
  {
    if |parts| == 0 then ""
    else if |parts| == 1 then parts[0]
    else parts[0] + sep + Join(parts[1..], sep)
  }

  function LowerChar(c: char): char {
    if 'A' <= c <= 'Z' then (c as int + 32) as char else c
  }

  function UpperChar(c: char): char {
    if 'a' <= c <= 'z' then (c as int - 32) as char else c
  }

  /** `toLowerCase`, restricted to ASCII letters. */
  function Lower(s: string): (r: string)
    ensures |r| == |s|
    ensures forall i :: 0 <= i < |s| ==> r[i] == LowerChar(s[i])
  {
    seq(|s|, i requires 0 <= i < |s| => LowerChar(s[i]))
  }

  predicate IsSpace(c: char) {
    c == ' ' || c == '\t' || c == '\n' || c == '\r'
  }

  function TrimStart(s: string): string
    decreases |s|
  {
    if |s| > 0 && IsSpace(s[0]) then TrimStart(s[1..]) else s
  }

  function TrimEnd(s: string): string
    decreases |s|
  {
    if |s| > 0 && IsSpace(s[|s| - 1]) then TrimEnd(s[..|s| - 1]) else s
  }

  /** `trim`: leading and trailing white space removed. */
  function Trim(s: string): string {
    TrimEnd(TrimStart(s))
  }

  /** Removes every occurrence of the character `c`. */
  function RemoveChar(s: string, c: char): (r: string)
    ensures c !in r
    ensures c !in s ==> r == s
    ensures forall x :: x != c ==> multiset(r)[x] == multiset(s)[x]
    decreases |s|
  {
    if |s| == 0 then ""
    else
      assert s == [s[0]] + s[1..];
      (if s[0] == c then "" else [s[0]]) + RemoveChar(s[1..], c)
  }

  /** Removing a character from a concatenation removes it from each part. */
  lemma {:induction false} RemoveCharAppend(s: string, t: string, c: char)
    ensures RemoveChar(s + t, c) == RemoveChar(s, c) + RemoveChar(t, c)
    decreases |s|
  {
    if |s| > 0 {
      assert (s + t)[1..] == s[1..] + t;
      RemoveCharAppend(s[1..], t, c);
    } else {
      assert s + t == t;
    }
  }

  /** `s.split(c).at(-1)`: the text after the last `c`. */
  function LastPart(s: string, c: char): string {
    var parts := Split(s, c);
    parts[|parts| - 1]
  }

  /** The decimal digit character of `d`. */
  function DigitChar(d: nat): (r: char)
    requires d < 10
    ensures '0' <= r <= '9'
  {
    ('0' as int + d) as char
  }

  /** `Number.prototype.toString()` on a natural number: its decimal digits. */
  function NatToString(n: nat): (r: string)
    ensures |r| >= 1
    ensures forall i :: 0 <= i < |r| ==> '0' <= r[i] <= '9'
  {
    if n < 10 then [DigitChar(n)] else NatToString(n / 10) + [DigitChar(n % 10)]
  }

  /** `toString()` on an integer, with a minus sign for negative numbers. */
  function IntToString(n: int): (r: string)
    ensures n >= 0 ==> r == NatToString(n)
    ensures n < 0 ==> r == "-" + NatToString(-n)
  {
    if n >= 0 then NatToString(n) else "-" + NatToString(-n)
  }

  // ---------------------------------------------------------------- lemmas

  /** Distinct numbers have distinct decimal texts. */
  lemma {:induction false} NatToStringInjective(a: nat, b: nat)
    requires NatToString(a) == NatToString(b)
    ensures a == b
    decreases a
  {
    var s := NatToString(a);
    if a < 10 && b < 10 {
      assert s[0] == DigitChar(a) && s[0] == DigitChar(b);
    } else if a >= 10 && b >= 10 {
      var t := NatToString(b);
      assert s[..|s| - 1] == NatToString(a / 10);
      assert t[..|t| - 1] == NatToString(b / 10);
      NatToStringInjective(a / 10, b / 10);
      assert DigitChar(a % 10) == s[|s| - 1] == DigitChar(b % 10);
    }
  }

  lemma NatToStringDistinct(a: nat, b: nat)
    requires a != b
    ensures NatToString(a) != NatToString(b)
  {
    if NatToString(a) == NatToString(b) {
      NatToStringInjective(a, b);
    }
  }

  /** Splitting at a separator splits the two sides independently. */
  lemma {:induction false} SplitConcat(a: string, c: char, b: string)
    ensures Split(a + [c] + b, c) == Split(a, c) + Split(b, c)
    decreases |a|
  {
    if |a| == 0 {
      assert a + [c] + b == [c] + b;
      SplitCons(c, b, c);
    } else {
      var x, a' := a[0], a[1..];
      assert a == [x] + a';
      assert a + [c] + b == [x] + (a' + [c] + b);
      SplitConcat(a', c, b);
      SplitCons(x, a' + [c] + b, c);
      SplitCons(x, a', c);
      ConsParts(x, c, Split(a', c), Split(b, c));
    }
  }

  /** The step of `SplitConcat`: the first character joins the first part
      or starts a new one, on either side of the concatenation. */
  lemma ConsParts(x: char, c: char, rest: seq<string>, tail: seq<string>)
    requires |rest| >= 1
    ensures (if x == c then [""] + (rest + tail) else [[x] + (rest + tail)[0]] + (rest + tail)[1..])
      == (if x == c then [""] + rest else [[x] + rest[0]] + rest[1..]) + tail
  {
    if x != c {
      assert (rest + tail)[1..] == rest[1..] + tail;
    }
  }

  /** One unfolding of `Split` at the first character. */
  lemma SplitCons(x: char, t: string, c: char)
    ensures Split([x] + t, c) == if x == c then [""] + Split(t, c)
      else [[x] + Split(t, c)[0]] + Split(t, c)[1..]
  {
    assert ([x] + t)[1..] == t;
  }

  /** The text after the last separator. */
  lemma LastPartAfter(a: string, c: char, b: string)
    requires c !in b
    ensures LastPart(a + [c] + b, c) == b
  {
    SplitConcat(a, c, b);
    SplitWithoutSeparator(b, c);
  }

  /** The first part is unaffected by what follows a separator. */
  lemma FirstPartBefore(a: string, c: char, b: string)
    ensures Split(a + [c] + b, c)[0] == Split(a, c)[0]
  {
    SplitConcat(a, c, b);
  }

  lemma {:induction false} SplitPartsLackSeparator(s: string, c: char)
    ensures forall i :: 0 <= i < |Split(s, c)| ==> c !in Split(s, c)[i]
    decreases |s|
  {
    if |s| > 0 {
      SplitPartsLackSeparator(s[1..], c);
    }
  }

  lemma {:induction false} SplitPartsKeepAbsence(s: string, c: char, d: char)
    requires d !in s
    ensures forall i :: 0 <= i < |Split(s, c)| ==> d !in Split(s, c)[i]
    decreases |s|
  {
    if |s| > 0 {
      SplitPartsKeepAbsence(s[1..], c, d);
    }
  }

  /** The last part holds no separator. */
  lemma LastPartLacks(s: string, c: char)
    ensures c !in LastPart(s, c)
  {
    SplitPartsLackSeparator(s, c);
  }

  /** A character absent from the text is absent from its last part. */
  lemma LastPartKeeps(s: string, c: char, d: char)
    requires d !in s
    ensures d !in LastPart(s, c)
  {
    SplitPartsKeepAbsence(s, c, d);
  }

  lemma {:induction false} SplitWithoutSeparator(s: string, c: char)
    requires c !in s
    ensures Split(s, c) == [s]
    decreases |s|
  {
    if |s| > 0 {
      SplitWithoutSeparator(s[1..], c);
      assert [s[0]] + s[1..] == s;
    }
  }

  /** Joining the parts of a split with the separator gives the text back. */
  lemma {:induction false} JoinSplit(s: string, c: char)
    ensures Join(Split(s, c), [c]) == s
    decreases |s|
  {
    if |s| > 0 {
      var rest := Split(s[1..], c);
      JoinSplit(s[1..], c);
      if s[0] == c {
        assert Split(s, c) == [""] + rest;
        assert ([""] + rest)[1..] == rest;
        assert s == [c] + s[1..];
      } else {
        assert Split(s, c) == [[s[0]] + rest[0]] + rest[1..];
        if |rest| == 1 {
          assert s == [s[0]] + rest[0];
        } else {
          assert ([[s[0]] + rest[0]] + rest[1..])[1..] == rest[1..];
          assert Join(rest, [c]) == rest[0] + [c] + Join(rest[1..], [c]);
          assert s == [s[0]] + s[1..];
        }
      }
    }
  }

  lemma {:induction false} SplitAfterPart(a: string, c: char, x: string)
    requires c !in a
    ensures Split(a + [c] + x, c) == [a] + Split(x, c)
    decreases |a|
  {
    var s := a + [c] + x;
    if |a| == 0 {
      assert s[1..] == x;
    } else {
      assert s[1..] == a[1..] + [c] + x;
      SplitAfterPart(a[1..], c, x);
      assert [a[0]] + a[1..] == a;
    }
  }

  /** Splitting a join of separator-free parts gives the parts back. */
  lemma {:induction false} SplitJoin(parts: seq<string>, c: char)
    requires |parts| > 0
    requires forall i :: 0 <= i < |parts| ==> c !in parts[i]
    ensures Split(Join(parts, [c]), c) == parts
    decreases |parts|
  {
    if |parts| == 1 {
      SplitWithoutSeparator(parts[0], c);
    } else {
      SplitJoin(parts[1..], c);
      SplitAfterPart(parts[0], c, Join(parts[1..], [c]));
      assert [parts[0]] + parts[1..] == parts;
    }
  }

  lemma SplitTwo(a: string, b: string, sep: char)
    requires sep !in a && sep !in b
    ensures Split(a + [sep] + b, sep) == [a, b]
  {
    SplitWithoutSeparator(b, sep);
    SplitAfterPart(a, sep, b);
  }

  lemma SplitThree(a: string, b: string, c: string, sep: char)
    requires sep !in a && sep !in b && sep !in c
    ensures Split(a + [sep] + b + [sep] + c, sep) == [a, b, c]
  {
    SplitTwo(b, c, sep);
    assert a + [sep] + b + [sep] + c == a + [sep] + (b + [sep] + c);
    SplitAfterPart(a, sep, b + [sep] + c);
  }

  /** No occurrence can start inside a text lacking the pattern's first
      character, so `replaceAll` copies such a text unchanged. */
  lemma {:induction false} ReplaceAllSkips(a: string, b: string, p: string, r: string)
    requires |p| > 0 && p[0] !in a
    ensures ReplaceAll(a + b, p, r) == a + ReplaceAll(b, p, r)
    decreases |a|
  {
    if |a| > 0 {
      assert (a + b)[0] == a[0] != p[0];
      assert (a + b)[1..] == a[1..] + b;
      ReplaceAllSkips(a[1..], b, p, r);
      assert [a[0]] + a[1..] == a;
    } else {
      assert a + b == b;
    }
  }

  lemma {:induction false} ReplaceFirstAbsent(s: string, p: string, r: string)
    requires !Contains(s, p)
    ensures ReplaceFirst(s, p, r) == s
    decreases |s|
  {
    if |s| > 0 {
      ReplaceFirstAbsent(s[1..], p, r);
      assert [s[0]] + s[1..] == s;
    }
  }

  /** Replacing a text by itself changes nothing. */
  lemma {:induction false} ReplaceFirstSelf(s: string, p: string)
    ensures ReplaceFirst(s, p, p) == s
    decreases |s|
  {
    if StartsWith(s, p) {
      assert p + s[|p|..] == s[..|p|] + s[|p|..] == s;
    } else if |s| > 0 {
      ReplaceFirstSelf(s[1..], p);
      assert [s[0]] + s[1..] == s;
    }
  }

  lemma JoinAppend(parts: seq<string>, x: string, sep: string)
    ensures Join(parts + [x], sep) == if |parts| == 0 then x else Join(parts, sep) + sep + x
    decreases |parts|
  {
    if |parts| > 1 {
      assert (parts + [x])[1..] == parts[1..] + [x];
      JoinAppend(parts[1..], x, sep);
    } else if |parts| == 1 {
      assert parts + [x] == [parts[0], x];
    }
  }
}
