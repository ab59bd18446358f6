/**
 * The Python `str` built-ins the scripts rely on, over `string` (= seq<char>):
 * `find`/`index`, `in`, `startswith`, `endswith`, `split` (with and without
 * `maxsplit=1`), `lower` and "the last piece of `split`".
 */
module PyStr {
  import opened Wrappers

  /** `pat` occurs in `s` starting at index `i`. */
  predicate OccursAt(s: string, pat: string, i: int)
  {
    0 <= i && i + |pat| <= |s| && s[i..i + |pat|] == pat
  }

  /** `s.find(pat)`: the first index at which `pat` occurs in `s`, or -1. */
  function Find(s: string, pat: string): (r: int)
    ensures -1 <= r <= |s|
    ensures r >= 0 ==> OccursAt(s, pat, r)
    ensures r >= 0 ==> forall j :: 0 <= j < r ==> !OccursAt(s, pat, j)
    ensures r < 0 ==> forall j :: 0 <= j <= |s| ==> !OccursAt(s, pat, j)
    decreases |s|
  {
    if |s| < |pat| then -1
    else if s[..|pat|] == pat then 0
    else
      var r := Find(s[1..], pat);
      assert forall j :: 1 <= j <= |s| ==> (OccursAt(s, pat, j) <==> OccursAt(s[1..], pat, j - 1));
      if r < 0 then -1 else r + 1
  }

  /** `pat in s`. */
  predicate Contains(s: string, pat: string)
  {
    Find(s, pat) >= 0
  }

  /** `s.startswith(p)`. */
  predicate StartsWith(s: string, p: string)
  {
    |p| <= |s| && s[..|p|] == p
  }

  /** `s.endswith(p)`. */
  predicate EndsWith(s: string, p: string)
  {
    |p| <= |s| && s[|s| - |p|..] == p
  }

  /** For a one-character pattern, Python's substring test is membership. */
  lemma ContainsChar(s: string, c: char)
    ensures Contains(s, [c]) <==> c in s
    ensures c in s ==> s[Find(s, [c])] == c
  {
    if c in s {
      var i :| 0 <= i < |s| && s[i] == c;
      assert OccursAt(s, [c], i);
    }
    var r := Find(s, [c]);
    if r >= 0 {
      assert s[r..r + 1] == [c];
      assert s[r] == c;
    }
  }

  /** No character before the first occurrence of `c` is `c`; no occurrence means `c` is absent. */
  lemma FindCharBefore(s: string, c: char)
    ensures forall j :: 0 <= j < Find(s, [c]) ==> s[j] != c
    ensures Find(s, [c]) < 0 ==> c !in s
  {
    ContainsChar(s, c);
    forall j | 0 <= j < Find(s, [c])
      ensures s[j] != c
    {
      assert !OccursAt(s, [c], j);
      assert s[j..j + 1] == [s[j]];
    }
  }

  /**
   * `a, b = s.split(sep, maxsplit=1)`: `None` where Python raises because
   * the unpacking finds only one piece.
   */
  function SplitFirst(s: string, sep: string): (r: Option<(string, string)>)
    ensures r.None? <==> !Contains(s, sep)
    ensures r.Some? ==> s == r.value.0 + sep + r.value.1 && Find(s, sep) == |r.value.0|
  {
    var k := Find(s, sep);
    if k < 0 then None
    else
      assert s == s[..k] + s[k..k + |sep|] + s[k + |sep|..];
      Some((s[..k], s[k + |sep|..]))
  }

  /** Splitting at a separator whose first occurrence is known gives back the two sides. */
  lemma SplitFirstIntro(a: string, sep: string, b: string)
    requires Find(a + sep, sep) == |a|
    ensures SplitFirst(a + sep + b, sep) == Some((a, b))
  {
    var s := a + sep + b;
    assert OccursAt(s, sep, |a|) by { assert s[|a|..|a| + |sep|] == sep; }
    forall j | 0 <= j < |a|
      ensures !OccursAt(s, sep, j)
    {
      assert !OccursAt(a + sep, sep, j);
      assert s[j..j + |sep|] == (a + sep)[j..j + |sep|];
    }
    var k := Find(s, sep);
    assert k == |a|;
    assert s[..k] == a && s[k + |sep|..] == b;
  }

  /** `s.split(sep)` for a non-empty separator. */
  function Split(s: string, sep: string): (parts: seq<string>)
    requires |sep| > 0
    ensures |parts| >= 1
    decreases |s|
  {
    var k := Find(s, sep);
    if k < 0 then [s] else [s[..k]] + Split(s[k + |sep|..], sep)
  }

  /** `s.split(sep)[-1]`: the text after the last `sep`, or all of `s`. */
  function AfterLast(s: string, sep: char): string
    decreases |s|
  {
    var k := Find(s, [sep]);
    if k < 0 then s else AfterLast(s[k + 1..], sep)
  }

  /** `s.split(".")[-1]`: the last dot-label of a name. */
  function LastLabel(s: string): string
  {
    AfterLast(s, '.')
  }

  /**
   * `AfterLast`, by positions: the last |t| characters of `s`, none of them
   * `sep`, preceded by `sep` unless they are all of `s`.
   */
  lemma {:induction false} AfterLastSuffix(s: string, sep: char)
    ensures |AfterLast(s, sep)| <= |s|
    ensures AfterLast(s, sep) == s[|s| - |AfterLast(s, sep)|..]
    ensures forall j :: |s| - |AfterLast(s, sep)| <= j < |s| ==> s[j] != sep
    ensures |AfterLast(s, sep)| < |s| ==> s[|s| - |AfterLast(s, sep)| - 1] == sep
    decreases |s|
  {
    var k := Find(s, [sep]);
    ContainsChar(s, sep);
    if k >= 0 {
      var tail := s[k + 1..];
      AfterLastSuffix(tail, sep);
      var t := AfterLast(tail, sep);
      assert AfterLast(s, sep) == t;
      assert forall j :: k + 1 <= j < |s| ==> s[j] == tail[j - k - 1];
      assert s[|s| - |t|..] == tail[|tail| - |t|..];
      assert AfterLast(s, sep) == s[|s| - |AfterLast(s, sep)|..];
    } else {
      assert AfterLast(s, sep) == s;
      assert s[0..] == s;
      assert AfterLast(s, sep) == s[|s| - |AfterLast(s, sep)|..];
    }
  }

  /**
   * What `AfterLast` is: a suffix of `s` free of `sep`, preceded by `sep`
   * exactly when `s` contains one.
   */
  lemma AfterLastShape(s: string, sep: char)
    ensures EndsWith(s, AfterLast(s, sep))
    ensures sep !in AfterLast(s, sep)
    ensures sep !in s ==> AfterLast(s, sep) == s
    ensures sep in s ==> |AfterLast(s, sep)| < |s| && s[|s| - |AfterLast(s, sep)| - 1] == sep
  {
    var t := AfterLast(s, sep);
    AfterLastSuffix(s, sep);
    assert forall i :: 0 <= i < |t| ==> t[i] == s[|s| - |t| + i];
    if |t| == |s| {
      assert t == s;
    } else {
      assert sep in s;
    }
  }

  /** The first occurrence of a character comes right after a prefix free of it. */
  lemma FindCharAt(a: string, c: char, b: string)
    requires c !in a
    ensures Find(a + [c] + b, [c]) == |a|
  {
    var s := a + [c] + b;
    assert OccursAt(s, [c], |a|) by { assert s[|a|..|a| + 1] == [c]; }
    forall j | 0 <= j < |a|
      ensures !OccursAt(s, [c], j)
    {
      assert s[j..j + 1] == [a[j]];
    }
  }

  /** `FindCharAt` with nothing after the character. */
  lemma FindCharLast(a: string, c: char)
    requires c !in a
    ensures Find(a + [c], [c]) == |a|
  {
    FindCharAt(a, c, []);
    assert a + [c] + [] == a + [c];
  }

  /** A two-character pattern occurs exactly where its characters stand side by side. */
  lemma ContainsPair(s: string, x: char, y: char)
    ensures Contains(s, [x, y]) <==> exists i :: 0 <= i < |s| - 1 && s[i] == x && s[i + 1] == y
  {
    var r := Find(s, [x, y]);
    if r >= 0 {
      assert s[r..r + 2] == [x, y];
      assert s[r] == x && s[r + 1] == y;
    }
    if exists i :: 0 <= i < |s| - 1 && s[i] == x && s[i + 1] == y {
      var i :| 0 <= i < |s| - 1 && s[i] == x && s[i + 1] == y;
      assert s[i..i + 2] == [x, y];
      assert OccursAt(s, [x, y], i);
    }
  }

  /** After the last separator comes exactly the separator-free tail. */
  lemma AfterLastOf(a: string, sep: char, b: string)
    requires sep !in b
    ensures AfterLast(a + [sep] + b, sep) == b
  {
    var s := a + [sep] + b;
    var t := AfterLast(s, sep);
    assert s[|a|] == sep;
    AfterLastShape(s, sep);
    assert t == s[|s| - |t|..];
    assert forall k :: |s| - |t| <= k < |s| ==> s[k] != sep;
    assert forall k :: |a| < k < |s| ==> s[k] == b[k - |a| - 1];
    assert s[|s| - |b|..] == b;
  }

  /** ASCII lowercasing of one character. */
  function LowerChar(c: char): char
  {
    if 'A' <= c <= 'Z' then (c as int + 32) as char else c
  }

  /**
   * `s.lower()`, as ASCII lowercasing: on Latin-1 text no other character
   * lowers to an ASCII one and none changes the length.
   */
  function Lower(s: string): string
  {
    seq(|s|, i requires 0 <= i < |s| => LowerChar(s[i]))
  }

  /** `s.isdigit()` on a string over `[a-z0-9]`: non-empty and all decimal digits. */
  predicate IsDigits(s: string)
  {
    |s| > 0 && forall i :: 0 <= i < |s| ==> '0' <= s[i] <= '9'
  }

  predicate IsAsciiLetter(c: char)
  {
    'A' <= c <= 'Z' || 'a' <= c <= 'z'
  }

  /** Lowercasing commutes with slicing. */
  lemma LowerSlice(s: string, i: nat, j: nat)
    requires i <= j <= |s|
    ensures Lower(s)[i..j] == Lower(s[i..j])
    ensures Lower(s)[i..] == Lower(s[i..])
    ensures Lower(s)[..j] == Lower(s[..j])
  {
  }

  /** Lowercasing twice is lowercasing once. */
  lemma LowerIdempotent(s: string)
    ensures Lower(Lower(s)) == Lower(s)
  {
  }

  /** Lowercasing moves no character that is not a letter. */
  lemma {:induction false} FindLower(s: string, c: char)
    requires !IsAsciiLetter(c)
    ensures Find(Lower(s), [c]) == Find(s, [c])
    ensures c in Lower(s) <==> c in s
    decreases |s|
  {
    if |s| >= 1 {
      LowerSlice(s, 1, |s|);
      assert Lower(s)[1..] == Lower(s[1..]);
      assert Lower(s)[..1] == [LowerChar(s[0])];
      assert s[..1] == [s[0]];
      FindLower(s[1..], c);
      assert s == [s[0]] + s[1..];
      assert Lower(s) == [LowerChar(s[0])] + Lower(s[1..]);
    }
  }

  /** Lowercasing does not change whether a string starts with a pattern free of letters. */
  lemma StartsWithLower(s: string, p: string)
    requires forall i :: 0 <= i < |p| ==> !IsAsciiLetter(p[i])
    ensures StartsWith(Lower(s), p) <==> StartsWith(s, p)
  {
    if |p| <= |s| {
      LowerSlice(s, 0, |p|);
      if StartsWith(Lower(s), p) {
        forall i | 0 <= i < |p|
          ensures s[i] == p[i]
        {
          assert Lower(s)[i] == LowerChar(s[i]) == p[i];
        }
      }
    }
  }
}

/** `str.join`, and how `str.split` and its last part relate to it. */
module PyJoin {
  import opened PyStr

  /** `sep.join(parts)`. */
  function JoinWith(parts: seq<string>, sep: string): string
    requires |parts| >= 1
  {
    if |parts| == 1 then parts[0] else parts[0] + sep + JoinWith(parts[1..], sep)
  }

  /** A text before the first occurrence of `pat` does not contain it. */
  lemma FindPrefixFree(s: string, pat: string)
    requires |pat| > 0 && Find(s, pat) >= 0
    ensures !Contains(s[..Find(s, pat)], pat)
  {
    var k := Find(s, pat);
    var t := s[..k];
    forall j | 0 <= j <= |t|
      ensures !OccursAt(t, pat, j)
    {
      if OccursAt(t, pat, j) {
        assert t[j..j + |pat|] == s[j..j + |pat|];
        assert OccursAt(s, pat, j);
      }
    }
  }

  /** The parts of `s.split(sep)`, joined with `sep`, give back `s`, and no part contains `sep`. */
  lemma {:induction false} SplitJoinsBack(s: string, sep: string)
    requires |sep| > 0
    ensures JoinWith(Split(s, sep), sep) == s
    ensures forall i :: 0 <= i < |Split(s, sep)| ==> !Contains(Split(s, sep)[i], sep)
    decreases |s|
  {
    var k := Find(s, sep);
    if k >= 0 {
      FindPrefixFree(s, sep);
      var rest := Split(s[k + |sep|..], sep);
      SplitJoinsBack(s[k + |sep|..], sep);
      assert s == s[..k] + sep + s[k + |sep|..];
      assert Split(s, sep)[1..] == rest;
    }
  }

  /** `AfterLast` is the last part `s.split(sep)` yields, as `[-1]` takes it. */
  lemma {:induction false} AfterLastIsLastPart(s: string, sep: char)
    ensures AfterLast(s, sep) == Split(s, [sep])[|Split(s, [sep])| - 1]
    decreases |s|
  {
    var k := Find(s, [sep]);
    if k >= 0 {
      AfterLastIsLastPart(s[k + 1..], sep);
      var rest := Split(s[k + 1..], [sep]);
      assert Split(s, [sep]) == [s[..k]] + rest;
    }
  }
}
