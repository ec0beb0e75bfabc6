/**
 * The JavaScript string operations the server relies on, over `string == seq<char>`:
 * `String.prototype.replace` with a string pattern (first occurrence only), `includes`,
 * `startsWith`, `Array.prototype.join`, `String.prototype.trim` and `split` on one character.
 */
module Strings {
  import opened Wrappers

  /** `pat` occurs in `s` starting at index `i`. */
  predicate OccursAt(s: string, pat: string, i: nat)
  {
    i + |pat| <= |s| && s[i..i + |pat|] == pat
  }

  /** `i` is the first index at which `pat` occurs in `s`. */
  predicate FirstOccurrence(s: string, pat: string, i: nat)
  {
    OccursAt(s, pat, i) && forall j: nat :: j < i ==> !OccursAt(s, pat, j)
  }

  predicate StartsWith(s: string, prefix: string)
  {
    OccursAt(s, prefix, 0)
  }

  /** Substring containment, as `s.includes(pat)` or SQL `LIKE '%pat%'` without wildcards. */
  predicate Contains(s: string, pat: string)
  {
    exists i: nat :: i <= |s| && OccursAt(s, pat, i)
  }

  function IndexFrom(s: string, pat: string, i: nat): (r: Option<nat>)
    requires i <= |s| + 1
    requires forall j: nat :: j < i ==> !OccursAt(s, pat, j)
    ensures r.Some? ==> FirstOccurrence(s, pat, r.value)
    ensures r.None? ==> forall j: nat :: !OccursAt(s, pat, j)
    decreases |s| + 1 - i
  {
    if i > |s| then None
    else if OccursAt(s, pat, i) then Some(i)
    else IndexFrom(s, pat, i + 1)
  }

  /** `s.indexOf(pat)`: the first occurrence of `pat` in `s`, if any. */
  function IndexOf(s: string, pat: string): (r: Option<nat>)
    ensures r.Some? ==> FirstOccurrence(s, pat, r.value)
    ensures r.None? ==> forall j: nat :: !OccursAt(s, pat, j)
  {
    IndexFrom(s, pat, 0)
  }

  /** `s.replace(pat, rep)` with a string pattern: only the first occurrence is replaced. */
  function ReplaceFirst(s: string, pat: string, rep: string): (r: string)
    ensures (forall j: nat :: !OccursAt(s, pat, j)) ==> r == s
    ensures forall i: nat :: FirstOccurrence(s, pat, i) ==> r == s[..i] + rep + s[i + |pat|..]
  {
    match IndexOf(s, pat)
    case None => s
    case Some(i) => s[..i] + rep + s[i + |pat|..]
  }

  /** A prefix is found at index 0, so replacing it leaves exactly the rest. */
  lemma {:induction false} ReplaceLeadingPrefix(pat: string, rest: string)
    ensures ReplaceFirst(pat + rest, pat, []) == rest
  {
    var s := pat + rest;
    assert s[0..|pat|] == pat;
    assert FirstOccurrence(s, pat, 0);
    assert s[|pat|..] == rest;
  }

  /** `parts.join(sep)`. */
  function Join(parts: seq<string>, sep: string): string
  {
    if |parts| == 0 then []
    else if |parts| == 1 then parts[0]
    else Join(parts[..|parts| - 1], sep) + sep + parts[|parts| - 1]
  }

  /** The characters `String.prototype.trim` removes: ECMAScript WhiteSpace and LineTerminator. */
  predicate IsSpace(c: char)
  {
    c == '\t' || c == '\n' || c == '\U{000B}' || c == '\U{000C}' || c == '\r' || c == ' '
    || c == '\U{00A0}' || c == '\U{1680}' || ('\U{2000}' <= c <= '\U{200A}')
    || c == '\U{2028}' || c == '\U{2029}' || c == '\U{202F}' || c == '\U{205F}'
    || c == '\U{3000}' || c == '\U{FEFF}'
  }

  /** No white space at either end. */
  predicate IsTrimmed(s: string)
  {
    s == [] || (!IsSpace(s[0]) && !IsSpace(s[|s| - 1]))
  }

  /** `s` without its leading white space. */
  function TrimStart(s: string): string
  {
    if |s| > 0 && IsSpace(s[0]) then TrimStart(s[1..]) else s
  }

  /** `s` without its trailing white space. */
  function TrimEnd(s: string): string
  {
    if |s| > 0 && IsSpace(s[|s| - 1]) then TrimEnd(s[..|s| - 1]) else s
  }

  /** `TrimStart` keeps a suffix of `s` that does not start with white space, and drops only white space. */
  lemma {:induction false} TrimStartFacts(s: string)
    ensures |TrimStart(s)| <= |s| && TrimStart(s) == s[|s| - |TrimStart(s)|..]
    ensures TrimStart(s) == [] || !IsSpace(TrimStart(s)[0])
    ensures forall i :: 0 <= i < |s| - |TrimStart(s)| ==> IsSpace(s[i])
  {
    if |s| > 0 && IsSpace(s[0]) {
      var t := s[1..];
      TrimStartFacts(t);
      assert TrimStart(s) == TrimStart(t);
      forall i | 0 <= i < |s| - |TrimStart(s)|
        ensures IsSpace(s[i])
      {
        if i > 0 {
          assert s[i] == t[i - 1];
        }
      }
    }
  }

  /** `TrimEnd` keeps a prefix of `s` that does not end with white space, and drops only white space. */
  lemma {:induction false} TrimEndFacts(s: string)
    ensures |TrimEnd(s)| <= |s| && TrimEnd(s) == s[..|TrimEnd(s)|]
    ensures TrimEnd(s) == [] || !IsSpace(TrimEnd(s)[|TrimEnd(s)| - 1])
    ensures forall i :: |TrimEnd(s)| <= i < |s| ==> IsSpace(s[i])
  {
    if |s| > 0 && IsSpace(s[|s| - 1]) {
      var t := s[..|s| - 1];
      TrimEndFacts(t);
      assert TrimEnd(s) == TrimEnd(t);
    }
  }

  /** `s.trim()`: `s` with the white space at both ends removed. */
  function Trim(s: string): string
  {
    TrimEnd(TrimStart(s))
  }

  /** A trimmed string has no white space at either end, keeps only characters of `s`, and trimming is idempotent. */
  lemma TrimFacts(s: string)
    ensures IsTrimmed(Trim(s))
    ensures forall c :: c in Trim(s) ==> c in s
    ensures IsTrimmed(s) ==> Trim(s) == s
  {
    var a := TrimStart(s);
    TrimStartFacts(s);
    TrimEndFacts(a);
    var r := TrimEnd(a);
    assert forall c :: c in a ==> c in s;
    assert forall c :: c in r ==> c in a;
  }

  /**
   * `Trim(s)` is the slice of `s` between some white space at the front and some at the back: it
   * drops white space and nothing else.
   */
  lemma TrimDropsOnlySpace(s: string)
    ensures |TrimStart(s)| <= |s|
    ensures var k := |s| - |TrimStart(s)|;
      && k + |Trim(s)| <= |s|
      && Trim(s) == s[k..k + |Trim(s)|]
      && (forall i :: 0 <= i < k ==> IsSpace(s[i]))
      && (forall i :: k + |Trim(s)| <= i < |s| ==> IsSpace(s[i]))
  {
    var a := TrimStart(s);
    var r := TrimEnd(a);
    var k := |s| - |a|;
    assert Trim(s) == r;
    assert |a| <= |s| && a == s[k..] && forall i :: 0 <= i < k ==> IsSpace(s[i]) by {
      TrimStartFacts(s);
    }
    assert |r| <= |a| && r == a[..|r|] && forall i :: |r| <= i < |a| ==> IsSpace(a[i]) by {
      TrimEndFacts(a);
    }
    assert r == s[k..k + |r|] by {
      assert s[k..][..|r|] == s[k..k + |r|];
    }
    forall i | k + |r| <= i < |s|
      ensures IsSpace(s[i])
    {
      assert s[i] == a[i - k];
    }
  }

  /** `s.split(c)` for a one-character separator. */
  function Split(s: string, c: char): (r: seq<string>)
    ensures |r| >= 1
    ensures forall k :: 0 <= k < |r| ==> c !in r[k]
  {
    if s == [] then [[]]
    else
      var rest := Split(s[..|s| - 1], c);
      var last := s[|s| - 1];
      if last == c then rest + [[]]
      else rest[..|rest| - 1] + [rest[|rest| - 1] + [last]]
  }

  /** Joining the parts of a split with the separator gives back the string. */
  lemma {:induction false} JoinSplit(s: string, c: char)
    ensures Join(Split(s, c), [c]) == s
    decreases |s|
  {
    if s != [] {
      var s', x := s[..|s| - 1], s[|s| - 1];
      var rest := Split(s', c);
      assert s' + [x] == s;
      JoinSplit(s', c);
      if x == c {
        assert Split(s, c) == rest + [[]];
        JoinSnoc(rest, [], [c]);
      } else {
        SplitExtendsLast(s, c);
        JoinSnocLast(rest, [c], x);
      }
    }
  }

  /** Appending to the last part appends to the join. */
  lemma {:induction false} JoinSnocLast(parts: seq<string>, sep: string, x: char)
    requires |parts| >= 1
    ensures Join(parts[..|parts| - 1] + [parts[|parts| - 1] + [x]], sep) == Join(parts, sep) + [x]
  {
    var n := |parts|;
    var q := parts[..n - 1] + [parts[n - 1] + [x]];
    assert q[..n - 1] == parts[..n - 1];
    if n == 1 {
    } else {
      assert Join(q, sep) == Join(parts[..n - 1], sep) + sep + (parts[n - 1] + [x]);
    }
  }

  /** The parts of a join on a separator that no part contains are recovered by splitting. */
  lemma {:induction false} SplitJoin(parts: seq<string>, c: char)
    requires |parts| >= 1
    requires forall k :: 0 <= k < |parts| ==> c !in parts[k]
    ensures Split(Join(parts, [c]), c) == parts
  {
    var n := |parts|;
    var last := parts[n - 1];
    if n == 1 {
      SplitPlain(last, c);
    } else {
      var init := parts[..n - 1];
      var j := Join(init, [c]);
      assert init + [last] == parts;
      assert Join(parts, [c]) == j + [c] + last by {
        JoinSnoc(init, last, [c]);
      }
      assert Split(j, c) == init by {
        SplitJoin(init, c);
      }
      assert Split(j + [c] + last, c) == Split(j, c) + [last] by {
        SplitAfterSeparator(j, last, c);
      }
    }
  }

  /** Joining one more part adds the separator and the part. */
  lemma JoinSnoc(init: seq<string>, last: string, sep: string)
    requires |init| >= 1
    ensures Join(init + [last], sep) == Join(init, sep) + sep + last
  {
    assert (init + [last])[..|init|] == init;
  }

  /** Splitting a string that does not contain the separator yields the string itself. */
  lemma {:induction false} SplitPlain(s: string, c: char)
    requires c !in s
    ensures Split(s, c) == [s]
    decreases |s|
  {
    if s != [] {
      SplitPlain(s[..|s| - 1], c);
      assert s[..|s| - 1] + [s[|s| - 1]] == s;
    }
  }

  /** Splitting `p + [c] + t` with `c` not in `t` adds `t` as one more part. */
  lemma {:induction false} SplitAfterSeparator(p: string, t: string, c: char)
    requires c !in t
    ensures Split(p + [c] + t, c) == Split(p, c) + [t]
    decreases |t|
  {
    var s := p + [c] + t;
    if t == [] {
      assert s[..|s| - 1] == p;
    } else {
      var t', x := t[..|t| - 1], t[|t| - 1];
      assert x != c;
      assert s[..|s| - 1] == p + [c] + t' && s[|s| - 1] == x;
      SplitAfterSeparator(p, t', c);
      SplitExtendsLast(s, c);
      assert t' + [x] == t;
      ReplaceLast(Split(p, c), t', t);
    }
  }

  /** A last character other than the separator extends the last part. */
  lemma SplitExtendsLast(s: string, c: char)
    requires s != [] && s[|s| - 1] != c
    ensures var rest := Split(s[..|s| - 1], c);
      Split(s, c) == rest[..|rest| - 1] + [rest[|rest| - 1] + [s[|s| - 1]]]
  {
  }

  /** Replacing the last element of `a + [x]` by `y` gives `a + [y]`. */
  lemma ReplaceLast<T>(a: seq<T>, x: T, y: T)
    ensures (a + [x])[..|a|] + [y] == a + [y]
  {
    assert (a + [x])[..|a|] == a;
  }
}
