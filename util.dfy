/**
  The string and list helpers of the utility module: `safe_first`,
  `safe_strip`, `split_reference`, and the Python `str` operations they
  rely on (`split`, `strip`, `replace(x, "")`, `startswith`).
*/
module Util {
  import opened Wrappers

  // ---------------------------------------------------------------------
  // Lists
  // ---------------------------------------------------------------------

  /** `[e for e in s if p(e)]`: an order-preserving filter. */
  function Filter<T>(s: seq<T>, p: T -> bool): (r: seq<T>)
    ensures |r| <= |s|
  {
    if s == [] then []
    else if p(s[0]) then [s[0]] + Filter(s[1..], p)
    else Filter(s[1..], p)
  }

  /**
    The filter keeps exactly the elements satisfying `p`: it is empty
    only when none does, and it starts with the first one that does.
  */
  lemma {:induction false} FilterFacts<T>(s: seq<T>, p: T -> bool)
    ensures var r := Filter(s, p);
            (forall x :: x in r ==> x in s && p(x)) &&
            (forall i :: 0 <= i < |s| && p(s[i]) ==> s[i] in r) &&
            (r == [] <==> forall i :: 0 <= i < |s| ==> !p(s[i])) &&
            (r != [] ==> exists k :: 0 <= k < |s| && r[0] == s[k] && p(s[k]) && forall j :: 0 <= j < k ==> !p(s[j]))
    decreases |s|
  {
    if s != [] {
      FilterFacts(s[1..], p);
      var rest := Filter(s[1..], p);
      assert forall i :: 1 <= i < |s| ==> s[i] == s[1..][i - 1];
      if !p(s[0]) && rest != [] {
        var k' :| 0 <= k' < |s| - 1 && rest[0] == s[1..][k'] && p(s[1..][k']) &&
                  forall j :: 0 <= j < k' ==> !p(s[1..][j]);
        assert rest[0] == s[k' + 1];
        assert forall j :: 1 <= j < k' + 1 ==> !p(s[j]) by {
          forall j | 1 <= j < k' + 1 ensures !p(s[j]) { assert s[j] == s[1..][j - 1]; }
        }
      }
    }
  }

  /** Filtering distributes over concatenation. */
  lemma {:induction false} FilterAppend<T>(a: seq<T>, b: seq<T>, p: T -> bool)
    ensures Filter(a + b, p) == Filter(a, p) + Filter(b, p)
  {
    if a == [] {
      assert a + b == b;
    } else {
      assert (a + b)[1..] == a[1..] + b;
      FilterAppend(a[1..], b, p);
    }
  }

  /** Filtering a one-element list. */
  lemma FilterSingle<T>(x: T, p: T -> bool)
    ensures Filter([x], p) == if p(x) then [x] else []
  {
    assert [x][1..] == [];
  }

  /** `safe_first`: None for a None or empty list, the head otherwise. */
  function SafeFirst<T>(lis: Option<seq<T>>): (r: Option<T>)
    ensures r.None? <==> lis.None? || lis.value == []
    ensures r.Some? ==> r.value == lis.value[0]
  {
    if lis.None? || |lis.value| < 1 then None else Some(lis.value[0])
  }

  /** `r` is the first element of `s` satisfying `p`, or None if there is none. */
  ghost predicate IsFirstMatch<T>(s: seq<T>, p: T -> bool, r: Option<T>)
  {
    match r
    case None => forall i :: 0 <= i < |s| ==> !p(s[i])
    case Some(x) => exists k :: 0 <= k < |s| && s[k] == x && p(x) &&
                                forall j :: 0 <= j < k ==> !p(s[j])
  }

  /** `safe_first` of a filtered list: the first element satisfying `p`, if any. */
  function FirstMatch<T>(s: seq<T>, p: T -> bool): (r: Option<T>)
    ensures r.Some? ==> r.value in s && p(r.value)
  {
    FilterFacts(s, p);
    SafeFirst(Some(Filter(s, p)))
  }

  /** The first match is found exactly when some element satisfies `p`, and no earlier element does. */
  lemma FirstMatchFacts<T>(s: seq<T>, p: T -> bool)
    ensures IsFirstMatch(s, p, FirstMatch(s, p))
  {
    FilterFacts(s, p);
  }

  /** The comprehension-then-`safe_first` idiom of the source is a first-match search. */
  lemma FirstOfFilter<T>(s: seq<T>, p: T -> bool)
    ensures IsFirstMatch(s, p, SafeFirst(Some(Filter(s, p))))
  {
    FilterFacts(s, p);
  }

  /** Appending to a list keeps an earlier first match; otherwise the new element is found if it matches. */
  lemma FirstMatchAppend<T>(s: seq<T>, x: T, p: T -> bool)
    ensures FirstMatch(s + [x], p) == if FirstMatch(s, p).Some? then FirstMatch(s, p)
                                      else if p(x) then Some(x) else None
  {
    FilterAppend(s, [x], p);
    assert [x][1..] == [];
  }

  /**
    The last element of `s` satisfying `p`, or None: what a loop that
    overwrites a field at every match leaves behind.
  */
  function LastMatch<T>(s: seq<T>, p: T -> bool): (r: Option<T>)
    ensures r.None? <==> forall i :: 0 <= i < |s| ==> !p(s[i])
    ensures r.Some? ==> exists k :: 0 <= k < |s| && s[k] == r.value && p(s[k]) &&
                                    forall j :: k < j < |s| ==> !p(s[j])
    decreases |s|
  {
    if s == [] then None
    else if p(s[|s| - 1]) then Some(s[|s| - 1])
    else
      var init := s[..|s| - 1];
      var r := LastMatch(init, p);
      assert r.Some? ==> exists k :: 0 <= k < |s| && s[k] == r.value && p(s[k]) &&
                                     forall j :: k < j < |s| ==> !p(s[j]) by {
        if r.Some? {
          var k :| 0 <= k < |init| && init[k] == r.value && p(init[k]) &&
                   forall j :: k < j < |init| ==> !p(init[j]);
          assert forall j :: k < j < |s| ==> !p(s[j]) by {
            forall j | k < j < |s| ensures !p(s[j]) {
              if j < |init| { assert s[j] == init[j]; }
            }
          }
        }
      }
      r
  }

  /** `a` is `b` with some elements left out, the rest kept in order. */
  ghost predicate IsSubsequence<T>(a: seq<T>, b: seq<T>)
    decreases |b|
  {
    if b == [] then a == []
    else (a != [] && a[0] == b[0] && IsSubsequence(a[1..], b[1..])) || IsSubsequence(a, b[1..])
  }

  /**
    The filter keeps the passing elements in their order and each as often
    as it occurs: a subsequence of `s` with the full count of every passing
    element and none of any other.
  */
  lemma {:induction false} FilterOrder<T>(s: seq<T>, p: T -> bool)
    ensures IsSubsequence(Filter(s, p), s)
    ensures forall x :: multiset(Filter(s, p))[x] == if p(x) then multiset(s)[x] else 0
    decreases |s|
  {
    if s != [] {
      FilterOrder(s[1..], p);
      assert s == [s[0]] + s[1..];
      assert multiset(s) == multiset{s[0]} + multiset(s[1..]);
      if p(s[0]) {
        assert Filter(s, p)[1..] == Filter(s[1..], p);
      }
    }
  }

  /** No element occurs twice. */
  predicate NoDuplicates<T(==)>(s: seq<T>)
  {
    forall i, j :: 0 <= i < j < |s| ==> s[i] != s[j]
  }

  /** Position of the first occurrence of `x` in `s`, or -1 (`list.index` made total). */
  function IndexOf<T(==)>(s: seq<T>, x: T): (r: int)
    ensures -1 <= r < |s|
    ensures r == -1 <==> x !in s
    ensures r >= 0 ==> s[r] == x && x !in s[..r]
  {
    if s == [] then -1
    else if s[0] == x then 0
    else
      var k := IndexOf(s[1..], x);
      assert s[1..][..(if k < 0 then 0 else k)] == s[1..1 + (if k < 0 then 0 else k)];
      if k == -1 then -1 else k + 1
  }

  /**
    The keys of an insertion-ordered dictionary after `d[x] = True` for
    each `x` of `xs` in turn, starting from the keys `keys`: a key already
    present keeps its place, a new one goes at the end.
  */
  function InsertAll<T(==)>(keys: seq<T>, xs: seq<T>): seq<T>
    decreases |xs|
  {
    if xs == [] then keys
    else
      var d := InsertAll(keys, xs[..|xs| - 1]);
      if xs[|xs| - 1] in d then d else d + [xs[|xs| - 1]]
  }

  /** Inserting `a + b` is inserting `a`, then `b`. */
  lemma {:induction false} InsertAllAppend<T>(keys: seq<T>, a: seq<T>, b: seq<T>)
    ensures InsertAll(keys, a + b) == InsertAll(InsertAll(keys, a), b)
    decreases |b|
  {
    if b == [] {
      assert a + b == a;
    } else {
      assert (a + b)[..|a + b| - 1] == a + b[..|b| - 1];
      assert (a + b)[|a + b| - 1] == b[|b| - 1];
      InsertAllAppend(keys, a, b[..|b| - 1]);
    }
  }

  /**
    The inserted keys: the old keys stay in front, the keys are exactly
    the old ones and the inserted ones, and none occurs twice.
  */
  lemma {:induction false} InsertAllFacts<T>(keys: seq<T>, xs: seq<T>)
    ensures |keys| <= |InsertAll(keys, xs)| && InsertAll(keys, xs)[..|keys|] == keys
    ensures forall x :: x in InsertAll(keys, xs) <==> x in keys || x in xs
    ensures NoDuplicates(keys) ==> NoDuplicates(InsertAll(keys, xs))
    decreases |xs|
  {
    if xs != [] {
      var init := xs[..|xs| - 1];
      InsertAllFacts(keys, init);
      assert xs == init + [xs[|xs| - 1]];
    }
  }

  /** Starting from no keys, `x` is inserted exactly when it occurs in `xs`. */
  lemma DistinctMember<T>(xs: seq<T>, x: T)
    ensures x in InsertAll([], xs) <==> x in xs
  {
    InsertAllFacts([], xs);
  }

  /**
    Starting from no keys, the keys come out in the order in which each
    was first seen in `xs`.
  */
  lemma {:induction false} InsertAllFirstSeen<T>(xs: seq<T>)
    ensures FirstSeenOrder(xs, InsertAll([], xs))
    decreases |xs|
  {
    if xs != [] {
      var init := xs[..|xs| - 1];
      assert xs == init + [xs[|xs| - 1]];
      InsertAllFirstSeen(init);
      FirstSeenSnoc(init, xs[|xs| - 1]);
    } else {
      assert InsertAll([], xs) == [];
    }
  }

  /** The keys `r` appear in the order of their first occurrence in `xs`. */
  ghost predicate FirstSeenOrder<T>(xs: seq<T>, r: seq<T>)
  {
    forall i, j :: 0 <= i < j < |r| ==> 0 <= IndexOf(xs, r[i]) < IndexOf(xs, r[j])
  }

  /** One step of the first-seen order: a new key goes after every key seen before it. */
  lemma FirstSeenSnoc<T>(init: seq<T>, x: T)
    requires FirstSeenOrder(init, InsertAll([], init))
    ensures FirstSeenOrder(init + [x], InsertAll([], init + [x]))
  {
    var xs := init + [x];
    assert xs[..|xs| - 1] == init;
    InsertAllFacts([], init);
    var d := InsertAll([], init);
    assert InsertAll([], xs) == if x in d then d else d + [x];
    FirstSeenExtend(init, x, d);
  }

  /** The first-seen order kept by a list of keys seen in `init` when `x` is seen next. */
  lemma FirstSeenExtend<T>(init: seq<T>, x: T, d: seq<T>)
    requires FirstSeenOrder(init, d)
    requires forall y :: y in d <==> y in init
    ensures FirstSeenOrder(init + [x], if x in d then d else d + [x])
  {
    var xs := init + [x];
    forall k | 0 <= k < |d|
      ensures 0 <= IndexOf(xs, d[k]) == IndexOf(init, d[k]) < |init|
    {
      assert d[k] in init;
      IndexOfPrefix(init, [x], d[k]);
    }
    if x !in d {
      var r := d + [x];
      assert IndexOf(xs, x) == |init| by {
        assert xs[|init|] == x && xs[..|init|] == init;
      }
      forall i, j | 0 <= i < j < |r|
        ensures 0 <= IndexOf(xs, r[i]) < IndexOf(xs, r[j])
      {
        assert r[i] == d[i];
        if j < |d| {
          assert r[j] == d[j];
        }
      }
    }
  }

  /** An element of `s` is found at the same place in `s + t`. */
  lemma {:induction false} IndexOfPrefix<T>(s: seq<T>, t: seq<T>, y: T)
    ensures y in s ==> IndexOf(s + t, y) == IndexOf(s, y)
  {
    if y in s {
      var k := IndexOf(s, y);
      assert (s + t)[k] == y;
      assert (s + t)[..k] == s[..k];
    }
  }

  /** Position of the first element satisfying `p`, or -1 (the counter loops of the source). */
  function IndexWhere<T>(s: seq<T>, p: T -> bool): (r: int)
    ensures -1 <= r < |s|
    ensures r == -1 <==> forall i :: 0 <= i < |s| ==> !p(s[i])
    ensures r >= 0 ==> p(s[r]) && forall j :: 0 <= j < r ==> !p(s[j])
  {
    if s == [] then -1
    else if p(s[0]) then 0
    else
      var k := IndexWhere(s[1..], p);
      if k == -1 then -1 else k + 1
  }

  // ---------------------------------------------------------------------
  // Characters and strings
  // ---------------------------------------------------------------------

  /** Python 3 `str.isspace` for the characters it treats as whitespace. */
  predicate IsSpace(c: char)
  {
    ('\U{9}' <= c <= '\U{D}') || ('\U{1C}' <= c <= '\U{20}') ||
    c == '\U{85}' || c == '\U{A0}' || c == '\U{1680}' ||
    ('\U{2000}' <= c <= '\U{200A}') || c == '\U{2028}' || c == '\U{2029}' ||
    c == '\U{202F}' || c == '\U{205F}' || c == '\U{3000}'
  }

  /** Number of leading whitespace characters of `s`. */
  function LeadingSpace(s: string): (k: nat)
    ensures k <= |s|
    ensures forall j :: 0 <= j < k ==> IsSpace(s[j])
    ensures k < |s| ==> !IsSpace(s[k])
  {
    if s == [] || !IsSpace(s[0]) then 0 else LeadingSpace(s[1..]) + 1
  }

  /** Length of `s` without its trailing whitespace. */
  function TrailingStart(s: string): (k: nat)
    ensures k <= |s|
    ensures forall j :: k <= j < |s| ==> IsSpace(s[j])
    ensures 0 < k ==> !IsSpace(s[k - 1])
  {
    if s == [] || !IsSpace(s[|s| - 1]) then |s| else TrailingStart(s[..|s| - 1])
  }

  /** `s.strip()`: a slice of `s` with no whitespace at either end, and only whitespace cut off. */
  function Strip(s: string): (r: string)
    ensures r == [] || (!IsSpace(r[0]) && !IsSpace(r[|r| - 1]))
    ensures exists i, j :: 0 <= i <= j <= |s| && r == s[i..j] &&
                           (forall k :: 0 <= k < i ==> IsSpace(s[k])) &&
                           (forall k :: j <= k < |s| ==> IsSpace(s[k]))
  {
    var i := LeadingSpace(s);
    var l := s[i..];
    var n := TrailingStart(l);
    var r := l[..n];
    assert r == s[i..i + n];
    assert forall k :: i + n <= k < |s| ==> IsSpace(s[k]) by {
      forall k | i + n <= k < |s| ensures IsSpace(s[k]) {
        assert s[k] == l[k - i];
      }
    }
    assert r != [] ==> !IsSpace(r[0]) by {
      if r != [] { assert r[0] == s[i]; }
    }
    r
  }

  /** Stripping twice is stripping once. */
  lemma StripIdempotent(s: string)
    ensures Strip(Strip(s)) == Strip(s)
  {
    var r := Strip(s);
    var r2 := Strip(r);
    var i, j :| 0 <= i <= j <= |r| && r2 == r[i..j] &&
                (forall k :: 0 <= k < i ==> IsSpace(r[k])) &&
                (forall k :: j <= k < |r| ==> IsSpace(r[k]));
    if r != [] {
      assert !IsSpace(r[0]) && !IsSpace(r[|r| - 1]);
    }
    assert r2 == r;
  }

  /** `safe_strip`: strip a string, keeping None as None. */
  function SafeStrip(s: Option<string>): (r: Option<string>)
    ensures r.None? <==> s.None?
    ensures r.Some? ==> r.value == Strip(s.value)
  {
    if s.Some? then Some(Strip(s.value)) else s
  }

  /** `s.startswith(prefix)`. */
  predicate StartsWith(s: string, prefix: string)
  {
    |prefix| <= |s| && s[..|prefix|] == prefix
  }

  /** `s.replace(pat, "")`: delete every non-overlapping occurrence, scanning left to right. */
  function RemoveAll(s: string, pat: string): (r: string)
    requires pat != []
    ensures |r| <= |s|
    ensures forall c :: c in r ==> c in s
    decreases |s|
  {
    if |s| < |pat| then s
    else if s[..|pat|] == pat then RemoveAll(s[|pat|..], pat)
    else [s[0]] + RemoveAll(s[1..], pat)
  }

  /** Deleting a one-character pattern leaves no occurrence of that character. */
  lemma {:induction false} RemoveAllChar(s: string, c: char)
    ensures c !in RemoveAll(s, [c])
    ensures forall d :: d != c && d in s ==> d in RemoveAll(s, [c])
    decreases |s|
  {
    if |s| >= 1 {
      RemoveAllChar(s[1..], c);
      if s[..1] != [c] {
        assert s[0] != c;
      }
      forall d | d != c && d in s ensures d in RemoveAll(s, [c]) {
        if d != s[0] { assert d in s[1..]; }
      }
    }
  }

  /** Deleting a pattern from a string that cannot contain it changes nothing. */
  lemma {:induction false} RemoveAllAbsent(s: string, pat: string, c: char)
    requires pat != [] && c in pat && c !in s
    ensures RemoveAll(s, pat) == s
    decreases |s|
  {
    if |s| >= |pat| {
      assert s[..|pat|] != pat by {
        var k :| 0 <= k < |pat| && pat[k] == c;
        assert s[..|pat|][k] == s[k];
      }
      RemoveAllAbsent(s[1..], pat, c);
      assert [s[0]] + s[1..] == s;
    }
  }

  // ---------------------------------------------------------------------
  // str.split(sep) and its inverse
  // ---------------------------------------------------------------------

  /** Number of occurrences of `c` in `s`. */
  function Count(s: string, c: char): nat
  {
    if s == [] then 0 else (if s[0] == c then 1 else 0) + Count(s[1..], c)
  }

  /** `s.split(sep)` for a one-character separator. */
  function SplitOn(s: string, sep: char): (r: seq<string>)
    ensures |r| >= 1
  {
    if s == [] then [""]
    else if s[0] == sep then [""] + SplitOn(s[1..], sep)
    else
      var rest := SplitOn(s[1..], sep);
      [[s[0]] + rest[0]] + rest[1..]
  }

  /** `sep.join(parts)`. */
  function JoinWith(parts: seq<string>, sep: char): string
  {
    if parts == [] then ""
    else if |parts| == 1 then parts[0]
    else parts[0] + [sep] + JoinWith(parts[1..], sep)
  }

  /** The pieces of a split never contain the separator, and there is one more piece than separators. */
  lemma SplitOnFacts(s: string, sep: char)
    ensures |SplitOn(s, sep)| == Count(s, sep) + 1
    ensures forall p :: p in SplitOn(s, sep) ==> sep !in p
    ensures JoinWith(SplitOn(s, sep), sep) == s
  {
    SplitOnCount(s, sep);
    SplitOnPieces(s, sep);
    SplitOnJoin(s, sep);
  }

  lemma {:induction false} SplitOnCount(s: string, sep: char)
    ensures |SplitOn(s, sep)| == Count(s, sep) + 1
  {
    if s != [] {
      SplitOnCount(s[1..], sep);
    }
  }

  lemma {:induction false} SplitOnPieces(s: string, sep: char)
    ensures forall p :: p in SplitOn(s, sep) ==> sep !in p
  {
    if s != [] {
      SplitOnPieces(s[1..], sep);
      var rest := SplitOn(s[1..], sep);
      if s[0] != sep {
        var r := SplitOn(s, sep);
        assert r == [[s[0]] + rest[0]] + rest[1..];
        forall p | p in r ensures sep !in p {
          if p != [s[0]] + rest[0] { assert p in rest; }
        }
      }
    }
  }

  lemma {:induction false} SplitOnJoin(s: string, sep: char)
    ensures JoinWith(SplitOn(s, sep), sep) == s
  {
    if s != [] {
      SplitOnJoin(s[1..], sep);
      var rest := SplitOn(s[1..], sep);
      if s[0] == sep {
        assert JoinWith([""] + rest, sep) == "" + [sep] + JoinWith(rest, sep);
        assert s == [s[0]] + s[1..];
      } else if |rest| == 1 {
        assert s == [s[0]] + rest[0];
      } else {
        assert rest == [rest[0]] + rest[1..];
        assert JoinWith(rest, sep) == rest[0] + [sep] + JoinWith(rest[1..], sep);
        assert s == [s[0]] + s[1..];
      }
    }
  }

  /** A string without the separator splits into itself. */
  lemma {:induction false} SplitOnNone(s: string, sep: char)
    requires sep !in s
    ensures SplitOn(s, sep) == [s]
  {
    if s != [] {
      SplitOnNone(s[1..], sep);
      assert s == [s[0]] + s[1..];
    }
  }

  /** Splitting around one separator: `(u + sep + v).split(sep) == u.split(sep) + v.split(sep)`
      whenever `u` has no separator. */
  lemma {:induction false} SplitOnSep(u: string, v: string, sep: char)
    requires sep !in u
    ensures SplitOn(u + [sep] + v, sep) == [u] + SplitOn(v, sep)
  {
    if u == [] {
      assert u + [sep] + v == [sep] + v;
      assert ([sep] + v)[1..] == v;
    } else {
      assert (u + [sep] + v)[1..] == u[1..] + [sep] + v;
      SplitOnSep(u[1..], v, sep);
      assert [u[0]] + u[1..] == u;
    }
  }

  /** Splitting a join gives back its parts, when no part holds the separator. */
  lemma {:induction false} SplitJoin(cs: seq<string>, sep: char)
    requires cs != [] && forall c :: c in cs ==> sep !in c
    ensures SplitOn(JoinWith(cs, sep), sep) == cs
  {
    if |cs| == 1 {
      SplitOnNone(cs[0], sep);
    } else {
      assert forall c :: c in cs[1..] ==> c in cs;
      SplitJoin(cs[1..], sep);
      SplitOnSep(cs[0], JoinWith(cs[1..], sep), sep);
      assert cs == [cs[0]] + cs[1..];
    }
  }

  // ---------------------------------------------------------------------
  // split_reference
  // ---------------------------------------------------------------------

  /** The two keys of the dictionary `split_reference` returns. */
  datatype Reference = Reference(base: string, fragment: Option<string>)

  /** `split_reference`: the empty dictionary becomes None. */
  function SplitReference(s: Option<string>): Option<Reference>
  {
    if s.Some? then
      var val := SplitOn(s.value, '#');
      if |val| == 2 then Some(Reference(val[0], Some(val[1])))
      else if |val| == 1 then Some(Reference(val[0], None))
      else None
    else None
  }

  /** Position of the first occurrence of `c` in `s`, when there is one. */
  function IndexOfChar(s: string, c: char): (r: nat)
    requires c in s
    ensures r < |s| && s[r] == c && c !in s[..r]
  {
    if s[0] == c then 0 else IndexOfChar(s[1..], c) + 1
  }

  lemma {:induction false} CountZero(s: string, c: char)
    ensures Count(s, c) == 0 <==> c !in s
  {
    if s != [] {
      CountZero(s[1..], c);
      assert c in s <==> s[0] == c || c in s[1..];
    }
  }

  lemma {:induction false} CountAppend(a: string, b: string, c: char)
    ensures Count(a + b, c) == Count(a, c) + Count(b, c)
  {
    if a != [] {
      assert (a + b)[0] == a[0];
      assert (a + b)[1..] == a[1..] + b;
      CountAppend(a[1..], b, c);
    } else {
      assert a + b == b;
    }
  }

  /** The contract of `split_reference`, case by case on the number of `#`. */
  lemma SplitReferenceCases(s: Option<string>)
    ensures s.None? ==> SplitReference(s).None?
    ensures s.Some? && '#' !in s.value ==> SplitReference(s) == Some(Reference(s.value, None))
    ensures s.Some? && '#' in s.value && Count(s.value, '#') == 1 ==>
              var i := IndexOfChar(s.value, '#');
              SplitReference(s) == Some(Reference(s.value[..i], Some(s.value[i + 1..])))
    ensures s.Some? && Count(s.value, '#') >= 2 ==> SplitReference(s).None?
    ensures SplitReference(s).Some? && SplitReference(s).value.fragment.Some? ==>
              SplitReference(s).value.base + "#" + SplitReference(s).value.fragment.value == s.value
    ensures SplitReference(s).Some? && SplitReference(s).value.fragment.None? ==>
              SplitReference(s).value.base == s.value
  {
    if s.Some? {
      var t := s.value;
      SplitOnFacts(t, '#');
      CountZero(t, '#');
      if '#' !in t {
        SplitOnNone(t, '#');
      } else {
        var i := IndexOfChar(t, '#');
        assert t == t[..i] + ['#'] + t[i + 1..];
        SplitOnSep(t[..i], t[i + 1..], '#');
        CountAppend(t[..i] + ['#'], t[i + 1..], '#');
        CountAppend(t[..i], ['#'], '#');
        CountZero(t[..i], '#');
        assert Count(['#'], '#') == 1;
        if Count(t, '#') == 1 {
          CountZero(t[i + 1..], '#');
          SplitOnNone(t[i + 1..], '#');
        }
        var val := SplitOn(t, '#');
        if |val| == 2 {
          assert JoinWith(val, '#') == val[0] + "#" + JoinWith(val[1..], '#');
          assert val[1..] == [val[1]];
        }
      }
    }
  }
}
