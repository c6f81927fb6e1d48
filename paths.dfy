/**
  POSIX path arithmetic as the utility module uses it: `norm_join` is
  `normpath(join(p1, p2))` and `norm_join_parent` is
  `norm_join(dirname(p1), p2)`. Python's `posixpath.join`, `dirname` and
  `normpath` are written out here, so that every cross-reference of the
  object graph resolves through a definition that can be reasoned about.
*/
module Paths {
  import opened Wrappers
  import opened Util

  // ---------------------------------------------------------------------
  // posixpath.join and posixpath.dirname
  // ---------------------------------------------------------------------

  /** `posixpath.join(a, b)`: an absolute `b` replaces `a`, otherwise a single `/` separates them. */
  function Join(a: string, b: string): string
  {
    if StartsWith(b, "/") then b
    else if a == "" || a[|a| - 1] == '/' then a + b
    else a + "/" + b
  }

  /** An absolute `b` is the join; a relative one follows `a` and at most one added `/`. */
  lemma JoinParts(a: string, b: string)
    ensures var r := Join(a, b);
            (StartsWith(b, "/") ==> r == b) &&
            (!StartsWith(b, "/") ==> |a| + |b| <= |r| <= |a| + |b| + 1 && r[..|a|] == a && r[|r| - |b|..] == b)
  {
    var r := Join(a, b);
    if !StartsWith(b, "/") {
      if a == "" || a[|a| - 1] == '/' {
        assert r == a + b;
      } else {
        assert r == a + "/" + b;
      }
    }
  }

  /** `s.rstrip('/')`. */
  function RStripSlash(s: string): string
  {
    if s == [] || s[|s| - 1] != '/' then s else RStripSlash(s[..|s| - 1])
  }

  /** `rstrip` keeps a prefix that does not end in `/`, and drops only slashes. */
  lemma {:induction false} RStripSlashParts(s: string)
    ensures var r := RStripSlash(s);
            |r| <= |s| && r == s[..|r|] && (r == [] || r[|r| - 1] != '/') &&
            forall k :: |r| <= k < |s| ==> s[k] == '/'
    decreases |s|
  {
    if s != [] && s[|s| - 1] == '/' {
      RStripSlashParts(s[..|s| - 1]);
    }
  }

  /** One past the last `/` of `s`, or 0 when there is none (`p.rfind('/') + 1`). */
  function AfterLastSlash(s: string): (i: nat)
    ensures i <= |s|
  {
    if s == [] then 0
    else if s[|s| - 1] == '/' then |s|
    else AfterLastSlash(s[..|s| - 1])
  }

  /** The position found follows a `/`, and no `/` comes after it. */
  lemma {:induction false} AfterLastSlashParts(s: string)
    ensures var i := AfterLastSlash(s);
            (i > 0 ==> s[i - 1] == '/') && forall k :: i <= k < |s| ==> s[k] != '/'
    decreases |s|
  {
    if s != [] && s[|s| - 1] != '/' {
      AfterLastSlashParts(s[..|s| - 1]);
    }
  }

  /** `posixpath.dirname(p)`: everything before the last `/`, trailing slashes removed unless it is all slashes. */
  function Dirname(p: string): string
  {
    var head := p[..AfterLastSlash(p)];
    if head != "" && !AllSlashes(head) then RStripSlash(head) else head
  }

  /** Every character of `s` is `/` (`s == '/' * len(s)`). */
  predicate AllSlashes(s: string)
    decreases |s|
  {
    s == [] || (s[|s| - 1] == '/' && AllSlashes(s[..|s| - 1]))
  }

  /** The recursive test is the quantified one. */
  lemma {:induction false} AllSlashesAt(s: string)
    ensures AllSlashes(s) <==> forall k :: 0 <= k < |s| ==> s[k] == '/'
    decreases |s|
  {
    if s != [] {
      AllSlashesAt(s[..|s| - 1]);
    }
  }

  /** The directory part is a prefix of the path. */
  lemma DirnamePrefix(p: string)
    ensures |Dirname(p)| <= |p| && Dirname(p) == p[..|Dirname(p)|]
  {
    var head := p[..AfterLastSlash(p)];
    RStripSlashParts(head);
  }

  // ---------------------------------------------------------------------
  // posixpath.normpath
  // ---------------------------------------------------------------------

  /** Number of leading slashes normpath keeps: two exactly when the path starts with `//` but not `///`. */
  function InitialSlashes(p: string): (n: nat)
    ensures n <= 2
  {
    if !StartsWith(p, "/") then 0
    else if StartsWith(p, "//") && !StartsWith(p, "///") then 2
    else 1
  }

  /** One iteration of normpath's component loop. */
  function Step(acc: seq<string>, comp: string, initial: nat): seq<string>
  {
    if comp == "" || comp == "." then acc
    else if comp != ".." || (initial == 0 && acc == []) || (acc != [] && acc[|acc| - 1] == "..") then acc + [comp]
    else if acc != [] then acc[..|acc| - 1]
    else acc
  }

  /** The component loop of normpath, left to right. */
  function Fold(acc: seq<string>, comps: seq<string>, initial: nat): seq<string>
    decreases |comps|
  {
    if comps == [] then acc else Fold(Step(acc, comps[0], initial), comps[1..], initial)
  }

  function Slashes(n: nat): (r: string)
    ensures |r| == n
  {
    if n == 0 then "" else "/" + Slashes(n - 1)
  }

  /** `n` slashes are all slashes. */
  lemma {:induction false} SlashesAll(n: nat)
    ensures forall k :: 0 <= k < n ==> Slashes(n)[k] == '/'
  {
    if n > 0 {
      SlashesAll(n - 1);
      assert forall k :: 1 <= k < n ==> Slashes(n)[k] == Slashes(n - 1)[k - 1];
    }
  }

  /** `posixpath.normpath(p)`. */
  function NormPath(p: string): string
  {
    if p == "" then "."
    else
      var initial := InitialSlashes(p);
      var r := Slashes(initial) + JoinWith(Fold([], SplitOn(p, '/'), initial), '/');
      if r == "" then "." else r
  }

  /**
    A list of components is normal when no component is empty, `.` or
    contains `/`, and `..` occurs only in a leading run, and never after
    a root.
  */
  ghost predicate Normal(cs: seq<string>, initial: nat)
  {
    forall i :: 0 <= i < |cs| ==>
      cs[i] != "" && cs[i] != "." && '/' !in cs[i] &&
      (cs[i] == ".." ==> initial == 0 && forall j :: 0 <= j < i ==> cs[j] == "..")
  }

  lemma StepNormal(acc: seq<string>, comp: string, initial: nat)
    requires Normal(acc, initial) && '/' !in comp
    ensures Normal(Step(acc, comp, initial), initial)
  {
    var r := Step(acc, comp, initial);
    if comp == ".." && r == acc + [comp] {
      if acc != [] {
        assert acc[|acc| - 1] == "..";
      }
    }
  }

  lemma {:induction false} FoldNormal(acc: seq<string>, comps: seq<string>, initial: nat)
    requires Normal(acc, initial) && forall c :: c in comps ==> '/' !in c
    ensures Normal(Fold(acc, comps, initial), initial)
    decreases |comps|
  {
    if comps != [] {
      StepNormal(acc, comps[0], initial);
      assert forall c :: c in comps[1..] ==> c in comps;
      FoldNormal(Step(acc, comps[0], initial), comps[1..], initial);
    }
  }

  /** The loop leaves an already-normal list untouched. */
  lemma {:induction false} FoldOfNormal(acc: seq<string>, rest: seq<string>, initial: nat)
    requires Normal(acc + rest, initial)
    ensures Fold(acc, rest, initial) == acc + rest
    decreases |rest|
  {
    if rest != [] {
      var c := rest[0];
      assert (acc + rest)[|acc|] == c;
      if c == ".." {
        assert initial == 0;
        if acc != [] {
          assert (acc + rest)[|acc| - 1] == acc[|acc| - 1];
        }
      }
      assert Step(acc, c, initial) == acc + [c];
      assert acc + [c] + rest[1..] == acc + rest;
      FoldOfNormal(acc + [c], rest[1..], initial);
    }
  }

  /** Empty components vanish from the front. */
  lemma FoldEmpties(comps: seq<string>, initial: nat)
    ensures Fold([], [""] + comps, initial) == Fold([], comps, initial)
  {
    assert ([""] + comps)[1..] == comps;
  }

  /** A join of non-empty components starts with the first component. */
  lemma {:induction false} JoinWithHead(cs: seq<string>)
    requires cs != [] && cs[0] != ""
    ensures JoinWith(cs, '/') != "" && JoinWith(cs, '/')[0] == cs[0][0]
  {
  }

  /** Leading slashes split into as many empty components. */
  lemma {:induction false} SplitSlashes(n: nat, body: string)
    ensures SplitOn(Slashes(n) + body, '/') == seq(n, _ => "") + SplitOn(body, '/')
  {
    if n > 0 {
      assert Slashes(n) + body == "/" + (Slashes(n - 1) + body);
      SplitSlashes(n - 1, body);
      assert seq(n, _ => "") == [""] + seq(n - 1, _ => "");
    } else {
      assert Slashes(n) + body == body;
      assert seq(n, _ => "") + SplitOn(body, '/') == SplitOn(body, '/');
    }
  }

  /** Leading empty components do not change the fold from an empty accumulator. */
  lemma {:induction false} FoldLeadingEmpties(n: nat, comps: seq<string>, initial: nat)
    ensures Fold([], seq(n, _ => "") + comps, initial) == Fold([], comps, initial)
  {
    if n > 0 {
      var e := seq(n, _ => "") + comps;
      assert e[0] == "";
      assert e[1..] == seq(n - 1, _ => "") + comps;
      FoldLeadingEmpties(n - 1, comps, initial);
    } else {
      assert seq(n, _ => "") + comps == comps;
    }
  }

  /** A path built from a root of `initial` slashes and normal components is a fixed point of normpath. */
  lemma NormPathOfNormal(initial: nat, cs: seq<string>)
    requires initial <= 2 && Normal(cs, initial)
    requires Slashes(initial) + JoinWith(cs, '/') != ""
    ensures NormPath(Slashes(initial) + JoinWith(cs, '/')) == Slashes(initial) + JoinWith(cs, '/')
  {
    var body := JoinWith(cs, '/');
    NormalBody(cs);
    RootOfSlashes(initial, body);
    FoldOfSplitNormal(initial, cs);
  }

  /** The join of normal components does not start with a slash. */
  lemma NormalBody(cs: seq<string>)
    requires forall c :: c in cs ==> c != "" && '/' !in c
    ensures JoinWith(cs, '/') == "" || JoinWith(cs, '/')[0] != '/'
  {
    if cs != [] {
      var body := JoinWith(cs, '/');
      assert cs[0] in cs;
      JoinWithHead(cs);
      assert body[0] == cs[0][0];
      assert cs[0][0] in cs[0];
    }
  }

  /** A root of at most two slashes before a body that does not start with one is counted exactly. */
  lemma RootOfSlashes(initial: nat, body: string)
    requires initial <= 2 && (body == "" || body[0] != '/')
    ensures InitialSlashes(Slashes(initial) + body) == initial
  {
    var q := Slashes(initial) + body;
    if initial == 1 {
      assert q[0] == '/';
      assert body != "" ==> q[1] == body[0];
    } else if initial == 2 {
      assert q[..2] == "//";
      assert body != "" ==> q[2] == body[0];
    } else if body != "" {
      assert q[0] == body[0];
    }
  }

  /** Splitting a rooted join of normal components and folding it gives the components back. */
  lemma FoldOfSplitNormal(initial: nat, cs: seq<string>)
    requires initial <= 2 && Normal(cs, initial)
    ensures Fold([], SplitOn(Slashes(initial) + JoinWith(cs, '/'), '/'), initial) == cs
  {
    var body := JoinWith(cs, '/');
    SplitSlashes(initial, body);
    FoldLeadingEmpties(initial, SplitOn(body, '/'), initial);
    if cs != [] {
      SplitJoin(cs, '/');
      FoldOfNormal([], cs, initial);
      assert [] + cs == cs;
    } else {
      assert body == "";
      assert SplitOn(body, '/') == [""];
      assert Fold([], [""], initial) == [];
    }
  }

  /** normpath is idempotent: a normalised path is its own normal form. */
  lemma NormPathIdempotent(p: string)
    ensures NormPath(NormPath(p)) == NormPath(p)
  {
    SplitOnNone(".", '/');
    assert Fold([], ["."], 0) == [];
    if p != "" {
      var initial := InitialSlashes(p);
      var cs := Fold([], SplitOn(p, '/'), initial);
      SplitOnFacts(p, '/');
      FoldNormal([], SplitOn(p, '/'), initial);
      if Slashes(initial) + JoinWith(cs, '/') != "" {
        NormPathOfNormal(initial, cs);
      }
    }
  }

  // ---------------------------------------------------------------------
  // norm_join and norm_join_parent
  // ---------------------------------------------------------------------

  /** `norm_join(p1, p2)`: None when either argument is None. */
  function NormJoin(p1: Option<string>, p2: Option<string>): (r: Option<string>)
    ensures r.None? <==> p1.None? || p2.None?
  {
    if p1.None? || p2.None? then None else Some(NormPath(Join(p1.value, p2.value)))
  }

  /** `norm_join_parent(p1, p2)`: resolve `p2` against the directory holding `p1`. */
  function NormJoinParent(p1: Option<string>, p2: Option<string>): (r: Option<string>)
    ensures r.None? <==> p1.None? || p2.None?
  {
    if p1.None? || p2.None? then None else NormJoin(Some(Dirname(p1.value)), p2)
  }

  /** A resolved path is already normal: resolving never leaves `.`, `//` or an inner `..` behind. */
  lemma NormJoinParentNormal(p1: Option<string>, p2: Option<string>)
    requires p1.Some? && p2.Some?
    ensures NormJoinParent(p1, p2).Some?
    ensures NormPath(NormJoinParent(p1, p2).value) == NormJoinParent(p1, p2).value
  {
    NormPathIdempotent(Join(Dirname(p1.value), p2.value));
  }

  /** The last segment of the containing path is replaced by the relative reference. */
  lemma NormJoinParentSibling(dir: string, file: string, q: string)
    requires dir != "" && dir[|dir| - 1] != '/' && '/' !in file
    requires !StartsWith(q, "/")
    ensures NormJoinParent(Some(dir + "/" + file), Some(q)) == Some(NormPath(dir + "/" + q))
  {
    var p := dir + "/" + file;
    AfterLastSlashParts(p);
    assert p[|dir|] == '/';
    assert forall k :: |dir| + 1 <= k < |p| ==> p[k] == file[k - |dir| - 1];
    assert forall k :: |dir| < k < |p| ==> p[k] != '/';
    assert AfterLastSlash(p) == |dir| + 1;
    var head := p[..|dir| + 1];
    assert head == dir + "/";
    assert head[|dir| - 1] != '/';
    assert !AllSlashes(head) by { AllSlashesAt(head); }
    assert head[..|head| - 1] == dir;
    assert RStripSlash(head) == dir;
  }

  /** A reference from a file at the container root resolves to the normalised reference itself. */
  lemma NormJoinParentAtRoot(p: string, q: string)
    requires '/' !in p
    ensures NormJoinParent(Some(p), Some(q)) == Some(NormPath(q))
  {
    AfterLastSlashParts(p);
    assert forall k :: 0 <= k < |p| ==> p[k] != '/';
    assert AfterLastSlash(p) == 0;
    assert Dirname(p) == "";
    assert Join("", q) == q by {
      if !StartsWith(q, "/") { assert "" + q == q; }
    }
  }

  /** A plain path segment: not empty, not `.` or `..`, and without a slash. */
  predicate Segment(c: string)
  {
    c != "" && c != "." && c != ".." && '/' !in c
  }

  /** `..` cancels the segment before it: `a/../b/c` normalises to `b/c`. */
  lemma NormPathCancelsParent(a: string, b: string, c: string)
    requires Segment(a) && Segment(b) && Segment(c)
    ensures NormPath(a + "/../" + b + "/" + c) == b + "/" + c
  {
    var cs := [a, "..", b, c];
    var p := a + "/../" + b + "/" + c;
    JoinCancel(a, b, c);
    SplitJoin(cs, '/');
    FoldCancel(a, b, c);
    assert InitialSlashes(p) == 0 by {
      assert p[0] == a[0];
      assert a[0] in a;
    }
    assert JoinWith([b, c], '/') == b + "/" + c;
  }

  /** The components `a`, `..`, `b`, `c` joined by slashes. */
  lemma JoinCancel(a: string, b: string, c: string)
    ensures JoinWith([a, "..", b, c], '/') == a + "/../" + b + "/" + c
  {
    var cs := [a, "..", b, c];
    assert cs[1..] == ["..", b, c] && cs[1..][1..] == [b, c] && cs[1..][1..][1..] == [c];
    assert JoinWith([b, c], '/') == b + "/" + c;
    assert JoinWith(["..", b, c], '/') == ".." + "/" + (b + "/" + c);
  }

  /** The component loop drops `a` at the `..` that follows it. */
  lemma FoldCancel(a: string, b: string, c: string)
    requires Segment(a) && Segment(b) && Segment(c)
    ensures Fold([], [a, "..", b, c], 0) == [b, c]
  {
    assert Step([b], c, 0) == [b, c];
    assert Fold([b], [c], 0) == [b, c] by {
      assert [c][1..] == [];
      assert Fold([b, c], [], 0) == [b, c];
    }
    assert Fold([], [b, c], 0) == [b, c] by {
      assert Step([], b, 0) == [b];
      assert [b, c][1..] == [c];
    }
    assert Fold([a], ["..", b, c], 0) == [b, c] by {
      assert Step([a], "..", 0) == [];
      assert ["..", b, c][1..] == [b, c];
    }
    assert [a, "..", b, c][1..] == ["..", b, c];
    assert Step([], a, 0) == [a];
  }
}
