/** What the path check does and does not guarantee. Under a root as the
    OS realpath returns it, a path that does not begin by climbing out of
    the root keeps the root as its prefix, so it is accepted; and since the
    check is a plain prefix test after one pass, accepted paths can still
    name places outside the root. */
module LocalFileSystemProperties {
  import opened LocalFileSystem

  /** Whether s begins with pre. */
  predicate StartsWith(pre: string, s: string) {
    |pre| <= |s| && s[..|pre|] == pre
  }

  /** A root as realpath returns it (other than "/" itself): no trailing
      separator, no doubled separators, no "." or ".." segments. */
  predicate Canonical(root: string) {
    && |root| >= 1 && root[|root| - 1] != '/'
    && forall i :: 0 <= i < |root| ==>
         && !(i + 1 < |root| && root[i] == '/' && root[i + 1] == '/')
         && !DotAt(root + "/", i)
         && !ParentAt(root + "/", i)
  }

  /** The scan passes over positions where neither alternative matches
      and keeps their characters. */
  lemma {:induction false} CollapseKeepsPrefix(s: string, p: nat, n: nat)
    requires p <= n <= |s|
    requires forall k :: p <= k < n ==> ParentMatch(s, k) == 0 && !SlashMatch(s, k)
    ensures Collapse(s, p) == s[p..n] + Collapse(s, n)
    decreases n - p
  {
    if p < n {
      CollapseKept(s, p);
      CollapseKeepsPrefix(s, p + 1, n);
      assert s[p..n] == [s[p]] + s[p + 1..n];
    }
  }

  /** One position where neither alternative matches: its character is
      kept. */
  lemma CollapseKept(s: string, p: nat)
    requires p < |s| && ParentMatch(s, p) == 0 && !SlashMatch(s, p)
    ensures Collapse(s, p) == [s[p]] + Collapse(s, p + 1)
  {
  }

  /** str_replace passes over positions where no "/./" starts and keeps
      their characters. */
  lemma {:induction false} ReplaceKeepsPrefix(x: string, p: nat, n: nat)
    requires p <= n <= |x|
    requires forall i :: p <= i < n ==> !DotAt(x, i)
    ensures ReplaceFrom(x, p) == x[p..n] + ReplaceFrom(x, n)
    decreases n - p
  {
    if p < n {
      assert ReplaceFrom(x, p) == [x[p]] + ReplaceFrom(x, p + 1);
      ReplaceKeepsPrefix(x, p + 1, n);
      assert x[p..n] == [x[p]] + x[p + 1..n];
    }
  }

  /** A separator survives the scan: of a run of separators the last one
      is kept. */
  lemma {:induction false} CollapseFromSlash(s: string, p: nat)
    requires p < |s| && s[p] == '/'
    ensures |Collapse(s, p)| > 0 && Collapse(s, p)[0] == '/'
    decreases |s| - p
  {
    assert RunEnd(s, p) == p;
    if SlashMatch(s, p) {
      CollapseFromSlash(s, p + 1);
    }
  }

  /** Under a canonical root the second alternative never matches inside
      the root: it has no doubled separator and does not end in one. */
  lemma NoSlashMatchInRoot(root: string, path: string, k: nat)
    requires Canonical(root) && k < |root|
    ensures !SlashMatch(Join(root, path), k)
  {
    var s := Join(root, path);
    assert s[k] == root[k];
    if k + 1 < |root| {
      assert s[k + 1] == root[k + 1];
    }
  }

  /** Under a canonical root the first alternative never matches inside
      the root unless the path begins with "../" or "/../": a segment of
      the root followed by "/../" would be a ".." segment of the root
      itself, or the path's first one. */
  lemma NoParentMatchInRoot(root: string, path: string, k: nat)
    requires Canonical(root) && k < |root|
    requires !StartsWith("../", path) && !StartsWith("/../", path)
    ensures ParentMatch(Join(root, path), k) == 0
  {
    var s := Join(root, path);
    var e := RunEnd(s, k);
    assert !IsSegmentChar(s[|root|]);
    if e == |root| {
      if |path| > 0 && path[0] == '/' {
        if |path| >= 4 {
          assert s[|root|..|root| + 4] == path[..4];
        }
      } else if |path| >= 3 {
        assert s[|root| + 1..|root| + 4] == path[..3];
      }
    } else if e + 4 <= |root| + 1 {
      assert s[..|root| + 1] == root + "/";
      assert s[e..e + 4] == (root + "/")[e..e + 4];
      assert !ParentAt(root + "/", e);
    } else if e + 1 == |root| {
      assert s[e] == root[|root| - 1];
    } else {
      assert s[e + 2] == '/';
    }
  }

  /** No "/./" starts inside a canonical root once something that begins
      with a separator follows it. */
  lemma NoDotSegmentInRoot(root: string, y: string, i: nat)
    requires Canonical(root) && i < |root|
    requires |y| > 0 && y[0] == '/'
    ensures !DotAt(root + y, i)
  {
    var x := root + y;
    if i + 2 <= |root| {
      assert x[..|root| + 1] == root + "/";
      assert x[i..i + 3] == (root + "/")[i..i + 3];
      assert !DotAt(root + "/", i);
    } else {
      assert x[i] == root[|root| - 1];
    }
  }

  /** Under a canonical root, a path that does not begin with "../" or
      "/../" normalises to the root followed by the rest, so it is
      accepted. */
  lemma {:induction false} RootKept(root: string, path: string)
    requires Canonical(root)
    requires !StartsWith("../", path) && !StartsWith("/../", path)
    ensures StartsWith(root, ToRealPath(root, path))
    ensures InBoundary(root, path) == Ok(true)
  {
    var s := Join(root, path);
    forall k | 0 <= k < |root|
      ensures ParentMatch(s, k) == 0 && !SlashMatch(s, k)
    {
      NoSlashMatchInRoot(root, path, k);
      NoParentMatchInRoot(root, path, k);
    }
    CollapseKeepsPrefix(s, 0, |root|);
    var y := Collapse(s, |root|);
    var x := root + y;
    assert Collapse(s, 0) == x;
    CollapseFromSlash(s, |root|);
    forall i | 0 <= i < |root|
      ensures !DotAt(x, i)
    {
      NoDotSegmentInRoot(root, y, i);
    }
    ReplaceKeepsPrefix(x, 0, |root|);
    assert x[..|root|] == root;
  }

  /** The run of segment characters from p ends at e when everything in
      between is a segment character and s[e] is not. */
  lemma {:induction false} RunEndIs(s: string, p: nat, e: nat)
    requires p <= e < |s| && !IsSegmentChar(s[e])
    requires forall k :: p <= k < e ==> IsSegmentChar(s[k])
    ensures RunEnd(s, p) == e
    decreases e - p
  {
    if p < e {
      RunEndIs(s, p + 1, e);
    }
  }

  /** A separator not followed by another one is kept. */
  lemma SlashKept(s: string, p: nat)
    requires p + 1 < |s| && s[p] == '/' && s[p + 1] != '/'
    ensures Collapse(s, p) == "/" + Collapse(s, p + 1)
  {
    assert RunEnd(s, p) == p;
  }

  /** A separator the second alternative matches is dropped. */
  lemma SlashDropped(s: string, p: nat)
    requires SlashMatch(s, p)
    ensures Collapse(s, p) == Collapse(s, p + 1)
  {
    assert RunEnd(s, p) == p;
  }

  /** A segment followed by "/../" is dropped together with it. */
  lemma SegmentDropped(s: string, p: nat, e: nat)
    requires p < e && e + 4 <= |s|
    requires s[e] == '/' && s[e + 1] == '.' && s[e + 2] == '.' && s[e + 3] == '/'
    requires forall k :: p <= k < e ==> IsSegmentChar(s[k])
    ensures Collapse(s, p) == Collapse(s, e + 4)
  {
    RunEndIs(s, p, e);
  }

  /** str_replace keeps a ".." segment written right after the root. */
  lemma ParentSegmentKept(root: string, y: string)
    requires Canonical(root)
    requires |y| > 0 && y[0] == '/'
    ensures StartsWith(root + "/../", ReplaceDotSegments(root + "/.." + y))
  {
    var x := root + "/.." + y;
    var r := |root|;
    assert x == root + ("/.." + y);
    assert x[r] == '/' && x[r + 1] == '.' && x[r + 2] == '.' && x[r + 3] == '/';
    forall i | 0 <= i < r + 3
      ensures !DotAt(x, i)
    {
      if i < r {
        NoDotSegmentInRoot(root, "/.." + y, i);
      } else if i == r {
        assert x[i + 2] != '/';
      } else {
        assert x[i] != '/';
      }
    }
    ReplaceKeepsPrefix(x, 0, r + 3);
    var z := ReplaceFrom(x, r + 3);
    assert z[0] == '/';
    assert x[..r + 3] == root + "/..";
    assert ReplaceDotSegments(x) == root + "/.." + z;
    assert (root + "/.." + z)[..r + 4] == root + "/../";
  }

  /** A ".." segment the first alternative leaves alone (no "/../" follows
      it) is kept, and a separator comes after it. */
  lemma DotDotKept(s: string, q: nat)
    requires q + 3 <= |s| && s[q] == '.' && s[q + 1] == '.' && s[q + 2] == '/'
    requires !ParentAt(s, q + 2)
    ensures Collapse(s, q) == ".." + Collapse(s, q + 2)
    ensures |Collapse(s, q + 2)| > 0 && Collapse(s, q + 2)[0] == '/'
  {
    assert RunEnd(s, q + 2) == q + 2;
    assert RunEnd(s, q + 1) == q + 2;
    assert RunEnd(s, q) == q + 2;
    CollapseKeepsPrefix(s, q, q + 2);
    assert s[q..q + 2] == "..";
    CollapseFromSlash(s, q + 2);
  }

  /** The scan keeps a canonical root when the path neither begins with
      "../" nor with "/../". */
  lemma RootPrefixCollapsed(root: string, path: string)
    requires Canonical(root)
    requires !StartsWith("../", path) && !StartsWith("/../", path)
    ensures Collapse(Join(root, path), 0) == root + Collapse(Join(root, path), |root|)
  {
    var s := Join(root, path);
    forall k | 0 <= k < |root|
      ensures ParentMatch(s, k) == 0 && !SlashMatch(s, k)
    {
      NoSlashMatchInRoot(root, path, k);
      NoParentMatchInRoot(root, path, k);
    }
    CollapseKeepsPrefix(s, 0, |root|);
  }

  /** Once the scan has turned the joined string, after the root, into
      "/.." and a separator, the path is accepted and names the root's
      parent. */
  lemma EscapeAccepted(root: string, path: string, y: string)
    requires Canonical(root)
    requires !StartsWith("../", path) && !StartsWith("/../", path)
    requires |y| > 0 && y[0] == '/'
    requires Collapse(Join(root, path), |root|) == "/.." + y
    ensures StartsWith(root + "/../", ToRealPath(root, path))
    ensures InBoundary(root, path) == Ok(true)
  {
    EscapeCollapsed(root, path, y);
    ParentSegmentKept(root, y);
    var r := ToRealPath(root, path);
    assert StartsWith(root + "/../", r);
    assert r[..|root|] == (root + "/../")[..|root|] == root;
  }

  /** The scan keeps the root and then produces "/.." and y. */
  lemma EscapeCollapsed(root: string, path: string, y: string)
    requires Canonical(root)
    requires !StartsWith("../", path) && !StartsWith("/../", path)
    requires Collapse(Join(root, path), |root|) == "/.." + y
    ensures ToRealPath(root, path) == ReplaceDotSegments(root + "/.." + y)
  {
    var c := Collapse(Join(root, path), 0);
    RootPrefixCollapsed(root, path);
    assert c == root + ("/.." + y);
    Regroup(root, "/..", y);
  }

  lemma Regroup(a: string, b: string, c: string)
    ensures a + (b + c) == a + b + c
  {
  }

  /** No "/../" starts at j when what follows j does not begin with "../". */
  lemma NoParentAt(s: string, j: nat, t: string)
    requires j < |s| && s[j + 1..] == t && !StartsWith("../", t)
    ensures !ParentAt(s, j)
  {
    if j + 4 <= |s| {
      assert s[j + 1..j + 4] == t[..3];
      assert s[j..j + 4][1..] == s[j + 1..j + 4];
    }
  }

  /** A segment, "/../" and a ".." that no "/../" follows: the segment and
      the first ".." are dropped, the second ".." is kept. */
  lemma SegmentScan(s: string, p: nat, e: nat)
    requires p < e && e + 7 <= |s|
    requires forall k :: p <= k < e ==> IsSegmentChar(s[k])
    requires s[e] == '/' && s[e + 1] == '.' && s[e + 2] == '.' && s[e + 3] == '/'
    requires s[e + 4] == '.' && s[e + 5] == '.' && s[e + 6] == '/'
    requires !ParentAt(s, e + 6)
    ensures Collapse(s, p) == ".." + Collapse(s, e + 6)
    ensures |Collapse(s, e + 6)| > 0 && Collapse(s, e + 6)[0] == '/'
  {
    var y := Collapse(s, e + 6);
    var z := Collapse(s, e + 4);
    DotDotKept(s, e + 4);
    assert z == ".." + y;
    SegmentDropped(s, p, e);
  }

  /** The same after the separator that joins the root and the path: the
      separator is kept. */
  lemma ParentHopScan(s: string, r: nat, e: nat)
    requires r + 1 < e && e + 7 <= |s| && s[r] == '/'
    requires forall k :: r + 1 <= k < e ==> IsSegmentChar(s[k])
    requires s[e] == '/' && s[e + 1] == '.' && s[e + 2] == '.' && s[e + 3] == '/'
    requires s[e + 4] == '.' && s[e + 5] == '.' && s[e + 6] == '/'
    requires !ParentAt(s, e + 6)
    ensures Collapse(s, r) == "/.." + Collapse(s, e + 6)
    ensures |Collapse(s, e + 6)| > 0 && Collapse(s, e + 6)[0] == '/'
  {
    var y := Collapse(s, e + 6);
    var z := Collapse(s, r + 1);
    assert IsSegmentChar(s[r + 1]);
    SlashKept(s, r);
    assert Collapse(s, r) == "/" + z;
    SegmentScan(s, r + 1, e);
    assert z == ".." + y;
    assert "/" + (".." + y) == "/.." + y;
  }

  /** The scan from a doubled separator (with no colon before it), "../",
      and a ".." that no "/../" follows: one separator is dropped, the ".."
      is kept. */
  lemma DoubleSlashScan(s: string, r: nat)
    requires 0 < r && r + 5 <= |s| && s[r - 1] != ':'
    requires s[r] == '/' && s[r + 1] == '/' && s[r + 2] == '.' && s[r + 3] == '.' && s[r + 4] == '/'
    requires !ParentAt(s, r + 4)
    ensures Collapse(s, r) == "/.." + Collapse(s, r + 4)
    ensures |Collapse(s, r + 4)| > 0 && Collapse(s, r + 4)[0] == '/'
  {
    var y := Collapse(s, r + 4);
    var z := Collapse(s, r + 2);
    DotDotKept(s, r + 2);
    assert z == ".." + y;
    SlashKept(s, r + 1);
    assert Collapse(s, r + 1) == "/" + z;
    SlashDropped(s, r);
    assert Collapse(s, r) == "/" + z;
    assert "/" + (".." + y) == "/.." + y;
  }

  /** The check is a prefix test on the joined string after one pass, so a
      segment followed by "/../../" climbs out of the root and is still
      accepted: the normalised path is the root, then "/../". */
  lemma ParentHopEscapes(root: string, a: string, t: string)
    requires Canonical(root)
    requires |a| > 0 && a != ".." && forall k :: 0 <= k < |a| ==> IsSegmentChar(a[k])
    requires !StartsWith("../", t)
    ensures StartsWith(root + "/../", ToRealPath(root, a + "/../../" + t))
    ensures InBoundary(root, a + "/../../" + t) == Ok(true)
  {
    var path := a + "/../../" + t;
    var s := Join(root, path);
    var r := |root|;
    var e := r + 1 + |a|;
    assert path[0] == a[0];
    assert !StartsWith("../", path) by {
      if |a| < 2 {
        assert path[|a|] == '/';
      } else if |a| == 2 {
        assert path[..2] == a;
      } else {
        assert path[2] == a[2];
      }
    }
    assert s[r..] == "/" + path;
    assert forall k :: r + 1 <= k < e ==> s[k] == path[k - r - 1] == a[k - r - 1];
    assert forall k :: e <= k < e + 7 ==> s[k] == path[k - r - 1] == "/../../"[k - e];
    assert s[e + 7..] == t;
    NoParentAt(s, e + 6, t);
    ParentHopScan(s, r, e);
    EscapeAccepted(root, path, Collapse(s, e + 6));
  }

  /** A doubled separator followed by ".." also climbs out of the root: the
      second alternative drops one separator and nothing pairs the ".."
      with a segment. */
  lemma DoubleSlashEscapes(root: string, t: string)
    requires Canonical(root) && root[|root| - 1] != ':'
    requires !StartsWith("../", t)
    ensures StartsWith(root + "/../", ToRealPath(root, "//../" + t))
    ensures InBoundary(root, "//../" + t) == Ok(true)
  {
    var path := "//../" + t;
    var s := Join(root, path);
    var r := |root|;
    assert path[..4] == "//..";
    assert s[r..] == path;
    assert s[r - 1] == root[r - 1];
    assert forall k :: r <= k < r + 5 ==> s[k] == "//../"[k - r];
    assert s[r + 5..] == t;
    NoParentAt(s, r + 4, t);
    DoubleSlashScan(s, r);
    EscapeAccepted(root, path, Collapse(s, r + 4));
  }

  /** With no separator from j on, the scan keeps everything from j. */
  lemma SlashFreeKept(s: string, j: nat)
    requires j <= |s| && forall k :: j <= k < |s| ==> s[k] != '/'
    ensures Collapse(s, j) == s[j..]
  {
    forall k | j <= k < |s|
      ensures ParentMatch(s, k) == 0 && !SlashMatch(s, k)
    {
      var e := RunEnd(s, k);
      if e < |s| {
        assert s[e] != '/';
      }
    }
    CollapseKeepsPrefix(s, j, |s|);
  }

  /** No "/./" starts in x = parent + "/" + t when parent + "/" is a
      prefix of a canonical root followed by a separator and t holds no
      separator. */
  lemma NoDotSegmentAfterParent(root: string, parent: string, t: string, i: nat)
    requires Canonical(root) && |parent| + 1 <= |root| && root[..|parent| + 1] == parent + "/"
    requires forall k :: 0 <= k < |t| ==> t[k] != '/'
    requires i < |parent + "/" + t|
    ensures !DotAt(parent + "/" + t, i)
  {
    var x := parent + "/" + t;
    var n := |parent|;
    if i + 3 <= n + 1 {
      assert x[..n + 1] == parent + "/" == (root + "/")[..n + 1];
      assert x[i..i + 3] == (root + "/")[i..i + 3];
      assert !DotAt(root + "/", i);
    } else if i == n - 1 {
      assert x[i + 1] == '/';
    } else if i == n {
      if i + 2 < |x| {
        assert x[i + 2] == t[1];
      }
    } else {
      assert x[i] == t[i - n - 1];
    }
  }

  /** Under a canonical root parent + "/" + b, the first alternative never
      matches inside parent when the path begins with "../". */
  lemma NoParentMatchInParent(parent: string, b: string, t: string, k: nat)
    requires Canonical(parent + "/" + b) && |b| > 0
    requires forall j :: 0 <= j < |b| ==> IsSegmentChar(b[j])
    requires k < |parent|
    ensures ParentMatch(Join(parent + "/" + b, "../" + t), k) == 0
  {
    var root := parent + "/" + b;
    var s := Join(root, "../" + t);
    var n := |parent|;
    assert s[..|root| + 1] == root + "/";
    assert s[n] == '/';
    var e := RunEnd(s, k);
    if e + 4 <= |root| + 1 {
      assert s[e..e + 4] == (root + "/")[e..e + 4];
      assert !ParentAt(root + "/", e);
    } else {
      assert e == n && |b| == 1;
      assert s[n + 2] == '/';
    }
  }

  /** The scan keeps a rest t with no separator in it. */
  lemma TailKept(s: string, j: nat, t: string)
    requires j <= |s| && s[j..] == t
    requires forall k :: j <= k < |s| ==> s[k] != '/'
    ensures Collapse(s, j) == t
  {
    SlashFreeKept(s, j);
  }

  /** The scan from a separator followed by a segment and "/../": the
      separator is kept, the segment and "/../" dropped. */
  lemma ParentScan(s: string, n: nat, r: nat)
    requires n + 1 < r && r + 4 <= |s| && s[n] == '/'
    requires forall k :: n + 1 <= k < r ==> IsSegmentChar(s[k])
    requires s[r] == '/' && s[r + 1] == '.' && s[r + 2] == '.' && s[r + 3] == '/'
    ensures Collapse(s, n) == "/" + Collapse(s, r + 4)
  {
    var z := Collapse(s, n + 1);
    assert IsSegmentChar(s[n + 1]);
    SlashKept(s, n);
    assert Collapse(s, n) == "/" + z;
    SegmentDropped(s, n + 1, r);
  }

  /** The joined string for a root parent + "/" + b and the path
      "../" + t, position by position. */
  lemma ParentPathShape(parent: string, b: string, t: string)
    requires |b| > 0 && forall j :: 0 <= j < |b| ==> IsSegmentChar(b[j])
    requires forall j :: 0 <= j < |t| ==> t[j] != '/'
    ensures var s := Join(parent + "/" + b, "../" + t);
            var n := |parent|;
            var r := n + 1 + |b|;
            && |s| == r + 4 + |t| && s[..n] == parent && s[n] == '/'
            && (forall k :: n + 1 <= k < r ==> IsSegmentChar(s[k]))
            && s[r] == '/' && s[r + 1] == '.' && s[r + 2] == '.' && s[r + 3] == '/'
            && s[r + 4..] == t
            && (forall k :: r + 4 <= k < |s| ==> s[k] != '/')
  {
    var root := parent + "/" + b;
    var s := Join(root, "../" + t);
    var n := |parent|;
    var r := n + 1 + |b|;
    assert s == parent + "/" + b + "/../" + t;
    assert forall k :: n + 1 <= k < r ==> s[k] == b[k - n - 1];
    assert forall k :: r + 4 <= k < |s| ==> s[k] == t[k - r - 4];
  }

  /** Under a canonical root parent + "/" + b, the scan of the root joined
      with "../" + t keeps parent. */
  lemma ParentPrefixCollapsed(parent: string, b: string, t: string)
    requires Canonical(parent + "/" + b) && |b| > 0
    requires forall j :: 0 <= j < |b| ==> IsSegmentChar(b[j])
    ensures var s := Join(parent + "/" + b, "../" + t);
            |parent| < |s| && Collapse(s, 0) == parent + Collapse(s, |parent|)
  {
    var root := parent + "/" + b;
    var path := "../" + t;
    var s := Join(root, path);
    var n := |parent|;
    forall k | 0 <= k < n
      ensures ParentMatch(s, k) == 0 && !SlashMatch(s, k)
    {
      NoSlashMatchInRoot(root, path, k);
      NoParentMatchInParent(parent, b, t, k);
    }
    CollapseKeepsPrefix(s, 0, n);
    assert s[..|root|][..n] == s[0..n] == parent;
  }

  /** The scan from the separator after parent over a segment, "/../"
      and a rest t with no separator: the segment and "/../" are dropped. */
  lemma ParentHopDropped(s: string, n: nat, r: nat, t: string)
    requires n + 1 < r && r + 4 <= |s| && s[n] == '/'
    requires forall k :: n + 1 <= k < r ==> IsSegmentChar(s[k])
    requires s[r] == '/' && s[r + 1] == '.' && s[r + 2] == '.' && s[r + 3] == '/'
    requires s[r + 4..] == t && forall k :: r + 4 <= k < |s| ==> s[k] != '/'
    ensures Collapse(s, n) == "/" + t
  {
    ParentScan(s, n, r);
    TailKept(s, r + 4, t);
  }

  /** Under a canonical root parent + "/" + b whose last segment b holds
      only segment characters, the scan of the root joined with "../" + t,
      t with no separator, drops "b/../". */
  lemma ParentPathCollapsed(parent: string, b: string, t: string)
    requires Canonical(parent + "/" + b) && |b| > 0
    requires forall j :: 0 <= j < |b| ==> IsSegmentChar(b[j])
    requires forall j :: 0 <= j < |t| ==> t[j] != '/'
    ensures Collapse(Join(parent + "/" + b, "../" + t), 0) == parent + "/" + t
  {
    var s := Join(parent + "/" + b, "../" + t);
    ParentPathShape(parent, b, t);
    ParentPrefixCollapsed(parent, b, t);
    ParentHopDropped(s, |parent|, |parent| + 1 + |b|, t);
    Regroup(parent, "/", t);
  }

  /** ... and str_replace then leaves parent + "/" + t alone. */
  lemma ParentPathNormalised(parent: string, b: string, t: string)
    requires Canonical(parent + "/" + b) && |b| > 0
    requires forall j :: 0 <= j < |b| ==> IsSegmentChar(b[j])
    requires forall j :: 0 <= j < |t| ==> t[j] != '/'
    ensures ToRealPath(parent + "/" + b, "../" + t) == parent + "/" + t
  {
    var root := parent + "/" + b;
    var x := parent + "/" + t;
    ParentPathCollapsed(parent, b, t);
    assert root[..|parent| + 1] == parent + "/";
    forall i | 0 <= i < |x|
      ensures !DotAt(x, i)
    {
      NoDotSegmentAfterParent(root, parent, t, i);
    }
    ReplaceKeepsPrefix(x, 0, |x|);
    assert x[0..|x|] == x;
  }

  /** Under a canonical root parent + "/" + b whose last segment b holds
      only segment characters, "../" + t with no separator in t normalises
      to parent + "/" + t, so the path is refused unless t begins with b:
      "../foo.txt" is refused under a root whose last segment is not a
      prefix of "foo.txt". */
  lemma ParentPathRefused(parent: string, b: string, t: string)
    requires Canonical(parent + "/" + b) && |b| > 0
    requires forall j :: 0 <= j < |b| ==> IsSegmentChar(b[j])
    requires forall j :: 0 <= j < |t| ==> t[j] != '/'
    ensures ToRealPath(parent + "/" + b, "../" + t) == parent + "/" + t
    ensures InBoundary(parent + "/" + b, "../" + t).Ok? <==> StartsWith(b, t)
  {
    var root := parent + "/" + b;
    var x := parent + "/" + t;
    var n := |parent|;
    ParentPathNormalised(parent, b, t);
    assert root[..n + 1] == x[..n + 1];
    assert root[n + 1..] == b;
    if |b| <= |t| {
      assert x[n + 1..|root|] == t[..|b|];
      assert root[..|root|][n + 1..] == b;
    }
  }
}
