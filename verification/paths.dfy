/** `_get_safe_path` (server/handler.py): from an untrusted, percent-decoded URL path to
    a filesystem path inside the document root, or a PermissionError.
    Paths are POSIX paths: only `/` separates components; `\` is ordinary inside
    components, looked for by layers 1 and 2 and stripped when leading by layer 3. */
module Paths {
  import opened Common
  import opened Text

  /** An absolute path as its components below `/`, and whether its string form ends
      in a separator (a "directory-like" path). */
  datatype ResolvedPath = ResolvedPath(segs: seq<string>, dirLike: bool)

  /** Which layer raised PermissionError. */
  datatype Rejection = SuspiciousSequence | OutsideRoot

  /** A component that survives `os.path.normpath`. */
  predicate NormalSegment(x: string) {
    x != "" && x != "." && x != ".." && '/' !in x
  }

  predicate NormalSegments(p: seq<string>) {
    forall i | 0 <= i < |p| :: NormalSegment(p[i])
  }

  /** The string `"/" + "/".join(segs)` of an absolute path. The document root is
      given by its components; its string is `PathString(root)` (it went through
      `os.path.abspath` at startup, so it is normalised). */
  function PathString(segs: seq<string>): string {
    "/" + Join(segs, "/")
  }

  /** The string `_get_safe_path` returns: a directory-like path went through
      `os.path.join(abs_path, '')`, which adds a separator unless the path is `/`. */
  function Render(p: ResolvedPath): string {
    PathString(p.segs) + (if p.dirLike && p.segs != [] then "/" else "")
  }

  /** Layer 1: `.replace('../', '').replace('..\\', '')`. */
  function RemoveTraversal(s: string): string {
    ReplaceAll(ReplaceAll(s, "../", ""), "..\\", "")
  }

  /** Layer 2: what must not be left after layer 1. */
  predicate Suspicious(s: string) {
    Contains(s, "../") || Contains(s, "..\\") || Contains(s, "~") || Contains(s, "//")
  }

  /** `s.lstrip('/\\')`. */
  function StripLeadingSeparators(s: string): (r: string)
    ensures EndsWith(s, r)
    ensures r == [] || (r[0] != '/' && r[0] != '\\')
    ensures forall i | 0 <= i < |s| - |r| :: s[i] == '/' || s[i] == '\\'
    decreases |s|
  {
    if s != [] && (s[0] == '/' || s[0] == '\\') then
      var r := StripLeadingSeparators(s[1..]);
      assert s[1..][|s| - 1 - |r|..] == s[|s| - |r|..];
      assert forall i | 1 <= i < |s| - |r| :: s[i] == s[1..][i - 1];
      r
    else s
  }

  /** One turn of the loop of `posixpath.normpath` on an absolute path: empty and `.`
      components vanish, `..` drops the last kept component (and is dropped itself at
      `/`), anything else is kept. */
  function NormStep(stack: seq<string>, comp: string): seq<string> {
    if comp == "" || comp == "." then stack
    else if comp == ".." then (if stack == [] then [] else stack[..|stack| - 1])
    else stack + [comp]
  }

  function NormFold(stack: seq<string>, comps: seq<string>): seq<string>
    decreases |comps|
  {
    if comps == [] then stack else NormFold(NormStep(stack, comps[0]), comps[1..])
  }

  /** `os.path.normpath` (hence `os.path.abspath`) of the absolute path whose
      `/`-separated components are `comps`. */
  function NormPath(comps: seq<string>): seq<string> {
    NormFold([], comps)
  }

  /** `os.path.commonpath` of two absolute paths, as components. */
  function CommonPrefix(a: seq<string>, b: seq<string>): seq<string>
    decreases |a|
  {
    if a == [] || b == [] || a[0] != b[0] then [] else [a[0]] + CommonPrefix(a[1..], b[1..])
  }

  /** `_get_safe_path(requested)` against the document root `root`. Layer 3 joins the
      stripped path onto the root and normalises the result; layer 4 compares the
      string of the common path with the root's string. */
  function GetSafePath(root: seq<string>, requested: string): Result<ResolvedPath, Rejection>
    requires NormalSegments(root)
  {
    var isDir := EndsWith(requested, "/");
    var sanitized := RemoveTraversal(requested);
    if Suspicious(sanitized) then Err(SuspiciousSequence)
    else
      var absSegs := NormPath(root + Split(StripLeadingSeparators(sanitized), '/'));
      if PathString(CommonPrefix(absSegs, root)) != PathString(root) then Err(OutsideRoot)
      else Ok(ResolvedPath(absSegs, isDir))
  }

  /** The components layer 3 produces for `requested`. */
  function Joined(root: seq<string>, requested: string): seq<string> {
    NormPath(root + Split(StripLeadingSeparators(RemoveTraversal(requested)), '/'))
  }

  // ---------------------------------------------------------------------------
  // Normalisation

  lemma {:induction false} NormFoldAppend(stack: seq<string>, a: seq<string>, b: seq<string>)
    ensures NormFold(stack, a + b) == NormFold(NormFold(stack, a), b)
    decreases |a|
  {
    if a == [] {
      assert a + b == b;
    } else {
      assert (a + b)[1..] == a[1..] + b;
      NormFoldAppend(NormStep(stack, a[0]), a[1..], b);
    }
  }

  /** Normal components are pushed one by one. */
  lemma {:induction false} NormFoldNormal(stack: seq<string>, comps: seq<string>)
    requires NormalSegments(comps)
    ensures NormFold(stack, comps) == stack + comps
    decreases |comps|
  {
    if comps != [] {
      NormFoldNormal(stack + [comps[0]], comps[1..]);
      assert stack + [comps[0]] + comps[1..] == stack + comps;
    }
  }

  /** Normalising never produces an empty, `.`, `..` or separator-holding component. */
  lemma {:induction false} NormFoldKeepsNormal(stack: seq<string>, comps: seq<string>)
    requires NormalSegments(stack)
    requires forall i | 0 <= i < |comps| :: '/' !in comps[i]
    ensures NormalSegments(NormFold(stack, comps))
    decreases |comps|
  {
    if comps != [] {
      NormFoldKeepsNormal(NormStep(stack, comps[0]), comps[1..]);
    }
  }

  /** Layer 3's `os.path.join(root, tail)` for a `tail` that no longer starts with a
      separator: the root's string, a separator unless the root is `/`, then `tail`.
      Its components are the root's followed by the pieces of `tail` between
      separators, which is how `Joined` builds them. */
  lemma JoinComponents(root: seq<string>, tail: string)
    requires NormalSegments(root)
    ensures "/" + Join(root + [tail], "/") == (if root == [] then "/" else PathString(root) + "/") + tail
    ensures Split(Join(root + [tail], "/"), '/') == root + Split(tail, '/')
  {
    if root == [] {
      assert root + [tail] == [tail];
    } else {
      JoinSnoc(root, tail);
    }
    SplitJoined(root, tail);
  }

  lemma {:induction false} JoinSnoc(parts: seq<string>, last: string)
    requires parts != []
    ensures Join(parts + [last], "/") == Join(parts, "/") + "/" + last
    decreases |parts|
  {
    var rest := parts[1..];
    assert (parts + [last])[1..] == rest + [last];
    if rest != [] {
      JoinSnoc(rest, last);
    }
  }

  lemma {:induction false} SplitJoined(root: seq<string>, tail: string)
    requires NormalSegments(root)
    ensures Split(Join(root + [tail], "/"), '/') == root + Split(tail, '/')
    decreases |root|
  {
    if root == [] {
      assert root + [tail] == [tail];
    } else {
      var rest := root[1..];
      assert (root + [tail])[1..] == rest + [tail];
      assert NormalSegments(rest) by {
        assert forall i | 0 <= i < |rest| :: rest[i] == root[i + 1];
      }
      SplitJoined(rest, tail);
      var j := Join(rest + [tail], "/");
      assert Join(root + [tail], "/") == root[0] + ['/'] + j;
      SplitBehindWord(root[0], j, rest, Split(tail, '/'));
      assert [root[0]] + rest == root;
    }
  }

  lemma SplitBehindWord(w: string, j: string, front: seq<string>, back: seq<string>)
    requires '/' !in w && Split(j, '/') == front + back
    ensures Split(w + ['/'] + j, '/') == [w] + front + back
  {
    SplitAfterWord(w, '/', j);
  }

  /** Joining onto a normalised root and normalising is folding from the root. */
  lemma JoinedFromRoot(root: seq<string>, requested: string)
    requires NormalSegments(root)
    ensures Joined(root, requested)
         == NormFold(root, Split(StripLeadingSeparators(RemoveTraversal(requested)), '/'))
    ensures NormalSegments(Joined(root, requested))
  {
    var comps := Split(StripLeadingSeparators(RemoveTraversal(requested)), '/');
    NormFoldAppend([], root, comps);
    NormFoldNormal([], root);
    assert [] + root == root;
    SplitPieces(StripLeadingSeparators(RemoveTraversal(requested)), '/');
    NormFoldKeepsNormal(root, comps);
  }

  // ---------------------------------------------------------------------------
  // The containment check

  lemma {:induction false} CommonPrefixIsPrefix(a: seq<string>, b: seq<string>)
    ensures StartsWith(b, CommonPrefix(a, b)) && StartsWith(a, CommonPrefix(a, b))
    decreases |a|
  {
    if !(a == [] || b == [] || a[0] != b[0]) {
      CommonPrefixIsPrefix(a[1..], b[1..]);
    }
  }

  /** The common path of a path and the root is the root exactly when the root is a
      prefix of the path. */
  lemma {:induction false} CommonPrefixRoot(a: seq<string>, root: seq<string>)
    ensures CommonPrefix(a, root) == root <==> StartsWith(a, root)
    decreases |a|
  {
    if a == [] || root == [] || a[0] != root[0] {
    } else {
      CommonPrefixRoot(a[1..], root[1..]);
      assert root == [root[0]] + root[1..];
      assert StartsWith(a, root) <==> StartsWith(a[1..], root[1..]) by {
        if |root| <= |a| {
          assert a[..|root|] == [a[0]] + a[1..][..|root| - 1];
        }
      }
    }
  }

  /** The text before the first `/`. */
  function UntilSlash(s: string): string {
    if s == [] || s[0] == '/' then [] else [s[0]] + UntilSlash(s[1..])
  }

  lemma {:induction false} UntilSlashStops(x: string, rest: string)
    requires '/' !in x
    requires rest == [] || rest[0] == '/'
    ensures UntilSlash(x + rest) == x
  {
    if x == [] {
      assert x + rest == rest;
    } else {
      assert (x + rest)[1..] == x[1..] + rest;
      UntilSlashStops(x[1..], rest);
    }
  }

  /** A join of normal components is empty only when there are none; otherwise its
      first component is the text up to the first separator, and it is nothing more
      exactly when there is one component. */
  lemma JoinShape(a: seq<string>)
    requires NormalSegments(a)
    ensures Join(a, "/") == [] <==> a == []
    ensures a != [] ==> UntilSlash(Join(a, "/")) == a[0]
    ensures a != [] ==> (|a| == 1 <==> |Join(a, "/")| == |a[0]|)
    ensures |a| > 1 ==> Join(a, "/") == a[0] + "/" + Join(a[1..], "/")
  {
    if |a| == 1 {
      UntilSlashStops(a[0], []);
      assert a[0] + [] == a[0];
    } else if |a| > 1 {
      UntilSlashStops(a[0], "/" + Join(a[1..], "/"));
      assert a[0] + "/" + Join(a[1..], "/") == a[0] + ("/" + Join(a[1..], "/"));
    }
  }

  /** A `/`-joined sequence of normal components determines its components. */
  lemma {:induction false} JoinInjective(a: seq<string>, b: seq<string>)
    requires NormalSegments(a) && NormalSegments(b)
    requires Join(a, "/") == Join(b, "/")
    ensures a == b
    decreases |a|
  {
    JoinShape(a);
    JoinShape(b);
    if a != [] {
      var s := Join(a, "/");
      assert a[0] == UntilSlash(s) == b[0];
      if |a| > 1 {
        assert s == a[0] + "/" + Join(a[1..], "/") == b[0] + "/" + Join(b[1..], "/");
        assert Join(a[1..], "/") == s[|a[0]| + 1..] == Join(b[1..], "/");
        JoinInjective(a[1..], b[1..]);
        assert a == [a[0]] + a[1..] && b == [b[0]] + b[1..];
      }
    }
  }

  lemma PathStringInjective(a: seq<string>, b: seq<string>)
    requires NormalSegments(a) && NormalSegments(b)
    requires PathString(a) == PathString(b)
    ensures a == b
  {
    assert Join(a, "/") == PathString(a)[1..];
    assert Join(b, "/") == PathString(b)[1..];
    JoinInjective(a, b);
  }

  // ---------------------------------------------------------------------------
  // What the sanitiser promises

  /** Exactly which requests are served and what they resolve to: a request whose
      layer-1 result still holds a suspicious sequence is rejected by layer 2; any
      other is accepted exactly when normalising it onto the root stays at or below
      the root, and then resolves to that normalised path, directory-like exactly when
      the request ends in `/`. */
  lemma SafePathExact(root: seq<string>, requested: string)
    requires NormalSegments(root)
    ensures Suspicious(RemoveTraversal(requested))
            ==> GetSafePath(root, requested) == Err(SuspiciousSequence)
    ensures !Suspicious(RemoveTraversal(requested))
            ==> (GetSafePath(root, requested).Ok? <==> StartsWith(Joined(root, requested), root))
    ensures GetSafePath(root, requested).Ok?
            ==> GetSafePath(root, requested).value
                == ResolvedPath(Joined(root, requested), EndsWith(requested, "/"))
  {
    var abs := Joined(root, requested);
    if !Suspicious(RemoveTraversal(requested)) {
      CommonPrefixRoot(abs, root);
      CommonPrefixIsPrefix(abs, root);
      var common := CommonPrefix(abs, root);
      assert NormalSegments(common) by {
        assert forall i | 0 <= i < |common| :: common[i] == root[i];
      }
      if PathString(common) == PathString(root) {
        PathStringInjective(common, root);
      }
    }
  }

  /** The headline promise: whatever the request, a path the sanitiser returns is the
      document root or lies below it, and is made of normal components only (no `..`,
      `.` or empty component survives). */
  lemma SafePathContained(root: seq<string>, requested: string)
    requires NormalSegments(root)
    ensures GetSafePath(root, requested).Ok? ==>
              StartsWith(GetSafePath(root, requested).value.segs, root)
              && NormalSegments(GetSafePath(root, requested).value.segs)
  {
    SafePathExact(root, requested);
    JoinedFromRoot(root, requested);
  }

  /** A `~` anywhere in the request is never removed by layer 1, so it is always
      rejected. */
  lemma TildeRejected(root: seq<string>, requested: string)
    requires NormalSegments(root)
    requires '~' in requested
    ensures GetSafePath(root, requested) == Err(SuspiciousSequence)
  {
    var once := ReplaceAll(requested, "../", "");
    RemoveKeeps(requested, "../", '~');
    RemoveKeeps(once, "..\\", '~');
    ContainsSingle(RemoveTraversal(requested), '~');
  }

  /** `/` resolves to the document root itself, directory-like; its string is the
      root's string followed by a separator. */
  lemma SlashIsRootDirectory(root: seq<string>)
    requires NormalSegments(root)
    ensures GetSafePath(root, "/") == Ok(ResolvedPath(root, true))
    ensures EndsWith(Render(ResolvedPath(root, true)), "/")
  {
    assert ReplaceAll("/", "../", "") == "/";
    assert ReplaceAll("/", "..\\", "") == "/";
    ContainsShort("/", "../");
    ContainsShort("/", "..\\");
    ContainsShort("/", "//");
    ContainsSingle("/", '~');
    assert StripLeadingSeparators("/") == "";
    assert Split("", '/') == [""];
    NormFoldAppend([], root, [""]);
    NormFoldNormal([], root);
    assert [] + root == root;
    CommonPrefixRoot(root, root);
  }

  /** The empty path resolves to the document root, not marked directory-like. */
  lemma EmptyIsRoot(root: seq<string>)
    requires NormalSegments(root)
    ensures GetSafePath(root, "") == Ok(ResolvedPath(root, false))
  {
    assert !Suspicious("");
    assert Split("", '/') == [""];
    NormFoldAppend([], root, [""]);
    NormFoldNormal([], root);
    assert [] + root == root;
    CommonPrefixRoot(root, root);
  }

  /** `..` passes layers 1 and 2 untouched; it is layer 4 that rejects it, below any
      root other than `/`. */
  lemma DotDotRejectedByContainment(root: seq<string>)
    requires NormalSegments(root) && root != []
    ensures GetSafePath(root, "..") == Err(OutsideRoot)
    ensures GetSafePath(root, "/..") == Err(OutsideRoot)
  {
    DotDotPassesLayers();
    SlashDotDotPassesLayers();
    ParentOfRootRejected(root, "..");
    ParentOfRootRejected(root, "/..");
  }

  /** Layers 1 and 2 leave `..` alone. */
  lemma DotDotPassesLayers()
    ensures RemoveTraversal("..") == ".." && !Suspicious("..")
    ensures StripLeadingSeparators("..") == ".."
  {
    var req := "..";
    ContainsShort(req, "../");
    ContainsShort(req, "..\\");
    ReplaceAbsent(req, "../", "");
    ReplaceAbsent(req, "..\\", "");
    ContainsNeedsHead(req, "~");
    ContainsNeedsHead(req, "//");
  }

  /** Layers 1 and 2 leave `/..` alone, and stripping leaves `..`. */
  lemma SlashDotDotPassesLayers()
    ensures RemoveTraversal("/..") == "/.." && !Suspicious("/..")
    ensures StripLeadingSeparators("/..") == ".."
  {
    var req := "/..";
    assert req[1..] == "..";
    ContainsShort(req[1..], "../");
    ContainsShort(req[1..], "..\\");
    ContainsNeedsHead(req[1..], "//");
    assert !StartsWith(req, "../") && !StartsWith(req, "..\\") && !StartsWith(req, "//");
    ReplaceAbsent(req, "../", "");
    ReplaceAbsent(req, "..\\", "");
    ContainsNeedsHead(req, "~");
  }

  lemma SplitDotDot()
    ensures Split("..", '/') == [".."]
  {
    SplitWithoutSeparator("..", '/');
  }

  /** A request that reaches layer 3 as `..` names the parent of the root, which
      layer 4 rejects. */
  lemma ParentOfRootRejected(root: seq<string>, req: string)
    requires NormalSegments(root) && root != []
    requires !Suspicious(RemoveTraversal(req)) && StripLeadingSeparators(RemoveTraversal(req)) == ".."
    ensures GetSafePath(root, req) == Err(OutsideRoot)
  {
    SplitDotDot();
    assert NormFold(root, [".."]) == root[..|root| - 1] by {
      assert NormFold(root[..|root| - 1], []) == root[..|root| - 1];
    }
    JoinedFromRoot(root, req);
    SafePathExact(root, req);
  }

  /** Overlapping sequences are not fixed by layer 1: removing `../` from `....//`
      leaves `../`, which layer 2 rejects. */
  lemma OverlappingTraversalRejected(root: seq<string>)
    requires NormalSegments(root)
    ensures RemoveTraversal("....//") == "../"
    ensures GetSafePath(root, "....//") == Err(SuspiciousSequence)
  {
    OverlappingTraversalRemoved();
    assert Contains("../", "../");
    SafePathExact(root, "....//");
  }

  lemma OverlappingTraversalRemoved()
    ensures RemoveTraversal("....//") == "../"
  {
    var s := "....//";
    assert s[1..] == "...//" && s[2..] == "..//" && s[5..] == "/";
    assert ReplaceAll("/", "../", "") == "/";
    assert ReplaceAll(s[2..], "../", "") == "/" by {
      assert s[2..][..3] == "../";
      assert s[2..][3..] == "/";
    }
    assert ReplaceAll(s[1..], "../", "") == "./";
    assert ReplaceAll(s, "../", "") == "../";
    assert ReplaceAll("../", "..\\", "") == "../" by {
      assert "../"[1..] == "./" && "./"[1..] == "/";
    }
  }

  /** A joined path ends with its last component. */
  lemma {:induction false} JoinEndsWithLast(parts: seq<string>)
    requires parts != []
    ensures EndsWith(Join(parts, "/"), parts[|parts| - 1])
    decreases |parts|
  {
    if |parts| > 1 {
      var last := parts[|parts| - 1];
      assert parts[1..][|parts[1..]| - 1] == last;
      JoinEndsWithLast(parts[1..]);
      var j := Join(parts[1..], "/");
      var whole := parts[0] + "/" + j;
      assert Join(parts, "/") == whole;
      assert whole[|whole| - |last|..] == j[|j| - |last|..];
    }
  }

  /** The string `_get_safe_path` returns ends with a separator exactly when the
      request did, or when it is `/` itself. */
  lemma RenderEndsWithSlash(p: ResolvedPath)
    requires NormalSegments(p.segs)
    ensures EndsWith(Render(p), "/") <==> p.dirLike || p.segs == []
  {
    if p.segs != [] {
      var last := p.segs[|p.segs| - 1];
      assert NormalSegment(last);
      JoinEndsWithLast(p.segs);
      var s := PathString(p.segs);
      assert s[|s| - 1] == last[|last| - 1];
      assert last[|last| - 1] in last;
      if p.dirLike {
        assert Render(p) == s + "/";
      } else {
        assert Render(p) == s;
      }
    } else {
      assert Render(p) == "/";
    }
  }
}
