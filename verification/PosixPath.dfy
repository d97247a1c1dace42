/** POSIX path algebra: normalisation is a canonical form for "the directory a path leads to". */
module PosixPath {
  import opened Options

  // ---------------------------------------------------------------------------
  // What a path means: a walk through directories
  // ---------------------------------------------------------------------------

  /** The parts between slashes: non-empty and slash-free. */
  predicate IsComponent(s: string) {
    s != "" && '/' !in s
  }

  /** A component that names an entry of a directory. */
  predicate IsName(s: string) {
    IsComponent(s) && s != "." && s != ".."
  }

  /** A directory is the list of names that leads to it from the root. */
  type Directory = seq<string>

  ghost predicate IsDirectory(d: Directory) {
    forall i :: 0 <= i < |d| ==> IsName(d[i])
  }

  function Flush(parts: seq<string>, current: string): seq<string> {
    if current == "" then parts else parts + [current]
  }

  /** The components of `current + p`, where `current` is the part being read. */
  function Parts(current: string, p: string): seq<string>
    decreases |p|
  {
    if p == "" then Flush([], current)
    else if p[0] == '/' then Flush([], current) + Parts("", p[1..])
    else Parts(current + [p[0]], p[1..])
  }

  function Components(p: string): seq<string> {
    Parts("", p)
  }

  predicate IsAbsolute(p: string) {
    p != "" && p[0] == '/'
  }

  predicate EndsInSlash(p: string) {
    p != "" && p[|p| - 1] == '/'
  }

  /** One `cd`; the root is its own parent. */
  function Cd(d: Directory, part: string): Directory {
    if part == "." then d
    else if part == ".." then (if d == [] then d else d[..|d| - 1])
    else d + [part]
  }

  function Walk(d: Directory, parts: seq<string>): Directory
    decreases |parts|
  {
    if parts == [] then d else Cd(Walk(d, parts[..|parts| - 1]), parts[|parts| - 1])
  }

  /** The directory that `p` leads to when the current directory is `d`. */
  function Denote(p: string, d: Directory): Directory {
    Walk(if IsAbsolute(p) then [] else d, Components(p))
  }

  ghost predicate SameDirectory(p: string, q: string) {
    forall d: Directory | IsDirectory(d) :: Denote(p, d) == Denote(q, d)
  }

  // ---------------------------------------------------------------------------
  // Normalisation
  // ---------------------------------------------------------------------------

  function Push(absolute: bool, stack: seq<string>, part: string): seq<string> {
    if part == "." then stack
    else if part == ".." then
      if stack != [] && stack[|stack| - 1] != ".." then stack[..|stack| - 1]
      else if !absolute then stack + [".."]
      else stack
    else stack + [part]
  }

  function Reduce(absolute: bool, stack: seq<string>, parts: seq<string>): seq<string>
    decreases |parts|
  {
    if parts == [] then stack else Reduce(absolute, Push(absolute, stack, parts[0]), parts[1..])
  }

  function Join(parts: seq<string>): string {
    if parts == [] then ""
    else if |parts| == 1 then parts[0]
    else parts[0] + "/" + Join(parts[1..])
  }

  function Render(absolute: bool, stack: seq<string>, trailing: bool): string {
    var body := (if absolute then "/" else "") + Join(stack);
    var shown := if body == "" then "." else body;
    if trailing && shown != "/" && stack != [] then shown + "/" else shown
  }

  function Stack(p: string): seq<string> {
    Reduce(IsAbsolute(p), [], Components(p))
  }

  function Normalized(p: string): string {
    Render(IsAbsolute(p), Stack(p), EndsInSlash(p))
  }

  method JoinPath(parts: seq<string>) returns (result: string)
    ensures result == Join(parts)
  {
    result := "";
    for i := 0 to |parts|
      invariant result == Join(parts[..i])
    {
      JoinSnoc(parts[..i], parts[i]);
      assert parts[..i + 1] == parts[..i] + [parts[i]];
      if i > 0 {
        result := result + "/";
      }
      result := result + parts[i];
    }
    assert parts[..|parts|] == parts;
  }

  method SplitComponents(path: string) returns (parts: seq<string>)
    ensures parts == Components(path)
  {
    parts := [];
    var current: string := "";
    assert path[0..] == path;
    for i := 0 to |path|
      invariant Components(path) == parts + Parts(current, path[i..])
    {
      var c := path[i];
      assert path[i..][1..] == path[i + 1..];
      if c == '/' {
        if current != "" {
          parts := parts + [current];
          current := "";
        }
      } else {
        current := current + [c];
      }
    }
    if current != "" {
      parts := parts + [current];
    }
  }

  method ReduceComponents(isAbsolute: bool, parts: seq<string>) returns (stack: seq<string>)
    ensures stack == Reduce(isAbsolute, [], parts)
  {
    stack := [];
    for i := 0 to |parts|
      invariant Reduce(isAbsolute, [], parts) == Reduce(isAbsolute, stack, parts[i..])
    {
      var part := parts[i];
      assert parts[i..][1..] == parts[i + 1..];
      if part == "." {
        continue;
      }
      if part == ".." {
        if stack != [] && stack[|stack| - 1] != ".." {
          stack := stack[..|stack| - 1];
        } else if !isAbsolute {
          stack := stack + [".."];
        }
      } else {
        stack := stack + [part];
      }
    }
  }

  method NormalizePosixString(path: string) returns (result: string)
    ensures result == Normalized(path)
  {
    if path == "" {
      return ".";
    }
    var isAbsolute := path[0] == '/';
    var trailingSlash := path[|path| - 1] == '/';
    var parts := SplitComponents(path);
    var stack := ReduceComponents(isAbsolute, parts);

    result := if isAbsolute then "/" else "";
    var joined := JoinPath(stack);
    result := result + joined;
    if result == "" && !isAbsolute {
      result := ".";
    }
    if trailingSlash && result != "/" && result != "" && |stack| > 0 {
      result := result + "/";
    }
  }

  // ---------------------------------------------------------------------------
  // Splitting and joining
  // ---------------------------------------------------------------------------

  lemma {:induction false} PartsOfSlashFree(current: string, s: string)
    requires '/' !in s
    ensures Parts(current, s) == Flush([], current + s)
    decreases |s|
  {
    if s == "" {
      assert current + s == current;
    } else {
      PartsOfSlashFree(current + [s[0]], s[1..]);
      assert (current + [s[0]]) + s[1..] == current + s;
    }
  }

  lemma ComponentsOfSlashFree(s: string)
    requires '/' !in s
    ensures Components(s) == if s == "" then [] else [s]
  {
    PartsOfSlashFree("", s);
    assert "" + s == s;
  }

  lemma {:induction false} PartsSplit(current: string, a: string, b: string)
    ensures Parts(current, a + "/" + b) == Parts(current, a) + Components(b)
    decreases |a|
  {
    var whole := a + "/" + b;
    if a == "" {
      assert whole[1..] == b;
    } else {
      assert whole[1..] == a[1..] + "/" + b;
      PartsSplit(if a[0] == '/' then "" else current + [a[0]], a[1..], b);
    }
  }

  lemma ComponentsSplit(a: string, b: string)
    ensures Components(a + "/" + b) == Components(a) + Components(b)
  {
    PartsSplit("", a, b);
  }

  lemma {:induction false} PartsAreComponents(current: string, p: string)
    requires '/' !in current
    ensures AllComponents(Parts(current, p))
    decreases |p|
  {
    if p == "" {
    } else {
      PartsAreComponents(if p[0] == '/' then "" else current + [p[0]], p[1..]);
    }
  }

  lemma {:induction false} JoinSnoc(parts: seq<string>, last: string)
    ensures Join(parts + [last]) == (if parts == [] then last else Join(parts) + "/" + last)
    decreases |parts|
  {
    if parts == [] {
    } else {
      assert (parts + [last])[1..] == parts[1..] + [last];
      JoinSnoc(parts[1..], last);
    }
  }

  ghost predicate AllComponents(parts: seq<string>) {
    forall i :: 0 <= i < |parts| ==> IsComponent(parts[i])
  }

  /** Splitting is the inverse of joining. */
  lemma {:induction false} ComponentsOfJoin(parts: seq<string>)
    requires AllComponents(parts)
    ensures Components(Join(parts)) == parts
    decreases |parts|
  {
    if parts == [] {
    } else if |parts| == 1 {
      ComponentsOfSlashFree(parts[0]);
    } else {
      ComponentsSplit(parts[0], Join(parts[1..]));
      ComponentsOfSlashFree(parts[0]);
      ComponentsOfJoin(parts[1..]);
    }
  }

  lemma JoinShape(parts: seq<string>)
    requires AllComponents(parts) && parts != []
    ensures Join(parts) != "" && Join(parts)[0] != '/' && Join(parts)[|Join(parts)| - 1] != '/'
    decreases |parts|
  {
    assert IsComponent(parts[0]);
    assert parts[0][0] in parts[0];
    if |parts| == 1 {
      assert parts[0][|parts[0]| - 1] in parts[0];
    } else {
      JoinShape(parts[1..]);
    }
  }

  /** Slashes at either end carry no component. */
  lemma ComponentsOfSlashed(s: string)
    ensures Components("/" + s) == Components(s)
    ensures Components(s + "/") == Components(s)
  {
    ComponentsSplit("", s);
    assert "" + "/" + s == "/" + s;
    ComponentsSplit(s, "");
    assert s + "/" + "" == s + "/";
  }

  lemma RenderOfNonEmpty(absolute: bool, stack: seq<string>, trailing: bool)
    requires AllComponents(stack) && stack != []
    ensures Render(absolute, stack, trailing) == Slashed(absolute, Join(stack), trailing)
  {
    JoinShape(stack);
    var j := Join(stack);
    var body := (if absolute then "/" else "") + j;
    assert |body| == (if absolute then 1 else 0) + |j|;
    assert !absolute ==> body[0] == j[0];
    assert body + "" == body;
  }

  /** A string with a slash put in front or at the end, or not. */
  function Slashed(before: bool, s: string, after: bool): string {
    (if before then "/" else "") + s + (if after then "/" else "")
  }

  lemma SlashedEnds(before: bool, s: string, after: bool)
    requires s != "" && s[0] != '/' && s[|s| - 1] != '/'
    ensures IsAbsolute(Slashed(before, s, after)) == before
    ensures EndsInSlash(Slashed(before, s, after)) == after
  {
  }

  lemma SlashedComponents(before: bool, s: string, after: bool)
    ensures Components(Slashed(before, s, after)) == Components(s)
  {
    var body := (if before then "/" else "") + s;
    if before {
      ComponentsOfSlashed(s);
    } else {
      assert body == s;
    }
    if after {
      ComponentsOfSlashed(body);
    } else {
      assert Slashed(before, s, after) == body;
    }
  }

  lemma NonEmptyRenderReadBack(absolute: bool, stack: seq<string>, trailing: bool)
    requires AllComponents(stack) && stack != []
    ensures IsAbsolute(Render(absolute, stack, trailing)) == absolute
    ensures Components(Render(absolute, stack, trailing)) == stack
    ensures EndsInSlash(Render(absolute, stack, trailing)) == trailing
  {
    JoinShape(stack);
    ComponentsOfJoin(stack);
    RenderOfNonEmpty(absolute, stack, trailing);
    SlashedEnds(absolute, Join(stack), trailing);
    SlashedComponents(absolute, Join(stack), trailing);
  }

  /** What can be read back from a rendered stack. */
  lemma RenderReadBack(absolute: bool, stack: seq<string>, trailing: bool)
    requires AllComponents(stack)
    ensures IsAbsolute(Render(absolute, stack, trailing)) == absolute
    ensures Components(Render(absolute, stack, trailing)) == if stack == [] && !absolute then ["."] else stack
    ensures stack != [] ==> EndsInSlash(Render(absolute, stack, trailing)) == trailing
  {
    if stack == [] {
      ComponentsOfSlashFree(".");
      ComponentsOfSlashed("");
      assert "/" + "" == "/" && "" + "" == "";
    } else {
      NonEmptyRenderReadBack(absolute, stack, trailing);
    }
  }

  // ---------------------------------------------------------------------------
  // Stacks in normal form
  // ---------------------------------------------------------------------------

  /** "." never occurs, ".." only in front, and never in an absolute stack. */
  ghost predicate Normal(absolute: bool, stack: seq<string>) {
    && AllComponents(stack)
    && (forall i :: 0 <= i < |stack| ==> stack[i] != ".")
    && (forall i, j :: 0 <= i < j < |stack| && stack[j] == ".." ==> stack[i] == "..")
    && (absolute ==> forall i :: 0 <= i < |stack| ==> stack[i] != "..")
  }

  lemma WalkAppend(d: Directory, a: seq<string>, b: seq<string>)
    ensures Walk(d, a + b) == Walk(Walk(d, a), b)
    decreases |b|
  {
    if b == [] {
      assert a + b == a;
    } else {
      assert (a + b)[..|a + b| - 1] == a + b[..|b| - 1];
      WalkAppend(d, a, b[..|b| - 1]);
    }
  }

  lemma PushKeepsNormal(absolute: bool, stack: seq<string>, part: string)
    requires Normal(absolute, stack) && IsComponent(part)
    ensures Normal(absolute, Push(absolute, stack, part))
  {
  }

  lemma WalkSnoc(d: Directory, front: seq<string>, last: string)
    ensures Walk(d, front + [last]) == Cd(Walk(d, front), last)
  {
    assert (front + [last])[..|front|] == front;
  }

  /** One step of the reduction is one `cd`. */
  lemma PushIsCd(absolute: bool, d: Directory, stack: seq<string>, part: string)
    requires Normal(absolute, stack) && IsComponent(part)
    requires absolute ==> d == []
    ensures Walk(d, Push(absolute, stack, part)) == Cd(Walk(d, stack), part)
  {
    WalkSnoc(d, stack, part);
    if part == ".." && stack != [] {
      var front, last := stack[..|stack| - 1], stack[|stack| - 1];
      WalkSnoc(d, front, last);
      assert stack == front + [last];
    }
  }

  lemma {:induction false} ReduceIsWalk(absolute: bool, d: Directory, stack: seq<string>, parts: seq<string>)
    requires Normal(absolute, stack) && AllComponents(parts)
    requires absolute ==> d == []
    ensures Normal(absolute, Reduce(absolute, stack, parts))
    ensures Walk(d, Reduce(absolute, stack, parts)) == Walk(Walk(d, stack), parts)
    decreases |parts|
  {
    if parts == [] {
    } else {
      PushKeepsNormal(absolute, stack, parts[0]);
      PushIsCd(absolute, d, stack, parts[0]);
      ReduceIsWalk(absolute, d, Push(absolute, stack, parts[0]), parts[1..]);
      WalkAppend(Walk(d, stack), [parts[0]], parts[1..]);
      assert [parts[0]] + parts[1..] == parts;
      WalkSnoc(Walk(d, stack), [], parts[0]);
      assert [] + [parts[0]] == [parts[0]];
    }
  }

  lemma {:induction false} ReduceAppend(absolute: bool, stack: seq<string>, a: seq<string>, b: seq<string>)
    ensures Reduce(absolute, stack, a + b) == Reduce(absolute, Reduce(absolute, stack, a), b)
    decreases |a|
  {
    if a == [] {
      assert a + b == b;
    } else {
      assert (a + b)[1..] == a[1..] + b;
      ReduceAppend(absolute, Push(absolute, stack, a[0]), a[1..], b);
    }
  }

  /** A stack in normal form is left alone. */
  lemma {:induction false} ReduceOfNormal(absolute: bool, stack: seq<string>, parts: seq<string>)
    requires Normal(absolute, stack + parts)
    ensures Reduce(absolute, stack, parts) == stack + parts
    decreases |parts|
  {
    if parts == [] {
    } else {
      assert stack + parts == (stack + [parts[0]]) + parts[1..];
      assert (stack + parts)[|stack|] == parts[0];
      if stack != [] {
        assert (stack + parts)[|stack| - 1] == stack[|stack| - 1];
      }
      ReduceOfNormal(absolute, stack + [parts[0]], parts[1..]);
    }
  }

  lemma StackIsNormal(p: string)
    ensures Normal(IsAbsolute(p), Stack(p))
  {
    PartsAreComponents("", p);
    ReduceIsWalk(IsAbsolute(p), [], [], Components(p));
  }

  /** Reading a rendered normal stack back and reducing it gives the same stack. */
  lemma NormalizedReadBack(p: string)
    ensures IsAbsolute(Normalized(p)) == IsAbsolute(p)
    ensures Stack(Normalized(p)) == Stack(p)
    ensures Stack(p) != [] ==> EndsInSlash(Normalized(p)) == EndsInSlash(p)
  {
    StackIsNormal(p);
    RenderReadBack(IsAbsolute(p), Stack(p), EndsInSlash(p));
    assert [] + Stack(p) == Stack(p);
    ReduceOfNormal(IsAbsolute(p), [], Stack(p));
  }

  // ---------------------------------------------------------------------------
  // Main results on normalisation
  // ---------------------------------------------------------------------------

  lemma DenoteIsWalkOfStack(p: string, d: Directory)
    ensures Denote(p, d) == Walk(if IsAbsolute(p) then [] else d, Stack(p))
  {
    PartsAreComponents("", p);
    ReduceIsWalk(IsAbsolute(p), if IsAbsolute(p) then [] else d, [], Components(p));
  }

  /** Normalising does not change where a path leads. */
  lemma NormalizationPreservesMeaning(p: string, d: Directory)
    ensures Denote(Normalized(p), d) == Denote(p, d)
  {
    DenoteIsWalkOfStack(p, d);
    DenoteIsWalkOfStack(Normalized(p), d);
    NormalizedReadBack(p);
  }

  lemma NormalizationIsIdempotent(p: string)
    ensures Normalized(Normalized(p)) == Normalized(p)
  {
    NormalizedReadBack(p);
  }

  /** How many ".." lead a stack. */
  ghost function Ups(stack: seq<string>): (k: nat)
    ensures k <= |stack|
    ensures forall i :: 0 <= i < k ==> stack[i] == ".."
    ensures k < |stack| ==> stack[k] != ".."
  {
    if stack == [] || stack[0] != ".." then 0 else 1 + Ups(stack[1..])
  }

  /** Climbing `k` levels stops at the root. */
  ghost function Climb(d: Directory, k: nat): Directory {
    d[..if |d| < k then 0 else |d| - k]
  }

  lemma {:induction false} WalkUps(d: Directory, ups: seq<string>)
    requires forall i :: 0 <= i < |ups| ==> ups[i] == ".."
    ensures Walk(d, ups) == Climb(d, |ups|)
    decreases |ups|
  {
    if ups != [] {
      WalkUps(d, ups[..|ups| - 1]);
    } else {
      assert d[..|d|] == d;
    }
  }

  lemma {:induction false} WalkNames(d: Directory, names: seq<string>)
    requires forall i :: 0 <= i < |names| ==> names[i] != "." && names[i] != ".."
    ensures Walk(d, names) == d + names
    decreases |names|
  {
    if names == [] {
    } else {
      WalkNames(d, names[..|names| - 1]);
    }
  }

  /** A normal stack climbs `Ups` levels and then descends through names. */
  lemma WalkOfNormal(absolute: bool, d: Directory, stack: seq<string>)
    requires Normal(absolute, stack)
    ensures Walk(d, stack) == Climb(d, Ups(stack)) + stack[Ups(stack)..]
    ensures absolute ==> Ups(stack) == 0
  {
    var k := Ups(stack);
    assert forall i :: k <= i < |stack| ==> stack[i] != "..";
    assert absolute ==> k == 0;
    hide Normal, Walk, Climb, Ups;
    assert stack == stack[..k] + stack[k..];
    WalkAppend(d, stack[..k], stack[k..]);
    WalkUps(d, stack[..k]);
    WalkNames(Climb(d, k), stack[k..]);
  }

  function Repeat(x: string, n: nat): (r: seq<string>)
    ensures |r| == n && forall i :: 0 <= i < n ==> r[i] == x
  {
    seq(n, _ => x)
  }

  ghost predicate SameWalks(a: seq<string>, b: seq<string>) {
    forall d: Directory | IsDirectory(d) :: Walk(d, a) == Walk(d, b)
  }

  lemma ClimbsDiffer(d: Directory, x: string, m: nat, n: nat, sa: seq<string>, sb: seq<string>)
    requires m < n == |d| && (forall i :: 0 <= i < n ==> d[i] == x) && (sb != [] ==> sb[0] != x)
    ensures Climb(d, m) + sa != Climb(d, n) + sb
  {
    assert (Climb(d, m) + sa)[0] == x;
    assert Climb(d, n) + sb == sb;
  }

  /** Of two stacks that agree from everywhere, the second cannot climb further. */
  lemma SameWalksClimbAlike(a: seq<string>, b: seq<string>)
    requires Normal(false, a) && Normal(false, b) && SameWalks(a, b)
    ensures Ups(a) >= Ups(b)
  {
    var m, n := Ups(a), Ups(b);
    if m < n {
      // Start n levels deep, under names that differ from the first name of b.
      var x := if n < |b| then b[n] + "x" else "x";
      IsNameWithX(if n < |b| then b[n] else "");
      assert "" + "x" == "x";
      var d := Repeat(x, n);
      assert IsDirectory(d);
      WalkOfNormal(false, d, a);
      WalkOfNormal(false, d, b);
      assert Walk(d, a) == Walk(d, b);
      ClimbsDiffer(d, x, m, n, a[m..], b[n..]);
    }
  }

  lemma IsNameWithX(s: string)
    requires '/' !in s
    ensures IsName(s + "x") && s + "x" != s
  {
    assert (s + "x")[|s|] == 'x';
    assert |s + "x"| == |s| + 1;
  }

  lemma SameFrontSameRest(a: seq<string>, b: seq<string>, n: nat)
    requires n <= |a| && n <= |b| && a[n..] == b[n..]
    requires forall i :: 0 <= i < n ==> a[i] == b[i]
    ensures a == b
  {
    assert a == a[..n] + a[n..] && b == b[..n] + b[n..];
  }

  lemma WalkFromRoot(absolute: bool, stack: seq<string>)
    requires Normal(absolute, stack)
    ensures Walk([], stack) == stack[Ups(stack)..]
  {
    hide Normal;
    var rest := stack[Ups(stack)..];
    WalkOfNormal(absolute, [], stack);
    assert Climb([], Ups(stack)) + rest == rest;
  }

  lemma SameWalksAreEqual(a: seq<string>, b: seq<string>)
    requires Normal(false, a) && Normal(false, b) && SameWalks(a, b)
    ensures a == b
  {
    SameWalksClimbAlike(a, b);
    SameWalksClimbAlike(b, a);
    assert IsDirectory([]);
    assert Walk([], a) == Walk([], b);
    WalkFromRoot(false, a);
    WalkFromRoot(false, b);
    SameFrontSameRest(a, b, Ups(a));
  }

  /** Only the root part of an absolute path can make it independent of the start. */
  lemma AbsoluteDiffersFromRelative(a: seq<string>, b: seq<string>)
    requires Normal(true, a) && Normal(false, b)
    ensures exists d: Directory :: IsDirectory(d) && Walk([], a) != Walk(d, b)
  {
    var d := Repeat("x", Ups(b) + |a| + 1);
    assert IsDirectory(d);
    WalkOfNormal(true, [], a);
    WalkOfNormal(false, d, b);
    assert |Walk(d, b)| >= |a| + 1 && Walk([], a) == a;
  }

  function DropTrailingSlash(p: string): string {
    if p != "/" && EndsInSlash(p) then p[..|p| - 1] else p
  }

  lemma DropTrailingSlashOfRender(absolute: bool, stack: seq<string>, trailing: bool)
    requires AllComponents(stack)
    ensures DropTrailingSlash(Render(absolute, stack, trailing)) == Render(absolute, stack, false)
  {
    if stack != [] {
      var j := Join(stack);
      JoinShape(stack);
      RenderOfNonEmpty(absolute, stack, trailing);
      RenderOfNonEmpty(absolute, stack, false);
      SlashedEnds(absolute, j, trailing);
      assert Slashed(absolute, j, true) == Slashed(absolute, j, false) + "/";
      assert |Slashed(absolute, j, trailing)| > |j| || !absolute;
    }
  }

  /**
   * The normal form is a canonical form: two paths normalise to the same string, up to a trailing slash,
   * exactly when they lead to the same directory from every starting directory.
   */
  lemma NormalizationIsFullyAbstract(p: string, q: string)
    ensures DropTrailingSlash(Normalized(p)) == DropTrailingSlash(Normalized(q)) <==> SameDirectory(p, q)
  {
    var ap, aq, sp, sq := IsAbsolute(p), IsAbsolute(q), Stack(p), Stack(q);
    StackIsNormal(p);
    StackIsNormal(q);
    DropTrailingSlashOfRender(ap, sp, EndsInSlash(p));
    DropTrailingSlashOfRender(aq, sq, EndsInSlash(q));
    forall d: Directory
      ensures Denote(p, d) == Walk(if ap then [] else d, sp)
      ensures Denote(q, d) == Walk(if aq then [] else d, sq)
    {
      DenoteIsWalkOfStack(p, d);
      DenoteIsWalkOfStack(q, d);
    }
    if Render(ap, sp, false) == Render(aq, sq, false) {
      RenderReadBack(ap, sp, false);
      RenderReadBack(aq, sq, false);
      assert sp == sq;
    }
    if SameDirectory(p, q) {
      StacksAgree(p, q);
    }
  }

  lemma StacksAgree(p: string, q: string)
    requires SameDirectory(p, q)
    ensures IsAbsolute(p) == IsAbsolute(q) && Stack(p) == Stack(q)
  {
    var ap, aq, sp, sq := IsAbsolute(p), IsAbsolute(q), Stack(p), Stack(q);
    StackIsNormal(p);
    StackIsNormal(q);
    forall d: Directory | IsDirectory(d)
      ensures Walk(if ap then [] else d, sp) == Walk(if aq then [] else d, sq)
    {
      DenoteIsWalkOfStack(p, d);
      DenoteIsWalkOfStack(q, d);
      assert Denote(p, d) == Denote(q, d);
    }
    if ap && !aq {
      AbsoluteDiffersFromRelative(sp, sq);
    } else if !ap && aq {
      AbsoluteDiffersFromRelative(sq, sp);
    } else if ap {
      assert IsDirectory([]);
      assert Walk([], sp) == Walk([], sq);
      WalkNames([], sp);
      WalkNames([], sq);
      assert [] + sp == sp && [] + sq == sq;
    } else {
      SameWalksAreEqual(sp, sq);
    }
  }

  // ---------------------------------------------------------------------------
  // join
  // ---------------------------------------------------------------------------

  /** The non-empty segments, separated by slashes. */
  function Glue(segments: seq<string>): string
    decreases |segments|
  {
    if segments == [] then "" else Glued(Glue(segments[..|segments| - 1]), segments[|segments| - 1])
  }

  /** An empty path takes no slash. */
  function Glued(front: string, last: string): string {
    if last == "" then front else if front == "" then last else front + "/" + last
  }

  method JoinPosix(segments: seq<string>) returns (result: string)
    ensures result == Normalized(Glue(segments))
  {
    var path := "";
    for i := 0 to |segments|
      invariant path == Glue(segments[..i])
    {
      assert segments[..i + 1][..i] == segments[..i];
      if segments[i] != "" {
        if path != "" {
          path := path + "/";
        }
        path := path + segments[i];
      }
    }
    assert segments[..|segments|] == segments;
    result := NormalizePosixString(path);
  }

  lemma GlueSnoc(segments: seq<string>, last: string)
    ensures Glue(segments + [last]) == Glued(Glue(segments), last)
  {
    assert (segments + [last])[..|segments|] == segments;
  }

  lemma GluedIsAssociative(x: string, front: string, last: string)
    ensures Glued(Glued(x, front), last) == Glued(x, Glued(front, last))
  {
    assert x + "/" + (front + "/" + last) == (x + "/" + front) + "/" + last;
  }

  lemma GlueOne(x: string)
    ensures Glue([x]) == Glued(x, Glue([]))
  {
    assert [x][..0] == [];
  }

  lemma {:induction false} GlueCons(x: string, rest: seq<string>)
    ensures Glue([x] + rest) == Glued(x, Glue(rest))
    decreases |rest|
  {
    hide Glue, Glued;
    if rest == [] {
      GlueOne(x);
      assert [x] + rest == [x];
    } else {
      var front, last := rest[..|rest| - 1], rest[|rest| - 1];
      GlueCons(x, front);
      assert rest == front + [last];
      assert [x] + (front + [last]) == ([x] + front) + [last];
      GlueSnoc([x] + front, last);
      GlueSnoc(front, last);
      GluedIsAssociative(x, Glue(front), last);
    }
  }

  /** The components of all segments, first to last. */
  function AllComponentsOf(segments: seq<string>): seq<string>
    decreases |segments|
  {
    if segments == [] then []
    else AllComponentsOf(segments[..|segments| - 1]) + Components(segments[|segments| - 1])
  }

  function FirstNonEmpty(segments: seq<string>): string {
    if segments == [] then "" else if segments[0] != "" then segments[0] else FirstNonEmpty(segments[1..])
  }

  lemma {:induction false} FirstNonEmptySnoc(segments: seq<string>, last: string)
    ensures FirstNonEmpty(segments + [last]) ==
            if FirstNonEmpty(segments) != "" then FirstNonEmpty(segments) else last
  {
    if segments == [] {
      assert [] + [last] == [last] && FirstNonEmpty([last][1..]) == "";
    } else {
      assert (segments + [last])[1..] == segments[1..] + [last];
      FirstNonEmptySnoc(segments[1..], last);
    }
  }

  lemma ComponentsOfGlued(front: string, last: string)
    ensures Components(Glued(front, last)) == Components(front) + Components(last)
    ensures IsAbsolute(Glued(front, last)) == IsAbsolute(if front != "" then front else last)
    ensures EndsInSlash(Glued(front, last)) == EndsInSlash(if last != "" then last else front)
  {
    assert Components("") == [];
    if last == "" {
      assert Components(front) + [] == Components(front);
    } else if front == "" {
      assert [] + Components(last) == Components(last);
    } else {
      ComponentsSplit(front, last);
    }
  }

  lemma {:induction false} ComponentsOfGlue(segments: seq<string>)
    ensures Components(Glue(segments)) == AllComponentsOf(segments)
    ensures Glue(segments) == "" <==> FirstNonEmpty(segments) == ""
    ensures IsAbsolute(Glue(segments)) == IsAbsolute(FirstNonEmpty(segments))
    ensures EndsInSlash(Glue(segments)) == EndsInSlash(LastNonEmpty("", segments))
    ensures Glue(segments) == "" ==> LastNonEmpty("", segments) == ""
    decreases |segments|
  {
    if segments == [] {
    } else {
      var front, last := segments[..|segments| - 1], segments[|segments| - 1];
      ComponentsOfGlue(front);
      ComponentsOfGlued(Glue(front), last);
      assert segments == front + [last];
      FirstNonEmptySnoc(front, last);
      hide Components, IsAbsolute, EndsInSlash, FirstNonEmpty;
    }
  }

  /**
   * `join` leads where walking all the components of all segments leads, from the root if the first non-empty
   * segment is absolute; and it ends in a slash exactly if the last non-empty one does, or if it is the root.
   */
  lemma JoinWalksAllSegments(segments: seq<string>, d: Directory)
    ensures var joined := Normalized(Glue(segments));
      && Denote(joined, d) ==
         Walk(if IsAbsolute(FirstNonEmpty(segments)) then [] else d, AllComponentsOf(segments))
      && EndsInSlash(joined) == (if Stack(Glue(segments)) == [] then IsAbsolute(FirstNonEmpty(segments))
                                 else EndsInSlash(LastNonEmpty("", segments)))
  {
    hide Components, IsAbsolute, EndsInSlash, Normalized, Stack, Glue;
    NormalizationPreservesMeaning(Glue(segments), d);
    ComponentsOfGlue(segments);
    NormalizedEndsInSlash(Glue(segments));
  }

  lemma StackOfSplit(x: string, rest: string)
    requires x != ""
    ensures IsAbsolute(x + "/" + rest) == IsAbsolute(x)
    ensures Stack(x + "/" + rest) == Reduce(IsAbsolute(x), Stack(x), Components(rest))
  {
    ComponentsSplit(x, rest);
    ReduceAppend(IsAbsolute(x), [], Components(x), Components(rest));
  }

  lemma NormalizedIsNonEmpty(p: string)
    ensures Normalized(p) != ""
  {
  }

  /** Joining is joining the normal form: normalisation is a left congruence. */
  lemma JoinIsLeftCongruent(x: string, rest: seq<string>)
    requires x != ""
    ensures Normalized(Glue([Normalized(x)] + rest)) == Normalized(Glue([x] + rest))
  {
    NormalizedIsNonEmpty(x);
    GlueCons(x, rest);
    GlueCons(Normalized(x), rest);
    if Glue(rest) == "" {
      NormalizationIsIdempotent(x);
    } else {
      SplitIsLeftCongruent(x, Glue(rest));
    }
  }

  lemma SameStackSameNormalForm(p: string, q: string)
    requires Stack(p) == Stack(q) && IsAbsolute(p) == IsAbsolute(q) && EndsInSlash(p) == EndsInSlash(q)
    ensures Normalized(p) == Normalized(q)
  {
  }

  lemma SplitIsLeftCongruent(x: string, tail: string)
    requires x != "" && tail != ""
    ensures Normalized(Normalized(x) + "/" + tail) == Normalized(x + "/" + tail)
  {
    NormalizedIsNonEmpty(x);
    NormalizedReadBack(x);
    StackOfSplit(x, tail);
    StackOfSplit(Normalized(x), tail);
    SameStackSameNormalForm(Normalized(x) + "/" + tail, x + "/" + tail);
  }

  lemma DenoteOfSplit(x: string, rest: string, d: Directory)
    requires x != "" && !IsAbsolute(rest)
    ensures Denote(x + "/" + rest, d) == Denote(rest, Denote(x, d))
  {
    ComponentsSplit(x, rest);
    WalkAppend(if IsAbsolute(x) then [] else d, Components(x), Components(rest));
  }

  /** How `b` moves through directories when its leading slash does not count. */
  function RelativeStack(b: string): seq<string> {
    Reduce(false, [], Components(b))
  }

  /** Behind another path, `b` climbs out of the directory it starts in. */
  predicate ClimbsOut(b: string) {
    RelativeStack(b) != [] && RelativeStack(b)[0] == ".."
  }

  /**
   * A last segment may be normalised before it is joined to `a`. An absolute one must not climb, unless `a` is
   * the root; and if nothing is left of it, it must not gain or lose a slash that the joined path shows.
   */
  predicate MayNormalizeLast(a: string, b: string) {
    || a == ""
    || (&& (IsAbsolute(b) && ClimbsOut(b) ==> IsAbsolute(a) && Stack(a) == [])
        && (Stack(b) == [] && (if b == "" then EndsInSlash(a) else EndsInSlash(b) != IsAbsolute(b)) ==> Stack(a) == []))
  }

  /** Reducing further components is reducing their own reduced form. */
  lemma ReduceOfReduced(absolute: bool, stack: seq<string>, parts: seq<string>)
    requires Normal(absolute, stack) && AllComponents(parts)
    ensures Normal(false, Reduce(false, [], parts))
    ensures Reduce(absolute, stack, parts) == Reduce(absolute, stack, Reduce(false, [], parts))
  {
    ReduceIsWalk(false, [], [], parts);
    var reduced := Reduce(false, [], parts);
    var s, t := Reduce(absolute, stack, parts), Reduce(absolute, stack, reduced);
    forall d: Directory | absolute ==> d == [] ensures Walk(d, s) == Walk(d, t) {
      ReduceIsWalk(absolute, d, stack, parts);
      ReduceIsWalk(absolute, d, stack, reduced);
      ReduceIsWalk(false, Walk(d, stack), [], parts);
    }
    ReduceIsWalk(absolute, [], stack, parts);
    ReduceIsWalk(absolute, [], stack, reduced);
    if absolute {
      WalkFromRoot(true, s);
      WalkFromRoot(true, t);
      WalkOfNormal(true, [], s);
      WalkOfNormal(true, [], t);
    } else {
      SameWalksAreEqual(s, t);
    }
  }

  ghost predicate AllUps(ups: seq<string>) {
    forall i :: 0 <= i < |ups| ==> ups[i] == ".."
  }

  /** Climbing changes every relative stack. */
  lemma ClimbingLeaves(stack: seq<string>, ups: seq<string>)
    requires Normal(false, stack) && AllUps(ups)
    ensures Reduce(false, stack, ups) == stack <==> ups == []
  {
    if ups == [] {
    } else {
      var d := Repeat("x", Ups(stack) + |ups|);
      ReduceIsWalk(false, d, stack, ups);
      WalkUps(Walk(d, stack), ups);
      WalkOfNormal(false, d, stack);
      assert |Walk(d, stack)| >= |ups|;
      assert |Walk(d, Reduce(false, stack, ups))| < |Walk(d, stack)|;
    }
  }

  lemma WalkOfAbsolute(stack: seq<string>)
    requires Normal(true, stack)
    ensures Walk([], stack) == stack
  {
    WalkNames([], stack);
    assert [] + stack == stack;
  }

  /** Climbing changes every absolute stack but that of the root. */
  lemma ClimbingFromRoot(stack: seq<string>, ups: seq<string>)
    requires Normal(true, stack) && AllUps(ups)
    ensures Reduce(true, stack, ups) == stack <==> ups == [] || stack == []
  {
    var climbed := Reduce(true, stack, ups);
    ReduceIsWalk(true, [], stack, ups);
    WalkOfAbsolute(stack);
    WalkOfAbsolute(climbed);
    WalkUps(stack, ups);
    assert climbed == Climb(stack, |ups|);
  }

  lemma ClimbingChanges(absolute: bool, stack: seq<string>, ups: seq<string>)
    requires Normal(absolute, stack) && AllUps(ups)
    ensures Reduce(absolute, stack, ups) == stack <==> ups == [] || (absolute && stack == [])
  {
    if absolute {
      ClimbingFromRoot(stack, ups);
    } else {
      ClimbingLeaves(stack, ups);
    }
  }

  /** Names are put on top of a stack as they are. */
  lemma ReduceOfNames(absolute: bool, stack: seq<string>, names: seq<string>)
    requires Normal(absolute, stack) && Normal(true, names)
    ensures Reduce(absolute, stack, names) == stack + names
  {
    assert Normal(absolute, stack + names) by {
      forall i, j | 0 <= i < j < |stack + names| && (stack + names)[j] == ".." ensures (stack + names)[i] == ".." {
        assert j < |stack|;
      }
    }
    ReduceOfNormal(absolute, stack, names);
  }

  lemma NamesOfNormal(r: seq<string>)
    requires Normal(false, r)
    ensures AllComponents(r[..Ups(r)]) && Normal(true, r[Ups(r)..])
  {
    var k := Ups(r);
    forall i | k <= i < |r| ensures r[i] != ".." {
      assert r[k] != "..";
    }
  }

  /** A reduced list of components climbs, and then adds its names. */
  lemma ReduceOfClimbAndNames(absolute: bool, stack: seq<string>, r: seq<string>)
    requires Normal(absolute, stack) && Normal(false, r)
    ensures Normal(true, r[Ups(r)..]) && Normal(absolute, Reduce(absolute, stack, r[..Ups(r)]))
    ensures Reduce(absolute, stack, r) == Reduce(absolute, stack, r[..Ups(r)]) + r[Ups(r)..]
  {
    hide Normal, Reduce, Ups, Walk, AllComponents;
    var k := Ups(r);
    NamesOfNormal(r);
    ReduceIsWalk(absolute, [], stack, r[..k]);
    assert r == r[..k] + r[k..];
    ReduceAppend(absolute, stack, r[..k], r[k..]);
    ReduceOfNames(absolute, Reduce(absolute, stack, r[..k]), r[k..]);
  }

  /** What the components of `b` do to a stack. */
  lemma StackAfter(absolute: bool, stack: seq<string>, b: string)
    requires Normal(absolute, stack)
    ensures var r := RelativeStack(b);
      && Normal(false, r) && Normal(true, r[Ups(r)..])
      && Normal(absolute, Reduce(absolute, stack, r[..Ups(r)]))
      && Reduce(absolute, stack, Components(b)) == Reduce(absolute, stack, r[..Ups(r)]) + r[Ups(r)..]
  {
    hide Normal, Reduce;
    PartsAreComponents("", b);
    ReduceOfReduced(absolute, stack, Components(b));
    ReduceOfClimbAndNames(absolute, stack, RelativeStack(b));
  }

  /** Of an absolute path the names are left. */
  lemma StackOfAbsolute(b: string)
    requires IsAbsolute(b)
    ensures Stack(b) == RelativeStack(b)[Ups(RelativeStack(b))..]
  {
    StackAfter(true, [], b);
    var r := RelativeStack(b);
    ClimbingChanges(true, [], r[..Ups(r)]);
  }

  lemma RelativeStacksAgree(a: string, b: string)
    requires a != "" && !IsAbsolute(b)
    ensures Stack(a + "/" + Normalized(b)) == Stack(a + "/" + b)
  {
    StackIsNormal(a);
    StackIsNormal(b);
    StackOfSplit(a, b);
    StackOfSplit(a, Normalized(b));
    RenderReadBack(false, Stack(b), EndsInSlash(b));
    PartsAreComponents("", b);
    ReduceOfReduced(IsAbsolute(a), Stack(a), Components(b));
    if Stack(b) == [] {
      assert Push(IsAbsolute(a), Stack(a), ".") == Stack(a) && ["."][1..] == [];
    }
  }

  /** The stacks of the two joined paths agree unless an absolute `b` climbs. */
  lemma RightStacksAgree(a: string, b: string)
    requires a != ""
    ensures Stack(a + "/" + Normalized(b)) == Stack(a + "/" + b) <==>
            !IsAbsolute(b) || !ClimbsOut(b) || (IsAbsolute(a) && Stack(a) == [])
  {
    if IsAbsolute(b) {
      hide Normal, Reduce, Parts, Render;
      var absolute, stack, r := IsAbsolute(a), Stack(a), RelativeStack(b);
      var k := Ups(r);
      StackIsNormal(a);
      StackIsNormal(b);
      StackOfSplit(a, b);
      StackOfSplit(a, Normalized(b));
      StackAfter(absolute, stack, b);
      RenderReadBack(true, Stack(b), EndsInSlash(b));
      StackOfAbsolute(b);
      ReduceOfNames(absolute, stack, Stack(b));
      ClimbingChanges(absolute, stack, r[..k]);
      SameTail(Reduce(absolute, stack, r[..k]), stack, r[k..]);
    } else {
      RelativeStacksAgree(a, b);
    }
  }

  /** What reduces to nothing leaves the stack alone, unless it is absolute and climbs. */
  lemma NothingAdded(a: string, b: string)
    requires a != "" && Stack(b) == [] && !(IsAbsolute(b) && ClimbsOut(b))
    ensures Stack(a + "/" + b) == Stack(a)
  {
    StackIsNormal(a);
    StackOfSplit(a, b);
    StackAfter(IsAbsolute(a), Stack(a), b);
    if IsAbsolute(b) {
      StackOfAbsolute(b);
    }
    assert RelativeStack(b) == [];
    assert Reduce(IsAbsolute(a), Stack(a), []) == Stack(a);
  }

  lemma SameTail(a: seq<string>, b: seq<string>, tail: seq<string>)
    ensures a + tail == b + tail <==> a == b
  {
    if a + tail == b + tail {
      assert a == (a + tail)[..|a|] && b == (b + tail)[..|b|];
    }
  }

  lemma NormalizedEndsInSlash(b: string)
    ensures EndsInSlash(Normalized(b)) == if Stack(b) == [] then IsAbsolute(b) else EndsInSlash(b)
  {
    NormalizedReadBack(b);
  }

  /** Paths with the same root part have the same normal form if stack and visible slash agree. */
  lemma SameNormalForm(p: string, q: string)
    requires IsAbsolute(p) == IsAbsolute(q)
    ensures Normalized(p) == Normalized(q) <==>
            Stack(p) == Stack(q) && (Stack(p) == [] || EndsInSlash(p) == EndsInSlash(q))
  {
    NormalizedReadBack(p);
    NormalizedReadBack(q);
  }

  lemma SplitRightCongruence(a: string, b: string)
    requires a != "" && b != ""
    ensures Normalized(a + "/" + Normalized(b)) == Normalized(a + "/" + b) <==> MayNormalizeLast(a, b)
  {
    var p, q := a + "/" + Normalized(b), a + "/" + b;
    NormalizedIsNonEmpty(b);
    NormalizedEndsInSlash(b);
    RightStacksAgree(a, b);
    SameNormalForm(p, q);
    assert IsAbsolute(p) == IsAbsolute(q) == IsAbsolute(a);
    assert EndsInSlash(q) == EndsInSlash(b) && EndsInSlash(p) == EndsInSlash(Normalized(b));
    if IsAbsolute(b) && ClimbsOut(b) {
      if IsAbsolute(a) && Stack(a) == [] {
        RootStaysRoot(a, b);
      }
    } else if Stack(b) == [] {
      NothingAdded(a, b);
    }
  }

  lemma RootStaysRoot(a: string, b: string)
    requires a != "" && IsAbsolute(a) && Stack(a) == [] && IsAbsolute(b)
    ensures Stack(a + "/" + b) == Stack(b)
  {
    StackOfSplit(a, b);
  }

  lemma EmptyRightCongruence(a: string)
    requires a != ""
    ensures Normalized(a + "/" + Normalized("")) == Normalized(a) <==> MayNormalizeLast(a, "")
  {
    var p := a + "/" + ".";
    StackOfSplit(a, ".");
    ComponentsOfSlashFree(".");
    assert Reduce(IsAbsolute(a), Stack(a), ["."]) == Stack(a) by {
      assert ["."][1..] == [];
    }
    SameNormalForm(p, a);
    assert !EndsInSlash(p);
  }

  /** Exactly when the last of any number of segments may be normalised first. */
  lemma JoinRightCongruence(segments: seq<string>, b: string)
    ensures Normalized(Glue(segments + [Normalized(b)])) == Normalized(Glue(segments + [b])) <==>
            MayNormalizeLast(Glue(segments), b)
  {
    var a := Glue(segments);
    NormalizedIsNonEmpty(b);
    GlueSnoc(segments, b);
    GlueSnoc(segments, Normalized(b));
    if a == "" {
      NormalizationIsIdempotent(b);
    } else if b == "" {
      EmptyRightCongruence(a);
    } else {
      SplitRightCongruence(a, b);
    }
  }

  /** An absolute segment that climbs, and a relative one that only keeps a slash, must be joined as they are. */
  lemma JoinRightCanDiffer()
    ensures !MayNormalizeLast("a", "/..") && !MayNormalizeLast("a", "./")
    ensures Normalized(Glue(["a"] + [Normalized("/..")])) != Normalized(Glue(["a"] + ["/.."]))
    ensures Normalized(Glue(["a"] + [Normalized("./")])) != Normalized(Glue(["a"] + ["./"]))
  {
    MayNotNormalizeLast();
    hide MayNormalizeLast, Normalized, Glue;
    JoinRightCongruence(["a"], "/..");
    JoinRightCongruence(["a"], "./");
    assert Glue(["a"]) == "a" by {
      GlueSnoc([], "a");
      assert [] + ["a"] == ["a"];
      GlueOfNothing();
    }
  }

  lemma GlueOfNothing()
    ensures Glue([]) == ""
  {
  }

  lemma MayNotNormalizeLast()
    ensures !MayNormalizeLast("a", "/..") && !MayNormalizeLast("a", "./")
  {
    ComponentsOfSlashFree("a");
    ComponentsOfSlashFree("..");
    ComponentsOfSlashFree(".");
    ComponentsOfSlashed("..");
    ComponentsOfSlashed(".");
    assert "/" + ".." == "/.." && "." + "/" == "./";
    assert Stack("a") == ["a"] by {
      assert ["a"][1..] == [];
    }
    assert RelativeStack("/..") == [".."] by {
      assert [".."][1..] == [];
    }
    assert Stack("./") == [] by {
      assert ["."][1..] == [];
    }
  }

  // ---------------------------------------------------------------------------
  // resolve
  // ---------------------------------------------------------------------------

  /** Changing directory through all the segments, first to last; empty segments are skipped. */
  function CdAll(d: Directory, segments: seq<string>): Directory
    decreases |segments|
  {
    if segments == [] then d else CdAll(Denote(segments[0], d), segments[1..])
  }

  /** The slash that survives is the one at the end of the last non-empty segment, or of the cwd. */
  function LastNonEmpty(cwd: string, segments: seq<string>): string
    decreases |segments|
  {
    if segments == [] then cwd
    else if segments[|segments| - 1] != "" then segments[|segments| - 1]
    else LastNonEmpty(cwd, segments[..|segments| - 1])
  }

  /** What `resolved` stands for during the right-to-left scan: the segments still to be walked. */
  ghost predicate Pending(resolved: string, segments: seq<string>) {
    && (forall d: Directory :: Denote(resolved, d) == CdAll(d, segments))
    && (resolved == "" <==> forall i :: 0 <= i < |segments| ==> segments[i] == "")
    && (resolved != "" ==> EndsInSlash(resolved) == EndsInSlash(LastNonEmpty("", segments)))
    && !IsAbsolute(resolved)
  }

  lemma {:induction false} LastNonEmptyCons(cwd: string, s: string, rest: seq<string>)
    ensures LastNonEmpty(cwd, [s] + rest) == LastNonEmpty(if s != "" then s else cwd, rest)
    decreases |rest|
  {
    if rest == [] {
      assert [s] + rest == [s] && [s][..0] == [];
    } else {
      assert ([s] + rest)[..|rest|] == [s] + rest[..|rest| - 1];
      LastNonEmptyCons(cwd, s, rest[..|rest| - 1]);
    }
  }

  lemma {:induction false} LastNonEmptyDefault(a: string, b: string, segments: seq<string>)
    requires exists i :: 0 <= i < |segments| && segments[i] != ""
    ensures LastNonEmpty(a, segments) == LastNonEmpty(b, segments)
    decreases |segments|
  {
    var front := segments[..|segments| - 1];
    if segments[|segments| - 1] != "" {
    } else {
      var i :| 0 <= i < |segments| && segments[i] != "";
      assert front[i] == segments[i];
      LastNonEmptyDefault(a, b, front);
    }
  }

  lemma {:induction false} LastNonEmptyOfEmpties(cwd: string, segments: seq<string>)
    requires forall i :: 0 <= i < |segments| ==> segments[i] == ""
    ensures LastNonEmpty(cwd, segments) == cwd
    decreases |segments|
  {
    if segments == [] {
    } else {
      LastNonEmptyOfEmpties(cwd, segments[..|segments| - 1]);
    }
  }

  /** Putting a segment (or the cwd) in front of what has been scanned. */
  lemma PrependSegment(head: string, resolved: string, segments: seq<string>, d: Directory)
    requires head != "" && Pending(resolved, segments)
    ensures var whole := head + (if resolved == "" then "" else "/" + resolved);
            && Denote(whole, d) == CdAll(Denote(head, d), segments)
            && IsAbsolute(whole) == IsAbsolute(head)
            && EndsInSlash(whole) == EndsInSlash(LastNonEmpty(head, segments))
  {
    if resolved == "" {
      assert head + "" == head;
      assert Denote(resolved, Denote(head, d)) == Denote(head, d);
      LastNonEmptyOfEmpties(head, segments);
    } else {
      assert head + ("/" + resolved) == head + "/" + resolved;
      DenoteOfSplit(head, resolved, d);
      LastNonEmptyDefault(head, "", segments);
    }
  }

  lemma PendingGrows(resolved: string, segments: seq<string>, s: string)
    requires Pending(resolved, segments) && !IsAbsolute(s)
    ensures var grown := if s == "" then resolved else s + (if resolved == "" then "" else "/" + resolved);
            Pending(grown, [s] + segments)
  {
    assert ([s] + segments)[1..] == segments;
    LastNonEmptyCons("", s, segments);
    if s == "" {
      forall d: Directory ensures Denote(s, d) == d {
      }
      assert (forall i :: 0 <= i < |segments| ==> segments[i] == "") ==>
          forall i :: 0 <= i < |[s] + segments| ==> ([s] + segments)[i] == "";
      assert forall i :: 0 <= i < |segments| ==> segments[i] == ([s] + segments)[i + 1];
    } else {
      var grown := s + (if resolved == "" then "" else "/" + resolved);
      assert ([s] + segments)[0] != "";
      forall d: Directory ensures Denote(grown, d) == CdAll(d, [s] + segments) {
        PrependSegment(s, resolved, segments, d);
      }
      PrependSegment(s, resolved, segments, []);
    }
  }

  lemma {:induction false} CdAllAppend(d: Directory, a: seq<string>, b: seq<string>)
    ensures CdAll(d, a + b) == CdAll(CdAll(d, a), b)
    decreases |a|
  {
    if a == [] {
      assert a + b == b;
    } else {
      assert (a + b)[1..] == a[1..] + b;
      CdAllAppend(Denote(a[0], d), a[1..], b);
    }
  }

  lemma {:induction false} LastNonEmptyAppend(cwd: string, a: seq<string>, b: seq<string>)
    ensures LastNonEmpty(cwd, a + b) == LastNonEmpty(LastNonEmpty(cwd, a), b)
    decreases |b|
  {
    if b == [] {
      assert a + b == a;
    } else {
      assert (a + b)[..|a + b| - 1] == a + b[..|b| - 1];
      LastNonEmptyAppend(cwd, a, b[..|b| - 1]);
    }
  }

  /** The directory after an absolute segment does not depend on what came before it. */
  lemma AbsoluteSegmentRestarts(cwd: string, before: seq<string>, seg: string, after: seq<string>, d: Directory)
    requires IsAbsolute(seg)
    ensures CdAll(d, before + [seg] + after) == CdAll(Denote(seg, []), after)
    ensures LastNonEmpty(cwd, before + [seg] + after) == LastNonEmpty(seg, after)
  {
    CdAllAppend(d, before + [seg], after);
    CdAllAppend(d, before, [seg]);
    assert [seg][1..] == [];
    assert CdAll(CdAll(d, before), [seg]) == Denote(seg, []);
    LastNonEmptyAppend(cwd, before + [seg], after);
    assert (before + [seg])[|before|] == seg;
  }

  lemma NormalizedOfDirectory(p: string)
    requires IsAbsolute(p)
    ensures Normalized(p) == Render(true, Denote(p, []), EndsInSlash(p))
  {
    StackIsNormal(p);
    DenoteIsWalkOfStack(p, []);
    WalkNames([], Stack(p));
    assert [] + Stack(p) == Stack(p);
  }

  /**
   * Resolving is changing directory through all segments in order, although the segments are scanned from
   * the right and the scan stops at the first absolute one.
   */
  method ResolvePosix(cwd: string, segments: seq<string>) returns (result: string)
    ensures IsAbsolute(cwd) ==>
              result == Render(true, CdAll(Denote(cwd, []), segments), EndsInSlash(LastNonEmpty(cwd, segments)))
    ensures IsAbsolute(cwd) ==> IsAbsolute(result)
  {
    var resolved := "";
    var absoluteFound := false;
    var i := |segments|;
    assert segments[i..] == [];
    while i > 0
      invariant 0 <= i <= |segments|
      invariant !absoluteFound ==> Pending(resolved, segments[i..])
      invariant absoluteFound ==> i == 0 && IsAbsolute(resolved)
      invariant absoluteFound && IsAbsolute(cwd) ==> Denote(resolved, []) == CdAll(Denote(cwd, []), segments)
      invariant absoluteFound ==> EndsInSlash(resolved) == EndsInSlash(LastNonEmpty(cwd, segments))
      decreases i
    {
      i := i - 1;
      var seg := segments[i];
      ghost var after := segments[i + 1..];
      assert segments[i..] == [seg] + after;
      if seg != "" && seg[0] == '/' {
        PrependSegment(seg, resolved, after, []);
        assert segments == segments[..i] + [seg] + after;
        AbsoluteSegmentRestarts(cwd, segments[..i], seg, after, Denote(cwd, []));
        resolved := seg + (if resolved == "" then "" else "/" + resolved);
        absoluteFound := true;
        i := 0;
        break;
      }
      PendingGrows(resolved, after, seg);
      if seg != "" {
        if resolved != "" {
          resolved := "/" + resolved;
        }
        resolved := seg + resolved;
        assert seg + "" == seg;
      }
    }
    if !absoluteFound {
      assert segments[0..] == segments;
      if cwd != "" {
        PrependSegment(cwd, resolved, segments, []);
      }
      if resolved != "" {
        resolved := "/" + resolved;
      }
      resolved := cwd + resolved;
    }
    result := NormalizePosixString(resolved);
    if IsAbsolute(cwd) {
      NormalizedOfDirectory(resolved);
      NormalizedReadBack(resolved);
    }
  }

  // ---------------------------------------------------------------------------
  // parse and format
  // ---------------------------------------------------------------------------

  /** The object that `parse` builds and `format` reads; a missing or non-string property is None. */
  datatype PathObject = PathObject(
    root: Option<string>, dir: Option<string>, base: Option<string>, name: Option<string>, ext: Option<string>)

  /** `std::string::find_last_of` for one character. */
  function FindLast(s: string, c: char): (r: Option<nat>)
    ensures r.Some? ==> r.value < |s| && s[r.value] == c
    decreases |s|
  {
    if s == "" then None
    else if s[|s| - 1] == c then Some(|s| - 1)
    else FindLast(s[..|s| - 1], c)
  }

  lemma {:induction false} FindLastIsLast(s: string, c: char)
    ensures FindLast(s, c).None? ==> c !in s
    ensures FindLast(s, c).Some? ==> c !in s[FindLast(s, c).value + 1..]
    decreases |s|
  {
    if s == "" || s[|s| - 1] == c {
    } else {
      var front, last := s[..|s| - 1], s[|s| - 1];
      FindLastIsLast(front, c);
      assert s == front + [last];
      var r := FindLast(s, c);
      assert r.Some? ==> s[r.value + 1..] == front[r.value + 1..] + [last];
    }
  }

  /** The name and the extension; a leading dot starts no extension. */
  function SplitExtension(base: string): (string, string) {
    match FindLast(base, '.')
    case None => (base, "")
    case Some(k) => if k == 0 then (base, "") else (base[..k], base[k..])
  }

  lemma ExtensionStartsAtLastDot(base: string)
    ensures var (name, ext) := SplitExtension(base);
            && name + ext == base
            && (ext != "" ==> name != "" && ext[0] == '.' && '.' !in ext[1..])
            && (ext == "" ==> '.' !in base || (base[0] == '.' && '.' !in base[1..]))
  {
    FindLastIsLast(base, '.');
  }

  /** The path object of `p`, given where its last slash is. */
  function PathObjectAt(p: string, lastSlash: Option<nat>): PathObject
    requires lastSlash.Some? ==> lastSlash.value < |p|
  {
    var root := if p != "" && p[0] == '/' then "/" else "";
    var dir := match lastSlash case None => "" case Some(k) => if k == 0 then "/" else p[..k];
    var base := match lastSlash case None => p case Some(k) => p[k + 1..];
    var (name, ext) := SplitExtension(base);
    PathObject(Some(root), Some(dir), Some(base), Some(name), Some(ext))
  }

  function ParsePosix(p: string): PathObject {
    PathObjectAt(p, FindLast(p, '/'))
  }

  function GetOr(o: Option<string>, default: string): string {
    match o case None => default case Some(v) => v
  }

  function DirPrefix(dir: string): string {
    if dir != "" && dir[|dir| - 1] != '/' then dir + "/" else dir
  }

  function FormatPosix(o: PathObject): string {
    var prefix := match o.dir case Some(dir) => DirPrefix(dir) case None => GetOr(o.root, "");
    match o.base
    case Some(base) => prefix + base
    case None => prefix + GetOr(o.name, "") + GetOr(o.ext, "")
  }

  /** The last slash directly follows another one, so `dir` already ends in a slash. */
  predicate DoubledLastSlash(p: string) {
    match FindLast(p, '/')
    case None => false
    case Some(k) => k > 0 && p[k - 1] == '/'
  }

  function WithoutChar(p: string, k: nat): string
    requires k < |p|
  {
    p[..k] + p[k + 1..]
  }

  lemma FormatOfDirAndBase(o: PathObject, dir: string, base: string)
    requires o.dir == Some(dir) && o.base == Some(base)
    ensures FormatPosix(o) == DirPrefix(dir) + base
  {
  }

  lemma RejoinAt(p: string, k: nat)
    requires k < |p| && p[k] == '/'
    ensures DirPrefix(if k == 0 then "/" else p[..k]) + p[k + 1..] ==
            if k > 0 && p[k - 1] == '/' then WithoutChar(p, k) else p
  {
    if k == 0 {
      assert p == "/" + p[1..];
    } else {
      assert p[..k][k - 1] == p[k - 1];
      assert p == p[..k] + "/" + p[k + 1..];
    }
  }

  lemma DirAndBase(p: string, lastSlash: Option<nat>)
    requires lastSlash.Some? ==> lastSlash.value < |p|
    ensures PathObjectAt(p, lastSlash).dir ==
            Some(match lastSlash case None => "" case Some(k) => if k == 0 then "/" else p[..k])
    ensures PathObjectAt(p, lastSlash).base == Some(match lastSlash case None => p case Some(k) => p[k + 1..])
  {
  }

  lemma FormatOfPathObject(p: string, lastSlash: Option<nat>)
    requires lastSlash.Some? ==> lastSlash.value < |p| && p[lastSlash.value] == '/'
    ensures FormatPosix(PathObjectAt(p, lastSlash)) ==
            match lastSlash
            case None => p
            case Some(k) => if k > 0 && p[k - 1] == '/' then WithoutChar(p, k) else p
  {
    DirAndBase(p, lastSlash);
    hide PathObjectAt, FormatPosix, WithoutChar;
    var o := PathObjectAt(p, lastSlash);
    FormatOfDirAndBase(o, o.dir.value, o.base.value);
    if lastSlash.None? {
      assert "" + p == p;
    } else {
      hide DirPrefix;
      RejoinAt(p, lastSlash.value);
    }
  }

  /** Formatting a parsed path gives it back, less one slash if the last slash is a doubled one. */
  lemma FormatOfParse(p: string)
    ensures FormatPosix(ParsePosix(p)) ==
            if DoubledLastSlash(p) then WithoutChar(p, FindLast(p, '/').value) else p
  {
    FormatOfPathObject(p, FindLast(p, '/'));
  }

  /** Formatting undoes parsing exactly when the last slash is a single one. */
  lemma FormatUndoesParse(p: string)
    ensures FormatPosix(ParsePosix(p)) == p <==> !DoubledLastSlash(p)
  {
    FormatOfParse(p);
    if DoubledLastSlash(p) {
      assert |WithoutChar(p, FindLast(p, '/').value)| == |p| - 1;
    }
  }

  /** Dropping one of two adjacent slashes does not change the normal form. */
  lemma DoubledSlashIsRedundant(front: string, base: string)
    ensures Normalized((front + "/") + "/" + base) == Normalized(front + "/" + base)
  {
    ComponentsSplit(front + "/", base);
    ComponentsOfSlashed(front);
    ComponentsSplit(front, base);
    SameStackSameNormalForm((front + "/") + "/" + base, front + "/" + base);
  }

  lemma WithoutDoubledSlash(p: string, k: nat)
    requires 0 < k < |p| && p[k] == '/' && p[k - 1] == '/'
    ensures Normalized(WithoutChar(p, k)) == Normalized(p)
  {
    var front, base := p[..k - 1], p[k + 1..];
    assert p == (front + "/") + "/" + base;
    assert WithoutChar(p, k) == front + "/" + base;
    DoubledSlashIsRedundant(front, base);
  }

  /** Whatever the slashes, the path that comes back has the same normal form. */
  lemma FormatOfParseNormalizes(p: string)
    ensures Normalized(FormatPosix(ParsePosix(p))) == Normalized(p)
  {
    FormatOfParse(p);
    if DoubledLastSlash(p) {
      WithoutDoubledSlash(p, FindLast(p, '/').value);
    }
  }

  /** The base name has no slash, and name and extension split it, so `base` itself may be left out. */
  lemma ParseSplitsBase(p: string)
    ensures ParsePosix(p).name.value + ParsePosix(p).ext.value == ParsePosix(p).base.value
    ensures '/' !in ParsePosix(p).base.value
    ensures FormatPosix(ParsePosix(p).(base := None)) == FormatPosix(ParsePosix(p))
  {
    var o := ParsePosix(p);
    FindLastIsLast(p, '/');
    ExtensionStartsAtLastDot(o.base.value);
    FormatWithoutBase(o, o.base.value, o.name.value, o.ext.value);
  }

  lemma FormatWithoutBase(o: PathObject, base: string, name: string, ext: string)
    requires o.base == Some(base) && o.name == Some(name) && o.ext == Some(ext) && name + ext == base
    ensures FormatPosix(o.(base := None)) == FormatPosix(o)
  {
    var prefix := FormatPosix(PathObject(o.root, o.dir, Some(""), None, None));
    assert prefix + base == prefix + name + ext;
  }

  /** The root is the first slash, and there is none without it. */
  lemma RootOfParse(p: string)
    ensures ParsePosix(p).root == Some(if IsAbsolute(p) then "/" else "")
  {
    hide FindLast, SplitExtension;
  }

  /** What comes after the last slash. */
  lemma BaseOfParse(p: string)
    ensures var base := ParsePosix(p).base.value;
      && '/' !in base && |base| <= |p| && base == p[|p| - |base|..]
      && (|base| < |p| ==> p[|p| - |base| - 1] == '/')
  {
    FindLastIsLast(p, '/');
    hide SplitExtension, FindLast;
  }

  predicate NoInnerSlash(p: string) {
    forall i :: 0 < i < |p| ==> p[i] != '/'
  }

  /** A root in front of what comes after the last slash: nothing is lost exactly if that is the whole path. */
  lemma RootAndBase(p: string, root: string, base: string)
    requires root == if IsAbsolute(p) then "/" else ""
    requires '/' !in base && |base| <= |p| && base == p[|p| - |base|..]
    requires |base| < |p| ==> p[|p| - |base| - 1] == '/'
    ensures root + base == p <==> NoInnerSlash(p)
  {
    var n := |p| - |base|;
    assert forall i :: n <= i < |p| ==> p[i] == base[i - n];
    if root + base == p {
      assert |root| == n;
    }
    if NoInnerSlash(p) {
      assert n <= 1;
      assert p == p[..n] + base;
      assert n == 0 && p != "" ==> p[0] == base[0];
      assert p[..n] == root;
    }
  }

  lemma FormatOfRootAndBase(o: PathObject, root: string, base: string)
    requires o.root == Some(root) && o.base == Some(base)
    ensures FormatPosix(o.(dir := None)) == root + base
  {
  }

  /** Without a directory the root takes its place, and that loses nothing exactly if there is no other slash. */
  lemma FormatFromRoot(p: string)
    ensures var o := ParsePosix(p);
      && FormatPosix(o.(dir := None)) == (if IsAbsolute(p) then "/" else "") + o.base.value
      && (FormatPosix(o.(dir := None)) == p <==> NoInnerSlash(p))
  {
    RootOfParse(p);
    BaseOfParse(p);
    var o := ParsePosix(p);
    assert o.base.Some?;
    hide ParsePosix, FormatPosix, IsAbsolute, NoInnerSlash;
    FormatOfRootAndBase(o, o.root.value, o.base.value);
    RootAndBase(p, o.root.value, o.base.value);
  }
}
