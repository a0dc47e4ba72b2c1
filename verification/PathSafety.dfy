/** `resolveSafe` keeps a requested path under a base directory.  The test it makes is on characters; here
it is shown to agree with the segments that the two paths resolve to. */
module PathSafety {
  import opened PosixPaths

  // The `relative` argument: absent, a string, or some other value.
  datatype Input = Missing | Text(text: string) | NotAString
  datatype Resolved = Ok(path: string) | Forbidden

  function StripTrailing(s: string): string {
    if EndsInSlash(s) then StripTrailing(s[..|s| - 1]) else s
  }

  function BaseOf(basePath: string): string {
    var b := StripTrailing(Normalize(basePath));
    if b == "" then "/" else b
  }

  function ResolveSafe(basePath: string, relative: Input): Resolved {
    if relative.NotAString? then Forbidden else
      var base := BaseOf(basePath);
      var rel := if relative.Missing? then "" else relative.text;
      if IsAbsolute(rel) then Forbidden else
        var resolved := Normalize(JoinPaths(base, rel));
        var prefix := if base == "/" then "/" else base + "/";
        if resolved != base && !(prefix <= resolved) then Forbidden else Ok(resolved)
  }

  // ---- What the result means, in segments

  // The base directory, and what `rel` resolves to when read from there.
  function Base(basePath: string): seq<string> {
    Segments(basePath)
  }

  function Target(basePath: string, rel: string): seq<string> {
    Resolve(Base(basePath), Split(rel), !IsAbsolute(basePath))
  }

  // The target is the base directory or lies below it.
  ghost predicate Within(base: seq<string>, target: seq<string>) {
    base <= target && AllPlain(target[|base|..])
  }

  lemma {:induction false} StripRender(absolute: bool, segs: seq<string>, slash: bool)
    requires Settled(segs, !absolute)
    ensures StripTrailing(Render(absolute, segs, slash)) ==
      if segs == [] && absolute then "" else Render(absolute, segs, false)
  {
    var p := Render(absolute, segs, slash);
    if segs == [] {
      assert StripTrailing("") == "" && "/"[..0] == "" && "./"[..1] == ".";
    } else {
      RenderParts(absolute, segs, slash);
      RenderParts(absolute, segs, false);
      if slash {
        assert p[..|p| - 1] == Render(absolute, segs, false);
      }
    }
  }

  lemma BaseRendered(basePath: string)
    ensures Settled(Base(basePath), !IsAbsolute(basePath))
    ensures BaseOf(basePath) == Render(IsAbsolute(basePath), Base(basePath), false)
    ensures IsAbsolute(BaseOf(basePath)) == IsAbsolute(basePath) && Segments(BaseOf(basePath)) == Base(basePath)
  {
    SegmentsSettled(basePath);
    var absolute, base := IsAbsolute(basePath), Base(basePath);
    if basePath == "" {
      assert base == [] by { ResolveEmpty([], true); }
    }
    StripRender(absolute, base, EndsInSlash(basePath));
    RenderParts(absolute, base, false);
  }

  // The resolved path is the target, written out.
  lemma TargetRendered(basePath: string, rel: string)
    requires !IsAbsolute(rel)
    ensures Settled(Target(basePath, rel), !IsAbsolute(basePath))
    ensures Normalize(JoinPaths(BaseOf(basePath), rel)) ==
      Render(IsAbsolute(basePath), Target(basePath, rel), EndsInSlash(rel))
  {
    BaseRendered(basePath);
    var absolute, base := IsAbsolute(basePath), BaseOf(basePath);
    RenderParts(absolute, Base(basePath), false);
    SplitNoSlash(rel);
    ResolveSettles(Base(basePath), Split(rel), !absolute);
    if rel == "" {
      ResolveEmpty(Base(basePath), !absolute);
      assert Split(rel) == [""];
      NormalizeIdempotent(base);
    } else {
      var joined := base + "/" + rel;
      SplitConcat(base, rel);
      ResolveConcat([], Split(base), Split(rel), !absolute);
      assert joined[0] == base[0] && joined[|joined| - 1] == rel[|rel| - 1];
      assert Segments(joined) == Target(basePath, rel);
      NormalizeIdempotent(joined);
    }
  }

  // ---- The prefix test on characters is the prefix test on segments

  lemma CharacterPrefix(absolute: bool, base: seq<string>, target: seq<string>, slash: bool)
    requires Settled(base, !absolute) && Settled(target, !absolute) && base != []
    ensures var b, t := Render(absolute, base, false), Render(absolute, target, slash);
      (t == b || b + "/" <= t) <==> base <= target
  {
    if base <= target {
      PrefixRendered(absolute, base, target, slash);
    } else {
      NoPrefixRendered(absolute, base, target, slash);
    }
  }

  lemma NoPrefixRendered(absolute: bool, base: seq<string>, target: seq<string>, slash: bool)
    requires Settled(base, !absolute) && Settled(target, !absolute) && base != [] && !(base <= target)
    ensures var b, t := Render(absolute, base, false), Render(absolute, target, slash); t != b && !(b + "/" <= t)
  {
    var b, t := Render(absolute, base, false), Render(absolute, target, slash);
    RenderParts(absolute, base, false);
    RenderParts(absolute, target, slash);
    SettledNames(base, !absolute);
    if target == [] {
      NotBelowDot(absolute, base, slash);
    } else if b + "/" <= t {
      SegmentsOfPrefix(b, t, if absolute then [""] else [], base, target, if slash then [""] else []);
    }
  }

  lemma SegmentsOfPrefix(b: string, t: string, lead: seq<string>, base: seq<string>, target: seq<string>, trail: seq<string>)
    requires b + "/" <= t && Split(b) == lead + base && Split(t) == lead + target + trail
    requires NonEmpty(base) && (trail == [] || trail == [""])
    ensures base <= target
  {
    PrefixSplit(b, t);
    var rest :| Split(t) == Split(b) + rest;
    PrefixOfNames(lead, base, rest, target, trail);
  }

  lemma PrefixSplit(b: string, t: string)
    requires b + "/" <= t
    ensures exists rest :: Split(t) == Split(b) + rest
  {
    var rest := t[|b| + 1..];
    assert t == b + "/" + rest;
    SplitConcat(b, rest);
  }

  lemma NotBelowDot(absolute: bool, base: seq<string>, slash: bool)
    requires Settled(base, !absolute) && base != []
    ensures !(Render(absolute, base, false) + "/" <= Render(absolute, [], slash))
  {
    var b := Render(absolute, base, false);
    RenderParts(absolute, base, false);
    assert SettledAt(base, 0, !absolute);
    SettledNames(base, !absolute);
    JoinEnds(base);
    DotSplits();
    assert !absolute ==> base[0] == Split(b)[0];
    assert absolute ==> |b| >= 2;
    assert (b + "/")[..|b|] == b && (!absolute && |b| == 1 ==> b[0] != '.');
  }

  lemma PrefixOfNames(lead: seq<string>, base: seq<string>, rest: seq<string>, target: seq<string>, trail: seq<string>)
    requires lead + base + rest == lead + target + trail && NonEmpty(base) && (trail == [] || trail == [""])
    ensures base <= target
  {
    var x := base + rest;
    assert (lead + base + rest)[|lead|..] == x && (lead + target + trail)[|lead|..] == target + trail;
    assert forall i :: 0 <= i < |base| ==> x[i] == base[i] && x[i] != "";
    assert trail != [] ==> x[|target|] == "";
    assert |base| <= |target|;
    assert x[..|base|] == base && x[..|base|] == target[..|base|];
  }

  lemma PrefixRendered(absolute: bool, base: seq<string>, target: seq<string>, slash: bool)
    requires base != [] && base <= target
    ensures var b, t := Render(absolute, base, false), Render(absolute, target, slash); t == b || b + "/" <= t
  {
    var more := target[|base|..];
    var lead, trail := if absolute then "/" else "", if slash then "/" else "";
    assert target == base + more;
    if more == [] {
      assert target == base;
      PlusNothing(lead + Join(base));
    } else {
      JoinConcat(base, more);
      PlusNothing(lead + Join(base));
      Regrouped(lead, Join(base), Join(more), trail);
    }
  }

  lemma PlusNothing(s: string)
    ensures s + "" == s
  {}

  lemma Regrouped(a: string, b: string, c: string, d: string)
    ensures a + (b + "/" + c) + d == a + b + "/" + (c + d)
    ensures a + b + "/" <= a + (b + "/" + c) + d
  {
    assert a + (b + "/" + c) + d == a + b + "/" + (c + d);
  }

  // ---- The guarantee

  /** A base whose last resolved segment is a name, or any absolute base. */
  predicate Anchored(basePath: string) {
    IsAbsolute(basePath) || (Base(basePath) != [] && Base(basePath)[|Base(basePath)| - 1] != "..")
  }

  lemma SettledTail(base: seq<string>, target: seq<string>, above: bool)
    requires Settled(target, above) && base <= target
    requires !above || (base != [] && base[|base| - 1] != "..")
    ensures AllPlain(target[|base|..])
  {
    if above {
      TailPlain(target, |base|);
    }
    forall i | 0 <= i < |target[|base|..]| ensures Plain(target[|base|..][i]) {
      assert SettledAt(target, |base| + i, above);
    }
  }

  // After a name there is no `..`.
  lemma {:induction false} TailPlain(target: seq<string>, k: nat)
    requires Settled(target, true) && 0 < k <= |target| && target[k - 1] != ".."
    ensures forall i :: k <= i < |target| ==> Plain(target[i])
    decreases |target| - k
  {
    if k < |target| {
      assert SettledAt(target, k, true);
      TailPlain(target, k + 1);
    }
  }

  // resolveSafe for a relative path, in these terms.
  lemma ResolveSafeIs(basePath: string, rel: string)
    requires !IsAbsolute(rel)
    ensures var absolute := IsAbsolute(basePath);
      var b := Render(absolute, Base(basePath), false);
      var t := Render(absolute, Target(basePath, rel), EndsInSlash(rel));
      && Settled(Base(basePath), !absolute) && Settled(Target(basePath, rel), !absolute)
      && ResolveSafe(basePath, Text(rel)) == if Passes(b, t) then Ok(t) else Forbidden
  {
    BaseRendered(basePath);
    TargetRendered(basePath, rel);
  }

  // The test of resolveSafe, for the base and the resolved path.
  predicate Passes(b: string, t: string) {
    t == b || (if b == "/" then "/" else b + "/") <= t
  }

  lemma TestAgrees(absolute: bool, base: seq<string>, target: seq<string>, slash: bool)
    requires Settled(base, !absolute) && Settled(target, !absolute) && (absolute || base != [])
    ensures Passes(Render(absolute, base, false), Render(absolute, target, slash)) <==> base <= target
  {
    RenderParts(absolute, base, false);
    if base != [] {
      NamedIsNotRoot(absolute, base);
      CharacterPrefix(absolute, base, target, slash);
    } else {
      RenderParts(absolute, target, slash);
    }
  }

  lemma NamedIsNotRoot(absolute: bool, base: seq<string>)
    requires Settled(base, !absolute) && base != []
    ensures Render(absolute, base, false) != "/"
  {
    RenderParts(absolute, base, false);
    DotSplits();
    SettledNames(base, !absolute);
    JoinEnds(base);
  }

  /** For an anchored base, a path is accepted exactly when it is relative and resolves to the base directory
  or below it; the result is that path written out, with the trailing slash of the request. */
  lemma AcceptedExactlyWithin(basePath: string, rel: string)
    requires Anchored(basePath)
    ensures ResolveSafe(basePath, Text(rel)) ==
      if !IsAbsolute(rel) && Within(Base(basePath), Target(basePath, rel))
      then Ok(Render(IsAbsolute(basePath), Target(basePath, rel), EndsInSlash(rel)))
      else Forbidden
  {
    if !IsAbsolute(rel) {
      RelativeAccepted(basePath, rel, ResolveSafe(basePath, Text(rel)), Base(basePath), Target(basePath, rel));
    }
  }

  lemma RelativeAccepted(basePath: string, rel: string, r: Resolved, base: seq<string>, target: seq<string>)
    requires Anchored(basePath) && !IsAbsolute(rel)
    requires r == ResolveSafe(basePath, Text(rel)) && base == Base(basePath) && target == Target(basePath, rel)
    ensures r == if Within(base, target) then Ok(Render(IsAbsolute(basePath), target, EndsInSlash(rel))) else Forbidden
  {
    ResolveSafeIs(basePath, rel);
    TestMeansWithin(IsAbsolute(basePath), base, target, EndsInSlash(rel));
  }

  lemma AcceptedSegments(basePath: string, rel: string)
    requires Anchored(basePath) && ResolveSafe(basePath, Text(rel)).Ok?
    ensures var p := ResolveSafe(basePath, Text(rel)).path;
      !IsAbsolute(rel) && Segments(p) == Target(basePath, rel) && IsAbsolute(p) == IsAbsolute(basePath)
  {
    AcceptedExactlyWithin(basePath, rel);
    TargetRendered(basePath, rel);
    RenderParts(IsAbsolute(basePath), Target(basePath, rel), EndsInSlash(rel));
  }

  lemma TestMeansWithin(absolute: bool, base: seq<string>, target: seq<string>, slash: bool)
    requires Settled(base, !absolute) && Settled(target, !absolute)
    requires absolute || (base != [] && base[|base| - 1] != "..")
    ensures var t := Render(absolute, target, slash);
      && (Passes(Render(absolute, base, false), t) <==> Within(base, target))
      && Segments(t) == target && IsAbsolute(t) == absolute
  {
    TestAgrees(absolute, base, target, slash);
    RenderParts(absolute, target, slash);
    if base <= target {
      SettledTail(base, target, !absolute);
    }
  }

  /** In particular, from an absolute base the result is absolute and free of `.` and `..`. */
  lemma AbsoluteResultIsClean(basePath: string, rel: string)
    requires IsAbsolute(basePath) && ResolveSafe(basePath, Text(rel)).Ok?
    ensures var p := ResolveSafe(basePath, Text(rel)).path;
      IsAbsolute(p) && AllPlain(Segments(p)) && Base(basePath) <= Segments(p)
  {
    AcceptedExactlyWithin(basePath, rel);
    AcceptedSegments(basePath, rel);
    SegmentsSettled(ResolveSafe(basePath, Text(rel)).path);
    var segs := Segments(ResolveSafe(basePath, Text(rel)).path);
    forall i | 0 <= i < |segs| ensures Plain(segs[i]) {
      assert SettledAt(segs, i, false);
    }
  }

  /** What the documentation promises of every base: accepted if and only if within the base. */
  ghost predicate Confines(basePath: string) {
    forall rel :: !IsAbsolute(rel) ==>
      (ResolveSafe(basePath, Text(rel)).Ok? <==> Within(Base(basePath), Target(basePath, rel)))
  }

  /** The promise holds exactly for anchored bases.  A relative base that resolves to the current
  directory rejects every name below it, and one that ends in `..` accepts its own parent. */
  lemma ConfinesIffAnchored(basePath: string)
    ensures Confines(basePath) <==> Anchored(basePath)
  {
    if Anchored(basePath) {
      forall rel | !IsAbsolute(rel)
        ensures ResolveSafe(basePath, Text(rel)).Ok? <==> Within(Base(basePath), Target(basePath, rel))
      {
        AcceptedExactlyWithin(basePath, rel);
      }
    } else if Base(basePath) == [] {
      CurrentDirectoryRejectsNames(basePath);
    } else {
      ParentBaseAcceptsItsParent(basePath);
    }
  }

  lemma CurrentDirectoryRejectsNames(basePath: string)
    requires !IsAbsolute(basePath) && Base(basePath) == []
    ensures !ResolveSafe(basePath, Text("x")).Ok? && Within(Base(basePath), Target(basePath, "x"))
  {
    BaseRendered(basePath);
    TargetRendered(basePath, "x");
    SplitSegment("x");
    var none: seq<string> := ["x"][1..];
    assert Target(basePath, "x") == ["x"];
  }

  lemma ParentBaseAcceptsItsParent(basePath: string)
    requires !IsAbsolute(basePath) && Base(basePath) != [] && Base(basePath)[|Base(basePath)| - 1] == ".."
    ensures ResolveSafe(basePath, Text("..")).Ok? && !Within(Base(basePath), Target(basePath, ".."))
  {
    var base := Base(basePath);
    BaseRendered(basePath);
    TargetRendered(basePath, "..");
    SplitSegment("..");
    var none: seq<string> := [".."][1..];
    assert Target(basePath, "..") == base + [".."];
    TestAgrees(false, base, base + [".."], false);
    assert (base + [".."])[|base|..][0] == "..";
  }

  // ---- Going up

  lemma UpTarget(basePath: string)
    requires IsAbsolute(basePath)
    ensures Target(basePath, "..") == if Base(basePath) == [] then [] else Base(basePath)[..|Base(basePath)| - 1]
  {
    SegmentsSettled(basePath);
    SplitSegment("..");
    var none: seq<string> := [".."][1..];
    if Base(basePath) != [] {
      assert SettledAt(Base(basePath), |Base(basePath)| - 1, false);
    }
  }

  /** Two dots lead out of the base directory and are refused; only the root has nothing above it. */
  lemma ParentIsForbidden(basePath: string)
    requires IsAbsolute(basePath)
    ensures ResolveSafe(basePath, Text("..")) == if Base(basePath) == [] then Ok("/") else Forbidden
  {
    AcceptedExactlyWithin(basePath, "..");
    UpTarget(basePath);
  }

  lemma SiblingTarget(basePath: string, name: string)
    requires IsAbsolute(basePath) && Base(basePath) != [] && Plain(name)
    ensures Target(basePath, ".." + "/" + name) == Base(basePath)[..|Base(basePath)| - 1] + [name]
  {
    SplitConcat("..", name);
    SplitSegment("..");
    SplitSegment(name);
    UpTarget(basePath);
    ResolveConcat(Base(basePath), [".."], [name], false);
    StepsOfAPath(Base(basePath)[..|Base(basePath)| - 1], name, false);
  }

  lemma BesideIsWithin(base: seq<string>, name: string)
    requires base != []
    ensures Within(base, base[..|base| - 1] + [name]) <==> name == base[|base| - 1]
  {
    var beside := base[..|base| - 1] + [name];
    assert base == base[..|base| - 1] + [base[|base| - 1]];
    assert base <= beside <==> name == base[|base| - 1];
    assert base <= beside ==> beside[|base|..] == [];
  }

  /** So is what lies beside the base directory, in particular under a name that begins like it. */
  lemma SiblingIsForbidden(basePath: string, name: string)
    requires IsAbsolute(basePath) && Base(basePath) != [] && Plain(name)
    ensures ResolveSafe(basePath, Text(".." + "/" + name)).Ok? <==> name == Base(basePath)[|Base(basePath)| - 1]
  {
    SiblingTarget(basePath, name);
    BesideIsWithin(Base(basePath), name);
    AcceptedExactlyWithin(basePath, ".." + "/" + name);
  }

  lemma DetourTarget(basePath: string, name: string, rel: string)
    requires Plain(name)
    ensures Target(basePath, name + "/" + ".." + "/" + rel) == Target(basePath, rel)
  {
    var above := !IsAbsolute(basePath);
    SplitConcat(name + "/" + "..", rel);
    SplitConcat(name, "..");
    SplitSegment(name);
    SplitSegment("..");
    assert Split(name) + Split("..") == [name, ".."];
    ResolveConcat(Base(basePath), [name, ".."], Split(rel), above);
    StepsOfAPath(Base(basePath), name, above);
  }

  lemma DetourEnds(name: string, rel: string)
    requires Plain(name) && rel != ""
    ensures var path := name + "/" + ".." + "/" + rel; !IsAbsolute(path) && EndsInSlash(path) == EndsInSlash(rel)
  {
    assert name[0] in name;
    assert (name + "/" + ".." + "/" + rel)[0] == name[0];
  }

  /** A detour through a directory and back is no detour: it is accepted alike, with the same result. */
  lemma DetourIsIgnored(basePath: string, name: string, rel: string)
    requires Anchored(basePath) && Plain(name) && rel != "" && !IsAbsolute(rel)
    ensures ResolveSafe(basePath, Text(name + "/" + ".." + "/" + rel)) == ResolveSafe(basePath, Text(rel))
  {
    DetourTarget(basePath, name, rel);
    DetourEnds(name, rel);
    AcceptedExactlyWithin(basePath, name + "/" + ".." + "/" + rel);
    AcceptedExactlyWithin(basePath, rel);
  }

  /** A request without a path asks for the base directory, and one with something else for a path is refused. */
  lemma OtherInputs(basePath: string)
    ensures ResolveSafe(basePath, Missing) == ResolveSafe(basePath, Text(""))
    ensures ResolveSafe(basePath, NotAString) == Forbidden
  {}

  // ---- Browsing

  predicate IsName(name: string) {
    Plain(name)
  }

  function StripLeading(s: string): string {
    if IsAbsolute(s) then StripLeading(s[1..]) else s
  }

  /** relJoin: the `path` of a listed entry. */
  function RelJoin(dir: string, name: string): string {
    var d := StripTrailing(StripLeading(dir));
    if d != "" then d + "/" + name else name
  }

  lemma {:induction false} StripKeepsTarget(stack: seq<string>, dir: string, above: bool)
    ensures Resolve(stack, Split(StripTrailing(dir)), above) == Resolve(stack, Split(dir), above)
    decreases |dir|
  {
    if EndsInSlash(dir) {
      var d := dir[..|dir| - 1];
      assert dir == d + "/" + "";
      SplitConcat(d, "");
      ResolveConcat(stack, Split(d), [""], above);
      ResolveEmpty(Resolve(stack, Split(d), above), above);
      StripKeepsTarget(stack, d, above);
    }
  }

  lemma JoinTarget(basePath: string, dir: string, name: string)
    requires !IsAbsolute(dir) && IsName(name)
    ensures !IsAbsolute(RelJoin(dir, name)) && !EndsInSlash(RelJoin(dir, name))
    ensures Target(basePath, RelJoin(dir, name)) == Target(basePath, dir) + [name]
  {
    var above := !IsAbsolute(basePath);
    var d := StripTrailing(dir);
    StripKeepsTarget(Base(basePath), dir, above);
    StripEnds(dir);
    SplitSegment(name);
    var one := [name];
    assert one[1..] == [];
    assert name[0] in name && name[|name| - 1] in name;
    var stack := Target(basePath, dir);
    assert Resolve(stack, one, above) == stack + one;
    if d == "" {
      ResolveEmpty(Base(basePath), above);
    } else {
      SplitConcat(d, name);
      ResolveConcat(Base(basePath), Split(d), one, above);
    }
  }

  lemma StripEnds(dir: string)
    requires !IsAbsolute(dir)
    ensures !IsAbsolute(StripTrailing(dir)) && !EndsInSlash(StripTrailing(dir))
    decreases |dir|
  {}

  lemma RenderExtend(absolute: bool, target: seq<string>, slash: bool, name: string)
    requires absolute || target != []
    requires target == [] || EndsInSlash(Render(absolute, target, slash)) == slash
    ensures var d := Render(absolute, target, slash);
      Render(absolute, target + [name], false) == (if EndsInSlash(d) then d else d + "/") + name
  {
    var lead, j := if absolute then "/" else "", Join(target);
    var one := [name];
    if target != [] {
      JoinConcat(target, one);
      assert Join(target + one) == j + "/" + name;
      assert lead + j + "/" + name == lead + (j + "/" + name);
    } else {
      assert target + one == one;
    }
  }

  /** Listing round trip: the path built for an entry of an accepted directory is accepted, and denotes
  that entry of that directory. */
  lemma ListedEntryResolves(basePath: string, dir: string, name: string)
    requires Anchored(basePath) && ResolveSafe(basePath, Text(dir)).Ok? && IsName(name)
    ensures var d := ResolveSafe(basePath, Text(dir)).path; var e := ResolveSafe(basePath, Text(RelJoin(dir, name)));
      && e.Ok? && Segments(e.path) == Segments(d) + [name]
      && e.path == (if EndsInSlash(d) then d else d + "/") + name
  {
    AcceptedExactlyWithin(basePath, dir);
    JoinTarget(basePath, dir, name);
    WithinExtend(Base(basePath), Target(basePath, dir), name);
    AcceptedExactlyWithin(basePath, RelJoin(dir, name));
    TargetRendered(basePath, dir);
    RenderParts(IsAbsolute(basePath), Target(basePath, dir), EndsInSlash(dir));
    RenderExtend(IsAbsolute(basePath), Target(basePath, dir), EndsInSlash(dir), name);
    AcceptedSegments(basePath, dir);
    AcceptedSegments(basePath, RelJoin(dir, name));
  }

  lemma WithinExtend(base: seq<string>, target: seq<string>, name: string)
    requires Within(base, target) && Plain(name)
    ensures Within(base, target + [name])
  {}

  // The path reached by opening one listed entry after another.
  function Browse(names: seq<string>): string {
    if names == [] then "" else RelJoin(Browse(names[..|names| - 1]), names[|names| - 1])
  }

  /** So every path reached by browsing denotes the entry browsed to, at any depth. */
  lemma {:induction false} BrowsedPathResolves(basePath: string, names: seq<string>)
    requires Anchored(basePath) && AllPlain(names)
    ensures var r := ResolveSafe(basePath, Text(Browse(names)));
      r.Ok? && Segments(r.path) == Base(basePath) + names
  {
    if names == [] {
      BaseAccepted(basePath);
      assert Base(basePath) + names == Base(basePath);
    } else {
      var front, last := names[..|names| - 1], names[|names| - 1];
      BrowsedPathResolves(basePath, front);
      BrowseOneMore(basePath, front, last, Browse(front));
      FrontAndLast(names);
    }
  }

  lemma FrontAndLast<T>(s: seq<T>)
    requires s != []
    ensures s[..|s| - 1] + [s[|s| - 1]] == s
  {}

  lemma BrowseOneMore(basePath: string, front: seq<string>, last: string, dir: string)
    requires Anchored(basePath) && Plain(last)
    requires var r := ResolveSafe(basePath, Text(dir)); r.Ok? && Segments(r.path) == Base(basePath) + front
    ensures var r := ResolveSafe(basePath, Text(RelJoin(dir, last)));
      r.Ok? && Segments(r.path) == Base(basePath) + (front + [last])
  {
    ListedEntryResolves(basePath, dir, last);
    assert Base(basePath) + front + [last] == Base(basePath) + (front + [last]);
  }

  lemma BaseAccepted(basePath: string)
    requires Anchored(basePath)
    ensures var r := ResolveSafe(basePath, Text("")); r.Ok? && Segments(r.path) == Base(basePath)
  {
    AcceptedExactlyWithin(basePath, "");
    BaseRendered(basePath);
    ResolveEmpty(Base(basePath), !IsAbsolute(basePath));
    assert Split("") == [""] && Within(Base(basePath), Base(basePath));
    AcceptedSegments(basePath, "");
  }
}
