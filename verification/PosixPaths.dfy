/** `path.posix.normalize` and `path.posix.join` over characters, by their documented rules: repeated
slashes are one, `.` is dropped, `..` takes away the segment before it, a trailing slash is kept, and
the empty path is `.`. */
module PosixPaths {

  // ---- Segments

  function Split(s: string): (segs: seq<string>)
    ensures |segs| > 0
  {
    if s == "" then [""]
    else if s[0] == '/' then [""] + Split(s[1..])
    else
      var rest := Split(s[1..]);
      [[s[0]] + rest[0]] + rest[1..]
  }

  function Join(segs: seq<string>): string {
    if segs == [] then ""
    else if |segs| == 1 then segs[0]
    else segs[0] + "/" + Join(segs[1..])
  }

  predicate NoSlash(segs: seq<string>) {
    forall i :: 0 <= i < |segs| ==> '/' !in segs[i]
  }

  lemma {:induction false} SplitNoSlash(s: string)
    ensures NoSlash(Split(s))
  {
    if s != "" {
      SplitNoSlash(s[1..]);
    }
  }

  lemma {:induction false} SplitSegment(s: string)
    requires '/' !in s
    ensures Split(s) == [s]
  {
    if s != "" {
      assert s[0] in s && forall ch :: ch in s[1..] ==> ch in s;
      SplitSegment(s[1..]);
      assert [s[0]] + s[1..] == s;
    }
  }

  lemma {:induction false} SplitConcat(a: string, b: string)
    ensures Split(a + "/" + b) == Split(a) + Split(b)
  {
    var s := a + "/" + b;
    if a == "" {
      assert s[0] == '/' && s[1..] == b;
    } else {
      SplitConcat(a[1..], b);
      assert s[0] == a[0] && s[1..] == a[1..] + "/" + b;
      SplitStep(s);
      SplitStep(a);
      PutBeforeConcat(a[0], Split(a[1..]), Split(b));
    }
  }

  // A character in front of a text, in terms of the segments.
  function PutBefore(ch: char, segs: seq<string>): seq<string>
    requires segs != []
  {
    if ch == '/' then [""] + segs else [[ch] + segs[0]] + segs[1..]
  }

  lemma PutBeforeConcat(ch: char, x: seq<string>, y: seq<string>)
    requires x != []
    ensures PutBefore(ch, x + y) == PutBefore(ch, x) + y
  {
    assert (x + y)[0] == x[0] && (x + y)[1..] == x[1..] + y;
    assert [[ch] + x[0]] + (x[1..] + y) == [[ch] + x[0]] + x[1..] + y;
    assert [""] + (x + y) == [""] + x + y;
  }

  lemma SplitStep(s: string)
    requires s != ""
    ensures Split(s) == PutBefore(s[0], Split(s[1..]))
  {}

  lemma {:induction false} SplitJoin(segs: seq<string>)
    requires segs != [] && NoSlash(segs)
    ensures Split(Join(segs)) == segs
  {
    SplitSegment(segs[0]);
    if |segs| > 1 {
      SplitJoin(segs[1..]);
      SplitConcat(segs[0], Join(segs[1..]));
    }
  }

  lemma {:induction false} JoinConcat(a: seq<string>, b: seq<string>)
    requires a != [] && b != []
    ensures Join(a + b) == Join(a) + "/" + Join(b)
  {
    assert (a + b)[1..] == a[1..] + b;
    if |a| > 1 {
      JoinConcat(a[1..], b);
    } else {
      assert a[1..] + b == b;
    }
  }

  // ---- Resolution of `.` and `..`

  // A stack of segments takes one more; above the start, `..` is kept for a relative path only.
  function Push(stack: seq<string>, seg: string, above: bool): seq<string> {
    if seg == "" || seg == "." then stack
    else if seg == ".." then
      if stack != [] && stack[|stack| - 1] != ".." then stack[..|stack| - 1]
      else if above then stack + [".."]
      else stack
    else stack + [seg]
  }

  function Resolve(stack: seq<string>, segs: seq<string>, above: bool): seq<string>
    decreases |segs|
  {
    if segs == [] then stack else Resolve(Push(stack, segs[0], above), segs[1..], above)
  }

  predicate Plain(seg: string) {
    seg != "" && seg != "." && seg != ".." && '/' !in seg
  }

  predicate AllPlain(segs: seq<string>) {
    forall i :: 0 <= i < |segs| ==> Plain(segs[i])
  }

  // Plain segments, after some `..` if the path is relative.
  predicate Settled(segs: seq<string>, above: bool) {
    forall i :: 0 <= i < |segs| ==> SettledAt(segs, i, above)
  }

  predicate SettledAt(segs: seq<string>, i: nat, above: bool)
    requires i < |segs|
  {
    Plain(segs[i]) || (above && segs[i] == ".." && (i > 0 ==> segs[i - 1] == ".."))
  }

  lemma {:induction false} ResolveConcat(stack: seq<string>, a: seq<string>, b: seq<string>, above: bool)
    ensures Resolve(stack, a + b, above) == Resolve(Resolve(stack, a, above), b, above)
    decreases |a|
  {
    if a == [] {
      assert a + b == b;
    } else {
      assert (a + b)[1..] == a[1..] + b;
      ResolveConcat(Push(stack, a[0], above), a[1..], b, above);
    }
  }

  lemma PushSettles(stack: seq<string>, seg: string, above: bool)
    requires Settled(stack, above) && '/' !in seg
    ensures Settled(Push(stack, seg, above), above)
  {
    var t := Push(stack, seg, above);
    forall i | 0 <= i < |t| ensures SettledAt(t, i, above) {
      if i < |stack| {
        assert SettledAt(stack, i, above);
      }
    }
  }

  lemma {:induction false} ResolveSettles(stack: seq<string>, segs: seq<string>, above: bool)
    requires Settled(stack, above) && NoSlash(segs)
    ensures Settled(Resolve(stack, segs, above), above)
    decreases |segs|
  {
    if segs != [] {
      PushSettles(stack, segs[0], above);
      ResolveSettles(Push(stack, segs[0], above), segs[1..], above);
    }
  }

  lemma {:induction false} ResolveSettled(stack: seq<string>, segs: seq<string>, above: bool)
    requires Settled(stack + segs, above)
    ensures Resolve(stack, segs, above) == stack + segs
    decreases |segs|
  {
    if segs == [] {
      assert stack + segs == stack;
    } else {
      assert (stack + segs)[|stack|] == segs[0];
      assert SettledAt(stack + segs, |stack|, above);
      if stack != [] {
        assert (stack + segs)[|stack| - 1] == stack[|stack| - 1];
      }
      assert Push(stack, segs[0], above) == stack + [segs[0]];
      assert stack + segs == stack + [segs[0]] + segs[1..];
      ResolveSettled(stack + [segs[0]], segs[1..], above);
    }
  }

  // ---- normalize and join

  predicate IsAbsolute(p: string) {
    p != "" && p[0] == '/'
  }

  predicate EndsInSlash(p: string) {
    p != "" && p[|p| - 1] == '/'
  }

  // The segments that a path resolves to.
  function Segments(p: string): seq<string> {
    Resolve([], Split(p), !IsAbsolute(p))
  }

  // The path made of resolved segments, with or without a trailing slash.
  function Render(absolute: bool, segs: seq<string>, slash: bool): string {
    if segs == [] then (if absolute then "/" else if slash then "./" else ".")
    else (if absolute then "/" else "") + Join(segs) + (if slash then "/" else "")
  }

  function Normalize(p: string): string {
    if p == "" then "." else Render(IsAbsolute(p), Segments(p), EndsInSlash(p))
  }

  function JoinPaths(a: string, b: string): string {
    if a == "" then Normalize(b) else if b == "" then Normalize(a) else Normalize(a + "/" + b)
  }

  lemma SegmentsSettled(p: string)
    ensures Settled(Segments(p), !IsAbsolute(p))
  {
    SplitNoSlash(p);
    ResolveSettles([], Split(p), !IsAbsolute(p));
  }

  lemma SettledNames(segs: seq<string>, above: bool)
    requires Settled(segs, above)
    ensures NoSlash(segs) && NonEmpty(segs)
  {
    forall i | 0 <= i < |segs| ensures '/' !in segs[i] && segs[i] != "" {
      assert SettledAt(segs, i, above);
    }
  }

  predicate NonEmpty(segs: seq<string>) {
    forall i :: 0 <= i < |segs| ==> segs[i] != ""
  }

  lemma {:induction false} JoinEnds(segs: seq<string>)
    requires segs != [] && NoSlash(segs) && NonEmpty(segs)
    ensures Join(segs) != "" && Join(segs)[0] != '/' && Join(segs)[|Join(segs)| - 1] != '/'
  {
    var first := segs[0];
    assert first[0] in first && first[|first| - 1] in first;
    if |segs| > 1 {
      JoinEnds(segs[1..]);
    }
  }

  // What a rendered path is made of.
  lemma RenderParts(absolute: bool, segs: seq<string>, slash: bool)
    requires Settled(segs, !absolute)
    ensures var p := Render(absolute, segs, slash);
      && p != "" && IsAbsolute(p) == absolute
      && EndsInSlash(p) == (slash || (absolute && segs == []))
      && Segments(p) == segs
      && (segs != [] ==> Split(p) == (if absolute then [""] else []) + segs + (if slash then [""] else []))
  {
    var p := Render(absolute, segs, slash);
    if segs == [] {
      DotSplits();
      ResolveDots();
    } else {
      SettledNames(segs, !absolute);
      JoinEnds(segs);
      RenderSplit(absolute, segs, slash);
      var lead, trail := if absolute then [""] else [], if slash then [""] else [];
      RenderResolves(lead, segs, trail, !absolute);
      assert p[0] == if absolute then '/' else Join(segs)[0];
      assert p[|p| - 1] == if slash then '/' else Join(segs)[|Join(segs)| - 1];
    }
  }

  lemma RenderSplit(absolute: bool, segs: seq<string>, slash: bool)
    requires segs != [] && NoSlash(segs)
    ensures Split(Render(absolute, segs, slash)) ==
      (if absolute then [""] else []) + segs + (if slash then [""] else [])
  {
    SplitJoin(segs);
    var body := if slash then Join(segs) + "/" else Join(segs);
    if slash {
      TrailingSlash(Join(segs));
    }
    if absolute {
      LeadingSlash(body);
      assert Render(absolute, segs, slash) == "/" + body;
    } else {
      assert Render(absolute, segs, slash) == body;
    }
  }

  lemma TrailingSlash(s: string)
    ensures Split(s + "/") == Split(s) + [""]
  {
    SplitConcat(s, "");
    assert s + "/" + "" == s + "/";
  }

  lemma LeadingSlash(s: string)
    ensures Split("/" + s) == [""] + Split(s)
  {}

  lemma RenderResolves(lead: seq<string>, segs: seq<string>, trail: seq<string>, above: bool)
    requires (lead == [] || lead == [""]) && (trail == [] || trail == [""]) && Settled(segs, above)
    ensures Resolve([], lead + segs + trail, above) == segs
  {
    var none: seq<string> := [];
    ResolveConcat(none, lead + segs, trail, above);
    ResolveConcat(none, lead, segs, above);
    assert none + segs == segs;
    ResolveSettled(none, segs, above);
    ResolveEmpty(none, above);
    ResolveEmpty(segs, above);
  }

  lemma ResolveEmpty(stack: seq<string>, above: bool)
    ensures Resolve(stack, [""], above) == stack && Resolve(stack, [], above) == stack
  {}

  lemma DotSplits()
    ensures Split("/") == ["", ""] && Split(".") == ["."] && Split("./") == [".", ""]
  {
    assert "/"[1..] == "" && "./"[1..] == "/";
    assert Split("") == [""];
    assert Split("/") == ["", ""];
    SplitSegment(".");
  }

  lemma ResolveDots()
    ensures forall above :: Resolve([], ["", ""], above) == [] && Resolve([], ["."], above) == [] && Resolve([], [".", ""], above) == []
  {}

  // ---- What the segments mean

  /** Nothing and a dot stay where they are, a name goes down one step, and two dots take that step back. */
  lemma StepsOfAPath(stack: seq<string>, name: string, above: bool)
    requires Plain(name)
    ensures Resolve(stack, [""], above) == stack && Resolve(stack, ["."], above) == stack
    ensures Resolve(stack, [name], above) == stack + [name]
    ensures Resolve(stack, [name, ".."], above) == stack
  {
    assert [name, ".."][1..] == [".."] && (stack + [name])[..|stack|] == stack;
    assert [""][1..] == [] && ["."][1..] == [] && [name][1..] == [] && [".."][1..] == [];
  }

  /** Above the root there is only the root; a relative path keeps the steps that lead above its start. */
  lemma StepsAboveTheStart(ups: seq<string>)
    requires forall i :: 0 <= i < |ups| ==> ups[i] == ".."
    ensures Resolve([], [".."], false) == []
    ensures Resolve(ups, [".."], true) == ups + [".."]
  {
    assert [".."][1..] == [];
  }

  /** In the text of a path: going into a directory and out again changes nothing. */
  lemma IntoAndOut(p: string, name: string)
    requires p != "" && Plain(name)
    ensures Segments(p + "/" + name + "/..") == Segments(p) && IsAbsolute(p + "/" + name + "/..") == IsAbsolute(p)
  {
    var above := !IsAbsolute(p);
    assert p + "/" + name + "/.." == p + "/" + (name + "/" + "..");
    SplitInOut(p, name);
    ResolveConcat([], Split(p), [name, ".."], above);
    StepsOfAPath(Resolve([], Split(p), above), name, above);
  }

  lemma SplitInOut(p: string, name: string)
    requires Plain(name)
    ensures Split(p + "/" + (name + "/" + "..")) == Split(p) + [name, ".."]
  {
    SplitConcat(p, name + "/" + "..");
    SplitConcat(name, "..");
    SplitSegment(name);
    SplitSegment("..");
    assert Split(name) + Split("..") == [name, ".."];
  }

  /** Normalising again changes nothing. */
  lemma NormalizeIdempotent(p: string)
    ensures Normalize(Normalize(p)) == Normalize(p)
  {
    SegmentsSettled(p);
    if p == "" {
      RenderParts(false, [], false);
    } else {
      RenderParts(IsAbsolute(p), Segments(p), EndsInSlash(p));
    }
  }
}
