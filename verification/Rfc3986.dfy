/**
 Sections 5.2.3 and 5.2.4 of RFC 3986 on text, as the standard has them, and that the stacks of segments of
 `LinkResolvers` mean the same.
 */
module Rfc3986 {
  import opened LinkResolvers
  import opened Options
  import opened PathSegments
  import opened Sequences

  /** "Remove the last segment and its preceding '/' (if any) from the output buffer." */
  function WithoutLast(output: string): string {
    var i := FindLast(output, '/');
    if i == -1 then "" else output[..i]
  }

  /** Steps 2A to 2E of section 5.2.4 on the two buffers. */
  function RemoveDots(input: string, output: string): string
    decreases |input|
  {
    if input == "" then output
    else if "../" <= input then RemoveDots(input[3..], output)
    else if "./" <= input then RemoveDots(input[2..], output)
    else if "/./" <= input then RemoveDots(input[2..], output)
    else if input == "/." then RemoveDots("/", output)
    else if "/../" <= input then RemoveDots(input[3..], WithoutLast(output))
    else if input == "/.." then RemoveDots("/", WithoutLast(output))
    else if input == "." || input == ".." then RemoveDots("", output)
    else
      var i := Find(input, '/', 1);
      RemoveDots(input[i..], output + input[..i])
  }

  /** Step 2C is reached with an empty output buffer: ".." beyond the root. */
  predicate ClimbsTooFar(input: string, output: string)
    decreases |input|
  {
    if input == "" then false
    else if "../" <= input then ClimbsTooFar(input[3..], output)
    else if "./" <= input then ClimbsTooFar(input[2..], output)
    else if "/./" <= input then ClimbsTooFar(input[2..], output)
    else if input == "/." then ClimbsTooFar("/", output)
    else if "/../" <= input then output == "" || ClimbsTooFar(input[3..], WithoutLast(output))
    else if input == "/.." then output == "" || ClimbsTooFar("/", WithoutLast(output))
    else if input == "." || input == ".." then false
    else
      var i := Find(input, '/', 1);
      ClimbsTooFar(input[i..], output + input[..i])
  }

  /** Each segment after a slash. */
  function Slashed(stack: seq<string>): string {
    if stack == [] then "" else Slashed(stack[..|stack| - 1]) + ['/'] + stack[|stack| - 1]
  }

  lemma SlashedAppend(stack: seq<string>, p: string)
    ensures Slashed(stack + [p]) == Slashed(stack) + (['/'] + p)
  {
    assert (stack + [p])[..|stack|] == stack;
    assert Slashed(stack) + ['/'] + p == Slashed(stack) + (['/'] + p);
  }

  lemma SlashedPop(stack: seq<string>)
    requires stack != [] && DelimFree(stack, '/')
    ensures Slashed(stack) != "" && WithoutLast(Slashed(stack)) == Slashed(stack[..|stack| - 1])
  {
    FindLastInJoin(Slashed(stack[..|stack| - 1]), stack[|stack| - 1], '/');
  }

  lemma {:induction false} SlashedIsJoin(stack: seq<string>)
    requires stack != []
    ensures Slashed(stack) == ['/'] + Join(stack, '/')
  {
    var init, last := stack[..|stack| - 1], stack[|stack| - 1];
    assert stack == init + [last];
    JoinAppend(init, last, '/');
    if init != [] {
      SlashedIsJoin(init);
      assert ['/'] + Join(init, '/') + ['/'] + last == ['/'] + (Join(init, '/') + ['/'] + last);
    }
  }

  /** One segment of the input: where it ends, and when it is a dot segment. */
  lemma SegmentAhead(p: string, rest: string)
    requires Lacks(p, '/') && (rest == "" || rest[0] == '/')
    ensures var input := ['/'] + p + rest;
            && Find(input, '/', 1) == |p| + 1 && input[..|p| + 1] == ['/'] + p && input[|p| + 1..] == rest
            && !("../" <= input) && !("./" <= input) && input != "" && input != "." && input != ".."
            && ("/./" <= input <==> p == "." && rest != "") && (input == "/." <==> p == "." && rest == "")
            && ("/../" <= input <==> p == ".." && rest != "") && (input == "/.." <==> p == ".." && rest == "")
            && (p == "." ==> input[2..] == rest) && (p == ".." ==> input[3..] == rest)
  {
    var input := ['/'] + p + rest;
    assert input[0] == '/' && forall i :: 0 <= i < |p| ==> input[i + 1] == p[i];
    assert rest != "" ==> input[|p| + 1] == '/';
    assert |p| >= 1 ==> input[1] == p[0];
    assert |p| >= 2 ==> input[2] == p[1];
    assert |p| >= 3 ==> input[3] == p[2];
    if "/./" <= input {
      assert input[1] == '.' && input[2] == '/';
      assert |p| == 1 && p == ".";
    }
    if "/../" <= input {
      assert input[1] == '.' && input[2] == '.' && input[3] == '/';
      assert |p| == 2 && p == "..";
    }
  }

  /** One step of the algorithm for a segment with what follows it. */
  lemma RemoveDotsStep(p: string, rest: string, output: string)
    requires Lacks(p, '/') && (rest == "" || rest[0] == '/')
    ensures var input := ['/'] + p + rest;
            var next := if p == "." || p == ".." then (if rest == "" then "/" else rest) else rest;
            var output' := if p == "." then output else if p == ".." then WithoutLast(output) else output + (['/'] + p);
            && RemoveDots(input, output) == RemoveDots(next, output')
            && (ClimbsTooFar(input, output) <==> (p == ".." && output == "") || ClimbsTooFar(next, output'))
  {
    SegmentAhead(p, rest);
    hide WithoutLast, Lacks, Find;
  }

  lemma Nothing(output: string)
    ensures RemoveDots("", output) == output && !ClimbsTooFar("", output)
    ensures RemoveDots("/", output) == output + (['/'] + "") && !ClimbsTooFar("/", output)
  {
    RemoveDotsStep("", "", output);
    assert ['/'] + "" + "" == "/";
    hide WithoutLast, Find;
  }

  lemma OnStack(p: string, stack: seq<string>, rest: seq<string>)
    ensures var segments := [p] + rest;
            RemoveDotSegments(stack, segments)
            == if p == "." then (if rest == [] then Some(stack + [""]) else RemoveDotSegments(stack, rest))
               else if p == ".." then
                 if stack == [] then None
                 else if rest == [] then Some(stack[..|stack| - 1] + [""])
                 else RemoveDotSegments(stack[..|stack| - 1], rest)
               else if rest == [] then Some(stack + [p]) else RemoveDotSegments(stack + [p], rest)
  {
    assert ([p] + rest)[1..] == rest;
  }

  /** The algorithm of the standard is `RemoveDotSegments` on the stack of segments, where that is not out of bounds;
      and it is out of bounds exactly when the algorithm climbs beyond the root. */
  lemma {:induction false} RemoveDotsIsOnStacks(stack: seq<string>, segments: seq<string>)
    requires DelimFree(stack, '/') && DelimFree(segments, '/') && segments != []
    ensures var r := RemoveDotSegments(stack, segments);
            && (r.None? <==> ClimbsTooFar(['/'] + Join(segments, '/'), Slashed(stack)))
            && (r.Some? ==> RemoveDots(['/'] + Join(segments, '/'), Slashed(stack)) == Slashed(r.value))
    decreases |segments|
  {
    hide RemoveDots, ClimbsTooFar, RemoveDotSegments, WithoutLast, Slashed, Join;
    var p, rest := segments[0], segments[1..];
    var after := if rest == [] then "" else ['/'] + Join(rest, '/');
    SegmentsText(segments);
    assert segments == [p] + rest;
    RemoveDotsStep(p, after, Slashed(stack));
    OnStack(p, stack, rest);
    SlashedNothing();
    var stack' := if p == "." then stack else if p != ".." then stack + [p]
                  else if stack == [] then [] else stack[..|stack| - 1];
    if p == ".." && stack != [] {
      SlashedPop(stack);
    } else if p != "." && p != ".." {
      SlashedAppend(stack, p);
    }
    if rest == [] {
      Nothing(Slashed(stack'));
      SlashedAppend(stack', "");
    } else {
      RemoveDotsIsOnStacks(stack', rest);
    }
  }

  /** Section 5.2.3: the base path up to its last slash, then the reference. */
  function Merged(basePath: string, path: string): string {
    basePath[..FindLast(basePath, '/') + 1] + path
  }

  lemma DirectoryIsBaseStack(basePath: string)
    ensures var base := BaseStack(basePath);
            && DelimFree(base, '/')
            && basePath[..FindLast(basePath, '/') + 1] == (if base == [] then "" else Join(base, '/') + ['/'])
  {
    var segments := Split(basePath, '/');
    var base, last := BaseStack(basePath), segments[|segments| - 1];
    JoinSplit(basePath, '/');
    SplitIsDelimFree(basePath, '/');
    hide Split, FindLast;
    assert segments == base + [last];
    JoinAppend(base, last, '/');
    hide Join;
    if base == [] {
      FindLastInJoin("", last, '/');
    } else {
      FindLastInJoin(Join(base, '/'), last, '/');
    }
  }

  /** The target on stacks is that of the algorithm, started with the base's segments in the output buffer. */
  lemma TargetIsRemoveDots(path: string, basePath: string)
    ensures var base, input := Slashed(BaseStack(basePath)), ['/'] + path;
            && (RfcTarget(path, basePath).OutOfBoundsURL? <==> ClimbsTooFar(input, base))
            && (RfcTarget(path, basePath).Resolved? ==>
                  ['/'] + RfcTarget(path, basePath).path == RemoveDots(input, base))
  {
    hide RemoveDotSegments, RemoveDots, ClimbsTooFar, Split, Slashed, Join;
    DirectoryIsBaseStack(basePath);
    SplitIsDelimFree(path, '/');
    JoinSplit(path, '/');
    RemoveDotsIsOnStacks(BaseStack(basePath), Split(path, '/'));
    var r := RemoveDotSegments(BaseStack(basePath), Split(path, '/'));
    if r.Some? {
      SlashedIsJoin(r.value);
    }
  }

  lemma {:induction false} NamesFirst(stack: seq<string>, names: seq<string>, rest: seq<string>)
    requires rest != [] && forall i :: 0 <= i < |names| ==> names[i] != "." && names[i] != ".."
    ensures RemoveDotSegments(stack, names + rest) == RemoveDotSegments(stack + names, rest)
    decreases |names|
  {
    if names == [] {
      assert names + rest == rest && stack + names == stack;
    } else {
      NamesFirst(stack + [names[0]], names[1..], rest);
      hide RemoveDotSegments;
      OnStack(names[0], stack, names[1..] + rest);
      assert [names[0]] + (names[1..] + rest) == names + rest;
      assert stack + [names[0]] + names[1..] == stack + names;
    }
  }

  lemma MergedSegments(path: string, basePath: string)
    ensures Split(Merged(basePath, path), '/') == BaseStack(basePath) + Split(path, '/')
  {
    var base, segments := BaseStack(basePath), Split(path, '/');
    DirectoryIsBaseStack(basePath);
    SplitIsDelimFree(path, '/');
    JoinSplit(path, '/');
    hide Split, FindLast, Join, BaseStack;
    JoinConcat(base, segments);
    assert Merged(basePath, path) == if base == [] then path else Join(base, '/') + ['/'] + path;
    SplitJoin(base + segments, '/');
  }

  /** When no segment of the base's directories is a dot segment, it is sections 5.2.3 and 5.2.4 together: merge, then
      remove dot segments. */
  lemma TargetIsMergedAndRemoved(path: string, basePath: string)
    requires var base := BaseStack(basePath); forall i :: 0 <= i < |base| ==> base[i] != "." && base[i] != ".."
    ensures var input := ['/'] + Merged(basePath, path);
            && (RfcTarget(path, basePath).OutOfBoundsURL? <==> ClimbsTooFar(input, ""))
            && (RfcTarget(path, basePath).Resolved? ==> ['/'] + RfcTarget(path, basePath).path == RemoveDots(input, ""))
  {
    hide RemoveDotSegments, RemoveDots, ClimbsTooFar, Split, Slashed, Join, Merged, BaseStack;
    var base, segments := BaseStack(basePath), Split(path, '/');
    NamesFirst([], base, segments);
    assert [] + base == base;
    MergedSegments(path, basePath);
    JoinSplit(Merged(basePath, path), '/');
    SplitIsDelimFree(Merged(basePath, path), '/');
    RemoveDotsIsOnStacks([], base + segments);
    SlashedNothing();
    var r := RemoveDotSegments(base, segments);
    if r.Some? {
      SlashedIsJoin(r.value);
    }
  }

  lemma SlashedNothing()
    ensures Slashed([]) == ""
  {
  }

  lemma SegmentsText(segments: seq<string>)
    requires segments != []
    ensures var rest := segments[1..];
            ['/'] + Join(segments, '/')
            == ['/'] + segments[0] + if rest == [] then "" else ['/'] + Join(rest, '/')
  {
    if |segments| > 1 {
      AfterSlash(segments[0], Join(segments[1..], '/'));
    } else {
      assert ['/'] + segments[0] + "" == ['/'] + segments[0];
    }
  }

  lemma AfterSlash(p: string, rest: string)
    ensures ['/'] + (p + ['/'] + rest) == ['/'] + p + (['/'] + rest)
  {
  }
}
