/**
 Resolving a link found in a ZIM entry (`InternalLinkResolver` of src/tools.cpp), against the segment-stack reading
 of sections 5.2.3 and 5.2.4 of RFC 3986.

 The code keeps the stack as a string with a separator for the next segment and a terminator for the result. Two of
 its strings stand for two stacks each: "" for [] and [""], and "/" for [""] and ["", ""].
 */
module LinkResolvers {
  import opened Options
  import opened PathSegments
  import opened Sequences
  import UrlCoding

  datatype Resolution = Resolved(path: string) | OutOfBoundsURL | AbsolutePathURL

  // ---------- The code ----------

  function GetBasePath(zimPath: string): string {
    var pos := FindLast(zimPath, '/');
    if pos == -1 then "" else zimPath[..if pos == 0 then 1 else pos]
  }

  /** The path without its last segment, unless it is empty. */
  function DropLastSegmentOfThePath(path: string): (r: Resolution)
    ensures r.OutOfBoundsURL? <==> path == ""
  {
    if path == "" then OutOfBoundsURL
    else
      var i := FindLast(path, '/');
      if i == -1 then Resolved("")
      else if i == 0 then Resolved(if path == "/" then "" else path[..1])
      else Resolved(path[..i])
  }

  /** What is left begins the path and ends where its last slash was; a leading slash stays before a name. */
  lemma DropsOneSegment(path: string)
    requires path != ""
    ensures var r := DropLastSegmentOfThePath(path);
            && r.Resolved? && r.path < path && Lacks(path[|r.path| + 1..], '/')
            && (r.path == "" <==> Lacks(path, '/') || path == "/")
            && (r.path != "" && r.path != "/" ==> path[|r.path|] == '/')
  {
  }

  /** The separator to be used if the path has to be extended. */
  function GetPathSeparatorFor(path: string): string {
    if path == "" || path == "/" then "" else "/"
  }

  /** Cuts at the last '#' or '?'. */
  function StripFragmentAndOrSearchComponent(url: string): string {
    var i := FindLast(url, '#');
    var j := FindLast(url, '?');
    var end := if i > j then i else j;
    if end == -1 then url else url[..end]
  }

  /** What is left begins the link and ends before the last mark, if there is one. */
  lemma StripsAtLastMark(url: string)
    ensures var path := StripFragmentAndOrSearchComponent(url);
            && path <= url && (|path| < |url| ==> url[|path|] == '#' || url[|path|] == '?')
            && (forall i :: |path| < i < |url| ==> url[i] != '#' && url[i] != '?')
            && (path == url ==> Lacks(url, '#') && Lacks(url, '?'))
  {
  }

  /** The loop over the remaining segments. */
  function Walk(path: string, separator: string, terminator: string, segments: seq<string>): Resolution
    decreases |segments|
  {
    if segments == [] then Resolved(path + terminator)
    else
      var p := segments[0];
      if p == "." then
        Walk(path, GetPathSeparatorFor(path), GetPathSeparatorFor(path), segments[1..])
      else if p == ".." then
        match DropLastSegmentOfThePath(path)
        case Resolved(shorter) =>
          Walk(shorter, GetPathSeparatorFor(shorter), GetPathSeparatorFor(shorter), segments[1..])
        case failure => failure
      else
        Walk(path + separator + p, "/", "", segments[1..])
  }

  /** `resolveLinkTarget`: one loop iteration per segment of the decoded URL. */
  method ResolveLinkTarget(originalUrl: string, zimPath: string) returns (r: Resolution)
    ensures r == Resolve(originalUrl, zimPath)
    ensures r.AbsolutePathURL? <==> originalUrl != "" && originalUrl[0] == '/'
    ensures OnlyQueryOrFragment(originalUrl) ==> r == Resolved(zimPath)
  {
    BranchesOfResolve(originalUrl, zimPath);
    hide StripFragmentAndOrSearchComponent, GetBasePath, GetPathSeparatorFor, UrlCoding.Decode, Rest, Split, Find;
    var url := StripFragmentAndOrSearchComponent(originalUrl);
    if url == "" {
      return Resolved(zimPath);
    }
    if url[0] == '/' {
      return AbsolutePathURL;
    }
    url := UrlCoding.DecodeUrl(url);
    var resolvedPath := GetBasePath(zimPath);
    var pathTerminator := "";
    var pathSeparator := GetPathSeparatorFor(resolvedPath);
    var segStart := 0;
    RestStarts(url);
    while segStart <= |url|
      invariant 0 <= segStart <= |url| + 1
      invariant Resolve(originalUrl, zimPath) == Walk(resolvedPath, pathSeparator, pathTerminator, Rest(url, segStart))
      decreases |url| - segStart
    {
      RestStep(url, segStart);
      ghost var rest := Rest(url, segStart);
      var p := url[segStart..][..Find(url[segStart..], '/', 0)];
      segStart := segStart + |p| + 1;
      assert rest[0] == p && rest[1..] == Rest(url, segStart);
      if p == "." {
        pathTerminator := GetPathSeparatorFor(resolvedPath);
        pathSeparator := pathTerminator;
        continue;
      } else if p == ".." {
        var dropped := DropLastSegmentOfThePath(resolvedPath);
        if dropped.OutOfBoundsURL? {
          return OutOfBoundsURL;
        }
        resolvedPath := dropped.path;
        pathTerminator := GetPathSeparatorFor(resolvedPath);
        pathSeparator := pathTerminator;
      } else {
        resolvedPath := resolvedPath + pathSeparator + p;
        pathTerminator := "";
        pathSeparator := "/";
      }
    }
    RestEnds(url, segStart);
    return Resolved(resolvedPath + pathTerminator);
  }

  /** The segments that start at `segStart` or later. */
  function Rest(url: string, segStart: nat): seq<string> {
    if segStart > |url| then [] else Split(url[segStart..], '/')
  }

  lemma RestStarts(url: string)
    ensures Rest(url, 0) == Split(url, '/')
  {
    assert url[0..] == url;
  }

  lemma RestEnds(url: string, segStart: nat)
    requires segStart > |url|
    ensures Rest(url, segStart) == []
  {
  }

  lemma RestStep(url: string, segStart: nat)
    requires segStart <= |url|
    ensures var length := Find(url[segStart..], '/', 0);
            length <= |url| - segStart
            && Rest(url, segStart) == [url[segStart..][..length]] + Rest(url, segStart + length + 1)
  {
    hide Split, Find;
    var s := url[segStart..];
    var length := Find(s, '/', 0);
    SplitStep(s, '/');
    if length < |s| {
      assert s[length + 1..] == url[segStart + length + 1..];
    } else {
      assert s[..length] == s;
    }
  }

  /** What `resolveLinkTarget` computes. */
  function Resolve(originalUrl: string, zimPath: string): Resolution {
    var url := StripFragmentAndOrSearchComponent(originalUrl);
    if url == "" then Resolved(zimPath)
    else if url[0] == '/' then AbsolutePathURL
    else
      var base := GetBasePath(zimPath);
      Walk(base, GetPathSeparatorFor(base), "", Split(UrlCoding.Decode(url), '/'))
  }

  /** Nothing precedes the last '#' or '?'. */
  ghost predicate OnlyQueryOrFragment(url: string) {
    || url == ""
    || ((url[0] == '#' || url[0] == '?') && forall i :: 1 <= i < |url| ==> url[i] != '#' && url[i] != '?')
  }

  /** Links that begin with a slash, and no others, are refused as absolute; a link to a fragment or a query of the
      entry itself leads to the entry. */
  lemma BranchesOfResolve(url: string, zimPath: string)
    ensures Resolve(url, zimPath).AbsolutePathURL? <==> url != "" && url[0] == '/'
    ensures OnlyQueryOrFragment(url) ==> Resolve(url, zimPath) == Resolved(zimPath)
  {
    hide StripFragmentAndOrSearchComponent, UrlCoding.Decode, Split;
    StripsAtLastMark(url);
    var path := StripFragmentAndOrSearchComponent(url);
    if path != "" && path[0] != '/' {
      var base := GetBasePath(zimPath);
      WalkIsNotRefused(base, GetPathSeparatorFor(base), "", Split(UrlCoding.Decode(path), '/'));
    }
  }

  lemma {:induction false} WalkIsNotRefused(path: string, separator: string, terminator: string, segments: seq<string>)
    ensures !Walk(path, separator, terminator, segments).AbsolutePathURL?
    decreases |segments|
  {
    if segments != [] {
      var p := segments[0];
      hide GetPathSeparatorFor;
      if p == "." {
        WalkIsNotRefused(path, GetPathSeparatorFor(path), GetPathSeparatorFor(path), segments[1..]);
      } else if p == ".." {
        match DropLastSegmentOfThePath(path) {
          case Resolved(shorter) =>
            WalkIsNotRefused(shorter, GetPathSeparatorFor(shorter), GetPathSeparatorFor(shorter), segments[1..]);
          case _ =>
        }
      } else {
        WalkIsNotRefused(path + separator + p, "/", "", segments[1..]);
      }
    }
  }

  // ---------- RFC 3986 ----------

  /** Section 5.2.4 on a stack of segments (module `Rfc3986` has it on text), with ".." beyond the root reported instead
      of ignored. The result is the stack with the final segment; a final dot segment leaves an empty one. */
  function RemoveDotSegments(stack: seq<string>, segments: seq<string>): (r: Option<seq<string>>)
    requires segments != []
    ensures r.Some? ==> r.value != []
    decreases |segments|
  {
    var p, final := segments[0], |segments| == 1;
    if p == "." then
      if final then Some(stack + [""]) else RemoveDotSegments(stack, segments[1..])
    else if p == ".." then
      if stack == [] then None
      else
        var shorter := stack[..|stack| - 1];
        if final then Some(shorter + [""]) else RemoveDotSegments(shorter, segments[1..])
    else if final then Some(stack + [p])
    else RemoveDotSegments(stack + [p], segments[1..])
  }

  /** Section 5.2.3: all segments of the base but the last. Dot segments in it are ordinary names. */
  function BaseStack(zimPath: string): seq<string> {
    var segments := Split(zimPath, '/');
    segments[..|segments| - 1]
  }

  function ToResolution(r: Option<seq<string>>): Resolution {
    match r
    case None => OutOfBoundsURL
    case Some(segments) => Resolved(Join(segments, '/'))
  }

  /** The target that RFC 3986 gives for a relative path. */
  function RfcTarget(path: string, zimPath: string): Resolution {
    ToResolution(RemoveDotSegments(BaseStack(zimPath), Split(path, '/')))
  }

  // ---------- The code's walk on stacks ----------

  /** The stack that the path string stands for when a dot segment comes: `pushed` says that the last step appended a
      segment. */
  function Reread(stack: seq<string>, pushed: bool): seq<string> {
    if pushed && (stack == [""] || stack == ["", ""]) then stack[1..] else stack
  }

  /** The code's walk: as `RemoveDotSegments`, but a dot segment meets, and leaves, re-read stacks. */
  function WalkStack(stack: seq<string>, pushed: bool, segments: seq<string>): (r: Option<seq<string>>)
    requires segments != []
    ensures r.Some? ==> r.value != []
    decreases |segments|
  {
    var p, final := segments[0], |segments| == 1;
    if p == "." then
      var read := Reread(stack, pushed);
      if final then Some(read + [""]) else WalkStack(read, false, segments[1..])
    else if p == ".." then
      var read := Reread(stack, pushed);
      if read == [] then None
      else
        var shorter := if read[..|read| - 1] == ["", ""] then [""] else read[..|read| - 1];
        if final then Some(shorter + [""]) else WalkStack(shorter, false, segments[1..])
    else if final then Some(stack + [p])
    else WalkStack(stack + [p], true, segments[1..])
  }

  /** The string the code holds for a stack, after a dot segment or at the start. */
  function Encoded(stack: seq<string>): string {
    if stack == [""] then "/" else Join(stack, '/')
  }

  ghost predicate Represents(path: string, separator: string, stack: seq<string>, pushed: bool) {
    && DelimFree(stack, '/')
    && if pushed then stack != [] && path == Join(stack, '/') && separator == "/"
       else stack != ["", ""] && path == Encoded(stack) && separator == GetPathSeparatorFor(path)
  }

  /** The strings a joined path can be confused with. */
  lemma JoinedStrings(stack: seq<string>)
    requires DelimFree(stack, '/')
    ensures Join(stack, '/') == "" <==> stack == [] || stack == [""]
    ensures Join(stack, '/') == "/" <==> stack == ["", ""]
  {
    if |stack| >= 2 {
      var rest := Join(stack[1..], '/');
      assert Join(stack, '/') == stack[0] + ['/'] + rest;
      assert Join(stack, '/')[|stack[0]|] == '/';
      if |stack| >= 3 {
        assert rest == stack[1] + ['/'] + Join(stack[2..], '/');
        assert |Join(stack, '/')| >= 2;
      } else {
        assert stack == [stack[0], stack[1]];
      }
    } else if |stack| == 1 {
      assert stack == [stack[0]];
      assert |stack[0]| == 1 ==> stack[0][0] != '/';
    }
  }

  lemma PushRepresents(path: string, separator: string, stack: seq<string>, pushed: bool, p: string)
    requires Represents(path, separator, stack, pushed) && Lacks(p, '/')
    ensures path + separator + p == Join(stack + [p], '/')
    ensures Represents(path + separator + p, "/", stack + [p], true)
  {
    JoinedStrings(stack);
    JoinAppend(stack, p, '/');
    if !pushed && stack == [""] {
      assert Join([""], '/') == "";
    }
  }

  lemma DotRepresents(path: string, separator: string, stack: seq<string>, pushed: bool)
    requires Represents(path, separator, stack, pushed)
    ensures Represents(path, GetPathSeparatorFor(path), Reread(stack, pushed), false)
  {
    JoinedStrings(stack);
    if pushed && stack == ["", ""] {
      assert stack[1..] == [""];
    } else if pushed && stack == [""] {
      assert stack[1..] == [];
    }
  }

  lemma PopRepresents(path: string, stack: seq<string>)
    requires Represents(path, GetPathSeparatorFor(path), stack, false)
    ensures path == "" <==> stack == []
    ensures stack != [] ==>
              var init := stack[..|stack| - 1];
              var shorter := if init == ["", ""] then [""] else init;
              && DropLastSegmentOfThePath(path) == Resolved(Encoded(shorter))
              && Represents(Encoded(shorter), GetPathSeparatorFor(Encoded(shorter)), shorter, false)
  {
    hide FindLast, DropLastSegmentOfThePath, Join;
    JoinedStrings(stack);
    if |stack| == 1 {
      assert stack == [stack[0]];
      JoinOne(stack[0], '/');
      JoinedStrings(stack[..0]);
      DropName(path);
    } else if stack != [] {
      var init, x := stack[..|stack| - 1], stack[|stack| - 1];
      assert stack == init + [x];
      JoinAppend(init, x, '/');
      JoinedStrings(init);
      DropAppended(Join(init, '/'), x);
    }
  }

  lemma DropName(path: string)
    requires path == "/" || Lacks(path, '/')
    ensures DropLastSegmentOfThePath(path) == if path == "" then OutOfBoundsURL else Resolved("")
  {
    if path != "/" {
      assert FindLast(path, '/') == -1 by {
        FindLastInJoin("", path, '/');
      }
    }
  }

  lemma DropAppended(front: string, x: string)
    requires Lacks(x, '/')
    ensures DropLastSegmentOfThePath(front + ['/'] + x)
            == Resolved(if front != "" then front else if x == "" then "" else "/")
  {
    FindLastInJoin(front, x, '/');
    assert (front + ['/'] + x)[..|front|] == front;
    assert front == "" ==> (front + ['/'] + x)[..1] == "/";
    assert x != "" ==> |front + ['/'] + x| > 1;
  }

  /** The string loop is the walk on stacks. */
  lemma {:induction false} WalkIsWalkStack(path: string, separator: string, terminator: string, segments: seq<string>,
                                           stack: seq<string>, pushed: bool)
    requires segments != [] && DelimFree(segments, '/') && Represents(path, separator, stack, pushed)
    ensures Walk(path, separator, terminator, segments) == ToResolution(WalkStack(stack, pushed, segments))
    decreases |segments|, 0
  {
    hide Represents, Join, Encoded, DropLastSegmentOfThePath, GetPathSeparatorFor;
    var p, rest := segments[0], segments[1..];
    if p == "." {
      DotRepresents(path, separator, stack, pushed);
      AfterDot(path, Reread(stack, pushed), rest);
    } else if p == ".." {
      DotRepresents(path, separator, stack, pushed);
      var read := Reread(stack, pushed);
      PopRepresents(path, read);
      if read != [] {
        var init := read[..|read| - 1];
        var shorter := if init == ["", ""] then [""] else init;
        AfterDot(Encoded(shorter), shorter, rest);
      }
    } else {
      PushRepresents(path, separator, stack, pushed, p);
      if rest != [] {
        WalkIsWalkStack(path + separator + p, "/", "", rest, stack + [p], true);
      }
    }
  }

  /** After a dot segment the separator is also the terminator. */
  lemma {:induction false} AfterDot(path: string, stack: seq<string>, rest: seq<string>)
    requires DelimFree(rest, '/') && Represents(path, GetPathSeparatorFor(path), stack, false)
    ensures Walk(path, GetPathSeparatorFor(path), GetPathSeparatorFor(path), rest)
            == ToResolution(if rest == [] then Some(stack + [""]) else WalkStack(stack, false, rest))
    decreases |rest|, 1
  {
    if rest == [] {
      PushRepresents(path, GetPathSeparatorFor(path), stack, false, "");
    } else {
      WalkIsWalkStack(path, GetPathSeparatorFor(path), GetPathSeparatorFor(path), rest, stack, false);
    }
  }

  lemma BasePathRepresents(zimPath: string)
    ensures var base := BaseStack(zimPath);
            var read := if base == ["", ""] then [""] else base;
            Represents(GetBasePath(zimPath), GetPathSeparatorFor(GetBasePath(zimPath)), read, false)
  {
    hide Split;
    var segments := Split(zimPath, '/');
    var base, last := BaseStack(zimPath), segments[|segments| - 1];
    SplitIsDelimFree(zimPath, '/');
    JoinSplit(zimPath, '/');
    assert segments == base + [last];
    JoinedBasePath(base, last);
  }

  lemma JoinedBasePath(base: seq<string>, last: string)
    requires DelimFree(base, '/') && Lacks(last, '/')
    ensures var path := GetBasePath(Join(base + [last], '/'));
            Represents(path, GetPathSeparatorFor(path), if base == ["", ""] then [""] else base, false)
  {
    var zimPath := Join(base + [last], '/');
    JoinAppend(base, last, '/');
    JoinedStrings(base);
    hide FindLast;
    if base == [] {
      FindLastInJoin("", last, '/');
    } else {
      FindLastInJoin(Join(base, '/'), last, '/');
      assert zimPath[..|Join(base, '/')|] == Join(base, '/');
    }
  }

  // ---------- Where the two readings part ----------

  /** A dot segment meets a stack whose string has a second reading: [""] or ["", ""] just pushed, or a removal that
      leaves ["", ""]. */
  predicate MeetsAmbiguity(stack: seq<string>, pushed: bool, segments: seq<string>)
    decreases |segments|
  {
    if segments == [] then false
    else
      var p := segments[0];
      if p == "." || p == ".." then
        || Reread(stack, pushed) != stack
        || (p == ".." && stack != []
            && (stack[..|stack| - 1] == ["", ""] || MeetsAmbiguity(stack[..|stack| - 1], false, segments[1..])))
        || (p == "." && MeetsAmbiguity(stack, false, segments[1..]))
      else MeetsAmbiguity(stack + [p], true, segments[1..])
  }

  predicate Ambiguous(path: string, zimPath: string) {
    BaseStack(zimPath) == ["", ""] || MeetsAmbiguity(BaseStack(zimPath), false, Split(path, '/'))
  }

  lemma {:induction false} UnambiguousWalk(stack: seq<string>, pushed: bool, segments: seq<string>)
    requires segments != [] && !MeetsAmbiguity(stack, pushed, segments)
    ensures WalkStack(stack, pushed, segments) == RemoveDotSegments(stack, segments)
    decreases |segments|
  {
    var p, rest := segments[0], segments[1..];
    if rest != [] {
      if p == "." {
        UnambiguousWalk(stack, false, rest);
      } else if p == ".." {
        if stack != [] {
          UnambiguousWalk(stack[..|stack| - 1], false, rest);
        }
      } else {
        UnambiguousWalk(stack + [p], true, rest);
      }
    }
  }

  function Empties(n: nat): seq<string> {
    seq(n, _ => "")
  }

  /** The code's result lacks `e` leading empty segments, at least `d`; it is out of bounds whenever the RFC's is. */
  ghost predicate Behind(code: Option<seq<string>>, rfc: Option<seq<string>>, d: nat) {
    && (rfc.None? ==> code.None?)
    && (code.Some? ==> rfc.Some? && exists e: nat :: e >= d && rfc.value == Empties(e) + code.value)
  }

  lemma BehindBy(code: seq<string>, rfc: seq<string>, e: nat, d: nat)
    requires rfc == Empties(e) + code && e >= d
    ensures Behind(Some(code), Some(rfc), d)
  {
  }

  lemma BehindMore(code: Option<seq<string>>, rfc: Option<seq<string>>, e: nat, d: nat)
    requires Behind(code, rfc, e) && e >= d
    ensures Behind(code, rfc, d)
  {
    hide Empties;
  }

  lemma OutOfBoundsIsBehind(rfc: Option<seq<string>>, d: nat)
    ensures Behind(None, rfc, d)
  {
  }

  lemma EmptiesJoin(d: nat, e: nat, stack: seq<string>)
    ensures Empties(d) + (Empties(e) + stack) == Empties(d + e) + stack
    ensures Empties(1) == [""]
  {
  }

  /** Once behind by some leading empty segments the code never catches up. */
  lemma {:induction false} StaysBehind(stack: seq<string>, pushed: bool, segments: seq<string>, d: nat)
    requires segments != []
    ensures Behind(WalkStack(stack, pushed, segments), RemoveDotSegments(Empties(d) + stack, segments), d)
    decreases |segments|, 0
  {
    hide Behind, Empties;
    var p, rest := segments[0], segments[1..];
    var full := Empties(d) + stack;
    if p == "." || p == ".." {
      var read := Reread(stack, pushed);
      var d' := if read == stack then d else d + 1;
      EmptiesJoin(d, 1, read);
      assert read != stack ==> stack == [""] + read;
      assert full == Empties(d') + read;
      if p == "." {
        AfterDotBehind(read, full, rest, d');
        BehindMore(WalkStack(stack, pushed, segments), RemoveDotSegments(full, segments), d', d);
      } else if read == [] {
        OutOfBoundsIsBehind(RemoveDotSegments(full, segments), d);
      } else {
        var init := read[..|read| - 1];
        var shorter := full[..|full| - 1];
        assert shorter == Empties(d') + init;
        if init == ["", ""] {
          EmptiesJoin(d', 1, [""]);
          assert init == [""] + [""];
          AfterDotBehind([""], shorter, rest, d' + 1);
          BehindMore(WalkStack(stack, pushed, segments), RemoveDotSegments(full, segments), d' + 1, d);
        } else {
          AfterDotBehind(init, shorter, rest, d');
          BehindMore(WalkStack(stack, pushed, segments), RemoveDotSegments(full, segments), d', d);
        }
      }
    } else {
      assert full + [p] == Empties(d) + (stack + [p]);
      if rest != [] {
        StaysBehind(stack + [p], true, rest, d);
      } else {
        BehindBy(stack + [p], full + [p], d, d);
      }
    }
  }

  lemma {:induction false} AfterDotBehind(stack: seq<string>, full: seq<string>, rest: seq<string>, d: nat)
    requires full == Empties(d) + stack
    ensures Behind(if rest == [] then Some(stack + [""]) else WalkStack(stack, false, rest),
                   if rest == [] then Some(full + [""]) else RemoveDotSegments(full, rest), d)
    decreases |rest|, 1
  {
    if rest == [] {
      assert full + [""] == Empties(d) + (stack + [""]);
    } else {
      StaysBehind(stack, false, rest, d);
    }
  }

  /** Meeting an ambiguous stack loses a leading empty segment. */
  lemma {:induction false} AmbiguityFallsBehind(stack: seq<string>, pushed: bool, segments: seq<string>)
    requires segments != [] && MeetsAmbiguity(stack, pushed, segments)
    ensures Behind(WalkStack(stack, pushed, segments), RemoveDotSegments(stack, segments), 1)
    decreases |segments|
  {
    hide Behind;
    var p, rest := segments[0], segments[1..];
    var read := Reread(stack, pushed);
    if p == "." || p == ".." {
      if read != stack {
        assert stack == Empties(1) + read;
        StaysBehind(read, false, segments, 1);
        RereadOnce(stack, pushed, segments);
      } else if p == "." {
        AmbiguityFallsBehind(stack, false, rest);
      } else if stack[..|stack| - 1] == ["", ""] {
        assert ["", ""] == Empties(1) + [""];
        AfterDotBehind([""], ["", ""], rest, 1);
      } else {
        AmbiguityFallsBehind(stack[..|stack| - 1], false, rest);
      }
    } else {
      AmbiguityFallsBehind(stack + [p], true, rest);
    }
  }

  lemma RereadOnce(stack: seq<string>, pushed: bool, segments: seq<string>)
    requires segments != [] && (segments[0] == "." || segments[0] == "..")
    ensures WalkStack(stack, pushed, segments) == WalkStack(Reread(stack, pushed), false, segments)
  {
  }

  function Slashes(n: nat): string {
    seq(n, _ => '/')
  }

  /** The result is that of RFC 3986 without some of its leading slashes, or out of bounds though that is not. */
  ghost predicate LosesSlashes(code: Resolution, rfc: Resolution) {
    && rfc.Resolved?
    && match code
       case Resolved(path) => exists e: nat :: e >= 1 && rfc.path == Slashes(e) + path
       case OutOfBoundsURL => true
       case AbsolutePathURL => false
  }

  lemma {:induction false} JoinEmpties(n: nat, segments: seq<string>)
    requires segments != []
    ensures Join(Empties(n) + segments, '/') == Slashes(n) + Join(segments, '/')
  {
    if n == 0 {
      assert Empties(0) + segments == segments;
    } else {
      assert Slashes(n) + Join(segments, '/') == ['/'] + (Slashes(n - 1) + Join(segments, '/'));
      assert Empties(n) + segments == [""] + (Empties(n - 1) + segments);
      JoinFirst("", Empties(n - 1) + segments, '/');
      JoinEmpties(n - 1, segments);
    }
  }

  lemma BehindDiffers(code: Option<seq<string>>, rfc: Option<seq<string>>)
    requires Behind(code, rfc, 1) && (code.Some? ==> code.value != [])
    ensures ToResolution(code) == ToResolution(rfc) <==> rfc.None?
    ensures rfc.Some? ==> LosesSlashes(ToResolution(code), ToResolution(rfc))
  {
    if code.Some? {
      var e: nat :| e >= 1 && rfc.value == Empties(e) + code.value;
      JoinEmpties(e, code.value);
    }
  }

  /** Exactly when the resolver is right: for a relative URL with a nonempty path it gives the target of RFC 3986
      (out of bounds included) if and only if that is out of bounds or no dot segment meets an ambiguous stack; and
      otherwise that target without some leading slashes, or out of bounds. */
  lemma ResolverMatchesRfc(url: string, zimPath: string)
    requires var path := StripFragmentAndOrSearchComponent(url); path != "" && path[0] != '/'
    ensures var path := UrlCoding.Decode(StripFragmentAndOrSearchComponent(url));
            Resolve(url, zimPath) == RfcTarget(path, zimPath)
            <==> RfcTarget(path, zimPath).OutOfBoundsURL? || !Ambiguous(path, zimPath)
    ensures var path := UrlCoding.Decode(StripFragmentAndOrSearchComponent(url));
            || Resolve(url, zimPath) == RfcTarget(path, zimPath)
            || LosesSlashes(Resolve(url, zimPath), RfcTarget(path, zimPath))
  {
    hide LosesSlashes, Represents, Split, GetBasePath, GetPathSeparatorFor, UrlCoding.Decode,
         StripFragmentAndOrSearchComponent, Behind, WalkStack, RemoveDotSegments, MeetsAmbiguity, Join, Walk;
    var path := UrlCoding.Decode(StripFragmentAndOrSearchComponent(url));
    var base, segments := BaseStack(zimPath), Split(path, '/');
    var read := if base == ["", ""] then [""] else base;
    BasePathRepresents(zimPath);
    SplitIsDelimFree(path, '/');
    var basePath := GetBasePath(zimPath);
    WalkIsWalkStack(basePath, GetPathSeparatorFor(basePath), "", segments, read, false);
    if !Ambiguous(path, zimPath) {
      UnambiguousWalk(base, false, segments);
    } else {
      if base == ["", ""] {
        assert base == Empties(1) + [""];
        StaysBehind([""], false, segments, 1);
      } else {
        AmbiguityFallsBehind(base, false, segments);
      }
      BehindDiffers(WalkStack(read, false, segments), RemoveDotSegments(base, segments));
    }
  }

  // ---------- When no ambiguity can arise ----------

  lemma PushAvoidsDoubleSlash(stack: seq<string>, p: string)
    requires p != "" && !(["", ""] <= stack)
    ensures !(["", ""] <= stack + [p])
  {
    assert (stack + [p])[|stack|] == p;
    if |stack| >= 2 {
      assert (stack + [p])[0] == stack[0] && (stack + [p])[1] == stack[1];
    }
  }

  /** No path that starts "//" and no "//" in the link: then the two readings always agree. */
  lemma {:induction false} NoDoubleSlash(stack: seq<string>, pushed: bool, segments: seq<string>)
    requires !(["", ""] <= stack)
    requires forall i :: 0 <= i < |segments| - 1 ==> segments[i] != ""
    requires pushed && segments != [] ==> stack != [] && stack[|stack| - 1] != ""
    ensures !MeetsAmbiguity(stack, pushed, segments)
    decreases |segments|
  {
    if segments != [] {
      var p, rest := segments[0], segments[1..];
      if p == "." {
        NoDoubleSlash(stack, false, rest);
      } else if p == ".." {
        if stack != [] {
          var shorter := stack[..|stack| - 1];
          assert ["", ""] <= shorter ==> ["", ""] <= stack;
          NoDoubleSlash(shorter, false, rest);
        }
      } else if rest != [] {
        PushAvoidsDoubleSlash(stack, p);
        NoDoubleSlash(stack + [p], true, rest);
      }
    }
  }

  lemma OrdinaryLinksAreUnambiguous(path: string, zimPath: string)
    requires !(["", ""] <= BaseStack(zimPath))
    requires forall i :: 0 <= i < |Split(path, '/')| - 1 ==> Split(path, '/')[i] != ""
    ensures !Ambiguous(path, zimPath)
  {
    NoDoubleSlash(BaseStack(zimPath), false, Split(path, '/'));
  }

  // ---------- Fragment and query ----------

  predicate EndsPath(c: char) {
    c == '#' || c == '?'
  }

  /** The path of a relative reference: all before the first '#' or '?' (section 4.2 of RFC 3986). */
  function PathComponent(url: string): string {
    if url == "" || EndsPath(url[0]) then "" else [url[0]] + PathComponent(url[1..])
  }

  lemma {:induction false} PathComponentEnds(url: string)
    ensures PathComponent(url) <= url
    ensures forall i :: 0 <= i < |PathComponent(url)| ==> !EndsPath(url[i])
    ensures |PathComponent(url)| < |url| ==> EndsPath(url[|PathComponent(url)|])
  {
    if url != "" && !EndsPath(url[0]) {
      PathComponentEnds(url[1..]);
      assert url == [url[0]] + url[1..];
    }
  }

  /** Cutting at the last '#' or '?' leaves the path component exactly when at most one of them occurs. */
  lemma StripsToPathIff(url: string)
    ensures StripFragmentAndOrSearchComponent(url) == PathComponent(url)
            <==> forall i, j :: 0 <= i < |url| && 0 <= j < |url| && EndsPath(url[i]) && EndsPath(url[j]) ==> i == j
  {
    PathComponentEnds(url);
    var first := |PathComponent(url)|;
    var a, b := FindLast(url, '#'), FindLast(url, '?');
    var last := if a > b then a else b;
    assert forall k :: last < k < |url| ==> !EndsPath(url[k]);
    if last >= 0 {
      assert EndsPath(url[last]) && first <= last && EndsPath(url[first]);
      assert PathComponent(url) == url[..first];
      if first == last {
        forall i, j | 0 <= i < |url| && 0 <= j < |url| && EndsPath(url[i]) && EndsPath(url[j]) ensures i == j {
          assert i >= first && j >= first && i <= last && j <= last;
        }
      }
    } else {
      assert first == |url|;
    }
  }

  // ---------- A base that is misread ----------

  lemma JoinDoubleSlash(name: string)
    ensures Join(["", "", name], '/') == "//" + name
  {
    JoinFirst("", [name], '/');
    JoinFirst("", ["", name], '/');
    assert [""] + [name] == ["", name] && [""] + ["", name] == ["", "", name];
  }

  lemma SplitDoubleSlash(name: string)
    requires Lacks(name, '/')
    ensures Split("//" + name, '/') == ["", "", name]
  {
    JoinDoubleSlash(name);
    SplitJoin(["", "", name], '/');
  }

  lemma LinkIsPlain()
    ensures StripFragmentAndOrSearchComponent("b") == "b" && UrlCoding.Decode("b") == "b"
  {
    StripsToPathIff("b");
    assert "b"[1..] == "";
  }

  /** A link "b" in an entry "//a" should lead to "//b", but the base path "/" of the entry stands for one empty segment
      as well as for two. */
  lemma DoubleSlashIsMisread()
    ensures RfcTarget("b", "//a") == Resolved("//b")
    ensures Resolve("b", "//a") == Resolved("/b")
  {
    hide *;
    MisreadBase();
    MisreadTarget();
  }

  lemma MisreadTarget()
    ensures RfcTarget("b", "//a") == Resolved("//b")
  {
    hide Split, Join, Find, FindLast, RemoveDotSegments;
    SplitDoubleSlash("a");
    assert "//" + "a" == "//a" && "//" + "b" == "//b";
    JoinOne("b", '/');
    SplitJoin(["b"], '/');
    assert BaseStack("//a") == ["", ""];
    OneName(["", ""], "b");
    assert ["", ""] + ["b"] == ["", "", "b"];
    JoinDoubleSlash("b");
  }

  lemma OneName(stack: seq<string>, p: string)
    requires p != "." && p != ".."
    ensures RemoveDotSegments(stack, [p]) == Some(stack + [p])
  {
  }

  lemma MisreadBase()
    ensures Resolve("b", "//a") == Resolved("/b")
  {
    LinkIsPlain();
    SplitJoin(["b"], '/');
    assert Join(["b"], '/') == "b";
    assert "//a"[1] == '/' && "//a"[2] == 'a' && "//a"[..1] == "/";
    assert FindLast("//a", '/') == 1;
    hide UrlCoding.Decode, StripFragmentAndOrSearchComponent, Split, FindLast;
    var p, text := "b", "/" + "" + "b";
    assert p[0] == 'b' && p != "." && p != ".." && text == "/b" && text + "" == text;
    assert ["b"][1..] == [];
    assert Walk("/", "", "", [p]) == Walk(text, "/", "", []);
  }

  /** With a query and a fragment the query stays in the path. */
  lemma QueryStaysBeforeFragment()
    ensures StripFragmentAndOrSearchComponent("a?b#c") == "a?b"
    ensures PathComponent("a?b#c") == "a"
  {
    var url := "a?b#c";
    assert url[1..] == "?b#c" && url[..3] == "a?b";
    assert url[1] == '?' && url[2] == 'b' && url[3] == '#' && url[4] == 'c';
  }
}
