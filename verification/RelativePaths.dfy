/**
 Relative and absolute paths (`getRelativePath`, `computeRelativePath` and `computeAbsolutePath` of src/tools.cpp).
 */
module RelativePaths {
  import opened PathSegments
  import opened LinkResolvers
  import opened Options
  import UrlCoding

  // ---------- From a base to a target ----------

  /** Equal leading segments from `i` on, among the first `limit`. */
  function CommonFrom(b: seq<string>, t: seq<string>, i: nat, limit: nat): (c: nat)
    requires i <= limit <= |b| && limit <= |t|
    ensures i <= c <= limit && (forall k :: i <= k < c ==> b[k] == t[k]) && (c < limit ==> b[c] != t[c])
    decreases limit - i
  {
    if i < limit && b[i] == t[i] then CommonFrom(b, t, i + 1, limit) else i
  }

  /** The number of segments of the target shared with the directories of the base. */
  function Common(b: seq<string>, t: seq<string>): (c: nat)
    requires b != []
    ensures c <= |b| - 1 && c <= |t| && (forall k :: 0 <= k < c ==> b[k] == t[k]) && b[..c] == t[..c]
    ensures c < |b| - 1 && c < |t| ==> b[c] != t[c]
  {
    CommonFrom(b, t, 0, if |b| - 1 < |t| then |b| - 1 else |t|)
  }

  function Ups(n: nat): seq<string> {
    seq(n, _ => "..")
  }

  /** One ".." for each directory of the base not shared, one more when the whole target is shared, then the rest of
      the target. */
  function RelativeSegments(b: seq<string>, t: seq<string>): seq<string>
    requires b != []
  {
    var c := Common(b, t);
    Ups(|b| - 1 - c + if c == |t| then 1 else 0) + t[c..]
  }

  /** `r += "/"` unless nothing, or a slash, precedes; then the segment. */
  function Extend(r: string, segment: string): string {
    (if r != "" && r[|r| - 1] != '/' then r + "/" else r) + segment
  }

  function ExtendAll(r: string, segments: seq<string>): string
    decreases |segments|
  {
    if segments == [] then r else ExtendAll(Extend(r, segments[0]), segments[1..])
  }

  method GetRelativePath(basePath: string, targetPath: string) returns (r: string)
    ensures r == ExtendAll("", RelativeSegments(Split(basePath, '/'), Split(targetPath, '/')))
  {
    hide Split, ExtendAll, Extend;
    var b := SplitPath(basePath, '/');
    var t := SplitPath(targetPath, '/');
    var c := Common(b, t);
    var ups := |b| - c + (if c == |t| then 1 else 0);
    r := "";
    ghost var all := RelativeSegments(b, t);
    assert all[0..] == all && |all| == ups - 1 + |t| - c;
    var i := 1;
    while i < ups
      invariant 1 <= i <= ups && ExtendAll("", all) == ExtendAll(r, all[i - 1..])
    {
      assert all[i - 1] == "..";
      ExtendStep(r, all, i - 1);
      if r != "" && r[|r| - 1] != '/' {
        r := r + "/";
      }
      r := r + "..";
      i := i + 1;
    }
    assert all[ups - 1..] == t[c..];
    var it := c;
    while it < |t|
      invariant c <= it <= |t| && ExtendAll("", all) == ExtendAll(r, t[it..])
    {
      ExtendStep(r, t, it);
      if r != "" && r[|r| - 1] != '/' {
        r := r + "/";
      }
      r := r + t[it];
      it := it + 1;
    }
    ExtendNone(r);
    assert t[it..] == [];
  }

  lemma ExtendStep(r: string, segments: seq<string>, i: nat)
    requires i < |segments|
    ensures Extend(r, segments[i]) == (if r != "" && r[|r| - 1] != '/' then r + "/" else r) + segments[i]
    ensures ExtendAll(r, segments[i..]) == ExtendAll(Extend(r, segments[i]), segments[i + 1..])
  {
    assert segments[i..][1..] == segments[i + 1..];
  }

  lemma ExtendNone(r: string)
    ensures ExtendAll(r, []) == r
  {
  }

  function Stripped(targetPath: string): string
    requires targetPath != ""
  {
    if targetPath[|targetPath| - 1] == '/' then targetPath[..|targetPath| - 1] else targetPath
  }

  /** What `computeRelativePath` computes. */
  function RelativePath(basePath: string, targetPath: string): string
    requires targetPath != ""
  {
    if targetPath[|targetPath| - 1] == '/' && basePath == targetPath then "./"
    else
      var path := ExtendAll("", RelativeSegments(Split(basePath, '/'), Split(Stripped(targetPath), '/')));
      if targetPath[|targetPath| - 1] == '/' then path + "/" else path
  }

  method ComputeRelativePath(basePath: string, targetPath: string) returns (r: string)
    requires targetPath != ""
    ensures r == RelativePath(basePath, targetPath)
    ensures basePath == targetPath && targetPath[|targetPath| - 1] == '/' ==> r == "./"
    ensures targetPath[|targetPath| - 1] == '/' ==> r != "" && r[|r| - 1] == '/'
  {
    if targetPath[|targetPath| - 1] == '/' {
      if basePath == targetPath {
        return "./";
      }
      var strippedPath := targetPath[..|targetPath| - 1];
      var path := GetRelativePath(basePath, strippedPath);
      return path + "/";
    }
    r := GetRelativePath(basePath, targetPath);
  }

  // ---------- The text for any segments ----------

  function NonEmpty(segments: seq<string>): seq<string> {
    if segments == [] then []
    else (if segments[0] == "" then [] else [segments[0]]) + NonEmpty(segments[1..])
  }

  /** Whether the text ends with a slash that no segment follows. */
  predicate EndsEmpty(segments: seq<string>) {
    segments != [] && segments[|segments| - 1] == "" && NonEmpty(segments) != []
  }

  lemma NonEmptyStep(segments: seq<string>)
    requires segments != []
    ensures NonEmpty(segments)
            == if segments[0] == "" then NonEmpty(segments[1..]) else [segments[0]] + NonEmpty(segments[1..])
  {
  }

  lemma JoinedName(names: seq<string>, name: string)
    requires forall i :: 0 <= i < |names| ==> names[i] != "" && Lacks(names[i], '/')
    ensures names == [] ==> Join(names, '/') == ""
    ensures names != [] ==> var r := Join(names, '/'); r != "" && r[|r| - 1] != '/'
    ensures Join(names + [name], '/') == if names == [] then name else Join(names, '/') + "/" + name
  {
    hide Lacks;
    if names != [] {
      JoinEnds(names);
    }
    JoinAppend(names, name, '/');
    assert Join([], '/') == "";
  }

  lemma ExtendFirst(r: string, segments: seq<string>)
    requires segments != []
    ensures ExtendAll(r, segments) == ExtendAll(Extend(r, segments[0]), segments[1..])
  {
  }

  /** The text of names, with a slash after them or not. */
  function NamesText(names: seq<string>, slash: bool): string {
    if slash then Join(names, '/') + "/" else Join(names, '/')
  }

  lemma ExtendNames(names: seq<string>, slash: bool, first: string)
    requires forall i :: 0 <= i < |names| ==> names[i] != "" && Lacks(names[i], '/')
    requires slash ==> names != []
    ensures Extend(NamesText(names, slash), first)
            == if first == "" then NamesText(names, names != []) else NamesText(names + [first], false)
  {
    hide Join, Lacks;
    JoinedName(names, first);
    var r := NamesText(names, slash);
    assert r + "" == r && r + "/" + "" == r + "/";
  }

  predicate SlashAfter(slash: bool, segments: seq<string>) {
    if segments == [] then slash else segments[|segments| - 1] == ""
  }

  lemma {:induction false} ExtendFrom(names: seq<string>, slash: bool, segments: seq<string>)
    requires forall i :: 0 <= i < |names| ==> names[i] != "" && Lacks(names[i], '/')
    requires forall i :: 0 <= i < |segments| ==> Lacks(segments[i], '/')
    requires slash ==> names != []
    ensures var all := names + NonEmpty(segments);
            ExtendAll(NamesText(names, slash), segments) == NamesText(all, all != [] && SlashAfter(slash, segments))
    decreases |segments|
  {
    hide ExtendAll, NamesText, NonEmpty, Lacks, Extend;
    if segments == [] {
      ExtendNone(NamesText(names, slash));
      NonEmptyNothing();
      assert names + [] == names;
    } else {
      var first, rest := segments[0], segments[1..];
      ExtendFirst(NamesText(names, slash), segments);
      NonEmptyStep(segments);
      ExtendNames(names, slash, first);
      if first == "" {
        ExtendFrom(names, names != [], rest);
        NonEmptyNothing();
      } else {
        assert names + ([first] + NonEmpty(rest)) == names + [first] + NonEmpty(rest);
        ExtendFrom(names + [first], false, rest);
      }
    }
  }

  lemma NonEmptyNothing()
    ensures NonEmpty([]) == []
  {
  }

  /** The segments are separated by single slashes; empty ones vanish, but that a final one leaves its slash. */
  lemma EmptySegmentsVanish(segments: seq<string>)
    requires forall i :: 0 <= i < |segments| ==> Lacks(segments[i], '/')
    ensures ExtendAll("", segments)
            == if EndsEmpty(segments) then Join(NonEmpty(segments), '/') + "/" else Join(NonEmpty(segments), '/')
  {
    hide ExtendAll, NonEmpty;
    ExtendFrom([], false, segments);
    assert NamesText([], false) == "" && [] + NonEmpty(segments) == NonEmpty(segments);
    NonEmptyNothing();
  }

  // ---------- Back again, by the link resolver ----------

  /** A name that resolving leaves as it is. */
  ghost predicate CleanName(s: string) {
    && s != "" && s != "." && s != ".."
    && Lacks(s, '/') && Lacks(s, '%') && Lacks(s, '#') && Lacks(s, '?')
  }

  ghost predicate CleanNames(segments: seq<string>) {
    forall i :: 0 <= i < |segments| ==> CleanName(segments[i])
  }

  lemma {:induction false} ExtendAllIsJoin(done: seq<string>, rest: seq<string>)
    requires done != [] && forall i :: 0 <= i < |done| ==> done[i] != "" && Lacks(done[i], '/')
    requires forall i :: 0 <= i < |rest| ==> rest[i] != "" && Lacks(rest[i], '/')
    ensures ExtendAll(Join(done, '/'), rest) == Join(done + rest, '/')
    decreases |rest|
  {
    if rest == [] {
      assert done + rest == done;
    } else {
      hide Join, Extend;
      ExtendJoin(done, rest[0]);
      ExtendAllIsJoin(done + [rest[0]], rest[1..]);
      assert done + [rest[0]] + rest[1..] == done + rest;
    }
  }

  lemma ExtendJoin(done: seq<string>, segment: string)
    requires done != [] && forall i :: 0 <= i < |done| ==> done[i] != "" && Lacks(done[i], '/')
    ensures Extend(Join(done, '/'), segment) == Join(done + [segment], '/')
  {
    hide Join;
    JoinEnds(done);
    JoinAppend(done, segment, '/');
  }

  lemma JoinEnds(segments: seq<string>)
    requires segments != [] && forall i :: 0 <= i < |segments| ==> segments[i] != "" && Lacks(segments[i], '/')
    ensures var r := Join(segments, '/'); r != "" && r[0] != '/' && r[|r| - 1] != '/'
  {
    var init, last := segments[..|segments| - 1], segments[|segments| - 1];
    assert segments == init + [last];
    JoinAppend(init, last, '/');
    if init != [] {
      assert Join(segments, '/') == segments[0] + ['/'] + Join(segments[1..], '/');
    }
  }

  /** Removing segments down to `left` many passes exactly two empty ones on the way. */
  ghost predicate PassesDoubleSlash(stack: seq<string>, left: nat) {
    ["", ""] <= stack && left <= 2 < |stack|
  }

  lemma NothingPassed(stack: seq<string>)
    ensures !PassesDoubleSlash(stack, |stack|)
  {
  }

  lemma OneUpPasses(stack: seq<string>, left: nat)
    requires left < |stack|
    ensures var fewer := stack[..|stack| - 1];
            PassesDoubleSlash(stack, left) <==> fewer == ["", ""] || PassesDoubleSlash(fewer, left)
  {
    var fewer := stack[..|stack| - 1];
    assert |stack| > 2 ==> (["", ""] <= fewer <==> ["", ""] <= stack);
  }

  lemma LastUpPasses(stack: seq<string>, left: nat)
    requires left < |stack|
    ensures PassesDoubleSlash(stack, left) <==> PassesDoubleSlash(stack, left + 1) || stack[..left] == ["", ""]
  {
    assert left == 2 ==> (["", ""] <= stack <==> stack[..left] == ["", ""]);
  }

  /** Resolving leading ".." segments within the stack: each removes one segment, and an ambiguity is met exactly when
      the removals leave ["", ""] on the way. */
  lemma {:induction false} UpsRemoved(stack: seq<string>, n: nat, rest: seq<string>)
    requires n <= |stack| && rest != []
    ensures var left := stack[..|stack| - n];
            && RemoveDotSegments(stack, Ups(n) + rest) == RemoveDotSegments(left, rest)
            && (MeetsAmbiguity(stack, false, Ups(n) + rest)
                <==> PassesDoubleSlash(stack, |stack| - n) || MeetsAmbiguity(left, false, rest))
  {
    hide PassesDoubleSlash;
    if n == 0 {
      assert Ups(0) + rest == rest && stack[..|stack|] == stack;
      assert !PassesDoubleSlash(stack, |stack|) by {
        NothingPassed(stack);
      }
    } else {
      var all, fewer := Ups(n) + rest, stack[..|stack| - 1];
      assert all[0] == ".." && all[1..] == Ups(n - 1) + rest;
      UpsRemoved(fewer, n - 1, rest);
      assert fewer[..|fewer| - (n - 1)] == stack[..|stack| - n];
      OneUpPasses(stack, |stack| - n);
    }
  }

  lemma {:induction false} NamesKept(stack: seq<string>, pushed: bool, names: seq<string>, last: string)
    requires CleanNames(names) && (CleanName(last) || last == "")
    ensures RemoveDotSegments(stack, names + [last]) == Some(stack + names + [last])
    ensures !MeetsAmbiguity(stack, pushed, names + [last])
    decreases |names|
  {
    if names == [] {
      assert stack + names + [last] == stack + [last] && names + [last] == [last];
    } else {
      var all := names + [last];
      assert all[0] == names[0] && all[1..] == names[1..] + [last];
      NamesKept(stack + [names[0]], true, names[1..], last);
      assert stack + [names[0]] + names[1..] + [last] == stack + names + [last];
    }
  }

  /** Ups within the base, then names, lead to the stack of the target. */
  lemma UpsThenNames(stack: seq<string>, n: nat, names: seq<string>, last: string)
    requires n <= |stack| && CleanNames(names) && (CleanName(last) || last == "")
    ensures var segments := Ups(n) + (names + [last]);
            && RemoveDotSegments(stack, segments) == Some(stack[..|stack| - n] + names + [last])
            && (MeetsAmbiguity(stack, false, segments) <==> PassesDoubleSlash(stack, |stack| - n))
  {
    UpsRemoved(stack, n, names + [last]);
    NamesKept(stack[..|stack| - n], false, names, last);
  }

  /** Only ups: a final ".." resolves like "../". */
  lemma UpsAlone(stack: seq<string>, n: nat)
    requires 0 < n <= |stack|
    ensures RemoveDotSegments(stack, Ups(n)) == Some(stack[..|stack| - n] + [""])
    ensures MeetsAmbiguity(stack, false, Ups(n)) <==> PassesDoubleSlash(stack, |stack| - n)
  {
    hide *;
    LastUp(n);
    OneUp(stack, |stack| - n);
    UpsRemovedTo(stack, |stack| - n + 1, n - 1, [".."]);
  }

  lemma UpsRemovedTo(stack: seq<string>, left: nat, n: nat, rest: seq<string>)
    requires left + n == |stack| && rest != []
    ensures RemoveDotSegments(stack, Ups(n) + rest) == RemoveDotSegments(stack[..left], rest)
    ensures MeetsAmbiguity(stack, false, Ups(n) + rest)
       <==> PassesDoubleSlash(stack, left) || MeetsAmbiguity(stack[..left], false, rest)
  {
    UpsRemoved(stack, n, rest);
  }

  lemma LastUp(n: nat)
    requires n > 0
    ensures Ups(n - 1) + [".."] == Ups(n)
  {
  }

  lemma OneUp(stack: seq<string>, left: nat)
    requires left < |stack|
    ensures RemoveDotSegments(stack[..left + 1], [".."]) == Some(stack[..left] + [""])
    ensures PassesDoubleSlash(stack, left + 1) || MeetsAmbiguity(stack[..left + 1], false, [".."])
       <==> PassesDoubleSlash(stack, left)
  {
    assert stack[..left + 1][..left] == stack[..left];
    LastUpPasses(stack, left);
    hide PassesDoubleSlash;
  }

  /** Resolving the segments against the base meets an ambiguity, or the base itself is one. */
  ghost predicate GoesAstray(base: seq<string>, segments: seq<string>) {
    base == ["", ""] || MeetsAmbiguity(base, false, segments)
  }

  /** The resolver applied to a path of plain segments: nothing to strip, nothing to decode. */
  lemma ResolvePlain(segments: seq<string>, zimPath: string, expected: seq<string>)
    requires PlainSegments(segments) && expected != []
    requires RemoveDotSegments(BaseStack(zimPath), segments) == Some(expected)
    ensures Resolve(Join(segments, '/'), zimPath) == Resolved(Join(expected, '/'))
            <==> !GoesAstray(BaseStack(zimPath), segments)
  {
    hide MeetsAmbiguity, BaseStack, RemoveDotSegments, Resolve, Join, PlainSegments;
    var url := Join(segments, '/');
    PlainJoin(segments);
    UrlCoding.DecodePlain(url, "");
    assert url + "" == url && UrlCoding.Decode("") == "";
    assert StripFragmentAndOrSearchComponent(url) == url;
    ResolverMatchesRfc(url, zimPath);
  }

  ghost predicate PlainSegment(s: string) {
    Lacks(s, '/') && Lacks(s, '%') && Lacks(s, '#') && Lacks(s, '?')
  }

  ghost predicate PlainSegments(segments: seq<string>) {
    segments != [] && segments[0] != "" && forall i :: 0 <= i < |segments| ==> PlainSegment(segments[i])
  }

  lemma PlainJoin(segments: seq<string>)
    requires PlainSegments(segments)
    ensures segments != []
    ensures var url := Join(segments, '/');
            && '%' !in url && FindLast(url, '#') == -1 && FindLast(url, '?') == -1
            && url != "" && url[0] != '/' && Split(url, '/') == segments
  {
    hide Split, Join;
    JoinOfPlain(segments);
    SplitJoin(segments, '/');
  }

  lemma {:induction false} JoinOfPlain(segments: seq<string>)
    requires segments != [] && forall i :: 0 <= i < |segments| ==> PlainSegment(segments[i])
    ensures var url := Join(segments, '/');
            && Lacks(url, '%') && '%' !in url && FindLast(url, '#') == -1 && FindLast(url, '?') == -1
            && (segments[0] != "" ==> url != "" && url[0] == segments[0][0])
  {
    if |segments| > 1 {
      JoinOfPlain(segments[1..]);
      JoinFirst(segments[0], segments[1..], '/');
      assert segments == [segments[0]] + segments[1..];
    }
  }

  /** The relative path as segments, with an empty one for a trailing slash. */
  lemma RelativePathIsJoin(b: seq<string>, t: seq<string>)
    requires b != [] && t != [] && CleanNames(t[Common(b, t)..])
    ensures var segments := RelativeSegments(b, t);
            && PlainSegments(segments) && ExtendAll("", segments) == Join(segments, '/')
            && PlainSegments(segments + [""]) && ExtendAll("", segments) + "/" == Join(segments + [""], '/')
  {
    hide ExtendAll, Join, Common, PlainSegments;
    var segments := RelativeSegments(b, t);
    assert forall i :: 0 <= i < |segments| ==> PlainSegment(segments[i]) && segments[i] != "";
    ExtendPlain(segments);
  }

  lemma ExtendPlain(segments: seq<string>)
    requires segments != [] && forall i :: 0 <= i < |segments| ==> PlainSegment(segments[i]) && segments[i] != ""
    ensures PlainSegments(segments) && PlainSegments(segments + [""])
    ensures ExtendAll("", segments) == Join(segments, '/')
    ensures ExtendAll("", segments) + "/" == Join(segments + [""], '/')
  {
    hide Lacks, ExtendAll, Join;
    assert forall i :: 0 <= i < |segments| ==> PlainSegment(segments[i]) && Lacks(segments[i], '/');
    ExtendAllFromNothing(segments);
    JoinAppend(segments, "", '/');
    PlainDirectory(segments);
  }

  lemma PlainDirectory(segments: seq<string>)
    requires PlainSegments(segments)
    ensures PlainSegments(segments + [""])
  {
  }

  lemma ExtendAllFromNothing(segments: seq<string>)
    requires segments != [] && forall i :: 0 <= i < |segments| ==> segments[i] != "" && Lacks(segments[i], '/')
    ensures ExtendAll("", segments) == Join(segments, '/')
  {
    hide Lacks;
    assert [segments[0]] + segments[1..] == segments;
    ExtendAllIsJoin([segments[0]], segments[1..]);
    assert Join([segments[0]], '/') == segments[0] == Extend("", segments[0]);
  }

  /** The removals meet an ambiguity exactly when the base starts with two empty segments and at most two stay. */
  lemma AmbiguousBase(base: seq<string>, left: nat)
    requires left <= |base|
    ensures base == ["", ""] || PassesDoubleSlash(base, left) <==> ["", ""] <= base && left <= 2
  {
    if ["", ""] <= base && |base| == 2 {
      assert base == [base[0], base[1]] == ["", ""];
    }
  }

  /** The relative path resolved on stacks, with a final segment `last` appended to the target's. */
  lemma RelativeStack(basePath: string, t: seq<string>, last: string)
    requires CleanNames(t[Common(Split(basePath, '/'), t)..]) && (CleanName(last) || last == "")
    ensures var base, c := BaseStack(basePath), Common(Split(basePath, '/'), t);
            var segments := Ups(|Split(basePath, '/')| - 1 - c) + (t[c..] + [last]);
            && RemoveDotSegments(base, segments) == Some(t + [last])
            && (GoesAstray(base, segments) <==> ["", ""] <= base && c <= 2)
  {
    hide Split, Common, CommonFrom, CleanName, CleanNames, RemoveDotSegments, MeetsAmbiguity, Ups, PassesDoubleSlash;
    var b := Split(basePath, '/');
    var base, c := BaseStack(basePath), Common(b, t);
    SharedStack(b, t);
    UpsThenNames(base, |base| - c, t[c..], last);
    AmbiguousBase(base, c);
  }

  lemma SharedStack(b: seq<string>, t: seq<string>)
    requires b != []
    ensures b[..|b| - 1][..Common(b, t)] + t[Common(b, t)..] == t
  {
  }

  /** No shorter way: whatever ".." segments and names lead from the base's directory to a target that is no ancestor,
      they are at least as many. */
  lemma RelativeIsShortest(basePath: string, t: seq<string>, n: nat, names: seq<string>, last: string)
    requires Common(Split(basePath, '/'), t) < |t| && n <= |BaseStack(basePath)| && CleanNames(names) && CleanName(last)
    requires RemoveDotSegments(BaseStack(basePath), Ups(n) + (names + [last])) == Some(t)
    ensures |RelativeSegments(Split(basePath, '/'), t)| <= |Ups(n) + (names + [last])|
  {
    hide Split, CleanName, CleanNames, RemoveDotSegments, MeetsAmbiguity, PassesDoubleSlash;
    var b, base := Split(basePath, '/'), BaseStack(basePath);
    UpsThenNames(base, n, names, last);
    SharedIsCommon(b, t, |base| - n, names + [last]);
    assert base[..|base| - n] + names + [last] == base[..|base| - n] + (names + [last]);
  }

  lemma SharedIsCommon(b: seq<string>, t: seq<string>, k: nat, rest: seq<string>)
    requires b != [] && k <= |b| - 1 && t == b[..|b| - 1][..k] + rest && Common(b, t) < |t|
    ensures k <= Common(b, t) && |rest| == |t| - k
  {
    hide Common, CommonFrom;
    assert forall i :: 0 <= i < k ==> t[i] == b[i];
  }

  lemma CommonOfPrefix(b: seq<string>, t: seq<string>)
    requires b != [] && Common(b, t) < |t|
    ensures Common(b, t[..|t| - 1]) == Common(b, t)
  {
  }

  lemma SegmentsOf(b: seq<string>, t: seq<string>)
    requires b != [] && Common(b, t) < |t|
    ensures var c := Common(b, t);
            && RelativeSegments(b, t) + [""] == Ups(|b| - 1 - c) + (t[c..] + [""])
            && RelativeSegments(b, t) == Ups(|b| - 1 - c) + (t[..|t| - 1][c..] + [t[|t| - 1]])
  {
    var c := Common(b, t);
    assert t[c..] == t[..|t| - 1][c..] + [t[|t| - 1]];
  }

  lemma CleanParts(t: seq<string>, c: nat)
    requires c < |t| && CleanNames(t[c..])
    ensures CleanNames(t[..|t| - 1][c..]) && CleanName(t[|t| - 1]) && t[..|t| - 1] + [t[|t| - 1]] == t
  {
    assert t[|t| - 1] == t[c..][|t| - 1 - c];
    assert forall i :: 0 <= i < |t| - 1 - c ==> t[..|t| - 1][c..][i] == t[c..][i];
  }

  lemma ResolveRelativeFile(basePath: string, t: seq<string>)
    requires var c := Common(Split(basePath, '/'), t); c < |t| && CleanNames(t[c..])
    ensures Resolve(ExtendAll("", RelativeSegments(Split(basePath, '/'), t)), basePath) == Resolved(Join(t, '/'))
            <==> !(["", ""] <= BaseStack(basePath) && Common(Split(basePath, '/'), t) <= 2)
  {
    hide *;
    var b := Split(basePath, '/');
    RelativePathIsJoin(b, t);
    FileStack(basePath, t);
    ResolvePlain(RelativeSegments(b, t), basePath, t);
  }

  lemma FileStack(basePath: string, t: seq<string>)
    requires var c := Common(Split(basePath, '/'), t); c < |t| && CleanNames(t[c..])
    ensures var base, segments := BaseStack(basePath), RelativeSegments(Split(basePath, '/'), t);
            && RemoveDotSegments(base, segments) == Some(t)
            && (GoesAstray(base, segments) <==> ["", ""] <= base && Common(Split(basePath, '/'), t) <= 2)
  {
    hide *;
    var b := Split(basePath, '/');
    CleanParts(t, Common(b, t));
    CommonOfPrefix(b, t);
    SegmentsOf(b, t);
    RelativeStack(basePath, t[..|t| - 1], t[|t| - 1]);
  }

  lemma ResolveRelativeDirectory(basePath: string, t: seq<string>)
    requires var c := Common(Split(basePath, '/'), t); c < |t| && CleanNames(t[c..])
    ensures Resolve(ExtendAll("", RelativeSegments(Split(basePath, '/'), t)) + "/", basePath)
            == Resolved(Join(t + [""], '/'))
            <==> !(["", ""] <= BaseStack(basePath) && Common(Split(basePath, '/'), t) <= 2)
  {
    hide *;
    var b := Split(basePath, '/');
    RelativePathIsJoin(b, t);
    SegmentsOf(b, t);
    RelativeStack(basePath, t, "");
    var segments := RelativeSegments(b, t) + [""];
    ResolvePlain(segments, basePath, t + [""]);
  }

  /** A directory is an ancestor of the paths in it, itself included. */
  lemma SelfIsAncestor(path: string)
    requires path != "" && path[|path| - 1] == '/'
    ensures var t := Split(Stripped(path), '/');
            Split(path, '/') == t + [""] && Common(Split(path, '/'), t) == |t|
  {
    hide Split, Common, CommonFrom, Join;
    var stripped := Stripped(path);
    var t := Split(stripped, '/');
    JoinSplit(stripped, '/');
    SplitIsDelimFree(stripped, '/');
    JoinAppend(t, "", '/');
    assert path == stripped + ['/'] + "";
    SplitJoin(t + [""], '/');
    CommonWithItself(t);
  }

  lemma CommonWithItself(t: seq<string>)
    ensures Common(t + [""], t) == |t|
  {
  }

  /** Round trip: for a target that is no directory ancestor of the base and whose segments past the common ones are
      clean names, resolving its relative path against the base gives it back, except exactly when the base starts
      with "//" and shares at most two segments with the target. */
  lemma RelativeRoundTrip(basePath: string, targetPath: string)
    requires targetPath != ""
    requires var t := Split(Stripped(targetPath), '/');
             var c := Common(Split(basePath, '/'), t);
             c < |t| && CleanNames(t[c..])
    ensures Resolve(RelativePath(basePath, targetPath), basePath) == Resolved(targetPath)
            <==> !(&& ["", ""] <= BaseStack(basePath)
                   && Common(Split(basePath, '/'), Split(Stripped(targetPath), '/')) <= 2)
  {
    hide Resolve, Split, ExtendAll, RelativeSegments, CleanNames, BaseStack, Common, CommonFrom, Join;
    var t := Split(Stripped(targetPath), '/');
    JoinSplit(Stripped(targetPath), '/');
    if targetPath[|targetPath| - 1] == '/' {
      JoinAppend(t, "", '/');
      assert targetPath == Stripped(targetPath) + "/";
      SelfIsAncestor(targetPath);
      ResolveRelativeDirectory(basePath, t);
    } else {
      ResolveRelativeFile(basePath, t);
    }
  }

  /** The relative path of a directory ancestor resolves to the parent of the target, with or without a trailing
      slash, unless removing segments of a base that starts "//" leaves at most two. */
  lemma AncestorResolvesToParent(basePath: string, targetPath: string)
    requires targetPath != "" && basePath != targetPath
    requires var t := Split(Stripped(targetPath), '/'); Common(Split(basePath, '/'), t) == |t|
    ensures var t := Split(Stripped(targetPath), '/');
            Resolve(RelativePath(basePath, targetPath), basePath) == Resolved(Join(t[..|t| - 1] + [""], '/'))
            <==> !(["", ""] <= BaseStack(basePath) && |t| - 1 <= 2)
  {
    hide RemoveDotSegments, MeetsAmbiguity, Resolve, Join, Split, ExtendAll;
    var b, base := Split(basePath, '/'), BaseStack(basePath);
    var t := Split(Stripped(targetPath), '/');
    var n := |base| + 1 - |t|;
    RelativePathIsJoin(b, t);
    assert RelativeSegments(b, t) == Ups(n);
    assert base[..|base| - n] == t[..|t| - 1];
    AmbiguousBase(base, |t| - 1);
    if targetPath[|targetPath| - 1] == '/' {
      UpsThenNames(base, n, [], "");
      assert Ups(n) + ([] + [""]) == Ups(n) + [""];
      assert t[..|t| - 1] + [] + [""] == t[..|t| - 1] + [""];
      ResolvePlain(Ups(n) + [""], basePath, t[..|t| - 1] + [""]);
    } else {
      UpsAlone(base, n);
      ResolvePlain(Ups(n), basePath, t[..|t| - 1] + [""]);
    }
  }

  /** A directory's path relative to itself, "./", resolves to it, except for "//". */
  lemma SelfRoundTrip(path: string)
    requires path != "" && path[|path| - 1] == '/'
    ensures Resolve(RelativePath(path, path), path) == Resolved(path) <==> BaseStack(path) != ["", ""]
  {
    var base := BaseStack(path);
    SelfIsAncestor(path);
    JoinSplit(path, '/');
    assert base == Split(Stripped(path), '/') && base + [""] == Split(path, '/');
    assert Join([".", ""], '/') == "./" by {
      assert [".", ""][1..] == [""];
    }
    assert RemoveDotSegments(base, [".", ""]) == Some(base + [""]) by {
      assert [".", ""][1..] == [""];
    }
    assert !MeetsAmbiguity(base, false, [".", ""]) by {
      assert [".", ""][1..] == [""];
    }
    hide RemoveDotSegments, MeetsAmbiguity, Resolve, Join, Split;
    ResolvePlain([".", ""], path, base + [""]);
  }

  /** A base and a target that begin "//" and share no more than that: the way from "//a" to "//b" leads elsewhere. */
  lemma DoubleSlashIsNotRestored()
    ensures Resolve(RelativePath("//a", "//b"), "//a") != Resolved("//b")
  {
    hide *;
    DoubleSlashNames();
    RelativeRoundTrip("//a", "//b");
  }

  /** The directory "//" relative to itself leads elsewhere. */
  lemma DoubleSlashIsNotItself()
    ensures Resolve(RelativePath("//", "//"), "//") != Resolved("//")
  {
    hide *;
    OnlyDoubleSlash();
    SelfRoundTrip("//");
  }

  /** Below "//" the way to that directory does not lead to its parent. */
  lemma DoubleSlashHasNoParent()
    ensures Resolve(RelativePath("//a", "//"), "//a") != Resolved("/")
  {
    hide *;
    DoubleSlashNames();
    OnlyDoubleSlash();
    AncestorResolvesToParent("//a", "//");
    assert Join(["", ""][..1] + [""], '/') == "/" by {
      TwoEmptySegments();
    }
  }

  lemma OnlyDoubleSlash()
    ensures "//" != "" && "//"[|"//"| - 1] == '/' && Stripped("//") == "/"
    ensures BaseStack("//") == ["", ""] && Split("/", '/') == ["", ""]
    ensures Common(["", "", "a"], ["", ""]) == |["", ""]|
  {
    TwoEmptySegments();
    assert Stripped("//") == "/";
    SelfIsAncestor("//");
    var b, t := ["", "", "a"], ["", ""];
    assert b[0] == t[0] && b[1] == t[1];
  }

  lemma TwoEmptySegments()
    ensures ["", ""][..1] + [""] == ["", ""]
    ensures Join(["", ""], '/') == "/" && Split("/", '/') == ["", ""]
  {
    assert ["", ""][1..] == [""];
    assert Join(["", ""], '/') == "/";
    SplitJoin(["", ""], '/');
  }

  lemma DoubleSlashNames()
    ensures Split("//a", '/') == ["", "", "a"] && BaseStack("//a") == ["", ""]
    ensures Stripped("//b") == "//b" && Split("//b", '/') == ["", "", "b"]
    ensures var c := Common(Split("//a", '/'), Split("//b", '/')); c == 2 && CleanNames(Split("//b", '/')[c..])
  {
    hide Split;
    SplitDoubleSlash("a");
    SplitDoubleSlash("b");
    assert "//" + "a" == "//a" && "//" + "b" == "//b";
    TwoCommon();
    OneCleanName();
    assert ["", "", "b"][2..] == ["b"];
  }

  lemma TwoCommon()
    ensures Common(["", "", "a"], ["", "", "b"]) == 2
  {
    var b, t := ["", "", "a"], ["", "", "b"];
    assert b[0] == t[0] && b[1] == t[1];
  }

  lemma OneCleanName()
    ensures CleanNames(["b"])
  {
  }
}
