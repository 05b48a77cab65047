/**
 Splitting an archive file into parts (`ZimSplitter` of src/zimsplit.cpp). Parts are cut at cluster offsets only; a
 new part is begun when the next chunk would overfill a part that is not empty.
 */
module ZimSplitters {

  const BUFFER_SIZE: nat := 4096

  // ---------- Offsets and chunks ----------

  function Insert(x: nat, s: seq<nat>): seq<nat> {
    if s == [] || x <= s[0] then [x] + s else [s[0]] + Insert(x, s[1..])
  }

  /** `std::sort`. */
  function Sort(s: seq<nat>): seq<nat> {
    if s == [] then [] else Insert(s[0], Sort(s[1..]))
  }

  /** In order, and none below `last`. */
  ghost predicate Ascending(last: nat, s: seq<nat>)
    decreases |s|
  {
    s != [] ==> last <= s[0] && Ascending(s[0], s[1..])
  }

  lemma {:induction false} InsertAscends(last: nat, x: nat, s: seq<nat>)
    requires Ascending(last, s) && last <= x
    ensures Ascending(last, Insert(x, s)) && multiset(Insert(x, s)) == multiset(s) + multiset{x}
    decreases |s|
  {
    if s == [] || x <= s[0] {
      assert ([x] + s)[1..] == s;
    } else {
      InsertAscends(s[0], x, s[1..]);
      assert ([s[0]] + Insert(x, s[1..]))[1..] == Insert(x, s[1..]);
      assert s == [s[0]] + s[1..];
    }
  }

  lemma {:induction false} SortAscends(s: seq<nat>)
    ensures Ascending(0, Sort(s)) && multiset(Sort(s)) == multiset(s)
  {
    if s != [] {
      SortAscends(s[1..]);
      InsertAscends(0, s[0], Sort(s[1..]));
      assert s == [s[0]] + s[1..];
    }
  }

  lemma {:induction false} LastIsGreatest(last: nat, s: seq<nat>)
    requires Ascending(last, s) && s != []
    ensures last <= s[|s| - 1] && forall i :: 0 <= i < |s| ==> s[i] <= s[|s| - 1]
    decreases |s|
  {
    if |s| > 1 {
      LastIsGreatest(s[0], s[1..]);
      assert forall i :: 1 <= i < |s| ==> s[i] == s[1..][i - 1];
    }
  }

  /** The cluster offsets and the file size, in order. */
  function Offsets(clusterOffsets: seq<nat>, filesize: nat): seq<nat> {
    Sort(clusterOffsets + [filesize])
  }

  /** The distances from one offset to the next. */
  function Chunks(last: nat, offsets: seq<nat>): (chunks: seq<nat>)
    requires Ascending(last, offsets)
    ensures |chunks| == |offsets|
    decreases |offsets|
  {
    if offsets == [] then [] else [(offsets[0] - last) as nat] + Chunks(offsets[0], offsets[1..])
  }

  lemma ChunksStep(last: nat, offsets: seq<nat>, i: nat)
    requires i < |offsets| && Ascending(last, offsets[i..])
    ensures last <= offsets[i] && Ascending(offsets[i], offsets[i + 1..])
    ensures Chunks(last, offsets[i..]) == [offsets[i] - last] + Chunks(offsets[i], offsets[i + 1..])
  {
    assert offsets[i..][1..] == offsets[i + 1..];
  }

  /** Each chunk is the distance from the offset before, the first one from the beginning of the file. */
  lemma {:induction false} ChunksAreDistances(last: nat, offsets: seq<nat>, i: nat)
    requires Ascending(last, offsets) && i < |offsets|
    ensures Chunks(last, offsets)[i] == offsets[i] - if i == 0 then last else offsets[i - 1]
    decreases i
  {
    if i > 0 {
      ChunksAreDistances(offsets[0], offsets[1..], i - 1);
    }
  }

  function Sum(s: seq<nat>): nat {
    if s == [] then 0 else Sum(s[..|s| - 1]) + s[|s| - 1]
  }

  lemma SumAppend(s: seq<nat>, x: nat)
    ensures Sum(s + [x]) == Sum(s) + x
  {
    assert (s + [x])[..|s|] == s;
  }

  lemma {:induction false} SumFirst(x: nat, s: seq<nat>)
    ensures Sum([x] + s) == x + Sum(s)
  {
    if s == [] {
      SumAppend([], x);
      assert [] + [x] == [x] == [x] + s;
    } else {
      var init, last := s[..|s| - 1], s[|s| - 1];
      SumFirst(x, init);
      SumAppend([x] + init, last);
      assert [x] + init + [last] == [x] + s;
    }
  }

  /** So the first chunks together reach up to an offset. */
  lemma {:induction false} ChunksReachOffset(offsets: seq<nat>, i: nat)
    requires Ascending(0, offsets) && i < |offsets|
    ensures Sum(Chunks(0, offsets)[..i + 1]) == offsets[i]
  {
    var chunks := Chunks(0, offsets);
    ChunksAreDistances(0, offsets, i);
    hide Chunks, Ascending;
    SumAppend(chunks[..i], chunks[i]);
    assert chunks[..i + 1] == chunks[..i] + [chunks[i]];
    if i > 0 {
      ChunksReachOffset(offsets, i - 1);
    } else {
      assert chunks[..0] == [] && Sum([]) == 0;
    }
  }

  // ---------- Where the cuts fall ----------

  /** The groups of chunks that make up the parts, `cur` being in the part now open. */
  function Groups(cur: seq<nat>, chunks: seq<nat>, maxPartSize: nat): (groups: seq<seq<nat>>)
    ensures groups != []
    decreases |chunks|
  {
    if chunks == [] then [cur]
    else if Sum(cur) > 0 && Sum(cur) + chunks[0] > maxPartSize then
      [cur] + Groups([chunks[0]], chunks[1..], maxPartSize)
    else Groups(cur + [chunks[0]], chunks[1..], maxPartSize)
  }

  /** No chunk of a group came when the part was not empty and had no room for it. */
  ghost predicate HadRoom(group: seq<nat>, maxPartSize: nat) {
    forall i :: 0 <= i < |group| ==> Sum(group[..i]) == 0 || Sum(group[..i]) + group[i] <= maxPartSize
  }

  /** The next group begins with a chunk for which the part, not empty, had no room. */
  ghost predicate WasFull(group: seq<nat>, next: seq<nat>, maxPartSize: nat) {
    Sum(group) > 0 && next != [] && Sum(group) + next[0] > maxPartSize
  }

  /** A part is closed exactly when it is not empty and the next chunk does not fit into it. */
  lemma {:induction false} GroupsAreGreedy(cur: seq<nat>, chunks: seq<nat>, maxPartSize: nat)
    requires HadRoom(cur, maxPartSize)
    ensures var groups := Groups(cur, chunks, maxPartSize);
            && cur <= groups[0]
            && (forall k :: 0 <= k < |groups| ==> HadRoom(groups[k], maxPartSize))
            && forall k :: 0 <= k < |groups| - 1 ==> WasFull(groups[k], groups[k + 1], maxPartSize)
    decreases |chunks|
  {
    hide Sum, HadRoom;
    if chunks != [] {
      var x, rest := chunks[0], chunks[1..];
      if Sum(cur) > 0 && Sum(cur) + x > maxPartSize {
        EmptyHadRoom(maxPartSize);
        HadRoomStep([], x, maxPartSize);
        assert [] + [x] == [x];
        GroupsAreGreedy([x], rest, maxPartSize);
      } else {
        HadRoomStep(cur, x, maxPartSize);
        GroupsAreGreedy(cur + [x], rest, maxPartSize);
        assert cur <= cur + [x];
      }
    }
  }

  lemma EmptyHadRoom(maxPartSize: nat)
    ensures Sum([]) == 0 && HadRoom([], maxPartSize)
  {
  }

  lemma HadRoomStep(group: seq<nat>, x: nat, maxPartSize: nat)
    requires HadRoom(group, maxPartSize) && (Sum(group) == 0 || Sum(group) + x <= maxPartSize)
    ensures HadRoom(group + [x], maxPartSize)
  {
    var longer := group + [x];
    assert longer[..|group|] == group;
    assert forall i :: 0 <= i < |group| ==> longer[..i] == group[..i];
    hide Sum;
  }

  function Flatten<T>(ss: seq<seq<T>>): seq<T> {
    if ss == [] then [] else ss[0] + Flatten(ss[1..])
  }

  /** No chunk is lost, repeated or split between parts. */
  lemma {:induction false} GroupsKeepChunks(cur: seq<nat>, chunks: seq<nat>, maxPartSize: nat)
    ensures Flatten(Groups(cur, chunks, maxPartSize)) == cur + chunks
    decreases |chunks|
  {
    if chunks == [] {
      assert Flatten([cur]) == cur + Flatten([cur][1..]);
    } else {
      var c, rest := chunks[0], chunks[1..];
      assert chunks == [c] + rest;
      if Sum(cur) > 0 && Sum(cur) + c > maxPartSize {
        GroupsKeepChunks([c], rest, maxPartSize);
        var others := Groups([c], rest, maxPartSize);
        assert ([cur] + others)[1..] == others;
      } else {
        GroupsKeepChunks(cur + [c], rest, maxPartSize);
        assert cur + [c] + rest == cur + chunks;
      }
    }
  }

  /** A part within the limit, or one oversized chunk after empty ones only. */
  ghost predicate Acceptable(group: seq<nat>, maxPartSize: nat) {
    Sum(group) <= maxPartSize
    || (group != [] && group[|group| - 1] > maxPartSize && Sum(group[..|group| - 1]) == 0)
  }

  ghost predicate AllAcceptable(groups: seq<seq<nat>>, maxPartSize: nat) {
    forall k :: 0 <= k < |groups| ==> Acceptable(groups[k], maxPartSize)
  }

  lemma {:induction false} GroupsAcceptable(cur: seq<nat>, chunks: seq<nat>, maxPartSize: nat)
    requires Acceptable(cur, maxPartSize)
    ensures AllAcceptable(Groups(cur, chunks, maxPartSize), maxPartSize)
    decreases |chunks|
  {
    if chunks != [] {
      var c, rest := chunks[0], chunks[1..];
      if Sum(cur) > 0 && Sum(cur) + c > maxPartSize {
        ExtendAcceptable([], c, maxPartSize);
        assert [] + [c] == [c];
        GroupsAcceptable([c], rest, maxPartSize);
        hide Acceptable;
        assert Groups(cur, chunks, maxPartSize) == [cur] + Groups([c], rest, maxPartSize);
      } else {
        ExtendAcceptable(cur, c, maxPartSize);
        GroupsAcceptable(cur + [c], rest, maxPartSize);
        hide AllAcceptable, Acceptable;
      }
    }
  }

  lemma ExtendAcceptable(cur: seq<nat>, c: nat, maxPartSize: nat)
    requires Sum(cur) == 0 || Sum(cur) + c <= maxPartSize
    ensures Acceptable(cur + [c], maxPartSize)
  {
    SumAppend(cur, c);
    assert (cur + [c])[..|cur|] == cur;
  }

  /** Another way to cut the remaining chunks, whose open part already holds `held`. */
  ghost predicate Fits(held: nat, parts: seq<seq<nat>>, chunks: seq<nat>, maxPartSize: nat) {
    && parts != [] && Flatten(parts) == chunks
    && held + Sum(parts[0]) <= maxPartSize
    && forall k :: 1 <= k < |parts| ==> Sum(parts[k]) <= maxPartSize
  }

  lemma FitsNextPart(held: nat, parts: seq<seq<nat>>, chunks: seq<nat>, maxPartSize: nat)
    requires Fits(held, parts, chunks, maxPartSize) && chunks != [] && parts[0] == []
    ensures |parts| > 1 && Fits(0, parts[1..], chunks, maxPartSize)
  {
    assert Flatten(parts) == Flatten(parts[1..]);
    assert Flatten<nat>([]) == [];
    assert forall k :: 1 <= k < |parts[1..]| ==> parts[1..][k] == parts[k + 1];
  }

  lemma FitsNextChunk(held: nat, parts: seq<seq<nat>>, chunks: seq<nat>, maxPartSize: nat)
    requires Fits(held, parts, chunks, maxPartSize) && chunks != [] && parts[0] != []
    ensures held + chunks[0] <= maxPartSize
    ensures Fits(held + chunks[0], [parts[0][1..]] + parts[1..], chunks[1..], maxPartSize)
  {
    var first := parts[0];
    assert chunks[0] == first[0];
    assert first == [first[0]] + first[1..];
    SumFirst(first[0], first[1..]);
    var parts' := [first[1..]] + parts[1..];
    assert parts'[1..] == parts[1..];
    assert chunks[1..] == first[1..] + Flatten(parts[1..]);
  }

  /** Greedy stays ahead: with no more in its open part than the other, it needs no more parts; with more, at most one
      part more. */
  lemma {:induction false} GreedyStaysAhead(cur: seq<nat>, held: nat, parts: seq<seq<nat>>, chunks: seq<nat>,
                                            maxPartSize: nat)
    requires Fits(held, parts, chunks, maxPartSize) && Sum(cur) <= maxPartSize
    requires forall i :: 0 <= i < |chunks| ==> chunks[i] <= maxPartSize
    ensures |Groups(cur, chunks, maxPartSize)| <= |parts| + if Sum(cur) <= held then 0 else 1
    decreases |chunks|, |parts|
  {
    if chunks != [] {
      if parts[0] == [] {
        FitsNextPart(held, parts, chunks, maxPartSize);
        GreedyStaysAhead(cur, 0, parts[1..], chunks, maxPartSize);
      } else {
        var c, rest := chunks[0], chunks[1..];
        FitsNextChunk(held, parts, chunks, maxPartSize);
        var parts' := [parts[0][1..]] + parts[1..];
        assert |parts'| == |parts|;
        SumAppend(cur, c);
        SumAppend([], c);
        assert [] + [c] == [c];
        if Sum(cur) > 0 && Sum(cur) + c > maxPartSize {
          GreedyStaysAhead([c], held + c, parts', rest, maxPartSize);
        } else {
          GreedyStaysAhead(cur + [c], held + c, parts', rest, maxPartSize);
        }
      }
    }
  }

  /** A way to cut the chunks at their boundaries into parts that fit. */
  ghost predicate IsCut(parts: seq<seq<nat>>, chunks: seq<nat>, maxPartSize: nat) {
    parts != [] && Flatten(parts) == chunks && forall k :: 0 <= k < |parts| ==> Sum(parts[k]) <= maxPartSize
  }

  ghost predicate CanBeCut(chunks: seq<nat>, maxPartSize: nat, n: nat) {
    exists parts :: IsCut(parts, chunks, maxPartSize) && |parts| <= n
  }

  ghost predicate NoneOversized(chunks: seq<nat>, maxPartSize: nat) {
    forall i :: 0 <= i < |chunks| ==> chunks[i] <= maxPartSize
  }

  /** When no chunk is oversized, the groups are such a cut. */
  lemma GroupsAreCut(chunks: seq<nat>, maxPartSize: nat)
    requires NoneOversized(chunks, maxPartSize)
    ensures IsCut(Groups([], chunks, maxPartSize), chunks, maxPartSize)
  {
    hide Groups;
    GroupsAcceptable([], chunks, maxPartSize);
    GroupsKeepChunks([], chunks, maxPartSize);
    assert [] + chunks == chunks;
    var groups := Groups([], chunks, maxPartSize);
    forall k | 0 <= k < |groups| ensures Sum(groups[k]) <= maxPartSize {
      if groups[k] != [] {
        InFlatten(groups, k, |groups[k]| - 1);
      }
    }
  }

  /** And no such cut has fewer parts. */
  lemma GroupsAreOptimal(chunks: seq<nat>, maxPartSize: nat, parts: seq<seq<nat>>)
    requires NoneOversized(chunks, maxPartSize) && IsCut(parts, chunks, maxPartSize)
    ensures |Groups([], chunks, maxPartSize)| <= |parts|
  {
    GreedyStaysAhead([], 0, parts, chunks, maxPartSize);
  }

  /** How many parts are enough, whatever the way of cutting. */
  lemma EnoughPartsIff(chunks: seq<nat>, maxPartSize: nat, n: nat)
    requires NoneOversized(chunks, maxPartSize)
    ensures |Groups([], chunks, maxPartSize)| <= n <==> CanBeCut(chunks, maxPartSize, n)
  {
    hide Groups, IsCut;
    GroupsAreCut(chunks, maxPartSize);
    if CanBeCut(chunks, maxPartSize, n) {
      var parts :| IsCut(parts, chunks, maxPartSize) && |parts| <= n;
      GroupsAreOptimal(chunks, maxPartSize, parts);
    }
  }

  lemma {:induction false} InFlatten<T>(ss: seq<seq<T>>, k: nat, i: nat)
    requires k < |ss| && i < |ss[k]|
    ensures ss[k][i] in Flatten(ss)
  {
    if k == 0 {
      assert Flatten(ss)[i] == ss[0][i];
    } else {
      InFlatten(ss[1..], k - 1, i);
      assert forall x :: x in Flatten(ss[1..]) ==> x in ss[0] + Flatten(ss[1..]);
    }
  }

  // ---------- Part names ----------

  // The 676th suffix, "zz", is computed but the program exits before using it.
  const MAX_PARTS: nat := 675

  /** The suffix of the `k`-th part, counting from 0: "aa", "ab", ... */
  function Suffix(k: nat): string
    requires k < 676
  {
    [('a' as int + k / 26) as char, ('a' as int + k % 26) as char]
  }

  /** The `k`-th pair of letters: read as a number in base 26 it is `k`. */
  lemma SuffixIsPairOfLetters(k: nat)
    requires k < 676
    ensures |Suffix(k)| == 2 && 'a' <= Suffix(k)[0] <= 'z' && 'a' <= Suffix(k)[1] <= 'z'
    ensures 26 * (Suffix(k)[0] as int - 'a' as int) + (Suffix(k)[1] as int - 'a' as int) == k
  {
    assert k == 26 * (k / 26) + k % 26;
  }

  /** Later parts have later names, so parts joined in the order of their names are in order. */
  lemma SuffixesAscend(j: nat, k: nat)
    requires j < k < 676
    ensures Suffix(j)[0] < Suffix(k)[0] || (Suffix(j)[0] == Suffix(k)[0] && Suffix(j)[1] < Suffix(k)[1])
  {
    assert j == 26 * (j / 26) + j % 26 && k == 26 * (k / 26) + k % 26;
  }

  // ---------- The splitter ----------

  type Byte = b: int | 0 <= b < 256

  datatype Part = Part(name: string, data: seq<Byte>)

  datatype Outcome = Completed | TooManyParts | ReadError

  function Data(parts: seq<Part>): seq<Byte> {
    if parts == [] then [] else Data(parts[..|parts| - 1]) + parts[|parts| - 1].data
  }

  function ToInt(firstIndex: nat, secondIndex: nat): nat {
    26 * firstIndex + secondIndex
  }

  /** The parts' sizes are the sums of the groups of chunks, and their names are in order. */
  ghost predicate Matches(parts: seq<Part>, groups: seq<seq<nat>>, prefix: string) {
    && |parts| == |groups| <= MAX_PARTS
    && forall k :: 0 <= k < |parts| ==> |parts[k].data| == Sum(groups[k]) && parts[k].name == prefix + Suffix(k)
  }

  lemma DataAppend(parts: seq<Part>, part: Part)
    ensures Data(parts + [part]) == Data(parts) + part.data
  {
    assert (parts + [part])[..|parts|] == parts;
  }

  /** A new part, empty, under the next name. */
  function AddPart(parts: seq<Part>, prefix: string): seq<Part>
    requires |parts| < 676
  {
    parts + [Part(prefix + Suffix(|parts|), [])]
  }

  /** More data at the end of the last part. */
  function AddBytes(parts: seq<Part>, bytes: seq<Byte>): seq<Part>
    requires parts != []
  {
    var top := |parts| - 1;
    parts[..top] + [Part(parts[top].name, parts[top].data + bytes)]
  }

  class ZimSplitter {
    const file: seq<Byte>
    const clusterOffsets: seq<nat>
    const prefix: string
    const maxPartSize: nat

    var firstIndex: nat
    var secondIndex: nat
    var readPos: nat
    var parts: seq<Part>
    var currentPartSize: nat

    constructor (file: seq<Byte>, clusterOffsets: seq<nat>, prefix: string, maxPartSize: nat)
      ensures this.file == file && this.clusterOffsets == clusterOffsets && this.prefix == prefix
      ensures this.maxPartSize == maxPartSize && Initial()
    {
      this.file, this.clusterOffsets, this.prefix, this.maxPartSize := file, clusterOffsets, prefix, maxPartSize;
      firstIndex, secondIndex, readPos, parts, currentPartSize := 0, 0, 0, [], 0;
    }

    ghost predicate Initial()
      reads this
    {
      firstIndex == 0 && secondIndex == 0 && readPos == 0 && parts == [] && currentPartSize == 0
    }

    /** The suffixes are those of the parts so far. */
    ghost predicate Counting()
      reads this
    {
      secondIndex < 26 && ToInt(firstIndex, secondIndex) == |parts| <= MAX_PARTS
    }

    lemma NothingWritten()
      requires Initial()
      ensures Counting() && parts == [] && 0 < MAX_PARTS && readPos == 0
    {
    }

    /** The next suffix, or nothing when the program gives up. */
    method GetNewSuffix() returns (ok: bool, out: string)
      requires Counting()
      modifies this`firstIndex, this`secondIndex
      ensures ok <==> |parts| < MAX_PARTS
      ensures ok ==> secondIndex < 26 && ToInt(firstIndex, secondIndex) == |parts| + 1 && out == Suffix(|parts|)
    {
      assert firstIndex == |parts| / 26 && secondIndex == |parts| % 26;
      out := [('a' as int + firstIndex) as char] + [('a' as int + secondIndex) as char];
      secondIndex := secondIndex + 1;
      if secondIndex > 25 {
        firstIndex := firstIndex + 1;
        secondIndex := 0;
      }
      ok := firstIndex <= 25;
    }

    method NewFile() returns (ok: bool)
      requires Counting()
      modifies this`firstIndex, this`secondIndex, this`parts, this`currentPartSize
      ensures ok <==> old(|parts|) < MAX_PARTS
      ensures ok ==> Counting() && parts == AddPart(old(parts), prefix) && currentPartSize == 0
    {
      var suffix;
      ok, suffix := GetNewSuffix();
      if ok {
        parts := parts + [Part(prefix + suffix, [])];
        currentPartSize := 0;
      }
    }

    /** Copies in buffers; reading past the end of the file is an error. */
    method CopyOut(size: nat) returns (ok: bool)
      requires parts != [] && readPos <= |file|
      modifies this`readPos, this`parts, this`currentPartSize
      ensures ok <==> old(readPos) + size <= |file|
      ensures ok && old(Counting()) ==> Counting()
      ensures ok ==> readPos == old(readPos) + size && currentPartSize == old(currentPartSize) + size
      ensures ok ==> parts == AddBytes(old(parts), file[old(readPos)..readPos])
    {
      var left := size;
      var name := parts[|parts| - 1].name;
      ghost var init, data, from := parts[..|parts| - 1], parts[|parts| - 1].data, readPos;
      assert file[from..from] == [] && data + [] == data;
      while left > 0
        invariant readPos == from + (size - left) <= |file|
        invariant parts == init + [Part(name, data + file[from..readPos])]
        invariant currentPartSize == old(currentPartSize) + (size - left)
        invariant 0 <= left <= size
      {
        var sizeToCopy := if left < BUFFER_SIZE then left else BUFFER_SIZE;
        if readPos + sizeToCopy > |file| {
          return false;
        }
        var buffer := file[readPos..readPos + sizeToCopy];
        assert data + file[from..readPos] + buffer == data + file[from..readPos + sizeToCopy];
        var top := |parts| - 1;
        parts := parts[top := Part(name, parts[top].data + buffer)];
        readPos := readPos + sizeToCopy;
        currentPartSize := currentPartSize + sizeToCopy;
        left := left - sizeToCopy;
      }
      return true;
    }

    method GetOffsets() returns (offsets: seq<nat>)
      ensures offsets == Offsets(clusterOffsets, |file|) && Ascending(0, offsets) && offsets != []
      ensures InRange() <==> offsets[|offsets| - 1] == |file|
      ensures offsets[|offsets| - 1] >= |file|
    {
      offsets := Sort(clusterOffsets + [|file|]);
      SortAscends(clusterOffsets + [|file|]);
      LastOffset(clusterOffsets, |file|);
    }

    /** No cluster lies past the end of the file. */
    ghost predicate InRange() {
      forall i :: 0 <= i < |clusterOffsets| ==> clusterOffsets[i] <= |file|
    }

    /** Whether some chunk is too big for a part. */
    method Check() returns (error: bool)
      ensures Ascending(0, Offsets(clusterOffsets, |file|))
      ensures error <==> exists i :: 0 <= i < |Chunks(0, Offsets(clusterOffsets, |file|))|
                                     && Chunks(0, Offsets(clusterOffsets, |file|))[i] > maxPartSize
    {
      error := false;
      var offsets := GetOffsets();
      ghost var chunks := Chunks(0, offsets);
      hide Chunks, Ascending;
      var last := 0;
      assert offsets[0..] == offsets && chunks[0..] == chunks;
      for i := 0 to |offsets|
        invariant Ascending(last, offsets[i..]) && chunks[i..] == Chunks(last, offsets[i..])
        invariant error <==> exists j :: 0 <= j < i && chunks[j] > maxPartSize
      {
        ChunksStep(last, offsets, i);
        assert chunks[i] == chunks[i..][0] && chunks[i + 1..] == chunks[i..][1..];
        var chunkSize := offsets[i] - last;
        if chunkSize > maxPartSize {
          error := true;
        }
        last := offsets[i];
      }
    }

    /** The whole split. With all clusters inside the file: when the parts needed are at most 675, each part holds one
        group of chunks, in order and under names in order, and the parts joined are the file; otherwise the program
        gives up. A cluster past the end of the file is a read error, unless it gives up before. */
    method Run() returns (outcome: Outcome)
      requires Initial()
      modifies this
      ensures Ascending(0, Offsets(clusterOffsets, |file|))
      ensures var groups := Groups([], Chunks(0, Offsets(clusterOffsets, |file|)), maxPartSize);
              && (InRange() ==> outcome == if |groups| <= MAX_PARTS then Completed else TooManyParts)
              && (!InRange() ==> outcome != Completed)
              && (outcome == Completed ==> Matches(parts, groups, prefix) && Data(parts) == file)
      ensures var chunks := Chunks(0, Offsets(clusterOffsets, |file|));
              InRange() && NoneOversized(chunks, maxPartSize) ==>
                (outcome == Completed <==> CanBeCut(chunks, maxPartSize, MAX_PARTS))
    {
      ghost var done: seq<seq<nat>>, cur: seq<nat> := [], [];
      hide *;
      NothingWritten();
      var ok := NewFile();
      Begin(parts, prefix, file);
      var offsets := GetOffsets();
      ghost var chunks := Chunks(0, offsets);
      ghost var groups := Groups([], chunks, maxPartSize);
      var last: nat := 0;
      LastIsGreatest(0, offsets);
      BeginChunks(offsets, chunks, groups, maxPartSize);
      if NoneOversized(chunks, maxPartSize) {
        EnoughPartsIff(chunks, maxPartSize, MAX_PARTS);
      }
      for i := 0 to |offsets|
        invariant readPos == last <= |file|
        invariant OffsetsLeft(last, offsets, chunks, i)
        invariant GroupsLeft(groups, done, cur, chunks, i, maxPartSize)
        invariant Counting() && Written(parts, done, cur, prefix, file[..last])
        invariant currentPartSize == Sum(cur)
        invariant i > 0 ==> last == offsets[i - 1]
      {
        OffsetsLeftStep(last, offsets, chunks, i);
        var chunkSize: nat := offsets[i] - last;
        GroupsLeftStep(groups, done, cur, chunks, i, maxPartSize);
        if currentPartSize > 0 && currentPartSize + chunkSize > maxPartSize {
          BeginPart(parts, done, cur, prefix, file[..last]);
          ok := NewFile();
          if !ok {
            return TooManyParts;
          }
          done, cur := done + [cur], [];
          assert [] + [chunkSize] == [chunkSize];
        }
        FillPart(parts, done, cur, prefix, file, last, offsets[i]);
        ok := CopyOut(chunkSize);
        if !ok {
          return ReadError;
        }
        cur := cur + [chunkSize];
        last := offsets[i];
      }
      NoGroupsLeft(parts, groups, done, cur, chunks, maxPartSize, prefix, file);
      return Completed;
    }
  }

  // ---------- The state between two chunks ----------

  /** `chunks` from `i` on are the distances between the offsets still to come. */
  ghost predicate OffsetsLeft(last: nat, offsets: seq<nat>, chunks: seq<nat>, i: nat) {
    && |chunks| == |offsets| && i <= |offsets|
    && Ascending(last, offsets[i..]) && chunks[i..] == Chunks(last, offsets[i..])
  }

  lemma OffsetsLeftStep(last: nat, offsets: seq<nat>, chunks: seq<nat>, i: nat)
    requires OffsetsLeft(last, offsets, chunks, i) && i < |offsets|
    ensures |chunks| == |offsets| && last <= offsets[i] && chunks[i] == offsets[i] - last
    ensures OffsetsLeft(offsets[i], offsets, chunks, i + 1)
  {
    ChunksStep(last, offsets, i);
    assert chunks[i] == chunks[i..][0] && chunks[i + 1..] == chunks[i..][1..];
  }

  /** Of all the groups, `done` are closed and `cur` is the part of the next one that is already written. */
  ghost predicate GroupsLeft(groups: seq<seq<nat>>, done: seq<seq<nat>>, cur: seq<nat>, chunks: seq<nat>, i: nat,
                             maxPartSize: nat) {
    i <= |chunks| && groups == done + Groups(cur, chunks[i..], maxPartSize)
  }

  lemma GroupsLeftStep(groups: seq<seq<nat>>, done: seq<seq<nat>>, cur: seq<nat>, chunks: seq<nat>, i: nat,
                       maxPartSize: nat)
    requires GroupsLeft(groups, done, cur, chunks, i, maxPartSize) && i < |chunks|
    ensures |done| < |groups|
    ensures Sum([]) == 0
    ensures if Sum(cur) > 0 && Sum(cur) + chunks[i] > maxPartSize
            then |done| + 1 < |groups| && GroupsLeft(groups, done + [cur], [chunks[i]], chunks, i + 1, maxPartSize)
            else GroupsLeft(groups, done, cur + [chunks[i]], chunks, i + 1, maxPartSize)
  {
    assert chunks[i..][1..] == chunks[i + 1..];
    var others := Groups([chunks[i]], chunks[i + 1..], maxPartSize);
    assert done + ([cur] + others) == done + [cur] + others;
  }

  /** The parts hold `data`, cut into the groups `done` and, last, `cur`. */
  ghost predicate Written(parts: seq<Part>, done: seq<seq<nat>>, cur: seq<nat>, prefix: string, data: seq<Byte>) {
    |parts| == |done| + 1 && Matches(parts, done + [cur], prefix) && Data(parts) == data
  }

  lemma Begin(parts: seq<Part>, prefix: string, file: seq<Byte>)
    requires parts == AddPart([], prefix)
    ensures Sum([]) == 0 && Written(parts, [], [], prefix, file[..0])
  {
    var none: seq<Part> := [];
    DataAppend(none, Part(prefix + Suffix(0), []));
    assert parts == none + [Part(prefix + Suffix(0), [])];
    assert Data(none) == [];
    hide Suffix, Data, Sum;
  }

  lemma BeginChunks(offsets: seq<nat>, chunks: seq<nat>, groups: seq<seq<nat>>, maxPartSize: nat)
    requires Ascending(0, offsets) && chunks == Chunks(0, offsets) && groups == Groups([], chunks, maxPartSize)
    ensures OffsetsLeft(0, offsets, chunks, 0) && GroupsLeft(groups, [], [], chunks, 0, maxPartSize)
  {
    hide Ascending, Chunks, Groups;
    assert offsets[0..] == offsets && chunks[0..] == chunks;
    assert [] + groups == groups;
  }

  lemma BeginPart(parts: seq<Part>, done: seq<seq<nat>>, cur: seq<nat>, prefix: string, data: seq<Byte>)
    requires Written(parts, done, cur, prefix, data)
    ensures |parts| == |done| + 1
    ensures |parts| < MAX_PARTS ==>
              Written(AddPart(parts, prefix), done + [cur], [], prefix, data)
  {
    if |parts| < MAX_PARTS {
      DataAppend(parts, Part(prefix + Suffix(|parts|), []));
      assert Sum([]) == 0;
      hide Suffix, Data, Sum;
    }
  }

  lemma FillPart(parts: seq<Part>, done: seq<seq<nat>>, cur: seq<nat>, prefix: string, file: seq<Byte>, from: nat,
                 to: nat)
    requires from <= to && from <= |file| && Written(parts, done, cur, prefix, file[..from])
    ensures parts != [] && Sum(cur + [to - from]) == Sum(cur) + to - from
    ensures to <= |file| ==>
              Written(AddBytes(parts, file[from..to]), done, cur + [to - from], prefix, file[..to])
  {
    SumAppend(cur, to - from);
    hide *;
    WrittenCount(parts, done, cur, prefix, file[..from]);
    if to <= |file| {
      AddBytesData(parts, file[from..to]);
      AddBytesMatches(parts, done, cur, prefix, file[..from], file[from..to]);
      assert file[..from] + file[from..to] == file[..to];
    }
  }

  lemma WrittenCount(parts: seq<Part>, done: seq<seq<nat>>, cur: seq<nat>, prefix: string, data: seq<Byte>)
    requires Written(parts, done, cur, prefix, data)
    ensures |parts| == |done| + 1 && Data(parts) == data
  {
  }

  lemma AddBytesMatches(parts: seq<Part>, done: seq<seq<nat>>, cur: seq<nat>, prefix: string, data: seq<Byte>,
                        bytes: seq<Byte>)
    requires Written(parts, done, cur, prefix, data) && parts != []
    requires Data(AddBytes(parts, bytes)) == data + bytes && Sum(cur + [|bytes|]) == Sum(cur) + |bytes|
    ensures Written(AddBytes(parts, bytes), done, cur + [|bytes|], prefix, data + bytes)
  {
    hide Suffix, Data, Sum;
  }

  lemma AddBytesData(parts: seq<Part>, bytes: seq<Byte>)
    requires parts != []
    ensures Data(AddBytes(parts, bytes)) == Data(parts) + bytes
  {
    var init, last := parts[..|parts| - 1], parts[|parts| - 1];
    assert parts == init + [last];
    DataAppend(init, last);
    DataAppend(init, Part(last.name, last.data + bytes));
    Regroup(Data(init), last.data, bytes);
  }

  lemma Regroup(a: seq<Byte>, b: seq<Byte>, c: seq<Byte>)
    ensures a + (b + c) == a + b + c
  {
  }

  lemma NoGroupsLeft(parts: seq<Part>, groups: seq<seq<nat>>, done: seq<seq<nat>>, cur: seq<nat>, chunks: seq<nat>,
                     maxPartSize: nat, prefix: string, file: seq<Byte>)
    requires GroupsLeft(groups, done, cur, chunks, |chunks|, maxPartSize)
    requires Written(parts, done, cur, prefix, file[..|file|])
    ensures Matches(parts, groups, prefix) && Data(parts) == file && |groups| <= MAX_PARTS
  {
    assert file[..|file|] == file;
  }

  // ---------- An archive with one part too many ----------

  function UpTo(n: nat): seq<nat> {
    seq(n, i => i + 1)
  }

  function Ones(n: nat): seq<nat> {
    seq(n, _ => 1)
  }

  lemma {:induction false} SortOfAscending(last: nat, s: seq<nat>)
    requires Ascending(last, s)
    ensures Sort(s) == s
    decreases |s|
  {
    if s != [] {
      SortOfAscending(s[0], s[1..]);
      assert Insert(s[0], s[1..]) == [s[0]] + s[1..];
    }
  }

  lemma {:induction false} ChunksOfUpTo(k: nat, n: nat)
    requires k <= n
    ensures Ascending(k, UpTo(n)[k..]) && Chunks(k, UpTo(n)[k..]) == Ones(n - k)
    decreases n - k
  {
    if k < n {
      ChunksOfUpTo(k + 1, n);
      assert UpTo(n)[k..][1..] == UpTo(n)[k + 1..];
      assert Ones(n - k) == [1] + Ones(n - k - 1);
    }
  }

  lemma {:induction false} GroupsOfOnes(n: nat)
    ensures |Groups([1], Ones(n), 1)| == n + 1
  {
    assert [1][..0] == [];
    if n > 0 {
      GroupsOfOnes(n - 1);
      assert Ones(n)[1..] == Ones(n - 1);
    }
  }

  /** A file of `n` one-byte clusters and parts of one byte: the split needs `n` parts. */
  lemma OneBytePerPart(n: nat)
    requires n > 0
    ensures Ascending(0, Offsets(UpTo(n - 1), n)) && Chunks(0, Offsets(UpTo(n - 1), n)) == Ones(n)
    ensures |Groups([], Ones(n), 1)| == n
  {
    assert UpTo(n - 1) + [n] == UpTo(n) == UpTo(n)[0..];
    ChunksOfUpTo(0, n);
    SortOfAscending(0, UpTo(n));
    GroupsOfOnes(n - 1);
    assert Ones(n)[1..] == Ones(n - 1);
    assert [] + [1] == [1];
  }

  /** The smallest file on which the program gives up: 676 clusters of one byte. */
  method SplitOneBytePerPart(file: seq<Byte>, prefix: string) returns (outcome: Outcome)
    requires file != []
    ensures outcome == if |file| <= 675 then Completed else TooManyParts
  {
    var splitter := new ZimSplitter(file, UpTo(|file| - 1), prefix, 1);
    OneBytePerPart(|file|);
    hide Offsets, Chunks, Groups, Ascending;
    outcome := splitter.Run();
  }

  lemma LastOffset(clusterOffsets: seq<nat>, filesize: nat)
    ensures var offsets := Offsets(clusterOffsets, filesize);
            && offsets != [] && offsets[|offsets| - 1] >= filesize
            && (offsets[|offsets| - 1] == filesize
                <==> forall i :: 0 <= i < |clusterOffsets| ==> clusterOffsets[i] <= filesize)
  {
    var all := clusterOffsets + [filesize];
    var offsets := Sort(all);
    SortAscends(all);
    hide Sort, Ascending;
    forall i | 0 <= i < |all| ensures all[i] in offsets {
      assert all[i] in multiset(all);
      assert all[i] in multiset(offsets);
    }
    assert all[|all| - 1] == filesize;
    LastIsGreatest(0, offsets);
    forall i | 0 <= i < |clusterOffsets| ensures clusterOffsets[i] <= offsets[|offsets| - 1] {
      assert all[i] == clusterOffsets[i];
    }
    var last := offsets[|offsets| - 1];
    assert last in multiset(offsets);
    assert last in multiset(all);
    assert last in all;
  }
}
