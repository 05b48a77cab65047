/**
 The search for redundant articles (`ArticleChecker` of src/zimcheck/checks.cpp): checked items are put in buckets by a
 hash of their data, and each bucket is then searched for items with equal data.
 */
module ArticleCheckers {
  import opened Options
  import opened Sequences

  datatype Entry = Redirect(path: string) | Item(path: string, cluster: nat, blob: nat, data: string)

  datatype Archive = Archive(entries: seq<Entry>, hasNewNamespaceScheme: bool)

  /** An item's data is its blob. */
  ghost predicate BlobsAgree(archive: Archive) {
    forall i, j :: 0 <= i < |archive.entries| && 0 <= j < |archive.entries| && AreAliases(archive, i, j)
                   ==> Data(archive, i) == Data(archive, j)
  }

  function Data(archive: Archive, i: nat): string {
    if i < |archive.entries| && archive.entries[i].Item? then archive.entries[i].data else ""
  }

  predicate IsItem(archive: Archive, i: nat) {
    i < |archive.entries| && archive.entries[i].Item?
  }

  predicate AreAliases(archive: Archive, i: nat, j: nat) {
    && IsItem(archive, i) && IsItem(archive, j)
    && archive.entries[i].cluster == archive.entries[j].cluster && archive.entries[i].blob == archive.entries[j].blob
  }

  /** The items compared: no redirects, no metadata and no empty items. */
  predicate Compared(archive: Archive, i: nat) {
    && IsItem(archive, i) && archive.entries[i].data != ""
    && (archive.hasNewNamespaceScheme || archive.entries[i].path == "" || archive.entries[i].path[0] != 'M')
  }

  ghost predicate AllCompared(archive: Archive, items: seq<nat>) {
    forall k :: 0 <= k < |items| ==> Compared(archive, items[k])
  }

  // ---------- Which pairs are duplicates ----------

  /** The first of the items with this data. */
  function First(archive: Archive, items: seq<nat>, data: string): (first: Option<nat>)
    ensures first.Some? ==> first.value in items && Data(archive, first.value) == data
    ensures first.None? ==> forall k :: 0 <= k < |items| ==> Data(archive, items[k]) != data
  {
    if items == [] then None
    else
      var last := items[|items| - 1];
      match First(archive, items[..|items| - 1], data)
      case Some(i) => Some(i)
      case None => if Data(archive, last) == data then Some(last) else None
  }

  /** `b` has the data of an earlier item, of which it is no alias, and `a` is the first item with that data. */
  ghost predicate IsDuplicate(archive: Archive, items: seq<nat>, a: nat, b: nat) {
    b in items && First(archive, items, Data(archive, b)) == Some(a) && !AreAliases(archive, a, b)
  }

  lemma {:induction false} FirstIsFirst(archive: Archive, items: seq<nat>, data: string, k: nat)
    requires k < |items| && Data(archive, items[k]) == data
    requires forall j :: 0 <= j < k ==> Data(archive, items[j]) != data
    ensures First(archive, items, data) == Some(items[k])
  {
    var init := items[..|items| - 1];
    if k < |init| {
      assert init[k] == items[k] && forall j :: 0 <= j < k ==> init[j] == items[j];
      FirstIsFirst(archive, init, data, k);
    } else {
      assert forall j :: 0 <= j < |init| ==> init[j] == items[j];
    }
  }

  lemma {:induction false} FirstOfCons(archive: Archive, x: nat, items: seq<nat>, data: string)
    ensures First(archive, [x] + items, data)
            == if Data(archive, x) == data then Some(x) else First(archive, items, data)
  {
    hide Data, First;
    if items == [] {
      FirstStep(archive, [], x, data);
      assert [x] + [] == [] + [x];
    } else {
      var init, last := items[..|items| - 1], items[|items| - 1];
      FirstOfCons(archive, x, init, data);
      FirstStep(archive, [x] + init, last, data);
      FirstStep(archive, init, last, data);
      assert items == init + [last] && [x] + items == [x] + init + [last];
    }
  }

  lemma FirstStep(archive: Archive, items: seq<nat>, last: nat, data: string)
    ensures First(archive, items + [last], data)
            == if First(archive, items, data).Some? then First(archive, items, data)
               else if Data(archive, last) == data then Some(last) else None
    ensures items == [] ==> First(archive, items, data) == None
  {
    assert (items + [last])[..|items|] == items;
  }

  // ---------- Lists of items ----------

  /** The items whose data has this hash. */
  function Bucket(archive: Archive, hash: string -> nat, items: seq<nat>, h: nat): seq<nat> {
    if items == [] then []
    else
      var last := items[|items| - 1];
      var bucket := Bucket(archive, hash, items[..|items| - 1], h);
      if hash(Data(archive, last)) == h then bucket + [last] else bucket
  }

  lemma BucketAppend(archive: Archive, hash: string -> nat, items: seq<nat>, x: nat, h: nat)
    ensures Bucket(archive, hash, items + [x], h)
         == if hash(Data(archive, x)) == h then Bucket(archive, hash, items, h) + [x]
            else Bucket(archive, hash, items, h)
  {
    assert (items + [x])[..|items|] == items;
  }

  lemma {:induction false} InBucket(archive: Archive, hash: string -> nat, items: seq<nat>, h: nat, b: nat)
    ensures b in Bucket(archive, hash, items, h) <==> b in items && hash(Data(archive, b)) == h
  {
    if items != [] {
      var init, last := items[..|items| - 1], items[|items| - 1];
      InBucket(archive, hash, init, h, b);
      assert items == init + [last];
    }
  }

  /** The first item of all is the first item of its bucket. */
  lemma {:induction false} FirstInBucket(archive: Archive, hash: string -> nat, items: seq<nat>, data: string)
    ensures First(archive, Bucket(archive, hash, items, hash(data)), data) == First(archive, items, data)
  {
    if items != [] {
      var init, last := items[..|items| - 1], items[|items| - 1];
      FirstInBucket(archive, hash, init, data);
      var bucket := Bucket(archive, hash, init, hash(data));
      assert (bucket + [last])[..|bucket|] == bucket;
    }
  }

  /** The items with other data. */
  function Different(archive: Archive, items: seq<nat>, data: string): (others: seq<nat>)
    ensures |others| <= |items|
  {
    if items == [] then []
    else
      var last := items[|items| - 1];
      var different := Different(archive, items[..|items| - 1], data);
      if Data(archive, last) != data then different + [last] else different
  }

  lemma {:induction false} InDifferent(archive: Archive, items: seq<nat>, data: string, b: nat)
    ensures b in Different(archive, items, data) <==> b in items && Data(archive, b) != data
  {
    if items != [] {
      var init, last := items[..|items| - 1], items[|items| - 1];
      InDifferent(archive, init, data, b);
      assert items == init + [last];
    }
  }

  lemma {:induction false} FirstInDifferent(archive: Archive, items: seq<nat>, data: string, other: string)
    requires data != other
    ensures First(archive, Different(archive, items, data), other) == First(archive, items, other)
  {
    if items != [] {
      var init, last := items[..|items| - 1], items[|items| - 1];
      FirstInDifferent(archive, init, data, other);
      var different := Different(archive, init, data);
      assert (different + [last])[..|different|] == different;
    }
  }

  /** The items with this data that are no aliases of `a`. */
  function Copies(archive: Archive, a: nat, items: seq<nat>, data: string): seq<nat> {
    if items == [] then []
    else
      var last := items[|items| - 1];
      var copies := Copies(archive, a, items[..|items| - 1], data);
      if Data(archive, last) == data && !AreAliases(archive, a, last) then copies + [last] else copies
  }

  lemma {:induction false} InCopies(archive: Archive, a: nat, items: seq<nat>, data: string, b: nat)
    ensures b in Copies(archive, a, items, data)
       <==> b in items && Data(archive, b) == data && !AreAliases(archive, a, b)
  {
    if items != [] {
      var init, last := items[..|items| - 1], items[|items| - 1];
      InCopies(archive, a, init, data, b);
      assert items == init + [last];
    }
  }

  /** The aliases of `a`. */
  function AliasesOf(archive: Archive, a: nat, items: seq<nat>): seq<nat> {
    if items == [] then []
    else
      var last := items[|items| - 1];
      var aliases := AliasesOf(archive, a, items[..|items| - 1]);
      if AreAliases(archive, a, last) then aliases + [last] else aliases
  }

  lemma {:induction false} InAliasesOf(archive: Archive, a: nat, items: seq<nat>, b: nat)
    ensures b in AliasesOf(archive, a, items) <==> b in items && AreAliases(archive, a, b)
  {
    if items != [] {
      var init, last := items[..|items| - 1], items[|items| - 1];
      InAliasesOf(archive, a, init, b);
      assert items == init + [last];
    }
  }

  /** Every item is a copy of `a`, an alias of `a`, or different. */
  lemma {:induction false} CopiesAliasesDifferent(archive: Archive, a: nat, items: seq<nat>)
    requires BlobsAgree(archive) && IsItem(archive, a) && AllItems(archive, items)
    ensures multiset(items) == multiset(Copies(archive, a, items, Data(archive, a)))
                            + multiset(AliasesOf(archive, a, items))
                            + multiset(Different(archive, items, Data(archive, a)))
  {
    if items != [] {
      var init, last := items[..|items| - 1], items[|items| - 1];
      var data := Data(archive, a);
      assert AreAliases(archive, a, last) ==> Data(archive, last) == data;
      assert AllItems(archive, init);
      hide Data, AreAliases, BlobsAgree, AllItems, IsItem;
      CopiesAliasesDifferent(archive, a, init);
      var copies, aliases, others
        := Copies(archive, a, init, data), AliasesOf(archive, a, init), Different(archive, init, data);
      assert items == init + [last];
      MultisetOfParts(init, copies, aliases, others, last);
      hide *;
    }
  }

  lemma MultisetOfParts(all: seq<nat>, p: seq<nat>, q: seq<nat>, r: seq<nat>, x: nat)
    requires multiset(all) == multiset(p) + multiset(q) + multiset(r)
    ensures multiset(all + [x]) == multiset(p + [x]) + multiset(q) + multiset(r)
    ensures multiset(all + [x]) == multiset(p) + multiset(q + [x]) + multiset(r)
    ensures multiset(all + [x]) == multiset(p) + multiset(q) + multiset(r + [x])
  {
  }

  ghost predicate AllItems(archive: Archive, items: seq<nat>) {
    forall k :: 0 <= k < |items| ==> IsItem(archive, items[k])
  }

  lemma {:induction false} DifferentAreItems(archive: Archive, items: seq<nat>, data: string)
    requires AllItems(archive, items)
    ensures AllItems(archive, Different(archive, items, data))
  {
    if items != [] {
      DifferentAreItems(archive, items[..|items| - 1], data);
    }
  }

  // ---------- One bucket ----------

  /** `a` paired with each item. */
  function Pairs(a: nat, items: seq<nat>): (pairs: seq<(nat, nat)>) {
    if items == [] then [] else Pairs(a, items[..|items| - 1]) + [(a, items[|items| - 1])]
  }

  function Seconds(pairs: seq<(nat, nat)>): (seconds: seq<nat>) {
    if pairs == [] then [] else Seconds(pairs[..|pairs| - 1]) + [pairs[|pairs| - 1].1]
  }

  lemma {:induction false} InPairs(a: nat, items: seq<nat>, p: (nat, nat))
    ensures p in Pairs(a, items) <==> p.0 == a && p.1 in items
  {
    if items != [] {
      var init, last := items[..|items| - 1], items[|items| - 1];
      InPairs(a, init, p);
      assert items == init + [last];
    }
  }

  lemma {:induction false} SecondsOfPairs(a: nat, items: seq<nat>)
    ensures Seconds(Pairs(a, items)) == items
  {
    if items != [] {
      var init, last := items[..|items| - 1], items[|items| - 1];
      SecondsOfPairs(a, init);
      assert (Pairs(a, init) + [(a, last)])[..|Pairs(a, init)|] == Pairs(a, init);
      assert items == init + [last];
    }
  }

  lemma {:induction false} SecondsOfSum(p: seq<(nat, nat)>, q: seq<(nat, nat)>)
    ensures Seconds(p + q) == Seconds(p) + Seconds(q)
  {
    if q == [] {
      assert p + q == p;
    } else {
      var init := q[..|q| - 1];
      SecondsOfSum(p, init);
      assert (p + q)[..|p + q| - 1] == p + init;
    }
  }

  /** What one bucket gives: reported pairs, representatives and silent aliases. */
  datatype Findings = Findings(reports: seq<(nat, nat)>, representatives: seq<nat>, silent: seq<nat>)

  function Join(f: Findings, g: Findings): Findings {
    Findings(f.reports + g.reports, f.representatives + g.representatives, f.silent + g.silent)
  }

  function Scan(archive: Archive, items: seq<nat>): Findings
    decreases |items|
  {
    if items == [] then Findings([], [], [])
    else
      var a, rest := items[0], items[1..];
      var data := Data(archive, a);
      Join(Findings(Pairs(a, Copies(archive, a, rest, data)), [a], AliasesOf(archive, a, rest)),
           Scan(archive, Different(archive, rest, data)))
  }

  /** Which pairs are reported, which items stand for their data, and which are passed over as aliases. */
  ghost predicate Exact(archive: Archive, items: seq<nat>, f: Findings) {
    forall x: nat, b: nat :: ExactAt(archive, items, f, x, b)
  }

  ghost predicate ExactAt(archive: Archive, items: seq<nat>, f: Findings, x: nat, b: nat) {
    && ((x, b) in f.reports <==> IsDuplicate(archive, items, x, b))
    && (b in f.representatives <==> b in items && First(archive, items, Data(archive, b)) == Some(b))
    && (b in f.silent ==> b in items && AliasOfFirst(archive, items, b))
  }

  ghost predicate AliasOfFirst(archive: Archive, items: seq<nat>, b: nat) {
    var first := First(archive, items, Data(archive, b));
    first.Some? && AreAliases(archive, first.value, b)
  }

  /** No item is lost or counted twice. */
  ghost predicate Accounted(items: seq<nat>, f: Findings) {
    multiset(items) == multiset(f.representatives) + multiset(f.silent) + multiset(Seconds(f.reports))
  }

  lemma {:induction false} ScanAccounts(archive: Archive, items: seq<nat>)
    requires BlobsAgree(archive) && AllItems(archive, items)
    ensures Accounted(items, Scan(archive, items))
    decreases |items|
  {
    if items != [] {
      var a, rest := items[0], items[1..];
      var data := Data(archive, a);
      assert items == [a] + rest;
      assert AllItems(archive, rest);
      hide AllItems, IsItem, Data, BlobsAgree, Accounted;
      var copies, others := Copies(archive, a, rest, data), Different(archive, rest, data);
      CopiesAliasesDifferent(archive, a, rest);
      DifferentAreItems(archive, rest, data);
      ScanAccounts(archive, others);
      JoinAccounts(a, rest, copies, AliasesOf(archive, a, rest), others, Scan(archive, others));
      hide Copies, Different, AliasesOf, Pairs;
    }
  }

  lemma JoinAccounts(a: nat, rest: seq<nat>, copies: seq<nat>, aliases: seq<nat>, others: seq<nat>, g: Findings)
    requires multiset(rest) == multiset(copies) + multiset(aliases) + multiset(others) && Accounted(others, g)
    ensures Accounted([a] + rest, Join(Findings(Pairs(a, copies), [a], aliases), g))
  {
    SecondsOfPairs(a, copies);
    SecondsOfSum(Pairs(a, copies), g.reports);
    hide Seconds, Pairs;
  }

  lemma {:induction false} ScanExact(archive: Archive, items: seq<nat>)
    requires BlobsAgree(archive) && AllItems(archive, items)
    ensures Exact(archive, items, Scan(archive, items))
    decreases |items|
  {
    if items == [] {
      assert Scan(archive, items) == Findings([], [], []);
    } else {
      DifferentAreItems(archive, items[1..], Data(archive, items[0]));
      var others := Different(archive, items[1..], Data(archive, items[0]));
      ScanExact(archive, others);
      forall x: nat, b: nat ensures ExactAt(archive, items, Scan(archive, items), x, b) {
        assert ExactAt(archive, others, Scan(archive, others), x, b);
        ScanStep(archive, items, x, b);
      }
      hide *;
    }
  }

  lemma ScanStep(archive: Archive, items: seq<nat>, x: nat, b: nat)
    requires BlobsAgree(archive) && AllItems(archive, items) && items != []
    requires var others := Different(archive, items[1..], Data(archive, items[0]));
             ExactAt(archive, others, Scan(archive, others), x, b)
    ensures ExactAt(archive, items, Scan(archive, items), x, b)
  {
    var a, data := items[0], Data(archive, items[0]);
    assert AreAliases(archive, a, a) && (AreAliases(archive, a, b) ==> Data(archive, b) == data);
    assert b in items <==> b == a || b in items[1..];
    hide First, Different, Copies, Pairs, Scan, AliasesOf, Data, AreAliases, AllItems, IsItem, BlobsAgree, Join;
    ScanMembers(archive, items, x, b);
    FirstAfterStep(archive, items, b);
  }

  lemma ScanMembers(archive: Archive, items: seq<nat>, x: nat, b: nat)
    requires items != []
    ensures var a, rest, data, f := items[0], items[1..], Data(archive, items[0]), Scan(archive, items);
            var g := Scan(archive, Different(archive, rest, data));
            && ((x, b) in f.reports
                <==> || (x == a && b in rest && Data(archive, b) == data && !AreAliases(archive, a, b))
                     || (x, b) in g.reports)
            && (b in f.representatives <==> b == a || b in g.representatives)
            && (b in f.silent <==> (b in rest && AreAliases(archive, a, b)) || b in g.silent)
  {
    var a, rest, data := items[0], items[1..], Data(archive, items[0]);
    var copies, aliases := Copies(archive, a, rest, data), AliasesOf(archive, a, rest);
    var g := Scan(archive, Different(archive, rest, data));
    assert Scan(archive, items) == Join(Findings(Pairs(a, copies), [a], aliases), g);
    hide Different, Copies, Pairs, Scan, AliasesOf, Data, AreAliases;
    InCopies(archive, a, rest, data, b);
    InPairs(a, copies, (x, b));
    InAliasesOf(archive, a, rest, b);
  }

  /** Items with the data of the first item have that as their first; the others keep theirs. */
  ghost predicate Locates(archive: Archive, items: seq<nat>, others: seq<nat>, b: nat)
    requires items != []
  {
    if Data(archive, b) == Data(archive, items[0])
    then First(archive, items, Data(archive, b)) == Some(items[0]) && b !in others
    else First(archive, items, Data(archive, b)) == First(archive, others, Data(archive, b))
         && (b in others <==> b in items)
  }

  lemma FirstAfterStep(archive: Archive, items: seq<nat>, b: nat)
    requires items != []
    ensures Locates(archive, items, Different(archive, items[1..], Data(archive, items[0])), b)
  {
    var a, rest := items[0], items[1..];
    assert items == [a] + rest;
    FirstOfCons(archive, a, rest, Data(archive, b));
    InDifferent(archive, rest, Data(archive, a), b);
    if Data(archive, b) != Data(archive, a) {
      FirstInDifferent(archive, rest, Data(archive, a), Data(archive, b));
    }
  }

  // ---------- All buckets ----------

  /** The items whose hash is one of `keys`. */
  function Within(archive: Archive, hash: string -> nat, items: seq<nat>, keys: set<nat>): seq<nat> {
    if items == [] then []
    else
      var last := items[|items| - 1];
      var within := Within(archive, hash, items[..|items| - 1], keys);
      if hash(Data(archive, last)) in keys then within + [last] else within
  }

  lemma {:induction false} WithinAll(archive: Archive, hash: string -> nat, items: seq<nat>, keys: set<nat>)
    requires forall k :: 0 <= k < |items| ==> hash(Data(archive, items[k])) in keys
    ensures Within(archive, hash, items, keys) == items
  {
    if items != [] {
      WithinAll(archive, hash, items[..|items| - 1], keys);
      assert items[..|items| - 1] + [items[|items| - 1]] == items;
    }
  }

  lemma {:induction false} WithinNone(archive: Archive, hash: string -> nat, items: seq<nat>)
    ensures Within(archive, hash, items, {}) == []
  {
    if items != [] {
      WithinNone(archive, hash, items[..|items| - 1]);
    }
  }

  lemma {:induction false} WithinSplit(archive: Archive, hash: string -> nat, items: seq<nat>, keys: set<nat>, h: nat)
    requires h in keys
    ensures multiset(Within(archive, hash, items, keys))
         == multiset(Within(archive, hash, items, keys - {h})) + multiset(Bucket(archive, hash, items, h))
  {
    if items != [] {
      WithinSplit(archive, hash, items[..|items| - 1], keys, h);
      hide Data;
    }
  }

  lemma {:induction false} BucketAreItems(archive: Archive, hash: string -> nat, items: seq<nat>, h: nat)
    requires AllCompared(archive, items)
    ensures AllItems(archive, Bucket(archive, hash, items, h))
  {
    if items != [] {
      BucketAreItems(archive, hash, items[..|items| - 1], h);
      assert Compared(archive, items[|items| - 1]);
    }
  }

  /** With the buckets of `keys` still to be searched, the findings are exact for the items in the other buckets. */
  ghost predicate ExactSoFar(archive: Archive, hash: string -> nat, items: seq<nat>, keys: set<nat>, f: Findings) {
    forall x: nat, b: nat :: ExactSoFarAt(archive, hash, items, keys, f, x, b)
  }

  ghost predicate ExactSoFarAt(archive: Archive, hash: string -> nat, items: seq<nat>, keys: set<nat>, f: Findings,
                               x: nat, b: nat) {
    if hash(Data(archive, b)) in keys
    then (x, b) !in f.reports && b !in f.representatives && b !in f.silent
    else ExactAt(archive, items, f, x, b)
  }

  ghost predicate AccountedSoFar(archive: Archive, hash: string -> nat, items: seq<nat>, keys: set<nat>, f: Findings) {
    multiset(items) == multiset(Within(archive, hash, items, keys))
                    + (multiset(f.representatives) + multiset(f.silent) + multiset(Seconds(f.reports)))
  }

  lemma SearchBegins(archive: Archive, hash: string -> nat, items: seq<nat>, keys: set<nat>)
    requires forall k :: 0 <= k < |items| ==> hash(Data(archive, items[k])) in keys
    ensures ExactSoFar(archive, hash, items, keys, Findings([], [], []))
    ensures AccountedSoFar(archive, hash, items, keys, Findings([], [], []))
  {
    WithinAll(archive, hash, items, keys);
  }

  lemma SearchEnds(archive: Archive, hash: string -> nat, items: seq<nat>, f: Findings)
    requires ExactSoFar(archive, hash, items, {}, f) && AccountedSoFar(archive, hash, items, {}, f)
    ensures Exact(archive, items, f) && Accounted(items, f)
  {
    WithinNone(archive, hash, items);
    forall x: nat, b: nat ensures ExactAt(archive, items, f, x, b) {
      assert ExactSoFarAt(archive, hash, items, {}, f, x, b);
    }
  }

  /** An item outside a bucket is not found by the search of the bucket; one inside is found there as among all. */
  lemma BucketIsExact(archive: Archive, hash: string -> nat, items: seq<nat>, h: nat, g: Findings, x: nat, b: nat)
    requires ExactAt(archive, Bucket(archive, hash, items, h), g, x, b)
    ensures if hash(Data(archive, b)) == h then ExactAt(archive, items, g, x, b)
            else (x, b) !in g.reports && b !in g.representatives && b !in g.silent
  {
    InBucket(archive, hash, items, h, b);
    if hash(Data(archive, b)) == h {
      FirstInBucket(archive, hash, items, Data(archive, b));
    }
    hide Bucket, First, Data, AreAliases;
  }

  lemma SearchStep(archive: Archive, hash: string -> nat, items: seq<nat>, keys: set<nat>, f: Findings, h: nat)
    requires BlobsAgree(archive) && AllCompared(archive, items) && h in keys
    requires ExactSoFar(archive, hash, items, keys, f) && AccountedSoFar(archive, hash, items, keys, f)
    ensures var f' := Join(f, Scan(archive, Bucket(archive, hash, items, h)));
            && ExactSoFar(archive, hash, items, keys - {h}, f')
            && AccountedSoFar(archive, hash, items, keys - {h}, f')
  {
    hide *;
    var bucket := Bucket(archive, hash, items, h);
    BucketAreItems(archive, hash, items, h);
    ScanExact(archive, bucket);
    ScanAccounts(archive, bucket);
    ExactStep(archive, hash, items, keys, f, h, Scan(archive, bucket));
    AccountStep(archive, hash, items, keys, f, h, Scan(archive, bucket));
  }

  lemma AccountStep(archive: Archive, hash: string -> nat, items: seq<nat>, keys: set<nat>, f: Findings, h: nat,
                    g: Findings)
    requires h in keys && AccountedSoFar(archive, hash, items, keys, f)
    requires Accounted(Bucket(archive, hash, items, h), g)
    ensures AccountedSoFar(archive, hash, items, keys - {h}, Join(f, g))
  {
    hide Bucket, Within, Seconds;
    WithinSplit(archive, hash, items, keys, h);
    SecondsOfSum(f.reports, g.reports);
  }

  lemma ExactStep(archive: Archive, hash: string -> nat, items: seq<nat>, keys: set<nat>, f: Findings, h: nat,
                  g: Findings)
    requires h in keys && ExactSoFar(archive, hash, items, keys, f)
    requires Exact(archive, Bucket(archive, hash, items, h), g)
    ensures ExactSoFar(archive, hash, items, keys - {h}, Join(f, g))
  {
    hide ExactAt, ExactSoFarAt, Join, Bucket;
    forall x: nat, b: nat ensures ExactSoFarAt(archive, hash, items, keys - {h}, Join(f, g), x, b) {
      assert ExactAt(archive, Bucket(archive, hash, items, h), g, x, b);
      assert ExactSoFarAt(archive, hash, items, keys, f, x, b);
      ExactStepAt(archive, hash, items, keys, f, h, g, x, b);
    }
  }

  lemma ExactStepAt(archive: Archive, hash: string -> nat, items: seq<nat>, keys: set<nat>, f: Findings, h: nat,
                    g: Findings, x: nat, b: nat)
    requires h in keys && ExactSoFarAt(archive, hash, items, keys, f, x, b)
    requires ExactAt(archive, Bucket(archive, hash, items, h), g, x, b)
    ensures ExactSoFarAt(archive, hash, items, keys - {h}, Join(f, g), x, b)
  {
    BucketIsExact(archive, hash, items, h, g, x, b);
    hide Bucket, First, Data, AreAliases, AliasOfFirst, IsDuplicate;
  }

  lemma ReportsExact(archive: Archive, items: seq<nat>, f: Findings)
    requires Exact(archive, items, f)
    ensures forall a: nat, b: nat :: (a, b) in f.reports <==> IsDuplicate(archive, items, a, b)
  {
    forall a: nat, b: nat ensures (a, b) in f.reports <==> IsDuplicate(archive, items, a, b) {
      assert ExactAt(archive, items, f, a, b);
    }
  }

  /** All buckets searched, in some order. */
  function Search(archive: Archive, hash: string -> nat, items: seq<nat>, order: seq<nat>): Findings {
    if order == [] then Findings([], [], [])
    else
      Join(Search(archive, hash, items, order[..|order| - 1]),
           Scan(archive, Bucket(archive, hash, items, order[|order| - 1])))
  }

  /** An order in which the buckets of all items can be searched. */
  ghost predicate IsOrder(archive: Archive, hash: string -> nat, items: seq<nat>, order: seq<nat>) {
    Distinct(order) && forall k :: 0 <= k < |items| ==> hash(Data(archive, items[k])) in order
  }

  function KeysFrom(order: seq<nat>, i: nat): set<nat>
    requires i <= |order|
  {
    set h | h in order[i..]
  }

  lemma NextKey(order: seq<nat>, i: nat)
    requires Distinct(order) && i < |order|
    ensures order[i] in KeysFrom(order, i) && KeysFrom(order, i + 1) == KeysFrom(order, i) - {order[i]}
  {
    var rest := order[i + 1..];
    assert order[i..] == [order[i]] + rest;
    forall j | 0 <= j < |rest| ensures rest[j] != order[i] {
      assert rest[j] == order[i + 1 + j];
    }
  }

  lemma {:induction false} SearchSoFar(archive: Archive, hash: string -> nat, items: seq<nat>, order: seq<nat>, i: nat)
    requires BlobsAgree(archive) && AllCompared(archive, items) && IsOrder(archive, hash, items, order) && i <= |order|
    ensures ExactSoFar(archive, hash, items, KeysFrom(order, i), Search(archive, hash, items, order[..i]))
    ensures AccountedSoFar(archive, hash, items, KeysFrom(order, i), Search(archive, hash, items, order[..i]))
  {
    hide BlobsAgree, AllCompared, ExactSoFar, AccountedSoFar, Data;
    if i == 0 {
      assert order[0..] == order;
      SearchBegins(archive, hash, items, KeysFrom(order, 0));
    } else {
      SearchSoFar(archive, hash, items, order, i - 1);
      NextKey(order, i - 1);
      var f := Search(archive, hash, items, order[..i - 1]);
      SearchStep(archive, hash, items, KeysFrom(order, i - 1), f, order[i - 1]);
      assert order[..i][..i - 1] == order[..i - 1];
      hide KeysFrom, IsOrder, Scan, Join, Bucket;
    }
  }

  /** The search is exact, whatever the hash and the order of the buckets. */
  lemma SearchIsExact(archive: Archive, hash: string -> nat, items: seq<nat>, order: seq<nat>)
    requires BlobsAgree(archive) && AllCompared(archive, items) && IsOrder(archive, hash, items, order)
    ensures Exact(archive, items, Search(archive, hash, items, order))
    ensures Accounted(items, Search(archive, hash, items, order))
  {
    SearchSoFar(archive, hash, items, order, |order|);
    assert KeysFrom(order, |order|) == {} && order[..|order|] == order;
    hide *;
    SearchEnds(archive, hash, items, Search(archive, hash, items, order));
  }

  lemma {:induction false} PairsBySecond(pairs: seq<(nat, nat)>, p: (nat, nat))
    ensures multiset(pairs)[p] <= multiset(Seconds(pairs))[p.1]
  {
    if pairs != [] {
      var init, last := pairs[..|pairs| - 1], pairs[|pairs| - 1];
      PairsBySecond(init, p);
      assert pairs == init + [last];
    }
  }

  /** No item is reported twice when none is checked twice. */
  lemma ReportedOnce(items: seq<nat>, f: Findings, b: nat)
    requires Accounted(items, f) && Distinct(items)
    ensures multiset(Seconds(f.reports))[b] <= 1
  {
    DistinctCounts(items, b);
  }

  /** Two searches of one archive with different hash functions and bucket orders report the same pairs, each once. */
  lemma HashDoesNotMatter(archive: Archive, items: seq<nat>, hash: string -> nat, order: seq<nat>,
                          hash': string -> nat, order': seq<nat>)
    requires BlobsAgree(archive) && AllCompared(archive, items) && Distinct(items)
    requires IsOrder(archive, hash, items, order) && IsOrder(archive, hash', items, order')
    ensures multiset(Search(archive, hash, items, order).reports)
            == multiset(Search(archive, hash', items, order').reports)
  {
    var f, g := Search(archive, hash, items, order), Search(archive, hash', items, order');
    SearchIsExact(archive, hash, items, order);
    SearchIsExact(archive, hash', items, order');
    hide *;
    ReportsExact(archive, items, f);
    ReportsExact(archive, items, g);
    forall p: (nat, nat) {:trigger multiset(f.reports)[p]} ensures multiset(f.reports)[p] == multiset(g.reports)[p] {
      assert p == (p.0, p.1);
      PairsBySecond(f.reports, p);
      PairsBySecond(g.reports, p);
      ReportedOnce(items, f, p.1);
      ReportedOnce(items, g, p.1);
      assert p in f.reports <==> p in g.reports;
    }
  }

  // ---------- In the archive's own fields ----------

  /** One blob of one cluster has one content. */
  ghost predicate OneContentPerBlob(archive: Archive) {
    forall e, e' :: e in archive.entries && e' in archive.entries && SameBlob(e, e') ==> e.data == e'.data
  }

  predicate SameBlob(e: Entry, e': Entry) {
    e.Item? && e'.Item? && e.cluster == e'.cluster && e.blob == e'.blob
  }

  /** The `p`-th item is the first with the content of the `q`-th. */
  ghost predicate IsFirstWithContent(archive: Archive, items: seq<nat>, p: nat, q: nat)
    requires forall k :: 0 <= k < |items| ==> items[k] < |archive.entries| && archive.entries[items[k]].Item?
    requires p < |items| && q < |items|
  {
    && archive.entries[items[p]].data == archive.entries[items[q]].data
    && forall j :: 0 <= j < p ==> archive.entries[items[j]].data != archive.entries[items[q]].data
  }

  lemma ComparedAreItems(archive: Archive, items: seq<nat>)
    requires AllCompared(archive, items)
    ensures forall k :: 0 <= k < |items| ==> items[k] < |archive.entries| && archive.entries[items[k]].Item?
  {
  }

  lemma BlobsAgreeInFields(archive: Archive)
    requires OneContentPerBlob(archive)
    ensures BlobsAgree(archive)
  {
    forall i, j | 0 <= i < |archive.entries| && 0 <= j < |archive.entries| && AreAliases(archive, i, j)
      ensures Data(archive, i) == Data(archive, j)
    {
      assert archive.entries[i] in archive.entries && archive.entries[j] in archive.entries;
    }
  }

  /** Items with equal content, of which the first one stands before the other in another blob. */
  lemma DuplicateInFields(archive: Archive, items: seq<nat>, a: nat, b: nat)
    requires forall k :: 0 <= k < |items| ==> items[k] < |archive.entries| && archive.entries[items[k]].Item?
    ensures IsDuplicate(archive, items, a, b)
       <==> exists p: nat, q: nat ::
              && p < |items| && q < |items| && items[p] == a && items[q] == b
              && IsFirstWithContent(archive, items, p, q)
              && (archive.entries[a].cluster != archive.entries[b].cluster
                  || archive.entries[a].blob != archive.entries[b].blob)
  {
    hide First;
    if b in items {
      var q: nat :| q < |items| && items[q] == b;
      var p := FirstPosition(archive, items, q);
      assert First(archive, items, Data(archive, b)) == Some(items[p]);
    }
    forall p: nat, q: nat | p < |items| && q < |items| && IsFirstWithContent(archive, items, p, q)
      ensures First(archive, items, Data(archive, items[q])) == Some(items[p])
    {
      FirstIsFirst(archive, items, Data(archive, items[q]), p);
    }
  }

  lemma FirstPosition(archive: Archive, items: seq<nat>, q: nat) returns (p: nat)
    requires forall k :: 0 <= k < |items| ==> items[k] < |archive.entries| && archive.entries[items[k]].Item?
    requires q < |items|
    ensures p < |items| && IsFirstWithContent(archive, items, p, q)
    ensures First(archive, items, Data(archive, items[q])) == Some(items[p])
  {
    hide First;
    p := 0;
    while archive.entries[items[p]].data != archive.entries[items[q]].data
      invariant p <= q
      invariant forall j :: 0 <= j < p ==> archive.entries[items[j]].data != archive.entries[items[q]].data
      decreases q - p
    {
      p := p + 1;
    }
    FirstIsFirst(archive, items, Data(archive, items[q]), p);
  }

  /** Of a search with exact findings: which pairs are reported, and which items stand for their content. */
  lemma FindingsInFields(archive: Archive, items: seq<nat>, f: Findings)
    requires AllCompared(archive, items) && Exact(archive, items, f)
    ensures forall k :: 0 <= k < |items| ==> items[k] < |archive.entries| && archive.entries[items[k]].Item?
    ensures forall a: nat, b: nat :: (a, b) in f.reports <==>
              exists p: nat, q: nat ::
                && p < |items| && q < |items| && items[p] == a && items[q] == b
                && IsFirstWithContent(archive, items, p, q)
                && (archive.entries[a].cluster != archive.entries[b].cluster
                    || archive.entries[a].blob != archive.entries[b].blob)
  {
    ComparedAreItems(archive, items);
    ReportsExact(archive, items, f);
    hide *;
    forall a: nat, b: nat
      ensures IsDuplicate(archive, items, a, b) <==>
                exists p: nat, q: nat ::
                  && p < |items| && q < |items| && items[p] == a && items[q] == b
                  && IsFirstWithContent(archive, items, p, q)
                  && (archive.entries[a].cluster != archive.entries[b].cluster
                      || archive.entries[a].blob != archive.entries[b].blob)
    {
      DuplicateInFields(archive, items, a, b);
    }
  }

  class ArticleChecker {
    const archive: Archive
    const hash: string -> nat

    var hashMain: map<nat, seq<nat>>
    ghost var compared: seq<nat>

    constructor (archive: Archive, hash: string -> nat)
      ensures this.archive == archive && this.hash == hash && Valid() && compared == []
    {
      this.archive, this.hash, hashMain, compared := archive, hash, map[], [];
    }

    /** Every item compared is in the bucket of its hash, in the order of checking. */
    ghost predicate Valid()
      reads this
    {
      && AllCompared(archive, compared)
      && (forall h :: h in hashMain ==> hashMain[h] == Bucket(archive, hash, compared, h))
      && forall k :: 0 <= k < |compared| ==> hash(Data(archive, compared[k])) in hashMain
    }

    method Check(i: nat)
      requires Valid() && i < |archive.entries|
      modifies this`hashMain, this`compared
      ensures Valid()
      ensures var entry := archive.entries[i];
              compared == old(compared)
                + if && entry.Item? && entry.data != ""
                     && (archive.hasNewNamespaceScheme || entry.path == "" || entry.path[0] != 'M') then [i] else []
    {
      var entry := archive.entries[i];
      var ns := if archive.hasNewNamespaceScheme then 'C' else if entry.path == "" then '\0' else entry.path[0];
      if entry.Redirect? || ns == 'M' {
        return;
      }
      if |entry.data| == 0 {
        return;
      }
      NotYetHashed(archive, hash, compared, hashMain.Keys, hash(entry.data));
      forall h {:trigger Bucket(archive, hash, compared + [i], h)} {
        BucketAppend(archive, hash, compared, i, h);
      }
      hide Bucket;
      var bucket := if hash(entry.data) in hashMain then hashMain[hash(entry.data)] else [];
      hashMain := hashMain[hash(entry.data) := bucket + [i]];
      compared := compared + [i];
    }

    /** Reports exactly the duplicates among the items checked, whatever the hash and the order of the buckets: pairs of
        the first item with some content and an item of another blob with the same content. */
    method DetectRedundantArticles() returns (reports: seq<(nat, nat)>, ghost order: seq<nat>)
      requires Valid() && OneContentPerBlob(archive)
      ensures forall k :: 0 <= k < |compared| ==>
                compared[k] < |archive.entries| && archive.entries[compared[k]].Item?
      ensures forall a: nat, b: nat :: (a, b) in reports <==>
                exists p: nat, q: nat ::
                  && p < |compared| && q < |compared| && compared[p] == a && compared[q] == b
                  && IsFirstWithContent(archive, compared, p, q)
                  && (archive.entries[a].cluster != archive.entries[b].cluster
                      || archive.entries[a].blob != archive.entries[b].blob)
      ensures forall a: nat, b: nat :: (a, b) in reports <==> IsDuplicate(archive, compared, a, b)
      ensures IsOrder(archive, hash, compared, order) && reports == Search(archive, hash, compared, order).reports
      ensures Exact(archive, compared, Search(archive, hash, compared, order))
      ensures Accounted(compared, Search(archive, hash, compared, order))
    {
      hide Accounted, BlobsAgree, OneContentPerBlob, IsFirstWithContent, AllCompared, Bucket, Data, IsDuplicate, Scan,
        Exact;
      BlobsAgreeInFields(archive);
      reports, order := [], [];
      var keys := hashMain.Keys;
      while keys != {}
        invariant Distinct(order) && forall h :: h in hashMain <==> h in keys || h in order
        invariant forall h :: h in order ==> h !in keys
        invariant reports == Search(archive, hash, compared, order).reports
      {
        var h :| h in keys;
        assert (order + [h])[..|order|] == order;
        var found := SearchBucket(hashMain[h]);
        reports := reports + found;
        keys, order := keys - {h}, order + [h];
      }
      SearchIsExact(archive, hash, compared, order);
      ReportsExact(archive, compared, Search(archive, hash, compared, order));
      FindingsInFields(archive, compared, Search(archive, hash, compared, order));
    }

    method SearchBucket(bucket: seq<nat>) returns (reports: seq<(nat, nat)>)
      requires BlobsAgree(archive)
      ensures reports == Scan(archive, bucket).reports
    {
      hide *;
      reports := [];
      var l := bucket;
      while l != []
        invariant Scan(archive, bucket).reports == reports + Scan(archive, l).reports
        decreases |l|
      {
        ghost var before := reports;
        ScanUnfolds(archive, l);
        var e1 := l[0];
        l := l[1..];
        if l != [] {
          var s1: Option<string> := None;
          var articlesDifferentFromE1: seq<nat> := [];
          NoOthers(archive, e1, l);
          for k := 0 to |l|
            invariant articlesDifferentFromE1 == Different(archive, l[..k], Data(archive, e1))
            invariant reports == before + Pairs(e1, Copies(archive, e1, l[..k], Data(archive, e1)))
            invariant s1.Some? ==> s1.value == Data(archive, e1)
          {
            var other := l[k];
            OthersStep(archive, e1, l, k);
            if AreAliases(archive, e1, other) {
              continue;
            }
            if s1.None? {
              s1 := Some(Data(archive, e1));
            }
            var s2 := Data(archive, other);
            if s1.value != s2 {
              articlesDifferentFromE1 := articlesDifferentFromE1 + [other];
              continue;
            }
            reports := reports + [(e1, other)];
          }
          AllOthers(l);
          l := articlesDifferentFromE1;
        }
      }
      NothingToScan(archive);
    }
  }

  // ---------- Steps of the search of a bucket ----------

  lemma ScanUnfolds(archive: Archive, l: seq<nat>)
    requires l != []
    ensures var a, rest, data := l[0], l[1..], Data(archive, l[0]);
            && Scan(archive, l).reports
               == Pairs(a, Copies(archive, a, rest, data)) + Scan(archive, Different(archive, rest, data)).reports
            && (rest == [] ==> Scan(archive, l).reports == Scan(archive, []).reports)
            && |Different(archive, rest, data)| < |l|
  {
    if l[1..] == [] {
      assert Pairs(l[0], []) == [];
    }
  }

  lemma NothingToScan(archive: Archive)
    ensures Scan(archive, []).reports == []
  {
  }

  lemma NoOthers(archive: Archive, a: nat, l: seq<nat>)
    ensures Different(archive, l[..0], Data(archive, a)) == []
    ensures Pairs(a, Copies(archive, a, l[..0], Data(archive, a))) == []
  {
  }

  lemma AllOthers(l: seq<nat>)
    ensures l[..|l|] == l
  {
  }

  lemma OthersStep(archive: Archive, a: nat, l: seq<nat>, k: nat)
    requires BlobsAgree(archive) && k < |l|
    ensures var data, other, isAlias := Data(archive, a), l[k], AreAliases(archive, a, l[k]);
            var different, different' := Different(archive, l[..k], data), Different(archive, l[..k + 1], data);
            var pairs := Pairs(a, Copies(archive, a, l[..k], data));
            var pairs' := Pairs(a, Copies(archive, a, l[..k + 1], data));
            && (isAlias ==> pairs' == pairs && different' == different)
            && (!isAlias && Data(archive, other) == data ==> pairs' == pairs + [(a, other)] && different' == different)
            && (Data(archive, other) != data ==> pairs' == pairs && different' == different + [other])
  {
    assert l[..k + 1][..k] == l[..k];
    assert AreAliases(archive, a, l[k]) ==> Data(archive, a) == Data(archive, l[k]);
    hide Data, AreAliases, BlobsAgree;
    var copies := Copies(archive, a, l[..k], Data(archive, a));
    assert (copies + [l[k]])[..|copies|] == copies;
  }

  /** A hash that is not in the table has an empty bucket. */
  lemma {:induction false} NotYetHashed(archive: Archive, hash: string -> nat, items: seq<nat>, keys: set<nat>, h: nat)
    requires forall k :: 0 <= k < |items| ==> hash(Data(archive, items[k])) in keys
    ensures h !in keys ==> Bucket(archive, hash, items, h) == []
  {
    if items != [] {
      NotYetHashed(archive, hash, items[..|items| - 1], keys, h);
    }
  }
}
