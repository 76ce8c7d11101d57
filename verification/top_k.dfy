/**
 The best tags of an image (wd_tagger/src/lib.rs, `top_k_heap`).

 A bounded min-heap is proved to select what filtering, sorting and taking the first k
 would: the same scores, in the same order, from distinct tags. Scores are real numbers,
 so the two float orders the code mixes coincide.
 */
module TopK {
  import opened Arithmetic

  datatype TagType = General | Character

  datatype Tag = Tag(name: string, kind: TagType)

  /** A scored tag, by its position. */
  datatype Entry = Entry(score: real, index: nat)

  /** The heap's order: by score, then by position. */
  predicate AtMost(a: Entry, b: Entry) {
    a.score < b.score || (a.score == b.score && a.index <= b.index)
  }

  function Scores(s: seq<Entry>): (r: seq<real>)
    ensures |r| == |s| && forall i :: 0 <= i < |s| ==> r[i] == s[i].score
  {
    seq(|s|, i requires 0 <= i < |s| => s[i].score)
  }

  predicate Descending(s: seq<real>) {
    forall i, j :: 0 <= i < j < |s| ==> s[i] >= s[j]
  }

  // ---- the specification: filter, sort, take -------------------------------

  function Threshold(kind: TagType, general: real, character: real): real {
    match kind
    case General => general
    case Character => character
  }

  predicate Passes(vec: seq<real>, tags: seq<Tag>, general: real, character: real, i: nat) {
    i < |vec| && i < |tags| && vec[i] >= Threshold(tags[i].kind, general, character)
  }

  /** The entries below `n` that reach their threshold. */
  function Passing(vec: seq<real>, tags: seq<Tag>, general: real, character: real, n: nat): (r: seq<Entry>)
    requires n <= |vec| && n <= |tags|
    ensures forall e | e in r :: e.index < n && vec[e.index] == e.score && Passes(vec, tags, general, character, e.index)
  {
    if n == 0 then [] else
    Passing(vec, tags, general, character, n - 1)
    + if Passes(vec, tags, general, character, n - 1) then [Entry(vec[n - 1], n - 1)] else []
  }

  /** Listed are exactly the positions whose score reaches the threshold of their kind, with their scores. */
  lemma {:induction false} PassingIff(vec: seq<real>, tags: seq<Tag>, general: real, character: real, n: nat, e: Entry)
    requires n <= |vec| && n <= |tags|
    ensures e in Passing(vec, tags, general, character, n)
       <==> (&& e.index < n && e.score == vec[e.index]
             && (tags[e.index].kind.General? ==> e.score >= general)
             && (tags[e.index].kind.Character? ==> e.score >= character))
  {
    if n > 0 {
      PassingIff(vec, tags, general, character, n - 1, e);
    }
  }

  function InsertDesc(x: real, s: seq<real>): (r: seq<real>)
    ensures |r| == |s| + 1
  {
    if s == [] || x >= s[0] then [x] + s else [s[0]] + InsertDesc(x, s[1..])
  }

  function SortDesc(s: seq<real>): (r: seq<real>)
    ensures |r| == |s|
  {
    if s == [] then [] else InsertDesc(s[0], SortDesc(s[1..]))
  }

  lemma ConsDescending(h: real, s: seq<real>)
    requires Descending(s) && forall y | y in s :: y <= h
    ensures Descending([h] + s) && multiset([h] + s) == multiset{h} + multiset(s)
  {
    var r := [h] + s;
    forall i, j | 0 <= i < j < |r| ensures r[i] >= r[j] {
      assert r[j] == s[j - 1] && s[j - 1] in s;
      assert i > 0 ==> r[i] == s[i - 1];
    }
  }

  lemma TailDescending(s: seq<real>)
    requires Descending(s) && s != []
    ensures Descending(s[1..]) && multiset(s) == multiset{s[0]} + multiset(s[1..])
    ensures forall y | y in s :: y <= s[0]
  {
    assert s == [s[0]] + s[1..];
  }

  lemma {:induction false} InsertSorted(x: real, s: seq<real>)
    requires Descending(s)
    ensures Descending(InsertDesc(x, s)) && multiset(InsertDesc(x, s)) == multiset{x} + multiset(s)
  {
    if s == [] {
    } else if x >= s[0] {
      TailDescending(s);
      ConsDescending(x, s);
    } else {
      var r := InsertDesc(x, s[1..]);
      TailDescending(s);
      InsertSorted(x, s[1..]);
      forall y | y in r ensures y <= s[0] {
        assert y in multiset(r);
        assert y in s || y == x;
      }
      ConsDescending(s[0], r);
    }
  }

  lemma {:induction false} SortSorts(s: seq<real>)
    ensures Descending(SortDesc(s)) && multiset(SortDesc(s)) == multiset(s)
  {
    if s != [] {
      SortSorts(s[1..]);
      InsertSorted(s[0], SortDesc(s[1..]));
      assert s == [s[0]] + s[1..];
    }
  }

  lemma SameHead(a: seq<real>, b: seq<real>)
    requires Descending(a) && Descending(b) && multiset(a) == multiset(b) && a != [] && b != []
    ensures a[0] == b[0] && multiset(a[1..]) == multiset(b[1..])
  {
    TailDescending(a);
    TailDescending(b);
    assert a[0] in multiset(a) && b[0] in multiset(b);
    assert a[0] in b && b[0] in a;
    assert multiset(a[1..]) == multiset(a) - multiset{a[0]};
    assert multiset(b[1..]) == multiset(b) - multiset{b[0]};
  }

  /** A sorted sequence is determined by its contents. */
  lemma {:induction false} SortedUnique(a: seq<real>, b: seq<real>)
    requires Descending(a) && Descending(b) && multiset(a) == multiset(b)
    ensures a == b
  {
    assert |a| == |multiset(a)| == |b|;
    if a != [] {
      SameHead(a, b);
      SortedUnique(a[1..], b[1..]);
      assert a == [a[0]] + a[1..] && b == [b[0]] + b[1..];
    }
  }

  lemma ConcatDescending(a: seq<real>, b: seq<real>)
    requires Descending(a) && Descending(b) && forall x, y | x in a && y in b :: y <= x
    ensures Descending(a + b)
  {
    var r := a + b;
    forall i, j | 0 <= i < j < |r| ensures r[i] >= r[j] {
      if i < |a| <= j {
        assert a[i] in a && b[j - |a|] in b;
      }
    }
  }

  /** If everything kept is at least everything dropped, the kept scores in order are the first ones of the whole sort. */
  lemma KeptIsTop(kept: seq<real>, dropped: seq<real>, all: seq<real>)
    requires Descending(kept) && multiset(kept) + multiset(dropped) == multiset(all)
    requires forall x, y | x in kept && y in dropped :: y <= x
    ensures |kept| <= |all| && kept == SortDesc(all)[..|kept|]
  {
    var tail := SortDesc(dropped);
    SortSorts(dropped);
    SortSorts(all);
    forall x, y | x in kept && y in tail ensures y <= x {
      assert y in multiset(tail);
      assert y in dropped;
    }
    ConcatDescending(kept, tail);
    assert multiset(kept + tail) == multiset(kept) + multiset(tail);
    SortedUnique(kept + tail, SortDesc(all));
    assert |SortDesc(all)| == |multiset(all)| == |all|;
    assert (kept + tail)[..|kept|] == kept;
  }

  // ---- the heap ------------------------------------------------------------

  predicate Ascending(s: seq<Entry>) {
    forall i, j :: 0 <= i < j < |s| ==> AtMost(s[i], s[j])
  }

  lemma InsertAscending(s: seq<Entry>, p: nat, e: Entry)
    requires Ascending(s) && p <= |s|
    requires forall i :: 0 <= i < p ==> AtMost(s[i], e)
    requires p < |s| ==> !AtMost(s[p], e)
    ensures Ascending(s[..p] + [e] + s[p..])
  {
    forall i | p <= i < |s| ensures AtMost(e, s[i]) {
      assert p < i ==> AtMost(s[p], s[i]);
    }
  }

  lemma InsertContents(s: seq<Entry>, p: nat, e: Entry)
    requires p <= |s|
    ensures var r := s[..p] + [e] + s[p..];
            && multiset(r) == multiset(s) + multiset{e}
            && multiset(Scores(r)) == multiset(Scores(s)) + multiset{e.score}
  {
    var r := s[..p] + [e] + s[p..];
    assert s == s[..p] + s[p..];
    assert Scores(s) == Scores(s[..p]) + Scores(s[p..]);
    assert Scores(r) == Scores(s[..p]) + [e.score] + Scores(s[p..]);
  }

  /** A min-heap of entries, with the operations the selection uses. */
  class MinHeap {
    var items: seq<Entry>

    ghost predicate Valid()
      reads this
    {
      Ascending(items)
    }

    constructor ()
      ensures Valid() && items == []
    {
      items := [];
    }

    method Push(e: Entry)
      requires Valid()
      modifies this
      ensures Valid()
      ensures multiset(items) == old(multiset(items)) + multiset{e}
      ensures multiset(Scores(items)) == old(multiset(Scores(items))) + multiset{e.score}
    {
      var p := 0;
      while p < |items| && AtMost(items[p], e)
        invariant 0 <= p <= |items|
        invariant forall i :: 0 <= i < p ==> AtMost(items[i], e)
      {
        p := p + 1;
      }
      InsertAscending(items, p, e);
      InsertContents(items, p, e);
      items := items[..p] + [e] + items[p..];
    }

    /** The least entry leaves. */
    method Pop() returns (e: Entry)
      requires Valid() && items != []
      modifies this
      ensures Valid() && old(items) == [e] + items
      ensures forall x | x in items :: AtMost(e, x)
      ensures old(Scores(items)) == [e.score] + Scores(items)
    {
      e := items[0];
      items := items[1..];
    }
  }

  // ---- the selection -------------------------------------------------------

  /** The kept and the dropped scores make up `all`, and nothing dropped beats anything kept. */
  ghost predicate Selected(kept: seq<Entry>, dropped: seq<real>, all: seq<Entry>, k: nat) {
    && |kept| == Min(|all|, k)
    && (|all| < k ==> dropped == [])
    && multiset(Scores(kept)) + multiset(dropped) == multiset(Scores(all))
    && multiset(kept) <= multiset(all)
    && forall e, y | e in kept && y in dropped :: y <= e.score
  }

  /** Room left: the new entry is kept. */
  lemma KeepNew(kept: seq<Entry>, kept': seq<Entry>, all: seq<Entry>, k: nat, e: Entry)
    requires Selected(kept, [], all, k) && |kept| < k
    requires multiset(kept') == multiset(kept) + multiset{e}
    requires multiset(Scores(kept')) == multiset(Scores(kept)) + multiset{e.score}
    ensures Selected(kept', [], all + [e], k)
  {
    assert |kept'| == |multiset(kept')|;
    assert |kept| == |multiset(kept)|;
    assert Scores(all + [e]) == Scores(all) + [e.score];
  }

  /** Full, and the new entry beats the least: they change places. */
  lemma Replace(kept: seq<Entry>, rest: seq<Entry>, kept': seq<Entry>, dropped: seq<real>, all: seq<Entry>, k: nat,
                least: Entry, e: Entry)
    requires Selected(kept, dropped, all, k) && |kept| == k && least.score < e.score
    requires kept == [least] + rest && Scores(kept) == [least.score] + Scores(rest)
    requires forall x | x in rest :: AtMost(least, x)
    requires multiset(kept') == multiset(rest) + multiset{e}
    requires multiset(Scores(kept')) == multiset(Scores(rest)) + multiset{e.score}
    ensures Selected(kept', dropped + [least.score], all + [e], k)
  {
    assert |kept'| == |multiset(kept')| && |rest| == |multiset(rest)|;
    assert Scores(all + [e]) == Scores(all) + [e.score];
    assert multiset(kept) == multiset{least} + multiset(rest);
    forall x, y | x in kept' && y in dropped + [least.score] ensures y <= x.score {
      assert x in multiset(kept');
      assert x in rest || x == e;
      assert least in kept;
    }
  }

  /** Full, and the new entry does not beat the least: it is dropped. */
  lemma DropNew(kept: seq<Entry>, dropped: seq<real>, all: seq<Entry>, k: nat, e: Entry)
    requires Selected(kept, dropped, all, k) && |kept| == k
    requires Ascending(kept) && (kept != [] ==> e.score <= kept[0].score)
    ensures Selected(kept, dropped + [e.score], all + [e], k)
  {
    assert forall i :: 0 < i < |kept| ==> AtMost(kept[0], kept[i]);
    assert Scores(all + [e]) == Scores(all) + [e.score];
  }

  /** `kept` are the best `k` of `all`. */
  ghost predicate Best(kept: seq<Entry>, all: seq<Entry>, k: nat) {
    exists dropped :: Selected(kept, dropped, all, k)
  }

  /** One passing entry meets the heap. */
  method Offer(heap: MinHeap, k: nat, e: Entry, ghost all: seq<Entry>)
    requires heap.Valid() && Best(heap.items, all, k)
    modifies heap
    ensures heap.Valid() && Best(heap.items, all + [e], k)
  {
    ghost var was := heap.items;
    ghost var dropped :| Selected(was, dropped, all, k);
    if |heap.items| < k {
      heap.Push(e);
      KeepNew(was, heap.items, all, k, e);
    } else if |heap.items| > 0 && e.score > heap.items[0].score {
      var least := heap.Pop();
      ghost var rest := heap.items;
      heap.Push(e);
      Replace(was, rest, heap.items, dropped, all, k, least, e);
    } else {
      DropNew(was, dropped, all, k, e);
    }
  }

  /** The bounded heap over all entries that pass; the shorter sequence ends the scan. */
  method Select(vec: seq<real>, k: nat, general: real, character: real, tags: seq<Tag>) returns (kept: seq<Entry>)
    ensures Best(kept, Passing(vec, tags, general, character, Min(|vec|, |tags|)), k)
  {
    var heap := new MinHeap();
    KeepNone(k);
    var i := 0;
    while i < Min(|vec|, |tags|)
      invariant 0 <= i <= Min(|vec|, |tags|) && heap.Valid() && fresh(heap)
      invariant Best(heap.items, Passing(vec, tags, general, character, i), k)
    {
      ghost var all := Passing(vec, tags, general, character, i);
      assert all + [] == all;
      if Passes(vec, tags, general, character, i) {
        Offer(heap, k, Entry(vec[i], i), all);
      }
      i := i + 1;
    }
    kept := heap.items;
  }

  lemma KeepNone(k: nat)
    ensures Best([], [], k)
  {
    assert Selected([], [], [], k);
  }

  // ---- the sorted result ---------------------------------------------------

  function InsertEntry(x: Entry, s: seq<Entry>): seq<Entry> {
    if s == [] || x.score >= s[0].score then [x] + s else [s[0]] + InsertEntry(x, s[1..])
  }

  /** The final sort, by score only. */
  function SortEntries(s: seq<Entry>): seq<Entry> {
    if s == [] then [] else InsertEntry(s[0], SortEntries(s[1..]))
  }

  lemma ScoresCons(x: Entry, s: seq<Entry>)
    ensures Scores([x] + s) == [x.score] + Scores(s) && multiset([x] + s) == multiset(s) + multiset{x}
  {
  }

  lemma {:induction false} InsertEntryKeeps(x: Entry, s: seq<Entry>)
    ensures multiset(InsertEntry(x, s)) == multiset(s) + multiset{x}
  {
    if s == [] || x.score >= s[0].score {
      ScoresCons(x, s);
    } else {
      InsertEntryKeeps(x, s[1..]);
      ScoresCons(s[0], InsertEntry(x, s[1..]));
      ScoresCons(s[0], s[1..]);
      assert s == [s[0]] + s[1..];
    }
  }

  lemma {:induction false} InsertEntryScores(x: Entry, s: seq<Entry>)
    ensures Scores(InsertEntry(x, s)) == InsertDesc(x.score, Scores(s))
  {
    if s == [] || x.score >= s[0].score {
      ScoresCons(x, s);
    } else {
      InsertEntryScores(x, s[1..]);
      ScoresCons(s[0], InsertEntry(x, s[1..]));
      assert Scores(s)[1..] == Scores(s[1..]);
    }
  }

  lemma {:induction false} SortEntriesOk(s: seq<Entry>)
    ensures multiset(SortEntries(s)) == multiset(s) && Scores(SortEntries(s)) == SortDesc(Scores(s))
  {
    if s != [] {
      SortEntriesOk(s[1..]);
      InsertEntryKeeps(s[0], SortEntries(s[1..]));
      InsertEntryScores(s[0], SortEntries(s[1..]));
      ScoresCons(s[0], s[1..]);
      assert s == [s[0]] + s[1..] && Scores(s)[1..] == Scores(s[1..]);
    }
  }

  /** No position passes twice. */
  lemma {:induction false} PassingOnce(vec: seq<real>, tags: seq<Tag>, general: real, character: real, n: nat, e: Entry)
    requires n <= |vec| && n <= |tags|
    ensures multiset(Passing(vec, tags, general, character, n))[e] <= 1
  {
    if n > 0 {
      PassingOnce(vec, tags, general, character, n - 1, e);
      var before := Passing(vec, tags, general, character, n - 1);
      if e.index == n - 1 {
        assert e !in before;
      }
    }
  }

  lemma OnceIsDistinct(s: seq<Entry>, i: nat, j: nat)
    requires i < j < |s| && multiset(s)[s[i]] <= 1
    ensures s[i] != s[j]
  {
    assert s == s[..j] + [s[j]] + s[j + 1..];
    assert s[i] == s[..j][i];
  }

  lemma SortedTop(kept: seq<Entry>, sorted: seq<Entry>, dropped: seq<real>, all: seq<Entry>, k: nat)
    requires Selected(kept, dropped, all, k) && sorted == SortEntries(kept)
    ensures |sorted| == |kept| <= |all| && multiset(sorted) <= multiset(all)
    ensures Scores(sorted) == SortDesc(Scores(all))[..|kept|]
  {
    SortEntriesOk(kept);
    assert |sorted| == |multiset(sorted)| == |kept|;
    SortSorts(Scores(kept));
    forall x, y | x in Scores(sorted) && y in dropped ensures y <= x {
      assert x in multiset(Scores(sorted));
      assert x in Scores(kept);
    }
    KeptIsTop(Scores(sorted), dropped, Scores(all));
  }

  /** Sorted entries drawn from the passing ones: each is its own position's, and none repeats. */
  lemma SortedEntries(vec: seq<real>, tags: seq<Tag>, general: real, character: real, sorted: seq<Entry>)
    requires multiset(sorted) <= multiset(Passing(vec, tags, general, character, Min(|vec|, |tags|)))
    ensures forall j :: 0 <= j < |sorted| ==>
              Passes(vec, tags, general, character, sorted[j].index) && sorted[j].score == vec[sorted[j].index]
    ensures forall i, j :: 0 <= i < j < |sorted| ==> sorted[i].index != sorted[j].index
  {
    var n := Min(|vec|, |tags|);
    var all := Passing(vec, tags, general, character, n);
    forall j | 0 <= j < |sorted|
      ensures Passes(vec, tags, general, character, sorted[j].index) && sorted[j].score == vec[sorted[j].index]
    {
      assert sorted[j] in multiset(sorted);
      assert sorted[j] in all;
    }
    forall i, j | 0 <= i < j < |sorted| ensures sorted[i].index != sorted[j].index {
      PassingOnce(vec, tags, general, character, n, sorted[i]);
      OnceIsDistinct(sorted, i, j);
    }
  }

  function Tagged(tags: seq<Tag>, s: seq<Entry>): (r: seq<(Tag, real)>)
    requires forall j :: 0 <= j < |s| ==> s[j].index < |tags|
    ensures |r| == |s| && forall j :: 0 <= j < |s| ==> r[j] == (tags[s[j].index], s[j].score)
  {
    seq(|s|, j requires 0 <= j < |s| => (tags[s[j].index], s[j].score))
  }

  /** Result `j` is the tag at position `index[j]` with its score, which reaches its threshold; no position repeats. */
  ghost predicate DrawnFrom(vec: seq<real>, tags: seq<Tag>, general: real, character: real,
                            result: seq<(Tag, real)>, index: seq<nat>)
  {
    && |index| == |result|
    && (forall j :: 0 <= j < |result| ==>
          Passes(vec, tags, general, character, index[j]) && result[j] == (tags[index[j]], vec[index[j]]))
    && (forall i, j :: 0 <= i < j < |result| ==> index[i] != index[j])
  }

  /** The scores returned are the first `k` of all passing scores sorted, each with its own tag.
      Ties at the cut may fall either way, and `k` may be zero. */
  method TopKHeap(vec: seq<real>, k: nat, general: real, character: real, tags: seq<Tag>)
    returns (result: seq<(Tag, real)>)
    ensures var passing := Scores(Passing(vec, tags, general, character, Min(|vec|, |tags|)));
            && |result| == Min(|passing|, k)
            && (forall j :: 0 <= j < |result| ==> result[j].1 == SortDesc(passing)[j])
    ensures exists index :: DrawnFrom(vec, tags, general, character, result, index)
  {
    var kept := Select(vec, k, general, character, tags);
    var sorted := SortEntries(kept);
    ghost var all := Passing(vec, tags, general, character, Min(|vec|, |tags|));
    BestSorted(kept, sorted, all, k);
    SortedEntries(vec, tags, general, character, sorted);
    result := Tagged(tags, sorted);
    Drawn(vec, tags, general, character, sorted);
  }

  lemma BestSorted(kept: seq<Entry>, sorted: seq<Entry>, all: seq<Entry>, k: nat)
    requires Best(kept, all, k) && sorted == SortEntries(kept)
    ensures |sorted| == Min(|all|, k) && multiset(sorted) <= multiset(all)
    ensures forall j :: 0 <= j < |sorted| ==> sorted[j].score == SortDesc(Scores(all))[j]
  {
    var dropped :| Selected(kept, dropped, all, k);
    SortedTop(kept, sorted, dropped, all, k);
    assert forall j :: 0 <= j < |sorted| ==> sorted[j].score == Scores(sorted)[j];
  }

  lemma Drawn(vec: seq<real>, tags: seq<Tag>, general: real, character: real, sorted: seq<Entry>)
    requires forall j :: 0 <= j < |sorted| ==>
               Passes(vec, tags, general, character, sorted[j].index) && sorted[j].score == vec[sorted[j].index]
    requires forall i, j :: 0 <= i < j < |sorted| ==> sorted[i].index != sorted[j].index
    ensures (forall j :: 0 <= j < |sorted| ==> sorted[j].index < |tags|)
    ensures exists index :: DrawnFrom(vec, tags, general, character, Tagged(tags, sorted), index)
  {
    var index := seq(|sorted|, j requires 0 <= j < |sorted| => sorted[j].index);
    assert DrawnFrom(vec, tags, general, character, Tagged(tags, sorted), index);
  }
}
