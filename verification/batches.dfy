/**
 What `infer` and `record` do with a batch (embed/src/cli.rs): decoded images go to the
 three models together, the results are paired with the ids again, and a write splits them
 into completed and failed.

 The models are parameters, and may fail or return too few or too many results.
 */
module Batches {
  import opened Wrappers

  type Tensor = seq<real>

  type Tags = seq<(string, real)>

  /** An image decoded for the three models. */
  datatype Pixels = Pixels(wd: Tensor, clip: Tensor, dino: Tensor)

  datatype Outcome = Outcome(tags: Tags, clip: Tensor, dino: Tensor)

  type Decoded = (int, Option<Pixels>)

  type Inferred = (int, Option<Outcome>)

  datatype Models = Models(
    tagger: seq<Tensor> -> Result<seq<Tags>>,
    clip: seq<Tensor> -> Result<seq<Tensor>>,
    dino: seq<Tensor> -> Result<seq<Tensor>>)

  /** A batch split for the models. */
  datatype Split = Split(ids: seq<int>, wd: seq<Tensor>, clip: seq<Tensor>, dino: seq<Tensor>, none: seq<int>)

  function SplitBatch(images: seq<Decoded>): (r: Split)
    ensures |r.wd| == |r.clip| == |r.dino| == |r.ids|
  {
    if images == [] then Split([], [], [], [], []) else
    var r := SplitBatch(images[..|images| - 1]);
    var (id, image) := images[|images| - 1];
    match image
    case Some(p) => Split(r.ids + [id], r.wd + [p.wd], r.clip + [p.clip], r.dino + [p.dino], r.none)
    case None => r.(none := r.none + [id])
  }

  /** Results of the three models side by side, as many as the shortest list has. */
  function Zip3(a: seq<Tags>, b: seq<Tensor>, c: seq<Tensor>): (r: seq<Outcome>)
    ensures |r| <= |a| && |r| <= |b| && |r| <= |c|
    ensures |r| == |a| || |r| == |b| || |r| == |c|
  {
    var shorter := if |a| <= |b| then |a| else |b|;
    seq(if shorter <= |c| then shorter else |c|,
        i requires 0 <= i < |a| && i < |b| && i < |c| => Outcome(a[i], b[i], c[i]))
  }

  /** The models run one after the other; the first failure fails the batch. */
  function RunModels(models: Models, batch: Split): Result<seq<Outcome>> {
    var tags :- models.tagger(batch.wd);
    var clip :- models.clip(batch.clip);
    var dino :- models.dino(batch.dino);
    Ok(Zip3(tags, clip, dino))
  }

  /** Each id with the result at its place, or none. */
  function Paired(ids: seq<int>, outs: seq<Outcome>): (r: seq<Inferred>)
    ensures |r| == |ids|
  {
    seq(|ids|, i requires 0 <= i < |ids| => (ids[i], if i < |outs| then Some(outs[i]) else None))
  }

  function InferBatch(models: Models, images: seq<Decoded>): (r: seq<Inferred>)
    ensures |r| == |images|
  {
    var batch := SplitBatch(images);
    SplitIsPermutation(images);
    if batch.ids == [] then Paired(batch.none, [])
    else
      match RunModels(models, batch)
      case Ok(outs) => Paired(batch.ids + batch.none, outs)
      case Err(_) => Paired(batch.ids + batch.none, [])
  }

  function IdsOf<T>(list: seq<(int, T)>): (r: seq<int>)
    ensures |r| == |list|
  {
    seq(|list|, i requires 0 <= i < |list| => list[i].0)
  }

  lemma IdsOfLast<T>(list: seq<(int, T)>)
    requires list != []
    ensures IdsOf(list) == IdsOf(list[..|list| - 1]) + [list[|list| - 1].0]
  {
  }

  /** Splitting a batch loses and repeats no id. */
  lemma {:induction false} SplitIsPermutation(images: seq<Decoded>)
    ensures var s := SplitBatch(images);
            |s.ids| + |s.none| == |images| && multiset(IdsOf(images)) == multiset(s.ids) + multiset(s.none)
  {
    if images != [] {
      SplitIsPermutation(images[..|images| - 1]);
      IdsOfLast(images);
    }
  }

  /** Whatever the models do, each input id comes out exactly once. */
  lemma InferKeepsIds(models: Models, images: seq<Decoded>)
    ensures multiset(IdsOf(InferBatch(models, images))) == multiset(IdsOf(images))
  {
    var s := SplitBatch(images);
    SplitIsPermutation(images);
    assert IdsOf(InferBatch(models, images)) == s.ids + s.none;
  }

  /**
   The k-th decoded image gets the k-th result where there is one. Images that were not
   decoded get none exactly when there are no more results than decoded images.
   */
  lemma InferPlaces(models: Models, images: seq<Decoded>)
    requires SplitBatch(images).ids != [] && RunModels(models, SplitBatch(images)).Ok?
    ensures var s, r, outs := SplitBatch(images), InferBatch(models, images), RunModels(models, SplitBatch(images)).value;
            && (forall k :: 0 <= k < |s.ids| ==> r[k] == (s.ids[k], if k < |outs| then Some(outs[k]) else None))
            && (s.none != [] ==>
                 ((forall k :: |s.ids| <= k < |r| ==> r[k].1 == None) <==> |outs| <= |s.ids|))
  {
    var s, r, outs := SplitBatch(images), InferBatch(models, images), RunModels(models, SplitBatch(images)).value;
    SplitIsPermutation(images);
    if s.none != [] && |s.ids| < |outs| {
      assert r[|s.ids|].1 == Some(outs[|s.ids|]);
    }
  }

  // ---- models that answer image by image -------------------------------------

  datatype OneByOne = OneByOne(tagger: Tensor -> Tags, clip: Tensor -> Tensor, dino: Tensor -> Tensor)

  /** The models return one result per input, which depends on that input alone. */
  ghost predicate AnswersEach(models: Models, one: OneByOne) {
    forall b: Split ::
      && models.tagger(b.wd) == Ok(Each(one.tagger, b.wd))
      && models.clip(b.clip) == Ok(Each(one.clip, b.clip))
      && models.dino(b.dino) == Ok(Each(one.dino, b.dino))
  }

  function OwnOutcome(one: OneByOne, p: Pixels): Outcome {
    Outcome(one.tagger(p.wd), one.clip(p.clip), one.dino(p.dino))
  }

  function Own(one: OneByOne, image: Decoded): Inferred {
    (image.0, match image.1 case Some(p) => Some(OwnOutcome(one, p)) case None => None)
  }

  function OwnAll(one: OneByOne, images: seq<Decoded>): (r: seq<Inferred>)
    ensures |r| == |images|
  {
    if images == [] then [] else OwnAll(one, images[..|images| - 1]) + [Own(one, images[|images| - 1])]
  }

  /** What the models answer for a split batch, pair by pair. */
  function SplitOutcomes(one: OneByOne, s: Split): (r: seq<Outcome>)
    requires |s.wd| == |s.clip| == |s.dino| == |s.ids|
    ensures |r| == |s.ids|
  {
    Zip3(Each(one.tagger, s.wd), Each(one.clip, s.clip), Each(one.dino, s.dino))
  }

  lemma PairedLast(ids: seq<int>, outs: seq<Outcome>, id: int, out: Outcome)
    requires |ids| == |outs|
    ensures Paired(ids + [id], outs + [out]) == Paired(ids, outs) + [(id, Some(out))]
  {
  }

  lemma PairedNone(ids: seq<int>, id: int)
    ensures Paired(ids + [id], []) == Paired(ids, []) + [(id, None)]
  {
  }

  lemma {:induction false} OwnSplit(one: OneByOne, images: seq<Decoded>)
    ensures var s := SplitBatch(images);
            multiset(OwnAll(one, images)) == multiset(Paired(s.ids, SplitOutcomes(one, s))) + multiset(Paired(s.none, []))
  {
    if images != [] {
      var before := SplitBatch(images[..|images| - 1]);
      var (id, image) := images[|images| - 1];
      OwnSplit(one, images[..|images| - 1]);
      match image
      case Some(p) =>
        assert SplitOutcomes(one, SplitBatch(images)) == SplitOutcomes(one, before) + [OwnOutcome(one, p)];
        PairedLast(before.ids, SplitOutcomes(one, before), id, OwnOutcome(one, p));
      case None =>
        PairedNone(before.none, id);
    }
  }

  lemma InferIsPaired(models: Models, one: OneByOne, images: seq<Decoded>)
    requires AnswersEach(models, one)
    ensures var s := SplitBatch(images);
            InferBatch(models, images) == Paired(s.ids, SplitOutcomes(one, s)) + Paired(s.none, [])
  {
    var s := SplitBatch(images);
    if s.ids != [] {
      assert RunModels(models, s) == Ok(SplitOutcomes(one, s));
      assert Paired(s.ids + s.none, SplitOutcomes(one, s)) == Paired(s.ids, SplitOutcomes(one, s)) + Paired(s.none, []);
    } else {
      assert Paired(s.ids, SplitOutcomes(one, s)) == [];
    }
  }

  /** A batch gives every image its own result, the one it would get alone. */
  lemma PairsOwn(models: Models, one: OneByOne, images: seq<Decoded>)
    requires AnswersEach(models, one)
    ensures multiset(InferBatch(models, images)) == multiset(OwnAll(one, images))
  {
    OwnSplit(one, images);
    InferIsPaired(models, one, images);
  }

  // ---- record ----------------------------------------------------------------

  datatype Completed = Completed(id: int, clip: Tensor, dino: Tensor)

  datatype TagRow = TagRow(id: int, name: string, score: real)

  function TagRows(id: int, tags: Tags): (r: seq<TagRow>)
    ensures |r| == |tags|
  {
    seq(|tags|, i requires 0 <= i < |tags| => TagRow(id, tags[i].0, tags[i].1))
  }

  function CompletedOf(res: seq<Inferred>): seq<Completed> {
    if res == [] then [] else
    var (id, out) := res[|res| - 1];
    CompletedOf(res[..|res| - 1]) + if out.Some? then [Completed(id, out.value.clip, out.value.dino)] else []
  }

  function FailedOf(res: seq<Inferred>): seq<int> {
    if res == [] then [] else
    var (id, out) := res[|res| - 1];
    FailedOf(res[..|res| - 1]) + if out.None? then [id] else []
  }

  function TagsOf(res: seq<Inferred>): seq<TagRow> {
    if res == [] then [] else
    var (id, out) := res[|res| - 1];
    TagsOf(res[..|res| - 1]) + if out.Some? then TagRows(id, out.value.tags) else []
  }

  /** The arrays of one write. */
  datatype Arrays = Arrays(
    wdIds: seq<int>, tagNames: seq<string>, scores: seq<real>,
    completed: seq<int>, clip: seq<Tensor>, dino: seq<Tensor>,
    failed: seq<int>)

  /** Equally long arrays, which read side by side give `rows`. */
  ghost predicate CompletedAligned(a: Arrays, rows: seq<Completed>) {
    && |a.completed| == |a.clip| == |a.dino| == |rows|
    && forall i :: 0 <= i < |rows| ==> rows[i] == Completed(a.completed[i], a.clip[i], a.dino[i])
  }

  ghost predicate TagsAligned(a: Arrays, rows: seq<TagRow>) {
    && |a.wdIds| == |a.tagNames| == |a.scores| == |rows|
    && forall i :: 0 <= i < |rows| ==> rows[i] == TagRow(a.wdIds[i], a.tagNames[i], a.scores[i])
  }

  method PushTags(a: Arrays, id: int, tags: Tags, ghost rows: seq<TagRow>) returns (r: Arrays)
    requires TagsAligned(a, rows)
    ensures TagsAligned(r, rows + TagRows(id, tags))
    ensures r.completed == a.completed && r.clip == a.clip && r.dino == a.dino && r.failed == a.failed
  {
    r := a;
    for k := 0 to |tags|
      invariant TagsAligned(r, rows + TagRows(id, tags)[..k])
      invariant r.completed == a.completed && r.clip == a.clip && r.dino == a.dino && r.failed == a.failed
    {
      r := r.(wdIds := r.wdIds + [id], tagNames := r.tagNames + [tags[k].0], scores := r.scores + [tags[k].1]);
    }
    assert TagRows(id, tags)[..|tags|] == TagRows(id, tags);
  }

  /** How many images of a list came out with something. */
  function Somes<T>(list: seq<(int, Option<T>)>): nat {
    if list == [] then 0 else Somes(list[..|list| - 1]) + if list[|list| - 1].1.Some? then 1 else 0
  }

  function TagCount(res: seq<Inferred>): nat {
    if res == [] then 0
    else
      var out := res[|res| - 1].1;
      TagCount(res[..|res| - 1]) + if out.Some? then |out.value.tags| else 0
  }

  /** Row `r` of the tag arrays gives image `id` this tag with its score. */
  predicate TagWritten(a: Arrays, r: nat, id: int, tag: (string, real)) {
    && r < |a.wdIds| == |a.tagNames| == |a.scores|
    && a.wdIds[r] == id && a.tagNames[r] == tag.0 && a.scores[r] == tag.1
  }

  /** Image `j` is in the arrays: failed ones at their place among the failed; completed ones at their place among the
      completed, each embedding in its own column; and each of their tags with its own name and score. */
  ghost predicate WrittenAt(res: seq<Inferred>, a: Arrays, j: nat)
    requires j < |res|
  {
    var (id, out) := res[j];
    var i, t := Somes(res[..j]), TagCount(res[..j]);
    match out
    case None => 0 <= j - i < |a.failed| && a.failed[j - i] == id
    case Some(o) =>
      && i < |a.completed| == |a.clip| == |a.dino|
      && a.completed[i] == id && a.clip[i] == o.clip && a.dino[i] == o.dino
      && forall k :: 0 <= k < |o.tags| ==> TagWritten(a, t + k, id, o.tags[k])
  }

  /** The arrays hold every image of the batch, and nothing else. */
  ghost predicate Written(res: seq<Inferred>, a: Arrays) {
    && |a.completed| == |a.clip| == |a.dino| == Somes(res)
    && |a.failed| == |res| - Somes(res)
    && |a.wdIds| == |a.tagNames| == |a.scores| == TagCount(res)
    && forall j :: 0 <= j < |res| ==> WrittenAt(res, a, j)
  }

  lemma {:induction false} RowCounts(res: seq<Inferred>)
    ensures |CompletedOf(res)| == Somes(res) && |FailedOf(res)| == |res| - Somes(res) && |TagsOf(res)| == TagCount(res)
  {
    if res != [] {
      RowCounts(res[..|res| - 1]);
    }
  }

  lemma {:induction false} RowAt(res: seq<Inferred>, j: nat)
    requires j < |res|
    ensures var i := Somes(res[..j]);
            match res[j].1
            case None => 0 <= j - i < |FailedOf(res)| && FailedOf(res)[j - i] == res[j].0
            case Some(o) => i < |CompletedOf(res)| && CompletedOf(res)[i] == Completed(res[j].0, o.clip, o.dino)
  {
    var n := |res| - 1;
    RowCounts(res[..n]);
    if j < n {
      RowAt(res[..n], j);
      assert res[..n][..j] == res[..j];
    }
  }

  lemma {:induction false} TagsAt(res: seq<Inferred>, j: nat, k: nat)
    requires j < |res| && res[j].1.Some? && k < |res[j].1.value.tags|
    ensures var t, tag := TagCount(res[..j]), res[j].1.value.tags[k];
            t + k < |TagsOf(res)| && TagsOf(res)[t + k] == TagRow(res[j].0, tag.0, tag.1)
  {
    var n := |res| - 1;
    RowCounts(res[..n]);
    if j < n {
      TagsAt(res[..n], j, k);
      assert res[..n][..j] == res[..j];
    }
  }

  lemma TagsWritten(res: seq<Inferred>, a: Arrays, j: nat)
    requires TagsAligned(a, TagsOf(res)) && j < |res| && res[j].1.Some?
    ensures var tags := res[j].1.value.tags;
            forall k :: 0 <= k < |tags| ==> TagWritten(a, TagCount(res[..j]) + k, res[j].0, tags[k])
  {
    var tags := res[j].1.value.tags;
    forall k | 0 <= k < |tags| ensures TagWritten(a, TagCount(res[..j]) + k, res[j].0, tags[k]) {
      TagsAt(res, j, k);
    }
  }

  lemma AlignedIsWritten(res: seq<Inferred>, a: Arrays)
    requires CompletedAligned(a, CompletedOf(res)) && TagsAligned(a, TagsOf(res)) && a.failed == FailedOf(res)
    ensures Written(res, a)
  {
    RowCounts(res);
    forall j | 0 <= j < |res| ensures WrittenAt(res, a, j) {
      RowAt(res, j);
      if res[j].1.Some? {
        TagsWritten(res, a, j);
      }
    }
  }

  /** Later images that came out with something have later places. */
  lemma {:induction false} PlacesGrow<T>(list: seq<(int, Option<T>)>, j: nat, k: nat)
    requires j < k <= |list|
    ensures Somes(list[..j]) + (if list[j].1.Some? then 1 else 0) <= Somes(list[..k])
  {
    assert list[..k][..k - 1] == list[..k - 1];
    if j < k - 1 {
      PlacesGrow(list, j, k - 1);
    }
  }

  /** Every place is taken: with `PlacesGrow`, the images that came out with something have the places 0, 1, 2, ..., one each. */
  lemma {:induction false} PlaceTaken<T>(list: seq<(int, Option<T>)>, i: nat) returns (j: nat)
    requires i < Somes(list)
    ensures j < |list| && list[j].1.Some? && Somes(list[..j]) == i
  {
    var n := |list| - 1;
    if i < Somes(list[..n]) {
      j := PlaceTaken(list[..n], i);
      assert list[..n][..j] == list[..j];
    } else {
      j := n;
    }
  }

  /** The arrays of a write: every image of the batch at its place, failed or completed with its own embeddings and tags. */
  method SplitWrite(res: seq<Inferred>) returns (a: Arrays)
    ensures Written(res, a)
    ensures CompletedAligned(a, CompletedOf(res))
    ensures TagsAligned(a, TagsOf(res))
    ensures a.failed == FailedOf(res)
  {
    a := Arrays([], [], [], [], [], [], []);
    for k := 0 to |res|
      invariant CompletedAligned(a, CompletedOf(res[..k]))
      invariant TagsAligned(a, TagsOf(res[..k]))
      invariant a.failed == FailedOf(res[..k])
    {
      var (id, out) := res[k];
      assert res[..k + 1][..k] == res[..k];
      match out
      case Some(o) =>
        a := PushTags(a, id, o.tags, TagsOf(res[..k]));
        a := a.(completed := a.completed + [id], clip := a.clip + [o.clip], dino := a.dino + [o.dino]);
      case None =>
        a := a.(failed := a.failed + [id]);
    }
    assert res[..|res|] == res;
    AlignedIsWritten(res, a);
  }

  function CompletedIds(rows: seq<Completed>): (r: seq<int>)
    ensures |r| == |rows|
  {
    seq(|rows|, i requires 0 <= i < |rows| => rows[i].id)
  }

  lemma WriteLast(res: seq<Inferred>)
    requires res != []
    ensures var (id, out), front := res[|res| - 1], res[..|res| - 1];
            && CompletedIds(CompletedOf(res)) == CompletedIds(CompletedOf(front)) + (if out.Some? then [id] else [])
            && FailedOf(res) == FailedOf(front) + if out.None? then [id] else []
  {
  }

  /** A write completes or fails each id of its batch, exactly as often as it is there. */
  lemma {:induction false} WritePartitions(res: seq<Inferred>)
    ensures multiset(CompletedIds(CompletedOf(res))) + multiset(FailedOf(res)) == multiset(IdsOf(res))
  {
    if res != [] {
      WritePartitions(res[..|res| - 1]);
      IdsOfLast(res);
      WriteLast(res);
    }
  }

  lemma AppendFront<T>(a: seq<T>, b: seq<T>)
    requires b != []
    ensures (a + b)[..|a + b| - 1] == a + b[..|b| - 1] && (a + b)[|a + b| - 1] == b[|b| - 1]
  {
  }

  /** Batches merged into one write are written as they would be alone, in order. */
  lemma {:induction false} MergedWrite(a: seq<Inferred>, b: seq<Inferred>)
    ensures CompletedOf(a + b) == CompletedOf(a) + CompletedOf(b)
    ensures FailedOf(a + b) == FailedOf(a) + FailedOf(b)
  {
    if b == [] {
      assert a + b == a;
    } else {
      MergedWrite(a, b[..|b| - 1]);
      AppendFront(a, b);
    }
  }

  lemma {:induction false} MergedTags(a: seq<Inferred>, b: seq<Inferred>)
    ensures TagsOf(a + b) == TagsOf(a) + TagsOf(b)
  {
    if b == [] {
      assert a + b == a;
    } else {
      MergedTags(a, b[..|b| - 1]);
      AppendFront(a, b);
    }
  }

  lemma {:induction false} WriteSome(ids: seq<int>, outs: seq<Outcome>)
    requires |outs| == |ids|
    ensures CompletedIds(CompletedOf(Paired(ids, outs))) == ids && FailedOf(Paired(ids, outs)) == []
  {
    if ids != [] {
      var n := |ids| - 1;
      WriteSome(ids[..n], outs[..n]);
      WriteLast(Paired(ids, outs));
      assert Paired(ids, outs)[..n] == Paired(ids[..n], outs[..n]);
    }
  }

  lemma {:induction false} WriteNone(ids: seq<int>)
    ensures CompletedOf(Paired(ids, [])) == [] && FailedOf(Paired(ids, [])) == ids
  {
    if ids != [] {
      var n := |ids| - 1;
      WriteNone(ids[..n]);
      assert Paired(ids, [])[..n] == Paired(ids[..n], []);
    }
  }

  /** Through both stages: the write completes exactly the decoded images and fails the others. */
  lemma DecodedIsCompleted(models: Models, one: OneByOne, images: seq<Decoded>)
    requires AnswersEach(models, one)
    ensures var s, r := SplitBatch(images), InferBatch(models, images);
            CompletedIds(CompletedOf(r)) == s.ids && FailedOf(r) == s.none
  {
    var s := SplitBatch(images);
    InferIsPaired(models, one, images);
    PairedWrite(s.ids, SplitOutcomes(one, s), s.none);
  }

  /** Where a decoded image is in the split batch. */
  lemma {:induction false} SplitAt(images: seq<Decoded>, j: nat)
    requires j < |images| && images[j].1.Some?
    ensures var s, i, p := SplitBatch(images), Somes(images[..j]), images[j].1.value;
            && i < |s.ids| == Somes(images)
            && s.ids[i] == images[j].0 && s.wd[i] == p.wd && s.clip[i] == p.clip && s.dino[i] == p.dino
  {
    var n := |images| - 1;
    SplitCount(images[..n]);
    if j < n {
      SplitAt(images[..n], j);
      assert images[..n][..j] == images[..j];
    }
  }

  lemma {:induction false} SplitCount(images: seq<Decoded>)
    ensures |SplitBatch(images).ids| == Somes(images)
  {
    if images != [] {
      SplitCount(images[..|images| - 1]);
    }
  }

  lemma {:induction false} PairedSomes(ids: seq<int>, outs: seq<Outcome>, rest: seq<Inferred>, i: nat)
    requires |outs| == |ids| && i <= |ids|
    ensures Somes((Paired(ids, outs) + rest)[..i]) == i
  {
    var res := Paired(ids, outs) + rest;
    if i > 0 {
      PairedSomes(ids, outs, rest, i - 1);
      assert res[..i][..i - 1] == res[..i - 1] && res[..i][i - 1] == Paired(ids, outs)[i - 1];
    }
  }

  /** End to end: a decoded image's row holds its own two embeddings and its tags, whatever else was in its batch;
      its place is its place among the decoded images, so every one has a row of its own. */
  lemma OwnRow(models: Models, one: OneByOne, images: seq<Decoded>, a: Arrays, j: nat)
    requires AnswersEach(models, one) && Written(InferBatch(models, images), a)
    requires j < |images| && images[j].1.Some?
    ensures var i, (id, image) := Somes(images[..j]), images[j];
            && i < |a.completed| == |a.clip| == |a.dino|
            && a.completed[i] == id && a.clip[i] == one.clip(image.value.clip) && a.dino[i] == one.dino(image.value.dino)
    ensures forall tag | tag in one.tagger(images[j].1.value.wd) :: exists r :: TagWritten(a, r, images[j].0, tag)
  {
    var s, i, res := SplitBatch(images), Somes(images[..j]), InferBatch(models, images);
    var outs, rest := SplitOutcomes(one, s), Paired(s.none, []);
    InferIsPaired(models, one, images);
    SplitAt(images, j);
    PairedSomes(s.ids, outs, rest, i);
    assert res[i] == Paired(s.ids, outs)[i] == (images[j].0, Some(OwnOutcome(one, images[j].1.value)));
    assert WrittenAt(res, a, i);
    var t, tags := TagCount(res[..i]), one.tagger(images[j].1.value.wd);
    forall tag | tag in tags ensures exists r :: TagWritten(a, r, images[j].0, tag) {
      var k :| 0 <= k < |tags| && tags[k] == tag;
      assert TagWritten(a, t + k, images[j].0, tags[k]);
    }
  }

  lemma PairedWrite(ids: seq<int>, outs: seq<Outcome>, none: seq<int>)
    requires |outs| == |ids|
    ensures var r := Paired(ids, outs) + Paired(none, []);
            CompletedIds(CompletedOf(r)) == ids && FailedOf(r) == none
  {
    WriteSome(ids, outs);
    WriteNone(none);
    MergedWrite(Paired(ids, outs), Paired(none, []));
  }

  /** Did the models fail, every image of the batch is reset. */
  lemma ModelErrorFailsAll(models: Models, images: seq<Decoded>)
    requires RunModels(models, SplitBatch(images)).Err?
    ensures CompletedOf(InferBatch(models, images)) == []
    ensures multiset(FailedOf(InferBatch(models, images))) == multiset(IdsOf(images))
  {
    var s := SplitBatch(images);
    WriteNone(s.ids + s.none);
    SplitIsPermutation(images);
    assert s.ids == [] ==> s.ids + s.none == s.none;
  }
}
