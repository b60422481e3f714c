/**
 * `MatchTypes`: the walk down the classificator that turns an element's
 * tags into type codes. Each outer round starts at the root, finds a child
 * named by some tag's key, then extends the path from its last node, first
 * by a tag's value and otherwise by a tag's key, until neither works. The
 * path's code becomes a type when it is drawable. A tag that served once
 * is never served again, because `skipRows` grows and is never reset.
 */
module Matching {
  import opened Wrappers
  import opened StringUtils
  import opened OsmElements
  import opened TagFilters
  import opened Classif
  import opened Features

  /** The two callbacks `MatchTypes` hands to `ForEachTagEx`. */
  datatype Probe = ByKey | ByValue

  /**
   * One callback on one tag, as the nodes it appends to the path.
   * `ByKey` is `matchTagToClassificator`: the child named by the key, then,
   * when the value may be matched, that child's child named by the value.
   * `ByValue` is the lambda of the inner loop: the child named by the value.
   */
  function ProbeTag(p: Probe, cur: ClassifObject, t: Tag): (r: Option<seq<ObjPtr>>)
    ensures r.Some? ==> 1 <= |r.value| <= 2 && IsChain(cur, r.value)
    ensures r.Some? ==> forall k :: 0 <= k < |r.value| ==> r.value[k].obj.name == t.key || r.value[k].obj.name == t.value
    ensures p.ByKey? ==> (r.Some? <==> BinaryFind(cur, t.key).Some?)
    ensures p.ByKey? && r.Some? ==>
      && r.value[0].obj.name == t.key
      && (|r.value| == 2 <==> NeedMatchValue(t.key, t.value) && BinaryFind(r.value[0].obj, t.value).Some?)
      && (|r.value| == 2 ==> r.value[1].obj.name == t.value)
    ensures p.ByValue? ==> (r.Some? <==> NeedMatchValue(t.key, t.value) && BinaryFind(cur, t.value).Some?)
    ensures p.ByValue? && r.Some? ==> |r.value| == 1 && r.value[0].obj.name == t.value
  {
    match p
    case ByKey =>
      (match BinaryFind(cur, t.key)
       case None => None
       case Some(elem) =>
         if NeedMatchValue(t.key, t.value) && BinaryFind(elem.obj, t.value).Some? then
           var second := BinaryFind(elem.obj, t.value).value;
           assert [elem, second][1..] == [second] && [second][1..] == [];
           assert IsChain(second.obj, []);
           assert IsChain(elem.obj, [second]);
           Some([elem, second])
         else Some([elem]))
    case ByValue =>
      if !NeedMatchValue(t.key, t.value) then None
      else (match BinaryFind(cur, t.value)
        case None => None
        case Some(x) => Some([x]))
  }

  /** Keys containing "name" are never matched against the classificator. */
  predicate IsNameKey(k: string) {
    Contains(k, "name")
  }

  /** The ids below `n` of visible tags whose key contains "name". */
  function NameIdsBelow(vis: seq<Tag>, n: nat): set<nat>
    requires n <= |vis|
  {
    set j: nat | j < n && IsNameKey(vis[j].key)
  }

  /** One more id: it joins the set exactly when its key contains "name". */
  lemma NameIdsNext(vis: seq<Tag>, n: nat)
    requires n < |vis|
    ensures NameIdsBelow(vis, n + 1) == NameIdsBelow(vis, n) + if IsNameKey(vis[n].key) then {n} else {}
    ensures forall j :: j in NameIdsBelow(vis, n) ==> j < n
  {
  }

  /** Visible tag j has nothing to offer the callback `toDo`. */
  predicate Passes<R>(toDo: Tag -> Option<R>, vis: seq<Tag>, skip: set<nat>, j: nat)
    requires j < |vis|
  {
    j in skip || IsNameKey(vis[j].key) || toDo(vis[j]).None?
  }

  /** Tag `hit` is the one `ForEachTagEx` stops at: the first unskipped, unnamed tag the callback accepts. */
  predicate FirstHit<R>(toDo: Tag -> Option<R>, vis: seq<Tag>, skip: set<nat>, hit: nat) {
    && hit < |vis| && hit !in skip && !IsNameKey(vis[hit].key) && toDo(vis[hit]).Some?
    && forall j: nat :: j < hit ==> Passes(toDo, vis, skip, j)
  }

  /**
   * Where `ForEachTagEx` stops, searching from id `id` on: the first tag
   * that is not skipped, has no name key and that the callback accepts.
   */
  function FirstHitFrom<R>(toDo: Tag -> Option<R>, vis: seq<Tag>, skip: set<nat>, id: nat): (r: Option<nat>)
    requires id <= |vis|
    ensures r.Some? ==> id <= r.value < |vis| && r.value !in skip && !IsNameKey(vis[r.value].key) && toDo(vis[r.value]).Some?
    decreases |vis| - id
  {
    if id == |vis| then None
    else if id !in skip && !IsNameKey(vis[id].key) && toDo(vis[id]).Some? then Some(id)
    else FirstHitFrom(toDo, vis, skip, id + 1)
  }

  /** The skip set `ForEachTagEx` leaves: the name-key ids it passed, and the tag it stopped at. */
  function SkipAfter(vis: seq<Tag>, skip: set<nat>, hit: Option<nat>): set<nat>
    requires hit.Some? ==> hit.value < |vis|
  {
    match hit
    case None => skip + NameIdsBelow(vis, |vis|)
    case Some(h) => skip + NameIdsBelow(vis, h) + {h}
  }

  /**
   * What the skip set gains: the tag the walk stopped at, and every
   * name-key id it passed on the way (all of them when it found nothing).
   */
  lemma SkipAfterMeaning(vis: seq<Tag>, skip: set<nat>, hit: Option<nat>)
    requires hit.Some? ==> hit.value < |vis|
    ensures var r := SkipAfter(vis, skip, hit);
      && skip <= r && (hit.Some? ==> hit.value in r)
      && (forall j :: j in r && j !in skip ==> j < |vis| && (hit == Some(j) || IsNameKey(vis[j].key)))
      && (forall j: nat :: j < |vis| && IsNameKey(vis[j].key) && (hit.None? || j < hit.value) ==> j in r)
  {
  }

  /** The search finds nothing exactly when every tag from `id` on passes. */
  lemma {:induction false} FirstHitFromNone<R>(toDo: Tag -> Option<R>, vis: seq<Tag>, skip: set<nat>, id: nat)
    requires id <= |vis|
    ensures FirstHitFrom(toDo, vis, skip, id).None? <==> forall j: nat :: id <= j < |vis| ==> Passes(toDo, vis, skip, j)
    decreases |vis| - id
  {
    if id < |vis| {
      FirstHitFromNone(toDo, vis, skip, id + 1);
      if forall j: nat :: id + 1 <= j < |vis| ==> Passes(toDo, vis, skip, j) {
        if Passes(toDo, vis, skip, id) {
          forall j: nat | id <= j < |vis|
            ensures Passes(toDo, vis, skip, j)
          {
            if j > id { assert id + 1 <= j; }
          }
        }
      }
    }
  }

  /** The first hit is the one the search from any earlier id finds. */
  lemma {:induction false} FirstHitFromHit<R>(toDo: Tag -> Option<R>, vis: seq<Tag>, skip: set<nat>, id: nat, hit: nat)
    requires FirstHit(toDo, vis, skip, hit) && id <= hit
    ensures FirstHitFrom(toDo, vis, skip, id) == Some(hit)
    decreases hit - id
  {
    if id < hit {
      assert Passes(toDo, vis, skip, id);
      FirstHitFromHit(toDo, vis, skip, id + 1, hit);
    }
  }

  /** The visible tags of a longer prefix: one more, unless the new tag is ignored. */
  lemma VisibleNext(tags: seq<Tag>, i: nat)
    requires i < |tags|
    ensures Visible(tags[..i + 1]) ==
      Visible(tags[..i]) + if IgnoreTag(tags[i].key, tags[i].value) then [] else [tags[i]]
  {
    assert tags[..i + 1][..i] == tags[..i];
  }

  /**
   * `ForEachTagEx`: the visible tags are numbered in order; a tag whose id
   * is in the skip set is passed over, a tag whose key contains "name" is
   * added to the skip set and passed over, and the first other tag on which
   * the callback succeeds is added to the skip set and ends the walk.
   * `hit` is the id of that tag.
   */
  method ForEachTagEx<R>(e: OsmElement, skip: set<nat>, toDo: Tag -> Option<R>)
    returns (res: Option<R>, skip': set<nat>, ghost hit: nat)
    ensures var vis := Visible(e.tags);
      res.None? ==>
        && skip' == skip + NameIdsBelow(vis, |vis|)
        && forall j: nat :: j < |vis| ==> Passes(toDo, vis, skip, j)
    ensures skip <= skip' && forall j :: j in skip' && j !in skip ==> j < |Visible(e.tags)|
    ensures var vis := Visible(e.tags);
      res.Some? ==>
        && hit < |vis| && hit !in skip && !IsNameKey(vis[hit].key)
        && res == toDo(vis[hit])
        && skip' == skip + NameIdsBelow(vis, hit) + {hit}
        && forall j: nat :: j < hit ==> Passes(toDo, vis, skip, j)
    ensures var vis := Visible(e.tags);
      && (if res.Some? then Some(hit) else None) == FirstHitFrom(toDo, vis, skip, 0)
      && skip' == SkipAfter(vis, skip, FirstHitFrom(toDo, vis, skip, 0))
  {
    var vis := Visible(e.tags);
    skip', hit := skip, 0;
    var id := 0;
    while id < |vis|
      invariant 0 <= id <= |vis|
      invariant skip' == skip + NameIdsBelow(vis, id)
      invariant forall j :: j in skip' && j !in skip ==> j < id
      invariant forall j: nat :: j < id ==> Passes(toDo, vis, skip, j)
    {
      var t := vis[id];
      NameIdsNext(vis, id);
      if id in skip' {
      } else if IsNameKey(t.key) {
        skip' := skip' + {id};
      } else {
        var r := toDo(t);
        if r.Some? {
          skip' := skip' + {id};
          res, hit := r, id;
          FirstHitFromHit(toDo, vis, skip, 0, hit);
          return;
        }
      }
      id := id + 1;
    }
    res := None;
    FirstHitFromNone(toDo, vis, skip, 0);
  }

  /** The ids of an element with `n` visible tags. */
  function IdRange(n: nat): (r: set<nat>)
    ensures forall j: nat :: j in r <==> j < n
    decreases n
  {
    if n == 0 then {} else IdRange(n - 1) + {n - 1}
  }

  lemma {:induction false} IdRangeSize(n: nat)
    ensures |IdRange(n)| == n
  {
    if n > 0 {
      IdRangeSize(n - 1);
    }
  }

  lemma SubsetSize(a: set<nat>, b: set<nat>)
    requires a <= b
    ensures |a| <= |b|
    ensures a != b ==> |a| < |b|
  {
    assert b == a + (b - a);
  }

  /** The node is named by the key or value of a tag whose id is in `ids`. */
  ghost predicate NamedByTag(node: ObjPtr, vis: seq<Tag>, ids: set<nat>) {
    exists j :: j in ids && j < |vis| && (node.obj.name == vis[j].key || node.obj.name == vis[j].value)
  }

  /** Every node of `path` is named by a tag whose id is in `ids`. */
  ghost predicate AllNamed(path: seq<ObjPtr>, vis: seq<Tag>, ids: set<nat>)
    decreases |path|
  {
    path == [] || (AllNamed(path[..|path| - 1], vis, ids) && NamedByTag(path[|path| - 1], vis, ids))
  }

  /**
   * The tags with ids in `ids` served `path`: every node is named by one of
   * them, and the first node by a key.
   */
  ghost predicate UsesTags(path: seq<ObjPtr>, vis: seq<Tag>, ids: set<nat>) {
    && ids != {}
    && (forall j :: j in ids ==> j < |vis|)
    && AllNamed(path, vis, ids)
    && (path != [] ==> exists j :: j in ids && j < |vis| && path[0].obj.name == vis[j].key)
  }

  /** No tag id serves two paths. */
  ghost predicate Disjoint(pathIds: seq<set<nat>>) {
    forall a, b :: 0 <= a < b < |pathIds| ==> pathIds[a] !! pathIds[b]
  }

  lemma UsesTagsStart(r: seq<ObjPtr>, vis: seq<Tag>, hit: nat)
    requires hit < |vis| && r != [] && r[0].obj.name == vis[hit].key
    requires forall k :: 0 <= k < |r| ==> r[k].obj.name == vis[hit].key || r[k].obj.name == vis[hit].value
    ensures UsesTags(r, vis, {hit})
  {
    AllNamedAppend([], r, vis, {hit}, hit);
    assert [] + r == r;
  }

  /** More ids never unname a node. */
  lemma {:induction false} AllNamedMore(path: seq<ObjPtr>, vis: seq<Tag>, ids: set<nat>, more: set<nat>)
    requires AllNamed(path, vis, ids) && ids <= more
    ensures AllNamed(path, vis, more)
    decreases |path|
  {
    if path != [] {
      AllNamedMore(path[..|path| - 1], vis, ids, more);
    }
  }

  /** Nodes all named by tag `hit` extend a named path. */
  lemma {:induction false} AllNamedAppend(path: seq<ObjPtr>, r: seq<ObjPtr>, vis: seq<Tag>, ids: set<nat>, hit: nat)
    requires AllNamed(path, vis, ids) && hit in ids && hit < |vis|
    requires forall k :: 0 <= k < |r| ==> r[k].obj.name == vis[hit].key || r[k].obj.name == vis[hit].value
    ensures AllNamed(path + r, vis, ids)
    decreases |r|
  {
    if r == [] {
      assert path + r == path;
    } else {
      var init := r[..|r| - 1];
      AllNamedAppend(path, init, vis, ids, hit);
      assert (path + r)[..|path + r| - 1] == path + init;
      assert (path + r)[|path + r| - 1] == r[|r| - 1];
    }
  }

  lemma UsesTagsExtend(path: seq<ObjPtr>, r: seq<ObjPtr>, vis: seq<Tag>, ids: set<nat>, hit: nat)
    requires UsesTags(path, vis, ids) && path != [] && hit < |vis|
    requires forall k :: 0 <= k < |r| ==> r[k].obj.name == vis[hit].key || r[k].obj.name == vis[hit].value
    ensures UsesTags(path + r, vis, ids + {hit})
  {
    AllNamedMore(path, vis, ids, ids + {hit});
    AllNamedAppend(path, r, vis, ids + {hit}, hit);
    assert (path + r)[0] == path[0];
  }

  /** Claiming a further id below `n` leaves fewer unclaimed ids below `n`. */
  lemma IdRangeShrinks(n: nat, skip0: set<nat>, skip: set<nat>)
    requires skip0 <= skip && skip != skip0 && forall j :: j in skip ==> j < n
    ensures IdRange(n) - skip < IdRange(n) - skip0
  {
    var x :| x in skip && x !in skip0;
    assert x in IdRange(n) - skip0;
  }

  /** A set of ids outside every earlier set keeps the sets pairwise disjoint. */
  lemma NewPathDisjoint(pathIds: seq<set<nat>>, used: set<nat>, ids: set<nat>)
    requires Disjoint(pathIds) && ids !! used
    requires forall i :: 0 <= i < |pathIds| ==> pathIds[i] <= used
    ensures Disjoint(pathIds + [ids])
  {
  }

  /** Pairwise disjoint non-empty sets of ids below `n` number at most `n`. */
  lemma {:induction false} DisjointCount(pathIds: seq<set<nat>>, n: nat)
    requires Disjoint(pathIds)
    requires forall i :: 0 <= i < |pathIds| ==> pathIds[i] != {} && forall j :: j in pathIds[i] ==> j < n
    ensures |pathIds| <= n
  {
    var u := UnionOf(pathIds);
    UnionOfSize(pathIds);
    assert u <= IdRange(n);
    IdRangeSize(n);
    SubsetSize(u, IdRange(n));
  }

  function UnionOf(sets: seq<set<nat>>): (u: set<nat>)
    ensures forall i :: 0 <= i < |sets| ==> sets[i] <= u
    ensures forall j :: j in u ==> exists i :: 0 <= i < |sets| && j in sets[i]
    decreases |sets|
  {
    if sets == [] then {} else UnionOf(sets[..|sets| - 1]) + sets[|sets| - 1]
  }

  /** The union of pairwise disjoint non-empty sets has at least one member per set. */
  lemma {:induction false} UnionOfSize(sets: seq<set<nat>>)
    requires Disjoint(sets)
    requires forall i :: 0 <= i < |sets| ==> sets[i] != {}
    ensures |UnionOf(sets)| >= |sets|
    decreases |sets|
  {
    if sets != [] {
      var init := sets[..|sets| - 1];
      var last := sets[|sets| - 1];
      assert Disjoint(init);
      UnionOfSize(init);
      var u := UnionOf(init);
      assert u !! last;
      var x :| x in last;
      SubsetSize(u, u + last);
      assert x in u + last && x !in u;
    }
  }

  /** The codes of the drawable paths, in order: what `MatchTypes` adds. */
  function DrawableCodes(paths: seq<seq<ObjPtr>>, isDrawable: TypeCode -> bool): (r: seq<TypeCode>)
    decreases |paths|
  {
    if paths == [] then []
    else
      var rest := DrawableCodes(paths[..|paths| - 1], isDrawable);
      var t := CodeOf(paths[|paths| - 1]);
      if isDrawable(t) then rest + [t] else rest
  }

  /** `MatchTypes` adds at most one code per round, and only drawable ones. */
  lemma {:induction false} DrawableCodesBound(paths: seq<seq<ObjPtr>>, isDrawable: TypeCode -> bool)
    ensures |DrawableCodes(paths, isDrawable)| <= |paths|
    ensures forall t :: t in DrawableCodes(paths, isDrawable) ==> isDrawable(t)
    decreases |paths|
  {
    if paths != [] {
      DrawableCodesBound(paths[..|paths| - 1], isDrawable);
    }
  }

  /** One more round adds its code exactly when the code is drawable. */
  lemma DrawableCodesSnoc(paths: seq<seq<ObjPtr>>, path: seq<ObjPtr>, isDrawable: TypeCode -> bool)
    ensures DrawableCodes(paths + [path], isDrawable) ==
      DrawableCodes(paths, isDrawable) + (if isDrawable(CodeOf(path)) then [CodeOf(path)] else [])
  {
    assert (paths + [path])[..|paths|] == paths;
  }

  /** The types after one more round are the earlier ones plus the new code, when drawable. */
  lemma TypesStep(types0: seq<TypeCode>, before: seq<TypeCode>, after: seq<TypeCode>,
                  paths: seq<seq<ObjPtr>>, path: seq<ObjPtr>, t: TypeCode, isDrawable: TypeCode -> bool)
    requires before == types0 + DrawableCodes(paths, isDrawable) && t == CodeOf(path)
    requires after == before + (if isDrawable(t) then [t] else [])
    ensures after == types0 + DrawableCodes(paths + [path], isDrawable)
  {
    DrawableCodesSnoc(paths, path, isDrawable);
  }

  /** Every added code names a node of the classificator below the root, at depth one or more. */
  lemma {:induction false} DrawableCodesValid(root: ClassifObject, paths: seq<seq<ObjPtr>>, isDrawable: TypeCode -> bool)
    requires forall i :: 0 <= i < |paths| ==> paths[i] != [] && IsChain(root, paths[i])
    ensures forall t :: t in DrawableCodes(paths, isDrawable) ==> t != [] && ValidCode(root, t)
    decreases |paths|
  {
    if paths != [] {
      var last := paths[|paths| - 1];
      DrawableCodesValid(root, paths[..|paths| - 1], isDrawable);
      ChainCodeValid(root, last);
    }
  }

  /** Nodes found below the path's end by one tag extend the path, with that tag among its ids. */
  lemma PathStep(root: ClassifObject, vis: seq<Tag>, path: seq<ObjPtr>, ids: set<nat>, r: seq<ObjPtr>, hit: nat)
    requires path != [] && IsChain(root, path) && UsesTags(path, vis, ids)
    requires hit < |vis| && IsChain(path[|path| - 1].obj, r)
    requires forall k :: 0 <= k < |r| ==> r[k].obj.name == vis[hit].key || r[k].obj.name == vis[hit].value
    ensures IsChain(root, path + r) && UsesTags(path + r, vis, ids + {hit})
  {
    UsesTagsExtend(path, r, vis, ids, hit);
    ChainAppend(root, path, r);
  }

  /** A callback of `MatchTypes` at node `cur`, as a function of the tag. */
  function ProbeAt(p: Probe, cur: ClassifObject): Tag -> Option<seq<ObjPtr>> {
    t => ProbeTag(p, cur, t)
  }

  /**
   * The walk cannot go on from the last node of `path`: no tag outside
   * `skip` names a child of it, by value or by key.
   */
  ghost predicate Stuck(vis: seq<Tag>, path: seq<ObjPtr>, skip: set<nat>) {
    path != [] && StuckAt(vis, path[|path| - 1].obj, skip)
  }

  ghost predicate StuckAt(vis: seq<Tag>, cur: ClassifObject, skip: set<nat>) {
    forall j: nat :: j < |vis| ==> Passes(ProbeAt(ByValue, cur), vis, skip, j) && Passes(ProbeAt(ByKey, cur), vis, skip, j)
  }

  /** Both callbacks failed on every tag, each against a smaller skip set: the walk is stuck. */
  lemma StuckAfterBoth(vis: seq<Tag>, cur: ClassifObject, skipV: set<nat>, skipK: set<nat>, skip: set<nat>)
    requires skipV <= skipK <= skip
    requires forall j: nat :: j < |vis| ==> Passes(ProbeAt(ByValue, cur), vis, skipV, j)
    requires forall j: nat :: j < |vis| ==> Passes(ProbeAt(ByKey, cur), vis, skipK, j)
    ensures StuckAt(vis, cur, skip)
  {
    forall j: nat | j < |vis|
      ensures Passes(ProbeAt(ByValue, cur), vis, skip, j) && Passes(ProbeAt(ByKey, cur), vis, skip, j)
    {
      assert Passes(ProbeAt(ByValue, cur), vis, skipV, j);
      assert Passes(ProbeAt(ByKey, cur), vis, skipK, j);
    }
  }

  /**
   * The inner loop of `MatchTypes` as a function: from the last node of
   * `path`, the child named by the value of the first available tag that
   * has one; failing that, the child named by the key of the first
   * available tag that has one (and that child's child named by the value,
   * when the value may be matched); and so on until neither search finds a
   * tag. The result is the final path and the skip set the loop leaves.
   */
  function Descend(vis: seq<Tag>, path: seq<ObjPtr>, skip: set<nat>): (r: (seq<ObjPtr>, set<nat>))
    requires path != []
    ensures path <= r.0 && skip <= r.1
    ensures forall j :: j in r.1 && j !in skip ==> j < |vis|
    decreases IdRange(|vis|) - skip
  {
    var cur := path[|path| - 1].obj;
    var byValue := FirstHitFrom(ProbeAt(ByValue, cur), vis, skip, 0);
    var skip1 := SkipAfter(vis, skip, byValue);
    SkipAfterMeaning(vis, skip, byValue);
    if byValue.Some? then
      assert byValue.value in IdRange(|vis|) - skip;
      Descend(vis, path + ProbeTag(ByValue, cur, vis[byValue.value]).value, skip1)
    else
      var byKey := FirstHitFrom(ProbeAt(ByKey, cur), vis, skip1, 0);
      var skip2 := SkipAfter(vis, skip1, byKey);
      SkipAfterMeaning(vis, skip1, byKey);
      if byKey.Some? then
        assert byKey.value in IdRange(|vis|) - skip;
        Descend(vis, path + ProbeTag(ByKey, cur, vis[byKey.value]).value, skip2)
      else (path, skip2)
  }

  /** `Descend` after a value hit goes on from the extended path. */
  lemma DescendByValue(vis: seq<Tag>, path: seq<ObjPtr>, skip: set<nat>, hit: nat)
    requires path != [] && FirstHitFrom(ProbeAt(ByValue, path[|path| - 1].obj), vis, skip, 0) == Some(hit)
    ensures Descend(vis, path, skip) ==
      Descend(vis, path + ProbeTag(ByValue, path[|path| - 1].obj, vis[hit]).value, SkipAfter(vis, skip, Some(hit)))
  {
  }

  /** `Descend` after a key hit, with no value hit, goes on from the extended path. */
  lemma DescendByKey(vis: seq<Tag>, path: seq<ObjPtr>, skip: set<nat>, hit: nat)
    requires path != [] && FirstHitFrom(ProbeAt(ByValue, path[|path| - 1].obj), vis, skip, 0).None?
    requires FirstHitFrom(ProbeAt(ByKey, path[|path| - 1].obj), vis, SkipAfter(vis, skip, None), 0) == Some(hit)
    ensures Descend(vis, path, skip) ==
      Descend(vis, path + ProbeTag(ByKey, path[|path| - 1].obj, vis[hit]).value, SkipAfter(vis, SkipAfter(vis, skip, None), Some(hit)))
  {
  }

  /** `Descend` stops where neither search finds a tag. */
  lemma DescendStops(vis: seq<Tag>, path: seq<ObjPtr>, skip: set<nat>)
    requires path != [] && FirstHitFrom(ProbeAt(ByValue, path[|path| - 1].obj), vis, skip, 0).None?
    requires FirstHitFrom(ProbeAt(ByKey, path[|path| - 1].obj), vis, SkipAfter(vis, skip, None), 0).None?
    ensures Descend(vis, path, skip) == (path, SkipAfter(vis, SkipAfter(vis, skip, None), None))
  {
  }

  /**
   * What `Descend` gives: the path only grows, the skip set only grows, and
   * at the end no available tag names a child of the last node, by value
   * or by key.
   */
  lemma {:induction false} DescendStuck(vis: seq<Tag>, path: seq<ObjPtr>, skip: set<nat>)
    requires path != []
    ensures path <= Descend(vis, path, skip).0 && skip <= Descend(vis, path, skip).1
    ensures Stuck(vis, Descend(vis, path, skip).0, Descend(vis, path, skip).1)
    decreases IdRange(|vis|) - skip
  {
    var cur := path[|path| - 1].obj;
    var byValue := FirstHitFrom(ProbeAt(ByValue, cur), vis, skip, 0);
    var skip1 := SkipAfter(vis, skip, byValue);
    if byValue.Some? {
      var h := byValue.value;
      assert h in IdRange(|vis|) - skip;
      DescendByValue(vis, path, skip, h);
      DescendStuck(vis, path + ProbeTag(ByValue, cur, vis[h]).value, skip1);
    } else {
      var byKey := FirstHitFrom(ProbeAt(ByKey, cur), vis, skip1, 0);
      if byKey.Some? {
        var h := byKey.value;
        assert h in IdRange(|vis|) - skip;
        DescendByKey(vis, path, skip, h);
        DescendStuck(vis, path + ProbeTag(ByKey, cur, vis[h]).value, SkipAfter(vis, skip1, byKey));
      } else {
        DescendStops(vis, path, skip);
        FirstHitFromNone(ProbeAt(ByValue, cur), vis, skip, 0);
        FirstHitFromNone(ProbeAt(ByKey, cur), vis, skip1, 0);
        StuckAfterBoth(vis, cur, skip, skip1, SkipAfter(vis, skip1, None));
      }
    }
  }

  /**
   * One `ForEachTagEx` call of the inner loop, with the value lambda or
   * with `matchTagToClassificator`, from the last node of the path: the
   * nodes the first accepting tag names are appended.
   */
  method ProbeStep(e: OsmElement, root: ClassifObject, p: Probe, path: seq<ObjPtr>, skip: set<nat>, ghost ids: set<nat>)
    returns (found: bool, path': seq<ObjPtr>, skip': set<nat>, ghost ids': set<nat>, ghost hit: nat)
    requires path != [] && IsChain(root, path) && UsesTags(path, Visible(e.tags), ids)
    ensures var first := FirstHitFrom(ProbeAt(p, path[|path| - 1].obj), Visible(e.tags), skip, 0);
      && found == first.Some? && skip' == SkipAfter(Visible(e.tags), skip, first)
      && (found ==> hit == first.value && path' == path + ProbeTag(p, path[|path| - 1].obj, Visible(e.tags)[hit]).value)
    ensures !found ==> path' == path && ids' == ids
    ensures var toDo := ProbeAt(p, path[|path| - 1].obj);
      !found ==> forall j: nat :: j < |Visible(e.tags)| ==> Passes(toDo, Visible(e.tags), skip, j)
    ensures path <= path' && IsChain(root, path') && UsesTags(path', Visible(e.tags), ids')
    ensures skip <= skip' && forall j :: j in skip' && j !in skip ==> j < |Visible(e.tags)|
    ensures ids <= ids' && forall j :: j in ids' && j !in ids ==> j in skip' && j !in skip
    ensures forall j :: j in skip' && j !in skip ==> j in ids' || IsNameKey(Visible(e.tags)[j].key)
    ensures found ==> IdRange(|Visible(e.tags)|) - skip' < IdRange(|Visible(e.tags)|) - skip
  {
    ghost var vis := Visible(e.tags);
    var current := path[|path| - 1].obj;
    var next;
    next, skip', hit := ForEachTagEx(e, skip, ProbeAt(p, current));
    if next.None? {
      return false, path, skip', ids, hit;
    }
    PathStep(root, vis, path, ids, next.value, hit);
    assert hit in IdRange(|vis|) - skip;
    return true, path + next.value, skip', ids + {hit}, hit;
  }

  /**
   * One pass of the inner `do ... while (true)` of `MatchTypes`: a child of
   * the last node named by a tag's value, or failing that by a tag's key.
   * `done` when neither is found, which is where `Descend` stops.
   */
  method DescendStep(e: OsmElement, root: ClassifObject, path: seq<ObjPtr>, skip: set<nat>, ghost ids: set<nat>)
    returns (done: bool, path': seq<ObjPtr>, skip': set<nat>, ghost ids': set<nat>)
    requires path != [] && IsChain(root, path) && UsesTags(path, Visible(e.tags), ids)
    ensures path <= path' && IsChain(root, path') && UsesTags(path', Visible(e.tags), ids')
    ensures skip <= skip' && forall j :: j in skip' && j !in skip ==> j < |Visible(e.tags)|
    ensures ids <= ids' && forall j :: j in ids' && j !in ids ==> j in skip' && j !in skip
    ensures forall j :: j in skip' && j !in skip ==> j in ids' || IsNameKey(Visible(e.tags)[j].key)
    ensures done ==> path' == path && ids' == ids && Stuck(Visible(e.tags), path, skip') && Descend(Visible(e.tags), path, skip) == (path, skip')
    ensures !done ==> IdRange(|Visible(e.tags)|) - skip' < IdRange(|Visible(e.tags)|) - skip
    ensures !done ==> Descend(Visible(e.tags), path', skip') == Descend(Visible(e.tags), path, skip)
  {
    ghost var vis := Visible(e.tags);
    var found, skip1; ghost var ids1, hit1;
    found, path', skip1, ids1, hit1 := ProbeStep(e, root, ByValue, path, skip, ids);
    if found {
      DescendByValue(vis, path, skip, hit1);
      return false, path', skip1, ids1;
    }
    ghost var hit2;
    found, path', skip', ids', hit2 := ProbeStep(e, root, ByKey, path, skip1, ids);
    if found {
      DescendByKey(vis, path, skip, hit2);
      return false, path', skip', ids';
    }
    DescendStops(vis, path, skip);
    StuckAfterBoth(vis, path[|path| - 1].obj, skip, skip1, skip');
    done := true;
  }

  /**
   * The inner `do ... while (true)` of `MatchTypes`: from the last node of
   * the path, a child named by a tag's value, or failing that one named by
   * a tag's key, until neither is found. `ids` grows by the tags that served.
   */
  method ExtendPath(e: OsmElement, root: ClassifObject, path0: seq<ObjPtr>, skip0: set<nat>, ghost ids0: set<nat>)
    returns (path: seq<ObjPtr>, skip: set<nat>, ghost ids: set<nat>)
    requires path0 != [] && IsChain(root, path0) && UsesTags(path0, Visible(e.tags), ids0)
    ensures path0 <= path && IsChain(root, path) && UsesTags(path, Visible(e.tags), ids)
    ensures skip0 <= skip && forall j :: j in skip && j !in skip0 ==> j < |Visible(e.tags)|
    ensures ids0 <= ids && forall j :: j in ids && j !in ids0 ==> j in skip && j !in skip0
    ensures forall j :: j in skip && j !in skip0 ==> j in ids || IsNameKey(Visible(e.tags)[j].key)
    ensures Stuck(Visible(e.tags), path, skip)
    ensures (path, skip) == Descend(Visible(e.tags), path0, skip0)
  {
    ghost var vis := Visible(e.tags);
    ghost var n := |vis|;
    path, skip, ids := path0, skip0, ids0;
    while true
      invariant skip0 <= skip && forall j :: j in skip && j !in skip0 ==> j < n
      invariant ids0 <= ids && forall j :: j in ids && j !in ids0 ==> j in skip && j !in skip0
      invariant forall j :: j in skip && j !in skip0 ==> j in ids || IsNameKey(vis[j].key)
      invariant path0 <= path && IsChain(root, path) && UsesTags(path, vis, ids)
      invariant Descend(vis, path, skip) == Descend(vis, path0, skip0)
      decreases IdRange(n) - skip
    {
      var done, path', skip', ids' := DescendStep(e, root, path, skip, ids);
      if done {
        skip := skip';
        break;
      }
      path, skip, ids := path', skip', ids';
    }
  }

  /** The type-assigning loop: the code of a path, one level per node. */
  method TypeOfPath(path: seq<ObjPtr>) returns (t: TypeCode)
    ensures t == CodeOf(path)
  {
    t := EmptyValue();
    var k := 0;
    while k < |path|
      invariant 0 <= k <= |path| && t == CodeOf(path[..k])
    {
      assert path[..k + 1][..k] == path[..k];
      t := PushValue(t, path[k].index);
      k := k + 1;
    }
    assert path[..k] == path;
  }

  /** A path the engine may report: a non-empty chain from the root, named by the tags in `ids`. */
  ghost predicate TypePath(root: ClassifObject, vis: seq<Tag>, path: seq<ObjPtr>, ids: set<nat>) {
    path != [] && IsChain(root, path) && UsesTags(path, vis, ids)
  }

  /**
   * What one outer round of `MatchTypes` does, seen from outside: it starts
   * with the root child (and grandchild) that the first available tag's key
   * (and value) names, then the path and the skip set are what `Descend`
   * makes of them, which ends where no available tag leads further down.
   * `before` and `after` are the skip sets around the round.
   */
  ghost predicate WalkRound(root: ClassifObject, vis: seq<Tag>, path: seq<ObjPtr>,
                            before: set<nat>, after: set<nat>, hit: nat) {
    && FirstHit(ProbeAt(ByKey, root), vis, before, hit)
    && (path, after) == Descend(vis, ProbeTag(ByKey, root, vis[hit]).value, SkipAfter(vis, before, Some(hit)))
  }

  /**
   * A round's path begins with what the first tag names at the root, it
   * marks that tag, and it ends where no available tag leads further down.
   */
  lemma WalkRoundFacts(root: ClassifObject, vis: seq<Tag>, path: seq<ObjPtr>, before: set<nat>, after: set<nat>, hit: nat)
    requires WalkRound(root, vis, path, before, after, hit)
    ensures ProbeTag(ByKey, root, vis[hit]).value <= path
    ensures before <= after && hit in after
    ensures Stuck(vis, path, after)
  {
    DescendStuck(vis, ProbeTag(ByKey, root, vis[hit]).value, SkipAfter(vis, before, Some(hit)));
  }

  /**
   * One round of the outer loop of `MatchTypes`: a root child named by a
   * tag's key, then as far down as the remaining tags lead. `None` when no
   * remaining tag's key names a root child.
   */
  method MatchPath(e: OsmElement, root: ClassifObject, skip0: set<nat>)
    returns (path: Option<seq<ObjPtr>>, skip: set<nat>, ghost ids: set<nat>, ghost hit: nat)
    ensures skip0 <= skip && forall j :: j in skip && j !in skip0 ==> j < |Visible(e.tags)|
    ensures path.None? ==> forall j: nat :: j < |Visible(e.tags)| ==> Passes(ProbeAt(ByKey, root), Visible(e.tags), skip0, j)
    ensures path.Some? ==>
      && TypePath(root, Visible(e.tags), path.value, ids)
      && ids !! skip0 && ids <= skip && skip != skip0
    ensures path.Some? ==> WalkRound(root, Visible(e.tags), path.value, skip0, skip, hit)
    ensures path.Some? ==> forall j :: j in skip && j !in skip0 ==> j in ids || IsNameKey(Visible(e.tags)[j].key)
    ensures path.None? ==> skip == skip0 + NameIdsBelow(Visible(e.tags), |Visible(e.tags)|)
  {
    ghost var vis := Visible(e.tags);
    var first, skip1;
    first, skip1, hit := ForEachTagEx(e, skip0, ProbeAt(ByKey, root));
    skip := skip1;
    if first.None? {
      return None, skip, {}, 0;
    }
    var p := first.value;
    assert p != [];
    UsesTagsStart(p, vis, hit);
    p, skip, ids := ExtendPath(e, root, p, skip, {hit});
    path := Some(p);
  }

  /** Each path of the list is a type path, named by the matching set of ids. */
  ghost predicate AllTypePaths(root: ClassifObject, vis: seq<Tag>, paths: seq<seq<ObjPtr>>, pathIds: seq<set<nat>>)
    decreases |paths|
  {
    && |paths| == |pathIds|
    && (paths != [] ==>
      && AllTypePaths(root, vis, paths[..|paths| - 1], pathIds[..|pathIds| - 1])
      && TypePath(root, vis, paths[|paths| - 1], pathIds[|pathIds| - 1]))
  }

  lemma {:induction false} AllTypePathsEach(root: ClassifObject, vis: seq<Tag>, paths: seq<seq<ObjPtr>>, pathIds: seq<set<nat>>)
    requires AllTypePaths(root, vis, paths, pathIds)
    ensures |paths| == |pathIds| && forall i :: 0 <= i < |paths| ==> TypePath(root, vis, paths[i], pathIds[i])
    decreases |paths|
  {
    if paths != [] {
      AllTypePathsEach(root, vis, paths[..|paths| - 1], pathIds[..|pathIds| - 1]);
    }
  }

  /** The bookkeeping of one outer round: the new path joins the earlier ones, all within `skip`. */
  lemma RoundAppend(root: ClassifObject, vis: seq<Tag>, paths: seq<seq<ObjPtr>>, pathIds: seq<set<nat>>,
                    skip0: set<nat>, skip: set<nat>, path: seq<ObjPtr>, ids: set<nat>)
    requires AllTypePaths(root, vis, paths, pathIds) && Disjoint(pathIds)
    requires forall i :: 0 <= i < |pathIds| ==> pathIds[i] <= skip0
    requires skip0 <= skip && TypePath(root, vis, path, ids) && ids !! skip0 && ids <= skip
    ensures AllTypePaths(root, vis, paths + [path], pathIds + [ids]) && Disjoint(pathIds + [ids])
    ensures forall i :: 0 <= i < |pathIds + [ids]| ==> (pathIds + [ids])[i] <= skip
  {
    assert (paths + [path])[..|paths|] == paths && (pathIds + [ids])[..|pathIds|] == pathIds;
    NewPathDisjoint(pathIds, skip0, ids);
  }

  lemma PathCount(root: ClassifObject, vis: seq<Tag>, paths: seq<seq<ObjPtr>>, pathIds: seq<set<nat>>)
    requires |paths| == |pathIds| && Disjoint(pathIds)
    requires forall i :: 0 <= i < |paths| ==> TypePath(root, vis, paths[i], pathIds[i])
    ensures |pathIds| <= |vis|
  {
    forall i | 0 <= i < |pathIds|
      ensures pathIds[i] != {} && forall j :: j in pathIds[i] ==> j < |vis|
    {
      assert UsesTags(paths[i], vis, pathIds[i]);
    }
    DisjointCount(pathIds, |vis|);
  }

  /**
   * The rounds of a whole walk: round i starts from skip set `skips[i]`,
   * leaves `skips[i + 1]`, and meets the first available tag `hits[i]`;
   * the walk starts with nothing skipped and ends when no available tag's
   * key names a root child.
   */
  ghost predicate Walk(root: ClassifObject, vis: seq<Tag>, paths: seq<seq<ObjPtr>>, skips: seq<set<nat>>, hits: seq<nat>) {
    && WalkRounds(root, vis, paths, skips, hits) && skips[0] == {}
    && forall j: nat :: j < |vis| ==> Passes(ProbeAt(ByKey, root), vis, skips[|paths|], j)
  }

  /** Round i of the walk went from `skips[i]` to `skips[i + 1]`, meeting `hits[i]` first, for every i. */
  ghost predicate WalkRounds(root: ClassifObject, vis: seq<Tag>, paths: seq<seq<ObjPtr>>, skips: seq<set<nat>>, hits: seq<nat>) {
    && |skips| == |paths| + 1 && |hits| == |paths|
    && forall i :: 0 <= i < |paths| ==> WalkRound(root, vis, paths[i], skips[i], skips[i + 1], hits[i])
  }

  /** One more round keeps the earlier rounds of the walk as they were. */
  lemma WalkAppend(root: ClassifObject, vis: seq<Tag>, paths: seq<seq<ObjPtr>>, skips: seq<set<nat>>, hits: seq<nat>,
                   path: seq<ObjPtr>, skip: set<nat>, hit: nat)
    requires WalkRounds(root, vis, paths, skips, hits)
    requires WalkRound(root, vis, path, skips[|paths|], skip, hit)
    ensures WalkRounds(root, vis, paths + [path], skips + [skip], hits + [hit])
  {
    var ps, ss, hs := paths + [path], skips + [skip], hits + [hit];
    forall i | 0 <= i < |ps|
      ensures WalkRound(root, vis, ps[i], ss[i], ss[i + 1], hs[i])
    {
      if i < |paths| {
        WalkRoundSame(root, vis, paths[i], skips[i], skips[i + 1], hits[i], ps[i], ss[i], ss[i + 1], hs[i]);
      } else {
        WalkRoundSame(root, vis, path, skips[|paths|], skip, hit, ps[i], ss[i], ss[i + 1], hs[i]);
      }
    }
  }

  lemma WalkRoundSame(root: ClassifObject, vis: seq<Tag>, path: seq<ObjPtr>, before: set<nat>, after: set<nat>, hit: nat,
                      path': seq<ObjPtr>, before': set<nat>, after': set<nat>, hit': nat)
    requires WalkRound(root, vis, path, before, after, hit)
    requires path' == path && before' == before && after' == after && hit' == hit
    ensures WalkRound(root, vis, path', before', after', hit')
  {
  }

  /** What `MatchTypes` knows after its rounds so far: the paths, the ids they used and the types added. */
  ghost predicate Progress(root: ClassifObject, vis: seq<Tag>, isDrawable: TypeCode -> bool, types0: seq<TypeCode>,
                           types: seq<TypeCode>, paths: seq<seq<ObjPtr>>, pathIds: seq<set<nat>>,
                           skips: seq<set<nat>>, hits: seq<nat>, skip: set<nat>)
  {
    && (forall j :: j in skip ==> j < |vis|)
    && AllTypePaths(root, vis, paths, pathIds) && (forall i :: 0 <= i < |pathIds| ==> pathIds[i] <= skip)
    && Disjoint(pathIds) && types == types0 + DrawableCodes(paths, isDrawable)
    && WalkRounds(root, vis, paths, skips, hits) && skips[0] == {} && skips[|paths|] == skip
  }

  /** A round that found a path keeps `Progress` and uses up at least one more tag. */
  lemma ProgressStep(root: ClassifObject, vis: seq<Tag>, isDrawable: TypeCode -> bool, types0: seq<TypeCode>,
                     types: seq<TypeCode>, paths: seq<seq<ObjPtr>>, pathIds: seq<set<nat>>,
                     skips: seq<set<nat>>, hits: seq<nat>, skip0: set<nat>,
                     types': seq<TypeCode>, path: seq<ObjPtr>, ids: set<nat>, skip: set<nat>, hit: nat)
    requires Progress(root, vis, isDrawable, types0, types, paths, pathIds, skips, hits, skip0)
    requires skip0 <= skip && forall j :: j in skip && j !in skip0 ==> j < |vis|
    requires TypePath(root, vis, path, ids) && ids !! skip0 && ids <= skip && skip != skip0
    requires WalkRound(root, vis, path, skip0, skip, hit)
    requires types' == types + (if isDrawable(CodeOf(path)) then [CodeOf(path)] else [])
    ensures Progress(root, vis, isDrawable, types0, types', paths + [path], pathIds + [ids], skips + [skip], hits + [hit], skip)
    ensures IdRange(|vis|) - skip < IdRange(|vis|) - skip0
  {
    TypesStep(types0, types, types', paths, path, CodeOf(path), isDrawable);
    RoundAppend(root, vis, paths, pathIds, skip0, skip, path, ids);
    IdRangeShrinks(|vis|, skip0, skip);
    WalkAppend(root, vis, paths, skips, hits, path, skip, hit);
    assert (skips + [skip])[0] == {};
  }

  /** When no round finds a path any more, `Progress` gives everything `MatchTypes` promises. */
  lemma ProgressDone(root: ClassifObject, vis: seq<Tag>, isDrawable: TypeCode -> bool, types0: seq<TypeCode>,
                     types: seq<TypeCode>, paths: seq<seq<ObjPtr>>, pathIds: seq<set<nat>>,
                     skips: seq<set<nat>>, hits: seq<nat>, skip: set<nat>)
    requires Progress(root, vis, isDrawable, types0, types, paths, pathIds, skips, hits, skip)
    requires forall j: nat :: j < |vis| ==> Passes(ProbeAt(ByKey, root), vis, skip, j)
    ensures types == types0 + DrawableCodes(paths, isDrawable)
    ensures Disjoint(pathIds) && forall i :: 0 <= i < |pathIds| ==> pathIds[i] <= skip
    ensures |paths| == |pathIds| <= |vis|
    ensures forall i :: 0 <= i < |paths| ==> TypePath(root, vis, paths[i], pathIds[i])
    ensures Walk(root, vis, paths, skips, hits) && skip == skips[|paths|]
  {
    AllTypePathsEach(root, vis, paths, pathIds);
    PathCount(root, vis, paths, pathIds);
  }

  /** The end of an outer round: the path's type is added when drawable. */
  method RecordPath(params: FeatureParams, isDrawable: TypeCode -> bool, path: seq<ObjPtr>,
                    ghost root: ClassifObject, ghost vis: seq<Tag>, ghost types0: seq<TypeCode>,
                    ghost paths: seq<seq<ObjPtr>>, ghost pathIds: seq<set<nat>>, ghost skips: seq<set<nat>>,
                    ghost hits: seq<nat>, ghost skip0: set<nat>, ghost ids: set<nat>, ghost skip: set<nat>, ghost hit: nat)
    requires Progress(root, vis, isDrawable, types0, params.types, paths, pathIds, skips, hits, skip0)
    requires skip0 <= skip && forall j :: j in skip && j !in skip0 ==> j < |vis|
    requires TypePath(root, vis, path, ids) && ids !! skip0 && ids <= skip && skip != skip0
    requires WalkRound(root, vis, path, skip0, skip, hit)
    modifies params`types
    ensures Progress(root, vis, isDrawable, types0, params.types, paths + [path], pathIds + [ids], skips + [skip], hits + [hit], skip)
    ensures IdRange(|vis|) - skip < IdRange(|vis|) - skip0
  {
    var t := TypeOfPath(path);
    ghost var before := params.types;
    if isDrawable(t) {
      params.AddType(t);
    }
    ProgressStep(root, vis, isDrawable, types0, before, paths, pathIds, skips, hits, skip0,
                 params.types, path, ids, skip, hit);
  }

  /**
   * One round of the outer loop of `MatchTypes`: a path from the root, and
   * its type added when drawable.
   */
  method MatchRound(e: OsmElement, params: FeatureParams, root: ClassifObject, isDrawable: TypeCode -> bool,
                    skip0: set<nat>, ghost types0: seq<TypeCode>, ghost paths: seq<seq<ObjPtr>>,
                    ghost pathIds: seq<set<nat>>, ghost skips: seq<set<nat>>, ghost hits: seq<nat>)
    returns (found: Option<seq<ObjPtr>>, skip: set<nat>, ghost ids: set<nat>, ghost hit: nat)
    requires Progress(root, Visible(e.tags), isDrawable, types0, params.types, paths, pathIds, skips, hits, skip0)
    modifies params`types
    ensures found.None? ==> params.types == old(params.types)
    ensures found.None? ==> forall j: nat :: j < |Visible(e.tags)| ==> Passes(ProbeAt(ByKey, root), Visible(e.tags), skip0, j)
    ensures found.Some? ==>
      && Progress(root, Visible(e.tags), isDrawable, types0, params.types,
                  paths + [found.value], pathIds + [ids], skips + [skip], hits + [hit], skip)
      && IdRange(|Visible(e.tags)|) - skip < IdRange(|Visible(e.tags)|) - skip0
  {
    found, skip, ids, hit := MatchPath(e, root, skip0);
    if found.Some? {
      RecordPath(params, isDrawable, found.value, root, Visible(e.tags), types0, paths, pathIds, skips, hits, skip0, ids, skip, hit);
    }
  }

  /**
   * `MatchTypes`. The ghost results are the path of each outer round, the
   * ids of the tags that served it, and the skip sets and first tags of
   * the rounds.
   */
  method MatchTypes(e: OsmElement, params: FeatureParams, root: ClassifObject, isDrawable: TypeCode -> bool)
    returns (ghost paths: seq<seq<ObjPtr>>, ghost pathIds: seq<set<nat>>, ghost used: set<nat>,
             ghost skips: seq<set<nat>>, ghost hits: seq<nat>)
    modifies params`types
    ensures params.types == old(params.types) + DrawableCodes(paths, isDrawable)
    ensures |paths| == |pathIds| <= |Visible(e.tags)|
    ensures forall i :: 0 <= i < |paths| ==> TypePath(root, Visible(e.tags), paths[i], pathIds[i])
    ensures Disjoint(pathIds) && forall i :: 0 <= i < |pathIds| ==> pathIds[i] <= used
    ensures forall j: nat :: j < |Visible(e.tags)| ==> Passes(ProbeAt(ByKey, root), Visible(e.tags), used, j)
    ensures Walk(root, Visible(e.tags), paths, skips, hits) && used == skips[|paths|]
  {
    ghost var vis := Visible(e.tags);
    ghost var types0 := params.types;
    ghost var tags0 := e.tags;
    var skip: set<nat> := {};
    paths, pathIds := [], [];
    skips, hits := [{}], [];
    while true
      invariant e.tags == tags0
      invariant Progress(root, vis, isDrawable, types0, params.types, paths, pathIds, skips, hits, skip)
      decreases IdRange(|vis|) - skip
    {
      ghost var skip0 := skip;
      var found; ghost var ids, hit;
      found, skip, ids, hit := MatchRound(e, params, root, isDrawable, skip, types0, paths, pathIds, skips, hits);
      if found.None? {
        used := skip0;
        break;
      }
      var path := found.value;
      paths, pathIds := paths + [path], pathIds + [ids];
      skips, hits := skips + [skip], hits + [hit];
    }
    ProgressDone(root, vis, isDrawable, types0, params.types, paths, pathIds, skips, hits, used);
  }
}
