/**
 * The classificator as the engine sees it: an immutable tree searched by
 * exact name among a node's children, and type codes built from the child
 * indices along a path. The tree's construction, its storage and the
 * 32-bit packing of codes are not part of this model: a code is the
 * sequence of per-level indices, `PushValue` appends a level and
 * `TruncValue` keeps the first levels.
 */
module Classif {
  import opened Wrappers

  datatype ClassifObject = ClassifObject(name: string, children: seq<ClassifObject>)

  /** `ClassifObjectPtr`: a node together with its index among its parent's children. */
  datatype ObjPtr = ObjPtr(obj: ClassifObject, index: nat)

  /** The first position at or after `from` whose child is called `s`. */
  function FindFrom(children: seq<ClassifObject>, s: string, from: nat): (r: Option<nat>)
    requires from <= |children|
    ensures r.Some? ==> from <= r.value < |children| && children[r.value].name == s
    ensures r.None? ==> forall i :: from <= i < |children| ==> children[i].name != s
    decreases |children| - from
  {
    if from == |children| then None
    else if children[from].name == s then Some(from)
    else FindFrom(children, s, from + 1)
  }

  /**
   * `ClassifObject::BinaryFind`: the child named `s`, if there is one. The
   * source searches sorted children; an exact-name scan finds the same child
   * whenever names are unique among siblings.
   */
  function BinaryFind(o: ClassifObject, s: string): (r: Option<ObjPtr>)
    ensures r.Some? ==>
      r.value.index < |o.children| && r.value.obj == o.children[r.value.index] && r.value.obj.name == s
    ensures r.None? <==> forall i :: 0 <= i < |o.children| ==> o.children[i].name != s
  {
    match FindFrom(o.children, s, 0)
    case Some(i) => Some(ObjPtr(o.children[i], i))
    case None => None
  }

  /** `path` is a chain of parent-to-child links starting below `from`. */
  predicate IsChain(from: ClassifObject, path: seq<ObjPtr>)
    decreases |path|
  {
    path == [] ||
    (path[0].index < |from.children| && from.children[path[0].index] == path[0].obj
     && IsChain(path[0].obj, path[1..]))
  }

  /** A chain continues from its last node. */
  lemma {:induction false} ChainAppend(from: ClassifObject, p: seq<ObjPtr>, q: seq<ObjPtr>)
    requires IsChain(from, p) && p != []
    requires IsChain(p[|p| - 1].obj, q)
    ensures IsChain(from, p + q)
    decreases |p|
  {
    if |p| == 1 {
      assert (p + q)[1..] == q;
    } else {
      assert (p + q)[1..] == p[1..] + q;
      ChainAppend(p[0].obj, p[1..], q);
    }
  }

  type TypeCode = seq<nat>

  /** `ftype::GetEmptyValue`: the code of the empty path. */
  function EmptyValue(): (t: TypeCode)
    ensures |t| == 0
  {
    []
  }

  /** `ftype::PushValue`: one more level below the current code. */
  function PushValue(t: TypeCode, index: nat): (r: TypeCode)
    ensures |r| == |t| + 1 && r[..|t|] == t && r[|t|] == index
  {
    t + [index]
  }

  /** `ftype::TruncValue`: the code of the first `n` levels (all of it when shorter). */
  function TruncValue(t: TypeCode, n: nat): (r: TypeCode)
    ensures |r| == if n < |t| then n else |t|
    ensures r <= t
  {
    if n < |t| then t[..n] else t
  }

  /** The code of a path: its indices, shallowest level first. */
  function CodeOf(path: seq<ObjPtr>): (t: TypeCode)
    ensures |t| == |path|
    ensures forall i :: 0 <= i < |path| ==> t[i] == path[i].index
    decreases |path|
  {
    if path == [] then EmptyValue()
    else PushValue(CodeOf(path[..|path| - 1]), path[|path| - 1].index)
  }

  /** `t` names a node of the tree below `o`: every level's index exists. */
  predicate ValidCode(o: ClassifObject, t: TypeCode)
    decreases |t|
  {
    t == [] || (t[0] < |o.children| && ValidCode(o.children[t[0]], t[1..]))
  }

  /** The code of a chain is a valid code. */
  lemma {:induction false} ChainCodeValid(o: ClassifObject, path: seq<ObjPtr>)
    requires IsChain(o, path)
    ensures ValidCode(o, CodeOf(path))
    decreases |path|
  {
    if path != [] {
      ChainCodeValid(path[0].obj, path[1..]);
      assert CodeOf(path)[1..] == CodeOf(path[1..]);
    }
  }

  /** Truncating a valid code to any depth gives the valid code of an ancestor. */
  lemma {:induction false} TruncValid(o: ClassifObject, t: TypeCode, n: nat)
    requires ValidCode(o, t)
    ensures ValidCode(o, TruncValue(t, n))
    decreases |t|
  {
    if t != [] && 0 < n < |t| {
      TruncValid(o.children[t[0]], t[1..], n - 1);
      assert TruncValue(t, n)[1..] == TruncValue(t[1..], n - 1);
    }
  }

  /** Two chains from the same node with the same code are the same path. */
  lemma {:induction false} CodeDeterminesChain(o: ClassifObject, p: seq<ObjPtr>, q: seq<ObjPtr>)
    requires IsChain(o, p) && IsChain(o, q)
    requires CodeOf(p) == CodeOf(q)
    ensures p == q
    decreases |p|
  {
    if p != [] {
      assert p[0].index == CodeOf(p)[0] == q[0].index;
      assert CodeOf(p[1..]) == CodeOf(q[1..]) by {
        assert forall i :: 0 <= i < |p| - 1 ==> CodeOf(p[1..])[i] == CodeOf(q[1..])[i];
      }
      CodeDeterminesChain(p[0].obj, p[1..], q[1..]);
    }
  }

  /** Truncation is a prefix operation: later levels never change it. */
  lemma TruncOfPush(t: TypeCode, index: nat, n: nat)
    requires n <= |t|
    ensures TruncValue(PushValue(t, index), n) == TruncValue(t, n)
  {
  }

  /**
   * The codes the engine compares against, built once by `CachedTypes`'s
   * constructor, and the lookup `SetRwSubwayType` makes: `subway(city)` is
   * the code of {"railway","station","subway",city}.
   */
  datatype EType = Entrance | Highway | Address | Oneway | Private | Lit | NoFoot | YesFoot
    | RwStation | RwStationSubway

  datatype CachedTypes = CachedTypes(
    entrance: TypeCode, highway: TypeCode, address: TypeCode,
    oneway: TypeCode, private: TypeCode, lit: TypeCode, nofoot: TypeCode, yesfoot: TypeCode,
    rwStation: TypeCode, rwStationSubway: TypeCode, subway: string -> TypeCode)
  {
    function Get(e: EType): TypeCode {
      match e
      case Entrance => entrance
      case Highway => highway
      case Address => address
      case Oneway => oneway
      case Private => private
      case Lit => lit
      case NoFoot => nofoot
      case YesFoot => yesfoot
      case RwStation => rwStation
      case RwStationSubway => rwStationSubway
    }

    /**
     * The shapes `GetTypeByPath` gives these codes: one level for
     * {"highway"} and {"entrance"}, two for {"railway","station"}, three for
     * {"railway","station","subway"}, which extends the station code, and
     * four for a city's subway station below it. The two-level codes name
     * different nodes.
     */
    ghost predicate WellFormed() {
      |entrance| == 1 && |highway| == 1 && |address| == 2
      && |oneway| == 2 && |private| == 2 && |lit| == 2 && |nofoot| == 2 && |yesfoot| == 2
      && |rwStation| == 2 && |rwStationSubway| == 3 && rwStationSubway[..2] == rwStation
      && rwStation !in [address, oneway, private, lit, nofoot, yesfoot]
      && forall city :: |subway(city)| == 4 && subway(city)[..3] == rwStationSubway
    }

    /** Any type under the highway root. */
    predicate IsHighway(t: TypeCode) {
      TruncValue(t, 1) == Get(Highway)
    }

    /** Exactly the railway-station type. */
    predicate IsRwStation(t: TypeCode) {
      t == Get(RwStation)
    }

    /** The subway-station type or anything below it. */
    predicate IsRwSubway(t: TypeCode) {
      TruncValue(t, 3) == Get(RwStationSubway)
    }
  }

  /** The category tests in the terms of the codes' levels. */
  lemma CategoryTests(c: CachedTypes, t: TypeCode)
    requires c.WellFormed()
    ensures c.IsHighway(t) <==> |t| >= 1 && t[0] == c.highway[0]
    ensures c.IsRwSubway(t) <==> |t| >= 3 && t[..3] == c.rwStationSubway
    ensures c.IsRwSubway(t) ==> !c.IsRwStation(t) && t[..2] == c.rwStation
  {
    if |t| >= 1 && t[0] == c.highway[0] {
      assert TruncValue(t, 1) == [t[0]];
      assert c.highway == [c.highway[0]];
    }
  }
}
