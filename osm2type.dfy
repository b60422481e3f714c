/**
 * `GetNameAndType`: the classification of one element, stage by stage. The
 * stages run in a fixed order: the layer tag, the names, the base table,
 * the classificator walk, the entrance rule, the post-match tables, and
 * the de-duplication of the types.
 */
module Osm2Type {
  import opened Wrappers
  import opened StringUtils
  import opened OsmElements
  import opened Classif
  import opened Features
  import opened Rules
  import opened RuleTables
  import opened Names
  import opened Matching
  import opened TagFilters

  /**
   * What the engine takes from outside: the classificator's root, the
   * drawability test, the name normaliser, the house-number test, the
   * population rank formula and the cached type codes.
   */
  datatype Env = Env(
    root: ClassifObject,
    isDrawable: TypeCode -> bool,
    normalize: string -> string,
    isHouseNumber: string -> bool,
    populationRank: nat -> nat,
    cached: CachedTypes)

  // ---------------------------------------------------------------- layer tag

  predicate HasKey(tags: seq<Tag>, k: string) {
    exists i :: 0 <= i < |tags| && tags[i].key == k
  }

  predicate HasBridgeOrTunnel(tags: seq<Tag>) {
    exists i :: 0 <= i < |tags| && BridgeOrTunnel(tags[i])
  }

  /** The tags after the first stage: the layer scan, and the tag it may add. */
  function WithLayer(tags: seq<Tag>): seq<Tag> {
    var s := RunRules(tags, PreRules(), PreEffect, NoLayerSeen).1;
    if !s.hasLayer && s.layer.Some? then tags + [Tag("layer", s.layer.value)] else tags
  }

  /**
   * A layer tag is added exactly when the element has a bridge=yes or
   * tunnel=yes tag and no layer tag; the last such tag decides its value,
   * "1" for a bridge and "-1" for a tunnel. Nothing else changes.
   */
  lemma WithLayerMeaning(tags: seq<Tag>)
    ensures var r := WithLayer(tags);
      && tags <= r
      && |r| == |tags| + (if !HasKey(tags, "layer") && HasBridgeOrTunnel(tags) then 1 else 0)
      && (|r| > |tags| ==> exists i: nat :: LastBridgeOrTunnel(tags, i) && r[|tags|] == Tag("layer", LayerFor(tags[i])))
  {
    PreScan(tags);
  }

  /** The first rule table and the tag it may call for. */
  method AddLayerTag(e: OsmElement)
    modifies e
    ensures e.tags == WithLayer(old(e.tags))
  {
    ghost var tags0 := e.tags;
    var scan := ApplyRules(e, PreRules(), PreEffect, NoLayerSeen);
    PreScan(tags0);
    if !scan.hasLayer && scan.layer.Some? {
      e.AddTag("layer", scan.layer.value);
    }
  }

  // ---------------------------------------------------------------- base table

  /** The base table, run with the output record as its state. */
  method ApplyBaseRules(e: OsmElement, params: FeatureParams, env: Env)
    modifies e, params
    ensures (e.tags, params.View()) ==
      RunRules(old(e.tags), BaseRules(), BaseEff(env.isHouseNumber, env.populationRank), old(params.View()))
  {
    var s := params.View();
    s := ApplyRules(e, BaseRules(), BaseEff(env.isHouseNumber, env.populationRank), s);
    params.Load(s);
  }

  // ---------------------------------------------------------------- entrance

  /**
   * The entrance rule on a record: with a house number, the entrance type
   * goes; if that leaves no type, the names go and the address type comes.
   */
  function EntranceFixed(a: Attrs, ct: CachedTypes): (r: Attrs)
    ensures a.house == "" ==> r == a
    ensures a.house != "" ==> r.types != [] && (ct.entrance in r.types ==> ct.entrance == ct.address)
    ensures a.house != "" && ct.WellFormed() ==> ct.entrance !in r.types
    ensures a.house != "" && (forall t :: t in a.types ==> t == ct.entrance) ==>
      r.types == [ct.address] && r.name == map[]
    ensures a.house != "" && (exists t :: t in a.types && t != ct.entrance) ==>
      r.types == RemoveAll(a.types, ct.entrance) && r.name == a.name
    ensures forall t :: t in r.types ==> t in a.types || t == ct.address
    ensures r.(types := a.types, name := a.name) == a
  {
    if a.house == "" then a
    else
      var types := RemoveAll(a.types, ct.entrance);
      if types == [] then a.(types := [ct.address], name := map[])
      else
        assert types[0] in types;
        a.(types := types)
  }

  method FixEntrance(params: FeatureParams, ct: CachedTypes)
    modifies params`types, params`name
    ensures params.View() == EntranceFixed(old(params.View()), ct)
  {
    if params.house != "" {
      var empty := params.PopExactType(ct.entrance);
      if empty {
        params.ClearName();
        params.AddType(ct.address);
      }
    }
  }

  // ---------------------------------------------------------------- post-match rounds

  /** The three post-match tables, each run at most once. */
  datatype Round = HighwayRound | SubwayRound | RailwayRound

  /** The flags `highwayDone`, `subwayDone` and `railwayDone`. */
  datatype Gates = Gates(highwayDone: bool, subwayDone: bool, railwayDone: bool)

  const Closed: Gates := Gates(false, false, false)

  /** The three tests of one loop step, each opening its round when its flag is down. */
  function HighwayStep(rs: seq<Round>, g: Gates, t: TypeCode, ct: CachedTypes): (seq<Round>, Gates) {
    if !g.highwayDone && ct.IsHighway(t) then (rs + [HighwayRound], g.(highwayDone := true)) else (rs, g)
  }

  function SubwayStep(rs: seq<Round>, g: Gates, t: TypeCode, ct: CachedTypes): (seq<Round>, Gates) {
    if !g.subwayDone && ct.IsRwSubway(t) then (rs + [SubwayRound], g.(subwayDone := true)) else (rs, g)
  }

  function RailwayStep(rs: seq<Round>, g: Gates, t: TypeCode, ct: CachedTypes): (seq<Round>, Gates) {
    if !g.subwayDone && !g.railwayDone && ct.IsRwStation(t) then (rs + [RailwayRound], g.(railwayDone := true))
    else (rs, g)
  }

  /** The rounds the loop over the frozen types runs, in order, and the final flags. */
  function Rounds(vTypes: seq<TypeCode>, ct: CachedTypes): (seq<Round>, Gates)
    decreases |vTypes|
  {
    if vTypes == [] then ([], Closed)
    else
      var t := vTypes[|vTypes| - 1];
      var before := Rounds(vTypes[..|vTypes| - 1], ct);
      var afterHighway := HighwayStep(before.0, before.1, t, ct);
      var afterSubway := SubwayStep(afterHighway.0, afterHighway.1, t, ct);
      RailwayStep(afterSubway.0, afterSubway.1, t, ct)
  }

  /** The loop's step i, on the prefix the loop has seen. */
  lemma RoundsNext(vTypes: seq<TypeCode>, i: nat, ct: CachedTypes)
    requires i < |vTypes|
    ensures var before := Rounds(vTypes[..i], ct);
      var afterHighway := HighwayStep(before.0, before.1, vTypes[i], ct);
      var afterSubway := SubwayStep(afterHighway.0, afterHighway.1, vTypes[i], ct);
      Rounds(vTypes[..i + 1], ct) == RailwayStep(afterSubway.0, afterSubway.1, vTypes[i], ct)
  {
    assert vTypes[..i + 1][..i] == vTypes[..i];
  }

  /** The railway round's condition: a station type with no subway type at or before it. */
  predicate StationBeforeSubway(vTypes: seq<TypeCode>, ct: CachedTypes) {
    exists i :: 0 <= i < |vTypes| && ct.IsRwStation(vTypes[i]) &&
      forall j :: 0 <= j <= i ==> !ct.IsRwSubway(vTypes[j])
  }

  predicate AnyHighway(vTypes: seq<TypeCode>, ct: CachedTypes) {
    exists i :: 0 <= i < |vTypes| && ct.IsHighway(vTypes[i])
  }

  predicate AnySubway(vTypes: seq<TypeCode>, ct: CachedTypes) {
    exists i :: 0 <= i < |vTypes| && ct.IsRwSubway(vTypes[i])
  }

  /** One loop step's flags, named by what they say about the types seen so far. */
  lemma GatesStep(vTypes: seq<TypeCode>, ct: CachedTypes)
    requires vTypes != []
    ensures var p, t := vTypes[..|vTypes| - 1], vTypes[|vTypes| - 1];
      var g, g' := Rounds(p, ct).1, Rounds(vTypes, ct).1;
      && (g'.highwayDone <==> g.highwayDone || ct.IsHighway(t))
      && (g'.subwayDone <==> g.subwayDone || ct.IsRwSubway(t))
      && (g'.railwayDone <==> g.railwayDone || (!g.subwayDone && !ct.IsRwSubway(t) && ct.IsRwStation(t)))
  {
    var p, t := vTypes[..|vTypes| - 1], vTypes[|vTypes| - 1];
    var before := Rounds(p, ct);
    var afterHighway := HighwayStep(before.0, before.1, t, ct);
    var afterSubway := SubwayStep(afterHighway.0, afterHighway.1, t, ct);
    assert afterHighway.1.(highwayDone := before.1.highwayDone) == before.1;
    assert afterSubway.1.(subwayDone := before.1.subwayDone) == before.1.(highwayDone := afterHighway.1.highwayDone);
  }

  /** One loop step's rounds: those of the steps before, then the new ones. */
  lemma RoundsListStep(vTypes: seq<TypeCode>, ct: CachedTypes)
    requires vTypes != []
    ensures var p, t := vTypes[..|vTypes| - 1], vTypes[|vTypes| - 1];
      Rounds(vTypes, ct).0 == Rounds(p, ct).0 + NewRounds(Rounds(p, ct).1, t, ct)
  {
    var p, t := vTypes[..|vTypes| - 1], vTypes[|vTypes| - 1];
    var before := Rounds(p, ct);
    var g := before.1;
    var afterHighway := HighwayStep(before.0, g, t, ct);
    var afterSubway := SubwayStep(afterHighway.0, afterHighway.1, t, ct);
    var a := if !g.highwayDone && ct.IsHighway(t) then [HighwayRound] else [];
    var b := if !g.subwayDone && ct.IsRwSubway(t) then [SubwayRound] else [];
    var c := if !g.railwayDone && !g.subwayDone && !ct.IsRwSubway(t) && ct.IsRwStation(t) then [RailwayRound] else [];
    assert afterHighway.0 == before.0 + a;
    assert afterHighway.1.subwayDone == g.subwayDone && afterHighway.1.railwayDone == g.railwayDone;
    assert afterSubway.0 == afterHighway.0 + b;
    assert afterSubway.1.subwayDone == (g.subwayDone || ct.IsRwSubway(t));
    assert afterSubway.1.railwayDone == g.railwayDone;
    assert Rounds(vTypes, ct).0 == afterSubway.0 + c;
    assert NewRounds(g, t, ct) == a + b + c;
    assert before.0 + a + b + c == before.0 + (a + b + c);
  }

  /** The rounds one loop step adds, given the flags before it. */
  function NewRounds(g: Gates, t: TypeCode, ct: CachedTypes): seq<Round> {
    (if !g.highwayDone && ct.IsHighway(t) then [HighwayRound] else []) +
    (if !g.subwayDone && ct.IsRwSubway(t) then [SubwayRound] else []) +
    (if !g.railwayDone && !g.subwayDone && !ct.IsRwSubway(t) && ct.IsRwStation(t) then [RailwayRound] else [])
  }

  /** A step adds each round at most once, only with its flag down, and never a railway round after a subway one. */
  lemma NewRoundsOnce(g: Gates, t: TypeCode, ct: CachedTypes)
    ensures var m := NewRounds(g, t, ct);
      && Distinct(m) && RailwayNotAfterSubway(m)
      && (HighwayRound in m ==> !g.highwayDone)
      && (SubwayRound in m ==> !g.subwayDone)
      && (RailwayRound in m ==> !g.railwayDone && !g.subwayDone)
  {
  }

  /**
   * After the loop, each flag is up exactly when some type of the copy is
   * in its category; the railway flag needs a station type that no subway
   * type precedes or accompanies.
   */
  lemma {:induction false} RoundsFlags(vTypes: seq<TypeCode>, ct: CachedTypes)
    ensures Rounds(vTypes, ct).1 ==
      Gates(AnyHighway(vTypes, ct), AnySubway(vTypes, ct), StationBeforeSubway(vTypes, ct))
    decreases |vTypes|
  {
    if vTypes != [] {
      var p, t := vTypes[..|vTypes| - 1], vTypes[|vTypes| - 1];
      RoundsFlags(p, ct);
      GatesStep(vTypes, ct);
      assert forall i :: 0 <= i < |p| ==> p[i] == vTypes[i];
      assert AnyHighway(vTypes, ct) <==> AnyHighway(p, ct) || ct.IsHighway(t);
      assert AnySubway(vTypes, ct) <==> AnySubway(p, ct) || ct.IsRwSubway(t);
      StationStep(vTypes, ct);
    }
  }

  lemma StationStep(vTypes: seq<TypeCode>, ct: CachedTypes)
    requires vTypes != []
    ensures var p, t := vTypes[..|vTypes| - 1], vTypes[|vTypes| - 1];
      StationBeforeSubway(vTypes, ct) <==>
        StationBeforeSubway(p, ct) || (!AnySubway(p, ct) && !ct.IsRwSubway(t) && ct.IsRwStation(t))
  {
    var p, t := vTypes[..|vTypes| - 1], vTypes[|vTypes| - 1];
    assert forall i :: 0 <= i < |p| ==> p[i] == vTypes[i];
    if StationBeforeSubway(vTypes, ct) {
      var i :| 0 <= i < |vTypes| && ct.IsRwStation(vTypes[i]) && forall j :: 0 <= j <= i ==> !ct.IsRwSubway(vTypes[j]);
      if i < |p| {
        assert StationBeforeSubway(p, ct);
      } else {
        assert !AnySubway(p, ct);
      }
    }
    if !AnySubway(p, ct) && !ct.IsRwSubway(t) && ct.IsRwStation(t) {
      assert forall j :: 0 <= j <= |p| ==> !ct.IsRwSubway(vTypes[j]);
    }
  }

  /** A round has run exactly when its flag is up. */
  lemma {:induction false} RoundsHas(vTypes: seq<TypeCode>, ct: CachedTypes)
    ensures var (rs, g) := Rounds(vTypes, ct);
      && (HighwayRound in rs <==> g.highwayDone)
      && (SubwayRound in rs <==> g.subwayDone)
      && (RailwayRound in rs <==> g.railwayDone)
    decreases |vTypes|
  {
    if vTypes != [] {
      RoundsHas(vTypes[..|vTypes| - 1], ct);
      GatesStep(vTypes, ct);
      RoundsListStep(vTypes, ct);
    }
  }

  predicate Distinct(rs: seq<Round>) {
    forall i, j :: 0 <= i < j < |rs| ==> rs[i] != rs[j]
  }

  /** No railway round comes after a subway round. */
  predicate RailwayNotAfterSubway(rs: seq<Round>) {
    forall i, j :: 0 <= i < |rs| && 0 <= j < |rs| && rs[i] == SubwayRound && rs[j] == RailwayRound ==> j < i
  }

  lemma AppendRounds(a: seq<Round>, b: seq<Round>)
    requires Distinct(a) && Distinct(b) && forall x :: x in b ==> x !in a
    requires RailwayNotAfterSubway(a) && RailwayNotAfterSubway(b)
    requires SubwayRound in a ==> RailwayRound !in b
    ensures Distinct(a + b) && RailwayNotAfterSubway(a + b)
  {
    var ab := a + b;
    assert forall i :: 0 <= i < |a| ==> ab[i] == a[i] && ab[i] in a;
    assert forall i :: |a| <= i < |ab| ==> ab[i] == b[i - |a|] && ab[i] in b;
  }

  /** No table runs twice, and the railway table never runs after the subway table. */
  lemma {:induction false} RoundsOnce(vTypes: seq<TypeCode>, ct: CachedTypes)
    ensures Distinct(Rounds(vTypes, ct).0) && RailwayNotAfterSubway(Rounds(vTypes, ct).0)
    decreases |vTypes|
  {
    if vTypes != [] {
      var p := vTypes[..|vTypes| - 1];
      RoundsOnce(p, ct);
      RoundsHas(p, ct);
      RoundsListStep(vTypes, ct);
      var rs := Rounds(p, ct).0;
      var all := Rounds(vTypes, ct).0;
      var more := all[|rs|..];
      assert all == rs + more;
      NewRoundsOnce(Rounds(p, ct).1, vTypes[|vTypes| - 1], ct);
      AppendRounds(rs, more);
    }
  }

  /** Which rounds run: one per category present, the railway round only without a subway type before it. */
  lemma RoundsRun(vTypes: seq<TypeCode>, ct: CachedTypes)
    ensures var rs := Rounds(vTypes, ct).0;
      && (HighwayRound in rs <==> AnyHighway(vTypes, ct))
      && (SubwayRound in rs <==> AnySubway(vTypes, ct))
      && (RailwayRound in rs <==> StationBeforeSubway(vTypes, ct))
  {
    RoundsFlags(vTypes, ct);
    RoundsHas(vTypes, ct);
  }

  /** The table of a round. */
  function TableOf(r: Round): seq<Rule<PostAction>> {
    match r
    case HighwayRound => HighwayRules()
    case SubwayRound => SubwayRules()
    case RailwayRound => RailwayRules()
  }

  /** The record after the given rounds, each running its table over the same tags. */
  function RunRounds(tags: seq<Tag>, rounds: seq<Round>, ct: CachedTypes, s: Attrs): Attrs
    decreases |rounds|
  {
    if rounds == [] then s
    else RunRules(tags, TableOf(rounds[|rounds| - 1]), PostEff(ct), RunRounds(tags, rounds[..|rounds| - 1], ct, s)).1
  }

  lemma RunRoundsSnoc(tags: seq<Tag>, rounds: seq<Round>, r: Round, ct: CachedTypes, s: Attrs)
    ensures RunRounds(tags, rounds + [r], ct, s) == RunRules(tags, TableOf(r), PostEff(ct), RunRounds(tags, rounds, ct, s)).1
  {
    assert (rounds + [r])[..|rounds|] == rounds;
  }

  /** The kinds of type the highway callbacks add. */
  predicate PostKind(k: EType) {
    k == Oneway || k == Private || k == Lit || k == NoFoot || k == YesFoot
  }

  /** One of the types the highway callbacks add. */
  predicate IsPostType(ct: CachedTypes, t: TypeCode) {
    exists k: EType :: PostKind(k) && ct.Get(k) == t
  }

  /** The highway table adds only the kinds above. */
  lemma HighwayKinds()
    ensures forall i :: 0 <= i < |HighwayRules()| && HighwayRules()[i].action.AddCached? ==>
      PostKind(HighwayRules()[i].action.kind)
  {
  }

  /** The subway and railway tables only call `SetRwSubwayType`, with one of the known cities. */
  lemma CityActions(r: Round)
    requires r != HighwayRound
    ensures forall x :: x in TableOf(r) ==> x.action.SetSubwayCity?
    ensures KnownCities(TableOf(r))
  {
    var table := TableOf(r);
    assert forall i :: 0 <= i < |table| ==> table[i].action.SetSubwayCity?;
    PostTablesKnownCities();
  }

  /** A tag one of the subway table's rules fires on: a known network or operator. */
  predicate IsCityTag(t: Tag) {
    exists i :: 0 <= i < |SubwayRules()| && Fires(SubwayRules()[i], t)
  }

  predicate HasCityTag(tags: seq<Tag>) {
    exists j :: 0 <= j < |tags| && IsCityTag(tags[j])
  }

  /** A rule of the subway or railway table fires only on a city tag. */
  lemma CityTableQuiet(round: Round, r: Rule<PostAction>, t: Tag)
    requires round != HighwayRound && r in TableOf(round) && !IsCityTag(t)
    ensures !Fires(r, t)
  {
    var table := TableOf(round);
    var i :| 0 <= i < |table| && table[i] == r;
    if round == RailwayRound {
      assert r == SubwayRules()[0];
    }
  }

  /**
   * The types a round brings: the highway round only the highway
   * callbacks' kinds, the other rounds only the subway-station types of
   * the known cities.
   */
  lemma TableTypes(tags: seq<Tag>, round: Round, ct: CachedTypes, s: Attrs)
    ensures forall t :: t in RunRules(tags, TableOf(round), PostEff(ct), s).1.types ==>
      || t in s.types
      || (round == HighwayRound && IsPostType(ct, t))
      || (round != HighwayRound && IsCityType(ct, t))
  {
    var table := TableOf(round);
    var P := (x: Attrs) => forall t :: t in x.types ==>
      t in s.types || (round == HighwayRound && IsPostType(ct, t)) || (round != HighwayRound && IsCityType(ct, t));
    forall r, t, x | r in table && Fires(r, t) && P(x) ensures P(PostEff(ct)(r.action, t, x).1) {
      PostStepTypes(round, r, t, ct, x);
    }
    RunRulesInvariant(tags, table, PostEff(ct), s, P);
  }

  /** One callback of a round's table: the types it brings. */
  lemma PostStepTypes(round: Round, r: Rule<PostAction>, t: Tag, ct: CachedTypes, x: Attrs)
    requires r in TableOf(round)
    ensures forall u :: u in PostEffect(ct, r.action, t, x).1.types ==>
      || u in x.types
      || (round == HighwayRound && IsPostType(ct, u))
      || (round != HighwayRound && IsCityType(ct, u))
  {
    var table := TableOf(round);
    var i :| 0 <= i < |table| && table[i] == r;
    if round == HighwayRound {
      HighwayStepTypes(i, t, ct, x);
    } else {
      CityStepTypes(round, i, t, ct, x);
    }
  }

  lemma HighwayStepTypes(i: nat, t: Tag, ct: CachedTypes, x: Attrs)
    requires i < |HighwayRules()|
    ensures forall u :: u in PostEffect(ct, HighwayRules()[i].action, t, x).1.types ==> u in x.types || IsPostType(ct, u)
  {
    var a := HighwayRules()[i].action;
    HighwayKinds();
    HighwayNoCity();
    PostEffectTypes(ct, a, t, x);
    if a.AddCached? {
      assert IsPostType(ct, ct.Get(a.kind));
    } else if a.AddReverseOneway? {
      assert IsPostType(ct, ct.Get(Oneway));
    }
  }

  lemma CityStepTypes(round: Round, i: nat, t: Tag, ct: CachedTypes, x: Attrs)
    requires round != HighwayRound && i < |TableOf(round)|
    ensures forall u :: u in PostEffect(ct, TableOf(round)[i].action, t, x).1.types ==> u in x.types || IsCityType(ct, u)
  {
    var a := TableOf(round)[i].action;
    SubwayKnownCities();
    if round == RailwayRound {
      assert a == SubwayRules()[0].action;
    }
    PostEffectTypes(ct, a, t, x);
    assert a.SetSubwayCity? && a.city in Cities;
    assert IsCityType(ct, ct.subway(a.city));
  }

  /** The types one callback brings: the cached type it adds, or the city's subway-station type. */
  lemma PostEffectTypes(ct: CachedTypes, a: PostAction, t: Tag, x: Attrs)
    ensures forall u :: u in PostEffect(ct, a, t, x).1.types ==>
      || u in x.types
      || (a.AddCached? && u == ct.Get(a.kind))
      || (a.AddReverseOneway? && u == ct.Get(Oneway))
      || (a.SetSubwayCity? && u == ct.subway(a.city))
  {
    if a.SetSubwayCity? {
      SetRwSubwayTypeEach(x.types, ct.rwStation, ct.subway(a.city));
    }
  }

  /**
   * A round keeps every type in its place but for station types turned
   * into a city's subway station, and never clears the reverse flag.
   */
  lemma TableGrows(tags: seq<Tag>, round: Round, ct: CachedTypes, s: Attrs)
    ensures var s' := RunRules(tags, TableOf(round), PostEff(ct), s).1;
      Evolves(ct, s.types, s'.types) && (s.reverseGeometry ==> s'.reverseGeometry)
  {
    PostTablesKnownCities();
    PostRulesFrame(ct, tags, TableOf(round), s);
  }

  /**
   * The highway round only appends types; the other rounds keep the number
   * of types and the reverse flag, and change nothing without a city tag.
   */
  lemma TableFlags(tags: seq<Tag>, round: Round, ct: CachedTypes, s: Attrs)
    ensures var s' := RunRules(tags, TableOf(round), PostEff(ct), s).1;
      && (round == HighwayRound ==> s.types <= s'.types)
      && (round != HighwayRound ==> |s'.types| == |s.types| && s'.reverseGeometry == s.reverseGeometry)
      && (round != HighwayRound && !HasCityTag(tags) ==> s' == s)
  {
    if round == HighwayRound {
      var P := (x: Attrs) => s.types <= x.types;
      forall r, t, x | r in HighwayRules() && Fires(r, t) && P(x) ensures P(PostEff(ct)(r.action, t, x).1) {
        var i :| 0 <= i < |HighwayRules()| && HighwayRules()[i] == r;
        HighwayNoCity();
      }
      RunRulesInvariant(tags, TableOf(round), PostEff(ct), s, P);
    } else {
      CityRoundKeeps(tags, round, ct, s);
      if !HasCityTag(tags) {
        CityRoundQuiet(tags, round, ct, s);
      }
    }
  }

  /** A subway or railway round keeps the number of types and the reverse flag. */
  lemma CityRoundKeeps(tags: seq<Tag>, round: Round, ct: CachedTypes, s: Attrs)
    requires round != HighwayRound
    ensures var s' := RunRules(tags, TableOf(round), PostEff(ct), s).1;
      |s'.types| == |s.types| && s'.reverseGeometry == s.reverseGeometry
  {
    CityActions(round);
    var P := (x: Attrs) => |x.types| == |s.types| && x.reverseGeometry == s.reverseGeometry;
    forall r, t, x | r in TableOf(round) && Fires(r, t) && P(x) ensures P(PostEff(ct)(r.action, t, x).1) {
      CityStepKeeps(r.action, t, ct, x);
    }
    RunRulesInvariant(tags, TableOf(round), PostEff(ct), s, P);
  }

  /** A `SetRwSubwayType` callback keeps the number of types and the reverse flag. */
  lemma CityStepKeeps(a: PostAction, t: Tag, ct: CachedTypes, x: Attrs)
    requires a.SetSubwayCity?
    ensures |PostEffect(ct, a, t, x).1.types| == |x.types|
    ensures PostEffect(ct, a, t, x).1.reverseGeometry == x.reverseGeometry
  {
    SetRwSubwayTypeEach(x.types, ct.rwStation, ct.subway(a.city));
  }

  /** Without a city tag, a subway or railway round changes nothing. */
  lemma CityRoundQuiet(tags: seq<Tag>, round: Round, ct: CachedTypes, s: Attrs)
    requires round != HighwayRound && !HasCityTag(tags)
    ensures RunRules(tags, TableOf(round), PostEff(ct), s).1 == s
  {
    PostEffKeepsTags(ct);
    forall r, j | r in TableOf(round) && 0 <= j < |tags|
      ensures !Fires(r, tags[j])
    {
      CityTableQuiet(round, r, tags[j]);
    }
    RunRulesStable(tags, TableOf(round), PostEff(ct), s, (x: Attrs) => x == s);
  }

  /**
   * The rounds keep every type in its place but for station types turned
   * into a city's subway station; they bring only the highway callbacks'
   * kinds and the cities' subway-station types; they never clear the
   * reverse flag; and they change nothing but the types and that flag.
   */
  lemma {:induction false} RunRoundsFrame(tags: seq<Tag>, rounds: seq<Round>, ct: CachedTypes, s: Attrs)
    ensures var s' := RunRounds(tags, rounds, ct, s);
      && Evolves(ct, s.types, s'.types)
      && (forall t :: t in s'.types ==> t in s.types || IsPostType(ct, t) || IsCityType(ct, t))
      && (s.reverseGeometry ==> s'.reverseGeometry)
      && s'.(types := s.types, reverseGeometry := s.reverseGeometry) == s
    decreases |rounds|
  {
    if rounds != [] {
      var init, round := rounds[..|rounds| - 1], rounds[|rounds| - 1];
      RunRoundsFrame(tags, init, ct, s);
      var s1 := RunRounds(tags, init, ct, s);
      PostTablesKnownCities();
      PostRulesFrame(ct, tags, TableOf(round), s1);
      TableTypes(tags, round, ct, s1);
      EvolvesTrans(ct, s.types, s1.types, RunRounds(tags, rounds, ct, s).types);
    }
  }

  /** The reverse flag is set only by a highway round meeting a oneway=-1 tag. */
  lemma {:induction false} RunRoundsReverseNeeds(tags: seq<Tag>, rounds: seq<Round>, ct: CachedTypes, s: Attrs)
    ensures RunRounds(tags, rounds, ct, s).reverseGeometry ==>
      s.reverseGeometry || (HighwayRound in rounds && Tag("oneway", "-1") in tags)
    decreases |rounds|
  {
    if rounds != [] {
      var init, r := rounds[..|rounds| - 1], rounds[|rounds| - 1];
      RunRoundsReverseNeeds(tags, init, ct, s);
      var s1 := RunRounds(tags, init, ct, s);
      assert forall x :: x in init ==> x in rounds;
      if r == HighwayRound {
        HighwayReverseNeedsMinusOne(ct, tags, s1);
        assert (exists j :: 0 <= j < |tags| && tags[j] == Tag("oneway", "-1")) ==> Tag("oneway", "-1") in tags;
      } else {
        TableFlags(tags, r, ct, s1);
      }
    }
  }

  /**
   * ... and a highway round meeting a oneway=-1 tag always sets it, with
   * the one-way type, which a later round keeps when it is no station type.
   */
  lemma {:induction false} RunRoundsReverseSet(tags: seq<Tag>, rounds: seq<Round>, ct: CachedTypes, s: Attrs)
    requires HighwayRound in rounds && Tag("oneway", "-1") in tags
    ensures var s' := RunRounds(tags, rounds, ct, s);
      s'.reverseGeometry && (ct.WellFormed() ==> ct.oneway in s'.types)
    decreases |rounds|
  {
    var init, r := rounds[..|rounds| - 1], rounds[|rounds| - 1];
    var s1 := RunRounds(tags, init, ct, s);
    if r == HighwayRound {
      var j :| 0 <= j < |tags| && tags[j] == Tag("oneway", "-1");
      HighwayMinusOneSetsReverse(ct, tags, s1, j);
    } else {
      assert rounds == init + [r];
      assert HighwayRound in init;
      RunRoundsReverseSet(tags, init, ct, s);
      TableGrows(tags, r, ct, s1);
      if ct.WellFormed() {
        var k :| 0 <= k < |s1.types| && s1.types[k] == ct.oneway;
        assert TruncValue(ct.oneway, 2) == ct.oneway;
        EvolvesKeeps(ct, s1.types, RunRounds(tags, rounds, ct, s).types, k);
      }
    }
  }

  /**
   * Without a subway or railway round, or without a tag the city tables
   * fire on, the rounds only append the highway callbacks' kinds.
   */
  lemma {:induction false} RunRoundsNoCity(tags: seq<Tag>, rounds: seq<Round>, ct: CachedTypes, s: Attrs)
    requires !HasCityTag(tags) || (SubwayRound !in rounds && RailwayRound !in rounds)
    ensures var s' := RunRounds(tags, rounds, ct, s);
      s.types <= s'.types && forall t :: t in s'.types ==> t in s.types || IsPostType(ct, t)
    decreases |rounds|
  {
    if rounds != [] {
      var init, r := rounds[..|rounds| - 1], rounds[|rounds| - 1];
      assert forall x :: x in init ==> x in rounds;
      RunRoundsNoCity(tags, init, ct, s);
      var s1 := RunRounds(tags, init, ct, s);
      TableFlags(tags, r, ct, s1);
      TableTypes(tags, r, ct, s1);
    }
  }

  /** One of the post-match tables, run over the tags with the record as its state; the tags stay as they are. */
  method RunPostTable(e: OsmElement, ct: CachedTypes, r: Round, s0: Attrs) returns (s: Attrs)
    modifies e
    ensures e.tags == old(e.tags) && s == RunRules(old(e.tags), TableOf(r), PostEff(ct), s0).1
  {
    ghost var tags0 := e.tags;
    s := ApplyRules(e, TableOf(r), PostEff(ct), s0);
    PostEffKeepsTags(ct);
    RunRulesKeepsTags(tags0, TableOf(r), PostEff(ct), s0);
  }

  /** One step of the loop: the three tests on type `t`, each running its table when it opens. */
  method PostMatchStep(e: OsmElement, ct: CachedTypes, t: TypeCode, ghost tags0: seq<Tag>, s0: Attrs,
                       ghost rounds: seq<Round>, g: Gates, s: Attrs)
    returns (ghost rounds': seq<Round>, g': Gates, s': Attrs)
    modifies e
    requires e.tags == tags0 && s == RunRounds(tags0, rounds, ct, s0)
    ensures e.tags == tags0 && s' == RunRounds(tags0, rounds', ct, s0)
    ensures var afterHighway := HighwayStep(rounds, g, t, ct);
      var afterSubway := SubwayStep(afterHighway.0, afterHighway.1, t, ct);
      (rounds', g') == RailwayStep(afterSubway.0, afterSubway.1, t, ct)
  {
    rounds', g', s' := rounds, g, s;
    if !g'.highwayDone && ct.IsHighway(t) {
      RunRoundsSnoc(tags0, rounds', HighwayRound, ct, s0);
      s' := RunPostTable(e, ct, HighwayRound, s');
      rounds', g' := rounds' + [HighwayRound], g'.(highwayDone := true);
    }
    ghost var st1 := (rounds', g');
    if !g'.subwayDone && ct.IsRwSubway(t) {
      RunRoundsSnoc(tags0, rounds', SubwayRound, ct, s0);
      s' := RunPostTable(e, ct, SubwayRound, s');
      rounds', g' := rounds' + [SubwayRound], g'.(subwayDone := true);
    }
    assert (rounds', g') == SubwayStep(st1.0, st1.1, t, ct);
    ghost var st2 := (rounds', g');
    if !g'.subwayDone && !g'.railwayDone && ct.IsRwStation(t) {
      RunRoundsSnoc(tags0, rounds', RailwayRound, ct, s0);
      s' := RunPostTable(e, ct, RailwayRound, s');
      rounds', g' := rounds' + [RailwayRound], g'.(railwayDone := true);
    }
    assert (rounds', g') == RailwayStep(st2.0, st2.1, t, ct);
  }

  /**
   * The loop over a copy of the types: a type of a category starts its
   * table once, and the subway table closes the railway one.
   */
  method PostMatch(e: OsmElement, params: FeatureParams, ct: CachedTypes) returns (ghost rounds: seq<Round>)
    modifies e, params
    ensures rounds == Rounds(old(params.types), ct).0
    ensures e.tags == old(e.tags)
    ensures params.View() == RunRounds(old(e.tags), rounds, ct, old(params.View()))
  {
    ghost var tags0 := e.tags;
    var vTypes := params.types;
    var s0 := params.View();
    var s := s0;
    var gates := Closed;
    rounds := [];
    for i := 0 to |vTypes|
      invariant Rounds(vTypes[..i], ct) == (rounds, gates)
      invariant e.tags == tags0 && s == RunRounds(tags0, rounds, ct, s0)
    {
      RoundsNext(vTypes, i, ct);
      rounds, gates, s := PostMatchStep(e, ct, vTypes[i], tags0, s0, rounds, gates, s);
    }
    assert vTypes[..|vTypes|] == vTypes;
    params.Load(s);
  }

  // ---------------------------------------------------------------- after the walk

  /**
   * What follows the classificator walk, on a record: the entrance rule,
   * the post-match rounds chosen by the types it leaves, and the
   * de-duplication of the types.
   */
  ghost function AfterMatch(tags: seq<Tag>, a: Attrs, ct: CachedTypes): Attrs {
    var fixed := EntranceFixed(a, ct);
    var s := RunRounds(tags, Rounds(fixed.types, ct).0, ct, fixed);
    s.(types := Dedup(s.types))
  }

  /** The types after the walk: no repeats, nothing from nowhere, and the house number rule kept. */
  lemma AfterMatchTypes(tags: seq<Tag>, a: Attrs, ct: CachedTypes)
    ensures var r := AfterMatch(tags, a, ct);
      && NoDuplicates(r.types)
      && (forall t :: t in r.types ==> t in a.types || t == ct.address || IsPostType(ct, t) || IsCityType(ct, t))
      && (a.house != "" ==> r.types != [])
      && (a.house != "" && ct.WellFormed() ==> ct.entrance !in r.types)
  {
    var fixed := EntranceFixed(a, ct);
    var s := RunRounds(tags, Rounds(fixed.types, ct).0, ct, fixed);
    RunRoundsFrame(tags, Rounds(fixed.types, ct).0, ct, fixed);
    if a.house != "" {
      assert s.types[0] in s.types;
      if ct.WellFormed() {
        assert !IsPostType(ct, ct.entrance);
        assert !IsCityType(ct, ct.entrance);
      }
    }
  }

  /** The reverse flag after the walk: set only by a oneway=-1 tag, and never cleared. */
  lemma AfterMatchFlags(tags: seq<Tag>, a: Attrs, ct: CachedTypes)
    ensures var r := AfterMatch(tags, a, ct);
      && (a.reverseGeometry ==> r.reverseGeometry)
      && (r.reverseGeometry && !a.reverseGeometry ==>
          Tag("oneway", "-1") in tags && (ct.WellFormed() ==> ct.oneway in r.types))
  {
    var fixed := EntranceFixed(a, ct);
    var rounds := Rounds(fixed.types, ct).0;
    var s := RunRounds(tags, rounds, ct, fixed);
    RunRoundsFrame(tags, rounds, ct, fixed);
    RunRoundsReverseNeeds(tags, rounds, ct, fixed);
    if s.reverseGeometry && !a.reverseGeometry {
      RunRoundsReverseSet(tags, rounds, ct, fixed);
      if ct.WellFormed() {
        assert ct.Get(Oneway) in s.types;
      }
    }
  }

  /**
   * A city's subway-station type comes only with a tag the city tables
   * fire on and a subway or station type for the rounds to start on.
   */
  lemma AfterMatchCity(tags: seq<Tag>, a: Attrs, ct: CachedTypes)
    requires !HasCityTag(tags) ||
      (ct.WellFormed() && forall t :: t in a.types ==> !ct.IsRwSubway(t) && !ct.IsRwStation(t))
    ensures forall t :: t in AfterMatch(tags, a, ct).types ==> t in a.types || t == ct.address || IsPostType(ct, t)
  {
    var fixed := EntranceFixed(a, ct);
    var rounds := Rounds(fixed.types, ct).0;
    if HasCityTag(tags) {
      NoCityRounds(a, ct);
    }
    RunRoundsNoCity(tags, rounds, ct, fixed);
  }

  /** Without a subway or station type, and with well-formed codes, no city round runs. */
  lemma NoCityRounds(a: Attrs, ct: CachedTypes)
    requires ct.WellFormed() && forall t :: t in a.types ==> !ct.IsRwSubway(t) && !ct.IsRwStation(t)
    ensures var rounds := Rounds(EntranceFixed(a, ct).types, ct).0;
      SubwayRound !in rounds && RailwayRound !in rounds
  {
    var fixed := EntranceFixed(a, ct);
    RoundsRun(fixed.types, ct);
    assert !ct.IsRwSubway(ct.address) && !ct.IsRwStation(ct.address);
    assert !AnySubway(fixed.types, ct);
    assert !StationBeforeSubway(fixed.types, ct);
  }

  /** The rest of the record after the walk: only the names may go, all at once. */
  lemma AfterMatchFrame(tags: seq<Tag>, a: Attrs, ct: CachedTypes)
    ensures var r := AfterMatch(tags, a, ct);
      && (r.name == a.name || (a.house != "" && r.name == map[]))
      && r.(types := a.types, name := a.name, reverseGeometry := a.reverseGeometry) == a
  {
    var fixed := EntranceFixed(a, ct);
    RunRoundsFrame(tags, Rounds(fixed.types, ct).0, ct, fixed);
  }

  /** The added layer tag is no name, so the names' languages are the same. */
  lemma WithLayerNames(tags: seq<Tag>)
    ensures NameLangs(WithLayer(tags)) == NameLangs(tags)
  {
    var r := WithLayer(tags);
    WithLayerMeaning(tags);
    if |r| > |tags| {
      var t := r[|tags|];
      assert r == tags + [t];
      LayerTagNoName(t.value);
      NameLangsSnoc(tags, t);
    } else {
      assert r == tags;
    }
  }

  /** A layer tag names no language. */
  lemma LayerTagNoName(v: string)
    ensures !IsNameTag(Tag("layer", v))
  {
    TokensSingle("layer");
  }

  // ---------------------------------------------------------------- the whole

  /** The whole pipeline's promises, on the records between the stages. */
  lemma PipelineFacts(env: Env, tags0: seq<Tag>, a0: Attrs, tags2: seq<Tag>, a2: Attrs,
                      tags3: seq<Tag>, a3: Attrs, paths: seq<seq<ObjPtr>>, a4: Attrs, r: Attrs)
    requires var n := ExtractNamesSpec(WithLayer(tags0), a0.name, env.normalize);
      tags2 == n.0 && a2 == a0.(name := n.2)
    requires (tags3, a3) == RunRules(tags2, BaseRules(), BaseEff(env.isHouseNumber, env.populationRank), a2)
    requires forall i :: 0 <= i < |paths| ==> paths[i] != [] && IsChain(env.root, paths[i])
    requires a4 == a3.(types := a3.types + DrawableCodes(paths, env.isDrawable))
    requires r == AfterMatch(tags3, a4, env.cached)
    ensures |tags3| == |tags0| + (if !HasKey(tags0, "layer") && HasBridgeOrTunnel(tags0) then 1 else 0)
    ensures |tags3| > |tags0| ==>
      exists i: nat :: LastBridgeOrTunnel(tags0, i) && tags3[|tags0|] == Tag("layer", LayerFor(tags0[i]))
    ensures NoDuplicates(r.types)
    ensures forall t :: t in r.types ==>
      || t in a0.types
      || t in DrawableCodes(paths, env.isDrawable)
      || t == env.cached.address
      || IsPostType(env.cached, t)
      || IsCityType(env.cached, t)
    ensures forall t :: t in DrawableCodes(paths, env.isDrawable) ==>
      env.isDrawable(t) && t != [] && ValidCode(env.root, t)
    ensures r.house != "" ==> r.types != []
    ensures r.house != "" && env.cached.WellFormed() ==> env.cached.entrance !in r.types
    ensures -LayerBound <= a0.layer <= LayerBound ==> -LayerBound <= r.layer <= LayerBound
    ensures a0.layer != 0 ==> r.layer == a0.layer
    ensures r.name.Keys <= a0.name.Keys + NameLangs(tags0)
    ensures a0.reverseGeometry ==> r.reverseGeometry
    ensures r.reverseGeometry && !a0.reverseGeometry ==>
      Tag("oneway", "-1") in tags3 && (env.cached.WellFormed() ==> env.cached.oneway in r.types)
    ensures !HasCityTag(tags3) ==> forall t :: t in r.types ==>
      || t in a0.types
      || t in DrawableCodes(paths, env.isDrawable)
      || t == env.cached.address
      || IsPostType(env.cached, t)
  {
    WithLayerMeaning(tags0);
    WithLayerNames(tags0);
    ExtractNamesLanguages(WithLayer(tags0), a0.name, env.normalize);
    BaseRulesLayer(env.isHouseNumber, env.populationRank, tags2, a2);
    BaseRulesFrame(env.isHouseNumber, env.populationRank, tags2, a2);
    DrawableCodesBound(paths, env.isDrawable);
    DrawableCodesValid(env.root, paths, env.isDrawable);
    AfterMatchTypes(tags3, a4, env.cached);
    AfterMatchFlags(tags3, a4, env.cached);
    AfterMatchFrame(tags3, a4, env.cached);
    if !HasCityTag(tags3) {
      AfterMatchCity(tags3, a4, env.cached);
    }
    if |tags3| > |tags0| {
      LayerTagSurvives(env, tags0, a0, tags2, a2, tags3, a3);
    }
  }

  /** The added layer tag is neither taken as a name nor consumed by the base table. */
  lemma LayerTagSurvives(env: Env, tags0: seq<Tag>, a0: Attrs, tags2: seq<Tag>, a2: Attrs, tags3: seq<Tag>, a3: Attrs)
    requires tags2 == ExtractNamesSpec(WithLayer(tags0), a0.name, env.normalize).0
    requires (tags3, a3) == RunRules(tags2, BaseRules(), BaseEff(env.isHouseNumber, env.populationRank), a2)
    requires |WithLayer(tags0)| > |tags0|
    ensures |tags0| < |tags3| && tags3[|tags0|] == WithLayer(tags0)[|tags0|]
  {
    var w := WithLayer(tags0);
    var k := |tags0|;
    WithLayerMeaning(tags0);
    PreScan(tags0);
    LayerTagNoName(w[k].value);
    ExtractNamesClears(w, a0.name, env.normalize);
    assert tags2[k] == w[k];
    BaseRulesConsume(env.isHouseNumber, env.populationRank, tags2, a2, k);
  }

  /** The stages before the walk: the layer tag, the names and the base table. */
  method BeforeWalk(e: OsmElement, params: FeatureParams, env: Env)
    modifies e, params
    ensures var n := ExtractNamesSpec(WithLayer(old(e.tags)), old(params.name), env.normalize);
      (e.tags, params.View()) ==
        RunRules(n.0, BaseRules(), BaseEff(env.isHouseNumber, env.populationRank), old(params.View()).(name := n.2))
  {
    AddLayerTag(e);
    ExtractNames(e, params, env.normalize);
    ApplyBaseRules(e, params, env);
  }

  /** The stages after the walk: the entrance rule, the post-match rounds and the de-duplication. */
  method AfterWalk(e: OsmElement, params: FeatureParams, ct: CachedTypes)
    modifies e, params
    ensures e.tags == old(e.tags)
    ensures params.View() == AfterMatch(old(e.tags), old(params.View()), ct)
  {
    FixEntrance(params, ct);
    ghost var rounds := PostMatch(e, params, ct);
    params.FinishAddingTypes();
  }

  /**
   * `GetNameAndType`: the stages in the source's order. The walk's rounds
   * are the ghost `paths`, `skips` and `hits`; everything after it is
   * `AfterMatch`.
   */
  method GetNameAndType(e: OsmElement, params: FeatureParams, env: Env)
    returns (ghost paths: seq<seq<ObjPtr>>, ghost skips: seq<set<nat>>, ghost hits: seq<nat>)
    modifies e, params
    ensures |e.tags| == |old(e.tags)| +
      (if !HasKey(old(e.tags), "layer") && HasBridgeOrTunnel(old(e.tags)) then 1 else 0)
    ensures |e.tags| > |old(e.tags)| ==> exists i: nat ::
      LastBridgeOrTunnel(old(e.tags), i) && e.tags[|old(e.tags)|] == Tag("layer", LayerFor(old(e.tags)[i]))
    ensures Walk(env.root, Visible(e.tags), paths, skips, hits)
    ensures NoDuplicates(params.types)
    ensures forall t :: t in params.types ==>
      || t in old(params.types)
      || t in DrawableCodes(paths, env.isDrawable)
      || t == env.cached.address
      || IsPostType(env.cached, t)
      || IsCityType(env.cached, t)
    ensures forall t :: t in DrawableCodes(paths, env.isDrawable) ==>
      env.isDrawable(t) && t != [] && ValidCode(env.root, t)
    ensures params.house != "" ==> params.types != []
    ensures params.house != "" && env.cached.WellFormed() ==> env.cached.entrance !in params.types
    ensures -LayerBound <= old(params.layer) <= LayerBound ==> -LayerBound <= params.layer <= LayerBound
    ensures old(params.layer) != 0 ==> params.layer == old(params.layer)
    ensures params.name.Keys <= old(params.name).Keys + NameLangs(old(e.tags))
    ensures old(params.reverseGeometry) ==> params.reverseGeometry
    ensures params.reverseGeometry && !old(params.reverseGeometry) ==>
      Tag("oneway", "-1") in e.tags && (env.cached.WellFormed() ==> env.cached.oneway in params.types)
    ensures !HasCityTag(e.tags) ==> forall t :: t in params.types ==>
      || t in old(params.types)
      || t in DrawableCodes(paths, env.isDrawable)
      || t == env.cached.address
      || IsPostType(env.cached, t)
  {
    ghost var tags0, a0 := e.tags, params.View();
    BeforeWalk(e, params, env);
    ghost var n := ExtractNamesSpec(WithLayer(tags0), a0.name, env.normalize);
    ghost var tags3, a3 := e.tags, params.View();
    ghost var pathIds, used;
    paths, pathIds, used, skips, hits := MatchTypes(e, params, env.root, env.isDrawable);
    ghost var a4 := params.View();
    AfterWalk(e, params, env.cached);
    PipelineFacts(env, tags0, a0, n.0, a0.(name := n.2), tags3, a3, paths, a4, params.View());
  }
}
