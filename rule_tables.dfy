/**
 * The five rule tables `GetNameAndType` hands to the rule engine, with the
 * effects of their callbacks: the bridge/tunnel/layer scan, the base table
 * that relabels and consumes tags, and the three post-match tables.
 */
module RuleTables {
  import opened Wrappers
  import opened StringUtils
  import opened OsmElements
  import opened TagFilters
  import opened Classif
  import opened Features
  import opened Rules

  // ---------------------------------------------------------------- layer scan

  datatype PreAction = BridgeLayer | TunnelLayer | NoteLayer

  /** The two locals the first table's callbacks set: `hasLayer` and `layer` (None for nullptr). */
  datatype LayerScan = LayerScan(hasLayer: bool, layer: Option<string>)

  const NoLayerSeen: LayerScan := LayerScan(false, None)

  function PreRules(): seq<Rule<PreAction>> {
    [ Rule("bridge", "yes", BridgeLayer),
      Rule("tunnel", "yes", TunnelLayer),
      Rule("layer", "*", NoteLayer) ]
  }

  function PreEffect(a: PreAction, t: Tag, s: LayerScan): (Tag, LayerScan) {
    match a
    case BridgeLayer => (t, s.(layer := Some("1")))
    case TunnelLayer => (t, s.(layer := Some("-1")))
    case NoteLayer => (t, s.(hasLayer := true))
  }

  /** What the layer scan learns from one tag. */
  lemma PreRulesOnTag(t: Tag, s: LayerScan)
    ensures ApplyToTag(PreRules(), PreEffect, t, s) ==
      (t, LayerScan(s.hasLayer || t.key == "layer",
                    if t == Tag("bridge", "yes") then Some("1")
                    else if t == Tag("tunnel", "yes") then Some("-1")
                    else s.layer))
  {
    var rules := PreRules();
    if t == Tag("bridge", "yes") {
      OnlyOneFires(rules, 0, PreEffect, t, s);
    } else if t == Tag("tunnel", "yes") {
      OnlyOneFires(rules, 1, PreEffect, t, s);
    } else if t.key == "layer" {
      OnlyOneFires(rules, 2, PreEffect, t, s);
    } else {
      NoneFires(rules, PreEffect, t, s);
    }
  }

  lemma PreEffectKeepsTags()
    ensures KeepsTags(PreEffect)
  {
  }

  /** After the scan, `hasLayer` says whether any tag has the key "layer". */
  lemma {:induction false} PreScanHasLayer(tags: seq<Tag>)
    ensures RunRules(tags, PreRules(), PreEffect, NoLayerSeen).1.hasLayer <==>
      exists i :: 0 <= i < |tags| && tags[i].key == "layer"
    decreases |tags|
  {
    if tags != [] {
      var init, last := tags[..|tags| - 1], tags[|tags| - 1];
      PreScanHasLayer(init);
      PreRulesOnTag(last, RunRules(init, PreRules(), PreEffect, NoLayerSeen).1);
      if exists i :: 0 <= i < |tags| && tags[i].key == "layer" {
        var i :| 0 <= i < |tags| && tags[i].key == "layer";
        if i < |init| { assert init[i].key == "layer"; }
      }
    }
  }

  predicate BridgeOrTunnel(t: Tag) {
    t == Tag("bridge", "yes") || t == Tag("tunnel", "yes")
  }

  /** Tag `i` is the last bridge=yes or tunnel=yes tag. */
  predicate LastBridgeOrTunnel(tags: seq<Tag>, i: nat) {
    i < |tags| && BridgeOrTunnel(tags[i]) && forall j :: i < j < |tags| ==> !BridgeOrTunnel(tags[j])
  }

  /** The layer a bridge=yes tag ("1") or a tunnel=yes tag ("-1") calls for. */
  function LayerFor(t: Tag): string {
    if t == Tag("bridge", "yes") then "1" else "-1"
  }

  /**
   * After the scan, a layer to synthesize is known exactly when some tag is
   * bridge=yes or tunnel=yes.
   */
  lemma {:induction false} PreScanLayer(tags: seq<Tag>)
    ensures RunRules(tags, PreRules(), PreEffect, NoLayerSeen).1.layer.Some? <==>
      exists i :: 0 <= i < |tags| && BridgeOrTunnel(tags[i])
    decreases |tags|
  {
    if tags != [] {
      var init, last := tags[..|tags| - 1], tags[|tags| - 1];
      PreScanLayer(init);
      PreRulesOnTag(last, RunRules(init, PreRules(), PreEffect, NoLayerSeen).1);
      if exists i :: 0 <= i < |tags| && BridgeOrTunnel(tags[i]) {
        var i :| 0 <= i < |tags| && BridgeOrTunnel(tags[i]);
        if i < |init| { assert BridgeOrTunnel(init[i]); }
      }
    }
  }

  /** ... and the last such tag decides the layer: "1" for a bridge, "-1" for a tunnel. */
  lemma {:induction false} PreScanLast(tags: seq<Tag>, i: nat)
    requires LastBridgeOrTunnel(tags, i)
    ensures RunRules(tags, PreRules(), PreEffect, NoLayerSeen).1.layer == Some(LayerFor(tags[i]))
    decreases |tags|
  {
    var init, last := tags[..|tags| - 1], tags[|tags| - 1];
    PreRulesOnTag(last, RunRules(init, PreRules(), PreEffect, NoLayerSeen).1);
    if i < |init| {
      assert !BridgeOrTunnel(last);
      assert LastBridgeOrTunnel(init, i) by {
        assert forall j :: i < j < |init| ==> init[j] == tags[j];
      }
      PreScanLast(init, i);
    }
  }

  /** Some bridge=yes or tunnel=yes tag is the last one. */
  lemma {:induction false} LastBridgeOrTunnelExists(tags: seq<Tag>, k: nat)
    requires k < |tags| && BridgeOrTunnel(tags[k])
    ensures exists i: nat :: LastBridgeOrTunnel(tags, i)
    decreases |tags| - k
  {
    if !LastBridgeOrTunnel(tags, k) {
      var j :| k < j < |tags| && BridgeOrTunnel(tags[j]);
      LastBridgeOrTunnelExists(tags, j);
    }
  }

  /** The whole scan: the facts above, and no tag is changed. */
  lemma PreScan(tags: seq<Tag>)
    ensures var (out, s) := RunRules(tags, PreRules(), PreEffect, NoLayerSeen);
      && out == tags
      && (s.hasLayer <==> exists i :: 0 <= i < |tags| && tags[i].key == "layer")
      && (s.layer.Some? <==> exists i :: 0 <= i < |tags| && BridgeOrTunnel(tags[i]))
      && (s.layer.Some? ==> exists i: nat :: LastBridgeOrTunnel(tags, i) && s.layer.value == LayerFor(tags[i]))
  {
    PreEffectKeepsTags();
    RunRulesKeepsTags(tags, PreRules(), PreEffect, NoLayerSeen);
    PreScanHasLayer(tags);
    PreScanLayer(tags);
    var s := RunRules(tags, PreRules(), PreEffect, NoLayerSeen).1;
    if s.layer.Some? {
      var k :| 0 <= k < |tags| && BridgeOrTunnel(tags[k]);
      LastBridgeOrTunnelExists(tags, k);
      var i: nat :| LastBridgeOrTunnel(tags, i);
      PreScanLast(tags, i);
    }
  }

  // ---------------------------------------------------------------- base table

  datatype BaseAction =
    | Relabel(newKey: string)
    | HouseName | StreetAddress | Flats | HouseNumber | Population | Ref | Layer

  function BaseRules(): seq<Rule<BaseAction>> {
    [ Rule("atm", "yes", Relabel("amenity")),
      Rule("restaurant", "yes", Relabel("amenity")),
      Rule("hotel", "yes", Relabel("tourism")),
      Rule("addr:housename", "*", HouseName),
      Rule("addr:street", "*", StreetAddress),
      Rule("addr:flats", "*", Flats),
      Rule("addr:housenumber", "*", HouseNumber),
      Rule("population", "*", Population),
      Rule("ref", "*", Ref),
      Rule("layer", "*", Layer) ]
  }

  /** The keys the base table consumes whatever their value. */
  const ConsumedKeys: set<string> :=
    {"addr:housename", "addr:street", "addr:flats", "addr:housenumber", "population", "ref"}

  const LayerBound: int := 10

  /**
   * The base table's callbacks. `isHouseNumber` stands for the validity test
   * inside `AddHouseNumber`; `populationRank` for the floating-point rank
   * formula applied to a parsed population.
   */
  function BaseEffect(isHouseNumber: string -> bool, populationRank: nat -> nat,
                      a: BaseAction, t: Tag, s: Attrs): (Tag, Attrs)
  {
    match a
    // k.swap(v); k = newKey: the old key becomes the value.
    case Relabel(newKey) => (Tag(newKey, t.key), s)
    case HouseName => (Consumed, s.(houseName := t.value))
    case StreetAddress => (Consumed, s.(street := t.value))
    case Flats => (Consumed, s.(flats := t.value))
    case HouseNumber =>
      (Consumed, if isHouseNumber(t.value) then s.(house := t.value) else s.(houseName := t.value))
    case Population =>
      (Consumed, match ToUInt64(t.value)
                 case Some(n) => s.(rank := populationRank(n))
                 case None => s)
    case Ref => (Consumed, s.(ref := t.value))
    case Layer =>
      // `params.layer` is an `int8_t`: atoi's result is narrowed before the clamp.
      (t, if s.layer == 0 then s.(layer := Clamp(ToInt8(Atoi(t.value)), -LayerBound, LayerBound)) else s)
  }

  function BaseEff(isHouseNumber: string -> bool, populationRank: nat -> nat): (BaseAction, Tag, Attrs) -> (Tag, Attrs) {
    (a, t, s) => BaseEffect(isHouseNumber, populationRank, a, t, s)
  }

  /** The fate of one tag under the base table, key by key. */
  lemma BaseRulesOnTag(hn: string -> bool, rk: nat -> nat, t: Tag, s: Attrs)
    ensures var r := ApplyToTag(BaseRules(), BaseEff(hn, rk), t, s);
      && (t == Tag("atm", "yes") ==> r == (Tag("amenity", "atm"), s))
      && (t == Tag("restaurant", "yes") ==> r == (Tag("amenity", "restaurant"), s))
      && (t == Tag("hotel", "yes") ==> r == (Tag("tourism", "hotel"), s))
      && (t.key == "addr:housename" ==> r == (Consumed, s.(houseName := t.value)))
      && (t.key == "addr:street" ==> r == (Consumed, s.(street := t.value)))
      && (t.key == "addr:flats" ==> r == (Consumed, s.(flats := t.value)))
      && (t.key == "addr:housenumber" ==>
          r == (Consumed, if hn(t.value) then s.(house := t.value) else s.(houseName := t.value)))
      && (t.key == "population" ==>
          r == (Consumed, if IsNumber(t.value) then s.(rank := rk(ToUInt64(t.value).value)) else s))
      && (t.key == "ref" ==> r == (Consumed, s.(ref := t.value)))
      && (t.key == "layer" ==>
          r == (t, if s.layer == 0 then s.(layer := Clamp(ToInt8(Atoi(t.value)), -10, 10)) else s))
      && (t.key !in ConsumedKeys + {"atm", "restaurant", "hotel", "layer"} ==> r == (t, s))
      && (t.key in {"atm", "restaurant", "hotel"} && t.value != "yes" ==> r == (t, s))
  {
    var k := t.key;
    if k in {"atm", "restaurant", "hotel"} && t.value == "yes" {
      BaseRelabels(hn, rk, t, s);
    } else if k in {"addr:housename", "addr:street", "addr:flats"} {
      BaseAddressFields(hn, rk, t, s);
    } else if k in {"addr:housenumber", "population", "ref"} {
      BaseNumbers(hn, rk, t, s);
    } else if k == "layer" {
      OnlyOneFires(BaseRules(), 9, BaseEff(hn, rk), t, s);
    } else {
      NoneFires(BaseRules(), BaseEff(hn, rk), t, s);
    }
  }

  lemma BaseRelabels(hn: string -> bool, rk: nat -> nat, t: Tag, s: Attrs)
    requires t.key in {"atm", "restaurant", "hotel"} && t.value == "yes"
    ensures ApplyToTag(BaseRules(), BaseEff(hn, rk), t, s) ==
      (Tag(if t.key == "hotel" then "tourism" else "amenity", t.key), s)
  {
    if t.key == "atm" {
      OnlyOneFires(BaseRules(), 0, BaseEff(hn, rk), t, s);
    } else if t.key == "restaurant" {
      OnlyOneFires(BaseRules(), 1, BaseEff(hn, rk), t, s);
    } else {
      OnlyOneFires(BaseRules(), 2, BaseEff(hn, rk), t, s);
    }
  }

  lemma BaseAddressFields(hn: string -> bool, rk: nat -> nat, t: Tag, s: Attrs)
    requires t.key in {"addr:housename", "addr:street", "addr:flats"}
    ensures ApplyToTag(BaseRules(), BaseEff(hn, rk), t, s) ==
      (Consumed,
       if t.key == "addr:housename" then s.(houseName := t.value)
       else if t.key == "addr:street" then s.(street := t.value)
       else s.(flats := t.value))
  {
    if t.key == "addr:housename" {
      OnlyOneFires(BaseRules(), 3, BaseEff(hn, rk), t, s);
    } else if t.key == "addr:street" {
      OnlyOneFires(BaseRules(), 4, BaseEff(hn, rk), t, s);
    } else {
      OnlyOneFires(BaseRules(), 5, BaseEff(hn, rk), t, s);
    }
  }

  lemma BaseNumbers(hn: string -> bool, rk: nat -> nat, t: Tag, s: Attrs)
    requires t.key in {"addr:housenumber", "population", "ref"}
    ensures ApplyToTag(BaseRules(), BaseEff(hn, rk), t, s) ==
      (Consumed,
       if t.key == "addr:housenumber" then
         (if hn(t.value) then s.(house := t.value) else s.(houseName := t.value))
       else if t.key == "population" then
         (if IsNumber(t.value) then s.(rank := rk(ToUInt64(t.value).value)) else s)
       else s.(ref := t.value))
  {
    if t.key == "addr:housenumber" {
      OnlyOneFires(BaseRules(), 6, BaseEff(hn, rk), t, s);
    } else if t.key == "population" {
      OnlyOneFires(BaseRules(), 7, BaseEff(hn, rk), t, s);
    } else {
      OnlyOneFires(BaseRules(), 8, BaseEff(hn, rk), t, s);
    }
  }

  /**
   * Over a whole tag list: every tag with a consumed key is cleared, a
   * "layer" tag stays as it was, and no tag comes out with a consumed key.
   */
  lemma BaseRulesConsume(hn: string -> bool, rk: nat -> nat, tags: seq<Tag>, s: Attrs, i: nat)
    requires i < |tags|
    ensures var out := RunRules(tags, BaseRules(), BaseEff(hn, rk), s).0;
      && (tags[i].key in ConsumedKeys ==> out[i] == Consumed)
      && (tags[i].key == "layer" ==> out[i] == tags[i])
      && out[i].key !in ConsumedKeys
  {
    var s' := RunRulesAt(tags, BaseRules(), BaseEff(hn, rk), s, i);
    BaseRulesOnTag(hn, rk, tags[i], s');
  }

  /**
   * The base table keeps the layer within [-10, 10] and assigns it only
   * while it is 0.
   */
  lemma BaseRulesLayer(hn: string -> bool, rk: nat -> nat, tags: seq<Tag>, s: Attrs)
    ensures var s' := RunRules(tags, BaseRules(), BaseEff(hn, rk), s).1;
      && (-LayerBound <= s.layer <= LayerBound ==> -LayerBound <= s'.layer <= LayerBound)
      && (s.layer != 0 ==> s'.layer == s.layer)
  {
    var eff := BaseEff(hn, rk);
    if -LayerBound <= s.layer <= LayerBound {
      var P := (x: Attrs) => -LayerBound <= x.layer <= LayerBound;
      assert forall a, t, x :: P(x) ==> P(eff(a, t, x).1);
      RunRulesInvariant(tags, BaseRules(), eff, s, P);
    }
    if s.layer != 0 {
      var P := (x: Attrs) => x.layer == s.layer;
      assert forall a, t, x :: P(x) ==> P(eff(a, t, x).1);
      RunRulesInvariant(tags, BaseRules(), eff, s, P);
    }
  }

  /** The base table leaves the types, the names and the reverse flag alone. */
  lemma BaseRulesFrame(hn: string -> bool, rk: nat -> nat, tags: seq<Tag>, s: Attrs)
    ensures var s' := RunRules(tags, BaseRules(), BaseEff(hn, rk), s).1;
      s'.types == s.types && s'.name == s.name && s'.reverseGeometry == s.reverseGeometry
  {
    var eff := BaseEff(hn, rk);
    var P := (x: Attrs) => x.types == s.types && x.name == s.name && x.reverseGeometry == s.reverseGeometry;
    assert forall a, t, x :: P(x) ==> P(eff(a, t, x).1);
    RunRulesInvariant(tags, BaseRules(), eff, s, P);
  }

  // ---------------------------------------------------------------- post-match tables

  datatype PostAction = AddCached(kind: EType) | AddReverseOneway | SetSubwayCity(city: string)

  function HighwayRules(): seq<Rule<PostAction>> {
    [ Rule("oneway", "yes", AddCached(Oneway)),
      Rule("oneway", "1", AddCached(Oneway)),
      Rule("oneway", "-1", AddReverseOneway),
      Rule("access", "private", AddCached(Private)),
      Rule("lit", "~", AddCached(Lit)),
      Rule("foot", "!", AddCached(NoFoot)),
      Rule("foot", "~", AddCached(YesFoot)),
      Rule("sidewalk", "~", AddCached(YesFoot)) ]
  }

  function SubwayRules(): seq<Rule<PostAction>> {
    [ Rule("network", "London Underground", SetSubwayCity("london")),
      Rule("network", "New York City Subway", SetSubwayCity("newyork")),
      Rule("network", "Московский метрополитен", SetSubwayCity("moscow")),
      Rule("network", "Петербургский метрополитен", SetSubwayCity("spb")),
      Rule("network", "Verkehrsverbund Berlin-Brandenburg", SetSubwayCity("berlin")),
      Rule("network", "Минский метрополитен", SetSubwayCity("minsk")),
      Rule("network", "Київський метрополітен", SetSubwayCity("kiev")),
      Rule("operator", "КП «Київський метрополітен»", SetSubwayCity("kiev")),
      Rule("network", "RATP", SetSubwayCity("paris")),
      Rule("network", "Metro de Barcelona", SetSubwayCity("barcelona")),
      Rule("network", "Metro de Madrid", SetSubwayCity("madrid")),
      Rule("operator", "Metro de Madrid", SetSubwayCity("madrid")),
      Rule("network", "Metropolitana di Roma", SetSubwayCity("roma")),
      Rule("network", "ATAC", SetSubwayCity("roma")) ]
  }

  function RailwayRules(): seq<Rule<PostAction>> {
    [ Rule("network", "London Underground", SetSubwayCity("london")) ]
  }

  /** The cities the subway and railway tables name. */
  const Cities: seq<string> :=
    ["london", "newyork", "moscow", "spb", "berlin", "minsk", "kiev", "paris", "barcelona", "madrid", "roma"]

  /** `t` is the subway-station type of one of those cities. */
  predicate IsCityType(ct: CachedTypes, t: TypeCode) {
    exists city :: city in Cities && ct.subway(city) == t
  }

  /** Every city a table's callback passes to `SetRwSubwayType` is one of `Cities`. */
  predicate KnownCities(rules: seq<Rule<PostAction>>) {
    forall i :: 0 <= i < |rules| && rules[i].action.SetSubwayCity? ==> rules[i].action.city in Cities
  }

  /**
   * The post-match callbacks: `AddType` of a cached type, the reverse
   * one-way flag, and `SetRwSubwayType`, which turns the first station
   * type into the city's subway-station type. None of them touches the tag.
   */
  function PostEffect(ct: CachedTypes, a: PostAction, t: Tag, s: Attrs): (Tag, Attrs) {
    match a
    case AddCached(kind) => (t, s.(types := s.types + [ct.Get(kind)]))
    case AddReverseOneway => (t, s.(types := s.types + [ct.Get(Oneway)], reverseGeometry := true))
    case SetSubwayCity(city) => (t, s.(types := SetRwSubwayType(s.types, ct.rwStation, ct.subway(city))))
  }

  function PostEff(ct: CachedTypes): (PostAction, Tag, Attrs) -> (Tag, Attrs) {
    (a, t, s) => PostEffect(ct, a, t, s)
  }

  lemma PostEffKeepsTags(ct: CachedTypes)
    ensures KeepsTags(PostEff(ct))
  {
  }

  /**
   * How the post-match callbacks change a type list: no type moves and none
   * is lost, except that a station type may become a city's subway-station
   * type; new types come at the end.
   */
  predicate Evolves(ct: CachedTypes, a: seq<TypeCode>, b: seq<TypeCode>) {
    |a| <= |b| &&
    forall i :: 0 <= i < |a| ==> b[i] == a[i] || (TruncValue(a[i], 2) == ct.rwStation && IsCityType(ct, b[i]))
  }

  lemma EvolvesTrans(ct: CachedTypes, a: seq<TypeCode>, b: seq<TypeCode>, c: seq<TypeCode>)
    requires Evolves(ct, a, b) && Evolves(ct, b, c)
    ensures Evolves(ct, a, c)
  {
    forall i | 0 <= i < |a|
      ensures c[i] == a[i] || (TruncValue(a[i], 2) == ct.rwStation && IsCityType(ct, c[i]))
    {
      assert b[i] == a[i] || (TruncValue(a[i], 2) == ct.rwStation && IsCityType(ct, b[i]));
      assert c[i] == b[i] || (TruncValue(b[i], 2) == ct.rwStation && IsCityType(ct, c[i]));
    }
  }

  /** A type that is not a station type survives, in its place. */
  lemma EvolvesKeeps(ct: CachedTypes, a: seq<TypeCode>, b: seq<TypeCode>, i: nat)
    requires Evolves(ct, a, b) && i < |a| && TruncValue(a[i], 2) != ct.rwStation
    ensures b[i] == a[i]
  {
  }

  /** One callback keeps `Evolves`, and changes nothing but the types and the reverse flag, which it never clears. */
  lemma PostEffectEvolves(ct: CachedTypes, a: PostAction, t: Tag, s: Attrs)
    requires a.SetSubwayCity? ==> a.city in Cities
    ensures var s' := PostEffect(ct, a, t, s).1;
      && Evolves(ct, s.types, s'.types)
      && (s.reverseGeometry ==> s'.reverseGeometry)
      && s'.(types := s.types, reverseGeometry := s.reverseGeometry) == s
  {
    match a
    case SetSubwayCity(city) =>
      SetRwSubwayTypeEach(s.types, ct.rwStation, ct.subway(city));
    case _ =>
  }

  /**
   * A post-match table keeps the tags, keeps every type in its place but
   * for station types turned into a city's subway station, adds types only
   * at the end, sets the reverse flag but never clears it, and leaves every
   * other field alone.
   */
  lemma PostRulesFrame(ct: CachedTypes, tags: seq<Tag>, rules: seq<Rule<PostAction>>, s: Attrs)
    requires KnownCities(rules)
    ensures var (out, s') := RunRules(tags, rules, PostEff(ct), s);
      && out == tags
      && Evolves(ct, s.types, s'.types)
      && (s.reverseGeometry ==> s'.reverseGeometry)
      && s'.(types := s.types, reverseGeometry := s.reverseGeometry) == s
  {
    PostEffKeepsTags(ct);
    RunRulesKeepsTags(tags, rules, PostEff(ct), s);
    var P := (x: Attrs) => Evolves(ct, s.types, x.types) && (s.reverseGeometry ==> x.reverseGeometry)
      && x.(types := s.types, reverseGeometry := s.reverseGeometry) == s;
    forall r, t, x | r in rules && Fires(r, t) && P(x)
      ensures P(PostEff(ct)(r.action, t, x).1)
    {
      var i :| 0 <= i < |rules| && rules[i] == r;
      PostEffectEvolves(ct, r.action, t, x);
      EvolvesTrans(ct, s.types, x.types, PostEff(ct)(r.action, t, x).1.types);
    }
    RunRulesInvariant(tags, rules, PostEff(ct), s, P);
  }

  /** The highway table never calls `SetRwSubwayType`. */
  lemma HighwayNoCity()
    ensures forall i :: 0 <= i < |HighwayRules()| ==> !HighwayRules()[i].action.SetSubwayCity?
  {
  }

  /** The three post-match tables name only the cities above. */
  lemma PostTablesKnownCities()
    ensures KnownCities(HighwayRules()) && KnownCities(SubwayRules()) && KnownCities(RailwayRules())
  {
    SubwayKnownCities();
  }

  lemma SubwayKnownCities()
    ensures KnownCities(SubwayRules())
    ensures forall i :: 0 <= i < |SubwayRules()| ==> SubwayRules()[i].action.SetSubwayCity?
  {
    var rules := SubwayRules();
    forall i | 0 <= i < |rules|
      ensures rules[i].action.SetSubwayCity? && rules[i].action.city in Cities
    {
      var c := rules[i].action.city;
      assert c == "london" || c == "newyork" || c == "moscow" || c == "spb" || c == "berlin" || c == "minsk"
        || c == "kiev" || c == "paris" || c == "barcelona" || c == "madrid" || c == "roma";
    }
  }

  /** The highway table sets the reverse flag only because of a oneway=-1 tag. */
  lemma HighwayReverseNeedsMinusOne(ct: CachedTypes, tags: seq<Tag>, s: Attrs)
    ensures RunRules(tags, HighwayRules(), PostEff(ct), s).1.reverseGeometry ==>
      s.reverseGeometry || exists j :: 0 <= j < |tags| && tags[j] == Tag("oneway", "-1")
  {
    if !s.reverseGeometry && forall j :: 0 <= j < |tags| ==> tags[j] != Tag("oneway", "-1") {
      PostEffKeepsTags(ct);
      RunRulesStable(tags, HighwayRules(), PostEff(ct), s, (x: Attrs) => !x.reverseGeometry);
    }
  }

  /** ... and a oneway=-1 tag always sets it, together with the one-way type. */
  lemma HighwayMinusOneSetsReverse(ct: CachedTypes, tags: seq<Tag>, s: Attrs, j: nat)
    requires j < |tags| && tags[j] == Tag("oneway", "-1")
    ensures var s' := RunRules(tags, HighwayRules(), PostEff(ct), s).1;
      s'.reverseGeometry && ct.oneway in s'.types
  {
    var rules, eff := HighwayRules(), PostEff(ct);
    var t := tags[j];
    assert tags == tags[..j] + [t] + tags[j + 1..];
    RunRulesSplit(tags[..j] + [t], tags[j + 1..], rules, eff, s);
    RunRulesSplit(tags[..j], [t], rules, eff, s);
    var s1 := RunRules(tags[..j], rules, eff, s).1;
    var s2 := RunRules([t], rules, eff, s1).1;
    HighwayMinusOneTag(ct, s1);
    assert [t][..0] == [];
    var P := (x: Attrs) => x.reverseGeometry && ct.oneway in x.types;
    HighwayNoCity();
    forall r, t', x | r in rules && Fires(r, t') && P(x)
      ensures P(eff(r.action, t', x).1)
    {
      var i :| 0 <= i < |rules| && rules[i] == r;
    }
    RunRulesInvariant(tags[j + 1..], rules, eff, s2, P);
  }

  lemma HighwayMinusOneTag(ct: CachedTypes, s: Attrs)
    ensures ApplyToTag(HighwayRules(), PostEff(ct), Tag("oneway", "-1"), s) ==
      (Tag("oneway", "-1"), s.(types := s.types + [ct.oneway], reverseGeometry := true))
  {
    OnlyOneFires(HighwayRules(), 2, PostEff(ct), Tag("oneway", "-1"), s);
  }

  /**
   * The engine does not consult `IgnoreTag`: foot=no is invisible to the
   * classificator walk, yet it fires the "!" rule.
   */
  lemma FootNoFiresDespiteIgnore(ct: CachedTypes, s: Attrs)
    ensures IgnoreTag("foot", "no")
    ensures ApplyToTag(HighwayRules(), PostEff(ct), Tag("foot", "no"), s) ==
      (Tag("foot", "no"), s.(types := s.types + [ct.nofoot]))
  {
    assert IgnoreTag("foot", "no");
    OnlyOneFires(HighwayRules(), 5, PostEff(ct), Tag("foot", "no"), s);
  }

  /**
   * No first match wins: foot=! fires both the "!" rule (by the literal
   * comparison) and the "~" rule, so both foot types are added.
   */
  lemma FootBangFiresBoth(ct: CachedTypes, s: Attrs)
    ensures ApplyToTag(HighwayRules(), PostEff(ct), Tag("foot", "!"), s) ==
      (Tag("foot", "!"), s.(types := s.types + [ct.nofoot, ct.yesfoot]))
  {
    var rules, eff, t := HighwayRules(), PostEff(ct), Tag("foot", "!");
    var r1, r2, r3 := rules[..5], rules[5..7], rules[7..];
    assert rules == r1 + r2 + r3;
    ApplyToTagSplit(r1 + r2, r3, eff, t, s);
    ApplyToTagSplit(r1, r2, eff, t, s);
    NoneFires(r1, eff, t, s);
    assert !IsNegative("!");
    assert Fires(rules[5], t) && Fires(rules[6], t);
    var s1 := s.(types := s.types + [ct.nofoot]);
    var s2 := s1.(types := s1.types + [ct.yesfoot]);
    assert r2 == [rules[5]] + [rules[6]];
    ApplyToTagSplit([rules[5]], [rules[6]], eff, t, s);
    assert ApplyToTag([rules[5]], eff, t, s) == (t, s1) by {
      assert [rules[5]][..0] == [];
    }
    assert ApplyToTag([rules[6]], eff, t, s1) == (t, s2) by {
      assert [rules[6]][..0] == [];
    }
    assert s.types + [ct.nofoot] + [ct.yesfoot] == s.types + [ct.nofoot, ct.yesfoot];
    NoneFires(r3, eff, t, s2);
  }

  /**
   * A London Underground tag makes the subway table turn the first station
   * type into London's subway-station type, and nothing else.
   */
  lemma SubwayLondon(ct: CachedTypes, s: Attrs)
    ensures ApplyToTag(SubwayRules(), PostEff(ct), Tag("network", "London Underground"), s) ==
      (Tag("network", "London Underground"), s.(types := SetRwSubwayType(s.types, ct.rwStation, ct.subway("london"))))
  {
    OnlyOneFires(SubwayRules(), 0, PostEff(ct), Tag("network", "London Underground"), s);
  }
}
