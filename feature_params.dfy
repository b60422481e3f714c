/**
 * The output record of one classification call. `Attrs` is its value; the
 * class `FeatureParams` holds the same fields and is what the engine
 * updates in place. The record's own methods live in a file that is not
 * part of this model; each is given here the effect its name and its use
 * in osm2type.cpp call for.
 */
module Features {
  import opened Classif

  datatype Attrs = Attrs(
    types: seq<TypeCode>,
    name: map<string, string>,
    house: string,
    houseName: string,
    street: string,
    flats: string,
    ref: string,
    layer: int,
    rank: nat,
    reverseGeometry: bool)

  const EmptyAttrs: Attrs := Attrs([], map[], "", "", "", "", "", 0, 0, false)

  /** The list with every occurrence of `t` taken out, order kept. */
  function RemoveAll(ts: seq<TypeCode>, t: TypeCode): (r: seq<TypeCode>)
    ensures forall x :: x in r <==> x in ts && x != t
    ensures |r| <= |ts|
    ensures t !in ts ==> r == ts
    decreases |ts|
  {
    if ts == [] then []
    else
      var rest := RemoveAll(ts[..|ts| - 1], t);
      var last := ts[|ts| - 1];
      assert ts == ts[..|ts| - 1] + [last];
      if last == t then rest else rest + [last]
  }

  predicate NoDuplicates(ts: seq<TypeCode>) {
    forall i, j :: 0 <= i < j < |ts| ==> ts[i] != ts[j]
  }

  /** The list with each code kept at its first occurrence only. */
  function Dedup(ts: seq<TypeCode>): (r: seq<TypeCode>)
    ensures NoDuplicates(r)
    ensures forall x :: x in r <==> x in ts
    ensures |r| <= |ts|
    decreases |ts|
  {
    if ts == [] then []
    else
      var rest := Dedup(ts[..|ts| - 1]);
      var last := ts[|ts| - 1];
      assert ts == ts[..|ts| - 1] + [last];
      if last in rest then rest else rest + [last]
  }

  /** Position `i` holds the first type of `ts` that, cut to two levels, is `station`. */
  predicate FirstStation(ts: seq<TypeCode>, station: TypeCode, i: nat) {
    i < |ts| && TruncValue(ts[i], 2) == station && forall j :: 0 <= j < i ==> TruncValue(ts[j], 2) != station
  }

  /**
   * `SetRwSubwayType`: the first type that is the railway station or lies
   * below it takes the city's subway-station type `dest`; without such a
   * type nothing changes.
   */
  function SetRwSubwayType(ts: seq<TypeCode>, station: TypeCode, dest: TypeCode): (r: seq<TypeCode>)
    decreases |ts|
  {
    if ts == [] then []
    else if TruncValue(ts[0], 2) == station then [dest] + ts[1..]
    else [ts[0]] + SetRwSubwayType(ts[1..], station, dest)
  }

  /** The first station type is the one that changes. */
  lemma {:induction false} SetRwSubwayTypeAt(ts: seq<TypeCode>, station: TypeCode, dest: TypeCode, i: nat)
    requires FirstStation(ts, station, i)
    ensures SetRwSubwayType(ts, station, dest) == ts[i := dest]
    decreases i
  {
    if i > 0 {
      assert TruncValue(ts[0], 2) != station;
      assert FirstStation(ts[1..], station, i - 1) by {
        forall j | 0 <= j < i - 1
          ensures TruncValue(ts[1..][j], 2) != station
        {
          assert ts[1..][j] == ts[j + 1];
        }
      }
      SetRwSubwayTypeAt(ts[1..], station, dest, i - 1);
      assert [ts[0]] + ts[1..][i - 1 := dest] == ts[i := dest];
    }
  }

  /** Without a station type, nothing changes. */
  lemma {:induction false} SetRwSubwayTypeNone(ts: seq<TypeCode>, station: TypeCode, dest: TypeCode)
    requires forall i :: 0 <= i < |ts| ==> TruncValue(ts[i], 2) != station
    ensures SetRwSubwayType(ts, station, dest) == ts
    decreases |ts|
  {
    if ts != [] {
      assert TruncValue(ts[0], 2) != station;
      assert forall i :: 0 <= i < |ts| - 1 ==> ts[1..][i] == ts[i + 1];
      SetRwSubwayTypeNone(ts[1..], station, dest);
      assert [ts[0]] + ts[1..] == ts;
    }
  }

  /** Position by position: a type stays, or it was a station type and is now `dest`. */
  lemma {:induction false} SetRwSubwayTypeEach(ts: seq<TypeCode>, station: TypeCode, dest: TypeCode)
    ensures var r := SetRwSubwayType(ts, station, dest);
      && |r| == |ts|
      && forall i :: 0 <= i < |ts| ==> r[i] == ts[i] || (TruncValue(ts[i], 2) == station && r[i] == dest)
    decreases |ts|
  {
    if ts != [] && TruncValue(ts[0], 2) != station {
      SetRwSubwayTypeEach(ts[1..], station, dest);
      var r := SetRwSubwayType(ts, station, dest);
      forall i | 0 <= i < |ts|
        ensures r[i] == ts[i] || (TruncValue(ts[i], 2) == station && r[i] == dest)
      {
        if i > 0 {
          assert r[i] == SetRwSubwayType(ts[1..], station, dest)[i - 1] && ts[i] == ts[1..][i - 1];
        }
      }
    }
  }

  class FeatureParams {
    var types: seq<TypeCode>
    var name: map<string, string>
    var house: string
    var houseName: string
    var street: string
    var flats: string
    var ref: string
    var layer: int
    var rank: nat
    var reverseGeometry: bool

    function View(): Attrs
      reads this
    {
      Attrs(types, name, house, houseName, street, flats, ref, layer, rank, reverseGeometry)
    }

    constructor ()
      ensures View() == EmptyAttrs
    {
      types, name, house, houseName, street, flats, ref := [], map[], "", "", "", "", "";
      layer, rank, reverseGeometry := 0, 0, false;
    }

    /** Overwrites every field with the given record. */
    method Load(a: Attrs)
      modifies this
      ensures View() == a
    {
      types, name, house, houseName, street, flats, ref := a.types, a.name, a.house, a.houseName, a.street, a.flats, a.ref;
      layer, rank, reverseGeometry := a.layer, a.rank, a.reverseGeometry;
    }

    /** `AddType`: appends a type; duplicates are left for `FinishAddingTypes`. */
    method AddType(t: TypeCode)
      modifies this`types
      ensures types == old(types) + [t]
    {
      types := types + [t];
    }

    /** `PopExactType`: removes every occurrence of `t`; reports whether no type is left. */
    method PopExactType(t: TypeCode) returns (empty: bool)
      modifies this`types
      ensures types == RemoveAll(old(types), t)
      ensures empty <==> types == []
    {
      types := RemoveAll(types, t);
      empty := types == [];
    }

    /** `AddName`: the name in language `lang`. */
    method AddName(lang: string, s: string)
      modifies this`name
      ensures name == old(name)[lang := s]
    {
      name := name[lang := s];
    }

    /** `name.Clear()`: forgets every language's name. */
    method ClearName()
      modifies this`name
      ensures name == map[]
    {
      name := map[];
    }

    /** `FinishAddingTypes`: each type kept once. */
    method FinishAddingTypes()
      modifies this`types
      ensures types == Dedup(old(types))
    {
      types := Dedup(types);
    }
  }
}
