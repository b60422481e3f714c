/**
 * The two filters that decide which tags take part in classification:
 * `IgnoreTag`, applied by `ForEachTag`, and `NeedMatchValue`, which decides
 * whether a tag's value may be looked up in the classificator.
 */
module TagFilters {
  import opened Wrappers
  import opened StringUtils
  import opened OsmElements

  /** A tag's value is matched unless it is a number; numbers count only for these two keys. */
  predicate NeedMatchValue(k: string, v: string) {
    var isNumber := IsNumber(v);
    !isNumber || (isNumber && (k == "admin_level" || k == "capital"))
  }

  /** A value with any character besides digits, white space and signs is always matched. */
  lemma WordsAreMatched(k: string, v: string)
    requires exists i :: 0 <= i < |v| && !IsDigit(v[i]) && !IsSpace(v[i]) && v[i] != '-' && v[i] != '+'
    ensures NeedMatchValue(k, v)
  {
    if IsNumber(v) {
      NumberCharacters(v);
    }
  }

  /** A plain run of digits is matched only under `admin_level` and `capital`. */
  lemma DigitsMatchedForTwoKeys(k: string, v: string)
    requires v != [] && AllDigits(v)
    ensures NeedMatchValue(k, v) <==> k == "admin_level" || k == "capital"
  {
    DigitsAreNumber(v);
  }

  /** Values that make a tag invisible, unless its key is listed below. */
  const NegativeValues: seq<string> := ["no", "false", "-1"]

  /** Keys decided by the table alone: true means always ignored, false never. */
  const ProcessedKeys: seq<(string, bool)> := [
    ("description", true),
    ("cycleway", true),
    ("proposed", true),
    ("construction", true),
    ("layer", false),
    ("oneway", false)
  ]

  /** The verdict of the first table entry for key `k`, if any. */
  function LookupKey(table: seq<(string, bool)>, k: string): Option<bool>
    decreases |table|
  {
    if table == [] then None
    else if table[0].0 == k then Some(table[0].1)
    else LookupKey(table[1..], k)
  }

  /** The lookup finds nothing exactly when no entry has the key, and otherwise reports the first one. */
  lemma {:induction false} LookupKeyFirst(table: seq<(string, bool)>, k: string)
    ensures var r := LookupKey(table, k);
      && (r.None? <==> forall i :: 0 <= i < |table| ==> table[i].0 != k)
      && (r.Some? ==>
        exists i :: 0 <= i < |table| && table[i] == (k, r.value) && forall j :: 0 <= j < i ==> table[j].0 != k)
    decreases |table|
  {
    if table != [] && table[0].0 != k {
      LookupKeyFirst(table[1..], k);
      var r := LookupKey(table, k);
      assert forall i :: 1 <= i < |table| ==> table[i] == table[1..][i - 1];
      if r.Some? {
        var i :| 0 <= i < |table[1..]| && table[1..][i] == (k, r.value) && forall j :: 0 <= j < i ==> table[1..][j].0 != k;
        assert table[i + 1] == (k, r.value);
      }
    }
  }

  /**
   * A tag no pass looks at: an empty key, a key the table ignores, or a
   * negative value on a key the table does not keep.
   */
  predicate IgnoreTag(k: string, v: string) {
    || k == ""
    || k == "description" || k == "cycleway" || k == "proposed" || k == "construction"
    || (k != "layer" && k != "oneway" && (v == "no" || v == "false" || v == "-1"))
  }

  /**
   * `IgnoreTag` is the source's walk: an empty key is ignored, then the
   * first table entry for the key decides, and only then the value.
   */
  lemma IgnoreTagIsTableWalk(k: string, v: string)
    ensures IgnoreTag(k, v) <==>
      if k == "" then true
      else match LookupKey(ProcessedKeys, k)
        case Some(verdict) => verdict
        case None => v in NegativeValues
  {
    if k != "" {
      LookupKeyFirst(ProcessedKeys, k);
      var r := LookupKey(ProcessedKeys, k);
      if r.Some? {
        var i :| 0 <= i < |ProcessedKeys| && ProcessedKeys[i] == (k, r.value);
        assert i < 4 ==> r.value;
        assert 4 <= i ==> !r.value;
      } else {
        assert ProcessedKeys[0].0 != k && ProcessedKeys[1].0 != k && ProcessedKeys[2].0 != k;
        assert ProcessedKeys[3].0 != k && ProcessedKeys[4].0 != k && ProcessedKeys[5].0 != k;
      }
    }
  }

  /** A consumed tag is never seen again by a pass that goes through `ForEachTag`. */
  lemma ConsumedIsIgnored()
    ensures IgnoreTag(Consumed.key, Consumed.value)
  {
  }

  /**
   * The tags `ForEachTag` hands to its callback, in order. `ForEachTagEx`
   * numbers exactly these: its id of a tag is its position here.
   */
  function Visible(tags: seq<Tag>): (r: seq<Tag>)
    ensures |r| <= |tags|
    ensures forall j :: 0 <= j < |r| ==> !IgnoreTag(r[j].key, r[j].value) && r[j] in tags
    decreases |tags|
  {
    if tags == [] then []
    else
      var t := tags[|tags| - 1];
      var r := Visible(tags[..|tags| - 1]);
      assert forall x :: x in r ==> x in tags;
      if IgnoreTag(t.key, t.value) then r else r + [t]
  }

  /** Every tag the filter lets through is counted, so later tags get later ids. */
  lemma {:induction false} VisiblePrefix(tags: seq<Tag>, i: nat)
    requires i <= |tags|
    ensures Visible(tags[..i]) <= Visible(tags)
    decreases |tags| - i
  {
    if i < |tags| {
      VisiblePrefix(tags, i + 1);
      assert tags[..i + 1][..i] == tags[..i];
    } else {
      assert tags[..i] == tags;
    }
  }

  /** Visible(tags) is exactly the non-ignored tags, and nothing is dropped or invented. */
  lemma {:induction false} VisibleMembers(tags: seq<Tag>, t: Tag)
    ensures t in Visible(tags) <==> t in tags && !IgnoreTag(t.key, t.value)
    decreases |tags|
  {
    if tags != [] {
      VisibleMembers(tags[..|tags| - 1], t);
      assert tags == tags[..|tags| - 1] + [tags[|tags| - 1]];
    }
  }
}
