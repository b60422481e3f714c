/**
 * The `ExtractNames` pass: every visible tag whose key names a language
 * (`name`, `name:<lang>`, `int_name`) and whose value is non-empty gives
 * the feature its name in that language, and is then cleared so that no
 * later pass classifies it. Only the first tag of each language is taken;
 * a later tag of a language already seen is left as it is.
 */
module Names {
  import opened Wrappers
  import opened StringUtils
  import opened OsmElements
  import opened TagFilters
  import opened Features

  /**
   * `GetLangByKey` without its memory: the language a key names, if any.
   * The first token decides: `int_name` is its own language, `name` takes
   * the second token or `default`, and the dummy `ar1` stands for `ar`.
   */
  function LangOfKey(k: string): (r: Option<string>)
    ensures r.Some? ==> r.value != "" && NoDelimiter(r.value) && r.value != "ar1"
  {
    var toks := Tokens(k);
    if toks == [] then None
    else if toks[0] == "int_name" then Some("int_name")
    else if toks[0] != "name" then None
    else
      var lang := if |toks| > 1 then toks[1] else "default";
      if lang == "ar1" then Some("ar") else Some(lang)
  }

  /** A bare `name` key is the default language. */
  lemma LangOfPlainName()
    ensures LangOfKey("name") == Some("default")
  {
    TokensSingle("name");
  }

  /** The tokens of a `name:<lang>` key. */
  lemma SuffixedTokens(lang: string)
    requires lang != [] && NoDelimiter(lang)
    ensures Tokens("name:" + lang) == ["name", lang]
  {
    TokensPair("name", ':', lang);
    assert "name" + [':'] + lang == "name:" + lang;
  }

  /** `name:<lang>` names that language, for every language but the dummy `ar1`. */
  lemma LangOfSuffixedName(lang: string)
    requires lang != [] && NoDelimiter(lang) && lang != "ar1"
    ensures LangOfKey("name:" + lang) == Some(lang)
  {
    SuffixedTokens(lang);
  }

  /** The dummy Arabic language is read as Arabic. */
  lemma LangOfArabicName()
    ensures LangOfKey("name:ar1") == Some("ar")
  {
    SuffixedTokens("ar1");
    assert "name:" + "ar1" == "name:ar1";
  }

  /** `int_name` is a language of its own. */
  lemma LangOfIntName()
    ensures LangOfKey("int_name") == Some("int_name")
  {
    TokensSingle("int_name");
  }

  /**
   * Only the first token counts: a key names no language exactly when its
   * first token is neither `name` nor `int_name` (or it has no token), so
   * `old_name` or `name_1` names none.
   */
  lemma LangOfOtherKey(k: string)
    ensures LangOfKey(k).None? <==> Tokens(k) == [] || (Tokens(k)[0] != "name" && Tokens(k)[0] != "int_name")
  {
  }

  /** A tag the pass takes a name from, unless its language was already taken. */
  predicate IsNameTag(t: Tag) {
    !IgnoreTag(t.key, t.value) && t.value != "" && LangOfKey(t.key).Some?
  }

  function NameLang(t: Tag): string
    requires IsNameTag(t)
  {
    LangOfKey(t.key).value
  }

  /** The languages named by some tag of the list. */
  function NameLangs(tags: seq<Tag>): set<string> {
    set i | 0 <= i < |tags| && IsNameTag(tags[i]) :: NameLang(tags[i])
  }

  /** Tag i is the first tag of the list to name its language. */
  predicate IsFirstNameTag(tags: seq<Tag>, i: int) {
    0 <= i < |tags| && IsNameTag(tags[i])
    && forall j :: 0 <= j < i && IsNameTag(tags[j]) ==> NameLang(tags[j]) != NameLang(tags[i])
  }

  /**
   * The pass over the tag list: the tags as it leaves them, the languages it
   * has taken and the names. A tag is taken when it names a language not yet
   * taken; ignored tags and tags with an empty value name none.
   */
  function ExtractNamesSpec(tags: seq<Tag>, names0: map<string, string>, norm: string -> string)
    : (r: (seq<Tag>, set<string>, map<string, string>))
    ensures |r.0| == |tags|
    decreases |tags|
  {
    if tags == [] then ([], {}, names0)
    else
      var (done, saved, names) := ExtractNamesSpec(tags[..|tags| - 1], names0, norm);
      var t := tags[|tags| - 1];
      if IsNameTag(t) && NameLang(t) !in saved then
        (done + [Consumed], saved + {NameLang(t)}, names[NameLang(t) := norm(t.value)])
      else (done + [t], saved, names)
  }

  /**
   * `ForEachTag(p, ExtractNames(params))`: the callback never stops the
   * walk, so every visible tag is offered to it; a taken tag is cleared in
   * place and its normalised value stored as the name.
   */
  method ExtractNames(e: OsmElement, params: FeatureParams, norm: string -> string)
    modifies e, params`name
    ensures var r := ExtractNamesSpec(old(e.tags), old(params.name), norm);
      e.tags == r.0 && params.name == r.2
  {
    ghost var tags0 := e.tags;
    ghost var names0 := params.name;
    var saved: set<string> := {};
    var i := 0;
    while i < |e.tags|
      invariant |e.tags| == |tags0| && 0 <= i <= |tags0|
      invariant (e.tags[..i], saved, params.name) == ExtractNamesSpec(tags0[..i], names0, norm)
      invariant forall j :: i <= j < |tags0| ==> e.tags[j] == tags0[j]
    {
      ghost var r := ExtractNamesSpec(tags0[..i], names0, norm);
      var t := e.tags[i];
      ExtractNamesNext(tags0, i, names0, norm);
      // visible to ForEachTag, a non-empty value, and a key GetLangByKey reads
      if IsNameTag(t) && NameLang(t) !in saved {
        var lang := NameLang(t);
        saved := saved + {lang};
        params.AddName(lang, norm(t.value));
        e.tags := e.tags[i := Consumed];
        assert e.tags[..i + 1] == r.0 + [Consumed];
      } else {
        assert e.tags[..i + 1] == r.0 + [t];
      }
      i := i + 1;
    }
    assert e.tags[..i] == e.tags && tags0[..i] == tags0;
  }

  /** One more tag of the list, as the pass takes it. */
  lemma ExtractNamesNext(tags: seq<Tag>, i: nat, names0: map<string, string>, norm: string -> string)
    requires i < |tags|
    ensures var r := ExtractNamesSpec(tags[..i], names0, norm);
      var t := tags[i];
      ExtractNamesSpec(tags[..i + 1], names0, norm) ==
        if IsNameTag(t) && NameLang(t) !in r.1 then
          (r.0 + [Consumed], r.1 + {NameLang(t)}, r.2[NameLang(t) := norm(t.value)])
        else (r.0 + [t], r.1, r.2)
  {
    assert tags[..i + 1][..i] == tags[..i];
  }

  /** Adding a tag at the end adds its language, if it names one. */
  lemma NameLangsSnoc(p: seq<Tag>, t: Tag)
    ensures NameLangs(p + [t]) == NameLangs(p) + (if IsNameTag(t) then {NameLang(t)} else {})
  {
    var q := p + [t];
    forall l | l in NameLangs(q)
      ensures l in NameLangs(p) + (if IsNameTag(t) then {NameLang(t)} else {})
    {
      var i :| 0 <= i < |q| && IsNameTag(q[i]) && NameLang(q[i]) == l;
      if i < |p| {
        assert q[i] == p[i];
      }
    }
    forall l | l in NameLangs(p)
      ensures l in NameLangs(q)
    {
      var i :| 0 <= i < |p| && IsNameTag(p[i]) && NameLang(p[i]) == l;
      assert q[i] == p[i];
    }
    if IsNameTag(t) {
      assert q[|p|] == t;
    }
  }

  /** The languages of a non-empty list: those of all but its last tag, and the last tag's own. */
  lemma NameLangsLast(tags: seq<Tag>)
    requires tags != []
    ensures var t := tags[|tags| - 1];
      NameLangs(tags) == NameLangs(tags[..|tags| - 1]) + (if IsNameTag(t) then {NameLang(t)} else {})
  {
    NameLangsSnoc(tags[..|tags| - 1], tags[|tags| - 1]);
    assert tags == tags[..|tags| - 1] + [tags[|tags| - 1]];
  }

  /** The languages the pass remembers are exactly those some tag names. */
  lemma {:induction false} ExtractNamesSaved(tags: seq<Tag>, names0: map<string, string>, norm: string -> string)
    ensures ExtractNamesSpec(tags, names0, norm).1 == NameLangs(tags)
    decreases |tags|
  {
    if tags != [] {
      var p := tags[..|tags| - 1];
      var t := tags[|tags| - 1];
      ExtractNamesSaved(p, names0, norm);
      NameLangsLast(tags);
      var r := ExtractNamesSpec(p, names0, norm);
      if IsNameTag(t) && NameLang(t) in r.1 {
        assert r.1 + {NameLang(t)} == r.1;
      }
    }
  }

  /** In a longer list, the earlier positions keep their verdict. */
  lemma FirstNameTagPrefix(p: seq<Tag>, t: Tag, i: int)
    requires 0 <= i < |p|
    ensures IsFirstNameTag(p + [t], i) <==> IsFirstNameTag(p, i)
  {
    var q := p + [t];
    assert forall j :: 0 <= j <= i ==> q[j] == p[j];
  }

  /** The last tag is the first of its language exactly when no earlier tag names that language. */
  lemma FirstNameTagLast(p: seq<Tag>, t: Tag)
    ensures IsFirstNameTag(p + [t], |p|) <==> IsNameTag(t) && NameLang(t) !in NameLangs(p)
  {
    var q := p + [t];
    assert q[|p|] == t;
    if IsNameTag(t) && NameLang(t) in NameLangs(p) {
      var j :| 0 <= j < |p| && IsNameTag(p[j]) && NameLang(p[j]) == NameLang(t);
      assert q[j] == p[j];
    }
    if IsNameTag(t) && !IsFirstNameTag(q, |p|) {
      var j :| 0 <= j < |p| && IsNameTag(q[j]) && NameLang(q[j]) == NameLang(t);
      assert q[j] == p[j];
    }
  }

  /**
   * The pass clears exactly the first tag of each language and leaves every
   * other tag, ignored ones included, as it was.
   */
  lemma {:induction false} ExtractNamesClears(tags: seq<Tag>, names0: map<string, string>, norm: string -> string)
    ensures var out := ExtractNamesSpec(tags, names0, norm).0;
      forall i :: 0 <= i < |tags| ==> out[i] == if IsFirstNameTag(tags, i) then Consumed else tags[i]
    decreases |tags|
  {
    if tags != [] {
      var p := tags[..|tags| - 1];
      var t := tags[|tags| - 1];
      assert tags == p + [t];
      ExtractNamesClears(p, names0, norm);
      ExtractNamesSaved(p, names0, norm);
      FirstNameTagLast(p, t);
      forall i | 0 <= i < |p| {
        FirstNameTagPrefix(p, t, i);
      }
    }
  }

  /** The pass gives a name in exactly the languages it had plus those some tag names. */
  lemma {:induction false} ExtractNamesLanguages(tags: seq<Tag>, names0: map<string, string>, norm: string -> string)
    ensures ExtractNamesSpec(tags, names0, norm).2.Keys == names0.Keys + NameLangs(tags)
    decreases |tags|
  {
    if tags != [] {
      var p := tags[..|tags| - 1];
      var t := tags[|tags| - 1];
      ExtractNamesLanguages(p, names0, norm);
      ExtractNamesSaved(p, names0, norm);
      NameLangsLast(tags);
      var r := ExtractNamesSpec(p, names0, norm);
      if IsNameTag(t) && NameLang(t) !in r.1 {
        assert r.2[NameLang(t) := norm(t.value)].Keys == r.2.Keys + {NameLang(t)};
      }
    }
  }

  /** The name in each language some tag names is the normalised value of the first such tag. */
  lemma {:induction false} ExtractNamesFirstWins(tags: seq<Tag>, names0: map<string, string>, norm: string -> string)
    ensures var names := ExtractNamesSpec(tags, names0, norm).2;
      forall i :: IsFirstNameTag(tags, i) ==>
        NameLang(tags[i]) in names && names[NameLang(tags[i])] == norm(tags[i].value)
    decreases |tags|
  {
    if tags != [] {
      var p := tags[..|tags| - 1];
      var t := tags[|tags| - 1];
      assert tags == p + [t];
      ExtractNamesFirstWins(p, names0, norm);
      ExtractNamesSaved(p, names0, norm);
      FirstNameTagLast(p, t);
      var names := ExtractNamesSpec(tags, names0, norm).2;
      forall i | IsFirstNameTag(tags, i)
        ensures NameLang(tags[i]) in names && names[NameLang(tags[i])] == norm(tags[i].value)
      {
        if i < |p| {
          FirstNameTagPrefix(p, t, i);
          assert tags[i] == p[i];
          assert NameLang(p[i]) in NameLangs(p);
        }
      }
    }
  }

  /** A language no tag names keeps the name it had. */
  lemma {:induction false} ExtractNamesKeepsOthers(tags: seq<Tag>, names0: map<string, string>, norm: string -> string)
    ensures var names := ExtractNamesSpec(tags, names0, norm).2;
      forall l :: l in names0 && l !in NameLangs(tags) ==> l in names && names[l] == names0[l]
    decreases |tags|
  {
    if tags != [] {
      var p := tags[..|tags| - 1];
      var t := tags[|tags| - 1];
      assert tags == p + [t];
      ExtractNamesKeepsOthers(p, names0, norm);
      NameLangsSnoc(p, t);
    }
  }

  /** A lone name tag is taken. */
  lemma LoneNameTaken(t: Tag, names0: map<string, string>, norm: string -> string)
    requires IsNameTag(t)
    ensures ExtractNamesSpec([t], names0, norm) == ([Consumed], {NameLang(t)}, names0[NameLang(t) := norm(t.value)])
  {
    assert [t][..0] == [] && [t][..1] == [t];
    ExtractNamesNext([t], 0, names0, norm);
    assert ExtractNamesSpec([], names0, norm) == ([], {}, names0);
    assert [] + [Consumed] == [Consumed] && {} + {NameLang(t)} == {NameLang(t)};
  }

  /**
   * Of two tags naming the same language, the first is taken and cleared;
   * the second gives no name and stays on the element as it was.
   */
  lemma SecondNameKept(t1: Tag, t2: Tag, names0: map<string, string>, norm: string -> string)
    requires IsNameTag(t1) && IsNameTag(t2) && NameLang(t1) == NameLang(t2)
    ensures ExtractNamesSpec([t1, t2], names0, norm) ==
      ([Consumed, t2], {NameLang(t1)}, names0[NameLang(t1) := norm(t1.value)])
  {
    var tags := [t1, t2];
    assert tags[..1] == [t1] && tags[..2] == tags;
    LoneNameTaken(t1, names0, norm);
    ExtractNamesNext(tags, 1, names0, norm);
    assert [Consumed] + [t2] == [Consumed, t2];
  }

  /** A `name:en` tag with a value that is neither empty nor negative names English. */
  lemma EnglishNameTag(v: string)
    requires v != "" && v != "no" && v != "false" && v != "-1"
    ensures IsNameTag(Tag("name:en", v)) && NameLang(Tag("name:en", v)) == "en"
  {
    LangOfSuffixedName("en");
    assert "name:" + "en" == "name:en";
  }
}
