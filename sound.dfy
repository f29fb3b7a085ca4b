/** The sound clip record (TYTSoundboard/soundModel/Sound.swift): the search
    predicate, the failable constructor from a JSON dictionary, and the batch
    loaders over an array of dictionaries and over a parsed JSON document. */
module SoundModel {
  import opened Wrappers
  import opened Text

  /** A clip: the file name and three optional metadata fields. */
  datatype Sound = Sound(name: string, speaker: Option<string>, text: Option<string>, clipDescription: Option<string>)

  /** Keys of the bundled JSON document. */
  const NameKey: string := "name"
  const SpeakerKey: string := "speaker"
  const TextKey: string := "text"
  const DescriptionKey: string := "description"
  const SoundsKey: string := "sounds"

  /** A value produced by JSONSerialization. Numbers are kept abstract as integers. */
  datatype Json =
    | JNull
    | JBool(b: bool)
    | JNumber(n: int)
    | JString(str: string)
    | JArray(elems: seq<Json>)
    | JObject(fields: map<string, Json>)

  // ---------------------------------------------------------------- search

  /** `field?.lowercased().contains(lowercasedSearch) ?? false` */
  function FieldContains(field: Option<string>, lowercasedSearch: string): bool
  {
    match field
    case None => false
    case Some(f) => Contains(LowerStr(f), lowercasedSearch)
  }

  /** An optional field that is present and contains `search`, ignoring case. */
  ghost predicate FieldMatches(field: Option<string>, search: string)
  {
    field.Some? && OccursIgnoringCase(field.value, search)
  }

  lemma FieldContainsLowered(field: Option<string>, search: string)
    ensures FieldContains(field, LowerStr(search)) <==> FieldMatches(field, search)
  {
    if field.Some? { ContainsLowered(field.value, search); }
  }

  /** shouldFilter(by:): whether the clip contains the search text in any field. */
  function ShouldFilter(sound: Sound, search: string): (r: bool)
    ensures r <==> OccursIgnoringCase(sound.name, search)
                   || FieldMatches(sound.speaker, search)
                   || FieldMatches(sound.text, search)
                   || FieldMatches(sound.clipDescription, search)
  {
    var lowercasedSearch := LowerStr(search);
    ContainsLowered(sound.name, search);
    FieldContainsLowered(sound.speaker, search);
    FieldContainsLowered(sound.text, search);
    FieldContainsLowered(sound.clipDescription, search);
    Contains(LowerStr(sound.name), lowercasedSearch)
    || FieldContains(sound.speaker, lowercasedSearch)
    || FieldContains(sound.text, lowercasedSearch)
    || FieldContains(sound.clipDescription, lowercasedSearch)
  }

  /** A name that contains the search text is enough, whatever the other fields hold. */
  lemma NameMatchSuffices(sound: Sound, search: string)
    requires OccursIgnoringCase(sound.name, search)
    ensures ShouldFilter(sound, search)
  {
  }

  /** Absent optional fields never contribute: with all three absent, only the name decides. */
  lemma AbsentFieldsNeverMatch(name: string, search: string)
    ensures ShouldFilter(Sound(name, None, None, None), search) <==> OccursIgnoringCase(name, search)
  {
  }

  /** The search does not depend on the case of the search text. */
  lemma ShouldFilterIgnoresSearchCase(sound: Sound, search: string)
    ensures ShouldFilter(sound, LowerStr(search)) == ShouldFilter(sound, search)
  {
    forall s: string, p: nat ensures MatchAt(s, LowerStr(search), p, true) <==> MatchAt(s, search, p, true) {
      MatchAtChars(s, LowerStr(search), p, true);
      MatchAtChars(s, search, p, true);
    }
  }

  /** An empty search text matches no clip: Foundation never finds an empty string. */
  lemma EmptySearchMatchesNothing(sound: Sound)
    ensures !ShouldFilter(sound, "")
  {
  }

  // ---------------------------------------------------------------- JSON record

  /** `dict[key]` as an optional value. */
  function Lookup(dict: map<string, string>, key: string): Option<string>
  {
    if key in dict then Some(dict[key]) else None
  }

  /** init?(json:): nil without a "name" key; the optional fields come from their keys. */
  function FromJson(dict: map<string, string>): (r: Option<Sound>)
    ensures r.None? <==> NameKey !in dict
    ensures r.Some? ==> r.value.name == dict[NameKey]
    ensures r.Some? ==> r.value.speaker == Lookup(dict, SpeakerKey)
    ensures r.Some? ==> r.value.text == Lookup(dict, TextKey)
    ensures r.Some? ==> r.value.clipDescription == Lookup(dict, DescriptionKey)
  {
    if NameKey !in dict then None
    else Some(Sound(dict[NameKey], Lookup(dict, SpeakerKey), Lookup(dict, TextKey), Lookup(dict, DescriptionKey)))
  }

  /** The dictionary that describes a clip: one key per present field. */
  function ToJson(sound: Sound): (d: map<string, string>)
    ensures NameKey in d
  {
    var d := map[NameKey := sound.name];
    var d := if sound.speaker.Some? then d[SpeakerKey := sound.speaker.value] else d;
    var d := if sound.text.Some? then d[TextKey := sound.text.value] else d;
    if sound.clipDescription.Some? then d[DescriptionKey := sound.clipDescription.value] else d
  }

  /** Reading back the dictionary of a clip gives the same clip. */
  lemma FromJsonToJson(sound: Sound)
    ensures FromJson(ToJson(sound)) == Some(sound)
  {
  }

  /** A key other than the four known ones does not change the clip. */
  lemma FromJsonIgnoresOtherKeys(dict: map<string, string>, key: string, value: string)
    requires key !in {NameKey, SpeakerKey, TextKey, DescriptionKey}
    ensures FromJson(dict[key := value]) == FromJson(dict)
  {
  }

  /** A successful read keeps exactly the known keys' values: reading back the
      clip's own dictionary gives the input restricted to those keys. */
  lemma FromJsonKeepsKnownKeys(dict: map<string, string>)
    requires NameKey in dict
    ensures ToJson(FromJson(dict).value)
            == map k | k in dict && k in {NameKey, SpeakerKey, TextKey, DescriptionKey} :: dict[k]
  {
  }

  // ---------------------------------------------------------------- batch

  /** The clips read from an array of dictionaries, in order, skipping those without a name. */
  function ClipsOf(dicts: seq<map<string, string>>): seq<Sound>
  {
    if dicts == [] then []
    else
      var rest := ClipsOf(dicts[..|dicts| - 1]);
      match FromJson(dicts[|dicts| - 1])
      case None => rest
      case Some(sound) => rest + [sound]
  }

  /** The number of dictionaries that have a "name" key. */
  function NamedCount(dicts: seq<map<string, string>>): nat
  {
    if dicts == [] then 0
    else NamedCount(dicts[..|dicts| - 1]) + (if NameKey in dicts[|dicts| - 1] then 1 else 0)
  }

  /** Reading a concatenation reads each part in turn: input order is kept. */
  lemma {:induction false} ClipsOfAppend(a: seq<map<string, string>>, b: seq<map<string, string>>)
    ensures ClipsOf(a + b) == ClipsOf(a) + ClipsOf(b)
    decreases |b|
  {
    if b == [] {
      assert a + b == a;
    } else {
      var b' := b[..|b| - 1];
      assert (a + b)[..|a + b| - 1] == a + b';
      assert (a + b)[|a + b| - 1] == b[|b| - 1];
      ClipsOfAppend(a, b');
    }
  }

  /** One dictionary gives its clip, or nothing when it has no name. */
  lemma ClipsOfSingle(dict: map<string, string>)
    ensures ClipsOf([dict]) == if NameKey in dict then [FromJson(dict).value] else []
  {
  }

  /** One clip per dictionary that has a name. */
  lemma {:induction false} ClipsOfLength(dicts: seq<map<string, string>>)
    ensures |ClipsOf(dicts)| == NamedCount(dicts)
    decreases |dicts|
  {
    if dicts != [] { ClipsOfLength(dicts[..|dicts| - 1]); }
  }

  /** No clips exactly when no dictionary has a name. */
  lemma {:induction false} ClipsOfEmpty(dicts: seq<map<string, string>>)
    ensures ClipsOf(dicts) == [] <==> forall i :: 0 <= i < |dicts| ==> NameKey !in dicts[i]
    decreases |dicts|
  {
    if dicts != [] {
      var init := dicts[..|dicts| - 1];
      ClipsOfEmpty(init);
      assert forall i :: 0 <= i < |init| ==> init[i] == dicts[i];
    }
  }

  /** allClips(json:): the clips of the named dictionaries, in order, or nil when there are none. */
  method AllClips(dicts: seq<map<string, string>>) returns (r: Option<seq<Sound>>)
    ensures r.None? <==> forall i :: 0 <= i < |dicts| ==> NameKey !in dicts[i]
    ensures r.Some? ==> r.value == ClipsOf(dicts) && r.value != []
    ensures r.None? ==> ClipsOf(dicts) == []
  {
    var tmpArray: seq<Sound> := [];
    for i := 0 to |dicts|
      invariant tmpArray == ClipsOf(dicts[..i])
    {
      assert dicts[..i + 1][..i] == dicts[..i];
      var sound := FromJson(dicts[i]);
      if sound.Some? {
        tmpArray := tmpArray + [sound.value];
      }
    }
    assert dicts[..|dicts|] == dicts;
    ClipsOfEmpty(dicts);
    if tmpArray == [] {
      return None;
    }
    return Some(tmpArray);
  }

  // ---------------------------------------------------------------- document shape

  /** `as? Dictionary<String, String>`: an object whose values are all strings. */
  function AsStringDict(j: Json): (r: Option<map<string, string>>)
    ensures r.Some? <==> j.JObject? && forall k :: k in j.fields ==> j.fields[k].JString?
    ensures r.Some? ==> r.value.Keys == j.fields.Keys
    ensures r.Some? ==> forall k :: k in r.value ==> j.fields[k] == JString(r.value[k])
  {
    match j
    case JObject(fields) =>
      if forall k :: k in fields ==> fields[k].JString? then Some(map k | k in fields :: fields[k].str) else None
    case _ => None
  }

  /** `as? Array<Dictionary<String, String>>`: every element must convert, or the cast fails. */
  function AsStringDictArray(elems: seq<Json>): (r: Option<seq<map<string, string>>>)
    ensures r.Some? <==> forall i :: 0 <= i < |elems| ==> AsStringDict(elems[i]).Some?
    ensures r.Some? ==> |r.value| == |elems|
    ensures r.Some? ==> forall i :: 0 <= i < |elems| ==> AsStringDict(elems[i]) == Some(r.value[i])
  {
    if elems == [] then Some([])
    else
      match AsStringDict(elems[0])
      case None => None
      case Some(d) =>
        match AsStringDictArray(elems[1..])
        case None => None
        case Some(rest) => Some([d] + rest)
  }

  /** The "sounds" array of a document: a top-level object holding an array of string dictionaries. */
  function SoundsArray(doc: Json): (r: Option<seq<map<string, string>>>)
    ensures r.Some? <==> doc.JObject? && SoundsKey in doc.fields && doc.fields[SoundsKey].JArray?
                         && AsStringDictArray(doc.fields[SoundsKey].elems).Some?
    ensures r.Some? ==> r == AsStringDictArray(doc.fields[SoundsKey].elems)
  {
    if doc.JObject? && SoundsKey in doc.fields && doc.fields[SoundsKey].JArray? then
      AsStringDictArray(doc.fields[SoundsKey].elems)
    else None
  }

  /** allClips(data:): `doc` is what JSONSerialization produced, None when it threw.
      Without the expected shape the result is nil; otherwise allClips(json:) decides. */
  method AllClipsFromData(doc: Option<Json>) returns (r: Option<seq<Sound>>)
    ensures doc.None? ==> r.None?
    ensures doc.Some? && SoundsArray(doc.value).None? ==> r.None?
    ensures r.Some? ==> doc.Some? && SoundsArray(doc.value).Some?
    ensures r.Some? ==> r.value == ClipsOf(SoundsArray(doc.value).value) && r.value != []
    ensures doc.Some? && SoundsArray(doc.value).Some? && ClipsOf(SoundsArray(doc.value).value) != [] ==> r.Some?
  {
    if doc.Some? {
      var jsonArray := SoundsArray(doc.value);
      if jsonArray.Some? {
        r := AllClips(jsonArray.value);
        return;
      }
    }
    return None;
  }

  /** The document {"sounds":[{"name":"Bark"},{"speaker":"Rex"}]} gives the one clip "Bark". */
  lemma BarkExample()
    ensures var doc := JObject(map[SoundsKey := JArray([JObject(map[NameKey := JString("Bark")]),
                                                        JObject(map[SpeakerKey := JString("Rex")])])]);
            SoundsArray(doc).Some? && ClipsOf(SoundsArray(doc).value) == [Sound("Bark", None, None, None)]
  {
    var e0 := JObject(map[NameKey := JString("Bark")]);
    var e1 := JObject(map[SpeakerKey := JString("Rex")]);
    var d0 := map[NameKey := "Bark"];
    var d1 := map[SpeakerKey := "Rex"];
    assert e0.fields.Keys == {NameKey};
    assert e1.fields.Keys == {SpeakerKey};
    assert (map k | k in e0.fields :: e0.fields[k].str) == d0;
    assert (map k | k in e1.fields :: e1.fields[k].str) == d1;
    assert AsStringDict(e0) == Some(d0);
    assert AsStringDict(e1) == Some(d1);
    assert [e0, e1][1..] == [e1];
    assert [e1][1..] == [];
    assert AsStringDictArray([]) == Some([]);
    assert AsStringDictArray([e1]) == Some([d1] + []);
    assert [d1] + [] == [d1];
    var elems := [e0, e1];
    assert elems[0] == e0 && elems[1..] == [e1];
    assert AsStringDict(elems[0]) == Some(d0);
    assert AsStringDictArray(elems[1..]) == Some([d1]);
    assert AsStringDictArray(elems) == Some([d0] + [d1]);
    assert [d0] + [d1] == [d0, d1];
    assert NameKey !in d1;
    ClipsOfAppend([d0], [d1]);
    ClipsOfSingle(d0);
    ClipsOfSingle(d1);
    assert [d0] + [d1] == [d0, d1];
  }
}
