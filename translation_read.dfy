/**
  `TranslatedFieldsReadMixin`: the read side of the multilingual serializers.
  `to_representation` replaces each translatable field by its value in the
  request language (always `uz`), drops every per-language key, and fills the
  media fields from the Media rows of the instance.
 */
module TranslationRead {
  import opened Strings
  import opened Values
  import opened Media
  import opened TranslationWrite

  /** `_get_language`: the read language is fixed, whatever the request says. */
  function ReadLanguage(): string
  {
    "uz"
  }

  /**
    `lang_map.get(language)` for `lang_map = {code.lower(): code}`: the last
    configured code whose lower-case form is `language`, if any.
   */
  function DbLanguage(language: string, langs: seq<Language>): Option<string>
    decreases |langs|
  {
    if |langs| == 0 then None
    else if Lower(langs[|langs| - 1].code) == language then Some(langs[|langs| - 1].code)
    else DbLanguage(language, langs[..|langs| - 1])
  }

  /** A code is found exactly when some configured code lower-cases to it, and what is found is configured. */
  lemma {:induction false} DbLanguageFound(language: string, langs: seq<Language>)
    ensures DbLanguage(language, langs).Some? <==> exists j :: 0 <= j < |langs| && Lower(langs[j].code) == language
    ensures DbLanguage(language, langs).Some? ==>
              exists j :: 0 <= j < |langs| && langs[j].code == DbLanguage(language, langs).value
                          && Lower(langs[j].code) == language
    decreases |langs|
  {
    if |langs| > 0 {
      var init := langs[..|langs| - 1];
      DbLanguageFound(language, init);
      assert forall j :: 0 <= j < |init| ==> init[j] == langs[j];
      if DbLanguage(language, langs).Some? && Lower(langs[|langs| - 1].code) == language {
        assert langs[|langs| - 1].code == DbLanguage(language, langs).value;
      }
    }
  }

  /** With distinct lower-cased codes, the stored code of language `langs[j]` is looked up from its lower-case form. */
  lemma {:induction false} DbLanguageOfCode(langs: seq<Language>, j: int)
    requires CodesWellFormed(langs) && 0 <= j < |langs|
    ensures DbLanguage(Lower(langs[j].code), langs) == Some(langs[j].code)
    decreases |langs|
  {
    if j < |langs| - 1 {
      var init := langs[..|langs| - 1];
      assert Lower(langs[j].code) != Lower(langs[|langs| - 1].code);
      assert init[j] == langs[j];
      assert CodesWellFormed(init);
      DbLanguageOfCode(init, j);
    }
  }

  /** The media kind `_get_media` queries: that of the field name, without its trailing `s` letters when it is a list. */
  function ReadKind(f: string): MediaKind
  {
    KindOf(if IsListName(f) then RStrip(f, 's') else f)
  }

  /** The read side queries the kind the write side saved under. */
  lemma ReadKindIsKindOf(f: string)
    ensures ReadKind(f) == KindOf(f)
  {
    KindOfIgnoresTrailingS(f);
  }

  /**
    The `language` column the query asks for: `lang_map.get(language)` for a
    truthy request language (which is null when it is not configured), null
    for the shared media.
   */
  function QueryLanguage(language: Option<string>, langs: seq<Language>): Option<string>
  {
    if language.Some? && language.value != "" then DbLanguage(language.value, langs) else None
  }

  predicate Matches(r: MediaRow, owner: Owner, kind: MediaKind, language: Option<string>)
  {
    r.owner == owner && r.kind == kind && r.language == language
  }

  /** `instance.media_files.filter(media_type=kind, language=...)`, in table order. */
  function Query(rows: seq<MediaRow>, owner: Owner, kind: MediaKind, language: Option<string>): (q: seq<MediaRow>)
    ensures forall r :: r in q <==> r in rows && Matches(r, owner, kind, language)
    ensures |q| <= |rows|
  {
    if |rows| == 0 then []
    else
      var rest := Query(rows[..|rows| - 1], owner, kind, language);
      var last := rows[|rows| - 1];
      assert rows == rows[..|rows| - 1] + [last];
      if Matches(last, owner, kind, language) then rest + [last] else rest
  }

  /** The dict built for one row; `url` is null when the row has no truthy file. */
  function AsItem(r: MediaRow, urlOf: Upload -> string): (item: MediaItem)
    ensures ParseNat(item.id) == r.id
    ensures item.url.None? <==> !(r.file.Some? && UploadTruthy(r.file.value))
    ensures item.url.Some? ==> item.url.value == urlOf(r.file.value)
    ensures item.filename == r.originalFilename && item.size == r.fileSize
    ensures item.kind == r.kind && item.language == r.language
  {
    ParseNatToString(r.id);
    MediaItem(
      NatToString(r.id),
      if r.file.Some? && UploadTruthy(r.file.value) then Some(urlOf(r.file.value)) else None,
      r.originalFilename, r.fileSize, r.kind, r.language)
  }

  /**
    `_get_media`: a list of items for a list-named field, otherwise the first
    matching row as one item, or null.
   */
  function GetMedia(rows: seq<MediaRow>, owner: Owner, f: string, language: Option<string>, langs: seq<Language>,
                    urlOf: Upload -> string): Value
  {
    var q := Query(rows, owner, ReadKind(f), QueryLanguage(language, langs));
    if IsListName(f) then Items(seq(|q|, i requires 0 <= i < |q| => AsItem(q[i], urlOf)))
    else if |q| > 0 then Item(AsItem(q[0], urlOf))
    else Null
  }

  /**
    What `_get_media` returns: for a list-named field one item per matching row,
    in table order; otherwise the first matching row, or null when none matches.
   */
  lemma GetMediaShape(rows: seq<MediaRow>, owner: Owner, f: string, language: Option<string>, langs: seq<Language>,
                      urlOf: Upload -> string)
    ensures var v := GetMedia(rows, owner, f, language, langs, urlOf);
      var q := Query(rows, owner, KindOf(f), QueryLanguage(language, langs));
      && (IsListName(f) ==>
            && v.Items? && |v.items| == |q|
            && (forall i :: 0 <= i < |q| ==> v.items[i] == AsItem(q[i], urlOf) && v.items[i].kind == KindOf(f)))
      && (!IsListName(f) ==> (v.Null? <==> |q| == 0))
      && (!IsListName(f) && |q| > 0 ==> v == Item(AsItem(q[0], urlOf)))
  {
    ReadKindIsKindOf(f);
  }

  // ---------------------------------------------------------------------
  // `to_representation`, as a specification.
  // ---------------------------------------------------------------------

  /** The instance attribute a text field is read from: `f"{field_name}_{lang}"`. */
  function TextKey(f: string): string
  {
    f + "_" + ReadLanguage()
  }

  /** `data[field] = value if value else ''`, when the instance has the attribute. */
  function ReadText(data: map<string, Value>, attrs: map<string, Value>, f: string): map<string, Value>
  {
    var k := TextKey(f);
    if k in attrs then data[f := if Truthy(attrs[k]) then attrs[k] else Text("")] else data
  }

  /** How the loop over the translatable fields sets field `f`: its media in the read language, or its text. */
  function FieldReading(data: map<string, Value>, inst: Instance, rows: seq<MediaRow>, f: string, media: seq<string>,
                        langs: seq<Language>, urlOf: Upload -> string): map<string, Value>
  {
    if f in media then data[f := GetMedia(rows, inst.owner, f, Some(ReadLanguage()), langs, urlOf)]
    else ReadText(data, inst.attrs, f)
  }

  /** One iteration of the loop over the translatable fields: set `f`, then drop its per-language keys. */
  function ReadOne(data: map<string, Value>, inst: Instance, rows: seq<MediaRow>, f: string, media: seq<string>,
                   langs: seq<Language>, urlOf: Upload -> string): map<string, Value>
  {
    FieldReading(data, inst, rows, f, media, langs, urlOf) - (set j | 0 <= j < |langs| :: LangKey(f, langs[j].code))
  }

  function ReadTranslatable(data: map<string, Value>, inst: Instance, rows: seq<MediaRow>, tf: seq<string>,
                            media: seq<string>, langs: seq<Language>, urlOf: Upload -> string): map<string, Value>
    decreases |tf|
  {
    if |tf| == 0 then data
    else ReadTranslatable(ReadOne(data, inst, rows, tf[0], media, langs, urlOf), inst, rows, tf[1..], media, langs, urlOf)
  }

  function ReadShared(data: map<string, Value>, inst: Instance, rows: seq<MediaRow>, tf: seq<string>,
                      media: seq<string>, langs: seq<Language>, urlOf: Upload -> string): map<string, Value>
    decreases |media|
  {
    if |media| == 0 then data
    else
      var next := if media[0] !in tf then data[media[0] := GetMedia(rows, inst.owner, media[0], None, langs, urlOf)] else data;
      ReadShared(next, inst, rows, tf, media[1..], langs, urlOf)
  }

  /** The dict `to_representation` returns, from the dict the base serializer produced. */
  function Represent(base: map<string, Value>, inst: Instance, rows: seq<MediaRow>, tf: seq<string>,
                     media: seq<string>, langs: seq<Language>, urlOf: Upload -> string): map<string, Value>
  {
    ReadShared(ReadTranslatable(base, inst, rows, tf, media, langs, urlOf), inst, rows, tf, media, langs, urlOf)
  }

  /** `to_representation`. */
  method ToRepresentation(base: map<string, Value>, inst: Instance, rows: seq<MediaRow>, tf: seq<string>,
                          media: seq<string>, langs: seq<Language>, urlOf: Upload -> string)
    returns (data: map<string, Value>)
    ensures data == Represent(base, inst, rows, tf, media, langs, urlOf)
  {
    data := base;
    var i := 0;
    while i < |tf|
      invariant 0 <= i <= |tf|
      invariant ReadTranslatable(data, inst, rows, tf[i..], media, langs, urlOf)
                == ReadTranslatable(base, inst, rows, tf, media, langs, urlOf)
    {
      assert tf[i..][1..] == tf[i + 1..];
      data := ReadField(data, inst, rows, tf[i], media, langs, urlOf);
      i := i + 1;
    }
    var m := 0;
    while m < |media|
      invariant 0 <= m <= |media|
      invariant ReadShared(data, inst, rows, tf, media[m..], langs, urlOf)
                == Represent(base, inst, rows, tf, media, langs, urlOf)
    {
      assert media[m..][1..] == media[m + 1..];
      if media[m] !in tf {
        data := data[media[m] := GetMedia(rows, inst.owner, media[m], None, langs, urlOf)];
      }
      m := m + 1;
    }
  }

  /** The body of the loop over the translatable fields. */
  method ReadField(data: map<string, Value>, inst: Instance, rows: seq<MediaRow>, f: string, media: seq<string>,
                   langs: seq<Language>, urlOf: Upload -> string)
    returns (d: map<string, Value>)
    ensures d == ReadOne(data, inst, rows, f, media, langs, urlOf)
  {
    d := data;
    var lang := ReadLanguage();
    if f in media {
      d := d[f := GetMedia(rows, inst.owner, f, Some(lang), langs, urlOf)];
    } else {
      var key := f + "_" + lang;
      if key in inst.attrs {
        var value := inst.attrs[key];
        d := d[f := if Truthy(value) then value else Text("")];
      }
    }
    ghost var d1 := d;
    var j := 0;
    while j < |langs|
      invariant 0 <= j <= |langs|
      invariant d == d1 - (set a | 0 <= a < j :: LangKey(f, langs[a].code))
    {
      d := d - {LangKey(f, langs[j].code)};
      j := j + 1;
    }
  }

  // What each key of the representation holds, for a well-formed declaration.

  lemma ReadOneFrame(data: map<string, Value>, inst: Instance, rows: seq<MediaRow>, f: string, media: seq<string>,
                     langs: seq<Language>, urlOf: Upload -> string, k: string)
    requires k != f && k !in LangKeys(f, langs)
    ensures (k in ReadOne(data, inst, rows, f, media, langs, urlOf)) == (k in data)
    ensures k in data ==> ReadOne(data, inst, rows, f, media, langs, urlOf)[k] == data[k]
  {
    assert k !in (set j | 0 <= j < |langs| :: LangKey(f, langs[j].code));
  }

  lemma {:induction false} ReadTranslatableFrame(data: map<string, Value>, inst: Instance, rows: seq<MediaRow>, tf: seq<string>,
                                                 media: seq<string>, langs: seq<Language>, urlOf: Upload -> string, k: string)
    requires k !in tf
    requires forall i, j :: 0 <= i < |tf| && 0 <= j < |langs| ==> k != LangKey(tf[i], langs[j].code)
    ensures (k in ReadTranslatable(data, inst, rows, tf, media, langs, urlOf)) == (k in data)
    ensures k in data ==> ReadTranslatable(data, inst, rows, tf, media, langs, urlOf)[k] == data[k]
    decreases |tf|
  {
    if |tf| > 0 {
      assert forall j :: 0 <= j < |langs| ==> LangKeys(tf[0], langs)[j] != k;
      ReadOneFrame(data, inst, rows, tf[0], media, langs, urlOf, k);
      forall i, j | 0 <= i < |tf[1..]| && 0 <= j < |langs|
        ensures k != LangKey(tf[1..][i], langs[j].code)
      {
        assert tf[1..][i] == tf[i + 1];
      }
      ReadTranslatableFrame(ReadOne(data, inst, rows, tf[0], media, langs, urlOf), inst, rows, tf[1..], media, langs, urlOf, k);
    }
  }

  lemma {:induction false} FieldReadingAt(data: map<string, Value>, inst: Instance, rows: seq<MediaRow>, tf: seq<string>,
                                          media: seq<string>, langs: seq<Language>, urlOf: Upload -> string, i: int)
    requires DeclarationWellFormed(tf, media, langs) && 0 <= i < |tf|
    ensures var r := ReadTranslatable(data, inst, rows, tf, media, langs, urlOf);
      var d := FieldReading(data, inst, rows, tf[i], media, langs, urlOf);
      (tf[i] in r) == (tf[i] in d) && (tf[i] in d ==> r[tf[i]] == d[tf[i]])
    decreases |tf|
  {
    var next := ReadOne(data, inst, rows, tf[0], media, langs, urlOf);
    if i == 0 {
      FirstFieldKept(next, inst, rows, tf, media, langs, urlOf);
    } else {
      assert tf[1..][i - 1] == tf[i];
      assert tf[i] != tf[0];
      assert forall a :: 0 <= a < |langs| ==> LangKeys(tf[0], langs)[a] != tf[i];
      ReadOneFrame(data, inst, rows, tf[0], media, langs, urlOf, tf[i]);
      WellFormedTail(tf, media, langs);
      FieldReadingAt(next, inst, rows, tf[1..], media, langs, urlOf, i - 1);
      FieldReadingOwnKey(next, data, inst, rows, tf[i], media, langs, urlOf);
    }
  }

  /** The first field's reading survives the later steps of the loop. */
  lemma FirstFieldKept(next: map<string, Value>, inst: Instance, rows: seq<MediaRow>, tf: seq<string>,
                       media: seq<string>, langs: seq<Language>, urlOf: Upload -> string)
    requires DeclarationWellFormed(tf, media, langs) && 0 < |tf|
    ensures var r := ReadTranslatable(next, inst, rows, tf[1..], media, langs, urlOf);
      (tf[0] in r) == (tf[0] in next) && (tf[0] in next ==> r[tf[0]] == next[tf[0]])
  {
    LaterStepsSkip(tf, media, langs, tf[0]);
    ReadTranslatableFrame(next, inst, rows, tf[1..], media, langs, urlOf, tf[0]);
  }

  /** How field `f` is read depends on the incoming map only through its own key. */
  lemma FieldReadingOwnKey(d1: map<string, Value>, d2: map<string, Value>, inst: Instance, rows: seq<MediaRow>, f: string,
                           media: seq<string>, langs: seq<Language>, urlOf: Upload -> string)
    requires (f in d1) == (f in d2) && (f in d1 ==> d1[f] == d2[f])
    ensures var r1 := FieldReading(d1, inst, rows, f, media, langs, urlOf);
      var r2 := FieldReading(d2, inst, rows, f, media, langs, urlOf);
      (f in r1) == (f in r2) && (f in r1 ==> r1[f] == r2[f])
  {
  }

  lemma {:induction false} LangKeyGone(data: map<string, Value>, inst: Instance, rows: seq<MediaRow>, tf: seq<string>,
                                       media: seq<string>, langs: seq<Language>, urlOf: Upload -> string, i: int, j: int)
    requires DeclarationWellFormed(tf, media, langs) && 0 <= i < |tf| && 0 <= j < |langs|
    ensures LangKey(tf[i], langs[j].code) !in ReadTranslatable(data, inst, rows, tf, media, langs, urlOf)
    decreases |tf|
  {
    var next := ReadOne(data, inst, rows, tf[0], media, langs, urlOf);
    if i == 0 {
      var k := LangKey(tf[0], langs[j].code);
      assert k in (set a | 0 <= a < |langs| :: LangKey(tf[0], langs[a].code));
      assert LangKeys(tf[0], langs)[j] == k;
      LaterStepsSkip(tf, media, langs, k);
      ReadTranslatableFrame(next, inst, rows, tf[1..], media, langs, urlOf, k);
    } else {
      assert tf[1..][i - 1] == tf[i];
      WellFormedTail(tf, media, langs);
      LangKeyGone(next, inst, rows, tf[1..], media, langs, urlOf, i - 1, j);
    }
  }

  lemma {:induction false} ReadSharedFrame(data: map<string, Value>, inst: Instance, rows: seq<MediaRow>, tf: seq<string>,
                                           media: seq<string>, langs: seq<Language>, urlOf: Upload -> string, k: string)
    requires k !in media || k in tf
    ensures (k in ReadShared(data, inst, rows, tf, media, langs, urlOf)) == (k in data)
    ensures k in data ==> ReadShared(data, inst, rows, tf, media, langs, urlOf)[k] == data[k]
    decreases |media|
  {
    if |media| > 0 {
      var next := if media[0] !in tf then data[media[0] := GetMedia(rows, inst.owner, media[0], None, langs, urlOf)] else data;
      ReadSharedFrame(next, inst, rows, tf, media[1..], langs, urlOf, k);
    }
  }

  lemma {:induction false} ReadSharedValue(data: map<string, Value>, inst: Instance, rows: seq<MediaRow>, tf: seq<string>,
                                           media: seq<string>, langs: seq<Language>, urlOf: Upload -> string, m: string)
    requires m in media && m !in tf
    ensures m in ReadShared(data, inst, rows, tf, media, langs, urlOf)
    ensures ReadShared(data, inst, rows, tf, media, langs, urlOf)[m] == GetMedia(rows, inst.owner, m, None, langs, urlOf)
    decreases |media|
  {
    var next := if media[0] !in tf then data[media[0] := GetMedia(rows, inst.owner, media[0], None, langs, urlOf)] else data;
    if m in media[1..] {
      ReadSharedValue(next, inst, rows, tf, media[1..], langs, urlOf, m);
    } else {
      ReadSharedFrame(next, inst, rows, tf, media[1..], langs, urlOf, m);
    }
  }

  /**
    The representation, for a well-formed declaration: a translatable text
    field holds the instance's `F_uz` value, or `''` when that value is falsy
    (and keeps its base value when the instance has no such attribute); a
    translatable media field holds its `uz` media; a shared media field its
    language-less media; no per-language key is left; every other key keeps
    the base serializer's value.
   */
  lemma RepresentShapes(base: map<string, Value>, inst: Instance, rows: seq<MediaRow>, tf: seq<string>,
                        media: seq<string>, langs: seq<Language>, urlOf: Upload -> string)
    requires DeclarationWellFormed(tf, media, langs)
    ensures var r := Represent(base, inst, rows, tf, media, langs, urlOf);
      && (forall i :: 0 <= i < |tf| && tf[i] !in media && TextKey(tf[i]) in inst.attrs ==>
            tf[i] in r && r[tf[i]] == (if Truthy(inst.attrs[TextKey(tf[i])]) then inst.attrs[TextKey(tf[i])] else Text("")))
      && (forall i :: 0 <= i < |tf| && tf[i] !in media && TextKey(tf[i]) !in inst.attrs ==>
            (tf[i] in r <==> tf[i] in base) && (tf[i] in base ==> r[tf[i]] == base[tf[i]]))
      && (forall i :: 0 <= i < |tf| && tf[i] in media ==>
            tf[i] in r && r[tf[i]] == GetMedia(rows, inst.owner, tf[i], Some(ReadLanguage()), langs, urlOf))
      && (forall i, j :: 0 <= i < |tf| && 0 <= j < |langs| ==> LangKey(tf[i], langs[j].code) !in r)
      && (forall m :: m in media && m !in tf ==> m in r && r[m] == GetMedia(rows, inst.owner, m, None, langs, urlOf))
      && (forall k :: k in base && k !in tf && k !in media && k !in ManufacturedKeys(tf, media, langs) ==>
            k in r && r[k] == base[k])
  {
    var mid := ReadTranslatable(base, inst, rows, tf, media, langs, urlOf);
    var r := Represent(base, inst, rows, tf, media, langs, urlOf);
    forall i | 0 <= i < |tf|
      ensures var d := FieldReading(base, inst, rows, tf[i], media, langs, urlOf);
        (tf[i] in r) == (tf[i] in d) && (tf[i] in d ==> r[tf[i]] == d[tf[i]])
    {
      FieldReadingAt(base, inst, rows, tf, media, langs, urlOf, i);
      ReadSharedFrame(mid, inst, rows, tf, media, langs, urlOf, tf[i]);
    }
    forall i, j | 0 <= i < |tf| && 0 <= j < |langs|
      ensures LangKey(tf[i], langs[j].code) !in r
    {
      LangKeyGone(base, inst, rows, tf, media, langs, urlOf, i, j);
      ReadSharedFrame(mid, inst, rows, tf, media, langs, urlOf, LangKey(tf[i], langs[j].code));
    }
    forall m | m in media && m !in tf
      ensures m in r && r[m] == GetMedia(rows, inst.owner, m, None, langs, urlOf)
    {
      ReadSharedValue(mid, inst, rows, tf, media, langs, urlOf, m);
    }
    forall k | k in base && k !in tf && k !in media && k !in ManufacturedKeys(tf, media, langs)
      ensures k in r && r[k] == base[k]
    {
      ReadTranslatableFrame(base, inst, rows, tf, media, langs, urlOf, k);
      ReadSharedFrame(mid, inst, rows, tf, media, langs, urlOf, k);
    }
  }

  // Round trips: what the write side stores is what the read side finds.

  /**
    Rows saved for the key `F_xx` of a translatable media field are found when
    the representation reads `F` in the read language exactly when `xx` is
    that language; every truthy uploaded file gets such a row.
   */
  lemma SavedTranslatedRowsRead(id0: nat, owner: Owner, user: Option<nat>, f: string, langs: seq<Language>, j: int, v: Value)
    requires CodesWellFormed(langs) && 0 <= j < |langs|
    requires forall i :: 0 <= i < |f| ==> !OccursAt(LangKey(f, langs[j].code), Suffix(langs[j].code), i)
    ensures var saved := EntryRows(id0, owner, user, (LangKey(f, langs[j].code), v), langs);
      && (forall r :: r in saved ==>
            (Matches(r, owner, ReadKind(f), QueryLanguage(Some(ReadLanguage()), langs))
             <==> Lower(langs[j].code) == ReadLanguage()))
      && (Truthy(v) ==> forall u :: u in FileList(v) && UploadTruthy(u) ==> exists r :: r in saved && r.file == Some(u))
  {
    var code := langs[j].code;
    var saved := EntryRows(id0, owner, user, (LangKey(f, code), v), langs);
    TranslatedEntryRows(id0, owner, user, f, langs, j, v);
    UploadRowsShape(id0, owner, user, KindOf(f), Some(code), FileList(v));
    ReadKindIsKindOf(f);
    var q := QueryLanguage(Some(ReadLanguage()), langs);
    if Lower(code) == ReadLanguage() {
      DbLanguageOfCode(langs, j);
    } else {
      DbLanguageFound(ReadLanguage(), langs);
      if q.Some? {
        var a :| 0 <= a < |langs| && langs[a].code == q.value && Lower(langs[a].code) == ReadLanguage();
        assert q != Some(code);
      }
    }
    assert forall i :: 0 <= i < |saved| ==> saved[i].language == Some(code) && saved[i].kind == KindOf(f) && saved[i].owner == owner;
    if Truthy(v) {
      forall u | u in FileList(v) && UploadTruthy(u)
        ensures exists r :: r in saved && r.file == Some(u)
      {
        var i :| 0 <= i < |saved| && saved[i].file == Some(u);
        assert saved[i] in saved;
      }
    }
  }

  /**
    Rows saved for a shared media field (whose name ends with no language
    suffix) are found when the representation reads that field's shared media,
    and never when it reads a configured language.
   */
  lemma SavedSharedRowsRead(id0: nat, owner: Owner, user: Option<nat>, f: string, langs: seq<Language>, v: Value)
    requires forall j :: 0 <= j < |langs| ==> !EndsWith(f, Suffix(langs[j].code))
    ensures var saved := EntryRows(id0, owner, user, (f, v), langs);
      && (forall r :: r in saved ==> Matches(r, owner, ReadKind(f), QueryLanguage(None, langs)))
      && (forall r, k :: r in saved && QueryLanguage(Some(ReadLanguage()), langs).Some? ==>
            !Matches(r, owner, k, QueryLanguage(Some(ReadLanguage()), langs)))
      && (Truthy(v) ==> forall u :: u in FileList(v) && UploadTruthy(u) ==> exists r :: r in saved && r.file == Some(u))
  {
    var saved := EntryRows(id0, owner, user, (f, v), langs);
    SharedEntryRows(id0, owner, user, f, langs, v);
    UploadRowsShape(id0, owner, user, KindOf(f), None, FileList(v));
    ReadKindIsKindOf(f);
    assert forall i :: 0 <= i < |saved| ==> saved[i].language == None && saved[i].kind == KindOf(f) && saved[i].owner == owner;
    if Truthy(v) {
      forall u | u in FileList(v) && UploadTruthy(u)
        ensures exists r :: r in saved && r.file == Some(u)
      {
        var i :| 0 <= i < |saved| && saved[i].file == Some(u);
        assert saved[i] in saved;
      }
    }
  }

  /**
    A translation sent as `F_uz` for a translatable text field is stored on the
    instance by `create` and read back as `F` by `to_representation`, with a
    falsy value read as `''`, when `uz` is a configured language.
   */
  lemma CreateThenReadText(validated: map<string, Value>, owner: Owner, rows: seq<MediaRow>, base: map<string, Value>,
                           tf: seq<string>, media: seq<string>, langs: seq<Language>, urlOf: Upload -> string, i: int, j: int)
    requires DeclarationWellFormed(tf, media, langs)
    requires 0 <= i < |tf| && tf[i] !in media
    requires 0 <= j < |langs| && Lower(langs[j].code) == ReadLanguage()
    requires TextKey(tf[i]) in validated
    ensures var inst := Instance(owner, Extract(validated, media, tf, langs).remaining);
      var v := validated[TextKey(tf[i])];
      var r := Represent(base, inst, rows, tf, media, langs, urlOf);
      tf[i] in r && r[tf[i]] == if Truthy(v) then v else Text("")
  {
    var f := tf[i];
    var k := TextKey(f);
    assert Lower(ReadLanguage()) == ReadLanguage();
    assert k == LangKey(f, langs[j].code);
    var cands := MediaCandidates(media, tf, langs);
    CandidatesAre(media, tf, langs, k);
    forall a, b | 0 <= a < |media| && 0 <= b < |langs| && media[a] in tf
      ensures k != LangKey(media[a], langs[b].code)
    {
      assert media[a] != f;
      DistinctFieldKeys(f, langs[j].code, media[a], langs[b].code);
    }
    assert k !in media;
    assert k !in cands;
    ExtractSplits(validated, media, tf, langs);
    var inst := Instance(owner, Extract(validated, media, tf, langs).remaining);
    assert k in inst.attrs && inst.attrs[k] == validated[k];
    RepresentShapes(base, inst, rows, tf, media, langs, urlOf);
  }
}
